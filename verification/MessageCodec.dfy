/** EncodeMsg and DecodeMsg around the emitted methods, and the round trip of whole messages. */
module MessageCodec {
  import opened Wrappers
  import opened Bytes
  import opened Cursors
  import opened Schema
  import opened Values
  import opened Program
  import opened Emitted
  import SizeProof
  import MarshalProof
  import UnmarshalProof
  import AnyBytes

  datatype MessageType = RequestMessage | ReplyMessage | EventMessage | OtherMessage

  /** Bytes of the message header, which precedes the fields. */
  function GetOffset(t: MessageType): nat
  {
    match t
    case RequestMessage => 10
    case ReplyMessage => 6
    case EventMessage => 6
    case OtherMessage => 2
  }

  /** The message ID, a zeroed rest of the header, and what the emitted Marshal makes of zeroed bytes. */
  function EncodeMsg(fields: seq<Field>, t: MessageType, vs: seq<Value>, msgID: nat): Option<bytes>
  {
    var sized :- Run(SizeProgram(fields), State(Rec(vs), map[], 0, Cursor([], 0)));
    var done :- Run(MarshalProgram(fields), State(Rec(vs), map[], 0, Cursor(Zeros(sized.size), 0)));
    Some(BigEndian(msgID, 2) + Zeros(GetOffset(t) - 2) + done.cur.buf)
  }

  /** The receiver after Unmarshal, and how many of the message's bytes were consumed. */
  function DecodeMsg(fields: seq<Field>, t: MessageType, data: bytes, before: seq<Value>): Option<(Value, nat)>
  {
    if |data| < GetOffset(t) then None
    else
      var done :- Run(UnmarshalProgram(fields), State(Rec(before), map[], 0, Cursor(data[GetOffset(t)..], 0)));
      Some((done.root, GetOffset(t) + done.cur.pos))
  }

  /**
   An encoded message is its header followed by the value's bytes, for any value of its type, and by one zero byte
   for each union of size 0, which Size counts and Marshal does not write.
   */
  lemma {:induction false} EncodedBytes(fields: seq<Field>, t: MessageType, vs: seq<Value>, msgID: nat)
    requires WellFormed(fields) && Typed(fields, vs)
    ensures EncodeMsg(fields, t, vs, msgID)
         == Some(BigEndian(msgID, 2) + Zeros(GetOffset(t) - 2) + Wire(fields, vs, 0) +
             Zeros(EmptyUnions(fields, vs, 0)))
  {
    hide WellFormed, Typed;
    SizeProof.EmittedSizeIsWireLength(fields, vs, Cursor([], 0));
    var wire, more := Wire(fields, vs, 0), EmptyUnions(fields, vs, 0);
    var c := Cursor(Zeros(|wire| + more), 0);
    MarshalProof.EmittedMarshalWritesWire(fields, vs, c);
    assert Write(c, wire).buf == wire + Zeros(more);
    var header := BigEndian(msgID, 2) + Zeros(GetOffset(t) - 2);
    assert header + (wire + Zeros(more)) == header + wire + Zeros(more);
  }

  /** Size is what Marshal advances, whatever room there is, exactly if no union of size 0 is encoded. */
  lemma {:induction false} SizeIsAdvance(fields: seq<Field>, vs: seq<Value>, room: nat)
    requires WellFormed(fields) && Typed(fields, vs) && room >= |Wire(fields, vs, 0)|
    ensures var size := Run(SizeProgram(fields), State(Rec(vs), map[], 0, Cursor([], 0)));
      var done := Run(MarshalProgram(fields), State(Rec(vs), map[], 0, Cursor(Zeros(room), 0)));
      && size.Some? && done.Some?
      && size.value.size == done.value.cur.pos + EmptyUnions(fields, vs, 0)
      && (size.value.size == done.value.cur.pos <==> EmptyUnions(fields, vs, 0) == 0)
  {
    SizeProof.EmittedSizeIsWireLength(fields, vs, Cursor([], 0));
    MarshalProof.EmittedMarshalWritesWire(fields, vs, Cursor(Zeros(room), 0));
  }

  /** Bytes behind a message are not looked at, and neither are header bytes other than the message ID. */
  lemma {:induction false} TrailingBytes(
    fields: seq<Field>, t: MessageType, vs: seq<Value>, header: bytes, more: bytes, before: seq<Value>)
    requires WellFormed(fields) && Typed(fields, vs) && Fits(fields, vs) && Typed(fields, before)
    requires |header| == GetOffset(t)
    ensures DecodeMsg(fields, t, header + Wire(fields, vs, 0) + more, before)
         == Some((Rec(Norm(fields, vs, |fields|)), |header| + |Wire(fields, vs, 0)|))
  {
    hide WellFormed, Typed, Fits, Norm, Wire, Run, UnmarshalProgram;
    var wire := Wire(fields, vs, 0);
    assert (header + wire + more)[|header|..] == wire + more;
    assert (wire + more)[0..|wire|] == wire;
    UnmarshalProof.EmittedUnmarshalReadsNorm(fields, vs, before, Cursor(wire + more, 0));
  }

  /** Header bytes other than the message ID may be rewritten in transit. */
  lemma {:induction false} DecodedValue(
    fields: seq<Field>, t: MessageType, vs: seq<Value>, header: bytes, before: seq<Value>)
    requires WellFormed(fields) && Typed(fields, vs) && Fits(fields, vs) && Typed(fields, before)
    requires |header| == GetOffset(t)
    ensures DecodeMsg(fields, t, header + Wire(fields, vs, 0), before)
         == Some((Rec(Norm(fields, vs, |fields|)), |header| + |Wire(fields, vs, 0)|))
  {
    hide *;
    TrailingBytes(fields, t, vs, header, [], before);
    assert header + Wire(fields, vs, 0) + [] == header + Wire(fields, vs, 0);
  }

  /**
   Decoding an encoded message into a receiver that held anything gives back the normalised value, and reads
   to the end of the value's bytes, exactly if all its lengths fit their size fields.
   */
  lemma {:induction false} MessageRoundTrip(
    fields: seq<Field>, t: MessageType, vs: seq<Value>, msgID: nat, before: seq<Value>)
    requires WellFormed(fields) && Typed(fields, vs) && Typed(fields, before)
    ensures var data := EncodeMsg(fields, t, vs, msgID);
      && data.Some?
      && |data.value| == GetOffset(t) + |Wire(fields, vs, 0)| + EmptyUnions(fields, vs, 0)
      && (DecodeMsg(fields, t, data.value, before)
          == Some((Rec(Norm(fields, vs, |fields|)), GetOffset(t) + |Wire(fields, vs, 0)|))
          <==> Fits(fields, vs))
  {
    hide *;
    EncodedBytes(fields, t, vs, msgID);
    HeaderLength(t, msgID);
    var header := BigEndian(msgID, 2) + Zeros(GetOffset(t) - 2);
    var more := Zeros(EmptyUnions(fields, vs, 0));
    if Fits(fields, vs) {
      TrailingBytes(fields, t, vs, header, more, before);
    } else {
      OnlyFittingValues(fields, t, vs, header + Wire(fields, vs, 0) + more, before);
    }
  }

  lemma {:induction false} HeaderLength(t: MessageType, msgID: nat)
    ensures GetOffset(t) >= 2 && |BigEndian(msgID, 2) + Zeros(GetOffset(t) - 2)| == GetOffset(t)
  {
  }

  /** No bytes at all decode to the normalised value of a value that does not fit. */
  lemma {:induction false} OnlyFittingValues(
    fields: seq<Field>, t: MessageType, vs: seq<Value>, data: bytes, before: seq<Value>)
    requires WellFormed(fields) && Typed(fields, vs) && Typed(fields, before) && !Fits(fields, vs)
    ensures |fields| == |vs|
    ensures DecodeMsg(fields, t, data, before).Some? ==>
      DecodeMsg(fields, t, data, before).value.0 != Rec(Norm(fields, vs, |fields|))
  {
    assert |vs| == |fields|;
    hide *;
    var out := DecodedIsSound(fields, t, data, before);
    if out == Norm(fields, vs, |fields|) && DecodeMsg(fields, t, data, before).Some? {
      NormSoundFits(fields, vs);
    }
  }

  /** Whatever bytes are decoded: they are refused by a panic, or give a sound value of the type. */
  lemma {:induction false} DecodedIsSound(fields: seq<Field>, t: MessageType, data: bytes, before: seq<Value>)
    returns (out: seq<Value>)
    requires WellFormed(fields) && Typed(fields, before)
    ensures var r := DecodeMsg(fields, t, data, before);
      r.Some? ==> r.value.0 == Rec(out) && Typed(fields, out) && AnyBytes.Sound(fields, out)
  {
    hide WellFormed, Typed, Run, UnmarshalProgram, AnyBytes.Sound;
    out := before;
    if |data| >= GetOffset(t) {
      var n: nat;
      out, n := AnyBytes.EmittedUnmarshalOfAnyBytes(fields, before, Cursor(data[GetOffset(t)..], 0));
    }
  }

  // ---------------------------------------------------------------- values that fit

  lemma {:induction false} ElemSoundFits(t: FType, v: Value)
    requires TypeOk(t) && ElemTyped(t, v) && ElemTyped(t, NormElem(t, v)) && AnyBytes.ElemSound(t, NormElem(t, v))
    ensures ElemFits(t, v)
    decreases t
  {
    match t {
      case AliasStruct(fields) => NormSoundFits(fields, v.vs);
      case Struct(fields) => NormSoundFits(fields, v.vs);
      case _ =>
    }
  }

  lemma {:induction false} FieldSoundFits(f: Field, v: Value)
    requires ShapeOk(f) && TypeOk(f.ftype) && FieldTyped(f, v)
    requires FieldTyped(f, NormField(f, v)) && AnyBytes.FieldSound(f, NormField(f, v))
    ensures FieldFits(f, v)
    decreases f
  {
    if f.ftype == Base(STRING) && f.length > 0 {
    } else if IsElemArray(f) {
      forall i | 0 <= i < |v.vs| ensures ElemFits(f.ftype, v.vs[i]) {
        assert NormElems(f.ftype, v.vs)[i] == NormElem(f.ftype, v.vs[i]);
        ElemSoundFits(f.ftype, v.vs[i]);
      }
    } else if !IsBaseArray(f) {
      ElemSoundFits(f.ftype, v);
    }
  }

  /** A value fits if what should come back from the wire can come from the wire at all. */
  lemma {:induction false} NormSoundFits(fields: seq<Field>, vs: seq<Value>)
    requires WellFormed(fields) && Typed(fields, vs)
    requires Typed(fields, Norm(fields, vs, |fields|)) && AnyBytes.Sound(fields, Norm(fields, vs, |fields|))
    ensures Fits(fields, vs)
    decreases fields
  {
    var norm := Norm(fields, vs, |fields|);
    forall i | 0 <= i < |fields| ensures FieldFits(fields[i], vs[i]) {
      assert ShapeOk(fields[i]) && TypeOk(fields[i].ftype) && FieldTyped(fields[i], vs[i]);
      assert FieldTyped(fields[i], norm[i]) && AnyBytes.FieldSound(fields[i], norm[i]);
      if FieldSizeOf(fields, i).Some? {
        LinksAgree(fields, FieldSizeOf(fields, i).value, i);
        assert CountedBefore(fields, FieldSizeOf(fields, i).value);
      } else {
        FieldSoundFits(fields[i], vs[i]);
      }
    }
    forall i | 0 <= i < |fields| && FieldSizeFrom(fields, i).Some?
      ensures var c := fields[FieldSizeFrom(fields, i).value].ftype; c.Base? ==> CountFits(c.base, Len(vs[i]))
    {
      var k := FieldSizeFrom(fields, i).value;
      LinksAgree(fields, i, k);
      assert CountedBefore(fields, i);
      assert norm[k] == Num(Len(vs[i])) && FieldTyped(fields[k], norm[k]) && ShapeOk(fields[k]);
    }
  }

  // ---------------------------------------------------------------- values that come back unchanged

  predicate CanonicalElem(t: FType, v: Value)
    decreases t
  {
    match t
    case AliasStruct(fields) => v.Rec? && Canonical(fields, v.vs)
    case Struct(fields) => v.Rec? && Canonical(fields, v.vs)
    case _ => true
  }

  predicate CanonicalField(f: Field, v: Value)
    decreases f
  {
    if f.ftype == Base(STRING) && f.length > 0 then v.Bytes? && |v.bs| <= f.length && 0 !in v.bs
    else if IsBaseArray(f) then f.length > 0 ==> Len(v) == f.length
    else if IsElemArray(f) then v.List? && forall i | 0 <= i < |v.vs| :: CanonicalElem(f.ftype, v.vs[i])
    else CanonicalElem(f.ftype, v)
  }

  /** Fixed strings fit and hold no NUL, fixed arrays are full, size fields hold their array's length. */
  predicate Canonical(fields: seq<Field>, vs: seq<Value>)
    decreases fields
  {
    |vs| == |fields| && forall i | 0 <= i < |fields| :: CanonicalAt(fields, vs, i)
  }

  predicate CanonicalAt(fields: seq<Field>, vs: seq<Value>, i: nat)
    requires i < |fields| == |vs|
    decreases fields, 0
  {
    var a := FieldSizeOf(fields, i);
    if a.Some? then vs[i] == Num(Len(vs[a.value])) else CanonicalField(fields[i], vs[i])
  }

  lemma {:induction false} FixedStringUnchanged(bs: bytes, n: nat)
    requires n > 0
    ensures CutAtNul(Fit(bs, n)) == bs <==> |bs| <= n && 0 !in bs
  {
    if 0 !in bs && |bs| < n {
      CutPaddedString(bs, n - |bs|);
    }
  }

  lemma {:induction false} NormElemUnchanged(t: FType, v: Value)
    requires TypeOk(t) && ElemTyped(t, v)
    ensures NormElem(t, v) == v <==> CanonicalElem(t, v)
    decreases t
  {
    match t {
      case AliasStruct(fields) => NormUnchanged(fields, v.vs);
      case Struct(fields) => NormUnchanged(fields, v.vs);
      case _ =>
    }
  }

  lemma {:induction false} NormFieldUnchanged(f: Field, v: Value)
    requires ShapeOk(f) && TypeOk(f.ftype) && FieldTyped(f, v)
    ensures NormField(f, v) == v <==> CanonicalField(f, v)
    decreases f
  {
    if f.ftype == Base(STRING) && f.length > 0 {
      FixedStringUnchanged(v.bs, f.length);
    } else if IsBaseArray(f) {
      NormBaseArrayUnchanged(f, v);
    } else if IsElemArray(f) {
      forall i | 0 <= i < |v.vs| ensures NormElem(f.ftype, v.vs[i]) == v.vs[i] <==> CanonicalElem(f.ftype, v.vs[i]) {
        NormElemUnchanged(f.ftype, v.vs[i]);
      }
      assert NormElems(f.ftype, v.vs) == v.vs <==> forall i | 0 <= i < |v.vs| :: NormElem(f.ftype, v.vs[i]) == v.vs[i];
    } else {
      NormElemUnchanged(f.ftype, v);
    }
  }

  lemma {:induction false} NormBaseArrayUnchanged(f: Field, v: Value)
    requires ShapeOk(f) && IsBaseArray(f) && FieldTyped(f, v)
    ensures NormField(f, v) == v <==> CanonicalField(f, v)
  {
    if f.ftype.base != U8 && Len(v) == ArrayCount(f, v) {
      assert NormScalars(f.ftype.base, v.vs, |v.vs|) == v.vs;
    }
  }

  /** Exactly the canonical values survive the wire unchanged. */
  lemma {:induction false} NormUnchanged(fields: seq<Field>, vs: seq<Value>)
    requires WellFormed(fields) && Typed(fields, vs)
    ensures Norm(fields, vs, |fields|) == vs <==> Canonical(fields, vs)
    decreases fields
  {
    forall i | 0 <= i < |fields| ensures NormAt(fields, vs, i) == vs[i] <==> CanonicalAt(fields, vs, i) {
      var a := FieldSizeOf(fields, i);
      assert ShapeOk(fields[i]) && TypeOk(fields[i].ftype) && FieldTyped(fields[i], vs[i]);
      if a.Some? {
        LinksAgree(fields, a.value, i);
        assert CountedBefore(fields, a.value);
      } else {
        NormFieldUnchanged(fields[i], vs[i]);
      }
    }
    assert Norm(fields, vs, |fields|) == vs <==> forall i | 0 <= i < |fields| :: NormAt(fields, vs, i) == vs[i];
  }

  lemma {:induction false} CanonicalRoundTrip(
    fields: seq<Field>, t: MessageType, vs: seq<Value>, msgID: nat, before: seq<Value>)
    requires WellFormed(fields) && Typed(fields, vs) && Fits(fields, vs) && Typed(fields, before)
    ensures var data := EncodeMsg(fields, t, vs, msgID);
      && data.Some?
      && (DecodeMsg(fields, t, data.value, before) == Some((Rec(vs), GetOffset(t) + |Wire(fields, vs, 0)|))
          <==> Canonical(fields, vs))
  {
    MessageRoundTrip(fields, t, vs, msgID, before);
    NormUnchanged(fields, vs);
  }
}
