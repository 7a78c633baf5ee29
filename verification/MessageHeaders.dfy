/**
 The header fields an API message starts with: the generator leaves them out of the Go type, and the codec makes room
 for them by the type of the message alone.
 */
module MessageHeaders {
  import opened Wrappers
  import opened Bytes
  import opened Cursors
  import opened Schema
  import opened Values
  import opened MessageCodec
  import opened RequestContext

  function LowerChar(c: char): char { if 'A' <= c <= 'Z' then (c as int + 32) as char else c }

  function ToLower(name: string): string { seq(|name|, i requires 0 <= i < |name| => LowerChar(name[i])) }

  const MSG_ID := "_vl_msg_id"
  const CLIENT_INDEX := "client_index"
  const CONTEXT := "context"

  predicate IsHeaderName(name: string) { ToLower(name) in {MSG_ID, CLIENT_INDEX, CONTEXT} }

  /** How many fields in front have the name of a header field. */
  function HeaderCount(all: seq<Field>): (n: nat)
    ensures n <= |all|
    ensures forall i | 0 <= i < n :: IsHeaderName(all[i].name)
    ensures n < |all| ==> !IsHeaderName(all[n].name)
  {
    if all == [] || !IsHeaderName(all[0].name) then 0 else 1 + HeaderCount(all[1..])
  }

  function OwnFields(all: seq<Field>): seq<Field> { all[HeaderCount(all)..] }

  /** newMessage: fields are skipped until one of another name has been seen. */
  method NewMessage(all: seq<Field>) returns (fields: seq<Field>)
    ensures fields == OwnFields(all)
  {
    fields := [];
    var n := 0;
    ghost var count := HeaderCount(all);
    for i := 0 to |all|
      invariant n == |fields| && fields == if i <= count then [] else all[count..i]
    {
      if n == 0 && IsHeaderName(all[i].name) {
        continue;
      }
      n := n + 1;
      fields := fields + [all[i]];
    }
  }

  predicate NamedAt(all: seq<Field>, i: nat, name: string) { i < |all| && all[i].name == name }

  /** The type of a message, by its first three names; None for one without an ID. */
  function MsgTypeOf(all: seq<Field>): Option<MessageType>
  {
    if !NamedAt(all, 0, MSG_ID) then None
    else if NamedAt(all, 1, CONTEXT) then Some(ReplyMessage)
    else if !NamedAt(all, 1, CLIENT_INDEX) then Some(OtherMessage)
    else if NamedAt(all, 2, CONTEXT) then Some(RequestMessage)
    else Some(EventMessage)
  }

  method GetMsgType(all: seq<Field>) returns (r: Option<MessageType>)
    ensures r == MsgTypeOf(all)
  {
    if |all| == 0 {
      return None;
    }
    var typ, wasClientIndex := OtherMessage, false;
    for i := 0 to |all|
      invariant i > 0 ==> NamedAt(all, 0, MSG_ID)
      invariant wasClientIndex <==> i > 1 && NamedAt(all, 1, CLIENT_INDEX)
      invariant i <= 1 ==> typ == OtherMessage
      invariant i == 2 ==> typ == if NamedAt(all, 1, CLIENT_INDEX) then EventMessage
                                  else if NamedAt(all, 1, CONTEXT) then ReplyMessage else OtherMessage
      invariant i > 2 ==> Some(typ) == MsgTypeOf(all)
    {
      match i {
        case 0 =>
          if all[0].name != MSG_ID {
            return None;
          }
        case 1 =>
          if all[1].name == CLIENT_INDEX {
            typ, wasClientIndex := EventMessage, true;
          } else if all[1].name == CONTEXT {
            typ := ReplyMessage;
          }
        case 2 =>
          if all[2].name == CONTEXT && wasClientIndex {
            typ := RequestMessage;
          }
        case _ =>
      }
    }
    return Some(typ);
  }

  // ---------------------------------------------------------------- the message that VPP sees

  /** An ID of 16 bits in front of fields of 32 bits; no array is counted by any of them. */
  ghost predicate ApiMessage(all: seq<Field>)
  {
    && WellFormed(all) && WellFormed(OwnFields(all))
    && MsgTypeOf(all).Some?
    && forall i | 0 <= i < HeaderCount(all) ::
      all[i].ftype == Base(if i == 0 then U16 else U32) && !all[i].isArray && all[i].sizeFrom == ""
  }

  ghost predicate HeaderTyped(all: seq<Field>, hs: seq<Value>)
  {
    |hs| == HeaderCount(all) && forall i | 0 <= i < |hs| :: FieldTyped(all[i], hs[i])
  }

  /** The header is one of those that go with a type of message. */
  predicate PlainHeader(all: seq<Field>)
  {
    var n := HeaderCount(all);
    || n == 1
    || (n == 2 && (NamedAt(all, 1, CLIENT_INDEX) || NamedAt(all, 1, CONTEXT)))
    || (n == 3 && NamedAt(all, 1, CLIENT_INDEX) && NamedAt(all, 2, CONTEXT))
  }

  lemma {:induction false} HeaderNames()
    ensures IsHeaderName(MSG_ID) && IsHeaderName(CLIENT_INDEX) && IsHeaderName(CONTEXT)
  {
    assert ToLower(MSG_ID) == MSG_ID && ToLower(CLIENT_INDEX) == CLIENT_INDEX && ToLower(CONTEXT) == CONTEXT;
  }

  lemma {:induction false} LeadingHeaders(all: seq<Field>, n: nat)
    requires n <= |all| && forall i | 0 <= i < n :: IsHeaderName(all[i].name)
    ensures HeaderCount(all) >= n
  {
    if n > 0 {
      LeadingHeaders(all[1..], n - 1);
    }
  }

  /** The names a type of message is recognised by are among those that are left out. */
  lemma {:induction false} TypeIsHeader(all: seq<Field>)
    requires MsgTypeOf(all).Some?
    ensures HeaderCount(all) >= 1
    ensures MsgTypeOf(all).value in {ReplyMessage, EventMessage} ==> HeaderCount(all) >= 2
    ensures MsgTypeOf(all).value == RequestMessage ==> HeaderCount(all) >= 3
  {
    HeaderNames();
    LeadingHeaders(all, 1);
    if MsgTypeOf(all).value != OtherMessage {
      LeadingHeaders(all, 2);
    }
    if MsgTypeOf(all).value == RequestMessage {
      LeadingHeaders(all, 3);
    }
  }

  lemma {:induction false} NoHeaderCounts(all: seq<Field>, i: nat)
    requires ApiMessage(all) && i < HeaderCount(all)
    ensures FieldSizeOf(all, i) == None
  {
    var n, own := HeaderCount(all), OwnFields(all);
    forall k | 0 <= k < |own| ensures own[k] == all[n + k] && own[k].sizeFrom != all[i].name {
      if own[k].sizeFrom != "" {
        assert CountedBefore(own, k);
        var c := FieldSizeFrom(own, k).value;
        assert own[c] == all[n + c] && all[n + c].name != all[i].name;
      }
    }
  }

  lemma {:induction false} OwnSizeOf(all: seq<Field>, k: nat)
    requires ApiMessage(all) && k < |OwnFields(all)|
    ensures var n := HeaderCount(all);
      match FieldSizeOf(OwnFields(all), k)
      case None => FieldSizeOf(all, n + k) == None
      case Some(a) => FieldSizeOf(all, n + k) == Some(n + a)
  {
    hide TypeOk, ShapeOk, CountedBefore, MsgTypeOf, HeaderCount;
    var n, own := HeaderCount(all), OwnFields(all);
    assert own == all[n..] && own[k] == all[n + k] && all[n + k].name != "";
    if own[k].sizeFrom == "" {
      SizedBehind(all, own, n, own[k].name);
    }
  }

  /** The first array of a name to be found behind fields without size fields. */
  lemma {:induction false} SizedBehind(all: seq<Field>, own: seq<Field>, n: nat, name: string)
    requires n <= |all| && own == all[n..] && LinksOk(all) && name != ""
    requires forall i | 0 <= i < n :: all[i].sizeFrom == ""
    ensures match FirstSizedBy(own, name, 0)
      case None => FirstSizedBy(all, name, 0) == None
      case Some(a) => FirstSizedBy(all, name, 0) == Some(n + a)
  {
    hide CountedBefore;
    var here, there := FirstSizedBy(own, name, 0), FirstSizedBy(all, name, 0);
    if there.Some? {
      assert own[there.value - n] == all[there.value];
    }
    if here.Some? {
      assert own[here.value] == all[n + here.value];
    }
  }

  lemma {:induction false} OwnWireAt(all: seq<Field>, hs: seq<Value>, vs: seq<Value>, k: nat)
    requires ApiMessage(all) && |hs| == HeaderCount(all) && |vs| == |OwnFields(all)| && k < |vs|
    ensures WireAt(all, hs + vs, HeaderCount(all) + k) == WireAt(OwnFields(all), vs, k)
  {
    hide ApiMessage, FieldSizeOf, WireField, ScalarBytes, HeaderCount;
    var n, own := HeaderCount(all), OwnFields(all);
    OwnSizeOf(all, k);
    assert own[k] == all[n + k] && (hs + vs)[n + k] == vs[k];
    var a := FieldSizeOf(own, k);
    if a.Some? {
      assert (hs + vs)[n + a.value] == vs[a.value];
    }
  }

  lemma {:induction false} OwnWire(all: seq<Field>, hs: seq<Value>, vs: seq<Value>, k: nat)
    requires ApiMessage(all) && |hs| == HeaderCount(all) && |vs| == |OwnFields(all)| && k <= |OwnFields(all)|
    ensures Wire(all, hs + vs, HeaderCount(all) + k) == Wire(OwnFields(all), vs, k)
    decreases |OwnFields(all)| - k
  {
    hide ApiMessage, WireAt, HeaderCount;
    if k < |OwnFields(all)| {
      OwnWireAt(all, hs, vs, k);
      OwnWire(all, hs, vs, k + 1);
    }
  }

  /** Header field i on the wire. */
  lemma {:induction false} HeaderField(all: seq<Field>, hs: seq<Value>, vs: seq<Value>, i: nat)
    requires ApiMessage(all) && HeaderTyped(all, hs) && |vs| == |OwnFields(all)| && i < HeaderCount(all)
    ensures hs[i].Num? && 0 <= hs[i].n < Pow256(if i == 0 then 2 else 4)
    ensures WireAt(all, hs + vs, i) == BigEndian(hs[i].n, if i == 0 then 2 else 4)
  {
    NoHeaderCounts(all, i);
    hide FieldSizeOf, Pow256, BigEndian, TypeOk, LinksOk, MsgTypeOf, HeaderCount;
    assert |hs + vs| == |all| && (hs + vs)[i] == hs[i] && FieldTyped(all[i], hs[i]) && ShapeOk(all[i]);
    assert ElemTyped(all[i].ftype, hs[i]);
    assert WireAt(all, hs + vs, i) == WireElem(all[i].ftype, hs[i]);
  }

  // ---------------------------------------------------------------- encoding and decoding

  /** The bytes a header takes on the wire. */
  function HeaderLength(all: seq<Field>): nat { if HeaderCount(all) == 0 then 0 else 4 * HeaderCount(all) - 2 }

  /** The bytes of header fields i, i + 1, ... */
  function HeaderBytes(hs: seq<Value>, i: nat): (s: bytes)
    requires forall i | 0 <= i < |hs| :: hs[i].Num? && 0 <= hs[i].n
    ensures 0 < i <= |hs| ==> |s| == 4 * (|hs| - i)
    decreases |hs| - i
  {
    if i >= |hs| then [] else BigEndian(hs[i].n, if i == 0 then 2 else 4) + HeaderBytes(hs, i + 1)
  }

  lemma {:induction false} WholeFrom(all: seq<Field>, hs: seq<Value>, vs: seq<Value>, i: nat)
    requires ApiMessage(all) && HeaderTyped(all, hs) && |vs| == |OwnFields(all)| && i <= |hs|
    requires forall i | 0 <= i < |hs| :: hs[i].Num? && 0 <= hs[i].n
    ensures Wire(all, hs + vs, i) == HeaderBytes(hs, i) + Wire(OwnFields(all), vs, 0)
    decreases |hs| - i
  {
    hide WireAt, BigEndian, ApiMessage, FieldTyped;
    if i < |hs| {
      HeaderField(all, hs, vs, i);
      WholeFrom(all, hs, vs, i + 1);
    } else {
      OwnWire(all, hs, vs, 0);
    }
  }

  /** The message that VPP sees is its header and the fields of the Go type. */
  lemma {:induction false} WholeMessage(all: seq<Field>, hs: seq<Value>, vs: seq<Value>)
    requires ApiMessage(all) && HeaderTyped(all, hs) && |vs| == |OwnFields(all)|
    ensures forall i | 0 <= i < |hs| :: hs[i].Num? && 0 <= hs[i].n < Pow256(if i == 0 then 2 else 4)
    ensures Wire(all, hs + vs, 0) == HeaderBytes(hs, 0) + Wire(OwnFields(all), vs, 0)
    ensures |HeaderBytes(hs, 0)| == HeaderLength(all)
  {
    TypeIsHeader(all);
    forall i | 0 <= i < |hs| ensures hs[i].Num? && 0 <= hs[i].n < Pow256(if i == 0 then 2 else 4) {
      HeaderField(all, hs, vs, i);
    }
    WholeFrom(all, hs, vs, 0);
  }

  /** The header as EncodeMsg leaves it: the message ID, and zeros in place of client index and context. */
  function NewHeader(all: seq<Field>, msgID: uint16): seq<Value>
  {
    seq(HeaderCount(all), i => Num(if i == 0 then msgID else 0))
  }

  lemma {:induction false} NewHeaderTyped(all: seq<Field>, msgID: uint16)
    requires ApiMessage(all)
    ensures HeaderTyped(all, NewHeader(all, msgID))
  {
    Pow256Values();
    forall i | 0 <= i < HeaderCount(all) ensures FieldTyped(all[i], NewHeader(all, msgID)[i]) {
      assert ShapeOk(all[i]);
    }
  }

  lemma {:induction false} ZeroHeader(hs: seq<Value>, i: nat)
    requires i > 0 && forall k | 0 <= k < |hs| :: hs[k].Num? && 0 <= hs[k].n && (k > 0 ==> hs[k].n == 0)
    ensures HeaderBytes(hs, i) == Zeros(if i < |hs| then 4 * (|hs| - i) else 0)
    decreases |hs| - i
  {
    if i < |hs| {
      ZeroHeader(hs, i + 1);
      assert BigEndian(0, 4) == Zeros(4);
    }
  }

  /** The type of a message makes room for its header exactly if the header is plain. */
  lemma {:induction false} RoomForHeader(all: seq<Field>)
    requires MsgTypeOf(all).Some?
    ensures GetOffset(MsgTypeOf(all).value) == HeaderLength(all) <==> PlainHeader(all)
  {
    TypeIsHeader(all);
  }

  /**
   What EncodeMsg makes of the Go type's fields is the whole message that VPP sees, with zeros for client index and
   context, exactly if the message has one of the plain headers.
   */
  lemma {:induction false} EncodedIsWhole(all: seq<Field>, vs: seq<Value>, msgID: uint16)
    requires ApiMessage(all) && Typed(OwnFields(all), vs)
    ensures EncodeMsg(OwnFields(all), MsgTypeOf(all).value, vs, msgID)
         == Some(Wire(all, NewHeader(all, msgID) + vs, 0) + Zeros(EmptyUnions(OwnFields(all), vs, 0)))
       <==> PlainHeader(all)
  {
    hide *;
    OwnTyped(all, vs);
    var own, t, hs := OwnFields(all), MsgTypeOf(all).value, NewHeader(all, msgID);
    NewHeaderTyped(all, msgID);
    WholeMessage(all, hs, vs);
    RoomForHeader(all);
    EncodedBytes(own, t, vs, msgID);
    MessageCodec.HeaderLength(t, msgID);
    NewHeaderBytes(all, msgID);
    var wire, more := Wire(own, vs, 0), Zeros(EmptyUnions(own, vs, 0));
    var sent := BigEndian(msgID, 2) + Zeros(GetOffset(t) - 2);
    assert |sent + wire + more| == GetOffset(t) + |wire| + |more|;
    assert |HeaderBytes(hs, 0) + wire + more| == HeaderLength(all) + |wire| + |more|;
  }

  lemma {:induction false} OwnTyped(all: seq<Field>, vs: seq<Value>)
    requires ApiMessage(all) && Typed(OwnFields(all), vs)
    ensures WellFormed(OwnFields(all)) && |vs| == |OwnFields(all)| && MsgTypeOf(all).Some?
  {
  }

  lemma {:induction false} NewHeaderBytes(all: seq<Field>, msgID: uint16)
    requires MsgTypeOf(all).Some?
    ensures HeaderLength(all) >= 2
    ensures var hs := NewHeader(all, msgID);
      && (forall k | 0 <= k < |hs| :: hs[k].Num? && 0 <= hs[k].n)
      && HeaderBytes(hs, 0) == BigEndian(msgID, 2) + Zeros(HeaderLength(all) - 2)
  {
    TypeIsHeader(all);
    ZeroHeader(NewHeader(all, msgID), 1);
  }

  /**
   Whatever its header holds, a message with a plain header decodes to the normalised value of its own fields; bytes
   that are too few for the header are refused.
   */
  lemma {:induction false} WholeIsDecoded(
    all: seq<Field>, hs: seq<Value>, vs: seq<Value>, more: bytes, before: seq<Value>, data: bytes)
    requires ApiMessage(all) && HeaderTyped(all, hs) && PlainHeader(all)
    requires Typed(OwnFields(all), vs) && Fits(OwnFields(all), vs) && Typed(OwnFields(all), before)
    ensures var own, whole := OwnFields(all), Wire(all, hs + vs, 0);
      && DecodeMsg(own, MsgTypeOf(all).value, whole + more, before) == Some((Rec(Norm(own, vs, |own|)), |whole|))
      && (|data| < |whole| - |Wire(own, vs, 0)| ==> DecodeMsg(own, MsgTypeOf(all).value, data, before) == None)
  {
    hide *;
    OwnTyped(all, vs);
    var own, t := OwnFields(all), MsgTypeOf(all).value;
    WholeMessage(all, hs, vs);
    RoomForHeader(all);
    TrailingBytes(own, t, vs, HeaderBytes(hs, 0), more, before);
    TooShort(own, t, data, before);
  }

  lemma {:induction false} TooShort(fields: seq<Field>, t: MessageType, data: bytes, before: seq<Value>)
    ensures |data| < GetOffset(t) ==> DecodeMsg(fields, t, data, before) == None
  {
  }

  // ---------------------------------------------------------------- client index and context

  lemma {:induction false} RequestBytes(all: seq<Field>, hs: seq<Value>, vs: seq<Value>)
    requires ApiMessage(all) && HeaderTyped(all, hs) && |vs| == |OwnFields(all)| && PlainHeader(all)
    requires MsgTypeOf(all) == Some(RequestMessage)
    ensures |hs| == 3 && forall i | 0 <= i < 3 :: hs[i].Num? && 0 <= hs[i].n < Pow256(if i == 0 then 2 else 4)
    ensures Wire(all, hs + vs, 0)
         == BigEndian(hs[0].n, 2) + BigEndian(hs[1].n, 4) + BigEndian(hs[2].n, 4) + Wire(OwnFields(all), vs, 0)
  {
    hide HeaderCount, Wire, BigEndian, ApiMessage;
    TypeIsHeader(all);
    WholeMessage(all, hs, vs);
    assert HeaderBytes(hs, 2) == BigEndian(hs[2].n, 4) + HeaderBytes(hs, 3);
    assert HeaderBytes(hs, 1) == BigEndian(hs[1].n, 4) + HeaderBytes(hs, 2);
    assert HeaderBytes(hs, 0) == BigEndian(hs[0].n, 2) + HeaderBytes(hs, 1);
  }

  /** setMsgRequestHeader fills in the fields client_index and context of the request, and changes nothing else. */
  lemma {:induction false} HeaderFilledIn(
    all: seq<Field>, hs: seq<Value>, vs: seq<Value>, more: bytes, clientIndex: uint32, context: uint32)
    requires ApiMessage(all) && HeaderTyped(all, hs) && |vs| == |OwnFields(all)| && PlainHeader(all)
    requires MsgTypeOf(all) == Some(RequestMessage)
    ensures |hs| == 3 && |Wire(all, hs + vs, 0)| >= 10
    ensures WithRequestHeader(Wire(all, hs + vs, 0) + more, clientIndex, context)
         == Wire(all, [hs[0], Num(clientIndex), Num(context)] + vs, 0) + more
  {
    hide Wire, WellFormed, BigEndian;
    RequestBytes(all, hs, vs);
    var filled := [hs[0], Num(clientIndex), Num(context)];
    FilledTyped(all, hs, clientIndex, context);
    RequestBytes(all, filled, vs);
    var wire := Wire(OwnFields(all), vs, 0);
    var data := Wire(all, hs + vs, 0) + more;
    assert data[..2] == BigEndian(hs[0].n, 2);
    assert data[10..] == wire + more;
    var front := BigEndian(hs[0].n, 2) + BigEndian(clientIndex, 4) + BigEndian(context, 4);
    assert front + (wire + more) == (front + wire) + more;
  }

  lemma {:induction false} FilledTyped(all: seq<Field>, hs: seq<Value>, clientIndex: uint32, context: uint32)
    requires ApiMessage(all) && HeaderTyped(all, hs) && |hs| == 3
    ensures HeaderTyped(all, [hs[0], Num(clientIndex), Num(context)])
  {
    Pow256Values();
    assert ShapeOk(all[0]) && ShapeOk(all[1]) && ShapeOk(all[2]);
  }

  /** The context decoded from a message is its field of that name, and 0 without one. */
  lemma {:induction false} ContextIsField(all: seq<Field>, hs: seq<Value>, vs: seq<Value>, more: bytes)
    requires ApiMessage(all) && HeaderTyped(all, hs) && |vs| == |OwnFields(all)| && PlainHeader(all)
    ensures forall i | 0 <= i < |hs| :: hs[i].Num? && hs[i].n >= 0
    ensures var context := DecodeMsgContext(Wire(all, hs + vs, 0) + more, MsgTypeOf(all).value);
      && (forall i | 0 <= i < |hs| && all[i].name == CONTEXT :: context == Some(hs[i].n))
      && ((forall i | 0 <= i < |hs| :: all[i].name != CONTEXT) ==> context == Some(0))
  {
    hide Wire, BigEndian, FromBigEndian;
    WholeMessage(all, hs, vs);
    TypeIsHeader(all);
    var data := Wire(all, hs + vs, 0) + more;
    var bs := HeaderBytes(hs, 0);
    if |hs| >= 2 {
      BigEndianRoundTrip(hs[1].n, 4);
      assert data[2..6] == BigEndian(hs[1].n, 4) by { HeaderSlice(hs, 1, data); }
    }
    if |hs| == 3 {
      BigEndianRoundTrip(hs[2].n, 4);
      assert data[6..10] == BigEndian(hs[2].n, 4) by { HeaderSlice(hs, 2, data); }
    }
  }

  lemma {:induction false} HeaderSlice(hs: seq<Value>, i: nat, data: bytes)
    requires 1 <= i <= 2 && i < |hs| && forall k | 0 <= k < |hs| :: hs[k].Num? && 0 <= hs[k].n
    requires HeaderBytes(hs, 0) <= data
    ensures |data| >= 2 + 4 * i && data[4 * i - 2..4 * i + 2] == BigEndian(hs[i].n, 4)
  {
    hide BigEndian;
    var bs := HeaderBytes(hs, 0);
    assert bs == BigEndian(hs[0].n, 2) + (BigEndian(hs[1].n, 4) + HeaderBytes(hs, 2));
    assert data[..|bs|] == bs;
    if i == 1 {
      assert bs[2..6] == BigEndian(hs[1].n, 4);
      assert data[2..6] == bs[2..6];
    } else {
      assert HeaderBytes(hs, 2) == BigEndian(hs[2].n, 4) + HeaderBytes(hs, 3);
      assert bs[6..10] == BigEndian(hs[2].n, 4);
      assert data[6..10] == bs[6..10];
    }
  }

  // ---------------------------------------------------------------- a header that is not plain

  function HeaderOf(name: string): Field { Field(name, Base(if name == MSG_ID then U16 else U32), false, 0, "") }

  /** With context in front of client_index a message counts as a reply, with room for only one of them. */
  lemma {:induction false} ContextFirst()
    ensures var all := [HeaderOf(MSG_ID), HeaderOf(CONTEXT), HeaderOf(CLIENT_INDEX)];
      ApiMessage(all) && MsgTypeOf(all) == Some(ReplyMessage) && OwnFields(all) == [] && !PlainHeader(all)
  {
    var all := [HeaderOf(MSG_ID), HeaderOf(CONTEXT), HeaderOf(CLIENT_INDEX)];
    HeaderNames();
    LeadingHeaders(all, 3);
    assert OwnFields(all) == [];
    assert MSG_ID[0] == '_' && CONTEXT[1] == 'o' && CLIENT_INDEX[1] == 'l';
  }

  /** Names are compared without case when a field is left out, and with case when the type is found. */
  lemma {:induction false} CapitalContext()
    ensures var all := [HeaderOf(MSG_ID), HeaderOf("Context")];
      ApiMessage(all) && MsgTypeOf(all) == Some(OtherMessage) && OwnFields(all) == [] && !PlainHeader(all)
  {
    var all := [HeaderOf(MSG_ID), HeaderOf("Context")];
    HeaderNames();
    assert ToLower("Context") == CONTEXT;
    LeadingHeaders(all, 2);
    assert OwnFields(all) == [];
    assert MSG_ID[0] == '_' && CONTEXT[0] == 'c' && CLIENT_INDEX[1] == 'l' && "Context"[0] == 'C';
  }
}
