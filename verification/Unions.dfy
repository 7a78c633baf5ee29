/**
 Unions: a data field of getUnionSize bytes, and for each member a setter and a getter built from the
 same encoder and decoder as messages. getUnionSize is computed from the schema alone.
 */
module Unions {
  import opened Wrappers
  import opened Bytes
  import opened Cursors
  import opened Schema
  import opened Values
  import opened Program
  import opened Emitted
  import SizeProof
  import MarshalProof
  import UnmarshalProof
  import MessageCodec
  import ShortBuffers

  // ---------------------------------------------------------------- encoded size of a schema

  /** Nothing in f has a length that only the value knows. */
  predicate FixedSize(f: Field)
    decreases f
  {
    f.sizeFrom == "" && (f.ftype == Base(STRING) ==> f.length > 0) && FixedType(f.ftype)
  }

  predicate FixedType(t: FType)
    decreases t
  {
    match t
    case AliasStruct(fields) => forall i | 0 <= i < |fields| :: FixedSize(fields[i])
    case Struct(fields) => forall i | 0 <= i < |fields| :: FixedSize(fields[i])
    case _ => true
  }

  /** Bytes that every value of a fixed-size type takes on the wire. */
  function TypeLength(t: FType): nat
    decreases t
  {
    match t
    case Base(b) => BaseTypeSize(b)
    case Enum(b) => BaseTypeSize(b)
    case Alias(b, n) => if n > 0 then BaseTypeSize(b) * n else BaseTypeSize(b)
    case AliasStruct(fields) => StructLength(fields, 0)
    case Struct(fields) => StructLength(fields, 0)
    case Union(members) => UnionSize(members)
  }

  function FieldLength(f: Field): nat
    decreases f
  {
    if f.length > 0 then TypeLength(f.ftype) * f.length else TypeLength(f.ftype)
  }

  function StructLength(fields: seq<Field>, k: nat): nat
    requires k <= |fields|
    decreases fields, |fields| - k
  {
    if k == |fields| then 0 else FieldLength(fields[k]) + StructLength(fields, k + 1)
  }

  lemma {:induction false} TypeLengthIsWire(t: FType, v: Value)
    requires TypeOk(t) && FixedType(t) && t != Base(STRING) && ElemTyped(t, v)
    ensures |WireElem(t, v)| == TypeLength(t)
    decreases t, 0
  {
    match t {
      case Base(b) => SizeProof.ScalarLength(b, v);
      case Enum(b) => SizeProof.ScalarLength(b, v);
      case Alias(b, n) => if n == 0 { SizeProof.ScalarLength(b, v); }
      case AliasStruct(fields) => StructLengthIsWire(fields, v.vs, 0);
      case Struct(fields) => StructLengthIsWire(fields, v.vs, 0);
      case Union(_) =>
    }
  }

  lemma {:induction false} ElementsLength(t: FType, vs: seq<Value>, k: nat)
    requires TypeOk(t) && FixedType(t) && !t.Base? && k <= |vs|
    requires forall i | 0 <= i < |vs| :: ElemTyped(t, vs[i])
    ensures |WireElems(t, vs, k)| == TypeLength(t) * (|vs| - k)
    decreases t, 1, |vs| - k
  {
    if k < |vs| {
      TypeLengthIsWire(t, vs[k]);
      ElementsLength(t, vs, k + 1);
      Distribute(TypeLength(t), |vs| - k);
    }
  }

  lemma {:induction false} Distribute(w: nat, n: int)
    ensures w * n == w + w * (n - 1)
  {
  }

  lemma {:induction false} FieldLengthIsWire(f: Field, v: Value)
    requires ShapeOk(f) && TypeOk(f.ftype) && FixedSize(f) && FieldTyped(f, v)
    ensures |WireField(f, v)| == FieldLength(f)
    decreases f.ftype, 2, 0
  {
    if f.ftype == Base(STRING) {
    } else if IsBaseArray(f) {
      if f.ftype.base != U8 {
        SizeProof.ScalarsLength(f.ftype.base, v.vs, f.length, 0);
      }
    } else if IsElemArray(f) {
      ElementsLength(f.ftype, v.vs, 0);
    } else {
      TypeLengthIsWire(f.ftype, v);
    }
  }

  lemma {:induction false} StructLengthIsWire(fields: seq<Field>, vs: seq<Value>, k: nat)
    requires WellFormed(fields) && Typed(fields, vs) && k <= |fields|
    requires forall i | 0 <= i < |fields| :: FixedSize(fields[i])
    ensures |Wire(fields, vs, k)| == StructLength(fields, k)
    decreases fields, |fields| - k
  {
    if k < |fields| {
      assert ShapeOk(fields[k]) && TypeOk(fields[k].ftype) && FieldTyped(fields[k], vs[k]);
      SizeProof.SizeFieldLength(fields, vs, k);
      FieldLengthIsWire(fields[k], vs[k]);
      StructLengthIsWire(fields, vs, k + 1);
    }
  }

  // ---------------------------------------------------------------- what getUnionSize counts

  /** The size that getSizeOfStruct and getUnionSize use for a field. */
  function CountedSize(f: Field): nat
  {
    if f.ftype.Base? then SizeOfBase(f.ftype.base, f.length) else SizeOfField(f)
  }

  /**
   f is counted in full: an alias of a struct is counted as nothing, and an array of structs, unions
   or aliases as one element.
   */
  predicate FullyCounted(f: Field)
    decreases f
  {
    match f.ftype
    case Base(_) => true
    case Enum(_) => true
    case Alias(_, _) => f.length <= 1
    case Union(members) => f.length <= 1 || UnionSize(members) == 0
    case AliasStruct(fields) => StructLength(fields, 0) == 0
    case Struct(fields) =>
      || StructLength(fields, 0) == 0
      || (f.length <= 1 && forall i | 0 <= i < |fields| :: FullyCounted(fields[i]))
  }

  lemma {:induction false} Times(w: nat, n: nat)
    requires n > 0
    ensures w <= w * n
    ensures w == w * n <==> w == 0 || n == 1
  {
  }

  /** getSizeOfField never exceeds the encoded size, and meets it exactly for the fully counted fields. */
  lemma {:induction false} CountedExactly(f: Field)
    requires ShapeOk(f) && TypeOk(f.ftype) && FixedSize(f)
    ensures CountedSize(f) <= FieldLength(f)
    ensures CountedSize(f) == FieldLength(f) <==> FullyCounted(f)
    decreases f
  {
    if f.length > 0 {
      Times(TypeLength(f.ftype), f.length);
    }
    match f.ftype {
      case Struct(fields) => StructCountedExactly(fields, 0);
      case _ =>
    }
  }

  lemma {:induction false} StructCountedExactly(fields: seq<Field>, k: nat)
    requires WellFormed(fields) && k <= |fields| && forall i | 0 <= i < |fields| :: FixedSize(fields[i])
    ensures SizeOfStruct(fields, k) <= StructLength(fields, k)
    ensures SizeOfStruct(fields, k) == StructLength(fields, k)
       <==> forall i | k <= i < |fields| :: FullyCounted(fields[i])
    decreases fields, |fields| - k
  {
    if k < |fields| {
      assert ShapeOk(fields[k]) && TypeOk(fields[k].ftype);
      CountedExactly(fields[k]);
      StructCountedExactly(fields, k + 1);
    }
  }

  lemma {:induction false} UnionSizeIsMaximum(members: seq<Field>, k: nat)
    requires k <= |members|
    ensures forall i | k <= i < |members| :: SizeOfField(members[i]) <= UnionSizeFrom(members, k)
    ensures UnionSizeFrom(members, k) == 0 || exists i | k <= i < |members| ::
        SizeOfField(members[i]) == UnionSizeFrom(members, k)
    decreases |members| - k
  {
    if k < |members| {
      UnionSizeIsMaximum(members, k + 1);
    }
  }

  /** A member of fixed size, and no array: setters and getters of array members do not compile. */
  predicate PlainMember(f: Field)
  {
    ShapeOk(f) && TypeOk(f.ftype) && !f.ftype.Base? && !f.isArray && FixedSize(f)
  }

  predicate GoodMember(f: Field)
  {
    PlainMember(f) && FullyCounted(f)
  }

  /** For good members getUnionSize is the largest encoded member. */
  lemma {:induction false} UnionSizeIsLargestEncoding(members: seq<Field>)
    requires members != [] && forall i | 0 <= i < |members| :: GoodMember(members[i])
    ensures forall i | 0 <= i < |members| :: FieldLength(members[i]) <= UnionSize(members)
    ensures exists i | 0 <= i < |members| :: FieldLength(members[i]) == UnionSize(members)
  {
    forall i | 0 <= i < |members| ensures SizeOfField(members[i]) == FieldLength(members[i]) {
      assert GoodMember(members[i]);
      CountedExactly(members[i]);
    }
    UnionSizeIsMaximum(members, 0);
    if UnionSize(members) == 0 {
      assert SizeOfField(members[0]) == 0;
      assert FieldLength(members[0]) == UnionSize(members);
    } else {
      var i :| 0 <= i < |members| && SizeOfField(members[i]) == UnionSizeFrom(members, 0);
      assert FieldLength(members[i]) == UnionSize(members);
    }
  }

  // ---------------------------------------------------------------- setters and getters

  /** SetX(a) on a union whose data is `data`. */
  function SetMember(f: Field, data: bytes, a: Value): Option<bytes>
  {
    var st :- Run(EncodeValue(f, Root, false, 0), State(a, map[], 0, Cursor(data, 0)));
    Some(st.cur.buf)
  }

  /** The constructor sets the member on zeroed data. */
  function NewUnion(members: seq<Field>, i: nat, a: Value): Option<bytes>
    requires i < |members|
  {
    SetMember(members[i], Zeros(UnionSize(members)), a)
  }

  function GetMember(f: Field, data: bytes): Option<Value>
  {
    var st :- Run(DecodeField(f, Root, None, 0), State(ZeroElem(f.ftype), map[], 0, Cursor(data, 0)));
    Some(st.root)
  }

  /** Values without variable-length content always fit. */
  lemma {:induction false} FixedFits(f: Field, v: Value)
    requires FixedSize(f) && ShapeOk(f) && TypeOk(f.ftype) && FieldTyped(f, v)
    ensures FieldFits(f, v)
    decreases f.ftype, 1
  {
    if f.ftype == Base(STRING) {
    } else if IsElemArray(f) {
      forall i | 0 <= i < |v.vs| ensures ElemFits(f.ftype, v.vs[i]) {
        FixedTypeFits(f.ftype, v.vs[i]);
      }
    } else if !f.ftype.Base? {
      FixedTypeFits(f.ftype, v);
    }
  }

  lemma {:induction false} FixedTypeFits(t: FType, v: Value)
    requires FixedType(t) && TypeOk(t) && !t.Base? && ElemTyped(t, v)
    ensures ElemFits(t, v)
    decreases t, 0
  {
    if t.AliasStruct? || t.Struct? {
      forall i | 0 <= i < |t.fields| ensures FieldFits(t.fields[i], v.vs[i]) && FieldSizeFrom(t.fields, i).None? {
        assert ShapeOk(t.fields[i]) && TypeOk(t.fields[i].ftype) && FieldTyped(t.fields[i], v.vs[i]);
        FixedFits(t.fields[i], v.vs[i]);
      }
    }
  }

  /** The constructor stays within the data field exactly if the member's encoding is no longer than that. */
  lemma {:induction false} SetterNeedsRoom(members: seq<Field>, i: nat, a: Value)
    requires i < |members| && PlainMember(members[i]) && FieldTyped(members[i], a)
    ensures NewUnion(members, i, a).Some? <==> FieldLength(members[i]) <= UnionSize(members)
    ensures var data := NewUnion(members, i, a);
      data.Some? ==> data.value == WireField(members[i], a) + Zeros(UnionSize(members) - FieldLength(members[i]))
  {
    var f := members[i];
    FieldLengthIsWire(f, a);
    var wire := WireField(f, a);
    var c := Cursor(Zeros(UnionSize(members)), 0);
    var st := State(a, map[], 0, c);
    if |wire| <= UnionSize(members) {
      MarshalProof.EncodeValueOk(f, Root, 0, a, st);
      assert Write(c, wire).buf == wire + Zeros(UnionSize(members) - |wire|);
    } else {
      ShortBuffers.ShortValue(f, Root, 0, a, st);
    }
  }

  /**
   A value can be set exactly if there is room for it, and is then got back, up to the bytes behind the first NUL of
   a fixed string.
   */
  lemma {:induction false} UnionRoundTrip(members: seq<Field>, i: nat, a: Value)
    requires i < |members| && PlainMember(members[i]) && FieldTyped(members[i], a)
    ensures var data := NewUnion(members, i, a);
      && (data.Some? <==> FieldLength(members[i]) <= UnionSize(members))
      && (data.Some? ==>
        && |data.value| == UnionSize(members)
        && GetMember(members[i], data.value) == Some(NormField(members[i], a))
        && (GetMember(members[i], data.value) == Some(a) <==> MessageCodec.CanonicalField(members[i], a)))
  {
    var f := members[i];
    FieldLengthIsWire(f, a);
    SetterNeedsRoom(members, i, a);
    if NewUnion(members, i, a).Some? {
      GetterReads(f, NewUnion(members, i, a).value, a);
      MessageCodec.NormFieldUnchanged(f, a);
    }
  }

  lemma {:induction false} GetterReads(f: Field, data: bytes, a: Value)
    requires PlainMember(f) && FieldTyped(f, a) && WireField(f, a) <= data
    ensures GetMember(f, data) == Some(NormField(f, a))
  {
    var d := Cursor(data, 0);
    assert d.buf[0..|WireField(f, a)|] == WireField(f, a);
    var zero := ZeroElem(f.ftype);
    ZeroElemTyped(f.ftype);
    FixedFits(f, a);
    UnmarshalProof.DecodeFieldOk(f, Root, None, 0, a, zero, State(zero, map[], 0, d));
  }

  /** The members that are counted in full leave room for each other. */
  lemma {:induction false} GoodMembersFit(members: seq<Field>, i: nat, a: Value)
    requires forall k | 0 <= k < |members| :: GoodMember(members[k])
    requires i < |members| && FieldTyped(members[i], a)
    ensures NewUnion(members, i, a).Some?
  {
    assert GoodMember(members[i]);
    UnionSizeIsLargestEncoding(members);
    SetterNeedsRoom(members, i, a);
  }

  /** A member that is an alias of a struct is not counted, and setting it overruns the data field. */
  lemma {:induction false} AliasOfStructOverruns(x: Field, b: BaseType, a: Value)
    requires ShapeOk(x) && x.ftype == Base(U32) && !x.isArray && x.sizeFrom == "" && x.name != ""
    requires b in {U8, U16}
    ensures var m := Field("m", AliasStruct([x]), false, 0, "");
      var n := Field("n", Enum(b), false, 0, "");
      && PlainMember(m) && UnionSize([m, n]) == BaseTypeSize(b) < FieldLength(m) == 4
      && (FieldTyped(m, a) ==> NewUnion([m, n], 0, a) == None)
  {
    var m := Field("m", AliasStruct([x]), false, 0, "");
    var n := Field("n", Enum(b), false, 0, "");
    assert WellFormed([x]);
    assert FixedSize(x) && FixedType(AliasStruct([x]));
    OneFieldLength(x);
    SizeOfTwo(m, n);
    assert SizeOfField(m) == 0 && SizeOfField(n) == BaseTypeSize(b);
    assert FieldLength(m) == TypeLength(m.ftype) == 4;
    if FieldTyped(m, a) {
      SetterNeedsRoom([m, n], 0, a);
    }
  }

  lemma {:induction false} SizeOfTwo(m: Field, n: Field)
    ensures UnionSize([m, n]) == if SizeOfField(m) > SizeOfField(n) then SizeOfField(m) else SizeOfField(n)
  {
    var members := [m, n];
    assert members[0] == m && members[1] == n;
    assert UnionSizeFrom(members, 2) == 0;
    assert UnionSizeFrom(members, 1) == SizeOfField(n);
  }

  lemma {:induction false} OneFieldLength(x: Field)
    requires ShapeOk(x) && x.ftype == Base(U32) && !x.isArray
    ensures TypeLength(AliasStruct([x])) == 4
  {
    assert FieldLength(x) == TypeLength(x.ftype) == 4;
    assert StructLength([x], 1) == 0;
    assert [x][0] == x && StructLength([x], 0) == FieldLength(x) + StructLength([x], 1);
  }

  /** A union whose only member is an alias of a struct has size 0: Size counts a byte that Marshal does not write. */
  lemma {:induction false} EmptyUnionIsCounted(x: Field)
    requires ShapeOk(x) && x.ftype == Base(U32) && !x.isArray && x.sizeFrom == "" && x.name != ""
    ensures var u := Field("u", Union([Field("m", AliasStruct([x]), false, 0, "")]), false, 0, "");
      && WellFormed([u]) && Typed([u], [Value.Bytes([])])
      && EmptyUnions([u], [Value.Bytes([])], 0) == 1 && Wire([u], [Value.Bytes([])], 0) == []
  {
    var members := [Field("m", AliasStruct([x]), false, 0, "")];
    var u := Field("u", Union(members), false, 0, "");
    var vs := [Value.Bytes([])];
    assert WellFormed([x]);
    assert SizeOfField(members[0]) == 0 && UnionSizeFrom(members, 1) == 0;
    assert UnionSizeFrom(members, 0) == 0 && MembersOk(members) && TypeOk(u.ftype);
    assert FieldSizeOf([u], 0) == None by { assert FirstSizedBy([u], "u", 1) == None; }
    assert EmptyUnions([u], vs, 1) == 0 && Wire([u], vs, 1) == [];
    assert WireAt([u], vs, 0) == WireField(u, vs[0]) == WireElem(u.ftype, vs[0]) == [];
    assert EmptyUnionsField(u, vs[0]) == EmptyUnionsElem(u.ftype, vs[0]) == 1;
  }
}
