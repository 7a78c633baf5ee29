/**
 Go values of generated types, and the reference meaning of the wire format: which bytes a value
 stands for (Wire) and which value those bytes stand for (Norm). Neither mentions emitted code.
 */
module Values {
  import opened Wrappers
  import opened Bytes
  import opened Cursors
  import opened Schema

  /** A float64 is its 64-bit pattern. Bytes is a string, a byte slice or array, or a union's data. */
  datatype Value =
    | Num(n: int)
    | Bool(b: bool)
    | Bytes(bs: bytes)
    | List(vs: seq<Value>)
    | Rec(vs: seq<Value>)

  /** Go's len */
  function Len(v: Value): nat
  {
    match v
    case Bytes(bs) => |bs|
    case List(vs) => |vs|
    case _ => 0
  }

  // ---------------------------------------------------------------- Go types

  predicate ScalarTyped(t: BaseType, v: Value)
  {
    match t
    case BOOL => v.Bool?
    case STRING => v.Bytes?
    case F64 => v.Num? && 0 <= v.n < Pow256(8)
    case _ =>
      var m := Pow256(BaseTypeSize(t));
      v.Num? && if IsSigned(t) then 0 - m <= 2 * v.n < m else 0 <= v.n < m
  }

  /** A value of the type itself: an element of an array, or a field that is none. */
  predicate ElemTyped(t: FType, v: Value)
    decreases t
  {
    match t
    case Base(b) => ScalarTyped(b, v)
    case Enum(b) => ScalarTyped(b, v)
    case Alias(b, n) => if n > 0 then v.Bytes? && |v.bs| == n else ScalarTyped(b, v)
    case AliasStruct(fields) => v.Rec? && Typed(fields, v.vs)
    case Struct(fields) => v.Rec? && Typed(fields, v.vs)
    case Union(members) => v.Bytes? && |v.bs| == UnionSize(members)
  }

  /** Arrays of base types are Go slices, so a fixed length is not part of their type. */
  predicate FieldTyped(f: Field, v: Value)
    decreases f
  {
    if IsBaseArray(f) then
      if f.ftype.base == U8 then v.Bytes?
      else v.List? && forall i | 0 <= i < |v.vs| :: ScalarTyped(f.ftype.base, v.vs[i])
    else if IsElemArray(f) then
      v.List? && (f.length > 0 ==> |v.vs| == f.length) && forall i | 0 <= i < |v.vs| :: ElemTyped(f.ftype, v.vs[i])
    else
      ElemTyped(f.ftype, v)
  }

  predicate IsBaseArray(f: Field)
  {
    f.ftype.Base? && f.ftype.base != STRING && (f.length > 0 || f.sizeFrom != "")
  }

  predicate IsElemArray(f: Field) { !f.ftype.Base? && f.isArray }

  predicate Typed(fields: seq<Field>, vs: seq<Value>)
    decreases fields
  {
    |vs| == |fields| && forall i | 0 <= i < |fields| :: FieldTyped(fields[i], vs[i])
  }

  // ---------------------------------------------------------------- counts that fit

  /** n can be stored in, and read back from, a size field of type t. */
  predicate CountFits(t: BaseType, n: nat)
  {
    if IsSigned(t) then 2 * n < Pow256(BaseTypeSize(t)) else n < Pow256(BaseTypeSize(t))
  }

  predicate ElemFits(t: FType, v: Value)
    decreases t
  {
    match t
    case Base(STRING) => v.Bytes? ==> |v.bs| < Pow256(4)
    case AliasStruct(fields) => v.Rec? ==> Fits(fields, v.vs)
    case Struct(fields) => v.Rec? ==> Fits(fields, v.vs)
    case _ => true
  }

  predicate FieldFits(f: Field, v: Value)
    decreases f
  {
    if f.ftype == Base(STRING) && f.length > 0 then true
    else if IsElemArray(f) then v.List? ==> forall i | 0 <= i < |v.vs| :: ElemFits(f.ftype, v.vs[i])
    else ElemFits(f.ftype, v)
  }

  /** Every array's length fits its size field and every variable string is shorter than 2^32. */
  predicate Fits(fields: seq<Field>, vs: seq<Value>)
    decreases fields
  {
    |vs| == |fields| ==>
      forall i | 0 <= i < |fields| ::
        && FieldFits(fields[i], vs[i])
        && (var k := FieldSizeFrom(fields, i);
            k.Some? && fields[k.value].ftype.Base? ==> CountFits(fields[k.value].ftype.base, Len(vs[i])))
  }

  // ---------------------------------------------------------------- bytes of a value

  function ScalarBytes(t: BaseType, v: Value): bytes
  {
    match (t, v)
    case (STRING, Bytes(bs)) => BigEndian(|bs| % 0x1_0000_0000, 4) + bs
    case (BOOL, Bool(b)) => [if b then 1 else 0]
    case (F64, Num(n)) => if n < 0 then [] else LittleEndian(n, 8)
    case (_, Num(n)) => BigEndian(ToUnsigned(n, BaseTypeSize(t)), BaseTypeSize(t))
    case _ => []
  }

  function ZeroScalar(t: BaseType): Value
  {
    match t
    case BOOL => Bool(false)
    case STRING => Bytes([])
    case _ => Num(0)
  }

  /** Element i of a fixed array of a base type, zero where the slice is too short. */
  function ScalarAt(t: BaseType, vs: seq<Value>, i: nat): Value
  {
    if i < |vs| then vs[i] else ZeroScalar(t)
  }

  function WireScalars(t: BaseType, vs: seq<Value>, n: nat, k: nat): bytes
    decreases n - k
  {
    if k >= n then [] else ScalarBytes(t, ScalarAt(t, vs, k)) + WireScalars(t, vs, n, k + 1)
  }

  function WireElem(t: FType, v: Value): bytes
    decreases t, 0
  {
    match t
    case Base(b) => ScalarBytes(b, v)
    case Enum(b) => ScalarBytes(b, v)
    case Alias(b, n) => if n > 0 && v.Bytes? then v.bs else ScalarBytes(b, v)
    case AliasStruct(fields) => if v.Rec? then Wire(fields, v.vs, 0) else []
    case Struct(fields) => if v.Rec? then Wire(fields, v.vs, 0) else []
    case Union(_) => if v.Bytes? then v.bs else []
  }

  function WireElems(t: FType, vs: seq<Value>, k: nat): bytes
    decreases t, 1, |vs| - k
  {
    if k >= |vs| then [] else WireElem(t, vs[k]) + WireElems(t, vs, k + 1)
  }

  /** How many elements of a base array travel: its fixed length, or all there are. */
  function ArrayCount(f: Field, v: Value): nat
  {
    if f.length > 0 then f.length else Len(v)
  }

  function WireField(f: Field, v: Value): bytes
    decreases f
  {
    if f.ftype == Base(STRING) && f.length > 0 && v.Bytes? then Fit(v.bs, f.length)
    else if IsBaseArray(f) && f.ftype.base == U8 && v.Bytes? then Fit(v.bs, ArrayCount(f, v))
    else if IsBaseArray(f) && v.List? then WireScalars(f.ftype.base, v.vs, ArrayCount(f, v), 0)
    else if IsElemArray(f) && v.List? then WireElems(f.ftype, v.vs, 0)
    else WireElem(f.ftype, v)
  }

  /** What travels in place of field i: a size field always carries the length of its array. */
  function WireAt(fields: seq<Field>, vs: seq<Value>, i: nat): bytes
    requires i < |fields|
    decreases fields, 0, 0
  {
    var a := FieldSizeOf(fields, i);
    if |vs| != |fields| then []
    else if a.Some? && fields[i].ftype.Base? then ScalarBytes(fields[i].ftype.base, Num(Len(vs[a.value])))
    else WireField(fields[i], vs[i])
  }

  /** The bytes of fields k, k+1, ... of a record, in declaration order. */
  function Wire(fields: seq<Field>, vs: seq<Value>, k: nat): bytes
    decreases fields, 1, |fields| - k
  {
    if k >= |fields| then [] else WireAt(fields, vs, k) + Wire(fields, vs, k + 1)
  }

  // ---------------------------------------------------------------- unions without data

  /** How many unions of size 0 are in a value; they take no byte, but Size counts one for each. */
  function EmptyUnionsElem(t: FType, v: Value): nat
    decreases t, 0
  {
    match t
    case AliasStruct(fields) => if v.Rec? then EmptyUnions(fields, v.vs, 0) else 0
    case Struct(fields) => if v.Rec? then EmptyUnions(fields, v.vs, 0) else 0
    case Union(members) => if UnionSize(members) == 0 then 1 else 0
    case _ => 0
  }

  function EmptyUnionsElems(t: FType, vs: seq<Value>, k: nat): nat
    decreases t, 1, |vs| - k
  {
    if k >= |vs| then 0 else EmptyUnionsElem(t, vs[k]) + EmptyUnionsElems(t, vs, k + 1)
  }

  function EmptyUnionsField(f: Field, v: Value): nat
    decreases f
  {
    if IsElemArray(f) && v.List? then EmptyUnionsElems(f.ftype, v.vs, 0) else EmptyUnionsElem(f.ftype, v)
  }

  function EmptyUnions(fields: seq<Field>, vs: seq<Value>, k: nat): nat
    decreases fields, |fields| - k
  {
    if k >= |fields| || |vs| != |fields| then 0 else EmptyUnionsField(fields[k], vs[k]) + EmptyUnions(fields, vs, k + 1)
  }

  // ---------------------------------------------------------------- value of those bytes

  function NormScalars(t: BaseType, vs: seq<Value>, n: nat): (r: seq<Value>)
    ensures |r| == n
    ensures forall i | 0 <= i < n :: r[i] == ScalarAt(t, vs, i)
  {
    if n == 0 then [] else NormScalars(t, vs, n - 1) + [ScalarAt(t, vs, n - 1)]
  }

  function NormElem(t: FType, v: Value): Value
    decreases t, 0
  {
    match t
    case AliasStruct(fields) => if v.Rec? && |v.vs| == |fields| then Rec(Norm(fields, v.vs, |fields|)) else v
    case Struct(fields) => if v.Rec? && |v.vs| == |fields| then Rec(Norm(fields, v.vs, |fields|)) else v
    case _ => v
  }

  function NormElems(t: FType, vs: seq<Value>): (r: seq<Value>)
    ensures |r| == |vs|
    ensures forall i | 0 <= i < |vs| :: r[i] == NormElem(t, vs[i])
    decreases t, 1, |vs|
  {
    if vs == [] then [] else NormElems(t, vs[..|vs| - 1]) + [NormElem(t, vs[|vs| - 1])]
  }

  function NormField(f: Field, v: Value): Value
    decreases f
  {
    if f.ftype == Base(STRING) && f.length > 0 && v.Bytes? then Bytes(CutAtNul(Fit(v.bs, f.length)))
    else if IsBaseArray(f) && f.ftype.base == U8 && v.Bytes? then Bytes(Fit(v.bs, ArrayCount(f, v)))
    else if IsBaseArray(f) && v.List? then List(NormScalars(f.ftype.base, v.vs, ArrayCount(f, v)))
    else if IsElemArray(f) && v.List? then List(NormElems(f.ftype, v.vs))
    else NormElem(f.ftype, v)
  }

  function NormAt(fields: seq<Field>, vs: seq<Value>, i: nat): Value
    requires i < |fields| == |vs|
    decreases fields, 0, 0
  {
    var a := FieldSizeOf(fields, i);
    if a.Some? && fields[i].ftype.Base? then Num(Len(vs[a.value])) else NormField(fields[i], vs[i])
  }

  /** The first k fields of a record as they come back from the wire. */
  function Norm(fields: seq<Field>, vs: seq<Value>, k: nat): (r: seq<Value>)
    requires k <= |fields| == |vs|
    ensures |r| == k
    ensures forall i | 0 <= i < k :: r[i] == NormAt(fields, vs, i)
    decreases fields, 1, k
  {
    if k == 0 then [] else Norm(fields, vs, k - 1) + [NormAt(fields, vs, k - 1)]
  }

  // ---------------------------------------------------------------- zero values

  function ZeroElem(t: FType): Value
    decreases t, 0
  {
    match t
    case Base(b) => ZeroScalar(b)
    case Enum(b) => ZeroScalar(b)
    case Alias(b, n) => if n > 0 then Bytes(Zeros(n)) else ZeroScalar(b)
    case AliasStruct(fields) => Rec(ZeroRec(fields, |fields|))
    case Struct(fields) => Rec(ZeroRec(fields, |fields|))
    case Union(members) => Bytes(Zeros(UnionSize(members)))
  }

  function Repeat(v: Value, n: nat): (r: seq<Value>)
    ensures |r| == n && forall i | 0 <= i < n :: r[i] == v
  {
    if n == 0 then [] else Repeat(v, n - 1) + [v]
  }

  function ZeroField(f: Field): Value
    decreases f
  {
    if IsBaseArray(f) then if f.ftype.base == U8 then Bytes([]) else List([])
    else if IsElemArray(f) then List(Repeat(ZeroElem(f.ftype), f.length))
    else ZeroElem(f.ftype)
  }

  function ZeroRec(fields: seq<Field>, k: nat): (r: seq<Value>)
    requires k <= |fields|
    ensures |r| == k && forall i | 0 <= i < k :: r[i] == ZeroField(fields[i])
    decreases fields, 1, k
  {
    if k == 0 then [] else ZeroRec(fields, k - 1) + [ZeroField(fields[k - 1])]
  }

  lemma {:induction false} ZeroElemTyped(t: FType)
    requires TypeOk(t)
    ensures ElemTyped(t, ZeroElem(t))
    decreases t
  {
    match t {
      case AliasStruct(fields) => ZeroRecTyped(fields);
      case Struct(fields) => ZeroRecTyped(fields);
      case _ =>
    }
  }

  lemma {:induction false} ZeroRecTyped(fields: seq<Field>)
    requires WellFormed(fields)
    ensures Typed(fields, ZeroRec(fields, |fields|))
    decreases fields
  {
    forall i | 0 <= i < |fields| ensures FieldTyped(fields[i], ZeroField(fields[i])) {
      assert TypeOk(fields[i].ftype);
      ZeroElemTyped(fields[i].ftype);
    }
  }

  /** Decoding a scalar's bytes. */
  function ScalarOf(t: BaseType, c: Cursor): Option<(Cursor, Value)>
  {
    match t
    case STRING => var (c1, bs) :- DecodeString(c, 0); Some((c1, Bytes(bs)))
    case BOOL => var (c1, b) :- DecodeBool(c); Some((c1, Bool(b)))
    case F64 => var (c1, n) :- DecodeFloat64(c); Some((c1, Num(n)))
    case _ => var (c1, n) :- IntegerOf(IsSigned(t), BaseTypeSize(t), c); Some((c1, Num(n)))
  }

  function IntegerOf(signed: bool, w: nat, c: Cursor): Option<(Cursor, int)>
  {
    if signed then DecodeInt(c, w) else DecodeUint(c, w)
  }

  /** c has bs in front of it. */
  ghost predicate Ahead(c: Cursor, bs: bytes)
  {
    c.pos + |bs| <= |c.buf| && c.buf[c.pos..c.pos + |bs|] == bs
  }

  function Skip(c: Cursor, n: nat): Cursor { c.(pos := c.pos + n) }

  lemma {:induction false} AheadSplit(c: Cursor, a: bytes, b: bytes)
    ensures Ahead(c, a + b) <==> Ahead(c, a) && Ahead(Skip(c, |a|), b)
  {
    if c.pos + |a| + |b| <= |c.buf| {
      var s := c.buf[c.pos..c.pos + |a| + |b|];
      assert s[..|a|] == c.buf[c.pos..c.pos + |a|];
      assert s[|a|..] == c.buf[c.pos + |a|..c.pos + |a| + |b|];
      assert s == s[..|a|] + s[|a|..];
      assert (a + b)[..|a|] == a && (a + b)[|a|..] == b;
    }
  }

  lemma {:induction false} IntegerRoundTrip(signed: bool, w: nat, x: int, c: Cursor)
    requires if signed then 0 - Pow256(w) <= 2 * x < Pow256(w) else 0 <= x < Pow256(w)
    requires Ahead(c, BigEndian(ToUnsigned(x, w), w))
    ensures IntegerOf(signed, w, c) == Some((Skip(c, w), x))
  {
    BigEndianRoundTrip(ToUnsigned(x, w), w);
    if signed {
      SignedRoundTrip(x, w);
    }
  }

  lemma {:induction false} StringRoundTrip(bs: bytes, c: Cursor)
    requires |bs| < Pow256(4)
    requires Ahead(c, ScalarBytes(STRING, Bytes(bs)))
    ensures DecodeString(c, 0) == Some((Skip(c, 4 + |bs|), bs))
  {
    Pow256Values();
    AheadSplit(c, BigEndian(|bs|, 4), bs);
    IntegerRoundTrip(false, 4, |bs|, c);
  }

  lemma {:induction false} ScalarRoundTrip(t: BaseType, v: Value, c: Cursor)
    requires ScalarTyped(t, v)
    requires t == STRING ==> |v.bs| < Pow256(4)
    requires Ahead(c, ScalarBytes(t, v))
    ensures ScalarOf(t, c) == Some((Skip(c, |ScalarBytes(t, v)|), v))
  {
    if t == STRING {
      StringRoundTrip(v.bs, c);
    } else if t == BOOL {
      assert c.buf[c.pos..c.pos + 1][0] == c.buf[c.pos];
    } else if t == F64 {
      LittleEndianRoundTrip(v.n, 8);
    } else {
      IntegerRoundTrip(IsSigned(t), BaseTypeSize(t), v.n, c);
    }
  }

  /** A field of a base type that is neither an array nor a fixed string travels as its scalar. */
  lemma {:induction false} ScalarField(f: Field, v: Value)
    requires f.ftype.Base? && !IsBaseArray(f) && !(f.ftype == Base(STRING) && f.length > 0)
    ensures WireField(f, v) == ScalarBytes(f.ftype.base, v)
    ensures NormField(f, v) == v
    ensures FieldTyped(f, v) <==> ScalarTyped(f.ftype.base, v)
  {
    assert WireField(f, v) == WireElem(f.ftype, v);
    assert NormField(f, v) == NormElem(f.ftype, v);
  }

  lemma {:induction false} FixedStringField(f: Field, v: Value)
    requires f.ftype == Base(STRING) && f.length > 0 && v.Bytes?
    ensures WireField(f, v) == Fit(v.bs, f.length)
    ensures NormField(f, v) == Value.Bytes(CutAtNul(Fit(v.bs, f.length)))
  {
  }
}
