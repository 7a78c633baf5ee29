/**
 Resolved VPP API types: what the generator knows about a message when it emits its methods.
 A type reference already points at its definition; a size field is still found by name.
 */
module Schema {
  import opened Wrappers
  import opened Bytes
  import opened Cursors

  datatype BaseType = U8 | I8 | U16 | I16 | U32 | I32 | U64 | I64 | F64 | BOOL | STRING

  function BaseTypeSize(t: BaseType): (n: nat)
    ensures n > 0
  {
    match t
    case U8 | I8 | BOOL | STRING => 1
    case U16 | I16 => 2
    case U32 | I32 => 4
    case U64 | I64 | F64 => 8
  }

  predicate IsSigned(t: BaseType) { t in {I8, I16, I32, I64} }

  predicate IsInteger(t: BaseType) { t !in {F64, BOOL, STRING} }

  /** A type; an alias of a struct keeps only the struct, an alias of a base type its length. */
  datatype FType =
    | Base(base: BaseType)
    | Enum(base: BaseType)
    | Alias(base: BaseType, alen: nat)
    | AliasStruct(fields: seq<Field>)
    | Struct(fields: seq<Field>)
    | Union(members: seq<Field>)

  /** length is 0 for "no length" and sizeFrom is "" for "no size field", as in the JSON. */
  datatype Field = Field(name: string, ftype: FType, isArray: bool, length: nat, sizeFrom: string)

  // ---------------------------------------------------------------- size links

  function FirstNamed(fields: seq<Field>, name: string, k: nat): (r: Option<nat>)
    requires k <= |fields|
    ensures r.Some? ==> k <= r.value < |fields| && fields[r.value].name == name
    ensures r.None? ==> forall i | k <= i < |fields| :: fields[i].name != name
    decreases |fields| - k
  {
    if k == |fields| then None
    else if fields[k].name == name then Some(k)
    else FirstNamed(fields, name, k + 1)
  }

  function FirstSizedBy(fields: seq<Field>, name: string, k: nat): (r: Option<nat>)
    requires k <= |fields|
    ensures r.Some? ==> k <= r.value < |fields| && fields[r.value].sizeFrom == name
    ensures r.None? ==> forall i | k <= i < |fields| :: fields[i].sizeFrom != name
    decreases |fields| - k
  {
    if k == |fields| then None
    else if fields[k].sizeFrom == name then Some(k)
    else FirstSizedBy(fields, name, k + 1)
  }

  /** The field that holds the element count of field i. */
  function FieldSizeFrom(fields: seq<Field>, i: nat): (r: Option<nat>)
    requires i < |fields|
    ensures r.Some? ==> r.value < |fields|
  {
    if fields[i].sizeFrom != "" then FirstNamed(fields, fields[i].sizeFrom, 0) else None
  }

  /** The array whose element count field i holds. */
  function FieldSizeOf(fields: seq<Field>, i: nat): (r: Option<nat>)
    requires i < |fields|
    ensures r.Some? ==> r.value < |fields|
  {
    if fields[i].sizeFrom != "" then None else FirstSizedBy(fields, fields[i].name, 0)
  }

  // ---------------------------------------------------------------- sizes of union members

  /** getSizeOfBinapiBaseType */
  function SizeOfBase(t: BaseType, length: nat): nat
  {
    if length > 1 then BaseTypeSize(t) * length else BaseTypeSize(t)
  }

  /** getSizeOfField for a field that is not of a base type; the alias of a struct has no base size. */
  function SizeOfField(f: Field): nat
    decreases f, 0
  {
    match f.ftype
    case Base(_) => 0
    case Alias(b, n) => SizeOfBase(b, n)
    case AliasStruct(_) => 0
    case Enum(b) => SizeOfBase(b, f.length)
    case Struct(fields) => SizeOfStruct(fields, 0)
    case Union(members) => UnionSizeFrom(members, 0)
  }

  function SizeOfStruct(fields: seq<Field>, k: nat): nat
    requires k <= |fields|
    decreases fields, |fields| - k
  {
    if k == |fields| then 0
    else
      (if fields[k].ftype.Base? then SizeOfBase(fields[k].ftype.base, fields[k].length) else SizeOfField(fields[k]))
      + SizeOfStruct(fields, k + 1)
  }

  /** The largest member from member k on. */
  function UnionSizeFrom(members: seq<Field>, k: nat): nat
    requires k <= |members|
    decreases members, |members| - k
  {
    if k == |members| then 0
    else
      var rest := UnionSizeFrom(members, k + 1);
      if SizeOfField(members[k]) > rest then SizeOfField(members[k]) else rest
  }

  function UnionSize(members: seq<Field>): nat { UnionSizeFrom(members, 0) }

  // ---------------------------------------------------------------- well-formed schemas

  /** Size fields are integers declared before the one array they count. */
  predicate LinksOk(fields: seq<Field>)
  {
    && (forall i | 0 <= i < |fields| :: fields[i].name != "")
    && (forall i, j | 0 <= i < j < |fields| :: fields[i].name != fields[j].name)
    && (forall i, j | 0 <= i < j < |fields| && fields[i].sizeFrom != "" :: fields[i].sizeFrom != fields[j].sizeFrom)
    && (forall i | 0 <= i < |fields| && fields[i].sizeFrom != "" :: CountedBefore(fields, i))
  }

  predicate CountedBefore(fields: seq<Field>, i: nat)
    requires i < |fields|
  {
    var k := FieldSizeFrom(fields, i);
    && k.Some?
    && k.value < i
    && fields[k.value].ftype.Base?
    && IsInteger(fields[k.value].ftype.base)
    && !fields[k.value].isArray
    && fields[k.value].sizeFrom == ""
  }

  /** An array has a fixed length or a size field, not both; only a string may have neither. */
  predicate ShapeOk(f: Field)
  {
    && (f.length > 0 ==> f.isArray)
    && (f.sizeFrom != "" ==> f.isArray && f.length == 0)
    && (f.isArray && f.sizeFrom == "" && f.ftype != Base(STRING) ==> f.length > 0)
  }

  predicate WellFormed(fields: seq<Field>)
    decreases fields
  {
    && LinksOk(fields)
    && (forall i | 0 <= i < |fields| :: ShapeOk(fields[i]) && TypeOk(fields[i].ftype))
  }

  predicate TypeOk(t: FType)
    decreases t
  {
    match t
    case Base(_) => true
    case Enum(b) => b != STRING
    case Alias(b, n) => b != STRING && (n > 0 ==> b == U8)
    case AliasStruct(fields) => WellFormed(fields)
    case Struct(fields) => WellFormed(fields)
    case Union(members) => MembersOk(members)
  }

  /** The two links are inverse to each other: i is counted by k exactly when k counts i. */
  lemma {:induction false} LinksAgree(fields: seq<Field>, i: nat, k: nat)
    requires LinksOk(fields) && i < |fields| && k < |fields|
    ensures FieldSizeFrom(fields, i) == Some(k) <==> FieldSizeOf(fields, k) == Some(i)
  {
    if FieldSizeFrom(fields, i) == Some(k) {
      assert CountedBefore(fields, i);
    }
    if FieldSizeOf(fields, k) == Some(i) {
      assert fields[i].sizeFrom != "";
      assert CountedBefore(fields, i);
    }
  }

  // ---------------------------------------------------------------- methods of types.go

  /** No member of a union, at any depth, is of a base type: otherwise getUnionSize panics. */
  predicate MembersOk(members: seq<Field>)
    decreases members
  {
    forall i | 0 <= i < |members| :: !members[i].ftype.Base? && SizeDefined(members[i])
  }

  predicate SizeDefined(f: Field)
    decreases f
  {
    match f.ftype
    case Struct(fields) => forall i | 0 <= i < |fields| :: SizeDefined(fields[i])
    case Union(members) => MembersOk(members)
    case _ => true
  }

  method GetUnionSize(members: seq<Field>) returns (ok: bool, maxSize: nat)
    ensures ok == MembersOk(members)
    ensures ok ==> maxSize == UnionSize(members)
    decreases members
  {
    maxSize := 0;
    var i := 0;
    while i < |members|
      invariant 0 <= i <= |members|
      invariant forall j | 0 <= j < i :: !members[j].ftype.Base? && SizeDefined(members[j])
      invariant UnionSize(members) == if maxSize > UnionSizeFrom(members, i) then maxSize else UnionSizeFrom(members, i)
    {
      var defined, size, isBaseType := GetSizeOfField(members[i]);
      if !defined || isBaseType {
        return false, 0;
      } else if size > maxSize {
        maxSize := size;
      }
      i := i + 1;
    }
    ok := true;
  }

  method GetSizeOfField(f: Field) returns (ok: bool, size: nat, isBaseType: bool)
    ensures ok == SizeDefined(f)
    ensures ok ==> size == SizeOfField(f) && isBaseType == f.ftype.Base?
    decreases f
  {
    ok, size, isBaseType := true, 0, false;
    match f.ftype {
      case Alias(b, n) => size := SizeOfBase(b, n);
      case AliasStruct(_) =>
      case Enum(b) => size := SizeOfBase(b, f.length);
      case Struct(fields) => ok, size := GetSizeOfStruct(fields);
      case Union(members) => ok, size := GetUnionSize(members);
      case Base(_) => isBaseType := true;
    }
  }

  method GetSizeOfStruct(fields: seq<Field>) returns (ok: bool, size: nat)
    ensures ok == forall i | 0 <= i < |fields| :: SizeDefined(fields[i])
    ensures ok ==> size == SizeOfStruct(fields, 0)
    decreases fields
  {
    size := 0;
    var i := 0;
    while i < |fields|
      invariant 0 <= i <= |fields|
      invariant forall j | 0 <= j < i :: SizeDefined(fields[j])
      invariant SizeOfStruct(fields, 0) == size + SizeOfStruct(fields, i)
    {
      var defined, fieldSize, isBaseType := GetSizeOfField(fields[i]);
      if !defined {
        return false, 0;
      }
      size := size + if isBaseType then SizeOfBase(fields[i].ftype.base, fields[i].length) else fieldSize;
      i := i + 1;
    }
    ok := true;
  }
}
