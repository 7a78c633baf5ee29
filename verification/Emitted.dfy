/** The programs that generate_encoding.go emits for a schema, as values. */
module Emitted {
  import opened Wrappers
  import opened Bytes
  import opened Schema
  import opened Program

  /** An array of structs, enums, ... is walked element by element; x is the loop's copy of one. */
  predicate CopiesElement(f: Field) { f.length == 0 || f.sizeFrom != "" }

  function Element(f: Field, name: Path, lvl: nat, x: Var): Path
  {
    if CopiesElement(f) then Local(x) else Idx(name, J(lvl))
  }

  function LoopBound(f: Field, name: Path): Count
  {
    if f.length > 0 then Lit(f.length) else LenOf(name)
  }

  function CopyElement(f: Field, name: Path, lvl: nat, x: Var): seq<Stmt>
  {
    if CopiesElement(f) then [Do(Bind(x, f.ftype, name, J(lvl)))] else []
  }

  // ---------------------------------------------------------------- Size

  function SizeBaseType(t: BaseType, name: Path, length: nat, sized: bool): seq<Stmt>
  {
    if t == STRING then
      if length > 0 then [Do(AddSize(length))] else [Do(AddString(name))]
    else if sized then [Do(AddLen(BaseTypeSize(t), name))]
    else if length > 0 then [Do(AddSize(BaseTypeSize(t) * length))]
    else [Do(AddSize(BaseTypeSize(t)))]
  }

  function SizeFields(fields: seq<Field>, k: nat, parent: Path, lvl: nat): seq<Stmt>
    decreases fields, |fields| - k
  {
    if k >= |fields| then []
    else
      SizeField(fields[k], Sel(parent, k), FieldSizeFrom(fields, k).Some?, lvl) + SizeFields(fields, k + 1, parent, lvl)
  }

  function SizeField(f: Field, name: Path, sized: bool, lvl: nat): seq<Stmt>
    decreases f, 1
  {
    if f.ftype.Base? then SizeBaseType(f.ftype.base, name, f.length, sized)
    else if !f.isArray then SizeType(f.ftype, name, lvl)
    else
      var body := SizeBody(f, name, lvl);
      if f.length > 0 then [For(J(lvl), Lit(f.length), body)]
      else if sized then [For(J(lvl), LenOf(name), body)]
      else [Unopened(body)]
  }

  function SizeBody(f: Field, name: Path, lvl: nat): seq<Stmt>
    decreases f, 0
  {
    CopyElement(f, name, lvl, S(lvl)) + SizeType(f.ftype, Element(f, name, lvl, S(lvl)), lvl)
  }

  function SizeType(t: FType, name: Path, lvl: nat): seq<Stmt>
    decreases t
  {
    match t
    case Base(_) => [Panicked]
    case Enum(b) => SizeBaseType(b, name, 0, false)
    case AliasStruct(fields) => SizeFields(fields, 0, name, lvl + 1)
    case Alias(b, n) => SizeBaseType(b, name, n, false)
    case Struct(fields) => SizeFields(fields, 0, name, lvl + 1)
    case Union(members) =>
      if MembersOk(members) then SizeBaseType(U8, name, UnionSize(members), false) else [Panicked]
  }

  // ---------------------------------------------------------------- Marshal

  function EncodeBaseType(t: BaseType, name: Path, length: nat, sized: bool, alloc: bool): seq<Stmt>
  {
    if (length > 0 || sized) && t == U8 then [Do(EncBytes(name, length))]
    else if (length > 0 || sized) && t != STRING then
      [For(I, if length != 0 then Lit(length) else LenOf(name),
           if alloc then [Do(Bind(X, Base(t), name, I)), Do(EncScalar(t, Local(X)))] else [Do(EncScalar(t, name))])]
    else if t == STRING then [Do(EncString(name, length))]
    else [Do(EncScalar(t, name))]
  }

  function EncodeFields(fields: seq<Field>, k: nat, parent: Path, lvl: nat): seq<Stmt>
    decreases fields, 1, |fields| - k
  {
    if k >= |fields| then [] else EncodeField(fields, k, parent, lvl) + EncodeFields(fields, k + 1, parent, lvl)
  }

  function EncodeField(fields: seq<Field>, k: nat, parent: Path, lvl: nat): seq<Stmt>
    requires k < |fields|
    decreases fields, 0, 0
  {
    var a := FieldSizeOf(fields, k);
    if a.Some? then
      if fields[k].ftype.Base? then [Do(EncCount(fields[k].ftype.base, Sel(parent, a.value)))] else [Panicked]
    else
      EncodeValue(fields[k], Sel(parent, k), FieldSizeFrom(fields, k).Some?, lvl)
  }

  /** The part of encodeField for a field that is no array's size. */
  function EncodeValue(f: Field, name: Path, sized: bool, lvl: nat): seq<Stmt>
    decreases f, 1
  {
    if f.ftype.Base? then EncodeBaseType(f.ftype.base, name, f.length, sized, true)
    else if !f.isArray then EncodeType(f.ftype, name, lvl)
    else
      var body := EncodeBody(f, name, lvl);
      if f.length > 0 then [For(J(lvl), Lit(f.length), body)]
      else if f.sizeFrom != "" then [For(J(lvl), LenOf(name), body)]
      else [Unopened(body)]
  }

  function EncodeBody(f: Field, name: Path, lvl: nat): seq<Stmt>
    decreases f, 0
  {
    CopyElement(f, name, lvl, V(lvl)) + EncodeType(f.ftype, Element(f, name, lvl, V(lvl)), lvl)
  }

  function EncodeType(t: FType, name: Path, lvl: nat): seq<Stmt>
    decreases t
  {
    match t
    case Base(_) => [Panicked]
    case Enum(b) => EncodeBaseType(b, name, 0, false, false)
    case AliasStruct(fields) => EncodeFields(fields, 0, name, lvl + 1)
    case Alias(b, n) => EncodeBaseType(b, name, n, false, false)
    case Struct(fields) => EncodeFields(fields, 0, name, lvl + 1)
    case Union(members) => if MembersOk(members) then [Do(EncBytes(name, UnionSize(members)))] else [Panicked]
  }

  // ---------------------------------------------------------------- Unmarshal

  /** size is the path of the size field, if the array has one. */
  function DecodeBaseType(t: BaseType, name: Path, length: nat, size: Option<Path>, alloc: bool): seq<Stmt>
  {
    if (length > 0 || size.Some?) && t != STRING then
      var n := if length > 0 then Lit(length) else ValueOf(size.value);
      if t == U8 then
        if alloc then [Do(Make(name, Base(U8), n)), Do(DecCopy(name, LenOf(name)))] else [Do(DecCopy(name, n))]
      else
        (if alloc then [Do(Make(name, Base(t), n))] else []) + [For(I, LenOf(name), [Do(DecScalar(Idx(name, I), t))])]
    else if t == STRING then [Do(DecString(name, length))]
    else [Do(DecScalar(name, t))]
  }

  function DecodeFields(fields: seq<Field>, k: nat, parent: Path, lvl: nat): seq<Stmt>
    decreases fields, |fields| - k
  {
    if k >= |fields| then []
    else
      DecodeField(fields[k], Sel(parent, k), SizePath(fields, k, parent), lvl) +
          DecodeFields(fields, k + 1, parent, lvl)
  }

  function SizePath(fields: seq<Field>, k: nat, parent: Path): Option<Path>
    requires k < |fields|
  {
    var i :- FieldSizeFrom(fields, k);
    Some(Sel(parent, i))
  }

  function DecodeField(f: Field, name: Path, size: Option<Path>, lvl: nat): seq<Stmt>
    decreases f
  {
    if f.ftype.Base? then DecodeBaseType(f.ftype.base, name, f.length, size, true)
    else if !f.isArray then DecodeType(f.ftype, name, lvl)
    else
      var body := DecodeType(f.ftype, Idx(name, J(lvl)), lvl);
      if f.length > 0 then [For(J(lvl), Lit(f.length), body)]
      else if f.sizeFrom != "" && size.Some? then
        [Do(Make(name, f.ftype, ValueOf(size.value))), For(J(lvl), LenOf(name), body)]
      else [Unopened(body)]
  }

  function DecodeType(t: FType, name: Path, lvl: nat): seq<Stmt>
    decreases t
  {
    match t
    case Base(_) => [Panicked]
    case Enum(b) => DecodeBaseType(b, name, 0, None, false)
    case AliasStruct(fields) => DecodeFields(fields, 0, name, lvl + 1)
    case Alias(b, n) => DecodeBaseType(b, name, n, None, false)
    case Struct(fields) => DecodeFields(fields, 0, name, lvl + 1)
    case Union(members) => if MembersOk(members) then [Do(DecCopy(name, Lit(UnionSize(members))))] else [Panicked]
  }

  // ---------------------------------------------------------------- the three methods

  /** Size starts counting nesting levels at 1, Marshal and Unmarshal at 0. */
  function SizeProgram(fields: seq<Field>): seq<Stmt> { SizeFields(fields, 0, Root, 1) }

  function MarshalProgram(fields: seq<Field>): seq<Stmt> { EncodeFields(fields, 0, Root, 0) }

  function UnmarshalProgram(fields: seq<Field>): seq<Stmt> { DecodeFields(fields, 0, Root, 0) }
}
