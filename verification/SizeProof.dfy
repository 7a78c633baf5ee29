/** The emitted Size method returns the number of bytes the value stands for, and one more for each union of size 0. */
module SizeProof {
  import opened Wrappers
  import opened Bytes
  import opened Cursors
  import opened Schema
  import opened Values
  import opened Program
  import opened Emitted

  function Grown(st: State, n: nat): State { st.(size := st.size + n) }

  function SizeOfElem(t: FType, v: Value): nat { |WireElem(t, v)| + EmptyUnionsElem(t, v) }

  function SizeOfElems(t: FType, vs: seq<Value>, k: nat): nat { |WireElems(t, vs, k)| + EmptyUnionsElems(t, vs, k) }

  function SizeOfValue(f: Field, v: Value): nat { |WireField(f, v)| + EmptyUnionsField(f, v) }

  function SizeOfFields(fields: seq<Field>, vs: seq<Value>, k: nat): nat
  {
    |Wire(fields, vs, k)| + EmptyUnions(fields, vs, k)
  }

  lemma {:induction false} ScalarLength(t: BaseType, v: Value)
    requires ScalarTyped(t, v) && t != STRING
    ensures |ScalarBytes(t, v)| == BaseTypeSize(t)
  {
  }

  lemma {:induction false} ScalarAtTyped(t: BaseType, vs: seq<Value>, i: nat)
    requires forall k | 0 <= k < |vs| :: ScalarTyped(t, vs[k])
    ensures ScalarTyped(t, ScalarAt(t, vs, i))
  {
  }

  lemma {:induction false} ScalarsLength(t: BaseType, vs: seq<Value>, n: nat, k: nat)
    requires t != STRING && k <= n
    requires forall i | 0 <= i < |vs| :: ScalarTyped(t, vs[i])
    ensures |WireScalars(t, vs, n, k)| == BaseTypeSize(t) * (n - k)
    decreases n - k
  {
    if k < n {
      ScalarAtTyped(t, vs, k);
      ScalarLength(t, ScalarAt(t, vs, k));
      ScalarsLength(t, vs, n, k + 1);
      var w := BaseTypeSize(t);
      assert w * (n - k) == w + w * (n - k - 1);
    }
  }

  lemma {:induction false} SizeBaseTypeOk(t: BaseType, name: Path, n: nat, v: Value, st: State)
    requires Read(name, st) == Some(v)
    requires t != STRING && (n > 0 ==> t == U8 && v.Bytes? && |v.bs| == n) && (n == 0 ==> ScalarTyped(t, v))
    ensures Run(SizeBaseType(t, name, n, false), st)
         == Some(Grown(st, |if n > 0 then v.bs else ScalarBytes(t, v)|))
  {
    RunOne(SizeBaseType(t, name, n, false)[0], st);
  }

  lemma {:induction false} SizeTypeOk(t: FType, name: Path, lvl: nat, v: Value, st: State)
    requires TypeOk(t) && !t.Base? && Below(name, lvl + 1)
    requires Read(name, st) == Some(v) && ElemTyped(t, v)
    ensures Run(SizeType(t, name, lvl), st) == Some(Grown(st, SizeOfElem(t, v)))
    decreases t, 0, 0
  {
    hide WellFormed, Typed, MembersOk, Read, Run, Below, Wire, EmptyUnions, ScalarTyped;
    match t {
      case Enum(b) => SizeBaseTypeOk(b, name, 0, v, st);
      case Alias(b, n) => SizeBaseTypeOk(b, name, n, v, st);
      case AliasStruct(fields) => SizeFieldsOk(fields, 0, name, lvl + 1, v.vs, st);
      case Struct(fields) => SizeFieldsOk(fields, 0, name, lvl + 1, v.vs, st);
      case Union(members) => SizeUnionOk(members, name, lvl, v, st);
    }
  }

  /** A union of size 0 counts as one byte: a length of 0 means no array. */
  lemma {:induction false} SizeUnionOk(members: seq<Field>, name: Path, lvl: nat, v: Value, st: State)
    requires MembersOk(members) && Read(name, st) == Some(v) && ElemTyped(Union(members), v)
    ensures Run(SizeType(Union(members), name, lvl), st) == Some(Grown(st, SizeOfElem(Union(members), v)))
  {
    RunOne(SizeBaseType(U8, name, UnionSize(members), false)[0], st);
  }

  ghost predicate LoopPre(f: Field, name: Path, lvl: nat, v: Value, st: State)
  {
    && ShapeOk(f) && TypeOk(f.ftype) && IsElemArray(f)
    && Below(name, lvl) && Read(name, st) == Some(v) && FieldTyped(f, v)
  }

  lemma {:induction false} SizeOneElement(f: Field, name: Path, lvl: nat, v: Value, i: nat, st: State)
    requires LoopPre(f, name, lvl, v, st) && i < |v.vs|
    ensures var r := Run(SizeBody(f, name, lvl), st.(locals := st.locals[J(lvl) := Num(i)]));
      r.Some? && r.value.(locals := st.locals) == Grown(st, SizeOfElem(f.ftype, v.vs[i]))
    decreases f.ftype, 1, 0
  {
    var copy := CopyElement(f, name, lvl, S(lvl));
    var elem := Element(f, name, lvl, S(lvl));
    var st1 := st.(locals := st.locals[J(lvl) := Num(i)]);
    LoadFrame(name, st.root, st.locals, lvl, J(lvl), Num(i));
    RunAppend(copy, SizeType(f.ftype, elem, lvl), st1);
    var st2 := if CopiesElement(f) then st1.(locals := st1.locals[S(lvl) := v.vs[i]]) else st1;
    if CopiesElement(f) {
      RunOne(copy[0], st1);
    }
    assert Run(copy, st1) == Some(st2);
    BelowMono(name, lvl, lvl + 1);
    SizeTypeOk(f.ftype, elem, lvl, v.vs[i], st2);
  }

  lemma {:induction false} SizeLoopOk(f: Field, name: Path, lvl: nat, v: Value, i: nat, st: State)
    requires LoopPre(f, name, lvl, v, st) && i <= |v.vs|
    ensures Loop(J(lvl), LoopBound(f, name), SizeBody(f, name, lvl), i, |v.vs|, st)
         == Some(Grown(st, SizeOfElems(f.ftype, v.vs, i)))
    decreases f.ftype, 1, |v.vs| - i
  {
    hide TypeOk, ElemTyped, SizeBody, Run;
    assert Eval(LoopBound(f, name), st) == Some(|v.vs|);
    if i < |v.vs| {
      SizeOneElement(f, name, lvl, v, i, st);
      SizeLoopOk(f, name, lvl, v, i + 1, Grown(st, SizeOfElem(f.ftype, v.vs[i])));
    }
  }

  lemma {:induction false} NoUnions(f: Field, v: Value)
    requires f.ftype.Base?
    ensures EmptyUnionsField(f, v) == 0
  {
    assert EmptyUnionsElem(f.ftype, v) == 0;
  }

  lemma {:induction false} SizeStringFieldOk(f: Field, name: Path, lvl: nat, v: Value, st: State)
    requires ShapeOk(f) && f.ftype == Base(STRING) && Read(name, st) == Some(v) && FieldTyped(f, v)
    ensures Run(SizeField(f, name, f.sizeFrom != "", lvl), st) == Some(Grown(st, SizeOfValue(f, v)))
  {
    hide Run, Load, WireScalars, WireElems, SizeFields;
    NoUnions(f, v);
    RunOne(SizeBaseType(STRING, name, f.length, f.sizeFrom != "")[0], st);
    if f.length > 0 {
      FixedStringField(f, v);
    } else {
      ScalarField(f, v);
    }
  }

  lemma {:induction false} SizeBaseFieldOk(f: Field, name: Path, lvl: nat, v: Value, st: State)
    requires ShapeOk(f) && f.ftype.Base? && f.ftype.base != STRING && Read(name, st) == Some(v) && FieldTyped(f, v)
    ensures Run(SizeField(f, name, f.sizeFrom != "", lvl), st) == Some(Grown(st, SizeOfValue(f, v)))
  {
    hide WireScalars, WireElems, Run, Load, SizeFields;
    NoUnions(f, v);
    var t := f.ftype.base;
    RunOne(SizeBaseType(t, name, f.length, f.sizeFrom != "")[0], st);
    if !IsBaseArray(f) {
      ScalarField(f, v);
      ScalarLength(t, v);
    } else if t != U8 {
      ScalarsLength(t, v.vs, ArrayCount(f, v), 0);
    }
  }

  lemma {:induction false} SizeArrayFieldOk(f: Field, name: Path, lvl: nat, v: Value, st: State)
    requires ShapeOk(f) && TypeOk(f.ftype) && Below(name, lvl) && IsElemArray(f)
    requires Read(name, st) == Some(v) && FieldTyped(f, v)
    ensures Run(SizeField(f, name, f.sizeFrom != "", lvl), st) == Some(Grown(st, SizeOfValue(f, v)))
    decreases f.ftype, 2, 0
  {
    RunOne(SizeField(f, name, f.sizeFrom != "", lvl)[0], st);
    SizeLoopOk(f, name, lvl, v, 0, st);
  }

  lemma {:induction false} SizeFieldOk(f: Field, name: Path, lvl: nat, v: Value, st: State)
    requires ShapeOk(f) && TypeOk(f.ftype) && Below(name, lvl)
    requires Read(name, st) == Some(v) && FieldTyped(f, v)
    ensures Run(SizeField(f, name, f.sizeFrom != "", lvl), st) == Some(Grown(st, SizeOfValue(f, v)))
    decreases f.ftype, 3, 0
  {
    if f.ftype == Base(STRING) {
      SizeStringFieldOk(f, name, lvl, v, st);
    } else if f.ftype.Base? {
      SizeBaseFieldOk(f, name, lvl, v, st);
    } else if f.isArray {
      SizeArrayFieldOk(f, name, lvl, v, st);
    } else {
      BelowMono(name, lvl, lvl + 1);
      SizeTypeOk(f.ftype, name, lvl, v, st);
    }
  }

  /** A size field has the size of its own type, whatever count it carries. */
  lemma {:induction false} SizeFieldLength(fields: seq<Field>, vs: seq<Value>, k: nat)
    requires WellFormed(fields) && k < |fields| && Typed(fields, vs)
    ensures |WireAt(fields, vs, k)| == |WireField(fields[k], vs[k])|
  {
    var a := FieldSizeOf(fields, k);
    if a.Some? {
      LinksAgree(fields, a.value, k);
      assert CountedBefore(fields, a.value);
      assert FieldTyped(fields[k], vs[k]) && ShapeOk(fields[k]);
    }
  }

  lemma {:induction false} SizeOneField(fields: seq<Field>, k: nat, p: Path, lvl: nat, vs: seq<Value>, st: State)
    requires WellFormed(fields) && k < |fields| && Below(p, lvl)
    requires Read(p, st) == Some(Rec(vs)) && Typed(fields, vs)
    ensures Run(SizeField(fields[k], Sel(p, k), FieldSizeFrom(fields, k).Some?, lvl), st)
         == Some(Grown(st, |WireAt(fields, vs, k)| + EmptyUnionsField(fields[k], vs[k])))
    decreases fields, 0
  {
    assert ShapeOk(fields[k]) && TypeOk(fields[k].ftype) && FieldTyped(fields[k], vs[k]);
    assert fields[k].sizeFrom != "" ==> CountedBefore(fields, k);
    assert FieldSizeFrom(fields, k).Some? <==> fields[k].sizeFrom != "";
    SizeFieldOk(fields[k], Sel(p, k), lvl, vs[k], st);
    SizeFieldLength(fields, vs, k);
  }

  lemma {:induction false} SizeFieldsOk(fields: seq<Field>, k: nat, p: Path, lvl: nat, vs: seq<Value>, st: State)
    requires WellFormed(fields) && k <= |fields| && Below(p, lvl)
    requires Read(p, st) == Some(Rec(vs)) && Typed(fields, vs)
    ensures Run(SizeFields(fields, k, p, lvl), st) == Some(Grown(st, SizeOfFields(fields, vs, k)))
    decreases fields, 1, |fields| - k
  {
    hide *;
    if k < |fields| {
      SizeOfNext(fields, vs, k, p, lvl);
      var now := |WireAt(fields, vs, k)| + EmptyUnionsField(fields[k], vs[k]);
      SizeOneField(fields, k, p, lvl, vs, st);
      GrownTwice(p, st, now, SizeOfFields(fields, vs, k + 1));
      SizeFieldsOk(fields, k + 1, p, lvl, vs, Grown(st, now));
      RunAppend(SizeField(fields[k], Sel(p, k), FieldSizeFrom(fields, k).Some?, lvl),
          SizeFields(fields, k + 1, p, lvl), st);
    } else {
      SizeOfNone(fields, vs, p, lvl, st);
    }
  }

  lemma {:induction false} GrownTwice(p: Path, st: State, m: nat, n: nat)
    ensures Grown(Grown(st, m), n) == Grown(st, m + n) && Grown(st, 0) == st
    ensures Read(p, Grown(st, m)) == Read(p, st)
  {
  }

  lemma {:induction false} SizeOfNext(fields: seq<Field>, vs: seq<Value>, k: nat, p: Path, lvl: nat)
    requires Typed(fields, vs) && k < |fields|
    ensures |vs| == |fields|
    ensures SizeOfFields(fields, vs, k)
         == |WireAt(fields, vs, k)| + EmptyUnionsField(fields[k], vs[k]) + SizeOfFields(fields, vs, k + 1)
    ensures SizeFields(fields, k, p, lvl)
         == SizeField(fields[k], Sel(p, k), FieldSizeFrom(fields, k).Some?, lvl) + SizeFields(fields, k + 1, p, lvl)
  {
  }

  lemma {:induction false} SizeOfNone(fields: seq<Field>, vs: seq<Value>, p: Path, lvl: nat, st: State)
    ensures SizeOfFields(fields, vs, |fields|) == 0 && Grown(st, 0) == st
    ensures Run(SizeFields(fields, |fields|, p, lvl), st) == Some(st)
  {
  }

  /** Size() of a message. */
  lemma {:induction false} EmittedSizeIsWireLength(fields: seq<Field>, vs: seq<Value>, c: Cursor)
    requires WellFormed(fields) && Typed(fields, vs)
    ensures Run(SizeProgram(fields), State(Rec(vs), map[], 0, c))
         == Some(State(Rec(vs), map[], |Wire(fields, vs, 0)| + EmptyUnions(fields, vs, 0), c))
  {
    SizeFieldsOk(fields, 0, Root, 1, vs, State(Rec(vs), map[], 0, c));
  }
}
