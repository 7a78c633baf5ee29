/**
 The emitted Unmarshal method reads the bytes of a value back as Norm of it, whatever the message
 it decodes into held before.
 */
module UnmarshalProof {
  import opened Wrappers
  import opened Bytes
  import opened Cursors
  import opened Schema
  import opened Values
  import opened Program
  import opened Emitted

  ghost predicate Assignable(p: Path, st: State) { Rooted(p) && Read(p, st).Some? }

  /** st after n bytes were read and x was assigned to p. */
  ghost function Decoded(st: State, p: Path, x: Value, n: nat): State
  {
    var r := Store(p, st.root, st.locals, x);
    st.(root := if r.Some? then r.value else st.root, cur := Skip(st.cur, n))
  }

  lemma {:induction false} DecodedRead(st: State, p: Path, x: Value, n: nat)
    requires Assignable(p, st)
    ensures Read(p, Decoded(st, p, x, n)) == Some(x)
  {
    StoreLaws(p, st.root, st.locals, x, x);
  }

  lemma {:induction false} DecodedTwice(st: State, p: Path, x: Value, m: nat, y: Value, n: nat)
    requires Assignable(p, st)
    ensures Assignable(p, Decoded(st, p, x, m))
    ensures Decoded(Decoded(st, p, x, m), p, y, n) == Decoded(st, p, y, m + n)
  {
    StoreLaws(p, st.root, st.locals, x, y);
    StoreLaws(p, st.root, st.locals, y, x);
  }

  lemma {:induction false} DecodedSame(st: State, p: Path)
    requires Assignable(p, st)
    ensures Decoded(st, p, Read(p, st).value, 0) == st
  {
    StoreSame(p, st.root, st.locals);
  }

  lemma {:induction false} DecodedField(st: State, p: Path, cur: seq<Value>, k: nat, x: Value, n: nat)
    requires Rooted(p) && Read(p, st) == Some(Rec(cur)) && k < |cur|
    ensures Assignable(Sel(p, k), st) && Decoded(st, Sel(p, k), x, n) == Decoded(st, p, Rec(cur[k := x]), n)
  {
  }

  /** Decoding an element inside the loop is, once the loop variable is gone, decoding the array. */
  lemma {:induction false} DecodedElement(
    st: State, name: Path, lvl: nat, j: Var, cur: seq<Value>, i: nat, x: Value, n: nat)
    requires Rooted(name) && Below(name, lvl) && !VarBelow(j, lvl)
    requires Read(name, st) == Some(List(cur)) && i < |cur|
    ensures var st1 := st.(locals := st.locals[j := Num(i)]);
      && Assignable(Idx(name, j), st1) && Read(Idx(name, j), st1) == Some(cur[i])
      && Decoded(st1, Idx(name, j), x, n).(locals := st.locals) == Decoded(st, name, List(cur[i := x]), n)
  {
    LoadFrame(name, st.root, st.locals, lvl, j, Num(i));
    StoreFrame(name, st.root, st.locals, lvl, j, Num(i), List(cur[i := x]));
    StoreLaws(name, st.root, st.locals, List(cur[i := x]), List(cur));
  }

  lemma {:induction false} RunDecScalar(t: BaseType, p: Path, v: Value, st: State)
    requires Assignable(p, st) && ScalarTyped(t, v) && t != STRING && Ahead(st.cur, ScalarBytes(t, v))
    ensures Run([Do(DecScalar(p, t))], st) == Some(Decoded(st, p, v, |ScalarBytes(t, v)|))
  {
    ScalarRoundTrip(t, v, st.cur);
    StoreLaws(p, st.root, st.locals, v, v);
    RunOne(Do(DecScalar(p, t)), st);
  }

  /** copy(p[:], buf.DecodeBytes(n)) over a target of n bytes. */
  lemma {:induction false} RunDecCopy(p: Path, count: Count, old_: bytes, bs: bytes, st: State)
    requires Assignable(p, st) && Read(p, st) == Some(Value.Bytes(old_)) && |old_| == |bs|
    requires Eval(count, st) == Some(|bs|) && Ahead(st.cur, bs)
    ensures Run([Do(DecCopy(p, count))], st) == Some(Decoded(st, p, Value.Bytes(bs), |bs|))
  {
    StoreLaws(p, st.root, st.locals, Value.Bytes(bs), Value.Bytes(bs));
    RunOne(Do(DecCopy(p, count)), st);
  }

  lemma {:induction false} RunMake(p: Path, elem: FType, count: Count, n: nat, st: State)
    requires Assignable(p, st) && Eval(count, st) == Some(n)
    ensures Exec(Do(Make(p, elem, count)), st)
         == Some(Decoded(st, p, if elem == Base(U8) then Value.Bytes(Zeros(n)) else List(Repeat(ZeroElem(elem), n)), 0))
  {
    var x := if elem == Base(U8) then Value.Bytes(Zeros(n)) else List(Repeat(ZeroElem(elem), n));
    StoreLaws(p, st.root, st.locals, x, x);
  }

  // ---------------------------------------------------------------- arrays of base types

  lemma {:induction false} DecodeOneScalar(
    t: BaseType, name: Path, lvl: nat, x: Value, cur: seq<Value>, i: nat, st: State)
    requires Rooted(name) && Below(name, lvl) && Read(name, st) == Some(List(cur)) && i < |cur|
    requires t != STRING && ScalarTyped(t, x) && Ahead(st.cur, ScalarBytes(t, x))
    ensures var st1 := Decoded(st, name, List(cur[i := x]), |ScalarBytes(t, x)|);
      && Assignable(name, st) && Read(name, st1) == Some(List(cur[i := x]))
      && st1.cur == Skip(st.cur, |ScalarBytes(t, x)|)
      && Loop(I, LenOf(name), [Do(DecScalar(Idx(name, I), t))], i, |cur|, st)
      == Loop(I, LenOf(name), [Do(DecScalar(Idx(name, I), t))], i + 1, |cur|, st1)
  {
    var st1 := Decoded(st, name, List(cur[i := x]), |ScalarBytes(t, x)|);
    DecodedElement(st, name, lvl, I, cur, i, x, |ScalarBytes(t, x)|);
    RunDecScalar(t, Idx(name, I), x, st.(locals := st.locals[I := Num(i)]));
    LoopStep(I, LenOf(name), [Do(DecScalar(Idx(name, I), t))], i, |cur|, st, st1);
    DecodedRead(st, name, List(cur[i := x]), |ScalarBytes(t, x)|);
  }

  lemma {:induction false} DecodeScalarsOk(
    t: BaseType, name: Path, lvl: nat, vs: seq<Value>, n: nat, i: nat, cur: seq<Value>, st: State)
    requires Rooted(name) && Below(name, lvl) && Read(name, st) == Some(List(cur)) && |cur| == n && i <= n
    requires t != STRING && forall k | 0 <= k < |vs| :: ScalarTyped(t, vs[k])
    requires cur[..i] == NormScalars(t, vs, n)[..i]
    requires Ahead(st.cur, WireScalars(t, vs, n, i))
    ensures Loop(I, LenOf(name), [Do(DecScalar(Idx(name, I), t))], i, n, st)
         == Some(Decoded(st, name, List(NormScalars(t, vs, n)), |WireScalars(t, vs, n, i)|))
    decreases n - i
  {
    hide *;
    var done := NormScalars(t, vs, n);
    if i < n {
      var x := ScalarAt(t, vs, i);
      var now, rest := ScalarBytes(t, x), WireScalars(t, vs, n, i + 1);
      var next := cur[i := x];
      NextScalar(t, vs, n, i);
      AheadSplit(st.cur, now, rest);
      DecodeOneScalar(t, name, lvl, x, cur, i, st);
      assert next[..i + 1] == done[..i + 1];
      DecodeScalarsOk(t, name, lvl, vs, n, i + 1, next, Decoded(st, name, List(next), |now|));
      DecodedTwice(st, name, List(next), |now|, List(done), |rest|);
    } else {
      ScalarsDone(t, name, vs, n, cur, st);
    }
  }

  lemma {:induction false} NextScalar(t: BaseType, vs: seq<Value>, n: nat, i: nat)
    requires i < n && forall k | 0 <= k < |vs| :: ScalarTyped(t, vs[k])
    ensures ScalarTyped(t, ScalarAt(t, vs, i))
    ensures WireScalars(t, vs, n, i) == ScalarBytes(t, ScalarAt(t, vs, i)) + WireScalars(t, vs, n, i + 1)
  {
  }

  lemma {:induction false} ScalarsDone(t: BaseType, name: Path, vs: seq<Value>, n: nat, cur: seq<Value>, st: State)
    requires Rooted(name) && Read(name, st) == Some(List(cur)) && |cur| == n && cur[..n] == NormScalars(t, vs, n)[..n]
    ensures Loop(I, LenOf(name), [Do(DecScalar(Idx(name, I), t))], n, n, st)
         == Some(Decoded(st, name, List(NormScalars(t, vs, n)), |WireScalars(t, vs, n, n)|))
  {
    assert cur == cur[..n] == NormScalars(t, vs, n);
    DecodedSame(st, name);
  }

  lemma {:induction false} DecodeBytesOk(name: Path, bs: bytes, count: Count, st: State)
    requires Assignable(name, st) && Eval(count, st) == Some(|bs|) && Ahead(st.cur, bs)
    ensures Run([Do(Make(name, Base(U8), count)), Do(DecCopy(name, LenOf(name)))], st)
         == Some(Decoded(st, name, Value.Bytes(bs), |bs|))
  {
    var zero := Value.Bytes(Zeros(|bs|));
    RunMake(name, Base(U8), count, |bs|, st);
    RunCons(Do(Make(name, Base(U8), count)), [Do(DecCopy(name, LenOf(name)))], st);
    DecodedRead(st, name, zero, 0);
    RunDecCopy(name, LenOf(name), Zeros(|bs|), bs, Decoded(st, name, zero, 0));
    DecodedTwice(st, name, zero, 0, Value.Bytes(bs), |bs|);
  }

  lemma {:induction false} DecodeScalarArrayOk(
    t: BaseType, name: Path, lvl: nat, vs: seq<Value>, n: nat, count: Count, st: State)
    requires Assignable(name, st) && Below(name, lvl) && Eval(count, st) == Some(n)
    requires t != STRING && t != U8 && forall k | 0 <= k < |vs| :: ScalarTyped(t, vs[k])
    requires Ahead(st.cur, WireScalars(t, vs, n, 0))
    ensures Run([Do(Make(name, Base(t), count)), For(I, LenOf(name), [Do(DecScalar(Idx(name, I), t))])], st)
         == Some(Decoded(st, name, List(NormScalars(t, vs, n)), |WireScalars(t, vs, n, 0)|))
  {
    var zero := Repeat(ZeroElem(Base(t)), n);
    var loop := For(I, LenOf(name), [Do(DecScalar(Idx(name, I), t))]);
    var st1 := Decoded(st, name, List(zero), 0);
    RunMake(name, Base(t), count, n, st);
    RunCons(Do(Make(name, Base(t), count)), [loop], st);
    DecodedRead(st, name, List(zero), 0);
    DecodeScalarsOk(t, name, lvl, vs, n, 0, zero, st1);
    RunOne(loop, st1);
    DecodedTwice(st, name, List(zero), 0, List(NormScalars(t, vs, n)), |WireScalars(t, vs, n, 0)|);
  }

  /** The count that the emitted code will evaluate for array f is the array's length on the wire. */
  ghost predicate SizeKnown(f: Field, size: Option<Path>, v: Value, st: State)
  {
    && (f.sizeFrom != "" ==> size.Some? && Read(size.value, st) == Some(Num(Len(v))))
    && (f.sizeFrom == "" ==> size.None?)
  }

  lemma {:induction false} RunDecString(p: Path, length: nat, x: bytes, n: nat, st: State)
    requires Assignable(p, st) && DecodeString(st.cur, length) == Some((Skip(st.cur, n), x))
    ensures Run([Do(DecString(p, length))], st) == Some(Decoded(st, p, Value.Bytes(x), n))
  {
    StoreLaws(p, st.root, st.locals, Value.Bytes(x), Value.Bytes(x));
    RunOne(Do(DecString(p, length)), st);
  }

  lemma {:induction false} DecodeFixedString(bs: bytes, c: Cursor)
    requires bs != [] && Ahead(c, bs)
    ensures DecodeString(c, |bs|) == Some((Skip(c, |bs|), CutAtNul(bs)))
  {
  }

  lemma {:induction false} DecodeStringOk(f: Field, name: Path, v: Value, st: State)
    requires f.ftype == Base(STRING) && Assignable(name, st)
    requires FieldTyped(f, v) && FieldFits(f, v) && Ahead(st.cur, WireField(f, v))
    ensures Run([Do(DecString(name, f.length))], st) == Some(Decoded(st, name, NormField(f, v), |WireField(f, v)|))
  {
    if f.length == 0 {
      ScalarField(f, v);
      assert |v.bs| < Pow256(4);
      StringRoundTrip(v.bs, st.cur);
      RunDecString(name, 0, v.bs, 4 + |v.bs|, st);
    } else {
      FixedStringField(f, v);
      DecodeFixedString(Fit(v.bs, f.length), st.cur);
      RunDecString(name, f.length, CutAtNul(Fit(v.bs, f.length)), f.length, st);
    }
  }

  lemma {:induction false} DecodeBaseArrayOk(f: Field, name: Path, size: Option<Path>, lvl: nat, v: Value, st: State)
    requires ShapeOk(f) && IsBaseArray(f) && Assignable(name, st) && Below(name, lvl)
    requires FieldTyped(f, v) && SizeKnown(f, size, v, st) && Ahead(st.cur, WireField(f, v))
    ensures Run(DecodeBaseType(f.ftype.base, name, f.length, size, true), st)
         == Some(Decoded(st, name, NormField(f, v), |WireField(f, v)|))
  {
    var t, n := f.ftype.base, ArrayCount(f, v);
    var count := if f.length > 0 then Lit(f.length) else ValueOf(size.value);
    assert Eval(count, st) == Some(n);
    if t == U8 {
      DecodeBytesOk(name, Fit(v.bs, n), count, st);
    } else {
      DecodeScalarArrayOk(t, name, lvl, v.vs, n, count, st);
      assert DecodeBaseType(t, name, f.length, size, true)
          == [Do(Make(name, Base(t), count)), For(I, LenOf(name), [Do(DecScalar(Idx(name, I), t))])];
    }
  }

  lemma {:induction false} DecodeBaseOk(f: Field, name: Path, size: Option<Path>, lvl: nat, v: Value, st: State)
    requires ShapeOk(f) && f.ftype.Base? && Assignable(name, st) && Below(name, lvl)
    requires FieldTyped(f, v) && FieldFits(f, v) && SizeKnown(f, size, v, st) && Ahead(st.cur, WireField(f, v))
    ensures Run(DecodeBaseType(f.ftype.base, name, f.length, size, true), st)
         == Some(Decoded(st, name, NormField(f, v), |WireField(f, v)|))
  {
    var t := f.ftype.base;
    if t == STRING {
      DecodeStringOk(f, name, v, st);
    } else if IsBaseArray(f) {
      DecodeBaseArrayOk(f, name, size, lvl, v, st);
    } else {
      ScalarField(f, v);
      RunDecScalar(t, name, v, st);
    }
  }

  // ---------------------------------------------------------------- elements, fields, records

  lemma {:induction false} DecodeTypeOk(t: FType, name: Path, lvl: nat, v: Value, before: Value, st: State)
    requires TypeOk(t) && !t.Base? && Below(name, lvl + 1)
    requires Rooted(name) && Read(name, st) == Some(before) && ElemTyped(t, before)
    requires ElemTyped(t, v) && ElemFits(t, v) && Ahead(st.cur, WireElem(t, v))
    ensures Run(DecodeType(t, name, lvl), st) == Some(Decoded(st, name, NormElem(t, v), |WireElem(t, v)|))
    decreases t, 0, 0
  {
    match t {
      case Enum(b) => RunDecScalar(b, name, v, st);
      case Alias(b, n) =>
        if n > 0 {
          RunDecCopy(name, Lit(n), before.bs, v.bs, st);
        } else {
          RunDecScalar(b, name, v, st);
        }
      case AliasStruct(fields) => DecodeFieldsOk(fields, 0, name, lvl + 1, v.vs, before.vs, st);
      case Struct(fields) => DecodeFieldsOk(fields, 0, name, lvl + 1, v.vs, before.vs, st);
      case Union(members) => RunDecCopy(name, Lit(UnionSize(members)), before.bs, v.bs, st);
    }
  }

  ghost predicate ElementsPre(f: Field, name: Path, lvl: nat, v: Value, cur: seq<Value>, i: nat, st: State)
  {
    && TypeOk(f.ftype) && IsElemArray(f) && FieldTyped(f, v) && FieldFits(f, v)
    && Rooted(name) && Below(name, lvl) && Read(name, st) == Some(List(cur))
    && |cur| == |v.vs| && i <= |cur|
    && (forall k | i <= k < |cur| :: ElemTyped(f.ftype, cur[k]))
  }

  lemma {:induction false} DecodeOneElement(
    f: Field, name: Path, lvl: nat, v: Value, cur: seq<Value>, i: nat, st: State)
    requires ElementsPre(f, name, lvl, v, cur, i, st) && i < |cur| && Ahead(st.cur, WireElem(f.ftype, v.vs[i]))
    ensures var x := NormElem(f.ftype, v.vs[i]);
      var r := Run(DecodeType(f.ftype, Idx(name, J(lvl)), lvl), st.(locals := st.locals[J(lvl) := Num(i)]));
      r.Some? && r.value.(locals := st.locals)
      == Decoded(st, name, List(cur[i := x]), |WireElem(f.ftype, v.vs[i])|)
    decreases f.ftype, 1, 0
  {
    var st1 := st.(locals := st.locals[J(lvl) := Num(i)]);
    BelowMono(name, lvl, lvl + 1);
    DecodedElement(st, name, lvl, J(lvl), cur, i, NormElem(f.ftype, v.vs[i]), |WireElem(f.ftype, v.vs[i])|);
    DecodeTypeOk(f.ftype, Idx(name, J(lvl)), lvl, v.vs[i], cur[i], st1);
  }

  lemma {:induction false} DecodeNextElement(
    f: Field, name: Path, lvl: nat, v: Value, cur: seq<Value>, i: nat, st: State)
    requires ElementsPre(f, name, lvl, v, cur, i, st) && i < |cur| && Ahead(st.cur, WireElems(f.ftype, v.vs, i))
    ensures var next := cur[i := NormElem(f.ftype, v.vs[i])];
      var st1 := Decoded(st, name, List(next), |WireElem(f.ftype, v.vs[i])|);
      var bound, body := LoopBound(f, name), DecodeType(f.ftype, Idx(name, J(lvl)), lvl);
      && Assignable(name, st) && ElementsPre(f, name, lvl, v, next, i + 1, st1)
      && |WireElems(f.ftype, v.vs, i)| == |WireElem(f.ftype, v.vs[i])| + |WireElems(f.ftype, v.vs, i + 1)|
      && Ahead(st1.cur, WireElems(f.ftype, v.vs, i + 1))
      && Loop(J(lvl), bound, body, i, |cur|, st) == Loop(J(lvl), bound, body, i + 1, |cur|, st1)
    decreases f.ftype, 1, 1
  {
    var now := WireElem(f.ftype, v.vs[i]);
    var next := cur[i := NormElem(f.ftype, v.vs[i])];
    AheadSplit(st.cur, now, WireElems(f.ftype, v.vs, i + 1));
    DecodeOneElement(f, name, lvl, v, cur, i, st);
    assert Eval(LoopBound(f, name), st) == Some(|cur|);
    LoopStep(J(lvl), LoopBound(f, name), DecodeType(f.ftype, Idx(name, J(lvl)), lvl), i, |cur|, st,
        Decoded(st, name, List(next), |now|));
    DecodedRead(st, name, List(next), |now|);
  }

  lemma {:induction false} ElementsDone(f: Field, name: Path, lvl: nat, v: Value, cur: seq<Value>, st: State)
    requires ElementsPre(f, name, lvl, v, cur, |cur|, st) && cur[..|cur|] == NormElems(f.ftype, v.vs)[..|cur|]
    ensures Loop(J(lvl), LoopBound(f, name), DecodeType(f.ftype, Idx(name, J(lvl)), lvl), |cur|, |cur|, st)
         == Some(Decoded(st, name, List(NormElems(f.ftype, v.vs)), |WireElems(f.ftype, v.vs, |cur|)|))
  {
    assert cur == cur[..|cur|] == NormElems(f.ftype, v.vs);
    DecodedSame(st, name);
  }

  lemma {:induction false} DecodeLoopOk(f: Field, name: Path, lvl: nat, v: Value, cur: seq<Value>, i: nat, st: State)
    requires v.List? && i <= |cur| == |v.vs| && ElementsPre(f, name, lvl, v, cur, i, st)
    requires cur[..i] == NormElems(f.ftype, v.vs)[..i] && Ahead(st.cur, WireElems(f.ftype, v.vs, i))
    ensures Loop(J(lvl), LoopBound(f, name), DecodeType(f.ftype, Idx(name, J(lvl)), lvl), i, |cur|, st)
         == Some(Decoded(st, name, List(NormElems(f.ftype, v.vs)), |WireElems(f.ftype, v.vs, i)|))
    decreases f.ftype, 1, 2 + |cur| - i
  {
    hide *;
    var done := NormElems(f.ftype, v.vs);
    if i < |cur| {
      var now, rest := WireElem(f.ftype, v.vs[i]), WireElems(f.ftype, v.vs, i + 1);
      var next := cur[i := done[i]];
      DecodeNextElement(f, name, lvl, v, cur, i, st);
      assert next[..i + 1] == done[..i + 1];
      DecodeLoopOk(f, name, lvl, v, next, i + 1, Decoded(st, name, List(next), |now|));
      DecodedTwice(st, name, List(next), |now|, List(done), |rest|);
    } else {
      ElementsDone(f, name, lvl, v, cur, st);
    }
  }

  /** An array of structs, enums, ... sized by another field is made anew before it is filled. */
  lemma {:induction false} DecodeSizedArrayOk(f: Field, name: Path, size: Path, lvl: nat, v: Value, st: State)
    requires ShapeOk(f) && TypeOk(f.ftype) && IsElemArray(f) && f.length == 0
    requires Assignable(name, st) && Below(name, lvl) && Read(size, st) == Some(Num(Len(v)))
    requires FieldTyped(f, v) && FieldFits(f, v) && Ahead(st.cur, WireElems(f.ftype, v.vs, 0))
    ensures Run([Do(Make(name, f.ftype, ValueOf(size))),
        For(J(lvl), LenOf(name), DecodeType(f.ftype, Idx(name, J(lvl)), lvl))], st)
         == Some(Decoded(st, name, List(NormElems(f.ftype, v.vs)), |WireElems(f.ftype, v.vs, 0)|))
    decreases f.ftype, 2, 0
  {
    var zero := List(Repeat(ZeroElem(f.ftype), |v.vs|));
    var make, loop := Do(Make(name, f.ftype, ValueOf(size))),
        For(J(lvl), LenOf(name), DecodeType(f.ftype, Idx(name, J(lvl)), lvl));
    var st1 := Decoded(st, name, zero, 0);
    RunMake(name, f.ftype, ValueOf(size), |v.vs|, st);
    RunCons(make, [loop], st);
    DecodedRead(st, name, zero, 0);
    ZeroElemTyped(f.ftype);
    DecodeLoopOk(f, name, lvl, v, zero.vs, 0, st1);
    RunOne(loop, st1);
    DecodedTwice(st, name, zero, 0, List(NormElems(f.ftype, v.vs)), |WireElems(f.ftype, v.vs, 0)|);
  }

  lemma {:induction false} DecodeFieldOk(
    f: Field, name: Path, size: Option<Path>, lvl: nat, v: Value, before: Value, st: State)
    requires ShapeOk(f) && TypeOk(f.ftype) && Below(name, lvl)
    requires Rooted(name) && Read(name, st) == Some(before) && FieldTyped(f, before)
    requires FieldTyped(f, v) && FieldFits(f, v) && SizeKnown(f, size, v, st) && Ahead(st.cur, WireField(f, v))
    ensures Run(DecodeField(f, name, size, lvl), st) == Some(Decoded(st, name, NormField(f, v), |WireField(f, v)|))
    decreases f.ftype, 3, 0
  {
    if f.ftype.Base? {
      DecodeBaseOk(f, name, size, lvl, v, st);
    } else if f.isArray && f.length > 0 {
      RunOne(DecodeField(f, name, size, lvl)[0], st);
      DecodeLoopOk(f, name, lvl, v, before.vs, 0, st);
    } else if f.isArray {
      DecodeSizedArrayOk(f, name, size.value, lvl, v, st);
    } else {
      BelowMono(name, lvl, lvl + 1);
      DecodeTypeOk(f.ftype, name, lvl, v, before, st);
    }
  }

  /** A record under decoding: the first k fields are done, the others hold anything of their types. */
  ghost predicate Partial(fields: seq<Field>, vs: seq<Value>, cur: seq<Value>, k: nat)
  {
    && |cur| == |fields| == |vs| && k <= |fields|
    && (forall i | 0 <= i < k :: cur[i] == NormAt(fields, vs, i))
    && (forall i | k <= i < |fields| :: FieldTyped(fields[i], cur[i]))
  }

  ghost predicate FieldsPre(fields: seq<Field>, k: nat, p: Path, lvl: nat, vs: seq<Value>, cur: seq<Value>, st: State)
  {
    && WellFormed(fields) && Below(p, lvl) && Rooted(p) && Read(p, st) == Some(Rec(cur))
    && Typed(fields, vs) && Fits(fields, vs) && Partial(fields, vs, cur, k)
  }

  lemma {:induction false} DecodeCountOk(
    fields: seq<Field>, k: nat, p: Path, lvl: nat, vs: seq<Value>, cur: seq<Value>, st: State)
    requires FieldsPre(fields, k, p, lvl, vs, cur, st) && k < |fields| && FieldSizeOf(fields, k).Some?
    requires Ahead(st.cur, WireAt(fields, vs, k))
    ensures Run(DecodeField(fields[k], Sel(p, k), SizePath(fields, k, p), lvl), st)
         == Some(Decoded(st, Sel(p, k), NormAt(fields, vs, k), |WireAt(fields, vs, k)|))
  {
    var a := FieldSizeOf(fields, k).value;
    LinksAgree(fields, a, k);
    assert CountedBefore(fields, a) && ShapeOk(fields[k]);
    assert FieldFits(fields[a], vs[a]);
    RunDecScalar(fields[k].ftype.base, Sel(p, k), Num(Len(vs[a])), st);
  }

  lemma {:induction false} SizeIsKnown(
    fields: seq<Field>, k: nat, p: Path, lvl: nat, vs: seq<Value>, cur: seq<Value>, st: State)
    requires FieldsPre(fields, k, p, lvl, vs, cur, st) && k < |fields|
    ensures SizeKnown(fields[k], SizePath(fields, k, p), vs[k], st)
  {
    if fields[k].sizeFrom != "" {
      assert CountedBefore(fields, k);
      var c := FieldSizeFrom(fields, k).value;
      LinksAgree(fields, k, c);
      assert cur[c] == NormAt(fields, vs, c) == Num(Len(vs[k]));
    }
  }

  lemma {:induction false} DecodeOneField(
    fields: seq<Field>, k: nat, p: Path, lvl: nat, vs: seq<Value>, cur: seq<Value>, st: State)
    requires FieldsPre(fields, k, p, lvl, vs, cur, st) && k < |fields|
    requires Ahead(st.cur, WireAt(fields, vs, k))
    ensures Run(DecodeField(fields[k], Sel(p, k), SizePath(fields, k, p), lvl), st)
         == Some(Decoded(st, p, Rec(cur[k := NormAt(fields, vs, k)]), |WireAt(fields, vs, k)|))
    decreases fields, 0
  {
    DecodedField(st, p, cur, k, NormAt(fields, vs, k), |WireAt(fields, vs, k)|);
    if FieldSizeOf(fields, k).Some? {
      DecodeCountOk(fields, k, p, lvl, vs, cur, st);
    } else {
      assert ShapeOk(fields[k]) && TypeOk(fields[k].ftype) && FieldTyped(fields[k], vs[k]) &&
          FieldFits(fields[k], vs[k]);
      SizeIsKnown(fields, k, p, lvl, vs, cur, st);
      DecodeFieldOk(fields[k], Sel(p, k), SizePath(fields, k, p), lvl, vs[k], cur[k], st);
    }
  }

  lemma {:induction false} DecodeNextField(
    fields: seq<Field>, k: nat, p: Path, lvl: nat, vs: seq<Value>, cur: seq<Value>, st: State)
    requires FieldsPre(fields, k, p, lvl, vs, cur, st) && k < |fields|
    requires Ahead(st.cur, Wire(fields, vs, k))
    ensures var next := cur[k := NormAt(fields, vs, k)];
      var st1 := Decoded(st, p, Rec(next), |WireAt(fields, vs, k)|);
      && FieldsPre(fields, k + 1, p, lvl, vs, next, st1)
      && Assignable(p, st) && |Wire(fields, vs, k)| == |WireAt(fields, vs, k)| + |Wire(fields, vs, k + 1)|
      && Ahead(st1.cur, Wire(fields, vs, k + 1))
      && Run(DecodeFields(fields, k, p, lvl), st) == Run(DecodeFields(fields, k + 1, p, lvl), st1)
    decreases fields, 1, 0
  {
    var now := WireAt(fields, vs, k);
    AheadSplit(st.cur, now, Wire(fields, vs, k + 1));
    DecodeOneField(fields, k, p, lvl, vs, cur, st);
    DecodedRead(st, p, Rec(cur[k := NormAt(fields, vs, k)]), |now|);
    RunAppend(DecodeField(fields[k], Sel(p, k), SizePath(fields, k, p), lvl), DecodeFields(fields, k + 1, p, lvl), st);
  }

  lemma {:induction false} DecodeFieldsOk(
    fields: seq<Field>, k: nat, p: Path, lvl: nat, vs: seq<Value>, cur: seq<Value>, st: State)
    requires k <= |fields| == |vs| == |cur| && FieldsPre(fields, k, p, lvl, vs, cur, st)
    requires Ahead(st.cur, Wire(fields, vs, k))
    ensures Run(DecodeFields(fields, k, p, lvl), st)
         == Some(Decoded(st, p, Rec(Norm(fields, vs, |fields|)), |Wire(fields, vs, k)|))
    decreases fields, 1, |fields| - k
  {
    hide *;
    if k < |fields| {
      var next := cur[k := NormAt(fields, vs, k)];
      var st1 := Decoded(st, p, Rec(next), |WireAt(fields, vs, k)|);
      DecodeNextField(fields, k, p, lvl, vs, cur, st);
      DecodeFieldsOk(fields, k + 1, p, lvl, vs, next, st1);
      DecodedTwice(st, p, Rec(next), |WireAt(fields, vs, k)|, Rec(Norm(fields, vs, |fields|)),
          |Wire(fields, vs, k + 1)|);
    } else {
      AllDecoded(fields, p, lvl, vs, cur, st);
    }
  }

  lemma {:induction false} AllDecoded(
    fields: seq<Field>, p: Path, lvl: nat, vs: seq<Value>, cur: seq<Value>, st: State)
    requires FieldsPre(fields, |fields|, p, lvl, vs, cur, st)
    ensures Decoded(st, p, Rec(Norm(fields, vs, |fields|)), |Wire(fields, vs, |fields|)|) == st
    ensures Run(DecodeFields(fields, |fields|, p, lvl), st) == Some(st)
  {
    assert cur == Norm(fields, vs, |fields|);
    DecodedSame(st, p);
  }

  /** Unmarshal() of a message into a receiver that held any value of its type. */
  lemma {:induction false} EmittedUnmarshalReadsNorm(fields: seq<Field>, vs: seq<Value>, before: seq<Value>, c: Cursor)
    requires WellFormed(fields) && Typed(fields, vs) && Fits(fields, vs)
    requires Typed(fields, before) && Ahead(c, Wire(fields, vs, 0))
    ensures Run(UnmarshalProgram(fields), State(Rec(before), map[], 0, c))
         == Some(State(Rec(Norm(fields, vs, |fields|)), map[], 0, Skip(c, |Wire(fields, vs, 0)|)))
  {
    DecodeFieldsOk(fields, 0, Root, 0, vs, before, State(Rec(before), map[], 0, c));
  }
}
