/**
 The emitted Unmarshal method on bytes that no Marshal wrote: it panics, or it leaves a value of the message's
 type whose arrays have the lengths that its size fields hold.
 */
module AnyBytes {
  import opened Wrappers
  import opened Bytes
  import opened Cursors
  import opened Schema
  import opened Values
  import opened Program
  import opened Emitted
  import opened UnmarshalProof

  /** A run that panics, or reads n bytes and assigns x to p. */
  ghost predicate Gives(r: Option<State>, st: State, p: Path, x: Value, n: nat)
  {
    r.None? || r == Some(Decoded(st, p, x, n))
  }

  // ---------------------------------------------------------------- values that can be decoded

  predicate ElemSound(t: FType, v: Value)
    decreases t
  {
    match t
    case Base(STRING) => v.Bytes? ==> |v.bs| < Pow256(4)
    case AliasStruct(fields) => v.Rec? ==> Sound(fields, v.vs)
    case Struct(fields) => v.Rec? ==> Sound(fields, v.vs)
    case _ => true
  }

  predicate FieldSound(f: Field, v: Value)
    decreases f
  {
    if f.ftype == Base(STRING) && f.length > 0 then true
    else if IsElemArray(f) then v.List? ==> forall i | 0 <= i < |v.vs| :: ElemSound(f.ftype, v.vs[i])
    else ElemSound(f.ftype, v)
  }

  /** Variable strings are shorter than 2^32, and each size field holds the length of its array. */
  predicate Sound(fields: seq<Field>, vs: seq<Value>)
    decreases fields
  {
    |vs| == |fields| ==> forall i | 0 <= i < |fields| :: FieldSound(fields[i], vs[i]) && SizeAgrees(fields, vs, i)
  }

  /** A string carries its own length as well, so that of a size field is not needed to decode it. */
  predicate SizeAgrees(fields: seq<Field>, vs: seq<Value>, i: nat)
    requires i < |fields| == |vs|
  {
    var c := FieldSizeFrom(fields, i);
    c.Some? && fields[i].ftype != Base(STRING) ==> vs[c.value] == Num(Len(vs[i]))
  }

  // ---------------------------------------------------------------- scalars and strings

  lemma {:induction false} AnyInteger(signed: bool, w: nat, c: Cursor)
    ensures var r := IntegerOf(signed, w, c);
      r.Some? ==>
        && r.value.0 == Skip(c, w)
        && (if signed then 0 - Pow256(w) <= 2 * r.value.1 < Pow256(w) else 0 <= r.value.1 < Pow256(w))
  {
    if c.pos + w <= |c.buf| {
      FromBigEndianBound(c.buf[c.pos..c.pos + w]);
    }
  }

  lemma {:induction false} AnyString(c: Cursor, length: nat)
    ensures var r := DecodeString(c, length);
      r.Some? ==> r.value.0.buf == c.buf && r.value.0.pos >= c.pos && (length == 0 ==> |r.value.1| < Pow256(4))
  {
    if length == 0 && c.pos + 4 <= |c.buf| {
      FromBigEndianBound(c.buf[c.pos..c.pos + 4]);
    }
  }

  lemma {:induction false} AnyScalar(t: BaseType, c: Cursor)
    ensures var r := ScalarOf(t, c);
      r.Some? ==>
        && r.value.0.buf == c.buf && r.value.0.pos >= c.pos && ScalarTyped(t, r.value.1)
        && (t == STRING ==> |r.value.1.bs| < Pow256(4))
  {
    match t {
      case STRING => AnyString(c, 0);
      case BOOL =>
      case F64 =>
        if c.pos + 8 <= |c.buf| {
          FromLittleEndianBound(c.buf[c.pos..c.pos + 8]);
        }
      case _ => AnyInteger(IsSigned(t), BaseTypeSize(t), c);
    }
  }

  lemma {:induction false} AnyDecScalar(t: BaseType, p: Path, st: State) returns (x: Value, n: nat)
    requires Assignable(p, st)
    ensures Gives(Run([Do(DecScalar(p, t))], st), st, p, x, n) && ScalarTyped(t, x)
    ensures t == STRING ==> |x.bs| < Pow256(4)
  {
    AnyScalar(t, st.cur);
    RunOne(Do(DecScalar(p, t)), st);
    var r := ScalarOf(t, st.cur);
    if r.Some? {
      x, n := r.value.1, r.value.0.pos - st.cur.pos;
      StoreLaws(p, st.root, st.locals, x, x);
      assert r.value.0 == Skip(st.cur, n);
    } else {
      x, n := ZeroScalar(t), 0;
    }
  }

  lemma {:induction false} AnyDecString(p: Path, length: nat, st: State) returns (x: bytes, n: nat)
    requires Assignable(p, st)
    ensures Gives(Run([Do(DecString(p, length))], st), st, p, Value.Bytes(x), n)
    ensures length == 0 ==> |x| < Pow256(4)
  {
    AnyString(st.cur, length);
    RunOne(Do(DecString(p, length)), st);
    var r := DecodeString(st.cur, length);
    if r.Some? {
      x, n := r.value.1, r.value.0.pos - st.cur.pos;
      StoreLaws(p, st.root, st.locals, Value.Bytes(x), Value.Bytes(x));
      assert r.value.0 == Skip(st.cur, n);
    } else {
      x, n := [], 0;
    }
  }

  lemma {:induction false} AnyDecCopy(p: Path, count: Count, old_: bytes, st: State) returns (x: bytes, n: nat)
    requires Assignable(p, st) && Read(p, st) == Some(Value.Bytes(old_))
    ensures Gives(Run([Do(DecCopy(p, count))], st), st, p, Value.Bytes(x), n) && |x| == |old_|
  {
    hide Load, Store, Typed, Below, Run;
    RunOne(Do(DecCopy(p, count)), st);
    x, n := old_, 0;
    if Eval(count, st).Some? && st.cur.pos + Eval(count, st).value <= |st.cur.buf| {
      n := Eval(count, st).value;
      x := CopyOver(old_, st.cur.buf[st.cur.pos..st.cur.pos + n]);
      StoreLaws(p, st.root, st.locals, Value.Bytes(x), Value.Bytes(x));
    }
  }

  // ---------------------------------------------------------------- arrays of base types

  predicate Scalars(t: BaseType, vs: seq<Value>)
  {
    forall i | 0 <= i < |vs| :: ScalarTyped(t, vs[i])
  }

  lemma {:induction false} AnyOneScalar(t: BaseType, name: Path, lvl: nat, cur: seq<Value>, i: nat, st: State)
    returns (x: Value, n: nat)
    requires Rooted(name) && Below(name, lvl) && Read(name, st) == Some(List(cur)) && i < |cur| && t != STRING
    ensures var body := [Do(DecScalar(Idx(name, I), t))];
      var r := Run(body, st.(locals := st.locals[I := Num(i)]));
      && ScalarTyped(t, x)
      && (r.None? || r.value.(locals := st.locals) == Decoded(st, name, List(cur[i := x]), n))
  {
    var st1 := st.(locals := st.locals[I := Num(i)]);
    DecodedElement(st, name, lvl, I, cur, i, cur[i], 0);
    x, n := AnyDecScalar(t, Idx(name, I), st1);
    DecodedElement(st, name, lvl, I, cur, i, x, n);
  }

  lemma {:induction false} AnyScalars(t: BaseType, name: Path, lvl: nat, cur: seq<Value>, i: nat, st: State)
    returns (out: seq<Value>, n: nat)
    requires Rooted(name) && Below(name, lvl) && Read(name, st) == Some(List(cur)) && i <= |cur|
    requires t != STRING && Scalars(t, cur)
    ensures Gives(Loop(I, LenOf(name), [Do(DecScalar(Idx(name, I), t))], i, |cur|, st), st, name, List(out), n)
    ensures |out| == |cur| && Scalars(t, out)
    decreases |cur| - i
  {
    hide Decoded, Store, Load, ScalarTyped;
    out, n := cur, 0;
    DecodedSame(st, name);
    if i < |cur| {
      var body := [Do(DecScalar(Idx(name, I), t))];
      var x, m := AnyOneScalar(t, name, lvl, cur, i, st);
      var next := cur[i := x];
      var st1 := Decoded(st, name, List(next), m);
      if Run(body, st.(locals := st.locals[I := Num(i)])).Some? {
        LoopStep(I, LenOf(name), body, i, |cur|, st, st1);
        DecodedRead(st, name, List(next), m);
        var rest: nat;
        out, rest := AnyScalars(t, name, lvl, next, i + 1, st1);
        DecodedTwice(st, name, List(next), m, List(out), rest);
        n := m + rest;
      }
    }
  }

  /** A counted or fixed array of a base type has the length that was evaluated for it. */
  lemma {:induction false} AnyBaseArray(
    t: BaseType, name: Path, length: nat, size: Option<Path>, lvl: nat, st: State) returns (x: Value, n: nat)
    requires t != STRING && (length > 0 || size.Some?) && Assignable(name, st) && Below(name, lvl)
    ensures var count := if length > 0 then Lit(length) else ValueOf(size.value);
      && Gives(Run(DecodeBaseType(t, name, length, size, true), st), st, name, x, n)
      && (if t == U8 then x.Bytes? else x.List? && Scalars(t, x.vs))
      && (Run(DecodeBaseType(t, name, length, size, true), st).Some? ==> Eval(count, st) == Some(Len(x)))
  {
    var count := if length > 0 then Lit(length) else ValueOf(size.value);
    var code := DecodeBaseType(t, name, length, size, true);
    x, n := if t == U8 then Value.Bytes([]) else List([]), 0;
    if Eval(count, st).None? {
      assert Exec(code[0], st).None?;
    } else {
      var len := Eval(count, st).value;
      RunMake(name, Base(t), count, len, st);
      if t == U8 {
        x, n := AnyCountedBytes(name, count, len, st);
      } else {
        x, n := AnyCountedScalars(t, name, count, len, lvl, st);
        assert code == [Do(Make(name, Base(t), count)), For(I, LenOf(name), [Do(DecScalar(Idx(name, I), t))])];
      }
    }
  }

  lemma {:induction false} AnyCountedBytes(name: Path, count: Count, len: nat, st: State) returns (x: Value, n: nat)
    requires Assignable(name, st) && Eval(count, st) == Some(len)
    ensures Gives(Run([Do(Make(name, Base(U8), count)), Do(DecCopy(name, LenOf(name)))], st), st, name, x, n)
    ensures x.Bytes? && |x.bs| == len
  {
    var zero := Value.Bytes(Zeros(len));
    RunMake(name, Base(U8), count, len, st);
    RunCons(Do(Make(name, Base(U8), count)), [Do(DecCopy(name, LenOf(name)))], st);
    DecodedRead(st, name, zero, 0);
    DecodedTwice(st, name, zero, 0, zero, 0);
    var bs: bytes;
    bs, n := AnyDecCopy(name, LenOf(name), Zeros(len), Decoded(st, name, zero, 0));
    x := Value.Bytes(bs);
    DecodedTwice(st, name, zero, 0, x, n);
  }

  lemma {:induction false} AnyCountedScalars(t: BaseType, name: Path, count: Count, len: nat, lvl: nat, st: State)
    returns (x: Value, n: nat)
    requires Assignable(name, st) && Below(name, lvl) && Eval(count, st) == Some(len) && t != STRING && t != U8
    ensures var code := [Do(Make(name, Base(t), count)), For(I, LenOf(name), [Do(DecScalar(Idx(name, I), t))])];
      Gives(Run(code, st), st, name, x, n)
    ensures x.List? && |x.vs| == len && Scalars(t, x.vs)
  {
    var zero := Repeat(ZeroElem(Base(t)), len);
    var loop := For(I, LenOf(name), [Do(DecScalar(Idx(name, I), t))]);
    var st1 := Decoded(st, name, List(zero), 0);
    RunMake(name, Base(t), count, len, st);
    RunCons(Do(Make(name, Base(t), count)), [loop], st);
    DecodedRead(st, name, List(zero), 0);
    var out: seq<Value>;
    out, n := AnyScalars(t, name, lvl, zero, 0, st1);
    x := List(out);
    RunOne(loop, st1);
    DecodedTwice(st, name, List(zero), 0, x, n);
  }

  // ---------------------------------------------------------------- elements, fields, records

  lemma {:induction false} AnyType(t: FType, name: Path, lvl: nat, before: Value, st: State) returns (x: Value, n: nat)
    requires TypeOk(t) && !t.Base? && Below(name, lvl + 1)
    requires Rooted(name) && Read(name, st) == Some(before) && ElemTyped(t, before)
    ensures Gives(Run(DecodeType(t, name, lvl), st), st, name, x, n) && ElemTyped(t, x)
    ensures Run(DecodeType(t, name, lvl), st).Some? ==> ElemSound(t, x)
    decreases t, 0, 0
  {
    match t {
      case Enum(b) => x, n := AnyDecScalar(b, name, st);
      case Alias(b, len) =>
        if len > 0 {
          var bs: bytes;
          bs, n := AnyDecCopy(name, Lit(len), before.bs, st);
          x := Value.Bytes(bs);
        } else {
          x, n := AnyDecScalar(b, name, st);
        }
      case AliasStruct(fields) =>
        var out: seq<Value>;
        out, n := AnyFields(fields, 0, name, lvl + 1, before.vs, st);
        x := Rec(out);
      case Struct(fields) =>
        var out: seq<Value>;
        out, n := AnyFields(fields, 0, name, lvl + 1, before.vs, st);
        x := Rec(out);
      case Union(members) =>
        var bs: bytes;
        bs, n := AnyDecCopy(name, Lit(UnionSize(members)), before.bs, st);
        x := Value.Bytes(bs);
    }
  }

  predicate Elements(t: FType, vs: seq<Value>, sound: nat)
  {
    && (forall i | 0 <= i < |vs| :: ElemTyped(t, vs[i]))
    && (forall i | 0 <= i < sound && i < |vs| :: ElemSound(t, vs[i]))
  }

  ghost predicate LoopPre(f: Field, name: Path, lvl: nat, cur: seq<Value>, i: nat, st: State)
  {
    && TypeOk(f.ftype) && IsElemArray(f) && (f.length > 0 ==> |cur| == f.length)
    && Rooted(name) && Below(name, lvl) && Read(name, st) == Some(List(cur))
    && i <= |cur| && Elements(f.ftype, cur, i)
  }

  lemma {:induction false} AnyElement(f: Field, name: Path, lvl: nat, cur: seq<Value>, i: nat, st: State)
    returns (x: Value, n: nat)
    requires LoopPre(f, name, lvl, cur, i, st) && i < |cur|
    ensures var r := Run(DecodeType(f.ftype, Idx(name, J(lvl)), lvl), st.(locals := st.locals[J(lvl) := Num(i)]));
      r.None? || (r.value.(locals := st.locals) == Decoded(st, name, List(cur[i := x]), n)
                  && Elements(f.ftype, cur[i := x], i + 1))
    decreases f.ftype, 1, 0
  {
    var st1 := st.(locals := st.locals[J(lvl) := Num(i)]);
    BelowMono(name, lvl, lvl + 1);
    DecodedElement(st, name, lvl, J(lvl), cur, i, cur[i], 0);
    x, n := AnyType(f.ftype, Idx(name, J(lvl)), lvl, cur[i], st1);
    DecodedElement(st, name, lvl, J(lvl), cur, i, x, n);
  }

  lemma {:induction false} AnyElements(f: Field, name: Path, lvl: nat, cur: seq<Value>, i: nat, st: State)
    returns (out: seq<Value>, n: nat)
    requires LoopPre(f, name, lvl, cur, i, st)
    ensures var body := DecodeType(f.ftype, Idx(name, J(lvl)), lvl);
      var r := Loop(J(lvl), LoopBound(f, name), body, i, |cur|, st);
      Gives(r, st, name, List(out), n) && (r.Some? ==> Elements(f.ftype, out, |out|))
    ensures |out| == |cur| && Elements(f.ftype, out, 0)
    decreases f.ftype, 1, 1 + |cur| - i
  {
    hide Decoded, Store, Load, Elements, DecodeType;
    out, n := cur, 0;
    DecodedSame(st, name);
    assert Eval(LoopBound(f, name), st) == Some(|cur|);
    if i < |cur| {
      var body := DecodeType(f.ftype, Idx(name, J(lvl)), lvl);
      var x, m := AnyElement(f, name, lvl, cur, i, st);
      var next := cur[i := x];
      if Run(body, st.(locals := st.locals[J(lvl) := Num(i)])).Some? {
        var st1 := Decoded(st, name, List(next), m);
        DecodedRead(st, name, List(next), m);
        LoopStep(J(lvl), LoopBound(f, name), body, i, |cur|, st, st1);
        var rest: nat;
        out, rest := AnyElements(f, name, lvl, next, i + 1, st1);
        DecodedTwice(st, name, List(next), m, List(out), rest);
        n := m + rest;
      } else {
        FewerElements(f.ftype, cur, i);
      }
    } else {
      FewerElements(f.ftype, cur, i);
    }
  }

  lemma {:induction false} FewerElements(t: FType, vs: seq<Value>, sound: nat)
    requires Elements(t, vs, sound)
    ensures Elements(t, vs, 0)
  {
  }

  lemma {:induction false} AnySizedArray(f: Field, name: Path, size: Path, lvl: nat, st: State)
    returns (x: Value, n: nat)
    requires ShapeOk(f) && TypeOk(f.ftype) && IsElemArray(f) && f.length == 0
    requires Assignable(name, st) && Below(name, lvl)
    ensures var code := [Do(Make(name, f.ftype, ValueOf(size))),
        For(J(lvl), LenOf(name), DecodeType(f.ftype, Idx(name, J(lvl)), lvl))];
      && Gives(Run(code, st), st, name, x, n) && x.List? && Elements(f.ftype, x.vs, 0)
      && (Run(code, st).Some? ==> Eval(ValueOf(size), st) == Some(Len(x)) && Elements(f.ftype, x.vs, |x.vs|))
    decreases f.ftype, 2, 0
  {
    var make, loop := Do(Make(name, f.ftype, ValueOf(size))),
        For(J(lvl), LenOf(name), DecodeType(f.ftype, Idx(name, J(lvl)), lvl));
    RunCons(make, [loop], st);
    x, n := List([]), 0;
    if Eval(ValueOf(size), st).Some? {
      var len := Eval(ValueOf(size), st).value;
      var zero := Repeat(ZeroElem(f.ftype), len);
      var st1 := Decoded(st, name, List(zero), 0);
      RunMake(name, f.ftype, ValueOf(size), len, st);
      DecodedRead(st, name, List(zero), 0);
      ZeroElemTyped(f.ftype);
      var out: seq<Value>;
      out, n := AnyElements(f, name, lvl, zero, 0, st1);
      x := List(out);
      RunOne(loop, st1);
      DecodedTwice(st, name, List(zero), 0, x, n);
    }
  }

  /** The array has the length that its size field held. */
  ghost predicate Counted(f: Field, size: Option<Path>, x: Value, st: State)
  {
    f.sizeFrom != "" && f.ftype != Base(STRING) ==> size.Some? && Read(size.value, st) == Some(Num(Len(x)))
  }

  lemma {:induction false} AnyBaseField(f: Field, name: Path, size: Option<Path>, lvl: nat, st: State)
    returns (x: Value, n: nat)
    requires ShapeOk(f) && f.ftype.Base? && Assignable(name, st) && Below(name, lvl)
    requires size.Some? <==> f.sizeFrom != ""
    ensures var r := Run(DecodeField(f, name, size, lvl), st);
      Gives(r, st, name, x, n) && (r.Some? ==> Counted(f, size, x, st) && FieldSound(f, x))
    ensures FieldTyped(f, x)
  {
    var t := f.ftype.base;
    if t == STRING {
      var bs: bytes;
      bs, n := AnyDecString(name, f.length, st);
      x := Value.Bytes(bs);
    } else if IsBaseArray(f) {
      x, n := AnyBaseArray(t, name, f.length, size, lvl, st);
    } else {
      x, n := AnyDecScalar(t, name, st);
      ScalarField(f, x);
    }
  }

  lemma {:induction false} AnyField(f: Field, name: Path, size: Option<Path>, lvl: nat, before: Value, st: State)
    returns (x: Value, n: nat)
    requires ShapeOk(f) && TypeOk(f.ftype) && Below(name, lvl)
    requires Rooted(name) && Read(name, st) == Some(before) && FieldTyped(f, before)
    requires size.Some? <==> f.sizeFrom != ""
    ensures var r := Run(DecodeField(f, name, size, lvl), st);
      Gives(r, st, name, x, n) && (r.Some? ==> Counted(f, size, x, st) && FieldSound(f, x))
    ensures FieldTyped(f, x)
    decreases f.ftype, 3, 0
  {
    if f.ftype.Base? {
      x, n := AnyBaseField(f, name, size, lvl, st);
    } else if f.isArray && f.length > 0 {
      RunOne(DecodeField(f, name, size, lvl)[0], st);
      var out: seq<Value>;
      out, n := AnyElements(f, name, lvl, before.vs, 0, st);
      x := List(out);
    } else if f.isArray {
      x, n := AnySizedArray(f, name, size.value, lvl, st);
    } else {
      BelowMono(name, lvl, lvl + 1);
      x, n := AnyType(f.ftype, name, lvl, before, st);
    }
  }

  /** The first k fields are sound. */
  ghost predicate SoundTo(fields: seq<Field>, cur: seq<Value>, k: nat)
    requires |cur| == |fields|
  {
    forall i | 0 <= i < k && i < |fields| :: FieldSound(fields[i], cur[i]) && SizeAgrees(fields, cur, i)
  }

  /** Field k is no size field of an earlier array, and its own size field is an earlier one. */
  lemma {:induction false} SoundOneMore(fields: seq<Field>, cur: seq<Value>, k: nat, p: Path, x: Value, st: State)
    requires WellFormed(fields) && k < |fields| == |cur| && Read(p, st) == Some(Rec(cur)) && SoundTo(fields, cur, k)
    requires FieldSound(fields[k], x) && Counted(fields[k], SizePath(fields, k, p), x, st)
    ensures SoundTo(fields, cur[k := x], k + 1)
  {
    var next := cur[k := x];
    forall i | 0 <= i < k + 1 ensures FieldSound(fields[i], next[i]) && SizeAgrees(fields, next, i) {
      if FieldSizeFrom(fields, i).Some? {
        assert fields[i].sizeFrom != "" && CountedBefore(fields, i);
      }
    }
  }

  lemma {:induction false} AnyOneField(fields: seq<Field>, k: nat, p: Path, lvl: nat, cur: seq<Value>, st: State)
    returns (x: Value, n: nat)
    requires WellFormed(fields) && k < |fields| && Below(p, lvl) && Rooted(p) && Read(p, st) == Some(Rec(cur))
    requires Typed(fields, cur) && SoundTo(fields, cur, k)
    ensures var r := Run(DecodeField(fields[k], Sel(p, k), SizePath(fields, k, p), lvl), st);
      && Gives(r, st, p, Rec(cur[k := x]), n)
      && (r.Some? ==> SoundTo(fields, cur[k := x], k + 1))
    ensures Typed(fields, cur[k := x])
    decreases fields, 0
  {
    var size := SizePath(fields, k, p);
    assert ShapeOk(fields[k]) && TypeOk(fields[k].ftype) && FieldTyped(fields[k], cur[k]);
    assert fields[k].sizeFrom != "" ==> CountedBefore(fields, k);
    DecodedField(st, p, cur, k, cur[k], 0);
    x, n := AnyField(fields[k], Sel(p, k), size, lvl, cur[k], st);
    DecodedField(st, p, cur, k, x, n);
    if Run(DecodeField(fields[k], Sel(p, k), size, lvl), st).Some? {
      SoundOneMore(fields, cur, k, p, x, st);
    }
  }

  lemma {:induction false} AnyFields(fields: seq<Field>, k: nat, p: Path, lvl: nat, cur: seq<Value>, st: State)
    returns (out: seq<Value>, n: nat)
    requires WellFormed(fields) && k <= |fields| && Below(p, lvl) && Rooted(p) && Read(p, st) == Some(Rec(cur))
    requires Typed(fields, cur) && SoundTo(fields, cur, k)
    ensures Gives(Run(DecodeFields(fields, k, p, lvl), st), st, p, Rec(out), n)
    ensures Typed(fields, out) && (Run(DecodeFields(fields, k, p, lvl), st).Some? ==> Sound(fields, out))
    decreases fields, 1, |fields| - k
  {
    hide *;
    out, n := cur, 0;
    SameLength(fields, cur);
    NothingDecoded(fields, k, p, lvl, cur, st);
    if k < |fields| {
      var code := DecodeField(fields[k], Sel(p, k), SizePath(fields, k, p), lvl);
      var x, m := AnyOneField(fields, k, p, lvl, cur, st);
      var next := cur[k := x];
      var st1 := Decoded(st, p, Rec(next), m);
      RunAppend(code, DecodeFields(fields, k + 1, p, lvl), st);
      if Run(code, st).Some? {
        FirstDecoded(Run(code, st), st, p, Rec(next), m);
        var rest: nat;
        out, rest := AnyFields(fields, k + 1, p, lvl, next, st1);
        RestDecoded(Run(DecodeFields(fields, k + 1, p, lvl), st1), st, p, Rec(next), m, Rec(out), rest);
        n := m + rest;
      } else {
        Panicking(st, p, Rec(out), n);
      }
    } else {
      AllSound(fields, cur);
    }
  }

  lemma {:induction false} SameLength(fields: seq<Field>, vs: seq<Value>)
    requires Typed(fields, vs)
    ensures |vs| == |fields|
  {
  }

  lemma {:induction false} NothingDecoded(fields: seq<Field>, k: nat, p: Path, lvl: nat, cur: seq<Value>, st: State)
    requires Rooted(p) && Read(p, st) == Some(Rec(cur))
    ensures Assignable(p, st)
    ensures if k < |fields| then
        DecodeFields(fields, k, p, lvl)
        == DecodeField(fields[k], Sel(p, k), SizePath(fields, k, p), lvl) + DecodeFields(fields, k + 1, p, lvl)
      else
        Gives(Run(DecodeFields(fields, k, p, lvl), st), st, p, Rec(cur), 0)
  {
    DecodedSame(st, p);
  }

  lemma {:induction false} Panicking(st: State, p: Path, x: Value, n: nat)
    ensures Gives(None, st, p, x, n)
  {
  }

  lemma {:induction false} FirstDecoded(r: Option<State>, st: State, p: Path, x: Value, n: nat)
    requires Gives(r, st, p, x, n) && r.Some? && Assignable(p, st)
    ensures r == Some(Decoded(st, p, x, n)) && Read(p, Decoded(st, p, x, n)) == Some(x)
  {
    DecodedRead(st, p, x, n);
  }

  lemma {:induction false} RestDecoded(
    r: Option<State>, st: State, p: Path, x: Value, m: nat, y: Value, n: nat)
    requires Assignable(p, st) && Gives(r, Decoded(st, p, x, m), p, y, n)
    ensures Gives(r, st, p, y, m + n)
  {
    DecodedTwice(st, p, x, m, y, n);
  }

  lemma {:induction false} AllSound(fields: seq<Field>, cur: seq<Value>)
    requires |cur| == |fields| && SoundTo(fields, cur, |fields|)
    ensures Sound(fields, cur)
  {
  }

  /** Unmarshal() of any bytes into a receiver that held any value of its type. */
  lemma {:induction false} EmittedUnmarshalOfAnyBytes(fields: seq<Field>, before: seq<Value>, c: Cursor)
    returns (out: seq<Value>, n: nat)
    requires WellFormed(fields) && Typed(fields, before)
    ensures var r := Run(UnmarshalProgram(fields), State(Rec(before), map[], 0, c));
      r.Some? ==>
        && r.value == State(Rec(out), map[], 0, Skip(c, n))
        && Typed(fields, out) && Sound(fields, out)
  {
    var st := State(Rec(before), map[], 0, c);
    out, n := AnyFields(fields, 0, Root, 0, before, st);
  }
}
