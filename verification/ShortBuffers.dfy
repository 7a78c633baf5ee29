/** The emitted encoder on a zeroed buffer that is too short for the value: it panics. */
module ShortBuffers {
  import opened Wrappers
  import opened Bytes
  import opened Cursors
  import opened Schema
  import opened Values
  import opened Program
  import opened Emitted
  import opened MarshalProof
  import SizeProof

  /** Zeroed from the position on, with fewer than n bytes left. */
  ghost predicate Short(c: Cursor, n: nat)
  {
    c.pos <= |c.buf| < c.pos + n && forall i | c.pos <= i < |c.buf| :: c.buf[i] == 0
  }

  /** Either the first part does not fit, or it does and the second does not. */
  lemma {:induction false} ShortSplit(st: State, a: bytes, b: bytes)
    requires Short(st.cur, |a + b|)
    ensures Short(st.cur, |a|) || (ZeroAhead(st.cur, |a|) && Short(Wrote(st, a).cur, |b|))
  {
    var c := st.cur;
    if c.pos + |a| <= |c.buf| {
      var d := Write(c, a);
      assert d.buf[d.pos..] == c.buf[c.pos + |a|..];
      forall i | d.pos <= i < |d.buf| ensures d.buf[i] == 0 {
        assert d.buf[i] == d.buf[d.pos..][i - d.pos];
      }
    }
  }

  lemma {:induction false} ShortScalar(t: BaseType, c: Cursor, v: Value)
    requires ScalarTyped(t, v) && Short(c, |ScalarBytes(t, v)|)
    ensures EncodeScalar(t, c, v) == None
  {
  }

  lemma {:induction false} RunShortScalar(t: BaseType, p: Path, v: Value, st: State)
    requires Read(p, st) == Some(v) && ScalarTyped(t, v) && Short(st.cur, |ScalarBytes(t, v)|)
    ensures Run([Do(EncScalar(t, p))], st) == None
  {
    ShortScalar(t, st.cur, v);
    RunOne(Do(EncScalar(t, p)), st);
  }

  lemma {:induction false} ShortOneScalar(t: BaseType, name: Path, lvl: nat, v: Value, i: nat, st: State)
    requires Read(name, st) == Some(v) && v.List? && Below(name, lvl)
    requires ScalarTyped(t, ScalarAt(t, v.vs, i)) && Short(st.cur, |ScalarBytes(t, ScalarAt(t, v.vs, i))|)
    ensures var body := [Do(Bind(X, Base(t), name, I)), Do(EncScalar(t, Local(X)))];
      Run(body, st.(locals := st.locals[I := Num(i)])) == None
  {
    var x := ScalarAt(t, v.vs, i);
    var st1 := st.(locals := st.locals[I := Num(i)]);
    LoadFrame(name, st.root, st.locals, lvl, I, Num(i));
    var st2 := st1.(locals := st1.locals[X := x]);
    assert Exec(Do(Bind(X, Base(t), name, I)), st1) == Some(st2);
    RunCons(Do(Bind(X, Base(t), name, I)), [Do(EncScalar(t, Local(X)))], st1);
    RunShortScalar(t, Local(X), x, st2);
  }

  lemma {:induction false} ShortScalars(
    t: BaseType, name: Path, lvl: nat, length: nat, v: Value, n: nat, i: nat, st: State)
    requires Read(name, st) == Some(v) && v.List? && Below(name, lvl) && i <= n
    requires forall k | 0 <= k < |v.vs| :: ScalarTyped(t, v.vs[k])
    requires n == if length > 0 then length else |v.vs|
    requires Short(st.cur, |WireScalars(t, v.vs, n, i)|)
    ensures var body := [Do(Bind(X, Base(t), name, I)), Do(EncScalar(t, Local(X)))];
      Loop(I, if length != 0 then Lit(length) else LenOf(name), body, i, n, st) == None
    decreases n - i
  {
    if i < n {
      var now := ScalarBytes(t, ScalarAt(t, v.vs, i));
      SizeProof.ScalarAtTyped(t, v.vs, i);
      ShortSplit(st, now, WireScalars(t, v.vs, n, i + 1));
      if Short(st.cur, |now|) {
        ShortOneScalar(t, name, lvl, v, i, st);
      } else {
        EncodeOneScalar(t, name, lvl, v, i, st);
        ShortScalars(t, name, lvl, length, v, n, i + 1, Wrote(st, now));
      }
    }
  }

  lemma {:induction false} ShortType(t: FType, name: Path, lvl: nat, v: Value, st: State)
    requires TypeOk(t) && !t.Base? && Below(name, lvl + 1)
    requires Read(name, st) == Some(v) && ElemTyped(t, v) && Short(st.cur, |WireElem(t, v)|)
    ensures Run(EncodeType(t, name, lvl), st) == None
    decreases t, 0, 0
  {
    match t {
      case Enum(b) => RunShortScalar(b, name, v, st);
      case Alias(b, n) =>
        if n > 0 {
          RunOne(Do(EncBytes(name, n)), st);
        } else {
          RunShortScalar(b, name, v, st);
        }
      case AliasStruct(fields) => ShortFields(fields, 0, name, lvl + 1, v.vs, st);
      case Struct(fields) => ShortFields(fields, 0, name, lvl + 1, v.vs, st);
      case Union(members) => RunOne(Do(EncBytes(name, UnionSize(members))), st);
    }
  }

  lemma {:induction false} ShortElement(f: Field, name: Path, lvl: nat, v: Value, i: nat, st: State)
    requires SizeProof.LoopPre(f, name, lvl, v, st) && i < |v.vs| && Short(st.cur, |WireElem(f.ftype, v.vs[i])|)
    ensures Run(EncodeBody(f, name, lvl), st.(locals := st.locals[J(lvl) := Num(i)])) == None
    decreases f.ftype, 1, 0
  {
    var copy := CopyElement(f, name, lvl, V(lvl));
    var elem := Element(f, name, lvl, V(lvl));
    var st1 := st.(locals := st.locals[J(lvl) := Num(i)]);
    LoadFrame(name, st.root, st.locals, lvl, J(lvl), Num(i));
    RunAppend(copy, EncodeType(f.ftype, elem, lvl), st1);
    var st2 := if CopiesElement(f) then st1.(locals := st1.locals[V(lvl) := v.vs[i]]) else st1;
    if CopiesElement(f) {
      RunOne(copy[0], st1);
    }
    assert Run(copy, st1) == Some(st2);
    BelowMono(name, lvl, lvl + 1);
    ShortType(f.ftype, elem, lvl, v.vs[i], st2);
  }

  lemma {:induction false} ShortLoop(f: Field, name: Path, lvl: nat, v: Value, i: nat, st: State)
    requires SizeProof.LoopPre(f, name, lvl, v, st) && i <= |v.vs| && Short(st.cur, |WireElems(f.ftype, v.vs, i)|)
    ensures Loop(J(lvl), LoopBound(f, name), EncodeBody(f, name, lvl), i, |v.vs|, st) == None
    decreases f.ftype, 1, 1 + |v.vs| - i
  {
    if i < |v.vs| {
      var elem := WireElem(f.ftype, v.vs[i]);
      assert WireElems(f.ftype, v.vs, i) == elem + WireElems(f.ftype, v.vs, i + 1);
      LoopTurn(f, name, lvl, v, i, st);
      hide *;
      ShortSplit(st, elem, WireElems(f.ftype, v.vs, i + 1));
      if Short(st.cur, |elem|) {
        ShortElement(f, name, lvl, v, i, st);
      } else {
        EncodeOneElement(f, name, lvl, v, i, st);
        WroteLoop(f, name, lvl, v, st, elem);
        ShortLoop(f, name, lvl, v, i + 1, Wrote(st, elem));
      }
    }
  }

  lemma {:induction false} LoopTurn(f: Field, name: Path, lvl: nat, v: Value, i: nat, st: State)
    requires SizeProof.LoopPre(f, name, lvl, v, st) && i < |v.vs|
    ensures var r := Run(EncodeBody(f, name, lvl), st.(locals := st.locals[J(lvl) := Num(i)]));
      Loop(J(lvl), LoopBound(f, name), EncodeBody(f, name, lvl), i, |v.vs|, st)
      == if r.None? then None else
           Loop(J(lvl), LoopBound(f, name), EncodeBody(f, name, lvl), i + 1, |v.vs|, r.value.(locals := st.locals))
  {
    hide TypeOk, ElemTyped, Run, EncodeBody, Load;
    assert Eval(LoopBound(f, name), st) == Some(|v.vs|);
  }

  lemma {:induction false} WroteLoop(f: Field, name: Path, lvl: nat, v: Value, st: State, bs: bytes)
    requires SizeProof.LoopPre(f, name, lvl, v, st) && ZeroAhead(st.cur, |bs|)
    ensures SizeProof.LoopPre(f, name, lvl, v, Wrote(st, bs))
  {
    hide TypeOk, FieldTyped, ShapeOk;
    WroteRead(name, st, bs);
  }

  lemma {:induction false} ShortBase(f: Field, name: Path, lvl: nat, v: Value, st: State)
    requires ShapeOk(f) && f.ftype.Base? && Below(name, lvl)
    requires Read(name, st) == Some(v) && FieldTyped(f, v) && Short(st.cur, |WireField(f, v)|)
    ensures Run(EncodeBaseType(f.ftype.base, name, f.length, f.sizeFrom != "", true), st) == None
  {
    var t := f.ftype.base;
    RunOne(EncodeBaseType(t, name, f.length, f.sizeFrom != "", true)[0], st);
    if t == STRING {
      if f.length == 0 {
        ScalarField(f, v);
        ShortScalar(t, st.cur, v);
      }
    } else if IsBaseArray(f) {
      if t != U8 {
        ShortScalars(t, name, lvl, f.length, v, ArrayCount(f, v), 0, st);
      }
    } else {
      ScalarField(f, v);
      RunShortScalar(t, name, v, st);
    }
  }

  lemma {:induction false} ShortValue(f: Field, name: Path, lvl: nat, v: Value, st: State)
    requires ShapeOk(f) && TypeOk(f.ftype) && Below(name, lvl)
    requires Read(name, st) == Some(v) && FieldTyped(f, v) && Short(st.cur, |WireField(f, v)|)
    ensures Run(EncodeValue(f, name, f.sizeFrom != "", lvl), st) == None
    decreases f.ftype, 2, 0
  {
    if f.ftype.Base? {
      ShortBase(f, name, lvl, v, st);
    } else if f.isArray {
      RunOne(EncodeValue(f, name, f.sizeFrom != "", lvl)[0], st);
      ShortLoop(f, name, lvl, v, 0, st);
    } else {
      BelowMono(name, lvl, lvl + 1);
      ShortType(f.ftype, name, lvl, v, st);
    }
  }

  lemma {:induction false} ShortOneField(fields: seq<Field>, k: nat, p: Path, lvl: nat, vs: seq<Value>, st: State)
    requires WellFormed(fields) && k < |fields| && Below(p, lvl)
    requires Read(p, st) == Some(Rec(vs)) && Typed(fields, vs) && Short(st.cur, |WireAt(fields, vs, k)|)
    ensures Run(EncodeField(fields, k, p, lvl), st) == None
    decreases fields, 0
  {
    var a := FieldSizeOf(fields, k);
    if a.Some? {
      LinksAgree(fields, a.value, k);
      assert CountedBefore(fields, a.value);
      RunOne(EncodeField(fields, k, p, lvl)[0], st);
    } else {
      assert ShapeOk(fields[k]) && TypeOk(fields[k].ftype) && FieldTyped(fields[k], vs[k]);
      assert fields[k].sizeFrom != "" ==> CountedBefore(fields, k);
      assert FieldSizeFrom(fields, k).Some? <==> fields[k].sizeFrom != "";
      ShortValue(fields[k], Sel(p, k), lvl, vs[k], st);
    }
  }

  lemma {:induction false} ShortFields(fields: seq<Field>, k: nat, p: Path, lvl: nat, vs: seq<Value>, st: State)
    requires WellFormed(fields) && k <= |fields| && Below(p, lvl)
    requires Read(p, st) == Some(Rec(vs)) && Typed(fields, vs) && Short(st.cur, |Wire(fields, vs, k)|)
    ensures Run(EncodeFields(fields, k, p, lvl), st) == None
    decreases fields, 1, |fields| - k
  {
    if k < |fields| {
      assert Wire(fields, vs, k) == WireAt(fields, vs, k) + Wire(fields, vs, k + 1);
      FirstField(fields, k, p, lvl);
      hide *;
      var now, rest := WireAt(fields, vs, k), Wire(fields, vs, k + 1);
      ShortSplit(st, now, rest);
      RunAppend(EncodeField(fields, k, p, lvl), EncodeFields(fields, k + 1, p, lvl), st);
      if Short(st.cur, |now|) {
        ShortOneField(fields, k, p, lvl, vs, st);
      } else {
        EncodeOneField(fields, k, p, lvl, vs, st);
        WroteRead(p, st, now);
        ShortFields(fields, k + 1, p, lvl, vs, Wrote(st, now));
      }
    }
  }

  lemma {:induction false} FirstField(fields: seq<Field>, k: nat, p: Path, lvl: nat)
    requires k < |fields|
    ensures EncodeFields(fields, k, p, lvl) == EncodeField(fields, k, p, lvl) + EncodeFields(fields, k + 1, p, lvl)
  {
  }

  lemma {:induction false} WroteRead(p: Path, st: State, bs: bytes)
    requires ZeroAhead(st.cur, |bs|)
    ensures Read(p, Wrote(st, bs)) == Read(p, st)
  {
  }

  /** Marshal() into a zeroed buffer succeeds exactly if it is long enough. */
  lemma {:induction false} MarshalNeedsRoom(fields: seq<Field>, vs: seq<Value>, room: nat)
    requires WellFormed(fields) && Typed(fields, vs)
    ensures Run(MarshalProgram(fields), State(Rec(vs), map[], 0, Cursor(Zeros(room), 0))).Some?
       <==> |Wire(fields, vs, 0)| <= room
  {
    var c := Cursor(Zeros(room), 0);
    if |Wire(fields, vs, 0)| <= room {
      EmittedMarshalWritesWire(fields, vs, c);
    } else {
      ShortFields(fields, 0, Root, 0, vs, State(Rec(vs), map[], 0, c));
    }
  }
}
