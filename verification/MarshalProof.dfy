/** The emitted Marshal method writes exactly the bytes the value stands for, over zeroed bytes. */
module MarshalProof {
  import opened Wrappers
  import opened Bytes
  import opened Cursors
  import opened Schema
  import opened Values
  import opened Program
  import opened Emitted
  import SizeProof

  ghost predicate ZeroAhead(c: Cursor, n: nat)
  {
    c.pos + n <= |c.buf| && forall i | c.pos <= i < c.pos + n :: c.buf[i] == 0
  }

  /** st after bs has been written. */
  ghost function Wrote(st: State, bs: bytes): State
    requires ZeroAhead(st.cur, |bs|)
  {
    st.(cur := Write(st.cur, bs))
  }

  lemma {:induction false} WriteSplit(c: Cursor, a: bytes, b: bytes)
    requires ZeroAhead(c, |a + b|)
    ensures ZeroAhead(c, |a|)
    ensures ZeroAhead(Write(c, a), |b|)
    ensures Write(Write(c, a), b) == Write(c, a + b)
  {
    var d := Write(c, a);
    assert d.buf[d.pos..] == c.buf[c.pos + |a|..];
    forall i | d.pos <= i < d.pos + |b| ensures d.buf[i] == 0 {
      assert d.buf[i] == d.buf[d.pos..][i - d.pos];
    }
    assert d.buf[..d.pos] == c.buf[..c.pos] + a;
    assert d.buf[d.pos + |b|..] == c.buf[c.pos + |a| + |b|..];
    assert c.buf[..c.pos] + (a + b) == c.buf[..c.pos] + a + b;
  }

  lemma {:induction false} WroteTwice(st: State, a: bytes, b: bytes)
    requires ZeroAhead(st.cur, |a + b|)
    ensures ZeroAhead(st.cur, |a|)
    ensures ZeroAhead(Wrote(st, a).cur, |b|)
    ensures Wrote(Wrote(st, a), b) == Wrote(st, a + b)
  {
    WriteSplit(st.cur, a, b);
  }

  lemma {:induction false} WroteNothing(st: State)
    requires ZeroAhead(st.cur, 0)
    ensures Wrote(st, []) == st
  {
    assert Write(st.cur, []).buf == st.cur.buf;
  }

  lemma {:induction false} EncodeBytesFits(c: Cursor, v: bytes, length: nat)
    requires ZeroAhead(c, if length == 0 then |v| else length)
    ensures EncodeBytes(c, v, length) == Some(Write(c, if length == 0 then v else Fit(v, length)))
  {
    if length > 0 && |v| < length {
      assert c.buf[c.pos..c.pos + length][|v|..] == Zeros(length - |v|);
    }
  }

  lemma {:induction false} EncodeScalarOk(t: BaseType, c: Cursor, v: Value)
    requires ScalarTyped(t, v) && ZeroAhead(c, |ScalarBytes(t, v)|)
    ensures EncodeScalar(t, c, v) == Some(Write(c, ScalarBytes(t, v)))
  {
    if t == STRING {
      var n := BigEndian(|v.bs| % 0x1_0000_0000, 4);
      WriteSplit(c, n, v.bs);
      EncodeBytesFits(Write(c, n), v.bs, 0);
    }
  }

  lemma {:induction false} RunEncScalar(t: BaseType, p: Path, v: Value, st: State)
    requires Read(p, st) == Some(v) && ScalarTyped(t, v) && ZeroAhead(st.cur, |ScalarBytes(t, v)|)
    ensures Run([Do(EncScalar(t, p))], st) == Some(Wrote(st, ScalarBytes(t, v)))
  {
    EncodeScalarOk(t, st.cur, v);
    RunOne(Do(EncScalar(t, p)), st);
  }

  lemma {:induction false} EncodeOneScalar(t: BaseType, name: Path, lvl: nat, v: Value, i: nat, st: State)
    requires Read(name, st) == Some(v) && v.List? && Below(name, lvl)
    requires ScalarTyped(t, ScalarAt(t, v.vs, i)) && ZeroAhead(st.cur, |ScalarBytes(t, ScalarAt(t, v.vs, i))|)
    ensures var body := [Do(Bind(X, Base(t), name, I)), Do(EncScalar(t, Local(X)))];
      var r := Run(body, st.(locals := st.locals[I := Num(i)]));
      r.Some? && r.value.(locals := st.locals) == Wrote(st, ScalarBytes(t, ScalarAt(t, v.vs, i)))
  {
    var x := ScalarAt(t, v.vs, i);
    var st1 := st.(locals := st.locals[I := Num(i)]);
    LoadFrame(name, st.root, st.locals, lvl, I, Num(i));
    var st2 := st1.(locals := st1.locals[X := x]);
    assert Exec(Do(Bind(X, Base(t), name, I)), st1) == Some(st2);
    RunCons(Do(Bind(X, Base(t), name, I)), [Do(EncScalar(t, Local(X)))], st1);
    RunEncScalar(t, Local(X), x, st2);
  }

  /** The emitted loop over an array of a base type, from iteration i on. */
  lemma {:induction false} EncodeScalarsOk(
    t: BaseType, name: Path, lvl: nat, length: nat, v: Value, n: nat, i: nat, st: State)
    requires Read(name, st) == Some(v) && v.List? && Below(name, lvl) && i <= n
    requires forall k | 0 <= k < |v.vs| :: ScalarTyped(t, v.vs[k])
    requires n == if length > 0 then length else |v.vs|
    requires ZeroAhead(st.cur, |WireScalars(t, v.vs, n, i)|)
    ensures var body := [Do(Bind(X, Base(t), name, I)), Do(EncScalar(t, Local(X)))];
      Loop(I, if length != 0 then Lit(length) else LenOf(name), body, i, n, st)
      == Some(Wrote(st, WireScalars(t, v.vs, n, i)))
    decreases n - i
  {
    hide ScalarTyped, ScalarBytes, ScalarAt, Run, Load, Below, ZeroAhead;
    if i < n {
      var now := ScalarBytes(t, ScalarAt(t, v.vs, i));
      SizeProof.ScalarAtTyped(t, v.vs, i);
      WroteTwice(st, now, WireScalars(t, v.vs, n, i + 1));
      EncodeOneScalar(t, name, lvl, v, i, st);
      EncodeScalarsOk(t, name, lvl, length, v, n, i + 1, Wrote(st, now));
    } else {
      WroteNothing(st);
    }
  }

  lemma {:induction false} EncodeTypeOk(t: FType, name: Path, lvl: nat, v: Value, st: State)
    requires TypeOk(t) && !t.Base? && Below(name, lvl + 1)
    requires Read(name, st) == Some(v) && ElemTyped(t, v)
    requires ZeroAhead(st.cur, |WireElem(t, v)|)
    ensures Run(EncodeType(t, name, lvl), st) == Some(Wrote(st, WireElem(t, v)))
    decreases t, 0, 0
  {
    match t {
      case Enum(b) => RunEncScalar(b, name, v, st);
      case Alias(b, n) =>
        if n > 0 {
          EncodeBytesFits(st.cur, v.bs, n);
          RunOne(Do(EncBytes(name, n)), st);
        } else {
          RunEncScalar(b, name, v, st);
        }
      case AliasStruct(fields) => EncodeFieldsOk(fields, 0, name, lvl + 1, v.vs, st);
      case Struct(fields) => EncodeFieldsOk(fields, 0, name, lvl + 1, v.vs, st);
      case Union(members) =>
        EncodeBytesFits(st.cur, v.bs, UnionSize(members));
        RunOne(Do(EncBytes(name, UnionSize(members))), st);
    }
  }

  lemma {:induction false} EncodeOneElement(f: Field, name: Path, lvl: nat, v: Value, i: nat, st: State)
    requires SizeProof.LoopPre(f, name, lvl, v, st) && i < |v.vs|
    requires ZeroAhead(st.cur, |WireElem(f.ftype, v.vs[i])|)
    ensures var r := Run(EncodeBody(f, name, lvl), st.(locals := st.locals[J(lvl) := Num(i)]));
      r.Some? && r.value.(locals := st.locals) == Wrote(st, WireElem(f.ftype, v.vs[i]))
    decreases f.ftype, 1, 0
  {
    var copy := CopyElement(f, name, lvl, V(lvl));
    var elem := Element(f, name, lvl, V(lvl));
    var st1 := st.(locals := st.locals[J(lvl) := Num(i)]);
    LoadFrame(name, st.root, st.locals, lvl, J(lvl), Num(i));
    RunAppend(copy, EncodeType(f.ftype, elem, lvl), st1);
    var st2 := if CopiesElement(f) then st1.(locals := st1.locals[V(lvl) := v.vs[i]]) else st1;
    if CopiesElement(f) {
      RunOne(copy[0], st1);
    }
    assert Run(copy, st1) == Some(st2);
    BelowMono(name, lvl, lvl + 1);
    EncodeTypeOk(f.ftype, elem, lvl, v.vs[i], st2);
  }

  lemma {:induction false} EncodeLoopOk(f: Field, name: Path, lvl: nat, v: Value, i: nat, st: State)
    requires SizeProof.LoopPre(f, name, lvl, v, st) && i <= |v.vs|
    requires ZeroAhead(st.cur, |WireElems(f.ftype, v.vs, i)|)
    ensures Loop(J(lvl), LoopBound(f, name), EncodeBody(f, name, lvl), i, |v.vs|, st)
         == Some(Wrote(st, WireElems(f.ftype, v.vs, i)))
    decreases f.ftype, 1, |v.vs| - i
  {
    assert Eval(LoopBound(f, name), st) == Some(|v.vs|);
    if i < |v.vs| {
      var elem := WireElem(f.ftype, v.vs[i]);
      WroteTwice(st, elem, WireElems(f.ftype, v.vs, i + 1));
      EncodeOneElement(f, name, lvl, v, i, st);
      EncodeLoopOk(f, name, lvl, v, i + 1, Wrote(st, elem));
    } else {
      WroteNothing(st);
    }
  }

  lemma {:induction false} EncodeValueOk(f: Field, name: Path, lvl: nat, v: Value, st: State)
    requires ShapeOk(f) && TypeOk(f.ftype) && Below(name, lvl)
    requires Read(name, st) == Some(v) && FieldTyped(f, v)
    requires ZeroAhead(st.cur, |WireField(f, v)|)
    ensures Run(EncodeValue(f, name, f.sizeFrom != "", lvl), st) == Some(Wrote(st, WireField(f, v)))
    decreases f.ftype, 2, 0
  {
    if f.ftype.Base? {
      EncodeBaseOk(f, name, lvl, v, st);
    } else if f.isArray {
      RunOne(EncodeValue(f, name, f.sizeFrom != "", lvl)[0], st);
      EncodeLoopOk(f, name, lvl, v, 0, st);
    } else {
      BelowMono(name, lvl, lvl + 1);
      EncodeTypeOk(f.ftype, name, lvl, v, st);
    }
  }

  lemma {:induction false} EncodeStringOk(f: Field, name: Path, v: Value, st: State)
    requires ShapeOk(f) && f.ftype == Base(STRING)
    requires Read(name, st) == Some(v) && FieldTyped(f, v)
    requires ZeroAhead(st.cur, |WireField(f, v)|)
    ensures Run(EncodeBaseType(STRING, name, f.length, f.sizeFrom != "", true), st) == Some(Wrote(st, WireField(f, v)))
  {
    RunOne(EncodeBaseType(STRING, name, f.length, f.sizeFrom != "", true)[0], st);
    if f.length > 0 {
      EncodeBytesFits(st.cur, v.bs, f.length);
    } else {
      ScalarField(f, v);
      EncodeScalarOk(STRING, st.cur, v);
    }
  }

  lemma {:induction false} EncodeBaseArrayOk(f: Field, name: Path, lvl: nat, v: Value, st: State)
    requires ShapeOk(f) && IsBaseArray(f) && Below(name, lvl)
    requires Read(name, st) == Some(v) && FieldTyped(f, v)
    requires ZeroAhead(st.cur, |WireField(f, v)|)
    ensures Run(EncodeBaseType(f.ftype.base, name, f.length, f.sizeFrom != "", true), st) ==
        Some(Wrote(st, WireField(f, v)))
  {
    var t := f.ftype.base;
    RunOne(EncodeBaseType(t, name, f.length, f.sizeFrom != "", true)[0], st);
    if t == U8 {
      EncodeBytesFits(st.cur, v.bs, f.length);
    } else {
      EncodeScalarsOk(t, name, lvl, f.length, v, ArrayCount(f, v), 0, st);
    }
  }

  lemma {:induction false} EncodeBaseOk(f: Field, name: Path, lvl: nat, v: Value, st: State)
    requires ShapeOk(f) && f.ftype.Base? && Below(name, lvl)
    requires Read(name, st) == Some(v) && FieldTyped(f, v)
    requires ZeroAhead(st.cur, |WireField(f, v)|)
    ensures Run(EncodeBaseType(f.ftype.base, name, f.length, f.sizeFrom != "", true), st)
         == Some(Wrote(st, WireField(f, v)))
  {
    if f.ftype.base == STRING {
      EncodeStringOk(f, name, v, st);
    } else if IsBaseArray(f) {
      EncodeBaseArrayOk(f, name, lvl, v, st);
    } else {
      RunOne(EncodeBaseType(f.ftype.base, name, f.length, f.sizeFrom != "", true)[0], st);
      ScalarField(f, v);
      RunEncScalar(f.ftype.base, name, v, st);
    }
  }

  lemma {:induction false} EncodeCountOk(fields: seq<Field>, k: nat, p: Path, vs: seq<Value>, st: State)
    requires WellFormed(fields) && k < |fields| && FieldSizeOf(fields, k).Some?
    requires Read(p, st) == Some(Rec(vs)) && Typed(fields, vs)
    requires ZeroAhead(st.cur, |WireAt(fields, vs, k)|)
    ensures fields[k].ftype.Base?
    ensures Run([Do(EncCount(fields[k].ftype.base, Sel(p, FieldSizeOf(fields, k).value)))], st)
         == Some(Wrote(st, WireAt(fields, vs, k)))
  {
    var a := FieldSizeOf(fields, k).value;
    LinksAgree(fields, a, k);
    assert CountedBefore(fields, a);
    assert ShapeOk(fields[a]) && FieldTyped(fields[a], vs[a]);
    RunOne(Do(EncCount(fields[k].ftype.base, Sel(p, a))), st);
  }

  lemma {:induction false} EncodeOneField(fields: seq<Field>, k: nat, p: Path, lvl: nat, vs: seq<Value>, st: State)
    requires WellFormed(fields) && k < |fields| && Below(p, lvl)
    requires Read(p, st) == Some(Rec(vs)) && Typed(fields, vs)
    requires ZeroAhead(st.cur, |WireAt(fields, vs, k)|)
    ensures Run(EncodeField(fields, k, p, lvl), st) == Some(Wrote(st, WireAt(fields, vs, k)))
    decreases fields, 0
  {
    if FieldSizeOf(fields, k).Some? {
      EncodeCountOk(fields, k, p, vs, st);
    } else {
      assert ShapeOk(fields[k]) && TypeOk(fields[k].ftype) && FieldTyped(fields[k], vs[k]);
      assert fields[k].sizeFrom != "" ==> CountedBefore(fields, k);
      assert FieldSizeFrom(fields, k).Some? <==> fields[k].sizeFrom != "";
      EncodeValueOk(fields[k], Sel(p, k), lvl, vs[k], st);
    }
  }

  lemma {:induction false} EncodeFieldsOk(fields: seq<Field>, k: nat, p: Path, lvl: nat, vs: seq<Value>, st: State)
    requires WellFormed(fields) && k <= |fields| && Below(p, lvl)
    requires Read(p, st) == Some(Rec(vs)) && Typed(fields, vs)
    requires ZeroAhead(st.cur, |Wire(fields, vs, k)|)
    ensures Run(EncodeFields(fields, k, p, lvl), st) == Some(Wrote(st, Wire(fields, vs, k)))
    decreases fields, 1, |fields| - k
  {
    if k < |fields| {
      var now, rest := WireAt(fields, vs, k), Wire(fields, vs, k + 1);
      WroteTwice(st, now, rest);
      EncodeOneField(fields, k, p, lvl, vs, st);
      EncodeFieldsOk(fields, k + 1, p, lvl, vs, Wrote(st, now));
      RunAppend(EncodeField(fields, k, p, lvl), EncodeFields(fields, k + 1, p, lvl), st);
    } else {
      WroteNothing(st);
    }
  }

  /** Marshal() into a zeroed buffer with room for the message, at any position. */
  lemma {:induction false} EmittedMarshalWritesWire(fields: seq<Field>, vs: seq<Value>, c: Cursor)
    requires WellFormed(fields) && Typed(fields, vs)
    requires ZeroAhead(c, |Wire(fields, vs, 0)|)
    ensures Run(MarshalProgram(fields), State(Rec(vs), map[], 0, c))
         == Some(State(Rec(vs), map[], 0, Write(c, Wire(fields, vs, 0))))
  {
    EncodeFieldsOk(fields, 0, Root, 0, vs, State(Rec(vs), map[], 0, c));
  }
}
