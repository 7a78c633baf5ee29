/**
 The generator as it works: recursive walks that append one line of Go at a time. The lines, read
 back with their braces matched, are the programs of Emitted.
 */
module Generator {
  import opened Wrappers
  import opened Bytes
  import opened Schema
  import opened Program
  import E = Emitted

  datatype Line = LOp(op: Op) | LFor(j: Var, bound: Count) | LEnd | LPanic

  function Flatten(ss: seq<Stmt>): seq<Line>
    decreases ss
  {
    if ss == [] then [] else FlattenOne(ss[0]) + Flatten(ss[1..])
  }

  function FlattenOne(s: Stmt): seq<Line>
    decreases s
  {
    match s
    case Do(op) => [LOp(op)]
    case For(j, bound, body) => [LFor(j, bound)] + Flatten(body) + [LEnd]
    case Unopened(body) => Flatten(body) + [LEnd]
    case Panicked => [LPanic]
  }

  /** The statements up to the closing brace that matches no opening one, and what follows them. */
  function Parse(ls: seq<Line>): (r: Option<(seq<Stmt>, seq<Line>)>)
    ensures r.Some? ==> |r.value.1| <= |ls|
    decreases |ls|
  {
    if ls == [] || ls[0] == LEnd then Some(([], ls))
    else
      match ls[0]
      case LOp(op) =>
        var (ss, rest) :- Parse(ls[1..]);
        Some(([Do(op)] + ss, rest))
      case LFor(j, bound) =>
        var (body, rest) :- Parse(ls[1..]);
        if rest == [] then None
        else
          var (ss, rest2) :- Parse(rest[1..]);
          Some(([For(j, bound, body)] + ss, rest2))
      case _ => None
  }

  /** Every brace is opened and nothing panicked. */
  predicate Clean(ss: seq<Stmt>)
    decreases ss
  {
    ss == [] || (CleanOne(ss[0]) && Clean(ss[1..]))
  }

  predicate CleanOne(s: Stmt)
    decreases s
  {
    match s
    case Do(_) => true
    case For(_, _, body) => Clean(body)
    case _ => false
  }

  lemma {:induction false} FlattenAppend(a: seq<Stmt>, b: seq<Stmt>)
    ensures Flatten(a + b) == Flatten(a) + Flatten(b)
    decreases |a|
  {
    if a == [] {
      assert a + b == b;
    } else {
      assert (a + b)[1..] == a[1..] + b;
      FlattenAppend(a[1..], b);
    }
  }

  lemma {:induction false} FlattenStep(before: seq<Line>, a: seq<Stmt>, b: seq<Stmt>)
    ensures before + Flatten(a + b) == before + Flatten(a) + Flatten(b)
  {
    FlattenAppend(a, b);
  }

  lemma {:induction false} FlattenCons(ss: seq<Stmt>, tail: seq<Line>)
    requires ss != []
    ensures ss[0].Do? ==> Flatten(ss) + tail == [LOp(ss[0].op)] + (Flatten(ss[1..]) + tail)
    ensures ss[0].For? ==>
      Flatten(ss) + tail == [LFor(ss[0].j, ss[0].bound)] + (Flatten(ss[0].body) + ([LEnd] + (Flatten(ss[1..]) + tail)))
  {
  }

  lemma {:induction false} FlattenSingle(s: Stmt)
    ensures Flatten([s]) == FlattenOne(s)
  {
    assert [s][1..] == [];
  }

  lemma {:induction false} FlattenDo(op: Op)
    ensures Flatten([Do(op)]) == [LOp(op)]
  {
    FlattenSingle(Do(op));
  }

  /** Header, body and brace appended one after the other are the loop. */
  lemma {:induction false} FlattenFor(before: seq<Line>, j: Var, bound: Count, body: seq<Stmt>)
    ensures before + [LFor(j, bound)] + Flatten(body) + [LEnd] == before + Flatten([For(j, bound, body)])
  {
    FlattenSingle(For(j, bound, body));
  }

  lemma {:induction false} FlattenUnopened(before: seq<Line>, body: seq<Stmt>)
    ensures before + Flatten(body) + [LEnd] == before + Flatten([Unopened(body)])
  {
    FlattenSingle(Unopened(body));
  }

  lemma {:induction false} FlattenPair(before: seq<Line>, op: Op, s: Stmt)
    ensures before + [LOp(op)] + Flatten([s]) == before + Flatten([Do(op), s])
  {
    FlattenDo(op);
    FlattenAppend([Do(op)], [s]);
    assert [Do(op)] + [s] == [Do(op), s];
  }

  lemma {:induction false} CleanAppend(a: seq<Stmt>, b: seq<Stmt>)
    ensures Clean(a + b) <==> Clean(a) && Clean(b)
    decreases |a|
  {
    if a == [] {
      assert a + b == b;
    } else {
      assert (a + b)[1..] == a[1..] + b;
      CleanAppend(a[1..], b);
    }
  }

  lemma {:induction false} ParseOp(op: Op, ss: seq<Stmt>, more: seq<Line>, tail: seq<Line>)
    requires Parse(more) == Some((ss, tail))
    ensures Parse([LOp(op)] + more) == Some(([Do(op)] + ss, tail))
  {
    assert ([LOp(op)] + more)[1..] == more;
  }

  lemma {:induction false} ParseFor(
    j: Var, bound: Count, body: seq<Stmt>, lines: seq<Line>, ss: seq<Stmt>, more: seq<Line>, tail: seq<Line>)
    requires Parse(more) == Some((ss, tail))
    requires Parse(lines + ([LEnd] + more)) == Some((body, [LEnd] + more))
    ensures Parse([LFor(j, bound)] + (lines + ([LEnd] + more))) == Some(([For(j, bound, body)] + ss, tail))
  {
    var ls := [LFor(j, bound)] + (lines + ([LEnd] + more));
    assert ls[1..] == lines + ([LEnd] + more);
    assert ([LEnd] + more)[1..] == more;
  }

  /** The emitted text determines the program. */
  lemma {:induction false} ParseFlatten(ss: seq<Stmt>, tail: seq<Line>)
    requires Clean(ss) && (tail == [] || tail[0] == LEnd)
    ensures Parse(Flatten(ss) + tail) == Some((ss, tail))
    decreases ss
  {
    if ss == [] {
      assert Flatten(ss) + tail == tail;
    } else {
      var s, more := ss[0], Flatten(ss[1..]) + tail;
      assert ss == [s] + ss[1..];
      ParseFlatten(ss[1..], tail);
      FlattenCons(ss, tail);
      match s {
        case Do(op) =>
          ParseOp(op, ss[1..], more, tail);
        case For(j, bound, body) =>
          ParseFlatten(body, [LEnd] + more);
          ParseFor(j, bound, body, Flatten(body), ss[1..], more, tail);
      }
    }
  }

  class GenFile {
    var buf: seq<Line>
    var lvl: nat  // the variable captured by the closures of genMessageMethodSize

    constructor ()
      ensures buf == [] && lvl == 0
    {
      buf, lvl := [], 0;
    }

    method P(line: Line)
      modifies this`buf
      ensures buf == old(buf) + [line]
    {
      buf := buf + [line];
    }

    // -------------------------------------------------------------- genMessageMethodSize

    method SizeBaseType(t: BaseType, name: Path, length: nat, sized: bool)
      modifies this`buf
      ensures buf == old(buf) + Flatten(E.SizeBaseType(t, name, length, sized))
    {
      match t {
        case STRING =>
          if length > 0 {
            P(LOp(AddSize(length)));
          } else {
            P(LOp(AddString(name)));
          }
        case _ =>
          var size := BaseTypeSize(t);
          if sized {
            P(LOp(AddLen(size, name)));
          } else if length > 0 {
            P(LOp(AddSize(size * length)));
          } else {
            P(LOp(AddSize(size)));
          }
      }
    }

    method SizeFields(fields: seq<Field>, parent: Path)
      modifies this
      ensures lvl == old(lvl)
      ensures buf == old(buf) + Flatten(E.SizeFields(fields, 0, parent, old(lvl) + 1))
      decreases fields, 0
    {
      lvl := lvl + 1;
      var k := 0;
      while k < |fields|
        invariant k <= |fields| && lvl == old(lvl) + 1
        invariant buf + Flatten(E.SizeFields(fields, k, parent, lvl))
               == old(buf) + Flatten(E.SizeFields(fields, 0, parent, lvl))
      {
        var sized := FieldSizeFrom(fields, k).Some?;
        FlattenStep(buf, E.SizeField(fields[k], Sel(parent, k), sized, lvl), E.SizeFields(fields, k + 1, parent, lvl));
        SizeField(fields[k], Sel(parent, k), sized);
        k := k + 1;
      }
      lvl := lvl - 1;
    }

    method SizeField(f: Field, field: Path, sized: bool)
      modifies this
      ensures lvl == old(lvl)
      ensures buf == old(buf) + Flatten(E.SizeField(f, field, sized, lvl))
      decreases f, 1
    {
      if f.ftype.Base? {
        SizeBaseType(f.ftype.base, field, f.length, sized);
        return;
      }
      if !f.isArray {
        SizeType(f.ftype, field);
        return;
      }
      if f.length > 0 {
        P(LFor(J(lvl), Lit(f.length)));
      } else if sized {
        P(LFor(J(lvl), LenOf(field)));
      }
      SizeBody(f, field);
      P(LEnd);
      FlattenFor(old(buf), J(lvl), E.LoopBound(f, field), E.SizeBody(f, field, lvl));
      FlattenUnopened(old(buf), E.SizeBody(f, field, lvl));
    }

    method SizeBody(f: Field, field: Path)
      modifies this
      ensures lvl == old(lvl)
      ensures buf == old(buf) + Flatten(E.SizeBody(f, field, lvl))
      decreases f, 0
    {
      var name := field;
      if f.length == 0 || f.sizeFrom != "" {
        P(LOp(Bind(S(lvl), f.ftype, name, J(lvl))));
        FlattenDo(Bind(S(lvl), f.ftype, name, J(lvl)));
        name := Local(S(lvl));
      } else {
        name := Idx(name, J(lvl));
      }
      SizeType(f.ftype, name);
      FlattenAppend(E.CopyElement(f, field, lvl, S(lvl)), E.SizeType(f.ftype, name, lvl));
    }

    method SizeType(t: FType, name: Path)
      modifies this
      ensures lvl == old(lvl)
      ensures buf == old(buf) + Flatten(E.SizeType(t, name, lvl))
      decreases t
    {
      match t {
        case Enum(b) => SizeBaseType(b, name, 0, false);
        case AliasStruct(fields) => SizeFields(fields, name);
        case Alias(b, n) => SizeBaseType(b, name, n, false);
        case Struct(fields) => SizeFields(fields, name);
        case Union(members) =>
          var ok, maxSize := GetUnionSize(members);
          if ok {
            SizeBaseType(U8, name, maxSize, false);
          } else {
            P(LPanic);
          }
        case Base(_) => P(LPanic);
      }
      FlattenSingle(Panicked);
    }

    method GenMessageMethodSize(fields: seq<Field>)
      requires lvl == 0
      modifies this
      ensures lvl == 0 && buf == old(buf) + Flatten(E.SizeProgram(fields))
    {
      SizeFields(fields, Root);
    }

    // -------------------------------------------------------------- genMessageMethodMarshal

    method EncodeBaseType(t: BaseType, orig: Path, length: nat, sized: bool, alloc: bool)
      modifies this`buf
      ensures buf == old(buf) + Flatten(E.EncodeBaseType(t, orig, length, sized, alloc))
    {
      var name := orig;
      var isArray := length > 0 || sized;
      if isArray && t == U8 {
        P(LOp(EncBytes(name, length)));
        FlattenDo(EncBytes(name, length));
        return;
      }
      if isArray && t != STRING {
        if length != 0 {
          P(LFor(I, Lit(length)));
        } else {
          P(LFor(I, LenOf(name)));
        }
        if alloc {
          P(LOp(Bind(X, Base(t), name, I)));
          name := Local(X);
        }
      }
      P(LOp(if t == STRING then EncString(name, length) else EncScalar(t, name)));
      if isArray && t != STRING {
        P(LEnd);
        FlattenDo(EncScalar(t, name));
        FlattenPair([], Bind(X, Base(t), orig, I), Do(EncScalar(t, name)));
        var bound := if length != 0 then Lit(length) else LenOf(orig);
        FlattenFor(old(buf), I, bound, [Do(EncScalar(t, name))]);
        FlattenFor(old(buf), I, bound, [Do(Bind(X, Base(t), orig, I)), Do(EncScalar(t, name))]);
      } else {
        FlattenDo(EncString(name, length));
        FlattenDo(EncScalar(t, name));
      }
    }

    method EncodeFields(fields: seq<Field>, parent: Path, lvl: nat)
      modifies this`buf
      ensures buf == old(buf) + Flatten(E.EncodeFields(fields, 0, parent, lvl))
      decreases fields, 1
    {
      var k := 0;
      while k < |fields|
        invariant k <= |fields|
        invariant buf + Flatten(E.EncodeFields(fields, k, parent, lvl))
               == old(buf) + Flatten(E.EncodeFields(fields, 0, parent, lvl))
      {
        FlattenStep(buf, E.EncodeField(fields, k, parent, lvl), E.EncodeFields(fields, k + 1, parent, lvl));
        EncodeField(fields, k, parent, lvl);
        k := k + 1;
      }
    }

    method EncodeField(fields: seq<Field>, k: nat, parent: Path, lvl: nat)
      requires k < |fields|
      modifies this`buf
      ensures buf == old(buf) + Flatten(E.EncodeField(fields, k, parent, lvl))
      decreases fields, 0
    {
      var a := FieldSizeOf(fields, k);
      if a.Some? {
        if fields[k].ftype.Base? {
          P(LOp(EncCount(fields[k].ftype.base, Sel(parent, a.value))));
        } else {
          P(LPanic);
        }
      } else {
        EncodeValue(fields[k], Sel(parent, k), FieldSizeFrom(fields, k).Some?, lvl);
      }
    }

    method EncodeValue(f: Field, field: Path, sized: bool, lvl: nat)
      modifies this`buf
      ensures buf == old(buf) + Flatten(E.EncodeValue(f, field, sized, lvl))
      decreases f, 1
    {
      if f.ftype.Base? {
        EncodeBaseType(f.ftype.base, field, f.length, sized, true);
        return;
      }
      if !f.isArray {
        EncodeType(f.ftype, field, lvl);
        return;
      }
      if f.length > 0 {
        P(LFor(J(lvl), Lit(f.length)));
      } else if f.sizeFrom != "" {
        P(LFor(J(lvl), LenOf(field)));
      }
      EncodeBody(f, field, lvl);
      P(LEnd);
      FlattenFor(old(buf), J(lvl), E.LoopBound(f, field), E.EncodeBody(f, field, lvl));
      FlattenUnopened(old(buf), E.EncodeBody(f, field, lvl));
    }

    method EncodeBody(f: Field, field: Path, lvl: nat)
      modifies this`buf
      ensures buf == old(buf) + Flatten(E.EncodeBody(f, field, lvl))
      decreases f, 0
    {
      var name := field;
      if f.length == 0 || f.sizeFrom != "" {
        P(LOp(Bind(V(lvl), f.ftype, name, J(lvl))));
        FlattenDo(Bind(V(lvl), f.ftype, name, J(lvl)));
        name := Local(V(lvl));
      } else {
        name := Idx(name, J(lvl));
      }
      EncodeType(f.ftype, name, lvl);
      FlattenAppend(E.CopyElement(f, field, lvl, V(lvl)), E.EncodeType(f.ftype, name, lvl));
    }

    method EncodeType(t: FType, name: Path, lvl: nat)
      modifies this`buf
      ensures buf == old(buf) + Flatten(E.EncodeType(t, name, lvl))
      decreases t
    {
      match t {
        case Enum(b) => EncodeBaseType(b, name, 0, false, false);
        case AliasStruct(fields) => EncodeFields(fields, name, lvl + 1);
        case Alias(b, n) => EncodeBaseType(b, name, n, false, false);
        case Struct(fields) => EncodeFields(fields, name, lvl + 1);
        case Union(members) =>
          var ok, maxSize := GetUnionSize(members);
          P(if ok then LOp(EncBytes(name, maxSize)) else LPanic);
          FlattenDo(EncBytes(name, UnionSize(members)));
        case Base(_) => P(LPanic);
      }
      FlattenSingle(Panicked);
    }

    method GenMessageMethodMarshal(fields: seq<Field>)
      modifies this`buf
      ensures buf == old(buf) + Flatten(E.MarshalProgram(fields))
    {
      EncodeFields(fields, Root, 0);
    }

    // -------------------------------------------------------------- genMessageMethodUnmarshal

    method DecodeBaseType(t: BaseType, orig: Path, length: nat, sizefrom: Option<Path>, alloc: bool)
      modifies this`buf
      ensures buf == old(buf) + Flatten(E.DecodeBaseType(t, orig, length, sizefrom, alloc))
    {
      var name := orig;
      var isArray := length > 0 || sizefrom.Some?;
      if isArray && t != STRING {
        var size := if length > 0 then Lit(length) else ValueOf(sizefrom.value);
        if t == U8 {
          if alloc {
            P(LOp(Make(name, Base(U8), size)));
            P(LOp(DecCopy(name, LenOf(name))));
            FlattenDo(DecCopy(name, LenOf(name)));
            FlattenPair(old(buf), Make(name, Base(U8), size), Do(DecCopy(name, LenOf(name))));
          } else {
            P(LOp(DecCopy(name, size)));
            FlattenDo(DecCopy(name, size));
          }
          return;
        }
        if alloc {
          P(LOp(Make(name, Base(t), size)));
        }
        ghost var loop := For(I, LenOf(name), [Do(DecScalar(Idx(name, I), t))]);
        FlattenDo(DecScalar(Idx(name, I), t));
        FlattenFor(buf, I, LenOf(name), [Do(DecScalar(Idx(name, I), t))]);
        FlattenPair(old(buf), Make(name, Base(t), size), loop);
        P(LFor(I, LenOf(name)));
        name := Idx(name, I);
        assert E.DecodeBaseType(t, orig, length, sizefrom, alloc)
            == if alloc then [Do(Make(orig, Base(t), size)), loop] else [loop];
      }
      P(LOp(if t == STRING then DecString(name, length) else DecScalar(name, t)));
      if isArray && t != STRING {
        P(LEnd);
      } else {
        FlattenDo(DecString(name, length));
        FlattenDo(DecScalar(name, t));
      }
    }

    method DecodeFields(fields: seq<Field>, parent: Path, lvl: nat)
      modifies this`buf
      ensures buf == old(buf) + Flatten(E.DecodeFields(fields, 0, parent, lvl))
      decreases fields
    {
      var k := 0;
      while k < |fields|
        invariant k <= |fields|
        invariant buf + Flatten(E.DecodeFields(fields, k, parent, lvl))
               == old(buf) + Flatten(E.DecodeFields(fields, 0, parent, lvl))
      {
        var size := E.SizePath(fields, k, parent);
        FlattenStep(buf, E.DecodeField(fields[k], Sel(parent, k), size, lvl),
            E.DecodeFields(fields, k + 1, parent, lvl));
        DecodeField(fields[k], Sel(parent, k), size, lvl);
        k := k + 1;
      }
    }

    method DecodeField(f: Field, field: Path, size: Option<Path>, lvl: nat)
      modifies this`buf
      ensures buf == old(buf) + Flatten(E.DecodeField(f, field, size, lvl))
      decreases f
    {
      if f.ftype.Base? {
        DecodeBaseType(f.ftype.base, field, f.length, size, true);
        return;
      }
      if !f.isArray {
        DecodeType(f.ftype, field, lvl);
        return;
      }
      ghost var body := E.DecodeType(f.ftype, Idx(field, J(lvl)), lvl);
      if f.length > 0 {
        FlattenFor(buf, J(lvl), Lit(f.length), body);
        P(LFor(J(lvl), Lit(f.length)));
      } else if f.sizeFrom != "" && size.Some? {
        P(LOp(Make(field, f.ftype, ValueOf(size.value))));
        FlattenFor(buf, J(lvl), LenOf(field), body);
        FlattenPair(old(buf), Make(field, f.ftype, ValueOf(size.value)), For(J(lvl), LenOf(field), body));
        P(LFor(J(lvl), LenOf(field)));
      } else {
        FlattenUnopened(buf, body);
      }
      DecodeType(f.ftype, Idx(field, J(lvl)), lvl);
      P(LEnd);
    }

    method DecodeType(t: FType, name: Path, lvl: nat)
      modifies this`buf
      ensures buf == old(buf) + Flatten(E.DecodeType(t, name, lvl))
      decreases t
    {
      match t {
        case Enum(b) => DecodeBaseType(b, name, 0, None, false);
        case AliasStruct(fields) => DecodeFields(fields, name, lvl + 1);
        case Alias(b, n) => DecodeBaseType(b, name, n, None, false);
        case Struct(fields) => DecodeFields(fields, name, lvl + 1);
        case Union(members) =>
          var ok, maxSize := GetUnionSize(members);
          P(if ok then LOp(DecCopy(name, Lit(maxSize))) else LPanic);
          FlattenDo(DecCopy(name, Lit(UnionSize(members))));
        case Base(_) => P(LPanic);
      }
      FlattenSingle(Panicked);
    }

    method GenMessageMethodUnmarshal(fields: seq<Field>)
      modifies this`buf
      ensures buf == old(buf) + Flatten(E.UnmarshalProgram(fields))
    {
      if |fields| > 0 {
        DecodeFields(fields, Root, 0);
      }
    }
  }
}
