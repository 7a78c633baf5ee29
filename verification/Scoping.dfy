/**
 Emitted code for a well-formed schema compiles: braces match, every variable is declared before it
 is used, and no loop or copy declares a variable that is already in scope, so that no nested loop
 captures the index of an enclosing one.
 */
module Scoping {
  import opened Wrappers
  import opened Schema
  import opened Program
  import opened Emitted
  import opened Generator

  function PathVars(p: Path): set<Var>
  {
    match p
    case Root => {}
    case Local(x) => {x}
    case Sel(q, _) => PathVars(q)
    case Idx(q, j) => PathVars(q) + {j}
  }

  function CountVars(c: Count): set<Var>
  {
    match c
    case Lit(_) => {}
    case ValueOf(p) => PathVars(p)
    case LenOf(p) => PathVars(p)
  }

  function OpVars(op: Op): set<Var>
  {
    match op
    case AddSize(_) => {}
    case Bind(_, _, p, j) => PathVars(p) + {j}
    case Make(p, _, c) => PathVars(p) + CountVars(c)
    case DecCopy(p, c) => PathVars(p) + CountVars(c)
    case _ => PathVars(op.p)
  }

  /** The variables in scope after ss, or None if ss does not compile with `scope` in scope before. */
  function ScopeAfter(ss: seq<Stmt>, scope: set<Var>): Option<set<Var>>
    decreases ss
  {
    if ss == [] then Some(scope)
    else
      match ss[0]
      case Do(op) =>
        if OpVars(op) <= scope && (op.Bind? ==> op.x !in scope) then
          ScopeAfter(ss[1..], if op.Bind? then scope + {op.x} else scope)
        else
          None
      case For(j, bound, body) =>
        if CountVars(bound) <= scope && j !in scope && ScopeAfter(body, scope + {j}).Some? then
          ScopeAfter(ss[1..], scope)
        else
          None
      case _ => None
  }

  lemma {:induction false} ScopeAppend(a: seq<Stmt>, b: seq<Stmt>, scope: set<Var>)
    ensures ScopeAfter(a + b, scope)
         == (var mid := ScopeAfter(a, scope); if mid.None? then None else ScopeAfter(b, mid.value))
    decreases |a|
  {
    if a == [] {
      assert a + b == b;
    } else {
      assert (a + b)[1..] == a[1..] + b;
      match a[0] {
        case Do(op) => ScopeAppend(a[1..], b, if op.Bind? then scope + {op.x} else scope);
        case _ => ScopeAppend(a[1..], b, scope);
      }
    }
  }

  lemma {:induction false} ScopeSingle(s: Stmt, scope: set<Var>)
    ensures ScopeAfter([s], scope) == match s
      case Do(op) => if OpVars(op) <= scope && (op.Bind? ==> op.x !in scope)
        then Some(if op.Bind? then scope + {op.x} else scope) else None
      case For(j, bound, body) =>
        if CountVars(bound) <= scope && j !in scope && ScopeAfter(body, scope + {j}).Some? then Some(scope) else None
      case _ => None
  {
    assert [s][1..] == [];
  }

  lemma {:induction false} ScopedIsClean(ss: seq<Stmt>, scope: set<Var>)
    requires ScopeAfter(ss, scope).Some?
    ensures Clean(ss)
    decreases ss
  {
    if ss != [] {
      match ss[0] {
        case Do(op) => ScopedIsClean(ss[1..], if op.Bind? then scope + {op.x} else scope);
        case For(j, bound, body) =>
          ScopedIsClean(body, scope + {j});
          ScopedIsClean(ss[1..], scope);
      }
    }
  }

  /** All variables in scope belong to nesting levels below lvl, among them those of p. */
  ghost predicate InScope(p: Path, scope: set<Var>, lvl: nat)
  {
    PathVars(p) <= scope && forall x | x in scope :: VarBelow(x, lvl)
  }

  /** The variables in scope where the element of a loop at level lvl is walked. */
  ghost function Inner(f: Field, scope: set<Var>, lvl: nat, x: Var): set<Var>
  {
    scope + {J(lvl)} + if CopiesElement(f) then {x} else {}
  }

  /** The part of a loop nest at level lvl that all three programs share. */
  lemma {:induction false} LoopScope(
    f: Field, name: Path, x: Var, lvl: nat, scope: set<Var>, walk: seq<Stmt>, elem: Path)
    requires InScope(name, scope, lvl) && x in {S(lvl), V(lvl)}
    requires elem == Element(f, name, lvl, x)
    requires ScopeAfter(walk, Inner(f, scope, lvl, x)) == Some(Inner(f, scope, lvl, x))
    ensures ScopeAfter(CopyElement(f, name, lvl, x) + walk, scope + {J(lvl)}).Some?
  {
    var copy := CopyElement(f, name, lvl, x);
    ScopeAppend(copy, walk, scope + {J(lvl)});
    if CopiesElement(f) {
      ScopeSingle(copy[0], scope + {J(lvl)});
    } else {
      assert scope + {J(lvl)} + {} == scope + {J(lvl)};
    }
  }

  lemma {:induction false} HigherScope(p: Path, scope: set<Var>, lvl: nat)
    requires InScope(p, scope, lvl)
    ensures InScope(p, scope, lvl + 1)
  {
  }

  // ---------------------------------------------------------------- Size

  lemma {:induction false} SizeTypeScope(t: FType, name: Path, lvl: nat, scope: set<Var>)
    requires TypeOk(t) && !t.Base? && InScope(name, scope, lvl + 1)
    ensures ScopeAfter(SizeType(t, name, lvl), scope) == Some(scope)
    decreases t, 0, 0
  {
    match t {
      case AliasStruct(fields) => SizeFieldsScope(fields, 0, name, lvl + 1, scope);
      case Struct(fields) => SizeFieldsScope(fields, 0, name, lvl + 1, scope);
      case Enum(b) => ScopeSingle(SizeType(t, name, lvl)[0], scope);
      case Alias(b, n) => ScopeSingle(SizeType(t, name, lvl)[0], scope);
      case Union(_) => ScopeSingle(SizeType(t, name, lvl)[0], scope);
    }
  }

  lemma {:induction false} SizeFieldScope(f: Field, name: Path, lvl: nat, scope: set<Var>)
    requires ShapeOk(f) && TypeOk(f.ftype) && InScope(name, scope, lvl)
    ensures ScopeAfter(SizeField(f, name, f.sizeFrom != "", lvl), scope) == Some(scope)
    decreases f.ftype, 1, 0
  {
    HigherScope(name, scope, lvl);
    if f.ftype.Base? {
      ScopeSingle(SizeField(f, name, f.sizeFrom != "", lvl)[0], scope);
    } else if !f.isArray {
      SizeTypeScope(f.ftype, name, lvl, scope);
    } else {
      var elem := Element(f, name, lvl, S(lvl));
      SizeTypeScope(f.ftype, elem, lvl, Inner(f, scope, lvl, S(lvl)));
      LoopScope(f, name, S(lvl), lvl, scope, SizeType(f.ftype, elem, lvl), elem);
      ScopeSingle(SizeField(f, name, f.sizeFrom != "", lvl)[0], scope);
    }
  }

  lemma {:induction false} SizeFieldsScope(fields: seq<Field>, k: nat, p: Path, lvl: nat, scope: set<Var>)
    requires WellFormed(fields) && InScope(p, scope, lvl)
    ensures ScopeAfter(SizeFields(fields, k, p, lvl), scope) == Some(scope)
    decreases fields, |fields| - k, 0
  {
    if k < |fields| {
      hide InScope, DecodeField, WellFormed;
      FieldIsOk(fields, k);
      var sized := FieldSizeFrom(fields, k).Some?;
      SizeFieldScope(fields[k], Sel(p, k), lvl, scope);
      SizeFieldsScope(fields, k + 1, p, lvl, scope);
      ScopeAppend(SizeField(fields[k], Sel(p, k), sized, lvl), SizeFields(fields, k + 1, p, lvl), scope);
    }
  }

  // ---------------------------------------------------------------- Marshal

  lemma {:induction false} EncodeBaseScope(
    t: BaseType, name: Path, length: nat, sized: bool, alloc: bool, lvl: nat, scope: set<Var>)
    requires InScope(name, scope, lvl)
    ensures ScopeAfter(EncodeBaseType(t, name, length, sized, alloc), scope) == Some(scope)
  {
    var code := EncodeBaseType(t, name, length, sized, alloc);
    ScopeSingle(code[0], scope);
    if code[0].For? {
      var enc := Do(EncScalar(t, if alloc then Local(X) else name));
      ScopeSingle(enc, scope + {I});
      ScopeSingle(enc, scope + {I} + {X});
      assert [Do(Bind(X, Base(t), name, I)), enc][1..] == [enc];
    }
  }

  lemma {:induction false} EncodeTypeScope(t: FType, name: Path, lvl: nat, scope: set<Var>)
    requires TypeOk(t) && !t.Base? && InScope(name, scope, lvl + 1)
    ensures ScopeAfter(EncodeType(t, name, lvl), scope) == Some(scope)
    decreases t, 0, 0
  {
    match t {
      case Enum(b) => EncodeBaseScope(b, name, 0, false, false, lvl + 1, scope);
      case Alias(b, n) => EncodeBaseScope(b, name, n, false, false, lvl + 1, scope);
      case AliasStruct(fields) => EncodeFieldsScope(fields, 0, name, lvl + 1, scope);
      case Struct(fields) => EncodeFieldsScope(fields, 0, name, lvl + 1, scope);
      case Union(_) => ScopeSingle(EncodeType(t, name, lvl)[0], scope);
    }
  }

  lemma {:induction false} EncodeValueScope(f: Field, name: Path, lvl: nat, scope: set<Var>)
    requires ShapeOk(f) && TypeOk(f.ftype) && InScope(name, scope, lvl)
    ensures ScopeAfter(EncodeValue(f, name, f.sizeFrom != "", lvl), scope) == Some(scope)
    decreases f.ftype, 1, 0
  {
    HigherScope(name, scope, lvl);
    if f.ftype.Base? {
      EncodeBaseScope(f.ftype.base, name, f.length, f.sizeFrom != "", true, lvl, scope);
    } else if !f.isArray {
      EncodeTypeScope(f.ftype, name, lvl, scope);
    } else {
      var elem := Element(f, name, lvl, V(lvl));
      EncodeTypeScope(f.ftype, elem, lvl, Inner(f, scope, lvl, V(lvl)));
      LoopScope(f, name, V(lvl), lvl, scope, EncodeType(f.ftype, elem, lvl), elem);
      ScopeSingle(EncodeValue(f, name, f.sizeFrom != "", lvl)[0], scope);
    }
  }

  lemma {:induction false} EncodeFieldScope(fields: seq<Field>, k: nat, p: Path, lvl: nat, scope: set<Var>)
    requires WellFormed(fields) && k < |fields| && InScope(p, scope, lvl)
    ensures ScopeAfter(EncodeField(fields, k, p, lvl), scope) == Some(scope)
    decreases fields, 0, 0
  {
    var a := FieldSizeOf(fields, k);
    if a.Some? {
      LinksAgree(fields, a.value, k);
      assert CountedBefore(fields, a.value);
      ScopeSingle(EncodeField(fields, k, p, lvl)[0], scope);
    } else {
      assert ShapeOk(fields[k]) && TypeOk(fields[k].ftype);
      assert fields[k].sizeFrom != "" ==> CountedBefore(fields, k);
      EncodeValueScope(fields[k], Sel(p, k), lvl, scope);
    }
  }

  lemma {:induction false} EncodeFieldsScope(fields: seq<Field>, k: nat, p: Path, lvl: nat, scope: set<Var>)
    requires WellFormed(fields) && InScope(p, scope, lvl)
    ensures ScopeAfter(EncodeFields(fields, k, p, lvl), scope) == Some(scope)
    decreases fields, 1, |fields| - k
  {
    if k < |fields| {
      EncodeFieldScope(fields, k, p, lvl, scope);
      EncodeFieldsScope(fields, k + 1, p, lvl, scope);
      ScopeAppend(EncodeField(fields, k, p, lvl), EncodeFields(fields, k + 1, p, lvl), scope);
    }
  }

  // ---------------------------------------------------------------- Unmarshal

  lemma {:induction false} DecodeBaseScope(
    t: BaseType, name: Path, length: nat, size: Option<Path>, alloc: bool, lvl: nat, scope: set<Var>)
    requires InScope(name, scope, lvl) && (size.Some? ==> PathVars(size.value) <= scope)
    ensures ScopeAfter(DecodeBaseType(t, name, length, size, alloc), scope) == Some(scope)
  {
    var code := DecodeBaseType(t, name, length, size, alloc);
    ScopeSingle(code[0], scope);
    ScopeSingle(Do(DecScalar(Idx(name, I), t)), scope + {I});
    if |code| == 2 {
      assert code[1..] == [code[1]];
      ScopeSingle(code[1], scope);
    }
  }

  lemma {:induction false} DecodeTypeScope(t: FType, name: Path, lvl: nat, scope: set<Var>)
    requires TypeOk(t) && !t.Base? && InScope(name, scope, lvl + 1)
    ensures ScopeAfter(DecodeType(t, name, lvl), scope) == Some(scope)
    decreases t, 0, 0
  {
    match t {
      case Enum(b) => DecodeBaseScope(b, name, 0, None, false, lvl + 1, scope);
      case Alias(b, n) => DecodeBaseScope(b, name, n, None, false, lvl + 1, scope);
      case AliasStruct(fields) => DecodeFieldsScope(fields, 0, name, lvl + 1, scope);
      case Struct(fields) => DecodeFieldsScope(fields, 0, name, lvl + 1, scope);
      case Union(_) => ScopeSingle(DecodeType(t, name, lvl)[0], scope);
    }
  }

  lemma {:induction false} DecodeFieldScope(f: Field, name: Path, size: Option<Path>, lvl: nat, scope: set<Var>)
    requires ShapeOk(f) && TypeOk(f.ftype) && InScope(name, scope, lvl)
    requires (f.sizeFrom != "" ==> size.Some?) && (size.Some? ==> PathVars(size.value) <= scope)
    ensures ScopeAfter(DecodeField(f, name, size, lvl), scope) == Some(scope)
    decreases f.ftype, 1, 0
  {
    HigherScope(name, scope, lvl);
    if f.ftype.Base? {
      DecodeBaseScope(f.ftype.base, name, f.length, size, true, lvl, scope);
    } else if !f.isArray {
      DecodeTypeScope(f.ftype, name, lvl, scope);
    } else {
      DecodeTypeScope(f.ftype, Idx(name, J(lvl)), lvl, scope + {J(lvl)});
      var code := DecodeField(f, name, size, lvl);
      ScopeSingle(code[0], scope);
      if |code| == 2 {
        assert code[1..] == [code[1]];
        ScopeSingle(code[1], scope);
      }
    }
  }

  lemma {:induction false} DecodeFieldsScope(fields: seq<Field>, k: nat, p: Path, lvl: nat, scope: set<Var>)
    requires WellFormed(fields) && InScope(p, scope, lvl)
    ensures ScopeAfter(DecodeFields(fields, k, p, lvl), scope) == Some(scope)
    decreases fields, |fields| - k, 0
  {
    if k < |fields| {
      hide InScope, DecodeField, WellFormed;
      FieldIsOk(fields, k);
      var size := SizePath(fields, k, p);
      DecodeFieldScope(fields[k], Sel(p, k), size, lvl, scope);
      DecodeFieldsScope(fields, k + 1, p, lvl, scope);
      ScopeAppend(DecodeField(fields[k], Sel(p, k), size, lvl), DecodeFields(fields, k + 1, p, lvl), scope);
    }
  }

  lemma {:induction false} FieldIsOk(fields: seq<Field>, k: nat)
    requires WellFormed(fields) && k < |fields|
    ensures ShapeOk(fields[k]) && TypeOk(fields[k].ftype)
    ensures fields[k].sizeFrom != "" ==> CountedBefore(fields, k)
  {
  }

  // ---------------------------------------------------------------- the emitted text

  /** Nothing but the receiver is in scope before and after each of the three method bodies. */
  lemma {:induction false} NoCapture(fields: seq<Field>)
    requires WellFormed(fields)
    ensures ScopeAfter(SizeProgram(fields), {}) == Some({})
    ensures ScopeAfter(MarshalProgram(fields), {}) == Some({})
    ensures ScopeAfter(UnmarshalProgram(fields), {}) == Some({})
  {
    SizeFieldsScope(fields, 0, Root, 1, {});
    EncodeFieldsScope(fields, 0, Root, 0, {});
    DecodeFieldsScope(fields, 0, Root, 0, {});
  }

  /** The appended lines parse back to exactly the three programs. */
  lemma {:induction false} TextIsProgram(fields: seq<Field>)
    requires WellFormed(fields)
    ensures Parse(Flatten(SizeProgram(fields))) == Some((SizeProgram(fields), []))
    ensures Parse(Flatten(MarshalProgram(fields))) == Some((MarshalProgram(fields), []))
    ensures Parse(Flatten(UnmarshalProgram(fields))) == Some((UnmarshalProgram(fields), []))
  {
    NoCapture(fields);
    ParsesBack(SizeProgram(fields));
    ParsesBack(MarshalProgram(fields));
    ParsesBack(UnmarshalProgram(fields));
  }

  lemma {:induction false} ParsesBack(ss: seq<Stmt>)
    requires ScopeAfter(ss, {}).Some?
    ensures Parse(Flatten(ss)) == Some((ss, []))
  {
    ScopedIsClean(ss, {});
    ParseFlatten(ss, []);
    assert Flatten(ss) + [] == Flatten(ss);
  }
}
