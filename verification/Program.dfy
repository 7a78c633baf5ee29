/**
 The statements that the generator emits into Size, Marshal and Unmarshal methods, and what running
 them does. A method body has one receiver (Root), block-scoped locals, the result `size` of Size,
 and one codec buffer. None is a panic, or a statement that Go would not compile.
 */
module Program {
  import opened Wrappers
  import opened Bytes
  import opened Cursors
  import opened Schema
  import opened Values

  /** j0, j1, ...; s1, ...; v0, ...; i; x */
  datatype Var = J(n: nat) | S(n: nat) | V(n: nat) | I | X

  /** The receiver, a local, p.Field (by position in the struct), p[j] */
  datatype Path = Root | Local(x: Var) | Sel(p: Path, i: nat) | Idx(p: Path, j: Var)

  /** A literal, an integer field's value, or len(p) */
  datatype Count = Lit(n: nat) | ValueOf(p: Path) | LenOf(p: Path)

  datatype Op =
    | AddSize(n: nat)                                  // size += n
    | AddLen(n: nat, p: Path)                          // size += n * len(p)
    | AddString(p: Path)                               // size += 4 + len(p)
    | Bind(x: Var, elem: FType, p: Path, j: Var)       // var x T; if j < len(p) { x = p[j] }
    | EncScalar(t: BaseType, p: Path)                  // buf.EncodeT(p)
    | EncCount(t: BaseType, p: Path)                   // buf.EncodeT(T(len(p)))
    | EncBytes(p: Path, n: nat)                        // buf.EncodeBytes(p, n)
    | EncString(p: Path, n: nat)                       // buf.EncodeString(p, n)
    | DecScalar(p: Path, t: BaseType)                  // p = T(buf.DecodeT())
    | DecString(p: Path, n: nat)                       // p = buf.DecodeString(n)
    | Make(p: Path, elem: FType, count: Count)         // p = make([]T, count)
    | DecCopy(p: Path, count: Count)                   // copy(p[:], buf.DecodeBytes(count))

  /**
   Unopened is a body closed by a brace that no loop header opened; Panicked stands where the
   generator itself panics. Neither occurs for a well-formed schema.
   */
  datatype Stmt =
    | Do(op: Op)
    | For(j: Var, bound: Count, body: seq<Stmt>)
    | Unopened(body: seq<Stmt>)
    | Panicked

  datatype State = State(root: Value, locals: map<Var, Value>, size: nat, cur: Cursor)

  // ---------------------------------------------------------------- reading and assigning paths

  function Load(p: Path, root: Value, locals: map<Var, Value>): Option<Value>
  {
    match p
    case Root => Some(root)
    case Local(x) => if x in locals then Some(locals[x]) else None
    case Sel(q, i) =>
      var v :- Load(q, root, locals);
      if v.Rec? && i < |v.vs| then Some(v.vs[i]) else None
    case Idx(q, j) =>
      var v :- Load(q, root, locals);
      if v.List? && j in locals && locals[j].Num? && 0 <= locals[j].n < |v.vs| then Some(v.vs[locals[j].n]) else None
  }

  /** The receiver after an assignment to p; only the receiver is ever assigned through. */
  function Store(p: Path, root: Value, locals: map<Var, Value>, x: Value): Option<Value>
  {
    match p
    case Root => Some(x)
    case Local(_) => None
    case Sel(q, i) =>
      var v :- Load(q, root, locals);
      if v.Rec? && i < |v.vs| then Store(q, root, locals, Rec(v.vs[i := x])) else None
    case Idx(q, j) =>
      var v :- Load(q, root, locals);
      if v.List? && j in locals && locals[j].Num? && 0 <= locals[j].n < |v.vs| then
        Store(q, root, locals, List(v.vs[locals[j].n := x]))
      else
        None
  }

  function Assign(p: Path, st: State, x: Value): Option<State>
  {
    var r :- Store(p, st.root, st.locals, x);
    Some(st.(root := r))
  }

  function Read(p: Path, st: State): Option<Value> { Load(p, st.root, st.locals) }

  function ReadLen(p: Path, st: State): Option<nat>
  {
    var v :- Read(p, st);
    if v.Bytes? || v.List? then Some(Len(v)) else None
  }

  /** make panics on a negative count. */
  function Eval(c: Count, st: State): Option<nat>
  {
    match c
    case Lit(n) => Some(n)
    case LenOf(p) => ReadLen(p, st)
    case ValueOf(p) =>
      var v :- Read(p, st);
      if v.Num? && v.n >= 0 then Some(v.n) else None
  }

  // ---------------------------------------------------------------- running

  function EncodeScalar(t: BaseType, c: Cursor, v: Value): Option<Cursor>
  {
    match (t, v)
    case (STRING, Bytes(bs)) => EncodeString(c, bs, 0)
    case (BOOL, Bool(b)) => EncodeBool(c, b)
    case (F64, Num(n)) => if n < 0 then None else EncodeFloat64(c, n)
    case (_, Num(n)) => EncodeInteger(t, c, n)
    case _ => None
  }

  function EncodeInteger(t: BaseType, c: Cursor, n: int): Option<Cursor>
  {
    if IsSigned(t) then EncodeInt(c, n, BaseTypeSize(t))
    else EncodeUint(c, ToUnsigned(n, BaseTypeSize(t)), BaseTypeSize(t))
  }

  function Step(op: Op, st: State): Option<State>
  {
    match op
    case AddSize(n) => Some(st.(size := st.size + n))
    case AddLen(n, p) => var l :- ReadLen(p, st); Some(st.(size := st.size + n * l))
    case AddString(p) => var l :- ReadLen(p, st); Some(st.(size := st.size + 4 + l))
    case Bind(x, elem, p, j) =>
      var v :- Read(p, st);
      if v.List? && j in st.locals && st.locals[j].Num? && st.locals[j].n >= 0 then
        var e := if st.locals[j].n < |v.vs| then v.vs[st.locals[j].n] else ZeroElem(elem);
        Some(st.(locals := st.locals[x := e]))
      else
        None
    case EncScalar(t, p) => var v :- Read(p, st); var c :- EncodeScalar(t, st.cur, v); Some(st.(cur := c))
    case EncCount(t, p) =>
      var l :- ReadLen(p, st);
      if IsInteger(t) then var c :- EncodeInteger(t, st.cur, l); Some(st.(cur := c)) else None
    case EncBytes(p, n) =>
      var v :- Read(p, st);
      if v.Bytes? then var c :- EncodeBytes(st.cur, v.bs, n); Some(st.(cur := c)) else None
    case EncString(p, n) =>
      var v :- Read(p, st);
      if v.Bytes? then var c :- EncodeString(st.cur, v.bs, n); Some(st.(cur := c)) else None
    case DecScalar(p, t) => var (c, v) :- ScalarOf(t, st.cur); Assign(p, st.(cur := c), v)
    case DecString(p, n) => var (c, bs) :- DecodeString(st.cur, n); Assign(p, st.(cur := c), Bytes(bs))
    case Make(p, elem, count) =>
      var n :- Eval(count, st);
      Assign(p, st, if elem == Base(U8) then Bytes(Zeros(n)) else List(Repeat(ZeroElem(elem), n)))
    case DecCopy(p, count) =>
      var n :- Eval(count, st);
      var (c, bs) :- Take(st.cur, n);
      var v :- Read(p, st);
      if v.Bytes? then Assign(p, st.(cur := c), Bytes(CopyOver(v.bs, bs))) else None
  }

  function Exec(s: Stmt, st: State): Option<State>
    decreases s
  {
    match s
    case Do(op) => Step(op, st)
    case For(j, bound, body) =>
      var n :- Eval(bound, st);
      Loop(j, bound, body, 0, n, st)
    case Unopened(_) => None
    case Panicked => None
  }

  function Run(ss: seq<Stmt>, st: State): Option<State>
    decreases ss, 0, 0
  {
    if ss == [] then Some(st)
    else
      var st1 :- Exec(ss[0], st);
      Run(ss[1..], st1)
  }

  /**
   for j := i; j < bound; j++ { body }, with the bound evaluated afresh each time. Locals of the
   body end with it. n is the bound on entry: a body that raised it would make this None.
   */
  function Loop(j: Var, bound: Count, body: seq<Stmt>, i: nat, n: nat, st: State): Option<State>
    decreases body, 1, n - i
  {
    var m :- Eval(bound, st);
    if i >= m then Some(st)
    else if i >= n then None
    else
      var st1 :- Run(body, st.(locals := st.locals[j := Num(i)]));
      Loop(j, bound, body, i + 1, n, st1.(locals := st.locals))
  }

  lemma {:induction false} RunAppend(a: seq<Stmt>, b: seq<Stmt>, st: State)
    ensures Run(a + b, st) == (var r := Run(a, st); if r.None? then None else Run(b, r.value))
    decreases |a|
  {
    if a == [] {
      assert a + b == b;
    } else {
      assert (a + b)[1..] == a[1..] + b;
      if Exec(a[0], st).Some? {
        RunAppend(a[1..], b, Exec(a[0], st).value);
      }
    }
  }

  lemma {:induction false} RunOne(s: Stmt, st: State)
    ensures Run([s], st) == Exec(s, st)
  {
    if Exec(s, st).Some? {
      assert Run([s][1..], Exec(s, st).value) == Exec(s, st);
    }
  }

  lemma {:induction false} RunCons(s: Stmt, b: seq<Stmt>, st: State)
    ensures Run([s] + b, st) == (var r := Exec(s, st); if r.None? then None else Run(b, r.value))
  {
    assert ([s] + b)[1..] == b;
  }

  /** One turn of a loop whose body takes st to st1. */
  lemma {:induction false} LoopStep(j: Var, bound: Count, body: seq<Stmt>, i: nat, n: nat, st: State, st1: State)
    requires i < n && Eval(bound, st) == Some(n)
    requires var r := Run(body, st.(locals := st.locals[j := Num(i)])); r.Some? && r.value.(locals := st.locals) == st1
    ensures Loop(j, bound, body, i, n, st) == Loop(j, bound, body, i + 1, n, st1)
  {
  }

  // ---------------------------------------------------------------- laws of paths

  predicate Rooted(p: Path)
  {
    match p
    case Root => true
    case Local(_) => false
    case Sel(q, _) => Rooted(q)
    case Idx(q, _) => Rooted(q)
  }

  predicate VarBelow(x: Var, lvl: nat)
  {
    match x
    case J(n) => n < lvl
    case S(n) => n < lvl
    case V(n) => n < lvl
    case _ => false
  }

  /** p only uses variables of nesting levels below lvl. */
  predicate Below(p: Path, lvl: nat)
  {
    match p
    case Root => true
    case Local(x) => VarBelow(x, lvl)
    case Sel(q, _) => Below(q, lvl)
    case Idx(q, j) => Below(q, lvl) && VarBelow(j, lvl)
  }

  lemma {:induction false} BelowMono(p: Path, lvl: nat, higher: nat)
    requires Below(p, lvl) && lvl <= higher
    ensures Below(p, higher)
  {
    match p {
      case Sel(q, _) => BelowMono(q, lvl, higher);
      case Idx(q, _) => BelowMono(q, lvl, higher);
      case _ =>
    }
  }

  /** Setting a variable of level lvl or more does not change what p reads. */
  lemma {:induction false} LoadFrame(p: Path, root: Value, locals: map<Var, Value>, lvl: nat, x: Var, v: Value)
    requires Below(p, lvl) && !VarBelow(x, lvl)
    ensures Load(p, root, locals[x := v]) == Load(p, root, locals)
  {
    match p {
      case Sel(q, _) => LoadFrame(q, root, locals, lvl, x, v);
      case Idx(q, _) => LoadFrame(q, root, locals, lvl, x, v);
      case _ =>
    }
  }

  lemma {:induction false} StoreFrame(
    p: Path, root: Value, locals: map<Var, Value>, lvl: nat, x: Var, v: Value, y: Value)
    requires Below(p, lvl) && !VarBelow(x, lvl)
    ensures Store(p, root, locals[x := v], y) == Store(p, root, locals, y)
    decreases p
  {
    if p.Sel? {
      LoadFrame(p.p, root, locals, lvl, x, v);
      var w := Load(p.p, root, locals);
      if w.Some? && w.value.Rec? && p.i < |w.value.vs| {
        StoreFrame(p.p, root, locals, lvl, x, v, Rec(w.value.vs[p.i := y]));
      }
    } else if p.Idx? {
      LoadFrame(p.p, root, locals, lvl, x, v);
      var w, j := Load(p.p, root, locals), p.j;
      assert j != x;
      if w.Some? && w.value.List? && j in locals {
        if locals[j].Num? && 0 <= locals[j].n < |w.value.vs| {
          StoreFrame(p.p, root, locals, lvl, x, v, List(w.value.vs[locals[j].n := y]));
        }
      }
    }
  }

  /** Assigning to a readable path succeeds, is read back, and hides earlier assignments to it. */
  lemma {:induction false} StoreLaws(p: Path, root: Value, locals: map<Var, Value>, x: Value, y: Value)
    requires Rooted(p) && Load(p, root, locals).Some?
    ensures var r := Store(p, root, locals, x);
      && r.Some?
      && Load(p, r.value, locals) == Some(x)
      && Store(p, r.value, locals, y) == Store(p, root, locals, y)
  {
    match p {
      case Root =>
      case Sel(q, i) =>
        var v := Load(q, root, locals).value;
        assert v.vs[i := x][i := y] == v.vs[i := y];
        StoreLaws(q, root, locals, Rec(v.vs[i := x]), Rec(v.vs[i := y]));
      case Idx(q, j) =>
        var v := Load(q, root, locals).value;
        var n := locals[j].n;
        assert v.vs[n := x][n := y] == v.vs[n := y];
        StoreLaws(q, root, locals, List(v.vs[n := x]), List(v.vs[n := y]));
    }
  }

  /** Assigning what is already there changes nothing. */
  lemma {:induction false} StoreSame(p: Path, root: Value, locals: map<Var, Value>)
    requires Rooted(p) && Load(p, root, locals).Some?
    ensures Store(p, root, locals, Load(p, root, locals).value) == Some(root)
  {
    match p {
      case Root =>
      case Sel(q, i) =>
        var v := Load(q, root, locals).value;
        assert v.vs[i := v.vs[i]] == v.vs;
        StoreSame(q, root, locals);
      case Idx(q, j) =>
        var v := Load(q, root, locals).value;
        assert v.vs[locals[j].n := v.vs[locals[j].n]] == v.vs;
        StoreSame(q, root, locals);
    }
  }
}
