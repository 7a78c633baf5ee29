/** Dropping from each file the types it has by import, while the list of files is being rewritten. */
module Normalization {
  import opened Wrappers
  import opened Imports

  datatype Kind = Structs | Aliases | Enums | Enumflags | Unions

  function Types(f: File, k: Kind): seq<Def>
  {
    match k
    case Structs => f.structs
    case Aliases => f.aliases
    case Enums => f.enums
    case Enumflags => f.enumflags
    case Unions => f.unions
  }

  function Names(types: seq<Def>): set<string>
  {
    set i | 0 <= i < |types| :: types[i].name
  }

  predicate Defines(f: File, k: Kind, n: string)
  {
    n in Names(Types(f, k))
  }

  /** The file defines a type of that name, of whatever kind. */
  predicate DefinesAny(f: File, n: string)
  {
    Defines(f, Structs, n) || Defines(f, Aliases, n) || Defines(f, Enums, n) || Defines(f, Enumflags, n) ||
        Defines(f, Unions, n)
  }

  /** File i defines n and gets a type of that name and kind by import. */
  ghost predicate ImportsType(files: seq<File>, rank: seq<nat>, i: nat, k: Kind, n: string)
    requires Acyclic(files, rank) && i < |files|
  {
    Defines(files[i], k, n) && exists j: nat :: Below(files, rank, i, j) && j < |files| && Defines(files[j], k, n)
  }

  ghost predicate ImportsAny(files: seq<File>, rank: seq<nat>, i: nat, n: string)
    requires Acyclic(files, rank) && i < |files|
  {
    || ImportsType(files, rank, i, Structs, n)
    || ImportsType(files, rank, i, Aliases, n)
    || ImportsType(files, rank, i, Enums, n)
    || ImportsType(files, rank, i, Enumflags, n) || ImportsType(files, rank, i, Unions, n)
  }

  // ---------------------------------------------------------------- ListImportedTypes, RemoveImportedTypes

  /** The loops for one kind: the names of own that some imported file has too. */
  method ListOfKind(own: seq<Def>, others: seq<File>, k: Kind) returns (names: seq<string>)
    ensures forall n :: n in names <==> n in Names(own) && exists l | 0 <= l < |others| :: Defines(others[l], k, n)
  {
    names := [];
    for t := 0 to |own|
      invariant forall n :: n in names <==>
          n in Names(own[..t]) && exists l | 0 <= l < |others| :: Defines(others[l], k, n)
    {
      NamesAppend(own[..t], own[t]);
      assert own[..t + 1] == own[..t] + [own[t]];
      var imported := false;
      var imp := 0;
      while imp < |others| && !imported
        invariant imp <= |others|
        invariant imported <==> exists l | 0 <= l < imp :: Defines(others[l], k, own[t].name)
      {
        imported := HasName(Types(others[imp], k), own[t].name);
        imp := imp + 1;
      }
      if imported {
        names := names + [own[t].name];
      }
    }
    assert own[..|own|] == own;
  }

  lemma {:induction false} NamesAppend(types: seq<Def>, d: Def)
    ensures Names(types + [d]) == Names(types) + {d.name}
  {
    var more := types + [d];
    assert more[|types|] == d && forall i | 0 <= i < |types| :: more[i] == types[i];
    assert forall i | 0 <= i < |more| :: more[i].name in Names(types) + {d.name};
  }

  method HasName(types: seq<Def>, n: string) returns (found: bool)
    ensures found <==> n in Names(types)
  {
    for i := 0 to |types|
      invariant forall j | 0 <= j < i :: types[j].name != n
    {
      if types[i].name == n {
        return true;
      }
    }
    return false;
  }

  method ListImportedTypes(files: seq<File>, i: nat, ghost rank: seq<nat>) returns (r: Option<seq<string>>)
    requires Acyclic(files, rank) && i < |files|
    ensures r.Some? <==> Complete(files, rank, i)
    ensures r.Some? ==> forall n :: n in r.value <==> ImportsAny(files, rank, i, n)
  {
    var typeFiles, at := ListImportedFiles(files, i, rank);
    if typeFiles.None? {
      return None;
    }
    var structs := ListOfKind(files[i].structs, typeFiles.value, Structs);
    var aliases := ListOfKind(files[i].aliases, typeFiles.value, Aliases);
    var enums := ListOfKind(files[i].enums, typeFiles.value, Enums);
    var enumflags := ListOfKind(files[i].enumflags, typeFiles.value, Enumflags);
    var unions := ListOfKind(files[i].unions, typeFiles.value, Unions);
    forall k: Kind, n | n in Names(Types(files[i], k))
      ensures (exists l | 0 <= l < |typeFiles.value| :: Defines(typeFiles.value[l], k, n)) <==>
          ImportsType(files, rank, i, k, n)
    {
      Listed(files, rank, i, typeFiles.value, at, k, n);
    }
    return Some(structs + aliases + enums + enumflags + unions);
  }

  lemma {:induction false} Listed(
    files: seq<File>, rank: seq<nat>, i: nat, list: seq<File>, at: seq<nat>, k: Kind, n: string)
    requires Acyclic(files, rank) && i < |files| && Defines(files[i], k, n)
    requires |list| == |at| && forall l | 0 <= l < |at| :: at[l] < |files| && list[l] == files[at[l]]
    requires forall j :: j in Elems(at) <==> Below(files, rank, i, j)
    ensures (exists l | 0 <= l < |list| :: Defines(list[l], k, n)) <==> ImportsType(files, rank, i, k, n)
  {
    if l: nat :| l < |list| && Defines(list[l], k, n) {
      assert at[l] in Elems(at) && Defines(files[at[l]], k, n);
    }
    if ImportsType(files, rank, i, k, n) {
      var j: nat :| Below(files, rank, i, j) && j < |files| && Defines(files[j], k, n);
      assert j in Elems(at);
      var l :| 0 <= l < |at| && at[l] == j;
      assert Defines(list[l], k, n);
    }
  }

  /** kept are the types at these places, in order. */
  predicate Picks(types: seq<Def>, kept: seq<Def>, at: seq<nat>)
  {
    && |at| == |kept|
    && (forall l, m | 0 <= l < m < |at| :: at[l] < at[m])
    && (forall l | 0 <= l < |at| :: at[l] < |types| && kept[l] == types[at[l]])
  }

  /** The loop for one kind: the types whose names are not dropped, each as it was and in order. */
  method Remove(types: seq<Def>, dropped: seq<string>) returns (kept: seq<Def>, ghost at: seq<nat>)
    ensures Picks(types, kept, at)
    ensures forall p | 0 <= p < |types| :: p in at <==> types[p].name !in dropped
  {
    kept, at := [], [];
    for i := 0 to |types|
      invariant Picks(types, kept, at) && forall l | 0 <= l < |at| :: at[l] < i
      invariant forall p | 0 <= p < i :: p in at <==> types[p].name !in dropped
    {
      if types[i].name !in dropped {
        kept, at := kept + [types[i]], at + [i];
      }
    }
  }

  /** f' has those types of kind k of file i whose names are not dropped; that is decided by name alone, not by kind. */
  ghost predicate PrunedKind(files: seq<File>, rank: seq<nat>, i: nat, k: Kind, f': File)
    requires Acyclic(files, rank) && i < |files|
  {
    exists at :: Picks(Types(files[i], k), Types(f', k), at) && PicksUnimported(files, rank, i, k, at)
  }

  ghost predicate PicksUnimported(files: seq<File>, rank: seq<nat>, i: nat, k: Kind, at: seq<nat>)
    requires Acyclic(files, rank) && i < |files|
  {
    var types := Types(files[i], k);
    forall p | 0 <= p < |types| :: p in at <==> !ImportsAny(files, rank, i, types[p].name)
  }

  /** What RemoveImportedTypes does to file i. */
  ghost predicate Pruned(files: seq<File>, rank: seq<nat>, i: nat, f': File)
    requires Acyclic(files, rank) && i < |files|
  {
    && f'.name == files[i].name && f'.imports == files[i].imports
    && forall k :: PrunedKind(files, rank, i, k, f')
  }

  /** On definitions: exactly those of names that are not imported stay, as they were. */
  lemma {:induction false} PrunedDefinitions(files: seq<File>, rank: seq<nat>, i: nat, f': File, k: Kind)
    requires Acyclic(files, rank) && i < |files| && Pruned(files, rank, i, f')
    ensures forall d :: d in Types(f', k) <==> d in Types(files[i], k) && !ImportsAny(files, rank, i, d.name)
    ensures forall n :: Defines(f', k, n) <==> Defines(files[i], k, n) && !ImportsAny(files, rank, i, n)
  {
    hide Acyclic, ImportsAny, Types;
    var types, kept := Types(files[i], k), Types(f', k);
    assert PrunedKind(files, rank, i, k, f');
    var at :| Picks(types, kept, at) && PicksUnimported(files, rank, i, k, at);
    forall l | 0 <= l < |kept| ensures kept[l] in types && !ImportsAny(files, rank, i, kept[l].name) {
      assert at[l] in at;
    }
    forall p | 0 <= p < |types| && !ImportsAny(files, rank, i, types[p].name) ensures types[p] in kept {
      assert p in at;
      var l :| 0 <= l < |at| && at[l] == p;
      assert kept[l] == types[p];
    }
  }

  lemma {:induction false} PrunedNames(files: seq<File>, rank: seq<nat>, i: nat, f': File)
    requires Acyclic(files, rank) && i < |files| && Pruned(files, rank, i, f')
    ensures forall k, n :: Defines(f', k, n) <==> Defines(files[i], k, n) && !ImportsAny(files, rank, i, n)
  {
    forall k, n ensures Defines(f', k, n) <==> Defines(files[i], k, n) && !ImportsAny(files, rank, i, n) {
      PrunedDefinitions(files, rank, i, f', k);
    }
  }

  /** A file that imports nothing stays as it is. */
  lemma {:induction false} NothingImported(files: seq<File>, rank: seq<nat>, i: nat, f': File)
    requires Acyclic(files, rank) && i < |files| && Pruned(files, rank, i, f') && files[i].imports == []
    ensures f' == files[i]
  {
    hide Acyclic;
    forall k ensures Types(f', k) == Types(files[i], k) {
      assert PrunedKind(files, rank, i, k, f');
      var at :| Picks(Types(files[i], k), Types(f', k), at) && PicksUnimported(files, rank, i, k, at);
      PicksAll(Types(files[i], k), Types(f', k), at);
    }
    SameTypes(f', files[i]);
  }

  lemma {:induction false} SameTypes(f: File, g: File)
    requires f.name == g.name && f.imports == g.imports && forall k :: Types(f, k) == Types(g, k)
    ensures f == g
  {
    assert Types(f, Structs) == Types(g, Structs) && Types(f, Aliases) == Types(g, Aliases);
    assert Types(f, Enums) == Types(g, Enums) && Types(f, Enumflags) == Types(g, Enumflags);
    assert Types(f, Unions) == Types(g, Unions);
  }

  lemma {:induction false} PicksAll(types: seq<Def>, kept: seq<Def>, at: seq<nat>)
    requires Picks(types, kept, at) && forall p | 0 <= p < |types| :: p in at
    ensures kept == types
  {
    forall p: nat | p < |types| ensures p < |at| && at[p] == p {
      AtItsPlace(at, p);
    }
    forall l | 0 <= l < |at| ensures l <= at[l] {
      assert at[at[l]] == at[l];
    }
    if types != [] {
      AtItsPlace(at, |types| - 1);
    }
    assert at != [] ==> |at| - 1 <= at[|at| - 1];
  }

  /** In an increasing sequence that has all numbers up to p, p is at its own place. */
  lemma {:induction false} AtItsPlace(at: seq<nat>, p: nat)
    requires forall l, m | 0 <= l < m < |at| :: at[l] < at[m]
    requires forall q | 0 <= q <= p :: q in at
    ensures p < |at| && at[p] == p
  {
    if p > 0 {
      AtItsPlace(at, p - 1);
    }
    assert p in at;
    var l :| 0 <= l < |at| && at[l] == p;
    assert l > 0 && p > 0 ==> at[p - 1] == p - 1;
  }

  method RemoveImportedTypes(files: seq<File>, i: nat, ghost rank: seq<nat>) returns (r: Option<File>)
    requires Acyclic(files, rank) && i < |files|
    ensures r.Some? <==> Complete(files, rank, i)
    ensures r.Some? ==> Pruned(files, rank, i, r.value)
  {
    var importedTypes := ListImportedTypes(files, i, rank);
    if importedTypes.None? {
      return None;
    }
    var f := files[i];
    var enums, p1 := Remove(f.enums, importedTypes.value);
    var enumflags, p2 := Remove(f.enumflags, importedTypes.value);
    var aliases, p3 := Remove(f.aliases, importedTypes.value);
    var structs, p4 := Remove(f.structs, importedTypes.value);
    var unions, p5 := Remove(f.unions, importedTypes.value);
    var f' := f.(enums := enums, enumflags := enumflags, aliases := aliases, structs := structs, unions := unions);
    assert PicksUnimported(files, rank, i, Enums, p1) && PicksUnimported(files, rank, i, Enumflags, p2);
    assert PicksUnimported(files, rank, i, Aliases, p3) && PicksUnimported(files, rank, i, Structs, p4);
    assert PicksUnimported(files, rank, i, Unions, p5);
    forall k ensures PrunedKind(files, rank, i, k, f') {
      var at := match k case Enums => p1 case Enumflags => p2 case Aliases => p3 case Structs => p4 case Unions => p5;
      assert Picks(Types(f, k), Types(f', k), at) && PicksUnimported(files, rank, i, k, at);
    }
    return Some(f');
  }

  // ---------------------------------------------------------------- the loop in New

  /** Names and imports of all files are the same, so the import graph is. */
  predicate SameGraph(a: seq<File>, b: seq<File>)
  {
    |a| == |b| && forall i | 0 <= i < |a| :: a[i].name == b[i].name && a[i].imports == b[i].imports
  }

  lemma {:induction false} SameFind(a: seq<File>, b: seq<File>, n: string, i: nat)
    requires SameGraph(a, b) && i <= |a|
    ensures FindFrom(a, n, i) == FindFrom(b, n, i)
    decreases |a| - i
  {
    if i < |a| {
      SameFind(a, b, n, i + 1);
    }
  }

  lemma {:induction false} SameImport(a: seq<File>, b: seq<File>, i: nat, y: nat)
    requires SameGraph(a, b) && i < |a| && y < |a[i].imports|
    ensures Import(a, i, y) == Import(b, i, y)
  {
    SameFind(a, b, NormalizeImport(a[i].imports[y]), 0);
  }

  lemma {:induction false} SameAcyclic(a: seq<File>, b: seq<File>, rank: seq<nat>)
    requires SameGraph(a, b) && Acyclic(a, rank)
    ensures Acyclic(b, rank)
  {
    forall i, y | 0 <= i < |b| && 0 <= y < |b[i].imports| ensures Import(a, i, y) == Import(b, i, y) {
      SameImport(a, b, i, y);
    }
  }

  lemma {:induction false} SameBelow(a: seq<File>, b: seq<File>, rank: seq<nat>, i: nat, j: nat)
    requires SameGraph(a, b) && Acyclic(a, rank) && Acyclic(b, rank) && i < |a|
    ensures Below(a, rank, i, j) <==> Below(b, rank, i, j)
    decreases rank[i]
  {
    forall y | 0 <= y < |a[i].imports| ensures Via(a, rank, i, y, j) <==> Via(b, rank, i, y, j) {
      SameImport(a, b, i, y);
      if Import(a, i, y).Some? {
        SameBelow(a, b, rank, Import(a, i, y).value, j);
      }
    }
  }

  lemma {:induction false} SameComplete(a: seq<File>, b: seq<File>, rank: seq<nat>, i: nat)
    requires SameGraph(a, b) && Acyclic(a, rank) && Acyclic(b, rank) && i < |a|
    ensures Complete(a, rank, i) <==> Complete(b, rank, i)
    decreases rank[i]
  {
    forall y | 0 <= y < |a[i].imports|
      ensures Import(a, i, y) == Import(b, i, y)
      ensures Import(a, i, y).Some? ==> (Complete(a, rank, Import(a, i, y).value) <==>
          Complete(b, rank, Import(a, i, y).value))
    {
      SameImport(a, b, i, y);
      if Import(a, i, y).Some? {
        SameComplete(a, b, rank, Import(a, i, y).value);
      }
    }
  }

  /** File i shares no type name of one kind with a file it imports, directly or through others. */
  ghost predicate Separate(files: seq<File>, rank: seq<nat>, i: nat)
    requires Acyclic(files, rank) && i < |files|
  {
    forall j: nat, k, n | Below(files, rank, i, j) && j < |files| && Defines(files[j], k, n) :: !Defines(files[i], k, n)
  }

  /** n is defined in file i or in what it imports. */
  ghost predicate Provides(files: seq<File>, rank: seq<nat>, i: nat, n: string)
    requires Acyclic(files, rank) && i < |files|
  {
    DefinesAny(files[i], n) || exists j: nat :: Below(files, rank, i, j) && j < |files| && DefinesAny(files[j], n)
  }

  /** Types only disappear. */
  ghost predicate Shrunk(before: seq<File>, after: seq<File>)
  {
    |before| == |after| && forall i, k, n | 0 <= i < |before| && Defines(after[i], k, n) :: Defines(before[i], k, n)
  }

  lemma {:induction false} PrunedShrinks(files: seq<File>, rank: seq<nat>, i: nat, f': File)
    requires Acyclic(files, rank) && i < |files| && Pruned(files, rank, i, f')
    ensures SameGraph(files, files[i := f']) && Shrunk(files, files[i := f']) && Acyclic(files[i := f'], rank)
  {
    hide PrunedKind;
    PrunedNames(files, rank, i, f');
    SameAcyclic(files, files[i := f'], rank);
  }

  lemma {:induction false} PrunedIsSeparate(files: seq<File>, rank: seq<nat>, i: nat, f': File)
    requires Acyclic(files, rank) && i < |files| && Pruned(files, rank, i, f')
    requires Acyclic(files[i := f'], rank)
    ensures Separate(files[i := f'], rank, i)
  {
    var after := files[i := f'];
    forall j: nat, k, n | Below(after, rank, i, j) && j < |after| && Defines(after[j], k, n)
      ensures !Defines(after[i], k, n)
    {
      PrunedFrom(files, rank, i, f', j, k, n);
    }
  }

  lemma {:induction false} PrunedFrom(files: seq<File>, rank: seq<nat>, i: nat, f': File, j: nat, k: Kind, n: string)
    requires Acyclic(files, rank) && i < |files| && Pruned(files, rank, i, f') && Acyclic(files[i := f'], rank)
    requires Below(files[i := f'], rank, i, j) && j < |files| && Defines(files[i := f'][j], k, n)
    ensures !Defines(f', k, n)
  {
    hide PrunedKind;
    PrunedNames(files, rank, i, f');
    hide Names, Types, Acyclic, Below;
    SameBelow(files, files[i := f'], rank, i, j);
    BelowRank(files, rank, i, j);
    if Defines(files[i], k, n) {
      assert ImportsType(files, rank, i, k, n);
    }
  }

  lemma {:induction false} StaysSeparate(files: seq<File>, rank: seq<nat>, i: nat, f': File, p: nat)
    requires Acyclic(files, rank) && i < |files| && Pruned(files, rank, i, f') && p < |files| &&
        Separate(files, rank, p)
    requires Acyclic(files[i := f'], rank)
    ensures Separate(files[i := f'], rank, p)
  {
    hide PrunedKind;
    PrunedNames(files, rank, i, f');
    var after := files[i := f'];
    forall j: nat, k, n | Below(after, rank, p, j) && j < |after| && Defines(after[j], k, n)
      ensures !Defines(after[p], k, n)
    {
      SameBelow(files, after, rank, p, j);
      assert Defines(files[j], k, n);
    }
  }

  /** A type that is dropped is still there for everyone: in a file the pruned file imports. */
  lemma {:induction false} StaysProvided(files: seq<File>, rank: seq<nat>, i: nat, f': File, p: nat, n: string)
    requires Acyclic(files, rank) && i < |files| && Pruned(files, rank, i, f') && p < |files| &&
        Provides(files, rank, p, n)
    requires Acyclic(files[i := f'], rank)
    ensures Provides(files[i := f'], rank, p, n)
  {
    hide PrunedKind;
    PrunedNames(files, rank, i, f');
    var after := files[i := f'];
    var w: nat := p;
    if !DefinesAny(files[p], n) {
      w :| Below(files, rank, p, w) && w < |files| && DefinesAny(files[w], n);
      SameBelow(files, after, rank, p, w);
    }
    if w == i && !DefinesAny(after[i], n) {
      var j := MovesBelow(files, rank, i, f', n);
      if p != i {
        BelowTransitive(files, rank, p, i, j);
      }
      SameBelow(files, after, rank, p, j);
    }
  }

  lemma {:induction false} MovesBelow(files: seq<File>, rank: seq<nat>, i: nat, f': File, n: string) returns (j: nat)
    requires Acyclic(files, rank) && i < |files| && Pruned(files, rank, i, f')
    requires DefinesAny(files[i], n) && !DefinesAny(f', n)
    ensures Below(files, rank, i, j) && j < |files| && j != i && DefinesAny(files[j], n)
  {
    hide PrunedKind;
    PrunedNames(files, rank, i, f');
    assert ImportsAny(files, rank, i, n);
    var k :| ImportsType(files, rank, i, k, n);
    j := ImportedFrom(files, rank, i, k, n);
  }

  lemma {:induction false} ImportedFrom(files: seq<File>, rank: seq<nat>, i: nat, k: Kind, n: string) returns (j: nat)
    requires Acyclic(files, rank) && i < |files| && ImportsType(files, rank, i, k, n)
    ensures Below(files, rank, i, j) && j < |files| && j != i && DefinesAny(files[j], n)
  {
    j :| Below(files, rank, i, j) && j < |files| && Defines(files[j], k, n);
    BelowRank(files, rank, i, j);
    match k {
      case Structs =>
      case Aliases =>
      case Enums =>
      case Enumflags =>
      case Unions =>
    }
  }

  // ---------------------------------------------------------------- names together with their kind

  /** A type of that name and kind is defined in file i or in what it imports. */
  ghost predicate ProvidesKind(files: seq<File>, rank: seq<nat>, i: nat, k: Kind, n: string)
    requires Acyclic(files, rank) && i < |files|
  {
    exists j :: Provider(files, rank, i, j, k, n)
  }

  ghost predicate Provider(files: seq<File>, rank: seq<nat>, i: nat, j: nat, k: Kind, n: string)
    requires Acyclic(files, rank) && i < |files|
  {
    j < |files| && (j == i || Below(files, rank, i, j)) && Defines(files[j], k, n)
  }

  /**
   The comparison by name alone loses a type for file p exactly if the pruned file was the only one to provide it and
   drops it because of an imported type of the same name and another kind.
   */
  lemma {:induction false} KindLostExactly(
    files: seq<File>, rank: seq<nat>, i: nat, f': File, p: nat, k: Kind, n: string)
    requires Acyclic(files, rank) && i < |files| && Pruned(files, rank, i, f') && p < |files|
    requires ProvidesKind(files, rank, p, k, n) && Acyclic(files[i := f'], rank)
    ensures !ProvidesKind(files[i := f'], rank, p, k, n) <==>
      && (forall j | Provider(files, rank, p, j, k, n) :: j == i)
      && ImportsAny(files, rank, i, n)
    ensures !ProvidesKind(files[i := f'], rank, p, k, n) ==> !ImportsType(files, rank, i, k, n)
  {
    hide PrunedKind;
    PrunedNames(files, rank, i, f');
    var after := files[i := f'];
    forall j: nat ensures Provider(after, rank, p, j, k, n) <==>
      Provider(files, rank, p, j, k, n) && !(j == i && ImportsAny(files, rank, i, n))
    {
      if j < |files| {
        SameBelow(files, after, rank, p, j);
      }
    }
    if ImportsType(files, rank, i, k, n) && (p == i || Below(files, rank, p, i)) {
      var w := ImportedType(files, rank, i, k, n);
      if p != i {
        BelowTransitive(files, rank, p, i, w);
      }
      assert Provider(files, rank, p, w, k, n);
    }
  }

  lemma {:induction false} ImportedType(files: seq<File>, rank: seq<nat>, i: nat, k: Kind, n: string) returns (j: nat)
    requires Acyclic(files, rank) && i < |files| && ImportsType(files, rank, i, k, n)
    ensures Below(files, rank, i, j) && j < |files| && j != i && Defines(files[j], k, n)
  {
    j :| Below(files, rank, i, j) && j < |files| && Defines(files[j], k, n);
    BelowRank(files, rank, i, j);
  }

  /** A file with a struct and an enum of one name that imports a struct of that name. */
  function TwoKinds(d: Def): seq<File>
  {
    [File("a", ["b"], [d], [], [d], [], []), File("b", [], [d], [], [], [], [])]
  }

  /** Both of its types are dropped, and the enum is lost. */
  lemma {:induction false} EnumIsLost(d: Def, f': File)
    ensures Acyclic(TwoKinds(d), [1, 0]) && ProvidesKind(TwoKinds(d), [1, 0], 0, Enums, d.name)
    ensures Pruned(TwoKinds(d), [1, 0], 0, f') ==>
      && Acyclic(TwoKinds(d)[0 := f'], [1, 0])
      && !ProvidesKind(TwoKinds(d)[0 := f'], [1, 0], 0, Enums, d.name)
  {
    hide NormalizeImport;
    var files, rank := TwoKinds(d), [1, 0];
    NormalizedName("", "b", "");
    assert "" + "b" + "" == "b" && files[0].name == "a" && files[1].name == "b";
    assert FindFrom(files, "b", 1) == Some(1) && FindFrom(files, "b", 0) == Some(1);
    assert Import(files, 0, 0) == Some(1);
    assert Acyclic(files, rank);
    assert [d][0] == d && Provider(files, rank, 0, 0, Enums, d.name);
    assert Via(files, rank, 0, 0, 1) && Below(files, rank, 0, 1);
    assert Defines(files[1], Structs, d.name) && ImportsType(files, rank, 0, Structs, d.name);
    if Pruned(files, rank, 0, f') {
      PrunedShrinks(files, rank, 0, f');
      KindLostExactly(files, rank, 0, f', 0, Enums, d.name);
    }
  }

  /** No file uses a name for types of two kinds. */
  ghost predicate OneKind(files: seq<File>)
  {
    forall i, k, l, n | 0 <= i < |files| && Defines(files[i], k, n) && Defines(files[i], l, n) :: k == l
  }

  /** Then a dropped type is one that is imported in its own kind, so that no kind gets lost. */
  lemma {:induction false} KindStays(files: seq<File>, rank: seq<nat>, i: nat, f': File, p: nat, k: Kind, n: string)
    requires Acyclic(files, rank) && i < |files| && Pruned(files, rank, i, f') && p < |files|
    requires ProvidesKind(files, rank, p, k, n) && Acyclic(files[i := f'], rank) && OneKind(files)
    ensures ProvidesKind(files[i := f'], rank, p, k, n)
  {
    KindLostExactly(files, rank, i, f', p, k, n);
  }

  // ---------------------------------------------------------------- the order of the files

  /** What is left of f are definitions of f, each as it was and in their first order. */
  ghost predicate Selected(f: File, f': File)
  {
    && f'.name == f.name && f'.imports == f.imports
    && forall k :: SelectedKind(f, f', k)
  }

  ghost predicate SelectedKind(f: File, f': File, k: Kind) { exists at :: Picks(Types(f, k), Types(f', k), at) }

  lemma {:induction false} PrunedIsSelected(files: seq<File>, rank: seq<nat>, i: nat, f': File)
    requires Acyclic(files, rank) && i < |files| && Pruned(files, rank, i, f')
    ensures Selected(files[i], f')
  {
    hide Acyclic;
    forall k ensures SelectedKind(files[i], f', k) {
      assert PrunedKind(files, rank, i, k, f');
    }
  }

  /** Each file of now is as it was first, or pruned by what the files were first. */
  ghost predicate PrunedAtOnce(first: seq<File>, now: seq<File>, rank: seq<nat>)
    requires Acyclic(first, rank)
  {
    |now| == |first| && forall p | 0 <= p < |first| :: now[p] == first[p] || Pruned(first, rank, p, now[p])
  }

  /** A file that defines a type but does not import it keeps it. */
  lemma {:induction false} KeepsOwn(first: seq<File>, now: seq<File>, rank: seq<nat>, j: nat, k: Kind, n: string)
    requires Acyclic(first, rank) && PrunedAtOnce(first, now, rank) && OneKind(first) && j < |first|
    requires Defines(first[j], k, n) && !ImportsType(first, rank, j, k, n)
    ensures Defines(now[j], k, n)
  {
    if now[j] != first[j] {
      PrunedNames(first, rank, j, now[j]);
    }
  }

  /** Whatever is imported first is still imported from a file that does not import it in turn. */
  lemma {:induction false} LowestProvider(
    first: seq<File>, now: seq<File>, rank: seq<nat>, i: nat, k: Kind, n: string, j: nat)
    requires Acyclic(first, rank) && PrunedAtOnce(first, now, rank) && OneKind(first) && i < |first|
    requires Below(first, rank, i, j) && j < |first| && Defines(first[j], k, n)
    ensures exists l: nat :: Below(first, rank, i, l) && l < |first| && Defines(now[l], k, n)
    decreases rank[j]
  {
    if ImportsType(first, rank, j, k, n) {
      var l: nat :| Below(first, rank, j, l) && l < |first| && Defines(first[l], k, n);
      BelowRank(first, rank, j, l);
      BelowTransitive(first, rank, i, j, l);
      LowestProvider(first, now, rank, i, k, n, l);
    } else {
      KeepsOwn(first, now, rank, j, k, n);
    }
  }

  /** Pruning other files before does not change what a file imports. */
  lemma {:induction false} SameImports(first: seq<File>, now: seq<File>, rank: seq<nat>, i: nat, k: Kind, n: string)
    requires Acyclic(first, rank) && Acyclic(now, rank) && PrunedAtOnce(first, now, rank) && OneKind(first)
    requires i < |first| && now[i] == first[i]
    ensures ImportsType(now, rank, i, k, n) <==> ImportsType(first, rank, i, k, n)
  {
    hide Acyclic, OneKind;
    GraphPruned(first, now, rank);
    if ImportsType(first, rank, i, k, n) {
      var j: nat :| Below(first, rank, i, j) && j < |first| && Defines(first[j], k, n);
      LowestProvider(first, now, rank, i, k, n, j);
      var l: nat :| Below(first, rank, i, l) && l < |first| && Defines(now[l], k, n);
      SameBelow(first, now, rank, i, l);
    }
    if ImportsType(now, rank, i, k, n) {
      var j: nat :| Below(now, rank, i, j) && j < |now| && Defines(now[j], k, n);
      SameBelow(first, now, rank, i, j);
      if now[j] != first[j] {
        PrunedNames(first, rank, j, now[j]);
      }
    }
  }

  lemma {:induction false} GraphPruned(first: seq<File>, now: seq<File>, rank: seq<nat>)
    requires Acyclic(first, rank) && PrunedAtOnce(first, now, rank)
    ensures SameGraph(first, now)
  {
  }

  /**
   Where no file uses a name for two kinds the order of the files does not matter: pruning a file when others have been
   pruned already gives what pruning it first would have given.
   */
  lemma {:induction false} OrderDoesNotMatter(first: seq<File>, now: seq<File>, rank: seq<nat>, i: nat, f': File)
    requires Acyclic(first, rank) && Acyclic(now, rank) && PrunedAtOnce(first, now, rank) && OneKind(first)
    requires i < |first| && now[i] == first[i]
    ensures Pruned(now, rank, i, f') <==> Pruned(first, rank, i, f')
  {
    hide Acyclic, OneKind, PrunedAtOnce, ImportsType;
    SameLength(first, now, rank);
    forall n ensures ImportsAny(now, rank, i, n) <==> ImportsAny(first, rank, i, n) {
      forall k ensures ImportsType(now, rank, i, k, n) <==> ImportsType(first, rank, i, k, n) {
        SameImports(first, now, rank, i, k, n);
      }
    }
    hide ImportsAny;
    forall k, at ensures PicksUnimported(now, rank, i, k, at) <==> PicksUnimported(first, rank, i, k, at) {
    }
    forall k ensures PrunedKind(now, rank, i, k, f') <==> PrunedKind(first, rank, i, k, f') {
    }
  }

  lemma {:induction false} SameLength(first: seq<File>, now: seq<File>, rank: seq<nat>)
    requires Acyclic(first, rank) && PrunedAtOnce(first, now, rank)
    ensures |now| == |first|
  {
  }

  /**
   The normalisation loop of New, for any order of the files. What is left of a file are definitions it had, as they
   were and in their order, and all of them if it imports nothing. Afterwards no file shares a type name of one kind
   with a file it imports, and every name that was available in a file still is. Where no file uses a name for two
   kinds, each file has lost exactly what it first had by import, whatever the order of the files.
   */
  method Normalize(files: array<File>, ghost rank: seq<nat>) returns (ok: bool)
    requires Acyclic(files[..], rank)
    modifies files
    ensures Acyclic(files[..], rank) && SameGraph(old(files[..]), files[..])
    ensures forall i | 0 <= i < files.Length ::
      Selected(old(files[i]), files[i]) && (files[i].imports == [] ==> files[i] == old(files[i]))
    ensures ok <==> forall i | 0 <= i < files.Length :: Complete(old(files[..]), rank, i)
    ensures ok ==> forall i | 0 <= i < files.Length :: Separate(files[..], rank, i)
    ensures ok ==> forall i, n | 0 <= i < files.Length && Provides(old(files[..]), rank, i, n) ::
        Provides(files[..], rank, i, n)
    ensures ok && OneKind(old(files[..])) ==>
      forall i | 0 <= i < files.Length :: Pruned(old(files[..]), rank, i, files[i])
    ensures ok && OneKind(old(files[..])) ==>
      forall i, k, n | 0 <= i < files.Length && ProvidesKind(old(files[..]), rank, i, k, n) ::
        ProvidesKind(files[..], rank, i, k, n)
  {
    hide PrunedKind, PicksUnimported, Picks, ImportsType, Selected, Separate, Provides, ProvidesKind;
    ghost var first := files[..];
    forall i | 0 <= i < |first| ensures Selected(first[i], first[i]) {
      SelectedSame(first[i]);
    }
    for i := 0 to files.Length
      invariant Acyclic(files[..], rank) && SameGraph(first, files[..])
      invariant forall p | 0 <= p < files.Length ::
        Selected(first[p], files[p]) && (files[p].imports == [] ==> files[p] == first[p])
      invariant forall p | i <= p < files.Length :: files[p] == first[p]
      invariant forall p | 0 <= p < i :: Complete(first, rank, p) && Separate(files[..], rank, p)
      invariant forall p, n | 0 <= p < files.Length && Provides(first, rank, p, n) :: Provides(files[..], rank, p, n)
      invariant OneKind(first) ==> OneKind(files[..]) && PrunedAtOnce(first, files[..], rank)
      invariant OneKind(first) ==> forall p | 0 <= p < i :: Pruned(first, rank, p, files[p])
      invariant OneKind(first) ==>
        forall p, k, n | 0 <= p < files.Length && ProvidesKind(first, rank, p, k, n) ::
            ProvidesKind(files[..], rank, p, k, n)
    {
      ghost var before := files[..];
      SameComplete(first, before, rank, i);
      var f := RemoveImportedTypes(files[..], i, rank);
      if f.None? {
        return false;
      }
      files[i] := f.value;
      assert files[..] == before[i := f.value];
      PrunedShrinks(before, rank, i, f.value);
      PrunedIsSelected(before, rank, i, f.value);
      PrunedIsSeparate(before, rank, i, f.value);
      if f.value.imports == [] {
        NothingImported(before, rank, i, f.value);
      }
      forall p | 0 <= p < i ensures Separate(files[..], rank, p) {
        StaysSeparate(before, rank, i, f.value, p);
      }
      forall p, n | 0 <= p < files.Length && Provides(first, rank, p, n) ensures Provides(files[..], rank, p, n) {
        StaysProvided(before, rank, i, f.value, p, n);
      }
      if OneKind(first) {
        OrderDoesNotMatter(first, before, rank, i, f.value);
        forall p, k, n | 0 <= p < files.Length && ProvidesKind(first, rank, p, k, n)
          ensures ProvidesKind(files[..], rank, p, k, n)
        {
          KindStays(before, rank, i, f.value, p, k, n);
        }
      }
    }
    return true;
  }

  lemma {:induction false} SelectedSame(f: File)
    ensures Selected(f, f)
  {
    forall k ensures SelectedKind(f, f, k) {
      assert Picks(Types(f, k), Types(f, k), seq(|Types(f, k)|, p => p));
    }
  }
}
