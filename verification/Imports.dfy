/** Which API files a file imports, directly or through others. */
module Imports {
  import opened Wrappers

  datatype Def = Def(name: string, body: string)

  datatype File = File(
    name: string, imports: seq<string>,
    structs: seq<Def>, aliases: seq<Def>, enums: seq<Def>, enumflags: seq<Def>, unions: seq<Def>)

  // ---------------------------------------------------------------- import names

  function TrimSlashes(p: string): string
  {
    if p != "" && p[|p| - 1] == '/' then TrimSlashes(p[..|p| - 1]) else p
  }

  /** What follows the last slash. */
  function LastElement(p: string): (r: string)
    ensures '/' !in r
  {
    if p == "" || p[|p| - 1] == '/' then "" else LastElement(p[..|p| - 1]) + [p[|p| - 1]]
  }

  /** path.Base */
  function Base(p: string): string
  {
    if p == "" then "."
    else if TrimSlashes(p) == "" then "/"
    else LastElement(TrimSlashes(p))
  }

  function UpToDot(s: string): (r: string)
    ensures '.' !in r && r <= s
    ensures '.' !in s ==> r == s
  {
    if s == "" || s[0] == '.' then "" else [s[0]] + UpToDot(s[1..])
  }

  function NormalizeImport(imp: string): string { UpToDot(Base(imp)) }

  /** The directories in front of a name and all dotted suffixes behind it disappear. */
  lemma {:induction false} NormalizedName(dir: string, name: string, suffix: string)
    requires name != "" && '/' !in name && '.' !in name && '/' !in suffix
    requires dir == "" || dir[|dir| - 1] == '/'
    requires suffix == "" || suffix[0] == '.'
    ensures NormalizeImport(dir + name + suffix) == name
    ensures NormalizeImport(name) == name
  {
    hide *;
    var file := name + suffix;
    assert dir + name + suffix == dir + file;
    assert '/' !in file;
    BaseOfFile(dir, file);
    DotEnds(name, suffix);
    assert "" + name == name && name + "" == name;
    BaseOfFile("", name);
    DotEnds(name, "");
    assert NormalizeImport(dir + file) == UpToDot(Base(dir + file)) && NormalizeImport(name) == UpToDot(Base(name)) by {
      Definition(dir + file);
      Definition(name);
    }
  }

  lemma {:induction false} Definition(imp: string)
    ensures NormalizeImport(imp) == UpToDot(Base(imp))
  {
  }

  lemma {:induction false} BaseOfFile(dir: string, file: string)
    requires file != "" && '/' !in file && (dir == "" || dir[|dir| - 1] == '/')
    ensures Base(dir + file) == file
  {
    hide LastElement;
    var p := dir + file;
    assert p[|p| - 1] == file[|file| - 1] && file[|file| - 1] in file;
    assert TrimSlashes(p) == p;
    ElementBehind(dir, file);
  }

  lemma {:induction false} ElementBehind(dir: string, file: string)
    requires '/' !in file && (dir == "" || dir[|dir| - 1] == '/')
    ensures LastElement(dir + file) == file
  {
    if file == "" {
      assert dir + file == dir;
    } else {
      var front := file[..|file| - 1];
      assert (dir + file)[..|dir + file| - 1] == dir + front && (dir + file)[|dir + file| - 1] == file[|file| - 1];
      assert file[|file| - 1] in file;
      ElementBehind(dir, front);
    }
  }

  lemma {:induction false} DotEnds(name: string, suffix: string)
    requires '.' !in name && (suffix == "" || suffix[0] == '.')
    ensures UpToDot(name + suffix) == name
  {
    if name == "" {
      assert name + suffix == suffix;
    } else {
      assert (name + suffix)[1..] == name[1..] + suffix && name[0] in name;
      DotEnds(name[1..], suffix);
    }
  }

  // ---------------------------------------------------------------- the import graph

  /** The first file of that name. */
  function Find(files: seq<File>, name: string): (r: Option<nat>)
    ensures r.Some? ==> r.value < |files| && files[r.value].name == name
    ensures r.Some? ==> forall i | 0 <= i < r.value :: files[i].name != name
    ensures r.None? ==> forall i | 0 <= i < |files| :: files[i].name != name
  {
    FindFrom(files, name, 0)
  }

  function FindFrom(files: seq<File>, name: string, i: nat): (r: Option<nat>)
    requires i <= |files|
    ensures r.Some? ==> i <= r.value < |files| && files[r.value].name == name
    ensures r.Some? ==> forall j | i <= j < r.value :: files[j].name != name
    ensures r.None? ==> forall j | i <= j < |files| :: files[j].name != name
    decreases |files| - i
  {
    if i == |files| then None else if files[i].name == name then Some(i) else FindFrom(files, name, i + 1)
  }

  /** The file that import y of file i names. */
  function Import(files: seq<File>, i: nat, y: nat): (r: Option<nat>)
    requires i < |files| && y < |files[i].imports|
    ensures r.Some? ==> r.value < |files| && Find(files, files[r.value].name) == r
  {
    Find(files, NormalizeImport(files[i].imports[y]))
  }

  /** rank shows that there is no cycle of imports. */
  ghost predicate Acyclic(files: seq<File>, rank: seq<nat>)
  {
    && |rank| == |files|
    && forall i, y | 0 <= i < |files| && 0 <= y < |files[i].imports| && Import(files, i, y).Some? ::
      rank[Import(files, i, y).value] < rank[i]
  }

  /** File j is import y of file i, or is imported from there. */
  ghost predicate Via(files: seq<File>, rank: seq<nat>, i: nat, y: nat, j: nat)
    requires Acyclic(files, rank) && i < |files| && y < |files[i].imports|
    decreases rank[i], 0
  {
    Import(files, i, y).Some? && (Import(files, i, y).value == j || Below(files, rank, Import(files, i, y).value, j))
  }

  /** File i imports file j, directly or through others. */
  ghost predicate Below(files: seq<File>, rank: seq<nat>, i: nat, j: nat)
    requires Acyclic(files, rank) && i < |files|
    decreases rank[i], 1
  {
    exists y | 0 <= y < |files[i].imports| :: Via(files, rank, i, y, j)
  }

  /** Every import is found, in file i and in all it imports. */
  ghost predicate Complete(files: seq<File>, rank: seq<nat>, i: nat)
    requires Acyclic(files, rank) && i < |files|
    decreases rank[i]
  {
    forall y | 0 <= y < |files[i].imports| ::
      Import(files, i, y).Some? && Complete(files, rank, Import(files, i, y).value)
  }

  lemma {:induction false} BelowRank(files: seq<File>, rank: seq<nat>, i: nat, j: nat)
    requires Acyclic(files, rank) && i < |files| && Below(files, rank, i, j)
    ensures j < |files| && rank[j] < rank[i]
    decreases rank[i]
  {
    var y :| 0 <= y < |files[i].imports| && Via(files, rank, i, y, j);
    if Import(files, i, y).value != j {
      BelowRank(files, rank, Import(files, i, y).value, j);
    }
  }

  lemma {:induction false} BelowTransitive(files: seq<File>, rank: seq<nat>, i: nat, j: nat, k: nat)
    requires Acyclic(files, rank) && i < |files| && j < |files|
    requires Below(files, rank, i, j) && Below(files, rank, j, k)
    ensures Below(files, rank, i, k)
    decreases rank[i]
  {
    var y :| 0 <= y < |files[i].imports| && Via(files, rank, i, y, j);
    if Import(files, i, y).value != j {
      BelowTransitive(files, rank, Import(files, i, y).value, j, k);
    }
    assert Via(files, rank, i, y, k);
  }

  // ---------------------------------------------------------------- ListImportedFiles

  /** Each file once, and behind all of its own imports. */
  ghost predicate Listing(files: seq<File>, at: seq<nat>)
  {
    && (forall k | 0 <= k < |at| :: at[k] < |files| && Find(files, files[at[k]].name) == Some(at[k]))
    && (forall k, l | 0 <= k < l < |at| :: at[k] != at[l])
    && (forall k | 0 <= k < |at| :: ImportsWithin(files, at[k], at[..k]))
  }

  ghost predicate ImportsWithin(files: seq<File>, i: nat, at: seq<nat>)
    requires i < |files|
  {
    forall y | 0 <= y < |files[i].imports| && Import(files, i, y).Some? :: Import(files, i, y).value in at
  }

  lemma {:induction false} ListOneMore(files: seq<File>, at: seq<nat>, j: nat)
    requires Listing(files, at) && j < |files| && Find(files, files[j].name) == Some(j)
    requires j !in at && ImportsWithin(files, j, at)
    ensures Listing(files, at + [j])
  {
    var more := at + [j];
    forall k | 0 <= k < |more| ensures ImportsWithin(files, more[k], more[..k]) {
      assert more[..k] == if k < |at| then at[..k] else at;
    }
  }

  /** The names of the listed files, which the imported map holds. */
  ghost predicate Holds(files: seq<File>, at: seq<nat>, list: seq<File>, imported: set<string>)
  {
    && |list| == |at|
    && (forall k | 0 <= k < |at| :: at[k] < |files| && list[k] == files[at[k]])
    && (forall j | 0 <= j < |files| && Find(files, files[j].name) == Some(j) :: files[j].name in imported <==> j in at)
  }

  ghost function Elems(at: seq<nat>): (s: set<nat>)
    ensures forall j :: j in s <==> j in at
  {
    set j | j in at
  }

  lemma {:induction false} ElemsAppend(at: seq<nat>, j: nat)
    ensures Elems(at + [j]) == Elems(at) + {j}
  {
  }

  /** Appends file j unless its name is in the map already. */
  method AddFile(files: seq<File>, file: File, ghost j: nat, list: seq<File>, imported: set<string>, ghost at: seq<nat>)
    returns (list': seq<File>, imported': set<string>, ghost at': seq<nat>)
    requires Listing(files, at) && Holds(files, at, list, imported)
    requires j < |files| && file == files[j] && Find(files, file.name) == Some(j) && ImportsWithin(files, j, at)
    ensures Listing(files, at') && Holds(files, at', list', imported')
    ensures Elems(at') == Elems(at) + {j}
  {
    list', imported', at' := list, imported, at;
    if file.name !in imported {
      ListOneMore(files, at, j);
      ElemsAppend(at, j);
      list', imported', at' := list + [file], imported + {file.name}, at + [j];
    }
  }

  /**
   None where the program gives up because an import is not found. at says where in files the listed
   files are: all that file i imports, each once, each behind its own imports, and never file i.
   */
  method ListImportedFiles(files: seq<File>, i: nat, ghost rank: seq<nat>)
    returns (r: Option<seq<File>>, ghost at: seq<nat>)
    requires Acyclic(files, rank) && i < |files|
    ensures r.Some? <==> Complete(files, rank, i)
    ensures r.Some? ==> |r.value| == |at| && forall k | 0 <= k < |at| :: at[k] < |files| && r.value[k] == files[at[k]]
    ensures r.Some? ==> Listing(files, at) && i !in at
    ensures r.Some? ==> forall j :: j in Elems(at) <==> Below(files, rank, i, j)
    decreases rank[i], 1
  {
    hide Listing, Holds, ImportsWithin, Import, Via;
    var list: seq<File> := [];
    var imported: set<string> := {};
    at := [];
    NothingListed(files);
    for x := 0 to |files[i].imports|
      invariant Listing(files, at) && Holds(files, at, list, imported)
      invariant forall j :: j in Elems(at) <==> ViaUpTo(files, rank, i, x, j)
      invariant forall y | 0 <= y < x :: Import(files, i, y).Some? && Complete(files, rank, Import(files, i, y).value)
    {
      var ok;
      ok, list, imported, at := AddImport(files, i, x, rank, list, imported, at);
      if !ok {
        return None, at;
      }
      forall j ensures j in Elems(at) <==> ViaUpTo(files, rank, i, x + 1, j) {
        ViaOneMore(files, rank, i, x, j);
      }
    }
    if i in at {
      assert i in Elems(at);
      BelowRank(files, rank, i, i);
    }
    HoldsListed(files, at, list, imported);
    return Some(list), at;
  }

  ghost predicate ViaUpTo(files: seq<File>, rank: seq<nat>, i: nat, x: nat, j: nat)
    requires Acyclic(files, rank) && i < |files| && x <= |files[i].imports|
  {
    exists y | 0 <= y < x :: Via(files, rank, i, y, j)
  }

  lemma {:induction false} ViaOneMore(files: seq<File>, rank: seq<nat>, i: nat, x: nat, j: nat)
    requires Acyclic(files, rank) && i < |files| && x < |files[i].imports|
    ensures ViaUpTo(files, rank, i, x + 1, j) <==> ViaUpTo(files, rank, i, x, j) || Via(files, rank, i, x, j)
  {
  }

  /** The body of the outer loop, for import x of file i. */
  method AddImport(
    files: seq<File>, i: nat, x: nat, ghost rank: seq<nat>, list: seq<File>, imported: set<string>, ghost at: seq<nat>)
    returns (ok: bool, list': seq<File>, imported': set<string>, ghost at': seq<nat>)
    requires Acyclic(files, rank) && i < |files| && x < |files[i].imports|
    requires Listing(files, at) && Holds(files, at, list, imported)
    ensures ok <==> Import(files, i, x).Some? && Complete(files, rank, Import(files, i, x).value)
    ensures ok ==> Listing(files, at') && Holds(files, at', list', imported')
    ensures ok ==> forall j :: j in Elems(at') <==> j in Elems(at) || Via(files, rank, i, x, j)
    decreases rank[i], 0
  {
    hide Listing, Holds, ImportsWithin, Find, NormalizeImport, Complete, Below, Elems;
    list', imported', at' := list, imported, at;
    var imp := Find(files, NormalizeImport(files[i].imports[x]));
    assert imp == Import(files, i, x);
    if imp.None? {
      return false, list', imported', at';
    }
    var nested, nestedAt := ListImportedFiles(files, imp.value, rank);
    if nested.None? {
      return false, list', imported', at';
    }
    list', imported', at' := AddFiles(files, nested.value, nestedAt, list', imported', at');
    BelowImports(files, rank, imp.value, at');
    list', imported', at' := AddFile(files, files[imp.value], imp.value, list', imported', at');
    ok := true;
  }

  lemma {:induction false} NothingListed(files: seq<File>)
    ensures Listing(files, []) && Holds(files, [], [], {})
  {
  }

  lemma {:induction false} HoldsListed(files: seq<File>, at: seq<nat>, list: seq<File>, imported: set<string>)
    requires Holds(files, at, list, imported)
    ensures |list| == |at| && forall k | 0 <= k < |at| :: at[k] < |files| && list[k] == files[at[k]]
  {
  }

  /** The inner loop, over what an imported file imports. */
  method AddFiles(
    files: seq<File>, nested: seq<File>, ghost nestedAt: seq<nat>,
    list: seq<File>, imported: set<string>, ghost at: seq<nat>)
    returns (list': seq<File>, imported': set<string>, ghost at': seq<nat>)
    requires Listing(files, at) && Holds(files, at, list, imported) && Listing(files, nestedAt)
    requires |nested| == |nestedAt| && forall k | 0 <= k < |nested| ::
        nestedAt[k] < |files| && nested[k] == files[nestedAt[k]]
    ensures Listing(files, at') && Holds(files, at', list', imported')
    ensures Elems(at') == Elems(at) + Elems(nestedAt)
  {
    hide *;
    assert nestedAt[..0] == [] && Elems([]) == {};
    list', imported', at' := list, imported, at;
    for n := 0 to |nested|
      invariant Listing(files, at') && Holds(files, at', list', imported')
      invariant Elems(at') == Elems(at) + Elems(nestedAt[..n])
    {
      Within(files, nestedAt, n, at');
      list', imported', at' := AddFile(files, nested[n], nestedAt[n], list', imported', at');
      assert nestedAt[..n + 1] == nestedAt[..n] + [nestedAt[n]];
      ElemsAppend(nestedAt[..n], nestedAt[n]);
    }
    assert nestedAt[..|nested|] == nestedAt;
  }

  lemma {:induction false} Within(files: seq<File>, listed: seq<nat>, n: nat, at: seq<nat>)
    requires Listing(files, listed) && n < |listed| && Elems(listed[..n]) <= Elems(at)
    ensures listed[n] < |files| && Find(files, files[listed[n]].name) == Some(listed[n])
    ensures ImportsWithin(files, listed[n], at)
  {
    assert ImportsWithin(files, listed[n], listed[..n]);
    assert forall j | j in listed[..n] :: j in Elems(listed[..n]);
  }

  lemma {:induction false} BelowImports(files: seq<File>, rank: seq<nat>, i: nat, at: seq<nat>)
    requires Acyclic(files, rank) && i < |files| && forall j | Below(files, rank, i, j) :: j in Elems(at)
    ensures ImportsWithin(files, i, at)
  {
    forall y | 0 <= y < |files[i].imports| && Import(files, i, y).Some? ensures Import(files, i, y).value in at {
      var j := Import(files, i, y).value;
      assert Via(files, rank, i, y, j);
      assert Below(files, rank, i, j) && j in Elems(at);
    }
  }
}
