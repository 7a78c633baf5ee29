/** Links without an item, which CopyEntryData follows from entry to entry: when that comes to an end. */
module SymlinkChains {
  import opened Wrappers
  import opened StatSegment
  import opened StatCopies

  /** The entry that a link without an item leads to. */
  function Hop(seg: Segment, e: int): Option<nat>
  {
    if IsLink(seg, e) && SymlinkIndexes(UnionData(seg, e)).1 == NO_ITEM then LinkTarget(seg, e) else None
  }

  /** The entry after n such links from e, if there are that many. */
  function After(seg: Segment, e: nat, n: nat): Option<nat>
  {
    if n == 0 then Some(e) else var last :- After(seg, e, n - 1); Hop(seg, last)
  }

  /** The chain of links from e comes back to an entry. */
  ghost predicate Revisits(seg: Segment, e: nat)
  {
    exists i: nat, j: nat | i < j :: After(seg, e, i).Some? && After(seg, e, i) == After(seg, e, j)
  }

  lemma {:induction false} AfterHop(seg: Segment, e: nat, n: nat)
    requires Hop(seg, e).Some?
    ensures After(seg, e, n + 1) == After(seg, Hop(seg, e).value, n)
  {
    if n > 0 {
      AfterHop(seg, e, n - 1);
    }
  }

  lemma {:induction false} CopyHop(seg: Segment, e: nat, steps: nat)
    ensures Hop(seg, e).Some? ==> Copy(seg, e, NO_ITEM, 0) == OutOfSteps
    ensures Hop(seg, e).Some? ==> Copy(seg, e, NO_ITEM, steps + 1) == Copy(seg, Hop(seg, e).value, NO_ITEM, steps)
    ensures Hop(seg, e).None? ==> Copy(seg, e, NO_ITEM, steps + 1) != OutOfSteps
  {
    if IsLink(seg, e) && LinkTarget(seg, e).Some? {
      var t, i2 := LinkTarget(seg, e).value, SymlinkIndexes(UnionData(seg, e)).1;
      assert Copy(seg, e, NO_ITEM, steps + 1) == Copy(seg, t, i2, steps);
    }
  }

  /** With fewer steps than there are links the read does not end, and with one for the last of them it does. */
  lemma {:induction false} StepsNeeded(seg: Segment, e: nat, steps: nat)
    ensures After(seg, e, steps + 1).Some? ==> Copy(seg, e, NO_ITEM, steps) == OutOfSteps
    ensures After(seg, e, steps + 1).None? ==> Copy(seg, e, NO_ITEM, steps + 1) != OutOfSteps
    decreases steps
  {
    hide Copy, Hop;
    CopyHop(seg, e, steps);
    FirstHop(seg, e, steps);
    if Hop(seg, e).Some? && steps > 0 {
      CopyHop(seg, e, steps - 1);
      AfterHop(seg, e, steps);
      StepsNeeded(seg, Hop(seg, e).value, steps - 1);
    }
  }

  lemma {:induction false} FirstHop(seg: Segment, e: nat, n: nat)
    ensures Hop(seg, e).None? ==> After(seg, e, n + 1).None?
    ensures After(seg, e, 1) == Hop(seg, e)
  {
    assert After(seg, e, 0) == Some(e);
    if n > 0 {
      FirstHop(seg, e, n - 1);
    }
  }

  lemma {:induction false} EarlierExists(seg: Segment, e: nat, i: nat, n: nat)
    requires i <= n && After(seg, e, n).Some?
    ensures After(seg, e, i).Some?
  {
    if i < n {
      EarlierExists(seg, e, i, n - 1);
    }
  }

  /** A chain that comes back goes round for ever. */
  lemma {:induction false} GoesRound(seg: Segment, e: nat, i: nat, j: nat, n: nat)
    requires i < j && After(seg, e, i).Some? && After(seg, e, i) == After(seg, e, j)
    ensures After(seg, e, n).Some?
    ensures n >= j ==> After(seg, e, n) == After(seg, e, n - (j - i))
    decreases n
  {
    hide After, Hop;
    if n <= j {
      EarlierExists(seg, e, n, j);
    } else {
      GoesRound(seg, e, i, j, n - 1);
      SameNext(seg, e, n - 1, n - 1 - (j - i));
      GoesRound(seg, e, i, j, n - (j - i));
    }
  }

  lemma {:induction false} SameNext(seg: Segment, e: nat, m: nat, n: nat)
    requires After(seg, e, m) == After(seg, e, n)
    ensures After(seg, e, m + 1) == After(seg, e, n + 1)
  {
  }

  // ---------------------------------------------------------------- there are only 2^32 targets

  lemma {:induction false} TargetIndex(seg: Segment, e: nat, n: nat) returns (index: nat)
    requires n > 0 && After(seg, e, n).Some?
    ensures DirectoryVector(seg).Some? && index < TWO32
    ensures After(seg, e, n).value == DirectoryVector(seg).value + index * ENTRY_SIZE
  {
    var last := After(seg, e, n - 1).value;
    index := SymlinkIndexes(UnionData(seg, last)).0;
  }

  lemma {:induction false} SmallSet(s: set<nat>, n: nat)
    requires forall x | x in s :: x < n
    ensures |s| <= n
    decreases n
  {
    if n == 0 {
      assert s == {};
    } else {
      var rest := s - {n - 1};
      SmallSet(rest, n - 1);
      if n - 1 in s {
        assert s == rest + {n - 1};
      } else {
        assert s == rest;
      }
    }
  }

  /** Entry x of the directory is among the first n targets. */
  ghost predicate Among(seg: Segment, e: nat, n: nat, x: nat)
  {
    DirectoryVector(seg).Some? &&
    exists k: nat | 0 < k <= n :: After(seg, e, k) == Some(DirectoryVector(seg).value + x * ENTRY_SIZE)
  }

  /** The indexes of n distinct targets. */
  lemma {:induction false} DistinctTargets(seg: Segment, e: nat, n: nat) returns (s: set<nat>)
    requires After(seg, e, n).Some? && !Revisits(seg, e)
    ensures |s| == n && forall x | x in s :: x < TWO32 && Among(seg, e, n, x)
    decreases n
  {
    hide Revisits, After, Hop, Among;
    s := {};
    if n > 0 {
      EarlierExists(seg, e, n - 1, n);
      s := DistinctTargets(seg, e, n - 1);
      var index := TargetIndex(seg, e, n);
      if index in s {
        SameTarget(seg, e, n, index);
      }
      forall x | x in s ensures Among(seg, e, n, x) {
        MoreAmong(seg, e, n, x);
      }
      LastAmong(seg, e, n, index);
      s := s + {index};
    }
  }

  lemma {:induction false} SameTarget(seg: Segment, e: nat, n: nat, index: nat)
    requires n > 0 && Among(seg, e, n - 1, index)
    requires After(seg, e, n) == Some(DirectoryVector(seg).value + index * ENTRY_SIZE)
    ensures Revisits(seg, e)
  {
    var k: nat :| 0 < k <= n - 1 && After(seg, e, k) == Some(DirectoryVector(seg).value + index * ENTRY_SIZE);
    ComesBack(seg, e, k, n);
  }

  lemma {:induction false} MoreAmong(seg: Segment, e: nat, n: nat, x: nat)
    requires n > 0 && Among(seg, e, n - 1, x)
    ensures Among(seg, e, n, x)
  {
  }

  lemma {:induction false} LastAmong(seg: Segment, e: nat, n: nat, x: nat)
    requires n > 0 && DirectoryVector(seg).Some?
    requires After(seg, e, n) == Some(DirectoryVector(seg).value + x * ENTRY_SIZE)
    ensures Among(seg, e, n, x)
  {
  }

  lemma {:induction false} ComesBack(seg: Segment, e: nat, i: nat, j: nat)
    requires i < j && After(seg, e, i).Some? && After(seg, e, i) == After(seg, e, j)
    ensures Revisits(seg, e)
  {
  }

  /** A chain that never comes back ends. */
  lemma {:induction false} MustEnd(seg: Segment, e: nat)
    requires !Revisits(seg, e)
    ensures After(seg, e, TWO32 + 1).None?
  {
    if After(seg, e, TWO32 + 1).Some? {
      var s := DistinctTargets(seg, e, TWO32 + 1);
      SmallSet(s, TWO32);
    }
  }

  /**
   Reading an entry ends exactly if the chain of links without an item that starts there does not come back to
   an entry; then 2^32 + 1 steps of recursion are enough.
   */
  lemma {:induction false} ReadingEndsExactly(seg: Segment, e: nat)
    ensures (exists steps: nat :: Copy(seg, e, NO_ITEM, steps) != OutOfSteps) <==> !Revisits(seg, e)
    ensures !Revisits(seg, e) ==> Copy(seg, e, NO_ITEM, TWO32 + 1) != OutOfSteps
  {
    hide Copy, After;
    if Revisits(seg, e) {
      var i: nat, j: nat :| i < j && After(seg, e, i).Some? && After(seg, e, i) == After(seg, e, j);
      forall steps: nat ensures Copy(seg, e, NO_ITEM, steps) == OutOfSteps {
        GoesRound(seg, e, i, j, steps + 1);
        StepsNeeded(seg, e, steps);
      }
    } else {
      MustEnd(seg, e);
      StepsNeeded(seg, e, TWO32);
    }
  }

  /** Two links that name each other, and a link to itself, are such chains. */
  lemma {:induction false} PairNeverEnds(seg: Segment, e: nat, f: nat, steps: nat)
    requires Hop(seg, e) == Some(f) && Hop(seg, f) == Some(e)
    ensures Copy(seg, e, NO_ITEM, steps) == OutOfSteps
  {
    AfterHop(seg, e, 1);
    FirstHop(seg, f, 0);
    assert After(seg, e, 0) == Some(e) == After(seg, e, 2);
    ComesBack(seg, e, 0, 2);
    ReadingEndsExactly(seg, e);
  }
}
