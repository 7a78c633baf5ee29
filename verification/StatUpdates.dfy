/** Refreshing copied entries in place, and when that is the same as copying them again. */
module StatUpdates {
  import opened Wrappers
  import opened Bytes
  import opened StatSegment
  import opened StatCopies

  /** Panics stands for writing behind the end of a held name. */
  datatype Updated = Refreshed | LenIncorrect | Panics

  // ---------------------------------------------------------------- what an update leaves

  /** Rows that can be read are replaced; a pointer out of range leaves the old row. */
  function Rows(seg: Segment, v: int, combined: bool, rows: seq<seq<Counter>>): (r: seq<seq<Counter>>)
    requires VecLen(seg, v) <= |rows|
    ensures |r| == |rows|
  {
    seq(|rows|, i requires 0 <= i < |rows| =>
      if i < VecLen(seg, v) && Element(seg, v, i).Some? then Row(seg, Element(seg, v, i).value, combined) else rows[i])
  }

  /** The bytes in front of the first NUL, then what was there. */
  function Overlay(name: bytes, raw: bytes): (r: bytes)
    requires |CutAtNul(raw)| <= |name|
    ensures |r| == |name|
  {
    CutAtNul(raw) + name[|CutAtNul(raw)|..]
  }

  /** Names from worker i on, one after the other; a mismatch stops with the names before it overwritten. */
  function Names(seg: Segment, v: int, names: seq<bytes>, i: nat): (r: (Updated, seq<bytes>))
    requires VecLen(seg, v) <= |names|
    ensures |r.1| == |names|
    decreases VecLen(seg, v) - i
  {
    if i >= VecLen(seg, v) then (Refreshed, names)
    else if Element(seg, v, i).None? then Names(seg, v, names, i + 1)
    else
      var raw := NameBytes(seg, Element(seg, v, i).value);
      if (|names[i]| % TWO32 + 1) % TWO32 != |raw| then (LenIncorrect, names)
      else if |CutAtNul(raw)| > |names[i]| then (Panics, names[i := raw[..|names[i]|]])
      else Names(seg, v, names[i := Overlay(names[i], raw)], i + 1)
  }

  function Update(seg: Segment, e: int, held: Stat): (Updated, Stat)
  {
    var w := UnionData(seg, e);
    match held
    case ScalarStat(_) => (Refreshed, ScalarStat(w))
    case ErrorStat(_) =>
      var v := ErrorVector(seg);
      (Refreshed, if v.None? then held else ErrorStat(ErrorsFrom(seg, v.value, w, 0)))
    case CounterStat(combined, rows) =>
      var v := Adjust(seg, w);
      if v.None? then (Refreshed, held)
      else if |rows| % TWO32 != VecLen(seg, v.value) then (LenIncorrect, held)
      else (Refreshed, CounterStat(combined, Rows(seg, v.value, combined, rows)))
    case NameStat(names) =>
      var v := Adjust(seg, w);
      if v.None? then (Refreshed, held)
      else if |names| % TWO32 != VecLen(seg, v.value) then (LenIncorrect, held)
      else var (result, left) := Names(seg, v.value, names, 0); (result, NameStat(left))
    case EmptyStat => (Refreshed, held)
  }

  /** A name of which the first j bytes are overwritten. */
  function Half(name: bytes, raw: bytes, j: nat): (r: bytes)
    requires j <= |name| && j <= |raw|
    ensures |r| == |name|
  {
    raw[..j] + name[j..]
  }

  lemma {:induction false} HalfStep(name: bytes, raw: bytes, j: nat)
    requires j < |name| && j < |raw|
    ensures Half(name, raw, j)[j := raw[j]] == Half(name, raw, j + 1)
  {
  }

  // ---------------------------------------------------------------- UpdateEntryData

  /** The variable that holds a stat; UpdateEntryData writes through a pointer to it. */
  class Holder {
    var stat: Stat

    constructor (stat: Stat)
      ensures this.stat == stat
    {
      this.stat := stat;
    }

    method UpdateCounters(seg: Segment, v: nat) returns (r: Updated)
      requires stat.CounterStat?
      modifies this
      ensures if |old(stat.rows)| % TWO32 != VecLen(seg, v) then r == LenIncorrect && stat == old(stat)
              else
                && r == Refreshed
                && stat == CounterStat(old(stat.combined), Rows(seg, v, old(stat.combined), old(stat.rows)))
    {
      var vecLen := VecLen(seg, v);
      if |stat.rows| % TWO32 != vecLen {
        return LenIncorrect;
      }
      ghost var want := Rows(seg, v, stat.combined, stat.rows);
      for i := 0 to vecLen
        invariant stat.CounterStat? && stat.combined == old(stat.combined) && |stat.rows| == |want| && vecLen <= |want|
        invariant forall k | 0 <= k < |want| :: stat.rows[k] == if k < i then want[k] else old(stat.rows)[k]
      {
        var counterVector := Element(seg, v, i);
        if counterVector.Some? {
          var row := CopyRow(seg, counterVector.value, stat.combined);
          stat := stat.(rows := stat.rows[i := row]);
        }
      }
      assert stat.rows == want;
      return Refreshed;
    }

    /** Overwrites name i byte by byte up to the first NUL; false if that runs over its end. */
    method UpdateName(raw: bytes, i: nat) returns (ok: bool)
      requires stat.NameStat? && i < |stat.names|
      modifies this
      ensures ok <==> |CutAtNul(raw)| <= |old(stat.names)[i]|
      ensures stat == NameStat(old(stat.names)[i :=
        if ok then Overlay(old(stat.names)[i], raw) else raw[..|old(stat.names)[i]|]])
    {
      ghost var was, name := stat.names, stat.names[i];
      assert Half(name, raw, 0) == name && was[i := name] == was;
      for j := 0 to |raw|
        invariant j <= |CutAtNul(raw)| && j <= |name|
        invariant stat == NameStat(was[i := Half(name, raw, j)])
      {
        if raw[j] == 0 {
          CutStops(raw, j);
          return true;
        }
        CutGoesOn(raw, j);
        if j == |stat.names[i]| {
          assert Half(name, raw, j) == raw[..j];
          return false;
        }
        HalfStep(name, raw, j);
        stat := NameStat(stat.names[i := stat.names[i][j := raw[j]]]);
      }
      assert CutAtNul(raw) == raw && raw[..|raw|] == raw;
      return true;
    }

    method UpdateNames(seg: Segment, v: nat) returns (r: Updated)
      requires stat.NameStat?
      modifies this
      ensures if |old(stat.names)| % TWO32 != VecLen(seg, v) then r == LenIncorrect && stat == old(stat)
              else (r, stat) == (Names(seg, v, old(stat.names), 0).0, NameStat(Names(seg, v, old(stat.names), 0).1))
    {
      var vecLen := VecLen(seg, v);
      if |stat.names| % TWO32 != vecLen {
        return LenIncorrect;
      }
      for i := 0 to vecLen
        invariant stat.NameStat? && |stat.names| == |old(stat.names)| && vecLen <= |stat.names|
        invariant Names(seg, v, stat.names, i) == Names(seg, v, old(stat.names), 0)
      {
        var nameVector := Element(seg, v, i);
        if nameVector.Some? {
          var raw := NameBytes(seg, nameVector.value);
          if (|stat.names[i]| % TWO32 + 1) % TWO32 != |raw| {
            return LenIncorrect;
          }
          var ok := UpdateName(raw, i);
          if !ok {
            return Panics;
          }
        }
      }
      return Refreshed;
    }

    method UpdateEntryData(seg: Segment, e: nat) returns (r: Updated)
      modifies this
      ensures (r, stat) == Update(seg, e, old(stat))
    {
      var w := UnionData(seg, e);
      match stat {
        case ScalarStat(_) =>
          stat := ScalarStat(w);
        case ErrorStat(_) =>
          var v := ErrorVector(seg);
          if v.Some? {
            var errData := CopyErrors(seg, v.value, w);
            stat := ErrorStat(errData);
          }
        case CounterStat(_, _) =>
          var v := Adjust(seg, w);
          if v.Some? {
            r := UpdateCounters(seg, v.value);
            return;
          }
        case NameStat(_) =>
          var v := Adjust(seg, w);
          if v.Some? {
            r := UpdateNames(seg, v.value);
            return;
          }
        case EmptyStat =>
      }
      return Refreshed;
    }
  }

  lemma {:induction false} CutStops(raw: bytes, j: nat)
    requires j < |raw| && j <= |CutAtNul(raw)| && raw[j] == 0
    ensures CutAtNul(raw) == raw[..j]
  {
  }

  lemma {:induction false} CutGoesOn(raw: bytes, j: nat)
    requires j < |raw| && j <= |CutAtNul(raw)| && raw[j] != 0
    ensures j < |CutAtNul(raw)|
  {
  }

  // ---------------------------------------------------------------- update and fresh copy

  /** The held data is of the kind that a copy of the entry has. */
  predicate SameType(held: Stat, typ: StatType)
  {
    match held
    case ScalarStat(_) => typ.ScalarIndex?
    case ErrorStat(_) => typ.ErrorIndex?
    case CounterStat(combined, _) => typ == if combined then CombinedCounterVector else SimpleCounterVector
    case NameStat(_) => typ.NameVector?
    case EmptyStat => typ.EmptyType?
  }

  /** The entry's own vector and each vector it points to lie in the segment. */
  predicate PointersInRange(seg: Segment, e: int)
  {
    UnionData(seg, e) != 0 &&
    var v := Adjust(seg, UnionData(seg, e));
    v.Some? && forall i | 0 <= i < VecLen(seg, v.value) :: Element(seg, v.value, i).Some?
  }

  /** One NUL, at the end. */
  predicate Terminated(raw: bytes)
  {
    raw != [] && raw[|raw| - 1] == 0 && 0 !in raw[..|raw| - 1]
  }

  predicate NamesTerminated(seg: Segment, v: nat)
  {
    forall i | 0 <= i < VecLen(seg, v) && Element(seg, v, i).Some? ::
        Terminated(NameBytes(seg, Element(seg, v, i).value))
  }

  /** What fits the lengths of Go slices that are compared in 32 bits. */
  predicate Sized(held: Stat)
  {
    match held
    case CounterStat(_, rows) => |rows| < TWO32
    case NameStat(names) => |names| < TWO32 && forall i | 0 <= i < |names| :: |names[i]| < TWO32 - 1
    case ScalarStat(_) => true
    case ErrorStat(_) => true
    case EmptyStat => true
  }

  /** The held rows and names have the lengths that are in the segment now. */
  predicate SameShape(seg: Segment, v: nat, held: Stat)
  {
    match held
    case CounterStat(_, rows) => |rows| == VecLen(seg, v)
    case NameStat(names) =>
      && |names| == VecLen(seg, v)
      && forall i | 0 <= i < VecLen(seg, v) && Element(seg, v, i).Some? ::
        |names[i]| + 1 == VecLen(seg, Element(seg, v, i).value)
    case ScalarStat(_) => true
    case ErrorStat(_) => true
    case EmptyStat => true
  }

  lemma {:induction false} CutTerminated(raw: bytes)
    requires Terminated(raw)
    ensures CutAtNul(raw) == NonZero(raw) == raw[..|raw| - 1]
  {
    var text := raw[..|raw| - 1];
    CutPaddedString(text, 1);
    NonZeroAppend(text, 0);
    assert raw == text + [0] == text + Zeros(1);
  }

  lemma {:induction false} OverlayTerminated(name: bytes, raw: bytes)
    requires Terminated(raw) && |name| + 1 == |raw|
    ensures |CutAtNul(raw)| <= |name| && Overlay(name, raw) == NonZero(raw)
  {
    CutTerminated(raw);
  }

  predicate LengthsFit(seg: Segment, v: nat, names: seq<bytes>, i: nat)
    requires forall k | i <= k < |names| :: Element(seg, v, k).Some?
  {
    forall k | i <= k < |names| :: |names[k]| + 1 == VecLen(seg, Element(seg, v, k).value)
  }

  lemma {:induction false} LengthsFitStep(seg: Segment, v: nat, names: seq<bytes>, i: nat, name: bytes)
    requires i < |names| && forall k | i <= k < |names| :: Element(seg, v, k).Some?
    ensures LengthsFit(seg, v, names, i) <==>
      |names[i]| + 1 == VecLen(seg, Element(seg, v, i).value) && LengthsFit(seg, v, names[i := name], i + 1)
  {
    var next := names[i := name];
    assert forall k | i + 1 <= k < |names| :: next[k] == names[k];
  }

  /** All names from i on: refreshed to what a copy gives, exactly when every length agrees. */
  lemma {:induction false} NamesRefreshed(seg: Segment, v: nat, names: seq<bytes>, i: nat)
    requires VecLen(seg, v) == |names| && i <= |names|
    requires forall k | i <= k < |names| :: |names[k]| < TWO32 - 1
    requires NamesTerminated(seg, v) && forall k | i <= k < |names| :: Element(seg, v, k).Some?
    ensures var (r, left) := Names(seg, v, names, i);
      && (r == Refreshed <==> LengthsFit(seg, v, names, i))
      && (r == Refreshed ==> left == names[..i] + NameTable(seg, v)[i..])
      && r != Panics
    decreases |names| - i
  {
    hide CutAtNul, NonZero, Overlay, Element, VecLen, Terminated, ReadAt, NamesTerminated, NameTable, NameBytes, Names;
    if i < |names| {
      var name := NonZero(NameBytes(seg, Element(seg, v, i).value));
      NamesStep(seg, v, names, i);
      LengthsFitStep(seg, v, names, i, names[i]);
      if |names[i]| + 1 == VecLen(seg, Element(seg, v, i).value) {
        LengthsFitStep(seg, v, names, i, name);
        TableAt(seg, v, i);
        hide LengthsFit;
        NamesRefreshed(seg, v, names[i := name], i + 1);
        Advance(names, NameTable(seg, v), i);
      }
    } else {
      assert names == names[..i] + NameTable(seg, v)[i..];
      NamesEnd(seg, v, names);
    }
  }

  lemma {:induction false} NamesEnd(seg: Segment, v: nat, names: seq<bytes>)
    requires VecLen(seg, v) == |names|
    ensures Names(seg, v, names, |names|) == (Refreshed, names)
  {
  }

  /** One name: refreshed to what a copy gives, or refused for its length. */
  lemma {:induction false} NamesStep(seg: Segment, v: nat, names: seq<bytes>, i: nat)
    requires VecLen(seg, v) == |names| && i < |names| && |names[i]| < TWO32 - 1
    requires NamesTerminated(seg, v) && Element(seg, v, i).Some?
    ensures var raw := NameBytes(seg, Element(seg, v, i).value);
      && |raw| == VecLen(seg, Element(seg, v, i).value)
      && (|names[i]| + 1 == |raw| ==> |NonZero(raw)| == |names[i]|)
      && Names(seg, v, names, i) ==
        if |names[i]| + 1 == |raw| then Names(seg, v, names[i := NonZero(raw)], i + 1) else (LenIncorrect, names)
  {
    hide CutAtNul, NonZero, Overlay, Element, VecLen, Terminated, ReadAt;
    var raw := NameBytes(seg, Element(seg, v, i).value);
    if |names[i]| + 1 == |raw| {
      OverlayTerminated(names[i], raw);
    }
  }

  lemma {:induction false} TableAt(seg: Segment, v: nat, i: nat)
    requires i < VecLen(seg, v) && Element(seg, v, i).Some?
    ensures NameTable(seg, v)[i] == NonZero(NameBytes(seg, Element(seg, v, i).value))
  {
  }

  lemma {:induction false} Advance(names: seq<bytes>, table: seq<bytes>, i: nat)
    requires i < |names| == |table|
    ensures names[i := table[i]][..i + 1] + table[i + 1..] == names[..i] + table[i..]
  {
  }

  /**
   With the type unchanged, pointers in range and names ending in their only NUL: the update of counters and names
   succeeds exactly when the lengths are unchanged, that of a scalar or of errors always, and then leaves just what a
   fresh copy would give.
   */
  lemma {:induction false} UpdateIsFreshCopy(seg: Segment, e: nat, held: Stat, steps: nat)
    requires SameType(held, TypeOf(seg, e)) && Sized(held)
    requires held.CounterStat? || held.NameStat? ==> PointersInRange(seg, e)
    requires held.NameStat? ==> NamesTerminated(seg, Adjust(seg, UnionData(seg, e)).value)
    ensures var (r, now) := Update(seg, e, held);
      && r != Panics
      && (r == Refreshed ==> Copy(seg, e, NO_ITEM, steps) == Value(now))
      && (held.CounterStat? || held.NameStat? ==>
            (r == Refreshed <==> SameShape(seg, Adjust(seg, UnionData(seg, e)).value, held)))
      && (held.ScalarStat? || held.ErrorStat? || held.EmptyStat? ==> r == Refreshed)
  {
    hide Word, ReadAt, VecLen, Element, Adjust, Rows, Table, NameTable, Names;
    CopyUnlessLink(seg, e, steps);
    if held.CounterStat? {
      var v := Adjust(seg, UnionData(seg, e)).value;
      if |held.rows| == VecLen(seg, v) {
        RowsRefreshed(seg, v, held.combined, held.rows);
      }
    } else if held.NameStat? {
      var v := Adjust(seg, UnionData(seg, e)).value;
      if |held.names| == VecLen(seg, v) {
        NamesRefreshed(seg, v, held.names, 0);
        assert held.names[..0] + NameTable(seg, v)[0..] == NameTable(seg, v);
      }
    }
  }

  /** An entry whose data cannot be reached: a copy is nothing, and an update succeeds and leaves what was held. */
  lemma {:induction false} UnreachableIsKept(seg: Segment, e: nat, held: Stat, steps: nat)
    requires SameType(held, TypeOf(seg, e)) && (held.CounterStat? || held.NameStat?)
    requires UnionData(seg, e) == 0 || Adjust(seg, UnionData(seg, e)) == None
    ensures Copy(seg, e, NO_ITEM, steps) == Nothing
    ensures Adjust(seg, UnionData(seg, e)) == None ==> Update(seg, e, held) == (Refreshed, held)
  {
    CopyUnlessLink(seg, e, steps);
  }

  lemma {:induction false} CopyUnlessLink(seg: Segment, e: int, steps: nat)
    requires !TypeOf(seg, e).SymlinkType?
    ensures Copy(seg, e, NO_ITEM, steps) == CopyPlain(seg, e, NO_ITEM)
  {
  }

  lemma {:induction false} RowsRefreshed(seg: Segment, v: nat, combined: bool, rows: seq<seq<Counter>>)
    requires |rows| == VecLen(seg, v) && forall i | 0 <= i < VecLen(seg, v) :: Element(seg, v, i).Some?
    ensures Rows(seg, v, combined, rows) == Table(seg, v, combined)
  {
    assert forall i | 0 <= i < |rows| :: Element(seg, v, i).Some? || rows[i] == [];
    RowsExactly(seg, v, combined, rows);
  }

  /** Without pointers in range: refreshed rows equal copied ones exactly when the unreadable rows were empty. */
  lemma {:induction false} RowsExactly(seg: Segment, v: nat, combined: bool, rows: seq<seq<Counter>>)
    requires |rows| == VecLen(seg, v)
    ensures Rows(seg, v, combined, rows) == Table(seg, v, combined) <==>
      forall i | 0 <= i < |rows| :: Element(seg, v, i).Some? || rows[i] == []
  {
    var now, copied := Rows(seg, v, combined, rows), Table(seg, v, combined);
    forall i | 0 <= i < |rows| ensures now[i] == copied[i] <==> Element(seg, v, i).Some? || rows[i] == [] {
    }
    if forall i | 0 <= i < |rows| :: Element(seg, v, i).Some? || rows[i] == [] {
      assert now == copied;
    }
  }

  /**
   A name with a NUL that is not its last byte: overwriting in place gives the copied name exactly when
   that NUL is the only one and the bytes behind it were in place already.
   */
  lemma {:induction false} NameExactly(name: bytes, raw: bytes)
    requires |name| + 1 == |raw| && 0 in raw
    ensures var z := |CutAtNul(raw)|;
      z < |raw| && (Overlay(name, raw) == NonZero(raw) <==> 0 !in raw[z + 1..] && name[z..] == raw[z + 1..])
  {
    var cut := CutAtNul(raw);
    var rest := raw[|cut| + 1..];
    assert raw == cut + ([0] + rest) && ([0] + rest)[1..] == rest;
    NonZeroSplit(cut, [0] + rest);
    assert NonZero(raw) == cut + NonZero(rest);
    assert Overlay(name, raw) == cut + name[|cut|..];
    SameTail(cut, name[|cut|..], NonZero(rest));
  }

  lemma {:induction false} SameTail(s: bytes, t: bytes, u: bytes)
    ensures s + t == s + u <==> t == u
  {
    assert (s + t)[|s|..] == t && (s + u)[|s|..] == u;
  }
}
