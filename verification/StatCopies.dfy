/** Copying an entry out of the segment, refreshing a copy in place, and following symlinks. */
module StatCopies {
  import opened Wrappers
  import opened Bytes
  import opened StatSegment

  datatype Counter = Single(n: nat) | Pair(packets: nat, octets: nat)

  /** A copied entry; rows are workers. Combined counters have two words. */
  datatype Stat =
    | ScalarStat(value: nat)
    | ErrorStat(counters: seq<nat>)
    | CounterStat(combined: bool, rows: seq<seq<Counter>>)
    | NameStat(names: seq<bytes>)
    | EmptyStat

  /** What CopyEntryData gives: a stat, nothing (nil), a read through a nil directory, or no end in the given steps. */
  datatype Copied = Value(stat: Stat) | Nothing | Fault | OutOfSteps

  // ---------------------------------------------------------------- what is in the segment

  function CounterAt(seg: Segment, v: int, j: nat, combined: bool): Counter
  {
    if combined then Pair(Word(seg, v + 16 * j), Word(seg, v + 16 * j + 8)) else Single(Word(seg, v + 8 * j))
  }

  function Zero(combined: bool): Counter { if combined then Pair(0, 0) else Single(0) }

  /** One worker's vector in full. */
  function Row(seg: Segment, v: int, combined: bool): (r: seq<Counter>)
    ensures |r| == VecLen(seg, v)
  {
    seq(VecLen(seg, v), j requires 0 <= j => CounterAt(seg, v, j, combined))
  }

  /** The counters of all workers; a pointer out of range leaves an empty row. */
  function Table(seg: Segment, v: int, combined: bool): (t: seq<seq<Counter>>)
    ensures |t| == VecLen(seg, v)
  {
    seq(VecLen(seg, v), i requires 0 <= i =>
      if Element(seg, v, i).None? then [] else Row(seg, Element(seg, v, i).value, combined))
  }

  /** One item of every worker, zero where a worker has fewer items. */
  function Column(seg: Segment, v: int, combined: bool, item: nat): (t: seq<seq<Counter>>)
    ensures |t| == VecLen(seg, v)
  {
    seq(VecLen(seg, v), i requires 0 <= i =>
      if Element(seg, v, i).None? then []
      else if item < VecLen(seg, Element(seg, v, i).value) then
        [CounterAt(seg, Element(seg, v, i).value, item, combined)]
      else [Zero(combined)])
  }

  /** The error counters from worker i on; workers whose pointer is out of range are skipped. */
  function ErrorsFrom(seg: Segment, v: int, item: nat, i: nat): seq<nat>
    decreases VecLen(seg, v) - i
  {
    if i >= VecLen(seg, v) then []
    else if Element(seg, v, i).None? then ErrorsFrom(seg, v, item, i + 1)
    else [Word(seg, Element(seg, v, i).value + 8 * item)] + ErrorsFrom(seg, v, item, i + 1)
  }

  function NonZero(s: bytes): (r: bytes)
    ensures |r| <= |s|
    ensures |r| == |s| <==> 0 !in s
    ensures 0 !in s ==> r == s
  {
    if s == [] then [] else if s[0] == 0 then NonZero(s[1..]) else [s[0]] + NonZero(s[1..])
  }

  /** The bytes of one name, with everything around and behind a NUL. */
  function NameBytes(seg: Segment, v: int): bytes
  {
    ReadAt(seg, v, VecLen(seg, v))
  }

  function NameTable(seg: Segment, v: int): (t: seq<bytes>)
    ensures |t| == VecLen(seg, v)
  {
    seq(VecLen(seg, v), i requires 0 <= i =>
      if Element(seg, v, i).None? then [] else NonZero(NameBytes(seg, Element(seg, v, i).value)))
  }

  // ---------------------------------------------------------------- CopyEntryData

  function CopyPlain(seg: Segment, e: int, item: nat): Copied
  {
    var typ := TypeOf(seg, e);
    var w := UnionData(seg, e);
    if typ.ScalarIndex? then Value(ScalarStat(w))
    else if typ.ErrorIndex? then
      var v := ErrorVector(seg);
      if v.None? then Nothing else Value(ErrorStat(ErrorsFrom(seg, v.value, w, 0)))
    else if typ.EmptyType? then Value(EmptyStat)
    else if w == 0 then Nothing
    else if typ.SimpleCounterVector? || typ.CombinedCounterVector? then
      var v := Adjust(seg, w);
      if v.None? then Nothing
      else if item == NO_ITEM then
        Value(CounterStat(typ.CombinedCounterVector?, Table(seg, v.value, typ.CombinedCounterVector?)))
      else Value(CounterStat(typ.CombinedCounterVector?, Column(seg, v.value, typ.CombinedCounterVector?, item)))
    else if typ.NameVector? then
      var v := Adjust(seg, w);
      if v.None? then Nothing else Value(NameStat(NameTable(seg, v.value)))
    else Nothing
  }

  /** An entry that CopyEntryData follows, when it is not itself reached through a link to an item. */
  predicate IsLink(seg: Segment, e: int)
  {
    TypeOf(seg, e).SymlinkType? && UnionData(seg, e) != 0
  }

  /** The entry a link names; its index is not compared with the length of the directory. */
  function LinkTarget(seg: Segment, e: int): (t: Option<nat>)
  {
    if DirectoryVector(seg).None? then None
    else Some(DirectoryVector(seg).value + SymlinkIndexes(UnionData(seg, e)).0 * ENTRY_SIZE)
  }

  /** CopyEntryData, following at most the given number of links. */
  function Copy(seg: Segment, e: int, item: nat, steps: nat): Copied
    decreases steps
  {
    if !IsLink(seg, e) then CopyPlain(seg, e, item)
    else if item != NO_ITEM then Nothing
    else if LinkTarget(seg, e).None? then Fault
    else if steps == 0 then OutOfSteps
    else Copy(seg, LinkTarget(seg, e).value, SymlinkIndexes(UnionData(seg, e)).1, steps - 1)
  }

  method CopyErrors(seg: Segment, v: nat, item: nat) returns (errData: seq<nat>)
    ensures errData == ErrorsFrom(seg, v, item, 0)
  {
    errData := [];
    assert [] + ErrorsFrom(seg, v, item, 0) == ErrorsFrom(seg, v, item, 0);
    var vecLen := VecLen(seg, v);
    for i := 0 to vecLen
      invariant errData + ErrorsFrom(seg, v, item, i) == ErrorsFrom(seg, v, item, 0)
    {
      var c := Element(seg, v, i);
      if c.Some? {
        var val := Word(seg, c.value + 8 * item);
        assert errData + ([val] + ErrorsFrom(seg, v, item, i + 1)) ==
            (errData + [val]) + ErrorsFrom(seg, v, item, i + 1);
        errData := errData + [val];
      }
    }
  }

  method CopyRow(seg: Segment, v: nat, combined: bool) returns (row: seq<Counter>)
    ensures row == Row(seg, v, combined)
  {
    row := [];
    for j := 0 to VecLen(seg, v)
      invariant |row| == j && forall k | 0 <= k < j :: row[k] == CounterAt(seg, v, k, combined)
    {
      row := row + [CounterAt(seg, v, j, combined)];
    }
  }

  method CopyItem(seg: Segment, v: nat, combined: bool, item: nat) returns (row: seq<Counter>)
    ensures row == [if item < VecLen(seg, v) then CounterAt(seg, v, item, combined) else Zero(combined)]
  {
    row := [Zero(combined)];
    for j := 0 to VecLen(seg, v)
      invariant row == [Zero(combined)] && j <= item
    {
      if item == j {
        row := [CounterAt(seg, v, j, combined)];
        break;
      }
    }
  }

  method CopyCounters(seg: Segment, v: nat, combined: bool, item: nat) returns (data: seq<seq<Counter>>)
    ensures data == if item == NO_ITEM then Table(seg, v, combined) else Column(seg, v, combined, item)
  {
    ghost var want := if item == NO_ITEM then Table(seg, v, combined) else Column(seg, v, combined, item);
    var vecLen := VecLen(seg, v);
    data := seq(vecLen, _ => []);
    for i := 0 to vecLen
      invariant |data| == vecLen && forall k | 0 <= k < vecLen :: data[k] == if k < i then want[k] else []
    {
      var counterVector := Element(seg, v, i);
      if counterVector.Some? {
        var row;
        if item == NO_ITEM {
          row := CopyRow(seg, counterVector.value, combined);
        } else {
          row := CopyItem(seg, counterVector.value, combined, item);
        }
        data := data[i := row];
      }
    }
  }

  method CopyName(seg: Segment, v: nat) returns (name: bytes)
    ensures name == NonZero(NameBytes(seg, v))
  {
    var raw := NameBytes(seg, v);
    name := [];
    for j := 0 to |raw|
      invariant name == NonZero(raw[..j])
    {
      NonZeroAppend(raw[..j], raw[j]);
      assert raw[..j + 1] == raw[..j] + [raw[j]];
      if raw[j] > 0 {
        name := name + [raw[j]];
      }
    }
    assert raw[..|raw|] == raw;
  }

  lemma {:induction false} NonZeroSplit(s: bytes, t: bytes)
    ensures NonZero(s + t) == NonZero(s) + NonZero(t)
  {
    if s == [] {
      assert s + t == t;
    } else {
      NonZeroSplit(s[1..], t);
      assert (s + t)[0] == s[0] && (s + t)[1..] == s[1..] + t;
      if s[0] != 0 {
        Reassociate([s[0]], NonZero(s[1..]), NonZero(t));
      }
    }
  }

  lemma {:induction false} Reassociate(a: bytes, b: bytes, c: bytes)
    ensures (a + b) + c == a + (b + c)
  {
  }

  lemma {:induction false} NonZeroAppend(s: bytes, x: byte)
    ensures NonZero(s + [x]) == NonZero(s) + if x == 0 then [] else [x]
  {
    NonZeroSplit(s, [x]);
    assert [x][1..] == [];
  }

  method CopyNames(seg: Segment, v: nat) returns (data: seq<bytes>)
    ensures data == NameTable(seg, v)
  {
    ghost var want := NameTable(seg, v);
    var vecLen := VecLen(seg, v);
    data := seq(vecLen, _ => []);
    for i := 0 to vecLen
      invariant |data| == vecLen && forall k | 0 <= k < vecLen :: data[k] == if k < i then want[k] else []
    {
      var nameVector := Element(seg, v, i);
      if nameVector.Some? {
        var name := CopyName(seg, nameVector.value);
        data := data[i := name];
      }
    }
  }

  method CopyEntryData(seg: Segment, e: nat, item: nat, steps: nat) returns (r: Copied)
    ensures r == Copy(seg, e, item, steps)
    decreases steps
  {
    var typ := TypeOf(seg, e);
    var w := UnionData(seg, e);
    if !typ.ScalarIndex? && !typ.EmptyType? && !typ.ErrorIndex? && w == 0 {
      return Nothing;
    }
    match typ {
      case ScalarIndex =>
        return Value(ScalarStat(w));
      case ErrorIndex =>
        var v := ErrorVector(seg);
        if v.None? {
          return Nothing;
        }
        var errData := CopyErrors(seg, v.value, w);
        return Value(ErrorStat(errData));
      case SimpleCounterVector =>
        var v := Adjust(seg, w);
        if v.None? {
          return Nothing;
        }
        var data := CopyCounters(seg, v.value, false, item);
        return Value(CounterStat(false, data));
      case CombinedCounterVector =>
        var v := Adjust(seg, w);
        if v.None? {
          return Nothing;
        }
        var data := CopyCounters(seg, v.value, true, item);
        return Value(CounterStat(true, data));
      case NameVector =>
        var v := Adjust(seg, w);
        if v.None? {
          return Nothing;
        }
        var data := CopyNames(seg, v.value);
        return Value(NameStat(data));
      case EmptyType =>
        return Value(EmptyStat);
      case SymlinkType =>
        if item != NO_ITEM {
          return Nothing;
        }
        var i1, i2 := GetSymlinkIndexes(w);
        var dirVector := DirectoryVector(seg);
        if dirVector.None? {
          return Fault;
        }
        if steps == 0 {
          return OutOfSteps;
        }
        r := CopyEntryData(seg, dirVector.value + i1 * ENTRY_SIZE, i2, steps - 1);
      case UnknownType =>
        return Nothing;
    }
  }

  // ---------------------------------------------------------------- symlinks

  /** A link to an item needs one step whatever it names; with it the read ends, and links add no more depth. */
  lemma {:induction false} OneLinkIsEnough(seg: Segment, e: int, steps: nat)
    requires IsLink(seg, e)
    ensures Copy(seg, e, NO_ITEM, 1) == OutOfSteps <==>
      && LinkTarget(seg, e).Some?
      && SymlinkIndexes(UnionData(seg, e)).1 == NO_ITEM
      && IsLink(seg, LinkTarget(seg, e).value)
    ensures Copy(seg, e, NO_ITEM, 1) != OutOfSteps ==> Copy(seg, e, NO_ITEM, steps + 1) == Copy(seg, e, NO_ITEM, 1)
  {
    if LinkTarget(seg, e).Some? {
      var t := LinkTarget(seg, e).value;
      assert Copy(seg, e, NO_ITEM, 1) == Copy(seg, t, SymlinkIndexes(UnionData(seg, e)).1, 0);
      assert Copy(seg, e, NO_ITEM, steps + 1) == Copy(seg, t, SymlinkIndexes(UnionData(seg, e)).1, steps);
    }
  }

  /** A link to itself without an item is followed for ever. */
  lemma {:induction false} SelfLinkNeverEnds(seg: Segment, e: nat, steps: nat)
    requires IsLink(seg, e) && LinkTarget(seg, e) == Some(e) && SymlinkIndexes(UnionData(seg, e)).1 == NO_ITEM
    ensures Copy(seg, e, NO_ITEM, steps) == OutOfSteps
  {
    if steps > 0 {
      SelfLinkNeverEnds(seg, e, steps - 1);
    }
  }

  /** Directory vector at 48; its entry 0 is a symlink to entry 0, item 2^32 - 1. */
  function SelfLinked(): Segment
  {
    Segment(a => if a == 32 then 48 else if a == 48 then 6 else if 60 <= a < 64 then 255 else 0, 256)
  }

  lemma {:induction false} ZeroBytes(n: nat)
    ensures FromLittleEndian(Zeros(n)) == 0
  {
    if n > 0 {
      ZeroBytes(n - 1);
      assert Zeros(n)[1..] == Zeros(n - 1);
    }
  }

  /** A small number is its first byte. */
  lemma {:induction false} FirstByte(s: bytes, x: byte)
    requires s != [] && s == [x] + Zeros(|s| - 1)
    ensures FromLittleEndian(s) == x
  {
    ZeroBytes(|s| - 1);
    assert s[1..] == Zeros(|s| - 1);
  }

  lemma {:induction false} HighBytes()
    ensures FromLittleEndian(Zeros(4) + [255, 255, 255, 255]) == NO_ITEM * TWO32
  {
    assert FromLittleEndian([255]) == 255 by { assert [255][1..] == []; }
    assert FromLittleEndian([255, 255]) == 255 + 256 * 255 by { assert [255, 255][1..] == [255]; }
    assert FromLittleEndian([255, 255, 255]) == 255 + 256 * (255 + 256 * 255) by {
      assert [255, 255, 255][1..] == [255, 255];
    }
    assert FromLittleEndian([255, 255, 255, 255]) == NO_ITEM by { assert [255, 255, 255, 255][1..] == [255, 255, 255]; }
    ZeroBytes(4);
    AppendBytes(Zeros(4), [255, 255, 255, 255]);
    Pow256Values();
  }

  lemma {:induction false} SelfLinkedWords()
    ensures var seg := SelfLinked();
      && Word(seg, 8) == 0 && Word(seg, 32) == 48 && Word(seg, 40) == 0
      && FromLittleEndian(ReadAt(seg, 48, 4)) == 6 && UnionData(seg, 48) == NO_ITEM * TWO32
  {
    hide FromLittleEndian;
    var seg := SelfLinked();
    assert ReadAt(seg, 8, 8) == [0] + Zeros(7);
    FirstByte(ReadAt(seg, 8, 8), 0);
    assert ReadAt(seg, 32, 8) == [48] + Zeros(7);
    FirstByte(ReadAt(seg, 32, 8), 48);
    assert ReadAt(seg, 40, 8) == [0] + Zeros(7);
    FirstByte(ReadAt(seg, 40, 8), 0);
    assert ReadAt(seg, 48, 4) == [6] + Zeros(3);
    FirstByte(ReadAt(seg, 48, 4), 6);
    assert ReadAt(seg, 56, 8) == Zeros(4) + [255, 255, 255, 255];
    HighBytes();
  }

  /** Such a link can exist. */
  lemma {:induction false} SelfLinkExists(steps: nat)
    ensures Copy(SelfLinked(), 48, NO_ITEM, steps) == OutOfSteps
  {
    hide Word, ReadAt, UnionData, FromLittleEndian, SelfLinked, Copy;
    SelfLinkedWords();
    LargeEnough();
    SelfLinkNeverEnds(SelfLinked(), 48, steps);
  }

  lemma {:induction false} LargeEnough()
    ensures SelfLinked().size == 256
  {
  }

  /** part has, for each worker of full, item alone, and zero where that worker has fewer items. */
  predicate IsColumn(seg: Segment, v: nat, part: seq<seq<Counter>>, full: seq<seq<Counter>>, item: nat, combined: bool)
  {
    && |part| == |full|
    && forall i | 0 <= i < |full| ::
      part[i] == if Element(seg, v, i).None? then [] else if item < |full[i]| then [full[i][item]] else [Zero(combined)]
  }

  /**
   A link to item i2 of a counter vector reads column i2 of the full read, with zero where a worker's
   vector is shorter; word i1 + i2 * 2^32 says which entry and item.
   */
  lemma {:induction false} LinkReadsColumn(seg: Segment, e: int, i1: nat, i2: nat, combined: bool, steps: nat)
    requires IsLink(seg, e) && UnionData(seg, e) == i1 + i2 * TWO32 && i1 < TWO32 && i2 != NO_ITEM
    requires DirectoryVector(seg).Some?
    requires var t := DirectoryVector(seg).value + i1 * ENTRY_SIZE;
      TypeOf(seg, t) == (if combined then CombinedCounterVector else SimpleCounterVector)
    ensures var t := DirectoryVector(seg).value + i1 * ENTRY_SIZE;
      var linked, full := Copy(seg, e, NO_ITEM, steps + 1), Copy(seg, t, NO_ITEM, 0);
      var v := if UnionData(seg, t) == 0 then None else Adjust(seg, UnionData(seg, t));
      if v.None? then linked == full == Nothing
      else
        && linked.Value? && linked.stat.CounterStat? && linked.stat.combined == combined
        && full.Value? && full.stat.CounterStat? && full.stat.combined == combined
        && IsColumn(seg, v.value, linked.stat.rows, full.stat.rows, i2, combined)
  {
    hide ReadAt, Adjust, NonZero, FromLittleEndian;
    SplitIsUnique(i1, i2, UnionData(seg, e));
    var t := DirectoryVector(seg).value + i1 * ENTRY_SIZE;
    assert LinkTarget(seg, e) == Some(t);
    assert Copy(seg, e, NO_ITEM, steps + 1) == Copy(seg, t, i2, steps) == CopyPlain(seg, t, i2);
  }
}
