/**
 What a version 2 segment that holds given stats looks like, byte by byte, and that the reader finds just those stats
 in it. The layout is written down without the functions that read it.
 */
module SegmentLayout {
  import opened Wrappers
  import opened Bytes
  import opened StatSegment
  import opened StatCopies

  /** bs is what the memory holds from address a on. */
  predicate BytesAt(seg: Segment, a: int, bs: bytes)
  {
    forall i | 0 <= i < |bs| :: seg.mem((a + i) % TWO64) == bs[i]
  }

  /** A little-endian number of n bytes. */
  predicate NumberAt(seg: Segment, a: int, x: nat, n: nat)
  {
    x < Pow256(n) && BytesAt(seg, a, LittleEndian(x, n))
  }

  /** A pointer to offset v, as the address it has in VPP, where the segment starts at base. */
  predicate PointerAt(seg: Segment, base: nat, a: int, v: nat)
  {
    0 < v < seg.size - 1 && NumberAt(seg, a, (base + v) % TWO64, 8)
  }

  /** A pointer to nothing in the segment. */
  predicate StrayAt(seg: Segment, base: nat, a: int, v: nat)
  {
    (v == 0 || seg.size - 1 <= v < TWO64) && NumberAt(seg, a, (base + v) % TWO64, 8)
  }

  ghost predicate NowhereAt(seg: Segment, base: nat, a: int) { exists v :: StrayAt(seg, base, a, v) }

  /** Pointer i of a table of pointers leads to at[i], or nowhere. */
  ghost predicate TableAt(seg: Segment, base: nat, v: nat, at: seq<Option<nat>>)
  {
    forall i | 0 <= i < |at| ::
      match at[i]
      case Some(p) => PointerAt(seg, base, v + 8 * i, p)
      case None => NowhereAt(seg, base, v + 8 * i)
  }

  /** A vector of n elements at v has its length in the word in front. */
  predicate VectorAt(seg: Segment, v: nat, n: nat) { NumberAt(seg, v - 8, n, 4) }

  /** A simple counter is one word; a combined one is packets and octets. */
  predicate CounterHeld(seg: Segment, v: nat, j: nat, combined: bool, c: Counter)
  {
    match c
    case Single(n) => !combined && NumberAt(seg, v + 8 * j, n, 8)
    case Pair(packets, octets) =>
      combined && NumberAt(seg, v + 16 * j, packets, 8) && NumberAt(seg, v + 16 * j + 8, octets, 8)
  }

  predicate RowHeld(seg: Segment, v: nat, combined: bool, row: seq<Counter>)
  {
    VectorAt(seg, v, |row|) && forall j | 0 <= j < |row| :: CounterHeld(seg, v, j, combined, row[j])
  }

  /** A name and at least one NUL. */
  ghost predicate NameHeld(seg: Segment, v: nat, name: bytes)
  {
    0 !in name && exists k: nat | k > 0 :: VectorAt(seg, v, |name| + k) && BytesAt(seg, v, name + Zeros(k))
  }

  /** The type numbers of the current segments, and of those that still have an error vector. */
  function TypeNumber(stat: Stat, legacy: bool): nat
  {
    match stat
    case ScalarStat(_) => 1
    case CounterStat(combined, _) => if combined then 3 else 2
    case ErrorStat(_) => 4
    case NameStat(_) => if legacy then 5 else 4
    case EmptyStat => if legacy then 6 else 5
  }

  /** The header: base, and the error vector that only old segments have. */
  ghost predicate HeaderHeld(seg: Segment, base: nat, errors: Option<nat>)
  {
    && 2 <= seg.size <= TWO64
    && NumberAt(seg, 8, base, 8)
    && match errors
       case Some(v) => PointerAt(seg, base, 40, v)
       case None => NowhereAt(seg, base, 40)
  }

  /** A directory entry: its type in 4 bytes, and the word behind. */
  predicate EntryHeld(seg: Segment, e: nat, number: nat, word: nat)
  {
    NumberAt(seg, e, number, 4) && NumberAt(seg, e + 8, word, 8)
  }

  /** Row i is empty where its pointer leads nowhere. */
  predicate RowsHeld(seg: Segment, combined: bool, at: seq<Option<nat>>, rows: seq<seq<Counter>>)
  {
    |rows| == |at| && forall i | 0 <= i < |at| ::
      if at[i].Some? then RowHeld(seg, at[i].value, combined, rows[i]) else rows[i] == []
  }

  ghost predicate NamesHeld(seg: Segment, at: seq<Option<nat>>, names: seq<bytes>)
  {
    |names| == |at| && forall i | 0 <= i < |at| ::
      if at[i].Some? then NameHeld(seg, at[i].value, names[i]) else names[i] == []
  }

  /** Counter w of each worker whose pointer leads somewhere, from worker i on. */
  predicate ErrorsHeld(seg: Segment, at: seq<Option<nat>>, w: nat, i: nat, counters: seq<nat>)
    decreases |at| - i
  {
    if i >= |at| then counters == []
    else if at[i].None? then ErrorsHeld(seg, at, w, i + 1, counters)
    else
      && counters != [] && NumberAt(seg, at[i].value + 8 * w, counters[0], 8)
      && ErrorsHeld(seg, at, w, i + 1, counters[1..])
  }

  /** Entry e is an entry for the stat, whose table of pointers is at v and leads to at. */
  ghost predicate StatHeld(
    seg: Segment, base: nat, errors: Option<nat>, e: nat, stat: Stat, v: nat, at: seq<Option<nat>>)
  {
    var number := TypeNumber(stat, errors.Some?);
    match stat
    case ScalarStat(value) => EntryHeld(seg, e, number, value)
    case EmptyStat => exists word :: EntryHeld(seg, e, number, word)
    case ErrorStat(counters) =>
      && errors == Some(v) && VectorAt(seg, v, |at|) && TableAt(seg, base, v, at)
      && exists w :: EntryHeld(seg, e, number, w) && ErrorsHeld(seg, at, w, 0, counters)
    case CounterStat(combined, rows) =>
      && TableHeld(seg, base, e, number, v, at)
      && RowsHeld(seg, combined, at, rows)
    case NameStat(names) => TableHeld(seg, base, e, number, v, at) && NamesHeld(seg, at, names)
  }

  /** The entry's word points to a vector of pointers. It is not 0, which would be no pointer at all. */
  ghost predicate TableHeld(seg: Segment, base: nat, e: nat, number: nat, v: nat, at: seq<Option<nat>>)
  {
    && EntryHeld(seg, e, number, (base + v) % TWO64) && (base + v) % TWO64 != 0 && 0 < v < seg.size - 1
    && VectorAt(seg, v, |at|) && TableAt(seg, base, v, at)
  }

  // ---------------------------------------------------------------- reading words

  lemma {:induction false} ReadIs(seg: Segment, a: int, bs: bytes)
    requires BytesAt(seg, a, bs)
    ensures ReadAt(seg, a, |bs|) == bs
  {
  }

  lemma {:induction false} NumberIs(seg: Segment, a: int, x: nat, n: nat)
    requires NumberAt(seg, a, x, n)
    ensures FromLittleEndian(ReadAt(seg, a, n)) == x
  {
    ReadIs(seg, a, LittleEndian(x, n));
    LittleEndianRoundTrip(x, n);
  }

  lemma {:induction false} VectorIs(seg: Segment, v: nat, n: nat)
    requires VectorAt(seg, v, n)
    ensures VecLen(seg, v) == n
  {
    hide FromLittleEndian, LittleEndian;
    NumberIs(seg, v - 8, n, 4);
    var front, all := ReadAt(seg, v - 8, 4), ReadAt(seg, v - 8, 8);
    assert all == front + all[4..];
    AppendBytes(front, all[4..]);
    Pow256Values();
    Remainder(n, FromLittleEndian(all[4..]));
  }

  lemma {:induction false} Remainder(n: nat, high: nat)
    requires n < TWO32
    ensures (n + high * TWO32) % TWO32 == n
  {
  }

  lemma {:induction false} PointerWord(seg: Segment, base: nat, v: nat)
    requires NumberAt(seg, 8, base, 8) && v < TWO64
    ensures Adjust(seg, (base + v) % TWO64) == if 0 < v < seg.size - 1 then Some(v) else None
  {
    NumberIs(seg, 8, base, 8);
    Pow256Values();
    var word := (base + v) % TWO64;
    assert word == if base + v < TWO64 then base + v else base + v - TWO64;
  }

  lemma {:induction false} PointerIs(seg: Segment, base: nat, a: int, v: nat)
    requires NumberAt(seg, 8, base, 8) && seg.size <= TWO64
    ensures PointerAt(seg, base, a, v) ==> Adjust(seg, Word(seg, a)) == Some(v)
    ensures StrayAt(seg, base, a, v) ==> Adjust(seg, Word(seg, a)) == None
  {
    hide Adjust, FromLittleEndian;
    if PointerAt(seg, base, a, v) || StrayAt(seg, base, a, v) {
      NumberIs(seg, a, (base + v) % TWO64, 8);
      PointerWord(seg, base, v);
    }
  }

  lemma {:induction false} TableIs(seg: Segment, base: nat, v: nat, at: seq<Option<nat>>, i: nat)
    requires NumberAt(seg, 8, base, 8) && seg.size <= TWO64 && TableAt(seg, base, v, at) && i < |at|
    ensures Element(seg, v, i) == at[i]
  {
    hide Adjust, NumberAt, Word;
    if at[i].Some? {
      PointerIs(seg, base, v + 8 * i, at[i].value);
    } else {
      var p :| StrayAt(seg, base, v + 8 * i, p);
      PointerIs(seg, base, v + 8 * i, p);
    }
  }

  // ---------------------------------------------------------------- reading vectors

  lemma {:induction false} CounterIs(seg: Segment, v: nat, j: nat, combined: bool, c: Counter)
    requires CounterHeld(seg, v, j, combined, c)
    ensures CounterAt(seg, v, j, combined) == c
  {
    hide FromLittleEndian;
    match c {
      case Single(n) => NumberIs(seg, v + 8 * j, n, 8);
      case Pair(packets, octets) =>
        NumberIs(seg, v + 16 * j, packets, 8);
        NumberIs(seg, v + 16 * j + 8, octets, 8);
    }
  }

  lemma {:induction false} RowIs(seg: Segment, v: nat, combined: bool, row: seq<Counter>)
    requires RowHeld(seg, v, combined, row)
    ensures Row(seg, v, combined) == row
  {
    hide CounterHeld, CounterAt, VectorAt, VecLen;
    VectorIs(seg, v, |row|);
    forall j | 0 <= j < |row| ensures CounterAt(seg, v, j, combined) == row[j] {
      CounterIs(seg, v, j, combined, row[j]);
    }
  }

  /** One item of each row, zero where the row is shorter; nothing where the pointer leads nowhere. */
  function Items(at: seq<Option<nat>>, rows: seq<seq<Counter>>, combined: bool, item: nat): seq<seq<Counter>>
    requires |at| == |rows|
  {
    seq(|rows|, i requires 0 <= i < |rows| =>
      if at[i].None? then [] else if item < |rows[i]| then [rows[i][item]]
      else [if combined then Pair(0, 0) else Single(0)])
  }

  lemma {:induction false} RowsAre(
    seg: Segment, base: nat, v: nat, at: seq<Option<nat>>, combined: bool, rows: seq<seq<Counter>>, item: nat)
    requires NumberAt(seg, 8, base, 8) && seg.size <= TWO64
    requires VectorAt(seg, v, |at|) && TableAt(seg, base, v, at) && RowsHeld(seg, combined, at, rows)
    ensures Table(seg, v, combined) == rows
    ensures Column(seg, v, combined, item) == Items(at, rows, combined, item)
  {
    hide VecLen, VectorAt, Element, TableAt, RowHeld, NumberAt, CounterAt;
    VectorIs(seg, v, |at|);
    forall i | 0 <= i < |at|
      ensures Table(seg, v, combined)[i] == rows[i]
      ensures Column(seg, v, combined, item)[i] == Items(at, rows, combined, item)[i]
    {
      TableIs(seg, base, v, at, i);
      if at[i].Some? {
        RowIs(seg, at[i].value, combined, rows[i]);
        assert |Row(seg, at[i].value, combined)| == VecLen(seg, at[i].value);
      }
    }
  }

  lemma {:induction false} NameIs(seg: Segment, v: nat, name: bytes)
    requires NameHeld(seg, v, name)
    ensures NonZero(NameBytes(seg, v)) == name
  {
    var k: nat :| k > 0 && VectorAt(seg, v, |name| + k) && BytesAt(seg, v, name + Zeros(k));
    hide VecLen, VectorAt, BytesAt, ReadAt, NonZero;
    VectorIs(seg, v, |name| + k);
    ReadIs(seg, v, name + Zeros(k));
    TailVanishes(name, k);
  }

  lemma {:induction false} TailVanishes(name: bytes, k: nat)
    requires 0 !in name
    ensures NonZero(name + Zeros(k)) == name
  {
    NonZeroSplit(name, Zeros(k));
    ZerosVanish(k);
  }

  lemma {:induction false} ZerosVanish(k: nat)
    ensures NonZero(Zeros(k)) == []
  {
    if k > 0 {
      assert Zeros(k)[1..] == Zeros(k - 1);
      ZerosVanish(k - 1);
    }
  }

  lemma {:induction false} NamesAre(seg: Segment, base: nat, v: nat, at: seq<Option<nat>>, names: seq<bytes>)
    requires NumberAt(seg, 8, base, 8) && seg.size <= TWO64
    requires VectorAt(seg, v, |at|) && TableAt(seg, base, v, at) && NamesHeld(seg, at, names)
    ensures NameTable(seg, v) == names
  {
    hide VecLen, VectorAt, Element, TableAt, NameHeld, NumberAt, NonZero, NameBytes;
    VectorIs(seg, v, |at|);
    forall i | 0 <= i < |at| ensures NameTable(seg, v)[i] == names[i] {
      TableIs(seg, base, v, at, i);
      if at[i].Some? {
        NameIs(seg, at[i].value, names[i]);
      }
    }
  }

  lemma {:induction false} ErrorsAre(
    seg: Segment, base: nat, v: nat, at: seq<Option<nat>>, w: nat, i: nat, counters: seq<nat>)
    requires NumberAt(seg, 8, base, 8) && seg.size <= TWO64 && i <= |at|
    requires VectorAt(seg, v, |at|) && TableAt(seg, base, v, at) && ErrorsHeld(seg, at, w, i, counters)
    ensures ErrorsFrom(seg, v, w, i) == counters
    decreases |at| - i
  {
    hide VecLen, VectorAt, Element, TableAt, NumberAt;
    VectorIs(seg, v, |at|);
    if i < |at| {
      TableIs(seg, base, v, at, i);
      if at[i].Some? {
        NumberIs(seg, at[i].value + 8 * w, counters[0], 8);
        ErrorsAre(seg, base, v, at, w, i + 1, counters[1..]);
      } else {
        ErrorsAre(seg, base, v, at, w, i + 1, counters);
      }
    }
  }

  // ---------------------------------------------------------------- reading entries

  lemma {:induction false} EntryIs(seg: Segment, base: nat, errors: Option<nat>, e: nat, number: nat, word: nat)
    requires HeaderHeld(seg, base, errors) && EntryHeld(seg, e, number, word)
    ensures ErrorVector(seg) == errors && UnionData(seg, e) == word
    ensures TypeOf(seg, e) == GetStatType(number, errors.Some?)
  {
    hide FromLittleEndian, GetStatType, Adjust, NumberAt;
    NumberIs(seg, e, number, 4);
    NumberIs(seg, e + 8, word, 8);
    if errors.Some? {
      PointerIs(seg, base, 40, errors.value);
    } else {
      var p :| StrayAt(seg, base, 40, p);
      PointerIs(seg, base, 40, p);
    }
  }

  /** What is read for one item, or for all of them. */
  function Selected(stat: Stat, at: seq<Option<nat>>, item: nat): Stat
    requires stat.CounterStat? ==> |stat.rows| == |at|
  {
    if stat.CounterStat? && item != NO_ITEM then CounterStat(stat.combined, Items(at, stat.rows, stat.combined, item))
    else stat
  }

  /**
   Whatever a segment holds is what CopyEntryData returns: for every type of stat, in both numberings of the types, for
   all items or one.
   */
  lemma {:induction false} HeldIsCopied(
    seg: Segment, base: nat, errors: Option<nat>, e: nat, stat: Stat, v: nat, at: seq<Option<nat>>, item: nat,
    steps: nat)
    requires HeaderHeld(seg, base, errors) && StatHeld(seg, base, errors, e, stat, v, at)
    ensures stat.CounterStat? ==> |stat.rows| == |at|
    ensures Copy(seg, e, item, steps) == Value(Selected(stat, at, item))
  {
    hide TypeOf, UnionData, ErrorVector, EntryHeld, HeaderHeld, TableAt, VectorAt, RowsHeld, NamesHeld, Table, Column;
    hide NameTable, ErrorsFrom, ErrorsHeld, Adjust;
    BaseHeld(seg, base, errors);
    var number := TypeNumber(stat, errors.Some?);
    match stat {
      case ScalarStat(value) =>
        EntryIs(seg, base, errors, e, number, value);
      case EmptyStat =>
        var word :| EntryHeld(seg, e, number, word);
        EntryIs(seg, base, errors, e, number, word);
      case ErrorStat(counters) =>
        var w :| EntryHeld(seg, e, number, w) && ErrorsHeld(seg, at, w, 0, counters);
        EntryIs(seg, base, errors, e, number, w);
        ErrorsAre(seg, base, v, at, w, 0, counters);
      case CounterStat(combined, rows) =>
        EntryIs(seg, base, errors, e, number, (base + v) % TWO64);
        PointerWord(seg, base, v);
        RowsAre(seg, base, v, at, combined, rows, item);
        assert |rows| == |at| by { SameRows(seg, combined, at, rows); }
      case NameStat(names) =>
        EntryIs(seg, base, errors, e, number, (base + v) % TWO64);
        PointerWord(seg, base, v);
        NamesAre(seg, base, v, at, names);
    }
  }

  lemma {:induction false} SameRows(seg: Segment, combined: bool, at: seq<Option<nat>>, rows: seq<seq<Counter>>)
    requires RowsHeld(seg, combined, at, rows)
    ensures |rows| == |at|
  {
  }

  lemma {:induction false} BaseHeld(seg: Segment, base: nat, errors: Option<nat>)
    requires HeaderHeld(seg, base, errors)
    ensures NumberAt(seg, 8, base, 8) && seg.size <= TWO64
  {
  }

  /** A link: the entry and the item it names, in 4 bytes each. */
  ghost predicate LinkHeld(seg: Segment, base: nat, legacy: bool, e: nat, dir: nat, index: nat, item: nat)
  {
    && PointerAt(seg, base, 32, dir)
    && NumberAt(seg, e, if legacy then 7 else 6, 4)
    && NumberAt(seg, e + 8, index, 4) && NumberAt(seg, e + 12, item, 4)
    && (index != 0 || item != 0)
  }

  /** A link to an entry reads what that entry holds, entries being 144 bytes apart. */
  lemma {:induction false} LinkIsFollowed(
    seg: Segment, base: nat, errors: Option<nat>, e: nat, dir: nat, index: nat, item: nat, stat: Stat, v: nat,
    at: seq<Option<nat>>, steps: nat)
    requires HeaderHeld(seg, base, errors) && LinkHeld(seg, base, errors.Some?, e, dir, index, item)
    requires StatHeld(seg, base, errors, dir + 144 * index, stat, v, at)
    ensures stat.CounterStat? ==> |stat.rows| == |at|
    ensures Copy(seg, e, NO_ITEM, steps + 1) == Value(Selected(stat, at, item))
  {
    hide TypeOf, UnionData, ErrorVector, HeaderHeld, StatHeld, NumberAt, PointerAt, Selected, Copy, Word, Adjust;
    var w := LinkWord(seg, e, index, item);
    BaseHeld(seg, base, errors);
    EntryIs(seg, base, errors, e, if errors.Some? then 7 else 6, w);
    PointerIs(seg, base, 32, dir);
    HeldIsCopied(seg, base, errors, dir + 144 * index, stat, v, at, item, steps);
    SplitIsUnique(index, item, w);
    FollowLink(seg, e, dir, index, item, steps);
  }

  lemma {:induction false} FollowLink(seg: Segment, e: nat, dir: nat, index: nat, item: nat, steps: nat)
    requires IsLink(seg, e) && DirectoryVector(seg) == Some(dir) && SymlinkIndexes(UnionData(seg, e)) == (index, item)
    ensures Copy(seg, e, NO_ITEM, steps + 1) == Copy(seg, dir + 144 * index, item, steps)
  {
    hide CopyPlain;
  }

  /** The two halves as one word. */
  lemma {:induction false} LinkWord(seg: Segment, e: nat, index: nat, item: nat) returns (w: nat)
    requires NumberAt(seg, e + 8, index, 4) && NumberAt(seg, e + 12, item, 4)
    ensures w == index + item * TWO32 && index < TWO32 && NumberAt(seg, e + 8, w, 8)
  {
    Pow256Values();
    w := index + item * TWO32;
    var low, high := LittleEndian(index, 4), LittleEndian(item, 4);
    AppendBytes(low, high);
    LittleEndianRoundTrip(index, 4);
    LittleEndianRoundTrip(item, 4);
    FromLittleEndianBound(low + high);
    LittleEndianOfFrom(low + high);
    assert LittleEndian(w, 8) == low + high;
    forall i | 0 <= i < 8 ensures seg.mem((e + 8 + i) % TWO64) == (low + high)[i] {
      if i >= 4 {
        assert (e + 12) + (i - 4) == e + 8 + i;
      }
    }
  }

  lemma {:induction false} LittleEndianOfFrom(s: bytes)
    ensures LittleEndian(FromLittleEndian(s), |s|) == s
  {
    if s != [] {
      LittleEndianOfFrom(s[1..]);
    }
  }

  /** The name of an entry: behind its word, in 128 bytes, up to a NUL. */
  predicate EntryNameHeld(seg: Segment, e: nat, name: bytes)
  {
    |name| < 128 && 0 !in name && BytesAt(seg, e + 16, name + [0])
  }

  /** GetStatDirOnIndex finds just that name, and none where 128 bytes hold no NUL. */
  lemma {:induction false} EntryNameIs(seg: Segment, e: nat, name: bytes, raw: bytes)
    ensures EntryNameHeld(seg, e, name) ==> View(seg, NameOf(seg, e)) == name
    ensures |raw| == 128 && 0 !in raw && BytesAt(seg, e + 16, raw) ==> View(seg, NameOf(seg, e)) == []
  {
    if |raw| == 128 && 0 !in raw && BytesAt(seg, e + 16, raw) {
      ReadIs(seg, e + 16, raw);
    }
    if EntryNameHeld(seg, e, name) {
      ReadIs(seg, e + 16, name + [0]);
      var all, n := ReadAt(seg, e + 16, NAME_SIZE), |name|;
      assert all[..n + 1] == name + [0];
      assert all[..n] == name && all[n] == 0;
      CutIs(all, n);
      assert all[n] in all;
      assert View(seg, NameOf(seg, e)) == all[..n];
    }
  }

  // ---------------------------------------------------------------- such segments exist

  predicate CounterFits(combined: bool, c: Counter)
  {
    match c
    case Single(n) => !combined && n < TWO64
    case Pair(packets, octets) => combined && packets < TWO64 && octets < TWO64
  }

  function CounterBytes(c: Counter): bytes
  {
    match c
    case Single(n) => LittleEndian(n, 8)
    case Pair(packets, octets) => LittleEndian(packets, 8) + LittleEndian(octets, 8)
  }

  function RowBytes(row: seq<Counter>): bytes
  {
    if row == [] then [] else RowBytes(row[..|row| - 1]) + CounterBytes(row[|row| - 1])
  }

  /** Header, entry, a table of one pointer and the row it leads to. */
  function Image(combined: bool, row: seq<Counter>): bytes
  {
    Zeros(48)
    + (LittleEndian(if combined then 3 else 2, 4) + Zeros(4) + LittleEndian(200, 8) + Zeros(128))
    + (LittleEndian(1, 4) + Zeros(4) + LittleEndian(216, 8))
    + (LittleEndian(|row|, 4) + Zeros(4) + RowBytes(row))
  }

  function Mapped(image: bytes): Segment
  {
    Segment((a: nat) => if a < |image| then image[a] else 0, |image| + 2)
  }

  lemma {:induction false} MappedAt(image: bytes, a: nat, bs: bytes)
    requires a + |bs| <= |image| <= TWO64 && image[a..a + |bs|] == bs
    ensures BytesAt(Mapped(image), a, bs)
  {
    forall i | 0 <= i < |bs| ensures Mapped(image).mem((a + i) % TWO64) == bs[i] {
      assert image[a + i] == image[a..a + |bs|][i];
    }
  }

  lemma {:induction false} RowBytesAt(row: seq<Counter>, j: nat)
    requires j < |row|
    ensures var at, c := |RowBytes(row[..j])|, CounterBytes(row[j]);
      at + |c| <= |RowBytes(row)| && RowBytes(row)[at..at + |c|] == c
  {
    hide CounterBytes;
    var front, last := row[..|row| - 1], CounterBytes(row[|row| - 1]);
    if j < |front| {
      RowBytesAt(front, j);
      assert front[..j] == row[..j];
      var at := |RowBytes(row[..j])|;
      Between(RowBytes(front), last, at, at + |CounterBytes(row[j])|);
    } else {
      assert RowBytes(row)[|RowBytes(front)|..] == last;
    }
  }

  lemma {:induction false} Between(s: bytes, t: bytes, lo: nat, hi: nat)
    requires lo <= hi <= |s|
    ensures (s + t)[lo..hi] == s[lo..hi]
  {
  }

  lemma {:induction false} RowBytesLength(combined: bool, row: seq<Counter>)
    requires forall i | 0 <= i < |row| :: CounterFits(combined, row[i])
    ensures |RowBytes(row)| == (if combined then 16 else 8) * |row|
  {
    if row != [] {
      RowBytesLength(combined, row[..|row| - 1]);
      assert CounterFits(combined, row[|row| - 1]);
    }
  }

  lemma {:induction false} ImageParts(combined: bool, row: seq<Counter>)
    requires |row| < TWO32 && forall i | 0 <= i < |row| :: CounterFits(combined, row[i])
    ensures var image := Image(combined, row);
      && |image| == 216 + |RowBytes(row)| <= TWO64 - 2
      && image[8..16] == image[40..48] == LittleEndian(0, 8)
      && image[48..52] == LittleEndian(if combined then 3 else 2, 4) && image[56..64] == LittleEndian(200, 8)
      && image[192..196] == LittleEndian(1, 4) && image[200..208] == LittleEndian(216, 8)
      && image[208..212] == LittleEndian(|row|, 4) && image[216..] == RowBytes(row)
  {
    hide LittleEndian, RowBytes;
    RowBytesLength(combined, row);
    ZeroNumber(8);
  }

  lemma {:induction false} ZeroNumber(n: nat)
    ensures LittleEndian(0, n) == Zeros(n)
  {
    if n > 0 {
      ZeroNumber(n - 1);
    }
  }

  /** Every row of counters is held by some segment. */
  lemma {:induction false} RowCanBeHeld(combined: bool, row: seq<Counter>)
    requires |row| < TWO32 && forall i | 0 <= i < |row| :: CounterFits(combined, row[i])
    ensures var seg := Mapped(Image(combined, row));
      && HeaderHeld(seg, 0, None)
      && StatHeld(seg, 0, None, 48, CounterStat(combined, [row]), 200, [Some(216)])
  {
    hide LittleEndian, RowBytes, Image, BytesAt;
    var image := Image(combined, row);
    var seg := Mapped(image);
    ImageParts(combined, row);
    Pow256Values();
    MappedAt(image, 8, LittleEndian(0, 8));
    MappedAt(image, 40, LittleEndian(0, 8));
    assert StrayAt(seg, 0, 40, 0);
    MappedAt(image, 48, LittleEndian(if combined then 3 else 2, 4));
    MappedAt(image, 56, LittleEndian(200, 8));
    MappedAt(image, 192, LittleEndian(1, 4));
    MappedAt(image, 200, LittleEndian(216, 8));
    MappedAt(image, 208, LittleEndian(|row|, 4));
    forall j | 0 <= j < |row| ensures CounterHeld(seg, 216, j, combined, row[j]) {
      CounterCanBeHeld(combined, row, j);
    }
    assert [row][0] == row && [Some(216)][0] == Some(216);
  }

  lemma {:induction false} SliceOfTail(s: bytes, start: nat, from: nat, n: nat)
    requires start + from + n <= |s|
    ensures s[start..][from..from + n] == s[start + from..start + from + n]
  {
  }

  lemma {:induction false} CounterCanBeHeld(combined: bool, row: seq<Counter>, j: nat)
    requires |row| < TWO32 && j < |row| && forall i | 0 <= i < |row| :: CounterFits(combined, row[i])
    ensures CounterHeld(Mapped(Image(combined, row)), 216, j, combined, row[j])
  {
    hide LittleEndian, RowBytes, Image, BytesAt;
    var image := Image(combined, row);
    ImageParts(combined, row);
    RowBytesAt(row, j);
    RowBytesLength(combined, row[..j]);
    Pow256Values();
    var w := if combined then 16 else 8;
    var from := |RowBytes(row[..j])|;
    var at := 216 + from;
    assert CounterFits(combined, row[j]);
    assert |CounterBytes(row[j])| == w && image[216..] == RowBytes(row);
    SliceOfTail(image, 216, from, w);
    match row[j] {
      case Single(n) =>
        MappedAt(image, at, LittleEndian(n, 8));
      case Pair(packets, octets) =>
        assert image[at..at + 8] == image[at..at + 16][..8];
        assert image[at + 8..at + 16] == image[at..at + 16][8..];
        MappedAt(image, at, LittleEndian(packets, 8));
        MappedAt(image, at + 8, LittleEndian(octets, 8));
    }
  }
}
