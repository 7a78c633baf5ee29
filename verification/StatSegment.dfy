/**
 The layout of a version 2 stats segment and what the copies and in-place updates read from it. The
 memory does not change during one read; StatsProtocol says when that may be assumed.
 */
module StatSegment {
  import opened Wrappers
  import opened Bytes

  const TWO32 := 0x1_0000_0000
  const TWO64 := 0x1_0000_0000_0000_0000

  /** Process memory seen from the start of the shared header, of which the first size bytes are mapped. */
  datatype Segment = Segment(mem: nat -> byte, size: nat)

  /** n bytes from address a; addresses wrap like uintptr. */
  function ReadAt(seg: Segment, a: int, n: nat): (s: bytes)
    ensures |s| == n
  {
    seq<byte>(n, i requires 0 <= i < n => seg.mem((a + i) % TWO64))
  }

  function Word(seg: Segment, a: int): (w: nat)
    ensures w < TWO64
  {
    FromLittleEndianBound(ReadAt(seg, a, 8)); Pow256Values();
    FromLittleEndian(ReadAt(seg, a, 8))
  }

  /** adjust: the offset of pointer word in the segment, if that is strictly inside. */
  function Adjust(seg: Segment, word: nat): (r: Option<nat>)
    ensures r.Some? ==> 0 < r.value < seg.size
  {
    var a := (word - Word(seg, 8)) % TWO64;
    if 0 < a < seg.size - 1 then Some(a) else None
  }

  /**
   With the segment mapped at start, the 64-bit sum of the source lies strictly between the first and the last byte
   exactly for the words that are accepted, and is then that offset from start.
   */
  lemma {:induction false} AdjustComparesAddresses(seg: Segment, start: nat, word: nat)
    requires start + seg.size <= TWO64 && 0 < seg.size && word < TWO64
    ensures var adjusted := (start + word - Word(seg, 8)) % TWO64;
      && (Adjust(seg, word).Some? <==> start < adjusted < start + seg.size - 1)
      && (Adjust(seg, word).Some? ==> adjusted == start + Adjust(seg, word).value)
  {
    var base := Word(seg, 8);
    var a := (word - base) % TWO64;
    assert a == if word >= base then word - base else word - base + TWO64;
    assert (start + word - base) % TWO64 == if start + a < TWO64 then start + a else start + a - TWO64;
  }

  /** The 32-bit length in front of a vector. */
  function VecLen(seg: Segment, v: int): (n: nat)
    ensures n < TWO32
  {
    Word(seg, v - 8) % TWO32
  }

  /** The vector that element i of a vector of pointers points to. */
  function Element(seg: Segment, v: int, i: nat): Option<nat>
  {
    Adjust(seg, Word(seg, v + 8 * i))
  }

  function ErrorVector(seg: Segment): Option<nat> { Adjust(seg, Word(seg, 40)) }

  function DirectoryVector(seg: Segment): Option<nat> { Adjust(seg, Word(seg, 32)) }

  // ---------------------------------------------------------------- directory entries

  datatype StatType =
    | ScalarIndex | SimpleCounterVector | CombinedCounterVector | ErrorIndex | NameVector | EmptyType | SymlinkType
    | UnknownType

  /** getStatType: old segments have an error vector, and error entries among their types. */
  function GetStatType(n: nat, legacy: bool): StatType
  {
    if n == 1 then ScalarIndex
    else if n == 2 then SimpleCounterVector
    else if n == 3 then CombinedCounterVector
    else if legacy && n == 4 then ErrorIndex
    else if n == (if legacy then 5 else 4) then NameVector
    else if n == (if legacy then 6 else 5) then EmptyType
    else if n == (if legacy then 7 else 6) then SymlinkType
    else UnknownType
  }

  /** Old segments number their types alike, but for the error entries at 4. */
  lemma {:induction false} LegacyTypes(n: nat)
    ensures n < 4 ==> GetStatType(n, true) == GetStatType(n, false)
    ensures GetStatType(4, true) == ErrorIndex
    ensures n > 4 ==> GetStatType(n, true) == GetStatType(n - 1, false)
    ensures GetStatType(n, false) != ErrorIndex && (GetStatType(n, false).UnknownType? <==> n == 0 || n > 6)
  {
  }

  const ENTRY_SIZE := 144

  const NAME_SIZE := 128

  function TypeOf(seg: Segment, e: int): StatType
  {
    GetStatType(FromLittleEndian(ReadAt(seg, e, 4)), ErrorVector(seg).Some?)
  }

  function UnionData(seg: Segment, e: int): (w: nat)
    ensures w < TWO64
  {
    Word(seg, e + 8)
  }

  /** A slice of the mapped memory: what it holds changes with the segment. */
  datatype NameView = NameView(at: int, len: nat)

  function View(seg: Segment, name: NameView): bytes { ReadAt(seg, name.at, name.len) }

  /** The name of entry e is the memory in front of its first NUL, and empty without one. */
  function NameOf(seg: Segment, e: int): NameView
  {
    var raw := ReadAt(seg, e + 16, NAME_SIZE);
    NameView(e + 16, if 0 in raw then |CutAtNul(raw)| else 0)
  }

  lemma {:induction false} NameOfEntry(seg: Segment, e: int)
    ensures var raw := ReadAt(seg, e + 16, NAME_SIZE); var name := View(seg, NameOf(seg, e));
      if 0 in raw then |name| < NAME_SIZE && name + [0] <= raw && 0 !in name else name == []
  {
    var raw := ReadAt(seg, e + 16, NAME_SIZE);
    var cut := CutAtNul(raw);
    if 0 in raw {
      assert View(seg, NameOf(seg, e)) == raw[..|cut|] == cut;
      assert raw[..|cut| + 1] == cut + [raw[|cut|]];
    }
  }

  /** The loop of GetStatDirOnIndex. */
  method EntryName(seg: Segment, v: nat, index: nat) returns (name: NameView)
    ensures name == NameOf(seg, v + index * ENTRY_SIZE)
  {
    var e := v + index * ENTRY_SIZE;
    var raw := ReadAt(seg, e + 16, NAME_SIZE);
    name := NameView(e + 16, 0);
    for n := 0 to |raw|
      invariant 0 !in raw[..n] && name == NameView(e + 16, 0)
    {
      if raw[n] == 0 {
        CutIs(raw, n);
        name := NameView(e + 16, n);
        break;
      }
      assert raw[..n + 1] == raw[..n] + [raw[n]];
    }
    assert raw[..|raw|] == raw;
  }

  /** The comparison of updateStatOnIndex; both names are read when it is made. */
  predicate NameMatches(seg: Segment, e: int, held: NameView)
  {
    NameOf(seg, e).len > 0 && View(seg, NameOf(seg, e)) == View(seg, held)
  }

  /** If the memory of the held name still holds what it did, the entry is recognised by its name. */
  lemma {:induction false} NameCheckMeans(before: Segment, seg: Segment, e: int, held: NameView)
    requires View(seg, held) == View(before, held)
    ensures NameMatches(seg, e, held) <==> NameOf(seg, e).len > 0 && View(seg, NameOf(seg, e)) == View(before, held)
  {
    assert NameMatches(seg, e, held) <==> NameOf(seg, e).len > 0 && View(seg, NameOf(seg, e)) == View(seg, held);
  }

  /**
   While the directory vector stays in place the held name is the memory of the entry itself: then only the length
   is compared, and a new name is taken for the old one exactly if it is as long.
   */
  lemma {:induction false} NameComparedWithItself(before: Segment, seg: Segment, e: int, held: NameView)
    requires held.at == e + 16 && held.len > 0
    ensures NameMatches(seg, e, held) <==> NameOf(seg, e).len == held.len
    ensures NameMatches(seg, e, held) && View(seg, NameOf(seg, e)) != View(before, held)
       <==> NameOf(seg, e).len == held.len && View(seg, held) != View(before, held)
  {
    assert |View(seg, held)| == held.len && |View(seg, NameOf(seg, e))| == NameOf(seg, e).len;
  }

  /** Stands for no particular item. */
  const NO_ITEM := 0xffff_ffff

  function SymlinkIndexes(word: nat): (nat, nat)
  {
    (word % TWO32, word / TWO32)
  }

  /** The sums over the bytes of the word split it exactly: word == index1 + index2 * 2^32. */
  method GetSymlinkIndexes(unionData: nat) returns (index1: nat, index2: nat)
    requires unionData < TWO64
    ensures index1 < TWO32 && index2 < TWO32 && unionData == index1 + index2 * TWO32
    ensures (index1, index2) == SymlinkIndexes(unionData)
  {
    Pow256Values();
    LittleEndianRoundTrip(unionData, 8);
    var b := LittleEndian(unionData, 8);
    index1 := SumOfBytes(b[..4]);
    index2 := SumOfBytes(b[4..]);
    assert b == b[..4] + b[4..];
    AppendBytes(b[..4], b[4..]);
    FromLittleEndianBound(b[..4]);
    FromLittleEndianBound(b[4..]);
    SplitIsUnique(index1, index2, unionData);
  }

  lemma {:induction false} SplitIsUnique(low: nat, high: nat, word: nat)
    requires low < TWO32 && word == low + high * TWO32
    ensures low == word % TWO32 && high == word / TWO32
  {
  }

  /** Adds up the bytes, each shifted to its place. */
  method SumOfBytes(b: bytes) returns (sum: nat)
    ensures sum == FromLittleEndian(b)
  {
    sum := 0;
    for i := 0 to |b|
      invariant sum == FromLittleEndian(b[..i])
    {
      AppendBytes(b[..i], [b[i]]);
      OneByte(b[i]);
      assert b[..i + 1] == b[..i] + [b[i]];
      sum := sum + b[i] * Pow256(i);
    }
    assert b[..|b|] == b;
  }

  lemma {:induction false} AppendBytes(s: bytes, t: bytes)
    ensures FromLittleEndian(s + t) == FromLittleEndian(s) + FromLittleEndian(t) * Pow256(|s|)
  {
    if s == [] {
      assert s + t == t;
    } else {
      AppendBytes(s[1..], t);
      assert (s + t)[1..] == s[1..] + t;
      ShiftByte(s[0], FromLittleEndian(s[1..]), FromLittleEndian(t), Pow256(|s| - 1));
    }
  }

  lemma {:induction false} ShiftByte(low: nat, high: nat, x: nat, p: nat)
    ensures low + 256 * (high + x * p) == low + 256 * high + x * (256 * p)
  {
  }

  lemma {:induction false} OneByte(x: byte)
    ensures FromLittleEndian([x]) == x
  {
    assert FromLittleEndian([x][1..]) == 0;
  }
}
