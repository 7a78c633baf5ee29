/**
 The value of a codec buffer (its bytes and position), with every buffer operation as a function
 on it. None is the panic of an index or slice expression outside the buffer.
 */
module Cursors {
  import opened Wrappers
  import opened Bytes

  datatype Cursor = Cursor(buf: bytes, pos: nat)

  /** The buffer after bs has been stored at the position and stepped over. */
  function Write(c: Cursor, bs: bytes): Cursor
    requires c.pos + |bs| <= |c.buf|
  {
    Cursor(c.buf[..c.pos] + bs + c.buf[c.pos + |bs|..], c.pos + |bs|)
  }

  function Put(c: Cursor, bs: bytes): Option<Cursor>
  {
    if c.pos + |bs| <= |c.buf| then Some(Write(c, bs)) else None
  }

  function Take(c: Cursor, n: nat): Option<(Cursor, bytes)>
  {
    if c.pos + n <= |c.buf| then Some((c.(pos := c.pos + n), c.buf[c.pos..c.pos + n])) else None
  }

  /** Go's copy(dst, src): dst with its prefix overwritten as far as both reach. */
  function CopyOver(dst: bytes, src: bytes): (r: bytes)
    ensures |r| == |dst|
    ensures |src| == |dst| ==> r == src
  {
    if |src| >= |dst| then src[..|dst|] else src + dst[|src|..]
  }

  /** x wrapped around into 0..m-1. */
  function Wrap(x: int, m: int): (u: nat)
    requires m > 0
    ensures u < m
    ensures 0 <= x < m ==> u == x
    ensures -m <= x < 0 ==> u == x + m
  {
    if -m <= x < 0 then x + m else x % m
  }

  /** Two's complement: the unsigned value of the low w bytes of x. */
  function ToUnsigned(x: int, w: nat): (u: nat)
    ensures u < Pow256(w)
    ensures 0 <= x < Pow256(w) ==> u == x
  {
    Wrap(x, Pow256(w))
  }

  function ToSigned(u: nat, w: nat): int
    requires u < Pow256(w)
  {
    if 2 * u < Pow256(w) then u else u - Pow256(w)
  }

  function EncodeBytes(c: Cursor, v: bytes, length: nat): Option<Cursor>
  {
    var n := if length == 0 then |v| else length;
    if c.pos + n <= |c.buf| then Some(Write(c, CopyOver(c.buf[c.pos..c.pos + n], v))) else None
  }

  function EncodeUint(c: Cursor, v: nat, w: nat): Option<Cursor>
  {
    Put(c, BigEndian(v, w))
  }

  function EncodeInt(c: Cursor, v: int, w: nat): Option<Cursor>
  {
    EncodeUint(c, ToUnsigned(v, w), w)
  }

  function EncodeFloat64(c: Cursor, bits: nat): Option<Cursor>
  {
    Put(c, LittleEndian(bits, 8))
  }

  function EncodeBool(c: Cursor, v: bool): Option<Cursor>
  {
    Put(c, [if v then 1 else 0])
  }

  function EncodeString(c: Cursor, v: bytes, length: nat): Option<Cursor>
  {
    if length == 0 then
      var c1 :- EncodeUint(c, |v| % 0x1_0000_0000, 4);
      EncodeBytes(c1, v, 0)
    else
      EncodeBytes(c, v, length)
  }

  function DecodeUint(c: Cursor, w: nat): Option<(Cursor, nat)>
  {
    var (c1, bs) :- Take(c, w);
    Some((c1, FromBigEndian(bs)))
  }

  function DecodeInt(c: Cursor, w: nat): Option<(Cursor, int)>
  {
    var (c1, bs) :- Take(c, w);
    FromBigEndianBound(bs);
    Some((c1, ToSigned(FromBigEndian(bs), w)))
  }

  function DecodeFloat64(c: Cursor): Option<(Cursor, nat)>
  {
    var (c1, bs) :- Take(c, 8);
    Some((c1, FromLittleEndian(bs)))
  }

  function DecodeBool(c: Cursor): Option<(Cursor, bool)>
  {
    var (c1, bs) :- Take(c, 1);
    Some((c1, bs[0] != 0))
  }

  function DecodeString(c: Cursor, length: nat): Option<(Cursor, bytes)>
  {
    if length == 0 then
      var (c1, n) :- DecodeUint(c, 4);
      Take(c1, n)
    else
      var (c1, bs) :- Take(c, length);
      Some((c1, CutAtNul(bs)))
  }

  lemma {:induction false} SignedRoundTrip(x: int, w: nat)
    requires 0 - Pow256(w) <= 2 * x < Pow256(w)
    ensures ToSigned(ToUnsigned(x, w), w) == x
  {
  }

  /** What Go's copy over the next n bytes leaves. */
  lemma {:induction false} Spliced(c: Cursor, v: bytes, n: nat)
    requires c.pos + n <= |c.buf|
    ensures var m := if |v| < n then |v| else n;
      Write(c, CopyOver(c.buf[c.pos..c.pos + n], v)) == Cursor(c.buf[..c.pos] + v[..m] + c.buf[c.pos + m..], c.pos + n)
  {
    var m := if |v| < n then |v| else n;
    var next := c.buf[c.pos..c.pos + n];
    assert next[m..] + c.buf[c.pos + n..] == c.buf[c.pos + m..];
    assert CopyOver(next, v) == v[..m] + next[m..];
    assert c.buf[..c.pos] + (v[..m] + next[m..]) + c.buf[c.pos + n..] ==
        c.buf[..c.pos] + v[..m] + (next[m..] + c.buf[c.pos + n..]);
  }

  lemma {:induction false} CopiedBytes(c: Cursor, v: bytes, length: nat)
    ensures var n := if length == 0 then |v| else length;
      var m := if |v| < n then |v| else n;
      EncodeBytes(c, v, length) ==
        if c.pos + n > |c.buf| then None
        else Some(Cursor(c.buf[..c.pos] + v[..m] + c.buf[c.pos + m..], c.pos + n))
  {
    var n := if length == 0 then |v| else length;
    if c.pos + n <= |c.buf| {
      Spliced(c, v, n);
    }
  }

  lemma {:induction false} Overwritten(c: Cursor, v: bytes, n: nat, after: bytes)
    requires c.pos + n <= |c.buf| == |after|
    requires var m := if |v| < n then |v| else n;
      && (forall k | 0 <= k < m :: after[c.pos + k] == v[k])
      && (forall k | 0 <= k < |after| && !(c.pos <= k < c.pos + m) :: after[k] == c.buf[k])
    ensures Write(c, CopyOver(c.buf[c.pos..c.pos + n], v)) == Cursor(after, c.pos + n)
  {
    hide *;
    var m := if |v| < n then |v| else n;
    Spliced(c, v, n);
    ThreeParts(after, c.buf, v, c.pos, m);
  }

  lemma {:induction false} ThreeParts(after: bytes, was: bytes, v: bytes, pos: nat, m: nat)
    requires pos + m <= |was| == |after| && m <= |v|
    requires forall k | 0 <= k < m :: after[pos + k] == v[k]
    requires forall k | 0 <= k < |after| && !(pos <= k < pos + m) :: after[k] == was[k]
    ensures after == was[..pos] + v[..m] + was[pos + m..]
  {
    hide *;
    forall k | pos <= k < pos + m ensures after[k] == v[k - pos] {
      assert after[pos + (k - pos)] == v[k - pos];
    }
  }
}
