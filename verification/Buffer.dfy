/** The codec buffer itself, updated in place and proved against the functions of Cursors. */
module Codec {
  import opened Wrappers
  import opened Bytes
  import opened Cursors

  /** bytes.Index(v, {0}), or the length if there is no NUL. */
  method IndexOfNul(v: bytes) returns (nul: nat)
    ensures nul <= |v| && v[..nul] == CutAtNul(v)
  {
    nul := 0;
    while nul < |v| && v[nul] != 0
      invariant nul <= |v| && forall k | 0 <= k < nul :: v[k] != 0
    {
      nul := nul + 1;
    }
    CutIs(v, nul);
  }

  /** codec.Buffer; an operation answers false where the Go method panics. */
  class Buffer {
    var buf: array<byte>
    var pos: nat

    ghost function Value(): Cursor
      reads this, buf
    {
      Cursor(buf[..], pos)
    }

    ghost predicate Became(r: Option<Cursor>, was: Cursor, ok: bool)
      reads this, buf
    {
      ok == r.Some? && Value() == if r.Some? then r.value else was
    }

    constructor (b: array<byte>)
      ensures buf == b && pos == 0
    {
      buf, pos := b, 0;
    }

    /** The data up to the current position. */
    method Bytes() returns (bs: bytes)
      requires pos <= buf.Length
      ensures bs == buf[..pos]
    {
      bs := buf[..pos];
    }

    /** Go's copy of the first m bytes of v to the current position. */
    method CopyIn(v: bytes, m: nat)
      requires m <= |v| && pos + m <= buf.Length
      modifies buf
      ensures buf[..] == old(buf[..pos]) + v[..m] + old(buf[pos + m..])
    {
      var i := 0;
      while i < m
        invariant 0 <= i <= m
        invariant buf[..] == old(buf[..pos]) + v[..i] + old(buf[pos + i..])
      {
        buf[pos + i] := v[i];
        i := i + 1;
      }
    }

    method EncodeBytes(v: bytes, length: nat) returns (ok: bool)
      modifies this`pos, buf
      ensures Became(Cursors.EncodeBytes(old(Value()), v, length), old(Value()), ok)
    {
      hide CopyOver, Write, Cursors.EncodeBytes;
      CopiedBytes(Value(), v, length);
      var n := if length == 0 then |v| else length;
      if pos + n > buf.Length {
        return false;
      }
      CopyIn(v, if |v| < n then |v| else n);
      pos := pos + n;
      return true;
    }

    method EncodeUint(v: nat, w: nat) returns (ok: bool)
      modifies this`pos, buf
      ensures Became(Cursors.EncodeUint(old(Value()), v, w), old(Value()), ok)
    {
      if pos + w > buf.Length {
        return false;
      }
      var i, x := w, v;
      while i > 0
        modifies buf
        invariant 0 <= i <= w
        invariant BigEndian(v, w)[..i] == BigEndian(x, i)
        invariant forall k | i <= k < w :: buf[pos + k] == BigEndian(v, w)[k]
        invariant forall k | 0 <= k < buf.Length && !(pos + i <= k < pos + w) :: buf[k] == old(buf[k])
      {
        i := i - 1;
        assert BigEndian(v, w)[i] == BigEndian(v, w)[..i + 1][i];
        assert BigEndian(v, w)[..i] == BigEndian(v, w)[..i + 1][..i];
        buf[pos + i] := x % 256;
        x := x / 256;
      }
      Overwritten(old(Value()), BigEndian(v, w), w, buf[..]);
      pos := pos + w;
      return true;
    }

    method EncodeInt(v: int, w: nat) returns (ok: bool)
      modifies this`pos, buf
      ensures Became(Cursors.EncodeInt(old(Value()), v, w), old(Value()), ok)
    {
      ok := EncodeUint(ToUnsigned(v, w), w);
    }

    method EncodeFloat64(bits: nat) returns (ok: bool)
      modifies this`pos, buf
      ensures Became(Cursors.EncodeFloat64(old(Value()), bits), old(Value()), ok)
    {
      if pos + 8 > buf.Length {
        return false;
      }
      var i, x := 0, bits;
      while i < 8
        modifies buf
        invariant 0 <= i <= 8
        invariant LittleEndian(bits, 8)[i..] == LittleEndian(x, 8 - i)
        invariant forall k | 0 <= k < i :: buf[pos + k] == LittleEndian(bits, 8)[k]
        invariant forall k | 0 <= k < buf.Length && !(pos <= k < pos + i) :: buf[k] == old(buf[k])
      {
        assert LittleEndian(bits, 8)[i] == LittleEndian(bits, 8)[i..][0];
        assert LittleEndian(bits, 8)[i + 1..] == LittleEndian(bits, 8)[i..][1..];
        buf[pos + i] := x % 256;
        i, x := i + 1, x / 256;
      }
      Overwritten(old(Value()), LittleEndian(bits, 8), 8, buf[..]);
      pos := pos + 8;
      return true;
    }

    method EncodeBool(v: bool) returns (ok: bool)
      modifies this`pos, buf
      ensures Became(Cursors.EncodeBool(old(Value()), v), old(Value()), ok)
    {
      if pos >= buf.Length {
        return false;
      }
      buf[pos] := if v then 1 else 0;
      pos := pos + 1;
      return true;
    }

    /** A variable string that does not fit has already written its length when it panics. */
    method EncodeString(v: bytes, length: nat) returns (ok: bool)
      modifies this`pos, buf
      ensures ok == Cursors.EncodeString(old(Value()), v, length).Some?
      ensures ok ==> Value() == Cursors.EncodeString(old(Value()), v, length).value
    {
      if length == 0 {
        ok := EncodeUint(|v| % 0x1_0000_0000, 4);
        if !ok {
          return;
        }
      }
      ok := EncodeBytes(v, length);
    }

    method DecodeBytes(length: nat) returns (r: Option<bytes>)
      modifies this`pos
      ensures match Take(old(Value()), length)
              case Some((c, bs)) => r == Some(bs) && Value() == c
              case None => r == None && Value() == old(Value())
    {
      if pos + length > buf.Length {
        return None;
      }
      r := Some(buf[pos..pos + length]);
      pos := pos + length;
    }

    method DecodeUint(w: nat) returns (r: Option<nat>)
      modifies this`pos
      ensures match Cursors.DecodeUint(old(Value()), w)
              case Some((c, x)) => r == Some(x) && Value() == c
              case None => r == None && Value() == old(Value())
    {
      if pos + w > buf.Length {
        return None;
      }
      var x: nat, i: nat := 0, 0;
      while i < w
        invariant 0 <= i <= w
        invariant x == FromBigEndian(buf[pos..pos + i])
      {
        assert buf[pos..pos + i + 1][..i] == buf[pos..pos + i];
        x, i := 256 * x + buf[pos + i], i + 1;
      }
      pos := pos + w;
      return Some(x);
    }

    method DecodeInt(w: nat) returns (r: Option<int>)
      modifies this`pos
      ensures match Cursors.DecodeInt(old(Value()), w)
              case Some((c, x)) => r == Some(x) && Value() == c
              case None => r == None && Value() == old(Value())
    {
      var u := DecodeUint(w);
      if u.None? {
        return None;
      }
      FromBigEndianBound(buf[old(pos)..old(pos) + w]);
      return Some(ToSigned(u.value, w));
    }

    method DecodeBool() returns (r: Option<bool>)
      modifies this`pos
      ensures match Cursors.DecodeBool(old(Value()))
              case Some((c, b)) => r == Some(b) && Value() == c
              case None => r == None && Value() == old(Value())
    {
      if pos >= buf.Length {
        return None;
      }
      r := Some(buf[pos] != 0);
      pos := pos + 1;
    }

    method DecodeFloat64() returns (r: Option<nat>)
      modifies this`pos
      ensures match Cursors.DecodeFloat64(old(Value()))
              case Some((c, x)) => r == Some(x) && Value() == c
              case None => r == None && Value() == old(Value())
    {
      if pos + 8 > buf.Length {
        return None;
      }
      var x: nat, i: nat := 0, 8;
      while i > 0
        invariant 0 <= i <= 8
        invariant x == FromLittleEndian(buf[pos + i..pos + 8])
      {
        i := i - 1;
        assert buf[pos + i..pos + 8][1..] == buf[pos + i + 1..pos + 8];
        x := 256 * x + buf[pos + i];
      }
      pos := pos + 8;
      return Some(x);
    }

    method DecodeString(length: nat) returns (r: Option<bytes>)
      modifies this`pos
      ensures r.Some? == Cursors.DecodeString(old(Value()), length).Some?
      ensures r.Some? ==> Cursors.DecodeString(old(Value()), length) == Some((Value(), r.value))
    {
      if length == 0 {
        var n := DecodeUint(4);
        if n.None? {
          return None;
        }
        r := DecodeBytes(n.value);
      } else {
        r := DecodeBytes(length);
        if r.Some? {
          var v := r.value;
          var nul := IndexOfNul(v);
          r := Some(v[..nul]);
        }
      }
    }
  }
}
