/** The scalars on the wire, digit by digit: what their bytes are to somebody who only knows Go's types. */
module ScalarLayout {
  import opened Wrappers
  import opened Bytes
  import opened Cursors
  import opened Schema
  import opened Values

  /** The limits of Go's integer types. */
  function Limits(t: BaseType): (int, int)
  {
    match t
    case U8 => (0, 255)
    case I8 => (-128, 127)
    case U16 => (0, 65535)
    case I16 => (-32768, 32767)
    case U32 => (0, 4294967295)
    case I32 => (-2147483648, 2147483647)
    case U64 => (0, 18446744073709551615)
    case I64 => (-9223372036854775808, 9223372036854775807)
    case F64 => (0, 18446744073709551615)
    case _ => (0, 0)
  }

  /** The numbers of a type are those within its limits. */
  lemma {:induction false} TypedWithinLimits(t: BaseType, n: int)
    requires t != BOOL && t != STRING
    ensures ScalarTyped(t, Num(n)) <==> Limits(t).0 <= n <= Limits(t).1
  {
    Pow256Values();
  }

  lemma {:induction false} DivideTwice(x: int, a: nat, b: nat)
    requires a > 0 && b > 0
    ensures a * b > 0 && x / a / b == x / (a * b)
  {
    var q, r := x / a, x % a;
    var p, s := q / b, q % b;
    hide *;
    assert x == a * q + r && q == b * p + s;
    Shifted(a, b * p, s);
    Assoc(a, b, p);
    NoLess(a, s);
    NoLess(a, b - 1 - s);
    Shifted(a, s, b - 1 - s);
    Shifted(a, b - 1, 1);
    QuotientIs(x, a * b, p, a * s + r);
  }

  lemma {:induction false} Assoc(a: int, b: int, c: int)
    ensures a * (b * c) == (a * b) * c
  {
  }

  lemma {:induction false} QuotientIs(x: int, d: nat, q: int, r: int)
    requires d > 0 && x == d * q + r && 0 <= r < d
    ensures x / d == q
  {
    OneQuotient(d, q, r, x / d, x % d);
  }

  lemma {:induction false} OneQuotient(d: nat, q: int, r: int, p: int, s: int)
    requires d * q + r == d * p + s && 0 <= r < d && 0 <= s < d
    ensures p == q
  {
    if p > q {
      AtLeast(d, q, p);
    } else if p < q {
      AtLeast(d, p, q);
    }
  }

  lemma {:induction false} AtLeast(d: nat, low: int, high: int)
    requires low < high
    ensures d * high >= d * low + d
  {
    Shifted(d, low, high - low);
    Shifted(d, 1, high - low - 1);
    NoLess(d, high - low - 1);
  }

  lemma {:induction false} NoLess(d: nat, k: nat)
    ensures d * k >= 0
  {
  }

  lemma {:induction false} Shifted(p: nat, q: int, m: int)
    ensures p * (q + m) == p * q + p * m
  {
  }

  /** Byte i of a big-endian number is its digit to base 256, from the top. */
  lemma {:induction false} BigEndianDigits(x: nat, n: nat, i: nat)
    requires i < n
    ensures BigEndian(x, n)[i] == x / Pow256(n - 1 - i) % 256
  {
    if i < n - 1 {
      BigEndianDigits(x / 256, n - 1, i);
      DivideTwice(x, 256, Pow256(n - 2 - i));
    }
  }

  /** Byte i of a little-endian number is its digit to base 256, from the bottom. */
  lemma {:induction false} LittleEndianDigits(x: nat, n: nat, i: nat)
    requires i < n
    ensures LittleEndian(x, n)[i] == x / Pow256(i) % 256
  {
    if i > 0 {
      LittleEndianDigits(x / 256, n - 1, i - 1);
      DivideTwice(x, 256, Pow256(i - 1));
    }
  }

  lemma {:induction false} PowSplit(w: nat, k: nat)
    requires k <= w
    ensures Pow256(w) == Pow256(k) * Pow256(w - k)
  {
    if k > 0 {
      PowSplit(w - 1, k - 1);
      Move(Pow256(k - 1), Pow256(w - k));
    }
  }

  lemma {:induction false} Move(a: nat, b: nat)
    ensures 256 * (a * b) == (256 * a) * b
  {
  }

  /** Adding multiples of 256^w does not change the digits below. */
  lemma {:induction false} SameDigits(x: int, w: nat, k: nat, m: nat)
    requires k < w
    ensures (x + m * Pow256(w)) / Pow256(k) % 256 == x / Pow256(k) % 256
  {
    PowSplit(w, k);
    assert Pow256(w - k) == 256 * Pow256(w - k - 1);
    Undisturbed(x, m, Pow256(k), Pow256(w - k - 1));
  }

  lemma {:induction false} Undisturbed(x: int, m: nat, p: nat, r: nat)
    requires p > 0
    ensures (x + m * (p * (256 * r))) / p % 256 == x / p % 256
  {
    var q, high := x / p, m * r;
    Factors(m, p, r);
    Shifted(p, q, 256 * high);
    QuotientIs(x + m * (p * (256 * r)), p, q + 256 * high, x % p);
    TimesBase(q, high);
  }

  lemma {:induction false} TimesBase(q: int, k: nat)
    ensures (q + 256 * k) % 256 == q % 256
  {
  }

  lemma {:induction false} Factors(m: nat, p: nat, r: nat)
    ensures m * (p * (256 * r)) == p * (256 * (m * r))
  {
    assert m * (p * (256 * r)) == (m * p) * (256 * r) == p * (m * (256 * r));
  }

  /**
   An integer of w bytes, negative or not, is the digits of its division by powers of 256, from the top; w is the number
   of bytes whose values the limits of the type span.
   */
  lemma {:induction false} IntegerDigits(t: BaseType, n: int, i: nat)
    requires t in {U8, I8, U16, I16, U32, I32, U64, I64} && Limits(t).0 <= n <= Limits(t).1
    ensures var bs := ScalarBytes(t, Num(n));
      && Limits(t).1 - Limits(t).0 + 1 == Pow256(|bs|)
      && (i < |bs| ==> bs[i] == n / Pow256(|bs| - 1 - i) % 256)
  {
    Pow256Values();
    var w := BaseTypeSize(t);
    TypedWithinLimits(t, n);
    assert ScalarBytes(t, Num(n)) == BigEndian(ToUnsigned(n, w), w);
    if i < w {
      BigEndianDigits(ToUnsigned(n, w), w, i);
      if n < 0 {
        SameDigits(n, w, w - 1 - i, 1);
      }
    }
  }

  /** The other scalars: a float's bits from the bottom, one byte, and a string behind its length. */
  lemma {:induction false} OtherDigits(bits: nat, b: bool, bs: bytes, i: nat)
    requires bits < Pow256(8)
    ensures |ScalarBytes(F64, Num(bits))| == 8
    ensures i < 8 ==> ScalarBytes(F64, Num(bits))[i] == bits / Pow256(i) % 256
    ensures ScalarBytes(BOOL, Bool(b)) == [if b then 1 else 0]
    ensures |ScalarBytes(STRING, Bytes(bs))| == 4 + |bs| && ScalarBytes(STRING, Bytes(bs))[4..] == bs
    ensures i < 4 ==> ScalarBytes(STRING, Bytes(bs))[i] == |bs| / Pow256(3 - i) % 256
  {
    if i < 8 {
      LittleEndianDigits(bits, 8, i);
    }
    if i < 4 {
      BigEndianDigits(|bs| % 0x1_0000_0000, 4, i);
      LowDigits(|bs|, 3 - i);
    }
  }

  lemma {:induction false} LowDigits(x: nat, k: nat)
    requires k < 4
    ensures x % 0x1_0000_0000 / Pow256(k) % 256 == x / Pow256(k) % 256
  {
    Pow256Values();
    SameDigits(x % 0x1_0000_0000, 4, k, x / 0x1_0000_0000);
  }

  /** Go's zero values are zero bytes. */
  lemma {:induction false} ZeroIsZeros(t: BaseType)
    ensures ScalarTyped(t, ZeroScalar(t))
    ensures forall i | 0 <= i < |ScalarBytes(t, ZeroScalar(t))| :: ScalarBytes(t, ZeroScalar(t))[i] == 0
  {
    Pow256Values();
    assert forall n: nat | n <= 8 :: forall i | 0 <= i < n :: BigEndian(0, n)[i] == 0 by {
      forall n: nat, i | 0 <= i < n ensures BigEndian(0, n)[i] == 0 {
        ZeroDigits(n);
      }
    }
    ZeroDigits(8);
  }

  lemma {:induction false} ZeroDigits(n: nat)
    ensures BigEndian(0, n) == Zeros(n) == LittleEndian(0, n)
  {
    if n > 0 {
      ZeroDigits(n - 1);
    }
  }
}
