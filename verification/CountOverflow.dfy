/** What happens to an array that is longer than its size field can say. */
module CountOverflow {
  import opened Wrappers
  import opened Bytes
  import opened Cursors
  import opened Schema
  import opened Values
  import opened Program
  import opened Emitted
  import opened MessageCodec

  /** A byte array behind its size field, the smallest message with a counted array. */
  function CountedBytes(b: BaseType): seq<Field>
  {
    [Field("n", Base(b), false, 0, ""), Field("xs", Base(U8), true, 0, "n")]
  }

  lemma {:induction false} CountedBytesLinks(b: BaseType)
    requires b in {U8, U16, U32, U64}
    ensures var fields := CountedBytes(b);
      && FieldSizeFrom(fields, 0) == None && FieldSizeFrom(fields, 1) == Some(0)
      && FieldSizeOf(fields, 0) == Some(1) && FieldSizeOf(fields, 1) == None
      && WellFormed(fields)
  {
    var fields := CountedBytes(b);
    assert FirstNamed(fields, "n", 0) == Some(0);
    assert FirstSizedBy(fields, "n", 0) == Some(1);
    assert FirstSizedBy(fields, "xs", 0) == None;
    assert CountedBefore(fields, 1);
  }

  lemma {:induction false} CountedBytesWire(b: BaseType, n: int, bs: bytes)
    requires b in {U8, U16, U32, U64}
    ensures Wire(CountedBytes(b), [Num(n), Bytes(bs)], 0) == ScalarBytes(b, Num(|bs|)) + bs
  {
    hide FirstNamed, FirstSizedBy, FieldSizeFrom, FieldSizeOf, WellFormed, ScalarBytes;
    CountedBytesLinks(b);
    var fields, vs := CountedBytes(b), [Num(n), Bytes(bs)];
    assert WireAt(fields, vs, 0) == ScalarBytes(b, Num(|bs|));
    assert WireAt(fields, vs, 1) == bs;
    assert Wire(fields, vs, 1) == bs + Wire(fields, vs, 2) && Wire(fields, vs, 2) == [];
  }

  lemma {:induction false} CountedBytesNorm(b: BaseType, n: int, bs: bytes)
    requires b in {U8, U16, U32, U64}
    ensures Norm(CountedBytes(b), [Num(n), Bytes(bs)], 2) == [Num(|bs|), Bytes(bs)]
    ensures EmptyUnions(CountedBytes(b), [Num(n), Bytes(bs)], 0) == 0
  {
    hide FirstNamed, FirstSizedBy, FieldSizeFrom, FieldSizeOf, WellFormed;
    CountedBytesLinks(b);
    var fields, vs := CountedBytes(b), [Num(n), Bytes(bs)];
    assert EmptyUnions(fields, vs, 1) == EmptyUnionsField(fields[1], vs[1]) + EmptyUnions(fields, vs, 2);
    assert NormAt(fields, vs, 0) == Num(|bs|) && NormAt(fields, vs, 1) == Bytes(bs);
  }

  /** What a size field of type b says of n elements. */
  function Shown(b: BaseType, n: nat): (m: nat)
    ensures m <= n && (m == n <==> n < Pow256(BaseTypeSize(b)))
  {
    ModSmaller(n, Pow256(BaseTypeSize(b)));
    n % Pow256(BaseTypeSize(b))
  }

  lemma {:induction false} ModSmaller(n: nat, m: nat)
    requires m > 0
    ensures 0 <= n % m <= n && (n % m == n <==> n < m) && n % m < m
  {
  }

  lemma {:induction false} ShownBytes(b: BaseType, n: nat)
    requires b in {U8, U16, U32, U64}
    ensures ScalarBytes(b, Num(n)) == ScalarBytes(b, Num(Shown(b, n)))
    ensures |ScalarBytes(b, Num(n))| == BaseTypeSize(b) && Shown(b, n) < Pow256(BaseTypeSize(b))
  {
    ModSmaller(n, Pow256(BaseTypeSize(b)));
  }

  lemma {:induction false} CountedBytesTyped(b: BaseType, n: int, bs: bytes)
    requires b in {U8, U16, U32, U64} && ScalarTyped(b, Num(n))
    ensures Typed(CountedBytes(b), [Num(n), Bytes(bs)])
  {
    hide WellFormed, FirstNamed, FirstSizedBy, FieldSizeFrom, FieldSizeOf, ScalarTyped;
    CountedBytesLinks(b);
  }

  lemma {:induction false} CountedBytesFit(b: BaseType, n: int, bs: bytes)
    requires b in {U8, U16, U32, U64} && |bs| < Pow256(BaseTypeSize(b))
    ensures Fits(CountedBytes(b), [Num(n), Bytes(bs)])
  {
    hide WellFormed, FirstNamed, FirstSizedBy, FieldSizeFrom, FieldSizeOf, Pow256;
    CountedBytesLinks(b);
  }

  /**
   What a length that does not fit becomes, for the smallest such messages. The count wraps around: what is decoded
   is the array cut to its length modulo the range of the size field, with no error, and the rest of the message is
   left unread. It comes back whole exactly when its length fits.
   */
  lemma {:induction false} CountWraps(b: BaseType, t: MessageType, n: int, bs: bytes, msgID: nat, before: seq<Value>)
    requires b in {U8, U16, U32, U64} && ScalarTyped(b, Num(n)) && Typed(CountedBytes(b), before)
    ensures var data := EncodeMsg(CountedBytes(b), t, [Num(n), Bytes(bs)], msgID);
      var kept := Shown(b, |bs|);
      && data.Some?
      && DecodeMsg(CountedBytes(b), t, data.value, before)
      == Some((Rec([Num(kept), Bytes(bs[..kept])]), GetOffset(t) + BaseTypeSize(b) + kept))
      && (bs[..kept] == bs <==> |bs| < Pow256(BaseTypeSize(b)))
  {
    hide *;
    var fields, kept := CountedBytes(b), Shown(b, |bs|);
    var cut := bs[..kept];
    CountedBytesLinks(b);
    CountedBytesTyped(b, n, bs);
    ShownBytes(b, |bs|);
    CountedBytesTyped(b, n, cut);
    CountedBytesFit(b, n, cut);
    CountedBytesWire(b, n, bs);
    CountedBytesWire(b, n, cut);
    CountedBytesNorm(b, n, bs);
    CountedBytesNorm(b, n, cut);
    EncodedBytes(fields, t, [Num(n), Bytes(bs)], msgID);
    HeaderLength(t, msgID);
    var header := BigEndian(msgID, 2) + Zeros(GetOffset(t) - 2);
    TrailingBytes(fields, t, [Num(n), Bytes(cut)], header, bs[kept..], before);
    var count := ScalarBytes(b, Num(|bs|));
    assert Zeros(0) == [];
    assert header + (count + bs) + [] == header + (count + cut) + bs[kept..];
    TwoFields(b);
  }

  lemma {:induction false} TwoFields(b: BaseType)
    ensures |CountedBytes(b)| == 2
  {
  }
}
