/** How a reply finds its request: the packed context, its place in the headers, the sequence numbers. */
module RequestContext {
  import opened Wrappers
  import opened Bytes
  import opened Schema
  import opened Values
  import opened MessageCodec

  type uint16 = x: int | 0 <= x < 0x1_0000

  type uint32 = x: int | 0 <= x < 0x1_0000_0000

  /** 15 bits of channel ID (the 16th is shifted out), one multipart bit, 16 bits of sequence number. */
  function Pack(chanID: uint16, isMultipart: bool, seqNum: uint16): uint32
  {
    chanID * 0x2_0000 % 0x1_0000_0000 + (if isMultipart then 0x1_0000 else 0) + seqNum
  }

  function Unpack(context: uint32): (uint16, bool, uint16)
  {
    (context / 0x2_0000, context / 0x1_0000 % 2 != 0, context % 0x1_0000)
  }

  lemma {:induction false} UnpackPack(chanID: uint16, isMultipart: bool, seqNum: uint16)
    ensures Unpack(Pack(chanID, isMultipart, seqNum)) == (chanID, isMultipart, seqNum) <==> chanID < 0x8000
    ensures 0 < chanID < 0x8000 ==> Pack(chanID, isMultipart, seqNum) != 0
  {
    var kept := if chanID < 0x8000 then chanID else chanID - 0x8000;
    KeptBits(chanID);
    Digits(kept, if isMultipart then 1 else 0, seqNum);
  }

  lemma {:induction false} KeptBits(chanID: uint16)
    ensures chanID * 0x2_0000 % 0x1_0000_0000 == (if chanID < 0x8000 then chanID else chanID - 0x8000) * 0x2_0000
  {
  }

  lemma {:induction false} Digits(high: nat, flag: nat, low: uint16)
    requires flag < 2
    ensures var x := high * 0x2_0000 + flag * 0x1_0000 + low;
      x / 0x2_0000 == high && x / 0x1_0000 == 2 * high + flag && x % 0x1_0000 == low
  {
  }

  lemma {:induction false} PackUnpack(context: uint32)
    ensures var (chanID, isMultipart, seqNum) := Unpack(context); Pack(chanID, isMultipart, seqNum) == context
  {
    var chanID := context / 0x2_0000;
    assert chanID * 0x2_0000 < 0x1_0000_0000;
    assert context / 0x1_0000 == 2 * chanID + context / 0x1_0000 % 2;
  }

  // ---------------------------------------------------------------- headers

  /** SendMsg's check and setMsgRequestHeader: client index at bytes 2..6, context at bytes 6..10. */
  method SetMsgRequestHeader(data: array<byte>, clientIndex: uint32, context: uint32) returns (ok: bool)
    modifies data
    ensures ok == (data.Length >= 10)
    ensures data[..] == if ok then WithRequestHeader(old(data[..]), clientIndex, context) else old(data[..])
  {
    if data.Length < 10 {
      return false;
    }
    var index, ctx := BigEndian(clientIndex, 4), BigEndian(context, 4);
    data[2], data[3], data[4], data[5] := index[0], index[1], index[2], index[3];
    data[6], data[7], data[8], data[9] := ctx[0], ctx[1], ctx[2], ctx[3];
    return true;
  }

  function WithRequestHeader(data: bytes, clientIndex: uint32, context: uint32): bytes
    requires |data| >= 10
  {
    data[..2] + BigEndian(clientIndex, 4) + BigEndian(context, 4) + data[10..]
  }

  /** None where slicing the message panics; messages that are neither have context 0. */
  function DecodeMsgContext(data: bytes, t: MessageType): Option<nat>
  {
    match t
    case RequestMessage => if |data| >= 10 then Some(FromBigEndian(data[6..10])) else None
    case ReplyMessage => if |data| >= 6 then Some(FromBigEndian(data[2..6])) else None
    case _ => Some(0)
  }

  /**
   For every channel ID of the pool: the context put into a request leaves the message ID and the
   payload alone, is what the request and any reply echoing it decode to, is never the 0 that marks a
   notification, and unpacks to the channel, flag and sequence number it was packed from.
   */
  lemma {:induction false} CorrelationRoundTrip(
    request: bytes, clientIndex: uint32, chanID: uint16, isMultipart: bool, seqNum: uint16, reply: bytes)
    requires |request| >= 10 && 1 <= chanID <= 0x7fff
    ensures var context := Pack(chanID, isMultipart, seqNum);
      var sent := WithRequestHeader(request, clientIndex, context);
      && |sent| == |request| && sent[..2] == request[..2] && sent[10..] == request[10..]
      && DecodeMsgContext(sent, RequestMessage) == Some(context)
      && (|reply| >= 6 && reply[2..6] == sent[6..10] ==> DecodeMsgContext(reply, ReplyMessage) == Some(context))
      && context != 0
      && Unpack(context) == (chanID, isMultipart, seqNum)
  {
    var context := Pack(chanID, isMultipart, seqNum);
    var sent := WithRequestHeader(request, clientIndex, context);
    Pow256Values();
    BigEndianRoundTrip(context, 4);
    UnpackPack(chanID, isMultipart, seqNum);
    assert sent[6..10] == BigEndian(context, 4);
  }

  /** The request that reaches the other side still decodes to the value that was encoded. */
  lemma {:induction false} HeaderKeepsMessage(
    fields: seq<Field>, vs: seq<Value>, msgID: nat, clientIndex: uint32, context: uint32, before: seq<Value>)
    requires WellFormed(fields) && Typed(fields, vs) && Fits(fields, vs) && Typed(fields, before)
    ensures var data := EncodeMsg(fields, RequestMessage, vs, msgID);
      && data.Some? && |data.value| >= 10 + |Wire(fields, vs, 0)| &&
          data.value[10..][..|Wire(fields, vs, 0)|] == Wire(fields, vs, 0)
      && DecodeMsg(fields, RequestMessage, WithRequestHeader(data.value, clientIndex, context), before)
      == Some((Rec(Norm(fields, vs, |fields|)), 10 + |Wire(fields, vs, 0)|))
  {
    hide WellFormed, Typed, Fits, Norm, Wire, DecodeMsg, EncodeMsg;
    EncodedBytes(fields, RequestMessage, vs, msgID);
    var data := EncodeMsg(fields, RequestMessage, vs, msgID).value;
    var wire, more := Wire(fields, vs, 0), Zeros(EmptyUnions(fields, vs, 0));
    assert data[10..] == wire + more;
    var header := data[..2] + BigEndian(clientIndex, 4) + BigEndian(context, 4);
    assert WithRequestHeader(data, clientIndex, context) == header + wire + more;
    TrailingBytes(fields, RequestMessage, vs, header, more, before);
  }

  // ---------------------------------------------------------------- sequence numbers

  /** compareSeqNumbers: -1, 0, 1 as seqNum1 precedes, equals or succeeds seqNum2. */
  function CompareSeqNumbers(seqNum1: uint16, seqNum2: uint16): int
  {
    var dist := if seqNum1 <= seqNum2 then seqNum2 - seqNum1 else 0xffff - (seqNum1 - seqNum2 - 1);
    if dist == 0 then 0 else if dist <= 0x8000 then -1 else 1
  }

  function Sign(x: int): int { if x < 0 then -1 else if x > 0 then 1 else 0 }

  /** The uint16 that counter number n shows. */
  function Short(n: int): uint16 { n % 0x1_0000 }

  /** How far apart two counters may be for their low 16 bits to be compared correctly. */
  predicate Comparable(difference: int)
  {
    || difference == 0
    || (difference < 0 && 1 <= -difference % 0x1_0000 <= 0x8000)
    || (difference > 0 && 1 <= difference % 0x1_0000 <= 0x7fff)
  }

  /** The comparison of unbounded counters through their low 16 bits is right exactly when Comparable. */
  lemma {:induction false} CompareExactly(a: int, b: int)
    ensures CompareSeqNumbers(Short(a), Short(b)) == Sign(a - b) <==> Comparable(a - b)
    ensures -0x8000 <= a - b <= 0x7fff ==> Comparable(a - b)
  {
    ShortDistance(a, b);
    ShortDistance(b, a);
  }

  lemma {:induction false} ShortDistance(a: int, b: int)
    ensures (b - a) % 0x1_0000 == if Short(a) <= Short(b) then Short(b) - Short(a) else 0x1_0000 - (Short(a) - Short(b))
  {
    var qa, qb := a / 0x1_0000, b / 0x1_0000;
    assert a == 0x1_0000 * qa + Short(a) && b == 0x1_0000 * qb + Short(b);
  }

  /** At a distance of exactly 2^15 each of two numbers is reported to precede the other. */
  lemma {:induction false} HalfwayIsAmbiguous(a: int)
    ensures CompareSeqNumbers(Short(a), Short(a + 0x8000)) == -1
    ensures CompareSeqNumbers(Short(a + 0x8000), Short(a)) == -1
  {
    ShortDistance(a, a + 0x8000);
    ShortDistance(a + 0x8000, a);
  }
}
