/** One request and its reply, from the packed context to the decoded value. */
module RequestReply {
  import opened Wrappers
  import opened Bytes
  import opened Schema
  import opened Values
  import opened MessageCodec
  import opened RequestContext
  import opened Channels
  import opened Connections
  import Framing

  /** A reply as VPP sends it: the message ID, the context of the request, and the encoded fields. */
  function ReplyTo(sent: bytes, msgID: uint16, fields: seq<Field>, vs: seq<Value>): bytes
    requires |sent| >= 10
  {
    BigEndian(msgID, 2) + sent[6..10] + Wire(fields, vs, 0)
  }

  /** What readerLoop and msgCallback queue for a message routed to a request; its ID is in the first two bytes. */
  function Received(data: bytes, isMulti: bool, seqNum: uint16, pingReplyID: uint16): Reply
    requires |data| >= 2
  {
    QueuedReply(FromBigEndian(data[..2]), data, isMulti, seqNum, pingReplyID)
  }

  lemma {:induction false} ReplyParts(sent: bytes, msgID: uint16, fields: seq<Field>, vs: seq<Value>)
    requires |sent| >= 10
    ensures var data := ReplyTo(sent, msgID, fields, vs);
      |data| >= 6 && data[2..6] == sent[6..10] && FromBigEndian(data[..2]) == msgID
  {
    Pow256Values();
    BigEndianRoundTrip(msgID, 2);
    var data := ReplyTo(sent, msgID, fields, vs);
    assert data[..2] == BigEndian(msgID, 2);
  }

  /** The queue behind older replies: the receiver takes turn after turn and drops them. */
  lemma {:induction false} OlderAreDropped(older: seq<Reply>, reply: Reply, turns: seq<Event>)
    requires forall i | 0 <= i < |older| :: CompareSeqNumbers(older[i].seqNum, reply.seqNum) == -1
    requires |turns| == |older| + 1 && forall i | 0 <= i < |turns| :: turns[i] == Ready
    ensures Await(older + [reply], reply.seqNum, turns) == (Matched(reply), [])
    decreases |older|
  {
    var q := older + [reply];
    if older == [] {
      assert q == [reply];
      SameOnlyAtZero(reply.seqNum, reply.seqNum);
    } else {
      assert q[1..] == older[1..] + [reply] && q[0] == older[0];
      OlderAreDropped(older[1..], reply, turns[1..]);
    }
  }

  /**
   For every request on a pool channel and every reply value: the framed reply is read back whole, goes to the
   channel and sequence number of the request, and is taken by the receiver behind any older replies. The reply to
   the control ping behind a multipart request is its last part; any other reply that is the expected message decodes,
   into a receiver that held anything, to the normalised value.
   */
  lemma {:induction false} ReplyReachesItsRequest(
    request: bytes, clientIndex: uint32, chanID: uint16, isMulti: bool, seqNum: uint16, pingReplyID: uint16,
    msgID: uint16, expMsgID: Option<nat>, fields: seq<Field>, vs: seq<Value>, before: seq<Value>,
    frameHeader: bytes, rest: bytes, older: seq<Reply>, turns: seq<Event>)
    requires |request| >= 10 && 1 <= chanID <= 0x7fff && |frameHeader| == Framing.HEADER
    requires WellFormed(fields) && Typed(fields, vs) && Fits(fields, vs) && Typed(fields, before)
    requires |Wire(fields, vs, 0)| + 6 < Framing.TWO32
    requires forall i | 0 <= i < |older| :: CompareSeqNumbers(older[i].seqNum, seqNum) == -1
    requires |turns| == |older| + 1 && forall i | 0 <= i < |turns| :: turns[i] == Ready
    ensures var sent := WithRequestHeader(request, clientIndex, Pack(chanID, isMulti, seqNum));
      var data := ReplyTo(sent, msgID, fields, vs);
      var reply := Received(data, isMulti, seqNum, pingReplyID);
      && Framing.Unframe(Framing.Frame(frameHeader, data) + rest) == Some((data, rest))
      && RouteOf(Some(ReplyMessage), false, data) == ToChannel(chanID, isMulti, seqNum)
      && Await(older + [reply], seqNum, turns) == (Matched(reply), [])
      && (Judge(reply, expMsgID) == LastPart <==> isMulti && msgID == pingReplyID)
      && (Judge(reply, expMsgID) == Decode(data) <==> !(isMulti && msgID == pingReplyID) && expMsgID == Some(msgID))
      && DecodeMsg(fields, ReplyMessage, data, before) == Some((Rec(Norm(fields, vs, |fields|)), |data|))
  {
    hide *;
    var sent := WithRequestHeader(request, clientIndex, Pack(chanID, isMulti, seqNum));
    SentLength(request, clientIndex, Pack(chanID, isMulti, seqNum));
    var data := ReplyTo(sent, msgID, fields, vs);
    ReplyParts(sent, msgID, fields, vs);
    ReplyLength(sent, msgID, fields, vs);
    Framing.UnframeFrame(frameHeader, data, rest);
    ReplyFindsItsRequest(request, clientIndex, chanID, isMulti, seqNum, data);
    ReceivedIs(data, isMulti, seqNum, pingReplyID, msgID, expMsgID);
    OlderAreDropped(older, Received(data, isMulti, seqNum, pingReplyID), turns);
    DecodedReply(sent, msgID, fields, vs, before);
  }

  lemma {:induction false} SentLength(request: bytes, clientIndex: uint32, context: uint32)
    requires |request| >= 10
    ensures |WithRequestHeader(request, clientIndex, context)| == |request|
  {
  }

  lemma {:induction false} ReplyLength(sent: bytes, msgID: uint16, fields: seq<Field>, vs: seq<Value>)
    requires |sent| >= 10
    ensures |ReplyTo(sent, msgID, fields, vs)| == 6 + |Wire(fields, vs, 0)|
  {
  }

  lemma {:induction false} ReceivedIs(
    data: bytes, isMulti: bool, seqNum: uint16, pingReplyID: uint16, msgID: uint16,
    expMsgID: Option<nat>)
    requires |data| >= 2 && FromBigEndian(data[..2]) == msgID
    ensures var reply := Received(data, isMulti, seqNum, pingReplyID);
      && reply.seqNum == seqNum
      && (Judge(reply, expMsgID) == LastPart <==> isMulti && msgID == pingReplyID)
      && (Judge(reply, expMsgID) == Decode(data) <==> !(isMulti && msgID == pingReplyID) && expMsgID == Some(msgID))
  {
  }

  lemma {:induction false} DecodedReply(
    sent: bytes, msgID: uint16, fields: seq<Field>, vs: seq<Value>, before: seq<Value>)
    requires |sent| >= 10
    requires WellFormed(fields) && Typed(fields, vs) && Fits(fields, vs) && Typed(fields, before)
    ensures var data := ReplyTo(sent, msgID, fields, vs);
      DecodeMsg(fields, ReplyMessage, data, before) == Some((Rec(Norm(fields, vs, |fields|)), |data|))
  {
    hide WellFormed, Typed, Fits, Wire, Norm, DecodeMsg;
    DecodedValue(fields, ReplyMessage, vs, BigEndian(msgID, 2) + sent[6..10], before);
  }
}
