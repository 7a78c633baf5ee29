/** Opening and closing channels over one connection, and the way of a message to its channel. */
module Connections {
  import opened Wrappers
  import opened Bytes
  import opened MessageCodec
  import opened RequestContext
  import opened Channels

  // ---------------------------------------------------------------- the pool of channel IDs

  datatype PoolOp = Take | Give(id: uint16)

  /** The IDs handed out by a run of pool operations; taking from an empty pool hands out nothing. */
  function Issued(ids: seq<uint16>, ops: seq<PoolOp>): seq<uint16>
    decreases |ops|
  {
    if ops == [] then []
    else if ops[0].Give? then Issued(ids + [ops[0].id], ops[1..])
    else if ids == [] then Issued(ids, ops[1..])
    else [ids[0]] + Issued(ids[1..], ops[1..])
  }

  function Left(ids: seq<uint16>, ops: seq<PoolOp>): seq<uint16>
    decreases |ops|
  {
    if ops == [] then ids
    else if ops[0].Give? then Left(ids + [ops[0].id], ops[1..])
    else Left(if ids == [] then ids else ids[1..], ops[1..])
  }

  function Given(ops: seq<PoolOp>): seq<uint16>
  {
    if ops == [] then [] else if ops[0].Give? then [ops[0].id] + Given(ops[1..]) else Given(ops[1..])
  }

  /** Every ID leaves the pool once for each time it was there, in the order in which they came. */
  lemma {:induction false} PoolIsFifo(ids: seq<uint16>, ops: seq<PoolOp>)
    ensures Issued(ids, ops) + Left(ids, ops) == ids + Given(ops)
    decreases |ops|
  {
    if ops == [] {
      assert ids + [] == ids == [] + ids;
    } else if ops[0].Give? {
      PoolIsFifo(ids + [ops[0].id], ops[1..]);
      Reassociate(ids, [ops[0].id], Given(ops[1..]));
    } else if ids == [] {
      PoolIsFifo(ids, ops[1..]);
    } else {
      PoolIsFifo(ids[1..], ops[1..]);
      Reassociate([ids[0]], ids[1..], Given(ops));
      Reassociate([ids[0]], Issued(ids[1..], ops[1..]), Left(ids[1..], ops[1..]));
      assert ids == [ids[0]] + ids[1..];
    }
  }

  lemma {:induction false} Reassociate(a: seq<uint16>, b: seq<uint16>, c: seq<uint16>)
    ensures (a + b) + c == a + (b + c)
  {
  }

  /** A released ID is handed out again only after every ID that was free when it was released. */
  lemma {:induction false} ReissuedLast(ids: seq<uint16>, id: uint16, ops: seq<PoolOp>, k: nat)
    requires id !in ids && k < |Issued(ids, [Give(id)] + ops)|
    requires Issued(ids, [Give(id)] + ops)[k] == id
    ensures k >= |ids| && Issued(ids, [Give(id)] + ops)[..|ids|] == ids
  {
    var all := [Give(id)] + ops;
    PoolIsFifo(ids, all);
    assert Issued(ids, all)[k] == (ids + Given(all))[k];
    assert forall i | 0 <= i < |ids| :: (ids + Given(all))[i] == ids[i];
    assert k >= |ids|;
    assert forall i | 0 <= i < |ids| :: Issued(ids, all)[i] == (Issued(ids, all) + Left(ids, all))[i];
  }

  predicate Distinct(s: seq<uint16>)
  {
    forall i, j | 0 <= i < j < |s| :: s[i] != s[j]
  }

  const MAX_ID: uint16 := 0x7fff

  /** Free and live IDs: each of 1..MAX_ID is one or the other, once. */
  predicate Partition(free: seq<uint16>, live: set<uint16>)
  {
    && Distinct(free)
    && (forall id: uint16 :: 1 <= id <= MAX_ID <==> id in free || id in live)
    && (forall id | id in free :: id !in live)
  }

  /** The IDs of the pool are just those that a packed context gives back and that never make it 0. */
  lemma {:induction false} PoolFitsContext(id: uint16)
    ensures 1 <= id <= MAX_ID <==>
      forall isMulti, seqNum: uint16 ::
        Unpack(Pack(id, isMulti, seqNum)) == (id, isMulti, seqNum) && Pack(id, isMulti, seqNum) != 0
  {
    forall isMulti, seqNum: uint16
      ensures Unpack(Pack(id, isMulti, seqNum)) == (id, isMulti, seqNum) <==> id < 0x8000
      ensures 0 < id < 0x8000 ==> Pack(id, isMulti, seqNum) != 0
    {
      UnpackPack(id, isMulti, seqNum);
    }
    assert Pack(0, false, 0) == 0;
    assert Unpack(Pack(id, false, 0)) == (id, false, 0) <==> id < 0x8000;
  }

  lemma {:induction false} PartitionMoves(free: seq<uint16>, live: set<uint16>)
    requires Partition(free, live)
    ensures free != [] ==> free[0] !in live && Partition(free[1..], live + {free[0]})
    ensures free != [] ==> Partition(free[1..] + [free[0]], live)
    ensures forall id | id in live :: Partition(free + [id], live - {id})
  {
    if free != [] {
      var rotated := free[1..] + [free[0]];
      assert free == [free[0]] + free[1..];
      assert forall id :: id in free <==> id == free[0] || id in free[1..];
      assert forall id :: id in free <==> id in rotated;
    }
  }

  class IdPool {
    var ids: seq<uint16>

    constructor (maxID: uint16)
      ensures ids == seq(maxID, i => i + 1)
    {
      var built: seq<uint16> := [];
      for i := 0 to maxID
        invariant built == seq(i, k => k + 1)
      {
        built := built + [i + 1];
      }
      ids := built;
    }

    method Get() returns (r: Result<uint16, string>)
      modifies this
      ensures Issued(old(ids), [Take]) == if r.Ok? then [r.value] else []
      ensures ids == Left(old(ids), [Take])
      ensures r.Ok? <==> old(ids) != []
      ensures if r.Ok? then [r.value] + ids == old(ids) else ids == old(ids)
    {
      if |ids| == 0 {
        return Err("no more IDs available");
      }
      var id := ids[0];
      ids := ids[1..];
      return Ok(id);
    }

    method Put(id: uint16)
      modifies this
      ensures ids == old(ids) + [id] == Left(old(ids), [Give(id)])
    {
      ids := ids + [id];
    }
  }

  // ---------------------------------------------------------------- routing a message

  /** Where a message goes; Panics stands for slicing a message that is too short for its context. */
  datatype Route = Unknown | Panics | Notification | ToChannel(chanID: uint16, isMulti: bool, seqNum: uint16)

  /** msgType is None for a message ID without a registered message; subscribed: someone wants it as an event. */
  function RouteOf(msgType: Option<MessageType>, subscribed: bool, data: bytes): Route
  {
    if msgType.None? then Unknown
    else
      var context := DecodeMsgContext(data, msgType.value);
      if context.None? then Panics
      else if context.value == 0 || subscribed then Notification
      else var (chanID, isMulti, seqNum) := Unpack(Context32(data, msgType.value)); ToChannel(chanID, isMulti, seqNum)
  }

  /** The decoded context as the 32-bit number it is. */
  function Context32(data: bytes, t: MessageType): (context: uint32)
    requires DecodeMsgContext(data, t).Some?
    ensures context == DecodeMsgContext(data, t).value
  {
    Pow256Values();
    if t.RequestMessage? then FromBigEndianBound(data[6..10]); DecodeMsgContext(data, t).value
    else if t.ReplyMessage? then FromBigEndianBound(data[2..6]); DecodeMsgContext(data, t).value
    else 0
  }

  /** A reply echoing the context of a request from a pool ID goes to exactly that channel and request. */
  lemma {:induction false} ReplyFindsItsRequest(
    request: bytes, clientIndex: uint32, chanID: uint16, isMultipart: bool, seqNum: uint16, reply: bytes)
    requires |request| >= 10 && 1 <= chanID <= 0x7fff && |reply| >= 6
    ensures reply[2..6] == WithRequestHeader(request, clientIndex, Pack(chanID, isMultipart, seqNum))[6..10]
      <==> RouteOf(Some(ReplyMessage), false, reply) == ToChannel(chanID, isMultipart, seqNum)
  {
    var context := Pack(chanID, isMultipart, seqNum);
    var sent := WithRequestHeader(request, clientIndex, context);
    CorrelationRoundTrip(request, clientIndex, chanID, isMultipart, seqNum, reply);
    if RouteOf(Some(ReplyMessage), false, reply) == ToChannel(chanID, isMultipart, seqNum) {
      PackUnpack(Context32(reply, ReplyMessage));
      assert FromBigEndian(reply[2..6]) == context == FromBigEndian(sent[6..10]);
      BigEndianOfFrom(reply[2..6]);
      BigEndianOfFrom(sent[6..10]);
    }
  }

  /**
   Every other message: it goes to a channel and request exactly if it carries the context packed for them, nobody wants
   it as an event and that context is not 0. Events and messages without a context never do; a message that is too
   short for its context is a panic.
   */
  lemma {:induction false} RoutedExactly(
    t: MessageType, subscribed: bool, data: bytes, chanID: uint16, isMultipart: bool, seqNum: uint16)
    requires chanID < 0x8000
    ensures var context := Pack(chanID, isMultipart, seqNum);
      RouteOf(Some(t), subscribed, data) == ToChannel(chanID, isMultipart, seqNum)
      <==> !subscribed && context != 0 && DecodeMsgContext(data, t) == Some(context)
    ensures t.EventMessage? || t.OtherMessage? ==> RouteOf(Some(t), subscribed, data) == Notification
    ensures subscribed ==> !RouteOf(Some(t), subscribed, data).ToChannel?
    ensures RouteOf(None, subscribed, data) == Unknown
    ensures RouteOf(Some(t), subscribed, data) == Panics <==>
      |data| < if t.RequestMessage? then 10 else if t.ReplyMessage? then 6 else 0
  {
    UnpackPack(chanID, isMultipart, seqNum);
    if DecodeMsgContext(data, t).Some? {
      PackUnpack(Context32(data, t));
    }
  }

  /** The reply that msgCallback queues: that to the control ping ends a multipart request. */
  function QueuedReply(msgID: nat, data: bytes, isMulti: bool, seqNum: uint16, pingReplyID: nat): Reply
  {
    Reply(seqNum, msgID, data, isMulti && msgID == pingReplyID, None)
  }

  // ---------------------------------------------------------------- the connection

  /** What the channel pool hands out: a channel that was put back, a new one, or nothing. */
  datatype Supply = Reused(ch: Channel) | Created | Nothing

  class Connection {
    const channelIdPool: IdPool
    var channels: map<uint16, Channel>
    var channelPool: set<Channel>
    var pingReplyID: uint16

    ghost predicate Valid()
      reads this, channelIdPool, channels.Values, channelPool
    {
      && Partition(channelIdPool.ids, channels.Keys)
      && (forall id | id in channels :: channels[id].id == id)
      && channelPool !! channels.Values
      && (forall ch | ch in channelPool :: ch.replyChan == [] && ch.reqChan == [])
    }

    constructor (pingReplyID: uint16)
      ensures Valid() && fresh(channelIdPool) && channels == map[] && channelPool == {}
    {
      channelIdPool := new IdPool(MAX_ID);
      channels, channelPool := map[], {};
      this.pingReplyID := pingReplyID;
      new;
      forall id: uint16 | 1 <= id <= MAX_ID ensures id in channelIdPool.ids {
        assert channelIdPool.ids[id - 1] == id;
      }
    }

    /** newChannel: fails without changing the open channels if no ID or no channel object is left. */
    method NewChannel(replyChanBufSize: nat, supply: Supply) returns (r: Result<Channel, string>)
      requires Valid()
      requires supply.Reused? ==> supply.ch in channelPool
      modifies this`channels, this`channelPool, channelIdPool, if supply.Reused? then {supply.ch} else {}
      ensures Valid()
      ensures r.Ok? <==> old(channelIdPool.ids) != [] && !supply.Nothing?
      ensures r.Err? ==> channels == old(channels) && channelPool == old(channelPool)
      ensures r.Ok? ==>
        var ch := r.value;
        && [ch.id] + channelIdPool.ids == old(channelIdPool.ids)
        && channels == old(channels)[ch.id := ch]
        && channelPool == old(channelPool) - {ch}
        && (if supply.Reused? then ch == supply.ch else fresh(ch))
        && ch.replyChan == [] && ch.reqChan == [] && ch.replyChanSize == replyChanBufSize
        && (supply.Reused? ==> ch.delayedReply == old(supply.ch.delayedReply))
        && (supply.Reused? ==> ch.lastSeqNum == old(supply.ch.lastSeqNum))
        && (supply.Created? ==> ch.delayedReply == None && ch.lastSeqNum == 0)
    {
      hide Partition, Issued, Left;
      PartitionMoves(channelIdPool.ids, channels.Keys);
      var chID := channelIdPool.Get();
      if chID.Err? {
        return Err(chID.error);
      }
      assert chID.value == old(channelIdPool.ids)[0] && channelIdPool.ids == old(channelIdPool.ids)[1..];
      var channel;
      match supply {
        case Nothing =>
          channelIdPool.Put(chID.value);
          return Err("no more channels in pool available");
        case Created =>
          channel := new Channel(replyChanBufSize);
        case Reused(ch) =>
          channel := ch;
          channelPool := channelPool - {ch};
      }
      channel.id := chID.value;
      if channel.replyChanSize != replyChanBufSize {
        channel.replyChan, channel.replyChanSize := [], replyChanBufSize;
      }
      channels := channels[channel.id := channel];
      assert channels.Keys == old(channels.Keys) + {channel.id};
      return Ok(channel);
    }

    /** releaseAPIChannel; the channel object itself follows later, by Recycle. */
    method ReleaseAPIChannel(ch: Channel)
      requires Valid() && ch.id in channels && channels[ch.id] == ch
      modifies this`channels, channelIdPool
      ensures Valid()
      ensures channels == old(channels) - {ch.id} && ch !in channels.Values
      ensures channelIdPool.ids == old(channelIdPool.ids) + [ch.id]
    {
      hide Partition, Issued, Left;
      PartitionMoves(channelIdPool.ids, channels.Keys);
      channels := channels - {ch.id};
      assert channels.Keys == old(channels.Keys) - {ch.id};
      channelIdPool.Put(ch.id);
    }

    method Recycle(ch: Channel)
      requires Valid() && ch !in channels.Values
      modifies this`channelPool, ch
      ensures Valid() && channelPool == old(channelPool) + {ch}
      ensures ch.delayedReply == old(ch.delayedReply) && ch.lastSeqNum == old(ch.lastSeqNum)
    {
      ch.Reset();
      channelPool := channelPool + {ch};
    }

    /** The channels a message may change: the one its context names, if it is open. */
    ghost function Target(route: Route): set<Channel>
      reads this
    {
      if route.ToChannel? && route.chanID in channels then {channels[route.chanID]} else {}
    }

    /**
     The dispatch part of msgCallback: a reply is queued, as a copy of its bytes, on the channel its context
     names and on no other; the reply to the control ping ends a multipart request.
     */
    method MsgCallback(msgID: uint16, data: array<byte>, msgType: Option<MessageType>, subscribed: bool)
      requires Valid()
      modifies Target(RouteOf(msgType, subscribed, data[..]))
      ensures Valid()
      ensures forall ch | ch in Target(RouteOf(msgType, subscribed, data[..])) ::
        var route := RouteOf(msgType, subscribed, data[..]);
        var reply := QueuedReply(msgID, data[..], route.isMulti, route.seqNum, pingReplyID);
        && unchanged(ch`id, ch`lastSeqNum, ch`delayedReply, ch`replyChanSize)
        && ch.id == route.chanID
        && ch.Queue() == if |old(ch.replyChan)| < ch.replyChanSize then old(ch.Queue()) + [reply] else old(ch.Queue())
    {
      var route := RouteOf(msgType, subscribed, data[..]);
      if !route.ToChannel? || route.chanID !in channels {
        return;
      }
      var ch := channels[route.chanID];
      ch.SendReply(QueuedReply(msgID, data[..], route.isMulti, route.seqNum, pingReplyID));
    }
  }
}
