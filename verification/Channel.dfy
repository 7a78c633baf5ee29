/**
 One API channel: requests are numbered, reqChan holds the numbers of those not sent yet, replies queue up in
 replyChan, and the one reply that was taken too early waits in delayedReply.
 */
module Channels {
  import opened Wrappers
  import opened Bytes
  import opened RequestContext

  datatype Reply = Reply(seqNum: uint16, msgID: nat, data: bytes, lastReceived: bool, err: Option<string>)

  /**
   What happens while a receiver waits: a reply arrives, the receiver is scheduled to take from
   replyChan (nothing happens if it is empty), or one of its two timers fires.
   */
  datatype Event = Arrive(reply: Reply) | Ready | SlowTimer | TimeoutTimer

  /** How waiting ended, or Waiting if the events so far did not end it. */
  datatype Outcome = Matched(reply: Reply) | MissingReply | TimedOut | Waiting

  /** What the receiver is told about the reply that matched its request. */
  datatype Verdict = RequestFailed(err: string) | LastPart | Incompatible | UnexpectedMessage | Decode(data: bytes)

  /** processReply after the sequence numbers agreed; expMsgID is None if VPP does not know the message. */
  function Judge(reply: Reply, expMsgID: Option<nat>): Verdict
  {
    if reply.err.Some? then RequestFailed(reply.err.value)
    else if reply.lastReceived then LastPart
    else if expMsgID.None? then Incompatible
    else if reply.msgID != expMsgID.value then UnexpectedMessage
    else Decode(reply.data)
  }

  // ---------------------------------------------------------------- one queue with peek

  /** The receiver is scheduled and finds a reply that is not too old. */
  predicate EndsAt(q: seq<Reply>, exp: uint16, e: Event)
  {
    e == Ready && q != [] && CompareSeqNumbers(q[0].seqNum, exp) != -1
  }

  /** The queue after an event that does not end the wait. */
  function NextQueue(q: seq<Reply>, e: Event): seq<Reply>
  {
    if e.Arrive? then q + [e.reply] else if e.Ready? && q != [] then q[1..] else q
  }

  /** Taking from the front of a single queue q until an event or a reply ends the wait. */
  function Await(q: seq<Reply>, exp: uint16, env: seq<Event>): (Outcome, seq<Reply>)
    decreases |env|
  {
    if env == [] then (Waiting, q)
    else if env[0] == TimeoutTimer then (TimedOut, q)
    else if !EndsAt(q, exp, env[0]) then Await(NextQueue(q, env[0]), exp, env[1..])
    else if CompareSeqNumbers(q[0].seqNum, exp) == 1 then (MissingReply, q)
    else (Matched(q[0]), q[1..])
  }

  function Arrivals(env: seq<Event>): seq<Reply>
  {
    if env == [] then [] else (if env[0].Arrive? then [env[0].reply] else []) + Arrivals(env[1..])
  }

  /** How many replies at the front of q precede request exp. */
  function OlderCount(q: seq<Reply>, exp: uint16): (n: nat)
    ensures n <= |q|
    ensures forall i | 0 <= i < n :: CompareSeqNumbers(q[i].seqNum, exp) == -1
    ensures n < |q| ==> CompareSeqNumbers(q[n].seqNum, exp) != -1
  {
    if q == [] || CompareSeqNumbers(q[0].seqNum, exp) != -1 then 0 else 1 + OlderCount(q[1..], exp)
  }

  lemma {:induction false} OlderCountIs(q: seq<Reply>, exp: uint16, n: nat)
    requires n < |q| && CompareSeqNumbers(q[n].seqNum, exp) != -1
    requires forall i | 0 <= i < n :: CompareSeqNumbers(q[i].seqNum, exp) == -1
    ensures OlderCount(q, exp) == n
  {
  }

  /** What a wait does to the queue of everything there was and everything that arrived. */
  ghost predicate FifoOutcome(total: seq<Reply>, exp: uint16, out: Outcome, left: seq<Reply>)
  {
    var n := OlderCount(total, exp);
    match out
    case Matched(r) => n < |total| && total[n] == r && r.seqNum == exp && left == total[n + 1..]
    case MissingReply => n < |total| && CompareSeqNumbers(total[n].seqNum, exp) == 1 && left == total[n..]
    case _ => |left| <= |total| && |total| - |left| <= n && left == total[|total| - |left|..]
  }

  lemma {:induction false} SameOnlyAtZero(a: uint16, b: uint16)
    ensures CompareSeqNumbers(a, b) == 0 <==> a == b
  {
  }

  /**
   Dropping only an older front, taking the head if it is for exp, and otherwise losing nothing. The
   replies that arrive are the first part of Arrivals(env): those before the wait ends.
   */
  lemma {:induction false} AwaitIsFifo(q: seq<Reply>, exp: uint16, env: seq<Event>) returns (used: nat)
    ensures used <= |env|
    ensures var (out, left) := Await(q, exp, env);
      && FifoOutcome(q + Arrivals(env[..used]), exp, out, left)
      && (out == Waiting ==> used == |env|)
      && (out == TimedOut ==> used < |env| && env[used] == TimeoutTimer)
    decreases |env|
  {
    if env == [] || env[0] == TimeoutTimer || EndsAt(q, exp, env[0]) {
      EndsNow(q, exp, env);
      used := 0;
    } else {
      var u := AwaitIsFifo(NextQueue(q, env[0]), exp, env[1..]);
      used := u + 1;
      OneEvent(q, exp, env, u);
    }
  }

  lemma {:induction false} OneEvent(q: seq<Reply>, exp: uint16, env: seq<Event>, u: nat)
    requires env != [] && u < |env| && env[0] != TimeoutTimer && !EndsAt(q, exp, env[0])
    requires var (out, left) := Await(NextQueue(q, env[0]), exp, env[1..]);
      FifoOutcome(NextQueue(q, env[0]) + Arrivals(env[1..][..u]), exp, out, left)
    ensures var (out, left) := Await(q, exp, env); FifoOutcome(q + Arrivals(env[..u + 1]), exp, out, left)
  {
    hide FifoOutcome;
    var rest := NextQueue(q, env[0]) + Arrivals(env[1..][..u]);
    ArrivalsStep(env, u);
    if env[0] == Ready && q != [] {
      PrependOlder(q[0], rest, exp, Await(q, exp, env).0, Await(q, exp, env).1);
      assert q + Arrivals(env[..u + 1]) == [q[0]] + rest;
    } else {
      assert q + Arrivals(env[..u + 1]) == rest;
    }
  }

  lemma {:induction false} EndsNow(q: seq<Reply>, exp: uint16, env: seq<Event>)
    requires env == [] || env[0] == TimeoutTimer || EndsAt(q, exp, env[0])
    ensures var (out, left) := Await(q, exp, env); FifoOutcome(q + Arrivals(env[..0]), exp, out, left)
  {
    assert q + Arrivals(env[..0]) == q;
    if env != [] && EndsAt(q, exp, env[0]) {
      SameOnlyAtZero(q[0].seqNum, exp);
      OlderCountIs(q, exp, 0);
    }
  }

  lemma {:induction false} ArrivalsStep(env: seq<Event>, u: nat)
    requires env != [] && u < |env|
    ensures Arrivals(env[..u + 1]) == (if env[0].Arrive? then [env[0].reply] else []) + Arrivals(env[1..][..u])
  {
    assert env[..u + 1][1..] == env[1..][..u];
  }

  lemma {:induction false} PrependOlder(r: Reply, total: seq<Reply>, exp: uint16, out: Outcome, left: seq<Reply>)
    requires CompareSeqNumbers(r.seqNum, exp) == -1 && FifoOutcome(total, exp, out, left)
    ensures FifoOutcome([r] + total, exp, out, left)
  {
    assert ([r] + total)[1..] == total;
    assert OlderCount([r] + total, exp) == 1 + OlderCount(total, exp);
    forall k: nat | k <= |total| ensures ([r] + total)[k + 1..] == total[k..] {
    }
  }

  /** A receiver that is scheduled often enough settles the wait by the replies alone. */
  lemma {:induction false} AwaitSettles(q: seq<Reply>, exp: uint16, turns: seq<Event>)
    requires forall i | 0 <= i < |turns| :: turns[i] == Ready
    requires OlderCount(q, exp) < |q| && OlderCount(q, exp) < |turns|
    ensures Await(q, exp, turns).0.Matched? || Await(q, exp, turns).0.MissingReply?
    decreases |turns|
  {
    SameOnlyAtZero(q[0].seqNum, exp);
    if CompareSeqNumbers(q[0].seqNum, exp) == -1 {
      AwaitSettles(q[1..], exp, turns[1..]);
    }
  }

  // ---------------------------------------------------------------- the channel

  class Channel {
    var lastSeqNum: uint16
    var delayedReply: Option<Reply>
    var replyChan: seq<Reply>
    var replyChanSize: nat
    var reqChan: seq<uint16>
    var id: uint16

    /** The replies in the order in which the receiver will look at them. */
    ghost function Queue(): seq<Reply>
      reads this
    {
      (if delayedReply.Some? then [delayedReply.value] else []) + replyChan
    }

    constructor (replyChanBufSize: nat)
      ensures lastSeqNum == 0 && Queue() == [] && replyChanSize == replyChanBufSize && reqChan == [] && id == 0
    {
      lastSeqNum, delayedReply, replyChan, replyChanSize, reqChan, id := 0, None, [], replyChanBufSize, [], 0;
    }

    /** The sequence number of a new request: the counter in 16 bits, wrapping around. */
    method NextSeqNum() returns (seqNum: uint16)
      modifies this`lastSeqNum
      ensures seqNum == lastSeqNum
      ensures forall sent: int :: old(lastSeqNum) == Short(sent) ==> seqNum == Short(sent + 1)
    {
      lastSeqNum := (lastSeqNum + 1) % 0x1_0000;
      seqNum := lastSeqNum;
    }

    /** sendReply, for a receiver that makes no room in time: a full channel drops the reply. */
    method SendReply(reply: Reply)
      modifies this`replyChan
      ensures Queue() == if |old(replyChan)| < replyChanSize then old(Queue()) + [reply] else old(Queue())
    {
      if |replyChan| < replyChanSize {
        replyChan := replyChan + [reply];
      }
    }

    /** Keeps an early reply for later; the slot is always free when that happens. */
    method ProcessReply(reply: Reply, exp: uint16) returns (ignore: bool, out: Outcome)
      requires delayedReply == None
      modifies this`delayedReply
      ensures ignore <==> CompareSeqNumbers(reply.seqNum, exp) == -1
      ensures delayedReply == if CompareSeqNumbers(reply.seqNum, exp) == 1 then Some(reply) else None
      ensures !ignore ==> out == if CompareSeqNumbers(reply.seqNum, exp) == 1 then MissingReply else Matched(reply)
    {
      ignore, out := false, Matched(reply);
      var cmp := CompareSeqNumbers(reply.seqNum, exp);
      if cmp == -1 {
        ignore := true;
      } else if cmp == 1 {
        delayedReply := Some(reply);
        out := MissingReply;
      }
    }

    /**
     receiveReplyInternal. The slot is looked at before any event, exactly as if the receiver had been
     scheduled once with the whole queue in front of it; from then on slot and channel act as one queue.
     */
    method ReceiveReply(exp: uint16, env: seq<Event>) returns (out: Outcome)
      modifies this`delayedReply, this`replyChan
      ensures (out, Queue()) == Await(old(Queue()), exp, if old(delayedReply).Some? then [Ready] + env else env)
      ensures delayedReply.Some? <==> out == MissingReply
    {
      ghost var q, all := Queue(), if delayedReply.Some? then [Ready] + env else env;
      if delayedReply.Some? {
        var reply := delayedReply.value;
        delayedReply := None;
        assert all[0] == Ready && all[1..] == env;
        assert q == [reply] + replyChan && [] + replyChan == replyChan;
        var ignore, o := ProcessReply(reply, exp);
        if !ignore {
          return o;
        }
      }
      assert [] + replyChan == replyChan && env[0..] == env;
      var i := 0;
      while i < |env|
        invariant i <= |env| && delayedReply == None
        invariant Await(q, exp, all) == Await(replyChan, exp, env[i..])
      {
        assert env[i..][1..] == env[i + 1..];
        match env[i] {
          case Arrive(r) =>
            replyChan := replyChan + [r];
          case Ready =>
            if replyChan != [] {
              var reply := replyChan[0];
              ghost var was := replyChan;
              replyChan := replyChan[1..];
              var ignore, o := ProcessReply(reply, exp);
              if !ignore {
                assert was == [reply] + replyChan && [] + replyChan == replyChan;
                return o;
              }
            }
          case SlowTimer =>
          case TimeoutTimer =>
            assert [] + replyChan == replyChan;
            return TimedOut;
        }
        i := i + 1;
      }
      assert env[i..] == [] && [] + replyChan == replyChan;
      return Waiting;
    }

    /**
     Reset, when the channel object goes back to the pool: both Go channels are drained, in whatever order the select
     takes from them; the slot is not.
     */
    method Reset()
      modifies this`replyChan, this`reqChan
      ensures replyChan == [] && reqChan == []
      ensures Queue() == if delayedReply.Some? then [delayedReply.value] else []
    {
      while reqChan != [] || replyChan != []
        decreases |reqChan| + |replyChan|
      {
        var takeRequest: bool :| if takeRequest then reqChan != [] else replyChan != [];
        if takeRequest {
          reqChan := reqChan[1..];
        } else {
          replyChan := replyChan[1..];
        }
      }
    }
  }
}
