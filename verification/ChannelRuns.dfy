/**
 Whole runs of a channel. Requests carry an unbounded ghost number and replies the number of the
 request they answer; the channel only sees the low 16 bits. The ideal channel sees the numbers.
 */
module ChannelRuns {
  import opened Wrappers
  import opened Bytes
  import opened RequestContext
  import opened Channels

  /** A reply and the unbounded number of its request. */
  datatype Tagged = Tagged(reply: Reply, origin: int)

  datatype TaggedEvent = Plain(e: Event) | TaggedArrive(t: Tagged)

  datatype IdealOutcome = IdealMatched(t: Tagged) | IdealMissing | IdealTimedOut | IdealWaiting

  /**
   Replies may be lost, repeated or reordered; VPP only echoes numbers that were sent. Reset is the
   channel object going back to its pool: its next owner goes on with the same counter and slot.
   */
  datatype Step = Send | Deliver(t: Tagged) | Receive(k: int, env: seq<TaggedEvent>) | Reset

  /** early: the front of the queue is the delayed reply. */
  datatype Ideal = Ideal(sent: nat, queue: seq<Tagged>, early: bool)

  datatype Real = Real(lastSeqNum: uint16, queue: seq<Reply>, early: bool)

  function Erase(q: seq<Tagged>): (r: seq<Reply>)
    ensures |r| == |q| && forall i | 0 <= i < |q| :: r[i] == q[i].reply
  {
    if q == [] then [] else Erase(q[..|q| - 1]) + [q[|q| - 1].reply]
  }

  function EraseEvent(e: TaggedEvent): Event
  {
    match e
    case Plain(p) => p
    case TaggedArrive(t) => Arrive(t.reply)
  }

  function EraseEnv(env: seq<TaggedEvent>): seq<Event>
  {
    if env == [] then [] else [EraseEvent(env[0])] + EraseEnv(env[1..])
  }

  function EraseOutcome(o: IdealOutcome): Outcome
  {
    match o
    case IdealMatched(t) => Matched(t.reply)
    case IdealMissing => MissingReply
    case IdealTimedOut => TimedOut
    case IdealWaiting => Waiting
  }

  predicate IdealEndsAt(q: seq<Tagged>, k: int, e: TaggedEvent)
  {
    e == Plain(Ready) && q != [] && q[0].origin >= k
  }

  function IdealNext(q: seq<Tagged>, e: TaggedEvent): seq<Tagged>
  {
    if e.TaggedArrive? then q + [e.t] else if e == Plain(Ready) && q != [] then q[1..] else q
  }

  /** Waiting for request k by true numbers: drop older, keep newer, take k itself. */
  function IdealAwait(q: seq<Tagged>, k: int, env: seq<TaggedEvent>): (IdealOutcome, seq<Tagged>)
    decreases |env|
  {
    if env == [] then (IdealWaiting, q)
    else if env[0] == Plain(TimeoutTimer) then (IdealTimedOut, q)
    else if !IdealEndsAt(q, k, env[0]) then IdealAwait(IdealNext(q, env[0]), k, env[1..])
    else if q[0].origin > k then (IdealMissing, q)
    else (IdealMatched(q[0]), q[1..])
  }

  /** t answers a request at most 2^15 before the last one sent, and shows its number. */
  predicate Recent(t: Tagged, sent: nat)
  {
    sent - 0x8000 <= t.origin <= sent && t.reply.seqNum == Short(t.origin)
  }

  predicate EventOk(e: TaggedEvent, sent: nat)
  {
    match e
    case Plain(p) => !p.Arrive?
    case TaggedArrive(t) => Recent(t, sent)
  }

  predicate WaitOk(q: seq<Tagged>, k: int, env: seq<TaggedEvent>, sent: nat)
  {
    && sent - 0x7fff <= k <= sent
    && (forall i | 0 <= i < |q| :: Recent(q[i], sent))
    && (forall i | 0 <= i < |env| :: EventOk(env[i], sent))
  }

  lemma {:induction false} EraseTail(q: seq<Tagged>)
    requires q != []
    ensures Erase(q)[0] == q[0].reply && Erase(q)[1..] == Erase(q[1..])
  {
  }

  lemma {:induction false} RecentCompares(t: Tagged, k: int, sent: nat)
    requires Recent(t, sent) && sent - 0x7fff <= k <= sent
    ensures CompareSeqNumbers(t.reply.seqNum, Short(k)) == Sign(t.origin - k)
  {
    CompareExactly(t.origin, k);
  }

  lemma {:induction false} EventRefines(q: seq<Tagged>, k: int, e: TaggedEvent, sent: nat)
    requires WaitOk(q, k, [e], sent)
    ensures EndsAt(Erase(q), Short(k), EraseEvent(e)) <==> IdealEndsAt(q, k, e)
    ensures NextQueue(Erase(q), EraseEvent(e)) == Erase(IdealNext(q, e))
    ensures forall i | 0 <= i < |IdealNext(q, e)| :: Recent(IdealNext(q, e)[i], sent)
  {
    assert EventOk([e][0], sent);
    if e.TaggedArrive? {
      assert Erase(q + [e.t]) == Erase(q) + [e.t.reply];
    } else if q != [] {
      RecentCompares(q[0], k, sent);
      EraseTail(q);
    }
  }

  lemma {:induction false} EndRefines(q: seq<Tagged>, k: int, sent: nat)
    requires WaitOk(q, k, [], sent) && q != [] && q[0].origin >= k
    ensures CompareSeqNumbers(Erase(q)[0].seqNum, Short(k)) == (if q[0].origin > k then 1 else 0)
    ensures Erase(q)[0] == q[0].reply && Erase(q)[1..] == Erase(q[1..])
  {
    RecentCompares(q[0], k, sent);
    EraseTail(q);
  }

  /** With 16 bits the channel waits exactly as the ideal one, however often the counter wrapped. */
  lemma {:induction false} AwaitRefines(q: seq<Tagged>, k: int, env: seq<TaggedEvent>, sent: nat)
    requires WaitOk(q, k, env, sent)
    ensures var (out, left) := IdealAwait(q, k, env);
      && Await(Erase(q), Short(k), EraseEnv(env)) == (EraseOutcome(out), Erase(left))
      && (out.IdealMatched? ==> out.t.origin == k)
      && (forall i | 0 <= i < |left| :: Recent(left[i], sent))
    decreases |env|
  {
    hide EndsAt, NextQueue, CompareSeqNumbers, Recent, Short, Erase;
    if env != [] {
      assert EraseEnv(env)[0] == EraseEvent(env[0]) && EraseEnv(env)[1..] == EraseEnv(env[1..]);
      assert EventOk(env[0], sent);
      if env[0] != Plain(TimeoutTimer) {
        EventRefines(q, k, env[0], sent);
        if IdealEndsAt(q, k, env[0]) {
          EndRefines(q, k, sent);
        } else {
          AwaitRefines(IdealNext(q, env[0]), k, env[1..], sent);
        }
      }
    }
  }

  // ---------------------------------------------------------------- runs

  function WithSlot(early: bool, env: seq<TaggedEvent>): seq<TaggedEvent>
  {
    if early then [Plain(Ready)] + env else env
  }

  function IdealStep(s: Ideal, step: Step): (Ideal, IdealOutcome)
  {
    match step
    case Send => (s.(sent := s.sent + 1), IdealWaiting)
    case Deliver(t) => (s.(queue := s.queue + [t]), IdealWaiting)
    case Receive(k, env) =>
      var (out, left) := IdealAwait(s.queue, k, WithSlot(s.early, env));
      (Ideal(s.sent, left, out == IdealMissing), out)
    case Reset => (s.(queue := if s.early && s.queue != [] then [s.queue[0]] else []), IdealWaiting)
  }

  /** What NextSeqNum, SendReply, ReceiveReply and Reset of the channel do. */
  function RealStep(s: Real, step: Step): (Real, Outcome)
  {
    match step
    case Send => (s.(lastSeqNum := (s.lastSeqNum + 1) % 0x1_0000), Waiting)
    case Deliver(t) => (s.(queue := s.queue + [t.reply]), Waiting)
    case Receive(k, env) =>
      var (out, left) := Await(s.queue, Short(k), if s.early then [Ready] + EraseEnv(env) else EraseEnv(env));
      (Real(s.lastSeqNum, left, out == MissingReply), out)
    case Reset => (s.(queue := if s.early && s.queue != [] then [s.queue[0]] else []), Waiting)
  }

  /** What a run sees of a channel. */
  ghost function StateOf(ch: Channel): Real
    reads ch
  {
    Real(ch.lastSeqNum, ch.Queue(), ch.delayedReply.Some?)
  }

  /** A step of a run, made by the methods of the channel; replies are delivered while there is room. */
  method Execute(ch: Channel, step: Step) returns (out: Outcome)
    requires step.Deliver? ==> |ch.replyChan| < ch.replyChanSize
    modifies ch
    ensures (StateOf(ch), out) == RealStep(old(StateOf(ch)), step)
  {
    out := Waiting;
    match step {
      case Send =>
        ghost var sent: int := ch.lastSeqNum;
        assert sent == Short(sent);
        var seqNum := ch.NextSeqNum();
        assert seqNum == Short(sent + 1) && ch.Queue() == old(ch.Queue());
      case Deliver(t) =>
        ch.SendReply(t.reply);
      case Receive(k, env) =>
        out := ch.ReceiveReply(Short(k), EraseEnv(env));
      case Reset =>
        ch.Reset();
    }
  }

  /** The environment's side: only recent replies of sent requests arrive, only recent requests are awaited. */
  predicate StepOk(s: Ideal, step: Step)
  {
    match step
    case Send => forall i | 0 <= i < |s.queue| :: Recent(s.queue[i], s.sent + 1)
    case Deliver(t) => Recent(t, s.sent)
    case Receive(k, env) => WaitOk(s.queue, k, env, s.sent)
    case Reset => true
  }

  predicate RunOk(s: Ideal, run: seq<Step>)
    decreases |run|
  {
    run == [] || (StepOk(s, run[0]) && RunOk(IdealStep(s, run[0]).0, run[1..]))
  }

  function IdealRun(s: Ideal, run: seq<Step>): seq<IdealOutcome>
    decreases |run|
  {
    if run == [] then [] else [IdealStep(s, run[0]).1] + IdealRun(IdealStep(s, run[0]).0, run[1..])
  }

  function RealRun(s: Real, run: seq<Step>): seq<Outcome>
    decreases |run|
  {
    if run == [] then [] else [RealStep(s, run[0]).1] + RealRun(RealStep(s, run[0]).0, run[1..])
  }

  function EraseOutcomes(os: seq<IdealOutcome>): seq<Outcome>
  {
    if os == [] then [] else [EraseOutcome(os[0])] + EraseOutcomes(os[1..])
  }

  ghost predicate Related(i: Ideal, r: Real)
  {
    && r == Real(Short(i.sent), Erase(i.queue), i.early)
    && (forall n | 0 <= n < |i.queue| :: Recent(i.queue[n], i.sent))
  }

  lemma {:induction false} ReceiveRefines(i: Ideal, r: Real, k: int, env: seq<TaggedEvent>)
    requires Related(i, r) && StepOk(i, Receive(k, env))
    ensures var step := Receive(k, env);
      && Related(IdealStep(i, step).0, RealStep(r, step).0)
      && RealStep(r, step).1 == EraseOutcome(IdealStep(i, step).1)
      && (IdealStep(i, step).1.IdealMatched? ==> IdealStep(i, step).1.t.origin == k)
  {
    hide Erase, IdealAwait, Await, Recent, Short;
    var all := WithSlot(i.early, env);
    assert EraseEnv(all) == if i.early then [Ready] + EraseEnv(env) else EraseEnv(env) by {
      if i.early {
        assert all[1..] == env;
      }
    }
    assert forall n | 0 <= n < |all| :: EventOk(all[n], i.sent) by {
      forall n | 0 <= n < |all| ensures EventOk(all[n], i.sent) {
        if i.early && n > 0 {
          assert all[n] == env[n - 1];
        }
      }
    }
    AwaitRefines(i.queue, k, all, i.sent);
  }

  lemma {:induction false} StepRefines(i: Ideal, r: Real, step: Step)
    requires Related(i, r) && StepOk(i, step)
    ensures Related(IdealStep(i, step).0, RealStep(r, step).0)
    ensures RealStep(r, step).1 == EraseOutcome(IdealStep(i, step).1)
    ensures step.Receive? && IdealStep(i, step).1.IdealMatched? ==> IdealStep(i, step).1.t.origin == step.k
  {
    if step.Receive? {
      ReceiveRefines(i, r, step.k, step.env);
    } else {
      QueueRefines(i, r, step);
    }
  }

  lemma {:induction false} QueueRefines(i: Ideal, r: Real, step: Step)
    requires Related(i, r) && StepOk(i, step) && !step.Receive?
    ensures Related(IdealStep(i, step).0, RealStep(r, step).0)
  {
    hide IdealAwait, Await, Recent, Erase;
    if step.Send? {
      assert Short(i.sent + 1) == (Short(i.sent) + 1) % 0x1_0000;
    } else if step.Deliver? {
      EraseEnds(i.queue, step.t);
    } else if i.queue != [] {
      EraseEnds([], i.queue[0]);
      assert [] + [i.queue[0]] == [i.queue[0]];
    }
  }

  lemma {:induction false} EraseEnds(q: seq<Tagged>, t: Tagged)
    ensures Erase(q + [t]) == Erase(q) + [t.reply]
  {
  }

  /** In every run, through any number of wraparounds, the channel behaves as the ideal channel. */
  lemma {:induction false} RunRefines(i: Ideal, r: Real, run: seq<Step>)
    requires Related(i, r) && RunOk(i, run)
    ensures RealRun(r, run) == EraseOutcomes(IdealRun(i, run))
    decreases |run|
  {
    if run != [] {
      StepRefines(i, r, run[0]);
      RunRefines(IdealStep(i, run[0]).0, RealStep(r, run[0]).0, run[1..]);
      assert IdealRun(i, run)[1..] == IdealRun(IdealStep(i, run[0]).0, run[1..]);
    }
  }

  /** No reply to another request is ever accepted: the n-th step of a run returns k's own reply or none. */
  lemma {:induction false} OnlyOwnReplies(i: Ideal, r: Real, run: seq<Step>, n: nat)
    requires Related(i, r) && RunOk(i, run) && n < |run| && run[n].Receive?
    ensures var want, got := IdealRun(i, run), RealRun(r, run);
      && n < |want| == |got|
      && (got[n].Matched? <==> want[n].IdealMatched?)
      && (got[n].Matched? ==> want[n].t.reply == got[n].reply && want[n].t.origin == run[n].k)
    decreases n
  {
    RunLength(i, r, run);
    StepRefines(i, r, run[0]);
    if n > 0 {
      OnlyOwnReplies(IdealStep(i, run[0]).0, RealStep(r, run[0]).0, run[1..], n - 1);
    }
  }

  /**
   What the n-th step of a run decodes for request k: the data of a reply that answers k itself, is no error
   and not the end of a multipart reply, and is the expected message. Whenever such a reply is taken, it is decoded.
   */
  lemma {:induction false} OnlyOwnDataDecoded(
    i: Ideal, r: Real, run: seq<Step>, n: nat, expMsgID: Option<nat>, data: bytes)
    requires Related(i, r) && RunOk(i, run) && n < |run| && run[n].Receive?
    ensures var want, got := IdealRun(i, run), RealRun(r, run);
      && n < |want| == |got|
      && (got[n].Matched? && Judge(got[n].reply, expMsgID) == Decode(data) <==>
          && want[n].IdealMatched? && want[n].t.origin == run[n].k
          && want[n].t.reply.data == data && expMsgID == Some(want[n].t.reply.msgID)
          && want[n].t.reply.err == None && !want[n].t.reply.lastReceived)
  {
    OnlyOwnReplies(i, r, run, n);
  }

  lemma {:induction false} RunLength(i: Ideal, r: Real, run: seq<Step>)
    ensures |IdealRun(i, run)| == |RealRun(r, run)| == |run|
    decreases |run|
  {
    if run != [] {
      RunLength(IdealStep(i, run[0]).0, RealStep(r, run[0]).0, run[1..]);
    }
  }

  // ---------------------------------------------------------------- what waiting keeps

  /** A reply reported missing makes room for nothing: the early reply is the next one, at once. */
  lemma {:induction false} EarlyReplyIsNotLost(q: seq<Tagged>, k: int, env: seq<TaggedEvent>)
    requires IdealAwait(q, k, env).0 == IdealMissing
    ensures var left := IdealAwait(q, k, env).1;
      left != [] && left[0].origin > k
      && forall later: seq<TaggedEvent> ::
        IdealAwait(left, left[0].origin, WithSlot(true, later)) == (IdealMatched(left[0]), left[1..])
    decreases |env|
  {
    if !IdealEndsAt(q, k, env[0]) {
      EarlyReplyIsNotLost(IdealNext(q, env[0]), k, env[1..]);
    }
  }
}
