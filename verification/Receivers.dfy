/** What receivers are told over whole runs: by what VPP answered, and in the order in which it did. */
module Receivers {
  import opened Wrappers
  import opened Bytes
  import opened RequestContext
  import opened Channels
  import opened ChannelRuns
  import opened Connections

  /** What there is to answer a request: watchRequests refuses it, or a message comes from VPP. */
  datatype Answer = Refusal(err: string) | Message(msgID: nat, data: bytes)

  /** How an answer to request k is queued: by watchRequests, or by msgCallback. */
  function Queued(a: Answer, k: int, isMulti: bool, pingReplyID: nat): Reply
  {
    match a
    case Refusal(err) => RefusalReply(Short(k), err)
    case Message(msgID, data) => QueuedReply(msgID, data, isMulti, Short(k), pingReplyID)
  }

  /** The reply that watchRequests queues when processRequest fails. */
  function RefusalReply(seqNum: uint16, err: string): Reply { Reply(seqNum, 0, [], false, Some(err)) }

  /** What comes back from one call of ReceiveReply. */
  datatype Report =
    | Decoded(data: bytes) | End | Refused(err: string) | NotCompatible | Unexpected
    | Missing | TimeOut | StillWaiting

  /** receiveReplyInternal, with processReply behind the comparison of the numbers. */
  function ReportOf(out: Outcome, expMsgID: Option<nat>): Report
  {
    match out
    case MissingReply => Missing
    case TimedOut => TimeOut
    case Waiting => StillWaiting
    case Matched(reply) =>
      match Judge(reply, expMsgID)
      case RequestFailed(err) => Refused(err)
      case LastPart => End
      case Incompatible => NotCompatible
      case UnexpectedMessage => Unexpected
      case Decode(data) => Decoded(data)
  }

  /** Reply t is answer a to request k. */
  predicate Answers(t: Tagged, k: int, a: Answer, isMulti: bool, pingReplyID: nat)
  {
    t == Tagged(Queued(a, k, isMulti, pingReplyID), k)
  }

  /** The report of an answer. */
  predicate Reports(a: Answer, isMulti: bool, pingReplyID: nat, expMsgID: Option<nat>, report: Report)
  {
    match a
    case Refusal(err) => report == Refused(err)
    case Message(msgID, data) =>
      if isMulti && msgID == pingReplyID then report == End
      else if expMsgID == None then report == NotCompatible
      else if expMsgID == Some(msgID) then report == Decoded(data)
      else report == Unexpected
  }

  /**
   Every call of ReceiveReply in every run. Whatever answers the request, that is what is reported: a refusal as its
   error, the control ping reply to a multipart request as the end, another message decoded if it is the expected one
   and otherwise as one of two errors. Nothing but an answer to the request is reported in this way, and an error only
   if it was refused, the end only for the last part.
   */
  lemma {:induction false} AnswersAreReported(i: Ideal, r: Real, run: seq<Step>, n: nat, expMsgID: Option<nat>)
    requires Related(i, r) && RunOk(i, run) && n < |run| && run[n].Receive?
    ensures n < |IdealRun(i, run)| == |RealRun(r, run)|
    ensures var want, report := IdealRun(i, run)[n], ReportOf(RealRun(r, run)[n], expMsgID);
      && (forall a, isMulti, ping |
            want.IdealMatched? && Answers(want.t, run[n].k, a, isMulti, ping) ::
            Reports(a, isMulti, ping, expMsgID, report))
      && (want.IdealMatched? ==> want.t.origin == run[n].k)
      && (forall err :: report == Refused(err) <==> want.IdealMatched? && want.t.reply.err == Some(err))
      && (report == End <==> want.IdealMatched? && want.t.reply.err == None && want.t.reply.lastReceived)
      && (report == Missing <==> want == IdealMissing)
      && (report == TimeOut <==> want == IdealTimedOut)
      && (report == StillWaiting <==> want == IdealWaiting)
  {
    RunRefines(i, r, run);
    OnlyOwnReplies(i, r, run, n);
    ErasedAt(IdealRun(i, run), n);
  }

  lemma {:induction false} ErasedAt(os: seq<IdealOutcome>, n: nat)
    requires n < |os|
    ensures n < |EraseOutcomes(os)| && EraseOutcomes(os)[n] == EraseOutcome(os[n])
  {
    if n > 0 {
      ErasedAt(os[1..], n - 1);
    }
  }

  // ---------------------------------------------------------------- a receiver that asks until the end

  /** The answers to request k among the replies in q. */
  function Own(q: seq<Tagged>, k: int): seq<Tagged>
  {
    if q == [] then [] else (if q[0].origin == k then [q[0]] else []) + Own(q[1..], k)
  }

  lemma {:induction false} OwnConcat(a: seq<Tagged>, b: seq<Tagged>, k: int)
    ensures Own(a + b, k) == Own(a, k) + Own(b, k)
  {
    if a == [] {
      assert a + b == b;
    } else {
      assert (a + b)[1..] == a[1..] + b;
      OwnConcat(a[1..], b, k);
      var first := if a[0].origin == k then [a[0]] else [];
      assert first + (Own(a[1..], k) + Own(b, k)) == (first + Own(a[1..], k)) + Own(b, k);
    }
  }

  /** The replies that arrive before a wait ends. */
  function Arrived(q: seq<Tagged>, k: int, env: seq<TaggedEvent>): seq<Tagged>
    decreases |env|
  {
    if env == [] || env[0] == Plain(TimeoutTimer) || IdealEndsAt(q, k, env[0]) then []
    else (if env[0].TaggedArrive? then [env[0].t] else []) + Arrived(IdealNext(q, env[0]), k, env[1..])
  }

  /** All replies that arrive in a run. */
  function Stream(i: Ideal, run: seq<Step>): seq<Tagged>
    decreases |run|
  {
    if run == [] then [] else StepArrivals(i, run[0]) + Stream(IdealStep(i, run[0]).0, run[1..])
  }

  function StepArrivals(i: Ideal, step: Step): seq<Tagged>
  {
    match step
    case Deliver(t) => [t]
    case Receive(k, env) => Arrived(i.queue, k, WithSlot(i.early, env))
    case _ => []
  }

  function After(i: Ideal, run: seq<Step>): Ideal
    decreases |run|
  {
    if run == [] then i else After(IdealStep(i, run[0]).0, run[1..])
  }

  /** What was accepted in a run, in order. */
  function Taken(outs: seq<IdealOutcome>): seq<Tagged>
  {
    if outs == [] then [] else (if outs[0].IdealMatched? then [outs[0].t] else []) + Taken(outs[1..])
  }

  /** Nobody waits for another request than k, and the channel is not put back, while k is being received. */
  predicate AsksFor(run: seq<Step>, k: int)
  {
    forall n | 0 <= n < |run| :: !run[n].Reset? && (run[n].Receive? ==> run[n].k == k)
  }

  function Accepted(out: IdealOutcome): seq<Tagged> { if out.IdealMatched? then [out.t] else [] }

  lemma {:induction false} WaitTakesInOrder(q: seq<Tagged>, k: int, env: seq<TaggedEvent>)
    ensures var (out, left) := IdealAwait(q, k, env);
      Own(q, k) + Own(Arrived(q, k, env), k) == Accepted(out) + Own(left, k)
    decreases |env|
  {
    hide Own;
    if env == [] || env[0] == Plain(TimeoutTimer) || IdealEndsAt(q, k, env[0]) {
      WaitEnds(q, k, env);
    } else {
      var next := IdealNext(q, env[0]);
      var now := if env[0].TaggedArrive? then [env[0].t] else [];
      var rest := Arrived(next, k, env[1..]);
      EventTakesInOrder(q, k, env[0]);
      OwnConcat(now, rest, k);
      WaitTakesInOrder(next, k, env[1..]);
      var (out, left) := IdealAwait(q, k, env);
      Join(Own(q, k), Own(now, k), Own(rest, k), [], Own(next, k), Accepted(out), Own(left, k));
      assert [] + Accepted(out) == Accepted(out) && [] + Own(next, k) == Own(next, k);
    }
  }

  lemma {:induction false} WaitEnds(q: seq<Tagged>, k: int, env: seq<TaggedEvent>)
    requires env == [] || env[0] == Plain(TimeoutTimer) || IdealEndsAt(q, k, env[0])
    ensures var (out, left) := IdealAwait(q, k, env);
      Own(q, k) + Own(Arrived(q, k, env), k) == Accepted(out) + Own(left, k)
  {
  }

  /** An event that does not end the wait neither loses nor takes an answer. */
  lemma {:induction false} EventTakesInOrder(q: seq<Tagged>, k: int, e: TaggedEvent)
    requires !IdealEndsAt(q, k, e)
    ensures Own(q, k) + Own(if e.TaggedArrive? then [e.t] else [], k) == [] + Own(IdealNext(q, e), k)
  {
    if e.TaggedArrive? {
      OwnConcat(q, [e.t], k);
    } else if q != [] && e == Plain(Ready) {
      assert q[0].origin < k;
    }
  }

  /**
   While k is being received, what is accepted followed by what is still queued are all its answers, in the order in
   which they arrived: none is lost, none comes twice, and what else is on the channel does not matter.
   */
  lemma {:induction false} TakenInOrder(i: Ideal, run: seq<Step>, k: int)
    requires AsksFor(run, k)
    ensures Own(i.queue + Stream(i, run), k) == Taken(IdealRun(i, run)) + Own(After(i, run).queue, k)
    decreases |run|
  {
    hide IdealStep, IdealRun, Taken, StepArrivals, Own;
    OwnConcat(i.queue, Stream(i, run), k);
    if run == [] {
      NothingTaken(i, k);
    } else {
      var (next, out) := IdealStep(i, run[0]);
      var now, rest := StepArrivals(i, run[0]), Stream(next, run[1..]);
      TakenInOrder(next, run[1..], k);
      OwnConcat(next.queue, rest, k);
      OwnConcat(now, rest, k);
      StepTakesInOrder(i, run[0], k);
      TakenFirst(i, run);
      Join(Own(i.queue, k), Own(now, k), Own(rest, k), Accepted(out), Own(next.queue, k),
           Taken(IdealRun(next, run[1..])), Own(After(next, run[1..]).queue, k));
    }
  }

  lemma {:induction false} NothingTaken(i: Ideal, k: int)
    ensures Own(i.queue, k) + Own([], k) == Taken(IdealRun(i, [])) + Own(i.queue, k)
  {
  }

  lemma {:induction false} TakenFirst(i: Ideal, run: seq<Step>)
    requires run != []
    ensures var (next, out) := IdealStep(i, run[0]);
      Taken(IdealRun(i, run)) == Accepted(out) + Taken(IdealRun(next, run[1..]))
  {
    var (next, out) := IdealStep(i, run[0]);
    assert IdealRun(i, run)[1..] == IdealRun(next, run[1..]);
  }

  lemma {:induction false} Join<T>(
    q: seq<T>, now: seq<T>, rest: seq<T>, accepted: seq<T>, next: seq<T>, taken: seq<T>, left: seq<T>)
    requires q + now == accepted + next && next + rest == taken + left
    ensures q + (now + rest) == (accepted + taken) + left
  {
    assert q + (now + rest) == (q + now) + rest;
    assert (accepted + next) + rest == accepted + (next + rest);
    assert accepted + (taken + left) == (accepted + taken) + left;
  }

  lemma {:induction false} StepTakesInOrder(i: Ideal, step: Step, k: int)
    requires !step.Reset? && (step.Receive? ==> step.k == k)
    ensures var (next, out) := IdealStep(i, step);
      Own(i.queue, k) + Own(StepArrivals(i, step), k) == Accepted(out) + Own(next.queue, k)
  {
    match step {
      case Send =>
        assert Own(i.queue, k) + [] == [] + Own(i.queue, k);
      case Deliver(t) =>
        OwnConcat(i.queue, [t], k);
        assert [] + Own(i.queue + [t], k) == Own(i.queue + [t], k);
      case Receive(_, env) =>
        WaitTakesInOrder(i.queue, k, WithSlot(i.early, env));
    }
  }

  /** What the receiver is told by the calls that return with an answer. */
  function Told(outs: seq<Outcome>, expMsgID: Option<nat>): seq<Report>
  {
    if outs == [] then []
    else (if outs[0].Matched? then [ReportOf(outs[0], expMsgID)] else []) + Told(outs[1..], expMsgID)
  }

  lemma {:induction false} ToldWhatWasTaken(os: seq<IdealOutcome>, expMsgID: Option<nat>)
    ensures var told := Told(EraseOutcomes(os), expMsgID);
      && |told| == |Taken(os)|
      && forall j | 0 <= j < |told| :: told[j] == ReportOf(Matched(Taken(os)[j].reply), expMsgID)
  {
    hide ReportOf;
    if os != [] {
      ToldWhatWasTaken(os[1..], expMsgID);
      var now, rest := Accepted(os[0]), Taken(os[1..]);
      var told := Told(EraseOutcomes(os[1..]), expMsgID);
      ToldFirst(os, expMsgID);
      assert Taken(os) == now + rest;
      forall j | 0 <= j < |told| + |now|
        ensures Told(EraseOutcomes(os), expMsgID)[j] == ReportOf(Matched(Taken(os)[j].reply), expMsgID)
      {
        if j >= |now| {
          assert Taken(os)[j] == rest[j - |now|];
        }
      }
    }
  }

  lemma {:induction false} ToldFirst(os: seq<IdealOutcome>, expMsgID: Option<nat>)
    requires os != []
    ensures Told(EraseOutcomes(os), expMsgID)
         == (if os[0].IdealMatched? then [ReportOf(Matched(os[0].t.reply), expMsgID)] else [])
          + Told(EraseOutcomes(os[1..]), expMsgID)
  {
    assert EraseOutcomes(os)[1..] == EraseOutcomes(os[1..]);
  }

  /** The answers to request k in the order in which VPP, or watchRequests, gives them. */
  function Replies(answers: seq<Answer>, k: int, isMulti: bool, pingReplyID: nat): (q: seq<Tagged>)
    ensures |q| == |answers|
  {
    seq(|answers|, j requires 0 <= j < |answers| => Tagged(Queued(answers[j], k, isMulti, pingReplyID), k))
  }

  /**
   A receiver that asks for one request only is told the answers one by one in the order in which they were given,
   whatever else arrives on the channel and whatever it waits for in vain. Only a multipart request is told an end.
   */
  lemma {:induction false} ToldInOrder(
    i: Ideal, r: Real, run: seq<Step>, k: int, answers: seq<Answer>, isMulti: bool, pingReplyID: nat,
    expMsgID: Option<nat>)
    requires Related(i, r) && RunOk(i, run) && AsksFor(run, k)
    requires Own(i.queue + Stream(i, run), k) <= Replies(answers, k, isMulti, pingReplyID)
    ensures var told := Told(RealRun(r, run), expMsgID);
      && |told| + |Own(After(i, run).queue, k)| == |Own(i.queue + Stream(i, run), k)|
      && |told| <= |answers|
      && (forall j | 0 <= j < |told| :: Reports(answers[j], isMulti, pingReplyID, expMsgID, told[j]))
      && (End in told ==> isMulti)
  {
    hide Own, Stream, Related, RunOk, Taken, Told, AsksFor;
    RunRefines(i, r, run);
    TakenInOrder(i, run, k);
    ToldWhatWasTaken(IdealRun(i, run), expMsgID);
    var taken := Taken(IdealRun(i, run));
    forall j | 0 <= j < |taken| ensures taken[j] == Replies(answers, k, isMulti, pingReplyID)[j] {
      assert taken[j] == Own(i.queue + Stream(i, run), k)[j];
    }
  }

  /** The parts of a dump, and the reply to the control ping behind it. */
  function Dump(msgID: nat, parts: seq<bytes>, pingReplyID: nat, pingData: bytes): (answers: seq<Answer>)
    ensures |answers| == |parts| + 1
  {
    seq(|parts|, j requires 0 <= j < |parts| => Message(msgID, parts[j])) + [Message(pingReplyID, pingData)]
  }

  /**
   A multipart request: the receiver is told the parts in order and then the end, so that once it is told the end it
   has all of them, and until then a beginning of them.
   */
  lemma {:induction false} DumpIsComplete(
    i: Ideal, r: Real, run: seq<Step>, k: int, msgID: nat, parts: seq<bytes>, pingReplyID: nat, pingData: bytes)
    requires Related(i, r) && RunOk(i, run) && AsksFor(run, k) && msgID != pingReplyID
    requires var answers := Dump(msgID, parts, pingReplyID, pingData);
      Own(i.queue + Stream(i, run), k) <= Replies(answers, k, true, pingReplyID)
    ensures var told := Told(RealRun(r, run), Some(msgID));
      && |told| <= |parts| + 1
      && (forall j | 0 <= j < |told| && j < |parts| :: told[j] == Decoded(parts[j]))
      && (End in told <==> |told| == |parts| + 1)
      && (End in told ==> told[|parts|] == End)
  {
    hide Own, Stream, Related, RunOk, Told, AsksFor, RealRun;
    var answers := Dump(msgID, parts, pingReplyID, pingData);
    ToldInOrder(i, r, run, k, answers, true, pingReplyID, Some(msgID));
    var told := Told(RealRun(r, run), Some(msgID));
    forall j | 0 <= j < |told|
      ensures told[j] == if j < |parts| then Decoded(parts[j]) else End
    {
      assert Reports(answers[j], true, pingReplyID, Some(msgID), told[j]);
    }
    if |told| == |parts| + 1 {
      assert told[|parts|] == End;
    }
  }

  /** A refused request: the receiver is told the error and nothing else. */
  lemma {:induction false} RefusalIsTold(
    i: Ideal, r: Real, run: seq<Step>, k: int, err: string, isMulti: bool, expMsgID: Option<nat>)
    requires Related(i, r) && RunOk(i, run) && AsksFor(run, k)
    requires Own(i.queue + Stream(i, run), k) == Replies([Refusal(err)], k, isMulti, 0)
    ensures var told := Told(RealRun(r, run), expMsgID);
      told == [Refused(err)] || (told == [] && |Own(After(i, run).queue, k)| == 1)
  {
    hide Own, Stream, Related, RunOk, Told, AsksFor, RealRun;
    ToldInOrder(i, r, run, k, [Refusal(err)], isMulti, 0, expMsgID);
    var told := Told(RealRun(r, run), expMsgID);
    if told != [] {
      assert Reports([Refusal(err)][0], isMulti, 0, expMsgID, told[0]);
    }
  }
}
