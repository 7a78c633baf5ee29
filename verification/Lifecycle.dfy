/**
 The background loop of a connection next to any number of Disconnect calls. Every step of either side may
 come between any two of the other; sockets, timers and probe replies are choices of the environment.
 */
module Lifecycle {
  datatype ConnectionState = Connected | NotResponding | Disconnected | Failed

  /**
   What happens, in order; Up and Down are a successful Connect and any Disconnect of the adapter, ProbeDenied is
   the failure to open a channel for probes.
   */
  datatype Entry =
    | Attempt | Up | Down | Event(state: ConnectionState) | ProbeTimeout | ProbeOk | ProbeDenied
    | CloseDone | CloseExited

  /** Where the background loop is; attempts is reconnectAttempts and failed is failedChecks. */
  datatype Loop =
    | Connect(attempts: nat) | Retrieve(attempts: nat) | Store | EmitConnected
    | Retry(attempts: nat) | Wait(attempts: nat)
    | OpenProbe | Idle(failed: nat) | Probing(failed: nat) | Cleanup | CleanupCall | Closing | Gone

  /** Where one call of Disconnect is. */
  datatype Caller = Start | ClosingDone | Waiting | Swapping | Calling | Returned

  datatype Config = Config(isAsync: bool, maxAttempts: int, threshold: int)

  datatype State = State(
    loop: Loop, callers: seq<Caller>, vppConnected: bool, backgroundLoopActive: bool, exited: bool, log: seq<Entry>)

  datatype Choice = Succeeds | Fails | TimesOut | KeepsWaiting

  datatype Step = LoopStep(c: Choice) | NewCall | CallerStep(i: nat)

  /** AsyncConnect starts the loop; Connect returns a connection that is up and has no loop. */
  predicate Initial(cfg: Config, s: State)
  {
    if cfg.isAsync then s == State(Connect(0), [], false, true, false, [])
    else s == State(Gone, [], true, false, false, [Up])
  }

  predicate Enabled(s: State, step: Step)
  {
    match step
    case LoopStep(c) => (s.loop.Wait? || s.loop.Idle?) && c == Fails ==> CloseDone in s.log
    case NewCall => true
    case CallerStep(i) => i < |s.callers| && (s.callers[i] == Waiting ==> s.exited)
  }

  /** One step of a thread: where it is next, the connected flag, and what it writes to the log. */
  datatype Move<P> = Move(to: P, vppConnected: bool, entries: seq<Entry>)

  /** backgroudConnectionLoop with connectLoop, connectVPP and healthCheckLoop. */
  function LoopMove(cfg: Config, loop: Loop, up: bool, c: Choice): Move<Loop>
  {
    match loop
    case Connect(a) => if c == Succeeds then Move(Retrieve(a), up, [Attempt, Up]) else Move(Retry(a), up, [Attempt])
    case Retrieve(a) => if c == Succeeds then Move(Store, up, []) else Move(Retry(a), up, [Down])
    case Store => Move(EmitConnected, true, [])
    case EmitConnected => Move(OpenProbe, up, [Event(Connected)])
    case Retry(a) => if a < cfg.maxAttempts then Move(Wait(a + 1), up, []) else Move(Closing, up, [Event(Failed)])
    case Wait(a) => if c == Fails then Move(Closing, up, []) else Move(Connect(a), up, [])
    case OpenProbe => if c == Succeeds then Move(Idle(0), up, []) else Move(Closing, up, [ProbeDenied])
    case Idle(f) => if c == Fails then Move(Closing, up, []) else Move(Probing(f), up, [])
    case Probing(f) =>
      if c == Succeeds then Move(Idle(0), up, [ProbeOk])
      else if c == Fails then Move(Cleanup, up, [Event(Disconnected)])
      else if c == KeepsWaiting then Move(loop, up, [])
      else if f + 1 > cfg.threshold then Move(Cleanup, up, [ProbeTimeout, Event(NotResponding)])
      else Move(Idle(f + 1), up, [ProbeTimeout])
    case Cleanup => if up then Move(CleanupCall, false, []) else Move(Connect(0), up, [])
    case CleanupCall => Move(Connect(0), up, [Down])
    case Closing => Move(Gone, up, [CloseExited])
    case Gone => Move(loop, up, [])
  }

  function NextLoop(cfg: Config, s: State, c: Choice): State
  {
    var m := LoopMove(cfg, s.loop, s.vppConnected, c);
    s.(loop := m.to, vppConnected := m.vppConnected, exited := s.exited || s.loop.Closing?, log := s.log + m.entries)
  }

  /** Disconnect with disconnectVPP; active is backgroundLoopActive. */
  function CallerMove(cfg: Config, caller: Caller, active: bool, up: bool): Move<Caller>
  {
    match caller
    case Start => Move(if !cfg.isAsync then Swapping else if active then ClosingDone else Waiting, up, [])
    case ClosingDone => Move(Waiting, up, [CloseDone])
    case Waiting => Move(Swapping, up, [])
    case Swapping => Move(if up then Calling else Returned, false, [])
    case Calling => Move(Returned, up, [Down])
    case Returned => Move(caller, up, [])
  }

  function NextCaller(cfg: Config, s: State, i: nat): State
    requires i < |s.callers|
  {
    var m := CallerMove(cfg, s.callers[i], s.backgroundLoopActive, s.vppConnected);
    s.(callers := s.callers[i := m.to], vppConnected := m.vppConnected, log := s.log + m.entries,
       backgroundLoopActive := s.backgroundLoopActive && !(cfg.isAsync && s.callers[i] == Start))
  }

  function Next(cfg: Config, s: State, step: Step): State
    requires Enabled(s, step)
  {
    match step
    case LoopStep(c) => NextLoop(cfg, s, c)
    case NewCall => s.(callers := s.callers + [Start])
    case CallerStep(i) => NextCaller(cfg, s, i)
  }

  /** The state after a run, if each of its steps was enabled. */
  ghost predicate Reaches(cfg: Config, s: State, run: seq<Step>, t: State)
    decreases |run|
  {
    if run == [] then s == t else Enabled(s, run[0]) && Reaches(cfg, Next(cfg, s, run[0]), run[1..], t)
  }

  // ---------------------------------------------------------------- what a log says

  /** The adapter calls: true for Up, false for Down. */
  function AdapterCalls(log: seq<Entry>): seq<bool>
  {
    if log == [] then []
    else
      var x := log[|log| - 1];
      AdapterCalls(log[..|log| - 1]) + if x == Up then [true] else if x == Down then [false] else []
  }

  function Events(log: seq<Entry>): seq<ConnectionState>
  {
    if log == [] then []
    else
      var x := log[|log| - 1];
      Events(log[..|log| - 1]) + if x.Event? then [x.state] else []
  }

  function Count(log: seq<Entry>, x: Entry): nat
  {
    if log == [] then 0 else Count(log[..|log| - 1], x) + if log[|log| - 1] == x then 1 else 0
  }

  /** Connection attempts since the last Connected event, or since the start. */
  function Attempts(log: seq<Entry>): nat
  {
    if log == [] || log[|log| - 1] == Event(Connected) then 0
    else Attempts(log[..|log| - 1]) + if log[|log| - 1] == Attempt then 1 else 0
  }

  /** Probe timeouts since the last Connected event or successful probe. */
  function Timeouts(log: seq<Entry>): nat
  {
    if log == [] || log[|log| - 1] == Event(Connected) || log[|log| - 1] == ProbeOk then 0
    else Timeouts(log[..|log| - 1]) + if log[|log| - 1] == ProbeTimeout then 1 else 0
  }

  predicate Alternate(calls: seq<bool>)
  {
    forall i | 0 <= i < |calls| :: calls[i] <==> i % 2 == 0
  }

  /** Connected at even places, losses at odd ones; Failed in place of a Connected, and only at the end. */
  predicate EventsAlternate(events: seq<ConnectionState>)
  {
    forall i | 0 <= i < |events| ::
      if i % 2 == 0 then events[i] == Connected || (events[i] == Failed && i == |events| - 1)
      else events[i] == NotResponding || events[i] == Disconnected
  }

  function Max(a: int, b: int): int { if a < b then b else a }

  predicate NotRespondingAfterTimeouts(log: seq<Entry>, threshold: int)
  {
    forall k | 0 <= k < |log| && log[k] == Event(NotResponding) :: Timeouts(log[..k]) == Max(threshold, 0) + 1
  }

  predicate FailedAfterAttempts(log: seq<Entry>, maxAttempts: int)
  {
    forall k | 0 <= k < |log| && log[k] == Event(Failed) :: Attempts(log[..k]) == Max(maxAttempts, 0) + 1
  }

  predicate LogOk(log: seq<Entry>, cfg: Config)
  {
    NotRespondingAfterTimeouts(log, cfg.threshold) && FailedAfterAttempts(log, cfg.maxAttempts)
  }

  /** All that a log says, in one value. */
  datatype Summary = Summary(
    calls: seq<bool>, events: seq<ConnectionState>, dones: nat, exits: nat, denied: nat, attempts: nat, timeouts: nat,
    ok: bool)

  ghost function Summarize(log: seq<Entry>, cfg: Config): Summary
  {
    Summary(AdapterCalls(log), Events(log), Count(log, CloseDone), Count(log, CloseExited), Count(log, ProbeDenied),
        Attempts(log), Timeouts(log),
            LogOk(log, cfg))
  }

  function Add(m: Summary, x: Entry, cfg: Config): Summary
  {
    match x
    case Attempt => m.(attempts := m.attempts + 1)
    case Up => m.(calls := m.calls + [true])
    case Down => m.(calls := m.calls + [false])
    case Event(e) =>
      m.(events := m.events + [e],
         attempts := if e == Connected then 0 else m.attempts,
         timeouts := if e == Connected then 0 else m.timeouts,
         ok := m.ok && (e == NotResponding ==> m.timeouts == Max(cfg.threshold, 0) + 1) &&
           (e == Failed ==> m.attempts == Max(cfg.maxAttempts, 0) + 1))
    case ProbeTimeout => m.(timeouts := m.timeouts + 1)
    case ProbeOk => m.(timeouts := 0)
    case ProbeDenied => m.(denied := m.denied + 1)
    case CloseDone => m.(dones := m.dones + 1)
    case CloseExited => m.(exits := m.exits + 1)
  }

  function AddAll(m: Summary, entries: seq<Entry>, cfg: Config): Summary
    decreases |entries|
  {
    if entries == [] then m else AddAll(Add(m, entries[0], cfg), entries[1..], cfg)
  }

  /** Every step writes at most two entries. */
  lemma {:induction false} AddFew(m: Summary, entries: seq<Entry>, cfg: Config)
    requires |entries| <= 2
    ensures AddAll(m, entries, cfg) ==
      if |entries| == 0 then m
      else if |entries| == 1 then Add(m, entries[0], cfg)
      else Add(Add(m, entries[0], cfg), entries[1], cfg)
  {
    if |entries| > 0 {
      var rest := entries[1..];
      assert AddAll(m, entries, cfg) == AddAll(Add(m, entries[0], cfg), rest, cfg);
      assert |rest| == 1 ==> rest[1..] == [] && rest[0] == entries[1];
    }
  }

  lemma {:induction false} Logged(log: seq<Entry>, entries: seq<Entry>, cfg: Config)
    ensures Summarize(log + entries, cfg) == AddAll(Summarize(log, cfg), entries, cfg)
    decreases |entries|
  {
    hide Summarize, Add;
    if entries == [] {
      assert log + entries == log;
    } else {
      LoggedOne(log, entries[0], cfg);
      Logged(log + [entries[0]], entries[1..], cfg);
      assert (log + [entries[0]]) + entries[1..] == log + entries;
    }
  }

  lemma {:induction false} LoggedOne(log: seq<Entry>, x: Entry, cfg: Config)
    ensures Summarize(log + [x], cfg) == Add(Summarize(log, cfg), x, cfg)
  {
    hide LogOk;
    assert (log + [x])[..|log + [x]| - 1] == log && (log + [x])[|log + [x]| - 1] == x;
    LoggedOk(log, x, cfg);
  }

  lemma {:induction false} LoggedOk(log: seq<Entry>, x: Entry, cfg: Config)
    ensures LogOk(log + [x], cfg) <==>
      && LogOk(log, cfg)
      && (x == Event(NotResponding) ==> Timeouts(log) == Max(cfg.threshold, 0) + 1)
      && (x == Event(Failed) ==> Attempts(log) == Max(cfg.maxAttempts, 0) + 1)
  {
    hide Timeouts, Attempts;
    var both := log + [x];
    assert both[..|log|] == log && both[|log|] == x;
    assert forall k | 0 <= k < |log| :: both[..k] == log[..k] && both[k] == log[k];
  }

  // ---------------------------------------------------------------- the invariant

  /** The loop has an adapter that is up, but not yet, or no longer, marked as connected. */
  predicate LoopHolds(loop: Loop)
  {
    loop.Retrieve? || loop.Store? || loop.CleanupCall?
  }

  predicate Connecting(loop: Loop)
  {
    loop.Connect? || loop.Retrieve? || loop.Store? || loop.Retry? || loop.Wait?
  }

  predicate Checking(loop: Loop)
  {
    loop.OpenProbe? || loop.Idle? || loop.Probing?
  }

  predicate AtMostOne(callers: seq<Caller>, x: Caller)
  {
    forall i, j | 0 <= i < j < |callers| :: callers[i] != x || callers[j] != x
  }

  ghost predicate AdapterInv(cfg: Config, s: State, m: Summary)
  {
    && Alternate(m.calls)
    && (|m.calls| % 2 == 1 <==> s.vppConnected || LoopHolds(s.loop) || Calling in s.callers)
    && AtMostOne(s.callers, Calling)
    && (Calling in s.callers || Returned in s.callers || LoopHolds(s.loop) || Connecting(s.loop) ==> !s.vppConnected)
    && (s.loop.EmitConnected? || Checking(s.loop) || s.loop.Cleanup? ==> s.vppConnected)
    && (Swapping in s.callers || Calling in s.callers || Returned in s.callers ==> s.loop == Gone)
    && (if cfg.isAsync then s.exited == (s.loop == Gone) else s.loop == Gone)
  }

  ghost predicate CloseInv(cfg: Config, s: State, m: Summary)
  {
    && AtMostOne(s.callers, ClosingDone)
    && (ClosingDone in s.callers ==> cfg.isAsync && !s.backgroundLoopActive && m.dones == 0)
    && (s.backgroundLoopActive ==> m.dones == 0)
    && m.dones <= 1
    && m.exits == (if s.loop == Gone && cfg.isAsync then 1 else 0)
    && (cfg.isAsync || (s.loop == Gone && !s.backgroundLoopActive))
    && (cfg.isAsync && !s.backgroundLoopActive ==> m.dones > 0 || ClosingDone in s.callers)
    && (Waiting in s.callers ==> cfg.isAsync && !s.backgroundLoopActive)
  }

  ghost predicate EventInv(loop: Loop, m: Summary)
  {
    && EventsAlternate(m.events)
    && (Connecting(loop) || loop.EmitConnected? || loop.Cleanup? || loop.CleanupCall? ==>
          |m.events| % 2 == 0 && Failed !in m.events)
    && (Checking(loop) ==> |m.events| % 2 == 1 && Failed !in m.events)
  }

  ghost predicate CountInv(cfg: Config, loop: Loop, m: Summary)
  {
    && m.ok && m.timeouts <= Max(cfg.threshold, 0) + 1
    && (loop.OpenProbe? ==> m.timeouts == 0)
    && (loop.Idle? || loop.Probing? ==> m.timeouts == loop.failed <= Max(cfg.threshold, 0))
    && m.attempts <= Max(cfg.maxAttempts, 0) + 1
    && (loop.Connect? || loop.Wait? ==> m.attempts == loop.attempts <= Max(cfg.maxAttempts, 0))
    && (loop.Retrieve? || loop.Retry? ==> m.attempts == loop.attempts + 1 && loop.attempts <= Max(cfg.maxAttempts, 0))
    && (Checking(loop) || loop.Cleanup? || loop.CleanupCall? ==> m.attempts == 0)
  }

  /** The loop has a reason to end: it failed, was told to, or cannot probe. */
  ghost predicate EndInv(cfg: Config, loop: Loop, m: Summary)
  {
    cfg.isAsync && (loop.Closing? || loop.Gone?) ==> Failed in m.events || m.dones > 0 || m.denied > 0
  }

  ghost predicate Inv(cfg: Config, s: State)
  {
    var m := Summarize(s.log, cfg);
    && AdapterInv(cfg, s, m) && CloseInv(cfg, s, m) && EventInv(s.loop, m) && CountInv(cfg, s.loop, m)
    && EndInv(cfg, s.loop, m)
  }

  lemma {:induction false} CountedIfPresent(log: seq<Entry>, x: Entry)
    ensures x in log <==> Count(log, x) > 0
  {
    if log != [] {
      CountedIfPresent(log[..|log| - 1], x);
      assert log == log[..|log| - 1] + [log[|log| - 1]];
    }
  }

  lemma {:induction false} LoopKeepsEnd(cfg: Config, s: State, c: Choice, m: Summary)
    requires EndInv(cfg, s.loop, m) && Enabled(s, LoopStep(c)) && (CloseDone in s.log ==> m.dones > 0)
    ensures var move := LoopMove(cfg, s.loop, s.vppConnected, c);
      EndInv(cfg, move.to, AddAll(m, move.entries, cfg))
  {
    hide AddAll;
    AddFew(m, LoopMove(cfg, s.loop, s.vppConnected, c).entries, cfg);
  }

  lemma {:induction false} CallsExtend(calls: seq<bool>, up: bool)
    requires Alternate(calls)
    ensures Alternate(calls + [up]) <==> (up <==> |calls| % 2 == 0)
  {
    assert (calls + [up])[|calls|] == up;
  }

  lemma {:induction false} EventsExtend(events: seq<ConnectionState>, e: ConnectionState)
    requires EventsAlternate(events) && Failed !in events
    ensures EventsAlternate(events + [e]) <==>
      if |events| % 2 == 0 then e == Connected || e == Failed else e == NotResponding || e == Disconnected
  {
    assert (events + [e])[|events|] == e;
    assert forall i | 0 <= i < |events| :: (events + [e])[i] == events[i] && events[i] in events;
  }

  lemma {:induction false} LoopKeepsAdapter(cfg: Config, s: State, c: Choice, m: Summary)
    requires AdapterInv(cfg, s, m)
    ensures AdapterInv(cfg, NextLoop(cfg, s, c),
        AddAll(m, LoopMove(cfg, s.loop, s.vppConnected, c).entries, cfg))
  {
    hide Alternate, AddAll;
    AddFew(m, LoopMove(cfg, s.loop, s.vppConnected, c).entries, cfg);
    CallsExtend(m.calls, true);
    CallsExtend(m.calls, false);
  }

  lemma {:induction false} LoopKeepsClose(cfg: Config, s: State, c: Choice, m: Summary)
    requires CloseInv(cfg, s, m)
    ensures CloseInv(cfg, NextLoop(cfg, s, c),
        AddAll(m, LoopMove(cfg, s.loop, s.vppConnected, c).entries, cfg))
  {
    hide AddAll;
    AddFew(m, LoopMove(cfg, s.loop, s.vppConnected, c).entries, cfg);
  }

  lemma {:induction false} LoopKeepsEvents(cfg: Config, loop: Loop, up: bool, c: Choice, m: Summary)
    requires EventInv(loop, m)
    ensures var move := LoopMove(cfg, loop, up, c); EventInv(move.to, AddAll(m, move.entries, cfg))
  {
    hide EventsAlternate, AddAll;
    AddFew(m, LoopMove(cfg, loop, up, c).entries, cfg);
    if !loop.Closing? && !loop.Gone? {
      forall e ensures Failed !in m.events + [e] <==> e != Failed {
        EventsExtend(m.events, e);
      }
      EventsExtend(m.events, Connected);
      EventsExtend(m.events, Failed);
      EventsExtend(m.events, NotResponding);
      EventsExtend(m.events, Disconnected);
    }
  }

  lemma {:induction false} LoopKeepsCounts(cfg: Config, loop: Loop, up: bool, c: Choice, m: Summary)
    requires CountInv(cfg, loop, m)
    ensures var move := LoopMove(cfg, loop, up, c); CountInv(cfg, move.to, AddAll(m, move.entries, cfg))
  {
    hide AddAll;
    AddFew(m, LoopMove(cfg, loop, up, c).entries, cfg);
  }

  lemma {:induction false} CallerKeepsAdapter(cfg: Config, s: State, i: nat, m: Summary)
    requires AdapterInv(cfg, s, m) && Enabled(s, CallerStep(i))
    ensures AdapterInv(cfg, NextCaller(cfg, s, i),
                       AddAll(m, CallerMove(cfg, s.callers[i], s.backgroundLoopActive, s.vppConnected).entries,
                           cfg))
  {
    hide Alternate, AddAll, AtMostOne;
    AddFew(m, CallerMove(cfg, s.callers[i], s.backgroundLoopActive, s.vppConnected).entries, cfg);
    CallsExtend(m.calls, false);
    var to := CallerMove(cfg, s.callers[i], s.backgroundLoopActive, s.vppConnected).to;
    UpdateCaller(s.callers, i, to, Swapping);
    UpdateCaller(s.callers, i, to, Calling);
    UpdateCaller(s.callers, i, to, Returned);
  }

  lemma {:induction false} CallerKeepsClose(cfg: Config, s: State, i: nat, m: Summary)
    requires CloseInv(cfg, s, m) && Enabled(s, CallerStep(i))
    ensures CloseInv(cfg, NextCaller(cfg, s, i),
                     AddAll(m, CallerMove(cfg, s.callers[i], s.backgroundLoopActive, s.vppConnected).entries,
                         cfg))
  {
    hide AddAll, AtMostOne;
    AddFew(m, CallerMove(cfg, s.callers[i], s.backgroundLoopActive, s.vppConnected).entries, cfg);
    UpdateCaller(s.callers, i, CallerMove(cfg, s.callers[i], s.backgroundLoopActive, s.vppConnected).to, ClosingDone);
    UpdateCaller(s.callers, i, CallerMove(cfg, s.callers[i], s.backgroundLoopActive, s.vppConnected).to, Waiting);
  }

  lemma {:induction false} UpdateCaller(callers: seq<Caller>, i: nat, c: Caller, x: Caller)
    requires i < |callers|
    ensures x == c ==> x in callers[i := c]
    ensures x != c && x in callers[i := c] ==> x in callers
    ensures x != c && x != callers[i] ==> (x in callers[i := c] <==> x in callers)
    ensures x == callers[i] != c && AtMostOne(callers, x) ==> x !in callers[i := c]
    ensures AtMostOne(callers, x) && (x != c || x == callers[i] || x !in callers) ==> AtMostOne(callers[i := c], x)
  {
    var after := callers[i := c];
    assert after[i] == c && forall j | 0 <= j < |callers| && j != i :: after[j] == callers[j];
  }

  lemma {:induction false} StepKeepsInv(cfg: Config, s: State, step: Step)
    requires Inv(cfg, s) && Enabled(s, step)
    ensures Inv(cfg, Next(cfg, s, step))
  {
    hide LoopMove, CallerMove, AdapterInv, CloseInv, EventInv, CountInv, EndInv, AddAll;
    CountedIfPresent(s.log, CloseDone);
    var m := Summarize(s.log, cfg);
    match step {
      case LoopStep(c) =>
        Logged(s.log, LoopMove(cfg, s.loop, s.vppConnected, c).entries, cfg);
        LoopKeepsAdapter(cfg, s, c, m);
        LoopKeepsClose(cfg, s, c, m);
        LoopKeepsEvents(cfg, s.loop, s.vppConnected, c, m);
        LoopKeepsCounts(cfg, s.loop, s.vppConnected, c, m);
        LoopKeepsEnd(cfg, s, c, m);
      case NewCall =>
        NewCallKeeps(cfg, s, m);
      case CallerStep(i) =>
        Logged(s.log, CallerMove(cfg, s.callers[i], s.backgroundLoopActive, s.vppConnected).entries, cfg);
        CallerKeepsAdapter(cfg, s, i, m);
        CallerKeepsClose(cfg, s, i, m);
        CallerKeepsRest(cfg, s, i, m);
    }
  }

  lemma {:induction false} NewCallKeeps(cfg: Config, s: State, m: Summary)
    requires AdapterInv(cfg, s, m) && CloseInv(cfg, s, m)
    ensures AdapterInv(cfg, s.(callers := s.callers + [Start]), m) &&
        CloseInv(cfg, s.(callers := s.callers + [Start]), m)
  {
  }

  /** Disconnect emits no events and makes no attempts. */
  lemma {:induction false} CallerKeepsRest(cfg: Config, s: State, i: nat, m: Summary)
    requires EventInv(s.loop, m) && CountInv(cfg, s.loop, m) && EndInv(cfg, s.loop, m) && i < |s.callers|
    ensures var entries := CallerMove(cfg, s.callers[i], s.backgroundLoopActive, s.vppConnected).entries;
      var after := AddAll(m, entries, cfg);
      EventInv(s.loop, after) && CountInv(cfg, s.loop, after) && EndInv(cfg, s.loop, after)
  {
    AddFew(m, CallerMove(cfg, s.callers[i], s.backgroundLoopActive, s.vppConnected).entries, cfg);
  }

  // ---------------------------------------------------------------- every run

  lemma {:induction false} RunKeepsInv(cfg: Config, s: State, run: seq<Step>, t: State)
    requires Inv(cfg, s) && Reaches(cfg, s, run, t)
    ensures Inv(cfg, t)
    decreases |run|
  {
    hide Inv, Enabled, Next;
    if run != [] {
      StepKeepsInv(cfg, s, run[0]);
      RunKeepsInv(cfg, Next(cfg, s, run[0]), run[1..], t);
    }
  }

  lemma {:induction false} EmptyLog(cfg: Config)
    ensures Summarize([], cfg) == Summary([], [], 0, 0, 0, 0, 0, true)
  {
  }

  lemma {:induction false} OneUp(cfg: Config)
    ensures Summarize([Up], cfg) == Summary([true], [], 0, 0, 0, 0, 0, true)
  {
    EmptyLog(cfg);
    LoggedOne([], Up, cfg);
    assert [] + [Up] == [Up] && [] + [true] == [true];
  }

  function InitialSummary(cfg: Config): Summary
  {
    Summary(if cfg.isAsync then [] else [true], [], 0, 0, 0, 0, 0, true)
  }

  lemma {:induction false} InitialThreads(cfg: Config, s: State)
    requires Initial(cfg, s)
    ensures AdapterInv(cfg, s, InitialSummary(cfg)) && CloseInv(cfg, s, InitialSummary(cfg))
  {
  }

  lemma {:induction false} InitialLoop(cfg: Config, s: State)
    requires Initial(cfg, s)
    ensures EventInv(s.loop, InitialSummary(cfg)) && CountInv(cfg, s.loop, InitialSummary(cfg))
    ensures EndInv(cfg, s.loop, InitialSummary(cfg))
  {
  }

  lemma {:induction false} InitialInv(cfg: Config, s: State)
    requires Initial(cfg, s)
    ensures Inv(cfg, s)
  {
    hide Summarize, AdapterInv, CloseInv, EventInv, CountInv, EndInv;
    InitialThreads(cfg, s);
    InitialLoop(cfg, s);
    EmptyLog(cfg);
    OneUp(cfg);
  }

  /**
   In every reachable state, whatever the interleaving of the loop with any number of Disconnect calls: adapter
   connects and disconnects strictly alternate, the events alternate and end with Failed, each channel is closed at
   most once, a connect loop makes all its attempts before it fails and no more, and NotResponding comes after exactly
   threshold + 1 timeouts, which is the most there are.
   */
  lemma {:induction false} EveryRun(cfg: Config, s: State, run: seq<Step>, t: State)
    requires Initial(cfg, s) && Reaches(cfg, s, run, t)
    ensures Alternate(AdapterCalls(t.log))
    ensures EventsAlternate(Events(t.log))
    ensures Count(t.log, CloseDone) <= 1 && Count(t.log, CloseExited) <= 1
    ensures Attempts(t.log) <= Max(cfg.maxAttempts, 0) + 1
    ensures FailedAfterAttempts(t.log, cfg.maxAttempts)
    ensures NotRespondingAfterTimeouts(t.log, cfg.threshold) && Timeouts(t.log) <= Max(cfg.threshold, 0) + 1
  {
    InitialInv(cfg, s);
    RunKeepsInv(cfg, s, run, t);
  }

  /** The background loop ends only if reconnecting failed, a Disconnect asked for it, or probes are impossible. */
  lemma {:induction false} LoopEndsForAReason(cfg: Config, s: State, run: seq<Step>, t: State)
    requires Initial(cfg, s) && Reaches(cfg, s, run, t) && cfg.isAsync && t.loop == Gone
    ensures Failed in Events(t.log) || CloseDone in t.log || ProbeDenied in t.log
  {
    InitialInv(cfg, s);
    RunKeepsInv(cfg, s, run, t);
    CountedIfPresent(t.log, CloseDone);
    CountedIfPresent(t.log, ProbeDenied);
  }

  /**
   Once a call of Disconnect has returned the loop is gone and the connection marked as down; the adapter is
   down too unless another call is about to disconnect it.
   */
  lemma {:induction false} AfterDisconnect(cfg: Config, s: State, run: seq<Step>, t: State)
    requires Initial(cfg, s) && Reaches(cfg, s, run, t) && Returned in t.callers
    ensures t.loop == Gone && !t.vppConnected
    ensures |AdapterCalls(t.log)| % 2 == 1 <==> Calling in t.callers
  {
    InitialInv(cfg, s);
    RunKeepsInv(cfg, s, run, t);
  }

  // ---------------------------------------------------------------- what the loop does in time

  /** The choices that the loop's own steps make in a run. */
  function Choices(run: seq<Step>): seq<Choice>
  {
    if run == [] then [] else (if run[0].LoopStep? then [run[0].c] else []) + Choices(run[1..])
  }

  /** Where these choices take the loop, and what it writes, if nobody else marks the connection as down. */
  function Path(cfg: Config, loop: Loop, up: bool, cs: seq<Choice>): (Loop, seq<Entry>)
    decreases |cs|
  {
    if cs == [] then (loop, [])
    else
      var m := LoopMove(cfg, loop, up, cs[0]);
      var (to, entries) := Path(cfg, m.to, m.vppConnected, cs[1..]);
      (to, m.entries + entries)
  }

  /** Among these choices is one to stop, which only a closed healthCheckDone allows. */
  predicate Stops(cfg: Config, loop: Loop, up: bool, cs: seq<Choice>)
    decreases |cs|
  {
    cs != [] && (
      || ((loop.Wait? || loop.Idle?) && cs[0] == Fails)
      || (var m := LoopMove(cfg, loop, up, cs[0]); Stops(cfg, m.to, m.vppConnected, cs[1..])))
  }

  lemma {:induction false} GoneStays(cfg: Config, up: bool, cs: seq<Choice>)
    ensures Path(cfg, Gone, up, cs) == (Gone, []) && !Stops(cfg, Gone, up, cs)
    decreases |cs|
  {
    if cs != [] {
      GoneStays(cfg, up, cs[1..]);
      assert LoopMove(cfg, Gone, up, cs[0]) == Move(Gone, up, []);
      assert [] + Path(cfg, Gone, up, cs[1..]).1 == [];
    }
  }

  lemma {:induction false} EventsConcat(a: seq<Entry>, b: seq<Entry>)
    ensures Events(a + b) == Events(a) + Events(b)
    ensures Count(a + b, Attempt) == Count(a, Attempt) + Count(b, Attempt)
    decreases |b|
  {
    if b == [] {
      assert a + b == a;
    } else {
      var front, last := b[..|b| - 1], b[|b| - 1];
      EventsConcat(a, front);
      assert (a + b)[..|a + b| - 1] == a + front;
      var e := if last.Event? then [last.state] else [];
      assert Events(a) + (Events(front) + e) == (Events(a) + Events(front)) + e;
    }
  }

  /** Disconnect writes no event and no attempt, and marks the connection as down only when the loop is gone. */
  lemma {:induction false} CallerAside(cfg: Config, s: State, i: nat)
    requires Inv(cfg, s) && Enabled(s, CallerStep(i))
    ensures var t := NextCaller(cfg, s, i);
      && t.loop == s.loop && s.log <= t.log && (s.loop != Gone ==> t.vppConnected == s.vppConnected)
      && Events(t.log) == Events(s.log) && Count(t.log, Attempt) == Count(s.log, Attempt)
  {
    SwappingMeansGone(cfg, s);
    hide Inv, Events, Count;
    var entries := CallerMove(cfg, s.callers[i], s.backgroundLoopActive, s.vppConnected).entries;
    EventsConcat(s.log, entries);
    assert entries == [] || entries == [CloseDone] || entries == [Down];
    SilentEntries(s.log);
  }

  lemma {:induction false} SwappingMeansGone(cfg: Config, s: State)
    requires Inv(cfg, s)
    ensures Swapping in s.callers || Calling in s.callers ==> s.loop == Gone
  {
    hide Summarize, CloseInv, EventInv, CountInv, EndInv, AtMostOne, Alternate;
  }

  lemma {:induction false} SilentEntries(log: seq<Entry>)
    ensures forall e | e in [[], [CloseDone], [Down]] ::
        Events(log) + Events(e) == Events(log) && Count(e, Attempt) == 0
  {
    assert [CloseDone][..0] == [] == [Down][..0];
  }

  /** In every run the loop goes where its own choices take it, whatever calls of Disconnect come in between. */
  lemma {:induction false} LoopFollowsPath(cfg: Config, s: State, run: seq<Step>, t: State)
    requires Inv(cfg, s) && Reaches(cfg, s, run, t)
    ensures var (to, entries) := Path(cfg, s.loop, s.vppConnected, Choices(run));
      && t.loop == to && s.log <= t.log
      && Events(t.log) == Events(s.log) + Events(entries)
      && Count(t.log, Attempt) == Count(s.log, Attempt) + Count(entries, Attempt)
    ensures Stops(cfg, s.loop, s.vppConnected, Choices(run)) ==> CloseDone in t.log
    decreases |run|
  {
    hide Inv, LoopMove, Events, Count, CallerMove;
    if run == [] {
      assert Choices(run) == [];
      NothingWritten(s.log);
    } else {
      var next := Next(cfg, s, run[0]);
      StepKeepsInv(cfg, s, run[0]);
      LoopFollowsPath(cfg, next, run[1..], t);
      match run[0] {
        case LoopStep(c) =>
          assert Choices(run) == [c] + Choices(run[1..]) && Choices(run)[1..] == Choices(run[1..]);
          var m := LoopMove(cfg, s.loop, s.vppConnected, c);
          var (to, entries) := Path(cfg, m.to, m.vppConnected, Choices(run[1..]));
          EventsConcat(s.log, m.entries);
          EventsConcat(m.entries, entries);
          Regroup(Events(s.log), Events(m.entries), Events(entries));
        case NewCall =>
          assert Choices(run) == Choices(run[1..]);
        case CallerStep(i) =>
          assert Choices(run) == Choices(run[1..]);
          CallerAside(cfg, s, i);
          if s.loop == Gone {
            GoneStays(cfg, s.vppConnected, Choices(run));
            GoneStays(cfg, next.vppConnected, Choices(run));
          }
      }
    }
  }

  lemma {:induction false} NothingWritten(log: seq<Entry>)
    ensures Events(log) == Events(log) + Events([]) && Count([], Attempt) == 0
  {
  }

  lemma {:induction false} Regroup(a: seq<ConnectionState>, b: seq<ConnectionState>, c: seq<ConnectionState>)
    ensures (a + b) + c == a + (b + c)
  {
  }

  /** The first move of a path, the events and attempts of which add up. */
  lemma {:induction false} FirstMove(cfg: Config, loop: Loop, up: bool, cs: seq<Choice>)
    requires cs != [] && !Stops(cfg, loop, up, cs)
    ensures (loop.Wait? || loop.Idle?) ==> cs[0] != Fails
    ensures var m := LoopMove(cfg, loop, up, cs[0]);
      var (to, entries) := Path(cfg, m.to, m.vppConnected, cs[1..]);
      && !Stops(cfg, m.to, m.vppConnected, cs[1..])
      && Path(cfg, loop, up, cs).0 == to
      && Events(Path(cfg, loop, up, cs).1) == Events(m.entries) + Events(entries)
      && Count(Path(cfg, loop, up, cs).1, Attempt) == Count(m.entries, Attempt) + Count(entries, Attempt)
  {
    hide LoopMove, Events, Count;
    var m := LoopMove(cfg, loop, up, cs[0]);
    EventsConcat(m.entries, Path(cfg, m.to, m.vppConnected, cs[1..]).1);
  }

  /** The events and attempts of the few entries that one move writes. */
  lemma {:induction false} FewEntries()
    ensures Events([]) == [] && Count([], Attempt) == 0
    ensures Events([Attempt]) == [] && Count([Attempt], Attempt) == 1
    ensures Events([Attempt, Up]) == [] && Count([Attempt, Up], Attempt) == 1
    ensures Events([Down]) == [] && Count([Down], Attempt) == 0
    ensures Events([ProbeTimeout]) == [] && Count([ProbeTimeout], Attempt) == 0
    ensures Events([ProbeOk]) == [] && Count([ProbeOk], Attempt) == 0
    ensures forall e :: Events([Event(e)]) == [e] && Count([Event(e)], Attempt) == 0
    ensures forall e :: Events([ProbeTimeout, Event(e)]) == [e] && Count([ProbeTimeout, Event(e)], Attempt) == 0
  {
    forall x: Entry
      ensures Events([x]) == if x.Event? then [x.state] else []
      ensures Count([x], Attempt) == if x == Attempt then 1 else 0
    {
      assert [x][..0] == [];
      assert [] + Events([x]) == Events([x]);
    }
    EventsConcat([Attempt], [Up]);
    assert [Attempt] + [Up] == [Attempt, Up];
    forall e ensures Events([ProbeTimeout, Event(e)]) == [e] && Count([ProbeTimeout, Event(e)], Attempt) == 0 {
      EventsConcat([ProbeTimeout], [Event(e)]);
      assert [ProbeTimeout] + [Event(e)] == [ProbeTimeout, Event(e)];
    }
  }

  /** An attempt that fails, at connecting or at retrieving the message IDs, and the choices of Retry and Wait. */
  datatype FailedTry = FailedTry(connected: bool, retry: Choice, wait: Choice)

  function TryChoices(t: FailedTry): seq<Choice>
  {
    (if t.connected then [Succeeds, Fails] else [Fails]) + [t.retry, t.wait]
  }

  function Tried(tries: seq<FailedTry>): seq<Choice>
  {
    if tries == [] then [] else TryChoices(tries[0]) + Tried(tries[1..])
  }

  /** Failed attempts one after the other, as long as there are attempts left. */
  lemma {:induction false} Tries(cfg: Config, a: nat, up: bool, tries: seq<FailedTry>, rest: seq<Choice>)
    requires tries != [] ==> a + |tries| <= cfg.maxAttempts
    requires !Stops(cfg, Connect(a), up, Tried(tries) + rest)
    ensures var (n, cs) := (|tries|, Tried(tries) + rest);
      var (to, entries) := Path(cfg, Connect(a + n), up, rest);
      && !Stops(cfg, Connect(a + n), up, rest)
      && Path(cfg, Connect(a), up, cs).0 == to
      && Events(Path(cfg, Connect(a), up, cs).1) == Events(entries)
      && Count(Path(cfg, Connect(a), up, cs).1, Attempt) == n + Count(entries, Attempt)
    decreases |tries|
  {
    hide Path, Stops, Events, Count, TryChoices;
    if tries == [] {
      assert Tried(tries) + rest == rest;
    } else {
      var more := Tried(tries[1..]) + rest;
      assert Tried(tries) + rest == TryChoices(tries[0]) + more;
      OneTry(cfg, a, up, tries[0], more);
      Tries(cfg, a + 1, up, tries[1..], rest);
    }
  }

  lemma {:induction false} OneTry(cfg: Config, a: nat, up: bool, t: FailedTry, more: seq<Choice>)
    requires a < cfg.maxAttempts && !Stops(cfg, Connect(a), up, TryChoices(t) + more)
    ensures var cs := TryChoices(t) + more;
      var now, later := Path(cfg, Connect(a), up, cs), Path(cfg, Connect(a + 1), up, more);
      && now.0 == later.0
      && !Stops(cfg, Connect(a + 1), up, more)
      && Events(now.1) == Events(later.1) && Count(now.1, Attempt) == 1 + Count(later.1, Attempt)
  {
    hide Path, Stops, Events, Count;
    var cs := TryChoices(t) + more;
    var waiting := [t.retry, t.wait] + more;
    FewEntries();
    FirstMove(cfg, Connect(a), up, cs);
    if t.connected {
      assert cs[1..] == [Fails] + waiting;
      FirstMove(cfg, Retrieve(a), up, [Fails] + waiting);
      assert ([Fails] + waiting)[1..] == waiting;
    } else {
      assert cs[1..] == waiting;
    }
    FirstMove(cfg, Retry(a), up, waiting);
    assert waiting[1..] == [t.wait] + more;
    FirstMove(cfg, Wait(a + 1), up, [t.wait] + more);
    assert ([t.wait] + more)[1..] == more;
  }

  /**
   A connect loop whose attempts fail tries again while it has attempts left, and is connected and ready for health
   checks as soon as one of them succeeds, unless a Disconnect stops it.
   */
  lemma {:induction false} ConnectsAtLast(
    cfg: Config, s: State, run: seq<Step>, t: State, a: nat, tries: seq<FailedTry>, done: seq<Choice>)
    requires Inv(cfg, s) && Reaches(cfg, s, run, t) && s.loop == Connect(a)
    requires tries != [] ==> a + |tries| <= cfg.maxAttempts
    requires |done| == 5 && done[0] == done[1] == done[4] == Succeeds && Choices(run) == Tried(tries) + done
    ensures CloseDone in t.log ||
      (t.loop == Idle(0) && Events(t.log) == Events(s.log) + [Connected]
       && Count(t.log, Attempt) == Count(s.log, Attempt) + |tries| + 1)
  {
    hide Inv, Path, Stops, Events, Count, Reaches;
    var up := s.vppConnected;
    LoopFollowsPath(cfg, s, run, t);
    if !Stops(cfg, s.loop, up, Choices(run)) {
      Tries(cfg, a, up, tries, done);
      Succeeding(cfg, a + |tries|, up, done);
    }
  }

  lemma {:induction false} Succeeding(cfg: Config, a: nat, up: bool, cs: seq<Choice>)
    requires |cs| == 5 && cs[0] == cs[1] == cs[4] == Succeeds && !Stops(cfg, Connect(a), up, cs)
    ensures var (to, entries) := Path(cfg, Connect(a), up, cs);
      to == Idle(0) && Events(entries) == [Connected] && Count(entries, Attempt) == 1
  {
    hide Path, Stops, Events, Count;
    FirstMove(cfg, Connect(a), up, cs);
    FirstMove(cfg, Retrieve(a), up, cs[1..]);
    assert cs[1..][1..] == cs[2..];
    FirstMove(cfg, Store, up, cs[2..]);
    assert cs[2..][1..] == cs[3..];
    FirstMove(cfg, EmitConnected, true, cs[3..]);
    assert cs[3..][1..] == cs[4..];
    FirstMove(cfg, OpenProbe, true, cs[4..]);
    assert cs[4..][1..] == [];
    PathEnds(cfg, Idle(0), true);
    FewEntries();
  }

  /** A connect loop all of whose attempts fail says so and ends, unless a Disconnect stops it before. */
  lemma {:induction false} FailsInTheEnd(
    cfg: Config, s: State, run: seq<Step>, t: State, a: nat, tries: seq<FailedTry>, last: Choice)
    requires Inv(cfg, s) && Reaches(cfg, s, run, t) && s.loop == Connect(a)
    requires a + |tries| == Max(cfg.maxAttempts, 0) && Choices(run) == Tried(tries) + [Fails, last]
    ensures CloseDone in t.log ||
      (t.loop == Closing && Events(t.log) == Events(s.log) + [Failed]
       && Count(t.log, Attempt) == Count(s.log, Attempt) + |tries| + 1)
  {
    hide Inv, Path, Stops, Events, Count, Reaches;
    var up := s.vppConnected;
    LoopFollowsPath(cfg, s, run, t);
    if !Stops(cfg, s.loop, up, Choices(run)) {
      Tries(cfg, a, up, tries, [Fails, last]);
      Failing(cfg, a + |tries|, up, [Fails, last]);
    }
  }

  lemma {:induction false} Failing(cfg: Config, a: nat, up: bool, cs: seq<Choice>)
    requires |cs| == 2 && cs[0] != Succeeds && a >= cfg.maxAttempts && !Stops(cfg, Connect(a), up, cs)
    ensures var (to, entries) := Path(cfg, Connect(a), up, cs);
      to == Closing && Events(entries) == [Failed] && Count(entries, Attempt) == 1
  {
    hide Path, Stops, Events, Count;
    FirstMove(cfg, Connect(a), up, cs);
    FirstMove(cfg, Retry(a), up, cs[1..]);
    assert cs[1..][1..] == [];
    PathEnds(cfg, Closing, up);
    FewEntries();
  }

  lemma {:induction false} PathEnds(cfg: Config, loop: Loop, up: bool)
    ensures Path(cfg, loop, up, []) == (loop, [])
  {
  }

  // ---------------------------------------------------------------- health checks

  /**
   One round of the health check: the ticker, how often the probe went on waiting because of replies on other channels,
   and whether it was answered in the end.
   */
  datatype Round = Round(waits: nat, answered: bool)

  function RoundChoices(r: Round): seq<Choice>
  {
    [Succeeds] + seq(r.waits, _ => KeepsWaiting) + [if r.answered then Succeeds else TimesOut]
  }

  function Rounds(rounds: seq<Round>): seq<Choice>
  {
    if rounds == [] then [] else RoundChoices(rounds[0]) + Rounds(rounds[1..])
  }

  /** Timeouts in a row at the end, if there were f before. */
  function Silence(rounds: seq<Round>, f: nat): nat
  {
    if rounds == [] then f else Silence(rounds[1..], if rounds[0].answered then 0 else f + 1)
  }

  /** There are never more than threshold timeouts in a row. */
  predicate Tolerable(rounds: seq<Round>, f: nat, threshold: int)
  {
    rounds != [] ==>
      && (rounds[0].answered || f + 1 <= threshold)
      && Tolerable(rounds[1..], if rounds[0].answered then 0 else f + 1, threshold)
  }

  /** Waiting on changes nothing. */
  lemma {:induction false} Waits(cfg: Config, f: nat, up: bool, n: nat, more: seq<Choice>)
    ensures var cs := seq(n, _ => KeepsWaiting) + more;
      && Path(cfg, Probing(f), up, cs) == Path(cfg, Probing(f), up, more)
      && (Stops(cfg, Probing(f), up, cs) <==> Stops(cfg, Probing(f), up, more))
  {
    var cs := seq(n, _ => KeepsWaiting) + more;
    if n == 0 {
      assert cs == more;
    } else {
      assert cs[0] == KeepsWaiting && cs[1..] == seq(n - 1, _ => KeepsWaiting) + more;
      Waits(cfg, f, up, n - 1, more);
      assert [] + Path(cfg, Probing(f), up, more).1 == Path(cfg, Probing(f), up, more).1;
    }
  }

  /** The round of a probe, up to its end. */
  lemma {:induction false} OneRound(cfg: Config, f: nat, up: bool, waits: nat, more: seq<Choice>)
    requires !Stops(cfg, Idle(f), up, [Succeeds] + seq(waits, _ => KeepsWaiting) + more)
    ensures var cs := [Succeeds] + seq(waits, _ => KeepsWaiting) + more;
      && Path(cfg, Idle(f), up, cs).0 == Path(cfg, Probing(f), up, more).0
      && Events(Path(cfg, Idle(f), up, cs).1) == Events(Path(cfg, Probing(f), up, more).1)
      && !Stops(cfg, Probing(f), up, more)
  {
    hide Path, Stops, Events, Count;
    var cs := [Succeeds] + seq(waits, _ => KeepsWaiting) + more;
    FewEntries();
    FirstMove(cfg, Idle(f), up, cs);
    assert cs[1..] == seq(waits, _ => KeepsWaiting) + more;
    Waits(cfg, f, up, waits, more);
  }

  lemma {:induction false} Probes(cfg: Config, f: nat, up: bool, rounds: seq<Round>, more: seq<Choice>)
    requires Tolerable(rounds, f, cfg.threshold)
    requires !Stops(cfg, Idle(f), up, Rounds(rounds) + more)
    ensures var (to, entries) := Path(cfg, Idle(Silence(rounds, f)), up, more);
      && !Stops(cfg, Idle(Silence(rounds, f)), up, more)
      && Path(cfg, Idle(f), up, Rounds(rounds) + more).0 == to
      && Events(Path(cfg, Idle(f), up, Rounds(rounds) + more).1) == Events(entries)
    decreases |rounds|
  {
    hide Path, Stops, Events, Count;
    if rounds == [] {
      assert Rounds(rounds) + more == more;
    } else {
      var r := rounds[0];
      var last := if r.answered then Succeeds else TimesOut;
      var rest := Rounds(rounds[1..]) + more;
      assert Rounds(rounds) + more == [Succeeds] + seq(r.waits, _ => KeepsWaiting) + ([last] + rest);
      OneRound(cfg, f, up, r.waits, [last] + rest);
      FewEntries();
      FirstMove(cfg, Probing(f), up, [last] + rest);
      assert ([last] + rest)[1..] == rest;
      Probes(cfg, if r.answered then 0 else f + 1, up, rounds[1..], more);
    }
  }

  /** As long as probes are answered, or no more than threshold of them in a row are not, nothing is reported. */
  lemma {:induction false} StaysConnected(cfg: Config, s: State, run: seq<Step>, t: State, f: nat, rounds: seq<Round>)
    requires Inv(cfg, s) && Reaches(cfg, s, run, t) && s.loop == Idle(f)
    requires Choices(run) == Rounds(rounds) && Tolerable(rounds, f, cfg.threshold)
    ensures t.loop == Idle(Silence(rounds, f)) && Events(t.log) == Events(s.log)
  {
    hide Inv, Events, Count, Reaches;
    var cs, up := Choices(run), s.vppConnected;
    LoopFollowsPath(cfg, s, run, t);
    assert Rounds(rounds) + [] == cs;
    NoRoundStops(cfg, f, up, rounds);
    Probes(cfg, f, up, rounds, []);
    NothingWritten(s.log);
  }

  lemma {:induction false} NoRoundStops(cfg: Config, f: nat, up: bool, rounds: seq<Round>)
    requires Tolerable(rounds, f, cfg.threshold)
    ensures !Stops(cfg, Idle(f), up, Rounds(rounds))
    decreases |rounds|
  {
    if rounds != [] {
      NoRoundStops(cfg, if rounds[0].answered then 0 else f + 1, up, rounds[1..]);
      hide Stops, Rounds, RoundChoices;
      RoundGoesOn(cfg, f, up, rounds[0], Rounds(rounds[1..]));
      FirstRound(rounds);
    }
  }

  lemma {:induction false} FirstRound(rounds: seq<Round>)
    requires rounds != []
    ensures Rounds(rounds) == RoundChoices(rounds[0]) + Rounds(rounds[1..])
  {
  }

  lemma {:induction false} RoundGoesOn(cfg: Config, f: nat, up: bool, r: Round, rest: seq<Choice>)
    requires r.answered || f + 1 <= cfg.threshold
    requires !Stops(cfg, Idle(if r.answered then 0 else f + 1), up, rest)
    ensures !Stops(cfg, Idle(f), up, RoundChoices(r) + rest)
  {
    hide Stops;
    var ending := [if r.answered then Succeeds else TimesOut] + rest;
    assert ending[1..] == rest;
    NoStop(cfg, Probing(f), up, ending);
    Waits(cfg, f, up, r.waits, ending);
    var cs := RoundChoices(r) + rest;
    assert cs[1..] == seq(r.waits, _ => KeepsWaiting) + ending;
    NoStop(cfg, Idle(f), up, cs);
  }

  lemma {:induction false} NoStop(cfg: Config, loop: Loop, up: bool, cs: seq<Choice>)
    requires cs != [] && ((loop.Wait? || loop.Idle?) ==> cs[0] != Fails)
    requires var m := LoopMove(cfg, loop, up, cs[0]); !Stops(cfg, m.to, m.vppConnected, cs[1..])
    ensures !Stops(cfg, loop, up, cs)
  {
  }

  /**
   One timeout too many is reported, and so is a failed probe at once; the loop then goes on to reconnect, with all its
   attempts.
   */
  lemma {:induction false} LossIsNoticed(
    cfg: Config, s: State, run: seq<Step>, t: State, f: nat, rounds: seq<Round>, waits: nat, last: Choice)
    requires Inv(cfg, s) && Reaches(cfg, s, run, t) && s.loop == Idle(f)
    requires Choices(run)
          == Rounds(rounds) + ([Succeeds] + seq(waits, _ => KeepsWaiting) + [last, Succeeds, Succeeds])
    requires Tolerable(rounds, f, cfg.threshold)
    requires last == Fails || (last == TimesOut && Silence(rounds, f) + 1 > cfg.threshold)
    ensures CloseDone in t.log ||
      (t.loop == Connect(0)
       && Events(t.log) == Events(s.log) + [if last == Fails then Disconnected else NotResponding])
  {
    hide Path, Stops, Events, Count, Reaches;
    assert s.vppConnected by { hide Summarize; }
    hide Inv;
    var more := [Succeeds] + seq(waits, _ => KeepsWaiting) + [last, Succeeds, Succeeds];
    LoopFollowsPath(cfg, s, run, t);
    if !Stops(cfg, s.loop, true, Choices(run)) {
      Probes(cfg, f, true, rounds, more);
      OneRound(cfg, Silence(rounds, f), true, waits, [last, Succeeds, Succeeds]);
      Losing(cfg, Silence(rounds, f), last);
    }
  }

  lemma {:induction false} Losing(cfg: Config, f: nat, last: Choice)
    requires last == Fails || (last == TimesOut && f + 1 > cfg.threshold)
    requires !Stops(cfg, Probing(f), true, [last, Succeeds, Succeeds])
    ensures var (to, entries) := Path(cfg, Probing(f), true, [last, Succeeds, Succeeds]);
      to == Connect(0) && Events(entries) == [if last == Fails then Disconnected else NotResponding]
  {
    hide Path, Stops, Events, Count;
    var cs := [last, Succeeds, Succeeds];
    FirstMove(cfg, Probing(f), true, cs);
    assert cs[1..] == [Succeeds, Succeeds];
    FirstMove(cfg, Cleanup, true, [Succeeds, Succeeds]);
    assert [Succeeds, Succeeds][1..] == [Succeeds];
    FirstMove(cfg, CleanupCall, false, [Succeeds]);
    assert [Succeeds][1..] == [];
    PathEnds(cfg, Connect(0), false);
    FewEntries();
  }

  // ---------------------------------------------------------------- Disconnect comes to an end

  /** The environment lets everything succeed; Fails is only the loop's choice of a closed healthCheckDone. */
  predicate Obliging(cfg: Config, s: State, run: seq<Step>)
    decreases |run|
  {
    run != [] ==>
      && Enabled(s, run[0])
      && (run[0].LoopStep? ==> run[0].c == if s.loop.Wait? || s.loop.Idle? then Fails else Succeeds)
      && Obliging(cfg, Next(cfg, s, run[0]), run[1..])
  }

  function CallerRank(c: Caller): nat
  {
    match c case Start => 5 case ClosingDone => 4 case Waiting => 3 case Swapping => 2 case Calling => 1
            case Returned => 0
  }

  /** How many steps the loop is from its end, once it is told to stop. */
  function LoopRank(loop: Loop): nat
  {
    match loop
    case Cleanup => 9
    case CleanupCall => 8
    case Connect(_) => 7
    case Retrieve(_) => 6
    case Store => 5
    case EmitConnected => 4
    case OpenProbe => 3
    case Probing(_) => 3
    case Retry(_) => 3
    case Idle(_) => 2
    case Wait(_) => 2
    case Closing => 1
    case Gone => 0
  }

  /** From every reachable state every call of Disconnect can return, without anything having to fail for it. */
  lemma {:induction false} DisconnectReturns(cfg: Config, s: State, i: nat) returns (run: seq<Step>, t: State)
    requires Inv(cfg, s) && i < |s.callers|
    ensures Reaches(cfg, s, run, t) && Obliging(cfg, s, run)
    ensures i < |t.callers| && t.callers[i] == Returned
    decreases CallerRank(s.callers[i]), if CloseDone in s.log then 0 else 1, LoopRank(s.loop)
  {
    if s.callers[i] == Returned {
      return [], s;
    }
    var step := NextForDisconnect(cfg, s, i);
    StepKeepsInv(cfg, s, step);
    var rest;
    rest, t := DisconnectReturns(cfg, Next(cfg, s, step), i);
    run := [step] + rest;
    assert run[0] == step && run[1..] == rest;
  }

  lemma {:induction false} NextForDisconnect(cfg: Config, s: State, i: nat) returns (step: Step)
    requires Inv(cfg, s) && i < |s.callers| && s.callers[i] != Returned
    ensures Enabled(s, step)
    ensures step.LoopStep? ==> step.c == if s.loop.Wait? || s.loop.Idle? then Fails else Succeeds
    ensures var t := Next(cfg, s, step);
      && i < |t.callers|
      && (CloseDone in s.log ==> CloseDone in t.log)
      && (CallerRank(t.callers[i]) < CallerRank(s.callers[i])
          || (t.callers[i] == s.callers[i]
              && if CloseDone in s.log then LoopRank(t.loop) < LoopRank(s.loop) else CloseDone in t.log))
  {
    hide Summarize, EventInv, CountInv, EndInv, AtMostOne, Alternate;
    CountedIfPresent(s.log, CloseDone);
    if s.callers[i] != Waiting || s.exited {
      step := CallerStep(i);
    } else if CloseDone in s.log {
      step := LoopStep(if s.loop.Wait? || s.loop.Idle? then Fails else Succeeds);
    } else {
      assert ClosingDone in s.callers by { DonesCounted(s, cfg); }
      var j: nat :| j < |s.callers| && s.callers[j] == ClosingDone;
      step := CallerStep(j);
      assert CloseDone in s.log + [CloseDone];
    }
  }

  lemma {:induction false} DonesCounted(s: State, cfg: Config)
    ensures Summarize(s.log, cfg).dones == Count(s.log, CloseDone)
  {
  }
}
