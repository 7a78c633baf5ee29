/**
 Reading the stats segment next to a writer that may rebuild its directory at any time. The reader is any
 program that chooses each load by what it saw so far; the steps of both sides interleave freely.
 */
module StatsProtocol {
  import opened Wrappers

  /** Cells never written hold 0. Counters change at any time, the directory only while in progress. */
  datatype Memory = Memory(dir: map<nat, nat>, counters: map<nat, nat>)

  datatype Place = DirAt(addr: nat) | CounterAt(addr: nat)

  datatype Observation = Observation(place: Place, value: nat)

  /** Leave is a return without accessEnd. */
  datatype Action<R> = Load(place: Place) | Return(entries: R) | Fail(error: string) | Leave(result: Result<R, string>)

  /** What getIdentifierEntries, getStatEntries or the loop of UpdateDir do next. */
  type Reader<R> = seq<Observation> -> Action<R>

  /** The writer raises in-progress, changes the directory, increases the epoch, clears in-progress. */
  datatype Phase = Idle | Raised | Bumped

  /** Unchecked is what the reader left with. */
  datatype Outcome<R> =
    | Success(entries: R) | ReadError(error: string) | Unchecked(result: Result<R, string>)
    | DataBusy | AccessFailed | DirStale

  /**
   The reader's position: Comparing (UpdateDir only), the two loads of GetEpoch in accessStart, reading, and
   the second load of GetEpoch in accessEnd. dir is the directory when accessStart returned; phaseSeen is the
   writer's phase at the first load of accessEnd, and torn says that the writer finished between the two loads.
   */
  datatype Position<R> =
    | Comparing(dirEpoch: nat)
    | Polling
    | Polled(epoch: nat)
    | Reading(epoch: nat, obs: seq<Observation>, dir: map<nat, nat>)
    | Ending(epoch: nat, obs: seq<Observation>, dir: map<nat, nat>, epochSeen: nat, phaseSeen: Phase)
    | Done(out: Outcome<R>, epoch: nat, obs: seq<Observation>, dir: map<nat, nat>, torn: bool)

  datatype State<R> = State(mem: Memory, epoch: nat, phase: Phase, pos: Position<R>)

  datatype Step =
    | Begin | ChangeDir(dir: map<nat, nat>) | Bump | Clear | Tick(counters: map<nat, nat>) | Advance(timedOut: bool)

  function Cell(m: map<nat, nat>, a: nat): nat { if a in m then m[a] else 0 }

  function Peek(mem: Memory, place: Place): nat
  {
    match place
    case DirAt(a) => Cell(mem.dir, a)
    case CounterAt(a) => Cell(mem.counters, a)
  }

  predicate Enabled<R>(s: State<R>, step: Step)
  {
    match step
    case Begin => s.phase == Idle
    case ChangeDir(_) => s.phase == Raised
    case Bump => s.phase == Raised
    case Clear => s.phase == Bumped
    case Tick(_) => true
    case Advance(_) => true
  }

  function Next<R>(read: Reader<R>, s: State<R>, step: Step): State<R>
  {
    match step
    case Begin => s.(phase := Raised)
    case ChangeDir(d) => s.(mem := s.mem.(dir := d))
    case Bump => s.(phase := Bumped, epoch := s.epoch + 1)
    case Clear => s.(phase := Idle)
    case Tick(c) => s.(mem := s.mem.(counters := c))
    case Advance(timedOut) => s.(pos := AdvanceReader(read, s, timedOut))
  }

  function AdvanceReader<R>(read: Reader<R>, s: State<R>, timedOut: bool): Position<R>
  {
    match s.pos
    case Comparing(dirEpoch) => if dirEpoch != s.epoch then Refused(DirStale) else Polling
    case Polling => Polled(s.epoch)
    case Polled(e) =>
      if s.phase != Idle then (if timedOut then Refused(AccessFailed) else Polling)
      else if e == 0 then Refused(AccessFailed)
      else Reading(e, [], s.mem.dir)
    case Reading(e, obs, dir) =>
      (match read(obs)
       case Load(place) => Reading(e, obs + [Observation(place, Peek(s.mem, place))], dir)
       case Return(_) => Ending(e, obs, dir, s.epoch, s.phase)
       case Fail(_) => Ending(e, obs, dir, s.epoch, s.phase)
       case Leave(result) => Done(Unchecked(result), e, obs, dir, false))
    case Ending(e, obs, dir, epochSeen, phaseSeen) =>
      Done(if epochSeen != e || s.phase != Idle then DataBusy else Reported(read(obs)), e, obs, dir,
           phaseSeen == Raised && s.phase == Idle)
    case Done(_, _, _, _, _) => s.pos
  }

  function Refused<R>(out: Outcome<R>): Position<R> { Done(out, 0, [], map[], false) }

  /** Success after accessEnd, or the error readErr lets through. */
  function Reported<R>(a: Action<R>): Outcome<R>
  {
    match a
    case Return(entries) => Success(entries)
    case Fail(error) => ReadError(error)
    case Load(_) => DataBusy
    case Leave(result) => Unchecked(result)
  }

  /** The reader is done and accessEnd comes next. */
  predicate Ends<R>(a: Action<R>) { a.Return? || a.Fail? }

  /** accessEnd agreed: a result, or an error of the reader itself. */
  predicate Reports<R>(pos: Position<R>)
  {
    pos.Done? && (pos.out.Success? || pos.out.ReadError?)
  }

  function Run<R>(read: Reader<R>, s: State<R>, run: seq<Step>): State<R>
    decreases |run|
  {
    if run == [] then s else Run(read, Next(read, s, run[0]), run[1..])
  }

  predicate RunOk<R>(read: Reader<R>, s: State<R>, run: seq<Step>)
    decreases |run|
  {
    run == [] || (Enabled(s, run[0]) && RunOk(read, Next(read, s, run[0]), run[1..]))
  }

  // ---------------------------------------------------------------- one directory version

  /** obs is what the reader sees when the directory stays d throughout. */
  ghost predicate SeenIn<R>(read: Reader<R>, obs: seq<Observation>, d: map<nat, nat>)
  {
    forall i | 0 <= i < |obs| ::
      && read(obs[..i]) == Load(obs[i].place)
      && (obs[i].place.DirAt? ==> obs[i].value == Cell(d, obs[i].place.addr))
  }

  /** While the reader holds an epoch: the directory can only differ from dir once the writer has started. */
  ghost predicate Tracks<R>(read: Reader<R>, s: State<R>, e: nat, obs: seq<Observation>, dir: map<nat, nat>)
  {
    && e <= s.epoch
    && e != 0
    && (s.phase == Bumped ==> e < s.epoch)
    && (s.phase == Idle && e == s.epoch ==> s.mem.dir == dir && SeenIn(read, obs, dir))
  }

  ghost predicate Inv<R>(read: Reader<R>, s: State<R>)
  {
    match s.pos
    case Comparing(_) => true
    case Polling => true
    case Polled(e) => e <= s.epoch
    case Reading(e, obs, dir) => Tracks(read, s, e, obs, dir)
    case Ending(e, obs, dir, epochSeen, phaseSeen) =>
      e != 0 && Ends(read(obs)) && (epochSeen == e && phaseSeen != Raised ==> SeenIn(read, obs, dir))
    case Done(out, e, obs, dir, torn) =>
      && (Reports(s.pos) ==> e != 0 && (torn || SeenIn(read, obs, dir)))
      && (Reports(s.pos) ==> Ends(read(obs)) && out == Reported(read(obs)))
      && (out.Unchecked? ==> Tracks(read, s, e, obs, dir) && read(obs) == Leave(out.result))
  }

  lemma {:induction false} ExtendSeen<R>(read: Reader<R>, obs: seq<Observation>, o: Observation, d: map<nat, nat>)
    requires SeenIn(read, obs, d) && read(obs) == Load(o.place)
    requires o.place.DirAt? ==> o.value == Cell(d, o.place.addr)
    ensures SeenIn(read, obs + [o], d)
  {
    forall i | 0 <= i < |obs + [o]| ensures read((obs + [o])[..i]) == Load((obs + [o])[i].place) {
      assert (obs + [o])[..i] == obs[..i];
      assert obs[..|obs|] == obs;
    }
  }

  lemma {:induction false} StepKeepsInv<R>(read: Reader<R>, s: State<R>, step: Step)
    requires Inv(read, s) && Enabled(s, step)
    ensures Inv(read, Next(read, s, step))
  {
    if step.Advance? && s.pos.Reading? && read(s.pos.obs).Load? && s.phase == Idle && s.pos.epoch == s.epoch {
      var place := read(s.pos.obs).place;
      ExtendSeen(read, s.pos.obs, Observation(place, Peek(s.mem, place)), s.pos.dir);
    }
  }

  lemma {:induction false} RunKeepsInv<R>(read: Reader<R>, s: State<R>, run: seq<Step>)
    requires Inv(read, s) && RunOk(read, s, run)
    ensures Inv(read, Run(read, s, run))
    decreases |run|
  {
    if run != [] {
      StepKeepsInv(read, s, run[0]);
      RunKeepsInv(read, Next(read, s, run[0]), run[1..]);
    }
  }

  /**
   Whatever the interleaving: a reported result, and an error that is let through, are what the reader gets
   from the one directory that was there when accessStart returned its non-zero epoch, unless the two loads of
   accessEnd were torn: the epoch loaded with a writer in progress, in-progress after that writer finished.
   */
  lemma {:induction false} ReportsOneVersion<R>(read: Reader<R>, s: State<R>, run: seq<Step>)
    requires s.pos.Polling? || s.pos.Comparing?
    requires RunOk(read, s, run)
    ensures var pos := Run(read, s, run).pos;
      Reports(pos) && !pos.torn ==>
        && pos.epoch != 0
        && SeenIn(read, pos.obs, pos.dir)
        && read(pos.obs) == (if pos.out.Success? then Return(pos.out.entries) else Fail(pos.out.error))
  {
    RunKeepsInv(read, s, run);
  }

  /** An epoch names a directory: idle states of one run with the same epoch have the same directory. */
  lemma {:induction false} EpochNamesDirectory<R>(read: Reader<R>, s: State<R>, run: seq<Step>)
    requires RunOk(read, s, run) && s.phase == Idle && Run(read, s, run).phase == Idle
    ensures s.epoch <= Run(read, s, run).epoch
    ensures s.epoch == Run(read, s, run).epoch ==> s.mem.dir == Run(read, s, run).mem.dir
  {
    WriterMoves(read, s, run, s.epoch, s.mem.dir);
  }

  lemma {:induction false} WriterMoves<R>(read: Reader<R>, s: State<R>, run: seq<Step>, e: nat, d: map<nat, nat>)
    requires RunOk(read, s, run) && e <= s.epoch && (s.phase == Bumped ==> e < s.epoch)
    requires s.phase == Idle && e == s.epoch ==> s.mem.dir == d
    ensures var t := Run(read, s, run);
      e <= t.epoch && (t.phase == Idle && e == t.epoch ==> t.mem.dir == d)
    decreases |run|
  {
    if run != [] {
      WriterMoves(read, Next(read, s, run[0]), run[1..], e, d);
    }
  }

  // ---------------------------------------------------------------- a quiet writer

  /** The reader alone on unchanging memory, for at most n loads. */
  function Alone<R>(read: Reader<R>, mem: Memory, obs: seq<Observation>, n: nat): Outcome<R>
    decreases n
  {
    match read(obs)
    case Load(place) =>
      if n == 0 then DataBusy else Alone(read, mem, obs + [Observation(place, Peek(mem, place))], n - 1)
    case Return(entries) => Success(entries)
    case Fail(error) => ReadError(error)
    case Leave(result) => Unchecked(result)
  }

  function Turns(n: nat): (run: seq<Step>)
    ensures |run| == n
  {
    seq(n, i => Advance(false))
  }

  /** When the writer stays idle the access succeeds, with exactly the result of the reader alone. */
  lemma {:induction false} QuietAccessSucceeds<R>(read: Reader<R>, s: State<R>, n: nat)
    requires s.phase == Idle && s.epoch != 0
    requires s.pos == Polling || s.pos == Comparing(s.epoch)
    requires Alone(read, s.mem, [], n) != DataBusy
    ensures exists turns: nat ::
      Run(read, s, Turns(turns)).pos.Done? && Run(read, s, Turns(turns)).pos.out == Alone(read, s.mem, [], n)
  {
    var ready := s.(pos := Reading(s.epoch, [], s.mem.dir));
    var k := QuietReading(read, ready, n);
    OneTurn(read, s.(pos := Polled(s.epoch)), k);
    OneTurn(read, s.(pos := Polling), k + 1);
    if s.pos.Comparing? {
      OneTurn(read, s, k + 2);
    }
    var turns := if s.pos.Comparing? then k + 3 else k + 2;
    assert Run(read, s, Turns(turns)) == Run(read, ready, Turns(k));
  }

  lemma {:induction false} OneTurn<R>(read: Reader<R>, s: State<R>, n: nat)
    ensures Run(read, s, Turns(n + 1)) == Run(read, Next(read, s, Advance(false)), Turns(n))
  {
    assert Turns(n + 1)[1..] == Turns(n);
  }

  lemma {:induction false} QuietReading<R>(read: Reader<R>, s: State<R>, n: nat) returns (k: nat)
    requires s.phase == Idle && s.pos.Reading? && s.pos.epoch == s.epoch
    requires Alone(read, s.mem, s.pos.obs, n) != DataBusy
    ensures var t := Run(read, s, Turns(k)); t.pos.Done? && t.pos.out == Alone(read, s.mem, s.pos.obs, n)
    decreases n
  {
    var after := Next(read, s, Advance(false));
    if read(s.pos.obs).Load? {
      k := QuietReading(read, after, n - 1);
      OneTurn(read, s, k);
      k := k + 1;
    } else {
      OneTurn(read, after, 0);
      OneTurn(read, s, 1);
      k := 2;
    }
  }

  // ---------------------------------------------------------------- a busy writer

  /** The writer is at work all the time. */
  predicate Busy<R>(read: Reader<R>, s: State<R>, run: seq<Step>)
    decreases |run|
  {
    s.phase != Idle && (run == [] || Busy(read, Next(read, s, run[0]), run[1..]))
  }

  /** Time is up at some look at in-progress. */
  predicate Expires<R>(read: Reader<R>, s: State<R>, run: seq<Step>)
    decreases |run|
  {
    run != [] && ((s.pos.Polled? && run[0] == Advance(true)) || Expires(read, Next(read, s, run[0]), run[1..]))
  }

  predicate Starting<R>(pos: Position<R>) { pos.Polling? || pos.Polled? }

  /** While a writer is at work accessStart goes on looking, and gives up exactly if its time is up. */
  lemma {:induction false} WaitsForWriter<R>(read: Reader<R>, s: State<R>, run: seq<Step>)
    requires Starting(s.pos) && RunOk(read, s, run) && Busy(read, s, run)
    ensures var pos := Run(read, s, run).pos;
      if Expires(read, s, run) then pos.Done? && pos.out == AccessFailed else Starting(pos)
    decreases |run|
  {
    if run != [] {
      var next := Next(read, s, run[0]);
      if next.pos.Done? {
        StaysDone(read, next, run[1..]);
      } else {
        WaitsForWriter(read, next, run[1..]);
      }
    }
  }

  lemma {:induction false} StaysDone<R>(read: Reader<R>, s: State<R>, run: seq<Step>)
    requires s.pos.Done?
    ensures Run(read, s, run).pos == s.pos && !Expires(read, s, run)
    decreases |run|
  {
    if run != [] {
      StaysDone(read, Next(read, s, run[0]), run[1..]);
    }
  }

  /** Whatever the writer does, an access to a segment with an epoch can only fail to start for lack of time. */
  lemma {:induction false} OnlyTimeFails<R>(read: Reader<R>, s: State<R>, run: seq<Step>)
    requires s.epoch > 0 && RunOk(read, s, run) && !Expires(read, s, run)
    requires s.pos.Comparing? || s.pos.Polling? || (s.pos.Polled? && s.pos.epoch > 0)
    ensures var pos := Run(read, s, run).pos; !(pos.Done? && pos.out == AccessFailed)
    decreases |run|
  {
    if run != [] {
      var next := Next(read, s, run[0]);
      if next.pos.Done? {
        StaysDone(read, next, run[1..]);
      } else if next.pos.Reading? {
        Started(read, next, run[1..]);
      } else {
        OnlyTimeFails(read, next, run[1..]);
      }
    }
  }

  /** Once an access has started it ends with what was read, or as one that has to be repeated. */
  lemma {:induction false} Started<R>(read: Reader<R>, s: State<R>, run: seq<Step>)
    requires s.pos.Reading? || s.pos.Ending? || (s.pos.Done? && s.pos.out != AccessFailed && s.pos.out != DirStale)
    ensures var pos := Run(read, s, run).pos;
      pos.Reading? || pos.Ending? || (pos.Done? && pos.out != AccessFailed && pos.out != DirStale)
    decreases |run|
  {
    if run != [] {
      Started(read, Next(read, s, run[0]), run[1..]);
    }
  }

  lemma {:induction false} TurnsEnabled<R>(read: Reader<R>, s: State<R>, n: nat)
    ensures RunOk(read, s, Turns(n)) && !Expires(read, s, Turns(n))
    decreases n
  {
    if n > 0 {
      assert Turns(n)[1..] == Turns(n - 1);
      TurnsEnabled(read, Next(read, s, Advance(false)), n - 1);
    }
  }

  /** Once the writer has finished in time, the access that waited for it succeeds with what the reader reads alone. */
  lemma {:induction false} AccessAfterWriter<R>(read: Reader<R>, s: State<R>, n: nat) returns (run: seq<Step>)
    requires s.phase == Bumped && s.epoch > 0 && Starting(s.pos) && Alone(read, s.mem, [], n) != DataBusy
    ensures RunOk(read, s, run) && !Expires(read, s, run)
    ensures Run(read, s, run).pos.Done? && Run(read, s, run).pos.out == Alone(read, s.mem, [], n)
  {
    var polling := s.(pos := Polling);
    var cleared := polling.(phase := Idle);
    QuietAccessSucceeds(read, cleared, n);
    var turns: nat :| Run(read, cleared, Turns(turns)).pos.Done? &&
        Run(read, cleared, Turns(turns)).pos.out == Alone(read, s.mem, [], n);
    TurnsEnabled(read, cleared, turns);
    run := [Clear] + Turns(turns);
    assert run[1..] == Turns(turns);
    if s.pos.Polled? {
      var rest := run;
      run := [Advance(false)] + rest;
      assert run[1..] == rest;
    }
  }

  // ---------------------------------------------------------------- the torn pair of loads

  /** run leads from s to t by enabled steps. */
  ghost predicate Leads<R>(read: Reader<R>, s: State<R>, run: seq<Step>, t: State<R>)
  {
    Run(read, s, run) == t && RunOk(read, s, run)
  }

  lemma {:induction false} Ended<R>(read: Reader<R>, s: State<R>)
    ensures Leads(read, s, [], s)
  {
  }

  /** A step in front of a run that is known already. */
  lemma {:induction false} Before<R>(
    read: Reader<R>, s: State<R>, step: Step, next: State<R>, rest: seq<Step>, t: State<R>)
    requires Leads(read, next, rest, t) && Enabled(s, step) && Next(read, s, step) == next
    ensures Leads(read, s, [step] + rest, t)
  {
    assert ([step] + rest)[1..] == rest;
  }

  /**
   accessEnd loads the epoch while the writer is in progress; the writer can then finish, and what was seen
   is reported, whatever it is.
   */
  lemma {:induction false} FinishBetweenLoads<R>(read: Reader<R>, s: State<R>) returns (run: seq<Step>, t: State<R>)
    requires s.phase == Raised && s.pos.Reading? && s.pos.epoch == s.epoch && Ends(read(s.pos.obs))
    ensures Leads(read, s, run, t)
    ensures t.pos == Done(Reported(read(s.pos.obs)), s.pos.epoch, s.pos.obs, s.pos.dir, true)
  {
    hide Leads;
    var ending := s.(pos := Ending(s.pos.epoch, s.pos.obs, s.pos.dir, s.epoch, Raised));
    var bumped := ending.(phase := Bumped, epoch := s.epoch + 1);
    var cleared := bumped.(phase := Idle);
    t := cleared.(pos := Done(Reported(read(s.pos.obs)), s.pos.epoch, s.pos.obs, s.pos.dir, true));
    Ended(read, t);
    Before(read, cleared, Advance(false), t, [], t);
    Before(read, bumped, Clear, cleared, [Advance(false)] + [], t);
    Before(read, ending, Bump, bumped, [Clear] + ([Advance(false)] + []), t);
    run := [Advance(false)] + ([Bump] + ([Clear] + ([Advance(false)] + [])));
    Before(read, s, Advance(false), ending, [Bump] + ([Clear] + ([Advance(false)] + [])), t);
  }

  ghost predicate ReportingRun<R>(read: Reader<R>, s: State<R>, run: seq<Step>)
  {
    RunOk(read, s, run) && Reports(Run(read, s, run).pos)
  }

  /**
   Exactly when a reader that saw no single directory version, and is about to call accessEnd, can still report what
   it saw: the writer is changing the directory and has not moved the epoch. When the writer is in any other phase,
   accessEnd is safe although its two loads are not one.
   */
  lemma {:induction false} MixtureReportedExactly<R>(read: Reader<R>, s: State<R>)
    requires Inv(read, s) && s.pos.Reading? && Ends(read(s.pos.obs)) && !SeenIn(read, s.pos.obs, s.pos.dir)
    ensures (exists run :: ReportingRun(read, s, run)) <==> s.phase == Raised && s.epoch == s.pos.epoch
  {
    if s.epoch != s.pos.epoch {
      forall run ensures !ReportingRun(read, s, run) {
        if RunOk(read, s, run) {
          PassedEpoch(read, s, run);
        }
      }
    } else {
      var run, t := FinishBetweenLoads(read, s);
      assert ReportingRun(read, s, run);
    }
  }

  /** Once the epoch has moved on from the one the reader holds, accessEnd does not agree. */
  lemma {:induction false} PassedEpoch<R>(read: Reader<R>, s: State<R>, run: seq<Step>)
    requires RunOk(read, s, run)
    requires match s.pos
      case Reading(e, obs, dir) => e < s.epoch
      case Ending(e, obs, dir, epochSeen, _) => e < epochSeen
      case Done(_, _, _, _, _) => !Reports(s.pos)
      case _ => false
    ensures !Reports(Run(read, s, run).pos)
    decreases |run|
  {
    if run != [] {
      PassedEpoch(read, Next(read, s, run[0]), run[1..]);
    }
  }

  /** A reader that looks at the first cell of the directory twice. */
  function LookTwice(obs: seq<Observation>): Action<seq<nat>>
  {
    if |obs| < 2 then Load(DirAt(0)) else Return([obs[0].value, obs[1].value])
  }

  /** A whole run that reports a mixture of two directories as a success. */
  lemma {:induction false} TornEpochPairMixesVersions(a: nat, b: nat) returns (run: seq<Step>)
    requires a != b
    ensures var s := State(Memory(map[0 := a], map[]), 5, Idle, Polling);
      && RunOk(LookTwice, s, run)
      && Run(LookTwice, s, run).pos.Done? && Run(LookTwice, s, run).pos.torn
      && Run(LookTwice, s, run).pos.out == Success([a, b])
      && forall d: map<nat, nat> :: !SeenIn(LookTwice, Run(LookTwice, s, run).pos.obs, d)
  {
    hide Run, RunOk, SeenIn;
    var o1, o2 := Observation(DirAt(0), a), Observation(DirAt(0), b);
    var old1, old2 := Memory(map[0 := a], map[]), Memory(map[0 := b], map[]);
    var s := State(old1, 5, Idle, Polling);
    assert [] + [o1] == [o1] && [o1] + [o2] == [o1, o2];
    var third := State(old2, 5, Raised, Reading(5, [o1, o2], old1.dir));
    var t;
    run, t := FinishBetweenLoads(LookTwice, third);
    var second := third.(pos := Reading(5, [o1], old1.dir));
    Before(LookTwice, second, Advance(false), third, run, t);
    run := [Advance(false)] + run;
    Before(LookTwice, second.(mem := old1), ChangeDir(old2.dir), second, run, t);
    run := [ChangeDir(old2.dir)] + run;
    Before(LookTwice, second.(mem := old1, phase := Idle), Begin, second.(mem := old1), run, t);
    run := [Begin] + run;
    var first := State(old1, 5, Idle, Reading(5, [], old1.dir));
    Before(LookTwice, first, Advance(false), second.(mem := old1, phase := Idle), run, t);
    run := [Advance(false)] + run;
    Before(LookTwice, s.(pos := Polled(5)), Advance(false), first, run, t);
    run := [Advance(false)] + run;
    Before(LookTwice, s, Advance(false), s.(pos := Polled(5)), run, t);
    run := [Advance(false)] + run;
    forall d: map<nat, nat> ensures !SeenIn(LookTwice, [o1, o2], d) {
      NotBoth(d, o1, o2);
    }
  }

  lemma {:induction false} NotBoth(d: map<nat, nat>, o1: Observation, o2: Observation)
    requires o1.place == o2.place == DirAt(0) && o1.value != o2.value
    ensures !SeenIn(LookTwice, [o1, o2], d)
  {
    assert [o1, o2][0] == o1 && [o1, o2][1] == o2;
  }

  // ---------------------------------------------------------------- UpdateDir

  /** The epoch does not move from the comparison to the last load of accessStart. */
  predicate QuietStart<R>(read: Reader<R>, s: State<R>, run: seq<Step>)
    decreases |run|
  {
    run == [] || (!(run[0].Bump? && (s.pos.Polling? || s.pos.Polled?)) &&
        QuietStart(read, Next(read, s, run[0]), run[1..]))
  }

  /** A report comes from the epoch that the reader holds, and that epoch is still the current one. */
  lemma {:induction false} ReportedEpoch<R>(read: Reader<R>, s: State<R>, run: seq<Step>)
    requires RunOk(read, s, run) && Reports(Run(read, s, run).pos)
    requires s.pos.Reading? && s.pos.epoch <= s.epoch
    ensures Run(read, s, run).pos.epoch == s.pos.epoch == s.epoch
    ensures QuietStart(read, s, run)
  {
    if s.pos.epoch < s.epoch {
      PassedEpoch(read, s, run);
    }
    AfterStart(read, s, run);
  }

  lemma {:induction false} AfterStart<R>(read: Reader<R>, s: State<R>, run: seq<Step>)
    requires s.pos.Reading? || s.pos.Ending? || s.pos.Done?
    ensures var pos := Run(read, s, run).pos; (pos.Reading? || pos.Ending? || pos.Done?) && pos.epoch == s.pos.epoch
    ensures QuietStart(read, s, run)
    decreases |run|
  {
    if run != [] {
      AfterStart(read, Next(read, s, run[0]), run[1..]);
    }
  }

  lemma {:induction false} PolledEpoch<R>(read: Reader<R>, s: State<R>, run: seq<Step>, d: nat)
    requires RunOk(read, s, run) && Reports(Run(read, s, run).pos) && d <= s.epoch
    requires s.pos.Polling? || (s.pos.Polled? && d <= s.pos.epoch <= s.epoch)
    ensures Run(read, s, run).pos.epoch == d <==> s.epoch == d && QuietStart(read, s, run)
    decreases |run|
  {
    var next := Next(read, s, run[0]);
    if next.pos.Reading? {
      ReportedEpoch(read, next, run[1..]);
    } else if next.pos.Done? {
      PassedEpoch(read, next, run[1..]);
    } else {
      PolledEpoch(read, next, run[1..], d);
    }
  }

  /**
   In every run of UpdateDir that reports, the epoch of the data is that of the directory it refreshed
   exactly if the epoch did not move between the comparison and the end of accessStart.
   */
  lemma {:induction false} UpdateEpochExactly<R>(read: Reader<R>, s: State<R>, run: seq<Step>)
    requires s.pos.Comparing? && RunOk(read, s, run) && Reports(Run(read, s, run).pos)
    ensures Run(read, s, run).pos.epoch == s.pos.dirEpoch <==> QuietStart(read, s, run)
    decreases |run|
  {
    var next := Next(read, s, run[0]);
    if next.pos.Comparing? {
      UpdateEpochExactly(read, next, run[1..]);
    } else if next.pos.Polling? {
      PolledEpoch(read, next, run[1..], s.epoch);
    } else {
      PassedEpoch(read, next, run[1..]);
    }
  }

  /**
   A writer that comes and goes behind the comparison: UpdateDir then reports what it reads, on a later epoch than that
   of the directory.
   */
  lemma {:induction false} UpdateMayOutrunItsEpoch<R>(read: Reader<R>, s: State<R>, n: nat) returns (run: seq<Step>)
    requires s.phase == Idle && s.pos == Comparing(s.epoch) && Alone(read, s.mem, [], n) != DataBusy
    ensures RunOk(read, s, run)
    ensures var pos := Run(read, s, run).pos;
      pos.Done? && pos.out == Alone(read, s.mem, [], n) && pos.epoch == s.pos.dirEpoch + 1
  {
    hide Run, RunOk, Alone;
    var cleared := s.(epoch := s.epoch + 1, pos := Polling);
    var polled := cleared.(pos := Polled(s.epoch + 1));
    var ready := cleared.(pos := Reading(s.epoch + 1, [], s.mem.dir));
    var k := QuietReading(read, ready, n);
    TurnsEnabled(read, ready, k);
    AfterStart(read, ready, Turns(k));
    var t := Run(read, ready, Turns(k));
    run := [Advance(false)] + Turns(k);
    Before(read, polled, Advance(false), ready, Turns(k), t);
    Before(read, cleared, Advance(false), polled, run, t);
    run := [Advance(false)] + run;
    Before(read, cleared.(phase := Bumped), Clear, cleared, run, t);
    run := [Clear] + run;
    Before(read, s.(phase := Raised, pos := Polling), Bump, cleared.(phase := Bumped), run, t);
    run := [Bump] + run;
    Before(read, s.(pos := Polling), Begin, s.(phase := Raised, pos := Polling), run, t);
    run := [Begin] + run;
    Before(read, s, Advance(false), s.(pos := Polling), run, t);
    run := [Advance(false)] + run;
  }

  /** The epoch at the reader's first turn. */
  function EpochAtTurn<R>(read: Reader<R>, s: State<R>, run: seq<Step>): Option<nat>
    decreases |run|
  {
    if run == [] then None
    else if run[0].Advance? then Some(s.epoch)
    else EpochAtTurn(read, Next(read, s, run[0]), run[1..])
  }

  /** UpdateDir refuses a directory as stale in exactly the runs that find another epoch at the comparison. */
  lemma {:induction false} StaleExactly<R>(read: Reader<R>, s: State<R>, run: seq<Step>)
    requires s.pos.Comparing? && RunOk(read, s, run)
    ensures var pos := Run(read, s, run).pos;
      pos.Done? && pos.out == DirStale <==>
        EpochAtTurn(read, s, run).Some? && EpochAtTurn(read, s, run).value != s.pos.dirEpoch
    decreases |run|
  {
    if run != [] {
      var next := Next(read, s, run[0]);
      if next.pos.Comparing? {
        StaleExactly(read, next, run[1..]);
      } else if next.pos.Done? {
        StaysDone(read, next, run[1..]);
      } else {
        NeverStale(read, next, run[1..]);
      }
    }
  }

  lemma {:induction false} NeverStale<R>(read: Reader<R>, s: State<R>, run: seq<Step>)
    requires !s.pos.Comparing? && (s.pos.Done? ==> s.pos.out != DirStale)
    ensures var pos := Run(read, s, run).pos; !(pos.Done? && pos.out == DirStale)
    decreases |run|
  {
    if run != [] {
      NeverStale(read, Next(read, s, run[0]), run[1..]);
    }
  }

  /** Where the pointer to the directory vector is. */
  const VECTOR := DirAt(0)

  /** UpdateDir loads the vector first and, if it is nil, returns without an error and without accessEnd. */
  function UpdateDirReader<R>(isNil: nat -> bool, held: R, rest: Reader<R>): Reader<R>
  {
    (obs: seq<Observation>) =>
      if obs == [] then Load(VECTOR) else if isNil(obs[0].value) then Leave(Ok(held)) else rest(obs)
  }

  /**
   What it means that UpdateDir returns no error. Either nothing was refreshed: one load gave a nil vector, which
   is that of the directory of its epoch if the writer has not moved since. Or everything was refreshed from the
   directory of its epoch, unless the loads of accessEnd were torn.
   */
  lemma {:induction false} UpdateDirSucceeds<R>(
    isNil: nat -> bool, held: R, rest: Reader<R>, s: State<R>, run: seq<Step>)
    requires s.pos.Comparing? && RunOk(UpdateDirReader(isNil, held, rest), s, run)
    requires forall obs :: !rest(obs).Leave?
    ensures var read := UpdateDirReader(isNil, held, rest);
      var t := Run(read, s, run);
      && (t.pos.Done? && t.pos.out.Unchecked? ==>
            && t.pos.out.result == Ok(held) && t.pos.obs != [] && isNil(t.pos.obs[0].value)
            && (t.phase == Idle && t.epoch == t.pos.epoch ==> SeenIn(read, t.pos.obs, t.pos.dir)))
      && (t.pos.Done? && t.pos.out.Success? && !t.pos.torn ==>
            && t.pos.obs != [] && !isNil(t.pos.obs[0].value)
            && SeenIn(read, t.pos.obs, t.pos.dir) && rest(t.pos.obs) == Return(t.pos.out.entries))
  {
    RunKeepsInv(UpdateDirReader(isNil, held, rest), s, run);
  }

  /** A vector that is nil only while the writer is at work makes UpdateDir succeed with nothing refreshed. */
  lemma {:induction false} NilVectorIsNotChecked<R>(
    isNil: nat -> bool, held: R, rest: Reader<R>, s: State<R>, nilWord: nat) returns (run: seq<Step>)
    requires s.phase == Idle && s.epoch != 0 && s.pos == Reading(s.epoch, [], s.mem.dir)
    requires isNil(nilWord) && !isNil(Cell(s.mem.dir, 0))
    ensures var read := UpdateDirReader(isNil, held, rest);
      && RunOk(read, s, run)
      && Run(read, s, run).pos.Done? && Run(read, s, run).pos.out == Unchecked(Ok(held))
      && !SeenIn(read, Run(read, s, run).pos.obs, s.mem.dir)
  {
    hide Run, RunOk;
    var read := UpdateDirReader(isNil, held, rest);
    var o := Observation(VECTOR, nilWord);
    assert [] + [o] == [o] && [o][0] == o;
    var raised := s.(phase := Raised);
    var changed := raised.(mem := s.mem.(dir := map[0 := nilWord]));
    var loaded := changed.(pos := Reading(s.epoch, [o], s.mem.dir));
    var t := changed.(pos := Done(Unchecked(Ok(held)), s.epoch, [o], s.mem.dir, false));
    Ended(read, t);
    Before(read, loaded, Advance(false), t, [], t);
    run := [Advance(false)] + [];
    Before(read, changed, Advance(false), loaded, run, t);
    run := [Advance(false)] + run;
    Before(read, raised, ChangeDir(map[0 := nilWord]), changed, run, t);
    run := [ChangeDir(map[0 := nilWord])] + run;
    Before(read, s, Begin, raised, run, t);
    run := [Begin] + run;
  }
}
