/**
 Opening and closing channels step by step, by any number of goroutines: between the ID pool and the map of
 channels an ID is in the hands of the goroutine that opens or closes its channel.
 */
module ChannelIds {
  import opened RequestContext
  import opened Connections

  /** opening and closing are the IDs in transit, live the keys of the map of channels. */
  datatype Ids = Ids(free: seq<uint16>, opening: set<uint16>, live: set<uint16>, closing: set<uint16>)

  /**
   newChannel takes an ID and then registers its channel, or puts the ID back if there is no channel object;
   releaseAPIChannel removes the channel from the map and then puts its ID back.
   */
  datatype Step = TakeId | Register(id: uint16) | GiveUp(id: uint16) | Unregister(id: uint16) | PutBack(id: uint16)

  predicate Enabled(s: Ids, step: Step)
  {
    match step
    case TakeId => s.free != []
    case Register(id) => id in s.opening
    case GiveUp(id) => id in s.opening
    case Unregister(id) => id in s.live
    case PutBack(id) => id in s.closing
  }

  function Next(s: Ids, step: Step): Ids
    requires Enabled(s, step)
  {
    match step
    case TakeId => s.(free := s.free[1..], opening := s.opening + {s.free[0]})
    case Register(id) => s.(opening := s.opening - {id}, live := s.live + {id})
    case GiveUp(id) => s.(opening := s.opening - {id}, free := s.free + [id])
    case Unregister(id) => s.(live := s.live - {id}, closing := s.closing + {id})
    case PutBack(id) => s.(closing := s.closing - {id}, free := s.free + [id])
  }

  predicate RunOk(s: Ids, run: seq<Step>)
    decreases |run|
  {
    run == [] || (Enabled(s, run[0]) && RunOk(Next(s, run[0]), run[1..]))
  }

  function Run(s: Ids, run: seq<Step>): Ids
    requires RunOk(s, run)
    decreases |run|
  {
    if run == [] then s else Run(Next(s, run[0]), run[1..])
  }

  /** Each ID of the pool is in exactly one place. */
  predicate OnePlace(s: Ids)
  {
    && Partition(s.free, s.opening + s.live + s.closing)
    && s.opening !! s.live && s.opening !! s.closing && s.live !! s.closing
  }

  lemma {:induction false} StepKeepsOnePlace(s: Ids, step: Step)
    requires OnePlace(s) && Enabled(s, step)
    ensures OnePlace(Next(s, step))
  {
    var held := s.opening + s.live + s.closing;
    var t := Next(s, step);
    var after := t.opening + t.live + t.closing;
    PartitionMoves(s.free, held);
    match step {
      case TakeId =>
        assert after == held + {s.free[0]};
      case Register(id) =>
        assert after == held;
      case GiveUp(id) =>
        assert after == held - {id};
      case Unregister(id) =>
        assert after == held;
      case PutBack(id) =>
        assert after == held - {id};
    }
  }

  /** What a run does to the ID pool. */
  function PoolOps(run: seq<Step>): seq<PoolOp>
  {
    if run == [] then []
    else if run[0].TakeId? then [Take] + PoolOps(run[1..])
    else if run[0].GiveUp? || run[0].PutBack? then [Give(run[0].id)] + PoolOps(run[1..])
    else PoolOps(run[1..])
  }

  lemma {:induction false} RunUsesPool(s: Ids, run: seq<Step>)
    requires RunOk(s, run)
    ensures Run(s, run).free == Left(s.free, PoolOps(run))
    decreases |run|
  {
    if run != [] {
      RunUsesPool(Next(s, run[0]), run[1..]);
      var ops := PoolOps(run);
      if run[0].TakeId? || run[0].GiveUp? || run[0].PutBack? {
        assert ops[1..] == PoolOps(run[1..]);
      }
    }
  }

  /**
   In every run from the start, whatever the interleaving: each ID of 1 to 0x7fff is free, in transit or live, in one
   place only and there once, and the pool is worked as a queue throughout.
   */
  lemma {:induction false} EveryRun(s: Ids, run: seq<Step>)
    requires OnePlace(s) && RunOk(s, run)
    ensures OnePlace(Run(s, run))
    ensures Issued(s.free, PoolOps(run)) + Run(s, run).free == s.free + Given(PoolOps(run))
    decreases |run|
  {
    RunKeepsOnePlace(s, run);
    RunUsesPool(s, run);
    PoolIsFifo(s.free, PoolOps(run));
  }

  lemma {:induction false} RunKeepsOnePlace(s: Ids, run: seq<Step>)
    requires OnePlace(s) && RunOk(s, run)
    ensures OnePlace(Run(s, run))
    decreases |run|
  {
    if run != [] {
      StepKeepsOnePlace(s, run[0]);
      RunKeepsOnePlace(Next(s, run[0]), run[1..]);
    }
  }

  /** All IDs free is such a start. */
  lemma {:induction false} AllFree()
    ensures OnePlace(Ids(seq(MAX_ID, i => i + 1), {}, {}, {}))
  {
    var free: seq<uint16> := seq(MAX_ID, i => i + 1);
    forall id: uint16 | 1 <= id <= MAX_ID ensures id in free {
      assert free[id - 1] == id;
    }
  }
}
