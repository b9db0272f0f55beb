/**
  What the cache gets done: threads always have a step, an operation that nobody disturbs returns within four
  steps, a flush that meets no failure stores its block, and what it means for the cache to be quiescent
  (cache/src/cache/mod.rs:213-406, cache/src/cache/worker.rs:204-241, cache/src/cache/state.rs:58-68).
*/
module CacheProgress {
  import opened Common
  import opened Resident
  import opened CacheModel
  import opened CacheSystem
  import opened CacheCells
  import opened CacheInvariant
  import opened CacheSteps
  import opened CacheSafety
  import opened CacheRefinement
  import opened CacheGuarantees
  import opened CacheOutcomes
  import opened Draining
  import Temp

  // ---------------------------------------------------------------- threads

  /** The next step of a busy thread, when nothing fails. */
  function NextOf(s: Sys, t: nat): Action
    requires !ThreadOf(s, t).Idle?
  {
    match ThreadOf(s, t)
    case Running(_, _) => PlanStep(t, Temp.Written)
    case Fetching(_, _) => FetchStep(t, true)
    case Fetched(_, _, _) => FinishStep(t)
  }

  /** A busy thread can always take its next step, with or without a failure, and an idle one can begin any piece of
      a request. */
  lemma ThreadsNeverStuck(c: Config, s: Sys, t: nat)
    ensures !ThreadOf(s, t).Idle? ==> Enabled(c, s, NextOf(s, t))
    ensures ThreadOf(s, t).Fetching? ==> Enabled(c, s, FetchStep(t, false))
    ensures ThreadOf(s, t).Idle? ==> forall op :: OpOk(c, op) ==> Enabled(c, s, Begin(t, op))
  {
  }

  /** No other operation, and no flush, is under way. */
  ghost predicate Calm(s: Sys) {
    NoForeground(s) && !s.shared.stop && s.worker == Resting
  }

  /** Room for the block of a miss would need a temp slot when all are in use. */
  predicate LacksSlot(c: Config, s: Shared, b: nat) {
    NeedsRoom(c, s, b) && HeadDirty(s) && !HeadSnapshotted(s) && SlotsUsedUp(c, s)
  }

  lemma CalmIsFree(c: Config, s: Sys)
    requires Inv(c, s) && Calm(s)
    ensures s.shared.active == {}
    ensures forall b :: b in s.shared.table.blocks ==> s.shared.table.blocks[b].load == Ready
    ensures s.shared.table.fifo != [] ==> !HeadBusy(s.shared)
  {
    IdleHasNoFetchers(c, s);
    InvGives(c, s, 0);
    forall b: nat ensures b !in s.shared.active {
      ClaimHasOneOwner(c, s, b);
      forall t ensures !Rehydrates(s, t, b) {
        assert ThreadOf(s, t) == Idle;
      }
    }
    if s.shared.table.fifo != [] {
      assert s.shared.table.fifo[0] in s.shared.table.blocks;
    }
  }

  /** What an undisturbed operation reports: a read returns the view. */
  function Result(s: Sys, op: Op): Event
    requires op.block in ViewOf(s) && OpRange(op).end <= |ViewOf(s)[op.block]|
  {
    if op.WriteOp? then WriteDone(op) else ReadDone(op, ViewOf(s)[op.block][op.at..op.at + op.length])
  }

  /** The steps of an undisturbed operation: a hit needs one planning turn, a miss fetches its block. */
  function OpRun(s: Sys, t: nat, op: Op): seq<Action> {
    [Begin(t, op)] + PlannedRun(s, t, op)
  }

  lemma OneEvent(c: Config, s: Sys, a: Action, rest: seq<Action>)
    requires Enabled(c, s, a) && ValidRun(c, Next(c, s, a).0, rest)
    ensures ValidRun(c, s, [a] + rest)
    ensures Events(c, s, [a] + rest) == [Next(c, s, a).1] + Events(c, Next(c, s, a).0, rest)
  {
    hide Next, Enabled;
    assert ([a] + rest)[1..] == rest;
  }

  lemma NoEvents(c: Config, s: Sys)
    ensures ValidRun(c, s, []) && Events(c, s, []) == []
  {
  }

  /** A step that reports the end of an operation reports it right: writes as done, reads with the view. */
  lemma DoneIsResult(c: Config, s: Sys, a: Action, op: Op)
    requires Inv(c, s) && Enabled(c, s, a)
    requires var event := Next(c, s, a).1; (event.ReadDone? || event.WriteDone?) && event.op == op
    ensures op.block in ViewOf(s) && OpRange(op).end <= |ViewOf(s)[op.block]| && Next(c, s, a).1 == Result(s, op)
  {
    hide Inv, Next, Enabled, ViewOf;
    StepRefinesDevice(c, s, a);
  }

  /** The last step of a fetch that brought its block. */
  lemma FinishReports(c: Config, s: Sys, t: nat)
    requires Inv(c, s) && ThreadOf(s, t).Fetched? && ThreadOf(s, t).got.Some?
    ensures var op := ThreadOf(s, t).op;
      && op.block in ViewOf(s) && OpRange(op).end <= |ViewOf(s)[op.block]|
      && Next(c, s, FinishStep(t)).1 == Result(s, op)
  {
    hide Inv, Next, ViewOf;
    FinishFailure(c, s, t);
    assert Enabled(c, s, FinishStep(t));
    DoneIsResult(c, s, FinishStep(t), ThreadOf(s, t).op);
  }

  /** The planning turn of an undisturbed operation: done, or on to the fetch. */
  lemma CalmPlan(c: Config, s: Sys, t: nat, op: Op)
    requires Inv(c, s) && ThreadOf(s, t) == Running(op, false) && !s.shared.stop
    requires !Busy(s.shared, op.block) && (s.shared.table.fifo != [] ==> !HeadBusy(s.shared))
    requires !LacksSlot(c, s.shared, op.block)
    ensures var (s', event) := Next(c, s, PlanStep(t, Temp.Written));
      if Resides(s.shared, op.block) then
        op.block in ViewOf(s) && OpRange(op).end <= |ViewOf(s)[op.block]| && event == Result(s, op)
      else event == Silent && ThreadOf(s', t).Fetching? && ThreadOf(s', t).op == op
  {
    assert ThreadInv(c, s, t);
    hide Inv, Next, PlanOp, ViewOf, Waiters, Resides, Busy, HeadBusy, HeadDirty, HeadSnapshotted, SlotsUsedUp;
    PlanStepForm(c, s, t, Temp.Written);
    PlanTable(c, s, op, Temp.Written);
    if Resides(s.shared, op.block) {
      assert Enabled(c, s, PlanStep(t, Temp.Written));
      DoneIsResult(c, s, PlanStep(t, Temp.Written), op);
    }
  }

  /** The run of an operation from its first planning turn on. */
  function PlannedRun(s: Sys, t: nat, op: Op): seq<Action> {
    [PlanStep(t, Temp.Written)] + if Resides(s.shared, op.block) then [] else [FetchStep(t, true)] + [FinishStep(t)]
  }

  lemma PlannedOpCompletes(c: Config, s: Sys, t: nat, op: Op)
    requires Inv(c, s) && ThreadOf(s, t) == Running(op, false) && !s.shared.stop && op.block in s.remote
    requires !Busy(s.shared, op.block) && (s.shared.table.fifo != [] ==> !HeadBusy(s.shared))
    requires !LacksSlot(c, s.shared, op.block)
    ensures var run := PlannedRun(s, t, op);
      && ValidRun(c, s, run) && |Events(c, s, run)| == |run|
      && op.block in ViewOf(s) && OpRange(op).end <= |ViewOf(s)[op.block]|
      && Events(c, s, run)[|run| - 1] == Result(s, op)
  {
    hide Inv, Next, ViewOf, Enabled, LacksSlot, HeadBusy, ThreadOf, Busy, Result;
    var plan := PlanStep(t, Temp.Written);
    ThreadsNeverStuck(c, s, t);
    CalmPlan(c, s, t, op);
    if Resides(s.shared, op.block) {
      NoEvents(c, Next(c, s, plan).0);
      OneEvent(c, s, plan, []);
    } else {
      FetchCompletes(c, s, t, op);
      OneEvent(c, s, plan, [FetchStep(t, true)] + [FinishStep(t)]);
    }
  }

  /** From any state in which nothing else is under way and a slot is left if one is needed, an operation on a block
      of the remote store returns within four steps, with the bytes of the view or with its write done. */
  lemma UndisturbedOpCompletes(c: Config, s: Sys, t: nat, op: Op)
    requires Inv(c, s) && Calm(s) && OpOk(c, op) && op.block in s.remote && !LacksSlot(c, s.shared, op.block)
    ensures var run := OpRun(s, t, op);
      && ValidRun(c, s, run) && |Events(c, s, run)| == |run|
      && op.block in ViewOf(s) && OpRange(op).end <= |ViewOf(s)[op.block]|
      && Events(c, s, run)[|run| - 1] == Result(s, op)
  {
    assert ThreadOf(s, t) == Idle && !s.shared.stop;
    hide Inv, Next, ViewOf, Calm, Enabled, LacksSlot, HeadBusy, ThreadOf, OpOk, Result;
    CalmIsFree(c, s);
    var begin := Begin(t, op);
    var s1 := Next(c, s, begin).0;
    BeginStep(c, s, t, op);
    NextKeepsInv(c, s, begin);
    SilentKeepsView(c, s, begin);
    PlannedOpCompletes(c, s1, t, op);
    OneEvent(c, s, begin, PlannedRun(s1, t, op));
    SameResult(s, s1, op);
  }

  lemma SameResult(s: Sys, s': Sys, op: Op)
    requires op.block in ViewOf(s) && OpRange(op).end <= |ViewOf(s)[op.block]| && ViewOf(s') == ViewOf(s)
    ensures Result(s', op) == Result(s, op)
  {
    hide ViewOf;
  }

  lemma BeginStep(c: Config, s: Sys, t: nat, op: Op)
    requires ThreadOf(s, t).Idle? && OpOk(c, op)
    ensures Enabled(c, s, Begin(t, op))
    ensures var (s', event) := Next(c, s, Begin(t, op));
      event == Silent && s'.shared == s.shared && s'.remote == s.remote && ThreadOf(s', t) == Running(op, false)
  {
  }

  /** A step without an event leaves the view. */
  lemma SilentKeepsView(c: Config, s: Sys, a: Action)
    requires Inv(c, s) && Enabled(c, s, a)
    ensures Next(c, s, a).1 == Silent ==> ViewOf(Next(c, s, a).0) == ViewOf(s)
  {
    hide Inv, Next, Enabled, ViewOf;
    StepRefinesDevice(c, s, a);
  }

  lemma FetchCompletes(c: Config, s: Sys, t: nat, op: Op)
    requires Inv(c, s) && ThreadOf(s, t).Running? && op.block in s.remote
    requires var (s', event) := Next(c, s, PlanStep(t, Temp.Written));
      event == Silent && ThreadOf(s', t).Fetching? && ThreadOf(s', t).op == op
    ensures var s' := Next(c, s, PlanStep(t, Temp.Written)).0;
      var run := [FetchStep(t, true)] + [FinishStep(t)];
      && ValidRun(c, s', run) && |Events(c, s', run)| == 2
      && op.block in ViewOf(s) && OpRange(op).end <= |ViewOf(s)[op.block]|
      && Events(c, s', run)[1] == Result(s, op)
  {
    var plan, fetch, finish := PlanStep(t, Temp.Written), FetchStep(t, true), FinishStep(t);
    hide Inv, Next, ViewOf, Enabled, ThreadOf;
    ThreadsNeverStuck(c, s, t);
    var s2 := Next(c, s, plan).0;
    NextKeepsInv(c, s, plan);
    SilentKeepsView(c, s, plan);
    RemoteKeysKept(c, s, plan);
    ThreadsNeverStuck(c, s2, t);
    var s3 := Next(c, s2, fetch).0;
    FetchBrings(c, s2, t, true);
    NextKeepsInv(c, s2, fetch);
    FetchIsSilent(c, s2, t);
    SilentKeepsView(c, s2, fetch);
    ThreadsNeverStuck(c, s3, t);
    FinishReports(c, s3, t);
    NoEvents(c, Next(c, s3, finish).0);
    OneEvent(c, s3, finish, []);
    OneEvent(c, s2, fetch, [finish] + []);
    assert [finish] + [] == [finish];
  }

  lemma FetchIsSilent(c: Config, s: Sys, t: nat)
    requires ThreadOf(s, t).Fetching?
    ensures Next(c, s, FetchStep(t, true)).1 == Silent
  {
    hide ReadFile;
  }

  // ---------------------------------------------------------------- the flush, step by step

  /** What each step of a flush does, beside any threads: without a failure the file is read whole, stored and
      removed; with one the flush ends and everything stays. The file is there unless a failed overwrite lost it. */
  lemma FlushStepEffects(c: Config, s: Sys, succeeds: bool)
    requires Inv(c, s)
    ensures s.worker.FlushRead? ==>
      var b := s.worker.block;
      Next(c, s, ReadTempStep(succeeds)).0 == s.(worker :=
        if succeeds && !SnapshotLost(CellOf(s, b)) && b in s.shared.temp then FlushWrite(b, s.shared.temp[b])
        else FlushFinish(b, false))
    ensures s.worker.FlushRead? ==>
      (SnapshotLost(CellOf(s, s.worker.block)) <==> s.worker.block !in s.shared.temp)
    ensures s.worker.FlushWrite? ==>
      var FlushWrite(b, buffer) := s.worker;
      && b in s.remote && b in s.shared.temp && buffer == s.shared.temp[b]
      && Next(c, s, WriteRemoteStep(succeeds)).0 ==
           if succeeds then s.(remote := s.remote[b := buffer], worker := FlushRemove(b))
           else s.(worker := FlushFinish(b, false))
    ensures s.worker.FlushRemove? ==>
      var b := s.worker.block;
      Next(c, s, RemoveTempStep(succeeds)).0 ==
        if succeeds then s.(shared := s.shared.(temp := s.shared.temp - {b}), worker := FlushFinish(b, true))
        else s.(worker := FlushFinish(b, false))
  {
    var b := WorkerBlock(s.worker);
    if b.Some? {
      InvGives(c, s, b.value);
      hide Inv;
      if s.worker.FlushRead? && b.value in s.shared.temp {
        ReadsWhole(c, s.shared.temp, b.value, succeeds);
      }
    }
  }

  // ---------------------------------------------------------------- quiescence

  /** In every reachable state `is_quiescent` says exactly this: no stop was requested, no thread waits for a temp
      slot or fetches a block, the worker is not flushing, and no block is dirty or has a temp file. */
  lemma QuiescentIff(c: Config, s: Sys)
    requires Inv(c, s)
    ensures IsQuiescent(s.shared) <==>
      && !s.shared.stop && WorkerBlock(s.worker).None?
      && (forall t: nat :: !HoldsFlag(s, t) && !ThreadOf(s, t).Fetching? && !ThreadOf(s, t).Fetched?)
      && DirtyBlocks(s.shared) == {} && TempSlots(s.shared) == {}
  {
    if IsQuiescent(s.shared) {
      QuiescentIsIdle(c, s);
    }
    if !s.shared.stop && WorkerBlock(s.worker).None? && DirtyBlocks(s.shared) == {} && TempSlots(s.shared) == {}
      && (forall t: nat :: !HoldsFlag(s, t) && !ThreadOf(s, t).Fetching? && !ThreadOf(s, t).Fetched?)
    {
      IdleIsQuiescent(c, s);
    }
  }

  lemma QuiescentIsIdle(c: Config, s: Sys)
    requires Inv(c, s) && IsQuiescent(s.shared)
    ensures !s.shared.stop && WorkerBlock(s.worker).None?
    ensures forall t: nat :: !HoldsFlag(s, t) && !ThreadOf(s, t).Fetching? && !ThreadOf(s, t).Fetched?
    ensures DirtyBlocks(s.shared) == {} && TempSlots(s.shared) == {}
  {
    forall t: nat ensures !HoldsFlag(s, t) && !ThreadOf(s, t).Fetching? && !ThreadOf(s, t).Fetched? {
      if ThreadOf(s, t).Fetching? || ThreadOf(s, t).Fetched? {
        FetcherLoads(c, s, t, ThreadOf(s, t).op.block);
      }
      FlagKnown(s, t);
    }
    if WorkerBlock(s.worker).Some? {
      ClaimHasOneOwner(c, s, WorkerBlock(s.worker).value);
    }
  }

  lemma IdleIsQuiescent(c: Config, s: Sys)
    requires Inv(c, s) && !s.shared.stop && WorkerBlock(s.worker).None?
    requires forall t: nat :: !HoldsFlag(s, t) && !ThreadOf(s, t).Fetching? && !ThreadOf(s, t).Fetched?
    requires DirtyBlocks(s.shared) == {} && TempSlots(s.shared) == {}
    ensures IsQuiescent(s.shared)
  {
    forall t, b ensures !Fetches(s, t, b) && !Rehydrates(s, t, b) {
      assert !ThreadOf(s, t).Fetching? && !ThreadOf(s, t).Fetched?;
    }
    forall b: nat ensures b !in s.shared.active {
      ClaimHasOneOwner(c, s, b);
    }
    forall t: nat ensures t !in Waiters(s) {
      FlagKnown(s, t);
    }
    assert Waiters(s) == {};
    assert s.shared.spilled.Keys <= TempSlots(s.shared);
    forall b | b in s.shared.table.blocks ensures Clean(s.shared.table.blocks[b]) {
      InvGives(c, s, b);
      assert b !in DirtyBlocks(s.shared) && b !in SnapshotBlocks(s.shared.table);
    }
  }
}
