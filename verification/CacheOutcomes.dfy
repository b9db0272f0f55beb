/**
  When the cache does what: what each planning turn decides, told on the state alone; that operations fail only
  for an I/O failure of their own; and that an operation no one disturbs is completed
  (cache/src/cache/mod.rs:213-406, 453-697).
*/
module CacheOutcomes {
  import opened Common
  import opened Resident
  import opened CacheModel
  import opened CacheSystem
  import opened CacheCells
  import opened CacheInvariant
  import opened CacheSteps
  import opened CacheSafety
  import opened CacheRefinement
  import Temp

  // ---------------------------------------------------------------- what a planning turn decides

  /** The block is resident and loaded. */
  predicate Resides(s: Shared, b: nat) { b in s.table.blocks && s.table.blocks[b].load == Ready }

  /** Somebody is fetching the block, or handling its temp file. */
  predicate Busy(s: Shared, b: nat) {
    if b in s.table.blocks then s.table.blocks[b].load != Ready else b in s.spilled && b in s.active
  }

  /** The block has to be fetched, and the FIFO queue is full. */
  predicate NeedsRoom(c: Config, s: Shared, b: nat) {
    !Resides(s, b) && !Busy(s, b) && s.table.fifo != [] && |s.table.fifo| == c.fifoCapacity
  }

  /** The block that has to leave first is being fetched or its temp file handled. */
  predicate HeadBusy(s: Shared)
    requires s.table.fifo != []
  {
    s.table.fifo[0] in s.active || !Resides(s, s.table.fifo[0])
  }

  predicate HeadDirty(s: Shared)
    requires s.table.fifo != []
  {
    s.table.fifo[0] in s.table.blocks && s.table.blocks[s.table.fifo[0]].dirty != []
  }

  predicate HeadSnapshotted(s: Shared)
    requires s.table.fifo != []
  {
    s.table.fifo[0] in s.table.blocks && s.table.blocks[s.table.fifo[0]].snapshot
  }

  predicate SlotsUsedUp(c: Config, s: Shared) { |TempSlots(s)| == c.tempMaxFiles }

  /** A hit is done at once. A thread waits exactly for its own block, for a busy head of the full FIFO queue, or
      for a temp slot that the dirty head would need; it fails exactly when the temp write of a dirty head that
      may be spilled fails; and otherwise it fetches, from the temp file exactly if the block is spilled. */
  lemma PlanTable(c: Config, s: Sys, op: Op, w: Temp.WriteOutcome)
    requires Inv(c, s) && OpOk(c, op)
    ensures var sh, plan := s.shared, PlanOp(c, s.shared, op, w).0;
      && (plan.Done? <==> Resides(sh, op.block))
      && (plan == Wait(Generic) <==> Busy(sh, op.block) || (NeedsRoom(c, sh, op.block) && HeadBusy(sh)))
      && (plan == Wait(DirtyEvictionTempSlot) <==>
            NeedsRoom(c, sh, op.block) && !HeadBusy(sh) && HeadDirty(sh) && !HeadSnapshotted(sh) && SlotsUsedUp(c, sh))
      && (plan.Failed? <==>
            NeedsRoom(c, sh, op.block) && !HeadBusy(sh) && HeadDirty(sh)
            && (HeadSnapshotted(sh) || !SlotsUsedUp(c, sh)) && w != Temp.Written)
      && (plan.Failed? ==> plan.fault == TempIo)
      && (plan.Fetch? ==> plan.source == if op.block in sh.spilled then Rehydrating else LoadingRemote)
  {
    InvGives(c, s, op.block);
    SlotLimit(c, s);
    PlanResult(c, s, op, w);
    hide Inv, Queued, TempSlots, TempFileCount;
    if op.block in s.shared.table.blocks {
      if s.shared.table.blocks[op.block].load == Ready {
        HitHasForm(c, s.shared, op);
      }
    } else if !Busy(s.shared, op.block) {
      MissHasForm(c, s, op, w);
      SlotTable(c, s, w);
    }
  }

  lemma SlotLimit(c: Config, s: Sys)
    requires Inv(c, s)
    ensures TempFileCount(s.shared) == |TempSlots(s.shared)| <= c.tempMaxFiles
  {
    TempCountIsSlots(c, s);
  }

  /** Making room, told on the state. */
  lemma SlotTable(c: Config, s: Sys, w: Temp.WriteOutcome)
    requires Inv(c, s)
    ensures var sh, slot := s.shared, PrepareSlot(c, s.shared, w).0;
      var full := sh.table.fifo != [] && |sh.table.fifo| == c.fifoCapacity;
      && (slot == SlotWait(Generic) <==> full && HeadBusy(sh))
      && (slot == SlotWait(DirtyEvictionTempSlot) <==>
            full && !HeadBusy(sh) && HeadDirty(sh) && !HeadSnapshotted(sh) && SlotsUsedUp(c, sh))
      && (slot.SlotError? <==>
            full && !HeadBusy(sh) && HeadDirty(sh) && (HeadSnapshotted(sh) || !SlotsUsedUp(c, sh)) && w != Temp.Written)
      && (slot.SlotError? ==> slot.fault == TempIo)
  {
    InvGives(c, s, 0);
    SlotLimit(c, s);
    SlotResult(c, s, w);
    var v := InsertVictim(c, s.shared.table);
    if v.Some? {
      VictimFacts(c, s, v.value);
      SlotHasForm(c, s.shared, w, v.value);
      hide Inv, Queued, TempSlots, TempFileCount, DisposeVictim, Evict, CellOf, CellInv;
    }
  }

  // ---------------------------------------------------------------- failures have causes

  /** An operation that fails in a step: it met the stop request, its own temp write failed, or what it fetched did
      not arrive. */
  lemma StepFailure(c: Config, s: Sys, a: Action)
    requires Inv(c, s) && Enabled(c, s, a) && Next(c, s, a).1.OpFailed?
    ensures a.PlanStep? || a.FinishStep?
    ensures var f := Next(c, s, a).1.fault;
      && Next(c, s, a).1.op == ThreadOf(s, a.thread).op
      && (f == Stopped <==> a.PlanStep? && s.shared.stop)
      && (a.PlanStep? && f != Stopped ==> f == TempIo && a.tempWrite != Temp.Written)
      && (a.FinishStep? ==> ThreadOf(s, a.thread).Fetched? && ThreadOf(s, a.thread).got.None?)
      && (a.FinishStep? ==> f == if ThreadOf(s, a.thread).source == Rehydrating then TempIo else RemoteIo)
  {
    if a.PlanStep? {
      PlanFailure(c, s, a.thread, a.tempWrite);
    } else if a.FinishStep? {
      FinishFailure(c, s, a.thread);
    } else {
      OtherStepsSilent(c, s, a);
    }
  }

  lemma PlanFailure(c: Config, s: Sys, t: nat, w: Temp.WriteOutcome)
    requires Inv(c, s) && ThreadOf(s, t).Running?
    ensures var event := Next(c, s, PlanStep(t, w)).1;
      event.OpFailed? ==>
        && event.op == ThreadOf(s, t).op
        && if s.shared.stop then event.fault == Stopped else event.fault == TempIo && w != Temp.Written
  {
    assert ThreadInv(c, s, t);
    hide Inv, Next, PlanOp, Waiters, NeedsRoom, HeadBusy, HeadDirty, HeadSnapshotted, SlotsUsedUp;
    if s.shared.stop {
      StopStepForm(c, s, t, w);
    } else {
      PlanStepForm(c, s, t, w);
      PlanTable(c, s, ThreadOf(s, t).op, w);
    }
  }

  lemma FinishFailure(c: Config, s: Sys, t: nat)
    requires Inv(c, s) && ThreadOf(s, t).Fetched?
    ensures var event := Next(c, s, FinishStep(t)).1;
      var Fetched(op, source, got) := ThreadOf(s, t);
      if got.None? then event == OpFailed(op, if source == Rehydrating then TempIo else RemoteIo)
      else event == WriteDone(op) || (event.ReadDone? && event.op == op)
  {
    hide Inv, Next, FinishFetch, Arrived, LoadedEntry, Waiters, Queued;
    FinishStepForm(c, s, t);
  }

  /** A fetch that does not fail brings the block, unless the remote store does not have it. */
  lemma FetchBrings(c: Config, s: Sys, t: nat, succeeds: bool)
    requires Inv(c, s) && ThreadOf(s, t).Fetching?
    ensures var Fetching(op, source) := ThreadOf(s, t);
      var now := ThreadOf(Next(c, s, FetchStep(t, succeeds)).0, t);
      && now.Fetched? && now.op == op && now.source == source
      && (now.got.Some? <==> succeeds && (source == Rehydrating || op.block in s.remote))
  {
    var Fetching(op, source) := ThreadOf(s, t);
    assert ThreadInv(c, s, t);
    InvGives(c, s, op.block);
    hide Inv;
    ReadsWhole(c, if source == Rehydrating then s.shared.temp else s.remote, op.block, succeeds);
  }

  /** Action `j` of the run is the cause of the failure that action `i` reports: the temp write of that very turn,
      or the fetch that the thread made as its last step before; that fetch failed, or the remote store does not
      have the block. */
  ghost predicate Causes(known: set<nat>, actions: seq<Action>, j: int, i: nat, event: Event)
    requires i < |actions| && 0 <= j && event.OpFailed?
  {
    || (j == i && actions[i].PlanStep? && actions[i].tempWrite != Temp.Written && event.fault == TempIo)
    || (j < i && actions[i].FinishStep? && actions[j].FetchStep? && actions[j].thread == actions[i].thread
        && (forall m :: j < m < i ==> Actor(actions[m]) != Actor(actions[i]))
        && (!actions[j].succeeds || (event.fault == RemoteIo && event.op.block !in known)))
  }

  /** The thread came into the run with a fetch that brought nothing, and its first step reports it. */
  ghost predicate BroughtNothing(s: Sys, actions: seq<Action>, i: nat, event: Event)
    requires i < |actions| && event.OpFailed?
  {
    && actions[i].FinishStep? && ThreadOf(s, actions[i].thread).Fetched?
    && ThreadOf(s, actions[i].thread).got.None? && ThreadOf(s, actions[i].thread).op == event.op
    && event.fault == (if ThreadOf(s, actions[i].thread).source == Rehydrating then TempIo else RemoteIo)
    && forall m :: 0 <= m < i ==> Actor(actions[m]) != Actor(actions[i])
  }

  lemma EventsLater(c: Config, s: Sys, actions: seq<Action>, i: nat)
    requires ValidRun(c, s, actions) && i < |actions|
    ensures |Events(c, s, actions)| == |actions|
    ensures Events(c, s, actions)[i]
      == if i == 0 then Next(c, s, actions[0]).1 else Events(c, Next(c, s, actions[0]).0, actions[1..])[i - 1]
    decreases |actions|
  {
    hide Next, Enabled;
    EventsLength(c, Next(c, s, actions[0]).0, actions[1..]);
  }

  lemma {:induction false} EventsLength(c: Config, s: Sys, actions: seq<Action>)
    requires ValidRun(c, s, actions)
    ensures |Events(c, s, actions)| == |actions|
    decreases |actions|
  {
    hide Next, Enabled;
    if actions != [] {
      EventsLength(c, Next(c, s, actions[0]).0, actions[1..]);
    }
  }

  lemma {:induction false} CauseOrStart(c: Config, s: Sys, actions: seq<Action>, i: nat) returns (j: int)
    requires Inv(c, s) && ValidRun(c, s, actions) && i < |actions| == |Events(c, s, actions)|
    requires Events(c, s, actions)[i].OpFailed? && Events(c, s, actions)[i].fault != Stopped
    ensures -1 <= j
    ensures if j == -1 then BroughtNothing(s, actions, i, Events(c, s, actions)[i])
            else Causes(s.remote.Keys, actions, j, i, Events(c, s, actions)[i])
    decreases |actions|
  {
    hide Inv, Next, Enabled;
    var a, event := actions[0], Events(c, s, actions)[i];
    EventsLater(c, s, actions, i);
    if i == 0 {
      StepFailure(c, s, a);
      j := if a.PlanStep? then 0 else -1;
    } else {
      var s' := Next(c, s, a).0;
      NextKeepsInv(c, s, a);
      EventsLength(c, s', actions[1..]);
      j := CauseOrStart(c, s', actions[1..], i - 1);
      RemoteKeysKept(c, s, a);
      if j >= 0 {
        CauseLater(s.remote.Keys, actions, j, i, event);
        j := j + 1;
      } else {
        j := StartLater(c, s, actions, i, event);
      }
    }
  }

  lemma CauseLater(known: set<nat>, actions: seq<Action>, j: nat, i: nat, event: Event)
    requires 0 < i < |actions| && event.OpFailed? && Causes(known, actions[1..], j, i - 1, event)
    ensures Causes(known, actions, j + 1, i, event)
  {
    forall m | j + 1 < m < i && j + 1 < i ensures Actor(actions[m]) != Actor(actions[i]) {
      assert actions[1..][m - 1] == actions[m] && j < m - 1 < i - 1;
    }
  }

  lemma StartLater(c: Config, s: Sys, actions: seq<Action>, i: nat, event: Event) returns (j: int)
    requires Inv(c, s) && ValidRun(c, s, actions) && 0 < i < |actions| && event.OpFailed?
    requires BroughtNothing(Next(c, s, actions[0]).0, actions[1..], i - 1, event)
    ensures -1 <= j
    ensures if j == -1 then BroughtNothing(s, actions, i, event) else Causes(s.remote.Keys, actions, j, i, event)
  {
    hide Inv;
    var a, t := actions[0], actions[i].thread;
    assert forall m :: 1 <= m < i ==> actions[m] == actions[1..][m - 1];
    if Actor(a) == Some(t) {
      FetchedByFetch(c, s, a, t);
      FetchBrings(c, s, t, a.succeeds);
      j := 0;
    } else {
      OthersStand(c, s, a, t);
      j := -1;
    }
  }

  /** Only the fetch itself leaves a thread with what it fetched. */
  lemma FetchedByFetch(c: Config, s: Sys, a: Action, t: nat)
    requires Enabled(c, s, a) && Actor(a) == Some(t) && ThreadOf(Next(c, s, a).0, t).Fetched?
    ensures a.FetchStep? && ThreadOf(s, t).Fetching?
  {
    hide PlanOp, FinishTempFetch, FinishRemoteFetch, ReadFile, ReleaseWaiter, BeforeWait;
  }

  /** In every run from a new cache each failed operation has an I/O failure of its own: the temp write of its last
      turn, or the fetch its thread made just before; or the remote store lacks its block; or the cache was stopped. */
  lemma FailureHasCause(c: Config, s: Sys, actions: seq<Action>, i: nat) returns (j: nat)
    requires Initial(c, s) && ValidRun(c, s, actions) && i < |actions| == |Events(c, s, actions)|
    requires Events(c, s, actions)[i].OpFailed? && Events(c, s, actions)[i].fault != Stopped
    ensures Causes(s.remote.Keys, actions, j, i, Events(c, s, actions)[i])
  {
    InitialInv(c, s);
    var k := CauseOrStart(c, s, actions, i);
    j := k;
  }

  // ---------------------------------------------------------------- healthy runs

  /** No I/O fails in the action, and it begins no operation on a block the remote store lacks. */
  predicate Healthy(known: set<nat>, a: Action) {
    match a
    case Begin(_, op) => op.block in known
    case PlanStep(_, w) => w == Temp.Written
    case FetchStep(_, succeeds) => succeeds
    case RequestStop => false
    case _ => true
  }

  /** Nothing has failed so far. */
  ghost predicate Sound(s: Sys) {
    && !s.shared.stop
    && (forall t: nat :: !ThreadOf(s, t).Idle? ==> ThreadOf(s, t).op.block in s.remote)
    && (forall t: nat :: ThreadOf(s, t).Fetched? ==> ThreadOf(s, t).got.Some?)
  }

  lemma HealthyStep(c: Config, s: Sys, a: Action)
    requires Inv(c, s) && Enabled(c, s, a) && Sound(s) && Healthy(s.remote.Keys, a)
    ensures Sound(Next(c, s, a).0) && !Next(c, s, a).1.OpFailed?
  {
    hide Inv, Next, Enabled;
    var (s', event) := Next(c, s, a);
    if event.OpFailed? {
      StepFailure(c, s, a);
    }
    RemoteKeysKept(c, s, a);
    StopKept(c, s, a);
    forall t: nat ensures !ThreadOf(s', t).Idle? ==> ThreadOf(s', t).op.block in s'.remote {
      if !ThreadOf(s', t).Idle? {
        ThreadOpKept(c, s, a, t);
      }
    }
    forall t: nat ensures ThreadOf(s', t).Fetched? ==> ThreadOf(s', t).got.Some? {
      HealthyFetch(c, s, a, t);
    }
  }

  lemma HealthyFetch(c: Config, s: Sys, a: Action, t: nat)
    requires Inv(c, s) && Enabled(c, s, a) && Sound(s) && Healthy(s.remote.Keys, a)
    ensures ThreadOf(Next(c, s, a).0, t).Fetched? ==> ThreadOf(Next(c, s, a).0, t).got.Some?
  {
    hide Inv, Next;
    if Actor(a) != Some(t) {
      OthersStand(c, s, a, t);
    } else if ThreadOf(Next(c, s, a).0, t).Fetched? {
      FetchedByFetch(c, s, a, t);
      FetchBrings(c, s, t, a.succeeds);
    }
  }

  /** Only a stop request stops. */
  lemma StopKept(c: Config, s: Sys, a: Action)
    requires Inv(c, s) && Enabled(c, s, a)
    ensures Next(c, s, a).0.shared.stop == (s.shared.stop || a == RequestStop)
  {
    match a
    case PlanStep(t, w) =>
      assert ThreadInv(c, s, t);
      hide Inv, Next, PlanOp, PlanOk;
      if s.shared.stop { StopStepForm(c, s, t, w); } else { PlanStops(c, s, t, w); }
    case FinishStep(t) => FinishStops(c, s, t);
    case ScanStep(w) => ScanResult(c, s, w);
    case FinishFlushStep => EndFlushResult(c, s);
    case _ => hide Inv;
  }

  lemma PlanStops(c: Config, s: Sys, t: nat, w: Temp.WriteOutcome)
    requires Inv(c, s) && ThreadOf(s, t).Running? && !s.shared.stop
    ensures !Next(c, s, PlanStep(t, w)).0.shared.stop
  {
    assert ThreadInv(c, s, t);
    hide Inv, Next, PlanOp, PlanMove, Queued;
    PlanStepForm(c, s, t, w);
    PlanResult(c, s, ThreadOf(s, t).op, w);
  }

  lemma FinishStops(c: Config, s: Sys, t: nat)
    requires Inv(c, s) && ThreadOf(s, t).Fetched?
    ensures Next(c, s, FinishStep(t)).0.shared.stop == s.shared.stop
  {
    InvGives(c, s, 0);
    hide Inv, Next, FinishFetch, Arrived, LoadedEntry, Waiters, Queued;
    FinishStepForm(c, s, t);
    var Fetched(op, source, got) := ThreadOf(s, t);
    FinishResult(c, s.shared, op, source, got);
  }

  /** A thread keeps its operation until it reports on it. */
  lemma ThreadOpKept(c: Config, s: Sys, a: Action, t: nat)
    requires Enabled(c, s, a) && !ThreadOf(Next(c, s, a).0, t).Idle?
    ensures ThreadOf(Next(c, s, a).0, t).op
      == if a.Begin? && a.thread == t then a.op else if ThreadOf(s, t).Idle? then ThreadOf(Next(c, s, a).0, t).op
         else ThreadOf(s, t).op
    ensures ThreadOf(s, t).Idle? ==> a.Begin? && a.thread == t
  {
    if Actor(a) != Some(t) {
      OthersStand(c, s, a, t);
    } else {
      hide PlanOp, FinishTempFetch, FinishRemoteFetch, ReadFile, ReleaseWaiter, BeforeWait;
    }
  }

  lemma {:induction false} SoundRunNeverFails(c: Config, s: Sys, actions: seq<Action>)
    requires Inv(c, s) && Sound(s) && ValidRun(c, s, actions)
    requires forall i :: 0 <= i < |actions| ==> Healthy(s.remote.Keys, actions[i])
    ensures forall i :: 0 <= i < |Events(c, s, actions)| ==> !Events(c, s, actions)[i].OpFailed?
    decreases |actions|
  {
    hide Inv, Next, Enabled, Sound, Healthy;
    if actions != [] {
      HealthyStep(c, s, actions[0]);
      NextKeepsInv(c, s, actions[0]);
      RemoteKeysKept(c, s, actions[0]);
      SoundRunNeverFails(c, Next(c, s, actions[0]).0, actions[1..]);
    }
  }

  /** In every run from a new cache in which no fetch and no temp write of a thread fails, nobody asks to stop, and
      operations are begun only on blocks the remote store has, no operation fails, whatever the worker meets. */
  lemma HealthyRunNeverFails(c: Config, s: Sys, actions: seq<Action>)
    requires Initial(c, s) && ValidRun(c, s, actions)
    requires forall i :: 0 <= i < |actions| ==> Healthy(s.remote.Keys, actions[i])
    ensures forall i :: 0 <= i < |Events(c, s, actions)| ==> !Events(c, s, actions)[i].OpFailed?
  {
    InitialInv(c, s);
    SoundRunNeverFails(c, s, actions);
  }
}
