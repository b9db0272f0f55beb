/**
  With no foreground operation in flight and no I/O failure the worker drains the cache: each of its steps lowers
  a measure until the cache is quiescent and the remote store holds the whole view. This needs every snapshot
  file to be there; a snapshot lost by a failed overwrite is never drained by the worker alone.
*/
module Draining {
  import opened Common
  import opened Resident
  import opened CacheModel
  import opened CacheSystem
  import opened CacheCells
  import opened CacheInvariant
  import opened CacheSteps
  import opened CacheSafety
  import opened CacheRefinement
  import Temp

  ghost predicate NoForeground(s: Sys) {
    forall t :: ThreadOf(s, t) == Idle
  }

  ghost predicate NothingLost(s: Sys) {
    forall b: nat :: !SnapshotLost(CellOf(s, b))
  }

  /** The worker alone, no stop request, every snapshot file in place. */
  ghost predicate CanDrain(c: Config, s: Sys) {
    Inv(c, s) && NoForeground(s) && NothingLost(s) && !s.shared.stop && s.worker != Exited
  }

  /** The worker's next step when no I/O fails. */
  function WorkerStep(s: Sys): Action
    requires s.worker != Exited
  {
    match s.worker
    case Resting => ScanStep(Temp.Written)
    case FlushRead(_) => ReadTempStep(true)
    case FlushWrite(_, _) => WriteRemoteStep(true)
    case FlushRemove(_) => RemoveTempStep(true)
    case FlushFinish(_, _) => FinishFlushStep
  }

  function DirtyBlocks(s: Shared): set<nat> {
    set b | b in s.table.blocks && s.table.blocks[b].dirty != []
  }

  /** How far the current flush still has to go. */
  function Phase(w: Worker): nat {
    match w
    case FlushFinish(_, false) => 5
    case Resting => 4
    case FlushRead(_) => 3
    case FlushWrite(_, _) => 2
    case FlushRemove(_) => 1
    case FlushFinish(_, true) => 0
    case Exited => 0
  }

  /** The measure: six times (two per dirty block plus one per temp file), plus the phase of the flush. */
  function Work(s: Sys): nat {
    6 * (2 * |DirtyBlocks(s.shared)| + |TempSlots(s.shared)|) + Phase(s.worker)
  }

  // ---------------------------------------------------------------- what one worker step does

  lemma IdleHasNoFetchers(c: Config, s: Sys)
    requires Inv(c, s) && NoForeground(s)
    ensures forall b :: b in s.shared.table.blocks ==> s.shared.table.blocks[b].load == Ready
    ensures s.shared.waiters == 0
  {
    forall t, b ensures !Fetches(s, t, b) {
      assert ThreadOf(s, t) == Idle;
    }
    forall t ensures t !in Waiters(s) {
      assert ThreadOf(s, t) == Idle;
    }
    assert Waiters(s) == {};
  }

  /** A flush in progress finds its temp file and its remote block. */
  lemma FlushFindsFiles(c: Config, s: Sys)
    requires CanDrain(c, s)
    ensures s.worker.FlushRead? ==>
      s.worker.block in s.shared.temp && |s.shared.temp[s.worker.block]| == c.blockSize
    ensures s.worker.FlushWrite? ==> s.worker.block in s.remote
  {
    var b := WorkerBlock(s.worker);
    if b.Some? {
      assert CellInv(c, b.value, CellOf(s, b.value));
      assert !SnapshotLost(CellOf(s, b.value));
    }
  }

  /** The blocks a worker step changes in the measure, by the move it makes. */
  lemma MoveWork(c: Config, b: nat, k: Cell, m: Move)
    requires CellInv(c, b, k) && CanMove(c, b, k, m)
    requires m in {Stay, TakeSnapshot, Claim} || m.ReadTemp? || m.WriteRemote? || m.RemoveTemp? || m.EndFlush?
    ensures var k' := MovedCell(c, b, k, m);
      var wasDirty, isDirty := k.entry.Some? && k.entry.value.dirty != [], k'.entry.Some? && k'.entry.value.dirty != [];
      && isDirty == (wasDirty && m != TakeSnapshot)
      && (m == TakeSnapshot ==> wasDirty && !HoldsTempSlot(k))
      && HoldsTempSlot(k') == ((HoldsTempSlot(k) || m == TakeSnapshot) && m != EndFlush(true))
      && (m == EndFlush(true) ==> HoldsTempSlot(k))
      && (SnapshotLost(k') ==> SnapshotLost(k))
  {
  }

  lemma DirtyHeld(s: Sys, b: nat)
    ensures b in DirtyBlocks(s.shared) <==> CellOf(s, b).entry.Some? && CellOf(s, b).entry.value.dirty != []
  {
  }

  lemma WorkerStepMove(c: Config, s: Sys, b: nat)
    requires CanDrain(c, s)
    ensures var m := MoveOf(c, s, WorkerStep(s), b);
      m in {Stay, TakeSnapshot, Claim} || m.ReadTemp? || m.WriteRemote? || m.RemoveTemp? || m.EndFlush?
  {
  }

  /** After a worker step, block by block. */
  lemma BlockWork(c: Config, s: Sys, b: nat)
    requires CanDrain(c, s)
    ensures var s' := Next(c, s, WorkerStep(s)).0;
      var m := MoveOf(c, s, WorkerStep(s), b);
      && (b in DirtyBlocks(s'.shared) <==> b in DirtyBlocks(s.shared) && m != TakeSnapshot)
      && (m == TakeSnapshot ==> b in DirtyBlocks(s.shared) && b !in TempSlots(s.shared))
      && (b in TempSlots(s'.shared) <==> (b in TempSlots(s.shared) || m == TakeSnapshot) && m != EndFlush(true))
      && (m == EndFlush(true) ==> b in TempSlots(s.shared))
      && !SnapshotLost(CellOf(s', b))
  {
    var s' := Next(c, s, WorkerStep(s)).0;
    NextMoves(c, s, WorkerStep(s), b);
    WorkerStepMove(c, s, b);
    MoveWork(c, b, CellOf(s, b), MoveOf(c, s, WorkerStep(s), b));
    DirtyHeld(s, b);
    DirtyHeld(s', b);
    SlotHeld(s, b);
    SlotHeld(s', b);
    assert !SnapshotLost(CellOf(s, b));
  }

  /** The block that a step snapshots, and the one whose flush it completes. */
  function Snapshotted(c: Config, s: Sys): Option<nat> {
    if s.worker != Resting then None
    else if Least(s.shared.spilled.Keys - s.shared.active).Some? then None
    else if Least(FlushableBlocks(s.shared.table, s.shared.active)).Some? then None
    else if s.shared.waiters > 0 || TempFileCount(s.shared) >= c.tempMaxFiles then None
    else Least(SnapshotCandidates(s.shared.table))
  }

  function Completed(s: Sys): Option<nat> {
    if s.worker.FlushFinish? && s.worker.flushed then Some(s.worker.block) else None
  }

  lemma MarkedMoves(c: Config, s: Sys, b: nat)
    requires CanDrain(c, s)
    ensures MoveOf(c, s, WorkerStep(s), b) == TakeSnapshot <==> Snapshotted(c, s) == Some(b)
    ensures MoveOf(c, s, WorkerStep(s), b) == EndFlush(true) <==> Completed(s) == Some(b)
  {
  }

  /** The two sets of the measure after a worker step. */
  ghost predicate StepSets(was: Shared, now: Shared, snapshotted: Option<nat>, completed: Option<nat>) {
    && (forall b: nat :: b in DirtyBlocks(now) <==> b in DirtyBlocks(was) && snapshotted != Some(b))
    && (forall b: nat :: b in TempSlots(now) <==> (b in TempSlots(was) || snapshotted == Some(b)) && completed != Some(b))
    && (snapshotted.Some? ==> snapshotted.value in DirtyBlocks(was) && snapshotted.value !in TempSlots(was))
    && (completed.Some? ==> completed.value in TempSlots(was))
    && (snapshotted.None? || completed.None?)
  }

  /** A set that differs from another by at most one known element. */
  lemma SizeOfChange(was: set<nat>, now: set<nat>, added: Option<nat>, removed: Option<nat>)
    requires added.None? || removed.None?
    requires forall b: nat :: b in now <==> (b in was || added == Some(b)) && removed != Some(b)
    requires (added.Some? ==> added.value !in was) && (removed.Some? ==> removed.value in was)
    ensures |now| == |was| + (if added.Some? then 1 else 0) - (if removed.Some? then 1 else 0)
  {
    SetSizeButOne(was, now, if added.Some? then added.value else if removed.Some? then removed.value else 0);
  }

  lemma StepSetSizes(was: Shared, now: Shared, snapshotted: Option<nat>, completed: Option<nat>)
    requires StepSets(was, now, snapshotted, completed)
    ensures |DirtyBlocks(now)| == |DirtyBlocks(was)| - (if snapshotted.Some? then 1 else 0)
    ensures |TempSlots(now)|
         == |TempSlots(was)| + (if snapshotted.Some? then 1 else 0) - (if completed.Some? then 1 else 0)
  {
    SizeOfChange(DirtyBlocks(was), DirtyBlocks(now), None, snapshotted);
    SizeOfChange(TempSlots(was), TempSlots(now), snapshotted, completed);
  }

  lemma SetsAfterStep(c: Config, s: Sys)
    requires CanDrain(c, s)
    ensures StepSets(s.shared, Next(c, s, WorkerStep(s)).0.shared, Snapshotted(c, s), Completed(s))
    ensures NothingLost(Next(c, s, WorkerStep(s)).0)
  {
    forall b: nat
      ensures var s' := Next(c, s, WorkerStep(s)).0;
        && (b in DirtyBlocks(s'.shared) <==> b in DirtyBlocks(s.shared) && Snapshotted(c, s) != Some(b))
        && (b in TempSlots(s'.shared) <==>
              (b in TempSlots(s.shared) || Snapshotted(c, s) == Some(b)) && Completed(s) != Some(b))
        && (Snapshotted(c, s) == Some(b) ==> b in DirtyBlocks(s.shared) && b !in TempSlots(s.shared))
        && (Completed(s) == Some(b) ==> b in TempSlots(s.shared))
        && !SnapshotLost(CellOf(s', b))
    {
      BlockWork(c, s, b);
      MarkedMoves(c, s, b);
    }
  }

  lemma PhaseAfterStep(c: Config, s: Sys)
    requires CanDrain(c, s)
    ensures var w := Next(c, s, WorkerStep(s)).0.worker;
      match s.worker
      case FlushRead(b) => w.FlushWrite?
      case FlushWrite(b, _) => w.FlushRemove?
      case FlushRemove(b) => w == FlushFinish(b, true)
      case FlushFinish(_, _) => w == Resting
      case Resting => w == Resting || w.FlushRead?
      case Exited => true
  {
    hide Inv, Next, NothingLost, NoForeground;
    match s.worker
    case FlushRead(_) => ReadPhase(c, s);
    case FlushWrite(_, _) => WritePhase(c, s);
    case FlushRemove(_) => RemovePhase(c, s);
    case FlushFinish(_, _) => EndFlushResult(c, s);
    case Resting => ScanStepPhase(c, s);
    case Exited =>
  }

  lemma WritePhase(c: Config, s: Sys)
    requires CanDrain(c, s) && s.worker.FlushWrite?
    ensures Next(c, s, WriteRemoteStep(true)).0.worker.FlushRemove?
  {
    FlushFindsFiles(c, s);
  }

  lemma RemovePhase(c: Config, s: Sys)
    requires s.worker.FlushRemove?
    ensures Next(c, s, RemoveTempStep(true)).0.worker == FlushFinish(s.worker.block, true)
  {
  }

  lemma ScanStepPhase(c: Config, s: Sys)
    requires CanDrain(c, s) && s.worker == Resting
    ensures var w := Next(c, s, ScanStep(Temp.Written)).0.worker; w == Resting || w.FlushRead?
  {
    hide Inv, NothingLost, NoForeground, ScanNext;
    ScanPhase(c, s);
  }

  lemma ReadPhase(c: Config, s: Sys)
    requires CanDrain(c, s) && s.worker.FlushRead?
    ensures Next(c, s, ReadTempStep(true)).0.worker.FlushWrite?
  {
    FlushFindsFiles(c, s);
    ReadsWhole(c, s.shared.temp, s.worker.block, true);
  }

  lemma ScanPhase(c: Config, s: Sys)
    requires Inv(c, s) && s.worker == Resting
    ensures var w := ScanNext(c, s, Temp.Written).0.worker; w == Resting || w.FlushRead?
  {
    hide Inv, ScanNext, CreateSnapshot;
    ScanNextForm(c, s, Temp.Written);
  }

  // ---------------------------------------------------------------- progress

  /** A resting worker that finds nothing to do has drained the cache. */
  lemma NothingToDoIsQuiescent(c: Config, s: Sys)
    requires CanDrain(c, s) && s.worker == Resting && Snapshotted(c, s).None?
    requires !Next(c, s, WorkerStep(s)).0.worker.FlushRead?
    ensures IsQuiescent(s.shared)
  {
    IdleHasNoFetchers(c, s);
    ScanHasForm(c, s, Temp.Written);
    assert s.shared.active == {} by {
      forall b: nat ensures b !in s.shared.active {
        assert CellInv(c, b, CellOf(s, b));
      }
    }
    assert s.shared.spilled.Keys - s.shared.active == s.shared.spilled.Keys;
    assert s.shared.spilled == map[];
    forall b | b in s.shared.table.blocks ensures b !in SnapshotBlocks(s.shared.table) {
      assert b !in FlushableBlocks(s.shared.table, s.shared.active);
    }
    assert SnapshotBlocks(s.shared.table) == {};
    forall b | b in s.shared.table.blocks ensures Clean(s.shared.table.blocks[b]) {
      assert CellInv(c, b, CellOf(s, b));
      assert b !in SnapshotBlocks(s.shared.table);
      assert b !in SnapshotCandidates(s.shared.table);
    }
  }

  /** Until the cache is quiescent some worker step is enabled, and each lowers the measure. */
  lemma WorkerProgress(c: Config, s: Sys)
    requires CanDrain(c, s) && !(s.worker == Resting && IsQuiescent(s.shared))
    ensures Enabled(c, s, WorkerStep(s))
    ensures CanDrain(c, Next(c, s, WorkerStep(s)).0)
    ensures Work(Next(c, s, WorkerStep(s)).0) < Work(s)
  {
    WorkerKeepsDrain(c, s);
    WorkerLowersWork(c, s);
  }

  lemma WorkerKeepsDrain(c: Config, s: Sys)
    requires CanDrain(c, s)
    ensures CanDrain(c, Next(c, s, WorkerStep(s)).0)
  {
    NextKeepsInv(c, s, WorkerStep(s));
    SetsAfterStep(c, s);
    PhaseAfterStep(c, s);
    StepKeepsThreads(c, s);
    var s' := Next(c, s, WorkerStep(s)).0;
    forall t ensures ThreadOf(s', t) == Idle {
      assert ThreadOf(s, t) == Idle;
    }
  }

  lemma StepKeepsThreads(c: Config, s: Sys)
    requires CanDrain(c, s)
    ensures var s' := Next(c, s, WorkerStep(s)).0;
      s'.threads == s.threads && s'.shared.stop == s.shared.stop
  {
    match s.worker
    case Resting => ScanResult(c, s, Temp.Written);
    case FlushFinish(_, _) => EndFlushResult(c, s);
    case _ =>
  }

  lemma WorkerLowersWork(c: Config, s: Sys)
    requires CanDrain(c, s) && !(s.worker == Resting && IsQuiescent(s.shared))
    ensures Work(Next(c, s, WorkerStep(s)).0) < Work(s)
  {
    hide Inv, NoForeground, NothingLost, Next, StepSets, Snapshotted, DirtyBlocks, TempSlots;
    SetsAfterStep(c, s);
    StepSetSizes(s.shared, Next(c, s, WorkerStep(s)).0.shared, Snapshotted(c, s), Completed(s));
    PhaseAfterStep(c, s);
    if s.worker == Resting && !Next(c, s, WorkerStep(s)).0.worker.FlushRead? && Snapshotted(c, s).None? {
      NothingToDoIsQuiescent(c, s);
    }
  }

  /** The worker's failure-free run from `s` to the end. */
  ghost function DrainRun(c: Config, s: Sys): seq<Action>
    requires CanDrain(c, s)
    decreases Work(s)
  {
    if s.worker == Resting && IsQuiescent(s.shared) then []
    else
      WorkerProgress(c, s);
      [WorkerStep(s)] + DrainRun(c, Next(c, s, WorkerStep(s)).0)
  }

  /** Draining terminates within `Work` steps in a quiescent state whose remote content is the view the cache
      had at the start. */
  lemma {:induction false} DrainReachesRemote(c: Config, s: Sys)
    requires CanDrain(c, s)
    ensures var run := DrainRun(c, s);
      && |run| <= Work(s)
      && ValidRun(c, s, run)
      && IsQuiescent(After(c, s, run).shared)
      && After(c, s, run).remote == ViewOf(s)
    decreases Work(s)
  {
    if s.worker == Resting && IsQuiescent(s.shared) {
      QuiescentRemoteIsView(c, s);
    } else {
      WorkerProgress(c, s);
      var s' := Next(c, s, WorkerStep(s)).0;
      DrainReachesRemote(c, s');
      StepRefinesDevice(c, s, WorkerStep(s));
      NextSound(c, s, WorkerStep(s));
      OtherStepsSilent(c, s, WorkerStep(s));
      var run := DrainRun(c, s);
      assert run[0] == WorkerStep(s) && run[1..] == DrainRun(c, s');
    }
  }

  // ---------------------------------------------------------------- draining despite failures

  /** A worker step in which some I/O fails, or a remote write is torn. */
  predicate Failing(a: Action) {
    match a
    case ScanStep(w) => w == Temp.Refused
    case ReadTempStep(succeeds) => !succeeds
    case PartialWriteStep(_) => true
    case WriteRemoteStep(succeeds) => !succeeds
    case RemoveTempStep(succeeds) => !succeeds
    case _ => false
  }

  /** A step of the worker, with or without a failure, but without the double fault that loses a temp file. */
  predicate Drains(a: Action) {
    a.FinishFlushStep? || a.ReadTempStep? || a.PartialWriteStep? || a.WriteRemoteStep? || a.RemoveTempStep?
    || (a.ScanStep? && a.tempWrite != Temp.Lost)
  }

  function Failures(run: seq<Action>): nat {
    if run == [] then 0 else (if Failing(run[0]) then 1 else 0) + Failures(run[1..])
  }

  /** A failing step changes no set of the measure, and costs at most the phases of one flush. */
  lemma FailingStepShared(c: Config, s: Sys, a: Action)
    requires Inv(c, s) && Enabled(c, s, a) && Drains(a) && Failing(a)
    ensures var s' := Next(c, s, a).0;
      && s'.shared == s.shared.(active := s'.shared.active) && s'.threads == s.threads
      && s'.worker != Exited && !StoredBy(s.worker) && Phase(s'.worker) <= Phase(s.worker) + 4
  {
    hide Inv, ScanNext;
    match a
    case ScanStep(_) => RefusedScan(c, s);
    case _ =>
  }

  lemma RefusedScan(c: Config, s: Sys)
    requires Inv(c, s) && s.worker == Resting && !s.shared.stop
    ensures var s' := Next(c, s, ScanStep(Temp.Refused)).0;
      && s'.shared == s.shared.(active := s'.shared.active) && s'.threads == s.threads
      && (s'.worker == Resting || s'.worker.FlushRead?)
  {
    hide Inv, ScanNext, CreateSnapshot;
    ScanNextForm(c, s, Temp.Refused);
    SnapshotHasForm(c, s.shared, Temp.Refused);
  }

  /** The flush has stored its block and removed the temp file. */
  predicate StoredBy(w: Worker) { w.FlushFinish? && w.flushed }

  lemma FailingStep(c: Config, s: Sys, a: Action)
    requires CanDrain(c, s) && Enabled(c, s, a) && Drains(a) && Failing(a)
    ensures CanDrain(c, Next(c, s, a).0) && Work(Next(c, s, a).0) <= Work(s) + 4
  {
    var s' := Next(c, s, a).0;
    NextKeepsInv(c, s, a);
    FailingStepShared(c, s, a);
    hide Inv, Next, Enabled;
    forall t ensures ThreadOf(s', t) == Idle {
      assert ThreadOf(s, t) == Idle;
    }
    forall b: nat ensures !SnapshotLost(CellOf(s', b)) {
      assert !SnapshotLost(CellOf(s, b));
    }
    assert DirtyBlocks(s'.shared) == DirtyBlocks(s.shared) && TempSlots(s'.shared) == TempSlots(s.shared);
  }

  /** At some point of the run the worker rests, the cache is quiescent and the remote store is `view`. */
  ghost predicate Reaches(c: Config, s: Sys, run: seq<Action>, view: Memory)
    requires ValidRun(c, s, run)
    decreases |run|
  {
    || (s.worker == Resting && IsQuiescent(s.shared) && s.remote == view)
    || (run != [] && Reaches(c, Next(c, s, run[0]).0, run[1..], view))
  }

  lemma DrainingStep(c: Config, s: Sys, a: Action)
    requires CanDrain(c, s) && Enabled(c, s, a) && Drains(a) && !(s.worker == Resting && IsQuiescent(s.shared))
    ensures CanDrain(c, Next(c, s, a).0) && ViewOf(Next(c, s, a).0) == ViewOf(s)
    ensures if Failing(a) then Work(Next(c, s, a).0) <= Work(s) + 4 else Work(Next(c, s, a).0) < Work(s)
  {
    StepRefinesDevice(c, s, a);
    NextSound(c, s, a);
    OtherStepsSilent(c, s, a);
    hide Inv, Next, ViewOf, NoForeground, NothingLost, Work, IsQuiescent;
    if Failing(a) {
      FailingStep(c, s, a);
    } else {
      assert a == WorkerStep(s);
      WorkerProgress(c, s);
    }
  }

  /** Failures only delay the draining: a run of the worker that is longer than the measure plus five steps per
      failure passes a point where the cache is quiescent and the remote store holds the view of its start. */
  lemma {:induction false} DrainsDespiteFailures(c: Config, s: Sys, run: seq<Action>)
    requires CanDrain(c, s) && ValidRun(c, s, run)
    requires forall i :: 0 <= i < |run| ==> Drains(run[i])
    requires |run| > Work(s) + 5 * Failures(run)
    ensures Reaches(c, s, run, ViewOf(s))
    decreases |run|
  {
    hide Inv, Next, Enabled, ViewOf, NoForeground, NothingLost, Work, IsQuiescent, Drains, Failing;
    if s.worker == Resting && IsQuiescent(s.shared) {
      QuiescentRemoteIsView(c, s);
    } else {
      DrainingStep(c, s, run[0]);
      DrainsDespiteFailures(c, Next(c, s, run[0]).0, run[1..]);
    }
  }

  // ---------------------------------------------------------------- a lost snapshot

  predicate ByWorker(a: Action) { Actor(a).None? }

  lemma MoveOnLost(c: Config, b: nat, k: Cell, m: Move)
    requires CellInv(c, b, k) && CanMove(c, b, k, m) && SnapshotLost(k)
    requires m in {Stay, Claim, TakeSnapshot, LoseTemp}
      || m.ReadTemp? || m.PartialWrite? || m.WriteRemote? || m.RemoveTemp? || m.EndFlush?
    ensures SnapshotLost(MovedCell(c, b, k, m))
  {
  }

  lemma WorkerMoveKinds(c: Config, s: Sys, a: Action, b: nat)
    requires Enabled(c, s, a) && ByWorker(a)
    ensures var m := MoveOf(c, s, a, b);
      m in {Stay, Claim, TakeSnapshot, LoseTemp}
      || m.ReadTemp? || m.PartialWrite? || m.WriteRemote? || m.RemoveTemp? || m.EndFlush?
  {
  }

  lemma LostStays(c: Config, s: Sys, a: Action, b: nat)
    requires Inv(c, s) && Enabled(c, s, a) && ByWorker(a) && SnapshotLost(CellOf(s, b))
    ensures SnapshotLost(CellOf(Next(c, s, a).0, b))
  {
    NextMoves(c, s, a, b);
    WorkerMoveKinds(c, s, a, b);
    MoveOnLost(c, b, CellOf(s, b), MoveOf(c, s, a, b));
  }

  /** A lost snapshot is never drained: whatever the worker does, and whether or not I/O fails, the cache does not
      become quiescent without a foreground operation. */
  lemma {:induction false} LostSnapshotNeverDrains(c: Config, s: Sys, actions: seq<Action>, b: nat)
    requires Inv(c, s) && ValidRun(c, s, actions) && SnapshotLost(CellOf(s, b))
    requires forall i :: 0 <= i < |actions| ==> ByWorker(actions[i])
    ensures !IsQuiescent(After(c, s, actions).shared)
    decreases |actions|
  {
    if actions == [] {
      assert !Clean(s.shared.table.blocks[b]);
    } else {
      LostStays(c, s, actions[0], b);
      NextKeepsInv(c, s, actions[0]);
      LostSnapshotNeverDrains(c, Next(c, s, actions[0]).0, actions[1..], b);
    }
  }

  /** With no foreground operation in flight and no stop request, the worker can drain the cache if and only if
      every snapshot still has its file. */
  lemma DrainsIffNothingLost(c: Config, s: Sys)
    requires Inv(c, s) && NoForeground(s) && !s.shared.stop && s.worker != Exited
    ensures NothingLost(s) <==> exists run ::
      && ValidRun(c, s, run) && (forall i :: 0 <= i < |run| ==> ByWorker(run[i]))
      && IsQuiescent(After(c, s, run).shared)
  {
    if NothingLost(s) {
      DrainReachesRemote(c, s);
      DrainRunByWorker(c, s);
    } else {
      var b: nat :| SnapshotLost(CellOf(s, b));
      forall run | ValidRun(c, s, run) && (forall i :: 0 <= i < |run| ==> ByWorker(run[i]))
        ensures !IsQuiescent(After(c, s, run).shared)
      {
        LostSnapshotNeverDrains(c, s, run, b);
      }
    }
  }

  lemma {:induction false} DrainRunByWorker(c: Config, s: Sys)
    requires CanDrain(c, s)
    ensures forall i :: 0 <= i < |DrainRun(c, s)| ==> ByWorker(DrainRun(c, s)[i])
    decreases Work(s)
  {
    if !(s.worker == Resting && IsQuiescent(s.shared)) {
      WorkerProgress(c, s);
      DrainRunByWorker(c, Next(c, s, WorkerStep(s)).0);
    }
  }
}
