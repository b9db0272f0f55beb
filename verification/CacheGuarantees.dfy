/** What the invariant means for clients and maintainers: agreement, ownership of temp files, temp slots. */
module CacheGuarantees {
  import opened Common
  import opened Resident
  import opened CacheModel
  import opened CacheSystem
  import opened CacheCells
  import opened CacheInvariant
  import opened CacheSteps
  import opened CacheSafety
  import Temp

  // ---------------------------------------------------------------- agreement

  /** In every reachable state a resident block agrees, outside its dirty ranges, with its snapshot file while it
      has one and with the remote store otherwise. The one exception is a snapshot whose file a failed overwrite
      lost; such a block is dirty. */
  lemma ReachableAgreement(c: Config, s0: Sys, actions: seq<Action>, b: nat)
    requires Initial(c, s0) && ValidRun(c, s0, actions)
    requires var blocks := After(c, s0, actions).shared.table.blocks; b in blocks && blocks[b].load == Ready
    ensures var s := After(c, s0, actions);
      var e := s.shared.table.blocks[b];
      && b in s.remote
      && (if !e.snapshot then Agree(e, s.remote[b])
          else if b in s.shared.temp then Agree(e, s.shared.temp[b])
          else if s.worker == FlushFinish(b, true) then Agree(e, s.remote[b])
          else SnapshotLost(CellOf(s, b)) && e.dirty != [])
  {
    InitialInv(c, s0);
    RunKeepsInv(c, s0, actions);
    assert CellInv(c, b, CellOf(After(c, s0, actions), b));
  }

  /** Some temp write of the action loses the file it was to replace. */
  predicate LosesFile(a: Action) {
    (a.PlanStep? || a.ScanStep?) && a.tempWrite == Temp.Lost
  }

  lemma MoveLosesSnapshot(c: Config, b: nat, k: Cell, m: Move)
    requires CellInv(c, b, k) && CanMove(c, b, k, m)
    requires SnapshotLost(MovedCell(c, b, k, m))
    ensures SnapshotLost(k) || m.LoseTemp?
  {
  }

  lemma StepLosesSnapshot(c: Config, s: Sys, a: Action, b: nat)
    requires Inv(c, s) && Enabled(c, s, a) && SnapshotLost(CellOf(Next(c, s, a).0, b))
    ensures SnapshotLost(CellOf(s, b)) || LosesFile(a)
  {
    hide Inv, Next, CellInv, CanMove, MovedCell, CellOf, SnapshotLost;
    NextMoves(c, s, a, b);
    MoveLosesSnapshot(c, b, CellOf(s, b), MoveOf(c, s, a, b));
  }

  /** Snapshots are lost only by temp writes that lose a file: without such a double fault the agreement of
      `ReachableAgreement` holds with no exception. */
  lemma {:induction false} NoLostFileNoLostSnapshot(c: Config, s: Sys, actions: seq<Action>, b: nat)
    requires Inv(c, s) && ValidRun(c, s, actions) && !SnapshotLost(CellOf(s, b))
    requires forall i :: 0 <= i < |actions| ==> !LosesFile(actions[i])
    ensures !SnapshotLost(CellOf(After(c, s, actions), b))
    decreases |actions|
  {
    if actions != [] {
      assert !SnapshotLost(CellOf(Next(c, s, actions[0]).0, b)) by {
        if SnapshotLost(CellOf(Next(c, s, actions[0]).0, b)) {
          StepLosesSnapshot(c, s, actions[0], b);
        }
      }
      NextKeepsInv(c, s, actions[0]);
      NoLostFileNoLostSnapshot(c, Next(c, s, actions[0]).0, actions[1..], b);
    }
  }

  lemma MoveDrops(c: Config, b: nat, k: Cell, m: Move)
    requires CellInv(c, b, k) && CanMove(c, b, k, m) && IsReady(k)
    requires MovedCell(c, b, k, m).entry.None? && MovedCell(c, b, k, m).spilled.None?
    ensures k.remote == Some(k.entry.value.data)
  {
    CleanEntryAgrees(k.entry.value, k.remote.value);
  }

  /** Whatever leaves the table without going to a temp file equals what the remote store holds: the victim of a
      promotion, and the clean victim of an insertion, lose nothing. */
  lemma DroppedBlockIsRemote(c: Config, s: Sys, a: Action, b: nat)
    requires Inv(c, s) && Enabled(c, s, a)
    requires b in s.shared.table.blocks && s.shared.table.blocks[b].load == Ready
    requires b !in Next(c, s, a).0.shared.table.blocks && b !in Next(c, s, a).0.shared.spilled
    ensures b in s.remote && s.remote[b] == s.shared.table.blocks[b].data
  {
    NextMoves(c, s, a, b);
    MoveDrops(c, b, CellOf(s, b), MoveOf(c, s, a, b));
  }

  // ---------------------------------------------------------------- ownership of temp files

  predicate Rehydrates(s: Sys, t: nat, b: nat) {
    match ThreadOf(s, t)
    case Fetching(op, source) => op.block == b && source == Rehydrating
    case Fetched(op, source, _) => op.block == b && source == Rehydrating
    case _ => false
  }

  /** A claimed block has exactly one owner, the worker or one rehydrating thread, and nothing else is claimed;
      it is spilled, or resident with a snapshot. */
  lemma ClaimHasOneOwner(c: Config, s: Sys, b: nat)
    requires Inv(c, s)
    ensures b in s.shared.active <==> WorkerBlock(s.worker) == Some(b) || exists t :: Rehydrates(s, t, b)
    ensures WorkerBlock(s.worker) == Some(b) ==> forall t :: !Fetches(s, t, b)
    ensures forall t, u :: Rehydrates(s, t, b) && Rehydrates(s, u, b) ==> t == u
    ensures b in s.shared.active ==>
      b in s.shared.spilled || b in FlushableBlocks(s.shared.table, {})
  {
    assert CellInv(c, b, CellOf(s, b));
    forall t | Fetches(s, t, b) ensures WorkerBlock(s.worker) != Some(b) {
      FetcherLoads(c, s, t, b);
    }
    forall t | Rehydrates(s, t, b) ensures b in s.shared.active {
      assert ThreadInv(c, s, t);
    }
    forall t, u | Rehydrates(s, t, b) && Rehydrates(s, u, b) ensures t == u {
      assert Fetches(s, t, b) && Fetches(s, u, b);
    }
    if b in s.shared.active && WorkerBlock(s.worker) != Some(b) {
      var t :| Fetches(s, t, b);
      assert ThreadInv(c, s, t);
      assert Rehydrates(s, t, b);
    }
  }

  lemma MoveOnClaimed(c: Config, b: nat, k: Cell, m: Move)
    requires CellInv(c, b, k) && CanMove(c, b, k, m) && k.active
    ensures MovedCell(c, b, k, m).temp == k.temp || m == RemoveTemp(true)
    ensures IsReady(k) ==> MovedCell(c, b, k, m).entry.Some?
  {
  }

  /** While a temp file is claimed no step overwrites or loses it, only the worker's own removal deletes it, and
      a resident block is not evicted. */
  lemma ClaimedTempStays(c: Config, s: Sys, a: Action, b: nat)
    requires Inv(c, s) && Enabled(c, s, a) && b in s.shared.active
    ensures Lookup(Next(c, s, a).0.shared.temp, b) == Lookup(s.shared.temp, b)
      || (a == RemoveTempStep(true) && WorkerBlock(s.worker) == Some(b))
    ensures b in s.shared.table.blocks && s.shared.table.blocks[b].load == Ready ==>
      b in Next(c, s, a).0.shared.table.blocks
  {
    ClaimedCell(c, s, a, b);
    RemovingMove(c, s, a, b);
    hide Inv, Next, CellInv, CanMove, MovedCell, CellOf, MoveOf;
    NextMoves(c, s, a, b);
    MoveOnClaimed(c, b, CellOf(s, b), MoveOf(c, s, a, b));
  }

  lemma RemovingMove(c: Config, s: Sys, a: Action, b: nat)
    requires Enabled(c, s, a)
    ensures MoveOf(c, s, a, b) == RemoveTemp(true) ==> a == RemoveTempStep(true) && WorkerBlock(s.worker) == Some(b)
  {
    hide Least, FlushableBlocks, SnapshotCandidates, TempFileCount, InsertVictim;
  }

  lemma ClaimedCell(c: Config, s: Sys, a: Action, b: nat)
    requires Enabled(c, s, a) && b in s.shared.active
    ensures var k, k' := CellOf(s, b), CellOf(Next(c, s, a).0, b);
      && k.active && k.temp == Lookup(s.shared.temp, b)
      && (IsReady(k) <==> b in s.shared.table.blocks && s.shared.table.blocks[b].load == Ready)
      && k'.temp == Lookup(Next(c, s, a).0.shared.temp, b)
      && k'.entry == Lookup(Next(c, s, a).0.shared.table.blocks, b)
  {
    hide Next;
  }

  /** While a block is being loaded from the remote store no step changes its remote content. */
  lemma RemoteStableWhileLoading(c: Config, s: Sys, a: Action, b: nat)
    requires Inv(c, s) && Enabled(c, s, a)
    requires b in s.shared.table.blocks && s.shared.table.blocks[b].load == LoadingRemote
    ensures Lookup(Next(c, s, a).0.remote, b) == Lookup(s.remote, b)
    ensures WorkerBlock(s.worker) != Some(b)
  {
    assert CellInv(c, b, CellOf(s, b));
    NextMoves(c, s, a, b);
    if !(a.FinishStep? && ThreadOf(s, a.thread).op.block == b) {
      FetchedBlockStays(c, s, a, b);
    }
  }

  // ---------------------------------------------------------------- temp slots

  /** In every reachable state the temp files in use are within the limit, and the waiter count is exact. */
  lemma ReachableSlots(c: Config, s0: Sys, actions: seq<Action>)
    requires Initial(c, s0) && ValidRun(c, s0, actions)
    ensures var s := After(c, s0, actions);
      && TempFileCount(s.shared) <= c.tempMaxFiles
      && s.shared.waiters == |set t | t in s.threads && HoldsFlag(s, t)|
  {
    InitialInv(c, s0);
    RunKeepsInv(c, s0, actions);
  }

  /** Rehydrating a block and spilling a block that already has a snapshot keep the number of slots. */
  lemma SlotsConserved(c: Config, s: Sys, a: Action)
    requires Inv(c, s) && Enabled(c, s, a)
    requires a.FinishStep?
      || (a.PlanStep? && forall v :: InsertVictim(c, s.shared.table) == Some(v) && v in s.shared.table.blocks ==>
            s.shared.table.blocks[v].snapshot)
    ensures TempFileCount(Next(c, s, a).0.shared) == TempFileCount(s.shared)
  {
    CellsInInv(c, s);
    hide Inv, Next, CellsOk, CellInv, CanMove, MovedCell, MoveOf, CellOf, HoldsTempSlot, TempSlots, TempFileCount;
    var s' := Next(c, s, a).0;
    CellsKept(c, s, a);
    TempCountIsSlots(c, s);
    TempCountIsSlots(c, s');
    forall b: nat ensures b in TempSlots(s'.shared) <==> b in TempSlots(s.shared) {
      NextMoves(c, s, a, b);
      ConservingMove(c, s, a, b);
      MoveTempSlot(c, b, CellOf(s, b), MoveOf(c, s, a, b));
      SlotHeld(s, b);
      SlotHeld(s', b);
    }
    assert TempSlots(s'.shared) == TempSlots(s.shared);
  }

  lemma ConservingMove(c: Config, s: Sys, a: Action, b: nat)
    requires Enabled(c, s, a)
    requires a.FinishStep?
      || (a.PlanStep? && forall v :: InsertVictim(c, s.shared.table) == Some(v) && v in s.shared.table.blocks ==>
            s.shared.table.blocks[v].snapshot)
    ensures var m := MoveOf(c, s, a, b);
      !m.EndFlush? && m != TakeSnapshot && (m.Spill? ==> HoldsTempSlot(CellOf(s, b)))
  {
    hide Least, FlushableBlocks, SnapshotCandidates, TempFileCount, InsertVictim;
  }

  lemma SlotWaitIsFull(c: Config, s: Sys, op: Op, w: Temp.WriteOutcome)
    requires Inv(c, s) && OpOk(c, op)
    requires PlanOp(c, s.shared, op, w).0 == Wait(DirtyEvictionTempSlot)
    ensures TempFileCount(s.shared) == c.tempMaxFiles
  {
    PlanResult(c, s, op, w);
    MissHasForm(c, s, op, w);
    var v := InsertVictim(c, s.shared.table);
    if v.Some? {
      VictimFacts(c, s, v.value);
      SlotHasForm(c, s.shared, w, v.value);
    }
  }

  lemma HeldSlotIsFlushable(c: Config, s: Sys, b: nat)
    requires Inv(c, s) && b in TempSlots(s.shared) && s.shared.active == {}
    ensures SelectExistingTempFlush(c, s.shared).0.FlushTemp?
  {
    assert CellInv(c, b, CellOf(s, b));
    ScanHasForm(c, s, Temp.Refused);
    if b in s.shared.spilled {
      assert b in s.shared.spilled.Keys - s.shared.active;
    } else {
      assert b in FlushableBlocks(s.shared.table, s.shared.active);
    }
  }

  /** A thread told to wait for a temp slot never waits for nothing: some temp file is being handled, or is there
      for the worker's next pass to flush. */
  lemma SlotWaitHasProgress(c: Config, s: Sys, op: Op, w: Temp.WriteOutcome)
    requires Inv(c, s) && OpOk(c, op)
    requires PlanOp(c, s.shared, op, w).0 == Wait(DirtyEvictionTempSlot)
    ensures s.shared.active != {} || SelectExistingTempFlush(c, s.shared).0.FlushTemp?
  {
    SlotWaitIsFull(c, s, op, w);
    TempCountIsSlots(c, s);
    assert TempSlots(s.shared) != {};
    var b :| b in TempSlots(s.shared);
    if s.shared.active == {} {
      HeldSlotIsFlushable(c, s, b);
    }
  }

  /** While a thread waits for a temp slot the worker takes none: its steps keep the slots in use, but for a
      completed flush, which gives up exactly one. */
  lemma WorkerLeavesSlotsToWaiters(c: Config, s: Sys, a: Action, t: nat)
    requires Inv(c, s) && Enabled(c, s, a) && Actor(a).None? && HoldsFlag(s, t)
    ensures TempFileCount(Next(c, s, a).0.shared)
         == TempFileCount(s.shared) - (if a == FinishFlushStep && s.worker.flushed then 1 else 0)
  {
    hide TempSlots, TempFileCount;
    InvGives(c, s, 0);
    WaiterCounted(c, s, t);
    CellsInInv(c, s);
    hide Inv, Next, HoldsFlag, CellsOk;
    var s' := Next(c, s, a).0;
    CellsKept(c, s, a);
    TempCountIsSlots(c, s);
    TempCountIsSlots(c, s');
    forall b: nat ensures b in TempSlots(s'.shared) <==>
      b in TempSlots(s.shared) && !(a == FinishFlushStep && s.worker.flushed && b == s.worker.block)
    {
      WaitingSlot(c, s, a, b);
    }
    if a == FinishFlushStep && s.worker.flushed {
      WaitingSlot(c, s, a, s.worker.block);
      assert TempSlots(s'.shared) == TempSlots(s.shared) - {s.worker.block};
    } else {
      assert TempSlots(s'.shared) == TempSlots(s.shared);
    }
  }

  lemma CellsInInv(c: Config, s: Sys)
    requires Inv(c, s)
    ensures CellsOk(c, s)
  {
  }

  /** The worker's moves on a block while a thread waits for a slot. */
  lemma WaitingMoves(c: Config, s: Sys, a: Action, b: nat)
    requires Enabled(c, s, a) && Actor(a).None? && s.shared.waiters > 0
    ensures var m := MoveOf(c, s, a, b);
      && !m.Spill? && m != TakeSnapshot
      && (m.EndFlush? <==> a == FinishFlushStep && b == s.worker.block)
      && (m.EndFlush? ==> m.flushed == s.worker.flushed)
  {
    hide Least, FlushableBlocks, SnapshotCandidates, TempFileCount;
  }

  lemma WaitingSlot(c: Config, s: Sys, a: Action, b: nat)
    requires Inv(c, s) && Enabled(c, s, a) && Actor(a).None? && s.shared.waiters > 0
    ensures var ended := a == FinishFlushStep && s.worker.flushed && b == s.worker.block;
      && (b in TempSlots(Next(c, s, a).0.shared) <==> b in TempSlots(s.shared) && !ended)
      && (ended ==> b in TempSlots(s.shared))
  {
    hide Inv, Next, MoveOf, CellInv, CanMove, MovedCell, TempSlots, HoldsTempSlot, CellOf;
    NextMoves(c, s, a, b);
    WaitingMoves(c, s, a, b);
    MoveTempSlot(c, b, CellOf(s, b), MoveOf(c, s, a, b));
    SlotHeld(s, b);
    SlotHeld(Next(c, s, a).0, b);
  }

  /** What a generic wait waits for: a claimed temp file or a placeholder. */
  lemma GenericWaitCause(c: Config, s: Sys, op: Op, w: Temp.WriteOutcome) returns (b: nat)
    requires Inv(c, s) && OpOk(c, op)
    requires PlanOp(c, s.shared, op, w).0 == Wait(Generic)
    ensures b in s.shared.active || (b in s.shared.table.blocks && IsLoading(s.shared.table.blocks[b]))
  {
    hide Next, RecordHit, PatchReady, Fetches, HoldsFlag;
    b := op.block;
    InvGives(c, s, b);
    if b in s.shared.table.blocks {
      if s.shared.table.blocks[b].load == Ready {
        HitHasForm(c, s.shared, op);
      }
    } else if !(b in s.shared.spilled && b in s.shared.active) {
      MissHasForm(c, s, op, w);
      b := InsertVictim(c, s.shared.table).value;
      VictimFacts(c, s, b);
      SlotHasForm(c, s.shared, w, b);
    }
  }

  /** A thread told to wait for another reason does not wait for nothing either: the worker is in the middle of a
      flush, or another thread in the middle of a fetch. */
  lemma WaitHasCause(c: Config, s: Sys, t: nat, w: Temp.WriteOutcome)
    requires Inv(c, s) && ThreadOf(s, t).Running?
    requires PlanOp(c, s.shared, ThreadOf(s, t).op, w).0 == Wait(Generic)
    ensures WorkerBlock(s.worker).Some? || exists u, b :: u != t && Fetches(s, u, b)
  {
    assert ThreadInv(c, s, t);
    var b := GenericWaitCause(c, s, ThreadOf(s, t).op, w);
    hide PlanOp;
    ClaimHasOneOwner(c, s, b);
    if b in s.shared.active && WorkerBlock(s.worker).None? {
      var u :| Rehydrates(s, u, b);
      assert u != t && Fetches(s, u, b);
    } else if b !in s.shared.active {
      var u :| Fetches(s, u, b);
      assert u != t;
    }
  }
}
