/**
  The queues of the whole cache: every step of `CacheSystem` acts on the resident table by table operations, so
  what `QueueOrder` proves about runs of these holds in every reachable state of the cache.
*/
module CacheQueues {
  import opened Common
  import opened Resident
  import opened CacheModel
  import opened CacheSystem
  import opened CacheCells
  import opened CacheInvariant
  import opened CacheSteps
  import opened CacheSafety
  import Q = QueueOrder
  import Temp

  /** The victim is dropped, or spilled after its snapshot was written if it was dirty. */
  function VictimOps(v: nat, m: Move): seq<Q.TableOp> {
    match m
    case DropClean => [Q.Remove(v)]
    case Spill(true) => [Q.Mark(v)] + [Q.Remove(v)]
    case Spill(false) => [Q.Remove(v)]
    case _ => []
  }

  /** Making room. */
  function SlotOps(c: Config, s: Shared, w: Temp.WriteOutcome): seq<Q.TableOp> {
    match InsertVictim(c, s.table)
    case None => []
    case Some(v) => VictimOps(v, SlotMove(c, s, w, v))
  }

  /** The placeholder of a miss, with the patch of a write. */
  function PlaceOps(c: Config, op: Op, source: LoadState): seq<Q.TableOp> {
    [Q.Insert(op.block, c.blockSize, source)]
    + if op.WriteOp? then [Q.Enqueue(op.block, OpRange(op), op.data)] else []
  }

  function PlanOps(c: Config, s: Shared, op: Op, w: Temp.WriteOutcome): seq<Q.TableOp> {
    var b := op.block;
    if b in s.table.blocks then
      if IsLoading(s.table.blocks[b]) then []
      else (if op.WriteOp? then [Q.Patch(b, OpRange(op), op.data)] else []) + [Q.Hit(b)]
    else if b in s.spilled && b in s.active then []
    else
      var source := if b in s.spilled then Rehydrating else LoadingRemote;
      SlotOps(c, s, w) + if PrepareSlot(c, s, w).0 == Reserved then PlaceOps(c, op, source) else []
  }

  function FetchOps(op: Op, source: LoadState, got: Option<Block>): seq<Q.TableOp> {
    match got
    case None => [Q.Abort(op.block)]
    case Some(data) => [Q.Finish(op.block, data)] + if source == Rehydrating then [Q.Attach(op.block)] else []
  }

  function ScanOps(c: Config, s: Shared, w: Temp.WriteOutcome): seq<Q.TableOp> {
    match Least(SnapshotCandidates(s.table))
    case Some(b) => if ScanMove(c, s, w, b) == TakeSnapshot then [Q.Mark(b)] else []
    case None => []
  }

  /** The table operations of a step, in order. */
  function OpsOf(c: Config, s: Sys, a: Action): seq<Q.TableOp>
    requires Enabled(c, s, a)
  {
    match a
    case PlanStep(t, w) => if s.shared.stop then [] else PlanOps(c, s.shared, ThreadOf(s, t).op, w)
    case FinishStep(t) =>
      var Fetched(op, source, got) := ThreadOf(s, t);
      FetchOps(op, source, got)
    case ScanStep(w) => ScanOps(c, s.shared, w)
    case FinishFlushStep =>
      if s.worker.flushed && s.worker.block !in s.shared.spilled then [Q.Clear(s.worker.block)] else []
    case _ => []
  }

  // ---------------------------------------------------------------- one step

  lemma RunOne(c: Config, t: Table, op: Q.TableOp)
    ensures Q.Run(c, t, [op]) == Q.Stepped(c, t, op)
  {
    assert Q.Run(c, Q.Stepped(c, t, op), []) == Q.Stepped(c, t, op);
  }

  lemma RunTwo(c: Config, t: Table, x: Q.TableOp, y: Q.TableOp)
    ensures Q.Run(c, t, [x] + [y]) == Q.Stepped(c, Q.Stepped(c, t, x), y)
  {
    hide Q.Stepped;
    assert ([x] + [y])[1..] == [y];
    RunOne(c, Q.Stepped(c, t, x), y);
  }

  lemma {:induction false} RunAppend(c: Config, t: Table, ops: seq<Q.TableOp>, rest: seq<Q.TableOp>)
    ensures Q.Run(c, t, ops + rest) == Q.Run(c, Q.Run(c, t, ops), rest)
    decreases |ops|
  {
    hide Q.Stepped;
    if ops == [] {
      assert ops + rest == rest;
    } else {
      assert (ops + rest)[0] == ops[0] && (ops + rest)[1..] == ops[1..] + rest;
      RunAppend(c, Q.Stepped(c, t, ops[0]), ops[1..], rest);
    }
  }

  lemma VictimIsOps(c: Config, s: Shared, v: nat, m: Move)
    requires v in s.table.blocks && (m.Spill? ==> s.table.blocks[v].load == Ready)
    ensures SlotForm(c, s, v, m).1.table == Q.Run(c, s.table, VictimOps(v, m))
  {
    hide Evict, TempFileCount;
    RunOne(c, s.table, Q.Remove(v));
    if m == Spill(true) {
      RunTwo(c, s.table, Q.Mark(v), Q.Remove(v));
      MarkThenEvict(s.table, v);
    }
  }

  lemma SlotIsOps(c: Config, s: Sys, w: Temp.WriteOutcome)
    requires Inv(c, s)
    ensures PrepareSlot(c, s.shared, w).1.table == Q.Run(c, s.shared.table, SlotOps(c, s.shared, w))
  {
    var victim := InsertVictim(c, s.shared.table);
    if victim.Some? {
      VictimFacts(c, s, victim.value);
      SlotHasForm(c, s.shared, w, victim.value);
      hide Inv, DisposeVictim, SlotForm, VictimOps, Q.Run;
      VictimIsOps(c, s.shared, victim.value, SlotMove(c, s.shared, w, victim.value));
    }
  }

  lemma PlaceIsOps(c: Config, s: Shared, op: Op, source: LoadState)
    requires op.block !in s.table.blocks && 0 < c.blockSize && |s.table.fifo| < c.fifoCapacity
    requires OpOk(c, op) && source != Ready
    ensures WithPlaceholder(c, s, op, source).table == Q.Run(c, s.table, PlaceOps(c, op, source))
  {
    InsertHasForm(c, s, op, c.blockSize, source);
    var insert := Q.Insert(op.block, c.blockSize, source);
    if op.WriteOp? {
      RunTwo(c, s.table, insert, Q.Enqueue(op.block, OpRange(op), op.data));
    } else {
      RunOne(c, s.table, insert);
      assert [insert] + [] == [insert];
    }
  }

  lemma MissIsOps(c: Config, s: Sys, op: Op, w: Temp.WriteOutcome)
    requires Inv(c, s) && OpOk(c, op) && op.block !in s.shared.table.blocks
    requires !(op.block in s.shared.spilled && op.block in s.shared.active)
    ensures PrepareMiss(c, s.shared, op, w).1.table == Q.Run(c, s.shared.table, PlanOps(c, s.shared, op, w))
  {
    InvGives(c, s, op.block);
    hide Inv, PrepareSlot, PrepareMiss, SlotOps, PlaceOps, Q.Run;
    MissHasForm(c, s, op, w);
    SlotIsOps(c, s, w);
    SlotResult(c, s, w);
    var (slot, sh) := PrepareSlot(c, s.shared, w);
    var slotOps := SlotOps(c, s.shared, w);
    if slot == Reserved {
      var source := if op.block in s.shared.spilled then Rehydrating else LoadingRemote;
      PlaceIsOps(c, sh, op, source);
      RunAppend(c, s.shared.table, slotOps, PlaceOps(c, op, source));
    } else {
      assert slotOps + [] == slotOps;
    }
  }

  lemma HitIsOps(c: Config, s: Shared, op: Op)
    requires ConfigOk(c) && Queued(c, s.table) && OpOk(c, op)
    requires op.block in s.table.blocks && s.table.blocks[op.block].load == Ready
    requires |s.table.blocks[op.block].data| == c.blockSize
    ensures Hit(c, s, op).1.table
      == Q.Run(c, s.table, (if op.WriteOp? then [Q.Patch(op.block, OpRange(op), op.data)] else []) + [Q.Hit(op.block)])
  {
    var t := s.table;
    if op.ReadOp? {
      hide RecordHit, Queued;
      RecordHitHasForm(c, t, op.block);
      RunOne(c, t, Q.Hit(op.block));
      assert [] + [Q.Hit(op.block)] == [Q.Hit(op.block)];
    } else {
      hide RecordHit, Queued, PatchReady;
      PatchHasForm(t, op);
      PatchKeepsVictim(c, t, op);
      var patched := PatchReady(t, op.block, OpRange(op), op.data).value;
      RecordHitHasForm(c, patched, op.block);
      RunTwo(c, t, Q.Patch(op.block, OpRange(op), op.data), Q.Hit(op.block));
    }
  }

  lemma PlanIsOps(c: Config, s: Sys, op: Op, w: Temp.WriteOutcome)
    requires Inv(c, s) && OpOk(c, op)
    ensures PlanOp(c, s.shared, op, w).1.table == Q.Run(c, s.shared.table, PlanOps(c, s.shared, op, w))
  {
    InvGives(c, s, op.block);
    if op.block !in s.shared.table.blocks {
      if !(op.block in s.shared.spilled && op.block in s.shared.active) {
        hide Inv, PrepareMiss, PlanOps, Q.Run;
        MissIsOps(c, s, op, w);
      }
    } else if s.shared.table.blocks[op.block].load == Ready {
      HitIsOps(c, s.shared, op);
    }
  }

  lemma FetchIsOps(c: Config, s: Shared, op: Op, source: LoadState, got: Option<Block>)
    requires Arrived(c, s, op, source, got)
    ensures FinishFetch(c, s, op, source, got).1.table == Q.Run(c, s.table, FetchOps(op, source, got))
  {
    var t := s.table;
    match got
    case None =>
      if source == Rehydrating { TempFetchHasForm(c, s, op, got); } else { RemoteFetchHasForm(c, s, op, got); }
      RunOne(c, t, Q.Abort(op.block));
    case Some(data) =>
      FinishLoadHasForm(c, t, op, data);
      var finish := Q.Finish(op.block, data);
      if source == Rehydrating {
        TempFetchHasForm(c, s, op, got);
        RunTwo(c, t, finish, Q.Attach(op.block));
      } else {
        RemoteFetchHasForm(c, s, op, got);
        RunOne(c, t, finish);
        assert [finish] + [] == [finish];
      }
  }

  lemma ScanIsOps(c: Config, s: Sys, w: Temp.WriteOutcome)
    requires Inv(c, s) && s.worker == Resting
    ensures ScanNext(c, s, w).0.shared.table == Q.Run(c, s.shared.table, ScanOps(c, s.shared, w))
  {
    hide Inv, ScanNext, CreateSnapshot, TempFileCount, FlushableBlocks;
    ScanNextForm(c, s, w);
    SnapshotHasForm(c, s.shared, w);
    var candidate := Least(SnapshotCandidates(s.shared.table));
    if candidate.Some? {
      RunOne(c, s.shared.table, Q.Mark(candidate.value));
    }
  }

  lemma FlushIsOps(c: Config, s: Sys)
    requires Inv(c, s) && s.worker.FlushFinish?
    ensures Next(c, s, FinishFlushStep).0.shared.table == Q.Run(c, s.shared.table, OpsOf(c, s, FinishFlushStep))
  {
    InvGives(c, s, s.worker.block);
    EndFlushHasForm(c, s);
    hide Inv, Next;
    RunOne(c, s.shared.table, Q.Clear(s.worker.block));
  }

  /** Every step acts on the table by its operations. */
  lemma StepIsOps(c: Config, s: Sys, a: Action)
    requires Inv(c, s) && Enabled(c, s, a)
    ensures Next(c, s, a).0.shared.table == Q.Run(c, s.shared.table, OpsOf(c, s, a))
  {
    match a
    case PlanStep(t, w) => PlanStepIsOps(c, s, t, w);
    case FinishStep(t) => FinishStepIsOps(c, s, t);
    case ScanStep(w) => ScanIsOps(c, s, w);
    case FinishFlushStep => FlushIsOps(c, s);
    case _ => hide Inv;
  }

  lemma PlanStepIsOps(c: Config, s: Sys, t: nat, w: Temp.WriteOutcome)
    requires Inv(c, s) && ThreadOf(s, t).Running?
    ensures Next(c, s, PlanStep(t, w)).0.shared.table == Q.Run(c, s.shared.table, OpsOf(c, s, PlanStep(t, w)))
  {
    assert ThreadInv(c, s, t);
    hide Inv, Next, PlanOp, PlanOps, Waiters;
    if s.shared.stop {
      StopStepForm(c, s, t, w);
    } else {
      PlanStepForm(c, s, t, w);
      PlanIsOps(c, s, ThreadOf(s, t).op, w);
    }
  }

  lemma FinishStepIsOps(c: Config, s: Sys, t: nat)
    requires Inv(c, s) && ThreadOf(s, t).Fetched?
    ensures Next(c, s, FinishStep(t)).0.shared.table == Q.Run(c, s.shared.table, OpsOf(c, s, FinishStep(t)))
  {
    hide Inv, Next, FinishFetch, FetchOps, Arrived, Waiters, Q.Run;
    FinishStepForm(c, s, t);
    var Fetched(op, source, got) := ThreadOf(s, t);
    FetchIsOps(c, s.shared, op, source, got);
  }

  // ---------------------------------------------------------------- every run

  /** The table operations of a run, in order. */
  ghost function RunOps(c: Config, s: Sys, actions: seq<Action>): seq<Q.TableOp>
    requires ValidRun(c, s, actions)
    decreases |actions|
  {
    if actions == [] then []
    else OpsOf(c, s, actions[0]) + RunOps(c, Next(c, s, actions[0]).0, actions[1..])
  }

  lemma {:induction false} RunIsOps(c: Config, s: Sys, actions: seq<Action>)
    requires Inv(c, s) && ValidRun(c, s, actions)
    ensures After(c, s, actions).shared.table == Q.Run(c, s.shared.table, RunOps(c, s, actions))
    decreases |actions|
  {
    hide Inv, Next, Enabled, OpsOf, Q.Stepped;
    if actions != [] {
      var s' := Next(c, s, actions[0]).0;
      NextKeepsInv(c, s, actions[0]);
      StepIsOps(c, s, actions[0]);
      RunIsOps(c, s', actions[1..]);
      RunAppend(c, s.shared.table, OpsOf(c, s, actions[0]), RunOps(c, s', actions[1..]));
    }
  }

  /** In every reachable state both queues are in the order of the arrivals and hits of the run that led there. */
  lemma ReachableOrder(c: Config, s0: Sys, actions: seq<Action>)
    requires Initial(c, s0) && ValidRun(c, s0, actions)
    ensures var ops := RunOps(c, s0, actions);
      && After(c, s0, actions).shared.table == Q.Run(c, EMPTY_TABLE, ops)
      && Q.Ordered(After(c, s0, actions).shared.table, Q.ClockAfter(c, EMPTY_TABLE, Q.START, ops))
  {
    InitialInv(c, s0);
    RunIsOps(c, s0, actions);
    hide Inv, After, RunOps, Q.Run, Q.ClockAfter;
    Q.RunKeepsOrdered(c, EMPTY_TABLE, Q.START, RunOps(c, s0, actions));
  }

  /** The victim of an insertion is, in every reachable state, the block of the full FIFO queue that came in first. */
  lemma ReachableVictimIsOldest(c: Config, s0: Sys, actions: seq<Action>, v: nat)
    requires Initial(c, s0) && ValidRun(c, s0, actions)
    requires InsertVictim(c, After(c, s0, actions).shared.table) == Some(v)
    ensures var t := After(c, s0, actions).shared.table;
      var k := Q.ClockAfter(c, EMPTY_TABLE, Q.START, RunOps(c, s0, actions));
      && v in t.fifo && |t.fifo| == c.fifoCapacity
      && forall b :: b in t.fifo && b != v ==> v in k.inserted && b in k.inserted && k.inserted[v] < k.inserted[b]
  {
    ReachableOrder(c, s0, actions);
    hide After, RunOps, Q.Run, Q.ClockAfter;
    Q.InsertVictimIsOldest(c, RunOps(c, s0, actions), v);
  }
}
