/**
  Every step keeps the invariant, so it holds in every reachable state of every run; and no step of any run
  reports an internal error, trips an assertion or makes the worker give up.
*/
module CacheSafety {
  import opened Common
  import opened Resident
  import opened CacheModel
  import opened CacheSystem
  import opened CacheCells
  import opened CacheInvariant
  import opened CacheSteps
  import Temp

  // ---------------------------------------------------------------- the waiter count

  lemma WaiterCounted(c: Config, s: Sys, t: nat)
    requires s.shared.waiters == |Waiters(s)| && HoldsFlag(s, t)
    ensures s.shared.waiters > 0
  {
    assert t in Waiters(s);
  }

  lemma FlagKnown(s: Sys, t: nat)
    ensures t in Waiters(s) <==> HoldsFlag(s, t)
  {
  }

  /** Changing one thread changes the set of flag holders by at most that thread. */
  lemma WaitersAfter(s: Sys, s': Sys, t: nat)
    requires forall u: nat :: u != t ==> ThreadOf(s', u) == ThreadOf(s, u)
    ensures |Waiters(s')| == |Waiters(s)| + (if HoldsFlag(s', t) then 1 else 0) - (if HoldsFlag(s, t) then 1 else 0)
  {
    var w, w' := Waiters(s), Waiters(s');
    forall u: nat | u != t ensures u in w <==> u in w' {
      FlagKnown(s, u);
      FlagKnown(s', u);
    }
    FlagKnown(s, t);
    FlagKnown(s', t);
    SetSizeButOne(w, w', t);
  }

  lemma SetSizeButOne(w: set<nat>, w': set<nat>, t: nat)
    requires forall u: nat :: u != t ==> (u in w <==> u in w')
    ensures |w'| == |w| + (if t in w' then 1 else 0) - (if t in w then 1 else 0)
  {
    assert w - {t} == w' - {t};
    assert t in w ==> w == (w - {t}) + {t};
    assert t in w' ==> w' == (w' - {t}) + {t};
    assert t !in w ==> w == w - {t};
    assert t !in w' ==> w' == w' - {t};
  }

  // ---------------------------------------------------------------- the shape of a planning step

  /** The thread's next place after a plan. */
  function NextPlace(op: Op, plan: Plan): Thread {
    match plan
    case Done(_) => Idle
    case Failed(_) => Idle
    case Fetch(source) => Fetching(op, source)
    case Wait(reason) => Running(op, reason == DirtyEvictionTempSlot)
  }

  function PlanEvent(op: Op, plan: Plan): Event {
    match plan
    case Done(bytes) => DoneEvent(op, bytes)
    case Failed(f) => OpFailed(op, f)
    case _ => Silent
  }

  lemma PlanNextForm(c: Config, s: Sys, t: nat, op: Op, waiting: bool, w: Temp.WriteOutcome)
    requires !s.shared.stop && (waiting ==> PlanOp(c, s.shared, op, w).1.waiters > 0)
    ensures var (s', event) := PlanNext(c, s, t, op, waiting, w);
      var (plan, sh) := PlanOp(c, s.shared, op, w);
      && s' == s.(shared := sh.(waiters := s'.shared.waiters), threads := s.threads[t := NextPlace(op, plan)])
      && event == PlanEvent(op, plan)
      && s'.shared.waiters
           == sh.waiters + (if plan == Wait(DirtyEvictionTempSlot) then 1 else 0) - (if waiting then 1 else 0)
  {
    hide PlanOp;
  }

  /** A planning turn is `PlanOp` on the shared state, then the waiter bookkeeping, then the thread's next place. */
  lemma PlanStepForm(c: Config, s: Sys, t: nat, w: Temp.WriteOutcome)
    requires Inv(c, s) && ThreadOf(s, t).Running? && !s.shared.stop
    ensures var (s', event) := Next(c, s, PlanStep(t, w));
      var op := ThreadOf(s, t).op;
      var (plan, sh) := PlanOp(c, s.shared, op, w);
      && s' == s.(shared := sh.(waiters := s'.shared.waiters), threads := s.threads[t := NextPlace(op, plan)])
      && event == PlanEvent(op, plan)
      && s'.shared.waiters == |Waiters(s')|
  {
    assert ThreadInv(c, s, t);
    var Running(op, waiting) := ThreadOf(s, t);
    PlanResult(c, s, op, w);
    if waiting {
      WaiterCounted(c, s, t);
    }
    PlanNextForm(c, s, t, op, waiting, w);
    WaitersAfter(s, Next(c, s, PlanStep(t, w)).0, t);
  }

  lemma StopStepForm(c: Config, s: Sys, t: nat, w: Temp.WriteOutcome)
    requires Inv(c, s) && ThreadOf(s, t).Running? && s.shared.stop
    ensures var (s', event) := Next(c, s, PlanStep(t, w));
      && s' == s.(shared := s.shared.(waiters := s'.shared.waiters), threads := s.threads[t := Idle])
      && s'.shared.waiters == |Waiters(s')|
      && event == OpFailed(ThreadOf(s, t).op, Stopped)
  {
    if ThreadOf(s, t).waiting {
      WaiterCounted(c, s, t);
    }
    WaitersAfter(s, Next(c, s, PlanStep(t, w)).0, t);
  }

  lemma FinishStepForm(c: Config, s: Sys, t: nat)
    requires Inv(c, s) && ThreadOf(s, t).Fetched?
    ensures var (s', event) := Next(c, s, FinishStep(t));
      var Fetched(op, source, got) := ThreadOf(s, t);
      && Arrived(c, s.shared, op, source, got)
      && s'.shared == FinishFetch(c, s.shared, op, source, got).1
      && s'.remote == s.remote && s'.worker == s.worker && s'.threads == s.threads[t := Idle]
      && Queued(c, s'.shared.table) && s'.shared.waiters == |Waiters(s')|
      && event == (if got.None? then OpFailed(op, if source == Rehydrating then TempIo else RemoteIo)
                   else DoneEvent(op, BytesFor(op, LoadedEntry(s.shared.table.blocks[op.block], op, got.value, false).data)))
  {
    hide Inv, CellInv, Queued, Arrived, LoadedEntry, FinishTempFetch, FinishRemoteFetch, Waiters;
    var Fetched(op, source, got) := ThreadOf(s, t);
    InvGives(c, s, op.block);
    FetchedArrived(c, s, t);
    FinishResult(c, s.shared, op, source, got);
    WaitersAfter(s, Next(c, s, FinishStep(t)).0, t);
  }

  // ---------------------------------------------------------------- every step moves every cell

  lemma SameCells(s: Sys, s': Sys, b: nat)
    requires s'.shared.table.blocks == s.shared.table.blocks && s'.shared.spilled == s.shared.spilled
    requires s'.shared.active == s.shared.active && s'.shared.temp == s.shared.temp
    requires s'.remote == s.remote && s'.worker == s.worker
    ensures CellOf(s', b) == CellOf(s, b)
  {
  }

  lemma PlanStepMoves(c: Config, s: Sys, t: nat, w: Temp.WriteOutcome, b: nat)
    requires Inv(c, s) && ThreadOf(s, t).Running?
    ensures Moves(c, s, Next(c, s, PlanStep(t, w)).0, b, MoveOf(c, s, PlanStep(t, w), b))
  {
    var s' := Next(c, s, PlanStep(t, w)).0;
    assert CellInv(c, b, CellOf(s, b));
    assert ThreadInv(c, s, t);
    if s.shared.stop {
      StopStepForm(c, s, t, w);
      SameCells(s, s', b);
    } else {
      var op := ThreadOf(s, t).op;
      PlanStepForm(c, s, t, w);
      PlanMoves(c, s, op, w, b);
      SameCells(s.(shared := PlanOp(c, s.shared, op, w).1), s', b);
    }
  }

  lemma FinishStepMoves(c: Config, s: Sys, t: nat, b: nat)
    requires Inv(c, s) && ThreadOf(s, t).Fetched?
    ensures Moves(c, s, Next(c, s, FinishStep(t)).0, b, MoveOf(c, s, FinishStep(t), b))
  {
    var Fetched(op, source, got) := ThreadOf(s, t);
    FinishStepForm(c, s, t);
    FinishMoves(c, s, t, b);
    SameCells(s.(shared := FinishFetch(c, s.shared, op, source, got).1), Next(c, s, FinishStep(t)).0, b);
  }

  /** Reading a file of exactly one block gives the whole file. */
  lemma ReadsWhole(c: Config, files: map<nat, Block>, b: nat, succeeds: bool)
    requires b in files ==> |files[b]| == c.blockSize
    ensures ReadFile(c, files, b, succeeds) == if succeeds && b in files then Some(files[b]) else None
  {
    if b in files {
      assert files[b][..c.blockSize] == files[b];
    }
  }

  lemma ReadTempMoves(c: Config, s: Sys, succeeds: bool, b: nat)
    requires Inv(c, s) && s.worker.FlushRead?
    ensures Moves(c, s, Next(c, s, ReadTempStep(succeeds)).0, b, MoveOf(c, s, ReadTempStep(succeeds), b))
  {
    hide Inv, ConfigOk, Queued, Waiters, ThreadOf;
    InvGives(c, s, b);
    InvGives(c, s, s.worker.block);
    ReadsWhole(c, s.shared.temp, s.worker.block, succeeds);
  }

  lemma PartialWriteMoves(c: Config, s: Sys, garbage: Block, b: nat)
    requires Inv(c, s) && Enabled(c, s, PartialWriteStep(garbage))
    ensures Moves(c, s, Next(c, s, PartialWriteStep(garbage)).0, b, MoveOf(c, s, PartialWriteStep(garbage), b))
  {
    hide Inv, ConfigOk, Queued, Waiters, ThreadOf;
    InvGives(c, s, b);
  }

  lemma WriteRemoteMoves(c: Config, s: Sys, succeeds: bool, b: nat)
    requires Inv(c, s) && s.worker.FlushWrite?
    ensures Moves(c, s, Next(c, s, WriteRemoteStep(succeeds)).0, b, MoveOf(c, s, WriteRemoteStep(succeeds), b))
  {
    hide Inv, ConfigOk, Queued, Waiters, ThreadOf;
    InvGives(c, s, b);
  }

  lemma RemoveTempMoves(c: Config, s: Sys, succeeds: bool, b: nat)
    requires Inv(c, s) && s.worker.FlushRemove?
    ensures Moves(c, s, Next(c, s, RemoveTempStep(succeeds)).0, b, MoveOf(c, s, RemoveTempStep(succeeds), b))
  {
    hide Inv, ConfigOk, Queued, Waiters, ThreadOf;
    InvGives(c, s, b);
  }

  /** Each step of the system acts on each block by exactly the move `MoveOf` names. */
  lemma NextMoves(c: Config, s: Sys, a: Action, b: nat)
    requires Inv(c, s) && Enabled(c, s, a)
    ensures Moves(c, s, Next(c, s, a).0, b, MoveOf(c, s, a, b))
  {
    match a
    case PlanStep(t, w) => PlanStepMoves(c, s, t, w, b);
    case FinishStep(t) => FinishStepMoves(c, s, t, b);
    case ScanStep(w) => ScanMoves(c, s, w, b);
    case FinishFlushStep => EndFlushMoves(c, s, b);
    case ReadTempStep(succeeds) => ReadTempMoves(c, s, succeeds, b);
    case PartialWriteStep(garbage) => PartialWriteMoves(c, s, garbage, b);
    case WriteRemoteStep(succeeds) => WriteRemoteMoves(c, s, succeeds, b);
    case RemoveTempStep(succeeds) => RemoveTempMoves(c, s, succeeds, b);
    case _ =>
      assert CellInv(c, b, CellOf(s, b));
      SameCells(s, Next(c, s, a).0.(worker := s.worker), b);
  }

  // ---------------------------------------------------------------- threads

  /** The thread an action belongs to. */
  function Actor(a: Action): Option<nat> {
    match a
    case Begin(t, _) => Some(t)
    case PlanStep(t, _) => Some(t)
    case FetchStep(t, _) => Some(t)
    case FinishStep(t) => Some(t)
    case _ => None
  }

  lemma OthersStand(c: Config, s: Sys, a: Action, t: nat)
    requires Enabled(c, s, a) && Actor(a) != Some(t)
    ensures ThreadOf(Next(c, s, a).0, t) == ThreadOf(s, t)
  {
    hide PlanOp, FinishTempFetch, FinishRemoteFetch, WorkerScan, FinishFlush, ReleaseWaiter, BeforeWait, ReadFile;
  }

  /** While a block is being fetched, no step but its own fetcher's last one touches its cell. */
  lemma FetchedBlockStays(c: Config, s: Sys, a: Action, b: nat)
    requires Inv(c, s) && Enabled(c, s, a)
    requires b in s.shared.table.blocks && IsLoading(s.shared.table.blocks[b])
    requires a.FinishStep? ==> ThreadOf(s, a.thread).op.block != b
    ensures MoveOf(c, s, a, b) == Stay
  {
    assert CellInv(c, b, CellOf(s, b));
    if a.PlanStep? {
      assert ThreadInv(c, s, a.thread);
    }
  }

  /** A thread that is fetching has its placeholder in the table. */
  lemma FetcherLoads(c: Config, s: Sys, t: nat, b: nat)
    requires Inv(c, s) && Fetches(s, t, b)
    ensures b in s.shared.table.blocks && IsLoading(s.shared.table.blocks[b])
  {
    assert ThreadInv(c, s, t);
  }

  lemma OtherThreadKept(c: Config, s: Sys, a: Action, t: nat)
    requires Inv(c, s) && Enabled(c, s, a) && Actor(a) != Some(t)
    ensures ThreadInv(c, Next(c, s, a).0, t)
  {
    assert ThreadInv(c, s, t);
    OthersStand(c, s, a, t);
    var thread := ThreadOf(s, t);
    if thread.Fetching? || thread.Fetched? {
      var b := thread.op.block;
      assert Fetches(s, t, b);
      if a.FinishStep? && ThreadOf(s, a.thread).op.block == b {
        assert Fetches(s, a.thread, b);
        assert false;
      }
      FetchedBlockStays(c, s, a, b);
      NextMoves(c, s, a, b);
    }
  }

  /** After planning a fetch the placeholder is in the table with the patch of the operation. */
  lemma PlannedFetch(c: Config, s: Sys, t: nat, w: Temp.WriteOutcome)
    requires Inv(c, s) && ThreadOf(s, t).Running? && ThreadOf(Next(c, s, PlanStep(t, w)).0, t).Fetching?
    ensures var s' := Next(c, s, PlanStep(t, w)).0;
      var Fetching(op, source) := ThreadOf(s', t);
      && op == ThreadOf(s, t).op && op.block !in s.shared.table.blocks
      && FetchOk(c, CellOf(s', op.block), op, source)
      && MoveOf(c, s, PlanStep(t, w), op.block) == BeginFetch(op, source)
  {
    assert ThreadInv(c, s, t);
    if s.shared.stop {
      StopStepForm(c, s, t, w);
    } else {
      PlanStepForm(c, s, t, w);
      PlanResult(c, s, ThreadOf(s, t).op, w);
      NextMoves(c, s, PlanStep(t, w), ThreadOf(s, t).op.block);
    }
  }

  lemma FetchStepKept(c: Config, s: Sys, t: nat, succeeds: bool)
    requires Inv(c, s) && ThreadOf(s, t).Fetching?
    ensures ThreadInv(c, Next(c, s, FetchStep(t, succeeds)).0, t)
  {
    assert ThreadInv(c, s, t);
    var Fetching(op, source) := ThreadOf(s, t);
    assert CellInv(c, op.block, CellOf(s, op.block));
    ReadsWhole(c, if source == Rehydrating then s.shared.temp else s.remote, op.block, succeeds);
    SameCells(s, Next(c, s, FetchStep(t, succeeds)).0, op.block);
  }

  lemma ThreadKept(c: Config, s: Sys, a: Action, t: nat)
    requires Inv(c, s) && Enabled(c, s, a)
    ensures ThreadInv(c, Next(c, s, a).0, t)
  {
    if Actor(a) != Some(t) {
      OtherThreadKept(c, s, a, t);
    } else {
      assert ThreadInv(c, s, t);
      match a
      case Begin(_, op) =>
      case PlanStep(_, w) =>
        if ThreadOf(Next(c, s, a).0, t).Fetching? {
          PlannedFetch(c, s, t, w);
        } else if s.shared.stop {
          StopStepForm(c, s, t, w);
        } else {
          PlanStepForm(c, s, t, w);
        }
      case FetchStep(_, succeeds) => FetchStepKept(c, s, t, succeeds);
      case FinishStep(_) => FinishStepForm(c, s, t);
    }
  }

  /** A thread that fetches after a step fetched before, or has just put the placeholder in the table. */
  lemma FetcherBefore(c: Config, s: Sys, a: Action, t: nat, b: nat)
    requires Inv(c, s) && Enabled(c, s, a) && Fetches(Next(c, s, a).0, t, b)
    ensures Fetches(s, t, b) || (b !in s.shared.table.blocks && Actor(a) == Some(t))
  {
    if Actor(a) != Some(t) {
      OthersStand(c, s, a, t);
    } else if a.PlanStep? {
      if s.shared.stop {
        StopStepForm(c, s, t, a.tempWrite);
      } else {
        PlanStepForm(c, s, t, a.tempWrite);
        PlannedFetch(c, s, t, a.tempWrite);
      }
    } else if a.FinishStep? {
      FinishStepForm(c, s, t);
    }
  }

  lemma FetchersStayDistinct(c: Config, s: Sys, a: Action)
    requires Inv(c, s) && Enabled(c, s, a)
    ensures FetchersDistinct(Next(c, s, a).0)
  {
    var s' := Next(c, s, a).0;
    forall t, u, b | Fetches(s', t, b) && Fetches(s', u, b) ensures t == u {
      FetcherBefore(c, s, a, t, b);
      FetcherBefore(c, s, a, u, b);
      if Fetches(s, t, b) {
        FetcherLoads(c, s, t, b);
      }
      if Fetches(s, u, b) {
        FetcherLoads(c, s, u, b);
      }
    }
  }

  /** The fetcher of a block keeps it until its last step, which ends the fetch. */
  lemma FetcherStays(c: Config, s: Sys, a: Action, t: nat, b: nat)
    requires Inv(c, s) && Enabled(c, s, a) && Fetches(s, t, b)
    ensures Fetches(Next(c, s, a).0, t, b) || a == FinishStep(t)
  {
    if Actor(a) != Some(t) {
      OthersStand(c, s, a, t);
    }
  }

  lemma LoadingAfter(c: Config, s: Sys, a: Action, b: nat)
    requires Inv(c, s) && Enabled(c, s, a)
    requires var blocks := Next(c, s, a).0.shared.table.blocks; b in blocks && IsLoading(blocks[b])
    ensures MoveOf(c, s, a, b).BeginFetch? || (b in s.shared.table.blocks && IsLoading(s.shared.table.blocks[b])
      && !(a.FinishStep? && ThreadOf(s, a.thread).op.block == b))
  {
    NextMoves(c, s, a, b);
    MoveLoading(c, b, CellOf(s, b), MoveOf(c, s, a, b));
  }

  lemma BeginningFetcher(c: Config, s: Sys, a: Action, b: nat)
    requires Inv(c, s) && Enabled(c, s, a) && MoveOf(c, s, a, b).BeginFetch?
    ensures a.PlanStep? && Fetches(Next(c, s, a).0, a.thread, b)
  {
    var op := ThreadOf(s, a.thread).op;
    assert ThreadInv(c, s, a.thread);
    PlanStepForm(c, s, a.thread, a.tempWrite);
    PlanResult(c, s, op, a.tempWrite);
  }

  lemma FetchersStillExist(c: Config, s: Sys, a: Action)
    requires Inv(c, s) && Enabled(c, s, a)
    ensures FetchersExist(Next(c, s, a).0)
  {
    var s' := Next(c, s, a).0;
    forall b | b in s'.shared.table.blocks && IsLoading(s'.shared.table.blocks[b]) ensures exists t :: Fetches(s', t, b) {
      LoadingAfter(c, s, a, b);
      if MoveOf(c, s, a, b).BeginFetch? {
        BeginningFetcher(c, s, a, b);
      } else {
        var t :| Fetches(s, t, b);
        FetcherStays(c, s, a, t, b);
      }
    }
  }

  // ---------------------------------------------------------------- temp slots

  /** The blocks that occupy a temp slot. */
  function TempSlots(s: Shared): set<nat> {
    s.spilled.Keys + SnapshotBlocks(s.table)
  }

  lemma SlotHeld(s: Sys, b: nat)
    ensures b in TempSlots(s.shared) <==> HoldsTempSlot(CellOf(s, b))
  {
  }

  /** A block is never spilled and snapshotted at once, so the count is the number of blocks holding a slot. */
  lemma TempCountIsSlots(c: Config, s: Sys)
    requires CellsOk(c, s)
    ensures TempFileCount(s.shared) == |TempSlots(s.shared)|
  {
    forall b | b in s.shared.spilled.Keys ensures b !in SnapshotBlocks(s.shared.table) {
      assert CellInv(c, b, CellOf(s, b));
    }
    assert s.shared.spilled.Keys !! SnapshotBlocks(s.shared.table);
  }

  lemma CellsKept(c: Config, s: Sys, a: Action)
    requires Inv(c, s) && Enabled(c, s, a)
    ensures CellsOk(c, Next(c, s, a).0)
  {
    forall b: nat ensures CellInv(c, b, CellOf(Next(c, s, a).0, b)) {
      NextMoves(c, s, a, b);
      MoveKeepsInv(c, b, CellOf(s, b), MoveOf(c, s, a, b));
    }
  }

  /** The one block that may take a new slot in a step. */
  function SlotTaker(c: Config, s: Sys, a: Action): Option<nat> {
    match a
    case PlanStep(_, _) => InsertVictim(c, s.shared.table)
    case ScanStep(_) => Least(SnapshotCandidates(s.shared.table))
    case _ => None
  }

  /** A step gives at most one block a slot it did not hold, and only while the count is below the limit. */
  lemma SlotTaken(c: Config, s: Sys, a: Action, b: nat)
    requires Inv(c, s) && Enabled(c, s, a)
    requires b in TempSlots(Next(c, s, a).0.shared) && b !in TempSlots(s.shared)
    ensures SlotTaker(c, s, a) == Some(b) && TempFileCount(s.shared) < c.tempMaxFiles
  {
    TakingMove(c, s, a, b);
    hide Inv, Next, CellInv, MovedCell, MoveOf, CanMove, CellOf, HoldsTempSlot, TempSlots, TempFileCount, SlotTaker;
    NextMoves(c, s, a, b);
    MoveTempSlot(c, b, CellOf(s, b), MoveOf(c, s, a, b));
    SlotHeld(s, b);
    SlotHeld(Next(c, s, a).0, b);
  }

  lemma TakingMove(c: Config, s: Sys, a: Action, b: nat)
    requires Enabled(c, s, a)
    ensures var m := MoveOf(c, s, a, b);
      (m.Spill? && !HoldsTempSlot(CellOf(s, b))) || m == TakeSnapshot ==>
        SlotTaker(c, s, a) == Some(b) && TempFileCount(s.shared) < c.tempMaxFiles
  {
    hide Least, FlushableBlocks, SnapshotCandidates, TempFileCount, InsertVictim;
  }

  lemma TempCountKept(c: Config, s: Sys, a: Action)
    requires Inv(c, s) && Enabled(c, s, a)
    ensures TempFileCount(Next(c, s, a).0.shared) <= c.tempMaxFiles
  {
    var s' := Next(c, s, a).0;
    CellsKept(c, s, a);
    TempCountIsSlots(c, s);
    TempCountIsSlots(c, s');
    var was, now := TempSlots(s.shared), TempSlots(s'.shared);
    if now <= was {
      SubsetSize(now, was);
    } else {
      var b :| b in now && b !in was;
      SlotTaken(c, s, a, b);
      forall x | x in now ensures x in was + {b} {
        if x !in was {
          SlotTaken(c, s, a, x);
        }
      }
      SubsetSize(now, was + {b});
    }
  }

  // ---------------------------------------------------------------- the main results

  /** The queues are in shape, the waiter count is exact, and nothing failed internally. */
  ghost predicate StepSound(c: Config, s': Sys, event: Event) {
    && Queued(c, s'.shared.table)
    && s'.shared.waiters == |Waiters(s')|
    && (event.OpFailed? ==> HarmlessFault(event.fault))
    && !event.WorkerFault?
  }

  lemma PlanStepSound(c: Config, s: Sys, t: nat, w: Temp.WriteOutcome)
    requires Inv(c, s) && ThreadOf(s, t).Running?
    ensures StepSound(c, Next(c, s, PlanStep(t, w)).0, Next(c, s, PlanStep(t, w)).1)
  {
    assert ThreadInv(c, s, t);
    if s.shared.stop {
      StopStepForm(c, s, t, w);
    } else {
      PlanStepForm(c, s, t, w);
      PlanResult(c, s, ThreadOf(s, t).op, w);
    }
  }

  lemma SameWaiters(s: Sys, s': Sys)
    requires s'.threads == s.threads
    ensures Waiters(s') == Waiters(s)
  {
    forall t ensures t in Waiters(s') <==> t in Waiters(s) {
      assert ThreadOf(s', t) == ThreadOf(s, t);
    }
  }

  lemma NextSound(c: Config, s: Sys, a: Action)
    requires Inv(c, s) && Enabled(c, s, a)
    ensures StepSound(c, Next(c, s, a).0, Next(c, s, a).1)
  {
    match a
    case PlanStep(t, w) => PlanStepSound(c, s, t, w);
    case FinishStep(t) => FinishStepForm(c, s, t);
    case ScanStep(w) =>
      ScanResult(c, s, w);
      SameWaiters(s, Next(c, s, a).0);
    case FinishFlushStep =>
      EndFlushResult(c, s);
      SameWaiters(s, Next(c, s, a).0);
    case Begin(t, _) => WaitersAfter(s, Next(c, s, a).0, t);
    case FetchStep(t, _) => WaitersAfter(s, Next(c, s, a).0, t);
    case _ => SameWaiters(s, Next(c, s, a).0);
  }

  /** Every step of the protocol keeps the invariant. */
  lemma NextKeepsInv(c: Config, s: Sys, a: Action)
    requires Inv(c, s) && Enabled(c, s, a)
    ensures Inv(c, Next(c, s, a).0)
  {
    CellsKept(c, s, a);
    NextSound(c, s, a);
    forall t ensures ThreadInv(c, Next(c, s, a).0, t) {
      ThreadKept(c, s, a, t);
    }
    FetchersStayDistinct(c, s, a);
    FetchersStillExist(c, s, a);
    TempCountKept(c, s, a);
  }

  lemma InitialInv(c: Config, s: Sys)
    requires Initial(c, s)
    ensures Inv(c, s)
  {
    forall b: nat ensures CellInv(c, b, CellOf(s, b)) {
    }
    assert Waiters(s) == {};
    assert SnapshotBlocks(s.shared.table) == {};
  }

  /** The invariant holds at the end of every run. */
  lemma {:induction false} RunKeepsInv(c: Config, s: Sys, actions: seq<Action>)
    requires Inv(c, s) && ValidRun(c, s, actions)
    ensures Inv(c, After(c, s, actions))
    decreases |actions|
  {
    if actions != [] {
      NextKeepsInv(c, s, actions[0]);
      RunKeepsInv(c, Next(c, s, actions[0]).0, actions[1..]);
    }
  }

  /** In no run does an operation fail for an internal reason or the worker give up: what remains are failed
      remote or temp I/O and the stop request. */
  lemma {:induction false} RunHasNoInternalFailure(c: Config, s: Sys, actions: seq<Action>)
    requires Inv(c, s) && ValidRun(c, s, actions)
    ensures forall i :: 0 <= i < |Events(c, s, actions)| ==>
      match Events(c, s, actions)[i]
      case OpFailed(_, f) => HarmlessFault(f)
      case WorkerFault(_) => false
      case _ => true
    decreases |actions|
  {
    if actions != [] {
      NextKeepsInv(c, s, actions[0]);
      NextSound(c, s, actions[0]);
      RunHasNoInternalFailure(c, Next(c, s, actions[0]).0, actions[1..]);
    }
  }
}
