/**
  The cache refines an atomic block device. `ViewOf` is the content a client sees; each finished read returns
  the view's bytes at the step that finishes it, each finished write changes exactly its own bytes of the view at
  its last step, and every other step, whatever fails, leaves the view alone.
*/
module CacheRefinement {
  import opened Common
  import opened Resident
  import opened CacheModel
  import opened CacheSystem
  import opened CacheCells
  import opened CacheInvariant
  import opened CacheSteps
  import opened CacheSafety
  import Temp

  type Memory = map<nat, Block>

  /** The newest content of every block the remote store has. */
  function ViewOf(s: Sys): Memory {
    map b | b in s.remote :: match CellView(CellOf(s, b)) case Some(data) => data case None => s.remote[b]
  }

  lemma ViewAt(s: Sys, b: nat)
    requires b in s.remote
    ensures CellView(CellOf(s, b)) == Some(ViewOf(s)[b])
  {
  }

  lemma ViewKeys(s: Sys)
    ensures ViewOf(s).Keys == s.remote.Keys
  {
  }

  // ---------------------------------------------------------------- the atomic device

  /** The operation lies inside a block of the device. */
  predicate InDevice(mem: Memory, op: Op) {
    op.block in mem && OpRange(op).end <= |mem[op.block]|
  }

  /** The atomic device accepts the event: operations lie inside it and a read returns what it holds. */
  predicate Accepts(mem: Memory, event: Event) {
    match event
    case ReadDone(op, bytes) => op.ReadOp? && InDevice(mem, op) && bytes == mem[op.block][op.at..op.at + op.length]
    case WriteDone(op) => op.WriteOp? && InDevice(mem, op)
    case _ => true
  }

  /** The device after an event: only a finished write changes it, and only its own bytes. */
  function Apply(mem: Memory, event: Event): Memory
    requires Accepts(mem, event)
  {
    match event
    case WriteDone(op) => mem[op.block := Splice(mem[op.block], op.at, op.data)]
    case _ => mem
  }

  lemma ApplyKeys(mem: Memory, event: Event)
    requires Accepts(mem, event)
    ensures Apply(mem, event).Keys == mem.Keys
  {
  }

  /** The atomic device accepts the events one after the other and ends in `end`. */
  ghost predicate Explains(mem: Memory, events: seq<Event>, end: Memory)
    decreases |events|
  {
    if events == [] then mem == end
    else Accepts(mem, events[0]) && Explains(Apply(mem, events[0]), events[1..], end)
  }

  // ---------------------------------------------------------------- one step

  lemma MoveKeepsRemoteKnown(c: Config, b: nat, k: Cell, m: Move)
    requires CellInv(c, b, k) && CanMove(c, b, k, m)
    ensures MovedCell(c, b, k, m).remote.Some? <==> k.remote.Some?
  {
  }

  lemma RemoteKeysKept(c: Config, s: Sys, a: Action)
    requires Inv(c, s) && Enabled(c, s, a)
    ensures Next(c, s, a).0.remote.Keys == s.remote.Keys
  {
    var s' := Next(c, s, a).0;
    forall b: nat ensures b in s'.remote <==> b in s.remote {
      NextMoves(c, s, a, b);
      MoveKeepsRemoteKnown(c, b, CellOf(s, b), MoveOf(c, s, a, b));
      assert b in s.remote <==> CellOf(s, b).remote.Some?;
      assert b in s'.remote <==> CellOf(s', b).remote.Some?;
    }
  }

  /** The write that a move carries into the resident bytes, if any. */
  function MoveWrites(m: Move): Option<Op> {
    match m
    case Patch(op) => Some(op)
    case EndRemoteFetch(op, got) => if got.Some? && op.WriteOp? then Some(op) else None
    case EndTempFetch(op, got) => if got.Some? && op.WriteOp? then Some(op) else None
    case _ => None
  }

  /** Only a planning turn and the end of a fetch report anything. */
  lemma OtherStepsSilent(c: Config, s: Sys, a: Action)
    requires Inv(c, s) && Enabled(c, s, a) && !a.PlanStep? && !a.FinishStep?
    ensures Next(c, s, a).1 == Silent
  {
    if a.ScanStep? {
      ScanResult(c, s, a.tempWrite);
    }
    if a.FinishFlushStep? {
      EndFlushResult(c, s);
    }
  }

  lemma PlanEventIsMove(c: Config, s: Sys, t: nat, w: Temp.WriteOutcome, b: nat)
    requires Inv(c, s) && ThreadOf(s, t).Running?
    ensures var event := Next(c, s, PlanStep(t, w)).1;
      MoveWrites(MoveOf(c, s, PlanStep(t, w), b))
        == if event.WriteDone? && event.op.block == b then Some(event.op) else None
  {
    assert ThreadInv(c, s, t);
    hide Inv, Next, PlanOp, PlanMove, Queued, Waiters, CellOf, FetchOk, CellsOk;
    if s.shared.stop {
      StopStepForm(c, s, t, w);
    } else {
      PlanMoveWrites(c, s, ThreadOf(s, t).op, w, b);
      PlanStepForm(c, s, t, w);
      PlanResult(c, s, ThreadOf(s, t).op, w);
    }
  }

  /** Among the moves of a planning turn only the hit of a write carries it. */
  lemma PlanMoveWrites(c: Config, s: Sys, op: Op, w: Temp.WriteOutcome, b: nat)
    ensures var blocks := s.shared.table.blocks;
      MoveWrites(PlanMove(c, s.shared, op, w, b))
        == if op.WriteOp? && op.block == b && b in blocks && blocks[b].load == Ready then Some(op) else None
  {
    hide InsertVictim, PrepareSlot, TempFileCount, PromotionVictim;
  }

  lemma FinishEventIsMove(c: Config, s: Sys, t: nat, b: nat)
    requires Inv(c, s) && ThreadOf(s, t).Fetched?
    ensures var event := Next(c, s, FinishStep(t)).1;
      MoveWrites(MoveOf(c, s, FinishStep(t), b))
        == if event.WriteDone? && event.op.block == b then Some(event.op) else None
  {
    hide Inv, Next, FinishFetch, Queued, Waiters, CellOf, EntryOk, LoadedEntry, BytesFor, Arrived;
    FinishStepForm(c, s, t);
  }

  lemma OtherMovesWriteNothing(c: Config, s: Sys, a: Action, b: nat)
    requires Enabled(c, s, a) && !a.PlanStep? && !a.FinishStep?
    ensures MoveWrites(MoveOf(c, s, a, b)) == None
  {
    hide Least, FlushableBlocks, SnapshotCandidates, TempFileCount, ReadFile, PlanMove;
  }

  /** A step carries a write into a block exactly when its event says that the write of that block is done. */
  lemma WriteEventIsMove(c: Config, s: Sys, a: Action, b: nat)
    requires Inv(c, s) && Enabled(c, s, a)
    ensures var event := Next(c, s, a).1;
      MoveWrites(MoveOf(c, s, a, b)) == if event.WriteDone? && event.op.block == b then Some(event.op) else None
  {
    hide Inv, Next, MoveOf, MoveWrites;
    match a
    case PlanStep(t, w) => PlanEventIsMove(c, s, t, w, b);
    case FinishStep(t) => FinishEventIsMove(c, s, t, b);
    case _ =>
      OtherStepsSilent(c, s, a);
      OtherMovesWriteNothing(c, s, a, b);
  }

  /** The view of one block after a step. */
  lemma BlockViewAfter(c: Config, s: Sys, a: Action, b: nat)
    requires Inv(c, s) && Enabled(c, s, a) && b in s.remote
    ensures b in Next(c, s, a).0.remote
    ensures var was := ViewOf(s)[b]; var now := ViewOf(Next(c, s, a).0)[b];
      match MoveWrites(MoveOf(c, s, a, b))
      case Some(op) => op.WriteOp? && OpRange(op).end <= |was| && now == Splice(was, op.at, op.data)
      case None => now == was
  {
    NextMoves(c, s, a, b);
    MoveView(c, b, CellOf(s, b), MoveOf(c, s, a, b));
    RemoteKeysKept(c, s, a);
    ViewAt(s, b);
    ViewAt(Next(c, s, a).0, b);
  }

  /** The block of a finished operation is known to the remote store, and a read returns its view. */
  lemma DoneIsOnView(c: Config, s: Sys, a: Action)
    requires Inv(c, s) && Enabled(c, s, a)
    requires Next(c, s, a).1.ReadDone? || Next(c, s, a).1.WriteDone?
    ensures var event := Next(c, s, a).1;
      && event.op.block in s.remote
      && (event.ReadDone? ==> Accepts(ViewOf(s), event))
      && (event.WriteDone? ==> event.op.WriteOp?)
  {
    match a
    case PlanStep(t, w) => DonePlanIsOnView(c, s, t, w);
    case FinishStep(t) => DoneFetchIsOnView(c, s, t);
    case _ => OtherStepsSilent(c, s, a);
  }

  /** A ready block is known to the remote store, and its bytes are its view. */
  lemma ReadyIsView(c: Config, s: Sys, b: nat)
    requires Inv(c, s)
    ensures b in s.shared.table.blocks && s.shared.table.blocks[b].load == Ready ==>
      && b in s.remote && b in ViewOf(s) && ViewOf(s)[b] == s.shared.table.blocks[b].data
      && |s.shared.table.blocks[b].data| == c.blockSize
  {
    InvGives(c, s, b);
  }

  lemma DonePlanIsOnView(c: Config, s: Sys, t: nat, w: Temp.WriteOutcome)
    requires Inv(c, s) && ThreadOf(s, t).Running?
    requires Next(c, s, PlanStep(t, w)).1.ReadDone? || Next(c, s, PlanStep(t, w)).1.WriteDone?
    ensures var event := Next(c, s, PlanStep(t, w)).1;
      && event.op.block in s.remote
      && (event.ReadDone? ==> Accepts(ViewOf(s), event))
      && (event.WriteDone? ==> event.op.WriteOp?)
  {
    var op := ThreadOf(s, t).op;
    assert ThreadInv(c, s, t);
    hide Inv, ViewOf, Next, PlanOp, PlanMove, Queued, Waiters, CellOf, FetchOk, PlanOk, Accepts;
    if s.shared.stop {
      StopStepForm(c, s, t, w);
    } else {
      PlanStepForm(c, s, t, w);
      PlanResult(c, s, op, w);
      ReadyIsView(c, s, op.block);
      PlanDoneAccepted(c, s, op, w, PlanOp(c, s.shared, op, w).0, PlanOp(c, s.shared, op, w).1);
    }
  }

  lemma PlanDoneAccepted(c: Config, s: Sys, op: Op, w: Temp.WriteOutcome, plan: Plan, sh: Shared)
    requires OpOk(c, op) && PlanOk(c, s, op, w, plan, sh)
    requires op.block in s.shared.table.blocks && s.shared.table.blocks[op.block].load == Ready ==>
      && op.block in s.remote && op.block in ViewOf(s)
      && ViewOf(s)[op.block] == s.shared.table.blocks[op.block].data
      && |s.shared.table.blocks[op.block].data| == c.blockSize
    ensures plan.Done? ==> op.block in s.remote && Accepts(ViewOf(s), DoneEvent(op, plan.bytes))
  {
    hide ViewOf;
  }

  lemma DoneFetchIsOnView(c: Config, s: Sys, t: nat)
    requires Inv(c, s) && ThreadOf(s, t).Fetched?
    requires Next(c, s, FinishStep(t)).1.ReadDone? || Next(c, s, FinishStep(t)).1.WriteDone?
    ensures var event := Next(c, s, FinishStep(t)).1;
      && event.op.block in s.remote
      && (event.ReadDone? ==> Accepts(ViewOf(s), event))
      && (event.WriteDone? ==> event.op.WriteOp?)
  {
    hide Inv, ViewOf, Next, Arrived, FinishFetch, Queued, Waiters, CellOf, CellView;
    var Fetched(op, source, got) := ThreadOf(s, t);
    FinishStepForm(c, s, t);
    FetchedBytes(c, s, t);
    ViewAt(s, op.block);
    ViewKeys(s);
  }

  /** What a fetch brought back is the view of its block, of full size. */
  lemma FetchedBytes(c: Config, s: Sys, t: nat)
    requires Inv(c, s) && ThreadOf(s, t).Fetched? && ThreadOf(s, t).got.Some?
    ensures var Fetched(op, source, got) := ThreadOf(s, t);
      && op.block in s.remote && CellView(CellOf(s, op.block)) == got
      && |got.value| == c.blockSize && OpRange(op).end <= c.blockSize
  {
    assert ThreadInv(c, s, t);
    assert CellInv(c, ThreadOf(s, t).op.block, CellOf(s, ThreadOf(s, t).op.block));
  }

  lemma StepAccepted(c: Config, s: Sys, a: Action)
    requires Inv(c, s) && Enabled(c, s, a)
    ensures Accepts(ViewOf(s), Next(c, s, a).1)
  {
    var event := Next(c, s, a).1;
    if event.ReadDone? {
      DoneIsOnView(c, s, a);
    } else if event.WriteDone? {
      DoneIsOnView(c, s, a);
      BlockViewAfter(c, s, a, event.op.block);
      WriteEventIsMove(c, s, a, event.op.block);
    }
  }

  lemma BlockApplied(c: Config, s: Sys, a: Action, b: nat)
    requires Inv(c, s) && Enabled(c, s, a) && b in s.remote && Accepts(ViewOf(s), Next(c, s, a).1)
    ensures b in Next(c, s, a).0.remote
    ensures ViewOf(Next(c, s, a).0)[b] == Apply(ViewOf(s), Next(c, s, a).1)[b]
  {
    BlockViewAfter(c, s, a, b);
    WriteEventIsMove(c, s, a, b);
  }

  /** One step of the cache is one step of the atomic device: the device accepts the event and the view moves
      exactly as the device does. Loads, spills, rehydrations, promotions, evictions, flushes, aborts and failed
      operations are silent or failed events, so they leave the view as it was. */
  lemma StepRefinesDevice(c: Config, s: Sys, a: Action)
    requires Inv(c, s) && Enabled(c, s, a)
    ensures Accepts(ViewOf(s), Next(c, s, a).1)
    ensures ViewOf(Next(c, s, a).0) == Apply(ViewOf(s), Next(c, s, a).1)
  {
    hide Inv, Next, Enabled, ViewOf, Accepts, Apply;
    StepAccepted(c, s, a);
    RemoteKeysKept(c, s, a);
    ViewKeys(s);
    ViewKeys(Next(c, s, a).0);
    ApplyKeys(ViewOf(s), Next(c, s, a).1);
    forall b | b in s.remote ensures ViewOf(Next(c, s, a).0)[b] == Apply(ViewOf(s), Next(c, s, a).1)[b] {
      BlockApplied(c, s, a, b);
    }
  }

  // ---------------------------------------------------------------- every run

  /** The view at every instant of a run. */
  ghost function Views(c: Config, s: Sys, actions: seq<Action>): seq<Memory>
    requires ValidRun(c, s, actions)
    decreases |actions|
  {
    [ViewOf(s)] + if actions == [] then [] else Views(c, Next(c, s, actions[0]).0, actions[1..])
  }

  /** Every run of the cache, with any interleaving and any I/O failures, is a run of the atomic device. */
  lemma {:induction false} RunRefinesDevice(c: Config, s: Sys, actions: seq<Action>)
    requires Inv(c, s) && ValidRun(c, s, actions)
    ensures Explains(ViewOf(s), Events(c, s, actions), ViewOf(After(c, s, actions)))
    decreases |actions|
  {
    if actions != [] {
      var (s', event) := Next(c, s, actions[0]);
      StepRefinesDevice(c, s, actions[0]);
      NextKeepsInv(c, s, actions[0]);
      RunRefinesDevice(c, s', actions[1..]);
      var events := Events(c, s, actions);
      assert events[0] == event && events[1..] == Events(c, s', actions[1..]);
    }
  }

  /** From `Cache::new` the device starts as the remote store. */
  lemma FreshCacheRefinesDevice(c: Config, s: Sys, actions: seq<Action>)
    requires Initial(c, s) && ValidRun(c, s, actions)
    ensures Explains(s.remote, Events(c, s, actions), ViewOf(After(c, s, actions)))
  {
    InitialInv(c, s);
    RunRefinesDevice(c, s, actions);
    assert ViewOf(s) == s.remote;
  }

  /** When the cache is quiescent the remote store holds the whole view. */
  lemma QuiescentRemoteIsView(c: Config, s: Sys)
    requires Inv(c, s) && IsQuiescent(s.shared)
    ensures s.remote == ViewOf(s)
  {
    forall b | b in s.remote ensures ViewOf(s)[b] == s.remote[b] {
      assert CellInv(c, b, CellOf(s, b));
      ViewAt(s, b);
      if b in s.shared.table.blocks {
        CleanEntryAgrees(s.shared.table.blocks[b], s.remote[b]);
      }
    }
  }
}
