/**
  The invariant of every reachable state of the cache, and the proof that every step keeps it. Each step is shown
  to act on every cell by one `Move`; the per-cell results of `CacheCells` then carry over to the whole system.
*/
module CacheInvariant {
  import opened Common
  import opened Resident
  import opened CacheModel
  import opened CacheSystem
  import opened CacheCells
  import Temp

  ghost predicate CellsOk(c: Config, s: Sys) {
    forall b: nat :: CellInv(c, b, CellOf(s, b))
  }

  /** Thread `t` is fetching block `b`. */
  predicate Fetches(s: Sys, t: nat, b: nat) {
    match ThreadOf(s, t)
    case Fetching(op, _) => op.block == b
    case Fetched(op, _, _) => op.block == b
    case _ => false
  }

  /** The placeholder of a fetch waits in the table with the patch of its own operation. */
  ghost predicate FetchOk(c: Config, k: Cell, op: Op, source: LoadState) {
    && OpOk(c, op) && source != Ready
    && k.entry.Some? && k.entry.value.load == source && k.entry.value.pending == PatchesOf(op)
  }

  ghost predicate ThreadInv(c: Config, s: Sys, t: nat) {
    match ThreadOf(s, t)
    case Idle => true
    case Running(op, _) => OpOk(c, op)
    case Fetching(op, source) => FetchOk(c, CellOf(s, op.block), op, source)
    case Fetched(op, source, got) =>
      var k := CellOf(s, op.block);
      FetchOk(c, k, op, source) && (got.Some? ==> got == if source == Rehydrating then k.temp else k.remote)
  }

  /** No two threads fetch the same block. */
  ghost predicate FetchersDistinct(s: Sys) {
    forall t, u, b :: Fetches(s, t, b) && Fetches(s, u, b) ==> t == u
  }

  /** Every placeholder in the table is being fetched by a thread. */
  ghost predicate FetchersExist(s: Sys) {
    forall b :: b in s.shared.table.blocks && IsLoading(s.shared.table.blocks[b]) ==> exists t :: Fetches(s, t, b)
  }

  predicate HoldsFlag(s: Sys, t: nat) {
    ThreadOf(s, t).Running? && ThreadOf(s, t).waiting
  }

  function Waiters(s: Sys): set<nat> {
    set t | t in s.threads && HoldsFlag(s, t)
  }

  ghost predicate Inv(c: Config, s: Sys) {
    && ConfigOk(c)
    && Queued(c, s.shared.table)
    && CellsOk(c, s)
    && (forall t :: ThreadInv(c, s, t))
    && FetchersDistinct(s)
    && FetchersExist(s)
    && TempFileCount(s.shared) <= c.tempMaxFiles
    && s.shared.waiters == |Waiters(s)|
  }

  lemma InvGives(c: Config, s: Sys, b: nat)
    requires Inv(c, s)
    ensures ConfigOk(c) && Queued(c, s.shared.table) && s.shared.waiters == |Waiters(s)|
    ensures CellInv(c, b, CellOf(s, b))
  {
  }

  // ---------------------------------------------------------------- which move a step makes on which block

  /** Making room: the head of the FIFO queue is dropped, spilled, or loses its temp file. */
  function SlotMove(c: Config, s: Shared, w: Temp.WriteOutcome, b: nat): Move {
    if InsertVictim(c, s.table) != Some(b) || b in s.active || b !in s.table.blocks then Stay
    else
      var e := s.table.blocks[b];
      if IsLoading(e) then Stay
      else if e.dirty == [] && !e.snapshot then DropClean
      else if !e.snapshot && TempFileCount(s) >= c.tempMaxFiles then Stay
      else if e.dirty == [] then Spill(false)
      else match w
        case Written => Spill(true)
        case Refused => Stay
        case Lost => LoseTemp
  }

  /** The block a hit pushes out of the LRU queue. */
  function PromotionVictim(c: Config, t: Table, b: nat): Option<nat> {
    if b in t.fifo && |t.lru| == c.lruCapacity && t.lru != [] && t.lru[0] in t.blocks && Clean(t.blocks[t.lru[0]])
    then Some(t.lru[0]) else None
  }

  function PlanMove(c: Config, s: Shared, op: Op, w: Temp.WriteOutcome, b: nat): Move {
    if op.block in s.table.blocks then
      if IsLoading(s.table.blocks[op.block]) then Stay
      else if b == op.block then (if op.WriteOp? then Patch(op) else Stay)
      else if PromotionVictim(c, s.table, op.block) == Some(b) then DropClean
      else Stay
    else if op.block in s.spilled && op.block in s.active then Stay
    else if b == op.block then
      if PrepareSlot(c, s, w).0 == Reserved then
        BeginFetch(op, if op.block in s.spilled then Rehydrating else LoadingRemote)
      else Stay
    else SlotMove(c, s, w, b)
  }

  function ScanMove(c: Config, s: Shared, w: Temp.WriteOutcome, b: nat): Move {
    var spilled := Least(s.spilled.Keys - s.active);
    var snapshotted := Least(FlushableBlocks(s.table, s.active));
    var candidate := Least(SnapshotCandidates(s.table));
    if spilled.Some? then (if spilled == Some(b) then Claim else Stay)
    else if snapshotted.Some? then (if snapshotted == Some(b) then Claim else Stay)
    else if s.waiters > 0 || TempFileCount(s) >= c.tempMaxFiles || candidate != Some(b) then Stay
    else match w
      case Written => TakeSnapshot
      case Refused => Stay
      case Lost => LoseTemp
  }

  /** The move that action `a` makes on block `b`. */
  function MoveOf(c: Config, s: Sys, a: Action, b: nat): Move
    requires Enabled(c, s, a)
  {
    match a
    case PlanStep(t, w) =>
      if s.shared.stop then Stay else PlanMove(c, s.shared, ThreadOf(s, t).op, w, b)
    case FinishStep(t) =>
      var Fetched(op, source, got) := ThreadOf(s, t);
      if b != op.block then Stay
      else if source == Rehydrating then EndTempFetch(op, got) else EndRemoteFetch(op, got)
    case ScanStep(w) => ScanMove(c, s.shared, w, b)
    case ReadTempStep(succeeds) =>
      if b == s.worker.block then ReadTemp(ReadFile(c, s.shared.temp, b, succeeds)) else Stay
    case PartialWriteStep(garbage) => if b == s.worker.block then PartialWrite(garbage) else Stay
    case WriteRemoteStep(succeeds) => if b == s.worker.block then WriteRemote(succeeds) else Stay
    case RemoveTempStep(succeeds) => if b == s.worker.block then RemoveTemp(succeeds) else Stay
    case FinishFlushStep => if b == s.worker.block then EndFlush(s.worker.flushed) else Stay
    case _ => Stay
  }

  /** The step from `s` to `s'` acts on the cell of block `b` by move `m`. */
  ghost predicate Moves(c: Config, s: Sys, s': Sys, b: nat, m: Move) {
    && CellInv(c, b, CellOf(s, b)) && CanMove(c, b, CellOf(s, b), m)
    && CellOf(s', b) == MovedCell(c, b, CellOf(s, b), m)
  }

  predicate HarmlessFault(f: Fault) { f == TempIo || f == RemoteIo || f == Stopped }

  // ---------------------------------------------------------------- the lock-held sections, cell by cell

  lemma MarkThenEvict(t: Table, v: nat)
    requires v in t.blocks && t.blocks[v].load == Ready
    ensures Evict(MarkSnapshotWritten(t, v).value, v) == Evict(t, v)
  {
    assert MarkSnapshotWritten(t, v).value.blocks - {v} == t.blocks - {v};
  }

  /** The result of making room, read off the move on the victim. */
  function SlotForm(c: Config, s: Shared, v: nat, m: Move): (Slot, Shared)
    requires v in s.table.blocks
  {
    var e := s.table.blocks[v];
    match m
    case DropClean => (Reserved, s.(table := Evict(s.table, v)))
    case Spill(rewrite) =>
      (Reserved, s.(table := Evict(s.table, v), spilled := s.spilled[v := e.validLen],
                    temp := if rewrite then s.temp[v := e.data] else s.temp))
    case LoseTemp => (SlotError(TempIo), s.(temp := s.temp - {v}))
    case _ =>
      (if v in s.active || IsLoading(e) then SlotWait(Generic)
       else if !e.snapshot && TempFileCount(s) >= c.tempMaxFiles then SlotWait(DirtyEvictionTempSlot)
       else SlotError(TempIo), s)
  }

  lemma SpillHasForm(c: Config, s: Shared, w: Temp.WriteOutcome, v: nat)
    requires v in s.table.blocks && s.table.blocks[v].load == Ready && v !in s.spilled
    ensures s.table.blocks[v].snapshot ==> SpillVictim(s, v) == SlotForm(c, s, v, Spill(false))
    ensures SpillDirtyVictim(s, v, Temp.Written) == SlotForm(c, s, v, Spill(true))
    ensures SpillDirtyVictim(s, v, Temp.Lost) == SlotForm(c, s, v, LoseTemp)
    ensures SpillDirtyVictim(s, v, Temp.Refused) == (SlotError(TempIo), s)
  {
    MarkThenEvict(s.table, v);
  }

  lemma SlotHasForm(c: Config, s: Shared, w: Temp.WriteOutcome, v: nat)
    requires v in s.table.blocks && InsertVictim(c, s.table) == Some(v)
    requires EntryOk(c, s.table.blocks[v]) && (s.table.blocks[v].load == Ready ==> v !in s.spilled)
    ensures DisposeVictim(c, s, v, w) == SlotForm(c, s, v, SlotMove(c, s, w, v))
  {
    hide TempFileCount, Evict, SpillVictim, SpillDirtyVictim, InsertVictim;
    if s.table.blocks[v].load == Ready {
      SpillHasForm(c, s, w, v);
    }
  }

  lemma VictimFacts(c: Config, s: Sys, v: nat)
    requires Inv(c, s) && InsertVictim(c, s.shared.table) == Some(v)
    ensures v in s.shared.table.blocks && CellInv(c, v, CellOf(s, v))
    ensures EntryOk(c, s.shared.table.blocks[v])
    ensures s.shared.table.blocks[v].load == Ready ==> v !in s.shared.spilled
  {
    assert CellInv(c, v, CellOf(s, v));
  }

  lemma SlotCanMove(c: Config, s: Sys, w: Temp.WriteOutcome, v: nat)
    requires v in s.shared.table.blocks && InsertVictim(c, s.shared.table) == Some(v)
    requires CellInv(c, v, CellOf(s, v))
    ensures CanMove(c, v, CellOf(s, v), SlotMove(c, s.shared, w, v))
  {
  }

  lemma FormMovesVictim(c: Config, s: Sys, v: nat, m: Move)
    requires v in s.shared.table.blocks && CellInv(c, v, CellOf(s, v)) && CanMove(c, v, CellOf(s, v), m)
    requires m in {Stay, DropClean, Spill(true), Spill(false), LoseTemp}
    ensures CellOf(s.(shared := SlotForm(c, s.shared, v, m).1), v) == MovedCell(c, v, CellOf(s, v), m)
  {
  }

  lemma FormMovesOnlyVictim(c: Config, s: Sys, v: nat, m: Move, b: nat)
    requires v in s.shared.table.blocks && b != v
    requires m in {Stay, DropClean, Spill(true), Spill(false), LoseTemp}
    ensures CellOf(s.(shared := SlotForm(c, s.shared, v, m).1), b) == CellOf(s, b)
  {
  }

  lemma SlotMoves(c: Config, s: Sys, w: Temp.WriteOutcome, b: nat)
    requires Inv(c, s)
    ensures Moves(c, s, s.(shared := PrepareSlot(c, s.shared, w).1), b, SlotMove(c, s.shared, w, b))
  {
    assert CellInv(c, b, CellOf(s, b));
    var v := InsertVictim(c, s.shared.table);
    if v.Some? {
      VictimFacts(c, s, v.value);
      SlotHasForm(c, s.shared, w, v.value);
      SlotCanMove(c, s, w, v.value);
      FormMovesVictim(c, s, v.value, SlotMove(c, s.shared, w, v.value));
      if b != v.value {
        FormMovesOnlyVictim(c, s, v.value, SlotMove(c, s.shared, w, v.value), b);
      }
    }
  }

  lemma FormResult(c: Config, s: Shared, v: nat, m: Move)
    requires ConfigOk(c) && Queued(c, s.table) && v in s.table.fifo
    requires m in {Stay, DropClean, Spill(true), Spill(false), LoseTemp}
    ensures var (slot, sh) := SlotForm(c, s, v, m);
      && (slot.SlotError? ==> slot.fault == TempIo)
      && (slot == Reserved ==> |sh.table.fifo| < c.fifoCapacity)
      && Queued(c, sh.table)
      && (sh.table == s.table || sh.table.blocks == s.table.blocks - {v})
      && sh.active == s.active && sh.waiters == s.waiters && sh.stop == s.stop
  {
    EvictQueued(c, s.table, v);
  }

  /** Making room never fails but for the temp write, leaves the FIFO queue with room when it succeeds, and only
      takes blocks out of the table. */
  lemma SlotResult(c: Config, s: Sys, w: Temp.WriteOutcome)
    requires Inv(c, s)
    ensures var (slot, sh) := PrepareSlot(c, s.shared, w);
      && (slot.SlotError? ==> slot.fault == TempIo)
      && (slot == Reserved ==> |sh.table.fifo| < c.fifoCapacity)
      && Queued(c, sh.table)
      && sh.table.blocks.Keys <= s.shared.table.blocks.Keys
      && sh.active == s.shared.active && sh.waiters == s.shared.waiters && sh.stop == s.shared.stop
  {
    var v := InsertVictim(c, s.shared.table);
    if v.Some? {
      VictimFacts(c, s, v.value);
      SlotHasForm(c, s.shared, w, v.value);
      FormResult(c, s.shared, v.value, SlotMove(c, s.shared, w, v.value));
    }
  }
}
