/**
  The lock-held sections of the write-back cache (cache/src/cache/mod.rs, worker.rs, state.rs) as functions on
  the state the mutex guards plus the temp directory. `CacheState` is the in-place version and is proved equal
  to these functions; `CacheSystem` interleaves them.
*/
module CacheModel {
  import opened Common
  import opened Resident
  import Temp

  /** One per-block piece of a request: `at` is the offset inside the block. */
  datatype Op =
    | ReadOp(block: nat, at: nat, length: nat)
    | WriteOp(block: nat, at: nat, data: Block)

  /** `CacheState` and the block files of the temp directory. `spilled` maps a block to its `valid_len`. */
  datatype Shared = Shared(
    table: Table,
    spilled: map<nat, nat>,
    active: set<nat>,
    waiters: nat,
    stop: bool,
    temp: map<nat, Block>)

  datatype WaitReason = Generic | DirtyEvictionTempSlot

  datatype Slot = Reserved | SlotWait(reason: WaitReason) | SlotError(fault: Fault)

  /** What a lock-held section decided: finished with the bytes read, wait, fetch the block, or fail. */
  datatype Plan = Done(bytes: Block) | Wait(reason: WaitReason) | Fetch(source: LoadState) | Failed(fault: Fault)

  function OpRange(op: Op): Range {
    match op
    case ReadOp(_, at, length) => Range(at, at + length)
    case WriteOp(_, at, data) => Range(at, at + |data|)
  }

  /** `block_base` of the block fits in 64 bits. */
  predicate Addressable(c: Config, b: nat) { b * c.blockSize < U64_LIMIT }

  /** What `touched_blocks` guarantees about every piece it hands out. */
  predicate OpOk(c: Config, op: Op) {
    OpRange(op).end <= c.blockSize && Addressable(c, op.block)
  }

  /** The patches a placeholder for this request carries. */
  function PatchesOf(op: Op): seq<PendingPatch> {
    match op
    case ReadOp(_, _, _) => []
    case WriteOp(_, _, data) => [PendingPatch(OpRange(op), data)]
  }

  function TempFileCount(s: Shared): nat {
    |s.spilled| + |SnapshotBlocks(s.table)|
  }

  predicate IsQuiescent(s: Shared) {
    !s.stop && s.spilled == map[] && s.active == {} && s.waiters == 0 && AllClean(s.table)
  }

  // ---------------------------------------------------------------- waiting for a temp slot

  /** `release_foreground_dirty_waiter`. */
  function ReleaseWaiter(s: Shared, waiting: bool): Result<Shared, Fault> {
    if !waiting then Ok(s)
    else if s.waiters == 0 then Err(Internal)
    else Ok(s.(waiters := s.waiters - 1))
  }

  /** The bookkeeping before a thread waits: the new state and whether the thread holds the waiter flag. */
  function BeforeWait(s: Shared, waiting: bool, reason: WaitReason): Result<(Shared, bool), Fault> {
    match reason
    case Generic =>
      (match ReleaseWaiter(s, waiting)
       case Err(f) => Err(f)
       case Ok(s') => Ok((s', false)))
    case DirtyEvictionTempSlot =>
      if waiting then Ok((s, true)) else Ok((s.(waiters := s.waiters + 1), true))
  }

  // ---------------------------------------------------------------- making room

  /** The victim, now with a snapshot, leaves the table and is remembered as spilled. */
  function SpillVictim(s: Shared, victim: nat): (Slot, Shared) {
    if victim !in s.table.blocks then (SlotError(Internal), s)
    else
      var e := s.table.blocks[victim];
      var s' := s.(table := Evict(s.table, victim));
      if !e.snapshot then (SlotError(Internal), s')
      else if victim in s.spilled then (SlotError(Internal), s')
      else (Reserved, s'.(spilled := s.spilled[victim := e.validLen]))
  }

  /** The dirty branch: the victim's bytes go to its temp file first. */
  function SpillDirtyVictim(s: Shared, victim: nat, w: Temp.WriteOutcome): (Slot, Shared)
    requires victim in s.table.blocks
  {
    var s' := s.(temp := Temp.AfterWrite(s.temp, victim, s.table.blocks[victim].data, w));
    if w != Temp.Written then (SlotError(TempIo), s')
    else match MarkSnapshotWritten(s'.table, victim)
      case Err(f) => (SlotError(f), s')
      case Ok(t) => SpillVictim(s'.(table := t), victim)
  }

  /** What happens to the block at the head of a full FIFO queue. */
  function DisposeVictim(c: Config, s: Shared, victim: nat, w: Temp.WriteOutcome): (Slot, Shared) {
    if victim in s.active then (SlotWait(Generic), s)
    else if victim !in s.table.blocks then (SlotError(Internal), s)
    else
      var e := s.table.blocks[victim];
      if IsLoading(e) || e.pending != [] then (SlotWait(Generic), s)
      else if e.dirty == [] && !e.snapshot then (Reserved, s.(table := Evict(s.table, victim)))
      else if !e.snapshot && TempFileCount(s) >= c.tempMaxFiles then (SlotWait(DirtyEvictionTempSlot), s)
      else if e.dirty == [] then SpillVictim(s, victim)
      else SpillDirtyVictim(s, victim, w)
  }

  /** `prepare_resident_slot_for_insert`; `w` is what the temp write does if there is one. */
  function PrepareSlot(c: Config, s: Shared, w: Temp.WriteOutcome): (Slot, Shared) {
    match InsertVictim(c, s.table)
    case None => (Reserved, s)
    case Some(victim) => DisposeVictim(c, s, victim, w)
  }

  // ---------------------------------------------------------------- hits and misses

  /** `copy_ready_block`. */
  function CopyReady(t: Table, op: Op): Result<Block, Fault> {
    if op.block !in t.blocks || t.blocks[op.block].load != Ready then Err(Internal)
    else if op.WriteOp? then Ok([])
    else if |t.blocks[op.block].data| < op.at + op.length then Err(Malformed)
    else Ok(t.blocks[op.block].data[op.at..op.at + op.length])
  }

  /** The ready branch of `plan_read_touched_block`: copy first, then record the hit. */
  function HitRead(c: Config, s: Shared, op: Op): (Plan, Shared) {
    match CopyReady(s.table, op)
    case Err(f) => (Failed(f), s)
    case Ok(bytes) =>
      match RecordHit(c, s.table, op.block)
      case Err(f) => (Failed(f), s)
      case Ok(t) => (Done(bytes), s.(table := t))
  }

  /** The ready branch of `plan_write_touched_block`: patch first, then record the hit. */
  function HitWrite(c: Config, s: Shared, op: Op): (Plan, Shared)
    requires op.WriteOp?
  {
    match PatchReady(s.table, op.block, OpRange(op), op.data)
    case Err(f) => (Failed(f), s)
    case Ok(patched) =>
      match RecordHit(c, patched, op.block)
      case Err(f) => (Failed(f), s.(table := patched))
      case Ok(t) => (Done([]), s.(table := t))
  }

  function Hit(c: Config, s: Shared, op: Op): (Plan, Shared) {
    if op.ReadOp? then HitRead(c, s, op) else HitWrite(c, s, op)
  }

  /** Inserts the placeholder of a miss and queues the patch of a write on it. */
  function InsertForOp(c: Config, s: Shared, op: Op, validLen: nat, load: LoadState): (Plan, Shared) {
    match InsertLoadingPlaceholder(c, s.table, op.block, validLen, load)
    case Err(f) => (Failed(f), s)
    case Ok(t) =>
      if op.ReadOp? then (Fetch(load), s.(table := t))
      else match EnqueuePendingPatch(t, op.block, OpRange(op), op.data)
        case Err(f) => (Failed(f), s.(table := t))
        case Ok(t') => (Fetch(load), s.(table := t'))
  }

  /** `prepare_read_miss` and `prepare_write_miss`. */
  function PrepareMiss(c: Config, s: Shared, op: Op, w: Temp.WriteOutcome): (Plan, Shared) {
    var b := op.block;
    if b in s.spilled && b in s.active then (Wait(Generic), s)
    else
      var (slot, s') := PrepareSlot(c, s, w);
      match slot
      case SlotWait(reason) => (Wait(reason), s')
      case SlotError(f) => (Failed(f), s')
      case Reserved =>
        if b !in s.spilled then InsertForOp(c, s', op, c.blockSize, LoadingRemote)
        else if b in s'.active then (Failed(Internal), s')
        else InsertForOp(c, s'.(active := s'.active + {b}), op, s.spilled[b], Rehydrating)
  }

  /** `plan_read_touched_block` and `plan_write_touched_block`. */
  function PlanOp(c: Config, s: Shared, op: Op, w: Temp.WriteOutcome): (Plan, Shared) {
    if op.block !in s.table.blocks then PrepareMiss(c, s, op, w)
    else if IsLoading(s.table.blocks[op.block]) then (Wait(Generic), s)
    else Hit(c, s, op)
  }

  // ---------------------------------------------------------------- finishing a fetch

  function FinishRehydrate(c: Config, s: Shared, b: nat, data: Block): (Result<(), Fault>, Shared) {
    match FinishLoad(c, s.table, b, data)
    case Err(f) => (Err(f), s.(table := RefusedLoad(c, s.table, b, data)))
    case Ok(t) =>
      var s1 := s.(table := t);
      if b !in s.spilled then (Err(Internal), s1)
      else
        var s2 := s1.(spilled := s.spilled - {b});
        if b !in t.blocks || s.spilled[b] != t.blocks[b].validLen then (Err(Internal), s2)
        else match AttachSnapshot(t, b)
          case Err(f) => (Err(f), s2)
          case Ok(t') => (Ok(()), s2.(table := t'))
  }

  /** A failed fetch takes its placeholder back out and reports the read error. */
  function RollBack(s: Shared, b: nat, why: Fault): (Plan, Shared) {
    match AbortLoad(s.table, b)
    case Err(f) => (Failed(f), s)
    case Ok(t) => (Failed(why), s.(table := t))
  }

  function CopyOut(s: Shared, op: Op): (Plan, Shared) {
    match CopyReady(s.table, op)
    case Err(f) => (Failed(f), s)
    case Ok(bytes) => (Done(bytes), s)
  }

  /** The re-locked section after a block was fetched from the remote (`None`: the read failed). */
  function FinishRemoteFetch(c: Config, s: Shared, op: Op, got: Option<Block>): (Plan, Shared) {
    match got
    case None => RollBack(s, op.block, RemoteIo)
    case Some(data) =>
      match FinishLoad(c, s.table, op.block, data)
      case Err(f) => (Failed(f), s.(table := RefusedLoad(c, s.table, op.block, data)))
      case Ok(t) => CopyOut(s.(table := t), op)
  }

  /** The re-locked section after a block was fetched from its temp file. */
  function FinishTempFetch(c: Config, s: Shared, op: Op, got: Option<Block>): (Plan, Shared) {
    if op.block !in s.active then (Failed(Internal), s)
    else
      var s1 := s.(active := s.active - {op.block});
      match got
      case None => RollBack(s1, op.block, TempIo)
      case Some(data) =>
        var (r, s2) := FinishRehydrate(c, s1, op.block, data);
        match r
        case Err(f) => (Failed(f), s2)
        case Ok(_) => CopyOut(s2, op)
  }

  // ---------------------------------------------------------------- the flush worker

  datatype Scan = FlushTemp(block: nat) | SnapshotCreated | NothingToDo | ScanFault(fault: Fault)

  function ClaimTemp(c: Config, s: Shared, b: nat): (Scan, Shared) {
    if b in s.active then (ScanFault(Internal), s)
    else if !Addressable(c, b) then (ScanFault(Internal), s.(active := s.active + {b}))
    else (FlushTemp(b), s.(active := s.active + {b}))
  }

  /** `select_existing_temp_flush`: the least idle spilled block, else the least idle snapshotted one. */
  function SelectExistingTempFlush(c: Config, s: Shared): (Scan, Shared) {
    match Least(s.spilled.Keys - s.active)
    case Some(b) => ClaimTemp(c, s, b)
    case None =>
      match Least(FlushableBlocks(s.table, s.active))
      case Some(b) => ClaimTemp(c, s, b)
      case None => (NothingToDo, s)
  }

  /** Writes the snapshot of one block; a failed temp write is not an error. */
  function SnapshotBlock(s: Shared, b: nat, w: Temp.WriteOutcome): (Scan, Shared)
    requires b in s.table.blocks
  {
    var e := s.table.blocks[b];
    if e.load != Ready || e.snapshot || e.dirty == [] || e.pending != [] then (ScanFault(Internal), s)
    else
      var s' := s.(temp := Temp.AfterWrite(s.temp, b, e.data, w));
      if w != Temp.Written then (NothingToDo, s')
      else match MarkSnapshotWritten(s'.table, b)
        case Err(f) => (ScanFault(f), s')
        case Ok(t) => (SnapshotCreated, s'.(table := t))
  }

  /** `create_snapshot_temp_locked`. */
  function CreateSnapshot(c: Config, s: Shared, w: Temp.WriteOutcome): (Scan, Shared) {
    if s.waiters > 0 || TempFileCount(s) >= c.tempMaxFiles then (NothingToDo, s)
    else match Least(SnapshotCandidates(s.table))
      case None => (NothingToDo, s)
      case Some(b) => SnapshotBlock(s, b, w)
  }

  /** One pass of the worker under the lock: flush an existing temp first, else snapshot a dirty block. */
  function WorkerScan(c: Config, s: Shared, w: Temp.WriteOutcome): (Scan, Shared) {
    var (scan, s') := SelectExistingTempFlush(c, s);
    if scan.NothingToDo? then CreateSnapshot(c, s', w) else (scan, s')
  }

  function FinishFlushSuccess(s: Shared, b: nat): (Result<(), Fault>, Shared) {
    if b in s.spilled then (Ok(()), s.(spilled := s.spilled - {b}))
    else if b !in s.table.blocks then (Err(Internal), s)
    else match ClearSnapshot(s.table, b)
      case Err(f) => (Err(f), s)
      case Ok(t) => (Ok(()), s.(table := t))
  }

  /** The re-locked end of `flush_active_temp`. */
  function FinishFlush(s: Shared, b: nat, flushed: bool): (Result<(), Fault>, Shared) {
    if b !in s.active then (Err(Internal), s)
    else
      var s' := s.(active := s.active - {b});
      if flushed then FinishFlushSuccess(s', b) else (Ok(()), s')
  }
}
