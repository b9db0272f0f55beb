/**
  One block at a time. A `Cell` is everything the system state says about one block: its resident entry, whether
  it is spilled or claimed, its temp file, its remote content and where the flush worker stands on it. Every step
  of the whole system acts on each cell by one of the `Move`s below, so safety is proved cell by cell.
*/
module CacheCells {
  import opened Common
  import opened Resident
  import opened CacheModel
  import opened CacheSystem

  datatype Cell = Cell(
    entry: Option<Entry>,
    spilled: Option<nat>,
    active: bool,
    temp: Option<Block>,
    remote: Option<Block>,
    flush: Worker)

  function Lookup<V>(m: map<nat, V>, b: nat): Option<V> {
    if b in m then Some(m[b]) else None
  }

  /** The block the worker is busy with. */
  function WorkerBlock(w: Worker): Option<nat> {
    match w
    case Resting => None
    case Exited => None
    case FlushRead(b) => Some(b)
    case FlushWrite(b, _) => Some(b)
    case FlushRemove(b) => Some(b)
    case FlushFinish(b, _) => Some(b)
  }

  function CellOf(s: Sys, b: nat): Cell {
    Cell(
      Lookup(s.shared.table.blocks, b),
      Lookup(s.shared.spilled, b),
      b in s.shared.active,
      Lookup(s.shared.temp, b),
      Lookup(s.remote, b),
      if WorkerBlock(s.worker) == Some(b) then s.worker else Resting)
  }

  /** The newest content of the block: the resident bytes once loaded, else the spilled file, else the remote.
      A spilled block whose file the worker has just removed is already stored remotely. */
  function CellView(k: Cell): Option<Block> {
    if k.entry.Some? && k.entry.value.load == Ready then Some(k.entry.value.data)
    else if k.spilled.Some? && k.temp.Some? then k.temp
    else k.remote
  }

  // ---------------------------------------------------------------- the invariant of a cell

  predicate InDirty(dirty: seq<Range>, i: nat) {
    exists j :: 0 <= j < |dirty| && dirty[j].start <= i < dirty[j].end
  }

  /** Outside the dirty ranges the resident bytes are those of `base`. */
  ghost predicate Agree(e: Entry, base: Block) {
    && |base| == |e.data|
    && forall i: nat :: i < |base| && !InDirty(e.dirty, i) ==> e.data[i] == base[i]
  }

  ghost predicate EntryOk(c: Config, e: Entry) {
    && |e.data| == c.blockSize && e.validLen == c.blockSize
    && (e.load == Ready ==> e.pending == [])
    && (e.load != Ready ==> e.dirty == [] && !e.snapshot)
  }

  predicate IsReady(k: Cell) { k.entry.Some? && k.entry.value.load == Ready }

  predicate IsFetching(k: Cell, source: LoadState) {
    k.entry.Some? && k.entry.value.load == source && source != Ready
  }

  /** The flush has stored the block remotely and removed its temp file, but the state does not know yet. */
  predicate StoredAndRemoved(k: Cell) { k.flush.FlushFinish? && k.flush.flushed }

  /** A snapshotted block whose temp file was lost by a failed overwrite. It is still dirty, so it will be
      written again before it can leave the table. */
  predicate SnapshotLost(k: Cell) {
    IsReady(k) && k.entry.value.snapshot && k.temp.None? && !StoredAndRemoved(k)
  }

  /** What the resident bytes agree with outside the dirty ranges: the snapshot file while there is one, the
      remote content otherwise. */
  ghost predicate Backed(k: Cell)
    requires IsReady(k)
  {
    var e := k.entry.value;
    if !e.snapshot || StoredAndRemoved(k) then k.remote.Some? && Agree(e, k.remote.value)
    else if k.temp.Some? then Agree(e, k.temp.value)
    else e.dirty != []
  }

  /** A claimed temp has one owner: the worker, or the fetch that rehydrates the block. */
  ghost predicate Owned(k: Cell) {
    && (k.active <==> k.flush != Resting || IsFetching(k, Rehydrating))
    && (k.flush != Resting ==> !IsFetching(k, Rehydrating) && !IsFetching(k, LoadingRemote))
    && (k.flush != Resting ==> k.spilled.Some? || (IsReady(k) && k.entry.value.snapshot))
  }

  /** Where the worker stands says what its buffer and the remote hold. */
  ghost predicate FlushOk(k: Cell) {
    match k.flush
    case Resting => true
    case Exited => false
    case FlushRead(_) => true
    case FlushWrite(_, buffer) => k.temp == Some(buffer) && k.remote.Some?
    case FlushRemove(_) => k.temp.Some? && k.remote == k.temp
    case FlushFinish(_, flushed) => flushed ==> k.temp.None?
  }

  ghost predicate SpilledOk(c: Config, k: Cell) {
    k.spilled.Some? ==>
      && k.spilled.value == c.blockSize
      && (k.entry.None? || IsFetching(k, Rehydrating))
      && k.remote.Some?
      && (k.temp.None? ==> StoredAndRemoved(k))
  }

  ghost predicate SizesOk(c: Config, k: Cell) {
    && (k.remote.Some? ==> |k.remote.value| == c.blockSize)
    && (k.temp.Some? && (k.spilled.Some? || (IsReady(k) && k.entry.value.snapshot)) ==> |k.temp.value| == c.blockSize)
  }

  ghost predicate CellInv(c: Config, b: nat, k: Cell) {
    && SizesOk(c, k)
    && (k.entry.Some? ==> EntryOk(c, k.entry.value) && Addressable(c, b))
    && (k.spilled.Some? ==> Addressable(c, b))
    && (IsReady(k) ==> k.remote.Some? && Backed(k))
    && (IsFetching(k, Rehydrating) ==> k.spilled.Some? && k.temp.Some?)
    && (IsFetching(k, LoadingRemote) ==> k.spilled.None?)
    && SpilledOk(c, k)
    && Owned(k)
    && FlushOk(k)
    && (k.flush != Resting ==> WorkerBlock(k.flush) == Some(b))
  }

  /** The cell holds a temp file that counts against `temp_max_files`. */
  predicate HoldsTempSlot(k: Cell) {
    k.spilled.Some? || (k.entry.Some? && k.entry.value.snapshot)
  }

  // ---------------------------------------------------------------- moves

  datatype Move =
    | Stay
    | Patch(op: Op)
    | DropClean
    | Spill(rewrite: bool)
    | LoseTemp
    | BeginFetch(op: Op, source: LoadState)
    | EndRemoteFetch(op: Op, got: Option<Block>)
    | EndTempFetch(op: Op, got: Option<Block>)
    | TakeSnapshot
    | Claim
    | ReadTemp(got: Option<Block>)
    | PartialWrite(garbage: Block)
    | WriteRemote(succeeds: bool)
    | RemoveTemp(succeeds: bool)
    | EndFlush(flushed: bool)

  /** A ready entry after a write landed on it. */
  function PatchedEntry(e: Entry, op: Op): Entry
    requires op.WriteOp? && OpRange(op).end <= |e.data|
  {
    e.(data := Splice(e.data, op.at, op.data), dirty := e.dirty + [OpRange(op)])
  }

  /** A placeholder after its bytes arrived and its queued patch was applied. */
  function LoadedEntry(e: Entry, op: Op, data: Block, snapshot: bool): Entry
    requires OpRange(op).end <= |data|
  {
    var ready := e.(data := data, pending := [], load := Ready, snapshot := snapshot);
    if op.WriteOp? then PatchedEntry(ready, op) else ready
  }

  /** When a move can happen to a cell. */
  ghost predicate CanMove(c: Config, b: nat, k: Cell, m: Move) {
    match m
    case Stay => true
    case Patch(op) => IsReady(k) && op.WriteOp? && OpOk(c, op)
    case DropClean => k.entry.Some? && Clean(k.entry.value)
    case Spill(rewrite) =>
      && IsReady(k) && !k.active
      && (if rewrite then k.entry.value.dirty != [] else k.entry.value.dirty == [] && k.entry.value.snapshot)
    case LoseTemp => IsReady(k) && k.entry.value.dirty != [] && !k.active
    case BeginFetch(op, source) =>
      && k.entry.None? && OpOk(c, op) && op.block == b
      && (if source == Rehydrating then k.spilled.Some? && !k.active else source == LoadingRemote && k.spilled.None?)
    case EndRemoteFetch(op, got) =>
      && IsFetching(k, LoadingRemote) && OpOk(c, op) && k.entry.value.pending == PatchesOf(op)
      && (got.Some? ==> got == k.remote)
    case EndTempFetch(op, got) =>
      && IsFetching(k, Rehydrating) && OpOk(c, op) && k.entry.value.pending == PatchesOf(op)
      && (got.Some? ==> got == k.temp)
    case TakeSnapshot => IsReady(k) && !k.entry.value.snapshot && k.entry.value.dirty != []
    case Claim => !k.active && (k.spilled.Some? || (IsReady(k) && k.entry.value.snapshot))
    case ReadTemp(got) => k.flush.FlushRead? && (got.Some? ==> got == k.temp)
    case PartialWrite(garbage) => k.flush.FlushWrite? && |garbage| == c.blockSize
    case WriteRemote(_) => k.flush.FlushWrite?
    case RemoveTemp(_) => k.flush.FlushRemove?
    case EndFlush(flushed) => k.flush.FlushFinish? && flushed == k.flush.flushed
  }

  function MovedCell(c: Config, b: nat, k: Cell, m: Move): Cell
    requires CanMove(c, b, k, m) && CellInv(c, b, k)
  {
    match m
    case Stay => k
    case Patch(op) => k.(entry := Some(PatchedEntry(k.entry.value, op)))
    case DropClean => k.(entry := None)
    case Spill(rewrite) =>
      k.(entry := None, spilled := Some(k.entry.value.validLen),
         temp := if rewrite then Some(k.entry.value.data) else k.temp)
    case LoseTemp => k.(temp := None)
    case BeginFetch(op, source) =>
      var validLen := if source == Rehydrating then k.spilled.value else c.blockSize;
      k.(entry := Some(Placeholder(c, source, validLen).(pending := PatchesOf(op))),
         active := k.active || source == Rehydrating)
    case EndRemoteFetch(op, got) =>
      if got.None? then k.(entry := None)
      else k.(entry := Some(LoadedEntry(k.entry.value, op, got.value, false)))
    case EndTempFetch(op, got) =>
      if got.None? then k.(entry := None, active := false)
      else k.(entry := Some(LoadedEntry(k.entry.value, op, got.value, true)), active := false, spilled := None)
    case TakeSnapshot =>
      k.(entry := Some(k.entry.value.(snapshot := true, dirty := [])), temp := Some(k.entry.value.data))
    case Claim => k.(active := true, flush := FlushRead(b))
    case ReadTemp(got) => k.(flush := if got.Some? then FlushWrite(b, got.value) else FlushFinish(b, false))
    case PartialWrite(garbage) => k.(remote := Some(garbage))
    case WriteRemote(succeeds) =>
      if succeeds then k.(remote := Some(k.flush.buffer), flush := FlushRemove(b))
      else k.(flush := FlushFinish(b, false))
    case RemoveTemp(succeeds) =>
      if succeeds then k.(temp := None, flush := FlushFinish(b, true)) else k.(flush := FlushFinish(b, false))
    case EndFlush(flushed) =>
      var idle := k.(active := false, flush := Resting);
      if !flushed then idle
      else if k.spilled.Some? then idle.(spilled := None)
      else idle.(entry := Some(k.entry.value.(snapshot := false)))
  }

  // ---------------------------------------------------------------- moves keep the invariant

  lemma CleanEntryAgrees(e: Entry, base: Block)
    requires Agree(e, base) && e.dirty == []
    ensures e.data == base
  {
    assert forall i: nat :: !InDirty(e.dirty, i);
  }

  lemma SelfAgrees(e: Entry)
    ensures Agree(e, e.data)
  {
  }

  lemma PatchAgrees(e: Entry, op: Op, base: Block)
    requires op.WriteOp? && OpRange(op).end <= |e.data| && Agree(e, base)
    ensures Agree(PatchedEntry(e, op), base)
  {
    var e' := PatchedEntry(e, op);
    forall i: nat | i < |base| && !InDirty(e'.dirty, i) ensures e'.data[i] == base[i] {
      assert e'.dirty[|e.dirty|] == OpRange(op);
      forall j | 0 <= j < |e.dirty| ensures !(e.dirty[j].start <= i < e.dirty[j].end) {
        assert e'.dirty[j] == e.dirty[j];
      }
      assert !InDirty(e.dirty, i);
    }
  }

  lemma LoadedAgrees(e: Entry, op: Op, data: Block, snapshot: bool)
    requires OpRange(op).end <= |data| && e.dirty == []
    ensures Agree(LoadedEntry(e, op, data, snapshot), data)
  {
    var ready := e.(data := data, pending := [], load := Ready, snapshot := snapshot);
    SelfAgrees(ready);
    if op.WriteOp? {
      PatchAgrees(ready, op, data);
    }
  }

  /** Every move keeps the invariant of the cell. */
  lemma MoveKeepsInv(c: Config, b: nat, k: Cell, m: Move)
    requires CellInv(c, b, k) && CanMove(c, b, k, m)
    ensures CellInv(c, b, MovedCell(c, b, k, m))
  {
    match m
    case Patch(op) =>
      if k.remote.Some? && Agree(k.entry.value, k.remote.value) {
        PatchAgrees(k.entry.value, op, k.remote.value);
      }
      if k.temp.Some? && Agree(k.entry.value, k.temp.value) {
        PatchAgrees(k.entry.value, op, k.temp.value);
      }
    case Spill(rewrite) =>
    case EndRemoteFetch(op, got) =>
      if got.Some? {
        LoadedAgrees(k.entry.value, op, got.value, false);
      }
    case EndTempFetch(op, got) =>
      if got.Some? {
        LoadedAgrees(k.entry.value, op, got.value, true);
      }
    case _ =>
  }

  /** The view of a cell changes only when a write reaches the resident bytes, and then by exactly its bytes. */
  lemma MoveView(c: Config, b: nat, k: Cell, m: Move)
    requires CellInv(c, b, k) && CanMove(c, b, k, m)
    ensures var was := CellView(k); var now := CellView(MovedCell(c, b, k, m));
      match m
      case Patch(op) => was.Some? && |was.value| == c.blockSize && now == Some(Splice(was.value, op.at, op.data))
      case EndRemoteFetch(op, got) =>
        if got.Some? && op.WriteOp? then
          was.Some? && |was.value| == c.blockSize && now == Some(Splice(was.value, op.at, op.data))
        else now == was
      case EndTempFetch(op, got) =>
        if got.Some? && op.WriteOp? then
          was.Some? && |was.value| == c.blockSize && now == Some(Splice(was.value, op.at, op.data))
        else now == was
      case _ => now == was
  {
    if k.entry.Some? && k.entry.value.dirty == [] && k.remote.Some? && Agree(k.entry.value, k.remote.value) {
      CleanEntryAgrees(k.entry.value, k.remote.value);
    }
    if k.entry.Some? && k.entry.value.dirty == [] && k.temp.Some? && Agree(k.entry.value, k.temp.value) {
      CleanEntryAgrees(k.entry.value, k.temp.value);
    }
  }

  /** Only these moves change whether the cell holds a temp slot. */
  lemma MoveTempSlot(c: Config, b: nat, k: Cell, m: Move)
    requires CellInv(c, b, k) && CanMove(c, b, k, m)
    ensures var was := HoldsTempSlot(k); var now := HoldsTempSlot(MovedCell(c, b, k, m));
      match m
      case Spill(_) => now
      case TakeSnapshot => !was && now
      case EndFlush(flushed) => was && now == !flushed
      case _ => now == was
  {
  }

  /** A placeholder stands after a move only if the move put it there or it stood before and was not ended. */
  lemma MoveLoading(c: Config, b: nat, k: Cell, m: Move)
    requires CellInv(c, b, k) && CanMove(c, b, k, m)
    requires var e := MovedCell(c, b, k, m).entry; e.Some? && IsLoading(e.value)
    ensures m.BeginFetch? || (k.entry.Some? && IsLoading(k.entry.value) && !m.EndRemoteFetch? && !m.EndTempFetch?)
  {
  }
}
