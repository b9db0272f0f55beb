/**
  The resident table as a value (cache/src/resident/mod.rs): the blocks held in memory and the two queues that
  order them, with every operation of the table as a function that returns the new table or the error the
  source reports. `TwoQueueResident` is the in-place version and is proved equal to these functions.
*/
module Resident {
  import opened Common

  type Block = seq<byte>

  datatype Range = Range(start: nat, end: nat)

  datatype LoadState = LoadingRemote | Rehydrating | Ready

  datatype PendingPatch = PendingPatch(range: Range, data: Block)

  /** `BlockEntry` without its queue handle: `snapshot` is `active_snapshot.is_some()`. */
  datatype Entry = Entry(
    data: Block,
    load: LoadState,
    dirty: seq<Range>,
    snapshot: bool,
    pending: seq<PendingPatch>,
    validLen: nat)

  datatype Table = Table(blocks: map<nat, Entry>, fifo: seq<nat>, lru: seq<nat>)

  datatype Config = Config(blockSize: nat, fifoCapacity: nat, lruCapacity: nat, tempMaxFiles: nat)

  /** `Internal` stands for `InvariantViolation`, `ResidentBlockAlreadyExists` and failed debug assertions;
      `Malformed` for the length, range and alignment errors. */
  datatype Fault = Internal | Malformed | TempIo | RemoteIo | Stopped

  ghost predicate ConfigOk(c: Config) {
    c.blockSize > 0 && c.fifoCapacity > 0 && c.lruCapacity > 0 && c.tempMaxFiles > 0
  }

  const EMPTY_TABLE := Table(map[], [], [])

  /** Nothing in the entry would be lost by dropping it. */
  predicate Clean(e: Entry) {
    e.load == Ready && e.dirty == [] && !e.snapshot && e.pending == []
  }

  predicate IsLoading(e: Entry) { e.load != Ready }

  /** `s` without its first `x`. */
  function Without(s: seq<nat>, x: nat): (r: seq<nat>) {
    if x in s then RemoveAt(s, IndexOf(s, x)) else s
  }

  // ---------------------------------------------------------------- patches

  function ValidatePatch(range: Range, dataLen: nat, blockLen: nat): Result<(), Fault> {
    if range.start > range.end || range.end > blockLen then Err(Internal)
    else if dataLen != range.end - range.start then Err(Internal)
    else Ok(())
  }

  function ApplyPatch(e: Entry, range: Range, data: Block): Result<Entry, Fault> {
    if ValidatePatch(range, |data|, |e.data|).Err? then Err(Internal)
    else Ok(e.(data := Splice(e.data, range.start, data), dirty := e.dirty + [range]))
  }

  /** Applies the queued patches in order. */
  function ApplyPatches(e: Entry, patches: seq<PendingPatch>): Result<Entry, Fault>
    decreases |patches|
  {
    if patches == [] then Ok(e)
    else match ApplyPatch(e, patches[0].range, patches[0].data)
      case Err(f) => Err(f)
      case Ok(e') => ApplyPatches(e', patches[1..])
  }

  /** The entry when the first queued patch fails, or after all of them. */
  function PatchedPrefix(e: Entry, patches: seq<PendingPatch>): Entry
    decreases |patches|
  {
    if patches == [] then e
    else match ApplyPatch(e, patches[0].range, patches[0].data)
      case Err(_) => e
      case Ok(e') => PatchedPrefix(e', patches[1..])
  }

  // ---------------------------------------------------------------- placeholders and loads

  function ZeroBlock(n: nat): Block { seq(n, _ => 0) }

  function Placeholder(c: Config, load: LoadState, validLen: nat): Entry {
    Entry(ZeroBlock(c.blockSize), load, [], false, [], validLen)
  }

  function InsertLoadingPlaceholder(c: Config, t: Table, b: nat, validLen: nat, load: LoadState): Result<Table, Fault> {
    if b in t.blocks then Err(Internal)
    else if validLen == 0 || validLen > c.blockSize then Err(Malformed)
    else if |t.fifo| == c.fifoCapacity then Err(Internal)
    else Ok(Table(t.blocks[b := Placeholder(c, load, validLen)], t.fifo + [b], t.lru))
  }

  function EnqueuePendingPatch(t: Table, b: nat, range: Range, data: Block): Result<Table, Fault> {
    if b !in t.blocks || !IsLoading(t.blocks[b]) then Err(Internal)
    else if ValidatePatch(range, |data|, |t.blocks[b].data|).Err? then Err(Internal)
    else
      var e := t.blocks[b];
      Ok(t.(blocks := t.blocks[b := e.(pending := e.pending + [PendingPatch(range, data)])]))
  }

  /** Installs the loaded bytes, applies the queued patches over them and makes the block ready. */
  function FinishLoad(c: Config, t: Table, b: nat, data: Block): Result<Table, Fault> {
    if |data| != c.blockSize then Err(Malformed)
    else if b !in t.blocks || !IsLoading(t.blocks[b]) then Err(Internal)
    else
      var e := t.blocks[b];
      match ApplyPatches(e.(data := data, pending := []), e.pending)
      case Err(f) => Err(f)
      case Ok(e') => Ok(t.(blocks := t.blocks[b := e'.(load := Ready)]))
  }

  /** The table a failing `FinishLoad` leaves: once the bytes are installed they stay, with the patches before the
      failing one, and the block is not made ready. */
  function RefusedLoad(c: Config, t: Table, b: nat, data: Block): Table {
    if |data| != c.blockSize || b !in t.blocks || !IsLoading(t.blocks[b]) then t
    else
      var e := t.blocks[b];
      t.(blocks := t.blocks[b := PatchedPrefix(e.(data := data, pending := []), e.pending)])
  }

  /** The entry a refused load leaves has the patches before the failing one applied to the new bytes, exactly those:
      applied alone they succeed, and the next one does not. */
  lemma {:induction false} PrefixIsApplied(e: Entry, patches: seq<PendingPatch>) returns (n: nat)
    requires ApplyPatches(e, patches).Err?
    ensures n < |patches| && ApplyPatches(e, patches[..n]) == Ok(PatchedPrefix(e, patches))
    ensures ApplyPatch(PatchedPrefix(e, patches), patches[n].range, patches[n].data).Err?
    decreases |patches|
  {
    var first := ApplyPatch(e, patches[0].range, patches[0].data);
    if first.Err? {
      n := 0;
    } else {
      var rest := PrefixIsApplied(first.value, patches[1..]);
      n := rest + 1;
      assert patches[..n][1..] == patches[1..][..rest];
    }
  }

  /** A load that is refused for a patch leaves the block loading, with its queue of patches taken. */
  lemma RefusedLoadEntry(c: Config, t: Table, b: nat, data: Block) returns (n: nat)
    requires |data| == c.blockSize && b in t.blocks && IsLoading(t.blocks[b]) && FinishLoad(c, t, b, data).Err?
    ensures var e, left := t.blocks[b], RefusedLoad(c, t, b, data);
      && n < |e.pending| && b in left.blocks && left.fifo == t.fifo && left.lru == t.lru
      && left.blocks == t.blocks[b := left.blocks[b]]
      && ApplyPatches(e.(data := data, pending := []), e.pending[..n]) == Ok(left.blocks[b])
      && IsLoading(left.blocks[b]) && left.blocks[b].pending == []
  {
    var e := t.blocks[b].(data := data, pending := []);
    n := PrefixIsApplied(e, t.blocks[b].pending);
    PrefixKeepsState(e, t.blocks[b].pending);
  }

  lemma {:induction false} PrefixKeepsState(e: Entry, patches: seq<PendingPatch>)
    ensures PatchedPrefix(e, patches).load == e.load && PatchedPrefix(e, patches).pending == e.pending
    decreases |patches|
  {
    if patches != [] && ApplyPatch(e, patches[0].range, patches[0].data).Ok? {
      PrefixKeepsState(ApplyPatch(e, patches[0].range, patches[0].data).value, patches[1..]);
    }
  }

  function AbortLoad(t: Table, b: nat): Result<Table, Fault> {
    if b !in t.blocks || !IsLoading(t.blocks[b]) then Err(Internal)
    else Ok(Evict(t, b))
  }

  function PatchReady(t: Table, b: nat, range: Range, data: Block): Result<Table, Fault> {
    if b !in t.blocks || t.blocks[b].load != Ready then Err(Internal)
    else match ApplyPatch(t.blocks[b], range, data)
      case Err(f) => Err(f)
      case Ok(e) => Ok(t.(blocks := t.blocks[b := e]))
  }

  // ---------------------------------------------------------------- snapshots

  function MarkSnapshotWritten(t: Table, b: nat): Result<Table, Fault> {
    if b !in t.blocks || t.blocks[b].load != Ready then Err(Internal)
    else Ok(t.(blocks := t.blocks[b := t.blocks[b].(snapshot := true, dirty := [])]))
  }

  function ClearSnapshot(t: Table, b: nat): Result<Table, Fault> {
    if b !in t.blocks || t.blocks[b].load != Ready || !t.blocks[b].snapshot then Err(Internal)
    else Ok(t.(blocks := t.blocks[b := t.blocks[b].(snapshot := false)]))
  }

  function AttachSnapshot(t: Table, b: nat): Result<Table, Fault> {
    if b !in t.blocks || t.blocks[b].load != Ready then Err(Internal)
    else Ok(t.(blocks := t.blocks[b := t.blocks[b].(snapshot := true)]))
  }

  // ---------------------------------------------------------------- what is refused

  /** Exactly when the table refuses what, and why. */
  lemma RefusalTable(c: Config, t: Table, b: nat, validLen: nat, load: LoadState, range: Range, data: Block)
    ensures var ready, loading := b in t.blocks && t.blocks[b].load == Ready, b in t.blocks && t.blocks[b].load != Ready;
      var fits := loading || ready ==>
        range.start <= range.end <= |t.blocks[b].data| && |data| == range.end - range.start;
      && InsertLoadingPlaceholder(c, t, b, validLen, load).Err? == (
           b in t.blocks || validLen == 0 || validLen > c.blockSize || |t.fifo| == c.fifoCapacity)
      && (InsertLoadingPlaceholder(c, t, b, validLen, load) == Err(Malformed) <==>
            b !in t.blocks && (validLen == 0 || validLen > c.blockSize))
      && EnqueuePendingPatch(t, b, range, data).Err? == !(loading && fits)
      && PatchReady(t, b, range, data).Err? == !(ready && fits)
      && AbortLoad(t, b).Err? == !loading
      && MarkSnapshotWritten(t, b).Err? == !ready
      && ClearSnapshot(t, b).Err? == !(ready && t.blocks[b].snapshot)
      && AttachSnapshot(t, b).Err? == !ready
      && (FinishLoad(c, t, b, data) == Err(Malformed) <==> |data| != c.blockSize)
      && (|data| == c.blockSize && !loading ==> FinishLoad(c, t, b, data) == Err(Internal))
  {
    if b in t.blocks {
      PatchesFaultInternal(t.blocks[b].(data := data, pending := []), t.blocks[b].pending);
    }
  }

  lemma {:induction false} PatchesFaultInternal(e: Entry, patches: seq<PendingPatch>)
    ensures ApplyPatches(e, patches).Err? ==> ApplyPatches(e, patches) == Err(Internal)
    decreases |patches|
  {
    if patches != [] && ApplyPatch(e, patches[0].range, patches[0].data).Ok? {
      PatchesFaultInternal(ApplyPatch(e, patches[0].range, patches[0].data).value, patches[1..]);
    }
  }

  predicate PatchFits(p: PendingPatch, length: nat) {
    p.range.start <= p.range.end <= length && |p.data| == p.range.end - p.range.start
  }

  /** The byte at `i` after the patches landed on `x` one after the other: that of the last one that covers it. */
  function PatchedByte(patches: seq<PendingPatch>, i: nat, x: byte): byte
    requires forall p :: p in patches ==> |p.data| == p.range.end - p.range.start
  {
    if patches == [] then x
    else
      var p := patches[|patches| - 1];
      if p.range.start <= i < p.range.end then p.data[i - p.range.start]
      else PatchedByte(patches[..|patches| - 1], i, x)
  }

  function RangesOf(patches: seq<PendingPatch>): seq<Range> {
    if patches == [] then [] else RangesOf(patches[..|patches| - 1]) + [patches[|patches| - 1].range]
  }

  /** Applying patches succeeds exactly when each fits; each byte is then that of the last patch over it, and the dirty
      ranges grow by those of the patches, in order. */
  lemma {:induction false} PatchesLandInOrder(e: Entry, patches: seq<PendingPatch>)
    ensures ApplyPatches(e, patches).Ok? <==> forall p :: p in patches ==> PatchFits(p, |e.data|)
    ensures ApplyPatches(e, patches).Ok? ==>
      var e' := ApplyPatches(e, patches).value;
      && e' == e.(data := e'.data, dirty := e.dirty + RangesOf(patches)) && |e'.data| == |e.data|
      && forall i :: 0 <= i < |e.data| ==> e'.data[i] == PatchedByte(patches, i, e.data[i])
    decreases |patches|
  {
    if patches == [] {
      assert e.dirty + RangesOf(patches) == e.dirty;
    } else {
      var n := |patches| - 1;
      PatchesLandInOrder(e, patches[..n]);
      ApplyLast(e, patches);
      assert patches == patches[..n] + [patches[n]];
      AllFit(patches, |e.data|);
      if ApplyPatches(e, patches).Ok? {
        assert e.dirty + RangesOf(patches[..n]) + [patches[n].range] == e.dirty + RangesOf(patches);
      }
    }
  }

  lemma AllFit(patches: seq<PendingPatch>, length: nat)
    requires patches != []
    ensures (forall p :: p in patches ==> PatchFits(p, length))
      <==> (forall p :: p in patches[..|patches| - 1] ==> PatchFits(p, length)) && PatchFits(patches[|patches| - 1], length)
  {
    var n := |patches| - 1;
    hide PatchFits;
    assert patches == patches[..n] + [patches[n]];
  }

  /** The last patch lands on what the others left. */
  lemma {:induction false} ApplyLast(e: Entry, patches: seq<PendingPatch>)
    requires patches != []
    ensures var n := |patches| - 1;
      ApplyPatches(e, patches) == match ApplyPatches(e, patches[..n])
        case Err(f) => Err(f)
        case Ok(e') => ApplyPatch(e', patches[n].range, patches[n].data)
    decreases |patches|
  {
    var n := |patches| - 1;
    var first := ApplyPatch(e, patches[0].range, patches[0].data);
    if n > 0 && first.Ok? {
      ApplyLast(first.value, patches[1..]);
      assert patches[1..][..n - 1] == patches[..n][1..] && patches[1..][n - 1] == patches[n];
    }
  }

  /** A patch that is queued on a loading block comes after those queued before, and a load that ends has the queue
      applied to the bytes that arrived. */
  lemma QueuedPatchesLand(c: Config, t: Table, b: nat, range: Range, patch: Block, data: Block)
    requires EnqueuePendingPatch(t, b, range, patch).Ok? && |data| == c.blockSize
    ensures var t' := EnqueuePendingPatch(t, b, range, patch).value;
      var queue := t.blocks[b].pending + [PendingPatch(range, patch)];
      && FinishLoad(c, t', b, data).Ok? == (forall p :: p in queue ==> PatchFits(p, |data|))
      && (FinishLoad(c, t', b, data).Ok? ==>
            var e := FinishLoad(c, t', b, data).value.blocks[b];
            && e.load == Ready && e.pending == [] && |e.data| == |data|
            && e.dirty == t.blocks[b].dirty + RangesOf(queue)
            && forall i :: 0 <= i < |data| ==> e.data[i] == PatchedByte(queue, i, data[i]))
  {
    var queue := t.blocks[b].pending + [PendingPatch(range, patch)];
    PatchesLandInOrder(t.blocks[b].(data := data, pending := []), queue);
  }

  // ---------------------------------------------------------------- eviction and promotion

  /** Takes a block out of the table and out of whichever queue holds it. */
  function Evict(t: Table, b: nat): Table {
    Table(t.blocks - {b}, Without(t.fifo, b), Without(t.lru, b))
  }

  function InsertVictim(c: Config, t: Table): Option<nat> {
    if |t.fifo| < c.fifoCapacity || t.fifo == [] then None else Some(t.fifo[0])
  }

  /** Whether a promotion may go ahead: the LRU queue has room, or its head can be dropped without loss. */
  function CanPromote(c: Config, t: Table): Result<bool, Fault> {
    if |t.lru| != c.lruCapacity then Ok(true)
    else if t.lru == [] || t.lru[0] !in t.blocks then Err(Internal)
    else Ok(Clean(t.blocks[t.lru[0]]))
  }

  /** The block leaves the FIFO queue for the end of the LRU queue, whose head goes when it is full. */
  function Promote(c: Config, t: Table, b: nat): Table {
    if |t.lru| != c.lruCapacity || t.lru == [] then
      Table(t.blocks, Without(t.fifo, b), t.lru + [b])
    else
      Table(t.blocks - {t.lru[0]}, Without(t.fifo, b), t.lru[1..] + [b])
  }

  /** A hit moves a block of the LRU queue to its end and promotes one of the FIFO queue into the LRU queue,
      evicting the LRU head when the queue is full and the head is clean, and not promoting otherwise. */
  function RecordHit(c: Config, t: Table, b: nat): Result<Table, Fault> {
    if b !in t.blocks then Ok(t)
    else if IsLoading(t.blocks[b]) then Err(Internal)
    else if b in t.fifo then
      match CanPromote(c, t)
      case Err(f) => Err(f)
      case Ok(room) => Ok(if room then Promote(c, t, b) else t)
    else if b in t.lru then Ok(t.(lru := Without(t.lru, b) + [b]))
    else Err(Internal)
  }

  // ---------------------------------------------------------------- queries

  /** The blocks with an active snapshot; `active_snapshot_count` is their number. */
  function SnapshotBlocks(t: Table): set<nat> {
    set b | b in t.blocks && t.blocks[b].snapshot
  }

  /** The ready blocks with a snapshot that `excluded` does not rule out. */
  function FlushableBlocks(t: Table, excluded: set<nat>): set<nat> {
    set b | b in t.blocks && t.blocks[b].load == Ready && t.blocks[b].snapshot && b !in excluded
  }

  /** The ready dirty blocks that have no snapshot yet. */
  function SnapshotCandidates(t: Table): set<nat> {
    set b | b in t.blocks && t.blocks[b].load == Ready && !t.blocks[b].snapshot
            && t.blocks[b].dirty != [] && t.blocks[b].pending == []
  }

  predicate AllClean(t: Table) {
    forall b :: b in t.blocks ==> Clean(t.blocks[b])
  }

  // ---------------------------------------------------------------- the queues partition the blocks

  /** The keys are the disjoint union of the two queues, and both queues are within capacity. */
  ghost predicate Queued(c: Config, t: Table) {
    && Distinct(t.fifo) && Distinct(t.lru)
    && (forall b :: b in t.fifo ==> b !in t.lru)
    && (forall b :: b in t.blocks <==> b in t.fifo || b in t.lru)
    && |t.fifo| <= c.fifoCapacity && |t.lru| <= c.lruCapacity
  }

  lemma WithoutDistinct(s: seq<nat>, x: nat)
    requires Distinct(s)
    ensures Distinct(Without(s, x))
    ensures forall y :: y in Without(s, x) <==> y in s && y != x
    ensures |Without(s, x)| == if x in s then |s| - 1 else |s|
  {
    var r := Without(s, x);
    if x in s {
      var i := IndexOf(s, x);
      forall y | y in s && y != x ensures y in r {
        var j :| 0 <= j < |s| && s[j] == y;
        assert r[if j < i then j else j - 1] == y;
      }
    }
  }

  lemma AppendDistinct(s: seq<nat>, x: nat)
    requires Distinct(s) && x !in s
    ensures Distinct(s + [x])
    ensures forall y :: y in s + [x] <==> y in s || y == x
  {
  }

  lemma EvictQueued(c: Config, t: Table, b: nat)
    requires Queued(c, t)
    ensures Queued(c, Evict(t, b))
    ensures b in t.fifo ==> |Evict(t, b).fifo| == |t.fifo| - 1
    ensures |Evict(t, b).fifo| <= |t.fifo|
  {
    WithoutDistinct(t.fifo, b);
    WithoutDistinct(t.lru, b);
  }

  lemma InsertQueued(c: Config, t: Table, b: nat, validLen: nat, load: LoadState)
    requires Queued(c, t) && InsertLoadingPlaceholder(c, t, b, validLen, load).Ok?
    ensures Queued(c, InsertLoadingPlaceholder(c, t, b, validLen, load).value)
  {
    AppendDistinct(t.fifo, b);
  }

  lemma TailDistinct(s: seq<nat>)
    requires Distinct(s) && s != []
    ensures Distinct(s[1..]) && s[0] !in s[1..]
    ensures forall y :: y in s[1..] <==> y in s && y != s[0]
  {
    forall y | y in s && y != s[0] ensures y in s[1..] {
      var j :| 0 <= j < |s| && s[j] == y;
      assert s[1..][j - 1] == y;
    }
  }

  lemma PromoteQueued(c: Config, t: Table, b: nat)
    requires Queued(c, t) && b in t.fifo && (|t.lru| == c.lruCapacity ==> t.lru != [])
    ensures Queued(c, Promote(c, t, b))
  {
    hide Without;
    WithoutDistinct(t.fifo, b);
    AppendDistinct(t.lru, b);
    if t.lru != [] {
      TailDistinct(t.lru);
      AppendDistinct(t.lru[1..], b);
    }
  }

  lemma RecordHitQueued(c: Config, t: Table, b: nat)
    requires Queued(c, t) && RecordHit(c, t, b).Ok?
    ensures Queued(c, RecordHit(c, t, b).value)
  {
    hide Without, Promote;
    if b in t.blocks && b in t.fifo {
      PromoteQueued(c, t, b);
    } else if b in t.blocks {
      WithoutDistinct(t.lru, b);
      AppendDistinct(Without(t.lru, b), b);
    }
  }

  /** A hit touches no entry: it may only drop the LRU head, and only when that head is clean; the block hit
      stays, whatever the queues hold. */
  lemma RecordHitKeepsDirty(c: Config, t: Table, b: nat)
    requires Queued(c, t) && ConfigOk(c)
    requires b in t.blocks && t.blocks[b].load == Ready
    ensures var r := RecordHit(c, t, b);
      && r.Ok?
      && b in r.value.blocks
      && (forall x :: x in r.value.blocks ==> x in t.blocks && r.value.blocks[x] == t.blocks[x])
      && (forall x :: x in t.blocks && x !in r.value.blocks ==> Clean(t.blocks[x]) && t.lru != [] && x == t.lru[0])
  {
    WithoutDistinct(t.lru, b);
  }
}
