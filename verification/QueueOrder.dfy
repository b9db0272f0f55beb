/**
  The replacement policy of the resident table (cache/src/resident/mod.rs:218-243, 410-483, 706-719): along
  every run the FIFO queue is ordered by the time its blocks came in and the LRU queue by the time of their last
  recorded hit. So an insertion pushes out the block that came in first among those not promoted, and a
  promotion the block that was not hit for the longest time.
*/
module QueueOrder {
  import opened Common
  import opened Resident

  datatype TableOp =
    | Insert(block: nat, validLen: nat, load: LoadState)
    | Hit(block: nat)
    | Remove(block: nat)
    | Enqueue(block: nat, range: Range, data: Block)
    | Finish(block: nat, data: Block)
    | Abort(block: nat)
    | Patch(block: nat, range: Range, data: Block)
    | Mark(block: nat)
    | Clear(block: nat)
    | Attach(block: nat)

  function Outcome(c: Config, t: Table, op: TableOp): Result<Table, Fault> {
    match op
    case Insert(b, validLen, load) => InsertLoadingPlaceholder(c, t, b, validLen, load)
    case Hit(b) => RecordHit(c, t, b)
    case Remove(b) => Ok(Evict(t, b))
    case Enqueue(b, range, data) => EnqueuePendingPatch(t, b, range, data)
    case Finish(b, data) => FinishLoad(c, t, b, data)
    case Abort(b) => AbortLoad(t, b)
    case Patch(b, range, data) => PatchReady(t, b, range, data)
    case Mark(b) => MarkSnapshotWritten(t, b)
    case Clear(b) => ClearSnapshot(t, b)
    case Attach(b) => AttachSnapshot(t, b)
  }

  /** The table after an operation. A failing one changes at most the entry of a refused load. */
  function Stepped(c: Config, t: Table, op: TableOp): Table {
    match Outcome(c, t, op)
    case Ok(t') => t'
    case Err(_) => if op.Finish? then RefusedLoad(c, t, op.block, op.data) else t
  }

  /** When each block came in and when it was last hit. */
  datatype Clock = Clock(now: nat, inserted: map<nat, nat>, hit: map<nat, nat>)

  const START := Clock(0, map[], map[])

  /** An operation that succeeds takes a tick. */
  function Ticked(c: Config, t: Table, k: Clock, op: TableOp): Clock {
    if Outcome(c, t, op).Err? then k
    else match op
      case Insert(b, _, _) => Clock(k.now + 1, k.inserted[b := k.now], k.hit)
      case Hit(b) => Clock(k.now + 1, k.inserted, k.hit[b := k.now])
      case _ => k.(now := k.now + 1)
  }

  /** The times of the queue's blocks rise from its head to its end. */
  ghost predicate Rising(queue: seq<nat>, times: map<nat, nat>, now: nat) {
    && (forall i :: 0 <= i < |queue| ==> queue[i] in times && times[queue[i]] < now)
    && (forall i, j :: 0 <= i < j < |queue| ==> times[queue[i]] < times[queue[j]])
  }

  ghost predicate Ordered(t: Table, k: Clock) {
    Rising(t.fifo, k.inserted, k.now) && Rising(t.lru, k.hit, k.now)
  }

  lemma RisingWithout(queue: seq<nat>, times: map<nat, nat>, now: nat, b: nat)
    requires Rising(queue, times, now)
    ensures Rising(Without(queue, b), times, now)
  {
    if b in queue {
      RisingRemoveAt(queue, times, now, IndexOf(queue, b));
    }
  }

  /** Each place of the shorter queue is a place of the queue, in the same order. */
  lemma RisingRemoveAt(queue: seq<nat>, times: map<nat, nat>, now: nat, at: nat)
    requires Rising(queue, times, now) && at < |queue|
    ensures Rising(RemoveAt(queue, at), times, now)
  {
    var rest := RemoveAt(queue, at);
    forall i | 0 <= i < |rest| ensures rest[i] in times && times[rest[i]] < now {
      assert rest[i] == queue[if i < at then i else i + 1];
    }
    forall i, j | 0 <= i < j < |rest| ensures times[rest[i]] < times[rest[j]] {
      var from, to := if i < at then i else i + 1, if j < at then j else j + 1;
      assert rest[i] == queue[from] && rest[j] == queue[to] && from < to;
    }
  }

  /** Times of blocks outside the queue do not matter, and a block that comes in now goes to the end. */
  lemma RisingAppend(queue: seq<nat>, times: map<nat, nat>, now: nat, b: nat)
    requires Rising(queue, times, now) && b !in queue
    ensures Rising(queue, times[b := now], now + 1) && Rising(queue + [b], times[b := now], now + 1)
  {
    var later, longer := times[b := now], queue + [b];
    forall i | 0 <= i < |queue| ensures queue[i] in later && later[queue[i]] == times[queue[i]] < now {
      assert queue[i] != b;
    }
    forall i, j | 0 <= i < j < |longer| ensures later[longer[i]] < later[longer[j]] {
      assert longer[i] == queue[i];
    }
  }

  lemma RisingLater(queue: seq<nat>, times: map<nat, nat>, now: nat)
    requires Rising(queue, times, now)
    ensures Rising(queue, times, now + 1)
  {
  }

  lemma StepKeepsOrdered(c: Config, t: Table, k: Clock, op: TableOp)
    requires Queued(c, t) && Ordered(t, k)
    ensures Queued(c, Stepped(c, t, op)) && Ordered(Stepped(c, t, op), Ticked(c, t, k, op))
  {
    hide Rising, RecordHit, Evict, Queued;
    RisingLater(t.fifo, k.inserted, k.now);
    RisingLater(t.lru, k.hit, k.now);
    match op
    case Insert(b, validLen, load) => InsertKeepsOrdered(c, t, k, b, validLen, load);
    case Hit(b) => HitKeepsOrdered(c, t, k, b);
    case Remove(b) => EvictKeepsOrdered(c, t, k, b);
    case Abort(b) => EvictKeepsOrdered(c, t, k, b);
    case _ => EntriesOnly(c, t, op);
  }

  /** The other operations rewrite one entry and leave the queues alone. */
  lemma EntriesOnly(c: Config, t: Table, op: TableOp)
    requires Queued(c, t) && !op.Insert? && !op.Hit? && !op.Remove? && !op.Abort?
    ensures var t' := Stepped(c, t, op);
      Queued(c, t') && t'.fifo == t.fifo && t'.lru == t.lru && t'.blocks.Keys == t.blocks.Keys
  {
    hide ApplyPatches, ApplyPatch, ValidatePatch, PatchedPrefix;
  }

  lemma InsertKeepsOrdered(c: Config, t: Table, k: Clock, b: nat, validLen: nat, load: LoadState)
    requires Queued(c, t) && Ordered(t, k)
    ensures var op := Insert(b, validLen, load);
      Queued(c, Stepped(c, t, op)) && Ordered(Stepped(c, t, op), Ticked(c, t, k, op))
  {
    if InsertLoadingPlaceholder(c, t, b, validLen, load).Ok? {
      InsertQueued(c, t, b, validLen, load);
      RisingAppend(t.fifo, k.inserted, k.now, b);
    }
  }

  lemma EvictKeepsOrdered(c: Config, t: Table, k: Clock, b: nat)
    requires Queued(c, t) && Ordered(t, k)
    ensures Queued(c, Evict(t, b)) && Ordered(Evict(t, b), k.(now := k.now + 1))
  {
    EvictQueued(c, t, b);
    RisingWithout(t.fifo, k.inserted, k.now, b);
    RisingWithout(t.lru, k.hit, k.now, b);
    RisingLater(Without(t.fifo, b), k.inserted, k.now);
    RisingLater(Without(t.lru, b), k.hit, k.now);
  }

  lemma PromoteKeepsOrdered(c: Config, t: Table, k: Clock, b: nat)
    requires Ordered(t, k) && b !in t.lru
    ensures var t' := Promote(c, t, b);
      Rising(t'.fifo, k.inserted, k.now + 1) && Rising(t'.lru, k.hit[b := k.now], k.now + 1)
  {
    RisingWithout(t.fifo, k.inserted, k.now, b);
    if |t.lru| != c.lruCapacity || t.lru == [] { RisingAppend(t.lru, k.hit, k.now, b); }
    else { RisingAppend(t.lru[1..], k.hit, k.now, b); }
  }

  lemma RefreshKeepsOrdered(t: Table, k: Clock, b: nat)
    requires Ordered(t, k) && Distinct(t.lru)
    ensures Rising(Without(t.lru, b) + [b], k.hit[b := k.now], k.now + 1)
  {
    RisingWithout(t.lru, k.hit, k.now, b);
    WithoutDistinct(t.lru, b);
    RisingAppend(Without(t.lru, b), k.hit, k.now, b);
  }

  lemma HitKeepsOrdered(c: Config, t: Table, k: Clock, b: nat)
    requires Queued(c, t) && Ordered(t, k)
    ensures Queued(c, Stepped(c, t, Hit(b))) && Ordered(Stepped(c, t, Hit(b)), Ticked(c, t, k, Hit(b)))
  {
    hide Promote, Without, Rising, Clean;
    if RecordHit(c, t, b).Ok? { RecordHitQueued(c, t, b); }
    RisingLater(t.fifo, k.inserted, k.now);
    if b in t.lru {
      RefreshKeepsOrdered(t, k, b);
    } else {
      RisingAppend(t.lru, k.hit, k.now, b);
      PromoteKeepsOrdered(c, t, k, b);
    }
  }

  function Run(c: Config, t: Table, ops: seq<TableOp>): Table
    decreases |ops|
  {
    if ops == [] then t else Run(c, Stepped(c, t, ops[0]), ops[1..])
  }

  function ClockAfter(c: Config, t: Table, k: Clock, ops: seq<TableOp>): Clock
    decreases |ops|
  {
    if ops == [] then k else ClockAfter(c, Stepped(c, t, ops[0]), Ticked(c, t, k, ops[0]), ops[1..])
  }

  /** Any run of table operations, failing or not, keeps both queues in the order of their times. */
  lemma {:induction false} RunKeepsOrdered(c: Config, t: Table, k: Clock, ops: seq<TableOp>)
    requires Queued(c, t) && Ordered(t, k)
    ensures Queued(c, Run(c, t, ops)) && Ordered(Run(c, t, ops), ClockAfter(c, t, k, ops))
    decreases |ops|
  {
    if ops != [] {
      StepKeepsOrdered(c, t, k, ops[0]);
      RunKeepsOrdered(c, Stepped(c, t, ops[0]), Ticked(c, t, k, ops[0]), ops[1..]);
    }
  }

  /** After any run the block an insertion makes room with is the one that came in first of the FIFO queue. */
  lemma InsertVictimIsOldest(c: Config, ops: seq<TableOp>, v: nat)
    requires InsertVictim(c, Run(c, EMPTY_TABLE, ops)) == Some(v)
    ensures var t, k := Run(c, EMPTY_TABLE, ops), ClockAfter(c, EMPTY_TABLE, START, ops);
      && v in t.fifo && |t.fifo| == c.fifoCapacity
      && forall b :: b in t.fifo && b != v ==> v in k.inserted && b in k.inserted && k.inserted[v] < k.inserted[b]
  {
    RunKeepsOrdered(c, EMPTY_TABLE, START, ops);
  }

  /** A hit on a ready block leaves it in the LRU queue, as the block hit last, unless that queue is full and
      its head may not be dropped; then nothing changes. What it drops is the block of a full LRU queue that
      was not hit for the longest time. */
  lemma HitKeepsRecent(c: Config, ops: seq<TableOp>, b: nat)
    requires ConfigOk(c)
    requires var blocks := Run(c, EMPTY_TABLE, ops).blocks; b in blocks && blocks[b].load == Ready
    ensures var t, k := Run(c, EMPTY_TABLE, ops), ClockAfter(c, EMPTY_TABLE, START, ops);
      var t', k' := Stepped(c, t, Hit(b)), Ticked(c, t, k, Hit(b));
      && (b in t'.lru <==> b in t.lru || |t.lru| < c.lruCapacity || (t.lru[0] in t.blocks && Clean(t.blocks[t.lru[0]])))
      && (b !in t'.lru ==> t' == t)
      && (b in t'.lru ==> b !in t'.fifo && t'.lru[|t'.lru| - 1] == b && k'.hit[b] == k.now)
      && (forall x :: x in t.blocks && x !in t'.blocks ==>
            && x in t.lru && |t.lru| == c.lruCapacity
            && forall y :: y in t.lru && y != x ==> x in k.hit && y in k.hit && k.hit[x] < k.hit[y])
  {
    RunKeepsOrdered(c, EMPTY_TABLE, START, ops);
    var t := Run(c, EMPTY_TABLE, ops);
    WithoutDistinct(t.fifo, b);
    RecordHitKeepsDirty(c, t, b);
  }
}
