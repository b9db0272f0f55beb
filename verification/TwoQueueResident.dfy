/**
  The resident table as the source keeps it (cache/src/resident/mod.rs): a map from block numbers to entries
  that remember their queue node, plus two slot lists. `Table` is its abstract value; every method is equal to
  the function of the same name in `Resident`, which also shows that the "queue node missing" and "value
  mismatch" errors of the source cannot happen on a well-formed table.
*/
module TwoQueue {
  import opened Common
  import opened IndexedLists
  import R = Resident

  datatype QueueRef = Fifo(node: nat) | Lru(node: nat)

  datatype BlockEntry = BlockEntry(body: R.Entry, queueRef: QueueRef)

  /** Every handle of a list holds a block whose entry names that very handle. */
  ghost predicate NodesOwnBlocks(blocks: map<nat, BlockEntry>, held: map<nat, nat>, inFifo: bool) {
    forall h :: h in held ==>
      held[h] in blocks && blocks[held[h]].queueRef == (if inFifo then Fifo(h) else Lru(h))
  }

  /** Every entry names a live handle of its queue that holds its block. */
  ghost predicate RefsLive(blocks: map<nat, BlockEntry>, inFifo: map<nat, nat>, inLru: map<nat, nat>) {
    forall b :: b in blocks ==>
      var held := if blocks[b].queueRef.Fifo? then inFifo else inLru;
      blocks[b].queueRef.node in held && held[blocks[b].queueRef.node] == b
  }

  lemma BodiesWith(blocks: map<nat, BlockEntry>, b: nat, e: BlockEntry)
    ensures Bodies(blocks[b := e]) == Bodies(blocks)[b := e.body]
  {
  }

  lemma BodiesWithout(blocks: map<nat, BlockEntry>, b: nat)
    ensures Bodies(blocks - {b}) == Bodies(blocks) - {b}
  {
  }

  lemma BodiesRefiled(blocks: map<nat, BlockEntry>, b: nat, ref: QueueRef)
    requires b in blocks
    ensures Bodies(blocks[b := blocks[b].(queueRef := ref)]) == Bodies(blocks)
  {
  }

  /** Entries and queue nodes name each other one to one. */
  ghost predicate Owned(blocks: map<nat, BlockEntry>, inFifo: map<nat, nat>, inLru: map<nat, nat>) {
    && RefsLive(blocks, inFifo, inLru)
    && NodesOwnBlocks(blocks, inFifo, true)
    && NodesOwnBlocks(blocks, inLru, false)
  }

  lemma OwnedAfterInsert(
    blocks: map<nat, BlockEntry>, inFifo: map<nat, nat>, inLru: map<nat, nat>, b: nat, e: R.Entry, node: nat)
    requires Owned(blocks, inFifo, inLru) && b !in blocks && node !in inFifo
    ensures Owned(blocks[b := BlockEntry(e, Fifo(node))], inFifo[node := b], inLru)
  {
  }

  lemma OwnedAfterRewrite(
    blocks: map<nat, BlockEntry>, inFifo: map<nat, nat>, inLru: map<nat, nat>, b: nat, e: R.Entry)
    requires Owned(blocks, inFifo, inLru) && b in blocks
    ensures Owned(blocks[b := blocks[b].(body := e)], inFifo, inLru)
  {
  }

  lemma OwnedAfterEvict(blocks: map<nat, BlockEntry>, inFifo: map<nat, nat>, inLru: map<nat, nat>, b: nat)
    requires Owned(blocks, inFifo, inLru) && b in blocks
    ensures var h := blocks[b].queueRef.node;
      if blocks[b].queueRef.Fifo? then Owned(blocks - {b}, inFifo - {h}, inLru)
      else Owned(blocks - {b}, inFifo, inLru - {h})
  {
  }

  /** The node an entry names is the only one that holds its block. */
  lemma OwnedOnce(blocks: map<nat, BlockEntry>, inFifo: map<nat, nat>, inLru: map<nat, nat>, b: nat)
    requires Owned(blocks, inFifo, inLru) && b in blocks
    ensures var h := blocks[b].queueRef.node;
      if blocks[b].queueRef.Fifo? then
        && h in inFifo && inFifo[h] == b && (forall x :: x in inFifo && inFifo[x] == b ==> x == h)
        && forall x :: x in inLru ==> inLru[x] != b
      else
        && h in inLru && inLru[h] == b && (forall x :: x in inLru && inLru[x] == b ==> x == h)
        && forall x :: x in inFifo ==> inFifo[x] != b
  {
  }

  lemma OwnedAfterPromote(blocks: map<nat, BlockEntry>, inFifo: map<nat, nat>, inLru: map<nat, nat>, b: nat, node: nat)
    requires Owned(blocks, inFifo, inLru) && b in blocks && blocks[b].queueRef.Fifo? && node !in inLru
    ensures Owned(blocks[b := blocks[b].(queueRef := Lru(node))], inFifo - {blocks[b].queueRef.node}, inLru[node := b])
  {
  }

  ghost function Bodies(blocks: map<nat, BlockEntry>): map<nat, R.Entry> {
    map b | b in blocks :: blocks[b].body
  }

  class TwoQueueResident {
    const config: R.Config
    var blocks: map<nat, BlockEntry>
    const fifo: IndexedList
    const lru: IndexedList

    ghost predicate Valid()
      reads this, fifo, lru
    {
      && fifo != lru && fifo.Valid() && lru.Valid()
      && R.ConfigOk(config)
      && Owned(blocks, fifo.Holds(), lru.Holds())
      && fifo.len <= config.fifoCapacity && lru.len <= config.lruCapacity
    }

    ghost function Table(): R.Table
      reads this, fifo, lru
      requires Valid()
    {
      R.Table(Bodies(blocks), fifo.Values(), lru.Values())
    }

    constructor (config: R.Config)
      requires R.ConfigOk(config)
      ensures Valid() && fresh(fifo) && fresh(lru) && this.config == config
      ensures Table() == R.EMPTY_TABLE
    {
      this.config := config;
      blocks := map[];
      fifo := new IndexedList();
      lru := new IndexedList();
    }

    /** The node an entry names stands where the block stands in its queue's values. */
    lemma Located(b: nat)
      requires Valid() && b in blocks
      ensures var ref := blocks[b].queueRef;
        if ref.Fifo? then
          ref.node in fifo.Order && b in fifo.Values() && b !in lru.Values()
          && IndexOf(fifo.Values(), b) == IndexOf(fifo.Order, ref.node)
        else
          ref.node in lru.Order && b in lru.Values() && b !in fifo.Values()
          && IndexOf(lru.Values(), b) == IndexOf(lru.Order, ref.node)
    {
      OwnedOnce(blocks, fifo.Holds(), lru.Holds(), b);
      hide Owned, IndexedList.Valid, IndexedList.Holds, IndexOf;
      if blocks[b].queueRef.Fifo? {
        fifo.ValuePosition(blocks[b].queueRef.node);
        lru.ValueAbsent(b);
      } else {
        lru.ValuePosition(blocks[b].queueRef.node);
        fifo.ValueAbsent(b);
      }
    }

    /** The shape invariant: the map keys are the disjoint union of the FIFO and LRU values. */
    lemma ValidIsQueued()
      requires Valid()
      ensures R.Queued(config, Table())
    {
      var t := Table();
      fifo.HeldInOrder();
      lru.HeldInOrder();
      ListDistinct(fifo, true);
      ListDistinct(lru, false);
      forall b | b in t.fifo ensures b !in t.lru && b in t.blocks {
        assert fifo.Holds()[fifo.Order[IndexOf(t.fifo, b)]] == b;
        Located(b);
      }
      forall b | b in t.lru ensures b in t.blocks {
        assert lru.Holds()[lru.Order[IndexOf(t.lru, b)]] == b;
      }
      forall b | b in t.blocks ensures b in t.fifo || b in t.lru {
        Located(b);
      }
    }

    lemma ListDistinct(list: IndexedList, inFifo: bool)
      requires list.Valid() && NodesOwnBlocks(blocks, list.Holds(), inFifo)
      ensures Distinct(list.Values())
    {
      list.HeldInOrder();
      forall i, j | 0 <= i < j < |list.Values()| ensures list.Values()[i] != list.Values()[j] {
        assert list.Holds()[list.Order[i]] == list.Values()[i];
        assert list.Holds()[list.Order[j]] == list.Values()[j];
      }
    }

    /** Replaces the body of an entry, keeping its queue node. */
    method SetBody(b: nat, e: R.Entry)
      requires Valid() && b in blocks
      modifies this
      ensures Valid() && Table() == old(Table()).(blocks := old(Table()).blocks[b := e])
    {
      hide Bodies, Owned, IndexedList.Valid, IndexedList.Holds, IndexedList.Values;
      OwnedAfterRewrite(blocks, fifo.Holds(), lru.Holds(), b, e);
      BodiesWith(blocks, b, blocks[b].(body := e));
      blocks := blocks[b := blocks[b].(body := e)];
    }

    /** Files a new entry at the back of the FIFO queue. */
    method Insert(b: nat, e: R.Entry)
      requires Valid() && b !in blocks && fifo.len < config.fifoCapacity
      modifies this, fifo
      ensures Valid()
      ensures Table() == R.Table(old(Table()).blocks[b := e], old(Table()).fifo + [b], old(Table()).lru)
    {
      ghost var inFifo := fifo.Holds();
      ghost var was := blocks;
      ghost var inLru := lru.Holds();
      fifo.HeldInOrder();
      hide Owned, Bodies, IndexedList.Valid, IndexedList.Holds;
      var node := fifo.PushBack(b);
      OwnedAfterInsert(was, inFifo, inLru, b, e, node);
      BodiesWith(was, b, BlockEntry(e, Fifo(node)));
      blocks := blocks[b := BlockEntry(e, Fifo(node))];
    }

    method InsertLoadingPlaceholder(b: nat, validLen: nat, load: R.LoadState) returns (r: Result<(), R.Fault>)
      requires Valid()
      modifies this, fifo
      ensures Valid()
      ensures r.Err? ==> Table() == old(Table())
      ensures match R.InsertLoadingPlaceholder(config, old(Table()), b, validLen, load)
        case Ok(t) => r == Ok(()) && Table() == t
        case Err(f) => r == Err(f)
    {
      if b in blocks {
        r := Err(R.Internal);
      } else if validLen == 0 || validLen > config.blockSize {
        r := Err(R.Malformed);
      } else if fifo.len == config.fifoCapacity {
        r := Err(R.Internal);
      } else {
        Insert(b, R.Placeholder(config, load, validLen));
        r := Ok(());
      }
    }

    method EnqueuePendingPatch(b: nat, range: R.Range, data: R.Block) returns (r: Result<(), R.Fault>)
      requires Valid()
      modifies this
      ensures Valid()
      ensures r.Err? ==> Table() == old(Table())
      ensures match R.EnqueuePendingPatch(old(Table()), b, range, data)
        case Ok(t) => r == Ok(()) && Table() == t
        case Err(f) => r == Err(f)
    {
      if b !in blocks || !R.IsLoading(blocks[b].body) {
        return Err(R.Internal);
      }
      var e := blocks[b].body;
      if R.ValidatePatch(range, |data|, |e.data|).Err? {
        return Err(R.Internal);
      }
      SetBody(b, e.(pending := e.pending + [R.PendingPatch(range, data)]));
      r := Ok(());
    }

    /** `apply_pending_patches`: the queue of patches is taken and applied in a loop, up to the first that fails. */
    method ApplyPendingPatches(e: R.Entry) returns (r: Result<(), R.Fault>, entry: R.Entry)
      ensures entry == R.PatchedPrefix(e.(pending := []), e.pending)
      ensures match R.ApplyPatches(e.(pending := []), e.pending)
        case Ok(patched) => r == Ok(()) && entry == patched
        case Err(f) => r == Err(f)
    {
      var patches := e.pending;
      entry := e.(pending := []);
      var i := 0;
      while i < |patches|
        invariant 0 <= i <= |patches|
        invariant R.ApplyPatches(entry, patches[i..]) == R.ApplyPatches(e.(pending := []), e.pending)
        invariant R.PatchedPrefix(entry, patches[i..]) == R.PatchedPrefix(e.(pending := []), e.pending)
      {
        var step := R.ApplyPatch(entry, patches[i].range, patches[i].data);
        assert patches[i..][1..] == patches[i + 1..];
        if step.Err? {
          return Err(step.error), entry;
        }
        entry := step.value;
        i := i + 1;
      }
      r := Ok(());
    }

    method FinishLoad(b: nat, data: R.Block) returns (r: Result<(), R.Fault>)
      requires Valid()
      modifies this
      ensures Valid()
      ensures match R.FinishLoad(config, old(Table()), b, data)
        case Ok(t) => r == Ok(()) && Table() == t
        case Err(f) => r == Err(f) && Table() == R.RefusedLoad(config, old(Table()), b, data)
    {
      hide R.PatchedPrefix, R.ApplyPatches;
      if |data| != config.blockSize {
        return Err(R.Malformed);
      }
      if b !in blocks || !R.IsLoading(blocks[b].body) {
        return Err(R.Internal);
      }
      var patched, entry := ApplyPendingPatches(blocks[b].body.(data := data));
      if patched.Err? {
        SetBody(b, entry);
        return patched;
      }
      SetBody(b, entry.(load := R.Ready));
      r := Ok(());
    }

    /** The values of the queues without the block, by the place of its node. */
    lemma WithoutNode(b: nat)
      requires Valid() && b in blocks
      ensures var ref := blocks[b].queueRef;
        if ref.Fifo? then
          && ref.node in fifo.Order && R.Without(lru.Values(), b) == lru.Values()
          && R.Without(fifo.Values(), b) == RemoveAt(fifo.Values(), IndexOf(fifo.Order, ref.node))
        else
          && ref.node in lru.Order && R.Without(fifo.Values(), b) == fifo.Values()
          && R.Without(lru.Values(), b) == RemoveAt(lru.Values(), IndexOf(lru.Order, ref.node))
    {
      hide Owned, Bodies, IndexedList.Valid;
      Located(b);
    }

    /** Takes the node of a block out of the queue that holds it. */
    method RemoveNode(b: nat) returns (removed: Option<nat>)
      requires Valid() && b in blocks
      modifies fifo, lru
      ensures fifo.Valid() && lru.Valid()
      ensures removed == Some(b)
      ensures Owned(blocks - {b}, fifo.Holds(), lru.Holds())
      ensures fifo.Values() == R.Without(old(fifo.Values()), b)
      ensures lru.Values() == R.Without(old(lru.Values()), b)
      ensures fifo.len <= old(fifo.len) && lru.len <= old(lru.len)
    {
      WithoutNode(b);
      OwnedAfterEvict(blocks, fifo.Holds(), lru.Holds(), b);
      hide Owned, Bodies, R.ConfigOk, IndexedList.Valid, IndexedList.Values, R.Without, IndexOf;
      if blocks[b].queueRef.Fifo? {
        removed := fifo.Remove(blocks[b].queueRef.node);
      } else {
        removed := lru.Remove(blocks[b].queueRef.node);
      }
    }

    /** Removes a block through the queue node its entry names. */
    method EvictBlock(b: nat) returns (r: Result<Option<R.Entry>, R.Fault>)
      requires Valid()
      modifies this, fifo, lru
      ensures Valid()
      ensures b !in old(Table()).blocks ==> r == Ok(None) && Table() == old(Table())
      ensures b in old(Table()).blocks ==>
        r == Ok(Some(old(Table()).blocks[b])) && Table() == R.Evict(old(Table()), b)
    {
      if b !in blocks {
        return Ok(None);
      }
      var removed := RemoveNode(b);
      if removed != Some(b) {
        return Err(R.Internal);
      }
      var entry := blocks[b];
      BodiesWithout(blocks, b);
      blocks := blocks - {b};
      r := Ok(Some(entry.body));
    }

    method AbortLoad(b: nat) returns (r: Result<(), R.Fault>)
      requires Valid()
      modifies this, fifo, lru
      ensures Valid()
      ensures match R.AbortLoad(old(Table()), b)
        case Ok(t) => r == Ok(()) && Table() == t
        case Err(f) => r == Err(f) && Table() == old(Table())
    {
      if b !in blocks || !R.IsLoading(blocks[b].body) {
        return Err(R.Internal);
      }
      var evicted := EvictBlock(b);
      if evicted.Err? || evicted.value.None? {
        return Err(R.Internal);
      }
      r := Ok(());
    }

    method PatchReady(b: nat, range: R.Range, data: R.Block) returns (r: Result<(), R.Fault>)
      requires Valid()
      modifies this
      ensures Valid()
      ensures match R.PatchReady(old(Table()), b, range, data)
        case Ok(t) => r == Ok(()) && Table() == t
        case Err(f) => r == Err(f) && Table() == old(Table())
    {
      if b !in blocks || blocks[b].body.load != R.Ready {
        return Err(R.Internal);
      }
      var patched := R.ApplyPatch(blocks[b].body, range, data);
      if patched.Err? {
        return Err(patched.error);
      }
      SetBody(b, patched.value);
      r := Ok(());
    }

    method MarkSnapshotWritten(b: nat) returns (r: Result<(), R.Fault>)
      requires Valid()
      modifies this
      ensures Valid()
      ensures match R.MarkSnapshotWritten(old(Table()), b)
        case Ok(t) => r == Ok(()) && Table() == t
        case Err(f) => r == Err(f) && Table() == old(Table())
    {
      if b !in blocks || blocks[b].body.load != R.Ready {
        return Err(R.Internal);
      }
      SetBody(b, blocks[b].body.(snapshot := true, dirty := []));
      r := Ok(());
    }

    method ClearSnapshot(b: nat) returns (r: Result<(), R.Fault>)
      requires Valid()
      modifies this
      ensures Valid()
      ensures match R.ClearSnapshot(old(Table()), b)
        case Ok(t) => r == Ok(()) && Table() == t
        case Err(f) => r == Err(f) && Table() == old(Table())
    {
      if b !in blocks || blocks[b].body.load != R.Ready || !blocks[b].body.snapshot {
        return Err(R.Internal);
      }
      SetBody(b, blocks[b].body.(snapshot := false));
      r := Ok(());
    }

    method AttachSnapshot(b: nat) returns (r: Result<(), R.Fault>)
      requires Valid()
      modifies this
      ensures Valid()
      ensures match R.AttachSnapshot(old(Table()), b)
        case Ok(t) => r == Ok(()) && Table() == t
        case Err(f) => r == Err(f) && Table() == old(Table())
    {
      if b !in blocks || blocks[b].body.load != R.Ready {
        return Err(R.Internal);
      }
      SetBody(b, blocks[b].body.(snapshot := true));
      r := Ok(());
    }

    method SelectInsertVictim() returns (r: Option<nat>)
      requires Valid()
      ensures r == R.InsertVictim(config, Table())
    {
      if fifo.len < config.fifoCapacity {
        return None;
      }
      r := fifo.FrontValue();
    }

    /** A hit on a ready block: refresh it in the LRU queue, or promote it there from the FIFO queue. */
    method RecordHit(b: nat) returns (r: Result<(), R.Fault>)
      requires Valid()
      modifies this, fifo, lru
      ensures Valid()
      ensures match R.RecordHit(config, old(Table()), b)
        case Ok(t) => r == Ok(()) && Table() == t
        case Err(f) => r == Err(f) && Table() == old(Table())
    {
      if b !in blocks {
        return Ok(());
      }
      if R.IsLoading(blocks[b].body) {
        return Err(R.Internal);
      }
      Located(b);
      if blocks[b].queueRef.Lru? {
        r := Refresh(b);
      } else {
        var evictable := CanPromote();
        if evictable.Err? {
          return Err(R.Internal);
        }
        if !evictable.value {
          return Ok(());
        }
        r := Promote(b);
      }
    }

    method Refresh(b: nat) returns (r: Result<(), R.Fault>)
      requires Valid() && b in blocks && blocks[b].queueRef.Lru?
      modifies lru
      ensures Valid() && r == Ok(())
      ensures Table() == old(Table()).(lru := R.Without(old(lru.Values()), b) + [b])
    {
      Located(b);
      var moved := lru.MoveToBack(blocks[b].queueRef.node);
      if !moved {
        return Err(R.Internal);
      }
      r := Ok(());
    }

    /** The LRU queue has room, or its head is clean. */
    method CanPromote() returns (r: Result<bool, R.Fault>)
      requires Valid()
      ensures r == R.CanPromote(config, Table())
      ensures r.Ok?
    {
      if lru.len != config.lruCapacity {
        return Ok(true);
      }
      lru.HeldInOrder();
      assert lru.Holds()[lru.Order[0]] == lru.Values()[0];
      var head := lru.FrontValue();
      if head.None? || head.value !in blocks {
        return Err(R.Internal);
      }
      r := Ok(R.Clean(blocks[head.value].body));
    }

    /** The promotion itself, once the LRU queue has room or a clean head. */
    method Promote(b: nat) returns (r: Result<(), R.Fault>)
      requires Valid() && b in blocks && blocks[b].queueRef.Fifo?
      requires R.CanPromote(config, Table()) == Ok(true)
      modifies this, fifo, lru
      ensures Valid() && r == Ok(())
      ensures Table() == R.Promote(config, old(Table()), b)
    {
      Located(b);
      ghost var fifoWas := fifo.Holds();
      var removed := fifo.Remove(blocks[b].queueRef.node);
      if removed != Some(b) {
        return Err(R.Internal);
      }
      if lru.len == config.lruCapacity {
        var evicted := EvictLruHead(b, fifoWas);
        if evicted.Err? {
          return Err(R.Internal);
        }
      }
      PushLru(b, fifoWas);
      r := Ok(());
    }

    method EvictLruHead(ghost hit: nat, ghost fifoWas: map<nat, nat>) returns (r: Result<Option<nat>, R.Fault>)
      requires fifo != lru && lru.Valid() && lru.Values() != []
      requires Owned(blocks, fifoWas, lru.Holds())
      requires hit in blocks && blocks[hit].queueRef.Fifo?
      modifies this, lru
      ensures lru.Valid() && r == Ok(Some(old(lru.Values())[0]))
      ensures lru.Values() == old(lru.Values())[1..]
      ensures Bodies(blocks) == Bodies(old(blocks)) - {old(lru.Values())[0]}
      ensures Owned(blocks, fifoWas, lru.Holds())
      ensures hit in blocks && blocks[hit] == old(blocks)[hit]
    {
      lru.HeldInOrder();
      assert lru.Holds()[lru.Order[0]] == lru.Values()[0];
      OwnedAfterEvict(blocks, fifoWas, lru.Holds(), lru.Values()[0]);
      BodiesWithout(blocks, lru.Values()[0]);
      var head := lru.PopFront();
      if head.None? {
        return Ok(None);
      }
      if head.value !in blocks {
        return Err(R.Internal);
      }
      blocks := blocks - {head.value};
      r := Ok(head);
    }

    method PushLru(b: nat, ghost fifoWas: map<nat, nat>)
      requires fifo != lru && lru.Valid()
      requires Owned(blocks, fifoWas, lru.Holds()) && b in blocks && blocks[b].queueRef.Fifo?
      modifies this, lru
      ensures lru.Valid() && lru.Values() == old(lru.Values()) + [b]
      ensures Bodies(blocks) == Bodies(old(blocks))
      ensures Owned(blocks, fifoWas - {old(blocks)[b].queueRef.node}, lru.Holds())
    {
      ghost var lruWas := lru.Holds();
      var node := lru.PushBack(b);
      OwnedAfterPromote(blocks, fifoWas, lruWas, b, node);
      BodiesRefiled(blocks, b, Lru(node));
      blocks := blocks[b := blocks[b].(queueRef := Lru(node))];
    }
  }
}
