/**
  The mutex-guarded state of the cache, changed in place (cache/src/cache/mod.rs, worker.rs, state.rs). Each
  method is one lock-held section or a helper of one, and is equal to the function of the same name in
  `CacheModel`, so what is proved about every interleaving of those functions holds of these bodies.
*/
module CacheStates {
  import opened Common
  import opened TwoQueue
  import R = Resident
  import M = CacheModel
  import T = Temp

  class CacheState {
    const config: R.Config
    const resident: TwoQueueResident
    const temp: T.TempStore
    var spilledDirty: map<nat, nat>
    var activeTempBlocks: set<nat>
    var waiters: nat
    var stopRequested: bool

    ghost predicate Valid()
      reads this, resident, resident.fifo, resident.lru
    {
      resident.Valid() && resident.config == config
    }

    ghost function Shared(): M.Shared
      reads this, resident, resident.fifo, resident.lru, temp
      requires Valid()
    {
      M.Shared(resident.Table(), spilledDirty, activeTempBlocks, waiters, stopRequested, temp.finals)
    }

    /** What the temp write of a victim, or of a snapshot candidate, will do under `faults`. */
    ghost function OutcomeOn(b: Option<nat>, faults: T.WriteFaults): T.WriteOutcome
      reads temp
    {
      if b.Some? then temp.Outcome(b.value, faults) else T.Refused
    }

    constructor (config: R.Config, leftOver: T.Files)
      requires R.ConfigOk(config)
      ensures Valid() && this.config == config
      ensures fresh(resident) && fresh(resident.fifo) && fresh(resident.lru) && fresh(temp)
      ensures Shared() == M.Shared(R.EMPTY_TABLE, map[], {}, 0, false, leftOver)
    {
      this.config := config;
      resident := new TwoQueueResident(config);
      temp := new T.TempStore(leftOver, map[], map[]);
      spilledDirty, activeTempBlocks, waiters, stopRequested := map[], {}, 0, false;
    }

    method TempFileCount() returns (n: nat)
      requires Valid()
      ensures n == M.TempFileCount(Shared())
    {
      var snapshots := set b | b in resident.blocks && resident.blocks[b].body.snapshot;
      assert snapshots == R.SnapshotBlocks(resident.Table());
      n := |spilledDirty| + |snapshots|;
    }

    method IsQuiescent() returns (r: bool)
      requires Valid()
      ensures r == M.IsQuiescent(Shared())
    {
      if stopRequested || spilledDirty != map[] || activeTempBlocks != {} || waiters != 0 {
        return false;
      }
      r := forall b :: b in resident.blocks ==> R.Clean(resident.blocks[b].body);
      assert r == R.AllClean(resident.Table()) by {
        assert forall b :: b in resident.Table().blocks <==> b in resident.blocks;
      }
    }

    // -------------------------------------------------------------- waiters

    /** `release_foreground_dirty_waiter`: afterwards the caller holds no flag. */
    method ReleaseWaiter(waiting: bool) returns (r: Result<(), R.Fault>)
      requires Valid()
      modifies this`waiters
      ensures Valid()
      ensures match M.ReleaseWaiter(old(Shared()), waiting)
        case Ok(s) => r == Ok(()) && Shared() == s
        case Err(f) => r == Err(f) && Shared() == old(Shared())
    {
      if !waiting {
        return Ok(());
      }
      if waiters == 0 {
        return Err(R.Internal);
      }
      waiters := waiters - 1;
      r := Ok(());
    }

    /** The bookkeeping of `wait_for_state_change` before it blocks. */
    method BeforeWait(waiting: bool, reason: M.WaitReason) returns (r: Result<bool, R.Fault>)
      requires Valid()
      modifies this`waiters
      ensures Valid()
      ensures match M.BeforeWait(old(Shared()), waiting, reason)
        case Ok((s, flag)) => r == Ok(flag) && Shared() == s
        case Err(f) => r == Err(f) && Shared() == old(Shared())
    {
      if reason == M.Generic {
        var released := ReleaseWaiter(waiting);
        if released.Err? {
          return Err(released.error);
        }
        return Ok(false);
      }
      if !waiting {
        waiters := waiters + 1;
      }
      r := Ok(true);
    }

    // -------------------------------------------------------------- making room

    method SpillVictim(victim: nat) returns (slot: M.Slot)
      requires Valid()
      modifies this`spilledDirty, resident, resident.fifo, resident.lru
      ensures Valid()
      ensures (slot, Shared()) == M.SpillVictim(old(Shared()), victim)
    {
      hide TwoQueueResident.Valid, TwoQueueResident.Table;
      var evicted := resident.EvictBlock(victim);
      slot := M.SlotError(R.Internal);
      if evicted.Ok? && evicted.value.Some? {
        if evicted.value.value.snapshot && victim !in spilledDirty {
          spilledDirty := spilledDirty[victim := evicted.value.value.validLen];
          slot := M.Reserved;
        }
      }
    }

    method SpillDirtyVictim(victim: nat, faults: T.WriteFaults) returns (slot: M.Slot)
      requires Valid() && victim in resident.blocks
      modifies this`spilledDirty, resident, resident.fifo, resident.lru, temp
      ensures Valid()
      ensures (slot, Shared()) == M.SpillDirtyVictim(old(Shared()), victim, old(temp.Outcome(victim, faults)))
    {
      hide TwoQueueResident.Valid;
      var written := temp.WriteBlock(victim, resident.blocks[victim].body.data, faults);
      if !written {
        return M.SlotError(R.TempIo);
      }
      var marked := resident.MarkSnapshotWritten(victim);
      if marked.Err? {
        return M.SlotError(marked.error);
      }
      slot := SpillVictim(victim);
    }

    /** `prepare_resident_slot_for_insert`. */
    method PrepareSlot(faults: T.WriteFaults) returns (slot: M.Slot)
      requires Valid()
      modifies this`spilledDirty, resident, resident.fifo, resident.lru, temp
      ensures Valid()
      ensures (slot, Shared()) == M.PrepareSlot(config, old(Shared()),
        old(OutcomeOn(R.InsertVictim(config, resident.Table()), faults)))
    {
      hide TwoQueueResident.Valid;
      var selected := resident.SelectInsertVictim();
      if selected.None? {
        return M.Reserved;
      }
      var victim := selected.value;
      if victim in activeTempBlocks {
        return M.SlotWait(M.Generic);
      }
      if victim !in resident.blocks {
        return M.SlotError(R.Internal);
      }
      var e := resident.blocks[victim].body;
      if R.IsLoading(e) || e.pending != [] {
        return M.SlotWait(M.Generic);
      }
      if e.dirty == [] && !e.snapshot {
        var evicted := resident.EvictBlock(victim);
        if evicted.Err? || evicted.value.None? {
          return M.SlotError(R.Internal);
        }
        return M.Reserved;
      }
      var count := TempFileCount();
      if !e.snapshot && count >= config.tempMaxFiles {
        return M.SlotWait(M.DirtyEvictionTempSlot);
      }
      if e.dirty != [] {
        slot := SpillDirtyVictim(victim, faults);
      } else {
        slot := SpillVictim(victim);
      }
    }

    // -------------------------------------------------------------- hits and misses

    method CopyReady(op: M.Op) returns (r: Result<R.Block, R.Fault>)
      requires Valid()
      ensures r == M.CopyReady(resident.Table(), op)
    {
      hide TwoQueueResident.Valid;
      if op.block !in resident.blocks || resident.blocks[op.block].body.load != R.Ready {
        return Err(R.Internal);
      }
      if op.WriteOp? {
        return Ok([]);
      }
      var data := resident.blocks[op.block].body.data;
      if |data| < op.at + op.length {
        return Err(R.Malformed);
      }
      r := Ok(data[op.at..op.at + op.length]);
    }

    method HitRead(op: M.Op) returns (plan: M.Plan)
      requires Valid() && op.ReadOp?
      modifies resident, resident.fifo, resident.lru
      ensures Valid()
      ensures (plan, Shared()) == M.HitRead(config, old(Shared()), op)
    {
      hide TwoQueueResident.Valid, TwoQueueResident.Table;
      var copied := CopyReady(op);
      if copied.Err? {
        return M.Failed(copied.error);
      }
      var hit := resident.RecordHit(op.block);
      if hit.Err? {
        return M.Failed(hit.error);
      }
      plan := M.Done(copied.value);
    }

    method HitWrite(op: M.Op) returns (plan: M.Plan)
      requires Valid() && op.WriteOp?
      modifies resident, resident.fifo, resident.lru
      ensures Valid()
      ensures (plan, Shared()) == M.HitWrite(config, old(Shared()), op)
    {
      hide TwoQueueResident.Valid, TwoQueueResident.Table;
      var patched := resident.PatchReady(op.block, M.OpRange(op), op.data);
      if patched.Err? {
        plan := M.Failed(patched.error);
      } else {
        var hit := resident.RecordHit(op.block);
        plan := if hit.Err? then M.Failed(hit.error) else M.Done([]);
      }
    }

    method InsertForOp(op: M.Op, validLen: nat, load: R.LoadState) returns (plan: M.Plan)
      requires Valid()
      modifies resident, resident.fifo
      ensures Valid()
      ensures (plan, Shared()) == M.InsertForOp(config, old(Shared()), op, validLen, load)
    {
      hide TwoQueueResident.Valid, TwoQueueResident.Table;
      var inserted := resident.InsertLoadingPlaceholder(op.block, validLen, load);
      plan := if inserted.Err? then M.Failed(inserted.error) else M.Fetch(load);
      if inserted.Ok? && op.WriteOp? {
        var queued := resident.EnqueuePendingPatch(op.block, M.OpRange(op), op.data);
        if queued.Err? {
          plan := M.Failed(queued.error);
        }
      }
    }

    /** `prepare_read_miss` and `prepare_write_miss`. */
    method PrepareMiss(op: M.Op, faults: T.WriteFaults) returns (plan: M.Plan)
      requires Valid()
      modifies this`spilledDirty, this`activeTempBlocks, resident, resident.fifo, resident.lru, temp
      ensures Valid()
      ensures (plan, Shared()) == M.PrepareMiss(config, old(Shared()), op,
        old(OutcomeOn(R.InsertVictim(config, resident.Table()), faults)))
    {
      hide TwoQueueResident.Valid, TwoQueueResident.Table;
      var spilled := if op.block in spilledDirty then Some(spilledDirty[op.block]) else None;
      if spilled.Some? && op.block in activeTempBlocks {
        return M.Wait(M.Generic);
      }
      var slot := PrepareSlot(faults);
      if slot.SlotWait? {
        return M.Wait(slot.reason);
      }
      if slot.SlotError? {
        return M.Failed(slot.fault);
      }
      if spilled.None? {
        plan := InsertForOp(op, config.blockSize, R.LoadingRemote);
        return;
      }
      if op.block in activeTempBlocks {
        return M.Failed(R.Internal);
      }
      activeTempBlocks := activeTempBlocks + {op.block};
      plan := InsertForOp(op, spilled.value, R.Rehydrating);
    }

    /** `plan_read_touched_block` and `plan_write_touched_block`. */
    method PlanOp(op: M.Op, faults: T.WriteFaults) returns (plan: M.Plan)
      requires Valid()
      modifies this`spilledDirty, this`activeTempBlocks, resident, resident.fifo, resident.lru, temp
      ensures Valid()
      ensures (plan, Shared()) == M.PlanOp(config, old(Shared()), op,
        old(OutcomeOn(R.InsertVictim(config, resident.Table()), faults)))
    {
      hide TwoQueueResident.Valid;
      if op.block !in resident.blocks {
        plan := PrepareMiss(op, faults);
      } else if R.IsLoading(resident.blocks[op.block].body) {
        plan := M.Wait(M.Generic);
      } else if op.ReadOp? {
        plan := HitRead(op);
      } else {
        plan := HitWrite(op);
      }
    }

    // -------------------------------------------------------------- finishing a fetch

    method FinishRehydrate(b: nat, data: R.Block) returns (r: Result<(), R.Fault>)
      requires Valid()
      modifies this`spilledDirty, resident
      ensures Valid()
      ensures (r, Shared()) == M.FinishRehydrate(config, old(Shared()), b, data)
    {
      hide TwoQueueResident.Valid;
      var loaded := resident.FinishLoad(b, data);
      if loaded.Err? {
        r := Err(loaded.error);
      } else if b !in spilledDirty {
        r := Err(R.Internal);
      } else {
        var validLen := spilledDirty[b];
        spilledDirty := spilledDirty - {b};
        if b !in resident.blocks || validLen != resident.blocks[b].body.validLen {
          r := Err(R.Internal);
        } else {
          r := resident.AttachSnapshot(b);
        }
      }
    }

    /** A failed fetch takes its placeholder back out. */
    method RollBack(b: nat, why: R.Fault) returns (plan: M.Plan)
      requires Valid()
      modifies resident, resident.fifo, resident.lru
      ensures Valid()
      ensures (plan, Shared()) == M.RollBack(old(Shared()), b, why)
    {
      hide TwoQueueResident.Valid, TwoQueueResident.Table;
      var aborted := resident.AbortLoad(b);
      plan := M.Failed(if aborted.Err? then aborted.error else why);
    }

    /** The re-locked end of a remote fetch. */
    method FinishRemoteFetch(op: M.Op, got: Option<R.Block>) returns (plan: M.Plan)
      requires Valid()
      modifies resident, resident.fifo, resident.lru
      ensures Valid()
      ensures (plan, Shared()) == M.FinishRemoteFetch(config, old(Shared()), op, got)
    {
      hide TwoQueueResident.Valid, TwoQueueResident.Table;
      if got.None? {
        plan := RollBack(op.block, R.RemoteIo);
        return;
      }
      var loaded := resident.FinishLoad(op.block, got.value);
      if loaded.Err? {
        return M.Failed(loaded.error);
      }
      var copied := CopyReady(op);
      plan := if copied.Err? then M.Failed(copied.error) else M.Done(copied.value);
    }

    /** The re-locked end of a rehydration. */
    method FinishTempFetch(op: M.Op, got: Option<R.Block>) returns (plan: M.Plan)
      requires Valid()
      modifies this`spilledDirty, this`activeTempBlocks, resident, resident.fifo, resident.lru
      ensures Valid()
      ensures (plan, Shared()) == M.FinishTempFetch(config, old(Shared()), op, got)
    {
      hide TwoQueueResident.Valid, TwoQueueResident.Table;
      if op.block !in activeTempBlocks {
        return M.Failed(R.Internal);
      }
      activeTempBlocks := activeTempBlocks - {op.block};
      if got.None? {
        plan := RollBack(op.block, R.TempIo);
        return;
      }
      var finished := FinishRehydrate(op.block, got.value);
      if finished.Err? {
        return M.Failed(finished.error);
      }
      var copied := CopyReady(op);
      plan := if copied.Err? then M.Failed(copied.error) else M.Done(copied.value);
    }

    // -------------------------------------------------------------- the worker

    method ClaimTemp(b: nat) returns (scan: M.Scan)
      requires Valid()
      modifies this`activeTempBlocks
      ensures Valid()
      ensures (scan, Shared()) == M.ClaimTemp(config, old(Shared()), b)
    {
      if b in activeTempBlocks {
        return M.ScanFault(R.Internal);
      }
      activeTempBlocks := activeTempBlocks + {b};
      scan := if M.Addressable(config, b) then M.FlushTemp(b) else M.ScanFault(R.Internal);
    }

    method SelectExistingTempFlush() returns (scan: M.Scan)
      requires Valid()
      modifies this`activeTempBlocks
      ensures Valid()
      ensures (scan, Shared()) == M.SelectExistingTempFlush(config, old(Shared()))
    {
      var spilled := Least(spilledDirty.Keys - activeTempBlocks);
      if spilled.Some? {
        scan := ClaimTemp(spilled.value);
        return;
      }
      var flushable := set b | b in resident.blocks && resident.blocks[b].body.load == R.Ready
                               && resident.blocks[b].body.snapshot && b !in activeTempBlocks;
      assert flushable == R.FlushableBlocks(resident.Table(), activeTempBlocks);
      var snapshotted := Least(flushable);
      if snapshotted.Some? {
        scan := ClaimTemp(snapshotted.value);
        return;
      }
      scan := M.NothingToDo;
    }

    /** `create_snapshot_temp_locked`. */
    method CreateSnapshot(faults: T.WriteFaults) returns (scan: M.Scan)
      requires Valid()
      modifies resident, temp
      ensures Valid()
      ensures (scan, Shared()) == M.CreateSnapshot(config, old(Shared()),
        old(OutcomeOn(Least(R.SnapshotCandidates(resident.Table())), faults)))
    {
      hide TwoQueueResident.Valid;
      var count := TempFileCount();
      if waiters > 0 || count >= config.tempMaxFiles {
        return M.NothingToDo;
      }
      var candidates := set b | b in resident.blocks && resident.blocks[b].body.load == R.Ready
                                && !resident.blocks[b].body.snapshot && resident.blocks[b].body.dirty != []
                                && resident.blocks[b].body.pending == [];
      assert candidates == R.SnapshotCandidates(resident.Table());
      var candidate := Least(candidates);
      if candidate.None? {
        return M.NothingToDo;
      }
      scan := SnapshotBlock(candidate.value, faults);
    }

    method SnapshotBlock(b: nat, faults: T.WriteFaults) returns (scan: M.Scan)
      requires Valid() && b in resident.blocks
      modifies resident, temp
      ensures Valid()
      ensures (scan, Shared()) == M.SnapshotBlock(old(Shared()), b, old(temp.Outcome(b, faults)))
    {
      hide TwoQueueResident.Valid;
      var e := resident.blocks[b].body;
      scan := M.ScanFault(R.Internal);
      if e.load == R.Ready && !e.snapshot && e.dirty != [] && e.pending == [] {
        var written := temp.WriteBlock(b, e.data, faults);
        scan := M.NothingToDo;
        if written {
          var marked := resident.MarkSnapshotWritten(b);
          scan := if marked.Err? then M.ScanFault(R.Internal) else M.SnapshotCreated;
        }
      }
    }

    method FinishFlushSuccess(b: nat) returns (r: Result<(), R.Fault>)
      requires Valid()
      modifies this`spilledDirty, resident
      ensures Valid()
      ensures (r, Shared()) == M.FinishFlushSuccess(old(Shared()), b)
    {
      hide TwoQueueResident.Valid;
      if b in spilledDirty {
        spilledDirty := spilledDirty - {b};
        r := Ok(());
      } else if b in resident.blocks {
        r := resident.ClearSnapshot(b);
      } else {
        r := Err(R.Internal);
      }
    }

    /** The re-locked end of `flush_active_temp`. */
    method FinishFlush(b: nat, flushed: bool) returns (r: Result<(), R.Fault>)
      requires Valid()
      modifies this`spilledDirty, this`activeTempBlocks, resident
      ensures Valid()
      ensures (r, Shared()) == M.FinishFlush(old(Shared()), b, flushed)
    {
      hide TwoQueueResident.Valid;
      if b !in activeTempBlocks {
        return Err(R.Internal);
      }
      activeTempBlocks := activeTempBlocks - {b};
      if !flushed {
        return Ok(());
      }
      r := FinishFlushSuccess(b);
    }
  }
}
