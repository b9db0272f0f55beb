/** Every step of the system acts on every cell by exactly the move `MoveOf` names, and never fails internally. */
module CacheSteps {
  import opened Common
  import opened Resident
  import opened CacheModel
  import opened CacheSystem
  import opened CacheCells
  import opened CacheInvariant
  import Temp

  // ---------------------------------------------------------------- misses

  lemma InsertHasForm(c: Config, s: Shared, op: Op, validLen: nat, load: LoadState)
    requires op.block !in s.table.blocks && 0 < validLen <= c.blockSize && |s.table.fifo| < c.fifoCapacity
    requires OpOk(c, op) && load != Ready
    ensures InsertForOp(c, s, op, validLen, load) == (Fetch(load), s.(table := Table(
      s.table.blocks[op.block := Placeholder(c, load, validLen).(pending := PatchesOf(op))],
      s.table.fifo + [op.block], s.table.lru)))
  {
    var e := Placeholder(c, load, validLen);
    assert e.pending + PatchesOf(op) == PatchesOf(op);
    assert s.table.blocks[op.block := e][op.block := e.(pending := PatchesOf(op))]
        == s.table.blocks[op.block := e.(pending := PatchesOf(op))];
  }

  /** The state after a placeholder for `op` went into the table. */
  function WithPlaceholder(c: Config, s: Shared, op: Op, source: LoadState): Shared {
    s.(active := if source == Rehydrating then s.active + {op.block} else s.active,
       table := Table(
         s.table.blocks[op.block := Placeholder(c, source, c.blockSize).(pending := PatchesOf(op))],
         s.table.fifo + [op.block], s.table.lru))
  }

  lemma PlaceholderMoves(c: Config, s: Sys, op: Op, source: LoadState, b: nat)
    requires CellInv(c, b, CellOf(s, b)) && OpOk(c, op)
    requires b == op.block ==> CanMove(c, b, CellOf(s, b), BeginFetch(op, source))
    ensures Moves(c, s, s.(shared := WithPlaceholder(c, s.shared, op, source)), b,
                  if b == op.block then BeginFetch(op, source) else Stay)
  {
  }

  /** A miss that may not touch the spilled file waits; otherwise it makes room and inserts its placeholder. */
  lemma MissHasForm(c: Config, s: Sys, op: Op, w: Temp.WriteOutcome)
    requires Inv(c, s) && OpOk(c, op) && op.block !in s.shared.table.blocks
    requires !(op.block in s.shared.spilled && op.block in s.shared.active)
    ensures var (slot, sh) := PrepareSlot(c, s.shared, w);
      PrepareMiss(c, s.shared, op, w) ==
        match slot
        case SlotWait(reason) => (Wait(reason), sh)
        case SlotError(f) => (Failed(f), sh)
        case Reserved =>
          var source := if op.block in s.shared.spilled then Rehydrating else LoadingRemote;
          (Fetch(source), WithPlaceholder(c, sh, op, source))
  {
    SlotResult(c, s, w);
    assert CellInv(c, op.block, CellOf(s, op.block));
    var (slot, sh) := PrepareSlot(c, s.shared, w);
    if slot == Reserved {
      if op.block in s.shared.spilled {
        InsertHasForm(c, sh.(active := sh.active + {op.block}), op, s.shared.spilled[op.block], Rehydrating);
      } else {
        InsertHasForm(c, sh, op, c.blockSize, LoadingRemote);
      }
    }
  }

  lemma MissMoves(c: Config, s: Sys, op: Op, w: Temp.WriteOutcome, b: nat)
    requires Inv(c, s) && OpOk(c, op) && op.block !in s.shared.table.blocks
    requires !(op.block in s.shared.spilled && op.block in s.shared.active)
    ensures Moves(c, s, s.(shared := PrepareMiss(c, s.shared, op, w).1), b, PlanMove(c, s.shared, op, w, b))
  {
    MissHasForm(c, s, op, w);
    SlotMoves(c, s, w, b);
    if b == op.block {
      SlotOnMissing(c, s, w, b);
    }
    var (slot, sh) := PrepareSlot(c, s.shared, w);
    if slot == Reserved {
      var source := if op.block in s.shared.spilled then Rehydrating else LoadingRemote;
      var mid := s.(shared := sh);
      MoveKeepsInv(c, b, CellOf(s, b), SlotMove(c, s.shared, w, b));
      PlaceholderMoves(c, mid, op, source, b);
    }
  }

  lemma SlotOnMissing(c: Config, s: Sys, w: Temp.WriteOutcome, b: nat)
    requires Inv(c, s) && b !in s.shared.table.blocks
    ensures SlotMove(c, s.shared, w, b) == Stay
    ensures CellOf(s.(shared := PrepareSlot(c, s.shared, w).1), b) == CellOf(s, b)
  {
    SlotMoves(c, s, w, b);
  }

  // ---------------------------------------------------------------- hits

  lemma RecordHitHasForm(c: Config, t: Table, b: nat)
    requires ConfigOk(c) && Queued(c, t) && b in t.blocks && t.blocks[b].load == Ready
    ensures RecordHit(c, t, b).Ok? && Queued(c, RecordHit(c, t, b).value)
    ensures var v := PromotionVictim(c, t, b);
      && RecordHit(c, t, b).value.blocks == (if v.Some? then t.blocks - {v.value} else t.blocks)
      && v != Some(b)
  {
    RecordHitQueued(c, t, b);
    if b in t.fifo && |t.lru| == c.lruCapacity {
      assert t.lru[0] in t.lru;
    }
  }

  /** The table after a hit on block `b`, whose entries before the promotion are `blocks`. */
  ghost predicate HitTable(c: Config, s: Shared, b: nat, blocks: map<nat, Entry>, sh: Shared) {
    var v := PromotionVictim(c, s.table, b);
    && Queued(c, sh.table)
    && sh == s.(table := sh.table)
    && sh.table.blocks == (if v.Some? then blocks - {v.value} else blocks)
    && v != Some(b)
  }

  lemma ReadHitHasForm(c: Config, s: Shared, op: Op)
    requires ConfigOk(c) && Queued(c, s.table) && OpOk(c, op) && op.ReadOp?
    requires op.block in s.table.blocks && s.table.blocks[op.block].load == Ready
    requires |s.table.blocks[op.block].data| == c.blockSize
    ensures var (plan, sh) := Hit(c, s, op);
      && plan == Done(s.table.blocks[op.block].data[op.at..op.at + op.length])
      && HitTable(c, s, op.block, s.table.blocks, sh)
  {
    hide RecordHit, PromotionVictim, Queued, PatchReady;
    RecordHitHasForm(c, s.table, op.block);
  }

  lemma PatchHasForm(t: Table, op: Op)
    requires op.WriteOp? && op.block in t.blocks && t.blocks[op.block].load == Ready
    requires OpRange(op).end <= |t.blocks[op.block].data|
    ensures PatchReady(t, op.block, OpRange(op), op.data)
         == Ok(t.(blocks := t.blocks[op.block := PatchedEntry(t.blocks[op.block], op)]))
  {
  }

  /** A patch changes neither the queues nor what a promotion drops. */
  lemma PatchKeepsVictim(c: Config, t: Table, op: Op)
    requires Queued(c, t) && op.WriteOp? && op.block in t.blocks && t.blocks[op.block].load == Ready
    requires OpRange(op).end <= |t.blocks[op.block].data|
    ensures var patched := t.(blocks := t.blocks[op.block := PatchedEntry(t.blocks[op.block], op)]);
      Queued(c, patched) && PromotionVictim(c, patched, op.block) == PromotionVictim(c, t, op.block)
  {
    hide PatchedEntry;
    assert op.block in t.fifo ==> op.block !in t.lru;
  }

  lemma WriteHitHasForm(c: Config, s: Shared, op: Op)
    requires ConfigOk(c) && Queued(c, s.table) && OpOk(c, op) && op.WriteOp?
    requires op.block in s.table.blocks && s.table.blocks[op.block].load == Ready
    requires |s.table.blocks[op.block].data| == c.blockSize
    ensures var (plan, sh) := Hit(c, s, op);
      && plan == Done([])
      && HitTable(c, s, op.block, s.table.blocks[op.block := PatchedEntry(s.table.blocks[op.block], op)], sh)
  {
    hide RecordHit, PromotionVictim, Queued, PatchReady;
    PatchHasForm(s.table, op);
    PatchKeepsVictim(c, s.table, op);
    RecordHitHasForm(c, PatchReady(s.table, op.block, OpRange(op), op.data).value, op.block);
  }

  lemma HitHasForm(c: Config, s: Shared, op: Op)
    requires ConfigOk(c) && Queued(c, s.table) && OpOk(c, op)
    requires op.block in s.table.blocks && s.table.blocks[op.block].load == Ready
    requires |s.table.blocks[op.block].data| == c.blockSize
    ensures var (plan, sh) := Hit(c, s, op);
      var e := s.table.blocks[op.block];
      var v := PromotionVictim(c, s.table, op.block);
      var blocks := s.table.blocks[op.block := if op.WriteOp? then PatchedEntry(e, op) else e];
      && plan == Done(if op.WriteOp? then [] else e.data[op.at..op.at + op.length])
      && Queued(c, sh.table)
      && sh == s.(table := sh.table)
      && sh.table.blocks == (if v.Some? then blocks - {v.value} else blocks)
      && v != Some(op.block)
  {
    hide Hit, PromotionVictim, Queued;
    if op.ReadOp? {
      ReadHitHasForm(c, s, op);
      assert s.table.blocks[op.block := s.table.blocks[op.block]] == s.table.blocks;
    } else {
      WriteHitHasForm(c, s, op);
    }
  }

  lemma HitTableMoves(c: Config, s: Sys, op: Op, w: Temp.WriteOutcome, t: Table, b: nat)
    requires CellInv(c, b, CellOf(s, b)) && OpOk(c, op) && op.block in s.shared.table.blocks
    requires var e := s.shared.table.blocks[op.block]; e.load == Ready && |e.data| == c.blockSize
    requires var e := s.shared.table.blocks[op.block];
      var v := PromotionVictim(c, s.shared.table, op.block);
      var blocks := s.shared.table.blocks[op.block := if op.WriteOp? then PatchedEntry(e, op) else e];
      v != Some(op.block) && t.blocks == if v.Some? then blocks - {v.value} else blocks
    ensures Moves(c, s, s.(shared := s.shared.(table := t)), b, PlanMove(c, s.shared, op, w, b))
  {
  }

  lemma HitMoves(c: Config, s: Sys, op: Op, w: Temp.WriteOutcome, b: nat)
    requires Inv(c, s) && OpOk(c, op)
    requires op.block in s.shared.table.blocks && s.shared.table.blocks[op.block].load == Ready
    ensures Moves(c, s, s.(shared := Hit(c, s.shared, op).1), b, PlanMove(c, s.shared, op, w, b))
  {
    assert CellInv(c, b, CellOf(s, b));
    assert CellInv(c, op.block, CellOf(s, op.block));
    HitHasForm(c, s.shared, op);
    HitTableMoves(c, s, op, w, Hit(c, s.shared, op).1.table, b);
  }

  lemma PlanMoves(c: Config, s: Sys, op: Op, w: Temp.WriteOutcome, b: nat)
    requires Inv(c, s) && OpOk(c, op)
    ensures Moves(c, s, s.(shared := PlanOp(c, s.shared, op, w).1), b, PlanMove(c, s.shared, op, w, b))
  {
    assert CellInv(c, b, CellOf(s, b));
    if op.block !in s.shared.table.blocks {
      if !(op.block in s.shared.spilled && op.block in s.shared.active) {
        MissMoves(c, s, op, w, b);
      }
    } else if s.shared.table.blocks[op.block].load == Ready {
      HitMoves(c, s, op, w, b);
    }
  }

  /** What a planning turn may return: it fails only when a temp write fails, keeps the queues in shape, leaves the
      waiter count and the stop flag alone, and a finished read returns the resident bytes. */
  ghost predicate PlanOk(c: Config, s: Sys, op: Op, w: Temp.WriteOutcome, plan: Plan, sh: Shared) {
    && (plan.Failed? ==> plan.fault == TempIo)
    && Queued(c, sh.table)
    && sh.waiters == s.shared.waiters && sh.stop == s.shared.stop
    && (plan.Done? ==> op.block in s.shared.table.blocks && s.shared.table.blocks[op.block].load == Ready)
    && (plan.Done? && op.ReadOp? && |s.shared.table.blocks[op.block].data| == c.blockSize && OpOk(c, op) ==>
          plan.bytes == s.shared.table.blocks[op.block].data[op.at..op.at + op.length])
    && (plan.Fetch? <==> PlanMove(c, s.shared, op, w, op.block).BeginFetch?)
    && (plan.Fetch? ==> plan.source == PlanMove(c, s.shared, op, w, op.block).source)
    && (plan.Done? <==> op.block in s.shared.table.blocks && s.shared.table.blocks[op.block].load == Ready)
  }

  lemma MissResult(c: Config, s: Sys, op: Op, w: Temp.WriteOutcome)
    requires Inv(c, s) && OpOk(c, op) && op.block !in s.shared.table.blocks
    requires !(op.block in s.shared.spilled && op.block in s.shared.active)
    ensures var (plan, sh) := PrepareMiss(c, s.shared, op, w);
      PlanOk(c, s, op, w, plan, sh)
  {
    MissHasForm(c, s, op, w);
    SlotResult(c, s, w);
    var (slot, sh) := PrepareSlot(c, s.shared, w);
    if slot == Reserved {
      PlaceholderQueued(c, sh, op, LoadingRemote);
      PlaceholderQueued(c, sh, op, Rehydrating);
    }
  }

  lemma PlaceholderQueued(c: Config, s: Shared, op: Op, source: LoadState)
    requires Queued(c, s.table) && op.block !in s.table.blocks && |s.table.fifo| < c.fifoCapacity
    ensures Queued(c, WithPlaceholder(c, s, op, source).table)
  {
    AppendDistinct(s.table.fifo, op.block);
  }

  lemma PlanResult(c: Config, s: Sys, op: Op, w: Temp.WriteOutcome)
    requires Inv(c, s) && OpOk(c, op)
    ensures PlanOk(c, s, op, w, PlanOp(c, s.shared, op, w).0, PlanOp(c, s.shared, op, w).1)
  {
    assert CellInv(c, op.block, CellOf(s, op.block));
    if op.block !in s.shared.table.blocks {
      if !(op.block in s.shared.spilled && op.block in s.shared.active) {
        MissResult(c, s, op, w);
      }
    } else if s.shared.table.blocks[op.block].load == Ready {
      HitHasForm(c, s.shared, op);
    }
  }

  // ---------------------------------------------------------------- finishing a fetch

  /** Installing fetched bytes in a placeholder gives `LoadedEntry`. */
  lemma FinishLoadHasForm(c: Config, t: Table, op: Op, data: Block)
    requires op.block in t.blocks && IsLoading(t.blocks[op.block]) && EntryOk(c, t.blocks[op.block])
    requires t.blocks[op.block].pending == PatchesOf(op) && OpOk(c, op) && |data| == c.blockSize
    ensures FinishLoad(c, t, op.block, data)
         == Ok(t.(blocks := t.blocks[op.block := LoadedEntry(t.blocks[op.block], op, data, false)]))
  {
    var e := t.blocks[op.block];
    var raw := e.(data := data, pending := []);
    if op.WriteOp? {
      assert PatchesOf(op)[1..] == [];
      assert ApplyPatches(raw, PatchesOf(op)) == ApplyPatch(raw, OpRange(op), op.data);
    }
  }

  /** The bytes an operation gets from an entry once the entry is ready. */
  function BytesFor(op: Op, data: Block): Block
    requires OpRange(op).end <= |data|
  {
    if op.ReadOp? then data[op.at..op.at + op.length] else []
  }

  lemma RemoteFetchHasForm(c: Config, s: Shared, op: Op, got: Option<Block>)
    requires op.block in s.table.blocks && IsLoading(s.table.blocks[op.block]) && EntryOk(c, s.table.blocks[op.block])
    requires s.table.blocks[op.block].pending == PatchesOf(op) && OpOk(c, op)
    requires got.Some? ==> |got.value| == c.blockSize
    ensures FinishRemoteFetch(c, s, op, got) ==
      if got.None? then (Failed(RemoteIo), s.(table := Evict(s.table, op.block)))
      else
        var e := LoadedEntry(s.table.blocks[op.block], op, got.value, false);
        (Done(BytesFor(op, e.data)), s.(table := s.table.(blocks := s.table.blocks[op.block := e])))
  {
    if got.Some? {
      FinishLoadHasForm(c, s.table, op, got.value);
    }
  }

  lemma RehydrateHasForm(c: Config, s: Shared, op: Op, data: Block)
    requires op.block in s.table.blocks && IsLoading(s.table.blocks[op.block]) && EntryOk(c, s.table.blocks[op.block])
    requires s.table.blocks[op.block].pending == PatchesOf(op) && OpOk(c, op) && |data| == c.blockSize
    requires op.block in s.spilled && s.spilled[op.block] == c.blockSize
    ensures FinishRehydrate(c, s, op.block, data) == (Ok(()), s.(
      table := s.table.(blocks := s.table.blocks[op.block := LoadedEntry(s.table.blocks[op.block], op, data, true)]),
      spilled := s.spilled - {op.block}))
  {
    FinishLoadHasForm(c, s.table, op, data);
    var e := LoadedEntry(s.table.blocks[op.block], op, data, false);
    assert s.table.blocks[op.block := e][op.block := e.(snapshot := true)] == s.table.blocks[op.block := e.(snapshot := true)];
  }

  lemma TempFetchHasForm(c: Config, s: Shared, op: Op, got: Option<Block>)
    requires op.block in s.table.blocks && IsLoading(s.table.blocks[op.block]) && EntryOk(c, s.table.blocks[op.block])
    requires s.table.blocks[op.block].pending == PatchesOf(op) && OpOk(c, op)
    requires got.Some? ==> |got.value| == c.blockSize
    requires op.block in s.active && op.block in s.spilled && s.spilled[op.block] == c.blockSize
    ensures FinishTempFetch(c, s, op, got) ==
      if got.None? then (Failed(TempIo), s.(active := s.active - {op.block}, table := Evict(s.table, op.block)))
      else
        var e := LoadedEntry(s.table.blocks[op.block], op, got.value, true);
        (Done(BytesFor(op, e.data)), s.(active := s.active - {op.block}, spilled := s.spilled - {op.block},
          table := s.table.(blocks := s.table.blocks[op.block := e])))
  {
    if got.Some? {
      RehydrateHasForm(c, s.(active := s.active - {op.block}), op, got.value);
    }
  }

  /** The re-locked section of a fetch. */
  function FinishFetch(c: Config, s: Shared, op: Op, source: LoadState, got: Option<Block>): (Plan, Shared) {
    if source == Rehydrating then FinishTempFetch(c, s, op, got) else FinishRemoteFetch(c, s, op, got)
  }

  function FetchMove(op: Op, source: LoadState, got: Option<Block>): Move {
    if source == Rehydrating then EndTempFetch(op, got) else EndRemoteFetch(op, got)
  }

  /** The placeholder of a fetch and the bytes that arrived for it. */
  ghost predicate Arrived(c: Config, s: Shared, op: Op, source: LoadState, got: Option<Block>) {
    && OpOk(c, op) && source != Ready
    && op.block in s.table.blocks && s.table.blocks[op.block].load == source
    && EntryOk(c, s.table.blocks[op.block]) && s.table.blocks[op.block].pending == PatchesOf(op)
    && (got.Some? ==> |got.value| == c.blockSize)
    && (source == Rehydrating ==> op.block in s.active && op.block in s.spilled && s.spilled[op.block] == c.blockSize)
  }

  lemma FetchedArrived(c: Config, s: Sys, t: nat)
    requires Inv(c, s) && ThreadOf(s, t).Fetched?
    ensures var Fetched(op, source, got) := ThreadOf(s, t);
      Arrived(c, s.shared, op, source, got)
  {
    assert ThreadInv(c, s, t);
    assert CellInv(c, ThreadOf(s, t).op.block, CellOf(s, ThreadOf(s, t).op.block));
  }

  lemma RemoteFetchMoves(c: Config, s: Sys, op: Op, got: Option<Block>, b: nat)
    requires Arrived(c, s.shared, op, LoadingRemote, got) && CellInv(c, b, CellOf(s, b))
    requires b == op.block ==> CanMove(c, b, CellOf(s, b), EndRemoteFetch(op, got))
    ensures Moves(c, s, s.(shared := FinishRemoteFetch(c, s.shared, op, got).1), b,
                  if b == op.block then EndRemoteFetch(op, got) else Stay)
  {
    RemoteFetchHasForm(c, s.shared, op, got);
  }

  lemma TempFetchMoves(c: Config, s: Sys, op: Op, got: Option<Block>, b: nat)
    requires Arrived(c, s.shared, op, Rehydrating, got) && CellInv(c, b, CellOf(s, b))
    requires b == op.block ==> CanMove(c, b, CellOf(s, b), EndTempFetch(op, got))
    ensures Moves(c, s, s.(shared := FinishTempFetch(c, s.shared, op, got).1), b,
                  if b == op.block then EndTempFetch(op, got) else Stay)
  {
    TempFetchHasForm(c, s.shared, op, got);
  }

  lemma FinishMoves(c: Config, s: Sys, t: nat, b: nat)
    requires Inv(c, s) && ThreadOf(s, t).Fetched?
    ensures var Fetched(op, source, got) := ThreadOf(s, t);
      Moves(c, s, s.(shared := FinishFetch(c, s.shared, op, source, got).1), b,
            if b == op.block then FetchMove(op, source, got) else Stay)
  {
    var Fetched(op, source, got) := ThreadOf(s, t);
    assert ThreadInv(c, s, t);
    assert CellInv(c, b, CellOf(s, b));
    FetchedArrived(c, s, t);
    if source == Rehydrating {
      TempFetchMoves(c, s, op, got, b);
    } else {
      RemoteFetchMoves(c, s, op, got, b);
    }
  }

  /** A finished fetch either succeeds with the bytes now in the table or reports the I/O failure. */
  lemma FinishResult(c: Config, s: Shared, op: Op, source: LoadState, got: Option<Block>)
    requires Queued(c, s.table) && Arrived(c, s, op, source, got)
    ensures var (plan, sh) := FinishFetch(c, s, op, source, got);
      && plan == (if got.None? then Failed(if source == Rehydrating then TempIo else RemoteIo)
                  else Done(BytesFor(op, LoadedEntry(s.table.blocks[op.block], op, got.value, false).data)))
      && Queued(c, sh.table)
      && sh.waiters == s.waiters && sh.stop == s.stop
  {
    EvictQueued(c, s.table, op.block);
    if source == Rehydrating {
      TempFetchHasForm(c, s, op, got);
    } else {
      RemoteFetchHasForm(c, s, op, got);
    }
  }

  // ---------------------------------------------------------------- the worker

  /** Writing a snapshot touches one ready dirty block without a snapshot, and nothing else can go wrong. */
  lemma SnapshotHasForm(c: Config, s: Shared, w: Temp.WriteOutcome)
    ensures var candidate := Least(SnapshotCandidates(s.table));
      CreateSnapshot(c, s, w) ==
        if s.waiters > 0 || TempFileCount(s) >= c.tempMaxFiles || candidate.None? then (NothingToDo, s)
        else
          var b := candidate.value;
          var e := s.table.blocks[b];
          match w
          case Refused => (NothingToDo, s)
          case Lost => (NothingToDo, s.(temp := s.temp - {b}))
          case Written => (SnapshotCreated, s.(
            temp := s.temp[b := e.data],
            table := s.table.(blocks := s.table.blocks[b := e.(snapshot := true, dirty := [])])))
  {
  }

  lemma SnapshotMoves(c: Config, s: Sys, w: Temp.WriteOutcome, b: nat)
    requires CellInv(c, b, CellOf(s, b))
    requires Least(s.shared.spilled.Keys - s.shared.active).None?
    requires Least(FlushableBlocks(s.shared.table, s.shared.active)).None?
    ensures Moves(c, s, s.(shared := CreateSnapshot(c, s.shared, w).1), b, ScanMove(c, s.shared, w, b))
  {
    SnapshotHasForm(c, s.shared, w);
    var candidate := Least(SnapshotCandidates(s.shared.table));
    if candidate == Some(b) {
      SnapshotMoves1(c, s, w, b);
    }
  }

  lemma SnapshotMoves1(c: Config, s: Sys, w: Temp.WriteOutcome, b: nat)
    requires CellInv(c, b, CellOf(s, b)) && b in SnapshotCandidates(s.shared.table)
    ensures CanMove(c, b, CellOf(s, b), TakeSnapshot) && CanMove(c, b, CellOf(s, b), LoseTemp)
  {
  }

  lemma ClaimHasForm(c: Config, s: Sys, b: nat)
    requires CellInv(c, b, CellOf(s, b)) && b !in s.shared.active
    requires b in s.shared.spilled || b in s.shared.table.blocks
    ensures ClaimTemp(c, s.shared, b) == (FlushTemp(b), s.shared.(active := s.shared.active + {b}))
  {
  }

  /** What a pass of the worker selects. */
  lemma ScanHasForm(c: Config, s: Sys, w: Temp.WriteOutcome)
    requires Inv(c, s)
    ensures var spilled := Least(s.shared.spilled.Keys - s.shared.active);
      var snapshotted := Least(FlushableBlocks(s.shared.table, s.shared.active));
      WorkerScan(c, s.shared, w) ==
        if spilled.Some? then (FlushTemp(spilled.value), s.shared.(active := s.shared.active + {spilled.value}))
        else if snapshotted.Some? then (FlushTemp(snapshotted.value), s.shared.(active := s.shared.active + {snapshotted.value}))
        else CreateSnapshot(c, s.shared, w)
  {
    var spilled := Least(s.shared.spilled.Keys - s.shared.active);
    var snapshotted := Least(FlushableBlocks(s.shared.table, s.shared.active));
    if spilled.Some? {
      assert CellInv(c, spilled.value, CellOf(s, spilled.value));
      ClaimHasForm(c, s, spilled.value);
    } else if snapshotted.Some? {
      assert CellInv(c, snapshotted.value, CellOf(s, snapshotted.value));
      ClaimHasForm(c, s, snapshotted.value);
    }
  }

  function ClaimedBy(s: Sys, b: nat): Sys {
    s.(shared := s.shared.(active := s.shared.active + {b}), worker := FlushRead(b))
  }

  lemma ClaimMoves(c: Config, s: Sys, claimed: nat, b: nat)
    requires s.worker == Resting && CellInv(c, b, CellOf(s, b))
    requires b == claimed ==> CanMove(c, b, CellOf(s, b), Claim)
    ensures Moves(c, s, ClaimedBy(s, claimed), b, if b == claimed then Claim else Stay)
  {
  }

  /** A block the worker selects may be claimed. */
  lemma LeastClaimable(c: Config, s: Sys, b: nat)
    requires b in s.shared.spilled.Keys - s.shared.active || b in FlushableBlocks(s.shared.table, s.shared.active)
    ensures CanMove(c, b, CellOf(s, b), Claim)
  {
  }

  /** A pass of the worker claims the least idle spilled block, else the least idle snapshotted one, else writes a
      snapshot. */
  lemma ScanNextForm(c: Config, s: Sys, w: Temp.WriteOutcome)
    requires Inv(c, s) && s.worker == Resting
    ensures var spilled := Least(s.shared.spilled.Keys - s.shared.active);
      var snapshotted := Least(FlushableBlocks(s.shared.table, s.shared.active));
      ScanNext(c, s, w) == (
        if spilled.Some? then ClaimedBy(s, spilled.value)
        else if snapshotted.Some? then ClaimedBy(s, snapshotted.value)
        else s.(shared := CreateSnapshot(c, s.shared, w).1), Silent)
  {
    hide Inv;
    ScanHasForm(c, s, w);
    SnapshotHasForm(c, s.shared, w);
  }

  lemma ScanMoves(c: Config, s: Sys, w: Temp.WriteOutcome, b: nat)
    requires Inv(c, s) && s.worker == Resting
    ensures Moves(c, s, ScanNext(c, s, w).0, b, ScanMove(c, s.shared, w, b))
  {
    hide Inv, CellInv, CreateSnapshot, ScanNext, Moves, CanMove, MovedCell, CellOf, Least, FlushableBlocks, ClaimedBy,
      SnapshotCandidates, TempFileCount, ConfigOk, Queued, WorkerScan;
    InvGives(c, s, b);
    ScanNextForm(c, s, w);
    var spilled := Least(s.shared.spilled.Keys - s.shared.active);
    var snapshotted := Least(FlushableBlocks(s.shared.table, s.shared.active));
    if spilled.Some? {
      LeastClaimable(c, s, spilled.value);
      ClaimMoves(c, s, spilled.value, b);
    } else if snapshotted.Some? {
      LeastClaimable(c, s, snapshotted.value);
      ClaimMoves(c, s, snapshotted.value, b);
    } else {
      SnapshotMoves(c, s, w, b);
    }
  }

  lemma ScanResult(c: Config, s: Sys, w: Temp.WriteOutcome)
    requires Inv(c, s)
    ensures var (s', event) := ScanNext(c, s, w);
      && event == Silent
      && Queued(c, s'.shared.table) && s'.threads == s.threads && s'.remote == s.remote
      && s'.shared.waiters == s.shared.waiters && s'.shared.stop == s.shared.stop
  {
    ScanHasForm(c, s, w);
    SnapshotHasForm(c, s.shared, w);
  }

  /** The shared state after a flush ended: the claim is gone, and with it the temp file if it was flushed. */
  function AfterFlush(s: Shared, b: nat, flushed: bool): Shared {
    var idle := s.(active := s.active - {b});
    if !flushed then idle
    else if b in s.spilled then idle.(spilled := s.spilled - {b})
    else if b in s.table.blocks then
      idle.(table := s.table.(blocks := s.table.blocks[b := s.table.blocks[b].(snapshot := false)]))
    else idle
  }

  lemma FinishFlushHasForm(c: Config, s: Shared, b: nat, flushed: bool)
    requires b in s.active
    requires b in s.spilled || (b in s.table.blocks && s.table.blocks[b].load == Ready && s.table.blocks[b].snapshot)
    ensures FinishFlush(s, b, flushed) == (Ok(()), AfterFlush(s, b, flushed))
  {
  }

  /** Ending a flush cannot fail. */
  lemma EndFlushHasForm(c: Config, s: Sys)
    requires Inv(c, s) && s.worker.FlushFinish?
    ensures Next(c, s, FinishFlushStep)
         == (s.(shared := AfterFlush(s.shared, s.worker.block, s.worker.flushed), worker := Resting), Silent)
  {
    var FlushFinish(b, flushed) := s.worker;
    assert CellInv(c, b, CellOf(s, b));
    FinishFlushHasForm(c, s.shared, b, flushed);
  }

  lemma AfterFlushMoves(c: Config, s: Sys, b: nat)
    requires s.worker.FlushFinish? && CellInv(c, b, CellOf(s, b))
    ensures Moves(c, s, s.(shared := AfterFlush(s.shared, s.worker.block, s.worker.flushed), worker := Resting), b,
                  if b == s.worker.block then EndFlush(s.worker.flushed) else Stay)
  {
  }

  lemma EndFlushMoves(c: Config, s: Sys, b: nat)
    requires Inv(c, s) && s.worker.FlushFinish?
    ensures Moves(c, s, Next(c, s, FinishFlushStep).0, b, MoveOf(c, s, FinishFlushStep, b))
  {
    assert CellInv(c, b, CellOf(s, b));
    EndFlushHasForm(c, s);
    AfterFlushMoves(c, s, b);
  }

  lemma EndFlushResult(c: Config, s: Sys)
    requires Inv(c, s) && s.worker.FlushFinish?
    ensures Next(c, s, FinishFlushStep).1 == Silent
    ensures var s' := Next(c, s, FinishFlushStep).0;
      && Queued(c, s'.shared.table) && s'.threads == s.threads && s'.worker == Resting
      && s'.shared.waiters == s.shared.waiters && s'.shared.stop == s.shared.stop
  {
    EndFlushHasForm(c, s);
  }
}
