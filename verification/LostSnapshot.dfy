/**
  A lost snapshot is reachable. One thread works on a cache that holds a single block: block 0 is written and
  spilled, rehydrated by a second write and so dirty with its snapshot, and then the temp write of its next
  eviction fails twice (cache/src/cache/mod.rs:654-674, cache/src/temp.rs:64-82).
*/
module LostSnapshots {
  import opened Common
  import opened Resident
  import opened CacheModel
  import opened CacheSystem
  import opened CacheCells
  import opened CacheInvariant
  import opened CacheSteps
  import opened CacheSafety
  import opened Draining
  import Temp

  const TINY := Config(1, 1, 1, 1)
  const REMOTE: map<nat, Block> := map[0 := [0], 1 := [0]]
  const FRESH := Sys(Shared(EMPTY_TABLE, map[], {}, 0, false, map[]), REMOTE, map[], Resting)

  /** The table that holds one block. */
  function Sole(b: nat, e: Entry): Table { Table(map[b := e], [b], []) }

  /** The state with one resident block and the thread idle. */
  function Holding(b: nat, e: Entry, spilled: map<nat, nat>, temp: map<nat, Block>): Sys {
    Sys(Shared(Sole(b, e), spilled, {}, 0, false, temp), REMOTE, map[0 := Idle], Resting)
  }

  const WRITTEN := Holding(0, Entry([1], Ready, [Range(0, 1)], false, [], 1), map[], map[])
  const SPILLED := Holding(1, Entry([0], Ready, [], false, [], 1), map[0 := 1], map[0 := [1]])
  const REWRITTEN := Holding(0, Entry([2], Ready, [Range(0, 1)], true, [], 1), map[], map[0 := [1]])
  const LOST := Holding(0, Entry([2], Ready, [Range(0, 1)], true, [], 1), map[], map[])

  /** The table emptied, with block 0 spilled. */
  const ROOM := Shared(EMPTY_TABLE, map[0 := 1], {}, 0, false, map[0 := [1]])

  /** An operation that misses and fetches its block. */
  function Fetched(op: Op): seq<Action> {
    [Begin(0, op), PlanStep(0, Temp.Written), FetchStep(0, true), FinishStep(0)]
  }

  const FAILED_READ: seq<Action> := [Begin(0, ReadOp(1, 0, 1)), PlanStep(0, Temp.Lost)]

  lemma OneByOne(c: Config, s: Sys, a: Action, rest: seq<Action>)
    requires Enabled(c, s, a) && ValidRun(c, Next(c, s, a).0, rest)
    ensures ValidRun(c, s, [a] + rest) && After(c, s, [a] + rest) == After(c, Next(c, s, a).0, rest)
  {
    assert ([a] + rest)[1..] == rest;
  }

  lemma {:induction false} RunAppend(c: Config, s: Sys, run: seq<Action>, rest: seq<Action>)
    requires ValidRun(c, s, run) && ValidRun(c, After(c, s, run), rest)
    ensures ValidRun(c, s, run + rest) && After(c, s, run + rest) == After(c, After(c, s, run), rest)
    decreases |run|
  {
    hide Next, Enabled;
    if run == [] {
      assert run + rest == rest;
    } else {
      RunAppend(c, Next(c, s, run[0]).0, run[1..], rest);
      OneByOne(c, s, run[0], run[1..] + rest);
      assert [run[0]] + (run[1..] + rest) == run + rest;
    }
  }

  /** The four steps of a fetched operation, from what its planning turn and its last section do. */
  lemma FetchedRun(s: Sys, op: Op, source: LoadState, sh: Shared, block: Block, end: Shared)
    requires ThreadOf(s, 0) == Idle && OpOk(TINY, op) && !s.shared.stop
    requires PlanOp(TINY, s.shared, op, Temp.Written) == (Fetch(source), sh)
    requires ReadFile(TINY, if source == Rehydrating then sh.temp else s.remote, op.block, true) == Some(block)
    requires FinishFetch(TINY, sh, op, source, Some(block)).1 == end
    requires FinishFetch(TINY, sh, op, source, Some(block)).0.Done?
    ensures ValidRun(TINY, s, Fetched(op))
    ensures After(TINY, s, Fetched(op)) == s.(shared := end, threads := s.threads[0 := Idle])
  {
    hide PlanOp, ReadFile, FinishTempFetch, FinishRemoteFetch, OpOk, ValidRun, After;
    var s1 := s.(threads := s.threads[0 := Running(op, false)]);
    var s2 := s.(shared := sh, threads := s.threads[0 := Fetching(op, source)]);
    var s3 := s.(shared := sh, threads := s.threads[0 := CacheSystem.Fetched(op, source, Some(block))]);
    var s4 := s.(shared := end, threads := s.threads[0 := Idle]);
    assert Enabled(TINY, s, Begin(0, op)) && Next(TINY, s, Begin(0, op)).0 == s1;
    PlanTurn(s1, op, source, sh);
    assert s1.threads[0 := Fetching(op, source)] == s2.threads;
    assert Enabled(TINY, s2, FetchStep(0, true)) && Next(TINY, s2, FetchStep(0, true)).0 == s3;
    LastTurn(s3, op, source, block, end);
    assert s3.threads[0 := Idle] == s4.threads;
    FourSteps(s, s1, s2, s3, s4, op);
  }

  lemma LastTurn(s: Sys, op: Op, source: LoadState, block: Block, end: Shared)
    requires ThreadOf(s, 0) == CacheSystem.Fetched(op, source, Some(block))
    requires FinishFetch(TINY, s.shared, op, source, Some(block)).1 == end
    requires FinishFetch(TINY, s.shared, op, source, Some(block)).0.Done?
    ensures Enabled(TINY, s, FinishStep(0))
    ensures Next(TINY, s, FinishStep(0)).0 == s.(shared := end, threads := s.threads[0 := Idle])
  {
    hide FinishTempFetch, FinishRemoteFetch;
  }

  lemma FourSteps(s: Sys, s1: Sys, s2: Sys, s3: Sys, s4: Sys, op: Op)
    requires Enabled(TINY, s, Begin(0, op)) && Next(TINY, s, Begin(0, op)).0 == s1
    requires Enabled(TINY, s1, PlanStep(0, Temp.Written)) && Next(TINY, s1, PlanStep(0, Temp.Written)).0 == s2
    requires Enabled(TINY, s2, FetchStep(0, true)) && Next(TINY, s2, FetchStep(0, true)).0 == s3
    requires Enabled(TINY, s3, FinishStep(0)) && Next(TINY, s3, FinishStep(0)).0 == s4
    ensures ValidRun(TINY, s, Fetched(op)) && After(TINY, s, Fetched(op)) == s4
  {
    hide Enabled, Next, ValidRun, After;
    NoSteps(s4);
    OneByOne(TINY, s3, FinishStep(0), []);
    var run := [FinishStep(0)] + [];
    OneByOne(TINY, s2, FetchStep(0, true), run);
    run := [FetchStep(0, true)] + run;
    OneByOne(TINY, s1, PlanStep(0, Temp.Written), run);
    run := [PlanStep(0, Temp.Written)] + run;
    OneByOne(TINY, s, Begin(0, op), run);
    assert [Begin(0, op)] + run == Fetched(op);
  }

  lemma NoSteps(s: Sys)
    ensures ValidRun(TINY, s, []) && After(TINY, s, []) == s
  {
  }

  lemma PlanTurn(s: Sys, op: Op, source: LoadState, sh: Shared)
    requires ThreadOf(s, 0) == Running(op, false) && !s.shared.stop
    requires PlanOp(TINY, s.shared, op, Temp.Written) == (Fetch(source), sh)
    ensures Enabled(TINY, s, PlanStep(0, Temp.Written))
    ensures Next(TINY, s, PlanStep(0, Temp.Written)).0
         == s.(shared := sh, threads := s.threads[0 := Fetching(op, source)])
  {
    hide PlanOp;
  }

  /** What a miss leaves in the table once room was made for its block. */
  function Landed(room: Shared, op: Op, source: LoadState, block: Block): Shared
    requires OpRange(op).end <= |block|
  {
    var placeholder := Placeholder(TINY, source, 1).(pending := PatchesOf(op));
    room.(table := Sole(op.block, LoadedEntry(placeholder, op, block, source == Rehydrating)),
          spilled := room.spilled - {op.block})
  }

  /** A miss, once room was made: the block is fetched from its temp file if it is spilled, else remotely. */
  lemma MissRun(s: Sys, op: Op, room: Shared, block: Block)
    requires ThreadOf(s, 0) == Idle && OpOk(TINY, op) && !s.shared.stop && s.shared.active == {}
    requires op.block !in s.shared.table.blocks && PrepareSlot(TINY, s.shared, Temp.Written) == (Reserved, room)
    requires room.table == EMPTY_TABLE && room.active == {} && |block| == 1
    requires op.block in s.shared.spilled <==> op.block in room.spilled
    requires if op.block in s.shared.spilled then
        s.shared.spilled[op.block] == room.spilled[op.block] == 1 && op.block in room.temp && room.temp[op.block] == block
      else op.block in s.remote && s.remote[op.block] == block
    ensures var source := if op.block in s.shared.spilled then Rehydrating else LoadingRemote;
      && ValidRun(TINY, s, Fetched(op))
      && After(TINY, s, Fetched(op))
           == s.(shared := Landed(room, op, source, block), threads := s.threads[0 := Idle])
  {
    hide PrepareSlot, ValidRun, After, Next;
    var source := if op.block in s.shared.spilled then Rehydrating else LoadingRemote;
    var sh := WithPlaceholder(TINY, room, op, source);
    assert PlanOp(TINY, s.shared, op, Temp.Written) == (Fetch(source), sh) by {
      InsertHasForm(TINY, if source == Rehydrating then room.(active := room.active + {op.block}) else room, op, 1, source);
    }
    LandedAfterFetch(room, op, source, block);
    assert block[..1] == block;
    FetchedRun(s, op, source, sh, block, Landed(room, op, source, block));
  }

  lemma LandedAfterFetch(room: Shared, op: Op, source: LoadState, block: Block)
    requires OpOk(TINY, op) && room.table == EMPTY_TABLE && room.active == {} && |block| == 1
    requires source == if op.block in room.spilled then Rehydrating else LoadingRemote
    requires op.block in room.spilled ==> room.spilled[op.block] == 1
    ensures var (plan, end) := FinishFetch(TINY, WithPlaceholder(TINY, room, op, source), op, source, Some(block));
      plan.Done? && end == Landed(room, op, source, block)
  {
    hide FinishTempFetch, FinishRemoteFetch, LoadedEntry;
    var sh := WithPlaceholder(TINY, room, op, source);
    var e := sh.table.blocks[op.block];
    assert |e.data| == 1;
    if source == Rehydrating {
      TempFetchHasForm(TINY, sh, op, Some(block));
      assert (room.active + {op.block}) - {op.block} == room.active;
    } else {
      RemoteFetchHasForm(TINY, sh, op, Some(block));
      assert room.spilled - {op.block} == room.spilled;
    }
    assert forall e' :: sh.table.blocks[op.block := e'] == map[op.block := e'];
    assert [] + [op.block] == [op.block];
  }

  lemma EvictSole(b: nat, e: Entry)
    ensures Evict(Sole(b, e), b) == EMPTY_TABLE
  {
    assert IndexOf([b], b) == 0;
    assert RemoveAt([b], 0) == [];
    assert map[b := e] - {b} == map[];
  }

  lemma FirstWrite()
    ensures var op := WriteOp(0, 0, [1]);
      ValidRun(TINY, FRESH, Fetched(op)) && After(TINY, FRESH, Fetched(op)) == WRITTEN
  {
    hide PlanOp, ValidRun, After, Next;
    var op := WriteOp(0, 0, [1]);
    MissRun(FRESH, op, FRESH.shared, [0]);
    assert Splice([0], 0, [1]) == [1] && [] + [Range(0, 1)] == [Range(0, 1)];
    assert FRESH.threads[0 := Idle] == map[0 := Idle];
    assert FRESH.shared.spilled - {0} == map[];
  }

  /** Room is made for another block by spilling the dirty one. */
  lemma Spill()
    ensures var op := ReadOp(1, 0, 1);
      ValidRun(TINY, WRITTEN, Fetched(op)) && After(TINY, WRITTEN, Fetched(op)) == SPILLED
  {
    hide PlanOp, ValidRun, After, Next, PrepareSlot;
    var op := ReadOp(1, 0, 1);
    SpillRoom();
    MissRun(WRITTEN, op, ROOM, [0]);
    assert ROOM.spilled - {1} == ROOM.spilled;
  }

  lemma SpillRoom()
    ensures PrepareSlot(TINY, WRITTEN.shared, Temp.Written) == (Reserved, ROOM)
  {
    hide DisposeVictim;
    EvictSole(0, WRITTEN.shared.table.blocks[0]);
    assert SnapshotBlocks(WRITTEN.shared.table) == {};
    SlotHasForm(TINY, WRITTEN.shared, Temp.Written, 0);
  }

  /** Room is made by dropping the clean block; the spilled one comes back dirty and with its snapshot. */
  lemma Rewrite()
    ensures var op := WriteOp(0, 0, [2]);
      ValidRun(TINY, SPILLED, Fetched(op)) && After(TINY, SPILLED, Fetched(op)) == REWRITTEN
  {
    hide PlanOp, ValidRun, After, Next, DisposeVictim;
    var op, e := WriteOp(0, 0, [2]), SPILLED.shared.table.blocks[1];
    EvictSole(1, e);
    SlotHasForm(TINY, SPILLED.shared, Temp.Written, 1);
    assert PrepareSlot(TINY, SPILLED.shared, Temp.Written) == (Reserved, ROOM);
    MissRun(SPILLED, op, ROOM, [1]);
    assert ROOM.spilled - {0} == map[];
    assert Splice([1], 0, [2]) == [2] && [] + [Range(0, 1)] == [Range(0, 1)];
  }

  /** Room cannot be made: the temp write of the dirty block fails twice and its old file is gone. */
  lemma LoseFile()
    ensures ValidRun(TINY, REWRITTEN, FAILED_READ) && After(TINY, REWRITTEN, FAILED_READ) == LOST
  {
    var op := ReadOp(1, 0, 1);
    var s1 := REWRITTEN.(threads := REWRITTEN.threads[0 := Running(op, false)]);
    assert Next(TINY, REWRITTEN, Begin(0, op)).0 == s1;
    assert REWRITTEN.shared.temp - {0} == map[];
    assert PlanOp(TINY, s1.shared, op, Temp.Lost) == (Failed(TempIo), LOST.shared) by {
      hide DisposeVictim;
      SlotHasForm(TINY, s1.shared, Temp.Lost, 0);
    }
    hide PlanOp;
    assert Next(TINY, s1, PlanStep(0, Temp.Lost)).0 == LOST;
    NoSteps(LOST);
    OneByOne(TINY, s1, PlanStep(0, Temp.Lost), []);
    var run := [PlanStep(0, Temp.Lost)] + [];
    OneByOne(TINY, REWRITTEN, Begin(0, op), run);
    assert [Begin(0, op)] + run == FAILED_READ;
  }

  lemma LostIsReached() returns (run: seq<Action>)
    ensures Initial(TINY, FRESH) && ValidRun(TINY, FRESH, run) && After(TINY, FRESH, run) == LOST
  {
    hide ValidRun, After, Fetched, FAILED_READ, LOST, WRITTEN, REWRITTEN, SPILLED;
    FirstWrite();
    Spill();
    Rewrite();
    LoseFile();
    run := Fetched(WriteOp(0, 0, [2])) + FAILED_READ;
    RunAppend(TINY, SPILLED, Fetched(WriteOp(0, 0, [2])), FAILED_READ);
    RunAppend(TINY, WRITTEN, Fetched(ReadOp(1, 0, 1)), run);
    run := Fetched(ReadOp(1, 0, 1)) + run;
    RunAppend(TINY, FRESH, Fetched(WriteOp(0, 0, [1])), run);
    run := Fetched(WriteOp(0, 0, [1])) + run;
  }

  /** From a new cache a run ends with a lost snapshot, no operation in flight and the worker at rest; whatever the
      worker does from there, the cache does not become quiescent. */
  lemma LostSnapshotReached() returns (run: seq<Action>)
    ensures Initial(TINY, FRESH) && ValidRun(TINY, FRESH, run)
    ensures var s := After(TINY, FRESH, run);
      && SnapshotLost(CellOf(s, 0)) && NoForeground(s) && !s.shared.stop && s.worker == Resting
      && forall rest :: ValidRun(TINY, s, rest) && (forall i :: 0 <= i < |rest| ==> ByWorker(rest[i])) ==>
           !IsQuiescent(After(TINY, s, rest).shared)
  {
    run := LostIsReached();
    InitialInv(TINY, FRESH);
    RunKeepsInv(TINY, FRESH, run);
    hide Inv, Initial, ValidRun, After, Next, IsQuiescent;
    forall rest | ValidRun(TINY, LOST, rest) && (forall i :: 0 <= i < |rest| ==> ByWorker(rest[i]))
      ensures !IsQuiescent(After(TINY, LOST, rest).shared)
    {
      LostSnapshotNeverDrains(TINY, LOST, rest, 0);
    }
  }
}
