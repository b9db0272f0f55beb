/**
  The whole cache as an interleaving step machine (cache/src/cache/mod.rs:213-370, cache/src/cache/worker.rs).
  Any number of foreground threads run per-block operations beside one flush worker. Every lock-held section is
  one step; every action outside the lock (remote read, temp read, remote write, temp removal) is a step of its
  own that may fail. Waiting on the condition variable is modelled by the thread simply planning again later.
*/
module CacheSystem {
  import opened Common
  import opened Resident
  import opened CacheModel
  import Temp

  /** Where a foreground thread is: at the lock, fetching outside the lock, or back with the fetched block. */
  datatype Thread =
    | Idle
    | Running(op: Op, waiting: bool)
    | Fetching(op: Op, source: LoadState)
    | Fetched(op: Op, source: LoadState, got: Option<Block>)

  /** Where the flush worker is. */
  datatype Worker =
    | Resting
    | FlushRead(block: nat)
    | FlushWrite(block: nat, buffer: Block)
    | FlushRemove(block: nat)
    | FlushFinish(block: nat, flushed: bool)
    | Exited

  /** `remote` holds the blocks the remote store has; reads and writes of other blocks fail. */
  datatype Sys = Sys(shared: Shared, remote: map<nat, Block>, threads: map<nat, Thread>, worker: Worker)

  datatype Action =
    | Begin(thread: nat, op: Op)
    | PlanStep(thread: nat, tempWrite: Temp.WriteOutcome)
    | FetchStep(thread: nat, succeeds: bool)
    | FinishStep(thread: nat)
    | ScanStep(tempWrite: Temp.WriteOutcome)
    | ReadTempStep(succeeds: bool)
    | PartialWriteStep(garbage: Block)
    | WriteRemoteStep(succeeds: bool)
    | RemoveTempStep(succeeds: bool)
    | FinishFlushStep
    | RequestStop
    | ExitStep

  datatype Event =
    | Silent
    | ReadDone(op: Op, bytes: Block)
    | WriteDone(op: Op)
    | OpFailed(op: Op, fault: Fault)
    | WorkerFault(fault: Fault)

  function ThreadOf(s: Sys, t: nat): Thread {
    if t in s.threads then s.threads[t] else Idle
  }

  predicate Enabled(c: Config, s: Sys, a: Action) {
    match a
    case Begin(t, op) => ThreadOf(s, t).Idle? && OpOk(c, op)
    case PlanStep(t, _) => ThreadOf(s, t).Running?
    case FetchStep(t, _) => ThreadOf(s, t).Fetching?
    case FinishStep(t) => ThreadOf(s, t).Fetched?
    case ScanStep(_) => s.worker.Resting? && !s.shared.stop
    case ReadTempStep(_) => s.worker.FlushRead?
    case PartialWriteStep(garbage) =>
      s.worker.FlushWrite? && s.worker.block in s.remote && |garbage| == c.blockSize
    case WriteRemoteStep(_) => s.worker.FlushWrite?
    case RemoveTempStep(_) => s.worker.FlushRemove?
    case FinishFlushStep => s.worker.FlushFinish?
    case RequestStop => true
    case ExitStep => s.worker.Resting? && s.shared.stop
  }

  function SetThread(s: Sys, t: nat, thread: Thread): Sys {
    s.(threads := s.threads[t := thread])
  }

  /** `read_exact` of one block from a directory of files. */
  function ReadFile(c: Config, files: map<nat, Block>, b: nat, succeeds: bool): Option<Block> {
    if succeeds then Temp.FrontOf(files, b, c.blockSize) else None
  }

  /** The event of a finished operation. */
  function DoneEvent(op: Op, bytes: Block): Event {
    if op.ReadOp? then ReadDone(op, bytes) else WriteDone(op)
  }

  /** One turn of the retry loop of `read_touched_block` / `write_touched_block` under the lock. */
  function PlanNext(c: Config, s: Sys, t: nat, op: Op, waiting: bool, w: Temp.WriteOutcome): (Sys, Event) {
    if s.shared.stop then Leave(s, t, op, waiting, OpFailed(op, Stopped), Idle)
    else
      var (plan, shared) := PlanOp(c, s.shared, op, w);
      var s' := s.(shared := shared);
      match plan
      case Done(bytes) => Leave(s', t, op, waiting, DoneEvent(op, bytes), Idle)
      case Failed(f) => Leave(s', t, op, waiting, OpFailed(op, f), Idle)
      case Fetch(source) => Leave(s', t, op, waiting, Silent, Fetching(op, source))
      case Wait(reason) =>
        match BeforeWait(shared, waiting, reason)
        case Err(f) => (SetThread(s', t, Idle), OpFailed(op, f))
        case Ok((shared', waiting')) => (SetThread(s'.(shared := shared'), t, Running(op, waiting')), Silent)
  }

  /** Gives back the waiter flag and moves on. */
  function Leave(s: Sys, t: nat, op: Op, waiting: bool, event: Event, next: Thread): (Sys, Event) {
    match ReleaseWaiter(s.shared, waiting)
    case Err(f) => (SetThread(s, t, Idle), OpFailed(op, f))
    case Ok(shared) => (SetThread(s.(shared := shared), t, next), event)
  }

  function FinishNext(c: Config, s: Sys, t: nat, op: Op, source: LoadState, got: Option<Block>): (Sys, Event) {
    var (plan, shared) :=
      if source == Rehydrating then FinishTempFetch(c, s.shared, op, got)
      else FinishRemoteFetch(c, s.shared, op, got);
    var s' := SetThread(s.(shared := shared), t, Idle);
    match plan
    case Done(bytes) => (s', DoneEvent(op, bytes))
    case Failed(f) => (s', OpFailed(op, f))
    case Wait(_) => (s', OpFailed(op, Internal))
    case Fetch(_) => (s', OpFailed(op, Internal))
  }

  function ScanNext(c: Config, s: Sys, w: Temp.WriteOutcome): (Sys, Event) {
    var (scan, shared) := WorkerScan(c, s.shared, w);
    var s' := s.(shared := shared);
    match scan
    case FlushTemp(b) => (s'.(worker := FlushRead(b)), Silent)
    case ScanFault(f) => (s'.(worker := Exited), WorkerFault(f))
    case SnapshotCreated => (s', Silent)
    case NothingToDo => (s', Silent)
  }

  function Next(c: Config, s: Sys, a: Action): (Sys, Event)
    requires Enabled(c, s, a)
  {
    match a
    case Begin(t, op) => (SetThread(s, t, Running(op, false)), Silent)
    case PlanStep(t, w) =>
      var Running(op, waiting) := ThreadOf(s, t);
      PlanNext(c, s, t, op, waiting, w)
    case FetchStep(t, succeeds) =>
      var Fetching(op, source) := ThreadOf(s, t);
      var files := if source == Rehydrating then s.shared.temp else s.remote;
      (SetThread(s, t, Fetched(op, source, ReadFile(c, files, op.block, succeeds))), Silent)
    case FinishStep(t) =>
      var Fetched(op, source, got) := ThreadOf(s, t);
      FinishNext(c, s, t, op, source, got)
    case ScanStep(w) => ScanNext(c, s, w)
    case ReadTempStep(succeeds) =>
      var b := s.worker.block;
      (match ReadFile(c, s.shared.temp, b, succeeds)
       case Some(buffer) => (s.(worker := FlushWrite(b, buffer)), Silent)
       case None => (s.(worker := FlushFinish(b, false)), Silent))
    case PartialWriteStep(garbage) => (s.(remote := s.remote[s.worker.block := garbage]), Silent)
    case WriteRemoteStep(succeeds) =>
      var FlushWrite(b, buffer) := s.worker;
      if succeeds && b in s.remote then (s.(remote := s.remote[b := buffer], worker := FlushRemove(b)), Silent)
      else (s.(worker := FlushFinish(b, false)), Silent)
    case RemoveTempStep(succeeds) =>
      var b := s.worker.block;
      if succeeds then (s.(shared := s.shared.(temp := s.shared.temp - {b}), worker := FlushFinish(b, true)), Silent)
      else (s.(worker := FlushFinish(b, false)), Silent)
    case FinishFlushStep =>
      var FlushFinish(b, flushed) := s.worker;
      var (r, shared) := FinishFlush(s.shared, b, flushed);
      (match r
       case Ok(_) => (s.(shared := shared, worker := Resting), Silent)
       case Err(f) => (s.(shared := shared, worker := Exited), WorkerFault(f)))
    case RequestStop => (s.(shared := s.shared.(stop := true)), Silent)
    case ExitStep => (s.(worker := Exited), Silent)
  }

  /** `Cache::new`: nothing resident, nothing spilled. The remote content and any files left over in the temp
      directory are arbitrary. */
  ghost predicate Initial(c: Config, s: Sys) {
    && ConfigOk(c)
    && s.shared.table == EMPTY_TABLE && s.shared.spilled == map[] && s.shared.active == {}
    && s.shared.waiters == 0 && !s.shared.stop
    && (forall b :: b in s.remote ==> |s.remote[b]| == c.blockSize)
    && s.threads == map[] && s.worker == Resting
  }

  // ---------------------------------------------------------------- runs

  ghost predicate ValidRun(c: Config, s: Sys, actions: seq<Action>)
    decreases |actions|
  {
    actions != [] ==> Enabled(c, s, actions[0]) && ValidRun(c, Next(c, s, actions[0]).0, actions[1..])
  }

  /** The state after a run. */
  ghost function After(c: Config, s: Sys, actions: seq<Action>): Sys
    requires ValidRun(c, s, actions)
    decreases |actions|
  {
    if actions == [] then s else After(c, Next(c, s, actions[0]).0, actions[1..])
  }

  /** The events of a run, in order. */
  ghost function Events(c: Config, s: Sys, actions: seq<Action>): seq<Event>
    requires ValidRun(c, s, actions)
    decreases |actions|
  {
    if actions == [] then []
    else [Next(c, s, actions[0]).1] + Events(c, Next(c, s, actions[0]).0, actions[1..])
  }
}
