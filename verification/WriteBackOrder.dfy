/**
  Write-back never goes back in time. A `Stamp` records, beside a run, every content the view of a block has had
  and which of them the remote store and the temp file hold; a remote block torn by a write in progress is marked
  as such. The stamps only observe: no step depends on them.
*/
module WriteBackOrder {
  import opened Common
  import opened Resident
  import opened CacheModel
  import opened CacheSystem
  import opened CacheCells
  import opened CacheInvariant
  import opened CacheSafety
  import opened CacheRefinement

  /** `history`: the contents the view has had, oldest first. `remote`, `temp`: the versions of the two copies. */
  datatype Stamp = Stamp(history: seq<Block>, remote: nat, temp: nat, torn: bool)

  function Newest(st: Stamp): int { |st.history| - 1 }

  /** The stamp of a block after a move on its cell. */
  function StampAfter(c: Config, b: nat, k: Cell, m: Move, st: Stamp): Stamp
    requires CellInv(c, b, k) && CanMove(c, b, k, m)
  {
    var now := CellView(MovedCell(c, b, k, m));
    if MoveWrites(m).Some? && now.Some? then st.(history := st.history + [now.value])
    else match m
      case Spill(true) => if st.history == [] then st else st.(temp := |st.history| - 1)
      case TakeSnapshot => if st.history == [] then st else st.(temp := |st.history| - 1)
      case PartialWrite(_) => st.(torn := true)
      case WriteRemote(true) => st.(remote := st.temp, torn := false)
      case _ => st
  }

  /** Nothing newer than the remote content exists. */
  predicate Settled(k: Cell) {
    if IsReady(k) then k.entry.value.dirty == [] && (!k.entry.value.snapshot || StoredAndRemoved(k))
    else k.spilled.None? || StoredAndRemoved(k)
  }

  /** A temp file that carries the block. */
  predicate Carries(k: Cell) { HoldsTempSlot(k) && k.temp.Some? }

  ghost predicate StampInv(k: Cell, st: Stamp) {
    && st.history != []
    && CellView(k) == Some(st.history[Newest(st)])
    && st.remote <= st.temp <= Newest(st)
    && (!st.torn ==> k.remote == Some(st.history[st.remote]))
    && (st.torn ==> HoldsTempSlot(k) && !k.flush.FlushRemove? && !StoredAndRemoved(k))
    && (Carries(k) ==> k.temp == Some(st.history[st.temp]))
    && (Carries(k) && (!IsReady(k) || k.entry.value.dirty == []) ==> st.temp == Newest(st))
    && (k.flush.FlushRemove? || StoredAndRemoved(k) ==> st.remote == st.temp)
    && (Settled(k) ==> st.remote == Newest(st) && !st.torn)
  }

  /** One block, one move: the copies keep their order, none goes back to an older version, the history only
      grows, and a remote write that succeeds stores a whole content the view had, at least as new as what it
      replaces. */
  lemma MoveKeepsOrder(c: Config, b: nat, k: Cell, m: Move, st: Stamp)
    requires CellInv(c, b, k) && CanMove(c, b, k, m) && StampInv(k, st)
    ensures var k', st' := MovedCell(c, b, k, m), StampAfter(c, b, k, m, st);
      && StampInv(k', st')
      && st.history <= st'.history && st.remote <= st'.remote && st.temp <= st'.temp
      && (m == WriteRemote(true) ==> k'.remote == Some(st.history[st.temp]) && st'.remote == st.temp)
  {
    MoveView(c, b, k, m);
    MoveKeepsInv(c, b, k, m);
    if FlushMove(m) {
      FlushKeepsOrder(c, b, k, m, st);
    } else {
      ForegroundKeepsOrder(c, b, k, m, st);
    }
  }

  /** The moves between a claim and the end of its flush. */
  predicate FlushMove(m: Move) {
    m == Claim || m.ReadTemp? || m.PartialWrite? || m.WriteRemote? || m.RemoveTemp? || m.EndFlush?
  }

  lemma FlushKeepsOrder(c: Config, b: nat, k: Cell, m: Move, st: Stamp)
    requires CellInv(c, b, k) && CanMove(c, b, k, m) && StampInv(k, st) && FlushMove(m)
    requires CellInv(c, b, MovedCell(c, b, k, m)) && CellView(MovedCell(c, b, k, m)) == CellView(k)
    ensures var k', st' := MovedCell(c, b, k, m), StampAfter(c, b, k, m, st);
      && StampInv(k', st')
      && st.history <= st'.history && st.remote <= st'.remote && st.temp <= st'.temp
      && (m == WriteRemote(true) ==> k'.remote == Some(st.history[st.temp]) && st'.remote == st.temp)
  {
  }

  lemma ForegroundKeepsOrder(c: Config, b: nat, k: Cell, m: Move, st: Stamp)
    requires CellInv(c, b, k) && CanMove(c, b, k, m) && StampInv(k, st) && !FlushMove(m)
    requires CellInv(c, b, MovedCell(c, b, k, m))
    ensures var k', st' := MovedCell(c, b, k, m), StampAfter(c, b, k, m, st);
      && StampInv(k', st')
      && st.history <= st'.history && st.remote <= st'.remote && st.temp <= st'.temp
  {
    MoveView(c, b, k, m);
    if k.entry.Some? && k.entry.value.dirty == [] && k.remote.Some? && Agree(k.entry.value, k.remote.value) {
      CleanEntryAgrees(k.entry.value, k.remote.value);
    }
    if k.entry.Some? && k.entry.value.dirty == [] && k.temp.Some? && Agree(k.entry.value, k.temp.value) {
      CleanEntryAgrees(k.entry.value, k.temp.value);
    }
  }

  // ---------------------------------------------------------------- the whole system

  /** One stamp for every block of the remote store. */
  type Ledger = map<nat, Stamp>

  ghost predicate LedgerInv(s: Sys, ledger: Ledger) {
    ledger.Keys == s.remote.Keys && forall b :: b in ledger ==> StampInv(CellOf(s, b), ledger[b])
  }

  ghost function LedgerAfter(c: Config, s: Sys, a: Action, ledger: Ledger): Ledger
    requires Inv(c, s) && Enabled(c, s, a)
  {
    map b | b in ledger ::
      NextMoves(c, s, a, b);
      StampAfter(c, b, CellOf(s, b), MoveOf(c, s, a, b), ledger[b])
  }

  /** The stamps at the end of a run. */
  ghost function LedgerAtEnd(c: Config, s: Sys, actions: seq<Action>, ledger: Ledger): Ledger
    requires Inv(c, s) && ValidRun(c, s, actions)
    decreases |actions|
  {
    if actions == [] then ledger
    else
      NextKeepsInv(c, s, actions[0]);
      LedgerAtEnd(c, Next(c, s, actions[0]).0, actions[1..], LedgerAfter(c, s, actions[0], ledger))
  }

  /** Every copy of every block is at least as new as before. */
  ghost predicate NotOlder(was: Ledger, now: Ledger) {
    was.Keys == now.Keys && forall b :: b in was ==>
      was[b].history <= now[b].history && was[b].remote <= now[b].remote && was[b].temp <= now[b].temp
  }

  lemma BlockKeepsOrder(c: Config, s: Sys, a: Action, ledger: Ledger, b: nat)
    requires Inv(c, s) && Enabled(c, s, a) && b in ledger && StampInv(CellOf(s, b), ledger[b])
    ensures var st, st' := ledger[b], LedgerAfter(c, s, a, ledger)[b];
      && StampInv(CellOf(Next(c, s, a).0, b), st')
      && st.history <= st'.history && st.remote <= st'.remote && st.temp <= st'.temp
  {
    hide Inv, Next, Enabled, CellInv, CanMove, MovedCell, MoveOf, StampInv, CellOf, StampAfter;
    NextMoves(c, s, a, b);
    MoveKeepsOrder(c, b, CellOf(s, b), MoveOf(c, s, a, b), ledger[b]);
  }

  lemma StepKeepsOrder(c: Config, s: Sys, a: Action, ledger: Ledger)
    requires Inv(c, s) && Enabled(c, s, a) && LedgerInv(s, ledger)
    ensures LedgerInv(Next(c, s, a).0, LedgerAfter(c, s, a, ledger))
    ensures NotOlder(ledger, LedgerAfter(c, s, a, ledger))
  {
    hide Inv, Next, Enabled, StampInv, CellOf, LedgerAfter;
    RemoteKeysKept(c, s, a);
    LedgerKeys(c, s, a, ledger);
    forall b | b in ledger
      ensures StampInv(CellOf(Next(c, s, a).0, b), LedgerAfter(c, s, a, ledger)[b])
      ensures ledger[b].history <= LedgerAfter(c, s, a, ledger)[b].history
      ensures ledger[b].remote <= LedgerAfter(c, s, a, ledger)[b].remote
      ensures ledger[b].temp <= LedgerAfter(c, s, a, ledger)[b].temp
    {
      BlockKeepsOrder(c, s, a, ledger, b);
    }
  }

  lemma LedgerKeys(c: Config, s: Sys, a: Action, ledger: Ledger)
    requires Inv(c, s) && Enabled(c, s, a)
    ensures LedgerAfter(c, s, a, ledger).Keys == ledger.Keys
  {
  }

  lemma NotOlderTrans(x: Ledger, y: Ledger, z: Ledger)
    requires NotOlder(x, y) && NotOlder(y, z)
    ensures NotOlder(x, z)
  {
    forall b | b in x ensures x[b].history <= z[b].history && x[b].remote <= z[b].remote && x[b].temp <= z[b].temp {
      assert x[b].history <= y[b].history <= z[b].history;
    }
  }

  /** Along every run: remote version <= temp version <= newest version, and no copy ever gets older. */
  lemma {:induction false} RunKeepsOrder(c: Config, s: Sys, actions: seq<Action>, ledger: Ledger)
    requires Inv(c, s) && ValidRun(c, s, actions) && LedgerInv(s, ledger)
    ensures LedgerInv(After(c, s, actions), LedgerAtEnd(c, s, actions, ledger))
    ensures NotOlder(ledger, LedgerAtEnd(c, s, actions, ledger))
    decreases |actions|
  {
    if actions != [] {
      StepKeepsOrder(c, s, actions[0], ledger);
      NextKeepsInv(c, s, actions[0]);
      var next := LedgerAfter(c, s, actions[0], ledger);
      RunKeepsOrder(c, Next(c, s, actions[0]).0, actions[1..], next);
      NotOlderTrans(ledger, next, LedgerAtEnd(c, s, actions, ledger));
    }
  }

  // ---------------------------------------------------------------- the history is the views of the run

  /** The view of block `b` was `data` at some instant. */
  ghost predicate WasView(views: seq<Memory>, b: nat, data: Block) {
    exists j :: 0 <= j < |views| && b in views[j] && views[j][b] == data
  }

  lemma StampHistory(c: Config, b: nat, k: Cell, m: Move, st: Stamp)
    requires CellInv(c, b, k) && CanMove(c, b, k, m)
    ensures var was, now := st.history, StampAfter(c, b, k, m, st).history;
      now == was || (CellView(MovedCell(c, b, k, m)).Some? && now == was + [CellView(MovedCell(c, b, k, m)).value])
  {
  }

  lemma NewestIsView(c: Config, s: Sys, a: Action, ledger: Ledger, b: nat)
    requires Inv(c, s) && Enabled(c, s, a) && b in ledger && b in s.remote
    ensures var was, now := ledger[b].history, LedgerAfter(c, s, a, ledger)[b].history;
      b in Next(c, s, a).0.remote && (now == was || now == was + [ViewOf(Next(c, s, a).0)[b]])
  {
    NextMoves(c, s, a, b);
    StampHistory(c, b, CellOf(s, b), MoveOf(c, s, a, b), ledger[b]);
    RemoteKeysKept(c, s, a);
    ViewAt(Next(c, s, a).0, b);
  }

  lemma WasViewLater(v: Memory, rest: seq<Memory>, b: nat, data: Block)
    requires WasView(rest, b, data)
    ensures WasView([v] + rest, b, data)
  {
    var j :| 0 <= j < |rest| && b in rest[j] && rest[j][b] == data;
    assert ([v] + rest)[j + 1] == rest[j];
  }

  lemma ViewsStart(c: Config, s: Sys, actions: seq<Action>, b: nat)
    requires ValidRun(c, s, actions) && b in s.remote
    ensures WasView(Views(c, s, actions), b, ViewOf(s)[b])
  {
    assert Views(c, s, actions)[0] == ViewOf(s);
  }

  /** A version recorded by the first step of a run is the view right after that step. */
  lemma FirstStepView(c: Config, s: Sys, actions: seq<Action>, ledger: Ledger, b: nat, i: nat, data: Block)
    requires Inv(c, s) && ValidRun(c, s, actions) && actions != [] && LedgerInv(s, ledger) && b in ledger
    requires |ledger[b].history| <= i < |LedgerAfter(c, s, actions[0], ledger)[b].history|
    requires data == LedgerAfter(c, s, actions[0], ledger)[b].history[i]
    ensures WasView(Views(c, Next(c, s, actions[0]).0, actions[1..]), b, data)
  {
    hide Inv, Next, Enabled, ViewOf, StampInv, LedgerAfter, WasView, Views;
    NewestIsView(c, s, actions[0], ledger, b);
    ViewsStart(c, Next(c, s, actions[0]).0, actions[1..], b);
  }

  /** Every version recorded during a run was the view at some instant of it. */
  lemma {:induction false} HistoryIsViews(c: Config, s: Sys, actions: seq<Action>, ledger: Ledger, b: nat, i: nat,
                                          data: Block)
    requires Inv(c, s) && ValidRun(c, s, actions) && LedgerInv(s, ledger) && b in ledger
    requires b in LedgerAtEnd(c, s, actions, ledger)
    requires |ledger[b].history| <= i < |LedgerAtEnd(c, s, actions, ledger)[b].history|
    requires data == LedgerAtEnd(c, s, actions, ledger)[b].history[i]
    ensures WasView(Views(c, s, actions), b, data)
    decreases |actions|
  {
    hide Inv, Next, Enabled, LedgerInv, LedgerAfter, NotOlder, ViewOf, WasView;
    if actions != [] {
      var s', next := Next(c, s, actions[0]).0, LedgerAfter(c, s, actions[0], ledger);
      LedgerKeys(c, s, actions[0], ledger);
      NextKeepsInv(c, s, actions[0]);
      StepKeepsOrder(c, s, actions[0], ledger);
      if i < |next[b].history| {
        RunKeepsOrder(c, s', actions[1..], next);
        FirstStepView(c, s, actions, ledger, b, i, data);
      } else {
        HistoryIsViews(c, s', actions[1..], next, b, i, data);
      }
      WasViewLater(ViewOf(s), Views(c, s', actions[1..]), b, data);
    }
  }

  /** The stamps of a fresh cache: the remote content is the only version. */
  function FreshLedger(s: Sys): Ledger {
    map b | b in s.remote :: Stamp([s.remote[b]], 0, 0, false)
  }

  lemma FreshLedgerInv(c: Config, s: Sys)
    requires Initial(c, s)
    ensures LedgerInv(s, FreshLedger(s))
  {
  }

  lemma HistoryWasView(c: Config, s0: Sys, actions: seq<Action>, b: nat, i: nat)
    requires Initial(c, s0) && Inv(c, s0) && ValidRun(c, s0, actions)
    requires b in s0.remote && b in LedgerAtEnd(c, s0, actions, FreshLedger(s0))
    requires i < |LedgerAtEnd(c, s0, actions, FreshLedger(s0))[b].history|
    ensures WasView(Views(c, s0, actions), b, LedgerAtEnd(c, s0, actions, FreshLedger(s0))[b].history[i])
  {
    FreshLedgerInv(c, s0);
    RunKeepsOrder(c, s0, actions, FreshLedger(s0));
    if i == 0 {
      assert FreshLedger(s0)[b].history == [s0.remote[b]];
      ViewAt(s0, b);
      ViewsStart(c, s0, actions, b);
    } else {
      HistoryIsViews(c, s0, actions, FreshLedger(s0), b, i,
                     LedgerAtEnd(c, s0, actions, FreshLedger(s0))[b].history[i]);
    }
  }

  /** Whatever happens during the flush, a remote write that succeeds stores the whole block as the view had it at
      one instant of the run. */
  lemma RemoteWriteStoresPastView(c: Config, s0: Sys, actions: seq<Action>)
    requires Initial(c, s0) && ValidRun(c, s0, actions)
    requires var s := After(c, s0, actions); s.worker.FlushWrite? && s.worker.block in s.remote
    ensures var s := After(c, s0, actions);
      var s' := Next(c, s, WriteRemoteStep(true)).0;
      s.worker.block in s'.remote && WasView(Views(c, s0, actions), s.worker.block, s'.remote[s.worker.block])
  {
    var s := After(c, s0, actions);
    var b := s.worker.block;
    InitialInv(c, s0);
    RunKeepsInv(c, s0, actions);
    FreshLedgerInv(c, s0);
    RunKeepsOrder(c, s0, actions, FreshLedger(s0));
    var st := LedgerAtEnd(c, s0, actions, FreshLedger(s0))[b];
    NextMoves(c, s, WriteRemoteStep(true), b);
    MoveKeepsOrder(c, b, CellOf(s, b), WriteRemote(true), st);
    HistoryWasView(c, s0, actions, b, st.temp);
  }
}
