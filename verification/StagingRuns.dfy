/**
  Whole runs of the staging store. Rejecting an event leaves hosts with the view they would have if the event had
  never been staged, although the ordinals of the remaining fragments then differ.
*/
module StagingRuns {
  import opened Common
  import opened Staging

  datatype Call =
    | StageCall(op: WriteOp, data: Bytes)
    | RejectCall(event: nat)
    | CommitCall(event: nat, ws: nat -> MediaWrite)

  /** The store and the media. */
  datatype State = State(store: Store, media: Bytes)

  function Step(s: State, call: Call): (r: State)
    requires DiskSizeOk(|s.media|)
    ensures |r.media| == |s.media|
  {
    match call
    case StageCall(op, data) => s.(store := Stage(s.store, op, data, |s.media|).1)
    case RejectCall(e) => s.(store := Reject(s.store, e))
    case CommitCall(e, ws) => var (_, store, media) := Commit(s.store, s.media, e, ws); State(store, media)
  }

  function Run(s: State, calls: seq<Call>): (r: State)
    requires DiskSizeOk(|s.media|)
    ensures |r.media| == |s.media|
    decreases |calls|
  {
    if calls == [] then s else Run(Step(s, calls[0]), calls[1..])
  }

  lemma StepKeepsOk(s: State, call: Call)
    requires DiskSizeOk(|s.media|) && StoreOk(s.store, |s.media|)
    ensures StoreOk(Step(s, call).store, |s.media|)
  {
    match call
    case StageCall(op, data) => StageKeepsOk(s.store, op, data, |s.media|);
    case RejectCall(e) => RejectKeepsOk(s.store, e, |s.media|);
    case CommitCall(e, ws) => RejectKeepsOk(s.store, e, |s.media|);
  }

  /** In every run ordinals stay distinct and below the next one, and fragments stay on the disk. */
  lemma {:induction false} RunKeepsOk(s: State, calls: seq<Call>)
    requires DiskSizeOk(|s.media|) && StoreOk(s.store, |s.media|)
    ensures StoreOk(Run(s, calls).store, |s.media|)
    decreases |calls|
  {
    if calls != [] {
      StepKeepsOk(s, calls[0]);
      RunKeepsOk(Step(s, calls[0]), calls[1..]);
    }
  }

  // ---------------------------------------------------------------- staging all pieces of an event

  predicate Stages(call: Call, e: nat, n: nat) {
    call.StageCall? && call.op.event == e && call.op.number == n
  }

  /** Where and what the run staged last as piece `n` of the event. */
  function LastPiece(calls: seq<Call>, e: nat, n: nat): Option<(nat, Bytes)> {
    if calls == [] then None
    else if LastPiece(calls[1..], e, n).Some? then LastPiece(calls[1..], e, n)
    else if Stages(calls[0], e, n) then Some((calls[0].op.at, calls[0].data)) else None
  }

  /** The call is a piece of the event under the total, with its data, on the disk; or it is about another event. */
  predicate GoodPiece(call: Call, e: nat, total: nat, diskSize: nat) {
    match call
    case StageCall(op, data) =>
      op.event == e ==> op.totalSeq == total && |data| == op.length && op.at + |data| <= diskSize
    case RejectCall(f) => f != e
    case CommitCall(f, _) => f != e
  }

  lemma PieceStep(s: State, call: Call, e: nat, total: nat)
    requires DiskSizeOk(|s.media|) && TotalFits(s.store, e, total) && GoodPiece(call, e, total, |s.media|)
    ensures var s' := Step(s, call);
      && TotalFits(s'.store, e, total)
      && (forall n :: Has(s'.store, e, n) <==> Has(s.store, e, n) || Stages(call, e, n))
      && (forall n :: Stages(call, e, n) ==>
            Frag(s'.store, e, n).at == call.op.at && Frag(s'.store, e, n).data == call.data)
      && (forall n :: Has(s.store, e, n) && !Stages(call, e, n) ==> Frag(s'.store, e, n) == Frag(s.store, e, n))
  {
    match call
    case StageCall(op, data) =>
      StageAcceptedIff(s.store, op, data, |s.media|);
      if Stage(s.store, op, data, |s.media|).0 == Success {
        StageAccepted(s.store, op, data, |s.media|);
      }
    case RejectCall(f) => RejectedHas(s.store, f);
    case CommitCall(f, ws) => RejectedHas(s.store, f);
  }

  /** Every piece of an event that announces one total and lies on the disk is staged, in whatever order the pieces
      come and whatever happens to other events in between; of a piece staged twice the last one stands. */
  lemma {:induction false} PiecesAllStaged(s: State, calls: seq<Call>, e: nat, total: nat)
    requires DiskSizeOk(|s.media|) && TotalFits(s.store, e, total)
    requires forall i :: 0 <= i < |calls| ==> GoodPiece(calls[i], e, total, |s.media|)
    ensures var s' := Run(s, calls);
      && TotalFits(s'.store, e, total)
      && (forall n :: Has(s'.store, e, n) <==> Has(s.store, e, n) || LastPiece(calls, e, n).Some?)
      && (forall n :: LastPiece(calls, e, n).Some? ==>
            (Frag(s'.store, e, n).at, Frag(s'.store, e, n).data) == LastPiece(calls, e, n).value)
      && (forall n :: Has(s.store, e, n) && LastPiece(calls, e, n).None? ==>
            Frag(s'.store, e, n) == Frag(s.store, e, n))
    decreases |calls|
  {
    hide Step, GoodPiece, TotalFits;
    if calls != [] {
      PieceStep(s, calls[0], e, total);
      PiecesAllStaged(Step(s, calls[0]), calls[1..], e, total);
    }
  }

  // ---------------------------------------------------------------- erasing an event

  /** The run with every stage of the event left out. */
  function Erased(calls: seq<Call>, e: nat): seq<Call> {
    if calls == [] then []
    else (if calls[0].StageCall? && calls[0].op.event == e then [] else [calls[0]]) + Erased(calls[1..], e)
  }

  /** The same fragments but for their ordinals. */
  predicate SameContent(r: Record, r': Record) {
    && r.totalSeq == r'.totalSeq && r.fragments.Keys == r'.fragments.Keys
    && forall n :: n in r.fragments ==> r.fragments[n].(ordinal := 0) == r'.fragments[n].(ordinal := 0)
  }

  /** `full` holds what `less` holds and perhaps the event `e`; the common fragments are in the same order. */
  ghost predicate SameBut(full: Store, less: Store, e: nat) {
    && e !in less.writes
    && full.writes.Keys - {e} == less.writes.Keys
    && (forall f :: f in less.writes ==> SameContent(full.writes[f], less.writes[f]))
    && (forall f, n, g, m :: Has(less, f, n) && Has(less, g, m) && Has(full, f, n) && Has(full, g, m) ==>
          (Frag(full, f, n).ordinal < Frag(full, g, m).ordinal <==> Frag(less, f, n).ordinal < Frag(less, g, m).ordinal))
  }

  lemma StageKeepsSame(full: Store, less: Store, e: nat, op: WriteOp, data: Bytes, diskSize: nat)
    requires SameBut(full, less, e) && StoreOk(full, diskSize) && StoreOk(less, diskSize)
    ensures op.event == e ==> SameBut(Stage(full, op, data, diskSize).1, less, e)
    ensures op.event != e ==>
      SameBut(Stage(full, op, data, diskSize).1, Stage(less, op, data, diskSize).1, e)
  {
    if op.event != e {
      StageOtherKeepsSame(full, less, e, op, data, diskSize);
    }
  }

  lemma StageOtherKeepsSame(full: Store, less: Store, e: nat, op: WriteOp, data: Bytes, diskSize: nat)
    requires SameBut(full, less, e) && StoreOk(full, diskSize) && StoreOk(less, diskSize) && op.event != e
    ensures SameBut(Stage(full, op, data, diskSize).1, Stage(less, op, data, diskSize).1, e)
  {
    var (status, full') := Stage(full, op, data, diskSize);
    var (status', less') := Stage(less, op, data, diskSize);
    assert status == status';
    if status == Success {
      StageAccepted(full, op, data, diskSize);
      StageAccepted(less, op, data, diskSize);
      assert full'.writes.Keys - {e} == less'.writes.Keys;
      forall f, n, g, m | Has(less', f, n) && Has(less', g, m) && Has(full', f, n) && Has(full', g, m)
        ensures Frag(full', f, n).ordinal < Frag(full', g, m).ordinal
          <==> Frag(less', f, n).ordinal < Frag(less', g, m).ordinal
      {
        assert (f == op.event && n == op.number) || (Has(full, f, n) && Has(less, f, n));
        assert (g == op.event && m == op.number) || (Has(full, g, m) && Has(less, g, m));
      }
    }
  }

  lemma RejectKeepsSame(full: Store, less: Store, e: nat, f: nat)
    requires SameBut(full, less, e)
    ensures SameBut(Reject(full, f), Reject(less, f), e)
  {
    RejectedHas(full, f);
    RejectedHas(less, f);
    assert Reject(full, f).writes.Keys - {e} == Reject(less, f).writes.Keys;
  }

  /** Equal fragments but for ordinals write the same. */
  lemma {:induction false} WriteAllSame(frags: seq<Fragment>, frags': seq<Fragment>, media: Bytes, ws: nat -> MediaWrite)
    requires DiskSizeOk(|media|) && |frags| == |frags'|
    requires forall i :: 0 <= i < |frags| ==> frags[i].(ordinal := 0) == frags'[i].(ordinal := 0)
    ensures WriteAll(frags, media, ws) == WriteAll(frags', media, ws)
  {
    if frags != [] {
      var f, f' := frags[0], frags'[0];
      assert f.(ordinal := 0) == f'.(ordinal := 0);
      if SaturatingAdd(f.at, |f.data|) <= |media| {
        if f.data == [] {
          WriteAllSame(frags[1..], frags'[1..], media, ws);
        } else {
          WriteAllSame(frags[1..], frags'[1..], WriteRange(media, f.at, f.data, ws(f.number)).1, ws);
        }
      }
    }
  }

  lemma CommitKeepsSame(full: Store, less: Store, media: Bytes, e: nat, f: nat, ws: nat -> MediaWrite)
    requires DiskSizeOk(|media|) && SameBut(full, less, e) && f != e
    ensures Commit(full, media, f, ws).0 == Commit(less, media, f, ws).0
    ensures Commit(full, media, f, ws).2 == Commit(less, media, f, ws).2
    ensures SameBut(Commit(full, media, f, ws).1, Commit(less, media, f, ws).1, e)
  {
    RejectKeepsSame(full, less, e, f);
    if f in less.writes {
      assert SameContent(full.writes[f], less.writes[f]);
      WriteAllSame(InOrder(full.writes[f].fragments), InOrder(less.writes[f].fragments), media, ws);
    }
  }

  lemma StepKeepsSame(s: State, s': State, e: nat, call: Call)
    requires DiskSizeOk(|s.media|) && s.media == s'.media
    requires SameBut(s.store, s'.store, e) && StoreOk(s.store, |s.media|) && StoreOk(s'.store, |s.media|)
    requires call.CommitCall? ==> call.event != e
    ensures var after := if call.StageCall? && call.op.event == e then s' else Step(s', call);
      Step(s, call).media == after.media && SameBut(Step(s, call).store, after.store, e)
  {
    match call
    case StageCall(op, data) => StageKeepsSame(s.store, s'.store, e, op, data, |s.media|);
    case RejectCall(f) => RejectKeepsSame(s.store, s'.store, e, f);
    case CommitCall(f, ws) => CommitKeepsSame(s.store, s'.store, s.media, e, f, ws);
  }

  ghost predicate NeverCommits(calls: seq<Call>, e: nat) {
    forall i :: 0 <= i < |calls| && calls[i].CommitCall? ==> calls[i].event != e
  }

  lemma {:induction false} RunsKeepSame(s: State, s': State, e: nat, calls: seq<Call>)
    requires DiskSizeOk(|s.media|) && s.media == s'.media
    requires SameBut(s.store, s'.store, e) && StoreOk(s.store, |s.media|) && StoreOk(s'.store, |s.media|)
    requires NeverCommits(calls, e)
    ensures Run(s, calls).media == Run(s', Erased(calls, e)).media
    ensures SameBut(Run(s, calls).store, Run(s', Erased(calls, e)).store, e)
    decreases |calls|
  {
    hide SameBut, StoreOk, Step;
    if calls != [] {
      StepKeepsSame(s, s', e, calls[0]);
      StepKeepsOk(s, calls[0]);
      StepKeepsOk(s', calls[0]);
      if calls[0].StageCall? && calls[0].op.event == e {
        assert Erased(calls, e) == Erased(calls[1..], e);
        RunsKeepSame(Step(s, calls[0]), s', e, calls[1..]);
      } else {
        assert Erased(calls, e)[0] == calls[0] && Erased(calls, e)[1..] == Erased(calls[1..], e);
        RunsKeepSame(Step(s, calls[0]), Step(s', calls[0]), e, calls[1..]);
      }
    }
  }

  lemma SameTops(full: Store, less: Store, e: nat, a: nat, f: nat, n: nat)
    requires SameBut(full, less, e)
    ensures Top(Reject(full, e), a, f, n) <==> Top(less, a, f, n)
    ensures Has(Reject(full, e), f, n) <==> Has(less, f, n)
    ensures Has(less, f, n) ==>
      Frag(Reject(full, e), f, n).(ordinal := 0) == Frag(less, f, n).(ordinal := 0)
  {
    SameFragments(full, less, e);
    RejectedHas(full, e);
  }

  lemma SameFragments(full: Store, less: Store, e: nat)
    requires SameBut(full, less, e)
    ensures forall f, n :: Has(Reject(full, e), f, n) <==> Has(less, f, n)
    ensures forall f, n :: Has(less, f, n) ==>
      Frag(Reject(full, e), f, n).(ordinal := 0) == Frag(less, f, n).(ordinal := 0)
  {
    forall f, n ensures Has(Reject(full, e), f, n) <==> Has(less, f, n) {
      assert f in less.writes <==> f in full.writes.Keys - {e};
    }
  }

  lemma SameViewByte(full: Store, less: Store, e: nat, diskSize: nat, x: byte, a: nat)
    requires SameBut(full, less, e) && StoreOk(full, diskSize) && StoreOk(less, diskSize)
    ensures ViewByte(Reject(full, e), x, a) == ViewByte(less, x, a)
  {
    RejectKeepsOk(full, e, diskSize);
    forall f, n ensures Top(Reject(full, e), a, f, n) <==> Top(less, a, f, n) {
      SameTops(full, less, e, a, f, n);
    }
    if f, n :| Top(less, a, f, n) {
      SameTops(full, less, e, a, f, n);
      ViewOfTop(Reject(full, e), x, a, f, n);
      ViewOfTop(less, x, a, f, n);
    }
  }

  /** Rejecting an event after any run of stages, rejections and commits of other events, failing or not, gives
      hosts the view of the run in which the event was never staged. */
  lemma RejectErasesEvent(s: State, e: nat, calls: seq<Call>)
    requires DiskSizeOk(|s.media|) && StoreOk(s.store, |s.media|) && e !in s.store.writes && NeverCommits(calls, e)
    ensures var rejected := Step(Run(s, calls), RejectCall(e));
      var erased := Run(s, Erased(calls, e));
      HostView(rejected.store, rejected.media) == HostView(erased.store, erased.media)
  {
    assert SameBut(s.store, s.store, e);
    RunsKeepSame(s, s, e, calls);
    RunKeepsOk(s, calls);
    RunKeepsOk(s, Erased(calls, e));
    var full, less := Run(s, calls), Run(s, Erased(calls, e));
    forall a | 0 <= a < |s.media|
      ensures ViewByte(Reject(full.store, e), full.media[a], a) == ViewByte(less.store, less.media[a], a)
    {
      SameViewByte(full.store, less.store, e, |s.media|, full.media[a], a);
    }
  }

  // ---------------------------------------------------------------- a concrete unsafe commit

  /** The two orders do differ: event 1 stages its piece 2 and then its piece 1 over the same byte. Hosts read piece
      1, which was staged last; the commit writes piece 2 last. */
  lemma OutOfOrderCommitExample()
    ensures var s := State(EMPTY_STORE, [0]);
      var calls := [StageCall(WriteOp(1, 2, 2, 0, 1), [20]), StageCall(WriteOp(1, 1, 2, 0, 1), [10])];
      var before := Run(s, calls);
      var after := Step(before, CommitCall(1, NoFault));
      HostView(before.store, before.media) == [10] && HostView(after.store, after.media) == [20]
  {
    var s := State(EMPTY_STORE, [0]);
    var first := StageCall(WriteOp(1, 2, 2, 0, 1), [20]);
    var second := StageCall(WriteOp(1, 1, 2, 0, 1), [10]);
    var s1 := Step(s, first);
    var before := Step(s1, second);
    assert Run(s, [first, second]) == before by {
      assert [first, second][1..] == [second] && [second][1..] == [];
      assert Run(s1, [second]) == before;
    }
    RunKeepsOk(s, [first, second]);
    assert Has(before.store, 1, 1) && Has(before.store, 1, 2);
    assert Top(before.store, 0, 1, 1);
    ViewOfTop(before.store, 0, 0, 1, 1);
    assert HostView(before.store, before.media)[0] == 10;
    var after := Step(before, CommitCall(1, NoFault));
    TwoPieces(before.store, before.media);
    RejectedHas(before.store, 1);
    ViewOfBare(after.store, 20, 0);
    assert HostView(after.store, after.media)[0] == 20;
  }

  lemma OneAndTwo()
    ensures Ascending({1, 2}) == [1, 2]
  {
    assert Least({1, 2}) == Some(1);
    assert {1, 2} - {1} == {2};
    assert Least({2}) == Some(2);
    assert {2} - {2} == {};
    assert Ascending({2}) == [2] + Ascending({});
  }

  lemma TwoPieces(st: Store, media: Bytes)
    requires |media| == 1 && 1 in st.writes
    requires st.writes[1].fragments == map[2 := Fragment(2, 0, 1, [20]), 1 := Fragment(1, 0, 2, [10])]
    ensures Commit(st, media, 1, NoFault) == (true, Reject(st, 1), [20])
  {
    var fragments := st.writes[1].fragments;
    var keys := Ascending(fragments.Keys);
    assert fragments.Keys == {1, 2};
    OneAndTwo();
    var frags := InOrder(fragments);
    assert frags == [Fragment(1, 0, 2, [10]), Fragment(2, 0, 1, [20])];
    assert frags[1..] == [Fragment(2, 0, 1, [20])] && frags[1..][1..] == [];
    assert WriteRange(media, 0, [10], Done).1 == [10] && WriteRange([10], 0, [20], Done).1 == [20];
    assert WriteAll(frags, media, NoFault) == WriteAll(frags[1..], [10], NoFault);
    assert WriteAll(frags[1..], [10], NoFault) == WriteAll([], [20], NoFault);
  }
}
