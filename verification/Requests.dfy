/**
  Whole requests (cache/src/cache/mod.rs:149-169): `read_locked` and `write_locked` split a byte range into pieces
  and perform them one after the other until one fails. A thread that does so is followed through a run of the
  cache, among any other threads and the worker, and what it does is told on the device as one flat byte array.
*/
module Requests {
  import opened Common
  import opened Resident
  import opened CacheModel
  import opened CacheSystem
  import opened CacheInvariant
  import opened CacheSafety
  import opened CacheRefinement
  import opened BlockLayout

  // ---------------------------------------------------------------- a thread performing a request

  /** How far the loop over the pieces is: `done` pieces returned, and whether one failed. */
  datatype Progress = Progress(done: nat, failed: bool)

  const START := Progress(0, false)

  /** The thread begins no operation but the next piece, and none after a failed one. */
  predicate MayTake(t: nat, ops: seq<Op>, p: Progress, a: Action) {
    a.Begin? && a.thread == t ==> !p.failed && p.done < |ops| && a.op == ops[p.done]
  }

  function Advanced(t: nat, p: Progress, a: Action, event: Event): Progress {
    if Actor(a) != Some(t) then p
    else match event
      case ReadDone(_, _) => p.(done := p.done + 1)
      case WriteDone(_) => p.(done := p.done + 1)
      case OpFailed(_, _) => p.(failed := true)
      case _ => p
  }

  /** In this run thread `t` performs the pieces from where `p` stands on. */
  ghost predicate Performs(c: Config, s: Sys, t: nat, ops: seq<Op>, p: Progress, actions: seq<Action>)
    requires ValidRun(c, s, actions)
    decreases |actions|
  {
    actions != [] ==>
      var (s', event) := Next(c, s, actions[0]);
      MayTake(t, ops, p, actions[0]) && Performs(c, s', t, ops, Advanced(t, p, actions[0], event), actions[1..])
  }

  ghost function ProgressAfter(c: Config, s: Sys, t: nat, p: Progress, actions: seq<Action>): Progress
    requires ValidRun(c, s, actions)
    decreases |actions|
  {
    if actions == [] then p
    else
      var (s', event) := Next(c, s, actions[0]);
      ProgressAfter(c, s', t, Advanced(t, p, actions[0], event), actions[1..])
  }

  /** A busy thread is at the next piece; a failed request has a piece it did not do. */
  predicate OnPiece(s: Sys, t: nat, ops: seq<Op>, p: Progress) {
    && p.done <= |ops| && (p.failed ==> p.done < |ops|)
    && (!ThreadOf(s, t).Idle? ==> !p.failed && p.done < |ops| && ThreadOf(s, t).op == ops[p.done])
  }

  /** A thread's step works on its operation: either it stays busy with it, or it reports on it and is idle. */
  lemma OwnStep(c: Config, s: Sys, a: Action, t: nat)
    requires Enabled(c, s, a) && Actor(a) == Some(t)
    ensures var (s', event) := Next(c, s, a);
      var was, now := ThreadOf(s, t), ThreadOf(s', t);
      if a.Begin? then event == Silent && !now.Idle? && now.op == a.op
      else
        && !was.Idle?
        && (event == Silent ==> !now.Idle? && now.op == was.op)
        && (event != Silent ==> now.Idle? && !event.WorkerFault? && event.op == was.op)
  {
    hide PlanOp, FinishTempFetch, FinishRemoteFetch, ReadFile, ReleaseWaiter, BeforeWait;
  }

  lemma StepOnPiece(c: Config, s: Sys, t: nat, ops: seq<Op>, p: Progress, a: Action)
    requires Enabled(c, s, a) && MayTake(t, ops, p, a) && OnPiece(s, t, ops, p)
    ensures OnPiece(Next(c, s, a).0, t, ops, Advanced(t, p, a, Next(c, s, a).1))
    ensures var event := Next(c, s, a).1;
      Actor(a) == Some(t) && (event.ReadDone? || event.WriteDone?) ==> p.done < |ops| && event.op == ops[p.done]
  {
    hide Next;
    if Actor(a) == Some(t) {
      OwnStep(c, s, a, t);
    } else {
      OthersStand(c, s, a, t);
    }
  }

  // ---------------------------------------------------------------- writing

  /** The pieces of a split lie within the request. */
  lemma TilesWithin(size: nat, offset: nat, length: nat, ps: seq<TouchedBlock>)
    requires Tiles(size, offset, length, ps)
    ensures forall i :: 0 <= i < |ps| ==> ps[i].BufferEnd() <= length
  {
    forall i | 0 <= i < |ps| ensures ps[i].BufferEnd() <= length {
      CoveredGrows(size, offset, length, ps, i);
    }
  }

  /** The operations of a `write_locked`, one per piece of its split. */
  ghost function WriteOps(size: nat, offset: nat, data: Block, ps: seq<TouchedBlock>): seq<Op>
    requires Tiles(size, offset, |data|, ps)
  {
    TilesWithin(size, offset, |data|, ps);
    seq(|ps|, i requires 0 <= i < |ps| => PieceWrite(ps[i], data))
  }

  /** No other thread finishes a write inside the range during the run. */
  ghost predicate OthersElsewhere(c: Config, s: Sys, t: nat, offset: nat, length: nat, actions: seq<Action>)
    requires ValidRun(c, s, actions)
    decreases |actions|
  {
    actions != [] ==>
      var (s', event) := Next(c, s, actions[0]);
      && (Actor(actions[0]) != Some(t) ==> Disjoint(c.blockSize, event, offset, length))
      && OthersElsewhere(c, s', t, offset, length, actions[1..])
  }

  /** The device after the events of the other threads alone. */
  ghost function OthersDevice(c: Config, s: Sys, t: nat, base: Memory, actions: seq<Action>): Memory
    requires ValidRun(c, s, actions)
    decreases |actions|
  {
    if actions == [] then base
    else
      var (s', event) := Next(c, s, actions[0]);
      OthersDevice(c, s', t, if Actor(actions[0]) == Some(t) then base else AfterOther(base, event), actions[1..])
  }

  /** One step of the run, while `t` performs a write request. */
  lemma WriteRequestStep(
    c: Config, s: Sys, t: nat, offset: nat, data: Block, ps: seq<TouchedBlock>, p: Progress, base: Memory, a: Action)
    requires Inv(c, s) && Enabled(c, s, a) && Tiles(c.blockSize, offset, |data|, ps)
    requires MayTake(t, WriteOps(c.blockSize, offset, data, ps), p, a)
    requires OnPiece(s, t, WriteOps(c.blockSize, offset, data, ps), p)
    requires Written(c.blockSize, ViewOf(s), base, offset, data, ps, p.done)
    requires Actor(a) != Some(t) ==> Disjoint(c.blockSize, Next(c, s, a).1, offset, |data|)
    ensures var (s', event) := Next(c, s, a);
      Written(c.blockSize, ViewOf(s'), if Actor(a) == Some(t) then base else AfterOther(base, event), offset, data, ps,
        Advanced(t, p, a, event).done)
  {
    hide Inv, Next, Enabled, Written, ViewOf, Tiles;
    var event := Next(c, s, a).1;
    StepRefinesDevice(c, s, a);
    StepOnPiece(c, s, t, WriteOps(c.blockSize, offset, data, ps), p, a);
    if Actor(a) != Some(t) {
      OtherTurn(c.blockSize, ViewOf(s), base, offset, data, ps, p.done, event);
    } else if event.WriteDone? {
      MineTurn(c.blockSize, ViewOf(s), base, offset, data, ps, p.done);
    }
  }

  /** A write request performed piece by piece during a run, from where `p` stands on. At its end the device is
      what the other threads made of it, with the data of the pieces done so far in one flat splice on top. */
  lemma {:induction false} RequestIsFlatSplice(
    c: Config, s: Sys, t: nat, offset: nat, data: Block, ps: seq<TouchedBlock>, p: Progress, base: Memory,
    actions: seq<Action>)
    requires Inv(c, s) && ValidRun(c, s, actions) && Tiles(c.blockSize, offset, |data|, ps)
    requires Performs(c, s, t, WriteOps(c.blockSize, offset, data, ps), p, actions)
    requires OnPiece(s, t, WriteOps(c.blockSize, offset, data, ps), p)
    requires Written(c.blockSize, ViewOf(s), base, offset, data, ps, p.done)
    requires OthersElsewhere(c, s, t, offset, |data|, actions)
    ensures var q := ProgressAfter(c, s, t, p, actions);
      && OnPiece(After(c, s, actions), t, WriteOps(c.blockSize, offset, data, ps), q)
      && Written(c.blockSize, ViewOf(After(c, s, actions)), OthersDevice(c, s, t, base, actions), offset, data, ps,
           q.done)
    decreases |actions|
  {
    hide Inv, Next, Enabled, Written, ViewOf, Tiles, WriteOps, OnPiece, MayTake, Advanced, Disjoint;
    if actions != [] {
      var a := actions[0];
      var (s', event) := Next(c, s, a);
      NextKeepsInv(c, s, a);
      StepOnPiece(c, s, t, WriteOps(c.blockSize, offset, data, ps), p, a);
      WriteRequestStep(c, s, t, offset, data, ps, p, base, a);
      RequestIsFlatSplice(c, s', t, offset, data, ps, Advanced(t, p, a, event),
        if Actor(a) == Some(t) then base else AfterOther(base, event), actions[1..]);
    }
  }

  lemma ViewIsSized(c: Config, s: Sys)
    requires Inv(c, s)
    ensures c.blockSize > 0 && WellSized(c.blockSize, ViewOf(s))
  {
    forall b | b in s.remote ensures |ViewOf(s)[b]| == c.blockSize {
      InvGives(c, s, b);
      ViewAt(s, b);
    }
  }

  /** A whole `write_locked` of a thread that was idle, at any point of any run of the cache. A request that
      finished leaves the device as the other threads made it with all its data in place; one that failed, or is
      not finished yet, has written the data of the pieces that were done, a prefix, and nothing else. */
  lemma WholeRequestIsFlatSplice(
    c: Config, s0: Sys, before: seq<Action>, t: nat, offset: nat, data: Block, ps: seq<TouchedBlock>,
    actions: seq<Action>)
    requires Initial(c, s0) && ValidRun(c, s0, before) && ThreadOf(After(c, s0, before), t).Idle?
    requires Tiles(c.blockSize, offset, |data|, ps) && ValidRun(c, After(c, s0, before), actions)
    requires Performs(c, After(c, s0, before), t, WriteOps(c.blockSize, offset, data, ps), START, actions)
    requires OthersElsewhere(c, After(c, s0, before), t, offset, |data|, actions)
    ensures var s := After(c, s0, before);
      var q := ProgressAfter(c, s, t, START, actions);
      && q.done <= |ps| && c.blockSize > 0 && Covered(ps[..q.done]) <= |data|
      && (q.done == |ps| ==> Covered(ps[..q.done]) == |data| && !q.failed)
      && (q.done < |ps| ==> Covered(ps[..q.done]) < |data|)
      && FlatSpliced(c.blockSize, ViewOf(After(c, s, actions)), OthersDevice(c, s, t, ViewOf(s), actions), offset, data,
           Covered(ps[..q.done]))
  {
    var s := After(c, s0, before);
    InitialInv(c, s0);
    RunKeepsInv(c, s0, before);
    ViewIsSized(c, s);
    assert ps[..0] == [] && ps[..|ps|] == ps;
    hide Inv, Initial, Performs, OthersElsewhere, ViewOf, Tiles;
    NothingWritten(c.blockSize, ViewOf(s), offset, data, ps);
    RequestIsFlatSplice(c, s, t, offset, data, ps, START, ViewOf(s), actions);
    var q := ProgressAfter(c, s, t, START, actions);
    if q.done < |ps| {
      ShorterEndsEarlier(c.blockSize, offset, |data|, ps, q.done);
    } else {
      TilesCover(c.blockSize, offset, |data|, ps);
    }
  }

  lemma TilesCover(size: nat, offset: nat, length: nat, ps: seq<TouchedBlock>)
    requires Tiles(size, offset, length, ps)
    ensures Covered(ps) == length
  {
  }

  lemma NothingWritten(size: nat, mem: Memory, offset: nat, data: Block, ps: seq<TouchedBlock>)
    requires size > 0 && WellSized(size, mem) && Tiles(size, offset, |data|, ps)
    ensures Written(size, mem, mem, offset, data, ps, 0)
  {
    assert ps[..0] == [];
  }

  // ---------------------------------------------------------------- reading

  /** The operations of a `read_locked`. */
  function ReadOps(ps: seq<TouchedBlock>): seq<Op> {
    seq(|ps|, i requires 0 <= i < |ps| => PieceRead(ps[i]))
  }

  /** The bytes the reads of thread `t` returned during the run, in order. */
  ghost function Answers(c: Config, s: Sys, t: nat, actions: seq<Action>): seq<Block>
    requires ValidRun(c, s, actions)
    decreases |actions|
  {
    if actions == [] then []
    else
      var (s', event) := Next(c, s, actions[0]);
      (if Actor(actions[0]) == Some(t) && event.ReadDone? then [event.bytes] else []) + Answers(c, s', t, actions[1..])
  }

  /** The answer is what the atomic device returns for the piece at the instant. */
  predicate ReadThen(views: seq<Memory>, piece: TouchedBlock, answer: Block, instant: nat) {
    instant < |views| && Accepts(views[instant], ReadDone(PieceRead(piece), answer))
  }

  /** The instants of a run at which the pieces from `first` on were read: rising, one per answer. */
  ghost predicate ReadAt(views: seq<Memory>, ps: seq<TouchedBlock>, first: nat, answers: seq<Block>, instants: seq<nat>) {
    && |instants| == |answers| && first + |answers| <= |ps|
    && (forall i, j :: 0 <= i < j < |instants| ==> instants[i] < instants[j])
    && (forall i :: 0 <= i < |instants| ==> ReadThen(views, ps[first + i], answers[i], instants[i]))
  }

  /** The instants as they are counted one step earlier. */
  function Later(instants: seq<nat>): (r: seq<nat>)
    ensures |r| == |instants| && forall i :: 0 <= i < |r| ==> r[i] == instants[i] + 1
  {
    seq(|instants|, i requires 0 <= i < |instants| => instants[i] + 1)
  }

  lemma ReadAtLater(
    view: Memory, views: seq<Memory>, ps: seq<TouchedBlock>, first: nat, answers: seq<Block>, instants: seq<nat>)
    requires ReadAt(views, ps, first, answers, instants)
    ensures ReadAt([view] + views, ps, first, answers, Later(instants))
  {
    hide Accepts;
    forall i | 0 <= i < |instants| ensures ReadThen([view] + views, ps[first + i], answers[i], Later(instants)[i]) {
      assert ReadThen(views, ps[first + i], answers[i], instants[i]);
      assert ([view] + views)[instants[i] + 1] == views[instants[i]];
    }
  }

  lemma ReadFirst(view: Memory, views: seq<Memory>, piece: TouchedBlock, answer: Block)
    requires Accepts(view, ReadDone(PieceRead(piece), answer))
    ensures ReadThen([view] + views, piece, answer, 0)
  {
    hide Accepts;
  }

  lemma ReadAtNow(
    view: Memory, views: seq<Memory>, ps: seq<TouchedBlock>, first: nat, answer: Block, answers: seq<Block>,
    instants: seq<nat>)
    requires first < |ps| && Accepts(view, ReadDone(PieceRead(ps[first]), answer))
    requires ReadAt(views, ps, first + 1, answers, instants)
    ensures ReadAt([view] + views, ps, first, [answer] + answers, [0] + Later(instants))
  {
    hide ReadThen, Accepts;
    ReadAtLater(view, views, ps, first + 1, answers, instants);
    ReadFirst(view, views, ps[first], answer);
    var all, given := [0] + Later(instants), [answer] + answers;
    forall i | 0 <= i < |all| ensures ReadThen([view] + views, ps[first + i], given[i], all[i]) {
      if i > 0 {
        var k := i - 1;
        assert ReadThen([view] + views, ps[first + 1 + k], answers[k], Later(instants)[k]);
        assert first + i == first + 1 + k;
      }
    }
  }

  /** A read request performed piece by piece during a run: each answer is read off the view of the cache at an
      instant of its own. */
  lemma {:induction false} AnswersAreViews(
    c: Config, s: Sys, t: nat, ps: seq<TouchedBlock>, p: Progress, actions: seq<Action>) returns (instants: seq<nat>)
    requires Inv(c, s) && ValidRun(c, s, actions)
    requires Performs(c, s, t, ReadOps(ps), p, actions) && OnPiece(s, t, ReadOps(ps), p)
    ensures ReadAt(Views(c, s, actions), ps, p.done, Answers(c, s, t, actions), instants)
    ensures ProgressAfter(c, s, t, p, actions).done == p.done + |Answers(c, s, t, actions)|
    ensures OnPiece(After(c, s, actions), t, ReadOps(ps), ProgressAfter(c, s, t, p, actions))
    decreases |actions|
  {
    hide Inv, Next, Enabled, ViewOf, ReadAt, MayTake;
    if actions == [] {
      instants := [];
      NoAnswers(Views(c, s, actions), ps, p.done);
    } else {
      var a := actions[0];
      var (s', event) := Next(c, s, a);
      NextKeepsInv(c, s, a);
      StepRefinesDevice(c, s, a);
      StepOnPiece(c, s, t, ReadOps(ps), p, a);
      var rest := AnswersAreViews(c, s', t, ps, Advanced(t, p, a, event), actions[1..]);
      var views, answers := Views(c, s', actions[1..]), Answers(c, s', t, actions[1..]);
      if Actor(a) == Some(t) && event.ReadDone? {
        ReadAtNow(ViewOf(s), views, ps, p.done, event.bytes, answers, rest);
        instants := [0] + Later(rest);
      } else {
        ReadAtLater(ViewOf(s), views, ps, p.done, answers, rest);
        instants := Later(rest);
        assert [] + answers == answers;
      }
    }
  }

  lemma NoAnswers(views: seq<Memory>, ps: seq<TouchedBlock>, first: nat)
    requires first <= |ps|
    ensures ReadAt(views, ps, first, [], [])
  {
  }

  // ---------------------------------------------------------------- the buffer of a read

  /** The buffer after the pieces that were answered copied their bytes, in order. */
  function Filled(ps: seq<TouchedBlock>, answers: seq<Block>, buffer: Block): (r: Block)
    requires |answers| <= |ps|
    ensures |r| == |buffer|
    decreases |answers|
  {
    if answers == [] then buffer
    else
      var last := |answers| - 1;
      var before := Filled(ps, answers[..last], buffer);
      if ps[last].bufferOffset + |answers[last]| <= |buffer|
      then Splice(before, ps[last].bufferOffset, answers[last]) else before
  }

  /** Each answer has the length of its piece, and the piece lies in the buffer. */
  ghost predicate AnswersFit(ps: seq<TouchedBlock>, answers: seq<Block>, length: nat) {
    && |answers| <= |ps|
    && forall i :: 0 <= i < |answers| ==> |answers[i]| == ps[i].validLen && ps[i].BufferEnd() <= length
  }

  /** The filled buffer holds each answer at its piece's place. */
  lemma {:induction false} FilledByte(
    size: nat, offset: nat, ps: seq<TouchedBlock>, answers: seq<Block>, buffer: Block, i: nat, k: nat)
    requires Tiles(size, offset, |buffer|, ps) && AnswersFit(ps, answers, |buffer|) && i < |answers|
    requires ps[i].bufferOffset <= k < ps[i].BufferEnd()
    ensures k < |buffer| && k - ps[i].bufferOffset < |answers[i]|
    ensures Filled(ps, answers, buffer)[k] == answers[i][k - ps[i].bufferOffset]
    decreases |answers|
  {
    hide Tiles;
    var last := |answers| - 1;
    if i < last {
      FilledByte(size, offset, ps, answers[..last], buffer, i, k);
      PiecesOrdered(size, offset, |buffer|, ps, i, last);
    }
  }

  /** Beyond the answered pieces the buffer holds what it held before. */
  lemma {:induction false} FilledRest(
    size: nat, offset: nat, ps: seq<TouchedBlock>, answers: seq<Block>, buffer: Block, k: nat)
    requires Tiles(size, offset, |buffer|, ps) && AnswersFit(ps, answers, |buffer|)
    requires Covered(ps[..|answers|]) <= k < |buffer|
    ensures Filled(ps, answers, buffer)[k] == buffer[k]
    decreases |answers|
  {
    hide Tiles;
    if answers != [] {
      var last := |answers| - 1;
      LastCovered(size, offset, |buffer|, ps, last);
      FilledRest(size, offset, ps, answers[..last], buffer, k);
    }
  }

  /** The buffer bytes before piece `last` and up to its end. */
  lemma LastCovered(size: nat, offset: nat, length: nat, ps: seq<TouchedBlock>, last: nat)
    requires Tiles(size, offset, length, ps) && last < |ps|
    ensures Covered(ps[..last]) == ps[last].bufferOffset && Covered(ps[..last + 1]) == ps[last].BufferEnd()
  {
    assert ps[..last + 1][last] == ps[last];
  }

  /** A whole `read_locked` of a thread that was idle, at any point of any run of the cache. The pieces that were
      done, all of them when the request finished, were read at rising instants of the run; every byte of their
      part of the buffer is the flat device byte at its address at the instant of its piece, and the rest of the
      buffer is as it was. */
  lemma RequestReadsFlat(
    c: Config, s0: Sys, before: seq<Action>, t: nat, offset: nat, ps: seq<TouchedBlock>, buffer: Block,
    actions: seq<Action>) returns (instants: seq<nat>)
    requires Initial(c, s0) && ValidRun(c, s0, before) && ThreadOf(After(c, s0, before), t).Idle?
    requires Tiles(c.blockSize, offset, |buffer|, ps) && ValidRun(c, After(c, s0, before), actions)
    requires Performs(c, After(c, s0, before), t, ReadOps(ps), START, actions)
    ensures var s := After(c, s0, before);
      var q := ProgressAfter(c, s, t, START, actions);
      var answers, views := Answers(c, s, t, actions), Views(c, s, actions);
      && c.blockSize > 0 && q.done <= |ps| && (q.done == |ps| ==> !q.failed) && |answers| == |instants| == q.done
      && (forall i, j :: 0 <= i < j < |instants| ==> instants[i] < instants[j])
      && (forall i :: 0 <= i < |instants| ==> instants[i] < |views|)
      && (forall i, k :: 0 <= i < q.done && ps[i].bufferOffset <= k < ps[i].BufferEnd() <= |buffer| ==>
            FlatByte(c.blockSize, views[instants[i]], offset + k) == Some(Filled(ps, answers, buffer)[k]))
      && (forall k :: Covered(ps[..q.done]) <= k < |buffer| ==> Filled(ps, answers, buffer)[k] == buffer[k])
  {
    var s := After(c, s0, before);
    InitialInv(c, s0);
    RunKeepsInv(c, s0, before);
    ViewIsSized(c, s);
    hide Inv, Initial, Performs, ViewOf, Next;
    instants := AnswersAreViews(c, s, t, ps, START, actions);
    var answers, views := Answers(c, s, t, actions), Views(c, s, actions);
    AnswersOfViewsFit(c.blockSize, offset, |buffer|, ps, answers, views, instants);
    forall i, k | 0 <= i < |answers| && ps[i].bufferOffset <= k < ps[i].BufferEnd() <= |buffer|
      ensures FlatByte(c.blockSize, views[instants[i]], offset + k) == Some(Filled(ps, answers, buffer)[k])
    {
      assert ReadThen(views, ps[0 + i], answers[i], instants[i]);
      FilledByte(c.blockSize, offset, ps, answers, buffer, i, k);
      PieceReadsFlat(c.blockSize, offset, |buffer|, ps, i, k, views[instants[i]], answers[i]);
    }
    forall k | Covered(ps[..|answers|]) <= k < |buffer| ensures Filled(ps, answers, buffer)[k] == buffer[k] {
      FilledRest(c.blockSize, offset, ps, answers, buffer, k);
    }
  }

  /** A `read_locked` that finished holds in every byte of its buffer a flat device byte of an instant of the run. */
  lemma FinishedReadIsFlat(
    c: Config, s0: Sys, before: seq<Action>, t: nat, offset: nat, ps: seq<TouchedBlock>, buffer: Block,
    actions: seq<Action>, k: nat) returns (instant: nat)
    requires Initial(c, s0) && ValidRun(c, s0, before) && ThreadOf(After(c, s0, before), t).Idle?
    requires Tiles(c.blockSize, offset, |buffer|, ps) && ValidRun(c, After(c, s0, before), actions)
    requires Performs(c, After(c, s0, before), t, ReadOps(ps), START, actions)
    requires ProgressAfter(c, After(c, s0, before), t, START, actions).done == |ps| && k < |buffer|
    ensures var s := After(c, s0, before);
      var answers, views := Answers(c, s, t, actions), Views(c, s, actions);
      && c.blockSize > 0 && |answers| == |ps| && instant < |views|
      && FlatByte(c.blockSize, views[instant], offset + k) == Some(Filled(ps, answers, buffer)[k])
  {
    var instants := RequestReadsFlat(c, s0, before, t, offset, ps, buffer, actions);
    hide Initial, Performs, Next, Filled, FlatByte;
    TilesCover(c.blockSize, offset, |buffer|, ps);
    assert ps[..|ps|] == ps;
    var i := PieceOf(c.blockSize, offset, |buffer|, ps, k, |ps|);
    CoveredGrows(c.blockSize, offset, |buffer|, ps, i);
    instant := instants[i];
  }

  lemma AnswersOfViewsFit(
    size: nat, offset: nat, length: nat, ps: seq<TouchedBlock>, answers: seq<Block>, views: seq<Memory>,
    instants: seq<nat>)
    requires Tiles(size, offset, length, ps) && ReadAt(views, ps, 0, answers, instants)
    ensures AnswersFit(ps, answers, length)
  {
    forall i | 0 <= i < |answers| ensures |answers[i]| == ps[i].validLen && ps[i].BufferEnd() <= length {
      assert ReadThen(views, ps[0 + i], answers[i], instants[i]);
      CoveredGrows(size, offset, length, ps, i);
    }
  }

  /** The answers up to the first failed one. */
  function Successes(answers: seq<Result<Block, Fault>>): (r: seq<Block>)
    ensures |r| <= |answers| && forall i :: 0 <= i < |r| ==> answers[i] == Ok(r[i])
    ensures |r| < |answers| ==> answers[|r|].Err?
  {
    if answers == [] || answers[0].Err? then [] else [answers[0].value] + Successes(answers[1..])
  }

  lemma FilledNext(ps: seq<TouchedBlock>, answers: seq<Block>, n: nat, buffer: Block)
    requires AnswersFit(ps, answers, |buffer|) && n < |answers|
    ensures ps[n].bufferOffset + |answers[n]| <= |buffer|
    ensures Filled(ps, answers[..n + 1], buffer)
         == Splice(Filled(ps, answers[..n], buffer), ps[n].bufferOffset, answers[n])
  {
    assert answers[..n + 1][..n] == answers[..n];
  }

  /** `copy_from_slice` into a place of the buffer. */
  method CopyAnswer(answer: Block, at: nat, buffer: array<byte>)
    requires at + |answer| <= buffer.Length
    modifies buffer
    ensures buffer[..] == Splice(old(buffer[..]), at, answer)
  {
    forall k | 0 <= k < |answer| {
      buffer[at + k] := answer[k];
    }
  }

  /** The loop of `read_locked`: each piece is read into its place in the buffer, and the first failing read ends
      the request with its error. `answers` says what the reads return, as the events of a run do. */
  method FillBuffer(ps: seq<TouchedBlock>, answers: seq<Result<Block, Fault>>, buffer: array<byte>)
    returns (r: Result<(), Fault>)
    requires |answers| == |ps| && AnswersFit(ps, Successes(answers), buffer.Length)
    modifies buffer
    ensures buffer[..] == Filled(ps, Successes(answers), old(buffer[..]))
    ensures var n := |Successes(answers)|;
      r == if n == |ps| then Ok(()) else Err(answers[n].error)
  {
    hide Filled, AnswersFit, Successes;
    var n := 0;
    ghost var good := Successes(answers);
    FilledNone(ps, good, buffer[..]);
    while n < |ps|
      invariant n <= |good| <= |ps|
      invariant buffer[..] == Filled(ps, good[..n], old(buffer[..]))
    {
      if answers[n].Err? {
        assert good[..n] == good;
        return Err(answers[n].error);
      }
      FilledNext(ps, good, n, old(buffer[..]));
      CopyAnswer(answers[n].value, ps[n].bufferOffset, buffer);
      n := n + 1;
    }
    assert good[..n] == good;
    r := Ok(());
  }

  lemma FilledNone(ps: seq<TouchedBlock>, answers: seq<Block>, buffer: Block)
    ensures Filled(ps, answers[..0], buffer) == buffer
  {
  }
}
