/**
  The write staging store of the Windows backend (windows/BackendRust/src/staging.rs). Staged fragments overlay
  the media for readers; a commit writes an event's fragments to the media in sequence-number order, a rejection
  drops them. This module holds the store as a value and what its operations do to the view a host reads.
*/
module Staging {
  import opened Common

  type Bytes = seq<byte>

  datatype Fragment = Fragment(number: nat, at: nat, ordinal: nat, data: Bytes)

  datatype Record = Record(totalSeq: nat, fragments: map<nat, Fragment>)

  datatype Store = Store(writes: map<nat, Record>, next: nat)

  const EMPTY_STORE := Store(map[], 1)

  /** `AkWriteOp`. */
  datatype WriteOp = WriteOp(event: nat, number: nat, totalSeq: nat, at: nat, length: nat)

  datatype Status = Success | InvalidParameter | Unsuccessful

  /** What the media does with one write; a failing write may leave anything in the range. */
  datatype MediaWrite = Done | Torn(garbage: Bytes)

  /** The media of a run without faults. */
  function NoFault(n: nat): MediaWrite { Done }

  function SaturatingAdd(a: nat, b: nat): nat {
    if a + b < U64_LIMIT then a + b else U64_LIMIT - 1
  }

  predicate Has(st: Store, e: nat, n: nat) {
    e in st.writes && n in st.writes[e].fragments
  }

  function Frag(st: Store, e: nat, n: nat): Fragment
    requires Has(st, e, n)
  {
    st.writes[e].fragments[n]
  }

  /** The fragment stands for the device byte `a`. */
  predicate Covers(f: Fragment, a: nat) {
    f.at <= a < SaturatingAdd(f.at, |f.data|)
  }

  predicate InRange(f: Fragment, diskSize: nat) {
    f.at + |f.data| <= diskSize
  }

  /** Disks end below the last 64-bit address, so that no in-range end saturates. */
  predicate DiskSizeOk(diskSize: nat) { diskSize < U64_LIMIT - 1 }

  ghost predicate OrdinalsDistinct(st: Store) {
    forall e, n, e', n' :: Has(st, e, n) && Has(st, e', n') && Frag(st, e, n).ordinal == Frag(st, e', n').ordinal
      ==> e == e' && n == n'
  }

  /** Fragments are filed under their numbers, lie on the disk, and have distinct ordinals below the next one. */
  ghost predicate StoreOk(st: Store, diskSize: nat) {
    && (forall e, n :: Has(st, e, n) ==>
          Frag(st, e, n).number == n && 0 < Frag(st, e, n).ordinal < st.next && InRange(Frag(st, e, n), diskSize))
    && OrdinalsDistinct(st)
    && st.next > 0
  }

  // ---------------------------------------------------------------- the operations

  function RecordFor(st: Store, e: nat): Record {
    if e in st.writes then st.writes[e] else Record(0, map[])
  }

  /** `stage_write_locked`. */
  function Stage(st: Store, op: WriteOp, data: Bytes, diskSize: nat): (Status, Store) {
    if |data| != op.length then (InvalidParameter, st)
    else if SaturatingAdd(op.at, op.length) > diskSize then (InvalidParameter, st)
    else
      var record := RecordFor(st, op.event);
      if record.totalSeq != 0 && record.totalSeq != op.totalSeq then (InvalidParameter, st)
      else
        var fragments := record.fragments[op.number := Fragment(op.number, op.at, st.next, data)];
        (Success, Store(st.writes[op.event := Record(op.totalSeq, fragments)], st.next + 1))
  }

  /** `reject_locked`. */
  function Reject(st: Store, e: nat): Store {
    st.(writes := st.writes - {e})
  }

  /** One write to the media. */
  function WriteRange(media: Bytes, at: nat, data: Bytes, w: MediaWrite): (r: (bool, Bytes))
    requires at + |data| <= |media|
    ensures |r.1| == |media|
  {
    match w
    case Done => (true, Splice(media, at, data))
    case Torn(garbage) => (false, if |garbage| == |data| then Splice(media, at, garbage) else media)
  }

  /** Writes fragments to the media one after the other until one fails; `ws` answers by fragment number. */
  function WriteAll(frags: seq<Fragment>, media: Bytes, ws: nat -> MediaWrite): (r: (bool, Bytes))
    requires DiskSizeOk(|media|)
    ensures |r.1| == |media|
  {
    if frags == [] then (true, media)
    else
      var f := frags[0];
      if SaturatingAdd(f.at, |f.data|) > |media| then (false, media)
      else if f.data == [] then WriteAll(frags[1..], media, ws)
      else
        var (ok, media') := WriteRange(media, f.at, f.data, ws(f.number));
        if ok then WriteAll(frags[1..], media', ws) else (false, media')
  }

  /** Ascending order, as a BTreeMap iterates. */
  function Ascending(s: set<nat>): (r: seq<nat>)
    ensures forall x :: x in r <==> x in s
    ensures forall i, j :: 0 <= i < j < |r| ==> r[i] < r[j]
  {
    match Least(s)
    case None => []
    case Some(m) => [m] + Ascending(s - {m})
  }

  /** The fragments of an event in sequence-number order. */
  function InOrder(fragments: map<nat, Fragment>): (r: seq<Fragment>)
    ensures |r| == |Ascending(fragments.Keys)|
    ensures forall i :: 0 <= i < |r| ==>
      Ascending(fragments.Keys)[i] in fragments && r[i] == fragments[Ascending(fragments.Keys)[i]]
  {
    var keys := Ascending(fragments.Keys);
    seq(|keys|, i requires 0 <= i < |keys| => fragments[keys[i]])
  }

  /** `commit_locked` on a media of the size of the disk. */
  function Commit(st: Store, media: Bytes, e: nat, ws: nat -> MediaWrite): (bool, Store, Bytes)
    requires DiskSizeOk(|media|)
  {
    if e !in st.writes then (true, st, media)
    else
      var (ok, media') := WriteAll(InOrder(st.writes[e].fragments), media, ws);
      if ok then (true, Reject(st, e), media') else (false, st, media')
  }

  /** A commit of fragments on the disk succeeds exactly when each write it makes does; then the event is gone, and
      otherwise nothing is. */
  lemma CommitSucceedsIff(st: Store, media: Bytes, e: nat, ws: nat -> MediaWrite)
    requires DiskSizeOk(|media|) && StoreOk(st, |media|)
    ensures var (ok, st', media') := Commit(st, media, e, ws);
      && (ok <==> forall n :: Has(st, e, n) && Frag(st, e, n).data != [] ==> ws(n) == Done)
      && st' == (if ok then st.(writes := st.writes - {e}) else st)
  {
    if e in st.writes {
      var frags := InOrder(st.writes[e].fragments);
      var keys := Ascending(st.writes[e].fragments.Keys);
      forall f | f in frags ensures InRange(f, |media|) && Has(st, e, f.number) && f == Frag(st, e, f.number) {
        var i :| 0 <= i < |frags| && frags[i] == f;
        assert keys[i] in keys && Has(st, e, keys[i]);
      }
      WritesSucceedIff(frags, media, ws);
      forall n | Has(st, e, n) ensures Frag(st, e, n) in frags && Frag(st, e, n).number == n {
        assert n in keys;
        var i :| 0 <= i < |keys| && keys[i] == n;
        assert frags[i] == Frag(st, e, n);
      }
    } else {
      assert st.writes - {e} == st.writes;
    }
  }

  lemma {:induction false} WritesSucceedIff(frags: seq<Fragment>, media: Bytes, ws: nat -> MediaWrite)
    requires DiskSizeOk(|media|) && forall f :: f in frags ==> InRange(f, |media|)
    ensures WriteAll(frags, media, ws).0 <==> forall f :: f in frags && f.data != [] ==> ws(f.number) == Done
    decreases |frags|
  {
    if frags != [] {
      var f := frags[0];
      assert f in frags && InRange(f, |media|);
      var rest := WriteRange(media, f.at, f.data, ws(f.number)).1;
      WritesSucceedIff(frags[1..], media, ws);
      WritesSucceedIff(frags[1..], rest, ws);
      assert frags == [f] + frags[1..];
    }
  }

  // ---------------------------------------------------------------- the view

  /** The fragment with the highest ordinal among those that cover the byte. */
  ghost predicate Top(st: Store, a: nat, e: nat, n: nat) {
    && Has(st, e, n) && Covers(Frag(st, e, n), a)
    && forall e', n' :: Has(st, e', n') && Covers(Frag(st, e', n'), a) ==>
        Frag(st, e', n').ordinal <= Frag(st, e, n).ordinal
  }

  /** The byte a host reads at `a` when the media holds `x` there. */
  ghost function ViewByte(st: Store, x: byte, a: nat): byte {
    if exists e, n :: Top(st, a, e, n) then
      var e, n :| Top(st, a, e, n);
      Frag(st, e, n).data[a - Frag(st, e, n).at]
    else x
  }

  ghost function HostView(st: Store, media: Bytes): (r: Bytes)
    ensures |r| == |media|
    ensures forall a :: 0 <= a < |media| ==> r[a] == ViewByte(st, media[a], a)
  {
    seq(|media|, a requires 0 <= a < |media| => ViewByte(st, media[a], a))
  }

  function CoveringOrdinals(st: Store, a: nat): set<nat> {
    set e, n | e in st.writes && n in st.writes[e].fragments && Covers(st.writes[e].fragments[n], a)
      :: st.writes[e].fragments[n].ordinal
  }

  lemma {:induction false} LargestExists(s: set<nat>) returns (m: nat)
    requires s != {}
    ensures m in s && forall x :: x in s ==> x <= m
  {
    m :| m in s;
    if s != {m} {
      var k := LargestExists(s - {m});
      assert forall x :: x in s ==> x == m || x in s - {m};
      m := if m < k then k else m;
    }
  }

  /** A byte that some fragment covers has a top fragment. */
  lemma CoveredHasTop(st: Store, a: nat, e: nat, n: nat)
    requires Has(st, e, n) && Covers(Frag(st, e, n), a)
    ensures exists e', n' :: Top(st, a, e', n')
  {
    var ordinals := CoveringOrdinals(st, a);
    assert Frag(st, e, n).ordinal in ordinals;
    var m := LargestExists(ordinals);
    var e', n' :| e' in st.writes && n' in st.writes[e'].fragments
      && Covers(st.writes[e'].fragments[n'], a) && st.writes[e'].fragments[n'].ordinal == m;
    forall e'', n'' | Has(st, e'', n'') && Covers(Frag(st, e'', n''), a) ensures Frag(st, e'', n'').ordinal <= m {
      assert Frag(st, e'', n'').ordinal in ordinals;
    }
    assert Has(st, e', n') && Frag(st, e', n').ordinal == m;
    assert Top(st, a, e', n');
  }

  lemma ViewOfTop(st: Store, x: byte, a: nat, e: nat, n: nat)
    requires OrdinalsDistinct(st) && Top(st, a, e, n)
    ensures ViewByte(st, x, a) == Frag(st, e, n).data[a - Frag(st, e, n).at]
  {
    forall e', n' | Top(st, a, e', n') ensures e' == e && n' == n {
      assert Has(st, e', n') && Has(st, e, n);
    }
  }

  lemma ViewOfBare(st: Store, x: byte, a: nat)
    requires forall e, n :: Has(st, e, n) ==> !Covers(Frag(st, e, n), a)
    ensures ViewByte(st, x, a) == x
  {
  }

  // ---------------------------------------------------------------- the store stays well formed

  lemma StageAccepted(st: Store, op: WriteOp, data: Bytes, diskSize: nat)
    requires Stage(st, op, data, diskSize).0 == Success
    ensures var st' := Stage(st, op, data, diskSize).1;
      && st'.next == st.next + 1 && |data| == op.length
      && (forall e, n :: Has(st', e, n) <==> Has(st, e, n) || (e == op.event && n == op.number))
      && (forall e, n :: Has(st', e, n) ==>
            Frag(st', e, n)
              == if e == op.event && n == op.number then Fragment(n, op.at, st.next, data) else Frag(st, e, n))
  {
  }

  /** Pieces of the event were staged so far under this total, or under none. */
  predicate TotalFits(st: Store, e: nat, total: nat) {
    e in st.writes ==> st.writes[e].totalSeq == 0 || st.writes[e].totalSeq == total
  }

  /** A write is staged exactly when its data has the announced length, ends on the disk, and comes under the total
      of the pieces staged before; otherwise nothing changes. */
  lemma StageAcceptedIff(st: Store, op: WriteOp, data: Bytes, diskSize: nat)
    requires DiskSizeOk(diskSize)
    ensures var (status, st') := Stage(st, op, data, diskSize);
      && (status == Success <==>
            |data| == op.length && op.at + |data| <= diskSize && TotalFits(st, op.event, op.totalSeq))
      && (status != Success ==> status == InvalidParameter && st' == st)
      && (status == Success ==> op.event in st'.writes && st'.writes[op.event].totalSeq == op.totalSeq)
      && (forall e :: e != op.event ==> (e in st'.writes <==> e in st.writes))
      && (forall e :: e in st.writes && e != op.event ==> st'.writes[e] == st.writes[e])
  {
  }

  lemma StageKeepsOk(st: Store, op: WriteOp, data: Bytes, diskSize: nat)
    requires StoreOk(st, diskSize) && DiskSizeOk(diskSize)
    ensures StoreOk(Stage(st, op, data, diskSize).1, diskSize)
  {
    if Stage(st, op, data, diskSize).0 == Success {
      StageAccepted(st, op, data, diskSize);
    }
  }

  lemma RejectedHas(st: Store, e: nat)
    ensures forall e', n :: Has(Reject(st, e), e', n) <==> Has(st, e', n) && e' != e
    ensures forall e', n :: Has(Reject(st, e), e', n) ==> Frag(Reject(st, e), e', n) == Frag(st, e', n)
  {
  }

  lemma RejectKeepsOk(st: Store, e: nat, diskSize: nat)
    requires StoreOk(st, diskSize)
    ensures StoreOk(Reject(st, e), diskSize)
  {
    RejectedHas(st, e);
  }

  lemma RejectKeepsDistinct(st: Store, e: nat, diskSize: nat)
    requires StoreOk(st, diskSize)
    ensures OrdinalsDistinct(st) && OrdinalsDistinct(Reject(st, e))
  {
    RejectKeepsOk(st, e, diskSize);
  }

  /** The saturating range check of a stage lets a range past the end of the disk through only for a disk of
      2^64 - 1 bytes. */
  lemma OverflowAcceptedIff(at: nat, length: nat, diskSize: nat)
    requires diskSize < U64_LIMIT
    ensures SaturatingAdd(at, length) <= diskSize && at + length > diskSize
      <==> diskSize == U64_LIMIT - 1 && at + length > diskSize
  {
  }

  /** The store without one fragment. */
  function Dropped(st: Store, e: nat, n: nat): Store {
    if Has(st, e, n) then
      st.(writes := st.writes[e := st.writes[e].(fragments := st.writes[e].fragments - {n})])
    else st
  }

  lemma DroppedHas(st: Store, e: nat, n: nat, diskSize: nat)
    requires StoreOk(st, diskSize)
    ensures var st' := Dropped(st, e, n);
      && StoreOk(st', diskSize)
      && (forall e', n' :: Has(st', e', n') <==> Has(st, e', n') && !(e' == e && n' == n))
      && (forall e', n' :: Has(st', e', n') ==> Frag(st', e', n') == Frag(st, e', n'))
  {
    var st' := Dropped(st, e, n);
    forall e', n' ensures Has(st', e', n') <==> Has(st, e', n') && !(e' == e && n' == n) {
    }
    forall e', n' | Has(st', e', n') ensures Frag(st', e', n') == Frag(st, e', n') {
    }
  }

  /** A newly staged fragment is what readers see in its range at once. Elsewhere they see what they saw, without
      the fragment of the same event and number that it replaces, if there was one. */
  lemma StagedIsVisible(st: Store, op: WriteOp, data: Bytes, media: Bytes)
    requires DiskSizeOk(|media|) && StoreOk(st, |media|) && Stage(st, op, data, |media|).0 == Success
    ensures op.at + |data| <= |media|
    ensures HostView(Stage(st, op, data, |media|).1, media)
         == Splice(HostView(Dropped(st, op.event, op.number), media), op.at, data)
  {
    var st' := Stage(st, op, data, |media|).1;
    var base := Dropped(st, op.event, op.number);
    StageAccepted(st, op, data, |media|);
    StageKeepsOk(st, op, data, |media|);
    forall a | 0 <= a < |media|
      ensures ViewByte(st', media[a], a) == Splice(HostView(base, media), op.at, data)[a]
    {
      StagedByte(st, op, data, |media|, media[a], a);
    }
  }

  lemma StagedByte(st: Store, op: WriteOp, data: Bytes, diskSize: nat, x: byte, a: nat)
    requires DiskSizeOk(diskSize) && StoreOk(st, diskSize) && Stage(st, op, data, diskSize).0 == Success
    ensures ViewByte(Stage(st, op, data, diskSize).1, x, a)
      == if op.at <= a < op.at + |data| then data[a - op.at]
         else ViewByte(Dropped(st, op.event, op.number), x, a)
  {
    var st' := Stage(st, op, data, diskSize).1;
    var base := Dropped(st, op.event, op.number);
    StageAccepted(st, op, data, diskSize);
    StageKeepsOk(st, op, data, diskSize);
    DroppedHas(st, op.event, op.number, diskSize);
    assert Has(st', op.event, op.number);
    if op.at <= a < op.at + |data| {
      assert Top(st', a, op.event, op.number);
      ViewOfTop(st', x, a, op.event, op.number);
    } else {
      OlderByte(base, st', op.event, op.number, x, a);
    }
  }

  /** A fragment that does not cover the byte does not matter for it. */
  lemma OlderByte(base: Store, st: Store, e: nat, n: nat, x: byte, a: nat)
    requires OrdinalsDistinct(base) && OrdinalsDistinct(st)
    requires forall e', n' :: Has(base, e', n') <==> Has(st, e', n') && !(e' == e && n' == n)
    requires forall e', n' :: Has(base, e', n') ==> Frag(st, e', n') == Frag(base, e', n')
    requires Has(st, e, n) ==> !Covers(Frag(st, e, n), a)
    ensures ViewByte(st, x, a) == ViewByte(base, x, a)
  {
    if e', n' :| Has(base, e', n') && Covers(Frag(base, e', n'), a) {
      CoveredHasTop(base, a, e', n');
      var e'', n'' :| Top(base, a, e'', n'');
      assert Has(st, e'', n'');
      assert Top(st, a, e'', n'');
      ViewOfTop(base, x, a, e'', n'');
      ViewOfTop(st, x, a, e'', n'');
    } else {
      ViewOfBare(base, x, a);
      ViewOfBare(st, x, a);
    }
  }

  // ---------------------------------------------------------------- commit

  /** The last fragment of a list that covers the byte. */
  function LastCovering(frags: seq<Fragment>, a: nat): (r: Option<Fragment>)
    ensures r.Some? ==> r.value in frags && Covers(r.value, a)
    ensures r.None? ==> forall f :: f in frags ==> !Covers(f, a)
  {
    if frags == [] then None
    else if Covers(frags[|frags| - 1], a) then Some(frags[|frags| - 1])
    else LastCovering(frags[..|frags| - 1], a)
  }

  function Overwritten(frags: seq<Fragment>, a: nat, x: byte): byte {
    match LastCovering(frags, a)
    case None => x
    case Some(f) => f.data[a - f.at]
  }

  lemma {:induction false} OverwrittenFromFront(frags: seq<Fragment>, a: nat, x: byte)
    requires frags != []
    ensures Overwritten(frags, a, x)
      == Overwritten(frags[1..], a, if Covers(frags[0], a) then frags[0].data[a - frags[0].at] else x)
  {
    var n := |frags| - 1;
    if n > 0 {
      assert frags[1..][n - 1] == frags[n];
      assert frags[1..][..n - 1] == frags[..n][1..];
      if !Covers(frags[n], a) {
        OverwrittenFromFront(frags[..n], a, x);
      }
    }
  }

  /** Writing every fragment leaves the last covering fragment's byte; a failing run changes only covered bytes. */
  lemma {:induction false} WriteAllBytes(frags: seq<Fragment>, media: Bytes, ws: nat -> MediaWrite, a: nat)
    requires DiskSizeOk(|media|) && a < |media|
    ensures var (ok, media') := WriteAll(frags, media, ws);
      if ok then media'[a] == Overwritten(frags, a, media[a])
      else media'[a] == media[a] || exists f :: f in frags && Covers(f, a)
  {
    if frags != [] {
      var f := frags[0];
      OverwrittenFromFront(frags, a, media[a]);
      if SaturatingAdd(f.at, |f.data|) <= |media| {
        if f.data == [] {
          WriteAllBytes(frags[1..], media, ws, a);
        } else {
          var (ok, media') := WriteRange(media, f.at, f.data, ws(f.number));
          WriteAllBytes(frags[1..], media', ws, a);
        }
        assert f in frags;
        assert forall g :: g in frags[1..] ==> g in frags;
      }
    }
  }

  /** A failed commit, however far it got and whatever it left in the media, changes nothing a host can read:
      every byte it may have touched is still covered by the event's own staged fragments. */
  lemma FailedCommitKeepsView(st: Store, media: Bytes, e: nat, ws: nat -> MediaWrite)
    requires DiskSizeOk(|media|) && StoreOk(st, |media|) && !Commit(st, media, e, ws).0
    ensures Commit(st, media, e, ws).1 == st
    ensures HostView(st, Commit(st, media, e, ws).2) == HostView(st, media)
  {
    var frags := InOrder(st.writes[e].fragments);
    var media' := Commit(st, media, e, ws).2;
    forall a | 0 <= a < |media| ensures ViewByte(st, media'[a], a) == ViewByte(st, media[a], a) {
      WriteAllBytes(frags, media, ws, a);
      if media'[a] != media[a] {
        var f :| f in frags && Covers(f, a);
        var i :| 0 <= i < |frags| && frags[i] == f;
        var n := Ascending(st.writes[e].fragments.Keys)[i];
        CoveredHasTop(st, a, e, n);
        var e', n' :| Top(st, a, e', n');
        ViewOfTop(st, media'[a], a, e', n');
        ViewOfTop(st, media[a], a, e', n');
      }
    }
  }

  /** The event's fragment that a commit writes last at the byte. */
  ghost predicate WrittenLast(st: Store, a: nat, e: nat, n: nat) {
    && Has(st, e, n) && Covers(Frag(st, e, n), a)
    && forall n': nat :: Has(st, e, n') && Covers(Frag(st, e, n'), a) ==> n' <= n
  }

  lemma {:induction false} LastCoveringIsLargest(keys: seq<nat>, fragments: map<nat, Fragment>, frags: seq<Fragment>, a: nat)
    returns (n: nat)
    requires |frags| == |keys| && forall i :: 0 <= i < |keys| ==> keys[i] in fragments && frags[i] == fragments[keys[i]]
    requires forall i, j :: 0 <= i < j < |keys| ==> keys[i] < keys[j]
    requires LastCovering(frags, a).Some?
    ensures n in keys && LastCovering(frags, a) == Some(fragments[n])
    ensures forall n' :: n' in keys && Covers(fragments[n'], a) ==> n' <= n
  {
    var k := |keys| - 1;
    n := keys[k];
    if !Covers(frags[k], a) {
      n := LastCoveringIsLargest(keys[..k], fragments, frags[..k], a);
    }
  }

  lemma CommittedByte(st: Store, e: nat, a: nat, x: byte)
    requires e in st.writes
    ensures var y := Overwritten(InOrder(st.writes[e].fragments), a, x);
      if exists n :: WrittenLast(st, a, e, n)
      then forall n :: WrittenLast(st, a, e, n) ==> y == Frag(st, e, n).data[a - Frag(st, e, n).at]
      else y == x && forall n :: Has(st, e, n) ==> !Covers(Frag(st, e, n), a)
  {
    hide WrittenLast;
    if LastCovering(InOrder(st.writes[e].fragments), a).Some? {
      CommittedLast(st, e, a);
    } else {
      NothingCommitted(st, e, a);
    }
  }

  lemma CommittedLast(st: Store, e: nat, a: nat)
    requires e in st.writes && LastCovering(InOrder(st.writes[e].fragments), a).Some?
    ensures exists n :: WrittenLast(st, a, e, n)
    ensures forall n :: WrittenLast(st, a, e, n) ==>
      LastCovering(InOrder(st.writes[e].fragments), a) == Some(Frag(st, e, n))
  {
    var fragments := st.writes[e].fragments;
    var n := LastCoveringIsLargest(Ascending(fragments.Keys), fragments, InOrder(fragments), a);
    assert Has(st, e, n) && Frag(st, e, n) == fragments[n];
    assert WrittenLast(st, a, e, n);
  }

  lemma NothingCommitted(st: Store, e: nat, a: nat)
    requires e in st.writes && LastCovering(InOrder(st.writes[e].fragments), a).None?
    ensures forall n :: !WrittenLast(st, a, e, n)
    ensures forall n :: Has(st, e, n) ==> !Covers(Frag(st, e, n), a)
  {
    var fragments := st.writes[e].fragments;
    var frags, keys := InOrder(fragments), Ascending(fragments.Keys);
    forall n | Has(st, e, n) ensures !Covers(Frag(st, e, n), a) {
      assert n in keys;
      var i :| 0 <= i < |keys| && keys[i] == n;
      assert frags[i] in frags;
    }
  }

  /** Some other event has a fragment over the byte. */
  ghost predicate OtherCovers(st: Store, a: nat, e: nat) {
    exists e', n' :: Has(st, e', n') && e' != e && Covers(Frag(st, e', n'), a)
  }

  /** Wherever the event's fragment is what a host reads, no other event has a fragment, and the event's own
      overlaps have the same order by sequence number as by ordinal. */
  ghost predicate CommitSafeAt(st: Store, e: nat, a: nat) {
    forall n :: Top(st, a, e, n) ==> !OtherCovers(st, a, e) && WrittenLast(st, a, e, n)
  }

  ghost predicate CommitSafe(st: Store, e: nat) {
    forall a: nat :: CommitSafeAt(st, e, a)
  }

  lemma TopOfOthersStays(st: Store, e: nat, a: nat, e': nat, n': nat)
    requires Top(st, a, e', n') && e' != e
    ensures Top(Reject(st, e), a, e', n')
  {
    RejectedHas(st, e);
    assert Has(Reject(st, e), e', n');
  }

  lemma SafeByteKept(st: Store, e: nat, a: nat, diskSize: nat, x: byte)
    requires StoreOk(st, diskSize) && e in st.writes && CommitSafeAt(st, e, a)
    ensures ViewByte(Reject(st, e), Overwritten(InOrder(st.writes[e].fragments), a, x), a) == ViewByte(st, x, a)
  {
    hide ViewByte, Overwritten, StoreOk, Reject;
    var y := Overwritten(InOrder(st.writes[e].fragments), a, x);
    RejectKeepsDistinct(st, e, diskSize);
    RejectedHas(st, e);
    CommittedByte(st, e, a, x);
    if e', n' :| Top(st, a, e', n') {
      ViewOfTop(st, x, a, e', n');
      if e' != e {
        TopOfOthersStays(st, e, a, e', n');
        ViewOfTop(Reject(st, e), y, a, e', n');
      } else {
        assert WrittenLast(st, a, e, n');
        ViewOfBare(Reject(st, e), y, a);
      }
    } else {
      forall e', n' | Has(st, e', n') ensures !Covers(Frag(st, e', n'), a) {
        if Covers(Frag(st, e', n'), a) {
          CoveredHasTop(st, a, e', n');
        }
      }
      ViewOfBare(st, x, a);
      ViewOfBare(Reject(st, e), y, a);
    }
  }

  /** A successful commit keeps the view when it is safe. */
  lemma SafeCommitKeepsView(st: Store, media: Bytes, e: nat, ws: nat -> MediaWrite)
    requires DiskSizeOk(|media|) && StoreOk(st, |media|) && Commit(st, media, e, ws).0
    requires CommitSafe(st, e)
    ensures |Commit(st, media, e, ws).2| == |media|
    ensures HostView(Commit(st, media, e, ws).1, Commit(st, media, e, ws).2) == HostView(st, media)
  {
    if e in st.writes {
      var media' := Commit(st, media, e, ws).2;
      forall a | 0 <= a < |media| ensures ViewByte(Reject(st, e), media'[a], a) == ViewByte(st, media[a], a) {
        WriteAllBytes(InOrder(st.writes[e].fragments), media, ws, a);
        assert CommitSafeAt(st, e, a);
        SafeByteKept(st, e, a, |media|, media[a]);
      }
    }
  }

  // ---------------------------------------------------------------- the condition is exact

  /** The same fragments but for their contents. */
  ghost predicate SameShape(st: Store, st': Store) {
    && st.next == st'.next
    && (forall e, n :: Has(st, e, n) <==> Has(st', e, n))
    && (forall e, n :: Has(st, e, n) ==>
          var f, f' := Frag(st, e, n), Frag(st', e, n);
          f.number == f'.number && f.at == f'.at && f.ordinal == f'.ordinal && |f.data| == |f'.data|)
  }

  /** The fragments filled with zeros, but for one that is filled with ones. */
  function Coloured(st: Store, e: nat, n: nat): Store {
    st.(writes := map e' | e' in st.writes :: st.writes[e'].(fragments :=
      map n' | n' in st.writes[e'].fragments ::
        st.writes[e'].fragments[n'].(data :=
          seq(|st.writes[e'].fragments[n'].data|, _ => if e' == e && n' == n then 1 else 0))))
  }

  lemma ColouredFragment(st: Store, e: nat, n: nat, e': nat, n': nat)
    ensures Has(st, e', n') <==> Has(Coloured(st, e, n), e', n')
    ensures Has(st, e', n') ==>
      var f, f' := Frag(st, e', n'), Frag(Coloured(st, e, n), e', n');
      && f.number == f'.number && f.at == f'.at && f.ordinal == f'.ordinal && |f.data| == |f'.data|
      && forall i :: 0 <= i < |f'.data| ==> f'.data[i] == if e' == e && n' == n then 1 else 0
  {
  }

  lemma ColouredShape(st: Store, e: nat, n: nat)
    ensures SameShape(st, Coloured(st, e, n)) && st.writes.Keys == Coloured(st, e, n).writes.Keys
    ensures forall e', n' :: Has(st, e', n') ==>
      forall i :: 0 <= i < |Frag(Coloured(st, e, n), e', n').data| ==>
        Frag(Coloured(st, e, n), e', n').data[i] == if e' == e && n' == n then 1 else 0
  {
    var st' := Coloured(st, e, n);
    assert st.next == st'.next && st.writes.Keys == st'.writes.Keys;
    hide Coloured;
    forall e', n'
      ensures Has(st, e', n') <==> Has(st', e', n')
      ensures Has(st, e', n') ==>
        var f, f' := Frag(st, e', n'), Frag(st', e', n');
        && f.number == f'.number && f.at == f'.at && f.ordinal == f'.ordinal && |f.data| == |f'.data|
        && forall i :: 0 <= i < |f'.data| ==> f'.data[i] == if e' == e && n' == n then 1 else 0
    {
      ColouredFragment(st, e, n, e', n');
    }
  }

  lemma ShapeKeepsTops(st: Store, st': Store, a: nat, e: nat, n: nat)
    requires SameShape(st, st')
    ensures Top(st, a, e, n) <==> Top(st', a, e, n)
    ensures WrittenLast(st, a, e, n) <==> WrittenLast(st', a, e, n)
    ensures OtherCovers(st, a, e) <==> OtherCovers(st', a, e)
  {
    if OtherCovers(st, a, e) {
      var e', n' :| Has(st, e', n') && e' != e && Covers(Frag(st, e', n'), a);
      assert Has(st', e', n') && Covers(Frag(st', e', n'), a);
    }
    if OtherCovers(st', a, e) {
      var e', n' :| Has(st', e', n') && e' != e && Covers(Frag(st', e', n'), a);
      assert Has(st, e', n') && Covers(Frag(st, e', n'), a);
    }
  }

  lemma ShapeKeepsOk(st: Store, st': Store, diskSize: nat)
    requires SameShape(st, st') && StoreOk(st, diskSize)
    ensures StoreOk(st', diskSize)
  {
  }

  /** At a byte where the commit is unsafe, ones turn into zeros. */
  lemma UnsafeByteChanges(st: Store, e: nat, n: nat, a: nat, diskSize: nat)
    requires StoreOk(st, diskSize) && Top(st, a, e, n) && (OtherCovers(st, a, e) || !WrittenLast(st, a, e, n))
    ensures var st' := Coloured(st, e, n);
      && e in st'.writes && ViewByte(st', 0, a) == 1
      && ViewByte(Reject(st', e), Overwritten(InOrder(st'.writes[e].fragments), a, 0), a) == 0
  {
    var st' := Coloured(st, e, n);
    ColouredShape(st, e, n);
    ShapeKeepsOk(st, st', diskSize);
    ShapeKeepsTops(st, st', a, e, n);
    ViewOfTop(st', 0, a, e, n);
    UnsafeAfter(st', e, n, a, diskSize, Overwritten(InOrder(st'.writes[e].fragments), a, 0));
  }

  lemma UncoveredOther(st: Store, e: nat, a: nat, y: byte)
    requires OrdinalsDistinct(st) && OtherCovers(st, a, e)
    requires forall e', n', i :: Has(st, e', n') && e' != e && 0 <= i < |Frag(st, e', n').data| ==>
      Frag(st, e', n').data[i] == 0
    ensures ViewByte(Reject(st, e), y, a) == 0
  {
    RejectedHas(st, e);
    var e', n' :| Has(st, e', n') && e' != e && Covers(Frag(st, e', n'), a);
    assert Has(Reject(st, e), e', n');
    CoveredHasTop(Reject(st, e), a, e', n');
    var e'', n'' :| Top(Reject(st, e), a, e'', n'');
    ViewOfTop(Reject(st, e), y, a, e'', n'');
  }

  lemma UnsafeAfter(st: Store, e: nat, n: nat, a: nat, diskSize: nat, y: byte)
    requires StoreOk(st, diskSize) && Top(st, a, e, n) && (OtherCovers(st, a, e) || !WrittenLast(st, a, e, n))
    requires forall e', n', i :: Has(st, e', n') && !(e' == e && n' == n) && 0 <= i < |Frag(st, e', n').data| ==>
      Frag(st, e', n').data[i] == 0
    requires y == Overwritten(InOrder(st.writes[e].fragments), a, 0)
    ensures ViewByte(Reject(st, e), y, a) == 0
  {
    RejectedHas(st, e);
    RejectKeepsOk(st, e, diskSize);
    if OtherCovers(st, a, e) {
      UncoveredOther(st, e, a, y);
    } else {
      forall e', n' | Has(Reject(st, e), e', n') ensures !Covers(Frag(Reject(st, e), e', n'), a) {
        assert Has(st, e', n') && e' != e;
      }
      ViewOfBare(Reject(st, e), y, a);
      CommittedByte(st, e, a, 0);
      var last :| WrittenLast(st, a, e, last);
    }
  }

  /** The commit keeps the view of these fragments whatever bytes they hold. */
  ghost predicate KeepsViewOfAll(st: Store, e: nat, diskSize: nat)
    requires DiskSizeOk(diskSize)
  {
    forall st', media, ws ::
      SameShape(st, st') && |media| == diskSize && Commit(st', media, e, ws).0 && st'.writes.Keys == st.writes.Keys ==>
        HostView(Commit(st', media, e, ws).1, Commit(st', media, e, ws).2) == HostView(st', media)
  }

  /** The precondition of a view-keeping commit is exact: a successful commit of event `e` keeps the view for all
      contents of the staged fragments and the media if and only if `CommitSafe` holds. */
  lemma CommitKeepsViewIff(st: Store, e: nat, diskSize: nat)
    requires DiskSizeOk(diskSize) && StoreOk(st, diskSize)
    ensures KeepsViewOfAll(st, e, diskSize) <==> CommitSafe(st, e)
  {
    if CommitSafe(st, e) {
      forall st', media, ws | SameShape(st, st') && |media| == diskSize && Commit(st', media, e, ws).0
        ensures HostView(Commit(st', media, e, ws).1, Commit(st', media, e, ws).2) == HostView(st', media)
      {
        ShapeKeepsOk(st, st', diskSize);
        ShapeKeepsSafe(st, st', e);
        SafeCommitKeepsView(st', media, e, ws);
      }
    } else {
      UnsafeCommitBreaksView(st, e, diskSize);
    }
  }

  lemma ShapeKeepsSafe(st: Store, st': Store, e: nat)
    requires SameShape(st, st') && CommitSafe(st, e)
    ensures CommitSafe(st', e)
  {
    forall a: nat, n | Top(st', a, e, n) ensures !OtherCovers(st', a, e) && WrittenLast(st', a, e, n) {
      ShapeKeepsTops(st, st', a, e, n);
      assert CommitSafeAt(st, e, a);
    }
  }

  lemma {:induction false} AllDone(frags: seq<Fragment>, media: Bytes)
    requires DiskSizeOk(|media|) && forall f :: f in frags ==> InRange(f, |media|)
    ensures WriteAll(frags, media, NoFault).0
  {
    if frags != [] {
      var f := frags[0];
      assert f in frags && InRange(f, |media|);
      assert forall g :: g in frags[1..] ==> g in frags;
      AllDone(frags[1..], if f.data == [] then media else Splice(media, f.at, f.data));
    }
  }

  lemma UnsafeCommitBreaksView(st: Store, e: nat, diskSize: nat)
    requires DiskSizeOk(diskSize) && StoreOk(st, diskSize) && !CommitSafe(st, e)
    ensures !KeepsViewOfAll(st, e, diskSize)
  {
    hide StoreOk, SameShape, Top, OtherCovers, WrittenLast, Coloured, Commit, ViewByte, HostView;
    var a: nat, n :| Top(st, a, e, n) && (OtherCovers(st, a, e) || !WrittenLast(st, a, e, n));
    var st' := Coloured(st, e, n);
    var media: Bytes := seq(diskSize, _ => 0);
    ColouredShape(st, e, n);
    ShapeKeepsOk(st, st', diskSize);
    TopInRange(st, a, e, n, diskSize);
    UnsafeByteChanges(st, e, n, a, diskSize);
    ColouredCommit(st', e, a, media);
  }

  lemma TopInRange(st: Store, a: nat, e: nat, n: nat, diskSize: nat)
    requires StoreOk(st, diskSize) && Top(st, a, e, n)
    ensures a < diskSize
  {
  }

  /** A failure-free commit, seen at one byte. */
  lemma ColouredCommit(st: Store, e: nat, a: nat, media: Bytes)
    requires DiskSizeOk(|media|) && StoreOk(st, |media|) && e in st.writes && a < |media|
    requires ViewByte(st, media[a], a)
      != ViewByte(Reject(st, e), Overwritten(InOrder(st.writes[e].fragments), a, media[a]), a)
    ensures var after := Commit(st, media, e, NoFault);
      after.0 && HostView(after.1, after.2) != HostView(st, media)
  {
    var frags := InOrder(st.writes[e].fragments);
    forall f | f in frags ensures InRange(f, |media|) {
      var i :| 0 <= i < |frags| && frags[i] == f;
      assert Has(st, e, Ascending(st.writes[e].fragments.Keys)[i]);
    }
    AllDone(frags, media);
    WriteAllBytes(frags, media, NoFault, a);
    var after := Commit(st, media, e, NoFault);
    assert HostView(after.1, after.2)[a] != HostView(st, media)[a];
  }
}
