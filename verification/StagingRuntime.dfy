/**
  The staging store and the disk runtime in place (windows/BackendRust/src/staging.rs, runtime.rs). Each method is
  proved equal to the operation of the same name in `Staging`; reads are proved to give the host's view.
*/
module StagingRuntime {
  import opened Common
  import opened Staging

  /** The part of a fragment that lies in the window of a read. */
  datatype Slice = Slice(ordinal: nat, dest: nat, source: nat, length: nat, data: Bytes)

  predicate Overlaps(f: Fragment, begin: nat, end: nat) {
    Max(f.at, begin) < Min(SaturatingAdd(f.at, |f.data|), end)
  }

  function SliceOf(f: Fragment, begin: nat, end: nat): (s: Slice)
    requires Overlaps(f, begin, end)
    ensures s.source + s.length <= |s.data| && s.dest + s.length <= end - begin
  {
    var from := Max(f.at, begin);
    var to := Min(SaturatingAdd(f.at, |f.data|), end);
    Slice(f.ordinal, from - begin, from - f.at, to - from, f.data)
  }

  /** The slices of exactly those fragments of the set that overlap the window. */
  ghost predicate Collected(slices: seq<Slice>, frags: set<Fragment>, begin: nat, end: nat) {
    && (forall s :: s in slices ==> exists f :: f in frags && Overlaps(f, begin, end) && s == SliceOf(f, begin, end))
    && (forall f :: f in frags && Overlaps(f, begin, end) ==> SliceOf(f, begin, end) in slices)
  }

  lemma CollectedUnion(s: seq<Slice>, f: set<Fragment>, s': seq<Slice>, f': set<Fragment>, begin: nat, end: nat)
    requires Collected(s, f, begin, end) && Collected(s', f', begin, end)
    ensures Collected(s + s', f + f', begin, end)
  {
    forall x | x in s + s'
      ensures exists g :: g in f + f' && Overlaps(g, begin, end) && x == SliceOf(g, begin, end)
    {
      if x in s {
        var g :| g in f && Overlaps(g, begin, end) && x == SliceOf(g, begin, end);
        assert g in f + f';
      } else {
        var g :| g in f' && Overlaps(g, begin, end) && x == SliceOf(g, begin, end);
        assert g in f + f';
      }
    }
  }

  ghost predicate SortedByOrdinal(slices: seq<Slice>) {
    forall i, j :: 0 <= i < j < |slices| ==> slices[i].ordinal <= slices[j].ordinal
  }

  function Inserted(slices: seq<Slice>, s: Slice): (r: seq<Slice>)
    requires SortedByOrdinal(slices)
    ensures SortedByOrdinal(r) && forall x :: x in r <==> x in slices || x == s
  {
    if slices == [] || slices[|slices| - 1].ordinal <= s.ordinal then slices + [s]
    else
      var last := slices[|slices| - 1];
      assert slices == slices[..|slices| - 1] + [last];
      assert forall x :: x in slices ==> x.ordinal <= last.ordinal;
      Inserted(slices[..|slices| - 1], s) + [last]
  }

  /** `sort_by_key` on the ordinals. */
  function SortByOrdinal(slices: seq<Slice>): (r: seq<Slice>)
    ensures SortedByOrdinal(r) && forall x :: x in r <==> x in slices
  {
    if slices == [] then []
    else
      assert slices == slices[..|slices| - 1] + [slices[|slices| - 1]];
      Inserted(SortByOrdinal(slices[..|slices| - 1]), slices[|slices| - 1])
  }

  predicate Paints(s: Slice, k: nat) { s.dest <= k < s.dest + s.length }

  /** The byte at `k` after the slices were copied in order over `x`. */
  function Painted(slices: seq<Slice>, k: nat, x: byte): byte
    requires forall s :: s in slices ==> s.source + s.length <= |s.data|
  {
    if slices == [] then x
    else
      var s := slices[|slices| - 1];
      if Paints(s, k) then s.data[s.source + (k - s.dest)] else Painted(slices[..|slices| - 1], k, x)
  }

  lemma {:induction false} PaintedByLast(slices: seq<Slice>, k: nat, x: byte) returns (i: int)
    requires forall s :: s in slices ==> s.source + s.length <= |s.data|
    ensures -1 <= i < |slices| && forall j :: i < j < |slices| ==> !Paints(slices[j], k)
    ensures i == -1 ==> Painted(slices, k, x) == x
    ensures i >= 0 ==>
      Paints(slices[i], k) && Painted(slices, k, x) == slices[i].data[slices[i].source + (k - slices[i].dest)]
  {
    i := |slices| - 1;
    if slices != [] && !Paints(slices[i], k) {
      i := PaintedByLast(slices[..i], k, x);
    }
  }

  function FragmentsOf(fragments: map<nat, Fragment>): set<Fragment> {
    set n | n in fragments :: fragments[n]
  }

  function FragmentsIn(writes: map<nat, Record>, events: seq<nat>): set<Fragment> {
    set e, n | e in events && e in writes && n in writes[e].fragments :: writes[e].fragments[n]
  }

  /** The fragments with the given numbers. */
  function Chosen(fragments: map<nat, Fragment>, numbers: seq<nat>): set<Fragment> {
    set n | n in numbers && n in fragments :: fragments[n]
  }

  lemma NextChosen(fragments: map<nat, Fragment>, numbers: seq<nat>, i: nat)
    requires i < |numbers| && numbers[i] in fragments
    ensures Chosen(fragments, numbers[..i + 1]) == Chosen(fragments, numbers[..i]) + {fragments[numbers[i]]}
  {
    assert numbers[..i + 1] == numbers[..i] + [numbers[i]];
  }

  lemma NothingCollected(begin: nat, end: nat)
    ensures Collected([], {}, begin, end)
  {
  }

  lemma OneCollected(f: Fragment, begin: nat, end: nat)
    ensures Collected(if Overlaps(f, begin, end) then [SliceOf(f, begin, end)] else [], {f}, begin, end)
  {
  }

  lemma NextEvent(writes: map<nat, Record>, events: seq<nat>, i: nat)
    requires i < |events| && events[i] in writes
    ensures FragmentsIn(writes, events[..i + 1])
         == FragmentsIn(writes, events[..i]) + FragmentsOf(writes[events[i]].fragments)
  {
    assert events[..i + 1] == events[..i] + [events[i]];
  }

  /** The set holds exactly the fragments of the store. */
  ghost predicate FragmentsOfStore(st: Store, frags: set<Fragment>) {
    && (forall e, n :: Has(st, e, n) ==> Frag(st, e, n) in frags)
    && (forall f :: f in frags ==> exists e, n :: Has(st, e, n) && Frag(st, e, n) == f)
  }

  /** The slice painted last comes from the top fragment. */
  lemma LastPaintIsTop(
    st: Store, slices: seq<Slice>, frags: set<Fragment>, begin: nat, length: nat, k: nat, i: nat, e: nat, n: nat)
    requires SortedByOrdinal(slices) && k < length && i < |slices| && FragmentsOfStore(st, frags)
    requires Collected(slices, frags, begin, SaturatingAdd(begin, length))
    requires Paints(slices[i], k) && forall j :: i < j < |slices| ==> !Paints(slices[j], k)
    requires Has(st, e, n) && Overlaps(Frag(st, e, n), begin, SaturatingAdd(begin, length))
    requires slices[i] == SliceOf(Frag(st, e, n), begin, SaturatingAdd(begin, length))
    ensures Top(st, begin + k, e, n)
  {
    forall e', n' | Has(st, e', n') && Covers(Frag(st, e', n'), begin + k)
      ensures Frag(st, e', n').ordinal <= Frag(st, e, n).ordinal
    {
      CoveringPainted(slices, frags, begin, length, k, Frag(st, e', n'));
      var j :| 0 <= j < |slices| && Paints(slices[j], k) && slices[j].ordinal == Frag(st, e', n').ordinal;
      assert j <= i;
    }
  }

  /** Copying the sorted slices over the media bytes gives the byte with the highest ordinal. */
  lemma PaintedIsView(st: Store, slices: seq<Slice>, frags: set<Fragment>, begin: nat, length: nat, k: nat, x: byte)
    requires OrdinalsDistinct(st) && SortedByOrdinal(slices) && k < length && FragmentsOfStore(st, frags)
    requires Collected(slices, frags, begin, SaturatingAdd(begin, length))
    requires forall s :: s in slices ==> s.source + s.length <= |s.data|
    ensures Painted(slices, k, x) == ViewByte(st, x, begin + k)
  {
    hide OrdinalsDistinct, SortedByOrdinal, Top, ViewByte, Painted;
    var end := SaturatingAdd(begin, length);
    var i := PaintedByLast(slices, k, x);
    if i >= 0 {
      assert slices[i] in slices;
      var f :| f in frags && Overlaps(f, begin, end) && slices[i] == SliceOf(f, begin, end);
      var e, n :| Has(st, e, n) && Frag(st, e, n) == f;
      LastPaintIsTop(st, slices, frags, begin, length, k, i, e, n);
      ViewOfTop(st, x, begin + k, e, n);
    } else {
      forall e', n' | Has(st, e', n') ensures !Covers(Frag(st, e', n'), begin + k) {
        if Covers(Frag(st, e', n'), begin + k) {
          CoveringPainted(slices, frags, begin, length, k, Frag(st, e', n'));
        }
      }
      ViewOfBare(st, x, begin + k);
    }
  }

  /** A fragment that covers a byte of the window has a slice that paints it. */
  lemma CoveringPainted(slices: seq<Slice>, frags: set<Fragment>, begin: nat, length: nat, k: nat, f: Fragment)
    requires Collected(slices, frags, begin, SaturatingAdd(begin, length)) && k < length
    requires f in frags && Covers(f, begin + k)
    ensures exists j :: 0 <= j < |slices| && Paints(slices[j], k) && slices[j].ordinal == f.ordinal
  {
    var end := SaturatingAdd(begin, length);
    assert SliceOf(f, begin, end) in slices;
  }

  class StagingStore {
    var writes: map<nat, Record>
    var nextOrdinal: nat

    function Value(): Store
      reads this
    {
      Store(writes, nextOrdinal)
    }

    constructor ()
      ensures Value() == EMPTY_STORE
    {
      writes := map[];
      nextOrdinal := 1;
    }

    method StageWrite(op: WriteOp, data: Bytes, diskSize: nat) returns (status: Status)
      modifies this
      ensures (status, Value()) == Stage(old(Value()), op, data, diskSize)
    {
      if |data| != op.length || SaturatingAdd(op.at, op.length) > diskSize {
        return InvalidParameter;
      }
      var record := RecordFor(Value(), op.event);
      if record.totalSeq != 0 && record.totalSeq != op.totalSeq {
        return InvalidParameter;
      }
      var fragment := Fragment(op.number, op.at, nextOrdinal, data);
      nextOrdinal := nextOrdinal + 1;
      writes := writes[op.event := Record(op.totalSeq, record.fragments[op.number := fragment])];
      status := Success;
    }

    /** The slices of one event's fragments. */
    method CollectRecord(fragments: map<nat, Fragment>, begin: nat, end: nat) returns (slices: seq<Slice>)
      ensures Collected(slices, FragmentsOf(fragments), begin, end)
    {
      hide Collected, Overlaps;
      slices := [];
      var numbers := Ascending(fragments.Keys);
      NothingCollected(begin, end);
      assert Chosen(fragments, numbers[..0]) == {};
      var i := 0;
      while i < |numbers|
        invariant i <= |numbers|
        invariant Collected(slices, Chosen(fragments, numbers[..i]), begin, end)
      {
        assert numbers[i] in numbers;
        var f := fragments[numbers[i]];
        var more := if Overlaps(f, begin, end) then [SliceOf(f, begin, end)] else [];
        OneCollected(f, begin, end);
        CollectedUnion(slices, Chosen(fragments, numbers[..i]), more, {f}, begin, end);
        NextChosen(fragments, numbers, i);
        slices := slices + more;
        i := i + 1;
      }
      assert numbers[..i] == numbers;
      assert Chosen(fragments, numbers) == FragmentsOf(fragments);
    }

    method CollectOverlays(begin: nat, end: nat) returns (slices: seq<Slice>)
      ensures Collected(slices, FragmentsIn(writes, Ascending(writes.Keys)), begin, end)
    {
      slices := [];
      var events := Ascending(writes.Keys);
      var i := 0;
      while i < |events|
        invariant i <= |events|
        invariant Collected(slices, FragmentsIn(writes, events[..i]), begin, end)
      {
        assert events[i] in events;
        var more := CollectRecord(writes[events[i]].fragments, begin, end);
        NextEvent(writes, events, i);
        CollectedUnion(slices, FragmentsIn(writes, events[..i]), more, FragmentsOf(writes[events[i]].fragments), begin, end);
        slices := slices + more;
        i := i + 1;
      }
      assert events[..i] == events;
    }

    /** Copies slices into the buffer, in order. */
    method CopySlices(slices: seq<Slice>, buffer: array<byte>)
      requires forall s :: s in slices ==> s.source + s.length <= |s.data| && s.dest + s.length <= buffer.Length
      modifies buffer
      ensures forall k :: 0 <= k < buffer.Length ==> buffer[k] == Painted(slices, k, old(buffer[k]))
    {
      var i := 0;
      while i < |slices|
        invariant i <= |slices|
        invariant forall k :: 0 <= k < buffer.Length ==> buffer[k] == Painted(slices[..i], k, old(buffer[k]))
      {
        var s := slices[i];
        assert s in slices;
        assert slices[..i + 1][..i] == slices[..i];
        forall k | 0 <= k < s.length {
          buffer[s.dest + k] := s.data[s.source + k];
        }
        i := i + 1;
      }
      assert slices[..i] == slices;
    }

    /** `overlay_read_locked`: over the bytes read from the media, each byte of the window that some fragment covers
        is the byte of the covering fragment with the highest ordinal. */
    method OverlayRead(begin: nat, buffer: array<byte>)
      requires OrdinalsDistinct(Value())
      modifies buffer
      ensures forall k :: 0 <= k < buffer.Length ==> buffer[k] == ViewByte(Value(), old(buffer[k]), begin + k)
    {
      var end := SaturatingAdd(begin, buffer.Length);
      var overlays := CollectOverlays(begin, end);
      var sorted := SortByOrdinal(overlays);
      ghost var frags := FragmentsIn(writes, Ascending(writes.Keys));
      AllFragments();
      SlicesFit(sorted, overlays, frags, begin, end);
      CopySlices(sorted, buffer);
      forall k | 0 <= k < buffer.Length ensures buffer[k] == ViewByte(Value(), old(buffer[k]), begin + k) {
        PaintedIsView(Value(), sorted, frags, begin, buffer.Length, k, old(buffer[k]));
      }
    }

    lemma AllFragments()
      ensures FragmentsOfStore(Value(), FragmentsIn(writes, Ascending(writes.Keys)))
    {
      forall f | f in FragmentsIn(writes, Ascending(writes.Keys))
        ensures exists e, n :: Has(Value(), e, n) && Frag(Value(), e, n) == f
      {
        var e, n :| e in writes && n in writes[e].fragments && writes[e].fragments[n] == f;
        assert Has(Value(), e, n);
      }
    }

    lemma SlicesFit(sorted: seq<Slice>, slices: seq<Slice>, frags: set<Fragment>, begin: nat, end: nat)
      requires Collected(slices, frags, begin, end) && forall x :: x in sorted <==> x in slices
      ensures Collected(sorted, frags, begin, end)
      ensures forall s :: s in sorted ==> s.source + s.length <= |s.data| && s.dest + s.length <= end - begin
    {
    }

    /** `commit_locked`: fragments in sequence-number order; a failing write leaves the record staged. */
    method CommitEvent(e: nat, media: Media, ws: nat -> MediaWrite) returns (ok: bool)
      requires DiskSizeOk(|media.bytes|)
      modifies this, media
      ensures (ok, Value(), media.bytes) == Commit(old(Value()), old(media.bytes), e, ws)
    {
      if e !in writes {
        return true;
      }
      var frags := InOrder(writes[e].fragments);
      ok := media.WriteFragments(frags, ws);
      if ok {
        writes := writes - {e};
      }
    }

    method RejectEvent(e: nat)
      modifies this
      ensures Value() == Reject(old(Value()), e)
    {
      writes := writes - {e};
    }

    method Clear()
      modifies this
      ensures Value() == EMPTY_STORE
    {
      writes := map[];
      nextOrdinal := 1;
    }
  }

  /** The media a disk runtime writes to. */
  class Media {
    var bytes: Bytes

    constructor (bytes: Bytes)
      ensures this.bytes == bytes
    {
      this.bytes := bytes;
    }

    method Write(at: nat, data: Bytes, w: MediaWrite) returns (ok: bool)
      requires at + |data| <= |bytes|
      modifies this
      ensures (ok, bytes) == WriteRange(old(bytes), at, data, w)
    {
      ok := w.Done?;
      if ok {
        bytes := Splice(bytes, at, data);
      } else if |w.garbage| == |data| {
        bytes := Splice(bytes, at, w.garbage);
      }
    }

    /** The loop of `commit_locked`. */
    method WriteFragments(frags: seq<Fragment>, ws: nat -> MediaWrite) returns (ok: bool)
      requires DiskSizeOk(|bytes|)
      modifies this
      ensures (ok, bytes) == WriteAll(frags, old(bytes), ws)
    {
      ok := true;
      var i := 0;
      while i < |frags| && ok
        invariant i <= |frags| && |bytes| == |old(bytes)|
        invariant ok ==> WriteAll(frags, old(bytes), ws) == WriteAll(frags[i..], bytes, ws)
        invariant !ok ==> WriteAll(frags, old(bytes), ws) == (false, bytes)
      {
        var f := frags[i];
        assert frags[i..][0] == f && frags[i..][1..] == frags[i + 1..];
        if SaturatingAdd(f.at, |f.data|) > |bytes| {
          ok := false;
        } else if f.data != [] {
          ok := Write(f.at, f.data, ws(f.number));
        }
        i := i + 1;
      }
      assert ok ==> frags[i..] == [];
    }
  }

  /** A disk runtime: the staging store, and the media while one is attached. */
  class DiskRuntime {
    const diskSize: nat
    const staging: StagingStore
    var media: Option<Media>

    ghost function Repr(): set<object>
      reads this
    {
      {this, staging} + if media.Some? then {media.value} else {}
    }

    ghost predicate Valid()
      reads Repr()
    {
      && DiskSizeOk(diskSize) && StoreOk(staging.Value(), diskSize)
      && (media.Some? ==> |media.value.bytes| == diskSize)
    }

    /** What a host reads. */
    ghost function View(): Bytes
      requires Valid() && media.Some?
      reads Repr()
    {
      HostView(staging.Value(), media.value.bytes)
    }

    constructor (diskSize: nat, media: Option<Media>)
      requires DiskSizeOk(diskSize) && (media.Some? ==> |media.value.bytes| == diskSize)
      ensures Valid() && fresh(staging) && this.diskSize == diskSize && this.media == media
      ensures staging.Value() == EMPTY_STORE
    {
      this.diskSize := diskSize;
      this.media := media;
      staging := new StagingStore();
    }

    /** `host_read_bytes`. `mediaReads` says whether the media's own read succeeds. */
    method HostReadBytes(at: nat, out: array<byte>, mediaReads: bool) returns (status: Status, outLength: nat)
      requires Valid()
      modifies out
      ensures status == Success <==> out.Length == 0 || (at + out.Length <= diskSize && media.Some? && mediaReads)
      ensures status == Success ==> outLength == out.Length
      ensures status == Success && out.Length > 0 ==> out[..] == View()[at..at + out.Length]
      ensures status != Success ==> outLength == 0
      ensures status == InvalidParameter <==> out.Length > 0 && at + out.Length > diskSize
      ensures status == InvalidParameter || media.None? ==> out[..] == old(out[..])
    {
      outLength := 0;
      if out.Length == 0 {
        return Success, 0;
      }
      if SaturatingAdd(at, out.Length) > diskSize {
        return InvalidParameter, 0;
      }
      if media.None? || !mediaReads {
        return Unsuccessful, 0;
      }
      var bytes := media.value.bytes;
      forall i | 0 <= i < out.Length {
        out[i] := bytes[at + i];
      }
      staging.OverlayRead(at, out);
      assert out[..] == View()[at..at + out.Length];
      status, outLength := Success, out.Length;
    }

    /** `host_stage_write`: a null buffer counts as no data. */
    method HostStageWrite(op: WriteOp, data: Option<Bytes>) returns (status: Status)
      requires Valid()
      modifies staging
      ensures Valid()
      ensures (status, staging.Value())
        == Stage(old(staging.Value()), op, if data.Some? then data.value else [], diskSize)
      ensures status != Success ==> staging.Value() == old(staging.Value())
    {
      var bytes := if data.Some? then data.value else [];
      StageKeepsOk(staging.Value(), op, bytes, diskSize);
      status := staging.StageWrite(op, bytes, diskSize);
    }

    /** `commit_disk_runtime_staging`. */
    method CommitStaging(e: nat, ws: nat -> MediaWrite) returns (ok: bool)
      requires Valid()
      modifies Repr() - {this}, this`media
      ensures Valid() && media == old(media)
      ensures media.None? ==> !ok && staging.Value() == old(staging.Value())
      ensures media.Some? ==>
        (ok, staging.Value(), media.value.bytes) == Commit(old(staging.Value()), old(media.value.bytes), e, ws)
      ensures media.Some? && (!ok || CommitSafe(old(staging.Value()), e)) ==> View() == old(View())
    {
      RejectKeepsOk(staging.Value(), e, diskSize);
      if media.None? {
        return false;
      }
      ghost var st, was := staging.Value(), media.value.bytes;
      ok := staging.CommitEvent(e, media.value, ws);
      if !ok {
        FailedCommitKeepsView(st, was, e, ws);
      } else if CommitSafe(st, e) {
        SafeCommitKeepsView(st, was, e, ws);
      }
    }

    /** `reject_disk_runtime_staging`. */
    method RejectStaging(e: nat)
      requires Valid()
      modifies staging
      ensures Valid() && staging.Value() == Reject(old(staging.Value()), e)
    {
      RejectKeepsOk(staging.Value(), e, diskSize);
      staging.RejectEvent(e);
    }
  }
}
