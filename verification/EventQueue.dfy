/**
  The growable ring queues of the AppKernel session (windows/AppKernel/src/event/ak_event.c): one for responses,
  one for session notices. The ring is proved to be an unbounded FIFO over its whole life.
*/
module EventQueue {
  import opened Common

  /** The largest capacity whose indices fit the 32-bit additions of the ring. */
  const HALF_RANGE: nat := 0x8000_0000

  /** The slot of the item `offset` places behind the head: 32-bit addition, then the remainder. */
  function SlotOf(head: nat, offset: nat, capacity: nat): (i: nat)
    requires capacity > 0
    ensures i < capacity
  {
    ((head + offset) % U32_LIMIT) % capacity
  }

  /** The queued items, oldest first. */
  ghost function RingContents<T>(items: seq<T>, head: nat, count: nat): (s: seq<T>)
    requires count <= |items|
    ensures |s| == count
    ensures forall i :: 0 <= i < count ==> s[i] == items[(head + i) % |items|]
  {
    seq(count, i requires 0 <= i < count => items[(head + i) % |items|])
  }

  lemma ModInRange(x: nat, n: nat)
    requires n > 0
    ensures x < n ==> x % n == x
    ensures n <= x < 2 * n ==> x % n == x - n
  {
  }

  lemma SlotExact(head: nat, offset: nat, capacity: nat)
    requires head < capacity <= HALF_RANGE && offset < capacity
    ensures SlotOf(head, offset, capacity) == (head + offset) % capacity
  {
    ModInRange(head + offset, U32_LIMIT);
  }

  /** Beyond 2^31 slots the last slot of a ring whose head is in its last slot is missed. */
  lemma SlotMissed(capacity: nat)
    requires HALF_RANGE < capacity < U32_LIMIT
    ensures SlotOf(capacity - 1, capacity - 1, capacity) != (capacity - 1 + (capacity - 1)) % capacity
  {
    ModInRange(2 * capacity - 2, U32_LIMIT);
    ModInRange(2 * capacity - 2 - U32_LIMIT, capacity);
    ModInRange(2 * capacity - 2, capacity);
  }

  /** The 32-bit slot arithmetic is exact at every position of the ring if and only if the capacity is at most
      2^31. */
  lemma SlotsExactIff(capacity: nat)
    requires 0 < capacity < U32_LIMIT
    ensures (forall head: nat, offset: nat :: head < capacity && offset < capacity ==>
        SlotOf(head, offset, capacity) == (head + offset) % capacity)
      <==> capacity <= HALF_RANGE
  {
    if capacity > HALF_RANGE {
      SlotMissed(capacity);
    } else {
      forall head: nat, offset: nat | head < capacity && offset < capacity
        ensures SlotOf(head, offset, capacity) == (head + offset) % capacity
      {
        SlotExact(head, offset, capacity);
      }
    }
  }

  function Pow2(n: nat): nat { if n == 0 then 1 else 2 * Pow2(n - 1) }

  lemma {:induction false} Pow2Grows(m: nat, n: nat)
    requires m <= n
    ensures Pow2(m) <= Pow2(n)
  {
    if m < n {
      Pow2Grows(m, n - 1);
    }
  }

  lemma {:induction false} Pow2Splits(m: nat, n: nat)
    ensures Pow2(m + n) == Pow2(m) * Pow2(n)
  {
    if n > 0 {
      Pow2Splits(m, n - 1);
    }
  }

  lemma HalfRangeIsPow2()
    ensures Pow2(31) == HALF_RANGE
  {
    assert Pow2(8) == 256;
    Pow2Splits(8, 8);
    Pow2Splits(16, 8);
    Pow2Splits(24, 7);
    assert Pow2(7) == 128;
  }

  /** Growing from a power of two never leaves the exact range: the doubling beyond 2^31 is refused. */
  lemma PowersOfTwoStayExact(exponent: nat)
    requires Pow2(exponent) <= 0xFFFF_FFFF / 2
    ensures 2 * Pow2(exponent) == Pow2(exponent + 1) <= HALF_RANGE
  {
    HalfRangeIsPow2();
    if exponent >= 31 {
      Pow2Grows(31, exponent);
    } else {
      Pow2Grows(exponent + 1, 31);
    }
  }

  /** Position `i` of the ring once its head has moved on by one. */
  lemma NextHeadSlot(n: nat, head: nat, i: nat)
    requires head < n && i < n
    ensures ((head + 1) % n + i) % n == (head + (i + 1)) % n
  {
    ModInRange(head + 1, n);
    if head + 1 == n {
      WrapOnce(n, i);
    }
  }

  lemma WrapOnce(n: nat, i: nat)
    requires i < n
    ensures n % n == 0 && (0 + i) % n == (n + i) % n
  {
    ModInRange(n, n);
    ModInRange(i, n);
    ModInRange(n + i, n);
  }

  /** Taking the oldest item moves the head. */
  lemma PoppedContents<T>(items: seq<T>, head: nat, count: nat)
    requires 0 < count <= |items| && head < |items|
    ensures RingContents(items, head, count)[0] == items[head]
    ensures RingContents(items, (head + 1) % |items|, count - 1) == RingContents(items, head, count)[1..]
  {
    var n := |items|;
    ModInRange(head, n);
    var was, now := RingContents(items, head, count), RingContents(items, (head + 1) % n, count - 1);
    forall i | 0 <= i < count - 1 ensures now[i] == was[1..][i] {
      NextHeadSlot(n, head, i);
      assert was[1..][i] == was[i + 1];
    }
  }

  lemma SlotsDiffer(n: nat, head: nat, i: nat, j: nat)
    requires head < n && i < j < n
    ensures (head + i) % n != (head + j) % n
  {
    ModInRange(head + i, n);
    ModInRange(head + j, n);
  }

  /** Storing behind the newest item appends it and disturbs no other. */
  lemma PushedContents<T>(items: seq<T>, head: nat, count: nat, x: T, stored: seq<T>)
    requires count < |items| && head < |items|
    requires stored == items[(head + count) % |items| := x]
    ensures RingContents(stored, head, count + 1) == RingContents(items, head, count) + [x]
  {
    var was, now := RingContents(items, head, count), RingContents(stored, head, count + 1);
    forall i | 0 <= i < count ensures now[i] == was[i] {
      SlotsDiffer(|items|, head, i, count);
    }
    assert now[count] == x;
  }

  /** Unrolling the ring into a larger array keeps its contents. */
  lemma GrownContents<T>(items: seq<T>, head: nat, count: nat, grown: seq<T>)
    requires count <= |items| <= |grown|
    requires forall i :: 0 <= i < count ==> grown[i] == items[(head + i) % |items|]
    ensures RingContents(grown, 0, count) == RingContents(items, head, count)
  {
    forall i | 0 <= i < count ensures RingContents(grown, 0, count)[i] == RingContents(items, head, count)[i] {
      ModInRange(i, |grown|);
    }
  }

  /** The capacity after growth; `None` when doubling would not fit 32 bits. */
  function GrownCapacity(capacity: nat, initial: nat, fallback: nat): (r: Option<nat>)
    requires fallback > 0
    ensures r.Some? ==> capacity < r.value
    ensures capacity < U32_LIMIT && initial < U32_LIMIT && fallback < U32_LIMIT && r.Some? ==> r.value < U32_LIMIT
    ensures r.None? ==> capacity > 0xFFFF_FFFF / 2
  {
    if capacity == 0 then Some(if initial == 0 then fallback else initial)
    else if capacity > 0xFFFF_FFFF / 2 then None
    else Some(2 * capacity)
  }

  /** Growth doubles the capacity, and is refused exactly when twice the capacity does not fit 32 bits; an empty
      capacity becomes the initial one, or the fallback. */
  lemma GrowthDoubles(capacity: nat, initial: nat, fallback: nat)
    requires capacity < U32_LIMIT && fallback > 0
    ensures GrownCapacity(capacity, initial, fallback) ==
      if capacity > 0 then (if 2 * capacity < U32_LIMIT then Some(2 * capacity) else None)
      else if initial > 0 then Some(initial) else Some(fallback)
  {
  }

  /** A ring whose capacity is a power of two keeps one, and keeps exact slots, as often as it grows; it can grow up
      to 2^31 items. */
  lemma GrowthStaysExact(exponent: nat, initial: nat, fallback: nat)
    requires exponent <= 31 && fallback > 0
    ensures GrownCapacity(Pow2(exponent), initial, fallback)
      == if exponent < 31 then Some(Pow2(exponent + 1)) else None
    ensures exponent < 31 ==> 0 < Pow2(exponent + 1) <= HALF_RANGE
  {
    HalfRangeIsPow2();
    Pow2Grows(0, exponent);
    if exponent < 31 {
      Pow2Grows(exponent + 1, 31);
    }
  }

  /** A ring queue with its wait event. `History` is every item ever queued, `Popped` how many were taken out. */
  class RingQueue<T(0)> {
    const initialCapacity: nat
    const fallbackCapacity: nat
    var items: array<T>
    var capacity: nat
    var head: nat
    var count: nat
    var signalled: bool
    var queued: nat
    ghost var History: seq<T>
    ghost var Popped: nat

    /** The index arithmetic of the ring is exact. */
    predicate Exact()
      reads this
    {
      capacity <= HALF_RANGE
    }

    /** The ring has its shape, the event is signalled exactly while items wait, every queued item is popped or
        waiting, and what waits is the end of the history. */
    ghost predicate Valid()
      reads this, items
    {
      && 0 < fallbackCapacity < U32_LIMIT && initialCapacity < U32_LIMIT
      && items.Length == capacity < U32_LIMIT && count <= capacity && (capacity > 0 ==> head < capacity)
      && signalled == (count > 0)
      && queued == |History| == Popped + count
      && (Exact() ==> Contents() == History[Popped..])
    }

    ghost function Contents(): seq<T>
      reads this, items
      requires count <= items.Length
    {
      RingContents(items[..], head, count)
    }

    /** `Ak…QueueInitialize` once its parameters are checked and the allocations succeeded. */
    constructor (initialCapacity: nat, fallbackCapacity: nat)
      requires 0 < initialCapacity < U32_LIMIT && 0 < fallbackCapacity < U32_LIMIT
      ensures Valid() && fresh(items) && capacity == initialCapacity
      ensures Contents() == [] && History == [] && Popped == 0
      ensures this.initialCapacity == initialCapacity && this.fallbackCapacity == fallbackCapacity
    {
      this.initialCapacity := initialCapacity;
      this.fallbackCapacity := fallbackCapacity;
      items := new T[initialCapacity];
      capacity, head, count, signalled, queued := initialCapacity, 0, 0, false, 0;
      History, Popped := [], 0;
    }

    function NextCapacity(): (r: Option<nat>)
      requires fallbackCapacity > 0
      reads this`capacity
    {
      GrownCapacity(capacity, initialCapacity, fallbackCapacity)
    }

    /** A push finds room, or makes some. */
    predicate CanTake(allocates: bool)
      requires fallbackCapacity > 0
      reads this`count, this`capacity
    {
      count < capacity || (allocates && NextCapacity().Some?)
    }

    /** The grow step of a full ring; `allocates` says whether the allocation succeeds. */
    method Grow(allocates: bool) returns (ok: bool)
      requires Valid() && count == capacity
      modifies this`items, this`capacity, this`head
      ensures Valid()
      ensures ok <==> allocates && old(NextCapacity()).Some?
      ensures ok ==> Some(capacity) == old(NextCapacity()) && fresh(items)
      ensures !ok ==> items == old(items) && capacity == old(capacity) && head == old(head)
      ensures Exact() ==> Contents() == old(Contents())
    {
      var grown := NextCapacity();
      if grown.None? || !allocates {
        return false;
      }
      var oldItems, oldHead, oldCapacity, n := items, head, capacity, count;
      var newItems := new T[grown.value];
      var index := 0;
      while index < n
        invariant 0 <= index <= n
        invariant forall j :: 0 <= j < index ==> newItems[j] == oldItems[SlotOf(oldHead, j, oldCapacity)]
        modifies newItems
      {
        newItems[index] := oldItems[SlotOf(oldHead, index, oldCapacity)];
        index := index + 1;
      }
      if grown.value <= HALF_RANGE && n > 0 {
        forall j | 0 <= j < n ensures newItems[..][j] == oldItems[..][(oldHead + j) % oldCapacity] {
          SlotExact(oldHead, j, oldCapacity);
        }
        GrownContents(oldItems[..], oldHead, n, newItems[..]);
      }
      items, capacity, head := newItems, grown.value, 0;
      ok := true;
    }

    /** `Ak…QueuePush`: appends the item, after growing when the ring is full. It fails only when the ring is full and
        cannot grow, and then changes nothing. */
    method Push(x: T, allocates: bool) returns (ok: bool)
      requires Valid()
      modifies this, items
      ensures Valid() && Popped == old(Popped) && (items == old(items) || fresh(items))
      ensures ok <==> old(CanTake(allocates))
      ensures History == if ok then old(History) + [x] else old(History)
      ensures Exact() ==> Contents() == if ok then old(Contents()) + [x] else old(Contents())
      ensures !ok ==> count == old(count) && head == old(head) && items[..] == old(items[..])
      ensures capacity == if ok && old(count == capacity) then old(NextCapacity()).value else old(capacity)
    {
      ok := true;
      if count == capacity {
        ok := Grow(allocates);
      }
      if ok {
        Store(x);
      }
    }

    method Store(x: T)
      requires Valid() && count < capacity
      modifies this`count, this`signalled, this`queued, this`History, items
      ensures Valid() && History == old(History) + [x]
      ensures Exact() ==> Contents() == old(Contents()) + [x]
    {
      ghost var was := items[..];
      var tail := SlotOf(head, count, capacity);
      items[tail] := x;
      if Exact() {
        SlotExact(head, count, capacity);
        PushedContents(was, head, count, x, items[..]);
      }
      count := count + 1;
      queued := queued + 1;
      signalled := true;
      History := History + [x];
    }

    /** `Ak…QueuePopLocked`: the oldest item that was not popped yet. */
    method Pop() returns (r: Option<T>)
      requires Valid()
      modifies this
      ensures Valid() && items == old(items) && capacity == old(capacity) && History == old(History)
      ensures r.None? <==> old(count) == 0
      ensures Popped == old(Popped) + if r.Some? then 1 else 0
      ensures Exact() ==>
        if r.None? then old(Contents()) == [] == Contents()
        else r == Some(History[old(Popped)]) && old(Contents()) == [r.value] + Contents()
    {
      if count == 0 {
        return None;
      }
      PoppedContents(items[..], head, count);
      r := Some(items[head]);
      head := (head + 1) % capacity;
      count := count - 1;
      Popped := Popped + 1;
      if count == 0 {
        signalled := false;
      }
    }
  }

  // ---------------------------------------------------------------- the session's two queues

  /** `AK_STATUS_INSUFFICIENT_RESOURCES`, which growing fails with, as an unsigned number. */
  const INSUFFICIENT_RESOURCES: nat := 0xC000009A

  datatype Notice = Broken(status: nat) | OtherNotice(kind: nat)

  /** The number of Broken notices in a sequence. */
  function BrokenCount(s: seq<Notice>): nat {
    if s == [] then 0 else BrokenCount(s[..|s| - 1]) + if s[|s| - 1].Broken? then 1 else 0
  }

  lemma BrokenCountAppend(s: seq<Notice>, n: Notice)
    ensures BrokenCount(s + [n]) == BrokenCount(s) + if n.Broken? then 1 else 0
  {
    assert (s + [n])[..|s|] == s;
  }

  class EventSession {
    const responses: RingQueue<nat>
    const notices: RingQueue<Notice>
    var brokenQueued: bool
    var lifecycleBroken: bool
    var responsesDropped: nat
    var noticesDropped: nat

    /** At most one Broken notice was ever queued, and none before the flag was set. */
    ghost predicate Valid()
      reads this, responses, notices, responses.items, notices.items
    {
      && responses.Valid() && notices.Valid()
      && (responses.items as object) != notices.items && (responses as object) != notices
      && BrokenCount(notices.History) <= if brokenQueued then 1 else 0
    }

    constructor (responseCapacity: nat, noticeCapacity: nat)
      requires 0 < responseCapacity < U32_LIMIT && 0 < noticeCapacity < U32_LIMIT
      ensures Valid() && responses.History == [] && notices.History == [] && !brokenQueued
    {
      responses := new RingQueue(responseCapacity, 16);
      notices := new RingQueue(noticeCapacity, 4);
      brokenQueued, lifecycleBroken, responsesDropped, noticesDropped := false, false, 0, 0;
    }

    /** What other threads see of the Broken notice while the threads in `passed` are between the two sections of
        `PushBroken`. */
    ghost function AsRace(passed: set<nat>): Race
      reads this, notices
    {
      Race(brokenQueued, passed, notices.History)
    }

    /** `AkSessionNoticeQueuePush`: a notice that finds no room is dropped and breaks the session. A Broken notice is
        pushed by a thread between the two sections of `PushBroken`. */
    method PushNotice(notice: Notice, allocates: bool, ghost thread: nat, ghost passed: set<nat>) returns (ok: bool)
      requires Valid()
      requires notice.Broken? ==> RaceOk(AsRace(passed)) && thread in passed
      modifies this`lifecycleBroken, this`noticesDropped, notices, notices.items
      ensures Valid()
      ensures ok <==> old(notices.Valid() && notices.CanTake(allocates))
      ensures notices.History == if ok then old(notices.History) + [notice] else old(notices.History)
      ensures noticesDropped == old(noticesDropped) + if ok then 0 else 1
      ensures lifecycleBroken == (old(lifecycleBroken) || !ok)
      ensures notices.items == old(notices.items) || fresh(notices.items)
      ensures notice.Broken? ==>
        AsRace(passed - {thread}) == RaceNext(old(AsRace(passed)), QueueBroken(thread, notice.status, ok))
      ensures !notice.Broken? && ok ==> AsRace(passed) == RaceNext(old(AsRace(passed)), QueueOther(notice))
    {
      hide RingQueue.Valid, BrokenCount, RaceOk;
      if notice.Broken? {
        PassedFindsNone(AsRace(passed), thread);
      }
      BrokenCountAppend(notices.History, notice);
      ok := notices.Push(notice, allocates);
      if !ok {
        noticesDropped := noticesDropped + 1;
        lifecycleBroken := true;
      }
    }

    /** The first section of `PushBroken`: only the first call sets the flag. */
    method MarkBroken(ghost thread: nat, ghost passed: set<nat>) returns (first: bool)
      requires Valid()
      modifies this`brokenQueued
      ensures Valid() && brokenQueued && first == !old(brokenQueued)
      ensures AsRace(if first then passed + {thread} else passed) == RaceNext(old(AsRace(passed)), TestAndSet(thread))
    {
      hide RingQueue.Valid;
      first := !brokenQueued;
      brokenQueued := true;
    }

    /** `AkSessionNoticeQueuePushBroken`: the flag lets only the first call queue a notice. */
    method PushBroken(status: nat, allocates: bool) returns (ok: bool)
      requires Valid()
      modifies this`brokenQueued, this`lifecycleBroken, this`noticesDropped, notices, notices.items
      ensures Valid() && brokenQueued
      ensures ok <==> old(brokenQueued) || old(notices.Valid() && notices.CanTake(allocates))
      ensures notices.History
        == if !old(brokenQueued) && ok then old(notices.History) + [Broken(status)] else old(notices.History)
      ensures noticesDropped == old(noticesDropped) + if ok then 0 else 1
      ensures lifecycleBroken == (old(lifecycleBroken) || !ok)
      ensures notices.items == old(notices.items) || fresh(notices.items)
    {
      hide RingQueue.Valid, BrokenCount;
      var first := MarkBroken(0, {});
      if !first {
        return true;
      }
      ok := PushNotice(Broken(status), allocates, 0, {0});
    }

    /** `AkResponseQueuePush`: a response that finds no room is dropped and breaks the session, and the Broken notice
        is queued unless it was before or finds no room itself. */
    method PushResponse(x: nat, allocates: bool, noticeAllocates: bool) returns (ok: bool)
      requires Valid()
      modifies this, responses, responses.items, notices, notices.items
      ensures Valid()
      ensures ok <==> old(responses.Valid() && responses.CanTake(allocates))
      ensures responses.History == if ok then old(responses.History) + [x] else old(responses.History)
      ensures ok ==> notices.History == old(notices.History)
      ensures ok ==> lifecycleBroken == old(lifecycleBroken) && brokenQueued == old(brokenQueued)
      ensures responsesDropped == old(responsesDropped) + if ok then 0 else 1
      ensures !ok ==> lifecycleBroken && brokenQueued
      ensures noticesDropped == old(noticesDropped) + if !ok && !old(brokenQueued)
        && !old(notices.Valid() && notices.CanTake(noticeAllocates)) then 1 else 0
      ensures !ok ==>
        var queued := !old(brokenQueued) && old(notices.Valid() && notices.CanTake(noticeAllocates));
        notices.History == old(notices.History) + if queued then [Broken(INSUFFICIENT_RESOURCES)] else []
    {
      hide RingQueue.Valid;
      ok := responses.Push(x, allocates);
      if !ok {
        responsesDropped := responsesDropped + 1;
        lifecycleBroken := true;
        var queuedNotice := PushBroken(INSUFFICIENT_RESOURCES, noticeAllocates);
      }
    }
  }

  // ---------------------------------------------------------------- concurrent calls of PushBroken

  /** `PushBroken` takes the session lock twice: once for the flag and once for the queue. `passed` holds the threads
      between the two. */
  datatype Race = Race(flag: bool, passed: set<nat>, history: seq<Notice>)

  datatype RaceStep =
    | TestAndSet(thread: nat)
    | QueueBroken(thread: nat, status: nat, allocates: bool)
    | QueueOther(notice: Notice)

  predicate RaceEnabled(r: Race, step: RaceStep) {
    match step
    case TestAndSet(thread) => thread !in r.passed
    case QueueBroken(thread, _, _) => thread in r.passed
    case QueueOther(notice) => !notice.Broken?
  }

  function RaceNext(r: Race, step: RaceStep): Race {
    match step
    case TestAndSet(thread) => if r.flag then r else r.(flag := true, passed := r.passed + {thread})
    case QueueBroken(thread, status, allocates) =>
      r.(passed := r.passed - {thread}, history := if allocates then r.history + [Broken(status)] else r.history)
    case QueueOther(notice) => r.(history := r.history + [notice])
  }

  function RaceAfter(r: Race, steps: seq<RaceStep>): Race
    decreases |steps|
  {
    if steps == [] then r else RaceAfter(RaceNext(r, steps[0]), steps[1..])
  }

  ghost predicate RaceRun(r: Race, steps: seq<RaceStep>)
    decreases |steps|
  {
    steps != [] ==> RaceEnabled(r, steps[0]) && RaceRun(RaceNext(r, steps[0]), steps[1..])
  }

  predicate RaceOk(r: Race) {
    |r.passed| + BrokenCount(r.history) <= if r.flag then 1 else 0
  }

  /** A thread between the two sections finds no Broken notice queued, as `PushNotice` demands of it. */
  lemma PassedFindsNone(r: Race, thread: nat)
    requires RaceOk(r) && thread in r.passed
    ensures r.flag && BrokenCount(r.history) == 0 && r.passed == {thread}
  {
    var rest := r.passed - {thread};
    assert |rest| == |r.passed| - 1;
    assert rest == {};
  }

  /** However calls from any number of threads interleave with each other and with other notices, at most one Broken
      notice is ever queued. */
  lemma {:induction false} AtMostOneBroken(r: Race, steps: seq<RaceStep>)
    requires RaceOk(r) && RaceRun(r, steps)
    ensures RaceOk(RaceAfter(r, steps)) && BrokenCount(RaceAfter(r, steps).history) <= 1
    decreases |steps|
  {
    if steps != [] {
      match steps[0] {
        case TestAndSet(_) =>
        case QueueBroken(thread, status, _) => BrokenCountAppend(r.history, Broken(status));
        case QueueOther(notice) => BrokenCountAppend(r.history, notice);
      }
      AtMostOneBroken(RaceNext(r, steps[0]), steps[1..]);
    }
  }
}
