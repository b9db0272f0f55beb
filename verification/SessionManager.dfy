/**
  The session manager of the server (server/internal/session/manager.go, exclusive.go, shared.go): sessions, the
  I/O leases taken on them, and their closing. `Sessions` holds the operations as functions and what every run of
  them keeps; `SessionManagers` is the manager in place.
*/
module Sessions {
  import opened Common

  datatype Record = Record(id: nat, connection: nat, closing: bool)

  datatype Managed = Managed(record: Record, inFlight: nat)

  datatype Manager = Manager(nextId: nat, items: map<nat, Managed>)

  const EMPTY_MANAGER := Manager(0, map[])

  // ---------------------------------------------------------------- the operations, under the lock

  /** `nextSessionIDLocked`: a 64-bit counter that skips zero. */
  function NextId(n: nat): nat {
    if (n + 1) % U64_LIMIT == 0 then 1 else (n + 1) % U64_LIMIT
  }

  /** `storeLocked`. */
  function Stored(m: Manager, connection: nat): (Record, Manager) {
    var record := Record(NextId(m.nextId), connection, false);
    (record, Manager(record.id, m.items[record.id := Managed(record, 0)]))
  }

  /** `Open` of the exclusive and of the shared manager. */
  function Opened(m: Manager, exclusive: bool, connection: nat): (Option<Record>, Manager) {
    if exclusive && m.items != map[] then (None, m)
    else
      var (record, m') := Stored(m, connection);
      (Some(record), m')
  }

  /** `closeLocked`. */
  function Closed(m: Manager, id: nat): Manager {
    if id !in m.items then m
    else if m.items[id].inFlight == 0 then m.(items := m.items - {id})
    else m.(items := m.items[id := m.items[id].(record := m.items[id].record.(closing := true))])
  }

  /** `CloseConnection`: every session of the connection is closed. */
  function ConnectionClosed(m: Manager, connection: nat): Manager {
    m.(items := map id | id in m.items && !(m.items[id].record.connection == connection && m.items[id].inFlight == 0)
      :: if m.items[id].record.connection == connection
         then m.items[id].(record := m.items[id].record.(closing := true)) else m.items[id])
  }

  /** `beginIO`: `None` if the session is gone or closing. The counter has 32 bits. */
  function Begun(m: Manager, id: nat): (Option<Record>, Manager) {
    if id !in m.items || m.items[id].record.closing then (None, m)
    else
      var entry := m.items[id];
      (Some(entry.record), m.(items := m.items[id := entry.(inFlight := (entry.inFlight + 1) % U32_LIMIT)]))
  }

  /** `endIO`. */
  function Ended(m: Manager, id: nat): Manager {
    if id !in m.items then m
    else
      var entry := m.items[id];
      var left := if entry.inFlight > 0 then entry.inFlight - 1 else 0;
      if entry.record.closing && left == 0 then m.(items := m.items - {id})
      else m.(items := m.items[id := entry.(inFlight := left)])
  }

  // ---------------------------------------------------------------- runs

  /** A lease on a session; only its first release has an effect. */
  datatype Lease = Lease(session: nat, released: bool)

  datatype World = World(exclusive: bool, manager: Manager, leases: map<nat, Lease>)

  datatype Action =
    | Open(connection: nat)
    | Close(session: nat)
    | CloseConnection(connection: nat)
    | BeginIO(session: nat, lease: nat)
    | Release(lease: nat)

  predicate Enabled(w: World, a: Action) {
    match a
    case BeginIO(_, lease) => lease !in w.leases
    case Release(lease) => lease in w.leases
    case _ => true
  }

  function Next(w: World, a: Action): World
    requires Enabled(w, a)
  {
    match a
    case Open(connection) => w.(manager := Opened(w.manager, w.exclusive, connection).1)
    case Close(id) => w.(manager := Closed(w.manager, id))
    case CloseConnection(connection) => w.(manager := ConnectionClosed(w.manager, connection))
    case BeginIO(id, lease) =>
      var (record, manager) := Begun(w.manager, id);
      if record.None? then w else w.(manager := manager, leases := w.leases[lease := Lease(id, false)])
    case Release(lease) =>
      if w.leases[lease].released then w
      else w.(manager := Ended(w.manager, w.leases[lease].session),
              leases := w.leases[lease := w.leases[lease].(released := true)])
  }

  ghost predicate ValidRun(w: World, actions: seq<Action>)
    decreases |actions|
  {
    actions != [] ==> Enabled(w, actions[0]) && ValidRun(Next(w, actions[0]), actions[1..])
  }

  ghost function After(w: World, actions: seq<Action>): World
    requires ValidRun(w, actions)
    decreases |actions|
  {
    if actions == [] then w else After(Next(w, actions[0]), actions[1..])
  }

  /** How many sessions and leases a run may create. */
  function Opens(actions: seq<Action>): nat {
    if actions == [] then 0 else (if actions[0].Open? then 1 else 0) + Opens(actions[1..])
  }

  function Begins(actions: seq<Action>): nat {
    if actions == [] then 0 else (if actions[0].BeginIO? then 1 else 0) + Begins(actions[1..])
  }

  /** Neither counter wraps: fewer than 2^64 sessions and fewer than 2^32 leases. */
  predicate CountersHold(w: World, actions: seq<Action>) {
    w.manager.nextId + Opens(actions) < U64_LIMIT && |w.leases| + Begins(actions) < U32_LIMIT
  }

  // ---------------------------------------------------------------- the invariant

  /** The unreleased leases of a session. */
  function Holders(w: World, id: nat): set<nat> {
    set l | l in w.leases && w.leases[l].session == id && !w.leases[l].released
  }

  /** A stored session counts its unreleased leases, and stays while closing only because it has one. */
  predicate SessionOk(w: World, id: nat) {
    id in w.manager.items ==>
      && 0 < id <= w.manager.nextId
      && w.manager.items[id].record.id == id
      && w.manager.items[id].inFlight == |Holders(w, id)|
      && (w.manager.items[id].record.closing ==> w.manager.items[id].inFlight > 0)
  }

  /** An unreleased lease keeps its session stored. */
  predicate LeaseOk(w: World, l: nat) {
    l in w.leases && !w.leases[l].released ==> w.leases[l].session in w.manager.items
  }

  ghost predicate Inv(w: World) {
    && (forall id :: SessionOk(w, id))
    && (forall l :: LeaseOk(w, l))
    && (w.exclusive ==> |w.manager.items| <= 1)
  }

  lemma SameHolders(w: World, w': World, id: nat)
    requires w'.leases == w.leases
    ensures Holders(w', id) == Holders(w, id)
  {
  }

  lemma HolderKnown(w: World, l: nat)
    requires l in w.leases && !w.leases[l].released
    ensures |Holders(w, w.leases[l].session)| > 0
  {
    assert l in Holders(w, w.leases[l].session);
  }

  lemma HoldersAfterBegin(w: World, id: nat, lease: nat, x: nat)
    requires lease !in w.leases
    ensures |Holders(w.(leases := w.leases[lease := Lease(id, false)]), x)|
      == |Holders(w, x)| + if x == id then 1 else 0
  {
    assert Holders(w.(leases := w.leases[lease := Lease(id, false)]), x)
      == Holders(w, x) + if x == id then {lease} else {};
  }

  lemma HoldersAfterRelease(w: World, lease: nat, x: nat)
    requires lease in w.leases && !w.leases[lease].released
    ensures |Holders(w.(leases := w.leases[lease := w.leases[lease].(released := true)]), x)|
      == |Holders(w, x)| - if x == w.leases[lease].session then 1 else 0
  {
    assert Holders(w.(leases := w.leases[lease := w.leases[lease].(released := true)]), x)
      == Holders(w, x) - if x == w.leases[lease].session then {lease} else {};
    if x == w.leases[lease].session {
      assert lease in Holders(w, x);
    }
  }

  lemma HoldersBound(w: World, id: nat)
    ensures |Holders(w, id)| <= |w.leases|
  {
    SubsetSize(Holders(w, id), w.leases.Keys);
  }

  lemma FewerItems(m: map<nat, Managed>, m': map<nat, Managed>)
    requires m'.Keys <= m.Keys
    ensures |m'| <= |m|
  {
    SubsetSize(m'.Keys, m.Keys);
  }

  /** One step, seen by one session. */
  lemma SessionKept(w: World, a: Action, id: nat)
    requires Inv(w) && Enabled(w, a) && CountersHold(w, [a])
    ensures SessionOk(Next(w, a), id)
  {
    hide Holders;
    OneStepCounts(a);
    assert SessionOk(w, id);
    match a
    case BeginIO(session, lease) =>
      HoldersAfterBegin(w, session, lease, id);
      HoldersBound(w, id);
      SameHolders(w.(leases := Next(w, a).leases), Next(w, a), id);
    case Release(lease) =>
      if !w.leases[lease].released {
        HoldersAfterRelease(w, lease, id);
        SameHolders(w.(leases := Next(w, a).leases), Next(w, a), id);
      }
    case Open(_) =>
      SameHolders(w, Next(w, a), id);
      NewSessionUnused(w);
    case _ => SameHolders(w, Next(w, a), id);
  }

  lemma OneStepCounts(a: Action)
    ensures Opens([a]) == (if a.Open? then 1 else 0) && Begins([a]) == (if a.BeginIO? then 1 else 0)
  {
    assert Opens([]) == 0 && Begins([]) == 0;
  }

  lemma NewSessionUnused(w: World)
    requires Inv(w)
    ensures Holders(w, w.manager.nextId + 1) == {}
  {
    var id := w.manager.nextId + 1;
    assert SessionOk(w, id);
    forall l ensures l !in Holders(w, id) {
      assert LeaseOk(w, l);
    }
  }

  /** One step, seen by one lease. */
  lemma LeaseKept(w: World, a: Action, l: nat)
    requires Inv(w) && Enabled(w, a) && CountersHold(w, [a])
    ensures LeaseOk(Next(w, a), l)
  {
    hide Holders;
    OneStepCounts(a);
    assert LeaseOk(w, l);
    var w' := Next(w, a);
    if l in w'.leases && !w'.leases[l].released {
      var id := w'.leases[l].session;
      HolderKnown(w', l);
      assert SessionOk(w, id);
      match a
      case Release(lease) =>
        if !w.leases[lease].released {
          HoldersAfterRelease(w, lease, id);
          SameHolders(w.(leases := w'.leases), w', id);
        }
      case BeginIO(_, _) =>
      case _ => SameHolders(w, w', id);
    }
  }

  lemma NextKeepsInv(w: World, a: Action)
    requires Inv(w) && Enabled(w, a) && CountersHold(w, [a])
    ensures Inv(Next(w, a))
  {
    var w' := Next(w, a);
    forall id ensures SessionOk(w', id) {
      SessionKept(w, a, id);
    }
    forall l ensures LeaseOk(w', l) {
      LeaseKept(w, a, l);
    }
    if !a.Open? {
      FewerItems(w.manager.items, w'.manager.items);
    }
  }

  lemma CountersStillHold(w: World, actions: seq<Action>)
    requires actions != [] && Enabled(w, actions[0]) && CountersHold(w, actions)
    ensures CountersHold(w, [actions[0]]) && CountersHold(Next(w, actions[0]), actions[1..])
  {
    var a := actions[0];
    OneStepCounts(a);
    if a.BeginIO? {
      assert |w.leases[a.lease := Lease(a.session, false)]| == |w.leases| + 1;
    }
    if a.Release? {
      assert w.leases[a.lease := w.leases[a.lease].(released := true)].Keys == w.leases.Keys;
      assert |w.leases[a.lease := w.leases[a.lease].(released := true)].Keys| == |w.leases.Keys|;
    }
  }

  /** In every run the in-flight count of a stored session is the number of its unreleased leases, a stored closing
      session has one, and a session with an unreleased lease is stored. */
  lemma {:induction false} RunKeepsInv(w: World, actions: seq<Action>)
    requires Inv(w) && ValidRun(w, actions) && CountersHold(w, actions)
    ensures Inv(After(w, actions))
    decreases |actions|
  {
    if actions != [] {
      CountersStillHold(w, actions);
      NextKeepsInv(w, actions[0]);
      RunKeepsInv(Next(w, actions[0]), actions[1..]);
    }
  }

  predicate Fresh(w: World) { w.manager == EMPTY_MANAGER && w.leases == map[] }

  lemma FreshInv(w: World)
    requires Fresh(w)
    ensures Inv(w)
  {
  }

  // ---------------------------------------------------------------- what each call does

  /** Opening, told on the table: the shared manager always takes the session, the exclusive one exactly when it
      stores none. A session that is taken is new, belongs to the connection, is open and unused; nothing else
      changes. */
  lemma OpenEffect(w: World, k: nat)
    requires Inv(w) && CountersHold(w, [Open(k)])
    ensures var w', id := Next(w, Open(k)), w.manager.nextId + 1;
      && w'.leases == w.leases && w'.exclusive == w.exclusive
      && id !in w.manager.items
      && if !w.exclusive || w.manager.items == map[] then
           && w'.manager.nextId == id
           && w'.manager.items == w.manager.items[id := Managed(Record(id, k, false), 0)]
           && Holders(w', id) == {}
         else w' == w
    ensures Opened(w.manager, w.exclusive, k).0
      == if !w.exclusive || w.manager.items == map[] then Some(Record(w.manager.nextId + 1, k, false)) else None
  {
    OneStepCounts(Open(k));
    NewSessionUnused(w);
    SameHolders(w, Next(w, Open(k)), w.manager.nextId + 1);
    assert SessionOk(w, w.manager.nextId + 1);
  }

  /** Session ids count up and skip zero where the 64-bit counter wraps. */
  lemma NextIdCounts(n: nat)
    requires n < U64_LIMIT
    ensures NextId(n) == if n == 0xFFFF_FFFF_FFFF_FFFF then 1 else n + 1
  {
  }

  /** What a step leaves of a session: its id and connection never change, and it is marked closing exactly by its own
      close or that of its connection. */
  lemma StepOnSession(w: World, a: Action, id: nat)
    requires Inv(w) && Enabled(w, a) && CountersHold(w, [a]) && id in w.manager.items
    ensures id in Next(w, a).manager.items ==>
      var was, now := w.manager.items[id].record, Next(w, a).manager.items[id].record;
      && now.id == was.id == id && now.connection == was.connection
      && (now.closing <==> was.closing || a == Close(id) || a == CloseConnection(was.connection))
  {
    OneStepCounts(a);
    assert SessionOk(w, id);
    if a.Open? {
      OpenEffect(w, a.connection);
    }
  }

  /** An I/O begins exactly on a stored session that is not closing, whatever else is stored or in flight. */
  lemma BeginEffect(w: World, id: nat, lease: nat)
    requires lease !in w.leases
    ensures var w' := Next(w, BeginIO(id, lease));
      if id in w.manager.items && !w.manager.items[id].record.closing then
        w'.leases == w.leases[lease := Lease(id, false)] && Begun(w.manager, id).0 == Some(w.manager.items[id].record)
      else w' == w && Begun(w.manager, id).0 == None
  {
  }

  /** A release ends its own lease and no other. */
  lemma ReleaseEffect(w: World, lease: nat)
    requires lease in w.leases
    ensures Next(w, Release(lease)).leases == w.leases[lease := w.leases[lease].(released := true)]
    ensures w.leases[lease].released ==> Next(w, Release(lease)) == w
    ensures forall id :: id != w.leases[lease].session ==>
      (id in Next(w, Release(lease)).manager.items <==> id in w.manager.items)
  {
    assert w.leases[lease].released ==> w.leases == w.leases[lease := w.leases[lease].(released := true)];
  }

  lemma {:induction false} RecordKept(w: World, actions: seq<Action>, id: nat, k: nat)
    requires Inv(w) && ValidRun(w, actions) && CountersHold(w, actions)
    requires 0 < id <= w.manager.nextId && (id in w.manager.items ==> w.manager.items[id].record.connection == k)
    ensures var m := After(w, actions).manager;
      id <= m.nextId && (id in m.items ==> m.items[id].record.connection == k)
    decreases |actions|
  {
    if actions != [] {
      var w' := Next(w, actions[0]);
      CountersStillHold(w, actions);
      NextKeepsInv(w, actions[0]);
      OneStepCounts(actions[0]);
      if actions[0].Open? {
        OpenEffect(w, actions[0].connection);
      }
      if id in w.manager.items {
        StepOnSession(w, actions[0], id);
      }
      RecordKept(w', actions[1..], id, k);
    }
  }

  /** A session opened by a connection is closed or gone, and takes no I/O, once the connection is closed, whatever
      came in between. */
  lemma ClosedConnectionEndsSessions(w: World, k: nat, actions: seq<Action>)
    requires Inv(w) && CountersHold(w, [Open(k)] + actions) && (!w.exclusive || w.manager.items == map[])
    requires ValidRun(Next(w, Open(k)), actions)
    ensures var id := w.manager.nextId + 1;
      var end := Next(After(Next(w, Open(k)), actions), CloseConnection(k));
      Dead(end, id) && Begun(end.manager, id).0 == None
  {
    assert ([Open(k)] + actions)[1..] == actions;
    CountersStillHold(w, [Open(k)] + actions);
    OpenEffect(w, k);
    NextKeepsInv(w, Open(k));
    RecordKept(Next(w, Open(k)), actions, w.manager.nextId + 1, k);
  }

  // ---------------------------------------------------------------- what the invariant gives

  /** Under the exclusive manager any two I/Os in flight at the same time belong to the same session, also when the
      session was closed, and others were opened, in between. */
  lemma ExclusiveIoIsOneSession(w: World, actions: seq<Action>, l: nat, l': nat)
    requires Fresh(w) && w.exclusive && ValidRun(w, actions) && CountersHold(w, actions)
    requires var leases := After(w, actions).leases;
      l in leases && !leases[l].released && l' in leases && !leases[l'].released
    ensures After(w, actions).leases[l].session == After(w, actions).leases[l'].session
  {
    FreshInv(w);
    RunKeepsInv(w, actions);
    RunKeepsKind(w, actions);
    var end := After(w, actions);
    assert LeaseOk(end, l) && LeaseOk(end, l');
    var a, b := end.leases[l].session, end.leases[l'].session;
    SubsetSize({a, b}, end.manager.items.Keys);
    assert |end.manager.items| == |end.manager.items.Keys|;
    assert |{a, b}| == if a == b then 1 else 2;
  }

  lemma {:induction false} RunKeepsKind(w: World, actions: seq<Action>)
    requires ValidRun(w, actions)
    ensures After(w, actions).exclusive == w.exclusive
    decreases |actions|
  {
    if actions != [] {
      RunKeepsKind(Next(w, actions[0]), actions[1..]);
    }
  }

  /** The session was issued and is closed, or gone. */
  predicate Dead(w: World, id: nat) {
    0 < id <= w.manager.nextId && (id in w.manager.items ==> w.manager.items[id].record.closing)
  }

  lemma DeadStays(w: World, a: Action, id: nat)
    requires Dead(w, id) && Enabled(w, a) && CountersHold(w, [a])
    ensures Dead(Next(w, a), id)
  {
    OneStepCounts(a);
  }

  lemma {:induction false} DeadStaysInRun(w: World, actions: seq<Action>, id: nat)
    requires Dead(w, id) && ValidRun(w, actions) && CountersHold(w, actions)
    ensures Dead(After(w, actions), id)
    decreases |actions|
  {
    if actions != [] {
      CountersStillHold(w, actions);
      DeadStays(w, actions[0], id);
      DeadStaysInRun(Next(w, actions[0]), actions[1..], id);
    }
  }

  /** Once a session, or its connection, was closed, no I/O begins on it in the rest of any run. */
  lemma NoIoAfterClose(w: World, a: Action, actions: seq<Action>, id: nat)
    requires Inv(w) && id in w.manager.items
    requires a == Close(id) || a == CloseConnection(w.manager.items[id].record.connection)
    requires ValidRun(Next(w, a), actions) && CountersHold(Next(w, a), actions)
    ensures Begun(After(Next(w, a), actions).manager, id).0 == None
  {
    assert SessionOk(w, id);
    DeadStaysInRun(Next(w, a), actions, id);
  }

  lemma SoleHolder(w: World, id: nat, lease: nat)
    requires lease in w.leases
    ensures Holders(w, id) == {lease}
      <==> w.leases[lease].session == id && !w.leases[lease].released && |Holders(w, id)| == 1
  {
    assert lease in Holders(w, id) <==> w.leases[lease].session == id && !w.leases[lease].released;
    if lease in Holders(w, id) {
      assert |Holders(w, id) - {lease}| == |Holders(w, id)| - 1;
    }
  }

  /** A session that an I/O still uses is not deleted by any step; it goes when it is closed and its last lease is
      released, and not before. */
  lemma DeletedOnlyWhenUnused(w: World, a: Action, id: nat)
    requires Inv(w) && Enabled(w, a) && CountersHold(w, [a]) && id in w.manager.items
    ensures id !in Next(w, a).manager.items <==>
      || (Holders(w, id) == {} && (a == Close(id) || a == CloseConnection(w.manager.items[id].record.connection)))
      || (w.manager.items[id].record.closing && a.Release? && Holders(w, id) == {a.lease})
  {
    assert SessionOk(w, id);
    if a.Release? {
      SoleHolder(w, id, a.lease);
    }
  }

  /** The exclusive manager accepts a session exactly when no stored session is still open or in use; no lease is
      then unreleased. */
  lemma ExclusiveOpenIff(w: World, connection: nat)
    requires Inv(w) && w.exclusive
    ensures Opened(w.manager, true, connection).0.Some?
      <==> forall id :: id in w.manager.items ==> w.manager.items[id].record.closing && Holders(w, id) == {}
    ensures Opened(w.manager, true, connection).0.Some? ==> forall l :: l in w.leases ==> w.leases[l].released
  {
    forall l | w.manager.items == map[] && l in w.leases ensures w.leases[l].released {
      assert LeaseOk(w, l);
    }
    if w.manager.items != map[] {
      var id :| id in w.manager.items;
      assert SessionOk(w, id);
    }
  }

  /** The 32-bit counter matters: one more I/O and a close delete a session that is in use exactly when the counter
      was at its last value. */
  lemma CounterWrapDeletesIff(m: Manager, id: nat)
    requires id in m.items && !m.items[id].record.closing && m.items[id].inFlight < U32_LIMIT
    ensures id !in Closed(Begun(m, id).1, id).items <==> m.items[id].inFlight == U32_LIMIT - 1
  {
  }

  /** `count` I/Os that begin on session 1, with leases from `first` on. */
  function Beginnings(first: nat, count: nat): seq<Action>
    decreases count
  {
    if count == 0 then [] else [BeginIO(1, first)] + Beginnings(first + 1, count - 1)
  }

  /** Session 1 is open and every lease up to `count` is on it and unreleased. */
  ghost predicate Leased(w: World, count: nat) {
    && w.manager.nextId == 1
    && w.manager.items == map[1 := Managed(Record(1, 0, false), count % U32_LIMIT)]
    && (forall l: nat :: l in w.leases <==> l < count)
    && (forall l: nat :: l < count ==> w.leases[l] == Lease(1, false))
  }

  lemma OneBeginning(w: World, first: nat)
    requires Leased(w, first)
    ensures Enabled(w, BeginIO(1, first)) && Leased(Next(w, BeginIO(1, first)), first + 1)
    ensures Next(w, BeginIO(1, first)).exclusive == w.exclusive
  {
    var count := (first + 1) % U32_LIMIT;
    assert (first % U32_LIMIT + 1) % U32_LIMIT == count;
    assert w.manager.items[1 := Managed(Record(1, 0, false), count)] == map[1 := Managed(Record(1, 0, false), count)];
  }

  lemma {:induction false} BeginningsCount(w: World, first: nat, count: nat)
    requires Leased(w, first)
    ensures ValidRun(w, Beginnings(first, count))
    ensures Leased(After(w, Beginnings(first, count)), first + count)
    ensures After(w, Beginnings(first, count)).exclusive == w.exclusive
    decreases count
  {
    hide Leased, Next, Enabled;
    if count > 0 {
      var run := Beginnings(first, count);
      assert run[0] == BeginIO(1, first) && run[1..] == Beginnings(first + 1, count - 1);
      OneBeginning(w, first);
      BeginningsCount(Next(w, BeginIO(1, first)), first + 1, count - 1);
    }
  }

  lemma {:induction false} RunAppend(w: World, run: seq<Action>, rest: seq<Action>)
    requires ValidRun(w, run) && ValidRun(After(w, run), rest)
    ensures ValidRun(w, run + rest) && After(w, run + rest) == After(After(w, run), rest)
    decreases |run|
  {
    if run == [] {
      assert run + rest == rest;
    } else {
      assert (run + rest)[0] == run[0] && (run + rest)[1..] == run[1..] + rest;
      RunAppend(Next(w, run[0]), run[1..], rest);
    }
  }

  /** The run that opens session 1 and begins `n` I/Os on it. */
  function OpenAndBegin(n: nat): seq<Action> { [Open(0)] + Beginnings(0, n) }

  /** The wrapped counter is reached: for every `n` the run that opens a session and begins `n` I/Os leaves `n`
      unreleased leases and a count of `n % 2^32`, and a close then deletes the session in use exactly when that
      is zero. */
  lemma CountAfterLeases(w: World, n: nat)
    requires Fresh(w)
    ensures ValidRun(w, OpenAndBegin(n))
    ensures var end := After(w, OpenAndBegin(n));
      && Leased(end, n) && |Holders(end, 1)| == n
      && (1 !in Next(end, Close(1)).manager.items <==> n % U32_LIMIT == 0)
      && end.exclusive == w.exclusive
  {
    var run := OpenAndBegin(n);
    assert run[0] == Open(0) && run[1..] == Beginnings(0, n);
    var stored := Next(w, Open(0));
    assert stored.manager.items == map[1 := Managed(Record(1, 0, false), 0)];
    BeginningsCount(stored, 0, n);
    HoldersOfLeased(After(w, run), n);
  }

  lemma HoldersOfLeased(w: World, n: nat)
    requires Leased(w, n)
    ensures |Holders(w, 1)| == n
  {
    SizeOfInitial(Holders(w, 1), n);
  }

  lemma {:induction false} SizeOfInitial(s: set<nat>, n: nat)
    requires forall l: nat :: l in s <==> l < n
    ensures |s| == n
    decreases n
  {
    if n > 0 {
      SizeOfInitial(s - {n - 1}, n - 1);
    } else {
      assert s == {};
    }
  }

  /** Hence `ExclusiveIoIsOneSession` needs its bound: once the count has come round to zero, a close lets the
      exclusive manager accept a second session while the I/Os of the first are still in flight. */
  lemma WrappedCountAdmitsSecond(w: World, n: nat)
    requires Fresh(w) && w.exclusive && n > 0 && n % U32_LIMIT == 0
    ensures var run := OpenAndBegin(n) + [Close(1), Open(0), BeginIO(2, n)];
      && ValidRun(w, run)
      && var leases := After(w, run).leases;
         0 in leases && n in leases && leases[0] == Lease(1, false) && leases[n] == Lease(2, false)
  {
    CountAfterLeases(w, n);
    var end := After(w, OpenAndBegin(n));
    var last := [Close(1), Open(0), BeginIO(2, n)];
    var closed := Next(end, Close(1));
    assert closed.manager.items == map[];
    var stored := Next(closed, Open(0));
    assert stored.manager.items == map[2 := Managed(Record(2, 0, false), 0)];
    var begun := Next(stored, BeginIO(2, n));
    assert begun.leases[0] == Lease(1, false) && begun.leases[n] == Lease(2, false);
    ThreeSteps(end, last);
    RunAppend(w, OpenAndBegin(n), last);
  }

  lemma ThreeSteps(w: World, run: seq<Action>)
    requires |run| == 3 && Enabled(w, run[0]) && Enabled(Next(w, run[0]), run[1])
    requires Enabled(Next(Next(w, run[0]), run[1]), run[2])
    ensures ValidRun(w, run) && After(w, run) == Next(Next(Next(w, run[0]), run[1]), run[2])
  {
    hide Next, Enabled;
    var w1 := Next(w, run[0]);
    var w2 := Next(w1, run[1]);
    var w3 := Next(w2, run[2]);
    var two, one := run[1..], run[2..];
    assert two[0] == run[1] && two[1..] == one && one[0] == run[2] && one[1..] == [];
    assert ValidRun(w3, []) && After(w3, []) == w3;
    assert ValidRun(w2, one) && After(w2, one) == w3;
    assert ValidRun(w1, two) && After(w1, two) == w3;
  }
}

module SessionManagers {
  import opened Common
  import opened Sessions

  class ManagerState {
    var nextId: nat
    var items: map<nat, Managed>

    ghost function Value(): Manager
      reads this
    {
      Manager(nextId, items)
    }

    constructor ()
      ensures Value() == EMPTY_MANAGER
    {
      nextId := 0;
      items := map[];
    }

    method NextSessionId() returns (id: nat)
      modifies this`nextId
      ensures id == NextId(old(nextId)) && nextId == id
    {
      nextId := (nextId + 1) % U64_LIMIT;
      if nextId == 0 {
        nextId := (nextId + 1) % U64_LIMIT;
      }
      id := nextId;
    }

    method StoreLocked(connection: nat) returns (record: Record)
      modifies this
      ensures (record, Value()) == Stored(old(Value()), connection)
    {
      var id := NextSessionId();
      record := Record(id, connection, false);
      items := items[id := Managed(record, 0)];
    }

    method OpenExclusive(connection: nat) returns (r: Option<Record>)
      modifies this
      ensures (r, Value()) == Opened(old(Value()), true, connection)
    {
      if |items| > 0 {
        return None;
      }
      var record := StoreLocked(connection);
      r := Some(record);
    }

    method OpenShared(connection: nat) returns (r: Option<Record>)
      modifies this
      ensures (r, Value()) == Opened(old(Value()), false, connection)
    {
      var record := StoreLocked(connection);
      r := Some(record);
    }

    method CloseSession(id: nat)
      modifies this`items
      ensures Value() == Closed(old(Value()), id)
    {
      if id !in items {
        return;
      }
      var entry := items[id];
      if entry.inFlight == 0 {
        items := items - {id};
      } else {
        items := items[id := entry.(record := entry.record.(closing := true))];
      }
    }

    /** The loop visits the sessions in no particular order and closes those of the connection. */
    method CloseAllOf(connection: nat)
      modifies this`items
      ensures Value() == ConnectionClosed(old(Value()), connection)
    {
      ghost var closed := ConnectionClosed(old(Value()), connection).items;
      var left := items.Keys;
      while left != {}
        invariant left <= old(items).Keys
        invariant forall id :: id in left ==> id in items && items[id] == old(items)[id]
        invariant forall id :: id !in left ==> (id in items <==> id in closed) && (id in closed ==> items[id] == closed[id])
        decreases |left|
      {
        var id :| id in left;
        if items[id].record.connection == connection {
          CloseSession(id);
        }
        left := left - {id};
      }
      assert items == closed;
    }

    method BeginIo(id: nat) returns (record: Option<Record>)
      modifies this`items
      ensures (record, Value()) == Begun(old(Value()), id)
    {
      if id !in items || items[id].record.closing {
        return None;
      }
      var entry := items[id];
      items := items[id := entry.(inFlight := (entry.inFlight + 1) % U32_LIMIT)];
      record := Some(entry.record);
    }

    method EndIo(id: nat)
      modifies this`items
      ensures Value() == Ended(old(Value()), id)
    {
      if id !in items {
        return;
      }
      var entry := items[id];
      if entry.inFlight > 0 {
        entry := entry.(inFlight := entry.inFlight - 1);
      }
      if entry.record.closing && entry.inFlight == 0 {
        items := items - {id};
      } else {
        items := items[id := entry];
      }
    }
  }

  /** `ioLease`: releasing it more than once ends the I/O once. */
  class IoLease {
    const state: ManagerState
    const session: nat
    var released: bool

    constructor (state: ManagerState, session: nat)
      ensures this.state == state && this.session == session && !released
    {
      this.state := state;
      this.session := session;
      released := false;
    }

    method Release()
      modifies this`released, state`items
      ensures released
      ensures state.Value() == if old(released) then old(state.Value()) else Ended(old(state.Value()), session)
    {
      if !released {
        released := true;
        state.EndIo(session);
      }
    }
  }
}
