/**
  The doubly linked list that lives in a vector of slots (cache/src/resident/list.rs). Handles are slot
  numbers; freed slots are kept on a stack and reused.

  `Order` is the abstract value: the live handles from head to tail. `Valid` says that the links spell out
  exactly that order in both directions, that the live slots are exactly the handles in it, and that the free
  stack holds exactly the empty slots, each once.
*/
module IndexedLists {
  import opened Common

  datatype ListNode = ListNode(value: nat, prev: Option<nat>, next: Option<nat>)

  type Slots = seq<Option<ListNode>>

  predicate Live(nodes: Slots, h: nat) { h < |nodes| && nodes[h].Some? }

  ghost predicate AllLive(nodes: Slots, order: seq<nat>) {
    forall i :: 0 <= i < |order| ==> Live(nodes, order[i])
  }

  /** The handle just before position `i`, if there is one. */
  ghost function Before(order: seq<nat>, i: int): Option<nat>
    requires 0 <= i <= |order|
  {
    if i == 0 then None else Some(order[i - 1])
  }

  /** The handle at position `i`, if there is one. */
  ghost function At(order: seq<nat>, i: int): Option<nat>
    requires 0 <= i <= |order|
  {
    if i == |order| then None else Some(order[i])
  }

  /** The links of the live slots spell out `order`. */
  ghost predicate Linked(nodes: Slots, order: seq<nat>)
    requires AllLive(nodes, order)
  {
    forall i {:trigger LinkedAt(nodes, order, i)} :: 0 <= i < |order| ==> LinkedAt(nodes, order, i)
  }

  /** The node at position `i` points at its two neighbours in `order`. */
  ghost predicate LinkedAt(nodes: Slots, order: seq<nat>, i: nat)
    requires i < |order| && Live(nodes, order[i])
  {
    && nodes[order[i]].value.prev == Before(order, i)
    && nodes[order[i]].value.next == At(order, i + 1)
  }

  /** `order` lists the live slots, each once, and the links spell it out in both directions. */
  ghost predicate Chain(nodes: Slots, order: seq<nat>) {
    && AllLive(nodes, order)
    && Distinct(order)
    && Linked(nodes, order)
    && (forall h: nat :: Live(nodes, h) ==> h in order)
  }

  /** The free stack holds exactly the empty slots, each once. */
  ghost predicate FreeExact(nodes: Slots, free: seq<nat>) {
    && Distinct(free)
    && (forall i :: 0 <= i < |free| ==> free[i] < |nodes| && nodes[free[i]].None?)
    && (forall h :: 0 <= h < |nodes| && nodes[h].None? ==> h in free)
  }

  /** The values stored under the handles of `order`. */
  ghost function ValuesOf(nodes: Slots, order: seq<nat>): (r: seq<nat>)
    requires AllLive(nodes, order)
    ensures |r| == |order|
    ensures forall i :: 0 <= i < |order| ==> r[i] == nodes[order[i]].value.value
  {
    seq(|order|, i requires 0 <= i < |order| => nodes[order[i]].value.value)
  }

  /** The value stored under each handle of `order`. */
  ghost function HeldIn(nodes: Slots, order: seq<nat>): (m: map<nat, nat>)
    requires AllLive(nodes, order)
  {
    map h | h in order :: nodes[h].value.value
  }

  /** `node_mut(h).unwrap().next = next`. */
  function WithNext(nodes: Slots, h: nat, next: Option<nat>): (r: Slots)
    requires Live(nodes, h)
    ensures |r| == |nodes|
    ensures forall k :: 0 <= k < |nodes| ==> r[k] == if k == h then Some(nodes[h].value.(next := next)) else nodes[k]
  {
    nodes[h := Some(nodes[h].value.(next := next))]
  }

  /** `node_mut(h).unwrap().prev = prev`. */
  function WithPrev(nodes: Slots, h: nat, prev: Option<nat>): (r: Slots)
    requires Live(nodes, h)
    ensures |r| == |nodes|
    ensures forall k :: 0 <= k < |nodes| ==> r[k] == if k == h then Some(nodes[h].value.(prev := prev)) else nodes[k]
  {
    nodes[h := Some(nodes[h].value.(prev := prev))]
  }

  class IndexedList {
    var nodes: Slots
    var free: seq<nat>
    var head: Option<nat>
    var tail: Option<nat>
    var len: nat
    ghost var Order: seq<nat>

    ghost predicate Valid()
      reads this
    {
      && Chain(nodes, Order)
      && FreeExact(nodes, free)
      && head == At(Order, 0)
      && tail == Before(Order, |Order|)
      && len == |Order|
    }

    ghost function Values(): (r: seq<nat>)
      reads this
      requires Valid()
    {
      ValuesOf(nodes, Order)
    }

    /** The value stored under each live handle. */
    ghost function Holds(): map<nat, nat>
      reads this
      requires Valid()
    {
      HeldIn(nodes, Order)
    }

    lemma HeldInOrder()
      requires Valid()
      ensures forall i :: 0 <= i < |Order| ==> Order[i] in Holds() && Holds()[Order[i]] == Values()[i]
      ensures forall h :: h in Holds() <==> h in Order
    {
    }

    /** When no other node holds the same value, the value stands where its node stands. */
    lemma ValuePosition(h: nat)
      requires Valid() && h in Holds()
      requires forall x :: x in Holds() && Holds()[x] == Holds()[h] ==> x == h
      ensures h in Order && Holds()[h] in Values() && IndexOf(Values(), Holds()[h]) == IndexOf(Order, h)
    {
      HeldInOrder();
      var i := IndexOf(Order, h);
      assert Values()[i] == Holds()[h];
      var j := IndexOf(Values(), Holds()[h]);
      assert Holds()[Order[j]] == Holds()[h];
    }

    /** A value held by no node is not in the list. */
    lemma ValueAbsent(v: nat)
      requires Valid() && forall x :: x in Holds() ==> Holds()[x] != v
      ensures v !in Values()
    {
      HeldInOrder();
      forall i | 0 <= i < |Values()| ensures Values()[i] != v {
        assert Order[i] in Holds();
      }
    }

    constructor ()
      ensures Valid() && Order == [] && Values() == [] && Holds() == map[]
    {
      nodes, free, head, tail, len := [], [], None, None, 0;
      Order := [];
    }

    method FrontValue() returns (r: Option<nat>)
      requires Valid()
      ensures r == if Values() == [] then None else Some(Values()[0])
    {
      r := if head.Some? then Some(nodes[head.value].value.value) else None;
    }

    method AllocNode(value: nat) returns (h: nat)
      requires FreeExact(nodes, free)
      modifies this
      ensures h < |nodes| && !Live(old(nodes), h)
      ensures Filled(old(nodes), nodes, h, ListNode(value, None, None))
      ensures FreeExact(nodes, free)
      ensures head == old(head) && tail == old(tail) && len == old(len) && Order == old(Order)
      ensures if old(free) == [] then h == |old(nodes)| && free == [] && |nodes| == |old(nodes)| + 1
              else h == old(free)[|old(free)| - 1] && free == old(free)[..|old(free)| - 1] && |nodes| == |old(nodes)|
    {
      var node := ListNode(value, None, None);
      if free != [] {
        h := free[|free| - 1];
        nodes := nodes[h := Some(node)];
        free := free[..|free| - 1];
        TakenSlot(old(nodes), nodes, old(free));
      } else {
        h := |nodes|;
        nodes := nodes + [Some(node)];
      }
    }

    /** Appends: the new handle was not live, comes last, and no other handle's value changes. The slots grow only when
        none is free. */
    method PushBack(value: nat) returns (h: nat)
      requires Valid()
      modifies this
      ensures Valid()
      ensures !Live(old(nodes), h) && h !in old(Order)
      ensures Order == old(Order) + [h]
      ensures Values() == old(Values()) + [value]
      ensures Holds() == old(Holds())[h := value]
      ensures |nodes| == |old(nodes)| + if old(free) == [] then 1 else 0
      ensures |free| == if old(free) == [] then 0 else |old(free)| - 1
    {
      h := AllocNode(value);
      ghost var filled := nodes;
      var oldTail := tail;
      if oldTail.Some? {
        nodes := WithNext(nodes, oldTail.value, Some(h));
      } else {
        head := Some(h);
      }
      nodes := WithNext(WithPrev(nodes, h, oldTail), h, None);
      tail := Some(h);
      len := len + 1;
      AppendedNode(old(nodes), filled, nodes, Order, free, h, value);
      Order := Order + [h];
    }

    /** Takes a handle out wherever it stands; a handle that is not live changes nothing. */
    method Remove(h: nat) returns (r: Option<nat>)
      requires Valid()
      modifies this
      ensures Valid()
      ensures h !in old(Order) ==> r == None && Order == old(Order) && Values() == old(Values())
      ensures h in old(Order) ==>
        var i := IndexOf(old(Order), h);
        && r == Some(old(Values())[i])
        && Order == RemoveAt(old(Order), i)
        && Values() == RemoveAt(old(Values()), i)
      ensures Holds() == old(Holds()) - {h}
      ensures |nodes| == |old(nodes)| && free == if h in old(Order) then old(free) + [h] else old(free)
    {
      if h >= |nodes| || nodes[h].None? {
        return None;
      }
      ghost var i := IndexOf(Order, h);
      Neighbours(nodes, Order, h);
      var node := Unlink(h);
      free := free + [h];
      len := len - 1;
      RemovedNode(old(nodes), nodes, Order, old(free), i);
      Order := RemoveAt(Order, i);
      r := Some(node.value);
    }

    /** Takes the node out of its slot and joins its two neighbours. */
    method Unlink(h: nat) returns (node: ListNode)
      requires Live(nodes, h) && Apart(nodes, h)
      modifies this`nodes, this`head, this`tail
      ensures node == old(nodes[h].value)
      ensures |nodes| == |old(nodes)| && nodes[h] == None && Joined(old(nodes), nodes, h)
      ensures head == if node.prev.Some? then old(head) else node.next
      ensures tail == if node.next.Some? then old(tail) else node.prev
    {
      node := nodes[h].value;
      nodes := nodes[h := None];
      if node.prev.Some? {
        nodes := WithNext(nodes, node.prev.value, node.next);
      } else {
        head := node.next;
      }
      if node.next.Some? {
        nodes := WithPrev(nodes, node.next.value, node.prev);
      } else {
        tail := node.prev;
      }
    }

    method PopFront() returns (r: Option<nat>)
      requires Valid()
      modifies this
      ensures Valid()
      ensures old(Values()) == [] ==> r == None && Values() == [] && Order == old(Order)
      ensures old(Values()) != [] ==>
        && r == Some(old(Values())[0])
        && Values() == old(Values())[1..] && Order == old(Order)[1..]
      ensures old(Order) != [] ==> Holds() == old(Holds()) - {old(Order)[0]}
      ensures old(Order) == [] ==> Holds() == old(Holds())
    {
      if head.None? {
        return None;
      }
      assert Order[0] == head.value;
      r := Remove(head.value);
      assert Order == old(Order)[1..];
      assert Values() == old(Values())[1..];
    }

    /** A live handle goes to the end, everything else keeps its order, handle and value. */
    method MoveToBack(h: nat) returns (moved: bool)
      requires Valid()
      modifies this
      ensures Valid()
      ensures moved <==> h in old(Order)
      ensures !moved ==> Order == old(Order) && Values() == old(Values())
      ensures moved ==>
        var i := IndexOf(old(Order), h);
        && Order == RemoveAt(old(Order), i) + [h]
        && Values() == RemoveAt(old(Values()), i) + [old(Values())[i]]
      ensures Holds() == old(Holds())
    {
      if tail == Some(h) {
        TailStays(h);
        return true;
      }
      if h >= |nodes| || nodes[h].None? {
        return false;
      }
      MoveInner(h);
      moved := true;
    }

    /** Moving the last handle to the end changes nothing. */
    lemma TailStays(h: nat)
      requires Valid() && tail == Some(h)
      ensures h in Order
      ensures var i := IndexOf(Order, h);
        Order == RemoveAt(Order, i) + [h] && Values() == RemoveAt(Values(), i) + [Values()[i]]
    {
      Neighbours(nodes, Order, h);
      RemoveLastAndAppend(Order);
      RemoveLastAndAppend(Values());
    }

    method MoveInner(h: nat)
      requires Valid() && Live(nodes, h) && tail != Some(h)
      modifies this
      ensures Valid() && h in old(Order)
      ensures var i := IndexOf(old(Order), h);
        && Order == RemoveAt(old(Order), i) + [h]
        && Values() == RemoveAt(old(Values()), i) + [old(Values())[i]]
      ensures Holds() == old(Holds())
    {
      hide Linked, Distinct, ValuesOf, HeldIn, FreeExact;
      ghost var i := IndexOf(Order, h);
      Neighbours(nodes, Order, h);
      Relink(h);
      MovedLinks(old(nodes), nodes, Order, i);
      MovedValues(old(nodes), nodes, Order, i);
      MovedHeld(old(nodes), nodes, Order, i);
      SameEmptySlots(old(nodes), nodes, free);
      Order := RemoveAt(Order, i) + [h];
    }

    /** Joins the neighbours of an inner node and hangs the node behind the tail. */
    method Relink(h: nat)
      requires Live(nodes, h) && Apart(nodes, h)
      requires tail.Some? ==> tail.value != h && Live(nodes, tail.value)
      modifies this`nodes, this`head, this`tail
      ensures |nodes| == |old(nodes)| && Moved(old(nodes), nodes, h, old(tail))
      ensures head == if old(tail).None? then Some(h)
                      else if old(nodes[h].value.prev).Some? then old(head) else old(nodes[h].value.next)
      ensures tail == Some(h)
    {
      var prev, next := nodes[h].value.prev, nodes[h].value.next;
      if prev.Some? {
        nodes := WithNext(nodes, prev.value, next);
      } else {
        head := next;
      }
      if next.Some? {
        nodes := WithPrev(nodes, next.value, prev);
      }
      var oldTail := tail;
      nodes := WithNext(WithPrev(nodes, h, oldTail), h, None);
      if oldTail.Some? {
        nodes := WithNext(nodes, oldTail.value, Some(h));
      } else {
        head := Some(h);
      }
      tail := Some(h);
    }
  }

  /** The neighbours of the node in slot `h` are live slots other than `h`, and not the same one. */
  ghost predicate Apart(nodes: Slots, h: nat)
    requires Live(nodes, h)
  {
    var node := nodes[h].value;
    && (node.prev.Some? ==> Live(nodes, node.prev.value) && node.prev.value != h)
    && (node.next.Some? ==> Live(nodes, node.next.value) && node.next.value != h)
    && (node.prev.Some? ==> node.prev != node.next)
  }

  /** Apart from slot `h`, only the two neighbours of its node changed: they now point at each other. */
  ghost predicate Joined(was: Slots, now: Slots, h: nat)
    requires Live(was, h) && |now| == |was|
  {
    var node := was[h].value;
    forall k :: 0 <= k < |was| && k != h ==>
      now[k] == if was[k].None? then None else Some(ListNode(was[k].value.value,
        if Some(k) == node.next then node.prev else was[k].value.prev,
        if Some(k) == node.prev then node.next else was[k].value.next))
  }

  /** The neighbours of node `h` point at each other and `h` hangs behind the tail. */
  ghost predicate Moved(was: Slots, now: Slots, h: nat, tail: Option<nat>)
    requires Live(was, h) && |now| == |was|
  {
    var node := was[h].value;
    && now[h] == Some(ListNode(node.value, tail, None))
    && forall k :: 0 <= k < |was| && k != h ==>
      now[k] == if was[k].None? then None else Some(ListNode(was[k].value.value,
        if Some(k) == node.next then node.prev else was[k].value.prev,
        if Some(k) == tail then Some(h) else if Some(k) == node.prev then node.next else was[k].value.next))
  }

  /** `now` is `was` with the empty or new slot `h` filled. */
  ghost predicate Filled(was: Slots, now: Slots, h: nat, node: ListNode) {
    && h < |now| && now[h] == Some(node) && |was| <= |now|
    && (forall k :: 0 <= k < |now| && k != h ==> k < |was| && now[k] == was[k])
  }

  lemma Neighbours(nodes: Slots, order: seq<nat>, h: nat)
    requires Chain(nodes, order) && Live(nodes, h)
    ensures h in order && LinkedAt(nodes, order, IndexOf(order, h)) && Apart(nodes, h)
    ensures order[|order| - 1] != h ==> IndexOf(order, h) < |order| - 1 && nodes[h].value.next.Some?
    ensures order[|order| - 1] == h ==> IndexOf(order, h) == |order| - 1 && nodes[h].value.next.None?
  {
    assert LinkedAt(nodes, order, IndexOf(order, h));
  }

  lemma TakenSlot(was: Slots, now: Slots, free: seq<nat>)
    requires FreeExact(was, free) && free != [] && |now| == |was|
    requires forall k :: 0 <= k < |was| ==> (now[k].None? <==> was[k].None? && k != free[|free| - 1])
    ensures FreeExact(now, free[..|free| - 1])
  {
    var free' := free[..|free| - 1];
    forall k | 0 <= k < |now| && now[k].None? ensures k in free' {
      var j :| 0 <= j < |free| && free[j] == k;
      assert free'[j] == k;
    }
  }

  lemma FreedSlot(was: Slots, now: Slots, free: seq<nat>, h: nat)
    requires FreeExact(was, free) && |now| == |was| && Live(was, h)
    requires forall k :: 0 <= k < |was| ==> (now[k].None? <==> was[k].None? || k == h)
    ensures FreeExact(now, free + [h])
  {
    var free' := free + [h];
    forall k | 0 <= k < |now| && now[k].None? ensures k in free' {
      if k == h {
        assert free'[|free|] == k;
      } else {
        var j :| 0 <= j < |free| && free[j] == k;
        assert free'[j] == k;
      }
    }
  }

  lemma SameEmptySlots(was: Slots, now: Slots, free: seq<nat>)
    requires FreeExact(was, free) && |now| == |was|
    requires forall k :: 0 <= k < |was| ==> (now[k].None? <==> was[k].None?)
    ensures FreeExact(now, free)
  {
  }

  /** Relinking the old tail and the new node spells out the order with the new handle at the end. */
  lemma AppendedLinks(was: Slots, filled: Slots, now: Slots, order: seq<nat>, h: nat, value: nat)
    requires Chain(was, order) && !Live(was, h)
    requires Filled(was, filled, h, ListNode(value, None, None))
    requires |now| == |filled| && now[h] == Some(ListNode(value, Before(order, |order|), None))
    requires forall k :: 0 <= k < |now| && k != h ==>
      now[k] == if order != [] && k == order[|order| - 1] && filled[k].Some?
                then Some(filled[k].value.(next := Some(h))) else filled[k]
    ensures Chain(now, order + [h])
    ensures ValuesOf(now, order + [h]) == ValuesOf(was, order) + [value]
    ensures HeldIn(now, order + [h]) == HeldIn(was, order)[h := value]
    ensures forall k :: 0 <= k < |now| ==> (now[k].None? <==> filled[k].None?)
  {
    var order' := order + [h];
    forall j | 0 <= j < |order|
      ensures order'[j] == order[j] != h && Live(now, order[j])
      ensures now[order[j]].value.value == was[order[j]].value.value
    {
      assert Live(was, order[j]);
    }
    forall j | 0 <= j < |order'| ensures LinkedAt(now, order', j) {
      if j < |order| {
        assert LinkedAt(was, order, j);
      }
    }
    forall k: nat | Live(now, k) ensures k in order' {
      if k == h {
        assert order'[|order|] == k;
      } else {
        assert Live(was, k);
      }
    }
  }

  /** The slots, the free stack and the order after a node was hung behind the tail. */
  lemma AppendedNode(was: Slots, filled: Slots, now: Slots, order: seq<nat>, free: seq<nat>, h: nat, value: nat)
    requires Chain(was, order) && !Live(was, h) && FreeExact(filled, free)
    requires Filled(was, filled, h, ListNode(value, None, None))
    requires |now| == |filled| && now[h] == Some(ListNode(value, Before(order, |order|), None))
    requires forall k :: 0 <= k < |now| && k != h ==>
      now[k] == if order != [] && k == order[|order| - 1] && filled[k].Some?
                then Some(filled[k].value.(next := Some(h))) else filled[k]
    ensures Chain(now, order + [h]) && FreeExact(now, free)
    ensures ValuesOf(now, order + [h]) == ValuesOf(was, order) + [value]
    ensures HeldIn(now, order + [h]) == HeldIn(was, order)[h := value]
  {
    hide LinkedAt, FreeExact, ValuesOf, HeldIn;
    AppendedLinks(was, filled, now, order, h, value);
    SameEmptySlots(filled, now, free);
  }

  /** Joining the two neighbours of the slot taken out spells out the order without it. */
  lemma RemovedLinks(was: Slots, now: Slots, order: seq<nat>, i: nat)
    requires Chain(was, order)
    requires i < |order| && |now| == |was| && now[order[i]] == None
    requires Joined(was, now, order[i])
    ensures Chain(now, RemoveAt(order, i))
    ensures forall x :: x in RemoveAt(order, i) ==> x in order && x != order[i]
    ensures forall k: nat :: Live(now, k) ==> now[k].value.value == was[k].value.value
  {
    var order' := RemoveAt(order, i);
    RemovedLive(was, now, order[i]);
    RemovedMembers(order, i);
    hide Joined, LinkedAt;
    forall j | 0 <= j < |order'|
      ensures Live(now, order'[j])
      ensures LinkedAt(now, order', j)
    {
      RemovedLinkAt(was, now, order, i, j);
    }
    assert Distinct(order');
  }

  lemma RemovedLive(was: Slots, now: Slots, h: nat)
    requires Live(was, h) && |now| == |was| && now[h] == None && Joined(was, now, h)
    ensures forall k: nat :: Live(now, k) ==> Live(was, k) && k != h && now[k].value.value == was[k].value.value
  {
  }

  lemma RemovedLinkAt(was: Slots, now: Slots, order: seq<nat>, i: nat, j: nat)
    requires Chain(was, order)
    requires i < |order| && |now| == |was| && now[order[i]] == None && j < |order| - 1
    requires Joined(was, now, order[i])
    ensures var order' := RemoveAt(order, i);
      Live(now, order'[j]) && order'[j] != order[i] && LinkedAt(now, order', j)
  {
    var order' := RemoveAt(order, i);
    var k := if j < i then j else j + 1;
    assert order'[j] == order[k];
    assert LinkedAt(was, order, i);
    assert Live(was, order[k]) && LinkedAt(was, order, k);
  }

  lemma RemovedValues(was: Slots, now: Slots, order: seq<nat>, i: nat)
    requires i < |order| && AllLive(was, order) && AllLive(now, RemoveAt(order, i))
    requires forall x :: x in RemoveAt(order, i) ==> now[x].value.value == was[x].value.value
    ensures ValuesOf(now, RemoveAt(order, i)) == RemoveAt(ValuesOf(was, order), i)
    ensures Distinct(order) ==> HeldIn(now, RemoveAt(order, i)) == HeldIn(was, order) - {order[i]}
  {
    var order' := RemoveAt(order, i);
    forall j | 0 <= j < |order'|
      ensures ValuesOf(now, order')[j] == RemoveAt(ValuesOf(was, order), i)[j]
    {
      assert order'[j] in order';
    }
    if Distinct(order) {
      RemovedMembers(order, i);
    }
  }

  /** The slots, the free stack and the order after the node at position `i` was taken out. */
  lemma RemovedNode(was: Slots, now: Slots, order: seq<nat>, free: seq<nat>, i: nat)
    requires Chain(was, order) && FreeExact(was, free)
    requires i < |order| && |now| == |was| && now[order[i]] == None && Joined(was, now, order[i])
    ensures var order' := RemoveAt(order, i);
      && Chain(now, order') && FreeExact(now, free + [order[i]])
      && ValuesOf(now, order') == RemoveAt(ValuesOf(was, order), i)
      && HeldIn(now, order') == HeldIn(was, order) - {order[i]}
  {
    hide LinkedAt, FreeExact, ValuesOf, HeldIn;
    RemovedLinks(was, now, order, i);
    RemovedValues(was, now, order, i);
    FreedSlot(was, now, free, order[i]);
  }

  lemma RemovedMembers(order: seq<nat>, i: nat)
    requires i < |order| && Distinct(order)
    ensures forall x :: x in RemoveAt(order, i) <==> x in order && x != order[i]
  {
    var order' := RemoveAt(order, i);
    forall x | x in order && x != order[i] ensures x in order' {
      var j :| 0 <= j < |order| && order[j] == x;
      assert order'[if j < i then j else j - 1] == x;
    }
  }

  /** Unlinking an inner node and relinking it behind the tail spells out delete-then-append. */
  lemma MovedLinks(was: Slots, now: Slots, order: seq<nat>, i: nat)
    requires Chain(was, order)
    requires i < |order| - 1 && |now| == |was|
    requires Moved(was, now, order[i], Some(order[|order| - 1]))
    ensures Chain(now, RemoveAt(order, i) + [order[i]])
    ensures forall k :: 0 <= k < |now| ==> (now[k].None? <==> was[k].None?)
  {
    var order' := RemoveAt(order, i) + [order[i]];
    MovedLive(was, now, order[i], Some(order[|order| - 1]));
    hide Moved, LinkedAt;
    forall j | 0 <= j < |order'|
      ensures Live(now, order'[j]) && LinkedAt(now, order', j)
    {
      MovedLinkAt(was, now, order, i, j);
    }
    MovedDistinct(order, i);
    assert forall k: nat :: Live(now, k) ==> Live(was, k);
  }

  lemma MovedDistinct(order: seq<nat>, i: nat)
    requires i < |order| && Distinct(order)
    ensures Distinct(RemoveAt(order, i) + [order[i]])
    ensures forall k :: k in order ==> k in RemoveAt(order, i) + [order[i]]
  {
    RemovedMembers(order, i);
    var rest := RemoveAt(order, i);
    assert Distinct(rest) && order[i] !in rest;
    forall k | k in order ensures k in rest + [order[i]] {
      MovedMembers(order, i, k);
    }
  }

  lemma MovedLive(was: Slots, now: Slots, h: nat, tail: Option<nat>)
    requires Live(was, h) && |now| == |was| && Moved(was, now, h, tail)
    ensures forall k :: 0 <= k < |now| ==> (now[k].None? <==> was[k].None?)
  {
  }

  lemma MovedValues(was: Slots, now: Slots, order: seq<nat>, i: nat)
    requires i < |order| && |now| == |was|
    requires Chain(was, order) && Chain(now, RemoveAt(order, i) + [order[i]])
    requires Moved(was, now, order[i], Some(order[|order| - 1]))
    ensures ValuesOf(now, RemoveAt(order, i) + [order[i]])
         == RemoveAt(ValuesOf(was, order), i) + [ValuesOf(was, order)[i]]
  {
    forall x | x in RemoveAt(order, i)
      ensures Live(now, x) && now[x].value.value == was[x].value.value
    {
      assert x in RemoveAt(order, i) + [order[i]];
    }
    hide Linked, LinkedAt, HeldIn;
    RemovedValues(was, now, order, i);
    AppendedValue(now, RemoveAt(order, i), order[i]);
  }

  lemma AppendedValue(nodes: Slots, order: seq<nat>, h: nat)
    requires AllLive(nodes, order + [h])
    ensures AllLive(nodes, order) && Live(nodes, h)
    ensures ValuesOf(nodes, order + [h]) == ValuesOf(nodes, order) + [nodes[h].value.value]
  {
    var all := order + [h];
    assert all[|order|] == h;
    forall i | 0 <= i < |order| ensures Live(nodes, order[i]) {
      assert all[i] == order[i];
    }
  }

  lemma MovedHeld(was: Slots, now: Slots, order: seq<nat>, i: nat)
    requires i < |order| && |now| == |was|
    requires Chain(was, order) && Chain(now, RemoveAt(order, i) + [order[i]])
    requires Moved(was, now, order[i], Some(order[|order| - 1]))
    ensures HeldIn(now, RemoveAt(order, i) + [order[i]]) == HeldIn(was, order)
  {
    forall x ensures x in RemoveAt(order, i) + [order[i]] <==> x in order {
      MovedMembers(order, i, x);
    }
    assert forall x :: x in order ==> Live(was, x) && Live(now, x) && now[x].value.value == was[x].value.value;
  }

  lemma MovedMembers(order: seq<nat>, i: nat, x: nat)
    requires i < |order|
    ensures x in RemoveAt(order, i) + [order[i]] <==> x in order
  {
    var order' := RemoveAt(order, i) + [order[i]];
    if x in order {
      var j :| 0 <= j < |order| && order[j] == x;
      assert order'[if j == i then |order| - 1 else if j < i then j else j - 1] == x;
    }
    if x in order' {
      var j :| 0 <= j < |order'| && order'[j] == x;
      assert order[if j == |order| - 1 then i else if j < i then j else j + 1] == x;
    }
  }

  lemma MovedLinkAt(was: Slots, now: Slots, order: seq<nat>, i: nat, j: nat)
    requires Chain(was, order)
    requires i < |order| - 1 && |now| == |was| && j < |order|
    requires Moved(was, now, order[i], Some(order[|order| - 1]))
    ensures var order' := RemoveAt(order, i) + [order[i]];
      && order'[j] in order && Live(now, order'[j])
      && now[order'[j]].value.value == was[order'[j]].value.value
      && LinkedAt(now, order', j)
  {
    var order' := RemoveAt(order, i) + [order[i]];
    var last := |order| - 1;
    assert LinkedAt(was, order, i);
    if j == last {
      assert order'[j] == order[i];
      assert Before(order', j) == Some(order[last]) by {
        assert order'[j - 1] == order[last];
      }
    } else {
      var k := if j < i then j else j + 1;
      assert order'[j] == order[k] && k != i;
      assert order[k] != order[i];
      assert Live(was, order[k]) && LinkedAt(was, order, k);
      assert At(order', j + 1) == if k == last then Some(order[i]) else if k == i - 1 then At(order, i + 1) else At(order, k + 1);
      assert Before(order', j) == if k == i + 1 then Before(order, i) else Before(order, k);
    }
  }
}
