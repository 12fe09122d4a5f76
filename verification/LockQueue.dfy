/**
  The kernel's indexed queue: heap nodes in a doubly linked list, each with a number that
  identifies it while it is queued, and a round-robin cursor into the list. Every call runs
  under the queue's lock.
 */
module LockQueue {
  const MAX := 0xffff_ffff_ffff_ffff   // also the failure value

  /** What a node carries: its index and the caller's pointer, null being zero. */
  type Item = (nat, nat)

  class Node {
    var data: nat
    var next: Node?
    var prev: Node?
    var index: nat

    constructor (data: nat)
      ensures this.data == data && next == null && prev == null
    {
      this.data, next, prev, index := data, null, null, 0;
    }
  }

  // ------------------------------------------------------------------ indices

  ghost function Indices(items: seq<Item>): set<nat> { set i | 0 <= i < |items| :: items[i].0 }

  ghost predicate Unique(items: seq<Item>) {
    forall i, j | 0 <= i < j < |items| :: items[i].0 != items[j].0
  }

  ghost predicate Below(items: seq<Item>, bound: nat) { forall i | 0 <= i < |items| :: items[i].0 < bound }

  /** The list with its k-th element taken out. */
  function Without<T>(s: seq<T>, k: nat): (r: seq<T>)
    requires k < |s|
    ensures |r| == |s| - 1
    ensures forall i | 0 <= i < |r| :: r[i] == if i < k then s[i] else s[i + 1]
  {
    s[..k] + s[k+1..]
  }

  lemma {:induction false} IndicesCard(items: seq<Item>)
    ensures |Indices(items)| <= |items|
  {
    if items != [] {
      var front, last := items[..|items|-1], items[|items|-1];
      IndicesCard(front);
      assert Indices(items) == Indices(front) + {last.0} by {
        forall x | x in Indices(items) ensures x in Indices(front) + {last.0} {
          var i :| 0 <= i < |items| && items[i].0 == x;
          if i < |front| { assert front[i].0 == x; }
        }
        forall x | x in Indices(front) ensures x in Indices(items) {
          var i :| 0 <= i < |front| && front[i].0 == x;
          assert items[i].0 == x;
        }
        assert items[|items|-1].0 == last.0;
      }
    }
  }

  ghost function UpTo(n: nat): (s: set<nat>)
    ensures |s| == n && forall x :: x in s <==> 0 <= x < n
  {
    if n == 0 then {} else UpTo(n - 1) + {n - 1}
  }

  /** Pigeonhole: if every index below n is taken there are at least n nodes. */
  lemma AllTaken(items: seq<Item>, n: nat)
    requires forall j | 0 <= j < n :: j in Indices(items)
    ensures n <= |items|
  {
    IndicesCard(items);
    assert UpTo(n) <= Indices(items);
    Subset(UpTo(n), Indices(items));
  }

  lemma {:induction false} Subset(a: set<nat>, b: set<nat>)
    requires a <= b
    ensures |a| <= |b|
  {
    if a != {} {
      var x :| x in a;
      Subset(a - {x}, b - {x});
    }
  }

  // -------------------------------------------------------------------- links

  ghost function NextOf(nodes: seq<Node>, i: nat): Node?
    requires i < |nodes|
  {
    if i + 1 < |nodes| then nodes[i + 1] else null
  }

  ghost function PrevOf(nodes: seq<Node>, i: nat): Node?
    requires i < |nodes|
  {
    if i > 0 then nodes[i - 1] else null
  }

  /** A list seen as values: its nodes in order, what they carry, and the one place of each. */
  datatype List = List(nodes: seq<Node>, items: seq<Item>, place: map<Node, nat>)

  ghost predicate Placed(nodes: seq<Node>, place: map<Node, nat>) {
    forall i | 0 <= i < |nodes| :: nodes[i] in place && place[nodes[i]] == i
  }

  /** The i-th node points at its neighbours. */
  ghost predicate LinkAt(nodes: seq<Node>, i: nat)
    requires i < |nodes|
    reads nodes
  {
    nodes[i].next == NextOf(nodes, i) && nodes[i].prev == PrevOf(nodes, i)
  }

  ghost predicate Links(nodes: seq<Node>)
    reads nodes
  {
    forall i | 0 <= i < |nodes| :: LinkAt(nodes, i)
  }

  ghost predicate Carry(nodes: seq<Node>, items: seq<Item>)
    reads nodes`index, nodes`data
  {
    |nodes| == |items| && forall i | 0 <= i < |nodes| :: (nodes[i].index, nodes[i].data) == items[i]
  }

  /** The nodes form an acyclic doubly linked list and carry exactly the items. */
  ghost predicate Chain(l: List)
    reads l.nodes
  {
    Placed(l.nodes, l.place) && Links(l.nodes) && Carry(l.nodes, l.items)
  }

  ghost function Extended(l: List, node: Node, item: Item): List {
    List(l.nodes + [node], l.items + [item], l.place[node := |l.nodes|])
  }

  ghost function Removed(l: List, k: nat): List
    requires k < |l.nodes| == |l.items|
  {
    List(Without(l.nodes, k), Without(l.items, k), Closed(l.place, k))
  }

  ghost function Closed(place: map<Node, nat>, k: nat): map<Node, nat> {
    map n | n in place :: if place[n] > k then place[n] - 1 else place[n]
  }

  lemma PlacedWithout(nodes: seq<Node>, place: map<Node, nat>, k: nat)
    requires Placed(nodes, place) && k < |nodes|
    ensures Placed(Without(nodes, k), Closed(place, k))
  {}

  /** The node the cursor moves to when the k-th is taken out: the one after it, or the first. */
  ghost function Following(nodes: seq<Node>, k: nat): Node? {
    if nodes == [] then null else if k < |nodes| then nodes[k] else nodes[0]
  }

  /** Hangs a node behind the last one. */
  method Attach(node: Node, last: Node?, ghost l: List)
    requires Chain(l) && node !in l.nodes && last == (if l.nodes == [] then null else l.nodes[|l.nodes| - 1])
    modifies node`next, node`prev, l.nodes`next
    ensures Chain(Extended(l, node, (node.index, node.data)))
  {
    ghost var n := |l.nodes|;
    assert n > 0 ==> LinkAt(l.nodes, n - 1);
    node.next := null;
    node.prev := last;
    if last != null { last.next := node; }
    ghost var r := Extended(l, node, (node.index, node.data));
    forall i | 0 <= i < |r.nodes| ensures LinkAt(r.nodes, i) {
      assert i < n ==> old(LinkAt(l.nodes, i));
    }
  }

  /** Makes a node's neighbours point past it. */
  method Relink(node: Node, ghost nodes: seq<Node>, ghost place: map<Node, nat>, ghost k: nat)
    requires Links(nodes) && Placed(nodes, place) && k < |nodes| && nodes[k] == node
    modifies nodes`next, nodes`prev
    ensures Links(Without(nodes, k)) && node.next == old(node.next) && node.prev == old(node.prev)
  {
    assert LinkAt(nodes, k);
    if node.prev != null { node.prev.next := node.next; }
    if node.next != null { node.next.prev := node.prev; }
    ghost var r := Without(nodes, k);
    forall i | 0 <= i < |r| ensures LinkAt(r, i) {
      assert old(LinkAt(nodes, if i < k then i else i + 1));
    }
  }

  method Bypass(node: Node, ghost l: List, ghost k: nat)
    requires Chain(l) && k < |l.nodes| && l.nodes[k] == node
    modifies l.nodes`next, l.nodes`prev
    ensures Chain(Removed(l, k)) && node.next == old(node.next) && node.prev == old(node.prev)
  {
    hide Closed;
    hide Links;
    PlacedWithout(l.nodes, l.place, k);
    Relink(node, l.nodes, l.place, k);
  }

  /** What lies on both sides of the k-th node, in terms of the list without it. */
  ghost predicate Beside(l: List, k: nat, next: Node?, prev: Node?)
    requires k < |l.nodes|
  {
    var r, n := Without(l.nodes, k), l.nodes[k];
    && |r| == |l.nodes| - 1 && (prev == null <==> k == 0) && (next == null <==> k == |r|)
    && (r != [] ==> r[0] == if prev == null then next else l.nodes[0])
    && (r != [] ==> r[|r|-1] == if next == null then prev else l.nodes[|l.nodes|-1])
    && (if next != null then next in r && next == Following(r, k)
        else Following(r, k) == if r == [] then null else r[0])
    && (forall x <- l.nodes :: x in r <==> x != n)
  }

  lemma Neighbours(l: List, k: nat)
    requires Chain(l) && k < |l.nodes|
    ensures Beside(l, k, l.nodes[k].next, l.nodes[k].prev)
  {
    assert LinkAt(l.nodes, k);
    var r := Without(l.nodes, k);
    forall x | x in l.nodes ensures x in r <==> x != l.nodes[k] {
      var i :| 0 <= i < |l.nodes| && l.nodes[i] == x;
      if i < k { assert r[i] == x; } else if i > k { assert r[i - 1] == x; }
    }
  }

  ghost predicate Numbered(items: seq<Item>, next: nat) { Unique(items) && Below(items, next) && next <= MAX }

  lemma NumberedWithout(items: seq<Item>, k: nat, next: nat)
    requires k < |items| && Numbered(items, next)
    ensures Numbered(Without(items, k), next)
  {}

  lemma NumberedMore(items: seq<Item>, item: Item, next: nat, more: nat)
    requires Numbered(items, next) && item.0 !in Indices(items) && item.0 < more <= MAX && next <= more
    ensures Numbered(items + [item], more)
  {}

  class Queue {
    var head: Node?
    var tail: Node?
    var cursor: Node?
    var size: nat
    var nextIndex: nat
    ghost var list: List

    ghost predicate Ends()
      reads this
    {
      var nodes := list.nodes;
      if nodes == [] then head == null && tail == null else head == nodes[0] && tail == nodes[|nodes| - 1]
    }

    /** An acyclic doubly linked list of exactly `size` nodes, the cursor null or one of them. */
    ghost predicate Linked()
      reads this, list.nodes
    {
      Ends() && Chain(list) && size == |list.nodes| && (cursor == null || cursor in list.nodes)
    }

    /** Linked, with distinct indices that all lie below the next one. */
    ghost predicate Valid()
      reads this, list.nodes
    {
      Linked() && Numbered(list.items, nextIndex)
    }

    constructor ()
      ensures Valid() && list.nodes == [] && list.items == [] && nextIndex == 0 && cursor == null
    {
      head, tail, cursor, size, nextIndex, list := null, null, null, 0, 0, List([], [], map[]);
    }

    /** Links a node at the end; an unset cursor starts at the first node. */
    method Append(node: Node)
      requires Linked() && node !in list.nodes
      modifies this`head, this`tail, this`cursor, this`size, this`list, node`next, node`prev, list.nodes`next
      ensures Linked() && list == Extended(old(list), node, (node.index, node.data))
      ensures cursor == if old(cursor) == null then list.nodes[0] else old(cursor)
    {
      hide Chain;
      Attach(node, tail, list);
      if head == null { head := node; }
      tail := node;
      if cursor == null { cursor := head; }
      size := size + 1;
      list := Extended(list, node, (node.index, node.data));
    }

    /** Moves the ends and the cursor off the k-th node and counts it out. */
    method StepOver(node: Node, ghost k: nat)
      requires Ends() && k < |list.nodes| == size == |list.items| && list.nodes[k] == node
      requires Beside(list, k, node.next, node.prev) && (cursor == null || cursor in list.nodes)
      modifies this`head, this`tail, this`cursor, this`size, this`list
      ensures Ends() && list == Removed(old(list), k) && size == |list.nodes|
      ensures cursor == null || cursor in list.nodes
      ensures cursor == if old(cursor) == node then Following(list.nodes, k) else old(cursor)
    {
      hide Closed;
      hide Without;
      hide Following;
      if node.prev == null { head := node.next; }
      if node.next == null { tail := node.prev; }
      if cursor == node { cursor := if node.next != null then node.next else head; }
      size := size - 1;
      list := Removed(list, k);
    }

    /** Unlinks the k-th node and moves the cursor on if it was there. */
    method Unlink(node: Node, ghost k: nat)
      requires Linked() && k < |list.nodes| && list.nodes[k] == node
      modifies this`head, this`tail, this`cursor, this`size, this`list, list.nodes`next, list.nodes`prev
      ensures Linked() && list == Removed(old(list), k)
      ensures cursor == if old(cursor) == node then Following(list.nodes, k) else old(cursor)
    {
      hide Chain;
      hide Closed;
      hide Beside;
      hide Following;
      Lengths(list);
      Neighbours(list, k);
      Bypass(node, list, k);
      StepOver(node, k);
    }

    // ------------------------------------------------------------- searching

    /** The node with an index, if it is queued. */
    method FindIndex(id: nat) returns (n: Node?, ghost k: nat)
      requires Linked()
      ensures n == null ==> id !in Indices(list.items)
      ensures n != null ==> k < |list.nodes| == |list.items| && list.nodes[k] == n && list.items[k].0 == id
    {
      n, k := head, 0;
      while n != null
        invariant 0 <= k <= |list.nodes| && n == (if k < |list.nodes| then list.nodes[k] else null)
        invariant forall i | 0 <= i < k :: list.items[i].0 != id
        decreases |list.nodes| - k
      {
        assert LinkAt(list.nodes, k);
        if n.index == id { return; }
        n, k := n.next, k + 1;
      }
    }

    method FindData(data: nat) returns (n: Node?, ghost k: nat)
      requires Linked()
      ensures n == null ==> forall x <- list.items :: x.1 != data
      ensures n != null ==> k < |list.nodes| == |list.items| && list.nodes[k] == n && list.items[k].1 == data
      ensures n != null ==> forall i | 0 <= i < k :: list.items[i].1 != data
    {
      n, k := head, 0;
      while n != null
        invariant 0 <= k <= |list.nodes| && n == (if k < |list.nodes| then list.nodes[k] else null)
        invariant forall i | 0 <= i < k :: list.items[i].1 != data
        decreases |list.nodes| - k
      {
        assert LinkAt(list.nodes, k);
        if n.data == data { return; }
        n, k := n.next, k + 1;
      }
    }

    method FindNode(node: Node) returns (found: bool, ghost k: nat)
      requires Linked()
      ensures found <==> node in list.nodes
      ensures found ==> k < |list.nodes| == |list.items| && list.nodes[k] == node
    {
      var n := head;
      k := 0;
      while n != null && n != node
        invariant 0 <= k <= |list.nodes| && n == (if k < |list.nodes| then list.nodes[k] else null)
        invariant node !in list.nodes[..k]
        decreases |list.nodes| - k
      {
        assert LinkAt(list.nodes, k);
        n, k := n.next, k + 1;
      }
      found := n != null;
    }

    /** The pointer stored under an index, null when there is none. */
    method Get(index: nat) returns (data: nat)
      requires Valid()
      ensures index in Indices(list.items) ==> (index, data) in list.items
      ensures index !in Indices(list.items) ==> data == 0
    {
      var n, k := FindIndex(index);
      if n == null { return 0; }
      assert list.items[k] == (index, n.data);
      data := n.data;
    }

    // ------------------------------------------------------------- enqueuing

    /** Takes the next number and appends the node under it. */
    method Publish(data: nat, node: Node) returns (index: nat)
      requires Valid() && (nextIndex != MAX ==> node !in list.nodes)
      modifies this, node, list.nodes`next
      ensures Valid() && (index == MAX <==> old(nextIndex) == MAX)
      ensures index == MAX ==> list == old(list) && nextIndex == MAX && cursor == old(cursor)
      ensures index != MAX ==> index == old(nextIndex) && nextIndex == index + 1
      ensures index != MAX ==> list == Extended(old(list), node, (index, data))
      ensures index != MAX ==> cursor == if old(cursor) == null then list.nodes[0] else old(cursor)
    {
      hide Chain;
      hide Numbered;
      if nextIndex == MAX { return MAX; }
      index := nextIndex;
      NextIsNew(list.items, nextIndex);
      NumberedMore(list.items, (index, data), nextIndex, nextIndex + 1);
      nextIndex := nextIndex + 1;
      node.data := data;
      node.index := index;
      Append(node);
    }

    method Enqueue(data: nat) returns (index: nat)
      requires Valid()
      modifies this, list.nodes`next
      ensures Valid() && (index == MAX <==> old(nextIndex) == MAX)
      ensures index == MAX ==> list == old(list) && nextIndex == MAX && cursor == old(cursor)
      ensures index != MAX ==> index == old(nextIndex) && nextIndex == index + 1
      ensures index != MAX ==> exists n :: fresh(n) && list == Extended(old(list), n, (index, data))
      ensures index != MAX ==> cursor == if old(cursor) == null then list.nodes[0] else old(cursor)
    {
      assert allocated(list.nodes);
      var node := new Node(data);
      assert Valid();
      index := Publish(data, node);
    }

    /** As Enqueue, and hands out the node itself. */
    method EnqueueRef(data: nat) returns (index: nat, out: Node?)
      requires Valid()
      modifies this, list.nodes`next
      ensures Valid() && (index == MAX <==> old(nextIndex) == MAX) && (index == MAX <==> out == null)
      ensures index == MAX ==> list == old(list) && nextIndex == MAX
      ensures out != null ==> fresh(out) && index == old(nextIndex) && nextIndex == index + 1
      ensures out != null ==> list == Extended(old(list), out, (index, data))
    {
      assert allocated(list.nodes);
      var node := new Node(data);
      assert Valid();
      index := Publish(data, node);
      out := if index == MAX then null else node;
    }

    /** Appends under a given index, taking the next number past it. */
    method Add(data: nat, id: nat)
      requires Valid() && id !in Indices(list.items) && id < MAX
      modifies this, list.nodes`next
      ensures Valid() && exists n :: fresh(n) && list == Extended(old(list), n, (id, data))
      ensures cursor == if old(cursor) == null then list.nodes[0] else old(cursor)
      ensures nextIndex == if id >= old(nextIndex) then id + 1 else old(nextIndex)
    {
      hide Chain;
      hide Numbered;
      assert allocated(list.nodes);
      var node := new Node(data);
      node.index := id;
      NextIsNew(list.items, nextIndex);
      NumberedMore(list.items, (id, data), nextIndex, if id >= nextIndex then id + 1 else nextIndex);
      Append(node);
      if id >= nextIndex { nextIndex := id + 1; }
    }

    /** Searches upwards for the least index not in use; with n nodes queued it is at most n. */
    method LowestFree() returns (id: nat)
      requires Valid()
      ensures id <= |list.items| && id <= MAX && id !in Indices(list.items)
      ensures forall j | 0 <= j < id :: j in Indices(list.items)
    {
      hide Chain;
      hide Numbered;
      id := 0;
      assert allocated(list.nodes);
      while true
        invariant Valid() && forall j | 0 <= j < id :: j in Indices(list.items)
        decreases |list.items| - id
      {
        var n, k := FindIndex(id);
        if n == null { break; }
        assert list.items[k].0 == id;
        AllTaken(list.items, id + 1);
        id := id + 1;
      }
      AllTaken(list.items, id);
      BelowMax(list.items, nextIndex, id);
    }

    /** Appends under the least index not in use. */
    method EnqueueLowest(data: nat) returns (id: nat)
      requires Valid()
      modifies this, list.nodes`next
      ensures Valid() && id <= |old(list.items)| && id !in Indices(old(list.items))
      ensures forall j | 0 <= j < id :: j in Indices(old(list.items))
      ensures id == MAX ==> list == old(list) && nextIndex == old(nextIndex) && cursor == old(cursor)
      ensures id != MAX ==> exists n :: fresh(n) && list == Extended(old(list), n, (id, data))
      ensures id != MAX ==> cursor == if old(cursor) == null then list.nodes[0] else old(cursor)
      ensures id != MAX ==> nextIndex == if id >= old(nextIndex) then id + 1 else old(nextIndex)
    {
      hide Chain;
      hide Numbered;
      assert allocated(list.nodes);
      id := LowestFree();
      if id == MAX { return; }
      Add(data, id);
    }

    /** Appends under an index of the caller's choice, refused when it is in use. */
    method EnqueueId(data: nat, id: nat) returns (r: nat)
      requires Valid() && id <= MAX
      modifies this, list.nodes`next
      ensures Valid() && r == if id == MAX || id in Indices(old(list.items)) then MAX else id
      ensures r == MAX ==> list == old(list) && nextIndex == old(nextIndex) && cursor == old(cursor)
      ensures r != MAX ==> exists n :: fresh(n) && list == Extended(old(list), n, (id, data))
      ensures r != MAX ==> cursor == if old(cursor) == null then list.nodes[0] else old(cursor)
      ensures r != MAX ==> nextIndex == if id >= old(nextIndex) then id + 1 else old(nextIndex)
    {
      if id == MAX { return MAX; }
      var n, k := FindIndex(id);
      if n != null {
        assert list.items[k].0 == id;
        return MAX;
      }
      Add(data, id);
      r := id;
    }

    // -------------------------------------------------------------- removing

    /** Takes the k-th node out; an unset cursor is set on the way. */
    method RemoveLocked(node: Node, ghost k: nat) returns (data: nat)
      requires Valid() && k < |list.nodes| && list.nodes[k] == node
      modifies this, list.nodes`next, list.nodes`prev
      ensures Valid() && |old(list.items)| == |old(list.nodes)| && data == old(list.items)[k].1
      ensures list == Removed(old(list), k) && nextIndex == old(nextIndex)
      ensures cursor == if old(cursor) == node || old(cursor) == null then Following(list.nodes, k) else old(cursor)
    {
      hide Chain;
      hide Numbered;
      hide Closed;
      hide Without;
      hide Following;
      ItemAt(list, k);
      Neighbours(list, k);
      var nextCursor := if node.next != null then node.next else head;
      NumberedWithout(list.items, k, nextIndex);
      data := node.data;
      Unlink(node, k);
      if head == null {
        tail, cursor := null, null;
      } else if cursor == null {
        cursor := if nextCursor != null then nextCursor else head;
      }
    }

    method RemoveAt(index: nat) returns (data: nat)
      requires Valid()
      modifies this, list.nodes`next, list.nodes`prev
      ensures Valid() && nextIndex == old(nextIndex)
      ensures index !in Indices(old(list.items)) ==> list == old(list) && data == 0
      ensures index in Indices(old(list.items)) ==>
                exists k | 0 <= k < |old(list.items)| == |old(list.nodes)| ::
                  old(list.items)[k] == (index, data) && list == Removed(old(list), k)
    {
      var n, k := FindIndex(index);
      if n == null { return 0; }
      assert list.items[k].0 in Indices(list.items);
      data := RemoveLocked(n, k);
      assert old(list.items)[k] == (index, data);
    }

    method RemoveData(data: nat) returns (r: nat)
      requires Valid()
      modifies this, list.nodes`next, list.nodes`prev
      ensures Valid() && nextIndex == old(nextIndex)
      ensures data == 0 || (forall x <- old(list.items) :: x.1 != data) ==> list == old(list) && r == 0
      ensures data != 0 && (exists x <- old(list.items) :: x.1 == data) ==> r == data
      ensures data != 0 && (exists x <- old(list.items) :: x.1 == data) ==>
                exists k | 0 <= k < |old(list.items)| == |old(list.nodes)| ::
                  FirstData(old(list.items), data, k) && list == Removed(old(list), k)
    {
      if data == 0 { return 0; }
      var n, k := FindData(data);
      if n == null { return 0; }
      assert list.items[k] in list.items;
      r := RemoveLocked(n, k);
    }

    method RemoveNode(node: Node) returns (data: nat)
      requires Valid()
      modifies this, list.nodes`next, list.nodes`prev
      ensures Valid() && nextIndex == old(nextIndex)
      ensures node !in old(list.nodes) ==> list == old(list) && data == 0
      ensures node !in list.nodes
      ensures node in old(list.nodes) ==>
                exists k | 0 <= k < |old(list.nodes)| == |old(list.items)| ::
                     old(list.nodes)[k] == node && data == old(list.items)[k].1 && list == Removed(old(list), k)
    {
      var found, k := FindNode(node);
      if !found { return 0; }
      Neighbours(list, k);
      data := RemoveLocked(node, k);
    }

    /** Takes back a node that was published with caller-owned storage; its links are cleared. */
    method DetachPreallocated(node: Node) returns (ok: bool)
      requires Valid()
      modifies this, list.nodes`next, list.nodes`prev
      ensures Valid() && nextIndex == old(nextIndex) && ok == (node in old(list.nodes))
      ensures !ok ==> list == old(list) && cursor == old(cursor)
      ensures ok ==> node !in list.nodes && node.next == null && node.prev == null
      ensures ok ==>
                exists k | 0 <= k < |old(list.nodes)| == |old(list.items)| ::
                  old(list.nodes)[k] == node && list == Removed(old(list), k)
    {
      hide Chain;
      hide Numbered;
      hide Closed;
      hide Without;
      assert allocated(list.nodes);
      var found, k := FindNode(node);
      if !found { return false; }
      Neighbours(list, k);
      NumberedWithout(list.items, k, nextIndex);
      Clear(node, k);
      ok := true;
    }

    method Clear(node: Node, ghost k: nat)
      requires Linked() && k < |list.nodes| == |list.items| && list.nodes[k] == node && node !in Without(list.nodes, k)
      modifies this`head, this`tail, this`cursor, this`size, this`list, list.nodes`next, list.nodes`prev
      ensures Linked() && list == Removed(old(list), k) && node.next == null && node.prev == null
    {
      hide Chain;
      hide Closed;
      hide Without;
      Unlink(node, k);
      node.next, node.prev := null, null;
    }

    /** Takes the oldest node. */
    method Dequeue() returns (data: nat)
      requires Valid()
      modifies this, list.nodes`next, list.nodes`prev
      ensures Valid() && nextIndex == old(nextIndex)
      ensures old(list.items) == [] ==> list == old(list) && data == 0
      ensures old(list.items) != [] ==> data == old(list.items)[0].1 && list.items == old(list.items)[1..]
      ensures old(list.items) != [] ==> |old(list.nodes)| > 0 && list.nodes == old(list.nodes)[1..]
    {
      hide Chain;
      hide Numbered;
      hide Closed;
      Lengths(list);
      if head == null { return 0; }
      ItemAt(list, 0);
      data := head.data;
      NumberedWithout(list.items, 0, nextIndex);
      Unlink(head, 0);
      assert old(list.items)[..0] + old(list.items)[1..] == old(list.items)[1..];
      assert old(list.nodes)[..0] + old(list.nodes)[1..] == old(list.nodes)[1..];
    }

    /** A second queue with the same indices in the same order, its cursor unset. */
    method Copy(copy: nat -> nat) returns (q: Queue)
      requires Valid()
      ensures q.Valid() && fresh(q) && q.cursor == null && q.nextIndex == nextIndex
      ensures q.list.items == Copied(list.items, copy, |list.items|) && fresh(q.list.nodes)
    {
      hide Chain;
      hide Numbered;
      hide NextOf;
      hide PrevOf;
      hide Copied;
      Lengths(list);
      CopiedNumbered(list.items, copy, nextIndex);
      assert allocated(list.nodes);
      q := new Queue();
      var current := head;
      ghost var k := 0;
      while current != null
        invariant 0 <= k <= |list.nodes| && current == (if k < |list.nodes| then list.nodes[k] else null)
        invariant Chain(list) && fresh(q) && q.Ends() && Chain(q.list) && q.cursor == null
        invariant fresh(q.list.nodes)
        invariant q.list.items == Copied(list.items, copy, k)
        decreases |list.nodes| - k
      {
        NextAt(list, k);
        ItemAt(list, k);
        CopiedMore(list.items, copy, k);
        var index, data, next := current.index, copy(current.data), current.next;
        q.Adopt(index, data);
        current, k := next, k + 1;
      }
      Lengths(q.list);
      q.size := size;
      q.nextIndex := nextIndex;
    }

    /** Links a new node at the end without touching the cursor or the count. */
    method Adopt(index: nat, data: nat)
      requires Ends() && Chain(list)
      modifies this`head, this`tail, this`list, list.nodes`next
      ensures Ends() && Chain(list) && list.items == old(list.items) + [(index, data)]
      ensures exists n :: fresh(n) && list.nodes == old(list.nodes) + [n]
    {
      hide Chain;
      assert allocated(list.nodes);
      var node := new Node(data);
      node.index := index;
      Attach(node, tail, list);
      if head == null { head := node; }
      tail := node;
      list := Extended(list, node, (node.index, node.data));
      assert fresh(node) && list.nodes == old(list.nodes) + [node];
    }
  }

  function Copied(items: seq<Item>, copy: nat -> nat, n: nat): (r: seq<Item>)
    requires n <= |items|
    ensures |r| == n && forall i | 0 <= i < n :: r[i] == (items[i].0, copy(items[i].1))
  {
    if n == 0 then [] else Copied(items, copy, n - 1) + [(items[n-1].0, copy(items[n-1].1))]
  }

  lemma CopiedMore(items: seq<Item>, copy: nat -> nat, n: nat)
    requires n < |items|
    ensures Copied(items, copy, n + 1) == Copied(items, copy, n) + [(items[n].0, copy(items[n].1))]
  {}

  lemma CopiedNumbered(items: seq<Item>, copy: nat -> nat, next: nat)
    requires Numbered(items, next)
    ensures Numbered(Copied(items, copy, |items|), next)
  {}

  // --------------------------------------------------------------- first in, first out

  datatype Call = Put(data: nat) | Take

  /** Items queued, the next index, the pointers accepted and the pointers handed back. */
  datatype Trace = Trace(items: seq<Item>, next: nat, accepted: seq<nat>, taken: seq<nat>)

  /** Enqueue and Dequeue as their contracts describe them. */
  function Do(t: Trace, c: Call): Trace {
    match c
    case Put(data) =>
      if t.next == MAX then t
      else t.(items := t.items + [(t.next, data)], next := t.next + 1, accepted := t.accepted + [data])
    case Take => if t.items == [] then t else t.(items := t.items[1..], taken := t.taken + [t.items[0].1])
  }

  function DoAll(calls: seq<Call>): Trace {
    if calls == [] then Trace([], 0, [], []) else Do(DoAll(calls[..|calls|-1]), calls[|calls|-1])
  }

  function Pointers(items: seq<Item>): (r: seq<nat>)
    ensures |r| == |items| && forall i | 0 <= i < |r| :: r[i] == items[i].1
  {
    if items == [] then [] else [items[0].1] + Pointers(items[1..])
  }

  /** Pointers leave in the order they came, and the queued nodes are numbered consecutively. */
  lemma {:induction false} FirstInFirstOut(calls: seq<Call>)
    ensures var t := DoAll(calls); t.taken + Pointers(t.items) == t.accepted && t.next == |t.accepted| <= MAX
    ensures var t := DoAll(calls); forall i | 0 <= i < |t.items| :: t.items[i].0 == |t.taken| + i
  {
    if calls != [] { FirstInFirstOut(calls[..|calls|-1]); }
  }

  ghost function NodeSet(nodes: seq<Node>): set<Node> { set n <- nodes }

  /** One call on a real queue is one step of the trace; `got` holds the pointer handed back, if any. */
  method Perform(q: Queue, c: Call, ghost t: Trace) returns (got: seq<nat>)
    requires q.Valid() && q.list.items == t.items && q.nextIndex == t.next
    modifies q, NodeSet(q.list.nodes)
    ensures q.Valid() && q.list.items == Do(t, c).items && q.nextIndex == Do(t, c).next
    ensures t.taken + got == Do(t, c).taken
    ensures fresh(NodeSet(q.list.nodes) - old(NodeSet(q.list.nodes)))
  {
    hide Chain;
    hide Numbered;
    hide Links;
    got := [];
    match c
    case Put(data) => var _ := q.Enqueue(data);
    case Take =>
      Lengths(q.list);
      var held := q.size > 0;
      var data := q.Dequeue();
      if held { got := [data]; }
  }

  /** The calls made on a real queue: what it holds and what it handed back are as in the trace. */
  method RunCalls(calls: seq<Call>) returns (q: Queue, taken: seq<nat>)
    ensures fresh(q) && q.Valid() && q.list.items == DoAll(calls).items && q.nextIndex == DoAll(calls).next
    ensures taken == DoAll(calls).taken && taken + Pointers(q.list.items) == DoAll(calls).accepted
  {
    hide Chain;
    hide Numbered;
    hide Links;
    hide Do;
    hide Pointers;
    q := new Queue();
    taken := [];
    for i := 0 to |calls|
      invariant fresh(q) && q.Valid() && fresh(NodeSet(q.list.nodes))
      invariant q.list.items == DoAll(calls[..i]).items && q.nextIndex == DoAll(calls[..i]).next
      invariant taken == DoAll(calls[..i]).taken
    {
      DoneSoFar(calls, i);
      var got := Perform(q, calls[i], DoAll(calls[..i]));
      taken := taken + got;
    }
    assert calls[..|calls|] == calls;
    FirstInFirstOut(calls);
  }

  lemma DoneSoFar(calls: seq<Call>, i: nat)
    requires i < |calls|
    ensures DoAll(calls[..i + 1]) == Do(DoAll(calls[..i]), calls[i])
  {
    assert calls[..i + 1][..i] == calls[..i];
  }

  /** The k-th item is the first that carries this pointer. */
  ghost predicate FirstData(items: seq<Item>, data: nat, k: nat) {
    k < |items| && items[k].1 == data && forall i | 0 <= i < k :: items[i].1 != data
  }

  lemma NextIsNew(items: seq<Item>, next: nat)
    requires Numbered(items, next)
    ensures next !in Indices(items) && next <= MAX
  {}

  lemma BelowMax(items: seq<Item>, next: nat, id: nat)
    requires Numbered(items, next) && forall j | 0 <= j < id :: j in Indices(items)
    ensures id <= MAX
  {
    assert MAX !in Indices(items);
  }

  lemma NextAt(l: List, k: nat)
    requires Chain(l) && k < |l.nodes|
    ensures l.nodes[k].next == if k + 1 < |l.nodes| then l.nodes[k + 1] else null
  {
    assert LinkAt(l.nodes, k);
  }

  lemma ItemAt(l: List, k: nat)
    requires Chain(l) && k < |l.nodes|
    ensures |l.nodes| == |l.items| && (l.nodes[k].index, l.nodes[k].data) == l.items[k]
  {}

  lemma Lengths(l: List)
    requires Chain(l)
    ensures |l.nodes| == |l.items|
  {}
}
