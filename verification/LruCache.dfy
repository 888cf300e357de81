/** The LRU cache of mt-manager: a map from ids to the nodes of a doubly linked list, most recent first. */
module LruCache {
  import opened Words

  type Id = x: int | 0 <= x <= U64_MAX

  /** The cache on values: distinct ids with their values, most recent first. */
  type Entries<T> = seq<(Id, T)>

  function Without<T>(es: Entries<T>, id: Id): (r: Entries<T>)
    ensures |r| <= |es|
  {
    if es == [] then [] else (if es[0].0 == id then [] else [es[0]]) + Without(es[1..], id)
  }

  /** The first n entries: what is left when the least recent ones are evicted. */
  function Newest<T>(es: Entries<T>, n: nat): (r: Entries<T>)
    ensures |r| == if n < |es| then n else |es|
  {
    if n < |es| then es[..n] else es
  }

  class Node<T> {
    const id: Id
    var value: T
    var prev: Node?<T>
    var next: Node?<T>

    constructor (id: Id, value: T)
      ensures this.id == id && this.value == value && prev == null && next == null
    {
      this.id, this.value := id, value;
      prev, next := null, null;
    }
  }

  ghost function EntriesOf<T>(list: seq<Node<T>>): (es: Entries<T>)
    reads list
    ensures |es| == |list| && forall i :: 0 <= i < |list| ==> es[i] == (list[i].id, list[i].value)
  {
    if list == [] then [] else [(list[0].id, list[0].value)] + EntriesOf(list[1..])
  }

  /** The node at a position, null outside of the list. */
  ghost function At<T>(list: seq<Node<T>>, i: int): Node?<T> {
    if 0 <= i < |list| then list[i] else null
  }

  /** Forward and back links mirror the list, from head to tail. */
  ghost predicate Linked<T>(list: seq<Node<T>>, head: Node?<T>, tail: Node?<T>)
    reads list
  {
    && head == At(list, 0) && tail == At(list, |list| - 1)
    && forall i :: 0 <= i < |list| ==> list[i].prev == At(list, i - 1) && list[i].next == At(list, i + 1)
  }

  function Cut<T>(list: seq<T>, i: nat): seq<T>
    requires i < |list|
  {
    list[..i] + list[i + 1..]
  }

  lemma AtCut<T>(list: seq<Node<T>>, i: nat, k: int)
    requires i < |list|
    ensures At(Cut(list, i), k) == At(list, if k < i then k else k + 1)
    ensures 0 <= k < |list| - 1 ==> Cut(list, i)[k] == list[if k < i then k else k + 1]
  {
  }

  lemma AtEnds<T>(list: seq<Node<T>>, i: nat)
    requires i < |list|
    ensures i > 0 ==> At(list, i - 1) == list[i - 1]
    ensures i < |list| - 1 ==> At(list, i + 1) == list[i + 1]
    ensures At(list, -1) == null && At(list, |list|) == null
    ensures At(list, 0) == list[0] && At(list, |list| - 1) == list[|list| - 1]
  {
  }

  ghost predicate NextsWithout<T>(list: seq<Node<T>>, i: nat)
    reads list
  {
    forall k :: 0 <= k < |list| && k != i ==> list[k].next == At(list, if k == i - 1 then i + 1 else k + 1)
  }

  ghost predicate PrevsWithout<T>(list: seq<Node<T>>, i: nat)
    reads list
  {
    forall k :: 0 <= k < |list| && k != i ==> list[k].prev == At(list, if k == i + 1 then i - 1 else k - 1)
  }

  /** Bridging the neighbours of a node links the list without it. */
  lemma LinkedCut<T>(list: seq<Node<T>>, i: nat)
    requires i < |list|
    requires NextsWithout(list, i) && PrevsWithout(list, i)
    ensures Linked(Cut(list, i), At(list, if i == 0 then 1 else 0),
      At(list, if i == |list| - 1 then i - 1 else |list| - 1))
  {
    hide At, Cut;
    AtCut(list, i, 0);
    AtCut(list, i, |list| - 2);
    assert |Cut(list, i)| == |list| - 1 by { CutLength(list, i); }
    forall k | 0 <= k < |list| - 1
      ensures Cut(list, i)[k].prev == At(Cut(list, i), k - 1) && Cut(list, i)[k].next == At(Cut(list, i), k + 1)
    {
      AtCut(list, i, k - 1);
      AtCut(list, i, k);
      AtCut(list, i, k + 1);
    }
  }

  lemma CutEnd<T>(list: seq<T>)
    requires list != []
    ensures Cut(list, |list| - 1) == list[..|list| - 1]
  {
  }

  lemma CutAt<T>(list: seq<T>, i: nat, k: nat)
    requires i < |list| && k < |list| - 1
    ensures |Cut(list, i)| == |list| - 1 && Cut(list, i)[k] == list[if k < i then k else k + 1]
  {
  }

  lemma CutLength<T>(list: seq<T>, i: nat)
    requires i < |list|
    ensures |Cut(list, i)| == |list| - 1
  {
  }

  /** Hooking a node before the head links the longer list. */
  lemma LinkedCons<T>(node: Node<T>, list: seq<Node<T>>)
    requires node.prev == null && node.next == At(list, 0)
    requires forall k :: 0 <= k < |list| ==>
      list[k].next == At(list, k + 1) && list[k].prev == if k == 0 then node else At(list, k - 1)
    ensures Linked([node] + list, node, if list == [] then node else At(list, |list| - 1))
  {
    var c := [node] + list;
    forall k | 0 <= k < |c| ensures c[k].prev == At(c, k - 1) && c[k].next == At(c, k + 1) {
      if k > 0 { assert c[k] == list[k - 1]; }
    }
  }

  ghost predicate Distinct<T>(list: seq<Node<T>>) {
    forall i, j :: 0 <= i < j < |list| ==> list[i] != list[j] && list[i].id != list[j].id
  }

  /** The map leads from exactly the ids of the list to their nodes. */
  ghost predicate Indexed<T>(cache: map<Id, Node<T>>, list: seq<Node<T>>) {
    && (forall n :: n in list ==> n.id in cache && cache[n.id] == n)
    && (forall id :: id in cache ==> cache[id] in list && cache[id].id == id)
  }

  // ---------------------------------------------------------------- lists, entries and the map

  ghost function PositionOf<T>(list: seq<Node<T>>, node: Node<T>): (i: nat)
    requires node in list
    ensures i < |list| && list[i] == node
  {
    var i :| 0 <= i < |list| && list[i] == node;
    i
  }

  lemma CutFacts<T>(cache: map<Id, Node<T>>, list: seq<Node<T>>, i: nat)
    requires Distinct(list) && Indexed(cache, list) && i < |list|
    ensures Distinct(Cut(list, i)) && Indexed(cache - {list[i].id}, Cut(list, i)) && list[i] !in Cut(list, i)
    ensures forall n :: n in Cut(list, i) ==> n in list && n.id != list[i].id
  {
    var c := Cut(list, i);
    assert forall k :: 0 <= k < |c| ==> c[k] == list[if k < i then k else k + 1];
    forall n | n in list && n != list[i] ensures n in c {
      var k := PositionOf(list, n);
      assert c[if k < i then k else k - 1] == n;
    }
  }

  lemma ConsFacts<T>(cache: map<Id, Node<T>>, list: seq<Node<T>>, node: Node<T>)
    requires Distinct(list) && Indexed(cache, list) && node.id !in cache
    ensures Distinct([node] + list) && Indexed(cache[node.id := node], [node] + list)
  {
    assert ([node] + list)[0] == node && ([node] + list)[1..] == list;
  }

  lemma {:induction false} MapSize<T>(cache: map<Id, Node<T>>, list: seq<Node<T>>)
    requires Distinct(list) && Indexed(cache, list)
    ensures |cache| == |list|
  {
    if list == [] {
      assert cache == map[];
    } else {
      CutFacts(cache, list, 0);
      assert Cut(list, 0) == list[1..];
      MapSize(cache - {list[0].id}, list[1..]);
      assert cache.Keys == (cache - {list[0].id}).Keys + {list[0].id};
    }
  }

  lemma {:induction false} WithoutAbsent<T>(es: Entries<T>, id: Id)
    requires forall e :: e in es ==> e.0 != id
    ensures Without(es, id) == es
  {
    if es != [] { WithoutAbsent(es[1..], id); }
  }

  lemma {:induction false} WithoutAt<T>(es: Entries<T>, i: nat)
    requires i < |es| && forall j :: 0 <= j < |es| && j != i ==> es[j].0 != es[i].0
    ensures Without(es, es[i].0) == Cut(es, i)
  {
    if i == 0 {
      assert Cut(es, 0) == es[1..];
      WithoutAbsent(es[1..], es[0].0);
    } else {
      WithoutAt(es[1..], i - 1);
      assert Cut(es, i) == [es[0]] + Cut(es[1..], i - 1);
    }
  }

  /** Cutting a node out removes its id from the entries. */
  lemma EntriesCut<T>(list: seq<Node<T>>, i: nat)
    requires Distinct(list) && i < |list|
    ensures EntriesOf(Cut(list, i)) == Without(EntriesOf(list), list[i].id)
  {
    hide EntriesOf, Without, Cut;
    WithoutAt(EntriesOf(list), i);
    CutLength(list, i);
    CutLength(EntriesOf(list), i);
    var es, c := EntriesOf(list), Cut(list, i);
    forall k | 0 <= k < |list| - 1 ensures EntriesOf(c)[k] == Cut(es, i)[k] {
      CutAt(list, i, k);
      CutAt(es, i, k);
    }
    assert EntriesOf(c) == Cut(es, i);
  }

  lemma EntriesCons<T>(node: Node<T>, list: seq<Node<T>>)
    ensures EntriesOf([node] + list) == [(node.id, node.value)] + EntriesOf(list)
  {
    assert ([node] + list)[1..] == list;
  }

  /** The first entry already comes first. */
  lemma HeadFirst<T>(list: seq<Node<T>>)
    requires list != [] && Distinct(list)
    ensures EntriesOf(list) == [(list[0].id, list[0].value)] + Without(EntriesOf(list), list[0].id)
  {
    var es := EntriesOf(list);
    WithoutAt(es, 0);
    assert es == [es[0]] + Cut(es, 0);
  }

  lemma LastWithout<T>(list: seq<Node<T>>)
    requires list != [] && Distinct(list)
    ensures Without(EntriesOf(list), list[|list| - 1].id) == EntriesOf(list)[..|list| - 1]
  {
    hide EntriesOf, Without;
    var es := EntriesOf(list);
    WithoutAt(es, |es| - 1);
    assert es[..|es| - 1] + es[|es|..] == es[..|es| - 1];
  }

  function Lookup<T>(es: Entries<T>, id: Id): Option<T> {
    if es == [] then None else if es[0].0 == id then Some(es[0].1) else Lookup(es[1..], id)
  }

  lemma {:induction false} LookupAt<T>(es: Entries<T>, i: nat)
    requires i < |es| && forall j :: 0 <= j < i ==> es[j].0 != es[i].0
    ensures Lookup(es, es[i].0) == Some(es[i].1)
  {
    if i > 0 { LookupAt(es[1..], i - 1); }
  }

  lemma {:induction false} LookupAbsent<T>(es: Entries<T>, id: Id)
    requires forall e :: e in es ==> e.0 != id
    ensures Lookup(es, id) == None
  {
    if es != [] { LookupAbsent(es[1..], id); }
  }

  class Lru<T> {
    var cache: map<Id, Node<T>>
    var head: Node?<T>
    var tail: Node?<T>
    var capacity: nat
    /** The nodes from head to tail. */
    ghost var list: seq<Node<T>>

    /** List and map agree. */
    ghost predicate Threaded()
      reads this, list
    {
      Linked(list, head, tail) && Distinct(list) && Indexed(cache, list)
    }

    ghost predicate Valid()
      reads this, list
    {
      Threaded() && |list| <= capacity
    }

    ghost function Contents(): Entries<T>
      reads this, list
    {
      EntriesOf(list)
    }

    constructor (capacity: nat)
      ensures Valid() && Contents() == [] && this.capacity == capacity && list == []
    {
      cache := map[];
      head, tail, list := null, null, [];
      this.capacity := capacity;
    }

    /** The first half of `removeNode`: the predecessor, or the head, skips the node. */
    method BridgeForward(node: Node<T>, ghost l: seq<Node<T>>, ghost i: nat)
      requires Linked(l, head, tail) && Distinct(l) && i < |l| && l[i] == node
      modifies this`head, l`next
      ensures head == At(l, if i == 0 then 1 else 0) && NextsWithout(l, i) && node.next == old(node.next)
    {
      AtEnds(l, i);
      hide At;
      if node.prev != null {
        node.prev.next := node.next;
      } else {
        head := node.next;
      }
    }

    /** The second half: the successor, or the tail, skips the node. */
    method BridgeBackward(node: Node<T>, ghost l: seq<Node<T>>, ghost i: nat)
      requires Distinct(l) && i < |l| && l[i] == node && tail == At(l, |l| - 1) && node.next == At(l, i + 1)
      requires forall k :: 0 <= k < |l| ==> l[k].prev == At(l, k - 1)
      modifies this`tail, l`prev
      ensures tail == At(l, if i == |l| - 1 then i - 1 else |l| - 1) && PrevsWithout(l, i)
    {
      AtEnds(l, i);
      hide At;
      if node.next != null {
        node.next.prev := node.prev;
      } else {
        tail := node.prev;
      }
    }

    /** `removeNode`: the node at position i leaves the list. */
    method RemoveNode(node: Node<T>, ghost i: nat)
      requires Linked(list, head, tail) && Distinct(list) && i < |list| && list[i] == node
      modifies this`head, this`tail, this`list, list
      ensures list == Cut(old(list), i) && Linked(list, head, tail)
      ensures forall n :: n in old(list) ==> n.value == old(n.value)
    {
      hide At, Cut, Distinct;
      BridgeForward(node, list, i);
      BridgeBackward(node, list, i);
      LinkedCut(list, i);
      list := Cut(list, i);
    }

    /** `addToHead` */
    method AddToHead(node: Node<T>)
      requires Linked(list, head, tail) && Distinct(list) && node !in list
      modifies this`head, this`tail, this`list, list, node
      ensures list == [node] + old(list) && Linked(list, head, tail)
      ensures node.value == old(node.value) && forall n :: n in old(list) ==> n.value == old(n.value)
    {
      ghost var l := list;
      node.next := head;
      node.prev := null;
      if head != null {
        head.prev := node;
      }
      head := node;
      if tail == null {
        tail := node;
      }
      LinkedCons(node, l);
      list := [node] + l;
    }

    /** A node of the list leaves the list and the map. */
    method Drop(node: Node<T>, ghost i: nat)
      requires Threaded() && i < |list| && list[i] == node
      modifies this`head, this`tail, this`list, this`cache, list
      ensures Threaded() && Contents() == Without(old(Contents()), node.id) && cache == old(cache) - {node.id}
      ensures list == Cut(old(list), i) && |list| == old(|list|) - 1 && forall n :: n in list ==> n in old(list)
      ensures node.value == old(node.value) && forall n :: n in old(list) ==> n.value == old(n.value)
    {
      hide At, Cut, Distinct, Indexed, Without, EntriesOf;
      ghost var l := list;
      CutFacts(cache, list, i);
      CutLength(list, i);
      EntriesCut(list, i);
      cache := cache - {node.id};
      RemoveNode(node, i);
      EntriesSame(l, i);
    }

    twostate lemma EntriesSame(l: seq<Node<T>>, new i: nat)
      requires i < |l| && forall n :: n in Cut(l, i) ==> n.value == old(n.value)
      ensures EntriesOf(Cut(l, i)) == old(EntriesOf(Cut(l, i)))
    {
      hide EntriesOf;
    }

    /** What the map says about an id is what the entries say. */
    lemma Known(id: Id)
      requires Threaded()
      ensures if id in cache
              then cache[id] in list && cache[id].id == id && Lookup(Contents(), id) == Some(cache[id].value)
              else (forall n :: n in list ==> n.id != id) && (forall e :: e in Contents() ==> e.0 != id)
                   && Lookup(Contents(), id) == None
    {
      hide EntriesOf;
      if id in cache {
        LookupAt(Contents(), PositionOf(list, cache[id]));
      } else {
        LookupAbsent(Contents(), id);
      }
    }

    twostate lemma SameLinks()
      requires old(Linked(list, head, tail)) && list == old(list) && head == old(head) && tail == old(tail)
      requires forall n :: n in list ==> n.prev == old(n.prev) && n.next == old(n.next)
      ensures Linked(list, head, tail)
    {
      hide At;
    }

    /** `moveToHead` */
    method MoveToHead(node: Node<T>)
      requires Threaded() && node in list
      modifies this`head, this`tail, this`list, list
      ensures Threaded() && Contents() == [(node.id, node.value)] + Without(old(Contents()), node.id)
      ensures |list| == old(|list|) && node.value == old(node.value) && forall n :: n in list ==> n in old(list)
    {
      hide At, Cut, Distinct, Indexed, Without, EntriesOf;
      ghost var i, l := PositionOf(list, node), list;
      CutFacts(cache, l, i);
      EntriesCut(l, i);
      CutLength(l, i);
      AtEnds(l, i);
      if node == head {
        HeadFirst(l);
        return;
      }
      RemoveNode(node, i);
      AddToHead(node);
      EntriesSame(l, i);
      ConsFacts(cache - {node.id}, Cut(l, i), node);
      assert (cache - {node.id})[node.id := node] == cache by { MapBack(l, node); }
      EntriesCons(node, Cut(l, i));
    }

    lemma MapBack(l: seq<Node<T>>, node: Node<T>)
      requires Indexed(cache, l) && node in l
      ensures (cache - {node.id})[node.id := node] == cache
    {
    }

    /** The last node leaves the list and the map. */
    method DropLast()
      requires Threaded() && list != []
      modifies this`head, this`tail, this`list, this`cache, list
      ensures Threaded() && Contents() == Without(old(Contents()), old(list[|list| - 1].id))
        && list == old(list[..|list| - 1])
    {
      hide Distinct, Indexed, Without, EntriesOf, Linked;
      ghost var l := list;
      CutEnd(list);
      LinkedEnds();
      Drop(tail, |list| - 1);
    }

    lemma LinkedEnds()
      requires Linked(list, head, tail) && list != []
      ensures head == list[0] && tail == list[|list| - 1]
    {
      AtEnds(list, 0);
      hide At;
    }

    /** `removeTail`: the least recent entry goes. */
    method RemoveTail()
      requires Threaded()
      modifies this`head, this`tail, this`list, this`cache, list
      ensures Threaded() && list <= old(list)
      ensures Contents() == if old(Contents()) == [] then [] else old(Contents())[..|old(Contents())| - 1]
      ensures |list| == if old(|list|) == 0 then 0 else old(|list|) - 1
    {
      hide Distinct, Indexed, Without, EntriesOf;
      if list != [] { AtEnds(list, |list| - 1); }
      if tail == null {
        return;
      }
      LastWithout(list);
      DropLast();
    }

    /** A known id gets a new value and comes first. */
    method Overwrite(node: Node<T>, item: T)
      requires Threaded() && node in list
      modifies this`head, this`tail, this`list, list
      ensures Threaded() && Contents() == [(node.id, item)] + Without(old(Contents()), node.id)
      ensures |list| == old(|list|) && forall n :: n in list ==> n in old(list)
    {
      hide Linked, Distinct, Indexed, Without, EntriesOf, Cut;
      ghost var i, l := PositionOf(list, node), list;
      EntriesCut(l, i);
      CutFacts(cache, l, i);
      node.value := item;
      SameLinks();
      EntriesSame(l, i);
      EntriesCut(l, i);
      MoveToHead(node);
    }

    /** A new id comes first, in the map and in the list. */
    method Insert(node: Node<T>)
      requires Threaded() && node.id !in cache && node !in list
      modifies this`head, this`tail, this`list, this`cache, list, node
      ensures Threaded() && Contents() == [(node.id, old(node.value))] + old(Contents()) && list == [node] + old(list)
    {
      hide Linked, Distinct, Indexed, EntriesOf;
      ghost var l := list;
      ConsFacts(cache, l, node);
      cache := cache[node.id := node];
      AddToHead(node);
      EntriesCons(node, l);
      EntriesKept(l);
    }

    twostate lemma EntriesKept(l: seq<Node<T>>)
      requires forall n :: n in l ==> n.value == old(n.value)
      ensures EntriesOf(l) == old(EntriesOf(l))
    {
      hide EntriesOf;
    }

    /** `put`: the entry comes first; if there is one too many, the last one is evicted. */
    method Put(id: Id, item: T)
      requires Valid()
      modifies this`head, this`tail, this`list, this`cache, list
      ensures Valid() && Contents() == Newest([(id, item)] + Without(old(Contents()), id), capacity)
      ensures forall n :: n in list ==> n in old(list) || fresh(n)
    {
      hide Linked, Distinct, Indexed, Without, EntriesOf, Lookup, At;
      MapSize(cache, list);
      Known(id);
      if id in cache {
        Overwrite(cache[id], item);
        return;
      }
      WithoutAbsent(Contents(), id);
      var node := new Node(id, item);
      Insert(node);
      MapSize(cache, list);
      if |cache| > capacity {
        RemoveTail();
      }
    }

    /** `get`: the value, whose entry comes first. */
    method Get(id: Id) returns (value: Option<T>)
      requires Valid()
      modifies this`head, this`tail, this`list, list
      ensures Valid() && value == Lookup(old(Contents()), id)
      ensures Contents() == if value.Some? then [(id, value.value)] + Without(old(Contents()), id) else old(Contents())
      ensures forall n :: n in list ==> n in old(list)
    {
      hide Linked, Distinct, Indexed, Without, EntriesOf, Lookup;
      Known(id);
      if id !in cache {
        return None;
      }
      var node := cache[id];
      MoveToHead(node);
      value := Some(node.value);
    }

    /** `tryGet`: the value, without touching the order. */
    method TryGet(id: Id) returns (value: Option<T>)
      requires Valid()
      ensures value == Lookup(Contents(), id)
    {
      Known(id);
      if id in cache {
        return Some(cache[id].value);
      }
      value := None;
    }

    method Delete(id: Id)
      requires Valid()
      modifies this`head, this`tail, this`list, this`cache, list
      ensures Valid() && Contents() == Without(old(Contents()), id)
      ensures forall n :: n in list ==> n in old(list)
    {
      hide Linked, Distinct, Indexed, Without, EntriesOf, Lookup;
      Known(id);
      if id !in cache {
        WithoutAbsent(Contents(), id);
        return;
      }
      Drop(cache[id], PositionOf(list, cache[id]));
    }

    method Clear()
      modifies this`head, this`tail, this`list, this`cache
      ensures Valid() && Contents() == []
    {
      cache := map[];
      head, tail, list := null, null, [];
    }

    /** `Resize`: shrinking evicts the least recent entries. */
    method Resize(newCapacity: nat)
      requires Valid()
      modifies this, list
      ensures Valid() && capacity == newCapacity && Contents() == Newest(old(Contents()), newCapacity)
      ensures forall n :: n in list ==> n in old(list)
    {
      hide Linked, Distinct, Indexed, EntriesOf;
      MapSize(cache, list);
      if newCapacity < capacity {
        while |cache| > newCapacity
          invariant Threaded() && |cache| == |list| && list <= old(list)
          invariant Contents() <= old(Contents()) && (|list| >= newCapacity || list == old(list))
          decreases |cache|
        {
          RemoveTail();
          MapSize(cache, list);
        }
      }
      capacity := newCapacity;
    }

    method Size() returns (n: nat)
      requires Valid()
      ensures n == |Contents()| <= capacity
    {
      MapSize(cache, list);
      n := |cache|;
    }
  }

  // ---------------------------------------------------------------- what the operations mean on values

  ghost predicate DistinctIds<T>(es: Entries<T>) {
    forall i, j :: 0 <= i < j < |es| ==> es[i].0 != es[j].0
  }

  lemma {:induction false} WithoutIn<T>(es: Entries<T>, id: Id, e: (Id, T))
    ensures e in Without(es, id) <==> e in es && e.0 != id
  {
    if es != [] {
      WithoutIn(es[1..], id, e);
      assert es == [es[0]] + es[1..];
    }
  }

  /** Ids stay distinct. */
  lemma {:induction false} WithoutDistinct<T>(es: Entries<T>, id: Id)
    requires DistinctIds(es)
    ensures DistinctIds(Without(es, id))
  {
    if es != [] {
      var rest := Without(es[1..], id);
      WithoutDistinct(es[1..], id);
      forall j | 0 <= j < |rest| ensures rest[j].0 != es[0].0 {
        WithoutIn(es[1..], id, rest[j]);
        var i :| 0 <= i < |es[1..]| && es[1..][i] == rest[j];
        assert es[i + 1] == rest[j];
      }
    }
  }

  lemma {:induction false} LookupWithout<T>(es: Entries<T>, id: Id, other: Id)
    ensures Lookup(Without(es, id), other) == if other == id then None else Lookup(es, other)
  {
    if es != [] {
      LookupWithout(es[1..], id, other);
      var rest := Without(es[1..], id);
      assert [] + rest == rest && ([es[0]] + rest)[1..] == rest;
    }
  }

  /** Reading after writing: with room for one entry the new value is found, and other ids are found as before as long
      as they are not among the evicted. */
  lemma PutThenLookup<T>(es: Entries<T>, id: Id, item: T, capacity: nat, other: Id)
    requires |es| <= capacity
    ensures var all, after := [(id, item)] + Without(es, id), Newest([(id, item)] + Without(es, id), capacity);
            && (capacity > 0 ==> Lookup(after, id) == Some(item))
            && (other != id && |all| <= capacity ==> Lookup(after, other) == Lookup(es, other))
            && |after| <= capacity && |all| <= capacity + 1
  {
    var rest := Without(es, id);
    LookupWithout(es, id, other);
    assert ([(id, item)] + rest)[1..] == rest;
  }
}
