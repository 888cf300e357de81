/** One side of the book: a 16-level trie over the hexadecimal digits of 64-bit prices.

    The heap shape is described flatly: `nodes` maps (depth, prefix) to the inner node for
    that prefix of the price, `levels` maps a price to its level.
 */
module PriceTrie {
  import opened Words
  import opened MatchSpec
  import opened BookObjects

  const DEPTH: nat := 16

  // ---------------------------------------------------------------- digits of a price

  /** `x >> 4n` */
  function Shift(x: nat, n: nat): nat {
    if n == 0 then x else Shift(x / 16, n - 1)
  }

  /** `binary.BigEndian.PutUint64` */
  function PriceBytes(price: U64): (bs: seq<Byte>)
    ensures |bs| == 8
  {
    seq(8, b requires 0 <= b < 8 => Shift(price, 14 - 2 * b) % 256)
  }

  /** The digit that selects the child at a depth: the high, then the low half of each byte. */
  function Nibble(price: U64, depth: nat): (n: nat)
    requires depth < DEPTH
    ensures n < WIDTH
  {
    var b := PriceBytes(price)[depth / 2];
    if depth % 2 == 0 then b / 16 else b % 16
  }

  /** The first d digits of a price, as a number. */
  function Prefix(price: U64, d: nat): nat
    requires d <= DEPTH
  {
    Shift(price, DEPTH - d)
  }

  lemma {:induction false} ShiftStep(x: nat, n: nat)
    ensures Shift(x, n + 1) == Shift(x, n) / 16
  {
    if n > 0 { ShiftStep(x / 16, n - 1); }
  }

  lemma {:induction false} ShiftMonotone(x: nat, y: nat, n: nat)
    requires x <= y
    ensures Shift(x, n) <= Shift(y, n)
  {
    if n > 0 { ShiftMonotone(x / 16, y / 16, n - 1); }
  }

  /** Each step of the descent appends the selected digit to the prefix. */
  lemma PrefixStep(price: U64, d: nat)
    requires d < DEPTH
    ensures Prefix(price, d + 1) == 16 * Prefix(price, d) + Nibble(price, d)
  {
    ShiftStep(price, DEPTH - d - 1);
    ShiftStep(price, 14 - 2 * (d / 2));
    HalfBytes(Shift(price, 14 - 2 * (d / 2)));
  }

  lemma HalfBytes(x: nat)
    ensures x % 256 / 16 == x / 16 % 16 && x % 256 % 16 == x % 16
  {
  }

  lemma {:induction false} ShiftBelow(x: nat, n: nat)
    requires x < Pow2(4 * n)
    ensures Shift(x, n) == 0
  {
    if n > 0 {
      Pow2Add(4, 4 * (n - 1));
      assert Pow2(4) == 16;
      ShiftBelow(x / 16, n - 1);
    }
  }

  lemma PrefixEnds(price: U64)
    ensures Prefix(price, 0) == 0 && Prefix(price, DEPTH) == price
  {
    Pow2Values();
    ShiftBelow(price, DEPTH);
  }

  /** The position of a node: its depth and the digits above it. */
  datatype Key = Key(depth: nat, prefix: nat)

  const ROOT: Key := Key(0, 0)

  function ChildKey(k: Key, i: nat): (c: Key)
    requires i < WIDTH
    ensures c.depth == k.depth + 1 && Parent(c) == k && Digit(c) == i
  {
    Key(k.depth + 1, 16 * k.prefix + i)
  }

  function Parent(k: Key): Key
    requires k.depth > 0
  {
    Key(k.depth - 1, k.prefix / 16)
  }

  function Digit(k: Key): (i: nat)
    ensures i < WIDTH
    ensures k.depth > 0 ==> k == Key(k.depth, 16 * Parent(k).prefix + i)
  {
    k.prefix % 16
  }

  /** The position on the way to a price at a depth. */
  function KeyOf(price: U64, d: nat): (k: Key)
    requires d <= DEPTH
    ensures k.depth == d
  {
    Key(d, Prefix(price, d))
  }

  lemma KeyStep(price: U64, d: nat)
    requires d < DEPTH
    ensures KeyOf(price, d + 1) == ChildKey(KeyOf(price, d), Nibble(price, d))
    ensures Parent(KeyOf(price, d + 1)) == KeyOf(price, d) && Digit(KeyOf(price, d + 1)) == Nibble(price, d)
  {
    PrefixStep(price, d);
  }

  lemma KeyEnds(price: U64)
    ensures KeyOf(price, 0) == ROOT && KeyOf(price, DEPTH) == Key(DEPTH, price)
  {
    PrefixEnds(price);
  }

  /** Prices below different digits of one node are ordered by the digits. */
  lemma DigitsOrder(p: U64, q: U64, d: nat)
    requires d < DEPTH && KeyOf(p, d) == KeyOf(q, d) && Nibble(p, d) < Nibble(q, d)
    ensures p < q
  {
    PrefixStep(p, d);
    PrefixStep(q, d);
    if q <= p { ShiftMonotone(q, p, DEPTH - d - 1); }
  }

  // ---------------------------------------------------------------- the trie

  datatype Child = Nil | Inner(node: VerkleNode) | Leaf(level: PriceLevel)

  class VerkleNode {
    var Children: seq<Child>

    constructor ()
      ensures |Children| == WIDTH && forall i :: 0 <= i < WIDTH ==> Children[i] == Nil
    {
      Children := seq(WIDTH, _ => Nil);
    }
  }

  /** The children of every inner node, by position. */
  type Table = map<Key, seq<Child>>

  /** What the child of the node k at digit i must be. */
  ghost predicate ChildOk(nodes: map<Key, VerkleNode>, levels: map<U64, PriceLevel>, k: Key, i: nat, c: Child)
    requires i < WIDTH
  {
    var key := ChildKey(k, i);
    match c
    case Nil => key !in nodes && (key.depth == DEPTH ==> key.prefix !in levels)
    case Inner(n) => key.depth < DEPTH && key in nodes && nodes[key] == n
    case Leaf(l) => key.depth == DEPTH && key.prefix in levels && levels[key.prefix] == l
  }

  /** The children, read as a table, are exactly the nodes and levels of the flat maps. */
  ghost predicate TableOk(table: Table, nodes: map<Key, VerkleNode>, levels: map<U64, PriceLevel>) {
    && ROOT in table && table.Keys == nodes.Keys
    && (forall k :: k in table ==> k.depth < DEPTH && |table[k]| == WIDTH)
    && (forall k, i :: k in table && 0 <= i < WIDTH ==> ChildOk(nodes, levels, k, i, table[k][i]))
    && (forall k :: k in table && k.depth > 0 ==> Parent(k) in table)
    && (forall p :: p in levels ==> KeyOf(p, DEPTH - 1) in table)
  }

  /** A price whose level exists is found below the node that holds its other digits. */
  lemma LevelsAbove(table: Table, nodes: map<Key, VerkleNode>, levels: map<U64, PriceLevel>)
    requires TableOk(table, nodes, levels)
    ensures forall k: Key :: k.depth == DEPTH && k.prefix in levels ==> Parent(k) in table
  {
    forall k: Key | k.depth == DEPTH && k.prefix in levels ensures Parent(k) in table {
      KeyEnds(k.prefix);
      KeyStep(k.prefix, DEPTH - 1);
    }
  }

  /** An absent inner node has no children and no levels. */
  lemma NothingBelowAbsent(table: Table, nodes: map<Key, VerkleNode>, levels: map<U64, PriceLevel>, key: Key)
    requires TableOk(table, nodes, levels) && 0 < key.depth < DEPTH && key !in nodes
    ensures forall i :: 0 <= i < WIDTH ==>
              ChildKey(key, i) !in nodes && (key.depth + 1 == DEPTH ==> ChildKey(key, i).prefix !in levels)
  {
    hide ChildKey, Parent, KeyOf, Digit, ChildOk;
    LevelsAbove(table, nodes, levels);
    forall i | 0 <= i < WIDTH
      ensures ChildKey(key, i) !in nodes && (key.depth + 1 == DEPTH ==> ChildKey(key, i).prefix !in levels)
    {
      assert Parent(ChildKey(key, i)) == key;
    }
  }

  /** Hanging a new, childless inner node below an absent child. */
  lemma AddNodeTable(table: Table, nodes: map<Key, VerkleNode>, levels: map<U64, PriceLevel>, k: Key, index: nat,
          n: VerkleNode, empty: seq<Child>)
    requires TableOk(table, nodes, levels) && k in table && k.depth + 1 < DEPTH && index < WIDTH && table[k][index].Nil?
    requires |empty| == WIDTH && forall i :: 0 <= i < WIDTH ==> empty[i] == Nil
    ensures var key := ChildKey(k, index);
            key !in nodes && TableOk(table[k := table[k][index := Inner(n)]][key := empty], nodes[key := n], levels)
  {
    hide ChildKey, Parent, KeyOf, Digit;
    var key := ChildKey(k, index);
    assert ChildOk(nodes, levels, k, index, table[k][index]);
    NothingBelowAbsent(table, nodes, levels, key);
    var table' := table[k := table[k][index := Inner(n)]][key := empty];
    forall k', i | k' in table' && 0 <= i < WIDTH
      ensures ChildOk(nodes[key := n], levels, k', i, table'[k'][i])
    {
      if k' != key && (k' != k || i != index) {
        assert ChildOk(nodes, levels, k', i, table[k'][i]);
        assert ChildKey(k', i) != key;
      }
    }
  }

  /** Hanging a new level below the node that holds its other digits. */
  lemma AddLevelTable(table: Table, nodes: map<Key, VerkleNode>, levels: map<U64, PriceLevel>, price: U64,
          l: PriceLevel)
    requires TableOk(table, nodes, levels) && price !in levels && KeyOf(price, DEPTH - 1) in table
    ensures var k, index := KeyOf(price, DEPTH - 1), Nibble(price, DEPTH - 1);
            TableOk(table[k := table[k][index := Leaf(l)]], nodes, levels[price := l])
  {
    hide ChildKey, Parent, KeyOf, Digit, Nibble;
    var k, index := KeyOf(price, DEPTH - 1), Nibble(price, DEPTH - 1);
    KeyEnds(price);
    KeyStep(price, DEPTH - 1);
    var table' := table[k := table[k][index := Leaf(l)]];
    forall k', i | k' in table' && 0 <= i < WIDTH
      ensures ChildOk(nodes, levels[price := l], k', i, table'[k'][i])
    {
      assert ChildOk(nodes, levels, k', i, table[k'][i]);
      if k' == k && i == index {
        assert ChildKey(k, index) == Key(DEPTH, price);
      } else {
        assert ChildKey(k', i) != Key(DEPTH, price);
      }
    }
  }

  class Trie {
    const side: Side
    const root: VerkleNode
    ghost var nodes: map<Key, VerkleNode>
    ghost var levels: map<U64, PriceLevel>
    /** The orders resting on this side. */
    ghost var orders: set<Order>

    ghost function Children(): Table
      reads this`nodes, nodes.Values
    {
      map k | k in nodes :: nodes[k].Children
    }

    ghost predicate Valid()
      reads this`nodes, this`levels, nodes.Values
    {
      && TableOk(Children(), nodes, levels) && nodes[ROOT] == root
      && (forall k, k' :: k in nodes && k' in nodes && nodes[k] == nodes[k'] ==> k == k')
      && (forall p :: p in levels ==> levels[p].Price == p && levels[p].side == side)
    }

    constructor (side: Side)
      ensures Valid() && levels == map[] && orders == {} && this.side == side
      ensures fresh(nodes.Values) && nodes.Keys == {ROOT} && fresh(nodes[ROOT])
    {
      this.side := side;
      root := new VerkleNode();
      new;
      nodes := map[ROOT := root];
      levels := map[];
      orders := {};
    }

    /** Nodes that were there stay under their keys, the others are newly allocated. */
    twostate predicate NodesGrown()
      reads this`nodes
    {
      forall k :: k in nodes ==> fresh(nodes[k]) || (k in old(nodes) && nodes[k] == old(nodes)[k])
    }

    lemma LevelsKnown()
      requires Valid()
      ensures forall p :: p in levels ==> levels[p].Price == p && levels[p].side == side
    {
    }

    lemma RootPresent()
      requires TableOk(Children(), nodes, levels)
      ensures ROOT in nodes
    {
    }

    lemma ChildFacts(k: Key, i: nat)
      requires Valid() && k in nodes && i < WIDTH
      ensures k.depth < DEPTH && |nodes[k].Children| == WIDTH && ChildOk(nodes, levels, k, i, nodes[k].Children[i])
    {
      assert Children()[k] == nodes[k].Children;
    }

    /** The inner nodes above a level are all there. */
    lemma {:induction false} Ancestors(price: U64, d: nat)
      requires Valid() && price in levels && d < DEPTH
      ensures KeyOf(price, d) in nodes
      decreases DEPTH - d
    {
      hide ChildKey, Parent, KeyOf, Nibble, ChildOk, Digit;
      if d < DEPTH - 1 {
        Ancestors(price, d + 1);
        KeyStep(price, d);
      }
    }

    /** `getPriceLevel` */
    method GetPriceLevel(price: U64, create: bool) returns (level: PriceLevel?)
      requires Valid()
      modifies this`nodes, this`levels, nodes.Values
      ensures Valid() && NodesGrown()
      ensures level == null <==> price !in old(levels) && !create
      ensures price in old(levels) ==> levels == old(levels) && level == levels[price]
      ensures !create ==> levels == old(levels) && nodes == old(nodes)
      ensures price !in old(levels) && create ==>
                fresh(level) && levels == old(levels)[price := level]
                && level.Valid() && level.Resting == {} && level.TotalVolume == 0 && level.Price == price
                  && level.side == side
    {
      hide TableOk, ChildKey, KeyOf, Nibble;
      RootPresent();
      KeyEnds(price);
      var current := root;
      for depth := 0 to DEPTH
        invariant Valid() && NodesGrown() && levels == old(levels)
        invariant !create ==> nodes == old(nodes)
        invariant depth < DEPTH && KeyOf(price, depth) in nodes && current == nodes[KeyOf(price, depth)]
      {
        var index := Nibble(price, depth);
        KeyStep(price, depth);
        ChildFacts(KeyOf(price, depth), index);
        if depth == DEPTH - 1 {
          if current.Children[index].Leaf? {
            return current.Children[index].level;
          }
          if !create {
            return null;
          }
          level := new PriceLevel(price, side);
          AddLevel(current, index, price, level);
          return;
        }
        var next := Descend(current, index, create, price, depth);
        if next == null {
          return null;
        }
        current := next;
      }
      assert false;
    }

    /** One inner step of `getPriceLevel`: the child for the next digit, created on demand. */
    method Descend(current: VerkleNode, index: nat, create: bool, ghost price: U64, ghost depth: nat)
      returns (next: VerkleNode?)
      requires Valid() && depth < DEPTH - 1 && index == Nibble(price, depth)
      requires KeyOf(price, depth) in nodes && nodes[KeyOf(price, depth)] == current
      modifies this`nodes, current
      ensures Valid() && NodesGrown()
      ensures next == null ==> !create && price !in levels
      ensures !create ==> nodes == old(nodes)
      ensures next != null ==> KeyOf(price, depth + 1) in nodes && nodes[KeyOf(price, depth + 1)] == next
    {
      hide TableOk, ChildKey, KeyOf, Nibble;
      KeyStep(price, depth);
      ChildFacts(KeyOf(price, depth), index);
      if current.Children[index].Nil? {
        if !create {
          if price in levels { Ancestors(price, depth + 1); }
          return null;
        }
        var newNode := new VerkleNode();
        AddNode(current, index, newNode, KeyOf(price, depth));
      }
      next := current.Children[index].node;
    }

    method AddNode(current: VerkleNode, index: nat, newNode: VerkleNode, ghost k: Key)
      requires Valid() && index < WIDTH && k.depth + 1 < DEPTH && k in nodes && nodes[k] == current
      requires current.Children[index].Nil?
      requires newNode !in nodes.Values && |newNode.Children| == WIDTH
        && forall i :: 0 <= i < WIDTH ==> newNode.Children[i] == Nil
      modifies this`nodes, current
      ensures Valid() && nodes == old(nodes)[ChildKey(k, index) := newNode]
      ensures current.Children == old(current.Children)[index := Inner(newNode)]
    {
      hide TableOk, ChildOk, ChildKey, KeyOf;
      TableFacts();
      ghost var table, empty, key := Children(), newNode.Children, ChildKey(k, index);
      AddNodeTable(table, nodes, levels, k, index, newNode, empty);
      current.Children := current.Children[index := Inner(newNode)];
      nodes := nodes[key := newNode];
      assert Children() == table[k := table[k][index := Inner(newNode)]][key := empty];
    }

    lemma TableFacts()
      requires TableOk(Children(), nodes, levels)
      ensures forall k :: k in nodes ==> k.depth < DEPTH && |nodes[k].Children| == WIDTH
    {
      assert forall k :: k in nodes ==> |Children()[k]| == WIDTH;
    }

    method AddLevel(current: VerkleNode, index: nat, price: U64, level: PriceLevel)
      requires Valid() && price !in levels && index == Nibble(price, DEPTH - 1)
      requires KeyOf(price, DEPTH - 1) in nodes && nodes[KeyOf(price, DEPTH - 1)] == current
      requires level !in levels.Values && level.Price == price && level.side == side
      modifies this`levels, current
      ensures Valid() && levels == old(levels)[price := level]
    {
      hide TableOk, ChildOk, ChildKey, KeyOf, Nibble;
      TableFacts();
      ghost var table, k := Children(), KeyOf(price, DEPTH - 1);
      AddLevelTable(table, nodes, levels, price, level);
      current.Children := current.Children[index := Leaf(level)];
      levels := levels[price := level];
      assert Children() == table[k := table[k][index := Leaf(level)]];
    }

    // -------------------------------------------------------------- searching

    /** No volume below the node k at the digits [lo, hi). */
    ghost predicate NoVolume(k: Key, lo: nat, hi: nat)
      requires k.depth < DEPTH
      reads this, levels.Values
    {
      forall p :: p in levels && KeyOf(p, k.depth) == k && lo <= Nibble(p, k.depth) < hi ==> levels[p].TotalVolume == 0
    }

    /** The level is below position k, has volume, and no better price below k has any. */
    ghost predicate IsBest(level: PriceLevel, k: Key)
      requires k.depth <= DEPTH
      reads this, level, levels.Values
    {
      && level.Price in levels && levels[level.Price] == level && level.TotalVolume > 0
        && KeyOf(level.Price, k.depth) == k
      && forall p :: p in levels && KeyOf(p, k.depth) == k && levels[p].TotalVolume > 0 && p != level.Price ==>
           Better(side, level.Price, p)
    }

    ghost predicate NoneBelow(k: Key)
      requires k.depth <= DEPTH
      reads this, levels.Values
    {
      forall p :: p in levels && KeyOf(p, k.depth) == k ==> levels[p].TotalVolume == 0
    }

    /** Nothing below an absent child. */
    lemma AbsentChild(k: Key, i: nat)
      requires Valid() && k in nodes && i < WIDTH && nodes[k].Children[i].Nil?
      ensures NoneBelow(ChildKey(k, i))
    {
      hide ChildKey, Parent, KeyOf, Nibble, Digit;
      var c := ChildKey(k, i);
      ChildFacts(k, i);
      forall p | p in levels ensures KeyOf(p, c.depth) != c {
        if c.depth < DEPTH { Ancestors(p, c.depth); } else { KeyEnds(p); }
      }
    }

    /** The levels below a node at digit i are those below its child i. */
    lemma BelowChild(k: Key, i: nat, p: U64)
      requires k.depth < DEPTH && i < WIDTH
      ensures KeyOf(p, k.depth + 1) == ChildKey(k, i) <==> KeyOf(p, k.depth) == k && Nibble(p, k.depth) == i
    {
      hide ChildKey, Parent, KeyOf, Nibble, Digit;
      KeyStep(p, k.depth);
    }

    lemma ChildWithoutVolume(k: Key, i: nat)
      requires k.depth < DEPTH && i < WIDTH && NoneBelow(ChildKey(k, i))
      ensures NoVolume(k, i, i + 1)
    {
      hide ChildKey, Parent, KeyOf, Nibble, Digit;
      forall p | p in levels && KeyOf(p, k.depth) == k && Nibble(p, k.depth) == i ensures levels[p].TotalVolume == 0 {
        BelowChild(k, i, p);
      }
    }

    /** A best level below child i is best below the node when the better children are empty. */
    lemma BestOfChild(level: PriceLevel, k: Key, i: nat)
      requires k.depth < DEPTH && i < WIDTH && IsBest(level, ChildKey(k, i))
      requires if side == BUY then NoVolume(k, i + 1, WIDTH) else NoVolume(k, 0, i)
      ensures IsBest(level, k)
    {
      hide ChildKey, Parent, KeyOf, Nibble, Digit;
      var best := level.Price;
      BelowChild(k, i, best);
      forall p | p in levels && KeyOf(p, k.depth) == k && levels[p].TotalVolume > 0 && p != best
        ensures Better(side, best, p)
      {
        BelowChild(k, i, p);
        if Nibble(p, k.depth) < i {
          DigitsOrder(p, best, k.depth);
        } else if Nibble(p, k.depth) > i {
          DigitsOrder(best, p, k.depth);
        }
      }
    }

    lemma LeafBelow(k: Key, i: nat)
      requires Valid() && k in nodes && i < WIDTH && nodes[k].Children[i].Leaf?
      ensures var l := nodes[k].Children[i].level;
              if l.TotalVolume > 0 then IsBest(l, ChildKey(k, i)) else NoneBelow(ChildKey(k, i))
    {
      hide ChildKey, Parent, KeyOf, Nibble, Digit;
      ChildFacts(k, i);
      KeyEnds(nodes[k].Children[i].level.Price);
      forall p: U64 ensures KeyOf(p, DEPTH) == Key(DEPTH, p) {
        KeyEnds(p);
      }
    }

    lemma AllDigits(k: Key)
      requires k.depth < DEPTH && NoVolume(k, 0, WIDTH)
      ensures NoneBelow(k)
    {
    }

    /** Right-first search. */
    method FindMaxPriceLevel(node: VerkleNode, ghost k: Key) returns (level: PriceLevel?)
      requires Valid() && side == BUY && k in nodes && nodes[k] == node
      ensures if level == null then NoneBelow(k) else IsBest(level, k)
      decreases DEPTH - k.depth
    {
      hide TableOk, ChildKey, KeyOf, Nibble, IsBest, NoneBelow;
      ChildFacts(k, 0);
      for i := WIDTH downto 0
        invariant NoVolume(k, i, WIDTH)
      {
        ChildFacts(k, i);
        match node.Children[i] {
          case Nil =>
            AbsentChild(k, i);
          case Leaf(l) =>
            LeafBelow(k, i);
            if l.TotalVolume > 0 {
              BestOfChild(l, k, i);
              return l;
            }
          case Inner(child) =>
            var result := FindMaxPriceLevel(child, ChildKey(k, i));
            if result != null {
              BestOfChild(result, k, i);
              return result;
            }
        }
        ChildWithoutVolume(k, i);
      }
      AllDigits(k);
      level := null;
    }

    /** Left-first search. */
    method FindMinPriceLevel(node: VerkleNode, ghost k: Key) returns (level: PriceLevel?)
      requires Valid() && side == SELL && k in nodes && nodes[k] == node
      ensures if level == null then NoneBelow(k) else IsBest(level, k)
      decreases DEPTH - k.depth
    {
      hide TableOk, ChildKey, KeyOf, Nibble, IsBest, NoneBelow;
      ChildFacts(k, 0);
      for i := 0 to WIDTH
        invariant NoVolume(k, 0, i)
      {
        ChildFacts(k, i);
        match node.Children[i] {
          case Nil =>
            AbsentChild(k, i);
          case Leaf(l) =>
            LeafBelow(k, i);
            if l.TotalVolume > 0 {
              BestOfChild(l, k, i);
              return l;
            }
          case Inner(child) =>
            var result := FindMinPriceLevel(child, ChildKey(k, i));
            if result != null {
              BestOfChild(result, k, i);
              return result;
            }
        }
        ChildWithoutVolume(k, i);
      }
      AllDigits(k);
      level := null;
    }

    /** What a cached best level promises: none means an empty side, and a level bounds every level
        that has volume.  The cached level itself may have been emptied. */
    ghost predicate CacheOk(cache: PriceLevel?)
      reads this, levels.Values
    {
      if cache == null then forall p :: p in levels ==> levels[p].TotalVolume == 0
      else
        && cache.Price in levels && levels[cache.Price] == cache
        && forall p :: p in levels && levels[p].TotalVolume > 0 && p != cache.Price ==> Better(side, cache.Price, p)
    }

    /** The same promise about all levels but one. */
    ghost predicate CacheBut(cache: PriceLevel?, price: U64)
      reads this, levels.Values
    {
      if cache == null then forall p :: p in levels && p != price ==> levels[p].TotalVolume == 0
      else
        && cache.Price in levels && levels[cache.Price] == cache
        && forall p :: p in levels && p != price && levels[p].TotalVolume > 0 && p != cache.Price ==>
          Better(side, cache.Price, p)
    }

    /** A bound that covers one price covers it again when everything else is still covered. */
    ghost predicate Covers(cache: PriceLevel?, price: U64) {
      cache != null && (cache.Price == price || Better(side, cache.Price, price))
    }

    lemma CoversVolume(cache: PriceLevel?, price: U64)
      requires CacheOk(cache) && price in levels && levels[price].TotalVolume > 0
      ensures Covers(cache, price)
    {
    }

    lemma CacheWhole(cache: PriceLevel?, price: U64)
      requires CacheBut(cache, price) && Covers(cache, price)
      ensures CacheOk(cache)
    {
    }

    /** The level with the best price that has volume, or null when there is none. */
    method FindBest() returns (level: PriceLevel?)
      requires Valid()
      ensures CacheOk(level) && (level != null ==> level.TotalVolume > 0)
    {
      hide Prefix, TableOk;
      RootPresent();
      forall p: U64 ensures KeyOf(p, 0) == ROOT {
        KeyEnds(p);
      }
      if side == BUY {
        level := FindMaxPriceLevel(root, ROOT);
      } else {
        level := FindMinPriceLevel(root, ROOT);
      }
    }
  }
}
