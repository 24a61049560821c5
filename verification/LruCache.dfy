/** `LRUCache` as the program holds it: list cells spliced in place and a map from keys to cells. */
module LruCache {
  import opened Options
  import opened Lru

  /** One list cell; the map's iterators point at these. */
  class Node<K, V> {
    const key: K
    var value: V

    constructor (k: K, v: V)
      ensures key == k && value == v
    {
      key := k;
      value := v;
    }
  }

  /** No cell is listed twice. */
  ghost predicate Apart<T>(s: seq<T>) {
    forall i, j :: 0 <= i < j < |s| ==> s[i] != s[j]
  }

  /** Every listed cell is where the map says its key is. */
  ghost predicate Listed<K, V>(order: seq<Node<K, V>>, index: map<K, Node<K, V>>) {
    forall i :: 0 <= i < |order| ==> order[i].key in index && index[order[i].key] == order[i]
  }

  /** The map knows no other cell. */
  ghost predicate Reached<K(!new), V>(order: seq<Node<K, V>>, index: map<K, Node<K, V>>) {
    forall k :: k in index ==> index[k].key == k && index[k] in order
  }

  /** The cells hold these entries in this order. */
  ghost predicate Holds<K, V>(order: seq<Node<K, V>>, items: seq<Entry<K, V>>)
    reads order
  {
    && |order| == |items|
    && forall i :: 0 <= i < |order| ==> items[i] == Entry(order[i].key, order[i].value)
  }

  function ToFront<T>(s: seq<T>, i: nat): (t: seq<T>)
    requires i < |s|
    ensures |t| == |s| && t[0] == s[i]
    ensures forall j :: 1 <= j < |t| ==> t[j] == if j <= i then s[j - 1] else s[j]
  {
    [s[i]] + s[..i] + s[i + 1..]
  }

  lemma ToFrontSame<T>(s: seq<T>, i: nat, x: T)
    requires i < |s|
    ensures x in ToFront(s, i) <==> x in s
  {
    var t := ToFront(s, i);
    if x in s {
      var j :| 0 <= j < |s| && s[j] == x;
      assert t[if j < i then j + 1 else if j == i then 0 else j] == x;
    }
    if x in t {
      var j :| 0 <= j < |t| && t[j] == x;
      assert s[if j == 0 then i else if j <= i then j - 1 else j] == x;
    }
  }

  lemma ToFrontKeeps<K(!new), V>(order: seq<Node<K, V>>, index: map<K, Node<K, V>>, i: nat)
    requires i < |order| && Reached(order, index)
    ensures Reached(ToFront(order, i), index)
  {
    forall k | k in index
      ensures index[k] in ToFront(order, i)
    {
      ToFrontSame(order, i, index[k]);
    }
  }

  lemma ToFrontApart<T>(s: seq<T>, i: nat)
    requires i < |s| && Apart(s)
    ensures Apart(ToFront(s, i))
  {
  }

  lemma ToFrontListed<K(!new), V>(order: seq<Node<K, V>>, index: map<K, Node<K, V>>, i: nat)
    requires i < |order| && Listed(order, index)
    ensures Listed(ToFront(order, i), index)
  {
  }

  lemma DropLast<K(!new), V>(order: seq<Node<K, V>>, index: map<K, Node<K, V>>)
    requires order != [] && Apart(order) && Listed(order, index) && Reached(order, index)
    ensures var kept, rest := order[..|order| - 1], index - {order[|order| - 1].key};
      Apart(kept) && Listed(kept, rest) && Reached(kept, rest)
  {
    var last := order[|order| - 1];
    forall k | k in index && k != last.key
      ensures index[k] in order[..|order| - 1]
    {
      var i :| 0 <= i < |order| && order[i] == index[k];
      assert order[..|order| - 1][i] == index[k];
    }
  }

  lemma AddFirst<K(!new), V>(order: seq<Node<K, V>>, index: map<K, Node<K, V>>, node: Node<K, V>)
    requires Apart(order) && Listed(order, index) && Reached(order, index) && node.key !in index
    ensures var more, known := [node] + order, index[node.key := node];
      Apart(more) && Listed(more, known) && Reached(more, known)
  {
    var more := [node] + order;
    assert more[0] == node;
    forall k | k in index
      ensures index[k] in more
    {
      var i :| 0 <= i < |order| && order[i] == index[k];
      assert more[i + 1] == index[k];
    }
  }

  /** The map and the list agree on which keys are cached, and the cell of a cached key is the one
      that a lookup in the entries finds. */
  lemma FindIsLookup<K(!new), V>(order: seq<Node<K, V>>, index: map<K, Node<K, V>>,
                                items: seq<Entry<K, V>>, k: K, i: nat)
    requires Holds(order, items) && Listed(order, index)
    requires k in index && i < |order| && order[i] == index[k] && index[k].key == k
    requires forall j :: 0 <= j < i ==> order[j] != order[i]
    ensures Lookup(items, k) == Some(index[k].value)
    ensures ToFront(items, i) == [Entry(k, index[k].value)] + Drop(items, k)
  {
    forall j | 0 <= j < i
      ensures items[j].key != k
    {
      assert index[order[j].key] == order[j];
    }
    DropAt(items, i, k);
  }

  lemma MissIsLookup<K(!new), V>(order: seq<Node<K, V>>, index: map<K, Node<K, V>>,
                                items: seq<Entry<K, V>>, k: K)
    requires Holds(order, items) && Listed(order, index) && k !in index
    ensures Lookup(items, k).None?
  {
    forall j | 0 <= j < |items|
      ensures items[j].key != k
    {
      assert order[j].key in index;
    }
    LookupAbsent(items, k);
  }

  lemma ToFrontHolds<K, V>(order: seq<Node<K, V>>, items: seq<Entry<K, V>>, i: nat)
    requires Holds(order, items) && i < |order|
    ensures Holds(ToFront(order, i), ToFront(items, i))
  {
  }

  lemma ToFrontWithin<T>(s: seq<T>, i: nat, cells: set<T>)
    requires i < |s| && forall j :: 0 <= j < |s| ==> s[j] in cells
    ensures forall j :: 0 <= j < |s| ==> ToFront(s, i)[j] in cells
  {
  }

  class LRUCache<K(==,!new), V> {
    const capacity: int
    var order: seq<Node<K, V>>
    var index: map<K, Node<K, V>>
    ghost var items: seq<Entry<K, V>>
    ghost var cells: set<Node<K, V>>

    ghost predicate Linked()
      reads this, cells
    {
      && Capacity(capacity)
      && (forall i :: 0 <= i < |order| ==> order[i] in cells)
      && Holds(order, items)
      && Apart(order) && Listed(order, index) && Reached(order, index)
    }

    constructor (cap: int)
      requires Capacity(cap)
      ensures Linked() && items == [] && capacity == cap && cells == {}
    {
      capacity := cap;
      order := [];
      index := map[];
      items := [];
      cells := {};
    }

    lemma MoveLinked(i: nat)
      requires Linked() && i < |order|
      ensures Holds(ToFront(order, i), ToFront(items, i)) && Apart(ToFront(order, i))
      ensures Listed(ToFront(order, i), index) && Reached(ToFront(order, i), index)
      ensures forall j :: 0 <= j < |order| ==> ToFront(order, i)[j] in cells
    {
      ToFrontHolds(order, items, i);
      ToFrontWithin(order, i, cells);
      ToFrontApart(order, i);
      ToFrontListed(order, index, i);
      ToFrontKeeps(order, index, i);
    }

    /** `splice` to the front: the cell of `k` moves, every other cell keeps its place. */
    method Splice(k: K)
      requires Linked() && k in index
      modifies this`order, this`items
      ensures Linked() && Lookup(old(items), k) == Some(index[k].value)
      ensures items == [Entry(k, index[k].value)] + Drop(old(items), k)
      ensures order != [] && order[0] == index[k]
    {
      var i :| 0 <= i < |order| && order[i] == index[k];
      FindIsLookup(order, index, items, k, i);
      MoveLinked(i);
      order, items := ToFront(order, i), ToFront(items, i);
    }

    /** Forget the least recently used entry. */
    method Evict()
      requires Linked() && order != []
      modifies this`order, this`index, this`items
      ensures Linked()
      ensures items == old(items)[..|old(items)| - 1]
      ensures forall k :: k in index ==> k in old(index)
    {
      DropLast(order, index);
      index := index - {order[|order| - 1].key};
      order := order[..|order| - 1];
      items := items[..|items| - 1];
    }

    /** Put a new cell in front. */
    method Insert(k: K, v: V)
      requires Linked() && k !in index
      modifies this`order, this`index, this`items, this`cells
      ensures Linked() && fresh(cells - old(cells))
      ensures items == [Entry(k, v)] + old(items)
    {
      var node := new Node(k, v);
      AddFirst(order, index, node);
      order := [node] + order;
      index := index[k := node];
      items := [Entry(k, v)] + items;
      cells := cells + {node};
    }

    /** Overwrite the value in the front cell. */
    method SetFront(v: V)
      requires Linked() && order != []
      modifies cells, this`items
      ensures Linked()
      ensures items == [Entry(old(items)[0].key, v)] + old(items)[1..]
    {
      order[0].value := v;
      items := [Entry(items[0].key, v)] + items[1..];
    }

    method Push(k: K, v: V)
      requires Linked()
      modifies this, cells
      ensures Linked() && fresh(cells - old(cells))
      ensures items == Lru.Push(old(items), capacity, k, v)
    {
      if k in index {
        Splice(k);
        SetFront(v);
        return;
      }
      MissIsLookup(order, index, items, k);
      if capacity != UNLIMITED && |order| >= capacity {
        Evict();
      }
      Insert(k, v);
    }

    /** A hit moves the cell to the front and returns its value. */
    method Get(k: K) returns (hit: Option<V>)
      requires Linked()
      modifies this`order, this`items
      ensures Linked()
      ensures items == Touch(old(items), k)
      ensures hit == Lookup(old(items), k)
    {
      if k !in index {
        MissIsLookup(order, index, items, k);
        return None;
      }
      Splice(k);
      hit := Some(order[0].value);
    }
  }
}
