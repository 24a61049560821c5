/** The LRU cache: a list of entries, most recently used first, and a map from keys to list nodes. */
module Lru {
  import opened Options

  datatype Entry<K, V> = Entry(key: K, value: V)

  const UNLIMITED := -1

  /** Capacities the code handles: no limit, or at least one entry. */
  predicate Capacity(cap: int) {
    cap == UNLIMITED || 1 <= cap
  }

  function Lookup<K(==), V>(list: seq<Entry<K, V>>, k: K): Option<V> {
    if list == [] then None else if list[0].key == k then Some(list[0].value) else Lookup(list[1..], k)
  }

  function Drop<K(==), V>(list: seq<Entry<K, V>>, k: K): seq<Entry<K, V>> {
    if list == [] then [] else if list[0].key == k then list[1..] else [list[0]] + Drop(list[1..], k)
  }

  predicate Full<K, V>(list: seq<Entry<K, V>>, cap: int) {
    cap != UNLIMITED && |list| >= cap
  }

  function Push<K(==), V>(list: seq<Entry<K, V>>, cap: int, k: K, v: V): seq<Entry<K, V>> {
    if Lookup(list, k).Some? then [Entry(k, v)] + Drop(list, k)
    else if Full(list, cap) && list != [] then [Entry(k, v)] + list[..|list| - 1]
    else [Entry(k, v)] + list
  }

  /** A hit moves the entry to the front. */
  function Touch<K(==), V>(list: seq<Entry<K, V>>, k: K): seq<Entry<K, V>> {
    match Lookup(list, k)
    case None => list
    case Some(v) => [Entry(k, v)] + Drop(list, k)
  }

  // ---------- What a use does to the list ----------

  lemma {:induction false} DropAt<K, V>(items: seq<Entry<K, V>>, i: nat, k: K)
    requires i < |items| && items[i].key == k && forall j :: 0 <= j < i ==> items[j].key != k
    ensures Drop(items, k) == items[..i] + items[i + 1..]
    ensures Lookup(items, k) == Some(items[i].value)
  {
    if i > 0 {
      DropAt(items[1..], i - 1, k);
      assert items[..i] == [items[0]] + items[1..][..i - 1];
      assert items[1..][i..] == items[i + 1..];
    }
  }

  lemma {:induction false} LookupAbsent<K, V>(items: seq<Entry<K, V>>, k: K)
    requires forall j :: 0 <= j < |items| ==> items[j].key != k
    ensures Lookup(items, k).None?
  {
    if items != [] {
      LookupAbsent(items[1..], k);
    }
  }

  /** A use of a listed key takes its entry from where it is to the front; a push gives it the new value. */
  lemma UseOfListed<K, V>(list: seq<Entry<K, V>>, cap: int, i: nat, k: K, v: V)
    requires i < |list| && list[i].key == k && forall j :: 0 <= j < i ==> list[j].key != k
    ensures Touch(list, k) == [list[i]] + (list[..i] + list[i + 1..])
    ensures Push(list, cap, k, v) == [Entry(k, v)] + (list[..i] + list[i + 1..])
  {
    DropAt(list, i, k);
  }

  /** A key not listed is not there to get; a push puts it first, and the last entry makes room when the
      limit is reached. */
  lemma UseOfUnlisted<K, V>(list: seq<Entry<K, V>>, cap: int, k: K, v: V)
    requires forall j :: 0 <= j < |list| ==> list[j].key != k
    ensures Touch(list, k) == list && Lookup(list, k) == None
    ensures list != [] && cap != -1 && cap <= |list| ==>
      Push(list, cap, k, v) == [Entry(k, v)] + list[..|list| - 1]
    ensures list == [] || cap == -1 || |list| < cap ==> Push(list, cap, k, v) == [Entry(k, v)] + list
  {
    LookupAbsent(list, k);
  }

  // ---------- Recency ----------

  function Keys<K, V>(list: seq<Entry<K, V>>): seq<K> {
    if list == [] then [] else [list[0].key] + Keys(list[1..])
  }

  function Without<K(==)>(ks: seq<K>, k: K): seq<K> {
    if ks == [] then [] else if ks[0] == k then ks[1..] else [ks[0]] + Without(ks[1..], k)
  }

  /** The distinct keys of a trace of uses, latest use first. */
  function Recent<K(==)>(trace: seq<K>): seq<K> {
    if trace == [] then []
    else
      var last := trace[|trace| - 1];
      [last] + Without(Recent(trace[..|trace| - 1]), last)
  }

  /** The room left after one key is placed. */
  function Rest(cap: int): int {
    if cap == UNLIMITED then UNLIMITED else cap - 1
  }

  /** The first `cap` keys, or all of them. */
  function First<K>(ks: seq<K>, cap: int): seq<K>
    decreases |ks|
  {
    if ks == [] || cap == 0 then []
    else [ks[0]] + First(ks[1..], Rest(cap))
  }

  datatype Op<K, V> = DoPush(k: K, v: V) | DoGet(k: K)

  /** A cache with its history: the trace of pushes and hits, and the last value pushed per key. */
  datatype Cache<K, V> = Cache(list: seq<Entry<K, V>>, trace: seq<K>, pushed: map<K, V>)

  function Apply<K, V>(c: Cache<K, V>, cap: int, op: Op<K, V>): Cache<K, V> {
    match op
    case DoPush(k, v) => Cache(Push(c.list, cap, k, v), c.trace + [k], c.pushed[k := v])
    case DoGet(k) => if Lookup(c.list, k).Some? then Cache(Touch(c.list, k), c.trace + [k], c.pushed) else c
  }

  function Run<K, V>(c: Cache<K, V>, cap: int, ops: seq<Op<K, V>>): Cache<K, V>
    decreases ops
  {
    if ops == [] then c else Run(Apply(c, cap, ops[0]), cap, ops[1..])
  }

  lemma {:induction false} LookupIn<K, V>(list: seq<Entry<K, V>>, k: K)
    ensures Lookup(list, k).Some? <==> k in Keys(list)
  {
    if list != [] {
      LookupIn(list[1..], k);
    }
  }

  lemma {:induction false} KeysDrop<K, V>(list: seq<Entry<K, V>>, k: K)
    ensures Keys(Drop(list, k)) == Without(Keys(list), k)
  {
    if list != [] && list[0].key != k {
      KeysDrop(list[1..], k);
    }
  }

  lemma {:induction false} KeysInit<K, V>(list: seq<Entry<K, V>>)
    requires list != []
    ensures |Keys(list)| == |list| && Keys(list[..|list| - 1]) == Keys(list)[..|list| - 1]
  {
    if |list| > 1 {
      KeysInit(list[1..]);
      assert list[..|list| - 1][1..] == list[1..][..|list| - 2];
    }
  }

  /** Dropping a key among the first `cap` frees one place. */
  lemma {:induction false} FirstHit<K>(ks: seq<K>, cap: int, k: K)
    requires Capacity(cap) && k in First(ks, cap)
    ensures Without(First(ks, cap), k) == First(Without(ks, k), Rest(cap))
    decreases |ks|
  {
    var tail := First(ks[1..], Rest(cap));
    assert First(ks, cap) == [ks[0]] + tail && First(ks, cap)[1..] == tail;
    if ks[0] != k {
      assert k in tail;
      FirstHit(ks[1..], Rest(cap), k);
      assert Without(ks, k)[1..] == Without(ks[1..], k);
    }
  }

  /** Dropping a key that is not among the first `cap` changes none of them. */
  lemma {:induction false} FirstMiss<K>(ks: seq<K>, cap: int, k: K)
    requires (cap == UNLIMITED || 0 <= cap) && k !in First(ks, cap)
    ensures First(Without(ks, k), cap) == First(ks, cap)
    decreases |ks|
  {
    if ks != [] && cap != 0 {
      FirstMiss(ks[1..], Rest(cap), k);
    }
  }

  /** `First` is a prefix: everything when there is room, else `cap` keys. */
  lemma {:induction false} FirstIsPrefix<K>(ks: seq<K>, cap: int)
    requires cap == UNLIMITED || 0 <= cap
    ensures First(ks, cap) == if cap == UNLIMITED || |ks| <= cap then ks else ks[..cap]
    decreases |ks|
  {
    if ks != [] && cap != 0 {
      var next := Rest(cap);
      FirstIsPrefix(ks[1..], next);
      if next != UNLIMITED && |ks[1..]| > next {
        assert ks[..cap] == [ks[0]] + ks[1..][..next];
      } else {
        assert ks == [ks[0]] + ks[1..];
      }
    }
  }

  ghost predicate Distinct<K>(ks: seq<K>) {
    ks == [] || (ks[0] !in ks[1..] && Distinct(ks[1..]))
  }

  lemma {:induction false} WithoutIn<K>(ks: seq<K>, k: K, j: K)
    requires Distinct(ks)
    ensures Distinct(Without(ks, k))
    ensures j in Without(ks, k) <==> j in ks && j != k
  {
    if ks != [] && ks[0] != k {
      WithoutIn(ks[1..], k, j);
      WithoutIn(ks[1..], k, ks[0]);
      assert Without(ks, k)[1..] == Without(ks[1..], k);
    }
  }

  lemma {:induction false} RecentDistinct<K>(trace: seq<K>)
    ensures Distinct(Recent(trace))
  {
    if trace != [] {
      var front, last := trace[..|trace| - 1], trace[|trace| - 1];
      RecentDistinct(front);
      WithoutIn(Recent(front), last, last);
      assert Recent(trace)[1..] == Without(Recent(front), last);
    }
  }

  lemma RecentPush<K>(trace: seq<K>, k: K)
    ensures Recent(trace + [k]) == [k] + Without(Recent(trace), k)
  {
    assert (trace + [k])[..|trace|] == trace;
  }

  lemma FirstCons<K>(k: K, ks: seq<K>, cap: int)
    requires Capacity(cap)
    ensures First([k] + ks, cap) == [k] + First(ks, Rest(cap))
  {
    assert ([k] + ks)[1..] == ks;
  }

  lemma {:induction false} LookupDrop<K, V>(list: seq<Entry<K, V>>, k: K, j: K)
    requires j != k
    ensures Lookup(Drop(list, k), j) == Lookup(list, j)
  {
    if list != [] && list[0].key != k {
      LookupDrop(list[1..], k, j);
    }
  }

  lemma {:induction false} LookupInit<K, V>(list: seq<Entry<K, V>>, j: K)
    requires list != [] && Lookup(list[..|list| - 1], j).Some?
    ensures Lookup(list, j) == Lookup(list[..|list| - 1], j)
  {
    if list[0].key != j {
      assert list[..|list| - 1][1..] == list[1..][..|list| - 2];
      LookupInit(list[1..], j);
    }
  }

  // ---------- The invariant of every run ----------

  /** The list is the `cap` most recently used keys, each with the last value pushed for it. */
  ghost predicate Faithful<K(!new), V>(c: Cache<K, V>, cap: int) {
    && Keys(c.list) == First(Recent(c.trace), cap)
    && (forall k :: Lookup(c.list, k).Some? ==> k in c.pushed && Lookup(c.list, k) == Some(c.pushed[k]))
  }

  lemma FaithfulDistinct<K(!new), V>(c: Cache<K, V>, cap: int)
    requires Capacity(cap) && Faithful(c, cap)
    ensures Distinct(Keys(c.list)) && (cap != UNLIMITED ==> |c.list| <= cap)
  {
    RecentDistinct(c.trace);
    FirstIsPrefix(Recent(c.trace), cap);
    PrefixDistinct(Recent(c.trace), |Keys(c.list)|);
    KeysLength(c.list);
  }

  lemma {:induction false} PrefixDistinct<K>(ks: seq<K>, n: nat)
    requires Distinct(ks) && n <= |ks|
    ensures Distinct(ks[..n])
  {
    if n > 0 {
      PrefixDistinct(ks[1..], n - 1);
      assert ks[..n][1..] == ks[1..][..n - 1];
    }
  }

  lemma {:induction false} KeysLength<K, V>(list: seq<Entry<K, V>>)
    ensures |Keys(list)| == |list|
  {
    if list != [] {
      KeysLength(list[1..]);
    }
  }

  /** Using a listed key moves it to the front and loses none. */
  lemma HitKeys<K, V>(list: seq<Entry<K, V>>, trace: seq<K>, cap: int, k: K, v: V)
    requires Capacity(cap) && Keys(list) == First(Recent(trace), cap) && Lookup(list, k).Some?
    ensures Keys([Entry(k, v)] + Drop(list, k)) == First(Recent(trace + [k]), cap)
  {
    LookupIn(list, k);
    KeysDrop(list, k);
    FirstHit(Recent(trace), cap, k);
    RecentPush(trace, k);
    FirstCons(k, Without(Recent(trace), k), cap);
    assert ([Entry(k, v)] + Drop(list, k))[1..] == Drop(list, k);
  }

  /** Pushing a new key puts it first and, when full, drops the least recent one. */
  lemma MissKeys<K, V>(list: seq<Entry<K, V>>, trace: seq<K>, cap: int, k: K, v: V)
    requires Capacity(cap) && Keys(list) == First(Recent(trace), cap) && Lookup(list, k).None?
    ensures Keys(Push(list, cap, k, v)) == First(Recent(trace + [k]), cap)
  {
    var recent := Recent(trace);
    var rest := Rest(cap);
    LookupIn(list, k);
    RecentPush(trace, k);
    FirstCons(k, Without(recent, k), cap);
    FirstIsPrefix(recent, cap);
    FirstIsPrefix(recent, rest);
    KeysLength(list);
    FirstMiss(recent, rest, k);
    var kept := if Full(list, cap) then list[..|list| - 1] else list;
    assert Push(list, cap, k, v)[1..] == kept;
    assert Keys(kept) == First(recent, rest) by {
      if Full(list, cap) {
        KeysInit(list);
        assert recent[..cap][..cap - 1] == recent[..cap - 1];
      }
    }
  }

  lemma PushKeepsFaithful<K(!new), V>(c: Cache<K, V>, cap: int, k: K, v: V)
    requires Capacity(cap) && Faithful(c, cap)
    ensures Faithful(Apply(c, cap, DoPush(k, v)), cap)
  {
    var d := Apply(c, cap, DoPush(k, v));
    FaithfulDistinct(c, cap);
    if Lookup(c.list, k).Some? {
      HitKeys(c.list, c.trace, cap, k, v);
    } else {
      MissKeys(c.list, c.trace, cap, k, v);
    }
    forall j | Lookup(d.list, j).Some?
      ensures j in d.pushed && Lookup(d.list, j) == Some(d.pushed[j])
    {
      if j != k {
        PushKeepsValue(c.list, cap, k, v, j);
      }
    }
  }

  /** A push leaves the value of every other key it keeps. */
  lemma PushKeepsValue<K, V>(list: seq<Entry<K, V>>, cap: int, k: K, v: V, j: K)
    requires j != k && Lookup(Push(list, cap, k, v), j).Some?
    ensures Lookup(Push(list, cap, k, v), j) == Lookup(list, j)
  {
    if Lookup(list, k).Some? {
      LookupDrop(list, k, j);
      assert Push(list, cap, k, v)[1..] == Drop(list, k);
    } else if Full(list, cap) && list != [] {
      assert Push(list, cap, k, v)[1..] == list[..|list| - 1];
      LookupInit(list, j);
    } else {
      assert Push(list, cap, k, v)[1..] == list;
    }
  }

  lemma GetKeepsFaithful<K(!new), V>(c: Cache<K, V>, cap: int, k: K)
    requires Capacity(cap) && Faithful(c, cap)
    ensures Faithful(Apply(c, cap, DoGet(k)), cap)
  {
    var d := Apply(c, cap, DoGet(k));
    if Lookup(c.list, k).Some? {
      HitKeys(c.list, c.trace, cap, k, Lookup(c.list, k).value);
      forall j | Lookup(d.list, j).Some?
        ensures j in d.pushed && Lookup(d.list, j) == Some(d.pushed[j])
      {
        assert d.list[1..] == Drop(c.list, k);
        if j != k {
          LookupDrop(c.list, k, j);
        }
      }
    }
  }

  lemma {:induction false} RunKeepsFaithful<K(!new), V>(c: Cache<K, V>, cap: int, ops: seq<Op<K, V>>)
    requires Capacity(cap) && Faithful(c, cap)
    ensures Faithful(Run(c, cap, ops), cap)
    decreases ops
  {
    if ops != [] {
      match ops[0] {
        case DoPush(k, v) => PushKeepsFaithful(c, cap, k, v);
        case DoGet(k) => GetKeepsFaithful(c, cap, k);
      }
      RunKeepsFaithful(Apply(c, cap, ops[0]), cap, ops[1..]);
    }
  }

  /** After any pushes and gets the list is the `cap` most recently used keys, in order of use, with
      no key twice and never over capacity; a key is found exactly when it is among those, and then
      with the value last pushed for it. */
  lemma RunFaithful<K(!new), V>(cap: int, ops: seq<Op<K, V>>, k: K)
    requires Capacity(cap)
    ensures
      var d := Run(Cache([], [], map[]), cap, ops);
      && Keys(d.list) == First(Recent(d.trace), cap)
      && Distinct(Keys(d.list))
      && (cap != UNLIMITED ==> |d.list| <= cap)
      && (Lookup(d.list, k).Some? <==> k in First(Recent(d.trace), cap))
      && (Lookup(d.list, k).Some? ==> k in d.pushed && Lookup(d.list, k).value == d.pushed[k])
  {
    RunKeepsFaithful(Cache([], [], map[]), cap, ops);
    var d := Run(Cache([], [], map[]), cap, ops);
    FaithfulDistinct(d, cap);
    LookupIn(d.list, k);
  }
}
