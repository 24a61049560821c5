/** std::set ordered by a comparator that looks at the deadline only. Two elements with one
    deadline are the same to it, so it is a map from deadlines; `begin` is the least deadline. */
module DeadlineSet {

  type DeadlineSet<D> = map<int, D>

  lemma EmptyIfNone(s: set<int>)
    ensures (forall k :: k !in s) ==> s == {}
  {
    if forall k :: k !in s {
      assert s <= {};
    }
  }

  lemma {:induction false} LeastExists(s: set<int>)
    requires s != {}
    ensures exists k :: k in s && forall j :: j in s ==> k <= j
  {
    EmptyIfNone(s);
    var k :| k in s;
    if s != {k} {
      var t := s - {k};
      assert s == t + {k};
      LeastExists(t);
      var m :| m in t && forall j :: j in t ==> m <= j;
      var least := if k <= m then k else m;
      assert forall j :: j in s ==> j == k || j in t;
      assert least in s && forall j :: j in s ==> least <= j;
    }
  }

  /** The deadline at begin(). */
  ghost function Front<D>(s: DeadlineSet<D>): (k: int)
    requires s != map[]
    ensures k in s && forall j :: j in s ==> k <= j
  {
    LeastExists(s.Keys);
    var k :| k in s.Keys && forall j :: j in s.Keys ==> k <= j;
    k
  }

  /** `insert`: does nothing when the deadline is taken. */
  function Insert<D>(s: DeadlineSet<D>, next: int, d: D): DeadlineSet<D> {
    if next in s then s else s[next := d]
  }

  /** The iterator returned by inserting at `next` equals begin(). */
  predicate AtFront<D>(s: DeadlineSet<D>, next: int) {
    forall j :: j in s ==> next <= j
  }

  /** Whether a deadline is the front does not depend on its own presence. */
  lemma FrontSame<D, E>(s: DeadlineSet<D>, t: DeadlineSet<E>, next: int)
    requires t.Keys == s.Keys + {next}
    ensures AtFront(s, next) <==> AtFront(t, next)
  {
    assert forall j :: j in s <==> j in s.Keys;
    assert forall j :: j in t <==> j in t.Keys;
  }
}
