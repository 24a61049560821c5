/** Tallies along a sequence: the bookkeeping behind every conservation claim of the runtime
    (wake tokens, registrations, busy workers). `g(x, u)` is the share of `u` held by `x`. */
module Sums {

  ghost function Tally<T, U>(s: seq<T>, g: (T, U) -> nat, u: U): nat {
    if s == [] then 0 else g(s[0], u) + Tally(s[1..], g, u)
  }

  lemma {:induction false} TallyAppend<T, U>(a: seq<T>, b: seq<T>, g: (T, U) -> nat, u: U)
    ensures Tally(a + b, g, u) == Tally(a, g, u) + Tally(b, g, u)
  {
    if a == [] {
      assert a + b == b;
    } else {
      assert (a + b)[1..] == a[1..] + b;
      TallyAppend(a[1..], b, g, u);
    }
  }

  lemma TallyPush<T, U>(s: seq<T>, x: T, g: (T, U) -> nat, u: U)
    ensures Tally(s + [x], g, u) == Tally(s, g, u) + g(x, u)
  {
    TallyAppend(s, [x], g, u);
  }

  /** The tally of a sequence is that of one element plus that of the rest. */
  lemma TallySplit<T, U>(s: seq<T>, i: nat, g: (T, U) -> nat, u: U)
    requires i < |s|
    ensures Tally(s, g, u) == Tally(s[..i], g, u) + g(s[i], u) + Tally(s[i + 1..], g, u)
  {
    TallyAppend(s[..i], s[i..], g, u);
    assert s[..i] + s[i..] == s;
    assert s[i..][1..] == s[i + 1..];
  }

  lemma TallyRemove<T, U>(s: seq<T>, i: nat, g: (T, U) -> nat, u: U)
    requires i < |s|
    ensures Tally(s, g, u) == Tally(s[..i] + s[i + 1..], g, u) + g(s[i], u)
  {
    TallySplit(s, i, g, u);
    TallyAppend(s[..i], s[i + 1..], g, u);
  }

  lemma TallyUpdate<T, U>(s: seq<T>, i: nat, x: T, g: (T, U) -> nat, u: U)
    requires i < |s|
    ensures Tally(s[i := x], g, u) + g(s[i], u) == Tally(s, g, u) + g(x, u)
  {
    TallySplit(s, i, g, u);
    var t := s[i := x];
    assert t[..i] == s[..i] && t[i + 1..] == s[i + 1..];
    TallySplit(t, i, g, u);
  }

  lemma {:induction false} TallyZero<T, U>(s: seq<T>, g: (T, U) -> nat, u: U)
    requires forall i :: 0 <= i < |s| ==> g(s[i], u) == 0
    ensures Tally(s, g, u) == 0
  {
    if s != [] {
      TallyZero(s[1..], g, u);
    }
  }

  /** A positive tally has a positive share somewhere. */
  lemma {:induction false} TallyWitness<T, U>(s: seq<T>, g: (T, U) -> nat, u: U) returns (i: nat)
    requires 0 < Tally(s, g, u)
    ensures i < |s| && 0 < g(s[i], u)
  {
    if 0 < g(s[0], u) {
      i := 0;
    } else {
      var j := TallyWitness(s[1..], g, u);
      i := j + 1;
    }
  }

  function Is<T(==)>(x: T, u: T): nat {
    if x == u then 1 else 0
  }

  /** How often `u` occurs in `s`. */
  ghost function Times<T>(s: seq<T>, u: T): nat {
    Tally(s, Is, u)
  }
}
