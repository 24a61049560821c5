/** The rate limiter: a counter restarted whenever the clock shows another second. */
module RateLimit {

  /** One request: the second it came in, and the limit in force when it was handled. */
  datatype Request = Request(now: int, limit: int)

  datatype Window = Window(last: int, count: nat)

  function Tick(w: Window, now: int): Window {
    if now != w.last then Window(now, 1) else Window(now, w.count + 1)
  }

  /** The window after counted requests at these times; it starts at second zero with nothing counted. */
  function WindowOf(times: seq<int>): Window {
    if times == [] then Window(0, 0) else Tick(WindowOf(times[..|times| - 1]), times[|times| - 1])
  }

  /** The times of the counted requests: without a limit the counter is not touched. */
  function Counted(reqs: seq<Request>): seq<int> {
    if reqs == [] then []
    else
      var r, front := reqs[|reqs| - 1], Counted(reqs[..|reqs| - 1]);
      if r.limit <= 0 then front else front + [r.now]
  }

  /** Whether the last of the requests is let through. */
  predicate Passes(reqs: seq<Request>)
    requires reqs != []
  {
    var limit := reqs[|reqs| - 1].limit;
    limit <= 0 || WindowOf(Counted(reqs)).count <= limit
  }

  /** How many of the counted requests of second `s` were let through. */
  function Passed(reqs: seq<Request>, s: int): nat {
    if reqs == [] then 0
    else
      var r := reqs[|reqs| - 1];
      Passed(reqs[..|reqs| - 1], s) + if r.now == s && r.limit > 0 && Passes(reqs) then 1 else 0
  }

  /** How many requests came in second `s`. */
  function Asked(times: seq<int>, s: int): nat {
    if times == [] then 0
    else Asked(times[..|times| - 1], s) + if times[|times| - 1] == s then 1 else 0
  }

  // ---------- What the counter counts ----------

  /** No counted request of another second came between those of second `s`. */
  ghost predicate Together(times: seq<int>, s: int) {
    forall i, j, k :: 0 <= i < j < k < |times| && times[i] == s && times[k] == s ==> times[j] == s
  }

  lemma {:induction false} NoneAsked(times: seq<int>, s: int)
    ensures Asked(times, s) == 0 <==> s !in times
  {
    if times != [] {
      var front := times[..|times| - 1];
      NoneAsked(front, s);
      assert times == front + [times[|times| - 1]];
    }
  }

  lemma TogetherShorter(times: seq<int>, s: int)
    requires times != [] && Together(times, s)
    ensures Together(times[..|times| - 1], s)
  {
    var front := times[..|times| - 1];
    assert forall i :: 0 <= i < |front| ==> front[i] == times[i];
  }

  /** The counter is at most the number of requests of the current second so far, and it is that number
      exactly when they stand together. */
  lemma {:induction false} CountsThisSecond(times: seq<int>)
    requires times != []
    ensures var s, w := times[|times| - 1], WindowOf(times);
      w.last == s && 0 < w.count <= Asked(times, s) && (w.count == Asked(times, s) <==> Together(times, s))
  {
    var n, front, s := |times| - 1, times[..|times| - 1], times[|times| - 1];
    if front != [] {
      CountsThisSecond(front);
      if front[n - 1] == s {
        SameSecond(times);
      } else {
        NoneAsked(front, s);
        OtherSecond(times);
      }
    }
  }

  lemma SameSecond(times: seq<int>)
    requires |times| >= 2 && times[|times| - 2] == times[|times| - 1]
    ensures var s := times[|times| - 1]; Together(times, s) <==> Together(times[..|times| - 1], s)
  {
    var n, s := |times| - 1, times[|times| - 1];
    if Together(times[..n], s) {
      forall i, j, k | 0 <= i < j < k < |times| && times[i] == s && times[k] == s
        ensures times[j] == s
      {
        if j < n - 1 {
          assert times[..n][i] == s && times[..n][n - 1] == s && times[..n][j] == times[j];
        }
      }
    }
    if Together(times, s) {
      TogetherShorter(times, s);
    }
  }

  lemma OtherSecond(times: seq<int>)
    requires |times| >= 2 && times[|times| - 2] != times[|times| - 1]
    ensures var s := times[|times| - 1]; Together(times, s) <==> s !in times[..|times| - 1]
  {
    var n, s := |times| - 1, times[|times| - 1];
    if s in times[..n] {
      var i :| 0 <= i < n && times[..n][i] == s;
      assert times[i] == s && times[n - 1] != s && times[n] == s;
    } else {
      forall i | 0 <= i < n ensures times[i] != s {
        assert times[..n][i] in times[..n];
      }
    }
  }

  // ---------- Who passes ----------

  lemma CountedLast(reqs: seq<Request>)
    requires reqs != [] && reqs[|reqs| - 1].limit > 0
    ensures var times, front := Counted(reqs), Counted(reqs[..|reqs| - 1]);
      |times| == |front| + 1 && times[|times| - 1] == reqs[|reqs| - 1].now && times[..|times| - 1] == front
  {
  }

  /** With the limit read anew for every request: one that is within its limit by the number of requests of
      its second always passes, and where these stand together it passes only then. */
  lemma PassesByRank(reqs: seq<Request>)
    requires reqs != [] && reqs[|reqs| - 1].limit > 0
    ensures var r, times := reqs[|reqs| - 1], Counted(reqs);
      && (Asked(times, r.now) <= r.limit ==> Passes(reqs))
      && (Together(times, r.now) ==> (Passes(reqs) <==> Asked(times, r.now) <= r.limit))
  {
    CountedLast(reqs);
    CountsThisSecond(Counted(reqs));
  }

  /** Where the requests of a second stand together, no more of them pass than the largest of their limits. */
  lemma {:induction false} PassedAtMost(reqs: seq<Request>, s: int, most: nat)
    requires Together(Counted(reqs), s)
    requires forall i :: 0 <= i < |reqs| && reqs[i].now == s ==> reqs[i].limit <= most
    ensures Passed(reqs, s) <= most && Passed(reqs, s) <= Asked(Counted(reqs), s)
  {
    if reqs != [] {
      var n := |reqs| - 1;
      if reqs[n].limit > 0 {
        CountedLast(reqs);
        TogetherShorter(Counted(reqs), s);
        PassesByRank(reqs);
      }
      PassedAtMost(reqs[..n], s, most);
    }
  }

  /** ... and under one limit exactly the first `limit` of them do. */
  lemma {:induction false} PassedIsLimited(reqs: seq<Request>, limit: int, s: int)
    requires 0 < limit && Together(Counted(reqs), s)
    requires forall i :: 0 <= i < |reqs| && reqs[i].now == s && reqs[i].limit > 0 ==> reqs[i].limit == limit
    ensures var asked := Asked(Counted(reqs), s); Passed(reqs, s) == if asked <= limit then asked else limit
  {
    if reqs != [] {
      var n := |reqs| - 1;
      if reqs[n].limit > 0 {
        CountedLast(reqs);
        TogetherShorter(Counted(reqs), s);
        PassesByRank(reqs);
      }
      PassedIsLimited(reqs[..n], limit, s);
    }
  }

  // ---------- When the limit holds ----------

  /** Requests at these times, all under one limit. */
  function Under(times: seq<int>, limit: int): (reqs: seq<Request>)
    ensures |reqs| == |times| && forall i :: 0 <= i < |times| ==> reqs[i] == Request(times[i], limit)
  {
    seq(|times|, i requires 0 <= i < |times| => Request(times[i], limit))
  }

  lemma {:induction false} UnderCounted(times: seq<int>, limit: int)
    requires 0 < limit
    ensures Counted(Under(times, limit)) == times
  {
    if times != [] {
      var n := |times| - 1;
      UnderCounted(times[..n], limit);
      assert Under(times, limit)[..n] == Under(times[..n], limit);
    }
  }

  /** While the counter stays within the limit every request of the second passes. */
  lemma {:induction false} AllPass(times: seq<int>, limit: int, s: int)
    requires 0 < limit
    requires forall n :: 0 < n <= |times| && times[n - 1] == s ==> WindowOf(times[..n]).count <= limit
    ensures Passed(Under(times, limit), s) == Asked(times, s)
  {
    if times != [] {
      var n := |times| - 1;
      UnderCounted(times, limit);
      assert Under(times, limit)[..n] == Under(times[..n], limit);
      assert times[..n + 1] == times;
      forall m | 0 < m <= n && times[..n][m - 1] == s
        ensures WindowOf(times[..n][..m]).count <= limit
      {
        assert times[..n][..m] == times[..m];
      }
      AllPass(times[..n], limit, s);
    }
  }

  lemma {:induction false} AskedPrefix(times: seq<int>, n: nat, s: int)
    requires n <= |times|
    ensures Asked(times[..n], s) <= Asked(times, s)
    ensures Asked(times[..n], s) == Asked(times, s) ==> forall i :: n <= i < |times| ==> times[i] != s
  {
    if n < |times| {
      var m := |times| - 1;
      assert times[..m][..n] == times[..n];
      AskedPrefix(times[..m], n, s);
      forall i | n <= i < |times| && Asked(times[..n], s) == Asked(times, s)
        ensures times[i] != s
      {
        if i < m {
          assert times[..m][i] == times[i];
        }
      }
    } else {
      assert times[..n] == times;
    }
  }

  /** A second whose requests do not stand together never counts them all at once. */
  lemma ApartNeverFull(times: seq<int>, n: nat, s: int)
    requires !Together(times, s) && 0 < n <= |times| && times[n - 1] == s
    ensures WindowOf(times[..n]).count < Asked(times, s)
  {
    CountsThisSecond(times[..n]);
    AskedPrefix(times, n, s);
    if Asked(times[..n], s) == Asked(times, s) {
      assert !Together(times[..n], s) by {
        var i, j, k :| 0 <= i < j < k < |times| && times[i] == s && times[k] == s && times[j] != s;
        assert k < n;
        assert times[..n][i] == s && times[..n][k] == s && times[..n][j] != s;
      }
    }
  }

  /** A second keeps to every limit if and only if its requests stand together: no clock that goes back and
      returns, and no request of another second handled in between. */
  lemma LimitHoldsIff(times: seq<int>, s: int)
    ensures (forall limit :: 0 < limit ==> Passed(Under(times, limit), s) <= limit) <==> Together(times, s)
  {
    if Together(times, s) {
      forall limit | 0 < limit
        ensures Passed(Under(times, limit), s) <= limit
      {
        UnderCounted(times, limit);
        PassedAtMost(Under(times, limit), s, limit);
      }
    } else {
      var i, j, k :| 0 <= i < j < k < |times| && times[i] == s && times[k] == s && times[j] != s;
      ApartNeverFull(times, i + 1, s);
      CountsThisSecond(times[..i + 1]);
      var limit := Asked(times, s) - 1;
      forall n | 0 < n <= |times| && times[n - 1] == s
        ensures WindowOf(times[..n]).count <= limit
      {
        ApartNeverFull(times, n, s);
      }
      AllPass(times, limit, s);
    }
  }

  // ---------- How many pass ----------

  /** The lengths of the maximal runs of requests of second `s`, first to last. */
  function RunsOf(times: seq<int>, s: int): (runs: seq<nat>)
    ensures times != [] && times[|times| - 1] == s ==> runs != []
  {
    if times == [] then []
    else
      var n := |times| - 1;
      var runs := RunsOf(times[..n], s);
      if times[n] != s then runs
      else if 0 < n && times[n - 1] == s then runs[..|runs| - 1] + [runs[|runs| - 1] + 1]
      else runs + [1]
  }

  /** Each run cut off at `limit`, and added up. */
  function SumOfMins(runs: seq<nat>, limit: nat): nat {
    if runs == [] then 0
    else
      var last := runs[|runs| - 1];
      SumOfMins(runs[..|runs| - 1], limit) + if last <= limit then last else limit
  }

  /** The counter is the length of the run it is in. */
  lemma {:induction false} CounterIsRun(times: seq<int>, s: int)
    requires times != [] && times[|times| - 1] == s
    ensures var runs := RunsOf(times, s); WindowOf(times) == Window(s, runs[|runs| - 1])
  {
    var n := |times| - 1;
    if 0 < n && times[n - 1] == s {
      CounterIsRun(times[..n], s);
    } else {
      CountsThisSecond(times);
      if 0 < n {
        CountsThisSecond(times[..n]);
      }
    }
  }

  lemma SumSnoc(runs: seq<nat>, last: nat, limit: nat)
    ensures SumOfMins(runs + [last], limit) == SumOfMins(runs, limit) + if last <= limit then last else limit
  {
    assert (runs + [last])[..|runs|] == runs;
  }

  lemma PassedSnoc(times: seq<int>, limit: int, s: int)
    requires 0 < limit && times != []
    ensures var n := |times| - 1;
      Passed(Under(times, limit), s) == Passed(Under(times[..n], limit), s)
        + if times[n] == s && WindowOf(times).count <= limit then 1 else 0
  {
    UnderCounted(times, limit);
    assert Under(times, limit)[..|times| - 1] == Under(times[..|times| - 1], limit);
  }

  /** One request more makes its run one longer. */
  lemma RunsSnoc(times: seq<int>, limit: nat, s: int)
    requires times != []
    ensures var n, runs := |times| - 1, RunsOf(times, s);
      SumOfMins(runs, limit) == SumOfMins(RunsOf(times[..n], s), limit)
        + if times[n] == s && runs[|runs| - 1] <= limit then 1 else 0
  {
    var n := |times| - 1;
    var runs := RunsOf(times[..n], s);
    if times[n] == s {
      if 0 < n && times[n - 1] == s {
        assert runs == runs[..|runs| - 1] + [runs[|runs| - 1]];
        SumSnoc(runs[..|runs| - 1], runs[|runs| - 1], limit);
        SumSnoc(runs[..|runs| - 1], runs[|runs| - 1] + 1, limit);
      } else {
        SumSnoc(runs, 1, limit);
      }
    }
  }

  /** Under one limit, whatever the clock does: of every maximal run of requests of a second the first `limit`
      pass, and that is all. */
  lemma {:induction false} PassedIsSumOfRuns(times: seq<int>, limit: nat, s: int)
    requires 0 < limit
    ensures Passed(Under(times, limit), s) == SumOfMins(RunsOf(times, s), limit)
  {
    if times != [] {
      PassedIsSumOfRuns(times[..|times| - 1], limit, s);
      PassedSnoc(times, limit, s);
      RunsSnoc(times, limit, s);
      if times[|times| - 1] == s {
        CounterIsRun(times, s);
      }
    }
  }

  function Total(runs: seq<nat>): nat {
    if runs == [] then 0 else Total(runs[..|runs| - 1]) + runs[|runs| - 1]
  }

  lemma TotalSnoc(runs: seq<nat>, last: nat)
    ensures Total(runs + [last]) == Total(runs) + last
  {
    assert (runs + [last])[..|runs|] == runs;
  }

  /** The runs are all the requests of the second, and there is at most one exactly when they stand together. */
  lemma {:induction false} RunsAreAll(times: seq<int>, s: int)
    ensures Total(RunsOf(times, s)) == Asked(times, s)
    ensures |RunsOf(times, s)| <= 1 <==> Together(times, s)
    ensures RunsOf(times, s) == [] <==> s !in times
  {
    if times != [] {
      var n := |times| - 1;
      RunsAreAll(times[..n], s);
      var runs := RunsOf(times[..n], s);
      if times[n] != s {
        ShorterTogether(times, s);
      } else if 0 < n && times[n - 1] == s {
        SameSecond(times);
        assert runs == runs[..|runs| - 1] + [runs[|runs| - 1]];
        TotalSnoc(runs[..|runs| - 1], runs[|runs| - 1]);
        TotalSnoc(runs[..|runs| - 1], runs[|runs| - 1] + 1);
      } else {
        TotalSnoc(runs, 1);
        if 0 < n {
          OtherSecond(times);
        }
      }
    }
  }

  /** A request of another second at the end changes nothing. */
  lemma ShorterTogether(times: seq<int>, s: int)
    requires times != [] && times[|times| - 1] != s
    ensures Together(times, s) <==> Together(times[..|times| - 1], s)
    ensures s in times <==> s in times[..|times| - 1]
  {
    var n, front := |times| - 1, times[..|times| - 1];
    assert times == front + [times[n]];
    if Together(front, s) {
      forall i, j, k | 0 <= i < j < k < |times| && times[i] == s && times[k] == s
        ensures times[j] == s
      {
        assert front[i] == s && front[k] == s && front[j] == times[j];
      }
    }
    if Together(times, s) {
      TogetherShorter(times, s);
    }
  }

  ghost predicate Forward(times: seq<int>) {
    forall i, j :: 0 <= i < j < |times| ==> times[i] <= times[j]
  }

  /** With a clock that never goes back every second keeps to every limit. */
  lemma ForwardHolds(times: seq<int>, s: int, limit: int)
    requires Forward(times) && 0 < limit
    ensures Passed(Under(times, limit), s) <= limit
  {
    LimitHoldsIff(times, s);
  }

  /** A clock that goes back and returns does not: here two requests pass in second 1 under a limit of one. */
  lemma ClockBackPassesMore()
    ensures exists limit :: 0 < limit && Passed(Under([1, 2, 1], limit), 1) > limit
  {
    LimitHoldsIff([1, 2, 1], 1);
    assert [1, 2, 1][0] == 1 && [1, 2, 1][1] == 2 && [1, 2, 1][2] == 1;
  }

  class RateLimitFilter {
    var lastSec: int
    var count: nat
    /** The times of the requests counted so far. */
    ghost var counted: seq<int>

    ghost predicate Valid()
      reads this
    {
      Window(lastSec, count) == WindowOf(counted)
    }

    constructor ()
      ensures Valid() && counted == []
    {
      lastSec, count, counted := 0, 0, [];
    }

    method Apply(limit: int, now: int) returns (passed: bool)
      requires Valid()
      modifies this
      ensures Valid()
      ensures counted == if limit <= 0 then old(counted) else old(counted) + [now]
      ensures passed <==> limit <= 0 || WindowOf(counted).count <= limit
    {
      if limit <= 0 {
        return true;
      }
      if now != lastSec {
        lastSec := now;
        count := 0;
      }
      count := count + 1;
      passed := count <= limit;
      counted := counted + [now];
    }
  }
}
