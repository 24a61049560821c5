/** Route lookup: the trie and the exact map, as values, against a search of the configured list. */
module Routes {
  import opened Options

  datatype Route = Route(prefix: string, exact: bool, targets: seq<string>, requiredToken: string)

  // ---------- What a lookup should answer ----------

  predicate ExactAt(routes: seq<Route>, path: string, i: int) {
    0 <= i < |routes| && routes[i].exact && routes[i].prefix == path
  }

  /** A prefix route that covers the path; the walk never looks at the root, so not the empty prefix. */
  predicate CoversAt(routes: seq<Route>, path: string, i: int) {
    0 <= i < |routes| && !routes[i].exact && routes[i].prefix != "" && routes[i].prefix <= path
  }

  /** The last exact route for the path; failing that the last of the longest covering prefixes. */
  ghost predicate Answer(routes: seq<Route>, path: string, r: Option<nat>) {
    if exists i :: ExactAt(routes, path, i) then
      r.Some? && ExactAt(routes, path, r.value) && forall j :: ExactAt(routes, path, j) ==> j <= r.value
    else match r
      case None => forall i :: !CoversAt(routes, path, i)
      case Some(i) =>
        && CoversAt(routes, path, i)
        && forall j :: CoversAt(routes, path, j) ==>
             |routes[j].prefix| < |routes[i].prefix| || (routes[j].prefix == routes[i].prefix && j <= i)
  }

  /** The answer is one. */
  lemma AnswerUnique(routes: seq<Route>, path: string, r: Option<nat>, q: Option<nat>)
    requires Answer(routes, path, r) && Answer(routes, path, q)
    ensures r == q
  {
    if exists i :: ExactAt(routes, path, i) {
    } else if r.Some? {
      assert CoversAt(routes, path, r.value);
    }
  }

  // ---------- Building ----------

  /** A trie as a table from the texts of its nodes to the routes stored there. */
  type Trie = map<string, Option<nat>>

  const ROOT: Trie := map["" := None]

  function Descend(t: Trie, s: string): Trie {
    if s in t then t else t[s := None]
  }

  /** The nodes along the first `k` characters of a prefix. */
  function Grown(t: Trie, prefix: string, k: nat): Trie
    requires k <= |prefix|
  {
    if k == 0 then t else Descend(Grown(t, prefix, k - 1), prefix[..k])
  }

  function Insert(t: Trie, prefix: string, i: nat): Trie {
    Grown(t, prefix, |prefix|)[prefix := Some(i)]
  }

  function BuildTrie(routes: seq<Route>): Trie {
    if routes == [] then ROOT
    else
      var n := |routes| - 1;
      var t := BuildTrie(routes[..n]);
      if routes[n].exact then t else Insert(t, routes[n].prefix, n)
  }

  function BuildExact(routes: seq<Route>): map<string, nat> {
    if routes == [] then map[]
    else
      var n := |routes| - 1;
      var m := BuildExact(routes[..n]);
      if routes[n].exact then m[routes[n].prefix := n] else m
  }

  /** The walk down the trie, keeping the last route seen. */
  function Walk(t: Trie, path: string, k: nat, best: Option<nat>): Option<nat>
    requires k <= |path|
    decreases |path| - k
  {
    if k == |path| || path[..k + 1] !in t then best
    else Walk(t, path, k + 1, if t[path[..k + 1]].Some? then t[path[..k + 1]] else best)
  }

  function Match(t: Trie, exact: map<string, nat>, path: string): Option<nat> {
    if path in exact then Some(exact[path]) else Walk(t, path, 0, None)
  }

  // ---------- What the structures mean ----------

  ghost predicate Closed(t: Trie) {
    "" in t && forall s :: s in t && s != "" ==> s[..|s| - 1] in t
  }

  predicate PlainAt(routes: seq<Route>, s: string, i: int) {
    0 <= i < |routes| && !routes[i].exact && routes[i].prefix == s
  }

  /** The node of a text holds the last prefix route with that text. */
  ghost predicate Holds(routes: seq<Route>, s: string, r: Option<nat>) {
    match r
    case None => forall i :: !PlainAt(routes, s, i)
    case Some(i) => PlainAt(routes, s, i) && forall j :: PlainAt(routes, s, j) ==> j <= i
  }

  ghost predicate Indexes(t: Trie, routes: seq<Route>) {
    forall s :: Holds(routes, s, if s in t then t[s] else None)
  }

  ghost predicate ExactIndexes(m: map<string, nat>, routes: seq<Route>) {
    forall s :: if s in m then ExactAt(routes, s, m[s]) && (forall j :: ExactAt(routes, s, j) ==> j <= m[s])
                else forall j :: !ExactAt(routes, s, j)
  }

  lemma DescendCloses(t: Trie, s: string)
    requires Closed(t) && (s != "" ==> s[..|s| - 1] in t)
    ensures Closed(Descend(t, s)) && s in Descend(t, s)
  {
  }

  lemma {:induction false} GrownCloses(t: Trie, prefix: string, k: nat)
    requires Closed(t) && k <= |prefix|
    ensures Closed(Grown(t, prefix, k)) && prefix[..k] in Grown(t, prefix, k)
  {
    if k > 0 {
      GrownCloses(t, prefix, k - 1);
      assert prefix[..k][..k - 1] == prefix[..k - 1];
      DescendCloses(Grown(t, prefix, k - 1), prefix[..k]);
    } else {
      assert prefix[..k] == "";
    }
  }

  lemma {:induction false} GrownMeans(t: Trie, prefix: string, k: nat, s: string)
    requires k <= |prefix|
    ensures var u := Grown(t, prefix, k);
      (s in t ==> s in u && u[s] == t[s]) && (s in u && s !in t ==> u[s] == None)
  {
    if k > 0 {
      GrownMeans(t, prefix, k - 1, s);
    }
  }

  lemma InsertMeans(t: Trie, prefix: string, i: nat, s: string)
    requires Closed(t)
    ensures var u := Insert(t, prefix, i);
      && Closed(u) && prefix in u && u[prefix] == Some(i)
      && (s != prefix ==> (if s in u then u[s] else None) == if s in t then t[s] else None)
  {
    GrownCloses(t, prefix, |prefix|);
    GrownMeans(t, prefix, |prefix|, s);
    assert prefix[..|prefix|] == prefix;
  }

  lemma HoldsSkip(routes: seq<Route>, s: string, r: Option<nat>)
    requires routes != [] && Holds(routes[..|routes| - 1], s, r)
    requires routes[|routes| - 1].exact || routes[|routes| - 1].prefix != s
    ensures Holds(routes, s, r)
  {
    var n := |routes| - 1;
    assert forall i :: PlainAt(routes, s, i) <==> PlainAt(routes[..n], s, i);
  }

  lemma {:induction false} BuildTrieMeans(routes: seq<Route>)
    ensures Closed(BuildTrie(routes)) && Indexes(BuildTrie(routes), routes)
  {
    if routes != [] {
      var n := |routes| - 1;
      var t, u := BuildTrie(routes[..n]), BuildTrie(routes);
      BuildTrieMeans(routes[..n]);
      if !routes[n].exact {
        InsertMeans(t, routes[n].prefix, n, "");
      }
      forall s
        ensures Holds(routes, s, if s in u then u[s] else None)
      {
        assert Holds(routes[..n], s, if s in t then t[s] else None);
        if routes[n].exact {
          HoldsSkip(routes, s, if s in t then t[s] else None);
        } else if s != routes[n].prefix {
          InsertMeans(t, routes[n].prefix, n, s);
          HoldsSkip(routes, s, if s in t then t[s] else None);
        } else {
          assert PlainAt(routes, s, n);
        }
      }
    }
  }

  lemma {:induction false} BuildExactMeans(routes: seq<Route>)
    ensures ExactIndexes(BuildExact(routes), routes)
  {
    if routes != [] {
      var n := |routes| - 1;
      BuildExactMeans(routes[..n]);
      assert forall s, i :: i != n ==> ExactAt(routes, s, i) == ExactAt(routes[..n], s, i);
    }
  }

  // ---------- The walk ----------

  /** Beyond a missing node there is none. */
  lemma {:induction false} NoneBelow(t: Trie, path: string, k: nat, j: nat)
    requires Closed(t) && k <= j <= |path| && path[..k] !in t
    ensures path[..j] !in t
  {
    if j > k {
      NoneBelow(t, path, k, j - 1);
      assert path[..j][..j - 1] == path[..j - 1];
    }
  }

  /** The longest prefix of length at most `k` with a route. */
  ghost predicate BestUpTo(t: Trie, path: string, k: nat, best: Option<nat>)
    requires k <= |path|
  {
    if best.None? then forall j :: 1 <= j <= k ==> path[..j] !in t || t[path[..j]] == None
    else exists j :: 1 <= j <= k && path[..j] in t && t[path[..j]] == best
           && forall i :: j < i <= k ==> path[..i] !in t || t[path[..i]] == None
  }

  lemma BestStep(t: Trie, path: string, k: nat, best: Option<nat>)
    requires k < |path| && BestUpTo(t, path, k, best) && path[..k + 1] in t
    ensures BestUpTo(t, path, k + 1, if t[path[..k + 1]].Some? then t[path[..k + 1]] else best)
  {
  }

  lemma BestStop(t: Trie, path: string, k: nat, best: Option<nat>)
    requires Closed(t) && k < |path| && BestUpTo(t, path, k, best) && path[..k + 1] !in t
    ensures BestUpTo(t, path, |path|, best)
  {
    forall j | k < j <= |path|
      ensures path[..j] !in t
    {
      NoneBelow(t, path, k + 1, j);
    }
  }

  lemma {:induction false} WalkFindsBest(t: Trie, path: string, k: nat, best: Option<nat>)
    requires Closed(t) && k <= |path| && BestUpTo(t, path, k, best)
    ensures BestUpTo(t, path, |path|, Walk(t, path, k, best))
    decreases |path| - k
  {
    if k < |path| {
      if path[..k + 1] in t {
        BestStep(t, path, k, best);
        WalkFindsBest(t, path, k + 1, if t[path[..k + 1]].Some? then t[path[..k + 1]] else best);
      } else {
        BestStop(t, path, k, best);
      }
    }
  }

  lemma CoversIsPlain(routes: seq<Route>, path: string, i: nat)
    requires CoversAt(routes, path, i)
    ensures var j := |routes[i].prefix|;
      1 <= j <= |path| && path[..j] == routes[i].prefix && PlainAt(routes, path[..j], i)
  {
  }

  /** A covering route leaves its mark at its own text. */
  lemma CoveredNode(routes: seq<Route>, t: Trie, path: string, i: int)
    requires Indexes(t, routes) && CoversAt(routes, path, i)
    ensures
      var k := |routes[i].prefix|;
      && 1 <= k <= |path| && path[..k] == routes[i].prefix && path[..k] in t
      && t[path[..k]].Some? && i <= t[path[..k]].value
  {
    CoversIsPlain(routes, path, i);
    var s := routes[i].prefix;
    assert Holds(routes, s, if s in t then t[s] else None);
  }

  lemma WalkAnswersSome(routes: seq<Route>, t: Trie, path: string, r: Option<nat>)
    requires Indexes(t, routes) && (forall i :: !ExactAt(routes, path, i))
    requires r.Some? && BestUpTo(t, path, |path|, r)
    ensures Answer(routes, path, r)
  {
    var j :| 1 <= j <= |path| && path[..j] in t && t[path[..j]] == r
      && forall i :: j < i <= |path| ==> path[..i] !in t || t[path[..i]] == None;
    assert Holds(routes, path[..j], r);
    forall i | CoversAt(routes, path, i)
      ensures |routes[i].prefix| < j || (routes[i].prefix == path[..j] && i <= r.value)
    {
      CoveredNode(routes, t, path, i);
    }
  }

  /** Without an exact route the walk gives the answer of the list. */
  lemma WalkAnswers(routes: seq<Route>, t: Trie, path: string)
    requires Closed(t) && Indexes(t, routes) && forall i :: !ExactAt(routes, path, i)
    ensures Answer(routes, path, Walk(t, path, 0, None))
  {
    var r := Walk(t, path, 0, None);
    WalkFindsBest(t, path, 0, None);
    if r.Some? {
      WalkAnswersSome(routes, t, path, r);
    } else {
      forall i
        ensures !CoversAt(routes, path, i)
      {
        if CoversAt(routes, path, i) {
          CoveredNode(routes, t, path, i);
          assert false;
        }
      }
    }
  }

  /** Exact map and trie together give exactly the answer of a search of the list. */
  lemma MatchAnswers(routes: seq<Route>, path: string)
    ensures Answer(routes, path, Match(BuildTrie(routes), BuildExact(routes), path))
  {
    BuildTrieMeans(routes);
    BuildExactMeans(routes);
    if path !in BuildExact(routes) {
      WalkAnswers(routes, BuildTrie(routes), path);
    }
  }

  // ---------- Loading ----------

  predicate DefaultAt(routes: seq<Route>, i: int) {
    0 <= i < |routes| && !routes[i].exact && routes[i].prefix == "/"
  }

  /** A list of routes is usable when it holds a default route. */
  ghost predicate Usable(routes: seq<Route>) {
    exists i :: DefaultAt(routes, i)
  }

  /** With a default route every path from the root of the site has a route. */
  lemma DefaultCovers(routes: seq<Route>, path: string, r: Option<nat>)
    requires Usable(routes) && "/" <= path && Answer(routes, path, r)
    ensures r.Some? && r.value < |routes|
  {
    var i :| DefaultAt(routes, i);
    assert CoversAt(routes, path, i);
  }

  /** Routes get the token configured for their prefix. */
  function WithToken(r: Route, tokens: map<string, string>): Route {
    if r.prefix in tokens then r.(requiredToken := tokens[r.prefix]) else r
  }

  function WithTokens(routes: seq<Route>, tokens: map<string, string>): (s: seq<Route>)
    ensures |s| == |routes| && forall i :: 0 <= i < |s| ==> s[i] == WithToken(routes[i], tokens)
  {
    if routes == [] then [] else WithTokens(routes[..|routes| - 1], tokens) + [WithToken(routes[|routes| - 1], tokens)]
  }

  /** A parsed configuration file. */
  datatype Parsed = Parsed(routes: seq<Route>, tokens: map<string, string>)

  /** An unusable file leaves the routes in force. */
  ghost function Loaded(routes: seq<Route>, file: Parsed): seq<Route> {
    if Usable(file.routes) then WithTokens(file.routes, file.tokens) else routes
  }

  /** The file's routes in its order, each with the token the file gives for its prefix, if any. */
  ghost predicate Carries(file: Parsed, routes: seq<Route>) {
    && |routes| == |file.routes|
    && forall i :: 0 <= i < |routes| ==>
         var r := file.routes[i];
         && routes[i].prefix == r.prefix && routes[i].exact == r.exact && routes[i].targets == r.targets
         && routes[i].requiredToken == if r.prefix in file.tokens then file.tokens[r.prefix] else r.requiredToken
  }

  /** A file takes effect exactly when one of its routes is a prefix route for "/". */
  lemma LoadMeans(routes: seq<Route>, file: Parsed)
    ensures
      if exists i :: 0 <= i < |file.routes| && !file.routes[i].exact && file.routes[i].prefix == "/"
      then Usable(file.routes) && Carries(file, Loaded(routes, file))
      else !Usable(file.routes) && Loaded(routes, file) == routes
  {
    if i :| 0 <= i < |file.routes| && !file.routes[i].exact && file.routes[i].prefix == "/" {
      assert DefaultAt(file.routes, i);
    }
  }

  ghost function AfterLoads(routes: seq<Route>, files: seq<Parsed>): seq<Route> {
    if files == [] then routes else Loaded(AfterLoads(routes, files[..|files| - 1]), files[|files| - 1])
  }

  /** Once one load has succeeded, whatever is loaded afterwards, every path from the root has a route. */
  lemma LoadsKeepDefault(routes: seq<Route>, files: seq<Parsed>, k: nat, path: string, r: Option<nat>)
    requires k < |files| && Usable(files[k].routes) && "/" <= path
    requires Answer(AfterLoads(routes, files), path, r)
    ensures r.Some?
  {
    LoadsUsable(routes, files, k);
    DefaultCovers(AfterLoads(routes, files), path, r);
  }

  lemma {:induction false} LoadsUsable(routes: seq<Route>, files: seq<Parsed>, k: nat)
    requires k < |files| && Usable(files[k].routes)
    ensures Usable(AfterLoads(routes, files))
  {
    var n := |files| - 1;
    if k < n {
      LoadsUsable(routes, files[..n], k);
    }
    if Usable(files[n].routes) {
      var i :| DefaultAt(files[n].routes, i);
      assert DefaultAt(WithTokens(files[n].routes, files[n].tokens), i);
    }
  }
}
