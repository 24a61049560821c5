/** The gateway configuration as an object: routes, the trie of nodes built from them, the exact map. */
module GatewayConfigs {
  import opened Options
  import opened Routes

  /** A trie node; `children` holds the nonempty entries of its array of 256 pointers. */
  class TrieNode {
    var children: map<char, TrieNode>
    var route: Option<nat>
    ghost const text: string

    constructor (ghost t: string)
      ensures children == map[] && route == None && text == t
    {
      text := t;
      children := map[];
      route := None;
    }
  }

  /** What a node is known to hold. */
  datatype Cell = Cell(node: TrieNode, children: map<char, TrieNode>, route: Option<nat>)

  type Cells = map<string, Cell>

  function Flat(cells: Cells): Trie {
    map s | s in cells :: cells[s].route
  }

  lemma FlatUpdate(cells: Cells, s: string, cell: Cell)
    ensures Flat(cells[s := cell]) == Flat(cells)[s := cell.route]
  {
  }

  /** The node of a text holds what is known of it. */
  ghost predicate HeldAt(cell: Cell, s: string, nodes: set<TrieNode>)
    reads nodes
  {
    cell.node in nodes && cell.node.text == s && cell.node.children == cell.children && cell.node.route == cell.route
  }

  ghost predicate Held(cells: Cells, nodes: set<TrieNode>)
    reads nodes
  {
    forall s :: s in cells ==> HeldAt(cells[s], s, nodes)
  }

  /** A node has a child for a character exactly when the longer text has a node, which is that child. */
  ghost predicate Edge(cells: Cells, s: string, c: char)
    requires s in cells
  {
    && (c in cells[s].children <==> s + [c] in cells)
    && (c in cells[s].children ==> cells[s].children[c] == cells[s + [c]].node)
  }

  ghost predicate HasParent(cells: Cells, s: string) {
    s != "" ==> s[..|s| - 1] in cells
  }

  ghost predicate Wired(cells: Cells) {
    && "" in cells
    && (forall s :: s in cells ==> HasParent(cells, s))
    && (forall s, c :: s in cells ==> Edge(cells, s, c))
  }

  lemma Extend(s: string, c: char)
    ensures (s + [c])[..|s + [c]| - 1] == s && (s + [c])[|s|] == c
  {
  }

  function WithChild(cell: Cell, c: char, leaf: TrieNode): Cell {
    cell.(children := cell.children[c := leaf])
  }

  /** A new leaf below `s`. */
  function WithLeaf(cells: Cells, s: string, c: char, leaf: TrieNode): Cells
    requires s in cells
  {
    cells[s + [c] := Cell(leaf, map[], None)][s := WithChild(cells[s], c, leaf)]
  }

  lemma LeafWired(cells: Cells, s: string, c: char, leaf: TrieNode)
    requires Wired(cells) && s in cells && s + [c] !in cells
    ensures Wired(WithLeaf(cells, s, c, leaf))
  {
    var n, more := s + [c], WithLeaf(cells, s, c, leaf);
    Extend(s, c);
    forall t | t in more
      ensures HasParent(more, t)
    {
      assert t in cells ==> HasParent(cells, t);
    }
    forall t, d | t in more
      ensures Edge(more, t, d)
    {
      Extend(t, d);
      if t == n {
        assert n + [d] in cells ==> HasParent(cells, n + [d]);
      } else {
        assert Edge(cells, t, d);
      }
    }
  }

  lemma LeafFlat(cells: Cells, s: string, c: char, leaf: TrieNode)
    requires s in cells && s + [c] !in cells
    ensures Flat(WithLeaf(cells, s, c, leaf)) == Flat(cells)[s + [c] := None]
  {
    var added := cells[s + [c] := Cell(leaf, map[], None)];
    FlatUpdate(cells, s + [c], Cell(leaf, map[], None));
    FlatUpdate(added, s, WithChild(cells[s], c, leaf));
    assert Flat(added)[s := cells[s].route] == Flat(added);
  }

  lemma RouteWired(cells: Cells, s: string, route: Option<nat>)
    requires Wired(cells) && s in cells
    ensures Wired(cells[s := cells[s].(route := route)])
  {
    var more := cells[s := cells[s].(route := route)];
    forall t | t in more
      ensures HasParent(more, t)
    {
      assert HasParent(cells, t);
    }
    forall t, c | t in more
      ensures Edge(more, t, c)
    {
      assert Edge(cells, t, c);
    }
  }

  lemma Steps(s: string)
    ensures s[..0] == "" && s[..|s|] == s
    ensures forall k :: 0 <= k < |s| ==> s[..k + 1] == s[..k] + [s[k]]
  {
  }

  lemma BuildStep(routes: seq<Route>, i: nat)
    requires i < |routes|
    ensures
      var r, t, m := routes[i], BuildTrie(routes[..i]), BuildExact(routes[..i]);
      && BuildTrie(routes[..i + 1]) == (if r.exact then t else Insert(t, r.prefix, i))
      && BuildExact(routes[..i + 1]) == (if r.exact then m[r.prefix := i] else m)
  {
    assert routes[..i + 1][..i] == routes[..i];
  }

  class GatewayConfig {
    var routes: seq<Route>
    var trieRoot: TrieNode?
    var exactMap: map<string, nat>
    ghost var cells: Cells
    ghost var nodes: set<TrieNode>

    /** The nodes in memory are a trie. */
    ghost predicate Shape()
      reads this, nodes
    {
      Wired(cells) && Held(cells, nodes) && cells[""].node == trieRoot
    }

    ghost predicate Valid()
      reads this, nodes
    {
      && exactMap == BuildExact(routes)
      && (trieRoot == null ==> routes == [])
      && (trieRoot != null ==> Shape() && Flat(cells) == Routes.BuildTrie(routes))
    }

    constructor ()
      ensures Valid() && routes == []
    {
      routes, trieRoot, exactMap := [], null, map[];
      cells, nodes := map[], {};
    }

    /** Point a node at a child. */
    method SetChild(node: TrieNode, ghost s: string, c: char, leaf: TrieNode)
      requires Held(cells, nodes) && s in cells && cells[s].node == node
      modifies node, this`cells
      ensures Held(cells, nodes) && cells == old(cells)[s := WithChild(old(cells)[s], c, leaf)]
      ensures c in node.children && node.children[c] == leaf
    {
      ghost var before := cells;
      node.children := node.children[c := leaf];
      cells := cells[s := WithChild(cells[s], c, leaf)];
      forall t | t in before && t != s
        ensures HeldAt(cells[t], t, nodes)
      {
        assert before[t].node != node;
      }
    }

    /** A new child of a node. */
    method AddChild(node: TrieNode, ghost s: string, c: char)
      requires Shape() && s in cells && cells[s].node == node && s + [c] !in cells
      modifies node, this`cells, this`nodes
      ensures Shape() && fresh(nodes - old(nodes)) && Flat(cells) == Flat(old(cells))[s + [c] := None]
      ensures s + [c] in cells && c in node.children && node.children[c] == cells[s + [c]].node
    {
      var made := new TrieNode(s + [c]);
      LeafWired(cells, s, c, made);
      LeafFlat(cells, s, c, made);
      Extend(s, c);
      cells := cells[s + [c] := Cell(made, map[], None)];
      nodes := nodes + {made};
      SetChild(node, s, c, made);
    }

    /** The child of a node for a character, made when missing. */
    method Child(node: TrieNode, ghost s: string, c: char) returns (next: TrieNode)
      requires Shape() && s in cells && cells[s].node == node
      modifies node, this`cells, this`nodes
      ensures Shape() && Flat(cells) == Descend(Flat(old(cells)), s + [c]) && fresh(nodes - old(nodes))
      ensures s + [c] in cells && cells[s + [c]].node == next
    {
      assert Edge(cells, s, c);
      if c !in node.children {
        AddChild(node, s, c);
      }
      next := node.children[c];
    }

    /** Set the route of a node. */
    method SetRoute(node: TrieNode, ghost s: string, i: nat)
      requires Shape() && s in cells && cells[s].node == node
      modifies node`route, this`cells
      ensures Shape() && Flat(cells) == Flat(old(cells))[s := Some(i)]
    {
      FlatUpdate(cells, s, cells[s].(route := Some(i)));
      RouteWired(cells, s, Some(i));
      ghost var before := cells;
      node.route := Some(i);
      cells := cells[s := cells[s].(route := Some(i))];
      forall t | t in before && t != s
        ensures HeldAt(cells[t], t, nodes)
      {
        assert before[t].node != node;
      }
    }

    /** One character further down a prefix. */
    method StepDown(node: TrieNode, prefix: string, k: nat, ghost base: Trie) returns (next: TrieNode)
      requires k < |prefix| && Shape() && Flat(cells) == Grown(base, prefix, k)
      requires prefix[..k] in cells && cells[prefix[..k]].node == node
      modifies node, this`cells, this`nodes
      ensures Shape() && Flat(cells) == Grown(base, prefix, k + 1) && fresh(nodes - old(nodes))
      ensures prefix[..k + 1] in cells && cells[prefix[..k + 1]].node == next
    {
      Steps(prefix);
      next := Child(node, prefix[..k], prefix[k]);
    }

    /** Walk down the characters of a prefix, making nodes where they are missing. */
    method WalkDown(prefix: string) returns (node: TrieNode)
      requires trieRoot != null && Shape()
      modifies nodes, this`cells, this`nodes
      ensures Shape() && Flat(cells) == Grown(Flat(old(cells)), prefix, |prefix|) && fresh(nodes - old(nodes))
      ensures prefix in cells && cells[prefix].node == node
    {
      node := trieRoot;
      Steps(prefix);
      for k := 0 to |prefix|
        invariant Shape() && fresh(nodes - old(nodes))
        invariant prefix[..k] in cells && cells[prefix[..k]].node == node
        invariant Flat(cells) == Grown(Flat(old(cells)), prefix, k)
      {
        node := StepDown(node, prefix, k, Flat(old(cells)));
      }
    }

    /** One prefix: mark its last node. */
    method InsertPrefix(prefix: string, i: nat)
      requires trieRoot != null && Shape()
      modifies nodes, this`cells, this`nodes
      ensures Shape() && Flat(cells) == Insert(Flat(old(cells)), prefix, i) && fresh(nodes - old(nodes))
    {
      var node := WalkDown(prefix);
      SetRoute(node, prefix, i);
    }

    /** One route, into the exact map or the trie. */
    method AddRoute(i: nat)
      requires trieRoot != null && Shape() && i < |routes|
      requires exactMap == BuildExact(routes[..i]) && Flat(cells) == Routes.BuildTrie(routes[..i])
      modifies nodes, this`exactMap, this`cells, this`nodes
      ensures Shape() && fresh(nodes - old(nodes))
      ensures exactMap == BuildExact(routes[..i + 1]) && Flat(cells) == Routes.BuildTrie(routes[..i + 1])
    {
      var r := routes[i];
      BuildStep(routes, i);
      if r.exact {
        exactMap := exactMap[r.prefix := i];
      } else {
        InsertPrefix(r.prefix, i);
      }
    }

    /** A root alone. */
    method Reset()
      modifies this`trieRoot, this`exactMap, this`cells, this`nodes
      ensures trieRoot != null && fresh(nodes) && Shape() && Flat(cells) == ROOT && exactMap == map[]
    {
      trieRoot := new TrieNode("");
      exactMap := map[];
      cells, nodes := map["" := Cell(trieRoot, map[], None)], {trieRoot};
      EmptyTrie();
    }

    method BuildTrie()
      modifies this`trieRoot, this`exactMap, this`cells, this`nodes
      ensures Valid() && trieRoot != null
    {
      Reset();
      for i := 0 to |routes|
        invariant trieRoot != null && fresh(nodes) && Shape()
        invariant exactMap == BuildExact(routes[..i]) && Flat(cells) == Routes.BuildTrie(routes[..i])
      {
        AddRoute(i);
      }
      assert routes[..|routes|] == routes;
    }

    lemma EmptyTrie()
      requires cells.Keys == {""} && cells[""].children == map[] && cells[""].route == None
      ensures Wired(cells) && Flat(cells) == ROOT
    {
      forall s, c | s in cells
        ensures Edge(cells, s, c)
      {
        assert s + [c] != "";
      }
    }

    /** The exact map first, then the walk down the trie; the answer is that of a search of the routes. */
    method MatchRoute(path: string) returns (best: Option<nat>)
      requires Valid()
      ensures Answer(routes, path, best)
    {
      MatchAnswers(routes, path);
      if path in exactMap {
        return Some(exactMap[path]);
      }
      best := None;
      if trieRoot == null {
        return;
      }
      var node: TrieNode := trieRoot;
      var k := 0;
      Steps(path);
      while k < |path|
        invariant k <= |path| && path[..k] in cells && cells[path[..k]].node == node
        invariant Walk(Flat(cells), path, k, best) == Walk(Flat(cells), path, 0, None)
      {
        assert Edge(cells, path[..k], path[k]);
        if path[k] !in node.children {
          break;
        }
        node := node.children[path[k]];
        if node.route.Some? {
          best := node.route;
        }
        k := k + 1;
      }
    }

    /** The search for a default route. */
    static method HasDefault(rs: seq<Route>) returns (found: bool)
      ensures found == Usable(rs)
    {
      for i := 0 to |rs|
        invariant forall j :: j < i ==> !DefaultAt(rs, j)
      {
        if !rs[i].exact && rs[i].prefix == "/" {
          assert DefaultAt(rs, i);
          return true;
        }
      }
      found := false;
    }

    static method SetTokens(rs: seq<Route>, tokens: map<string, string>) returns (s: seq<Route>)
      ensures s == WithTokens(rs, tokens)
    {
      s := rs;
      for i := 0 to |s|
        invariant |s| == |rs|
        invariant forall j :: 0 <= j < |s| ==> s[j] == if j < i then WithToken(rs[j], tokens) else rs[j]
      {
        if s[i].prefix in tokens {
          s := s[i := s[i].(requiredToken := tokens[s[i].prefix])];
        }
      }
    }

    /** The part of a load after parsing: a file without routes or without a default route is refused and
        changes nothing; otherwise routes get their tokens and the structures are rebuilt. */
    method Load(file: Parsed) returns (ok: bool)
      requires Valid()
      modifies this
      ensures Valid() && ok == Usable(file.routes)
      ensures routes == Loaded(old(routes), file)
      ensures if ok then Carries(file, routes) else routes == old(routes)
    {
      LoadMeans(routes, file);
      if file.routes == [] {
        return false;
      }
      ok := HasDefault(file.routes);
      if !ok {
        return;
      }
      routes := SetTokens(file.routes, file.tokens);
      BuildTrie();
    }
  }
}
