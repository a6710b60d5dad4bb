/** The resource guard on untrusted documents (vcfspec/documents.py).

    The parser memoises aliases, so what it returns is a graph whose nodes may be shared and may even
    reach themselves.  Every later consumer walks the UNFOLDING of that graph; the guard bounds the
    unfolding's depth and its number of node occurrences with one early-exit traversal. */
module Documents {

  const MAX_DEPTH: nat := 40
  const MAX_NODES: nat := 200_000

  /** `kids[n]` lists the values of a mapping or the items of a list; a scalar has none. */
  datatype Graph = Graph(kids: seq<seq<nat>>) {
    function Kids(n: nat): seq<nat> {
      if n < |kids| then kids[n] else []
    }
  }

  // ---- What is bounded: the unfolding from a node ----

  /** The unfolding from n has at most d levels (a scalar has one). */
  predicate DepthWithin(g: Graph, n: nat, d: nat)
    decreases d
  {
    d > 0 && forall i :: 0 <= i < |g.Kids(n)| ==> DepthWithin(g, g.Kids(n)[i], d - 1)
  }

  /** Node occurrences in the first d levels of the unfolding from n. */
  function Nodes(g: Graph, n: nat, d: nat): nat
    decreases d, 0, 0
  {
    if d == 0 then 0 else 1 + NodesOf(g, g.Kids(n), d - 1)
  }

  function NodesOf(g: Graph, ns: seq<nat>, d: nat): nat
    decreases d, 1, |ns|
  {
    if ns == [] then 0 else NodesOf(g, ns[..|ns| - 1], d) + Nodes(g, ns[|ns| - 1], d)
  }

  function Max(a: nat, b: nat): nat { if a > b then a else b }

  /** The number of levels of the unfolding from n, looking at the first d only. */
  function Depth(g: Graph, n: nat, d: nat): nat
    decreases d, 0, 0
  {
    if d == 0 then 0 else 1 + DepthOf(g, g.Kids(n), d - 1)
  }

  function DepthOf(g: Graph, ns: seq<nat>, d: nat): nat
    decreases d, 1, |ns|
  {
    if ns == [] then 0 else Max(DepthOf(g, ns[..|ns| - 1], d), Depth(g, ns[|ns| - 1], d))
  }

  predicate Accepted(g: Graph, root: nat, maxDepth: nat, maxNodes: nat) {
    DepthWithin(g, root, maxDepth) && Nodes(g, root, maxDepth) <= maxNodes
  }

  /** A walk down the unfolding: each node is a child of the one before. */
  predicate IsWalk(g: Graph, w: seq<nat>) {
    forall i :: 0 <= i < |w| - 1 ==> w[i + 1] in g.Kids(w[i])
  }

  lemma {:induction false} DeepHasWalk(g: Graph, n: nat, d: nat) returns (w: seq<nat>)
    requires !DepthWithin(g, n, d)
    ensures |w| == d + 1 && w[0] == n && IsWalk(g, w)
    decreases d
  {
    w := [n];
    if d > 0 {
      var i :| 0 <= i < |g.Kids(n)| && !DepthWithin(g, g.Kids(n)[i], d - 1);
      var v := DeepHasWalk(g, g.Kids(n)[i], d - 1);
      w := [n] + v;
      forall j | 0 <= j < |w| - 1 ensures w[j + 1] in g.Kids(w[j]) {
        if j > 0 { assert w[j + 1] == v[(j - 1) + 1] && w[j] == v[j - 1]; }
      }
    }
  }

  lemma {:induction false} WalkIsDeep(g: Graph, w: seq<nat>)
    requires w != [] && IsWalk(g, w)
    ensures !DepthWithin(g, w[0], |w| - 1)
    decreases |w|
  {
    if |w| > 1 {
      var v := w[1..];
      forall j | 0 <= j < |v| - 1 ensures v[j + 1] in g.Kids(v[j]) {
        assert w[(j + 1) + 1] in g.Kids(w[j + 1]);
      }
      WalkIsDeep(g, v);
      assert w[0 + 1] in g.Kids(w[0]);
    }
  }

  /** Depth, read off walks: the unfolding exceeds d levels exactly when some walk from n has d + 1
      nodes.  In particular a node that reaches itself exceeds every bound. */
  lemma DeeperIffWalk(g: Graph, n: nat, d: nat)
    ensures !DepthWithin(g, n, d) <==> exists w: seq<nat> :: |w| == d + 1 && w[0] == n && IsWalk(g, w)
  {
    if !DepthWithin(g, n, d) { var w := DeepHasWalk(g, n, d); }
    forall w: seq<nat> | |w| == d + 1 && w[0] == n && IsWalk(g, w) ensures !DepthWithin(g, n, d) {
      WalkIsDeep(g, w);
    }
  }

  // ---- What is counted: the occurrences of nodes in the unfolding ----

  /** Child by child, the indices on the way down to an occurrence. */
  predicate IsOccurrence(g: Graph, n: nat, p: seq<nat>)
    decreases |p|
  {
    p != [] ==> p[0] < |g.Kids(n)| && IsOccurrence(g, g.Kids(n)[p[0]], p[1..])
  }

  function Below(i: nat, ps: set<seq<nat>>): set<seq<nat>> { set p | p in ps :: [i] + p }

  function Occurrences(g: Graph, n: nat, d: nat): set<seq<nat>>
    decreases d, 0, 0
  {
    if d == 0 then {} else {[]} + OccurrencesOf(g, g.Kids(n), d - 1)
  }

  function OccurrencesOf(g: Graph, ns: seq<nat>, d: nat): set<seq<nat>>
    decreases d, 1, |ns|
  {
    if ns == [] then {}
    else OccurrencesOf(g, ns[..|ns| - 1], d) + Below(|ns| - 1, Occurrences(g, ns[|ns| - 1], d))
  }

  /** The first d levels hold exactly the occurrences less than d steps down. */
  lemma {:induction false} OccurrencesAre(g: Graph, n: nat, d: nat, p: seq<nat>)
    ensures p in Occurrences(g, n, d) <==> |p| < d && IsOccurrence(g, n, p)
    decreases d, 0, 0
  {
    if d > 0 { OccurrencesOfAre(g, g.Kids(n), d - 1, p); }
  }

  lemma {:induction false} OccurrencesOfAre(g: Graph, ns: seq<nat>, d: nat, p: seq<nat>)
    ensures p in OccurrencesOf(g, ns, d) <==>
              p != [] && |p| <= d && p[0] < |ns| && IsOccurrence(g, ns[p[0]], p[1..])
    decreases d, 1, |ns|
  {
    if ns != [] {
      var last := |ns| - 1;
      OccurrencesOfAre(g, ns[..last], d, p);
      if p != [] {
        assert p == [p[0]] + p[1..];
        OccurrencesAre(g, ns[last], d, p[1..]);
      }
      forall q ensures ([last] + q)[1..] == q { }
    }
  }

  lemma {:induction false} BelowCount(i: nat, ps: set<seq<nat>>)
    ensures |Below(i, ps)| == |ps|
  {
    if ps != {} {
      var p :| p in ps;
      BelowCount(i, ps - {p});
      forall q | q in ps - {p} ensures [i] + q != [i] + p { assert ([i] + q)[1..] == q && ([i] + p)[1..] == p; }
      assert Below(i, ps) == Below(i, ps - {p}) + {[i] + p};
    } else {
      assert Below(i, ps) == {};
    }
  }

  /** And the count is theirs: a shared value counts once for every way to it. */
  lemma {:induction false} NodesCountOccurrences(g: Graph, n: nat, d: nat)
    ensures |Occurrences(g, n, d)| == Nodes(g, n, d)
    decreases d, 0, 0
  {
    if d > 0 {
      NodesOfCount(g, g.Kids(n), d - 1);
      OccurrencesOfAre(g, g.Kids(n), d - 1, []);
    }
  }

  lemma {:induction false} NodesOfCount(g: Graph, ns: seq<nat>, d: nat)
    ensures |OccurrencesOf(g, ns, d)| == NodesOf(g, ns, d)
    decreases d, 1, |ns|
  {
    if ns != [] {
      var last := |ns| - 1;
      NodesOfCount(g, ns[..last], d);
      NodesCountOccurrences(g, ns[last], d);
      BelowCount(last, Occurrences(g, ns[last], d));
      forall p | p in OccurrencesOf(g, ns[..last], d) ensures p !in Below(last, Occurrences(g, ns[last], d)) {
        OccurrencesOfAre(g, ns[..last], d, p);
      }
    }
  }

  /** Looking deeper than a bound the unfolding respects changes neither number: they are the depth
      and the size of the whole unfolding. */
  lemma {:induction false} BoundIsWhole(g: Graph, n: nat, d: nat, e: nat)
    requires DepthWithin(g, n, d) && d <= e
    ensures DepthWithin(g, n, e) && Nodes(g, n, e) == Nodes(g, n, d)
    ensures Depth(g, n, e) == Depth(g, n, d) <= d
    decreases d, 0
  {
    BoundIsWholeOf(g, g.Kids(n), d - 1, e - 1);
    forall i | 0 <= i < |g.Kids(n)| ensures DepthWithin(g, g.Kids(n)[i], e - 1) {
      BoundIsWhole(g, g.Kids(n)[i], d - 1, e - 1);
    }
  }

  lemma {:induction false} BoundIsWholeOf(g: Graph, ns: seq<nat>, d: nat, e: nat)
    requires d <= e && forall i :: 0 <= i < |ns| ==> DepthWithin(g, ns[i], d)
    ensures NodesOf(g, ns, e) == NodesOf(g, ns, d)
    ensures DepthOf(g, ns, e) == DepthOf(g, ns, d) <= d
    decreases d, 1, |ns|
  {
    if ns != [] {
      BoundIsWholeOf(g, ns[..|ns| - 1], d, e);
      BoundIsWhole(g, ns[|ns| - 1], d, e);
    }
  }

  /** The first d + 1 levels already show whether the unfolding respects d. */
  lemma {:induction false} DepthTells(g: Graph, n: nat, d: nat)
    ensures DepthWithin(g, n, d) <==> Depth(g, n, d + 1) <= d
    decreases d, 0
  {
    if d > 0 { DepthOfTells(g, g.Kids(n), d - 1); }
  }

  lemma {:induction false} DepthOfTells(g: Graph, ns: seq<nat>, d: nat)
    ensures (forall i :: 0 <= i < |ns| ==> DepthWithin(g, ns[i], d)) <==> DepthOf(g, ns, d + 1) <= d
    decreases d, 1, |ns|
  {
    if ns != [] {
      DepthOfTells(g, ns[..|ns| - 1], d);
      DepthTells(g, ns[|ns| - 1], d);
      var init := ns[..|ns| - 1];
      assert (forall i :: 0 <= i < |ns| ==> DepthWithin(g, ns[i], d))
             <==> (forall i :: 0 <= i < |init| ==> DepthWithin(g, init[i], d)) && DepthWithin(g, ns[|ns| - 1], d);
    }
  }

  // ---- The pending stack: what is still owed ----

  /** Levels a pending node at level l may still unfold, one past the limit included. */
  function Left(l: nat, maxDepth: nat): nat { if l <= maxDepth + 1 then maxDepth + 2 - l else 0 }

  function PendingNodes(g: Graph, st: seq<(nat, nat)>, maxDepth: nat): nat {
    if st == [] then 0
    else PendingNodes(g, st[..|st| - 1], maxDepth)
         + Nodes(g, st[|st| - 1].0, Left(st[|st| - 1].1, maxDepth))
  }

  lemma {:induction false} PendingAtLeastLength(g: Graph, st: seq<(nat, nat)>, maxDepth: nat)
    requires forall i :: 0 <= i < |st| ==> st[i].1 <= maxDepth + 1
    ensures PendingNodes(g, st, maxDepth) >= |st|
  {
    if st != [] { PendingAtLeastLength(g, st[..|st| - 1], maxDepth); }
  }

  /** Pushing the children of a node one by one accounts for exactly its descendants. */
  lemma PendingPush(g: Graph, st: seq<(nat, nat)>, n: nat, l: nat, maxDepth: nat)
    ensures PendingNodes(g, st + [(n, l)], maxDepth) == PendingNodes(g, st, maxDepth) + Nodes(g, n, Left(l, maxDepth))
  {
    assert (st + [(n, l)])[..|st|] == st;
  }

  lemma NodesOfPush(g: Graph, ns: seq<nat>, i: nat, d: nat)
    requires i < |ns|
    ensures NodesOf(g, ns[..i + 1], d) == NodesOf(g, ns[..i], d) + Nodes(g, ns[i], d)
  {
    assert ns[..i + 1][..i] == ns[..i];
  }

  lemma {:induction false} NodesOfAtLeast(g: Graph, ns: seq<nat>, d: nat)
    requires d > 0
    ensures NodesOf(g, ns, d) >= |ns|
    decreases |ns|
  {
    if ns != [] { NodesOfAtLeast(g, ns[..|ns| - 1], d); }
  }

  /** The deepest level a pending stack will still reach. */
  function PendingDepth(g: Graph, st: seq<(nat, nat)>, maxDepth: nat): int {
    if st == [] then 0
    else
      var (n, l) := st[|st| - 1];
      var here := l - 1 + Depth(g, n, Left(l, maxDepth));
      var below := PendingDepth(g, st[..|st| - 1], maxDepth);
      if below > here then below else here
  }

  function Layer(ns: seq<nat>, l: nat): seq<(nat, nat)> {
    seq(|ns|, i requires 0 <= i < |ns| => (ns[i], l))
  }

  lemma LayerPush(ns: seq<nat>, i: nat, l: nat)
    requires i < |ns|
    ensures Layer(ns[..i + 1], l) == Layer(ns[..i], l) + [(ns[i], l)]
  {
  }

  /** Replacing a node by its children leaves the reachable depth unchanged. */
  lemma {:induction false} PendingDepthLayer(g: Graph, rest: seq<(nat, nat)>, ns: seq<nat>, l: nat, maxDepth: nat)
    requires 1 <= l <= maxDepth + 1
    ensures var d := PendingDepth(g, rest + Layer(ns, l), maxDepth);
            if ns == [] then d == PendingDepth(g, rest, maxDepth)
            else d == var a, b := PendingDepth(g, rest, maxDepth), l - 1 + DepthOf(g, ns, maxDepth + 2 - l);
                      if a > b then a else b
    decreases |ns|
  {
    if ns == [] {
      assert rest + Layer(ns, l) == rest;
    } else {
      var k := |ns| - 1;
      LayerPush(ns, k, l);
      assert ns[..k + 1] == ns;
      var st := rest + Layer(ns, l);
      assert st[..|st| - 1] == rest + Layer(ns[..k], l);
      PendingDepthLayer(g, rest, ns[..k], l, maxDepth);
    }
  }

  function Larger(a: int, b: int): int { if a > b then a else b }

  /** One iteration leaves unchanged how deep the walk will have gone. */
  lemma DepthStep(g: Graph, rest: seq<(nat, nat)>, n: nat, l: nat, maxDepth: nat, deepest: int)
    requires 1 <= l <= maxDepth
    ensures Larger(deepest, PendingDepth(g, rest + [(n, l)], maxDepth))
            == Larger(Larger(deepest, l), PendingDepth(g, rest + Layer(g.Kids(n), l + 1), maxDepth))
  {
    var was := rest + [(n, l)];
    assert was[..|rest|] == rest;
    PendingDepthLayer(g, rest, g.Kids(n), l + 1, maxDepth);
    assert Depth(g, n, maxDepth + 2 - l) == 1 + DepthOf(g, g.Kids(n), maxDepth + 1 - l);
  }

  /** Pushing one more child keeps the account of what the stack owes. */
  lemma PushChild(g: Graph, rest: seq<(nat, nat)>, children: seq<nat>, i: nat, level: nat, maxDepth: nat)
    requires i < |children| && 1 <= level <= maxDepth
    ensures var stack := rest + Layer(children[..i], level + 1);
            && stack + [(children[i], level + 1)] == rest + Layer(children[..i + 1], level + 1)
            && PendingNodes(g, stack + [(children[i], level + 1)], maxDepth) - PendingNodes(g, stack, maxDepth)
               == NodesOf(g, children[..i + 1], maxDepth + 1 - level) - NodesOf(g, children[..i], maxDepth + 1 - level)
  {
    var stack := rest + Layer(children[..i], level + 1);
    NodesOfPush(g, children, i, maxDepth + 1 - level);
    LayerPush(children, i, level + 1);
    PendingPush(g, stack, children[i], level + 1, maxDepth);
    assert stack + [(children[i], level + 1)] == rest + Layer(children[..i + 1], level + 1);
  }

  /** Visiting a node: its children are counted as they are pushed, and the count stops it.  What the
      stack owed is what it owes now plus the visited node. */
  method Visit(g: Graph, rest: seq<(nat, nat)>, n: nat, level: nat, entry: nat, maxDepth: nat, maxNodes: nat)
    returns (stack: seq<(nat, nat)>, count: nat)
    requires 1 <= level <= maxDepth && |rest| < entry <= maxNodes
    requires forall i :: 0 <= i < |rest| ==> 1 <= rest[i].1 <= maxDepth + 1
    ensures count == entry + (|stack| - |rest|) + (if count > maxNodes then 1 else 0)
    ensures |stack| <= maxNodes && entry <= count
    ensures count <= maxNodes ==> && stack == rest + Layer(g.Kids(n), level + 1)
                                  && PendingNodes(g, rest + [(n, level)], maxDepth)
                                     == 1 + PendingNodes(g, stack, maxDepth)
    ensures count > maxNodes ==> entry - |rest| - 1 + PendingNodes(g, rest + [(n, level)], maxDepth) > maxNodes
  {
    var children := g.Kids(n);
    stack, count := rest, entry;
    assert rest + Layer(children[..0], level + 1) == rest;
    PendingPush(g, rest, n, level, maxDepth);
    assert Nodes(g, n, Left(level, maxDepth)) == 1 + NodesOf(g, children, maxDepth + 1 - level);
    for i := 0 to |children|
      invariant stack == rest + Layer(children[..i], level + 1)
      invariant count == entry + i <= maxNodes
      invariant PendingNodes(g, stack, maxDepth)
                == PendingNodes(g, rest, maxDepth) + NodesOf(g, children[..i], maxDepth + 1 - level)
    {
      count := count + 1;
      if count > maxNodes {
        NodesOfAtLeast(g, children, maxDepth + 1 - level);
        PendingAtLeastLength(g, rest, maxDepth);
        return;
      }
      PushChild(g, rest, children, i, level, maxDepth);
      stack := stack + [(children[i], level + 1)];
    }
    assert children[..|children|] == children;
  }

  lemma PendingStart(g: Graph, root: nat, maxDepth: nat)
    ensures PendingNodes(g, [(root, 1)], maxDepth) == Nodes(g, root, maxDepth + 1)
    ensures Larger(0, PendingDepth(g, [(root, 1)], maxDepth)) == Depth(g, root, maxDepth + 1)
  {
    assert [(root, 1)][..0] == [];
  }

  /** One level past the limit tells whether the document is within both limits. */
  lemma AcceptedTells(g: Graph, root: nat, maxDepth: nat, maxNodes: nat)
    ensures var (depth, total) := (Depth(g, root, maxDepth + 1), Nodes(g, root, maxDepth + 1));
            && (DepthWithin(g, root, maxDepth) <==> depth <= maxDepth)
            && (Accepted(g, root, maxDepth, maxNodes) <==> depth <= maxDepth && total <= maxNodes)
            && (Accepted(g, root, maxDepth, maxNodes) ==>
                  depth == Depth(g, root, maxDepth) && total == Nodes(g, root, maxDepth))
  {
    DepthTells(g, root, maxDepth);
    if DepthWithin(g, root, maxDepth) { BoundIsWhole(g, root, maxDepth, maxDepth + 1); }
  }

  /** One early-exit traversal answers both limits: within them it returns the exact depth and size,
      past either it says so, and its pending stack never outgrows the node limit. */
  method Inspect(g: Graph, root: nat, maxDepth: nat, maxNodes: nat)
    returns (deepest: nat, count: nat, ghost peak: nat)
    requires 1 <= maxDepth && 1 <= maxNodes
    ensures deepest <= maxDepth && count <= maxNodes <==> Accepted(g, root, maxDepth, maxNodes)
    ensures Accepted(g, root, maxDepth, maxNodes)
            ==> deepest == Depth(g, root, maxDepth) && count == Nodes(g, root, maxDepth)
    ensures deepest > maxDepth ==> !DepthWithin(g, root, maxDepth)
    ensures count > maxNodes ==> Nodes(g, root, maxDepth + 1) > maxNodes
    ensures peak <= maxNodes
  {
    deepest, count, peak := 0, 1, 1;
    var stack: seq<(nat, nat)> := [(root, 1)];
    ghost var total, depth := Nodes(g, root, maxDepth + 1), Depth(g, root, maxDepth + 1);
    PendingStart(g, root, maxDepth);
    AcceptedTells(g, root, maxDepth, maxNodes);
    while stack != []
      invariant |stack| <= count <= maxNodes && deepest <= maxDepth && peak <= maxNodes
      invariant forall i :: 0 <= i < |stack| ==> 1 <= stack[i].1 <= maxDepth + 1
      invariant total == count - |stack| + PendingNodes(g, stack, maxDepth)
      invariant depth == Larger(deepest, PendingDepth(g, stack, maxDepth))
      decreases maxNodes - (count - |stack|)
    {
      var (current, level) := stack[|stack| - 1];
      assert stack == stack[..|stack| - 1] + [(current, level)];
      stack := stack[..|stack| - 1];
      if level > maxDepth {
        deepest := Max(deepest, level);
        return;
      }
      DepthStep(g, stack, current, level, maxDepth, deepest);
      deepest := Max(deepest, level);
      stack, count := Visit(g, stack, current, level, count, maxDepth, maxNodes);
      peak := Max(peak, |stack|);
      if count > maxNodes {
        return;
      }
    }
  }

  datatype Loaded = Loaded(depth: nat, nodes: nat) | TooDeep | TooManyNodes

  /** The guard of load_document on a parsed mapping. */
  method CheckLimits(g: Graph, root: nat) returns (r: Loaded)
    ensures r.Loaded? <==> Accepted(g, root, MAX_DEPTH, MAX_NODES)
    ensures r.Loaded? ==> r.depth == Depth(g, root, MAX_DEPTH) && r.nodes == Nodes(g, root, MAX_DEPTH)
    ensures r.TooDeep? ==> !DepthWithin(g, root, MAX_DEPTH)
    ensures r.TooManyNodes? ==> Nodes(g, root, MAX_DEPTH + 1) > MAX_NODES
  {
    var depth, nodes, _ := Inspect(g, root, MAX_DEPTH, MAX_NODES);
    if depth > MAX_DEPTH {
      r := TooDeep;
    } else if nodes > MAX_NODES {
      r := TooManyNodes;
    } else {
      r := Loaded(depth, nodes);
    }
  }
}
