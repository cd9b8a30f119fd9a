/** The union-find of Consolidate (internal/memory/dream.go:44-76). */
module UnionFind {
  // Over any table of pairwise similarities, the parent array with path halving
  // computes the connected components of the threshold graph.

  /** The similarity of two indices. */
  type Table = seq<seq<real>>

  function At(sim: Table, u: nat, v: nat): real
  {
    if u < |sim| && v < |sim[u]| then sim[u][v] else 0.0
  }

  ghost predicate IsSimilarity(sim: Table)
  {
    forall u: nat, v: nat :: At(sim, u, v) == At(sim, v, u) >= 0.0
  }

  // ------------------------------------------------- the threshold graph

  /** Two similar indices, as the nested loop meets it. */
  datatype Edge = Edge(a: nat, b: nat, sim: real)

  /** The pairs at or above the threshold met before the pair (i, j). */
  function EdgesUpTo(sim: Table, threshold: real, n: nat, i: nat, j: nat): seq<Edge>
    requires i < j <= n
    decreases i, j
  {
    if j > i + 1 then EdgesUpTo(sim, threshold, n, i, j - 1) + PairEdge(sim, threshold, n, i, j - 1)
    else if i > 0 then EdgesUpTo(sim, threshold, n, i - 1, n)
    else []
  }

  function PairEdge(sim: Table, threshold: real, n: nat, i: nat, j: nat): seq<Edge>
    requires i < j < n
  {
    if At(sim, i, j) >= threshold then [Edge(i, j, At(sim, i, j))] else []
  }

  function Edges(sim: Table, threshold: real, n: nat): seq<Edge>
  {
    if n == 0 then [] else EdgesUpTo(sim, threshold, n, n - 1, n)
  }

  ghost predicate IsPair(e: Edge, sim: Table, threshold: real, n: nat)
  {
    && e.a < e.b < n
    && e.sim == At(sim, e.a, e.b) >= threshold
  }

  lemma {:induction false} EdgesUpToArePairs(sim: Table, threshold: real, n: nat, i: nat, j: nat)
    requires i < j <= n
    ensures forall e :: e in EdgesUpTo(sim, threshold, n, i, j)
              <==> IsPair(e, sim, threshold, n) && (e.a < i || (e.a == i && e.b < j))
    decreases i, j
  {
    if j > i + 1 {
      EdgesUpToArePairs(sim, threshold, n, i, j - 1);
    } else if i > 0 {
      EdgesUpToArePairs(sim, threshold, n, i - 1, n);
    }
  }

  lemma EdgesArePairs(sim: Table, threshold: real, n: nat)
    ensures forall e :: e in Edges(sim, threshold, n) <==> IsPair(e, sim, threshold, n)
  {
    if n > 0 {
      EdgesUpToArePairs(sim, threshold, n, n - 1, n);
    }
  }

  // --------------------------------------------------- linking, abstractly

  /** What the scan knows: each index's root, and the similarity kept per root. */
  datatype Scan = Scan(rep: seq<nat>, best: map<nat, real>)

  function BestAt(best: map<nat, real>, r: nat): real { if r in best then best[r] else 0.0 }

  ghost predicate InRange(edges: seq<Edge>, n: nat)
  {
    forall e :: e in edges ==> e.a < n && e.b < n
  }

  ghost predicate Rooted(rep: seq<nat>)
  {
    forall x :: 0 <= x < |rep| ==> rep[x] < |rep| && rep[rep[x]] == rep[x]
  }

  function Redirect(rep: seq<nat>, from: nat, to: nat): seq<nat>
  {
    seq(|rep|, x requires 0 <= x < |rep| => if rep[x] == from then to else rep[x])
  }

  function Link(s: Scan, e: Edge): Scan
    requires e.a < |s.rep| && e.b < |s.rep|
  {
    var rep := if s.rep[e.a] == s.rep[e.b] then s.rep else Redirect(s.rep, s.rep[e.a], s.rep[e.b]);
    var root := rep[e.a];
    Scan(rep, if e.sim > BestAt(s.best, root) then s.best[root := e.sim] else s.best)
  }

  function LinkAll(n: nat, edges: seq<Edge>): (s: Scan)
    requires InRange(edges, n)
    ensures |s.rep| == n
  {
    if |edges| == 0 then Scan(seq(n, i => i), map[])
    else Link(LinkAll(n, edges[..|edges| - 1]), edges[|edges| - 1])
  }

  lemma LinkOneMore(n: nat, edges: seq<Edge>, e: Edge)
    requires InRange(edges, n) && e.a < n && e.b < n
    ensures InRange(edges + [e], n) && LinkAll(n, edges + [e]) == Link(LinkAll(n, edges), e)
  {
    assert (edges + [e])[..|edges|] == edges;
  }

  lemma {:induction false} LinkAllIsRooted(n: nat, edges: seq<Edge>)
    requires InRange(edges, n)
    ensures Rooted(LinkAll(n, edges).rep)
  {
    if |edges| > 0 {
      LinkAllIsRooted(n, edges[..|edges| - 1]);
    }
  }

  // ---------------------------------------------------------- connectivity

  ghost predicate Adjacent(edges: seq<Edge>, u: nat, v: nat)
  {
    exists e :: e in edges && ((e.a == u && e.b == v) || (e.a == v && e.b == u))
  }

  ghost predicate IsPath(edges: seq<Edge>, path: seq<nat>, u: nat, v: nat)
  {
    && |path| > 0 && path[0] == u && path[|path| - 1] == v
    && forall k :: 0 <= k < |path| - 1 ==> Adjacent(edges, path[k], path[k + 1])
  }

  ghost predicate Connected(edges: seq<Edge>, u: nat, v: nat)
  {
    exists path: seq<nat> :: IsPath(edges, path, u, v)
  }

  lemma ConnectedSelf(edges: seq<Edge>, u: nat)
    ensures Connected(edges, u, u)
  {
    assert IsPath(edges, [u], u, u);
  }

  lemma ConnectedEdge(edges: seq<Edge>, e: Edge)
    requires e in edges
    ensures Connected(edges, e.a, e.b) && Connected(edges, e.b, e.a)
  {
    assert Adjacent(edges, e.a, e.b) && Adjacent(edges, e.b, e.a);
    assert IsPath(edges, [e.a, e.b], e.a, e.b) && IsPath(edges, [e.b, e.a], e.b, e.a);
  }

  lemma ConnectedTransitive(edges: seq<Edge>, u: nat, v: nat, w: nat)
    requires Connected(edges, u, v) && Connected(edges, v, w)
    ensures Connected(edges, u, w)
  {
    var p: seq<nat> :| IsPath(edges, p, u, v);
    var q: seq<nat> :| IsPath(edges, q, v, w);
    var r := p + q[1..];
    forall k | 0 <= k < |r| - 1 ensures Adjacent(edges, r[k], r[k + 1]) {
      if k >= |p| - 1 {
        assert r[k] == q[k - (|p| - 1)] && r[k + 1] == q[k + 1 - (|p| - 1)];
      }
    }
    assert IsPath(edges, r, u, w);
  }

  lemma ConnectedGrows(edges: seq<Edge>, more: seq<Edge>, u: nat, v: nat)
    requires Connected(edges, u, v) && forall e :: e in edges ==> e in more
    ensures Connected(more, u, v)
  {
    var p: seq<nat> :| IsPath(edges, p, u, v);
    forall k | 0 <= k < |p| - 1 ensures Adjacent(more, p[k], p[k + 1]) {
      assert Adjacent(edges, p[k], p[k + 1]);
    }
    assert IsPath(more, p, u, v);
  }

  /** Along a path of linked edges the root never changes. */
  lemma {:induction false} PathKeepsRoot(n: nat, rep: seq<nat>, edges: seq<Edge>, path: seq<nat>, u: nat, v: nat)
    requires |rep| == n && InRange(edges, n) && u < n && v < n
    requires forall e :: e in edges ==> rep[e.a] == rep[e.b]
    requires IsPath(edges, path, u, v)
    ensures rep[u] == rep[v]
    decreases |path|
  {
    if |path| > 1 {
      assert Adjacent(edges, path[0], path[1]);
      forall k | 0 <= k < |path[1..]| - 1 ensures Adjacent(edges, path[1..][k], path[1..][k + 1]) {
        assert Adjacent(edges, path[k + 1], path[k + 2]);
      }
      PathKeepsRoot(n, rep, edges, path[1..], path[1], v);
    }
  }

  lemma {:induction false} LinkedEdgesShareRoot(n: nat, edges: seq<Edge>)
    requires InRange(edges, n)
    ensures forall e :: e in edges ==> LinkAll(n, edges).rep[e.a] == LinkAll(n, edges).rep[e.b]
  {
    if |edges| > 0 {
      var before, e := edges[..|edges| - 1], edges[|edges| - 1];
      LinkedEdgesShareRoot(n, before);
      assert forall d :: d in edges ==> d in before || d == e;
    }
  }

  lemma {:induction false} SameRootIsConnected(n: nat, edges: seq<Edge>, u: nat, v: nat)
    requires InRange(edges, n) && u < n && v < n
    requires LinkAll(n, edges).rep[u] == LinkAll(n, edges).rep[v]
    ensures Connected(edges, u, v)
  {
    if |edges| == 0 {
      ConnectedSelf(edges, u);
    } else {
      var before, e := edges[..|edges| - 1], edges[|edges| - 1];
      var s := LinkAll(n, before);
      if s.rep[u] == s.rep[v] {
        SameRootIsConnected(n, before, u, v);
        ConnectedGrows(before, edges, u, v);
      } else {
        // One of them was in the class of e.a, the other in the class of e.b.
        ConnectedEdge(edges, e);
        var x, y := if s.rep[u] == s.rep[e.a] then e.a else e.b, if s.rep[u] == s.rep[e.a] then e.b else e.a;
        SameRootIsConnected(n, before, u, x);
        SameRootIsConnected(n, before, y, v);
        ConnectedGrows(before, edges, u, x);
        ConnectedGrows(before, edges, y, v);
        ConnectedTransitive(edges, u, x, y);
        ConnectedTransitive(edges, u, y, v);
      }
    }
  }

  /** Two indices have the same root iff a chain of edges joins them. */
  lemma RootsAreComponents(n: nat, edges: seq<Edge>, u: nat, v: nat)
    requires InRange(edges, n) && u < n && v < n
    ensures LinkAll(n, edges).rep[u] == LinkAll(n, edges).rep[v] <==> Connected(edges, u, v)
  {
    if LinkAll(n, edges).rep[u] == LinkAll(n, edges).rep[v] {
      SameRootIsConnected(n, edges, u, v);
    }
    if Connected(edges, u, v) {
      var path: seq<nat> :| IsPath(edges, path, u, v);
      LinkedEdgesShareRoot(n, edges);
      PathKeepsRoot(n, LinkAll(n, edges).rep, edges, path, u, v);
    }
  }

  /** A chain of indices, each at least `threshold` similar to the next. */
  ghost predicate Chain(sim: Table, threshold: real, n: nat, chain: seq<nat>, u: nat, v: nat)
  {
    && |chain| > 0 && chain[0] == u && chain[|chain| - 1] == v
    && (forall k :: 0 <= k < |chain| ==> chain[k] < n)
    && (forall k :: 0 <= k < |chain| - 1 ==>
          (chain[k] != chain[k + 1] && At(sim, chain[k], chain[k + 1]) >= threshold))
  }

  lemma AdjacentIsSimilar(sim: Table, threshold: real, n: nat, u: nat, v: nat)
    requires IsSimilarity(sim) && u < n && v < n
    ensures Adjacent(Edges(sim, threshold, n), u, v)
       <==> u != v && At(sim, u, v) >= threshold
  {
    EdgesArePairs(sim, threshold, n);
    if u != v && At(sim, u, v) >= threshold {
      var a, b := if u < v then u else v, if u < v then v else u;
      assert IsPair(Edge(a, b, At(sim, a, b)), sim, threshold, n);
    }
  }

  /** What one pair adds. */
  function StepPair(s: Scan, i: nat, j: nat, sim: real, threshold: real): (t: Scan)
    requires i < |s.rep| && j < |s.rep|
    ensures |t.rep| == |s.rep|
  {
    if sim >= threshold then Link(s, Edge(i, j, sim)) else s
  }

  /** The scan states of one row of the loop, pair by pair. */
  ghost predicate RowStep(states: seq<Scan>, i: nat, j: nat, row: seq<real>, threshold: real)
  {
    && j + 1 < |states| && j < |row|
    && i < |states[j].rep| && j < |states[j].rep|
    && states[j + 1] == StepPair(states[j], i, j, row[j], threshold)
  }

  /** What the nested loop knows when it comes to the pair (i, j). */
  function ScanUpTo(sim: Table, threshold: real, n: nat, i: nat, j: nat): (s: Scan)
    requires i < j <= n
    ensures |s.rep| == n
    decreases i, j
  {
    if j > i + 1 then StepPair(ScanUpTo(sim, threshold, n, i, j - 1), i, j - 1, At(sim, i, j - 1), threshold)
    else if i > 0 then ScanUpTo(sim, threshold, n, i - 1, n)
    else Scan(seq(n, x => x), map[])
  }

  lemma RowStates(sim: Table, threshold: real, n: nat, i: nat) returns (states: seq<Scan>)
    requires i < n == |sim| == |sim[i]|
    ensures |states| == n + 1
    ensures forall j :: i < j <= n ==> states[j] == ScanUpTo(sim, threshold, n, i, j)
    ensures forall j :: i < j < n ==> RowStep(states, i, j, sim[i], threshold)
  {
    states := seq(n + 1, j requires 0 <= j <= n =>
      if i < j then ScanUpTo(sim, threshold, n, i, j) else Scan([], map[]));
  }

  lemma LastEdge(sim: Table, threshold: real, n: nat, i: nat, j: nat)
    requires i + 1 < j <= n
    ensures var before, e := EdgesUpTo(sim, threshold, n, i, j - 1), Edge(i, j - 1, At(sim, i, j - 1));
            EdgesUpTo(sim, threshold, n, i, j) == if e.sim >= threshold then before + [e] else before
  {
  }

  lemma PairLinksEdge(n: nat, before: seq<Edge>, s: Scan, i: nat, j: nat, sim: real, threshold: real)
    requires InRange(before, n) && s == LinkAll(n, before) && i < n && j < n
    ensures var edges := if sim >= threshold then before + [Edge(i, j, sim)] else before;
            InRange(edges, n) && StepPair(s, i, j, sim, threshold) == LinkAll(n, edges)
  {
    if sim >= threshold {
      LinkOneMore(n, before, Edge(i, j, sim));
    }
  }

  /** The scan state is what linking the edges one by one gives. */
  ghost predicate Links(s: Scan, n: nat, edges: seq<Edge>)
  {
    InRange(edges, n) && s == LinkAll(n, edges)
  }

  lemma NothingLinked(sim: Table, threshold: real, n: nat)
    requires 0 < n
    ensures Links(ScanUpTo(sim, threshold, n, 0, 1), n, EdgesUpTo(sim, threshold, n, 0, 1))
  {
  }

  lemma RowLinks(sim: Table, threshold: real, n: nat, i: nat)
    requires 0 < i < n && Links(ScanUpTo(sim, threshold, n, i - 1, n), n, EdgesUpTo(sim, threshold, n, i - 1, n))
    ensures Links(ScanUpTo(sim, threshold, n, i, i + 1), n, EdgesUpTo(sim, threshold, n, i, i + 1))
  {
  }

  lemma PairLinks(sim: Table, threshold: real, n: nat, i: nat, j: nat)
    requires i + 1 < j <= n && Links(ScanUpTo(sim, threshold, n, i, j - 1), n, EdgesUpTo(sim, threshold, n, i, j - 1))
    ensures Links(ScanUpTo(sim, threshold, n, i, j), n, EdgesUpTo(sim, threshold, n, i, j))
  {
    LastEdge(sim, threshold, n, i, j);
    PairLinksEdge(n, EdgesUpTo(sim, threshold, n, i, j - 1), ScanUpTo(sim, threshold, n, i, j - 1),
                  i, j - 1, At(sim, i, j - 1), threshold);
  }

  lemma {:induction false} ScanLinksEdges(sim: Table, threshold: real, n: nat, i: nat, j: nat)
    requires i < j <= n
    ensures Links(ScanUpTo(sim, threshold, n, i, j), n, EdgesUpTo(sim, threshold, n, i, j))
    decreases i, j
  {
    if j > i + 1 {
      ScanLinksEdges(sim, threshold, n, i, j - 1);
      PairLinks(sim, threshold, n, i, j);
    } else if i > 0 {
      ScanLinksEdges(sim, threshold, n, i - 1, n);
      RowLinks(sim, threshold, n, i);
    } else {
      NothingLinked(sim, threshold, n);
    }
  }

  /** What the nested loop knows at the end. */
  function Roots(sim: Table, threshold: real, n: nat): (s: Scan)
    ensures |s.rep| == n
  {
    if n == 0 then Scan([], map[]) else ScanUpTo(sim, threshold, n, n - 1, n)
  }

  lemma RootsLinkEdges(sim: Table, threshold: real, n: nat)
    ensures InRange(Edges(sim, threshold, n), n)
    ensures Roots(sim, threshold, n) == LinkAll(n, Edges(sim, threshold, n))
    ensures Rooted(Roots(sim, threshold, n).rep)
  {
    if n > 0 {
      ScanLinksEdges(sim, threshold, n, n - 1, n);
    }
    LinkAllIsRooted(n, Edges(sim, threshold, n));
  }

  /** The main result: two indices end with one root iff a chain of
      above-threshold pairs joins them. */
  lemma ClustersAreComponents(sim: Table, threshold: real, n: nat, u: nat, v: nat)
    requires IsSimilarity(sim) && u < n && v < n
    ensures Roots(sim, threshold, n).rep[u] == Roots(sim, threshold, n).rep[v]
       <==> exists chain: seq<nat> :: Chain(sim, threshold, n, chain, u, v)
  {
    var edges := Edges(sim, threshold, n);
    RootsLinkEdges(sim, threshold, n);
    RootsAreComponents(n, edges, u, v);
    if chain: seq<nat> :| Chain(sim, threshold, n, chain, u, v) {
      forall k | 0 <= k < |chain| - 1 ensures Adjacent(edges, chain[k], chain[k + 1]) {
        AdjacentIsSimilar(sim, threshold, n, chain[k], chain[k + 1]);
      }
      assert IsPath(edges, chain, u, v);
    }
    if path: seq<nat> :| IsPath(edges, path, u, v) {
      forall k | 0 <= k < |path| ensures path[k] < n {
        if k < |path| - 1 {
          assert Adjacent(edges, path[k], path[k + 1]);
        }
      }
      forall k | 0 <= k < |path| - 1
        ensures path[k] != path[k + 1] && At(sim, path[k], path[k + 1]) >= threshold
      {
        AdjacentIsSimilar(sim, threshold, n, path[k], path[k + 1]);
      }
      assert Chain(sim, threshold, n, path, u, v);
    }
  }

  // --------------------------------------------------- reported similarity

  /** Every class of two or more keeps the similarity of one of its own edges;
      the entry of a class of one is untouched. */
  ghost predicate BestIsReal(s: Scan, edges: seq<Edge>, x: nat)
  {
    x < |s.rep| &&
    ((exists e :: e in edges && e.a < |s.rep| && s.rep[e.a] == s.rep[x] && e.sim == BestAt(s.best, s.rep[x]))
     || (s.rep[x] !in s.best && forall y :: 0 <= y < |s.rep| && s.rep[y] == s.rep[x] ==> y == x))
  }

  lemma {:induction false} LinkAllBestIsReal(n: nat, edges: seq<Edge>, x: nat)
    requires InRange(edges, n) && x < n
    requires forall e :: e in edges ==> e.sim >= 0.0 && e.a != e.b
    ensures BestIsReal(LinkAll(n, edges), edges, x)
  {
    if |edges| > 0 {
      var before, e := edges[..|edges| - 1], edges[|edges| - 1];
      var s, t := LinkAll(n, before), LinkAll(n, edges);
      assert e in edges && forall d :: d in before ==> d in edges;
      LinkAllIsRooted(n, before);
      LinkAllBestIsReal(n, before, x);
      LinkAllBestIsReal(n, before, e.b);
      if t.rep[x] == t.rep[e.a] {
        assert t.rep[x] == s.rep[e.b];
        if e.sim > BestAt(s.best, s.rep[e.b]) || s.rep[e.b] !in s.best {
          assert t.rep[e.a] == t.rep[x] && e.sim == BestAt(t.best, t.rep[x]);
        } else {
          var d :| d in before && d.a < n && s.rep[d.a] == s.rep[e.b] && d.sim == BestAt(s.best, s.rep[e.b]);
          assert t.rep[d.a] == t.rep[x] && d.sim == BestAt(t.best, t.rep[x]);
        }
      } else {
        assert t.rep[x] == s.rep[x] && BestAt(t.best, t.rep[x]) == BestAt(s.best, s.rep[x]);
        if d :| d in before && d.a < n && s.rep[d.a] == s.rep[x] && d.sim == BestAt(s.best, s.rep[x]) {
          assert d in edges && t.rep[d.a] == t.rep[x];
        }
      }
    }
  }

  /** The similarity a cluster reports is that of two of its own members, and at
      or above the threshold. */
  lemma ReportedSimilarity(sim: Table, threshold: real, n: nat, x: nat, y: nat)
    requires IsSimilarity(sim) && x < y < n && Roots(sim, threshold, n).rep[x] == Roots(sim, threshold, n).rep[y]
    ensures var s := Roots(sim, threshold, n);
            exists i: nat, j: nat :: i < j < n && s.rep[i] == s.rep[j] == s.rep[x]
              && At(sim, i, j) == BestAt(s.best, s.rep[x]) >= threshold
  {
    var s, edges := Roots(sim, threshold, n), Edges(sim, threshold, n);
    RootsLinkEdges(sim, threshold, n);
    EdgesArePairs(sim, threshold, n);
    LinkAllBestIsReal(n, edges, x);
    var e :| e in edges && e.a < n && s.rep[e.a] == s.rep[x] && e.sim == BestAt(s.best, s.rep[x]);
    LinkedEdgesShareRoot(n, edges);
    assert IsPair(e, sim, threshold, n);
  }

  // What was kept at a root is forgotten when another absorbs it, so that only the
  // pairs met under the final root count.

  /** The nested loop meets the pair (a, b) before the pair (i, j). */
  predicate MetBefore(a: nat, b: nat, i: nat, j: nat, n: nat)
  {
    a < b < n && (a < i || (a == i && b < j))
  }

  /** The pair reaches the threshold, and its class has the root `r` once the loop
      is done with it. */
  predicate LandsOn(sim: Table, threshold: real, n: nat, a: nat, b: nat, r: nat)
  {
    a < b < n && At(sim, a, b) >= threshold && ScanUpTo(sim, threshold, n, a, b + 1).rep[a] == r
  }

  /** What is kept for `r` is the largest similarity of the pairs that landed on it. */
  ghost predicate KeepsLargest(sim: Table, threshold: real, n: nat, i: nat, j: nat, r: nat, kept: real)
  {
    && (forall a: nat, b: nat ::
          MetBefore(a, b, i, j, n) && LandsOn(sim, threshold, n, a, b, r) ==> At(sim, a, b) <= kept)
    && (kept == 0.0 || exists a: nat, b: nat ::
          MetBefore(a, b, i, j, n) && LandsOn(sim, threshold, n, a, b, r) && At(sim, a, b) == kept)
  }

  lemma LinkKeepsLargest(s: Scan, e: Edge, r: nat)
    requires e.a < |s.rep| && e.b < |s.rep| && e.sim >= 0.0
    ensures var t := Link(s, e);
            BestAt(t.best, r) == if t.rep[e.a] == r && e.sim > BestAt(s.best, r) then e.sim else BestAt(s.best, r)
  {
  }

  lemma PairKeepsLargest(sim: Table, threshold: real, n: nat, i: nat, j: nat, r: nat, before: real, after: real)
    requires IsSimilarity(sim) && i < j < n && KeepsLargest(sim, threshold, n, i, j, r, before)
    requires after == if LandsOn(sim, threshold, n, i, j, r) && At(sim, i, j) > before then At(sim, i, j) else before
    ensures KeepsLargest(sim, threshold, n, i, j + 1, r, after)
  {
    assert MetBefore(i, j, i, j + 1, n);
    forall a: nat, b: nat | MetBefore(a, b, i, j + 1, n) && LandsOn(sim, threshold, n, a, b, r)
      ensures At(sim, a, b) <= after
    {
      assert MetBefore(a, b, i, j, n) || (a == i && b == j);
    }
    if after == before && before != 0.0 {
      var a: nat, b: nat :| MetBefore(a, b, i, j, n) && LandsOn(sim, threshold, n, a, b, r) && At(sim, a, b) == before;
      assert MetBefore(a, b, i, j + 1, n);
    }
  }

  lemma NextRowKeepsLargest(sim: Table, threshold: real, n: nat, i: nat, r: nat, kept: real)
    requires 0 < i < n && KeepsLargest(sim, threshold, n, i - 1, n, r, kept)
    ensures KeepsLargest(sim, threshold, n, i, i + 1, r, kept)
  {
    forall a: nat, b: nat | MetBefore(a, b, i, i + 1, n) && LandsOn(sim, threshold, n, a, b, r)
      ensures At(sim, a, b) <= kept
    {
      assert MetBefore(a, b, i - 1, n, n);
    }
    if kept != 0.0 {
      var a: nat, b: nat :| MetBefore(a, b, i - 1, n, n) && LandsOn(sim, threshold, n, a, b, r) && At(sim, a, b) == kept;
      assert MetBefore(a, b, i, i + 1, n);
    }
  }

  lemma PairKeeps(sim: Table, threshold: real, n: nat, i: nat, j: nat, r: nat)
    requires IsSimilarity(sim) && i < j < n
    ensures var kept := BestAt(ScanUpTo(sim, threshold, n, i, j).best, r);
            BestAt(ScanUpTo(sim, threshold, n, i, j + 1).best, r) ==
              if LandsOn(sim, threshold, n, i, j, r) && At(sim, i, j) > kept then At(sim, i, j) else kept
  {
    assert At(sim, i, j) >= 0.0;
    LinkKeepsLargest(ScanUpTo(sim, threshold, n, i, j), Edge(i, j, At(sim, i, j)), r);
  }

  lemma RowKeeps(sim: Table, threshold: real, n: nat, i: nat)
    requires 0 < i < n
    ensures ScanUpTo(sim, threshold, n, i, i + 1) == ScanUpTo(sim, threshold, n, i - 1, n)
  {
  }

  ghost predicate BestIsLargest(sim: Table, threshold: real, n: nat, i: nat, j: nat, r: nat)
    requires i < j <= n
  {
    KeepsLargest(sim, threshold, n, i, j, r, BestAt(ScanUpTo(sim, threshold, n, i, j).best, r))
  }

  lemma NextPairKeepsBest(sim: Table, threshold: real, n: nat, i: nat, j: nat, r: nat)
    requires IsSimilarity(sim) && i < j < n && BestIsLargest(sim, threshold, n, i, j, r)
    ensures BestIsLargest(sim, threshold, n, i, j + 1, r)
  {
    PairKeeps(sim, threshold, n, i, j, r);
    PairKeepsLargest(sim, threshold, n, i, j, r, BestAt(ScanUpTo(sim, threshold, n, i, j).best, r),
                     BestAt(ScanUpTo(sim, threshold, n, i, j + 1).best, r));
  }

  lemma NextRowKeepsBest(sim: Table, threshold: real, n: nat, i: nat, r: nat)
    requires 0 < i < n && BestIsLargest(sim, threshold, n, i - 1, n, r)
    ensures BestIsLargest(sim, threshold, n, i, i + 1, r)
  {
    RowKeeps(sim, threshold, n, i);
    NextRowKeepsLargest(sim, threshold, n, i, r, BestAt(ScanUpTo(sim, threshold, n, i - 1, n).best, r));
  }

  lemma NothingKept(sim: Table, threshold: real, n: nat, r: nat)
    requires 0 < n
    ensures BestIsLargest(sim, threshold, n, 0, 1, r)
  {
  }

  lemma {:induction false} ScanKeepsLargest(sim: Table, threshold: real, n: nat, i: nat, j: nat, r: nat)
    requires IsSimilarity(sim) && i < j <= n
    ensures BestIsLargest(sim, threshold, n, i, j, r)
    decreases i, j
  {
    if j > i + 1 {
      ScanKeepsLargest(sim, threshold, n, i, j - 1, r);
      NextPairKeepsBest(sim, threshold, n, i, j - 1, r);
    } else if i > 0 {
      ScanKeepsLargest(sim, threshold, n, i - 1, n, r);
      NextRowKeepsBest(sim, threshold, n, i, r);
    } else {
      NothingKept(sim, threshold, n, r);
    }
  }

  /** Some pair landed on the root of every class of two or more. */
  ghost predicate Landed(sim: Table, threshold: real, n: nat, i: nat, j: nat, r: nat)
  {
    exists a: nat, b: nat :: MetBefore(a, b, i, j, n) && LandsOn(sim, threshold, n, a, b, r)
  }

  lemma LandedStays(sim: Table, threshold: real, n: nat, i: nat, j: nat, k: nat, l: nat, r: nat)
    requires Landed(sim, threshold, n, i, j, r) && (i < k || (i == k && j <= l))
    ensures Landed(sim, threshold, n, k, l, r)
  {
    var a: nat, b: nat :| MetBefore(a, b, i, j, n) && LandsOn(sim, threshold, n, a, b, r);
    assert MetBefore(a, b, k, l, n);
  }

  lemma {:induction false} ClassHasLanded(sim: Table, threshold: real, n: nat, i: nat, j: nat, x: nat, y: nat)
    requires i < j <= n && x < n && y < n && x != y
    requires ScanUpTo(sim, threshold, n, i, j).rep[x] == ScanUpTo(sim, threshold, n, i, j).rep[y]
    ensures Landed(sim, threshold, n, i, j, ScanUpTo(sim, threshold, n, i, j).rep[x])
    decreases i, j
  {
    var t := ScanUpTo(sim, threshold, n, i, j);
    if j > i + 1 {
      var s := ScanUpTo(sim, threshold, n, i, j - 1);
      if At(sim, i, j - 1) >= threshold && t.rep[x] == t.rep[i] {
        assert MetBefore(i, j - 1, i, j, n) && LandsOn(sim, threshold, n, i, j - 1, t.rep[x]);
      } else {
        assert t.rep[x] == s.rep[x] && t.rep[y] == s.rep[y];
        ClassHasLanded(sim, threshold, n, i, j - 1, x, y);
        LandedStays(sim, threshold, n, i, j - 1, i, j, t.rep[x]);
      }
    } else if i > 0 {
      ClassHasLanded(sim, threshold, n, i - 1, n, x, y);
      LandedStays(sim, threshold, n, i - 1, n, i, j, t.rep[x]);
    }
  }

  /** Classes only grow: who shares a root keeps sharing one. */
  lemma {:induction false} TogetherStays(sim: Table, threshold: real, n: nat, i: nat, j: nat, k: nat, l: nat, x: nat, y: nat)
    requires i < j <= n && k < l <= n && (i < k || (i == k && j <= l)) && x < n && y < n
    requires ScanUpTo(sim, threshold, n, i, j).rep[x] == ScanUpTo(sim, threshold, n, i, j).rep[y]
    ensures ScanUpTo(sim, threshold, n, k, l).rep[x] == ScanUpTo(sim, threshold, n, k, l).rep[y]
    decreases k, l
  {
    if i == k && j == l {
    } else if l > k + 1 {
      TogetherStays(sim, threshold, n, i, j, k, l - 1, x, y);
    } else {
      TogetherStays(sim, threshold, n, i, j, k - 1, n, x, y);
    }
  }

  lemma ScanIsRooted(sim: Table, threshold: real, n: nat, i: nat, j: nat)
    requires i < j <= n
    ensures Rooted(ScanUpTo(sim, threshold, n, i, j).rep)
  {
    ScanLinksEdges(sim, threshold, n, i, j);
    LinkAllIsRooted(n, EdgesUpTo(sim, threshold, n, i, j));
  }

  lemma LandedTogether(sim: Table, threshold: real, n: nat, a: nat, b: nat, r: nat)
    requires LandsOn(sim, threshold, n, a, b, r)
    ensures var rep := ScanUpTo(sim, threshold, n, a, b + 1).rep; r < n && rep[a] == rep[b] == rep[r]
  {
    ScanIsRooted(sim, threshold, n, a, b + 1);
  }

  lemma RootsAreRooted(sim: Table, threshold: real, n: nat)
    ensures Rooted(Roots(sim, threshold, n).rep)
  {
    RootsLinkEdges(sim, threshold, n);
  }

  lemma LandsInClass(sim: Table, threshold: real, n: nat, a: nat, b: nat, k: nat, l: nat, r: nat)
    requires LandsOn(sim, threshold, n, a, b, r) && k < l <= n && (a < k || (a == k && b < l))
    requires r < n ==> ScanUpTo(sim, threshold, n, k, l).rep[r] == r
    ensures ScanUpTo(sim, threshold, n, k, l).rep[a] == ScanUpTo(sim, threshold, n, k, l).rep[b] == r
  {
    LandedTogether(sim, threshold, n, a, b, r);
    TogetherStays(sim, threshold, n, a, b + 1, k, l, a, r);
    TogetherStays(sim, threshold, n, a, b + 1, k, l, a, b);
  }

  /** A pair that lands on a final root is in its class. */
  lemma LandedStaysInClass(sim: Table, threshold: real, n: nat, a: nat, b: nat, x: nat)
    requires x < n && LandsOn(sim, threshold, n, a, b, Roots(sim, threshold, n).rep[x])
    ensures Roots(sim, threshold, n).rep[a] == Roots(sim, threshold, n).rep[b] == Roots(sim, threshold, n).rep[x]
  {
    RootsAreRooted(sim, threshold, n);
    LandsInClass(sim, threshold, n, a, b, n - 1, n, Roots(sim, threshold, n).rep[x]);
  }

  /** No pair of the class of `r` is more similar. */
  ghost predicate IsLargest(sim: Table, n: nat, rep: seq<nat>, r: nat, value: real)
    requires |rep| == n
  {
    forall a: nat, b: nat :: a < b < n && rep[a] == rep[b] == r ==> At(sim, a, b) <= value
  }

  /** Exactly what a cluster reports: the largest similarity among the pairs met
      under its final root. */
  lemma ReportsLargestLanded(sim: Table, threshold: real, n: nat, x: nat, y: nat)
    requires IsSimilarity(sim) && x < y < n && Roots(sim, threshold, n).rep[x] == Roots(sim, threshold, n).rep[y]
    ensures var s := Roots(sim, threshold, n);
            && (forall a: nat, b: nat ::
                  LandsOn(sim, threshold, n, a, b, s.rep[x]) ==> At(sim, a, b) <= BestAt(s.best, s.rep[x]))
            && (exists a: nat, b: nat ::
                  LandsOn(sim, threshold, n, a, b, s.rep[x]) && At(sim, a, b) == BestAt(s.best, s.rep[x]))
  {
    var s := Roots(sim, threshold, n);
    var r, kept := s.rep[x], BestAt(s.best, s.rep[x]);
    ScanKeepsLargest(sim, threshold, n, n - 1, n, r);
    ClassHasLanded(sim, threshold, n, n - 1, n, x, y);
    assert forall a: nat, b: nat :: LandsOn(sim, threshold, n, a, b, r) ==> MetBefore(a, b, n - 1, n, n);
    if kept == 0.0 {
      var a: nat, b: nat :| MetBefore(a, b, n - 1, n, n) && LandsOn(sim, threshold, n, a, b, r);
      assert 0.0 <= At(sim, a, b) <= kept;
    }
  }

  /** So it is the largest of the whole cluster iff a pair of that similarity was
      met when the class had, or thereby got, its final root. */
  lemma ReportsLargestIff(sim: Table, threshold: real, n: nat, x: nat, y: nat)
    requires IsSimilarity(sim) && x < y < n && Roots(sim, threshold, n).rep[x] == Roots(sim, threshold, n).rep[y]
    ensures var s := Roots(sim, threshold, n);
            IsLargest(sim, n, s.rep, s.rep[x], BestAt(s.best, s.rep[x])) <==>
            exists a: nat, b: nat :: LandsOn(sim, threshold, n, a, b, s.rep[x])
              && IsLargest(sim, n, s.rep, s.rep[x], At(sim, a, b))
  {
    ReportsLargestLanded(sim, threshold, n, x, y);
  }

  /** It need not be: here 0.9 was kept at a root that was absorbed afterwards. */
  lemma ReportedNeedNotBeLargest()
    ensures var sim := [[1.0, 0.9, 0.6], [0.9, 1.0, 0.0], [0.6, 0.0, 1.0]];
            var s := Roots(sim, 0.5, 3);
            IsSimilarity(sim) && s.rep == [2, 2, 2] && BestAt(s.best, 2) == 0.6 < At(sim, 0, 1)
  {
    var sim := [[1.0, 0.9, 0.6], [0.9, 1.0, 0.0], [0.6, 0.0, 1.0]];
    EdgesOfThree(sim);
    var e, f := Edge(0, 1, 0.9), Edge(0, 2, 0.6);
    LinkOneMore(3, [], e);
    LinkOneMore(3, [e], f);
    assert [] + [e] == [e] && [e] + [f] == [e, f];
    assert LinkAll(3, []).rep == [0, 1, 2] && LinkAll(3, [e]).rep == [1, 1, 2];
    assert LinkAll(3, [e, f]).rep == [2, 2, 2];
    RootsLinkEdges(sim, 0.5, 3);
  }

  lemma EdgesOfThree(sim: Table)
    requires At(sim, 0, 1) == 0.9 && At(sim, 0, 2) == 0.6 && At(sim, 1, 2) == 0.0
    ensures Edges(sim, 0.5, 3) == [Edge(0, 1, 0.9), Edge(0, 2, 0.6)]
  {
    assert EdgesUpTo(sim, 0.5, 3, 0, 2) == [Edge(0, 1, 0.9)];
    assert EdgesUpTo(sim, 0.5, 3, 0, 3) == [Edge(0, 1, 0.9), Edge(0, 2, 0.6)];
    assert EdgesUpTo(sim, 0.5, 3, 1, 2) == EdgesUpTo(sim, 0.5, 3, 0, 3);
    assert EdgesUpTo(sim, 0.5, 3, 1, 3) == EdgesUpTo(sim, 0.5, 3, 0, 3);
  }

  // --------------------------------------------------- the parent array

  /** One entry of the array: the step towards the parent keeps the root and
      lowers the depth, so that following parents ends. */
  ghost predicate Entry(parent: seq<nat>, rep: seq<nat>, depth: seq<nat>, x: nat)
    requires |parent| == |rep| == |depth| && x < |parent|
  {
    && parent[x] < |parent|
    && rep[x] < |rep| && rep[rep[x]] == rep[x]
    && rep[parent[x]] == rep[x]
    && (parent[x] == x <==> rep[x] == x)
    && (parent[x] != x ==> depth[parent[x]] < depth[x])
  }

  /** The array encodes the roots. */
  ghost predicate Forest(parent: seq<nat>, rep: seq<nat>, depth: seq<nat>)
  {
    && |parent| == |rep| == |depth|
    && forall x: nat :: x < |parent| ==> Entry(parent, rep, depth, x)
  }

  lemma HalvingKeepsForest(parent: seq<nat>, rep: seq<nat>, depth: seq<nat>, x: nat)
    requires Forest(parent, rep, depth) && x < |parent| && parent[x] != x
    ensures parent[x] < |parent| && parent[parent[x]] < |parent|
    ensures Forest(parent[x := parent[parent[x]]], rep, depth)
  {
    assert Entry(parent, rep, depth, x);
    assert Entry(parent, rep, depth, parent[x]);
    var halved := parent[x := parent[parent[x]]];
    forall y: nat | y < |parent| ensures Entry(halved, rep, depth, y) {
      assert Entry(parent, rep, depth, y);
    }
  }

  /** find, halving the path as it goes: no root changes. */
  method Find(parent: array<nat>, start: nat, ghost rep: seq<nat>, ghost depth: seq<nat>) returns (root: nat)
    requires Forest(parent[..], rep, depth) && start < parent.Length
    modifies parent
    ensures Forest(parent[..], rep, depth)
    ensures root == rep[start] && root < parent.Length && rep[root] == root
  {
    var x: nat := start;
    while parent[x] != x
      invariant x < parent.Length == |rep| == |depth|
      invariant Forest(parent[..], rep, depth)
      invariant rep[x] == rep[start]
      decreases depth[x]
    {
      ghost var before := parent[..];
      HalvingKeepsForest(before, rep, depth, x);
      assert Entry(before, rep, depth, x) && Entry(before, rep, depth, before[x]);
      parent[x] := parent[parent[x]];
      assert parent[..] == before[x := before[before[x]]];
      x := parent[x];
    }
    assert Entry(parent[..], rep, depth, x);
    root := x;
  }

  lemma UnionKeepsForest(parent: seq<nat>, ri: nat, rj: nat, rep: seq<nat>, depth: seq<nat>) returns (newDepth: seq<nat>)
    requires Forest(parent, rep, depth) && ri < |parent| && rj < |parent|
    requires rep[ri] == ri && rep[rj] == rj && ri != rj
    ensures Forest(parent[ri := rj], Redirect(rep, ri, rj), newDepth)
  {
    newDepth := seq(|depth|, x requires 0 <= x < |depth| =>
      if rep[x] == ri then depth[x] + depth[rj] + 1 else depth[x]);
    assert Entry(parent, rep, depth, rj) && Entry(parent, rep, depth, ri);
    var joined, newRep := parent[ri := rj], Redirect(rep, ri, rj);
    forall y: nat | y < |parent| ensures Entry(joined, newRep, newDepth, y) {
      assert Entry(parent, rep, depth, y);
    }
  }

  /** parent[ri] = rj, for two different roots. */
  method Union(parent: array<nat>, ri: nat, rj: nat, ghost rep: seq<nat>, ghost depth: seq<nat>)
    returns (ghost newDepth: seq<nat>)
    requires Forest(parent[..], rep, depth) && ri < parent.Length && rj < parent.Length
    requires rep[ri] == ri && rep[rj] == rj && ri != rj
    modifies parent
    ensures Forest(parent[..], Redirect(rep, ri, rj), newDepth)
  {
    newDepth := UnionKeepsForest(parent[..], ri, rj, rep, depth);
    ghost var before := parent[..];
    parent[ri] := rj;
    assert parent[..] == before[ri := rj];
  }

  /** The array and the map hold what the abstract scan knows. */
  ghost predicate Encodes(parent: seq<nat>, best: map<nat, real>, s: Scan, depth: seq<nat>)
  {
    Forest(parent, s.rep, depth) && best == s.best
  }

  /** The body of the pair loop. */
  method LinkPair(parent: array<nat>, best: map<nat, real>, i: nat, j: nat, sim: real, threshold: real,
                  ghost s: Scan, ghost depth: seq<nat>)
    returns (newBest: map<nat, real>, ghost newDepth: seq<nat>)
    requires i < parent.Length == |s.rep| && j < parent.Length
    requires Encodes(parent[..], best, s, depth)
    modifies parent
    ensures Encodes(parent[..], newBest, StepPair(s, i, j, sim, threshold), newDepth)
  {
    newBest, newDepth := best, depth;
    if sim >= threshold {
      var ri := Find(parent, i, s.rep, depth);
      var rj := Find(parent, j, s.rep, depth);
      if ri != rj {
        newDepth := Union(parent, ri, rj, s.rep, depth);
      }
      ghost var after := Link(s, Edge(i, j, sim));
      var root := Find(parent, i, after.rep, newDepth);
      if sim > BestAt(best, root) {
        newBest := best[root := sim];
      }
    }
  }

  /** The indices below `i` of the class of `r`, ascending. */
  function Members(rep: seq<nat>, r: nat, i: nat): seq<nat>
    requires i <= |rep|
  {
    if i == 0 then [] else Members(rep, r, i - 1) + if rep[i - 1] == r then [i - 1] else []
  }

  /** A class is listed completely and without repetition. */
  lemma {:induction false} MembersAreClass(rep: seq<nat>, r: nat, i: nat)
    requires i <= |rep|
    ensures var m := Members(rep, r, i);
            && (forall x: nat :: x in m <==> x < i && rep[x] == r)
            && (forall j, k :: 0 <= j < k < |m| ==> m[j] < m[k])
  {
    if i > 0 {
      MembersAreClass(rep, r, i - 1);
      var m := Members(rep, r, i - 1);
      forall j | 0 <= j < |m| ensures m[j] < i - 1 {
        assert m[j] in m;
      }
    }
  }
}
