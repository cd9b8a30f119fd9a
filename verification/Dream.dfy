/** Consolidate (internal/memory/dream.go). */
module Dream {
  // It clusters memories whose bodies are similar enough and lists the clusters,
  // most similar first.

  import opened Text
  import opened Sequences
  import opened Sorting
  import opened MemoryFile
  import opened Similarity
  import opened UnionFind

  datatype DuplicateCluster = DuplicateCluster(names: seq<string>, similarity: real)

  /** The similarities of one listed memory to all of them. */
  function BodyRow(mems: seq<Memory>, u: nat): seq<real>
    requires u < |mems|
  {
    seq(|mems|, v requires 0 <= v < |mems| => Jaccard(mems[u].body, mems[v].body))
  }

  function BodyTable(mems: seq<Memory>): Table
  {
    seq(|mems|, u requires 0 <= u < |mems| => BodyRow(mems, u))
  }

  lemma BodyTableIsSimilarity(mems: seq<Memory>)
    ensures IsSimilarity(BodyTable(mems))
  {
    var sim := BodyTable(mems);
    forall u: nat, v: nat ensures At(sim, u, v) == At(sim, v, u) >= 0.0 {
      if u < |mems| && v < |mems| {
        JaccardSymmetric(mems[u].body, mems[v].body);
        JaccardRange(mems[u].body, mems[v].body);
      }
    }
  }

  function MemoryRoots(mems: seq<Memory>, threshold: real): (s: Scan)
    ensures |s.rep| == |mems|
  {
    Roots(BodyTable(mems), threshold, |mems|)
  }

  /** A chain of memories, each at least `threshold` similar to the next. */
  ghost predicate SimilarChain(mems: seq<Memory>, threshold: real, chain: seq<nat>, u: nat, v: nat)
  {
    && |chain| > 0 && chain[0] == u && chain[|chain| - 1] == v
    && (forall k :: 0 <= k < |chain| ==> chain[k] < |mems|)
    && (forall k :: 0 <= k < |chain| - 1 ==>
          (chain[k] != chain[k + 1] && Jaccard(mems[chain[k]].body, mems[chain[k + 1]].body) >= threshold))
  }

  lemma SameChains(mems: seq<Memory>, threshold: real, chain: seq<nat>, u: nat, v: nat)
    ensures SimilarChain(mems, threshold, chain, u, v) <==> Chain(BodyTable(mems), threshold, |mems|, chain, u, v)
  {
    var sim := BodyTable(mems);
    assert forall x: nat, y: nat :: x < |mems| && y < |mems| ==> At(sim, x, y) == Jaccard(mems[x].body, mems[y].body);
  }

  /** The main result, for any memories and any threshold: two entries land in
      one cluster iff a chain of pairs at or above the threshold joins them. */
  lemma OneClusterIffChain(mems: seq<Memory>, threshold: real, u: nat, v: nat)
    requires u < |mems| && v < |mems|
    ensures MemoryRoots(mems, threshold).rep[u] == MemoryRoots(mems, threshold).rep[v]
       <==> exists chain: seq<nat> :: SimilarChain(mems, threshold, chain, u, v)
  {
    BodyTableIsSimilarity(mems);
    ClustersAreComponents(BodyTable(mems), threshold, |mems|, u, v);
    if chain: seq<nat> :| SimilarChain(mems, threshold, chain, u, v) {
      SameChains(mems, threshold, chain, u, v);
    }
    if chain: seq<nat> :| Chain(BodyTable(mems), threshold, |mems|, chain, u, v) {
      SameChains(mems, threshold, chain, u, v);
    }
  }

  /** The similarity a cluster reports is that of two of its own members, and at
      or above the threshold. */
  lemma ReportedIsARealPair(mems: seq<Memory>, threshold: real, x: nat, y: nat)
    requires x < y < |mems| && MemoryRoots(mems, threshold).rep[x] == MemoryRoots(mems, threshold).rep[y]
    ensures var s := MemoryRoots(mems, threshold);
            exists i: nat, j: nat :: i < j < |mems| && s.rep[i] == s.rep[j] == s.rep[x]
              && Jaccard(mems[i].body, mems[j].body) == BestAt(s.best, s.rep[x]) >= threshold
  {
    BodyTableIsSimilarity(mems);
    ReportedSimilarity(BodyTable(mems), threshold, |mems|, x, y);
  }

  /** The pair of memories reaches the threshold, and its cluster has the root `r`
      once the pair loop is done with it. */
  predicate MetUnder(mems: seq<Memory>, threshold: real, i: nat, j: nat, r: nat)
  {
    && i < j < |mems| && Jaccard(mems[i].body, mems[j].body) >= threshold
    && ScanUpTo(BodyTable(mems), threshold, |mems|, i, j + 1).rep[i] == r
  }

  /** No two memories of the cluster of `r` are more similar. */
  ghost predicate MostSimilar(mems: seq<Memory>, rep: seq<nat>, r: nat, value: real)
    requires |rep| == |mems|
  {
    forall i: nat, j: nat :: i < j < |mems| && rep[i] == rep[j] == r ==> Jaccard(mems[i].body, mems[j].body) <= value
  }

  lemma SameMostSimilar(mems: seq<Memory>, rep: seq<nat>, r: nat, value: real)
    requires |rep| == |mems|
    ensures MostSimilar(mems, rep, r, value) <==> IsLargest(BodyTable(mems), |mems|, rep, r, value)
  {
    var sim := BodyTable(mems);
    forall i: nat, j: nat | i < j < |mems| ensures At(sim, i, j) == Jaccard(mems[i].body, mems[j].body) {}
  }

  /** The similarity a cluster reports is the largest of its pairs iff a pair of
      that similarity was met when the cluster had, or thereby got, its final root. */
  lemma ReportsMostSimilarIff(mems: seq<Memory>, threshold: real, x: nat, y: nat)
    requires x < y < |mems| && MemoryRoots(mems, threshold).rep[x] == MemoryRoots(mems, threshold).rep[y]
    ensures var s := MemoryRoots(mems, threshold);
            MostSimilar(mems, s.rep, s.rep[x], BestAt(s.best, s.rep[x])) <==>
            exists i: nat, j: nat :: MetUnder(mems, threshold, i, j, s.rep[x])
              && MostSimilar(mems, s.rep, s.rep[x], Jaccard(mems[i].body, mems[j].body))
  {
    var s, sim := MemoryRoots(mems, threshold), BodyTable(mems);
    var r := s.rep[x];
    BodyTableIsSimilarity(mems);
    ReportsLargestIff(sim, threshold, |mems|, x, y);
    SameMostSimilar(mems, s.rep, r, BestAt(s.best, r));
    forall i: nat, j: nat | i < j < |mems|
      ensures MetUnder(mems, threshold, i, j, r) <==> LandsOn(sim, threshold, |mems|, i, j, r)
      ensures MostSimilar(mems, s.rep, r, Jaccard(mems[i].body, mems[j].body)) <==>
              IsLargest(sim, |mems|, s.rep, r, At(sim, i, j))
    {
      SameMostSimilar(mems, s.rep, r, At(sim, i, j));
    }
  }

  function MemberNames(mems: seq<Memory>, rep: seq<nat>, r: nat, i: nat): seq<string>
    requires i <= |mems| == |rep|
  {
    if i == 0 then []
    else MemberNames(mems, rep, r, i - 1) + if rep[i - 1] == r then [mems[i - 1].name] else []
  }

  lemma {:induction false} MemberNamesAreNamesOfMembers(mems: seq<Memory>, rep: seq<nat>, r: nat, i: nat)
    requires i <= |mems| == |rep|
    ensures var m := Members(rep, r, i);
            && |MemberNames(mems, rep, r, i)| == |m|
            && forall k :: 0 <= k < |m| ==> m[k] < |mems| && MemberNames(mems, rep, r, i)[k] == mems[m[k]].name
  {
    if i > 0 {
      MemberNamesAreNamesOfMembers(mems, rep, r, i - 1);
    }
  }

  /** The cluster of one root, unless it stands alone. */
  function ClusterOf(mems: seq<Memory>, s: Scan, r: nat): multiset<DuplicateCluster>
    requires |s.rep| == |mems|
  {
    var names := MemberNames(mems, s.rep, r, |mems|);
    if |names| < 2 then multiset{} else multiset{DuplicateCluster(SortStrings(names), BestAt(s.best, r))}
  }

  /** A root's class is its whole component: itself and every memory a chain
      leads to, each listed once. */
  lemma ClassIsComponent(mems: seq<Memory>, threshold: real, r: nat)
    requires r < |mems| && MemoryRoots(mems, threshold).rep[r] == r
    ensures var members := Members(MemoryRoots(mems, threshold).rep, r, |mems|);
            && (forall x: nat :: x in members <==>
                  x < |mems| && exists chain: seq<nat> :: SimilarChain(mems, threshold, chain, r, x))
            && (forall j, k :: 0 <= j < k < |members| ==> members[j] < members[k])
  {
    var rep := MemoryRoots(mems, threshold).rep;
    MembersAreClass(rep, r, |mems|);
    forall x: nat | x < |mems|
      ensures rep[x] == r <==> exists chain: seq<nat> :: SimilarChain(mems, threshold, chain, r, x)
    {
      OneClusterIffChain(mems, threshold, r, x);
    }
    forall x: nat, chain: seq<nat> | SimilarChain(mems, threshold, chain, r, x) ensures x < |mems| {}
  }

  /** Everything `f` gives for the members of `roots` below `n`. */
  function Gather<T>(f: nat -> multiset<T>, roots: set<nat>, n: nat): multiset<T>
  {
    if n == 0 then multiset{} else Gather(f, roots, n - 1) + if n - 1 in roots then f(n - 1) else multiset{}
  }

  lemma {:induction false} GatherOneMore<T>(f: nat -> multiset<T>, roots: set<nat>, r: nat, n: nat)
    requires r !in roots
    ensures Gather(f, roots + {r}, n) == Gather(f, roots, n) + if r < n then f(r) else multiset{}
  {
    if n > 0 {
      GatherOneMore(f, roots, r, n - 1);
    }
  }

  lemma {:induction false} GatherNone<T>(f: nat -> multiset<T>, n: nat)
    ensures Gather(f, {}, n) == multiset{}
  {
    if n > 0 {
      GatherNone(f, n - 1);
    }
  }

  /** All clusters of the given roots. */
  function ClustersOf(mems: seq<Memory>, s: Scan, roots: set<nat>): multiset<DuplicateCluster>
    requires |s.rep| == |mems|
  {
    Gather((r: nat) => ClusterOf(mems, s, r), roots, |mems|)
  }

  /** Most similar first; equal similarities by the joined names. */
  predicate ClusterLeq(c: DuplicateCluster, d: DuplicateCluster)
  {
    if c.similarity != d.similarity then c.similarity > d.similarity
    else StrLeq(Join(c.names, ","), Join(d.names, ","))
  }

  lemma ClusterLeqIsTotalPreorder()
    ensures TotalPreorder(ClusterLeq)
  {
    forall c, d ensures ClusterLeq(c, d) || ClusterLeq(d, c) {
      StrLeqTotal(Join(c.names, ","), Join(d.names, ","));
    }
    forall c, d, e | ClusterLeq(c, d) && ClusterLeq(d, e) ensures ClusterLeq(c, e) {
      if c.similarity == d.similarity == e.similarity {
        StrLeqTransitive(Join(c.names, ","), Join(d.names, ","), Join(e.names, ","));
      }
    }
  }

  method ComputeEntry(mems: seq<Memory>, i: nat, j: nat, ghost row: seq<real>) returns (similarity: real)
    requires i < |mems| && j < |mems| && row == BodyRow(mems, i)
    ensures similarity == row[j]
  {
    similarity := ComputeJaccard(mems[i].body, mems[j].body);
  }

  method LinkCell(mems: seq<Memory>, threshold: real, parent: array<nat>, i: nat, j: nat, best0: map<nat, real>,
                  ghost states: seq<Scan>, ghost row: seq<real>, ghost depth0: seq<nat>)
    returns (best: map<nat, real>, ghost depth: seq<nat>)
    requires i < j < parent.Length == |mems| && |states| == |mems| + 1
    requires row == BodyRow(mems, i) && RowStep(states, i, j, row, threshold)
    requires Encodes(parent[..], best0, states[j], depth0)
    modifies parent
    ensures Encodes(parent[..], best, states[j + 1], depth)
  {
    var similarity := ComputeEntry(mems, i, j, row);
    best, depth := LinkPair(parent, best0, i, j, similarity, threshold, states[j], depth0);
  }

  /** One row of the pair loop. */
  method LinkRow(mems: seq<Memory>, threshold: real, parent: array<nat>, i: nat, best0: map<nat, real>,
                 ghost states: seq<Scan>, ghost row: seq<real>, ghost depth0: seq<nat>)
    returns (best: map<nat, real>, ghost depth: seq<nat>)
    requires i < parent.Length == |mems| && |states| == |mems| + 1
    requires row == BodyRow(mems, i)
    requires forall j :: i < j < |mems| ==> RowStep(states, i, j, row, threshold)
    requires Encodes(parent[..], best0, states[i + 1], depth0)
    modifies parent
    ensures Encodes(parent[..], best, states[|mems|], depth)
  {
    best, depth := best0, depth0;
    for j := i + 1 to |mems|
      invariant Encodes(parent[..], best, states[j], depth)
    {
      best, depth := LinkCell(mems, threshold, parent, i, j, best, states, row, depth);
    }
  }

  /** The pair loop: the parent array and the map of best similarities end up
      encoding exactly what linking the pairs one by one gives. */
  method LinkPairs(mems: seq<Memory>, threshold: real, parent: array<nat>, ghost sim: Table)
    returns (best: map<nat, real>, ghost depth: seq<nat>)
    requires 0 < parent.Length == |mems| && sim == BodyTable(mems)
    requires forall i :: 0 <= i < parent.Length ==> parent[i] == i
    modifies parent
    ensures Encodes(parent[..], best, Roots(sim, threshold, parent.Length), depth)
  {
    best := map[];
    depth := seq(parent.Length, i => 0);
    ghost var s := ScanUpTo(sim, threshold, parent.Length, 0, 1);
    assert parent[..] == s.rep;
    for i := 0 to parent.Length
      invariant s == if i == parent.Length then Roots(sim, threshold, i)
                     else ScanUpTo(sim, threshold, parent.Length, i, i + 1)
      invariant Encodes(parent[..], best, s, depth)
    {
      ghost var states := RowStates(sim, threshold, parent.Length, i);
      best, depth := LinkRow(mems, threshold, parent, i, best, states, sim[i], depth);
      s := states[parent.Length];
    }
  }

  function RootSet(rep: seq<nat>): set<nat> { set r | r in rep }

  function NamesAt(groups: map<nat, seq<string>>, r: nat): seq<string> { if r in groups then groups[r] else [] }

  /** The groups hold the names of every class among the first `i` memories. */
  ghost predicate Grouped(groups: map<nat, seq<string>>, mems: seq<Memory>, rep: seq<nat>, i: nat)
  {
    && i <= |mems| == |rep|
    && groups.Keys == RootSet(rep[..i])
    && forall r: nat :: NamesAt(groups, r) == MemberNames(mems, rep, r, i)
  }

  lemma {:induction false} GroupOneMore(groups: map<nat, seq<string>>, mems: seq<Memory>, rep: seq<nat>, i: nat)
    requires i < |mems| && Grouped(groups, mems, rep, i)
    ensures Grouped(groups[rep[i] := NamesAt(groups, rep[i]) + [mems[i].name]], mems, rep, i + 1)
  {
    var more := groups[rep[i] := NamesAt(groups, rep[i]) + [mems[i].name]];
    assert rep[..i + 1] == rep[..i] + [rep[i]];
    forall r: nat ensures NamesAt(more, r) == MemberNames(mems, rep, r, i + 1) {
      assert NamesAt(groups, r) == MemberNames(mems, rep, r, i);
    }
  }

  /** The grouping loop: the names of every class, keyed by root. */
  method GroupByRoot(mems: seq<Memory>, parent: array<nat>, ghost rep: seq<nat>, ghost depth: seq<nat>)
    returns (groups: map<nat, seq<string>>)
    requires parent.Length == |mems| && Forest(parent[..], rep, depth)
    modifies parent
    ensures Grouped(groups, mems, rep, |mems|)
  {
    groups := map[];
    for i := 0 to |mems|
      invariant Forest(parent[..], rep, depth)
      invariant Grouped(groups, mems, rep, i)
    {
      var r := Find(parent, i, rep, depth);
      GroupOneMore(groups, mems, rep, i);
      groups := groups[r := NamesAt(groups, r) + [mems[i].name]];
    }
  }

  // ------------------------------------------------------- what comes out

  ghost predicate Joined(mems: seq<Memory>, threshold: real, u: nat, v: nat)
  {
    exists chain: seq<nat> :: SimilarChain(mems, threshold, chain, u, v)
  }

  /** The indices of a whole component of two memories or more, ascending. */
  ghost predicate IsComponent(mems: seq<Memory>, threshold: real, members: seq<nat>)
  {
    && |members| >= 2 && (forall j, k :: 0 <= j < k < |members| ==> members[j] < members[k])
    && forall x: nat, y: nat :: x in members ==> (y in members <==> y < |mems| && Joined(mems, threshold, x, y))
  }

  function NamesOf(mems: seq<Memory>, members: seq<nat>): seq<string>
    requires forall k :: 0 <= k < |members| ==> members[k] < |mems|
  {
    seq(|members|, k requires 0 <= k < |members| => mems[members[k]].name)
  }

  /** What a cluster says of a component: its names in order, and the largest
      similarity of those of its pairs that were met under its final root. */
  ghost predicate Reports(mems: seq<Memory>, threshold: real, members: seq<nat>, c: DuplicateCluster)
  {
    && |members| >= 2 && (forall k :: 0 <= k < |members| ==> members[k] < |mems|)
    && Sorted(c.names, StrLeq) && multiset(c.names) == multiset(NamesOf(mems, members))
    && var root := MemoryRoots(mems, threshold).rep[members[0]];
       && (forall i: nat, j: nat :: MetUnder(mems, threshold, i, j, root) ==>
             Jaccard(mems[i].body, mems[j].body) <= c.similarity)
       && exists i: nat, j: nat :: i in members && j in members && MetUnder(mems, threshold, i, j, root)
             && c.similarity == Jaccard(mems[i].body, mems[j].body) >= threshold
  }

  /** The clusters are one for each component of two memories or more. */
  ghost predicate OnePerComponent(mems: seq<Memory>, threshold: real, out: seq<DuplicateCluster>, components: seq<seq<nat>>)
  {
    && |components| == |out|
    && (forall k :: 0 <= k < |out| ==>
          IsComponent(mems, threshold, components[k]) && Reports(mems, threshold, components[k], out[k]))
    && (forall j, k :: 0 <= j < k < |out| ==> components[j] != components[k])
    && (forall u: nat, v: nat :: u < |mems| && v < |mems| && u != v && Joined(mems, threshold, u, v) ==>
          exists k :: 0 <= k < |components| && u in components[k])
  }

  lemma ClassIsWhole(mems: seq<Memory>, threshold: real, r: nat)
    requires r < |mems| && |Members(MemoryRoots(mems, threshold).rep, r, |mems|)| >= 2
    ensures IsComponent(mems, threshold, Members(MemoryRoots(mems, threshold).rep, r, |mems|))
  {
    var rep := MemoryRoots(mems, threshold).rep;
    var members := Members(rep, r, |mems|);
    MembersAreClass(rep, r, |mems|);
    forall x: nat, y: nat | x in members
      ensures y in members <==> y < |mems| && Joined(mems, threshold, x, y)
    {
      if y < |mems| {
        OneClusterIffChain(mems, threshold, x, y);
      }
    }
  }

  /** What is kept for a class is the largest similarity met under its root. */
  lemma KeptIsLargestMet(mems: seq<Memory>, threshold: real, x: nat, y: nat)
    requires x < y < |mems| && MemoryRoots(mems, threshold).rep[x] == MemoryRoots(mems, threshold).rep[y]
    ensures var s := MemoryRoots(mems, threshold); var r := s.rep[x];
            && (forall i: nat, j: nat :: MetUnder(mems, threshold, i, j, r) ==>
                  Jaccard(mems[i].body, mems[j].body) <= BestAt(s.best, r))
            && exists i: nat, j: nat :: i < j < |mems| && s.rep[i] == s.rep[j] == r && MetUnder(mems, threshold, i, j, r)
                  && BestAt(s.best, r) == Jaccard(mems[i].body, mems[j].body) >= threshold
  {
    var s, sim := MemoryRoots(mems, threshold), BodyTable(mems);
    var r := s.rep[x];
    BodyTableIsSimilarity(mems);
    ReportsLargestLanded(sim, threshold, |mems|, x, y);
    forall i: nat, j: nat | i < j < |mems|
      ensures MetUnder(mems, threshold, i, j, r) <==> LandsOn(sim, threshold, |mems|, i, j, r)
      ensures At(sim, i, j) == Jaccard(mems[i].body, mems[j].body)
    {}
    var i: nat, j: nat :| LandsOn(sim, threshold, |mems|, i, j, r) && At(sim, i, j) == BestAt(s.best, r);
    LandedStaysInClass(sim, threshold, |mems|, i, j, x);
    assert MetUnder(mems, threshold, i, j, r);
  }

  lemma NamesOfMembers(mems: seq<Memory>, rep: seq<nat>, r: nat)
    requires |rep| == |mems|
    ensures forall k :: 0 <= k < |Members(rep, r, |mems|)| ==> Members(rep, r, |mems|)[k] < |mems|
    ensures MemberNames(mems, rep, r, |mems|) == NamesOf(mems, Members(rep, r, |mems|))
  {
    MemberNamesAreNamesOfMembers(mems, rep, r, |mems|);
  }

  lemma ClassReported(mems: seq<Memory>, threshold: real, r: nat, c: DuplicateCluster)
    requires r < |mems| && |Members(MemoryRoots(mems, threshold).rep, r, |mems|)| >= 2
    requires var s := MemoryRoots(mems, threshold);
             c == DuplicateCluster(SortStrings(MemberNames(mems, s.rep, r, |mems|)), BestAt(s.best, r))
    ensures Reports(mems, threshold, Members(MemoryRoots(mems, threshold).rep, r, |mems|), c)
  {
    var s := MemoryRoots(mems, threshold);
    var members := Members(s.rep, r, |mems|);
    NamesOfMembers(mems, s.rep, r);
    MembersAreClass(s.rep, r, |mems|);
    assert members[0] in members && members[1] in members;
    KeptIsLargestMet(mems, threshold, members[0], members[1]);
  }

  lemma OnlyOne<T>(m: multiset<T>) returns (x: T)
    requires |m| <= 1 && m != multiset{}
    ensures m == multiset{x}
  {
    x :| x in m;
    assert |m - multiset{x}| == 0;
  }

  /** A list of items, each that of the root at its side; none is missing. */
  ghost predicate ItemsAt<T>(f: nat -> multiset<T>, roots: set<nat>, n: nat, out: seq<T>, at: seq<nat>)
  {
    && |out| == |at|
    && (forall k :: 0 <= k < |at| ==> at[k] < n && f(at[k]) == multiset{out[k]})
    && (forall j, k :: 0 <= j < k < |at| ==> at[j] != at[k])
    && (forall r: nat :: r < n && r in roots && f(r) != multiset{} ==> r in at)
  }

  lemma OneItemMore<T>(f: nat -> multiset<T>, roots: set<nat>, n: nat, out: seq<T>, at: seq<nat>, item: T)
    requires ItemsAt(f, roots, n, out, at) && f(n) == multiset{item}
    ensures ItemsAt(f, roots, n + 1, out + [item], at + [n])
  {
    forall r: nat | r < n + 1 && r in roots && f(r) != multiset{} ensures r in at + [n] {
      assert r < n ==> r in at;
      assert (at + [n])[|at|] == n;
    }
  }

  lemma NoItemMore<T>(f: nat -> multiset<T>, roots: set<nat>, n: nat, out: seq<T>, at: seq<nat>)
    requires ItemsAt(f, roots, n, out, at) && (n !in roots || f(n) == multiset{})
    ensures ItemsAt(f, roots, n + 1, out, at)
  {
    forall r: nat | r < n + 1 && r in roots && f(r) != multiset{} ensures r in at {
      assert r < n;
    }
  }

  ghost predicate ListsAll<T>(f: nat -> multiset<T>, roots: set<nat>, n: nat, out: seq<T>, at: seq<nat>)
  {
    multiset(out) == Gather(f, roots, n) && ItemsAt(f, roots, n, out, at)
  }

  lemma NextItem<T>(f: nat -> multiset<T>, roots: set<nat>, n: nat, out: seq<T>, at: seq<nat>)
    returns (more: seq<T>, atMore: seq<nat>)
    requires ListsAll(f, roots, n, out, at) && |f(n)| <= 1
    ensures ListsAll(f, roots, n + 1, more, atMore)
  {
    if n in roots && f(n) != multiset{} {
      var item := OnlyOne(f(n));
      OneItemMore(f, roots, n, out, at, item);
      more, atMore := out + [item], at + [n];
      assert multiset(more) == multiset(out) + multiset{item};
    } else {
      NoItemMore(f, roots, n, out, at);
      more, atMore := out, at;
      assert Gather(f, roots, n + 1) == Gather(f, roots, n);
    }
  }

  lemma NoItems<T>(f: nat -> multiset<T>, roots: set<nat>)
    ensures ListsAll(f, roots, 0, [], [])
  {
  }

  /** What is gathered of at most one item for each root, in a list with the roots. */
  lemma {:induction false} GatheredInOrder<T>(f: nat -> multiset<T>, roots: set<nat>, n: nat)
    returns (out: seq<T>, at: seq<nat>)
    requires forall r :: |f(r)| <= 1
    ensures ListsAll(f, roots, n, out, at)
  {
    if n == 0 {
      out, at := [], [];
      NoItems(f, roots);
    } else {
      var fewer, before := GatheredInOrder(f, roots, n - 1);
      out, at := NextItem(f, roots, n - 1, fewer, before);
    }
  }

  predicate TagsDiffer(x: (DuplicateCluster, nat), y: (DuplicateCluster, nat)) { x.1 != y.1 }

  lemma ClustersMoved(f: nat -> multiset<DuplicateCluster>, roots: set<nat>, n: nat,
                      listed: seq<DuplicateCluster>, first: seq<nat>, out: seq<DuplicateCluster>, at: seq<nat>)
    requires ItemsAt(f, roots, n, listed, first) && |out| == |at|
    requires multiset(Zip(listed, first)) == multiset(Zip(out, at))
    ensures ItemsAt(f, roots, n, out, at)
  {
    var a, b := Zip(listed, first), Zip(out, at);
    assert Pairwise(a, TagsDiffer);
    PairwisePermuted(a, b, TagsDiffer);
    forall k | 0 <= k < |at| ensures at[k] < n && f(at[k]) == multiset{out[k]} {
      assert b[k] in b;
      SameMembers(a, b, b[k]);
      var i :| 0 <= i < |a| && a[i] == b[k];
    }
    forall j, k | 0 <= j < k < |at| ensures at[j] != at[k] {
      assert TagsDiffer(b[j], b[k]);
    }
    forall r: nat | r < n && r in roots && f(r) != multiset{} ensures r in at {
      var i :| 0 <= i < |first| && first[i] == r;
      assert a[i] in a;
      SameMembers(a, b, a[i]);
      var k :| 0 <= k < |b| && b[k] == a[i];
      assert at[k] == r;
    }
  }

  /** In whatever order the clusters come, each goes with its root. */
  lemma RootsOf(f: nat -> multiset<DuplicateCluster>, roots: set<nat>, n: nat, out: seq<DuplicateCluster>)
    returns (at: seq<nat>)
    requires (forall r :: |f(r)| <= 1) && multiset(out) == Gather(f, roots, n)
    ensures ItemsAt(f, roots, n, out, at)
  {
    var listed, first := GatheredInOrder(f, roots, n);
    at := Retagged(listed, first, out);
    ClustersMoved(f, roots, n, listed, first, out, at);
  }

  lemma ClusterOfClass(mems: seq<Memory>, threshold: real, r: nat, c: DuplicateCluster)
    requires r < |mems| && ClusterOf(mems, MemoryRoots(mems, threshold), r) == multiset{c}
    ensures var members := Members(MemoryRoots(mems, threshold).rep, r, |mems|);
            IsComponent(mems, threshold, members) && Reports(mems, threshold, members, c)
  {
    var s := MemoryRoots(mems, threshold);
    NamesOfMembers(mems, s.rep, r);
    assert c in ClusterOf(mems, s, r);
    ClassIsWhole(mems, threshold, r);
    ClassReported(mems, threshold, r, c);
  }

  lemma ClassesDiffer(mems: seq<Memory>, rep: seq<nat>, q: nat, r: nat)
    requires |rep| == |mems| && q != r && |Members(rep, q, |mems|)| > 0
    ensures Members(rep, q, |mems|) != Members(rep, r, |mems|)
  {
    MembersAreClass(rep, q, |mems|);
    MembersAreClass(rep, r, |mems|);
    assert Members(rep, q, |mems|)[0] in Members(rep, q, |mems|);
  }

  lemma JoinedIsListed(mems: seq<Memory>, threshold: real, u: nat, v: nat)
    requires u < |mems| && v < |mems| && u != v && Joined(mems, threshold, u, v)
    ensures var rep := MemoryRoots(mems, threshold).rep;
            rep[u] < |mems| && rep[u] in RootSet(rep) && |MemberNames(mems, rep, rep[u], |mems|)| >= 2
  {
    var rep := MemoryRoots(mems, threshold).rep;
    RootsAreRooted(BodyTable(mems), threshold, |mems|);
    OneClusterIffChain(mems, threshold, u, v);
    MembersAreClass(rep, rep[u], |mems|);
    NamesOfMembers(mems, rep, rep[u]);
    var members := Members(rep, rep[u], |mems|);
    assert u in members && v in members;
  }

  lemma JoinedIsInCluster(mems: seq<Memory>, threshold: real, u: nat, v: nat)
    requires u < |mems| && v < |mems| && u != v && Joined(mems, threshold, u, v)
    ensures var s := MemoryRoots(mems, threshold); var r := s.rep[u];
            && r < |mems| && r in RootSet(s.rep) && ClusterOf(mems, s, r) != multiset{}
            && u in Members(s.rep, r, |mems|)
  {
    var s := MemoryRoots(mems, threshold);
    JoinedIsListed(mems, threshold, u, v);
    MembersAreClass(s.rep, s.rep[u], |mems|);
    assert |ClusterOf(mems, s, s.rep[u])| == 1;
  }

  /** The main result about the clusters: exactly one for each component of two
      memories or more. */
  lemma OneForEachComponent(mems: seq<Memory>, threshold: real, out: seq<DuplicateCluster>)
    returns (components: seq<seq<nat>>)
    requires var s := MemoryRoots(mems, threshold); multiset(out) == ClustersOf(mems, s, RootSet(s.rep))
    ensures OnePerComponent(mems, threshold, out, components)
  {
    var s := MemoryRoots(mems, threshold);
    var f := (r: nat) => ClusterOf(mems, s, r);
    var at := RootsOf(f, RootSet(s.rep), |mems|, out);
    components := seq(|at|, k requires 0 <= k < |at| => Members(s.rep, at[k], |mems|));
    forall k | 0 <= k < |out|
      ensures IsComponent(mems, threshold, components[k]) && Reports(mems, threshold, components[k], out[k])
    {
      ClusterOfClass(mems, threshold, at[k], out[k]);
    }
    forall j, k | 0 <= j < k < |out| ensures components[j] != components[k] {
      ClassesDiffer(mems, s.rep, at[j], at[k]);
    }
    forall u: nat, v: nat | u < |mems| && v < |mems| && u != v && Joined(mems, threshold, u, v)
      ensures exists k :: 0 <= k < |components| && u in components[k]
    {
      JoinedIsInCluster(mems, threshold, u, v);
      assert f(s.rep[u]) != multiset{};
      var k :| 0 <= k < |at| && at[k] == s.rep[u];
      assert u in components[k];
    }
  }

  /** With fewer than two memories there is no component to list. */
  lemma NoComponents(mems: seq<Memory>, threshold: real)
    requires |mems| < 2
    ensures OnePerComponent(mems, threshold, [], [])
  {
  }

  ghost predicate MostSimilarFirst(out: seq<DuplicateCluster>)
  {
    forall j, k :: 0 <= j < k < |out| ==>
      || out[j].similarity > out[k].similarity
      || (out[j].similarity == out[k].similarity && StrLeq(Join(out[j].names, ","), Join(out[k].names, ",")))
  }

  lemma SortedByFirst(out: seq<DuplicateCluster>)
    requires Sorted(out, ClusterLeq)
    ensures MostSimilarFirst(out)
  {
    assert forall j, k :: 0 <= j < k < |out| ==> ClusterLeq(out[j], out[k]);
  }

  /** Consolidate, over the listed memories. */
  method Consolidate(mems: seq<Memory>, threshold: real) returns (out: seq<DuplicateCluster>)
    ensures |mems| < 2 ==> out == []
    ensures |mems| >= 2 ==>
              var s := MemoryRoots(mems, threshold);
              multiset(out) == ClustersOf(mems, s, RootSet(s.rep))
    ensures exists components :: OnePerComponent(mems, threshold, out, components)
    ensures MostSimilarFirst(out)
  {
    var n := |mems|;
    if n < 2 {
      NoComponents(mems, threshold);
      return [];
    }
    var parent := new nat[n](i => i);
    var best, depth := LinkPairs(mems, threshold, parent, BodyTable(mems));
    ghost var s := MemoryRoots(mems, threshold);
    var groups := GroupByRoot(mems, parent, s.rep, depth);
    RootsLinkEdges(BodyTable(mems), threshold, n);
    GroupedRoots(groups, mems, s.rep);
    out := CollectClusters(mems, groups, best, s);
    ClusterLeqIsTotalPreorder();
    SortIsSorted(out, ClusterLeq);
    out := Sort(out, ClusterLeq);
    ghost var components := OneForEachComponent(mems, threshold, out);
    SortedByFirst(out);
  }

  lemma GroupedRoots(groups: map<nat, seq<string>>, mems: seq<Memory>, rep: seq<nat>)
    requires Grouped(groups, mems, rep, |mems|) && Rooted(rep)
    ensures groups.Keys == RootSet(rep)
    ensures forall r :: r in groups ==> r < |mems| && groups[r] == MemberNames(mems, rep, r, |mems|)
  {
    assert rep[..|mems|] == rep;
    forall r | r in groups ensures groups[r] == MemberNames(mems, rep, r, |mems|) {
      assert NamesAt(groups, r) == MemberNames(mems, rep, r, |mems|);
    }
  }

  /** One group gives a cluster when it has two names or more. */
  method ClusterFor(mems: seq<Memory>, names: seq<string>, best: map<nat, real>, r: nat, ghost s: Scan)
    returns (more: seq<DuplicateCluster>)
    requires |s.rep| == |mems| && best == s.best && names == MemberNames(mems, s.rep, r, |mems|)
    ensures multiset(more) == ClusterOf(mems, s, r)
  {
    if |names| < 2 {
      return [];
    }
    more := [DuplicateCluster(SortStrings(names), BestAt(best, r))];
  }

  /** The loop over the groups, in any order. */
  method CollectClusters(mems: seq<Memory>, groups: map<nat, seq<string>>, best: map<nat, real>, ghost s: Scan)
    returns (out: seq<DuplicateCluster>)
    requires |s.rep| == |mems| && best == s.best
    requires forall r :: r in groups ==> r < |mems| && groups[r] == MemberNames(mems, s.rep, r, |mems|)
    ensures multiset(out) == ClustersOf(mems, s, groups.Keys)
  {
    out := [];
    var left := groups.Keys;
    ghost var f := (r: nat) => ClusterOf(mems, s, r);
    ghost var done: set<nat> := {};
    GatherNone(f, |mems|);
    while left != {}
      invariant done == groups.Keys - left
      invariant multiset(out) == Gather(f, done, |mems|)
      decreases left
    {
      var r :| r in left;
      var more := ClusterFor(mems, groups[r], best, r, s);
      GatherOneMore(f, done, r, |mems|);
      out := out + more;
      left, done := left - {r}, done + {r};
    }
    assert done == groups.Keys;
  }
}
