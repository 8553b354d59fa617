/** Kahn's sort of the calibration graph, with a ready list kept in name order. */
module TopoSort {
  import opened Prelude
  import opened Sorting
  import opened NameOrder
  import opened CalibrationGraph

  /** How many entries of a depends_on list are known and not yet done: the indegree that remains. */
  function Pending(deps: seq<Name>, names: seq<Name>, done: seq<Name>): nat
    decreases |deps|
  {
    if deps == [] then 0
    else Pending(Init(deps), names, done) + (if Last(deps) in names && Last(deps) !in done then 1 else 0)
  }

  lemma {:induction false} PendingZero(deps: seq<Name>, names: seq<Name>, done: seq<Name>)
    ensures Pending(deps, names, done) == 0 <==> forall d :: d in deps && d in names ==> d in done
    decreases |deps|
  {
    if deps != [] {
      PendingZero(Init(deps), names, done);
      assert deps == Init(deps) + [Last(deps)];
    }
  }

  function Occurrences(s: seq<Name>, x: Name): nat
    decreases |s|
  {
    if s == [] then 0 else Occurrences(Init(s), x) + (if Last(s) == x then 1 else 0)
  }

  lemma OccurrencesSnoc(s: seq<Name>, y: Name, x: Name)
    ensures Occurrences(s + [y], x) == Occurrences(s, x) + (if x == y then 1 else 0)
  {
    assert Init(s + [y]) == s;
  }

  lemma {:induction false} OccurrencesCount(s: seq<Name>, x: Name)
    ensures Occurrences(s, x) == multiset(s)[x]
    decreases |s|
  {
    if s != [] {
      OccurrencesCount(Init(s), x);
      assert s == Init(s) + [Last(s)];
    }
  }

  lemma {:induction false} OccurrencesPositive(s: seq<Name>, i: nat)
    requires i < |s|
    ensures Occurrences(s[..i + 1], s[i]) == Occurrences(s[..i], s[i]) + 1
    ensures Occurrences(s, s[i]) >= Occurrences(s[..i + 1], s[i])
    decreases |s|
  {
    assert s[..i + 1] == s[..i] + [s[i]];
    OccurrencesSnoc(s[..i], s[i], s[i]);
    if i + 1 < |s| {
      OccurrencesPositive(Init(s), i);
      assert Init(s)[..i + 1] == s[..i + 1];
    } else {
      assert s[..i + 1] == s;
    }
  }

  /** Finishing a node takes its occurrences off every list it is on, repeats included. */
  lemma {:induction false} PendingAfter(deps: seq<Name>, names: seq<Name>, done: seq<Name>, n: Name)
    requires n in names && n !in done
    ensures Pending(deps, names, done + [n]) + Occurrences(deps, n) == Pending(deps, names, done)
    decreases |deps|
  {
    if deps != [] {
      PendingAfter(Init(deps), names, done, n);
      assert Last(deps) in done + [n] <==> Last(deps) in done || Last(deps) == n;
    }
  }

  lemma PendingSnoc(deps: seq<Name>, d: Name, names: seq<Name>, done: seq<Name>)
    ensures Pending(deps + [d], names, done) == Pending(deps, names, done) + (if d in names && d !in done then 1 else 0)
  {
    assert Init(deps + [d]) == deps;
  }

  /** n's entry in the indegree table after `deps` of its dependencies have been read, */
  predicate Counted(g: Graph, indeg: map<Name, nat>, n: Name, deps: seq<Name>) {
    n in indeg && indeg[n] == Pending(deps, g.names, [])
  }

  /** and its occurrences among the dependents of d. */
  predicate Linked(adj: map<Name, seq<Name>>, d: Name, n: Name, deps: seq<Name>) {
    d in adj && Occurrences(adj[d], n) == Occurrences(deps, d)
  }

  predicate Closed(g: Graph, adj: map<Name, seq<Name>>, d: Name) {
    d in adj && forall x :: x in adj[d] ==> x in g.names
  }

  /** The two tables built from the node table: indegrees, and dependents with one entry per occurrence. */
  ghost predicate Edges(g: Graph, indeg: map<Name, nat>, adj: map<Name, seq<Name>>)
    requires WellFormed(g)
  {
    && (forall n :: n in g.names ==> Counted(g, indeg, n, g.dependsOn[n]))
    && (forall d :: d in g.names ==> Closed(g, adj, d))
    && forall d, n :: d in g.names && n in g.names ==> Linked(adj, d, n, g.dependsOn[n])
  }

  /** The part of a node's dependencies that has been read when node i is being added and j of its own are read. */
  function ReadSoFar(g: Graph, i: nat, j: nat, k: nat): seq<Name>
    requires WellFormed(g) && k < |g.names|
  {
    assert g.names[k] in g.names;
    var deps := g.dependsOn[g.names[k]];
    if k < i then deps else if k == i && j <= |deps| then deps[..j] else []
  }

  ghost predicate EdgesSoFar(g: Graph, indeg: map<Name, nat>, adj: map<Name, seq<Name>>, i: nat, j: nat)
    requires WellFormed(g)
  {
    && (forall k :: 0 <= k < |g.names| ==> Counted(g, indeg, g.names[k], ReadSoFar(g, i, j, k)))
    && (forall d :: d in g.names ==> Closed(g, adj, d))
    && forall d, k :: d in g.names && 0 <= k < |g.names| ==> Linked(adj, d, g.names[k], ReadSoFar(g, i, j, k))
  }

  method BuildEdges(g: Graph) returns (indeg: map<Name, nat>, adj: map<Name, seq<Name>>)
    requires WellFormed(g)
    ensures Edges(g, indeg, adj)
  {
    hide Pending, Occurrences;
    indeg, adj := map[], map[];
    for i := 0 to |g.names|
      invariant forall k :: 0 <= k < i ==> g.names[k] in indeg && indeg[g.names[k]] == 0
      invariant forall k :: 0 <= k < i ==> g.names[k] in adj && adj[g.names[k]] == []
    {
      indeg, adj := indeg[g.names[i] := 0], adj[g.names[i] := []];
    }
    NothingRead(g, indeg, adj);
    for i := 0 to |g.names|
      invariant EdgesSoFar(g, indeg, adj, i, 0)
    {
      var deps := g.dependsOn[g.names[i]];
      for j := 0 to |deps|
        invariant EdgesSoFar(g, indeg, adj, i, j)
      {
        if deps[j] in g.names {
          OneMoreEdge(g, indeg, adj, i, j);
          adj := adj[deps[j] := adj[deps[j]] + [g.names[i]]];
          assert Counted(g, indeg, g.names[i], ReadSoFar(g, i, j, i));
          indeg := indeg[g.names[i] := indeg[g.names[i]] + 1];
        } else {
          UnknownSkipped(g, indeg, adj, i, j);
        }
      }
      NodeRead(g, indeg, adj, i);
    }
    AllRead(g, indeg, adj);
  }

  lemma NothingRead(g: Graph, indeg: map<Name, nat>, adj: map<Name, seq<Name>>)
    requires WellFormed(g)
    requires forall k :: 0 <= k < |g.names| ==> g.names[k] in indeg && indeg[g.names[k]] == 0
    requires forall k :: 0 <= k < |g.names| ==> g.names[k] in adj && adj[g.names[k]] == []
    ensures EdgesSoFar(g, indeg, adj, 0, 0)
  {
    forall d | d in g.names
      ensures d in adj && adj[d] == []
    {
      var k :| 0 <= k < |g.names| && g.names[k] == d;
    }
    assert forall k :: 0 <= k < |g.names| ==> ReadSoFar(g, 0, 0, k) == [];
  }

  /** Reading a known dependency adds one to the node's indegree and one entry for it to its dependency's list. */
  lemma OneMoreEdge(g: Graph, indeg: map<Name, nat>, adj: map<Name, seq<Name>>, i: nat, j: nat)
    requires WellFormed(g) && i < |g.names| && j < |g.dependsOn[g.names[i]]|
    requires EdgesSoFar(g, indeg, adj, i, j)
    requires g.dependsOn[g.names[i]][j] in g.names
    ensures var node, dep := g.names[i], g.dependsOn[g.names[i]][j];
            dep in adj && node in indeg
            && EdgesSoFar(g, indeg[node := indeg[node] + 1], adj[dep := adj[dep] + [node]], i, j + 1)
  {
    hide Pending, Occurrences;
    var node := g.names[i];
    var deps := g.dependsOn[node];
    var dep := deps[j];
    assert Closed(g, adj, dep) && Counted(g, indeg, node, ReadSoFar(g, i, j, i));
    var indeg', adj' := indeg[node := indeg[node] + 1], adj[dep := adj[dep] + [node]];
    assert deps[..j + 1] == deps[..j] + [dep];
    PendingSnoc(deps[..j], dep, g.names, []);
    forall k | 0 <= k < |g.names|
      ensures Counted(g, indeg', g.names[k], ReadSoFar(g, i, j + 1, k))
    {
      assert Counted(g, indeg, g.names[k], ReadSoFar(g, i, j, k));
    }
    forall d | d in g.names
      ensures Closed(g, adj', d)
    {
      assert Closed(g, adj, d);
    }
    forall d, k | d in g.names && 0 <= k < |g.names|
      ensures Linked(adj', d, g.names[k], ReadSoFar(g, i, j + 1, k))
    {
      assert Linked(adj, d, g.names[k], ReadSoFar(g, i, j, k));
      OccurrencesSnoc(adj[dep], node, g.names[k]);
      OccurrencesSnoc(deps[..j], dep, d);
    }
  }

  lemma UnknownSkipped(g: Graph, indeg: map<Name, nat>, adj: map<Name, seq<Name>>, i: nat, j: nat)
    requires WellFormed(g) && i < |g.names| && j < |g.dependsOn[g.names[i]]|
    requires EdgesSoFar(g, indeg, adj, i, j)
    requires g.dependsOn[g.names[i]][j] !in g.names
    ensures EdgesSoFar(g, indeg, adj, i, j + 1)
  {
    hide Pending, Occurrences;
    var deps := g.dependsOn[g.names[i]];
    assert deps[..j + 1] == deps[..j] + [deps[j]];
    PendingSnoc(deps[..j], deps[j], g.names, []);
    forall k | 0 <= k < |g.names|
      ensures Counted(g, indeg, g.names[k], ReadSoFar(g, i, j + 1, k))
    {
      assert Counted(g, indeg, g.names[k], ReadSoFar(g, i, j, k));
    }
    forall d, k | d in g.names && 0 <= k < |g.names|
      ensures Linked(adj, d, g.names[k], ReadSoFar(g, i, j + 1, k))
    {
      assert Linked(adj, d, g.names[k], ReadSoFar(g, i, j, k));
      OccurrencesSnoc(deps[..j], deps[j], d);
    }
  }

  lemma NodeRead(g: Graph, indeg: map<Name, nat>, adj: map<Name, seq<Name>>, i: nat)
    requires WellFormed(g) && i < |g.names| && EdgesSoFar(g, indeg, adj, i, |g.dependsOn[g.names[i]]|)
    ensures EdgesSoFar(g, indeg, adj, i + 1, 0)
  {
    hide Pending, Occurrences;
    var deps := g.dependsOn[g.names[i]];
    assert deps[..|deps|] == deps;
    forall k | 0 <= k < |g.names|
      ensures ReadSoFar(g, i + 1, 0, k) == ReadSoFar(g, i, |deps|, k)
    {
      if k == i + 1 {
        assert g.dependsOn[g.names[k]][..0] == [];
      }
    }
  }

  lemma AllRead(g: Graph, indeg: map<Name, nat>, adj: map<Name, seq<Name>>)
    requires WellFormed(g) && EdgesSoFar(g, indeg, adj, |g.names|, 0)
    ensures Edges(g, indeg, adj)
  {
    hide Pending, Occurrences;
    forall n | n in g.names
      ensures Counted(g, indeg, n, g.dependsOn[n])
      ensures forall d :: d in g.names ==> Linked(adj, d, n, g.dependsOn[n])
    {
      var k :| 0 <= k < |g.names| && g.names[k] == n;
      assert ReadSoFar(g, |g.names|, 0, k) == g.dependsOn[n];
      assert Counted(g, indeg, n, ReadSoFar(g, |g.names|, 0, k));
      assert forall d :: d in g.names ==> Linked(adj, d, n, ReadSoFar(g, |g.names|, 0, k));
    }
  }

  /** What the main loop keeps: the order so far is greedy, the tables and the ready list are up to date. */
  ghost predicate LoopInv(g: Graph, order: seq<Name>, indeg: map<Name, nat>, ready: seq<Name>)
    requires WellFormed(g)
  {
    && IsGreedy(g, order)
    && (forall n :: n in order ==> n in g.names && DependenciesIn(g, n, order))
    && (forall n :: n in g.names ==> n in indeg)
    && (forall n :: n in g.names && n !in order ==> indeg[n] == Pending(g.dependsOn[n], g.names, order))
    && Increasing(Less, ready)
    && forall n :: n in ready <==> Ready(g, order, n)
  }

  lemma ReadyIffNoPending(g: Graph, order: seq<Name>, n: Name)
    requires WellFormed(g) && n in g.names
    ensures Ready(g, order, n) <==> n !in order && Pending(g.dependsOn[n], g.names, order) == 0
  {
    PendingZero(g.dependsOn[n], g.names, order);
  }

  /** Where the release of n stands once its dependents in `seen` have been decremented. */
  ghost predicate Releasing(g: Graph, order: seq<Name>, n: Name, seen: seq<Name>, indeg: map<Name, nat>, ready: seq<Name>)
    requires WellFormed(g)
  {
    && (forall m :: m in g.names ==> m in indeg)
    && (forall m :: m in g.names && m !in order + [n] ==>
          indeg[m] + Occurrences(seen, m) == Pending(g.dependsOn[m], g.names, order))
    && Increasing(Less, ready)
    && forall m :: m in ready <==> m in g.names && m !in order + [n] && indeg[m] == 0
  }

  /** The dependents of n, one entry per occurrence, all still to come. */
  ghost predicate Dependents(g: Graph, order: seq<Name>, n: Name, children: seq<Name>)
    requires WellFormed(g)
  {
    && n in g.names && n !in order
    && (forall m :: m in children ==> m in g.names && m !in order + [n])
    && forall m :: m in g.names ==> Occurrences(children, m) == Occurrences(g.dependsOn[m], n)
  }

  /** Decrement every child once per occurrence; the ones that reach zero enter the ready list in order. */
  method Release(g: Graph, order: seq<Name>, n: Name, children: seq<Name>, indeg0: map<Name, nat>, ready0: seq<Name>)
    returns (indeg: map<Name, nat>, ready: seq<Name>)
    requires WellFormed(g) && Dependents(g, order, n, children)
    requires Releasing(g, order, n, [], indeg0, ready0)
    ensures Releasing(g, order, n, children, indeg, ready)
  {
    hide Pending, Occurrences, Insert, Increasing;
    indeg, ready := indeg0, ready0;
    for i := 0 to |children|
      invariant Releasing(g, order, n, children[..i], indeg, ready)
    {
      var c := children[i];
      assert c in children;
      DecrementOne(g, order, n, children, i, indeg, ready);
      var d := indeg[c] - 1;
      indeg := indeg[c := d];
      if d == 0 { ready := Insert(Less, ready, c); }
    }
    assert children[..|children|] == children;
  }

  lemma EnterReady(ready: seq<Name>, c: Name)
    requires Increasing(Less, ready) && c !in ready
    ensures Increasing(Less, Insert(Less, ready, c))
    ensures forall m :: m in Insert(Less, ready, c) <==> m in ready || m == c
  {
    hide Insert, Less;
    LessIsTotal(ready);
    LessIsTotal(ready + [c]);
    IncreasingAscends(Less, ready);
    assert Distinct(ready + [c]);
    InsertAscends(Less, ready, c);
    InsertMembers(Less, ready, c);
    assert multiset(ready + [c]) == multiset(ready) + multiset{c};
    ArrangementIncreases(Less, ready + [c], Insert(Less, ready, c));
  }

  lemma DecrementOne(g: Graph, order: seq<Name>, n: Name, children: seq<Name>, i: nat, indeg: map<Name, nat>, ready: seq<Name>)
    requires WellFormed(g) && Dependents(g, order, n, children) && i < |children|
    requires Releasing(g, order, n, children[..i], indeg, ready)
    ensures children[i] in indeg && indeg[children[i]] > 0
    ensures var d := indeg[children[i]] - 1;
            Releasing(g, order, n, children[..i + 1], indeg[children[i] := d],
                      if d == 0 then Insert(Less, ready, children[i]) else ready)
  {
    hide Pending, Occurrences, Insert, Increasing;
    var c := children[i];
    assert c in children;
    assert children[..i + 1] == children[..i] + [c];
    PendingAfter(g.dependsOn[c], g.names, order, n);
    OccurrencesPositive(children, i);
    forall m | m in g.names
      ensures Occurrences(children[..i + 1], m) == Occurrences(children[..i], m) + (if m == c then 1 else 0)
    {
      OccurrencesSnoc(children[..i], c, m);
    }
    if indeg[c] == 1 {
      assert c !in ready;
      EnterReady(ready, c);
    }
  }

  /** Releasing starts from the loop state with n taken off the ready list, and ends in the next loop state. */
  lemma ReleaseStarts(g: Graph, order: seq<Name>, indeg: map<Name, nat>, ready: seq<Name>)
    requires WellFormed(g) && LoopInv(g, order, indeg, ready) && ready != []
    ensures Releasing(g, order, ready[0], [], indeg, ready[1..])
  {
    hide Pending, Less;
    assert ready == [ready[0]] + ready[1..];
    ReadyTail(g, order, ready[0], ready[1..]);
  }

  lemma ReleaseEnds(g: Graph, order: seq<Name>, n: Name, children: seq<Name>, indeg: map<Name, nat>, ready: seq<Name>)
    requires WellFormed(g) && Dependents(g, order, n, children)
    requires Releasing(g, order, n, children, indeg, ready)
    requires IsGreedy(g, order + [n])
    requires forall m :: m in order + [n] ==> m in g.names && DependenciesIn(g, m, order + [n])
    ensures LoopInv(g, order + [n], indeg, ready)
  {
    hide Pending, Occurrences, Less, IsGreedy, Ready;
    forall m | m in g.names && m !in order + [n]
      ensures indeg[m] == Pending(g.dependsOn[m], g.names, order + [n])
    {
      PendingAfter(g.dependsOn[m], g.names, order, n);
    }
    forall m
      ensures m in ready <==> Ready(g, order + [n], m)
    {
      if m in g.names {
        ReadyIffNoPending(g, order + [n], m);
      } else {
        ReadyIsKnown(g, order + [n], m);
      }
    }
  }

  lemma ReadyIsKnown(g: Graph, done: seq<Name>, n: Name)
    ensures Ready(g, done, n) ==> n in g.names
  {
  }

  lemma ChildrenAreDependents(g: Graph, order: seq<Name>, indeg0: map<Name, nat>, adj: map<Name, seq<Name>>,
                              indeg: map<Name, nat>, ready: seq<Name>)
    requires WellFormed(g) && Edges(g, indeg0, adj) && LoopInv(g, order, indeg, ready) && ready != []
    ensures ready[0] in adj && Dependents(g, order, ready[0], Sorted(Less, adj[ready[0]]))
  {
    hide Pending, Occurrences, Sorted, Less, Increasing;
    var n := ready[0];
    assert n in ready && Ready(g, order, n) && Closed(g, adj, n);
    var children := Sorted(Less, adj[n]);
    LessIsTotal(adj[n]);
    SortedSorts(Less, adj[n]);
    SameMembers(children, adj[n]);
    forall m | m in children
      ensures m in g.names && m !in order + [n]
    {
      assert Linked(adj, n, m, g.dependsOn[m]);
      OccurrencesCount(adj[n], m);
      OccurrencesCount(g.dependsOn[m], n);
      ChildIsLater(g, order, n, m, indeg, ready);
    }
    forall m | m in g.names
      ensures Occurrences(children, m) == Occurrences(g.dependsOn[m], n)
    {
      OccurrencesCount(children, m);
      OccurrencesCount(adj[n], m);
      assert Linked(adj, n, m, g.dependsOn[m]);
    }
  }

  lemma ReadyTail(g: Graph, order: seq<Name>, n: Name, ready0: seq<Name>)
    requires WellFormed(g) && Increasing(Less, [n] + ready0)
    requires forall m :: m in [n] + ready0 <==> Ready(g, order, m)
    ensures Increasing(Less, ready0)
    ensures forall m :: m in ready0 <==>
              m in g.names && m !in order + [n] && Pending(g.dependsOn[m], g.names, order) == 0
  {
    var all := [n] + ready0;
    forall i, j | 0 <= i < j < |ready0|
      ensures Less(ready0[i], ready0[j])
    {
      assert Less(all[i + 1], all[j + 1]);
    }
    forall m
      ensures m in ready0 <==> m in g.names && m !in order + [n] && Pending(g.dependsOn[m], g.names, order) == 0
    {
      if m in g.names {
        ReadyIffNoPending(g, order, m);
      }
      if m in ready0 {
        var j :| 0 <= j < |ready0| && ready0[j] == m;
        assert Less(all[0], all[j + 1]);
        NeverLess(n);
        assert m in all;
      }
      assert Ready(g, order, m) && m != n ==> m in all && m in ready0;
    }
  }

  /** A dependent of a node that is only now finished has not been finished before, and is not that node. */
  lemma ChildIsLater(g: Graph, order: seq<Name>, n: Name, m: Name, indeg: map<Name, nat>, ready: seq<Name>)
    requires WellFormed(g) && LoopInv(g, order, indeg, ready) && Ready(g, order, n)
    requires m in g.names && n in g.dependsOn[m]
    ensures m !in order + [n]
  {
    assert Depends(g, m, n);
    assert m in order ==> DependenciesIn(g, m, order);
  }

  lemma NextIsLeast(g: Graph, order: seq<Name>, indeg: map<Name, nat>, ready: seq<Name>)
    requires WellFormed(g) && LoopInv(g, order, indeg, ready) && ready != []
    ensures IsGreedy(g, order + [ready[0]])
    ensures forall n :: n in order + [ready[0]] ==> n in g.names && DependenciesIn(g, n, order + [ready[0]])
  {
    var n, longer := ready[0], order + [ready[0]];
    assert n in ready;
    forall m | Ready(g, order, m)
      ensures !Less(m, n)
    {
      var k :| 0 <= k < |ready| && ready[k] == m;
      LessTotal(n, m);
    }
    forall i | 0 <= i < |longer|
      ensures IsLeastReady(g, longer[..i], longer[i])
    {
      if i < |order| {
        assert longer[..i] == order[..i];
        assert IsLeastReady(g, order[..i], order[i]);
      } else {
        assert longer[..i] == order;
      }
    }
  }

  lemma NoMoreThanAll(g: Graph, order: seq<Name>)
    requires WellFormed(g) && IsGreedy(g, order) && forall n :: n in order ==> n in g.names
    ensures |order| <= |g.names|
  {
    GreedyDistinct(g, order);
    DistinctCardinality(order);
    DistinctCardinality(g.names);
    assert forall n :: n in Elements(order) ==> n in Elements(g.names);
    SubsetCardinality(Elements(order), Elements(g.names));
  }

  /**
    topoSort returns an order exactly when the known-dependency graph has no cycle, and then it is the
    lexicographically least order that places every known dependency before its dependents.
   */
  method TopoSort(g: Graph) returns (r: Option<seq<Name>>)
    requires WellFormed(g)
    ensures r.Some? <==> !HasCycle(g)
    ensures r.Some? ==> IsTopological(g, r.value)
    ensures r.Some? ==> forall other :: IsTopological(g, other) ==> LexLeast(r.value, other)
  {
    hide Pending, Occurrences, Sorted, Increasing, IsGreedy, Ready, IsTopological, LexLeast, HasCycle, DependenciesIn, Linked, Closed;
    var indeg0, adj := BuildEdges(g);
    var indeg := indeg0;
    assert forall n :: n in g.names ==> Counted(g, indeg, n, g.dependsOn[n]);
    assert forall n :: n in g.names ==> n in indeg;
    var roots := [];
    for i := 0 to |g.names|
      invariant forall n :: n in g.names[..i] ==> n in indeg
      invariant roots == Filtered(g.names[..i], indeg)
    {
      assert g.names[..i + 1] == g.names[..i] + [g.names[i]];
      assert Init(g.names[..i + 1]) == g.names[..i];
      assert Counted(g, indeg, g.names[i], g.dependsOn[g.names[i]]);
      if indeg[g.names[i]] == 0 { roots := roots + [g.names[i]]; }
    }
    assert g.names[..|g.names|] == g.names;
    var ready := Sorted(Less, roots);
    InitialReady(g, indeg, roots);
    var order: seq<Name> := [];
    while ready != []
      invariant LoopInv(g, order, indeg, ready)
      invariant |order| <= |g.names|
      decreases |g.names| - |order|
    {
      var n := ready[0];
      NextIsLeast(g, order, indeg, ready);
      ChildrenAreDependents(g, order, indeg0, adj, indeg, ready);
      ReleaseStarts(g, order, indeg, ready);
      var children := Sorted(Less, adj[n]);
      indeg, ready := Release(g, order, n, children, indeg, ready[1..]);
      ReleaseEnds(g, order, n, children, indeg, ready);
      order := order + [n];
      NoMoreThanAll(g, order);
    }
    if |order| == |g.names| {
      GreedyIsTopological(g, order);
      CycleBlocks(g, order);
      forall other | IsTopological(g, other)
        ensures LexLeast(order, other)
      {
        GreedyIsLexLeast(g, order, other);
      }
      r := Some(order);
    } else {
      GreedyDistinct(g, order);
      forall n
        ensures !Ready(g, order, n)
      {
        assert n !in ready;
      }
      StuckMeansCycle(g, order);
      r := None;
    }
  }

  /** The names whose indegree is zero, in table order. */
  function Filtered(names: seq<Name>, indeg: map<Name, nat>): seq<Name>
    requires forall n :: n in names ==> n in indeg
    decreases |names|
  {
    if names == [] then []
    else
      assert forall n :: n in Init(names) ==> n in names;
      assert Last(names) in names;
      Filtered(Init(names), indeg) + (if indeg[Last(names)] == 0 then [Last(names)] else [])
  }

  lemma {:induction false} FilteredMembers(names: seq<Name>, indeg: map<Name, nat>)
    requires forall n :: n in names ==> n in indeg
    requires Distinct(names)
    ensures forall n :: n in Filtered(names, indeg) <==> n in names && indeg[n] == 0
    ensures Distinct(Filtered(names, indeg))
    decreases |names|
  {
    if names != [] {
      assert forall n :: n in Init(names) ==> n in names;
      assert names == Init(names) + [Last(names)];
      FilteredMembers(Init(names), indeg);
    }
  }

  lemma InitialReady(g: Graph, indeg: map<Name, nat>, roots: seq<Name>)
    requires WellFormed(g) && (forall n :: n in g.names ==> n in indeg)
    requires forall n :: n in g.names ==> indeg[n] == Pending(g.dependsOn[n], g.names, [])
    requires roots == Filtered(g.names, indeg)
    ensures LoopInv(g, [], indeg, Sorted(Less, roots))
  {
    FilteredMembers(g.names, indeg);
    LessIsTotal(roots);
    SortedIncreases(Less, roots);
    forall n | n in g.names
      ensures Ready(g, [], n) <==> indeg[n] == 0
    {
      ReadyIffNoPending(g, [], n);
    }
  }
}
