/** The calibration graph: nodes, known dependencies, chains and cycles. */
module CalibrationGraph {
  import opened Prelude
  import opened NameOrder

  /** A node table in insertion order, with the depends_on list of each node. */
  datatype Graph = Graph(names: seq<Name>, dependsOn: map<Name, seq<Name>>)

  ghost predicate WellFormed(g: Graph) {
    Distinct(g.names) && forall n :: n in g.names ==> n in g.dependsOn
  }

  /** d is a dependency of n that the graph knows; unknown names are dropped. */
  predicate Depends(g: Graph, n: Name, d: Name) {
    n in g.names && n in g.dependsOn && d in g.dependsOn[n] && d in g.names
  }

  /** Each entry is a dependency of the next one. */
  ghost predicate IsChain(g: Graph, c: seq<Name>) {
    c != [] && (forall i :: 0 <= i < |c| ==> c[i] in g.names)
    && forall i :: 0 <= i < |c| - 1 ==> Depends(g, c[i + 1], c[i])
  }

  /** A chain of at least one step back to where it started; a self-dependency is one. */
  ghost predicate HasCycle(g: Graph) {
    exists c :: IsCycle(g, c)
  }

  ghost predicate IsCycle(g: Graph, c: seq<Name>) {
    IsChain(g, c) && |c| > 1 && c[0] == Last(c)
  }

  /** Every node once, every known dependency before its dependents. */
  ghost predicate IsTopological(g: Graph, order: seq<Name>) {
    && Distinct(order)
    && (forall n :: n in order <==> n in g.names)
    && forall i :: 0 <= i < |order| ==> DependenciesIn(g, order[i], order[..i])
  }

  ghost predicate DependenciesIn(g: Graph, n: Name, done: seq<Name>) {
    forall d :: Depends(g, n, d) ==> d in done
  }

  /** n can be processed after `done`: it is new and all its known dependencies are there. */
  ghost predicate Ready(g: Graph, done: seq<Name>, n: Name) {
    n in g.names && n !in done && DependenciesIn(g, n, done)
  }

  /** Always the smallest ready name. */
  ghost predicate IsGreedy(g: Graph, order: seq<Name>) {
    forall i :: 0 <= i < |order| ==> IsLeastReady(g, order[..i], order[i])
  }

  ghost predicate IsLeastReady(g: Graph, done: seq<Name>, n: Name) {
    Ready(g, done, n) && forall m :: Ready(g, done, m) ==> !Less(m, n)
  }

  /** Positions strictly increase along a chain, so no topological order has room for a cycle. */
  lemma {:induction false} ChainPositions(g: Graph, order: seq<Name>, c: seq<Name>, i: nat, j: nat)
    requires IsTopological(g, order) && IsChain(g, c) && |c| > 1
    requires i < |order| && j < |order| && order[i] == c[0] && order[j] == Last(c)
    ensures i < j
    decreases |c|
  {
    var prev := c[|c| - 2];
    assert Depends(g, c[|c| - 2 + 1], prev);
    assert DependenciesIn(g, order[j], order[..j]);
    var k :| 0 <= k < j && order[..j][k] == prev;
    if |c| == 2 {
      assert order[k] == order[i];
    } else {
      var front := Init(c);
      forall m | 0 <= m < |front| - 1
        ensures Depends(g, front[m + 1], front[m])
      {
        assert Depends(g, c[m + 1], c[m]);
      }
      ChainPositions(g, order, front, i, k);
    }
  }

  lemma CycleBlocks(g: Graph, order: seq<Name>)
    requires IsTopological(g, order)
    ensures !HasCycle(g)
  {
    forall c | IsCycle(g, c)
      ensures false
    {
      assert c[0] in order;
      var i :| 0 <= i < |order| && order[i] == c[0];
      ChainPositions(g, order, c, i, i);
    }
  }

  /** A greedy order that covers all nodes is a topological order, */
  lemma GreedyIsTopological(g: Graph, order: seq<Name>)
    requires WellFormed(g) && IsGreedy(g, order) && |order| == |g.names|
    ensures IsTopological(g, order)
  {
    GreedyDistinct(g, order);
    forall i | 0 <= i < |order|
      ensures order[i] in g.names && DependenciesIn(g, order[i], order[..i])
    {
      assert IsLeastReady(g, order[..i], order[i]);
    }
    DistinctCardinality(order);
    DistinctCardinality(g.names);
    SubsetCardinality(Elements(order), Elements(g.names));
    assert forall n :: n in g.names <==> n in Elements(g.names);
    assert forall n :: n in order <==> n in Elements(order);
  }

  lemma GreedyDistinct(g: Graph, order: seq<Name>)
    requires IsGreedy(g, order)
    ensures Distinct(order)
  {
    forall i, j | 0 <= i < j < |order|
      ensures order[i] != order[j]
    {
      assert IsLeastReady(g, order[..j], order[j]);
      assert order[i] == order[..j][i];
    }
  }

  /** and it comes lexicographically first among all topological orders. */
  lemma GreedyIsLexLeast(g: Graph, order: seq<Name>, other: seq<Name>)
    requires WellFormed(g) && IsGreedy(g, order) && |order| == |g.names|
    requires IsTopological(g, other)
    ensures LexLeast(order, other)
  {
    GreedyIsTopological(g, order);
    TopologicalLength(g, order);
    TopologicalLength(g, other);
    if order != other {
      var i := FirstDifference(order, other);
      assert IsLeastReady(g, order[..i], order[i]);
      assert DependenciesIn(g, other[i], other[..i]);
      assert other[i] !in other[..i];
      assert Ready(g, order[..i], other[i]);
      LessTotal(order[i], other[i]);
      LessIff(order[i], other[i]);
      assert EarlierAt(order, other, i);
    }
  }

  lemma TopologicalLength(g: Graph, order: seq<Name>)
    requires WellFormed(g) && IsTopological(g, order)
    ensures |order| == |g.names|
  {
    DistinctCardinality(order);
    DistinctCardinality(g.names);
    assert Elements(order) == Elements(g.names);
  }

  lemma {:induction false} FirstDifference(a: seq<Name>, b: seq<Name>) returns (i: nat)
    requires |a| == |b| && a != b
    ensures i < |a| && a[..i] == b[..i] && a[i] != b[i]
    decreases |a|
  {
    if Init(a) == Init(b) {
      i := |a| - 1;
      assert a == Init(a) + [Last(a)] && b == Init(b) + [Last(b)];
    } else {
      i := FirstDifference(Init(a), Init(b));
      assert a[..i] == Init(a)[..i] && b[..i] == Init(b)[..i];
    }
  }

  /** When nothing is ready any more but nodes remain, the remaining nodes contain a cycle. */
  lemma StuckMeansCycle(g: Graph, done: seq<Name>)
    requires WellFormed(g) && Distinct(done) && (forall n :: n in done ==> n in g.names)
    requires |done| < |g.names| && forall n :: !Ready(g, done, n)
    ensures HasCycle(g)
  {
    DistinctCardinality(done);
    DistinctCardinality(g.names);
    var rest := Elements(g.names) - Elements(done);
    if rest == {} {
      assert forall n :: n in Elements(g.names) ==> n in Elements(done) || n in rest;
      SubsetCardinality(Elements(g.names), Elements(done));
      assert false;
    }
    var n :| n in rest;
    var c := WalkBack(g, done, n, |rest| + 1);
    var i, j := Pigeonhole(c, rest);
    var loop := c[i..j + 1];
    forall m | 0 <= m < |loop| - 1
      ensures Depends(g, loop[m + 1], loop[m])
    {
      assert Depends(g, c[i + m + 1], c[i + m]);
    }
    assert IsCycle(g, loop);
  }

  /** A remaining node has a remaining dependency, so chains of remaining nodes of any length end in it. */
  lemma {:induction false} WalkBack(g: Graph, done: seq<Name>, n: Name, length: nat) returns (c: seq<Name>)
    requires n in g.names && n !in done && length > 0
    requires forall m :: !Ready(g, done, m)
    ensures IsChain(g, c) && |c| == length
    ensures forall m :: m in c ==> m in Elements(g.names) - Elements(done)
    ensures Last(c) == n
    decreases length
  {
    if length == 1 {
      c := [n];
    } else {
      assert !Ready(g, done, n);
      var d :| Depends(g, n, d) && d !in done;
      var front := WalkBack(g, done, d, length - 1);
      c := front + [n];
      forall m | 0 <= m < |c| - 1
        ensures Depends(g, c[m + 1], c[m])
      {
        if m < |front| - 1 {
          assert Depends(g, front[m + 1], front[m]);
        }
      }
    }
  }
}
