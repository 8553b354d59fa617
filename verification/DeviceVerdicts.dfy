/** Depths, suspect propagation and the ranked verdict list of the calibration graph. */
module DeviceVerdicts {
  import opened Prelude
  import opened Sorting
  import opened NameOrder
  import opened CalibrationGraph

  datatype Status = Calibrated | Stale | Suspect | Failed | Uncharacterized
  datatype Action = NoAction | Check | Calibrate

  datatype Threshold = Threshold(metric: string, max: Option<real>, min: Option<real>)
  datatype NodeSpec = NodeSpec(ttlSeconds: Option<real>, check: Option<Threshold>)

  /** The recorded state of a node: when (None if absent or unparseable), what it reported, its numeric readings. */
  datatype NodeState = NodeState(tsMs: Option<int>, reportedFailed: bool, readings: map<string, real>)

  /** Never recorded is older than any number of seconds. */
  datatype Age = Never | Seconds(s: real)

  datatype Own = Own(status: Status, age: Age)

  predicate Breaches(t: Threshold, m: real) {
    (t.max.Some? && m > t.max.value) || (t.min.Some? && m < t.min.value)
  }

  ghost predicate Recorded(state: Option<NodeState>) {
    state.Some? && state.value.tsMs.Some?
  }

  /** The experiment said so, or the checked reading is there and out of its limits. */
  ghost predicate Broken(spec: NodeSpec, state: NodeState) {
    || state.reportedFailed
    || (&& spec.check.Some? && spec.check.value.metric in state.readings
        && var limit, reading := spec.check.value, state.readings[spec.check.value.metric];
           || (limit.max.Some? && reading > limit.max.value)
           || (limit.min.Some? && reading < limit.min.value))
  }

  ghost function AgeInSeconds(tsMs: int, nowMs: int): real {
    (nowMs - tsMs) as real / 1000.0
  }

  ghost predicate Expired(spec: NodeSpec, tsMs: int, nowMs: int) {
    spec.ttlSeconds.Some? && AgeInSeconds(tsMs, nowMs) > spec.ttlSeconds.value
  }

  /** ownStatus: a node judged from its own state alone. A failure outranks age; a node never makes itself suspect. */
  function OwnStatus(spec: NodeSpec, state: Option<NodeState>, nowMs: int): (o: Own)
    ensures o.age == if Recorded(state) then Seconds(AgeInSeconds(state.value.tsMs.value, nowMs)) else Never
    ensures o.status == Uncharacterized <==> !Recorded(state)
    ensures o.status == Failed <==> Recorded(state) && Broken(spec, state.value)
    ensures o.status == Stale <==> Recorded(state) && !Broken(spec, state.value) && Expired(spec, state.value.tsMs.value, nowMs)
    ensures o.status == Calibrated <==>
            Recorded(state) && !Broken(spec, state.value) && !Expired(spec, state.value.tsMs.value, nowMs)
  {
    if state.None? || state.value.tsMs.None? then Own(Uncharacterized, Never)
    else
      var seconds := (nowMs - state.value.tsMs.value) as real / 1000.0;
      if state.value.reportedFailed then Own(Failed, Seconds(seconds))
      else if spec.check.Some? && spec.check.value.metric in state.value.readings
              && Breaches(spec.check.value, state.value.readings[spec.check.value.metric])
      then Own(Failed, Seconds(seconds))
      else if spec.ttlSeconds.Some? && seconds > spec.ttlSeconds.value then Own(Stale, Seconds(seconds))
      else Own(Calibrated, Seconds(seconds))
  }

  function ActionFor(s: Status): Action {
    match s
    case Calibrated => NoAction
    case Stale => Check
    case Suspect => Check
    case Uncharacterized => Calibrate
    case Failed => Calibrate
  }

  // ---- depth ------------------------------------------------------------------------------------

  ghost predicate ChainTo(g: Graph, c: seq<Name>, n: Name) {
    IsChain(g, c) && Last(c) == n
  }

  /** The longest dependency chain ending at n has k steps. */
  ghost predicate IsDepth(g: Graph, n: Name, k: nat) {
    (exists c :: ChainTo(g, c, n) && |c| == k + 1) && forall c :: ChainTo(g, c, n) ==> |c| <= k + 1
  }

  /** Extending a chain by a dependent. */
  lemma ExtendChain(g: Graph, c: seq<Name>, d: Name, n: Name)
    requires ChainTo(g, c, d) && Depends(g, n, d)
    ensures ChainTo(g, c + [n], n)
  {
    var longer := c + [n];
    forall i | 0 <= i < |longer| - 1
      ensures Depends(g, longer[i + 1], longer[i])
    {
      if i < |c| - 1 {
        assert Depends(g, c[i + 1], c[i]);
      }
    }
  }

  /** A chain of more than one node ends with a dependency step. */
  lemma ShortenChain(g: Graph, c: seq<Name>, n: Name)
    requires ChainTo(g, c, n) && |c| > 1
    ensures Depends(g, n, Last(Init(c))) && ChainTo(g, Init(c), Last(Init(c)))
  {
    var front := Init(c);
    assert Depends(g, c[|c| - 2 + 1], c[|c| - 2]);
    forall i | 0 <= i < |front| - 1
      ensures Depends(g, front[i + 1], front[i])
    {
      assert Depends(g, c[i + 1], c[i]);
    }
  }

  lemma RootDepth(g: Graph, n: Name)
    requires n in g.names && forall d :: !Depends(g, n, d)
    ensures IsDepth(g, n, 0)
  {
    assert ChainTo(g, [n], n);
    forall c | ChainTo(g, c, n)
      ensures |c| <= 1
    {
      if |c| > 1 {
        ShortenChain(g, c, n);
        assert false;
      }
    }
  }

  /** One more than the deepest dependency. */
  lemma DepthStep(g: Graph, n: Name, depth: map<Name, nat>, deepest: Name)
    requires forall d :: Depends(g, n, d) ==> d in depth && IsDepth(g, d, depth[d])
    requires Depends(g, n, deepest) && forall d :: Depends(g, n, d) ==> depth[d] <= depth[deepest]
    ensures IsDepth(g, n, depth[deepest] + 1)
  {
    var c :| ChainTo(g, c, deepest) && |c| == depth[deepest] + 1;
    ExtendChain(g, c, deepest, n);
    forall c | ChainTo(g, c, n)
      ensures |c| <= depth[deepest] + 2
    {
      if |c| > 1 {
        ShortenChain(g, c, n);
        assert IsDepth(g, Last(Init(c)), depth[Last(Init(c))]);
      }
    }
  }

  /** Each node's depth, over the topological order; it is exactly the longest chain ending there. */
  method ComputeDepths(g: Graph, order: seq<Name>) returns (depth: map<Name, nat>)
    requires WellFormed(g) && IsTopological(g, order)
    ensures forall n :: n in g.names ==> n in depth && IsDepth(g, n, depth[n])
  {
    hide IsDepth;
    depth := map[];
    for i := 0 to |order|
      invariant forall n :: n in order[..i] ==> n in depth && IsDepth(g, n, depth[n])
    {
      var n := order[i];
      assert n in order && DependenciesIn(g, n, order[..i]);
      var deps := g.dependsOn[n];
      var deepest: Option<Name> := None;
      for j := 0 to |deps|
        invariant deepest.Some? ==> Depends(g, n, deepest.value)
        invariant forall d :: d in deps[..j] && d in g.names ==>
                    deepest.Some? && depth[d] <= depth[deepest.value]
      {
        assert deps[..j + 1] == deps[..j] + [deps[j]];
        if deps[j] in g.names {
          assert Depends(g, n, deps[j]);
          if deepest.None? || depth[deps[j]] > depth[deepest.value] { deepest := Some(deps[j]); }
        }
      }
      assert deps[..|deps|] == deps;
      if deepest.None? {
        RootDepth(g, n);
        depth := depth[n := 0];
      } else {
        DepthStep(g, n, depth, deepest.value);
        depth := depth[n := 1 + depth[deepest.value]];
      }
      assert order[..i + 1] == order[..i] + [n];
    }
    assert order[..|order|] == order;
  }

  /** A dependency is strictly shallower than its dependents. */
  lemma DependencyIsShallower(g: Graph, n: Name, d: Name, k: nat, m: nat)
    requires Depends(g, n, d) && IsDepth(g, n, k) && IsDepth(g, d, m)
    ensures m < k
  {
    var c :| ChainTo(g, c, d) && |c| == m + 1;
    ExtendChain(g, c, d, n);
  }

  // ---- suspect propagation ------------------------------------------------------------------------

  /** d is a dependency of n, directly or through others. */
  ghost predicate Reaches(g: Graph, d: Name, n: Name) {
    exists c :: ChainTo(g, c, n) && |c| > 1 && c[0] == d
  }

  lemma ReachesStep(g: Graph, d: Name, n: Name)
    ensures Reaches(g, d, n) <==> Depends(g, n, d) || exists m :: Depends(g, n, m) && Reaches(g, d, m)
  {
    if Reaches(g, d, n) {
      var c :| ChainTo(g, c, n) && |c| > 1 && c[0] == d;
      ShortenChain(g, c, n);
      var m := Last(Init(c));
      if |c| > 2 {
        assert ChainTo(g, Init(c), m) && Init(c)[0] == d;
        assert Depends(g, n, m) && Reaches(g, d, m);
      }
    }
    if Depends(g, n, d) {
      assert ChainTo(g, [d], d);
      ExtendChain(g, [d], d, n);
      assert ([d] + [n])[0] == d;
    }
    forall m | Depends(g, n, m) && Reaches(g, d, m)
      ensures Reaches(g, d, n)
    {
      var c :| ChainTo(g, c, m) && |c| > 1 && c[0] == d;
      ExtendChain(g, c, m, n);
      assert (c + [n])[0] == d;
    }
  }

  /** Some transitive dependency of n is not calibrated by its own state. */
  ghost predicate Undermined(g: Graph, own: map<Name, Own>, n: Name) {
    exists d :: Reaches(g, d, n) && d in own && own[d].status != Calibrated
  }

  /** The status the whole graph gives n: its own problem if it has one, else suspect when undermined. */
  ghost predicate IsFinal(g: Graph, own: map<Name, Own>, n: Name, s: Status) {
    n in own &&
    (if own[n].status != Calibrated then s == own[n].status
     else if Undermined(g, own, n) then s == Suspect
     else s == Calibrated)
  }

  /** A calibrated node is undermined exactly when some direct dependency does not end up calibrated. */
  lemma UnderminedByDirect(g: Graph, own: map<Name, Own>, final: map<Name, Status>, n: Name)
    requires forall d :: Depends(g, n, d) ==> d in final && IsFinal(g, own, d, final[d])
    ensures Undermined(g, own, n) <==> exists d :: Depends(g, n, d) && final[d] != Calibrated
  {
    if Undermined(g, own, n) {
      var d :| Reaches(g, d, n) && d in own && own[d].status != Calibrated;
      ReachesStep(g, d, n);
      if !Depends(g, n, d) {
        var m :| Depends(g, n, m) && Reaches(g, d, m);
        assert Undermined(g, own, m);
      }
    }
    forall d | Depends(g, n, d) && final[d] != Calibrated
      ensures Undermined(g, own, n)
    {
      if own[d].status != Calibrated {
        ReachesStep(g, d, n);
      } else {
        var e :| Reaches(g, e, d) && e in own && own[e].status != Calibrated;
        ReachesStep(g, e, n);
      }
    }
  }

  /** Some known dependency of n is not calibrated. */
  method AnyDependencyOff(g: Graph, n: Name, final: map<Name, Status>) returns (dirty: bool)
    requires WellFormed(g) && n in g.names && forall d :: Depends(g, n, d) ==> d in final
    ensures dirty <==> exists d :: Depends(g, n, d) && final[d] != Calibrated
  {
    var deps := g.dependsOn[n];
    dirty := false;
    for j := 0 to |deps|
      invariant dirty <==> exists k :: 0 <= k < j && Depends(g, n, deps[k]) && final[deps[k]] != Calibrated
    {
      if deps[j] in g.names {
        assert Depends(g, n, deps[j]);
        if final[deps[j]] != Calibrated { dirty := true; }
      }
    }
    forall d | Depends(g, n, d) && final[d] != Calibrated
      ensures dirty
    {
      var k :| 0 <= k < |deps| && deps[k] == d;
    }
  }

  /** One pass in topological order, looking at direct dependencies only, computes reachability. */
  method Propagate(g: Graph, order: seq<Name>, own: map<Name, Own>) returns (final: map<Name, Status>)
    requires WellFormed(g) && IsTopological(g, order)
    requires forall n :: n in g.names ==> n in own
    ensures forall n :: n in g.names ==> n in final && IsFinal(g, own, n, final[n])
  {
    hide Reaches;
    final := map[];
    for i := 0 to |order|
      invariant forall n :: n in order[..i] ==> n in final && IsFinal(g, own, n, final[n])
    {
      var n := order[i];
      assert n in order && DependenciesIn(g, n, order[..i]);
      assert order[..i + 1] == order[..i] + [n];
      var os := own[n].status;
      if os != Calibrated {
        final := final[n := os];
        continue;
      }
      var dirty := AnyDependencyOff(g, n, final);
      UnderminedByDirect(g, own, final, n);
      final := final[n := if dirty then Suspect else Calibrated];
    }
    assert order[..|order|] == order;
  }

  // ---- the ranked verdict list --------------------------------------------------------------------

  datatype Verdict = Verdict(node: Name, status: Status, action: Action, age: Age, depth: nat)

  /** cmpAgeDesc: older first, never recorded before everything. */
  predicate Older(a: Age, b: Age) {
    (a.Never? && b.Seconds?) || (a.Seconds? && b.Seconds? && a.s > b.s)
  }

  /** The rank comparator: depth ascending, then age descending, then name. */
  predicate Ranks(a: Verdict, b: Verdict) {
    a.depth < b.depth
    || (a.depth == b.depth && (Older(a.age, b.age) || (a.age == b.age && Less(a.node, b.node))))
  }

  /** Shallower first; at one depth the older first, never recorded before all; then by name. */
  ghost predicate RankedBefore(a: Verdict, b: Verdict) {
    || a.depth < b.depth
    || (a.depth == b.depth && a.age == Never && b.age != Never)
    || (a.depth == b.depth && a.age.Seconds? && b.age.Seconds? && a.age.s > b.age.s)
    || (a.depth == b.depth && a.age == b.age && Precedes(a.node, b.node))
  }

  /** What is to be done about a node. */
  ghost predicate IsAdvised(v: Verdict) {
    && (v.action == NoAction <==> v.status == Calibrated)
    && (v.action == Check <==> v.status == Stale || v.status == Suspect)
    && (v.action == Calibrate <==> v.status == Failed || v.status == Uncharacterized)
  }

  lemma RanksIff(a: Verdict, b: Verdict)
    ensures Ranks(a, b) <==> RankedBefore(a, b)
  {
    hide Less, Precedes;
    LessIff(a.node, b.node);
  }

  ghost predicate OneVerdictEach(s: seq<Verdict>) {
    forall i, j :: 0 <= i < j < |s| ==> s[i].node != s[j].node
  }

  lemma RanksIsTotal(s: seq<Verdict>)
    requires OneVerdictEach(s)
    ensures TotalOn(Ranks, s)
  {
    hide Less;
    forall a, b | a in s && b in s
      ensures !(Ranks(a, b) && Ranks(b, a)) && (Ranks(a, b) || a == b || Ranks(b, a))
    {
      LessTotal(a.node, b.node);
    }
    forall a, b, c | a in s && b in s && c in s && Ranks(a, b) && Ranks(b, c)
      ensures Ranks(a, c)
    {
      if Less(a.node, b.node) && Less(b.node, c.node) {
        LessTransitive(a.node, b.node, c.node);
      }
    }
  }

  /** What evaluate says about one node. */
  ghost predicate IsVerdict(g: Graph, own: map<Name, Own>, v: Verdict) {
    && v.node in g.names && v.node in own
    && IsFinal(g, own, v.node, v.status)
    && v.action == ActionFor(v.status)
    && v.age == own[v.node].age
    && IsDepth(g, v.node, v.depth)
  }

  /** Pass 1: every node judged on its own. */
  function OwnStatuses(g: Graph, specs: map<Name, NodeSpec>, states: map<Name, NodeState>, nowMs: int): map<Name, Own>
    requires forall n :: n in g.names ==> n in specs
  {
    map n | n in g.names :: OwnStatus(specs[n], if n in states then Some(states[n]) else None, nowMs)
  }

  ghost predicate DependenciesRankFirst(g: Graph, verdicts: seq<Verdict>) {
    forall i, j ::
      0 <= i < |verdicts| && 0 <= j < |verdicts| && Depends(g, verdicts[j].node, verdicts[i].node) ==> i < j
  }

  /** The first pass: every node judged from its own state. */
  method JudgeAlone(g: Graph, specs: map<Name, NodeSpec>, states: map<Name, NodeState>, nowMs: int)
    returns (own: map<Name, Own>)
    requires WellFormed(g) && forall n :: n in g.names ==> n in specs
    ensures own == OwnStatuses(g, specs, states, nowMs)
  {
    hide OwnStatus;
    own := map[];
    for i := 0 to |g.names|
      invariant own.Keys == set k | 0 <= k < i :: g.names[k]
      invariant forall n :: n in own ==>
                  n in g.names && own[n] == OwnStatus(specs[n], if n in states then Some(states[n]) else None, nowMs)
    {
      var n := g.names[i];
      own := own[n := OwnStatus(specs[n], if n in states then Some(states[n]) else None, nowMs)];
    }
  }

  /**
    evaluate: one verdict per node, each with its final status, ranked; and in that ranking every known
    dependency comes before its dependents.
   */
  method Evaluate(g: Graph, order: seq<Name>, specs: map<Name, NodeSpec>, states: map<Name, NodeState>, nowMs: int)
    returns (verdicts: seq<Verdict>)
    requires WellFormed(g) && IsTopological(g, order)
    requires forall n :: n in g.names ==> n in specs
    ensures var own := OwnStatuses(g, specs, states, nowMs);
            forall v :: v in verdicts ==> IsVerdict(g, own, v)
    ensures |verdicts| == |g.names| && OneVerdictEach(verdicts)
    ensures Increasing(Ranks, verdicts)
    ensures forall i, j :: 0 <= i < j < |verdicts| ==> RankedBefore(verdicts[i], verdicts[j])
    ensures forall v :: v in verdicts ==> IsAdvised(v)
    ensures forall v :: v in verdicts ==> IsJudged(specs, states, nowMs, v)
    ensures DependenciesRankFirst(g, verdicts)
  {
    hide IsJudged, IsFinal, IsDepth, OwnStatus, IsTopological, Sorted, Ranks, Increasing, DependenciesRankFirst, ActionFor;
    var own := JudgeAlone(g, specs, states, nowMs);
    var final := Propagate(g, order, own);
    var depth := ComputeDepths(g, order);
    var unranked: seq<Verdict> := [];
    for i := 0 to |g.names|
      invariant |unranked| == i
      invariant forall k :: 0 <= k < i ==> unranked[k].node == g.names[k]
      invariant forall v :: v in unranked ==> IsVerdict(g, own, v)
    {
      var n := g.names[i];
      unranked := unranked + [Verdict(n, final[n], ActionFor(final[n]), own[n].age, depth[n])];
    }
    verdicts := Sorted(Ranks, unranked);
    RankedVerdicts(g, own, unranked);
    RankedAndAdvised(g, own, verdicts);
    Judged(g, specs, states, nowMs, verdicts);
  }

  /** A verdict shows the age of the node's own record, and the node's own problem if it has one. */
  ghost predicate IsJudged(specs: map<Name, NodeSpec>, states: map<Name, NodeState>, nowMs: int, v: Verdict) {
    v.node in specs &&
    var spec, state := specs[v.node], if v.node in states then Some(states[v.node]) else None;
    if !Recorded(state) then v.age == Never && v.status == Uncharacterized
    else
      && v.age == Seconds(AgeInSeconds(state.value.tsMs.value, nowMs))
      && (Broken(spec, state.value) <==> v.status == Failed)
      && (!Broken(spec, state.value) && Expired(spec, state.value.tsMs.value, nowMs) <==> v.status == Stale)
  }

  lemma Judged(g: Graph, specs: map<Name, NodeSpec>, states: map<Name, NodeState>, nowMs: int, verdicts: seq<Verdict>)
    requires forall n :: n in g.names ==> n in specs
    requires forall v :: v in verdicts ==> IsVerdict(g, OwnStatuses(g, specs, states, nowMs), v)
    ensures forall v :: v in verdicts ==> IsJudged(specs, states, nowMs, v)
  {
    hide IsDepth, Undermined, Broken, Expired, AgeInSeconds;
    forall v | v in verdicts
      ensures IsJudged(specs, states, nowMs, v)
    {
      assert IsVerdict(g, OwnStatuses(g, specs, states, nowMs), v);
    }
  }

  lemma RankedAndAdvised(g: Graph, own: map<Name, Own>, verdicts: seq<Verdict>)
    requires Increasing(Ranks, verdicts) && forall v :: v in verdicts ==> IsVerdict(g, own, v)
    ensures forall i, j :: 0 <= i < j < |verdicts| ==> RankedBefore(verdicts[i], verdicts[j])
    ensures forall v :: v in verdicts ==> IsAdvised(v)
  {
    hide Ranks, RankedBefore, IsFinal, IsDepth;
    forall i, j | 0 <= i < j < |verdicts|
      ensures RankedBefore(verdicts[i], verdicts[j])
    {
      RanksIff(verdicts[i], verdicts[j]);
    }
  }

  lemma RankedVerdicts(g: Graph, own: map<Name, Own>, unranked: seq<Verdict>)
    requires OneVerdictEach(unranked) && forall v :: v in unranked ==> IsVerdict(g, own, v)
    ensures var verdicts := Sorted(Ranks, unranked);
            && (forall v :: v in verdicts ==> IsVerdict(g, own, v))
            && |verdicts| == |unranked| && OneVerdictEach(verdicts)
            && Increasing(Ranks, verdicts)
            && DependenciesRankFirst(g, verdicts)
  {
    hide IsFinal, Sorted, Ranks;
    var verdicts := Sorted(Ranks, unranked);
    RanksIsTotal(unranked);
    SortedIncreases(Ranks, unranked);
    SortedSorts(Ranks, unranked);
    assert |multiset(verdicts)| == |multiset(unranked)|;
    SortedNodes(unranked, verdicts);
    forall i, j | 0 <= i < |verdicts| && 0 <= j < |verdicts| && Depends(g, verdicts[j].node, verdicts[i].node)
      ensures i < j
    {
      var d, n := verdicts[i], verdicts[j];
      assert d in verdicts && n in verdicts;
      DependencyIsShallower(g, n.node, d.node, n.depth, d.depth);
      ShallowerFirst(verdicts, i, j);
    }
  }

  lemma ShallowerFirst(verdicts: seq<Verdict>, i: nat, j: nat)
    requires Increasing(Ranks, verdicts) && i < |verdicts| && j < |verdicts| && verdicts[i].depth < verdicts[j].depth
    ensures i < j
  {
    assert j < i ==> Ranks(verdicts[j], verdicts[i]);
  }

  lemma SortedNodes(unranked: seq<Verdict>, verdicts: seq<Verdict>)
    requires OneVerdictEach(unranked) && multiset(verdicts) == multiset(unranked)
    ensures OneVerdictEach(verdicts)
  {
    assert Distinct(unranked);
    DistinctFromMultiset(unranked, verdicts);
    SameMembers(verdicts, unranked);
    forall i, j | 0 <= i < j < |verdicts|
      ensures verdicts[i].node != verdicts[j].node
    {
      assert verdicts[i] in unranked && verdicts[j] in unranked;
    }
  }
}
