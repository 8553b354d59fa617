/** The promotion ladder: plan a bundle, stamp it as proposed, and plan again from what is left. */
module PromotionPool {
  import opened Prelude
  import opened Sorting
  import opened NameOrder

  /** A claim's scope; every other scope is personal. */
  datatype Scope = Team | Public | Personal

  datatype Claim = Claim(file: Name, scope: Scope, hot: bool)

  /** Why a claim of no interest to this run is named. */
  datatype Excluded = OtherTier(file: Name) | NotHot(file: Name)

  datatype Plan = Plan(eligible: seq<Name>, selected: seq<Name>, overflow: seq<Name>, excluded: seq<Excluded>)

  predicate ByFile(a: Claim, b: Claim) {
    Less(a.file, b.file)
  }

  predicate IsEligible(c: Claim, proposed: set<Name>, tier: Scope) {
    c.scope == tier && c.file !in proposed && c.hot
  }

  function EligibleOf(sorted: seq<Claim>, proposed: set<Name>, tier: Scope): seq<Name>
    decreases |sorted|
  {
    if sorted == [] then []
    else EligibleOf(Init(sorted), proposed, tier)
         + (if IsEligible(Last(sorted), proposed, tier) then [Last(sorted).file] else [])
  }

  function ExcludedOf(sorted: seq<Claim>, proposed: set<Name>, tier: Scope): seq<Excluded>
    decreases |sorted|
  {
    if sorted == [] then []
    else
      var c := Last(sorted);
      ExcludedOf(Init(sorted), proposed, tier)
      + (if c.scope != tier then (if c.scope == Personal then [] else [OtherTier(c.file)])
         else if c.file !in proposed && !c.hot then [NotHot(c.file)] else [])
  }

  /** The pool of a run: the eligible claims in the order of the sorted registry. */
  function Pool(claims: seq<Claim>, proposed: set<Name>, tier: Scope): seq<Name> {
    EligibleOf(Sorted(ByFile, claims), proposed, tier)
  }

  lemma {:induction false} ExcludedMembers(sorted: seq<Claim>, proposed: set<Name>, tier: Scope)
    ensures forall f :: OtherTier(f) in ExcludedOf(sorted, proposed, tier) <==>
              exists c :: c in sorted && c.file == f && c.scope != tier && c.scope != Personal
    ensures forall f :: NotHot(f) in ExcludedOf(sorted, proposed, tier) <==>
              exists c :: c in sorted && c.file == f && c.scope == tier && !c.hot && f !in proposed
    decreases |sorted|
  {
    if sorted != [] {
      ExcludedMembers(Init(sorted), proposed, tier);
      assert sorted == Init(sorted) + [Last(sorted)];
      assert Last(sorted) in sorted;
    }
  }

  lemma ExcludedByReason(claims: seq<Claim>, proposed: set<Name>, tier: Scope)
    requires OneClaimEach(claims)
    ensures forall f :: OtherTier(f) in ExcludedOf(Sorted(ByFile, claims), proposed, tier) <==>
              exists c :: c in claims && c.file == f && c.scope != tier && c.scope != Personal
    ensures forall f :: NotHot(f) in ExcludedOf(Sorted(ByFile, claims), proposed, tier) <==>
              exists c :: c in claims && c.file == f && c.scope == tier && !c.hot && f !in proposed
  {
    hide Sorted, ExcludedOf;
    ByFileTotal(claims);
    SortedIncreases(ByFile, claims);
    ExcludedMembers(Sorted(ByFile, claims), proposed, tier);
  }

  /** JavaScript's slice(0, cap) ends here: a negative cap counts from the end. */
  function SliceEnd(n: nat, cap: int): (k: nat)
    ensures k <= n
  {
    if cap >= 0 then (if cap < n then cap else n) else if n + cap > 0 then n + cap else 0
  }

  function AtLeastZero(n: int): nat {
    if n > 0 then n else 0
  }

  function Smaller(a: nat, b: nat): nat {
    if a < b then a else b
  }

  /** planPromotion. */
  method PlanPromotion(claims: seq<Claim>, proposed: set<Name>, cap: int, tier: Scope) returns (plan: Plan)
    requires tier != Personal
    ensures var pool := Pool(claims, proposed, tier);
            && plan.eligible == pool && plan.selected == pool[..SliceEnd(|pool|, cap)]
            && plan.selected + plan.overflow == pool
    ensures OneClaimEach(claims) ==>
              && (forall i, j :: 0 <= i < j < |plan.eligible| ==> Precedes(plan.eligible[i], plan.eligible[j]))
              && (forall f :: f in plan.eligible <==>
                    exists c :: c in claims && c.file == f && c.scope == tier && c.hot && f !in proposed)
    ensures |plan.selected| == (if cap < 0 then AtLeastZero(|plan.eligible| + cap) else Smaller(cap, |plan.eligible|))
    ensures plan.excluded == ExcludedOf(Sorted(ByFile, claims), proposed, tier)
    ensures OneClaimEach(claims) ==>
              && (forall f :: OtherTier(f) in plan.excluded <==>
                    exists c :: c in claims && c.file == f && c.scope != tier && c.scope != Personal)
              && (forall f :: NotHot(f) in plan.excluded <==>
                    exists c :: c in claims && c.file == f && c.scope == tier && !c.hot && f !in proposed)
  {
    hide Sorted, Precedes;
    var sorted := Sorted(ByFile, claims);
    var eligible, excluded := [], [];
    for i := 0 to |sorted|
      invariant eligible == EligibleOf(sorted[..i], proposed, tier)
      invariant excluded == ExcludedOf(sorted[..i], proposed, tier)
    {
      assert Init(sorted[..i + 1]) == sorted[..i];
      var c := sorted[i];
      if c.scope != tier {
        if c.scope != Personal { excluded := excluded + [OtherTier(c.file)]; }
      } else if c.file !in proposed {
        if c.hot {
          eligible := eligible + [c.file];
        } else {
          excluded := excluded + [NotHot(c.file)];
        }
      }
    }
    assert sorted[..|sorted|] == sorted;
    if OneClaimEach(claims) {
      PoolIsEligibleInOrder(claims, proposed, tier);
      IncreasingPrecedes(Pool(claims, proposed, tier));
      ExcludedByReason(claims, proposed, tier);
    }
    var k := SliceEnd(|eligible|, cap);
    plan := Plan(eligible, eligible[..k], eligible[k..], excluded);
  }

  // ---- what the pool is -----------------------------------------------------------------------------

  /** A registry holds one claim per file. */
  ghost predicate OneClaimEach(claims: seq<Claim>) {
    forall i, j :: 0 <= i < j < |claims| ==> claims[i].file != claims[j].file
  }

  lemma ByFileTotal(claims: seq<Claim>)
    requires OneClaimEach(claims)
    ensures TotalOn(ByFile, claims) && Distinct(claims)
  {
    hide Less;
    forall a, b | a in claims && b in claims
      ensures !(ByFile(a, b) && ByFile(b, a)) && (ByFile(a, b) || a == b || ByFile(b, a))
    {
      LessTotal(a.file, b.file);
    }
    forall a, b, c | a in claims && b in claims && c in claims && ByFile(a, b) && ByFile(b, c)
      ensures ByFile(a, c)
    {
      LessTransitive(a.file, b.file, c.file);
    }
  }

  lemma {:induction false} EligibleFiles(sorted: seq<Claim>, proposed: set<Name>, tier: Scope)
    ensures forall f :: f in EligibleOf(sorted, proposed, tier) <==>
              exists c :: c in sorted && c.file == f && IsEligible(c, proposed, tier)
    decreases |sorted|
  {
    if sorted != [] {
      hide IsEligible;
      EligibleFiles(Init(sorted), proposed, tier);
      assert sorted == Init(sorted) + [Last(sorted)];
    }
  }

  lemma {:induction false} EligibleIncreases(sorted: seq<Claim>, proposed: set<Name>, tier: Scope)
    requires Increasing(ByFile, sorted)
    ensures Increasing(Less, EligibleOf(sorted, proposed, tier))
    decreases |sorted|
  {
    if sorted != [] {
      hide Less, IsEligible;
      var front := Init(sorted);
      EligibleIncreases(front, proposed, tier);
      EligibleFiles(front, proposed, tier);
      var early := EligibleOf(front, proposed, tier);
      forall i | 0 <= i < |early|
        ensures Less(early[i], Last(sorted).file)
      {
        assert early[i] in early;
        var c :| c in front && c.file == early[i] && IsEligible(c, proposed, tier);
        var k :| 0 <= k < |front| && front[k] == c;
        assert ByFile(sorted[k], sorted[|sorted| - 1]);
      }
    }
  }

  /** The pool lists exactly the eligible files, each once, in file order. */
  lemma PoolIsEligibleInOrder(claims: seq<Claim>, proposed: set<Name>, tier: Scope)
    requires OneClaimEach(claims)
    ensures Increasing(Less, Pool(claims, proposed, tier)) && Distinct(Pool(claims, proposed, tier))
    ensures forall f :: f in Pool(claims, proposed, tier) <==>
              exists c :: c in claims && c.file == f && IsEligible(c, proposed, tier)
  {
    hide IsEligible, Less;
    var pool := Pool(claims, proposed, tier);
    ByFileTotal(claims);
    SortedIncreases(ByFile, claims);
    EligibleIncreases(Sorted(ByFile, claims), proposed, tier);
    EligibleFiles(Sorted(ByFile, claims), proposed, tier);
    LessIsTotal(pool);
    IncreasingAscends(Less, pool);
  }

  // ---- stamping ---------------------------------------------------------------------------------------

  function Without(s: seq<Name>, gone: set<Name>): seq<Name>
    decreases |s|
  {
    if s == [] then [] else Without(Init(s), gone) + (if Last(s) in gone then [] else [Last(s)])
  }

  lemma WithoutSnoc(s: seq<Name>, f: Name, gone: set<Name>)
    ensures Without(s + [f], gone) == Without(s, gone) + (if f in gone then [] else [f])
  {
    assert Init(s + [f]) == s;
  }

  lemma EligibleUnfold(sorted: seq<Claim>, proposed: set<Name>, tier: Scope)
    requires sorted != []
    ensures EligibleOf(sorted, proposed, tier) ==
            EligibleOf(Init(sorted), proposed, tier)
              + (if IsEligible(Last(sorted), proposed, tier) then [Last(sorted).file] else [])
  {
  }

  /** Stamped claims leave the pool, the others keep their places. */
  lemma {:induction false} StampedAreGone(sorted: seq<Claim>, proposed: set<Name>, gone: set<Name>, tier: Scope)
    ensures EligibleOf(sorted, proposed + gone, tier) == Without(EligibleOf(sorted, proposed, tier), gone)
    decreases |sorted|
  {
    if sorted == [] {
      assert Without([], gone) == [];
    } else {
      var early, last := EligibleOf(Init(sorted), proposed, tier), Last(sorted);
      StampedAreGone(Init(sorted), proposed, gone, tier);
      EligibleUnfold(sorted, proposed, tier);
      EligibleUnfold(sorted, proposed + gone, tier);
      WithoutSnoc(early, last.file, gone);
      hide EligibleOf, Without;
      assert early + [] == early && Without(early, gone) + [] == Without(early, gone);
    }
  }

  lemma {:induction false} WithoutBundle(pool: seq<Name>, k: nat)
    requires Distinct(pool) && k <= |pool|
    ensures forall n :: k <= n <= |pool| ==> Without(pool[..n], Elements(pool[..k])) == pool[k..n]
    ensures Without(pool, Elements(pool[..k])) == pool[k..]
  {
    var gone := Elements(pool[..k]);
    WithoutAll(pool[..k], gone);
    for n := k to |pool|
      invariant forall m :: k <= m <= n ==> Without(pool[..m], gone) == pool[k..m]
    {
      assert Init(pool[..n + 1]) == pool[..n] && Last(pool[..n + 1]) == pool[n];
      assert pool[n] !in pool[..k];
      assert pool[k..n] + [pool[n]] == pool[k..n + 1];
    }
    assert pool[..|pool|] == pool && pool[k..|pool|] == pool[k..];
  }

  lemma {:induction false} WithoutAll(s: seq<Name>, gone: set<Name>)
    requires forall x :: x in s ==> x in gone
    ensures Without(s, gone) == []
    decreases |s|
  {
    if s != [] {
      assert forall x :: x in Init(s) ==> x in s;
      assert Last(s) in s;
      WithoutAll(Init(s), gone);
    }
  }

  /** Stamping the first k of the pool leaves exactly the rest of the pool, in order. */
  lemma StampingRemovesBundle(claims: seq<Claim>, proposed: set<Name>, tier: Scope, k: nat)
    requires OneClaimEach(claims) && k <= |Pool(claims, proposed, tier)|
    ensures var pool := Pool(claims, proposed, tier);
            Pool(claims, proposed + Elements(pool[..k]), tier) == pool[k..]
  {
    hide EligibleOf, Without;
    var pool := Pool(claims, proposed, tier);
    PoolIsEligibleInOrder(claims, proposed, tier);
    StampedAreGone(Sorted(ByFile, claims), proposed, Elements(pool[..k]), tier);
    WithoutBundle(pool, k);
  }

  // ---- repeated runs ----------------------------------------------------------------------------------

  /** What is proposed after r runs of plan-and-stamp on a fixed registry. */
  function ProposedAfter(claims: seq<Claim>, proposed: set<Name>, cap: int, tier: Scope, r: nat): set<Name>
    decreases r
  {
    if r == 0 then proposed
    else
      var before := ProposedAfter(claims, proposed, cap, tier, r - 1);
      before + Elements(BundleOf(claims, before, cap, tier))
  }

  function BundleOf(claims: seq<Claim>, proposed: set<Name>, cap: int, tier: Scope): seq<Name> {
    var pool := Pool(claims, proposed, tier);
    pool[..SliceEnd(|pool|, cap)]
  }

  /** The pool that run r finds, and the bundle it proposes. */
  function PoolAt(claims: seq<Claim>, proposed: set<Name>, cap: int, tier: Scope, r: nat): seq<Name> {
    Pool(claims, ProposedAfter(claims, proposed, cap, tier, r), tier)
  }

  function BundleAt(claims: seq<Claim>, proposed: set<Name>, cap: int, tier: Scope, r: nat): seq<Name> {
    BundleOf(claims, ProposedAfter(claims, proposed, cap, tier, r), cap, tier)
  }

  lemma OneRun(claims: seq<Claim>, proposed: set<Name>, cap: int, tier: Scope, r: nat)
    requires OneClaimEach(claims)
    ensures var pool := PoolAt(claims, proposed, cap, tier, r);
            && BundleAt(claims, proposed, cap, tier, r) == pool[..SliceEnd(|pool|, cap)]
            && PoolAt(claims, proposed, cap, tier, r + 1) == pool[SliceEnd(|pool|, cap)..]
  {
    hide Pool, SliceEnd;
    var before := ProposedAfter(claims, proposed, cap, tier, r);
    var pool := Pool(claims, before, tier);
    StampingRemovesBundle(claims, before, tier, SliceEnd(|pool|, cap));
  }

  /** Where run r starts in a pool of n claims. */
  function RunStart(n: nat, cap: nat, r: nat): (k: nat)
    ensures k <= n
  {
    if r * cap < n then r * cap else n
  }

  /** With a cap of at least one, run r finds the first pool from r times the cap on, and proposes the next `cap` of it. */
  lemma {:induction false} RunsTakeTurns(claims: seq<Claim>, proposed: set<Name>, cap: nat, tier: Scope, r: nat)
    requires OneClaimEach(claims) && cap >= 1
    ensures var pool := Pool(claims, proposed, tier);
            var n := |pool|;
            && PoolAt(claims, proposed, cap, tier, r) == pool[RunStart(n, cap, r)..]
            && BundleAt(claims, proposed, cap, tier, r) == pool[RunStart(n, cap, r)..RunStart(n, cap, r + 1)]
    decreases r
  {
    hide Pool, PoolAt, BundleAt, RunStart;
    if r == 0 {
      FirstPool(claims, proposed, cap, tier);
      NextStart(|Pool(claims, proposed, tier)|, cap, 0);
    } else {
      RunsTakeTurns(claims, proposed, cap, tier, r - 1);
      OneTurn(claims, proposed, cap, tier, r - 1);
    }
    OneTurn(claims, proposed, cap, tier, r);
  }

  /** A run that finds the pool from k on proposes up to the next run's start and leaves it the rest. */
  lemma OneTurn(claims: seq<Claim>, proposed: set<Name>, cap: nat, tier: Scope, r: nat)
    requires OneClaimEach(claims) && cap >= 1
    requires var pool := Pool(claims, proposed, tier);
             PoolAt(claims, proposed, cap, tier, r) == pool[RunStart(|pool|, cap, r)..]
    ensures var pool := Pool(claims, proposed, tier);
            var n := |pool|;
            && BundleAt(claims, proposed, cap, tier, r) == pool[RunStart(n, cap, r)..RunStart(n, cap, r + 1)]
            && PoolAt(claims, proposed, cap, tier, r + 1) == pool[RunStart(n, cap, r + 1)..]
  {
    hide Pool, PoolAt, BundleAt, RunStart, SliceEnd;
    OneRun(claims, proposed, cap, tier, r);
    NextStart(|Pool(claims, proposed, tier)|, cap, r);
  }

  /** A run takes as much as slice takes of what is left. */
  lemma NextStart(n: nat, cap: nat, r: nat)
    requires cap >= 1
    ensures RunStart(n, cap, r + 1) == RunStart(n, cap, r) + SliceEnd(n - RunStart(n, cap, r), cap)
    ensures RunStart(n, cap, 0) == 0
  {
    assert (r + 1) * cap == r * cap + cap;
  }

  /**
    Over any number of runs: every bundle is in file order and within the cap, every claim of the first pool is
    proposed by exactly one run, and nothing else ever is.
   */
  lemma EachClaimInOneBundle(claims: seq<Claim>, proposed: set<Name>, cap: nat, tier: Scope, c: Claim)
    requires OneClaimEach(claims) && cap >= 1 && c in claims
    ensures forall r: nat :: var bundle := BundleAt(claims, proposed, cap, tier, r);
              Increasing(Less, bundle) && |bundle| <= cap
    ensures if IsEligible(c, proposed, tier) then
              exists k: nat :: k < |Pool(claims, proposed, tier)| && Pool(claims, proposed, tier)[k] == c.file &&
                forall r: nat :: c.file in BundleAt(claims, proposed, cap, tier, r) <==> r == k / cap
            else forall r: nat :: c.file !in BundleAt(claims, proposed, cap, tier, r)
  {
    hide Pool, BundleAt, PoolAt, IsEligible, Less;
    var pool := Pool(claims, proposed, tier);
    PoolIsEligibleInOrder(claims, proposed, tier);
    forall r: nat
      ensures var bundle := BundleAt(claims, proposed, cap, tier, r); Increasing(Less, bundle) && |bundle| <= cap
      ensures forall x :: x in BundleAt(claims, proposed, cap, tier, r) ==> x in pool
    {
      RunsTakeTurns(claims, proposed, cap, tier, r);
      assert (r + 1) * cap == r * cap + cap;
    }
    if IsEligible(c, proposed, tier) {
      assert c.file in pool;
      var k: nat :| k < |pool| && pool[k] == c.file;
      forall r: nat
        ensures c.file in BundleAt(claims, proposed, cap, tier, r) <==> r == k / cap
      {
        RunsTakeTurns(claims, proposed, cap, tier, r);
        InSliceIff(pool, RunStart(|pool|, cap, r), RunStart(|pool|, cap, r + 1), k);
        TurnOf(|pool|, cap, r, k);
      }
    } else {
      SameFileSameClaim(claims, proposed, tier, c);
    }
  }

  lemma SameFileSameClaim(claims: seq<Claim>, proposed: set<Name>, tier: Scope, c: Claim)
    requires OneClaimEach(claims) && c in claims && !IsEligible(c, proposed, tier)
    ensures forall d :: d in claims && IsEligible(d, proposed, tier) ==> d.file != c.file
  {
    forall d | d in claims && IsEligible(d, proposed, tier)
      ensures d.file != c.file
    {
      var i :| 0 <= i < |claims| && claims[i] == c;
      var j :| 0 <= j < |claims| && claims[j] == d;
      assert i < j || j < i;
    }
  }

  lemma InSliceIff(pool: seq<Name>, lo: nat, hi: nat, k: nat)
    requires Distinct(pool) && lo <= hi <= |pool| && k < |pool|
    ensures pool[k] in pool[lo..hi] <==> lo <= k < hi
  {
    if lo <= k < hi {
      assert pool[lo..hi][k - lo] == pool[k];
    }
  }

  /** Claim k of the pool is taken by run k / cap. */
  lemma TurnOf(n: nat, cap: nat, r: nat, k: nat)
    requires cap >= 1 && k < n
    ensures RunStart(n, cap, r) <= k < RunStart(n, cap, r + 1) <==> r == k / cap
  {
    assert (r + 1) * cap == r * cap + cap;
    assert r * cap <= k < r * cap + cap <==> r == k / cap by { QuotientIff(k, cap, r); }
  }

  lemma QuotientIff(k: nat, cap: nat, r: nat)
    requires cap >= 1
    ensures r * cap <= k < r * cap + cap <==> r == k / cap
  {
    var q := k / cap;
    assert k == q * cap + k % cap;
    if r < q {
      assert (r + 1) * cap <= q * cap by { Monotone(r + 1, q, cap); }
      assert (r + 1) * cap == r * cap + cap;
    } else if r > q {
      assert (q + 1) * cap <= r * cap by { Monotone(q + 1, r, cap); }
      assert (q + 1) * cap == q * cap + cap;
    }
  }

  lemma {:induction false} Monotone(a: nat, b: nat, cap: nat)
    requires a <= b
    ensures a * cap <= b * cap
    decreases b - a
  {
    if a < b {
      Monotone(a + 1, b, cap);
      assert (a + 1) * cap == a * cap + cap;
    }
  }

  /** The bundles of r runs, one after the other. */
  function Bundles(claims: seq<Claim>, proposed: set<Name>, cap: int, tier: Scope, r: nat): seq<Name>
    decreases r
  {
    if r == 0 then []
    else Bundles(claims, proposed, cap, tier, r - 1) + BundleAt(claims, proposed, cap, tier, r - 1)
  }

  /**
    Nothing is lost, repeated or reordered, whatever the cap: the bundles of any number of runs, followed by
    what is still in the pool, are the pool as it was at the start.
   */
  lemma {:induction false} BundlesAndPoolAreThePool(claims: seq<Claim>, proposed: set<Name>, cap: int, tier: Scope, r: nat)
    requires OneClaimEach(claims)
    ensures Bundles(claims, proposed, cap, tier, r) + PoolAt(claims, proposed, cap, tier, r)
            == Pool(claims, proposed, tier)
    decreases r
  {
    hide Pool, SliceEnd;
    if r == 0 {
      assert [] + Pool(claims, proposed, tier) == Pool(claims, proposed, tier);
    } else {
      BundlesAndPoolAreThePool(claims, proposed, cap, tier, r - 1);
      OneRun(claims, proposed, cap, tier, r - 1);
      hide PoolAt, Bundles, BundleAt;
      var pool := PoolAt(claims, proposed, cap, tier, r - 1);
      MoveAcross(Bundles(claims, proposed, cap, tier, r - 1), pool, SliceEnd(|pool|, cap));
      assert Bundles(claims, proposed, cap, tier, r) ==
             Bundles(claims, proposed, cap, tier, r - 1) + pool[..SliceEnd(|pool|, cap)] by {
        OneBundleMore(claims, proposed, cap, tier, r);
      }
    }
  }

  lemma OneBundleMore(claims: seq<Claim>, proposed: set<Name>, cap: int, tier: Scope, r: nat)
    requires r > 0
    ensures Bundles(claims, proposed, cap, tier, r) ==
            Bundles(claims, proposed, cap, tier, r - 1) + BundleAt(claims, proposed, cap, tier, r - 1)
  {
  }

  lemma MoveAcross(bundles: seq<Name>, pool: seq<Name>, k: nat)
    requires k <= |pool|
    ensures bundles + pool[..k] + pool[k..] == bundles + pool
  {
  }

  lemma {:induction false} StuckPool(claims: seq<Claim>, proposed: set<Name>, cap: int, tier: Scope, r: nat)
    requires OneClaimEach(claims) && cap < 1 && Pool(claims, proposed, tier) != []
    ensures PoolAt(claims, proposed, cap, tier, r) != []
    decreases r
  {
    hide Pool;
    if r > 0 {
      StuckPool(claims, proposed, cap, tier, r - 1);
      OneRun(claims, proposed, cap, tier, r - 1);
      hide PoolAt;
    }
  }

  /**
    The pool drains if and only if the cap is at least one (or there was nothing in it): zero and negative caps
    never empty it. With a positive cap it is empty after exactly the quotient rounded up.
   */
  lemma DrainsIffCapPositive(claims: seq<Claim>, proposed: set<Name>, cap: int, tier: Scope)
    requires OneClaimEach(claims)
    ensures (exists r :: PoolAt(claims, proposed, cap, tier, r) == []) <==>
            cap >= 1 || Pool(claims, proposed, tier) == []
    ensures cap >= 1 ==>
              forall r: nat :: PoolAt(claims, proposed, cap, tier, r) == [] <==>
                               r >= (|Pool(claims, proposed, tier)| + cap - 1) / cap
  {
    hide Pool, PoolAt;
    var n := |Pool(claims, proposed, tier)|;
    if cap >= 1 {
      forall r: nat
        ensures PoolAt(claims, proposed, cap, tier, r) == [] <==> r >= (n + cap - 1) / cap
      {
        RunsTakeTurns(claims, proposed, cap, tier, r);
        RoundedUp(n, cap, r);
      }
      assert PoolAt(claims, proposed, cap, tier, (n + cap - 1) / cap) == [];
    } else if n == 0 {
      assert PoolAt(claims, proposed, cap, tier, 0) == [] by { FirstPool(claims, proposed, cap, tier); }
    } else {
      forall r: nat
        ensures PoolAt(claims, proposed, cap, tier, r) != []
      {
        StuckPool(claims, proposed, cap, tier, r);
      }
    }
  }

  lemma FirstPool(claims: seq<Claim>, proposed: set<Name>, cap: int, tier: Scope)
    ensures PoolAt(claims, proposed, cap, tier, 0) == Pool(claims, proposed, tier)
  {
  }

  lemma RoundedUp(n: nat, cap: nat, r: nat)
    requires cap >= 1
    ensures r * cap >= n <==> r >= (n + cap - 1) / cap
  {
    var q := (n + cap - 1) / cap;
    assert n + cap - 1 == q * cap + (n + cap - 1) % cap;
    if r >= q {
      Monotone(q, r, cap);
    } else {
      Monotone(r + 1, q, cap);
      assert (r + 1) * cap == r * cap + cap;
    }
  }
}
