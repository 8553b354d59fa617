/** The hot-layer index: claims ranked by score, capped by type and in all. */
module IndexView {
  import opened Prelude
  import opened Sorting
  import opened NameOrder

  /** A claim with the score the clock gives it. */
  datatype Entry = Entry(file: Name, kind: string, hot: bool, score: real)

  /** Higher score first, then file name. */
  predicate Ranks(a: Entry, b: Entry) {
    a.score > b.score || (a.score == b.score && Less(a.file, b.file))
  }

  /** The higher score first; entries of one score by file name. */
  ghost predicate RankedBefore(a: Entry, b: Entry) {
    a.score > b.score || (a.score == b.score && Precedes(a.file, b.file))
  }

  lemma RanksIff(a: Entry, b: Entry)
    ensures Ranks(a, b) <==> RankedBefore(a, b)
  {
    hide Less, Precedes;
    LessIff(a.file, b.file);
  }

  lemma RankedInOrder(es: seq<Entry>)
    requires Increasing(Ranks, es)
    ensures forall i, j :: 0 <= i < j < |es| ==> RankedBefore(es[i], es[j])
  {
    hide Ranks, RankedBefore;
    forall i, j | 0 <= i < j < |es|
      ensures RankedBefore(es[i], es[j])
    {
      RanksIff(es[i], es[j]);
    }
  }

  ghost predicate OneEntryEach(es: seq<Entry>) {
    forall i, j :: 0 <= i < j < |es| ==> es[i].file != es[j].file
  }

  function HotOf(es: seq<Entry>, hot: bool): seq<Entry>
    decreases |es|
  {
    if es == [] then [] else HotOf(Init(es), hot) + (if Last(es).hot == hot then [Last(es)] else [])
  }

  function OfKind(es: seq<Entry>, kind: string): nat
    decreases |es|
  {
    if es == [] then 0 else OfKind(Init(es), kind) + (if Last(es).kind == kind then 1 else 0)
  }

  /** No room for an entry of this kind. */
  predicate NoRoom(ranked: seq<Entry>, kind: string, capPerType: int, maxLines: int) {
    |ranked| >= maxLines || OfKind(ranked, kind) >= capPerType
  }

  /** The places at which an entry of this kind stands. */
  function Places(es: seq<Entry>, kind: string): set<nat> {
    set i: nat | i < |es| && es[i].kind == kind
  }

  lemma {:induction false} OfKindCounts(es: seq<Entry>, kind: string)
    ensures OfKind(es, kind) == |Places(es, kind)|
    decreases |es|
  {
    if es == [] {
      assert Places(es, kind) == {};
    } else {
      var front, n := Init(es), |es| - 1;
      OfKindCounts(front, kind);
      assert Places(es, kind) == Places(front, kind) + (if es[n].kind == kind then {n} else {});
    }
  }

  lemma {:induction false} HotMembers(es: seq<Entry>, hot: bool)
    ensures forall e :: e in HotOf(es, hot) <==> e in es && e.hot == hot
    decreases |es|
  {
    if es != [] {
      HotMembers(Init(es), hot);
      assert es == Init(es) + [Last(es)];
    }
  }

  lemma {:induction false} HotDistinct(es: seq<Entry>, hot: bool)
    requires OneEntryEach(es)
    ensures OneEntryEach(HotOf(es, hot))
    decreases |es|
  {
    if es != [] {
      var front := HotOf(Init(es), hot);
      HotDistinct(Init(es), hot);
      HotMembers(Init(es), hot);
      forall i | 0 <= i < |front|
        ensures front[i].file != Last(es).file
      {
        assert front[i] in Init(es);
        var k :| 0 <= k < |Init(es)| && Init(es)[k] == front[i];
        assert es[k] == front[i];
      }
    }
  }

  lemma RanksIsTotal(es: seq<Entry>)
    requires OneEntryEach(es)
    ensures TotalOn(Ranks, es)
  {
    hide Less;
    forall a, b | a in es && b in es
      ensures !(Ranks(a, b) && Ranks(b, a)) && (Ranks(a, b) || a == b || Ranks(b, a))
    {
      LessTotal(a.file, b.file);
    }
    forall a, b, c | a in es && b in es && c in es && Ranks(a, b) && Ranks(b, c)
      ensures Ranks(a, c)
    {
      if a.score == b.score == c.score {
        LessTransitive(a.file, b.file, c.file);
      }
    }
  }

  lemma HotSorted(es: seq<Entry>)
    requires OneEntryEach(es)
    ensures Increasing(Ranks, Sorted(Ranks, HotOf(es, true)))
    ensures multiset(Sorted(Ranks, HotOf(es, true))) == multiset(HotOf(es, true))
  {
    hide Ranks, Increasing;
    HotDistinct(es, true);
    RanksIsTotal(HotOf(es, true));
    assert Distinct(HotOf(es, true));
    SortedIncreases(Ranks, HotOf(es, true));
    SortedSorts(Ranks, HotOf(es, true));
  }

  lemma OfKindSnoc(es: seq<Entry>, e: Entry, kind: string)
    ensures OfKind(es + [e], kind) == OfKind(es, kind) + (if e.kind == kind then 1 else 0)
  {
    assert Init(es + [e]) == es;
  }

  /** The entries that outrank e, in their order. */
  function Above(es: seq<Entry>, e: Entry): seq<Entry>
    decreases |es|
  {
    if es == [] then [] else Above(Init(es), e) + (if Ranks(Last(es), e) then [Last(es)] else [])
  }

  /** What the greedy pass over the first entries of a ranking has chosen. */
  ghost predicate Chosen(seen: seq<Entry>, ranked: seq<Entry>, capped: seq<Entry>, capPerType: int, maxLines: int) {
    && multiset(ranked) + multiset(capped) == multiset(seen)
    && |ranked| <= (if maxLines > 0 then maxLines else 0)
    && (forall kind :: OfKind(ranked, kind) <= if capPerType > 0 then capPerType else 0)
    && Increasing(Ranks, ranked)
    && Increasing(Ranks, capped)
    && Greedy(seen, ranked, capped, capPerType, maxLines)
  }

  /** An entry is capped exactly when the emitted entries that outrank it fill the total or its kind's cap. */
  ghost predicate Greedy(seen: seq<Entry>, ranked: seq<Entry>, capped: seq<Entry>, capPerType: int, maxLines: int) {
    && (forall e :: e in seen ==> (e in capped <==> NoRoom(Above(ranked, e), e.kind, capPerType, maxLines)))
    && (forall e :: e in ranked ==> e !in capped)
  }

  /** The emitted entries that come before e, by place; and those of one kind. */
  ghost function Outranking(ranked: seq<Entry>, e: Entry): set<nat> {
    set i: nat | i < |ranked| && RankedBefore(ranked[i], e)
  }

  ghost function OutrankingOfKind(ranked: seq<Entry>, e: Entry, kind: string): set<nat> {
    set i: nat | i < |ranked| && RankedBefore(ranked[i], e) && ranked[i].kind == kind
  }

  /**
    The choice, in terms of scores and names: every hot claim is emitted or capped, both lists are ranked, and
    one is capped exactly when the emitted entries that come before it fill the index or its kind's share.
   */
  ghost predicate IsGreedyChoice(claims: seq<Entry>, ranked: seq<Entry>, capped: seq<Entry>, capPerType: int, maxLines: int) {
    && (forall e :: e in ranked || e in capped <==> e in claims && e.hot)
    && (forall e :: e in ranked ==> e !in capped)
    && (forall i, j :: 0 <= i < j < |ranked| ==> RankedBefore(ranked[i], ranked[j]))
    && (forall i, j :: 0 <= i < j < |capped| ==> RankedBefore(capped[i], capped[j]))
    && forall e :: e in claims && e.hot ==>
         (e in capped <==> |Outranking(ranked, e)| >= maxLines || |OutrankingOfKind(ranked, e, e.kind)| >= capPerType)
  }

  lemma {:induction false} AboveCounts(ranked: seq<Entry>, e: Entry, kind: string)
    ensures |Above(ranked, e)| == |Outranking(ranked, e)|
    ensures OfKind(Above(ranked, e), kind) == |OutrankingOfKind(ranked, e, kind)|
    decreases |ranked|
  {
    hide Ranks, RankedBefore, Outranking, OutrankingOfKind, OfKind;
    if ranked == [] {
      NothingOutranks(e, kind);
    } else {
      var front, x := Init(ranked), Last(ranked);
      AboveCounts(front, e, kind);
      RanksIff(x, e);
      assert front + [x] == ranked;
      OneMoreOutranks(front, x, e, kind);
      OfKindSnoc(Above(front, e), x, kind);
      assert Above(front, e) + [] == Above(front, e);
    }
  }

  lemma NothingOutranks(e: Entry, kind: string)
    ensures Outranking([], e) == {} && OutrankingOfKind([], e, kind) == {} && OfKind([], kind) == 0
  {
  }

  lemma OneMoreOutranks(front: seq<Entry>, x: Entry, e: Entry, kind: string)
    ensures |Outranking(front + [x], e)| == |Outranking(front, e)| + (if RankedBefore(x, e) then 1 else 0)
    ensures |OutrankingOfKind(front + [x], e, kind)| ==
            |OutrankingOfKind(front, e, kind)| + (if RankedBefore(x, e) && x.kind == kind then 1 else 0)
  {
    hide RankedBefore;
    var all, n := front + [x], |front|;
    assert all[n] == x && forall i :: 0 <= i < n ==> all[i] == front[i];
    var before, after := Outranking(front, e), Outranking(all, e);
    assert n !in before && forall i :: i in after <==> i in before || (i == n && RankedBefore(x, e));
    if RankedBefore(x, e) {
      assert after == before + {n};
    } else {
      assert after == before;
    }
    OneMoreOfKind(front, x, e, kind);
  }

  lemma OneMoreOfKind(front: seq<Entry>, x: Entry, e: Entry, kind: string)
    ensures |OutrankingOfKind(front + [x], e, kind)| ==
            |OutrankingOfKind(front, e, kind)| + (if RankedBefore(x, e) && x.kind == kind then 1 else 0)
  {
    hide RankedBefore;
    var all, n := front + [x], |front|;
    assert all[n] == x && forall i :: 0 <= i < n ==> all[i] == front[i];
    var before, after := OutrankingOfKind(front, e, kind), OutrankingOfKind(all, e, kind);
    assert n !in before && forall i :: i in after <==> i in before || (i == n && RankedBefore(x, e) && x.kind == kind);
    if RankedBefore(x, e) && x.kind == kind {
      assert after == before + {n};
    } else {
      assert after == before;
    }
  }

  lemma GreedyChoiceOf(claims: seq<Entry>, ranked: seq<Entry>, capped: seq<Entry>, capPerType: int, maxLines: int)
    requires OneEntryEach(claims)
    requires Chosen(Sorted(Ranks, HotOf(claims, true)), ranked, capped, capPerType, maxLines)
    ensures IsGreedyChoice(claims, ranked, capped, capPerType, maxLines)
  {
    hide Ranks, RankedBefore, Above, OfKind, HotOf, Sorted;
    var seen := Sorted(Ranks, HotOf(claims, true));
    HotSorted(claims);
    HotMembers(claims, true);
    ChosenAreSeen(seen, ranked, capped);
    SameMembers(seen, HotOf(claims, true));
    SameMembers(ranked + capped, seen);
    RankedInOrder(ranked);
    RankedInOrder(capped);
    forall e | e in claims && e.hot
      ensures e in capped <==> |Outranking(ranked, e)| >= maxLines || |OutrankingOfKind(ranked, e, e.kind)| >= capPerType
    {
      AboveCounts(ranked, e, e.kind);
    }
  }

  lemma {:induction false} HotInOrder(es: seq<Entry>, hot: bool)
    ensures IsSubseq(HotOf(es, hot), es)
    decreases |es|
  {
    if es != [] {
      HotInOrder(Init(es), hot);
      var front, all := HotOf(Init(es), hot), HotOf(es, hot);
      if Last(es).hot == hot {
        assert Init(all) == front;
      } else {
        assert all == front;
      }
    }
  }

  lemma ChosenAreSeen(seen: seq<Entry>, ranked: seq<Entry>, capped: seq<Entry>)
    requires multiset(ranked) + multiset(capped) == multiset(seen)
    ensures forall x :: x in ranked || x in capped ==> x in seen
  {
    forall x | x in ranked || x in capped
      ensures x in seen
    {
      assert x in multiset(ranked) + multiset(capped);
      assert x in multiset(seen);
    }
  }

  lemma OneMoreSeen(seen: seq<Entry>, e: Entry, ranked: seq<Entry>, capped: seq<Entry>)
    requires multiset(ranked) + multiset(capped) == multiset(seen)
    ensures multiset(ranked) + multiset(capped + [e]) == multiset(seen + [e])
    ensures multiset(ranked + [e]) + multiset(capped) == multiset(seen + [e])
  {
  }

  lemma RankLast(ranked: seq<Entry>, e: Entry)
    requires Increasing(Ranks, ranked) && forall x :: x in ranked ==> Ranks(x, e)
    ensures Increasing(Ranks, ranked + [e])
  {
    hide Ranks;
  }

  lemma {:induction false} AboveAll(es: seq<Entry>, e: Entry)
    requires forall x :: x in es ==> Ranks(x, e)
    ensures Above(es, e) == es
    decreases |es|
  {
    hide Ranks;
    if es != [] {
      assert es == Init(es) + [Last(es)];
      AboveAll(Init(es), e);
      AboveSnoc(Init(es), Last(es), e);
    }
  }

  lemma AboveSnoc(es: seq<Entry>, x: Entry, e: Entry)
    ensures Above(es + [x], e) == Above(es, e) + (if Ranks(x, e) then [x] else [])
  {
    assert Init(es + [x]) == es;
  }

  lemma {:induction false} AboveMembers(es: seq<Entry>, e: Entry)
    ensures forall x :: x in Above(es, e) <==> x in es && Ranks(x, e)
    decreases |es|
  {
    if es != [] {
      hide Ranks;
      AboveMembers(Init(es), e);
      assert es == Init(es) + [Last(es)];
    }
  }

  lemma {:induction false} AboveIncreases(es: seq<Entry>, e: Entry)
    requires Increasing(Ranks, es)
    ensures Increasing(Ranks, Above(es, e))
    decreases |es|
  {
    if es != [] {
      hide Ranks;
      var front := Above(Init(es), e);
      AboveIncreases(Init(es), e);
      AboveMembers(Init(es), e);
      forall i | 0 <= i < |front|
        ensures Ranks(front[i], Last(es))
      {
        assert front[i] in front;
        var k :| 0 <= k < |Init(es)| && Init(es)[k] == front[i];
        assert Ranks(es[k], es[|es| - 1]);
      }
    }
  }

  lemma NeverBoth(a: Entry, b: Entry)
    ensures !(Ranks(a, b) && Ranks(b, a))
  {
    hide Less;
    LessTotal(a.file, b.file);
  }

  /** The choice for the next entry keeps the pass greedy. */
  lemma GreedyOne(seen: seq<Entry>, e: Entry, ranked: seq<Entry>, capped: seq<Entry>, capPerType: int, maxLines: int)
    requires Greedy(seen, ranked, capped, capPerType, maxLines)
    requires forall x :: x in seen ==> Ranks(x, e)
    requires forall x :: x in ranked || x in capped ==> x in seen
    ensures if NoRoom(ranked, e.kind, capPerType, maxLines) then Greedy(seen + [e], ranked, capped + [e], capPerType, maxLines)
            else Greedy(seen + [e], ranked + [e], capped, capPerType, maxLines)
  {
    hide Ranks, NoRoom, Above;
    AboveAll(ranked, e);
    AboveSnoc(ranked, e, e);
    NeverBoth(e, e);
    assert [] + ranked == ranked == ranked + [];
    forall x | x in seen
      ensures x != e && Above(ranked + [e], x) == Above(ranked, x)
    {
      NeverBoth(x, e);
      AboveSnoc(ranked, e, x);
      assert Above(ranked, x) + [] == Above(ranked, x);
    }
    assert forall x :: x in seen + [e] <==> x in seen || x == e;
    assert Above(ranked + [e], e) == ranked;
  }

  lemma ChooseOne(seen: seq<Entry>, e: Entry, ranked: seq<Entry>, capped: seq<Entry>, capPerType: int, maxLines: int)
    requires Chosen(seen, ranked, capped, capPerType, maxLines)
    requires forall x :: x in seen ==> Ranks(x, e)
    ensures if NoRoom(ranked, e.kind, capPerType, maxLines) then Chosen(seen + [e], ranked, capped + [e], capPerType, maxLines)
            else Chosen(seen + [e], ranked + [e], capped, capPerType, maxLines)
  {
    ChosenAreSeen(seen, ranked, capped);
    OneMoreSeen(seen, e, ranked, capped);
    RankLast(ranked, e);
    RankLast(capped, e);
    GreedyOne(seen, e, ranked, capped, capPerType, maxLines);
    hide Ranks, Increasing, OfKind, Greedy;
    if !NoRoom(ranked, e.kind, capPerType, maxLines) {
      forall kind
        ensures OfKind(ranked + [e], kind) == OfKind(ranked, kind) + (if e.kind == kind then 1 else 0)
      {
        OfKindSnoc(ranked, e, kind);
      }
    }
  }

  /** Two greedy passes that agree on everything that outranks an entry agree on the entry. */
  lemma SameVerdict(seen: seq<Entry>, e: Entry, r: seq<Entry>, c: seq<Entry>, r': seq<Entry>, c': seq<Entry>,
                    capPerType: int, maxLines: int)
    requires OneEntryEach(seen) && e in seen
    requires Chosen(seen, r, c, capPerType, maxLines) && Chosen(seen, r', c', capPerType, maxLines)
    requires forall x :: x in seen && Ranks(x, e) ==> (x in r <==> x in r')
    ensures e in c <==> e in c'
  {
    hide NoRoom, Ranks, OneEntryEach, Increasing;
    ChosenAreSeen(seen, r, c);
    ChosenAreSeen(seen, r', c');
    AboveMembers(r, e);
    AboveMembers(r', e);
    AboveIncreases(r, e);
    AboveIncreases(r', e);
    RanksIsTotal(seen);
    TotalOnPart(Ranks, seen, Above(r, e));
    IncreasingUnique(Ranks, Above(r, e), Above(r', e));
  }

  lemma EmittedOrCapped(seen: seq<Entry>, e: Entry, r: seq<Entry>, c: seq<Entry>, capPerType: int, maxLines: int)
    requires Chosen(seen, r, c, capPerType, maxLines)
    ensures e in r <==> e in seen && e !in c
    ensures e in c ==> e in seen
  {
    hide Ranks, OfKind, NoRoom;
    assert e in seen <==> e in multiset(seen);
    assert e in multiset(seen) <==> e in multiset(r) || e in multiset(c);
  }

  /** The choice is determined: a ranking, the caps and the greedy rule leave only one emitted list and one capped list. */
  lemma ChoiceIsDetermined(seen: seq<Entry>, r: seq<Entry>, c: seq<Entry>, r': seq<Entry>, c': seq<Entry>,
                           capPerType: int, maxLines: int)
    requires OneEntryEach(seen) && Increasing(Ranks, seen)
    requires Chosen(seen, r, c, capPerType, maxLines) && Chosen(seen, r', c', capPerType, maxLines)
    ensures r == r' && c == c'
  {
    hide Ranks, Increasing, OneEntryEach, Greedy;
    for i := 0 to |seen|
      invariant forall k :: 0 <= k < i ==> (seen[k] in c <==> seen[k] in c')
    {
      forall x | x in seen && Ranks(x, seen[i])
        ensures x in r <==> x in r'
      {
        EarlierOnly(seen, i, x);
        EmittedOrCapped(seen, x, r, c, capPerType, maxLines);
        EmittedOrCapped(seen, x, r', c', capPerType, maxLines);
      }
      SameVerdict(seen, seen[i], r, c, r', c', capPerType, maxLines);
    }
    forall x
      ensures (x in r <==> x in r') && (x in c <==> x in c') && (x in r || x in c ==> x in seen)
    {
      EmittedOrCapped(seen, x, r, c, capPerType, maxLines);
      EmittedOrCapped(seen, x, r', c', capPerType, maxLines);
    }
    RanksIsTotal(seen);
    TotalOnPart(Ranks, seen, r);
    TotalOnPart(Ranks, seen, c);
    IncreasingUnique(Ranks, r, r');
    IncreasingUnique(Ranks, c, c');
  }

  /** In a ranking, what outranks an entry comes before it. */
  lemma EarlierOnly(seen: seq<Entry>, i: nat, x: Entry)
    requires Increasing(Ranks, seen) && i < |seen| && x in seen && Ranks(x, seen[i])
    ensures exists k :: 0 <= k < i && seen[k] == x
  {
    hide Ranks;
    var k :| 0 <= k < |seen| && seen[k] == x;
    NeverBoth(x, seen[i]);
    NeverBoth(x, x);
  }

  lemma EarlierRanks(scored: seq<Entry>, i: nat)
    requires Increasing(Ranks, scored) && i < |scored|
    ensures forall x :: x in scored[..i] ==> Ranks(x, scored[i])
    ensures scored[..i + 1] == scored[..i] + [scored[i]]
  {
    hide Ranks;
    forall x | x in scored[..i]
      ensures Ranks(x, scored[i])
    {
      var k :| 0 <= k < i && scored[..i][k] == x;
      assert scored[k] == x;
    }
  }

  method SplitHot(claims: seq<Entry>) returns (hot: seq<Entry>, excluded: seq<Entry>)
    ensures hot == HotOf(claims, true) && excluded == HotOf(claims, false)
  {
    hot, excluded := [], [];
    for i := 0 to |claims|
      invariant hot == HotOf(claims[..i], true) && excluded == HotOf(claims[..i], false)
    {
      assert Init(claims[..i + 1]) == claims[..i];
      if claims[i].hot { hot := hot + [claims[i]]; } else { excluded := excluded + [claims[i]]; }
    }
    assert claims[..|claims|] == claims;
  }

  /**
    renderIndexView's choice: hot entries are ranked or capped, the rest excluded; both caps hold; both lists
    are in rank order; and an entry is capped exactly when those emitted before it leave no room for its kind.
   */
  method ChooseIndex(claims: seq<Entry>, capPerType: int, maxLines: int)
    returns (ranked: seq<Entry>, capped: seq<Entry>, excluded: seq<Entry>)
    requires OneEntryEach(claims)
    ensures excluded == HotOf(claims, false)
    ensures Chosen(Sorted(Ranks, HotOf(claims, true)), ranked, capped, capPerType, maxLines)
    ensures multiset(ranked) + multiset(capped) == multiset(HotOf(claims, true))
    ensures IsGreedyChoice(claims, ranked, capped, capPerType, maxLines)
    ensures (forall e :: e in excluded <==> e in claims && !e.hot) && IsSubseq(excluded, claims)
  {
    hide Ranks, HotOf, Sorted, IsGreedyChoice;
    var hot: seq<Entry>;
    hot, excluded := SplitHot(claims);
    var scored := Sorted(Ranks, hot);
    HotSorted(claims);
    ranked, capped := [], [];
    var perType: map<string, nat> := map[];
    for i := 0 to |scored|
      invariant Chosen(scored[..i], ranked, capped, capPerType, maxLines)
      invariant forall kind :: OfKind(ranked, kind) == if kind in perType then perType[kind] else 0
    {
      hide Chosen, OfKind, Increasing, OneEntryEach;
      var e := scored[i];
      EarlierRanks(scored, i);
      ChooseOne(scored[..i], e, ranked, capped, capPerType, maxLines);
      var n := if e.kind in perType then perType[e.kind] else 0;
      if |ranked| >= maxLines || n >= capPerType {
        capped := capped + [e];
      } else {
        forall kind
          ensures OfKind(ranked + [e], kind) == OfKind(ranked, kind) + (if e.kind == kind then 1 else 0)
        {
          OfKindSnoc(ranked, e, kind);
        }
        perType := perType[e.kind := n + 1];
        ranked := ranked + [e];
      }
    }
    assert scored[..|scored|] == scored;
    GreedyChoiceOf(claims, ranked, capped, capPerType, maxLines);
    HotMembers(claims, false);
    HotInOrder(claims, false);
  }
}
