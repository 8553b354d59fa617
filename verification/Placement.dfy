/** The session-pin table, the deterministic placement floor, and how evenly it spreads sessions. */
module Placement {
  import opened Prelude

  type Shard = int
  type Sid = string

  /** session -> shard, and the sessions per shard that placement reads. */
  datatype Pins = Pins(sessMap: map<Sid, Shard>, sessCount: map<Shard, int>)

  function CountOf(p: Pins, s: Shard): int {
    if s in p.sessCount then p.sessCount[s] else 0
  }

  function SessionsOf(m: map<Sid, Shard>, s: Shard): set<Sid> {
    set sid | sid in m && m[sid] == s
  }

  /** The index agrees with the map. */
  ghost predicate Agrees(p: Pins) {
    forall s :: CountOf(p, s) == |SessionsOf(p.sessMap, s)|
  }

  /** _pin: move a session to a shard, adjusting both counts; pinning it where it is changes nothing. */
  function Pin(p: Pins, sid: Sid, shard: Shard): Pins {
    if sid in p.sessMap && p.sessMap[sid] == shard then p
    else
      var left :=
        if sid in p.sessMap then
          var prev := p.sessMap[sid];
          p.sessCount[prev := if CountOf(p, prev) - 1 > 0 then CountOf(p, prev) - 1 else 0]
        else p.sessCount;
      var here := if shard in left then left[shard] else 0;
      Pins(p.sessMap[sid := shard], left[shard := here + 1])
  }

  /** Whatever is pinned or re-pinned, every count stays the number of sessions mapped to its shard. */
  lemma PinKeepsAgreement(p: Pins, sid: Sid, shard: Shard)
    requires Agrees(p)
    ensures Agrees(Pin(p, sid, shard))
  {
    var p' := Pin(p, sid, shard);
    forall s
      ensures CountOf(p', s) == |SessionsOf(p'.sessMap, s)|
    {
      CountAfterPin(p, sid, shard, s);
    }
  }

  lemma SessionsAfterPin(m: map<Sid, Shard>, sid: Sid, shard: Shard, s: Shard)
    ensures SessionsOf(m[sid := shard], s) == if s == shard then SessionsOf(m, s) + {sid} else SessionsOf(m, s) - {sid}
    ensures sid in SessionsOf(m, s) <==> sid in m && m[sid] == s
  {
  }

  lemma CountAfterPin(p: Pins, sid: Sid, shard: Shard, s: Shard)
    requires Agrees(p)
    ensures CountOf(Pin(p, sid, shard), s) == |SessionsOf(Pin(p, sid, shard).sessMap, s)|
  {
    hide SessionsOf;
    var before := SessionsOf(p.sessMap, s);
    SessionsAfterPin(p.sessMap, sid, shard, s);
    assert CountOf(p, s) == |before|;
    assert sid in before ==> |before - {sid}| == |before| - 1;
    assert sid !in before ==> before - {sid} == before && |before + {sid}| == |before| + 1;
  }

  /** The sessions of a shard that are not in `todo`. */
  function Counted(m: map<Sid, Shard>, todo: set<Sid>, s: Shard): nat {
    |SessionsOf(m, s) - todo|
  }

  lemma CountedFromNone(m: map<Sid, Shard>, s: Shard)
    ensures Counted(m, m.Keys, s) == 0 && Counted(m, {}, s) == |SessionsOf(m, s)|
  {
    assert SessionsOf(m, s) - m.Keys == {};
    assert SessionsOf(m, s) - {} == SessionsOf(m, s);
  }

  lemma CountedOneMore(m: map<Sid, Shard>, todo: set<Sid>, sid: Sid, s: Shard)
    requires sid in todo && todo <= m.Keys
    ensures Counted(m, todo - {sid}, s) == Counted(m, todo, s) + (if s == m[sid] then 1 else 0)
  {
    var before := SessionsOf(m, s) - todo;
    if s == m[sid] {
      assert SessionsOf(m, s) - (todo - {sid}) == before + {sid};
    } else {
      assert SessionsOf(m, s) - (todo - {sid}) == before;
    }
  }

  /** At boot the counts are tallied from the map that was saved. */
  method Tally(saved: map<Sid, Shard>) returns (count: map<Shard, int>)
    ensures Agrees(Pins(saved, count))
  {
    hide Counted, SessionsOf;
    count := map[];
    var todo := saved.Keys;
    forall s
      ensures Counted(saved, todo, s) == 0
    {
      CountedFromNone(saved, s);
    }
    while todo != {}
      invariant todo <= saved.Keys
      invariant forall s :: CountOf(Pins(saved, count), s) == Counted(saved, todo, s)
      decreases todo
    {
      var sid := Pick(todo);
      var s := saved[sid];
      forall t
        ensures Counted(saved, todo - {sid}, t) == Counted(saved, todo, t) + (if t == s then 1 else 0)
      {
        CountedOneMore(saved, todo, sid, t);
      }
      count := count[s := (if s in count then count[s] else 0) + 1];
      todo := todo - {sid};
    }
    forall s
      ensures CountOf(Pins(saved, count), s) == |SessionsOf(saved, s)|
    {
      CountedFromNone(saved, s);
    }
  }

  /** The pin table as the module keeps it. */
  class PinTable {
    var sessMap: map<Sid, Shard>
    var sessCount: map<Shard, int>

    constructor (saved: map<Sid, Shard>)
      ensures sessMap == saved && Agrees(View())
    {
      sessMap := saved;
      var count := Tally(saved);
      sessCount := count;
    }

    function View(): Pins
      reads this
    {
      Pins(sessMap, sessCount)
    }

    method PinSession(sid: Sid, shard: Shard)
      modifies this
      ensures View() == Pin(old(View()), sid, shard)
      ensures sessMap == old(sessMap)[sid := shard]
      ensures old(Agrees(View())) ==> Agrees(View())
    {
      hide Agrees;
      ghost var before := View();
      if sid in sessMap && sessMap[sid] == shard { return; }
      if sid in sessMap {
        var prev := sessMap[sid];
        var n := (if prev in sessCount then sessCount[prev] else 0) - 1;
        sessCount := sessCount[prev := if n > 0 then n else 0];
      }
      sessMap := sessMap[sid := shard];
      sessCount := sessCount[shard := (if shard in sessCount then sessCount[shard] else 0) + 1];
      if Agrees(before) {
        PinKeepsAgreement(before, sid, shard);
      }
    }

    /** _route for a request that names a session; `advice` is what the placement provider would answer. */
    method RouteSession(sid: Sid, pool: seq<Shard>, defaultShard: Shard, sig: Signals, advice: Option<Shard>)
      returns (shard: Shard, ghost choice: Shard)
      modifies this
      ensures (View(), shard) == Routed(old(View()), Request(sid, pool, choice), defaultShard)
      ensures sid in old(sessMap) ==> shard == old(sessMap)[sid] && sessMap == old(sessMap)
      ensures sid !in old(sessMap) && pool == [] ==> shard == defaultShard && sessMap == old(sessMap)
      ensures sid !in old(sessMap) && |pool| == 1 ==> shard == pool[0]
      ensures sid !in old(sessMap) && |pool| > 1 ==>
                IsPlacement(pool, sig, old(View()), advice, shard) && choice == shard
      ensures sid !in old(sessMap) && pool != [] ==> sessMap == old(sessMap)[sid := shard]
      ensures old(Agrees(View())) ==> Agrees(View())
    {
      hide Agrees, IsPlacement, Pin;
      choice := defaultShard;
      if sid in sessMap { return sessMap[sid], choice; }
      if pool == [] { return defaultShard, choice; }
      if |pool| == 1 {
        shard := pool[0];
      } else {
        shard := PlaceSession(pool, defaultShard, sig, View(), advice);
        choice := shard;
      }
      PinSession(sid, shard);
    }
  }

  // ---- the floor ----------------------------------------------------------------------------------

  /** What a shard carries: dials in flight, live groups, pinned sessions. */
  datatype Signals = Signals(dials: map<Shard, nat>, groups: map<Shard, nat>)

  function Dials(sig: Signals, s: Shard): nat { if s in sig.dials then sig.dials[s] else 0 }
  function Groups(sig: Signals, s: Shard): nat { if s in sig.groups then sig.groups[s] else 0 }

  /** `x` once for every mention of `s` in the pool. */
  function ForEachMention(pool: seq<Shard>, s: Shard, x: int): int
    decreases |pool|
  {
    if pool == [] then 0 else ForEachMention(Init(pool), s, x) + (if Last(pool) == s then x else 0)
  }

  /** The load placement compares: groups and pins are added once for every mention of the shard in the pool. */
  function Load(pool: seq<Shard>, sig: Signals, p: Pins, s: Shard): int {
    Dials(sig, s) + ForEachMention(pool, s, Groups(sig, s)) + ForEachMention(pool, s, CountOf(p, s))
  }

  /** Least load first, lowest shard id on ties. */
  predicate Before(a: Shard, la: int, b: Shard, lb: int) {
    la < lb || (la == lb && a < b)
  }

  /** The floor beats every other member of the pool. */
  ghost predicate IsFloor(pool: seq<Shard>, sig: Signals, p: Pins, floor: Shard) {
    && floor in pool
    && forall s :: s in pool ==>
         || s == floor
         || Load(pool, sig, p, floor) < Load(pool, sig, p, s)
         || (Load(pool, sig, p, floor) == Load(pool, sig, p, s) && floor < s)
  }

  /** Adds a shard's amount to its load, member after member of the pool. */
  method AddForEach(pool: seq<Shard>, loads: map<Shard, int>, amount: Shard -> int) returns (sum: map<Shard, int>)
    requires forall s :: s in pool ==> s in loads
    ensures forall s :: s in pool ==> s in sum && sum[s] == loads[s] + ForEachMention(pool, s, amount(s))
  {
    sum := loads;
    for n := 0 to |pool|
      invariant forall s :: s in pool ==> s in sum && sum[s] == loads[s] + ForEachMention(pool[..n], s, amount(s))
    {
      var i := pool[n];
      assert Init(pool[..n + 1]) == pool[..n] && Last(pool[..n + 1]) == i;
      sum := sum[i := sum[i] + amount(i)];
    }
    assert pool[..|pool|] == pool;
  }

  /** The pool's loads: dials, then live groups, then pins. */
  method MeasureLoads(pool: seq<Shard>, sig: Signals, p: Pins) returns (loads: map<Shard, int>)
    ensures forall s :: s in pool ==> s in loads && loads[s] == Load(pool, sig, p, s)
  {
    loads := map i | i in pool :: Dials(sig, i);
    loads := AddForEach(pool, loads, (i: Shard) => Groups(sig, i));
    loads := AddForEach(pool, loads, (i: Shard) => CountOf(p, i));
  }

  /** The provider's advice when it names a member of the pool, else the floor. */
  ghost predicate IsPlacement(pool: seq<Shard>, sig: Signals, p: Pins, advice: Option<Shard>, choice: Shard) {
    if advice.Some? && advice.value in pool then choice == advice.value else IsFloor(pool, sig, p, choice)
  }

  /** place_session for a session: the least-loaded shard of the pool, unless the provider advises another member. */
  method PlaceSession(pool: seq<Shard>, defaultShard: Shard, sig: Signals, p: Pins, advice: Option<Shard>)
    returns (choice: Shard)
    ensures IsPlacement(if pool == [] then [defaultShard] else pool, sig, p, advice, choice)
  {
    var among := if pool == [] then [defaultShard] else pool;
    var loads := MeasureLoads(among, sig, p);
    var floor := among[0];
    for i := 1 to |among|
      invariant floor in among[..i]
      invariant forall s :: s in among[..i] && s != floor ==> Before(floor, loads[floor], s, loads[s])
    {
      if Before(among[i], loads[among[i]], floor, loads[floor]) { floor := among[i]; }
      assert among[..i + 1] == among[..i] + [among[i]];
    }
    assert among[..|among|] == among;
    choice := if advice.Some? && advice.value in among then advice.value else floor;
  }

  // ---- balance ------------------------------------------------------------------------------------

  function Loads(pool: seq<Shard>, sig: Signals, p: Pins): seq<int> {
    seq(|pool|, i requires 0 <= i < |pool| => Load(pool, sig, p, pool[i]))
  }

  function Max(l: seq<int>): (m: int)
    requires l != []
    ensures m in l && forall x :: x in l ==> x <= m
    decreases |l|
  {
    if |l| == 1 then l[0]
    else
      var m := Max(Init(l));
      assert l == Init(l) + [Last(l)];
      if Last(l) > m then Last(l) else m
  }

  function Min(l: seq<int>): (m: int)
    requires l != []
    ensures m in l && forall x :: x in l ==> m <= x
    decreases |l|
  {
    if |l| == 1 then l[0]
    else
      var m := Min(Init(l));
      assert l == Init(l) + [Last(l)];
      if Last(l) < m then Last(l) else m
  }

  function Gap(l: seq<int>): int
    requires l != []
  {
    Max(l) - Min(l)
  }

  /** How many sessions it takes to lift every shard to `top`. */
  function Shortfall(l: seq<int>, top: int): int
    decreases |l|
  {
    if l == [] then 0 else Shortfall(Init(l), top) + (top - Last(l))
  }

  lemma {:induction false} MentionedOnce(pool: seq<Shard>, s: Shard, x: int)
    requires Distinct(pool)
    ensures ForEachMention(pool, s, x) == if s in pool then x else 0
    decreases |pool|
  {
    if pool != [] {
      MentionedOnce(Init(pool), s, x);
      assert pool == Init(pool) + [Last(pool)];
    }
  }

  /** In a pool that names each shard once, a load is dials plus groups plus pins. */
  lemma LoadOfDistinct(pool: seq<Shard>, sig: Signals, p: Pins, s: Shard)
    requires Distinct(pool) && s in pool
    ensures Load(pool, sig, p, s) == Dials(sig, s) + Groups(sig, s) + CountOf(p, s)
  {
    MentionedOnce(pool, s, Groups(sig, s));
    MentionedOnce(pool, s, CountOf(p, s));
  }

  /** So it is the dials and groups the shard shows, and the sessions pinned to it. */
  lemma LoadIsCounted(pool: seq<Shard>, sig: Signals, p: Pins, s: Shard)
    requires Distinct(pool) && s in pool && Agrees(p)
    ensures Load(pool, sig, p, s) ==
            (if s in sig.dials then sig.dials[s] else 0) + (if s in sig.groups then sig.groups[s] else 0)
            + |set sid | sid in p.sessMap && p.sessMap[sid] == s|
  {
    LoadOfDistinct(pool, sig, p, s);
  }

  /** A new session adds one to the count of the shard it is pinned to and to no other. */
  lemma PinCounts(p: Pins, sid: Sid, floor: Shard, s: Shard)
    requires sid !in p.sessMap
    ensures CountOf(Pin(p, sid, floor), s) == CountOf(p, s) + (if s == floor then 1 else 0)
  {
  }

  lemma LoadAfterPin(pool: seq<Shard>, sig: Signals, p: Pins, sid: Sid, floor: Shard, s: Shard)
    requires Distinct(pool) && sid !in p.sessMap && s in pool
    ensures Load(pool, sig, Pin(p, sid, floor), s) == Load(pool, sig, p, s) + (if s == floor then 1 else 0)
  {
    LoadOfDistinct(pool, sig, p, s);
    LoadOfDistinct(pool, sig, Pin(p, sid, floor), s);
    PinCounts(p, sid, floor, s);
  }

  lemma StepFromEntries(l: seq<int>, l': seq<int>, k: nat)
    requires k < |l| == |l'|
    requires forall i :: 0 <= i < |l| ==> l[k] <= l[i] && l'[i] == l[i] + (if i == k then 1 else 0)
    ensures IsPlacementStep(l, l')
  {
    assert l[k] in l;
    var m :| 0 <= m < |l| && l[m] == Min(l);
    assert l' == l[k := l[k] + 1];
  }

  /** A new session placed at the floor and pinned there adds one to the least of the loads, and to no other. */
  lemma PlacingIsAStep(pool: seq<Shard>, sig: Signals, p: Pins, sid: Sid, floor: Shard)
    requires Distinct(pool) && IsFloor(pool, sig, p, floor) && sid !in p.sessMap
    ensures IsPlacementStep(Loads(pool, sig, p), Loads(pool, sig, Pin(p, sid, floor)))
  {
    hide Pin, Load, CountOf, IsPlacementStep;
    var k: nat :| k < |pool| && pool[k] == floor;
    var l, l' := Loads(pool, sig, p), Loads(pool, sig, Pin(p, sid, floor));
    forall i | 0 <= i < |l|
      ensures l[k] <= l[i] && l'[i] == l[i] + (if i == k then 1 else 0)
    {
      assert pool[i] in pool;
      LoadAfterPin(pool, sig, p, sid, floor, pool[i]);
    }
    StepFromEntries(l, l', k);
  }

  /** Each floor placement keeps the pool's gap within the larger of the previous gap and one. */
  lemma GapStaysBounded(l: seq<int>, k: nat)
    requires k < |l| && l[k] == Min(l)
    ensures var l' := l[k := l[k] + 1];
            && Gap(l') <= (if Gap(l) > 1 then Gap(l) else 1)
            && Min(l') >= Min(l)
            && Max(l') == (if Max(l) > l[k] then Max(l) else l[k] + 1)
  {
    var l' := l[k := l[k] + 1];
    var lo :| 0 <= lo < |l'| && l'[lo] == Min(l');
    var hi :| 0 <= hi < |l'| && l'[hi] == Max(l');
    assert l[lo] in l && l[hi] in l;
    assert l[k] in l;
    var top :| 0 <= top < |l| && l[top] == Max(l);
    assert l'[top] in l' && l'[k] in l';
  }

  lemma {:induction false} ShortfallUpdate(l: seq<int>, k: nat, x: int, top: int)
    requires k < |l|
    ensures Shortfall(l[k := x], top) == Shortfall(l, top) + l[k] - x
    decreases |l|
  {
    var l' := l[k := x];
    if k == |l| - 1 {
      assert Init(l') == Init(l);
    } else {
      assert Init(l') == Init(l)[k := x];
      ShortfallUpdate(Init(l), k, x, top);
    }
  }

  lemma {:induction false} ShortfallSign(l: seq<int>, top: int)
    requires forall x :: x in l ==> x <= top
    ensures Shortfall(l, top) >= 0
    ensures Shortfall(l, top) == 0 <==> forall x :: x in l ==> x == top
    decreases |l|
  {
    if l != [] {
      assert forall x :: x in Init(l) ==> x in l;
      ShortfallSign(Init(l), top);
      assert l == Init(l) + [Last(l)] && Last(l) in l;
    }
  }

  /** n sessions placed one after the other at the floor: each step raises one least-loaded entry by one. */
  ghost predicate IsPlacementRun(ls: seq<seq<int>>) {
    ls != [] && ls[0] != [] && forall i :: 0 <= i < |ls| - 1 ==> IsPlacementStep(ls[i], ls[i + 1])
  }

  ghost predicate IsPlacementStep(l: seq<int>, l': seq<int>) {
    exists k :: 0 <= k < |l| && l[k] == Min(l) && l' == l[k := l[k] + 1]
  }

  lemma StepTowardsTop(l: seq<int>, l': seq<int>, top: int)
    requires l != [] && IsPlacementStep(l, l') && Max(l) == top && Shortfall(l, top) > 0
    ensures l' != [] && Max(l') == top && Shortfall(l', top) == Shortfall(l, top) - 1
  {
    hide Max, Min, Shortfall, Gap;
    var k :| 0 <= k < |l| && l[k] == Min(l) && l' == l[k := l[k] + 1];
    ShortfallSign(l, top);
    GapStaysBounded(l, k);
    ShortfallUpdate(l, k, l[k] + 1, top);
    var x :| x in l && x != top;
    assert l[k] <= x < top;
  }

  /** The state after n placements: still filling up to the first maximum, or within one of each other. */
  lemma {:induction false} PlacementProgress(ls: seq<seq<int>>, n: nat)
    requires IsPlacementRun(ls) && n < |ls|
    ensures ls[n] != []
    ensures var top := Max(ls[0]);
            if n <= Shortfall(ls[0], top) then Max(ls[n]) == top && Shortfall(ls[n], top) == Shortfall(ls[0], top) - n
            else Gap(ls[n]) <= 1
    decreases n
  {
    hide Max, Min, Shortfall;
    var top := Max(ls[0]);
    if n == 0 {
      ShortfallSign(ls[0], top);
    } else {
      PlacementProgress(ls, n - 1);
      assert IsPlacementStep(ls[n - 1], ls[n - 1 + 1]);
      var l := ls[n - 1];
      if n <= Shortfall(ls[0], top) {
        StepTowardsTop(l, ls[n], top);
      } else {
        if n - 1 <= Shortfall(ls[0], top) {
          assert Shortfall(l, top) == 0;
          LevelMeansNoGap(l, top);
        }
        assert Gap(l) <= 1;
        var k :| 0 <= k < |l| && l[k] == Min(l) && ls[n] == l[k := l[k] + 1];
        GapStaysBounded(l, k);
      }
    }
  }

  lemma LevelMeansNoGap(l: seq<int>, top: int)
    requires l != [] && Max(l) == top && Shortfall(l, top) == 0
    ensures Gap(l) == 0
  {
    ShortfallSign(l, top);
  }

  /**
    With fixed dials and groups, once the initial shortfall has been placed the loads of the pool are within
    one of each other, and they stay there.
   */
  lemma PlacementLevels(ls: seq<seq<int>>, n: nat)
    requires IsPlacementRun(ls) && n < |ls|
    requires n >= Shortfall(ls[0], Max(ls[0]))
    ensures ls[n] != [] && Gap(ls[n]) <= 1
  {
    PlacementProgress(ls, n);
    if n == Shortfall(ls[0], Max(ls[0])) {
      LevelMeansNoGap(ls[n], Max(ls[0]));
    }
  }

  /** Sessions admitted one after the other: each is new, is placed at the floor, and is pinned there. */
  ghost predicate IsAdmission(pool: seq<Shard>, sig: Signals, p: Pins, p': Pins) {
    exists sid, floor :: sid !in p.sessMap && IsFloor(pool, sig, p, floor) && p' == Pin(p, sid, floor)
  }

  ghost predicate IsAdmissionRun(pool: seq<Shard>, sig: Signals, ps: seq<Pins>) {
    ps != [] && forall i :: 0 <= i < |ps| - 1 ==> IsAdmission(pool, sig, ps[i], ps[i + 1])
  }

  /**
    While dials and groups stand still, no admission widens the pool's gap beyond one, and once the first
    shortfall has been admitted the pool is level to within one session.
   */
  lemma AdmissionsLevelThePool(pool: seq<Shard>, sig: Signals, ps: seq<Pins>, n: nat)
    requires pool != [] && Distinct(pool) && IsAdmissionRun(pool, sig, ps) && n < |ps|
    ensures n > 0 ==> var before := Gap(Loads(pool, sig, ps[n - 1]));
                      Gap(Loads(pool, sig, ps[n])) <= if before > 1 then before else 1
    ensures var first := Loads(pool, sig, ps[0]);
            n >= Shortfall(first, Max(first)) ==> Gap(Loads(pool, sig, ps[n])) <= 1
  {
    hide Loads, Max, Min, Shortfall, IsFloor, Pin;
    var ls := seq(|ps|, (i: int) requires 0 <= i < |ps| => Loads(pool, sig, ps[i]));
    forall i | 0 <= i < |ls| - 1
      ensures IsPlacementStep(ls[i], ls[i + 1])
    {
      assert IsAdmission(pool, sig, ps[i], ps[i + 1]);
      var sid, floor :| sid !in ps[i].sessMap && IsFloor(pool, sig, ps[i], floor) && ps[i + 1] == Pin(ps[i], sid, floor);
      PlacingIsAStep(pool, sig, ps[i], sid, floor);
    }
    LoadsOfPool(pool, sig, ps[0]);
    LoadsOfPool(pool, sig, ps[n]);
    assert IsPlacementRun(ls);
    if n > 0 {
      assert IsPlacementStep(ls[n - 1], ls[n - 1 + 1]);
      var k :| 0 <= k < |ls[n - 1]| && ls[n - 1][k] == Min(ls[n - 1]) && ls[n] == ls[n - 1][k := ls[n - 1][k] + 1];
      GapStaysBounded(ls[n - 1], k);
    }
    if n >= Shortfall(ls[0], Max(ls[0])) {
      PlacementLevels(ls, n);
    }
  }

  lemma LoadsOfPool(pool: seq<Shard>, sig: Signals, p: Pins)
    ensures |Loads(pool, sig, p)| == |pool|
  {
  }

  // ---- stickiness ---------------------------------------------------------------------------------

  /** A request that names a session: the pool of its directory ([] when it has none), and what placement picks. */
  datatype Request = Request(sid: Sid, pool: seq<Shard>, choice: Shard)

  /** _route for such a request, handled from start to finish. */
  function Routed(p: Pins, r: Request, defaultShard: Shard): (Pins, Shard) {
    if r.sid in p.sessMap then (p, p.sessMap[r.sid])
    else if r.pool == [] then (p, defaultShard)
    else
      var shard := if |r.pool| == 1 then r.pool[0] else r.choice;
      (Pin(p, r.sid, shard), shard)
  }

  function AfterRequests(p: Pins, rs: seq<Request>, defaultShard: Shard): Pins
    decreases |rs|
  {
    if rs == [] then p else Routed(AfterRequests(p, Init(rs), defaultShard), Last(rs), defaultShard).0
  }

  function Answer(p: Pins, rs: seq<Request>, defaultShard: Shard, i: nat): Shard
    requires i < |rs|
  {
    Routed(AfterRequests(p, rs[..i], defaultShard), rs[i], defaultShard).1
  }

  lemma {:induction false} PinsSurvive(p: Pins, rs: seq<Request>, defaultShard: Shard, n: nat, sid: Sid)
    requires n <= |rs| && sid in AfterRequests(p, rs[..n], defaultShard).sessMap
    ensures var (early, late) := (AfterRequests(p, rs[..n], defaultShard), AfterRequests(p, rs, defaultShard));
            sid in late.sessMap && late.sessMap[sid] == early.sessMap[sid]
    decreases |rs|
  {
    if n == |rs| {
      assert rs[..n] == rs;
    } else {
      assert Init(rs)[..n] == rs[..n];
      PinsSurvive(p, Init(rs), defaultShard, n, sid);
    }
  }

  /**
    Requests handled one at a time are sticky: once a session has been found in the map or placed on a pool,
    every later request for it gets the same shard, whatever pool it names and whatever placement would pick.
   */
  lemma HandledOneAtATimeIsSticky(p: Pins, rs: seq<Request>, defaultShard: Shard, i: nat, j: nat)
    requires i < j < |rs| && rs[i].sid == rs[j].sid
    requires rs[i].pool != [] || rs[i].sid in AfterRequests(p, rs[..i], defaultShard).sessMap
    ensures Answer(p, rs, defaultShard, j) == Answer(p, rs, defaultShard, i)
  {
    assert Init(rs[..i + 1]) == rs[..i] && Last(rs[..i + 1]) == rs[i];
    assert rs[..j][..i + 1] == rs[..i + 1];
    PinsSurvive(p, rs[..j], defaultShard, i + 1, rs[i].sid);
  }

  // ---- requests handled at the same time ------------------------------------------------------------

  type Rid = nat   // a request in progress

  /**
    The look into the map and the pin are separate critical sections of _route, so anything can happen between
    them. `pooled` says whether the request's directory has a pool: a miss then waits for its placement, and
    without one it is answered with the default shard. A sniff pins the session that a create answered by
    `shard` has just named.
   */
  datatype Step =
    | LookUp(rid: Rid, sid: Sid, pooled: bool)
    | Commit(rid: Rid, shard: Shard)
    | Sniff(sid: Sid, shard: Shard)

  /** `missed` holds the requests that found their session unpinned, `served` every (session, shard) answered. */
  datatype Routing = Routing(pins: Pins, missed: map<Rid, Sid>, served: set<(Sid, Shard)>)

  function PinAndServe(r: Routing, sid: Sid, shard: Shard): Routing {
    r.(pins := Pin(r.pins, sid, shard), served := r.served + {(sid, shard)})
  }

  function Advance(r: Routing, step: Step, defaultShard: Shard): Routing {
    match step
    case LookUp(rid, sid, pooled) =>
      if rid in r.missed then r
      else if sid in r.pins.sessMap then r.(served := r.served + {(sid, r.pins.sessMap[sid])})
      else if pooled then r.(missed := r.missed[rid := sid])
      else r.(served := r.served + {(sid, defaultShard)})
    case Commit(rid, shard) =>
      if rid !in r.missed then r else PinAndServe(r, r.missed[rid], shard).(missed := r.missed - {rid})
    case Sniff(sid, shard) => PinAndServe(r, sid, shard)
  }

  function AfterSteps(r: Routing, steps: seq<Step>, defaultShard: Shard): Routing
    decreases |steps|
  {
    if steps == [] then r else Advance(AfterSteps(r, Init(steps), defaultShard), Last(steps), defaultShard)
  }

  /** With the pins of earlier runs; their sessions have been served where they are pinned. */
  function AtBoot(pins: Pins): Routing {
    Routing(pins, map[], set sid | sid in pins.sessMap :: (sid, pins.sessMap[sid]))
  }

  /** Every session has only ever been served from one shard. */
  ghost predicate IsSteady(r: Routing) {
    forall sid, s, t :: (sid, s) in r.served && (sid, t) in r.served ==> s == t
  }

  /** Every pin has been served, and an unpinned session has only been answered with the default shard. */
  ghost predicate Accounted(r: Routing, defaultShard: Shard) {
    && (forall sid :: sid in r.pins.sessMap ==> (sid, r.pins.sessMap[sid]) in r.served)
    && (forall sid, s :: (sid, s) in r.served && sid !in r.pins.sessMap ==> s == defaultShard)
  }

  /** The pin moves its session: from the shard it is pinned to, or from the default shard it was answered with. */
  predicate Moves(r: Routing, sid: Sid, shard: Shard, defaultShard: Shard) {
    if sid in r.pins.sessMap then r.pins.sessMap[sid] != shard
    else (sid, defaultShard) in r.served && shard != defaultShard
  }

  predicate Strays(r: Routing, step: Step, defaultShard: Shard) {
    match step
    case LookUp(_, _, _) => false
    case Commit(rid, shard) => rid in r.missed && Moves(r, r.missed[rid], shard, defaultShard)
    case Sniff(sid, shard) => Moves(r, sid, shard, defaultShard)
  }

  /**
    With requests interleaved at will, every session is served from one shard throughout if and only if no pin
    found its session pinned elsewhere, or answered with a default shard other than the one it pins.
   */
  lemma {:induction false} SteadyIffNoPinMoves(r: Routing, steps: seq<Step>, defaultShard: Shard)
    requires IsSteady(r) && Accounted(r, defaultShard)
    ensures Accounted(AfterSteps(r, steps, defaultShard), defaultShard)
    ensures IsSteady(AfterSteps(r, steps, defaultShard)) <==>
            forall i :: 0 <= i < |steps| ==> !Strays(AfterSteps(r, steps[..i], defaultShard), steps[i], defaultShard)
    decreases |steps|
  {
    hide Advance, IsSteady, Accounted, Strays;
    if steps != [] {
      var n := |steps| - 1;
      SteadyIffNoPinMoves(r, Init(steps), defaultShard);
      var early := AfterSteps(r, Init(steps), defaultShard);
      SteadyStep(early, steps[n], defaultShard);
      assert steps[..n] == Init(steps);
      forall i | 0 <= i < n
        ensures Strays(AfterSteps(r, Init(steps)[..i], defaultShard), Init(steps)[i], defaultShard)
                == Strays(AfterSteps(r, steps[..i], defaultShard), steps[i], defaultShard)
      {
        assert Init(steps)[..i] == steps[..i];
      }
    }
  }

  lemma SteadyStep(r: Routing, step: Step, defaultShard: Shard)
    requires Accounted(r, defaultShard)
    ensures Accounted(Advance(r, step, defaultShard), defaultShard)
    ensures IsSteady(Advance(r, step, defaultShard)) <==> IsSteady(r) && !Strays(r, step, defaultShard)
  {
    hide IsSteady, Accounted;
    match step
    case LookUp(rid, sid, pooled) => SteadyLookUp(r, rid, sid, pooled, defaultShard);
    case Commit(rid, shard) =>
      if rid in r.missed {
        SteadyPin(r, r.missed[rid], shard, defaultShard);
        SteadyIgnoresMissed(PinAndServe(r, r.missed[rid], shard), r.missed - {rid}, defaultShard);
      }
    case Sniff(sid, shard) => SteadyPin(r, sid, shard, defaultShard);
  }

  lemma SteadyIgnoresMissed(r: Routing, missed: map<Rid, Sid>, defaultShard: Shard)
    ensures IsSteady(r.(missed := missed)) <==> IsSteady(r)
    ensures Accounted(r.(missed := missed), defaultShard) <==> Accounted(r, defaultShard)
  {
  }

  /** A pin or an answer from the map keeps the session on the shard it had. */
  lemma SteadyPin(r: Routing, sid: Sid, shard: Shard, defaultShard: Shard)
    requires Accounted(r, defaultShard)
    ensures Accounted(PinAndServe(r, sid, shard), defaultShard)
    ensures IsSteady(PinAndServe(r, sid, shard)) <==> IsSteady(r) && !Moves(r, sid, shard, defaultShard)
  {
    var r' := PinAndServe(r, sid, shard);
    assert (sid, shard) in r'.served && forall p :: p in r.served ==> p in r'.served;
    if IsSteady(r') {
      assert sid in r.pins.sessMap ==> (sid, r.pins.sessMap[sid]) in r'.served;
      forall x, s, t | (x, s) in r.served && (x, t) in r.served
        ensures s == t
      {
        assert (x, s) in r'.served && (x, t) in r'.served;
      }
    }
  }

  lemma SteadyLookUp(r: Routing, rid: Rid, sid: Sid, pooled: bool, defaultShard: Shard)
    requires Accounted(r, defaultShard)
    ensures var r' := Advance(r, LookUp(rid, sid, pooled), defaultShard);
            Accounted(r', defaultShard) && (IsSteady(r') <==> IsSteady(r))
  {
    var r' := Advance(r, LookUp(rid, sid, pooled), defaultShard);
    if IsSteady(r') {
      forall x, s, t | (x, s) in r.served && (x, t) in r.served
        ensures s == t
      {
        assert (x, s) in r'.served && (x, t) in r'.served;
      }
    }
  }

  lemma BootIsSteady(pins: Pins, defaultShard: Shard)
    ensures IsSteady(AtBoot(pins)) && Accounted(AtBoot(pins), defaultShard)
  {
  }

  /** The two sections of one request without anything between them are the request handled from start to finish. */
  lemma UninterruptedIsRouted(r: Routing, rid: Rid, req: Request, defaultShard: Shard)
    requires rid !in r.missed
    ensures var shard := if |req.pool| == 1 then req.pool[0] else req.choice;
            var r' := AfterSteps(r, [LookUp(rid, req.sid, req.pool != []), Commit(rid, shard)], defaultShard);
            && (r'.pins, r'.served) == (Routed(r.pins, req, defaultShard).0,
                                        r.served + {(req.sid, Routed(r.pins, req, defaultShard).1)})
            && r'.missed == r.missed
  {
    hide Pin;
    var shard := if |req.pool| == 1 then req.pool[0] else req.choice;
    var first, second := LookUp(rid, req.sid, req.pool != []), Commit(rid, shard);
    TwoSteps(r, first, second, defaultShard);
    assert r.missed[rid := req.sid] - {rid} == r.missed;
  }

  lemma TwoSteps(r: Routing, a: Step, b: Step, defaultShard: Shard)
    ensures AfterSteps(r, [a], defaultShard) == Advance(r, a, defaultShard)
    ensures AfterSteps(r, [a, b], defaultShard) == Advance(Advance(r, a, defaultShard), b, defaultShard)
  {
    hide Advance;
    assert Init([a, b]) == [a] && Init([a]) == [];
  }

  lemma StepsConcat(r: Routing, front: seq<Step>, a: Step, b: Step, defaultShard: Shard)
    ensures AfterSteps(r, front + [a, b], defaultShard) ==
            Advance(Advance(AfterSteps(r, front, defaultShard), a, defaultShard), b, defaultShard)
  {
    hide Advance;
    var all := front + [a, b];
    assert Init(all) == front + [a] && Last(all) == b && Init(front + [a]) == front && Last(front + [a]) == a;
  }

  /** Two requests of one session, both looked up before either is placed: two shards answer for it. */
  lemma RacingRequestsSplitASession(sid: Sid, defaultShard: Shard)
    ensures var steps := [LookUp(0, sid, true), LookUp(1, sid, true), Commit(0, 1), Commit(1, 2)];
            var raced := AfterSteps(AtBoot(Pins(map[], map[])), steps, defaultShard);
            (sid, 1) in raced.served && (sid, 2) in raced.served && !IsSteady(raced)
  {
    var boot := AtBoot(Pins(map[], map[]));
    var looked := [LookUp(0, sid, true), LookUp(1, sid, true)];
    TwoSteps(boot, looked[0], looked[1], defaultShard);
    StepsConcat(boot, looked, Commit(0, 1), Commit(1, 2), defaultShard);
    assert looked + [Commit(0, 1), Commit(1, 2)]
        == [LookUp(0, sid, true), LookUp(1, sid, true), Commit(0, 1), Commit(1, 2)];
  }

  /** Even one after the other: a session first named without a pooled directory moves when it is placed later. */
  lemma DefaultAnswerIsNotSticky(sid: Sid)
    ensures var steps := [LookUp(0, sid, false), LookUp(1, sid, true), Commit(1, 2)];
            var after := AfterSteps(AtBoot(Pins(map[], map[])), steps, 1);
            (sid, 1) in after.served && (sid, 2) in after.served && !IsSteady(after)
  {
    var boot := AtBoot(Pins(map[], map[]));
    assert AfterSteps(boot, [LookUp(0, sid, false)], 1) == Advance(boot, LookUp(0, sid, false), 1) by {
      TwoSteps(boot, LookUp(0, sid, false), Commit(0, 0), 1);
    }
    StepsConcat(boot, [LookUp(0, sid, false)], LookUp(1, sid, true), Commit(1, 2), 1);
    assert [LookUp(0, sid, false)] + [LookUp(1, sid, true), Commit(1, 2)]
        == [LookUp(0, sid, false), LookUp(1, sid, true), Commit(1, 2)];
  }
}
