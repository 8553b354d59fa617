/** The sweep as the verb performs it: one pass over the streams fills the plan, one pass over the plan stamps. */
module SweepPlanner {
  import opened Prelude
  import opened AdoptionStamps
  import opened AdoptionSweep
  import opened IncrementalSweep

  /** The findings that are not adoptions, as the plan names them. */
  function NamedIn(fs: seq<Finding>, overrides: bool): seq<Finding>
    decreases |fs|
  {
    if fs == [] then []
    else
      var x := Last(fs);
      NamedIn(Init(fs), overrides) + (if (overrides && x.Override?) || (!overrides && x.Skip?) then [x] else [])
  }

  function ScannedIn(problems: seq<Problem>): nat
    decreases |problems|
  {
    if problems == [] then 0 else ScannedIn(Init(problems)) + Recommendations(Last(problems).events)
  }

  function Recommendations(events: seq<Event>): nat
    decreases |events|
  {
    if events == [] then 0 else Recommendations(Init(events)) + (if Last(events).isRecommendation then 1 else 0)
  }

  /** Where the streams hold a recommendation: problem and place in its stream. */
  ghost function Recommended(problems: seq<Problem>): set<(nat, nat)> {
    set p: nat, i: nat | p < |problems| && i < |problems[p].events| && problems[p].events[i].isRecommendation :: (p, i)
  }

  ghost function RecommendedIn(p: nat, events: seq<Event>): set<(nat, nat)> {
    set i: nat | i < |events| && events[i].isRecommendation :: (p, i)
  }

  lemma {:induction false} RecommendationsAre(p: nat, events: seq<Event>)
    ensures Recommendations(events) == |RecommendedIn(p, events)|
    decreases |events|
  {
    if events == [] {
      assert RecommendedIn(p, events) == {};
    } else {
      var front, n := Init(events), |events| - 1;
      RecommendationsAre(p, front);
      assert RecommendedIn(p, events) ==
             RecommendedIn(p, front) + (if events[n].isRecommendation then {(p, n)} else {});
    }
  }

  lemma {:induction false} ScannedAre(problems: seq<Problem>)
    ensures ScannedIn(problems) == |Recommended(problems)|
    decreases |problems|
  {
    if problems == [] {
      assert Recommended(problems) == {};
    } else {
      var front, n := Init(problems), |problems| - 1;
      ScannedAre(front);
      RecommendationsAre(n, problems[n].events);
      assert Recommended(problems) == Recommended(front) + RecommendedIn(n, problems[n].events);
    }
  }

  lemma FindingAppended(fs: seq<Finding>, x: Finding)
    ensures AdoptedIn(fs + [x]) == if x.Adopt? then AdoptedIn(fs) + [x.a] else AdoptedIn(fs)
    ensures NamedIn(fs + [x], false) == if x.Skip? then NamedIn(fs, false) + [x] else NamedIn(fs, false)
    ensures NamedIn(fs + [x], true) == if x.Override? then NamedIn(fs, true) + [x] else NamedIn(fs, true)
  {
    assert Init(fs + [x]) == fs;
  }

  lemma AdoptionAppended(adoptions: seq<Adoption>, a: Adoption, reg: Registry)
    ensures var before := PlanStamps(adoptions, reg);
            PlanStamps(adoptions + [a], reg) ==
              if Unstamped(reg, a) && Key(a) !in Keys(before) then before + [a] else before
  {
    hide Key, Unstamped;
    assert Init(adoptions + [a]) == adoptions;
  }

  lemma KeysAppended(adoptions: seq<Adoption>, a: Adoption)
    ensures Keys(adoptions + [a]) == Keys(adoptions) + {Key(a)}
  {
    hide Key;
    assert forall b :: b in adoptions + [a] <==> b in adoptions || b == a;
  }

  lemma RefAppended(refs: seq<string>, i: nat, slug: string, num: string, files: set<File>)
    requires i < |refs|
    ensures var before, f := RefFindings(refs[..i], slug, num, files), Target(refs[i]);
            RefFindings(refs[..i + 1], slug, num, files) ==
              if f !in files then before + [Skip(slug, num, refs[i])]
              else if Adopt(Adoption(f, slug, num)) in before then before
              else before + [Adopt(Adoption(f, slug, num))]
  {
    hide Target;
    assert Init(refs[..i + 1]) == refs[..i];
  }

  lemma EventAppended(slug: string, events: seq<Event>, i: nat, files: set<File>)
    requires i < |events|
    ensures events[..i + 1] == events[..i] + [events[i]]
    ensures ProblemFindings(slug, events[..i + 1], files) ==
            ProblemFindings(slug, events[..i], files) + EventFindings(slug, events[..i], events[i], files)
    ensures Recommendations(events[..i + 1]) == Recommendations(events[..i]) + (if events[i].isRecommendation then 1 else 0)
  {
    hide EventFindings;
    assert Init(events[..i + 1]) == events[..i];
  }

  lemma NothingRead(slug: string, num: string, files: set<File>)
    ensures RefFindings([], slug, num, files) == []
    ensures ProblemFindings(slug, [], files) == [] && Recommendations([]) == 0 && forall k :: Latest([], k) == []
  {
  }

  lemma ProblemAppended(problems: seq<Problem>, p: nat, files: set<File>)
    requires p < |problems|
    ensures AllFindings(problems[..p + 1], files) ==
            AllFindings(problems[..p], files) + ProblemFindings(problems[p].slug, problems[p].events, files)
    ensures ScannedIn(problems[..p + 1]) == ScannedIn(problems[..p]) + Recommendations(problems[p].events)
  {
    hide ProblemFindings, Recommendations;
    assert Init(problems[..p + 1]) == problems[..p];
  }

  class AdoptionPlan {
    const reg: Registry
    var stamps: seq<Adoption>
    var already: nat
    var skipped: seq<Finding>
    var overridden: seq<Finding>
    var scanned: nat
    var seen: set<string>
    ghost var findings: seq<Finding>

    /** Nothing found is lost: each adoption is planned or counted, everything else is named. */
    ghost predicate Valid()
      reads this
    {
      && stamps == PlanStamps(AdoptedIn(findings), reg)
      && already + |stamps| == |AdoptedIn(findings)|
      && skipped == NamedIn(findings, false)
      && overridden == NamedIn(findings, true)
      && seen == Keys(stamps)
    }

    constructor (reg: Registry)
      ensures Valid() && this.reg == reg && findings == [] && scanned == 0
    {
      this.reg := reg;
      stamps, already, skipped, overridden, scanned, seen, findings := [], 0, [], [], 0, {}, [];
    }

    method Scan()
      requires Valid()
      modifies this`scanned
      ensures Valid() && scanned == old(scanned) + 1
    {
      scanned := scanned + 1;
    }

    method NameSkip(slug: string, num: string, ref: string)
      requires Valid()
      modifies this`skipped, this`findings
      ensures Valid() && findings == old(findings) + [Skip(slug, num, ref)]
    {
      hide AdoptedIn, NamedIn, PlanStamps, Keys;
      FindingAppended(findings, Skip(slug, num, ref));
      skipped := skipped + [Skip(slug, num, ref)];
      findings := findings + [Skip(slug, num, ref)];
    }

    method NameOverride(slug: string, num: string)
      requires Valid()
      modifies this`overridden, this`findings
      ensures Valid() && findings == old(findings) + [Override(slug, num)]
    {
      hide AdoptedIn, NamedIn, PlanStamps, Keys;
      FindingAppended(findings, Override(slug, num));
      overridden := overridden + [Override(slug, num)];
      findings := findings + [Override(slug, num)];
    }

    method Plan(a: Adoption)
      requires Valid() && a.file in reg
      modifies this`stamps, this`already, this`seen, this`findings
      ensures Valid() && findings == old(findings) + [Adopt(a)]
    {
      hide IsStamped, Key, AdoptedIn, NamedIn, PlanStamps, Keys;
      FindingAppended(findings, Adopt(a));
      AdoptionAppended(AdoptedIn(findings), a, reg);
      KeysAppended(stamps, a);
      findings := findings + [Adopt(a)];
      if IsStamped(reg[a.file], RecommendOutcome, a.Ref()) || Key(a) in seen {
        already := already + 1;
      } else {
        seen := seen + {Key(a)};
        stamps := stamps + [a];
      }
    }

    /** The references of one accepted event. */
    method PlanRefs(refs: seq<string>, slug: string, num: string)
      requires Valid()
      modifies this
      ensures Valid() && scanned == old(scanned)
      ensures findings == old(findings) + RefFindings(refs, slug, num, reg.Keys)
    {
      hide Valid, Target, RefFindings;
      var stamped: set<File> := {};
      ghost var got: seq<Finding> := [];
      assert got == RefFindings(refs[..0], slug, num, reg.Keys) by { NothingRead(slug, num, reg.Keys); }
      for i := 0 to |refs|
        invariant Valid() && scanned == old(scanned)
        invariant got == RefFindings(refs[..i], slug, num, reg.Keys)
        invariant findings == old(findings) + got
        invariant forall f :: f in stamped <==> Adopt(Adoption(f, slug, num)) in got
      {
        RefAppended(refs, i, slug, num, reg.Keys);
        var f := Target(refs[i]);
        if f !in reg.Keys {
          NameSkip(slug, num, refs[i]);
          Assoc(old(findings), got, [Skip(slug, num, refs[i])]);
          got := got + [Skip(slug, num, refs[i])];
        } else if f !in stamped {
          stamped := stamped + {f};
          Plan(Adoption(f, slug, num));
          Assoc(old(findings), got, [Adopt(Adoption(f, slug, num))]);
          got := got + [Adopt(Adoption(f, slug, num))];
        }
      }
      assert refs[..|refs|] == refs;
    }

    /** One event, with the references of the latest proposal under each key. */
    method ReadEvent(slug: string, earlier: seq<Event>, e: Event, proposed: map<string, seq<string>>)
      returns (proposed': map<string, seq<string>>)
      requires Valid() && forall k :: Latest(earlier, k) == if k in proposed then proposed[k] else []
      modifies this
      ensures Valid() && scanned == old(scanned) + (if e.isRecommendation then 1 else 0)
      ensures findings == old(findings) + EventFindings(slug, earlier, e, reg.Keys)
      ensures forall k :: Latest(earlier + [e], k) == if k in proposed' then proposed'[k] else []
    {
      hide Valid, RefFindings;
      assert Init(earlier + [e]) == earlier;
      proposed' := proposed;
      if !e.isRecommendation { return; }
      Scan();
      if e.proposed { proposed' := proposed'[e.key := e.refs]; }
      if e.outcome.Overridden? {
        NameOverride(slug, e.num);
        return;
      }
      if !e.outcome.Accepted? { return; }
      PlanRefs(if e.proposed then e.refs else if e.key in proposed' then proposed'[e.key] else [], slug, e.num);
    }

    /** One problem's stream. */
    method ReadProblem(slug: string, events: seq<Event>)
      requires Valid()
      modifies this
      ensures Valid() && scanned == old(scanned) + Recommendations(events)
      ensures findings == old(findings) + ProblemFindings(slug, events, reg.Keys)
    {
      hide Valid, ProblemFindings, Recommendations, EventFindings, Latest;
      NothingRead(slug, "", reg.Keys);
      var proposed: map<string, seq<string>> := map[];
      for i := 0 to |events|
        invariant Valid() && scanned == old(scanned) + Recommendations(events[..i])
        invariant forall k :: Latest(events[..i], k) == if k in proposed then proposed[k] else []
        invariant findings == old(findings) + ProblemFindings(slug, events[..i], reg.Keys)
      {
        EventAppended(slug, events, i, reg.Keys);
        Assoc(old(findings), ProblemFindings(slug, events[..i], reg.Keys), EventFindings(slug, events[..i], events[i], reg.Keys));
        proposed := ReadEvent(slug, events[..i], events[i], proposed);
      }
      assert events[..|events|] == events;
    }
  }

  /** planAdoptionSweep. */
  method PlanAdoptionSweep(problems: seq<Problem>, reg: Registry) returns (plan: AdoptionPlan)
    ensures fresh(plan) && plan.Valid() && plan.reg == reg
    ensures plan.findings == AllFindings(problems, reg.Keys)
    ensures plan.stamps == PlanStamps(AdoptionsOf(problems, reg.Keys), reg)
    ensures plan.scanned == |Recommended(problems)|
  {
    ScannedAre(problems);
    plan := new AdoptionPlan(reg);
    for p := 0 to |problems|
      invariant fresh(plan) && plan.Valid() && plan.reg == reg
      invariant plan.findings == AllFindings(problems[..p], reg.Keys)
      invariant plan.scanned == ScannedIn(problems[..p])
    {
      hide plan.Valid, AllFindings, ProblemFindings, ScannedIn, Recommendations;
      ProblemAppended(problems, p, reg.Keys);
      plan.ReadProblem(problems[p].slug, problems[p].events);
    }
    assert problems[..|problems|] == problems;
  }

  /** The files that the stamps change, one after the other. */
  function FilesOf(stamps: seq<Adoption>): (r: seq<File>)
    ensures |r| == |stamps| && forall i :: 0 <= i < |stamps| ==> r[i] == stamps[i].file
  {
    seq(|stamps|, i requires 0 <= i < |stamps| => stamps[i].file)
  }

  /** A planned stamp is still missing when its turn comes, so it changes its note. */
  lemma StampStillMissing(reg: Registry, problems: seq<Problem>, date: string, i: nat)
    requires WellNamed(problems)
    requires i < |PlanStamps(AdoptionsOf(problems, reg.Keys), reg)|
    ensures var plan := PlanStamps(AdoptionsOf(problems, reg.Keys), reg);
            Unstamped(ApplyStamps(reg, plan[..i], date), plan[i])
  {
    var all := AdoptionsOf(problems, reg.Keys);
    NamedAdoptions(problems, reg.Keys);
    OneStampForEachKey(all, reg);
    var plan := PlanStamps(all, reg);
    var front, a := plan[..i], plan[i];
    hide PlanStamps, Named, Unstamped, ApplyStamps, SweptTo, Key, AdoptionsOf;
    assert a in plan && forall x :: x in front ==> x in plan;
    assert a !in front;
    ApplySweeps(reg, front, date);
    StillUnstamped(reg, ApplyStamps(reg, front, date), front, a);
  }

  /** The notes of the registry, rewritten one stamp at a time. */
  class RegistryNotes {
    var claims: Registry

    constructor (claims: Registry)
      ensures this.claims == claims
    {
      this.claims := claims;
    }

    /** The sweep verb with --apply; `changed` names the claim of each stamp made. */
    method SweepAndApply(problems: seq<Problem>, date: string) returns (changed: seq<File>)
      modifies this
      ensures claims == Sweep(old(claims), problems, date)
      ensures WellNamed(problems) ==> changed == FilesOf(PlanStamps(AdoptionsOf(problems, old(claims).Keys), old(claims)))
    {
      hide AdoptedIn, AllFindings, StampAdoption, PlanStamps, IsStamped;
      var plan := PlanAdoptionSweep(problems, claims);
      changed := [];
      var reg := claims;
      for i := 0 to |plan.stamps|
        invariant plan.stamps == PlanStamps(AdoptionsOf(problems, reg.Keys), reg)
        invariant claims == ApplyStamps(reg, plan.stamps[..i], date)
        invariant WellNamed(problems) ==> changed == FilesOf(plan.stamps[..i])
      {
        var a := plan.stamps[i];
        if WellNamed(problems) { StampStillMissing(reg, problems, date, i); }
        assert Init(plan.stamps[..i + 1]) == plan.stamps[..i];
        if a.file !in claims { continue; }
        var stamped := StampAdoption(claims[a.file], a.Cite(), date);
        if !IsStamped(claims[a.file], RecommendOutcome, a.Ref()) { changed := changed + [a.file]; }
        claims := claims[a.file := stamped];
      }
      assert plan.stamps[..|plan.stamps|] == plan.stamps;
    }
  }
}
