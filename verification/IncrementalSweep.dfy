/** Sweeping growing streams leaves the registry where one sweep of the full streams would. */
module IncrementalSweep {
  import opened Prelude
  import opened AdoptionStamps
  import opened AdoptionSweep

  function Fresh(c: Claim, cited: set<Adoption>): set<Adoption> {
    set a | a in cited && !IsStamped(c, RecommendOutcome, a.Ref())
  }

  function CitedOf(cited: set<Adoption>, f: File): set<Adoption> {
    set a | a in cited && a.file == f
  }

  /** What stamping the cited adoptions, in whatever order and portions, does to one claim. */
  ghost predicate ClaimSwept(c: Claim, f: File, cited: set<Adoption>, c': Claim) {
    && (forall b: Adoption :: Named(b) && b.file == f ==>
        (IsStamped(c', RecommendOutcome, b.Ref()) <==> IsStamped(c, RecommendOutcome, b.Ref()) || b in cited))
    && (if Fresh(c, cited) == {} then c' == c
        else c'.applied == (if c.applied > 0 then c.applied else 0) + |Fresh(c, cited)|)
  }

  ghost predicate SweptTo(reg: Registry, cited: set<Adoption>, reg': Registry) {
    && reg'.Keys == reg.Keys
    && forall f :: f in reg ==> ClaimSwept(reg[f], f, CitedOf(cited, f), reg'[f])
  }

  ghost predicate AllNamed(cited: set<Adoption>) {
    forall a :: a in cited ==> Named(a)
  }

  lemma ClaimComposes(c0: Claim, c1: Claim, c2: Claim, f: File, a: set<Adoption>, b: set<Adoption>)
    requires ClaimSwept(c0, f, a, c1) && ClaimSwept(c1, f, b, c2)
    requires forall x :: x in a + b ==> Named(x) && x.file == f
    ensures ClaimSwept(c0, f, a + b, c2)
  {
    hide IsStamped, Named;
    assert Fresh(c1, b) !! Fresh(c0, a);
    assert Fresh(c0, a + b) == Fresh(c0, a) + Fresh(c1, b);
    assert |Fresh(c0, a + b)| == |Fresh(c0, a)| + |Fresh(c1, b)|;
  }

  lemma CitedOfSum(a: set<Adoption>, b: set<Adoption>, f: File)
    ensures CitedOf(a + b, f) == CitedOf(a, f) + CitedOf(b, f)
  {
  }

  lemma ClaimOf(reg: Registry, cited: set<Adoption>, reg': Registry, f: File)
    requires SweptTo(reg, cited, reg') && f in reg
    ensures f in reg' && ClaimSwept(reg[f], f, CitedOf(cited, f), reg'[f])
  {
    hide ClaimSwept;
    assert f in reg'.Keys;
  }

  lemma ClaimComposesIn(r0: Registry, r1: Registry, r2: Registry, a: set<Adoption>, b: set<Adoption>, f: File)
    requires SweptTo(r0, a, r1) && SweptTo(r1, b, r2) && AllNamed(a + b) && f in r0
    ensures f in r2 && ClaimSwept(r0[f], f, CitedOf(a + b, f), r2[f])
  {
    ClaimOf(r0, a, r1, f);
    ClaimOf(r1, b, r2, f);
    hide ClaimSwept, SweptTo, Named;
    CitedOfSum(a, b, f);
    ClaimComposes(r0[f], r1[f], r2[f], f, CitedOf(a, f), CitedOf(b, f));
  }

  lemma SweepsCompose(r0: Registry, r1: Registry, r2: Registry, a: set<Adoption>, b: set<Adoption>)
    requires SweptTo(r0, a, r1) && SweptTo(r1, b, r2) && AllNamed(a + b)
    ensures SweptTo(r0, a + b, r2)
  {
    hide ClaimSwept, CitedOf, AllNamed;
    assert r2.Keys == r1.Keys == r0.Keys;
    forall f | f in r0
      ensures f in r2 && ClaimSwept(r0[f], f, CitedOf(a + b, f), r2[f])
    {
      hide SweptTo;
      ClaimComposesIn(r0, r1, r2, a, b, f);
    }
  }

  lemma StampedAddNothingTo(c: Claim, f: File, few: set<Adoption>, all: set<Adoption>, c': Claim)
    requires ClaimSwept(c, f, few, c') && few <= all
    requires forall a :: a in all && a !in few ==> IsStamped(c, RecommendOutcome, a.Ref())
    ensures ClaimSwept(c, f, all, c')
  {
    hide IsStamped, Named;
    assert Fresh(c, all) == Fresh(c, few);
  }

  /** Adoptions that are already stamped make no difference. */
  lemma StampedAddNothing(reg: Registry, few: set<Adoption>, all: set<Adoption>, reg': Registry)
    requires SweptTo(reg, few, reg') && few <= all && AllNamed(all)
    requires forall a :: a in all && Unstamped(reg, a) ==> a in few
    ensures SweptTo(reg, all, reg')
  {
    hide IsStamped, Named, ClaimSwept;
    forall f | f in reg
      ensures ClaimSwept(reg[f], f, CitedOf(all, f), reg'[f])
    {
      ClaimOf(reg, few, reg', f);
      forall a | a in CitedOf(all, f) && a !in CitedOf(few, f)
        ensures IsStamped(reg[f], RecommendOutcome, a.Ref())
      {
        assert a !in few;
      }
      StampedAddNothingTo(reg[f], f, CitedOf(few, f), CitedOf(all, f), reg'[f]);
    }
  }

  lemma OneStamp(c: Claim, a: Adoption, date: string)
    requires Named(a) && !IsStamped(c, RecommendOutcome, a.Ref())
    ensures ClaimSwept(c, a.file, {a}, StampAdoption(c, a.Cite(), date))
  {
    forall b: Adoption | Named(b) && b.file == a.file
      ensures IsStamped(Stamped(c, a.Cite(), date), RecommendOutcome, b.Ref()) <==>
              IsStamped(c, RecommendOutcome, b.Ref()) || b in {a}
    {
      SweepStampIsExact(c, a, b, date);
    }
    assert Fresh(c, {a}) == {a};
  }

  lemma StampOne(reg: Registry, a: Adoption, date: string)
    requires Named(a) && Unstamped(reg, a)
    ensures SweptTo(reg, {a}, reg[a.file := StampAdoption(reg[a.file], a.Cite(), date)])
  {
    hide IsStamped, Named, StampAdoption;
    OneStamp(reg[a.file], a, date);
    assert CitedOf({a}, a.file) == {a};
    forall f | f in reg && f != a.file
      ensures ClaimSwept(reg[f], f, CitedOf({a}, f), reg[f])
    {
      assert Fresh(reg[f], CitedOf({a}, f)) == {};
    }
  }

  lemma NothingSwept(reg: Registry)
    ensures SweptTo(reg, {}, reg)
  {
    forall f | f in reg
      ensures ClaimSwept(reg[f], f, CitedOf({}, f), reg[f])
    {
      assert Fresh(reg[f], CitedOf({}, f)) == {};
    }
  }

  lemma ApplyOneMore(reg: Registry, front: seq<Adoption>, a: Adoption, mid: Registry, date: string)
    requires SweptTo(reg, Elements(front), mid) && AllNamed(Elements(front)) && a !in front && Named(a) && Unstamped(reg, a)
    ensures a.file in mid
    ensures SweptTo(reg, Elements(front) + {a}, mid[a.file := StampAdoption(mid[a.file], a.Cite(), date)])
  {
    StillUnstamped(reg, mid, front, a);
    assert a.file in mid;
    hide ClaimSwept, StampAdoption, Named, IsStamped, SweptTo;
    StampOne(mid, a, date);
    SweepsCompose(reg, mid, mid[a.file := StampAdoption(mid[a.file], a.Cite(), date)], Elements(front), {a});
  }

  lemma {:induction false} ApplySweeps(reg: Registry, stamps: seq<Adoption>, date: string)
    requires Distinct(stamps) && AllNamed(Elements(stamps)) && forall a :: a in stamps ==> Unstamped(reg, a)
    ensures SweptTo(reg, Elements(stamps), ApplyStamps(reg, stamps, date))
    decreases |stamps|
  {
    if stamps == [] {
      NothingSwept(reg);
    } else {
      hide ClaimSwept, StampAdoption, Named, IsStamped, SweptTo, Unstamped;
      var front, a := Init(stamps), Last(stamps);
      assert stamps == front + [a];
      assert Elements(stamps) == Elements(front) + {a};
      ApplySweeps(reg, front, date);
      ApplyOneMore(reg, front, a, ApplyStamps(reg, front, date), date);
    }
  }

  lemma StillUnstamped(reg: Registry, mid: Registry, front: seq<Adoption>, a: Adoption)
    requires SweptTo(reg, Elements(front), mid) && a !in front && Named(a) && Unstamped(reg, a)
    ensures Unstamped(mid, a)
  {
    assert ClaimSwept(reg[a.file], a.file, CitedOf(Elements(front), a.file), mid[a.file]);
  }

  // ---- streams and their prefixes -------------------------------------------------------------------

  /** Directory names and number texts, as the sweep reads them. */
  ghost predicate WellNamed(problems: seq<Problem>) {
    forall p :: p in problems ==> Lacks(p.slug, '/') && EventsNamed(p.events)
  }

  ghost predicate EventsNamed(events: seq<Event>) {
    forall e :: e in events ==> Lacks(e.num, '/') && Lacks(e.num, ' ')
  }

  lemma {:induction false} RefFindingsNamed(refs: seq<string>, slug: string, num: string, files: set<File>)
    ensures forall x :: x in RefFindings(refs, slug, num, files) && x.Adopt? ==>
              x.a.slug == slug && x.a.num == num && x.a.file in files && Lacks(x.a.file, '/')
    decreases |refs|
  {
    if refs != [] {
      RefFindingsNamed(Init(refs), slug, num, files);
    }
  }

  lemma {:induction false} ProblemNamed(slug: string, events: seq<Event>, files: set<File>)
    requires Lacks(slug, '/') && EventsNamed(events)
    ensures forall x :: x in ProblemFindings(slug, events, files) && x.Adopt? ==> Named(x.a) && x.a.file in files
    decreases |events|
  {
    if events != [] {
      var e, early := Last(events), Init(events);
      ProblemNamed(slug, early, files);
      RefFindingsNamed(if e.proposed then e.refs else Latest(early, e.key), slug, e.num, files);
      assert e in events;
    }
  }

  lemma {:induction false} AllAdoptionsNamed(problems: seq<Problem>, files: set<File>)
    requires WellNamed(problems)
    ensures forall x :: x in AllFindings(problems, files) && x.Adopt? ==> Named(x.a) && x.a.file in files
    decreases |problems|
  {
    if problems != [] {
      assert problems == Init(problems) + [Last(problems)];
      AllAdoptionsNamed(Init(problems), files);
      ProblemNamed(Last(problems).slug, Last(problems).events, files);
    }
  }

  /** Every stream of `ps` is a beginning of the same problem's stream in `qs`. */
  ghost predicate IsEarlier(ps: seq<Problem>, qs: seq<Problem>) {
    forall p :: p in ps ==> exists q :: q in qs && q.slug == p.slug && p.events <= q.events
  }

  lemma {:induction false} ProblemFindingsGrow(slug: string, early: seq<Event>, late: seq<Event>, files: set<File>)
    requires early <= late
    ensures ProblemFindings(slug, early, files) <= ProblemFindings(slug, late, files)
    decreases |late|
  {
    if early != late {
      ProblemFindingsGrow(slug, early, Init(late), files);
    }
  }

  lemma {:induction false} InAllFindings(problems: seq<Problem>, files: set<File>, x: Finding)
    ensures x in AllFindings(problems, files) <==>
            exists p :: p in problems && x in ProblemFindings(p.slug, p.events, files)
    decreases |problems|
  {
    if problems != [] {
      hide ProblemFindings;
      assert problems == Init(problems) + [Last(problems)];
      InAllFindings(Init(problems), files, x);
    }
  }

  /** What the streams cite is exactly what their events record. */
  lemma CitedIff(problems: seq<Problem>, files: set<File>, a: Adoption)
    ensures a in AdoptionsOf(problems, files) <==>
            exists p: Problem, j: nat :: p in problems && p.slug == a.slug && RecordsAdoption(p.events, j, a, files)
  {
    hide ProblemFindings, RecordsAdoption;
    InAllFindings(problems, files, Adopt(a));
    forall p: Problem
      ensures Adopt(a) in ProblemFindings(p.slug, p.events, files) <==>
              exists j: nat :: p.slug == a.slug && RecordsAdoption(p.events, j, a, files)
    {
      ProblemFindingsIff(p.slug, p.events, files, Adopt(a));
      assert forall j: nat :: Records(p.slug, p.events, j, Adopt(a), files) <==>
                         a.slug == p.slug && RecordsAdoption(p.events, j, a, files);
    }
  }

  /** What an earlier reading of the streams cites, the later one cites too. */
  lemma CitationsGrow(ps: seq<Problem>, qs: seq<Problem>, files: set<File>)
    requires IsEarlier(ps, qs)
    ensures Elements(AdoptionsOf(ps, files)) <= Elements(AdoptionsOf(qs, files))
  {
    forall a | a in AdoptionsOf(ps, files)
      ensures a in AdoptionsOf(qs, files)
    {
      InAllFindings(ps, files, Adopt(a));
      var p :| p in ps && Adopt(a) in ProblemFindings(p.slug, p.events, files);
      var q :| q in qs && q.slug == p.slug && p.events <= q.events;
      ProblemFindingsGrow(p.slug, p.events, q.events, files);
      InAllFindings(qs, files, Adopt(a));
    }
  }

  // ---- sweeps ---------------------------------------------------------------------------------------

  lemma NamedAdoptions(problems: seq<Problem>, files: set<File>)
    requires WellNamed(problems)
    ensures AllNamed(Elements(AdoptionsOf(problems, files)))
    ensures forall a :: a in AdoptionsOf(problems, files) ==> Named(a) && a.file in files
  {
    AllAdoptionsNamed(problems, files);
  }

  /** The adoptions that the streams cite have plan keys of their own, as far as the registry lacks them. */
  ghost predicate CitedApart(reg: Registry, problems: seq<Problem>) {
    KeysApart(AdoptionsOf(problems, reg.Keys), reg)
  }

  lemma NoBarIsApart(reg: Registry, problems: seq<Problem>)
    requires WellNamed(problems) && NoBar(reg.Keys)
    ensures CitedApart(reg, problems)
  {
    NamedAdoptions(problems, reg.Keys);
    NoBarKeysApart(AdoptionsOf(problems, reg.Keys), reg);
  }

  /** Whatever the keys, a sweep does what its plan says. */
  lemma SweepStampsPlan(reg: Registry, problems: seq<Problem>, date: string)
    requires WellNamed(problems)
    ensures SweptTo(reg, Elements(PlanStamps(AdoptionsOf(problems, reg.Keys), reg)), Sweep(reg, problems, date))
  {
    var all := AdoptionsOf(problems, reg.Keys);
    NamedAdoptions(problems, reg.Keys);
    OneStampForEachKey(all, reg);
    hide SweptTo, Named, Unstamped, PlanStamps, ApplyStamps, AdoptionsOf;
    ApplySweeps(reg, PlanStamps(all, reg), date);
  }

  /** An adoption that shares its key with a planned one is left for later. */
  lemma SomeLeftOut(reg: Registry, problems: seq<Problem>, date: string) returns (a: Adoption)
    requires WellNamed(problems) && !CitedApart(reg, problems)
    ensures a in AdoptionsOf(problems, reg.Keys) && Named(a) && Unstamped(reg, a)
    ensures Unstamped(Sweep(reg, problems, date), a)
  {
    var all := AdoptionsOf(problems, reg.Keys);
    var plan := PlanStamps(all, reg);
    CompleteIffKeysApart(all, reg);
    NamedAdoptions(problems, reg.Keys);
    SweepStampsPlan(reg, problems, date);
    hide SweptTo, Named, Unstamped, PlanStamps, AdoptionsOf, Sweep, KeysApart;
    a :| a in all && Unstamped(reg, a) && a !in plan;
    StillUnstamped(reg, Sweep(reg, problems, date), plan, a);
  }

  lemma CitedAreStamped(reg: Registry, cited: set<Adoption>, reg': Registry, a: Adoption)
    requires SweptTo(reg, cited, reg') && a in cited && Named(a)
    ensures !Unstamped(reg', a)
  {
    if a.file in reg {
      ClaimOf(reg, cited, reg', a.file);
      assert a in CitedOf(cited, a.file);
    }
  }

  /** A sweep stamps exactly what its streams cite and the registry lacks, precisely when those have keys of their own. */
  lemma SweepStampsCitations(reg: Registry, problems: seq<Problem>, date: string)
    requires WellNamed(problems)
    ensures CitedApart(reg, problems) <==>
            SweptTo(reg, Elements(AdoptionsOf(problems, reg.Keys)), Sweep(reg, problems, date))
  {
    var all := AdoptionsOf(problems, reg.Keys);
    NamedAdoptions(problems, reg.Keys);
    if CitedApart(reg, problems) {
      CompleteIffKeysApart(all, reg);
      SweepStampsPlan(reg, problems, date);
      hide SweptTo, Named, Unstamped, PlanStamps, AdoptionsOf, Sweep, KeysApart;
      StampedAddNothing(reg, Elements(PlanStamps(all, reg)), Elements(all), Sweep(reg, problems, date));
    } else {
      hide SweptTo, Named, Unstamped, PlanStamps, AdoptionsOf, Sweep, KeysApart;
      var a := SomeLeftOut(reg, problems, date);
      if SweptTo(reg, Elements(all), Sweep(reg, problems, date)) {
        CitedAreStamped(reg, Elements(all), Sweep(reg, problems, date), a);
      }
    }
  }

  /** The nightly sweeps, one after the other. */
  function SweepAll(reg: Registry, nights: seq<seq<Problem>>, dates: seq<string>): (r: Registry)
    requires |dates| == |nights|
    ensures r.Keys == reg.Keys
    decreases |nights|
  {
    if nights == [] then reg else Sweep(SweepAll(reg, Init(nights), Init(dates)), Last(nights), Last(dates))
  }

  /** Each night read every stream no further than `full` does. */
  ghost predicate Nightly(nights: seq<seq<Problem>>, dates: seq<string>, full: seq<Problem>) {
    && |dates| == |nights|
    && forall ps :: ps in nights ==> WellNamed(ps) && IsEarlier(ps, full)
  }

  lemma StaysUnstamped(reg: Registry, cited: set<Adoption>, reg': Registry, a: Adoption)
    requires SweptTo(reg, cited, reg') && Named(a) && Unstamped(reg', a)
    ensures Unstamped(reg, a)
  {
    assert a.file in reg'.Keys;
    ClaimOf(reg, cited, reg', a.file);
  }

  /** Sweeping only removes clashes: fewer citations over a registry that lacks fewer of them. */
  lemma ApartStays(reg: Registry, cited: set<Adoption>, mid: Registry, full: seq<Problem>, part: seq<Problem>)
    requires WellNamed(full) && IsEarlier(part, full) && CitedApart(reg, full) && SweptTo(reg, cited, mid)
    ensures CitedApart(mid, part)
  {
    CitationsGrow(part, full, reg.Keys);
    NamedAdoptions(full, reg.Keys);
    assert mid.Keys == reg.Keys;
    hide SweptTo, Named, Unstamped, AdoptionsOf, Key;
    var few, all := AdoptionsOf(part, reg.Keys), AdoptionsOf(full, reg.Keys);
    forall a, b | a in few && b in few && Unstamped(mid, a) && Unstamped(mid, b) && Key(a) == Key(b)
      ensures a == b
    {
      assert a in Elements(few) && b in Elements(few) && a in all && b in all;
      StaysUnstamped(reg, cited, mid, a);
      StaysUnstamped(reg, cited, mid, b);
    }
  }

  lemma IsEarlierThanItself(full: seq<Problem>)
    ensures IsEarlier(full, full)
  {
    forall p | p in full
      ensures exists q :: q in full && q.slug == p.slug && p.events <= q.events
    {
      assert p.events <= p.events;
    }
  }

  lemma {:induction false} NightsStay(reg: Registry, nights: seq<seq<Problem>>, dates: seq<string>, full: seq<Problem>)
    requires Nightly(nights, dates, full) && WellNamed(full) && CitedApart(reg, full)
    ensures exists cited :: cited <= Elements(AdoptionsOf(full, reg.Keys)) && SweptTo(reg, cited, SweepAll(reg, nights, dates))
    decreases |nights|
  {
    var all := Elements(AdoptionsOf(full, reg.Keys));
    if nights == [] {
      NothingSwept(reg);
      assert {} <= all && SweptTo(reg, {}, SweepAll(reg, nights, dates));
    } else {
      hide AdoptionsOf, Sweep, SweptTo, WellNamed, IsEarlier, CitedApart;
      var front, last := Init(nights), Last(nights);
      assert nights == front + [last] && last in nights;
      NightsStay(reg, front, Init(dates), full);
      var mid := SweepAll(reg, front, Init(dates));
      var cited :| cited <= all && SweptTo(reg, cited, mid);
      ApartStays(reg, cited, mid, full, last);
      SweepStampsCitations(mid, last, Last(dates));
      CitationsGrow(last, full, reg.Keys);
      NamedAdoptions(full, reg.Keys);
      var more := Elements(AdoptionsOf(last, reg.Keys));
      assert AllNamed(cited + more);
      SweepsCompose(reg, mid, SweepAll(reg, nights, dates), cited, more);
      assert cited + more <= all;
    }
  }

  lemma FullAfterNights(reg: Registry, nights: seq<seq<Problem>>, dates: seq<string>, full: seq<Problem>, date: string)
    requires Nightly(nights, dates, full) && WellNamed(full) && CitedApart(reg, full)
    ensures SweptTo(reg, Elements(AdoptionsOf(full, reg.Keys)), Sweep(SweepAll(reg, nights, dates), full, date))
  {
    hide AdoptionsOf, Sweep, SweepAll, WellNamed, SweptTo, IsEarlier, CitedApart;
    var all := Elements(AdoptionsOf(full, reg.Keys));
    var before := SweepAll(reg, nights, dates);
    NightsStay(reg, nights, dates, full);
    var cited :| cited <= all && SweptTo(reg, cited, before);
    IsEarlierThanItself(full);
    ApartStays(reg, cited, before, full, full);
    SweepStampsCitations(before, full, date);
    NamedAdoptions(full, reg.Keys);
    assert cited + all == all;
    SweepsCompose(reg, before, Sweep(before, full, date), cited, all);
  }

  /** The same claims with the same applied counts and the same citations. */
  ghost predicate Alike(r: Registry, r': Registry) {
    && r.Keys == r'.Keys
    && (forall f :: f in r ==> r[f].applied == r'[f].applied)
    && forall b: Adoption :: Named(b) ==> (Unstamped(r, b) <==> Unstamped(r', b))
  }

  lemma SweptAlike(reg: Registry, cited: set<Adoption>, r: Registry, r': Registry)
    requires SweptTo(reg, cited, r) && SweptTo(reg, cited, r')
    ensures Alike(r, r')
  {
    hide Named, IsStamped;
    forall f | f in r
      ensures f in r' && r[f].applied == r'[f].applied
      ensures forall b: Adoption :: Named(b) && b.file == f ==> (Unstamped(r, b) <==> Unstamped(r', b))
    {
      assert f in r.Keys && f in reg.Keys;
      ClaimOf(reg, cited, r, f);
      ClaimOf(reg, cited, r', f);
    }
  }

  /** However the streams were swept as they grew, a last sweep of the full streams leaves what one sweep would. */
  ghost predicate HistoryDoesNotMatter(reg: Registry, full: seq<Problem>, date: string) {
    forall nights, dates :: Nightly(nights, dates, full) ==>
      Alike(Sweep(SweepAll(reg, nights, dates), full, date), Sweep(reg, full, date))
  }

  lemma IncrementalEqualsBatch(reg: Registry, nights: seq<seq<Problem>>, dates: seq<string>, full: seq<Problem>, date: string)
    requires Nightly(nights, dates, full) && WellNamed(full) && CitedApart(reg, full)
    ensures Alike(Sweep(SweepAll(reg, nights, dates), full, date), Sweep(reg, full, date))
  {
    hide AdoptionsOf, Sweep, SweepAll, WellNamed, SweptTo, IsEarlier, CitedApart, Alike;
    FullAfterNights(reg, nights, dates, full, date);
    SweepStampsCitations(reg, full, date);
    SweptAlike(reg, Elements(AdoptionsOf(full, reg.Keys)), Sweep(SweepAll(reg, nights, dates), full, date), Sweep(reg, full, date));
  }

  /** While some cited adoption is unstamped, one more sweep stamps one. */
  lemma OneMoreSweepStamps(reg: Registry, problems: seq<Problem>, date: string, a: Adoption)
    requires WellNamed(problems) && a in AdoptionsOf(problems, reg.Keys) && Unstamped(reg, a)
    ensures PlanStamps(AdoptionsOf(problems, reg.Keys), reg) != []
    ensures !Alike(Sweep(reg, problems, date), reg)
  {
    var all := AdoptionsOf(problems, reg.Keys);
    var plan := PlanStamps(all, reg);
    OneStampForEachKey(all, reg);
    NamedAdoptions(problems, reg.Keys);
    SweepStampsPlan(reg, problems, date);
    hide SweptTo, Named, Unstamped, PlanStamps, AdoptionsOf, Sweep, Key;
    assert Key(a) in Keys(plan);
    var b :| b in plan && Key(b) == Key(a);
    CitedAreStamped(reg, Elements(plan), Sweep(reg, problems, date), b);
  }

  /** The history of sweeps makes no difference exactly when the cited adoptions have keys of their own. */
  lemma IncrementalEqualsBatchIff(reg: Registry, full: seq<Problem>, date: string)
    requires WellNamed(full)
    ensures CitedApart(reg, full) <==> HistoryDoesNotMatter(reg, full, date)
  {
    hide AdoptionsOf, Sweep, WellNamed, IsEarlier, CitedApart, Alike;
    if CitedApart(reg, full) {
      forall nights, dates | Nightly(nights, dates, full)
        ensures Alike(Sweep(SweepAll(reg, nights, dates), full, date), Sweep(reg, full, date))
      {
        IncrementalEqualsBatch(reg, nights, dates, full, date);
      }
    } else {
      var once := Sweep(reg, full, date);
      var a := SomeLeftOut(reg, full, date);
      OneMoreSweepStamps(once, full, date, a);
      IsEarlierThanItself(full);
      var nights, dates := [full], [date];
      assert Init(nights) == [] && Init(dates) == [];
      assert SweepAll(reg, nights, dates) == once;
      assert Nightly(nights, dates, full);
    }
  }

  /** Sweeping the same streams again plans nothing exactly under the same condition. */
  lemma ResweepPlansNothingIff(reg: Registry, full: seq<Problem>, date: string)
    requires WellNamed(full)
    ensures var swept := Sweep(reg, full, date);
            CitedApart(reg, full) <==> PlanStamps(AdoptionsOf(full, swept.Keys), swept) == []
  {
    if CitedApart(reg, full) {
      IsEarlierThanItself(full);
      ResweepPlansNothing(reg, full, date, full);
    } else {
      hide AdoptionsOf, Sweep, WellNamed, CitedApart, PlanStamps, Alike;
      var a := SomeLeftOut(reg, full, date);
      OneMoreSweepStamps(Sweep(reg, full, date), full, date, a);
    }
  }

  /** Then nor does any earlier state of the streams. */
  lemma ResweepPlansNothing(reg: Registry, full: seq<Problem>, date: string, again: seq<Problem>)
    requires WellNamed(full) && CitedApart(reg, full) && WellNamed(again) && IsEarlier(again, full)
    ensures var swept := Sweep(reg, full, date);
            PlanStamps(AdoptionsOf(again, swept.Keys), swept) == []
  {
    var swept := Sweep(reg, full, date);
    SweepStampsCitations(reg, full, date);
    NamedAdoptions(full, reg.Keys);
    CitationsGrow(again, full, reg.Keys);
    var plan := PlanStamps(AdoptionsOf(again, swept.Keys), swept);
    hide AdoptionsOf, Sweep, PlanStamps, WellNamed, Named, SweptTo, Unstamped;
    var all := Elements(AdoptionsOf(full, reg.Keys));
    forall a | a in AdoptionsOf(again, reg.Keys)
      ensures !Unstamped(swept, a)
    {
      assert a in Elements(AdoptionsOf(again, reg.Keys)) && a in all;
      CitedAreStamped(reg, all, swept, a);
    }
    EmptyTogether(plan, []);
  }
}
