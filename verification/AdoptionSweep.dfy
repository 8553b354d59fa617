/** The adoption sweep: re-reading the recommendation streams stamps each adoption once, however it is split. */
module AdoptionSweep {
  import opened Prelude
  import opened AdoptionStamps

  datatype Outcome = NoOutcome | Accepted | Overridden | OtherOutcome

  datatype Event = Event(isRecommendation: bool, proposed: bool, key: string, refs: seq<string>,
                         outcome: Outcome, num: string)

  datatype Problem = Problem(slug: string, events: seq<Event>)

  type Registry = map<File, Claim>

  // ---- what the streams say -------------------------------------------------------------------------

  /** After the last slash. */
  function Segment(ref: string): (s: string)
    ensures Lacks(s, '/')
    decreases |ref|
  {
    if ref == [] || Last(ref) == '/' then [] else Segment(Init(ref)) + [Last(ref)]
  }

  function Target(ref: string): (f: File)
    ensures Lacks(f, '/')
  {
    var s := Segment(ref);
    if |s| >= 3 && s[|s| - 3..] == ".md" then s else s + ".md"
  }

  /** `name` is what stands after the last slash of `ref`. */
  predicate Names(ref: string, name: string) {
    && Lacks(name, '/') && |name| <= |ref| && ref[|ref| - |name|..] == name
    && (|name| == |ref| || ref[|ref| - |name| - 1] == '/')
  }

  predicate IsNote(f: File) {
    |f| >= 3 && f[|f| - 3..] == ".md"
  }

  lemma {:induction false} SegmentIff(ref: string, name: string)
    ensures Segment(ref) == name <==> Names(ref, name)
    decreases |ref|
  {
    if ref != [] && Last(ref) != '/' {
      var front := Init(ref);
      SegmentIff(front, Segment(front));
      assert ref == front + [Last(ref)];
      if Names(ref, name) {
        NamesLast(ref, name);
        SegmentIff(front, Init(name));
        assert name == Init(name) + [Last(name)];
      }
    } else if 0 < |name| <= |ref| && ref[|ref| - |name|..] == name {
      assert Last(name) in name && Last(name) == Last(ref);
    }
  }

  lemma NamesLast(ref: string, name: string)
    requires Names(ref, name) && ref != [] && Last(ref) != '/'
    ensures name != [] && Last(name) == Last(ref) && Names(Init(ref), Init(name))
  {
    assert Last(name) == ref[|ref| - |name|..][|name| - 1];
    assert Init(ref)[|ref| - |name|..] == Init(name);
  }

  /** A reference names a note by its file name or by its stem, with any path before it; nothing else names it. */
  lemma TargetIff(ref: string, f: File)
    ensures Target(ref) == f <==> IsNote(f) && (Names(ref, f) || (Names(ref, f[..|f| - 3]) && !IsNote(f[..|f| - 3])))
  {
    var s := Segment(ref);
    SegmentIff(ref, s);
    if IsNote(f) {
      var stem := f[..|f| - 3];
      SegmentIff(ref, f);
      SegmentIff(ref, stem);
      assert f == stem + ".md";
    }
    if !IsNote(s) {
      assert (s + ".md")[|s|..] == ".md" && (s + ".md")[..|s|] == s;
    }
  }

  datatype Finding =
    | Adopt(a: Adoption)
    | Skip(slug: string, num: string, ref: string)
    | Override(slug: string, num: string)

  /** One adoption per event and claim, however often and however phrased the claim is referred to. */
  function RefFindings(refs: seq<string>, slug: string, num: string, files: set<File>): seq<Finding>
    decreases |refs|
  {
    if refs == [] then []
    else
      var before := RefFindings(Init(refs), slug, num, files);
      var f := Target(Last(refs));
      if f !in files then before + [Skip(slug, num, Last(refs))]
      else if Adopt(Adoption(f, slug, num)) in before then before
      else before + [Adopt(Adoption(f, slug, num))]
  }

  /** The references of the key's latest proposal. */
  function Latest(events: seq<Event>, key: string): seq<string>
    decreases |events|
  {
    if events == [] then []
    else if Last(events).isRecommendation && Last(events).proposed && Last(events).key == key then Last(events).refs
    else Latest(Init(events), key)
  }

  function EventFindings(slug: string, earlier: seq<Event>, e: Event, files: set<File>): seq<Finding> {
    if !e.isRecommendation then []
    else
      match e.outcome
      case Overridden => [Override(slug, e.num)]
      case Accepted => RefFindings(if e.proposed then e.refs else Latest(earlier, e.key), slug, e.num, files)
      case _ => []
  }

  function ProblemFindings(slug: string, events: seq<Event>, files: set<File>): seq<Finding>
    decreases |events|
  {
    if events == [] then []
    else ProblemFindings(slug, Init(events), files) + EventFindings(slug, Init(events), Last(events), files)
  }

  function AllFindings(problems: seq<Problem>, files: set<File>): seq<Finding>
    decreases |problems|
  {
    if problems == [] then []
    else AllFindings(Init(problems), files) + ProblemFindings(Last(problems).slug, Last(problems).events, files)
  }

  // ---- what a finding means --------------------------------------------------------------------------

  /** Event i proposes under the key, and no event between it and j does. */
  ghost predicate LatestProposal(events: seq<Event>, i: int, j: nat, key: string) {
    && 0 <= i < j <= |events| && Proposes(events[i], key)
    && forall k :: i < k < j ==> !Proposes(events[k], key)
  }

  predicate Proposes(e: Event, key: string) {
    e.isRecommendation && e.proposed && e.key == key
  }

  /** Event j refers to `ref`: by itself if it proposes, else through the latest proposal before it. */
  ghost predicate RefersTo(events: seq<Event>, j: nat, ref: string)
    requires j < |events|
  {
    if events[j].proposed then ref in events[j].refs
    else exists i :: LatestProposal(events, i, j, events[j].key) && ref in events[i].refs
  }

  /** The stream records an adoption: an accepted recommendation refers to a claim of the registry. */
  ghost predicate RecordsAdoption(events: seq<Event>, j: nat, a: Adoption, files: set<File>) {
    && j < |events| && events[j].isRecommendation && events[j].outcome.Accepted?
    && a.num == events[j].num && a.file in files
    && exists ref :: RefersTo(events, j, ref) && Target(ref) == a.file
  }

  /** A reference that names no claim of the registry. */
  ghost predicate RecordsSkip(events: seq<Event>, j: nat, num: string, ref: string, files: set<File>) {
    && j < |events| && events[j].isRecommendation && events[j].outcome.Accepted?
    && num == events[j].num && RefersTo(events, j, ref) && Target(ref) !in files
  }

  ghost predicate RecordsOverride(events: seq<Event>, j: nat, num: string) {
    j < |events| && events[j].isRecommendation && events[j].outcome.Overridden? && num == events[j].num
  }

  /** What one reference comes to. */
  predicate Gives(ref: string, slug: string, num: string, files: set<File>, x: Finding) {
    if Target(ref) in files then x == Adopt(Adoption(Target(ref), slug, num)) else x == Skip(slug, num, ref)
  }

  lemma OneRefMore(refs: seq<string>, slug: string, num: string, files: set<File>, x: Finding)
    requires refs != []
    ensures x in RefFindings(refs, slug, num, files) <==>
            x in RefFindings(Init(refs), slug, num, files) || Gives(Last(refs), slug, num, files, x)
  {
    hide Target;
  }

  lemma NoRefsNothing(slug: string, num: string, files: set<File>)
    ensures RefFindings([], slug, num, files) == []
  {
  }

  lemma {:induction false} RefFindingsIff(refs: seq<string>, slug: string, num: string, files: set<File>, x: Finding)
    ensures x in RefFindings(refs, slug, num, files) <==> exists r :: r in refs && Gives(r, slug, num, files, x)
    decreases |refs|
  {
    hide Gives, RefFindings, Target;
    if refs == [] {
      NoRefsNothing(slug, num, files);
    } else {
      RefFindingsIff(Init(refs), slug, num, files, x);
      OneRefMore(refs, slug, num, files, x);
      assert refs == Init(refs) + [Last(refs)];
      assert forall r :: r in refs <==> r in Init(refs) || r == Last(refs);
    }
  }

  lemma {:induction false} LatestIs(events: seq<Event>, key: string, ref: string)
    ensures ref in Latest(events, key) <==> exists i :: LatestProposal(events, i, |events|, key) && ref in events[i].refs
    decreases |events|
  {
    if events != [] {
      var front, n := Init(events), |events| - 1;
      LatestIs(front, key, ref);
      if Proposes(events[n], key) {
        assert ref in events[n].refs ==> LatestProposal(events, n, |events|, key);
      } else {
        assert forall i :: LatestProposal(events, i, |events|, key) <==> LatestProposal(front, i, |front|, key);
      }
    }
  }

  /** Only earlier events count for event j. */
  lemma RefersInPrefix(events: seq<Event>, j: nat, ref: string)
    requires j < |events|
    ensures RefersTo(events, j, ref) <==>
            if events[j].proposed then ref in events[j].refs else ref in Latest(events[..j], events[j].key)
  {
    LatestIs(events[..j], events[j].key, ref);
    assert forall i :: LatestProposal(events, i, j, events[j].key) <==> LatestProposal(events[..j], i, j, events[j].key);
  }

  ghost predicate Records(slug: string, events: seq<Event>, j: nat, x: Finding, files: set<File>) {
    match x
    case Adopt(a) => a.slug == slug && RecordsAdoption(events, j, a, files)
    case Skip(s, num, ref) => s == slug && RecordsSkip(events, j, num, ref, files)
    case Override(s, num) => s == slug && RecordsOverride(events, j, num)
  }

  lemma EventFindingsIff(slug: string, events: seq<Event>, j: nat, files: set<File>, x: Finding)
    requires j < |events|
    ensures x in EventFindings(slug, events[..j], events[j], files) <==> Records(slug, events, j, x, files)
  {
    hide Target, RefersTo, RefFindings, Latest;
    var e := events[j];
    var refs := if e.proposed then e.refs else Latest(events[..j], e.key);
    RefFindingsIff(refs, slug, e.num, files, x);
    forall ref
      ensures RefersTo(events, j, ref) <==> ref in refs
    {
      RefersInPrefix(events, j, ref);
    }
  }

  /** What a stream says is exactly what its events record. */
  lemma {:induction false} ProblemFindingsIff(slug: string, events: seq<Event>, files: set<File>, x: Finding)
    ensures x in ProblemFindings(slug, events, files) <==> exists j :: Records(slug, events, j, x, files)
    decreases |events|
  {
    if events != [] {
      hide EventFindings, Records;
      var front, n := Init(events), |events| - 1;
      ProblemFindingsIff(slug, front, files, x);
      EventFindingsIff(slug, events, n, files, x);
      assert events[..n] == front;
      forall j: nat
        ensures j < n ==> (Records(slug, events, j, x, files) <==> Records(slug, front, j, x, files))
        ensures j >= |events| ==> !Records(slug, events, j, x, files)
        ensures j >= n ==> !Records(slug, front, j, x, files)
      {
        RecordsInPrefix(slug, events, j, x, files);
      }
    } else {
      forall j: nat
        ensures !Records(slug, events, j, x, files)
      {
      }
    }
  }

  lemma RecordsInPrefix(slug: string, events: seq<Event>, j: nat, x: Finding, files: set<File>)
    requires events != []
    ensures j < |events| - 1 ==> (Records(slug, events, j, x, files) <==> Records(slug, Init(events), j, x, files))
    ensures j >= |events| ==> !Records(slug, events, j, x, files)
    ensures j >= |events| - 1 ==> !Records(slug, Init(events), j, x, files)
  {
    hide Target, RefersTo;
    if j < |events| - 1 {
      forall ref
        ensures RefersTo(events, j, ref) <==> RefersTo(Init(events), j, ref)
      {
        RefersInPrefix(events, j, ref);
        RefersInPrefix(Init(events), j, ref);
        assert Init(events)[..j] == events[..j];
      }
    }
  }

  // ---- the plan and its application -----------------------------------------------------------------

  /** The key under which the plan remembers what it has already planned. */
  function Key(a: Adoption): string {
    a.file + "|" + a.Ref()
  }

  function AdoptedIn(fs: seq<Finding>): (r: seq<Adoption>)
    ensures forall a :: a in r <==> Adopt(a) in fs
    decreases |fs|
  {
    if fs == [] then []
    else
      assert fs == Init(fs) + [Last(fs)];
      AdoptedIn(Init(fs)) + (if Last(fs).Adopt? then [Last(fs).a] else [])
  }

  predicate Unstamped(reg: Registry, a: Adoption) {
    a.file in reg && !IsStamped(reg[a.file], RecommendOutcome, a.Ref())
  }

  function Keys(adoptions: seq<Adoption>): (r: set<string>)
    ensures forall k :: k in r <==> exists a :: a in adoptions && Key(a) == k
  {
    set a | a in adoptions :: Key(a)
  }

  /** What the plan stamps: every adoption not yet stamped, once for each key. */
  function PlanStamps(adoptions: seq<Adoption>, reg: Registry): (r: seq<Adoption>)
    ensures forall a :: a in r ==> a in adoptions && Unstamped(reg, a)
    decreases |adoptions|
  {
    if adoptions == [] then []
    else
      var before, a := PlanStamps(Init(adoptions), reg), Last(adoptions);
      if Unstamped(reg, a) && Key(a) !in Keys(before) then before + [a] else before
  }

  function ApplyStamps(reg: Registry, stamps: seq<Adoption>, date: string): (r: Registry)
    ensures r.Keys == reg.Keys
    decreases |stamps|
  {
    if stamps == [] then reg
    else
      var before, a := ApplyStamps(reg, Init(stamps), date), Last(stamps);
      if a.file in before then before[a.file := StampAdoption(before[a.file], a.Cite(), date)] else before
  }

  function AdoptionsOf(problems: seq<Problem>, files: set<File>): seq<Adoption> {
    AdoptedIn(AllFindings(problems, files))
  }

  /** One sweep: plan against the registry as loaded, then stamp in plan order. */
  function Sweep(reg: Registry, problems: seq<Problem>, date: string): (r: Registry)
    ensures r.Keys == reg.Keys
  {
    ApplyStamps(reg, PlanStamps(AdoptionsOf(problems, reg.Keys), reg), date)
  }

  // ---- the plan is complete exactly when keys tell adoptions apart -------------------------------------

  /** Stamps are planned in the order in which the streams cite them. */
  lemma {:induction false} PlanKeepsOrder(adoptions: seq<Adoption>, reg: Registry)
    ensures IsSubseq(PlanStamps(adoptions, reg), adoptions)
    decreases |adoptions|
  {
    if adoptions != [] {
      hide Unstamped, Key;
      PlanKeepsOrder(Init(adoptions), reg);
      var before, a := PlanStamps(Init(adoptions), reg), Last(adoptions);
      assert Init(before + [a]) == before;
    }
  }

  lemma OneRefAppends(refs: seq<string>, slug: string, num: string, files: set<File>)
    requires refs != []
    ensures var before, fs := RefFindings(Init(refs), slug, num, files), RefFindings(refs, slug, num, files);
            fs == before || (exists x :: fs == before + [x] && (x.Adopt? ==> x !in before))
  {
    hide Target;
  }

  /** However often and however phrased an event refers to a claim, it adopts it once. */
  lemma {:induction false} OneAdoptionPerClaim(refs: seq<string>, slug: string, num: string, files: set<File>)
    ensures var fs := RefFindings(refs, slug, num, files);
            forall i, j :: 0 <= i < j < |fs| && fs[i].Adopt? ==> fs[i] != fs[j]
    decreases |refs|
  {
    if refs != [] {
      hide Target;
      OneAdoptionPerClaim(Init(refs), slug, num, files);
      var before, fs := RefFindings(Init(refs), slug, num, files), RefFindings(refs, slug, num, files);
      OneRefAppends(refs, slug, num, files);
      hide RefFindings;
      forall i, j | 0 <= i < j < |fs| && fs[i].Adopt?
        ensures fs[i] != fs[j]
      {
        assert before[i] in before;
      }
    }
  }

  ghost predicate KeysApart(adoptions: seq<Adoption>, reg: Registry) {
    forall a, b :: a in adoptions && b in adoptions && Unstamped(reg, a) && Unstamped(reg, b) && Key(a) == Key(b) ==> a == b
  }

  ghost predicate Complete(adoptions: seq<Adoption>, reg: Registry) {
    forall a :: a in adoptions && Unstamped(reg, a) ==> a in PlanStamps(adoptions, reg)
  }

  lemma {:induction false} OneStampForEachKey(adoptions: seq<Adoption>, reg: Registry)
    ensures var r := PlanStamps(adoptions, reg);
            && Distinct(r)
            && (forall a, b :: a in r && b in r && Key(a) == Key(b) ==> a == b)
            && forall a :: a in adoptions && Unstamped(reg, a) ==> Key(a) in Keys(r)
    decreases |adoptions|
  {
    if adoptions != [] {
      hide Unstamped, Key;
      OneStampForEachKey(Init(adoptions), reg);
      assert adoptions == Init(adoptions) + [Last(adoptions)];
      var before, a := PlanStamps(Init(adoptions), reg), Last(adoptions);
      if Unstamped(reg, a) && Key(a) !in Keys(before) {
        assert a !in before;
        forall k | k in Keys(before)
          ensures k in Keys(before + [a])
        {
          var b :| b in before && Key(b) == k;
          assert b in before + [a];
        }
        assert a in before + [a];
      }
    }
  }

  /** Every unstamped adoption is planned, not just every key, exactly when no two of them share a key. */
  lemma CompleteIffKeysApart(adoptions: seq<Adoption>, reg: Registry)
    ensures Complete(adoptions, reg) <==> KeysApart(adoptions, reg)
  {
    OneStampForEachKey(adoptions, reg);
    var r := PlanStamps(adoptions, reg);
    hide PlanStamps, Unstamped, Key;
    if KeysApart(adoptions, reg) {
      forall a | a in adoptions && Unstamped(reg, a)
        ensures a in r
      {
        assert Key(a) in Keys(r);
        var b :| b in r && Key(b) == Key(a);
      }
    }
  }

  /** Keys tell adoptions apart when no file name holds a bar. */
  ghost predicate NoBar(files: set<File>) {
    forall f :: f in files ==> Lacks(f, '|')
  }

  lemma KeyUnique(a: Adoption, b: Adoption)
    requires Lacks(a.file, '|') && Lacks(b.file, '|') && Named(a) && Named(b) && Key(a) == Key(b)
    ensures a == b
  {
    SplitAtFirst(a.file, a.Ref(), b.file, b.Ref(), '|');
    RefsApart(a, b);
  }

  lemma NoBarKeysApart(adoptions: seq<Adoption>, reg: Registry)
    requires NoBar(reg.Keys) && forall a :: a in adoptions ==> Named(a)
    ensures KeysApart(adoptions, reg)
  {
    forall a, b | a in adoptions && b in adoptions && Unstamped(reg, a) && Unstamped(reg, b) && Key(a) == Key(b)
      ensures a == b
    {
      KeyUnique(a, b);
    }
  }

  const LEFT := Adoption("a.md", "b.md|p", "1")
  const RIGHT := Adoption("a.md|b.md", "p", "1")

  lemma BarKeysCollide()
    ensures Named(LEFT) && Named(RIGHT) && LEFT.file != RIGHT.file && Key(LEFT) == Key(RIGHT)
  {
    assert Key(LEFT) == "a.md|b.md|p/1";
    assert LEFT.file[..] != RIGHT.file[..] by { assert |LEFT.file| != |RIGHT.file|; }
  }

  lemma PlanOfTwo(x: Adoption, y: Adoption, reg: Registry)
    requires Unstamped(reg, x) && Key(x) == Key(y)
    ensures PlanStamps([x, y], reg) == [x]
  {
    hide Key, Unstamped;
    assert Init([x, y]) == [x] && Init([x]) == [];
    assert PlanStamps([x], reg) == [x];
    assert x in [x];
  }

  /** With bars in file names one sweep can miss an adoption that the next one finds. */
  lemma BarHidesAnAdoption(date: string)
    ensures var c := Claim(0, None, []);
            var reg: Registry := map[LEFT.file := c, RIGHT.file := c];
            Named(LEFT) && Named(RIGHT) && PlanStamps([LEFT, RIGHT], reg) == [LEFT]
            && Unstamped(ApplyStamps(reg, [LEFT], date), RIGHT)
  {
    BarKeysCollide();
    var c := Claim(0, None, []);
    var reg: Registry := map[LEFT.file := c, RIGHT.file := c];
    hide Key, Named;
    assert Unstamped(reg, LEFT) && Unstamped(reg, RIGHT);
    PlanOfTwo(LEFT, RIGHT, reg);
    assert Init([LEFT]) == [];
    assert ApplyStamps(reg, [LEFT], date)[RIGHT.file] == c;
  }
}
