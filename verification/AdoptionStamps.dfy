/** Adoption stamps: how a claim records that it was used, and when a citation counts as already recorded. */
module AdoptionStamps {
  import opened Prelude

  type File = string

  datatype Kind = RecommendOutcome | SolveRun

  /** `detail` is free text after the reference. */
  datatype Citation = Citation(kind: Kind, ref: string, detail: Option<string>)

  datatype Entry = Entry(date: string, event: string, note: Option<string>)

  datatype Claim = Claim(applied: int, lastApplied: Option<string>, history: seq<Entry>)

  /** A dash between spaces. */
  const SEP: string := " \U{2014} "

  function Head(kind: Kind): string {
    "applied via " + (match kind case RecommendOutcome => "recommend-outcome " case SolveRun => "solve-run ")
  }

  function Tail(c: Citation): string {
    c.ref + (match c.detail case None => "" case Some(d) => SEP + d)
  }

  function AppliedNote(c: Citation): string {
    Head(c.kind) + Tail(c)
  }

  /** The note is the citation's own, with or without a detail. */
  predicate Marks(note: string, kind: Kind, ref: string) {
    note == Head(kind) + ref || Head(kind) + ref + SEP <= note
  }

  predicate IsStamped(claim: Claim, kind: Kind, ref: string) {
    exists h :: h in claim.history && h.event == "applied" && h.note.Some? && Marks(h.note.value, kind, ref)
  }

  function Norm(applied: int): nat {
    if applied >= 0 then applied else 0
  }

  function Stamped(claim: Claim, c: Citation, date: string): Claim {
    Claim(Norm(claim.applied) + 1, Some(date), claim.history + [Entry(date, "applied", Some(AppliedNote(c)))])
  }

  /** stampAdoption: a citation the claim already carries changes nothing. */
  function StampAdoption(claim: Claim, c: Citation, date: string): Claim {
    if IsStamped(claim, c.kind, c.ref) then claim else Stamped(claim, c, date)
  }

  /**
    Stamping a citation the claim does not carry counts one more application, dates it, and adds one note that
    names it; stamping it again changes nothing.
   */
  lemma StampsOnce(claim: Claim, c: Citation, date: string, later: string)
    ensures var s := StampAdoption(claim, c, date);
            && StampAdoption(s, c, later) == s
            && (IsStamped(claim, c.kind, c.ref) ==> s == claim)
            && (!IsStamped(claim, c.kind, c.ref) ==>
                  && s.applied == (if claim.applied > 0 then claim.applied else 0) + 1 && s.lastApplied == Some(date)
                  && |s.history| == |claim.history| + 1 && s.history[..|claim.history|] == claim.history
                  && s.history[|claim.history|].date == date && s.history[|claim.history|].event == "applied"
                  && IsStamped(s, c.kind, c.ref))
  {
    if !IsStamped(claim, c.kind, c.ref) {
      StampRecognisesIff(claim, c, date, c.kind, c.ref);
    }
  }

  lemma HeadsApart(a: Kind, b: Kind, x: string, y: string)
    requires a != b
    ensures !(Head(a) + x <= Head(b) + y)
  {
    assert (Head(a) + x)[12] != (Head(b) + y)[12];
  }

  lemma SameHead(kind: Kind, x: string, y: string)
    ensures Head(kind) + x == Head(kind) + y <==> x == y
    ensures Head(kind) + x <= Head(kind) + y <==> x <= y
  {
    var h := Head(kind);
    hide Head;
    assert (h + x)[|h|..] == x && (h + y)[|h|..] == y;
    if h + x <= h + y {
      assert (h + y)[..|h + x|][|h|..] == y[..|x|];
    }
  }

  /** The note of one citation marks another exactly when the kind agrees and the reference is its text up to a dash. */
  lemma NoteMarksIff(c: Citation, kind: Kind, ref: string)
    ensures Marks(AppliedNote(c), kind, ref) <==> c.kind == kind && (Tail(c) == ref || ref + SEP <= Tail(c))
  {
    hide Head;
    assert Head(kind) + ref + SEP == Head(kind) + (ref + SEP);
    if c.kind == kind {
      SameHead(kind, Tail(c), ref);
      SameHead(kind, ref + SEP, Tail(c));
    } else {
      HeadsApart(kind, c.kind, ref + SEP, Tail(c));
      HeadsApart(kind, c.kind, ref, Tail(c));
    }
  }

  /** After a stamp, a citation counts as recorded exactly when it did before or the new note marks it. */
  lemma StampRecognisesIff(claim: Claim, c: Citation, date: string, kind: Kind, ref: string)
    ensures IsStamped(Stamped(claim, c, date), kind, ref) <==>
            IsStamped(claim, kind, ref) || (c.kind == kind && (Tail(c) == ref || ref + SEP <= Tail(c)))
  {
    NoteMarksIff(c, kind, ref);
    hide Marks, AppliedNote;
    var last := Entry(date, "applied", Some(AppliedNote(c)));
    assert last in Stamped(claim, c, date).history;
    if IsStamped(claim, kind, ref) {
      var h :| h in claim.history && h.event == "applied" && h.note.Some? && Marks(h.note.value, kind, ref);
      assert h in Stamped(claim, c, date).history;
    }
  }

  /** A reference that goes on with a dash is taken for the shorter one, which then can no longer be recorded. */
  lemma DashedReferenceSwallowsShorter(claim: Claim, ref: string, more: string, date: string)
    ensures IsStamped(Stamped(claim, Citation(SolveRun, ref + SEP + more, None), date), SolveRun, ref)
  {
    var c := Citation(SolveRun, ref + SEP + more, None);
    StampRecognisesIff(claim, c, date, SolveRun, ref);
    assert Tail(c) == ref + SEP + more;
  }

  // ---- the references of the sweep ------------------------------------------------------------------

  /** An accepted recommendation: event number `num` of problem `slug`, adopting the claim in `file`. */
  datatype Adoption = Adoption(file: File, slug: string, num: string) {
    function Ref(): string { slug + "/" + num }
    function Cite(): Citation { Citation(RecommendOutcome, Ref(), None) }
  }

  predicate Lacks(s: string, c: char) {
    forall i :: 0 <= i < |s| ==> s[i] != c
  }

  /** Slugs and files are directory entries; `num` is the text of a number. */
  predicate Named(a: Adoption) {
    Lacks(a.slug, '/') && Lacks(a.file, '/') && Lacks(a.num, '/') && Lacks(a.num, ' ')
  }

  /** Text splits in one way at the first c. */
  lemma SplitAtFirst(x: string, u: string, y: string, v: string, c: char)
    requires Lacks(x, c) && Lacks(y, c) && x + [c] + u == y + [c] + v
    ensures x == y && u == v
  {
    var s := x + [c] + u;
    assert s[|x|] == c && (y + [c] + v)[|y|] == c;
    assert forall k :: 0 <= k < |x| ==> s[k] == x[k] && s[k] != c;
    assert forall k :: 0 <= k < |y| ==> s[k] == y[k] && s[k] != c;
    assert |x| == |y|;
    assert x == s[..|x|] == y && u == s[|x| + 1..] == v;
  }

  lemma RefsApart(a: Adoption, b: Adoption)
    requires Named(a) && Named(b)
    ensures a.Ref() == b.Ref() ==> a.slug == b.slug && a.num == b.num
    ensures !(a.Ref() + SEP <= b.Ref())
  {
    if a.Ref() == b.Ref() {
      SplitAtFirst(a.slug, a.num, b.slug, b.num, '/');
    } else if a.Ref() + SEP <= b.Ref() {
      var rest := b.Ref()[|a.Ref() + SEP|..];
      assert b.Ref() == a.slug + ['/'] + (a.num + SEP + rest);
      assert (a.num + SEP + rest)[|a.num|] == ' ';
      SplitAtFirst(b.slug, b.num, a.slug, a.num + SEP + rest, '/');
    }
  }

  /** For the sweep's own citations the recorded mark is exact. */
  lemma SweepStampIsExact(claim: Claim, a: Adoption, b: Adoption, date: string)
    requires Named(a) && Named(b)
    ensures IsStamped(Stamped(claim, a.Cite(), date), RecommendOutcome, b.Ref()) <==>
            IsStamped(claim, RecommendOutcome, b.Ref()) || (a.slug == b.slug && a.num == b.num)
  {
    StampRecognisesIff(claim, a.Cite(), date, RecommendOutcome, b.Ref());
    assert Tail(a.Cite()) == a.Ref();
    RefsApart(a, b);
    RefsApart(b, a);
  }
}
