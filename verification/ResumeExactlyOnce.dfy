/** Exactly-once delivery over whole runs of the fan-out group, and exactly when it fails. */
module ResumeExactlyOnce {
  import opened Prelude
  import opened MemberQueues
  import opened Fanout
  import opened EngineFeed
  import opened ResumeProtocol
  import opened ResumeAccounts
  import opened ResumeInvariant

  /** A run from boot: worlds[i] becomes worlds[i + 1] by actions[i]. */
  ghost predicate IsRun(env: Env, worlds: seq<World>, actions: seq<Action>) {
    && |worlds| == |actions| + 1
    && worlds[0] == Boot()
    && forall i :: 0 <= i < |actions| ==> IsStep(env, worlds[i], actions[i], worlds[i + 1])
  }

  ghost predicate IsStep(env: Env, w: World, a: Action, w': World) {
    Consistent(w.g) && Enabled(env, w, a) && w' == Next(env, w, a)
  }

  /** The action loses an event of s for c. */
  ghost predicate Loses(env: Env, w: World, a: Action, c: Conn, s: Shard) {
    Consistent(w.g) && c in w.g.queues && LossAt(env, w, a, c, s)
  }

  /** What the feed of s brought to c is exactly the events after its start, up to where it stands, each once, in order. */
  ghost predicate FeedExact(env: Env, w: World, c: Conn, s: Shard) {
    Got(w.log(c), s) == Between(env, s, w.start(c, s), w.reached(c, s))
  }

  /** What is always true of what a feed brings: nothing repeated, reordered or invented. */
  ghost predicate FeedAccount(env: Env, w: World, c: Conn, s: Shard) {
    w.start(c, s) <= w.reached(c, s)
    && IsSubseq(Got(w.log(c), s), Between(env, s, w.start(c, s), w.reached(c, s)))
  }

  lemma {:induction false} RunInvariant(env: Env, worlds: seq<World>, actions: seq<Action>)
    requires IsRun(env, worlds, actions)
    ensures Inv(env, Last(worlds))
    decreases |actions|
  {
    if actions != [] {
      PrefixRun(env, worlds, actions);
      RunInvariant(env, Init(worlds), Init(actions));
      InvStep(env, worlds[|actions| - 1], Last(actions));
    }
  }

  lemma PrefixRun(env: Env, worlds: seq<World>, actions: seq<Action>)
    requires IsRun(env, worlds, actions) && actions != []
    ensures IsRun(env, Init(worlds), Init(actions))
    ensures Last(Init(worlds)) == worlds[|actions| - 1] && Last(worlds) == worlds[|actions|]
    ensures IsStep(env, worlds[|actions| - 1], Last(actions), Last(worlds))
  {
    hide IsStep;
    var ws, as_ := Init(worlds), Init(actions);
    forall i | 0 <= i < |as_|
      ensures IsStep(env, ws[i], as_[i], ws[i + 1])
    {
      assert IsStep(env, worlds[i], actions[i], worlds[i + 1]);
    }
  }

  /** Queues never disappear, so a connection that is not there yet was never there. */
  lemma {:induction false} NotYetThere(env: Env, worlds: seq<World>, actions: seq<Action>, c: Conn)
    requires IsRun(env, worlds, actions) && c !in Last(worlds).g.queues
    ensures forall i :: 0 <= i < |worlds| ==> c !in worlds[i].g.queues
    decreases |actions|
  {
    if actions != [] {
      PrefixRun(env, worlds, actions);
      KeepsConsistent(env, worlds[|actions| - 1], Last(actions));
      NotYetThere(env, Init(worlds), Init(actions), c);
      forall i | 0 <= i < |worlds|
        ensures c !in worlds[i].g.queues
      {
        if i < |worlds| - 1 {
          assert worlds[i] == Init(worlds)[i];
        }
      }
    }
  }

  /** A step extends an account by its own puts, over the events it passes. */
  lemma AccountExtends(env: Env, w: World, a: Action, c: Conn, s: Shard)
    requires Consistent(w.g) && Enabled(env, w, a) && c in w.g.queues
    ensures var w' := Next(env, w, a);
            && w'.start(c, s) == w.start(c, s)
            && w'.reached(c, s) == ReachedAfter(env, w, a, c, s)
            && w'.log(c) == w.log(c) + Puts(w, a, c)
  {
    hide Puts, ReachedAfter, GroupAfter, DialAtAfter, SharedAtAfter, Follows;
  }

  /** No step of the run takes a branch that loses an event of s for c. */
  ghost predicate LosesNothing(env: Env, worlds: seq<World>, actions: seq<Action>, c: Conn, s: Shard)
    requires |worlds| == |actions| + 1
  {
    forall i :: 0 <= i < |actions| ==> !Loses(env, worlds[i], actions[i], c, s)
  }

  lemma LosesNothingSoFar(env: Env, worlds: seq<World>, actions: seq<Action>, c: Conn, s: Shard)
    requires |worlds| == |actions| + 1 && actions != []
    ensures LosesNothing(env, worlds, actions, c, s) <==>
            LosesNothing(env, Init(worlds), Init(actions), c, s) && !Loses(env, worlds[|actions| - 1], Last(actions), c, s)
  {
    hide Loses;
    assert forall i :: 0 <= i < |actions| - 1 ==> Init(worlds)[i] == worlds[i] && Init(actions)[i] == actions[i];
  }

  lemma NothingToLose(env: Env, worlds: seq<World>, actions: seq<Action>, c: Conn, s: Shard)
    requires IsRun(env, worlds, actions) && c !in Last(worlds).g.queues
    ensures LosesNothing(env, worlds, actions, c, s)
  {
    hide Loses;
    NotYetThere(env, worlds, actions, c);
    forall i | 0 <= i < |actions|
      ensures !Loses(env, worlds[i], actions[i], c, s)
    {
      LosesOnlyKnown(env, worlds[i], actions[i], c, s);
    }
  }

  /**
    Over every run, whatever the interleaving: the feeds bring a member no event twice, out of order or from
    outside its account; and they bring the whole account if and only if no step of the run took one of the
    losing branches. What a join preamble adds for a fresh member is the matter of FreshJoins.
   */
  lemma {:induction false} FeedExactIffNoLoss(env: Env, worlds: seq<World>, actions: seq<Action>, c: Conn, s: Shard)
    requires IsRun(env, worlds, actions) && s in env.sources && c in Last(worlds).g.queues
    ensures FeedAccount(env, Last(worlds), c, s)
    ensures FeedExact(env, Last(worlds), c, s) <==> LosesNothing(env, worlds, actions, c, s)
    decreases |actions|
  {
    hide Loses, Inv, Enabled, FeedAccount, FeedExact, Consistent, Got, LosesNothing;
    if actions == [] {
      NobodyAtBoot(c);
    } else {
      var n := |actions| - 1;
      var w, a := worlds[n], actions[n];
      PrefixRun(env, worlds, actions);
      LosesNothingSoFar(env, worlds, actions, c, s);
      hide IsRun;
      RunInvariant(env, Init(worlds), Init(actions));
      if c in w.g.queues {
        FeedExactIffNoLoss(env, Init(worlds), Init(actions), c, s);
        OneMoreStep(env, w, a, c, s);
      } else {
        NothingToLose(env, Init(worlds), Init(actions), c, s);
        LosesOnlyKnown(env, w, a, c, s);
        Newcomer(env, w, a, c, s);
      }
    }
  }

  lemma NobodyAtBoot(c: Conn)
    ensures c !in Boot().g.queues
  {
  }

  lemma LosesOnlyKnown(env: Env, w: World, a: Action, c: Conn, s: Shard)
    requires c !in w.g.queues
    ensures !Loses(env, w, a, c, s)
  {
  }

  /** A newcomer starts with an empty, exact account. */
  lemma Newcomer(env: Env, w: World, a: Action, c: Conn, s: Shard)
    requires Consistent(w.g) && Enabled(env, w, a)
    requires c !in w.g.queues && c in Next(env, w, a).g.queues
    ensures FeedAccount(env, Next(env, w, a), c, s) && FeedExact(env, Next(env, w, a), c, s)
  {
    OnlyJoinsEnter(env, w, a, c);
    var w' := Next(env, w, a);
    EmptyBetween(env, s, w'.reached(c, s));
  }

  lemma OnlyJoinsEnter(env: Env, w: World, a: Action, c: Conn)
    requires Consistent(w.g) && c !in w.g.queues && c in GroupAfter(env, w, a).queues
    ensures Enters(w, a, c)
  {
    hide AfterBatch, LastPos, LastEid, RelayPreamble, Admitted, ResumeBatch, Ignored;
    match a
    case DialBatch(d, t, frames) =>
      ResumeBatchQueues(env.encodedLen, w.g, d, t, frames, |env.sources|);
      IgnoredUnless(w.g, d, frames);
    case _ =>
  }

  lemma OneMoreStep(env: Env, w: World, a: Action, c: Conn, s: Shard)
    requires Inv(env, w) && Enabled(env, w, a) && c in w.g.queues && s in env.sources
    requires Consistent(w.g) && FeedAccount(env, w, c, s)
    ensures FeedAccount(env, Next(env, w, a), c, s)
    ensures FeedExact(env, Next(env, w, a), c, s) <==> FeedExact(env, w, c, s) && !Loses(env, w, a, c, s)
  {
    hide Inv, Enabled, LossAt, IsSubseq, Between, Got, Puts, ReachedAfter, Next;
    EveryAccountStep(env, w, a, c, s);
    AccountExtends(env, w, a, c, s);
    var lo, mid, hi := w.start(c, s), w.reached(c, s), ReachedAfter(env, w, a, c, s);
    var got, more := Got(w.log(c), s), Got(Puts(w, a, c), s);
    var before, passed := Between(env, s, lo, mid), Between(env, s, mid, hi);
    GotConcat(w.log(c), Puts(w, a, c), s);
    BetweenSplit(env, s, lo, mid, hi);
    SubseqAppend(got, before, more, passed);
    SubseqLength(got, before);
    SubseqLength(more, passed);
  }

  // ---- everything on the queue ---------------------------------------------------------------------

  /** The events of source s among a sequence of puts, a join's greeting included. */
  function Seen(es: seq<Entry>, s: Shard): seq<nat>
    decreases |es|
  {
    if es == [] then [] else Seen(Init(es), s) + SeenOne(Last(es), s)
  }

  function SeenOne(e: Entry, s: Shard): seq<nat> {
    if (e.origin == Feed(s) || e.origin == JoinHead(s)) && e.item.Data? then EventOf(e.item.frame) else []
  }

  ghost predicate InOrder(s: seq<nat>) {
    forall i, j :: 0 <= i < j < |s| ==> s[i] < s[j]
  }

  /** Nothing among the puts comes from a join's greeting. */
  ghost predicate Ungreeted(es: seq<Entry>) {
    forall e :: e in es ==> !e.origin.JoinHead?
  }

  lemma {:induction false} SeenIsGot(es: seq<Entry>, s: Shard)
    requires Ungreeted(es)
    ensures Seen(es, s) == Got(es, s)
    decreases |es|
  {
    if es != [] {
      assert forall e :: e in Init(es) ==> e in es;
      assert Last(es) in es;
      SeenIsGot(Init(es), s);
    }
  }

  lemma {:induction false} SeenConcat(a: seq<Entry>, b: seq<Entry>, s: Shard)
    ensures Seen(a + b, s) == Seen(a, s) + Seen(b, s)
    decreases |b|
  {
    if b == [] {
      assert a + b == a;
    } else {
      hide SeenOne;
      assert Init(a + b) == a + Init(b) && Last(a + b) == Last(b);
      SeenConcat(a, Init(b), s);
      Assoc(Seen(a, s), Seen(Init(b), s), SeenOne(Last(b), s));
    }
  }

  lemma {:induction false} RelayUngreeted(s: Shard, b: Relay, frames: seq<Frame>)
    ensures Ungreeted(RelayPuts(s, b, frames))
    decreases |frames|
  {
    if frames != [] {
      RelayUngreeted(s, b, Init(frames));
    }
  }

  /** Only the one section that greets a fresh join puts a greeting. */
  lemma OnlyJoinsGreet(env: Env, w: World, a: Action, c: Conn)
    requires Consistent(w.g) && c in w.g.queues && a != JoinPreamble(c)
    ensures Ungreeted(Puts(w, a, c))
  {
    hide RelayPuts, PreamblePuts;
    match a
    case DialUp(d, s, frames) =>
      if d == c && c in w.g.resumes {
        RelayUngreeted(s, Relay(w.g.queues[c], w.g.resumes[c]), frames);
      }
    case _ =>
  }

  /** Joins still waiting are known connections that did not resume; whoever waits or resumed was never greeted. */
  ghost predicate JoinsInv(w: World) {
    && w.waiting <= w.g.queues.Keys
    && w.resumed <= w.g.queues.Keys
    && w.g.resumes.Keys <= w.resumed
    && w.waiting !! w.resumed
    && forall c :: c in w.waiting || c in w.resumed ==> Ungreeted(w.log(c))
  }

  lemma JoinsSets(env: Env, w: World, a: Action)
    requires Consistent(w.g) && Enabled(env, w, a) && JoinsInv(w)
    ensures var w' := Next(env, w, a);
            && w'.waiting <= w'.g.queues.Keys && w'.resumed <= w'.g.queues.Keys
            && w'.g.resumes.Keys <= w'.resumed && w'.waiting !! w'.resumed
  {
    hide Follows, Puts, NextReached, NextStart, DialAtAfter, SharedAtAfter, Ungreeted, GroupAfter;
    KeepsConsistent(env, w, a);
    OnlyResumersResume(env, w, a);
    match a
    case Join(d) => assert d in GroupAfter(env, w, a).queues by { EnteredIsKnown(env, w, a, d); }
    case JoinResume(d) => assert d in GroupAfter(env, w, a).queues by { EnteredIsKnown(env, w, a, d); }
    case _ =>
  }

  lemma EnteredIsKnown(env: Env, w: World, a: Action, d: Conn)
    requires Consistent(w.g) && Enabled(env, w, a) && (a == Join(d) || a == JoinResume(d))
    ensures d in GroupAfter(env, w, a).queues
  {
  }

  lemma OnlyResumersResume(env: Env, w: World, a: Action)
    requires Consistent(w.g) && Enabled(env, w, a)
    ensures forall d :: d in GroupAfter(env, w, a).resumes ==> d in w.g.resumes || a == JoinResume(d)
  {
    hide Follows, FannedQueues, LastPos, LastEid, RelayPreamble, Admitted, ResumeBatch;
    match a
    case DialBatch(c, s, frames) =>
      ResumeBatchServes(env.encodedLen, w.g, c, s, frames, |env.sources|);
      IgnoredUnless(w.g, c, frames);
    case _ =>
  }

  lemma JoinsStep(env: Env, w: World, a: Action)
    requires Consistent(w.g) && Enabled(env, w, a) && JoinsInv(w)
    ensures JoinsInv(Next(env, w, a))
  {
    var w' := Next(env, w, a);
    JoinsSets(env, w, a);
    forall c | c in w'.waiting || c in w'.resumed
      ensures Ungreeted(w'.log(c))
    {
      StaysUngreeted(env, w, a, c);
    }
  }

  lemma StaysUngreeted(env: Env, w: World, a: Action, c: Conn)
    requires Consistent(w.g) && Enabled(env, w, a) && JoinsInv(w)
    requires c in Next(env, w, a).waiting || c in Next(env, w, a).resumed
    ensures Ungreeted(Next(env, w, a).log(c))
  {
    hide Follows, GroupAfter, NextReached, NextStart, DialAtAfter, SharedAtAfter;
    if !Enters(w, a, c) {
      assert c in w.waiting || c in w.resumed;
      if a == JoinPreamble(c) {
        assert c in w.waiting && w.g.provider.None?;
        assert Puts(w, a, c) == [];
      } else {
        OnlyJoinsGreet(env, w, a, c);
        hide Puts;
      }
      assert Next(env, w, a).log(c) == w.log(c) + Puts(w, a, c);
    }
  }

  lemma {:induction false} JoinsRun(env: Env, worlds: seq<World>, actions: seq<Action>)
    requires IsRun(env, worlds, actions)
    ensures JoinsInv(Last(worlds))
    decreases |actions|
  {
    if actions != [] {
      PrefixRun(env, worlds, actions);
      JoinsRun(env, Init(worlds), Init(actions));
      JoinsStep(env, worlds[|actions| - 1], Last(actions));
    }
  }

  /** The events of s on c's queue are exactly those after its start, up to where it stands, each once, in order. */
  ghost predicate ExactlyOnce(env: Env, w: World, c: Conn, s: Shard) {
    Seen(w.log(c), s) == Between(env, s, w.start(c, s), w.reached(c, s))
  }

  /** The account of a resumed member starts at its cursor. */
  lemma {:induction false} ResumedStartsAtCursor(env: Env, worlds: seq<World>, actions: seq<Action>, c: Conn, s: Shard)
    requires IsRun(env, worlds, actions) && c in Last(worlds).resumed
    ensures c in Last(worlds).g.queues && Last(worlds).start(c, s) == env.cursor(c, s)
    decreases |actions|
  {
    hide Follows, Puts, ReachedAfter, DialAtAfter, SharedAtAfter, NextReached;
    if actions != [] {
      var w, a := worlds[|actions| - 1], Last(actions);
      PrefixRun(env, worlds, actions);
      KeepsConsistent(env, w, a);
      if c in w.resumed {
        ResumedStartsAtCursor(env, Init(worlds), Init(actions), c, s);
        assert !Enters(w, a, c);
      } else {
        assert a == JoinResume(c) && Enters(w, a, c);
        assert Next(env, w, a).start(c, s) == StartOf(env, w, a, c, s);
        assert c in EnterResume(w.g, c).queues;
      }
    }
  }

  /**
    A resumed member's events of a source are exactly those after its cursor, each once and in order, if and
    only if no step of the run took one of the losing branches.
   */
  lemma ExactlyOnceIffNoLoss(env: Env, worlds: seq<World>, actions: seq<Action>, c: Conn, s: Shard)
    requires IsRun(env, worlds, actions) && s in env.sources && c in Last(worlds).resumed
    ensures Last(worlds).start(c, s) == env.cursor(c, s)
    ensures ExactlyOnce(env, Last(worlds), c, s) <==> LosesNothing(env, worlds, actions, c, s)
  {
    assert worlds != [];
    hide IsRun, LosesNothing, FeedAccount, Seen, Got;
    JoinsRun(env, worlds, actions);
    ResumedStartsAtCursor(env, worlds, actions, c, s);
    FeedExactIffNoLoss(env, worlds, actions, c, s);
    SeenIsGot(Last(worlds).log(c), s);
  }

  /** No event reaches a resumed member twice, out of order, or from outside its account, in any run at all. */
  lemma NeverTwiceNeverReordered(env: Env, worlds: seq<World>, actions: seq<Action>, c: Conn, s: Shard)
    requires IsRun(env, worlds, actions) && s in env.sources && c in Last(worlds).resumed
    ensures var w := Last(worlds);
            var seen := Seen(w.log(c), s);
            InOrder(seen) && forall n :: n in seen ==> env.cursor(c, s) < n <= w.reached(c, s) && env.emits(s, n)
  {
    assert worlds != [];
    hide IsRun, LosesNothing, Seen, Got;
    var w := Last(worlds);
    JoinsRun(env, worlds, actions);
    ResumedStartsAtCursor(env, worlds, actions, c, s);
    FeedExactIffNoLoss(env, worlds, actions, c, s);
    SeenIsGot(w.log(c), s);
    FeedInOrder(env, w, c, s);
  }

  /** What a feed brings is in order and lies in the account. */
  lemma FeedInOrder(env: Env, w: World, c: Conn, s: Shard)
    requires FeedAccount(env, w, c, s)
    ensures InOrder(Got(w.log(c), s))
    ensures forall n :: n in Got(w.log(c), s) ==> w.start(c, s) < n <= w.reached(c, s) && env.emits(s, n)
  {
    BetweenIncreases(env, s, w.start(c, s), w.reached(c, s));
    BetweenMembers(env, s, w.start(c, s), w.reached(c, s));
    SubseqIncreases(Got(w.log(c), s), Between(env, s, w.start(c, s), w.reached(c, s)));
  }

  lemma {:induction false} SubseqIncreases(a: seq<nat>, b: seq<nat>)
    requires IsSubseq(a, b) && forall i, j :: 0 <= i < j < |b| ==> b[i] < b[j]
    ensures forall i, j :: 0 <= i < j < |a| ==> a[i] < a[j]
    ensures forall x :: x in a ==> x in b
    decreases |b|
  {
    if a != [] {
      var b' := Init(b);
      assert forall i :: 0 <= i < |b'| ==> b'[i] == b[i];
      if Last(a) == Last(b) && IsSubseq(Init(a), b') {
        SubseqIncreases(Init(a), b');
        assert a == Init(a) + [Last(a)] && b == b' + [Last(b)];
        forall i | 0 <= i < |a| - 1
          ensures a[i] < Last(a)
        {
          assert Init(a)[i] in Init(a);
          var k :| 0 <= k < |b'| && b'[k] == Init(a)[i];
          assert b[k] < Last(b);
        }
        assert forall i :: 0 <= i < |a| - 1 ==> Init(a)[i] == a[i];
      } else {
        SubseqIncreases(a, b');
        assert b == b' + [Last(b)];
      }
    }
  }

  // ---- what that means in the situations the code is written for ----------------------------------

  /** Preambles of this member's dials always find room. */
  ghost predicate RoomyPreambles(worlds: seq<World>, actions: seq<Action>, c: Conn)
    requires |worlds| == |actions| + 1
  {
    forall i :: 0 <= i < |actions| && actions[i].DialUp? && actions[i].c == c && c in worlds[i].g.queues ==>
      |worlds[i].g.queues[c].items| + |actions[i].frames| <= MEMBER_QUEUE_MAX_ITEMS
  }

  /** The shared upstream of s does not reconnect while c rides it. */
  ghost predicate NoSharedReconnect(worlds: seq<World>, actions: seq<Action>, c: Conn, s: Shard)
    requires |worlds| == |actions| + 1
  {
    forall i :: 0 <= i < |actions| && actions[i].SharedUp? && actions[i].s == s ==> c !in worlds[i].g.members
  }

  /** Every shared preamble shows a position (the engine numbers its server.connected frame). */
  ghost predicate NumberedPreambles(actions: seq<Action>) {
    forall i :: 0 <= i < |actions| && actions[i].SharedUp? ==> LastPos(actions[i].frames).Some?
  }

  /** Then a live upstream's recorded position is where it stands. */
  ghost predicate FreshPos(env: Env, w: World) {
    forall s :: s in env.sources && Live(w.g, s) ==> s in w.g.pos && w.g.pos[s].number == w.sharedAt(s)
  }

  lemma FreshPosDialBatch(env: Env, w: World, c: Conn, t: Shard, frames: seq<Frame>)
    requires Consistent(w.g) && Enabled(env, w, DialBatch(c, t, frames)) && FreshPos(env, w)
    ensures FreshPos(env, Next(env, w, DialBatch(c, t, frames)))
  {
    hide EndAt, LastPos, Follows, LastEid, ResumeBatch, Enabled, Puts, NextReached, DialAtAfter;
    ResumeBatchServes(env.encodedLen, w.g, c, t, frames, |env.sources|);
  }

  lemma FreshPosStep(env: Env, w: World, a: Action)
    requires Consistent(w.g) && Enabled(env, w, a) && FreshPos(env, w)
    requires a.SharedUp? ==> LastPos(a.frames).Some?
    ensures FreshPos(env, Next(env, w, a))
  {
    match a
    case DialBatch(c, t, frames) => FreshPosDialBatch(env, w, c, t, frames);
    case _ => FreshPosOtherStep(env, w, a);
  }

  lemma FreshPosOtherStep(env: Env, w: World, a: Action)
    requires Consistent(w.g) && Enabled(env, w, a) && FreshPos(env, w) && !a.DialBatch?
    requires a.SharedUp? ==> LastPos(a.frames).Some?
    ensures FreshPos(env, Next(env, w, a))
  {
    hide Enabled, FreshPos, GroupAfter, SharedAtAfter;
    forall s | s in env.sources && Live(GroupAfter(env, w, a), s)
      ensures s in GroupAfter(env, w, a).pos && GroupAfter(env, w, a).pos[s].number == SharedAtAfter(w, a, s)
    {
      FreshPosAt(env, w, a, s);
    }
    FreshPosFromParts(env, w, a);
  }

  lemma FreshPosFromParts(env: Env, w: World, a: Action)
    requires Consistent(w.g)
    requires forall s :: s in env.sources && Live(GroupAfter(env, w, a), s) ==>
               s in GroupAfter(env, w, a).pos && GroupAfter(env, w, a).pos[s].number == SharedAtAfter(w, a, s)
    ensures FreshPos(env, Next(env, w, a))
  {
    hide GroupAfter, SharedAtAfter;
  }

  lemma FreshPosAt(env: Env, w: World, a: Action, s: Shard)
    requires Consistent(w.g) && Enabled(env, w, a) && FreshPos(env, w) && !a.DialBatch?
    requires a.SharedUp? ==> LastPos(a.frames).Some?
    requires s in env.sources && Live(GroupAfter(env, w, a), s)
    ensures s in GroupAfter(env, w, a).pos && GroupAfter(env, w, a).pos[s].number == SharedAtAfter(w, a, s)
  {
    hide EndAt, LastPos, Follows, LastEid, ResumeBatch, RelayPreamble, Admitted, AfterBatch;
    match a
    case SharedUp(t, from, frames) => LastPosIsEnd(env, t, from, frames);
    case SharedBatch(t, frames) => LastPosIsEnd(env, t, w.sharedAt(t), frames);
    case _ =>
  }

  lemma {:induction false} FreshPosRun(env: Env, worlds: seq<World>, actions: seq<Action>)
    requires IsRun(env, worlds, actions) && NumberedPreambles(actions)
    ensures FreshPos(env, Last(worlds))
    decreases |actions|
  {
    hide FreshPos;
    if actions == [] {
      assert FreshPos(env, Boot()) by { BootIsFresh(env); }
    } else {
      PrefixRun(env, worlds, actions);
      assert forall i :: 0 <= i < |Init(actions)| ==> Init(actions)[i] == actions[i];
      FreshPosRun(env, Init(worlds), Init(actions));
      FreshPosStep(env, worlds[|actions| - 1], Last(actions));
    }
  }

  lemma BootIsFresh(env: Env)
    ensures FreshPos(env, Boot())
  {
  }

  /**
    Resume is exactly once: with room for each dial's preamble, numbered shared preambles, and no reconnect of
    the shared upstream after the migration, a resumed member gets every event from its cursor on, through re-dials
    and the move to the shared fan-out, once and in order.
   */
  lemma ResumeExactlyOnceTheorem(env: Env, worlds: seq<World>, actions: seq<Action>, c: Conn, s: Shard)
    requires IsRun(env, worlds, actions) && s in env.sources && c in Last(worlds).resumed
    requires RoomyPreambles(worlds, actions, c)
    requires NoSharedReconnect(worlds, actions, c, s)
    requires NumberedPreambles(actions)
    ensures Seen(Last(worlds).log(c), s) == Between(env, s, env.cursor(c, s), Last(worlds).reached(c, s))
  {
    hide Loses, Seen, Between;
    ExactlyOnceIffNoLoss(env, worlds, actions, c, s);
    forall i | 0 <= i < |actions|
      ensures !Loses(env, worlds[i], actions[i], c, s)
    {
      RunUpTo(env, worlds, actions, i);
      assert forall k :: 0 <= k < i ==> actions[..i][k] == actions[k];
      RunInvariant(env, worlds[..i + 1], actions[..i]);
      FreshPosRun(env, worlds[..i + 1], actions[..i]);
      assert IsStep(env, worlds[i], actions[i], worlds[i + 1]);
      NoLossHere(env, worlds[i], actions[i], c, s);
    }
  }

  lemma RunUpTo(env: Env, worlds: seq<World>, actions: seq<Action>, i: nat)
    requires IsRun(env, worlds, actions) && i < |actions|
    ensures IsRun(env, worlds[..i + 1], actions[..i]) && Last(worlds[..i + 1]) == worlds[i]
  {
    hide IsStep;
    forall k | 0 <= k < i
      ensures IsStep(env, worlds[..i + 1][k], actions[..i][k], worlds[..i + 1][k + 1])
    {
      assert IsStep(env, worlds[k], actions[k], worlds[k + 1]);
    }
  }

  lemma NoLossHere(env: Env, w: World, a: Action, c: Conn, s: Shard)
    requires Inv(env, w) && Enabled(env, w, a) && FreshPos(env, w) && s in env.sources
    requires a.DialUp? && a.c == c && c in w.g.queues ==>
               |w.g.queues[c].items| + |a.frames| <= MEMBER_QUEUE_MAX_ITEMS
    requires a.SharedUp? && a.s == s ==> c !in w.g.members
    ensures !Loses(env, w, a, c, s)
  {
    hide Follows, EndAt, Migrates, BatchEnd, ResumeInv, PosInv, Relayed;
    match a
    case DialUp(d, t, frames) =>
      forall i | 0 <= i < |frames|
        ensures |Relayed(frames[..i])| < |frames|
      {
        RelayedShorter(frames[..i]);
      }
    case DialBatch(d, t, frames) =>
      if d == c && Migrates(env.encodedLen, w.g, c, t, frames, |env.sources|) {
        InvConsistent(env, w);
        ResumeBatchServes(env.encodedLen, w.g, c, t, frames, |env.sources|);
        MigrationPosition(env, w, c, t, frames, s);
      }
    case _ =>
  }

  lemma {:induction false} RelayedShorter(frames: seq<Frame>)
    ensures |Relayed(frames)| <= |frames|
    decreases |frames|
  {
    if frames != [] {
      RelayedShorter(Init(frames));
    }
  }
}
