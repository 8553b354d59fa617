/**
  Joins without a cursor. Such a member enters the fan-out first and is greeted with the provider's preamble
  afterwards, and on some routes that preamble carries ordinary events: no event ever repeats, but the order on
  the queue, and whether anything is missing, depend on what happened between entry and greeting.
 */
module FreshJoins {
  import opened Prelude
  import opened MemberQueues
  import opened Fanout
  import opened EngineFeed
  import opened ResumeProtocol
  import opened ResumeAccounts
  import opened ResumeInvariant
  import opened ResumeExactlyOnce

  // ---- the preamble on offer ------------------------------------------------------------------------

  /** Where the provider's connection stood after its preamble. */
  function ProvidedTo(w: World): nat {
    EndAt(w.providedFrom, w.g.preamble)
  }

  /** The preamble on offer came in on the provider's present connection. */
  ghost predicate OfferInv(env: Env, w: World) {
    w.g.provider.Some? ==>
      var p := w.g.provider.value;
      && p in env.sources && Live(w.g, p)
      && Follows(env, p, w.providedFrom, w.g.preamble)
      && ProvidedTo(w) <= w.sharedAt(p)
  }

  /** Only shared connects and losses touch the offer. */
  lemma OfferUntouched(env: Env, w: World, a: Action)
    requires Consistent(w.g) && !a.SharedUp? && !a.SharedDown?
    ensures var g' := GroupAfter(env, w, a);
            g'.provider == w.g.provider && g'.preamble == w.g.preamble && g'.upstreamLive == w.g.upstreamLive
  {
    hide LastPos, LastEid, FannedQueues, RelayPreamble, Admitted, ResumeBatch;
    match a
    case DialBatch(c, t, frames) => BatchKeepsOffer(env, w, c, t, frames);
    case _ =>
  }

  lemma OfferStep(env: Env, w: World, a: Action)
    requires Inv(env, w) && Enabled(env, w, a) && OfferInv(env, w)
    ensures OfferInv(env, Next(env, w, a))
  {
    InvConsistent(env, w);
    match a
    case SharedUp(t, from, frames) => OfferAtUp(env, w, t, from, frames);
    case SharedDown(t) => OfferAtDown(env, w, t);
    case _ => OfferElsewhere(env, w, a);
  }

  lemma OfferAtUp(env: Env, w: World, t: Shard, from: nat, frames: seq<Frame>)
    requires Consistent(w.g) && Enabled(env, w, SharedUp(t, from, frames)) && OfferInv(env, w)
    ensures OfferInv(env, Next(env, w, SharedUp(t, from, frames)))
  {
    hide Follows, EndAt, LastPos, LastEid, Puts, NextReached, NextStart, DialAtAfter;
  }

  lemma OfferAtDown(env: Env, w: World, t: Shard)
    requires Consistent(w.g) && OfferInv(env, w)
    ensures OfferInv(env, Next(env, w, SharedDown(t)))
  {
    hide Follows, EndAt, Puts, NextReached, NextStart, DialAtAfter;
  }

  lemma OfferElsewhere(env: Env, w: World, a: Action)
    requires Consistent(w.g) && Enabled(env, w, a) && OfferInv(env, w) && !a.SharedUp? && !a.SharedDown?
    ensures OfferInv(env, Next(env, w, a))
  {
    OfferUntouched(env, w, a);
    if w.g.provider.Some? {
      SharedAtGrows(env, w, a, w.g.provider.value);
    }
    hide Follows, EndAt, Puts, NextReached, NextStart, DialAtAfter, GroupAfter, SharedAtAfter, Enabled;
  }

  lemma SharedAtGrows(env: Env, w: World, a: Action, s: Shard)
    requires Enabled(env, w, a)
    ensures w.sharedAt(s) <= SharedAtAfter(w, a, s)
  {
    hide Follows, EndAt;
    match a
    case SharedUp(t, from, frames) => DeliveredExactly(env, t, from, frames);
    case SharedBatch(t, frames) => DeliveredExactly(env, t, w.sharedAt(t), frames);
    case _ =>
  }

  lemma BatchKeepsOffer(env: Env, w: World, c: Conn, t: Shard, frames: seq<Frame>)
    requires Consistent(w.g)
    ensures var g' := GroupAfter(env, w, DialBatch(c, t, frames));
            g'.provider == w.g.provider && g'.preamble == w.g.preamble && g'.upstreamLive == w.g.upstreamLive
  {
    hide PutAll, Fanned, LastPos, Relayed, Converged;
  }

  lemma {:induction false} OfferRun(env: Env, worlds: seq<World>, actions: seq<Action>)
    requires IsRun(env, worlds, actions)
    ensures OfferInv(env, Last(worlds))
    decreases |actions|
  {
    hide OfferInv, Inv;
    if actions == [] {
      assert OfferInv(env, Boot()) by { NoOfferAtBoot(env); }
    } else {
      PrefixRun(env, worlds, actions);
      OfferRun(env, Init(worlds), Init(actions));
      RunInvariant(env, Init(worlds), Init(actions));
      OfferStep(env, worlds[|actions| - 1], Last(actions));
    }
  }

  lemma NoOfferAtBoot(env: Env)
    ensures OfferInv(env, Boot())
  {
  }

  // ---- the greeting -----------------------------------------------------------------------------------

  /** How many frames of a preamble fit on a queue. */
  function Room(q: Queue, frames: seq<Frame>): (k: nat)
    ensures k <= |frames|
  {
    if Full(q) then 0
    else if |q.items| + |frames| <= MEMBER_QUEUE_MAX_ITEMS then |frames|
    else MEMBER_QUEUE_MAX_ITEMS - |q.items|
  }

  /** The events of the provider that the greeting of c brings. */
  function Greeting(w: World, c: Conn): seq<nat>
    requires c in w.g.queues
  {
    Events(w.g.preamble[..Room(w.g.queues[c], w.g.preamble)])
  }

  lemma {:induction false} AdmittedFills(q: Queue, frames: seq<Frame>)
    ensures |Admitted(q, frames).items| == |q.items| + Room(q, frames)
    decreases |frames|
  {
    if frames != [] {
      AdmittedFills(q, Init(frames));
    }
  }

  lemma GreetingOne(t: Shard, q: Queue, frames: seq<Frame>)
    requires frames != []
    ensures PreamblePuts(t, q, frames) == PreamblePuts(t, q, Init(frames))
              + (if Full(Admitted(q, Init(frames))) then [] else [Entry(JoinHead(t), Data(Last(frames)), false)])
  {
  }

  lemma SeenSingle(e: Entry, s: Shard)
    ensures Seen([e], s) == SeenOne(e, s) && Seen([], s) == []
  {
    assert Init([e]) == [];
  }

  /** What the last frame of a preamble adds to the part that fits. */
  lemma PartGrows(q: Queue, frames: seq<Frame>)
    requires frames != []
    ensures var front := Init(frames);
            Events(frames[..Room(q, frames)]) ==
            Events(front[..Room(q, front)]) + (if Full(Admitted(q, front)) then [] else EventOf(Last(frames)))
  {
    var front := Init(frames);
    AdmittedFills(q, front);
    hide Admitted, EventOf;
    if Full(Admitted(q, front)) {
      assert frames[..Room(q, frames)] == front[..Room(q, front)];
    } else {
      assert frames[..Room(q, frames)] == frames && front[..Room(q, front)] == front;
    }
  }

  lemma {:induction false} GreetingSeen(t: Shard, q: Queue, frames: seq<Frame>, s: Shard)
    ensures Seen(PreamblePuts(t, q, frames), s) == if s == t then Events(frames[..Room(q, frames)]) else []
    decreases |frames|
  {
    var whole := PreamblePuts(t, q, frames);
    if frames == [] {
      assert whole == [] && Seen(whole, s) == [];
    } else {
      var front, e := Init(frames), Entry(JoinHead(t), Data(Last(frames)), false);
      var more := if Full(Admitted(q, front)) then [] else [e];
      GreetingSeen(t, q, front, s);
      GreetingOne(t, q, frames);
      PartGrows(q, frames);
      SeenSingle(e, s);
      hide PreamblePuts, Admitted, Seen, Events, Room;
      SeenConcat(PreamblePuts(t, q, front), more, s);
    }
  }

  lemma {:induction false} FollowsPart(env: Env, s: Shard, at: nat, frames: seq<Frame>, k: nat)
    requires Follows(env, s, at, frames) && k <= |frames|
    ensures Follows(env, s, at, frames[..k])
    ensures at <= EndAt(at, frames[..k]) <= EndAt(at, frames)
    decreases |frames|
  {
    if k == |frames| {
      assert frames[..k] == frames;
      DeliveredExactly(env, s, at, frames);
    } else {
      assert Init(frames)[..k] == frames[..k];
      FollowsPart(env, s, at, Init(frames), k);
    }
  }

  /** A greeting is in order and lies in the preamble's window. */
  lemma GreetingInWindow(env: Env, w: World, c: Conn)
    requires OfferInv(env, w) && w.g.provider.Some? && c in w.g.queues
    ensures InOrder(Greeting(w, c)) && w.providedFrom <= ProvidedTo(w)
    ensures forall n :: n in Greeting(w, c) ==>
              w.providedFrom < n <= ProvidedTo(w) && env.emits(w.g.provider.value, n)
    ensures Events(w.g.preamble) == Between(env, w.g.provider.value, w.providedFrom, ProvidedTo(w))
    ensures IsPrefix(Greeting(w, c), Events(w.g.preamble))
  {
    hide Follows, Events, Between, EndAt;
    var s, at, frames := w.g.provider.value, w.providedFrom, w.g.preamble;
    var part := frames[..Room(w.g.queues[c], frames)];
    FollowsPart(env, s, at, frames, |part|);
    DeliveredExactly(env, s, at, part);
    DeliveredExactly(env, s, at, frames);
    BetweenIncreases(env, s, at, EndAt(at, part));
    BetweenMembers(env, s, at, EndAt(at, part));
    BetweenSplit(env, s, at, EndAt(at, part), EndAt(at, frames));
  }

  ghost predicate IsPrefix<T>(a: seq<T>, b: seq<T>) {
    a <= b
  }

  // ---- one member, one source ---------------------------------------------------------------------------

  /** Source s offers its preamble to the waiting member c. */
  predicate Offered(w: World, c: Conn, s: Shard) {
    c in w.waiting && c in w.g.members && w.g.provider == Some(s)
  }

  /**
    While s offers c its preamble: c entered before or after the whole window, nothing of the window has reached
    it, and everything fanned since has.
   */
  ghost predicate OfferStands(env: Env, w: World, c: Conn, s: Shard) {
    var got, from, to := Got(w.log(c), s), w.providedFrom, ProvidedTo(w);
    && from <= to <= w.reached(c, s)
    && (w.start(c, s) <= from || to <= w.start(c, s))
    && (forall n :: n in got ==> n <= from || n > to)
    && (forall n :: to < n <= w.reached(c, s) && w.start(c, s) < n && env.emits(s, n) ==> n in got)
  }

  /** What holds of every fresh member. */
  ghost predicate Greeted(env: Env, w: World, c: Conn, s: Shard) {
    && Distinct(Seen(w.log(c), s))
    && (forall n :: n in Seen(w.log(c), s) ==> n <= w.reached(c, s))
    && (Offered(w, c, s) ==> OfferStands(env, w, c, s))
  }

  /** Entries past the whole of a sequence change neither its order nor its distinctness. */
  lemma AppendHigher(a: seq<nat>, more: seq<nat>, mid: nat)
    requires forall n :: n in a ==> n <= mid
    requires InOrder(more) && forall n :: n in more ==> n > mid
    ensures InOrder(a + more) <==> InOrder(a)
    ensures Distinct(a) ==> Distinct(a + more)
  {
    var all := a + more;
    assert forall i :: 0 <= i < |a| ==> all[i] == a[i] && a[i] in a;
    assert forall i :: |a| <= i < |all| ==> all[i] == more[i - |a|] && more[i - |a|] in more;
  }

  /** What any step but its greeting puts on a queue lies past everything before. */
  lemma FeedStep(env: Env, w: World, a: Action, c: Conn, s: Shard)
    requires Inv(env, w) && Enabled(env, w, a) && c in w.g.queues && s in env.sources && Consistent(w.g)
    requires a != JoinPreamble(c)
    ensures var more, w' := Got(Puts(w, a, c), s), Next(env, w, a);
            && InOrder(more)
            && (forall n :: n in more ==> w.reached(c, s) < n <= w'.reached(c, s))
            && w.reached(c, s) <= w'.reached(c, s) && w'.start(c, s) == w.start(c, s)
            && Seen(w'.log(c), s) == Seen(w.log(c), s) + more
            && Got(w'.log(c), s) == Got(w.log(c), s) + more
  {
    hide Inv, Enabled, LossAt, Got, Seen, Puts, ReachedAfter, Next, Between, IsSubseq, Ungreeted;
    var lo, hi := w.reached(c, s), ReachedAfter(env, w, a, c, s);
    EveryAccountStep(env, w, a, c, s);
    AccountExtends(env, w, a, c, s);
    BetweenIncreases(env, s, lo, hi);
    BetweenMembers(env, s, lo, hi);
    SubseqIncreases(Got(Puts(w, a, c), s), Between(env, s, lo, hi));
    OnlyJoinsGreet(env, w, a, c);
    SeenIsGot(Puts(w, a, c), s);
    SeenConcat(w.log(c), Puts(w, a, c), s);
    GotConcat(w.log(c), Puts(w, a, c), s);
  }

  /** The greeting itself. */
  lemma GreetingStep(env: Env, w: World, c: Conn, s: Shard)
    requires Consistent(w.g) && Enabled(env, w, JoinPreamble(c)) && c in w.g.queues && JoinsInv(w)
    ensures var w' := Next(env, w, JoinPreamble(c));
            && w'.reached(c, s) == w.reached(c, s) && w'.start(c, s) == w.start(c, s)
            && Seen(w.log(c), s) == Got(w.log(c), s)
            && Seen(w'.log(c), s) == Got(w.log(c), s) + (if Offered(w, c, s) then Greeting(w, c) else [])
            && !Offered(w', c, s)
  {
    hide Got, Seen, PreamblePuts, Ungreeted, Events;
    var a := JoinPreamble(c);
    SeenSingle(Entry(FrontDoor, Close, false), s);
    SeenIsGot(w.log(c), s);
    AccountExtends(env, w, a, c, s);
    SeenConcat(w.log(c), Puts(w, a, c), s);
    if w.g.provider.Some? && c in w.g.members {
      GreetingSeen(w.g.provider.value, w.g.queues[c], w.g.preamble, s);
      assert Seen(Puts(w, a, c), s) == if Offered(w, c, s) then Greeting(w, c) else [];
    } else {
      assert Puts(w, a, c) == [] && Seen([], s) == [];
    }
    assert Got(w.log(c), s) + [] == Got(w.log(c), s);
  }

  // ---- while the preamble is on offer -----------------------------------------------------------------

  /** A fresh member's records after a step that is no shared traffic and not its greeting. */
  lemma QuietForFresh(env: Env, w: World, a: Action, c: Conn, s: Shard)
    requires Consistent(w.g) && Enabled(env, w, a) && c in w.g.queues && c !in w.g.resumes
    requires !a.SharedUp? && !a.SharedBatch? && a != JoinPreamble(c)
    ensures var w' := Next(env, w, a);
            && w'.reached(c, s) == w.reached(c, s) && w'.start(c, s) == w.start(c, s)
            && w'.providedFrom == w.providedFrom && w'.g.preamble == w.g.preamble
            && (Offered(w', c, s) <==> Offered(w, c, s) && a != SharedDown(s) && a != Leave(c) && a != Drop(c))
  {
    QuietGroup(env, w, a, c, s);
    QuietRecords(env, w, a, c, s);
    hide GroupAfter, Enabled, Puts, NextReached, NextStart, DialAtAfter, SharedAtAfter;
  }

  lemma QuietGroup(env: Env, w: World, a: Action, c: Conn, s: Shard)
    requires Consistent(w.g) && Enabled(env, w, a) && c in w.g.queues && c !in w.g.resumes
    requires !a.SharedUp? && !a.SharedBatch? && a != JoinPreamble(c)
    ensures var g' := GroupAfter(env, w, a);
            && g'.preamble == w.g.preamble
            && (g'.provider == Some(s) <==> w.g.provider == Some(s) && a != SharedDown(s))
            && (c in g'.members <==> c in w.g.members && a != Leave(c) && a != Drop(c))
  {
    hide Follows, LastPos, LastEid, RelayPreamble, Admitted, ResumeBatch, Migrates;
    match a
    case DialBatch(d, t, frames) =>
      BatchKeepsOffer(env, w, d, t, frames);
      ResumeBatchServes(env.encodedLen, w.g, d, t, frames, |env.sources|);
      IgnoredUnless(w.g, d, frames);
    case _ =>
  }

  lemma QuietRecords(env: Env, w: World, a: Action, c: Conn, s: Shard)
    requires Consistent(w.g) && Enabled(env, w, a) && c in w.g.queues && c !in w.g.resumes
    requires !a.SharedUp? && !a.SharedBatch? && a != JoinPreamble(c)
    ensures NextReached(env, w, a, c, s) == w.reached(c, s) && NextStart(env, w, a, c, s) == w.start(c, s)
    ensures ProvidedFromAfter(w, a) == w.providedFrom && (c in WaitingAfter(w, a) <==> c in w.waiting)
  {
    hide Follows, EndAt, Migrates;
  }

  lemma OfferAfterUp(env: Env, w: World, t: Shard, from: nat, frames: seq<Frame>, c: Conn, s: Shard)
    requires Inv(env, w) && OfferInv(env, w) && Greeted(env, w, c, s) && c in w.g.queues && s in env.sources
    requires FeedAccount(env, w, c, s) && JoinsInv(w)
    requires Enabled(env, w, SharedUp(t, from, frames)) && Offered(Next(env, w, SharedUp(t, from, frames)), c, s)
    ensures OfferStands(env, Next(env, w, SharedUp(t, from, frames)), c, s)
  {
    hide Follows, LastPos, LastEid, EndAt, ResumeInv, PosInv, Got, Seen, FeedAccount, Distinct, Ungreeted;
    var a := SharedUp(t, from, frames);
    InvConsistent(env, w);
    AccountExtends(env, w, a, c, s);
    assert Next(env, w, a).log(c) == w.log(c) + [] == w.log(c);
    SeenIsGot(w.log(c), s);
    assert w.reached(c, s) == w.sharedAt(s);
    DeliveredExactly(env, t, from, frames);
    FeedInOrder(env, w, c, s);
    if w.g.provider.None? {
      StartBeforeReached(env, w, c, s);
    }
  }

  lemma StartBeforeReached(env: Env, w: World, c: Conn, s: Shard)
    requires FeedAccount(env, w, c, s)
    ensures w.start(c, s) <= w.reached(c, s)
  {
  }

  lemma OfferAfterBatch(env: Env, w: World, t: Shard, frames: seq<Frame>, c: Conn, s: Shard)
    requires Inv(env, w) && Greeted(env, w, c, s) && c in w.g.queues && s in env.sources
    requires Enabled(env, w, SharedBatch(t, frames)) && Offered(Next(env, w, SharedBatch(t, frames)), c, s)
    ensures OfferStands(env, Next(env, w, SharedBatch(t, frames)), c, s)
  {
    hide Follows, LastPos, LastEid, EndAt, ResumeInv, PosInv, Got, Seen, Distinct, PutAll, Fanned, Between, Events;
    var a := SharedBatch(t, frames);
    InvConsistent(env, w);
    AccountExtends(env, w, a, c, s);
    assert Offered(w, c, s) && !Full(w.g.queues[c]);
    var at := w.sharedAt(t);
    GotConcat(w.log(c), Fanned(t, frames), s);
    GotFanned(t, frames, s);
    DeliveredExactly(env, t, at, frames);
    BetweenMembers(env, t, at, EndAt(at, frames));
    assert Got(Next(env, w, a).log(c), s) == Got(w.log(c), s) + (if t == s then Events(frames) else []);
  }

  lemma WaitersDoNotResume(w: World, c: Conn)
    requires JoinsInv(w) && c in w.waiting
    ensures c !in w.g.resumes
  {
    hide Ungreeted;
  }

  lemma OfferAfterOther(env: Env, w: World, a: Action, c: Conn, s: Shard)
    requires Inv(env, w) && Greeted(env, w, c, s) && c in w.g.queues && s in env.sources && JoinsInv(w)
    requires Enabled(env, w, a) && Offered(Next(env, w, a), c, s)
    requires !a.SharedUp? && !a.SharedBatch? && a != JoinPreamble(c) && c in w.waiting
    ensures OfferStands(env, Next(env, w, a), c, s)
  {
    hide Inv, Enabled, Next, Got, Seen, Distinct, JoinsInv, EndAt;
    InvConsistent(env, w);
    assert c !in w.g.resumes by { WaitersDoNotResume(w, c); }
    QuietForFresh(env, w, a, c, s);
    FeedStep(env, w, a, c, s);
    var more, w' := Got(Puts(w, a, c), s), Next(env, w, a);
    EmptyTogether(more, []);
    assert Got(w'.log(c), s) == Got(w.log(c), s);
  }

  lemma OfferKept(env: Env, w: World, a: Action, c: Conn, s: Shard)
    requires Inv(env, w) && OfferInv(env, w) && Greeted(env, w, c, s) && c in w.g.queues && s in env.sources
    requires FeedAccount(env, w, c, s) && JoinsInv(w)
    requires Enabled(env, w, a) && a != JoinPreamble(c) && Offered(Next(env, w, a), c, s)
    ensures OfferStands(env, Next(env, w, a), c, s)
  {
    hide Inv, OfferInv, Greeted, FeedAccount, Enabled, OfferStands, GroupAfter;
    InvConsistent(env, w);
    match a
    case SharedUp(t, from, frames) => OfferAfterUp(env, w, t, from, frames, c, s);
    case SharedBatch(t, frames) => OfferAfterBatch(env, w, t, frames, c, s);
    case _ =>
      StillWaiting(env, w, a, c);
      OfferAfterOther(env, w, a, c, s);
  }

  lemma StillWaiting(env: Env, w: World, a: Action, c: Conn)
    requires Consistent(w.g) && Enabled(env, w, a) && c in w.g.queues && c in Next(env, w, a).waiting
    ensures c in w.waiting
  {
    hide Follows;
  }

  // ---- every run ---------------------------------------------------------------------------------------

  /**
    The greeting comes too late: it brings an event of s, and an event of s past the preamble's window has
    been fanned to c since it entered.
   */
  ghost predicate Disorders(env: Env, w: World, a: Action, c: Conn, s: Shard) {
    && a == JoinPreamble(c) && c in w.g.queues && Offered(w, c, s)
    && Greeting(w, c) != []
    && Missed(env, s, Larger(w.start(c, s), ProvidedTo(w)), w.sharedAt(s))
  }

  /** Two ordered sequences that do not interleave. */
  lemma GreetingJoins(got: seq<nat>, greeting: seq<nat>, from: nat, to: nat)
    requires InOrder(got) && InOrder(greeting)
    requires forall n :: n in greeting ==> from < n <= to
    requires forall n :: n in got ==> n <= from || n > to
    ensures Distinct(got + greeting)
    ensures InOrder(got + greeting) <==> greeting == [] || forall n :: n in got ==> n <= from
  {
    var all := got + greeting;
    assert forall i :: 0 <= i < |got| ==> all[i] == got[i] && got[i] in got;
    assert forall i :: |got| <= i < |all| ==> all[i] == greeting[i - |got|] && greeting[i - |got|] in greeting;
    if greeting != [] {
      assert all[|got|] == greeting[0] && greeting[0] in greeting;
      if n :| n in got && n > from {
        var i :| 0 <= i < |got| && got[i] == n;
        assert all[i] > all[|got|];
      }
    }
  }

  /** The greeting keeps a fresh member's records, and keeps them in order exactly when it is not late. */
  lemma GreetingKeeps(env: Env, w: World, c: Conn, s: Shard)
    requires Inv(env, w) && OfferInv(env, w) && JoinsInv(w) && Greeted(env, w, c, s) && FeedAccount(env, w, c, s)
    requires Enabled(env, w, JoinPreamble(c)) && c in w.g.queues && s in env.sources
    ensures Greeted(env, Next(env, w, JoinPreamble(c)), c, s)
    ensures InOrder(Seen(w.log(c), s))
    ensures InOrder(Seen(Next(env, w, JoinPreamble(c)).log(c), s)) <==> !Disorders(env, w, JoinPreamble(c), c, s)
  {
    hide Got, Seen, Greeting, JoinsInv, Follows, EndAt, Next, ProvidedTo, ResumeInv, PosInv, Ungreeted, FeedAccount;
    InvConsistent(env, w);
    FeedInOrder(env, w, c, s);
    GreetingStep(env, w, c, s);
    var got := Got(w.log(c), s);
    if Offered(w, c, s) {
      GreetingInWindow(env, w, c);
      GreetingJoins(got, Greeting(w, c), w.providedFrom, ProvidedTo(w));
      assert w.reached(c, s) == w.sharedAt(s);
      assert (forall n :: n in got ==> n <= w.providedFrom) <==>
             !Missed(env, s, Larger(w.start(c, s), ProvidedTo(w)), w.sharedAt(s));
    } else {
      assert got + [] == got;
    }
  }

  /** Every other step keeps a fresh member's records and the order of its queue. */
  lemma FeedKeeps(env: Env, w: World, a: Action, c: Conn, s: Shard)
    requires Inv(env, w) && OfferInv(env, w) && JoinsInv(w) && Greeted(env, w, c, s) && FeedAccount(env, w, c, s)
    requires Enabled(env, w, a) && a != JoinPreamble(c) && c in w.g.queues && s in env.sources
    ensures Greeted(env, Next(env, w, a), c, s)
    ensures InOrder(Seen(Next(env, w, a).log(c), s)) <==> InOrder(Seen(w.log(c), s))
  {
    hide Got, Seen, Inv, OfferInv, JoinsInv, Enabled, Next, FeedAccount, OfferStands;
    InvConsistent(env, w);
    FeedStep(env, w, a, c, s);
    AppendHigher(Seen(w.log(c), s), Got(Puts(w, a, c), s), w.reached(c, s));
    if Offered(Next(env, w, a), c, s) {
      OfferKept(env, w, a, c, s);
    }
  }

  lemma GreetedNewcomer(env: Env, w: World, a: Action, c: Conn, s: Shard)
    requires Inv(env, w) && OfferInv(env, w) && Enabled(env, w, a) && Consistent(w.g)
    requires c !in w.g.queues && c in Next(env, w, a).g.queues && c !in w.waiting && c !in w.resumed
    ensures Greeted(env, Next(env, w, a), c, s) && Seen(Next(env, w, a).log(c), s) == []
  {
    hide Follows, EndAt, ResumeInv, PosInv, Got;
    OnlyJoinsEnter(env, w, a, c);
    assert Next(env, w, a).log(c) == [];
    assert Got([], s) == [] by { GotNothing(s); }
    if Offered(Next(env, w, a), c, s) {
      GreetingWindow(env, w, s);
    }
  }

  lemma GotNothing(s: Shard)
    ensures Got([], s) == []
  {
  }

  lemma GreetingWindow(env: Env, w: World, s: Shard)
    requires OfferInv(env, w) && w.g.provider == Some(s)
    ensures w.providedFrom <= ProvidedTo(w) <= w.sharedAt(s)
  {
    DeliveredExactly(env, s, w.providedFrom, w.g.preamble);
  }

  /** No step of the run greets c too late. */
  ghost predicate GreetedInTime(env: Env, worlds: seq<World>, actions: seq<Action>, c: Conn, s: Shard)
    requires |worlds| == |actions| + 1
  {
    forall i :: 0 <= i < |actions| ==> !Disorders(env, worlds[i], actions[i], c, s)
  }

  lemma GreetedInTimeSoFar(env: Env, worlds: seq<World>, actions: seq<Action>, c: Conn, s: Shard)
    requires |worlds| == |actions| + 1 && actions != []
    ensures GreetedInTime(env, worlds, actions, c, s) <==>
            GreetedInTime(env, Init(worlds), Init(actions), c, s)
            && !Disorders(env, worlds[|actions| - 1], Last(actions), c, s)
  {
    hide Disorders;
    assert forall i :: 0 <= i < |actions| - 1 ==> Init(worlds)[i] == worlds[i] && Init(actions)[i] == actions[i];
  }

  /**
    Whoever joined however, in any run: no event of a source is on its queue twice, and the events of a source
    come in order if and only if no greeting came too late.
   */
  lemma {:induction false} InOrderIffGreetedInTime(env: Env, worlds: seq<World>, actions: seq<Action>, c: Conn, s: Shard)
    requires IsRun(env, worlds, actions) && s in env.sources && c in Last(worlds).g.queues
    ensures Greeted(env, Last(worlds), c, s)
    ensures InOrder(Seen(Last(worlds).log(c), s)) <==> GreetedInTime(env, worlds, actions, c, s)
    decreases |actions|
  {
    hide Inv, Enabled, FeedAccount, Consistent, Seen, GreetedInTime, Greeted, OfferInv, JoinsInv, Disorders;
    if actions == [] {
      NobodyAtBoot(c);
    } else {
      var n := |actions| - 1;
      var w, a := worlds[n], actions[n];
      PrefixRun(env, worlds, actions);
      GreetedInTimeSoFar(env, worlds, actions, c, s);
      RunInvariant(env, Init(worlds), Init(actions));
      OfferRun(env, Init(worlds), Init(actions));
      JoinsRun(env, Init(worlds), Init(actions));
      if c in w.g.queues {
        FeedExactIffNoLoss(env, Init(worlds), Init(actions), c, s);
        InOrderIffGreetedInTime(env, Init(worlds), Init(actions), c, s);
        InTimeStep(env, w, a, c, s);
      } else {
        UnknownInTime(env, Init(worlds), Init(actions), c, s);
        UnknownNeverDisorders(env, w, a, c, s);
        UnknownNeverWaits(w, c);
        GreetedNewcomer(env, w, a, c, s);
      }
    }
  }

  lemma InTimeStep(env: Env, w: World, a: Action, c: Conn, s: Shard)
    requires Inv(env, w) && OfferInv(env, w) && JoinsInv(w) && Greeted(env, w, c, s) && FeedAccount(env, w, c, s)
    requires Enabled(env, w, a) && c in w.g.queues && s in env.sources && Consistent(w.g)
    ensures Greeted(env, Next(env, w, a), c, s)
    ensures InOrder(Seen(Next(env, w, a).log(c), s)) <==> InOrder(Seen(w.log(c), s)) && !Disorders(env, w, a, c, s)
  {
    hide Inv, Enabled, FeedAccount, Consistent, Seen, Greeted, OfferInv, JoinsInv, Next;
    if a == JoinPreamble(c) {
      GreetingKeeps(env, w, c, s);
    } else {
      FeedKeeps(env, w, a, c, s);
    }
  }

  lemma UnknownNeverDisorders(env: Env, w: World, a: Action, c: Conn, s: Shard)
    requires c !in w.g.queues
    ensures !Disorders(env, w, a, c, s)
  {
  }

  lemma UnknownNeverWaits(w: World, c: Conn)
    requires JoinsInv(w) && c !in w.g.queues
    ensures c !in w.waiting && c !in w.resumed
  {
  }

  lemma UnknownInTime(env: Env, worlds: seq<World>, actions: seq<Action>, c: Conn, s: Shard)
    requires IsRun(env, worlds, actions) && c !in Last(worlds).g.queues
    ensures GreetedInTime(env, worlds, actions, c, s)
    ensures InOrder([])
  {
    NotYetThere(env, worlds, actions, c);
    forall i | 0 <= i < |actions|
      ensures !Disorders(env, worlds[i], actions[i], c, s)
    {
      UnknownNeverDisorders(env, worlds[i], actions[i], c, s);
    }
  }

  /** No event of a source is ever put on a queue twice, whether fanned, relayed or brought by a greeting. */
  lemma NeverTwice(env: Env, worlds: seq<World>, actions: seq<Action>, c: Conn, s: Shard)
    requires IsRun(env, worlds, actions) && s in env.sources && c in Last(worlds).g.queues
    ensures Distinct(Seen(Last(worlds).log(c), s))
  {
    hide IsRun, GreetedInTime, Seen;
    InOrderIffGreetedInTime(env, worlds, actions, c, s);
  }
}
