/**
  What a fresh join is missing. A shared reconnect passes events in its preamble window without fanning them;
  a member that is still waiting for its greeting gets them after all, if the reconnected upstream becomes the
  provider and neither side is lost before the greeting.
 */
module FreshGaps {
  import opened Prelude
  import opened MemberQueues
  import opened Fanout
  import opened EngineFeed
  import opened ResumeProtocol
  import opened ResumeAccounts
  import opened ResumeInvariant
  import opened ResumeExactlyOnce
  import opened FreshJoins

  /** The preamble on offer lies past c's start, so c is owed the events in its window. */
  predicate Owed(w: World, c: Conn, s: Shard) {
    Offered(w, c, s) && w.start(c, s) <= w.providedFrom
  }

  /** The event reached c, or c is owed it. */
  ghost predicate Covered(w: World, c: Conn, s: Shard, n: nat) {
    n in Seen(w.log(c), s) || (Owed(w, c, s) && w.providedFrom < n <= ProvidedTo(w))
  }

  ghost predicate Hole(env: Env, w: World, c: Conn, s: Shard) {
    exists n: nat :: IsHole(env, w, c, s, n)
  }

  ghost predicate IsHole(env: Env, w: World, c: Conn, s: Shard, n: nat) {
    w.start(c, s) < n <= w.reached(c, s) && env.emits(s, n) && !Covered(w, c, s, n)
  }

  /** Every event from c's start up to where it stands is on its queue. */
  ghost predicate AllThere(env: Env, w: World, c: Conn, s: Shard) {
    forall n: nat :: w.start(c, s) < n <= w.reached(c, s) && env.emits(s, n) ==> n in Seen(w.log(c), s)
  }

  /**
    The branches that cost a fresh member an event of s: a reconnect whose window (or, for a member it will
    greet, whose outage) holds one; a greeting that runs out of room; and, while c is owed the window, the loss
    of the provider, a leave, a drop, or a stall.
   */
  ghost predicate MissesAt(env: Env, w: World, a: Action, c: Conn, s: Shard)
    requires c in w.g.queues
  {
    match a
    case SharedUp(t, from, frames) =>
      t == s && c in w.g.members
      && Missed(env, s, w.sharedAt(s), if c in w.waiting && w.g.provider.None? then from else EndAt(from, frames))
    case SharedBatch(_, _) => c in w.g.members && Full(w.g.queues[c]) && OwedEvents(w, c, s)
    case SharedDown(t) => t == s && OwedEvents(w, c, s)
    case JoinPreamble(d) => d == c && Owed(w, c, s) && Greeting(w, c) != Events(w.g.preamble)
    case Leave(d) => d == c && OwedEvents(w, c, s)
    case Drop(d) => d == c && OwedEvents(w, c, s)
    case _ => false
  }

  ghost predicate OwedEvents(w: World, c: Conn, s: Shard) {
    Owed(w, c, s) && Events(w.g.preamble) != []
  }

  // ---- how a step moves the holes -----------------------------------------------------------------------

  /** Records and offer unchanged: the same holes. */
  lemma SameHoles(env: Env, w: World, w': World, c: Conn, s: Shard)
    requires w'.start(c, s) == w.start(c, s) && w'.reached(c, s) == w.reached(c, s)
    requires forall n :: n > w.start(c, s) ==> (n in Seen(w'.log(c), s) <==> n in Seen(w.log(c), s))
    requires Owed(w', c, s) <==> Owed(w, c, s)
    requires Owed(w, c, s) ==> w'.providedFrom == w.providedFrom && ProvidedTo(w') == ProvidedTo(w)
    ensures Hole(env, w', c, s) <==> Hole(env, w, c, s)
  {
    hide Seen, Owed, ProvidedTo;
    forall n: nat
      ensures IsHole(env, w', c, s, n) <==> IsHole(env, w, c, s, n)
    {
    }
  }

  /** What is owed has not been seen and lies in the account. */
  lemma OwedUnseen(env: Env, w: World, c: Conn, s: Shard)
    requires OfferInv(env, w) && JoinsInv(w) && Greeted(env, w, c, s) && Owed(w, c, s) && c in w.g.queues
    ensures forall n :: w.providedFrom < n <= ProvidedTo(w) ==>
              n !in Seen(w.log(c), s) && w.start(c, s) < n <= w.reached(c, s)
    ensures Events(w.g.preamble) != [] <==> Missed(env, s, w.providedFrom, ProvidedTo(w))
  {
    hide Seen, Got, Events, Ungreeted, Missed, EndAt, Follows, Distinct;
    SeenIsGot(w.log(c), s);
    GreetingInWindow(env, w, c);
    MissedIffBetween(env, s, w.providedFrom, ProvidedTo(w));
  }

  /** The offer ends unpaid: the window's events become holes. */
  lemma OfferLapses(env: Env, w: World, w': World, c: Conn, s: Shard)
    requires OfferInv(env, w) && JoinsInv(w) && Greeted(env, w, c, s) && c in w.g.queues
    requires w'.start(c, s) == w.start(c, s) && w'.reached(c, s) == w.reached(c, s)
    requires forall n :: n > w.start(c, s) ==> (n in Seen(w'.log(c), s) <==> n in Seen(w.log(c), s))
    requires !Owed(w', c, s)
    ensures Hole(env, w', c, s) <==> Hole(env, w, c, s) || OwedEvents(w, c, s)
  {
    hide Seen, Events, OfferInv, JoinsInv, Greeted;
    if Owed(w, c, s) {
      OwedUnseen(env, w, c, s);
      hide Owed, ProvidedTo;
      if n: nat :| IsHole(env, w, c, s, n) {
        assert IsHole(env, w', c, s, n);
      }
      if n: nat :| w.providedFrom < n <= ProvidedTo(w) && env.emits(s, n) {
        assert n !in Seen(w.log(c), s) && n !in Seen(w'.log(c), s);
        assert IsHole(env, w', c, s, n);
      }
      if n: nat :| IsHole(env, w', c, s, n) {
        if !IsHole(env, w, c, s, n) {
          assert w.providedFrom < n <= ProvidedTo(w) && env.emits(s, n);
        }
      }
    } else {
      SameHoles(env, w, w', c, s);
    }
  }

  /** The greeting pays what is owed, as far as there is room. */
  lemma OfferPaid(env: Env, w: World, c: Conn, s: Shard)
    requires Inv(env, w) && OfferInv(env, w) && JoinsInv(w) && Greeted(env, w, c, s) && c in w.g.queues
    requires Enabled(env, w, JoinPreamble(c)) && Owed(w, c, s)
    ensures Hole(env, Next(env, w, JoinPreamble(c)), c, s) <==>
            Hole(env, w, c, s) || Greeting(w, c) != Events(w.g.preamble)
  {
    hide Seen, Got, Events, OfferInv, JoinsInv, Greeted, Next, Greeting, Inv;
    InvConsistent(env, w);
    GreetingStep(env, w, c, s);
    GreetingInWindow(env, w, c);
    OwedUnseen(env, w, c, s);
    BetweenMembers(env, s, w.providedFrom, ProvidedTo(w));
    BetweenIncreases(env, s, w.providedFrom, ProvidedTo(w));
    var w', paid, all := Next(env, w, JoinPreamble(c)), Greeting(w, c), Events(w.g.preamble);
    hide Owed, ProvidedTo, Between;
    assert forall n :: n in Seen(w'.log(c), s) <==> n in Seen(w.log(c), s) || n in paid;
    if n: nat :| IsHole(env, w, c, s, n) {
      assert n !in paid;
      assert IsHole(env, w', c, s, n);
    }
    if paid != all {
      var n := all[|paid|];
      assert n in all && forall i :: 0 <= i < |paid| ==> paid[i] == all[i] && all[i] < n;
      assert n !in paid;
      assert IsHole(env, w', c, s, n);
    }
    if n: nat :| IsHole(env, w', c, s, n) {
      if !IsHole(env, w, c, s, n) {
        assert n in all && n !in paid;
      }
    }
  }

  lemma HoleQuiet(env: Env, w: World, a: Action, c: Conn, s: Shard)
    requires Inv(env, w) && OfferInv(env, w) && JoinsInv(w) && Greeted(env, w, c, s)
    requires Enabled(env, w, a) && c in w.g.queues && s in env.sources && c !in w.resumed
    requires !a.SharedUp? && !a.SharedBatch? && a != JoinPreamble(c)
    ensures Hole(env, Next(env, w, a), c, s) <==> Hole(env, w, c, s) || MissesAt(env, w, a, c, s)
  {
    hide Inv, OfferInv, Greeted, Enabled, Next, Seen, Got, Hole, Events, ProvidedTo, Ungreeted;
    InvConsistent(env, w);
    assert c !in w.g.resumes;
    hide JoinsInv;
    QuietForFresh(env, w, a, c, s);
    FeedStep(env, w, a, c, s);
    EmptyTogether(Got(Puts(w, a, c), s), []);
    var w' := Next(env, w, a);
    if a == SharedDown(s) || a == Leave(c) || a == Drop(c) {
      OfferLapses(env, w, w', c, s);
    } else {
      SameWindow(w, w');
      SameHoles(env, w, w', c, s);
    }
  }

  lemma SameWindow(w: World, w': World)
    requires w'.providedFrom == w.providedFrom && w'.g.preamble == w.g.preamble
    ensures ProvidedTo(w') == ProvidedTo(w)
  {
  }

  lemma HoleGreeting(env: Env, w: World, c: Conn, s: Shard)
    requires Inv(env, w) && OfferInv(env, w) && JoinsInv(w) && Greeted(env, w, c, s)
    requires Enabled(env, w, JoinPreamble(c)) && c in w.g.queues && s in env.sources
    ensures Hole(env, Next(env, w, JoinPreamble(c)), c, s) <==>
            Hole(env, w, c, s) || MissesAt(env, w, JoinPreamble(c), c, s)
  {
    hide Inv, OfferInv, Seen, Got, Hole, Events, Greeting, Next, JoinsInv, ProvidedTo, Distinct;
    if Owed(w, c, s) {
      OfferPaid(env, w, c, s);
    } else {
      InvConsistent(env, w);
      GreetingStep(env, w, c, s);
      if Offered(w, c, s) {
        GreetingInWindow(env, w, c);
      }
      OfferLapses(env, w, Next(env, w, JoinPreamble(c)), c, s);
    }
  }

  lemma HoleBatch(env: Env, w: World, t: Shard, frames: seq<Frame>, c: Conn, s: Shard)
    requires Inv(env, w) && OfferInv(env, w) && JoinsInv(w) && Greeted(env, w, c, s)
    requires Enabled(env, w, SharedBatch(t, frames)) && c in w.g.queues && s in env.sources
    ensures Hole(env, Next(env, w, SharedBatch(t, frames)), c, s) <==>
            Hole(env, w, c, s) || MissesAt(env, w, SharedBatch(t, frames), c, s)
  {
    hide Inv, OfferInv, Greeted, Seen, Got, Hole, Events, JoinsInv, ProvidedTo, Follows, EndAt;
    var a := SharedBatch(t, frames);
    InvConsistent(env, w);
    FeedStep(env, w, a, c, s);
    var w' := Next(env, w, a);
    BatchReaches(env, w, t, frames, c, s);
    SameWindow(w, w');
    hide Next, Puts, GroupAfter;
    if c in w.g.members && !Full(w.g.queues[c]) && t == s {
      NothingPassedUnseen(env, w, w', c, s, Got(Puts(w, a, c), s));
    } else {
      EmptyTogether(Got(Puts(w, a, c), s), []);
      if c in w.g.members && Full(w.g.queues[c]) {
        OfferLapses(env, w, w', c, s);
      } else {
        SameHoles(env, w, w', c, s);
      }
    }
  }

  lemma BatchReaches(env: Env, w: World, t: Shard, frames: seq<Frame>, c: Conn, s: Shard)
    requires Inv(env, w) && Enabled(env, w, SharedBatch(t, frames)) && c in w.g.queues && s in env.sources
    ensures Consistent(w.g)
    ensures var a, w' := SharedBatch(t, frames), Next(env, w, SharedBatch(t, frames));
            var hit := c in w.g.members && !Full(w.g.queues[c]);
            && w'.providedFrom == w.providedFrom && w'.g.preamble == w.g.preamble
            && (Offered(w', c, s) <==> Offered(w, c, s) && hit)
            && (!hit || t != s ==> w'.reached(c, s) == w.reached(c, s))
            && (hit && t == s ==> Got(Puts(w, a, c), s) == Between(env, s, w.reached(c, s), w'.reached(c, s)))
  {
    hide Follows, LastPos, LastEid, EndAt, Between, Got, PutAll, Fanned, Events, ResumeInv, PosInv;
    if t == s && c in w.g.members {
      GotFanned(t, frames, s);
      DeliveredExactly(env, t, w.sharedAt(t), frames);
      assert w.reached(c, s) == w.sharedAt(s);
    }
  }

  /** A fanned batch brings every event it passes. */
  lemma NothingPassedUnseen(env: Env, w: World, w': World, c: Conn, s: Shard, more: seq<nat>)
    requires w'.start(c, s) == w.start(c, s) && w.reached(c, s) <= w'.reached(c, s)
    requires Seen(w'.log(c), s) == Seen(w.log(c), s) + more
    requires more == Between(env, s, w.reached(c, s), w'.reached(c, s))
    requires Owed(w', c, s) <==> Owed(w, c, s)
    requires w'.providedFrom == w.providedFrom && ProvidedTo(w') == ProvidedTo(w)
    ensures Hole(env, w', c, s) <==> Hole(env, w, c, s)
  {
    hide Seen, Owed, ProvidedTo, Between;
    BetweenMembers(env, s, w.reached(c, s), w'.reached(c, s));
    forall n: nat
      ensures IsHole(env, w', c, s, n) <==> IsHole(env, w, c, s, n)
    {
    }
  }

  lemma HoleUp(env: Env, w: World, t: Shard, from: nat, frames: seq<Frame>, c: Conn, s: Shard)
    requires Inv(env, w) && OfferInv(env, w) && JoinsInv(w) && Greeted(env, w, c, s) && FeedAccount(env, w, c, s)
    requires Enabled(env, w, SharedUp(t, from, frames)) && c in w.g.queues && s in env.sources
    ensures Hole(env, Next(env, w, SharedUp(t, from, frames)), c, s) <==>
            Hole(env, w, c, s) || MissesAt(env, w, SharedUp(t, from, frames), c, s)
  {
    hide Inv, Greeted, Seen, Got, Hole, Events, JoinsInv, Follows, EndAt, LastPos, LastEid, FeedAccount, Missed;
    var a := SharedUp(t, from, frames);
    InvConsistent(env, w);
    FeedStep(env, w, a, c, s);
    StartBeforeReached(env, w, c, s);
    var w' := Next(env, w, a);
    assert Puts(w, a, c) == [] && Got([], s) == [] by { GotNothing(s); }
    assert Seen(w'.log(c), s) == Seen(w.log(c), s);
    if t == s && c in w.g.members {
      assert w.reached(c, s) == w.sharedAt(s) by { MembersStandThere(env, w, c, s); }
      DeliveredExactly(env, t, from, frames);
      SeenReached(env, w, c, s);
      WindowPasses(env, w, w', c, s, if c in w.waiting && w.g.provider.None? then from else EndAt(from, frames));
    } else {
      SameHoles(env, w, w', c, s);
    }
  }

  lemma MembersStandThere(env: Env, w: World, c: Conn, s: Shard)
    requires Inv(env, w) && c in w.g.members && s in env.sources
    ensures w.reached(c, s) == w.sharedAt(s)
  {
    hide ResumeInv, PosInv;
  }

  lemma SeenReached(env: Env, w: World, c: Conn, s: Shard)
    requires Greeted(env, w, c, s)
    ensures forall n :: n in Seen(w.log(c), s) ==> n <= w.reached(c, s)
  {
  }

  /** A connect passes events up to `lost` for good; what lies after that is owed from now on. */
  lemma WindowPasses(env: Env, w: World, w': World, c: Conn, s: Shard, lost: nat)
    requires w'.start(c, s) == w.start(c, s) <= w.reached(c, s) <= lost <= w'.reached(c, s)
    requires Seen(w'.log(c), s) == Seen(w.log(c), s)
    requires forall n :: n in Seen(w.log(c), s) ==> n <= w.reached(c, s)
    requires !Owed(w, c, s)
    requires if Owed(w', c, s) then w'.providedFrom == lost && ProvidedTo(w') == w'.reached(c, s) else lost == w'.reached(c, s)
    ensures Hole(env, w', c, s) <==> Hole(env, w, c, s) || Missed(env, s, w.reached(c, s), lost)
  {
    hide Seen, Owed, ProvidedTo;
    if n: nat :| IsHole(env, w, c, s, n) {
      assert IsHole(env, w', c, s, n);
    }
    if n: nat :| w.reached(c, s) < n <= lost && env.emits(s, n) {
      assert IsHole(env, w', c, s, n);
    }
    if n: nat :| IsHole(env, w', c, s, n) {
      assert IsHole(env, w, c, s, n) || (w.reached(c, s) < n <= lost && env.emits(s, n));
    }
  }

  lemma HoleStep(env: Env, w: World, a: Action, c: Conn, s: Shard)
    requires Inv(env, w) && OfferInv(env, w) && JoinsInv(w) && Greeted(env, w, c, s) && FeedAccount(env, w, c, s)
    requires Enabled(env, w, a) && c in w.g.queues && s in env.sources && c !in w.resumed
    ensures Hole(env, Next(env, w, a), c, s) <==> Hole(env, w, c, s) || MissesAt(env, w, a, c, s)
  {
    hide Inv, OfferInv, JoinsInv, Greeted, FeedAccount, Enabled, Next, Hole, MissesAt;
    match a
    case SharedUp(t, from, frames) => HoleUp(env, w, t, from, frames, c, s);
    case SharedBatch(t, frames) => HoleBatch(env, w, t, frames, c, s);
    case _ =>
      if a == JoinPreamble(c) {
        HoleGreeting(env, w, c, s);
      } else {
        HoleQuiet(env, w, a, c, s);
      }
  }

  // ---- every run ---------------------------------------------------------------------------------------

  ghost predicate Misses(env: Env, w: World, a: Action, c: Conn, s: Shard) {
    c in w.g.queues && MissesAt(env, w, a, c, s)
  }

  /** No step of the run takes a branch that costs c an event of s. */
  ghost predicate MissesNothing(env: Env, worlds: seq<World>, actions: seq<Action>, c: Conn, s: Shard)
    requires |worlds| == |actions| + 1
  {
    forall i :: 0 <= i < |actions| ==> !Misses(env, worlds[i], actions[i], c, s)
  }

  lemma MissesNothingSoFar(env: Env, worlds: seq<World>, actions: seq<Action>, c: Conn, s: Shard)
    requires |worlds| == |actions| + 1 && actions != []
    ensures MissesNothing(env, worlds, actions, c, s) <==>
            MissesNothing(env, Init(worlds), Init(actions), c, s)
            && !Misses(env, worlds[|actions| - 1], Last(actions), c, s)
  {
    hide Misses;
    assert forall i :: 0 <= i < |actions| - 1 ==> Init(worlds)[i] == worlds[i] && Init(actions)[i] == actions[i];
  }

  lemma {:induction false} HoleIffMissed(env: Env, worlds: seq<World>, actions: seq<Action>, c: Conn, s: Shard)
    requires IsRun(env, worlds, actions) && s in env.sources
    requires c in Last(worlds).g.queues && c !in Last(worlds).resumed
    ensures Hole(env, Last(worlds), c, s) <==> !MissesNothing(env, worlds, actions, c, s)
    decreases |actions|
  {
    hide Inv, Enabled, FeedAccount, Consistent, Greeted, OfferInv, JoinsInv, Hole, MissesNothing, MissesAt;
    if actions == [] {
      NobodyAtBoot(c);
    } else {
      var w, a := worlds[|actions| - 1], Last(actions);
      PrefixRun(env, worlds, actions);
      MissesNothingSoFar(env, worlds, actions, c, s);
      RunInvariant(env, Init(worlds), Init(actions));
      OfferRun(env, Init(worlds), Init(actions));
      JoinsRun(env, Init(worlds), Init(actions));
      if c in w.g.queues {
        FeedExactIffNoLoss(env, Init(worlds), Init(actions), c, s);
        InOrderIffGreetedInTime(env, Init(worlds), Init(actions), c, s);
        HoleIffMissed(env, Init(worlds), Init(actions), c, s);
        HoleStep(env, w, a, c, s);
      } else {
        UnknownMissesNothing(env, Init(worlds), Init(actions), c, s);
        NewcomerWhole(env, w, a, c, s);
      }
    }
  }

  lemma UnknownMissesNothing(env: Env, worlds: seq<World>, actions: seq<Action>, c: Conn, s: Shard)
    requires IsRun(env, worlds, actions) && c !in Last(worlds).g.queues
    ensures MissesNothing(env, worlds, actions, c, s)
  {
    hide MissesAt;
    NotYetThere(env, worlds, actions, c);
  }

  lemma NewcomerWhole(env: Env, w: World, a: Action, c: Conn, s: Shard)
    requires Consistent(w.g) && Enabled(env, w, a) && c !in w.g.queues && c in Next(env, w, a).g.queues
    ensures !Hole(env, Next(env, w, a), c, s)
  {
    hide Follows, GroupAfter, Seen;
    OnlyJoinsEnter(env, w, a, c);
  }

  /**
    A fresh member has every event of s from its entry on, if and only if no step took a branch that cost it
    one and it is not still owed a preamble with events.
   */
  lemma AllThereIff(env: Env, worlds: seq<World>, actions: seq<Action>, c: Conn, s: Shard)
    requires IsRun(env, worlds, actions) && s in env.sources
    requires c in Last(worlds).g.queues && c !in Last(worlds).resumed
    ensures var w := Last(worlds);
            AllThere(env, w, c, s) <==> MissesNothing(env, worlds, actions, c, s) && !OwedEvents(w, c, s)
  {
    hide MissesNothing, Seen, Greeted, OfferInv, JoinsInv, Owed, ProvidedTo, Events;
    assert worlds != [];
    OfferRun(env, worlds, actions);
    JoinsRun(env, worlds, actions);
    InOrderIffGreetedInTime(env, worlds, actions, c, s);
    HoleIffMissed(env, worlds, actions, c, s);
    hide IsRun;
    var w := Last(worlds);
    if n: nat :| IsHole(env, w, c, s, n) {
      assert n !in Seen(w.log(c), s);
    }
    if Owed(w, c, s) {
      OwedUnseen(env, w, c, s);
    }
    if OwedEvents(w, c, s) {
      var n: nat :| w.providedFrom < n <= ProvidedTo(w) && env.emits(s, n);
      assert n !in Seen(w.log(c), s) && w.start(c, s) < n;
    }
    if n: nat :| w.start(c, s) < n <= w.reached(c, s) && env.emits(s, n) && n !in Seen(w.log(c), s) {
      assert IsHole(env, w, c, s, n) || OwedEvents(w, c, s);
    }
  }
}
