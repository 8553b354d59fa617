/** What members' queues hold over whole runs: the meaning of what was put, in bounded space, head first. */
module ResumeQueues {
  import opened Prelude
  import opened MemberQueues
  import opened Fanout
  import opened EngineFeed
  import opened ResumeProtocol
  import opened ResumeAccounts
  import opened ResumeInvariant
  import opened ResumeExactlyOnce

  function Items(es: seq<Entry>): seq<Item>
    decreases |es|
  {
    if es == [] then [] else Items(Init(es)) + [Last(es).item]
  }

  lemma {:induction false} ItemsConcat(a: seq<Entry>, b: seq<Entry>)
    ensures Items(a + b) == Items(a) + Items(b)
    decreases |b|
  {
    if b == [] {
      assert a + b == a;
    } else {
      assert Init(a + b) == a + Init(b);
      ItemsConcat(a, Init(b));
    }
  }

  // ---- delivery: what was taken and what is queued means what was put ------------------------------

  ghost predicate Delivers(w: World, c: Conn)
    requires c in w.g.queues
  {
    && Valid(w.g.queues[c])
    && Meaning(w.taken(c) + w.g.queues[c].items) == Meaning(Items(w.log(c)))
  }

  lemma {:induction false} PutAllMeans(len: Body -> nat, taken: seq<Item>, q: Queue, puts: seq<Item>, es: seq<Entry>)
    requires Valid(q) && Meaning(taken + q.items) == Meaning(puts)
    ensures Valid(PutAll(len, q, es))
    ensures Meaning(taken + PutAll(len, q, es).items) == Meaning(puts + Items(es))
    decreases |es|
  {
    hide Meaning, PutAll, Absorb, Valid, Put, PutCoalescing, PutEntry, Items;
    ItemsUnfold(es);
    if es == [] {
      PutNone(len, q);
      assert puts + [] == puts;
    } else {
      PutAllMeans(len, taken, q, puts, Init(es));
      PutSnoc(len, q, Init(es), Last(es));
      assert Init(es) + [Last(es)] == es;
      OnePutMeans(len, taken, PutAll(len, q, Init(es)), puts + Items(Init(es)), Last(es));
      assert puts + Items(Init(es)) + [Last(es).item] == puts + (Items(Init(es)) + [Last(es).item]);
    }
  }

  lemma ItemsUnfold(es: seq<Entry>)
    ensures Items(es) == if es == [] then [] else Items(Init(es)) + [Last(es).item]
  {
  }

  lemma OnePutMeans(len: Body -> nat, taken: seq<Item>, q: Queue, puts: seq<Item>, e: Entry)
    requires Valid(q) && Meaning(taken + q.items) == Meaning(puts)
    ensures Valid(PutEntry(len, q, e))
    ensures Meaning(taken + PutEntry(len, q, e).items) == Meaning(puts + [e.item])
  {
    hide Meaning, PutCoalescing, Absorb;
    AppendMeaning([], puts, e.item);
    assert [] + (puts + [e.item]) == puts + [e.item] && [] + puts == puts;
    if e.coalesce && e.item.Data? && DeltaPartKey(e.item.frame).Some? {
      PutKeepsMeaning(len, taken, q, e.item.frame);
    } else {
      AppendMeaning(taken, q.items, e.item);
    }
  }

  lemma DeliversStep(env: Env, w: World, a: Action, c: Conn)
    requires Consistent(w.g) && Enabled(env, w, a) && c in w.g.queues && Delivers(w, c)
    requires c in Next(env, w, a).g.queues
    ensures Delivers(Next(env, w, a), c)
  {
    hide Meaning, PutAll, GroupAfter, Puts, Enabled, Enters, Items;
    QueueStep(env, w, a, c);
    if a == Take(c) {
      var q := w.g.queues[c];
      if q.items != [] {
        assert (w.taken(c) + [q.items[0]]) + q.items[1..] == w.taken(c) + q.items;
      } else {
        assert w.taken(c) + [] == w.taken(c);
      }
      assert w.log(c) + [] == w.log(c);
    } else {
      PutAllMeans(env.encodedLen, w.taken(c), w.g.queues[c], Items(w.log(c)), Puts(w, a, c));
      ItemsConcat(w.log(c), Puts(w, a, c));
      assert w.taken(c) + [] == w.taken(c);
    }
  }

  /** A step's effect on one queue and its records. */
  lemma QueueStep(env: Env, w: World, a: Action, c: Conn)
    requires Consistent(w.g) && Enabled(env, w, a) && c in w.g.queues
    ensures var w' := Next(env, w, a);
            && c in w'.g.queues
            && (if a == Take(c) then
                  && w'.g.queues[c] == (if w.g.queues[c].items == [] then w.g.queues[c] else MemberQueues.Take(w.g.queues[c]))
                  && w'.taken(c) == w.taken(c) + (if w.g.queues[c].items == [] then [] else [w.g.queues[c].items[0]])
                  && w'.log(c) == w.log(c) + []
                else
                  && w'.g.queues[c] == PutAll(env.encodedLen, w.g.queues[c], Puts(w, a, c))
                  && w'.taken(c) == w.taken(c) + []
                  && w'.log(c) == w.log(c) + Puts(w, a, c))
  {
    hide PutAll, Follows;
    KnownNeverEnters(env, w, a, c);
    if a.Take? {
      TakeStep(env, w, a.c, c);
    } else {
      hide GroupAfter, Puts, Enabled, Enters;
      QueueFollowsPuts(env, w, a, c);
    }
  }

  lemma KnownNeverEnters(env: Env, w: World, a: Action, c: Conn)
    requires Enabled(env, w, a) && c in w.g.queues
    ensures !Enters(w, a, c)
  {
  }

  lemma TakeStep(env: Env, w: World, d: Conn, c: Conn)
    requires Consistent(w.g) && c in w.g.queues
    ensures var g' := GroupAfter(env, w, Take(d));
            && c in g'.queues
            && g'.queues[c] == (if c == d && w.g.queues[c].items != [] then MemberQueues.Take(w.g.queues[c]) else w.g.queues[c])
    ensures Puts(w, Take(d), c) == []
    ensures PutAll(env.encodedLen, w.g.queues[c], []) == w.g.queues[c]
  {
    PutNone(env.encodedLen, w.g.queues[c]);
  }

  /**
    Over every run, what a member's writer has sent followed by what is queued means exactly what was put on
    the queue, deltas of one part concatenated.
   */
  lemma {:induction false} DeliveredMeansPut(env: Env, worlds: seq<World>, actions: seq<Action>, c: Conn)
    requires IsRun(env, worlds, actions) && c in Last(worlds).g.queues
    ensures Delivers(Last(worlds), c)
    decreases |actions|
  {
    hide Delivers, Enabled;
    if actions == [] {
      NobodyAtBoot(c);
    } else {
      var w, a := worlds[|actions| - 1], Last(actions);
      PrefixRun(env, worlds, actions);
      if c in w.g.queues {
        DeliveredMeansPut(env, Init(worlds), Init(actions), c);
        DeliversStep(env, w, a, c);
      } else {
        NewQueue(env, w, a, c);
      }
    }
  }

  lemma NewQueue(env: Env, w: World, a: Action, c: Conn)
    requires Consistent(w.g) && Enabled(env, w, a) && c !in w.g.queues && c in Next(env, w, a).g.queues
    ensures var w' := Next(env, w, a);
            w'.g.queues[c] == EMPTY && w'.log(c) == [] && w'.taken(c) == [] && Delivers(w', c)
  {
    hide Follows, SharedAtAfter, DialAtAfter, NextReached, NextStart;
    OnlyJoinsEnter(env, w, a, c);
    assert Next(env, w, a).taken(c) + EMPTY.items == [];
  }

  // ---- shape: bounded, head first, sentinel last ---------------------------------------------------

  predicate Active(w: World, c: Conn) {
    c in w.g.members || c in w.g.resumes
  }

  predicate Headless(w: World, c: Conn) {
    c in w.g.resumes && !w.g.resumes[c].headGiven
  }

  /** The size of the batches an action brings. */
  predicate BatchWithin(a: Action, limit: nat) {
    (a.SharedBatch? || a.DialBatch?) ==> |a.frames| <= limit
  }

  predicate IsHeadOrClose(item: Item) {
    item == Close || item == Data(MEMBER_SSE_HEAD)
  }

  /**
    A queue stays below the stall limit plus one batch (plus the sentinel once its member is gone), a resumed
    member's stream begins with the front door's own head, and nothing follows the sentinel.
   */
  ghost predicate WellKept(w: World, c: Conn, limit: nat)
    requires c in w.g.queues
  {
    var n, log := |w.g.queues[c].items|, w.log(c);
    && n < MEMBER_QUEUE_MAX_ITEMS + limit + (if Active(w, c) then 0 else 1)
    && (Headless(w, c) ==> n == 0 && log == [])
    && (c in w.resumed && log != [] ==> IsHeadOrClose(log[0].item))
    && (c in w.resumed && log == [] && Active(w, c) ==> Headless(w, c))
    && (forall i :: 0 <= i < |log| && log[i].item == Close ==> i == |log| - 1 && !Active(w, c))
  }

  lemma {:induction false} PutAllLength(len: Body -> nat, q: Queue, es: seq<Entry>)
    ensures |PutAll(len, q, es).items| <= |q.items| + |es|
    decreases |es|
  {
    if es != [] {
      PutAllLength(len, q, Init(es));
    }
  }

  lemma {:induction false} AdmittedLength(q: Queue, frames: seq<Frame>)
    ensures |Admitted(q, frames).items| <= if Full(q) then |q.items| else MEMBER_QUEUE_MAX_ITEMS
    decreases |frames|
  {
    if frames != [] {
      AdmittedLength(q, Init(frames));
    }
  }

  lemma {:induction false} RelayLength(s: Shard, b: Relay, frames: seq<Frame>)
    requires b.r.headGiven
    ensures |RelayPreamble(s, b, frames).q.items| <= if Full(b.q) then |b.q.items| else MEMBER_QUEUE_MAX_ITEMS
    ensures RelayPreamble(s, b, frames).r.headGiven
    decreases |frames|
  {
    if frames != [] {
      RelayLength(s, b, Init(frames));
    }
  }

  /** The preambles never put the sentinel. */
  lemma {:induction false} PreamblePutsOpen(s: Shard, q: Queue, frames: seq<Frame>)
    ensures forall e :: e in PreamblePuts(s, q, frames) ==> e.item != Close
    decreases |frames|
  {
    if frames != [] {
      PreamblePutsOpen(s, q, Init(frames));
    }
  }

  lemma {:induction false} RelayPutsOpen(s: Shard, b: Relay, frames: seq<Frame>)
    ensures forall e :: e in RelayPuts(s, b, frames) ==> e.item != Close
    decreases |frames|
  {
    if frames != [] {
      RelayPutsOpen(s, b, Init(frames));
    }
  }

  /** What a step may do to a queue that is well kept. */
  ghost predicate Orderly(env: Env, w: World, a: Action, c: Conn, limit: nat)
    requires Consistent(w.g) && c in w.g.queues && c in Next(env, w, a).g.queues
  {
    var w', puts := Next(env, w, a), Puts(w, a, c);
    var n, n' := |w.g.queues[c].items|, |w'.g.queues[c].items|;
    && (!Active(w, c) ==> puts == [] && !Active(w', c))
    && (forall e :: e in puts && e.item == Close ==> puts == [e] && !Active(w', c))
    && (Headless(w, c) ==> |puts| <= 1 && (puts != [] ==> IsHeadOrClose(puts[0].item)))
    && (Headless(w', c) ==> Headless(w, c) && puts == [] && n' <= n)
    && (Headless(w, c) && Active(w', c) && !Headless(w', c) ==> puts != [])
    && (n' <= n || n' <= MEMBER_QUEUE_MAX_ITEMS || (n < MEMBER_QUEUE_MAX_ITEMS && n' <= n + limit)
        || (n' == n + 1 && !Active(w', c) && puts != []))
  }

  lemma OrderlyShared(env: Env, w: World, s: Shard, frames: seq<Frame>, c: Conn, limit: nat)
    requires Consistent(w.g) && c in w.g.queues && |frames| <= limit
    ensures Orderly(env, w, SharedBatch(s, frames), c, limit)
  {
    hide PutAll, LastPos, LastEid, EndAt;
    PutAllLength(env.encodedLen, w.g.queues[c], Fanned(s, frames));
  }

  lemma OrderlyDial(env: Env, w: World, d: Conn, s: Shard, frames: seq<Frame>, c: Conn, limit: nat)
    requires Consistent(w.g) && c in w.g.queues && |frames| <= limit
    requires d == c ==> !Headless(w, c)
    ensures c in Next(env, w, DialBatch(d, s, frames)).g.queues && Orderly(env, w, DialBatch(d, s, frames), c, limit)
  {
    hide Orderly, GroupAfter, Next;
    if d == c && !Ignored(w.g, c, frames) {
      OrderlyOwnBatch(env, w, s, frames, c, limit);
    } else {
      OrderlyOtherBatch(env, w, d, s, frames, c, limit);
    }
  }

  lemma OrderlyOwnBatch(env: Env, w: World, s: Shard, frames: seq<Frame>, c: Conn, limit: nat)
    requires Consistent(w.g) && c in w.g.queues && |frames| <= limit
    requires !Headless(w, c) && !Ignored(w.g, c, frames)
    ensures c in Next(env, w, DialBatch(c, s, frames)).g.queues && Orderly(env, w, DialBatch(c, s, frames), c, limit)
  {
    hide PutAll, LastPos, Relayed, ResumeBatch, Migrates, SharedAtAfter, DialAtAfter, NextReached, NextStart, Fanned, GroupAfter;
    GroupAfterDial(env, w, c, s, frames);
    ResumeBatchQueues(env.encodedLen, w.g, c, s, frames, |env.sources|);
    ResumeBatchServes(env.encodedLen, w.g, c, s, frames, |env.sources|);
    FannedShape(s, Relayed(frames));
    RelayedShorter(frames);
    PutAllLength(env.encodedLen, w.g.queues[c], Fanned(s, Relayed(frames)));
  }

  lemma OrderlyOtherBatch(env: Env, w: World, d: Conn, s: Shard, frames: seq<Frame>, c: Conn, limit: nat)
    requires Consistent(w.g) && c in w.g.queues
    requires d != c || Ignored(w.g, c, frames)
    ensures c in Next(env, w, DialBatch(d, s, frames)).g.queues && Orderly(env, w, DialBatch(d, s, frames), c, limit)
  {
    hide PutAll, LastPos, Relayed, ResumeBatch, Migrates, SharedAtAfter, DialAtAfter, NextReached, NextStart, Fanned, GroupAfter;
    GroupAfterDial(env, w, d, s, frames);
    ResumeBatchQueues(env.encodedLen, w.g, d, s, frames, |env.sources|);
    ResumeBatchServes(env.encodedLen, w.g, d, s, frames, |env.sources|);
    IgnoredUnless(w.g, d, frames);
  }

  lemma FannedShape(s: Shard, frames: seq<Frame>)
    ensures |Fanned(s, frames)| == |frames|
    ensures forall e :: e in Fanned(s, frames) ==> e.item != Close
  {
  }

  lemma OrderlyGreeting(env: Env, w: World, d: Conn, c: Conn, limit: nat)
    requires Consistent(w.g) && c in w.g.queues
    ensures c in Next(env, w, JoinPreamble(d)).g.queues && Orderly(env, w, JoinPreamble(d), c, limit)
  {
    hide PreamblePuts, Admitted, SharedAtAfter, DialAtAfter, NextReached, NextStart;
    AdmittedLength(w.g.queues[c], w.g.preamble);
    if w.g.provider.Some? {
      PreamblePutsOpen(w.g.provider.value, w.g.queues[c], w.g.preamble);
    }
  }

  lemma OrderlyDialUp(env: Env, w: World, d: Conn, s: Shard, frames: seq<Frame>, c: Conn, limit: nat)
    requires Consistent(w.g) && c in w.g.queues
    requires d in w.g.resumes && w.g.resumes[d].headGiven
    ensures c in Next(env, w, DialUp(d, s, frames)).g.queues && Orderly(env, w, DialUp(d, s, frames), c, limit)
  {
    hide RelayPuts, RelayPreamble, SharedAtAfter, DialAtAfter, NextReached, NextStart;
    if d == c {
      var b := Relay(w.g.queues[c], w.g.resumes[c]);
      RelayLength(s, b, frames);
      RelayPutsOpen(s, b, frames);
    }
  }

  lemma OrderlyHead(env: Env, w: World, d: Conn, c: Conn, limit: nat)
    requires Consistent(w.g) && c in w.g.queues
    requires Headless(w, c) ==> |w.g.queues[c].items| == 0
    ensures c in Next(env, w, DialHead(d)).g.queues && Orderly(env, w, DialHead(d), c, limit)
  {
    hide SharedAtAfter, DialAtAfter, NextReached;
  }

  lemma OrderlyBeat(env: Env, w: World, d: Conn, beat: Frame, c: Conn, limit: nat)
    requires Consistent(w.g) && c in w.g.queues && (d == c ==> !Headless(w, c))
    ensures c in Next(env, w, Beat(d, beat)).g.queues && Orderly(env, w, Beat(d, beat), c, limit)
  {
    hide SharedAtAfter, DialAtAfter, NextReached;
  }

  lemma OrderlyLeave(env: Env, w: World, d: Conn, c: Conn, limit: nat)
    requires Consistent(w.g) && c in w.g.queues
    ensures c in Next(env, w, Leave(d)).g.queues && Orderly(env, w, Leave(d), c, limit)
  {
    hide SharedAtAfter, DialAtAfter, NextReached;
  }

  lemma OrderlyDrop(env: Env, w: World, a: Action, c: Conn, limit: nat)
    requires Consistent(w.g) && c in w.g.queues
    requires a.Drop? || a.Take?
    ensures c in Next(env, w, a).g.queues && Orderly(env, w, a, c, limit)
  {
    hide SharedAtAfter, DialAtAfter, NextReached;
  }

  lemma OrderlyQuiet(env: Env, w: World, a: Action, c: Conn, limit: nat)
    requires Consistent(w.g) && c in w.g.queues && Enabled(env, w, a)
    requires a.SharedUp? || a.SharedDown? || a.Join? || a.JoinResume? || a.DialDown?
    ensures c in Next(env, w, a).g.queues && Orderly(env, w, a, c, limit)
  {
    hide Follows, LastPos, LastEid, SharedAtAfter, DialAtAfter, NextReached;
    match a
    case SharedUp(_, _, _) =>
    case SharedDown(_) =>
    case Join(_) =>
    case JoinResume(_) =>
    case DialDown(_, _) =>
  }

  lemma EveryStepOrderly(env: Env, w: World, a: Action, c: Conn, limit: nat)
    requires Inv(env, w) && Enabled(env, w, a) && c in w.g.queues && BatchWithin(a, limit)
    requires Headless(w, c) ==> |w.g.queues[c].items| == 0
    ensures Consistent(w.g) && c in Next(env, w, a).g.queues && Orderly(env, w, a, c, limit)
  {
    hide Orderly, Inv;
    InvConsistent(env, w);
    match a
    case SharedBatch(s, frames) =>
      hide Enabled;
      OrderlyShared(env, w, s, frames, c, limit);
    case DialBatch(d, s, frames) =>
      if d == c && c in w.g.resumes {
        InvResume(env, w, c);
      }
      OrderlyDial(env, w, d, s, frames, c, limit);
    case JoinPreamble(d) => OrderlyGreeting(env, w, d, c, limit);
    case DialUp(d, s, frames) => OrderlyDialUp(env, w, d, s, frames, c, limit);
    case DialHead(d) => OrderlyHead(env, w, d, c, limit);
    case Beat(d, beat) => OrderlyBeat(env, w, d, beat, c, limit);
    case Leave(d) => OrderlyLeave(env, w, d, c, limit);
    case Drop(_) => OrderlyDrop(env, w, a, c, limit);
    case Take(_) => OrderlyDrop(env, w, a, c, limit);
    case _ => OrderlyQuiet(env, w, a, c, limit);
  }

  lemma WellKeptStep(env: Env, w: World, a: Action, c: Conn, limit: nat)
    requires Consistent(w.g) && Enabled(env, w, a) && c in w.g.queues && limit > 0
    requires WellKept(w, c, limit)
    requires c in Next(env, w, a).g.queues && Orderly(env, w, a, c, limit)
    ensures WellKept(Next(env, w, a), c, limit)
  {
    hide Puts, GroupAfter, PutAll, Enabled;
    KnownNeverEnters(env, w, a, c);
    ResumedStays(env, w, a, c);
    var log: seq<Entry>, puts: seq<Entry> := w.log(c), Puts(w, a, c);
    assert Next(env, w, a).log(c) == log + puts;
    forall i: int | 0 <= i < |log + puts| && (log + puts)[i].item == Close
      ensures i == |log + puts| - 1 && !Active(Next(env, w, a), c)
    {
      if i < |log| {
        assert log[i].item == Close;
      } else {
        assert puts[i - |log|] in puts;
      }
    }
  }

  lemma ResumedStays(env: Env, w: World, a: Action, c: Conn)
    requires Consistent(w.g) && Enabled(env, w, a) && c in w.g.queues
    ensures c in Next(env, w, a).resumed <==> c in w.resumed
  {
    KnownNeverEnters(env, w, a, c);
  }

  /**
    Over every run whose batches hold at most `limit` frames: bounded queues, head first for resumed members,
    and nothing after the sentinel.
   */
  lemma {:induction false} QueuesWellKept(env: Env, worlds: seq<World>, actions: seq<Action>, c: Conn, limit: nat)
    requires IsRun(env, worlds, actions) && c in Last(worlds).g.queues && limit > 0
    requires forall i :: 0 <= i < |actions| ==> BatchWithin(actions[i], limit)
    ensures WellKept(Last(worlds), c, limit)
    decreases |actions|
  {
    hide WellKept, Enabled, Orderly, Inv;
    if actions == [] {
      NobodyAtBoot(c);
    } else {
      var w, a := worlds[|actions| - 1], Last(actions);
      PrefixRun(env, worlds, actions);
      RunInvariant(env, Init(worlds), Init(actions));
      assert forall i :: 0 <= i < |Init(actions)| ==> Init(actions)[i] == actions[i];
      if c in w.g.queues {
        QueuesWellKept(env, Init(worlds), Init(actions), c, limit);
        HeadlessIsEmpty(w, c, limit);
        EveryStepOrderly(env, w, a, c, limit);
        WellKeptStep(env, w, a, c, limit);
      } else {
        if c in w.resumed {
          ResumedStartsAtCursor(env, Init(worlds), Init(actions), c, 0);
        }
        NewQueueWellKept(env, w, a, c, limit);
      }
    }
  }

  lemma HeadlessIsEmpty(w: World, c: Conn, limit: nat)
    requires c in w.g.queues && WellKept(w, c, limit)
    ensures Headless(w, c) ==> |w.g.queues[c].items| == 0
  {
  }

  lemma NewQueueWellKept(env: Env, w: World, a: Action, c: Conn, limit: nat)
    requires Inv(env, w) && Enabled(env, w, a) && Consistent(w.g)
    requires c !in w.g.queues && c in Next(env, w, a).g.queues
    requires c !in w.resumed
    ensures WellKept(Next(env, w, a), c, limit)
  {
    NewQueue(env, w, a, c);
    OnlyJoinsEnter(env, w, a, c);
  }
}
