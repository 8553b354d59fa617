/** One step's effect on one member's account with one source: what it got, how far it reached, what it lost. */
module ResumeAccounts {
  import opened Prelude
  import opened MemberQueues
  import opened Fanout
  import opened EngineFeed
  import opened ResumeProtocol

  /** The events that source s's feed brought, among a sequence of puts. */
  function Got(es: seq<Entry>, s: Shard): seq<nat>
    decreases |es|
  {
    if es == [] then [] else Got(Init(es), s) + GotOne(Last(es), s)
  }

  function GotOne(e: Entry, s: Shard): seq<nat> {
    if e.origin == Feed(s) && e.item.Data? then EventOf(e.item.frame) else []
  }

  lemma {:induction false} GotConcat(a: seq<Entry>, b: seq<Entry>, s: Shard)
    ensures Got(a + b, s) == Got(a, s) + Got(b, s)
    decreases |b|
  {
    if b == [] {
      assert a + b == a;
    } else {
      hide GotOne;
      assert Init(a + b) == a + Init(b) && Last(a + b) == Last(b);
      GotConcat(a, Init(b), s);
      Assoc(Got(a, s), Got(Init(b), s), GotOne(Last(b), s));
    }
  }

  lemma {:induction false} GotFanned(t: Shard, frames: seq<Frame>, s: Shard)
    ensures Got(Fanned(t, frames), s) == if s == t then Events(frames) else []
    decreases |frames|
  {
    if frames != [] {
      GotFanned(t, Init(frames), s);
      assert Init(Fanned(t, frames)) == Fanned(t, Init(frames));
    }
  }

  lemma {:induction false} GotElsewhere(es: seq<Entry>, s: Shard)
    requires forall e :: e in es ==> e.origin != Feed(s)
    ensures Got(es, s) == []
    decreases |es|
  {
    if es != [] {
      assert forall e :: e in Init(es) ==> e in es;
      assert Last(es) in es;
      GotElsewhere(Init(es), s);
    }
  }

  lemma {:induction false} PreamblePutsGreet(t: Shard, q: Queue, frames: seq<Frame>)
    ensures forall e :: e in PreamblePuts(t, q, frames) ==> e.origin == JoinHead(t)
    decreases |frames|
  {
    if frames != [] {
      PreamblePutsGreet(t, q, Init(frames));
    }
  }

  /** Some event of s lies after lo, up to hi. */
  ghost predicate Missed(env: Env, s: Shard, lo: nat, hi: nat) {
    exists n: nat :: lo < n <= hi && env.emits(s, n)
  }

  lemma MissedIffBetween(env: Env, s: Shard, lo: nat, hi: nat)
    ensures Missed(env, s, lo, hi) <==> Between(env, s, lo, hi) != []
  {
    BetweenMembers(env, s, lo, hi);
    if Between(env, s, lo, hi) != [] {
      assert Between(env, s, lo, hi)[0] in Between(env, s, lo, hi);
    }
  }

  /** A resume preamble meets an event when the queue has no room left for it. */
  ghost predicate PreambleOverflows(q: Queue, frames: seq<Frame>) {
    exists i :: 0 <= i < |frames| && EventOf(frames[i]) != []
                && |q.items| + |Relayed(frames[..i])| >= MEMBER_QUEUE_MAX_ITEMS
  }

  /**
    The three branches that lose an event of s for c: a resume preamble that meets a full queue, a migration
    onto an upstream that already stands past the recorded position, and a reconnected upstream whose
    unfanned window passes over an event.
   */
  ghost predicate LossAt(env: Env, w: World, a: Action, c: Conn, s: Shard)
    requires Consistent(w.g) && c in w.g.queues
  {
    match a
       case SharedUp(t, from, frames) => t == s && c in w.g.members && Missed(env, s, w.sharedAt(s), EndAt(from, frames))
       case DialUp(d, t, frames) =>
         d == c && t == s && c in w.g.resumes && PreambleOverflows(w.g.queues[c], frames)
       case DialBatch(d, t, frames) =>
         d == c && Migrates(env.encodedLen, w.g, c, t, frames, |env.sources|)
         && Missed(env, s, BatchEnd(w, c, s, t, frames), w.sharedAt(s))
       case _ => false
  }

  /** Members stand where the shared upstreams stand; resuming members stand where their dials continue. */
  ghost predicate Inv(env: Env, w: World) {
    && Consistent(w.g)
    && (forall c, s :: c in w.g.members && s in env.sources ==> w.reached(c, s) == w.sharedAt(s))
    && (forall c :: c in w.g.resumes ==> ResumeInv(env, w, c))
    && (forall s :: s in w.g.pos ==> PosInv(env, w, s))
    && (forall c, s :: w.dialAt(c, s).Some? ==> c in w.g.queues)
  }

  ghost predicate PosInv(env: Env, w: World, s: Shard)
    requires s in w.g.pos
  {
    s in env.sources && w.g.pos[s].epoch == env.epoch(s) && w.g.pos[s].number <= w.sharedAt(s)
  }

  ghost predicate ResumeInv(env: Env, w: World, c: Conn)
    requires c in w.g.resumes
  {
    var r := w.g.resumes[c];
    && r.rpos.Keys <= env.sources
    && (forall s :: s in r.rpos ==> r.rpos[s].epoch == env.epoch(s))
    && (forall s :: w.reached(c, s) == DialFrom(env, w, c, s))
    && (forall s :: w.dialAt(c, s).Some? ==> w.dialAt(c, s).value == DialFrom(env, w, c, s) && s in env.sources && r.headGiven)
  }

  /** What a step puts is a subsequence of the events it passes, and all of them exactly when it loses none. */
  ghost predicate AccountStep(env: Env, w: World, a: Action, c: Conn, s: Shard)
    requires Consistent(w.g) && c in w.g.queues
  {
    var more := Got(Puts(w, a, c), s);
    var lo, hi := w.reached(c, s), ReachedAfter(env, w, a, c, s);
    && lo <= hi
    && IsSubseq(more, Between(env, s, lo, hi))
    && (|more| == |Between(env, s, lo, hi)| <==> !LossAt(env, w, a, c, s))
  }

  /** What a step does to one account, spelled out: its puts, where it reaches, and whether it loses. */
  ghost predicate Effect(env: Env, w: World, a: Action, c: Conn, s: Shard, puts: seq<Entry>, hi: nat, loses: bool)
    requires Consistent(w.g) && c in w.g.queues
  {
    && Puts(w, a, c) == puts
    && ReachedAfter(env, w, a, c, s) == hi
    && (LossAt(env, w, a, c, s) <==> loses)
  }

  lemma FromEffect(env: Env, w: World, a: Action, c: Conn, s: Shard, puts: seq<Entry>, hi: nat, loses: bool)
    requires Consistent(w.g) && c in w.g.queues
    requires Effect(env, w, a, c, s, puts, hi, loses)
    requires w.reached(c, s) <= hi
    requires var more, passed := Got(puts, s), Between(env, s, w.reached(c, s), hi);
             IsSubseq(more, passed) && (|more| == |passed| <==> !loses)
    ensures AccountStep(env, w, a, c, s)
  {
    hide Puts, ReachedAfter, LossAt, Got, Between, IsSubseq;
  }

  /** Nothing passed, nothing put. */
  lemma QuietStep(env: Env, w: World, a: Action, c: Conn, s: Shard, puts: seq<Entry>)
    requires Consistent(w.g) && c in w.g.queues
    requires Effect(env, w, a, c, s, puts, w.reached(c, s), false)
    requires forall e :: e in puts ==> e.origin != Feed(s)
    ensures AccountStep(env, w, a, c, s)
  {
    hide Effect;
    GotElsewhere(puts, s);
    FromEffect(env, w, a, c, s, puts, w.reached(c, s), false);
  }

  lemma EffectSharedUp(env: Env, w: World, t: Shard, from: nat, frames: seq<Frame>, c: Conn, s: Shard)
    requires Consistent(w.g) && c in w.g.queues
    ensures var hit := t == s && c in w.g.members;
            Effect(env, w, SharedUp(t, from, frames), c, s, [],
                   if hit then EndAt(from, frames) else w.reached(c, s),
                   hit && Missed(env, s, w.sharedAt(s), EndAt(from, frames)))
  {
    hide EndAt, Missed;
  }

  lemma AccountSharedUp(env: Env, w: World, t: Shard, from: nat, frames: seq<Frame>, c: Conn, s: Shard)
    requires Inv(env, w) && c in w.g.queues && s in env.sources
    requires Enabled(env, w, SharedUp(t, from, frames))
    ensures AccountStep(env, w, SharedUp(t, from, frames), c, s)
  {
    hide Between, Follows, EndAt, Effect, AccountStep, Missed;
    var a := SharedUp(t, from, frames);
    EffectSharedUp(env, w, t, from, frames, c, s);
    if t == s && c in w.g.members {
      DeliveredExactly(env, s, from, frames);
      var lo, hi := w.sharedAt(s), EndAt(from, frames);
      MissedIffBetween(env, s, lo, hi);
      FromEffect(env, w, a, c, s, [], hi, Missed(env, s, lo, hi));
    } else {
      QuietStep(env, w, a, c, s, []);
    }
  }

  lemma EffectSharedBatch(env: Env, w: World, t: Shard, frames: seq<Frame>, c: Conn, s: Shard)
    requires Consistent(w.g) && c in w.g.queues
    ensures var hit := t == s && c in w.g.members && !Full(w.g.queues[c]);
            Effect(env, w, SharedBatch(t, frames), c, s, BatchPuts(w.g, t, frames, c),
                   if hit then EndAt(w.sharedAt(s), frames) else w.reached(c, s), false)
  {
    hide EndAt, Fanned;
  }

  lemma AccountSharedBatch(env: Env, w: World, t: Shard, frames: seq<Frame>, c: Conn, s: Shard)
    requires Inv(env, w) && c in w.g.queues && s in env.sources
    requires Enabled(env, w, SharedBatch(t, frames))
    ensures AccountStep(env, w, SharedBatch(t, frames), c, s)
  {
    hide Between, Follows, EndAt, Got, IsSubseq, Effect, AccountStep, Events;
    var a, puts := SharedBatch(t, frames), BatchPuts(w.g, t, frames, c);
    EffectSharedBatch(env, w, t, frames, c, s);
    if t == s && c in w.g.members && !Full(w.g.queues[c]) {
      GotFanned(t, frames, s);
      DeliveredExactly(env, s, w.sharedAt(s), frames);
      SubseqRefl(Events(frames));
      FromEffect(env, w, a, c, s, puts, EndAt(w.sharedAt(s), frames), false);
    } else {
      QuietStep(env, w, a, c, s, puts);
    }
  }

  lemma AccountJoinPreamble(env: Env, w: World, d: Conn, c: Conn, s: Shard)
    requires Consistent(w.g) && c in w.g.queues
    ensures AccountStep(env, w, JoinPreamble(d), c, s)
  {
    hide PreamblePuts, Got, AccountStep;
    var a := JoinPreamble(d);
    if w.g.provider.Some? {
      PreamblePutsGreet(w.g.provider.value, w.g.queues[c], w.g.preamble);
    }
    QuietStep(env, w, a, c, s, Puts(w, a, c));
  }

  /** Control traffic and membership changes touch no account. */
  lemma AccountQuiet(env: Env, w: World, a: Action, c: Conn, s: Shard)
    requires Consistent(w.g) && c in w.g.queues
    requires a.SharedDown? || a.Join? || a.JoinResume? || a.DialDown? || a.Drop? || a.Take?
    ensures AccountStep(env, w, a, c, s)
  {
    hide AccountStep;
    QuietStep(env, w, a, c, s, []);
  }

  lemma AccountControl(env: Env, w: World, a: Action, c: Conn, s: Shard)
    requires Consistent(w.g) && c in w.g.queues
    requires a.DialHead? || a.Beat? || a.Leave?
    ensures AccountStep(env, w, a, c, s)
  {
    hide AccountStep;
    QuietStep(env, w, a, c, s, Puts(w, a, c));
  }

  // ---- a resume dial's preamble -------------------------------------------------------------------

  /** While there is room every relayed frame is queued; the queue is full from then on. */
  lemma {:induction false} RelayFills(s: Shard, b: Relay, frames: seq<Frame>)
    requires b.r.headGiven
    ensures var after, wanted := RelayPreamble(s, b, frames), |b.q.items| + |Relayed(frames)|;
            && after.r.headGiven
            && (if wanted < MEMBER_QUEUE_MAX_ITEMS then |after.q.items| == wanted else Full(after.q))
    decreases |frames|
  {
    if frames != [] {
      RelayFills(s, b, Init(frames));
    }
  }

  lemma NoFrameOverflows(q: Queue)
    ensures !PreambleOverflows(q, [])
  {
  }

  lemma OverflowSnoc(q: Queue, frames: seq<Frame>, f: Frame)
    ensures PreambleOverflows(q, frames + [f]) <==>
            PreambleOverflows(q, frames)
            || (EventOf(f) != [] && |q.items| + |Relayed(frames)| >= MEMBER_QUEUE_MAX_ITEMS)
  {
    hide Relayed;
    var more := frames + [f];
    assert forall i :: 0 <= i < |frames| ==> more[i] == frames[i] && more[..i] == frames[..i];
    assert more[|frames|] == f && more[..|frames|] == frames;
  }

  /** What a preamble queues is a subsequence of its events, and all of them unless it overflows. */
  lemma {:induction false} RelayAccount(s: Shard, b: Relay, frames: seq<Frame>)
    requires b.r.headGiven
    ensures var more := Got(RelayPuts(s, b, frames), s);
            && IsSubseq(more, Events(frames))
            && (|more| == |Events(frames)| <==> !PreambleOverflows(b.q, frames))
    decreases |frames|
  {
    hide PreambleOverflows, IsSubseq, RelayPuts, RelayPreamble;
    if frames == [] {
      assert RelayPuts(s, b, []) == [] by { NoRelay(s, b); }
      SubseqRefl<nat>([]);
      NoFrameOverflows(b.q);
    } else {
      var front, f := Init(frames), Last(frames);
      RelayAccount(s, b, front);
      RelayFills(s, b, front);
      OverflowSnoc(b.q, front, f);
      assert front + [f] == frames;
      var before := RelayPreamble(s, b, front);
      var one := RelayPut(s, before, f);
      RelaySteps(s, b, frames);
      GotConcat(RelayPuts(s, b, front), one, s);
      GotRelayPut(s, before, f);
      if Got(one, s) == EventOf(f) {
        SubseqRefl(EventOf(f));
      } else {
        NothingIsSubseq(EventOf(f));
      }
      SubseqLength(Got(RelayPuts(s, b, front), s), Events(front));
      SubseqAppend(Got(RelayPuts(s, b, front), s), Events(front), Got(one, s), EventOf(f));
    }
  }

  lemma NoRelay(s: Shard, b: Relay)
    ensures RelayPuts(s, b, []) == []
  {
  }

  lemma GotRelayPut(s: Shard, b: Relay, f: Frame)
    requires b.r.headGiven
    ensures Got(RelayPut(s, b, f), s) == if Full(b.q) then [] else EventOf(f)
  {
    var one := RelayPut(s, b, f);
    if one != [] {
      assert one == [Entry(Feed(s), Data(f), false)] && Init(one) == [];
    }
  }

  lemma NothingIsSubseq(b: seq<nat>)
    ensures IsSubseq([], b)
  {
  }

  lemma {:induction false} RelayPutsTagged(t: Shard, b: Relay, frames: seq<Frame>, s: Shard)
    requires s != t
    ensures forall e :: e in RelayPuts(t, b, frames) ==> e.origin != Feed(s)
    decreases |frames|
  {
    if frames != [] {
      RelayPutsTagged(t, b, Init(frames), s);
    }
  }

  lemma EffectDialUp(env: Env, w: World, d: Conn, t: Shard, frames: seq<Frame>, c: Conn, s: Shard)
    requires Consistent(w.g) && c in w.g.queues && d in w.g.resumes
    ensures var hit := d == c && t == s;
            Effect(env, w, DialUp(d, t, frames), c, s,
                   if d == c then RelayPuts(t, Relay(w.g.queues[c], w.g.resumes[c]), frames) else [],
                   if hit then EndAt(DialFrom(env, w, c, s), frames) else w.reached(c, s),
                   hit && PreambleOverflows(w.g.queues[c], frames))
  {
    hide RelayPuts, EndAt, DialFrom, PreambleOverflows;
  }

  lemma AccountDialUp(env: Env, w: World, d: Conn, t: Shard, frames: seq<Frame>, c: Conn, s: Shard)
    requires Inv(env, w) && c in w.g.queues && s in env.sources
    requires Enabled(env, w, DialUp(d, t, frames))
    ensures AccountStep(env, w, DialUp(d, t, frames), c, s)
  {
    hide Between, Follows, EndAt, RelayPuts, Got, IsSubseq, PreambleOverflows, Effect, AccountStep, Events;
    var a := DialUp(d, t, frames);
    EffectDialUp(env, w, d, t, frames, c, s);
    if d == c {
      assert ResumeInv(env, w, c);
      var b := Relay(w.g.queues[c], w.g.resumes[c]);
      if t == s {
        DeliveredExactly(env, s, DialFrom(env, w, c, s), frames);
        RelayAccount(s, b, frames);
        FromEffect(env, w, a, c, s, RelayPuts(t, b, frames), EndAt(DialFrom(env, w, c, s), frames),
                   PreambleOverflows(w.g.queues[c], frames));
      } else {
        RelayPutsTagged(t, b, frames, s);
        QuietStep(env, w, a, c, s, RelayPuts(t, b, frames));
      }
    } else {
      QuietStep(env, w, a, c, s, []);
    }
  }

  // ---- a resume dial's later batches, and the migration -------------------------------------------

  /** The recorded positions of a migrating member, after its last batch. */
  function FinalPositions(w: World, c: Conn, t: Shard, frames: seq<Frame>): map<Shard, Pos>
    requires c in w.g.resumes
  {
    Observe(w.g.resumes[c].rpos, t, LastPos(Relayed(frames)))
  }

  lemma MigratesMeans(env: Env, w: World, c: Conn, t: Shard, frames: seq<Frame>)
    requires Consistent(w.g) && c in w.g.resumes
    requires Migrates(env.encodedLen, w.g, c, t, frames, |env.sources|)
    ensures !Ignored(w.g, c, frames)
    ensures var rpos := FinalPositions(w, c, t, frames);
            && |rpos| == |env.sources|
            && forall s :: s in rpos ==> Live(w.g, s) && s in w.g.pos && w.g.pos[s] == rpos[s]
  {
    hide PutAll, Fanned, LastPos, Relayed;
    var after := Relayed1(env.encodedLen, w.g, c, t, frames);
    assert after.resumes[c].rpos == FinalPositions(w, c, t, frames);
    assert forall s :: Live(after, s) == Live(w.g, s);
  }

  /** Where a batch leaves the member's own dial: its recorded positions say exactly that. */
  lemma FinalPositionsMean(env: Env, w: World, c: Conn, t: Shard, frames: seq<Frame>, s: Shard)
    requires Inv(env, w) && c in w.g.resumes && s in env.sources && w.dialAt(c, t).Some?
    requires Follows(env, t, w.dialAt(c, t).value, frames)
    ensures var rpos := FinalPositions(w, c, t, frames);
            && rpos.Keys <= env.sources
            && (s in rpos ==> rpos[s].number == BatchEnd(w, c, s, t, frames))
  {
    hide Between, EndAt, Relayed;
    assert ResumeInv(env, w, c);
    RelayedKeeps(env, t, w.dialAt(c, t).value, frames);
    LastPosIsEnd(env, t, w.dialAt(c, t).value, frames);
    assert t in env.sources;
  }

  /** A converged member's recorded position on every source is the shared one, so not past the upstream. */
  lemma MigrationPosition(env: Env, w: World, c: Conn, t: Shard, frames: seq<Frame>, s: Shard)
    requires Inv(env, w) && s in env.sources && c in w.g.resumes && w.dialAt(c, t).Some?
    requires Follows(env, t, w.dialAt(c, t).value, frames)
    requires Migrates(env.encodedLen, w.g, c, t, frames, |env.sources|)
    ensures s in w.g.pos && Live(w.g, s)
    ensures BatchEnd(w, c, s, t, frames) == w.g.pos[s].number <= w.sharedAt(s)
  {
    hide Between, Follows, BatchEnd, Migrates, FinalPositions, ResumeInv;
    var rpos := FinalPositions(w, c, t, frames);
    MigratesMeans(env, w, c, t, frames);
    FinalPositionsMean(env, w, c, t, frames, s);
    SubsetCardinality(rpos.Keys, env.sources);
    assert s in rpos;
  }

  lemma EffectDialBatch(env: Env, w: World, d: Conn, t: Shard, frames: seq<Frame>, c: Conn, s: Shard)
    requires Consistent(w.g) && c in w.g.queues
    ensures var hit := d == c && !Ignored(w.g, c, frames);
            var leaves := hit && Migrates(env.encodedLen, w.g, c, t, frames, |env.sources|);
            Effect(env, w, DialBatch(d, t, frames), c, s,
                   if hit then Fanned(t, Relayed(frames)) else [],
                   if leaves then w.sharedAt(s) else if hit then BatchEnd(w, c, s, t, frames) else w.reached(c, s),
                   leaves && Missed(env, s, BatchEnd(w, c, s, t, frames), w.sharedAt(s)))
  {
    hide BatchEnd, Missed, Fanned, Relayed;
    if d == c && Migrates(env.encodedLen, w.g, c, t, frames, |env.sources|) {
      assert !Ignored(w.g, c, frames);
    }
  }

  /** The events of a batch of the member's own dial. */
  lemma BatchAccount(env: Env, w: World, c: Conn, t: Shard, frames: seq<Frame>, s: Shard)
    requires Inv(env, w) && c in w.g.resumes && s in env.sources && w.dialAt(c, t).Some?
    requires Follows(env, t, w.dialAt(c, t).value, frames)
    ensures var lo, mid := w.reached(c, s), BatchEnd(w, c, s, t, frames);
            lo <= mid && Got(Fanned(t, Relayed(frames)), s) == Between(env, s, lo, mid)
  {
    hide Follows, EndAt, Relayed, Got, Between;
    assert ResumeInv(env, w, c);
    GotFanned(t, Relayed(frames), s);
    RelayedKeeps(env, t, w.dialAt(c, t).value, frames);
    DeliveredExactly(env, t, w.dialAt(c, t).value, frames);
    EmptyBetween(env, s, w.reached(c, s));
  }

  lemma EmptyBetween(env: Env, s: Shard, at: nat)
    ensures Between(env, s, at, at) == []
  {
  }

  lemma AccountDialBatch(env: Env, w: World, d: Conn, t: Shard, frames: seq<Frame>, c: Conn, s: Shard)
    requires Inv(env, w) && c in w.g.queues && s in env.sources
    requires w.dialAt(d, t).Some? && Follows(env, t, w.dialAt(d, t).value, frames)
    ensures AccountStep(env, w, DialBatch(d, t, frames), c, s)
  {
    hide Between, Follows, Fanned, Relayed, Got, IsSubseq, Migrates, Missed, Effect, AccountStep, BatchEnd, ResumeInv;
    var a := DialBatch(d, t, frames);
    EffectDialBatch(env, w, d, t, frames, c, s);
    if d != c || Ignored(w.g, c, frames) {
      QuietStep(env, w, a, c, s, []);
    } else {
      var lo, mid := w.reached(c, s), BatchEnd(w, c, s, t, frames);
      var puts := Fanned(t, Relayed(frames));
      var more := Got(puts, s);
      BatchAccount(env, w, c, t, frames, s);
      SubseqRefl(more);
      if Migrates(env.encodedLen, w.g, c, t, frames, |env.sources|) {
        var hi := w.sharedAt(s);
        MigrationPosition(env, w, c, t, frames, s);
        BetweenSplit(env, s, lo, mid, hi);
        MissedIffBetween(env, s, mid, hi);
        NothingIsSubseq(Between(env, s, mid, hi));
        SubseqAppend(more, more, [], Between(env, s, mid, hi));
        assert more + [] == more;
        FromEffect(env, w, a, c, s, puts, hi, Missed(env, s, mid, hi));
      } else {
        FromEffect(env, w, a, c, s, puts, mid, false);
      }
    }
  }

  /** Every step that can happen keeps every account. */
  lemma EveryAccountStep(env: Env, w: World, a: Action, c: Conn, s: Shard)
    requires Inv(env, w) && Enabled(env, w, a) && c in w.g.queues && s in env.sources
    ensures AccountStep(env, w, a, c, s)
  {
    hide AccountStep, ResumeInv, Follows;
    match a
    case SharedUp(t, from, frames) => AccountSharedUp(env, w, t, from, frames, c, s);
    case SharedBatch(t, frames) => AccountSharedBatch(env, w, t, frames, c, s);
    case JoinPreamble(d) => AccountJoinPreamble(env, w, d, c, s);
    case DialUp(d, t, frames) => AccountDialUp(env, w, d, t, frames, c, s);
    case DialBatch(d, t, frames) => AccountDialBatch(env, w, d, t, frames, c, s);
    case DialHead(_) => AccountControl(env, w, a, c, s);
    case Beat(_, _) => AccountControl(env, w, a, c, s);
    case Leave(_) => AccountControl(env, w, a, c, s);
    case _ => AccountQuiet(env, w, a, c, s);
  }
}
