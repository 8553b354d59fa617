/** A concrete run in which a migrating member loses an event. */
module ResumeLosses {
  import opened Prelude
  import opened MemberQueues
  import opened Fanout
  import opened EngineFeed
  import opened ResumeProtocol
  import opened ResumeAccounts
  import opened ResumeExactlyOnce

  const HERE := Pos("e", 0)
  const HEARTBEAT := Frame(Some(HERE), None, Control("server.heartbeat"))

  /** One source that emits a single event, at position 1; cursors resolve to position 0. */
  function OneEvent(): Env {
    Env({0}, (s: Shard) => "e", (s: Shard, n: nat) => n == 1, (c: Conn, s: Shard) => 0, (b: Body) => 0)
  }

  const CONNECT := SharedUp(0, 0, [HEARTBEAT])
  const DIAL := DialUp(7, 0, [HEARTBEAT])
  const RECONNECT := SharedUp(0, 1, [])
  const BATCH := DialBatch(7, 0, [HEARTBEAT])
  const ACTIONS: seq<Action> := [CONNECT, JoinResume(7), DialHead(7), DIAL, SharedDown(0), RECONNECT, BATCH]

  // The group before each action: the upstream comes up at 0, a member resumes from 0, the upstream goes away
  // and comes back one event later without having shown a position yet.
  const G1 := GroupState(map[], {}, map[], map[0 := HERE], map[0 := true], 1, Some(0), [HEARTBEAT], None)
  const G2 := G1.(queues := map[7 := EMPTY], resumes := map[7 := Resume(false, map[])])
  const G3 := G1.(queues := map[7 := Queue([Data(MEMBER_SSE_HEAD)], None)], resumes := map[7 := Resume(true, map[])])
  const G4 := G1.(queues := map[7 := Queue([Data(MEMBER_SSE_HEAD), Data(HEARTBEAT)], None)],
                  resumes := map[7 := Resume(true, map[0 := HERE])])
  const G5 := G4.(upstreamLive := map[0 := false], liveUpstreams := 0, provider := None)
  const G6 := G5.(upstreamLive := map[0 := true], liveUpstreams := 1, provider := Some(0), preamble := [])

  /** What the run needs to know of a world. */
  predicate Shows(w: World, g: GroupState, at: nat, dial: Option<nat>) {
    w.g == g && w.sharedAt(0) == at && w.dialAt(7, 0) == dial
  }

  lemma HeartbeatFollows()
    ensures Follows(OneEvent(), 0, 0, [HEARTBEAT]) && EndAt(0, [HEARTBEAT]) == 0
    ensures LastPos([HEARTBEAT]) == Some(HERE) && Relayed([HEARTBEAT]) == [HEARTBEAT]
    ensures LastEid([HEARTBEAT]) == None
    ensures EndAt(1, []) == 1 && Follows(OneEvent(), 0, 1, []) && LastPos([]) == None && LastEid([]) == None
  {
    assert Init([HEARTBEAT]) == [] && Last([HEARTBEAT]) == HEARTBEAT;
    assert EndAt(0, []) == 0 && Follows(OneEvent(), 0, 0, []) && LastPos([]) == None && LastEid([]) == None && Relayed([]) == [];
    assert FollowsOne(OneEvent(), 0, 0, HEARTBEAT);
  }

  /** The action can happen and leaves a group on which the next one can. */
  ghost predicate Leads(w: World, a: Action) {
    && Consistent(w.g)
    && IsStep(OneEvent(), w, a, Next(OneEvent(), w, a))
    && Consistent(Next(OneEvent(), w, a).g)
  }

  /** A step is what its parts say it is. */
  lemma Stepped(w: World, a: Action, g: GroupState, at: nat, dial: Option<nat>)
    requires Consistent(w.g) && Enabled(OneEvent(), w, a)
    requires GroupAfter(OneEvent(), w, a) == g
    requires SharedAtAfter(w, a, 0) == at && DialAtAfter(OneEvent(), w, a, 7, 0) == dial
    requires Consistent(g)
    ensures Leads(w, a) && Shows(Next(OneEvent(), w, a), g, at, dial)
  {
    hide GroupAfter, SharedAtAfter, DialAtAfter, Enabled;
  }

  lemma Step0(w: World)
    requires w == Boot()
    ensures Leads(w, CONNECT) && Shows(Next(OneEvent(), w, CONNECT), G1, 0, None)
  {
    hide Follows, EndAt, LastPos, LastEid, Next, Leads;
    HeartbeatFollows();
    Stepped(w, CONNECT, G1, 0, None);
  }

  lemma Step1(w: World)
    requires Shows(w, G1, 0, None)
    ensures Leads(w, JoinResume(7)) && Shows(Next(OneEvent(), w, JoinResume(7)), G2, 0, None)
  {
    hide Next;
    Stepped(w, JoinResume(7), G2, 0, None);
  }

  lemma Step2(w: World)
    requires Shows(w, G2, 0, None)
    ensures Leads(w, DialHead(7)) && Shows(Next(OneEvent(), w, DialHead(7)), G3, 0, None)
  {
    hide Next;
    assert Put(EMPTY, Data(MEMBER_SSE_HEAD)) == G3.queues[7];
    assert GiveHead(G2, 7) == G3 by {
      assert G2.queues[7 := G3.queues[7]] == G3.queues;
      assert G2.resumes[7 := Resume(true, map[])] == G3.resumes;
    }
    Stepped(w, DialHead(7), G3, 0, None);
  }

  lemma DialGroup()
    ensures ResumePreamble(G3, 7, 0, [HEARTBEAT]) == G4
  {
    hide RelayPreamble;
    OneRelayed(G3.queues[7], G3.resumes[7]);
    assert Put(G3.queues[7], Data(HEARTBEAT)) == G4.queues[7];
    assert G3.queues[7 := G4.queues[7]] == G4.queues;
    assert G3.resumes[7].rpos[0 := HERE] == map[0 := HERE];
    assert G3.resumes[7 := Resume(true, map[0 := HERE])] == G4.resumes;
  }

  lemma DialEnabled(w: World)
    requires Shows(w, G3, 0, None)
    ensures Consistent(w.g) && Enabled(OneEvent(), w, DIAL) && DialFrom(OneEvent(), w, 7, 0) == 0
  {
    hide Follows;
    HeartbeatFollows();
  }

  lemma Step3(w: World)
    requires Shows(w, G3, 0, None)
    ensures Leads(w, DIAL) && Shows(Next(OneEvent(), w, DIAL), G4, 0, Some(0))
  {
    hide ResumePreamble, Next, Enabled, EndAt;
    DialEnabled(w);
    DialGroup();
    assert EndAt(0, [HEARTBEAT]) == 0 by { HeartbeatFollows(); }
    assert GroupAfter(OneEvent(), w, DIAL) == G4;
    Stepped(w, DIAL, G4, 0, Some(0));
  }

  lemma OneRelayed(q: Queue, r: Resume)
    requires |q.items| < MEMBER_QUEUE_MAX_ITEMS
    ensures RelayPreamble(0, Relay(q, r), [HEARTBEAT]) ==
            Relay(Put(q, Data(HEARTBEAT)), r.(rpos := r.rpos[0 := HERE]))
  {
    assert Init([HEARTBEAT]) == [] && Last([HEARTBEAT]) == HEARTBEAT;
  }

  lemma Step4(w: World)
    requires Shows(w, G4, 0, Some(0))
    ensures Leads(w, SharedDown(0)) && Shows(Next(OneEvent(), w, SharedDown(0)), G5, 0, Some(0))
  {
    hide Next;
    assert UpstreamDown(G4, 0) == G5;
    Stepped(w, SharedDown(0), G5, 0, Some(0));
  }

  lemma Reconnected()
    ensures UpstreamUp(G5, 0, []) == G6
  {
  }

  lemma Step5(w: World)
    requires Shows(w, G5, 0, Some(0))
    ensures Leads(w, RECONNECT) && Shows(Next(OneEvent(), w, RECONNECT), G6, 1, Some(0))
  {
    hide Follows, EndAt, UpstreamUp, Next, Leads;
    HeartbeatFollows();
    Reconnected();
    Stepped(w, RECONNECT, G6, 1, Some(0));
  }

  lemma LastEnabled(w: World)
    requires Shows(w, G6, 1, Some(0))
    ensures Consistent(w.g) && IsStep(OneEvent(), w, BATCH, Next(OneEvent(), w, BATCH))
  {
    hide Follows, Next;
    HeartbeatFollows();
  }

  /** The last action migrates the member, */
  lemma Step6(w: World)
    requires Shows(w, G6, 1, Some(0))
    ensures Consistent(w.g) && IsStep(OneEvent(), w, BATCH, Next(OneEvent(), w, BATCH))
    ensures var g' := Next(OneEvent(), w, BATCH).g; 7 in g'.members && 7 in g'.queues
  {
    LastEnabled(w);
    hide ResumeBatch, Next, IsStep, Consistent, OneEvent;
    LastGroup();
    BatchGroup(w);
  }

  lemma BatchGroup(w: World)
    requires Consistent(w.g)
    ensures Next(OneEvent(), w, BATCH).g == ResumeBatch(OneEvent().encodedLen, w.g, 7, 0, [HEARTBEAT], 1)
  {
    hide ResumeBatch, SharedAtAfter, DialAtAfter, NextReached;
    assert |OneEvent().sources| == 1;
  }

  lemma LastGroup()
    ensures var g' := ResumeBatch(OneEvent().encodedLen, G6, 7, 0, [HEARTBEAT], 1); 7 in g'.members && 7 in g'.queues
  {
    hide ResumeBatch, Migrates, PutAll, Fanned, Relayed, LastPos;
    MigratesThere();
    ResumeBatchServes(OneEvent().encodedLen, G6, 7, 0, [HEARTBEAT], 1);
    ResumeBatchQueues(OneEvent().encodedLen, G6, 7, 0, [HEARTBEAT], 1);
  }

  /** and the event at position 1 is behind the upstream it migrates to. */
  lemma Step6Loses(w: World)
    requires Shows(w, G6, 1, Some(0))
    ensures Loses(OneEvent(), w, BATCH, 7, 0)
  {
    hide EndAt, Migrates, Missed, BatchEnd;
    MigratesThere();
    BatchEndsHere(w);
    FirstEventMissed();
    assert OneEvent().sources == {0} && |OneEvent().sources| == 1;
    assert LossAt(OneEvent(), w, BATCH, 7, 0);
  }

  lemma BatchEndsHere(w: World)
    requires Shows(w, G6, 1, Some(0))
    ensures BatchEnd(w, 7, 0, 0, [HEARTBEAT]) == 0
  {
    hide EndAt;
    HeartbeatFollows();
  }

  lemma FirstEventMissed()
    ensures Missed(OneEvent(), 0, 0, 1)
  {
    assert OneEvent().emits(0, 1);
  }

  lemma BootConsistent()
    ensures Consistent(Boot().g) && 0 in OneEvent().sources
  {
  }

  lemma MigratesThere()
    ensures Migrates(OneEvent().encodedLen, G6, 7, 0, [HEARTBEAT], 1)
  {
    hide PutAll, Fanned, LastPos, Relayed;
    HeartbeatFollows();
    assert Observe(map[0 := HERE], 0, Some(HERE)) == map[0 := HERE];
  }

  /** Whoever joined with a cursor counts as resumed from then on. */
  lemma {:induction false} ResumerIsMarked(env: Env, worlds: seq<World>, actions: seq<Action>, i: nat, c: Conn)
    requires IsRun(env, worlds, actions) && i < |actions| && actions[i] == JoinResume(c)
    ensures c in Last(worlds).resumed
    decreases |actions|
  {
    var w, a := worlds[|actions| - 1], Last(actions);
    PrefixRun(env, worlds, actions);
    if i < |actions| - 1 {
      ResumerIsMarked(env, Init(worlds), Init(actions), i, c);
    }
    MarkedAfter(env, w, a, Last(worlds), c);
  }

  lemma MarkedAfter(env: Env, w: World, a: Action, w': World, c: Conn)
    requires IsStep(env, w, a, w') && (c in w.resumed || a == JoinResume(c))
    ensures c in w'.resumed
  {
    hide GroupAfter, Puts, NextReached, NextStart, DialAtAfter, SharedAtAfter, Follows;
  }

  /**
    An upstream that reconnects counts as live before it has shown a position, so a member can migrate onto
    it while the recorded position still belongs to the old connection: the event in between reaches it
    neither way.
   */
  lemma StaleMigrationLosesAnEvent()
    ensures exists worlds ::
              && IsRun(OneEvent(), worlds, ACTIONS)
              && 7 in Last(worlds).g.queues && 7 in Last(worlds).g.members
              && !ExactlyOnce(OneEvent(), Last(worlds), 7, 0)
  {
    hide ExactlyOnce, Loses, Next, IsStep, Shows, Consistent, OneEvent;
    BootConsistent();
    var env := OneEvent();
    var w0 := Boot();
    Step0(w0);
    var w1 := Next(env, w0, CONNECT);
    Step1(w1);
    var w2 := Next(env, w1, JoinResume(7));
    Step2(w2);
    var w3 := Next(env, w2, DialHead(7));
    Step3(w3);
    var w4 := Next(env, w3, DIAL);
    Step4(w4);
    var w5 := Next(env, w4, SharedDown(0));
    Step5(w5);
    var w6 := Next(env, w5, RECONNECT);
    Step6(w6);
    Step6Loses(w6);
    var w7 := Next(env, w6, BATCH);
    var worlds := [w0, w1, w2, w3, w4, w5, w6, w7];
    assert IsRun(env, worlds, ACTIONS);
    ResumerIsMarked(env, worlds, ACTIONS, 1, 7);
    ExactlyOnceIffNoLoss(env, worlds, ACTIONS, 7, 0);
    assert Loses(env, worlds[6], ACTIONS[6], 7, 0);
  }
}
