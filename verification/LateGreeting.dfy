/** A concrete run in which a fresh member is greeted with an event older than one it already has. */
module LateGreeting {
  import opened Prelude
  import opened MemberQueues
  import opened Fanout
  import opened EngineFeed
  import opened ResumeProtocol
  import opened ResumeExactlyOnce
  import opened FreshJoins

  const FIRST := Frame(Some(Pos("e", 1)), None, Event("first"))
  const SECOND := Frame(Some(Pos("e", 2)), None, Event("second"))

  /** One source that emits two events, on a route whose first frame is an ordinary event. */
  function TwoEvents(): Env {
    Env({0}, (s: Shard) => "e", (s: Shard, n: nat) => 1 <= n <= 2, (c: Conn, s: Shard) => 0, (b: Body) => 0)
  }

  const CONNECT := SharedUp(0, 0, [FIRST])
  const BATCH := SharedBatch(0, [SECOND])
  const ACTIONS: seq<Action> := [CONNECT, Join(7), BATCH, JoinPreamble(7)]

  // The group after each of the first three actions.
  const G1 := GroupState(map[], {}, map[], map[0 := Pos("e", 1)], map[0 := true], 1, Some(0), [FIRST], None)
  const G2 := G1.(queues := map[7 := EMPTY], members := {7})
  const G3 := G1.(queues := map[7 := Queue([Data(SECOND)], None)], members := {7}, pos := map[0 := Pos("e", 2)])

  predicate Shows(w: World, g: GroupState, at: nat, waiting: set<Conn>) {
    w.g == g && w.sharedAt(0) == at && w.waiting == waiting && w.providedFrom == 0
  }

  /** The action can happen and leaves the world described. */
  ghost predicate Leads(w: World, a: Action, g: GroupState, at: nat, waiting: set<Conn>) {
    && Consistent(w.g)
    && IsStep(TwoEvents(), w, a, Next(TwoEvents(), w, a))
    && Shows(Next(TwoEvents(), w, a), g, at, waiting)
  }

  lemma Stepped(w: World, a: Action, g: GroupState, at: nat, waiting: set<Conn>)
    requires Consistent(w.g) && Enabled(TwoEvents(), w, a)
    requires GroupAfter(TwoEvents(), w, a) == g && SharedAtAfter(w, a, 0) == at
    requires WaitingAfter(w, a) == waiting && ProvidedFromAfter(w, a) == 0
    ensures Leads(w, a, g, at, waiting)
  {
    hide GroupAfter, SharedAtAfter, WaitingAfter, ProvidedFromAfter, Enabled, Consistent;
  }

  lemma BetweenNeighbours(n: nat)
    ensures Between(TwoEvents(), 0, n, n) == []
  {
  }

  /** A connection delivers one event after where it stands. */
  lemma OneFollows(at: nat, f: Frame)
    requires (f == FIRST && at == 0) || (f == SECOND && at == 1)
    ensures Follows(TwoEvents(), 0, at, [f]) && EndAt(at, [f]) == at + 1
    ensures LastPos([f]) == f.pos && LastEid([f]) == None && Events([f]) == [at + 1]
  {
    assert Init([f]) == [] && Last([f]) == f;
    BetweenNeighbours(at);
    assert FollowsOne(TwoEvents(), 0, at, f);
    assert EndAt(at, []) == at && Events([]) == [] && LastPos([]) == None && LastEid([]) == None;
  }

  lemma Step0(w: World)
    requires w == Boot()
    ensures Leads(w, CONNECT, G1, 1, {})
  {
    hide Follows, EndAt, LastPos, LastEid, Next, Leads;
    OneFollows(0, FIRST);
    Stepped(w, CONNECT, G1, 1, {});
  }

  lemma Step1(w: World)
    requires Shows(w, G1, 1, {})
    ensures Leads(w, Join(7), G2, 1, {7})
    ensures Next(TwoEvents(), w, Join(7)).start(7, 0) == 1
  {
    hide Leads;
    Stepped(w, Join(7), G2, 1, {7});
  }

  lemma BatchGroup()
    ensures Fanout.SharedBatch(TwoEvents().encodedLen, G2, 0, [SECOND]) == G3
  {
    hide LastPos, LastEid;
    OneFollows(1, SECOND);
    var len := TwoEvents().encodedLen;
    var q := PutAll(len, EMPTY, Fanned(0, [SECOND]));
    assert Fanned(0, [SECOND]) == [Entry(Feed(0), Data(SECOND), true)];
    assert Init([Entry(Feed(0), Data(SECOND), true)]) == [];
    assert PutAll(len, EMPTY, []) == EMPTY;
    assert [] + [Data(SECOND)] == [Data(SECOND)];
    assert q == G3.queues[7];
    assert FannedQueues(len, G2, 0, [SECOND]) == G3.queues;
    assert Stalled(G2) == {};
  }

  lemma Step2(w: World)
    requires Shows(w, G2, 1, {7}) && w.start(7, 0) == 1
    ensures Leads(w, BATCH, G3, 2, {7})
    ensures Next(TwoEvents(), w, BATCH).start(7, 0) == 1
  {
    hide Follows, EndAt, Fanout.SharedBatch, Leads;
    OneFollows(1, SECOND);
    BatchGroup();
    Stepped(w, BATCH, G3, 2, {7});
    hide GroupAfter;
  }

  /** The greeting brings the first event although the second is already queued. */
  lemma Step3(w: World)
    requires Shows(w, G3, 2, {7}) && w.start(7, 0) == 1
    ensures Consistent(w.g) && Enabled(TwoEvents(), w, JoinPreamble(7))
    ensures Disorders(TwoEvents(), w, JoinPreamble(7), 7, 0)
    ensures 7 in Next(TwoEvents(), w, JoinPreamble(7)).g.queues
  {
    hide EndAt, Events;
    OneFollows(0, FIRST);
    assert [FIRST][..1] == [FIRST];
    assert TwoEvents().emits(0, 2);
  }

  /**
    On a route whose preamble is an ordinary event, a fresh member can enter, be fanned the next event, and
    only then be greeted with the earlier one.
   */
  lemma LateGreetingReorders()
    ensures exists worlds ::
              && IsRun(TwoEvents(), worlds, ACTIONS)
              && 7 in Last(worlds).g.queues
              && !InOrder(Seen(Last(worlds).log(7), 0))
  {
    hide Next, Shows, Consistent, Disorders, TwoEvents, Enabled, InOrder, Seen;
    var env := TwoEvents();
    var w0 := Boot();
    Step0(w0);
    var w1 := Next(env, w0, CONNECT);
    Step1(w1);
    var w2 := Next(env, w1, Join(7));
    Step2(w2);
    var w3 := Next(env, w2, BATCH);
    Step3(w3);
    var w4 := Next(env, w3, JoinPreamble(7));
    var worlds := [w0, w1, w2, w3, w4];
    assert IsRun(env, worlds, ACTIONS);
    assert 0 in env.sources by { OneSource(); }
    InOrderIffGreetedInTime(env, worlds, ACTIONS, 7, 0);
    assert Disorders(env, worlds[3], ACTIONS[3], 7, 0);
  }

  lemma OneSource()
    ensures 0 in TwoEvents().sources
  {
  }
}
