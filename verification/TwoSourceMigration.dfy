/** A concrete run over two sources: a resuming member stays on its dials until both agree, and then moves. */
module TwoSourceMigration {
  import opened Prelude
  import opened MemberQueues
  import opened Fanout
  import opened EngineFeed
  import opened ResumeProtocol
  import opened ResumeExactlyOnce
  import opened Migration

  const HELLO := Frame(Some(Pos("e", 0)), None, Control("server.connected"))
  const NEWS := Frame(Some(Pos("e", 1)), None, Event("news"))

  /** Two sources; the first one emits one event. */
  function TwoSources(): Env {
    Env({0, 1}, (s: Shard) => "e", (s: Shard, n: nat) => s == 0 && n == 1, (c: Conn, s: Shard) => 0, (b: Body) => 0)
  }

  const ACTIONS: seq<Action> := [
    SharedUp(0, 0, [HELLO]), SharedUp(1, 0, [HELLO]), JoinResume(7), DialHead(7), DialUp(7, 0, [HELLO]),
    DialUp(7, 1, [HELLO]), SharedBatch(0, [NEWS]), DialBatch(7, 1, [HELLO]), DialBatch(7, 0, [NEWS])]

  const E0 := Pos("e", 0)
  const E1 := Pos("e", 1)

  // The group after each step.
  function OneUp(): GroupState {
    GroupState(map[], {}, map[], map[0 := E0], map[0 := true], 1, Some(0), [HELLO], None)
  }

  function BothUp(): GroupState {
    GroupState(map[], {}, map[], map[0 := E0, 1 := E0], map[0 := true, 1 := true], 2, Some(0), [HELLO], None)
  }

  /** Member 7 resuming, with what is queued for it and what it has recorded. */
  function With(g: GroupState, items: seq<Frame>, headGiven: bool, rpos: map<Shard, Pos>): GroupState {
    g.(queues := map[7 := Queue(Datas(items), None)], resumes := map[7 := Resume(headGiven, rpos)])
  }

  function Joined(): GroupState {
    With(BothUp(), [], false, map[])
  }

  function Headed(): GroupState {
    With(BothUp(), [MEMBER_SSE_HEAD], true, map[])
  }

  function OneDialed(): GroupState {
    With(BothUp(), [MEMBER_SSE_HEAD, HELLO], true, map[0 := E0])
  }

  function BothDialed(): GroupState {
    With(BothUp(), [MEMBER_SSE_HEAD, HELLO, HELLO], true, map[0 := E0, 1 := E0])
  }

  function NewsFanned(): GroupState {
    BothDialed().(pos := map[0 := E1, 1 := E0])
  }

  function StillDialing(): GroupState {
    With(NewsFanned(), [MEMBER_SSE_HEAD, HELLO, HELLO, HELLO], true, map[0 := E0, 1 := E0])
  }

  function Datas(frames: seq<Frame>): seq<Item> {
    seq(|frames|, i requires 0 <= i < |frames| => Data(frames[i]))
  }

  /** The group, where the shared upstreams stand, and where the dials of member 7 stand. */
  ghost predicate Shows(w: World, g: GroupState, at0: nat, at1: nat, d0: Option<nat>, d1: Option<nat>) {
    && w.g == g && w.sharedAt(0) == at0 && w.sharedAt(1) == at1
    && w.dialAt(7, 0) == d0 && w.dialAt(7, 1) == d1
  }

  ghost predicate Leads(w: World, a: Action, g: GroupState, at0: nat, at1: nat, d0: Option<nat>, d1: Option<nat>) {
    && Consistent(w.g)
    && IsStep(TwoSources(), w, a, Next(TwoSources(), w, a))
    && Shows(Next(TwoSources(), w, a), g, at0, at1, d0, d1)
  }

  lemma Stepped(w: World, a: Action, g: GroupState, at0: nat, at1: nat, d0: Option<nat>, d1: Option<nat>)
    requires Consistent(w.g) && Enabled(TwoSources(), w, a)
    requires GroupAfter(TwoSources(), w, a) == g && SharedAtAfter(w, a, 0) == at0 && SharedAtAfter(w, a, 1) == at1
    requires DialAtAfter(TwoSources(), w, a, 7, 0) == d0 && DialAtAfter(TwoSources(), w, a, 7, 1) == d1
    ensures Leads(w, a, g, at0, at1, d0, d1)
  {
    hide GroupAfter, SharedAtAfter, DialAtAfter, Enabled, Consistent;
  }

  lemma NothingBetween(s: Shard, n: nat)
    ensures Between(TwoSources(), s, n, n) == []
  {
  }

  /** A control frame repeats position 0; the event of source 0 follows it. */
  lemma HelloFollows(s: Shard)
    ensures Follows(TwoSources(), s, 0, [HELLO]) && EndAt(0, [HELLO]) == 0
    ensures LastPos([HELLO]) == HELLO.pos && LastEid([HELLO]) == None && Relayed([HELLO]) == [HELLO]
  {
    assert Init([HELLO]) == [] && Last([HELLO]) == HELLO;
    NothingBetween(s, 0);
    assert FollowsOne(TwoSources(), s, 0, HELLO);
    assert EndAt(0, []) == 0 && LastPos([]) == None && LastEid([]) == None;
  }

  lemma NewsFollows()
    ensures Follows(TwoSources(), 0, 0, [NEWS]) && EndAt(0, [NEWS]) == 1
    ensures LastPos([NEWS]) == NEWS.pos && LastEid([NEWS]) == None && Relayed([NEWS]) == [NEWS]
  {
    assert Init([NEWS]) == [] && Last([NEWS]) == NEWS;
    NothingBetween(0, 0);
    assert FollowsOne(TwoSources(), 0, 0, NEWS);
    assert EndAt(0, []) == 0 && LastPos([]) == None && LastEid([]) == None;
  }

  // ---- the group, section by section -----------------------------------------------------------------

  lemma UpstreamsUp()
    ensures UpstreamUp(IDLE, 0, [HELLO]) == OneUp() && UpstreamUp(OneUp(), 1, [HELLO]) == BothUp()
  {
    hide LastPos, LastEid;
    HelloFollows(0);
    assert map[0 := E0][1 := E0] == map[0 := E0, 1 := E0];
  }

  lemma JoinAndHead()
    ensures EnterResume(BothUp(), 7) == Joined() && GiveHead(Joined(), 7) == Headed()
  {
    assert Datas([]) == [] && Datas([]) + [Data(MEMBER_SSE_HEAD)] == Datas([MEMBER_SSE_HEAD]);
  }

  lemma HelloRelayed(s: Shard, items: seq<Frame>, rpos: map<Shard, Pos>)
    requires |items| < 3
    ensures RelayPreamble(s, Relay(Queue(Datas(items), None), Resume(true, rpos)), [HELLO]) ==
            Relay(Queue(Datas(items + [HELLO]), None), Resume(true, rpos[s := E0]))
  {
    assert Init([HELLO]) == [] && Last([HELLO]) == HELLO;
    assert Datas(items) + [Data(HELLO)] == Datas(items + [HELLO]);
  }

  lemma DialsUp()
    ensures ResumePreamble(Headed(), 7, 0, [HELLO]) == OneDialed()
    ensures ResumePreamble(OneDialed(), 7, 1, [HELLO]) == BothDialed()
  {
    hide RelayPreamble, BothUp, Datas;
    HelloRelayed(0, [MEMBER_SSE_HEAD], map[]);
    HelloRelayed(1, [MEMBER_SSE_HEAD, HELLO], map[0 := E0]);
    assert [MEMBER_SSE_HEAD] + [HELLO] == [MEMBER_SSE_HEAD, HELLO];
    assert [MEMBER_SSE_HEAD, HELLO] + [HELLO] == [MEMBER_SSE_HEAD, HELLO, HELLO];
    assert map[0 := E0][1 := E0] == map[0 := E0, 1 := E0];
  }

  lemma NewsIsFanned(len: Body -> nat)
    ensures Fanout.SharedBatch(len, BothDialed(), 0, [NEWS]) == NewsFanned()
  {
    hide LastPos, LastEid, Datas, PutAll, Fanned;
    NewsFollows();
    assert FannedQueues(len, BothDialed(), 0, [NEWS]) == BothDialed().queues;
    assert Stalled(BothDialed()) == {};
    assert map[0 := E0, 1 := E0][0 := E1] == map[0 := E1, 1 := E0];
    assert BothDialed().resumes - {} == BothDialed().resumes;
  }

  /** On source 1 the member stands with the shared upstream, on source 0 it does not: it stays. */
  lemma NotYet(len: Body -> nat)
    ensures ResumeBatch(len, NewsFanned(), 7, 1, [HELLO], 2) == StillDialing()
  {
    var g := NewsFanned();
    assert !CaughtUp(g, g.resumes[7], 1, [HELLO], 0);
    assert |{0, 1}| == 2;
    MigratesIff(len, g, 7, 1, [HELLO], {0, 1});
    StaysDialing(len);
  }

  lemma StaysDialing(len: Body -> nat)
    requires 7 !in ResumeBatch(len, NewsFanned(), 7, 1, [HELLO], 2).members
    ensures ResumeBatch(len, NewsFanned(), 7, 1, [HELLO], 2) == StillDialing()
  {
    hide Converged, LastPos, PutAll, Fanned, Relayed;
    HelloFollows(1);
    HelloFanned(len, [MEMBER_SSE_HEAD, HELLO, HELLO]);
    assert [MEMBER_SSE_HEAD, HELLO, HELLO] + [HELLO] == [MEMBER_SSE_HEAD, HELLO, HELLO, HELLO];
    assert map[0 := E0, 1 := E0][1 := E0] == map[0 := E0, 1 := E0];
  }

  lemma HelloFanned(len: Body -> nat, items: seq<Frame>)
    ensures PutAll(len, Queue(Datas(items), None), Fanned(1, [HELLO])) == Queue(Datas(items + [HELLO]), None)
  {
    var es := Fanned(1, [HELLO]);
    assert es == [Entry(Feed(1), Data(HELLO), true)] && Init(es) == [];
    assert PutAll(len, Queue(Datas(items), None), []) == Queue(Datas(items), None);
    assert Datas(items) + [Data(HELLO)] == Datas(items + [HELLO]);
  }

  /** With the news from its own dial it stands with both. */
  lemma NowBoth(len: Body -> nat)
    ensures 7 in ResumeBatch(len, StillDialing(), 7, 0, [NEWS], 2).members
    ensures 7 !in ResumeBatch(len, StillDialing(), 7, 0, [NEWS], 2).resumes
  {
    hide ResumeBatch;
    var g := StillDialing();
    assert ShownAt([NEWS], 0, E1);
    assert LastShown([NEWS], E1);
    assert CaughtUp(g, g.resumes[7], 0, [NEWS], 0);
    assert CaughtUp(g, g.resumes[7], 0, [NEWS], 1);
    assert |{0, 1}| == 2;
    MigratesIff(len, g, 7, 0, [NEWS], {0, 1});
  }

  // ---- the run ---------------------------------------------------------------------------------------

  lemma FirstUp(w: World)
    requires w == Boot()
    ensures Leads(w, SharedUp(0, 0, [HELLO]), OneUp(), 0, 0, None, None)
  {
    hide Follows, EndAt, Leads, UpstreamUp, EnterResume, GiveHead, ResumePreamble, Fanout.SharedBatch, ResumeBatch;
    UpstreamsUp();
    HelloFollows(0);
    Stepped(w, SharedUp(0, 0, [HELLO]), OneUp(), 0, 0, None, None);
  }

  lemma SecondUp(w: World)
    requires Shows(w, OneUp(), 0, 0, None, None)
    ensures Leads(w, SharedUp(1, 0, [HELLO]), BothUp(), 0, 0, None, None)
  {
    hide Follows, EndAt, Leads, UpstreamUp, EnterResume, GiveHead, ResumePreamble, Fanout.SharedBatch, ResumeBatch;
    UpstreamsUp();
    HelloFollows(1);
    Stepped(w, SharedUp(1, 0, [HELLO]), BothUp(), 0, 0, None, None);
  }

  lemma Joins(w: World)
    requires Shows(w, BothUp(), 0, 0, None, None)
    ensures Leads(w, JoinResume(7), Joined(), 0, 0, None, None)
  {
    hide Follows, EndAt, Leads, UpstreamUp, EnterResume, GiveHead, ResumePreamble, Fanout.SharedBatch, ResumeBatch;
    JoinAndHead();
    Stepped(w, JoinResume(7), Joined(), 0, 0, None, None);
  }

  lemma Heads(w: World)
    requires Shows(w, Joined(), 0, 0, None, None)
    ensures Leads(w, DialHead(7), Headed(), 0, 0, None, None)
  {
    hide Follows, EndAt, Leads, UpstreamUp, EnterResume, GiveHead, ResumePreamble, Fanout.SharedBatch, ResumeBatch;
    JoinAndHead();
    Stepped(w, DialHead(7), Headed(), 0, 0, None, None);
  }

  lemma ReadyToDial(g: GroupState)
    requires g == Headed() || g == OneDialed()
    ensures Consistent(g) && 7 in g.queues && 7 in g.resumes && g.resumes[7].headGiven && 1 !in g.resumes[7].rpos
    ensures g == Headed() ==> 0 !in g.resumes[7].rpos
  {
  }

  lemma DialsFrom0(w: World, g: GroupState, d0: Option<nat>, s: Shard)
    requires Shows(w, g, 0, 0, d0, None) && ((s == 0 && d0 == None) || s == 1)
    requires Consistent(g) && 7 in g.queues && 7 in g.resumes && g.resumes[7].headGiven && s !in g.resumes[7].rpos
    requires Follows(TwoSources(), s, 0, [HELLO]) && EndAt(0, [HELLO]) == 0
    ensures var env, a := TwoSources(), DialUp(7, s, [HELLO]);
            && Enabled(env, w, a) && GroupAfter(env, w, a) == ResumePreamble(g, 7, s, [HELLO])
            && SharedAtAfter(w, a, 0) == 0 && SharedAtAfter(w, a, 1) == 0
            && DialAtAfter(env, w, a, 7, 0) == (if s == 0 then Some(0) else d0)
            && DialAtAfter(env, w, a, 7, 1) == (if s == 1 then Some(0) else None)
  {
    hide Follows, EndAt, ResumePreamble;
  }

  lemma FirstDial(w: World)
    requires Shows(w, Headed(), 0, 0, None, None)
    ensures Leads(w, DialUp(7, 0, [HELLO]), OneDialed(), 0, 0, Some(0), None)
  {
    hide Follows, EndAt, Leads, ResumePreamble, Headed, OneDialed, GroupAfter, SharedAtAfter, DialAtAfter, TwoSources;
    DialsUp();
    HelloFollows(0);
    ReadyToDial(Headed());
    DialsFrom0(w, Headed(), None, 0);
    Stepped(w, DialUp(7, 0, [HELLO]), OneDialed(), 0, 0, Some(0), None);
  }

  lemma SecondDial(w: World)
    requires Shows(w, OneDialed(), 0, 0, Some(0), None)
    ensures Leads(w, DialUp(7, 1, [HELLO]), BothDialed(), 0, 0, Some(0), Some(0))
  {
    hide Follows, EndAt, Leads, ResumePreamble, OneDialed, BothDialed, GroupAfter, SharedAtAfter, DialAtAfter, TwoSources;
    DialsUp();
    HelloFollows(1);
    ReadyToDial(OneDialed());
    DialsFrom0(w, OneDialed(), Some(0), 1);
    Stepped(w, DialUp(7, 1, [HELLO]), BothDialed(), 0, 0, Some(0), Some(0));
  }

  lemma NewsComes(w: World)
    requires Shows(w, BothDialed(), 0, 0, Some(0), Some(0))
    ensures Leads(w, SharedBatch(0, [NEWS]), NewsFanned(), 1, 0, Some(0), Some(0))
  {
    hide Follows, EndAt, Leads, UpstreamUp, EnterResume, GiveHead, ResumePreamble, Fanout.SharedBatch, ResumeBatch;
    NewsIsFanned(TwoSources().encodedLen);
    NewsFollows();
    Stepped(w, SharedBatch(0, [NEWS]), NewsFanned(), 1, 0, Some(0), Some(0));
  }

  lemma Resuming(g: GroupState)
    requires g == NewsFanned() || g == StillDialing()
    ensures Consistent(g) && 7 in g.queues && 7 in g.resumes && 7 !in g.members && !Full(g.queues[7])
  {
  }

  lemma Dials(w: World, g: GroupState, s: Shard, frames: seq<Frame>)
    requires Shows(w, g, 1, 0, Some(0), Some(0)) && (s == 0 || s == 1) && frames != []
    requires Consistent(g) && 7 in g.queues && 7 in g.resumes && !Full(g.queues[7])
    requires Follows(TwoSources(), s, 0, frames)
    ensures var env, a := TwoSources(), DialBatch(7, s, frames);
            && Enabled(env, w, a)
            && GroupAfter(env, w, a) == ResumeBatch(env.encodedLen, g, 7, s, frames, 2)
            && SharedAtAfter(w, a, 0) == 1 && SharedAtAfter(w, a, 1) == 0
            && (EndAt(0, frames) == 0 ==> DialAtAfter(env, w, a, 7, 0) == Some(0) && DialAtAfter(env, w, a, 7, 1) == Some(0))
  {
    hide Follows, EndAt, ResumeBatch, Full;
    assert |{0, 1}| == 2;
  }

  lemma Stays(w: World)
    requires Shows(w, NewsFanned(), 1, 0, Some(0), Some(0))
    ensures Leads(w, DialBatch(7, 1, [HELLO]), StillDialing(), 1, 0, Some(0), Some(0))
  {
    hide Follows, EndAt, Leads, ResumeBatch, NewsFanned, StillDialing, Full, GroupAfter, SharedAtAfter, DialAtAfter, TwoSources;
    HelloFollows(1);
    Resuming(NewsFanned());
    Dials(w, NewsFanned(), 1, [HELLO]);
    NotYet(TwoSources().encodedLen);
    Stepped(w, DialBatch(7, 1, [HELLO]), StillDialing(), 1, 0, Some(0), Some(0));
  }

  /** The member's own dial brings the news: it stands with both shared upstreams and moves. */
  lemma Moves(w: World)
    requires Shows(w, StillDialing(), 1, 0, Some(0), Some(0))
    ensures Consistent(w.g) && Enabled(TwoSources(), w, DialBatch(7, 0, [NEWS]))
    ensures var g := Next(TwoSources(), w, DialBatch(7, 0, [NEWS])).g; 7 in g.members && 7 !in g.resumes
  {
    hide Follows, EndAt, ResumeBatch, StillDialing, Full, GroupAfter, SharedAtAfter, DialAtAfter, TwoSources;
    NewsFollows();
    Resuming(StillDialing());
    Dials(w, StillDialing(), 0, [NEWS]);
    NowBoth(TwoSources().encodedLen);
  }

  /** A member of a two-source group rides its dials while one source is behind and moves when both agree. */
  lemma MovesWhenBothAgree()
    ensures exists worlds: seq<World> ::
              && IsRun(TwoSources(), worlds, ACTIONS)
              && 7 in worlds[8].g.resumes && 7 !in worlds[8].g.members
              && 7 in Last(worlds).g.members && 7 !in Last(worlds).g.resumes
  {
    hide Next, Shows, Consistent, TwoSources, Enabled;
    var env := TwoSources();
    var w0 := Boot();
    FirstUp(w0);
    var w1 := Next(env, w0, SharedUp(0, 0, [HELLO]));
    SecondUp(w1);
    var w2 := Next(env, w1, SharedUp(1, 0, [HELLO]));
    Joins(w2);
    var w3 := Next(env, w2, JoinResume(7));
    Heads(w3);
    var w4 := Next(env, w3, DialHead(7));
    FirstDial(w4);
    var w5 := Next(env, w4, DialUp(7, 0, [HELLO]));
    SecondDial(w5);
    var w6 := Next(env, w5, DialUp(7, 1, [HELLO]));
    NewsComes(w6);
    var w7 := Next(env, w6, SharedBatch(0, [NEWS]));
    Stays(w7);
    var w8 := Next(env, w7, DialBatch(7, 1, [HELLO]));
    Moves(w8);
    var w9 := Next(env, w8, DialBatch(7, 0, [NEWS]));
    var worlds := [w0, w1, w2, w3, w4, w5, w6, w7, w8, w9];
    assert IsRun(env, worlds, ACTIONS);
    ShowsResuming(w8);
  }

  lemma ShowsResuming(w: World)
    requires Shows(w, StillDialing(), 1, 0, Some(0), Some(0))
    ensures 7 in w.g.resumes && 7 !in w.g.members
  {
    Resuming(StillDialing());
  }
}
