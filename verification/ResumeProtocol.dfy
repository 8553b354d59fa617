/** Runs of the group: every interleaving of upstream batches, resume dials, joins, drops and writer steps. */
module ResumeProtocol {
  import opened Prelude
  import opened MemberQueues
  import opened Fanout
  import opened EngineFeed

  datatype Action =
    | SharedUp(s: Shard, from: nat, frames: seq<Frame>)   // connected at position `from`, preamble read
    | SharedBatch(s: Shard, frames: seq<Frame>)
    | SharedDown(s: Shard)
    | Join(c: Conn)
    | JoinPreamble(c: Conn)
    | JoinResume(c: Conn)
    | DialHead(c: Conn)
    | DialUp(c: Conn, s: Shard, frames: seq<Frame>)       // dial or re-dial, preamble read
    | DialBatch(c: Conn, s: Shard, frames: seq<Frame>)
    | DialDown(c: Conn, s: Shard)
    | Beat(c: Conn, beat: Frame)
    | Leave(c: Conn)
    | Drop(c: Conn)
    | Take(c: Conn)

  /**
    The group, the connections to the engines, the joins still waiting for a preamble (with the position the
    provided preamble's connection started from), and a record of what happened: where each member's account
    with a source starts and how far it reaches, everything put on its queue, everything its writer took.
   */
  datatype World = World(
    g: GroupState,
    sharedAt: Shard -> nat,
    dialAt: (Conn, Shard) -> Option<nat>,
    waiting: set<Conn>,
    providedFrom: nat,
    resumed: set<Conn>,
    start: (Conn, Shard) -> nat,
    reached: (Conn, Shard) -> nat,
    log: Conn -> seq<Entry>,
    taken: Conn -> seq<Item>)

  /** At boot no upstream has connected. */
  function Boot(): World {
    World(IDLE, (s: Shard) => 0, (c: Conn, s: Shard) => None, {}, 0, {},
          (c: Conn, s: Shard) => 0, (c: Conn, s: Shard) => 0, (c: Conn) => [], (c: Conn) => [])
  }

  /** The position a resume dial asks the engine to continue from: the recorded one, else the cursor. */
  function DialFrom(env: Env, w: World, c: Conn, s: Shard): nat {
    if c in w.g.resumes && s in w.g.resumes[c].rpos then w.g.resumes[c].rpos[s].number else env.cursor(c, s)
  }

  /** What the environment may do in a state. A cursor-less dial never replays what an earlier one delivered. */
  ghost predicate Enabled(env: Env, w: World, a: Action) {
    match a
    case SharedUp(s, from, frames) =>
      s in env.sources && !Live(w.g, s) && from >= w.sharedAt(s) && Follows(env, s, from, frames)
    case SharedBatch(s, frames) => s in env.sources && Live(w.g, s) && Follows(env, s, w.sharedAt(s), frames)
    case SharedDown(s) => s in env.sources && Live(w.g, s)
    case Join(c) => c !in w.g.queues
    case JoinPreamble(c) => c in w.waiting
    case JoinResume(c) => c !in w.g.queues
    case DialUp(c, s, frames) =>
      && s in env.sources && c in w.g.resumes && w.g.resumes[c].headGiven && w.dialAt(c, s).None?
      && Follows(env, s, DialFrom(env, w, c, s), frames)
    case DialBatch(c, s, frames) =>
      s in env.sources && c in w.g.queues && w.dialAt(c, s).Some? && Follows(env, s, w.dialAt(c, s).value, frames)
    case DialDown(c, s) => w.dialAt(c, s).Some?
    case Beat(c, beat) =>
      (c in w.g.resumes ==> w.g.resumes[c].headGiven) && beat.pos.None? && !IsEvent(beat)
    case _ => true
  }

  function GroupAfter(env: Env, w: World, a: Action): GroupState
    requires Consistent(w.g)
  {
    match a
    case SharedUp(s, _, frames) => UpstreamUp(w.g, s, frames)
    case SharedBatch(s, frames) => Fanout.SharedBatch(env.encodedLen, w.g, s, frames)
    case SharedDown(s) => UpstreamDown(w.g, s)
    case Join(c) => EnterMember(w.g, c)
    case JoinPreamble(c) => QueuePreamble(w.g, c)
    case JoinResume(c) => EnterResume(w.g, c)
    case DialHead(c) => GiveHead(w.g, c)
    case DialUp(c, s, frames) => ResumePreamble(w.g, c, s, frames)
    case DialBatch(c, s, frames) => ResumeBatch(env.encodedLen, w.g, c, s, frames, |env.sources|)
    case DialDown(_, _) => w.g
    case Beat(c, beat) => Heartbeat(w.g, c, beat)
    case Leave(c) => Fanout.Leave(w.g, c)
    case Drop(c) => Fanout.Drop(w.g, c)
    case Take(c) => WriterTake(w.g, c)
  }

  /** The frames of the preamble of s that a fresh member has room for. */
  function PreamblePuts(s: Shard, q: Queue, frames: seq<Frame>): seq<Entry>
    decreases |frames|
  {
    if frames == [] then []
    else
      PreamblePuts(s, q, Init(frames))
      + (if Full(Admitted(q, Init(frames))) then [] else [Entry(JoinHead(s), Data(Last(frames)), false)])
  }

  /** The preamble frames of a resume dial that are really queued. */
  function RelayPuts(s: Shard, b: Relay, frames: seq<Frame>): seq<Entry>
    decreases |frames|
  {
    if frames == [] then []
    else RelayPuts(s, b, Init(frames)) + RelayPut(s, RelayPreamble(s, b, Init(frames)), Last(frames))
  }

  function RelayPut(s: Shard, b: Relay, f: Frame): seq<Entry> {
    if f.body.HttpHead? then (if b.r.headGiven then [] else [Entry(FrontDoor, Data(MEMBER_SSE_HEAD), false)])
    else if Full(b.q) then []
    else [Entry(Feed(s), Data(f), false)]
  }

  /** Everything action a puts on the queue of c, in order. */
  function Puts(w: World, a: Action, c: Conn): seq<Entry>
    requires Consistent(w.g) && c in w.g.queues
  {
    match a
    case SharedBatch(s, frames) => BatchPuts(w.g, s, frames, c)
    case JoinPreamble(d) =>
      if d == c && w.g.provider.Some? && c in w.g.members then PreamblePuts(w.g.provider.value, w.g.queues[c], w.g.preamble) else []
    case DialHead(d) =>
      if d == c && c in w.g.resumes && !w.g.resumes[c].headGiven then [Entry(FrontDoor, Data(MEMBER_SSE_HEAD), false)] else []
    case DialUp(d, s, frames) =>
      if d == c && c in w.g.resumes then RelayPuts(s, Relay(w.g.queues[c], w.g.resumes[c]), frames) else []
    case DialBatch(d, s, frames) =>
      if d == c && !Ignored(w.g, c, frames) then Fanned(s, Relayed(frames)) else []
    case Beat(d, beat) =>
      if d == c && c in w.g.resumes && !Full(w.g.queues[c]) then [Entry(FrontDoor, Data(beat), false)] else []
    case Leave(d) =>
      if d == c && (c in w.g.members || c in w.g.resumes) then [Entry(FrontDoor, Close, false)] else []
    case _ => []
  }

  function BatchPuts(g: GroupState, s: Shard, frames: seq<Frame>, c: Conn): seq<Entry>
    requires c in g.queues
  {
    if c !in g.members then []
    else if Full(g.queues[c]) then [Entry(FrontDoor, Close, false)]
    else Fanned(s, frames)
  }

  /** How far the account of c with s reaches after action a. */
  function ReachedAfter(env: Env, w: World, a: Action, c: Conn, s: Shard): nat
    requires Consistent(w.g) && c in w.g.queues
  {
    match a
    case SharedUp(t, from, frames) => if t == s && c in w.g.members then EndAt(from, frames) else w.reached(c, s)
    case SharedBatch(t, frames) =>
      if t == s && c in w.g.members && !Full(w.g.queues[c]) then EndAt(w.sharedAt(s), frames) else w.reached(c, s)
    case DialUp(d, t, frames) =>
      if d == c && t == s && c in w.g.resumes then EndAt(DialFrom(env, w, c, s), frames) else w.reached(c, s)
    case DialBatch(d, t, frames) =>
      if d != c || Ignored(w.g, c, frames) then w.reached(c, s)
      else if Migrates(env.encodedLen, w.g, c, t, frames, |env.sources|) then w.sharedAt(s)
      else BatchEnd(w, c, s, t, frames)
    case _ => w.reached(c, s)
  }

  /** Where c stands with s after its own dial on t delivered a batch. */
  function BatchEnd(w: World, c: Conn, s: Shard, t: Shard, frames: seq<Frame>): nat {
    if t == s && w.dialAt(c, s).Some? then EndAt(w.dialAt(c, s).value, frames) else w.reached(c, s)
  }

  function SharedAtAfter(w: World, a: Action, s: Shard): nat {
    match a
    case SharedUp(t, from, frames) => if t == s then EndAt(from, frames) else w.sharedAt(s)
    case SharedBatch(t, frames) => if t == s then EndAt(w.sharedAt(s), frames) else w.sharedAt(s)
    case _ => w.sharedAt(s)
  }

  /** A dial ends when it dies, and when its batch is refused (stalled, or its member no longer resumes). */
  function DialAtAfter(env: Env, w: World, a: Action, c: Conn, s: Shard): Option<nat>
    requires Consistent(w.g)
  {
    match a
    case DialUp(d, t, frames) =>
      if d == c && t == s && c in w.g.resumes then Some(EndAt(DialFrom(env, w, c, s), frames)) else w.dialAt(c, s)
    case DialBatch(d, t, frames) =>
      if d != c || t != s || frames == [] || w.dialAt(c, s).None? then w.dialAt(c, s)
      else if c !in w.g.queues || Ignored(w.g, c, frames) then None
      else Some(EndAt(w.dialAt(c, s).value, frames))
    case DialDown(d, t) => if d == c && t == s then None else w.dialAt(c, s)
    case _ => w.dialAt(c, s)
  }

  /** The connection an action brings in. */
  predicate Enters(w: World, a: Action, c: Conn) {
    (a == Join(c) && c !in w.g.members) || (a == JoinResume(c) && c !in w.g.members && c !in w.g.resumes)
  }

  /** A fresh join waits until there is a preamble to greet it with, and is greeted once. */
  function WaitingAfter(w: World, a: Action): set<Conn> {
    match a
    case Join(c) => if Enters(w, a, c) then w.waiting + {c} else w.waiting
    case JoinPreamble(c) => if w.g.provider.Some? then w.waiting - {c} else w.waiting
    case _ => w.waiting
  }

  function ProvidedFromAfter(w: World, a: Action): nat {
    if a.SharedUp? && w.g.provider.None? then a.from else w.providedFrom
  }

  /** Where a newcomer's account starts: the shared position for a fresh join, the cursor for a resume. */
  function StartOf(env: Env, w: World, a: Action, c: Conn, s: Shard): nat {
    if a.JoinResume? then env.cursor(c, s) else w.sharedAt(s)
  }

  function TakenBy(w: World, a: Action, c: Conn): seq<Item> {
    if a == Take(c) && c in w.g.queues && w.g.queues[c].items != [] then [w.g.queues[c].items[0]] else []
  }

  function NextStart(env: Env, w: World, a: Action, c: Conn, s: Shard): nat {
    if Enters(w, a, c) then StartOf(env, w, a, c, s) else w.start(c, s)
  }

  function NextReached(env: Env, w: World, a: Action, c: Conn, s: Shard): nat
    requires Consistent(w.g)
  {
    if Enters(w, a, c) then StartOf(env, w, a, c, s)
    else if c in w.g.queues then ReachedAfter(env, w, a, c, s)
    else w.reached(c, s)
  }

  /** One step. */
  function Next(env: Env, w: World, a: Action): World
    requires Consistent(w.g)
  {
    World(
      GroupAfter(env, w, a),
      (s: Shard) => SharedAtAfter(w, a, s),
      (c: Conn, s: Shard) => DialAtAfter(env, w, a, c, s),
      WaitingAfter(w, a),
      ProvidedFromAfter(w, a),
      w.resumed + (if a.JoinResume? && Enters(w, a, a.c) then {a.c} else {}),
      (c: Conn, s: Shard) => NextStart(env, w, a, c, s),
      (c: Conn, s: Shard) => NextReached(env, w, a, c, s),
      (c: Conn) => if Enters(w, a, c) then [] else if c in w.g.queues then w.log(c) + Puts(w, a, c) else w.log(c),
      (c: Conn) => if Enters(w, a, c) then [] else w.taken(c) + TakenBy(w, a, c))
  }

  /** After the action, the queue of c is its old queue with exactly the logged puts applied. */
  ghost predicate Logged(env: Env, w: World, a: Action, c: Conn)
    requires Consistent(w.g) && c in w.g.queues
  {
    var after := GroupAfter(env, w, a).queues;
    c in after && after[c] == PutAll(env.encodedLen, w.g.queues[c], Puts(w, a, c))
  }

  /** The queue object really holds what the log says was put on it. */
  lemma QueueFollowsPuts(env: Env, w: World, a: Action, c: Conn)
    requires Consistent(w.g) && Enabled(env, w, a) && c in w.g.queues && !a.Take?
    ensures Logged(env, w, a, c)
  {
    hide Logged, GroupAfter, Puts, Enabled, PutAll;
    match a
    case SharedBatch(_, _) => LoggedShared(env, w, a, c);
    case JoinPreamble(_) => LoggedPreamble(env, w, a, c);
    case DialUp(_, _, _) => LoggedPreamble(env, w, a, c);
    case DialBatch(_, _, _) => LoggedDial(env, w, a, c);
    case DialHead(_) => LoggedSingle(env, w, a, c);
    case Beat(_, _) => LoggedSingle(env, w, a, c);
    case Leave(_) => LoggedSingle(env, w, a, c);
    case Join(_) => LoggedJoin(env, w, a, c);
    case JoinResume(_) => LoggedJoin(env, w, a, c);
    case _ => LoggedNothing(env, w, a, c);
  }

  lemma LoggedNothing(env: Env, w: World, a: Action, c: Conn)
    requires Consistent(w.g) && c in w.g.queues
    requires a.SharedUp? || a.SharedDown? || a.DialDown? || a.Drop?
    ensures Logged(env, w, a, c)
  {
    hide PutAll, LastPos, LastEid;
    PutNone(env.encodedLen, w.g.queues[c]);
    match a
    case SharedUp(_, _, _) =>
    case SharedDown(_) =>
    case DialDown(_, _) =>
    case Drop(_) =>
  }

  lemma LoggedJoin(env: Env, w: World, a: Action, c: Conn)
    requires Consistent(w.g) && c in w.g.queues && Enabled(env, w, a)
    requires a.Join? || a.JoinResume?
    ensures Logged(env, w, a, c)
  {
    hide PutAll, Follows;
    PutNone(env.encodedLen, w.g.queues[c]);
    match a
    case Join(_) =>
    case JoinResume(_) =>
  }

  lemma LoggedSingle(env: Env, w: World, a: Action, c: Conn)
    requires Consistent(w.g) && c in w.g.queues
    requires a.DialHead? || a.Beat? || a.Leave?
    ensures Logged(env, w, a, c)
  {
    hide PutAll;
    var len, q := env.encodedLen, w.g.queues[c];
    PutNone(len, q);
    if Puts(w, a, c) != [] {
      PutOne(len, q, Puts(w, a, c)[0]);
      assert Puts(w, a, c) == [Puts(w, a, c)[0]];
    }
  }

  lemma LoggedShared(env: Env, w: World, a: Action, c: Conn)
    requires Consistent(w.g) && c in w.g.queues
    requires a.SharedBatch?
    ensures Logged(env, w, a, c)
  {
    hide PutAll, Fanned, LastPos, LastEid;
    PutNone(env.encodedLen, w.g.queues[c]);
    PutOne(env.encodedLen, w.g.queues[c], Entry(FrontDoor, Close, false));
  }

  lemma LoggedDial(env: Env, w: World, a: Action, c: Conn)
    requires Consistent(w.g) && c in w.g.queues
    requires a.DialBatch?
    ensures Logged(env, w, a, c)
  {
    hide PutAll, Fanned, ResumeBatch, Relayed;
    PutNone(env.encodedLen, w.g.queues[c]);
    ResumeBatchQueues(env.encodedLen, w.g, a.c, a.s, a.frames, |env.sources|);
  }

  lemma LoggedPreamble(env: Env, w: World, a: Action, c: Conn)
    requires Consistent(w.g) && c in w.g.queues
    requires a.JoinPreamble? || a.DialUp?
    ensures Logged(env, w, a, c)
  {
    hide PutAll, Admitted, PreamblePuts, RelayPreamble, RelayPuts;
    var len, q := env.encodedLen, w.g.queues[c];
    PutNone(len, q);
    match a
    case JoinPreamble(_) =>
      if w.g.provider.Some? {
        AdmittedIsPuts(len, w.g.provider.value, q, w.g.preamble);
      }
    case DialUp(_, s, frames) =>
      if c in w.g.resumes {
        RelayIsPuts(len, s, Relay(q, w.g.resumes[c]), frames);
      }
  }

  lemma PutNone(len: Body -> nat, q: Queue)
    ensures PutAll(len, q, []) == q
  {
  }

  lemma PutOne(len: Body -> nat, q: Queue, e: Entry)
    requires !e.coalesce
    ensures PutAll(len, q, [e]) == Put(q, e.item)
  {
    assert Init([e]) == [];
  }

  lemma {:induction false} AdmittedIsPuts(len: Body -> nat, s: Shard, q: Queue, frames: seq<Frame>)
    ensures Admitted(q, frames) == PutAll(len, q, PreamblePuts(s, q, frames))
    decreases |frames|
  {
    if frames != [] {
      AdmittedIsPuts(len, s, q, Init(frames));
      var es, e := PreamblePuts(s, q, Init(frames)), Entry(JoinHead(s), Data(Last(frames)), false);
      assert Init(es + [e]) == es;
      assert es + [] == es;
    }
  }

  lemma RelaySteps(s: Shard, b: Relay, frames: seq<Frame>)
    requires frames != []
    ensures RelayPreamble(s, b, frames) == RelayOne(s, RelayPreamble(s, b, Init(frames)), Last(frames))
    ensures RelayPuts(s, b, frames) ==
            RelayPuts(s, b, Init(frames)) + RelayPut(s, RelayPreamble(s, b, Init(frames)), Last(frames))
  {
  }

  lemma PutSnoc(len: Body -> nat, q: Queue, es: seq<Entry>, e: Entry)
    ensures PutAll(len, q, es + [e]) == PutEntry(len, PutAll(len, q, es), e)
  {
    assert Init(es + [e]) == es;
  }

  lemma {:induction false} RelayIsPuts(len: Body -> nat, s: Shard, b: Relay, frames: seq<Frame>)
    ensures RelayPreamble(s, b, frames).q == PutAll(len, b.q, RelayPuts(s, b, frames))
    decreases |frames|
  {
    if frames != [] {
      hide RelayPreamble, RelayPuts, PutAll;
      RelayIsPuts(len, s, b, Init(frames));
      RelaySteps(s, b, frames);
      var es, more := RelayPuts(s, b, Init(frames)), RelayPut(s, RelayPreamble(s, b, Init(frames)), Last(frames));
      if more == [] {
        assert es + more == es;
      } else {
        PutSnoc(len, b.q, es, more[0]);
        assert more == [more[0]];
      }
    }
  }
}
