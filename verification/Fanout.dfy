/**
  The shared fan-out group: one upstream per source, members that ride it, and resuming members that ride
  dials of their own until their position equals the shared one on every source.
 */
module Fanout {
  import opened Prelude
  import opened MemberQueues

  type Conn = nat   // a member socket
  type Shard = int

  const MEMBER_QUEUE_MAX_ITEMS := 64
  const MEMBER_SSE_HEAD := Frame(None, None, HttpHead)

  /** The state of a resuming member; it is cancelled exactly when it leaves `resumes`. */
  datatype Resume = Resume(headGiven: bool, rpos: map<Shard, Pos>)

  /**
    Everything a Group guards with its lock. `queues` holds the queue object of every connection that
    joined; `members` and `resumes` say how a connection is currently served.
   */
  datatype GroupState = GroupState(
    queues: map<Conn, Queue>,
    members: set<Conn>,
    resumes: map<Conn, Resume>,
    pos: map<Shard, Pos>,
    upstreamLive: map<Shard, bool>,
    liveUpstreams: int,
    provider: Option<Shard>,
    preamble: seq<Frame>,
    lastEid: Option<string>)

  const IDLE := GroupState(map[], {}, map[], map[], map[], 0, None, [], None)

  ghost predicate Consistent(g: GroupState) {
    && g.members + g.resumes.Keys <= g.queues.Keys
    && g.members !! g.resumes.Keys
  }

  /**
    Where a queued item comes from: the front door itself, a source's feed (the shared fan-out or the member's
    own dial), or the preamble of source s that greets a fresh join.
   */
  datatype Origin = FrontDoor | Feed(s: Shard) | JoinHead(s: Shard)

  /** One put on a member's queue: from where, what, and whether the coalescing door is used. */
  datatype Entry = Entry(origin: Origin, item: Item, coalesce: bool)

  function PutEntry(len: Body -> nat, q: Queue, e: Entry): Queue {
    if e.coalesce && e.item.Data? && DeltaPartKey(e.item.frame).Some?
    then PutCoalescing(len, q, e.item.frame, DeltaPartKey(e.item.frame))
    else Put(q, e.item)
  }

  function PutAll(len: Body -> nat, q: Queue, es: seq<Entry>): Queue
    decreases |es|
  {
    if es == [] then q else PutEntry(len, PutAll(len, q, Init(es)), Last(es))
  }

  /** Frames fanned from a source, in order. */
  function Fanned(s: Shard, frames: seq<Frame>): seq<Entry> {
    seq(|frames|, i requires 0 <= i < |frames| => Entry(Feed(s), Data(frames[i]), true))
  }

  /** The resume path swallows an engine's own HTTP head. */
  function Relayed(frames: seq<Frame>): seq<Frame>
    decreases |frames|
  {
    if frames == [] then []
    else if Last(frames).body.HttpHead? then Relayed(Init(frames))
    else Relayed(Init(frames)) + [Last(frames)]
  }

  /** The last position, and the last payload id, that a batch shows. */
  function LastPos(frames: seq<Frame>): Option<Pos>
    decreases |frames|
  {
    if frames == [] then None
    else if Last(frames).pos.Some? then Last(frames).pos else LastPos(Init(frames))
  }

  function LastEid(frames: seq<Frame>): Option<string>
    decreases |frames|
  {
    if frames == [] then None
    else if Last(frames).eid.Some? then Last(frames).eid else LastEid(Init(frames))
  }

  function Observe(pos: map<Shard, Pos>, s: Shard, p: Option<Pos>): map<Shard, Pos> {
    if p.Some? then pos[s := p.value] else pos
  }

  function OrElse(a: Option<string>, b: Option<string>): Option<string> {
    if a.Some? then a else b
  }

  predicate Live(g: GroupState, s: Shard) {
    s in g.upstreamLive && g.upstreamLive[s]
  }

  predicate Full(q: Queue) {
    |q.items| >= MEMBER_QUEUE_MAX_ITEMS
  }

  // ---- the critical sections as functions of the state they find -------------------------------

  function UpstreamUp(g: GroupState, s: Shard, frames: seq<Frame>): GroupState {
    g.(pos := Observe(g.pos, s, LastPos(frames)),
       lastEid := OrElse(LastEid(frames), g.lastEid),
       upstreamLive := g.upstreamLive[s := true],
       liveUpstreams := g.liveUpstreams + 1,
       provider := if g.provider.None? then Some(s) else g.provider,
       preamble := if g.provider.None? then frames else g.preamble)
  }

  function UpstreamDown(g: GroupState, s: Shard): GroupState {
    g.(upstreamLive := g.upstreamLive[s := false],
       liveUpstreams := g.liveUpstreams - 1,
       provider := if g.provider == Some(s) then None else g.provider)
  }

  /** The members whose queue is at the stall limit when a batch arrives. */
  function Stalled(g: GroupState): set<Conn>
    requires g.members <= g.queues.Keys
  {
    set c | c in g.members && Full(g.queues[c])
  }

  /** One connection's queue after a batch of source s has been fanned. */
  function AfterBatch(len: Body -> nat, g: GroupState, c: Conn, s: Shard, frames: seq<Frame>): Queue
    requires c in g.queues
  {
    if c !in g.members then g.queues[c]
    else if Full(g.queues[c]) then Put(g.queues[c], Close)
    else PutAll(len, g.queues[c], Fanned(s, frames))
  }

  function FannedQueues(len: Body -> nat, g: GroupState, s: Shard, frames: seq<Frame>): map<Conn, Queue> {
    map c | c in g.queues :: AfterBatch(len, g, c, s, frames)
  }

  function SharedBatch(len: Body -> nat, g: GroupState, s: Shard, frames: seq<Frame>): GroupState
    requires g.members <= g.queues.Keys
  {
    g.(pos := Observe(g.pos, s, LastPos(frames)),
       lastEid := OrElse(LastEid(frames), g.lastEid),
       members := g.members - Stalled(g),
       resumes := g.resumes - Stalled(g),
       queues := FannedQueues(len, g, s, frames))
  }

  function EnterMember(g: GroupState, c: Conn): GroupState {
    if c in g.members then g else g.(queues := g.queues[c := EMPTY], members := g.members + {c})
  }

  /** The provider's preamble, queued while there is room. */
  function Admitted(q: Queue, frames: seq<Frame>): Queue
    decreases |frames|
  {
    if frames == [] then q
    else
      var q' := Admitted(q, Init(frames));
      if Full(q') then q' else Put(q', Data(Last(frames)))
  }

  function QueuePreamble(g: GroupState, c: Conn): GroupState
    requires g.members <= g.queues.Keys
  {
    if g.provider.None? || c !in g.members then g
    else g.(queues := g.queues[c := Admitted(g.queues[c], g.preamble)])
  }

  function EnterResume(g: GroupState, c: Conn): GroupState {
    if c in g.members || c in g.resumes then g
    else g.(queues := g.queues[c := EMPTY], resumes := g.resumes[c := Resume(false, map[])])
  }

  function GiveHead(g: GroupState, c: Conn): GroupState
    requires g.resumes.Keys <= g.queues.Keys
  {
    if c in g.resumes && !g.resumes[c].headGiven then
      g.(queues := g.queues[c := Put(g.queues[c], Data(MEMBER_SSE_HEAD))],
         resumes := g.resumes[c := g.resumes[c].(headGiven := true)])
    else g
  }

  datatype Relay = Relay(q: Queue, r: Resume)

  /** A resume dial's preamble, frame by frame: a position is recorded even when the queue is full. */
  function RelayPreamble(s: Shard, before: Relay, frames: seq<Frame>): Relay
    decreases |frames|
  {
    if frames == [] then before
    else RelayOne(s, RelayPreamble(s, before, Init(frames)), Last(frames))
  }

  function RelayOne(s: Shard, b: Relay, f: Frame): Relay {
    if f.body.HttpHead? then
      if b.r.headGiven then b else Relay(Put(b.q, Data(MEMBER_SSE_HEAD)), b.r.(headGiven := true))
    else
      Relay(if Full(b.q) then b.q else Put(b.q, Data(f)), b.r.(rpos := Observe(b.r.rpos, s, f.pos)))
  }

  function ResumePreamble(g: GroupState, c: Conn, s: Shard, frames: seq<Frame>): GroupState
    requires g.resumes.Keys <= g.queues.Keys
  {
    if c !in g.resumes then g
    else
      var b := RelayPreamble(s, Relay(g.queues[c], g.resumes[c]), frames);
      g.(queues := g.queues[c := b.q], resumes := g.resumes[c := b.r])
  }

  /** Every source shows the shared upstream live and at exactly the member's position. */
  predicate Converged(g: GroupState, r: Resume, sourceCount: nat) {
    && r.headGiven
    && |r.rpos| == sourceCount
    && forall s :: s in r.rpos ==> Live(g, s) && s in g.pos && g.pos[s] == r.rpos[s]
  }

  /** The member's state after a batch of its own dial has been queued, before the migration check. */
  function Relayed1(len: Body -> nat, g: GroupState, c: Conn, s: Shard, frames: seq<Frame>): GroupState
    requires c in g.resumes && c in g.queues
  {
    var kept := Relayed(frames);
    var r := g.resumes[c];
    g.(queues := g.queues[c := PutAll(len, g.queues[c], Fanned(s, kept))],
       resumes := g.resumes[c := r.(rpos := Observe(r.rpos, s, LastPos(kept)))])
  }

  function Migrate(g: GroupState, c: Conn): GroupState {
    g.(members := g.members + {c}, resumes := g.resumes - {c})
  }

  /** Nothing happens to a member that stopped resuming, on an empty batch, or at the stall limit. */
  predicate Ignored(g: GroupState, c: Conn, frames: seq<Frame>)
    requires g.resumes.Keys <= g.queues.Keys
  {
    frames == [] || c !in g.resumes || Full(g.queues[c])
  }

  predicate Migrates(len: Body -> nat, g: GroupState, c: Conn, s: Shard, frames: seq<Frame>, sourceCount: nat)
    requires g.resumes.Keys <= g.queues.Keys
  {
    !Ignored(g, c, frames)
    && Converged(Relayed1(len, g, c, s, frames), Relayed1(len, g, c, s, frames).resumes[c], sourceCount)
  }

  function ResumeBatch(len: Body -> nat, g: GroupState, c: Conn, s: Shard, frames: seq<Frame>, sourceCount: nat): GroupState
    requires g.resumes.Keys <= g.queues.Keys
  {
    if Ignored(g, c, frames) then g
    else if Migrates(len, g, c, s, frames, sourceCount) then Migrate(Relayed1(len, g, c, s, frames), c)
    else Relayed1(len, g, c, s, frames)
  }

  lemma ResumeBatchQueues(len: Body -> nat, g: GroupState, c: Conn, s: Shard, frames: seq<Frame>, sourceCount: nat)
    requires g.resumes.Keys <= g.queues.Keys
    ensures ResumeBatch(len, g, c, s, frames, sourceCount).queues ==
            if Ignored(g, c, frames) then g.queues
            else g.queues[c := PutAll(len, g.queues[c], Fanned(s, Relayed(frames)))]
  {
    hide PutAll, Fanned, LastPos, Relayed, Migrates;
  }

  /** How a resume batch changes who is served how. */
  lemma ResumeBatchServes(len: Body -> nat, g: GroupState, c: Conn, s: Shard, frames: seq<Frame>, sourceCount: nat)
    requires g.resumes.Keys <= g.queues.Keys
    ensures Migrates(len, g, c, s, frames, sourceCount) ==> !Ignored(g, c, frames)
    ensures var g', leaves := ResumeBatch(len, g, c, s, frames, sourceCount), Migrates(len, g, c, s, frames, sourceCount);
            && g'.members == (if leaves then g.members + {c} else g.members)
            && g'.pos == g.pos && g'.upstreamLive == g.upstreamLive
            && g'.resumes ==
               if leaves then g.resumes - {c}
               else if Ignored(g, c, frames) then g.resumes
               else g.resumes[c := g.resumes[c].(rpos := Observe(g.resumes[c].rpos, s, LastPos(Relayed(frames))))]
  {
    hide PutAll, Fanned, LastPos, Relayed, Converged;
    if Migrates(len, g, c, s, frames, sourceCount) {
      var r := g.resumes[c].(rpos := Observe(g.resumes[c].rpos, s, LastPos(Relayed(frames))));
      assert g.resumes[c := r] - {c} == g.resumes - {c};
    }
  }

  function Heartbeat(g: GroupState, c: Conn, beat: Frame): GroupState
    requires g.resumes.Keys <= g.queues.Keys
  {
    if c in g.resumes && !Full(g.queues[c]) then g.(queues := g.queues[c := Put(g.queues[c], Data(beat))]) else g
  }

  function Leave(g: GroupState, c: Conn): GroupState
    requires Consistent(g)
  {
    var gone := g.(members := g.members - {c}, resumes := g.resumes - {c});
    if c in g.members || c in g.resumes then gone.(queues := g.queues[c := Put(g.queues[c], Close)]) else gone
  }

  function Drop(g: GroupState, c: Conn): GroupState {
    g.(members := g.members - {c}, resumes := g.resumes - {c})
  }

  function WriterTake(g: GroupState, c: Conn): GroupState {
    if c in g.queues && g.queues[c].items != [] then g.(queues := g.queues[c := Take(g.queues[c])]) else g
  }

  // ---- loops one frame at a time ----------------------------------------------------------------

  lemma RelayNothing(len: Body -> nat, q: Queue, s: Shard)
    ensures PutAll(len, q, Fanned(s, Relayed([]))) == q
    ensures LastPos(Relayed([])) == None
  {
  }

  lemma FannedSnoc(s: Shard, frames: seq<Frame>, f: Frame)
    ensures Fanned(s, frames + [f]) == Fanned(s, frames) + [Entry(Feed(s), Data(f), true)]
  {
  }

  /** What the next frame of a resume batch adds. */
  lemma RelaySnoc(len: Body -> nat, q: Queue, s: Shard, frames: seq<Frame>, f: Frame)
    ensures Relayed(frames + [f]) == if f.body.HttpHead? then Relayed(frames) else Relayed(frames) + [f]
    ensures var before := PutAll(len, q, Fanned(s, Relayed(frames)));
            PutAll(len, q, Fanned(s, Relayed(frames + [f]))) ==
            if f.body.HttpHead? then before
            else if DeltaPartKey(f).Some? then PutCoalescing(len, before, f, DeltaPartKey(f))
            else Put(before, Data(f))
    ensures LastPos(Relayed(frames + [f])) ==
            if !f.body.HttpHead? && f.pos.Some? then f.pos else LastPos(Relayed(frames))
  {
    assert Init(frames + [f]) == frames;
    if !f.body.HttpHead? {
      var kept := Relayed(frames);
      assert Init(kept + [f]) == kept;
      FannedSnoc(s, kept, f);
      assert Init(Fanned(s, kept) + [Entry(Feed(s), Data(f), true)]) == Fanned(s, kept);
    }
  }
}
