/** One instance's event route: what a connection is sent, and what the hub may then assume of it. */
module EngineStreams {
  import opened Prelude
  import opened MemberQueues
  import opened Fanout
  import opened EngineFeed
  import opened ReplayBuffers

  datatype Instance = Instance(directory: string, workspace: Option<string>)

  predicate Matches(i: Instance, e: BusEvent) {
    e.directory == Some(i.directory) && (e.workspace.None? || e.workspace == i.workspace)
  }

  /** An instance is shown the events of its directory that name no workspace or its own. */
  lemma MatchesIff(i: Instance, e: BusEvent)
    ensures Matches(i, e) <==>
            e.directory.Some? && e.directory.value == i.directory
            && !(e.workspace.Some? && !(i.workspace.Some? && i.workspace.value == e.workspace.value))
  {
  }

  function OnWire(epoch: string, f: BusFrame): Frame {
    Frame(Some(Pos(epoch, f.number)), f.event.id, f.event.body)
  }

  /** The instance's view of some frames. */
  function Shown(i: Instance, epoch: string, frames: seq<BusFrame>): seq<Frame>
    decreases |frames|
  {
    if frames == [] then []
    else Shown(i, epoch, Init(frames)) + (if Matches(i, Last(frames).event) then [OnWire(epoch, Last(frames))] else [])
  }

  function ControlAt(epoch: string, n: nat, kind: string): Frame {
    Frame(Some(Pos(epoch, n)), None, Control(kind))
  }

  /** The control frames a connection starts with. */
  function Greeting(epoch: string, position: nat, reset: bool): seq<Frame> {
    [ControlAt(epoch, position, "server.connected")] +
    (if reset then [ControlAt(epoch, position, "state.resync")] else [])
  }

  lemma {:induction false} ShownConcat(i: Instance, epoch: string, a: seq<BusFrame>, b: seq<BusFrame>)
    ensures Shown(i, epoch, a + b) == Shown(i, epoch, a) + Shown(i, epoch, b)
    decreases |b|
  {
    hide Matches;
    if b == [] {
      assert a + b == a;
    } else {
      assert Init(a + b) == a + Init(b);
      ShownConcat(i, epoch, a, Init(b));
    }
  }

  /** All the frames a connection with this position is ever handed, given everything pushed. */
  function Offered(i: Instance, epoch: string, position: nat, reset: bool, log: seq<BusFrame>): seq<Frame> {
    Greeting(epoch, position, reset) + Shown(i, epoch, After(log, position, false))
  }

  /** The handler's preamble and its queue together are just that, in every reachable state of the buffer. */
  lemma PreambleAndQueue(b: ReplayBuffer, id: nat, i: Instance)
    requires b.Valid() && id in b.listeners && id in b.covered && b.listeners[id].started && !b.listeners[id].sync
    ensures var s := b.listeners[id];
            Greeting(b.epoch, s.position, s.reset.Some?) + Shown(i, b.epoch, s.replay) + Shown(i, b.epoch, s.delivered)
            == Offered(i, b.epoch, s.position, s.reset.Some?, b.log)
  {
    var s := b.listeners[id];
    b.DeliversExactly(id);
    ShownConcat(i, b.epoch, s.replay, s.delivered);
  }

  // ---- the connection: its queue is drained while heartbeats are merged in ---------------------------------

  /** A connection, and everything that is pushed while it lasts. */
  datatype Route = Route(i: Instance, epoch: string, position: nat, reset: bool, preamble: nat, log: seq<BusFrame>)

  /** The first `pushed` frames of the log are out; `taken` of the offered frames have been written. */
  datatype Connection = Connection(pushed: nat, current: nat, taken: nat, wire: seq<Frame>)

  datatype Step =
    | Push            // the next frame of the log is pushed
    | Skip(n: nat)    // a number without a frame
    | Take            // the next offered frame is written
    | Beat            // a heartbeat is written; it shows the bus's current number

  function OfferedAt(r: Route, pushed: nat): seq<Frame>
    requires pushed <= |r.log|
  {
    Offered(r.i, r.epoch, r.position, r.reset, r.log[..pushed])
  }

  /** The bus hands out increasing numbers, whether or not they become frames. */
  ghost predicate NewNumbers(r: Route, pushed: nat, current: nat) {
    forall k :: pushed <= k < |r.log| && !r.log[k].syncCopy ==> r.log[k].number > current
  }

  ghost predicate Enabled(r: Route, c: Connection, step: Step) {
    && c.pushed <= |r.log|
    && match step
       case Push => c.pushed < |r.log|
       case Skip(n) => NewNumbers(r, c.pushed, n)
       case Take => c.taken < |OfferedAt(r, c.pushed)|
       case Beat => c.taken >= r.preamble
  }

  function Next(r: Route, c: Connection, step: Step): Connection
    requires Enabled(r, c, step)
  {
    match step
    case Push => c.(pushed := c.pushed + 1, current := Larger(c.current, r.log[c.pushed].number))
    case Skip(n) => c.(current := Larger(c.current, n))
    case Take => c.(taken := c.taken + 1, wire := c.wire + [OfferedAt(r, c.pushed)[c.taken]])
    case Beat => c.(wire := c.wire + [ControlAt(r.epoch, c.current, "server.heartbeat")])
  }

  /** Nothing offered waits. */
  predicate Drained(r: Route, c: Connection) {
    c.pushed <= |r.log| && c.taken == |OfferedAt(r, c.pushed)|
  }

  // ---- the positions of the offered events ------------------------------------------------------------------

  predicate IsShown(r: Route, k: nat) {
    k < |r.log| && !r.log[k].syncCopy && r.log[k].number > r.position && Matches(r.i, r.log[k].event)
  }

  /** The positions of the events among the first `pushed` frames. */
  function Numbers(r: Route, pushed: nat): seq<nat>
    requires pushed <= |r.log|
    decreases pushed
  {
    if pushed == 0 then []
    else Numbers(r, pushed - 1) + (if IsShown(r, pushed - 1) then [r.log[pushed - 1].number] else [])
  }

  lemma OfferedMore(r: Route, pushed: nat)
    requires pushed < |r.log|
    ensures OfferedAt(r, pushed + 1) ==
            OfferedAt(r, pushed) + (if IsShown(r, pushed) then [OnWire(r.epoch, r.log[pushed])] else [])
  {
    hide Matches, Greeting, After, Shown;
    var f, front := r.log[pushed], After(r.log[..pushed], r.position, false);
    var head, shown := Greeting(r.epoch, r.position, r.reset), Shown(r.i, r.epoch, front);
    assert r.log[..pushed + 1] == r.log[..pushed] + [f];
    AfterOneMore(r.log[..pushed], f, r.position, false);
    ShownOneMore(r.i, r.epoch, front, f);
    if IsShown(r, pushed) {
      Assoc(head, shown, [OnWire(r.epoch, f)]);
    } else {
      assert front + [] == front && shown + [] == shown;
    }
  }

  lemma ShownOneMore(i: Instance, epoch: string, frames: seq<BusFrame>, f: BusFrame)
    ensures Shown(i, epoch, frames + [f]) == Shown(i, epoch, frames) + (if Matches(i, f.event) then [OnWire(epoch, f)] else [])
  {
    assert Init(frames + [f]) == frames;
  }

  /** A frame that shows an event at position n. */
  predicate ShowsEvent(f: Frame, epoch: string, n: nat) {
    IsEvent(f) && f.pos == Some(Pos(epoch, n)) && !f.body.HttpHead?
  }

  lemma OnWireShows(epoch: string, f: BusFrame)
    ensures ShowsEvent(OnWire(epoch, f), epoch, f.number)
  {
  }

  /** What is offered: the greeting, then the events at the numbers pushed. */
  ghost predicate OfferedAre(r: Route, all: seq<Frame>, ns: seq<nat>) {
    var head := Greeting(r.epoch, r.position, r.reset);
    && |all| == |head| + |ns| && all[..|head|] == head
    && forall t :: 0 <= t < |ns| ==> ShowsEvent(all[|head| + t], r.epoch, ns[t])
  }

  lemma OneMoreOffered(r: Route, all: seq<Frame>, ns: seq<nat>, f: Frame, n: nat)
    requires OfferedAre(r, all, ns) && ShowsEvent(f, r.epoch, n)
    ensures OfferedAre(r, all + [f], ns + [n])
  {
    hide ShowsEvent, Greeting;
    var head := Greeting(r.epoch, r.position, r.reset);
    assert (all + [f])[..|head|] == all[..|head|];
  }

  lemma {:induction false} NumbersOfOffered(r: Route, pushed: nat)
    requires pushed <= |r.log|
    ensures OfferedAre(r, OfferedAt(r, pushed), Numbers(r, pushed))
    decreases pushed
  {
    if pushed == 0 {
      assert r.log[..0] == [];
    } else {
      NumbersOfOffered(r, pushed - 1);
      OfferedMore(r, pushed - 1);
      hide IsShown, OfferedAt, OfferedAre, ShowsEvent, OnWire;
      var f := r.log[pushed - 1];
      OnWireShows(r.epoch, f);
      if IsShown(r, pushed - 1) {
        OneMoreOffered(r, OfferedAt(r, pushed - 1), Numbers(r, pushed - 1), OnWire(r.epoch, f), f.number);
      } else {
        assert OfferedAt(r, pushed) == OfferedAt(r, pushed - 1);
      }
    }
  }

  lemma {:induction false} NumbersMembers(r: Route, pushed: nat)
    requires pushed <= |r.log|
    ensures forall n :: n in Numbers(r, pushed) <==> exists k :: 0 <= k < pushed && IsShown(r, k) && r.log[k].number == n
    decreases pushed
  {
    if pushed > 0 {
      hide IsShown;
      NumbersMembers(r, pushed - 1);
    }
  }

  lemma {:induction false} NumbersAscend(r: Route, pushed: nat, current: nat)
    requires pushed <= |r.log| && InOrder(r.log, current)
    ensures forall i, j :: 0 <= i < j < |Numbers(r, pushed)| ==> Numbers(r, pushed)[i] < Numbers(r, pushed)[j]
    decreases pushed
  {
    if pushed > 0 {
      NumbersAscend(r, pushed - 1, current);
      NumbersMembers(r, pushed - 1);
      var ns := Numbers(r, pushed - 1);
      forall i | 0 <= i < |ns| && IsShown(r, pushed - 1)
        ensures ns[i] < r.log[pushed - 1].number
      {
        assert ns[i] in ns;
      }
    }
  }

  lemma {:induction false} NumbersGrow(r: Route, p: nat, q: nat)
    requires p <= q <= |r.log|
    ensures Numbers(r, p) <= Numbers(r, q)
    decreases q
  {
    if p < q {
      hide IsShown;
      NumbersGrow(r, p, q - 1);
    }
  }

  // ---- when the hub's assumption holds ------------------------------------------------------------------------

  /** The hub's stream s is this route: the events it carries are those pushed for the instance. */
  ghost predicate Carries(env: Env, s: Shard, r: Route) {
    && env.epoch(s) == r.epoch
    && forall n: nat :: n > r.position ==> (env.emits(s, n) <==> exists k :: 0 <= k < |r.log| && IsShown(r, k) && r.log[k].number == n)
  }

  /** Where the bus stands relative to the log. */
  ghost predicate BusAt(r: Route, c: Connection) {
    && c.pushed <= |r.log| && r.position <= c.current
    && (forall k :: 0 <= k < c.pushed ==> r.log[k].number <= c.current)
    && NewNumbers(r, c.pushed, c.current)
  }

  /** `at` separates what was written from what is still to come. */
  ghost predicate Splits(r: Route, c: Connection, at: nat)
    requires c.pushed <= |r.log|
  {
    var head, ns := |Greeting(r.epoch, r.position, r.reset)|, Numbers(r, c.pushed);
    && c.taken <= head + |ns| && r.position <= at <= c.current
    && (c.taken < head ==> at == r.position)
    && forall t :: 0 <= t < |ns| ==> (ns[t] <= at <==> head + t < c.taken)
  }

  /** So far the wire is what the hub assumes of it. */
  ghost predicate Standing(env: Env, s: Shard, r: Route, c: Connection)
    requires c.pushed <= |r.log|
  {
    Follows(env, s, r.position, c.wire) && Splits(r, c, EndAt(r.position, c.wire))
  }

  /** Up to the bus's number, the events of the stream are the numbers pushed. */
  lemma EmittedIsPushed(env: Env, s: Shard, r: Route, c: Connection, n: nat)
    requires Carries(env, s, r) && BusAt(r, c) && r.position < n <= c.current
    ensures env.emits(s, n) <==> n in Numbers(r, c.pushed)
  {
    NumbersMembers(r, c.pushed);
  }

  lemma {:induction false} EmptyBetween(env: Env, s: Shard, lo: nat, hi: nat)
    ensures Between(env, s, lo, hi) == [] <==> forall n :: lo < n <= hi ==> !env.emits(s, n)
  {
    BetweenMembers(env, s, lo, hi);
    if Between(env, s, lo, hi) != [] {
      assert Between(env, s, lo, hi)[0] in Between(env, s, lo, hi);
    }
  }

  lemma OneMoreFollows(env: Env, s: Shard, at: nat, wire: seq<Frame>, f: Frame)
    ensures Follows(env, s, at, wire + [f]) <==> Follows(env, s, at, wire) && FollowsOne(env, s, EndAt(at, wire), f)
    ensures EndAt(at, wire + [f]) == Moved(EndAt(at, wire), f)
  {
    assert Init(wire + [f]) == wire;
  }

  /** Between the wire and the bus's number lies exactly what waits in the queue. */
  lemma WaitingIsBetween(env: Env, s: Shard, r: Route, c: Connection)
    requires Carries(env, s, r) && BusAt(r, c) && Standing(env, s, r, c)
    requires c.taken >= |Greeting(r.epoch, r.position, r.reset)|
    ensures Between(env, s, EndAt(r.position, c.wire), c.current) == [] <==> Drained(r, c)
  {
    var at, ns, head := EndAt(r.position, c.wire), Numbers(r, c.pushed), |Greeting(r.epoch, r.position, r.reset)|;
    NumbersOfOffered(r, c.pushed);
    NumbersWithin(r, c);
    EmptyBetween(env, s, at, c.current);
    assert |OfferedAt(r, c.pushed)| == head + |ns|;
    hide Follows, EndAt, Between, IsShown, Greeting, OfferedAt, Numbers, OfferedAre, Carries, BusAt;
    forall n | at < n <= c.current
      ensures env.emits(s, n) <==> n in ns
    {
      EmittedIsPushed(env, s, r, c, n);
    }
    if !Drained(r, c) {
      assert ns[c.taken - head] in ns;
    }
  }

  /** So a heartbeat fits exactly when nothing waits. */
  lemma BeatFitsIff(env: Env, s: Shard, r: Route, c: Connection)
    requires Carries(env, s, r) && BusAt(r, c) && Standing(env, s, r, c) && c.taken >= r.preamble
    requires r.preamble >= |Greeting(r.epoch, r.position, r.reset)|
    ensures Drained(r, c) ==> Standing(env, s, r, Next(r, c, Beat))
    ensures !Drained(r, c) ==> !Follows(env, s, r.position, Next(r, c, Beat).wire)
  {
    WaitingIsBetween(env, s, r, c);
    NumbersWithin(r, c);
    NumbersOfOffered(r, c.pushed);
    assert env.epoch(s) == r.epoch;
    OneMoreFollows(env, s, r.position, c.wire, ControlAt(r.epoch, c.current, "server.heartbeat"));
    hide Follows, EndAt, Between, IsShown, Greeting, OfferedAt, Numbers, Carries, BusAt;
    var ns := Numbers(r, c.pushed);
    assert forall t :: 0 <= t < |ns| ==> ns[t] in ns;
  }

  /** The numbers pushed lie within the bus's own. */
  lemma NumbersWithin(r: Route, c: Connection)
    requires BusAt(r, c)
    ensures forall n :: n in Numbers(r, c.pushed) ==> r.position < n <= c.current
  {
    NumbersMembers(r, c.pushed);
  }

  lemma NoneSkipped(env: Env, s: Shard, r: Route, c: Connection, t: nat, at: nat, horizon: nat)
    requires Carries(env, s, r) && BusAt(r, c) && Splits(r, c, at) && InOrder(r.log, horizon)
    requires c.taken == |Greeting(r.epoch, r.position, r.reset)| + t && t < |Numbers(r, c.pushed)|
    ensures var n := Numbers(r, c.pushed)[t];
            at < n <= c.current && env.emits(s, n) && Between(env, s, at, n - 1) == []
  {
    var ns := Numbers(r, c.pushed);
    NumbersWithin(r, c);
    NumbersAscend(r, c.pushed, horizon);
    assert ns[t] in ns;
    EmittedIsPushed(env, s, r, c, ns[t]);
    EmptyBetween(env, s, at, ns[t] - 1);
    hide Carries, BusAt, Between, IsShown, Numbers, InOrder, Greeting;
    forall m | at < m <= ns[t] - 1
      ensures !env.emits(s, m)
    {
      EmittedIsPushed(env, s, r, c, m);
      assert forall u :: 0 <= u < |ns| ==> ns[u] <= at || ns[u] >= ns[t];
    }
  }

  lemma EventFits(env: Env, s: Shard, r: Route, c: Connection, t: nat, at: nat, f: Frame, horizon: nat)
    requires Carries(env, s, r) && BusAt(r, c) && Splits(r, c, at) && InOrder(r.log, horizon)
    requires c.taken == |Greeting(r.epoch, r.position, r.reset)| + t && t < |Numbers(r, c.pushed)|
    requires ShowsEvent(f, r.epoch, Numbers(r, c.pushed)[t])
    ensures FollowsOne(env, s, at, f)
    ensures Splits(r, c.(taken := c.taken + 1), Moved(at, f))
  {
    var ns := Numbers(r, c.pushed);
    NoneSkipped(env, s, r, c, t, at, horizon);
    NumbersAscend(r, c.pushed, horizon);
    assert env.epoch(s) == r.epoch;
    hide Carries, BusAt, Between, IsShown, Numbers, InOrder, Greeting;
    forall u | 0 <= u < |ns|
      ensures ns[u] <= ns[t] <==> u < t + 1
    {
      assert u < t ==> ns[u] < ns[t];
      assert t < u ==> ns[t] < ns[u];
    }
  }

  lemma GreetingFits(env: Env, s: Shard, r: Route, t: nat)
    requires env.epoch(s) == r.epoch && t < |Greeting(r.epoch, r.position, r.reset)|
    ensures FollowsOne(env, s, r.position, Greeting(r.epoch, r.position, r.reset)[t])
    ensures Moved(r.position, Greeting(r.epoch, r.position, r.reset)[t]) == r.position
  {
  }

  /** The next offered frame always fits. */
  lemma TakeFits(env: Env, s: Shard, r: Route, c: Connection, horizon: nat)
    requires Carries(env, s, r) && BusAt(r, c) && Standing(env, s, r, c) && Enabled(r, c, Take)
    requires InOrder(r.log, horizon)
    ensures Standing(env, s, r, Next(r, c, Take))
  {
    var at, ns := EndAt(r.position, c.wire), Numbers(r, c.pushed);
    var head, all := Greeting(r.epoch, r.position, r.reset), OfferedAt(r, c.pushed);
    NumbersOfOffered(r, c.pushed);
    OneMoreFollows(env, s, r.position, c.wire, all[c.taken]);
    if c.taken < |head| {
      assert all[c.taken] == all[..|head|][c.taken] == head[c.taken];
      GreetingFits(env, s, r, c.taken);
      NumbersWithin(r, c);
      assert forall n :: n in ns ==> n > r.position;
      hide Follows, EndAt, IsShown, Greeting, OfferedAt, Numbers, InOrder, Carries;
    } else {
      hide Follows, EndAt, IsShown, Greeting, OfferedAt, Numbers, InOrder, Carries, FollowsOne, Moved;
      EventFits(env, s, r, c, c.taken - |head|, at, all[c.taken], horizon);
    }
  }

  /** What is pushed meanwhile lies ahead of the wire. */
  lemma PushKeeps(env: Env, s: Shard, r: Route, c: Connection, horizon: nat)
    requires BusAt(r, c) && Standing(env, s, r, c) && Enabled(r, c, Push) && InOrder(r.log, horizon)
    ensures Standing(env, s, r, Next(r, c, Push)) && BusAt(r, Next(r, c, Push))
  {
    NumbersGrow(r, c.pushed, c.pushed + 1);
    var ns, more := Numbers(r, c.pushed), Numbers(r, c.pushed + 1);
    hide Follows, EndAt, Greeting, OfferedAt;
    assert forall t :: 0 <= t < |ns| ==> more[t] == ns[t];
  }

  // ---- runs -----------------------------------------------------------------------------------------------------

  ghost predicate IsRun(r: Route, cs: seq<Connection>, steps: seq<Step>) {
    && |cs| == |steps| + 1
    && forall k :: 0 <= k < |steps| ==> Enabled(r, cs[k], steps[k]) && cs[k + 1] == Next(r, cs[k], steps[k])
  }

  /** The connection as its subscription leaves it. */
  ghost predicate Starts(r: Route, c: Connection) {
    && BusAt(r, c) && c.taken == 0 && c.wire == []
    && r.preamble >= |Greeting(r.epoch, r.position, r.reset)|
  }

  /** No heartbeat was written while an event waited in the queue. */
  ghost predicate BeatsDrained(r: Route, cs: seq<Connection>, steps: seq<Step>)
    requires |cs| == |steps| + 1
  {
    forall k :: 0 <= k < |steps| && steps[k].Beat? ==> Drained(r, cs[k])
  }

  /** Once the wire breaks the assumption, it stays broken. */
  lemma BrokenStays(env: Env, s: Shard, r: Route, c: Connection, step: Step)
    requires Enabled(r, c, step) && !Follows(env, s, r.position, c.wire)
    ensures !Follows(env, s, r.position, Next(r, c, step).wire)
  {
    if step.Take? {
      OneMoreFollows(env, s, r.position, c.wire, OfferedAt(r, c.pushed)[c.taken]);
    } else if step.Beat? {
      OneMoreFollows(env, s, r.position, c.wire, ControlAt(r.epoch, c.current, "server.heartbeat"));
    }
  }

  lemma BusMoves(r: Route, c: Connection, step: Step, horizon: nat)
    requires BusAt(r, c) && Enabled(r, c, step) && InOrder(r.log, horizon)
    ensures BusAt(r, Next(r, c, step))
  {
    hide Follows, OfferedAt, IsShown;
  }

  lemma OneStep(env: Env, s: Shard, r: Route, c: Connection, step: Step, horizon: nat)
    requires Carries(env, s, r) && BusAt(r, c) && Enabled(r, c, step) && InOrder(r.log, horizon)
    requires r.preamble >= |Greeting(r.epoch, r.position, r.reset)|
    requires Standing(env, s, r, c)
    ensures Next(r, c, step).pushed <= |r.log|
    ensures step.Beat? && !Drained(r, c) ==> !Follows(env, s, r.position, Next(r, c, step).wire)
    ensures !(step.Beat? && !Drained(r, c)) ==> Standing(env, s, r, Next(r, c, step))
  {
    match step {
      case Push =>
        hide Carries, Standing, IsShown, OfferedAt;
        PushKeeps(env, s, r, c, horizon);
      case Skip(n) =>
        hide Carries, Follows, IsShown, OfferedAt, InOrder, BusAt;
      case Take =>
        hide Carries, Standing, IsShown, OfferedAt;
        TakeFits(env, s, r, c, horizon);
      case Beat =>
        hide Carries, Standing, IsShown, OfferedAt;
        BeatFitsIff(env, s, r, c);
    }
  }

  /**
    What the hub assumes of an engine holds on the wire of a connection exactly when no heartbeat overtook an
    event: the preamble, the replay and the live events always fit.
   */
  lemma {:induction false} WireFollowsIff(env: Env, s: Shard, r: Route, cs: seq<Connection>, steps: seq<Step>, horizon: nat)
    requires IsRun(r, cs, steps) && Starts(r, cs[0]) && Carries(env, s, r) && InOrder(r.log, horizon)
    ensures BusAt(r, Last(cs))
    ensures Follows(env, s, r.position, Last(cs).wire) <==> BeatsDrained(r, cs, steps)
    ensures Follows(env, s, r.position, Last(cs).wire) ==> Standing(env, s, r, Last(cs))
    decreases |steps|
  {
    if steps == [] {
      StartStands(env, s, r, cs[0]);
    } else {
      var front, early, c, step := Init(cs), Init(steps), cs[|cs| - 2], Last(steps);
      LastStep(r, cs, steps);
      hide *;
      WireFollowsIff(env, s, r, front, early, horizon);
      BusMoves(r, c, step, horizon);
      if BeatsDrained(r, front, early) {
        OneStep(env, s, r, c, step, horizon);
        StandingFollows(env, s, r, Last(cs));
      } else {
        BrokenStays(env, s, r, c, step);
      }
    }
  }

  lemma LastStep(r: Route, cs: seq<Connection>, steps: seq<Step>)
    requires IsRun(r, cs, steps) && steps != []
    ensures var c, step := cs[|cs| - 2], Last(steps);
            && IsRun(r, Init(cs), Init(steps)) && Last(Init(cs)) == c && Init(cs)[0] == cs[0]
            && Enabled(r, c, step) && Last(cs) == Next(r, c, step)
            && (BeatsDrained(r, cs, steps) <==> BeatsDrained(r, Init(cs), Init(steps)) && (step.Beat? ==> Drained(r, c)))
  {
    hide Enabled, Next, Drained;
    var front, early := Init(cs), Init(steps);
    assert steps == early + [Last(steps)];
    assert forall k :: 0 <= k < |early| ==> early[k] == steps[k];
    assert forall k :: 0 <= k < |front| ==> front[k] == cs[k];
  }

  /** A connection that breaks off at such a heartbeat resumes past the event it overtook. */
  lemma OvertakenIsNotReplayed(r: Route, c: Connection)
    requires BusAt(r, c) && |Greeting(r.epoch, r.position, r.reset)| <= c.taken < |OfferedAt(r, c.pushed)|
    ensures exists k :: 0 <= k < c.pushed && IsShown(r, k) && OfferedAt(r, c.pushed)[c.taken].pos == Some(Pos(r.epoch, r.log[k].number))
                        && r.log[k] !in After(r.log, c.current, false)
  {
    var head, ns := |Greeting(r.epoch, r.position, r.reset)|, Numbers(r, c.pushed);
    NumbersOfOffered(r, c.pushed);
    NumbersWithin(r, c);
    NumbersMembers(r, c.pushed);
    AfterMembers(r.log, c.current, false);
    hide Numbers, After, OfferedAt, Greeting, IsShown;
    var n := ns[c.taken - head];
    assert n in ns && ShowsEvent(OfferedAt(r, c.pushed)[head + (c.taken - head)], r.epoch, n);
    var k :| 0 <= k < c.pushed && IsShown(r, k) && r.log[k].number == n;
  }

  lemma StandingFollows(env: Env, s: Shard, r: Route, c: Connection)
    requires c.pushed <= |r.log|
    ensures Standing(env, s, r, c) ==> Follows(env, s, r.position, c.wire)
  {
  }

  lemma StartStands(env: Env, s: Shard, r: Route, c: Connection)
    requires Starts(r, c)
    ensures Standing(env, s, r, c)
  {
    NumbersWithin(r, c);
    var ns := Numbers(r, c.pushed);
    assert forall t :: 0 <= t < |ns| ==> ns[t] in ns;
  }

  /**
    A request to the event route: subscribe, start, and compute the preamble. Whatever was pushed before, the
    connection starts as above, and unless the cursor is a payload id its preamble is what it is offered.
   */
  method Open(b: ReplayBuffer, i: Instance, cursor: Cursor, now: int) returns (id: nat, preamble: seq<Frame>)
    requires b.Valid()
    modifies b
    ensures b.Valid() && b.log == old(b.log) && id in b.listeners && b.listeners[id].started && !b.listeners[id].sync
    ensures var s := b.listeners[id];
            var r := Route(i, b.epoch, s.position, s.reset.Some?, |preamble|, b.log);
            && Starts(r, Connection(|b.log|, b.current, 0, []))
            && (!cursor.PayloadId? ==> id in b.covered && preamble == OfferedAt(r, |b.log|))
    ensures var s := b.listeners[id];
            BeginsWith(preamble, b.epoch, s.position, s.reset.Some?)
  {
    hide BeginsWith, Starts, Shown, Offered;
    id := b.Subscribe(cursor, false, now);
    b.Start(id);
    var s := b.listeners[id];
    preamble := Greeting(b.epoch, s.position, s.reset.Some?) + Shown(i, b.epoch, s.replay);
    OpensAt(b, i, id);
  }

  /** The first frame says the connection stands, the second one asks for a resync if there was a reset. */
  ghost predicate BeginsWith(preamble: seq<Frame>, epoch: string, position: nat, reset: bool) {
    && preamble != [] && preamble[0] == Frame(Some(Pos(epoch, position)), None, Control("server.connected"))
    && (reset <==> |preamble| > 1 && preamble[1] == Frame(Some(Pos(epoch, position)), None, Control("state.resync")))
  }

  lemma {:induction false} ShownAreEvents(i: Instance, epoch: string, frames: seq<BusFrame>)
    ensures forall f :: f in Shown(i, epoch, frames) ==> !f.body.Control?
    decreases |frames|
  {
    if frames != [] {
      ShownAreEvents(i, epoch, Init(frames));
    }
  }

  lemma PreambleBegins(i: Instance, epoch: string, position: nat, reset: bool, frames: seq<BusFrame>)
    ensures BeginsWith(Greeting(epoch, position, reset) + Shown(i, epoch, frames), epoch, position, reset)
  {
    ShownAreEvents(i, epoch, frames);
    hide Shown;
    var shown, all := Shown(i, epoch, frames), Greeting(epoch, position, reset) + Shown(i, epoch, frames);
    if !reset && shown != [] {
      assert all[1] == shown[0] && shown[0] in shown;
    }
  }

  lemma OpensAt(b: ReplayBuffer, i: Instance, id: nat)
    requires b.Valid() && id in b.listeners && b.listeners[id].started && b.listeners[id].watermark == |b.log|
    requires !b.listeners[id].sync
    ensures var s := b.listeners[id];
            var preamble := Greeting(b.epoch, s.position, s.reset.Some?) + Shown(i, b.epoch, s.replay);
            var r := Route(i, b.epoch, s.position, s.reset.Some?, |preamble|, b.log);
            && Starts(r, Connection(|b.log|, b.current, 0, []))
            && (id in b.covered ==> preamble == OfferedAt(r, |b.log|))
            && BeginsWith(preamble, b.epoch, s.position, s.reset.Some?)
  {
    var s := b.listeners[id];
    PreambleBegins(i, b.epoch, s.position, s.reset.Some?, s.replay);
    hide BeginsWith, Greeting;
    assert s.delivered == Wants(b.log[|b.log|..], false) == [];
    if id in b.covered {
      PreambleAndQueue(b, id, i);
      assert b.log[..|b.log|] == b.log && Shown(i, b.epoch, []) == [];
    }
  }
}
