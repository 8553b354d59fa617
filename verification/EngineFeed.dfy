/**
  What the hub assumes of an engine's event feed: per source, events carry increasing positions; a connection
  that stands at a position delivers the events after it in order, and control frames that repeat where it
  stands. Of an engine's event route, EngineStreams proves all of it except for heartbeats that overtake a
  queued event, and that those break it.
 */
module EngineFeed {
  import opened Prelude
  import opened MemberQueues
  import opened Fanout

  datatype Env = Env(
    sources: set<Shard>,
    epoch: Shard -> string,
    /** Position n of source s is an event that this stream carries. */
    emits: (Shard, nat) -> bool,
    /** The position a connection's cursor resolves to on a source. */
    cursor: (Conn, Shard) -> nat,
    encodedLen: Body -> nat)

  predicate IsEvent(f: Frame) {
    f.body.Event? || f.body.Delta?
  }

  /** The events of source s after position lo, up to and including hi. */
  function Between(env: Env, s: Shard, lo: nat, hi: nat): seq<nat>
    decreases hi
  {
    if hi <= lo then []
    else if env.emits(s, hi) then Between(env, s, lo, hi - 1) + [hi]
    else Between(env, s, lo, hi - 1)
  }

  lemma {:induction false} BetweenSplit(env: Env, s: Shard, lo: nat, mid: nat, hi: nat)
    requires lo <= mid <= hi
    ensures Between(env, s, lo, hi) == Between(env, s, lo, mid) + Between(env, s, mid, hi)
    decreases hi
  {
    if mid < hi {
      BetweenSplit(env, s, lo, mid, hi - 1);
    }
  }

  lemma {:induction false} BetweenMembers(env: Env, s: Shard, lo: nat, hi: nat)
    ensures forall n :: n in Between(env, s, lo, hi) <==> lo < n <= hi && env.emits(s, n)
    decreases hi
  {
    if lo < hi {
      BetweenMembers(env, s, lo, hi - 1);
    }
  }

  lemma {:induction false} BetweenIncreases(env: Env, s: Shard, lo: nat, hi: nat)
    ensures forall i, j :: 0 <= i < j < |Between(env, s, lo, hi)| ==>
              Between(env, s, lo, hi)[i] < Between(env, s, lo, hi)[j]
    decreases hi
  {
    if lo < hi {
      BetweenIncreases(env, s, lo, hi - 1);
      BetweenMembers(env, s, lo, hi - 1);
      var front := Between(env, s, lo, hi - 1);
      assert forall i :: 0 <= i < |front| ==> front[i] in front;
    }
  }

  /** Where a connection stands after a frame. */
  function Moved(at: nat, f: Frame): nat {
    if f.pos.Some? then f.pos.value.number else at
  }

  /** `f` can be the next frame of a connection to s that stands at `at`. */
  predicate FollowsOne(env: Env, s: Shard, at: nat, f: Frame) {
    match f.pos
    case None => !IsEvent(f)
    case Some(p) =>
      && p.epoch == env.epoch(s)
      && !f.body.HttpHead?
      && (if IsEvent(f) then p.number > at && env.emits(s, p.number) && Between(env, s, at, p.number - 1) == []
          else p.number >= at && Between(env, s, at, p.number) == [])
  }

  function EndAt(at: nat, frames: seq<Frame>): nat
    decreases |frames|
  {
    if frames == [] then at else Moved(EndAt(at, Init(frames)), Last(frames))
  }

  predicate Follows(env: Env, s: Shard, at: nat, frames: seq<Frame>)
    decreases |frames|
  {
    frames == [] || (Follows(env, s, at, Init(frames)) && FollowsOne(env, s, EndAt(at, Init(frames)), Last(frames)))
  }

  /** The positions of the events in a batch. */
  function Events(frames: seq<Frame>): seq<nat>
    decreases |frames|
  {
    if frames == [] then [] else Events(Init(frames)) + EventOf(Last(frames))
  }

  function EventOf(f: Frame): seq<nat> {
    if IsEvent(f) && f.pos.Some? then [f.pos.value.number] else []
  }

  /** A batch holds exactly the events between where its connection stood and where it stands. */
  lemma {:induction false} DeliveredExactly(env: Env, s: Shard, at: nat, frames: seq<Frame>)
    requires Follows(env, s, at, frames)
    ensures at <= EndAt(at, frames)
    ensures Events(frames) == Between(env, s, at, EndAt(at, frames))
    decreases |frames|
  {
    if frames != [] {
      DeliveredExactly(env, s, at, Init(frames));
      var mid, f := EndAt(at, Init(frames)), Last(frames);
      if f.pos.Some? {
        BetweenSplit(env, s, at, mid, f.pos.value.number);
      }
    }
  }

  /** The last position a batch shows is where its connection stands. */
  lemma {:induction false} LastPosIsEnd(env: Env, s: Shard, at: nat, frames: seq<Frame>)
    requires Follows(env, s, at, frames)
    ensures match LastPos(frames)
            case Some(p) => p.epoch == env.epoch(s) && p.number == EndAt(at, frames)
            case None => EndAt(at, frames) == at
    decreases |frames|
  {
    if frames != [] {
      LastPosIsEnd(env, s, at, Init(frames));
    }
  }

  /** Dropping an engine's HTTP head changes neither events nor positions. */
  lemma {:induction false} RelayedKeeps(env: Env, s: Shard, at: nat, frames: seq<Frame>)
    requires Follows(env, s, at, frames)
    ensures Follows(env, s, at, Relayed(frames))
    ensures EndAt(at, Relayed(frames)) == EndAt(at, frames)
    ensures Events(Relayed(frames)) == Events(frames)
    ensures LastPos(Relayed(frames)) == LastPos(frames)
    decreases |frames|
  {
    if frames != [] {
      RelayedKeeps(env, s, at, Init(frames));
      if !Last(frames).body.HttpHead? {
        var kept := Relayed(Init(frames)) + [Last(frames)];
        assert Init(kept) == Relayed(Init(frames));
      }
    }
  }
}
