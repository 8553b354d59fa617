/** The critical sections of a group, spelled out: who stays, what is queued and which positions are recorded. */
module Sections {
  import opened Prelude
  import opened MemberQueues
  import opened Fanout

  // ---- positions ---------------------------------------------------------------------------------------

  /** Frame i shows p, and no later frame shows a position. */
  ghost predicate NumberedLast(frames: seq<Frame>, i: int, p: Pos) {
    0 <= i < |frames| && frames[i].pos == Some(p) && forall j :: i < j < |frames| ==> frames[j].pos.None?
  }

  /** The recorded positions after a batch of s: its last numbered frame's on s, everything else as before. */
  ghost predicate Observed(pos: map<Shard, Pos>, s: Shard, frames: seq<Frame>, pos': map<Shard, Pos>) {
    && (forall t :: t != s ==> (t in pos' <==> t in pos) && (t in pos ==> pos'[t] == pos[t]))
    && (forall i, p :: NumberedLast(frames, i, p) ==> s in pos' && pos'[s] == p)
    && ((forall i :: 0 <= i < |frames| ==> frames[i].pos.None?) ==> pos' == pos)
  }

  lemma {:induction false} LastPosIs(frames: seq<Frame>)
    ensures forall i, p :: NumberedLast(frames, i, p) ==> LastPos(frames) == Some(p)
    ensures (forall i :: 0 <= i < |frames| ==> frames[i].pos.None?) ==> LastPos(frames) == None
    decreases |frames|
  {
    if frames != [] {
      var front, n := Init(frames), |frames| - 1;
      LastPosIs(front);
      forall i, p | NumberedLast(frames, i, p)
        ensures LastPos(frames) == Some(p)
      {
        if i < n {
          assert NumberedLast(front, i, p);
        }
      }
    }
  }

  lemma ObserveIs(pos: map<Shard, Pos>, s: Shard, frames: seq<Frame>)
    ensures Observed(pos, s, frames, Observe(pos, s, LastPos(frames)))
  {
    hide LastPos;
    LastPosIs(frames);
  }

  /** The payload id kept is the last one a frame carries. */
  ghost predicate EidObserved(eid: Option<string>, frames: seq<Frame>, eid': Option<string>) {
    && (forall i :: 0 <= i < |frames| && frames[i].eid.Some? && (forall j :: i < j < |frames| ==> frames[j].eid.None?) ==>
          eid' == frames[i].eid)
    && ((forall i :: 0 <= i < |frames| ==> frames[i].eid.None?) ==> eid' == eid)
  }

  lemma OneMoreEid(front: seq<Frame>, f: Frame, eid: Option<string>, before: Option<string>)
    requires EidObserved(eid, front, before)
    ensures EidObserved(eid, front + [f], if f.eid.Some? then f.eid else before)
  {
    var all, n, after := front + [f], |front|, if f.eid.Some? then f.eid else before;
    assert all[n] == f && forall i :: 0 <= i < n ==> all[i] == front[i];
    forall i | 0 <= i < |all| && all[i].eid.Some? && forall j :: i < j < |all| ==> all[j].eid.None?
      ensures after == all[i].eid
    {
      if i < n {
        assert all[n].eid.None?;
        assert forall j :: i < j < n ==> front[j].eid.None?;
      }
    }
  }

  lemma {:induction false} LastEidIs(frames: seq<Frame>, eid: Option<string>)
    ensures EidObserved(eid, frames, OrElse(LastEid(frames), eid))
    decreases |frames|
  {
    if frames != [] {
      hide EidObserved;
      var front, f := Init(frames), Last(frames);
      assert frames == front + [f];
      LastEidIs(front, eid);
      var before := OrElse(LastEid(front), eid);
      assert OrElse(LastEid(frames), eid) == if f.eid.Some? then f.eid else before;
      hide LastEid;
      OneMoreEid(front, f, eid, before);
    }
  }

  // ---- what a member is fed ------------------------------------------------------------------------------

  /** One frame queued through the coalescing door, or plainly if it is no delta. */
  ghost predicate FedOne(len: Body -> nat, q: Queue, f: Frame, q': Queue) {
    if f.body.Delta? then CoalescedInto(len, q, f, q') else q'.items == q.items + [Data(f)] && q'.tailKey == None
  }

  /** The frames queued one after the other, through the queues `qs`. */
  ghost predicate FedThrough(len: Body -> nat, qs: seq<Queue>, frames: seq<Frame>) {
    |qs| == |frames| + 1 && forall i :: 0 <= i < |frames| ==> FedOne(len, qs[i], frames[i], qs[i + 1])
  }

  ghost predicate Fed(len: Body -> nat, q: Queue, frames: seq<Frame>, q': Queue) {
    exists qs :: FedThrough(len, qs, frames) && qs[0] == q && Last(qs) == q'
  }

  lemma PutIsFed(len: Body -> nat, q: Queue, s: Shard, f: Frame)
    requires Valid(q)
    ensures FedOne(len, q, f, PutEntry(len, q, Entry(Feed(s), Data(f), true)))
    ensures Valid(PutEntry(len, q, Entry(Feed(s), Data(f), true)))
  {
    PutCoalesces(len, q, f);
    PutAppendsOrMerges(len, q, f);
  }

  lemma OneMoreFed(len: Body -> nat, q: Queue, front: seq<Frame>, before: Queue, f: Frame, after: Queue)
    requires Fed(len, q, front, before) && FedOne(len, before, f, after)
    ensures Fed(len, q, front + [f], after)
  {
    hide FedOne;
    var qs :| FedThrough(len, qs, front) && qs[0] == q && Last(qs) == before;
    var qs', all, n := qs + [after], front + [f], |front|;
    forall i | 0 <= i < |all|
      ensures FedOne(len, qs'[i], all[i], qs'[i + 1])
    {
      if i < n {
        assert qs'[i] == qs[i] && all[i] == front[i] && qs'[i + 1] == qs[i + 1];
      }
    }
    assert FedThrough(len, qs', all);
  }

  lemma {:induction false} FannedIsFed(len: Body -> nat, q: Queue, s: Shard, frames: seq<Frame>)
    requires Valid(q)
    ensures Fed(len, q, frames, PutAll(len, q, Fanned(s, frames))) && Valid(PutAll(len, q, Fanned(s, frames)))
    decreases |frames|
  {
    if frames == [] {
      assert FedThrough(len, [q], []) && Last([q]) == q;
    } else {
      hide FedOne, Fed, PutEntry, Valid;
      var front, f := Init(frames), Last(frames);
      FannedIsFed(len, q, s, front);
      var before := PutAll(len, q, Fanned(s, front));
      PutIsFed(len, before, s, f);
      assert Init(Fanned(s, frames)) == Fanned(s, front) && Last(Fanned(s, frames)) == Entry(Feed(s), Data(f), true);
      OneMoreFed(len, q, front, before, f, PutAll(len, q, Fanned(s, frames)));
      assert frames == front + [f];
    }
  }

  /** A batch without deltas is appended frame by frame. */
  lemma {:induction false} PlainIsAppended(len: Body -> nat, q: Queue, frames: seq<Frame>, q': Queue)
    requires Fed(len, q, frames, q') && forall i :: 0 <= i < |frames| ==> !frames[i].body.Delta?
    ensures |q'.items| == |q.items| + |frames| && q.items <= q'.items
    ensures forall i :: 0 <= i < |frames| ==> q'.items[|q.items| + i] == Data(frames[i])
    decreases |frames|
  {
    var qs :| FedThrough(len, qs, frames) && qs[0] == q && Last(qs) == q';
    if frames != [] {
      var front := Init(frames);
      assert FedThrough(len, Init(qs), front);
      PlainIsAppended(len, q, front, qs[|frames| - 1]);
      assert FedOne(len, qs[|frames| - 1], frames[|frames| - 1], qs[|frames|]);
    }
  }

  /** As many of the frames as there is room for, each as an item of its own. */
  ghost predicate Filled(q: Queue, frames: seq<Frame>, q': Queue) {
    var room := if |q.items| >= 64 then 0 else 64 - |q.items|;
    var k := if |frames| < room then |frames| else room;
    && |q'.items| == |q.items| + k && q.items <= q'.items
    && forall i :: 0 <= i < k ==> q'.items[|q.items| + i] == Data(frames[i])
  }

  lemma {:induction false} AdmittedIsFilled(q: Queue, frames: seq<Frame>)
    ensures Filled(q, frames, Admitted(q, frames))
    decreases |frames|
  {
    if frames != [] {
      AdmittedIsFilled(q, Init(frames));
    }
  }

  // ---- what a resume dial brings ---------------------------------------------------------------------------

  function HeadsIn(frames: seq<Frame>): set<nat> {
    set i: nat | i < |frames| && frames[i].body.HttpHead?
  }

  lemma OneMoreHead(front: seq<Frame>, f: Frame)
    ensures |HeadsIn(front + [f])| == |HeadsIn(front)| + (if f.body.HttpHead? then 1 else 0)
  {
    var all, n := front + [f], |front|;
    assert all[n] == f && forall i :: 0 <= i < n ==> all[i] == front[i];
    if f.body.HttpHead? {
      assert HeadsIn(all) == HeadsIn(front) + {n};
    } else {
      assert HeadsIn(all) == HeadsIn(front);
    }
  }

  /** The frames without the engine's HTTP heads, in their order. */
  lemma {:induction false} RelayedIs(frames: seq<Frame>)
    ensures IsSubseq(Relayed(frames), frames) && |Relayed(frames)| == |frames| - |HeadsIn(frames)|
    ensures forall f :: f in Relayed(frames) ==> !f.body.HttpHead?
    decreases |frames|
  {
    if frames == [] {
      assert HeadsIn(frames) == {};
    } else {
      hide HeadsIn;
      var front, f := Init(frames), Last(frames);
      RelayedIs(front);
      OneMoreHead(front, f);
      assert frames == front + [f];
      if !f.body.HttpHead? {
        assert Init(Relayed(front) + [f]) == Relayed(front);
      }
    }
  }

  /** Once the head is given, a dial's preamble fills the queue with its frames and records their positions. */
  lemma {:induction false} PreambleIsFilled(s: Shard, b: Relay, frames: seq<Frame>)
    requires b.r.headGiven
    ensures var after := RelayPreamble(s, b, frames);
            Filled(b.q, Relayed(frames), after.q) && after.r.headGiven
            && after.r.rpos == Observe(b.r.rpos, s, LastPos(Relayed(frames)))
    decreases |frames|
  {
    if frames != [] {
      hide Filled, Observe, LastPos, RelayOne;
      PreambleIsFilled(s, b, Init(frames));
      OneMoreRelayed(s, b, Relayed(Init(frames)), RelayPreamble(s, b, Init(frames)), Last(frames));
    }
  }

  lemma OneMoreRelayed(s: Shard, b: Relay, kept: seq<Frame>, before: Relay, f: Frame)
    requires Filled(b.q, kept, before.q) && before.r.headGiven
    requires before.r.rpos == Observe(b.r.rpos, s, LastPos(kept))
    ensures var after, kept' := RelayOne(s, before, f), if f.body.HttpHead? then kept else kept + [f];
            Filled(b.q, kept', after.q) && after.r.headGiven && after.r.rpos == Observe(b.r.rpos, s, LastPos(kept'))
  {
    assert Init(kept + [f]) == kept;
  }
}
