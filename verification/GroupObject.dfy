/** The Group object: its fields change in place, one critical section per method. */
module GroupObject {
  import opened Prelude
  import opened MemberQueues
  import F = Fanout
  import opened Sections

  class Group {
    const encodedLen: Body -> nat
    const sourceCount: nat
    var queues: map<F.Conn, Queue>
    var members: set<F.Conn>
    var resumes: map<F.Conn, F.Resume>
    var pos: map<F.Shard, Pos>
    var upstreamLive: map<F.Shard, bool>
    var liveUpstreams: int
    var provider: Option<F.Shard>
    var preamble: seq<Frame>
    var lastEid: Option<string>

    constructor (encodedLen: Body -> nat, sourceCount: nat)
      ensures View() == F.IDLE && F.Consistent(View())
      ensures this.encodedLen == encodedLen && this.sourceCount == sourceCount
    {
      this.encodedLen, this.sourceCount := encodedLen, sourceCount;
      queues, members, resumes := map[], {}, map[];
      pos, upstreamLive, liveUpstreams := map[], map[], 0;
      provider, preamble, lastEid := None, [], None;
    }

    function View(): F.GroupState
      reads this
    {
      F.GroupState(queues, members, resumes, pos, upstreamLive, liveUpstreams, provider, preamble, lastEid)
    }

    /** The position and payload-id bookkeeping both upstream sections start with. */
    method Observe(s: F.Shard, frames: seq<Frame>)
      modifies this`pos, this`lastEid
      ensures pos == F.Observe(old(pos), s, F.LastPos(frames))
      ensures lastEid == F.OrElse(F.LastEid(frames), old(lastEid))
    {
      for i := 0 to |frames|
        invariant pos == F.Observe(old(pos), s, F.LastPos(frames[..i]))
        invariant lastEid == F.OrElse(F.LastEid(frames[..i]), old(lastEid))
      {
        assert Init(frames[..i + 1]) == frames[..i];
        if frames[i].pos.Some? { pos := pos[s := frames[i].pos.value]; }
        if frames[i].eid.Some? { lastEid := frames[i].eid; }
      }
      assert frames[..|frames|] == frames;
    }

    /** An upstream (re)connected; its preamble window is observed but not fanned. */
    method UpstreamUp(s: F.Shard, frames: seq<Frame>)
      modifies this
      ensures View() == F.UpstreamUp(old(View()), s, frames)
      ensures Observed(old(pos), s, frames, pos) && upstreamLive == old(upstreamLive)[s := true]
      ensures liveUpstreams == old(liveUpstreams) + 1 && EidObserved(old(lastEid), frames, lastEid)
      ensures if old(provider).None? then provider == Some(s) && preamble == frames
              else provider == old(provider) && preamble == old(preamble)
      ensures queues == old(queues) && members == old(members) && resumes == old(resumes)
    {
      ObserveIs(pos, s, frames);
      LastEidIs(frames, lastEid);
      upstreamLive := upstreamLive[s := true];
      Observe(s, frames);
      if provider.None? {
        provider, preamble := Some(s), frames;
      }
      liveUpstreams := liveUpstreams + 1;
    }

    /** An upstream is gone; when it was the last one its caller closes the members returned here. */
    method UpstreamDown(s: F.Shard) returns (closing: set<F.Conn>)
      modifies this
      ensures View() == F.UpstreamDown(old(View()), s)
      ensures upstreamLive == old(upstreamLive)[s := false] && liveUpstreams == old(liveUpstreams) - 1
      ensures provider == if old(provider) == Some(s) then None else old(provider)
      ensures queues == old(queues) && members == old(members) && resumes == old(resumes) && pos == old(pos)
      ensures closing == if liveUpstreams == 0 then members else {}
    {
      liveUpstreams := liveUpstreams - 1;
      upstreamLive := upstreamLive[s := false];
      if provider == Some(s) { provider := None; }
      closing := if liveUpstreams == 0 then members else {};
    }

    /** All frames of a batch onto one queue, deltas through the coalescing door. */
    method Feed(q0: Queue, s: F.Shard, frames: seq<Frame>) returns (q: Queue)
      ensures q == F.PutAll(encodedLen, q0, F.Fanned(s, frames))
    {
      q := q0;
      for i := 0 to |frames|
        invariant q == F.PutAll(encodedLen, q0, F.Fanned(s, frames[..i]))
      {
        var key := DeltaPartKey(frames[i]);
        assert Init(F.Fanned(s, frames[..i + 1])) == F.Fanned(s, frames[..i]);
        assert Last(F.Fanned(s, frames[..i + 1])) == F.Entry(F.Feed(s), Data(frames[i]), true);
        q := if key.Some? then PutCoalescing(encodedLen, q, frames[i], key) else Put(q, Data(frames[i]));
      }
      assert frames[..|frames|] == frames;
    }

    /** The fan itself: every member gets the whole batch, or the sentinel if it is stalled. */
    method Fan(s: F.Shard, frames: seq<Frame>) returns (stalled: set<F.Conn>)
      requires F.Consistent(View())
      modifies this`queues, this`members, this`resumes
      ensures stalled == F.Stalled(old(View()))
      ensures members == old(members) - stalled && resumes == old(resumes) - stalled
      ensures queues == F.FannedQueues(encodedLen, old(View()), s, frames)
    {
      hide F.PutAll, F.Fanned;
      ghost var g := View();
      stalled := {};
      var todo := members;
      while todo != {}
        invariant todo <= g.members
        invariant members == g.members - stalled && resumes == g.resumes - stalled
        invariant stalled == F.Stalled(g) - todo
        invariant queues.Keys == g.queues.Keys
        invariant forall c :: c in queues ==>
                    queues[c] == if c in todo then g.queues[c] else F.AfterBatch(encodedLen, g, c, s, frames)
        decreases todo
      {
        var m :| m in todo;
        todo := todo - {m};
        if F.Full(queues[m]) {
          members, resumes := members - {m}, resumes - {m};
          stalled := stalled + {m};
          queues := queues[m := Put(queues[m], Close)];
        } else {
          var q := Feed(queues[m], s, frames);
          queues := queues[m := q];
        }
      }
    }

    /** One batch of a shared upstream: observed and fanned in one critical section. */
    method SharedBatch(s: F.Shard, frames: seq<Frame>) returns (stalled: set<F.Conn>)
      requires F.Consistent(View())
      modifies this
      ensures View() == F.SharedBatch(encodedLen, old(View()), s, frames) && F.Consistent(View())
      ensures stalled == set c | c in old(members) && |old(queues)[c].items| >= 64
      ensures members == old(members) - stalled && resumes == old(resumes) - stalled
      ensures Observed(old(pos), s, frames, pos) && EidObserved(old(lastEid), frames, lastEid)
      ensures queues.Keys == old(queues).Keys
      ensures forall c :: c in stalled ==> queues[c].items == old(queues)[c].items + [Close]
      ensures forall c :: c in members && Valid(old(queues)[c]) ==> Fed(encodedLen, old(queues)[c], frames, queues[c])
      ensures forall c :: c in queues && c !in old(members) ==> queues[c] == old(queues)[c]
    {
      ghost var before := View();
      ObserveIs(pos, s, frames);
      LastEidIs(frames, lastEid);
      Observe(s, frames);
      stalled := Fan(s, frames);
      EveryoneIsFed(encodedLen, before, s, frames);
    }

    method EnterMember(c: F.Conn) returns (entered: bool)
      requires F.Consistent(View())
      modifies this
      ensures View() == F.EnterMember(old(View()), c)
      ensures members == old(members) + {c} && resumes == old(resumes)
      ensures queues == if c in old(members) then old(queues) else old(queues)[c := Queue([], None)]
      ensures c !in resumes ==> F.Consistent(View())
      ensures entered <==> c !in old(members)
    {
      if c in members { return false; }
      queues, members := queues[c := EMPTY], members + {c};
      return true;
    }

    /** The join loop's section: queue the preamble once a provider exists; false means try again. */
    method QueuePreamble(c: F.Conn) returns (finished: bool)
      requires F.Consistent(View())
      modifies this
      ensures View() == F.QueuePreamble(old(View()), c)
      ensures finished <==> old(provider).Some?
      ensures members == old(members) && queues.Keys == old(queues).Keys
      ensures forall d :: d in queues && d != c ==> queues[d] == old(queues)[d]
      ensures finished && c in members ==> Filled(old(queues)[c], preamble, queues[c])
      ensures !(finished && c in members) ==> queues == old(queues)
    {
      if c in members { AdmittedIsFilled(queues[c], preamble); }
      if provider.None? { return false; }
      if c !in members { return true; }
      var q := queues[c];
      for i := 0 to |preamble|
        invariant q == F.Admitted(queues[c], preamble[..i])
        invariant View() == old(View())
      {
        assert Init(preamble[..i + 1]) == preamble[..i];
        if |q.items| < F.MEMBER_QUEUE_MAX_ITEMS { q := Put(q, Data(preamble[i])); }
      }
      assert preamble[..|preamble|] == preamble;
      queues := queues[c := q];
      return true;
    }

    method EnterResume(c: F.Conn) returns (entered: bool)
      requires F.Consistent(View())
      modifies this
      ensures View() == F.EnterResume(old(View()), c) && F.Consistent(View())
      ensures members == old(members)
      ensures if entered then
                queues == old(queues)[c := Queue([], None)] && resumes == old(resumes)[c := F.Resume(false, map[])]
              else queues == old(queues) && resumes == old(resumes)
      ensures entered <==> c !in old(members) && c !in old(resumes)
    {
      if c in members || c in resumes { return false; }
      queues, resumes := queues[c := EMPTY], resumes[c := F.Resume(false, map[])];
      return true;
    }

    method GiveHead(c: F.Conn)
      requires F.Consistent(View())
      modifies this
      ensures View() == F.GiveHead(old(View()), c)
      ensures if c in old(resumes) && !old(resumes)[c].headGiven then
                && queues.Keys == old(queues).Keys && resumes.Keys == old(resumes).Keys
                && queues[c].items == old(queues)[c].items + [Data(F.MEMBER_SSE_HEAD)]
                && resumes[c].headGiven && resumes[c].rpos == old(resumes)[c].rpos
              else queues == old(queues) && resumes == old(resumes)
    {
      if c in resumes && !resumes[c].headGiven {
        queues := queues[c := Put(queues[c], Data(F.MEMBER_SSE_HEAD))];
        resumes := resumes[c := resumes[c].(headGiven := true)];
      }
    }

    /** A resume dial's preamble: plain puts, dropped at the limit, positions recorded regardless. */
    method ResumePreamble(c: F.Conn, s: F.Shard, frames: seq<Frame>) returns (live: bool)
      requires F.Consistent(View())
      modifies this
      ensures View() == F.ResumePreamble(old(View()), c, s, frames)
      ensures live <==> c in old(resumes)
      ensures members == old(members) && resumes.Keys == old(resumes).Keys && queues.Keys == old(queues).Keys
      ensures forall d :: d in queues && (d != c || !live) ==> queues[d] == old(queues)[d]
      ensures forall d :: d in resumes && d != c ==> resumes[d] == old(resumes)[d]
      ensures c in old(resumes) && old(resumes)[c].headGiven ==>
                && Filled(old(queues)[c], F.Relayed(frames), queues[c])
                && Observed(old(resumes)[c].rpos, s, F.Relayed(frames), resumes[c].rpos)
    {
      if c in resumes && resumes[c].headGiven {
        PreambleIsFilled(s, F.Relay(queues[c], resumes[c]), frames);
        ObserveIs(resumes[c].rpos, s, F.Relayed(frames));
      }
      live := c in resumes;
      if !live { return; }
      var q, r := queues[c], resumes[c];
      for i := 0 to |frames|
        invariant F.Relay(q, r) == F.RelayPreamble(s, F.Relay(queues[c], resumes[c]), frames[..i])
        invariant View() == old(View())
      {
        assert Init(frames[..i + 1]) == frames[..i];
        var f := frames[i];
        if f.body.HttpHead? {
          if !r.headGiven {
            r := r.(headGiven := true);
            q := Put(q, Data(F.MEMBER_SSE_HEAD));
          }
          continue;
        }
        if f.pos.Some? { r := r.(rpos := r.rpos[s := f.pos.value]); }
        if |q.items| < F.MEMBER_QUEUE_MAX_ITEMS { q := Put(q, Data(f)); }
      }
      assert frames[..|frames|] == frames;
      queues, resumes := queues[c := q], resumes[c := r];
    }

    /** The loop over a resume dial's batch: engine heads are skipped, positions noted, frames queued. */
    method RelayInto(q0: Queue, rpos0: map<F.Shard, Pos>, s: F.Shard, frames: seq<Frame>)
      returns (q: Queue, rpos: map<F.Shard, Pos>)
      ensures q == F.PutAll(encodedLen, q0, F.Fanned(s, F.Relayed(frames)))
      ensures rpos == F.Observe(rpos0, s, F.LastPos(F.Relayed(frames)))
    {
      hide F.PutAll, F.Fanned, F.LastPos, F.Relayed;
      F.RelayNothing(encodedLen, q0, s);
      q, rpos := q0, rpos0;
      for i := 0 to |frames|
        invariant q == F.PutAll(encodedLen, q0, F.Fanned(s, F.Relayed(frames[..i])))
        invariant rpos == F.Observe(rpos0, s, F.LastPos(F.Relayed(frames[..i])))
      {
        assert frames[..i + 1] == frames[..i] + [frames[i]];
        F.RelaySnoc(encodedLen, q0, s, frames[..i], frames[i]);
        if frames[i].body.HttpHead? { continue; }
        if frames[i].pos.Some? { rpos := rpos[s := frames[i].pos.value]; }
        var key := DeltaPartKey(frames[i]);
        q := if key.Some? then PutCoalescing(encodedLen, q, frames[i], key) else Put(q, Data(frames[i]));
      }
      assert frames[..|frames|] == frames;
    }

    /** Queue a resume dial's batch and record its last position. */
    method RelayBatch(c: F.Conn, s: F.Shard, frames: seq<Frame>)
      requires F.Consistent(View()) && c in resumes
      modifies this`queues, this`resumes
      ensures View() == F.Relayed1(encodedLen, old(View()), c, s, frames)
    {
      hide F.PutAll, F.Fanned, F.LastPos, F.Relayed;
      var q, rpos := RelayInto(queues[c], resumes[c].rpos, s, frames);
      queues, resumes := queues[c := q], resumes[c := resumes[c].(rpos := rpos)];
    }

    /** The migration: all sources live and equal, checked and acted on without leaving the section. */
    method TryMigrate(c: F.Conn) returns (migrated: bool)
      requires F.Consistent(View()) && c in resumes
      modifies this`members, this`resumes
      ensures migrated <==> F.Converged(old(View()), old(resumes)[c], sourceCount)
      ensures View() == if migrated then F.Migrate(old(View()), c) else old(View())
    {
      migrated := false;
      var r := resumes[c];
      if r.headGiven && |r.rpos| == sourceCount {
        var converged := AllEqual(r.rpos);
        if converged {
          members, resumes := members + {c}, resumes - {c};
          migrated := true;
        }
      }
    }

    /** The convergence loop over a member's recorded positions. */
    method AllEqual(rpos: map<F.Shard, Pos>) returns (converged: bool)
      ensures converged <==> forall s :: s in rpos ==> F.Live(View(), s) && s in pos && pos[s] == rpos[s]
    {
      var todo := rpos.Keys;
      while todo != {}
        invariant todo <= rpos.Keys
        invariant forall s :: s in rpos && s !in todo ==> F.Live(View(), s) && s in pos && pos[s] == rpos[s]
        decreases todo
      {
        var s := Pick(todo);
        if !(s in upstreamLive && upstreamLive[s]) || s !in pos || pos[s] != rpos[s] { return false; }
        todo := todo - {s};
      }
      return true;
    }

    /** A later batch of a resume dial, with the migration check in the same section. */
    method ResumeBatch(c: F.Conn, s: F.Shard, frames: seq<Frame>) returns (stalled: bool, migrated: bool)
      requires F.Consistent(View())
      modifies this
      ensures View() == F.ResumeBatch(encodedLen, old(View()), c, s, frames, sourceCount) && F.Consistent(View())
      ensures stalled <==> frames != [] && c in old(resumes) && |old(queues)[c].items| >= 64
      ensures migrated <==> F.Migrates(encodedLen, old(View()), c, s, frames, sourceCount)
      ensures migrated ==> members == old(members) + {c} && resumes == old(resumes) - {c}
      ensures !migrated ==> members == old(members) && resumes.Keys == old(resumes).Keys
      ensures queues.Keys == old(queues).Keys && forall d :: d in queues && d != c ==> queues[d] == old(queues)[d]
      ensures frames != [] && c in old(resumes) && !stalled ==>
                && (Valid(old(queues)[c]) ==> Fed(encodedLen, old(queues)[c], F.Relayed(frames), queues[c]))
                && (!migrated ==> Observed(old(resumes)[c].rpos, s, F.Relayed(frames), resumes[c].rpos))
      ensures !(frames != [] && c in old(resumes) && !stalled) ==> queues == old(queues) && resumes == old(resumes)
    {
      hide F.PutAll, F.Fanned, F.LastPos, F.Relayed, F.Converged, Fed, Observed;
      stalled, migrated := false, false;
      if frames == [] || c !in resumes { return; }
      stalled := |queues[c].items| >= F.MEMBER_QUEUE_MAX_ITEMS;
      if stalled { return; }
      RelayIsFed(encodedLen, View(), c, s, frames);
      RelayBatch(c, s, frames);
      migrated := TryMigrate(c);
    }

    method Leave(c: F.Conn)
      requires F.Consistent(View())
      modifies this
      ensures View() == F.Leave(old(View()), c) && F.Consistent(View())
      ensures members == old(members) - {c} && resumes == old(resumes) - {c}
      ensures queues.Keys == old(queues).Keys && forall d :: d in queues && d != c ==> queues[d] == old(queues)[d]
      ensures if c in old(members) || c in old(resumes) then queues[c].items == old(queues)[c].items + [Close]
              else queues == old(queues)
    {
      if c in members || c in resumes { queues := queues[c := Put(queues[c], Close)]; }
      members, resumes := members - {c}, resumes - {c};
    }

    method Drop(c: F.Conn)
      requires F.Consistent(View())
      modifies this
      ensures View() == F.Drop(old(View()), c) && F.Consistent(View())
      ensures members == old(members) - {c} && resumes == old(resumes) - {c} && queues == old(queues)
    {
      members, resumes := members - {c}, resumes - {c};
    }
  }

  /** A dial's batch feeds its own member only, and records its last position. */
  lemma RelayIsFed(len: Body -> nat, g: F.GroupState, c: F.Conn, s: F.Shard, frames: seq<Frame>)
    requires F.Consistent(g) && c in g.resumes
    ensures var h := F.Relayed1(len, g, c, s, frames);
            && h.queues.Keys == g.queues.Keys && h.resumes.Keys == g.resumes.Keys && h.members == g.members
            && (forall d :: d in g.queues && d != c ==> h.queues[d] == g.queues[d])
            && (Valid(g.queues[c]) ==> Fed(len, g.queues[c], F.Relayed(frames), h.queues[c]))
            && Observed(g.resumes[c].rpos, s, F.Relayed(frames), h.resumes[c].rpos)
            && h.resumes - {c} == g.resumes - {c}
  {
    hide F.PutAll, F.Fanned, F.LastPos, F.Relayed, Fed, Observed;
    ObserveIs(g.resumes[c].rpos, s, F.Relayed(frames));
    if Valid(g.queues[c]) {
      FannedIsFed(len, g.queues[c], s, F.Relayed(frames));
    }
  }

  /** After a batch every member with room has been fed the whole of it. */
  lemma EveryoneIsFed(len: Body -> nat, g: F.GroupState, s: F.Shard, frames: seq<Frame>)
    requires F.Consistent(g)
    ensures F.Stalled(g) == set c | c in g.members && |g.queues[c].items| >= 64
    ensures var qs := F.FannedQueues(len, g, s, frames);
            && (forall c :: c in F.Stalled(g) ==> qs[c].items == g.queues[c].items + [Close])
            && (forall c :: c in g.members && c !in F.Stalled(g) && Valid(g.queues[c]) ==>
                  Fed(len, g.queues[c], frames, qs[c]))
            && forall c :: c in qs && c !in g.members ==> qs[c] == g.queues[c]
  {
    hide F.PutAll, F.Fanned, Fed;
    forall c | c in g.members && Valid(g.queues[c])
      ensures Fed(len, g.queues[c], frames, F.PutAll(len, g.queues[c], F.Fanned(s, frames)))
    {
      FannedIsFed(len, g.queues[c], s, frames);
    }
  }

  // ---- what a batch means for one member ----------------------------------------------------------

  /**
    Fan-out is pointwise: what a batch does to one member does not depend on any other member's queue, so a
    stalled member never changes what the others get.
   */
  lemma FanoutIsPointwise(len: Body -> nat, g: F.GroupState, h: F.GroupState, s: F.Shard, frames: seq<Frame>, c: F.Conn)
    requires F.Consistent(g) && F.Consistent(h) && c in g.members && c in h.members
    requires g.queues[c] == h.queues[c]
    ensures var g', h' := F.SharedBatch(len, g, s, frames), F.SharedBatch(len, h, s, frames);
            && g'.queues[c] == h'.queues[c]
            && (c in g'.members <==> c in h'.members)
            && (c in g'.members <==> !F.Full(g.queues[c]))
  {
  }
}
