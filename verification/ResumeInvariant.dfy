/** The group invariant, kept by every step: members and resuming members stand where their connections do. */
module ResumeInvariant {
  import opened Prelude
  import opened MemberQueues
  import opened Fanout
  import opened EngineFeed
  import opened ResumeProtocol
  import opened ResumeAccounts

  // ---- the invariant of every step ----------------------------------------------------------------

  lemma InvConsistent(env: Env, w: World)
    requires Inv(env, w)
    ensures Consistent(w.g)
  {
  }

  lemma KeepsConsistent(env: Env, w: World, a: Action)
    requires Consistent(w.g) && Enabled(env, w, a)
    ensures Consistent(Next(env, w, a).g)
    ensures w.g.queues.Keys <= Next(env, w, a).g.queues.Keys
  {
    hide Consistent, GroupAfter, Enabled;
    match a
    case DialBatch(c, s, frames) => DialBatchKeepsConsistent(env, w, c, s, frames);
    case Join(_) => JoinKeepsConsistent(env, w, a);
    case JoinResume(_) => JoinKeepsConsistent(env, w, a);
    case _ => OthersKeepConsistent(env, w, a);
  }

  lemma GroupAfterDial(env: Env, w: World, c: Conn, s: Shard, frames: seq<Frame>)
    requires Consistent(w.g)
    ensures GroupAfter(env, w, DialBatch(c, s, frames)) ==
            ResumeBatch(env.encodedLen, w.g, c, s, frames, |env.sources|)
  {
    hide ResumeBatch;
  }

  lemma DialBatchKeepsConsistent(env: Env, w: World, c: Conn, s: Shard, frames: seq<Frame>)
    requires Consistent(w.g)
    ensures var g' := GroupAfter(env, w, DialBatch(c, s, frames)); Consistent(g') && w.g.queues.Keys <= g'.queues.Keys
  {
    hide ResumeBatch, Ignored, Fanned, PutAll, Relayed, LastPos, GroupAfter, Migrates;
    GroupAfterDial(env, w, c, s, frames);
    ResumeBatchServes(env.encodedLen, w.g, c, s, frames, |env.sources|);
    ResumeBatchQueues(env.encodedLen, w.g, c, s, frames, |env.sources|);
    IgnoredUnless(w.g, c, frames);
  }

  lemma JoinKeepsConsistent(env: Env, w: World, a: Action)
    requires Consistent(w.g) && Enabled(env, w, a) && (a.Join? || a.JoinResume?)
    ensures var g' := GroupAfter(env, w, a); Consistent(g') && w.g.queues.Keys <= g'.queues.Keys
  {
  }

  lemma OthersKeepConsistent(env: Env, w: World, a: Action)
    requires Consistent(w.g) && !a.DialBatch? && !a.Join? && !a.JoinResume?
    ensures var g' := GroupAfter(env, w, a); Consistent(g') && w.g.queues.Keys <= g'.queues.Keys
  {
    hide Fanned, PutAll, RelayPreamble, Admitted, LastPos, LastEid, AfterBatch;
  }

  lemma IgnoredUnless(g: GroupState, c: Conn, frames: seq<Frame>)
    requires g.resumes.Keys <= g.queues.Keys
    ensures !Ignored(g, c, frames) ==> c in g.resumes
  {
  }

  /** Members stand where the shared upstreams stand. */
  lemma KeepsMembers(env: Env, w: World, a: Action, c: Conn, s: Shard)
    requires Inv(env, w) && Enabled(env, w, a)
    requires c in Next(env, w, a).g.members && s in env.sources
    ensures NextReached(env, w, a, c, s) == SharedAtAfter(w, a, s)
  {
    hide GroupAfter, Follows, EndAt, ResumeInv, PosInv, Inv, Enabled, NextReached, SharedAtAfter;
    InvConsistent(env, w);
    match a
    case DialBatch(d, t, frames) => DialKeepsMembers(env, w, d, t, frames, c, s);
    case Join(d) => JoinKeepsMembers(env, w, d, c, s);
    case SharedBatch(t, frames) => BatchKeepsMembers(env, w, t, frames, c, s);
    case _ => OthersKeepMembers(env, w, a, c, s);
  }

  lemma DialKeepsMembers(env: Env, w: World, d: Conn, t: Shard, frames: seq<Frame>, c: Conn, s: Shard)
    requires Inv(env, w) && Consistent(w.g) && s in env.sources
    requires c in GroupAfter(env, w, DialBatch(d, t, frames)).members
    ensures NextReached(env, w, DialBatch(d, t, frames), c, s) == SharedAtAfter(w, DialBatch(d, t, frames), s)
  {
    hide ResumeBatch, Migrates, LastPos, Relayed, EndAt, ResumeInv, PosInv, BatchEnd, GroupAfter;
    GroupAfterDial(env, w, d, t, frames);
    ResumeBatchServes(env.encodedLen, w.g, d, t, frames, |env.sources|);
    IgnoredUnless(w.g, d, frames);
  }

  lemma JoinKeepsMembers(env: Env, w: World, d: Conn, c: Conn, s: Shard)
    requires Inv(env, w) && Consistent(w.g) && s in env.sources && Enabled(env, w, Join(d))
    requires c in GroupAfter(env, w, Join(d)).members
    ensures NextReached(env, w, Join(d), c, s) == SharedAtAfter(w, Join(d), s)
  {
    hide ResumeInv, PosInv;
  }

  lemma BatchKeepsMembers(env: Env, w: World, t: Shard, frames: seq<Frame>, c: Conn, s: Shard)
    requires Inv(env, w) && Consistent(w.g) && s in env.sources
    requires c in GroupAfter(env, w, SharedBatch(t, frames)).members
    ensures NextReached(env, w, SharedBatch(t, frames), c, s) == SharedAtAfter(w, SharedBatch(t, frames), s)
  {
    hide ResumeInv, PosInv, FannedQueues, LastPos, LastEid, EndAt;
  }

  lemma OthersKeepMembers(env: Env, w: World, a: Action, c: Conn, s: Shard)
    requires Inv(env, w) && Consistent(w.g) && s in env.sources && !a.DialBatch? && !a.Join? && !a.SharedBatch?
    requires c in GroupAfter(env, w, a).members
    ensures NextReached(env, w, a, c, s) == SharedAtAfter(w, a, s)
  {
    hide RelayPreamble, Admitted, LastPos, LastEid, EndAt, ResumeInv, PosInv;
  }

  /** A preamble records its last position, whatever was queued. */
  lemma {:induction false} RelayRecords(s: Shard, b: Relay, frames: seq<Frame>)
    requires b.r.headGiven
    ensures RelayPreamble(s, b, frames).r == b.r.(rpos := Observe(b.r.rpos, s, LastPos(Relayed(frames))))
    decreases |frames|
  {
    if frames != [] {
      RelayRecords(s, b, Init(frames));
      if !Last(frames).body.HttpHead? {
        var kept := Relayed(Init(frames)) + [Last(frames)];
        assert Init(kept) == Relayed(Init(frames));
      }
    }
  }

  /** A member that recorded the end of a delivered batch stands where its dial stands. */
  lemma RecordedEnd(env: Env, w: World, c: Conn, t: Shard, from: nat, frames: seq<Frame>, s: Shard)
    requires c in w.g.resumes && ResumeInv(env, w, c) && t in env.sources
    requires from == DialFrom(env, w, c, t) && Follows(env, t, from, frames)
    ensures var rpos := Observe(w.g.resumes[c].rpos, t, LastPos(Relayed(frames)));
            && rpos.Keys <= env.sources
            && (forall u :: u in rpos ==> rpos[u].epoch == env.epoch(u))
            && (if s in rpos then rpos[s].number else env.cursor(c, s)) ==
               (if s == t then EndAt(from, frames) else DialFrom(env, w, c, s))
  {
    hide EndAt, Relayed, Between;
    RelayedKeeps(env, t, from, frames);
    LastPosIsEnd(env, t, from, frames);
  }

  lemma KeepsResumeDialUp(env: Env, w: World, d: Conn, t: Shard, frames: seq<Frame>, c: Conn)
    requires Inv(env, w) && Enabled(env, w, DialUp(d, t, frames))
    requires c in Next(env, w, DialUp(d, t, frames)).g.resumes
    ensures ResumeInv(env, Next(env, w, DialUp(d, t, frames)), c)
  {
    hide EndAt, Relayed, Follows, RelayPreamble, LastPos, Inv, ResumeInv;
    InvConsistent(env, w);
    var w' := Next(env, w, DialUp(d, t, frames));
    assert c in w.g.resumes;
    InvResume(env, w, c);
    if d == c {
      RelayRecords(t, Relay(w.g.queues[c], w.g.resumes[c]), frames);
      DialKeepsResume(env, w, t, frames, c, w');
    } else {
      SameResume(env, w, w', c);
    }
  }

  /** A (re-)dial moves the member's record, its reach and its dial to the same place. */
  lemma DialKeepsResume(env: Env, w: World, t: Shard, frames: seq<Frame>, c: Conn, w': World)
    requires c in w.g.resumes && ResumeInv(env, w, c) && w.g.resumes[c].headGiven
    requires t in env.sources && Follows(env, t, DialFrom(env, w, c, t), frames)
    requires c in w'.g.resumes
             && w'.g.resumes[c] == w.g.resumes[c].(rpos := Observe(w.g.resumes[c].rpos, t, LastPos(Relayed(frames))))
    requires var end := EndAt(DialFrom(env, w, c, t), frames);
             forall s :: w'.reached(c, s) == (if s == t then end else w.reached(c, s))
                         && w'.dialAt(c, s) == (if s == t then Some(end) else w.dialAt(c, s))
    ensures ResumeInv(env, w', c)
  {
    hide EndAt, Relayed, Follows, LastPos;
    var from := DialFrom(env, w, c, t);
    RecordedEnd(env, w, c, t, from, frames, t);
    forall s
      ensures w'.reached(c, s) == DialFrom(env, w', c, s)
    {
      RecordedEnd(env, w, c, t, from, frames, s);
    }
  }

  lemma KeepsResumeDialBatch(env: Env, w: World, d: Conn, t: Shard, frames: seq<Frame>, c: Conn)
    requires Inv(env, w) && Enabled(env, w, DialBatch(d, t, frames))
    requires c in Next(env, w, DialBatch(d, t, frames)).g.resumes
    ensures ResumeInv(env, Next(env, w, DialBatch(d, t, frames)), c)
  {
    hide EndAt, Relayed, Follows, PutAll, LastPos, Migrates, Fanned, ResumeBatch, Inv, ResumeInv;
    var a := DialBatch(d, t, frames);
    InvConsistent(env, w);
    var w' := Next(env, w, a);
    ResumeBatchServes(env.encodedLen, w.g, d, t, frames, |env.sources|);
    assert c in w.g.resumes;
    InvResume(env, w, c);
    if d == c && !Ignored(w.g, c, frames) {
      OwnBatchKeepsResume(env, w, t, frames, c, w');
    } else {
      SameResume(env, w, w', c);
    }
  }

  /** A member whose record, reach and dials did not change (a dial may have ended) is still where it stood. */
  lemma SameResume(env: Env, w: World, w': World, c: Conn)
    requires c in w.g.resumes && ResumeInv(env, w, c)
    requires c in w'.g.resumes && w'.g.resumes[c] == w.g.resumes[c]
    requires forall s :: w'.reached(c, s) == w.reached(c, s)
    requires forall s :: w'.dialAt(c, s) == w.dialAt(c, s) || w'.dialAt(c, s).None?
    ensures ResumeInv(env, w', c)
  {
  }

  /** The member's own batch moves its record, its reach and its dial to the same place. */
  lemma OwnBatchKeepsResume(env: Env, w: World, t: Shard, frames: seq<Frame>, c: Conn, w': World)
    requires c in w.g.resumes && ResumeInv(env, w, c)
    requires t in env.sources && w.dialAt(c, t).Some? && Follows(env, t, w.dialAt(c, t).value, frames)
    requires c in w'.g.resumes
             && w'.g.resumes[c] == w.g.resumes[c].(rpos := Observe(w.g.resumes[c].rpos, t, LastPos(Relayed(frames))))
    requires forall s :: w'.reached(c, s) == BatchEnd(w, c, s, t, frames)
    requires forall s :: w'.dialAt(c, s) ==
               if s == t && frames != [] then Some(EndAt(w.dialAt(c, t).value, frames)) else w.dialAt(c, s)
    ensures ResumeInv(env, w', c)
  {
    hide EndAt, Relayed, Follows, LastPos;
    var from := DialFrom(env, w, c, t);
    RecordedEnd(env, w, c, t, from, frames, t);
    forall s
      ensures w'.reached(c, s) == DialFrom(env, w', c, s)
    {
      RecordedEnd(env, w, c, t, from, frames, s);
    }
    assert frames == [] ==> EndAt(from, frames) == from by { NowhereToGo(from); }
  }

  lemma NowhereToGo(at: nat)
    ensures EndAt(at, []) == at
  {
  }

  lemma InvResume(env: Env, w: World, c: Conn)
    requires Inv(env, w) && c in w.g.resumes
    ensures ResumeInv(env, w, c)
  {
    hide ResumeInv;
  }

  lemma KeepsResumeJoin(env: Env, w: World, d: Conn, c: Conn)
    requires Inv(env, w) && Enabled(env, w, JoinResume(d))
    requires c in Next(env, w, JoinResume(d)).g.resumes
    ensures ResumeInv(env, Next(env, w, JoinResume(d)), c)
  {
    if c != d {
      assert ResumeInv(env, w, c);
    }
  }

  lemma KeepsResumeHead(env: Env, w: World, d: Conn, c: Conn)
    requires Inv(env, w) && c in Next(env, w, DialHead(d)).g.resumes
    ensures ResumeInv(env, Next(env, w, DialHead(d)), c)
  {
    InvConsistent(env, w);
    assert c in w.g.resumes;
    InvResume(env, w, c);
  }

  /** Everything else leaves a resuming member's record alone. */
  lemma KeepsResumeQuiet(env: Env, w: World, a: Action, c: Conn)
    requires Inv(env, w) && Enabled(env, w, a)
    requires !a.DialUp? && !a.DialBatch? && !a.JoinResume? && !a.DialHead?
    requires c in Next(env, w, a).g.resumes
    ensures ResumeInv(env, Next(env, w, a), c)
  {
    hide Inv, ResumeInv, Enabled;
    InvConsistent(env, w);
    var w' := Next(env, w, a);
    QuietFrame(env, w, a, c);
    InvResume(env, w, c);
    SameResume(env, w, w', c);
  }

  lemma QuietFrame(env: Env, w: World, a: Action, c: Conn)
    requires Consistent(w.g) && Enabled(env, w, a)
    requires !a.DialUp? && !a.DialBatch? && !a.JoinResume? && !a.DialHead?
    requires c in GroupAfter(env, w, a).resumes
    ensures c in w.g.resumes && GroupAfter(env, w, a).resumes[c] == w.g.resumes[c]
    ensures forall s :: NextReached(env, w, a, c, s) == w.reached(c, s)
    ensures forall s :: DialAtAfter(env, w, a, c, s) == w.dialAt(c, s) || DialAtAfter(env, w, a, c, s).None?
  {
    hide EndAt, Follows, PutAll, LastPos, LastEid, Fanned, Admitted, FannedQueues;
  }

  /** Resuming members stand where their dials continue. */
  lemma KeepsResume(env: Env, w: World, a: Action, c: Conn)
    requires Inv(env, w) && Enabled(env, w, a)
    requires c in Next(env, w, a).g.resumes
    ensures ResumeInv(env, Next(env, w, a), c)
  {
    hide Inv, Enabled, ResumeInv, GroupAfter;
    match a
    case DialUp(d, t, frames) =>
      KeepsResumeDialUp(env, w, d, t, frames, c);
    case DialBatch(d, t, frames) => KeepsResumeDialBatch(env, w, d, t, frames, c);
    case JoinResume(d) => KeepsResumeJoin(env, w, d, c);
    case DialHead(d) => KeepsResumeHead(env, w, d, c);
    case _ => KeepsResumeQuiet(env, w, a, c);
  }

  /** A recorded shared position is never ahead of its upstream. */
  lemma KeepsPos(env: Env, w: World, a: Action, s: Shard)
    requires Inv(env, w) && Enabled(env, w, a)
    requires s in Next(env, w, a).g.pos
    ensures PosInv(env, Next(env, w, a), s)
  {
    hide EndAt, Inv, Follows, LastPos, GroupAfter, SharedAtAfter;
    InvConsistent(env, w);
    match a
    case SharedUp(t, from, frames) =>
      LastPosIsEnd(env, t, from, frames);
      DeliveredExactly(env, t, from, frames);
      PosObserved(env, w, a, t, LastPos(frames), EndAt(from, frames), s);
    case SharedBatch(t, frames) =>
      LastPosIsEnd(env, t, w.sharedAt(t), frames);
      DeliveredExactly(env, t, w.sharedAt(t), frames);
      PosObserved(env, w, a, t, LastPos(frames), EndAt(w.sharedAt(t), frames), s);
    case _ =>
      PosUntouched(env, w, a, s);
      PosKept(env, w, a, s);
  }

  lemma PosObserved(env: Env, w: World, a: Action, t: Shard, p: Option<Pos>, end: nat, s: Shard)
    requires Inv(env, w) && t in env.sources && w.sharedAt(t) <= end && Consistent(w.g)
    requires p.Some? ==> p.value.epoch == env.epoch(t) && p.value.number == end
    requires (a.SharedUp? && a.s == t && p == LastPos(a.frames) && end == EndAt(a.from, a.frames))
             || (a.SharedBatch? && a.s == t && p == LastPos(a.frames) && end == EndAt(w.sharedAt(t), a.frames))
    requires s in Next(env, w, a).g.pos
    ensures PosInv(env, Next(env, w, a), s)
  {
    hide EndAt, LastPos, LastEid, FannedQueues, ResumeInv, Puts, NextReached, NextStart, DialAtAfter;
  }

  lemma PosUntouched(env: Env, w: World, a: Action, s: Shard)
    requires Consistent(w.g) && !a.SharedUp? && !a.SharedBatch?
    ensures GroupAfter(env, w, a).pos == w.g.pos && SharedAtAfter(w, a, s) == w.sharedAt(s)
  {
    hide RelayPreamble, Admitted, ResumeBatch;
    match a
    case DialBatch(d, t, frames) => ResumeBatchServes(env.encodedLen, w.g, d, t, frames, |env.sources|);
    case _ =>
  }

  lemma PosKept(env: Env, w: World, a: Action, s: Shard)
    requires Inv(env, w) && Consistent(w.g) && s in Next(env, w, a).g.pos
    requires GroupAfter(env, w, a).pos == w.g.pos && SharedAtAfter(w, a, s) == w.sharedAt(s)
    ensures PosInv(env, Next(env, w, a), s)
  {
    hide GroupAfter, SharedAtAfter, ResumeInv, Puts, NextReached, NextStart, DialAtAfter;
  }

  lemma DialsBelong(env: Env, w: World, a: Action, c: Conn, s: Shard)
    requires Inv(env, w) && DialAtAfter(env, w, a, c, s).Some?
    ensures c in w.g.queues
  {
    hide EndAt, ResumeInv, PosInv;
  }

  lemma InvStep(env: Env, w: World, a: Action)
    requires Inv(env, w) && Enabled(env, w, a)
    ensures Inv(env, Next(env, w, a))
  {
    hide Enabled, ResumeInv, PosInv, SharedAtAfter, DialAtAfter, NextReached, GroupAfter;
    var w' := Next(env, w, a);
    KeepsConsistent(env, w, a);
    forall c, s | w'.dialAt(c, s).Some?
      ensures c in w'.g.queues
    {
      DialsBelong(env, w, a, c, s);
    }
    forall c, s | c in w'.g.members && s in env.sources
      ensures w'.reached(c, s) == w'.sharedAt(s)
    {
      KeepsMembers(env, w, a, c, s);
    }
    forall c | c in w'.g.resumes
      ensures ResumeInv(env, w', c)
    {
      KeepsResume(env, w, a, c);
    }
    forall s | s in w'.g.pos
      ensures PosInv(env, w', s)
    {
      KeepsPos(env, w, a, s);
    }
  }
}
