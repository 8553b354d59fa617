/** When a resuming member moves onto the shared fan-out, source by source and for any number of sources. */
module Migration {
  import opened Prelude
  import opened MemberQueues
  import opened Fanout
  import opened EngineFeed
  import opened ResumeProtocol
  import opened ResumeAccounts
  import opened ResumeInvariant
  import opened ResumeExactlyOnce

  /** p is the last position that a frame of the batch shows, an engine's HTTP head aside. */
  ghost predicate LastShown(frames: seq<Frame>, p: Pos) {
    exists i :: ShownAt(frames, i, p)
  }

  ghost predicate ShownAt(frames: seq<Frame>, i: int, p: Pos) {
    && 0 <= i < |frames| && !frames[i].body.HttpHead? && frames[i].pos == Some(p)
    && forall j :: i < j < |frames| ==> frames[j].body.HttpHead? || frames[j].pos.None?
  }

  lemma {:induction false} LastShownIff(frames: seq<Frame>, p: Pos)
    ensures LastPos(Relayed(frames)) == Some(p) <==> LastShown(frames, p)
    decreases |frames|
  {
    if frames != [] {
      var front, f := Init(frames), Last(frames);
      LastShownIff(front, p);
      assert frames == front + [f];
      RelayedMore(front, f);
      if f.body.HttpHead? || f.pos.None? {
        assert forall i :: ShownAt(frames, i, p) <==> ShownAt(front, i, p);
      } else {
        assert forall i :: ShownAt(frames, i, p) ==> i == |front|;
        assert f.pos == Some(p) ==> ShownAt(frames, |front|, p);
      }
    }
  }

  lemma RelayedMore(front: seq<Frame>, f: Frame)
    ensures LastPos(Relayed(front + [f])) ==
            if !f.body.HttpHead? && f.pos.Some? then f.pos else LastPos(Relayed(front))
  {
    assert Init(front + [f]) == front;
    var kept := Relayed(front) + [f];
    assert Init(kept) == Relayed(front);
  }

  /** With the batch of source s taken in, the member's recorded position on t is p. */
  ghost predicate Recorded(r: Resume, s: Shard, frames: seq<Frame>, t: Shard, p: Pos) {
    || (t == s && LastShown(frames, p))
    || ((t != s || forall q :: !LastShown(frames, q)) && t in r.rpos && r.rpos[t] == p)
  }

  /** The shared upstream of t is live and stands exactly where the member stands. */
  ghost predicate CaughtUp(g: GroupState, r: Resume, s: Shard, frames: seq<Frame>, t: Shard) {
    && t in g.upstreamLive && g.upstreamLive[t] && t in g.pos
    && Recorded(r, s, frames, t, g.pos[t])
  }

  /** The batch moves c: it is not refused, the head has been given, and every source has been caught up with. */
  ghost predicate CaughtUpEverywhere(g: GroupState, c: Conn, s: Shard, frames: seq<Frame>, sources: set<Shard>)
    requires g.resumes.Keys <= g.queues.Keys
  {
    && frames != [] && c in g.resumes && |g.queues[c].items| < 64
    && g.resumes[c].headGiven
    && forall t :: t in sources ==> CaughtUp(g, g.resumes[c], s, frames, t)
  }

  lemma RecordedIff(r: Resume, s: Shard, frames: seq<Frame>, t: Shard, p: Pos)
    ensures var rpos := Observe(r.rpos, s, LastPos(Relayed(frames)));
            t in rpos && rpos[t] == p <==> Recorded(r, s, frames, t, p)
  {
    hide LastShown, LastPos, Relayed;
    forall q
      ensures LastPos(Relayed(frames)) == Some(q) <==> LastShown(frames, q)
    {
      LastShownIff(frames, q);
    }
  }

  /** Recorded on every source, and on nothing else: that is what counting the records checks. */
  lemma CountedAll(keys: set<Shard>, sources: set<Shard>)
    requires keys <= sources
    ensures |keys| == |sources| <==> keys == sources
  {
    SubsetCardinality(keys, sources);
  }

  lemma ConvergedIff(g: GroupState, c: Conn, s: Shard, frames: seq<Frame>, sources: set<Shard>, len: Body -> nat)
    requires Consistent(g) && c in g.resumes && s in sources && g.resumes[c].rpos.Keys <= sources
    ensures var h := Relayed1(len, g, c, s, frames);
            Converged(h, h.resumes[c], |sources|) <==>
              g.resumes[c].headGiven && forall t :: t in sources ==> CaughtUp(g, g.resumes[c], s, frames, t)
  {
    hide Recorded, PutAll, Fanned, LastPos, Relayed;
    var h, r := Relayed1(len, g, c, s, frames), g.resumes[c];
    var rpos := h.resumes[c].rpos;
    assert rpos == Observe(r.rpos, s, LastPos(Relayed(frames)));
    CountedAll(rpos.Keys, sources);
    forall t | t in g.pos
      ensures t in rpos && rpos[t] == g.pos[t] <==> Recorded(r, s, frames, t, g.pos[t])
    {
      RecordedIff(r, s, frames, t, g.pos[t]);
    }
    if forall t :: t in sources ==> CaughtUp(g, r, s, frames, t) {
      assert forall t :: t in sources ==> t in rpos.Keys;
    }
  }

  /** After a resume batch a member rides the shared fan-out if and only if it has caught up with every source. */
  lemma MigratesIff(len: Body -> nat, g: GroupState, c: Conn, s: Shard, frames: seq<Frame>, sources: set<Shard>)
    requires Consistent(g) && s in sources && c !in g.members
    requires c in g.resumes ==> g.resumes[c].rpos.Keys <= sources
    ensures var g' := ResumeBatch(len, g, c, s, frames, |sources|);
            && (c in g'.members <==> CaughtUpEverywhere(g, c, s, frames, sources))
            && (c in g'.resumes <==> c in g.resumes && c !in g'.members)
  {
    hide Converged, CaughtUp, Relayed1, LastPos, Relayed, PutAll, Fanned;
    ResumeBatchServes(len, g, c, s, frames, |sources|);
    if c in g.resumes {
      ConvergedIff(g, c, s, frames, sources, len);
    }
  }

  /** In every reachable state, with any number of sources, a batch of a dial moves its member exactly then. */
  lemma MigratesInRunIff(env: Env, worlds: seq<World>, actions: seq<Action>, c: Conn, s: Shard, frames: seq<Frame>)
    requires IsRun(env, worlds, actions) && c !in Last(worlds).g.members
    requires Consistent(Last(worlds).g) && Enabled(env, Last(worlds), DialBatch(c, s, frames))
    ensures var w := Last(worlds);
            var w' := Next(env, w, DialBatch(c, s, frames));
            c in w'.g.members <==> CaughtUpEverywhere(w.g, c, s, frames, env.sources)
  {
    var w := Last(worlds);
    hide CaughtUpEverywhere, ResumeBatch, IsRun, Consistent;
    assert s in env.sources;
    RunInvariant(env, worlds, actions);
    RecordsOnlySources(env, w, c);
    GroupAfterDial(env, w, c, s, frames);
    MigratesIff(env.encodedLen, w.g, c, s, frames, env.sources);
  }

  lemma RecordsOnlySources(env: Env, w: World, c: Conn)
    requires Inv(env, w)
    ensures c in w.g.resumes ==> w.g.resumes[c].rpos.Keys <= env.sources
  {
    hide PosInv;
  }
}
