/** The coordination service: claims with expiring leases, and a results table that settles work for good. */
module LeaseService {
  import opened Prelude

  type WorkId = string
  type Agent = string

  datatype Outcome = Claimed | Solved | Failed | Abandoned

  datatype ClaimRequest = ClaimRequest(workId: WorkId, agent: Agent, user: string, org: string, host: string)

  /** A live claim; times are milliseconds. */
  datatype Lease = Lease(req: ClaimRequest, issued: int, expires: int, outcome: Outcome)

  datatype WorkResult = WorkResult(agree: bool, fidelity: real, pointer: string)

  datatype Service = Service(claims: map<WorkId, Lease>, results: map<WorkId, WorkResult>)

  datatype Answer =
    | Dedup(pointer: string)
    | Conflict(holder: Lease)
    | Granted(lease: Lease)
    | BadDate

  /** A Date holds at most 8.64e15 milliseconds either way; toISOString throws beyond that. */
  predicate Representable(ms: int) {
    -8_640_000_000_000_000 <= ms <= 8_640_000_000_000_000
  }

  predicate Verified(s: Service, w: WorkId) {
    w in s.results && s.results[w].agree
  }

  /** preflight; the clock reads `t` for the lapse test and `u` for the new lease. */
  function Preflight(s: Service, req: ClaimRequest, ttl: int, t: int, u: int): (Service, Answer) {
    var w := req.workId;
    if Verified(s, w) then (s, Dedup(s.results[w].pointer))
    else if w in s.claims && t < s.claims[w].expires then (s, Conflict(s.claims[w]))
    else if !Representable(u + ttl) then (s, BadDate)
    else
      var lease := Lease(req, t, u + ttl, Claimed);
      (s.(claims := s.claims[w := lease]), Granted(lease))
  }

  /** heartbeat extends (or shortens) only an unlapsed claim of the same agent; None leaves everything alone. */
  function Heartbeat(s: Service, w: WorkId, agent: Agent, ttl: int, t: int, u: int): (Service, Option<Lease>) {
    if w in s.claims && s.claims[w].req.agent == agent && t < s.claims[w].expires && Representable(u + ttl) then
      var lease := s.claims[w].(expires := u + ttl);
      (s.(claims := s.claims[w := lease]), Some(lease))
    else (s, None)
  }

  /** release records an outcome; the lease keeps running. */
  function Release(s: Service, w: WorkId, agent: Agent, outcome: Outcome): Service {
    if w in s.claims && s.claims[w].req.agent == agent then
      s.(claims := s.claims[w := s.claims[w].(outcome := outcome)])
    else s
  }

  function Publish(s: Service, w: WorkId, r: WorkResult): Service {
    if w in s.results && s.results[w].fidelity >= r.fidelity then s
    else s.(results := s.results[w := r])
  }

  // ---- the service object ---------------------------------------------------------------------------

  /** A claim record; heartbeat and release rewrite it in place. */
  class Claim {
    const req: ClaimRequest
    const issued: int
    var expires: int
    var outcome: Outcome

    constructor (req: ClaimRequest, issued: int, expires: int)
      ensures this.req == req && this.issued == issued && this.expires == expires && outcome == Claimed
    {
      this.req, this.issued, this.expires, outcome := req, issued, expires, Claimed;
    }

    function View(): Lease
      reads this
    {
      Lease(req, issued, expires, outcome)
    }
  }

  class CoordinationService {
    var claims: map<WorkId, Claim>
    var results: map<WorkId, WorkResult>

    /** Each entry is an object of its own. */
    ghost predicate Valid()
      reads this
    {
      forall v, w :: v in claims && w in claims && claims[v] == claims[w] ==> v == w
    }

    ghost function View(): Service
      reads this, claims.Values
    {
      Service(map w | w in claims :: claims[w].View(), results)
    }

    constructor ()
      ensures Valid() && View() == Service(map[], map[])
    {
      claims, results := map[], map[];
    }

    method PreflightCall(req: ClaimRequest, ttl: int, t: int, u: int) returns (answer: Answer)
      requires Valid()
      modifies this
      ensures Valid()
      ensures (View(), answer) == Preflight(old(View()), req, ttl, t, u)
    {
      var w := req.workId;
      if w in results && results[w].agree { return Dedup(results[w].pointer); }
      if w in claims && t < claims[w].expires { return Conflict(claims[w].View()); }
      if !Representable(u + ttl) { return BadDate; }
      var claim := new Claim(req, t, u + ttl);
      claims := claims[w := claim];
      answer := Granted(claim.View());
      assert View().claims == old(View()).claims[w := claim.View()];
    }

    method HeartbeatCall(w: WorkId, agent: Agent, ttl: int, t: int, u: int) returns (reply: Option<Lease>)
      requires Valid()
      modifies claims.Values
      ensures Valid()
      ensures (View(), reply) == Heartbeat(old(View()), w, agent, ttl, t, u)
    {
      if w !in claims || claims[w].req.agent != agent || claims[w].expires <= t { return None; }
      if !Representable(u + ttl) { return None; }
      var c := claims[w];
      c.expires := u + ttl;
      reply := Some(c.View());
      assert View().claims == old(View()).claims[w := c.View()];
    }

    method ReleaseCall(w: WorkId, agent: Agent, outcome: Outcome)
      requires Valid()
      modifies claims.Values
      ensures Valid()
      ensures View() == Release(old(View()), w, agent, outcome)
    {
      if w in claims && claims[w].req.agent == agent {
        var c := claims[w];
        c.outcome := outcome;
        assert View().claims == old(View()).claims[w := c.View()];
      }
    }

    method PublishCall(w: WorkId, r: WorkResult)
      requires Valid()
      modifies this
      ensures Valid()
      ensures View() == Publish(old(View()), w, r)
    {
      if w in results && results[w].fidelity >= r.fidelity { return; }
      results := results[w := r];
    }
  }

  // ---- runs -----------------------------------------------------------------------------------------

  datatype Event =
    | Ask(req: ClaimRequest, ttl: int, t: int, u: int)
    | Beat(w: WorkId, agent: Agent, ttl: int, t: int, u: int)
    | Let(w: WorkId, agent: Agent, outcome: Outcome)
    | Post(w: WorkId, r: WorkResult)

  function Apply(s: Service, e: Event): Service {
    match e
    case Ask(req, ttl, t, u) => Preflight(s, req, ttl, t, u).0
    case Beat(w, agent, ttl, t, u) => Heartbeat(s, w, agent, ttl, t, u).0
    case Let(w, agent, outcome) => Release(s, w, agent, outcome)
    case Post(w, r) => Publish(s, w, r)
  }

  function After(es: seq<Event>): Service
    decreases |es|
  {
    if es == [] then Service(map[], map[]) else Apply(After(Init(es)), Last(es))
  }

  /** What an agent is told when it gets or extends the lease on `w`: seen at `seen`, good until `expires`. */
  datatype Reply = Reply(agent: Agent, granted: bool, seen: int, expires: int)

  function ReplyTo(s: Service, e: Event, w: WorkId): (r: Option<Reply>) {
    match e
    case Ask(req, ttl, t, u) =>
      var a := Preflight(s, req, ttl, t, u).1;
      if req.workId == w && a.Granted? then Some(Reply(req.agent, true, t, a.lease.expires)) else None
    case Beat(v, agent, ttl, t, u) =>
      var a := Heartbeat(s, v, agent, ttl, t, u).1;
      if v == w && a.Some? then Some(Reply(agent, false, t, a.value.expires)) else None
    case _ => None
  }

  /** Every grant and extension of the lease on `w`, in order. */
  function Replies(es: seq<Event>, w: WorkId): seq<Reply>
    decreases |es|
  {
    if es == [] then []
    else
      match ReplyTo(After(Init(es)), Last(es), w)
      case None => Replies(Init(es), w)
      case Some(r) => Replies(Init(es), w) + [r]
  }

  predicate Clocked(e: Event) { e.Ask? || e.Beat? }

  /** The service's clock never goes back between requests. */
  ghost predicate MonotoneClock(es: seq<Event>) {
    forall i, j :: 0 <= i < j < |es| && Clocked(es[i]) && Clocked(es[j]) ==> es[i].t <= es[j].t
  }

  /** A grant comes at or after the end of the lease before it; an extension is the holder's own, before its end. */
  ghost predicate FollowsOn(prev: Reply, next: Reply) {
    if next.granted then prev.expires <= next.seen
    else next.agent == prev.agent && next.seen < prev.expires
  }

  ghost predicate Tenures(rs: seq<Reply>) {
    && (rs != [] ==> rs[0].granted)
    && forall k :: 0 < k < |rs| ==> FollowsOn(rs[k - 1], rs[k])
  }

  ghost predicate LedgerMatches(s: Service, rs: seq<Reply>, w: WorkId) {
    if rs == [] then w !in s.claims
    else w in s.claims && s.claims[w].req.agent == Last(rs).agent && s.claims[w].expires == Last(rs).expires
  }

  lemma OneEvent(s: Service, e: Event, w: WorkId, rs: seq<Reply>)
    requires LedgerMatches(s, rs, w)
    ensures match ReplyTo(s, e, w)
            case None => LedgerMatches(Apply(s, e), rs, w)
            case Some(r) => LedgerMatches(Apply(s, e), rs + [r], w) && Clocked(e) && r.seen == e.t
                            && (if rs == [] then r.granted else FollowsOn(Last(rs), r))
  {
  }

  /**
    Over every run, the leases on a piece of work follow each other: only the holder extends, only before its
    lease ends, and only at or after that end is there another grant. Releasing does not shorten a lease.
   */
  lemma {:induction false} LeasesFollowEachOther(es: seq<Event>, w: WorkId)
    ensures Tenures(Replies(es, w)) && LedgerMatches(After(es), Replies(es, w), w)
    decreases |es|
  {
    if es != [] {
      LeasesFollowEachOther(Init(es), w);
      OneEvent(After(Init(es)), Last(es), w, Replies(Init(es), w));
      hide LedgerMatches, FollowsOn;
    }
  }

  lemma {:induction false} RepliesInTime(es: seq<Event>, w: WorkId)
    requires MonotoneClock(es)
    ensures var rs := Replies(es, w);
            forall j, k :: 0 <= j < k < |rs| ==> rs[j].seen <= rs[k].seen
    ensures forall k :: 0 <= k < |Replies(es, w)| ==>
              exists i :: 0 <= i < |es| && Clocked(es[i]) && es[i].t == Replies(es, w)[k].seen
    decreases |es|
  {
    if es != [] {
      var n := |es| - 1;
      RepliesInTime(Init(es), w);
      LeasesFollowEachOther(Init(es), w);
      OneEvent(After(Init(es)), Last(es), w, Replies(Init(es), w));
      hide After, ReplyTo;
      var rs, before := Replies(es, w), Replies(Init(es), w);
      forall k | 0 <= k < |before|
        ensures exists i :: 0 <= i < |es| && Clocked(es[i]) && es[i].t == before[k].seen
        ensures Clocked(es[n]) ==> before[k].seen <= es[n].t
      {
        var i :| 0 <= i < |Init(es)| && Clocked(Init(es)[i]) && Init(es)[i].t == before[k].seen;
        assert es[i] == Init(es)[i];
      }
    }
  }

  /** The last thing `agent` was told about `w` is still good at `now`. */
  ghost predicate BelievesItHolds(es: seq<Event>, w: WorkId, agent: Agent, now: int) {
    var rs := Replies(es, w);
    exists k :: 0 <= k < |rs| && rs[k].agent == agent && now < rs[k].expires
                && forall j :: k < j < |rs| ==> rs[j].agent != agent
  }

  /** The last answer to an agent has expired by the time another agent is answered. */
  lemma LastAnswerHasExpired(es: seq<Event>, w: WorkId, i: nat, k: nat)
    requires MonotoneClock(es) && i < k < |Replies(es, w)|
    requires forall j :: i < j < |Replies(es, w)| ==> Replies(es, w)[j].agent != Replies(es, w)[i].agent
    ensures Replies(es, w)[i].expires <= Replies(es, w)[k].seen
    ensures exists at :: 0 <= at < |es| && Clocked(es[at]) && es[at].t == Replies(es, w)[k].seen
  {
    LeasesFollowEachOther(es, w);
    RepliesInTime(es, w);
    hide Replies, After, MonotoneClock;
    var rs := Replies(es, w);
    assert FollowsOn(rs[i + 1 - 1], rs[i + 1]);
    assert rs[i + 1].seen <= rs[k].seen;
  }

  /**
    Lease exclusion: at no time do two agents both hold, on the strength of the last answer each was given,
    a lease on the same work.
   */
  lemma AtMostOneHolder(es: seq<Event>, w: WorkId, a: Agent, b: Agent, now: int)
    requires MonotoneClock(es) && a != b
    requires forall i :: 0 <= i < |es| && Clocked(es[i]) ==> es[i].t <= now
    ensures !(BelievesItHolds(es, w, a, now) && BelievesItHolds(es, w, b, now))
  {
    hide Replies, After, MonotoneClock;
    var rs := Replies(es, w);
    forall i, k | 0 <= i < |rs| && 0 <= k < |rs| && i != k
                  && (forall j :: i < j < |rs| ==> rs[j].agent != rs[i].agent)
                  && (forall j :: k < j < |rs| ==> rs[j].agent != rs[k].agent)
      ensures rs[i].expires <= now || rs[k].expires <= now
    {
      if i < k {
        LastAnswerHasExpired(es, w, i, k);
      } else {
        LastAnswerHasExpired(es, w, k, i);
      }
    }
  }

  // ---- results --------------------------------------------------------------------------------------

  /** The results posted for `w`, in order. */
  function Posts(es: seq<Event>, w: WorkId): seq<WorkResult>
    decreases |es|
  {
    if es == [] then []
    else if Last(es).Post? && Last(es).w == w then Posts(Init(es), w) + [Last(es).r]
    else Posts(Init(es), w)
  }

  /** `r` is the first post that no post beats on fidelity. */
  ghost predicate IsFirstBest(posts: seq<WorkResult>, r: WorkResult) {
    exists k :: 0 <= k < |posts| && posts[k] == r && forall j :: 0 <= j < |posts| ==>
      posts[j].fidelity <= r.fidelity && (j < k ==> posts[j].fidelity < r.fidelity)
  }

  /**
    What the table holds depends only on the posts: the earliest of those with the highest fidelity ever
    posted, and nothing exactly when nothing was posted.
   */
  lemma {:induction false} StoredIsFirstBest(es: seq<Event>, w: WorkId)
    ensures w in After(es).results <==> Posts(es, w) != []
    ensures w in After(es).results ==> IsFirstBest(Posts(es, w), After(es).results[w])
    decreases |es|
  {
    if es != [] {
      var s, e, posts := After(Init(es)), Last(es), Posts(Init(es), w);
      StoredIsFirstBest(Init(es), w);
      hide After, Posts;
      AfterStep(es, w);
      if e.Post? && e.w == w {
        PostStep(s, w, e.r, posts);
      }
    }
  }

  lemma ApplyToResults(s: Service, e: Event, w: WorkId)
    ensures if e.Post? && e.w == w then Apply(s, e) == Publish(s, w, e.r)
            else (w in Apply(s, e).results <==> w in s.results)
                 && (w in s.results ==> Apply(s, e).results[w] == s.results[w])
  {
  }

  lemma AfterStep(es: seq<Event>, w: WorkId)
    requires es != []
    ensures var (s, e) := (After(Init(es)), Last(es));
            if e.Post? && e.w == w then
              After(es) == Publish(s, w, e.r) && Posts(es, w) == Posts(Init(es), w) + [e.r]
            else
              Posts(es, w) == Posts(Init(es), w) && (w in After(es).results <==> w in s.results)
              && (w in s.results ==> After(es).results[w] == s.results[w])
  {
    hide Apply;
    ApplyToResults(After(Init(es)), Last(es), w);
  }

  lemma PostStep(s: Service, w: WorkId, r: WorkResult, posts: seq<WorkResult>)
    requires w in s.results <==> posts != []
    requires w in s.results ==> IsFirstBest(posts, s.results[w])
    ensures IsFirstBest(posts + [r], Publish(s, w, r).results[w])
  {
    var all, stored := posts + [r], Publish(s, w, r).results[w];
    if w in s.results {
      var k :| 0 <= k < |posts| && posts[k] == s.results[w] && forall j :: 0 <= j < |posts| ==>
        posts[j].fidelity <= s.results[w].fidelity && (j < k ==> posts[j].fidelity < s.results[w].fidelity);
      var k' := if s.results[w].fidelity >= r.fidelity then k else |posts|;
      assert all[k'] == stored;
    } else {
      assert all[|posts|] == stored;
    }
  }

  /** No lease is granted while the stored result is verified, and none while a lease runs. */
  lemma GrantsNeedOpenWork(es: seq<Event>, i: nat)
    requires i < |es| && es[i].Ask?
    ensures var (s, e) := (After(es[..i]), es[i]);
            ReplyTo(s, e, e.req.workId).Some? <==>
              && !Verified(s, e.req.workId)
              && (e.req.workId in s.claims ==> s.claims[e.req.workId].expires <= e.t)
              && Representable(e.u + e.ttl)
  {
  }

  // ---- answers, from the history alone ------------------------------------------------------------------

  /** By the posts so far the work is settled: the best of them, first come first served, agrees. */
  ghost predicate Settled(posts: seq<WorkResult>, pointer: string) {
    exists r :: IsFirstBest(posts, r) && r.agree && r.pointer == pointer
  }

  lemma FirstBestIsOne(posts: seq<WorkResult>, a: WorkResult, b: WorkResult)
    requires IsFirstBest(posts, a) && IsFirstBest(posts, b)
    ensures a == b
  {
    var i :| 0 <= i < |posts| && posts[i] == a && forall j :: 0 <= j < |posts| ==>
      posts[j].fidelity <= a.fidelity && (j < i ==> posts[j].fidelity < a.fidelity);
    var k :| 0 <= k < |posts| && posts[k] == b && forall j :: 0 <= j < |posts| ==>
      posts[j].fidelity <= b.fidelity && (j < k ==> posts[j].fidelity < b.fidelity);
    assert posts[i].fidelity <= b.fidelity && posts[k].fidelity <= a.fidelity;
    assert !(i < k) && !(k < i);
  }

  lemma SettledIff(es: seq<Event>, w: WorkId, pointer: string)
    ensures Settled(Posts(es, w), pointer) <==>
            var s := After(es); w in s.results && s.results[w].agree && s.results[w].pointer == pointer
  {
    hide After, IsFirstBest;
    StoredIsFirstBest(es, w);
    var posts, s := Posts(es, w), After(es);
    if r :| IsFirstBest(posts, r) && r.agree && r.pointer == pointer {
      NoneIsBest(posts, r);
      FirstBestIsOne(posts, r, s.results[w]);
    }
  }

  lemma NoneIsBest(posts: seq<WorkResult>, r: WorkResult)
    requires IsFirstBest(posts, r)
    ensures posts != []
  {
  }

  /** By the replies so far a lease on the work runs at t. */
  predicate Running(rs: seq<Reply>, t: int) {
    rs != [] && t < Last(rs).expires
  }

  lemma AskOnTable(s: Service, rs: seq<Reply>, req: ClaimRequest, ttl: int, t: int, u: int)
    requires LedgerMatches(s, rs, req.workId)
    ensures var w, a := req.workId, Preflight(s, req, ttl, t, u).1;
            && (a.Dedup? <==> Verified(s, w)) && (a.Dedup? ==> a.pointer == s.results[w].pointer)
            && (a.Conflict? <==> !Verified(s, w) && Running(rs, t))
            && (a.Conflict? ==> a.holder.req.agent == Last(rs).agent && a.holder.expires == Last(rs).expires)
            && (a.Granted? <==> !Verified(s, w) && !Running(rs, t) && -8640000000000000 <= u + ttl <= 8640000000000000)
            && (a.Granted? ==> a.lease == Lease(req, t, u + ttl, Claimed))
  {
  }

  ghost predicate SomehowSettled(posts: seq<WorkResult>) {
    exists p :: Settled(posts, p)
  }

  /**
    How a request is answered: settled work is named, running work belongs to whoever was last told so, and
    else the asker gets a lease of its own from now until its time has passed, if that is a date.
   */
  lemma AskIsAnswered(es: seq<Event>, req: ClaimRequest, ttl: int, t: int, u: int)
    ensures var rs, posts := Replies(es, req.workId), Posts(es, req.workId);
            var a := Preflight(After(es), req, ttl, t, u).1;
            && (a.Dedup? <==> SomehowSettled(posts)) && (a.Dedup? ==> Settled(posts, a.pointer))
            && (a.Conflict? <==> !SomehowSettled(posts) && Running(rs, t))
            && (a.Conflict? ==> a.holder.req.agent == Last(rs).agent && a.holder.expires == Last(rs).expires)
            && (a.Granted? <==>
                  !SomehowSettled(posts) && !Running(rs, t) && -8640000000000000 <= u + ttl <= 8640000000000000)
            && (a.Granted? ==> a.lease == Lease(req, t, u + ttl, Claimed))
  {
    hide After, Posts, Replies, Settled, Preflight, LedgerMatches;
    var w, s := req.workId, After(es);
    LeasesFollowEachOther(es, w);
    AskOnTable(s, Replies(es, w), req, ttl, t, u);
    forall p
      ensures Settled(Posts(es, w), p) <==> Verified(s, w) && s.results[w].pointer == p
    {
      SettledIff(es, w, p);
    }
    assert Verified(s, w) ==> Settled(Posts(es, w), s.results[w].pointer);
  }

  /** What a grant adds to the history, for this work and for no other. */
  lemma AskIsRecorded(es: seq<Event>, req: ClaimRequest, ttl: int, t: int, u: int, v: WorkId)
    ensures var a := Preflight(After(es), req, ttl, t, u).1;
            Replies(es + [Ask(req, ttl, t, u)], v) ==
              (if v == req.workId && a.Granted? then Replies(es, v) + [Reply(req.agent, true, t, u + ttl)] else Replies(es, v))
  {
    assert Init(es + [Ask(req, ttl, t, u)]) == es;
  }

  /** A heartbeat moves the end of a running lease of the same agent to `ttl` from now, and no other lease. */
  lemma BeatIsAnswered(es: seq<Event>, w: WorkId, agent: Agent, ttl: int, t: int, u: int)
    ensures var rs := Replies(es, w);
            var moved := Running(rs, t) && Last(rs).agent == agent && -8640000000000000 <= u + ttl <= 8640000000000000;
            && Replies(es + [Beat(w, agent, ttl, t, u)], w) ==
                 (if moved then rs + [Reply(agent, false, t, u + ttl)] else rs)
            && (!moved ==> After(es + [Beat(w, agent, ttl, t, u)]) == After(es))
            && forall v :: v != w ==> Replies(es + [Beat(w, agent, ttl, t, u)], v) == Replies(es, v)
  {
    assert Init(es + [Beat(w, agent, ttl, t, u)]) == es;
    LeasesFollowEachOther(es, w);
  }

  /** Releasing records the outcome on the agent's own claim; no lease ends or moves, no result changes. */
  lemma ReleaseIsRecorded(es: seq<Event>, w: WorkId, agent: Agent, outcome: Outcome)
    ensures var s, s' := After(es), After(es + [Let(w, agent, outcome)]);
            && s'.claims.Keys == s.claims.Keys && s'.results == s.results
            && (forall v :: v in s.claims ==>
                  if v == w && s.claims[v].req.agent == agent then
                    && s'.claims[v].outcome == outcome && s'.claims[v].req == s.claims[v].req
                    && s'.claims[v].issued == s.claims[v].issued && s'.claims[v].expires == s.claims[v].expires
                  else s'.claims[v] == s.claims[v])
            && forall v :: Replies(es + [Let(w, agent, outcome)], v) == Replies(es, v)
  {
    assert Init(es + [Let(w, agent, outcome)]) == es;
    hide After;
    assert After(es + [Let(w, agent, outcome)]) == Release(After(es), w, agent, outcome) by { AfterLet(es, w, agent, outcome); }
  }

  lemma AfterLet(es: seq<Event>, w: WorkId, agent: Agent, outcome: Outcome)
    ensures After(es + [Let(w, agent, outcome)]) == Release(After(es), w, agent, outcome)
  {
    assert Init(es + [Let(w, agent, outcome)]) == es;
  }

  /** The post that takes verified work off the books: unverified, at a higher fidelity than what is stored. */
  predicate Unsettles(s: Service, e: Event, w: WorkId) {
    w in s.results && e.Post? && e.w == w && !e.r.agree && e.r.fidelity > s.results[w].fidelity
  }

  /**
    Verified work stays verified up to event n exactly when no unverified result of higher fidelity than the
    one then stored is posted for it. The table does not make "verified" final by itself.
   */
  lemma {:induction false} VerifiedStaysIff(es: seq<Event>, w: WorkId, m: nat, n: nat)
    requires m <= n <= |es| && Verified(After(es[..m]), w)
    ensures (forall i :: m <= i <= n ==> Verified(After(es[..i]), w))
            <==> (forall i :: m <= i < n ==> !Unsettles(After(es[..i]), es[i], w))
    decreases n - m
  {
    hide After, Verified, Unsettles;
    if m < n {
      VerifiedStep(es, w, m);
      if Verified(After(es[..m + 1]), w) {
        VerifiedStaysIff(es, w, m + 1, n);
      }
    }
  }

  lemma VerifiedStep(es: seq<Event>, w: WorkId, i: nat)
    requires i < |es| && Verified(After(es[..i]), w)
    ensures Verified(After(es[..i + 1]), w) <==> !Unsettles(After(es[..i]), es[i], w)
  {
    assert Init(es[..i + 1]) == es[..i] && Last(es[..i + 1]) == es[i];
    AfterStep(es[..i + 1], w);
  }

  /** A lease granted on work that was once verified means such a post came in between. */
  lemma GrantAfterVerified(es: seq<Event>, w: WorkId, m: nat, n: nat)
    requires m <= n < |es| && Verified(After(es[..m]), w)
    requires es[n].Ask? && es[n].req.workId == w && ReplyTo(After(es[..n]), es[n], w).Some?
    ensures exists i :: m <= i < n && Unsettles(After(es[..i]), es[i], w)
  {
    hide After;
    VerifiedStaysIff(es, w, m, n);
    GrantsNeedOpenWork(es, n);
  }

  /** Verified work that is granted again. */
  lemma VerifiedWorkCanBeRegranted(req: ClaimRequest)
    ensures var w := req.workId;
            var es := [Post(w, WorkResult(true, 0.5, "a")), Post(w, WorkResult(false, 0.9, "b")), Ask(req, 1, 0, 0)];
            Verified(After(es[..1]), w) && Replies(es, w) == [Reply(req.agent, true, 0, 1)]
  {
    var w := req.workId;
    var p0, p1, a := Post(w, WorkResult(true, 0.5, "a")), Post(w, WorkResult(false, 0.9, "b")), Ask(req, 1, 0, 0);
    var es := [p0, p1, a];
    assert es[..1] == [p0] && Init([p0]) == [] && Init([p0, p1]) == [p0] && Init(es) == [p0, p1];
    assert After([p0]) == Apply(After([]), p0);
    assert After([p0, p1]) == Apply(After([p0]), p1);
    assert Replies([p0], w) == [] by { assert Replies([], w) == []; }
    assert Replies([p0, p1], w) == [];
  }
}
