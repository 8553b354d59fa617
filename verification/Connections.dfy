/** Which dials are up and which joins still wait to be greeted, read off the actions of a run. */
module Connections {
  import opened Prelude
  import opened Fanout
  import opened EngineFeed
  import opened ResumeProtocol
  import opened ResumeExactlyOnce

  /** The hub hangs up on the dial: its batch meets a stalled member, or one that no longer resumes. */
  predicate HangsUp(w: World, a: Action, c: Conn, s: Shard) {
    && a.DialBatch? && a.c == c && a.s == s && a.frames != []
    && (c !in w.g.resumes || (c in w.g.queues && |w.g.queues[c].items| >= 64))
  }

  predicate Dials(a: Action, c: Conn, s: Shard) {
    a.DialUp? && a.c == c && a.s == s
  }

  /** The dial of c on s was made at step i and neither lost nor hung up on since. */
  ghost predicate DialledAt(worlds: seq<World>, actions: seq<Action>, c: Conn, s: Shard, i: nat)
    requires |actions| <= |worlds|
  {
    && i < |actions| && Dials(actions[i], c, s)
    && forall j :: i < j < |actions| ==> actions[j] != DialDown(c, s) && !HangsUp(worlds[j], actions[j], c, s)
  }

  lemma DialStep(env: Env, w: World, a: Action, w': World, c: Conn, s: Shard)
    requires IsStep(env, w, a, w')
    ensures w'.dialAt(c, s).Some? <==>
            Dials(a, c, s) || (w.dialAt(c, s).Some? && a != DialDown(c, s) && !HangsUp(w, a, c, s))
  {
    assert w'.dialAt(c, s) == DialAtAfter(env, w, a, c, s);
  }

  /** Over every run a dial is up exactly when it was made and neither lost nor hung up on since. */
  lemma {:induction false} DialIsUpIff(env: Env, worlds: seq<World>, actions: seq<Action>, c: Conn, s: Shard)
    requires IsRun(env, worlds, actions)
    ensures Last(worlds).dialAt(c, s).Some? <==> exists i: nat :: DialledAt(worlds, actions, c, s, i)
    decreases |actions|
  {
    if actions != [] {
      var before, front, n := Init(worlds), Init(actions), |actions| - 1;
      PrefixRun(env, worlds, actions);
      DialIsUpIff(env, before, front, c, s);
      DialStep(env, worlds[n], actions[n], Last(worlds), c, s);
      hide IsRun, IsStep, HangsUp, Dials;
      DialledMore(worlds, actions, c, s);
    }
  }

  lemma DialledMore(worlds: seq<World>, actions: seq<Action>, c: Conn, s: Shard)
    requires |worlds| == |actions| + 1 && actions != []
    ensures var w, a := worlds[|actions| - 1], Last(actions);
            (exists i: nat :: DialledAt(worlds, actions, c, s, i)) <==>
              Dials(a, c, s) || ((exists i: nat :: DialledAt(Init(worlds), Init(actions), c, s, i)) &&
                                 a != DialDown(c, s) && !HangsUp(w, a, c, s))
  {
    hide Dials, HangsUp;
    var before, front, n := Init(worlds), Init(actions), |actions| - 1;
    assert DialledAt(worlds, actions, c, s, n) <==> Dials(actions[n], c, s);
    forall i: nat | i < n
      ensures DialledAt(worlds, actions, c, s, i) <==>
              DialledAt(before, front, c, s, i) && actions[n] != DialDown(c, s) && !HangsUp(worlds[n], actions[n], c, s)
    {
    }
  }

  /** A join's greeting: the joining thread comes round when there is a preamble. */
  predicate Greets(w: World, a: Action, c: Conn) {
    a == JoinPreamble(c) && w.g.provider.Some?
  }

  ghost predicate WaitsSince(worlds: seq<World>, actions: seq<Action>, c: Conn, i: nat)
    requires |actions| <= |worlds|
  {
    && i < |actions| && actions[i] == Join(c)
    && forall j :: i < j < |actions| ==> !Greets(worlds[j], actions[j], c)
  }

  lemma WaitStep(env: Env, w: World, a: Action, w': World, c: Conn)
    requires IsStep(env, w, a, w')
    ensures c in w'.waiting <==> a == Join(c) || (c in w.waiting && !Greets(w, a, c))
  {
    assert w'.waiting == WaitingAfter(w, a);
  }

  /** Over every run a join waits for its greeting exactly until it first comes round to a preamble. */
  lemma {:induction false} WaitsIff(env: Env, worlds: seq<World>, actions: seq<Action>, c: Conn)
    requires IsRun(env, worlds, actions)
    ensures c in Last(worlds).waiting <==> exists i: nat :: WaitsSince(worlds, actions, c, i)
    decreases |actions|
  {
    if actions != [] {
      var before, front, n := Init(worlds), Init(actions), |actions| - 1;
      PrefixRun(env, worlds, actions);
      WaitsIff(env, before, front, c);
      WaitStep(env, worlds[n], actions[n], Last(worlds), c);
      hide IsRun, IsStep, Greets;
      WaitsMore(worlds, actions, c);
    }
  }

  lemma WaitsMore(worlds: seq<World>, actions: seq<Action>, c: Conn)
    requires |worlds| == |actions| + 1 && actions != []
    ensures var w, a := worlds[|actions| - 1], Last(actions);
            (exists i: nat :: WaitsSince(worlds, actions, c, i)) <==>
              a == Join(c) || ((exists i: nat :: WaitsSince(Init(worlds), Init(actions), c, i)) && !Greets(w, a, c))
  {
    hide Greets;
    var before, front, n := Init(worlds), Init(actions), |actions| - 1;
    assert WaitsSince(worlds, actions, c, n) <==> actions[n] == Join(c);
    forall i: nat | i < n
      ensures WaitsSince(worlds, actions, c, i) <==>
              WaitsSince(before, front, c, i) && !Greets(worlds[n], actions[n], c)
    {
    }
  }
}
