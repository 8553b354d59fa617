/** The engine's global bus: it numbers every emitted event once, and its tap frames them for the replay buffer. */
module EventBuses {
  import opened Prelude
  import opened ReplayBuffers

  const MIRROR_WINDOW := 256

  /** An emitted payload: an ordinary event, or a sync copy that names the event it mirrors. */
  datatype Payload = Ordinary | SyncOf(source: Option<string>)

  /** A remembered payload id; the table keeps the order in which ids first came. */
  datatype Mirror = Mirror(id: string, number: nat)

  function Lookup(mirrors: seq<Mirror>, id: string): (r: Option<nat>)
    ensures r.Some? ==> Mirror(id, r.value) in mirrors
  {
    if mirrors == [] then None
    else if mirrors[0].id == id then Some(mirrors[0].number)
    else Lookup(mirrors[1..], id)
  }

  /** Sets an id in its place, or at the end when it is new. */
  function Remember(mirrors: seq<Mirror>, m: Mirror): (r: seq<Mirror>)
    ensures forall x :: x in r ==> x in mirrors || x == m
  {
    if mirrors == [] then [m]
    else if mirrors[0].id == m.id then [m] + mirrors[1..]
    else [mirrors[0]] + Remember(mirrors[1..], m)
  }

  lemma {:induction false} RememberedIsFound(mirrors: seq<Mirror>, m: Mirror, id: string)
    ensures Lookup(Remember(mirrors, m), id) == if id == m.id then Some(m.number) else Lookup(mirrors, id)
  {
    if mirrors != [] && mirrors[0].id != m.id {
      RememberedIsFound(mirrors[1..], m, id);
    }
  }

  /** A new id goes to the end; only then does the table grow. */
  lemma {:induction false} RememberGrows(mirrors: seq<Mirror>, m: Mirror)
    ensures Remember(mirrors, m) != []
    ensures |Remember(mirrors, m)| > |mirrors| ==>
            Lookup(mirrors, m.id) == None && Remember(mirrors, m) == mirrors + [m]
    ensures |Remember(mirrors, m)| <= |mirrors| + 1
  {
    if mirrors != [] && mirrors[0].id != m.id {
      RememberGrows(mirrors[1..], m);
    }
  }

  ghost predicate UpTo(mirrors: seq<Mirror>, number: nat) {
    forall m :: m in mirrors ==> m.number <= number
  }

  class GlobalBus {
    var number: nat
    var mirrors: seq<Mirror>
    const replay: ReplayBuffer

    ghost predicate Valid()
      reads this, replay
    {
      replay.Valid() && replay.current == number && UpTo(mirrors, number) && |mirrors| <= MIRROR_WINDOW
    }

    constructor (epoch: string, maxBytes: int, maxAge: int)
      ensures Valid() && number == 0 && fresh(replay) && replay.log == [] && replay.listeners == map[]
    {
      number, mirrors := 0, [];
      replay := new ReplayBuffer(epoch, maxBytes, maxAge, 0);
    }

    /** A sync copy takes the number of the event it mirrors while that is remembered; anything else a new one. */
    method Sequence(payload: Payload, id: Option<string>) returns (n: nat)
      requires UpTo(mirrors, number)
      modifies this
      ensures UpTo(mirrors, number)
      ensures |old(mirrors)| <= MIRROR_WINDOW ==> |mirrors| <= MIRROR_WINDOW
      ensures payload.Ordinary? && id.Some? && |old(mirrors)| <= MIRROR_WINDOW ==> Lookup(mirrors, id.value) == Some(n)
      ensures payload.SyncOf? ==> mirrors == old(mirrors)
      ensures if payload.SyncOf? && payload.source.Some? && Lookup(old(mirrors), payload.source.value).Some?
              then n <= number == old(number) && Lookup(old(mirrors), payload.source.value) == Some(n)
              else n == number == old(number) + 1
    {
      if payload.SyncOf? {
        if payload.source.Some? {
          var source := Lookup(mirrors, payload.source.value);
          if source.Some? { return source.value; }
        }
        number := number + 1;
        return number;
      }
      number := number + 1;
      if id.Some? {
        RememberedIsFound(mirrors, Mirror(id.value, number), id.value);
        RememberGrows(mirrors, Mirror(id.value, number));
        ghost var before := mirrors;
        mirrors := Remember(mirrors, Mirror(id.value, number));
        if |mirrors| > MIRROR_WINDOW {
          assert |before| <= MIRROR_WINDOW ==> mirrors[0] == before[0] && before[0].id != id.value;
          mirrors := mirrors[1..];
        }
      }
      return number;
    }

    /**
      Emit: number the event, then frame it. `size` is None when the event cannot be serialized, which leaves a
      hole in the numbers. Every subscription hears the frame.
     */
    method Emit(event: BusEvent, payload: Payload, size: Option<nat>, now: int) returns (n: nat)
      requires Valid()
      modifies this, replay
      ensures Valid() && old(number) <= number <= old(number) + 1 && n <= number
      ensures (payload.Ordinary? || n > old(number)) ==> n == number == old(number) + 1
      ensures payload.Ordinary? && event.id.Some? ==> Lookup(mirrors, event.id.value) == Some(n)
      ensures payload.SyncOf? ==>
                && mirrors == old(mirrors)
                && (payload.source.Some? && Lookup(old(mirrors), payload.source.value).Some? ==>
                      Lookup(old(mirrors), payload.source.value) == Some(n) && number == old(number))
      ensures match size
              case None => replay.log == old(replay.log) && replay.listeners == old(replay.listeners)
              case Some(k) =>
                && replay.log == old(replay.log) + [BusFrame(n, event, k, now, |old(replay.log)| + 1, n <= old(number))]
                && Told(old(replay.listeners), replay.listeners, Last(replay.log))
    {
      n := Sequence(payload, event.id);
      var syncCopy := payload.SyncOf? && n <= replay.current;
      if size.None? {
        replay.Skip(n);
      } else {
        replay.Push(n, event, size.value, syncCopy, now);
      }
    }
  }

  /** A sync copy that follows its source at once mirrors it: it is framed under the source's number as a copy. */
  method EmitWithCopy(bus: GlobalBus, event: BusEvent, copy: BusEvent, size: nat, now: int) returns (n: nat)
    requires bus.Valid() && event.id.Some?
    modifies bus, bus.replay
    ensures bus.Valid() && bus.number == n == old(bus.number) + 1
    ensures |bus.replay.log| == |old(bus.replay.log)| + 2
    ensures var source, mirror := bus.replay.log[|bus.replay.log| - 2], Last(bus.replay.log);
            && source.number == mirror.number == n && !source.syncCopy && mirror.syncCopy
            && source.event == event && mirror.event == copy
  {
    n := bus.Emit(event, Ordinary, Some(size), now);
    var m := bus.Emit(copy, SyncOf(event.id), Some(size), now);
    assert m == n;
  }
}
