/** The engine's replay buffer: recent frames in push order, and the subscriptions that resume from it. */
module ReplayBuffers {
  import opened Prelude
  import opened MemberQueues
  import opened NameOrder

  type EventBody = b: Body | b.Event? || b.Delta? witness Event("")

  /** An emitted event: the instance and workspace it belongs to, its payload id and what it says. */
  datatype BusEvent = BusEvent(directory: Option<string>, workspace: Option<string>, id: Option<string>, body: EventBody)

  /** A sync copy repeats the number of the frame it mirrors; `ordinal` is unique. */
  datatype BusFrame = BusFrame(number: nat, event: BusEvent, bytes: nat, time: int, ordinal: nat, syncCopy: bool)

  /** A cursor as its parser classifies it: none, `<epoch>:<number>`, or any other text. */
  datatype Cursor = Absent | AtPosition(epoch: string, number: nat) | PayloadId(text: string)

  datatype ResetReason = ForeignEpoch | Ahead | Evicted

  /** A registered subscription: what was held back before it started, and what was delivered since. */
  datatype Subscription = Subscription(position: nat, reset: Option<ResetReason>, replay: seq<BusFrame>,
                                       sync: bool, watermark: nat,
                                       started: bool, pending: seq<BusFrame>, delivered: seq<BusFrame>)

  // ---- what a subscription wants ---------------------------------------------------------------------

  predicate Wanted(f: BusFrame, sync: bool) {
    sync || !f.syncCopy
  }

  /** What a subscription wants of `frames` after position n. */
  function After(frames: seq<BusFrame>, n: int, sync: bool): seq<BusFrame>
    decreases |frames|
  {
    if frames == [] then []
    else After(Init(frames), n, sync) + (if Wanted(Last(frames), sync) && Last(frames).number > n then [Last(frames)] else [])
  }

  /** Everything it wants of them. */
  function Wants(frames: seq<BusFrame>, sync: bool): seq<BusFrame> {
    After(frames, -1, sync)
  }

  lemma {:induction false} AfterMembers(frames: seq<BusFrame>, n: int, sync: bool)
    ensures forall f :: f in After(frames, n, sync) <==> f in frames && Wanted(f, sync) && f.number > n
    decreases |frames|
  {
    if frames != [] {
      hide Wanted;
      AfterMembers(Init(frames), n, sync);
      assert frames == Init(frames) + [Last(frames)];
    }
  }

  lemma AfterOneMore(frames: seq<BusFrame>, f: BusFrame, n: int, sync: bool)
    ensures After(frames + [f], n, sync) ==
            After(frames, n, sync) + (if Wanted(f, sync) && f.number > n then [f] else [])
  {
    assert Init(frames + [f]) == frames;
  }

  lemma {:induction false} AfterConcat(a: seq<BusFrame>, b: seq<BusFrame>, n: int, sync: bool)
    ensures After(a + b, n, sync) == After(a, n, sync) + After(b, n, sync)
    decreases |b|
  {
    hide Wanted, After;
    if b == [] {
      assert a + b == a;
      AfterNothing([], n, sync);
    } else {
      AfterConcat(a, Init(b), n, sync);
      AfterOneMore(a + Init(b), Last(b), n, sync);
      AfterOneMore(Init(b), Last(b), n, sync);
      OneMore(a, b);
      assert Init(b) + [Last(b)] == b;
    }
  }

  lemma AfterNothing(frames: seq<BusFrame>, n: int, sync: bool)
    requires forall f :: f in frames && Wanted(f, sync) ==> f.number <= n
    ensures After(frames, n, sync) == []
  {
    hide Wanted;
    AfterMembers(frames, n, sync);
    EmptyTogether(After(frames, n, sync), []);
  }

  /** A later start keeps everything exactly when nothing wanted lies before it; otherwise it keeps less. */
  lemma {:induction false} AfterLater(frames: seq<BusFrame>, m: int, n: int, sync: bool)
    requires m <= n
    ensures |After(frames, n, sync)| <= |After(frames, m, sync)|
    ensures |After(frames, n, sync)| == |After(frames, m, sync)| <==>
            forall f :: f in After(frames, m, sync) ==> f.number > n
    ensures |After(frames, n, sync)| == |After(frames, m, sync)| ==> After(frames, n, sync) == After(frames, m, sync)
    decreases |frames|
  {
    if frames != [] {
      AfterLater(Init(frames), m, n, sync);
      var early, f := After(Init(frames), m, sync), Last(frames);
      if Wanted(f, sync) && f.number > m {
        assert After(frames, m, sync) == early + [f];
        assert f in After(frames, m, sync);
        assert forall g :: g in early ==> g in After(frames, m, sync);
      }
    }
  }

  // ---- the log ----------------------------------------------------------------------------------------

  /** Everything pushed so far: numbered up to `current`, and every frame but a sync copy with a larger number. */
  ghost predicate InOrder(log: seq<BusFrame>, current: nat) {
    && (forall k :: 0 <= k < |log| ==> log[k].ordinal == k + 1 && log[k].number <= current)
    && forall i, j :: 0 <= i < j < |log| && !log[j].syncCopy ==> log[i].number < log[j].number
  }

  /** What a subscription holds, given everything pushed. */
  ghost predicate Serves(s: Subscription, log: seq<BusFrame>) {
    && s.watermark <= |log|
    && s.pending == (if s.started then [] else Wants(log[s.watermark..], s.sync))
    && s.delivered == (if s.started then Wants(log[s.watermark..], s.sync) else [])
    && forall k :: s.watermark <= k < |log| && !log[k].syncCopy ==> log[k].number > s.position
  }

  /** Its replay is all of the log that lay after its position when it subscribed. */
  ghost predicate ReplaysAll(s: Subscription, log: seq<BusFrame>) {
    s.watermark <= |log| && s.replay == After(log[..s.watermark], s.position, s.sync)
  }

  /** The listener of a subscription: held back until it starts, handed on afterwards. */
  function Hear(s: Subscription, f: BusFrame): Subscription {
    if !Wanted(f, s.sync) then s
    else if s.started then s.(delivered := s.delivered + [f])
    else s.(pending := s.pending + [f])
  }

  lemma HearServes(s: Subscription, log: seq<BusFrame>, f: BusFrame)
    requires Serves(s, log) && (f.syncCopy || f.number > s.position)
    ensures Serves(Hear(s, f), log + [f])
  {
    var tail := log[s.watermark..];
    assert (log + [f])[s.watermark..] == tail + [f];
    assert Init(tail + [f]) == tail;
  }

  lemma HearKeepsReplay(s: Subscription, log: seq<BusFrame>, f: BusFrame)
    ensures Hear(s, f).position == s.position
    ensures ReplaysAll(s, log) ==> ReplaysAll(Hear(s, f), log + [f])
  {
    if s.watermark <= |log| {
      assert (log + [f])[..s.watermark] == log[..s.watermark];
    }
  }

  lemma PushedInOrder(log: seq<BusFrame>, current: nat, f: BusFrame, current': nat)
    requires InOrder(log, current) && f.ordinal == |log| + 1 && (f.syncCopy || f.number > current)
    requires current <= current' && f.number <= current'
    ensures InOrder(log + [f], current')
  {
  }

  // ---- retention --------------------------------------------------------------------------------------

  function Bytes(frames: seq<BusFrame>): nat {
    if frames == [] then 0 else frames[0].bytes + Bytes(frames[1..])
  }

  /** How many of the oldest frames go: the fewest that bring the bytes and the oldest age within bounds. */
  function Excess(frames: seq<BusFrame>, maxBytes: int, oldest: int): (k: nat)
    ensures k <= |frames|
  {
    if frames == [] || (Bytes(frames) <= maxBytes && frames[0].time >= oldest) then 0
    else 1 + Excess(frames[1..], maxBytes, oldest)
  }

  ghost predicate InBounds(frames: seq<BusFrame>, maxBytes: int, oldest: int) {
    frames == [] || (Bytes(frames) <= maxBytes && frames[0].time >= oldest)
  }

  lemma {:induction false} ExcessIsLeast(frames: seq<BusFrame>, maxBytes: int, oldest: int)
    ensures InBounds(frames[Excess(frames, maxBytes, oldest)..], maxBytes, oldest)
    ensures forall k :: 0 <= k < Excess(frames, maxBytes, oldest) ==> !InBounds(frames[k..], maxBytes, oldest)
    decreases |frames|
  {
    if Excess(frames, maxBytes, oldest) > 0 {
      ExcessIsLeast(frames[1..], maxBytes, oldest);
      assert frames[1..][Excess(frames[1..], maxBytes, oldest)..] == frames[Excess(frames, maxBytes, oldest)..];
      forall k | 0 <= k < Excess(frames, maxBytes, oldest)
        ensures !InBounds(frames[k..], maxBytes, oldest)
      {
        if k == 0 {
          assert frames[0..] == frames;
        } else {
          assert frames[1..][k - 1..] == frames[k..];
        }
      }
    }
  }

  lemma OneOlder(frames: seq<BusFrame>, d: nat, maxBytes: int, oldest: int)
    requires d < |frames|
    ensures Bytes(frames[d..]) == frames[d].bytes + Bytes(frames[d + 1..])
    ensures Excess(frames[d..], maxBytes, oldest) ==
            if Bytes(frames[d..]) <= maxBytes && frames[d].time >= oldest then 0
            else 1 + Excess(frames[d + 1..], maxBytes, oldest)
  {
    assert frames[d..][1..] == frames[d + 1..];
  }

  lemma {:induction false} BytesMoreOf(frames: seq<BusFrame>, f: BusFrame)
    ensures Bytes(frames + [f]) == Bytes(frames) + f.bytes
    decreases |frames|
  {
    if frames != [] {
      assert (frames + [f])[1..] == frames[1..] + [f];
      BytesMoreOf(frames[1..], f);
    }
  }

  lemma BytesMore(log: seq<BusFrame>, d: nat, f: BusFrame)
    requires d <= |log|
    ensures Bytes((log + [f])[d..]) == Bytes(log[d..]) + f.bytes
  {
    assert (log + [f])[d..] == log[d..] + [f];
    BytesMoreOf(log[d..], f);
  }

  lemma NothingLeft(frames: seq<BusFrame>, d: nat, maxBytes: int, oldest: int)
    requires d == |frames|
    ensures Excess(frames[d..], maxBytes, oldest) == 0
  {
  }

  lemma NumberWithin(log: seq<BusFrame>, k: nat, current: nat)
    requires InOrder(log, current) && k < |log|
    ensures log[k].number <= current
  {
  }

  // ---- cursors ----------------------------------------------------------------------------------------

  /** The frame's payload id does not come after the text. */
  ghost predicate AtOrBehind(f: BusFrame, text: string) {
    f.event.id.Some? && !Precedes(text, f.event.id.value)
  }

  ghost predicate IsNewestBehind(retained: seq<BusFrame>, i: nat, text: string) {
    i < |retained| && AtOrBehind(retained[i], text) && forall j :: i < j < |retained| ==> !AtOrBehind(retained[j], text)
  }

  /** The newest retained frame whose payload id is at or behind the cursor. */
  function Behind(retained: seq<BusFrame>, text: string): (r: Option<BusFrame>)
    ensures r.Some? <==> exists f :: f in retained && AtOrBehind(f, text)
    ensures r.Some? ==> r.value in retained && exists i: nat :: IsNewestBehind(retained, i, text) && r.value == retained[i]
    decreases |retained|
  {
    if retained == [] then None
    else
      var id, front := Last(retained).event.id, Init(retained);
      assert retained == front + [Last(retained)];
      assert id.Some? ==> (Less(text, id.value) <==> Precedes(text, id.value)) by {
        if id.Some? { LessIff(text, id.value); }
      }
      if id.Some? && !Less(text, id.value) then
        assert IsNewestBehind(retained, |front|, text);
        Some(Last(retained))
      else
        var r := Behind(front, text);
        assert forall i: nat :: IsNewestBehind(front, i, text) ==> IsNewestBehind(retained, i, text);
        r
  }

  function Resolve(cursor: Cursor, epoch: string, floor: nat, current: nat, retained: seq<BusFrame>)
    : (r: (nat, Option<ResetReason>))
    ensures cursor.AtPosition? ==> (r.1.None? <==> cursor.epoch == epoch && floor <= cursor.number <= current)
    ensures cursor.AtPosition? && r.1.None? ==> r.0 == cursor.number
    ensures r.1.Some? || cursor.Absent? ==> r.0 == current
    ensures cursor.Absent? ==> r.1.None?
    ensures cursor.AtPosition? ==>
              && (r.1 == Some(ForeignEpoch) <==> cursor.epoch != epoch)
              && (r.1 == Some(Ahead) <==> cursor.epoch == epoch && cursor.number > current)
    ensures cursor.PayloadId? ==>
              (r.1.None? <==> exists f :: f in retained && AtOrBehind(f, cursor.text)) && (r.1.Some? ==> r.1 == Some(Evicted))
    ensures cursor.PayloadId? && r.1.None? ==> exists i: nat :: IsNewestBehind(retained, i, cursor.text) && r.0 == retained[i].number
  {
    match cursor
    case Absent => (current, None)
    case AtPosition(e, n) =>
      if e != epoch then (current, Some(ForeignEpoch))
      else if n > current then (current, Some(Ahead))
      else if n < floor then (current, Some(Evicted))
      else (n, None)
    case PayloadId(text) =>
      match Behind(retained, text)
      case Some(f) => (f.number, None)
      case None => (current, Some(Evicted))
  }

  /** Above the floor, the retained frames are all there is. */
  lemma NothingDroppedAfter(log: seq<BusFrame>, dropped: nat, floor: nat, n: nat, sync: bool)
    requires DroppedBelow(log, dropped, floor) && floor <= n
    ensures After(log[dropped..], n, sync) == After(log, n, sync)
  {
    assert log == log[..dropped] + log[dropped..];
    AfterConcat(log[..dropped], log[dropped..], n, sync);
    AfterNothing(log[..dropped], n, sync);
  }

  lemma NothingAfterCurrent(log: seq<BusFrame>, current: nat, sync: bool)
    requires InOrder(log, current)
    ensures After(log, current, sync) == []
  {
    AfterNothing(log, current, sync);
  }

  lemma CoversAll(log: seq<BusFrame>, dropped: nat, floor: nat, current: nat, n: nat, sync: bool, reset: bool)
    requires DroppedBelow(log, dropped, floor) && InOrder(log, current)
    requires reset ==> n == current
    ensures n >= floor ==> (if reset then [] else After(log[dropped..], n, sync)) == After(log, n, sync)
    ensures log[..|log|] == log
  {
    if n >= floor {
      NothingDroppedAfter(log, dropped, floor, n, sync);
      if reset { NothingAfterCurrent(log, current, sync); }
    }
  }

  lemma StandsAtCurrent(log: seq<BusFrame>, current: nat, retained: seq<BusFrame>, cursor: Cursor, epoch: string, floor: nat)
    requires InOrder(log, current) && forall f :: f in retained ==> f in log
    ensures Resolve(cursor, epoch, floor, current, retained).0 <= current
  {
  }

  /** The slots hold the log without what was dropped. */
  ghost predicate Storing(slots: seq<Option<BusFrame>>, head: nat, bytes: int, log: seq<BusFrame>, dropped: nat) {
    && head <= |slots| && dropped <= |log| && |slots| - head == |log| - dropped
    && (forall k :: head <= k < |slots| ==> slots[k] == Some(log[dropped + (k - head)]))
    && bytes == Bytes(log[dropped..])
  }

  ghost predicate Listening(listeners: map<nat, Subscription>, covered: set<nat>, nextId: nat, log: seq<BusFrame>,
                            current: nat) {
    forall id :: id in listeners ==>
      && id < nextId && listeners[id].position <= current && Serves(listeners[id], log)
      && (id in covered ==> ReplaysAll(listeners[id], log))
  }

  lemma StoreMore(slots: seq<Option<BusFrame>>, head: nat, bytes: int, log: seq<BusFrame>, dropped: nat, f: BusFrame)
    requires Storing(slots, head, bytes, log, dropped)
    ensures Storing(slots + [Some(f)], head, bytes + f.bytes, log + [f], dropped)
  {
    BytesMore(log, dropped, f);
  }

  /** Every subscription has heard the frame, and nothing else happened to them. */
  ghost predicate Told(was: map<nat, Subscription>, listeners: map<nat, Subscription>, f: BusFrame) {
    listeners.Keys == was.Keys && forall id :: id in listeners ==> listeners[id] == Hear(was[id], f)
  }

  /** What is no longer retained does not lie above the floor. */
  ghost predicate DroppedBelow(log: seq<BusFrame>, dropped: nat, floor: nat) {
    dropped <= |log| && forall k :: 0 <= k < dropped ==> log[k].number <= floor
  }

  /** The floor is where the buffer started, or the number of something dropped. */
  ghost predicate FloorIsReached(log: seq<BusFrame>, dropped: nat, start: nat, floor: nat) {
    dropped <= |log| && floor >= start && (floor == start || exists k :: 0 <= k < dropped && log[k].number == floor)
  }

  /** So a position lies below the floor exactly when it precedes the buffer or something past it was dropped. */
  lemma BelowFloorIff(log: seq<BusFrame>, dropped: nat, start: nat, floor: nat, n: nat)
    requires DroppedBelow(log, dropped, floor) && FloorIsReached(log, dropped, start, floor)
    ensures n < floor <==> n < start || exists k :: 0 <= k < dropped && log[k].number > n
  {
  }

  lemma FloorStays(log: seq<BusFrame>, dropped: nat, start: nat, floor: nat, f: BusFrame)
    requires FloorIsReached(log, dropped, start, floor)
    ensures FloorIsReached(log + [f], dropped, start, floor)
  {
    if floor != start {
      var k :| 0 <= k < dropped && log[k].number == floor;
      assert (log + [f])[k].number == floor;
    }
  }

  lemma FloorRises(log: seq<BusFrame>, dropped: nat, start: nat, floor: nat)
    requires FloorIsReached(log, dropped, start, floor) && dropped < |log|
    ensures FloorIsReached(log, dropped + 1, start, Larger(floor, log[dropped].number))
  {
  }

  lemma DroppedStays(log: seq<BusFrame>, dropped: nat, floor: nat, f: BusFrame)
    requires DroppedBelow(log, dropped, floor)
    ensures DroppedBelow(log + [f], dropped, floor)
  {
  }

  lemma AllHear(was: map<nat, Subscription>, listeners: map<nat, Subscription>, covered: set<nat>, nextId: nat,
                log: seq<BusFrame>, current: nat, f: BusFrame, current': nat)
    requires Listening(was, covered, nextId, log, current) && Told(was, listeners, f)
    requires (f.syncCopy || f.number > current) && current <= current'
    ensures Listening(listeners, covered, nextId, log + [f], current')
  {
    hide Serves, Hear, ReplaysAll;
    forall id | id in listeners
      ensures id < nextId && listeners[id].position <= current' && Serves(listeners[id], log + [f])
      ensures id in covered ==> ReplaysAll(listeners[id], log + [f])
    {
      assert id in was.Keys;
      HearServes(was[id], log, f);
      HearKeepsReplay(was[id], log, f);
    }
  }

  lemma Registered(listeners: map<nat, Subscription>, covered: set<nat>, nextId: nat, log: seq<BusFrame>, current: nat,
                   s: Subscription, complete: bool)
    requires Listening(listeners, covered, nextId, log, current)
    requires s.position <= current && s.watermark == |log| && !s.started && s.pending == s.delivered == []
    requires complete ==> ReplaysAll(s, log)
    ensures nextId !in listeners
    ensures Listening(listeners[nextId := s], if complete then covered + {nextId} else covered - {nextId}, nextId + 1, log, current)
  {
    assert log[|log|..] == [];
    assert Wants([], s.sync) == [];
  }

  /** What was held back all arrived after the watermark, so starting drops nothing. */
  lemma HeldBackIsNew(s: Subscription, log: seq<BusFrame>, current: nat)
    requires Serves(s, log) && InOrder(log, current)
    ensures forall f :: f in s.pending ==> f.ordinal > s.watermark
  {
    var tail := log[s.watermark..];
    AfterMembers(tail, -1, s.sync);
    forall f | f in s.pending
      ensures f.ordinal > s.watermark
    {
      var k :| 0 <= k < |tail| && tail[k] == f;
      assert tail[k] == log[s.watermark + k];
    }
  }

  lemma StartServes(s: Subscription, log: seq<BusFrame>)
    requires Serves(s, log)
    ensures Serves(Started(s), log)
    ensures ReplaysAll(s, log) ==> ReplaysAll(Started(s), log)
    ensures Started(s).position == s.position
  {
  }

  /** Everything held back is handed on, and from now on frames are handed on at once. */
  function Started(s: Subscription): Subscription {
    s.(started := true, pending := [], delivered := s.delivered + s.pending)
  }

  lemma StartedListening(listeners: map<nat, Subscription>, covered: set<nat>, nextId: nat, log: seq<BusFrame>,
                         current: nat, id: nat)
    requires Listening(listeners, covered, nextId, log, current) && InOrder(log, current) && id in listeners
    ensures forall f :: f in listeners[id].pending ==> f.ordinal > listeners[id].watermark
    ensures Listening(listeners[id := Started(listeners[id])], covered, nextId, log, current)
  {
    hide Serves, ReplaysAll, InOrder;
    HeldBackIsNew(listeners[id], log, current);
    StartServes(listeners[id], log);
  }

  class ReplayBuffer {
    const epoch: string
    const maxBytes: int
    const maxAge: int
    const start: nat
    /** Evicted slots stand before `head` until they are compacted away. */
    var slots: seq<Option<BusFrame>>
    var head: nat
    var bytes: int
    var ordinal: nat
    var current: nat
    var floor: nat
    /** The subscriptions by handle. */
    var listeners: map<nat, Subscription>
    var nextId: nat
    /** Everything ever pushed; its first `dropped` frames are no longer retained. */
    ghost var log: seq<BusFrame>
    ghost var dropped: nat
    /** The subscriptions whose position did not lie below the floor when they were made. */
    ghost var covered: set<nat>

    ghost predicate Valid()
      reads this
    {
      && Storing(slots, head, bytes, log, dropped)
      && ordinal == |log| && floor <= current && InOrder(log, current)
      && DroppedBelow(log, dropped, floor) && FloorIsReached(log, dropped, start, floor)
      && Listening(listeners, covered, nextId, log, current)
    }

    constructor (epoch: string, maxBytes: int, maxAge: int, start: nat)
      ensures Valid() && log == [] && listeners == map[] && floor == start && current == start && dropped == 0
      ensures this.epoch == epoch && this.maxBytes == maxBytes && this.maxAge == maxAge && this.start == start
    {
      this.epoch, this.maxBytes, this.maxAge, this.start := epoch, maxBytes, maxAge, start;
      slots, head, bytes, ordinal, current, floor, listeners, nextId := [], 0, 0, 0, start, start, map[], 0;
      log, dropped, covered := [], 0, {};
    }

    method Evict(now: int)
      requires Valid()
      modifies this`slots, this`head, this`bytes, this`floor, this`dropped
      ensures Valid()
      ensures dropped == old(dropped) + Excess(log[old(dropped)..], maxBytes, now - maxAge)
    {
      var oldest := now - maxAge;
      hide Bytes, Excess, InOrder, Listening;
      while head < |slots|
        invariant Storing(slots, head, bytes, log, dropped) && floor <= current
        invariant DroppedBelow(log, dropped, floor) && FloorIsReached(log, dropped, start, floor)
        invariant dropped + Excess(log[dropped..], maxBytes, oldest) ==
                  old(dropped) + Excess(log[old(dropped)..], maxBytes, oldest)
        decreases |slots| - head
      {
        OneOlder(log, dropped, maxBytes, oldest);
        var frame := slots[head].value;
        if bytes <= maxBytes && frame.time >= oldest { break; }
        NumberWithin(log, dropped, current);
        FloorRises(log, dropped, start, floor);
        slots := slots[head := None];
        head := head + 1;
        bytes := bytes - frame.bytes;
        floor := Larger(floor, frame.number);
        dropped := dropped + 1;
      }
      if head == |slots| { NothingLeft(log, dropped, maxBytes, oldest); }
      if head > 1024 && head * 2 > |slots| {
        slots := slots[head..];
        head := 0;
      }
    }

    /** A new frame reaches every listener before anything is evicted. */
    method Push(number: nat, event: BusEvent, size: nat, syncCopy: bool, now: int)
      requires Valid() && (syncCopy || number > current)
      modifies this
      ensures Valid() && current == Larger(old(current), number)
      ensures log == old(log) + [BusFrame(number, event, size, now, |old(log)| + 1, syncCopy)]
      ensures Told(old(listeners), listeners, Last(log))
      ensures dropped == old(dropped) + Excess(log[old(dropped)..], maxBytes, now - maxAge)
    {
      Keep(BusFrame(number, event, size, now, ordinal + 1, syncCopy));
      Evict(now);
    }

    /** The frame is stored and everyone is told. */
    method Keep(frame: BusFrame)
      requires Valid() && (frame.syncCopy || frame.number > current) && frame.ordinal == |log| + 1
      modifies this`ordinal, this`current, this`slots, this`bytes, this`log, this`listeners
      ensures Valid() && current == Larger(old(current), frame.number) && log == old(log) + [frame]
      ensures Told(old(listeners), listeners, frame)
    {
      hide Storing, InOrder, Listening, Told, DroppedBelow, FloorIsReached;
      FloorStays(log, dropped, start, floor, frame);
      StoreMore(slots, head, bytes, log, dropped, frame);
      PushedInOrder(log, current, frame, Larger(current, frame.number));
      DroppedStays(log, dropped, floor, frame);
      ordinal := ordinal + 1;
      current := Larger(current, frame.number);
      slots := slots + [Some(frame)];
      bytes := bytes + frame.bytes;
      log := log + [frame];
      Tell(frame);
      AllHear(old(listeners), listeners, covered, nextId, old(log), old(current), frame, current);
    }

    /** Every listener hears the frame. */
    method Tell(frame: BusFrame)
      modifies this`listeners
      ensures Told(old(listeners), listeners, frame)
    {
      hide Hear;
      var todo := listeners.Keys;
      while todo != {}
        invariant todo <= listeners.Keys && listeners.Keys == old(listeners).Keys
        invariant forall id :: id in listeners ==>
          listeners[id] == if id in todo then old(listeners)[id] else Hear(old(listeners)[id], frame)
      {
        var id := Pick(todo);
        listeners := listeners[id := Hear(listeners[id], frame)];
        todo := todo - {id};
      }
    }

    /** A number that produced no frame. */
    method Skip(number: nat)
      requires Valid()
      modifies this`current
      ensures Valid() && current == Larger(old(current), number)
    {
      current := Larger(current, number);
    }

    ghost function Retained(): seq<BusFrame>
      reads this
      requires dropped <= |log|
    {
      log[dropped..]
    }

    /**
      Subscribe, resuming after `cursor`: the listener is registered, then the buffer is read. Unless a
      payload-id cursor resolved to a frame below the floor, the replay is all that was ever pushed after
      the position.
     */
    method Subscribe(cursor: Cursor, sync: bool, now: int) returns (id: nat)
      requires Valid()
      modifies this
      ensures Valid() && log == old(log) && current == old(current)
      ensures dropped == old(dropped) + Excess(log[old(dropped)..], maxBytes, now - maxAge)
      ensures id !in old(listeners) && listeners.Keys == old(listeners).Keys + {id}
      ensures forall other :: other in old(listeners) ==> listeners[other] == old(listeners)[other]
      ensures var s := listeners[id];
              && (s.position, s.reset) == Resolve(cursor, epoch, floor, current, Retained())
              && s.replay == (if s.reset.Some? then [] else After(Retained(), s.position, sync))
              && s.sync == sync && s.watermark == |log| && !s.started
              && covered == (if s.position >= floor then old(covered) + {id} else old(covered) - {id})
    {
      hide Listening, InOrder, Excess, Resolve, After, Serves, DroppedBelow;
      Evict(now);
      var retained := Live();
      var (position, reset) := Resolve(cursor, epoch, floor, current, retained);
      var replay := if reset.Some? then [] else After(retained, position, sync);
      StandsAtCurrent(log, current, retained, cursor, epoch, floor);
      CoversAll(log, dropped, floor, current, position, sync, reset.Some?);
      var s := Subscription(position, reset, replay, sync, ordinal, false, [], []);
      assert position >= floor ==> ReplaysAll(s, log);
      Registered(listeners, covered, nextId, log, current, s, position >= floor);
      id := nextId;
      nextId := nextId + 1;
      listeners := listeners[id := s];
      covered := if position >= floor then covered + {id} else covered - {id};
    }

    /** The retained frames, oldest first. */
    method Live() returns (retained: seq<BusFrame>)
      requires Storing(slots, head, bytes, log, dropped)
      ensures retained == Retained()
    {
      var kept := slots[head..];
      retained := seq(|kept|, i requires 0 <= i < |kept| && kept[i].Some? => kept[i].value);
    }

    /** Deliver what was held back, and from now on every frame as it comes. */
    method Start(id: nat)
      requires Valid()
      modifies this`listeners
      ensures Valid()
      ensures listeners == if id in old(listeners) then old(listeners)[id := Started(old(listeners)[id])] else old(listeners)
    {
      hide Storing, InOrder, DroppedBelow, Listening;
      if id in listeners {
        StartedListening(listeners, covered, nextId, log, current, id);
        var s := listeners[id];
        var out := HandOn(s);
        assert s.(started := true, pending := [], delivered := out) == Started(s);
        listeners := listeners[id := s.(started := true, pending := [], delivered := out)];
      }
    }

    /** Held-back frames that the replay may already hold are dropped. */
    method HandOn(s: Subscription) returns (out: seq<BusFrame>)
      requires forall f :: f in s.pending ==> f.ordinal > s.watermark
      ensures out == s.delivered + s.pending
    {
      out := s.delivered;
      for i := 0 to |s.pending|
        invariant out == s.delivered + s.pending[..i]
      {
        assert s.pending[i] in s.pending;
        if s.pending[i].ordinal > s.watermark { out := out + [s.pending[i]]; }
      }
      assert s.pending[..|s.pending|] == s.pending;
    }

    /** Idempotent: the listener is gone. */
    method Close(id: nat)
      requires Valid()
      modifies this`listeners
      ensures Valid() && listeners == old(listeners) - {id}
    {
      listeners := listeners - {id};
    }

    /**
      In every reachable state: a started subscription whose position the buffer covered has been given, in
      its replay and live together, exactly the frames ever pushed after its position, in order.
     */
    lemma DeliversExactly(id: nat)
      requires Valid() && id in listeners && id in covered && listeners[id].started && !listeners[id].sync
      ensures listeners[id].replay + listeners[id].delivered == After(log, listeners[id].position, false)
    {
      StreamIsExact(listeners[id], log, current);
    }
  }

  // ---- what a resumed subscription is given ------------------------------------------------------------

  lemma StreamIsExact(s: Subscription, log: seq<BusFrame>, current: nat)
    requires Serves(s, log) && ReplaysAll(s, log) && s.started && !s.sync
    ensures s.replay + s.delivered == After(log, s.position, false)
  {
    hide After;
    var early, late := log[..s.watermark], log[s.watermark..];
    assert log == early + late;
    AfterConcat(early, late, s.position, false);
    AfterLater(late, -1, s.position, false);
    LateLiesAfter(s, log);
  }

  lemma LateLiesAfter(s: Subscription, log: seq<BusFrame>)
    requires Serves(s, log)
    ensures forall f :: f in After(log[s.watermark..], -1, false) ==> f.number > s.position
  {
    var late := log[s.watermark..];
    AfterMembers(late, -1, false);
    hide After;
    forall f | f in After(late, -1, false)
      ensures f.number > s.position
    {
      var k :| 0 <= k < |late| && late[k] == f;
      assert late[k] == log[s.watermark + k];
    }
  }

  /** Without sync copies the numbers of what it was given increase. */
  lemma {:induction false} NumbersIncrease(log: seq<BusFrame>, current: nat, n: int)
    requires InOrder(log, current)
    ensures forall i, j :: 0 <= i < j < |After(log, n, false)| ==> After(log, n, false)[i].number < After(log, n, false)[j].number
    decreases |log|
  {
    if log != [] {
      var front, f := Init(log), Last(log);
      NumbersIncrease(front, current, n);
      AfterMembers(front, n, false);
      var early := After(front, n, false);
      if !f.syncCopy && f.number > n {
        forall i | 0 <= i < |early|
          ensures early[i].number < f.number
        {
          assert early[i] in front;
          var k :| 0 <= k < |front| && front[k] == early[i];
          assert log[k] == front[k];
        }
      }
    }
  }

  /**
    A client that was given everything it wants of the first m frames comes back when w have been pushed,
    with position n. What it is given is exactly the rest when nothing it has lies after n and nothing it
    lacks lies at or before n; in every other case something is given twice or never.
   */
  lemma ResumeIsExactIff(log: seq<BusFrame>, current: nat, m: nat, w: nat, n: nat, sync: bool)
    requires InOrder(log, current) && m <= w <= |log|
    ensures After(log[..w], n, sync) + Wants(log[w..], sync) == Wants(log[m..], sync) <==>
            && (forall f :: f in Wants(log[..m], sync) ==> f.number <= n)
            && (forall f :: f in Wants(log[m..w], sync) ==> f.number > n)
  {
    var had, missed, live := log[..m], log[m..w], log[w..];
    assert log[..w] == had + missed && log[m..] == missed + live;
    AfterConcat(had, missed, n, sync);
    AfterConcat(missed, live, -1, sync);
    AfterLater(missed, -1, n, sync);
    AfterMembers(had, n, sync);
    AfterMembers(had, -1, sync);
    AfterMembers(missed, -1, sync);
    var again, rest, all := After(had, n, sync), After(missed, n, sync), Wants(missed, sync);
    if again == [] {
      assert [] + rest == rest;
      SameFront(rest, all, Wants(live, sync));
      HadNothing(had, n, sync);
    } else {
      var f := again[0];
      assert f in again && f in had;
      assert f in Wants(had, sync);
      AfterMembers(live, -1, sync);
      assert f !in missed + live by { OrdinalsApart(log, current, m, f); }
      assert (again + rest + Wants(live, sync))[0] == f;
      assert f !in all + Wants(live, sync);
    }
  }

  lemma HadNothing(had: seq<BusFrame>, n: nat, sync: bool)
    requires After(had, n, sync) == []
    ensures forall f :: f in Wants(had, sync) ==> f.number <= n
  {
    AfterMembers(had, n, sync);
    AfterMembers(had, -1, sync);
    forall f | f in Wants(had, sync)
      ensures f.number <= n
    {
      assert f !in After(had, n, sync);
    }
  }

  lemma SameFront(a: seq<BusFrame>, b: seq<BusFrame>, c: seq<BusFrame>)
    ensures a + c == b + c <==> a == b
  {
    if a + c == b + c {
      assert |a| == |b|;
      assert a == (a + c)[..|a|] && b == (b + c)[..|b|];
    }
  }

  lemma OrdinalsApart(log: seq<BusFrame>, current: nat, m: nat, f: BusFrame)
    requires InOrder(log, current) && m <= |log| && f in log[..m]
    ensures f !in log[m..]
  {
    var k :| 0 <= k < m && log[k] == f;
    assert forall j :: 0 <= j < |log[m..]| ==> log[m..][j] == log[m + j] && log[m + j].ordinal == m + j + 1;
  }

  /** Position n splits the log between frames m - 1 and m, as far as sync copies are left out. */
  ghost predicate LastWanted(log: seq<BusFrame>, m: nat, n: nat) {
    m <= |log| && exists k :: 0 <= k < m && !log[k].syncCopy && log[k].number == n && forall j :: k < j < m ==> log[j].syncCopy
  }

  lemma LastSplits(log: seq<BusFrame>, current: nat, m: nat, n: nat, j: nat)
    requires InOrder(log, current) && LastWanted(log, m, n) && j < |log| && !log[j].syncCopy
    ensures log[j].number <= n <==> j < m
  {
  }

  /** So without sync copies the last position a client was given always resumes exactly. */
  lemma ResumeIsExact(log: seq<BusFrame>, current: nat, m: nat, w: nat, n: nat)
    requires InOrder(log, current) && m <= w <= |log| && LastWanted(log, m, n)
    ensures After(log[..w], n, false) + Wants(log[w..], false) == Wants(log[m..], false)
  {
    hide InOrder, LastWanted, After;
    ResumeIsExactIff(log, current, m, w, n, false);
    AfterMembers(log[..m], -1, false);
    AfterMembers(log[m..w], -1, false);
    forall f | f in Wants(log[..m], false)
      ensures f.number <= n
    {
      var j :| 0 <= j < m && log[j] == f;
      LastSplits(log, current, m, n, j);
    }
    var missed := log[m..w];
    forall f | f in Wants(missed, false)
      ensures f.number > n
    {
      var j :| 0 <= j < |missed| && missed[j] == f;
      LastSplits(log, current, m, n, m + j);
    }
  }

  // ---- two cursors that are served without what they miss -------------------------------------------------

  /** Reading only what is retained misses nothing exactly when nothing wanted that was dropped lay after n. */
  lemma RetainedSufficesIff(log: seq<BusFrame>, dropped: nat, n: nat, sync: bool)
    requires dropped <= |log|
    ensures After(log[dropped..], n, sync) == After(log, n, sync) <==>
            forall f :: f in log[..dropped] && Wanted(f, sync) ==> f.number <= n
  {
    var gone := log[..dropped];
    assert log == gone + log[dropped..];
    AfterConcat(gone, log[dropped..], n, sync);
    AfterMembers(gone, n, sync);
    hide Wanted, After;
    if forall f :: f in gone && Wanted(f, sync) ==> f.number <= n {
      AfterNothing(gone, n, sync);
    } else {
      var f :| f in gone && Wanted(f, sync) && f.number > n;
      assert f in After(gone, n, sync);
    }
  }

  /** A subscriber of sync copies that leaves between an event and its copy is never given the copy. */
  lemma SyncCopyIsLost(event: BusEvent, size: nat, now: int)
    ensures var source, copy := BusFrame(1, event, size, now, 1, false), BusFrame(1, event, size, now, 2, true);
            && InOrder([source, copy], 1)
            && After([source, copy][..2], 1, true) + Wants([source, copy][2..], true) == []
            && Wants([source, copy][1..], true) == [copy]
  {
    var source, copy := BusFrame(1, event, size, now, 1, false), BusFrame(1, event, size, now, 2, true);
    assert Init([source, copy]) == [source] && Init([source]) == [] && Init([copy]) == [];
    assert [source, copy][..2] == [source, copy] && [source, copy][2..] == [] && [source, copy][1..] == [copy];
    assert After([source], 1, true) == [];
  }

  const FIRST := BusEvent(None, None, Some("a"), Event("a"))
  const SECOND := BusEvent(None, None, Some("b"), Event("b"))
  const PUSHED := [BusFrame(1, FIRST, 5, 0, 1, false), BusFrame(2, SECOND, 5, 0, 2, false), BusFrame(1, FIRST, 10, 0, 3, true)]

  lemma {:induction false} BytesOf(frames: seq<BusFrame>, d: nat)
    requires d <= |frames|
    ensures Bytes(frames[d..]) == if d == |frames| then 0 else frames[d].bytes + Bytes(frames[d + 1..])
  {
    if d < |frames| { OneOlder(frames, d, 0, 0); }
  }

  /** Both events go when the copy comes. */
  lemma CopyOutlives()
    ensures Excess(PUSHED, 10, -1000) == 2
  {
    var all := PUSHED;
    assert all[0..] == all;
    BytesOf(all, 3);
    BytesOf(all, 2);
    BytesOf(all, 1);
    BytesOf(all, 0);
    hide Excess, Bytes;
    OneOlder(all, 0, 10, -1000);
    OneOlder(all, 1, 10, -1000);
    OneOlder(all, 2, 10, -1000);
  }

  lemma NoneGoYet(n: nat)
    requires n <= 2
    ensures Excess(PUSHED[..n], 10, -1000) == 0
  {
    var all := PUSHED[..n];
    assert all[0..] == all;
    BytesOf(all, n);
    if n > 0 { BytesOf(all, n - 1); }
    if n > 1 { BytesOf(all, n - 2); }
  }

  lemma CopyAnswers(epoch: string, floor: nat, current: nat)
    ensures Resolve(PayloadId("a"), epoch, floor, current, PUSHED[2..]) == (1, None)
    ensures After(PUSHED[2..], 1, false) == [] && After(PUSHED, 1, false) == [PUSHED[1]]
  {
    assert PUSHED[2..] == [PUSHED[2]];
    assert Init([PUSHED[2]]) == [] && Init(PUSHED) == [PUSHED[0], PUSHED[1]] && Init([PUSHED[0], PUSHED[1]]) == [PUSHED[0]];
    assert Init([PUSHED[0]]) == [];
    assert After([PUSHED[0]], 1, false) == [];
    assert After([PUSHED[0], PUSHED[1]], 1, false) == [PUSHED[1]];
    assert !Less("a", "a") by { LessTotal("a", "a"); }
  }

  /**
    A payload-id cursor that resolves to a late sync copy: the event after the mirrored one is gone, and the
    subscription is told neither of it nor to resync.
   */
  method PayloadCursorMissesAnEvent(epoch: string) returns (b: ReplayBuffer, id: nat)
    ensures fresh(b) && b.Valid() && id in b.listeners
    ensures b.listeners[id].reset == None && b.listeners[id].replay == []
    ensures After(b.log, b.listeners[id].position, false) == [PUSHED[1]]
  {
    b := ThreePushed(epoch);
    hide Excess, Resolve, After, Less;
    assert b.log[0..] == b.log && b.Retained() == PUSHED[2..];
    NothingMore();
    id := b.Subscribe(PayloadId("a"), false, 0);
    CopyAnswers(epoch, b.floor, b.current);
  }

  lemma NothingMore()
    ensures Excess(PUSHED[2..], 10, -1000) == 0
  {
    BytesOf(PUSHED, 3);
    BytesOf(PUSHED, 2);
    OneOlder(PUSHED, 2, 10, -1000);
  }

  method ThreePushed(epoch: string) returns (b: ReplayBuffer)
    ensures fresh(b) && b.Valid() && b.log == PUSHED && b.dropped == 2
    ensures b.epoch == epoch && b.maxBytes == 10 && b.maxAge == 1000
  {
    hide Excess, Told, Storing, InOrder, Listening, DroppedBelow, FloorIsReached;
    b := new ReplayBuffer(epoch, 10, 1000, 0);
    PushNext(b, 0);
    NoneGoYet(1);
    PushNext(b, 1);
    NoneGoYet(2);
    PushNext(b, 2);
    CopyOutlives();
    assert PUSHED[..3] == PUSHED;
  }

  method PushNext(b: ReplayBuffer, k: nat)
    requires b.Valid() && k < 3 && b.log == PUSHED[..k] && b.dropped == 0 && b.current == k
    requires b.maxBytes == 10 && b.maxAge == 1000
    modifies b
    ensures b.Valid() && b.log == PUSHED[..k + 1] && b.current == (if k == 2 then 2 else k + 1)
    ensures b.dropped == Excess(PUSHED[..k + 1], 10, -1000)
  {
    hide Excess, Told, Storing, InOrder, Listening, DroppedBelow;
    var f := PUSHED[k];
    b.Push(f.number, f.event, f.bytes, f.syncCopy, 0);
    assert b.log[0..] == b.log == PUSHED[..k + 1];
  }
}
