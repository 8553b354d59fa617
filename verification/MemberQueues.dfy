/** The outbound queue of one member, whose tail absorbs adjacent deltas of the same message part. */
module MemberQueues {
  import opened Prelude

  /** The `<epoch>:<seq>` position on a frame's id line. */
  datatype Pos = Pos(epoch: string, number: nat)

  /** (messageID, partID, field) of a message.part.delta payload. */
  datatype PartKey = PartKey(messageId: string, partId: string, field: Option<string>)

  /**
    What a frame carries. Control frames (server.connected, server.heartbeat, state.resync) repeat their
    connection's position; every other engine frame is an event. `envelope` is everything around a delta's
    text, and `text` is None when the delta field is not a string.
   */
  datatype Body =
    | HttpHead
    | Control(kind: string)
    | Event(payload: string)
    | Delta(envelope: string, key: PartKey, text: Option<string>)

  datatype Frame = Frame(pos: Option<Pos>, eid: Option<string>, body: Body)

  datatype Item = Data(frame: Frame) | Close

  const DELTA_MERGE_MAX_BYTES := 262144

  /** _delta_part_key. */
  function DeltaPartKey(f: Frame): Option<PartKey> {
    match f.body
    case Delta(_, key, _) => Some(key)
    case _ => None
  }

  /** Adjacent frames that say the same as one frame with their texts concatenated. */
  predicate Mergeable(prev: Item, next: Item) {
    && prev.Data? && next.Data?
    && prev.frame.body.Delta? && next.frame.body.Delta?
    && prev.frame.body.key == next.frame.body.key
    && prev.frame.body.text.Some? && next.frame.body.text.Some?
  }

  /** The merged frame: the earlier frame's ids and envelope around the concatenated text. */
  function Merge(prev: Item, next: Item): (m: Item)
    requires Mergeable(prev, next)
    ensures m.Data? && m.frame.pos == prev.frame.pos && DeltaPartKey(m.frame) == DeltaPartKey(prev.frame)
  {
    var body := prev.frame.body.(text := Some(prev.frame.body.text.value + next.frame.body.text.value));
    Data(prev.frame.(body := body))
  }

  /** _merge_delta_frames: None when a delta is not text or the merged payload would exceed the limit. */
  function MergeDeltaFrames(encodedLen: Body -> nat, prev: Frame, next: Frame): Option<Frame> {
    if prev.body.Delta? && next.body.Delta? && prev.body.text.Some? && next.body.text.Some? then
      var body := prev.body.(text := Some(prev.body.text.value + next.body.text.value));
      if encodedLen(body) > DELTA_MERGE_MAX_BYTES then None else Some(prev.(body := body))
    else None
  }

  /** The queue's deque and the part key of its tail. */
  datatype Queue = Queue(items: seq<Item>, tailKey: Option<PartKey>)

  const EMPTY := Queue([], None)

  /** A tail key is only remembered for the frame that is still at the tail. */
  predicate Valid(q: Queue) {
    q.tailKey.Some? ==> q.items != [] && Last(q.items).Data? && DeltaPartKey(Last(q.items).frame) == q.tailKey
  }

  function Put(q: Queue, item: Item): Queue {
    Queue(q.items + [item], None)
  }

  function PutCoalescing(encodedLen: Body -> nat, q: Queue, frame: Frame, key: Option<PartKey>): Queue {
    if key.Some? && q.items != [] && q.tailKey == key && Last(q.items).Data? then
      match MergeDeltaFrames(encodedLen, Last(q.items).frame, frame)
      case Some(m) => q.(items := Init(q.items) + [Data(m)])
      case None => Queue(q.items + [Data(frame)], key)
    else Queue(q.items + [Data(frame)], key)
  }

  /** A text delta of the part. */
  predicate IsTextOf(f: Frame, key: PartKey) {
    f.body.Delta? && f.body.key == key && f.body.text.Some?
  }

  /**
    The tail takes a delta in: it is the remembered delta of the same part, both texts are strings, and the
    payload around the joined text is within the limit.
   */
  predicate TailTakes(encodedLen: Body -> nat, q: Queue, f: Frame) {
    && f.body.Delta? && q.tailKey == Some(f.body.key)
    && q.items != [] && Last(q.items).Data?
    && IsTextOf(Last(q.items).frame, f.body.key) && IsTextOf(f, f.body.key)
    && encodedLen(Joined(Last(q.items).frame, f).body) <= 262144
  }

  /** The earlier frame's ids and envelope around both texts, the earlier one first. */
  function Joined(tail: Frame, f: Frame): Frame
    requires tail.body.Delta? && tail.body.text.Some? && f.body.Delta? && f.body.text.Some?
  {
    Frame(tail.pos, tail.eid, Delta(tail.body.envelope, tail.body.key, Some(tail.body.text.value + f.body.text.value)))
  }

  /** A coalescing put changes nothing but the tail's text when the tail takes the delta, and else adds one item. */
  ghost predicate CoalescedInto(encodedLen: Body -> nat, q: Queue, f: Frame, q': Queue) {
    if TailTakes(encodedLen, q, f) then
      && |q'.items| == |q.items| && q'.tailKey == q.tailKey
      && (forall i :: 0 <= i < |q.items| - 1 ==> q'.items[i] == q.items[i])
      && Last(q'.items) == Data(Joined(Last(q.items).frame, f))
    else
      q'.items == q.items + [Data(f)] && q'.tailKey == DeltaPartKey(f)
  }

  lemma PutCoalesces(encodedLen: Body -> nat, q: Queue, f: Frame)
    requires Valid(q)
    ensures CoalescedInto(encodedLen, q, f, PutCoalescing(encodedLen, q, f, DeltaPartKey(f)))
  {
  }

  function Take(q: Queue): Queue
    requires q.items != []
  {
    Queue(q.items[1..], None)
  }

  /** The queue object: a deque and a tail key, changed in place under its condition variable. */
  class MemberQueue {
    const encodedLen: Body -> nat
    var items: seq<Item>
    var tailKey: Option<PartKey>

    constructor (encodedLen: Body -> nat)
      ensures View() == EMPTY && this.encodedLen == encodedLen
    {
      this.encodedLen := encodedLen;
      items, tailKey := [], None;
    }

    function View(): Queue
      reads this
    {
      Queue(items, tailKey)
    }

    method PutItem(item: Item)
      modifies this
      ensures View() == Put(old(View()), item)
    {
      items := items + [item];
      tailKey := None;
    }

    method PutFrameCoalescing(frame: Frame, key: Option<PartKey>)
      modifies this
      ensures View() == PutCoalescing(encodedLen, old(View()), frame, key)
      ensures key == DeltaPartKey(frame) && Valid(old(View())) ==> CoalescedInto(encodedLen, old(View()), frame, View())
    {
      if key.Some? && items != [] && tailKey == key && Last(items).Data? {
        var merged := MergeDeltaFrames(encodedLen, Last(items).frame, frame);
        if merged.Some? {
          items := items[|items| - 1 := Data(merged.value)];
          assert items == Init(old(items)) + [Data(merged.value)];
          return;
        }
      }
      items := items + [Data(frame)];
      tailKey := key;
    }

    /** The non-blocking part of get: the caller has waited until there is an item. */
    method Get() returns (item: Item)
      requires items != []
      modifies this
      ensures item == old(items)[0] && View() == Take(old(View()))
    {
      item, items := items[0], items[1..];
      tailKey := None;
    }
  }

  // ---- what a sequence of items means to the panel ------------------------------------------------

  /** Append one item, concatenating it into the last one when they are adjacent deltas of one part. */
  function Absorb(normal: seq<Item>, item: Item): seq<Item> {
    if normal != [] && Mergeable(Last(normal), item) then Init(normal) + [Merge(Last(normal), item)]
    else normal + [item]
  }

  /** The meaning of a sequence of items: every run of adjacent same-part deltas made into one delta. */
  function Meaning(items: seq<Item>): seq<Item>
    decreases |items|
  {
    if items == [] then [] else Absorb(Meaning(Init(items)), Last(items))
  }

  /** A meaning has no two adjacent deltas left to merge, so it is a normal form. */
  lemma {:induction false} MeaningIsNormal(items: seq<Item>)
    ensures forall i :: 0 <= i < |Meaning(items)| - 1 ==> !Mergeable(Meaning(items)[i], Meaning(items)[i + 1])
    ensures items != [] ==> Meaning(items) != []
    decreases |items|
  {
    if items != [] {
      MeaningIsNormal(Init(items));
      var before, item := Meaning(Init(items)), Last(items);
      if before != [] && Mergeable(Last(before), item) {
        var after := Init(before) + [Merge(Last(before), item)];
        assert Meaning(items) == after;
        forall i | 0 <= i < |after| - 1
          ensures !Mergeable(after[i], after[i + 1])
        {
          assert !Mergeable(before[i], before[i + 1]);
        }
      }
    }
  }

  /** Items that are already a normal form mean themselves. */
  lemma {:induction false} NormalMeansItself(items: seq<Item>)
    requires forall i :: 0 <= i < |items| - 1 ==> !Mergeable(items[i], items[i + 1])
    ensures Meaning(items) == items
    decreases |items|
  {
    if items != [] {
      var front := Init(items);
      forall i | 0 <= i < |front| - 1
        ensures !Mergeable(front[i], front[i + 1])
      {
        assert !Mergeable(items[i], items[i + 1]);
      }
      NormalMeansItself(front);
      if front != [] {
        assert !Mergeable(items[|items| - 2], items[|items| - 2 + 1]);
      }
      assert items == front + [Last(items)];
    }
  }

  /** Absorbing a merged delta is absorbing its two halves. */
  lemma AbsorbMerged(normal: seq<Item>, a: Item, b: Item)
    requires Mergeable(a, b)
    ensures Absorb(Absorb(normal, a), b) == Absorb(normal, Merge(a, b))
  {
    var once := Absorb(normal, a);
    assert once != [];
    if normal != [] && Mergeable(Last(normal), a) {
      var l := Last(normal);
      assert Last(once) == Merge(l, a) && Init(once) == Init(normal);
      assert (l.frame.body.text.value + a.frame.body.text.value) + b.frame.body.text.value
          == l.frame.body.text.value + (a.frame.body.text.value + b.frame.body.text.value);
      assert Merge(Merge(l, a), b) == Merge(l, Merge(a, b));
    } else {
      assert Last(once) == a && Init(once) == normal;
      assert normal != [] ==> !Mergeable(Last(normal), Merge(a, b));
    }
  }

  /** A coalescing put appends, or merges the frame into the tail. */
  lemma PutAppendsOrMerges(encodedLen: Body -> nat, q: Queue, frame: Frame)
    requires Valid(q)
    ensures var q' := PutCoalescing(encodedLen, q, frame, DeltaPartKey(frame));
            && Valid(q')
            && (q'.items == q.items + [Data(frame)]
                || (q.items != [] && Mergeable(Last(q.items), Data(frame))
                    && q'.items == Init(q.items) + [Merge(Last(q.items), Data(frame))]))
  {
  }

  /** A put, plain or coalescing, adds exactly the meaning of the frame that was put. */
  lemma PutKeepsMeaning(encodedLen: Body -> nat, taken: seq<Item>, q: Queue, frame: Frame)
    requires Valid(q)
    ensures var key := DeltaPartKey(frame);
            var q' := PutCoalescing(encodedLen, q, frame, key);
            && Valid(q')
            && Meaning(taken + q'.items) == Absorb(Meaning(taken + q.items), Data(frame))
  {
    hide PutCoalescing, Meaning, Absorb, Mergeable, Valid, DeltaPartKey;
    PutAppendsOrMerges(encodedLen, q, frame);
    var q' := PutCoalescing(encodedLen, q, frame, DeltaPartKey(frame));
    if q'.items == q.items + [Data(frame)] {
      AppendMeaning(taken, q.items, Data(frame));
    } else {
      var tail := Last(q.items);
      AppendMeaning(taken, Init(q.items), Merge(tail, Data(frame)));
      AppendMeaning(taken, Init(q.items), tail);
      assert Init(q.items) + [tail] == q.items;
      AbsorbMerged(Meaning(taken + Init(q.items)), tail, Data(frame));
    }
  }

  lemma AppendMeaning(taken: seq<Item>, items: seq<Item>, item: Item)
    ensures Meaning(taken + (items + [item])) == Absorb(Meaning(taken + items), item)
  {
    var whole := taken + (items + [item]);
    assert Init(whole) == taken + items && Last(whole) == item;
  }

  // ---- a burst of deltas -----------------------------------------------------------------------------

  /** Coalescing puts of frames one after the other, with no get in between. */
  function PutBurst(encodedLen: Body -> nat, q: Queue, frames: seq<Frame>): Queue
    decreases |frames|
  {
    if frames == [] then q
    else PutCoalescing(encodedLen, PutBurst(encodedLen, q, Init(frames)), Last(frames), DeltaPartKey(Last(frames)))
  }

  function TextIn(f: Frame): string {
    if f.body.Delta? && f.body.text.Some? then f.body.text.value else ""
  }

  /** The texts of a burst, joined in order. */
  function BurstText(frames: seq<Frame>): string
    decreases |frames|
  {
    if frames == [] then "" else BurstText(Init(frames)) + TextIn(Last(frames))
  }

  /** What a burst becomes: its first frame around all the texts. */
  function BurstFrame(frames: seq<Frame>): Frame
    requires frames != []
  {
    var envelope := if frames[0].body.Delta? then frames[0].body.envelope else "";
    var key := if frames[0].body.Delta? then frames[0].body.key else PartKey("", "", None);
    Frame(frames[0].pos, frames[0].eid, Delta(envelope, key, Some(BurstText(frames))))
  }

  /** However many text deltas of one part come within the limit, they take one place. */
  lemma {:induction false} BurstTakesOnePlace(encodedLen: Body -> nat, q: Queue, frames: seq<Frame>, key: PartKey)
    requires Valid(q) && q.tailKey != Some(key) && frames != [] && forall f :: f in frames ==> IsTextOf(f, key)
    requires forall k :: 1 < k <= |frames| ==> encodedLen(BurstFrame(frames[..k]).body) <= 262144
    ensures PutBurst(encodedLen, q, frames) == Queue(q.items + [Data(BurstFrame(frames))], Some(key))
    decreases |frames|
  {
    hide PutCoalescing, BurstFrame, Joined, Valid;
    var front, f := Init(frames), Last(frames);
    assert f in frames && frames == front + [f] && frames[..|frames|] == frames;
    if front == [] {
      assert frames == [f];
      OneFrameBurst(encodedLen, q, f, key);
    } else {
      assert forall g :: g in front ==> g in frames;
      assert forall k :: 1 < k <= |front| ==> front[..k] == frames[..k];
      BurstTakesOnePlace(encodedLen, q, front, key);
      OneMoreInBurst(encodedLen, q, front, f, key);
    }
  }

  lemma OneFrameBurst(encodedLen: Body -> nat, q: Queue, f: Frame, key: PartKey)
    requires Valid(q) && q.tailKey != Some(key) && IsTextOf(f, key)
    ensures PutBurst(encodedLen, q, [f]) == Queue(q.items + [Data(BurstFrame([f]))], Some(key))
  {
    assert Init([f]) == [];
    assert BurstText([f]) == "" + TextIn(f) == TextIn(f);
    PutCoalesces(encodedLen, q, f);
  }

  lemma BurstJoins(front: seq<Frame>, f: Frame, key: PartKey)
    requires front != [] && IsTextOf(f, key) && forall g :: g in front ==> IsTextOf(g, key)
    ensures IsTextOf(BurstFrame(front), key)
    ensures Joined(BurstFrame(front), f) == BurstFrame(front + [f])
  {
    assert Init(front + [f]) == front && front[0] in front;
  }

  /** The queue whose one new item is what the burst has become takes the next delta in. */
  lemma OneMoreInBurst(encodedLen: Body -> nat, q: Queue, front: seq<Frame>, f: Frame, key: PartKey)
    requires front != [] && IsTextOf(f, key) && forall g :: g in front ==> IsTextOf(g, key)
    requires encodedLen(BurstFrame(front + [f]).body) <= 262144
    ensures PutCoalescing(encodedLen, Queue(q.items + [Data(BurstFrame(front))], Some(key)), f, DeltaPartKey(f))
            == Queue(q.items + [Data(BurstFrame(front + [f]))], Some(key))
  {
    hide PutCoalescing, BurstFrame;
    BurstJoins(front, f, key);
    var before := Queue(q.items + [Data(BurstFrame(front))], Some(key));
    var after := PutCoalescing(encodedLen, before, f, DeltaPartKey(f));
    PutCoalesces(encodedLen, before, f);
    assert after.items == q.items + [Data(BurstFrame(front + [f]))];
  }

  // ---- whole runs ---------------------------------------------------------------------------------

  datatype Op = PutPlain(item: Item) | PutDelta(frame: Frame) | Get

  /** A queue together with what was put on it and what the writer took off it. */
  datatype History = History(q: Queue, puts: seq<Item>, taken: seq<Item>)

  function Step(encodedLen: Body -> nat, h: History, op: Op): History {
    match op
    case PutPlain(item) => History(Put(h.q, item), h.puts + [item], h.taken)
    case PutDelta(f) =>
      History(PutCoalescing(encodedLen, h.q, f, DeltaPartKey(f)), h.puts + [Data(f)], h.taken)
    case Get =>
      if h.q.items == [] then h else History(Take(h.q), h.puts, h.taken + [h.q.items[0]])
  }

  function Run(encodedLen: Body -> nat, ops: seq<Op>): History
    decreases |ops|
  {
    if ops == [] then History(EMPTY, [], []) else Step(encodedLen, Run(encodedLen, Init(ops)), Last(ops))
  }

  /** The id lines a sequence of items shows, in order. */
  function Ids(items: seq<Item>): seq<Pos>
    decreases |items|
  {
    if items == [] then [] else Ids(Init(items)) + IdOf(Last(items))
  }

  function IdOf(item: Item): seq<Pos> {
    if item.Data? && item.frame.pos.Some? then [item.frame.pos.value] else []
  }

  lemma {:induction false} IdsConcat(a: seq<Item>, b: seq<Item>)
    ensures Ids(a + b) == Ids(a) + Ids(b)
    decreases |b|
  {
    if b == [] {
      assert a + b == a;
    } else {
      hide IdOf;
      assert Init(a + b) == a + Init(b) && Last(a + b) == Last(b);
      IdsConcat(a, Init(b));
      Assoc(Ids(a), Ids(Init(b)), IdOf(Last(b)));
    }
  }

  lemma IdsSnoc(a: seq<Item>, item: Item)
    ensures Ids(a + [item]) == Ids(a) + IdOf(item)
  {
    assert Init(a + [item]) == a;
  }

  /**
    Coalescing preserves meaning over every interleaving of puts, coalescing puts and gets: what the
    writer took followed by what is queued means exactly what was put, and the ids that remain visible are
    a subsequence of the ids put.
   */
  lemma {:induction false} CoalescingPreservesMeaning(encodedLen: Body -> nat, ops: seq<Op>)
    ensures var h := Run(encodedLen, ops);
            && Valid(h.q)
            && Meaning(h.taken + h.q.items) == Meaning(h.puts)
            && IsSubseq(Ids(h.taken + h.q.items), Ids(h.puts))
            && |h.taken| + |h.q.items| <= |h.puts|
    decreases |ops|
  {
    hide IsSubseq;
    if ops == [] {
      assert IsSubseq<Pos>([], []) by { SubseqRefl<Pos>([]); }
    } else {
      hide Meaning, Ids;
      CoalescingPreservesMeaning(encodedLen, Init(ops));
      StepPreservesMeaning(encodedLen, Run(encodedLen, Init(ops)), Last(ops));
    }
  }

  lemma StepPreservesMeaning(encodedLen: Body -> nat, h: History, op: Op)
    requires Valid(h.q)
    requires Meaning(h.taken + h.q.items) == Meaning(h.puts)
    requires IsSubseq(Ids(h.taken + h.q.items), Ids(h.puts))
    requires |h.taken| + |h.q.items| <= |h.puts|
    ensures var h' := Step(encodedLen, h, op);
            && Valid(h'.q)
            && Meaning(h'.taken + h'.q.items) == Meaning(h'.puts)
            && IsSubseq(Ids(h'.taken + h'.q.items), Ids(h'.puts))
            && |h'.taken| + |h'.q.items| <= |h'.puts|
  {
    hide IsSubseq, Meaning, Ids, Absorb;
    var h' := Step(encodedLen, h, op);
    match op
    case PutPlain(item) =>
      AppendMeaning(h.taken, h.q.items, item);
      AppendMeaning([], h.puts, item);
      assert [] + (h.puts + [item]) == h.puts + [item] && [] + h.puts == h.puts;
      AppendIds(h, h'.q.items, item);
    case PutDelta(f) =>
      PutKeepsMeaning(encodedLen, h.taken, h.q, f);
      AppendMeaning([], h.puts, Data(f));
      assert [] + (h.puts + [Data(f)]) == h.puts + [Data(f)] && [] + h.puts == h.puts;
      AppendIds(h, h'.q.items, Data(f));
    case Get =>
      if h.q.items != [] {
        assert h'.taken + h'.q.items == h.taken + h.q.items;
      }
  }

  /** Whether a put appends or merges, the visible ids stay a subsequence of the ids put. */
  lemma AppendIds(h: History, items: seq<Item>, item: Item)
    requires IsSubseq(Ids(h.taken + h.q.items), Ids(h.puts))
    requires items == h.q.items + [item] ||
             (h.q.items != [] && Mergeable(Last(h.q.items), item)
              && items == Init(h.q.items) + [Merge(Last(h.q.items), item)])
    ensures IsSubseq(Ids(h.taken + items), Ids(h.puts + [item]))
  {
    hide IsSubseq, Ids, IdOf, Mergeable;
    var visible, shown := Ids(h.taken + h.q.items), IdOf(item);
    IdsSnoc(h.puts, item);
    if items == h.q.items + [item] {
      assert h.taken + items == h.taken + h.q.items + [item];
      IdsSnoc(h.taken + h.q.items, item);
      SubseqRefl(shown);
      SubseqAppend(visible, Ids(h.puts), shown, shown);
    } else {
      var front, tail := h.taken + Init(h.q.items), Last(h.q.items);
      assert h.taken + items == front + [Merge(tail, item)];
      assert h.taken + h.q.items == front + [tail];
      IdsSnoc(front, Merge(tail, item));
      IdsSnoc(front, tail);
      MergeKeepsId(tail, item);
      EmptySubseq(shown);
      SubseqAppend(visible, Ids(h.puts), [], shown);
      assert visible + [] == visible;
    }
  }

  lemma MergeKeepsId(tail: Item, item: Item)
    requires Mergeable(tail, item)
    ensures IdOf(Merge(tail, item)) == IdOf(tail)
  {
  }

  lemma EmptySubseq(s: seq<Pos>)
    ensures IsSubseq([], s)
  {
  }

  // ---- what a reader of one part reads ---------------------------------------------------------------

  /** The texts of a part's deltas, joined in the order in which they come. */
  function TextOf(items: seq<Item>, key: PartKey): string
    decreases |items|
  {
    if items == [] then "" else TextOf(Init(items), key) + OwnText(Last(items), key)
  }

  function OwnText(item: Item, key: PartKey): string {
    if item.Data? && IsTextOf(item.frame, key) then TextIn(item.frame) else ""
  }

  lemma TextAppended(items: seq<Item>, item: Item, key: PartKey)
    ensures TextOf(items + [item], key) == TextOf(items, key) + OwnText(item, key)
  {
    assert Init(items + [item]) == items;
  }

  lemma PutKeepsText(encodedLen: Body -> nat, taken: seq<Item>, q: Queue, f: Frame, key: PartKey)
    requires Valid(q)
    ensures TextOf(taken + PutCoalescing(encodedLen, q, f, DeltaPartKey(f)).items, key) ==
            TextOf(taken + q.items, key) + OwnText(Data(f), key)
  {
    hide TextOf, PutCoalescing;
    PutCoalesces(encodedLen, q, f);
    var q' := PutCoalescing(encodedLen, q, f, DeltaPartKey(f));
    if TailTakes(encodedLen, q, f) {
      var front, tail := taken + Init(q.items), Last(q.items);
      assert q'.items == Init(q.items) + [Last(q'.items)];
      assert taken + q.items == front + [tail] && taken + q'.items == front + [Last(q'.items)];
      TextAppended(front, tail, key);
      TextAppended(front, Last(q'.items), key);
    } else {
      assert taken + q'.items == taken + q.items + [Data(f)];
      TextAppended(taken + q.items, Data(f), key);
    }
  }

  /** Over every interleaving, the text of each part that was taken or is queued is the text that was put. */
  lemma {:induction false} EveryPartReadsTheSame(encodedLen: Body -> nat, ops: seq<Op>, key: PartKey)
    ensures var h := Run(encodedLen, ops);
            TextOf(h.taken + h.q.items, key) == TextOf(h.puts, key)
    decreases |ops|
  {
    if ops != [] {
      hide TextOf, Step, Meaning, Ids, Valid;
      CoalescingPreservesMeaning(encodedLen, Init(ops));
      EveryPartReadsTheSame(encodedLen, Init(ops), key);
      StepKeepsText(encodedLen, Run(encodedLen, Init(ops)), Last(ops), key);
    }
  }

  lemma StepKeepsText(encodedLen: Body -> nat, h: History, op: Op, key: PartKey)
    requires Valid(h.q) && TextOf(h.taken + h.q.items, key) == TextOf(h.puts, key)
    ensures var h' := Step(encodedLen, h, op);
            TextOf(h'.taken + h'.q.items, key) == TextOf(h'.puts, key)
  {
    hide TextOf, PutCoalescing, Valid, OwnText;
    match op
    case PutPlain(item) =>
      assert h.taken + (h.q.items + [item]) == h.taken + h.q.items + [item];
      TextAppended(h.taken + h.q.items, item, key);
      TextAppended(h.puts, item, key);
    case PutDelta(f) =>
      PutKeepsText(encodedLen, h.taken, h.q, f, key);
      TextAppended(h.puts, Data(f), key);
    case Get =>
      if h.q.items != [] {
        assert h.taken + [h.q.items[0]] + h.q.items[1..] == h.taken + h.q.items;
      }
  }
}
