/**
  The front door's one-shot chunked decoder, which serves buffered answers. Python reads a negative size and lets
  indexes count from the end, so its position can move backwards: it need not end.
 */
module OneShotBody {
  import opened Prelude
  import opened ByteText
  import opened ChunkedBody

  /** Where Python starts or stops for an index: negative ones count from the end, all are clipped. */
  function Index(s: Bytes, k: int): (p: nat)
    ensures p <= |s|
  {
    if k >= |s| then |s| else if k >= 0 then k else if |s| + k >= 0 then |s| + k else 0
  }

  /** s[a:b]. */
  function Slice(s: Bytes, a: int, b: int): Bytes {
    if Index(s, a) < Index(s, b) then s[Index(s, a)..Index(s, b)] else []
  }

  /** The places a slice takes, one by one: those at or after its start and before its stop. */
  lemma SliceIff(s: Bytes, a: int, b: int)
    ensures var first := if a >= 0 then a else if |s| + a >= 0 then |s| + a else 0;
            var last := if b >= |s| then |s| else if b >= 0 then b else if |s| + b >= 0 then |s| + b else 0;
            && (first < last <==> Slice(s, a, b) != [])
            && (first < last ==> |Slice(s, a, b)| == last - first &&
                                 forall i :: 0 <= i < last - first ==> Slice(s, a, b)[i] == s[first + i])
  {
  }

  /** One turn of the loop: an answer, or the next position and what has been collected. */
  datatype Turn = Stop(answer: Bytes) | Next(i: int, out: Bytes)

  function TurnAt(body: Bytes, i: int, out: Bytes): Turn {
    match Find(body, CRLF, Index(body, i))
    case None => Stop(if out != [] then out else body)
    case Some(j) =>
      match LineSize(Slice(body, i, j))
      case None => Stop(body)
      case Some(n) => if n == 0 then Stop(out) else Next(j + 2 + n + 2, out + Slice(body, j + 2, j + 2 + n))
  }

  lemma TurnsAlike(body: Bytes, i: int, a: Bytes, b: Bytes)
    ensures TurnAt(body, i, a).Stop? <==> TurnAt(body, i, b).Stop?
    ensures TurnAt(body, i, a).Next? ==> TurnAt(body, i, a).i == TurnAt(body, i, b).i
  {
    hide Find, LineSize, Slice;
  }

  /** What the loop answers, if it ends after at most `turns` more turns. */
  function Outcome(body: Bytes, i: int, out: Bytes, turns: nat): Option<Bytes>
    decreases turns
  {
    match TurnAt(body, i, out)
    case Stop(answer) => Some(answer)
    case Next(i', out') => if turns == 0 then None else Outcome(body, i', out', turns - 1)
  }

  /** A number of turns that is enough whenever any is: see EndsIffWithinLength. */
  function Answer(body: Bytes): Option<Bytes> {
    Outcome(body, 0, [], |body| + 1)
  }

  /** A turn by its parts: the line's end j, when there is one, and the number n on it. */
  lemma TurnParts(body: Bytes, i: int, out: Bytes)
    ensures var t, j := TurnAt(body, i, out), Find(body, CRLF, Index(body, i));
            && (j.None? ==> t == Stop(if out != [] then out else body))
            && (j.Some? ==>
                  var n := LineSize(Slice(body, i, j.value));
                  && (n.None? ==> t == Stop(body))
                  && (n.Some? && n.value == 0 ==> t == Stop(out))
                  && (n.Some? && n.value != 0 ==>
                        t == Next(j.value + 2 + n.value + 2, out + Slice(body, j.value + 2, j.value + 2 + n.value))))
  {
    hide Find, LineSize, Slice, Index;
  }

  method DechunkOnce(body: Bytes) returns (decoded: Bytes)
    requires Answer(body).Some?
    ensures Answer(body) == Some(decoded)
  {
    hide Find, LineSize, Slice, Index, TurnAt;
    var out: Bytes := [];
    var i := 0;
    ghost var turns: nat := |body| + 1;
    while true
      invariant Outcome(body, i, out, turns) == Answer(body)
      decreases turns
    {
      TurnParts(body, i, out);
      var j := Find(body, CRLF, Index(body, i));
      if j.None? { return if out != [] then out else body; }
      var n := LineSize(Slice(body, i, j.value));
      if n.None? { return body; }
      if n.value == 0 { return out; }
      out := out + Slice(body, j.value + 2, j.value + 2 + n.value);
      i := j.value + 2 + n.value + 2;
      turns := turns - 1;
    }
  }

  // ---- when the loop ends --------------------------------------------------------------------------------

  /** The place reached after k turns, None once the loop has ended. */
  function Place(body: Bytes, p: nat, k: nat): (q: Option<nat>)
    decreases k
  {
    if k == 0 then Some(p)
    else
      var t := TurnAt(body, p, []);
      if t.Stop? then None else Place(body, Index(body, t.i), k - 1)
  }

  /** A position matters only through the place it names. */
  lemma SamePlace(body: Bytes, i: int, out: Bytes)
    ensures TurnAt(body, i, out) == TurnAt(body, Index(body, i), out)
  {
    hide Find, LineSize;
    assert Index(body, Index(body, i)) == Index(body, i);
  }

  lemma {:induction false} EndsByPlaces(body: Bytes, i: int, out: Bytes, turns: nat)
    ensures Outcome(body, i, out, turns).Some? <==> Place(body, Index(body, i), turns + 1).None?
    decreases turns
  {
    hide TurnAt, Index;
    SamePlace(body, i, []);
    TurnsAlike(body, i, out, []);
    var t := TurnAt(body, i, out);
    if t.Next? {
      if turns > 0 {
        EndsByPlaces(body, t.i, t.out, turns - 1);
      } else {
        assert Place(body, Index(body, t.i), 0).Some?;
      }
    }
  }

  lemma {:induction false} PlaceAdd(body: Bytes, p: nat, a: nat, b: nat)
    ensures Place(body, p, a + b) ==
            match Place(body, p, a) case None => None case Some(q) => Place(body, q, b)
    decreases a
  {
    hide TurnAt, Index;
    if a > 0 {
      var t := TurnAt(body, p, []);
      if t.Next? { PlaceAdd(body, Index(body, t.i), a - 1, b); }
    }
  }

  lemma {:induction false} PlaceWithin(body: Bytes, p: nat, k: nat)
    requires p <= |body|
    ensures Place(body, p, k).Some? ==> Place(body, p, k).value <= |body|
    decreases k
  {
    hide TurnAt;
    if k > 0 {
      var t := TurnAt(body, p, []);
      if t.Next? { PlaceWithin(body, Index(body, t.i), k - 1); }
    }
  }

  /** A place that is come back to is come back to for ever. */
  lemma {:induction false} CircleGoesOn(body: Bytes, p: nat, d: nat, k: nat)
    requires d > 0 && Place(body, p, d) == Some(p)
    ensures Place(body, p, k).Some?
    decreases k
  {
    hide Place;
    if k < d {
      PlaceAdd(body, p, k, d - k);
    } else {
      PlaceAdd(body, p, d, k - d);
      CircleGoesOn(body, p, d, k - d);
    }
  }

  /** As many places as the body has bytes, and one more: going on longer means coming back. */
  lemma LongRunCircles(body: Bytes, p: nat, k: nat)
    requires p <= |body| && Place(body, p, |body| + 2).Some?
    ensures Place(body, p, k).Some?
  {
    hide Place;
    var n := |body| + 2;
    forall m | 0 <= m < n
      ensures Place(body, p, m).Some? && Place(body, p, m).value <= |body|
    {
      PlaceAdd(body, p, m, n - m);
      PlaceWithin(body, p, m);
    }
    var places := seq(n, m requires 0 <= m < n && Place(body, p, m).Some? => Place(body, p, m).value);
    var a, b := Pigeonhole(places, Places(|body|));
    CircleFrom(body, p, a, b, k);
  }

  lemma CircleFrom(body: Bytes, p: nat, a: nat, b: nat, k: nat)
    requires a < b && Place(body, p, a).Some? && Place(body, p, b) == Place(body, p, a)
    ensures Place(body, p, k).Some?
  {
    hide Place;
    var q := Place(body, p, a).value;
    PlaceAdd(body, p, a, b - a);
    if k <= a {
      PlaceAdd(body, p, k, a - k);
    } else {
      PlaceAdd(body, p, a, k - a);
      CircleGoesOn(body, q, b - a, k - a);
    }
  }

  function Places(n: nat): (s: set<nat>)
    ensures |s| == n + 1 && forall q: nat :: q in s <==> q <= n
  {
    if n == 0 then {0} else Places(n - 1) + {n}
  }

  /** The loop ends at all exactly when it ends within a number of turns that the body's length bounds. */
  lemma EndsIffWithinLength(body: Bytes)
    ensures (exists turns :: Outcome(body, 0, [], turns).Some?) <==> Answer(body).Some?
  {
    hide Outcome;
    if turns: nat :| Outcome(body, 0, [], turns).Some? {
      NotMuchLonger(body, turns);
    }
  }

  lemma NotMuchLonger(body: Bytes, turns: nat)
    requires Outcome(body, 0, [], turns).Some?
    ensures Answer(body).Some?
  {
    EndsByPlaces(body, 0, [], turns);
    EndsByPlaces(body, 0, [], |body| + 1);
    hide Outcome, Place;
    if Place(body, Index(body, 0), |body| + 2).Some? {
      LongRunCircles(body, Index(body, 0), turns + 1);
    }
  }

  /** More turns than needed change nothing. */
  lemma {:induction false} MoreTurns(body: Bytes, i: int, out: Bytes, turns: nat, more: nat)
    requires Outcome(body, i, out, turns).Some? && turns <= more
    ensures Outcome(body, i, out, more) == Outcome(body, i, out, turns)
    decreases turns
  {
    hide TurnAt;
    var t := TurnAt(body, i, out);
    if t.Next? { MoreTurns(body, t.i, t.out, turns - 1, more - 1); }
  }

  /** A size of minus six that follows nothing: the next position is the line itself. */
  lemma {:induction false} NegativeSizeCircles(out: Bytes, turns: nat)
    ensures Outcome([45, 54, 13, 10], 0, out, turns).None?
    decreases turns
  {
    var body: Bytes := [45, 54, 13, 10];
    MinusSix(body);
    TurnsAlike(body, 0, out, []);
    hide TurnAt;
    if turns > 0 { NegativeSizeCircles(TurnAt(body, 0, out).out, turns - 1); }
  }

  lemma MinusSix(body: Bytes)
    requires body == [45, 54, 13, 10]
    ensures TurnAt(body, 0, []).Next? && TurnAt(body, 0, []).i == 0
  {
    var line: Bytes := [45, 54];
    LineEndsAtFirstCrlf(line, []);
    assert body == line + CRLF + [];
    assert Slice(body, 0, 2) == line;
    BeforeWhole(line);
    assert line[1..] == [54] && [54 as Byte][1..] == [];
    assert HexDigits([54], 0, true) == HexDigits([], 6, false);
    assert Strip(line) == line by { StripTrimmed(line); }
    assert LineSize(line) == Some(-6);
  }

  lemma BeforeWhole(line: Bytes)
    ensures SEMICOLON !in line ==> Before(line, SEMICOLON) == line
  {
  }

  // ---- well-formed bodies ------------------------------------------------------------------------------------

  /** At position i of `body` stands a size line that ends at j and declares n. */
  predicate SizedLine(body: Bytes, i: nat, j: nat, n: int) {
    i <= j <= |body| && Find(body, CRLF, i) == Some(j) && LineSize(body[i..j]) == Some(n)
  }

  function Shifted(r: Option<nat>, d: nat): Option<nat> {
    match r case Some(k) => Some(d + k) case None => None
  }

  /** Searching from inside a buffer is searching its tail. */
  lemma {:induction false} FindShift(front: Bytes, tail: Bytes, needle: Bytes, i: nat)
    ensures Find(front + tail, needle, |front| + i) == Shifted(Find(tail, needle, i), |front|)
    decreases |tail| - i
  {
    if i + |needle| <= |tail| {
      assert (front + tail)[|front| + i..|front| + i + |needle|] == tail[i..i + |needle|];
      AtSlice(front + tail, needle, |front| + i);
      AtSlice(tail, needle, i);
      FindShift(front, tail, needle, i + 1);
    }
  }

  /** A size line inside a body is found, and read, from the position where it starts. */
  lemma LineInside(body: Bytes, front: Bytes, numeral: Bytes, extension: Bytes, n: nat, rest: Bytes)
    requires IsSizeLine(numeral, extension, n)
    requires body == front + (numeral + extension + CRLF + rest)
    ensures var j := |front| + |numeral + extension|;
            && SizedLine(body, |front|, j, n) && j + 2 <= |body|
            && body[j + 2..] == rest
  {
    hide LineSize;
    var line := numeral + extension;
    SizeLineValue(numeral, extension, n);
    LineEndsAtFirstCrlf(line, rest);
    FindShift(front, line + CRLF + rest, CRLF, 0);
    assert body[|front|..|front| + |line|] == line;
  }

  lemma TurnAtLine(body: Bytes, i: nat, out: Bytes, j: nat, n: nat)
    requires SizedLine(body, i, j, n)
    ensures TurnAt(body, i, out) == if n == 0 then Stop(out) else Next(j + 2 + n + 2, out + Slice(body, j + 2, j + 2 + n))
  {
    hide LineSize, Find;
    if i == j {
      assert body[i..j] == [] == Slice(body, i, j);
    } else {
      assert Slice(body, i, j) == body[i..j];
    }
  }

  lemma {:induction false} OnceWellFormed(body: Bytes, front: Bytes, out: Bytes, chunks: seq<Chunk>,
                                          numeral: Bytes, extension: Bytes, trailer: Bytes)
    requires forall k :: k in chunks ==> WellFormed(k)
    requires IsSizeLine(numeral, extension, 0)
    requires body == front + EncodeBody(chunks, numeral + extension, trailer)
    ensures Outcome(body, |front|, out, |chunks|) == Some(out + Payload(chunks))
    decreases |chunks|
  {
    hide LineSize, Find, HexValue, TurnAt;
    TurnsAlike(body, |front|, out, []);
    if chunks == [] {
      LineInside(body, front, numeral, extension, 0, trailer);
      TurnAtLine(body, |front|, out, |front| + |numeral + extension|, 0);
      assert out + Payload(chunks) == out;
    } else {
      var k := chunks[0];
      assert k in chunks;
      var rest := EncodeBody(chunks[1..], numeral + extension, trailer);
      assert body == front + EncodeChunk(k) + rest;
      OnceWellFormed(body, front + EncodeChunk(k), out + k.payload, chunks[1..], numeral, extension, trailer);
      OneChunk(body, front, out, k, rest);
      assert out + k.payload + Payload(chunks[1..]) == out + (k.payload + Payload(chunks[1..]));
    }
  }

  lemma OneChunk(body: Bytes, front: Bytes, out: Bytes, k: Chunk, rest: Bytes)
    requires WellFormed(k) && body == front + EncodeChunk(k) + rest
    ensures TurnAt(body, |front|, out) == Next(|front + EncodeChunk(k)|, out + k.payload)
  {
    hide LineSize, Find, HexValue, TurnAt;
    var afterLine := k.payload + CRLF + rest;
    var j, n := |front| + |k.numeral + k.extension|, |k.payload|;
    assert body == front + (k.numeral + k.extension + CRLF + afterLine);
    LineInside(body, front, k.numeral, k.extension, n, afterLine);
    TurnAtLine(body, |front|, out, j, n);
    assert |body| == j + 2 + |afterLine|;
    assert Slice(body, j + 2, j + 2 + n) == body[j + 2..][..n] == k.payload;
    assert j + 2 + n + 2 == |front + EncodeChunk(k)|;
  }

  /** Both decoders of the front door recover the joined payloads of every well-formed body. */
  lemma DecodersAgree(chunks: seq<Chunk>, numeral: Bytes, extension: Bytes, trailer: Bytes)
    requires forall k :: k in chunks ==> WellFormed(k)
    requires IsSizeLine(numeral, extension, 0)
    ensures var body := EncodeBody(chunks, numeral + extension, trailer);
            && Decode(START, body).out == Payload(chunks)
            && Answer(body) == Some(Payload(chunks))
  {
    hide LineSize, Outcome, Find, HexValue;
    var body := EncodeBody(chunks, numeral + extension, trailer);
    DecodeWellFormed(START, chunks, numeral, extension, trailer);
    assert [] + body == body;
    OnceWellFormed(body, [], [], chunks, numeral, extension, trailer);
    EndsIffWithinLength(body);
    MoreTurns(body, 0, [], |chunks|, |chunks| + |body| + 1);
    MoreTurns(body, 0, [], |body| + 1, |chunks| + |body| + 1);
    assert [] + Payload(chunks) == Payload(chunks);
  }
}
