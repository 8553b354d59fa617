/**
  Splitting an event stream into complete frames (a subset of section 9.2 of the WHATWG HTML Standard: a
  frame ends at LF LF or at CR LF CR LF), and reading the position a frame carries on its id line.
 */
module FrameSplitter {
  import opened Prelude
  import opened ByteText

  const LFLF: Bytes := [10, 10]
  const CRLFCRLF: Bytes := [13, 10, 13, 10]

  datatype Split = Split(frames: seq<Bytes>, rest: Bytes)

  /** Where the first complete frame of `buf` ends, separator included. */
  function FrameEnd(buf: Bytes): (r: Option<nat>)
    ensures r.Some? ==> 2 <= r.value <= |buf|
  {
    match (Find(buf, LFLF, 0), Find(buf, CRLFCRLF, 0))
    case (None, None) => None
    case (Some(i), None) => Some(i + 2)
    case (None, Some(j)) => Some(j + 4)
    case (Some(i), Some(j)) => if j < i then Some(j + 4) else Some(i + 2)
  }

  // ---- what a complete frame is, byte by byte ----------------------------------------------------------

  /** LF LF at position i. */
  predicate BlankLine(buf: Bytes, i: int) {
    0 <= i && i + 2 <= |buf| && buf[i] == 10 && buf[i + 1] == 10
  }

  /** CR LF CR LF at position i. */
  predicate CrBlankLine(buf: Bytes, i: int) {
    0 <= i && i + 4 <= |buf| && buf[i] == 13 && buf[i + 1] == 10 && buf[i + 2] == 13 && buf[i + 3] == 10
  }

  predicate Separates(buf: Bytes, i: int) {
    BlankLine(buf, i) || CrBlankLine(buf, i)
  }

  ghost predicate Unseparated(buf: Bytes) {
    forall i :: !Separates(buf, i)
  }

  /** The separator that begins first begins at i. */
  ghost predicate SeparatesFirst(buf: Bytes, i: int) {
    Separates(buf, i) && forall k :: k < i ==> !Separates(buf, k)
  }

  /** The separator that begins first ends at e. */
  ghost predicate EndsFirst(buf: Bytes, e: nat) {
    exists i :: SeparatesFirst(buf, i) && e == i + (if BlankLine(buf, i) then 2 else 4)
  }

  /** Nothing but text and one separator at its end. */
  ghost predicate IsFrame(f: Bytes) {
    EndsFirst(f, |f|)
  }

  lemma AtBytes(buf: Bytes, i: int)
    ensures At(buf, LFLF, i) <==> BlankLine(buf, i)
    ensures At(buf, CRLFCRLF, i) <==> CrBlankLine(buf, i)
  {
    assert BlankLine(buf, i) ==> forall t :: 0 <= t < 2 ==> buf[i + t] == LFLF[t];
    assert CrBlankLine(buf, i) ==> forall t :: 0 <= t < 4 ==> buf[i + t] == CRLFCRLF[t];
    if At(buf, LFLF, i) {
      assert buf[i + 0] == LFLF[0] && buf[i + 1] == LFLF[1];
    }
    if At(buf, CRLFCRLF, i) {
      assert buf[i + 0] == CRLFCRLF[0] && buf[i + 1] == CRLFCRLF[1] && buf[i + 2] == CRLFCRLF[2] && buf[i + 3] == CRLFCRLF[3];
    }
  }

  lemma EndsFirstOnce(buf: Bytes, d: nat, e: nat)
    requires EndsFirst(buf, d) && EndsFirst(buf, e)
    ensures d == e
  {
    var i :| SeparatesFirst(buf, i) && d == i + (if BlankLine(buf, i) then 2 else 4);
    var j :| SeparatesFirst(buf, j) && e == j + (if BlankLine(buf, j) then 2 else 4);
    assert !(i < j) && !(j < i);
  }

  /** A frame is complete exactly when a separator is there, and then it ends with the one that begins first. */
  lemma FrameEndIff(buf: Bytes)
    ensures FrameEnd(buf).None? <==> Unseparated(buf)
    ensures forall e: nat :: FrameEnd(buf) == Some(e) <==> EndsFirst(buf, e)
  {
    hide Find;
    var i, j := Find(buf, LFLF, 0), Find(buf, CRLFCRLF, 0);
    FindFirst(buf, LFLF, 0);
    FindFirst(buf, CRLFCRLF, 0);
    forall k: int
      ensures At(buf, LFLF, k) <==> BlankLine(buf, k)
      ensures At(buf, CRLFCRLF, k) <==> CrBlankLine(buf, k)
    {
      AtBytes(buf, k);
    }
    if i.Some? || j.Some? {
      var k := if j.None? || (i.Some? && i.value <= j.value) then i.value else j.value;
      assert SeparatesFirst(buf, k);
      assert FrameEnd(buf) == Some(k + (if BlankLine(buf, k) then 2 else 4));
      forall e: nat
        ensures FrameEnd(buf) == Some(e) <==> EndsFirst(buf, e)
      {
        if EndsFirst(buf, e) {
          EndsFirstOnce(buf, FrameEnd(buf).value, e);
        }
      }
    } else {
      assert Unseparated(buf);
    }
  }

  /** All complete frames of `buf`, separators kept byte for byte, and the unfinished remainder. */
  function Frames(buf: Bytes): Split
    decreases |buf|
  {
    match FrameEnd(buf)
    case None => Split([], buf)
    case Some(end) =>
      var later := Frames(buf[end..]);
      Split([buf[..end]] + later.frames, later.rest)
  }

  lemma FramesStep(buf: Bytes, end: nat)
    requires FrameEnd(buf) == Some(end)
    ensures Frames(buf).frames == [buf[..end]] + Frames(buf[end..]).frames
    ensures Frames(buf).rest == Frames(buf[end..]).rest
  {
  }

  lemma FramesStop(buf: Bytes)
    requires FrameEnd(buf).None?
    ensures Frames(buf) == Split([], buf)
  {
  }

  /** _parse_frames: the loop that peels one frame at a time off the buffer. */
  method ParseFrames(input: Bytes) returns (out: seq<Bytes>, buf: Bytes)
    ensures Split(out, buf) == Frames(input)
    ensures Joined(out) + buf == input && (forall f :: f in out ==> IsFrame(f)) && Unseparated(buf)
  {
    hide Frames, Find, IsFrame, Unseparated;
    FramesAreComplete(input);
    ghost var whole := Frames(input);
    out, buf := [], input;
    while true
      invariant out + Frames(buf).frames == whole.frames
      invariant Frames(buf).rest == whole.rest
      decreases |buf|
    {
      var i, j := Find(buf, LFLF, 0), Find(buf, CRLFCRLF, 0);
      if i.None? && j.None? {
        FramesStop(buf);
        break;
      }
      var k := if i.None? then j.value else if j.None? || i.value < j.value then i.value else j.value;
      var end := if j == Some(k) && j != i then k + 4 else k + 2;
      SeparatorsNeverTie(buf);
      FramesStep(buf, end);
      assert out + ([buf[..end]] + Frames(buf[end..]).frames) == out + [buf[..end]] + Frames(buf[end..]).frames;
      out, buf := out + [buf[..end]], buf[end..];
    }
  }

  lemma SeparatorsNeverTie(buf: Bytes)
    ensures Find(buf, LFLF, 0).Some? ==> Find(buf, LFLF, 0) != Find(buf, CRLFCRLF, 0)
  {
    hide Find;
    FindFirst(buf, LFLF, 0);
    FindFirst(buf, CRLFCRLF, 0);
    if Find(buf, LFLF, 0).Some? {
      SeparatorsApart(buf, Find(buf, LFLF, 0).value, Find(buf, LFLF, 0).value);
    }
  }

  /** No CR LF CR LF starts at, or shortly before, a LF LF: the two separators never overlap. */
  lemma SeparatorsApart(buf: Bytes, i: nat, j: nat)
    requires At(buf, LFLF, i) && j <= i <= j + 2
    ensures !At(buf, CRLFCRLF, j)
  {
    assert buf[i + 0] == LFLF[0] == LF && buf[i + 1] == LFLF[1] == LF;
    assert CRLFCRLF[0] == CRLFCRLF[2] == CR;
  }

  /**
    The first frame found in a prefix is the first frame of the whole: no separator that is still
    incomplete there can begin before, or overlap, the one that was found.
   */
  lemma FrameEndInPrefix(a: Bytes, b: Bytes)
    requires FrameEnd(a).Some?
    ensures FrameEnd(a + b) == FrameEnd(a)
  {
    hide Find;
    var i, j := Find(a, LFLF, 0), Find(a, CRLFCRLF, 0);
    if i.Some? {
      FindInPrefix(a, b, LFLF, 0);
    }
    if j.Some? {
      FindInPrefix(a, b, CRLFCRLF, 0);
    }
    if i.None? {
      LateLfLf(a, b, j.value);
    } else if j.None? {
      LateCrlfCrlf(a, b, i.value);
    }
  }

  /** A LF LF completed by later bytes starts after a CR LF CR LF that was already complete. */
  lemma LateLfLf(a: Bytes, b: Bytes, j: nat)
    requires Find(a, LFLF, 0).None? && Find(a, CRLFCRLF, 0) == Some(j)
    ensures var i := Find(a + b, LFLF, 0); i.None? || j < i.value
  {
    FindFirst(a + b, LFLF, 0);
    FindFirst(a, LFLF, 0);
    var i := Find(a + b, LFLF, 0);
    FindFirst(a, CRLFCRLF, 0);
    if i.Some? && i.value <= j {
      AtPrefix(a, b, LFLF, i.value);
      assert false;
    }
  }

  /** A CR LF CR LF completed by later bytes starts after a LF LF that was already complete. */
  lemma LateCrlfCrlf(a: Bytes, b: Bytes, i: nat)
    requires Find(a, CRLFCRLF, 0).None? && Find(a, LFLF, 0) == Some(i)
    ensures var j := Find(a + b, CRLFCRLF, 0); j.None? || i < j.value
  {
    var whole := a + b;
    var j := Find(whole, CRLFCRLF, 0);
    FindFirst(whole, CRLFCRLF, 0);
    FindFirst(a, CRLFCRLF, 0);
    FindFirst(a, LFLF, 0);
    AtPrefix(a, b, LFLF, i);
    forall k: nat | k <= i
      ensures !At(whole, CRLFCRLF, k)
    {
      if k + 4 <= |a| {
        AtPrefix(a, b, CRLFCRLF, k);
      } else {
        SeparatorsApart(whole, i, k);
      }
    }
  }

  /** Splitting a stream as it arrives, carrying the remainder, is splitting it at once. */
  lemma {:induction false} SplitInvariance(a: Bytes, b: Bytes)
    ensures Frames(a + b).frames == Frames(a).frames + Frames(Frames(a).rest + b).frames
    ensures Frames(a + b).rest == Frames(Frames(a).rest + b).rest
    decreases |a|
  {
    hide FrameEnd, Frames;
    match FrameEnd(a)
    case None => FramesStop(a);
    case Some(end) =>
      FrameEndInPrefix(a, b);
      assert (a + b)[..end] == a[..end];
      assert (a + b)[end..] == a[end..] + b;
      FramesStep(a, end);
      FramesStep(a + b, end);
      SplitInvariance(a[end..], b);
      var first, middle, later := [a[..end]], Frames(a[end..]).frames, Frames(Frames(a[end..]).rest + b).frames;
      assert first + (middle + later) == (first + middle) + later;
  }

  /** Frames lose no byte: joined together and followed by the remainder they are the stream. */
  function Joined(frames: seq<Bytes>): Bytes {
    if frames == [] then [] else frames[0] + Joined(frames[1..])
  }

  lemma {:induction false} FramesPartitionStream(buf: Bytes)
    ensures Joined(Frames(buf).frames) + Frames(buf).rest == buf
    ensures FrameEnd(Frames(buf).rest).None?
    decreases |buf|
  {
    hide FrameEnd, Frames;
    match FrameEnd(buf)
    case None => FramesStop(buf);
    case Some(end) =>
      FramesStep(buf, end);
      FramesPartitionStream(buf[end..]);
      var later := Frames(buf[end..]);
      assert ([buf[..end]] + later.frames)[1..] == later.frames;
      assert buf == buf[..end] + (Joined(later.frames) + later.rest);
  }

  // ---- the split is the only one there is ----------------------------------------------------------------

  /** Where a separator first ends depends on the bytes up to there only. */
  lemma EndsFirstInPrefix(a: Bytes, b: Bytes, e: nat)
    requires e <= |a| && EndsFirst(a, e)
    ensures EndsFirst(a + b, e)
  {
    FrameEndIff(a);
    FrameEndInPrefix(a, b);
    FrameEndIff(a + b);
  }

  lemma FrameCutOff(buf: Bytes, e: nat)
    requires e <= |buf| && EndsFirst(buf, e)
    ensures IsFrame(buf[..e])
  {
    var i :| SeparatesFirst(buf, i) && e == i + (if BlankLine(buf, i) then 2 else 4);
    var f := buf[..e];
    assert forall k :: Separates(f, k) ==> Separates(buf, k);
    assert SeparatesFirst(f, i);
    assert BlankLine(f, i) <==> BlankLine(buf, i);
  }

  /** Every frame is text that ends with its first separator, and the remainder holds no separator. */
  lemma {:induction false} FramesAreComplete(buf: Bytes)
    ensures forall f :: f in Frames(buf).frames ==> IsFrame(f)
    ensures Unseparated(Frames(buf).rest)
    ensures Joined(Frames(buf).frames) + Frames(buf).rest == buf
    decreases |buf|
  {
    hide FrameEnd, Frames, IsFrame, EndsFirst, Unseparated;
    FrameEndIff(buf);
    FramesPartitionStream(buf);
    match FrameEnd(buf)
    case None => FramesStop(buf);
    case Some(end) =>
      FramesStep(buf, end);
      FrameCutOff(buf, end);
      FramesAreComplete(buf[end..]);
  }

  /** Conversely, complete frames followed by text without a separator come back as exactly those frames. */
  lemma {:induction false} FramesComeBack(frames: seq<Bytes>, rest: Bytes)
    requires (forall f :: f in frames ==> IsFrame(f)) && Unseparated(rest)
    ensures Frames(Joined(frames) + rest) == Split(frames, rest)
    decreases |frames|
  {
    hide FrameEnd, Frames, EndsFirst, Unseparated;
    var buf := Joined(frames) + rest;
    FrameEndIff(buf);
    if frames == [] {
      assert buf == rest;
      FramesStop(buf);
    } else {
      var f, later := frames[0], Joined(frames[1..]) + rest;
      assert buf == f + later && f in frames;
      assert forall g :: g in frames[1..] ==> g in frames;
      EndsFirstInPrefix(f, later, |f|);
      FramesStep(buf, |f|);
      assert buf[..|f|] == f && buf[|f|..] == later;
      FramesComeBack(frames[1..], rest);
      assert [f] + frames[1..] == frames;
    }
  }

  /** Texts, each followed by an empty line. */
  function Terminated(texts: seq<Bytes>): (frames: seq<Bytes>)
    ensures |frames| == |texts| && forall i :: 0 <= i < |texts| ==> frames[i] == texts[i] + [10, 10]
  {
    seq(|texts|, i requires 0 <= i < |texts| => texts[i] + [10, 10])
  }

  lemma TerminatedIsFrame(text: Bytes)
    requires Unseparated(text + [10])
    ensures IsFrame(text + [10, 10])
  {
    var f := text + [10, 10];
    forall k | k < |text|
      ensures !Separates(f, k)
    {
      assert !Separates(text + [10], k);
    }
    assert SeparatesFirst(f, |text|);
  }

  /** The framing engines emit: lines of text without an empty one, each text ended by LF LF, come back one by one. */
  lemma EngineFraming(texts: seq<Bytes>, rest: Bytes)
    requires forall t :: t in texts ==> Unseparated(t + [10])
    requires Unseparated(rest)
    ensures Frames(Joined(Terminated(texts)) + rest) == Split(Terminated(texts), rest)
  {
    forall f | f in Terminated(texts)
      ensures IsFrame(f)
    {
      var i :| 0 <= i < |texts| && f == Terminated(texts)[i];
      assert texts[i] in texts;
      TerminatedIsFrame(texts[i]);
    }
    FramesComeBack(Terminated(texts), rest);
  }
}
