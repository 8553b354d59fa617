/**
  The chunked transfer decoders of the hub front door (section 7.1 of RFC 9112): the incremental one that
  serves resumed event streams and the one-shot one that serves buffered answers.
 */
module ChunkedBody {
  import opened Prelude
  import opened ByteText

  datatype Mode = Size | Data | Crlf | Done

  /** The `state` dictionary the incremental decoder carries between reads. */
  datatype Cursor = Cursor(mode: Mode, size: int)

  /** What one call yields: decoded bytes, the unconsumed tail, and the state for the next call. */
  datatype Decoded = Decoded(out: Bytes, rest: Bytes, cursor: Cursor)

  const START := Cursor(Size, 0)

  /** The number on a chunk-size line, extensions dropped. */
  function LineSize(line: Bytes): Option<int> {
    ParseHex(Strip(Before(line, SEMICOLON)))
  }

  function Rank(m: Mode): nat {
    match m case Data => 3 case Crlf => 2 case Size => 1 case Done => 0
  }

  function Prepend(out: Bytes, d: Decoded): Decoded {
    d.(out := out + d.out)
  }

  /** The bytes kept after the last-chunk line: whatever follows the next CRLF, or nothing. */
  function AfterLastChunk(buf: Bytes): Bytes {
    match Find(buf, CRLF, 0)
    case Some(j) => buf[j + 2..]
    case None => []
  }

  /** Line ends by their bytes. */
  predicate LineEnd(s: Bytes, i: int) {
    0 <= i && i + 2 <= |s| && s[i] == 13 && s[i + 1] == 10
  }

  /** What is kept there begins right after the first line end; without one nothing is kept. */
  lemma AfterLastChunkIff(buf: Bytes, j: nat)
    ensures LineEnd(buf, j) && (forall k :: k < j ==> !LineEnd(buf, k)) ==> AfterLastChunk(buf) == buf[j + 2..]
    ensures (forall k :: !LineEnd(buf, k)) ==> AfterLastChunk(buf) == []
  {
    hide Find;
    FindFirst(buf, CRLF, 0);
    forall k: int
      ensures At(buf, CRLF, k) <==> LineEnd(buf, k)
    {
      assert LineEnd(buf, k) ==> forall t :: 0 <= t < 2 ==> buf[k + t] == CRLF[t];
      if At(buf, CRLF, k) { assert buf[k + 0] == CRLF[0] && buf[k + 1] == CRLF[1]; }
    }
  }

  /** One pass of the incremental decoder over `buf`, starting in state `c`. */
  function Decode(c: Cursor, buf: Bytes): Decoded
    decreases |buf|, Rank(c.mode)
  {
    match c.mode
    case Size =>
      (match Find(buf, CRLF, 0)
       case None => Decoded([], buf, c)
       case Some(i) =>
         match LineSize(buf[..i])
         case None => Decoded([], buf, c)
         case Some(n) =>
           if n == 0 then Decoded([], AfterLastChunk(buf[i + 2..]), Cursor(Done, c.size))
           else Decode(Cursor(Data, n), buf[i + 2..]))
    case Data =>
      var take := if c.size < |buf| then c.size else |buf|;
      var out, rest, left := SliceTo(buf, take), SliceFrom(buf, take), c.size - take;
      if left == 0 then Prepend(out, Decode(Cursor(Crlf, 0), rest))
      else Decoded(out, rest, Cursor(Data, left))
    case Crlf =>
      if |buf| < 2 then Decoded([], buf, c)
      else Decode(Cursor(Size, c.size), if At(buf, CRLF, 0) then buf[2..] else buf)
    case Done => Decoded([], buf, c)
  }

  /**
    No chunk-size line that decoding `buf` from `c` reaches declares a negative number. RFC 9112 has no
    negative sizes; Python's integer parser accepts them.
   */
  predicate Unsigned(c: Cursor, buf: Bytes)
    decreases |buf|, Rank(c.mode)
  {
    match c.mode
    case Size =>
      (match Find(buf, CRLF, 0)
       case None => true
       case Some(i) =>
         match LineSize(buf[..i])
         case None => true
         case Some(n) => n == 0 || (n > 0 && Unsigned(Cursor(Data, n), buf[i + 2..])))
    case Data => c.size >= 0 && (c.size <= |buf| ==> Unsigned(Cursor(Crlf, 0), buf[c.size..]))
    case Crlf => |buf| < 2 || Unsigned(Cursor(Size, c.size), if At(buf, CRLF, 0) then buf[2..] else buf)
    case Done => true
  }

  /** `whole` is what `first` followed by `second` decoded; the tail too, unless `first` had already seen the last chunk. */
  predicate Joins(first: Decoded, second: Decoded, whole: Decoded) {
    && whole.out == first.out + second.out
    && whole.cursor == second.cursor
    && (first.cursor.mode != Done ==> whole.rest == second.rest)
    && (whole.cursor.mode != Done ==> first.cursor.mode != Done)
  }

  lemma JoinsPrepend(p: Bytes, first: Decoded, second: Decoded, whole: Decoded)
    requires Joins(first, second, whole)
    ensures Joins(Prepend(p, first), second, Prepend(p, whole))
  {
    assert p + (first.out + second.out) == (p + first.out) + second.out;
  }

  /** Decoding `a`, then what it left over together with `b`, is decoding `a + b` at once. */
  predicate CutAgrees(c: Cursor, a: Bytes, b: Bytes) {
    var first := Decode(c, a);
    Unsigned(first.cursor, first.rest + b)
    && Joins(first, Decode(first.cursor, first.rest + b), Decode(c, a + b))
  }

  /** When decoding `a` makes no progress, the second call starts over on all the bytes. */
  lemma CutWithoutProgress(c: Cursor, a: Bytes, b: Bytes)
    requires Unsigned(c, a + b)
    requires Decode(c, a) == Decoded([], a, c)
    ensures CutAgrees(c, a, b)
  {
    var whole := Decode(c, a + b);
    assert [] + whole.out == whole.out;
  }

  /**
    Cutting a read anywhere changes nothing that is decoded: the same bytes come out, the decoder ends in
    the same state, and it keeps the same unconsumed tail unless the cut comes after the last-chunk line.
   */
  lemma {:induction false} CutInvariance(c: Cursor, a: Bytes, b: Bytes)
    requires Unsigned(c, a + b)
    ensures CutAgrees(c, a, b)
    decreases |a|, Rank(c.mode), 1
  {
    hide LineSize, Find;
    match c.mode
    case Size => CutAtSizeLine(c, a, b);
    case Data =>
      if c.size <= |a| {
        CutAfterPayload(c, a, b);
      } else {
        CutInsidePayload(c, a, b);
      }
    case Crlf =>
      if |a| < 2 {
        CutWithoutProgress(c, a, b);
      } else {
        AtPrefix(a, b, CRLF, 0);
        var a' := if At(a, CRLF, 0) then a[2..] else a;
        assert (if At(a + b, CRLF, 0) then (a + b)[2..] else a + b) == a' + b;
        CutInvariance(Cursor(Size, c.size), a', b);
      }
    case Done => CutWithoutProgress(c, a, b);
  }

  lemma {:induction false} CutAtSizeLine(c: Cursor, a: Bytes, b: Bytes)
    requires c.mode == Size && Unsigned(c, a + b)
    ensures CutAgrees(c, a, b)
    decreases |a|, Rank(c.mode), 0
  {
    if Find(a, CRLF, 0).None? || LineSize(a[..Find(a, CRLF, 0).value]).None? {
      CutWithoutProgress(c, a, b);
    } else {
      var i := Find(a, CRLF, 0).value;
      FindInPrefix(a, b, CRLF, 0);
      assert (a + b)[..i] == a[..i];
      assert (a + b)[i + 2..] == a[i + 2..] + b;
      var n := LineSize(a[..i]).value;
      if n == 0 {
        assert Decode(c, a).cursor == Cursor(Done, c.size) == Decode(c, a + b).cursor;
      } else {
        CutInvariance(Cursor(Data, n), a[i + 2..], b);
        assert Decode(c, a) == Decode(Cursor(Data, n), a[i + 2..]);
        assert Decode(c, a + b) == Decode(Cursor(Data, n), a[i + 2..] + b);
      }
    }
  }

  lemma {:induction false} CutAfterPayload(c: Cursor, a: Bytes, b: Bytes)
    requires c.mode == Data && c.size <= |a| && Unsigned(c, a + b)
    ensures CutAgrees(c, a, b)
    decreases |a|, Rank(c.mode), 0
  {
    var p, t, crlf := a[..c.size], a[c.size..], Cursor(Crlf, 0);
    assert Decode(c, a) == Prepend(p, Decode(crlf, t)) by {
      PayloadComplete(c, a);
    }
    assert (a + b)[..c.size] == p && (a + b)[c.size..] == t + b;
    assert Decode(c, a + b) == Prepend(p, Decode(crlf, t + b)) by {
      PayloadComplete(c, a + b);
    }
    CutInvariance(crlf, t, b);
    var first := Decode(crlf, t);
    JoinsPrepend(p, first, Decode(first.cursor, first.rest + b), Decode(crlf, t + b));
  }

  /** The whole payload is at hand: it is emitted and its closing CRLF is awaited. */
  lemma PayloadComplete(c: Cursor, buf: Bytes)
    requires c.mode == Data && 0 <= c.size <= |buf|
    ensures Decode(c, buf) == Prepend(buf[..c.size], Decode(Cursor(Crlf, 0), buf[c.size..]))
  {
    SliceWithin(buf, c.size);
  }

  /** Part of the payload is at hand: all of it is emitted and the rest of the payload is awaited. */
  lemma PayloadPartial(c: Cursor, buf: Bytes)
    requires c.mode == Data && c.size > |buf|
    ensures Decode(c, buf) == Decoded(buf, [], Cursor(Data, c.size - |buf|))
  {
    SliceWithin(buf, |buf|);
    assert buf[..|buf|] == buf && buf[|buf|..] == [];
  }

  lemma CutInsidePayload(c: Cursor, a: Bytes, b: Bytes)
    requires c.mode == Data && c.size > |a|
    requires Unsigned(c, a + b)
    ensures CutAgrees(c, a, b)
  {
    hide Decode, Unsigned;
    var rest := Cursor(Data, c.size - |a|);
    UnsignedPayload(c, a + b);
    UnsignedPayload(rest, b);
    PayloadPartial(c, a);
    assert [] + b == b;
    if rest.size <= |b| {
      PayloadComplete(c, a + b);
      PayloadComplete(rest, b);
      assert (a + b)[c.size..] == b[rest.size..];
      assert (a + b)[..c.size] == a + b[..rest.size];
      PrependTwice(a, b[..rest.size], Decode(Cursor(Crlf, 0), b[rest.size..]));
    } else {
      PayloadPartial(c, a + b);
      PayloadPartial(rest, b);
    }
  }

  lemma UnsignedPayload(c: Cursor, buf: Bytes)
    requires c.mode == Data
    ensures Unsigned(c, buf) <==> c.size >= 0 && (c.size <= |buf| ==> Unsigned(Cursor(Crlf, 0), buf[c.size..]))
  {
  }

  /** A prefix of a body without negative sizes has none either. */
  lemma {:induction false} UnsignedPrefix(c: Cursor, a: Bytes, b: Bytes)
    requires Unsigned(c, a + b)
    ensures Unsigned(c, a)
    decreases |a|, Rank(c.mode)
  {
    hide LineSize;
    match c.mode
    case Size =>
      if Find(a, CRLF, 0).Some? {
        var i := Find(a, CRLF, 0).value;
        FindInPrefix(a, b, CRLF, 0);
        assert (a + b)[..i] == a[..i] && (a + b)[i + 2..] == a[i + 2..] + b;
        if LineSize(a[..i]).Some? && LineSize(a[..i]).value > 0 {
          UnsignedPrefix(Cursor(Data, LineSize(a[..i]).value), a[i + 2..], b);
        }
      }
    case Data =>
      if c.size <= |a| {
        assert (a + b)[c.size..] == a[c.size..] + b;
        UnsignedPrefix(Cursor(Crlf, 0), a[c.size..], b);
      }
    case Crlf =>
      if |a| >= 2 {
        AtPrefix(a, b, CRLF, 0);
        var a' := if At(a, CRLF, 0) then a[2..] else a;
        assert (if At(a + b, CRLF, 0) then (a + b)[2..] else a + b) == a' + b;
        UnsignedPrefix(Cursor(Size, c.size), a', b);
      }
    case Done =>
  }

  // ---- the incremental decoder as it is written: a loop over a mutable state -------------------

  class ChunkState {
    var mode: Mode
    var size: int

    constructor ()
      ensures Cursor(mode, size) == START
    {
      mode, size := Size, 0;
    }
  }

  /** What remains to be decoded once the available part of a payload has been taken. */
  function AfterData(left: int, rest: Bytes): Decoded {
    if left == 0 then Decode(Cursor(Crlf, 0), rest) else Decoded([], rest, Cursor(Data, left))
  }

  lemma DataStep(c: Cursor, buf: Bytes, take: int)
    requires c.mode == Data && take == if c.size < |buf| then c.size else |buf|
    ensures Decode(c, buf) == Prepend(SliceTo(buf, take), AfterData(c.size - take, SliceFrom(buf, take)))
  {
  }

  lemma PrependTwice(p: Bytes, q: Bytes, d: Decoded)
    ensures Prepend(p, Prepend(q, d)) == Prepend(p + q, d)
  {
    assert p + (q + d.out) == (p + q) + d.out;
  }

  /** Group._dechunk: consumes what it can of `input` and leaves the tail for the next read. */
  method Dechunk(input: Bytes, state: ChunkState) returns (out: Bytes, buf: Bytes)
    modifies state
    ensures Decoded(out, buf, Cursor(state.mode, state.size)) == Decode(old(Cursor(state.mode, state.size)), input)
  {
    hide Find, LineSize;
    ghost var whole := Decode(Cursor(state.mode, state.size), input);
    out, buf := [], input;
    while true
      invariant Prepend(out, Decode(Cursor(state.mode, state.size), buf)) == whole
      decreases |buf|, Rank(state.mode)
    {
      if state.mode == Size {
        var i := Find(buf, CRLF, 0);
        if i.None? { break; }
        var n := LineSize(buf[..i.value]);
        if n.None? { break; }
        buf := buf[i.value + 2..];
        if n.value == 0 {
          state.mode := Done;
          var j := Find(buf, CRLF, 0);
          buf := if j.Some? then buf[j.value + 2..] else [];
          continue;
        }
        state.size := n.value;
        state.mode := Data;
      }
      if state.mode == Data {
        var take := if state.size < |buf| then state.size else |buf|;
        DataStep(Cursor(Data, state.size), buf, take);
        PrependTwice(out, SliceTo(buf, take), AfterData(state.size - take, SliceFrom(buf, take)));
        out := out + SliceTo(buf, take);
        buf := SliceFrom(buf, take);
        state.size := state.size - take;
        if state.size == 0 {
          state.mode := Crlf;
          continue;
        }
        break;
      }
      if state.mode == Crlf {
        if |buf| < 2 { break; }
        if At(buf, CRLF, 0) { buf := buf[2..]; }
        state.mode := Size;
        continue;
      }
      break;
    }
  }

  // ---- well-formed bodies -----------------------------------------------------------------------

  /** A chunk as a sender writes it: base-16 numeral, optional extensions, payload. */
  datatype Chunk = Chunk(numeral: Bytes, extension: Bytes, payload: Bytes)

  /** Extensions: nothing, or blanks followed by a semicolon and anything without a carriage return. */
  predicate IsExtension(x: Bytes) {
    && CR !in x
    && (x == [] || x[0] == SEMICOLON || ((x[0] == 32 || x[0] == 9) && IsExtension(x[1..])))
  }

  predicate IsSizeLine(numeral: Bytes, extension: Bytes, n: nat) {
    numeral != [] && AllHex(numeral) && HexValue(numeral) == n && IsExtension(extension)
  }

  predicate WellFormed(k: Chunk) {
    k.payload != [] && IsSizeLine(k.numeral, k.extension, |k.payload|)
  }

  function EncodeChunk(k: Chunk): Bytes {
    k.numeral + k.extension + CRLF + (k.payload + CRLF)
  }

  /** The body after its chunks: the last-chunk line and a trailer section of any bytes. */
  function EncodeBody(chunks: seq<Chunk>, lastLine: Bytes, trailer: Bytes): Bytes {
    if chunks == [] then lastLine + CRLF + trailer
    else EncodeChunk(chunks[0]) + EncodeBody(chunks[1..], lastLine, trailer)
  }

  function Payload(chunks: seq<Chunk>): Bytes {
    if chunks == [] then [] else chunks[0].payload + Payload(chunks[1..])
  }

  lemma LineEndsAtFirstCrlf(line: Bytes, rest: Bytes)
    requires CR !in line
    ensures var buf := line + CRLF + rest;
            && Find(buf, CRLF, 0) == Some(|line|)
            && buf[..|line|] == line
            && buf[|line| + 2..] == rest
  {
    var buf := line + CRLF + rest;
    assert At(buf, CRLF, |line|);
    forall k | 0 <= k < |line|
      ensures !At(buf, CRLF, k)
    {
      assert buf[k + 0] == line[k] && line[k] in line && CRLF[0] == CR;
    }
    FindUnique(buf, CRLF, 0, |line|);
  }

  lemma {:induction false} NumeralBeforeExtension(numeral: Bytes, extension: Bytes)
    requires numeral != [] && AllHex(numeral) && IsExtension(extension)
    ensures Strip(Before(numeral + extension, SEMICOLON)) == numeral
    decreases |extension|
  {
    assert SEMICOLON !in numeral;
    assert numeral[0] in numeral && Last(numeral) in numeral;
    StripTrimmed(numeral);
    BlanksAreStripped(numeral, [], extension);
    assert numeral + [] + extension == numeral + extension;
  }

  lemma {:induction false} BlanksAreStripped(numeral: Bytes, blanks: Bytes, extension: Bytes)
    requires numeral != [] && AllHex(numeral) && IsExtension(extension)
    requires forall b :: b in blanks ==> b == 32 || b == 9
    ensures Strip(Before(numeral + blanks + extension, SEMICOLON)) == numeral
    decreases |extension|
  {
    var front := numeral + blanks;
    assert SEMICOLON !in front;
    if extension == [] {
      assert front + extension == front;
      StripBlanks(numeral, blanks);
    } else if extension[0] == SEMICOLON {
      BeforeSeparator(front, SEMICOLON, extension[1..]);
      assert front + [SEMICOLON] + extension[1..] == front + extension;
      StripBlanks(numeral, blanks);
    } else {
      BlanksAreStripped(numeral, blanks + [extension[0]], extension[1..]);
      assert numeral + (blanks + [extension[0]]) + extension[1..] == front + extension;
    }
  }

  lemma {:induction false} StripBlanks(numeral: Bytes, blanks: Bytes)
    requires numeral != [] && AllHex(numeral)
    requires forall b :: b in blanks ==> b == 32 || b == 9
    ensures Strip(numeral + blanks) == numeral
    decreases |blanks|
  {
    assert numeral[0] in numeral && Last(numeral) in numeral;
    var s := numeral + blanks;
    assert s[0] == numeral[0];
    assert LStrip(s) == s;
    if blanks == [] {
      assert s == numeral;
    } else {
      assert forall b :: b in Init(blanks) ==> b in blanks;
      StripBlanks(numeral, Init(blanks));
      assert Last(s) == Last(blanks) && Last(blanks) in blanks;
      assert Init(s) == numeral + Init(blanks);
      assert LStrip(Init(s)) == Init(s);
    }
  }

  lemma SizeLineValue(numeral: Bytes, extension: Bytes, n: nat)
    requires IsSizeLine(numeral, extension, n)
    ensures CR !in numeral + extension
    ensures LineSize(numeral + extension) == Some(n)
  {
    NumeralBeforeExtension(numeral, extension);
    ParseHexNumeral(numeral);
  }

  /** One well-formed chunk at the head of the buffer: its payload is emitted and the next line awaited. */
  lemma DecodeOneChunk(c: Cursor, k: Chunk, rest: Bytes)
    requires c.mode == Size && WellFormed(k)
    ensures Decode(c, EncodeChunk(k) + rest) == Prepend(k.payload, Decode(Cursor(Size, 0), rest))
    ensures Unsigned(Cursor(Size, 0), rest) ==> Unsigned(c, EncodeChunk(k) + rest)
  {
    hide LineSize, Find, IsSizeLine;
    var line, n := k.numeral + k.extension, |k.payload|;
    var afterPayload := CRLF + rest;
    var tail := k.payload + afterPayload;
    SizeLineValue(k.numeral, k.extension, n);
    LineEndsAtFirstCrlf(line, tail);
    assert EncodeChunk(k) + rest == line + CRLF + tail;
    assert Decode(c, line + CRLF + tail) == Decode(Cursor(Data, n), tail);
    PayloadComplete(Cursor(Data, n), tail);
    assert tail[..n] == k.payload && tail[n..] == afterPayload;
    assert At(afterPayload, CRLF, 0) && afterPayload[2..] == rest;
    assert Decode(Cursor(Crlf, 0), afterPayload) == Decode(Cursor(Size, 0), rest);
    assert Unsigned(Cursor(Crlf, 0), afterPayload) == Unsigned(Cursor(Size, 0), rest);
  }

  /** The incremental decoder recovers exactly the joined payloads of a well-formed body. */
  lemma {:induction false} DecodeWellFormed(c: Cursor, chunks: seq<Chunk>, numeral: Bytes, extension: Bytes, trailer: Bytes)
    requires c.mode == Size
    requires forall k :: k in chunks ==> WellFormed(k)
    requires IsSizeLine(numeral, extension, 0)
    ensures var body := EncodeBody(chunks, numeral + extension, trailer);
            && Unsigned(c, body)
            && Decode(c, body).out == Payload(chunks)
            && Decode(c, body).cursor.mode == Done
    decreases |chunks|
  {
    if chunks == [] {
      SizeLineValue(numeral, extension, 0);
      LineEndsAtFirstCrlf(numeral + extension, trailer);
    } else {
      DecodeWellFormed(Cursor(Size, 0), chunks[1..], numeral, extension, trailer);
      DecodeOneChunk(c, chunks[0], EncodeBody(chunks[1..], numeral + extension, trailer));
    }
  }

  // ---- where cuts do show -----------------------------------------------------------------------

  /** Every cut of `body` decodes as the whole does. */
  ghost predicate CutsAgree(body: Bytes) {
    forall k :: 0 <= k <= |body| ==> CutJoins(body, k)
  }

  predicate CutJoins(body: Bytes, k: nat)
    requires k <= |body|
  {
    var first := Decode(START, body[..k]);
    Joins(first, Decode(first.cursor, first.rest + body[k..]), Decode(START, body))
  }

  /** Bodies made of this size line and bytes that stay within its chunk decode alike however they are cut. */
  ghost predicate CutSafe(line: Bytes, n: int) {
    forall r: Bytes :: |r| <= (if n < 0 then -n else n) + 1 ==> CutsAgree(line + CRLF + r)
  }

  /**
    A size line is cut-safe exactly when its number is not negative: Python accepts "-5" as a size, and then
    a slice counted from the end of the buffer is emitted, which depends on how much has been read.
   */
  lemma CutSafeIffUnsigned(line: Bytes, n: int)
    requires CR !in line && LineSize(line) == Some(n)
    ensures CutSafe(line, n) <==> n >= 0
  {
    if n >= 0 {
      forall r: Bytes | |r| <= n + 1
        ensures CutsAgree(line + CRLF + r)
      {
        UnsignedLineCuts(line, n, r);
      }
    } else {
      NegativeLineCut(line, n);
    }
  }

  lemma UnsignedLineCuts(line: Bytes, n: nat, r: Bytes)
    requires CR !in line && LineSize(line) == Some(n as int) && |r| <= n + 1
    ensures CutsAgree(line + CRLF + r)
  {
    var body := line + CRLF + r;
    LineEndsAtFirstCrlf(line, r);
    assert Unsigned(START, body) by {
      if n > 0 {
        assert Unsigned(Cursor(Data, n), r) by {
          if n <= |r| {
            assert |r[n..]| < 2;
          }
        }
      }
    }
    forall k | 0 <= k <= |body|
      ensures CutJoins(body, k)
    {
      assert body[..k] + body[k..] == body;
      CutInvariance(START, body[..k], body[k..]);
    }
  }

  lemma NegativeLineCut(line: Bytes, n: int)
    requires CR !in line && LineSize(line) == Some(n) && n < 0
    ensures !CutSafe(line, n)
  {
    hide LineSize, Find, Decode;
    var r: Bytes := seq(-n + 1, i => 88);
    var head := line + CRLF;
    var body := head + r;
    NegativeUncut(line, n, r);
    NegativeCut(line, n, r);
    assert body[..|head|] == head && body[|head|..] == r;
    assert !CutJoins(body, |head|);
    assert |r| <= -n + 1 && !CutsAgree(body);
  }

  /** Uncut, the first byte after the line is emitted. */
  lemma NegativeUncut(line: Bytes, n: int, r: Bytes)
    requires CR !in line && LineSize(line) == Some(n) && n < 0 && |r| == -n + 1
    ensures Decode(START, line + CRLF + r).out != []
  {
    hide LineSize, Find;
    LineEndsAtFirstCrlf(line, r);
    assert Decode(START, line + CRLF + r) == Decode(Cursor(Data, n), r);
    DataStep(Cursor(Data, n), r, n);
    assert SliceTo(r, n) == [r[0]];
  }

  /** Cut after the line, what follows is taken for a size line that has not ended, and nothing is emitted. */
  lemma NegativeCut(line: Bytes, n: int, r: Bytes)
    requires CR !in line && LineSize(line) == Some(n) && n < 0
    requires CR !in r && |r| >= 2
    ensures var first := Decode(START, line + CRLF);
            first.out == [] && Decode(first.cursor, first.rest + r).out == []
  {
    hide LineSize, Find;
    LineEndsAtFirstCrlf(line, []);
    assert line + CRLF + [] == line + CRLF;
    DataStep(Cursor(Data, n), [], n);
    var first := Decode(START, line + CRLF);
    assert first == Decoded([], [], Cursor(Crlf, 0));
    assert first.rest + r == r;
    NoCrlf(r);
  }

  lemma NoCrlf(s: Bytes)
    requires CR !in s
    ensures Find(s, CRLF, 0).None?
  {
    forall k: int | 0 <= k
      ensures !At(s, CRLF, k)
    {
      if k + 2 <= |s| {
        assert s[k + 0] in s && CRLF[0] == CR;
      }
    }
    FindFirst(s, CRLF, 0);
  }
}
