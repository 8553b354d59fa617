/** From socket reads to frames: the byte path of one resume dial. */
module ResumeWire {
  import opened Prelude
  import opened ByteText
  import ChunkedBody
  import FrameSplitter

  /** What a resume dial carries between reads: decoder state, undecoded tail (_pend), unsplit tail (reasm). */
  datatype Dial = Dial(chunked: bool, cursor: ChunkedBody.Cursor, pend: Bytes, reasm: Bytes)

  datatype Received = Received(dial: Dial, frames: seq<Bytes>)

  function Open(chunked: bool): Dial {
    Dial(chunked, ChunkedBody.START, [], [])
  }

  /** One read: decode the transfer framing if there is any, then split complete frames off. */
  function Receive(d: Dial, read: Bytes): Received {
    var decoded := if d.chunked then ChunkedBody.Decode(d.cursor, d.pend + read)
                   else ChunkedBody.Decoded(read, [], d.cursor);
    var split := FrameSplitter.Frames(d.reasm + decoded.out);
    Received(Dial(d.chunked, decoded.cursor, decoded.rest, split.rest), split.frames)
  }

  /** All reads of a dial in order. */
  function ReceiveAll(d: Dial, pieces: seq<Bytes>): Received
    decreases |pieces|
  {
    if pieces == [] then Received(d, [])
    else
      var earlier := ReceiveAll(d, Init(pieces));
      var last := Receive(earlier.dial, Last(pieces));
      Received(last.dial, earlier.frames + last.frames)
  }

  function Concat(pieces: seq<Bytes>): Bytes
    decreases |pieces|
  {
    if pieces == [] then [] else Concat(Init(pieces)) + Last(pieces)
  }

  /** The event stream inside `body`, decoded in one pass. */
  function Stream(chunked: bool, body: Bytes): Bytes {
    if chunked then ChunkedBody.Decode(ChunkedBody.START, body).out else body
  }

  /** One resume dial as the code runs it, over mutable decoder state. */
  class ResumeReader {
    const chunked: bool
    const state: ChunkedBody.ChunkState
    var pend: Bytes
    var reasm: Bytes

    constructor (chunked: bool)
      ensures View() == Open(chunked)
      ensures fresh(state)
    {
      this.chunked := chunked;
      state := new ChunkedBody.ChunkState();
      pend, reasm := [], [];
    }

    function View(): Dial
      reads this, state
    {
      Dial(chunked, ChunkedBody.Cursor(state.mode, state.size), pend, reasm)
    }

    /** The body of the receive loop, and of the first pass over the dial's preamble. */
    method OnRead(read: Bytes) returns (frames: seq<Bytes>)
      modifies this, state
      ensures Received(View(), frames) == Receive(old(View()), read)
    {
      var clean := read;
      if chunked {
        clean, pend := ChunkedBody.Dechunk(pend + read, state);
      } else {
        pend := [];
      }
      frames, reasm := FrameSplitter.ParseFrames(reasm + clean);
    }
  }

  /**
    The frames a resume dial yields do not depend on how the socket cuts the body into reads: they are the
    frames of the stream decoded in one pass, and so is the remainder that waits for more bytes.
   */
  lemma {:induction false} ReadsDoNotMatter(chunked: bool, pieces: seq<Bytes>)
    requires chunked ==> ChunkedBody.Unsigned(ChunkedBody.START, Concat(pieces))
    ensures var stream := Stream(chunked, Concat(pieces));
            var end := ReceiveAll(Open(chunked), pieces);
            && end.frames == FrameSplitter.Frames(stream).frames
            && end.dial.reasm == FrameSplitter.Frames(stream).rest
    ensures chunked ==>
              var end := ReceiveAll(Open(chunked), pieces).dial;
              var whole := ChunkedBody.Decode(ChunkedBody.START, Concat(pieces));
              && end.cursor == whole.cursor
              && (whole.cursor.mode != ChunkedBody.Done ==> end.pend == whole.rest)
    ensures ReceiveAll(Open(chunked), pieces).dial.chunked == chunked
    decreases |pieces|
  {
    hide ChunkedBody.Decode, ChunkedBody.Unsigned, FrameSplitter.Frames;
    if pieces == [] {
      EmptyDial(chunked);
    } else {
      var a, b := Concat(Init(pieces)), Last(pieces);
      if chunked {
        ChunkedBody.UnsignedPrefix(ChunkedBody.START, a, b);
        ChunkedBody.CutInvariance(ChunkedBody.START, a, b);
      }
      ReadsDoNotMatter(chunked, Init(pieces));
      var dial := ReceiveAll(Open(chunked), Init(pieces)).dial;
      var decoded := Stream(chunked, a);
      if chunked {
        TailIgnoredWhenDone(dial.cursor, dial.pend, ChunkedBody.Decode(ChunkedBody.START, a).rest, b);
      }
      var more := if chunked then ChunkedBody.Decode(dial.cursor, dial.pend + b).out else b;
      assert Stream(chunked, a + b) == decoded + more;
      FrameSplitter.SplitInvariance(decoded, more);
    }
  }

  lemma EmptyDial(chunked: bool)
    ensures Stream(chunked, []) == []
    ensures ChunkedBody.Decode(ChunkedBody.START, []) == ChunkedBody.Decoded([], [], ChunkedBody.START)
    ensures FrameSplitter.Frames([]) == FrameSplitter.Split([], [])
  {
  }

  /** In the final state both the emitted bytes and the state are blind to the tail. */
  lemma TailIgnoredWhenDone(c: ChunkedBody.Cursor, p: Bytes, q: Bytes, b: Bytes)
    requires c.mode == ChunkedBody.Done || p == q
    ensures ChunkedBody.Decode(c, p + b).out == ChunkedBody.Decode(c, q + b).out
    ensures ChunkedBody.Decode(c, p + b).cursor == ChunkedBody.Decode(c, q + b).cursor
    ensures c.mode != ChunkedBody.Done ==> ChunkedBody.Decode(c, p + b) == ChunkedBody.Decode(c, q + b)
    ensures c.mode == ChunkedBody.Done ==> ChunkedBody.Decode(c, p + b).cursor == c
  {
  }

  /** Any reads whose bytes are a well-formed chunked body yield exactly the frames of the joined payloads. */
  lemma WellFormedReads(pieces: seq<Bytes>, chunks: seq<ChunkedBody.Chunk>, numeral: Bytes, extension: Bytes, trailer: Bytes)
    requires forall k :: k in chunks ==> ChunkedBody.WellFormed(k)
    requires ChunkedBody.IsSizeLine(numeral, extension, 0)
    requires Concat(pieces) == ChunkedBody.EncodeBody(chunks, numeral + extension, trailer)
    ensures var split := FrameSplitter.Frames(ChunkedBody.Payload(chunks));
            var end := ReceiveAll(Open(true), pieces);
            end.frames == split.frames && end.dial.reasm == split.rest
  {
    ChunkedBody.DecodeWellFormed(ChunkedBody.START, chunks, numeral, extension, trailer);
    ReadsDoNotMatter(true, pieces);
  }
}
