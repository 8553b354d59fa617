/** What the incremental chunked decoder keeps after the last chunk, and when that does not depend on the cut. */
module ChunkedTail {
  import opened Prelude
  import opened ByteText
  import opened ChunkedBody

  /** The bytes of `buf` that follow the last-chunk line, if decoding from `c` reaches one. */
  function Following(c: Cursor, buf: Bytes): Bytes
    decreases |buf|, Rank(c.mode)
  {
    match c.mode
    case Size =>
      (match Find(buf, CRLF, 0)
       case None => []
       case Some(i) =>
         match LineSize(buf[..i])
         case None => []
         case Some(n) => if n == 0 then buf[i + 2..] else Following(Cursor(Data, n), buf[i + 2..]))
    case Data => if 0 <= c.size <= |buf| then Following(Cursor(Crlf, 0), buf[c.size..]) else []
    case Crlf => if |buf| < 2 then [] else Following(Cursor(Size, c.size), AfterCrlf(buf))
    case Done => []
  }

  /** A chunk's closing CRLF is dropped if it is there. */
  function AfterCrlf(buf: Bytes): Bytes {
    if At(buf, CRLF, 0) then buf[2..] else buf
  }

  // ---- the decoder one state at a time --------------------------------------------------------------

  lemma AtSizeLine(c: Cursor, buf: Bytes, i: nat, n: int)
    requires c.mode == Size && Find(buf, CRLF, 0) == Some(i) && LineSize(buf[..i]) == Some(n)
    ensures i + 2 <= |buf|
    ensures Decode(c, buf) == if n == 0 then Decoded([], AfterLastChunk(buf[i + 2..]), Cursor(Done, c.size))
                              else Decode(Cursor(Data, n), buf[i + 2..])
    ensures Following(c, buf) == if n == 0 then buf[i + 2..] else Following(Cursor(Data, n), buf[i + 2..])
    ensures Unsigned(c, buf) <==> n == 0 || (n > 0 && Unsigned(Cursor(Data, n), buf[i + 2..]))
  {
    hide LineSize, Find, AfterLastChunk;
    assert i + |CRLF| <= |buf|;
  }

  lemma NoSizeLine(c: Cursor, buf: Bytes)
    requires c.mode == Size && (Find(buf, CRLF, 0).None? || LineSize(buf[..Find(buf, CRLF, 0).value]).None?)
    ensures Decode(c, buf) == Decoded([], buf, c) && Following(c, buf) == []
  {
    hide LineSize, Find;
  }

  lemma AtPayload(c: Cursor, buf: Bytes)
    requires c.mode == Data && Unsigned(c, buf)
    ensures c.size >= 0
    ensures c.size <= |buf| ==>
              && Decode(c, buf) == Prepend(buf[..c.size], Decode(Cursor(Crlf, 0), buf[c.size..]))
              && Following(c, buf) == Following(Cursor(Crlf, 0), buf[c.size..])
              && Unsigned(Cursor(Crlf, 0), buf[c.size..])
    ensures c.size > |buf| ==> Decode(c, buf).cursor.mode == Data && Following(c, buf) == []
  {
    hide Decode;
    UnsignedPayload(c, buf);
    if c.size <= |buf| {
      PayloadComplete(c, buf);
    } else {
      PayloadPartial(c, buf);
    }
  }

  lemma AtChunkEnd(c: Cursor, buf: Bytes)
    requires c.mode == Crlf && |buf| >= 2
    ensures Decode(c, buf) == Decode(Cursor(Size, c.size), AfterCrlf(buf))
    ensures Following(c, buf) == Following(Cursor(Size, c.size), AfterCrlf(buf))
    ensures Unsigned(c, buf) <==> Unsigned(Cursor(Size, c.size), AfterCrlf(buf))
  {
    hide LineSize, Find;
  }

  // ---- where the last-chunk line ends -----------------------------------------------------------------

  /** The buffer without what follows its last-chunk line. */
  function Front(c: Cursor, buf: Bytes): Bytes {
    if |Following(c, buf)| <= |buf| then buf[..|buf| - |Following(c, buf)|] else []
  }

  /** The buffer ends with what follows its last-chunk line; the rest of it makes the decoder done and keeps nothing. */
  ghost predicate EndsWith(c: Cursor, buf: Bytes) {
    var r := Following(c, buf);
    && buf == Front(c, buf) + r
    && (if Decode(c, buf).cursor.mode == Done then
          && Decode(c, buf).rest == AfterLastChunk(r)
          && Decode(c, Front(c, buf)).cursor.mode == Done && Decode(c, Front(c, buf)).rest == []
        else r == [])
  }

  /** A decoder state whose work on the buffer is that of a later state on its tail. */
  lemma EndsWithLater(c: Cursor, buf: Bytes, c': Cursor, head: Bytes, tail: Bytes)
    requires buf == head + tail && EndsWith(c', tail)
    requires Following(c, buf) == Following(c', tail)
    requires Decode(c, buf).cursor == Decode(c', tail).cursor && Decode(c, buf).rest == Decode(c', tail).rest
    requires var kept := head + Front(c', tail);
             Decode(c', tail).cursor.mode == Done ==>
               Decode(c, kept).cursor.mode == Done && Decode(c, kept).rest == Decode(c', Front(c', tail)).rest
    ensures EndsWith(c, buf)
  {
    hide Decode, Following, AfterLastChunk;
    assert Front(c, buf) == head + Front(c', tail);
    assert buf == Front(c, buf) + Following(c, buf);
  }

  lemma {:induction false} FollowingEnds(c: Cursor, buf: Bytes)
    requires c.mode != Done && Unsigned(c, buf)
    ensures EndsWith(c, buf)
    decreases |buf|, Rank(c.mode), 1
  {
    match c.mode
    case Size => FollowingSizeLine(c, buf);
    case Data => FollowingPayload(c, buf);
    case Crlf => FollowingCrlf(c, buf);
  }

  lemma {:induction false} FollowingSizeLine(c: Cursor, buf: Bytes)
    requires c.mode == Size && Unsigned(c, buf)
    ensures EndsWith(c, buf)
    decreases |buf|, Rank(c.mode), 0
  {
    hide LineSize, Find, Decode, Following, Unsigned;
    if Find(buf, CRLF, 0).None? || LineSize(buf[..Find(buf, CRLF, 0).value]).None? {
      NoSizeLine(c, buf);
    } else {
      var i := Find(buf, CRLF, 0).value;
      var n := LineSize(buf[..i]).value;
      AtSizeLine(c, buf, i, n);
      var line, tail := buf[..i + 2], buf[i + 2..];
      if n == 0 {
        assert Front(c, buf) == line;
        SizeLineThen(buf, i, []);
        assert line + [] == line;
        AtSizeLine(c, line, i, 0);
        NothingKept();
      } else {
        FollowingEnds(Cursor(Data, n), tail);
        var kept := Front(Cursor(Data, n), tail);
        SizeLineThen(buf, i, kept);
        AtSizeLine(c, line + kept, i, n);
        EndsWithLater(c, buf, Cursor(Data, n), line, tail);
      }
    }
  }

  lemma NothingKept()
    ensures AfterLastChunk([]) == []
  {
    NoCrlf([]);
  }

  /** A size line is found and read the same whatever follows its CRLF. */
  lemma SizeLineThen(buf: Bytes, i: nat, kept: Bytes)
    requires Find(buf, CRLF, 0) == Some(i)
    ensures i + 2 <= |buf| && Find(buf[..i + 2] + kept, CRLF, 0) == Some(i)
    ensures (buf[..i + 2] + kept)[..i] == buf[..i] && (buf[..i + 2] + kept)[i + 2..] == kept
  {
    hide Find, At;
    FindFirst(buf, CRLF, 0);
    assert i + |CRLF| <= |buf|;
    var s := buf[..i + 2] + kept;
    forall k | 0 <= k <= i
      ensures At(s, CRLF, k) <==> At(buf, CRLF, k)
    {
      AtSlice(buf, CRLF, k);
      AtSlice(s, CRLF, k);
      assert s[k..k + |CRLF|] == buf[k..k + |CRLF|];
    }
    FindUnique(s, CRLF, 0, i);
  }

  lemma {:induction false} FollowingPayload(c: Cursor, buf: Bytes)
    requires c.mode == Data && Unsigned(c, buf)
    ensures EndsWith(c, buf)
    decreases |buf|, Rank(c.mode), 0
  {
    hide Decode, Following, Unsigned;
    AtPayload(c, buf);
    if c.size <= |buf| {
      var crlf, p, tail := Cursor(Crlf, 0), buf[..c.size], buf[c.size..];
      FollowingEnds(crlf, tail);
      var kept := p + Front(crlf, tail);
      assert kept[..c.size] == p && kept[c.size..] == Front(crlf, tail);
      PayloadComplete(c, kept);
      EndsWithLater(c, buf, crlf, p, tail);
    } else {
      assert Front(c, buf) == buf;
    }
  }

  /** What ends the chunk goes on ending it when less follows. */
  lemma CrlfKept(c: Cursor, buf: Bytes, front: Bytes)
    requires c.mode == Crlf && |buf| >= 2 && front <= AfterCrlf(buf)
    requires Decode(Cursor(Size, c.size), front).cursor.mode == Done
    ensures var kept := (if At(buf, CRLF, 0) then buf[..2] else []) + front;
            Decode(c, kept) == Decode(Cursor(Size, c.size), front)
  {
    hide Decode;
    var kept := (if At(buf, CRLF, 0) then buf[..2] else []) + front;
    DoneNeedsALine(Cursor(Size, c.size), front);
    SameStart(buf, kept);
    AtChunkEnd(c, kept);
    assert AfterCrlf(kept) == front;
  }

  lemma ShortCrlf(c: Cursor, buf: Bytes)
    requires c.mode == Crlf && |buf| < 2
    ensures EndsWith(c, buf)
  {
    assert Front(c, buf) == buf;
  }

  lemma {:induction false} FollowingCrlf(c: Cursor, buf: Bytes)
    requires c.mode == Crlf && Unsigned(c, buf)
    ensures EndsWith(c, buf)
    decreases |buf|, Rank(c.mode), 0
  {
    hide Decode, Following, Unsigned, EndsWith, At;
    if |buf| >= 2 {
      var size, tail := Cursor(Size, c.size), AfterCrlf(buf);
      AtChunkEnd(c, buf);
      FollowingEnds(size, tail);
      var head := if At(buf, CRLF, 0) then buf[..2] else [];
      if Decode(size, tail).cursor.mode == Done { CrlfKept(c, buf, Front(size, tail)); }
      EndsWithLater(c, buf, size, head, tail);
    } else {
      ShortCrlf(c, buf);
    }
  }

  lemma SameStart(buf: Bytes, kept: Bytes)
    requires |buf| >= 2 && |kept| >= 2 && kept[..2] == buf[..2]
    ensures At(kept, CRLF, 0) <==> At(buf, CRLF, 0)
  {
    AtSlice(buf, CRLF, 0);
    AtSlice(kept, CRLF, 0);
    assert buf[0..2] == buf[..2] && kept[0..2] == kept[..2];
  }

  /** A decoder that awaits a size line is not done before it has read one. */
  lemma DoneNeedsALine(c: Cursor, buf: Bytes)
    requires c.mode == Size && Decode(c, buf).cursor.mode == Done
    ensures |buf| >= 2
  {
    hide LineSize, Find, Decode;
    if Find(buf, CRLF, 0).None? {
      NoSizeLine(c, buf);
    } else {
      assert Find(buf, CRLF, 0).value + |CRLF| <= |buf|;
    }
  }

  /** Reading on after the last-chunk line only adds to what follows it. */
  lemma {:induction false} FollowingGrows(c: Cursor, a: Bytes, b: Bytes)
    requires c.mode != Done && Unsigned(c, a + b) && Decode(c, a).cursor.mode == Done
    requires Unsigned(c, a)
    ensures Following(c, a + b) == Following(c, a) + b
    decreases |a|, Rank(c.mode)
  {
    hide LineSize, Find, Decode, Following, Unsigned;
    match c.mode
    case Size =>
      if Find(a, CRLF, 0).None? || LineSize(a[..Find(a, CRLF, 0).value]).None? {
        NoSizeLine(c, a);
      } else {
        var i := Find(a, CRLF, 0).value;
        var n := LineSize(a[..i]).value;
        AtSizeLine(c, a, i, n);
        FindInPrefix(a, b, CRLF, 0);
        assert (a + b)[..i] == a[..i] && (a + b)[i + 2..] == a[i + 2..] + b;
        AtSizeLine(c, a + b, i, n);
        if n != 0 {
          FollowingGrows(Cursor(Data, n), a[i + 2..], b);
        }
      }
    case Data =>
      AtPayload(c, a);
      AtPayload(c, a + b);
      if c.size <= |a| {
        assert (a + b)[c.size..] == a[c.size..] + b;
        FollowingGrows(Cursor(Crlf, 0), a[c.size..], b);
      }
    case Crlf =>
      if |a| >= 2 {
        AtPrefix(a, b, CRLF, 0);
        assert AfterCrlf(a + b) == AfterCrlf(a) + b;
        AtChunkEnd(c, a);
        AtChunkEnd(c, a + b);
        FollowingGrows(Cursor(Size, c.size), AfterCrlf(a), b);
      } else {
        TooShort(c, a);
      }
  }

  lemma TooShort(c: Cursor, buf: Bytes)
    requires c.mode == Crlf && |buf| < 2
    ensures Decode(c, buf).cursor == c
  {
  }

  // ---- cuts -------------------------------------------------------------------------------------------

  /** Every cut leaves the tail that the uncut buffer leaves. */
  ghost predicate TailCutFree(c: Cursor, buf: Bytes) {
    forall k :: 0 <= k <= |buf| ==> TailAgrees(c, buf, k)
  }

  predicate TailAgrees(c: Cursor, buf: Bytes, k: nat)
    requires k <= |buf|
  {
    var first := Decode(c, buf[..k]);
    Decode(first.cursor, first.rest + buf[k..]).rest == Decode(c, buf).rest
  }

  lemma KeptIsShorter(r: Bytes)
    ensures r != [] ==> AfterLastChunk(r) != r
  {
    hide Find;
    if Find(r, CRLF, 0).Some? {
      assert Find(r, CRLF, 0).value + |CRLF| <= |r|;
    }
  }

  /**
    The kept tail does not depend on how a buffer without negative sizes is cut if and only if nothing follows
    the last-chunk line: a read that ends right after that line keeps everything that comes later, the uncut
    buffer only what lies behind the next CRLF.
   */
  lemma TailCutFreeIff(c: Cursor, buf: Bytes)
    requires c.mode != Done && Unsigned(c, buf)
    ensures TailCutFree(c, buf) <==> Following(c, buf) == []
  {
    hide Decode, Following, AfterLastChunk, Unsigned;
    var r := Following(c, buf);
    FollowingEnds(c, buf);
    KeptIsShorter(r);
    if r == [] {
      forall k | 0 <= k <= |buf|
        ensures TailAgrees(c, buf, k)
      {
        assert buf[..k] + buf[k..] == buf;
        CutLeavesTail(c, buf[..k], buf[k..]);
      }
    } else {
      var k := |buf| - |r|;
      var first := Decode(c, buf[..k]);
      assert buf[..k] == Front(c, buf) && buf[k..] == r;
      assert first.rest + buf[k..] == r;
      DoneKeepsAll(first.cursor, r);
      assert !TailAgrees(c, buf, k);
    }
  }

  lemma DoneKeepsAll(c: Cursor, buf: Bytes)
    requires c.mode == Done
    ensures Decode(c, buf).rest == buf
  {
  }

  lemma CutLeavesTail(c: Cursor, a: Bytes, b: Bytes)
    requires c.mode != Done && Unsigned(c, a + b) && Following(c, a + b) == []
    ensures var first := Decode(c, a); Decode(first.cursor, first.rest + b).rest == Decode(c, a + b).rest
  {
    hide Decode, Following, Unsigned;
    var first := Decode(c, a);
    CutInvariance(c, a, b);
    if first.cursor.mode == Done {
      UnsignedPrefix(c, a, b);
      FollowingGrows(c, a, b);
      assert b == [] && a + b == a && first.rest + b == first.rest;
      DoneKeepsAll(first.cursor, first.rest);
    }
  }
}
