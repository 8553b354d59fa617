/** The position on a frame's id line, and the cursor a re-dial sends back. */
module CursorText {
  import opened Prelude
  import opened ByteText

  const COLON: Byte := 58
  const ID: Bytes := [105, 100, 58]   // "id:"

  datatype Position = Position(epoch: Bytes, number: nat)

  /** A `<epoch>:<seq>` value: split at the last colon, a non-empty epoch and only digits after it. */
  function ParsePosition(v: Bytes): Option<Position> {
    match FindLast(v, COLON)
    case None => None
    case Some(i) =>
      if v[i + 1..] != [] && AllDigits(v[i + 1..]) && i > 0
      then Some(Position(v[..i], DecimalValue(v[i + 1..])))
      else None
  }

  /** What a line says about the position, if it is an id line. */
  function LinePosition(line: Bytes): Option<Position> {
    if ID <= line then ParsePosition(Strip(line[3..])) else None
  }

  /** The first line of a frame. */
  function FirstLine(s: Bytes): Bytes {
    Before(s, LF)
  }

  /** _sse_pos: the first id line that parses, None when there is none. */
  function SsePos(frame: Bytes): Option<Position>
    decreases |frame|
  {
    var line := FirstLine(frame);
    if LinePosition(line).Some? then LinePosition(line)
    else if |line| < |frame| then SsePos(frame[|line| + 1..])
    else None
  }

  method FrameSsePos(frame: Bytes) returns (p: Option<Position>)
    ensures p == SsePos(frame)
  {
    var rest := frame;
    while true
      invariant SsePos(rest) == SsePos(frame)
      decreases |rest|
    {
      var line := FirstLine(rest);
      p := LinePosition(line);
      if p.Some? || |line| >= |rest| { return; }
      rest := rest[|line| + 1..];
    }
  }

  /** The cursor a re-dial sends: "%s:%d" of the recorded position. */
  function CursorOf(p: Position): Bytes {
    p.epoch + [COLON] + DecimalNumeral(p.number)
  }

  // ---- the engine's reading of a cursor -----------------------------------------------------------

  /** The alphabet of an epoch: letters, digits, `_` and `-`. */
  predicate IsEpochByte(b: Byte) {
    65 <= b <= 90 || 97 <= b <= 122 || 48 <= b <= 57 || b == 95 || b == 45
  }

  predicate IsEpochText(s: Bytes) {
    s != [] && forall b :: b in s ==> IsEpochByte(b)
  }

  /** Which characters those are. */
  lemma EpochAlphabet(b: Byte)
    ensures var c := b as int as char;
            IsEpochByte(b) <==> 'A' <= c <= 'Z' || 'a' <= c <= 'z' || '0' <= c <= '9' || c == '_' || c == '-'
  {
  }

  /** parseCursor: trimmed, an epoch in its alphabet, one colon, digits. */
  function EngineCursor(raw: Bytes): Option<Position> {
    var v := Strip(raw);
    var epoch := Before(v, COLON);
    if |epoch| < |v| && IsEpochText(epoch) && v[|epoch| + 1..] != [] && AllDigits(v[|epoch| + 1..])
    then Some(Position(epoch, DecimalValue(v[|epoch| + 1..])))
    else None
  }

  lemma {:induction false} BeforeIsPrefix(s: Bytes, sep: Byte)
    ensures Before(s, sep) <= s && sep !in Before(s, sep)
    ensures |Before(s, sep)| < |s| ==> s[|Before(s, sep)|] == sep
  {
    if s != [] && s[0] != sep {
      BeforeIsPrefix(s[1..], sep);
    }
  }

  lemma ColonSplits(epoch: Bytes, digits: Bytes)
    requires COLON !in epoch && AllDigits(digits)
    ensures FindLast(epoch + [COLON] + digits, COLON) == Some(|epoch|)
    ensures Before(epoch + [COLON] + digits, COLON) == epoch
  {
    assert COLON !in digits;
    FindLastAfter(epoch, COLON, digits);
    BeforeSeparator(epoch, COLON, digits);
  }

  /** A text that both readers take apart. */
  ghost predicate Spells(v: Bytes, p: Position, digits: Bytes) {
    v == p.epoch + [COLON] + digits && digits != [] && AllDigits(digits) && DecimalValue(digits) == p.number
  }

  lemma FrontDoorReads(v: Bytes, p: Position, digits: Bytes)
    requires Spells(v, p, digits) && p.epoch != [] && COLON !in p.epoch
    ensures ParsePosition(v) == Some(p)
  {
    ColonSplits(p.epoch, digits);
    assert v[..|p.epoch|] == p.epoch && v[|p.epoch| + 1..] == digits;
  }

  lemma EngineReads(raw: Bytes, p: Position, digits: Bytes)
    requires Spells(Strip(raw), p, digits) && IsEpochText(p.epoch)
    ensures EngineCursor(raw) == Some(p)
  {
    hide Strip;
    var v := Strip(raw);
    ColonSplits(p.epoch, digits);
    assert v[|p.epoch| + 1..] == digits;
  }

  /** The engine reads what the front door reads, as long as the epoch is in the engine's alphabet. */
  lemma EnginesReadAlike(raw: Bytes, p: Position)
    ensures EngineCursor(raw) == Some(p) <==> ParsePosition(Strip(raw)) == Some(p) && IsEpochText(p.epoch)
  {
    hide Strip;
    var v := Strip(raw);
    if EngineCursor(raw) == Some(p) {
      BeforeIsPrefix(v, COLON);
      assert Spells(v, p, v[|p.epoch| + 1..]);
      FrontDoorReads(v, p, v[|p.epoch| + 1..]);
    }
    if ParsePosition(v) == Some(p) && IsEpochText(p.epoch) {
      assert Spells(v, p, v[|p.epoch| + 1..]);
      EngineReads(raw, p, v[|p.epoch| + 1..]);
    }
  }

  /** A re-dial's cursor is read back by the engine as the recorded position exactly for epochs in its alphabet. */
  lemma EngineReadsBackIff(p: Position)
    ensures EngineCursor(CursorOf(p)) == Some(p) <==> IsEpochText(p.epoch)
  {
    var digits, v := DecimalNumeral(p.number), CursorOf(p);
    EnginesReadAlike(v, p);
    if IsEpochText(p.epoch) {
      CursorParsesBack(p);
      assert p.epoch[0] in p.epoch && v[0] == p.epoch[0];
      assert Last(v) == Last(digits) && Last(digits) in digits;
      StripTrimmed(v);
    }
  }

  lemma {:induction false} FindLastAfter(front: Bytes, b: Byte, tail: Bytes)
    requires b !in tail
    ensures FindLast(front + [b] + tail, b) == Some(|front|)
    decreases |tail|
  {
    var s := front + [b] + tail;
    if tail == [] {
      assert Last(s) == b;
    } else {
      assert Last(s) == Last(tail) && Last(tail) in tail;
      assert Init(s) == front + [b] + Init(tail);
      assert forall x :: x in Init(tail) ==> x in tail;
      FindLastAfter(front, b, Init(tail));
    }
  }

  /** Cursor and id line are inverse for the front door's own reader. */
  lemma CursorParsesBack(p: Position)
    requires p.epoch != []
    ensures ParsePosition(CursorOf(p)) == Some(p)
  {
    var digits := DecimalNumeral(p.number);
    var v := CursorOf(p);
    assert COLON !in digits;
    FindLastAfter(p.epoch, COLON, digits);
    assert v[..|p.epoch|] == p.epoch && v[|p.epoch| + 1..] == digits;
  }

  /** A frame whose first line is the engine's id line shows that position, whatever follows. */
  lemma IdLineRoundTrip(p: Position, rest: Bytes)
    requires p.epoch != [] && LF !in p.epoch && !IsSpace(p.epoch[0])
    ensures SsePos(ID + [32] + CursorOf(p) + [LF] + rest) == Some(p)
  {
    var digits := DecimalNumeral(p.number);
    var cursor := CursorOf(p);
    var line := ID + [32] + cursor;
    assert LF !in line by {
      assert forall b :: b in digits ==> IsDigit(b);
    }
    BeforeSeparator(line, LF, rest);
    assert FirstLine(line + [LF] + rest) == line;
    assert ID <= line && line[3..] == [32] + cursor;
    assert Last(cursor) == Last(digits) && Last(digits) in digits;
    StripTrimmed(cursor);
    assert ([32] + cursor)[1..] == cursor;
    assert LStrip([32] + cursor) == LStrip(cursor);
    assert Strip([32] + cursor) == cursor;
    CursorParsesBack(p);
  }

  // ---- what is read off a frame, line by line -------------------------------------------------------------

  predicate AllBlank(s: Bytes) {
    forall b :: b in s ==> IsSpace(b)
  }

  /** `id:`, blanks, an epoch that does not begin with one, its last colon, a decimal number, blanks. */
  ghost predicate Shows(line: Bytes, p: Position, lead: Bytes, digits: Bytes, trail: Bytes) {
    && line == [105, 100, 58] + (lead + (p.epoch + [58] + digits) + trail)
    && AllBlank(lead) && AllBlank(trail)
    && p.epoch != [] && !IsSpace(p.epoch[0])
    && digits != [] && AllDigits(digits) && DecimalValue(digits) == p.number
  }

  ghost predicate IsIdLine(line: Bytes, p: Position) {
    exists lead, digits, trail :: Shows(line, p, lead, digits, trail)
  }

  lemma {:induction false} LStripSplits(s: Bytes) returns (lead: Bytes)
    ensures AllBlank(lead) && s == lead + LStrip(s)
    ensures LStrip(s) != [] ==> !IsSpace(LStrip(s)[0])
  {
    lead := [];
    if s != [] && IsSpace(s[0]) {
      lead := LStripSplits(s[1..]);
      lead := [s[0]] + lead;
    }
  }

  lemma {:induction false} RStripSplits(s: Bytes) returns (trail: Bytes)
    ensures AllBlank(trail) && s == RStrip(s) + trail
    ensures RStrip(s) != [] ==> !IsSpace(Last(RStrip(s)))
    decreases |s|
  {
    trail := [];
    if s != [] && IsSpace(Last(s)) {
      trail := RStripSplits(Init(s));
      trail := trail + [Last(s)];
    }
  }

  lemma {:induction false} LStripLead(lead: Bytes, v: Bytes)
    requires AllBlank(lead) && (v == [] || !IsSpace(v[0]))
    ensures LStrip(lead + v) == v
    decreases |lead|
  {
    if lead == [] {
      assert lead + v == v;
    } else {
      assert lead[0] in lead && (lead + v)[1..] == lead[1..] + v;
      LStripLead(lead[1..], v);
    }
  }

  lemma {:induction false} RStripTrail(v: Bytes, trail: Bytes)
    requires AllBlank(trail) && (v == [] || !IsSpace(Last(v)))
    ensures RStrip(v + trail) == v
    decreases |trail|
  {
    if trail == [] {
      assert v + trail == v;
    } else {
      assert Last(trail) in trail && Last(v + trail) == Last(trail) && Init(v + trail) == v + Init(trail);
      assert AllBlank(Init(trail)) by { assert forall b :: b in Init(trail) ==> b in trail; }
      RStripTrail(v, Init(trail));
    }
  }

  /** Stripping takes the blanks off both ends, whatever is between them. */
  lemma StripBlanksOff(lead: Bytes, v: Bytes, trail: Bytes)
    requires AllBlank(lead) && AllBlank(trail) && v != [] && !IsSpace(v[0]) && !IsSpace(Last(v))
    ensures Strip(lead + v + trail) == v
  {
    assert lead + v + trail == lead + (v + trail) && (v + trail)[0] == v[0];
    LStripLead(lead, v + trail);
    RStripTrail(v, trail);
  }

  lemma StripSplits(s: Bytes) returns (lead: Bytes, trail: Bytes)
    requires Strip(s) != []
    ensures AllBlank(lead) && AllBlank(trail) && s == lead + Strip(s) + trail
    ensures !IsSpace(Strip(s)[0]) && !IsSpace(Last(Strip(s)))
  {
    lead := LStripSplits(s);
    trail := RStripSplits(LStrip(s));
    assert Strip(s)[0] == LStrip(s)[0];
  }

  /** A line shows a position exactly when it is an id line for it. */
  lemma LinePositionIff(line: Bytes, p: Position)
    ensures LinePosition(line) == Some(p) <==> IsIdLine(line, p)
  {
    hide LinePosition, Shows;
    if LinePosition(line) == Some(p) {
      ReadIsIdLine(line, p);
    }
    if lead, digits, trail :| Shows(line, p, lead, digits, trail) {
      IdLineIsRead(line, p, lead, digits, trail);
    }
  }

  lemma ReadIsIdLine(line: Bytes, p: Position)
    requires LinePosition(line) == Some(p)
    ensures IsIdLine(line, p)
  {
    hide Strip;
    var v := Strip(line[3..]);
    var lead, trail := StripSplits(line[3..]);
    var digits := v[|p.epoch| + 1..];
    assert v == p.epoch + [58] + digits && p.epoch[0] == v[0];
    assert line == [105, 100, 58] + line[3..];
    assert Shows(line, p, lead, digits, trail);
  }

  lemma IdLineIsRead(line: Bytes, p: Position, lead: Bytes, digits: Bytes, trail: Bytes)
    requires Shows(line, p, lead, digits, trail)
    ensures LinePosition(line) == Some(p)
  {
    hide Strip;
    var v := p.epoch + [58] + digits;
    assert ID <= line && line[3..] == lead + v + trail;
    assert v[0] == p.epoch[0] && Last(v) == Last(digits) && Last(digits) in digits;
    StripBlanksOff(lead, v, trail);
    assert COLON !in digits;
    FindLastAfter(p.epoch, COLON, digits);
    assert v[..|p.epoch|] == p.epoch && v[|p.epoch| + 1..] == digits;
  }

  /** frame[a..b] is one of the lines that LF separates. */
  ghost predicate IsLine(frame: Bytes, a: nat, b: nat) {
    && a <= b <= |frame|
    && (a == 0 || frame[a - 1] == 10) && (b == |frame| || frame[b] == 10)
    && 10 !in frame[a..b]
  }

  /** Some line that begins before `end` shows a position. */
  ghost predicate ShownBefore(frame: Bytes, end: nat) {
    exists a: nat, b: nat, p :: a < end && IsLine(frame, a, b) && IsIdLine(frame[a..b], p)
  }

  /** The position stands on that line, and on no line before it. */
  ghost predicate FirstShownOn(frame: Bytes, a: nat, b: nat, p: Position) {
    IsLine(frame, a, b) && IsIdLine(frame[a..b], p) && !ShownBefore(frame, a)
  }

  lemma {:induction false} FirstLineIs(s: Bytes)
    ensures FirstLine(s) <= s && LF !in FirstLine(s)
    ensures |FirstLine(s)| < |s| ==> s[|FirstLine(s)|] == LF
  {
    BeforeIsPrefix(s, LF);
  }

  lemma NoneBetween(s: Bytes, a: nat, b: nat)
    requires a <= b <= |s|
    ensures 10 !in s[a..b] <==> forall k :: a <= k < b ==> s[k] != 10
  {
    assert forall k :: a <= k < b ==> s[k] == s[a..b][k - a] && s[a..b][k - a] in s[a..b];
  }

  /** The first line, and the lines of what follows it. */
  lemma LinesSplit(frame: Bytes, a: nat, b: nat)
    requires var n := |FirstLine(frame)|; a <= b <= |frame|
    ensures var n := |FirstLine(frame)|;
            IsLine(frame, a, b) <==>
              (a == 0 && b == n) || (a > n && n < |frame| && IsLine(frame[n + 1..], a - n - 1, b - n - 1))
  {
    FirstLineIs(frame);
    hide FirstLine;
    var n := |FirstLine(frame)|;
    assert frame[0..n] == FirstLine(frame);
    NoneBetween(frame, 0, n);
    NoneBetween(frame, a, b);
    if a > n && n < |frame| {
      assert frame[n + 1..][a - n - 1..b - n - 1] == frame[a..b];
      assert a > n + 1 ==> frame[n + 1..][a - n - 2] == frame[a - 1];
    }
  }

  lemma LaterLine(frame: Bytes, c: nat, d: nat)
    requires var n := |FirstLine(frame)|; n < |frame| && c <= d <= |frame| - n - 1
    ensures var n := |FirstLine(frame)|;
            && frame[n + 1..][c..d] == frame[c + n + 1..d + n + 1]
            && (IsLine(frame[n + 1..], c, d) <==> IsLine(frame, c + n + 1, d + n + 1))
  {
    hide FirstLine;
    LinesSplit(frame, c + |FirstLine(frame)| + 1, d + |FirstLine(frame)| + 1);
  }

  ghost predicate Identifies(line: Bytes) {
    exists p :: IsIdLine(line, p)
  }

  /** What precedes a later line: the first line, and what precedes it in the rest. */
  lemma ShownEarlier(frame: Bytes, c: nat)
    requires var n := |FirstLine(frame)|; n < |frame| && c <= |frame| - n - 1
    requires Identifies(FirstLine(frame)) || ShownBefore(frame[|FirstLine(frame)| + 1..], c)
    ensures ShownBefore(frame, c + |FirstLine(frame)| + 1)
  {
    FirstLineIs(frame);
    LinesSplit(frame, 0, |FirstLine(frame)|);
    hide FirstLine, IsIdLine;
    var n, rest := |FirstLine(frame)|, frame[|FirstLine(frame)| + 1..];
    assert frame[0..n] == FirstLine(frame);
    if Identifies(FirstLine(frame)) {
      var p :| IsIdLine(FirstLine(frame), p);
      assert IsLine(frame, 0, n) && IsIdLine(frame[0..n], p);
    } else {
      var a: nat, b: nat, p :| a < c && IsLine(rest, a, b) && IsIdLine(rest[a..b], p);
      LaterLine(frame, a, b);
      assert a + n + 1 < c + n + 1 && IsLine(frame, a + n + 1, b + n + 1) && IsIdLine(frame[a + n + 1..b + n + 1], p);
    }
  }

  lemma ShownEarlierOnly(frame: Bytes, c: nat)
    requires var n := |FirstLine(frame)|; n < |frame| && c <= |frame| - n - 1
    requires ShownBefore(frame, c + |FirstLine(frame)| + 1)
    ensures Identifies(FirstLine(frame)) || ShownBefore(frame[|FirstLine(frame)| + 1..], c)
  {
    FirstLineIs(frame);
    hide FirstLine, IsIdLine;
    var n, rest := |FirstLine(frame)|, frame[|FirstLine(frame)| + 1..];
    assert frame[0..n] == FirstLine(frame);
    var a: nat, b: nat, p :| a < c + n + 1 && IsLine(frame, a, b) && IsIdLine(frame[a..b], p);
    LinesSplit(frame, a, b);
    if a > n {
      LaterLine(frame, a - n - 1, b - n - 1);
      assert a - n - 1 < c && IsLine(rest, a - n - 1, b - n - 1) && IsIdLine(rest[a - n - 1..b - n - 1], p);
    }
  }

  /** The position stands on an id line with no other before it. */
  ghost predicate FirstShown(frame: Bytes, p: Position) {
    exists a: nat, b: nat :: FirstShownOn(frame, a, b, p)
  }

  lemma FirstLineShows(frame: Bytes, p: Position)
    requires IsIdLine(FirstLine(frame), p)
    ensures FirstShown(frame, p)
  {
    FirstLineIs(frame);
    hide FirstLine, IsIdLine;
    var n := |FirstLine(frame)|;
    assert frame[0..n] == FirstLine(frame);
    LinesSplit(frame, 0, n);
    assert FirstShownOn(frame, 0, n, p);
  }

  lemma LaterLineShows(frame: Bytes, p: Position)
    requires |FirstLine(frame)| < |frame| && !Identifies(FirstLine(frame))
    requires FirstShown(frame[|FirstLine(frame)| + 1..], p)
    ensures FirstShown(frame, p)
  {
    hide FirstLine, IsIdLine, ShownBefore;
    var n, rest := |FirstLine(frame)|, frame[|FirstLine(frame)| + 1..];
    var c: nat, d: nat :| FirstShownOn(rest, c, d, p);
    LaterLine(frame, c, d);
    if ShownBefore(frame, c + n + 1) {
      ShownEarlierOnly(frame, c);
    }
    assert FirstShownOn(frame, c + n + 1, d + n + 1, p);
  }

  lemma ShownSomewhere(frame: Bytes, p: Position)
    requires FirstShown(frame, p)
    ensures IsIdLine(FirstLine(frame), p) ||
            (|FirstLine(frame)| < |frame| && !Identifies(FirstLine(frame)) && FirstShown(frame[|FirstLine(frame)| + 1..], p))
  {
    FirstLineIs(frame);
    hide FirstLine, IsIdLine, ShownBefore, Identifies;
    var n := |FirstLine(frame)|;
    assert frame[0..n] == FirstLine(frame);
    var a: nat, b: nat :| FirstShownOn(frame, a, b, p);
    LinesSplit(frame, a, b);
    if a > n {
      var rest := frame[n + 1..];
      LaterLine(frame, a - n - 1, b - n - 1);
      if Identifies(FirstLine(frame)) || ShownBefore(rest, a - n - 1) {
        ShownEarlier(frame, a - n - 1);
      }
      assert FirstShownOn(rest, a - n - 1, b - n - 1, p);
    }
  }

  /** A frame's position is the one on its first id line; without an id line it has none. */
  lemma {:induction false} SsePosIff(frame: Bytes, p: Position)
    ensures SsePos(frame) == Some(p) <==> FirstShown(frame, p)
    decreases |frame|
  {
    hide FirstLine, IsIdLine, Identifies, LinePosition, FirstShown;
    var line, n := FirstLine(frame), |FirstLine(frame)|;
    IdentifiesIff(line, p);
    FirstShownIff(frame, p);
    if LinePosition(line).None? && n < |frame| {
      SsePosIff(frame[n + 1..], p);
    }
  }

  lemma IdentifiesIff(line: Bytes, p: Position)
    ensures LinePosition(line) == Some(p) <==> IsIdLine(line, p)
    ensures LinePosition(line).Some? <==> Identifies(line)
  {
    forall q
      ensures LinePosition(line) == Some(q) <==> IsIdLine(line, q)
    {
      LinePositionIff(line, q);
    }
    hide IsIdLine, LinePosition;
    if LinePosition(line).Some? {
      assert IsIdLine(line, LinePosition(line).value);
    }
  }

  lemma FirstShownIff(frame: Bytes, p: Position)
    ensures var line := FirstLine(frame);
            FirstShown(frame, p) <==>
              IsIdLine(line, p) || (|line| < |frame| && !Identifies(line) && FirstShown(frame[|line| + 1..], p))
  {
    hide FirstLine, IsIdLine, Identifies, FirstShown;
    var line := FirstLine(frame);
    if FirstShown(frame, p) {
      ShownSomewhere(frame, p);
    } else if IsIdLine(line, p) {
      FirstLineShows(frame, p);
    } else if |line| < |frame| && !Identifies(line) && FirstShown(frame[|line| + 1..], p) {
      LaterLineShows(frame, p);
    }
  }
}
