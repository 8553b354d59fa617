/** Finding the first JSON object in an agent's prose, and the agent-output search built on it. */
module JsonScanner {
  import opened Prelude

  // ---- JSON values and their text -----------------------------------------------------------------

  /** Numbers are kept as their text; object members in order. */
  datatype Json =
    | Null
    | Bool(b: bool)
    | Num(text: string)
    | Str(s: string)
    | Arr(items: seq<Json>)
    | Obj(members: seq<Member>)

  datatype Member = Member(key: string, value: Json)

  /** Number texts contain no structural character. */
  predicate PlainText(t: string) {
    forall c :: c in t ==> c != '"' && c != '{' && c != '}' && c != '\\'
  }

  /** Every number in the value prints as plain text. */
  predicate Printable(v: Json) {
    match v
    case Num(t) => PlainText(t)
    case Arr(items) => forall x :: x in items ==> Printable(x)
    case Obj(members) => forall m :: m in members ==> Printable(m.value)
    case _ => true
  }

  function HexChar(n: nat): char
    requires n < 16
  {
    if n < 10 then ('0' as int + n) as char else ('a' as int + n - 10) as char
  }

  /** JSON.stringify's escape of one character inside a string. */
  function EscapeChar(c: char): (r: string)
    ensures IsPiece(r)
  {
    if c == '"' then "\\\""
    else if c == '\\' then "\\\\"
    else if c == '\n' then "\\n"
    else if c == '\r' then "\\r"
    else if c == '\t' then "\\t"
    else if c as int == 8 then "\\b"
    else if c as int == 12 then "\\f"
    else if c as int < 32 then
      "\\u00" + [HexChar(c as int / 16), HexChar(c as int % 16)]
    else [c]
  }

  /** A quote-free piece of a string literal: an ordinary character, or an escape and what it introduces. */
  predicate IsPiece(r: string) {
    && r != []
    && (r[0] != '\\' ==> |r| == 1 && r[0] != '"')
    && (r[0] == '\\' ==> |r| >= 2 && forall i :: 2 <= i < |r| ==> r[i] != '"' && r[i] != '\\')
  }

  function EscapeAll(s: string): string {
    if s == [] then [] else EscapeChar(s[0]) + EscapeAll(s[1..])
  }

  function Quote(s: string): string {
    "\"" + EscapeAll(s) + "\""
  }

  /** JSON.stringify without indentation. */
  function Print(v: Json): string {
    match v
    case Null => "null"
    case Bool(b) => if b then "true" else "false"
    case Num(t) => t
    case Str(s) => Quote(s)
    case Arr(items) => "[" + PrintItems(items) + "]"
    case Obj(members) => "{" + PrintMembers(members) + "}"
  }

  function PrintItems(items: seq<Json>): string {
    if items == [] then "" else Print(items[0]) + (if |items| > 1 then "," else "") + PrintItems(items[1..])
  }

  function PrintMembers(members: seq<Member>): string {
    if members == [] then ""
    else Quote(members[0].key) + ":" + Print(members[0].value) + (if |members| > 1 then "," else "") + PrintMembers(members[1..])
  }

  // ---- the scanner --------------------------------------------------------------------------------

  /** depth, inStr and esc. */
  datatype Scan = Scan(depth: int, inStr: bool, esc: bool)

  /** One character. */
  function Step(st: Scan, c: char): Scan {
    if st.inStr then
      if st.esc then st.(esc := false)
      else if c == '\\' then st.(esc := true)
      else if c == '"' then st.(inStr := false)
      else st
    else if c == '"' then st.(inStr := true)
    else if c == '{' then st.(depth := st.depth + 1)
    else if c == '}' then st.(depth := st.depth - 1)
    else st
  }

  /** This character closes the outermost brace. */
  predicate Closes(st: Scan, c: char) {
    !st.inStr && c == '}' && st.depth - 1 == 0
  }

  function Steps(st: Scan, s: string): Scan
    decreases |s|
  {
    if s == [] then st else Step(Steps(st, Init(s)), Last(s))
  }

  /** No prefix of s closes the outermost brace. */
  ghost predicate StaysOpen(st: Scan, s: string) {
    forall i :: 0 <= i < |s| ==> !Closes(Steps(st, s[..i]), s[i])
  }

  lemma {:induction false} StepsConcat(st: Scan, a: string, b: string)
    ensures Steps(st, a + b) == Steps(Steps(st, a), b)
    decreases |b|
  {
    if b == [] {
      assert a + b == a;
    } else {
      assert Init(a + b) == a + Init(b);
      StepsConcat(st, a, Init(b));
    }
  }

  lemma StaysOpenConcat(st: Scan, a: string, b: string)
    requires StaysOpen(st, a) && StaysOpen(Steps(st, a), b)
    ensures StaysOpen(st, a + b)
  {
    var s := a + b;
    forall i | 0 <= i < |s|
      ensures !Closes(Steps(st, s[..i]), s[i])
    {
      if i < |a| {
        assert s[..i] == a[..i];
      } else {
        assert s[..i] == a + b[..i - |a|];
        StepsConcat(st, a, b[..i - |a|]);
        assert !Closes(Steps(Steps(st, a), b[..i - |a|]), b[i - |a|]);
      }
    }
  }

  /** s leaves the scanner as it found it and never closes the outermost brace. */
  ghost predicate Neutral(st: Scan, s: string) {
    Steps(st, s) == st && StaysOpen(st, s)
  }

  lemma NeutralConcat(st: Scan, a: string, b: string)
    requires Neutral(st, a) && Neutral(st, b)
    ensures Neutral(st, a + b)
  {
    StepsConcat(st, a, b);
    StaysOpenConcat(st, a, b);
  }

  lemma NeutralEmpty(st: Scan)
    ensures Neutral(st, "")
  {
  }

  lemma {:induction false} NeutralPlain(st: Scan, s: string)
    requires !st.inStr && PlainText(s)
    ensures Neutral(st, s)
    decreases |s|
  {
    if s != [] {
      assert forall c :: c in Init(s) ==> c in s;
      assert Last(s) in s;
      NeutralPlain(st, Init(s));
      var one := [Last(s)];
      assert Init(one) == [] && one[..0] == [];
      assert Neutral(st, one);
      NeutralConcat(st, Init(s), one);
      assert Init(s) + one == s;
    }
  }

  /** Inside a string a piece changes nothing: an escape is consumed together with what it escapes. */
  lemma NeutralPiece(st: Scan, r: string)
    requires st.inStr && !st.esc && IsPiece(r)
    ensures Neutral(st, r)
  {
    if r[0] == '\\' {
      forall i | 0 <= i <= |r|
        ensures Steps(st, r[..i]) == if i == 1 then st.(esc := true) else st
      {
        EscapedPrefix(st, r, i);
      }
      assert r[..|r|] == r;
    } else {
      assert Init(r) == [] && r[..0] == [];
    }
  }

  lemma {:induction false} EscapedPrefix(st: Scan, r: string, i: nat)
    requires st.inStr && !st.esc && IsPiece(r) && r[0] == '\\' && i <= |r|
    ensures Steps(st, r[..i]) == if i == 1 then st.(esc := true) else st
    decreases i
  {
    if i > 0 {
      EscapedPrefix(st, r, i - 1);
      assert Init(r[..i]) == r[..i - 1] && Last(r[..i]) == r[i - 1];
    }
  }

  lemma {:induction false} NeutralEscaped(st: Scan, s: string)
    requires st.inStr && !st.esc
    ensures Neutral(st, EscapeAll(s))
    decreases |s|
  {
    if s == [] {
      NeutralEmpty(st);
    } else {
      NeutralPiece(st, EscapeChar(s[0]));
      NeutralEscaped(st, s[1..]);
      NeutralConcat(st, EscapeChar(s[0]), EscapeAll(s[1..]));
    }
  }

  /** A single character that is not a closing brace never closes anything. */
  lemma OneStep(st: Scan, c: char)
    ensures Steps(st, [c]) == Step(st, c)
    ensures !Closes(st, c) ==> StaysOpen(st, [c])
  {
    assert Init([c]) == [] && [c][..0] == [];
  }

  /** A string literal is neutral whatever braces, quotes and backslashes it contains. */
  lemma NeutralQuoted(st: Scan, s: string)
    requires !st.inStr && !st.esc
    ensures Neutral(st, Quote(s))
  {
    hide Steps, StaysOpen, EscapeAll;
    var inside := st.(inStr := true);
    OneStep(st, '"');
    NeutralEscaped(inside, s);
    OneStep(inside, '"');
    StepsConcat(st, "\"", EscapeAll(s));
    StaysOpenConcat(st, "\"", EscapeAll(s));
    StepsConcat(st, "\"" + EscapeAll(s), "\"");
    StaysOpenConcat(st, "\"" + EscapeAll(s), "\"");
  }

  /** A printed value is neutral below the outermost brace. */
  lemma {:induction false} NeutralPrinted(st: Scan, v: Json)
    requires !st.inStr && !st.esc && st.depth >= 1 && Printable(v)
    ensures Neutral(st, Print(v))
    decreases v, 1
  {
    hide Steps, StaysOpen, Neutral;
    match v
    case Null => NeutralPlain(st, "null");
    case Bool(b) => NeutralPlain(st, if b then "true" else "false");
    case Num(t) => NeutralPlain(st, t);
    case Str(s) => NeutralQuoted(st, s);
    case Arr(items) =>
      NeutralItems(st, v, items);
      NeutralPlain(st, "[");
      NeutralPlain(st, "]");
      NeutralConcat(st, "[", PrintItems(items));
      NeutralConcat(st, "[" + PrintItems(items), "]");
    case Obj(members) =>
      NeutralMembers(st.(depth := st.depth + 1), v, members);
      NeutralBraces(st, PrintMembers(members));
  }

  /** Neutral text in braces is neutral one level up. */
  lemma NeutralBraces(st: Scan, body: string)
    requires !st.inStr && !st.esc && st.depth >= 1
    requires Neutral(st.(depth := st.depth + 1), body)
    ensures Neutral(st, "{" + body + "}")
  {
    hide Steps, StaysOpen;
    var inside := st.(depth := st.depth + 1);
    OneStep(st, '{');
    OneStep(inside, '}');
    StepsConcat(st, "{", body);
    StaysOpenConcat(st, "{", body);
    StepsConcat(st, "{" + body, "}");
    StaysOpenConcat(st, "{" + body, "}");
  }

  lemma {:induction false} NeutralItems(st: Scan, whole: Json, items: seq<Json>)
    requires !st.inStr && !st.esc && st.depth >= 1
    requires forall x :: x in items ==> Printable(x) && x < whole
    ensures Neutral(st, PrintItems(items))
    decreases whole, 0, |items|
  {
    hide Steps, StaysOpen, Neutral;
    if items == [] {
      NeutralEmpty(st);
    } else {
      assert items[0] in items;
      var comma := if |items| > 1 then "," else "";
      NeutralPrinted(st, items[0]);
      NeutralPlain(st, comma);
      NeutralItems(st, whole, items[1..]);
      NeutralConcat(st, Print(items[0]), comma);
      NeutralConcat(st, Print(items[0]) + comma, PrintItems(items[1..]));
    }
  }

  lemma {:induction false} NeutralMembers(st: Scan, whole: Json, members: seq<Member>)
    requires !st.inStr && !st.esc && st.depth >= 1
    requires forall m :: m in members ==> Printable(m.value) && m.value < whole
    ensures Neutral(st, PrintMembers(members))
    decreases whole, 0, |members|
  {
    hide Steps, StaysOpen, Neutral;
    if members == [] {
      NeutralEmpty(st);
    } else {
      assert members[0] in members;
      var comma := if |members| > 1 then "," else "";
      var key, value := Quote(members[0].key), Print(members[0].value);
      NeutralQuoted(st, members[0].key);
      NeutralPlain(st, ":");
      NeutralPrinted(st, members[0].value);
      NeutralPlain(st, comma);
      NeutralMembers(st, whole, members[1..]);
      NeutralConcat(st, key, ":");
      NeutralConcat(st, key + ":", value);
      NeutralConcat(st, key + ":" + value, comma);
      NeutralConcat(st, key + ":" + value + comma, PrintMembers(members[1..]));
    }
  }

  // ---- selecting the object -----------------------------------------------------------------------

  const OUTSIDE := Scan(0, false, false)

  datatype Span = Span(start: nat, end: nat)

  /** The first position at or after `from` that holds an opening brace. */
  function OpenBrace(s: string, from: nat): (r: Option<nat>)
    ensures r.Some? ==> from <= r.value < |s| && s[r.value] == '{'
    ensures r.Some? ==> forall k :: from <= k < r.value ==> s[k] != '{'
    ensures r.None? ==> forall k :: from <= k < |s| ==> s[k] != '{'
    decreases |s| - from
  {
    if from >= |s| then None else if s[from] == '{' then Some(from) else OpenBrace(s, from + 1)
  }

  /** The end of the braces that open at the head of what the scanner still has to read. */
  function CloseFrom(s: string, i: nat, st: Scan): (r: Option<nat>)
    ensures r.Some? ==> i < r.value <= |s|
    decreases |s| - i
  {
    if i >= |s| then None
    else if Closes(st, s[i]) then Some(i + 1)
    else CloseFrom(s, i + 1, Step(st, s[i]))
  }

  /** The characters firstJsonObject hands to the JSON parser. */
  function Selected(s: string): (r: Option<Span>)
    ensures r.Some? ==> r.value.start < r.value.end <= |s|
  {
    match OpenBrace(s, 0)
    case None => None
    case Some(start) =>
      match CloseFrom(s, start, OUTSIDE)
      case None => None
      case Some(end) => Some(Span(start, end))
  }

  /** Only objects count: a parse failure, an array or a scalar is no answer. */
  function ObjectOnly(v: Option<Json>): Option<Json> {
    if v.Some? && v.value.Obj? then v else None
  }

  function FirstObject(parse: string -> Option<Json>, s: string): Option<Json> {
    match Selected(s)
    case None => None
    case Some(span) => ObjectOnly(parse(s[span.start..span.end]))
  }

  /** firstJsonObject: the character loop over depth, inStr and esc. */
  method FirstJsonObject(parse: string -> Option<Json>, s: string) returns (r: Option<Json>)
    ensures r == FirstObject(parse, s)
  {
    var open := OpenBrace(s, 0);
    if open.None? { return None; }
    var start := open.value;
    var depth, inStr, esc := 0, false, false;
    var i := start;
    while i < |s|
      invariant start <= i <= |s|
      invariant CloseFrom(s, start, OUTSIDE) == CloseFrom(s, i, Scan(depth, inStr, esc))
    {
      var c := s[i];
      if inStr {
        if esc { esc := false; }
        else if c == '\\' { esc := true; }
        else if c == '"' { inStr := false; }
        i := i + 1;
        continue;
      }
      if c == '"' { inStr := true; }
      else if c == '{' { depth := depth + 1; }
      else if c == '}' {
        if depth - 1 == 0 {
          return ObjectOnly(parse(s[start..i + 1]));
        }
        depth := depth - 1;
      }
      i := i + 1;
    }
    return None;
  }

  /** The scan runs through text that stays open and stops at the brace that closes. */
  lemma {:induction false} CloseAfter(s: string, i: nat, text: string, st: Scan)
    requires i + |text| < |s| && s[i..i + |text|] == text
    requires StaysOpen(st, text) && Closes(Steps(st, text), s[i + |text|])
    ensures CloseFrom(s, i, st) == Some(i + |text| + 1)
    decreases |text|
  {
    hide Closes, Step;
    if text != [] {
      StaysOpenTail(st, text);
      assert s[i] == text[0];
      assert s[i + 1..i + 1 + |text[1..]|] == text[1..];
      CloseAfter(s, i + 1, text[1..], Step(st, text[0]));
    } else {
      assert Steps(st, []) == st;
    }
  }

  /** Text that stays open does not close at its head, and stays open after it. */
  lemma StaysOpenTail(st: Scan, text: string)
    requires text != [] && StaysOpen(st, text)
    ensures !Closes(st, text[0])
    ensures StaysOpen(Step(st, text[0]), text[1..])
    ensures Steps(st, text) == Steps(Step(st, text[0]), text[1..])
  {
    hide Closes, Step;
    var next, tail := Step(st, text[0]), text[1..];
    assert text[..0] == [] && !Closes(Steps(st, text[..0]), text[0]);
    HeadStep(st, text[0]);
    StepsConcat(st, [text[0]], tail);
    assert [text[0]] + tail == text;
    forall k | 0 <= k < |tail|
      ensures !Closes(Steps(next, tail[..k]), tail[k])
    {
      StepsConcat(st, [text[0]], tail[..k]);
      assert [text[0]] + tail[..k] == text[..k + 1];
      assert !Closes(Steps(st, text[..k + 1]), text[k + 1]);
    }
  }

  lemma HeadStep(st: Scan, c: char)
    ensures Steps(st, [c]) == Step(st, c)
  {
    OneStep(st, c);
  }

  /** The text of an object up to its closing brace stays open, at depth one. */
  lemma ObjectStaysOpen(v: Json)
    requires v.Obj? && Printable(v)
    ensures var text := "{" + PrintMembers(v.members);
            StaysOpen(OUTSIDE, text) && Steps(OUTSIDE, text) == Scan(1, false, false) && Print(v) == text + "}"
  {
    hide Steps, StaysOpen, PrintMembers;
    var body, inside := PrintMembers(v.members), Scan(1, false, false);
    NeutralMembers(inside, v, v.members);
    OneStep(OUTSIDE, '{');
    StepsConcat(OUTSIDE, "{", body);
    StaysOpenConcat(OUTSIDE, "{", body);
  }

  /** From its opening brace, a printed object is open until its last character closes it. */
  lemma ObjectCloses(v: Json, s: string, i: nat)
    requires v.Obj? && Printable(v)
    requires i + |Print(v)| <= |s| && s[i..i + |Print(v)|] == Print(v)
    ensures CloseFrom(s, i, OUTSIDE) == Some(i + |Print(v)|)
  {
    hide Steps, StaysOpen, PrintMembers, CloseFrom, Print;
    ObjectStaysOpen(v);
    BraceAfter(s, i, "{" + PrintMembers(v.members));
    CloseAfter(s, i, "{" + PrintMembers(v.members), OUTSIDE);
  }

  lemma BraceAfter(s: string, i: nat, text: string)
    requires i + |text + "}"| <= |s| && s[i..i + |text + "}"|] == text + "}"
    ensures s[i..i + |text|] == text && s[i + |text|] == '}'
  {
    var p := text + "}";
    assert s[i..i + |text|] == s[i..i + |p|][..|text|];
    assert s[i + |text|] == s[i..i + |p|][|text|];
  }

  /**
    The scanner inverts the printer: inside any text, exactly the characters of a printed object are
    selected if and only if no opening brace comes before it.
   */
  lemma SelectsPrintedObject(pre: string, v: Json, suf: string)
    requires v.Obj? && Printable(v)
    ensures Selected(pre + Print(v) + suf) == Some(Span(|pre|, |pre| + |Print(v)|)) <==> '{' !in pre
  {
    var s := pre + Print(v) + suf;
    var open := OpenBrace(s, 0);
    assert s[|pre|] == '{' by { assert Print(v)[0] == '{'; }
    hide Print, Printable;
    assert open.Some? && open.value <= |pre|;
    assert forall k :: 0 <= k < |pre| ==> s[k] == pre[k];
    if '{' !in pre {
      assert forall k :: 0 <= k < |pre| ==> pre[k] in pre;
      assert open.value == |pre|;
      assert s[|pre|..|pre| + |Print(v)|] == Print(v);
      ObjectCloses(v, s, |pre|);
    } else {
      var k :| 0 <= k < |pre| && pre[k] == '{';
      assert s[k] == '{';
      assert open.value <= k;
    }
  }

  // ---- the agent's output ---------------------------------------------------------------------------

  function SplitLines(s: string): seq<string>
    decreases |s|
  {
    if '\n' !in s then [s]
    else
      var i := LineEnd(s);
      [s[..i]] + SplitLines(s[i + 1..])
  }

  function LineEnd(s: string): (i: nat)
    requires '\n' in s
    ensures i < |s| && s[i] == '\n'
  {
    if s[0] == '\n' then 0 else 1 + LineEnd(s[1..])
  }

  /** Lines put together again. */
  function JoinLines(lines: seq<string>): string
    requires lines != []
  {
    if |lines| == 1 then lines[0] else lines[0] + "\n" + JoinLines(lines[1..])
  }

  /** The lines are what stands between the line feeds. */
  lemma {:induction false} LinesOf(s: string)
    ensures SplitLines(s) != [] && JoinLines(SplitLines(s)) == s
    ensures forall l :: l in SplitLines(s) ==> '\n' !in l
    decreases |s|
  {
    if '\n' in s {
      var i := LineEnd(s);
      LinesOf(s[i + 1..]);
      NoFeedBefore(s);
      var all := SplitLines(s);
      assert all[1..] == SplitLines(s[i + 1..]);
      assert s == s[..i] + "\n" + s[i + 1..];
    }
  }

  lemma {:induction false} NoFeedBefore(s: string)
    requires '\n' in s
    ensures '\n' !in s[..LineEnd(s)]
  {
    if s[0] != '\n' {
      NoFeedBefore(s[1..]);
      assert s[..LineEnd(s)] == [s[0]] + s[1..][..LineEnd(s[1..])];
    }
  }

  /** The text parts of an event stream, oldest first; textOf is None for every line that is not a text event. */
  function Texts(textOf: string -> Option<string>, lines: seq<string>): seq<string>
    decreases |lines|
  {
    if lines == [] then []
    else Texts(textOf, Init(lines)) + (if textOf(Last(lines)).Some? then [textOf(Last(lines)).value] else [])
  }

  /** The k-th text stands on a line with k texts before it. */
  lemma {:induction false} LineOfText(textOf: string -> Option<string>, lines: seq<string>, k: nat) returns (i: nat)
    requires k < |Texts(textOf, lines)|
    ensures i < |lines| && textOf(lines[i]) == Some(Texts(textOf, lines)[k]) && |Texts(textOf, lines[..i])| == k
    decreases |lines|
  {
    var front := Init(lines);
    if k < |Texts(textOf, front)| {
      i := LineOfText(textOf, front, k);
      assert front[..i] == lines[..i];
    } else {
      i := |lines| - 1;
    }
  }

  lemma {:induction false} TextOnLine(textOf: string -> Option<string>, lines: seq<string>, j: nat)
    requires j < |lines| && textOf(lines[j]).Some?
    ensures var k := |Texts(textOf, lines[..j])|;
            k < |Texts(textOf, lines)| && Texts(textOf, lines)[k] == textOf(lines[j]).value
    decreases |lines|
  {
    if j < |lines| - 1 {
      TextOnLine(textOf, Init(lines), j);
      assert Init(lines)[..j] == lines[..j];
    }
  }

  lemma {:induction false} MoreLinesMoreTexts(textOf: string -> Option<string>, lines: seq<string>, i: nat, j: nat)
    requires i < j <= |lines| && textOf(lines[i]).Some?
    ensures |Texts(textOf, lines[..i])| < |Texts(textOf, lines[..j])|
    decreases j
  {
    assert Init(lines[..j]) == lines[..j - 1];
    if i < j - 1 {
      MoreLinesMoreTexts(textOf, lines, i, j - 1);
    }
  }

  /** The line holds a text part with an object, and no later line does. */
  ghost predicate NewestAnswer(parse: string -> Option<Json>, textOf: string -> Option<string>, lines: seq<string>, i: nat) {
    && i < |lines| && textOf(lines[i]).Some? && FirstObject(parse, textOf(lines[i]).value).Some?
    && forall j :: i < j < |lines| && textOf(lines[j]).Some? ==> FirstObject(parse, textOf(lines[j]).value).None?
  }

  lemma NewestTextIsNewestLine(parse: string -> Option<Json>, textOf: string -> Option<string>, lines: seq<string>, k: nat)
    returns (i: nat)
    requires var texts := Texts(textOf, lines);
             k < |texts| && FirstObject(parse, texts[k]).Some?
             && forall m :: k < m < |texts| ==> FirstObject(parse, texts[m]).None?
    ensures NewestAnswer(parse, textOf, lines, i) && textOf(lines[i]).value == Texts(textOf, lines)[k]
  {
    hide FirstObject, Texts;
    i := LineOfText(textOf, lines, k);
    forall j | i < j < |lines| && textOf(lines[j]).Some?
      ensures FirstObject(parse, textOf(lines[j]).value).None?
    {
      TextOnLine(textOf, lines, j);
      MoreLinesMoreTexts(textOf, lines, i, j);
    }
  }

  lemma NoAnswerOnAnyLine(parse: string -> Option<Json>, textOf: string -> Option<string>, lines: seq<string>)
    requires forall k :: 0 <= k < |Texts(textOf, lines)| ==> FirstObject(parse, Texts(textOf, lines)[k]).None?
    ensures forall j :: 0 <= j < |lines| && textOf(lines[j]).Some? ==> FirstObject(parse, textOf(lines[j]).value).None?
    ensures Texts(textOf, lines) == [] <==> forall j :: 0 <= j < |lines| ==> textOf(lines[j]).None?
  {
    hide FirstObject, Texts;
    forall j | 0 <= j < |lines| && textOf(lines[j]).Some?
      ensures FirstObject(parse, textOf(lines[j]).value).None? && Texts(textOf, lines) != []
    {
      TextOnLine(textOf, lines, j);
    }
    if Texts(textOf, lines) != [] {
      var i := LineOfText(textOf, lines, 0);
    }
  }

  /**
    parseAgentOutput: the newest text part that contains an object answers; raw output is only searched when
    the stream has no text part at all.
   */
  method ParseAgentOutput(parse: string -> Option<Json>, textOf: string -> Option<string>, stdout: string)
    returns (r: Option<Json>)
    ensures var texts := Texts(textOf, SplitLines(stdout));
            && (texts == [] ==> r == FirstObject(parse, stdout))
            && (texts != [] && r.None? ==> forall k :: 0 <= k < |texts| ==> FirstObject(parse, texts[k]).None?)
            && (texts != [] && r.Some? ==>
                  exists k :: 0 <= k < |texts| && FirstObject(parse, texts[k]) == r
                              && forall m :: k < m < |texts| ==> FirstObject(parse, texts[m]).None?)
    ensures var lines := SplitLines(stdout);
            if forall j :: 0 <= j < |lines| ==> textOf(lines[j]).None? then r == FirstObject(parse, stdout)
            else if r.Some? then
              exists i: nat :: NewestAnswer(parse, textOf, lines, i) && r == FirstObject(parse, textOf(lines[i]).value)
            else
              forall j :: 0 <= j < |lines| && textOf(lines[j]).Some? ==> FirstObject(parse, textOf(lines[j]).value).None?
  {
    hide FirstObject, SplitLines;
    var lines := SplitLines(stdout);
    var texts := [];
    for i := 0 to |lines|
      invariant texts == Texts(textOf, lines[..i])
    {
      assert Init(lines[..i + 1]) == lines[..i];
      var t := textOf(lines[i]);
      if t.Some? { texts := texts + [t.value]; }
    }
    assert lines[..|lines|] == lines;
    var k := |texts|;
    while k > 0
      invariant 0 <= k <= |texts|
      invariant forall m :: k <= m < |texts| ==> FirstObject(parse, texts[m]).None?
    {
      k := k - 1;
      var obj := FirstJsonObject(parse, texts[k]);
      if obj.Some? {
        ghost var i := NewestTextIsNewestLine(parse, textOf, lines, k);
        return obj;
      }
    }
    NoAnswerOnAnyLine(parse, textOf, lines);
    if texts == [] {
      r := FirstJsonObject(parse, stdout);
    } else {
      r := None;
    }
  }

  /** An answer that an agent prints as an object, wrapped in brace-free prose, comes back as that object. */
  lemma AnswerSurvivesProse(parse: string -> Option<Json>, pre: string, v: Json, suf: string)
    requires v.Obj? && Printable(v) && '{' !in pre
    requires parse(Print(v)) == Some(v)
    ensures FirstObject(parse, pre + Print(v) + suf) == Some(v)
  {
    var s := pre + Print(v) + suf;
    SelectsPrintedObject(pre, v, suf);
    assert s[|pre|..|pre| + |Print(v)|] == Print(v);
  }
}
