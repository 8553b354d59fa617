/** Bytes as the front door handles them: searching, stripping and the numerals on the wire. */
module ByteText {
  import opened Prelude

  newtype Byte = x: int | 0 <= x < 256
  type Bytes = seq<Byte>

  const CR: Byte := 13
  const LF: Byte := 10
  const CRLF: Bytes := [13, 10]
  const SEMICOLON: Byte := 59

  /** `needle` occurs in `hay` at position `i`. */
  predicate At(hay: Bytes, needle: Bytes, i: int) {
    0 <= i && i + |needle| <= |hay| && forall t :: 0 <= t < |needle| ==> hay[i + t] == needle[t]
  }

  lemma AtSlice(hay: Bytes, needle: Bytes, i: nat)
    requires i + |needle| <= |hay|
    ensures At(hay, needle, i) <==> hay[i..i + |needle|] == needle
  {
    var cut := hay[i..i + |needle|];
    assert forall t :: 0 <= t < |needle| ==> cut[t] == hay[i + t];
    if At(hay, needle, i) {
      assert forall t :: 0 <= t < |needle| ==> cut[t] == needle[t];
    }
  }

  /** The first position at or after `from` where `needle` occurs (Python's find, with None for -1). */
  function Find(hay: Bytes, needle: Bytes, from: nat): (r: Option<nat>)
    ensures r.Some? ==> from <= r.value && r.value + |needle| <= |hay|
    decreases |hay| - from
  {
    if from + |needle| > |hay| then None
    else if At(hay, needle, from) then Some(from)
    else Find(hay, needle, from + 1)
  }

  lemma {:induction false} FindFirst(hay: Bytes, needle: Bytes, from: nat)
    ensures var r := Find(hay, needle, from);
            && (r.Some? ==> from <= r.value && At(hay, needle, r.value))
            && (r.Some? ==> forall k :: from <= k < r.value ==> !At(hay, needle, k))
            && (r.None? ==> forall k :: from <= k ==> !At(hay, needle, k))
    decreases |hay| - from
  {
    if from + |needle| <= |hay| && !At(hay, needle, from) {
      FindFirst(hay, needle, from + 1);
    }
  }

  lemma FindUnique(hay: Bytes, needle: Bytes, from: nat, i: nat)
    requires from <= i && At(hay, needle, i)
    requires forall k :: from <= k < i ==> !At(hay, needle, k)
    ensures Find(hay, needle, from) == Some(i)
  {
    FindFirst(hay, needle, from);
  }

  /** An occurrence inside a prefix is an occurrence in the whole, and conversely when it fits. */
  lemma AtPrefix(a: Bytes, b: Bytes, needle: Bytes, i: int)
    requires 0 <= i && i + |needle| <= |a|
    ensures At(a, needle, i) <==> At(a + b, needle, i)
  {
  }

  /** The first occurrence found in a prefix stays the first occurrence when bytes arrive after it. */
  lemma FindInPrefix(a: Bytes, b: Bytes, needle: Bytes, from: nat)
    requires Find(a, needle, from).Some?
    ensures Find(a + b, needle, from) == Find(a, needle, from)
  {
    var i := Find(a, needle, from).value;
    FindFirst(a, needle, from);
    AtPrefix(a, b, needle, i);
    forall k | from <= k < i
      ensures !At(a + b, needle, k)
    {
      AtPrefix(a, b, needle, k);
    }
    FindUnique(a + b, needle, from, i);
  }

  /** Python's slice s[..k]: a negative k counts from the end, an out-of-range k is clipped. */
  function SliceTo(s: Bytes, k: int): Bytes {
    if k >= |s| then s
    else if k >= 0 then s[..k]
    else if |s| + k >= 0 then s[..|s| + k]
    else []
  }

  /** Python's slice s[k..]. */
  function SliceFrom(s: Bytes, k: int): Bytes {
    if k >= |s| then []
    else if k >= 0 then s[k..]
    else if |s| + k >= 0 then s[|s| + k..]
    else s
  }

  lemma SliceWithin(s: Bytes, k: nat)
    requires k <= |s|
    ensures SliceTo(s, k) == s[..k] && SliceFrom(s, k) == s[k..]
  {
  }

  predicate IsSpace(b: Byte) {
    b == 32 || 9 <= b <= 13
  }

  function LStrip(s: Bytes): Bytes {
    if s != [] && IsSpace(s[0]) then LStrip(s[1..]) else s
  }

  function RStrip(s: Bytes): Bytes
    decreases |s|
  {
    if s != [] && IsSpace(Last(s)) then RStrip(Init(s)) else s
  }

  function Strip(s: Bytes): Bytes {
    RStrip(LStrip(s))
  }

  lemma StripTrimmed(s: Bytes)
    requires s != [] && !IsSpace(s[0]) && !IsSpace(Last(s))
    ensures Strip(s) == s
  {
  }

  /** Everything before the first `sep`, the whole string when there is none (split(sep)[0]). */
  function Before(s: Bytes, sep: Byte): (r: Bytes)
    ensures sep !in s ==> r == s
  {
    if s == [] || s[0] == sep then [] else [s[0]] + Before(s[1..], sep)
  }

  lemma {:induction false} BeforeSeparator(s: Bytes, sep: Byte, rest: Bytes)
    requires sep !in s
    ensures Before(s + [sep] + rest, sep) == s
  {
    var whole := s + [sep] + rest;
    if s != [] {
      assert whole[1..] == s[1..] + [sep] + rest;
      BeforeSeparator(s[1..], sep, rest);
    }
  }

  function HexDigit(b: Byte): Option<nat> {
    if 48 <= b <= 57 then Some(b as int - 48)
    else if 97 <= b <= 102 then Some(b as int - 87)
    else if 65 <= b <= 70 then Some(b as int - 55)
    else None
  }

  const LOWER_HEX: seq<int> := [48, 49, 50, 51, 52, 53, 54, 55, 56, 57, 97, 98, 99, 100, 101, 102]   // 0..9a..f
  const UPPER_HEX: seq<int> := [48, 49, 50, 51, 52, 53, 54, 55, 56, 57, 65, 66, 67, 68, 69, 70]       // 0..9A..F

  /** A base-16 digit is worth its place among the digits, in either case. */
  lemma HexDigitIff(b: Byte, d: nat)
    ensures HexDigit(b) == Some(d) <==> d < 16 && (LOWER_HEX[d] == b as int || UPPER_HEX[d] == b as int)
  {
    if d < 16 {
      assert d < 10 ==> LOWER_HEX[d] == UPPER_HEX[d] == 48 + d;
      assert d >= 10 ==> LOWER_HEX[d] == 87 + d && UPPER_HEX[d] == 55 + d;
    }
  }

  /** The digits of a base-16 integer literal, where single underscores may stand between digits. */
  function HexDigits(s: Bytes, acc: nat, afterUnderscore: bool): Option<nat> {
    if s == [] then (if afterUnderscore then None else Some(acc))
    else if s[0] == 95 then (if afterUnderscore then None else HexDigits(s[1..], acc, true))
    else match HexDigit(s[0])
         case None => None
         case Some(d) => HexDigits(s[1..], 16 * acc + d, false)
  }

  /** An unsigned literal: an optional 0x prefix (which may be followed by one underscore), then digits. */
  function HexMagnitude(s: Bytes): Option<nat> {
    if |s| >= 2 && s[0] == 48 && (s[1] == 120 || s[1] == 88) then
      (if |s| == 2 then None
       else if s[2] == 95 then (if |s| == 3 then None else HexDigits(s[3..], 0, true))
       else HexDigits(s[2..], 0, false))
    else if s == [] then None
    else HexDigits(s, 0, true)
  }

  function Negated(n: Option<nat>): Option<int> {
    if n.Some? then Some(0 - n.value as int) else None
  }

  /** Python's int(t, 16) on bytes without outer blanks: None where it raises ValueError. */
  function ParseHex(t: Bytes): Option<int> {
    if t == [] then None
    else if t[0] == 45 then
      Negated(HexMagnitude(t[1..]))
    else if t[0] == 43 then
      (match HexMagnitude(t[1..]) case Some(n) => Some(n) case None => None)
    else
      (match HexMagnitude(t) case Some(n) => Some(n) case None => None)
  }

  predicate AllHex(s: Bytes) {
    forall b :: b in s ==> HexDigit(b).Some?
  }

  /** The positional value of a base-16 numeral (1*HEXDIG, either case, leading zeros allowed). */
  function HexValue(s: Bytes): nat
    requires AllHex(s)
  {
    if s == [] then 0
    else
      assert Last(s) in s;
      16 * HexValue(Init(s)) + HexDigit(Last(s)).value
  }

  lemma {:induction false} HexDigitsSnoc(s: Bytes, acc: nat, u: bool, b: Byte)
    requires b != 95 && HexDigit(b).Some?
    ensures HexDigits(s + [b], acc, u) ==
            (if s == [] then Some(16 * acc + HexDigit(b).value)
             else match HexDigits(s, acc, u)
                  case Some(v) => Some(16 * v + HexDigit(b).value)
                  case None => HexDigits(s + [b], acc, u))
    decreases |s|
  {
    var t := s + [b];
    if s == [] {
      assert t[1..] == [];
    } else {
      assert t[1..] == s[1..] + [b];
      if s[0] == 95 {
        if !u { HexDigitsSnoc(s[1..], acc, true, b); }
      } else if HexDigit(s[0]).Some? {
        HexDigitsSnoc(s[1..], 16 * acc + HexDigit(s[0]).value, false, b);
      }
    }
  }

  lemma {:induction false} HexDigitsValue(s: Bytes)
    requires s != [] && AllHex(s)
    ensures HexDigits(s, 0, true) == Some(HexValue(s))
    decreases |s|
  {
    assert Last(s) in s && s == Init(s) + [Last(s)];
    if |s| > 1 {
      HexDigitsValue(Init(s));
    }
    HexDigitsSnoc(Init(s), 0, true, Last(s));
  }

  /** Python reads a plain base-16 numeral as its positional value. */
  lemma ParseHexNumeral(s: Bytes)
    requires s != [] && AllHex(s)
    ensures ParseHex(s) == Some(HexValue(s))
  {
    assert s[0] in s;
    HexDigitsValue(s);
    if |s| >= 2 {
      assert s[1] in s;
    }
  }

  // ---- decimal numerals -------------------------------------------------------------------

  predicate IsDigit(b: Byte) {
    48 <= b <= 57
  }

  predicate AllDigits(s: Bytes) {
    forall b :: b in s ==> IsDigit(b)
  }

  function DecimalValue(s: Bytes): nat
    requires AllDigits(s)
  {
    if s == [] then 0
    else
      assert Last(s) in s;
      10 * DecimalValue(Init(s)) + (Last(s) as int - 48)
  }

  function DecimalNumeral(n: nat): (s: Bytes)
    ensures s != [] && AllDigits(s)
    ensures DecimalValue(s) == n
  {
    var digit := (48 + n % 10) as Byte;
    if n < 10 then
      assert Init([digit]) == [];
      [digit]
    else
      var front := DecimalNumeral(n / 10);
      assert Init(front + [digit]) == front;
      front + [digit]
  }

  function Power(base: nat, n: nat): nat {
    if n == 0 then 1 else base * Power(base, n - 1)
  }

  lemma OnePlaceUp(base: nat, digit: int, n: nat)
    requires n > 0
    ensures base * (digit * Power(base, n - 1)) == digit * Power(base, n)
  {
  }

  /** Each digit counts its own worth times ten for every digit after it. */
  lemma {:induction false} LeadingDigit(b: Byte, s: Bytes)
    requires IsDigit(b) && AllDigits(s)
    ensures DecimalValue([b] + s) == (b as int - 48) * Power(10, |s|) + DecimalValue(s)
    decreases |s|
  {
    if s == [] {
      assert [b] + s == [b] && Init([b]) == [];
    } else {
      assert Init([b] + s) == [b] + Init(s);
      assert forall x :: x in Init(s) ==> x in s;
      hide Power;
      LeadingDigit(b, Init(s));
      OnePlaceUp(10, b as int - 48, |s|);
    }
  }

  lemma {:induction false} LeadingHexDigit(b: Byte, s: Bytes)
    requires HexDigit(b).Some? && AllHex(s)
    ensures AllHex([b] + s)
    ensures HexValue([b] + s) == HexDigit(b).value * Power(16, |s|) + HexValue(s)
    decreases |s|
  {
    if s == [] {
      assert [b] + s == [b] && Init([b]) == [];
    } else {
      assert Init([b] + s) == [b] + Init(s);
      assert forall x :: x in Init(s) ==> x in s;
      hide Power, HexDigit;
      LeadingHexDigit(b, Init(s));
      OnePlaceUp(16, HexDigit(b).value, |s|);
    }
  }

  /** The last position of `b` in `s`. */
  function FindLast(s: Bytes, b: Byte): (r: Option<nat>)
    ensures r.Some? ==> r.value < |s| && s[r.value] == b && b !in s[r.value + 1..]
    ensures r.None? ==> b !in s
    decreases |s|
  {
    if s == [] then None
    else if Last(s) == b then Some(|s| - 1)
    else
      assert forall k :: 0 <= k < |s| - 1 ==> Init(s)[k] == s[k];
      FindLast(Init(s), b)
  }
}
