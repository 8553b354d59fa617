/** The order JavaScript's sort() and `<` give to names. */
module NameOrder {
  import opened Sorting

  type Name = string

  /** Strictly smaller, code unit by code unit. */
  predicate Less(a: Name, b: Name)
    decreases |a|
  {
    b != [] && (a == [] || a[0] < b[0] || (a[0] == b[0] && Less(a[1..], b[1..])))
  }

  /** A proper beginning of the other name. */
  predicate Begins(a: Name, b: Name) {
    |a| < |b| && a == b[..|a|]
  }

  /** The names agree before unit i, and there `a` has the smaller one. */
  predicate SmallerAt(a: Name, b: Name, i: nat) {
    i < |a| && i < |b| && a[..i] == b[..i] && a[i] < b[i]
  }

  /** `a` comes before `b`: it is a beginning of it, or has the smaller code unit at the first difference. */
  ghost predicate Precedes(a: Name, b: Name) {
    Begins(a, b) || exists i :: SmallerAt(a, b, i)
  }

  lemma {:induction false} LessIff(a: Name, b: Name)
    ensures Less(a, b) <==> Precedes(a, b)
    decreases |a|
  {
    if a != [] && b != [] {
      LessIff(a[1..], b[1..]);
      if a[0] == b[0] {
        TailsPrecede(a, b);
      } else {
        FirstUnitDecides(a, b);
      }
    }
  }

  lemma FirstUnitDecides(a: Name, b: Name)
    requires a != [] && b != [] && a[0] != b[0]
    ensures Precedes(a, b) <==> a[0] < b[0]
  {
    forall i | 0 < i <= |a| && i <= |b|
      ensures a[..i] != b[..i]
    {
      assert a[..i][0] != b[..i][0];
    }
    assert a[0] < b[0] ==> SmallerAt(a, b, 0);
  }

  /** An equal first unit does not matter. */
  lemma TailsPrecede(a: Name, b: Name)
    requires a != [] && b != [] && a[0] == b[0]
    ensures Precedes(a, b) <==> Precedes(a[1..], b[1..])
  {
    var a', b' := a[1..], b[1..];
    assert a == [a[0]] + a' && b == [b[0]] + b';
    if Begins(a, b) {
      assert a' == b[..|a|][1..] == b'[..|a'|];
    }
    if Begins(a', b') {
      assert a == b[..|a|];
    }
    if i: nat :| SmallerAt(a, b, i) {
      assert i > 0 && a'[..i - 1] == a[..i][1..] == b[..i][1..] == b'[..i - 1];
      assert SmallerAt(a', b', i - 1);
    }
    if i: nat :| SmallerAt(a', b', i) {
      assert a[..i + 1] == [a[0]] + a'[..i] && b[..i + 1] == [b[0]] + b'[..i];
      assert SmallerAt(a, b, i + 1);
    }
  }

  lemma {:induction false} LessTotal(a: Name, b: Name)
    ensures Less(a, b) || a == b || Less(b, a)
    ensures !(Less(a, b) && Less(b, a))
    ensures !Less(a, a)
    decreases |a| + |b|
  {
    if a != [] && b != [] {
      LessTotal(a[1..], b[1..]);
      if a[0] == b[0] && a[1..] == b[1..] {
        assert a == [a[0]] + a[1..] == [b[0]] + b[1..] == b;
      }
    }
    NeverLess(a);
  }

  lemma {:induction false} NeverLess(a: Name)
    ensures !Less(a, a)
    decreases |a|
  {
    if a != [] {
      NeverLess(a[1..]);
    }
  }

  lemma {:induction false} LessTransitive(a: Name, b: Name, c: Name)
    requires Less(a, b) && Less(b, c)
    ensures Less(a, c)
    decreases |a|
  {
    if a != [] && a[0] == b[0] && b[0] == c[0] {
      LessTransitive(a[1..], b[1..], c[1..]);
    }
  }

  lemma LessIsTotal(s: seq<Name>)
    ensures TotalOn(Less, s)
  {
    hide Less;
    forall a, b | a in s && b in s
      ensures !(Less(a, b) && Less(b, a)) && (Less(a, b) || a == b || Less(b, a))
    {
      LessTotal(a, b);
    }
    forall a, b, c | a in s && b in s && c in s && Less(a, b) && Less(b, c)
      ensures Less(a, c)
    {
      LessTransitive(a, b, c);
    }
  }

  lemma IncreasingPrecedes(s: seq<Name>)
    requires Increasing(Less, s)
    ensures forall i, j :: 0 <= i < j < |s| ==> Precedes(s[i], s[j])
  {
    hide Less, Precedes;
    forall i, j | 0 <= i < j < |s|
      ensures Precedes(s[i], s[j])
    {
      LessIff(s[i], s[j]);
    }
  }

  /** The lists agree before entry i, and there `a` has the earlier name. */
  ghost predicate EarlierAt(a: seq<Name>, b: seq<Name>, i: nat) {
    i < |a| && i < |b| && a[..i] == b[..i] && Precedes(a[i], b[i])
  }

  /** The earlier of two name lists: at the first difference it has the smaller name. */
  ghost predicate LexLeast(a: seq<Name>, b: seq<Name>) {
    a == b || exists i :: EarlierAt(a, b, i)
  }
}
