/** Small shared vocabulary: options, subsequences, and finite pigeonholes. */
module Prelude {

  datatype Option<+T> = None | Some(value: T)

  function Larger(a: nat, b: nat): nat {
    if a > b then a else b
  }

  function Last<T>(s: seq<T>): T
    requires s != []
  {
    s[|s| - 1]
  }

  function Init<T>(s: seq<T>): seq<T>
    requires s != []
  {
    s[..|s| - 1]
  }

  ghost predicate Distinct<T>(s: seq<T>) {
    forall i, j :: 0 <= i < j < |s| ==> s[i] != s[j]
  }

  function Elements<T>(s: seq<T>): set<T> {
    set x | x in s
  }

  /** `a` can be obtained from `b` by deleting entries. */
  ghost predicate IsSubseq<T>(a: seq<T>, b: seq<T>)
    decreases |b|
  {
    if a == [] then true
    else if b == [] then false
    else (Last(a) == Last(b) && IsSubseq(Init(a), Init(b))) || IsSubseq(a, Init(b))
  }

  lemma {:induction false} SubseqRefl<T>(a: seq<T>)
    ensures IsSubseq(a, a)
    decreases |a|
  {
    if a != [] {
      SubseqRefl(Init(a));
    }
  }

  lemma {:induction false} SubseqAppend<T>(a: seq<T>, b: seq<T>, c: seq<T>, d: seq<T>)
    requires IsSubseq(a, b) && IsSubseq(c, d)
    ensures IsSubseq(a + c, b + d)
    decreases |d|
  {
    if d == [] {
      assert a + c == a && b + d == b;
    } else {
      assert Init(b + d) == b + Init(d);
      if c == [] {
        SubseqAppend(a, b, c, Init(d));
      } else if Last(c) == Last(d) && IsSubseq(Init(c), Init(d)) {
        SubseqAppend(a, b, Init(c), Init(d));
        assert Init(a + c) == a + Init(c);
      } else {
        SubseqAppend(a, b, c, Init(d));
      }
    }
  }

  lemma {:induction false} SubseqLength<T>(a: seq<T>, b: seq<T>)
    requires IsSubseq(a, b)
    ensures |a| <= |b|
    ensures |a| == |b| ==> a == b
    decreases |b|
  {
    if a != [] {
      if Last(a) == Last(b) && IsSubseq(Init(a), Init(b)) {
        SubseqLength(Init(a), Init(b));
        assert a == Init(a) + [Last(a)];
        assert b == Init(b) + [Last(b)];
      } else {
        SubseqLength(a, Init(b));
      }
    }
  }

  /** A distinct sequence has as many entries as its set of elements. */
  lemma {:induction false} DistinctCardinality<T>(s: seq<T>)
    requires Distinct(s)
    ensures |Elements(s)| == |s|
    decreases |s|
  {
    if s != [] {
      DistinctCardinality(Init(s));
      assert s == Init(s) + [Last(s)];
      assert Elements(s) == Elements(Init(s)) + {Last(s)};
      assert Last(s) !in Init(s);
    }
  }

  /** A sequence longer than the set it draws from repeats an entry. */
  lemma {:induction false} Pigeonhole<T>(s: seq<T>, pool: set<T>) returns (i: nat, j: nat)
    requires forall x :: x in s ==> x in pool
    requires |s| > |pool|
    ensures i < j < |s| && s[i] == s[j]
  {
    if Distinct(s) {
      DistinctCardinality(s);
      SubsetCardinality(Elements(s), pool);
      assert false;
    }
    i, j :| 0 <= i < j < |s| && s[i] == s[j];
  }

  lemma {:induction false} SubsetCardinality<T>(a: set<T>, b: set<T>)
    requires a <= b
    ensures |a| <= |b|
    ensures |a| == |b| ==> a == b
  {
    assert b == a + (b - a);
    assert |b| == |a| + |b - a|;
  }

  lemma EmptyTogether<T>(a: seq<T>, b: seq<T>)
    requires forall x :: x in a <==> x in b
    ensures a == [] <==> b == []
  {
    assert a != [] ==> a[0] in a;
    assert b != [] ==> b[0] in b;
  }

  lemma Assoc<T>(a: seq<T>, b: seq<T>, c: seq<T>)
    ensures a + (b + c) == a + b + c
  {
  }

  lemma OneMore<T>(a: seq<T>, b: seq<T>)
    requires b != []
    ensures a + Init(b) + [Last(b)] == a + b
  {
    assert b == Init(b) + [Last(b)];
  }

  /** Any member of a set. */
  method Pick<T>(s: set<T>) returns (x: T)
    requires s != {}
    ensures x in s
  {
    x :| x in s;
  }
}
