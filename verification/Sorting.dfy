/** Sorting by a comparison, as Array.prototype.sort does with a consistent comparator. */
module Sorting {
  import opened Prelude

  /** On the entries of s: asymmetric, transitive, and two incomparable entries are equal. */
  ghost predicate TotalOn<T>(less: (T, T) -> bool, s: seq<T>) {
    && (forall a, b :: a in s && b in s ==> !(less(a, b) && less(b, a)) && (less(a, b) || a == b || less(b, a)))
    && forall a, b, c :: a in s && b in s && c in s && less(a, b) && less(b, c) ==> less(a, c)
  }

  ghost predicate Ascending<T>(less: (T, T) -> bool, s: seq<T>) {
    forall i, j :: 0 <= i < j < |s| ==> !less(s[j], s[i])
  }

  ghost predicate Increasing<T>(less: (T, T) -> bool, s: seq<T>) {
    forall i, j :: 0 <= i < j < |s| ==> less(s[i], s[j])
  }

  /** Before the first larger entry, or at the end. */
  function Slot<T>(less: (T, T) -> bool, s: seq<T>, x: T): (k: nat)
    ensures k <= |s|
    ensures forall i :: 0 <= i < k ==> !less(x, s[i])
    ensures k < |s| ==> less(x, s[k])
  {
    if s == [] || less(x, s[0]) then 0 else 1 + Slot(less, s[1..], x)
  }

  function Insert<T>(less: (T, T) -> bool, s: seq<T>, x: T): seq<T> {
    s[..Slot(less, s, x)] + [x] + s[Slot(less, s, x)..]
  }

  function Sorted<T>(less: (T, T) -> bool, s: seq<T>): seq<T>
    decreases |s|
  {
    if s == [] then [] else Insert(less, Sorted(less, Init(s)), Last(s))
  }

  lemma InsertEntry<T>(less: (T, T) -> bool, s: seq<T>, x: T, i: nat)
    requires i <= |s|
    ensures var k := Slot(less, s, x);
            |Insert(less, s, x)| == |s| + 1
            && Insert(less, s, x)[i] == if i < k then s[i] else if i == k then x else s[i - 1]
  {
  }

  lemma InsertMembers<T>(less: (T, T) -> bool, s: seq<T>, x: T)
    ensures multiset(Insert(less, s, x)) == multiset(s) + multiset{x}
    ensures forall y :: y in Insert(less, s, x) <==> y in s || y == x
  {
    hide Slot;
    var k := Slot(less, s, x);
    assert s == s[..k] + s[k..];
  }

  lemma TotalOnThree<T>(less: (T, T) -> bool, s: seq<T>, a: T, b: T, c: T)
    requires TotalOn(less, s) && a in s && b in s && c in s
    ensures less(a, b) && less(b, c) ==> less(a, c)
    ensures less(b, c) || b == c || less(c, b)
  {
  }

  lemma AscendingPair<T>(less: (T, T) -> bool, s: seq<T>, i: nat, j: nat)
    requires Ascending(less, s) && i <= j < |s|
    ensures i < j ==> !less(s[j], s[i])
  {
  }

  /** Everything from the slot on is larger than the entry that goes there. */
  lemma AfterSlot<T>(less: (T, T) -> bool, s: seq<T>, x: T, m: nat)
    requires TotalOn(less, s + [x]) && Ascending(less, s) && Slot(less, s, x) <= m < |s|
    ensures less(x, s[m])
  {
    var k, all := Slot(less, s, x), s + [x];
    hide Slot, TotalOn, Ascending;
    assert s[k] in all && s[m] in all && x in all;
    TotalOnThree(less, all, x, s[k], s[m]);
    AscendingPair(less, s, k, m);
  }

  lemma InsertAscends<T>(less: (T, T) -> bool, s: seq<T>, x: T)
    requires TotalOn(less, s + [x]) && Ascending(less, s)
    ensures Ascending(less, Insert(less, s, x))
  {
    hide Slot, Insert;
    var k, all, r := Slot(less, s, x), s + [x], Insert(less, s, x);
    InsertEntry(less, s, x, 0);
    forall i, j | 0 <= i < j < |r|
      ensures !less(r[j], r[i])
    {
      InsertEntry(less, s, x, i);
      InsertEntry(less, s, x, j);
      if i == k {
        AfterSlot(less, s, x, j - 1);
        assert x in all && s[j - 1] in all;
      }
    }
  }

  /** Distinct entries in ascending order strictly increase. */
  lemma AscendingDistinct<T>(less: (T, T) -> bool, s: seq<T>)
    requires TotalOn(less, s) && Ascending(less, s) && Distinct(s)
    ensures Increasing(less, s)
  {
    forall i, j | 0 <= i < j < |s|
      ensures less(s[i], s[j])
    {
      assert s[i] in s && s[j] in s;
    }
  }

  lemma IncreasingAscends<T>(less: (T, T) -> bool, s: seq<T>)
    requires TotalOn(less, s) && Increasing(less, s)
    ensures Ascending(less, s) && Distinct(s)
  {
    forall i, j | 0 <= i < j < |s|
      ensures !less(s[j], s[i]) && s[i] != s[j]
    {
      assert s[i] in s && s[j] in s;
      assert less(s[i], s[j]);
    }
  }

  lemma TotalOnPart<T>(less: (T, T) -> bool, whole: seq<T>, part: seq<T>)
    requires TotalOn(less, whole) && forall x :: x in part ==> x in whole
    ensures TotalOn(less, part)
  {
  }

  lemma SameMembers<T>(a: seq<T>, b: seq<T>)
    requires multiset(a) == multiset(b)
    ensures forall x :: x in a <==> x in b
  {
    forall x
      ensures x in a <==> x in b
    {
      assert x in a <==> x in multiset(a);
      assert x in b <==> x in multiset(b);
    }
  }

  lemma SortStep<T>(less: (T, T) -> bool, s: seq<T>, r: seq<T>)
    requires s != [] && TotalOn(less, s)
    requires Ascending(less, r) && multiset(r) == multiset(Init(s))
    ensures Ascending(less, Insert(less, r, Last(s)))
    ensures multiset(Insert(less, r, Last(s))) == multiset(s)
  {
    hide Insert, Ascending, TotalOn;
    var front, x := Init(s), Last(s);
    assert s == front + [x];
    SameMembers(r, front);
    assert forall y :: y in r + [x] ==> y in s;
    TotalOnPart(less, s, r + [x]);
    InsertAscends(less, r, x);
    InsertMembers(less, r, x);
  }

  lemma {:induction false} SortedSorts<T>(less: (T, T) -> bool, s: seq<T>)
    requires TotalOn(less, s)
    ensures Ascending(less, Sorted(less, s))
    ensures multiset(Sorted(less, s)) == multiset(s)
    decreases |s|
  {
    if s != [] {
      hide Insert, Ascending, TotalOn;
      assert forall x :: x in Init(s) ==> x in s;
      TotalOnPart(less, s, Init(s));
      SortedSorts(less, Init(s));
      SortStep(less, s, Sorted(less, Init(s)));
    }
  }

  lemma SortedIncreases<T>(less: (T, T) -> bool, s: seq<T>)
    requires TotalOn(less, s) && Distinct(s)
    ensures Increasing(less, Sorted(less, s))
    ensures forall x :: x in Sorted(less, s) <==> x in s
  {
    SortedSorts(less, s);
    ArrangementIncreases(less, s, Sorted(less, s));
  }

  lemma ArrangementIncreases<T>(less: (T, T) -> bool, s: seq<T>, r: seq<T>)
    requires TotalOn(less, s) && Distinct(s)
    requires Ascending(less, r) && multiset(r) == multiset(s)
    ensures Increasing(less, r)
    ensures forall x :: x in r <==> x in s
  {
    hide TotalOn, Ascending, Increasing;
    SameMembers(r, s);
    TotalOnPart(less, s, r);
    DistinctFromMultiset(s, r);
    AscendingDistinct(less, r);
  }

  lemma DistinctFromMultiset<T>(s: seq<T>, r: seq<T>)
    requires Distinct(s) && multiset(r) == multiset(s)
    ensures Distinct(r)
  {
    forall i, j | 0 <= i < j < |r|
      ensures r[i] != r[j]
    {
      if r[i] == r[j] {
        assert r == r[..i] + [r[i]] + r[i + 1..j] + [r[j]] + r[j + 1..];
        assert multiset(r)[r[i]] >= 2;
        AtMostOnce(s, r[i]);
        assert false;
      }
    }
  }

  lemma {:induction false} AtMostOnce<T>(s: seq<T>, x: T)
    requires Distinct(s)
    ensures multiset(s)[x] <= 1
    decreases |s|
  {
    if s != [] {
      AtMostOnce(Init(s), x);
      assert s == Init(s) + [Last(s)];
      assert Last(s) !in Init(s);
    }
  }

  /** A list has only one increasing arrangement, so the result does not depend on how the sort works. */
  lemma {:induction false} IncreasingUnique<T>(less: (T, T) -> bool, a: seq<T>, b: seq<T>)
    requires TotalOn(less, a) && Increasing(less, a) && Increasing(less, b)
    requires forall x :: x in a <==> x in b
    ensures a == b
    decreases |a|
  {
    EmptyTogether(a, b);
    if a != [] {
      var x, y := Last(a), Last(b);
      SameLast(less, a, b);
      TotalOnPart(less, a, b);
      assert a == Init(a) + [x] && b == Init(b) + [y];
      hide TotalOn, Increasing;
      forall z
        ensures z in Init(a) <==> z in Init(b)
      {
        if z in Init(a) {
          LastIsLargest(less, a, z);
        }
        if z in Init(b) {
          LastIsLargest(less, b, z);
        }
      }
      InitIncreases(less, a);
      InitIncreases(less, b);
      TotalOnPart(less, a, Init(a));
      IncreasingUnique(less, Init(a), Init(b));
    }
  }

  lemma InitIncreases<T>(less: (T, T) -> bool, s: seq<T>)
    requires s != [] && Increasing(less, s)
    ensures Increasing(less, Init(s))
  {
  }

  lemma SameLast<T>(less: (T, T) -> bool, a: seq<T>, b: seq<T>)
    requires TotalOn(less, a) && Increasing(less, a) && Increasing(less, b)
    requires a != [] && b != [] && forall x :: x in a <==> x in b
    ensures Last(a) == Last(b)
  {
    var x, y := Last(a), Last(b);
    assert x in b && y in a;
    var i :| 0 <= i < |b| && b[i] == x;
    var j :| 0 <= j < |a| && a[j] == y;
    assert i < |b| - 1 ==> less(x, y);
    assert j < |a| - 1 ==> less(y, x);
  }

  lemma LastIsLargest<T>(less: (T, T) -> bool, s: seq<T>, z: T)
    requires TotalOn(less, s) && Increasing(less, s) && s != [] && z in Init(s)
    ensures z in s && z != Last(s)
  {
    var k :| 0 <= k < |s| - 1 && Init(s)[k] == z;
    assert s[k] == z && less(s[k], Last(s));
  }
}
