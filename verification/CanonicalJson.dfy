/** The stable-key-order form that spec_hash is computed from. */
module CanonicalJson {
  import opened Prelude
  import opened Sorting
  import opened NameOrder

  /** A parsed JSON value. An object lists its own properties in the order JavaScript enumerates them. */
  datatype Json =
    | Null
    | Bool(b: bool)
    | Num(n: int)
    | Str(s: string)
    | Arr(items: seq<Json>)
    | Obj(fields: seq<Field>)

  datatype Field = Field(key: Name, value: Json)

  const PROTO: Name := "__proto__"

  function Keys(fs: seq<Field>): (ks: seq<Name>)
    ensures |ks| == |fs|
    ensures forall i :: 0 <= i < |fs| ==> ks[i] == fs[i].key
  {
    seq(|fs|, i requires 0 <= i < |fs| => fs[i].key)
  }

  function Find(fs: seq<Field>, k: Name): (i: nat)
    requires k in Keys(fs)
    ensures i < |fs| && fs[i].key == k
  {
    if fs[0].key == k then 0
    else
      assert Keys(fs) == [fs[0].key] + Keys(fs[1..]);
      1 + Find(fs[1..], k)
  }

  function Get(fs: seq<Field>, k: Name): Json
    requires k in Keys(fs)
  {
    fs[Find(fs, k)].value
  }

  lemma GetAt(fs: seq<Field>, i: nat)
    requires Distinct(Keys(fs)) && i < |fs|
    ensures Keys(fs)[i] in Keys(fs) && Get(fs, fs[i].key) == fs[i].value
  {
    assert Keys(fs)[i] in Keys(fs);
    var j := Find(fs, fs[i].key);
    assert Keys(fs)[j] == Keys(fs)[i];
  }

  /** No object holds a key twice. */
  ghost predicate WellFormed(v: Json) {
    match v
    case Arr(items) => forall i :: 0 <= i < |items| ==> WellFormed(items[i])
    case Obj(fs) => Distinct(Keys(fs)) && forall i :: 0 <= i < |fs| ==> WellFormed(fs[i].value)
    case _ => true
  }

  // ---- the order in which an object enumerates its keys ----------------------------------------------

  function Value(k: Name): nat
    decreases |k|
  {
    if k == [] then 0
    else Value(Init(k)) * 10 + (if '0' <= Last(k) <= '9' then Last(k) as int - '0' as int else 0)
  }

  predicate IsDecimal(k: Name) {
    k != [] && (forall i :: 0 <= i < |k| ==> '0' <= k[i] <= '9') && (|k| == 1 || k[0] != '0')
  }

  /** The canonical decimal form of an array index, 0 to 2^32 - 2. */
  predicate IsIndex(k: Name) {
    IsDecimal(k) && Value(k) < 0xFFFF_FFFF
  }

  /** Array indices first, by value; then the other keys as a sorted loop inserts them. */
  predicate KeyLess(a: Name, b: Name) {
    if IsIndex(a) then IsIndex(b) ==> Value(a) < Value(b)
    else !IsIndex(b) && Less(a, b)
  }

  lemma {:induction false} DecimalPositive(k: Name)
    requires IsDecimal(k) && k[0] != '0'
    ensures Value(k) > 0
    decreases |k|
  {
    if |k| > 1 {
      DecimalPositive(Init(k));
    }
  }

  lemma {:induction false} DecimalUnique(a: Name, b: Name)
    requires IsDecimal(a) && IsDecimal(b) && Value(a) == Value(b)
    ensures a == b
    decreases |a|
  {
    assert a == Init(a) + [Last(a)] && b == Init(b) + [Last(b)];
    assert Last(a) == Last(b) && Value(Init(a)) == Value(Init(b));
    if |a| > 1 {
      DecimalPositive(Init(a));
    }
    if |b| > 1 {
      DecimalPositive(Init(b));
    }
    if |a| > 1 && |b| > 1 {
      DecimalUnique(Init(a), Init(b));
    }
  }

  lemma KeyLessIsTotal(s: seq<Name>)
    ensures TotalOn(KeyLess, s)
  {
    forall a, b | a in s && b in s
      ensures !(KeyLess(a, b) && KeyLess(b, a)) && (KeyLess(a, b) || a == b || KeyLess(b, a))
    {
      hide Less, Value;
      LessTotal(a, b);
      if IsIndex(a) && IsIndex(b) && Value(a) == Value(b) {
        DecimalUnique(a, b);
      }
    }
    forall a, b, c | a in s && b in s && c in s && KeyLess(a, b) && KeyLess(b, c)
      ensures KeyLess(a, c)
    {
      hide Less, Value;
      if !IsIndex(a) {
        LessTransitive(a, b, c);
      }
    }
  }

  // ---- the same order, in plain terms ------------------------------------------------------------------

  /** The decimal numeral of a number, without leading zeros. */
  function Numeral(n: nat): Name {
    if n < 10 then [("0123456789")[n]] else Numeral(n / 10) + [("0123456789")[n % 10]]
  }

  /** An array index: the numeral of a number up to 2^32 - 2. */
  ghost predicate Indexes(k: Name) {
    exists n: nat :: n <= 4294967294 && k == Numeral(n)
  }

  /** Array indices come first, by number, and then the other keys, by code units. */
  ghost predicate Enumerated(a: Name, b: Name) {
    || (exists m: nat, n: nat :: m < n <= 4294967294 && a == Numeral(m) && b == Numeral(n))
    || (Indexes(a) && !Indexes(b))
    || (!Indexes(a) && !Indexes(b) && Precedes(a, b))
  }

  lemma DigitChar(d: nat)
    requires d < 10
    ensures ("0123456789")[d] as int == '0' as int + d
  {
  }

  lemma {:induction false} NumeralIsDecimal(n: nat)
    ensures IsDecimal(Numeral(n)) && Value(Numeral(n)) == n && (n > 0 ==> Numeral(n)[0] != '0')
    decreases n
  {
    DigitChar(n % 10);
    if n < 10 {
      assert Init(Numeral(n)) == [];
    } else {
      NumeralIsDecimal(n / 10);
      assert Init(Numeral(n)) == Numeral(n / 10);
    }
  }

  lemma IsIndexIff(k: Name)
    ensures IsIndex(k) <==> Indexes(k)
  {
    hide IsDecimal, Value, Numeral;
    if IsIndex(k) {
      NumeralIsDecimal(Value(k));
      DecimalUnique(k, Numeral(Value(k)));
    }
    if n: nat :| n <= 4294967294 && k == Numeral(n) {
      NumeralIsDecimal(n);
    }
  }

  lemma KeyLessIff(a: Name, b: Name)
    ensures KeyLess(a, b) <==> Enumerated(a, b)
  {
    hide IsDecimal, Value, Numeral, Less, Precedes;
    IsIndexIff(a);
    IsIndexIff(b);
    LessIff(a, b);
    if IsIndex(a) && IsIndex(b) {
      NumeralIsDecimal(Value(a));
      DecimalUnique(a, Numeral(Value(a)));
      NumeralIsDecimal(Value(b));
      DecimalUnique(b, Numeral(Value(b)));
      if m: nat, n: nat :| m < n <= 4294967294 && a == Numeral(m) && b == Numeral(n) {
        NumeralIsDecimal(m);
        NumeralIsDecimal(n);
      }
    }
    if m: nat, n: nat :| m < n <= 4294967294 && a == Numeral(m) && b == Numeral(n) {
      assert Indexes(a) && Indexes(b);
    }
  }

  // ---- canonicalize ---------------------------------------------------------------------------------

  /** Assigning `__proto__` sets the prototype, so it never becomes a property of the object. */
  function Kept(ks: seq<Name>): (r: seq<Name>)
    ensures forall k :: k in r <==> k in ks && k != PROTO
    decreases |ks|
  {
    if ks == [] then []
    else
      assert ks == Init(ks) + [Last(ks)];
      if Last(ks) == PROTO then Kept(Init(ks)) else Kept(Init(ks)) + [Last(ks)]
  }

  lemma {:induction false} KeptDistinct(ks: seq<Name>)
    requires Distinct(ks)
    ensures Distinct(Kept(ks))
    decreases |ks|
  {
    if ks != [] {
      KeptDistinct(Init(ks));
      assert Last(ks) !in Init(ks);
    }
  }

  /** The keys of the canonical object, as it enumerates them. */
  function CanonKeys(fs: seq<Field>): (ks: seq<Name>)
    requires Distinct(Keys(fs))
    ensures Increasing(KeyLess, ks)
    ensures forall k :: k in ks <==> k in Keys(fs) && k != PROTO
  {
    hide KeyLess, Kept;
    KeptDistinct(Keys(fs));
    KeyLessIsTotal(Kept(Keys(fs)));
    SortedIncreases(KeyLess, Kept(Keys(fs)));
    Sorted(KeyLess, Kept(Keys(fs)))
  }

  function Canon(v: Json): Json
    requires WellFormed(v)
  {
    match v
    case Arr(items) => Arr(seq(|items|, i requires 0 <= i < |items| => Canon(items[i])))
    case Obj(fs) =>
      var ks := CanonKeys(fs);
      Obj(seq(|ks|, i requires 0 <= i < |ks| => assert ks[i] in ks; Field(ks[i], Canon(Get(fs, ks[i])))))
    case _ => v
  }

  lemma IncreasingDistinct(ks: seq<Name>)
    requires Increasing(KeyLess, ks)
    ensures Distinct(ks)
  {
    KeyLessIsTotal(ks);
    hide KeyLess;
    IncreasingAscends(KeyLess, ks);
  }

  /** The canonical object lists every key but `__proto__`, in the order in which JavaScript enumerates them. */
  lemma CanonicalKeysInOrder(fs: seq<Field>)
    requires WellFormed(Obj(fs))
    ensures Canon(Obj(fs)).Obj?
    ensures var ks := Keys(Canon(Obj(fs)).fields);
            && (forall k :: k in ks <==> k in Keys(fs) && k != "__proto__")
            && forall i, j :: 0 <= i < j < |ks| ==> Enumerated(ks[i], ks[j])
  {
    CanonOfObject(fs);
    hide KeyLess, Enumerated, Canon;
    var ks := Keys(Canon(Obj(fs)).fields);
    forall i, j | 0 <= i < j < |ks|
      ensures Enumerated(ks[i], ks[j])
    {
      KeyLessIff(ks[i], ks[j]);
    }
  }

  /** What the canonical form of an object holds. */
  lemma CanonOfObject(fs: seq<Field>)
    requires WellFormed(Obj(fs))
    ensures Canon(Obj(fs)).Obj?
    ensures var cs := Canon(Obj(fs)).fields;
            && Keys(cs) == CanonKeys(fs) && Distinct(Keys(cs))
            && forall k :: k in Keys(cs) ==> k in Keys(fs) && WellFormed(Get(fs, k)) && Get(cs, k) == Canon(Get(fs, k))
  {
    hide CanonKeys, KeyLess, Distinct;
    var cs := Canon(Obj(fs)).fields;
    assert Keys(cs) == CanonKeys(fs);
    IncreasingDistinct(CanonKeys(fs));
    forall k | k in Keys(cs)
      ensures k in Keys(fs) && WellFormed(Get(fs, k)) && Get(cs, k) == Canon(Get(fs, k))
    {
      var i := Find(cs, k);
      assert cs[i] == Field(CanonKeys(fs)[i], Canon(Get(fs, CanonKeys(fs)[i])));
    }
  }

  // ---- what two specs must share to have the same canonical form ----------------------------------------

  /** Equal up to key order at every depth; array order counts. */
  ghost predicate Same(a: Json, b: Json)
    decreases a
  {
    match a
    case Arr(items) =>
      b.Arr? && |items| == |b.items| && forall i :: 0 <= i < |items| ==> Same(items[i], b.items[i])
    case Obj(fs) =>
      && b.Obj?
      && (forall k :: k in Keys(fs) <==> k in Keys(b.fields))
      && forall k :: k in Keys(fs) && k in Keys(b.fields) ==> Same(Get(fs, k), Get(b.fields, k))
    case _ => a == b
  }

  /** The same, leaving out every property called `__proto__`. */
  ghost predicate Alike(a: Json, b: Json)
    decreases a
  {
    match a
    case Arr(items) =>
      b.Arr? && |items| == |b.items| && forall i :: 0 <= i < |items| ==> Alike(items[i], b.items[i])
    case Obj(fs) =>
      && b.Obj?
      && (forall k :: k != PROTO ==> (k in Keys(fs) <==> k in Keys(b.fields)))
      && forall k :: k != PROTO && k in Keys(fs) && k in Keys(b.fields) ==> Alike(Get(fs, k), Get(b.fields, k))
    case _ => a == b
  }

  ghost predicate NoProto(v: Json) {
    match v
    case Arr(items) => forall i :: 0 <= i < |items| ==> NoProto(items[i])
    case Obj(fs) => PROTO !in Keys(fs) && forall i :: 0 <= i < |fs| ==> NoProto(fs[i].value)
    case _ => true
  }

  lemma {:induction false} EqualMeansAlike(a: Json, b: Json)
    requires WellFormed(a) && WellFormed(b) && Canon(a) == Canon(b)
    ensures Alike(a, b)
    decreases a
  {
    match a
    case Arr(items) =>
      assert b.Arr?;
      forall i | 0 <= i < |items|
        ensures Alike(items[i], b.items[i])
      {
        assert Canon(a).items[i] == Canon(items[i]) && Canon(b).items[i] == Canon(b.items[i]);
        EqualMeansAlike(items[i], b.items[i]);
      }
    case Obj(fs) =>
      assert b.Obj?;
      CanonOfObject(fs);
      CanonOfObject(b.fields);
      hide Canon;
      forall k | k != PROTO && k in Keys(fs) && k in Keys(b.fields)
        ensures Alike(Get(fs, k), Get(b.fields, k))
      {
        assert k in CanonKeys(fs);
        EqualMeansAlike(Get(fs, k), Get(b.fields, k));
      }
      forall k | k != PROTO
        ensures k in Keys(fs) <==> k in Keys(b.fields)
      {
        assert k in CanonKeys(fs) <==> k in CanonKeys(b.fields);
      }
    case _ =>
  }

  /** Objects with the same keys and the same values under each enumerate alike once canonical. */
  lemma SameFields(cs: seq<Field>, ds: seq<Field>)
    requires Increasing(KeyLess, Keys(cs)) && Increasing(KeyLess, Keys(ds))
    requires forall k :: k in Keys(cs) <==> k in Keys(ds)
    requires forall k :: k in Keys(cs) && k in Keys(ds) ==> Get(cs, k) == Get(ds, k)
    ensures cs == ds
  {
    IncreasingDistinct(Keys(cs));
    IncreasingDistinct(Keys(ds));
    KeyLessIsTotal(Keys(cs));
    hide KeyLess;
    IncreasingUnique(KeyLess, Keys(cs), Keys(ds));
    forall i | 0 <= i < |cs|
      ensures cs[i] == ds[i]
    {
      GetAt(cs, i);
      GetAt(ds, i);
      assert Keys(cs)[i] == Keys(ds)[i];
    }
  }

  lemma {:induction false} AlikeMeansEqual(a: Json, b: Json)
    requires WellFormed(a) && WellFormed(b) && Alike(a, b)
    ensures Canon(a) == Canon(b)
    decreases a
  {
    match a
    case Arr(items) =>
      forall i | 0 <= i < |items|
        ensures Canon(items[i]) == Canon(b.items[i])
      {
        AlikeMeansEqual(items[i], b.items[i]);
      }
      assert Canon(a).items == Canon(b).items;
    case Obj(fs) =>
      CanonOfObject(fs);
      CanonOfObject(b.fields);
      var cs, ds := Canon(a).fields, Canon(b).fields;
      hide Canon;
      forall k | k in Keys(cs) && k in Keys(ds)
        ensures Get(cs, k) == Get(ds, k)
      {
        AlikeMeansEqual(Get(fs, k), Get(b.fields, k));
      }
      SameFields(cs, ds);
    case _ =>
  }

  /**
    Two specs have the same canonical form exactly when they agree, up to key order at any depth, on every
    property not called `__proto__`.
   */
  lemma CanonicalFormsEqual(a: Json, b: Json)
    requires WellFormed(a) && WellFormed(b)
    ensures Canon(a) == Canon(b) <==> Alike(a, b)
  {
    if Canon(a) == Canon(b) {
      EqualMeansAlike(a, b);
    } else if Alike(a, b) {
      AlikeMeansEqual(a, b);
    }
  }

  lemma {:induction false} AlikeIsSame(a: Json, b: Json)
    requires WellFormed(a) && WellFormed(b) && NoProto(a) && NoProto(b)
    ensures Alike(a, b) <==> Same(a, b)
    decreases a
  {
    match a
    case Arr(items) =>
      if b.Arr? && |items| == |b.items| {
        forall i | 0 <= i < |items|
          ensures Alike(items[i], b.items[i]) <==> Same(items[i], b.items[i])
        {
          AlikeIsSame(items[i], b.items[i]);
        }
      }
    case Obj(fs) =>
      if b.Obj? {
        forall k | k in Keys(fs) && k in Keys(b.fields)
          ensures Alike(Get(fs, k), Get(b.fields, k)) <==> Same(Get(fs, k), Get(b.fields, k))
        {
          AlikeIsSame(Get(fs, k), Get(b.fields, k));
        }
      }
    case _ =>
  }

  /** Where no property is called `__proto__`, equal canonical forms mean equal up to key order and nothing else. */
  lemma CanonicalFormsEqualIffSame(a: Json, b: Json)
    requires WellFormed(a) && WellFormed(b) && NoProto(a) && NoProto(b)
    ensures Canon(a) == Canon(b) <==> Same(a, b)
  {
    CanonicalFormsEqual(a, b);
    AlikeIsSame(a, b);
  }

  lemma {:induction false} CanonWellFormed(v: Json)
    requires WellFormed(v)
    ensures WellFormed(Canon(v)) && NoProto(Canon(v))
    decreases v
  {
    match v
    case Arr(items) =>
      forall i | 0 <= i < |items|
        ensures WellFormed(Canon(items[i])) && NoProto(Canon(items[i]))
      {
        CanonWellFormed(items[i]);
      }
    case Obj(fs) =>
      CanonOfObject(fs);
      var cs := Canon(v).fields;
      hide Canon;
      forall i | 0 <= i < |cs|
        ensures WellFormed(cs[i].value) && NoProto(cs[i].value)
      {
        GetAt(cs, i);
        CanonWellFormed(Get(fs, cs[i].key));
      }
      assert Keys(cs) == CanonKeys(fs);
    case _ =>
  }

  lemma {:induction false} CanonIsAlike(v: Json)
    requires WellFormed(v)
    ensures Alike(Canon(v), v)
    decreases v
  {
    match v
    case Arr(items) =>
      forall i | 0 <= i < |items|
        ensures Alike(Canon(items[i]), items[i])
      {
        CanonIsAlike(items[i]);
      }
    case Obj(fs) =>
      CanonOfObject(fs);
      var cs := Canon(v).fields;
      hide Canon;
      assert Keys(cs) == CanonKeys(fs);
      forall k | k != PROTO && k in Keys(cs) && k in Keys(fs)
        ensures Alike(Get(cs, k), Get(fs, k))
      {
        CanonIsAlike(Get(fs, k));
      }
    case _ =>
  }

  /** Canonicalizing twice changes nothing. */
  lemma CanonIdempotent(v: Json)
    requires WellFormed(v)
    ensures WellFormed(Canon(v)) && Canon(Canon(v)) == Canon(v)
  {
    CanonWellFormed(v);
    CanonIsAlike(v);
    AlikeMeansEqual(Canon(v), v);
  }

  lemma {:induction false} SameKeepsNoProto(a: Json, b: Json)
    requires WellFormed(b) && Same(a, b) && NoProto(a)
    ensures NoProto(b)
    decreases b
  {
    match b
    case Arr(items) =>
      forall i | 0 <= i < |items|
        ensures NoProto(items[i])
      {
        SameKeepsNoProto(a.items[i], items[i]);
      }
    case Obj(fs) =>
      forall i | 0 <= i < |fs|
        ensures NoProto(fs[i].value)
      {
        GetAt(fs, i);
        assert fs[i].key in Keys(a.fields);
        var k := fs[i].key;
        var j := Find(a.fields, k);
        assert NoProto(a.fields[j].value);
        SameKeepsNoProto(Get(a.fields, k), Get(fs, k));
      }
    case _ =>
  }

  /** The canonical form keeps the whole content of a spec exactly when the spec never uses the key `__proto__`. */
  lemma CanonKeepsContentIff(v: Json)
    requires WellFormed(v)
    ensures Same(Canon(v), v) <==> NoProto(v)
  {
    CanonWellFormed(v);
    CanonIsAlike(v);
    if NoProto(v) {
      AlikeIsSame(Canon(v), v);
    }
    if Same(Canon(v), v) {
      SameKeepsNoProto(Canon(v), v);
    }
  }

  /** Two different specs with one canonical form, so one spec_hash. */
  lemma ProtoIsNotHashed(x: Json)
    requires WellFormed(x)
    ensures var a, b := Obj([Field(PROTO, x)]), Obj([]);
            WellFormed(a) && WellFormed(b) && Canon(a) == Canon(b) && !Same(a, b)
  {
    var a, b := Obj([Field(PROTO, x)]), Obj([]);
    assert Keys(a.fields) == [PROTO];
    assert PROTO in Keys(a.fields) && PROTO !in Keys(b.fields);
    CanonicalFormsEqual(a, b);
  }

  // ---- the loop of the source ---------------------------------------------------------------------------

  /** Where a new array index goes: after the smaller indices, before everything else. */
  function Slot(fs: seq<Field>, k: Name): (i: nat)
    ensures i <= |fs|
    ensures forall j :: 0 <= j < i ==> !KeyLess(k, fs[j].key)
    ensures i < |fs| ==> KeyLess(k, fs[i].key)
  {
    if fs == [] || KeyLess(k, fs[0].key) then 0 else 1 + Slot(fs[1..], k)
  }

  /** `out[k] = v` on an ordinary object. */
  function Assigned(fs: seq<Field>, k: Name, v: Json): seq<Field> {
    if k == PROTO then fs
    else if k in Keys(fs) then fs[Find(fs, k) := Field(k, v)]
    else if IsIndex(k) then fs[..Slot(fs, k)] + [Field(k, v)] + fs[Slot(fs, k)..]
    else fs + [Field(k, v)]
  }

  /** canonicalize: arrays are mapped, objects are refilled key by key in sorted order. */
  method Canonicalize(v: Json) returns (c: Json)
    requires WellFormed(v)
    ensures c == Canon(v)
    decreases v
  {
    match v {
      case Arr(items) =>
        var out := [];
        for i := 0 to |items|
          invariant |out| == i && forall j :: 0 <= j < i ==> out[j] == Canon(items[j])
        {
          var e := Canonicalize(items[i]);
          out := out + [e];
        }
        c := Arr(out);
      case Obj(fs) =>
        var keys := Sorted(Less, Keys(fs));
        LessIsTotal(Keys(fs));
        SortedIncreases(Less, Keys(fs));
        var out: seq<Field> := [];
        for i := 0 to |keys|
          invariant Filled(fs, keys[..i], out)
        {
          hide Less, KeyLess, Filled, Canon;
          assert keys[i] in keys;
          var value := Canonicalize(Get(fs, keys[i]));
          FillOne(fs, keys, i, out);
          out := Assigned(out, keys[i], value);
        }
        assert keys[..|keys|] == keys;
        FilledIsCanon(fs, keys, out);
        c := Obj(out);
      case _ => c := v;
    }
  }

  /** The object built from the first keys of the sorted list. */
  ghost predicate Filled(fs: seq<Field>, keys: seq<Name>, out: seq<Field>)
    requires WellFormed(Obj(fs))
  {
    && (forall k :: k in keys ==> k in Keys(fs))
    && Increasing(KeyLess, Keys(out))
    && (forall k :: k in Keys(out) <==> k in keys && k != PROTO)
    && forall k :: k in Keys(out) && k in Keys(fs) ==> WellFormed(Get(fs, k)) && Get(out, k) == Canon(Get(fs, k))
  }

  lemma FilledIsCanon(fs: seq<Field>, keys: seq<Name>, out: seq<Field>)
    requires WellFormed(Obj(fs)) && Filled(fs, keys, out)
    requires forall k :: k in keys <==> k in Keys(fs)
    ensures Obj(out) == Canon(Obj(fs))
  {
    CanonOfObject(fs);
    hide Canon, KeyLess;
    SameFields(out, Canon(Obj(fs)).fields);
  }

  lemma InsertIncreases(fs: seq<Field>, s: nat, f: Field)
    requires s <= |fs| && Increasing(KeyLess, Keys(fs))
    requires forall j :: 0 <= j < s ==> KeyLess(fs[j].key, f.key)
    requires forall j :: s <= j < |fs| ==> KeyLess(f.key, fs[j].key)
    ensures Increasing(KeyLess, Keys(fs[..s] + [f] + fs[s..]))
  {
    hide KeyLess;
    var r := fs[..s] + [f] + fs[s..];
    forall i, j | 0 <= i < j < |r|
      ensures KeyLess(Keys(r)[i], Keys(r)[j])
    {
      var i', j' := if i < s then i else i - 1, if j < s then j else j - 1;
      assert i != s && j != s ==> KeyLess(Keys(fs)[i'], Keys(fs)[j']);
    }
  }

  lemma InsertKeeps(fs: seq<Field>, s: nat, f: Field, k: Name)
    requires s <= |fs| && Distinct(Keys(fs)) && Distinct(Keys(fs[..s] + [f] + fs[s..])) && k in Keys(fs)
    ensures var r := fs[..s] + [f] + fs[s..];
            k in Keys(r) && k != f.key && Get(r, k) == Get(fs, k)
  {
    var r := fs[..s] + [f] + fs[s..];
    var i := Find(fs, k);
    var i' := if i < s then i else i + 1;
    assert Keys(r)[i'] != Keys(r)[s];
    hide Distinct;
    GetAt(r, i');
    GetAt(fs, i);
  }

  lemma InsertField(fs: seq<Field>, s: nat, f: Field)
    requires s <= |fs| && Increasing(KeyLess, Keys(fs))
    requires forall j :: 0 <= j < s ==> KeyLess(fs[j].key, f.key)
    requires forall j :: s <= j < |fs| ==> KeyLess(f.key, fs[j].key)
    ensures var r := fs[..s] + [f] + fs[s..];
            && Increasing(KeyLess, Keys(r))
            && (forall k :: k in Keys(r) <==> k in Keys(fs) || k == f.key)
            && f.key !in Keys(fs) && Get(r, f.key) == f.value
            && forall k :: k in Keys(fs) ==> k in Keys(r) && Get(r, k) == Get(fs, k)
  {
    var r := fs[..s] + [f] + fs[s..];
    InsertIncreases(fs, s, f);
    IncreasingDistinct(Keys(r));
    IncreasingDistinct(Keys(fs));
    hide KeyLess, Increasing, Distinct;
    GetAt(r, s);
    forall k | k in Keys(fs)
      ensures k in Keys(r) && k != f.key && Get(r, k) == Get(fs, k)
    {
      InsertKeeps(fs, s, f, k);
    }
    forall k | k in Keys(r)
      ensures k in Keys(fs) || k == f.key
    {
      var i := Find(r, k);
      if i != s {
        GetAt(fs, if i < s then i else i - 1);
      }
    }
  }

  lemma SlotSplits(fs: seq<Field>, k: Name, j: nat)
    requires Increasing(KeyLess, Keys(fs)) && k !in Keys(fs) && j < |fs|
    ensures j < Slot(fs, k) ==> KeyLess(fs[j].key, k)
    ensures Slot(fs, k) <= j ==> KeyLess(k, fs[j].key)
  {
    var s := Slot(fs, k);
    KeyLessIsTotal(Keys(fs) + [k]);
    hide KeyLess, Slot;
    assert Keys(fs)[j] in Keys(fs);
    assert k in Keys(fs) + [k] && Keys(fs)[j] in Keys(fs) + [k];
    if s < j {
      assert Keys(fs)[s] in Keys(fs) + [k];
      assert KeyLess(Keys(fs)[s], Keys(fs)[j]);
    }
  }

  /** Assigning a new key puts it where enumeration order wants it, provided it sorts after the string keys present. */
  lemma AssignNew(fs: seq<Field>, k: Name, v: Json)
    requires Increasing(KeyLess, Keys(fs)) && k != PROTO && k !in Keys(fs)
    requires !IsIndex(k) ==> forall j :: 0 <= j < |fs| ==> KeyLess(fs[j].key, k)
    ensures var r := Assigned(fs, k, v);
            && Increasing(KeyLess, Keys(r))
            && (forall k' :: k' in Keys(r) <==> k' in Keys(fs) || k' == k)
            && Get(r, k) == v
            && forall k' :: k' in Keys(fs) ==> k' in Keys(r) && Get(r, k') == Get(fs, k')
  {
    hide KeyLess, IsIndex, Slot, Increasing;
    if IsIndex(k) {
      forall j: nat | j < |fs|
        ensures j < Slot(fs, k) ==> KeyLess(fs[j].key, k)
        ensures Slot(fs, k) <= j ==> KeyLess(k, fs[j].key)
      {
        SlotSplits(fs, k, j);
      }
      InsertField(fs, Slot(fs, k), Field(k, v));
    } else {
      InsertField(fs, |fs|, Field(k, v));
      assert fs[..|fs|] + [Field(k, v)] + fs[|fs|..] == fs + [Field(k, v)];
    }
  }

  lemma EarlierKeysSortBelow(keys: seq<Name>, i: nat, k: Name)
    requires i < |keys| && Increasing(Less, keys) && k in keys[..i]
    ensures k != keys[i] && (!IsIndex(keys[i]) ==> KeyLess(k, keys[i]))
  {
    var j :| 0 <= j < i && keys[j] == k;
    assert Less(keys[j], keys[i]);
    NeverLess(k);
  }

  lemma FillOne(fs: seq<Field>, keys: seq<Name>, i: nat, out: seq<Field>)
    requires WellFormed(Obj(fs)) && i < |keys| && Increasing(Less, keys) && keys[i] in Keys(fs)
    requires Filled(fs, keys[..i], out)
    ensures WellFormed(Get(fs, keys[i]))
    ensures Filled(fs, keys[..i + 1], Assigned(out, keys[i], Canon(Get(fs, keys[i]))))
  {
    hide Less, KeyLess, IsIndex, Assigned, Increasing, Canon;
    var k := keys[i];
    assert keys[..i + 1] == keys[..i] + [k];
    if k == PROTO {
      ProtoIsNotAssigned(out, Canon(Get(fs, k)));
    } else {
      forall j | 0 <= j < |out|
        ensures out[j].key != k && (!IsIndex(k) ==> KeyLess(out[j].key, k))
      {
        assert Keys(out)[j] in Keys(out);
        EarlierKeysSortBelow(keys, i, out[j].key);
      }
      AssignNew(out, k, Canon(Get(fs, k)));
    }
  }

  lemma ProtoIsNotAssigned(fs: seq<Field>, v: Json)
    ensures Assigned(fs, PROTO, v) == fs
  {
  }
}
