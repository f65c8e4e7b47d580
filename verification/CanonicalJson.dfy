/** Key-sorted JSON: sorting keeps the value and, when no two keys tie, makes equal values identical. */
module CanonicalJson {
  import opened Prelude

  datatype Entry<X> = Entry(key: string, value: X)

  datatype Atom = Null | Bool(b: bool) | Number(n: real) | Text(t: string)

  /** A JSON text's tree; the entries of an object are in property order. */
  datatype Json = Leaf(atom: Atom) | List(items: seq<Json>) | Object(entries: seq<Entry<Json>>)

  /** What a tree means: objects are unordered. */
  datatype Value = Plain(atom: Atom) | Listed(items: seq<Value>) | Mapped(entries: map<string, Value>)

  type Order = (string, string) -> bool

  function Init<X>(s: seq<X>): (r: seq<X>)
    requires s != []
    ensures |r| == |s| - 1 && s == r + [s[|s| - 1]]
  {
    s[..|s| - 1]
  }

  function Last<X>(s: seq<X>): X
    requires s != []
  {
    s[|s| - 1]
  }

  // ---------- Orders ----------

  ghost predicate StrictWeak(lt: Order) {
    && (forall a, b :: lt(a, b) ==> !lt(b, a))
    && (forall a, b, c :: lt(a, c) ==> lt(a, b) || lt(b, c))
  }

  /** First by p, then by q. */
  function Lex(p: Order, q: Order): Order {
    (a, b) => p(a, b) || (!p(b, a) && q(a, b))
  }

  lemma LexIsWeak(p: Order, q: Order)
    requires StrictWeak(p) && StrictWeak(q)
    ensures StrictWeak(Lex(p, q))
  {
  }

  /** The two keys are never told apart. */
  predicate Tied(lt: Order, a: string, b: string) {
    a != b && !lt(a, b) && !lt(b, a)
  }

  /** Any two of the keys are told apart. */
  predicate UntiedKeys(lt: Order, keys: set<string>) {
    forall x, y :: x in keys && y in keys ==> !Tied(lt, x, y)
  }

  // ---------- Property order ----------

  predicate IsDigit(c: char) {
    '0' <= c <= '9'
  }

  predicate IsDecimal(t: string) {
    t != "" && (forall i :: 0 <= i < |t| ==> IsDigit(t[i])) && (t[0] == '0' ==> |t| == 1)
  }

  function Digits(t: string): (n: nat)
    requires forall i :: 0 <= i < |t| ==> IsDigit(t[i])
  {
    if t == "" then 0
    else
      assert IsDigit(t[|t| - 1]);
      10 * Digits(Init(t)) + (Last(t) as int - '0' as int)
  }

  /** The array index a key denotes, if it is the canonical numeral of one. */
  function Index(key: string): Option<nat> {
    if IsDecimal(key) && Digits(key) < 0xFFFF_FFFF then Some(Digits(key)) else None
  }

  /** Array indices come first, by value; the other keys stay in order of creation. */
  function Placed(): Order {
    (a: string, b: string) => Index(a).Some? && (Index(b).None? || Index(a).value < Index(b).value)
  }

  // ---------- Stable sorting ----------

  function Insert<X>(lt: Order, s: seq<Entry<X>>, x: Entry<X>): seq<Entry<X>>
    decreases |s|
  {
    if s != [] && lt(x.key, Last(s).key) then Insert(lt, Init(s), x) + [Last(s)] else s + [x]
  }

  function Sort<X>(lt: Order, s: seq<Entry<X>>): seq<Entry<X>>
    decreases |s|
  {
    if s == [] then [] else Insert(lt, Sort(lt, Init(s)), Last(s))
  }

  /** Entries sorted by a comparison and then assembled into an object. */
  function Arrange<X>(less: Order, s: seq<Entry<X>>): seq<Entry<X>> {
    Sort(Placed(), Sort(less, s))
  }

  function ToMap<X>(s: seq<Entry<X>>): map<string, X>
    decreases |s|
  {
    if s == [] then map[] else ToMap(Init(s))[Last(s).key := Last(s).value]
  }

  predicate Unique<X>(s: seq<Entry<X>>)
    decreases |s|
  {
    s == [] || (Unique(Init(s)) && Last(s).key !in ToMap(Init(s)))
  }

  ghost predicate Ascending<X>(lt: Order, s: seq<Entry<X>>)
    decreases |s|
  {
    s == [] || (Ascending(lt, Init(s)) && forall k :: k in ToMap(Init(s)) ==> !lt(Last(s).key, k))
  }

  lemma AppendFacts<X>(lt: Order, s: seq<Entry<X>>, x: Entry<X>)
    ensures ToMap(s + [x]) == ToMap(s)[x.key := x.value]
    ensures Unique(s + [x]) <==> Unique(s) && x.key !in ToMap(s)
    ensures Ascending(lt, s + [x]) <==> Ascending(lt, s) && forall k :: k in ToMap(s) ==> !lt(x.key, k)
  {
    assert Init(s + [x]) == s;
  }

  lemma {:induction false} InsertKeeps<X>(lt: Order, s: seq<Entry<X>>, x: Entry<X>)
    requires Unique(s) && x.key !in ToMap(s)
    ensures ToMap(Insert(lt, s, x)) == ToMap(s)[x.key := x.value] && Unique(Insert(lt, s, x))
    decreases |s|
  {
    if s != [] && lt(x.key, Last(s).key) {
      InsertKeeps(lt, Init(s), x);
      AppendFacts(lt, Insert(lt, Init(s), x), Last(s));
      UpdatesCommute(ToMap(Init(s)), x, Last(s));
    } else {
      AppendFacts(lt, s, x);
    }
  }

  lemma UpdatesCommute<X>(m: map<string, X>, a: Entry<X>, b: Entry<X>)
    requires a.key != b.key
    ensures m[a.key := a.value][b.key := b.value] == m[b.key := b.value][a.key := a.value]
  {
  }

  lemma {:induction false} SortKeeps<X>(lt: Order, s: seq<Entry<X>>)
    requires Unique(s)
    ensures ToMap(Sort(lt, s)) == ToMap(s) && Unique(Sort(lt, s))
    decreases |s|
  {
    if s != [] {
      SortKeeps(lt, Init(s));
      InsertKeeps(lt, Sort(lt, Init(s)), Last(s));
    }
  }

  lemma {:induction false} InsertIsStable<X>(p: Order, q: Order, s: seq<Entry<X>>, x: Entry<X>)
    requires StrictWeak(p) && StrictWeak(q) && Unique(s) && x.key !in ToMap(s)
    requires Ascending(Lex(p, q), s) && forall k :: k in ToMap(s) ==> !q(x.key, k)
    ensures Ascending(Lex(p, q), Insert(p, s, x))
    decreases |s|
  {
    var lt := Lex(p, q);
    if s != [] && p(x.key, Last(s).key) {
      InsertIsStable(p, q, Init(s), x);
      InsertKeeps(p, Init(s), x);
      assert !lt(Last(s).key, x.key);
      AppendFacts(lt, Insert(p, Init(s), x), Last(s));
    } else {
      LexIsWeak(p, q);
      AppendFacts(lt, s, x);
      forall k | k in ToMap(s) ensures !lt(x.key, k) {
        StaysBehind(lt, x.key, Last(s).key, k);
      }
    }
  }

  lemma StaysBehind(lt: Order, a: string, b: string, c: string)
    requires StrictWeak(lt)
    ensures !lt(a, b) && !lt(b, c) ==> !lt(a, c)
  {
  }

  /** Sorting by p what is sorted by q sorts by p and, where p does not decide, by q. */
  lemma {:induction false} SortIsStable<X>(p: Order, q: Order, s: seq<Entry<X>>)
    requires StrictWeak(p) && StrictWeak(q) && Unique(s) && Ascending(q, s)
    ensures Ascending(Lex(p, q), Sort(p, s))
    decreases |s|
  {
    if s != [] {
      SortIsStable(p, q, Init(s));
      SortKeeps(p, Init(s));
      InsertIsStable(p, q, Sort(p, Init(s)), Last(s));
    }
  }

  lemma {:induction false} WeakerAscending<X>(lt: Order, weaker: Order, s: seq<Entry<X>>)
    requires Ascending(lt, s) && forall a, b :: weaker(a, b) ==> lt(a, b)
    ensures Ascending(weaker, s)
    decreases |s|
  {
    if s != [] {
      WeakerAscending(lt, weaker, Init(s));
    }
  }

  lemma {:induction false} NeverAscending<X>(s: seq<Entry<X>>)
    ensures Ascending(Never(), s)
    decreases |s|
  {
    if s != [] {
      NeverAscending(Init(s));
    }
  }

  function Never(): Order {
    (a, b) => false
  }

  lemma SortAscends<X>(less: Order, s: seq<Entry<X>>)
    requires StrictWeak(less) && Unique(s)
    ensures Ascending(less, Sort(less, s))
  {
    NeverAscending(s);
    SortIsStable(less, Never(), s);
    WeakerAscending(Lex(less, Never()), less, Sort(less, s));
  }

  lemma PlacedIsWeak()
    ensures StrictWeak(Placed())
  {
  }

  lemma ArrangeAscends<X>(less: Order, s: seq<Entry<X>>)
    requires StrictWeak(less) && Unique(s)
    ensures ToMap(Arrange(less, s)) == ToMap(s) && Unique(Arrange(less, s))
    ensures Ascending(Lex(Placed(), less), Arrange(less, s))
  {
    SortKeeps(less, s);
    SortAscends(less, s);
    PlacedIsWeak();
    SortKeeps(Placed(), Sort(less, s));
    SortIsStable(Placed(), less, Sort(less, s));
  }

  lemma OnlyEmpty<X>(s: seq<Entry<X>>)
    ensures ToMap(s) == map[] ==> s == []
  {
    assert s != [] ==> Last(s).key in ToMap(s);
  }

  /** Without ties the entries and the order determine the sequence. */
  lemma {:induction false} Determined<X>(lt: Order, s: seq<Entry<X>>, t: seq<Entry<X>>)
    requires Unique(s) && Unique(t) && Ascending(lt, s) && Ascending(lt, t) && ToMap(s) == ToMap(t)
    requires UntiedKeys(lt, ToMap(s).Keys)
    ensures s == t
    decreases |s|
  {
    OnlyEmpty(s);
    OnlyEmpty(t);
    if s != [] && t != [] {
      LastsAgree(lt, s, t);
      InitMap(s);
      InitMap(t);
      Determined(lt, Init(s), Init(t));
    }
  }

  lemma LastsAgree<X>(lt: Order, s: seq<Entry<X>>, t: seq<Entry<X>>)
    requires s != [] && t != [] && Ascending(lt, s) && Ascending(lt, t) && ToMap(s) == ToMap(t)
    requires UntiedKeys(lt, ToMap(s).Keys)
    ensures Last(s) == Last(t)
  {
    var a, b := Last(s), Last(t);
    assert a.key in ToMap(s) && b.key in ToMap(t);
    assert !Tied(lt, a.key, b.key);
  }

  lemma RemoveAdded<X>(m: map<string, X>, k: string, x: X)
    requires k !in m
    ensures m[k := x] - {k} == m && m.Keys <= m[k := x].Keys
  {
  }

  lemma InitMap<X>(s: seq<Entry<X>>)
    requires s != [] && Unique(s)
    ensures ToMap(Init(s)) == ToMap(s) - {Last(s).key}
    ensures ToMap(Init(s)).Keys <= ToMap(s).Keys
  {
    RemoveAdded(ToMap(Init(s)), Last(s).key, Last(s).value);
  }

  // ---------- Trees ----------

  predicate WellFormed(j: Json) {
    match j
    case Leaf(_) => true
    case List(items) => forall i :: 0 <= i < |items| ==> WellFormed(items[i])
    case Object(entries) => Unique(entries) && forall i :: 0 <= i < |entries| ==> WellFormed(entries[i].value)
  }

  function Meaning(j: Json): Value
    decreases j, 1
  {
    match j
    case Leaf(atom) => Plain(atom)
    case List(items) => Listed(seq(|items|, i requires 0 <= i < |items| => Meaning(items[i])))
    case Object(_) => Mapped(ToMap(EntryMeanings(j)))
  }

  function EntryMeanings(j: Json): (r: seq<Entry<Value>>)
    requires j.Object?
    ensures |r| == |j.entries|
    ensures forall i :: 0 <= i < |r| ==> r[i] == Entry(j.entries[i].key, Meaning(j.entries[i].value))
    decreases j, 0
  {
    seq(|j.entries|, i requires 0 <= i < |j.entries| => Entry(j.entries[i].key, Meaning(j.entries[i].value)))
  }

  /** Every object's entries sorted, at any depth. */
  function SortJson(less: Order, j: Json): Json
    decreases j, 1
  {
    match j
    case Leaf(_) => j
    case List(items) => List(seq(|items|, i requires 0 <= i < |items| => SortJson(less, items[i])))
    case Object(entries) => Object(Arrange(less, SortedEntries(less, j)))
  }

  function SortedEntries(less: Order, j: Json): (r: seq<Entry<Json>>)
    requires j.Object?
    ensures |r| == |j.entries|
    ensures forall i :: 0 <= i < |r| ==> r[i] == Entry(j.entries[i].key, SortJson(less, j.entries[i].value))
    decreases j, 0
  {
    seq(|j.entries|, i requires 0 <= i < |j.entries| => Entry(j.entries[i].key, SortJson(less, j.entries[i].value)))
  }

  /** Two sequences with the same keys: their maps hold the values found at the same places. */
  lemma {:induction false} SameKeys<X, Y>(s: seq<Entry<X>>, t: seq<Entry<Y>>)
    requires |s| == |t| && forall i :: 0 <= i < |s| ==> s[i].key == t[i].key
    ensures ToMap(s).Keys == ToMap(t).Keys && (Unique(s) <==> Unique(t))
    decreases |s|
  {
    if s != [] {
      SameKeys(Init(s), Init(t));
    }
  }

  lemma {:induction false} Place<X>(s: seq<Entry<X>>, k: string) returns (i: nat)
    requires k in ToMap(s)
    ensures i < |s| && s[i].key == k && ToMap(s)[k] == s[i].value
    decreases |s|
  {
    i := |s| - 1;
    if Last(s).key != k {
      i := Place(Init(s), k);
    }
  }

  lemma {:induction false} Lookup<X>(s: seq<Entry<X>>, i: nat)
    requires Unique(s) && i < |s|
    ensures s[i].key in ToMap(s) && ToMap(s)[s[i].key] == s[i].value
    decreases |s|
  {
    if i < |s| - 1 {
      Lookup(Init(s), i);
    }
  }

  lemma MeaningAt(j: Json, k: string)
    requires j.Object? && Unique(j.entries)
    ensures k in ToMap(EntryMeanings(j)) <==> k in ToMap(j.entries)
    ensures k in ToMap(j.entries) ==> ToMap(EntryMeanings(j))[k] == Meaning(ToMap(j.entries)[k])
  {
    SameKeys(EntryMeanings(j), j.entries);
    if k in ToMap(j.entries) {
      var i := Place(j.entries, k);
      Lookup(EntryMeanings(j), i);
    }
  }

  lemma SortedAt(less: Order, j: Json, k: string)
    requires j.Object? && Unique(j.entries)
    ensures Unique(SortedEntries(less, j)) && (k in ToMap(SortedEntries(less, j)) <==> k in ToMap(j.entries))
    ensures k in ToMap(j.entries) ==> ToMap(SortedEntries(less, j))[k] == SortJson(less, ToMap(j.entries)[k])
  {
    SameKeys(SortedEntries(less, j), j.entries);
    if k in ToMap(j.entries) {
      var i := Place(j.entries, k);
      Lookup(SortedEntries(less, j), i);
    }
  }

  /** The entries of a sorted object: the same keys, each with its sorted value. */
  lemma SortedObject(less: Order, j: Json, k: string)
    requires StrictWeak(less) && j.Object? && Unique(j.entries)
    ensures var r := SortJson(less, j).entries;
            && Unique(r) && Ascending(Lex(Placed(), less), r)
            && (k in ToMap(r) <==> k in ToMap(j.entries))
            && (k in ToMap(j.entries) ==> ToMap(r)[k] == SortJson(less, ToMap(j.entries)[k]))
  {
    SortedAt(less, j, k);
    ArrangeAscends(less, SortedEntries(less, j));
  }

  lemma {:induction false} AscendingPair<X>(lt: Order, s: seq<Entry<X>>, i: nat, j: nat)
    requires Unique(s) && Ascending(lt, s) && i < j < |s|
    ensures !lt(s[j].key, s[i].key) && s[i].key != s[j].key
    decreases |s|
  {
    if j < |s| - 1 {
      AscendingPair(lt, Init(s), i, j);
    } else {
      Lookup(Init(s), i);
    }
  }

  /** Array indices come first, by value; other names follow in the order of the comparison. */
  ghost predicate Before(less: Order, a: string, b: string) {
    if Index(b).Some? then Index(a).Some? && Index(a).value < Index(b).value else Index(a).Some? || !less(b, a)
  }

  lemma LexIsBefore(less: Order, a: string, b: string)
    requires !Lex(Placed(), less)(b, a) && a != b
    ensures Before(less, a, b)
  {
    if Index(a).Some? && Index(b).Some? && Index(a) == Index(b) {
      DigitsDiffer(a, b);
    }
  }

  lemma AscendingOrder<X>(less: Order, s: seq<Entry<X>>, a: nat, b: nat)
    requires Unique(s) && Ascending(Lex(Placed(), less), s) && a < b < |s|
    ensures Before(less, s[a].key, s[b].key)
  {
    AscendingPair(Lex(Placed(), less), s, a, b);
    LexIsBefore(less, s[a].key, s[b].key);
  }

  /** The order of the keys of a sorted object. */
  lemma SortedOrder(less: Order, j: Json, a: nat, b: nat)
    requires StrictWeak(less) && j.Object? && Unique(j.entries) && a < b < |SortJson(less, j).entries|
    ensures Before(less, SortJson(less, j).entries[a].key, SortJson(less, j).entries[b].key)
  {
    SortedObject(less, j, "");
    AscendingOrder(less, SortJson(less, j).entries, a, b);
  }

  /** Sorting changes no value. */
  lemma {:induction false} SortKeepsMeaning(less: Order, j: Json)
    requires StrictWeak(less) && WellFormed(j)
    ensures Meaning(SortJson(less, j)) == Meaning(j) && WellFormed(SortJson(less, j))
    decreases j
  {
    match j
    case Leaf(_) =>
    case List(items) =>
      forall i | 0 <= i < |items|
        ensures Meaning(SortJson(less, items[i])) == Meaning(items[i]) && WellFormed(SortJson(less, items[i]))
      {
        SortKeepsMeaning(less, items[i]);
      }
    case Object(entries) =>
      var j' := SortJson(less, j);
      forall i | 0 <= i < |entries|
        ensures Meaning(SortJson(less, entries[i].value)) == Meaning(entries[i].value)
        ensures WellFormed(SortJson(less, entries[i].value))
      {
        SortKeepsMeaning(less, entries[i].value);
      }
      SortedObjectMeans(less, j, j');
      SortedObjectIsWellFormed(less, j);
  }

  lemma SortedMeaningAt(less: Order, j: Json, j': Json, k: string)
    requires StrictWeak(less) && j.Object? && Unique(j.entries) && j' == SortJson(less, j)
    requires k in ToMap(j.entries) ==> Meaning(SortJson(less, ToMap(j.entries)[k])) == Meaning(ToMap(j.entries)[k])
    ensures var m, m' := ToMap(EntryMeanings(j)), ToMap(EntryMeanings(j'));
            (k in m <==> k in m') && (k in m ==> m[k] == m'[k])
  {
    SortedObject(less, j, k);
    MeaningAt(j, k);
    MeaningAt(j', k);
  }

  lemma SortedObjectMeans(less: Order, j: Json, j': Json)
    requires StrictWeak(less) && j.Object? && Unique(j.entries) && j' == SortJson(less, j)
    requires forall i :: 0 <= i < |j.entries| ==> Meaning(SortJson(less, j.entries[i].value)) == Meaning(j.entries[i].value)
    ensures ToMap(EntryMeanings(j')) == ToMap(EntryMeanings(j))
  {
    var m, m' := ToMap(EntryMeanings(j)), ToMap(EntryMeanings(j'));
    forall k ensures (k in m <==> k in m') && (k in m ==> m[k] == m'[k]) {
      if k in ToMap(j.entries) {
        var i := Place(j.entries, k);
      }
      SortedMeaningAt(less, j, j', k);
    }
    SameMap(m, m');
  }

  lemma SortedObjectIsWellFormed(less: Order, j: Json)
    requires StrictWeak(less) && j.Object? && Unique(j.entries)
    requires forall i :: 0 <= i < |j.entries| ==> WellFormed(SortJson(less, j.entries[i].value))
    ensures WellFormed(SortJson(less, j))
  {
    var r := SortJson(less, j).entries;
    SortedObject(less, j, "");
    forall i | 0 <= i < |r| ensures WellFormed(r[i].value) {
      SortedObject(less, j, r[i].key);
      Lookup(r, i);
      var p := Place(j.entries, r[i].key);
    }
  }

  /** No object of the tree has two keys that the comparison and the property order leave tied. */
  ghost predicate Untied(less: Order, j: Json) {
    match j
    case Leaf(_) => true
    case List(items) => forall i :: 0 <= i < |items| ==> Untied(less, items[i])
    case Object(entries) =>
      && UntiedKeys(Lex(Placed(), less), ToMap(entries).Keys)
      && (forall i :: 0 <= i < |entries| ==> Untied(less, entries[i].value))
  }

  /** Trees of the same value, one without ties, are sorted to the same tree. */
  lemma {:induction false} SameMeaningSameTree(less: Order, a: Json, b: Json)
    requires StrictWeak(less) && WellFormed(a) && WellFormed(b) && Untied(less, a) && Meaning(a) == Meaning(b)
    ensures SortJson(less, a) == SortJson(less, b)
    decreases a
  {
    match a
    case Leaf(_) =>
    case List(items) =>
      forall i | 0 <= i < |items| ensures SortJson(less, items[i]) == SortJson(less, b.items[i]) {
        assert Meaning(items[i]) == Meaning(a).items[i] == Meaning(b).items[i] == Meaning(b.items[i]);
        SameMeaningSameTree(less, items[i], b.items[i]);
      }
      assert SortJson(less, a).items == SortJson(less, b).items;
    case Object(entries) =>
      forall k ensures SameAt(less, a, b, k) {
        MeaningAt(a, k);
        MeaningAt(b, k);
        if k in ToMap(entries) {
          var i := Place(entries, k);
          var p := Place(b.entries, k);
          SameMeaningSameTree(less, entries[i].value, b.entries[p].value);
        }
      }
      SameEntriesSameObject(less, a, b);
  }

  ghost predicate SameAt(less: Order, a: Json, b: Json, k: string)
    requires a.Object? && b.Object?
  {
    && (k in ToMap(a.entries) <==> k in ToMap(b.entries))
    && (k in ToMap(a.entries) ==> SortJson(less, ToMap(a.entries)[k]) == SortJson(less, ToMap(b.entries)[k]))
  }

  lemma SameAtSorted(less: Order, a: Json, b: Json, k: string)
    requires StrictWeak(less) && a.Object? && b.Object? && Unique(a.entries) && Unique(b.entries)
    requires SameAt(less, a, b, k)
    ensures var r, t := ToMap(SortJson(less, a).entries), ToMap(SortJson(less, b).entries);
            (k in r <==> k in t) && (k in r ==> k in ToMap(a.entries) && r[k] == t[k])
  {
    SortedObject(less, a, k);
    SortedObject(less, b, k);
  }

  lemma SameEntriesSameObject(less: Order, a: Json, b: Json)
    requires StrictWeak(less) && a.Object? && b.Object? && Unique(a.entries) && Unique(b.entries)
    requires UntiedKeys(Lex(Placed(), less), ToMap(a.entries).Keys)
    requires forall k :: SameAt(less, a, b, k)
    ensures SortJson(less, a) == SortJson(less, b)
  {
    var r, t := SortJson(less, a).entries, SortJson(less, b).entries;
    SortedObject(less, a, "");
    SortedObject(less, b, "");
    forall k ensures (k in ToMap(r) <==> k in ToMap(t)) && (k in ToMap(r) ==> k in ToMap(a.entries) && ToMap(r)[k] == ToMap(t)[k]) {
      SameAtSorted(less, a, b, k);
    }
    SameMap(ToMap(r), ToMap(t));
    UntiedPart(Lex(Placed(), less), ToMap(r).Keys, ToMap(a.entries).Keys);
    Determined(Lex(Placed(), less), r, t);
  }

  lemma SameMap<X>(m: map<string, X>, n: map<string, X>)
    requires forall k :: (k in m <==> k in n) && (k in m ==> m[k] == n[k])
    ensures m == n
  {
  }

  lemma UntiedPart(lt: Order, part: set<string>, keys: set<string>)
    requires UntiedKeys(lt, keys) && forall k :: k in part ==> k in keys
    ensures UntiedKeys(lt, part)
  {
  }

  // ---------- Sorting twice ----------

  function Find<X>(s: seq<Entry<X>>, k: string): (i: nat)
    ensures i <= |s|
    decreases |s|
  {
    if s == [] then 0 else if Last(s).key == k then |s| else Find(Init(s), k)
  }

  /** The order in which a sequence lists its keys. */
  function Listing<X>(s: seq<Entry<X>>): Order {
    (a, b) => Find(s, a) < Find(s, b)
  }

  lemma {:induction false} FindFacts<X>(s: seq<Entry<X>>, a: string, b: string)
    requires a in ToMap(s)
    ensures Find(s, a) > 0 && (Find(s, a) == Find(s, b) ==> a == b)
    decreases |s|
  {
    if Last(s).key != a {
      FindFacts(Init(s), a, b);
    }
  }

  lemma {:induction false} FindAt<X>(s: seq<Entry<X>>, i: nat)
    requires Unique(s) && i < |s|
    ensures Find(s, s[i].key) == i + 1
    decreases |s|
  {
    if i < |s| - 1 {
      Lookup(Init(s), i);
      FindAt(Init(s), i);
    }
  }

  lemma {:induction false} ListingAscends<X>(s: seq<Entry<X>>, n: nat)
    requires Unique(s) && n <= |s|
    ensures Ascending(Listing(s), s[..n])
    decreases n
  {
    if n > 0 {
      var t := s[..n - 1];
      ListingAscends(s, n - 1);
      FindAt(s, n - 1);
      forall k | k in ToMap(t) ensures !Listing(s)(s[n - 1].key, k) {
        var i := Place(t, k);
        FindAt(s, i);
      }
      assert s[..n] == t + [s[n - 1]];
      AppendFacts(Listing(s), t, s[n - 1]);
    }
  }

  lemma {:induction false} ThirdOrder<X>(p: Order, q: Order, third: Order, s: seq<Entry<X>>)
    requires Ascending(Lex(p, q), s) && Ascending(third, s)
    ensures Ascending(Lex(p, Lex(q, third)), s)
    decreases |s|
  {
    if s != [] {
      ThirdOrder(p, q, third, Init(s));
    }
  }

  /** What is in order stays as it is, ties included. */
  lemma ArrangeFixed<X>(less: Order, s: seq<Entry<X>>)
    requires StrictWeak(less) && Unique(s) && Ascending(Lex(Placed(), less), s)
    ensures Arrange(less, s) == s
  {
    var listing := Listing(s);
    var q := Lex(less, listing);
    var t := Sort(less, s);
    assert s[..|s|] == s;
    ListingAscends(s, |s|);
    SortIsStable(less, listing, s);
    SortKeeps(less, s);
    LexIsWeak(less, listing);
    PlacedIsWeak();
    SortIsStable(Placed(), q, t);
    SortKeeps(Placed(), t);
    ThirdOrder(Placed(), less, listing, s);
    ListingUntied(less, s);
    Determined(Lex(Placed(), q), Arrange(less, s), s);
  }

  lemma ListingUntied<X>(less: Order, s: seq<Entry<X>>)
    ensures UntiedKeys(Lex(Placed(), Lex(less, Listing(s))), ToMap(s).Keys)
  {
    forall a, b | a in ToMap(s) && b in ToMap(s) ensures !Tied(Lex(Placed(), Lex(less, Listing(s))), a, b) {
      FindFacts(s, a, b);
    }
  }

  lemma FixedObject(less: Order, j: Json)
    requires StrictWeak(less) && j.Object? && Unique(j.entries) && Ascending(Lex(Placed(), less), j.entries)
    requires forall i :: 0 <= i < |j.entries| ==> SortJson(less, j.entries[i].value) == j.entries[i].value
    ensures SortJson(less, j) == j
  {
    assert SortedEntries(less, j) == j.entries;
    ArrangeFixed(less, j.entries);
  }

  /** Sorting a sorted tree changes nothing, whatever the comparison leaves tied. */
  lemma {:induction false} SortTwice(less: Order, j: Json)
    requires StrictWeak(less) && WellFormed(j)
    ensures SortJson(less, SortJson(less, j)) == SortJson(less, j)
    decreases j
  {
    var j' := SortJson(less, j);
    match j
    case Leaf(_) =>
    case List(items) =>
      forall i | 0 <= i < |items| ensures SortJson(less, j'.items[i]) == j'.items[i] {
        SortTwice(less, items[i]);
      }
      assert SortJson(less, j').items == j'.items;
    case Object(entries) =>
      SortedObject(less, j, "");
      forall i | 0 <= i < |j'.entries| ensures SortJson(less, j'.entries[i].value) == j'.entries[i].value {
        var k := j'.entries[i].key;
        Lookup(j'.entries, i);
        SortedObject(less, j, k);
        var p := Place(entries, k);
        SortTwice(less, entries[p].value);
      }
      FixedObject(less, j');
  }

  // ---------- Canonical form ----------

  ghost predicate IsCanonical(less: Order) {
    forall a, b :: WellFormed(a) && WellFormed(b) && Meaning(a) == Meaning(b) ==> SortJson(less, a) == SortJson(less, b)
  }

  /** No two keys that are not array indices are tied. */
  ghost predicate TotalOnNames(less: Order) {
    forall a, b :: Index(a).None? && Index(b).None? ==> !Tied(less, a, b)
  }

  lemma {:induction false} DigitsPositive(t: string)
    requires IsDecimal(t) && t[0] != '0'
    ensures Digits(t) > 0
    decreases |t|
  {
    assert IsDigit(t[|t| - 1]);
    if |t| > 1 {
      DigitsPositive(Init(t));
    }
  }

  /** Different numerals denote different indices. */
  lemma {:induction false} DigitsDiffer(a: string, b: string)
    requires IsDecimal(a) && IsDecimal(b) && Digits(a) == Digits(b)
    ensures a == b
    decreases |a|
  {
    assert IsDigit(a[|a| - 1]) && IsDigit(b[|b| - 1]);
    if |a| > 1 {
      DigitsPositive(Init(a));
    }
    if |b| > 1 {
      DigitsPositive(Init(b));
    }
    if |a| > 1 && |b| > 1 {
      DigitsDiffer(Init(a), Init(b));
    }
    assert Digits(Init(a)) == Digits(Init(b)) && Last(a) == Last(b);
    assert a == Init(a) + [Last(a)] && b == Init(b) + [Last(b)];
  }

  function Digit(d: nat): char
    requires d < 10
  {
    (d + '0' as int) as char
  }

  /** The decimal numeral of a number. */
  function Numeral(n: nat): string {
    if n < 10 then [Digit(n)] else Numeral(n / 10) + [Digit(n % 10)]
  }

  lemma {:induction false} NumeralIsDecimal(n: nat)
    ensures IsDecimal(Numeral(n)) && Digits(Numeral(n)) == n && (n > 0 ==> Numeral(n)[0] != '0')
  {
    if n >= 10 {
      NumeralIsDecimal(n / 10);
      DigitsSnoc(Numeral(n / 10), Digit(n % 10));
    } else {
      DigitsSnoc("", Digit(n));
      assert "" + [Digit(n)] == [Digit(n)];
    }
  }

  lemma DigitsSnoc(t: string, c: char)
    requires (forall i :: 0 <= i < |t| ==> IsDigit(t[i])) && IsDigit(c)
    ensures (forall i :: 0 <= i < |t + [c]| ==> IsDigit((t + [c])[i])) && Digits(t + [c]) == 10 * Digits(t) + (c as int - '0' as int)
  {
    assert Init(t + [c]) == t;
  }

  /** A key is an array index iff it is the decimal numeral of a number below 2^32 - 1. */
  lemma IndexIff(key: string, n: nat)
    ensures Index(key) == Some(n) <==> key == Numeral(n) && n < 4294967295
  {
    NumeralIsDecimal(n);
    if Index(key) == Some(n) {
      DigitsDiffer(key, Numeral(n));
    }
  }

  /** Keys are tied exactly when neither is an array index and the comparison ties them. */
  lemma TiedIff(less: Order, a: string, b: string)
    ensures Tied(Lex(Placed(), less), a, b) <==> Index(a).None? && Index(b).None? && Tied(less, a, b)
  {
    if Index(a).Some? && Index(b).Some? && Index(a) == Index(b) {
      DigitsDiffer(a, b);
    }
  }

  lemma {:induction false} TotalIsUntied(less: Order, j: Json)
    requires TotalOnNames(less)
    ensures Untied(less, j)
    decreases j
  {
    match j
    case Leaf(_) =>
    case List(items) =>
      forall i | 0 <= i < |items| ensures Untied(less, items[i]) {
        TotalIsUntied(less, items[i]);
      }
    case Object(entries) =>
      forall i | 0 <= i < |entries| ensures Untied(less, entries[i].value) {
        TotalIsUntied(less, entries[i].value);
      }
      forall a, b | a in ToMap(entries).Keys && b in ToMap(entries).Keys ensures !Tied(Lex(Placed(), less), a, b) {
        TiedIff(less, a, b);
      }
  }

  /** Two trees, one without ties, are sorted to the same tree exactly when they mean the same. */
  lemma SameTreeIff(less: Order, a: Json, b: Json)
    requires StrictWeak(less) && WellFormed(a) && WellFormed(b) && Untied(less, a)
    ensures SortJson(less, a) == SortJson(less, b) <==> Meaning(a) == Meaning(b)
  {
    SortKeepsMeaning(less, a);
    SortKeepsMeaning(less, b);
    if Meaning(a) == Meaning(b) {
      SameMeaningSameTree(less, a, b);
    }
  }

  lemma TwoEntries<X>(lt: Order, x: Entry<X>, y: Entry<X>)
    requires Tied(lt, x.key, y.key)
    ensures ToMap([x, y]) == map[x.key := x.value, y.key := y.value]
    ensures Unique([x, y]) && Ascending(lt, [x, y])
  {
    assert [x, y] == [x] + [y] && [] + [x] == [x];
    AppendFacts(lt, [], x);
    AppendFacts(lt, [x], y);
  }

  lemma PairMeans(j: Json, x: Entry<Json>, y: Entry<Json>)
    requires j == Object([x, y]) && x.key != y.key
    ensures Meaning(j) == Mapped(map[x.key := Meaning(x.value), y.key := Meaning(y.value)])
  {
    assert EntryMeanings(j) == [Entry(x.key, Meaning(x.value)), Entry(y.key, Meaning(y.value))];
    TwoEntries(Never(), Entry(x.key, Meaning(x.value)), Entry(y.key, Meaning(y.value)));
  }

  /** An object of two tied keys stays as it is. */
  lemma TiedPair(less: Order, a: string, b: string) returns (j: Json)
    requires StrictWeak(less) && Tied(Lex(Placed(), less), a, b)
    ensures WellFormed(j) && SortJson(less, j) == j && j.Object? && j.entries != [] && j.entries[0].key == a
    ensures Meaning(j) == Mapped(map[a := Plain(Null), b := Plain(Null)])
  {
    var x, y := Entry(a, Leaf(Null)), Entry(b, Leaf(Null));
    j := Object([x, y]);
    TwoEntries(Lex(Placed(), less), x, y);
    FixedObject(less, j);
    PairMeans(j, x, y);
  }

  /** The sorted form is canonical for every value iff the comparison ties no two different names. */
  lemma CanonicalIff(less: Order)
    requires StrictWeak(less)
    ensures IsCanonical(less) <==> TotalOnNames(less)
  {
    if TotalOnNames(less) {
      forall a, b | WellFormed(a) && WellFormed(b) && Meaning(a) == Meaning(b) ensures SortJson(less, a) == SortJson(less, b) {
        TotalIsUntied(less, a);
        SameMeaningSameTree(less, a, b);
      }
    }
    if IsCanonical(less) {
      forall a, b | Index(a).None? && Index(b).None? ensures !Tied(less, a, b) {
        if Tied(less, a, b) {
          var x, y := TiedPairSplits(less, a, b);
        }
      }
    }
  }

  lemma SwappedPair(a: string, b: string, v: Value)
    requires a != b
    ensures map[a := v, b := v] == map[b := v, a := v]
  {
  }

  /** Two tied names give one value two sorted forms. */
  lemma TiedPairSplits(less: Order, a: string, b: string) returns (x: Json, y: Json)
    requires StrictWeak(less) && Index(a).None? && Index(b).None? && Tied(less, a, b)
    ensures WellFormed(x) && WellFormed(y) && Meaning(x) == Meaning(y) && SortJson(less, x) != SortJson(less, y)
  {
    TiedIff(less, a, b);
    TiedIff(less, b, a);
    x := TiedPair(less, a, b);
    y := TiedPair(less, b, a);
    SwappedPair(a, b, Plain(Null));
  }
}