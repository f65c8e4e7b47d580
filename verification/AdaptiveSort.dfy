/** The instrumented sorts of the adaptive sort demo: what they return and what they cost. */
module AdaptiveSort {
  /** The operation counters shared by a run. */
  class Ops {
    var comparisons: nat
    var moves: nat

    constructor ()
      ensures comparisons == 0 && moves == 0
    {
      comparisons, moves := 0, 0;
    }

    method Compare(a: int, b: int) returns (r: int)
      modifies this
      ensures (r > 0 <==> a > b) && (r < 0 <==> a < b)
      ensures comparisons == old(comparisons) + 1 && moves == old(moves)
    {
      comparisons := comparisons + 1;
      r := if a > b then 1 else if a < b then -1 else 0;
    }

    method Move(count: nat)
      modifies this
      ensures moves == old(moves) + count && comparisons == old(comparisons)
    {
      moves := moves + count;
    }
  }

  // ---------- What a sort returns ----------

  ghost predicate Sorted(s: seq<int>) {
    forall i, j :: 0 <= i < j < |s| ==> s[i] <= s[j]
  }

  function Insert(s: seq<int>, key: int): seq<int> {
    if s == [] then [key]
    else if s[|s| - 1] > key then Insert(s[..|s| - 1], key) + s[|s| - 1..]
    else s + [key]
  }

  /** The sorted form of a list. */
  function SortedForm(s: seq<int>): seq<int> {
    if s == [] then [] else Insert(SortedForm(s[..|s| - 1]), s[|s| - 1])
  }

  ghost predicate AtMost(s: seq<int>, bound: int) {
    forall i :: 0 <= i < |s| ==> s[i] <= bound
  }

  lemma SortedSnoc(s: seq<int>, x: int)
    requires Sorted(s) && AtMost(s, x)
    ensures Sorted(s + [x])
  {
  }

  lemma SortedInit(s: seq<int>)
    requires Sorted(s) && s != []
    ensures Sorted(s[..|s| - 1]) && AtMost(s[..|s| - 1], s[|s| - 1])
  {
  }

  lemma {:induction false} InsertSorts(s: seq<int>, key: int)
    requires Sorted(s)
    ensures Sorted(Insert(s, key))
    decreases |s|
  {
    if s != [] {
      var s', last := s[..|s| - 1], s[|s| - 1];
      SortedInit(s);
      if last > key {
        InsertSorts(s', key);
        InsertBelow(s', key, last);
        SortedSnoc(Insert(s', key), last);
        assert s[|s| - 1..] == [last];
      } else {
        assert AtMost(s, key);
        SortedSnoc(s, key);
      }
    }
  }

  lemma {:induction false} InsertPermutes(s: seq<int>, key: int)
    ensures multiset(Insert(s, key)) == multiset(s) + multiset{key} && |Insert(s, key)| == |s| + 1
    decreases |s|
  {
    if s != [] && s[|s| - 1] > key {
      assert s == s[..|s| - 1] + s[|s| - 1..];
      InsertPermutes(s[..|s| - 1], key);
    }
  }

  lemma {:induction false} InsertBelow(s: seq<int>, key: int, bound: int)
    requires key <= bound && AtMost(s, bound)
    ensures AtMost(Insert(s, key), bound)
    decreases |s|
  {
    if s != [] {
      InsertBelow(s[..|s| - 1], key, bound);
    }
  }

  lemma {:induction false} SortedFormSorts(s: seq<int>)
    ensures Sorted(SortedForm(s)) && multiset(SortedForm(s)) == multiset(s) && |SortedForm(s)| == |s|
    decreases |s|
  {
    if s != [] {
      SortedFormSorts(s[..|s| - 1]);
      InsertSorts(SortedForm(s[..|s| - 1]), s[|s| - 1]);
      InsertPermutes(SortedForm(s[..|s| - 1]), s[|s| - 1]);
      assert s == s[..|s| - 1] + [s[|s| - 1]];
    }
  }

  lemma {:induction false} SortedFormLength(s: seq<int>)
    ensures |SortedForm(s)| == |s|
    decreases |s|
  {
    if s != [] {
      SortedFormLength(s[..|s| - 1]);
      InsertPermutes(SortedForm(s[..|s| - 1]), s[|s| - 1]);
    }
  }

  lemma FirstIsLeast(a: seq<int>, x: int)
    requires Sorted(a) && x in multiset(a)
    ensures a[0] <= x
  {
    assert x in a;
  }

  lemma Cancel(m: multiset<int>, m': multiset<int>, x: int)
    requires multiset{x} + m == multiset{x} + m'
    ensures m == m'
  {
    forall y ensures m[y] == m'[y] {
      assert (multiset{x} + m)[y] == (multiset{x} + m')[y];
    }
  }

  lemma HeadAndTail(a: seq<int>)
    requires a != []
    ensures multiset(a) == multiset{a[0]} + multiset(a[1..]) && a[0] in multiset(a)
  {
    assert a == [a[0]] + a[1..];
  }

  lemma SameFirst(a: seq<int>, b: seq<int>)
    requires Sorted(a) && Sorted(b) && multiset(a) == multiset(b) && a != []
    ensures b != [] && a[0] == b[0]
  {
    HeadAndTail(a);
    assert |b| == |multiset(b)| == |multiset(a)| == |a|;
    HeadAndTail(b);
    FirstIsLeast(a, b[0]);
    FirstIsLeast(b, a[0]);
  }

  /** There is only one sorted permutation of a list. */
  lemma {:induction false} SortedIsUnique(a: seq<int>, b: seq<int>)
    requires Sorted(a) && Sorted(b) && multiset(a) == multiset(b)
    ensures a == b
    decreases |a|
  {
    if a == [] {
      if b != [] {
        SameFirst(b, a);
      }
    } else {
      SameFirst(a, b);
      HeadAndTail(a);
      HeadAndTail(b);
      Cancel(multiset(a[1..]), multiset(b[1..]), a[0]);
      SortedIsUnique(a[1..], b[1..]);
      assert a == [a[0]] + a[1..] && b == [b[0]] + b[1..];
    }
  }

  /** A sorted permutation of the input is its sorted form. */
  lemma IsSortedForm(r: seq<int>, values: seq<int>)
    requires Sorted(r) && multiset(r) == multiset(values)
    ensures r == SortedForm(values)
  {
    SortedFormSorts(values);
    SortedIsUnique(r, SortedForm(values));
  }

  // ---------- Insertion sort ----------

  function CountGreater(s: seq<int>, x: int): (n: nat)
    ensures n <= |s|
  {
    if s == [] then 0 else CountGreater(s[..|s| - 1], x) + if s[|s| - 1] > x then 1 else 0
  }

  /** The number of pairs out of order. */
  function Inversions(s: seq<int>): nat {
    if s == [] then 0 else Inversions(s[..|s| - 1]) + CountGreater(s[..|s| - 1], s[|s| - 1])
  }

  /** How many elements after the first are strictly below everything before them. */
  function NewMinima(s: seq<int>): nat {
    if |s| <= 1 then 0
    else NewMinima(s[..|s| - 1]) + if CountGreater(s[..|s| - 1], s[|s| - 1]) == |s| - 1 then 1 else 0
  }

  lemma {:induction false} CountGreaterConcat(a: seq<int>, b: seq<int>, x: int)
    ensures CountGreater(a + b, x) == CountGreater(a, x) + CountGreater(b, x)
    decreases |b|
  {
    if b == [] {
      assert a + b == a;
    } else {
      assert (a + b)[..|a + b| - 1] == a + b[..|b| - 1];
      CountGreaterConcat(a, b[..|b| - 1], x);
    }
  }

  lemma {:induction false} NoneGreater(s: seq<int>, x: int)
    requires AtMost(s, x)
    ensures CountGreater(s, x) == 0
    decreases |s|
  {
    if s != [] {
      NoneGreater(s[..|s| - 1], x);
    }
  }

  lemma {:induction false} CountGreaterInsert(s: seq<int>, key: int, x: int)
    ensures CountGreater(Insert(s, key), x) == CountGreater(s, x) + if key > x then 1 else 0
    decreases |s|
  {
    if s != [] && s[|s| - 1] > key {
      CountGreaterInsert(s[..|s| - 1], key, x);
      CountGreaterConcat(Insert(s[..|s| - 1], key), s[|s| - 1..], x);
      CountGreaterOne(s[|s| - 1..], x);
    } else {
      CountGreaterConcat(s, [key], x);
      CountGreaterOne([key], x);
    }
  }

  lemma CountGreaterOne(s: seq<int>, x: int)
    requires |s| == 1
    ensures CountGreater(s, x) == if s[0] > x then 1 else 0
  {
    assert s[..0] == [];
  }

  /** Counting does not depend on the order. */
  lemma {:induction false} CountGreaterSorted(s: seq<int>, x: int)
    ensures CountGreater(SortedForm(s), x) == CountGreater(s, x)
    decreases |s|
  {
    if s != [] {
      CountGreaterSorted(s[..|s| - 1], x);
      CountGreaterInsert(SortedForm(s[..|s| - 1]), s[|s| - 1], x);
    }
  }

  /** How many elements at the end of s the key has to pass. */
  function Shifts(s: seq<int>, key: int): (n: nat)
    ensures n <= |s|
  {
    if s != [] && s[|s| - 1] > key then 1 + Shifts(s[..|s| - 1], key) else 0
  }

  /** In a sorted list those are all the greater elements. */
  lemma {:induction false} ShiftsCountGreater(s: seq<int>, key: int)
    requires Sorted(s)
    ensures Shifts(s, key) == CountGreater(s, key)
    decreases |s|
  {
    if s != [] {
      SortedInit(s);
      if s[|s| - 1] > key {
        ShiftsCountGreater(s[..|s| - 1], key);
      } else {
        NoneGreater(s, key);
      }
    }
  }

  lemma CutLast(s: seq<int>, j: nat)
    requires j < |s|
    ensures var n := |s| - 1; s[..n][..j] == s[..j] && s[..n][j..] + s[n..] == s[j..]
  {
  }

  lemma Regroup(a: seq<int>, b: seq<int>, c: seq<int>, d: seq<int>)
    ensures (a + b + c) + d == a + b + (c + d)
  {
  }

  /** The key goes right before the elements it passes. */
  lemma {:induction false} InsertShifts(s: seq<int>, key: int)
    ensures var j := |s| - Shifts(s, key);
            Insert(s, key) == s[..j] + [key] + s[j..]
    decreases |s|
  {
    var n := |s| - 1;
    if s != [] && s[n] > key {
      InsertShifts(s[..n], key);
      var j := n - Shifts(s[..n], key);
      CutLast(s, j);
      Regroup(s[..n][..j], [key], s[..n][j..], s[n..]);
    } else {
      assert s[..|s|] == s && s[|s|..] == [];
    }
  }

  lemma {:induction false} ShiftsFound(s: seq<int>, key: int, j: int)
    requires -1 <= j < |s|
    requires forall k :: j < k < |s| ==> s[k] > key
    requires j >= 0 ==> s[j] <= key
    ensures Shifts(s, key) == |s| - 1 - j
    decreases |s|
  {
    if j < |s| - 1 {
      ShiftsFound(s[..|s| - 1], key, j);
    }
  }

  /** A list with a gap opened at j and the key put in it. */
  lemma Opened(pre: seq<int>, key: int, j: nat, s: seq<int>)
    requires j <= |pre| && |s| == |pre| + 1 && s[j] == key
    requires forall k :: 0 <= k < j ==> s[k] == pre[k]
    requires forall k :: j <= k < |pre| ==> s[k + 1] == pre[k]
    ensures s == pre[..j] + [key] + pre[j..]
  {
    assert s[j + 1..] == pre[j..];
    assert s == s[..j] + [s[j]] + s[j + 1..];
  }

  /** The inner loop: moves the elements above the key one place right, down to the first that is not. */
  method ShiftGreater(arr: array<int>, i: nat, key: int, ops: Ops) returns (j: int)
    requires 0 < i < arr.Length
    modifies arr, ops
    ensures j == i - 1 - Shifts(old(arr[..i]), key) && -1 <= j < i
    ensures forall k :: 0 <= k <= j ==> arr[k] == old(arr[k])
    ensures forall k :: j < k < i ==> arr[k + 1] == old(arr[k])
    ensures forall k :: i < k < arr.Length ==> arr[k] == old(arr[k])
    ensures ops.moves == old(ops.moves) + (i - 1 - j)
    ensures ops.comparisons == old(ops.comparisons) + (i - 1 - j) + if j == -1 then 0 else 1
  {
    ghost var pre := arr[..i];
    j := i - 1;
    var stopped := false;
    while j >= 0 && !stopped
      invariant -1 <= j < i
      invariant stopped ==> j >= 0 && pre[j] <= key
      invariant forall k :: 0 <= k <= j ==> arr[k] == pre[k]
      invariant forall k :: j < k < i ==> arr[k + 1] == pre[k]
      invariant forall k :: j < k < i ==> pre[k] > key
      invariant forall k :: i < k < arr.Length ==> arr[k] == old(arr[k])
      invariant ops.moves == old(ops.moves) + (i - 1 - j)
      invariant ops.comparisons == old(ops.comparisons) + (i - 1 - j) + if stopped then 1 else 0
      decreases j, !stopped
    {
      var c := ops.Compare(arr[j], key);
      if c > 0 {
        arr[j + 1] := arr[j];
        ops.Move(1);
        j := j - 1;
      } else {
        stopped := true;
      }
    }
    ShiftsFound(pre, key, j);
  }

  /** One round of the outer loop: takes out the key, moves the greater elements, puts the key in the gap. */
  method InsertInto(arr: array<int>, i: nat, ops: Ops)
    requires 0 < i < arr.Length
    modifies arr, ops
    ensures arr[..i + 1] == Insert(old(arr[..i]), old(arr[i])) && arr[i + 1..] == old(arr[i + 1..])
    ensures var shifts := Shifts(old(arr[..i]), old(arr[i]));
            && ops.moves == old(ops.moves) + shifts + 2
            && ops.comparisons == old(ops.comparisons) + shifts + if shifts == i then 0 else 1
  {
    ghost var pre, rest := arr[..i], arr[i + 1..];
    var key := arr[i];
    ops.Move(1);
    var j := ShiftGreater(arr, i, key, ops);
    arr[j + 1] := key;
    ops.Move(1);
    InsertShifts(pre, key);
    Opened(pre, key, j + 1, arr[..i + 1]);
    forall k | 0 <= k < |rest| ensures arr[i + 1..][k] == rest[k] {
      assert arr[i + 1 + k] == old(arr[i + 1 + k]);
    }
    assert arr[i + 1..] == rest;
  }

  lemma ShiftsAreInversions(pre: seq<int>, key: int)
    ensures Shifts(SortedForm(pre), key) == CountGreater(pre, key)
  {
    SortedFormSorts(pre);
    CountGreaterSorted(pre, key);
    ShiftsCountGreater(SortedForm(pre), key);
  }

  /** What one more element adds to the sorted form and to the two measures of disorder. */
  lemma NextElement(values: seq<int>, i: nat)
    requires 0 < i < |values|
    ensures var pre, next, shifts := values[..i], values[..i + 1], Shifts(SortedForm(values[..i]), values[i]);
            && SortedForm(next) == Insert(SortedForm(pre), values[i])
            && Inversions(next) == Inversions(pre) + shifts
            && NewMinima(next) == NewMinima(pre) + if shifts == i then 1 else 0
  {
    var next := values[..i + 1];
    ShiftsAreInversions(values[..i], values[i]);
    assert |next| == i + 1 && next[..i] == values[..i] && next[i] == values[i];
    MeasuresStep(next);
  }

  lemma MeasuresStep(s: seq<int>)
    requires |s| > 1
    ensures var n := |s| - 1;
            var greater := CountGreater(s[..n], s[n]);
            && SortedForm(s) == Insert(SortedForm(s[..n]), s[n])
            && Inversions(s) == Inversions(s[..n]) + greater
            && NewMinima(s) == NewMinima(s[..n]) + if greater == n then 1 else 0
  {
  }

  /** Exact cost: each inversion is one move and one comparison; each later element costs two moves, and
      one more comparison unless it is a new minimum. */
  method InsertionSort(values: seq<int>, ops: Ops) returns (r: seq<int>)
    modifies ops
    ensures r == SortedForm(values)
    ensures values != [] ==> ops.moves == old(ops.moves) + Inversions(values) + 2 * (|values| - 1)
    ensures values != [] ==> ops.comparisons == old(ops.comparisons) + Inversions(values) + (|values| - 1) - NewMinima(values)
    ensures values == [] ==> ops.moves == old(ops.moves) && ops.comparisons == old(ops.comparisons)
  {
    if values == [] {
      return [];
    }
    var arr := new int[|values|](k requires 0 <= k < |values| => values[k]);
    assert arr[..] == values && arr[1..] == values[1..];
    assert values[..1][..0] == [] && arr[..1] == values[..1] == Insert([], values[0]);
    for i := 1 to arr.Length
      invariant arr[..i] == SortedForm(values[..i]) && arr[i..] == values[i..]
      invariant ops.moves == old(ops.moves) + Inversions(values[..i]) + 2 * (i - 1)
      invariant ops.comparisons == old(ops.comparisons) + Inversions(values[..i]) + (i - 1) - NewMinima(values[..i])
    {
      assert arr[i..][0] == values[i..][0] && arr[i + 1..] == arr[i..][1..] == values[i + 1..];
      NextElement(values, i);
      InsertInto(arr, i, ops);
    }
    assert arr[..arr.Length] == arr[..] && values[..arr.Length] == values;
    r := arr[..];
  }

  /** The bounds a caller sees. */
  lemma {:induction false} InsertionCostBounds(values: seq<int>)
    requires values != []
    ensures NewMinima(values) <= |values| - 1
    ensures 2 * Inversions(values) <= |values| * (|values| - 1)
    decreases |values|
  {
    var n := |values| - 1;
    if n > 0 {
      InsertionCostBounds(values[..n]);
      assert 2 * Inversions(values[..n]) <= n * (n - 1) && n * (n - 1) + 2 * n == (n + 1) * n;
    } else {
      assert values[..0] == [];
    }
  }

  lemma {:induction false} SortedHasNoInversions(values: seq<int>)
    requires Sorted(values)
    ensures Inversions(values) == 0
    decreases |values|
  {
    if values != [] {
      SortedInit(values);
      SortedHasNoInversions(values[..|values| - 1]);
      NoneGreater(values[..|values| - 1], values[|values| - 1]);
    }
  }

  // ---------- Merge sort ----------

  function Merge(l: seq<int>, r: seq<int>): seq<int>
    decreases |l| + |r|
  {
    if l == [] then r
    else if r == [] then l
    else if l[0] <= r[0] then l[..1] + Merge(l[1..], r)
    else r[..1] + Merge(l, r[1..])
  }

  ghost predicate AtLeast(s: seq<int>, bound: int) {
    forall i :: 0 <= i < |s| ==> bound <= s[i]
  }

  lemma SortedCons(x: int, s: seq<int>)
    requires Sorted(s) && AtLeast(s, x)
    ensures Sorted([x] + s)
  {
  }

  lemma SortedTail(s: seq<int>)
    requires Sorted(s) && s != []
    ensures Sorted(s[1..]) && AtLeast(s[1..], s[0])
  {
  }

  lemma {:induction false} MergeAtLeast(l: seq<int>, r: seq<int>, bound: int)
    requires AtLeast(l, bound) && AtLeast(r, bound)
    ensures AtLeast(Merge(l, r), bound)
    decreases |l| + |r|
  {
    if l != [] && r != [] {
      if l[0] <= r[0] {
        MergeAtLeast(l[1..], r, bound);
      } else {
        MergeAtLeast(l, r[1..], bound);
      }
    }
  }

  lemma {:induction false} MergeSorts(l: seq<int>, r: seq<int>)
    requires Sorted(l) && Sorted(r)
    ensures Sorted(Merge(l, r))
    decreases |l| + |r|
  {
    if l != [] && r != [] {
      SortedTail(l);
      SortedTail(r);
      if l[0] <= r[0] {
        MergeSorts(l[1..], r);
        assert AtLeast(r, l[0]) by { assert r == [r[0]] + r[1..]; }
        MergeAtLeast(l[1..], r, l[0]);
        SortedCons(l[0], Merge(l[1..], r));
        assert l[..1] == [l[0]];
      } else {
        MergeSorts(l, r[1..]);
        assert AtLeast(l, r[0]) by { assert l == [l[0]] + l[1..]; }
        MergeAtLeast(l, r[1..], r[0]);
        SortedCons(r[0], Merge(l, r[1..]));
        assert r[..1] == [r[0]];
      }
    }
  }

  lemma {:induction false} MergePermutes(l: seq<int>, r: seq<int>)
    ensures multiset(Merge(l, r)) == multiset(l) + multiset(r)
    decreases |l| + |r|
  {
    if l != [] && r != [] {
      if l[0] <= r[0] {
        MergePermutes(l[1..], r);
        assert l == l[..1] + l[1..];
      } else {
        MergePermutes(l, r[1..]);
        assert r == r[..1] + r[1..];
      }
    }
  }

  lemma MergeOfSortedForms(a: seq<int>, b: seq<int>)
    ensures Merge(SortedForm(a), SortedForm(b)) == SortedForm(a + b)
    ensures |SortedForm(a)| == |a| && |SortedForm(b)| == |b|
  {
    SortedFormSorts(a);
    SortedFormSorts(b);
    MergeSorts(SortedForm(a), SortedForm(b));
    MergePermutes(SortedForm(a), SortedForm(b));
    IsSortedForm(Merge(SortedForm(a), SortedForm(b)), a + b);
  }

  function Half(n: nat): (h: nat)
    ensures n > 1 ==> 0 < h < n
  {
    n / 2
  }

  /** The moves of a merge sort, which depend on the length alone. */
  function MergeMoves(n: nat): nat {
    if n <= 1 then 0 else MergeMoves(Half(n)) + MergeMoves(n - Half(n)) + n
  }

  /** Exactly MergeMoves(n) moves, and n - 1 comparisons fewer at most. */
  method MergeSort(values: seq<int>, ops: Ops) returns (out: seq<int>)
    modifies ops
    ensures out == SortedForm(values)
    ensures ops.moves == old(ops.moves) + MergeMoves(|values|)
    ensures old(ops.comparisons) <= ops.comparisons
    ensures values != [] ==> ops.comparisons + (|values| - 1) <= old(ops.comparisons) + MergeMoves(|values|)
    ensures values == [] ==> ops.comparisons == old(ops.comparisons)
    decreases |values|
  {
    if |values| <= 1 {
      ShortIsSorted(values);
      return values;
    }
    var mid := Half(|values|);
    MergeHalves(values, mid);
    ghost var c0 := ops.comparisons;
    var left := MergeSort(values[..mid], ops);
    ghost var c1 := ops.comparisons;
    var right := MergeSort(values[mid..], ops);
    ghost var c2 := ops.comparisons;
    out := MergeLists(left, right, ops);
    ComparisonsAdd(mid, |values| - mid, MergeMoves(mid), MergeMoves(|values| - mid), c0, c1, c2, ops.comparisons);
  }

  lemma ShortIsSorted(values: seq<int>)
    requires |values| <= 1
    ensures values == SortedForm(values)
  {
    if |values| == 1 {
      assert values[..0] == [] && values == [values[0]] == Insert([], values[0]);
    }
  }

  lemma MergeHalves(values: seq<int>, mid: nat)
    requires 0 < mid < |values|
    ensures Merge(SortedForm(values[..mid]), SortedForm(values[mid..])) == SortedForm(values)
    ensures |values[..mid]| == |SortedForm(values[..mid])| == mid && |values[mid..]| == |SortedForm(values[mid..])| == |values| - mid
  {
    MergeOfSortedForms(values[..mid], values[mid..]);
    SortedFormLength(values[..mid]);
    SortedFormLength(values[mid..]);
    assert values[..mid] + values[mid..] == values;
  }

  /** Each of the three steps of a merge sort saves comparisons on its moves. */
  lemma ComparisonsAdd(a: int, b: int, ma: int, mb: int, c0: int, c1: int, c2: int, c3: int)
    requires c1 + (a - 1) <= c0 + ma && c2 + (b - 1) <= c1 + mb && c3 < c2 + a + b
    ensures c3 + (a + b - 1) <= c0 + ma + mb + (a + b)
  {
  }

  /** One comparison and one move per element taken before a side runs out; then moves only. */
  method MergeLists(left: seq<int>, right: seq<int>, ops: Ops) returns (out: seq<int>)
    requires left != [] && right != []
    modifies ops
    ensures out == Merge(left, right)
    ensures ops.moves == old(ops.moves) + |left| + |right|
    ensures old(ops.comparisons) < ops.comparisons < old(ops.comparisons) + |left| + |right|
  {
    out := [];
    var i, j := 0, 0;
    while i < |left| && j < |right|
      invariant 0 <= i <= |left| && 0 <= j <= |right| && (i < |left| || j < |right|)
      invariant out + Merge(left[i..], right[j..]) == Merge(left, right)
      invariant ops.moves == old(ops.moves) + i + j && ops.comparisons == old(ops.comparisons) + i + j
    {
      var c := ops.Compare(left[i], right[j]);
      ghost var rest := Merge(left[i..], right[j..]);
      if c <= 0 {
        assert left[i..][1..] == left[i + 1..] && left[i..][..1] == [left[i]];
        assert out + rest == (out + [left[i]]) + Merge(left[i + 1..], right[j..]);
        out := out + [left[i]];
        i := i + 1;
      } else {
        assert right[j..][1..] == right[j + 1..] && right[j..][..1] == [right[j]];
        assert out + rest == (out + [right[j]]) + Merge(left[i..], right[j + 1..]);
        out := out + [right[j]];
        j := j + 1;
      }
      ops.Move(1);
    }
    if i < |left| {
      out := out + left[i..];
      ops.Move(|left| - i);
    }
    if j < |right| {
      out := out + right[j..];
      ops.Move(|right| - j);
    }
  }

  function CeilLog2(n: nat): nat {
    if n <= 1 then 0 else 1 + CeilLog2((n + 1) / 2)
  }

  function Pow2(k: nat): nat {
    if k == 0 then 1 else 2 * Pow2(k - 1)
  }

  /** CeilLog2(n) is the least k with n <= 2^k. */
  lemma {:induction false} CeilLog2Meaning(n: nat)
    ensures n <= Pow2(CeilLog2(n))
    ensures n > 1 ==> Pow2(CeilLog2(n) - 1) < n
  {
    if n > 1 {
      var h := (n + 1) / 2;
      CeilLog2Meaning(h);
      if h > 1 {
        assert Pow2(CeilLog2(n) - 1) == 2 * Pow2(CeilLog2(h) - 1);
      }
    }
  }

  lemma {:induction false} CeilLog2Monotone(m: nat, n: nat)
    requires m <= n
    ensures CeilLog2(m) <= CeilLog2(n)
  {
    if m > 1 {
      CeilLog2Monotone((m + 1) / 2, (n + 1) / 2);
    }
  }

  lemma BoundSum(a: nat, b: nat, x: nat, y: nat, k: nat)
    requires x <= k && y <= k
    ensures a * x + b * y + (a + b) <= (a + b) * (1 + k)
  {
    assert a * x <= a * k && b * y <= b * k;
    assert a * k + b * k == (a + b) * k;
  }

  /** M(n) <= n * ceil(log2 n). */
  lemma {:induction false} MergeMovesBound(n: nat)
    ensures MergeMoves(n) <= n * CeilLog2(n)
  {
    if n > 1 {
      var a, b := Half(n), n - Half(n);
      assert b == (n + 1) / 2;
      var k := CeilLog2(b);
      MergeMovesBound(a);
      MergeMovesBound(b);
      CeilLog2Monotone(a, b);
      BoundSum(a, b, CeilLog2(a), k, k);
      assert a + b == n && CeilLog2(n) == 1 + k;
    }
  }

  // ---------- Counting sort ----------

  function Occurrences(s: seq<int>, x: int): nat {
    if s == [] then 0 else Occurrences(s[..|s| - 1], x) + if s[|s| - 1] == x then 1 else 0
  }

  lemma {:induction false} OccurrencesAreMultiplicities(s: seq<int>, x: int)
    ensures Occurrences(s, x) == multiset(s)[x]
    decreases |s|
  {
    if s != [] {
      assert s == s[..|s| - 1] + [s[|s| - 1]];
      OccurrencesAreMultiplicities(s[..|s| - 1], x);
    }
  }

  function Span(minValue: int, maxValue: int): nat {
    if maxValue < minValue then 0 else maxValue - minValue + 1
  }

  function Repeat(x: int, n: nat): (s: seq<int>)
    ensures |s| == n && forall i :: 0 <= i < n ==> s[i] == x
  {
    seq(n, _ => x)
  }

  /** The values below `bound`, in order, as often as they occur. */
  function Spread(values: seq<int>, minValue: int, bound: int): seq<int>
    decreases bound - minValue
  {
    if bound <= minValue then []
    else Spread(values, minValue, bound - 1) + Repeat(bound - 1, Occurrences(values, bound - 1))
  }

  lemma SortedAppendRepeat(s: seq<int>, x: int, n: nat)
    requires Sorted(s) && AtMost(s, x)
    ensures Sorted(s + Repeat(x, n)) && AtMost(s + Repeat(x, n), x)
  {
  }

  lemma {:induction false} SpreadSorted(values: seq<int>, minValue: int, bound: int)
    ensures Sorted(Spread(values, minValue, bound)) && AtMost(Spread(values, minValue, bound), bound - 1)
    decreases bound - minValue
  {
    if bound > minValue {
      SpreadSorted(values, minValue, bound - 1);
      assert AtMost(Spread(values, minValue, bound - 1), bound - 1);
      SortedAppendRepeat(Spread(values, minValue, bound - 1), bound - 1, Occurrences(values, bound - 1));
    }
  }

  lemma {:induction false} RepeatCounts(x: int, n: nat, y: int)
    ensures multiset(Repeat(x, n))[y] == if x == y then n else 0
  {
    if n == 0 {
      assert Repeat(x, 0) == [];
    } else {
      RepeatCounts(x, n - 1, y);
      assert Repeat(x, n) == Repeat(x, n - 1) + [x];
    }
  }

  lemma ConcatCounts(a: seq<int>, b: seq<int>, x: int)
    ensures multiset(a + b)[x] == multiset(a)[x] + multiset(b)[x]
  {
  }

  lemma {:induction false} SpreadCounts(values: seq<int>, minValue: int, bound: int, x: int)
    ensures multiset(Spread(values, minValue, bound))[x] == if minValue <= x < bound then Occurrences(values, x) else 0
    decreases bound - minValue
  {
    if bound > minValue {
      SpreadCounts(values, minValue, bound - 1, x);
      RepeatCounts(bound - 1, Occurrences(values, bound - 1), x);
      ConcatCounts(Spread(values, minValue, bound - 1), Repeat(bound - 1, Occurrences(values, bound - 1)), x);
    }
  }

  lemma SpreadIsSortedForm(values: seq<int>, minValue: int, maxValue: int)
    requires forall i :: 0 <= i < |values| ==> minValue <= values[i] <= maxValue
    ensures Spread(values, minValue, maxValue + 1) == SortedForm(values)
  {
    var r := Spread(values, minValue, maxValue + 1);
    SpreadSorted(values, minValue, maxValue + 1);
    forall x ensures multiset(r)[x] == multiset(values)[x] {
      SpreadCounts(values, minValue, maxValue + 1, x);
      OccurrencesAreMultiplicities(values, x);
      if !(minValue <= x <= maxValue) {
        assert x !in values;
      }
    }
    IsSortedForm(r, values);
  }

  lemma OccurrencesNext(values: seq<int>, i: nat, x: int)
    requires i < |values|
    ensures Occurrences(values[..i + 1], x) == Occurrences(values[..i], x) + if values[i] == x then 1 else 0
  {
    assert values[..i + 1][..i] == values[..i];
  }

  /** How often each value of the range occurs, at one move a value. */
  method CountValues(values: seq<int>, minValue: int, counts: array<nat>, ops: Ops)
    requires forall i :: 0 <= i < |values| ==> 0 <= values[i] - minValue < counts.Length
    requires forall k :: 0 <= k < counts.Length ==> counts[k] == 0
    modifies counts, ops
    ensures forall k :: 0 <= k < counts.Length ==> counts[k] == Occurrences(values, k + minValue)
    ensures ops.moves == old(ops.moves) + |values| && ops.comparisons == old(ops.comparisons)
  {
    for i := 0 to |values|
      invariant forall k :: 0 <= k < counts.Length ==> counts[k] == Occurrences(values[..i], k + minValue)
      invariant ops.moves == old(ops.moves) + i && ops.comparisons == old(ops.comparisons)
    {
      forall k | 0 <= k < counts.Length
        ensures Occurrences(values[..i + 1], k + minValue) == counts[k] + if k == values[i] - minValue then 1 else 0
      {
        OccurrencesNext(values, i, k + minValue);
      }
      counts[values[i] - minValue] := counts[values[i] - minValue] + 1;
      ops.Move(1);
    }
    assert values[..|values|] == values;
  }

  /** Exactly span + 2n moves and no comparisons. */
  method CountingSort(values: seq<int>, minValue: int, maxValue: int, ops: Ops) returns (out: seq<int>)
    requires forall i :: 0 <= i < |values| ==> minValue <= values[i] <= maxValue
    modifies ops
    ensures out == SortedForm(values)
    ensures ops.moves == old(ops.moves) + Span(minValue, maxValue) + 2 * |values|
    ensures ops.comparisons == old(ops.comparisons)
  {
    var counts := new nat[Span(minValue, maxValue)](_ => 0);
    ops.Move(counts.Length);
    CountValues(values, minValue, counts, ops);
    out := [];
    for index := 0 to counts.Length
      invariant forall k :: 0 <= k < counts.Length ==> counts[k] == Occurrences(values, k + minValue)
      invariant out == Spread(values, minValue, minValue + index)
      invariant ops.moves == old(ops.moves) + counts.Length + |values| + |out| && ops.comparisons == old(ops.comparisons)
    {
      SpreadNext(values, minValue, index);
      if counts[index] != 0 {
        out := out + Repeat(index + minValue, counts[index]);
        ops.Move(counts[index]);
      }
    }
    SpreadAll(values, minValue, maxValue);
  }

  lemma SpreadNext(values: seq<int>, minValue: int, index: nat)
    ensures var n := Occurrences(values, minValue + index);
            && Spread(values, minValue, minValue + index + 1) == Spread(values, minValue, minValue + index) + Repeat(minValue + index, n)
            && (n == 0 ==> Spread(values, minValue, minValue + index + 1) == Spread(values, minValue, minValue + index))
  {
  }

  lemma SpreadAll(values: seq<int>, minValue: int, maxValue: int)
    requires forall i :: 0 <= i < |values| ==> minValue <= values[i] <= maxValue
    ensures Spread(values, minValue, minValue + Span(minValue, maxValue)) == SortedForm(values)
    ensures |SortedForm(values)| == |values|
  {
    SortedFormLength(values);
    if values == [] {
      EmptySpread(minValue, minValue + Span(minValue, maxValue));
    } else {
      assert minValue <= values[0] <= maxValue;
      SpreadIsSortedForm(values, minValue, maxValue);
    }
  }

  lemma {:induction false} EmptySpread(minValue: int, bound: int)
    ensures Spread([], minValue, bound) == []
    decreases bound - minValue
  {
    if bound > minValue {
      EmptySpread(minValue, bound - 1);
    }
  }

  // ---------- Run detection and the hybrid ----------

  ghost predicate NonDecreasing(values: seq<int>, lo: int, hi: int) {
    0 <= lo <= hi <= |values| && forall k :: lo < k < hi ==> values[k - 1] <= values[k]
  }

  /** Every run within the first idx values is at most `best` long or starts at `start` or later. */
  ghost predicate Covered(values: seq<int>, idx: int, best: int, start: int) {
    forall lo, hi :: NonDecreasing(values, lo, hi) && hi <= idx ==> hi - lo <= best || start <= lo
  }

  lemma RunRises(values: seq<int>, lo: int, hi: int, k: int)
    requires NonDecreasing(values, lo, hi)
    ensures lo < k < hi ==> values[k - 1] <= values[k]
  {
  }

  lemma RunGoesOn(values: seq<int>, idx: int, best: int, start: int)
    requires 0 < idx < |values| && Covered(values, idx, best, start)
    requires 0 <= start < idx && (start > 0 ==> values[start - 1] > values[start])
    ensures Covered(values, idx + 1, best, start)
  {
    forall lo, hi | NonDecreasing(values, lo, hi) && hi <= idx + 1 ensures hi - lo <= best || start <= lo {
      RunRises(values, lo, hi, start);
    }
  }

  lemma RunBreaks(values: seq<int>, idx: int, best: int, best': int, start: int)
    requires 0 < idx < |values| && Covered(values, idx, best, start) && values[idx - 1] > values[idx]
    requires best <= best' && 1 <= best' && idx - start <= best'
    ensures Covered(values, idx + 1, best', idx)
  {
    forall lo, hi | NonDecreasing(values, lo, hi) && hi <= idx + 1 ensures hi - lo <= best' || idx <= lo {
      RunRises(values, lo, hi, idx);
    }
  }

  /** After idx values: the run that ends there has `current` elements, and `best` is a longest of the others. */
  ghost predicate RunState(values: seq<int>, idx: int, current: int, start: int, best: int) {
    && 1 <= current <= idx <= |values| && NonDecreasing(values, idx - current, idx)
    && (idx - current > 0 ==> values[idx - current - 1] > values[idx - current])
    && best >= 1 && NonDecreasing(values, start, start + best) && Covered(values, idx, best, idx - current)
  }

  lemma RunStateNext(values: seq<int>, idx: int, current: int, start: int, best: int)
    requires RunState(values, idx, current, start, best) && idx < |values|
    ensures if values[idx - 1] <= values[idx] then RunState(values, idx + 1, current + 1, start, best)
            else if best < current then RunState(values, idx + 1, 1, idx - current, current)
            else RunState(values, idx + 1, 1, start, best)
  {
    if values[idx - 1] <= values[idx] {
      RunGoesOn(values, idx, best, idx - current);
    } else {
      RunBreaks(values, idx, best, if best < current then current else best, idx - current);
    }
  }

  lemma RunStateEnd(values: seq<int>, current: int, start: int, best: int)
    requires RunState(values, |values|, current, start, best)
    ensures var longest := if best < current then current else best;
            && (exists lo, hi :: NonDecreasing(values, lo, hi) && hi - lo == longest)
            && (forall lo, hi :: NonDecreasing(values, lo, hi) ==> hi - lo <= longest)
  {
    if best < current {
      assert NonDecreasing(values, |values| - current, |values|);
    } else {
      assert NonDecreasing(values, start, start + best);
    }
  }

  /** The length of a longest stretch that never decreases. */
  method LongestNonDecreasingRun(values: seq<int>) returns (best: nat)
    ensures exists lo, hi :: NonDecreasing(values, lo, hi) && hi - lo == best
    ensures forall lo, hi :: NonDecreasing(values, lo, hi) ==> hi - lo <= best
  {
    if values == [] {
      assert NonDecreasing(values, 0, 0);
      return 0;
    }
    best := 1;
    var current := 1;
    ghost var start := 0;
    for idx := 1 to |values|
      invariant RunState(values, idx, current, start, best)
    {
      RunStateNext(values, idx, current, start, best);
      if values[idx - 1] <= values[idx] {
        current := current + 1;
      } else {
        if best < current {
          best, start := current, idx - current;
        }
        current := 1;
      }
    }
    RunStateEnd(values, current, start, best);
    if best < current {
      best := current;
    }
  }

  datatype Config = Config(insertionThreshold: int, runDetectionMin: int, countingSpanLimit: int)

  function Least(values: seq<int>): (m: int)
    requires values != []
    ensures m in values && forall i :: 0 <= i < |values| ==> m <= values[i]
  {
    if |values| == 1 then values[0]
    else
      var m := Least(values[..|values| - 1]);
      if values[|values| - 1] < m then values[|values| - 1] else m
  }

  function Greatest(values: seq<int>): (m: int)
    requires values != []
    ensures m in values && forall i :: 0 <= i < |values| ==> values[i] <= m
  {
    if |values| == 1 then values[0]
    else
      var m := Greatest(values[..|values| - 1]);
      if values[|values| - 1] > m then values[|values| - 1] else m
  }

  /** The inputs the hybrid hands to counting sort. */
  predicate Counts(values: seq<int>, config: Config) {
    |values| > config.insertionThreshold && values != [] && Greatest(values) - Least(values) <= config.countingSpanLimit
  }

  ghost predicate HasRun(values: seq<int>, n: int) {
    exists lo, hi :: NonDecreasing(values, lo, hi) && hi - lo >= n
  }

  /** For every configuration the hybrid returns the sorted form, at the cost of the branch it takes. */
  method HybridSort(values: seq<int>, config: Config, ops: Ops) returns (r: seq<int>)
    modifies ops
    ensures r == SortedForm(values)
    ensures Counts(values, config) ==>
              && ops.comparisons == old(ops.comparisons)
              && ops.moves <= old(ops.moves) + config.countingSpanLimit + 1 + 2 * |values|
    ensures values != [] && !Counts(values, config) ==>
              if |values| <= config.insertionThreshold || HasRun(values, config.runDetectionMin) then
                && ops.moves == old(ops.moves) + Inversions(values) + 2 * (|values| - 1)
                && ops.comparisons == old(ops.comparisons) + Inversions(values) + (|values| - 1) - NewMinima(values)
              else
                && ops.moves == old(ops.moves) + MergeMoves(|values|)
                && ops.comparisons + (|values| - 1) <= old(ops.comparisons) + MergeMoves(|values|)
  {
    if |values| <= config.insertionThreshold {
      r := InsertionSort(values, ops);
      return;
    }
    if values != [] {
      var minValue, maxValue := Least(values), Greatest(values);
      if maxValue - minValue <= config.countingSpanLimit {
        assert minValue <= values[0] <= maxValue;
        r := CountingSort(values, minValue, maxValue, ops);
        return;
      }
    }
    var run := LongestNonDecreasingRun(values);
    if run >= config.runDetectionMin {
      r := InsertionSort(values, ops);
      return;
    }
    r := MergeSort(values, ops);
  }

  /** The baseline returns the same list as the hybrid, for every input and configuration. */
  method BaselineSort(values: seq<int>, ops: Ops) returns (r: seq<int>)
    modifies ops
    ensures r == SortedForm(values)
    ensures ops.moves == old(ops.moves) + MergeMoves(|values|)
  {
    r := MergeSort(values, ops);
  }
}
