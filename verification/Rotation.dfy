/** The order in which authentication slots are tried, and the loop that rotates through them. */
module Rotation {
  import opened Prelude
  import ResumeArgs

  /** Slot names are not empty: src/auth/paths.ts:18-33 refuses others. */
  type Slot = string

  datatype Mode = Manual | Priority | RoundRobin

  datatype Config = Config(rotation: Mode, priority: seq<Slot>)

  datatype Plan = Plan(mode: Mode, order: seq<Slot>)

  // ---------- The plan ----------

  function Insert(less: (Slot, Slot) -> bool, s: seq<Slot>, x: Slot): seq<Slot> {
    if s != [] && less(x, s[|s| - 1]) then Insert(less, s[..|s| - 1], x) + [s[|s| - 1]] else s + [x]
  }

  function Sort(less: (Slot, Slot) -> bool, s: seq<Slot>): seq<Slot> {
    if s == [] then [] else Insert(less, Sort(less, s[..|s| - 1]), s[|s| - 1])
  }

  function IndexOf(s: seq<Slot>, x: Slot): (i: nat)
    ensures i <= |s| && (i < |s| <==> x in s) && (i < |s| ==> s[i] == x)
    ensures forall j :: 0 <= j < i ==> s[j] != x
  {
    if s == [] || s[0] == x then 0 else 1 + IndexOf(s[1..], x)
  }

  /** The available slots, those of a priority list first. */
  function Merged(available: seq<Slot>, wanted: seq<Slot>): seq<Slot> {
    var priority := Filter(In(available), wanted);
    priority + Filter(NotIn(priority), available)
  }

  function In(s: seq<Slot>): Slot -> bool {
    (x: Slot) => x in s
  }

  function NotIn(s: seq<Slot>): Slot -> bool {
    (x: Slot) => x !in s
  }

  function BuildPlan(less: (Slot, Slot) -> bool, slots: seq<Slot>, config: Config, current: Option<Slot>): Plan {
    var available := Sort(less, slots);
    var named := current.Some? && current.value != "";
    match config.rotation
    case Manual => Plan(Manual, if named then [current.value] else if available == [] then [] else available[..1])
    case Priority =>
      Plan(Priority, Merged(available, config.priority))
    case RoundRobin =>
      if !named || current.value !in available then Plan(RoundRobin, available)
      else
        var i := IndexOf(available, current.value);
        Plan(RoundRobin, Turn(available, i))
  }

  lemma {:induction false} InsertPermutes(less: (Slot, Slot) -> bool, s: seq<Slot>, x: Slot)
    ensures multiset(Insert(less, s, x)) == multiset(s) + multiset{x}
    decreases |s|
  {
    if s != [] && less(x, s[|s| - 1]) {
      assert s == s[..|s| - 1] + [s[|s| - 1]];
      InsertPermutes(less, s[..|s| - 1], x);
    }
  }

  lemma {:induction false} SortPermutes(less: (Slot, Slot) -> bool, s: seq<Slot>)
    ensures multiset(Sort(less, s)) == multiset(s)
    decreases |s|
  {
    if s != [] {
      assert s == s[..|s| - 1] + [s[|s| - 1]];
      SortPermutes(less, s[..|s| - 1]);
      InsertPermutes(less, Sort(less, s[..|s| - 1]), s[|s| - 1]);
    }
  }

  lemma SortKeeps(less: (Slot, Slot) -> bool, s: seq<Slot>, x: Slot)
    ensures x in Sort(less, s) <==> x in s
  {
    SortPermutes(less, s);
    assert x in Sort(less, s) <==> x in multiset(Sort(less, s));
    assert x in s <==> x in multiset(s);
  }

  ghost predicate Ascending(less: (Slot, Slot) -> bool, s: seq<Slot>) {
    forall i :: 0 < i < |s| ==> !less(s[i], s[i - 1])
  }

  lemma {:induction false} InsertSorts(less: (Slot, Slot) -> bool, s: seq<Slot>, x: Slot)
    requires StrictTotal(less) && Ascending(less, s)
    ensures Ascending(less, Insert(less, s, x))
    ensures Insert(less, s, x)[|Insert(less, s, x)| - 1] == if s != [] && less(x, s[|s| - 1]) then s[|s| - 1] else x
    decreases |s|
  {
    if s != [] && less(x, s[|s| - 1]) {
      InsertSorts(less, s[..|s| - 1], x);
    }
  }

  lemma {:induction false} SortSorts(less: (Slot, Slot) -> bool, s: seq<Slot>)
    requires StrictTotal(less)
    ensures Ascending(less, Sort(less, s))
    decreases |s|
  {
    if s != [] {
      SortSorts(less, s[..|s| - 1]);
      InsertSorts(less, Sort(less, s[..|s| - 1]), s[|s| - 1]);
    }
  }

  lemma {:induction false} AscendingFirst(less: (Slot, Slot) -> bool, s: seq<Slot>, x: Slot)
    requires StrictTotal(less) && Ascending(less, s) && x in s
    ensures !less(x, s[0])
    decreases |s|
  {
    var n := |s| - 1;
    if n > 0 {
      AscendingFirst(less, s[..n], s[n - 1]);
      if x in s[..n] {
        AscendingFirst(less, s[..n], x);
      } else {
        assert !less(s[n], s[n - 1]);
      }
    }
  }

  lemma AscendingTail(less: (Slot, Slot) -> bool, s: seq<Slot>)
    requires Ascending(less, s) && s != []
    ensures Ascending(less, s[1..])
  {
  }

  lemma AscendingCons(less: (Slot, Slot) -> bool, x: Slot, s: seq<Slot>)
    requires Ascending(less, s) && (s != [] ==> !less(s[0], x))
    ensures Ascending(less, [x] + s)
  {
  }

  lemma {:induction false} FilterAscends(less: (Slot, Slot) -> bool, test: Slot -> bool, s: seq<Slot>)
    requires StrictTotal(less) && Ascending(less, s)
    ensures Ascending(less, Filter(test, s))
  {
    if s != [] {
      var rest := Filter(test, s[1..]);
      AscendingTail(less, s);
      FilterAscends(less, test, s[1..]);
      if rest != [] {
        assert rest[0] in rest;
        AscendingFirst(less, s, rest[0]);
      }
      AscendingCons(less, s[0], rest);
      assert [] + rest == rest;
    }
  }

  /** In priority mode the listed slots come first, as listed, and the others follow in order. */
  lemma PriorityComesFirst(less: (Slot, Slot) -> bool, slots: seq<Slot>, config: Config, current: Option<Slot>)
    requires StrictTotal(less) && config.rotation.Priority?
    ensures var listed := Filter(In(Sort(less, slots)), config.priority);
            var order := BuildPlan(less, slots, config, current).order;
            && listed <= order && Ascending(less, order[|listed|..])
            && forall x :: x in order[|listed|..] ==> x !in config.priority
  {
    var available := Sort(less, slots);
    var listed := Filter(In(available), config.priority);
    var others := Filter(NotIn(listed), available);
    SortSorts(less, slots);
    FilterAscends(less, NotIn(listed), available);
    assert (listed + others)[|listed|..] == others;
  }

  /** Once around, from a start. */
  function Turn(s: seq<Slot>, start: nat): (r: seq<Slot>)
    requires start <= |s|
    ensures |r| == |s|
  {
    s[start..] + s[..start]
  }

  lemma Wrap(a: nat, n: nat)
    requires a < 2 * n
    ensures a % n == if a < n then a else a - n
  {
    if a >= n {
      WrapOnce(a - n, n);
    }
  }

  lemma WrapOnce(a: nat, n: nat)
    requires a < n
    ensures (a + n) % n == a
  {
  }

  lemma TurnAt(s: seq<Slot>, start: nat, k: nat)
    requires start <= |s| && k < |s|
    ensures Turn(s, start)[k] == s[if start + k < |s| then start + k else start + k - |s|]
  {
  }

  lemma TurnKeeps(s: seq<Slot>, start: nat, x: Slot)
    requires start <= |s|
    ensures x in Turn(s, start) <==> x in s
  {
    assert s == s[..start] + s[start..];
  }

  lemma SortLength(less: (Slot, Slot) -> bool, s: seq<Slot>)
    ensures |Sort(less, s)| == |s|
  {
    SortPermutes(less, s);
    assert |multiset(Sort(less, s))| == |multiset(s)|;
  }

  /** Round-robin starts at the current slot and goes once around the sorted slots. */
  lemma RoundRobinIsRotation(less: (Slot, Slot) -> bool, slots: seq<Slot>, config: Config, current: Slot, k: nat)
    requires config.rotation.RoundRobin? && current in slots && current != "" && k < |slots|
    ensures var available := Sort(less, slots);
            var start := IndexOf(available, current);
            var order := BuildPlan(less, slots, config, Some(current)).order;
            && |order| == |available| == |slots| && start < |available| && available[start] == current
            && order[k] == available[if start + k < |slots| then start + k else start + k - |slots|]
  {
    SortKeeps(less, slots, current);
    SortLength(less, slots);
    TurnAt(Sort(less, slots), IndexOf(Sort(less, slots), current), k);
  }

  /** Except in manual mode a plan tries exactly the available slots. */
  lemma PlanCoversSlots(less: (Slot, Slot) -> bool, slots: seq<Slot>, config: Config, current: Option<Slot>, x: Slot)
    requires !config.rotation.Manual?
    ensures x in BuildPlan(less, slots, config, current).order <==> x in slots
  {
    SortKeeps(less, slots, x);
    var available := Sort(less, slots);
    if config.rotation.RoundRobin? && current.Some? && current.value in available {
      TurnKeeps(available, IndexOf(available, current.value), x);
    }
  }

  /** Without a current slot among the available ones, round-robin takes them all in order. */
  lemma RoundRobinFromTheFirst(less: (Slot, Slot) -> bool, slots: seq<Slot>, config: Config, current: Option<Slot>)
    requires StrictTotal(less) && config.rotation.RoundRobin?
    requires current.Some? ==> current.value == "" || current.value !in slots
    ensures var order := BuildPlan(less, slots, config, current).order;
            Ascending(less, order) && multiset(order) == multiset(slots)
  {
    SortSorts(less, slots);
    SortPermutes(less, slots);
    if current.Some? {
      SortKeeps(less, slots, current.value);
    }
  }

  /** In manual mode the plan is the current slot alone; if none is current, the first available one in order. */
  lemma ManualPlanIsCurrent(less: (Slot, Slot) -> bool, slots: seq<Slot>, config: Config, current: Option<Slot>)
    requires StrictTotal(less) && config.rotation.Manual?
    ensures var plan := BuildPlan(less, slots, config, current);
            && plan.mode.Manual?
            && if current.Some? && current.value != "" then plan.order == [current.value]
               else if slots == [] then plan.order == []
               else |plan.order| == 1 && plan.order[0] in slots && forall x :: x in slots ==> !less(x, plan.order[0])
  {
    var available := Sort(less, slots);
    SortLength(less, slots);
    if slots != [] {
      SortKeeps(less, slots, available[0]);
      SortSorts(less, slots);
      forall x | x in slots ensures !less(x, available[0]) {
        SortKeeps(less, slots, x);
        AscendingFirst(less, available, x);
      }
    }
  }

  // ---------- Rotation ----------

  /** The first occurrences, in order. */
  function Distinct(s: seq<Slot>): (r: seq<Slot>) {
    if s == [] then []
    else
      var r := Distinct(s[..|s| - 1]);
      if s[|s| - 1] in s[..|s| - 1] then r else r + [s[|s| - 1]]
  }

  lemma {:induction false} DistinctKeeps(s: seq<Slot>, x: Slot)
    ensures x in Distinct(s) <==> x in s
    ensures |Distinct(s)| <= |s|
    decreases |s|
  {
    if s != [] {
      assert s == s[..|s| - 1] + [s[|s| - 1]];
      DistinctKeeps(s[..|s| - 1], x);
    }
  }

  /** The m-th distinct slot first occurs at an index before which exactly the earlier ones occur. */
  lemma {:induction false} DistinctPosition(s: seq<Slot>, m: nat) returns (j: nat)
    requires m < |Distinct(s)|
    ensures j < |s| && s[j] == Distinct(s)[m] && Distinct(s[..j]) == Distinct(s)[..m]
    ensures s[j] !in s[..j]
    decreases |s|
  {
    var init := s[..|s| - 1];
    if m < |Distinct(init)| {
      j := DistinctPosition(init, m);
      assert init[..j] == s[..j];
      assert Distinct(s)[..m] == Distinct(init)[..m];
    } else {
      j := |s| - 1;
      assert Distinct(s)[..m] == Distinct(init);
    }
  }

  ghost predicate NoDuplicates(s: seq<Slot>) {
    forall i :: 0 <= i < |s| ==> s[i] !in s[..i]
  }

  lemma DistinctHasNoDuplicates(s: seq<Slot>)
    ensures NoDuplicates(Distinct(s))
  {
    forall m | 0 <= m < |Distinct(s)| ensures Distinct(s)[m] !in Distinct(s)[..m] {
      var j := DistinctPosition(s, m);
      DistinctKeeps(s[..j], s[j]);
    }
  }

  /** A plan without duplicates is tried as it stands. */
  lemma {:induction false} DistinctOfUnique(s: seq<Slot>)
    requires NoDuplicates(s)
    ensures Distinct(s) == s
    decreases |s|
  {
    if s != [] {
      var init := s[..|s| - 1];
      forall i | 0 <= i < |init| ensures init[i] !in init[..i] {
        assert init[..i] == s[..i];
      }
      DistinctOfUnique(init);
    }
  }

  function SetOf(s: seq<Slot>): set<Slot> {
    set x | x in s
  }

  /** The first slot of a turn that is not exhausted. */
  function FirstOutside(s: seq<Slot>, exhausted: set<Slot>): (r: Option<Slot>)
    ensures r.None? <==> forall x :: x in s ==> x in exhausted
    ensures r.Some? ==> r.value in s && r.value !in exhausted
  {
    if s == [] then None else if s[0] !in exhausted then Some(s[0]) else FirstOutside(s[1..], exhausted)
  }

  lemma {:induction false} FirstOutsideAt(s: seq<Slot>, exhausted: set<Slot>, j: nat)
    requires j < |s| && s[j] !in exhausted && forall i :: 0 <= i < j ==> s[i] in exhausted
    ensures FirstOutside(s, exhausted) == Some(s[j])
    decreases j
  {
    if j > 0 {
      FirstOutsideAt(s[1..], exhausted, j - 1);
    }
  }

  function Start(order: seq<Slot>, current: Option<Slot>): (r: nat)
    ensures r <= |order|
  {
    if current.Some? && current.value != "" && current.value in order then IndexOf(order, current.value) + 1 else 0
  }

  /** The search starts right behind the first place of the current slot, or at the front. */
  lemma StartIsBehind(order: seq<Slot>, current: Option<Slot>)
    ensures var start := Start(order, current);
            if current.Some? && current.value != "" && current.value in order then
              0 < start && order[start - 1] == current.value && current.value !in order[..start - 1]
            else start == 0
  {
  }

  /** The first slot after the current one, cyclically, that is not exhausted. */
  method NextSlotAfter(order: seq<Slot>, current: Option<Slot>, exhausted: set<Slot>) returns (r: Option<Slot>)
    ensures r == FirstOutside(Turn(order, Start(order, current)), exhausted)
    ensures r.None? <==> forall x :: x in order ==> x in exhausted
  {
    if order == [] {
      return None;
    }
    var start := Start(order, current);
    ghost var turn := Turn(order, start);
    forall x | x in order ensures x in turn {
      TurnKeeps(order, start, x);
    }
    var offset := 0;
    while offset < |order|
      invariant 0 <= offset <= |order|
      invariant forall o :: 0 <= o < offset ==> turn[o] in exhausted
    {
      Wrap(start + offset, |order|);
      TurnAt(order, start, offset);
      var slot := order[(start + offset) % |order|];
      if slot !in exhausted {
        FirstOutsideAt(turn, exhausted, offset);
        TurnKeeps(order, start, slot);
        return Some(slot);
      }
      offset := offset + 1;
    }
    return None;
  }

  /** When exactly the first m distinct slots are exhausted and the last of them is current, the next slot is
      the m-th distinct one. */
  lemma NextIsNextDistinct(order: seq<Slot>, m: nat)
    requires 0 < m < |Distinct(order)| && "" !in order
    ensures var d := Distinct(order);
            FirstOutside(Turn(order, Start(order, Some(d[m - 1]))), SetOf(d[..m])) == Some(d[m])
  {
    var d := Distinct(order);
    var j := DistinctPosition(order, m);
    var last := d[m - 1];
    assert last in d[..m];
    DistinctKeeps(order[..j], last);
    DistinctKeeps(order, last);
    DistinctKeeps(order[..j], order[j]);
    var start := Start(order, Some(last));
    assert start <= j;
    forall i | 0 <= i < j - start ensures Turn(order, start)[i] in SetOf(d[..m]) {
      assert order[start + i] in order[..j];
      DistinctKeeps(order[..j], order[start + i]);
    }
    FirstOutsideAt(Turn(order, start), SetOf(d[..m]), j - start);
  }

  /** When all distinct slots are exhausted no slot is next. */
  lemma NothingNext(order: seq<Slot>)
    ensures forall x :: x in order ==> x in SetOf(Distinct(order))
  {
    forall x | x in order ensures x in SetOf(Distinct(order)) {
      DistinctKeeps(order, x);
    }
  }

  // ---------- The hotswap loop ----------

  /** What one run of the program under a slot ends with. */
  datatype Attempt = Attempt(status: int, quota: bool, authInvalid: bool, session: Option<string>)

  datatype Exit = Success | ChildFailed(status: int) | ManualStop | AllExhausted | NoSession | Rotate

  /** How a run ends whose latest attempt is `a`, made with the last of the planned slots or not. */
  function ExitOf(mode: Mode, a: Attempt, last: bool): Exit {
    if a.status == 0 then Success
    else if !a.quota && !a.authInvalid then ChildFailed(a.status)
    else if mode.Manual? then ManualStop
    else if last then AllExhausted
    else if !a.authInvalid && a.session.None? then NoSession
    else Rotate
  }

  predicate SlotFailed(a: Attempt) {
    a.status != 0 && (a.quota || a.authInvalid)
  }

  /** An attempt after which the loop rotates: its token is invalid, or its quota is used up and a session was found. */
  predicate Rotates(a: Attempt) {
    a.status != 0 && (a.authInvalid || (a.quota && a.session.Some?))
  }

  /** The arguments of the k-th attempt: rebuilt from the original ones for the session of the latest quota
      rotation, if there was one. */
  function AttemptArgs(g: ResumeArgs.Grammar, args: seq<string>, attempts: seq<Attempt>, k: nat): seq<string>
    requires k <= |attempts|
  {
    if k == 0 then args
    else
      var a := attempts[k - 1];
      if !a.authInvalid && a.session.Some? then ResumeArgs.Build(g, args, a.session.value)
      else AttemptArgs(g, args, attempts, k - 1)
  }

  /** The slots recorded as out of quota: those whose attempt met a quota error. */
  function Marked(used: seq<Slot>, attempts: seq<Attempt>): (r: seq<Slot>)
    requires |used| <= |attempts|
  {
    if used == [] then []
    else
      var k := |used| - 1;
      Marked(used[..k], attempts) + if attempts[k].status != 0 && attempts[k].quota then [used[k]] else []
  }

  /** The log of the first |used| attempts: each with the next distinct slot of the plan and with the original
      arguments or those rebuilt from them, quota errors recorded, and all but the last attempt followed by a rotation. */
  ghost predicate Log(g: ResumeArgs.Grammar, order: seq<Slot>, args: seq<string>, attempts: seq<Attempt>,
                      used: seq<Slot>, usedArgs: seq<seq<string>>, marked: seq<Slot>) {
    && |used| <= |Distinct(order)| <= |attempts| && used == Distinct(order)[..|used|]
    && |usedArgs| == |used| && (forall k :: 0 <= k < |used| ==> usedArgs[k] == AttemptArgs(g, args, attempts, k))
    && marked == Marked(used, attempts)
    && (forall k :: 0 <= k < |used| - 1 ==> Rotates(attempts[k]))
  }

  /** The first attempt has the original arguments; one behind an invalid token has those of the attempt before; one
      behind a used-up quota resumes the session that attempt was in, with the options of the original arguments. */
  lemma AttemptsResume(g: ResumeArgs.Grammar, order: seq<Slot>, args: seq<string>, attempts: seq<Attempt>,
                       used: seq<Slot>, usedArgs: seq<seq<string>>, marked: seq<Slot>, k: nat)
    requires Log(g, order, args, attempts, used, usedArgs, marked) && k < |used|
    ensures if k == 0 then usedArgs[k] == args
            else
              var before := attempts[k - 1];
              if before.authInvalid then usedArgs[k] == usedArgs[k - 1]
              else && before.quota && before.session.Some?
                   && usedArgs[k] == ResumeArgs.Build(g, args, before.session.value)
                   && |usedArgs[k]| >= 2 && usedArgs[k][0] == "resume" && usedArgs[k][1] == before.session.value
  {
    var now := usedArgs[k];
    assert now == AttemptArgs(g, args, attempts, k);
    if k > 0 {
      var previous := usedArgs[k - 1];
      assert previous == AttemptArgs(g, args, attempts, k - 1);
    }
  }

  /** Exactly the slots whose attempt met a quota error are marked. */
  lemma {:induction false} MarkedIff(used: seq<Slot>, attempts: seq<Attempt>, slot: Slot)
    requires |used| <= |attempts|
    ensures slot in Marked(used, attempts) <==>
            exists k :: 0 <= k < |used| && used[k] == slot && attempts[k].status != 0 && attempts[k].quota
    decreases |used|
  {
    if used != [] {
      var k := |used| - 1;
      MarkedIff(used[..k], attempts, slot);
      assert forall i :: 0 <= i < k ==> used[..k][i] == used[i];
    }
  }

  /** How a run ends, from what its latest attempt met and how many distinct slots were tried. */
  lemma ExitIff(plan: Plan, attempts: seq<Attempt>, used: seq<Slot>, exit: Exit)
    requires 0 < |used| <= |Distinct(plan.order)| && |used| <= |attempts|
    requires exit == ExitOf(plan.mode, attempts[|used| - 1], |used| == |Distinct(plan.order)|)
    ensures var a := attempts[|used| - 1];
            && (exit == Success <==> a.status == 0)
            && (exit.ChildFailed? <==> a.status != 0 && !SlotFailed(a))
            && (exit.ChildFailed? ==> exit.status == a.status)
            && (exit == ManualStop <==> SlotFailed(a) && plan.mode.Manual?)
            && (exit == AllExhausted <==> SlotFailed(a) && !plan.mode.Manual? && |used| == |Distinct(plan.order)|)
            && (exit == Rotate <==> Rotates(a) && !plan.mode.Manual? && |used| < |Distinct(plan.order)|)
  {
  }

  lemma LogGrows(g: ResumeArgs.Grammar, order: seq<Slot>, args: seq<string>, attempts: seq<Attempt>,
                 used: seq<Slot>, usedArgs: seq<seq<string>>, marked: seq<Slot>)
    requires Log(g, order, args, attempts, used, usedArgs, marked) && |used| < |Distinct(order)|
    requires |used| > 0 ==> Rotates(attempts[|used| - 1])
    ensures var m := |used|;
            var slot := Distinct(order)[m];
            Log(g, order, args, attempts, used + [slot], usedArgs + [AttemptArgs(g, args, attempts, m)],
                marked + if attempts[m].status != 0 && attempts[m].quota then [slot] else [])
  {
    MarkedStep(used, Distinct(order)[|used|], attempts);
  }

  /** Rotates through a plan; attempts[k] is what the k-th attempt will meet. */
  method Hotswap(g: ResumeArgs.Grammar, plan: Plan, args: seq<string>, attempts: seq<Attempt>)
    returns (exit: Exit, used: seq<Slot>, usedArgs: seq<seq<string>>, marked: seq<Slot>)
    requires plan.order != [] && "" !in plan.order && |attempts| >= |plan.order|
    ensures used != [] && Log(g, plan.order, args, attempts, used, usedArgs, marked)
    ensures exit == ExitOf(plan.mode, attempts[|used| - 1], |used| == |Distinct(plan.order)|)
    ensures exit != Rotate && (plan.mode.Manual? ==> |used| == 1)
  {
    ghost var distinct := Distinct(plan.order);
    FirstDistinct(plan.order);
    DistinctKeeps(plan.order, plan.order[0]);
    var current := plan.order[0];
    var exhausted: set<Slot> := {};
    var resumeArgs: Option<seq<string>> := None;
    exit, used, usedArgs, marked := Rotate, [], [], [];
    var attempt := 0;
    while attempt < |plan.order|
      invariant 0 <= attempt == |used| < |distinct| <= |plan.order|
      invariant Log(g, plan.order, args, attempts, used, usedArgs, marked)
      invariant attempt > 0 ==> Rotates(attempts[attempt - 1]) && !plan.mode.Manual?
      invariant current == distinct[attempt] && exhausted == SetOf(distinct[..attempt])
      invariant Chosen(resumeArgs, args) == AttemptArgs(g, args, attempts, attempt)
    {
      LogGrows(g, plan.order, args, attempts, used, usedArgs, marked);
      used, usedArgs := used + [current], usedArgs + [Chosen(resumeArgs, args)];
      var result := attempts[attempt];
      if result.status != 0 && result.quota {
        marked := marked + [current];
      }
      exit, exhausted, current := Settle(plan, result, current, exhausted, attempt);
      if exit != Rotate {
        break;
      }
      if !result.authInvalid {
        var rebuilt := ResumeArgs.BuildResumeArgs(g, args, result.session.value);
        resumeArgs := Some(rebuilt);
      }
      attempt := attempt + 1;
    }
  }

  /** What happens after an attempt with the m-th distinct slot: the way out, or the slot to rotate to. */
  method Settle(plan: Plan, result: Attempt, current: Slot, exhausted: set<Slot>, ghost m: nat)
    returns (exit: Exit, exhausted': set<Slot>, next: Slot)
    requires "" !in plan.order && m < |Distinct(plan.order)|
    requires current == Distinct(plan.order)[m] && exhausted == SetOf(Distinct(plan.order)[..m])
    ensures exit == ExitOf(plan.mode, result, m + 1 == |Distinct(plan.order)|)
    ensures exit == Rotate ==> m + 1 < |Distinct(plan.order)| && next == Distinct(plan.order)[m + 1]
    ensures exit == Rotate ==> exhausted' == SetOf(Distinct(plan.order)[..m + 1])
  {
    exhausted', next := exhausted, current;
    if result.status == 0 {
      return Success, exhausted', next;
    }
    if !result.quota && !result.authInvalid {
      return ChildFailed(result.status), exhausted', next;
    }
    exhausted' := exhausted + {current};
    if plan.mode.Manual? {
      return ManualStop, exhausted', next;
    }
    Step(plan.order, m);
    var found := NextSlotAfter(plan.order, Some(current), exhausted');
    if found.None? {
      return AllExhausted, exhausted', next;
    }
    if !result.authInvalid && result.session.None? {
      return NoSession, exhausted', next;
    }
    return Rotate, exhausted', found.value;
  }

  function Chosen(resumeArgs: Option<seq<string>>, args: seq<string>): seq<string> {
    if resumeArgs.Some? then resumeArgs.value else args
  }

  lemma {:induction false} FirstDistinct(s: seq<Slot>)
    requires s != []
    ensures Distinct(s) != [] && Distinct(s)[0] == s[0]
    decreases |s|
  {
    if |s| > 1 {
      FirstDistinct(s[..|s| - 1]);
    } else {
      assert s[..0] == [];
    }
  }

  lemma MarkedStep(used: seq<Slot>, slot: Slot, attempts: seq<Attempt>)
    requires |used| < |attempts|
    ensures var a := attempts[|used|];
            Marked(used + [slot], attempts) == Marked(used, attempts) + if a.status != 0 && a.quota then [slot] else []
  {
    assert (used + [slot])[..|used|] == used;
  }

  /** What the rotation finds after the attempt with the m-th distinct slot has failed too. */
  lemma Step(order: seq<Slot>, m: nat)
    requires m < |Distinct(order)| && "" !in order
    ensures var d := Distinct(order);
            var exhausted := SetOf(d[..m]) + {d[m]};
            var next := FirstOutside(Turn(order, Start(order, Some(d[m]))), exhausted);
            && d[..m + 1] == d[..m] + [d[m]] && exhausted == SetOf(d[..m + 1])
            && (if m + 1 < |d| then next == Some(d[m + 1]) else next == None)
  {
    var d := Distinct(order);
    assert d[..m + 1] == d[..m] + [d[m]];
    if m + 1 < |d| {
      NextIsNextDistinct(order, m + 1);
    } else {
      assert d[..m + 1] == d;
      NothingNext(order);
      var turn := Turn(order, Start(order, Some(d[m])));
      forall x | x in turn ensures x in SetOf(d) {
        TurnKeeps(order, Start(order, Some(d[m])), x);
      }
    }
  }

  /** For a plan without duplicates attempt k uses the k-th planned slot, no slot is used twice, and a run that
      ends with all slots exhausted has failed with every one of them. */
  lemma UniquePlanIsFollowed(g: ResumeArgs.Grammar, plan: Plan, args: seq<string>, attempts: seq<Attempt>, exit: Exit,
                             used: seq<Slot>, usedArgs: seq<seq<string>>, marked: seq<Slot>)
    requires NoDuplicates(plan.order) && used != [] && Log(g, plan.order, args, attempts, used, usedArgs, marked)
    requires exit == ExitOf(plan.mode, attempts[|used| - 1], |used| == |Distinct(plan.order)|)
    ensures used <= plan.order && NoDuplicates(used)
    ensures exit == AllExhausted ==> used == plan.order && forall k :: 0 <= k < |plan.order| ==> SlotFailed(attempts[k])
  {
    LogIsPrefix(g, plan.order, args, attempts, used, usedArgs, marked);
    DistinctOfUnique(plan.order);
    PrefixUnique(plan.order, |used|);
    AllFailed(plan.mode, attempts, |used|, exit, |used| == |plan.order|);
  }

  lemma LogIsPrefix(g: ResumeArgs.Grammar, order: seq<Slot>, args: seq<string>, attempts: seq<Attempt>,
                    used: seq<Slot>, usedArgs: seq<seq<string>>, marked: seq<Slot>)
    requires Log(g, order, args, attempts, used, usedArgs, marked)
    ensures |used| <= |Distinct(order)| <= |attempts| && used == Distinct(order)[..|used|]
    ensures forall k :: 0 <= k < |used| - 1 ==> SlotFailed(attempts[k])
  {
  }

  lemma AllFailed(mode: Mode, attempts: seq<Attempt>, n: nat, exit: Exit, last: bool)
    requires 0 < n <= |attempts| && exit == ExitOf(mode, attempts[n - 1], last)
    requires forall k :: 0 <= k < n - 1 ==> SlotFailed(attempts[k])
    ensures exit == AllExhausted ==> last && forall k :: 0 <= k < n ==> SlotFailed(attempts[k])
  {
  }

  lemma PrefixUnique(s: seq<Slot>, n: nat)
    requires NoDuplicates(s) && n <= |s|
    ensures NoDuplicates(s[..n])
  {
    forall i | 0 <= i < n ensures s[..n][i] !in s[..n][..i] {
      assert s[..n][..i] == s[..i];
    }
  }

  /** An unrepeated priority list over unrepeated slots gives a plan without duplicates. */
  lemma PlanIsUnique(less: (Slot, Slot) -> bool, slots: seq<Slot>, config: Config, current: Option<Slot>, x: Slot)
    requires multiset(slots)[x] <= 1 && multiset(config.priority)[x] <= 1
    ensures multiset(BuildPlan(less, slots, config, current).order)[x] <= 1
  {
    var available := Sort(less, slots);
    SortPermutes(less, slots);
    match config.rotation
    case Manual =>
      if current.None? || current.value == "" {
        HeadCount(available, x);
      }
    case Priority =>
      MergedCount(available, config.priority, x);
    case RoundRobin =>
      if current.Some? && current.value in available {
        TurnCount(available, IndexOf(available, current.value), x);
      }
  }

  lemma HeadCount(s: seq<Slot>, x: Slot)
    ensures s != [] ==> multiset(s[..1])[x] <= multiset(s)[x]
  {
    if s != [] {
      assert s == s[..1] + s[1..];
    }
  }

  lemma TurnCount(s: seq<Slot>, start: nat, x: Slot)
    requires start <= |s|
    ensures multiset(Turn(s, start))[x] == multiset(s)[x]
  {
    assert s == s[..start] + s[start..];
  }

  lemma MergedCount(available: seq<Slot>, wanted: seq<Slot>, x: Slot)
    requires multiset(available)[x] <= 1 && multiset(wanted)[x] <= 1
    ensures multiset(Merged(available, wanted))[x] <= 1
  {
    var priority := Filter(In(available), wanted);
    FilterCount(In(available), wanted, x);
    FilterCount(NotIn(priority), available, x);
    assert multiset(priority)[x] > 0 <==> x in priority;
  }

  lemma {:induction false} FilterCount(test: Slot -> bool, s: seq<Slot>, x: Slot)
    ensures multiset(Filter(test, s))[x] == if test(x) then multiset(s)[x] else 0
  {
    if s != [] {
      assert s == [s[0]] + s[1..];
      FilterCount(test, s[1..], x);
    }
  }
}
