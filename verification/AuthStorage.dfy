/** The metadata of the authentication slots, changed by read-modify-write under a lock directory.

    Operations of different processes interleave; a process may stop at any step, and whoever stops while
    holding the lock leaves it behind. */
module AuthStorage {
  import opened Prelude

  type Slot = string
  type Time = string
  type Data = string

  datatype SlotRecord = SlotRecord(slot: Slot, createdAt: Time, updatedAt: Time,
                                   lastUsedAt: Option<Time>, lastQuotaAt: Option<Time>, exhaustedAt: Option<Time>)

  datatype Metadata = Metadata(currentSlot: Option<Slot>, slots: seq<SlotRecord>)

  const EMPTY := Metadata(None, [])

  datatype Op =
    | Add(slot: Slot, now: Time)
    | Use(slot: Slot, now: Time)
    | MarkQuota(slot: Slot, now: Time)
    | Clear(slot: Slot)

  /** The comparison localeCompare makes on slot names. */
  type Order = (Slot, Slot) -> bool

  // ---------- One operation ----------

  function IndexOf(slots: seq<SlotRecord>, slot: Slot): (i: nat)
    ensures i <= |slots|
    ensures i < |slots| ==> slots[i].slot == slot
    ensures forall j :: 0 <= j < i ==> slots[j].slot != slot
  {
    if slots == [] || slots[0].slot == slot then 0 else 1 + IndexOf(slots[1..], slot)
  }

  function InsertRecord(less: Order, slots: seq<SlotRecord>, r: SlotRecord): (s: seq<SlotRecord>)
    ensures |s| == |slots| + 1
  {
    if slots != [] && less(r.slot, slots[|slots| - 1].slot)
    then InsertRecord(less, slots[..|slots| - 1], r) + [slots[|slots| - 1]]
    else slots + [r]
  }

  function SortRecords(less: Order, slots: seq<SlotRecord>): seq<SlotRecord> {
    if slots == [] then []
    else InsertRecord(less, SortRecords(less, slots[..|slots| - 1]), slots[|slots| - 1])
  }

  function Upsert(less: Order, slots: seq<SlotRecord>, slot: Slot, now: Time): seq<SlotRecord> {
    var i := IndexOf(slots, slot);
    if i < |slots| then slots[i := slots[i].(updatedAt := now)]
    else SortRecords(less, slots + [SlotRecord(slot, now, now, None, None, None)])
  }

  function Touch(op: Op, r: SlotRecord): SlotRecord {
    match op
    case Add(_, _) => r
    case Use(_, now) => r.(lastUsedAt := Some(now), exhaustedAt := None)
    case MarkQuota(_, now) => r.(lastQuotaAt := Some(now), exhaustedAt := Some(now))
    case Clear(_) => r.(exhaustedAt := None)
  }

  function TouchSlot(op: Op, slots: seq<SlotRecord>): seq<SlotRecord> {
    var i := IndexOf(slots, op.slot);
    if i < |slots| then slots[i := Touch(op, slots[i])] else slots
  }

  /** What an operation makes of the metadata. */
  function Apply(less: Order, m: Metadata, op: Op): Metadata {
    if op.Clear? then m.(slots := TouchSlot(op, m.slots))
    else Metadata(if op.Use? then Some(op.slot) else m.currentSlot, TouchSlot(op, Upsert(less, m.slots, op.slot, op.now)))
  }

  function ApplyAll(less: Order, ops: seq<Op>): Metadata {
    if ops == [] then EMPTY else Apply(less, ApplyAll(less, ops[..|ops| - 1]), ops[|ops| - 1])
  }

  // ---------- What operations keep ----------

  ghost predicate Ascending(less: Order, slots: seq<SlotRecord>) {
    forall i, j :: 0 <= i < j < |slots| ==> less(slots[i].slot, slots[j].slot)
  }

  predicate HasRecord(slots: seq<SlotRecord>, slot: Slot) {
    IndexOf(slots, slot) < |slots|
  }

  /** Records in order with unique names, and the current slot among them. */
  ghost predicate WellFormed(less: Order, m: Metadata) {
    Ascending(less, m.slots) && (m.currentSlot.Some? ==> HasRecord(m.slots, m.currentSlot.value))
  }

  lemma {:induction false} InsertAscending(less: Order, slots: seq<SlotRecord>, r: SlotRecord)
    requires StrictTotal(less) && Ascending(less, slots) && forall x :: x in slots ==> x.slot != r.slot
    ensures Ascending(less, InsertRecord(less, slots, r))
    ensures forall x :: x in InsertRecord(less, slots, r) <==> x in slots || x == r
    decreases |slots|
  {
    if slots != [] {
      var init, last := slots[..|slots| - 1], slots[|slots| - 1];
      assert slots == init + [last] && last in slots;
      if less(r.slot, last.slot) {
        InsertAscending(less, init, r);
        forall i | 0 <= i < |InsertRecord(less, init, r)|
          ensures less(InsertRecord(less, init, r)[i].slot, last.slot)
        {
          assert InsertRecord(less, init, r)[i] in InsertRecord(less, init, r);
        }
      } else {
        forall i | 0 <= i < |slots| ensures less(slots[i].slot, r.slot) {
          assert less(last.slot, r.slot) && (i == |slots| - 1 || less(slots[i].slot, last.slot));
        }
      }
    }
  }

  lemma InsertAtEnd(less: Order, slots: seq<SlotRecord>, r: SlotRecord)
    requires slots != [] ==> !less(r.slot, slots[|slots| - 1].slot)
    ensures InsertRecord(less, slots, r) == slots + [r]
  {
  }

  lemma AscendingInit(less: Order, slots: seq<SlotRecord>)
    requires StrictTotal(less) && Ascending(less, slots) && slots != []
    ensures var n := |slots| - 1;
            Ascending(less, slots[..n]) && (n > 0 ==> !less(slots[n].slot, slots[..n][n - 1].slot))
  {
    var n := |slots| - 1;
    if n > 0 {
      assert less(slots[n - 1].slot, slots[n].slot);
    }
  }

  lemma {:induction false} SortOfAscending(less: Order, slots: seq<SlotRecord>)
    requires StrictTotal(less) && Ascending(less, slots)
    ensures SortRecords(less, slots) == slots
    decreases |slots|
  {
    if slots != [] {
      AscendingInit(less, slots);
      SortOfAscending(less, slots[..|slots| - 1]);
      InsertAtEnd(less, slots[..|slots| - 1], slots[|slots| - 1]);
    }
  }

  lemma IndexOfMember(slots: seq<SlotRecord>, slot: Slot)
    ensures HasRecord(slots, slot) <==> exists x :: x in slots && x.slot == slot
  {
    if x :| x in slots && x.slot == slot {
      var j :| 0 <= j < |slots| && slots[j] == x;
    }
    if HasRecord(slots, slot) {
      assert slots[IndexOf(slots, slot)] in slots;
    }
  }

  lemma {:induction false} IndexOfReplaced(slots: seq<SlotRecord>, i: nat, r: SlotRecord, slot: Slot)
    requires i < |slots| && r.slot == slots[i].slot
    ensures IndexOf(slots[i := r], slot) == IndexOf(slots, slot)
    decreases |slots|
  {
    if i > 0 {
      assert slots[i := r][1..] == slots[1..][i - 1 := r];
      IndexOfReplaced(slots[1..], i - 1, r, slot);
    } else {
      assert slots[i := r][1..] == slots[1..];
    }
  }

  lemma TouchKeeps(less: Order, op: Op, slots: seq<SlotRecord>, slot: Slot)
    requires Ascending(less, slots)
    ensures Ascending(less, TouchSlot(op, slots)) && HasRecord(TouchSlot(op, slots), slot) == HasRecord(slots, slot)
  {
    var i := IndexOf(slots, op.slot);
    if i < |slots| {
      IndexOfReplaced(slots, i, Touch(op, slots[i]), slot);
    }
  }

  lemma UpsertKeeps(less: Order, slots: seq<SlotRecord>, slot: Slot, now: Time, other: Slot)
    requires StrictTotal(less) && Ascending(less, slots)
    ensures Ascending(less, Upsert(less, slots, slot, now))
    ensures HasRecord(Upsert(less, slots, slot, now), other) <==> HasRecord(slots, other) || other == slot
  {
    var i := IndexOf(slots, slot);
    if i < |slots| {
      IndexOfReplaced(slots, i, slots[i].(updatedAt := now), other);
    } else {
      var r := SlotRecord(slot, now, now, None, None, None);
      assert (slots + [r])[..|slots|] == slots;
      SortOfAscending(less, slots);
      forall x | x in slots ensures x.slot != slot {
        var j :| 0 <= j < |slots| && slots[j] == x;
      }
      InsertAscending(less, slots, r);
      IndexOfMember(slots, other);
      IndexOfMember(Upsert(less, slots, slot, now), other);
    }
  }

  lemma ApplyKeepsWellFormed(less: Order, m: Metadata, op: Op)
    requires StrictTotal(less) && WellFormed(less, m)
    ensures WellFormed(less, Apply(less, m, op))
  {
    var current := if op.Use? then op.slot else if m.currentSlot.Some? then m.currentSlot.value else op.slot;
    if op.Clear? {
      TouchKeeps(less, op, m.slots, current);
    } else {
      UpsertKeeps(less, m.slots, op.slot, op.now, current);
      TouchKeeps(less, op, Upsert(less, m.slots, op.slot, op.now), current);
    }
  }

  lemma {:induction false} ApplyAllWellFormed(less: Order, ops: seq<Op>)
    requires StrictTotal(less)
    ensures WellFormed(less, ApplyAll(less, ops))
    decreases |ops|
  {
    if ops != [] {
      ApplyAllWellFormed(less, ops[..|ops| - 1]);
      ApplyKeepsWellFormed(less, ApplyAll(less, ops[..|ops| - 1]), ops[|ops| - 1]);
    }
  }

  /** An operation leaves every other slot's record alone and puts the named record in its new state. */
  lemma ApplyTouchesOneSlot(less: Order, m: Metadata, op: Op, r: SlotRecord)
    requires StrictTotal(less) && WellFormed(less, m) && r.slot != op.slot
    ensures r in Apply(less, m, op).slots <==> r in m.slots
  {
    var slots := if op.Clear? then m.slots else Upsert(less, m.slots, op.slot, op.now);
    if !op.Clear? {
      UpsertElsewhere(less, m.slots, op.slot, op.now, r);
    }
    var i := IndexOf(slots, op.slot);
    if i < |slots| {
      ReplaceElsewhere(slots, i, Touch(op, slots[i]), r);
    }
  }

  lemma ReplaceElsewhere(slots: seq<SlotRecord>, i: nat, x: SlotRecord, r: SlotRecord)
    requires i < |slots| && x.slot == slots[i].slot && r.slot != x.slot
    ensures r in slots[i := x] <==> r in slots
  {
    if r in slots {
      var j :| 0 <= j < |slots| && slots[j] == r;
      assert slots[i := x][j] == r;
    }
  }

  lemma UpsertElsewhere(less: Order, slots: seq<SlotRecord>, slot: Slot, now: Time, r: SlotRecord)
    requires StrictTotal(less) && Ascending(less, slots) && r.slot != slot
    ensures r in Upsert(less, slots, slot, now) <==> r in slots
  {
    var i := IndexOf(slots, slot);
    if i < |slots| {
      ReplaceElsewhere(slots, i, slots[i].(updatedAt := now), r);
    } else {
      var added := SlotRecord(slot, now, now, None, None, None);
      assert (slots + [added])[..|slots|] == slots;
      SortOfAscending(less, slots);
      forall x | x in slots ensures x.slot != slot {
        var j :| 0 <= j < |slots| && slots[j] == x;
      }
      InsertAscending(less, slots, added);
    }
  }

  // ---------- What operations mean ----------

  function Lookup(slots: seq<SlotRecord>, slot: Slot): Option<SlotRecord> {
    var i := IndexOf(slots, slot);
    if i < |slots| then Some(slots[i]) else None
  }

  lemma LookupIs(less: Order, slots: seq<SlotRecord>, r: SlotRecord)
    requires StrictTotal(less) && Ascending(less, slots) && r in slots
    ensures Lookup(slots, r.slot) == Some(r)
  {
    var j :| 0 <= j < |slots| && slots[j] == r;
    SameSlotOnce(less, slots, IndexOf(slots, r.slot), j);
  }

  lemma SameSlotOnce(less: Order, slots: seq<SlotRecord>, i: nat, j: nat)
    requires StrictTotal(less) && Ascending(less, slots) && i < |slots| && j < |slots| && slots[i].slot == slots[j].slot
    ensures i == j
  {
  }

  lemma UpsertMeans(less: Order, slots: seq<SlotRecord>, slot: Slot, now: Time)
    requires StrictTotal(less) && Ascending(less, slots)
    ensures var before := Lookup(slots, slot);
            Lookup(Upsert(less, slots, slot, now), slot) ==
            Some(if before.Some? then before.value.(updatedAt := now) else SlotRecord(slot, now, now, None, None, None))
  {
    var i := IndexOf(slots, slot);
    UpsertKeeps(less, slots, slot, now, slot);
    if i < |slots| {
      IndexOfReplaced(slots, i, slots[i].(updatedAt := now), slot);
    } else {
      var r := SlotRecord(slot, now, now, None, None, None);
      assert (slots + [r])[..|slots|] == slots;
      SortOfAscending(less, slots);
      forall x | x in slots ensures x.slot != slot {
        var j :| 0 <= j < |slots| && slots[j] == x;
      }
      InsertAscending(less, slots, r);
      LookupIs(less, Upsert(less, slots, slot, now), r);
    }
  }

  lemma TouchMeans(op: Op, slots: seq<SlotRecord>)
    ensures var before := Lookup(slots, op.slot);
            Lookup(TouchSlot(op, slots), op.slot) == if before.Some? then Some(Touch(op, before.value)) else None
  {
    var i := IndexOf(slots, op.slot);
    if i < |slots| {
      IndexOfReplaced(slots, i, Touch(op, slots[i]), op.slot);
    }
  }

  /** The record of the named slot after an operation.  All but clearing create it if it is missing and date it; its
      creation date stays; using it dates the use and ends the exhaustion, a quota error dates both, clearing ends the
      exhaustion of an existing record and does nothing else; only using changes the current slot. */
  lemma ApplyMeans(less: Order, m: Metadata, op: Op)
    requires StrictTotal(less) && WellFormed(less, m)
    ensures var m' := Apply(less, m, op);
            var before, after := Lookup(m.slots, op.slot), Lookup(m'.slots, op.slot);
            && m'.currentSlot == (if op.Use? then Some(op.slot) else m.currentSlot)
            && if op.Clear? then
                 if before.None? then m' == m
                 else after.Some? && after.value.exhaustedAt.None? && after.value == before.value.(exhaustedAt := None)
               else
                 && after.Some? && after.value.slot == op.slot && after.value.updatedAt == op.now
                 && after.value.createdAt == (if before.Some? then before.value.createdAt else op.now)
                 && after.value.lastUsedAt == (if op.Use? then Some(op.now) else if before.Some? then before.value.lastUsedAt else None)
                 && after.value.lastQuotaAt ==
                    (if op.MarkQuota? then Some(op.now) else if before.Some? then before.value.lastQuotaAt else None)
                 && after.value.exhaustedAt ==
                    (if op.MarkQuota? then Some(op.now) else if op.Use? || before.None? then None else before.value.exhaustedAt)
  {
    if op.Clear? {
      TouchMeans(op, m.slots);
    } else {
      UpsertMeans(less, m.slots, op.slot, op.now);
      TouchMeans(op, Upsert(less, m.slots, op.slot, op.now));
    }
  }

  lemma LookupElsewhere(less: Order, m: Metadata, op: Op, slot: Slot)
    requires StrictTotal(less) && WellFormed(less, m) && slot != op.slot
    ensures Lookup(Apply(less, m, op).slots, slot) == Lookup(m.slots, slot)
  {
    var before, after := Lookup(m.slots, slot), Lookup(Apply(less, m, op).slots, slot);
    ApplyKeepsWellFormed(less, m, op);
    if before.Some? {
      assert before.value in m.slots;
      ApplyTouchesOneSlot(less, m, op, before.value);
      LookupIs(less, Apply(less, m, op).slots, before.value);
    } else if after.Some? {
      assert after.value in Apply(less, m, op).slots;
      ApplyTouchesOneSlot(less, m, op, after.value);
      LookupIs(less, m.slots, after.value);
    }
  }

  /** After any sequence of operations the current slot is the one used last ... */
  lemma {:induction false} CurrentIsLastUsed(less: Order, ops: seq<Op>, k: nat)
    requires k < |ops| && ops[k].Use? && forall i :: k < i < |ops| ==> !ops[i].Use?
    ensures ApplyAll(less, ops).currentSlot == Some(ops[k].slot)
    decreases |ops|
  {
    var n := |ops| - 1;
    if k < n {
      CurrentIsLastUsed(less, ops[..n], k);
    }
  }

  /** ... and there is none if none was used. */
  lemma {:induction false} NoneIsCurrent(less: Order, ops: seq<Op>)
    requires forall i :: 0 <= i < |ops| ==> !ops[i].Use?
    ensures ApplyAll(less, ops).currentSlot.None?
    decreases |ops|
  {
    if ops != [] {
      NoneIsCurrent(less, ops[..|ops| - 1]);
    }
  }

  /** Whether the last operation on the slot that decides it is a quota error, rather than a use or a clearing. */
  predicate QuotaIsLast(ops: seq<Op>, slot: Slot) {
    exists k :: 0 <= k < |ops| && QuotaAt(ops, slot, k)
  }

  predicate QuotaAt(ops: seq<Op>, slot: Slot, k: int)
    requires 0 <= k < |ops|
  {
    && ops[k].MarkQuota? && ops[k].slot == slot
    && forall i :: k < i < |ops| && ops[i].slot == slot ==> !ops[i].Use? && !ops[i].Clear?
  }

  lemma QuotaSnoc(ops: seq<Op>, slot: Slot)
    requires ops != []
    ensures var n := |ops| - 1;
            var op := ops[n];
            QuotaIsLast(ops, slot) <==>
              if op.slot != slot || op.Add? then QuotaIsLast(ops[..n], slot) else op.MarkQuota?
  {
    var n := |ops| - 1;
    if k: int :| 0 <= k < n && QuotaAt(ops[..n], slot, k) && (ops[n].slot != slot || ops[n].Add? || ops[n].MarkQuota?) {
      assert QuotaAt(ops, slot, k);
    }
    if k: int :| 0 <= k < n && QuotaAt(ops, slot, k) {
      assert QuotaAt(ops[..n], slot, k);
    }
    assert ops[n].MarkQuota? && ops[n].slot == slot ==> QuotaAt(ops, slot, n);
  }

  predicate IsExhausted(r: Option<SlotRecord>) {
    r.Some? && r.value.exhaustedAt.Some?
  }

  lemma LookupStep(less: Order, m: Metadata, op: Op, slot: Slot)
    requires StrictTotal(less) && WellFormed(less, m)
    ensures var r, r' := Lookup(m.slots, slot), Lookup(Apply(less, m, op).slots, slot);
            && (r'.Some? <==> r.Some? || (op.slot == slot && !op.Clear?))
            && (IsExhausted(r') <==> if op.slot != slot || op.Add? then IsExhausted(r) else op.MarkQuota?)
  {
    if op.slot == slot {
      ApplyMeans(less, m, op);
    } else {
      LookupElsewhere(less, m, op, slot);
    }
  }

  predicate CreatesRecord(ops: seq<Op>, slot: Slot) {
    exists k :: 0 <= k < |ops| && ops[k].slot == slot && !ops[k].Clear?
  }

  lemma CreatesSnoc(ops: seq<Op>, slot: Slot)
    requires ops != []
    ensures var n := |ops| - 1;
            CreatesRecord(ops, slot) <==> CreatesRecord(ops[..n], slot) || (ops[n].slot == slot && !ops[n].Clear?)
  {
    var n := |ops| - 1;
    if k: int :| 0 <= k < n && ops[..n][k].slot == slot && !ops[..n][k].Clear? {
      assert ops[k].slot == slot;
    }
    if k: int :| 0 <= k < n && ops[k].slot == slot && !ops[k].Clear? {
      assert ops[..n][k].slot == slot;
    }
  }

  /** After any sequence of operations a slot has a record iff one of them added it, used it or met its quota. */
  lemma {:induction false} RecordedIff(less: Order, ops: seq<Op>, slot: Slot)
    requires StrictTotal(less)
    ensures Lookup(ApplyAll(less, ops).slots, slot).Some? <==> CreatesRecord(ops, slot)
    decreases |ops|
  {
    if ops != [] {
      var n := |ops| - 1;
      RecordedIff(less, ops[..n], slot);
      ApplyAllWellFormed(less, ops[..n]);
      LookupStep(less, ApplyAll(less, ops[..n]), ops[n], slot);
      CreatesSnoc(ops, slot);
    }
  }

  /** After any sequence of operations a slot is exhausted iff the last of its quota errors, uses and clearings is a
      quota error. */
  lemma {:induction false} ExhaustedIff(less: Order, ops: seq<Op>, slot: Slot)
    requires StrictTotal(less)
    ensures IsExhausted(Lookup(ApplyAll(less, ops).slots, slot)) <==> QuotaIsLast(ops, slot)
    decreases |ops|
  {
    if ops != [] {
      var n := |ops| - 1;
      ExhaustedIff(less, ops[..n], slot);
      ApplyAllWellFormed(less, ops[..n]);
      LookupStep(less, ApplyAll(less, ops[..n]), ops[n], slot);
      QuotaSnoc(ops, slot);
    }
  }

  // ---------- Interleaved processes ----------

  type Pid = nat

  datatype Stage = Waiting | Locked | Loaded(snapshot: Metadata) | Prepared(snapshot: Metadata) | Committed | Done | Aborted

  /** An operation under way; `wrote` is what it has put into a credential file or made live, if it got there. */
  datatype Process = Process(op: Op, stage: Stage, wrote: Option<Data>)

  datatype System = System(lock: Option<Pid>, metadata: Metadata, files: map<Slot, Data>, live: Data,
                           processes: map<Pid, Process>, crashed: set<Pid>)

  datatype Choice = Proceed(data: Data) | Fail | Crash

  predicate Holding(stage: Stage) {
    stage.Locked? || stage.Loaded? || stage.Prepared? || stage.Committed?
  }

  function SetStage(s: System, p: Pid, stage: Stage): System
    requires p in s.processes
  {
    s.(processes := s.processes[p := s.processes[p].(stage := stage)])
  }

  function Prepare(s: System, p: Pid, m: Metadata, data: Data): System
    requires p in s.processes
  {
    s.(processes := s.processes[p := Process(s.processes[p].op, Prepared(m), Some(data))])
  }

  /** A step under the lock directory: load, write the credential file, write the metadata, let go. */
  function ProceedStep(less: Order, s: System, p: Pid, data: Data): System
    requires p in s.processes
  {
    var op := s.processes[p].op;
    match s.processes[p].stage
    case Waiting => if s.lock.None? then SetStage(s, p, Locked).(lock := Some(p)) else s
    case Locked => SetStage(s, p, Loaded(s.metadata))
    case Loaded(m) =>
      if op.Add? then Prepare(s, p, m, data).(files := s.files[op.slot := data])
      else if op.Use? then
        if op.slot in s.files then Prepare(s, p, m, s.files[op.slot]).(live := s.files[op.slot])
        else SetStage(s, p, Aborted).(lock := None)
      else Prepare(s, p, m, "")
    case Prepared(m) => SetStage(s, p, Committed).(metadata := Apply(less, m, op))
    case Committed => SetStage(s, p, Done).(lock := None)
    case _ => s
  }

  /** An exception releases the lock if it is held; a committed operation stays committed. */
  function FailStep(s: System, p: Pid): System
    requires p in s.processes
  {
    match s.processes[p].stage
    case Waiting => SetStage(s, p, Aborted)
    case Committed => SetStage(s, p, Done).(lock := None)
    case Done => s
    case Aborted => s
    case _ => SetStage(s, p, Aborted).(lock := None)
  }

  function Step(less: Order, s: System, p: Pid, c: Choice): System {
    if p !in s.processes || p in s.crashed then s
    else
      match c
      case Crash => s.(crashed := s.crashed + {p})
      case Fail => FailStep(s, p)
      case Proceed(data) => ProceedStep(less, s, p, data)
  }

  function Run(less: Order, s: System, events: seq<(Pid, Choice)>): System
    decreases |events|
  {
    if events == [] then s else Run(less, Step(less, s, events[0].0, events[0].1), events[1..])
  }

  ghost predicate Init(s: System) {
    && s.lock.None? && s.metadata == EMPTY && s.crashed == {}
    && forall p :: p in s.processes ==> s.processes[p].stage.Waiting? && s.processes[p].wrote.None?
  }

  predicate Completed(stage: Stage) {
    stage.Committed? || stage.Done?
  }

  function OpsOf(s: System, order: seq<Pid>): seq<Op>
    requires forall p :: p in order ==> p in s.processes
  {
    seq(|order|, i requires 0 <= i < |order| => s.processes[order[i]].op)
  }

  /** `order` lists every completed operation once, and the metadata is what they make of nothing, in
      that order. */
  ghost predicate SerialOrder(less: Order, s: System, order: seq<Pid>) {
    && (forall p :: p in order <==> p in s.processes && Completed(s.processes[p].stage))
    && (forall i, j :: 0 <= i < j < |order| ==> order[i] != order[j])
    && s.metadata == ApplyAll(less, OpsOf(s, order))
  }

  ghost predicate Inv(less: Order, s: System, order: seq<Pid>) {
    && SerialOrder(less, s, order)
    && (forall p :: p in s.processes && Holding(s.processes[p].stage) ==> s.lock == Some(p))
    && (forall p :: p in s.processes && (s.processes[p].stage.Loaded? || s.processes[p].stage.Prepared?) ==>
          s.processes[p].stage.snapshot == s.metadata)
  }

  function NextOrder(s: System, order: seq<Pid>, p: Pid, c: Choice): seq<Pid> {
    if Commits(s, p, c) then order + [p] else order
  }

  /** A step changes only the process that makes it, and never its operation. */
  ghost predicate StepsAlone(s: System, s': System, p: Pid) {
    && s'.processes.Keys == s.processes.Keys
    && (forall q :: q in s.processes && q != p ==> s'.processes[q] == s.processes[q])
    && (p in s.processes ==> s'.processes[p].op == s.processes[p].op)
  }

  lemma StepIsLocal(less: Order, s: System, p: Pid, c: Choice)
    ensures StepsAlone(s, Step(less, s, p, c), p)
  {
  }

  lemma OpsUnchanged(s: System, s': System, p: Pid, order: seq<Pid>)
    requires StepsAlone(s, s', p) && forall q :: q in order ==> q in s.processes
    ensures OpsOf(s', order) == OpsOf(s, order)
  {
    forall i | 0 <= i < |order| ensures s'.processes[order[i]].op == s.processes[order[i]].op {
      assert order[i] in order;
    }
  }

  lemma OpsSnoc(s: System, order: seq<Pid>, p: Pid)
    requires forall q :: q in order + [p] ==> q in s.processes
    ensures (forall q :: q in order ==> q in order + [p]) && OpsOf(s, order + [p]) == OpsOf(s, order) + [s.processes[p].op]
  {
    assert (order + [p])[|order|] == p;
  }

  lemma ApplySnoc(less: Order, ops: seq<Op>, op: Op)
    ensures ApplyAll(less, ops + [op]) == Apply(less, ApplyAll(less, ops), op)
  {
    assert (ops + [op])[..|ops|] == ops;
  }

  lemma CommitExtends(less: Order, s: System, p: Pid, data: Data, order: seq<Pid>)
    requires Inv(less, s, order) && p in s.processes && p !in s.crashed && s.processes[p].stage.Prepared?
    ensures (forall q :: q in order + [p] ==> q in s.processes)
    ensures Step(less, s, p, Proceed(data)).metadata == ApplyAll(less, OpsOf(s, order + [p]))
  {
    OpsSnoc(s, order, p);
    ApplySnoc(less, OpsOf(s, order), s.processes[p].op);
  }

  predicate Commits(s: System, p: Pid, c: Choice) {
    p in s.processes && p !in s.crashed && c.Proceed? && s.processes[p].stage.Prepared?
  }

  lemma CommitInv(less: Order, s: System, p: Pid, c: Choice, order: seq<Pid>)
    requires Inv(less, s, order) && Commits(s, p, c)
    ensures Inv(less, Step(less, s, p, c), order + [p])
  {
    CommitExtends(less, s, p, c.data, order);
    var s' := Step(less, s, p, c);
    OpsUnchanged(s, s', p, order + [p]);
  }

  /** A step that commits nothing leaves the metadata and the completed operations alone. */
  lemma QuietStep(less: Order, s: System, p: Pid, c: Choice)
    requires !Commits(s, p, c)
    ensures var s' := Step(less, s, p, c);
            && s'.metadata == s.metadata
            && (p in s.processes ==>
                  && (Completed(s'.processes[p].stage) == Completed(s.processes[p].stage))
                  && (s'.processes[p].stage.Loaded? && s'.processes[p] != s.processes[p] ==> s'.processes[p].stage.snapshot == s.metadata)
                  && (s'.processes[p].stage.Prepared? && s'.processes[p] != s.processes[p] ==>
                        s.processes[p].stage.Loaded? && s'.processes[p].stage.snapshot == s.processes[p].stage.snapshot))
  {
  }

  lemma OwnLock(less: Order, s: System, p: Pid, c: Choice)
    requires p in s.processes && (Holding(s.processes[p].stage) ==> s.lock == Some(p))
    ensures var s' := Step(less, s, p, c);
            && p in s'.processes
            && (Holding(s'.processes[p].stage) ==> s'.lock == Some(p))
            && (s.lock.Some? && s.lock != Some(p) ==> s'.lock == s.lock)
  {
  }

  /** The lock belongs to whoever is holding it. */
  lemma LockKept(less: Order, s: System, p: Pid, c: Choice, q: Pid)
    requires forall r :: r in s.processes && Holding(s.processes[r].stage) ==> s.lock == Some(r)
    requires q in s.processes && q in Step(less, s, p, c).processes && Holding(Step(less, s, p, c).processes[q].stage)
    ensures Step(less, s, p, c).lock == Some(q)
  {
    StepIsLocal(less, s, p, c);
    if p in s.processes {
      OwnLock(less, s, p, c);
    }
  }

  lemma QuietInv(less: Order, s: System, p: Pid, c: Choice, order: seq<Pid>)
    requires Inv(less, s, order) && !Commits(s, p, c)
    ensures Inv(less, Step(less, s, p, c), order)
  {
    var s' := Step(less, s, p, c);
    StepIsLocal(less, s, p, c);
    QuietStep(less, s, p, c);
    OpsUnchanged(s, s', p, order);
    forall q | q in s'.processes && Holding(s'.processes[q].stage) ensures s'.lock == Some(q) {
      LockKept(less, s, p, c, q);
    }
  }

  lemma StepInv(less: Order, s: System, p: Pid, c: Choice, order: seq<Pid>)
    requires Inv(less, s, order)
    ensures Inv(less, Step(less, s, p, c), NextOrder(s, order, p, c))
  {
    if Commits(s, p, c) {
      CommitInv(less, s, p, c, order);
    } else {
      QuietInv(less, s, p, c, order);
    }
  }

  /** For every interleaving of operations with failures and crashes, the metadata is the result of the
      completed operations in some sequential order: no update is lost. */
  lemma {:induction false} Serialisable(less: Order, s: System, events: seq<(Pid, Choice)>, order: seq<Pid>) returns (order': seq<Pid>)
    requires Inv(less, s, order)
    ensures Inv(less, Run(less, s, events), order') && order <= order'
    decreases |events|
  {
    if events == [] {
      order' := order;
    } else {
      StepInv(less, s, events[0].0, events[0].1, order);
      order' := Serialisable(less, Step(less, s, events[0].0, events[0].1), events[1..], NextOrder(s, order, events[0].0, events[0].1));
    }
  }

  lemma MetadataIsSerial(less: Order, first: System, events: seq<(Pid, Choice)>) returns (order: seq<Pid>)
    requires StrictTotal(less) && Init(first)
    ensures SerialOrder(less, Run(less, first, events), order)
    ensures WellFormed(less, Run(less, first, events).metadata)
  {
    assert OpsOf(first, []) == [];
    order := Serialisable(less, first, events, []);
    ApplyAllWellFormed(less, OpsOf(Run(less, first, events), order));
  }

  // ---------- Credential files and the live credentials ----------

  datatype Credentials = Credentials(files: map<Slot, Data>, live: Data)

  function CredentialsOf(s: System): Credentials {
    Credentials(s.files, s.live)
  }

  /** What an operation does to the credentials. */
  function Effect(c: Credentials, op: Op, data: Data): Credentials {
    match op
    case Add(slot, _) => c.(files := c.files[slot := data])
    case Use(slot, _) => if slot in c.files then c.(live := c.files[slot]) else c
    case _ => c
  }

  function EffectAll(first: Credentials, writes: seq<(Op, Data)>): Credentials {
    if writes == [] then first
    else
      var (op, data) := writes[|writes| - 1];
      Effect(EffectAll(first, writes[..|writes| - 1]), op, data)
  }

  /** Every use made live what it found in the file of its slot. */
  ghost predicate ReadsFiles(first: Credentials, writes: seq<(Op, Data)>)
    decreases |writes|
  {
    writes == [] ||
    var init, (op, data) := writes[..|writes| - 1], writes[|writes| - 1];
    && ReadsFiles(first, init)
    && (op.Use? ==> var c := EffectAll(first, init); op.slot in c.files && c.files[op.slot] == data)
  }

  function WritesOf(s: System, writers: seq<Pid>): seq<(Op, Data)>
    requires forall p :: p in writers ==> p in s.processes && s.processes[p].wrote.Some?
  {
    seq(|writers|, i requires 0 <= i < |writers| => (s.processes[writers[i]].op, s.processes[writers[i]].wrote.value))
  }

  /** Of the writers, those whose operation completed, in the same order. */
  function CompletedOf(s: System, writers: seq<Pid>): seq<Pid>
    requires forall p :: p in writers ==> p in s.processes
  {
    if writers == [] then []
    else
      var n := |writers| - 1;
      CompletedOf(s, writers[..n]) + if Completed(s.processes[writers[n]].stage) then [writers[n]] else []
  }

  predicate HasWritten(stage: Stage) {
    stage.Prepared? || stage.Committed? || stage.Done?
  }

  /** The writers once each, and the credentials as what they make of the first ones, in that order. */
  ghost predicate WriteOrder(s: System, first: Credentials, writers: seq<Pid>) {
    && (forall p :: p in writers <==> p in s.processes && s.processes[p].wrote.Some?)
    && (forall i, j :: 0 <= i < j < |writers| ==> writers[i] != writers[j])
    && CredentialsOf(s) == EffectAll(first, WritesOf(s, writers))
    && ReadsFiles(first, WritesOf(s, writers))
  }

  ghost predicate Stages(s: System, writers: seq<Pid>) {
    && (forall p :: p in s.processes && !HasWritten(s.processes[p].stage) && !s.processes[p].stage.Aborted? ==> s.processes[p].wrote.None?)
    && (forall p :: p in s.processes && HasWritten(s.processes[p].stage) ==> s.processes[p].wrote.Some?)
    && (forall p :: p in s.processes && s.processes[p].stage.Prepared? ==> writers != [] && writers[|writers| - 1] == p)
  }

  ghost predicate CredInv(less: Order, s: System, first: Credentials, writers: seq<Pid>) {
    && WriteOrder(s, first, writers) && Stages(s, writers)
    && Inv(less, s, CompletedOf(s, writers))
  }

  predicate Writes(s: System, p: Pid, c: Choice) {
    && p in s.processes && p !in s.crashed && c.Proceed? && s.processes[p].stage.Loaded?
    && (s.processes[p].op.Use? ==> s.processes[p].op.slot in s.files)
  }

  function NextWriters(s: System, writers: seq<Pid>, p: Pid, c: Choice): seq<Pid> {
    if Writes(s, p, c) then writers + [p] else writers
  }

  lemma {:induction false} CompletedSame(s: System, s': System, writers: seq<Pid>)
    requires forall q :: q in writers ==>
               q in s.processes && q in s'.processes && Completed(s'.processes[q].stage) == Completed(s.processes[q].stage)
    ensures CompletedOf(s', writers) == CompletedOf(s, writers)
    decreases |writers|
  {
    if writers != [] {
      assert forall q :: q in writers[..|writers| - 1] ==> q in writers;
      CompletedSame(s, s', writers[..|writers| - 1]);
    }
  }

  lemma WritesSame(s: System, s': System, writers: seq<Pid>)
    requires forall q :: q in writers ==>
               && q in s.processes && q in s'.processes && s.processes[q].wrote.Some?
               && s'.processes[q].op == s.processes[q].op && s'.processes[q].wrote == s.processes[q].wrote
    ensures WritesOf(s', writers) == WritesOf(s, writers)
  {
  }

  lemma EffectSnoc(first: Credentials, writes: seq<(Op, Data)>, op: Op, data: Data)
    ensures EffectAll(first, writes + [(op, data)]) == Effect(EffectAll(first, writes), op, data)
    ensures ReadsFiles(first, writes + [(op, data)]) <==>
            && ReadsFiles(first, writes)
            && (op.Use? ==> var c := EffectAll(first, writes); op.slot in c.files && c.files[op.slot] == data)
  {
    assert (writes + [(op, data)])[..|writes|] == writes;
  }

  lemma OwnWrite(less: Order, s: System, p: Pid, c: Choice)
    requires p in s.processes && !Writes(s, p, c)
    ensures var s' := Step(less, s, p, c);
            p in s'.processes && s'.processes[p].wrote == s.processes[p].wrote && CredentialsOf(s') == CredentialsOf(s)
  {
  }

  lemma StepKeepsWrites(less: Order, s: System, p: Pid, c: Choice)
    ensures var s' := Step(less, s, p, c);
            && StepsAlone(s, s', p)
            && (!Writes(s, p, c) ==>
                  && CredentialsOf(s') == CredentialsOf(s)
                  && (p in s.processes ==> s'.processes[p].wrote == s.processes[p].wrote))
  {
    StepIsLocal(less, s, p, c);
    if p in s.processes && !Writes(s, p, c) {
      OwnWrite(less, s, p, c);
    }
  }

  lemma WriteEffect(less: Order, s: System, p: Pid, c: Choice)
    requires Writes(s, p, c)
    ensures var s' := Step(less, s, p, c);
            && s'.processes[p].wrote.Some?
            && var op, data := s.processes[p].op, s'.processes[p].wrote.value;
               && CredentialsOf(s') == Effect(CredentialsOf(s), op, data)
               && (op.Use? ==> op.slot in s.files && s.files[op.slot] == data)
  {
  }

  /** The step that writes credentials. */
  lemma WriteStep(less: Order, s: System, first: Credentials, p: Pid, c: Choice, writers: seq<Pid>)
    requires WriteOrder(s, first, writers) && Stages(s, writers) && Writes(s, p, c)
    ensures WriteOrder(Step(less, s, p, c), first, writers + [p])
  {
    var s' := Step(less, s, p, c);
    WriteEffect(less, s, p, c);
    StepKeepsWrites(less, s, p, c);
    var op, data := s'.processes[p].op, s'.processes[p].wrote.value;
    assert p !in writers;
    WritesSame(s, s', writers);
    assert WritesOf(s', writers + [p]) == WritesOf(s', writers) + [(op, data)];
    EffectSnoc(first, WritesOf(s, writers), op, data);
  }

  lemma QuietWrite(less: Order, s: System, first: Credentials, p: Pid, c: Choice, writers: seq<Pid>)
    requires WriteOrder(s, first, writers) && !Writes(s, p, c)
    ensures WriteOrder(Step(less, s, p, c), first, writers)
  {
    StepKeepsWrites(less, s, p, c);
    WritesSame(s, Step(less, s, p, c), writers);
  }

  /** What a process has written fits its stage, and it writes and commits only under the lock. */
  lemma OwnStage(less: Order, s: System, p: Pid, c: Choice)
    requires p in s.processes
    requires HasWritten(s.processes[p].stage) ==> s.processes[p].wrote.Some?
    requires !HasWritten(s.processes[p].stage) && !s.processes[p].stage.Aborted? ==> s.processes[p].wrote.None?
    ensures var s' := Step(less, s, p, c);
            && p in s'.processes
            && (HasWritten(s'.processes[p].stage) ==> s'.processes[p].wrote.Some?)
            && (!HasWritten(s'.processes[p].stage) && !s'.processes[p].stage.Aborted? ==> s'.processes[p].wrote.None?)
            && (s'.processes[p].stage.Prepared? ==> Writes(s, p, c) || s.processes[p].stage.Prepared?)
  {
  }

  /** While one process is between its write and its commit, no other writes. */
  lemma StagesStep(less: Order, s: System, p: Pid, c: Choice, writers: seq<Pid>)
    requires Stages(s, writers) && (forall q :: q in s.processes && Holding(s.processes[q].stage) ==> s.lock == Some(q))
    ensures Stages(Step(less, s, p, c), NextWriters(s, writers, p, c))
  {
    StepIsLocal(less, s, p, c);
    if p in s.processes {
      OwnStage(less, s, p, c);
    }
  }

  lemma CredStep(less: Order, s: System, first: Credentials, p: Pid, c: Choice, writers: seq<Pid>)
    requires CredInv(less, s, first, writers)
    ensures CredInv(less, Step(less, s, p, c), first, NextWriters(s, writers, p, c))
  {
    var s' := Step(less, s, p, c);
    StagesStep(less, s, p, c, writers);
    StepInv(less, s, p, c, CompletedOf(s, writers));
    if Writes(s, p, c) {
      WriteStep(less, s, first, p, c, writers);
    } else {
      QuietWrite(less, s, first, p, c, writers);
    }
    CompletedNext(less, s, p, c, writers);
  }

  lemma CompletedNext(less: Order, s: System, p: Pid, c: Choice, writers: seq<Pid>)
    requires Stages(s, writers) && forall q :: q in writers <==> q in s.processes && s.processes[q].wrote.Some?
    requires forall i, j :: 0 <= i < j < |writers| ==> writers[i] != writers[j]
    ensures var s', writers' := Step(less, s, p, c), NextWriters(s, writers, p, c);
            && (forall q :: q in writers' ==> q in s'.processes)
            && CompletedOf(s', writers') == NextOrder(s, CompletedOf(s, writers), p, c)
  {
    StepIsLocal(less, s, p, c);
    if Writes(s, p, c) {
      CompletedAtWrite(less, s, p, c, writers);
    } else if Commits(s, p, c) {
      CompletedAtCommit(less, s, p, c, writers);
    } else {
      QuietStep(less, s, p, c);
      CompletedSame(s, Step(less, s, p, c), writers);
    }
  }

  lemma CompletedAtWrite(less: Order, s: System, p: Pid, c: Choice, writers: seq<Pid>)
    requires Writes(s, p, c) && forall q :: q in writers ==> q in s.processes
    ensures var s' := Step(less, s, p, c);
            && (forall q :: q in writers + [p] ==> q in s'.processes)
            && CompletedOf(s', writers + [p]) == CompletedOf(s, writers)
  {
    var s' := Step(less, s, p, c);
    StepIsLocal(less, s, p, c);
    QuietStep(less, s, p, c);
    assert (writers + [p])[..|writers|] == writers;
    CompletedSame(s, s', writers);
  }

  lemma CompletedAtCommit(less: Order, s: System, p: Pid, c: Choice, writers: seq<Pid>)
    requires Commits(s, p, c) && (forall q :: q in writers ==> q in s.processes)
    requires writers != [] && writers[|writers| - 1] == p && forall i :: 0 <= i < |writers| - 1 ==> writers[i] != p
    ensures var s' := Step(less, s, p, c);
            && (forall q :: q in writers ==> q in s'.processes)
            && CompletedOf(s', writers) == CompletedOf(s, writers) + [p]
  {
    var s', init := Step(less, s, p, c), writers[..|writers| - 1];
    StepIsLocal(less, s, p, c);
    assert forall q :: q in init ==> q in writers;
    CompletedSame(s, s', init);
  }

  lemma {:induction false} CredRun(less: Order, s: System, first: Credentials, events: seq<(Pid, Choice)>, writers: seq<Pid>)
    returns (writers': seq<Pid>)
    requires CredInv(less, s, first, writers)
    ensures CredInv(less, Run(less, s, events), first, writers') && writers <= writers'
    decreases |events|
  {
    if events == [] {
      writers' := writers;
    } else {
      var (p, c) := events[0];
      CredStep(less, s, first, p, c, writers);
      writers' := CredRun(less, Step(less, s, p, c), first, events[1..], NextWriters(s, writers, p, c));
    }
  }

  /** For every interleaving there is one order of the operations that wrote credentials such that credential
      files and live credentials are what all of them make of the first ones, and the metadata what those of them
      that completed make of nothing.  If all that wrote completed, the whole store is the result of one
      sequential run. */
  lemma StoreIsSerial(less: Order, first: System, events: seq<(Pid, Choice)>) returns (writers: seq<Pid>)
    requires StrictTotal(less) && Init(first)
    ensures var s := Run(less, first, events);
            && WriteOrder(s, CredentialsOf(first), writers)
            && SerialOrder(less, s, CompletedOf(s, writers))
            && ((forall p :: p in writers ==> Completed(s.processes[p].stage)) ==> SerialOrder(less, s, writers))
  {
    assert WritesOf(first, []) == [] && OpsOf(first, []) == [] && CompletedOf(first, []) == [];
    writers := CredRun(less, first, CredentialsOf(first), events, []);
    var s := Run(less, first, events);
    if forall p :: p in writers ==> Completed(s.processes[p].stage) {
      AllCompleted(s, writers);
    }
  }

  lemma {:induction false} AllCompleted(s: System, writers: seq<Pid>)
    requires forall p :: p in writers ==> p in s.processes && Completed(s.processes[p].stage)
    ensures CompletedOf(s, writers) == writers
    decreases |writers|
  {
    if writers != [] {
      var n := |writers| - 1;
      var init := writers[..n];
      assert writers == init + [writers[n]];
      AllCompleted(s, init);
    }
  }

  lemma {:induction false} FileOfLastAdd(first: Credentials, writes: seq<(Op, Data)>, k: nat)
    requires k < |writes| && writes[k].0.Add?
    requires forall i :: k < i < |writes| && writes[i].0.Add? ==> writes[i].0.slot != writes[k].0.slot
    ensures var c := EffectAll(first, writes); writes[k].0.slot in c.files && c.files[writes[k].0.slot] == writes[k].1
    decreases |writes|
  {
    var n := |writes| - 1;
    if k < n {
      FileOfLastAdd(first, writes[..n], k);
    }
  }

  lemma {:induction false} LiveOfLastUse(first: Credentials, writes: seq<(Op, Data)>, k: nat)
    requires ReadsFiles(first, writes) && k < |writes| && writes[k].0.Use?
    requires forall i :: k < i < |writes| ==> !writes[i].0.Use?
    ensures EffectAll(first, writes).live == writes[k].1
    decreases |writes|
  {
    var n := |writes| - 1;
    if k < n {
      LiveOfLastUse(first, writes[..n], k);
    }
  }

  /** A slot's file holds what the last operation to add the slot wrote. */
  lemma AddedIsStored(s: System, first: Credentials, writers: seq<Pid>, k: nat)
    requires WriteOrder(s, first, writers) && k < |writers| && s.processes[writers[k]].op.Add?
    requires forall i :: k < i < |writers| && s.processes[writers[i]].op.Add? ==>
               s.processes[writers[i]].op.slot != s.processes[writers[k]].op.slot
    ensures var slot := s.processes[writers[k]].op.slot;
            slot in s.files && Some(s.files[slot]) == s.processes[writers[k]].wrote
  {
    FileOfLastAdd(first, WritesOf(s, writers), k);
  }

  /** The live credentials are those the last operation to use a slot found in its file. */
  lemma UsedIsLive(s: System, first: Credentials, writers: seq<Pid>, k: nat)
    requires WriteOrder(s, first, writers) && k < |writers| && s.processes[writers[k]].op.Use?
    requires forall i :: k < i < |writers| ==> !s.processes[writers[i]].op.Use?
    ensures Some(s.live) == s.processes[writers[k]].wrote
  {
    LiveOfLastUse(first, WritesOf(s, writers), k);
  }

  // ---------- Progress ----------

  /** n undisturbed steps of one process, which reads `data` if it reads anything. */
  function Alone(less: Order, s: System, p: Pid, data: Data, n: nat): System
    decreases n
  {
    if n == 0 then s else Alone(less, Step(less, s, p, Proceed(data)), p, data, n - 1)
  }

  lemma {:induction false} FinishedStays(less: Order, s: System, p: Pid, data: Data, n: nat)
    requires p in s.processes
    requires s.processes[p].stage.Done? || s.processes[p].stage.Aborted? || (s.processes[p].stage.Waiting? && s.lock.Some?)
    ensures Alone(less, s, p, data, n) == s
  {
    if n > 0 {
      FinishedStays(less, s, p, data, n - 1);
    }
  }

  /** The store after an operation that was not disturbed. */
  ghost predicate TookEffect(less: Order, s: System, s': System, p: Pid, data: Data)
    requires p in s.processes
  {
    var op := s.processes[p].op;
    && s'.lock.None? && p in s'.processes
    && if op.Use? && op.slot !in s.files then
         s'.processes[p].stage.Aborted? && s'.metadata == s.metadata && s'.files == s.files && s'.live == s.live
       else
         && s'.processes[p].stage.Done? && s'.metadata == Apply(less, s.metadata, op)
         && s'.files == (if op.Add? then s.files[op.slot := data] else s.files)
         && s'.live == (if op.Use? then s.files[op.slot] else s.live)
  }

  lemma CompletesWhenLoaded(less: Order, s: System, p: Pid, data: Data, n: nat)
    requires p in s.processes && p !in s.crashed && s.processes[p].stage == Loaded(s.metadata) && n >= 3
    ensures TookEffect(less, s, Alone(less, s, p, data, n), p, data)
  {
    var s1 := Step(less, s, p, Proceed(data));
    if s1.processes[p].stage.Aborted? {
      FinishedStays(less, s1, p, data, n - 1);
    } else {
      var s2 := Step(less, s1, p, Proceed(data));
      var s3 := Step(less, s2, p, Proceed(data));
      assert Alone(less, s1, p, data, n - 1) == Alone(less, s2, p, data, n - 2) == Alone(less, s3, p, data, n - 3);
      FinishedStays(less, s3, p, data, n - 3);
    }
  }

  /** From any state in which the lock is free, an operation that is not disturbed takes effect and lets go of the lock,
      unless it uses a slot that has no credentials: then it changes nothing. */
  lemma OperationCompletes(less: Order, s: System, p: Pid, data: Data, n: nat)
    requires p in s.processes && p !in s.crashed && s.processes[p].stage.Waiting? && s.lock.None? && n >= 5
    ensures TookEffect(less, s, Alone(less, s, p, data, n), p, data)
  {
    var s1 := Step(less, s, p, Proceed(data));
    var s2 := Step(less, s1, p, Proceed(data));
    assert Alone(less, s, p, data, n) == Alone(less, s1, p, data, n - 1) == Alone(less, s2, p, data, n - 2);
    CompletesWhenLoaded(less, s2, p, data, n - 2);
  }

  /** The lock changes hands only when it is free, and is only let go by its owner: at the end, or on an error, which
      leaves what is committed committed.  Who stops without either leaves it behind. */
  lemma LockIsOwned(less: Order, s: System, p: Pid, c: Choice, order: seq<Pid>)
    requires Inv(less, s, order)
    ensures var s' := Step(less, s, p, c);
            && (s.lock.Some? && s.lock.value != p ==> s'.lock == s.lock)
            && (p in s.processes && p !in s.crashed && Holding(s.processes[p].stage) && c.Fail? ==>
                  s'.lock.None? && s'.metadata == s.metadata
                  && (if s.processes[p].stage.Committed? then s'.processes[p].stage.Done? else s'.processes[p].stage.Aborted?))
            && (c.Crash? ==> s'.lock == s.lock && s'.metadata == s.metadata)
            && (p in s.crashed ==> s' == s)
  {
  }

  // ---------- One process at a time ----------

  class Store {
    const less: Order
    var metadata: Metadata
    var files: map<Slot, Data>
    var live: Data

    constructor (less: Order, live: Data)
      ensures metadata == EMPTY && files == map[] && this.live == live && this.less == less
    {
      this.less, this.live := less, live;
      metadata, files := EMPTY, map[];
    }

    /** The record of a slot, updated or created; the result is its index. */
    method UpsertSlotRecord(slot: Slot, now: Time) returns (i: nat)
      requires StrictTotal(less) && WellFormed(less, metadata)
      modifies this`metadata
      ensures metadata == old(metadata).(slots := Upsert(less, old(metadata.slots), slot, now))
      ensures i == IndexOf(metadata.slots, slot) && i < |metadata.slots|
    {
      UpsertKeeps(less, metadata.slots, slot, now, slot);
      i := 0;
      while i < |metadata.slots| && metadata.slots[i].slot != slot
        invariant 0 <= i <= |metadata.slots|
        invariant forall j :: 0 <= j < i ==> metadata.slots[j].slot != slot
      {
        i := i + 1;
      }
      assert i == IndexOf(metadata.slots, slot);
      if i < |metadata.slots| {
        IndexOfReplaced(metadata.slots, i, metadata.slots[i].(updatedAt := now), slot);
        metadata := metadata.(slots := metadata.slots[i := metadata.slots[i].(updatedAt := now)]);
        return;
      }
      metadata := metadata.(slots := metadata.slots + [SlotRecord(slot, now, now, None, None, None)]);
      metadata := metadata.(slots := SortRecords(less, metadata.slots));
      i := IndexOf(metadata.slots, slot);
    }

    method AddSlot(slot: Slot, data: Data, now: Time)
      requires StrictTotal(less) && WellFormed(less, metadata)
      modifies this
      ensures metadata == Apply(less, old(metadata), Add(slot, now)) && WellFormed(less, metadata)
      ensures files == old(files)[slot := data] && live == old(live)
    {
      ApplyKeepsWellFormed(less, metadata, Add(slot, now));
      files := files[slot := data];
      var i := UpsertSlotRecord(slot, now);
      assert metadata.slots[i := metadata.slots[i]] == metadata.slots;
    }

    /** Refuses a slot without a credential file; otherwise makes it current and live. */
    method UseSlot(slot: Slot, now: Time) returns (ok: bool)
      requires StrictTotal(less) && WellFormed(less, metadata)
      modifies this
      ensures ok == (slot in old(files)) && files == old(files)
      ensures !ok ==> metadata == old(metadata) && live == old(live)
      ensures ok ==> metadata == Apply(less, old(metadata), Use(slot, now)) && live == files[slot]
      ensures WellFormed(less, metadata)
    {
      if slot !in files {
        return false;
      }
      ApplyKeepsWellFormed(less, metadata, Use(slot, now));
      live := files[slot];
      var i := UpsertSlotRecord(slot, now);
      metadata := Metadata(Some(slot), metadata.slots[i := metadata.slots[i].(lastUsedAt := Some(now), exhaustedAt := None)]);
      return true;
    }

    method MarkSlotQuota(slot: Slot, now: Time)
      requires StrictTotal(less) && WellFormed(less, metadata)
      modifies this`metadata
      ensures metadata == Apply(less, old(metadata), MarkQuota(slot, now)) && WellFormed(less, metadata)
    {
      ApplyKeepsWellFormed(less, metadata, MarkQuota(slot, now));
      var i := UpsertSlotRecord(slot, now);
      metadata := metadata.(slots := metadata.slots[i := metadata.slots[i].(lastQuotaAt := Some(now), exhaustedAt := Some(now))]);
    }

    method ClearSlotExhaustion(slot: Slot)
      requires StrictTotal(less) && WellFormed(less, metadata)
      modifies this`metadata
      ensures metadata == Apply(less, old(metadata), Clear(slot)) && WellFormed(less, metadata)
    {
      ApplyKeepsWellFormed(less, metadata, Clear(slot));
      var i := 0;
      while i < |metadata.slots|
        invariant 0 <= i <= |metadata.slots|
        invariant forall j :: 0 <= j < i ==> metadata.slots[j].slot != slot
        invariant metadata == old(metadata)
      {
        if metadata.slots[i].slot == slot {
          assert i == IndexOf(metadata.slots, slot);
          metadata := metadata.(slots := metadata.slots[i := metadata.slots[i].(exhaustedAt := None)]);
          return;
        }
        i := i + 1;
      }
      assert i == IndexOf(metadata.slots, slot);
    }
  }
}
