/** The sequential mission runner: what run, mark, resume and rerun leave on disk, interrupted or not. */
module MissionQueue {
  import opened Prelude

  datatype Status = Pending | Planned | Running | Passed | Failed | Skipped | Blocked | NeedsReview

  datatype Task = Task(id: string, prompt: string, status: Status, exitCode: Option<int>)

  datatype Overall = NotStarted | InProgress | AllPassed | SomeFailed | SomeBlocked | SomeNeedReview

  datatype Counts = Counts(total: nat, planned: nat, passed: nat, failed: nat, skipped: nat, blocked: nat, needsReview: nat)

  datatype Summary = Summary(status: Overall, counts: Counts, tasks: seq<Task>)

  // ---------- Reports ----------

  function CountOf(tasks: seq<Task>, s: Status): (n: nat)
    ensures n <= |tasks|
    decreases |tasks|
  {
    if tasks == [] then 0
    else CountOf(tasks[..|tasks| - 1], s) + if tasks[|tasks| - 1].status == s then 1 else 0
  }

  function CountsOf(tasks: seq<Task>): Counts {
    Counts(|tasks|, CountOf(tasks, Planned), CountOf(tasks, Passed), CountOf(tasks, Failed), CountOf(tasks, Skipped),
           CountOf(tasks, Blocked), CountOf(tasks, NeedsReview))
  }

  predicate AnyIs(tasks: seq<Task>, s: Status) {
    exists i :: 0 <= i < |tasks| && tasks[i].status == s
  }

  predicate AllAre(tasks: seq<Task>, s: Status) {
    forall i :: 0 <= i < |tasks| ==> tasks[i].status == s
  }

  function OverallOf(tasks: seq<Task>): Overall {
    if AnyIs(tasks, Running) then InProgress
    else if AnyIs(tasks, Blocked) then SomeBlocked
    else if AnyIs(tasks, NeedsReview) then SomeNeedReview
    else if AnyIs(tasks, Failed) then SomeFailed
    else if |tasks| > 0 && AllAre(tasks, Passed) then AllPassed
    else NotStarted
  }

  function Report(tasks: seq<Task>): Summary {
    Summary(OverallOf(tasks), CountsOf(tasks), tasks)
  }

  function ReportRunning(tasks: seq<Task>): Summary {
    Summary(InProgress, CountsOf(tasks), tasks)
  }

  /** The reported counts, with the pending and running tasks they leave out, add up to the total. */
  lemma {:induction false} CountsAddUp(tasks: seq<Task>)
    ensures var c := CountsOf(tasks);
            c.planned + c.passed + c.failed + c.skipped + c.blocked + c.needsReview
            + CountOf(tasks, Pending) + CountOf(tasks, Running) == c.total
    decreases |tasks|
  {
    if tasks != [] {
      CountsAddUp(tasks[..|tasks| - 1]);
    }
  }

  /** A mission is reported passed iff it has tasks and all of them passed. */
  lemma PassedIff(tasks: seq<Task>)
    ensures OverallOf(tasks) == AllPassed <==> tasks != [] && CountsOf(tasks).passed == |tasks|
  {
    CountIsAll(tasks, Passed);
    if tasks != [] && AllAre(tasks, Passed) {
      assert tasks[0].status == Passed;
    }
  }

  lemma {:induction false} CountIsAll(tasks: seq<Task>, s: Status)
    ensures CountOf(tasks, s) == |tasks| <==> AllAre(tasks, s)
    decreases |tasks|
  {
    if tasks != [] {
      var init := tasks[..|tasks| - 1];
      CountIsAll(init, s);
      assert AllAre(tasks, s) <==> AllAre(init, s) && tasks[|tasks| - 1].status == s;
    }
  }

  lemma {:induction false} CountIsPositive(tasks: seq<Task>, s: Status)
    ensures CountOf(tasks, s) > 0 <==> AnyIs(tasks, s)
    decreases |tasks|
  {
    if tasks != [] {
      var n := |tasks| - 1;
      CountIsPositive(tasks[..n], s);
      if AnyIs(tasks[..n], s) {
        var i :| 0 <= i < n && tasks[..n][i].status == s;
        assert tasks[i].status == s;
      }
      if tasks[n].status == s {
        assert AnyIs(tasks, s);
      }
    }
  }

  /** What is reported, by the counts: in progress if a task runs, else blocked if one is, else in need of review if
      one is, else failed if one is; planned is all that is left. */
  lemma StatusIff(tasks: seq<Task>)
    ensures var status, c := OverallOf(tasks), CountsOf(tasks);
            && (status == InProgress <==> CountOf(tasks, Running) > 0)
            && (status == SomeBlocked <==> CountOf(tasks, Running) == 0 && c.blocked > 0)
            && (status == SomeNeedReview <==> CountOf(tasks, Running) == 0 && c.blocked == 0 && c.needsReview > 0)
            && (status == SomeFailed <==> CountOf(tasks, Running) == 0 && c.blocked == 0 && c.needsReview == 0 && c.failed > 0)
            && (status == AllPassed <==> tasks != [] && c.passed == |tasks|)
  {
    CountIsPositive(tasks, Running);
    CountIsPositive(tasks, Blocked);
    CountIsPositive(tasks, NeedsReview);
    CountIsPositive(tasks, Failed);
    PassedIff(tasks);
  }

  // ---------- One pass over the tasks ----------

  type Choice = Task -> bool

  /** A pass over the tasks; codes(i) is the exit code task i gives when it is executed. */
  datatype Pass = Pass(tasks: seq<Task>, chosen: Choice, continueOnError: bool, codes: nat -> int)

  /** Whether a selected task before the i-th fails. */
  predicate Broken(p: Pass, i: nat) {
    exists j :: 0 <= j < i && j < |p.tasks| && p.chosen(p.tasks[j]) && p.codes(j) != 0
  }

  /** The tasks a pass executes. */
  predicate Executed(p: Pass, i: nat)
    requires i < |p.tasks|
  {
    p.chosen(p.tasks[i]) && (p.continueOnError || !Broken(p, i))
  }

  function Finished(t: Task, code: int): Task {
    t.(status := if code == 0 then Passed else Failed, exitCode := Some(code))
  }

  function Started(t: Task): Task {
    t.(status := Running, exitCode := None)
  }

  function SkippedOver(t: Task): Task {
    t.(status := Skipped, exitCode := None)
  }

  /** A task after the pass. */
  function Final(p: Pass, i: nat): Task
    requires i < |p.tasks|
  {
    if Executed(p, i) then Finished(p.tasks[i], p.codes(i))
    else if p.chosen(p.tasks[i]) then SkippedOver(p.tasks[i])
    else p.tasks[i]
  }

  /** The tasks when the pass has dealt with the first n. */
  function After(p: Pass, n: nat): (r: seq<Task>)
    requires n <= |p.tasks|
    ensures |r| == |p.tasks|
    ensures forall i :: 0 <= i < |r| ==> r[i] == if i < n then Final(p, i) else p.tasks[i]
  {
    seq(|p.tasks|, i requires 0 <= i < |p.tasks| => if i < n then Final(p, i) else p.tasks[i])
  }

  function StartOf(p: Pass, i: nat): Summary
    requires i < |p.tasks|
  {
    ReportRunning(After(p, i)[i := Started(p.tasks[i])])
  }

  function EndOf(p: Pass, i: nat): Summary
    requires i < |p.tasks|
  {
    Report(After(p, i + 1))
  }

  /** What the pass writes to disk while it deals with the first n tasks. */
  function Writes(p: Pass, n: nat): seq<Summary>
    requires n <= |p.tasks|
  {
    if n == 0 then [] else Writes(p, n - 1) + if Executed(p, n - 1) then [StartOf(p, n - 1), EndOf(p, n - 1)] else []
  }

  /** Without continue-on-error a failing task is the only one: every later selected task is skipped unexecuted. */
  lemma FailureStopsThePass(p: Pass, i: nat, j: nat)
    requires i < |p.tasks| && j < |p.tasks| && !p.continueOnError && Executed(p, i) && p.codes(i) != 0
    ensures i < j && p.chosen(p.tasks[j]) ==> !Executed(p, j) && Final(p, j) == SkippedOver(p.tasks[j])
    ensures Executed(p, j) && p.codes(j) != 0 ==> j == i
  {
    assert i < j ==> Broken(p, j);
  }

  /** Every write of a pass shows it when it starts a task it executes or has finished one. */
  lemma {:induction false} WriteShape(p: Pass, n: nat, k: nat) returns (i: nat)
    requires n <= |p.tasks| && k < |Writes(p, n)|
    ensures i < n && Executed(p, i) && (Writes(p, n)[k] == StartOf(p, i) || Writes(p, n)[k] == EndOf(p, i))
  {
    if k < |Writes(p, n - 1)| {
      i := WriteShape(p, n - 1, k);
    } else {
      i := n - 1;
    }
  }

  function ExecutedOnes(p: Pass, n: nat): seq<nat>
    requires n <= |p.tasks|
  {
    if n == 0 then [] else ExecutedOnes(p, n - 1) + if Executed(p, n - 1) then [n - 1] else []
  }

  lemma {:induction false} ListedInOrder(p: Pass, n: nat, k: nat)
    requires n <= |p.tasks| && k < |ExecutedOnes(p, n)|
    ensures ExecutedOnes(p, n)[k] < n && Executed(p, ExecutedOnes(p, n)[k])
    ensures forall j :: 0 <= j < k ==> ExecutedOnes(p, n)[j] < ExecutedOnes(p, n)[k]
  {
    if k < |ExecutedOnes(p, n - 1)| {
      ListedInOrder(p, n - 1, k);
    } else {
      forall j | 0 <= j < k ensures ExecutedOnes(p, n)[j] < n - 1 {
        ListedInOrder(p, n - 1, j);
      }
    }
  }

  lemma {:induction false} WritesGrow(p: Pass, i: nat, n: nat)
    requires i <= n <= |p.tasks|
    ensures Writes(p, i) <= Writes(p, n)
    decreases n
  {
    if i < n {
      WritesGrow(p, i, n - 1);
    }
  }

  /** A pass writes an executed task twice in a row, behind what it wrote before: when it starts and when it ends. */
  lemma StartThenEnd(p: Pass, i: nat)
    requires i < |p.tasks| && Executed(p, i)
    ensures Writes(p, i) + [StartOf(p, i), EndOf(p, i)] <= Writes(p, |p.tasks|)
  {
    WritesGrow(p, i + 1, |p.tasks|);
  }

  /** It writes nothing else. */
  lemma {:induction false} WritesArePairs(p: Pass, n: nat)
    requires n <= |p.tasks|
    ensures |Writes(p, n)| == 2 * |ExecutedOnes(p, n)|
  {
    if n > 0 {
      WritesArePairs(p, n - 1);
    }
  }

  /** The executed tasks are listed, each once and in order. */
  lemma {:induction false} ListedIff(p: Pass, n: nat, i: nat)
    requires i < n <= |p.tasks|
    ensures i in ExecutedOnes(p, n) <==> Executed(p, i)
  {
    if i < n - 1 {
      ListedIff(p, n - 1, i);
    } else if n - 1 in ExecutedOnes(p, n - 1) {
      var k :| 0 <= k < |ExecutedOnes(p, n - 1)| && ExecutedOnes(p, n - 1)[k] == n - 1;
      ListedInOrder(p, n - 1, k);
    }
  }

  /** The write at the start of a task shows it running, those before it done with and those after it untouched. */
  lemma StartShows(p: Pass, i: nat, j: nat)
    requires i < |p.tasks| && j < |p.tasks|
    ensures var w := StartOf(p, i);
            && w.status == InProgress && |w.tasks| == |p.tasks| && w.tasks[i].status == Running && w.tasks[i].exitCode.None?
            && (j < i ==> w.tasks[j] == EndOf(p, i).tasks[j]) && (j > i ==> w.tasks[j] == p.tasks[j])
            && EndOf(p, i).status == OverallOf(EndOf(p, i).tasks)
            && (j > i ==> EndOf(p, i).tasks[j] == p.tasks[j])
  {
  }

  // ---------- Commands ----------

  datatype Command =
    | Run(input: seq<Task>, dryRun: bool, continueOnError: bool, codes: nat -> int)
    | Mark(id: string, needsReview: bool)
    | Resume(continueOnError: bool, codes: nat -> int)
    | Rerun(id: string, continueOnError: bool, codes: nat -> int)

  datatype Error = NoRunnableTasks | NoSummary | NoSuchTask

  function Each(f: Task -> Task, tasks: seq<Task>): (r: seq<Task>)
    ensures |r| == |tasks| && forall i :: 0 <= i < |r| ==> r[i] == f(tasks[i])
  {
    seq(|tasks|, i requires 0 <= i < |tasks| => f(tasks[i]))
  }

  function Fresh(t: Task): Task {
    t.(status := Pending, exitCode := None)
  }

  function PlanOnly(t: Task): Task {
    t.(status := Planned, exitCode := None)
  }

  function Interrupted(t: Task): Task {
    if t.status == Running then t.(status := Pending) else t
  }

  predicate Always(t: Task) {
    true
  }

  predicate Resumable(t: Task) {
    t.status != Passed && t.status != Blocked && t.status != NeedsReview
  }

  function Named(id: string): Choice {
    (t: Task) => t.id == id
  }

  function FindTask(tasks: seq<Task>, id: string): (i: nat)
    ensures i <= |tasks| && (i < |tasks| ==> tasks[i].id == id) && forall j :: 0 <= j < i ==> tasks[j].id != id
  {
    if tasks == [] || tasks[0].id == id then 0 else 1 + FindTask(tasks[1..], id)
  }

  function Marked(t: Task, needsReview: bool): Task {
    t.(status := if needsReview then NeedsReview else Blocked, exitCode := None)
  }

  /** The writes of a whole pass, with those that open and close it. */
  function PassWrites(p: Pass): seq<Summary> {
    [ReportRunning(p.tasks)] + Writes(p, |p.tasks|) + [Report(After(p, |p.tasks|))]
  }

  /** The pass a command makes. */
  function PassOf(tasks: seq<Task>, c: Command): Pass
    requires !c.Mark?
  {
    match c
    case Run(input, _, continueOnError, codes) => Pass(Each(Fresh, input), Always, continueOnError, codes)
    case Resume(continueOnError, codes) => Pass(Each(Interrupted, tasks), Resumable, continueOnError, codes)
    case Rerun(id, continueOnError, codes) => Pass(Each(Interrupted, tasks), Named(id), continueOnError, codes)
  }

  /** Why a command is refused. */
  function Refusal(disk: Option<Summary>, c: Command): Option<Error> {
    match c
    case Run(input, _, _, _) => if input == [] then Some(NoRunnableTasks) else None
    case Mark(id, _) =>
      if disk.None? then Some(NoSummary)
      else if FindTask(disk.value.tasks, id) == |disk.value.tasks| then Some(NoSuchTask) else None
    case Resume(_, _) => if disk.None? then Some(NoSummary) else None
    case Rerun(id, _, _) =>
      if disk.None? then Some(NoSummary)
      else if FindTask(disk.value.tasks, id) == |disk.value.tasks| then Some(NoSuchTask) else None
  }

  /** Everything an uninterrupted command writes, in order. */
  function AllWrites(disk: Option<Summary>, c: Command): seq<Summary> {
    if Refusal(disk, c).Some? then []
    else if c.Mark? then
      var tasks := disk.value.tasks;
      var i := FindTask(tasks, c.id);
      [Report(tasks[i := Marked(tasks[i], c.needsReview)])]
    else if c.Run? && c.dryRun then
      var tasks := Each(PlanOnly, c.input);
      [Summary(NotStarted, CountsOf(tasks), tasks)]
    else PassWrites(PassOf(if disk.Some? then disk.value.tasks else [], c))
  }

  /** The disk after the first m of some writes. */
  function Reached(disk: Option<Summary>, writes: seq<Summary>, m: nat): Option<Summary> {
    if m == 0 || writes == [] then disk else Some(writes[(if m < |writes| then m else |writes|) - 1])
  }

  /** The disk after a command that gets through m of its writes. */
  function Step(disk: Option<Summary>, c: Command, m: nat): Option<Summary> {
    Reached(disk, AllWrites(disk, c), m)
  }

  /** The tasks on disk. */
  function TasksOf(disk: Option<Summary>): seq<Task> {
    if disk.Some? then disk.value.tasks else []
  }

  /** Whether a command is for a task: a run for every one, a resume for those neither passed nor blocked nor bound for
      review, a rerun for those of the name. */
  predicate IsFor(c: Command, t: Task)
    requires !c.Mark?
  {
    match c
    case Run(_, _, _, _) => true
    case Resume(_, _) => t.status in {Pending, Planned, Running, Failed, Skipped}
    case Rerun(id, _, _) => t.id == id
  }

  /** The tasks a command starts from: a run from its input, the others from those on disk. */
  function Given(disk: Option<Summary>, c: Command): seq<Task> {
    if c.Run? then c.input else TasksOf(disk)
  }

  lemma PassTasks(disk: Option<Summary>, c: Command, i: nat)
    requires !c.Mark? && i < |Given(disk, c)|
    ensures var p, t := PassOf(TasksOf(disk), c), Given(disk, c)[i];
            && |p.tasks| == |Given(disk, c)|
            && p.tasks[i].id == t.id && p.tasks[i].prompt == t.prompt && (p.chosen(p.tasks[i]) <==> IsFor(c, t))
            && (!c.Run? && t.status != Running ==> p.tasks[i] == t)
            && (!c.Run? && t.status == Running ==> p.tasks[i].status == Pending && p.tasks[i].exitCode == t.exitCode)
  {
  }

  /** A command executes exactly the tasks it is for, up to and including the first that fails, or all of them if it
      is to continue on errors; so a run executes its first task, and a rerun the first of the name. */
  lemma ExecutesIff(disk: Option<Summary>, c: Command, i: nat)
    requires !c.Mark? && i < |Given(disk, c)|
    ensures var tasks, p := Given(disk, c), PassOf(TasksOf(disk), c);
            && |p.tasks| == |tasks|
            && (Executed(p, i) <==>
                  && IsFor(c, tasks[i])
                  && (c.continueOnError || forall j :: 0 <= j < i && IsFor(c, tasks[j]) ==> c.codes(j) == 0))
            && (c.Run? && i == 0 ==> Executed(p, i))
            && (c.Rerun? && i == FindTask(tasks, c.id) ==> Executed(p, i))
  {
    var tasks, p := Given(disk, c), PassOf(TasksOf(disk), c);
    forall j | 0 <= j < |tasks| ensures p.chosen(p.tasks[j]) <==> IsFor(c, tasks[j]) {
      PassTasks(disk, c, j);
    }
    assert Broken(p, i) <==> exists j :: 0 <= j < i && IsFor(c, tasks[j]) && c.codes(j) != 0;
  }

  /** What an uninterrupted command that is not refused leaves of a task: executed, it has passed or failed by its exit
      code, which is recorded; for it but not executed, it is skipped; else it stays, or is pending if it was running.
      A dry run executes nothing and plans everything. */
  lemma CommandLeaves(disk: Option<Summary>, c: Command, i: nat)
    requires !c.Mark? && Refusal(disk, c).None? && i < |Given(disk, c)|
    ensures var end := Step(disk, c, |AllWrites(disk, c)|);
            var t := Given(disk, c)[i];
            && end.Some? && |end.value.tasks| == |Given(disk, c)|
            && var t' := end.value.tasks[i];
               && t'.id == t.id && t'.prompt == t.prompt
               && if c.Run? && c.dryRun then t'.status == Planned && t'.exitCode.None? && end.value.status == NotStarted
                  else if Executed(PassOf(TasksOf(disk), c), i) then
                    t'.status == (if c.codes(i) == 0 then Passed else Failed) && t'.exitCode == Some(c.codes(i))
                  else if IsFor(c, t) then t'.status == Skipped && t'.exitCode.None?
                  else if t.status == Running then t'.status == Pending && t'.exitCode == t.exitCode
                  else t' == t
  {
    if !(c.Run? && c.dryRun) {
      PassTasks(disk, c, i);
      LastWrite(disk, PassOf(TasksOf(disk), c));
    }
  }

  /** Marking changes the first task of that id, to the status asked for and without an exit code, and no other. */
  lemma MarkMeans(s: Summary, id: string, needsReview: bool, i: nat)
    requires i < |s.tasks| && exists j :: 0 <= j < |s.tasks| && s.tasks[j].id == id
    ensures var c := Mark(id, needsReview);
            var end := Step(Some(s), c, |AllWrites(Some(s), c)|);
            && end.Some? && |end.value.tasks| == |s.tasks| && end.value == Report(end.value.tasks)
            && if s.tasks[i].id == id && (forall j :: 0 <= j < i ==> s.tasks[j].id != id) then
                 && end.value.tasks[i].id == id && end.value.tasks[i].prompt == s.tasks[i].prompt
                 && end.value.tasks[i].status == (if needsReview then NeedsReview else Blocked)
                 && end.value.tasks[i].exitCode.None?
               else end.value.tasks[i] == s.tasks[i]
  {
    var c := Mark(id, needsReview);
    var j := FindTask(s.tasks, id);
    assert j < |s.tasks|;
    assert AllWrites(Some(s), c) == [Report(s.tasks[j := Marked(s.tasks[j], needsReview)])];
  }

  /** A run is refused iff it has no tasks, a resume iff there is no summary, mark and rerun iff there is none or none
      of its tasks has the id. */
  lemma RefusedIff(disk: Option<Summary>, c: Command)
    ensures var refusal := Refusal(disk, c);
            && (refusal == Some(NoRunnableTasks) <==> c.Run? && c.input == [])
            && (refusal == Some(NoSummary) <==> !c.Run? && disk.None?)
            && (refusal == Some(NoSuchTask) <==>
                  (c.Mark? || c.Rerun?) && disk.Some? && forall i :: 0 <= i < |disk.value.tasks| ==> disk.value.tasks[i].id != c.id)
  {
    if (c.Mark? || c.Rerun?) && disk.Some? {
      var j := FindTask(disk.value.tasks, c.id);
    }
  }

  // ---------- What every run keeps ----------

  predicate TaskSound(t: Task) {
    && (t.exitCode.Some? <==> t.status == Passed || t.status == Failed)
    && (t.status == Passed ==> t.exitCode == Some(0))
    && (t.status == Failed ==> t.exitCode != Some(0))
  }

  ghost predicate OneRunning(tasks: seq<Task>) {
    forall i, j :: 0 <= i < |tasks| && 0 <= j < |tasks| && tasks[i].status == Running && tasks[j].status == Running ==> i == j
  }

  /** A summary whose counts fit its tasks, whose exit codes fit their outcomes, and that reports progress while
      a task runs and otherwise the outcome or an unfinished pass. */
  ghost predicate Sound(s: Summary) {
    && s.counts == CountsOf(s.tasks)
    && (forall i :: 0 <= i < |s.tasks| ==> TaskSound(s.tasks[i]))
    && OneRunning(s.tasks)
    && (s.status == OverallOf(s.tasks) || s.status == InProgress)
  }

  predicate Idle(tasks: seq<Task>) {
    forall i :: 0 <= i < |tasks| ==> TaskSound(tasks[i]) && tasks[i].status != Running
  }

  lemma AfterIsIdle(p: Pass, n: nat)
    requires Idle(p.tasks) && n <= |p.tasks|
    ensures Idle(After(p, n))
  {
  }

  lemma StartIsSound(p: Pass, i: nat)
    requires Idle(p.tasks) && i < |p.tasks|
    ensures Sound(StartOf(p, i))
  {
    AfterIsIdle(p, i);
  }

  lemma IdleIsSound(tasks: seq<Task>)
    requires Idle(tasks)
    ensures Sound(Report(tasks)) && Sound(ReportRunning(tasks))
  {
  }

  /** A pass writes that it runs, the start and the end of each task it executes, and its outcome. */
  lemma PassWriteShape(p: Pass, k: nat) returns (i: nat)
    requires k < |PassWrites(p)|
    ensures var w := PassWrites(p)[k];
            || w == ReportRunning(p.tasks)
            || (i < |p.tasks| && Executed(p, i) && (w == StartOf(p, i) || w == EndOf(p, i)))
            || w == Report(After(p, |p.tasks|))
  {
    var writes := Writes(p, |p.tasks|);
    Between(ReportRunning(p.tasks), writes, Report(After(p, |p.tasks|)), k);
    i := 0;
    if 0 < k <= |writes| {
      i := WriteShape(p, |p.tasks|, k - 1);
    }
  }

  lemma Between(first: Summary, middle: seq<Summary>, last: Summary, k: nat)
    requires k < |[first] + middle + [last]|
    ensures ([first] + middle + [last])[k] == if k == 0 then first else if k <= |middle| then middle[k - 1] else last
  {
  }

  lemma EndIsSound(p: Pass, n: nat)
    requires Idle(p.tasks) && n <= |p.tasks|
    ensures Sound(Report(After(p, n)))
  {
    AfterIsIdle(p, n);
    IdleIsSound(After(p, n));
  }

  lemma ShapeIsSound(p: Pass, w: Summary, i: nat)
    requires Idle(p.tasks)
    requires w == ReportRunning(p.tasks) || (i < |p.tasks| && (w == StartOf(p, i) || w == EndOf(p, i))) || w == Report(After(p, |p.tasks|))
    ensures Sound(w)
  {
    if w == ReportRunning(p.tasks) {
      IdleIsSound(p.tasks);
    } else if w == Report(After(p, |p.tasks|)) {
      EndIsSound(p, |p.tasks|);
    } else if w == StartOf(p, i) {
      StartIsSound(p, i);
    } else {
      EndIsSound(p, i + 1);
    }
  }

  lemma PassIsSound(p: Pass, k: nat)
    requires Idle(p.tasks) && k < |PassWrites(p)|
    ensures Sound(PassWrites(p)[k])
  {
    var i := PassWriteShape(p, k);
    ShapeIsSound(p, PassWrites(p)[k], i);
  }

  lemma PlanIsSound(input: seq<Task>)
    requires input != []
    ensures var tasks := Each(PlanOnly, input); Sound(Summary(NotStarted, CountsOf(tasks), tasks))
  {
    var tasks := Each(PlanOnly, input);
    assert tasks[0].status == Planned;
  }

  lemma MarkIsSound(s: Summary, i: nat, needsReview: bool)
    requires Sound(s) && i < |s.tasks|
    ensures Sound(Report(s.tasks[i := Marked(s.tasks[i], needsReview)]))
  {
  }

  lemma PassIsIdle(tasks: seq<Task>, c: Command)
    requires !c.Mark? && forall i :: 0 <= i < |tasks| ==> TaskSound(tasks[i])
    ensures Idle(PassOf(tasks, c).tasks)
  {
  }

  /** An interrupted sequence of writes leaves the disk as it was or one of the writes. */
  lemma ReachedShape(disk: Option<Summary>, writes: seq<Summary>, m: nat) returns (k: nat)
    ensures Reached(disk, writes, m) == disk || (k < |writes| && Reached(disk, writes, m) == Some(writes[k]))
  {
    var n := |writes|;
    k := if m == 0 || n == 0 then 0 else if m < n then m - 1 else n - 1;
  }

  /** Every command, interrupted after any of its writes, leaves a sound summary. */
  lemma StepIsSound(disk: Option<Summary>, c: Command, m: nat)
    requires disk.Some? ==> Sound(disk.value)
    ensures var disk' := Step(disk, c, m); disk'.Some? ==> Sound(disk'.value)
  {
    var k := ReachedShape(disk, AllWrites(disk, c), m);
    if k < |AllWrites(disk, c)| {
      WriteIsSound(disk, c, k);
    }
  }

  lemma WriteIsSound(disk: Option<Summary>, c: Command, k: nat)
    requires (disk.Some? ==> Sound(disk.value)) && k < |AllWrites(disk, c)|
    ensures Sound(AllWrites(disk, c)[k])
  {
    if c.Mark? {
      MarkIsSound(disk.value, FindTask(disk.value.tasks, c.id), c.needsReview);
    } else if c.Run? && c.dryRun {
      PlanIsSound(c.input);
    } else {
      var tasks := if disk.Some? then disk.value.tasks else [];
      PassIsIdle(tasks, c);
      PassIsSound(PassOf(tasks, c), k);
    }
  }

  /** A command and the number of writes it gets through. */
  datatype Move = Move(command: Command, writes: nat)

  function Runs(disk: Option<Summary>, moves: seq<Move>): Option<Summary>
    decreases |moves|
  {
    if moves == [] then disk
    else
      var last := moves[|moves| - 1];
      Step(Runs(disk, moves[..|moves| - 1]), last.command, last.writes)
  }

  /** From nothing, every sequence of commands and interruptions leaves a sound summary on disk. */
  lemma {:induction false} RunsAreSound(moves: seq<Move>)
    ensures var disk := Runs(None, moves); disk.Some? ==> Sound(disk.value)
    decreases |moves|
  {
    if moves != [] {
      var last := moves[|moves| - 1];
      RunsAreSound(moves[..|moves| - 1]);
      StepIsSound(Runs(None, moves[..|moves| - 1]), last.command, last.writes);
    }
  }

  // ---------- Resuming ----------

  /** In every write of a pass a task is untouched, started or done with, and untouched if not selected. */
  lemma PassForms(p: Pass, k: nat, i: nat)
    requires k < |PassWrites(p)| && i < |p.tasks|
    ensures var w := PassWrites(p)[k];
            && |w.tasks| == |p.tasks|
            && (w.tasks[i] == p.tasks[i] || (p.chosen(p.tasks[i]) && (w.tasks[i] == Started(p.tasks[i]) || w.tasks[i] == Final(p, i))))
  {
    var j := PassWriteShape(p, k);
  }

  predicate Formed(t: Task, t': Task, chosen: Choice) {
    || t' == t || t' == Interrupted(t)
    || (chosen(Interrupted(t)) && t'.id == t.id && (t'.status == Running || t'.status == Passed || t'.status == Failed || t'.status == Skipped))
  }

  lemma FormsFit(p: Pass, t: Task, t': Task, i: nat)
    requires i < |p.tasks| && p.tasks[i] == Interrupted(t)
    requires t' == p.tasks[i] || (p.chosen(p.tasks[i]) && (t' == Started(p.tasks[i]) || t' == Final(p, i)))
    ensures Formed(t, t', p.chosen)
  {
  }

  lemma StepForms(s: Summary, c: Command, m: nat, i: nat)
    requires (c.Resume? || c.Rerun?) && i < |s.tasks|
    ensures var disk := Step(Some(s), c, m);
            && disk.Some? && |disk.value.tasks| == |s.tasks|
            && Formed(s.tasks[i], disk.value.tasks[i], PassOf(s.tasks, c).chosen)
  {
    var writes := AllWrites(Some(s), c);
    var k := ReachedShape(Some(s), writes, m);
    if k < |writes| {
      var p := PassOf(s.tasks, c);
      WritesAreAPass(s, c);
      PassForms(p, k, i);
      FormsFit(p, s.tasks[i], writes[k].tasks[i], i);
    }
  }

  lemma WritesAreAPass(s: Summary, c: Command)
    requires c.Resume? || c.Rerun?
    ensures AllWrites(Some(s), c) != [] ==> AllWrites(Some(s), c) == PassWrites(PassOf(s.tasks, c))
    ensures c.Resume? ==> AllWrites(Some(s), c) == PassWrites(PassOf(s.tasks, c))
  {
  }

  /** Resuming, interrupted or not, neither executes nor changes a passed, blocked or review-bound task; no other
      task becomes blocked or review-bound. */
  lemma ResumeSparesSettled(s: Summary, c: Command, m: nat, i: nat)
    requires c.Resume? && i < |s.tasks|
    ensures var disk := Step(Some(s), c, m);
            && disk.Some? && |disk.value.tasks| == |s.tasks|
            && (!Resumable(s.tasks[i]) ==> disk.value.tasks[i] == s.tasks[i] && !Executed(PassOf(s.tasks, c), i))
            && (Resumable(s.tasks[i]) ==> Resumable(disk.value.tasks[i]) || disk.value.tasks[i].status == Passed)
  {
    StepForms(s, c, m, i);
  }

  /** Rerunning a task changes no other, except that one found running counts as pending. */
  lemma RerunSparesOthers(s: Summary, c: Command, m: nat, i: nat)
    requires c.Rerun? && i < |s.tasks| && s.tasks[i].id != c.id
    ensures var disk := Step(Some(s), c, m);
            && disk.Some? && |disk.value.tasks| == |s.tasks|
            && (disk.value.tasks[i] == s.tasks[i] || disk.value.tasks[i] == Interrupted(s.tasks[i]))
  {
    StepForms(s, c, m, i);
    assert PassOf(s.tasks, c).chosen == Named(c.id);
  }

  predicate Resumes(moves: seq<Move>) {
    forall i :: 0 <= i < |moves| ==> moves[i].command.Resume?
  }

  /** Over any number of resumes, interrupted anywhere, no task is lost and settled tasks stay as they are. */
  lemma {:induction false} ResumesSpareSettled(s: Summary, moves: seq<Move>, i: nat)
    requires Resumes(moves) && i < |s.tasks|
    ensures var disk := Runs(Some(s), moves);
            && disk.Some? && |disk.value.tasks| == |s.tasks|
            && (!Resumable(s.tasks[i]) ==> disk.value.tasks[i] == s.tasks[i])
            && (Resumable(s.tasks[i]) ==> Resumable(disk.value.tasks[i]) || disk.value.tasks[i].status == Passed)
    decreases |moves|
  {
    if moves != [] {
      var last := moves[|moves| - 1];
      var init := moves[..|moves| - 1];
      ResumesSpareSettled(s, init, i);
      ResumeSparesSettled(Runs(Some(s), init).value, last.command, last.writes, i);
    }
  }

  /** What an uninterrupted resume leaves when every task it executes succeeds. */
  lemma ResumeAllGood(s: Summary, c: Command, i: nat)
    requires c.Resume? && (forall k :: c.codes(k) == 0) && i < |s.tasks|
    ensures var disk := Step(Some(s), c, |AllWrites(Some(s), c)|);
            && disk.Some? && disk.value == Report(disk.value.tasks) && |disk.value.tasks| == |s.tasks|
            && (if Resumable(s.tasks[i]) then disk.value.tasks[i].status == Passed else disk.value.tasks[i] == s.tasks[i])
  {
    WritesAreAPass(s, c);
    var p := PassOf(s.tasks, c);
    var writes := PassWrites(p);
    assert writes[|writes| - 1] == Report(After(p, |p.tasks|));
    assert Resumable(Interrupted(s.tasks[i])) <==> Resumable(s.tasks[i]);
  }

  /** However often resuming is interrupted, once a resume runs through without a failure every task has passed
      that was not already settled, and the mission has iff none was blocked or bound for review. */
  lemma ResumesConverge(s: Summary, moves: seq<Move>, c: Command)
    requires s.tasks != [] && Resumes(moves) && c.Resume? && forall k :: c.codes(k) == 0
    ensures var before := Runs(Some(s), moves);
            var disk := Step(before, c, |AllWrites(before, c)|);
            && disk.Some? && |disk.value.tasks| == |s.tasks|
            && (forall i :: 0 <= i < |s.tasks| ==>
                 if Resumable(s.tasks[i]) then disk.value.tasks[i].status == Passed else disk.value.tasks[i] == s.tasks[i])
            && (disk.value.status == AllPassed <==> !AnyIs(s.tasks, Blocked) && !AnyIs(s.tasks, NeedsReview))
  {
    var before := Runs(Some(s), moves);
    var disk := Step(before, c, |AllWrites(before, c)|);
    ResumesSpareSettled(s, moves, 0);
    ResumeAllGood(before.value, c, 0);
    forall i | 0 <= i < |s.tasks|
      ensures if Resumable(s.tasks[i]) then disk.value.tasks[i].status == Passed else disk.value.tasks[i] == s.tasks[i]
    {
      ResumesSpareSettled(s, moves, i);
      ResumeAllGood(before.value, c, i);
    }
    PassedWhenUnblocked(s.tasks, disk.value.tasks);
  }

  lemma PassedWhenUnblocked(tasks: seq<Task>, end: seq<Task>)
    requires |end| == |tasks| > 0
    requires forall i :: 0 <= i < |tasks| ==> if Resumable(tasks[i]) then end[i].status == Passed else end[i] == tasks[i]
    ensures OverallOf(end) == AllPassed <==> !AnyIs(tasks, Blocked) && !AnyIs(tasks, NeedsReview)
  {
    if !AnyIs(tasks, Blocked) && !AnyIs(tasks, NeedsReview) {
      assert AllAre(end, Passed);
    } else {
      var i :| 0 <= i < |tasks| && (tasks[i].status == Blocked || tasks[i].status == NeedsReview);
      assert end[i].status != Passed;
    }
  }

  // ---------- The runner ----------

  class Mission {
    var tasks: seq<Task>
    var status: Overall
    var counts: Counts
    var disk: Option<Summary>
    /** Everything written to disk so far. */
    ghost var written: seq<Summary>

    constructor (stored: Option<Summary>)
      ensures disk == stored && written == []
    {
      tasks, status, counts, disk, written := [], NotStarted, CountsOf([]), stored, [];
    }

    method Persist()
      modifies this
      ensures disk == Some(Summary(old(status), old(counts), old(tasks))) && written == old(written) + [disk.value]
      ensures tasks == old(tasks) && status == old(status) && counts == old(counts)
    {
      disk := Some(Summary(status, counts, tasks));
      written := written + [disk.value];
    }

    method Sync(newStatus: Overall)
      modifies this
      ensures tasks == old(tasks) && status == newStatus && counts == CountsOf(tasks)
      ensures disk == old(disk) && written == old(written)
    {
      status, counts := newStatus, CountsOf(tasks);
    }

    /** The first i tasks of a pass dealt with. */
    ghost predicate At(p: Pass, before: seq<Summary>, i: nat, failed: bool, executed: seq<nat>)
      requires i <= |p.tasks|
      reads this
    {
      tasks == After(p, i) && failed == Broken(p, i) && written == before + Writes(p, i) && executed == ExecutedOnes(p, i)
    }

    /** Runs the chosen tasks in turn and returns those it executed. */
    method RunSelectedTasks(chosen: Choice, continueOnError: bool, codes: nat -> int) returns (executed: seq<nat>)
      modifies this
      ensures var p := Pass(old(tasks), chosen, continueOnError, codes);
              && tasks == After(p, |p.tasks|)
              && written == old(written) + Writes(p, |p.tasks|)
              && executed == ExecutedOnes(p, |p.tasks|)
    {
      ghost var p, before := Pass(tasks, chosen, continueOnError, codes), written;
      assert tasks == After(p, 0) && before == before + [];
      executed := [];
      var failed := false;
      for i := 0 to |tasks|
        invariant |tasks| == |p.tasks| && At(p, before, i, failed, executed)
      {
        failed, executed := Visit(i, chosen(tasks[i]), failed, executed, continueOnError, codes, p, before);
      }
    }

    /** Passes over a task, skips it or executes it. */
    method Visit(i: nat, isChosen: bool, failed: bool, executed: seq<nat>, continueOnError: bool, codes: nat -> int,
                 ghost p: Pass, ghost before: seq<Summary>)
      returns (failed': bool, executed': seq<nat>)
      requires i < |p.tasks| && At(p, before, i, failed, executed)
      requires isChosen == p.chosen(p.tasks[i]) && continueOnError == p.continueOnError && codes == p.codes
      modifies this
      ensures At(p, before, i + 1, failed', executed')
    {
      PassNext(p, i);
      failed', executed' := failed, executed;
      if isChosen {
        if failed && !continueOnError {
          tasks := tasks[i := SkippedOver(tasks[i])];
        } else {
          var code := codes(i);
          Execute(i, code, p);
          failed', executed' := failed || code != 0, executed + [i];
        }
      }
    }

    method BeginTask(i: nat, ghost p: Pass)
      requires i < |p.tasks| && tasks == After(p, i)
      modifies this
      ensures tasks == After(p, i)[i := Started(p.tasks[i])] && written == old(written) + [StartOf(p, i)]
    {
      tasks := tasks[i := Started(tasks[i])];
      Sync(InProgress);
      Persist();
    }

    method FinishTask(i: nat, code: int, ghost p: Pass)
      requires i < |p.tasks| && tasks == After(p, i)[i := Started(p.tasks[i])] && Executed(p, i) && code == p.codes(i)
      modifies this
      ensures tasks == After(p, i + 1) && written == old(written) + [EndOf(p, i)]
    {
      PassNext(p, i);
      tasks := tasks[i := Finished(tasks[i], code)];
      Sync(OverallOf(tasks));
      Persist();
    }

    /** Records the start of a task, its exit code and its outcome. */
    method Execute(i: nat, code: int, ghost p: Pass)
      requires i < |p.tasks| && tasks == After(p, i) && Executed(p, i) && code == p.codes(i)
      modifies this
      ensures tasks == After(p, i + 1) && written == old(written) + [StartOf(p, i), EndOf(p, i)]
    {
      BeginTask(i, p);
      FinishTask(i, code, p);
    }

    /** A whole pass: opened as running, closed with the outcome. */
    method MakePass(chosen: Choice, continueOnError: bool, codes: nat -> int) returns (executed: seq<nat>)
      modifies this
      ensures var p := Pass(old(tasks), chosen, continueOnError, codes);
              && written == old(written) + PassWrites(p) && disk == Some(Report(After(p, |p.tasks|)))
              && status == OverallOf(After(p, |p.tasks|)) && executed == ExecutedOnes(p, |p.tasks|)
    {
      ghost var p := Pass(tasks, chosen, continueOnError, codes);
      Sync(InProgress);
      Persist();
      executed := RunSelectedTasks(chosen, continueOnError, codes);
      Sync(OverallOf(tasks));
      Persist();
      Regroup(old(written), ReportRunning(p.tasks), Writes(p, |p.tasks|), Report(After(p, |p.tasks|)));
    }

    method Resume(continueOnError: bool, codes: nat -> int) returns (r: Result<bool, Error>, executed: seq<nat>)
      modifies this
      ensures Committed(old(disk), Command.Resume(continueOnError, codes), disk, old(written), written, r)
      ensures r.Ok? ==>
                var p := PassOf(old(disk).value.tasks, Command.Resume(continueOnError, codes)); executed == ExecutedOnes(p, |p.tasks|)
    {
      if disk.None? {
        return Err(NoSummary), [];
      }
      ghost var c := Command.Resume(continueOnError, codes);
      tasks := Each(Interrupted, disk.value.tasks);
      executed := MakePass(Resumable, continueOnError, codes);
      r := Ok(status == AllPassed);
      PassCommits(old(disk), c, PassOf(old(disk).value.tasks, c), old(written), r);
    }

    method Rerun(id: string, continueOnError: bool, codes: nat -> int) returns (r: Result<bool, Error>, executed: seq<nat>)
      modifies this
      ensures Committed(old(disk), Command.Rerun(id, continueOnError, codes), disk, old(written), written, r)
      ensures r.Ok? ==>
                var p := PassOf(old(disk).value.tasks, Command.Rerun(id, continueOnError, codes)); executed == ExecutedOnes(p, |p.tasks|)
    {
      if disk.None? {
        return Err(NoSummary), [];
      }
      if FindTask(disk.value.tasks, id) == |disk.value.tasks| {
        return Err(NoSuchTask), [];
      }
      ghost var c := Command.Rerun(id, continueOnError, codes);
      tasks := Each(Interrupted, disk.value.tasks);
      executed := MakePass(Named(id), continueOnError, codes);
      r := Ok(status == AllPassed);
      PassCommits(old(disk), c, PassOf(old(disk).value.tasks, c), old(written), r);
    }

    method Mark(id: string, needsReview: bool) returns (r: Result<bool, Error>)
      modifies this
      ensures Committed(old(disk), Command.Mark(id, needsReview), disk, old(written), written, r)
    {
      if disk.None? {
        return Err(NoSummary);
      }
      tasks := disk.value.tasks;
      var i := FindTask(tasks, id);
      if i == |tasks| {
        return Err(NoSuchTask);
      }
      tasks := tasks[i := Marked(tasks[i], needsReview)];
      Sync(OverallOf(tasks));
      Persist();
      r := Ok(status == AllPassed);
    }

    method Run(input: seq<Task>, dryRun: bool, continueOnError: bool, codes: nat -> int)
      returns (r: Result<bool, Error>, executed: seq<nat>)
      modifies this
      ensures Committed(old(disk), Command.Run(input, dryRun, continueOnError, codes), disk, old(written), written, r)
      ensures r.Ok? ==>
                var p := PassOf([], Command.Run(input, dryRun, continueOnError, codes));
                executed == if dryRun then [] else ExecutedOnes(p, |p.tasks|)
    {
      executed := [];
      if input == [] {
        return Err(NoRunnableTasks), [];
      }
      if dryRun {
        tasks := Each(PlanOnly, input);
        Sync(NotStarted);
        Persist();
        return Ok(false), [];
      }
      ghost var c := Command.Run(input, false, continueOnError, codes);
      tasks := Each(Fresh, input);
      executed := MakePass(Always, continueOnError, codes);
      r := Ok(status == AllPassed);
      PassCommits(old(disk), c, PassOf([], c), old(written), r);
    }
  }

  /** A command has written everything it writes, or was refused and wrote nothing; it tells whether the mission
      passed. */
  ghost predicate Committed(disk: Option<Summary>, c: Command, disk': Option<Summary>, written: seq<Summary>, written': seq<Summary>,
                            r: Result<bool, Error>) {
    && written' == written + AllWrites(disk, c) && disk' == Step(disk, c, |AllWrites(disk, c)|)
    && (if Refusal(disk, c).Some? then r == Err(Refusal(disk, c).value)
        else disk'.Some? && r == Ok(disk'.value.status == AllPassed))
  }

  lemma PassCommits(disk: Option<Summary>, c: Command, p: Pass, written: seq<Summary>, r: Result<bool, Error>)
    requires Refusal(disk, c).None? && !c.Mark? && !(c.Run? && c.dryRun)
    requires p == PassOf(if disk.Some? then disk.value.tasks else [], c)
    requires r == Ok(OverallOf(After(p, |p.tasks|)) == AllPassed)
    ensures Committed(disk, c, Some(Report(After(p, |p.tasks|))), written, written + PassWrites(p), r)
  {
    assert AllWrites(disk, c) == PassWrites(p);
    LastWrite(disk, p);
  }

  lemma LastWrite(disk: Option<Summary>, p: Pass)
    ensures Reached(disk, PassWrites(p), |PassWrites(p)|) == Some(Report(After(p, |p.tasks|)))
  {
  }

  lemma Regroup(written: seq<Summary>, first: Summary, middle: seq<Summary>, last: Summary)
    ensures written + [first] + middle + [last] == written + ([first] + middle + [last])
  {
  }

  lemma BrokenNext(p: Pass, i: nat)
    requires i < |p.tasks|
    ensures Broken(p, i + 1) <==> Broken(p, i) || (p.chosen(p.tasks[i]) && p.codes(i) != 0)
  {
  }

  lemma PassNext(p: Pass, i: nat)
    requires i < |p.tasks|
    ensures After(p, i)[i] == p.tasks[i] && After(p, i + 1) == After(p, i)[i := Final(p, i)]
    ensures Broken(p, i + 1) <==> Broken(p, i) || (p.chosen(p.tasks[i]) && p.codes(i) != 0)
    ensures Writes(p, i + 1) == Writes(p, i) + if Executed(p, i) then [StartOf(p, i), EndOf(p, i)] else []
    ensures ExecutedOnes(p, i + 1) == ExecutedOnes(p, i) + if Executed(p, i) then [i] else []
  {
    BrokenNext(p, i);
  }
}
