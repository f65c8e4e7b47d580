/** The autoresearch supervisor: after each worker session it keeps or discards the candidate commit,
    moves the worktree accordingly, and records the iteration in an append-only ledger. */
module Autoresearch {
  import opened Prelude

  type Commit = string
  type Score = real

  datatype KeepPolicy = ScoreImprovement | PassOnly

  datatype CandidateStatus = Candidate | Noop | Abort | Interrupted

  /** The artifact a worker leaves behind; commits are still references to be resolved. */
  datatype Artifact = Artifact(status: CandidateStatus, base: string, commit: Option<string>)

  datatype Evaluation = Errored | Failed(score: Option<Score>) | Passed(score: Option<Score>)

  datatype Decision = Baseline | Keep | Discard | Ambiguous | NoopDecision | AbortDecision | InterruptedDecision | Error

  datatype RunStatus = Running | Stopped | Ended

  datatype LedgerEntry = LedgerEntry(iteration: nat, decision: Decision, base: Commit, candidate: Option<Commit>,
                                     kept: Commit, evaluation: Option<Evaluation>)

  /** The manifest fields the supervisor reads and writes, the worktree HEAD, and the ledger. */
  datatype State = State(policy: KeepPolicy, lastKept: Commit, lastScore: Option<Score>, latestCandidate: Option<Commit>,
                         status: RunStatus, iteration: nat, head: Commit, ledger: seq<LedgerEntry>)

  /** What one session and one evaluation do to the world the supervisor sees.  The artifact is None when
      it is missing or malformed. */
  datatype Session = Session(
    head: Commit,                            // where the worker leaves HEAD
    artifact: Option<Artifact>,
    resolve: string -> Option<Commit>,       // git rev-parse
    cleanAfterSession: bool,
    evaluation: Evaluation,
    headAfterEvaluation: Commit,
    cleanAfterEvaluation: bool)

  // ---------- Decisions ----------

  function Decide(policy: KeepPolicy, lastScore: Option<Score>, evaluation: Evaluation): Decision {
    match evaluation
    case Errored => Discard
    case Failed(_) => Discard
    case Passed(score) =>
      if policy.PassOnly? then Keep
      else if lastScore.None? || score.None? then Ambiguous
      else if score.value > lastScore.value then Keep
      else Discard
  }

  /** Resolves a candidate's commits; None when it does not fit the run. */
  function Validate(s: State, c: Artifact, resolve: string -> Option<Commit>): Option<(Commit, Option<Commit>)> {
    var base := resolve(c.base);
    if base.None? || base.value != s.lastKept then None
    else if !c.status.Candidate? then Some((base.value, c.commit))
    else if c.commit.None? || c.commit.value == "" then None
    else
      var commit := resolve(c.commit.value);
      if commit.None? || commit.value != s.head then None else Some((base.value, commit))
  }

  function Record(s: State, entry: LedgerEntry): State {
    s.(ledger := s.ledger + [entry])
  }

  datatype Outcome = Returned(decision: Decision) | Thrown

  function Fail(s: State, c: Option<Artifact>): State {
    var base := if c.Some? then c.value.base else s.lastKept;
    var candidate := if c.Some? then c.value.commit else None;
    Record(s, LedgerEntry(s.iteration, Error, base, candidate, s.lastKept, None)).(status := Ended)
  }

  function NotEvaluated(s: State, c: Artifact, base: Commit, commit: Option<Commit>, clean: bool): (State, Outcome) {
    match c.status
    case Abort =>
      (Record(s, LedgerEntry(s.iteration, AbortDecision, base, commit, s.lastKept, None)).(status := Stopped), Returned(AbortDecision))
    case Interrupted =>
      if !clean then (s.(status := Ended), Returned(Error))
      else (Record(s, LedgerEntry(s.iteration, InterruptedDecision, base, commit, s.lastKept, None)), Returned(InterruptedDecision))
    case _ => (Record(s, LedgerEntry(s.iteration, NoopDecision, base, commit, s.lastKept, None)), Returned(NoopDecision))
  }

  function Evaluated(s: State, base: Commit, commit: Option<Commit>, w: Session): (State, Outcome) {
    var decision := Decide(s.policy, s.lastScore, w.evaluation);
    var s1 := s.(head := w.headAfterEvaluation);
    if decision.Keep? then
      var s2 := s1.(lastKept := s1.head, lastScore := if w.evaluation.score.Some? then w.evaluation.score else s.lastScore);
      (Record(s2, LedgerEntry(s.iteration, Keep, base, commit, s2.lastKept, Some(w.evaluation))), Returned(Keep))
    else if !w.cleanAfterEvaluation then (s1, Thrown)
    else
      var s2 := s1.(head := s.lastKept);
      (Record(s2, LedgerEntry(s.iteration, decision, base, commit, s2.lastKept, Some(w.evaluation))), Returned(decision))
  }

  /** The state in which a session's candidate is judged. */
  function Begin(s: State, w: Session): State {
    s.(iteration := s.iteration + 1, head := w.head)
  }

  function ProcessValid(s: State, c: Artifact, base: Commit, commit: Option<Commit>, w: Session): (State, Outcome) {
    var s1 := s.(latestCandidate := commit);
    if !c.status.Candidate? then NotEvaluated(s1, c, base, commit, w.cleanAfterSession) else Evaluated(s1, base, commit, w)
  }

  predicate Acceptable(s: State, w: Session) {
    w.artifact.Some? && Validate(s, w.artifact.value, w.resolve).Some?
  }

  /** One iteration: the session has ended, its candidate is processed. */
  function Process(s: State, w: Session): (State, Outcome) {
    var s1 := Begin(s, w);
    if !Acceptable(s1, w) then (Fail(s1, w.artifact), Returned(Error))
    else
      var c := w.artifact.value;
      var (base, commit) := Validate(s1, c, w.resolve).value;
      ProcessValid(s1, c, base, commit, w)
  }

  /** A new run: the baseline is evaluated on the current HEAD and recorded first, under the name (a short hash)
      that the manifest has for it. */
  function Seed(policy: KeepPolicy, head: Commit, baselineName: Commit, evaluation: Evaluation): State {
    var entry := LedgerEntry(0, if evaluation.Errored? then Error else Baseline, baselineName, None, head, Some(evaluation));
    State(policy, head, if evaluation.Passed? then evaluation.score else None, None, Running, 0, head, [entry])
  }

  /** A run of any length. */
  function Run(s: State, sessions: seq<Session>): State
    decreases |sessions|
  {
    if sessions == [] then s else Run(Process(s, sessions[0]).0, sessions[1..])
  }

  // ---------- What holds along every run ----------

  /** The passing score an entry records, if any. */
  function PassingScore(e: LedgerEntry): Option<Score> {
    if e.evaluation.Some? && e.evaluation.value.Passed? then e.evaluation.value.score else None
  }

  ghost predicate IsScoreOf(x: Score, ledger: seq<LedgerEntry>) {
    exists i :: 0 <= i < |ledger| && PassingScore(ledger[i]) == Some(x)
  }

  ghost predicate Bounds(x: Score, ledger: seq<LedgerEntry>) {
    forall i :: 0 <= i < |ledger| && PassingScore(ledger[i]).Some? ==> PassingScore(ledger[i]).value <= x
  }

  /** Under score_improvement the kept score is the maximum of the recorded passing scores, provided the
      baseline had one; otherwise there is no kept score and nothing has ever been kept. */
  ghost predicate MaximumInv(s: State) {
    s.policy.ScoreImprovement? && s.ledger != [] ==>
      if PassingScore(s.ledger[0]).Some? then
        s.lastScore.Some? && IsScoreOf(s.lastScore.value, s.ledger) && Bounds(s.lastScore.value, s.ledger)
      else
        s.lastScore.None? && s.lastKept == s.ledger[0].kept && (forall e :: e in s.ledger ==> !e.decision.Keep?)
  }

  /** The passing score recorded last. */
  function LatestScore(ledger: seq<LedgerEntry>): Option<Score> {
    if ledger == [] then None
    else if PassingScore(ledger[|ledger| - 1]).Some? then PassingScore(ledger[|ledger| - 1])
    else LatestScore(ledger[..|ledger| - 1])
  }

  /** Under pass_only the kept score is the latest recorded passing score. */
  ghost predicate ScoreInv(s: State) {
    MaximumInv(s) && (s.policy.PassOnly? ==> s.lastScore == LatestScore(s.ledger))
  }

  /** What the ledger says was kept after its last entry. */
  function KeptBy(ledger: seq<LedgerEntry>): Commit
    requires ledger != []
  {
    ledger[|ledger| - 1].kept
  }

  /** Entries chain: a keep entry starts from what was kept before it; any other entry keeps that. */
  ghost predicate Chained(ledger: seq<LedgerEntry>) {
    forall i, j :: 0 <= i && j == i + 1 && j < |ledger| ==>
      if ledger[j].decision.Keep? then ledger[j].base == ledger[i].kept else ledger[j].kept == ledger[i].kept
  }

  ghost predicate Numbered(s: State) {
    && (forall i, j :: 0 <= i < j < |s.ledger| ==> s.ledger[i].iteration < s.ledger[j].iteration)
    && (forall e :: e in s.ledger ==> e.iteration <= s.iteration)
  }

  ghost predicate Inv(s: State) {
    && s.ledger != []
    && s.ledger[0].iteration == 0 && !s.ledger[0].decision.Keep?
    && KeptBy(s.ledger) == s.lastKept
    && Chained(s.ledger)
    && Numbered(s)
    && ScoreInv(s)
  }

  lemma SeedInv(policy: KeepPolicy, head: Commit, baselineName: Commit, evaluation: Evaluation)
    ensures Inv(Seed(policy, head, baselineName, evaluation))
  {
    var s := Seed(policy, head, baselineName, evaluation);
    assert s.lastScore.Some? ==> PassingScore(s.ledger[0]) == s.lastScore;
    assert s.ledger[..0] == [];
  }

  lemma ChainedSnoc(ledger: seq<LedgerEntry>, e: LedgerEntry)
    requires Chained(ledger) && ledger != []
    requires if e.decision.Keep? then e.base == KeptBy(ledger) else e.kept == KeptBy(ledger)
    ensures Chained(ledger + [e]) && KeptBy(ledger + [e]) == e.kept
  {
  }

  lemma NumberedSnoc(s: State, s': State, e: LedgerEntry)
    requires Numbered(s) && s'.ledger == s.ledger + [e] && e.iteration == s'.iteration > s.iteration
    ensures Numbered(s')
  {
    assert forall i :: 0 <= i < |s.ledger| ==> s.ledger[i] in s.ledger;
  }

  lemma ScoreKept(ledger: seq<LedgerEntry>, e: LedgerEntry, x: Score)
    requires IsScoreOf(x, ledger) && Bounds(x, ledger) && (PassingScore(e).Some? ==> PassingScore(e).value <= x)
    ensures IsScoreOf(x, ledger + [e]) && Bounds(x, ledger + [e])
  {
    var i :| 0 <= i < |ledger| && PassingScore(ledger[i]) == Some(x);
    assert PassingScore((ledger + [e])[i]) == Some(x);
  }

  lemma ScoreRaised(ledger: seq<LedgerEntry>, e: LedgerEntry, x: Score, y: Score)
    requires Bounds(x, ledger) && PassingScore(e) == Some(y) && x <= y
    ensures IsScoreOf(y, ledger + [e]) && Bounds(y, ledger + [e])
  {
    assert PassingScore((ledger + [e])[|ledger|]) == Some(y);
  }

  lemma LatestSnoc(ledger: seq<LedgerEntry>, e: LedgerEntry)
    ensures LatestScore(ledger + [e]) == if PassingScore(e).Some? then PassingScore(e) else LatestScore(ledger)
  {
    assert (ledger + [e])[..|ledger|] == ledger;
  }

  lemma MaximumStep(s: State, s': State, e: LedgerEntry)
    requires s.ledger != [] && MaximumInv(s) && s'.ledger == s.ledger + [e] && s'.policy == s.policy && s.policy.ScoreImprovement?
    requires s'.lastKept == e.kept && (!e.decision.Keep? ==> e.kept == s.lastKept)
    requires var x := PassingScore(e);
             if e.decision.Keep? then s.lastScore.Some? && x.Some? && x.value > s.lastScore.value && s'.lastScore == x
             else s'.lastScore == s.lastScore && (x.Some? && s.lastScore.Some? ==> x.value <= s.lastScore.value)
    ensures MaximumInv(s')
  {
    assert s'.ledger[0] == s.ledger[0];
    if PassingScore(s.ledger[0]).Some? {
      if e.decision.Keep? {
        ScoreRaised(s.ledger, e, s.lastScore.value, s'.lastScore.value);
      } else {
        ScoreKept(s.ledger, e, s.lastScore.value);
      }
    }
  }

  /** One more ledger entry, with the state it is recorded in. */
  lemma RecordInv(s: State, s': State, e: LedgerEntry)
    requires Inv(s) && s'.ledger == s.ledger + [e] && s'.policy == s.policy
    requires e.iteration == s'.iteration > s.iteration
    requires s'.lastKept == e.kept
    requires if e.decision.Keep? then e.base == s.lastKept else e.kept == s.lastKept
    requires s.policy.ScoreImprovement? ==>
               var x := PassingScore(e);
               if e.decision.Keep? then s.lastScore.Some? && x.Some? && x.value > s.lastScore.value && s'.lastScore == x
               else s'.lastScore == s.lastScore && (x.Some? && s.lastScore.Some? ==> x.value <= s.lastScore.value)
    requires s.policy.PassOnly? ==> s'.lastScore == if PassingScore(e).Some? then PassingScore(e) else s.lastScore
    ensures Inv(s')
  {
    ChainedSnoc(s.ledger, e);
    NumberedSnoc(s, s', e);
    LatestSnoc(s.ledger, e);
    if s.policy.ScoreImprovement? {
      MaximumStep(s, s', e);
    }
    assert s'.ledger[0] == s.ledger[0];
  }

  /** The fields the invariant speaks of, apart from the iteration count. */
  ghost predicate SameRecord(s: State, s': State) {
    s'.policy == s.policy && s'.ledger == s.ledger && s'.lastKept == s.lastKept && s'.lastScore == s.lastScore
  }

  lemma UnrecordedInv(s: State, s': State)
    requires Inv(s) && SameRecord(s, s') && s.iteration <= s'.iteration
    ensures Inv(s')
  {
  }

  lemma PlainRecordInv(s: State, s1: State, s': State, e: LedgerEntry)
    requires Inv(s) && SameRecord(s, s1) && s1.iteration > s.iteration
    requires s' == Record(s1, e).(status := s'.status)
    requires !e.decision.Keep? && e.evaluation.None? && e.kept == s.lastKept && e.iteration == s1.iteration
    ensures Inv(s')
  {
    RecordInv(s, s', e);
  }

  lemma EvaluatedInv(s: State, s1: State, base: Commit, commit: Option<Commit>, w: Session)
    requires Inv(s) && SameRecord(s, s1) && s1.iteration > s.iteration && base == s.lastKept
    ensures Inv(Evaluated(s1, base, commit, w).0)
  {
    var decision := Decide(s.policy, s.lastScore, w.evaluation);
    var s' := Evaluated(s1, base, commit, w).0;
    if !decision.Keep? && !w.cleanAfterEvaluation {
      UnrecordedInv(s, s');
    } else {
      RecordInv(s, s', LedgerEntry(s1.iteration, decision, base, commit, s'.lastKept, Some(w.evaluation)));
    }
  }

  lemma NotEvaluatedInv(s: State, s1: State, c: Artifact, base: Commit, commit: Option<Commit>, clean: bool)
    requires Inv(s) && SameRecord(s, s1) && s1.iteration > s.iteration
    ensures Inv(NotEvaluated(s1, c, base, commit, clean).0)
  {
    var (s', outcome) := NotEvaluated(s1, c, base, commit, clean);
    if c.status.Interrupted? && !clean {
      UnrecordedInv(s, s');
    } else {
      PlainRecordInv(s, s1, s', LedgerEntry(s1.iteration, outcome.decision, base, commit, s.lastKept, None));
    }
  }

  lemma FailInv(s: State, s1: State, c: Option<Artifact>)
    requires Inv(s) && SameRecord(s, s1) && s1.iteration > s.iteration
    ensures Inv(Fail(s1, c))
  {
    PlainRecordInv(s, s1, Fail(s1, c), Fail(s1, c).ledger[|s.ledger|]);
  }

  lemma ProcessValidInv(s: State, s1: State, c: Artifact, base: Commit, commit: Option<Commit>, w: Session)
    requires Inv(s) && SameRecord(s, s1) && s1.iteration > s.iteration && base == s.lastKept
    ensures Inv(ProcessValid(s1, c, base, commit, w).0)
  {
    var s2 := s1.(latestCandidate := commit);
    if c.status.Candidate? {
      EvaluatedInv(s, s2, base, commit, w);
    } else {
      NotEvaluatedInv(s, s2, c, base, commit, w.cleanAfterSession);
    }
  }

  lemma ProcessInv(s: State, w: Session)
    requires Inv(s)
    ensures Inv(Process(s, w).0)
  {
    var s1 := Begin(s, w);
    if Acceptable(s1, w) {
      var c := w.artifact.value;
      var (base, commit) := Validate(s1, c, w.resolve).value;
      ProcessValidInv(s, s1, c, base, commit, w);
    } else {
      FailInv(s, s1, w.artifact);
    }
  }

  lemma {:induction false} RunInv(s: State, sessions: seq<Session>)
    requires Inv(s)
    ensures Inv(Run(s, sessions))
    decreases |sessions|
  {
    if sessions != [] {
      ProcessInv(s, sessions[0]);
      RunInv(Process(s, sessions[0]).0, sessions[1..]);
    }
  }

  /** Whether a session's candidate is evaluated. */
  predicate Evaluates(s: State, w: Session) {
    Acceptable(Begin(s, w), w) && w.artifact.value.status.Candidate?
  }

  function ScoreOf(evaluation: Evaluation): Option<Score> {
    if evaluation.Passed? then evaluation.score else None
  }

  /** The passing scores of all candidates a run evaluates, recorded or not. */
  function PassingScores(s: State, sessions: seq<Session>): seq<Score>
    decreases |sessions|
  {
    if sessions == [] then []
    else OwnScore(s, sessions[0]) + PassingScores(Process(s, sessions[0]).0, sessions[1..])
  }

  function OwnScore(s: State, w: Session): seq<Score> {
    if Evaluates(s, w) && ScoreOf(w.evaluation).Some? then [ScoreOf(w.evaluation).value] else []
  }

  ghost predicate AtMost(scores: seq<Score>, x: Score) {
    forall i :: 0 <= i < |scores| ==> scores[i] <= x
  }

  lemma OneScore(s: State, w: Session)
    requires s.policy.ScoreImprovement? && s.lastScore.Some?
    ensures var s' := Process(s, w).0;
            && s'.policy == s.policy && s'.lastScore.Some? && s.lastScore.value <= s'.lastScore.value
            && AtMost(OwnScore(s, w), s'.lastScore.value)
            && (s'.lastScore == s.lastScore || s'.lastScore.value in OwnScore(s, w))
  {
  }

  lemma {:induction false} ScoresBounded(s: State, sessions: seq<Session>)
    requires s.policy.ScoreImprovement? && s.lastScore.Some?
    ensures var s' := Run(s, sessions);
            && s'.lastScore.Some? && s.lastScore.value <= s'.lastScore.value
            && AtMost(PassingScores(s, sessions), s'.lastScore.value)
            && (s'.lastScore == s.lastScore || s'.lastScore.value in PassingScores(s, sessions))
    decreases |sessions|
  {
    if sessions != [] {
      var s1 := Process(s, sessions[0]).0;
      OneScore(s, sessions[0]);
      ScoresBounded(s1, sessions[1..]);
      Joined(OwnScore(s, sessions[0]), s1.lastScore.value, PassingScores(s1, sessions[1..]), Run(s1, sessions[1..]).lastScore.value);
    }
  }

  lemma Joined(a: seq<Score>, x: Score, b: seq<Score>, y: Score)
    requires AtMost(a, x) && AtMost(b, y) && x <= y
    ensures AtMost(a + b, y) && forall z :: z in a || z in b ==> z in a + b
  {
  }

  /** Under score_improvement, along every run: the kept score is the maximum of the baseline score and the
      passing scores of all candidates evaluated so far, among them those whose processing was cut short and
      that no ledger entry records; without a baseline score the kept commit never moves. */
  lemma KeptScoreIsMaximum(head: Commit, name: Commit, baseline: Evaluation, sessions: seq<Session>)
    ensures var seed := Seed(ScoreImprovement, head, name, baseline);
            var s, scores := Run(seed, sessions), PassingScores(seed, sessions);
            && s.ledger != []
            && if ScoreOf(baseline).Some? then
                 && s.lastScore.Some?
                 && (s.lastScore == ScoreOf(baseline) || s.lastScore.value in scores)
                 && ScoreOf(baseline).value <= s.lastScore.value && AtMost(scores, s.lastScore.value)
                 && IsScoreOf(s.lastScore.value, s.ledger) && Bounds(s.lastScore.value, s.ledger)
               else s.lastScore.None? && s.lastKept == head && (forall e :: e in s.ledger ==> !e.decision.Keep?)
  {
    SeedInv(ScoreImprovement, head, name, baseline);
    var seed := Seed(ScoreImprovement, head, name, baseline);
    RunInv(seed, sessions);
    LedgerGrows(seed, sessions);
    if seed.lastScore.Some? {
      ScoresBounded(seed, sessions);
    }
  }

  // ---------- What is decided, and when ----------

  /** The artifact fits the run: its base resolves to the kept commit and its candidate, if it is one, to HEAD. */
  predicate Fits(s: State, w: Session) {
    && w.artifact.Some?
    && var c := w.artifact.value;
       && w.resolve(c.base) == Some(s.lastKept)
       && (c.status.Candidate? ==> c.commit.Some? && c.commit.value != "" && w.resolve(c.commit.value) == Some(w.head))
  }

  /** Both scores are there, and the first is strictly greater. */
  predicate Better(score: Option<Score>, kept: Option<Score>) {
    score.Some? && kept.Some? && score.value > kept.value
  }

  /** Of a candidate that is evaluated: it is kept iff it passes and, under score_improvement, its score is strictly
      greater than the kept one; it is ambiguous iff it passes and one of the two scores is missing; else it is
      discarded; and what is not kept is only returned if the worktree could be reset. */
  lemma EvaluatedOutcome(s: State, w: Session)
    requires Fits(s, w) && w.artifact.value.status.Candidate?
    ensures var outcome, score := Process(s, w).1, ScoreOf(w.evaluation);
            && (s.policy.PassOnly? ==> (outcome == Returned(Keep) <==> w.evaluation.Passed?))
            && (s.policy.ScoreImprovement? ==>
                  && (outcome == Returned(Keep) <==> Better(score, s.lastScore))
                  && (outcome == Returned(Ambiguous) <==>
                        w.evaluation.Passed? && (score.None? || s.lastScore.None?) && w.cleanAfterEvaluation))
            && (outcome != Returned(Keep) ==>
                  if !w.cleanAfterEvaluation then outcome == Thrown
                  else outcome == Returned(Ambiguous) || outcome == Returned(Discard))
            && (outcome == Returned(Ambiguous) ==> s.policy.ScoreImprovement?)
  {
  }

  /** What any session comes to.  One that does not fit fails the run; the others are recorded, except that nothing is
      when an interrupted session or an evaluation leaves an unclean worktree. */
  lemma SessionOutcome(s: State, w: Session)
    ensures var (s', outcome) := Process(s, w);
            && s'.iteration == s.iteration + 1
            && (s'.ledger == s.ledger <==>
                  outcome.Thrown? || (Fits(s, w) && w.artifact.value.status.Interrupted? && !w.cleanAfterSession))
            && (outcome != Returned(Keep) ==> s'.lastKept == s.lastKept && s'.lastScore == s.lastScore)
            && (if !Fits(s, w) then
                  outcome == Returned(Error) && s'.status == Ended && s'.latestCandidate == s.latestCandidate
                else
                  var c := w.artifact.value;
                  && s'.latestCandidate == (if c.status.Candidate? then Some(w.head) else c.commit)
                  && match c.status
                     case Abort => outcome == Returned(AbortDecision) && s'.status == Stopped
                     case Interrupted =>
                       if w.cleanAfterSession then outcome == Returned(InterruptedDecision) && s'.status == s.status
                       else outcome == Returned(Error) && s'.status == Ended
                     case Noop => outcome == Returned(NoopDecision) && s'.status == s.status
                     case Candidate => s'.status == s.status)
  {
  }

  /** The entry a session adds says what was decided about what, in which iteration. */
  lemma EntryIsExact(s: State, w: Session)
    requires Process(s, w).0.ledger != s.ledger
    ensures var (s', outcome) := Process(s, w);
            && |s'.ledger| == |s.ledger| + 1 && s.ledger <= s'.ledger && outcome.Returned?
            && var e := s'.ledger[|s.ledger|];
               && e.iteration == s'.iteration && e.decision == outcome.decision && e.kept == s'.lastKept
               && (Fits(s, w) ==> e.base == s.lastKept && e.candidate == s'.latestCandidate)
               && (!Fits(s, w) && w.artifact.Some? ==> e.base == w.artifact.value.base && e.candidate == w.artifact.value.commit)
               && e.evaluation == if Fits(s, w) && w.artifact.value.status.Candidate? then Some(w.evaluation) else None
  {
  }

  /** The first entry of every run stays the baseline's: its evaluation, the kept commit, and an error iff it errored. */
  lemma BaselineStays(policy: KeepPolicy, head: Commit, name: Commit, baseline: Evaluation, sessions: seq<Session>)
    ensures var ledger := Run(Seed(policy, head, name, baseline), sessions).ledger;
            && ledger != []
            && ledger[0] == LedgerEntry(0, ledger[0].decision, name, None, head, Some(baseline))
            && (if baseline.Errored? then ledger[0].decision.Error? else ledger[0].decision.Baseline?)
  {
    LedgerGrows(Seed(policy, head, name, baseline), sessions);
  }

  /** Greater than every passing score recorded. */
  ghost predicate Exceeds(x: Score, ledger: seq<LedgerEntry>) {
    forall i :: 0 <= i < |ledger| && PassingScore(ledger[i]).Some? ==> PassingScore(ledger[i]).value < x
  }

  /** The decision an entry records is the one the entries before it call for. */
  ghost predicate Judged(policy: KeepPolicy, before: seq<LedgerEntry>, e: LedgerEntry)
    requires before != []
  {
    if e.evaluation.None? then e.decision in {NoopDecision, AbortDecision, InterruptedDecision, Error}
    else
      var score := PassingScore(e);
      if !e.evaluation.value.Passed? then e.decision.Discard?
      else if policy.PassOnly? then e.decision.Keep?
      else if score.None? || PassingScore(before[0]).None? then e.decision.Ambiguous?
      else if Exceeds(score.value, before) then e.decision.Keep?
      else e.decision.Discard?
  }

  ghost predicate AllJudged(policy: KeepPolicy, ledger: seq<LedgerEntry>) {
    forall j :: 0 < j < |ledger| ==> Judged(policy, ledger[..j], ledger[j])
  }

  lemma ExceedsKept(s: State, x: Score)
    requires Inv(s) && s.policy.ScoreImprovement? && s.lastScore.Some?
    ensures Exceeds(x, s.ledger) <==> x > s.lastScore.value
  {
    assert IsScoreOf(s.lastScore.value, s.ledger) && Bounds(s.lastScore.value, s.ledger);
  }

  lemma DecisionIsJudged(s: State, e: LedgerEntry)
    requires Inv(s) && e.evaluation.Some? && e.decision == Decide(s.policy, s.lastScore, e.evaluation.value)
    ensures Judged(s.policy, s.ledger, e)
  {
    var score := PassingScore(e);
    if s.policy.ScoreImprovement? && s.lastScore.Some? && score.Some? {
      ExceedsKept(s, score.value);
    }
  }

  lemma DecidedIs(s: State, w: Session)
    requires Fits(s, w) && w.artifact.value.status.Candidate? && Process(s, w).1.Returned?
    ensures Process(s, w).1.decision == Decide(s.policy, s.lastScore, w.evaluation)
  {
  }

  lemma EntryIsJudged(s: State, w: Session)
    requires Inv(s) && Process(s, w).0.ledger != s.ledger
    ensures var s' := Process(s, w).0;
            |s'.ledger| == |s.ledger| + 1 && Judged(s.policy, s.ledger, s'.ledger[|s.ledger|])
  {
    EntryIsExact(s, w);
    var e := Process(s, w).0.ledger[|s.ledger|];
    if Fits(s, w) && w.artifact.value.status.Candidate? {
      DecidedIs(s, w);
      DecisionIsJudged(s, e);
    } else {
      SessionOutcome(s, w);
    }
  }

  lemma AllJudgedSnoc(policy: KeepPolicy, ledger: seq<LedgerEntry>, longer: seq<LedgerEntry>)
    requires AllJudged(policy, ledger) && ledger != [] && ledger <= longer && |longer| == |ledger| + 1
    requires Judged(policy, ledger, longer[|ledger|])
    ensures AllJudged(policy, longer)
  {
    forall j | 0 < j < |longer| ensures Judged(policy, longer[..j], longer[j]) {
      if j < |ledger| {
        assert longer[..j] == ledger[..j];
      } else {
        assert longer[..j] == ledger;
      }
    }
  }

  lemma {:induction false} RunIsJudged(s: State, sessions: seq<Session>)
    requires Inv(s) && AllJudged(s.policy, s.ledger)
    ensures AllJudged(s.policy, Run(s, sessions).ledger)
    decreases |sessions|
  {
    if sessions != [] {
      var s' := Process(s, sessions[0]).0;
      ProcessInv(s, sessions[0]);
      OneProcessGrows(s, sessions[0]);
      if s'.ledger != s.ledger {
        EntryIsJudged(s, sessions[0]);
        AllJudgedSnoc(s.policy, s.ledger, s'.ledger);
      }
      RunIsJudged(s', sessions[1..]);
    }
  }

  /** Along every run each decision follows from the entries before it: under pass_only exactly the candidates that
      pass are kept; under score_improvement exactly those whose score is strictly greater than the baseline's and
      every passing score recorded before, so the scores of the kept ones strictly increase. */
  lemma DecisionsAlongRun(policy: KeepPolicy, head: Commit, name: Commit, baseline: Evaluation, sessions: seq<Session>, i: nat, j: nat)
    requires var ledger := Run(Seed(policy, head, name, baseline), sessions).ledger; i < j < |ledger|
    ensures var ledger := Run(Seed(policy, head, name, baseline), sessions).ledger;
            && Judged(policy, ledger[..j], ledger[j])
            && (policy.ScoreImprovement? && ledger[j].decision.Keep? ==>
                  && PassingScore(ledger[j]).Some?
                  && (PassingScore(ledger[i]).Some? ==> PassingScore(ledger[i]).value < PassingScore(ledger[j]).value))
  {
    var seed := Seed(policy, head, name, baseline);
    SeedInv(policy, head, name, baseline);
    RunIsJudged(seed, sessions);
    var ledger := Run(seed, sessions).ledger;
    assert ledger[..j][i] == ledger[i];
  }

  /** Under pass_only, along every run, it is the latest recorded passing score. */
  lemma KeptScoreIsLatest(head: Commit, name: Commit, baseline: Evaluation, sessions: seq<Session>)
    ensures var s := Run(Seed(PassOnly, head, name, baseline), sessions);
            s.lastScore == LatestScore(s.ledger)
  {
    SeedInv(PassOnly, head, name, baseline);
    RunInv(Seed(PassOnly, head, name, baseline), sessions);
    LedgerGrows(Seed(PassOnly, head, name, baseline), sessions);
  }

  lemma {:induction false} LedgerGrows(s: State, sessions: seq<Session>)
    ensures s.ledger <= Run(s, sessions).ledger && Run(s, sessions).policy == s.policy
    decreases |sessions|
  {
    if sessions != [] {
      OneProcessGrows(s, sessions[0]);
      LedgerGrows(Process(s, sessions[0]).0, sessions[1..]);
    }
  }

  /** The ledger is append-only, by at most one entry an iteration, and a run that ended stays ended. */
  lemma OneProcessGrows(s: State, w: Session)
    ensures var s' := Process(s, w).0;
            && s.ledger <= s'.ledger && |s'.ledger| <= |s.ledger| + 1 && s'.policy == s.policy
            && (s.status != Running ==> s'.status != Running)
  {
  }

  /** Between two keep entries with none in between, the later one is based on what the earlier one kept. */
  lemma {:induction false} KeepsChain(policy: KeepPolicy, head: Commit, name: Commit, baseline: Evaluation,
                                      sessions: seq<Session>, i: nat, j: nat)
    requires var ledger := Run(Seed(policy, head, name, baseline), sessions).ledger;
             && i < j < |ledger| && ledger[j].decision.Keep?
             && (forall k :: i < k < j ==> !ledger[k].decision.Keep?)
    ensures var ledger := Run(Seed(policy, head, name, baseline), sessions).ledger; ledger[j].base == ledger[i].kept
  {
    SeedInv(policy, head, name, baseline);
    RunInv(Seed(policy, head, name, baseline), sessions);
    var ledger := Run(Seed(policy, head, name, baseline), sessions).ledger;
    KeptUnchanged(ledger, i, j - 1);
    var before := j - 1;
    assert j == before + 1;
  }

  lemma {:induction false} KeptUnchanged(ledger: seq<LedgerEntry>, i: nat, j: nat)
    requires Chained(ledger) && i <= j < |ledger| && forall k :: i < k <= j ==> !ledger[k].decision.Keep?
    ensures ledger[j].kept == ledger[i].kept
    decreases j
  {
    if i < j {
      KeptUnchanged(ledger, i, j - 1);
      var before := j - 1;
      assert j == before + 1;
    }
  }

  /** After an evaluated candidate whose processing returned, HEAD is the last kept commit. */
  lemma HeadIsKeptAfterEvaluation(s: State, w: Session)
    requires w.artifact.Some? && w.artifact.value.status.Candidate?
    requires Process(s, w).1.Returned? && !Process(s, w).1.decision.Error?
    ensures Process(s, w).0.head == Process(s, w).0.lastKept
  {
  }

  /** Processing an evaluated candidate is cut short exactly when a candidate that is not kept leaves a
      worktree that cannot be reset; nothing is recorded then and HEAD stays where the evaluation left it. */
  lemma ThrownIff(s: State, w: Session)
    ensures (Process(s, w).1.Thrown? <==>
                  && Acceptable(Begin(s, w), w) && w.artifact.value.status.Candidate?
                  && !Decide(s.policy, s.lastScore, w.evaluation).Keep? && !w.cleanAfterEvaluation)
    ensures Process(s, w).1.Thrown? ==> SameRecord(s, Process(s, w).0) && Process(s, w).0.head == w.headAfterEvaluation
  {
  }

  /** A keep entry names the new kept commit as its candidate exactly when the evaluation left HEAD alone. */
  lemma KeptIsCandidateIff(s: State, w: Session)
    requires Process(s, w).1 == Returned(Keep)
    ensures var s' := Process(s, w).0;
            && |s'.ledger| == |s.ledger| + 1
            && var e := s'.ledger[|s.ledger|];
               && e.decision.Keep? && e.base == s.lastKept && e.kept == s'.lastKept && e.candidate == Some(w.head)
               && (e.candidate == Some(e.kept) <==> w.headAfterEvaluation == w.head)
  {
  }

  /** A noop or an interrupted session never moves HEAD back: it stays where the worker left it. */
  lemma NoopLeavesHead(s: State, w: Session)
    requires Process(s, w).1 == Returned(NoopDecision) || Process(s, w).1 == Returned(InterruptedDecision)
    ensures Process(s, w).0.head == w.head && Process(s, w).0.lastKept == s.lastKept && Process(s, w).0.lastScore == s.lastScore
  {
  }

  // ---------- HEAD and the keep entries along a run ----------

  lemma {:induction false} RunSnoc(s: State, sessions: seq<Session>)
    requires sessions != []
    ensures var n := |sessions| - 1;
            Run(s, sessions) == Process(Run(s, sessions[..n]), sessions[n]).0
    decreases |sessions|
  {
    var n := |sessions| - 1;
    if n > 0 {
      RunSnoc(Process(s, sessions[0]).0, sessions[1..]);
      assert sessions[1..][..n - 1] == sessions[..n][1..] && sessions[1..][n - 1] == sessions[n];
    } else {
      assert sessions[..0] == [] && sessions[1..] == [];
    }
  }

  /** Where HEAD is after a session that ended in the given way. */
  function HeadAfter(lastKept: Commit, w: Session, outcome: Outcome): Commit {
    match outcome
    case Thrown => w.headAfterEvaluation
    case Returned(decision) =>
      if decision in {NoopDecision, InterruptedDecision, AbortDecision, Error} then w.head else lastKept
  }

  lemma OneHead(s: State, w: Session)
    ensures var (s', outcome) := Process(s, w); s'.head == HeadAfter(s'.lastKept, w, outcome)
  {
  }

  /** Along every run HEAD is the last kept commit, unless the last session was a noop, interrupted, aborted,
      failed or cut short: then it is where that session, or its evaluation, left it. */
  lemma HeadAlongRun(policy: KeepPolicy, head: Commit, name: Commit, baseline: Evaluation, sessions: seq<Session>)
    ensures var seed := Seed(policy, head, name, baseline);
            var s := Run(seed, sessions);
            if sessions == [] then s.head == s.lastKept
            else
              var w := sessions[|sessions| - 1];
              s.head == HeadAfter(s.lastKept, w, Process(Run(seed, sessions[..|sessions| - 1]), w).1)
  {
    if sessions != [] {
      var seed := Seed(policy, head, name, baseline);
      RunSnoc(seed, sessions);
      OneHead(Run(seed, sessions[..|sessions| - 1]), sessions[|sessions| - 1]);
    }
  }

  /** Every keep entry names the commit it keeps as its candidate. */
  ghost predicate Exact(ledger: seq<LedgerEntry>) {
    forall e :: e in ledger && e.decision.Keep? ==> e.candidate == Some(e.kept)
  }

  /** No evaluation of a candidate that was kept moved HEAD. */
  predicate Still(s: State, sessions: seq<Session>)
    decreases |sessions|
  {
    sessions == [] ||
    (&& (Process(s, sessions[0]).1 == Returned(Keep) ==> sessions[0].headAfterEvaluation == sessions[0].head)
     && Still(Process(s, sessions[0]).0, sessions[1..]))
  }

  lemma OneEntry(s: State, w: Session)
    ensures var (s', outcome) := Process(s, w);
            || s'.ledger == s.ledger
            || (&& |s'.ledger| == |s.ledger| + 1 && s'.ledger == s.ledger + [s'.ledger[|s.ledger|]]
                && var e := s'.ledger[|s.ledger|];
                   && (e.decision.Keep? <==> outcome == Returned(Keep))
                   && (e.decision.Keep? ==> e.kept == w.headAfterEvaluation && e.candidate == Some(w.head)))
    ensures Process(s, w).1 == Returned(Keep) ==> |Process(s, w).0.ledger| == |s.ledger| + 1
  {
  }

  lemma ExactStep(s: State, w: Session)
    ensures Exact(Process(s, w).0.ledger) <==>
            Exact(s.ledger) && (Process(s, w).1 == Returned(Keep) ==> w.headAfterEvaluation == w.head)
  {
    OneEntry(s, w);
    var s' := Process(s, w).0;
    if |s'.ledger| == |s.ledger| + 1 {
      ExactSnoc(s.ledger, s'.ledger[|s.ledger|]);
    }
  }

  lemma ExactSnoc(ledger: seq<LedgerEntry>, e: LedgerEntry)
    ensures Exact(ledger + [e]) <==> Exact(ledger) && (e.decision.Keep? ==> e.candidate == Some(e.kept))
  {
    var all := ledger + [e];
    assert e in all && forall x :: x in all <==> x in ledger || x == e;
  }

  lemma {:induction false} ExactAlong(s: State, sessions: seq<Session>)
    ensures Exact(Run(s, sessions).ledger) <==> Exact(s.ledger) && Still(s, sessions)
    decreases |sessions|
  {
    if sessions != [] {
      ExactStep(s, sessions[0]);
      ExactAlong(Process(s, sessions[0]).0, sessions[1..]);
    }
  }

  /** All keep entries of a run name the new kept commit as their candidate exactly when no evaluation of a kept
      candidate moved HEAD. */
  lemma KeepsAreExactIff(policy: KeepPolicy, head: Commit, name: Commit, baseline: Evaluation, sessions: seq<Session>)
    ensures var seed := Seed(policy, head, name, baseline);
            Exact(Run(seed, sessions).ledger) <==> Still(seed, sessions)
  {
    ExactAlong(Seed(policy, head, name, baseline), sessions);
  }

  /** An evaluation that commits is enough to make the two differ. */
  lemma KeepCanDiffer(name: Commit, baseline: Evaluation)
    ensures var w := Session("b", Some(Artifact(Candidate, "a", Some("b"))), Resolved, true, Passed(None), "c", true);
            var s := Run(Seed(PassOnly, "a", name, baseline), [w]);
            |s.ledger| == 2 && s.ledger[1].decision.Keep? && s.ledger[1].candidate == Some("b") && s.ledger[1].kept == "c"
  {
    var seed := Seed(PassOnly, "a", name, baseline);
    var w := Session("b", Some(Artifact(Candidate, "a", Some("b"))), Resolved, true, Passed(None), "c", true);
    assert [w][1..] == [];
    assert Run(seed, [w]) == Run(Process(seed, w).0, []) == Process(seed, w).0;
    assert Validate(Begin(seed, w), w.artifact.value, Resolved) == Some(("a", Some("b")));
  }

  function Resolved(name: string): Option<Commit> {
    Some(name)
  }

  // ---------- The supervisor object ----------

  class Supervisor {
    const policy: KeepPolicy
    var lastKept: Commit
    var lastScore: Option<Score>
    var latestCandidate: Option<Commit>
    var status: RunStatus
    var iteration: nat
    var head: Commit
    var ledger: seq<LedgerEntry>

    function Abs(): State
      reads this
    {
      State(policy, lastKept, lastScore, latestCandidate, status, iteration, head, ledger)
    }

    /** Starts a run by evaluating the baseline. */
    constructor (policy: KeepPolicy, head: Commit, baselineName: Commit, evaluation: Evaluation)
      ensures Abs() == Seed(policy, head, baselineName, evaluation)
    {
      this.policy, this.head, lastKept := policy, head, head;
      latestCandidate, status, iteration := None, Running, 0;
      ledger := [LedgerEntry(0, if evaluation.Errored? then Error else Baseline, baselineName, None, head, Some(evaluation))];
      lastScore := if evaluation.Passed? then evaluation.score else None;
    }

    method Append(entry: LedgerEntry)
      modifies this`ledger
      ensures ledger == old(ledger) + [entry]
    {
      ledger := ledger + [entry];
    }

    method FailIteration(c: Option<Artifact>)
      modifies this`ledger, this`status
      ensures Abs() == Fail(old(Abs()), c)
    {
      Append(LedgerEntry(iteration, Error, if c.Some? then c.value.base else lastKept,
                         if c.Some? then c.value.commit else None, lastKept, None));
      status := Ended;
    }

    /** Processes the candidate of a session that has ended. */
    method ProcessCandidate(w: Session) returns (outcome: Outcome)
      modifies this
      ensures (Abs(), outcome) == Process(old(Abs()), w)
      ensures (Fits(old(Abs()), w) && w.artifact.value.status.Candidate?) ==>
                (outcome == Returned(Keep) <==>
                   && w.evaluation.Passed?
                   && (policy.PassOnly? || Better(w.evaluation.score, old(lastScore))))
    {
      ghost var s := Abs();
      if Fits(s, w) && w.artifact.value.status.Candidate? {
        EvaluatedOutcome(s, w);
      }
      iteration, head := iteration + 1, w.head;
      if w.artifact.None? {
        FailIteration(None);
        return Returned(Error);
      }
      var c := w.artifact.value;
      var valid := Validate(Abs(), c, w.resolve);
      if valid.None? {
        FailIteration(Some(c));
        return Returned(Error);
      }
      var (base, commit) := valid.value;
      latestCandidate := commit;
      if !c.status.Candidate? {
        outcome := RecordNotEvaluated(c, base, commit, w.cleanAfterSession);
        return;
      }
      var evaluation := w.evaluation;
      head := w.headAfterEvaluation;
      var decision := Decide(policy, lastScore, evaluation);
      if decision.Keep? {
        lastKept := head;
        if evaluation.score.Some? {
          lastScore := evaluation.score;
        }
      } else {
        if !w.cleanAfterEvaluation {
          return Thrown;
        }
        head := lastKept;
      }
      Append(LedgerEntry(iteration, decision, base, commit, lastKept, Some(evaluation)));
      return Returned(decision);
    }

    method RecordNotEvaluated(c: Artifact, base: Commit, commit: Option<Commit>, clean: bool) returns (outcome: Outcome)
      requires !c.status.Candidate?
      modifies this`ledger, this`status
      ensures (Abs(), outcome) == NotEvaluated(old(Abs()), c, base, commit, clean)
    {
      if c.status.Abort? {
        Append(LedgerEntry(iteration, AbortDecision, base, commit, lastKept, None));
        status := Stopped;
        return Returned(AbortDecision);
      }
      if c.status.Interrupted? {
        if !clean {
          status := Ended;
          return Returned(Error);
        }
        Append(LedgerEntry(iteration, InterruptedDecision, base, commit, lastKept, None));
        return Returned(InterruptedDecision);
      }
      Append(LedgerEntry(iteration, NoopDecision, base, commit, lastKept, None));
      return Returned(NoopDecision);
    }
  }
}
