/** The Autopilot phase machine and its completion gate.

    Every transition between two stored states passes the gate, which lets it through silently, lets it
    through with an advisory naming the gate that was skipped, or refuses it.  The question is what a run
    without a single advisory must have gone through before it ends successfully. */
module Autopilot {
  import opened Text

  // ---------- Stored states ----------

  datatype Value =
    | Undefined
    | Null
    | Bool(b: bool)
    | Integer(n: int)
    | Fraction
    | Str(s: string)
    | List
    | Record(fields: map<string, Value>)

  type State = map<string, Value>

  function Get(r: State, key: string): Value {
    if key in r then r[key] else Undefined
  }

  function ObjectRecord(v: Value): State {
    if v.Record? then v.fields else map[]
  }

  /** `a ?? b` */
  function OrElse(a: Value, b: Value): Value {
    if a.Undefined? || a.Null? then b else a
  }

  function NonEmptyString(v: Value): string {
    if v.Str? then Trim(v.s) else ""
  }

  function Field(r: State, key: string): string {
    NonEmptyString(Get(r, key))
  }

  /** A field of the state, or of its nested `state` record when the state itself lacks it. */
  function StateField(state: State, key: string): Value {
    if key in state then state[key] else Get(ObjectRecord(Get(state, "state")), key)
  }

  /** The state's own field wins over that of its nested record, even if it is null. */
  lemma StateFieldIs(state: State, key: string)
    ensures key in state ==> StateField(state, key) == state[key]
    ensures key !in state && "state" in state && state["state"].Record? && key in state["state"].fields ==>
              StateField(state, key) == state["state"].fields[key]
    ensures key !in state && ("state" !in state || !state["state"].Record? || key !in state["state"].fields) ==>
              StateField(state, key).Undefined?
  {
  }

  function ExactInteger(v: Value): Value {
    if v.Integer? then v else Null
  }

  // ---------- Phases ----------

  datatype Phase = DeepInterview | Ralplan | Ultragoal | Rework | Team | Ralph | CodeReview | Ultraqa

  datatype RuntimePhase = Child(phase: Phase) | WaitingForUser | Complete | Failed | Unknown

  function StripPrefix(t: string, prefix: string): string {
    if prefix <= t then t[|prefix|..] else t
  }

  function NormalizePhaseText(v: Value): string {
    var n := StripPrefix(ReplaceChar(ToLower(NonEmptyString(v)), '_', '-'), "autopilot:");
    if n == "completed" then "complete"
    else if n == "planning" || n == "replan" then "ralplan"
    else if n == "fix" || n == "review-fix" || n == "implementation-fix" then "rework"
    else n
  }

  function NormalizePhase(v: Value): RuntimePhase {
    var n := NormalizePhaseText(v);
    if n == "deep-interview" then Child(DeepInterview)
    else if n == "ralplan" then Child(Ralplan)
    else if n == "ultragoal" then Child(Ultragoal)
    else if n == "rework" then Child(Rework)
    else if n == "team" then Child(Team)
    else if n == "ralph" then Child(Ralph)
    else if n == "code-review" then Child(CodeReview)
    else if n == "ultraqa" then Child(Ultraqa)
    else if n == "waiting-for-user" then WaitingForUser
    else if n == "complete" then Complete
    else if n == "failed" then Failed
    else Unknown
  }

  /** The phase a question interrupted. */
  function WaitingPreviousPhase(state: State): RuntimePhase {
    var wait := ObjectRecord(Get(ObjectRecord(Get(state, "state")), "deep_interview_question"));
    var previous := NormalizePhase(Get(wait, "previous_phase"));
    if previous.Child? then previous else Unknown
  }

  /** The supervised child phase; Unknown stands for null. */
  function DerivePhase(state: State): RuntimePhase {
    if Field(state, "mode") != "autopilot" || Get(state, "active") != Bool(true) then Unknown
    else
      var phase := NormalizePhase(Get(state, "current_phase"));
      if phase.Child? then phase
      else if phase.WaitingForUser? then WaitingPreviousPhase(state)
      else Unknown
  }

  predicate IsImplementation(p: Phase) {
    p.Ultragoal? || p.Rework? || p.Team? || p.Ralph?
  }

  function Allowed(p: Phase): set<Phase> {
    match p
    case DeepInterview => {DeepInterview, Ralplan}
    case Ralplan => {Ralplan, Ultragoal}
    case Ultragoal => {Ultragoal, Team, CodeReview}
    case Rework => {Rework, Team, CodeReview}
    case Team => {Team, Ultragoal, Rework, CodeReview}
    case Ralph => {Ralph, CodeReview}
    case CodeReview => {CodeReview, Rework, Ralplan, Ultraqa}
    case Ultraqa => {Ultraqa, Ralplan}
  }

  // ---------- Evidence ----------

  datatype Area = InterviewArtifacts | Plans

  /** What the gate asks of the file system, of other modules, and of regular expressions. */
  datatype World = World(
    exists_: (State, Value, Area) -> bool,
    canonical: (State, Value, Area) -> bool,
    carriersValid: State -> bool,
    runOutcome: State -> string,
    lifecycleOutcome: State -> string,
    isDate: string -> bool,
    isIsoTimestamp: string -> bool,
    namesUltraqa: string -> bool,
    namesCodeReview: string -> bool,
    namesQa: string -> bool,
    isCiUrl: string -> bool)

  function InterviewPath(state: State): Value {
    var artifact := Get(ObjectRecord(StateField(state, "handoff_artifacts")), "deep_interview");
    var r := ObjectRecord(artifact);
    if artifact.Str? then artifact else OrElse(OrElse(Get(r, "spec_path"), Get(r, "path")), Get(r, "artifact_path"))
  }

  predicate HasDeepInterviewHandoff(w: World, state: State) {
    var gate := ObjectRecord(StateField(state, "deep_interview_gate"));
    var artifact := ObjectRecord(Get(ObjectRecord(StateField(state, "handoff_artifacts")), "deep_interview"));
    var status := ToLower(Field(gate, "status"));
    if status == "skipped" && Get(gate, "skip_authorized_by_user") == Bool(true) && Field(gate, "skip_reason") != "" then
      && ToLower(Field(gate, "source")) == "user"
      && Field(gate, "session_id") == Field(state, "session_id")
      && w.isDate(Field(gate, "skipped_at"))
      && w.exists_(state, OrElse(Get(artifact, "spec_path"), Get(artifact, "path")), InterviewArtifacts)
    else
      && status == "complete"
      && Field(gate, "rationale") != ""
      && w.exists_(state, InterviewPath(state), InterviewArtifacts)
  }

  predicate ApprovedReview(v: Value, role: string) {
    var review := ObjectRecord(v);
    && ToLower(NonEmptyString(OrElse(Get(review, "agent_role"), Get(review, "role")))) == role
    && ToLower(NonEmptyString(OrElse(Get(review, "verdict"), Get(review, "recommendation")))) in {"approve", "approved", "okay"}
  }

  function ReviewCycle(review: State): Value {
    OrElse(Get(review, "review_cycle"), Get(review, "iteration"))
  }

  predicate Present(v: Value) {
    !v.Undefined? && !v.Null?
  }

  predicate WrongShape(v: Value) {
    Present(v) && !v.Record?
  }

  predicate WrongInteger(v: Value) {
    Present(v) && !v.Integer?
  }

  predicate ForgedReview(v: Value) {
    var review := ObjectRecord(v);
    WrongShape(v) || WrongInteger(Get(review, "sequence_index")) || WrongInteger(ReviewCycle(review))
  }

  predicate ForgedExecution(w: World, v: Value) {
    var execution := ObjectRecord(v);
    || WrongShape(v)
    || WrongInteger(Get(execution, "review_cycle"))
    || (Present(Get(execution, "authorized_at")) && !w.isIsoTimestamp(Field(execution, "authorized_at")))
  }

  /** Ralplan evidence that is supplied but cannot be genuine. */
  predicate ForgedRalplanEvidence(w: World, state: State) {
    var rawGate := StateField(state, "ralplan_consensus_gate");
    var rawHandoffs := StateField(state, "handoff_artifacts");
    var member := Get(ObjectRecord(rawHandoffs), "ralplan");
    var gate := ObjectRecord(rawGate);
    || WrongShape(rawGate) || WrongShape(rawHandoffs)
    || (!member.Str? && WrongShape(member))
    || ForgedReview(Get(gate, "ralplan_architect_review"))
    || ForgedReview(Get(gate, "ralplan_critic_review"))
    || ForgedExecution(w, StateField(state, "ralplan_execution_handoff"))
  }

  function RalplanPath(state: State): Value {
    var artifact := Get(ObjectRecord(StateField(state, "handoff_artifacts")), "ralplan");
    var r := ObjectRecord(artifact);
    if artifact.Str? then artifact else OrElse(OrElse(Get(r, "plan_path"), Get(r, "prd_path")), Get(r, "path"))
  }

  /** An approval in its place in the sequence, for this session and this review cycle. */
  predicate BoundReview(v: Value, role: string, index: int, cycle: Value, session: string) {
    var review := ObjectRecord(v);
    && ApprovedReview(v, role)
    && ExactInteger(Get(review, "sequence_index")) == Integer(index)
    && ExactInteger(ReviewCycle(review)) == cycle
    && Field(review, "session_id") == session
  }

  predicate BoundExecution(w: World, v: Value, cycle: Value, session: string) {
    var execution := ObjectRecord(v);
    && (Get(execution, "authorized") == Bool(true) || Get(execution, "authorized_by_user") == Bool(true))
    && Field(execution, "session_id") == session
    && ExactInteger(Get(execution, "review_cycle")) == cycle
    && w.isIsoTimestamp(Field(execution, "authorized_at"))
    && ToLower(Field(execution, "source")) == "autopilot"
  }

  predicate HasRalplanHandoff(w: World, state: State) {
    var ralplan := ObjectRecord(Get(ObjectRecord(StateField(state, "handoff_artifacts")), "ralplan"));
    var gate := ObjectRecord(StateField(state, "ralplan_consensus_gate"));
    var critic := Get(gate, "ralplan_critic_review");
    var session := Field(state, "session_id");
    var cycle := OrElse(ExactInteger(Get(state, "review_cycle")), ExactInteger(ReviewCycle(ObjectRecord(critic))));
    && Get(gate, "complete") == Bool(true)
    && w.exists_(state, OrElse(Get(ralplan, "plan_path"), Get(ralplan, "prd_path")), Plans)
    && session != "" && cycle != Null
    && BoundReview(Get(gate, "ralplan_architect_review"), "architect", 1, cycle, session)
    && BoundReview(critic, "critic", 2, cycle, session)
    && BoundExecution(w, StateField(state, "ralplan_execution_handoff"), cycle, session)
    && Get(state, "active") == Bool(true)
    && NormalizePhase(Get(state, "current_phase")) == Child(Ultragoal)
  }

  lemma BoundReviewIsNotForged(v: Value, role: string, index: int, cycle: Value, session: string)
    requires BoundReview(v, role, index, cycle, session) && cycle != Null
    ensures !ForgedReview(v)
  {
    assert Get(ObjectRecord(v), "sequence_index").Integer?;
  }

  lemma BoundExecutionIsNotForged(w: World, v: Value, cycle: Value, session: string)
    requires BoundExecution(w, v, cycle, session) && cycle != Null
    ensures !ForgedExecution(w, v)
  {
    assert Get(ObjectRecord(v), "review_cycle").Integer?;
  }

  /** Existence of an artifact is only ever reported for a non-empty path. */
  ghost predicate Sane(w: World) {
    forall state, path, area :: w.exists_(state, path, area) ==> NonEmptyString(path) != ""
  }

  lemma AcceptedShapes(w: World, state: State)
    requires Sane(w) && HasRalplanHandoff(w, state)
    ensures var rawHandoffs := StateField(state, "handoff_artifacts");
            && rawHandoffs.Record? && Get(ObjectRecord(rawHandoffs), "ralplan").Record?
            && StateField(state, "ralplan_consensus_gate").Record?
  {
    var rawHandoffs := StateField(state, "handoff_artifacts");
    var member := Get(ObjectRecord(rawHandoffs), "ralplan");
    assert NonEmptyString(OrElse(Get(ObjectRecord(member), "plan_path"), Get(ObjectRecord(member), "prd_path"))) != "";
    assert member.Record?;
    assert "complete" in ObjectRecord(StateField(state, "ralplan_consensus_gate"));
  }

  lemma AcceptedParts(w: World, state: State)
    requires HasRalplanHandoff(w, state)
    ensures var gate := ObjectRecord(StateField(state, "ralplan_consensus_gate"));
            && !ForgedReview(Get(gate, "ralplan_architect_review"))
            && !ForgedReview(Get(gate, "ralplan_critic_review"))
            && !ForgedExecution(w, StateField(state, "ralplan_execution_handoff"))
  {
    var gate := ObjectRecord(StateField(state, "ralplan_consensus_gate"));
    var critic := Get(gate, "ralplan_critic_review");
    var session := Field(state, "session_id");
    var cycle := OrElse(ExactInteger(Get(state, "review_cycle")), ExactInteger(ReviewCycle(ObjectRecord(critic))));
    BoundReviewIsNotForged(Get(gate, "ralplan_architect_review"), "architect", 1, cycle, session);
    BoundReviewIsNotForged(critic, "critic", 2, cycle, session);
    BoundExecutionIsNotForged(w, StateField(state, "ralplan_execution_handoff"), cycle, session);
  }

  /** Complete ralplan evidence is never mistaken for forged evidence. */
  lemma AcceptedEvidenceIsNotForged(w: World, state: State)
    requires Sane(w) && HasRalplanHandoff(w, state)
    ensures !ForgedRalplanEvidence(w, state)
  {
    AcceptedShapes(w, state);
    AcceptedParts(w, state);
  }

  predicate SuccessfulTerminal(w: World, state: State) {
    var phase := NormalizePhase(Get(state, "current_phase"));
    var run, lifecycle := w.runOutcome(state), w.lifecycleOutcome(state);
    if phase.Failed? || run in {"failed", "cancelled", "blocked_on_user"} then false
    else if lifecycle in {"failed", "blocked", "userinterlude", "askuserQuestion"} then false
    else || phase.Complete? || run == "finish" || lifecycle == "finished"
         || Field(state, "completed_at") != "" || Get(state, "active") == Bool(false)
  }

  const EVIDENCE_KEYS := ["source", "artifact_path", "url", "review_url", "qa_url"]
  const LOCATOR_KEYS := ["artifact_path", "url", "review_url", "qa_url", "thread_id", "tool_call_id", "agent_id"]

  function JoinFields(v: State, keys: seq<string>): string {
    if keys == [] then ""
    else
      var first, rest := ToLower(Field(v, keys[0])), JoinFields(v, keys[1..]);
      if first == "" then rest else if rest == "" then first else first + "\n" + rest
  }

  predicate LooksLikeUltraqa(w: World, v: State) {
    w.namesUltraqa(JoinFields(v, EVIDENCE_KEYS))
  }

  predicate LooksLikeCodeReview(w: World, v: State) {
    w.namesCodeReview(JoinFields(v, EVIDENCE_KEYS))
  }

  predicate AnyField(v: State, keys: seq<string>) {
    keys != [] && (Field(v, keys[0]) != "" || AnyField(v, keys[1..]))
  }

  predicate HasCodeReviewLocator(w: World, v: State) {
    if Field(v, "artifact_path") != "" then LooksLikeCodeReview(w, v)
    else AnyField(v, ["review_url", "thread_id", "agent_id", "tool_call_id", "url"])
  }

  predicate HasUltraqaLocator(w: World, v: State) {
    var artifact := ToLower(Field(v, "artifact_path"));
    if artifact != "" then LooksLikeUltraqa(w, v) || w.namesQa(artifact)
    else Field(v, "qa_url") != "" || w.isCiUrl(Field(v, "url")) || Field(v, "tool_call_id") != "" || Field(v, "thread_id") != ""
  }

  predicate EqualsIgnoringCase(t: string, lowered: string) {
    ToLower(t) == lowered
  }

  predicate CleanCodeReview(w: World, v: State) {
    && Get(v, "clean") == Bool(true)
    && Field(v, "stage") == "code-review"
    && EqualsIgnoringCase(Field(v, "recommendation"), "approve")
    && EqualsIgnoringCase(Field(v, "architectural_status"), "clear")
    && !LooksLikeUltraqa(w, v)
    && !(Field(v, "url") != "" && w.isCiUrl(Field(v, "url")))
    && HasCodeReviewLocator(w, v)
  }

  predicate CleanUltraqa(w: World, v: State) {
    var source := ToLower(Field(v, "source"));
    && Get(v, "clean") == Bool(true)
    && Field(v, "stage") == "ultraqa"
    && source != "leader" && !Contains(source, "code-review")
    && !LooksLikeCodeReview(w, v)
    && (Get(v, "skipped") == Bool(true) ==> Field(v, "reason") != "" || Field(v, "skip_reason") != "")
    && HasUltraqaLocator(w, v)
  }

  function FieldSet(v: State, keys: seq<string>): (r: set<string>)
    ensures forall k :: k in keys && Field(v, k) != "" ==> Field(v, k) in r
  {
    if keys == [] then {}
    else (if Field(v, keys[0]) == "" then {} else {Field(v, keys[0])}) + FieldSet(v, keys[1..])
  }

  function Locators(v: State): set<string> {
    FieldSet(v, LOCATOR_KEYS)
  }

  function ReviewVerdict(state: State): State {
    ObjectRecord(StateField(state, "review_verdict"))
  }

  function QaVerdict(state: State): State {
    ObjectRecord(StateField(state, "qa_verdict"))
  }

  predicate CleanEvidence(w: World, state: State) {
    var review, qa := ReviewVerdict(state), QaVerdict(state);
    CleanCodeReview(w, review) && CleanUltraqa(w, qa) && Locators(review) !! Locators(qa)
  }

  predicate OutOfScope(w: World, state: State, path: Value, area: Area) {
    NonEmptyString(path) != "" && !w.canonical(state, path, area)
  }

  /** The two verdicts of clean evidence are distinct pieces of evidence. */
  lemma EvidenceIsIndependent(w: World, state: State, k: string, k': string)
    requires CleanEvidence(w, state) && k in LOCATOR_KEYS && k' in LOCATOR_KEYS
    requires Field(ReviewVerdict(state), k) != ""
    ensures Field(ReviewVerdict(state), k) != Field(QaVerdict(state), k')
  {
    assert Field(ReviewVerdict(state), k) in Locators(ReviewVerdict(state));
  }

  /** What the gate consults about a state. */
  datatype Gate = Gate(
    carriersValid: State -> bool,
    active: State -> bool,
    phase: State -> RuntimePhase,
    success: State -> bool,
    interviewOutOfScope: State -> bool,
    interviewHandoff: State -> bool,
    ralplanOutOfScope: State -> bool,
    forged: State -> bool,
    ralplanHandoff: State -> bool,
    cleanEvidence: State -> bool)

  function InAutopilot(state: State): State {
    state["mode" := Str("autopilot")]
  }

  function ActiveBy(): State -> bool {
    (state: State) => Get(state, "active") == Bool(true)
  }

  function PhaseBy(): State -> RuntimePhase {
    (state: State) => DerivePhase(InAutopilot(state))
  }

  function SuccessBy(w: World): State -> bool {
    (state: State) => SuccessfulTerminal(w, InAutopilot(state))
  }

  function InterviewMisplacedBy(w: World): State -> bool {
    (state: State) => OutOfScope(w, state, InterviewPath(state), InterviewArtifacts)
  }

  function InterviewHandoffBy(w: World): State -> bool {
    (state: State) => HasDeepInterviewHandoff(w, state)
  }

  function PlanMisplacedBy(w: World): State -> bool {
    (state: State) => OutOfScope(w, state, RalplanPath(state), Plans)
  }

  function ForgedBy(w: World): State -> bool {
    (state: State) => ForgedRalplanEvidence(w, state)
  }

  function RalplanHandoffBy(w: World): State -> bool {
    (state: State) => HasRalplanHandoff(w, state)
  }

  function CleanBy(w: World): State -> bool {
    (state: State) => CleanEvidence(w, state)
  }

  /** The gate of the program. */
  function Program(w: World): Gate {
    Gate(w.carriersValid, ActiveBy(), PhaseBy(), SuccessBy(w), InterviewMisplacedBy(w), InterviewHandoffBy(w), PlanMisplacedBy(w),
         ForgedBy(w), RalplanHandoffBy(w), CleanBy(w))
  }

  /** Wherever an artifact is said to be, it is not at a canonical place. */
  predicate Misplaced(w: World, state: State, path: Value, area: Area) {
    path.Str? && Trim(path.s) != "" && !w.canonical(state, path, area)
  }

  // What the gate of the program consults.

  lemma ForgedBySays(w: World, state: State)
    ensures ForgedBy(w)(state) == ForgedRalplanEvidence(w, state)
  {
  }

  lemma CleanBySays(w: World, state: State)
    ensures CleanBy(w)(state) == CleanEvidence(w, state)
  {
  }

  lemma InterviewHandoffBySays(w: World, state: State)
    ensures InterviewHandoffBy(w)(state) == HasDeepInterviewHandoff(w, state)
  {
  }

  lemma RalplanHandoffBySays(w: World, state: State)
    ensures RalplanHandoffBy(w)(state) == HasRalplanHandoff(w, state)
  {
  }

  lemma MisplacedBySays(w: World, state: State)
    ensures InterviewMisplacedBy(w)(state) == Misplaced(w, state, InterviewPath(state), InterviewArtifacts)
    ensures PlanMisplacedBy(w)(state) == Misplaced(w, state, RalplanPath(state), Plans)
  {
  }

  lemma PhaseBySays(state: State)
    ensures PhaseBy()(state) == DerivePhase(InAutopilot(state)) && ActiveBy()(state) == (Get(state, "active") == Bool(true))
  {
  }

  lemma SuccessBySays(w: World, state: State)
    ensures SuccessBy(w)(state) == SuccessfulTerminal(w, InAutopilot(state))
  {
  }

  lemma ProgramIs(w: World)
    ensures var g := Program(w);
            && g.carriersValid == w.carriersValid && g.active == ActiveBy() && g.phase == PhaseBy() && g.success == SuccessBy(w)
            && g.interviewOutOfScope == InterviewMisplacedBy(w) && g.interviewHandoff == InterviewHandoffBy(w)
            && g.ralplanOutOfScope == PlanMisplacedBy(w) && g.forged == ForgedBy(w)
            && g.ralplanHandoff == RalplanHandoffBy(w) && g.cleanEvidence == CleanBy(w)
  {
  }

  /** A part of the evidence is missing or a record. */
  predicate AbsentOrRecord(v: Value) {
    v.Undefined? || v.Null? || v.Record?
  }

  predicate AbsentOrInteger(v: Value) {
    v.Undefined? || v.Null? || v.Integer?
  }

  predicate ReviewTyped(review: Value) {
    && AbsentOrRecord(review) && AbsentOrInteger(Member(review, "sequence_index"))
    && AbsentOrInteger(ReviewCycle(ObjectRecord(review)))
  }

  predicate ExecutionTyped(w: World, execution: Value) {
    var at := Member(execution, "authorized_at");
    && AbsentOrRecord(execution) && AbsentOrInteger(Member(execution, "review_cycle"))
    && (at.Undefined? || at.Null? || w.isIsoTimestamp(NonEmptyString(at)))
  }

  lemma ReviewForgedIff(review: Value)
    ensures !ForgedReview(review) <==> ReviewTyped(review)
  {
  }

  lemma ExecutionForgedIff(w: World, execution: Value)
    ensures !ForgedExecution(w, execution) <==> ExecutionTyped(w, execution)
  {
  }

  /** Evidence is forged iff a part of it is supplied and not of its type. */
  lemma ForgedIff(w: World, state: State)
    ensures var gate, handoffs := StateField(state, "ralplan_consensus_gate"), StateField(state, "handoff_artifacts");
            !ForgedRalplanEvidence(w, state) <==>
              && AbsentOrRecord(gate) && AbsentOrRecord(handoffs)
              && (Member(handoffs, "ralplan").Str? || AbsentOrRecord(Member(handoffs, "ralplan")))
              && ReviewTyped(Member(gate, "ralplan_architect_review")) && ReviewTyped(Member(gate, "ralplan_critic_review"))
              && ExecutionTyped(w, StateField(state, "ralplan_execution_handoff"))
  {
    var gate := StateField(state, "ralplan_consensus_gate");
    ReviewForgedIff(Member(gate, "ralplan_architect_review"));
    ReviewForgedIff(Member(gate, "ralplan_critic_review"));
    ExecutionForgedIff(w, StateField(state, "ralplan_execution_handoff"));
  }

  /** No interview is handed over, completed or skipped, without an existing artifact. */
  lemma InterviewHandoffHasArtifact(w: World, state: State) returns (path: Value)
    requires HasDeepInterviewHandoff(w, state)
    ensures w.exists_(state, path, InterviewArtifacts)
    ensures var gate := StateField(state, "deep_interview_gate");
            ToLower(Field(ObjectRecord(gate), "status")) == "complete"
            || (Member(gate, "skip_authorized_by_user") == Bool(true)
                && Field(ObjectRecord(gate), "session_id") == Field(state, "session_id"))
  {
    var artifact := ObjectRecord(Get(ObjectRecord(StateField(state, "handoff_artifacts")), "deep_interview"));
    path := if ToLower(Field(ObjectRecord(StateField(state, "deep_interview_gate")), "status")) == "complete" then InterviewPath(state)
            else OrElse(Get(artifact, "spec_path"), Get(artifact, "path"));
  }

  /** The phase a question that is being waited for has interrupted. */
  function InterruptedPhase(state: State): RuntimePhase {
    NormalizePhase(Member(Member(Get(state, "state"), "deep_interview_question"), "previous_phase"))
  }

  /** Exactly the active states are in a supervised phase whose current phase is one, or that wait for the user and whose
      question interrupted one. */
  lemma PhaseIff(state: State, p: Phase)
    ensures var current := NormalizePhase(Get(state, "current_phase"));
            DerivePhase(state) == Child(p) <==>
              && Field(state, "mode") == "autopilot" && Get(state, "active") == Bool(true)
              && (current == Child(p) || (current == WaitingForUser && InterruptedPhase(state) == Child(p)))
  {
    DeriveBy(state, NormalizePhase(Get(state, "current_phase")), InterruptedPhase(state));
  }

  lemma DeriveBy(state: State, current: RuntimePhase, interrupted: RuntimePhase)
    requires current == NormalizePhase(Get(state, "current_phase")) && interrupted == InterruptedPhase(state)
    ensures DerivePhase(state) ==
            if Field(state, "mode") != "autopilot" || Get(state, "active") != Bool(true) then Unknown
            else if current.Child? then current
            else if current.WaitingForUser? && interrupted.Child? then interrupted
            else Unknown
  {
  }

  /** The outcomes that contradict success. */
  predicate SaysFailed(phase: RuntimePhase, run: string, lifecycle: string) {
    || phase.Failed?
    || run == "failed" || run == "cancelled" || run == "blocked_on_user"
    || lifecycle == "failed" || lifecycle == "blocked" || lifecycle == "userinterlude" || lifecycle == "askuserQuestion"
  }

  /** A state has ended successfully iff nothing in it says that it failed and something says that it ended. */
  lemma SuccessIff(w: World, state: State, phase: RuntimePhase)
    requires phase == NormalizePhase(Get(state, "current_phase"))
    ensures SuccessfulTerminal(w, state) <==>
              && !SaysFailed(phase, w.runOutcome(state), w.lifecycleOutcome(state))
              && (phase.Complete? || w.runOutcome(state) == "finish" || w.lifecycleOutcome(state) == "finished"
                  || Field(state, "completed_at") != "" || Get(state, "active") == Bool(false))
  {
  }

  /** Where the plan is said to be: the member itself if it is a string, else its first path that is present. */
  lemma RalplanPathIs(state: State)
    ensures var member, path := Member(StateField(state, "handoff_artifacts"), "ralplan"), RalplanPath(state);
            && (member.Str? ==> path == member)
            && (!member.Str? && Present(Member(member, "plan_path")) ==> path == Member(member, "plan_path"))
            && (!member.Str? && !Present(Member(member, "plan_path")) ==>
                  path == if Present(Member(member, "prd_path")) then Member(member, "prd_path") else Member(member, "path"))
  {
  }

  lemma InterviewPathIs(state: State)
    ensures var member, path := Member(StateField(state, "handoff_artifacts"), "deep_interview"), InterviewPath(state);
            && (member.Str? ==> path == member)
            && (!member.Str? && Present(Member(member, "spec_path")) ==> path == Member(member, "spec_path"))
            && (!member.Str? && !Present(Member(member, "spec_path")) ==>
                  path == if Present(Member(member, "path")) then Member(member, "path") else Member(member, "artifact_path"))
  {
  }

  /** The architect's or the critic's review has a sequence index that is not an integer. */
  predicate ReviewIndexForged(state: State, review: string) {
    var index := Get(ObjectRecord(Get(ObjectRecord(StateField(state, "ralplan_consensus_gate")), review)), "sequence_index");
    (review == "ralplan_architect_review" || review == "ralplan_critic_review") && Present(index) && !index.Integer?
  }

  lemma ForgedIndex(w: World, state: State, review: string)
    requires ReviewIndexForged(state, review)
    ensures ForgedRalplanEvidence(w, state)
  {
    assert ForgedReview(Get(ObjectRecord(StateField(state, "ralplan_consensus_gate")), review));
  }

  /** A member of a record. */
  function Member(v: Value, key: string): Value {
    Get(ObjectRecord(v), key)
  }

  predicate Approves(review: Value) {
    var verdict := OrElse(Member(review, "verdict"), Member(review, "recommendation"));
    verdict.Str? && ToLower(Trim(verdict.s)) in {"approve", "approved", "okay"}
  }

  lemma BoundReviewMeans(v: Value, role: string, index: int, cycle: Value, session: string)
    requires BoundReview(v, role, index, cycle, session) && cycle.Integer?
    ensures Approves(v) && Member(v, "sequence_index") == Integer(index) && ReviewCycle(ObjectRecord(v)) == cycle
    ensures session != "" ==> Member(v, "session_id").Str?
  {
    assert ToLower("") == "";
  }

  /** What a complete ralplan handoff comes to: an existing plan, approvals by the architect first and by the critic
      second, and an execution authorised in one and the same session and review cycle as both. */
  lemma HandoffIsBound(w: World, state: State)
    requires HasRalplanHandoff(w, state)
    ensures var gate := StateField(state, "ralplan_consensus_gate");
            var architect, critic := Member(gate, "ralplan_architect_review"), Member(gate, "ralplan_critic_review");
            var execution := StateField(state, "ralplan_execution_handoff");
            var plan := Member(StateField(state, "handoff_artifacts"), "ralplan");
            && Approves(architect) && Approves(critic)
            && Member(architect, "sequence_index") == Integer(1) && Member(critic, "sequence_index") == Integer(2)
            && ReviewCycle(ObjectRecord(architect)).Integer?
            && ReviewCycle(ObjectRecord(architect)) == ReviewCycle(ObjectRecord(critic)) == Member(execution, "review_cycle")
            && Field(state, "session_id") != ""
            && Field(ObjectRecord(architect), "session_id") == Field(ObjectRecord(critic), "session_id")
               == Field(ObjectRecord(execution), "session_id") == Field(state, "session_id")
            && (Member(execution, "authorized") == Bool(true) || Member(execution, "authorized_by_user") == Bool(true))
            && w.exists_(state, OrElse(Member(plan, "plan_path"), Member(plan, "prd_path")), Plans)
            && Member(gate, "complete") == Bool(true) && Get(state, "active") == Bool(true)
  {
    var gate := ObjectRecord(StateField(state, "ralplan_consensus_gate"));
    var critic := Get(gate, "ralplan_critic_review");
    var session := Field(state, "session_id");
    var cycle := OrElse(ExactInteger(Get(state, "review_cycle")), ExactInteger(ReviewCycle(ObjectRecord(critic))));
    assert cycle.Integer?;
    BoundReviewMeans(Get(gate, "ralplan_architect_review"), "architect", 1, cycle, session);
    BoundReviewMeans(critic, "critic", 2, cycle, session);
  }

  lemma {:induction false} AnyFieldMeans(v: State, keys: seq<string>) returns (key: string)
    requires AnyField(v, keys)
    ensures key in keys && Field(v, key) != ""
  {
    if Field(v, keys[0]) != "" {
      key := keys[0];
    } else {
      key := AnyFieldMeans(v, keys[1..]);
    }
  }

  /** Clean evidence has two approving verdicts, each with a locator, and no locator in common. */
  lemma CleanEvidenceHasLocators(w: World, state: State)
    requires CleanEvidence(w, state) && !w.isCiUrl("")
    ensures var review, qa := ReviewVerdict(state), QaVerdict(state);
            && Get(review, "clean") == Bool(true) && Field(review, "stage") == "code-review"
            && Get(qa, "clean") == Bool(true) && Field(qa, "stage") == "ultraqa"
            && ToLower(Field(review, "recommendation")) == "approve"
            && Locators(review) != {} && Locators(qa) != {} && Locators(review) !! Locators(qa)
  {
    var review, qa := ReviewVerdict(state), QaVerdict(state);
    if Field(review, "artifact_path") != "" {
      LocatorOf(review, "artifact_path");
    } else {
      var key := AnyFieldMeans(review, ["review_url", "thread_id", "agent_id", "tool_call_id", "url"]);
      LocatorOf(review, key);
    }
    if Field(qa, "artifact_path") != "" {
      LocatorOf(qa, "artifact_path");
    } else {
      QaLocator(w, qa);
    }
  }

  /** Neither verdict of clean evidence is the other one in disguise, a skipped QA gives its reason, and the leader does
      not vouch for its own QA. */
  lemma CleanEvidenceIsGenuine(w: World, state: State)
    requires CleanEvidence(w, state)
    ensures var review, qa := ReviewVerdict(state), QaVerdict(state);
            && !w.namesUltraqa(JoinFields(review, EVIDENCE_KEYS)) && !w.namesCodeReview(JoinFields(qa, EVIDENCE_KEYS))
            && (Field(review, "url") != "" ==> !w.isCiUrl(Field(review, "url")))
            && ToLower(Field(review, "architectural_status")) == "clear"
            && ToLower(Field(qa, "source")) != "leader" && !Contains(ToLower(Field(qa, "source")), "code-review")
            && (Get(qa, "skipped") == Bool(true) ==> Field(qa, "reason") != "" || Field(qa, "skip_reason") != "")
            && (Field(review, "artifact_path") != "" ==> w.namesCodeReview(JoinFields(review, EVIDENCE_KEYS)))
            && (Field(qa, "artifact_path") != "" && ToLower(Field(qa, "artifact_path")) != "" ==>
                  w.namesUltraqa(JoinFields(qa, EVIDENCE_KEYS)) || w.namesQa(ToLower(Field(qa, "artifact_path"))))
  {
  }

  lemma LocatorOf(v: State, key: string)
    requires key in LOCATOR_KEYS && Field(v, key) != ""
    ensures Locators(v) != {}
  {
    assert Field(v, key) in Locators(v);
  }

  lemma QaLocator(w: World, qa: State)
    requires HasUltraqaLocator(w, qa) && Field(qa, "artifact_path") == "" && !w.isCiUrl("")
    ensures Locators(qa) != {}
  {
    assert ToLower("") == "";
    if Field(qa, "qa_url") != "" {
      LocatorOf(qa, "qa_url");
    } else if Field(qa, "url") != "" {
      LocatorOf(qa, "url");
    } else if Field(qa, "tool_call_id") != "" {
      LocatorOf(qa, "tool_call_id");
    } else {
      LocatorOf(qa, "thread_id");
    }
  }
}

/** The completion gate and the runs it lets through without an advisory. */
module AutopilotGate {
  import opened Autopilot

  datatype SkippedGate = AutopilotPhase | RalplanGate | InterviewHandoff | UltragoalGate | RalplanHandoff | CodeReviewGate
                       | PhaseOrder | UltraqaGate | UltraqaEvidence

  datatype Verdict = Silent | Advisory(skippedGate: SkippedGate) | Refused

  /** The checks on a transition, in the order the program makes them. */
  function Validate(g: Gate, current: State, next: State, allowUnknown: bool): Verdict {
    var p, q, success := g.phase(current), g.phase(next), g.success(next);
    if !g.carriersValid(current) || !g.carriersValid(next) then Refused
    else if success && g.active(current) && p.Unknown? && !allowUnknown then Advisory(AutopilotPhase)
    else if p == Child(DeepInterview) && success then Advisory(RalplanGate)
    else if p == Child(DeepInterview) && q == Child(Ralplan) && g.interviewOutOfScope(next) then Refused
    else if p == Child(DeepInterview) && q == Child(Ralplan) && !g.interviewHandoff(next) then Advisory(InterviewHandoff)
    else if p == Child(Ralplan) && success then Advisory(UltragoalGate)
    else if p == Child(Ralplan) && q == Child(Ultragoal) && (g.ralplanOutOfScope(next) || g.forged(next)) then Refused
    else if p == Child(Ralplan) && q == Child(Ultragoal) && !g.ralplanHandoff(next) then Advisory(RalplanHandoff)
    else if p.Child? && IsImplementation(p.phase) && (success || q == Child(Ultraqa)) then Advisory(CodeReviewGate)
    else if p.Child? && q.Child? && q.phase !in Allowed(p.phase) then Advisory(PhaseOrder)
    else if p == Child(CodeReview) && success then Advisory(UltraqaGate)
    else if p == Child(Ultraqa) && success && !g.cleanEvidence(next) then Advisory(UltraqaEvidence)
    else Silent
  }

  /** Evidence that must not get through from phase p to a state of phase q. */
  ghost predicate BadEvidence(g: Gate, current: State, next: State) {
    || (g.phase(current) == Child(DeepInterview) && g.phase(next) == Child(Ralplan) && g.interviewOutOfScope(next))
    || (g.phase(current) == Child(Ralplan) && g.phase(next) == Child(Ultragoal) && (g.ralplanOutOfScope(next) || g.forged(next)))
  }

  /** A transition is refused iff a carrier is invalid or, unless it ends successfully, it brings bad evidence. */
  lemma RefusedIff(g: Gate, current: State, next: State, allowUnknown: bool)
    ensures Validate(g, current, next, allowUnknown).Refused? <==>
              !g.carriersValid(current) || !g.carriersValid(next) || (!g.success(next) && BadEvidence(g, current, next))
  {
  }

  /** Each advisory names the gate that was skipped: exactly when. */
  lemma AdvisoryIff(g: Gate, current: State, next: State, allowUnknown: bool)
    requires g.carriersValid(current) && g.carriersValid(next)
    ensures var p, q, success, v := g.phase(current), g.phase(next), g.success(next), Validate(g, current, next, allowUnknown);
            var bad, ordered := BadEvidence(g, current, next), p.Child? && q.Child? ==> InOrder(p.phase, q.phase);
            && (v == Advisory(AutopilotPhase) <==> success && g.active(current) && p.Unknown? && !allowUnknown)
            && (v == Advisory(RalplanGate) <==> p == Child(DeepInterview) && success)
            && (v == Advisory(UltragoalGate) <==> p == Child(Ralplan) && success)
            && (v == Advisory(CodeReviewGate) <==> p.Child? && IsImplementation(p.phase) && (success || q == Child(Ultraqa)))
            && (v == Advisory(UltraqaGate) <==> p == Child(CodeReview) && success && ordered)
            && (v == Advisory(UltraqaEvidence) <==> p == Child(Ultraqa) && success && ordered && !g.cleanEvidence(next))
            && (v == Advisory(InterviewHandoff) <==>
                  p == Child(DeepInterview) && q == Child(Ralplan) && !success && !bad && !g.interviewHandoff(next))
            && (v == Advisory(RalplanHandoff) <==>
                  p == Child(Ralplan) && q == Child(Ultragoal) && !success && !bad && !g.ralplanHandoff(next))
            && (v == Advisory(PhaseOrder) <==>
                  && !ordered && !(IsImplementation(p.phase) && (success || q == Child(Ultraqa)))
                  && !(p.phase in {DeepInterview, Ralplan} && success))
  {
    if g.phase(current).Child? && g.phase(next).Child? {
      AllowedIff(g.phase(current).phase, g.phase(next).phase);
    }
  }

  /** The order of phases: stay, move down the pipeline, change between implementation phases through team, hand any
      implementation over to code-review, go back from review to rework and from review or QA to planning. */
  predicate InOrder(p: Phase, q: Phase) {
    || q == p
    || (p.DeepInterview? && q.Ralplan?) || (p.Ralplan? && q.Ultragoal?) || (p.CodeReview? && q.Ultraqa?)
    || (IsImplementation(p) && q.CodeReview?)
    || (p.Team? && (q.Ultragoal? || q.Rework?)) || (q.Team? && (p.Ultragoal? || p.Rework?))
    || (p.CodeReview? && (q.Rework? || q.Ralplan?)) || (p.Ultraqa? && q.Ralplan?)
  }

  lemma AllowedIff(p: Phase, q: Phase)
    ensures q in Allowed(p) <==> InOrder(p, q)
  {
  }

  /** Consecutive transitions none of which is refused, with advisories or without. */
  ghost predicate PermittedRun(g: Gate, run: seq<State>, allowUnknown: nat -> bool) {
    forall i, j :: 0 <= i && j == i + 1 && j < |run| ==> !Validate(g, run[i], run[j], allowUnknown(i)).Refused?
  }

  /** However many advisories are ignored: a run is permitted iff all its carriers are valid and no transition but one
      to a successful end brings an interview artifact that is out of scope to ralplan, or a plan that is out of scope
      or forged evidence to ultragoal. */
  lemma PermittedIff(g: Gate, run: seq<State>, allowUnknown: nat -> bool)
    requires |run| >= 2
    ensures PermittedRun(g, run, allowUnknown) <==>
              && (forall i :: 0 <= i < |run| ==> g.carriersValid(run[i]))
              && (forall i, j :: 0 <= i && j == i + 1 && j < |run| ==> !(!g.success(run[j]) && BadEvidence(g, run[i], run[j])))
  {
    forall i, j | 0 <= i && j == i + 1 && j < |run|
      ensures Validate(g, run[i], run[j], allowUnknown(i)).Refused? <==>
                !g.carriersValid(run[i]) || !g.carriersValid(run[j]) || (!g.success(run[j]) && BadEvidence(g, run[i], run[j]))
    {
      RefusedIff(g, run[i], run[j], allowUnknown(i));
    }
    if PermittedRun(g, run, allowUnknown) {
      forall i | 0 <= i < |run| ensures g.carriersValid(run[i]) {
        CarriersChecked(g, run, allowUnknown, i);
      }
    }
  }

  lemma CarriersChecked(g: Gate, run: seq<State>, allowUnknown: nat -> bool, i: nat)
    requires |run| >= 2 && PermittedRun(g, run, allowUnknown) && i < |run|
    ensures g.carriersValid(run[i])
  {
    var a := if i > 0 then i - 1 else i;
    var b := a + 1;
    assert !Validate(g, run[a], run[b], allowUnknown(a)).Refused?;
  }

  /** The exception: a transition from ralplan to a successful end gets an advisory whatever evidence it brings. */
  lemma SuccessHidesForgery(g: Gate, current: State, next: State, allowUnknown: bool)
    requires g.carriersValid(current) && g.carriersValid(next)
    requires g.phase(current) == Child(Ralplan) && g.success(next) && BadEvidence(g, current, next)
    ensures Validate(g, current, next, allowUnknown) == Advisory(UltragoalGate)
  {
  }

  lemma ForgedIsRefused(g: Gate, current: State, next: State, allowUnknown: bool)
    requires g.forged(next) && g.phase(current) == Child(Ralplan) && g.phase(next) == Child(Ultragoal) && !g.success(next)
    ensures Validate(g, current, next, allowUnknown).Refused?
  {
  }

  /** The gate of the program: a review whose place in the sequence is given, but not as an integer, is refused. */
  lemma ForgedIndexIsRefused(g: Gate, w: World, current: State, next: State, review: string, allowUnknown: bool)
    requires g.forged == ForgedBy(w) && g.phase(current) == Child(Ralplan) && g.phase(next) == Child(Ultragoal) && !g.success(next)
    requires ReviewIndexForged(next, review)
    ensures Validate(g, current, next, allowUnknown).Refused?
  {
    ForgedIndex(w, next, review);
    ForgedBySays(w, next);
    ForgedIsRefused(g, current, next, allowUnknown);
  }

  /** From a child phase, exactly ultraqa with clean evidence may end successfully without an advisory. */
  lemma SuccessIsSilentIff(g: Gate, current: State, next: State, allowUnknown: bool)
    requires g.carriersValid(current) && g.carriersValid(next) && g.phase(current).Child? && g.success(next)
    ensures Validate(g, current, next, allowUnknown).Silent? <==>
              && g.phase(current) == Child(Ultraqa) && g.cleanEvidence(next)
              && (g.phase(next).Child? ==> g.phase(next).phase in {Ultraqa, Ralplan})
  {
  }

  /** A state outside the child phases is a way around the gates: the interview, an inactive state of unknown phase
      and a successful end follow each other without an advisory. */
  lemma UnknownPhaseBypasses(g: Gate, interview: State, idle: State, end: State, allowUnknown: bool)
    requires g.carriersValid(interview) && g.carriersValid(idle) && g.carriersValid(end)
    requires g.phase(interview) == Child(DeepInterview) && g.phase(idle).Unknown?
    requires !g.active(idle) && !g.success(idle) && g.success(end)
    ensures Validate(g, interview, idle, allowUnknown).Silent? && Validate(g, idle, end, allowUnknown).Silent?
  {
  }

  /** A run whose states but the last are in a child phase, from the interview to a successful end. */
  ghost predicate SilentRun(g: Gate, run: seq<State>) {
    && |run| >= 2
    && (forall i :: 0 <= i < |run| - 1 ==> g.phase(run[i]).Child?)
    && g.phase(run[0]) == Child(DeepInterview)
    && (forall i, j :: 0 <= i && j == i + 1 && j < |run| ==> Validate(g, run[i], run[j], false).Silent?)
    && g.success(run[|run| - 1])
  }

  function PhaseAt(g: Gate, run: seq<State>, i: nat): Phase
    requires i < |run| && g.phase(run[i]).Child?
  {
    g.phase(run[i]).phase
  }

  lemma SilentStep(g: Gate, run: seq<State>, i: nat)
    requires SilentRun(g, run) && i + 1 < |run| - 1
    ensures PhaseAt(g, run, i + 1) in Allowed(PhaseAt(g, run, i))
    ensures PhaseAt(g, run, i) == DeepInterview && PhaseAt(g, run, i + 1) == Ralplan ==> g.interviewHandoff(run[i + 1])
    ensures PhaseAt(g, run, i) == Ralplan && PhaseAt(g, run, i + 1) == Ultragoal ==>
              g.ralplanHandoff(run[i + 1]) && !g.forged(run[i + 1])
  {
    assert Validate(g, run[i], run[i + 1], false).Silent?;
  }

  lemma SilentEnd(g: Gate, run: seq<State>)
    requires SilentRun(g, run)
    ensures PhaseAt(g, run, |run| - 2) == Ultraqa && g.cleanEvidence(run[|run| - 1])
  {
    var n := |run| - 2;
    assert Validate(g, run[n], run[n + 1], false).Silent?;
  }

  /** The first time a run leaves a set of phases. */
  lemma {:induction false} FirstExit(g: Gate, run: seq<State>, i: nat, j: nat, inside: set<Phase>) returns (k: nat)
    requires SilentRun(g, run) && i < j < |run| - 1
    requires PhaseAt(g, run, i) in inside && PhaseAt(g, run, j) !in inside
    ensures i < k <= j && PhaseAt(g, run, k - 1) in inside && PhaseAt(g, run, k) !in inside
    ensures PhaseAt(g, run, k) in Allowed(PhaseAt(g, run, k - 1))
    ensures forall m :: i <= m < k ==> PhaseAt(g, run, m) in inside
    decreases j - i
  {
    SilentStep(g, run, i);
    if PhaseAt(g, run, i + 1) in inside {
      k := FirstExit(g, run, i + 1, j, inside);
    } else {
      k := i + 1;
    }
  }

  /** The last time a run enters a set of phases. */
  lemma {:induction false} LastEntry(g: Gate, run: seq<State>, i: nat, j: nat, inside: set<Phase>) returns (k: nat)
    requires SilentRun(g, run) && i < j < |run| - 1
    requires PhaseAt(g, run, i) !in inside && PhaseAt(g, run, j) in inside
    ensures i < k <= j && PhaseAt(g, run, k - 1) !in inside && PhaseAt(g, run, k) in Allowed(PhaseAt(g, run, k - 1))
    ensures forall m :: k <= m <= j ==> PhaseAt(g, run, m) in inside
    decreases j - i
  {
    var before := j - 1;
    SilentStep(g, run, before);
    if PhaseAt(g, run, before) in inside {
      k := LastEntry(g, run, i, before, inside);
      forall m | k <= m <= j ensures PhaseAt(g, run, m) in inside {
        assert m == j || m <= before;
      }
    } else {
      k := j;
    }
  }

  ghost predicate GoalReviewQa(g: Gate, run: seq<State>, i: nat, goal: nat, review: nat, qa: nat)
    requires SilentRun(g, run)
  {
    && i < goal < review < qa < |run| - 1
    && PhaseAt(g, run, goal) == Ultragoal && PhaseAt(g, run, review) == CodeReview && PhaseAt(g, run, qa) == Ultraqa
    && g.ralplanHandoff(run[goal]) && !g.forged(run[goal])
  }

  lemma RalplanToUltragoal(g: Gate, run: seq<State>, i: nat) returns (goal: nat)
    requires SilentRun(g, run) && i < |run| - 1 && PhaseAt(g, run, i) == Ralplan
    ensures i < goal < |run| - 1 && PhaseAt(g, run, goal) == Ultragoal && g.ralplanHandoff(run[goal]) && !g.forged(run[goal])
  {
    SilentEnd(g, run);
    goal := FirstExit(g, run, i, |run| - 2, {Ralplan});
    SilentStep(g, run, goal - 1);
  }

  lemma UltragoalToReview(g: Gate, run: seq<State>, i: nat) returns (review: nat)
    requires SilentRun(g, run) && i < |run| - 1 && PhaseAt(g, run, i) == Ultragoal
    ensures i < review < |run| - 2 && PhaseAt(g, run, review) == CodeReview
  {
    SilentEnd(g, run);
    review := FirstExit(g, run, i, |run| - 2, {Ultragoal, Team, Rework});
  }

  /** After any visit to ralplan, the run goes through ultragoal with a genuine handoff, then code-review,
      then ultraqa. */
  lemma AfterRalplan(g: Gate, run: seq<State>, i: nat) returns (goal: nat, review: nat, qa: nat)
    requires SilentRun(g, run) && i < |run| - 1 && PhaseAt(g, run, i) == Ralplan
    ensures GoalReviewQa(g, run, i, goal, review, qa)
  {
    SilentEnd(g, run);
    qa := |run| - 2;
    goal := RalplanToUltragoal(g, run, i);
    review := UltragoalToReview(g, run, goal);
  }

  lemma {:induction false} NeverBack(g: Gate, run: seq<State>, i: nat)
    requires SilentRun(g, run) && i < |run| - 1 && PhaseAt(g, run, i) !in {DeepInterview, Ralph}
    ensures forall m :: i <= m < |run| - 1 ==> PhaseAt(g, run, m) !in {DeepInterview, Ralph}
    decreases |run| - i
  {
    if i + 1 < |run| - 1 {
      SilentStep(g, run, i);
      NeverBack(g, run, i + 1);
    }
  }

  /** What every advisory-free successful run has gone through. */
  lemma SilentRunPassesEveryGate(g: Gate, run: seq<State>) returns (plan: nat, goal: nat, review: nat, qa: nat)
    requires SilentRun(g, run)
    ensures 0 < plan < |run| - 1 && PhaseAt(g, run, plan) == Ralplan && g.interviewHandoff(run[plan])
    ensures forall m :: 0 <= m < plan ==> PhaseAt(g, run, m) == DeepInterview
    ensures GoalReviewQa(g, run, plan, goal, review, qa)
    ensures forall m :: plan <= m < |run| - 1 ==> PhaseAt(g, run, m) !in {DeepInterview, Ralph}
    ensures g.cleanEvidence(run[|run| - 1])
  {
    SilentEnd(g, run);
    plan := FirstExit(g, run, 0, |run| - 2, {DeepInterview});
    SilentStep(g, run, plan - 1);
    goal, review, qa := AfterRalplan(g, run, plan);
    NeverBack(g, run, plan);
  }

  /** The final stretch of ultraqa is entered from code-review. */
  lemma FinalQaFollowsReview(g: Gate, run: seq<State>) returns (entry: nat)
    requires SilentRun(g, run)
    ensures 0 < entry <= |run| - 2 && PhaseAt(g, run, entry - 1) == CodeReview
    ensures forall m :: entry <= m <= |run| - 2 ==> PhaseAt(g, run, m) == Ultraqa
  {
    SilentEnd(g, run);
    entry := LastEntry(g, run, 0, |run| - 2, {Ultraqa});
  }

  /** The gate of the program: such a run ends with clean review and QA evidence. */
  lemma ProgramRunEndsClean(w: World, g: Gate, run: seq<State>)
    requires g.cleanEvidence == CleanBy(w) && SilentRun(g, run)
    ensures CleanEvidence(w, run[|run| - 1])
  {
    SilentEnd(g, run);
    CleanBySays(w, run[|run| - 1]);
  }

  /** The gate of the program: such a run has handed over the interview and then a plan approved and authorised in its
      own session and cycle. */
  lemma ProgramRunHandsOver(w: World, g: Gate, run: seq<State>) returns (plan: nat, goal: nat)
    requires g.interviewHandoff == InterviewHandoffBy(w) && g.ralplanHandoff == RalplanHandoffBy(w) && g.forged == ForgedBy(w)
    requires SilentRun(g, run)
    ensures 0 < plan < goal < |run| - 1
    ensures HasDeepInterviewHandoff(w, run[plan])
    ensures HasRalplanHandoff(w, run[goal]) && !ForgedRalplanEvidence(w, run[goal])
  {
    var review, qa;
    plan, goal, review, qa := SilentRunPassesEveryGate(g, run);
    InterviewHandoffBySays(w, run[plan]);
    RalplanHandoffBySays(w, run[goal]);
    ForgedBySays(w, run[goal]);
  }
}
