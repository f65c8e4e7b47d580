/** Publication of a native binary into a shared cache directory.

    Publishers of one destination exclude each other with a lock file, build the binary and its checksum
    under names of their own, move what is in the way aside, and rename both into place one after the
    other.  Readers inspect the two files without any lock.  Any process may stop at any step.

    The protocol is a step system over one destination.  A process makes one attempt; temporary files
    carry the attempt's unique name, so they are part of its local state. */
module NativeCache {
  import opened Prelude

  type Pid = nat
  newtype Byte = b: int | 0 <= b < 256
  type Bytes = seq<Byte>

  /** SHA-256, taken as injective. */
  datatype Digest = Sha256(of: Bytes)

  /** Who put a file in place; it doubles as the identity lstat reports. */
  datatype Origin = Before | Attempt(pid: Pid)

  /** A file at the destination; safe means regular, not a symbolic link, with one link. */
  datatype Binary = Binary(bytes: Bytes, safe: bool, origin: Origin)

  datatype Line = Hex(digest: Digest) | Malformed

  datatype Sidecar = Sidecar(line: Line, safe: bool, origin: Origin)

  datatype Lock = Lock(owner: Pid, written: bool)

  // ---------- Inspection ----------

  datatype Verdict = Verified(bytes: Bytes) | NotVerified

  /** Progress of an inspection: each file is opened and read, then its path is looked up again. */
  datatype Look =
    | LookBinary
    | OpenedBinary(b: Binary)
    | LookSidecar(b: Binary)
    | OpenedSidecar(b: Binary, t: Sidecar)
    | Looked(verdict: Verdict)

  predicate Usable(b: Binary) {
    b.safe && b.bytes != []
  }

  function LookStep(s: System, look: Look): Look {
    match look
    case LookBinary =>
      if s.binary.Some? && Usable(s.binary.value) then OpenedBinary(s.binary.value) else Looked(NotVerified)
    case OpenedBinary(b) =>
      if s.binary == Some(b) then LookSidecar(b) else Looked(NotVerified)
    case LookSidecar(b) =>
      if s.sidecar.Some? && s.sidecar.value.safe then OpenedSidecar(b, s.sidecar.value) else Looked(NotVerified)
    case OpenedSidecar(b, t) =>
      if s.sidecar == Some(t) && t.line == Hex(Sha256(b.bytes)) then Looked(Verified(b.bytes)) else Looked(NotVerified)
    case Looked(_) => look
  }

  // ---------- Processes ----------

  datatype Stage =
    | Waiting
    | LockCreated
    | LockWritten
    | Checking(look: Look)
    | Copying
    | TempBinary
    | TempBoth
    | QuarantinedBinary
    | QuarantinedBoth
    | PlacedBinary
    | Confirming(look: Look)
    | Cleaning(result: Option<Bytes>)
    | Releasing(result: Option<Bytes>)
    | Finished(result: Option<Bytes>)

  datatype Process = Reader(look: Look) | Publisher(source: Bytes, stage: Stage)

  datatype System = System(lock: Option<Lock>, binary: Option<Binary>, sidecar: Option<Sidecar>,
                           processes: map<Pid, Process>, crashed: set<Pid>)

  /** What the environment makes of a process's next step. */
  datatype Choice = Proceed | Fail | Crash

  function SetStage(s: System, p: Pid, source: Bytes, stage: Stage): System {
    s.(processes := s.processes[p := Publisher(source, stage)])
  }

  function Confirmed(look: Look): Option<Bytes>
    requires look.Looked?
  {
    if look.verdict.Verified? then Some(look.verdict.bytes) else None
  }

  function PublisherStep(s: System, p: Pid, source: Bytes, stage: Stage): System {
    match stage
    case Waiting =>
      if s.lock.None? then SetStage(s, p, source, LockCreated).(lock := Some(Lock(p, false))) else s
    case LockCreated =>
      SetStage(s, p, source, LockWritten).(lock := if s.lock.Some? then Some(s.lock.value.(written := true)) else None)
    case LockWritten =>
      if s.lock == Some(Lock(p, true)) then SetStage(s, p, source, Checking(LookBinary))
      else SetStage(s, p, source, Finished(None))
    case Checking(look) =>
      if !look.Looked? then SetStage(s, p, source, Checking(LookStep(s, look)))
      else if look.verdict.Verified? then SetStage(s, p, source, Cleaning(Confirmed(look)))
      else SetStage(s, p, source, Copying)
    case Copying => SetStage(s, p, source, if source != [] then TempBinary else Cleaning(None))
    case TempBinary => SetStage(s, p, source, TempBoth)
    case TempBoth => SetStage(s, p, source, QuarantinedBinary).(binary := None)
    case QuarantinedBinary => SetStage(s, p, source, QuarantinedBoth).(sidecar := None)
    case QuarantinedBoth => SetStage(s, p, source, PlacedBinary).(binary := Some(Binary(source, true, Attempt(p))))
    case PlacedBinary =>
      SetStage(s, p, source, Confirming(LookBinary)).(sidecar := Some(Sidecar(Hex(Sha256(source)), true, Attempt(p))))
    case Confirming(look) =>
      if look.Looked? then SetStage(s, p, source, Cleaning(Confirmed(look)))
      else SetStage(s, p, source, Confirming(LookStep(s, look)))
    case Cleaning(result) =>
      if s.lock == Some(Lock(p, true)) then SetStage(s, p, source, Releasing(result))
      else SetStage(s, p, source, Finished(if s.lock.None? then result else None))
    case Releasing(result) => SetStage(s, p, source, Finished(result)).(lock := None)
    case Finished(_) => s
  }

  /** An error thrown out of a step: before the lock is held it ends the attempt, leaving whatever lock
      file exists; afterwards it leads to the cleanup. */
  function PublisherFails(s: System, p: Pid, source: Bytes, stage: Stage): System {
    match stage
    case Finished(_) => s
    case Waiting | LockCreated | LockWritten | Cleaning(_) | Releasing(_) => SetStage(s, p, source, Finished(None))
    case _ => SetStage(s, p, source, Cleaning(None))
  }

  function Step(s: System, p: Pid, c: Choice): System {
    if p !in s.processes || p in s.crashed then s
    else if c.Crash? then s.(crashed := s.crashed + {p})
    else
      match s.processes[p]
      case Reader(look) =>
        s.(processes := s.processes[p := Reader(if c.Fail? then Looked(NotVerified) else LookStep(s, look))])
      case Publisher(source, stage) =>
        if c.Fail? then PublisherFails(s, p, source, stage) else PublisherStep(s, p, source, stage)
  }

  /** Any interleaving: which process moves, and how. */
  function Run(s: System, events: seq<(Pid, Choice)>): System
    decreases |events|
  {
    if events == [] then s else Run(Step(s, events[0].0, events[0].1), events[1..])
  }

  /** Any files may be in place beforehand, and the lock of an earlier run may have been left behind. */
  ghost predicate Init(s: System) {
    && s.crashed == {}
    && (s.lock.Some? ==> s.lock.value.owner !in s.processes)
    && (s.binary.Some? ==> s.binary.value.origin == Before)
    && (s.sidecar.Some? ==> s.sidecar.value.origin == Before)
    && (forall p :: p in s.processes ==> s.processes[p] == Reader(LookBinary)
                                         || (s.processes[p].Publisher? && s.processes[p].stage == Waiting))
  }

  // ---------- The invariant ----------

  ghost predicate PairVerified(binary: Option<Binary>, sidecar: Option<Sidecar>) {
    && binary.Some? && binary.value.safe && binary.value.bytes != []
    && sidecar.Some? && sidecar.value.safe
    && sidecar.value.line == Hex(Sha256(binary.value.bytes))
  }

  ghost predicate VerifiedWith(s: System, bytes: Bytes) {
    PairVerified(s.binary, s.sidecar) && s.binary.value.bytes == bytes
  }

  /** Between the creation of the lock file and its removal. */
  predicate Critical(stage: Stage) {
    !stage.Waiting? && !stage.Finished?
  }

  ghost predicate HoldsLock(s: System, p: Pid) {
    p in s.processes && s.processes[p].Publisher? && Critical(s.processes[p].stage) ==>
      s.lock == Some(Lock(p, !s.processes[p].stage.LockCreated?))
  }

  ghost predicate Exclusion(s: System) {
    forall p :: p in s.processes ==> HoldsLock(s, p)
  }

  /** What the files look like to a publisher that holds the lock. */
  ghost predicate LookCurrent(s: System, look: Look) {
    match look
    case LookBinary => true
    case OpenedBinary(b) => s.binary == Some(b) && Usable(b)
    case LookSidecar(b) => s.binary == Some(b) && Usable(b)
    case OpenedSidecar(b, t) => s.binary == Some(b) && Usable(b) && s.sidecar == Some(t) && t.safe
    case Looked(NotVerified) => !PairVerified(s.binary, s.sidecar)
    case Looked(Verified(bytes)) => VerifiedWith(s, bytes)
  }

  ghost predicate Own(s: System, p: Pid, source: Bytes) {
    && s.binary == Some(Binary(source, true, Attempt(p)))
    && s.sidecar == Some(Sidecar(Hex(Sha256(source)), true, Attempt(p)))
  }

  ghost predicate StageOk(s: System, p: Pid, source: Bytes, stage: Stage) {
    match stage
    case Checking(look) => LookCurrent(s, look)
    case Copying => !PairVerified(s.binary, s.sidecar)
    case TempBinary => source != [] && !PairVerified(s.binary, s.sidecar)
    case TempBoth => source != [] && !PairVerified(s.binary, s.sidecar)
    case QuarantinedBinary => source != [] && s.binary.None?
    case QuarantinedBoth => source != [] && s.binary.None? && s.sidecar.None?
    case PlacedBinary => source != [] && s.binary == Some(Binary(source, true, Attempt(p))) && s.sidecar.None?
    case Confirming(look) => source != [] && Own(s, p, source) && LookCurrent(s, look) && look != Looked(NotVerified)
    case Cleaning(result) => result.Some? ==> VerifiedWith(s, result.value)
    case Releasing(result) => result.Some? ==> VerifiedWith(s, result.value)
    case Finished(result) => result.Some? ==> VerifiedWith(s, result.value)
    case _ => true
  }

  /** What a reader may still hold in its hands while publishers move on. */
  ghost predicate ReaderOk(s: System, first: System, look: Look) {
    match look
    case LookBinary => true
    case OpenedBinary(b) => Seen(s, first, b)
    case LookSidecar(b) => Seen(s, first, b)
    case OpenedSidecar(b, t) => Seen(s, first, b) && t.safe && (t.origin.Before? ==> first.sidecar == Some(t) && b.origin.Before?)
    case Looked(NotVerified) => true
    case Looked(Verified(bytes)) => VerifiedWith(s, bytes)
  }

  ghost predicate Seen(s: System, first: System, b: Binary) {
    && Usable(b)
    && (b.origin.Before? ==> first.binary == Some(b))
    && (s.sidecar.Some? && s.sidecar.value.origin.Before? ==> b.origin.Before?)
  }

  ghost predicate Files(s: System, first: System) {
    && (s.binary.Some? && s.binary.value.origin.Before? ==> s.binary == first.binary)
    && (s.sidecar.Some? && s.sidecar.value.origin.Before? ==> s.sidecar == first.sidecar)
    && (s.sidecar.Some? && s.sidecar.value.origin.Attempt? ==>
          PairVerified(s.binary, s.sidecar) && s.binary.value.origin == s.sidecar.value.origin)
    && (s.binary.Some? && s.binary.value.origin.Attempt? && s.sidecar.Some? ==> s.sidecar.value.origin == s.binary.value.origin)
    && (PairVerified(first.binary, first.sidecar) ==> s.binary == first.binary && s.sidecar == first.sidecar)
  }

  ghost predicate Inv(s: System, first: System) {
    && Exclusion(s)
    && Files(s, first)
    && (forall p :: p in s.processes && s.processes[p].Publisher? ==> StageOk(s, p, s.processes[p].source, s.processes[p].stage))
    && (forall p :: p in s.processes && s.processes[p].Reader? ==> ReaderOk(s, first, s.processes[p].look))
  }

  lemma InitInv(s: System)
    requires Init(s)
    ensures Inv(s, s)
  {
  }

  /** Only the process that moves changes its own state. */
  lemma OthersUntouched(s: System, p: Pid, c: Choice)
    ensures Step(s, p, c).processes.Keys == s.processes.Keys
    ensures forall q :: q in s.processes && q != p ==> Step(s, p, c).processes[q] == s.processes[q]
    ensures p in s.processes ==> (Step(s, p, c).processes[p].Publisher? == s.processes[p].Publisher?)
    ensures p in s.processes && s.processes[p].Publisher? ==> Step(s, p, c).processes[p].source == s.processes[p].source
  {
  }

  /** The files change only under the lock, and the lock only by its creator. */
  lemma ChangesNeedTheLock(s: System, first: System, p: Pid, c: Choice)
    requires Inv(s, first)
    ensures var s' := Step(s, p, c);
            && (s'.lock == s.lock || s.lock.None? || s.lock.value.owner == p)
            && (s'.binary != s.binary || s'.sidecar != s.sidecar ==> s.lock == Some(Lock(p, true)))
  {
  }

  /** A verified pair is never taken apart. */
  lemma VerifiedStable(s: System, first: System, p: Pid, c: Choice)
    requires Inv(s, first) && PairVerified(s.binary, s.sidecar)
    ensures Step(s, p, c).binary == s.binary && Step(s, p, c).sidecar == s.sidecar
  {
    if p in s.processes && s.processes[p].Publisher? {
      assert StageOk(s, p, s.processes[p].source, s.processes[p].stage);
    }
  }

  lemma FilesKept(s: System, first: System, p: Pid, c: Choice)
    requires Inv(s, first)
    ensures Files(Step(s, p, c), first)
  {
    if p in s.processes && s.processes[p].Publisher? {
      assert StageOk(s, p, s.processes[p].source, s.processes[p].stage);
    }
    if PairVerified(s.binary, s.sidecar) {
      VerifiedStable(s, first, p, c);
    }
  }

  lemma OwnExclusion(s: System, p: Pid, c: Choice)
    requires HoldsLock(s, p)
    ensures HoldsLock(Step(s, p, c), p)
  {
  }

  lemma OtherExclusion(s: System, p: Pid, c: Choice, q: Pid)
    requires q != p && HoldsLock(s, q)
    requires Step(s, p, c).lock == s.lock || s.lock.None? || s.lock.value.owner == p
    ensures HoldsLock(Step(s, p, c), q)
  {
    OthersUntouched(s, p, c);
  }

  lemma ExclusionKept(s: System, first: System, p: Pid, c: Choice)
    requires Inv(s, first)
    ensures Exclusion(Step(s, p, c))
  {
    var s' := Step(s, p, c);
    ChangesNeedTheLock(s, first, p, c);
    forall q | q in s'.processes ensures HoldsLock(s', q) {
      assert HoldsLock(s, q);
      if q == p {
        OwnExclusion(s, p, c);
      } else {
        OtherExclusion(s, p, c, q);
      }
    }
  }

  lemma LookStepCurrent(s: System, look: Look)
    requires LookCurrent(s, look)
    ensures LookCurrent(s, LookStep(s, look))
    ensures PairVerified(s.binary, s.sidecar) && look != Looked(NotVerified) ==> LookStep(s, look) != Looked(NotVerified)
  {
  }

  ghost predicate PublisherOk(s: System, p: Pid) {
    p in s.processes && s.processes[p].Publisher? && StageOk(s, p, s.processes[p].source, s.processes[p].stage)
  }

  /** Up to the quarantine, and after the confirmation. */
  lemma PlainStepOk(s: System, p: Pid, source: Bytes, stage: Stage)
    requires PublisherOk(s, p) && s.processes[p] == Publisher(source, stage) && (Critical(stage) ==> s.lock.Some?)
    requires !stage.Checking? && !stage.Confirming?
    ensures PublisherOk(PublisherStep(s, p, source, stage), p)
  {
  }

  lemma LookingStepOk(s: System, p: Pid, source: Bytes, stage: Stage)
    requires PublisherOk(s, p) && s.processes[p] == Publisher(source, stage)
    requires stage.Checking? || stage.Confirming?
    ensures PublisherOk(PublisherStep(s, p, source, stage), p)
  {
    LookStepCurrent(s, stage.look);
  }

  lemma FailingStepOk(s: System, p: Pid, source: Bytes, stage: Stage)
    requires PublisherOk(s, p) && s.processes[p] == Publisher(source, stage)
    ensures PublisherOk(PublisherFails(s, p, source, stage), p)
  {
  }

  /** The publisher that moves stays in step with the files. */
  lemma OwnStageKept(s: System, first: System, p: Pid, c: Choice)
    requires Inv(s, first) && p in s.processes && s.processes[p].Publisher?
    ensures PublisherOk(Step(s, p, c), p)
  {
    var Publisher(source, stage) := s.processes[p];
    assert PublisherOk(s, p) && HoldsLock(s, p);
    FailingStepOk(s, p, source, stage);
    if stage.Checking? || stage.Confirming? {
      LookingStepOk(s, p, source, stage);
    } else {
      PlainStepOk(s, p, source, stage);
    }
  }

  /** A publisher that does not move is not disturbed. */
  lemma OtherStageKept(s: System, first: System, p: Pid, c: Choice, q: Pid)
    requires Inv(s, first) && q != p && q in s.processes && s.processes[q].Publisher?
    ensures StageOk(Step(s, p, c), q, s.processes[q].source, s.processes[q].stage)
  {
    var Publisher(source, stage) := s.processes[q];
    assert StageOk(s, q, source, stage);
    ChangesNeedTheLock(s, first, p, c);
    if Critical(stage) {
      assert s.lock == Some(Lock(q, !stage.LockCreated?));
      assert Step(s, p, c).binary == s.binary && Step(s, p, c).sidecar == s.sidecar;
    } else if PairVerified(s.binary, s.sidecar) {
      VerifiedStable(s, first, p, c);
    }
  }

  /** What a reader holds stays consistent with the files whoever moves. */
  lemma SeenKept(s: System, first: System, p: Pid, c: Choice, b: Binary)
    requires Inv(s, first) && Seen(s, first, b)
    ensures Seen(Step(s, p, c), first, b)
  {
  }

  lemma OtherReaderKept(s: System, first: System, p: Pid, c: Choice, look: Look)
    requires Inv(s, first) && ReaderOk(s, first, look)
    ensures ReaderOk(Step(s, p, c), first, look)
  {
    match look
    case OpenedBinary(b) => SeenKept(s, first, p, c, b);
    case LookSidecar(b) => SeenKept(s, first, p, c, b);
    case OpenedSidecar(b, t) => SeenKept(s, first, p, c, b);
    case Looked(Verified(bytes)) => VerifiedStable(s, first, p, c);
    case _ =>
  }

  /** A reader that finds the checksum matching has found the pair verified. */
  lemma ReaderStepOk(s: System, first: System, look: Look)
    requires Inv(s, first) && ReaderOk(s, first, look)
    ensures ReaderOk(s, first, LookStep(s, look))
  {
  }

  lemma StepInv(s: System, first: System, p: Pid, c: Choice)
    requires Inv(s, first)
    ensures Inv(Step(s, p, c), first)
  {
    var s' := Step(s, p, c);
    OthersUntouched(s, p, c);
    ExclusionKept(s, first, p, c);
    FilesKept(s, first, p, c);
    forall q | q in s'.processes && s'.processes[q].Publisher?
      ensures StageOk(s', q, s'.processes[q].source, s'.processes[q].stage)
    {
      if q == p {
        OwnStageKept(s, first, p, c);
      } else {
        OtherStageKept(s, first, p, c, q);
      }
    }
    forall q | q in s'.processes && s'.processes[q].Reader?
      ensures ReaderOk(s', first, s'.processes[q].look)
    {
      var look := s.processes[q].look;
      ReaderStepOk(s, first, look);
      OtherReaderKept(s, first, p, c, look);
      OtherReaderKept(s, first, p, c, LookStep(s, look));
    }
  }

  // ---------- Every interleaving ----------

  lemma {:induction false} RunInv(s: System, first: System, events: seq<(Pid, Choice)>)
    requires Inv(s, first)
    ensures Inv(Run(s, events), first)
    decreases |events|
  {
    if events != [] {
      StepInv(s, first, events[0].0, events[0].1);
      RunInv(Step(s, events[0].0, events[0].1), first, events[1..]);
    }
  }

  lemma ReachableInv(first: System, events: seq<(Pid, Choice)>)
    requires Init(first)
    ensures Inv(Run(first, events), first)
  {
    InitInv(first);
    RunInv(first, first, events);
  }

  lemma {:induction false} RunVerifiedStable(s: System, first: System, events: seq<(Pid, Choice)>)
    requires Inv(s, first) && PairVerified(s.binary, s.sidecar)
    ensures Run(s, events).binary == s.binary && Run(s, events).sidecar == s.sidecar
    decreases |events|
  {
    if events != [] {
      VerifiedStable(s, first, events[0].0, events[0].1);
      StepInv(s, first, events[0].0, events[0].1);
      RunVerifiedStable(Step(s, events[0].0, events[0].1), first, events[1..]);
    }
  }

  /** At most one publisher is ever between creating the lock and letting go of it. */
  lemma AtMostOnePublisher(first: System, events: seq<(Pid, Choice)>, p: Pid, q: Pid)
    requires Init(first)
    requires var s := Run(first, events);
             && p in s.processes && s.processes[p].Publisher? && Critical(s.processes[p].stage)
             && q in s.processes && s.processes[q].Publisher? && Critical(s.processes[q].stage)
    ensures p == q
  {
    ReachableInv(first, events);
  }

  /** A binary published by one attempt is never visible beside a checksum of another, and a published
      checksum is never visible without the binary it describes. */
  lemma NeverMixed(first: System, events: seq<(Pid, Choice)>)
    requires Init(first)
    ensures var s := Run(first, events);
            && (s.binary.Some? && s.binary.value.origin.Attempt? && s.sidecar.Some? ==>
                  s.sidecar.value.origin == s.binary.value.origin && s.sidecar.value.line == Hex(Sha256(s.binary.value.bytes)))
            && (s.sidecar.Some? && s.sidecar.value.origin.Attempt? ==>
                  s.binary.Some? && s.binary.value.origin == s.sidecar.value.origin)
  {
    ReachableInv(first, events);
  }

  /** Once a path is verified it stays verified, with the same two files, in every continuation. */
  lemma VerifiedForever(first: System, events: seq<(Pid, Choice)>, later: seq<(Pid, Choice)>)
    requires Init(first) && PairVerified(Run(first, events).binary, Run(first, events).sidecar)
    ensures var s, s' := Run(first, events), Run(Run(first, events), later);
            s'.binary == s.binary && s'.sidecar == s.sidecar
  {
    ReachableInv(first, events);
    RunVerifiedStable(Run(first, events), first, later);
  }

  /** The result an inspection or a publication reports. */
  function Reported(process: Process): Option<Bytes> {
    match process
    case Reader(Looked(verdict)) => Confirmed(Looked(verdict))
    case Publisher(_, Finished(result)) => result
    case _ => None
  }

  /** The unlocked, non-atomic two-file inspection is sound: what any process reports as verified is
      verified at that moment, and ever after, with the bytes it read. */
  lemma ReportIsSound(first: System, events: seq<(Pid, Choice)>, later: seq<(Pid, Choice)>, p: Pid)
    requires Init(first)
    requires var s := Run(first, events); p in s.processes && Reported(s.processes[p]).Some?
    ensures var bytes := Reported(Run(first, events).processes[p]).value;
            VerifiedWith(Run(first, events), bytes) && VerifiedWith(Run(Run(first, events), later), bytes)
  {
    ReachableInv(first, events);
    var s := Run(first, events);
    match s.processes[p] {
      case Reader(look) => assert ReaderOk(s, first, look);
      case Publisher(source, stage) => assert StageOk(s, p, source, stage);
    }
    RunVerifiedStable(s, first, later);
  }

  /** A publisher that completed both renames passes its own final inspection, with its own bytes. */
  lemma ConfirmationSucceeds(first: System, events: seq<(Pid, Choice)>, p: Pid)
    requires Init(first)
    requires var s := Run(first, events);
             p in s.processes && s.processes[p].Publisher? && s.processes[p].stage.Confirming? && s.processes[p].stage.look.Looked?
    ensures var s := Run(first, events);
            s.processes[p].stage.look == Looked(Verified(s.processes[p].source))
  {
    ReachableInv(first, events);
    var s := Run(first, events);
    assert StageOk(s, p, s.processes[p].source, s.processes[p].stage);
  }

  lemma OnlyReleaseUnlocks(s: System, p: Pid, c: Choice)
    requires s.lock.Some? && Step(s, p, c).lock.None?
    ensures p in s.processes && p !in s.crashed && s.processes[p].Publisher? && s.processes[p].stage.Releasing?
  {
  }

  /** A lock that disappears was removed by the attempt that created it, at the end of its cleanup. */
  lemma ReleaseRemovesOwnLock(first: System, events: seq<(Pid, Choice)>, p: Pid, c: Choice)
    requires Init(first)
    requires var s := Run(first, events); s.lock.Some? && Step(s, p, c).lock.None?
    ensures var s := Run(first, events);
            && s.lock == Some(Lock(p, true)) && p !in s.crashed
            && p in s.processes && s.processes[p].Publisher? && s.processes[p].stage.Releasing?
  {
    ReachableInv(first, events);
    OnlyReleaseUnlocks(Run(first, events), p, c);
    assert HoldsLock(Run(first, events), p);
  }

  /** A lock nobody will release: its owner crashed, gave up, or belongs to an earlier run. */
  ghost predicate Orphaned(s: System) {
    && s.lock.Some?
    && var p := s.lock.value.owner;
       p in s.crashed || p !in s.processes || s.processes[p].Reader? || s.processes[p].stage.Finished?
  }

  /** An orphaned lock is never stolen: it stays, and the files under it never change again. */
  lemma {:induction false} OrphanedLockStays(s: System, first: System, events: seq<(Pid, Choice)>)
    requires Inv(s, first) && Orphaned(s)
    ensures var s' := Run(s, events);
            s'.lock == s.lock && s'.binary == s.binary && s'.sidecar == s.sidecar && Orphaned(s')
    decreases |events|
  {
    if events != [] {
      var (p, c) := events[0];
      OrphanedStep(s, first, p, c);
      StepInv(s, first, p, c);
      OrphanedLockStays(Step(s, p, c), first, events[1..]);
    }
  }

  lemma OrphanedStep(s: System, first: System, p: Pid, c: Choice)
    requires Inv(s, first) && Orphaned(s)
    ensures var s' := Step(s, p, c);
            s'.lock == s.lock && s'.binary == s.binary && s'.sidecar == s.sidecar && Orphaned(s')
  {
    OthersUntouched(s, p, c);
    ChangesNeedTheLock(s, first, p, c);
  }

  /** A crashed owner's lock is never stolen by any later run. */
  lemma CrashedLockStays(first: System, events: seq<(Pid, Choice)>, later: seq<(Pid, Choice)>)
    requires Init(first)
    requires var s := Run(first, events); s.lock.Some? && s.lock.value.owner in s.crashed
    ensures Run(Run(first, events), later).lock == Run(first, events).lock
  {
    ReachableInv(first, events);
    OrphanedLockStays(Run(first, events), first, later);
  }

  // ---------- Progress ----------

  /** n undisturbed steps of one process. */
  function Alone(s: System, p: Pid, n: nat): System
    decreases n
  {
    if n == 0 then s else Alone(Step(s, p, Proceed), p, n - 1)
  }

  predicate Publishing(s: System, p: Pid, source: Bytes, stage: Stage) {
    p in s.processes && p !in s.crashed && s.processes[p] == Publisher(source, stage)
  }

  function LooksLeft(look: Look): nat {
    match look
    case LookBinary => 4
    case OpenedBinary(_) => 3
    case LookSidecar(_) => 2
    case OpenedSidecar(_, _) => 1
    case Looked(_) => 0
  }

  /** How many undisturbed steps a holder of the lock needs at most. */
  function StepsLeft(stage: Stage): nat {
    match stage
    case Waiting => 21
    case LockCreated => 20
    case LockWritten => 19
    case Checking(look) => 14 + LooksLeft(look)
    case Copying => 13
    case TempBinary => 12
    case TempBoth => 11
    case QuarantinedBinary => 10
    case QuarantinedBoth => 9
    case PlacedBinary => 8
    case Confirming(look) => 3 + LooksLeft(look)
    case Cleaning(_) => 2
    case Releasing(_) => 1
    case Finished(_) => 0
  }

  /** What a holder of the lock that is not disturbed reports: the verified bytes it finds or, if it finds none, its
      own source. */
  ghost function Yield(s: System, source: Bytes, stage: Stage): Option<Bytes> {
    if stage.Cleaning? || stage.Releasing? || stage.Finished? then stage.result
    else if Undecided(stage) && PairVerified(s.binary, s.sidecar) then Some(s.binary.value.bytes)
    else if source != [] then Some(source)
    else None
  }

  /** Up to the end of the first inspection. */
  predicate Undecided(stage: Stage) {
    stage.Waiting? || stage.LockCreated? || stage.LockWritten? || stage.Checking?
  }

  /** Closer to the same report; the last step unlocks. */
  ghost predicate Nearer(s: System, s': System, p: Pid, source: Bytes, stage: Stage) {
    && p in s'.processes && s'.processes[p].Publisher?
    && var stage' := s'.processes[p].stage;
       && Publishing(s', p, source, stage') && !stage'.Waiting? && StepsLeft(stage') < StepsLeft(stage)
       && Yield(s', source, stage') == Yield(s, source, stage)
       && (stage'.Finished? ==> s'.lock.None?)
  }

  lemma HolderLooks(s: System, p: Pid, source: Bytes, stage: Stage)
    requires Publishing(s, p, source, stage) && StageOk(s, p, source, stage) && (stage.Checking? || stage.Confirming?)
    ensures Nearer(s, PublisherStep(s, p, source, stage), p, source, stage)
  {
    LookStepCurrent(s, stage.look);
  }

  lemma HolderMoves(s: System, p: Pid, source: Bytes, stage: Stage)
    requires Publishing(s, p, source, stage) && StageOk(s, p, source, stage) && HoldsLock(s, p)
    requires !stage.Checking? && !stage.Confirming? && !stage.Finished? && (stage.Waiting? ==> s.lock.None?)
    ensures Nearer(s, PublisherStep(s, p, source, stage), p, source, stage)
  {
  }

  /** One undisturbed step of a holder of the lock. */
  lemma HolderStep(s: System, first: System, p: Pid, source: Bytes, stage: Stage, n: nat) returns (s1: System, stage1: Stage)
    requires Inv(s, first) && Publishing(s, p, source, stage) && !stage.Finished? && n > 0
    requires stage.Waiting? ==> s.lock.None?
    ensures Inv(s1, first) && Publishing(s1, p, source, stage1) && !stage1.Waiting? && StepsLeft(stage1) < StepsLeft(stage)
    ensures Yield(s1, source, stage1) == Yield(s, source, stage) && (stage1.Finished? ==> s1.lock.None?)
    ensures Alone(s, p, n) == Alone(s1, p, n - 1)
  {
    assert HoldsLock(s, p) && StageOk(s, p, source, stage);
    if stage.Checking? || stage.Confirming? {
      HolderLooks(s, p, source, stage);
    } else {
      HolderMoves(s, p, source, stage);
    }
    StepInv(s, first, p, Proceed);
    s1 := Step(s, p, Proceed);
    stage1 := s1.processes[p].stage;
  }

  lemma {:induction false} HolderFinishes(s: System, first: System, p: Pid, source: Bytes, stage: Stage, n: nat)
    requires Inv(s, first) && Publishing(s, p, source, stage) && n >= StepsLeft(stage)
    requires stage.Waiting? || stage.Finished? ==> s.lock.None?
    ensures var s' := Alone(s, p, n);
            && s'.lock.None? && Publishing(s', p, source, Finished(Yield(s, source, stage)))
            && Inv(s', first)
    decreases n
  {
    if stage.Finished? {
      FinishedStays(s, p, n);
    } else {
      var s1, stage1 := HolderStep(s, first, p, source, stage, n);
      HolderFinishes(s1, first, p, source, stage1, n - 1);
    }
  }

  /** Publication makes progress: from every reachable state in which the lock is free, a publisher that has not
      crashed and is not disturbed reports the bytes of the pair that was verified already, or else publishes its own
      source and reports that; the reported pair is in place and the lock is gone. */
  lemma PublisherFinishes(first: System, events: seq<(Pid, Choice)>, p: Pid, source: Bytes, n: nat)
    requires Init(first) && n >= 21
    requires var s := Run(first, events); Publishing(s, p, source, Waiting) && s.lock.None?
    ensures var s := Run(first, events);
            var s' := Alone(s, p, n);
            var result := if PairVerified(s.binary, s.sidecar) then Some(s.binary.value.bytes)
                          else if source != [] then Some(source) else None;
            && s'.lock.None? && Publishing(s', p, source, Finished(result))
            && (result.Some? ==> VerifiedWith(s', result.value))
  {
    ReachableInv(first, events);
    var s := Run(first, events);
    HolderFinishes(s, first, p, source, Waiting, n);
    assert StageOk(Alone(s, p, n), p, source, Finished(Yield(s, source, Waiting)));
  }

  /** A holder that meets an error while it works under the lock reports nothing and lets go of the lock; an error
      while it creates or removes the lock leaves the lock behind. */
  lemma FailureUnlocksIff(first: System, events: seq<(Pid, Choice)>, p: Pid, source: Bytes, stage: Stage, n: nat)
    requires Init(first) && n >= 2 && Critical(stage) && Publishing(Run(first, events), p, source, stage)
    ensures var s' := Alone(Step(Run(first, events), p, Fail), p, n);
            && Publishing(s', p, source, Finished(None))
            && (s'.lock.None? <==> !(stage.LockCreated? || stage.LockWritten? || stage.Cleaning? || stage.Releasing?))
  {
    ReachableInv(first, events);
    var s := Run(first, events);
    StepInv(s, first, p, Fail);
    assert HoldsLock(s, p);
    var s1 := Step(s, p, Fail);
    if s1.processes[p].stage.Finished? {
      FinishedStays(s1, p, n);
    } else {
      HolderFinishes(s1, first, p, source, Cleaning(None), n);
    }
  }

  lemma {:induction false} FinishedStays(s: System, p: Pid, n: nat)
    requires p in s.processes && s.processes[p].Publisher?
    requires s.processes[p].stage.Finished? || (s.processes[p].stage.Waiting? && s.lock.Some?)
    ensures Alone(s, p, n) == s
  {
    if n > 0 {
      FinishedStays(s, p, n - 1);
    }
  }

  /** While the lock exists a publisher that does not hold it waits. */
  lemma WaitsForTheLock(s: System, p: Pid, source: Bytes, n: nat)
    requires Publishing(s, p, source, Waiting) && s.lock.Some?
    ensures Alone(s, p, n) == s
  {
    FinishedStays(s, p, n);
  }

  /** An undisturbed inspection finds exactly whether the two files verify, and their bytes. */
  lemma InspectionDecides(s: System, p: Pid, n: nat)
    requires p in s.processes && p !in s.crashed && s.processes[p] == Reader(LookBinary) && n >= 4
    ensures Alone(s, p, n).processes.Keys == s.processes.Keys
    ensures Alone(s, p, n).processes[p] ==
            Reader(Looked(if PairVerified(s.binary, s.sidecar) then Verified(s.binary.value.bytes) else NotVerified))
  {
    ReaderFinishes(s, p, LookBinary, n);
  }

  /** A file that is replaced between being opened and being looked up again is never reported. */
  lemma InspectionNotices(s: System, look: Look)
    ensures look.OpenedBinary? && s.binary != Some(look.b) ==> LookStep(s, look) == Looked(NotVerified)
    ensures look.OpenedSidecar? && s.sidecar != Some(look.t) ==> LookStep(s, look) == Looked(NotVerified)
    ensures LookStep(s, look) == Looked(NotVerified) || look.Looked? || LooksLeft(LookStep(s, look)) + 1 == LooksLeft(look)
  {
  }

  lemma {:induction false} ReaderFinishes(s: System, p: Pid, look: Look, n: nat)
    requires p in s.processes && p !in s.crashed && s.processes[p] == Reader(look) && n >= LooksLeft(look)
    requires LookCurrent(s, look)
    ensures Alone(s, p, n).processes.Keys == s.processes.Keys
    ensures Alone(s, p, n).processes[p] ==
            Reader(Looked(if PairVerified(s.binary, s.sidecar) then Verified(s.binary.value.bytes) else NotVerified))
    decreases n
  {
    if n > 0 {
      LookStepCurrent(s, look);
      var s1 := Step(s, p, Proceed);
      assert LookCurrent(s1, LookStep(s, look));
      ReaderFinishes(s1, p, LookStep(s, look), n - 1);
    }
  }

  // ---------- Reading one opened file ----------

  datatype ReadError = EmptyFile | TooLarge | Race

  const BUFFER: nat := 65536

  /** How much of a request the next read returns. */
  function ReadLength(kernel: seq<nat>, call: nat, request: nat): nat {
    if call < |kernel| && kernel[call] < request then kernel[call] else request
  }

  function Smaller(a: nat, b: nat): nat {
    if a < b then a else b
  }

  /** How much of a file the first reads have returned. */
  function ReadSoFar(kernel: seq<nat>, size: nat, buffer: nat, calls: nat): (n: nat)
    ensures n <= size
  {
    if calls == 0 then 0
    else
      var before := ReadSoFar(kernel, size, buffer, calls - 1);
      before + ReadLength(kernel, calls - 1, Smaller(size - before, buffer))
  }

  lemma {:induction false} ReadGrows(kernel: seq<nat>, size: nat, buffer: nat, a: nat, b: nat)
    requires a <= b
    ensures ReadSoFar(kernel, size, buffer, a) <= ReadSoFar(kernel, size, buffer, b)
    decreases b
  {
    if a < b {
      ReadGrows(kernel, size, buffer, a, b - 1);
    }
  }

  /** A read that is needed returns nothing. */
  ghost predicate Stalls(kernel: seq<nat>, size: nat, buffer: nat) {
    exists n: nat :: n < |kernel| && kernel[n] == 0 && ReadSoFar(kernel, size, buffer, n) < size
  }

  lemma NeverStalls(kernel: seq<nat>, size: nat, buffer: nat, calls: nat)
    requires ReadSoFar(kernel, size, buffer, calls) == size && forall i :: 0 <= i < calls && i < |kernel| ==> kernel[i] != 0
    ensures !Stalls(kernel, size, buffer)
  {
    forall n: nat | n < |kernel| && kernel[n] == 0 ensures ReadSoFar(kernel, size, buffer, n) >= size {
      ReadGrows(kernel, size, buffer, calls, n);
    }
  }

  function BufferSize(maxBytes: Option<nat>): nat {
    if maxBytes.Some? && maxBytes.value < BUFFER then maxBytes.value else BUFFER
  }

  /** Reads a file through a buffer; the kernel may return less than was asked for.  A result is always
      the whole content. */
  method ReadOpenedFile(data: Bytes, requireNonEmpty: bool, maxBytes: Option<nat>, kernel: seq<nat>) returns (r: Result<Bytes, ReadError>)
    ensures r.Ok? ==> r.value == data && (requireNonEmpty ==> data != []) && (maxBytes.Some? ==> |data| <= maxBytes.value)
    ensures r == Err(EmptyFile) <==> requireNonEmpty && data == []
    ensures r == Err(TooLarge) <==> maxBytes.Some? && |data| > maxBytes.value
    ensures r == Err(Race) <==> !(maxBytes.Some? && |data| > maxBytes.value) && Stalls(kernel, |data|, BufferSize(maxBytes))
  {
    if requireNonEmpty && data == [] {
      return Err(EmptyFile);
    }
    if maxBytes.Some? && |data| > maxBytes.value {
      return Err(TooLarge);
    }
    var buffer := if maxBytes.Some? && maxBytes.value < BUFFER then maxBytes.value else BUFFER;
    var position, call := 0, 0;
    var chunks: Bytes := [];
    while position < |data|
      invariant 0 <= position <= |data|
      invariant chunks == data[..position]
      invariant call >= 0 && position == ReadSoFar(kernel, |data|, buffer, call)
      invariant forall i :: 0 <= i < call && i < |kernel| ==> kernel[i] != 0
    {
      var request := if |data| - position < buffer then |data| - position else buffer;
      var bytesRead := ReadLength(kernel, call, request);
      if bytesRead == 0 {
        assert call < |kernel| && kernel[call] == 0;
        return Err(Race);
      }
      chunks := chunks + data[position..position + bytesRead];
      position := position + bytesRead;
      call := call + 1;
    }
    NeverStalls(kernel, |data|, buffer, call);
    return Ok(chunks);
  }
}
