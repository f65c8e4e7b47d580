/** The write-ahead record that protects the replacement of one file.

    While `canonical` is replaced, its original sits at `claim`; the journal records the digests of
    the original and of its successor.  Recovery decides between rollback and commit from digests and
    link counts alone, and power may be lost between (or, for copies, inside) any two primitives. */
module ClaimJournal {
  import opened Prelude

  type Path = string
  newtype Byte = b: int | 0 <= b < 256
  type Bytes = seq<Byte>
  type Pid = int

  /** SHA-256, taken as injective: a digest remembers exactly what was hashed. */
  datatype Digest = Sha256(of: Bytes)

  datatype Entry = Entry(ownerPid: Pid, canonical: Path, claim: Path, before: Digest, after: Option<Digest>)

  datatype Journal = NoJournal | Malformed | Recorded(entry: Entry)

  /** Directory entries, inode contents, the next unused inode number, and the journal file. */
  datatype Disk = Disk(names: map<Path, nat>, contents: map<nat, Bytes>, next: nat, journal: Journal) {
    ghost predicate Valid() {
      && (forall p :: p in names ==> names[p] in contents)
      && (forall i :: i in contents ==> i < next)
    }

    function Read(p: Path): Bytes
      requires p in names && names[p] in contents
    {
      contents[names[p]]
    }

    /** The paths that share p's inode. */
    function Aliases(p: Path): set<Path>
      requires p in names
    {
      set q | q in names && names[q] == names[p]
    }

    function LinkCount(p: Path): nat
      requires p in names
    {
      |Aliases(p)|
    }
  }

  // ---------- Primitives ----------

  /** How link(2) behaves on this volume: it works, it reports a missing capability, or it fails otherwise. */
  datatype LinkSupport = Supported | Unsupported | Broken

  datatype Op =
    | WriteJournal
    | RenameToClaim
    | Install(bytes: Bytes)
    | LinkClaim
    | CopyClaim
    | RemoveClaim
    | ClearJournal

  predicate Enabled(d: Disk, e: Entry, op: Op) {
    match op
    case WriteJournal => d.journal.NoJournal?
    case RenameToClaim => e.canonical in d.names && e.claim !in d.names
    case Install(_) => e.canonical !in d.names
    case LinkClaim => e.claim in d.names && e.canonical !in d.names
    case CopyClaim => e.claim in d.names && d.names[e.claim] in d.contents && e.canonical !in d.names
    case RemoveClaim => e.claim in d.names
    case ClearJournal => true
  }

  function CreateCanonical(d: Disk, e: Entry, bytes: Bytes): Disk {
    d.(names := d.names[e.canonical := d.next], contents := d.contents[d.next := bytes], next := d.next + 1)
  }

  /** The disk after a primitive completes. */
  function Apply(d: Disk, e: Entry, op: Op): Disk
    requires Enabled(d, e, op)
  {
    match op
    case WriteJournal => d.(journal := Recorded(e))
    case RenameToClaim => d.(names := (d.names - {e.canonical})[e.claim := d.names[e.canonical]])
    case Install(bytes) => CreateCanonical(d, e, bytes)
    case LinkClaim => d.(names := d.names[e.canonical := d.names[e.claim]])
    case CopyClaim => CreateCanonical(d, e, d.Read(e.claim))
    case RemoveClaim => d.(names := d.names - {e.claim})
    case ClearJournal => d.(journal := NoJournal)
  }

  function Prefix(bytes: Bytes, k: nat): Bytes {
    if k <= |bytes| then bytes[..k] else bytes
  }

  /** The disk when power is lost inside a primitive.  Directory updates are atomic; a copy may have
      written any prefix of its bytes, and a journal write may have left unparsable text. */
  function Interrupt(d: Disk, e: Entry, op: Op, torn: Option<nat>): Disk
    requires Enabled(d, e, op)
  {
    if torn.None? then d else
      match op
      case WriteJournal => d.(journal := Malformed)
      case Install(bytes) => CreateCanonical(d, e, Prefix(bytes, torn.value))
      case CopyClaim => CreateCanonical(d, e, Prefix(d.Read(e.claim), torn.value))
      case _ => d
  }

  /** Whether each primitive of ops finds its arguments in place. */
  ghost predicate Runs(d: Disk, e: Entry, ops: seq<Op>)
    decreases |ops|
  {
    ops == [] || (Enabled(d, e, ops[0]) && Runs(Apply(d, e, ops[0]), e, ops[1..]))
  }

  /** The disk after `fuel` primitives, with power lost inside the next one if ops is not finished. */
  ghost function Execute(d: Disk, e: Entry, ops: seq<Op>, fuel: nat, torn: Option<nat>): (r: Disk)
    requires d.Valid() && Runs(d, e, ops)
    ensures r.Valid()
    ensures WriteJournal !in ops ==> r.journal == d.journal || r.journal == NoJournal
    ensures r.journal == d.journal || r.journal == NoJournal || r.journal == Malformed || r.journal == Recorded(e)
    decreases |ops|
  {
    if ops == [] then d
    else if fuel == 0 then Interrupt(d, e, ops[0], torn)
    else Execute(Apply(d, e, ops[0]), e, ops[1..], fuel - 1, torn)
  }

  // ---------- The decision recovery takes ----------

  datatype Reason = MalformedJournal | LiveOwner | ChangedLink | UnsafeArtifact | ClaimLost | ClaimChanged
                  | LinkFailed | DestinationExists | Unrecognized | ChangedDuringRestore

  datatype Verdict = Nothing | Refuse(reason: Reason) | Proceed(ops: seq<Op>)

  datatype Artifact = Missing | Unsafe | Regular(bytes: Bytes)

  function ReadRegular(d: Disk, p: Path): Artifact
    requires d.Valid()
  {
    if p !in d.names then Missing
    else if d.LinkCount(p) != 1 then Unsafe
    else Regular(d.Read(p))
  }

  predicate LinkedPair(d: Disk, e: Entry) {
    && e.canonical in d.names && e.claim in d.names
    && d.LinkCount(e.canonical) == 2 && d.LinkCount(e.claim) == 2
    && d.names[e.canonical] == d.names[e.claim]
  }

  function Decide(d: Disk, alive: set<Pid>, link: LinkSupport): Verdict
    requires d.Valid()
  {
    match d.journal
    case NoJournal => Nothing
    case Malformed => Refuse(MalformedJournal)
    case Recorded(e) =>
      if e.ownerPid in alive then Refuse(LiveOwner)
      else if LinkedPair(d, e) then
        if Sha256(d.Read(e.canonical)) != e.before then Refuse(ChangedLink) else Proceed([RemoveClaim, ClearJournal])
      else
        match (ReadRegular(d, e.canonical), ReadRegular(d, e.claim))
        case (Unsafe, _) => Refuse(UnsafeArtifact)
        case (_, Unsafe) => Refuse(UnsafeArtifact)
        case (Missing, Missing) => if e.after.None? then Proceed([ClearJournal]) else Refuse(ClaimLost)
        case (Regular(bytes), Missing) =>
          if e.after == Some(Sha256(bytes)) || e.before == Sha256(bytes) then Proceed([ClearJournal]) else Refuse(ClaimLost)
        case (Missing, Regular(claimed)) =>
          if Sha256(claimed) != e.before then Refuse(ClaimChanged)
          else if link.Broken? then Refuse(LinkFailed)
          else Proceed([if link.Supported? then LinkClaim else CopyClaim, RemoveClaim, ClearJournal])
        case (Regular(bytes), Regular(claimed)) =>
          if Sha256(claimed) != e.before then Refuse(ClaimChanged)
          else if e.after == Some(Sha256(bytes)) then Proceed([RemoveClaim, ClearJournal])
          else Refuse(Unrecognized)
  }

  /** The two paths of a journal entry are different. */
  predicate Distinct(d: Disk) {
    d.journal.Recorded? ==> d.journal.entry.canonical != d.journal.entry.claim
  }

  lemma DecisionRuns(d: Disk, alive: set<Pid>, link: LinkSupport)
    requires d.Valid() && Distinct(d) && Decide(d, alive, link).Proceed?
    ensures Runs(d, d.journal.entry, Decide(d, alive, link).ops)
  {
    var e, ops := d.journal.entry, Decide(d, alive, link).ops;
    var d1 := Apply(d, e, ops[0]);
    if |ops| > 1 {
      var d2 := Apply(d1, e, ops[1]);
      if |ops| > 2 {
        assert ops[1..][1..][1..] == [] && Runs(d2, e, ops[1..][1..]);
      } else {
        assert ops[1..][1..] == [];
      }
      assert Runs(d1, e, ops[1..]);
    }
  }

  /** The disk after one recovery that loses power after `fuel` primitives. */
  ghost function Recover(d: Disk, alive: set<Pid>, link: LinkSupport, fuel: nat, torn: Option<nat>): (r: Disk)
    requires d.Valid() && Distinct(d)
    ensures r.Valid() && (r.journal == d.journal || r.journal == NoJournal)
  {
    var v := Decide(d, alive, link);
    if v.Proceed? then
      DecisionRuns(d, alive, link);
      Execute(d, d.journal.entry, v.ops, fuel, torn)
    else d
  }

  // ---------- Convergence on volumes with hard links ----------

  ghost predicate Holds(d: Disk, p: Path, h: Digest)
    requires d.Valid()
  {
    p in d.names && Sha256(d.Read(p)) == h
  }

  ghost predicate Single(d: Disk, p: Path) {
    p in d.names && d.LinkCount(p) == 1
  }

  /** The file states a crashed transaction or a crashed recovery may leave, other than torn copies. */
  ghost predicate Recoverable(d: Disk)
    requires d.Valid()
  {
    && d.journal.Recorded?
    && var e := d.journal.entry;
       || (Single(d, e.claim) && Holds(d, e.claim, e.before) && e.canonical !in d.names)
       || (&& Single(d, e.claim) && Holds(d, e.claim, e.before)
           && Single(d, e.canonical) && e.after.Some? && Holds(d, e.canonical, e.after.value))
       || (LinkedPair(d, e) && Holds(d, e.canonical, e.before))
       || (&& e.claim !in d.names && Single(d, e.canonical)
           && (Holds(d, e.canonical, e.before) || (e.after.Some? && Holds(d, e.canonical, e.after.value))))
       || (e.claim !in d.names && e.canonical !in d.names && e.after.None?)
  }

  /** What the canonical path must end up holding: its own bytes, else the claim's, else nothing. */
  ghost function Target(d: Disk): Option<Bytes>
    requires d.Valid() && d.journal.Recorded?
  {
    var e := d.journal.entry;
    if e.canonical in d.names then Some(d.Read(e.canonical))
    else if e.claim in d.names then Some(d.Read(e.claim))
    else None
  }

  ghost predicate Settled(d: Disk, e: Entry, target: Option<Bytes>)
    requires d.Valid()
  {
    && d.journal.NoJournal?
    && e.claim !in d.names
    && (if target.None? then e.canonical !in d.names else Holds(d, e.canonical, Sha256(target.value)))
  }

  /** Every path other than the two the journal names is untouched. */
  ghost predicate SameElsewhere(d: Disk, d': Disk, e: Entry)
    requires d.Valid() && d'.Valid()
  {
    forall p :: p != e.canonical && p != e.claim ==>
                  && (p in d.names <==> p in d'.names)
                  && (p in d.names ==> d.names[p] == d'.names[p] && d.Read(p) == d'.Read(p))
  }

  lemma ApplyKeepsValid(d: Disk, e: Entry, op: Op)
    requires d.Valid() && Enabled(d, e, op)
    ensures Apply(d, e, op).Valid()
    ensures SameElsewhere(d, Apply(d, e, op), e)
  {
  }

  lemma LinkMakesPair(d: Disk, e: Entry)
    requires d.Valid() && Single(d, e.claim) && e.canonical !in d.names
    ensures LinkedPair(Apply(d, e, LinkClaim), e)
  {
    var d' := Apply(d, e, LinkClaim);
    assert d'.Aliases(e.claim) == d'.Aliases(e.canonical) == d.Aliases(e.claim) + {e.canonical};
  }

  lemma RemoveClaimCounts(d: Disk, e: Entry)
    requires d.Valid() && e.canonical != e.claim && e.canonical in d.names && e.claim in d.names
    requires LinkedPair(d, e) || Single(d, e.canonical)
    ensures Single(Apply(d, e, RemoveClaim), e.canonical)
  {
    var d' := Apply(d, e, RemoveClaim);
    if LinkedPair(d, e) {
      assert d'.Aliases(e.canonical) == d.Aliases(e.canonical) - {e.claim};
      assert e.claim in d.Aliases(e.canonical);
    } else {
      SoleAlias(d, e.canonical);
      assert d'.Aliases(e.canonical) == {e.canonical};
    }
  }

  lemma SoleAlias(d: Disk, p: Path)
    requires Single(d, p)
    ensures d.Aliases(p) == {p}
  {
    var s := d.Aliases(p);
    assert p in s && |s - {p}| == 0;
    assert s == (s - {p}) + {p};
  }

  /** On a volume with hard links recovery accepts exactly the recoverable states. */
  lemma AcceptsExactlyRecoverable(d: Disk, alive: set<Pid>)
    requires d.Valid() && Distinct(d) && d.journal.Recorded? && d.journal.entry.ownerPid !in alive
    ensures Decide(d, alive, Supported).Proceed? <==> Recoverable(d)
  {
    var e := d.journal.entry;
    if LinkedPair(d, e) {
      assert !Single(d, e.claim) && !Single(d, e.canonical);
    }
  }

  /** The whole decision, whoever lives and whatever link(2) does: recovery goes on iff the owner is dead, the state
      is recoverable and, where a file must be created for that, link(2) does not fail; there is nothing to do iff
      there is no journal. */
  lemma ProceedsIff(d: Disk, alive: set<Pid>, link: LinkSupport)
    requires d.Valid() && Distinct(d)
    ensures var v := Decide(d, alive, link);
            && (v.Proceed? <==> Recoverable(d) && d.journal.entry.ownerPid !in alive && !(RolledAway(d) && link.Broken?))
            && (v.Nothing? <==> d.journal.NoJournal?)
            && (v == Refuse(MalformedJournal) <==> d.journal.Malformed?)
            && (v == Refuse(LiveOwner) <==> d.journal.Recorded? && d.journal.entry.ownerPid in alive)
            && (v == Refuse(LinkFailed) <==> RolledAway(d) && d.journal.entry.ownerPid !in alive && link.Broken?)
  {
    if d.journal.Recorded? && LinkedPair(d, d.journal.entry) {
      var e := d.journal.entry;
      assert !Single(d, e.claim) && !Single(d, e.canonical);
    }
  }

  /** After its first primitive a recovery is either finished, or a fresh recovery would take exactly
      the steps that remain and aim at the same content. */
  lemma RestartResumes(d: Disk, alive: set<Pid>)
    requires d.Valid() && Distinct(d) && Recoverable(d) && d.journal.entry.ownerPid !in alive
    ensures var v := Decide(d, alive, Supported);
            && v.Proceed? && Runs(d, d.journal.entry, v.ops) && |v.ops| > 0
            && var d' := Apply(d, d.journal.entry, v.ops[0]);
               && d'.Valid() && SameElsewhere(d, d', d.journal.entry)
               && if |v.ops| == 1 then Settled(d', d.journal.entry, Target(d))
                  else && d'.journal == d.journal && Recoverable(d') && Target(d') == Target(d)
                       && Decide(d', alive, Supported) == Proceed(v.ops[1..])
  {
    AcceptsExactlyRecoverable(d, alive);
    DecisionRuns(d, alive, Supported);
    var e, ops := d.journal.entry, Decide(d, alive, Supported).ops;
    ApplyKeepsValid(d, e, ops[0]);
    if ops[0].LinkClaim? {
      LinkMakesPair(d, e);
    } else if ops[0].RemoveClaim? {
      RemoveClaimCounts(d, e);
    }
  }

  /** A recovery with `ops` left to do, whose restart would do the same. */
  ghost predicate OnTrack(d: Disk, alive: set<Pid>, e: Entry, ops: seq<Op>, target: Option<Bytes>) {
    && d.Valid()
    && e.ownerPid !in alive
    && if ops == [] then Settled(d, e, target)
       else && d.journal == Recorded(e) && Distinct(d) && Recoverable(d) && Target(d) == target
            && Decide(d, alive, Supported) == Proceed(ops)
  }

  lemma OnTrackRuns(d: Disk, alive: set<Pid>, e: Entry, ops: seq<Op>, target: Option<Bytes>, torn: Option<nat>)
    requires OnTrack(d, alive, e, ops, target) && ops != []
    ensures Runs(d, e, ops) && Interrupt(d, e, ops[0], torn) == d
  {
    DecisionRuns(d, alive, Supported);
  }

  lemma OnTrackStep(d: Disk, alive: set<Pid>, e: Entry, ops: seq<Op>, target: Option<Bytes>)
    requires OnTrack(d, alive, e, ops, target) && ops != [] && Enabled(d, e, ops[0])
    ensures OnTrack(Apply(d, e, ops[0]), alive, e, ops[1..], target)
    ensures SameElsewhere(d, Apply(d, e, ops[0]), e)
  {
    RestartResumes(d, alive);
  }

  lemma SameElsewhereTransitive(d: Disk, d1: Disk, d2: Disk, e: Entry)
    requires d.Valid() && d1.Valid() && d2.Valid()
    requires SameElsewhere(d, d1, e) && SameElsewhere(d1, d2, e)
    ensures SameElsewhere(d, d2, e)
  {
  }

  lemma InterruptElsewhere(d: Disk, e: Entry, op: Op, torn: Option<nat>)
    requires d.Valid() && Enabled(d, e, op)
    ensures Interrupt(d, e, op, torn).Valid() && SameElsewhere(d, Interrupt(d, e, op, torn), e)
  {
  }

  /** No plan touches other paths. */
  lemma {:induction false} ExecuteElsewhere(d: Disk, e: Entry, ops: seq<Op>, fuel: nat, torn: Option<nat>)
    requires d.Valid() && Runs(d, e, ops)
    ensures SameElsewhere(d, Execute(d, e, ops, fuel, torn), e)
    decreases |ops|
  {
    if ops != [] {
      InterruptElsewhere(d, e, ops[0], torn);
      ApplyKeepsValid(d, e, ops[0]);
      if fuel > 0 {
        var d1 := Apply(d, e, ops[0]);
        ExecuteElsewhere(d1, e, ops[1..], fuel - 1, torn);
        SameElsewhereTransitive(d, d1, Execute(d1, e, ops[1..], fuel - 1, torn), e);
      }
    }
  }

  function Rest(ops: seq<Op>, fuel: nat): seq<Op> {
    if fuel < |ops| then ops[fuel..] else []
  }

  lemma RestOfRest(ops: seq<Op>, fuel: nat)
    requires ops != []
    ensures fuel > 0 ==> Rest(ops[1..], fuel - 1) == Rest(ops, fuel)
    ensures Rest(ops, 0) == ops
  {
  }

  /** What every step keeps and no interruption disturbs, for the disk and the steps left, a crashed plan keeps. */
  lemma {:induction false} ExecuteKeeps(inv: (Disk, seq<Op>) -> bool, d: Disk, e: Entry, ops: seq<Op>, fuel: nat, torn: Option<nat>)
    requires inv(d, ops) && d.Valid() && Runs(d, e, ops)
    requires forall d1, rest :: inv(d1, rest) && rest != [] && d1.Valid() && Runs(d1, e, rest) ==>
               Interrupt(d1, e, rest[0], torn) == d1 && Apply(d1, e, rest[0]).Valid() && inv(Apply(d1, e, rest[0]), rest[1..])
    ensures inv(Execute(d, e, ops, fuel, torn), Rest(ops, fuel))
    decreases |ops|
  {
    if ops != [] {
      RestOfRest(ops, fuel);
      if fuel > 0 {
        ExecuteKeeps(inv, Apply(d, e, ops[0]), e, ops[1..], fuel - 1, torn);
      }
    }
  }

  lemma ExecuteOnTrack(d: Disk, alive: set<Pid>, e: Entry, ops: seq<Op>, target: Option<Bytes>, fuel: nat, torn: Option<nat>)
    requires OnTrack(d, alive, e, ops, target) && Runs(d, e, ops)
    ensures OnTrack(Execute(d, e, ops, fuel, torn), alive, e, Rest(ops, fuel), target)
  {
    var inv := (d1, rest) => OnTrack(d1, alive, e, rest, target);
    forall d1, rest | inv(d1, rest) && rest != [] && d1.Valid() && Runs(d1, e, rest)
      ensures Interrupt(d1, e, rest[0], torn) == d1 && Apply(d1, e, rest[0]).Valid() && inv(Apply(d1, e, rest[0]), rest[1..])
    {
      OnTrackRuns(d1, alive, e, rest, target, torn);
      OnTrackStep(d1, alive, e, rest, target);
    }
    ExecuteKeeps(inv, d, e, ops, fuel, torn);
  }

  /** One recovery, with power lost after `fuel` primitives. */
  lemma CrashedRecovery(d: Disk, alive: set<Pid>, fuel: nat, torn: Option<nat>)
    requires d.Valid() && Distinct(d) && Recoverable(d) && d.journal.entry.ownerPid !in alive
    ensures Decide(d, alive, Supported).Proceed? && |Decide(d, alive, Supported).ops| <= 3
    ensures var d' := Recover(d, alive, Supported, fuel, torn);
            && SameElsewhere(d, d', d.journal.entry)
            && if fuel < |Decide(d, alive, Supported).ops|
               then d'.journal == d.journal && Recoverable(d') && Target(d') == Target(d)
               else Settled(d', d.journal.entry, Target(d))
  {
    AcceptsExactlyRecoverable(d, alive);
    DecisionRuns(d, alive, Supported);
    var ops := Decide(d, alive, Supported).ops;
    ExecuteElsewhere(d, d.journal.entry, ops, fuel, torn);
    ExecuteOnTrack(d, alive, d.journal.entry, ops, Target(d), fuel, torn);
  }

  /** One invocation of recovery: which processes live, what link(2) does, and where power is lost. */
  datatype Run = Run(alive: set<Pid>, link: LinkSupport, fuel: nat, torn: Option<nat>)

  ghost function RecoverAll(d: Disk, runs: seq<Run>): (r: Disk)
    requires d.Valid() && Distinct(d)
    ensures r.Valid() && (r.journal == d.journal || r.journal == NoJournal)
    decreases |runs|
  {
    if runs == [] then d
    else RecoverAll(Recover(d, runs[0].alive, runs[0].link, runs[0].fuel, runs[0].torn), runs[1..])
  }

  ghost predicate OwnerDead(runs: seq<Run>, e: Entry) {
    forall r :: r in runs ==> e.ownerPid !in r.alive
  }

  lemma SettledStays(d: Disk, runs: seq<Run>)
    requires d.Valid() && d.journal.NoJournal?
    ensures RecoverAll(d, runs) == d
    decreases |runs|
  {
    if runs != [] {
      SettledStays(d, runs[1..]);
    }
  }

  /** While the process that wrote the journal lives, or when the journal cannot be read, any number of recoveries
      leaves the disk exactly as it is. */
  lemma {:induction false} LiveOwnerIsLeftAlone(d: Disk, runs: seq<Run>)
    requires d.Valid() && Distinct(d)
    requires d.journal.Malformed? || (d.journal.Recorded? && forall r :: r in runs ==> d.journal.entry.ownerPid in r.alive)
    ensures RecoverAll(d, runs) == d
    decreases |runs|
  {
    if runs != [] {
      LiveOwnerIsLeftAlone(d, runs[1..]);
    }
  }

  /** Crash atomicity: any number of recoveries crashed anywhere never changes the content aimed at, and
      any recovery that gets three primitives done finishes; every later run changes nothing. */
  lemma {:induction false} CrashAtomicity(d: Disk, runs: seq<Run>)
    requires d.Valid() && Distinct(d) && Recoverable(d) && OwnerDead(runs, d.journal.entry)
    requires forall r :: r in runs ==> r.link.Supported?
    ensures var d' := RecoverAll(d, runs);
            && SameElsewhere(d, d', d.journal.entry)
            && (Settled(d', d.journal.entry, Target(d))
                || (d'.journal == d.journal && Recoverable(d') && Target(d') == Target(d)))
            && ((exists r :: r in runs && r.fuel >= 3) ==> Settled(d', d.journal.entry, Target(d)))
    decreases |runs|
  {
    if runs != [] {
      var r := runs[0];
      CrashedRecovery(d, r.alive, r.fuel, r.torn);
      var d1 := Recover(d, r.alive, r.link, r.fuel, r.torn);
      if d1.journal.NoJournal? {
        SettledStays(d1, runs[1..]);
      } else {
        CrashAtomicity(d1, runs[1..]);
      }
    }
  }

  /** What a recovery aims at is the recorded original, the recorded successor, or a recorded deletion. */
  lemma TargetIsRecorded(d: Disk)
    requires d.Valid() && Recoverable(d)
    ensures var e := d.journal.entry;
            match Target(d)
            case None => e.after.None?
            case Some(bytes) => Sha256(bytes) == e.before || e.after == Some(Sha256(bytes))
  {
  }

  // ---------- No clobber, no loss, on every path ----------

  ghost predicate HoldsOriginal(d: Disk, e: Entry)
    requires d.Valid()
  {
    Holds(d, e.canonical, e.before) || Holds(d, e.claim, e.before)
  }

  ghost predicate HoldsSuccessor(d: Disk, e: Entry)
    requires d.Valid()
  {
    e.after.Some? && Holds(d, e.canonical, e.after.value)
  }

  /** Bytes at canonical stay; the original stays reachable unless canonical holds the successor. */
  ghost predicate Preserves(d: Disk, d': Disk, e: Entry)
    requires d.Valid() && d'.Valid()
  {
    && SameElsewhere(d, d', e)
    && (e.canonical in d.names ==>
          e.canonical in d'.names && d'.names[e.canonical] == d.names[e.canonical] && d'.Read(e.canonical) == d.Read(e.canonical))
    && (HoldsOriginal(d, e) ==> HoldsOriginal(d', e) || HoldsSuccessor(d', e))
  }

  lemma PreservesTransitive(d: Disk, d1: Disk, d2: Disk, e: Entry)
    requires d.Valid() && d1.Valid() && d2.Valid()
    requires Preserves(d, d1, e) && Preserves(d1, d2, e)
    ensures Preserves(d, d2, e)
  {
  }

  /** Where recovery may stand: about to restore a verified claim, about to drop a claim that canonical
      makes redundant, about to clear the journal, or done. */
  ghost predicate SafeToRun(d: Disk, e: Entry, ops: seq<Op>)
    requires d.Valid()
  {
    || ops == []
    || ops == [ClearJournal]
    || (ops == [RemoveClaim, ClearJournal] && (Holds(d, e.canonical, e.before) || HoldsSuccessor(d, e)))
    || (&& (ops == [LinkClaim, RemoveClaim, ClearJournal] || ops == [CopyClaim, RemoveClaim, ClearJournal])
        && Holds(d, e.claim, e.before))
  }

  lemma CreatePreserves(d: Disk, e: Entry, bytes: Bytes)
    requires d.Valid() && e.canonical !in d.names
    ensures CreateCanonical(d, e, bytes).Valid() && Preserves(d, CreateCanonical(d, e, bytes), e)
  {
  }

  lemma LinkPreserves(d: Disk, e: Entry)
    requires d.Valid() && Enabled(d, e, LinkClaim)
    ensures Apply(d, e, LinkClaim).Valid() && Preserves(d, Apply(d, e, LinkClaim), e)
  {
  }

  lemma RemovePreserves(d: Disk, e: Entry)
    requires d.Valid() && e.canonical != e.claim && e.claim in d.names
    requires HoldsOriginal(d, e) ==> Holds(d, e.canonical, e.before) || HoldsSuccessor(d, e)
    ensures Apply(d, e, RemoveClaim).Valid() && Preserves(d, Apply(d, e, RemoveClaim), e)
  {
  }

  lemma ClearPreserves(d: Disk, e: Entry)
    requires d.Valid()
    ensures Apply(d, e, ClearJournal).Valid() && Preserves(d, Apply(d, e, ClearJournal), e) && Preserves(d, d, e)
  {
  }

  lemma StepPreserves(d: Disk, e: Entry, ops: seq<Op>, torn: Option<nat>)
    requires d.Valid() && e.canonical != e.claim && Runs(d, e, ops) && ops != [] && SafeToRun(d, e, ops)
    ensures Apply(d, e, ops[0]).Valid() && Preserves(d, Apply(d, e, ops[0]), e)
    ensures Interrupt(d, e, ops[0], torn).Valid() && Preserves(d, Interrupt(d, e, ops[0], torn), e)
  {
    ClearPreserves(d, e);
    match ops[0]
    case LinkClaim => LinkPreserves(d, e);
    case CopyClaim =>
      CreatePreserves(d, e, d.Read(e.claim));
      if torn.Some? {
        CreatePreserves(d, e, Prefix(d.Read(e.claim), torn.value));
      }
    case RemoveClaim => RemovePreserves(d, e);
    case _ =>
  }

  lemma StepStaysSafe(d: Disk, e: Entry, ops: seq<Op>)
    requires d.Valid() && e.canonical != e.claim && Runs(d, e, ops) && ops != [] && SafeToRun(d, e, ops)
    ensures Apply(d, e, ops[0]).Valid() && SafeToRun(Apply(d, e, ops[0]), e, ops[1..])
  {
    ApplyKeepsValid(d, e, ops[0]);
  }

  lemma {:induction false} ExecutePreserves(d: Disk, e: Entry, ops: seq<Op>, fuel: nat, torn: Option<nat>)
    requires d.Valid() && e.canonical != e.claim && Runs(d, e, ops) && SafeToRun(d, e, ops)
    ensures Preserves(d, Execute(d, e, ops, fuel, torn), e)
    decreases |ops|
  {
    if ops != [] {
      StepPreserves(d, e, ops, torn);
      StepStaysSafe(d, e, ops);
      if fuel > 0 {
        var d1 := Apply(d, e, ops[0]);
        ExecutePreserves(d1, e, ops[1..], fuel - 1, torn);
        PreservesTransitive(d, d1, Execute(d1, e, ops[1..], fuel - 1, torn), e);
      }
    }
  }

  lemma OneRunPreserves(d: Disk, r: Run)
    requires d.Valid() && Distinct(d) && d.journal.Recorded?
    ensures Preserves(d, Recover(d, r.alive, r.link, r.fuel, r.torn), d.journal.entry)
  {
    var e, v := d.journal.entry, Decide(d, r.alive, r.link);
    if v.Proceed? {
      DecisionRuns(d, r.alive, r.link);
      ExecutePreserves(d, e, v.ops, r.fuel, r.torn);
    }
  }

  /** No sequence of recoveries - refused, crashed anywhere, with or without hard links, owner dead or
      alive - changes bytes already at canonical, touches another path, or drops the last copy of the
      original while canonical does not hold the recorded successor. */
  lemma {:induction false} NoClobberNoLoss(d: Disk, runs: seq<Run>)
    requires d.Valid() && Distinct(d) && d.journal.Recorded?
    ensures Preserves(d, RecoverAll(d, runs), d.journal.entry)
    decreases |runs|
  {
    if runs != [] {
      var r := runs[0];
      OneRunPreserves(d, r);
      var d1 := Recover(d, r.alive, r.link, r.fuel, r.torn);
      if d1.journal.NoJournal? {
        SettledStays(d1, runs[1..]);
      } else {
        NoClobberNoLoss(d1, runs[1..]);
      }
    }
  }

  // ---------- Restoring a claim ----------

  /** Why a restore gives up without a change; neither link nor an exclusive copy replaces a destination. */
  function RestoreRefusal(d: Disk, e: Entry, link: LinkSupport): Option<Reason> {
    if e.claim !in d.names then Some(ClaimLost)
    else if d.LinkCount(e.claim) != 1 then Some(UnsafeArtifact)
    else if link.Broken? then Some(LinkFailed)
    else if e.canonical in d.names then Some(DestinationExists)
    else None
  }

  function RestoreOps(link: LinkSupport): seq<Op> {
    [if link.Supported? then LinkClaim else CopyClaim, RemoveClaim]
  }

  lemma RestoreRuns(d: Disk, e: Entry, link: LinkSupport)
    requires d.Valid() && RestoreRefusal(d, e, link).None?
    ensures Runs(d, e, RestoreOps(link))
  {
    var ops := RestoreOps(link);
    var d1 := Apply(d, e, ops[0]);
    assert ops[1..] == [RemoveClaim] && ops[1..][1..] == [];
    assert Runs(d1, e, ops[1..]);
  }

  /** The disk after restoring the claim, from whatever it is. */
  ghost function Restored(d: Disk, e: Entry, link: LinkSupport, fuel: nat, torn: Option<nat>): (r: Disk)
    requires d.Valid()
    ensures r.Valid()
  {
    if RestoreRefusal(d, e, link).Some? then d
    else
      RestoreRuns(d, e, link);
      Execute(d, e, RestoreOps(link), fuel, torn)
  }

  lemma RestoreStep(d: Disk, e: Entry, link: LinkSupport, fuel: nat, torn: Option<nat>)
    requires d.Valid() && RestoreRefusal(d, e, link).None?
    ensures var op := RestoreOps(link)[0];
            var d1 := Apply(d, e, op);
            && d1.Valid() && Enabled(d1, e, RemoveClaim)
            && Restored(d, e, link, fuel, torn) ==
               if fuel == 0 then Interrupt(d, e, op, torn) else if fuel == 1 then d1 else Apply(d1, e, RemoveClaim)
  {
    RestoreRuns(d, e, link);
    var ops := RestoreOps(link);
    ApplyKeepsValid(d, e, ops[0]);
    var d1 := Apply(d, e, ops[0]);
    assert ops[1..] == [RemoveClaim] && ops[1..][1..] == [];
    if fuel > 0 {
      assert Execute(d, e, ops, fuel, torn) == Execute(d1, e, ops[1..], fuel - 1, torn);
      if fuel > 1 {
        assert Execute(d1, e, ops[1..], fuel - 1, torn) == Execute(Apply(d1, e, RemoveClaim), e, ops[1..][1..], fuel - 2, torn);
      }
    }
  }

  /** The disk after restoring the claim and then clearing the journal. */
  ghost function RolledBack(d: Disk, e: Entry, link: LinkSupport, fuel: nat, torn: Option<nat>): (r: Disk)
    requires d.Valid()
    ensures r.Valid()
  {
    var d' := Restored(d, e, link, fuel, torn);
    if RestoreRefusal(d, e, link).Some? || fuel < 2 then d' else Execute(d', e, [ClearJournal], fuel - 2, torn)
  }

  lemma ThreeSteps(d: Disk, e: Entry, ops: seq<Op>, fuel: nat, torn: Option<nat>)
    requires d.Valid() && |ops| == 3 && Runs(d, e, ops) && ops[1] == RemoveClaim && ops[2] == ClearJournal
    ensures var d1 := Apply(d, e, ops[0]);
            && d1.Valid() && Enabled(d1, e, RemoveClaim)
            && var d2 := Apply(d1, e, RemoveClaim);
               && d2.Valid()
               && Execute(d, e, ops, fuel, torn) ==
                  if fuel == 0 then Interrupt(d, e, ops[0], torn)
                  else if fuel == 1 then d1
                  else if fuel == 2 then d2
                  else Apply(d2, e, ClearJournal)
  {
    var d1 := Apply(d, e, ops[0]);
    ApplyKeepsValid(d, e, ops[0]);
    assert ops[1..] == [RemoveClaim, ClearJournal] && ops[1..][1..] == [ClearJournal] && ops[1..][1..][1..] == [];
    assert Runs(d1, e, ops[1..]);
    ApplyKeepsValid(d1, e, RemoveClaim);
    var d2 := Apply(d1, e, RemoveClaim);
    if fuel > 0 {
      assert Execute(d, e, ops, fuel, torn) == Execute(d1, e, ops[1..], fuel - 1, torn);
      if fuel > 1 {
        assert Execute(d1, e, ops[1..], fuel - 1, torn) == Execute(d2, e, ops[1..][1..], fuel - 2, torn);
        if fuel > 2 {
          assert Execute(d2, e, ops[1..][1..], fuel - 2, torn) == Apply(d2, e, ClearJournal);
        }
      }
    }
  }

  /** Where only the claim holds the original, recovery is the same as rolling back. */
  lemma RollBackIsRecovery(d: Disk, alive: set<Pid>, link: LinkSupport, fuel: nat, torn: Option<nat>)
    requires d.Valid() && Distinct(d) && RolledAway(d) && d.journal.entry.ownerPid !in alive
    ensures var e := d.journal.entry;
            && Recover(d, alive, link, fuel, torn) == RolledBack(d, e, link, fuel, torn)
            && RestoreRefusal(d, e, link) == if link.Broken? then Some(LinkFailed) else None
  {
    var e := d.journal.entry;
    if !link.Broken? {
      DecisionRuns(d, alive, link);
      var ops := Decide(d, alive, link).ops;
      assert ops == [RestoreOps(link)[0], RemoveClaim, ClearJournal];
      ThreeSteps(d, e, ops, fuel, torn);
      RestoreStep(d, e, link, fuel, torn);
      assert [ClearJournal][1..] == [];
    }
  }

  /** A restore from any disk, crashed anywhere, with any kind of link support, changes no bytes at canonical,
      touches no other path and keeps the original. */
  lemma RestorePreserves(d: Disk, e: Entry, link: LinkSupport, fuel: nat, torn: Option<nat>)
    requires d.Valid()
    ensures Preserves(d, Restored(d, e, link, fuel, torn), e)
  {
    if RestoreRefusal(d, e, link).None? {
      RestoreStep(d, e, link, fuel, torn);
      RestoreStepPreserves(d, e, RestoreOps(link)[0], torn);
    }
  }

  lemma RestoreStepPreserves(d: Disk, e: Entry, op: Op, torn: Option<nat>)
    requires d.Valid() && (op.LinkClaim? || op.CopyClaim?) && Enabled(d, e, op)
    ensures var d1 := Apply(d, e, op);
            && d1.Valid() && Preserves(d, d1, e) && Enabled(d1, e, RemoveClaim)
            && Apply(d1, e, RemoveClaim).Valid() && Preserves(d, Apply(d1, e, RemoveClaim), e)
    ensures Interrupt(d, e, op, torn).Valid() && Preserves(d, Interrupt(d, e, op, torn), e)
  {
    ClearPreserves(d, e);
    if op.LinkClaim? {
      LinkPreserves(d, e);
    } else {
      CreatePreserves(d, e, d.Read(e.claim));
      if torn.Some? {
        CreatePreserves(d, e, Prefix(d.Read(e.claim), torn.value));
      }
    }
    var d1 := Apply(d, e, op);
    assert d1.Read(e.claim) == d1.Read(e.canonical);
    RemovePreserves(d1, e);
    PreservesTransitive(d, d1, Apply(d1, e, RemoveClaim), e);
  }

  // ---------- The copy fallback ----------

  ghost predicate RolledAway(d: Disk)
    requires d.Valid()
  {
    && d.journal.Recorded?
    && var e := d.journal.entry;
       Single(d, e.claim) && Holds(d, e.claim, e.before) && e.canonical !in d.names
  }

  lemma CopyMakesSingles(d: Disk, e: Entry, bytes: Bytes)
    requires d.Valid() && Single(d, e.claim) && e.canonical !in d.names && e.claim != e.canonical
    ensures Single(CreateCanonical(d, e, bytes), e.claim) && Single(CreateCanonical(d, e, bytes), e.canonical)
  {
    var d' := CreateCanonical(d, e, bytes);
    assert d'.Aliases(e.canonical) == {e.canonical};
    assert d'.Aliases(e.claim) == d.Aliases(e.claim);
  }

  /** Power lost during or right after the fallback copy, k bytes in: the next recovery goes on if and
      only if those k bytes are the recorded successor; otherwise it refuses, now and always. */
  lemma CopyCrashDecision(d: Disk, k: nat, runs: seq<Run>)
    requires d.Valid() && Distinct(d) && RolledAway(d) && OwnerDead(runs, d.journal.entry) && runs != []
    ensures var e := d.journal.entry;
            var torn := Interrupt(d, e, CopyClaim, Some(k));
            && torn.Valid()
            && (Decide(torn, runs[0].alive, runs[0].link).Proceed?
                <==> e.after == Some(Sha256(Prefix(d.Read(e.claim), k))))
            && (e.after != Some(Sha256(Prefix(d.Read(e.claim), k))) ==> RecoverAll(torn, runs) == torn && HoldsOriginal(torn, e))
    decreases |runs|
  {
    var e := d.journal.entry;
    CopyMakesSingles(d, e, Prefix(d.Read(e.claim), k));
    if |runs| > 1 {
      assert OwnerDead(runs[1..], e);
      CopyCrashDecision(d, k, runs[1..]);
    }
  }

  /** An undisturbed fallback does restore the original. */
  lemma CopyWithoutCrash(d: Disk, alive: set<Pid>, torn: Option<nat>)
    requires d.Valid() && Distinct(d) && RolledAway(d) && d.journal.entry.ownerPid !in alive
    ensures var e := d.journal.entry;
            Settled(Recover(d, alive, Unsupported, 3, torn), e, Some(d.Read(e.claim)))
  {
    var e := d.journal.entry;
    DecisionRuns(d, alive, Unsupported);
    var ops := Decide(d, alive, Unsupported).ops;
    assert ops == [CopyClaim, RemoveClaim, ClearJournal];
    var d1 := Apply(d, e, CopyClaim);
    var d2 := Apply(d1, e, RemoveClaim);
    CopyMakesSingles(d, e, d.Read(e.claim));
    assert ops[1..] == [RemoveClaim, ClearJournal] && ops[1..][1..] == [ClearJournal] && ops[1..][1..][1..] == [];
    assert Execute(d2, e, ops[1..][1..], 1, torn) == Execute(Apply(d2, e, ClearJournal), e, ops[1..][1..][1..], 0, torn);
    assert Execute(d1, e, ops[1..], 2, torn) == Execute(d2, e, ops[1..][1..], 1, torn);
    assert Execute(d, e, ops, 3, torn) == Execute(d1, e, ops[1..], 2, torn);
  }

  /** Convergence is therefore false on the copy path: here is a disk on which one crash is enough. */
  lemma CopyPathCanStick(runs: seq<Run>)
    requires OwnerDead(runs, Entry(7, "c", "k", Sha256([1]), None))
    ensures var e := Entry(7, "c", "k", Sha256([1]), None);
            var d := Disk(map["k" := 0], map[0 := [1]], 1, Recorded(e));
            && d.Valid() && Recoverable(d)
            && var crashed := Recover(d, {}, Unsupported, 1, None);
               RecoverAll(crashed, runs) == crashed && crashed.journal.Recorded? && "k" in crashed.names
  {
    var e := Entry(7, "c", "k", Sha256([1]), None);
    var d := Disk(map["k" := 0], map[0 := [1]], 1, Recorded(e));
    assert d.Aliases("k") == {"k"};
    DecisionRuns(d, {}, Unsupported);
    var ops := Decide(d, {}, Unsupported).ops;
    assert ops == [CopyClaim, RemoveClaim, ClearJournal];
    var crashed := Apply(d, e, CopyClaim);
    assert Execute(d, e, ops, 1, None) == Execute(crashed, e, ops[1..], 0, None) == crashed;
    assert Prefix([1], 1) == [1];
    assert Interrupt(d, e, CopyClaim, Some(1)) == crashed;
    if runs != [] {
      CopyCrashDecision(d, 1, runs);
    }
  }

  /** A run that changes nothing while only the claim holds the original. */
  predicate Idle(r: Run) {
    r.link.Broken? || (r.fuel == 0 && (r.link.Supported? || r.torn.None?))
  }

  /** What a run cut short in the fallback copy or right behind it leaves at canonical. */
  function Written(claimed: Bytes, r: Run): Bytes
    requires !Idle(r)
  {
    if r.fuel == 0 && r.torn.Some? then Prefix(claimed, r.torn.value) else claimed
  }

  /** Whether the first run that does anything loses power inside the fallback copy or right behind it, having
      written something other than the successor. */
  predicate Sticks(claimed: Bytes, after: Option<Digest>, runs: seq<Run>) {
    && runs != []
    && if Idle(runs[0]) then Sticks(claimed, after, runs[1..])
       else runs[0].link.Unsupported? && runs[0].fuel <= 1 && after != Some(Sha256(Written(claimed, runs[0])))
  }

  /** Both files exist on their own, and canonical holds something unrecognized. */
  ghost predicate Stuck(d: Disk, e: Entry)
    requires d.Valid()
  {
    && d.journal == Recorded(e) && Single(d, e.claim) && Holds(d, e.claim, e.before)
    && Single(d, e.canonical) && !HoldsSuccessor(d, e)
  }

  /** Recovery is over: canonical holds the original, the successor or, as recorded, nothing. */
  ghost predicate Final(d: Disk, e: Entry)
    requires d.Valid()
  {
    && d.journal.NoJournal? && e.claim !in d.names
    && (Holds(d, e.canonical, e.before) || HoldsSuccessor(d, e) || (e.after.None? && e.canonical !in d.names))
  }

  lemma {:induction false} StuckStays(d: Disk, e: Entry, runs: seq<Run>)
    requires d.Valid() && Distinct(d) && Stuck(d, e)
    ensures RecoverAll(d, runs) == d
    decreases |runs|
  {
    if runs != [] {
      assert Decide(d, runs[0].alive, runs[0].link).Refuse?;
      StuckStays(d, e, runs[1..]);
    }
  }

  /** One recovery where canonical is in place or nothing is left to restore: link support does not matter. */
  lemma SteadyRun(d: Disk, r: Run)
    requires d.Valid() && Distinct(d) && Recoverable(d) && !RolledAway(d) && d.journal.entry.ownerPid !in r.alive
    ensures var e, d' := d.journal.entry, Recover(d, r.alive, r.link, r.fuel, r.torn);
            && Decide(d, r.alive, r.link) == Decide(d, r.alive, Supported) && Decide(d, r.alive, Supported).Proceed?
            && |Decide(d, r.alive, Supported).ops| <= 3
            && (Final(d', e) || (d'.journal == d.journal && Recoverable(d') && !RolledAway(d')))
            && (r.fuel >= |Decide(d, r.alive, Supported).ops| ==> Final(d', e))
  {
    assert Decide(d, r.alive, r.link) == Decide(d, r.alive, Supported);
    CrashedRecovery(d, r.alive, r.fuel, r.torn);
    TargetIsRecorded(d);
    OneRunPreserves(d, r);
  }

  /** One recovery where only the claim holds the original. */
  lemma AwayRun(d: Disk, r: Run)
    requires d.Valid() && Distinct(d) && RolledAway(d) && d.journal.entry.ownerPid !in r.alive
    ensures var e, d' := d.journal.entry, Recover(d, r.alive, r.link, r.fuel, r.torn);
            if Idle(r) then d' == d
            else if Sticks(d.Read(e.claim), e.after, [r]) then Stuck(d', e)
            else && (Final(d', e) || (d'.journal == d.journal && Recoverable(d') && !RolledAway(d')))
                 && (r.fuel >= 3 ==> Final(d', e))
  {
    var e := d.journal.entry;
    RollBackIsRecovery(d, r.alive, r.link, r.fuel, r.torn);
    if !r.link.Broken? {
      AwaySteps(d, r);
    }
  }

  lemma AwaySteps(d: Disk, r: Run)
    requires d.Valid() && Distinct(d) && RolledAway(d) && d.journal.entry.ownerPid !in r.alive && !r.link.Broken?
    ensures var e, d' := d.journal.entry, Recover(d, r.alive, r.link, r.fuel, r.torn);
            if Idle(r) then d' == d
            else if Sticks(d.Read(e.claim), e.after, [r]) then Stuck(d', e)
            else && (Final(d', e) || (d'.journal == d.journal && Recoverable(d') && !RolledAway(d')))
                 && (r.fuel >= 3 ==> Final(d', e))
  {
    var e := d.journal.entry;
    DecisionRuns(d, r.alive, r.link);
    var ops := Decide(d, r.alive, r.link).ops;
    ThreeSteps(d, e, ops, r.fuel, r.torn);
    var d1 := Apply(d, e, ops[0]);
    if r.link.Supported? {
      LinkMakesPair(d, e);
    } else {
      CopyMakesSingles(d, e, d.Read(e.claim));
      if r.torn.Some? {
        CopyMakesSingles(d, e, Prefix(d.Read(e.claim), r.torn.value));
      }
    }
    RemoveClaimCounts(d1, e);
  }

  /** Convergence with any mixture of link support and crashes: the recoveries stick exactly when the first one
      that does anything is cut short in or right behind a fallback copy of something unrecognized; otherwise
      any that can create links or copies and gets three primitives done finishes. */
  lemma {:induction false} AnyLinkConvergence(d: Disk, runs: seq<Run>)
    requires d.Valid() && Distinct(d) && Recoverable(d) && OwnerDead(runs, d.journal.entry)
    ensures var e, d' := d.journal.entry, RecoverAll(d, runs);
            if RolledAway(d) && Sticks(d.Read(e.claim), e.after, runs) then Stuck(d', e)
            else && (Final(d', e) || (d'.journal == d.journal && Recoverable(d')))
                 && ((exists r :: r in runs && Completes(r)) ==> Final(d', e))
    decreases |runs|
  {
    if runs != [] {
      var e, r := d.journal.entry, runs[0];
      var d1 := Recover(d, r.alive, r.link, r.fuel, r.torn);
      if RolledAway(d) {
        AwayRun(d, r);
      } else {
        SteadyRun(d, r);
      }
      if d1.journal.NoJournal? {
        SettledStays(d1, runs[1..]);
      } else if Stuck(d1, e) {
        StuckStays(d1, e, runs[1..]);
      } else {
        AnyLinkConvergence(d1, runs[1..]);
      }
    }
  }

  /** A run with a way to create files and power for a whole recovery. */
  predicate Completes(r: Run) {
    r.fuel >= 3 && !r.link.Broken?
  }

  /** A journal recovery must not act on: its writer lives, or it cannot be read. */
  predicate LeftAlone(journal: Journal, alive: set<Pid>) {
    journal.Malformed? || (journal.Recorded? && journal.entry.ownerPid in alive)
  }

  /** One recovery: nothing while the writer lives, never stuck on a recoverable state if files can be created, and
      final once all of its primitives are done. */
  lemma OneRecovery(d: Disk, alive: set<Pid>, link: LinkSupport, fuel: nat, torn: Option<nat>)
    requires d.Valid() && Distinct(d)
    ensures var v, d' := Decide(d, alive, link), Recover(d, alive, link, fuel, torn);
            && (LeftAlone(d.journal, alive) ==> v.Refuse? && d' == d)
            && (Recoverable(d) && !LeftAlone(d.journal, alive) && !link.Broken? ==> v.Proceed? && |v.ops| <= 3)
            && (v.Proceed? && fuel >= |v.ops| ==> d.journal.Recorded? && Final(d', d.journal.entry))
  {
    ProceedsIff(d, alive, link);
    var v := Decide(d, alive, link);
    if v.Proceed? && RolledAway(d) {
      AwayRun(d, Run(alive, link, fuel, torn));
    } else if v.Proceed? {
      SteadyRun(d, Run(alive, link, fuel, torn));
    }
  }

  /** A fallback recovery cut short anywhere, followed by complete ones, settles iff it was not cut short in or
      right behind a copy of something other than the successor. */
  lemma CopyFallbackSettlesIff(d: Disk, first: Run, later: seq<Run>)
    requires d.Valid() && Distinct(d) && RolledAway(d) && OwnerDead([first] + later, d.journal.entry)
    requires first.link.Unsupported? && later != [] && forall r :: r in later ==> Completes(r)
    ensures var e, original := d.journal.entry, d.Read(d.journal.entry.claim);
            Final(RecoverAll(d, [first] + later), e)
            <==> !(|| (first.fuel == 1 && e.after != Some(Sha256(original)))
                   || (first.fuel == 0 && first.torn.Some? && e.after != Some(Sha256(Prefix(original, first.torn.value)))))
  {
    var runs := [first] + later;
    var e, original := d.journal.entry, d.Read(d.journal.entry.claim);
    assert runs[1..] == later && later[0] in runs && Completes(later[0]);
    assert !Sticks(original, e.after, later);
    assert Sticks(original, e.after, runs) <==> !Idle(first) && first.fuel <= 1 && e.after != Some(Sha256(Written(original, first)));
    AnyLinkConvergence(d, runs);
  }

  // ---------- The transaction the journal protects ----------

  /** Replacing canonical by `after`, or deleting it when there is no successor. */
  function TransactionOps(after: Option<Bytes>): seq<Op> {
    if after.Some? then [WriteJournal, RenameToClaim, Install(after.value), RemoveClaim, ClearJournal]
    else [WriteJournal, RenameToClaim, RemoveClaim, ClearJournal]
  }

  function DigestOf(bytes: Option<Bytes>): Option<Digest> {
    if bytes.Some? then Some(Sha256(bytes.value)) else None
  }

  ghost predicate Ready(d: Disk, e: Entry, before: Bytes, after: Option<Bytes>) {
    && d.Valid() && d.journal.NoJournal? && e.canonical != e.claim && e.claim !in d.names
    && Single(d, e.canonical) && d.Read(e.canonical) == before
    && e.before == Sha256(before) && e.after == DigestOf(after)
  }

  lemma TransactionRuns(d: Disk, e: Entry, before: Bytes, after: Option<Bytes>)
    requires Ready(d, e, before, after)
    ensures Runs(d, e, TransactionOps(after))
  {
    var ops := TransactionOps(after);
    var d2 := Apply(Apply(d, e, ops[0]), e, ops[1]);
    var d3 := Apply(d2, e, ops[2]);
    assert ops[1..][1..] == ops[2..] && ops[2..][1..] == ops[3..] && ops[3..][1..] == ops[4..];
    if after.Some? {
      var d4 := Apply(d3, e, ops[3]);
      assert ops[4..][1..] == [];
      assert Runs(d4, e, ops[4..]);
    }
    assert Runs(d3, e, ops[3..]);
    assert Runs(d2, e, ops[2..]);
  }

  lemma SingleAfterRename(d: Disk, e: Entry)
    requires d.Valid() && e.canonical != e.claim && e.claim !in d.names && Single(d, e.canonical)
    ensures Single(Apply(d, e, RenameToClaim), e.claim)
  {
    var d' := Apply(d, e, RenameToClaim);
    SoleAlias(d, e.canonical);
    assert d'.Aliases(e.claim) == (d.Aliases(e.canonical) - {e.canonical}) + {e.claim};
  }

  /** A crash inside the installation of the successor, before its last byte. */
  predicate TornInstall(after: Option<Bytes>, fuel: nat, torn: Option<nat>) {
    after.Some? && fuel == 2 && torn.Some? && Prefix(after.value, torn.value) != after.value
  }

  /** A crash after which only the claim holds the original. */
  predicate Parks(after: Option<Bytes>, fuel: nat, torn: Option<nat>) {
    fuel == 2 && (after.None? || torn.None?)
  }

  ghost predicate TransactionLeaves(d: Disk, d': Disk, e: Entry, before: Bytes, after: Option<Bytes>)
    requires d.Valid()
  {
    && d'.Valid()
    && ((d'.names == d.names && d'.contents == d.contents && (d'.journal.NoJournal? || d'.journal.Malformed?))
        || (d'.journal == Recorded(e) && Recoverable(d') && (Target(d') == Some(before) || Target(d') == after))
        || Settled(d', e, after))
  }

  lemma ParkedAfterRename(d: Disk, e: Entry, before: Bytes, after: Option<Bytes>)
    requires Ready(d, e, before, after)
    ensures var d1 := Apply(d, e, WriteJournal);
            && d1.Valid() && Recoverable(d1) && Target(d1) == Some(before)
            && Enabled(d1, e, RenameToClaim) && Parked(Apply(d1, e, RenameToClaim), e, before)
  {
    var d1 := Apply(d, e, WriteJournal);
    assert d1.Aliases(e.canonical) == d.Aliases(e.canonical);
    ApplyKeepsValid(d1, e, RenameToClaim);
    SingleAfterRename(d1, e);
  }

  ghost predicate CrashLeaves(d: Disk, d': Disk, e: Entry, before: Bytes, after: Option<Bytes>, fuel: nat, torn: Option<nat>)
    requires d.Valid()
  {
    && d'.Valid()
    && if TornInstall(after, fuel, torn)
       then && d'.journal == Recorded(e) && Single(d', e.claim) && Holds(d', e.claim, e.before)
            && Single(d', e.canonical) && d'.Read(e.canonical) == Prefix(after.value, torn.value)
       else && TransactionLeaves(d, d', e, before, after)
            && (if Parks(after, fuel, torn) then Parked(d', e, before) else !RolledAway(d'))
  }

  lemma EarlyCrash(d: Disk, e: Entry, before: Bytes, after: Option<Bytes>, fuel: nat, torn: Option<nat>)
    requires Ready(d, e, before, after) && Runs(d, e, TransactionOps(after)) && fuel < 2
    ensures CrashLeaves(d, Execute(d, e, TransactionOps(after), fuel, torn), e, before, after, fuel, torn)
  {
    var ops := TransactionOps(after);
    ParkedAfterRename(d, e, before, after);
    if fuel == 1 {
      var d1 := Apply(d, e, ops[0]);
      assert Execute(d, e, ops, 1, torn) == Execute(d1, e, ops[1..], 0, torn) == d1;
    }
  }

  lemma AfterRename(d: Disk, e: Entry, before: Bytes, after: Option<Bytes>, fuel: nat, torn: Option<nat>)
    requires Ready(d, e, before, after) && Runs(d, e, TransactionOps(after)) && fuel >= 2
    ensures var d1 := Apply(d, e, WriteJournal);
            && Enabled(d1, e, RenameToClaim)
            && var d2, rest := Apply(d1, e, RenameToClaim), TransactionOps(after)[2..];
               && Parked(d2, e, before) && Runs(d2, e, rest)
               && Execute(d, e, TransactionOps(after), fuel, torn) == Execute(d2, e, rest, fuel - 2, torn)
  {
    var ops := TransactionOps(after);
    ParkedAfterRename(d, e, before, after);
    var d1 := Apply(d, e, ops[0]);
    assert ops[1..][1..] == ops[2..];
    assert Execute(d, e, ops, fuel, torn) == Execute(d1, e, ops[1..], fuel - 1, torn);
  }

  lemma ParkedByRename(d: Disk, e: Entry, before: Bytes, after: Option<Bytes>)
    requires Ready(d, e, before, after) && Runs(d, e, TransactionOps(after))
    ensures Parked(Execute(d, e, TransactionOps(after), 2, None), e, before)
  {
    AfterRename(d, e, before, after, 2, None);
  }

  /** The disk a crashed transaction leaves. */
  lemma TransactionCrash(d: Disk, e: Entry, before: Bytes, after: Option<Bytes>, fuel: nat, torn: Option<nat>)
    requires Ready(d, e, before, after) && Runs(d, e, TransactionOps(after))
    ensures CrashLeaves(d, Execute(d, e, TransactionOps(after), fuel, torn), e, before, after, fuel, torn)
  {
    if fuel < 2 {
      EarlyCrash(d, e, before, after, fuel, torn);
    } else {
      AfterRename(d, e, before, after, fuel, torn);
      var d2 := Apply(Apply(d, e, WriteJournal), e, RenameToClaim);
      if after.Some? {
        assert TransactionOps(after)[2..] == [Install(after.value), RemoveClaim, ClearJournal];
        InstallCrash(d2, e, before, after.value, fuel - 2, torn);
      } else {
        assert TransactionOps(after)[2..] == [RemoveClaim, ClearJournal];
        DeleteCrash(d2, e, before, fuel - 2, torn);
      }
    }
  }

  ghost predicate Parked(d: Disk, e: Entry, before: Bytes) {
    && d.Valid() && d.journal == Recorded(e) && e.canonical != e.claim && e.canonical !in d.names
    && Single(d, e.claim) && d.Read(e.claim) == before && e.before == Sha256(before)
  }

  lemma InstallCrash(d: Disk, e: Entry, before: Bytes, after: Bytes, fuel: nat, torn: Option<nat>)
    requires Parked(d, e, before) && e.after == Some(Sha256(after))
    requires Runs(d, e, [Install(after), RemoveClaim, ClearJournal])
    ensures var d' := Execute(d, e, [Install(after), RemoveClaim, ClearJournal], fuel, torn);
            if fuel == 0 && torn.Some? && Prefix(after, torn.value) != after
            then && d'.journal == Recorded(e) && Single(d', e.claim) && Holds(d', e.claim, e.before)
                 && Single(d', e.canonical) && d'.Read(e.canonical) == Prefix(after, torn.value)
            else && ((d'.journal == Recorded(e) && Recoverable(d') && (Target(d') == Some(before) || Target(d') == Some(after)))
                     || Settled(d', e, Some(after)))
                 && (if fuel == 0 && torn.None? then d' == d else !RolledAway(d'))
  {
    var ops := [Install(after), RemoveClaim, ClearJournal];
    var d1 := Apply(d, e, ops[0]);
    CopyMakesSingles(d, e, after);
    if torn.Some? {
      CopyMakesSingles(d, e, Prefix(after, torn.value));
    }
    if fuel > 0 {
      RemoveClaimCounts(d1, e);
      var d2 := Apply(d1, e, RemoveClaim);
      assert ops[1..] == [RemoveClaim, ClearJournal] && ops[1..][1..] == [ClearJournal] && ops[1..][1..][1..] == [];
      assert Execute(d, e, ops, fuel, torn) == Execute(d1, e, ops[1..], fuel - 1, torn);
      if fuel > 1 {
        assert Execute(d1, e, ops[1..], fuel - 1, torn) == Execute(d2, e, ops[1..][1..], fuel - 2, torn);
        if fuel > 2 {
          assert Execute(d2, e, ops[1..][1..], fuel - 2, torn) == Apply(d2, e, ClearJournal);
        }
      }
    }
  }

  lemma DeleteCrash(d: Disk, e: Entry, before: Bytes, fuel: nat, torn: Option<nat>)
    requires Parked(d, e, before) && e.after.None?
    requires Runs(d, e, [RemoveClaim, ClearJournal])
    ensures var d' := Execute(d, e, [RemoveClaim, ClearJournal], fuel, torn);
            && ((d'.journal == Recorded(e) && Recoverable(d') && (Target(d') == Some(before) || Target(d') == None))
                || Settled(d', e, None))
            && (if fuel == 0 then d' == d else !RolledAway(d'))
  {
    var ops := [RemoveClaim, ClearJournal];
    assert ops[1..] == [ClearJournal] && ops[1..][1..] == [];
  }

  ghost predicate AllOrNothing(d: Disk, e: Entry, before: Bytes, after: Option<Bytes>)
    requires d.Valid()
  {
    && e.claim !in d.names
    && match after
       case Some(bytes) => Holds(d, e.canonical, Sha256(before)) || Holds(d, e.canonical, Sha256(bytes))
       case None => Holds(d, e.canonical, Sha256(before)) || e.canonical !in d.names
  }

  /** Which validation of the transaction fails: that of the file moved to the claim, or that of the successor. */
  datatype Check = Passes | ClaimFails | InstallFails

  /** The disk a transaction leaves.  A claim that fails validation is rolled back; a successor that fails it is
      left in place, because the restore refuses to replace it. */
  ghost function Attempt(d: Disk, e: Entry, after: Option<Bytes>, check: Check, link: LinkSupport, fuel: nat, torn: Option<nat>): (r: Disk)
    requires d.Valid() && Runs(d, e, TransactionOps(after))
    ensures r.Valid()
  {
    var ops := TransactionOps(after);
    if check.ClaimFails? && fuel >= 2 then RolledBack(Execute(d, e, ops, 2, None), e, link, fuel - 2, torn)
    else if check.InstallFails? && after.Some? && fuel >= 3 then Execute(d, e, ops, 3, None)
    else Execute(d, e, ops, fuel, torn)
  }

  lemma InstalledAndJournalled(d: Disk, e: Entry, before: Bytes, after: Bytes)
    requires Ready(d, e, before, Some(after)) && Runs(d, e, TransactionOps(Some(after)))
    ensures Unreplaceable(Execute(d, e, TransactionOps(Some(after)), 3, None), e, before, after)
  {
    AfterRename(d, e, before, Some(after), 3, None);
    var d2, rest := Apply(Apply(d, e, WriteJournal), e, RenameToClaim), TransactionOps(Some(after))[2..];
    assert rest[0] == Install(after);
    CopyMakesSingles(d2, e, after);
  }

  /** The successor is installed, the original is still at the claim, the journal records both. */
  ghost predicate Unreplaceable(d: Disk, e: Entry, before: Bytes, after: Bytes) {
    && d.Valid() && d.journal == Recorded(e) && e.canonical != e.claim
    && Single(d, e.claim) && d.Read(e.claim) == before && Single(d, e.canonical) && d.Read(e.canonical) == after
  }

  /** With power for all of it, a transaction that passes validation leaves exactly the successor; one whose claim
      fails it, exactly the original, if link(2) does not fail; one whose successor fails it, both and the journal. */
  lemma TransactionCompletes(d: Disk, e: Entry, before: Bytes, after: Option<Bytes>, check: Check, link: LinkSupport,
                             fuel: nat, torn: Option<nat>)
    requires Ready(d, e, before, after) && Runs(d, e, TransactionOps(after)) && fuel >= 5
    ensures var d' := Attempt(d, e, after, check, link, fuel, torn);
            match check
            case Passes => Settled(d', e, after)
            case ClaimFails => if link.Broken? then Parked(d', e, before) else Settled(d', e, Some(before))
            case InstallFails => if after.None? then Settled(d', e, None) else Unreplaceable(d', e, before, after.value)
  {
    if check.ClaimFails? {
      ParkedByRename(d, e, before, after);
      var d2 := Execute(d, e, TransactionOps(after), 2, None);
      RolledBackCompletely(d2, e, before, link, fuel - 2, torn);
    } else if check.InstallFails? && after.Some? {
      InstalledAndJournalled(d, e, before, after.value);
    } else {
      CompleteTransaction(d, e, before, after, fuel, torn);
    }
  }

  lemma RolledBackCompletely(d: Disk, e: Entry, before: Bytes, link: LinkSupport, fuel: nat, torn: Option<nat>)
    requires Parked(d, e, before) && fuel >= 3
    ensures var d' := RolledBack(d, e, link, fuel, torn);
            if link.Broken? then d' == d else Settled(d', e, Some(before))
  {
    if !link.Broken? {
      RestoreStep(d, e, link, fuel, torn);
      var d1 := Apply(d, e, RestoreOps(link)[0]);
      assert e.canonical in d1.names && d1.Read(e.canonical) == before;
      var d2 := Restored(d, e, link, fuel, torn);
      assert d2 == Apply(d1, e, RemoveClaim);
      assert [ClearJournal][1..] == [];
      assert Execute(d2, e, [ClearJournal], fuel - 2, torn) == Apply(d2, e, ClearJournal);
    }
  }

  lemma CompleteTransaction(d: Disk, e: Entry, before: Bytes, after: Option<Bytes>, fuel: nat, torn: Option<nat>)
    requires Ready(d, e, before, after) && Runs(d, e, TransactionOps(after)) && fuel >= 5
    ensures Settled(Execute(d, e, TransactionOps(after), fuel, torn), e, after)
  {
    AfterRename(d, e, before, after, fuel, torn);
    var d2, rest := Apply(Apply(d, e, WriteJournal), e, RenameToClaim), TransactionOps(after)[2..];
    if after.Some? {
      assert rest == [Install(after.value), RemoveClaim, ClearJournal];
      ThreeSteps(d2, e, rest, fuel - 2, torn);
    } else {
      assert rest == [RemoveClaim, ClearJournal] && rest[1..] == [ClearJournal] && rest[1..][1..] == [];
      var d3 := Apply(d2, e, RemoveClaim);
      assert Execute(d2, e, rest, fuel - 2, torn) == Execute(d3, e, rest[1..], fuel - 3, torn);
      assert Execute(d3, e, rest[1..], fuel - 3, torn) == Apply(d3, e, ClearJournal);
    }
  }

  /** The state in which a transaction that fails validation starts to restore the claim. */
  lemma BeforeRestore(d: Disk, e: Entry, before: Bytes, after: Option<Bytes>, check: Check, link: LinkSupport)
    requires Ready(d, e, before, after) && Runs(d, e, TransactionOps(after))
    requires check.ClaimFails? || (check.InstallFails? && after.Some?)
    ensures RestoreRefusal(Execute(d, e, TransactionOps(after), if check.ClaimFails? then 2 else 3, None), e, link) ==
            if link.Broken? then Some(LinkFailed) else if check.ClaimFails? then None else Some(DestinationExists)
  {
    if check.ClaimFails? {
      ParkedByRename(d, e, before, after);
    } else {
      InstalledAndJournalled(d, e, before, after.value);
    }
  }

  /** How many primitives a transaction takes. */
  function Needed(after: Option<Bytes>, check: Check, link: LinkSupport): nat {
    match check
    case Passes => if after.Some? then 5 else 4
    case ClaimFails => if link.Broken? then 2 else 5
    case InstallFails => if after.Some? then 3 else 4
  }

  /** The ways a transaction and its recoveries fail to be atomic. */
  predicate TransactionSticks(before: Bytes, after: Option<Bytes>, check: Check, link: LinkSupport, fuel: nat, torn: Option<nat>,
                              runs: seq<Run>) {
    if check.ClaimFails? then fuel >= 2 && Sticks(before, DigestOf(after), [Run({}, link, fuel - 2, torn)] + runs)
    else TornInstall(after, fuel, torn) || (Parks(after, fuel, torn) && Sticks(before, DigestOf(after), runs))
  }

  /** A transaction that passes validation or fails it, crashed anywhere and followed by crashed recoveries with any
      kind of link support, one of which can complete, is atomic exactly when power was not lost inside the
      installation of the successor or inside or right behind a fallback copy that put something unrecognized at
      canonical. */
  lemma TransactionAtomicIff(d: Disk, e: Entry, before: Bytes, after: Option<Bytes>, check: Check, link: LinkSupport,
                             fuel: nat, torn: Option<nat>, runs: seq<Run>)
    requires Ready(d, e, before, after) && Runs(d, e, TransactionOps(after))
    requires OwnerDead(runs, e) && exists r :: r in runs && Completes(r)
    ensures var d' := Attempt(d, e, after, check, link, fuel, torn);
            Distinct(d') &&
            (AllOrNothing(RecoverAll(d', runs), e, before, after) <==> !TransactionSticks(before, after, check, link, fuel, torn, runs))
  {
    if check.ClaimFails? && fuel >= 2 {
      RolledBackTransaction(d, e, before, after, link, fuel, torn, runs);
    } else if check.InstallFails? && after.Some? && fuel >= 3 {
      UncheckedTransaction(d, e, before, after, 3, None, runs);
    } else {
      UncheckedTransaction(d, e, before, after, fuel, torn, runs);
    }
  }

  /** A plan can be carried out in two parts. */
  lemma {:induction false} SplitRun(d: Disk, e: Entry, ops: seq<Op>, n: nat, fuel: nat, torn: Option<nat>)
    requires d.Valid() && Runs(d, e, ops) && n <= |ops|
    ensures Runs(d, e, ops[..n])
    ensures Execute(d, e, ops[..n], fuel, torn) == if fuel < n then Execute(d, e, ops, fuel, torn) else Execute(d, e, ops, n, None)
    decreases n
  {
    if n > 0 {
      var d1 := Apply(d, e, ops[0]);
      ApplyKeepsValid(d, e, ops[0]);
      assert ops[..n][1..] == ops[1..][..n - 1] && ops[..n][0] == ops[0];
      SplitRun(d1, e, ops[1..], n - 1, if fuel > 0 then fuel - 1 else 0, torn);
    }
  }

  lemma FinalIsAllOrNothing(d: Disk, e: Entry, before: Bytes, after: Option<Bytes>)
    requires d.Valid() && e.before == Sha256(before) && e.after == DigestOf(after)
    ensures Final(d, e) ==> AllOrNothing(d, e, before, after)
    ensures Stuck(d, e) ==> !AllOrNothing(d, e, before, after)
  {
  }

  lemma UncheckedTransaction(d: Disk, e: Entry, before: Bytes, after: Option<Bytes>, fuel: nat, torn: Option<nat>, runs: seq<Run>)
    requires Ready(d, e, before, after) && Runs(d, e, TransactionOps(after))
    requires OwnerDead(runs, e) && exists r :: r in runs && Completes(r)
    ensures var d' := Execute(d, e, TransactionOps(after), fuel, torn);
            Distinct(d') &&
            (AllOrNothing(RecoverAll(d', runs), e, before, after)
             <==> !(TornInstall(after, fuel, torn) || (Parks(after, fuel, torn) && Sticks(before, DigestOf(after), runs))))
  {
    TransactionCrash(d, e, before, after, fuel, torn);
    var d' := Execute(d, e, TransactionOps(after), fuel, torn);
    if TornInstall(after, fuel, torn) {
      StuckStays(d', e, runs);
    } else if d'.journal.Malformed? {
      LiveOwnerIsLeftAlone(d', runs);
    } else if d'.journal.NoJournal? {
      SettledStays(d', runs);
    } else {
      AnyLinkConvergence(d', runs);
      FinalIsAllOrNothing(RecoverAll(d', runs), e, before, after);
    }
  }

  lemma RolledBackFrom(d: Disk, e: Entry, before: Bytes, after: Option<Bytes>, link: LinkSupport, fuel: nat, torn: Option<nat>,
                       runs: seq<Run>)
    requires Parked(d, e, before) && e.after == DigestOf(after)
    requires OwnerDead(runs, e) && exists r :: r in runs && Completes(r)
    ensures var d' := RolledBack(d, e, link, fuel, torn);
            Distinct(d') &&
            (AllOrNothing(RecoverAll(d', runs), e, before, after) <==> !Sticks(before, DigestOf(after), [Run({}, link, fuel, torn)] + runs))
  {
    var all := [Run({}, link, fuel, torn)] + runs;
    RollBackIsRecovery(d, {}, link, fuel, torn);
    assert all[1..] == runs && OwnerDead(all, e);
    AnyLinkConvergence(d, all);
    assert RecoverAll(d, all) == RecoverAll(RolledBack(d, e, link, fuel, torn), runs);
    FinalIsAllOrNothing(RecoverAll(d, all), e, before, after);
  }

  lemma RolledBackTransaction(d: Disk, e: Entry, before: Bytes, after: Option<Bytes>, link: LinkSupport, fuel: nat, torn: Option<nat>,
                              runs: seq<Run>)
    requires Ready(d, e, before, after) && Runs(d, e, TransactionOps(after)) && fuel >= 2
    requires OwnerDead(runs, e) && exists r :: r in runs && Completes(r)
    ensures var d' := RolledBack(Execute(d, e, TransactionOps(after), 2, None), e, link, fuel - 2, torn);
            Distinct(d') &&
            (AllOrNothing(RecoverAll(d', runs), e, before, after)
             <==> !Sticks(before, DigestOf(after), [Run({}, link, fuel - 2, torn)] + runs))
  {
    ParkedByRename(d, e, before, after);
    RolledBackFrom(Execute(d, e, TransactionOps(after), 2, None), e, before, after, link, fuel - 2, torn, runs);
  }

  // ---------- The program, one primitive at a time ----------

  datatype Outcome = NotNeeded | Recovered | Refused(reason: Reason) | PowerLost

  /** What creating a directory entry reports. */
  datatype Created = Done | NoPower | Exists | NotSupported | Failed

  /** A volume whose power fails after `fuel` more primitives. */
  class Volume {
    const link: LinkSupport
    var names: map<Path, nat>
    var contents: map<nat, Bytes>
    var next: nat
    var journal: Journal
    var fuel: nat
    var torn: Option<nat>

    constructor (d: Disk, link: LinkSupport, fuel: nat, torn: Option<nat>)
      ensures State() == d && this.link == link && this.fuel == fuel && this.torn == torn
    {
      this.link := link;
      names, contents, next, journal := d.names, d.contents, d.next, d.journal;
      this.fuel, this.torn := fuel, torn;
    }

    function State(): Disk
      reads this
    {
      Disk(names, contents, next, journal)
    }

    method Create(p: Path, bytes: Bytes)
      modifies this`names, this`contents, this`next
      ensures names == old(names)[p := old(next)] && contents == old(contents)[old(next) := bytes] && next == old(next) + 1
    {
      names := names[p := next];
      contents := contents[next := bytes];
      next := next + 1;
    }

    method Perform(e: Entry, op: Op) returns (powered: bool)
      requires Enabled(State(), e, op)
      modifies this
      ensures powered <==> old(fuel) > 0
      ensures powered ==> State() == Apply(old(State()), e, op) && fuel == old(fuel) - 1 && torn == old(torn)
      ensures !powered ==> State() == Interrupt(old(State()), e, op, old(torn)) && fuel == old(fuel) && torn == old(torn)
    {
      if fuel == 0 {
        powered := false;
        if torn.Some? {
          match op
          case WriteJournal => journal := Malformed;
          case Install(bytes) => Create(e.canonical, Prefix(bytes, torn.value));
          case CopyClaim => Create(e.canonical, Prefix(contents[names[e.claim]], torn.value));
          case _ =>
        }
        return;
      }
      fuel := fuel - 1;
      powered := true;
      match op
      case WriteJournal => journal := Recorded(e);
      case RenameToClaim =>
        var inode := names[e.canonical];
        names := names - {e.canonical};
        names := names[e.claim := inode];
      case Install(bytes) => Create(e.canonical, bytes);
      case LinkClaim => names := names[e.canonical := names[e.claim]];
      case CopyClaim => Create(e.canonical, contents[names[e.claim]]);
      case RemoveClaim => names := names - {e.claim};
      case ClearJournal => journal := NoJournal;
    }

    /** link(claim, canonical): refuses an existing destination. */
    method LinkNoClobber(e: Entry) returns (code: Created)
      requires State().Valid() && e.claim in names
      modifies this
      ensures code == if link.Broken? then Failed else if link.Unsupported? then NotSupported
                      else if e.canonical in old(names) then Exists else if old(fuel) == 0 then NoPower else Done
      ensures code.Done? ==> State() == Apply(old(State()), e, LinkClaim) && fuel == old(fuel) - 1 && torn == old(torn)
      ensures !code.Done? ==> State() == old(State()) && fuel == old(fuel) && torn == old(torn)
    {
      if link.Broken? {
        return Failed;
      }
      if link.Unsupported? {
        return NotSupported;
      }
      if e.canonical in names {
        return Exists;
      }
      var powered := Perform(e, LinkClaim);
      return if powered then Done else NoPower;
    }

    /** copyFile(claim, canonical, COPYFILE_EXCL): refuses an existing destination. */
    method CopyNoClobber(e: Entry) returns (code: Created)
      requires State().Valid() && e.claim in names
      modifies this
      ensures code == if e.canonical in old(names) then Exists else if old(fuel) == 0 then NoPower else Done
      ensures code.Exists? ==> State() == old(State())
      ensures code.NoPower? ==> State() == Interrupt(old(State()), e, CopyClaim, old(torn))
      ensures code.Done? ==> State() == Apply(old(State()), e, CopyClaim) && fuel == old(fuel) - 1 && torn == old(torn)
    {
      if e.canonical in names {
        return Exists;
      }
      var powered := Perform(e, CopyClaim);
      return if powered then Done else NoPower;
    }

    /** Puts the claim back at canonical without overwriting anything, whatever the volume holds. */
    method RestoreNoClobber(e: Entry) returns (outcome: Outcome)
      requires State().Valid()
      modifies this
      ensures State() == Restored(old(State()), e, link, old(fuel), old(torn))
      ensures Preserves(old(State()), State(), e)
      ensures var refusal := RestoreRefusal(old(State()), e, link);
              outcome == if refusal.Some? then Refused(refusal.value) else if old(fuel) < 2 then PowerLost else Recovered
      ensures outcome.Refused? <==>
                e.claim !in old(names) || old(State()).LinkCount(e.claim) != 1 || link.Broken? || e.canonical in old(names)
      ensures outcome.Refused? ==> State() == old(State())
      ensures outcome.Recovered? ==>
                && e.claim !in names && e.canonical in names && names[e.canonical] in contents
                && e.claim in old(names) && old(names)[e.claim] in old(contents)
                && contents[names[e.canonical]] == old(contents)[old(names)[e.claim]] && journal == old(journal)
      ensures outcome.Recovered? ==> fuel == old(fuel) - 2 && torn == old(torn)
    {
      ghost var d := State();
      RestorePreserves(d, e, link, fuel, torn);
      if e.claim !in names {
        return Refused(ClaimLost);
      }
      if State().LinkCount(e.claim) != 1 {
        return Refused(UnsafeArtifact);
      }
      if RestoreRefusal(d, e, link).None? {
        RestoreStep(d, e, link, fuel, torn);
      }
      var inode, claimed := names[e.claim], contents[names[e.claim]];
      var code := LinkNoClobber(e);
      var linked := code.Done?;
      if code.NotSupported? {
        code := CopyNoClobber(e);
      }
      if code.Failed? {
        return Refused(LinkFailed);
      }
      if code.Exists? {
        return Refused(DestinationExists);
      }
      if code.NoPower? {
        return PowerLost;
      }
      if names[e.claim] != inode || contents[names[e.claim]] != claimed || contents[names[e.canonical]] != claimed
         || (linked && names[e.claim] != names[e.canonical]) {
        return Refused(ChangedDuringRestore);
      }
      var powered := Perform(e, RemoveClaim);
      return if powered then Recovered else PowerLost;
    }

    /** Restores the claim and, if that worked, clears the journal. */
    method RollBack(e: Entry) returns (outcome: Outcome)
      requires State().Valid()
      modifies this
      ensures State() == RolledBack(old(State()), e, link, old(fuel), old(torn))
      ensures var refusal := RestoreRefusal(old(State()), e, link);
              outcome == if refusal.Some? then Refused(refusal.value) else if old(fuel) < 3 then PowerLost else Recovered
    {
      outcome := RestoreNoClobber(e);
      if outcome.Recovered? {
        outcome := Finish(e, [ClearJournal]);
      }
    }

    /** Replaces canonical by `after`, or deletes it, under the protection of the journal; `check` says which
        validation fails, if any. */
    method Transact(e: Entry, after: Option<Bytes>, check: Check) returns (outcome: Outcome)
      requires exists before :: Ready(State(), e, before, after)
      modifies this
      ensures Runs(old(State()), e, TransactionOps(after))
      ensures State() == Attempt(old(State()), e, after, check, link, old(fuel), old(torn))
      ensures outcome == if old(fuel) < Needed(after, check, link) then PowerLost
                         else if check.Passes? || (check.InstallFails? && after.None?) || (check.ClaimFails? && !link.Broken?)
                         then Recovered
                         else Refused(if link.Broken? then LinkFailed else DestinationExists)
    {
      ghost var before :| Ready(State(), e, before, after);
      ghost var d, ops := State(), TransactionOps(after);
      TransactionRuns(d, e, before, after);
      if check.Passes? || (check.InstallFails? && after.None?) {
        outcome := Finish(e, TransactionOps(after));
        return;
      }
      var n := if check.ClaimFails? then 2 else 3;
      BeforeRestore(d, e, before, after, check, link);
      SplitRun(d, e, ops, n, fuel, torn);
      outcome := Finish(e, TransactionOps(after)[..n]);
      if outcome.PowerLost? {
        return;
      }
      if check.ClaimFails? {
        outcome := RollBack(e);
      } else {
        outcome := RestoreNoClobber(e);
      }
    }

    /** Recovers an interrupted replacement. */
    method RecoverJournal(alive: set<Pid>) returns (outcome: Outcome)
      requires State().Valid() && Distinct(State())
      modifies this
      ensures State() == Recover(old(State()), alive, link, old(fuel), old(torn))
      ensures outcome == match Decide(old(State()), alive, link)
                         case Nothing => NotNeeded
                         case Refuse(reason) => Refused(reason)
                         case Proceed(ops) => if old(fuel) < |ops| then PowerLost else Recovered
      ensures LeftAlone(old(journal), alive) ==> outcome.Refused? && State() == old(State())
      ensures (Recoverable(old(State())) && !LeftAlone(old(journal), alive) && !link.Broken? && old(fuel) >= 3) ==>
                outcome.Recovered?
      ensures outcome.Recovered? ==> old(journal).Recorded? && Final(State(), old(journal).entry)
    {
      ghost var d := State();
      OneRecovery(d, alive, link, fuel, torn);
      if journal.NoJournal? {
        return NotNeeded;
      }
      if journal.Malformed? {
        return Refused(MalformedJournal);
      }
      var e := journal.entry;
      if e.ownerPid in alive {
        return Refused(LiveOwner);
      }
      if Decide(d, alive, link).Proceed? {
        DecisionRuns(d, alive, link);
      }
      if LinkedPair(State(), e) {
        if Sha256(contents[names[e.canonical]]) != e.before {
          return Refused(ChangedLink);
        }
        outcome := Finish(e, [RemoveClaim, ClearJournal]);
        return;
      }
      var canonical, claim := ReadRegular(State(), e.canonical), ReadRegular(State(), e.claim);
      if canonical.Unsafe? || claim.Unsafe? {
        return Refused(UnsafeArtifact);
      }
      if claim.Missing? {
        if (canonical.Missing? && e.after.None?)
           || (canonical.Regular? && (e.after == Some(Sha256(canonical.bytes)) || Sha256(canonical.bytes) == e.before)) {
          outcome := Finish(e, [ClearJournal]);
          return;
        }
        return Refused(ClaimLost);
      }
      if Sha256(claim.bytes) != e.before {
        return Refused(ClaimChanged);
      }
      if canonical.Missing? {
        RollBackIsRecovery(d, alive, link, fuel, torn);
        outcome := RollBack(e);
        return;
      }
      if e.after == Some(Sha256(canonical.bytes)) {
        outcome := Finish(e, [RemoveClaim, ClearJournal]);
        return;
      }
      return Refused(Unrecognized);
    }

    /** Performs the remaining primitives until power is lost. */
    method Finish(e: Entry, ops: seq<Op>) returns (outcome: Outcome)
      requires State().Valid() && Runs(State(), e, ops)
      modifies this
      ensures State() == Execute(old(State()), e, ops, old(fuel), old(torn))
      ensures outcome == if old(fuel) < |ops| then PowerLost else Recovered
      ensures outcome.Recovered? ==> fuel == old(fuel) - |ops| && torn == old(torn)
    {
      var i := 0;
      while i < |ops|
        invariant 0 <= i <= |ops| && i <= old(fuel) && fuel == old(fuel) - i && torn == old(torn)
        invariant State().Valid() && Runs(State(), e, ops[i..])
        invariant Execute(old(State()), e, ops, old(fuel), old(torn)) == Execute(State(), e, ops[i..], fuel, torn)
      {
        assert ops[i..][1..] == ops[i + 1..] && ops[i..][0] == ops[i];
        ApplyKeepsValid(State(), e, ops[i]);
        var powered := Perform(e, ops[i]);
        if !powered {
          return PowerLost;
        }
        i := i + 1;
      }
      return Recovered;
    }
  }
}
