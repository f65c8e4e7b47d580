/** Selecting the processes a cleanup may terminate.

    A snapshot of the process table is a list of entries; its parent links may form any graph, cycles
    included.  The session that runs the cleanup is protected with everything below it. */
module ProcessCleanup {
  import opened Prelude

  type Pid = nat

  datatype Entry = Entry(pid: Pid, ppid: Pid, command: string)

  /** What the command-line patterns recognise. */
  datatype Patterns = Patterns(isCodex: string -> bool, isOmxLaunch: string -> bool, entrypoint: string -> Option<string>)

  // ---------- The snapshot as maps; later entries win ----------

  function ParentByPid(ps: seq<Entry>): (m: map<Pid, Pid>) {
    if ps == [] then map[] else ParentByPid(ps[..|ps| - 1])[ps[|ps| - 1].pid := ps[|ps| - 1].ppid]
  }

  function EntryByPid(ps: seq<Entry>): (m: map<Pid, Entry>) {
    if ps == [] then map[] else EntryByPid(ps[..|ps| - 1])[ps[|ps| - 1].pid := ps[|ps| - 1]]
  }

  // ---------- Descendants ----------

  predicate Edge(ps: seq<Entry>, parent: Pid, child: Pid) {
    exists i :: 0 <= i < |ps| && ps[i].ppid == parent && ps[i].pid == child
  }

  ghost predicate IsPath(ps: seq<Entry>, path: seq<Pid>) {
    path != [] && forall i, j :: 0 <= i && j == i + 1 && j < |path| ==> Edge(ps, path[i], path[j])
  }

  ghost predicate Descends(ps: seq<Entry>, root: Pid, p: Pid) {
    exists path :: IsPath(ps, path) && path[0] == root && path[|path| - 1] == p
  }

  lemma RootDescends(ps: seq<Entry>, root: Pid)
    ensures Descends(ps, root, root)
  {
    assert IsPath(ps, [root]);
  }

  lemma ChildDescends(ps: seq<Entry>, root: Pid, p: Pid, child: Pid)
    requires Descends(ps, root, p) && Edge(ps, p, child)
    ensures Descends(ps, root, child)
  {
    var path :| IsPath(ps, path) && path[0] == root && path[|path| - 1] == p;
    var longer := path + [child];
    assert IsPath(ps, longer) && longer[0] == root && longer[|longer| - 1] == child;
  }

  /** A set that holds the root and is closed under children holds every descendant. */
  lemma {:induction false} ClosedHoldsPath(ps: seq<Entry>, s: set<Pid>, path: seq<Pid>)
    requires IsPath(ps, path) && path[0] in s
    requires forall p, q :: p in s && Edge(ps, p, q) ==> q in s
    ensures path[|path| - 1] in s
    decreases |path|
  {
    if |path| > 1 {
      assert Edge(ps, path[0], path[1]);
      var rest := path[1..];
      forall i, j | 0 <= i && j == i + 1 && j < |rest| ensures Edge(ps, rest[i], rest[j]) {
        assert Edge(ps, path[i + 1], path[j + 1]);
      }
      ClosedHoldsPath(ps, s, rest);
    }
  }

  ghost predicate ListsChildren(ps: seq<Entry>, children: map<Pid, seq<Pid>>) {
    forall p, q :: Edge(ps, p, q) <==> p in children && q in children[p]
  }

  /** The children of each pid, in snapshot order. */
  method ChildrenByPid(ps: seq<Entry>) returns (children: map<Pid, seq<Pid>>)
    ensures ListsChildren(ps, children)
  {
    children := map[];
    for i := 0 to |ps|
      invariant ListsChildren(ps[..i], children)
    {
      var siblings := if ps[i].ppid in children then children[ps[i].ppid] else [];
      ListOneMore(ps[..i], ps[i], children);
      assert ps[..i + 1] == ps[..i] + [ps[i]];
      children := children[ps[i].ppid := siblings + [ps[i].pid]];
    }
    assert ps[..|ps|] == ps;
  }

  lemma ListOneMore(ps: seq<Entry>, e: Entry, children: map<Pid, seq<Pid>>)
    requires ListsChildren(ps, children)
    ensures var siblings := if e.ppid in children then children[e.ppid] else [];
            ListsChildren(ps + [e], children[e.ppid := siblings + [e.pid]])
  {
    var siblings := if e.ppid in children then children[e.ppid] else [];
    var children' := children[e.ppid := siblings + [e.pid]];
    forall p, q ensures Edge(ps + [e], p, q) <==> p in children' && q in children'[p] {
      EdgeSnoc(ps, e, p, q);
    }
  }

  lemma EdgeSnoc(ps: seq<Entry>, e: Entry, p: Pid, q: Pid)
    ensures Edge(ps + [e], p, q) <==> Edge(ps, p, q) || (e.ppid == p && e.pid == q)
  {
    if Edge(ps, p, q) {
      var i :| 0 <= i < |ps| && ps[i].ppid == p && ps[i].pid == q;
      assert (ps + [e])[i] == ps[i];
    }
    if e.ppid == p && e.pid == q {
      assert (ps + [e])[|ps|] == e;
    }
  }

  function Pids(ps: seq<Entry>): set<Pid> {
    set i | 0 <= i < |ps| :: ps[i].pid
  }

  method PushUnvisited(stack: seq<Pid>, children: seq<Pid>, visited: set<Pid>) returns (r: seq<Pid>)
    ensures forall p :: p in r <==> p in stack || (p in children && p !in visited)
  {
    r := stack;
    for k := 0 to |children|
      invariant forall p :: p in r <==> p in stack || (p in children[..k] && p !in visited)
    {
      assert children[..k + 1] == children[..k] + [children[k]];
      if children[k] !in visited {
        r := r + [children[k]];
      }
    }
    assert children[..|children|] == children;
  }

  /** What the worklist has established: everything found descends from the root, and what is missing is
      below something still on the stack. */
  ghost predicate Exploring(ps: seq<Entry>, root: Pid, protected: set<Pid>, stack: seq<Pid>) {
    && (forall p :: p in stack || p in protected ==> Descends(ps, root, p) && p in Pids(ps) + {root})
    && (root in protected || root in stack)
    && (forall p, q :: p in protected && Edge(ps, p, q) ==> q in protected || q in stack)
  }

  lemma ExploreOne(ps: seq<Entry>, root: Pid, protected: set<Pid>, stack: seq<Pid>, pid: Pid, stack': seq<Pid>)
    requires Exploring(ps, root, protected, stack + [pid])
    requires forall p :: p in stack' <==> p in stack || (Edge(ps, pid, p) && p !in protected + {pid})
    ensures Exploring(ps, root, protected + {pid}, stack')
  {
    assert pid in stack + [pid];
    forall p | p in stack' ensures Descends(ps, root, p) && p in Pids(ps) + {root} {
      if p in stack {
        assert p in stack + [pid];
      } else {
        ChildDescends(ps, root, pid, p);
        ChildInUniverse(ps, pid, p);
      }
    }
    forall p, q | p in protected + {pid} && Edge(ps, p, q) ensures q in protected + {pid} || q in stack' {
      if p != pid {
        assert q in protected || q in stack + [pid];
      }
    }
  }

  /** Terminates on every graph and collects exactly the root and its descendants. */
  method Descendants(ps: seq<Entry>, root: Pid) returns (protected: set<Pid>)
    ensures forall p :: p in protected <==> Descends(ps, root, p)
  {
    var children := ChildrenByPid(ps);
    protected := {};
    var stack := [root];
    RootDescends(ps, root);
    while stack != []
      invariant Exploring(ps, root, protected, stack)
      decreases Pids(ps) + {root} - protected, |stack|
    {
      var pid := stack[|stack| - 1];
      assert stack == stack[..|stack| - 1] + [pid];
      stack := stack[..|stack| - 1];
      if pid !in protected {
        var mine := if pid in children then children[pid] else [];
        var pushed := PushUnvisited(stack, mine, protected + {pid});
        ExploreOne(ps, root, protected, stack, pid, pushed);
        protected := protected + {pid};
        stack := pushed;
      }
    }
    forall p | Descends(ps, root, p) ensures p in protected {
      var path :| IsPath(ps, path) && path[0] == root && path[|path| - 1] == p;
      ClosedHoldsPath(ps, protected, path);
    }
  }

  lemma ChildInUniverse(ps: seq<Entry>, p: Pid, child: Pid)
    requires Edge(ps, p, child)
    ensures child in Pids(ps)
  {
  }

  lemma {:induction false} SubsetSize<T>(a: set<T>, b: set<T>)
    requires a <= b
    ensures |a| <= |b|
    decreases |a|
  {
    if a != {} {
      var x :| x in a;
      SubsetSize(a - {x}, b - {x});
    }
  }

  // ---------- The protected root ----------

  datatype Walk = Found | Stopped | Next(pid: Pid)

  /** One round of the search upwards for the enclosing Codex session. */
  function WalkStep(ps: seq<Entry>, pats: Patterns, pid: Pid): Walk {
    var parents, entries := ParentByPid(ps), EntryByPid(ps);
    if pid <= 1 then Stopped
    else if pid in entries && entries[pid].command != "" && pats.isCodex(entries[pid].command) then Found
    else if pid !in parents || parents[pid] == 0 || parents[pid] == pid then Stopped
    else Next(parents[pid])
  }

  predicate StopsWithin(ps: seq<Entry>, pats: Patterns, pid: Pid, n: nat)
    decreases n
  {
    match WalkStep(ps, pats, pid)
    case Next(parent) => n > 0 && StopsWithin(ps, pats, parent, n - 1)
    case _ => true
  }

  /** How many rounds the search takes. */
  function Rounds(ps: seq<Entry>, pats: Patterns, pid: Pid, n: nat): (r: nat)
    requires StopsWithin(ps, pats, pid, n)
    ensures r <= n && StopsWithin(ps, pats, pid, r)
    decreases n
  {
    match WalkStep(ps, pats, pid)
    case Next(parent) => 1 + Rounds(ps, pats, parent, n - 1)
    case _ => 0
  }

  lemma {:induction false} RoundsAgree(ps: seq<Entry>, pats: Patterns, pid: Pid, n: nat, m: nat)
    requires StopsWithin(ps, pats, pid, n) && StopsWithin(ps, pats, pid, m)
    ensures Rounds(ps, pats, pid, n) == Rounds(ps, pats, pid, m)
    decreases n
  {
    match WalkStep(ps, pats, pid)
    case Next(parent) => RoundsAgree(ps, pats, parent, n - 1, m - 1);
    case _ =>
  }

  /** The k-th pid of the search: recorded parents above pid, up to a Codex command, a missing or zero parent or a
      process that is its own parent. */
  function Climb(ps: seq<Entry>, pats: Patterns, pid: Pid, k: nat): Option<Pid>
    decreases k
  {
    if k == 0 then Some(pid)
    else
      match WalkStep(ps, pats, pid)
      case Next(parent) => Climb(ps, pats, parent, k - 1)
      case _ => None
  }

  /** No pid occurs twice on that chain. */
  ghost predicate Acyclic(ps: seq<Entry>, pats: Patterns, pid: Pid) {
    forall i: nat, j: nat :: i < j && Climb(ps, pats, pid, j).Some? ==> Climb(ps, pats, pid, i) != Climb(ps, pats, pid, j)
  }

  /** The first n + 1 pids of a search that has not ended by then. */
  ghost function Climbed(ps: seq<Entry>, pats: Patterns, pid: Pid, n: nat): set<Pid>
    requires !StopsWithin(ps, pats, pid, n)
    decreases n
  {
    {pid} + if n == 0 then {} else Climbed(ps, pats, WalkStep(ps, pats, pid).pid, n - 1)
  }

  lemma {:induction false} ClimbedAt(ps: seq<Entry>, pats: Patterns, pid: Pid, n: nat, q: Pid) returns (k: nat)
    requires !StopsWithin(ps, pats, pid, n) && q in Climbed(ps, pats, pid, n)
    ensures k <= n && Climb(ps, pats, pid, k) == Some(q)
    decreases n
  {
    k := 0;
    if q != pid {
      var below := ClimbedAt(ps, pats, WalkStep(ps, pats, pid).pid, n - 1, q);
      k := below + 1;
    }
  }

  lemma ParentIsAcyclic(ps: seq<Entry>, pats: Patterns, pid: Pid)
    requires Acyclic(ps, pats, pid) && WalkStep(ps, pats, pid).Next?
    ensures Acyclic(ps, pats, WalkStep(ps, pats, pid).pid)
  {
    var parent := WalkStep(ps, pats, pid).pid;
    forall i: nat, j: nat | i < j && Climb(ps, pats, parent, j).Some? ensures Climb(ps, pats, parent, i) != Climb(ps, pats, parent, j) {
      assert Climb(ps, pats, pid, i + 1) == Climb(ps, pats, parent, i) && Climb(ps, pats, pid, j + 1) == Climb(ps, pats, parent, j);
    }
  }

  lemma ClimbedIsAbove(ps: seq<Entry>, pats: Patterns, pid: Pid, n: nat, q: Pid)
    requires Acyclic(ps, pats, pid) && WalkStep(ps, pats, pid).Next?
    requires !StopsWithin(ps, pats, WalkStep(ps, pats, pid).pid, n)
    ensures q in Climbed(ps, pats, WalkStep(ps, pats, pid).pid, n) ==> q != pid
  {
    if q in Climbed(ps, pats, WalkStep(ps, pats, pid).pid, n) {
      var k := ClimbedAt(ps, pats, WalkStep(ps, pats, pid).pid, n, q);
      assert Climb(ps, pats, pid, 0) == Some(pid) && Climb(ps, pats, pid, k + 1) == Some(q);
    }
  }

  /** Without repetition the search passes a new recorded pid each round. */
  lemma {:induction false} ClimbedSize(ps: seq<Entry>, pats: Patterns, pid: Pid, n: nat)
    requires Acyclic(ps, pats, pid) && !StopsWithin(ps, pats, pid, n)
    ensures |Climbed(ps, pats, pid, n)| == n + 1 && Climbed(ps, pats, pid, n) <= ParentByPid(ps).Keys
    decreases n
  {
    if n > 0 {
      var parent := WalkStep(ps, pats, pid).pid;
      ParentIsAcyclic(ps, pats, pid);
      ClimbedSize(ps, pats, parent, n - 1);
      ClimbedIsAbove(ps, pats, pid, n - 1, pid);
    }
  }

  lemma AcyclicStops(ps: seq<Entry>, pats: Patterns, pid: Pid)
    requires Acyclic(ps, pats, pid)
    ensures StopsWithin(ps, pats, pid, |ParentByPid(ps)|)
  {
    var n := |ParentByPid(ps)|;
    if !StopsWithin(ps, pats, pid, n) {
      ClimbedSize(ps, pats, pid, n);
      SubsetSize(Climbed(ps, pats, pid, n), ParentByPid(ps).Keys);
    }
  }

  lemma {:induction false} ClimbRounds(ps: seq<Entry>, pats: Patterns, pid: Pid, n: nat, k: nat)
    requires StopsWithin(ps, pats, pid, n) && Climb(ps, pats, pid, k).Some?
    ensures k <= n && StopsWithin(ps, pats, Climb(ps, pats, pid, k).value, n - k)
    ensures Rounds(ps, pats, Climb(ps, pats, pid, k).value, n - k) + k == Rounds(ps, pats, pid, n)
    decreases k
  {
    if k > 0 {
      ClimbRounds(ps, pats, WalkStep(ps, pats, pid).pid, n - 1, k - 1);
    }
  }

  lemma StoppedIsAcyclic(ps: seq<Entry>, pats: Patterns, pid: Pid, n: nat)
    requires StopsWithin(ps, pats, pid, n)
    ensures Acyclic(ps, pats, pid)
  {
    forall i: nat, j: nat | i < j && Climb(ps, pats, pid, j).Some? ensures Climb(ps, pats, pid, i) != Climb(ps, pats, pid, j) {
      ClimbRounds(ps, pats, pid, n, j);
      if Climb(ps, pats, pid, i).Some? {
        ClimbRounds(ps, pats, pid, n, i);
        SameRounds(ps, pats, Climb(ps, pats, pid, i).value, n - i, Climb(ps, pats, pid, j).value, n - j);
      }
    }
  }

  lemma SameRounds(ps: seq<Entry>, pats: Patterns, p: Pid, n: nat, q: Pid, m: nat)
    requires StopsWithin(ps, pats, p, n) && StopsWithin(ps, pats, q, m)
    ensures p == q ==> Rounds(ps, pats, p, n) == Rounds(ps, pats, q, m)
  {
    if p == q {
      RoundsAgree(ps, pats, p, n, m);
    }
  }

  /** The search for the root ends exactly when no pid occurs twice on the chain it follows, and then within as many
      rounds as the snapshot has pids. */
  lemma SearchEndsIff(ps: seq<Entry>, pats: Patterns, pid: Pid)
    ensures (exists n: nat :: StopsWithin(ps, pats, pid, n)) <==> Acyclic(ps, pats, pid)
    ensures StopsWithin(ps, pats, pid, |ParentByPid(ps)|) <==> Acyclic(ps, pats, pid)
  {
    if n: nat :| StopsWithin(ps, pats, pid, n) {
      StoppedIsAcyclic(ps, pats, pid, n);
    }
    if Acyclic(ps, pats, pid) {
      AcyclicStops(ps, pats, pid);
    }
    var rounds: nat := |ParentByPid(ps)|;
    assert StopsWithin(ps, pats, pid, rounds) ==> exists n: nat :: StopsWithin(ps, pats, pid, n);
  }

  /** It does not end on every snapshot: two processes that claim each other as parents are enough. */
  lemma SearchCanLoop(pats: Patterns, n: nat)
    requires !pats.isCodex("sh")
    ensures !StopsWithin([Entry(2, 3, "sh"), Entry(3, 2, "sh")], pats, 2, n)
    ensures !Acyclic([Entry(2, 3, "sh"), Entry(3, 2, "sh")], pats, 2)
  {
    var ps := [Entry(2, 3, "sh"), Entry(3, 2, "sh")];
    assert ps[..1] == [Entry(2, 3, "sh")] && ps[..1][..0] == [];
    assert ParentByPid(ps[..1]) == map[2 := 3] && EntryByPid(ps[..1]) == map[2 := Entry(2, 3, "sh")];
    LoopNeverStops(ps, pats, 2, 3, n);
    LoopNeverStops(ps, pats, 2, 3, |ParentByPid(ps)|);
    SearchEndsIff(ps, pats, 2);
  }

  lemma {:induction false} LoopNeverStops(ps: seq<Entry>, pats: Patterns, p: Pid, q: Pid, n: nat)
    requires WalkStep(ps, pats, p) == Next(q) && WalkStep(ps, pats, q) == Next(p)
    ensures !StopsWithin(ps, pats, p, n)
    decreases n
  {
    if n > 0 {
      LoopNeverStops(ps, pats, q, p, n - 1);
    }
  }

  /** The nearest Codex session at or above pid. */
  function NearestSession(ps: seq<Entry>, pats: Patterns, pid: Pid, n: nat): Option<Pid>
    requires StopsWithin(ps, pats, pid, n)
    decreases n
  {
    match WalkStep(ps, pats, pid)
    case Found => Some(pid)
    case Stopped => None
    case Next(parent) => NearestSession(ps, pats, parent, n - 1)
  }

  /** A process running Codex. */
  predicate IsSession(ps: seq<Entry>, pats: Patterns, pid: Pid) {
    var entries := EntryByPid(ps);
    pid > 1 && pid in entries && entries[pid].command != "" && pats.isCodex(entries[pid].command)
  }

  ghost function ProtectedRoot(ps: seq<Entry>, pats: Patterns, currentPid: Pid): Pid
    requires Acyclic(ps, pats, currentPid)
  {
    AcyclicStops(ps, pats, currentPid);
    var session := NearestSession(ps, pats, currentPid, |ParentByPid(ps)|);
    if session.Some? then session.value else currentPid
  }

  /** The first session on the chain above pid. */
  ghost predicate IsNearest(ps: seq<Entry>, pats: Patterns, pid: Pid, k: nat, r: Pid) {
    && Climb(ps, pats, pid, k) == Some(r) && IsSession(ps, pats, r)
    && forall j: nat :: j < k ==> Climb(ps, pats, pid, j).Some? && !IsSession(ps, pats, Climb(ps, pats, pid, j).value)
  }

  ghost predicate NoSessionAbove(ps: seq<Entry>, pats: Patterns, pid: Pid) {
    forall k: nat :: Climb(ps, pats, pid, k).Some? ==> !IsSession(ps, pats, Climb(ps, pats, pid, k).value)
  }

  lemma {:induction false} NearestIsNearest(ps: seq<Entry>, pats: Patterns, pid: Pid, n: nat)
    requires StopsWithin(ps, pats, pid, n)
    ensures var r := NearestSession(ps, pats, pid, n);
            if r.Some? then exists k: nat :: IsNearest(ps, pats, pid, k, r.value) else NoSessionAbove(ps, pats, pid)
    decreases n
  {
    var r := NearestSession(ps, pats, pid, n);
    match WalkStep(ps, pats, pid)
    case Found => assert IsNearest(ps, pats, pid, 0, pid);
    case Stopped =>
      forall k: nat | Climb(ps, pats, pid, k).Some? ensures !IsSession(ps, pats, Climb(ps, pats, pid, k).value) {
        assert k == 0;
      }
    case Next(parent) =>
      NearestIsNearest(ps, pats, parent, n - 1);
      if r.Some? {
        var k: nat :| IsNearest(ps, pats, parent, k, r.value);
        NearestAbove(ps, pats, pid, parent, k, r.value);
      } else {
        forall k: nat | Climb(ps, pats, pid, k).Some? ensures !IsSession(ps, pats, Climb(ps, pats, pid, k).value) {
          if k > 0 {
            assert Climb(ps, pats, pid, k) == Climb(ps, pats, parent, k - 1);
          }
        }
      }
  }

  lemma NearestAbove(ps: seq<Entry>, pats: Patterns, pid: Pid, parent: Pid, k: nat, r: Pid)
    requires WalkStep(ps, pats, pid) == Next(parent) && IsNearest(ps, pats, parent, k, r)
    ensures IsNearest(ps, pats, pid, k + 1, r)
  {
    forall j: nat | j < k + 1 ensures Climb(ps, pats, pid, j).Some? && !IsSession(ps, pats, Climb(ps, pats, pid, j).value) {
      if j > 0 {
        assert Climb(ps, pats, pid, j) == Climb(ps, pats, parent, j - 1);
      }
    }
  }

  /** The protected root is the nearest process at or above the current one that runs Codex, or the current process
      if none does. */
  lemma RootIsNearestSession(ps: seq<Entry>, pats: Patterns, currentPid: Pid)
    requires Acyclic(ps, pats, currentPid)
    ensures var root := ProtectedRoot(ps, pats, currentPid);
            || (exists k: nat :: IsNearest(ps, pats, currentPid, k, root))
            || (root == currentPid && NoSessionAbove(ps, pats, currentPid))
  {
    AcyclicStops(ps, pats, currentPid);
    var n := |ParentByPid(ps)|;
    NearestIsNearest(ps, pats, currentPid, n);
    var session := NearestSession(ps, pats, currentPid, n);
    if session.Some? {
      var k: nat :| IsNearest(ps, pats, currentPid, k, session.value);
      assert session.value == ProtectedRoot(ps, pats, currentPid);
      assert IsNearest(ps, pats, currentPid, k, ProtectedRoot(ps, pats, currentPid));
    }
  }

  lemma {:induction false} ParentHasEdge(ps: seq<Entry>, pid: Pid)
    requires pid in ParentByPid(ps)
    ensures Edge(ps, ParentByPid(ps)[pid], pid)
    decreases |ps|
  {
    var n := |ps| - 1;
    if ps[n].pid != pid {
      ParentHasEdge(ps[..n], pid);
      EdgeSnoc(ps[..n], ps[n], ParentByPid(ps)[pid], pid);
      assert ps == ps[..n] + [ps[n]];
    }
  }

  lemma {:induction false} ClimbDescends(ps: seq<Entry>, pats: Patterns, pid: Pid, k: nat)
    requires Climb(ps, pats, pid, k).Some?
    ensures Descends(ps, Climb(ps, pats, pid, k).value, pid)
    decreases k
  {
    if k == 0 {
      RootDescends(ps, pid);
    } else {
      var parent := WalkStep(ps, pats, pid).pid;
      ClimbDescends(ps, pats, parent, k - 1);
      ParentHasEdge(ps, pid);
      ChildDescends(ps, Climb(ps, pats, pid, k).value, parent, pid);
    }
  }

  /** The process that runs the cleanup, and everything below it, is protected. */
  lemma CurrentIsProtected(ps: seq<Entry>, pats: Patterns, currentPid: Pid)
    requires Acyclic(ps, pats, currentPid)
    ensures Descends(ps, ProtectedRoot(ps, pats, currentPid), currentPid)
  {
    var root := ProtectedRoot(ps, pats, currentPid);
    RootIsNearestSession(ps, pats, currentPid);
    if k: nat :| IsNearest(ps, pats, currentPid, k, root) {
      ClimbDescends(ps, pats, currentPid, k);
    } else {
      RootDescends(ps, currentPid);
    }
  }

  method ResolveProtectedRootPid(ps: seq<Entry>, pats: Patterns, currentPid: Pid) returns (r: Pid)
    requires Acyclic(ps, pats, currentPid)
    ensures r == ProtectedRoot(ps, pats, currentPid)
    ensures || (exists k: nat :: IsNearest(ps, pats, currentPid, k, r))
            || (r == currentPid && NoSessionAbove(ps, pats, currentPid))
  {
    RootIsNearestSession(ps, pats, currentPid);
    AcyclicStops(ps, pats, currentPid);
    r := SearchRoot(ps, pats, currentPid, |ParentByPid(ps)|);
  }

  method SearchRoot(ps: seq<Entry>, pats: Patterns, currentPid: Pid, ghost n: nat) returns (r: Pid)
    requires StopsWithin(ps, pats, currentPid, n)
    ensures var session := NearestSession(ps, pats, currentPid, n);
            r == if session.Some? then session.value else currentPid
  {
    var parents: map<Pid, Pid>, entries: map<Pid, Entry> := map[], map[];
    for i := 0 to |ps|
      invariant parents == ParentByPid(ps[..i]) && entries == EntryByPid(ps[..i])
    {
      assert ps[..i + 1][..i] == ps[..i];
      parents := parents[ps[i].pid := ps[i].ppid];
      entries := entries[ps[i].pid := ps[i]];
    }
    assert ps[..|ps|] == ps;
    var pid := currentPid;
    ghost var left := n;
    while pid > 1
      invariant StopsWithin(ps, pats, pid, left)
      invariant NearestSession(ps, pats, pid, left) == NearestSession(ps, pats, currentPid, n)
      decreases left
    {
      if pid in entries && entries[pid].command != "" && pats.isCodex(entries[pid].command) {
        return pid;
      }
      if pid !in parents || parents[pid] == 0 || parents[pid] == pid {
        break;
      }
      pid := parents[pid];
      left := left - 1;
    }
    return currentPid;
  }

  method BuildProtectedPidSet(ps: seq<Entry>, pats: Patterns, currentPid: Pid) returns (protected: set<Pid>)
    requires Acyclic(ps, pats, currentPid)
    ensures forall p :: p in protected <==> Descends(ps, ProtectedRoot(ps, pats, currentPid), p)
  {
    var root := ResolveProtectedRootPid(ps, pats, currentPid);
    protected := Descendants(ps, root);
  }

  // ---------- Ancestors ----------

  /** The k-th ancestor recorded in the snapshot. */
  function Ancestor(m: map<Pid, Entry>, pid: Pid, k: nat): Option<Pid> {
    if k == 0 then Some(pid)
    else
      var below := Ancestor(m, pid, k - 1);
      if below.Some? && below.value in m && m[below.value].ppid > 0 && m[below.value].ppid in m
      then Some(m[below.value].ppid) else None
  }

  ghost predicate HasAncestor(m: map<Pid, Entry>, pid: Pid, test: string -> bool) {
    exists k: nat :: k > 0 && Ancestor(m, pid, k).Some? && Ancestor(m, pid, k).value in m
                     && test(m[Ancestor(m, pid, k).value].command)
  }

  lemma {:induction false} AncestorsIn(m: map<Pid, Entry>, pid: Pid, s: set<Pid>, k: nat)
    requires k > 0 && Ancestor(m, pid, k).Some?
    requires Ancestor(m, pid, 1).Some? ==> Ancestor(m, pid, 1).value in s
    requires forall p :: p in s && p in m && m[p].ppid > 0 && m[p].ppid in m ==> m[p].ppid in s
    ensures Ancestor(m, pid, k).value in s
    decreases k
  {
    if k > 1 {
      AncestorsIn(m, pid, s, k - 1);
    }
  }

  /** The walk upwards has passed `seen`, where nothing matched, and stands at `current`. */
  ghost predicate Trail(m: map<Pid, Entry>, test: string -> bool, pid: Pid, seen: set<Pid>, current: Pid) {
    && pid in m
    && (m[pid].ppid in seen || m[pid].ppid == current)
    && (forall p :: p in seen ==> p in m && !test(m[p].command) && (m[p].ppid in seen || m[p].ppid == current))
  }

  lemma TrailEnds(m: map<Pid, Entry>, test: string -> bool, pid: Pid, seen: set<Pid>, current: Pid)
    requires Trail(m, test, pid, seen, current)
    requires current == 0 || current in seen || current !in m
    ensures !HasAncestor(m, pid, test)
  {
    forall k: nat | k > 0 && Ancestor(m, pid, k).Some? ensures Ancestor(m, pid, k).value in seen {
      assert Ancestor(m, pid, 0) == Some(pid);
      AncestorsIn(m, pid, seen, k);
    }
  }

  /** Walks up the snapshot; a cycle is noticed and ends the walk. */
  method HasAncestorMatching(m: map<Pid, Entry>, pid: Pid, test: string -> bool) returns (r: bool)
    ensures r <==> HasAncestor(m, pid, test)
  {
    if pid !in m {
      forall k: nat | k > 0 ensures Ancestor(m, pid, k).None? {
        NoAncestors(m, pid, k);
      }
      return false;
    }
    var seen: set<Pid> := {};
    var current := m[pid].ppid;
    ghost var k := 0;
    ghost var below := pid;
    while current > 0 && current !in seen
      invariant Trail(m, test, pid, seen, current)
      invariant k >= 0 && Ancestor(m, pid, k) == Some(below) && below in m && m[below].ppid == current
      decreases m.Keys - seen
    {
      if current !in m {
        TrailEnds(m, test, pid, seen, current);
        return false;
      }
      assert Ancestor(m, pid, k + 1) == Some(current);
      if test(m[current].command) {
        return true;
      }
      seen := seen + {current};
      below := current;
      current := m[current].ppid;
      k := k + 1;
    }
    TrailEnds(m, test, pid, seen, current);
    return false;
  }

  lemma {:induction false} NoAncestors(m: map<Pid, Entry>, pid: Pid, k: nat)
    requires pid !in m && k > 0
    ensures Ancestor(m, pid, k).None?
    decreases k
  {
    if k > 1 {
      NoAncestors(m, pid, k - 1);
    }
  }

  // ---------- Sorting by pid ----------

  function InsertBy<T>(pid: T -> Pid, s: seq<T>, x: T): seq<T> {
    if s == [] then [x]
    else if pid(s[|s| - 1]) > pid(x) then InsertBy(pid, s[..|s| - 1], x) + [s[|s| - 1]]
    else s + [x]
  }

  /** A stable sort by pid. */
  function SortBy<T>(pid: T -> Pid, s: seq<T>): seq<T> {
    if s == [] then [] else InsertBy(pid, SortBy(pid, s[..|s| - 1]), s[|s| - 1])
  }

  /** Each element is at least the one before it. */
  ghost predicate OrderedBy<T>(pid: T -> Pid, s: seq<T>)
    decreases |s|
  {
    |s| >= 2 ==> pid(s[|s| - 2]) <= pid(s[|s| - 1]) && OrderedBy(pid, s[..|s| - 1])
  }

  lemma {:induction false} InsertPermutes<T>(pid: T -> Pid, s: seq<T>, x: T)
    ensures multiset(InsertBy(pid, s, x)) == multiset(s) + multiset{x} && |InsertBy(pid, s, x)| == |s| + 1
    decreases |s|
  {
    if s != [] && pid(s[|s| - 1]) > pid(x) {
      assert s == s[..|s| - 1] + [s[|s| - 1]];
      InsertPermutes(pid, s[..|s| - 1], x);
    }
  }

  lemma {:induction false} SortPermutes<T>(pid: T -> Pid, s: seq<T>)
    ensures multiset(SortBy(pid, s)) == multiset(s) && |SortBy(pid, s)| == |s|
    decreases |s|
  {
    if s != [] {
      assert s == s[..|s| - 1] + [s[|s| - 1]];
      SortPermutes(pid, s[..|s| - 1]);
      InsertPermutes(pid, SortBy(pid, s[..|s| - 1]), s[|s| - 1]);
    }
  }

  lemma SortKeepsElements<T>(pid: T -> Pid, s: seq<T>, x: T)
    ensures x in SortBy(pid, s) <==> x in s
  {
    SortPermutes(pid, s);
    assert x in SortBy(pid, s) <==> x in multiset(SortBy(pid, s));
    assert x in s <==> x in multiset(s);
  }

  lemma {:induction false} InsertOrders<T>(pid: T -> Pid, s: seq<T>, x: T)
    requires OrderedBy(pid, s)
    ensures OrderedBy(pid, InsertBy(pid, s, x))
    ensures var r := InsertBy(pid, s, x);
            |r| == |s| + 1 && r[|s|] == if s != [] && pid(s[|s| - 1]) > pid(x) then s[|s| - 1] else x
    decreases |s|
  {
    if s != [] {
      var init, last := s[..|s| - 1], s[|s| - 1];
      if pid(last) > pid(x) {
        InsertPermutes(pid, init, x);
        InsertOrders(pid, init, x);
        assert InsertBy(pid, s, x)[..|s|] == InsertBy(pid, init, x);
      } else {
        assert (s + [x])[..|s|] == s;
      }
    }
  }

  lemma {:induction false} SortOrders<T>(pid: T -> Pid, s: seq<T>)
    ensures OrderedBy(pid, SortBy(pid, s))
    decreases |s|
  {
    if s != [] {
      SortOrders(pid, s[..|s| - 1]);
      InsertOrders(pid, SortBy(pid, s[..|s| - 1]), s[|s| - 1]);
    }
  }

  lemma {:induction false} LastIsGreatest<T>(pid: T -> Pid, s: seq<T>, x: T)
    requires OrderedBy(pid, s) && x in s
    ensures pid(x) <= pid(s[|s| - 1])
    decreases |s|
  {
    if x != s[|s| - 1] {
      assert s == s[..|s| - 1] + [s[|s| - 1]] && x in s[..|s| - 1];
      LastIsGreatest(pid, s[..|s| - 1], x);
    }
  }

  lemma {:induction false} SortOfOrdered<T>(pid: T -> Pid, s: seq<T>)
    requires OrderedBy(pid, s)
    ensures SortBy(pid, s) == s
    decreases |s|
  {
    if s != [] {
      SortOfOrdered(pid, s[..|s| - 1]);
      assert s == s[..|s| - 1] + [s[|s| - 1]];
    }
  }

  // ---------- Duplicate siblings ----------

  type Key = (Pid, string)

  /** The group of an MCP server process: its parent and its entrypoint. */
  function KeyOf(pats: Patterns, e: Entry): Option<Key> {
    var entrypoint := pats.entrypoint(e.command);
    if entrypoint.None? then None else Some((e.ppid, entrypoint.value))
  }

  function Group(pats: Patterns, ps: seq<Entry>, k: Key): seq<Entry> {
    if ps == [] then []
    else Group(pats, ps[..|ps| - 1], k) + if KeyOf(pats, ps[|ps| - 1]) == Some(k) then [ps[|ps| - 1]] else []
  }

  lemma {:induction false} GroupMember(pats: Patterns, ps: seq<Entry>, k: Key, e: Entry)
    ensures e in Group(pats, ps, k) <==> e in ps && KeyOf(pats, e) == Some(k)
    decreases |ps|
  {
    if ps != [] {
      assert ps == ps[..|ps| - 1] + [ps[|ps| - 1]];
      GroupMember(pats, ps[..|ps| - 1], k, e);
    }
  }

  lemma {:induction false} GroupConcat(pats: Patterns, a: seq<Entry>, b: seq<Entry>, k: Key)
    ensures Group(pats, a + b, k) == Group(pats, a, k) + Group(pats, b, k)
    decreases |b|
  {
    if b == [] {
      assert a + b == a;
    } else {
      assert (a + b)[..|a + b| - 1] == a + b[..|b| - 1];
      GroupConcat(pats, a, b[..|b| - 1], k);
    }
  }

  lemma {:induction false} GroupOfUniform(pats: Patterns, s: seq<Entry>, k: Key, k': Key)
    requires forall e :: e in s ==> KeyOf(pats, e) == Some(k)
    ensures Group(pats, s, k') == if k == k' then s else []
    decreases |s|
  {
    if s != [] {
      GroupOfUniform(pats, s[..|s| - 1], k, k');
      assert s == s[..|s| - 1] + [s[|s| - 1]];
    }
  }

  function PidOf(e: Entry): Pid {
    e.pid
  }

  /** An element no smaller than all others goes last. */
  lemma InsertLast<T>(pid: T -> Pid, s: seq<T>, x: T)
    requires s != [] ==> pid(s[|s| - 1]) <= pid(x)
    ensures InsertBy(pid, s, x) == s + [x]
  {
  }

  lemma InsertInside<T>(pid: T -> Pid, s: seq<T>, last: T, x: T)
    requires pid(last) > pid(x)
    ensures InsertBy(pid, s + [last], x) == InsertBy(pid, s, x) + [last]
  {
    assert (s + [last])[..|s|] == s;
  }

  lemma GroupLast(pats: Patterns, s: seq<Entry>, x: Entry, k: Key)
    requires s != [] && OrderedBy(PidOf, s) && s[|s| - 1].pid <= x.pid
    ensures var g := Group(pats, s, k); g != [] ==> g[|g| - 1].pid <= x.pid
  {
    var g := Group(pats, s, k);
    if g != [] {
      GroupMember(pats, s, k, g[|g| - 1]);
      LastIsGreatest(PidOf, s, g[|g| - 1]);
    }
  }

  /** Sorting and grouping commute. */
  lemma {:induction false} GroupOfInsert(pats: Patterns, s: seq<Entry>, x: Entry, k: Key)
    requires OrderedBy(PidOf, s)
    ensures Group(pats, InsertBy(PidOf, s, x), k) ==
            if KeyOf(pats, x) == Some(k) then InsertBy(PidOf, Group(pats, s, k), x) else Group(pats, s, k)
    decreases |s|
  {
    if s == [] || PidOf(s[|s| - 1]) <= PidOf(x) {
      GroupOfInsertLast(pats, s, x, k);
    } else {
      var init, last := s[..|s| - 1], s[|s| - 1];
      assert s == init + [last];
      GroupOfInsert(pats, init, x, k);
      GroupOfInsertInside(pats, init, last, x, k);
    }
  }

  lemma GroupOfInsertLast(pats: Patterns, s: seq<Entry>, x: Entry, k: Key)
    requires OrderedBy(PidOf, s) && (s == [] || PidOf(s[|s| - 1]) <= PidOf(x))
    ensures Group(pats, InsertBy(PidOf, s, x), k) ==
            if KeyOf(pats, x) == Some(k) then InsertBy(PidOf, Group(pats, s, k), x) else Group(pats, s, k)
  {
    var g := Group(pats, s, k);
    if s != [] {
      GroupLast(pats, s, x, k);
    }
    InsertLast(PidOf, s, x);
    InsertLast(PidOf, g, x);
    GroupSnoc(pats, s, x, k);
    assert g + [] == g;
  }

  lemma GroupOfInsertInside(pats: Patterns, init: seq<Entry>, last: Entry, x: Entry, k: Key)
    requires PidOf(last) > PidOf(x)
    requires Group(pats, InsertBy(PidOf, init, x), k) ==
             if KeyOf(pats, x) == Some(k) then InsertBy(PidOf, Group(pats, init, k), x) else Group(pats, init, k)
    ensures Group(pats, InsertBy(PidOf, init + [last], x), k) ==
            if KeyOf(pats, x) == Some(k) then InsertBy(PidOf, Group(pats, init + [last], k), x) else Group(pats, init + [last], k)
  {
    InsertInside(PidOf, init, last, x);
    GroupSnoc(pats, InsertBy(PidOf, init, x), last, k);
    GroupSnoc(pats, init, last, k);
    InsertInside(PidOf, Group(pats, init, k), last, x);
    var g := Group(pats, init, k);
    assert g + [] == g && InsertBy(PidOf, g, x) + [] == InsertBy(PidOf, g, x);
  }

  lemma GroupSnoc(pats: Patterns, s: seq<Entry>, x: Entry, k: Key)
    ensures Group(pats, s + [x], k) == Group(pats, s, k) + if KeyOf(pats, x) == Some(k) then [x] else []
  {
    assert (s + [x])[..|s|] == s;
  }

  lemma SortSnoc<T>(pid: T -> Pid, s: seq<T>, x: T)
    ensures SortBy(pid, s + [x]) == InsertBy(pid, SortBy(pid, s), x)
  {
    assert (s + [x])[..|s|] == s;
  }

  lemma GroupOfSorted(pats: Patterns, init: seq<Entry>, last: Entry, k: Key)
    ensures var sorted := SortBy(PidOf, init);
            Group(pats, InsertBy(PidOf, sorted, last), k) ==
            if KeyOf(pats, last) == Some(k) then InsertBy(PidOf, Group(pats, sorted, k), last) else Group(pats, sorted, k)
  {
    SortOrders(PidOf, init);
    GroupOfInsert(pats, SortBy(PidOf, init), last, k);
  }

  lemma SortOneMore(pats: Patterns, init: seq<Entry>, last: Entry, k: Key)
    requires Group(pats, SortBy(PidOf, init), k) == SortBy(PidOf, Group(pats, init, k))
    ensures Group(pats, SortBy(PidOf, init + [last]), k) == SortBy(PidOf, Group(pats, init + [last], k))
  {
    var g := Group(pats, init, k);
    SortSnoc(PidOf, init, last);
    GroupOfSorted(pats, init, last, k);
    GroupSnoc(pats, init, last, k);
    SortSnoc(PidOf, g, last);
    assert g + [] == g;
  }

  lemma {:induction false} GroupOfSort(pats: Patterns, s: seq<Entry>, k: Key)
    ensures Group(pats, SortBy(PidOf, s), k) == SortBy(PidOf, Group(pats, s, k))
    decreases |s|
  {
    if s != [] {
      var init, last := s[..|s| - 1], s[|s| - 1];
      assert s == init + [last];
      GroupOfSort(pats, init, k);
      SortOneMore(pats, init, last, k);
    }
  }

  /** A group in pid order, without its last member. */
  function AllButHighest(g: seq<Entry>): seq<Entry> {
    var sorted := SortBy(PidOf, g);
    if sorted == [] then [] else sorted[..|sorted| - 1]
  }

  /** Exactly one member of each group is spared, and none of the others has a higher pid. */
  lemma SparesTheHighest(g: seq<Entry>) returns (spared: Entry)
    requires g != []
    ensures spared in g && (forall e :: e in g ==> e.pid <= spared.pid)
    ensures multiset(g) == multiset(AllButHighest(g)) + multiset{spared}
  {
    var sorted := SortBy(PidOf, g);
    SortPermutes(PidOf, g);
    SortOrders(PidOf, g);
    spared := sorted[|sorted| - 1];
    assert sorted == sorted[..|sorted| - 1] + [spared];
    SortKeepsElements(PidOf, g, spared);
    forall e | e in g ensures e.pid <= spared.pid {
      SortKeepsElements(PidOf, g, e);
      LastIsGreatest(PidOf, sorted, e);
    }
  }

  ghost predicate Grouped(pats: Patterns, ps: seq<Entry>, groups: map<Key, seq<Entry>>, order: seq<Key>) {
    && (forall k :: k in groups <==> k in order)
    && (forall k :: k in groups ==> groups[k] == Group(pats, ps, k))
    && (forall k :: k !in groups ==> Group(pats, ps, k) == [])
    && (forall i, j :: 0 <= i < j < |order| ==> order[i] != order[j])
  }

  lemma GroupsSnoc(pats: Patterns, ps: seq<Entry>, e: Entry)
    ensures forall k :: Group(pats, ps + [e], k) == Group(pats, ps, k) + if KeyOf(pats, e) == Some(k) then [e] else []
  {
    forall k ensures Group(pats, ps + [e], k) == Group(pats, ps, k) + if KeyOf(pats, e) == Some(k) then [e] else [] {
      GroupSnoc(pats, ps, e, k);
    }
  }

  lemma GroupJoined(pats: Patterns, ps: seq<Entry>, e: Entry, k: Key, groups: map<Key, seq<Entry>>, order: seq<Key>)
    requires Grouped(pats, ps, groups, order) && KeyOf(pats, e) == Some(k) && k in groups
    ensures Grouped(pats, ps + [e], groups[k := groups[k] + [e]], order)
  {
    GroupsSnoc(pats, ps, e);
  }

  lemma GroupStarted(pats: Patterns, ps: seq<Entry>, e: Entry, k: Key, groups: map<Key, seq<Entry>>, order: seq<Key>)
    requires Grouped(pats, ps, groups, order) && KeyOf(pats, e) == Some(k) && k !in groups
    ensures Grouped(pats, ps + [e], groups[k := [e]], order + [k])
  {
    GroupsSnoc(pats, ps, e);
    assert forall x :: x in order + [k] <==> x in order || x == k;
  }

  lemma GroupOneMore(pats: Patterns, ps: seq<Entry>, e: Entry, groups: map<Key, seq<Entry>>, order: seq<Key>)
    requires Grouped(pats, ps, groups, order)
    ensures var key := KeyOf(pats, e);
            if key.None? then Grouped(pats, ps + [e], groups, order)
            else
              var k := key.value;
              Grouped(pats, ps + [e], groups[k := (if k in groups then groups[k] else []) + [e]],
                      if k in groups then order else order + [k])
  {
    var key := KeyOf(pats, e);
    if key.None? {
      GroupsSnoc(pats, ps, e);
    } else if key.value in groups {
      GroupJoined(pats, ps, e, key.value, groups, order);
    } else {
      GroupStarted(pats, ps, e, key.value, groups, order);
      assert [] + [e] == [e];
    }
  }

  /** Puts one process into its group. */
  method AddToGroup(pats: Patterns, ghost before: seq<Entry>, e: Entry, groups: map<Key, seq<Entry>>, order: seq<Key>)
    returns (groups': map<Key, seq<Entry>>, order': seq<Key>)
    requires Grouped(pats, before, groups, order)
    ensures Grouped(pats, before + [e], groups', order')
  {
    GroupOneMore(pats, before, e, groups, order);
    var key := KeyOf(pats, e);
    if key.None? {
      return groups, order;
    }
    var group := if key.value in groups then groups[key.value] else [];
    order' := if key.value in groups then order else order + [key.value];
    groups' := groups[key.value := group + [e]];
  }

  lemma TakeOneMore(ps: seq<Entry>, i: nat)
    requires i < |ps|
    ensures ps[..i + 1] == ps[..i] + [ps[i]]
  {
  }

  /** Groups in order of first appearance, as the insertion-ordered map of the program keeps them. */
  method GroupByKey(ps: seq<Entry>, pats: Patterns) returns (groups: map<Key, seq<Entry>>, order: seq<Key>)
    ensures Grouped(pats, ps, groups, order)
  {
    groups, order := map[], [];
    for i := 0 to |ps|
      invariant Grouped(pats, ps[..i], groups, order)
    {
      TakeOneMore(ps, i);
      groups, order := AddToGroup(pats, ps[..i], ps[i], groups, order);
    }
    assert ps[..|ps|] == ps;
  }

  ghost predicate ReapedFrom(pats: Patterns, ps: seq<Entry>, keys: seq<Key>, candidates: seq<Entry>) {
    && (forall k :: Group(pats, candidates, k) == if k in keys then AllButHighest(Group(pats, ps, k)) else [])
    && (forall e :: e in candidates ==> KeyOf(pats, e).Some?)
  }

  lemma ReapedAreOfKey(pats: Patterns, ps: seq<Entry>, k: Key)
    ensures forall e :: e in AllButHighest(Group(pats, ps, k)) ==> KeyOf(pats, e) == Some(k)
  {
    forall e | e in AllButHighest(Group(pats, ps, k)) ensures KeyOf(pats, e) == Some(k) {
      SortKeepsElements(PidOf, Group(pats, ps, k), e);
      GroupMember(pats, ps, k, e);
    }
  }

  lemma ReapOne(pats: Patterns, ps: seq<Entry>, keys: seq<Key>, candidates: seq<Entry>, k: Key)
    requires ReapedFrom(pats, ps, keys, candidates) && k !in keys
    ensures ReapedFrom(pats, ps, keys + [k], candidates + AllButHighest(Group(pats, ps, k)))
  {
    var reaped := AllButHighest(Group(pats, ps, k));
    ReapedAreOfKey(pats, ps, k);
    forall k' ensures Group(pats, candidates + reaped, k') ==
                      if k' in keys + [k] then AllButHighest(Group(pats, ps, k')) else [] {
      GroupConcat(pats, candidates, reaped, k');
      GroupOfUniform(pats, reaped, k, k');
      NothingAdded(Group(pats, candidates, k'), reaped);
      assert k' in keys + [k] <==> k' in keys || k' == k;
    }
  }

  lemma NothingAdded(a: seq<Entry>, b: seq<Entry>)
    ensures a + [] == a && [] + b == b
  {
  }

  lemma SmallGroupSpared(g: seq<Entry>)
    requires |g| <= 1
    ensures AllButHighest(g) == []
  {
    SortPermutes(PidOf, g);
  }

  lemma AllButHighestIsOrdered(g: seq<Entry>)
    ensures SortBy(PidOf, AllButHighest(g)) == AllButHighest(g)
  {
    SortOrders(PidOf, g);
    SortOfOrdered(PidOf, AllButHighest(g));
  }

  /** Sorting the candidates leaves each group as it was. */
  lemma ReapedSorted(pats: Patterns, ps: seq<Entry>, keys: seq<Key>, candidates: seq<Entry>)
    requires ReapedFrom(pats, ps, keys, candidates)
    ensures ReapedFrom(pats, ps, keys, SortBy(PidOf, candidates)) && OrderedBy(PidOf, SortBy(PidOf, candidates))
  {
    var r := SortBy(PidOf, candidates);
    SortOrders(PidOf, candidates);
    forall k ensures Group(pats, r, k) == Group(pats, candidates, k) {
      GroupOfSort(pats, candidates, k);
      AllButHighestIsOrdered(Group(pats, ps, k));
      assert SortBy(PidOf, []) == [];
    }
    KeysOfSorted(pats, candidates);
  }

  lemma KeysOfSorted(pats: Patterns, candidates: seq<Entry>)
    requires forall e :: e in candidates ==> KeyOf(pats, e).Some?
    ensures forall e :: e in SortBy(PidOf, candidates) ==> KeyOf(pats, e).Some?
  {
    forall e | e in SortBy(PidOf, candidates) ensures KeyOf(pats, e).Some? {
      SortKeepsElements(PidOf, candidates, e);
    }
  }

  lemma GroupedAt(pats: Patterns, ps: seq<Entry>, groups: map<Key, seq<Entry>>, order: seq<Key>, j: nat)
    requires Grouped(pats, ps, groups, order) && j < |order|
    ensures order[j] in groups && groups[order[j]] == Group(pats, ps, order[j]) && order[j] !in order[..j]
    ensures order[..j + 1] == order[..j] + [order[j]]
  {
  }

  lemma ReapNext(pats: Patterns, ps: seq<Entry>, groups: map<Key, seq<Entry>>, order: seq<Key>, j: nat, candidates: seq<Entry>)
    requires Grouped(pats, ps, groups, order) && j < |order| && ReapedFrom(pats, ps, order[..j], candidates)
    ensures order[j] in groups
    ensures var group := groups[order[j]];
            ReapedFrom(pats, ps, order[..j + 1], if |group| > 1 then candidates + AllButHighest(group) else candidates)
  {
    GroupedAt(pats, ps, groups, order, j);
    var group := groups[order[j]];
    ReapOne(pats, ps, order[..j], candidates, order[j]);
    if |group| <= 1 {
      SmallGroupSpared(group);
      assert candidates + [] == candidates;
    }
  }

  method ReapGroups(ps: seq<Entry>, pats: Patterns, groups: map<Key, seq<Entry>>, order: seq<Key>) returns (candidates: seq<Entry>)
    requires Grouped(pats, ps, groups, order)
    ensures ReapedFrom(pats, ps, order, candidates)
  {
    candidates := [];
    var j := 0;
    while j < |order|
      invariant 0 <= j <= |order| && ReapedFrom(pats, ps, order[..j], candidates)
    {
      ReapNext(pats, ps, groups, order, j, candidates);
      var group := groups[order[j]];
      if |group| > 1 {
        candidates := candidates + AllButHighest(group);
      }
      j := j + 1;
    }
    assert order[..j] == order;
  }

  /** Of every group of siblings with one parent and one entrypoint, all but the highest pid, by pid. */
  method FindDuplicateSiblings(ps: seq<Entry>, pats: Patterns) returns (r: seq<Entry>)
    ensures forall k :: Group(pats, r, k) == AllButHighest(Group(pats, ps, k))
    ensures forall e :: e in r ==> KeyOf(pats, e).Some?
    ensures OrderedBy(PidOf, r)
  {
    var groups, order := GroupByKey(ps, pats);
    var candidates := ReapGroups(ps, pats, groups, order);
    ReapedSorted(pats, ps, order, candidates);
    r := SortBy(PidOf, candidates);
    forall k ensures Group(pats, r, k) == AllButHighest(Group(pats, ps, k)) {
      if k !in order {
        SmallGroupSpared(Group(pats, ps, k));
      }
    }
  }

  // ---------- Candidates ----------

  datatype Reason = DuplicateSibling | ParentIsInit | OutsideCurrentSession

  datatype Candidate = Candidate(entry: Entry, reason: Reason)

  function PidOfCandidate(c: Candidate): Pid {
    c.entry.pid
  }

  /** A duplicate sibling: in its group, but not the one that is spared. */
  predicate Reaped(ps: seq<Entry>, pats: Patterns, e: Entry) {
    var k := KeyOf(pats, e);
    k.Some? && e in AllButHighest(Group(pats, ps, k.value))
  }

  /** What a cleanup run by currentPid may terminate. */
  ghost predicate Selected(ps: seq<Entry>, pats: Patterns, currentPid: Pid, root: Pid, c: Candidate) {
    && c.entry.pid != currentPid
    && if c.reason.DuplicateSibling? then Reaped(ps, pats, c.entry)
       else
         && c.entry in ps && KeyOf(pats, c.entry).Some?
         && !Descends(ps, root, c.entry.pid)
         && !(exists d :: Reaped(ps, pats, d) && d.pid == c.entry.pid)
         && c.reason == (if c.entry.ppid <= 1 then ParentIsInit else OutsideCurrentSession)
  }

  lemma ReapedIff(ps: seq<Entry>, pats: Patterns, r: seq<Entry>, e: Entry)
    requires forall k :: Group(pats, r, k) == AllButHighest(Group(pats, ps, k))
    requires forall e :: e in r ==> KeyOf(pats, e).Some?
    ensures e in r <==> Reaped(ps, pats, e)
  {
    if KeyOf(pats, e).Some? {
      GroupMember(pats, r, KeyOf(pats, e).value, e);
    }
  }

  /** No candidate is listed more often than its process. */
  ghost predicate ListedOnce(candidates: seq<Candidate>, ps: seq<Entry>) {
    forall c :: multiset(candidates)[c] <= multiset(ps)[c.entry]
  }

  /** The wanted processes of a list, each with the reason. */
  function Listing(ps: seq<Entry>, wanted: Entry -> bool, reason: Entry -> Reason): seq<Candidate> {
    if ps == [] then []
    else
      var e := ps[|ps| - 1];
      Listing(ps[..|ps| - 1], wanted, reason) + if wanted(e) then [Candidate(e, reason(e))] else []
  }

  lemma ListingSnoc(ps: seq<Entry>, e: Entry, wanted: Entry -> bool, reason: Entry -> Reason)
    ensures Listing(ps + [e], wanted, reason) ==
            Listing(ps, wanted, reason) + if wanted(e) then [Candidate(e, reason(e))] else []
  {
    assert (ps + [e])[..|ps|] == ps;
  }

  lemma {:induction false} ListingCount(ps: seq<Entry>, wanted: Entry -> bool, reason: Entry -> Reason, c: Candidate)
    ensures multiset(Listing(ps, wanted, reason))[c] ==
            if wanted(c.entry) && c.reason == reason(c.entry) then multiset(ps)[c.entry] else 0
    decreases |ps|
  {
    if ps != [] {
      var n := |ps| - 1;
      assert ps == ps[..n] + [ps[n]];
      ListingCount(ps[..n], wanted, reason, c);
    }
  }

  lemma Listed(ps: seq<Entry>, wanted: Entry -> bool, reason: Entry -> Reason)
    ensures ListedOnce(Listing(ps, wanted, reason), ps)
    ensures forall c :: c in Listing(ps, wanted, reason) <==> c.entry in ps && wanted(c.entry) && c.reason == reason(c.entry)
  {
    var all := Listing(ps, wanted, reason);
    forall c: Candidate ensures multiset(all)[c] <= multiset(ps)[c.entry]
             ensures c in all <==> c.entry in ps && wanted(c.entry) && c.reason == reason(c.entry)
    {
      ListingCount(ps, wanted, reason, c);
      assert c in all <==> c in multiset(all);
      assert c.entry in ps <==> c.entry in multiset(ps);
    }
  }

  function NotPid(currentPid: Pid): Entry -> bool {
    (e: Entry) => e.pid != currentPid
  }

  function ForDuplicate(): Entry -> Reason {
    (e: Entry) => DuplicateSibling
  }

  lemma {:induction false} CountInGroup(pats: Patterns, ps: seq<Entry>, k: Key, e: Entry)
    requires KeyOf(pats, e) == Some(k)
    ensures multiset(Group(pats, ps, k))[e] == multiset(ps)[e]
    decreases |ps|
  {
    if ps != [] {
      var n := |ps| - 1;
      assert ps == ps[..n] + [ps[n]];
      CountInGroup(pats, ps[..n], k, e);
    }
  }

  /** The duplicates hold no process more often than the snapshot. */
  lemma DuplicatesCount(pats: Patterns, ps: seq<Entry>, r: seq<Entry>, e: Entry)
    requires forall k :: Group(pats, r, k) == AllButHighest(Group(pats, ps, k))
    requires forall e :: e in r ==> KeyOf(pats, e).Some?
    ensures multiset(r)[e] <= multiset(ps)[e]
  {
    if e in r {
      var k := KeyOf(pats, e).value;
      CountInGroup(pats, r, k, e);
      CountInGroup(pats, ps, k, e);
      GroupMember(pats, r, k, e);
      ReapedIff(ps, pats, r, e);
      SortKeepsElements(PidOf, Group(pats, ps, k), e);
      var spared := SparesTheHighest(Group(pats, ps, k));
    } else {
      assert e !in multiset(r);
    }
  }

  /** The duplicates to terminate, and their pids. */
  method DuplicateCandidates(ps: seq<Entry>, pats: Patterns, currentPid: Pid)
    returns (candidates: seq<Candidate>, duplicatePids: set<Pid>)
    ensures forall c :: c in candidates <==> c.reason.DuplicateSibling? && Reaped(ps, pats, c.entry) && c.entry.pid != currentPid
    ensures forall p :: p in duplicatePids <==> p != currentPid && exists d :: Reaped(ps, pats, d) && d.pid == p
    ensures ListedOnce(candidates, ps)
  {
    var duplicates := FindDuplicateSiblings(ps, pats);
    forall e ensures e in duplicates <==> Reaped(ps, pats, e) {
      ReapedIff(ps, pats, duplicates, e);
    }
    forall e ensures multiset(duplicates)[e] <= multiset(ps)[e] {
      DuplicatesCount(pats, ps, duplicates, e);
    }
    candidates, duplicatePids := ListDuplicates(duplicates, currentPid);
    Listed(duplicates, NotPid(currentPid), ForDuplicate());
  }

  method ListDuplicates(duplicates: seq<Entry>, currentPid: Pid) returns (candidates: seq<Candidate>, duplicatePids: set<Pid>)
    ensures candidates == Listing(duplicates, NotPid(currentPid), ForDuplicate())
    ensures forall p :: p in duplicatePids <==> p != currentPid && exists d :: d in duplicates && d.pid == p
  {
    candidates, duplicatePids := [], {};
    for i := 0 to |duplicates|
      invariant candidates == Listing(duplicates[..i], NotPid(currentPid), ForDuplicate())
      invariant forall p :: p in duplicatePids <==> p != currentPid && exists d :: d in duplicates[..i] && d.pid == p
    {
      assert duplicates[..i + 1] == duplicates[..i] + [duplicates[i]];
      ListingSnoc(duplicates[..i], duplicates[i], NotPid(currentPid), ForDuplicate());
      if duplicates[i].pid != currentPid {
        candidates := candidates + [Candidate(duplicates[i], DuplicateSibling)];
        duplicatePids := duplicatePids + {duplicates[i].pid};
      }
    }
    assert duplicates[..|duplicates|] == duplicates;
  }

  /** A process of this program that is neither spared nor listed already. */
  predicate IsOrphan(pats: Patterns, currentPid: Pid, listed: set<Pid>, protected: set<Pid>, e: Entry) {
    e.pid != currentPid && KeyOf(pats, e).Some? && e.pid !in listed && e.pid !in protected
  }

  function OrphanReason(e: Entry): Reason {
    if e.ppid <= 1 then ParentIsInit else OutsideCurrentSession
  }

  function Orphan(pats: Patterns, currentPid: Pid, listed: set<Pid>, protected: set<Pid>): Entry -> bool {
    (e: Entry) => IsOrphan(pats, currentPid, listed, protected, e)
  }

  method OrphanCandidates(ps: seq<Entry>, pats: Patterns, currentPid: Pid, listed: set<Pid>, protected: set<Pid>)
    returns (orphans: seq<Candidate>)
    ensures forall c :: c in orphans <==>
              c.entry in ps && IsOrphan(pats, currentPid, listed, protected, c.entry) && c.reason == OrphanReason(c.entry)
    ensures ListedOnce(orphans, ps)
  {
    ghost var wanted := Orphan(pats, currentPid, listed, protected);
    orphans := [];
    for i := 0 to |ps|
      invariant orphans == Listing(ps[..i], wanted, OrphanReason)
    {
      var e := ps[i];
      assert ps[..i + 1] == ps[..i] + [e];
      ListingSnoc(ps[..i], e, wanted, OrphanReason);
      if IsOrphan(pats, currentPid, listed, protected, e) {
        orphans := orphans + [Candidate(e, OrphanReason(e))];
      }
    }
    assert ps[..|ps|] == ps;
    Listed(ps, wanted, OrphanReason);
  }

  lemma ListedApart(duplicates: seq<Candidate>, orphans: seq<Candidate>, ps: seq<Entry>)
    requires ListedOnce(duplicates, ps) && ListedOnce(orphans, ps)
    requires (forall c :: c in duplicates ==> c.reason.DuplicateSibling?) && (forall c :: c in orphans ==> !c.reason.DuplicateSibling?)
    ensures ListedOnce(duplicates + orphans, ps)
  {
    forall c ensures multiset(duplicates + orphans)[c] <= multiset(ps)[c.entry] {
      if c.reason.DuplicateSibling? {
        assert c !in multiset(orphans);
      } else {
        assert c !in multiset(duplicates);
      }
    }
  }

  lemma SortedTogether(duplicates: seq<Candidate>, orphans: seq<Candidate>, ps: seq<Entry>)
    requires ListedOnce(duplicates, ps) && ListedOnce(orphans, ps)
    requires (forall c :: c in duplicates ==> c.reason.DuplicateSibling?) && (forall c :: c in orphans ==> !c.reason.DuplicateSibling?)
    ensures var r := SortBy(PidOfCandidate, duplicates + orphans);
            OrderedBy(PidOfCandidate, r) && ListedOnce(r, ps) && forall c :: c in r <==> c in duplicates || c in orphans
  {
    var all := duplicates + orphans;
    SortOrders(PidOfCandidate, all);
    SortPermutes(PidOfCandidate, all);
    ListedApart(duplicates, orphans, ps);
    forall c ensures c in SortBy(PidOfCandidate, all) <==> c in duplicates || c in orphans {
      SortKeepsElements(PidOfCandidate, all, c);
    }
  }

  method FindCleanupCandidates(ps: seq<Entry>, pats: Patterns, currentPid: Pid) returns (r: seq<Candidate>)
    requires Acyclic(ps, pats, currentPid)
    ensures forall c :: c in r <==> Selected(ps, pats, currentPid, ProtectedRoot(ps, pats, currentPid), c)
    ensures OrderedBy(PidOfCandidate, r) && ListedOnce(r, ps)
  {
    var protected := BuildProtectedPidSet(ps, pats, currentPid);
    var candidates, duplicatePids := DuplicateCandidates(ps, pats, currentPid);
    var orphans := OrphanCandidates(ps, pats, currentPid, duplicatePids, protected);
    SortedTogether(candidates, orphans, ps);
    r := SortBy(PidOfCandidate, candidates + orphans);
  }

  ghost predicate Detached(ps: seq<Entry>, pats: Patterns, e: Entry) {
    !HasAncestor(EntryByPid(ps), e.pid, pats.isCodex) && !HasAncestor(EntryByPid(ps), e.pid, pats.isOmxLaunch)
  }

  /** Before a launch: of those, the ones whose parent is gone or that no live Codex or OMX launch is above. */
  method FindLaunchSafeCandidates(ps: seq<Entry>, pats: Patterns, currentPid: Pid) returns (r: seq<Candidate>)
    requires Acyclic(ps, pats, currentPid)
    ensures forall c :: c in r <==> Selected(ps, pats, currentPid, ProtectedRoot(ps, pats, currentPid), c)
                                    && (c.entry.ppid <= 1 || Detached(ps, pats, c.entry))
    ensures ListedOnce(r, ps)
  {
    var all := FindCleanupCandidates(ps, pats, currentPid);
    var processByPid := EntryByPid(ps);
    r := [];
    for i := 0 to |all|
      invariant forall c :: c in r <==> c in all[..i] && (c.entry.ppid <= 1 || Detached(ps, pats, c.entry))
      invariant multiset(r) <= multiset(all[..i])
    {
      assert all[..i + 1] == all[..i] + [all[i]];
      var safe := all[i].entry.ppid <= 1;
      if !safe {
        var codex := HasAncestorMatching(processByPid, all[i].entry.pid, pats.isCodex);
        var omx := HasAncestorMatching(processByPid, all[i].entry.pid, pats.isOmxLaunch);
        safe := !codex && !omx;
      }
      if safe {
        r := r + [all[i]];
      }
    }
    assert all[..|all|] == all;
    forall c ensures multiset(r)[c] <= multiset(ps)[c.entry] {
      assert multiset(r)[c] <= multiset(all)[c];
    }
  }

  /** Orphans are never part of the protected session; a duplicate sibling may be. */
  lemma OrphansAreOutside(ps: seq<Entry>, pats: Patterns, currentPid: Pid, root: Pid, c: Candidate)
    requires Selected(ps, pats, currentPid, root, c) && Descends(ps, root, c.entry.pid)
    ensures c.reason.DuplicateSibling? && c.entry.pid != currentPid
    ensures exists spared: Entry :: spared in ps && KeyOf(pats, spared) == KeyOf(pats, c.entry) && c.entry.pid <= spared.pid
  {
    var k := KeyOf(pats, c.entry).value;
    var g := Group(pats, ps, k);
    SortKeepsElements(PidOf, g, c.entry);
    var spared := SparesTheHighest(g);
    GroupMember(pats, ps, k, spared);
  }

  // ---------- What is selected, in terms of the snapshot ----------

  /** Every pid occurs once. */
  ghost predicate UniquePids(ps: seq<Entry>) {
    forall i, j :: 0 <= i < j < |ps| ==> ps[i].pid != ps[j].pid
  }

  /** A server process of this program, with a younger one of the same kind under the same parent. */
  ghost predicate HasYoungerSibling(ps: seq<Entry>, pats: Patterns, e: Entry) {
    exists d :: d in ps && Siblings(pats, e, d) && d.pid > e.pid
  }

  predicate Siblings(pats: Patterns, e: Entry, d: Entry) {
    d.ppid == e.ppid && pats.entrypoint(e.command).Some? && pats.entrypoint(d.command) == pats.entrypoint(e.command)
  }

  lemma SiblingsShareKey(pats: Patterns, e: Entry, d: Entry)
    ensures Siblings(pats, e, d) <==> KeyOf(pats, e).Some? && KeyOf(pats, d) == KeyOf(pats, e)
  {
  }

  lemma UniqueTail(ps: seq<Entry>, e: Entry)
    requires UniquePids(ps)
    ensures multiset(ps)[e] <= 1
    decreases |ps|
  {
    if ps != [] {
      var n := |ps| - 1;
      assert ps == ps[..n] + [ps[n]];
      UniqueTail(ps[..n], e);
      assert forall i :: 0 <= i < n ==> ps[..n][i].pid != ps[n].pid;
      assert ps[n] !in ps[..n];
    }
  }

  lemma {:induction false} GroupCount(pats: Patterns, ps: seq<Entry>, k: Key, e: Entry)
    ensures multiset(Group(pats, ps, k))[e] <= multiset(ps)[e]
    decreases |ps|
  {
    if ps != [] {
      var n := |ps| - 1;
      assert ps == ps[..n] + [ps[n]];
      GroupCount(pats, ps[..n], k, e);
    }
  }

  lemma SamePidSameEntry(ps: seq<Entry>, a: Entry, b: Entry)
    requires UniquePids(ps) && a in ps && b in ps && a.pid == b.pid
    ensures a == b
  {
    var i :| 0 <= i < |ps| && ps[i] == a;
    var j :| 0 <= j < |ps| && ps[j] == b;
  }

  /** A member that is not spared has a higher one. */
  lemma ReapedHasHigher(ps: seq<Entry>, pats: Patterns, k: Key, e: Entry) returns (d: Entry)
    requires UniquePids(ps) && e in AllButHighest(Group(pats, ps, k))
    ensures d in ps && KeyOf(pats, d) == KeyOf(pats, e) == Some(k) && d.pid > e.pid && e in ps
  {
    var g := Group(pats, ps, k);
    d := SparesTheHighest(g);
    assert e in multiset(AllButHighest(g)) && e in multiset(g);
    GroupMember(pats, ps, k, e);
    GroupMember(pats, ps, k, d);
    if d.pid == e.pid {
      SamePidSameEntry(ps, d, e);
      assert multiset(g)[e] >= 2;
      GroupCount(pats, ps, k, e);
      UniqueTail(ps, e);
    }
  }

  lemma HigherIsSpared(ps: seq<Entry>, pats: Patterns, k: Key, e: Entry, d: Entry)
    requires e in ps && d in ps && KeyOf(pats, e) == KeyOf(pats, d) == Some(k) && d.pid > e.pid
    ensures e in AllButHighest(Group(pats, ps, k))
  {
    var g := Group(pats, ps, k);
    GroupMember(pats, ps, k, e);
    GroupMember(pats, ps, k, d);
    var spared := SparesTheHighest(g);
    assert e in multiset(g) && e != spared;
    assert multiset(AllButHighest(g))[e] == multiset(g)[e];
  }

  /** With every pid once, the duplicates are exactly the server processes with a younger sibling: one under the same
      parent, from the same entrypoint, with a higher pid. */
  lemma DuplicateIff(ps: seq<Entry>, pats: Patterns, e: Entry)
    requires UniquePids(ps)
    ensures Reaped(ps, pats, e) <==> e in ps && HasYoungerSibling(ps, pats, e)
  {
    if Reaped(ps, pats, e) {
      var d := ReapedHasHigher(ps, pats, KeyOf(pats, e).value, e);
      SiblingsShareKey(pats, e, d);
    } else if e in ps && HasYoungerSibling(ps, pats, e) {
      var d :| d in ps && Siblings(pats, e, d) && d.pid > e.pid;
      SiblingsShareKey(pats, e, d);
      HigherIsSpared(ps, pats, KeyOf(pats, e).value, e, d);
    }
  }

  /** Only server processes of this program are ever selected, never the current process, and inside the protected
      session only older siblings; a candidate that is no duplicate says whether its parent is gone. */
  lemma SelectedIsServer(ps: seq<Entry>, pats: Patterns, currentPid: Pid, root: Pid, c: Candidate)
    requires Selected(ps, pats, currentPid, root, c)
    ensures c.entry in ps && pats.entrypoint(c.entry.command).Some? && c.entry.pid != currentPid
    ensures Descends(ps, root, c.entry.pid) ==> c.reason == DuplicateSibling
    ensures c.reason == ParentIsInit ==> c.entry.ppid <= 1
    ensures c.reason == OutsideCurrentSession ==> c.entry.ppid > 1
  {
    if c.reason.DuplicateSibling? {
      var k := KeyOf(pats, c.entry).value;
      SortKeepsElements(PidOf, Group(pats, ps, k), c.entry);
      GroupMember(pats, ps, k, c.entry);
    }
  }

  /** With every pid once: a server process other than the current one is selected, for one reason only, iff it has a
      younger sibling or is outside the protected session. */
  lemma SelectedIff(ps: seq<Entry>, pats: Patterns, currentPid: Pid, root: Pid, e: Entry)
    requires UniquePids(ps) && e in ps && pats.entrypoint(e.command).Some? && e.pid != currentPid
    ensures Selected(ps, pats, currentPid, root, Candidate(e, DuplicateSibling)) <==> HasYoungerSibling(ps, pats, e)
    ensures Selected(ps, pats, currentPid, root, Candidate(e, ParentIsInit)) <==>
              e.ppid <= 1 && !HasYoungerSibling(ps, pats, e) && !Descends(ps, root, e.pid)
    ensures Selected(ps, pats, currentPid, root, Candidate(e, OutsideCurrentSession)) <==>
              e.ppid > 1 && !HasYoungerSibling(ps, pats, e) && !Descends(ps, root, e.pid)
  {
    DuplicateIff(ps, pats, e);
    forall d | Reaped(ps, pats, d) && d.pid == e.pid ensures d == e {
      DuplicateIff(ps, pats, d);
      SamePidSameEntry(ps, d, e);
    }
  }

  /** Recorded parents, from a process upwards. */
  ghost predicate IsChain(m: map<Pid, Entry>, chain: seq<Pid>) {
    && |chain| >= 2
    && (forall i :: 0 <= i < |chain| ==> chain[i] in m)
    && (forall i, j :: 0 <= i && j == i + 1 && j < |chain| ==> m[chain[i]].ppid == chain[j] > 0)
  }

  ghost predicate ChainTo(m: map<Pid, Entry>, pid: Pid, chain: seq<Pid>, test: string -> bool) {
    IsChain(m, chain) && chain[0] == pid && test(m[chain[|chain| - 1]].command)
  }

  /** Some chain leads up from pid to a process whose command matches. */
  ghost predicate LeadsTo(m: map<Pid, Entry>, pid: Pid, test: string -> bool) {
    exists chain :: ChainTo(m, pid, chain, test)
  }

  lemma ChainGrows(m: map<Pid, Entry>, chain: seq<Pid>, above: Pid)
    requires IsChain(m, chain) && above in m && m[chain[|chain| - 1]].ppid == above > 0
    ensures IsChain(m, chain + [above])
  {
    var longer := chain + [above];
    forall i, j | 0 <= i && j == i + 1 && j < |longer| ensures m[longer[i]].ppid == longer[j] > 0 {
      assert j < |chain| ==> m[chain[i]].ppid == chain[j] > 0;
    }
  }

  lemma {:induction false} AncestorChain(m: map<Pid, Entry>, pid: Pid, k: nat) returns (chain: seq<Pid>)
    requires k > 0 && Ancestor(m, pid, k).Some?
    ensures IsChain(m, chain) && chain[0] == pid && |chain| == k + 1 && chain[k] == Ancestor(m, pid, k).value
    decreases k
  {
    if k == 1 {
      assert Ancestor(m, pid, 0) == Some(pid);
      chain := [pid, Ancestor(m, pid, 1).value];
    } else {
      var below := AncestorChain(m, pid, k - 1);
      ChainGrows(m, below, Ancestor(m, pid, k).value);
      chain := below + [Ancestor(m, pid, k).value];
    }
  }

  lemma {:induction false} ChainAncestor(m: map<Pid, Entry>, chain: seq<Pid>, k: nat)
    requires IsChain(m, chain) && k < |chain|
    ensures Ancestor(m, chain[0], k) == Some(chain[k])
    decreases k
  {
    if k > 0 {
      ChainAncestor(m, chain, k - 1);
      var before := k - 1;
      assert k == before + 1;
    }
  }

  lemma HasAncestorIff(m: map<Pid, Entry>, pid: Pid, test: string -> bool)
    ensures HasAncestor(m, pid, test) <==> LeadsTo(m, pid, test)
  {
    if HasAncestor(m, pid, test) {
      var k: nat :| k > 0 && Ancestor(m, pid, k).Some? && Ancestor(m, pid, k).value in m && test(m[Ancestor(m, pid, k).value].command);
      var chain := AncestorChain(m, pid, k);
      assert ChainTo(m, pid, chain, test);
    }
    if LeadsTo(m, pid, test) {
      var chain :| ChainTo(m, pid, chain, test);
      ChainAncestor(m, chain, |chain| - 1);
    }
  }

  /** A process is spared before a launch, unless its parent is gone, iff some chain of recorded parents leads from it
      up to a Codex or OMX process. */
  lemma AttachedIff(ps: seq<Entry>, pats: Patterns, e: Entry)
    ensures !Detached(ps, pats, e) <==>
              LeadsTo(EntryByPid(ps), e.pid, pats.isCodex) || LeadsTo(EntryByPid(ps), e.pid, pats.isOmxLaunch)
  {
    HasAncestorIff(EntryByPid(ps), e.pid, pats.isCodex);
    HasAncestorIff(EntryByPid(ps), e.pid, pats.isOmxLaunch);
  }

  /** What the maps record of a pid is its last entry in the snapshot. */
  lemma {:induction false} LastEntryWins(ps: seq<Entry>, i: nat)
    requires i < |ps| && forall j :: i < j < |ps| ==> ps[j].pid != ps[i].pid
    ensures ps[i].pid in EntryByPid(ps) && EntryByPid(ps)[ps[i].pid] == ps[i]
    ensures ps[i].pid in ParentByPid(ps) && ParentByPid(ps)[ps[i].pid] == ps[i].ppid
    decreases |ps|
  {
    var n := |ps| - 1;
    if i < n {
      LastEntryWins(ps[..n], i);
    }
  }

  lemma {:induction false} RecordedIff(ps: seq<Entry>, pid: Pid)
    ensures pid in EntryByPid(ps) <==> pid in Pids(ps)
    ensures pid in ParentByPid(ps) <==> pid in Pids(ps)
    decreases |ps|
  {
    if ps != [] {
      var n := |ps| - 1;
      RecordedIff(ps[..n], pid);
      assert Pids(ps) == Pids(ps[..n]) + {ps[n].pid} by {
        assert forall p :: p in Pids(ps) <==> exists i :: 0 <= i < |ps| && ps[i].pid == p;
        assert forall i :: 0 <= i < n ==> ps[..n][i] == ps[i];
      }
    }
  }

  /** The search moves to the recorded parent of a process above init that is no session, unless there is none or it
      is 0 or the process itself. */
  lemma {:induction false} ClimbIff(ps: seq<Entry>, pats: Patterns, pid: Pid, k: nat)
    ensures Climb(ps, pats, pid, 0) == Some(pid)
    ensures var here, above := Climb(ps, pats, pid, k), Climb(ps, pats, pid, k + 1);
            && (above.Some? <==>
                  && here.Some? && here.value > 1 && !IsSession(ps, pats, here.value) && here.value in ParentByPid(ps)
                  && ParentByPid(ps)[here.value] != 0 && ParentByPid(ps)[here.value] != here.value)
            && (above.Some? ==> above.value == ParentByPid(ps)[here.value])
    decreases k
  {
    if k > 0 && WalkStep(ps, pats, pid).Next? {
      ClimbIff(ps, pats, WalkStep(ps, pats, pid).pid, k - 1);
    } else if k == 0 && WalkStep(ps, pats, pid).Next? {
      assert Climb(ps, pats, WalkStep(ps, pats, pid).pid, 0) == Some(WalkStep(ps, pats, pid).pid);
    }
  }
}
