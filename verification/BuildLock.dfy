/** The lazy first build: callers check for the database file, fetch the lock of the repository
    from a shared map, check again under the lock, and build. */
module BuildLock {
  import opened ChunkIds

  /** How paths resolve: the canonical form of a root, if it can be had, and the database file a
      root leads to. */
  datatype Paths = Paths(canonical: string -> Option<string>, file: string -> string) {
    function Key(root: string): string {
      match canonical(root)
      case Some(c) => c
      case None => root
    }

    /** Roots that lead to one file have one key. */
    ghost predicate Faithful() {
      forall a, b :: file(a) == file(b) ==> Key(a) == Key(b)
    }
  }

  datatype Phase =
    | Checking
    | Fetching
    | Waiting(lock: nat)
    | Rechecking(lock: nat)
    | Building(lock: nat, begun: bool)
    | Returned(ok: bool)

  datatype Thread = Thread(root: string, phase: Phase)

  /** `opens` counts, per file, the lazy builds that went as far as opening it. */
  datatype State = State(
    threads: map<nat, Thread>,
    locks: map<string, nat>,
    held: map<nat, nat>,
    poisoned: set<nat>,
    files: set<string>,
    opens: multiset<string>)

  const INIT: State := State(map[], map[], map[], {}, {}, multiset{})

  /** `Fetch` carries the lock made if the key has none. `Elsewhere` is a file created by a tool that
      takes no build lock. */
  datatype Step =
    | Call(tid: nat, root: string)
    | Check(tid: nat)
    | Fetch(tid: nat, spare: nat)
    | Acquire(tid: nat)
    | Recheck(tid: nat)
    | Open(tid: nat)
    | Finish(tid: nat, ok: bool)
    | Panic(tid: nat)
    | Elsewhere(file: string)

  predicate At(s: State, tid: nat) {
    tid in s.threads
  }

  predicate Holding(phase: Phase) {
    phase.Rechecking? || phase.Building?
  }

  predicate Enabled(s: State, step: Step) {
    match step
    case Call(tid, _) => !At(s, tid)
    case Check(tid) => At(s, tid) && s.threads[tid].phase.Checking?
    case Fetch(tid, spare) => At(s, tid) && s.threads[tid].phase.Fetching? && spare !in s.locks.Values
    case Acquire(tid) => At(s, tid) && s.threads[tid].phase.Waiting? && s.threads[tid].phase.lock !in s.held
    case Recheck(tid) => At(s, tid) && s.threads[tid].phase.Rechecking?
    case Open(tid) => At(s, tid) && s.threads[tid].phase.Building? && !s.threads[tid].phase.begun
    case Finish(tid, ok) =>
      At(s, tid) && s.threads[tid].phase.Building? && (ok ==> s.threads[tid].phase.begun)
    case Panic(tid) => At(s, tid) && Holding(s.threads[tid].phase)
    case Elsewhere(_) => true
  }

  function Move(s: State, tid: nat, phase: Phase): State
    requires At(s, tid)
  {
    s.(threads := s.threads[tid := s.threads[tid].(phase := phase)])
  }

  function Next(p: Paths, s: State, step: Step): State
    requires Enabled(s, step)
  {
    match step
    case Call(tid, root) => s.(threads := s.threads[tid := Thread(root, Checking)])
    case Check(tid) =>
      Move(s, tid, if p.file(s.threads[tid].root) in s.files then Returned(true) else Fetching)
    case Fetch(tid, spare) =>
      var key := p.Key(s.threads[tid].root);
      if key in s.locks then Move(s, tid, Waiting(s.locks[key]))
      else Move(s, tid, Waiting(spare)).(locks := s.locks[key := spare])
    case Acquire(tid) =>
      var lock := s.threads[tid].phase.lock;
      if lock in s.poisoned then s.(threads := s.threads - {tid})
      else Move(s, tid, Rechecking(lock)).(held := s.held[lock := tid])
    case Recheck(tid) =>
      var lock := s.threads[tid].phase.lock;
      if p.file(s.threads[tid].root) in s.files then Move(s, tid, Returned(true)).(held := s.held - {lock})
      else Move(s, tid, Building(lock, false))
    case Open(tid) =>
      var file := p.file(s.threads[tid].root);
      Move(s, tid, Building(s.threads[tid].phase.lock, true))
        .(files := s.files + {file}, opens := s.opens + multiset{file})
    case Finish(tid, ok) =>
      Move(s, tid, Returned(ok)).(held := s.held - {s.threads[tid].phase.lock})
    case Panic(tid) =>
      var lock := s.threads[tid].phase.lock;
      s.(threads := s.threads - {tid}, held := s.held - {lock}, poisoned := s.poisoned + {lock})
    case Elsewhere(file) => s.(files := s.files + {file})
  }

  function Run(p: Paths, s: State, steps: seq<Step>): Option<State> {
    if steps == [] then Some(s)
    else
      match Run(p, s, steps[..|steps| - 1])
      case None => None
      case Some(mid) =>
        if Enabled(mid, steps[|steps| - 1]) then Some(Next(p, mid, steps[|steps| - 1])) else None
  }

  // ---------------------------------------------------------------------------------------
  // The invariant
  // ---------------------------------------------------------------------------------------

  predicate HasLock(phase: Phase) {
    phase.Waiting? || Holding(phase)
  }

  ghost predicate LocksDiffer(s: State) {
    forall a, b :: a in s.locks && b in s.locks && s.locks[a] == s.locks[b] ==> a == b
  }

  /** A thread's lock is the one of its root's key, and whoever is past acquiring it holds it. */
  ghost predicate ThreadOk(p: Paths, s: State, tid: nat)
    requires At(s, tid)
  {
    var t := s.threads[tid];
    && (HasLock(t.phase) ==> p.Key(t.root) in s.locks && s.locks[p.Key(t.root)] == t.phase.lock)
    && (Holding(t.phase) ==> t.phase.lock in s.held && s.held[t.phase.lock] == tid)
  }

  ghost predicate Inv(p: Paths, s: State) {
    && LocksDiffer(s)
    && forall tid :: tid in s.threads ==> ThreadOk(p, s, tid)
  }

  /** Per file at most one lazy build ever opened it, and none that is about to has a predecessor. */
  ghost predicate OpensOk(p: Paths, s: State) {
    && (forall f :: s.opens[f] <= 1 && (s.opens[f] > 0 ==> f in s.files))
    && (forall tid :: tid in s.threads && s.threads[tid].phase.Building? && !s.threads[tid].phase.begun ==>
          s.opens[p.file(s.threads[tid].root)] == 0)
  }

  lemma StepKeepsInv(p: Paths, s: State, step: Step)
    requires Inv(p, s) && Enabled(s, step)
    ensures Inv(p, Next(p, s, step))
  {
    StepKeepsLocks(p, s, step);
    hide Next, Enabled, LocksDiffer, ThreadOk;
    var s' := Next(p, s, step);
    forall u | u in s'.threads
      ensures ThreadOk(p, s', u)
    {
      StepKeepsThread(p, s, step, u);
    }
  }

  lemma StepKeepsLocks(p: Paths, s: State, step: Step)
    requires Inv(p, s) && Enabled(s, step)
    ensures LocksDiffer(Next(p, s, step))
  {
    hide ThreadOk;
  }

  lemma StepKeepsThread(p: Paths, s: State, step: Step, u: nat)
    requires Inv(p, s) && Enabled(s, step) && u in Next(p, s, step).threads
    ensures ThreadOk(p, Next(p, s, step), u)
  {
    hide LocksDiffer;
    if u in s.threads {
      assert ThreadOk(p, s, u);
    }
    if step.Acquire? || step.Recheck? || step.Finish? || step.Panic? {
      assert ThreadOk(p, s, step.tid);
    }
  }

  /** Threads past the second check with one key are one thread. */
  lemma HoldersAreOne(p: Paths, s: State, t: nat, u: nat)
    requires Inv(p, s) && At(s, t) && At(s, u)
    requires Holding(s.threads[t].phase) && Holding(s.threads[u].phase)
    requires p.Key(s.threads[t].root) == p.Key(s.threads[u].root)
    ensures t == u
  {
    assert ThreadOk(p, s, t) && ThreadOk(p, s, u);
  }

  lemma StepKeepsOpens(p: Paths, s: State, step: Step)
    requires p.Faithful() && Inv(p, s) && OpensOk(p, s) && Enabled(s, step)
    ensures OpensOk(p, Next(p, s, step))
  {
    hide Inv;
    if step.Open? {
      forall u | u in s.threads && u != step.tid && s.threads[u].phase.Building?
        ensures p.file(s.threads[u].root) != p.file(s.threads[step.tid].root)
      {
        if p.file(s.threads[u].root) == p.file(s.threads[step.tid].root) {
          HoldersAreOne(p, s, u, step.tid);
        }
      }
    }
  }

  lemma {:induction false} RunKeeps(p: Paths, steps: seq<Step>)
    requires Run(p, INIT, steps).Some?
    ensures Inv(p, Run(p, INIT, steps).value)
    ensures p.Faithful() ==> OpensOk(p, Run(p, INIT, steps).value)
  {
    hide Inv, OpensOk, Enabled, Next, Paths.Faithful;
    if steps == [] {
      InitOk(p);
    } else {
      var n := |steps| - 1;
      RunKeeps(p, steps[..n]);
      var mid := Run(p, INIT, steps[..n]).value;
      StepKeepsInv(p, mid, steps[n]);
      if p.Faithful() {
        StepKeepsOpens(p, mid, steps[n]);
      }
    }
  }

  lemma InitOk(p: Paths)
    ensures Inv(p, INIT) && OpensOk(p, INIT)
  {
  }

  /** Two lazy builds of one file are under way. */
  ghost predicate Together(p: Paths, s: State) {
    exists t, u ::
      && t in s.threads && u in s.threads && t != u
      && s.threads[t].phase.Building? && s.threads[u].phase.Building?
      && p.file(s.threads[t].root) == p.file(s.threads[u].root)
  }

  ghost predicate CanBeTogether(p: Paths) {
    exists steps :: Run(p, INIT, steps).Some? && Together(p, Run(p, INIT, steps).value)
  }

  /** Two lazy builds of one file never run together, whatever the schedule, if and only if roots
      that lead to one file always resolve to one key. */
  lemma BuildsExclusiveIffFaithful(p: Paths)
    ensures CanBeTogether(p) <==> !p.Faithful()
  {
    hide Inv, Together, Run;
    if CanBeTogether(p) {
      var steps :| Run(p, INIT, steps).Some? && Together(p, Run(p, INIT, steps).value);
      RunKeeps(p, steps);
      TogetherIsUnfaithful(p, Run(p, INIT, steps).value);
    }
    if !p.Faithful() {
      var a, b :| p.file(a) == p.file(b) && p.Key(a) != p.Key(b);
      var steps := Racing(p, a, b);
    }
  }

  lemma TogetherIsUnfaithful(p: Paths, s: State)
    requires Inv(p, s) && Together(p, s)
    ensures !p.Faithful()
  {
    var t, u :|
      && t in s.threads && u in s.threads && t != u
      && s.threads[t].phase.Building? && s.threads[u].phase.Building?
      && p.file(s.threads[t].root) == p.file(s.threads[u].root);
    if p.Faithful() {
      HoldersAreOne(p, s, t, u);
    }
  }

  /** A build that opened the file is the only one that ever does. */
  lemma OneBuildOpens(p: Paths, steps: seq<Step>, file: string)
    requires p.Faithful() && Run(p, INIT, steps).Some?
    ensures Run(p, INIT, steps).value.opens[file] <= 1
  {
    RunKeeps(p, steps);
  }

  lemma RunMore(p: Paths, steps: seq<Step>, step: Step)
    requires Run(p, INIT, steps).Some? && Enabled(Run(p, INIT, steps).value, step)
    ensures Run(p, INIT, steps + [step]) == Some(Next(p, Run(p, INIT, steps).value, step))
  {
    assert (steps + [step])[..|steps|] == steps;
  }

  /** From a first call to the start of the build. */
  lemma Reaches(p: Paths, steps: seq<Step>, tid: nat, root: string, spare: nat) returns (more: seq<Step>)
    requires Run(p, INIT, steps).Some?
    requires var s := Run(p, INIT, steps).value;
             && tid !in s.threads && p.file(root) !in s.files
             && p.Key(root) !in s.locks && spare !in s.locks.Values && spare !in s.held && spare !in s.poisoned
    ensures Run(p, INIT, more).Some?
    ensures var s := Run(p, INIT, steps).value;
            Run(p, INIT, more).value ==
            s.(threads := s.threads[tid := Thread(root, Building(spare, false))],
               locks := s.locks[p.Key(root) := spare],
               held := s.held[spare := tid])
  {
    hide Run;
    var s := Run(p, INIT, steps).value;
    RunMore(p, steps, Call(tid, root));
    var s1 := Next(p, s, Call(tid, root));
    var r1 := steps + [Call(tid, root)];
    RunMore(p, r1, Check(tid));
    var s2 := Next(p, s1, Check(tid));
    var r2 := r1 + [Check(tid)];
    RunMore(p, r2, Fetch(tid, spare));
    var s3 := Next(p, s2, Fetch(tid, spare));
    var r3 := r2 + [Fetch(tid, spare)];
    RunMore(p, r3, Acquire(tid));
    var s4 := Next(p, s3, Acquire(tid));
    var r4 := r3 + [Acquire(tid)];
    RunMore(p, r4, Recheck(tid));
    more := r4 + [Recheck(tid)];
    assert Next(p, s4, Recheck(tid)).threads == s.threads[tid := Thread(root, Building(spare, false))];
  }

  /** Two spellings of one repository with different keys: both callers build. */
  lemma Racing(p: Paths, a: string, b: string) returns (steps: seq<Step>)
    requires p.file(a) == p.file(b) && p.Key(a) != p.Key(b)
    ensures Run(p, INIT, steps).Some? && Together(p, Run(p, INIT, steps).value)
  {
    assert Run(p, INIT, []) == Some(INIT);
    hide Run;
    var first := Reaches(p, [], 0, a, 0);
    steps := Reaches(p, first, 1, b, 1);
    var s := Run(p, INIT, steps).value;
    assert s.threads[0] == Thread(a, Building(0, false)) && s.threads[1] == Thread(b, Building(1, false));
  }

  /** The file's existence is all a caller waits for: for every root there is a run in which one call
      returns while another is still building. */
  lemma CallerPassesEarly(p: Paths, root: string) returns (steps: seq<Step>)
    ensures Run(p, INIT, steps).Some?
    ensures var s := Run(p, INIT, steps).value;
            && s.threads == map[0 := Thread(root, Building(0, true)), 1 := Thread(root, Returned(true))]
            && p.file(root) in s.files
  {
    assert Run(p, INIT, []) == Some(INIT);
    hide Run;
    var building := Reaches(p, [], 0, root, 0);
    var s := Run(p, INIT, building).value;
    RunMore(p, building, Open(0));
    var r1 := building + [Open(0)];
    var s1 := Next(p, s, Open(0));
    RunMore(p, r1, Call(1, root));
    var r2 := r1 + [Call(1, root)];
    var s2 := Next(p, s1, Call(1, root));
    RunMore(p, r2, Check(1));
    steps := r2 + [Check(1)];
  }
}
