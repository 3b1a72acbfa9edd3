/** The watch loop as a transition system: edits and file-system events on one side, the blocking
    receive, the drain, and a reindex that reads and writes file by file on the other. */
module WatchLoop {
  import opened ChunkIds

  type Path = seq<string>
  type Tree = map<Path, string>

  const INDEX_DIR: string := ".apohara-codesearch"

  datatype EventKind = Create | Modify | Remove | AnyKind | Access | Other

  /** What the watcher delivers: an event, or an error of the watcher itself. */
  datatype Event = Changed(kind: EventKind, paths: seq<Path>) | WatcherError

  /** `path.starts_with(root.join(INDEX_DIR))`, component by component. */
  predicate IsIndexPath(root: Path, path: Path) {
    root + [INDEX_DIR] <= path
  }

  predicate Relevant(root: Path, event: Event) {
    match event
    case WatcherError => true
    case Changed(kind, paths) =>
      && (kind == Create || kind == Modify || kind == Remove || kind == AnyKind)
      && exists i :: 0 <= i < |paths| && !IsIndexPath(root, paths[i])
  }

  /** The event reports a change of the path. */
  predicate Announces(event: Event, path: Path) {
    && event.Changed? && event.kind in {Create, Modify, Remove, AnyKind}
    && path in event.paths
  }

  lemma EditIsRelevant(root: Path, event: Event, path: Path)
    requires !IsIndexPath(root, path) && Announces(event, path)
    ensures Relevant(root, event)
  {
    var i :| 0 <= i < |event.paths| && event.paths[i] == path;
    assert !IsIndexPath(root, event.paths[i]);
  }

  predicate HasRelevant(root: Path, queue: seq<Event>) {
    exists i :: 0 <= i < |queue| && Relevant(root, queue[i])
  }

  /** `Idle` blocks in the outer receive, `Armed` drains the burst; a reindex first reads the
      tree (`todo` are the files it has seen but not read), then applies what it read. */
  datatype Phase = Idle | Armed | Walking(todo: set<Path>, got: Tree) | Applying(got: Tree)

  datatype State = State(tree: Tree, index: Tree, queue: seq<Event>, phase: Phase)

  function At(tree: Tree, p: Path): Option<string> {
    if p in tree then Some(tree[p]) else None
  }

  function Put(tree: Tree, p: Path, content: Option<string>): Tree {
    match content
    case Some(c) => tree[p := c]
    case None => tree - {p}
  }

  datatype Step =
    | Edit(path: Path, content: Option<string>, event: Event)
    | Notify(event: Event)
    | Receive
    | Drain
    | QuietTimeout
    | ReadFile(path: Path)
    | WalkDone
    | Apply(path: Path)
    | Finish
    | Fail

  predicate Enabled(root: Path, s: State, step: Step) {
    match step
    case Edit(p, _, event) => !IsIndexPath(root, p) && Announces(event, p)
    case Notify(_) => true
    case Receive => s.phase.Idle? && s.queue != []
    case Drain => s.phase.Armed? && s.queue != []
    case QuietTimeout => s.phase.Armed? && s.queue == []
    case ReadFile(_) => s.phase.Walking?
    case WalkDone => s.phase.Walking? && s.phase.todo == {}
    case Apply(_) => s.phase.Applying?
    case Finish => s.phase.Applying? && s.index == s.phase.got
    case Fail => s.phase.Walking? || s.phase.Applying?
  }

  function Next(root: Path, s: State, step: Step): State
    requires Enabled(root, s, step)
  {
    match step
    case Edit(p, content, event) => s.(tree := Put(s.tree, p, content), queue := s.queue + [event])
    case Notify(event) => s.(queue := s.queue + [event])
    case Receive => s.(queue := s.queue[1..], phase := if Relevant(root, s.queue[0]) then Armed else Idle)
    case Drain => s.(queue := s.queue[1..])
    case QuietTimeout => s.(phase := Walking(s.tree.Keys, map[]))
    case ReadFile(p) => s.(phase := Walking(s.phase.todo - {p}, Put(s.phase.got, p, At(s.tree, p))))
    case WalkDone => s.(phase := Applying(s.phase.got))
    case Apply(p) => s.(index := Put(s.index, p, At(s.phase.got, p)))
    case Finish => s.(phase := Idle)
    case Fail => s.(phase := Idle)
  }

  /** The state after a list of steps, or `None` when one of them is not enabled. */
  function Run(root: Path, s: State, steps: seq<Step>): Option<State> {
    if steps == [] then Some(s)
    else
      match Run(root, s, steps[..|steps| - 1])
      case None => None
      case Some(mid) =>
        if Enabled(root, mid, steps[|steps| - 1]) then Some(Next(root, mid, steps[|steps| - 1])) else None
  }

  /** A change the loop has not taken up yet is still in the queue. */
  predicate Remembers(root: Path, s: State) {
    || HasRelevant(root, s.queue)
    || match s.phase
       case Idle => s.index == s.tree
       case Armed => true
       case Walking(todo, got) => CaughtUp(todo, got, s.tree)
       case Applying(got) => got == s.tree
  }

  /** What has been read is what is there now. */
  predicate CaughtUp(todo: set<Path>, got: Tree, tree: Tree) {
    && (forall p :: p in got && p !in todo ==> p in tree && got[p] == tree[p])
    && (forall p :: p in tree && p !in todo ==> p in got)
  }

  /** What arms the idle loop: an error of the watcher, or a create, modify, remove or unspecified change of some
      path that does not lie in the root's `.apohara-codesearch`. Reads and other events do not. */
  lemma ArmsIff(root: Path, s: State)
    requires s.phase.Idle? && s.queue != []
    ensures Enabled(root, s, Receive)
    ensures var now := Next(root, s, Receive);
            && now.tree == s.tree && now.index == s.index && now.queue == s.queue[1..]
            && (now.phase.Idle? || now.phase.Armed?)
            && (now.phase.Armed? <==>
                  match s.queue[0]
                  case WatcherError => true
                  case Changed(kind, paths) =>
                    && kind != Access && kind != Other
                    && exists i :: 0 <= i < |paths| && !LiesIn(root, ".apohara-codesearch", paths[i]))
  {
    if s.queue[0].Changed? {
      var paths := s.queue[0].paths;
      forall i | 0 <= i < |paths|
        ensures IsIndexPath(root, paths[i]) <==> LiesIn(root, ".apohara-codesearch", paths[i])
      {
        IndexPathLiesIn(root, paths[i]);
      }
    }
  }

  /** The path is the entry `name` of the root, or something below it. */
  predicate LiesIn(root: Path, name: string, path: Path) {
    && |path| > |root| && path[|root|] == name
    && forall i :: 0 <= i < |root| ==> path[i] == root[i]
  }

  lemma IndexPathLiesIn(root: Path, path: Path)
    ensures IsIndexPath(root, path) <==> LiesIn(root, ".apohara-codesearch", path)
  {
    var index := root + [INDEX_DIR];
    if IsIndexPath(root, path) {
      assert path[..|index|] == index && path[|root|] == index[|root|];
    }
    if LiesIn(root, ".apohara-codesearch", path) {
      assert path[..|index|] == index;
    }
  }

  lemma QueueGrows(root: Path, queue: seq<Event>, event: Event)
    ensures HasRelevant(root, queue + [event]) <==> HasRelevant(root, queue) || Relevant(root, event)
  {
    var longer := queue + [event];
    assert longer[|queue|] == event;
    if HasRelevant(root, queue) {
      var i :| 0 <= i < |queue| && Relevant(root, queue[i]);
      assert longer[i] == queue[i];
    }
  }

  lemma QueueShrinks(root: Path, queue: seq<Event>)
    requires queue != []
    ensures HasRelevant(root, queue) <==> Relevant(root, queue[0]) || HasRelevant(root, queue[1..])
  {
    assert queue == [queue[0]] + queue[1..];
    if HasRelevant(root, queue[1..]) {
      var i :| 0 <= i < |queue[1..]| && Relevant(root, queue[1..][i]);
      assert queue[i + 1] == queue[1..][i];
    }
    if HasRelevant(root, queue) {
      var i :| 0 <= i < |queue| && Relevant(root, queue[i]);
      assert i > 0 ==> queue[1..][i - 1] == queue[i];
    }
  }

  /** Every step but a failing reindex keeps the invariant. */
  lemma StepRemembers(root: Path, s: State, step: Step)
    requires Remembers(root, s) && Enabled(root, s, step) && !step.Fail?
    ensures Remembers(root, Next(root, s, step))
  {
    match step
    case Edit(p, _, event) =>
      EditIsRelevant(root, event, p);
      QueueGrows(root, s.queue, event);
    case Notify(event) => QueueGrows(root, s.queue, event);
    case Receive => QueueShrinks(root, s.queue);
    case Drain =>
    case QuietTimeout =>
    case ReadFile(_) =>
    case WalkDone => TreesAgree(s.phase.got, s.tree);
    case Apply(_) =>
    case Finish =>
  }

  lemma TreesAgree(a: Tree, b: Tree)
    ensures CaughtUp({}, a, b) ==> a == b
  {
    if CaughtUp({}, a, b) {
      assert a.Keys == b.Keys;
    }
  }

  /** From an up-to-date idle watcher, after any number of steps without a failed reindex: when
      the index differs from the tree, the loop is armed, reindexing, or has a relevant event
      waiting; and once it is idle with an empty queue, the index is the tree. */
  lemma {:induction false} NeverForgets(root: Path, s: State, steps: seq<Step>)
    requires s.phase.Idle? && s.index == s.tree
    requires Run(root, s, steps).Some? && forall i :: 0 <= i < |steps| ==> !steps[i].Fail?
    ensures var now := Run(root, s, steps).value;
            && Remembers(root, now)
            && (now.index != now.tree ==> !now.phase.Idle? || HasRelevant(root, now.queue))
            && (now.phase.Idle? && now.queue == [] ==> now.index == now.tree)
  {
    if steps != [] {
      var last := |steps| - 1;
      NeverForgets(root, s, steps[..last]);
      StepRemembers(root, Run(root, s, steps[..last]).value, steps[last]);
    }
  }

  /** Once failures are allowed a change can be lost for good: an edit, one failed reindex, and the
      watcher idles on an empty queue with a stale index. */
  lemma FailureCanStrand(root: Path, p: Path, content: string)
    requires !IsIndexPath(root, p)
    ensures var start := State(map[], map[], [], Idle);
            var edit := Edit(p, Some(content), Changed(Create, [p]));
            var end := Run(root, start, [edit, Receive, QuietTimeout, Fail]);
            end.Some? && end.value.phase.Idle? && end.value.queue == [] && end.value.index != end.value.tree
  {
    var start := State(map[], map[], [], Idle);
    var event := Changed(Create, [p]);
    var edit := Edit(p, Some(content), event);
    assert event.paths[0] == p && [] + [edit] == [edit];
    assert [edit] + [Receive] == [edit, Receive];
    assert [edit, Receive] + [QuietTimeout] == [edit, Receive, QuietTimeout];
    assert [edit, Receive, QuietTimeout] + [Fail] == [edit, Receive, QuietTimeout, Fail];
    var s1 := Next(root, start, edit);
    var s2 := Next(root, s1, Receive);
    var s3 := Next(root, s2, QuietTimeout);
    RunOne(root, start, [], edit);
    RunOne(root, start, [edit], Receive);
    RunOne(root, start, [edit, Receive], QuietTimeout);
    RunOne(root, start, [edit, Receive, QuietTimeout], Fail);
    assert p in Next(root, s3, Fail).tree;
  }

  /** One more step of a run. */
  lemma RunOne(root: Path, s: State, steps: seq<Step>, step: Step)
    requires Run(root, s, steps).Some? && Enabled(root, Run(root, s, steps).value, step)
    ensures Run(root, s, steps + [step]) == Some(Next(root, Run(root, s, steps).value, step))
  {
    assert (steps + [step])[..|steps|] == steps;
  }

  lemma {:induction false} IrrelevantNeverStarts(root: Path, s: State, steps: seq<Step>)
    requires s.phase.Idle? && !HasRelevant(root, s.queue)
    requires Run(root, s, steps).Some?
    requires forall i :: 0 <= i < |steps| ==> !steps[i].Edit?
    requires forall i :: 0 <= i < |steps| && steps[i].Notify? ==> !Relevant(root, steps[i].event)
    ensures var now := Run(root, s, steps).value;
            now.phase.Idle? && now.index == s.index && !HasRelevant(root, now.queue)
  {
    if steps != [] {
      var last := |steps| - 1;
      IrrelevantNeverStarts(root, s, steps[..last]);
      var mid := Run(root, s, steps[..last]).value;
      if steps[last].Notify? {
        QueueGrows(root, mid.queue, steps[last].event);
      } else if steps[last].Receive? {
        QueueShrinks(root, mid.queue);
      }
    }
  }

  /** The registry file or one of its temp files, in the directory `registry`. */
  predicate IsRegistryFile(registry: Path, path: Path) {
    && registry < path && |path| == |registry| + 1
    && (path[|registry|] == "registry.json" || ".registry." <= path[|registry|])
  }

  /** The events below the watched root that a reindex itself causes: reads of source files, and
      writes under the index directory and of the registry. */
  predicate OwnEvent(root: Path, registry: Path, event: Event) {
    && event.Changed?
    && (|| event.kind == Access
        || forall i :: 0 <= i < |event.paths| ==>
             || IsIndexPath(root, event.paths[i])
             || (root < event.paths[i] && IsRegistryFile(registry, event.paths[i])))
  }

  /** The registry lies where the watcher does not look: outside the root or under the index directory. */
  predicate RegistryUnseen(root: Path, registry: Path) {
    !(root <= registry) || IsIndexPath(root, registry)
  }

  lemma OwnEventIsIrrelevant(root: Path, registry: Path, event: Event)
    requires RegistryUnseen(root, registry) && OwnEvent(root, registry, event)
    ensures !Relevant(root, event)
  {
    if event.kind != Access {
      forall i | 0 <= i < |event.paths|
        ensures IsIndexPath(root, event.paths[i])
      {
        var path := event.paths[i];
        if root < path && IsRegistryFile(registry, path) {
          assert path[..|registry|] == registry && path[..|root|] == root;
          assert registry[..|root|] == root;
        }
      }
    }
  }

  /** With the registry unseen, a reindex's own events never start another, however many arrive. */
  lemma NoSelfTrigger(root: Path, registry: Path, s: State, steps: seq<Step>)
    requires RegistryUnseen(root, registry)
    requires s.phase.Idle? && !HasRelevant(root, s.queue)
    requires Run(root, s, steps).Some?
    requires forall i :: 0 <= i < |steps| ==> !steps[i].Edit?
    requires forall i :: 0 <= i < |steps| && steps[i].Notify? ==> OwnEvent(root, registry, steps[i].event)
    ensures var now := Run(root, s, steps).value;
            now.phase.Idle? && now.index == s.index && !HasRelevant(root, now.queue)
  {
    forall i | 0 <= i < |steps| && steps[i].Notify?
      ensures !Relevant(root, steps[i].event)
    {
      OwnEventIsIrrelevant(root, registry, steps[i].event);
    }
    IrrelevantNeverStarts(root, s, steps);
  }

  /** From rest on an up-to-date index, events of a reindex alone arm the loop again. */
  ghost predicate SelfTriggers(root: Path, registry: Path, s: State, steps: seq<Step>) {
    && s.phase.Idle? && s.index == s.tree && s.queue == [] && Run(root, s, steps).Some?
    && (forall i :: 0 <= i < |steps| ==> !steps[i].Edit?)
    && (forall i :: 0 <= i < |steps| && steps[i].Notify? ==> OwnEvent(root, registry, steps[i].event))
    && !Run(root, s, steps).value.phase.Idle?
  }

  ghost predicate CanSelfTrigger(root: Path, registry: Path) {
    exists s, steps :: SelfTriggers(root, registry, s, steps)
  }

  /** Every reindex also writes the registry. Its own events start another exactly when the registry
      lies below the watched root and not under the index directory. */
  lemma SelfTriggersIff(root: Path, registry: Path)
    ensures CanSelfTrigger(root, registry) <==> !RegistryUnseen(root, registry)
  {
    if CanSelfTrigger(root, registry) && RegistryUnseen(root, registry) {
      var s, steps :| SelfTriggers(root, registry, s, steps);
      NoSelfTrigger(root, registry, s, steps);
    }
    if !RegistryUnseen(root, registry) {
      RegistryWriteArms(root, registry);
    }
  }

  lemma IndexPathAbove(root: Path, dir: Path, name: string)
    requires root <= dir && name != INDEX_DIR && IsIndexPath(root, dir + [name])
    ensures IsIndexPath(root, dir)
  {
    var path, index := dir + [name], root + [INDEX_DIR];
    assert path[|dir|] == name && index == path[..|index|] && index[|root|] == INDEX_DIR;
    assert path[..|dir|] == dir;
  }

  lemma RegistryWriteArms(root: Path, registry: Path)
    requires !RegistryUnseen(root, registry)
    ensures CanSelfTrigger(root, registry)
  {
    var file := registry + ["registry.json"];
    var event := Changed(Create, [file]);
    assert event.paths[0] == file && file[..|root|] == root;
    assert INDEX_DIR[1] != "registry.json"[1];
    if IsIndexPath(root, file) {
      IndexPathAbove(root, registry, "registry.json");
    }
    assert OwnEvent(root, registry, event) && Relevant(root, event);
    var s := State(map[], map[], [], Idle);
    assert Run(root, s, []) == Some(s);
    RunOne(root, s, [], Notify(event));
    var heard := Next(root, s, Notify(event));
    assert [] + [Notify(event)] == [Notify(event)];
    RunOne(root, s, [Notify(event)], Receive);
    assert heard.queue == [event];
    var steps := [Notify(event)] + [Receive];
    assert SelfTriggers(root, registry, s, steps);
  }

  // ---------------------------------------------------------------------------------------
  // One reindex per burst
  // ---------------------------------------------------------------------------------------

  /** The number of events delivered, by edits or otherwise. */
  function Delivered(steps: seq<Step>): nat {
    if steps == [] then 0
    else
      var last := steps[|steps| - 1];
      Delivered(steps[..|steps| - 1]) + if last.Edit? || last.Notify? then 1 else 0
  }

  /** The number of events taken off the queue. */
  function Taken(steps: seq<Step>): nat {
    if steps == [] then 0
    else
      var last := steps[|steps| - 1];
      Taken(steps[..|steps| - 1]) + if last.Receive? || last.Drain? then 1 else 0
  }

  function Received(steps: seq<Step>): nat {
    if steps == [] then 0
    else Received(steps[..|steps| - 1]) + if steps[|steps| - 1].Receive? then 1 else 0
  }

  /** The number of reindexes begun. */
  function Walks(steps: seq<Step>): nat {
    if steps == [] then 0
    else Walks(steps[..|steps| - 1]) + if steps[|steps| - 1].QuietTimeout? then 1 else 0
  }

  /** From an idle watcher there are at most as many reindexes as bursts, that is, events the idle loop
      received; no event is lost or taken twice; and whenever a reindex starts, every event delivered until
      then has been taken. */
  lemma {:induction false} OneReindexPerBurst(root: Path, s: State, steps: seq<Step>)
    requires s.phase.Idle? && Run(root, s, steps).Some?
    ensures |Run(root, s, steps).value.queue| == |s.queue| + Delivered(steps) - Taken(steps)
    ensures Walks(steps) + (if Run(root, s, steps).value.phase.Armed? then 1 else 0) <= Received(steps)
    ensures steps != [] && steps[|steps| - 1].QuietTimeout? ==> Taken(steps) == |s.queue| + Delivered(steps)
  {
    if steps != [] {
      OneReindexPerBurst(root, s, steps[..|steps| - 1]);
    }
  }

  // ---------------------------------------------------------------------------------------
  // The loop can always catch up
  // ---------------------------------------------------------------------------------------

  lemma {:induction false} RunAppend(root: Path, s: State, a: seq<Step>, b: seq<Step>)
    requires Run(root, s, a).Some?
    ensures Run(root, s, a + b) == Run(root, Run(root, s, a).value, b)
  {
    if b == [] {
      assert a + b == a;
    } else {
      RunAppend(root, s, a, b[..|b| - 1]);
      assert (a + b)[..|a + b| - 1] == a + b[..|b| - 1];
    }
  }

  predicate LoopStep(step: Step) {
    !step.Edit? && !step.Notify? && !step.Fail?
  }

  /** `steps` are the loop's own and lead from `s` to `end`. */
  ghost predicate Leads(root: Path, s: State, steps: seq<Step>, end: State) {
    Run(root, s, steps) == Some(end) && forall i :: 0 <= i < |steps| ==> LoopStep(steps[i])
  }

  lemma NothingLed(root: Path, s: State)
    ensures Leads(root, s, [], s)
  {
  }

  lemma LeadsFirst(root: Path, s: State, step: Step, rest: seq<Step>, end: State)
    requires Enabled(root, s, step) && LoopStep(step) && Leads(root, Next(root, s, step), rest, end)
    ensures Leads(root, s, [step] + rest, end)
  {
    RunOne(root, s, [], step);
    assert [] + [step] == [step];
    RunAppend(root, s, [step], rest);
  }

  lemma LeadsThen(root: Path, s: State, a: seq<Step>, mid: State, b: seq<Step>, end: State)
    requires Leads(root, s, a, mid) && Leads(root, mid, b, end)
    ensures Leads(root, s, a + b, end)
  {
    RunAppend(root, s, a, b);
  }

  /** A burst drains. */
  lemma {:induction false} DrainAll(root: Path, s: State) returns (steps: seq<Step>)
    requires s.phase.Armed?
    ensures Leads(root, s, steps, s.(queue := []))
    decreases |s.queue|
  {
    steps := [];
    if s.queue != [] {
      var rest := DrainAll(root, Next(root, s, Drain));
      LeadsFirst(root, s, Drain, rest, s.(queue := []));
      steps := [Drain] + rest;
    }
  }

  lemma ReadKeepsUp(todo: set<Path>, got: Tree, tree: Tree, p: Path)
    requires CaughtUp(todo, got, tree)
    ensures CaughtUp(todo - {p}, Put(got, p, At(tree, p)), tree)
  {
  }

  /** A walk reads what is left to read. */
  lemma {:induction false} ReadAll(root: Path, s: State) returns (steps: seq<Step>, got: Tree)
    requires s.phase.Walking?
    ensures Leads(root, s, steps, s.(phase := Walking({}, got)))
    ensures CaughtUp(s.phase.todo, s.phase.got, s.tree) ==> got == s.tree
    decreases |s.phase.todo|
  {
    hide CaughtUp, Leads;
    steps, got := [], s.phase.got;
    if s.phase.todo == {} {
      NothingLed(root, s);
      TreesAgree(got, s.tree);
    } else {
      var p :| p in s.phase.todo;
      if CaughtUp(s.phase.todo, s.phase.got, s.tree) {
        ReadKeepsUp(s.phase.todo, s.phase.got, s.tree, p);
      }
      var rest;
      rest, got := ReadAll(root, Next(root, s, ReadFile(p)));
      LeadsFirst(root, s, ReadFile(p), rest, s.(phase := Walking({}, got)));
      steps := [ReadFile(p)] + rest;
    }
  }

  /** The paths on which two trees disagree. */
  function Differing(a: Tree, b: Tree): set<Path> {
    set p | p in a.Keys + b.Keys && At(a, p) != At(b, p)
  }

  lemma NoDifference(a: Tree, b: Tree)
    requires Differing(a, b) == {}
    ensures a == b
  {
    assert forall p :: p in a.Keys + b.Keys && At(a, p) != At(b, p) ==> p in Differing(a, b);
    assert forall p :: p in a ==> At(a, p) == At(b, p);
    assert forall p :: p in b ==> At(a, p) == At(b, p);
    assert a.Keys == b.Keys;
  }

  /** The results of a walk are applied. */
  lemma {:induction false} ApplyAll(root: Path, s: State) returns (steps: seq<Step>)
    requires s.phase.Applying?
    ensures Leads(root, s, steps, s.(index := s.phase.got))
    decreases |Differing(s.index, s.phase.got)|
  {
    steps := [];
    var left := Differing(s.index, s.phase.got);
    if left == {} {
      NoDifference(s.index, s.phase.got);
    } else {
      var p :| p in left;
      var next := Next(root, s, Apply(p));
      assert Differing(next.index, s.phase.got) == left - {p};
      var rest := ApplyAll(root, next);
      LeadsFirst(root, s, Apply(p), rest, s.(index := s.phase.got));
      steps := [Apply(p)] + rest;
    }
  }

  /** A reindex in progress completes; it leaves the tree itself if what it has read is current. */
  lemma FinishApplying(root: Path, s: State) returns (steps: seq<Step>)
    requires s.phase.Applying?
    ensures Leads(root, s, steps, s.(index := s.phase.got, phase := Idle))
  {
    var apply := ApplyAll(root, s);
    var applied := s.(index := s.phase.got);
    assert Leads(root, s.(phase := Idle, index := s.phase.got), [], s.(index := s.phase.got, phase := Idle));
    LeadsFirst(root, applied, Finish, [], s.(index := s.phase.got, phase := Idle));
    assert [Finish] + [] == [Finish];
    LeadsThen(root, s, apply, applied, [Finish], s.(index := s.phase.got, phase := Idle));
    steps := apply + [Finish];
  }

  lemma FinishWalking(root: Path, s: State) returns (steps: seq<Step>, got: Tree)
    requires s.phase.Walking?
    ensures Leads(root, s, steps, s.(index := got, phase := Idle))
    ensures CaughtUp(s.phase.todo, s.phase.got, s.tree) ==> got == s.tree
  {
    var read;
    read, got := ReadAll(root, s);
    var walked := s.(phase := Walking({}, got));
    var apply := FinishApplying(root, s.(phase := Applying(got)));
    LeadsFirst(root, walked, WalkDone, apply, s.(index := got, phase := Idle));
    LeadsThen(root, s, read, walked, [WalkDone] + apply, s.(index := got, phase := Idle));
    steps := read + ([WalkDone] + apply);
  }

  lemma FinishArmed(root: Path, s: State) returns (steps: seq<Step>)
    requires s.phase.Armed?
    ensures Leads(root, s, steps, State(s.tree, s.tree, [], Idle))
  {
    var drain := DrainAll(root, s);
    var quiet := s.(queue := []);
    var walk, got := FinishWalking(root, Next(root, quiet, QuietTimeout));
    LeadsFirst(root, quiet, QuietTimeout, walk, State(s.tree, s.tree, [], Idle));
    LeadsThen(root, s, drain, quiet, [QuietTimeout] + walk, State(s.tree, s.tree, [], Idle));
    steps := drain + ([QuietTimeout] + walk);
  }

  lemma {:induction false} FinishIdle(root: Path, s: State) returns (steps: seq<Step>)
    requires s.phase.Idle? && Remembers(root, s)
    ensures Leads(root, s, steps, State(s.tree, s.tree, [], Idle))
    decreases |s.queue|
  {
    if s.queue == [] {
      steps := [];
    } else {
      var next := Next(root, s, Receive);
      var rest;
      if next.phase.Armed? {
        rest := FinishArmed(root, next);
      } else {
        StepRemembers(root, s, Receive);
        rest := FinishIdle(root, next);
      }
      LeadsFirst(root, s, Receive, rest, State(s.tree, s.tree, [], Idle));
      steps := [Receive] + rest;
    }
  }

  /** Whenever the invariant holds, the loop's own steps alone lead to an idle watcher with an empty
      queue and an index equal to the tree: no pending change needs another edit to be picked up. */
  lemma CanCatchUp(root: Path, s: State) returns (steps: seq<Step>)
    requires Remembers(root, s)
    ensures Leads(root, s, steps, State(s.tree, s.tree, [], Idle))
  {
    match s.phase
    case Idle => steps := FinishIdle(root, s);
    case Armed => steps := FinishArmed(root, s);
    case Walking(_, _) =>
      var finish, got := FinishWalking(root, s);
      var rest := FinishIdle(root, s.(index := got, phase := Idle));
      LeadsThen(root, s, finish, s.(index := got, phase := Idle), rest, State(s.tree, s.tree, [], Idle));
      steps := finish + rest;
    case Applying(got) =>
      var finish := FinishApplying(root, s);
      var rest := FinishIdle(root, s.(index := got, phase := Idle));
      LeadsThen(root, s, finish, s.(index := got, phase := Idle), rest, State(s.tree, s.tree, [], Idle));
      steps := finish + rest;
  }

  // ---------------------------------------------------------------------------------------
  // Recovery from a failed reindex
  // ---------------------------------------------------------------------------------------

  lemma {:induction false} LoopKeepsTree(root: Path, s: State, steps: seq<Step>, end: State)
    requires Leads(root, s, steps, end)
    ensures end.tree == s.tree
  {
    if steps != [] {
      var last := |steps| - 1;
      LoopKeepsTree(root, s, steps[..last], Run(root, s, steps[..last]).value);
    }
  }

  /** The loop by itself can come to rest with an up-to-date index. */
  ghost predicate CanRecover(root: Path, s: State) {
    exists steps, end :: Leads(root, s, steps, end) && end.phase.Idle? && end.index == end.tree
  }

  /** After a failed reindex the loop by itself, without a further event, gets the index up to date
      exactly when it already was or a relevant event was waiting. */
  lemma FailureRecoversIff(root: Path, s: State)
    requires Enabled(root, s, Fail)
    ensures CanRecover(root, Next(root, s, Fail)) <==> s.index == s.tree || HasRelevant(root, s.queue)
  {
    var failed := Next(root, s, Fail);
    if s.index == s.tree || HasRelevant(root, s.queue) {
      var steps := CanCatchUp(root, failed);
      assert Leads(root, failed, steps, State(failed.tree, failed.tree, [], Idle));
    }
    if CanRecover(root, failed) && !HasRelevant(root, s.queue) {
      var steps, end :| Leads(root, failed, steps, end) && end.phase.Idle? && end.index == end.tree;
      IrrelevantNeverStarts(root, failed, steps);
      LoopKeepsTree(root, failed, steps, end);
    }
  }

  /** A step that tells the loop to look: an edit, or an event of its own. */
  predicate Alerts(root: Path, step: Step) {
    step.Edit? || (step.Notify? && Relevant(root, step.event))
  }

  lemma AlertIsRemembered(root: Path, s: State, step: Step)
    requires Enabled(root, s, step) && Alerts(root, step)
    ensures Remembers(root, Next(root, s, step))
  {
    if step.Edit? {
      EditIsRelevant(root, step.event, step.path);
    }
    QueueGrows(root, s.queue, step.event);
  }

  lemma {:induction false} AlertStaysRemembered(root: Path, s: State, steps: seq<Step>, j: nat)
    requires Run(root, s, steps).Some? && j < |steps| && Alerts(root, steps[j])
    requires forall i :: j < i < |steps| ==> !steps[i].Fail?
    ensures Remembers(root, Run(root, s, steps).value)
  {
    var last := |steps| - 1;
    var mid := Run(root, s, steps[..last]).value;
    if j == last {
      AlertIsRemembered(root, mid, steps[last]);
    } else {
      AlertStaysRemembered(root, s, steps[..last], j);
      StepRemembers(root, mid, steps[last]);
    }
  }

  /** The next save recovers: whatever state a run starts from and however many reindexes failed, once
      an edit or another relevant event comes after the last failure, nothing is forgotten any more,
      and the loop's own steps lead to an up-to-date index. */
  lemma NextSaveRecovers(root: Path, s: State, steps: seq<Step>, j: nat) returns (more: seq<Step>)
    requires Run(root, s, steps).Some? && j < |steps| && Alerts(root, steps[j])
    requires forall i :: j < i < |steps| ==> !steps[i].Fail?
    ensures var now := Run(root, s, steps).value;
            && Remembers(root, now)
            && Leads(root, now, more, State(now.tree, now.tree, [], Idle))
  {
    AlertStaysRemembered(root, s, steps, j);
    more := CanCatchUp(root, Run(root, s, steps).value);
  }
}
