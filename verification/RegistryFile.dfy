/** The shared registry file under any interleaving of processes and threads. Each writer loads,
    inserts and saves; a save writes a temp file piece by piece and renames it onto the target. */
module RegistryFile {
  import opened ChunkIds

  /** Repository root to index path. */
  type Registry = map<string, string>
  type Bytes = seq<nat>

  /** The serialization, of which only this is used: what was written is read back. */
  datatype Codec = Codec(ser: Registry -> Bytes, parse: Bytes -> Option<Registry>) {
    ghost predicate RoundTrips() {
      forall r :: parse(ser(r)) == Some(r)
    }
  }

  /** `.registry.<pid>.<nonce>.tmp`, or the registry file itself. */
  datatype Name = Target | Temp(pid: nat, nonce: nat)

  /** Where a `register` call stands: reading an open file (`None`: there was no file), holding the
      map to save, or writing its serialization to a temp file. */
  datatype Work =
    | Reading(from: Option<nat>, got: Bytes)
    | Ready(reg: Registry)
    | Writing(tmp: Name, inode: nat, reg: Registry, written: nat)

  datatype Thread = Thread(pid: nat, root: string, db: string, work: Work)

  /** The directory, the inodes, the nonce counter of each live process, the `register` calls in
      flight, the index files that exist, and two histories: every call ever made and every inode
      ever renamed onto the target. */
  datatype State = State(
    dir: map<Name, nat>,
    files: map<nat, Bytes>,
    nonce: map<nat, nat>,
    threads: map<nat, Thread>,
    live: set<string>,
    registered: set<(string, string)>,
    published: set<nat>)

  datatype Step =
    | Spawn(pid: nat)
    | Start(tid: nat, pid: nat, root: string, db: string)
    | ReadSome(tid: nat, n: nat)
    | ReadDone(tid: nat)
    | OpenTemp(tid: nat, inode: nat)
    | WriteSome(tid: nat, n: nat)
    | Rename(tid: nat)
    | GiveUp(tid: nat, cleanUp: bool)
    | Crash(pid: nat)
    | FilesChange(live: set<string>)

  function Found(m: map<Name, nat>, name: Name): Option<nat> {
    if name in m then Some(m[name]) else None
  }

  /** `prune_missing` */
  function Prune(reg: Registry, live: set<string>): Registry {
    map k | k in reg && reg[k] in live :: reg[k]
  }

  function TempOf(s: State, tid: nat): Name
    requires tid in s.threads && s.threads[tid].pid in s.nonce
  {
    Temp(s.threads[tid].pid, s.nonce[s.threads[tid].pid])
  }

  predicate Enabled(c: Codec, s: State, step: Step) {
    match step
    case Spawn(pid) => pid !in s.nonce
    case Start(tid, pid, _, _) => tid !in s.threads && pid in s.nonce
    case ReadSome(tid, n) =>
      && tid in s.threads && s.threads[tid].work.Reading? && s.threads[tid].work.from.Some?
      && s.threads[tid].work.from.value in s.files
      && |s.threads[tid].work.got| + n <= |s.files[s.threads[tid].work.from.value]|
    case ReadDone(tid) =>
      && tid in s.threads && s.threads[tid].work.Reading?
      && (s.threads[tid].work.from.Some? ==>
            && s.threads[tid].work.from.value in s.files
            && |s.threads[tid].work.got| == |s.files[s.threads[tid].work.from.value]|)
    case OpenTemp(tid, inode) =>
      && tid in s.threads && s.threads[tid].work.Ready? && s.threads[tid].pid in s.nonce
      && (if TempOf(s, tid) in s.dir then inode == s.dir[TempOf(s, tid)] else inode !in s.files)
    case WriteSome(tid, n) =>
      && tid in s.threads && s.threads[tid].work.Writing? && s.threads[tid].work.inode in s.files
      && s.threads[tid].work.written + n <= |c.ser(s.threads[tid].work.reg)|
    case Rename(tid) =>
      && tid in s.threads && s.threads[tid].work.Writing? && s.threads[tid].work.tmp in s.dir
      && s.threads[tid].work.written == |c.ser(s.threads[tid].work.reg)|
    case GiveUp(tid, _) => tid in s.threads
    case Crash(pid) => pid in s.nonce
    case FilesChange(_) => true
  }

  function Next(c: Codec, s: State, step: Step): State
    requires Enabled(c, s, step)
  {
    match step
    case Spawn(pid) => s.(nonce := s.nonce[pid := 0])
    case Start(tid, pid, root, db) =>
      s.(threads := s.threads[tid := Thread(pid, root, db, Reading(Found(s.dir, Target), []))],
         registered := s.registered + {(root, db)})
    case ReadSome(tid, n) =>
      var w := s.threads[tid].work;
      var data := s.files[w.from.value];
      SetWork(s, tid, Reading(w.from, w.got + data[|w.got|..|w.got| + n]))
    case ReadDone(tid) =>
      var t := s.threads[tid];
      if t.work.from.None? then SetWork(s, tid, Ready(map[t.root := t.db]))
      else
        (match c.parse(t.work.got)
         case None => s.(threads := s.threads - {tid})
         case Some(reg) => SetWork(s, tid, Ready(Prune(reg, s.live)[t.root := t.db])))
    case OpenTemp(tid, inode) =>
      var tmp := TempOf(s, tid);
      var t := s.threads[tid];
      SetWork(s, tid, Writing(tmp, inode, t.work.reg, 0))
        .(dir := s.dir[tmp := inode], files := s.files[inode := []], nonce := s.nonce[t.pid := tmp.nonce + 1])
    case WriteSome(tid, n) =>
      var w := s.threads[tid].work;
      SetWork(s, tid, w.(written := w.written + n))
        .(files := s.files[w.inode := s.files[w.inode] + c.ser(w.reg)[w.written..w.written + n]])
    case Rename(tid) =>
      var tmp := s.threads[tid].work.tmp;
      s.(dir := (s.dir - {tmp})[Target := s.dir[tmp]],
         published := s.published + {s.dir[tmp]},
         threads := s.threads - {tid})
    case GiveUp(tid, cleanUp) =>
      var w := s.threads[tid].work;
      s.(threads := s.threads - {tid},
         dir := if cleanUp && w.Writing? then s.dir - {w.tmp} else s.dir)
    case Crash(pid) =>
      s.(nonce := s.nonce - {pid},
         threads := map t | t in s.threads && s.threads[t].pid != pid :: s.threads[t])
    case FilesChange(live) => s.(live := live)
  }

  function SetWork(s: State, tid: nat, work: Work): State
    requires tid in s.threads
  {
    s.(threads := s.threads[tid := s.threads[tid].(work := work)])
  }

  // ---------------------------------------------------------------------------------------
  // The invariant
  // ---------------------------------------------------------------------------------------

  ghost predicate AllRegistered(reg: Registry, registered: set<(string, string)>) {
    forall k :: k in reg ==> (k, reg[k]) in registered
  }

  /** The bytes are the whole serialization of a registry of registered entries. */
  ghost predicate Complete(c: Codec, data: Bytes, registered: set<(string, string)>) {
    && c.parse(data).Some?
    && data == c.ser(c.parse(data).value)
    && AllRegistered(c.parse(data).value, registered)
  }

  /** Names point at different inodes, and a temp name never at one that was published. */
  ghost predicate DirOk(s: State) {
    && (forall n :: n in s.dir ==> s.dir[n] in s.files)
    && (forall n, m :: n in s.dir && m in s.dir && s.dir[n] == s.dir[m] ==> n == m)
    && (forall n :: n in s.dir ==> (s.dir[n] in s.published <==> n == Target))
  }

  ghost predicate PublishedOk(c: Codec, s: State) {
    forall i :: i in s.published ==> i in s.files && Complete(c, s.files[i], s.registered)
  }

  ghost predicate ThreadOk(c: Codec, s: State, t: Thread) {
    && t.pid in s.nonce && (t.root, t.db) in s.registered
    && match t.work
       case Reading(None, got) => got == []
       case Reading(Some(i), got) => i in s.published && i in s.files && got <= s.files[i]
       case Ready(reg) => AllRegistered(reg, s.registered)
       case Writing(tmp, inode, reg, written) =>
         && tmp.Temp? && tmp.pid == t.pid && tmp.nonce < s.nonce[t.pid]
         && tmp in s.dir && s.dir[tmp] == inode && inode in s.files
         && written <= |c.ser(reg)| && s.files[inode] == c.ser(reg)[..written]
         && AllRegistered(reg, s.registered)
  }

  /** No two calls write through the same temp name. */
  ghost predicate TempsDiffer(s: State) {
    forall t, u :: t in s.threads && u in s.threads && t != u
                   && s.threads[t].work.Writing? && s.threads[u].work.Writing? ==>
                     s.threads[t].work.tmp != s.threads[u].work.tmp
  }

  ghost predicate Inv(c: Codec, s: State) {
    && DirOk(s) && PublishedOk(c, s) && TempsDiffer(s)
    && forall t :: t in s.threads ==> ThreadOk(c, s, s.threads[t])
  }

  /** The call that takes the step. */
  function Actor(step: Step): Option<nat> {
    match step
    case Spawn(_) => None
    case Start(tid, _, _, _) => Some(tid)
    case ReadSome(tid, _) => Some(tid)
    case ReadDone(tid) => Some(tid)
    case OpenTemp(tid, _) => Some(tid)
    case WriteSome(tid, _) => Some(tid)
    case Rename(tid) => Some(tid)
    case GiveUp(tid, _) => Some(tid)
    case Crash(_) => None
    case FilesChange(_) => None
  }

  /** A step of another call leaves a temp file that is being written alone. */
  lemma TempUndisturbed(c: Codec, s: State, step: Step, u: nat)
    requires Inv(c, s) && Enabled(c, s, step) && Actor(step) != Some(u)
    requires u in s.threads && u in Next(c, s, step).threads && s.threads[u].work.Writing?
    ensures var w := s.threads[u].work;
            var s' := Next(c, s, step);
            && w.tmp in s'.dir && s'.dir[w.tmp] == w.inode && w.inode in s'.files
            && s'.files[w.inode] == s.files[w.inode]
  {
    hide PublishedOk, Complete, AllRegistered;
    assert ThreadOk(c, s, s.threads[u]);
    match step
    case OpenTemp(tid, inode) =>
      assert TempOf(s, tid) != s.threads[u].work.tmp;
    case WriteSome(tid, n) =>
      assert ThreadOk(c, s, s.threads[tid]);
    case Rename(tid) =>
      assert ThreadOk(c, s, s.threads[tid]);
    case _ =>
  }

  lemma OtherThreadOk(c: Codec, s: State, step: Step, u: nat)
    requires Inv(c, s) && Enabled(c, s, step) && Actor(step) != Some(u)
    requires u in Next(c, s, step).threads
    ensures ThreadOk(c, Next(c, s, step), Next(c, s, step).threads[u])
  {
    hide DirOk, PublishedOk, TempsDiffer, Complete;
    var s' := Next(c, s, step);
    assert u in s.threads && s'.threads[u] == s.threads[u];
    assert ThreadOk(c, s, s.threads[u]);
    match s.threads[u].work
    case Reading(from, got) =>
      if from.Some? {
        PublishedIsFrozen(c, s, step, from.value);
      }
    case Ready(reg) =>
    case Writing(_, _, _, _) => TempUndisturbed(c, s, step, u);
  }

  lemma ActorOk(c: Codec, s: State, step: Step, u: nat)
    requires c.RoundTrips() && Inv(c, s) && Enabled(c, s, step) && Actor(step) == Some(u)
    requires u in Next(c, s, step).threads
    ensures ThreadOk(c, Next(c, s, step), Next(c, s, step).threads[u])
  {
    hide TempsDiffer, DirOk, PublishedOk;
    if u in s.threads {
      assert ThreadOk(c, s, s.threads[u]);
    }
    match step
    case Start(_, _, _, _) => StartOk(c, s, step);
    case ReadDone(tid) => ReaderOk(c, s, tid);
    case OpenTemp(tid, inode) => OpenerOk(c, s, tid, inode);
    case _ => hide Complete, Prune;
  }

  lemma StartOk(c: Codec, s: State, step: Step)
    requires Inv(c, s) && Enabled(c, s, step) && step.Start?
    ensures ThreadOk(c, Next(c, s, step), Next(c, s, step).threads[step.tid])
  {
    hide TempsDiffer, Complete, Prune;
  }

  lemma ReaderOk(c: Codec, s: State, tid: nat)
    requires c.RoundTrips() && Inv(c, s) && Enabled(c, s, ReadDone(tid)) && tid in Next(c, s, ReadDone(tid)).threads
    ensures ThreadOk(c, Next(c, s, ReadDone(tid)), Next(c, s, ReadDone(tid)).threads[tid])
  {
    hide TempsDiffer, DirOk, PublishedOk;
    assert ThreadOk(c, s, s.threads[tid]);
    ReadsAreComplete(c, s, tid);
  }

  lemma OpenerOk(c: Codec, s: State, tid: nat, inode: nat)
    requires Inv(c, s) && Enabled(c, s, OpenTemp(tid, inode))
    ensures ThreadOk(c, Next(c, s, OpenTemp(tid, inode)), Next(c, s, OpenTemp(tid, inode)).threads[tid])
  {
    hide TempsDiffer, Complete, Prune;
    assert ThreadOk(c, s, s.threads[tid]);
  }

  lemma StepKeepsThreads(c: Codec, s: State, step: Step, u: nat)
    requires c.RoundTrips() && Inv(c, s) && Enabled(c, s, step)
    requires u in Next(c, s, step).threads
    ensures ThreadOk(c, Next(c, s, step), Next(c, s, step).threads[u])
  {
    hide Enabled, Next, ThreadOk, Inv;
    if Actor(step) == Some(u) {
      ActorOk(c, s, step, u);
    } else {
      OtherThreadOk(c, s, step, u);
    }
  }

  /** A call that has read to the end of the file it opened holds a complete serialization. */
  lemma ReadsAreComplete(c: Codec, s: State, tid: nat)
    requires Inv(c, s) && Enabled(c, s, ReadDone(tid))
    ensures s.threads[tid].work.from.Some? ==> Complete(c, s.threads[tid].work.got, s.registered)
  {
    assert ThreadOk(c, s, s.threads[tid]);
    var w := s.threads[tid].work;
    if w.from.Some? {
      assert w.got == s.files[w.from.value];
    }
  }

  lemma StepKeepsDir(c: Codec, s: State, step: Step)
    requires Inv(c, s) && Enabled(c, s, step)
    ensures DirOk(Next(c, s, step))
  {
    hide Complete, TempsDiffer, AllRegistered;
    match step
    case OpenTemp(tid, inode) => OpenKeepsDir(c, s, tid, inode);
    case Rename(tid) => RenameKeepsDir(c, s, tid);
    case _ =>
  }

  lemma OpenKeepsDir(c: Codec, s: State, tid: nat, inode: nat)
    requires Inv(c, s) && Enabled(c, s, OpenTemp(tid, inode))
    ensures DirOk(Next(c, s, OpenTemp(tid, inode)))
  {
    hide Complete, TempsDiffer, AllRegistered;
    var s' := Next(c, s, OpenTemp(tid, inode));
    assert s'.dir == s.dir[TempOf(s, tid) := inode] && s'.published == s.published;
  }

  lemma RenameKeepsDir(c: Codec, s: State, tid: nat)
    requires Inv(c, s) && Enabled(c, s, Rename(tid))
    ensures DirOk(Next(c, s, Rename(tid)))
  {
    hide Complete, TempsDiffer, AllRegistered;
    assert ThreadOk(c, s, s.threads[tid]);
  }

  lemma StepKeepsPublished(c: Codec, s: State, step: Step)
    requires c.RoundTrips() && Inv(c, s) && Enabled(c, s, step)
    ensures PublishedOk(c, Next(c, s, step))
    ensures forall i :: i in s.published ==>
              i in s.files && i in Next(c, s, step).files && Next(c, s, step).files[i] == s.files[i]
  {
    hide TempsDiffer;
    var s' := Next(c, s, step);
    forall i | i in s.published
      ensures i in s'.files && s'.files[i] == s.files[i]
    {
      PublishedIsFrozen(c, s, step, i);
    }
    if step.Rename? {
      assert ThreadOk(c, s, s.threads[step.tid]);
      var w := s.threads[step.tid].work;
      assert s.files[w.inode] == c.ser(w.reg);
    }
  }

  /** An inode that was ever renamed onto the target is never written again. */
  lemma PublishedIsFrozen(c: Codec, s: State, step: Step, i: nat)
    requires Inv(c, s) && Enabled(c, s, step) && i in s.published
    ensures i in Next(c, s, step).published
    ensures i in s.files && i in Next(c, s, step).files && Next(c, s, step).files[i] == s.files[i]
  {
    hide TempsDiffer, Complete, AllRegistered;
    match step
    case OpenTemp(tid, inode) =>
      assert inode != i;
    case WriteSome(tid, n) =>
      assert ThreadOk(c, s, s.threads[tid]);
      assert s.threads[tid].work.inode != i;
    case _ =>
  }

  lemma StepKeepsTemps(c: Codec, s: State, step: Step)
    requires Inv(c, s) && Enabled(c, s, step)
    ensures TempsDiffer(Next(c, s, step))
  {
    hide DirOk, PublishedOk, AllRegistered;
    if step.OpenTemp? {
      forall u | u in s.threads && s.threads[u].work.Writing?
        ensures s.threads[u].work.tmp != TempOf(s, step.tid)
      {
        assert ThreadOk(c, s, s.threads[u]);
      }
    }
  }

  /** Every step keeps the invariant. */
  lemma StepKeepsInv(c: Codec, s: State, step: Step)
    requires c.RoundTrips() && Inv(c, s) && Enabled(c, s, step)
    ensures Inv(c, Next(c, s, step))
  {
    hide Enabled, Next, DirOk, PublishedOk, TempsDiffer, ThreadOk;
    StepKeepsDir(c, s, step);
    StepKeepsPublished(c, s, step);
    StepKeepsTemps(c, s, step);
    forall u | u in Next(c, s, step).threads
      ensures ThreadOk(c, Next(c, s, step), Next(c, s, step).threads[u])
    {
      StepKeepsThreads(c, s, step, u);
    }
  }

  // ---------------------------------------------------------------------------------------
  // Whole runs
  // ---------------------------------------------------------------------------------------

  /** The state after a list of steps, or `None` when one of them is not enabled. */
  function Run(c: Codec, s: State, steps: seq<Step>): Option<State> {
    if steps == [] then Some(s)
    else
      match Run(c, s, steps[..|steps| - 1])
      case None => None
      case Some(mid) =>
        if Enabled(c, mid, steps[|steps| - 1]) then Some(Next(c, mid, steps[|steps| - 1])) else None
  }

  /** No file yet and nobody writing; stale temp files may lie around. */
  ghost predicate Fresh(s: State) {
    && Target !in s.dir && s.threads == map[] && s.nonce == map[] && s.published == {}
    && (forall n :: n in s.dir ==> s.dir[n] in s.files)
    && (forall n, m :: n in s.dir && m in s.dir && s.dir[n] == s.dir[m] ==> n == m)
  }

  /** Over every run the target is absent or a complete serialization of entries that came from
      `register` calls, and a call that reads to the end never sees anything else. */
  lemma {:induction false} NeverTorn(c: Codec, s: State, steps: seq<Step>)
    requires c.RoundTrips() && Fresh(s) && Run(c, s, steps).Some?
    ensures var now := Run(c, s, steps).value;
            && Inv(c, now)
            && (Target in now.dir ==>
                  now.dir[Target] in now.files && Complete(c, now.files[now.dir[Target]], now.registered))
            && (forall tid :: tid in now.threads && Enabled(c, now, ReadDone(tid)) && now.threads[tid].work.from.Some? ==>
                  Complete(c, now.threads[tid].work.got, now.registered))
  {
    if steps != [] {
      var last := |steps| - 1;
      NeverTorn(c, s, steps[..last]);
      StepKeepsInv(c, Run(c, s, steps[..last]).value, steps[last]);
    }
    var now := Run(c, s, steps).value;
    forall tid | tid in now.threads && Enabled(c, now, ReadDone(tid)) && now.threads[tid].work.from.Some?
      ensures Complete(c, now.threads[tid].work.got, now.registered)
    {
      ReadsAreComplete(c, now, tid);
    }
  }

  // ---------------------------------------------------------------------------------------
  // Which entries survive
  // ---------------------------------------------------------------------------------------

  predicate Has(reg: Registry, root: string, db: string) {
    root in reg && reg[root] == db
  }

  ghost predicate FileHas(c: Codec, data: Bytes, root: string, db: string) {
    c.parse(data).Some? && Has(c.parse(data).value, root, db)
  }

  /** The registry file has the entry. */
  ghost predicate TargetHas(c: Codec, s: State, root: string, db: string) {
    Target in s.dir && s.dir[Target] in s.files && FileHas(c, s.files[s.dir[Target]], root, db)
  }

  /** The entry is live and in the file, and every call in flight has it or is about to insert it. */
  ghost predicate Held(c: Codec, s: State, root: string, db: string) {
    && db in s.live && TargetHas(c, s, root, db)
    && forall t :: t in s.threads ==> ThreadHas(c, s, s.threads[t], root, db)
  }

  /** What the call will write has the entry: it registers it, or it is in the file being read or in
      the map at hand. */
  ghost predicate ThreadHas(c: Codec, s: State, t: Thread, root: string, db: string) {
    match t.work
    case Reading(from, _) =>
      if t.root == root then t.db == db
      else from.Some? && from.value in s.files && FileHas(c, s.files[from.value], root, db)
    case Ready(reg) => Has(reg, root, db)
    case Writing(_, _, reg, _) => Has(reg, root, db)
  }

  /** A step that neither registers the root elsewhere nor deletes its index. */
  predicate Spares(step: Step, root: string, db: string) {
    && (step.Start? && step.root == root ==> step.db == db)
    && (step.FilesChange? ==> db in step.live)
  }

  /** What a finished read with the entry leaves at hand. */
  lemma ReaderHas(c: Codec, s: State, tid: nat, root: string, db: string)
    requires c.RoundTrips() && Inv(c, s) && Enabled(c, s, ReadDone(tid)) && db in s.live
    requires ThreadHas(c, s, s.threads[tid], root, db) && tid in Next(c, s, ReadDone(tid)).threads
    ensures ThreadHas(c, Next(c, s, ReadDone(tid)), Next(c, s, ReadDone(tid)).threads[tid], root, db)
  {
    hide DirOk, TempsDiffer, PublishedOk, AllRegistered;
    var t := s.threads[tid];
    assert ThreadOk(c, s, t);
    if t.work.from.Some? {
      assert t.work.got == s.files[t.work.from.value];
    }
  }

  lemma ThreadStaysHeld(c: Codec, s: State, step: Step, root: string, db: string, u: nat)
    requires c.RoundTrips() && Inv(c, s) && Enabled(c, s, step)
    requires Held(c, s, root, db) && Spares(step, root, db)
    requires u in Next(c, s, step).threads
    ensures ThreadHas(c, Next(c, s, step), Next(c, s, step).threads[u], root, db)
  {
    hide DirOk, TempsDiffer, Complete, AllRegistered;
    var s' := Next(c, s, step);
    if u in s.threads {
      assert ThreadHas(c, s, s.threads[u], root, db) && ThreadOk(c, s, s.threads[u]);
    }
    var work := s'.threads[u].work;
    if work.Reading? && work.from.Some? && work.from.value in s.published {
      PublishedIsFrozen(c, s, step, work.from.value);
    }
    if step == ReadDone(u) {
      ReaderHas(c, s, u, root, db);
    }
    if step.Start? && step.tid == u {
      assert work == Reading(Some(s.dir[Target]), []);
    }
  }

  lemma TargetStaysHeld(c: Codec, s: State, step: Step, root: string, db: string)
    requires c.RoundTrips() && Inv(c, s) && Enabled(c, s, step)
    requires Held(c, s, root, db) && Spares(step, root, db)
    ensures TargetHas(c, Next(c, s, step), root, db)
  {
    hide TempsDiffer, Complete, AllRegistered;
    match step
    case Rename(tid) =>
      assert ThreadOk(c, s, s.threads[tid]) && ThreadHas(c, s, s.threads[tid], root, db);
      var w := s.threads[tid].work;
      assert s.files[w.inode] == c.ser(w.reg);
    case GiveUp(tid, _) =>
      assert ThreadOk(c, s, s.threads[tid]);
      PublishedIsFrozen(c, s, step, s.dir[Target]);
    case _ =>
      PublishedIsFrozen(c, s, step, s.dir[Target]);
  }

  /** A live entry that every call in flight has or is about to insert survives any run in which nobody
      registers its root elsewhere or deletes its index. */
  lemma {:induction false} LiveEntrySurvives(c: Codec, s: State, steps: seq<Step>, root: string, db: string)
    requires c.RoundTrips() && Inv(c, s) && Held(c, s, root, db) && Run(c, s, steps).Some?
    requires forall i :: 0 <= i < |steps| ==> Spares(steps[i], root, db)
    ensures Inv(c, Run(c, s, steps).value) && Held(c, Run(c, s, steps).value, root, db)
  {
    hide Inv, Enabled, Next, ThreadHas, FileHas;
    if steps != [] {
      var last := |steps| - 1;
      LiveEntrySurvives(c, s, steps[..last], root, db);
      var mid := Run(c, s, steps[..last]).value;
      StepKeepsInv(c, mid, steps[last]);
      TargetStaysHeld(c, mid, steps[last], root, db);
      LiveStays(c, mid, steps[last], root, db);
      forall u | u in Next(c, mid, steps[last]).threads
        ensures ThreadHas(c, Next(c, mid, steps[last]), Next(c, mid, steps[last]).threads[u], root, db)
      {
        ThreadStaysHeld(c, mid, steps[last], root, db, u);
      }
    }
  }

  lemma LiveStays(c: Codec, s: State, step: Step, root: string, db: string)
    requires Enabled(c, s, step) && db in s.live && Spares(step, root, db)
    ensures db in Next(c, s, step).live
  {
  }

  /** The snapshot decides: after a rename the file has the entry exactly when the renaming call had
      it in its map. A call whose snapshot lacks it makes the update disappear. */
  lemma RenameDecides(c: Codec, s: State, tid: nat, root: string, db: string)
    requires c.RoundTrips() && Inv(c, s) && Enabled(c, s, Rename(tid))
    ensures TargetHas(c, Next(c, s, Rename(tid)), root, db) <==> Has(s.threads[tid].work.reg, root, db)
  {
    assert ThreadOk(c, s, s.threads[tid]);
    var w := s.threads[tid].work;
    assert s.files[w.inode] == c.ser(w.reg);
  }

  /** The entry is in the file after every run in which nobody registers its root elsewhere or deletes
      its index. */
  ghost predicate AlwaysSurvives(c: Codec, s: State, root: string, db: string) {
    forall steps :: Run(c, s, steps).Some? && AllSpare(steps, root, db) ==> TargetHas(c, Run(c, s, steps).value, root, db)
  }

  predicate AllSpare(steps: seq<Step>, root: string, db: string) {
    forall i :: 0 <= i < |steps| ==> Spares(steps[i], root, db)
  }

  /** A live entry in the file survives every such run exactly when every call in flight has it or is
      about to insert it. */
  lemma SurvivesIff(c: Codec, s: State, root: string, db: string)
    requires c.RoundTrips() && Inv(c, s) && db in s.live && TargetHas(c, s, root, db)
    ensures AlwaysSurvives(c, s, root, db) <==>
            forall t :: t in s.threads ==> ThreadHas(c, s, s.threads[t], root, db)
  {
    hide Inv, ThreadHas, TargetHas, Enabled, Next, Spares;
    if forall t :: t in s.threads ==> ThreadHas(c, s, s.threads[t], root, db) {
      forall steps | Run(c, s, steps).Some? && AllSpare(steps, root, db)
        ensures TargetHas(c, Run(c, s, steps).value, root, db)
      {
        LiveEntrySurvives(c, s, steps, root, db);
      }
    } else {
      var tid :| tid in s.threads && !ThreadHas(c, s, s.threads[tid], root, db);
      assert Run(c, s, []) == Some(s);
      var steps := CallLoses(c, s, [], tid, root, db);
      assert [] + steps == steps;
    }
  }

  lemma RunOne(c: Codec, s: State, steps: seq<Step>, step: Step)
    requires Run(c, s, steps).Some? && Enabled(c, Run(c, s, steps).value, step)
    ensures Run(c, s, steps + [step]) == Some(Next(c, Run(c, s, steps).value, step))
  {
    assert (steps + [step])[..|steps|] == steps;
  }

  /** A call that is writing a map without the entry finishes, and the entry is gone. */
  lemma WriterLoses(c: Codec, init: State, steps: seq<Step>, tid: nat, root: string, db: string)
    returns (more: seq<Step>)
    requires c.RoundTrips() && Run(c, init, steps).Some?
    requires var s := Run(c, init, steps).value;
             Inv(c, s) && tid in s.threads && s.threads[tid].work.Writing? && !Has(s.threads[tid].work.reg, root, db)
    ensures Run(c, init, steps + more).Some? && !TargetHas(c, Run(c, init, steps + more).value, root, db)
    ensures AllSpare(more, root, db)
  {
    hide Run, TargetHas, DirOk, PublishedOk, TempsDiffer, AllRegistered;
    var s := Run(c, init, steps).value;
    assert ThreadOk(c, s, s.threads[tid]);
    var write := WriteSome(tid, |c.ser(s.threads[tid].work.reg)| - s.threads[tid].work.written);
    RunOne(c, init, steps, write);
    var s1 := Next(c, s, write);
    StepKeepsInv(c, s, write);
    RunOne(c, init, steps + [write], Rename(tid));
    RenameDecides(c, s1, tid, root, db);
    more := [write, Rename(tid)];
    assert steps + more == steps + [write] + [Rename(tid)];
  }

  /** A call that is about to write such a map. */
  lemma ReadyLoses(c: Codec, init: State, steps: seq<Step>, tid: nat, root: string, db: string)
    returns (more: seq<Step>)
    requires c.RoundTrips() && Run(c, init, steps).Some?
    requires var s := Run(c, init, steps).value;
             Inv(c, s) && tid in s.threads && s.threads[tid].work.Ready? && !Has(s.threads[tid].work.reg, root, db)
    ensures Run(c, init, steps + more).Some? && !TargetHas(c, Run(c, init, steps + more).value, root, db)
    ensures AllSpare(more, root, db)
  {
    hide Run, TargetHas, DirOk, PublishedOk, TempsDiffer, AllRegistered;
    var s := Run(c, init, steps).value;
    assert ThreadOk(c, s, s.threads[tid]);
    var tmp := TempOf(s, tid);
    var unused := FreshInode(s.files.Keys);
    var open := OpenTemp(tid, if tmp in s.dir then s.dir[tmp] else unused);
    RunOne(c, init, steps, open);
    StepKeepsInv(c, s, open);
    var rest := WriterLoses(c, init, steps + [open], tid, root, db);
    more := [open] + rest;
    assert steps + more == steps + [open] + rest;
  }

  lemma {:induction false} FreshInode(used: set<nat>) returns (i: nat)
    ensures forall j :: j in used ==> j < i
    decreases |used|
  {
    i := 0;
    if used != {} {
      var j :| j in used;
      var rest := FreshInode(used - {j});
      assert forall k :: k in used ==> k == j || k in used - {j};
      i := if rest > j then rest else j + 1;
    }
  }

  /** A call that will not have the entry in what it writes. */
  lemma CallLoses(c: Codec, init: State, steps: seq<Step>, tid: nat, root: string, db: string)
    returns (more: seq<Step>)
    requires c.RoundTrips() && Run(c, init, steps).Some?
    requires var s := Run(c, init, steps).value;
             Inv(c, s) && tid in s.threads && !ThreadHas(c, s, s.threads[tid], root, db)
    ensures Run(c, init, steps + more).Some? && !TargetHas(c, Run(c, init, steps + more).value, root, db)
    ensures AllSpare(more, root, db)
  {
    hide Run, TargetHas, Inv, Enabled, Next, Spares;
    var s := Run(c, init, steps).value;
    match s.threads[tid].work
    case Reading(_, _) => more := ReaderLoses(c, init, steps, tid, root, db);
    case Ready(_) => more := ReadyLoses(c, init, steps, tid, root, db);
    case Writing(_, _, _, _) => more := WriterLoses(c, init, steps, tid, root, db);
  }

  lemma ReaderLoses(c: Codec, init: State, steps: seq<Step>, tid: nat, root: string, db: string)
    returns (more: seq<Step>)
    requires c.RoundTrips() && Run(c, init, steps).Some?
    requires var s := Run(c, init, steps).value;
             && Inv(c, s) && tid in s.threads && s.threads[tid].work.Reading?
             && !ThreadHas(c, s, s.threads[tid], root, db)
    ensures Run(c, init, steps + more).Some? && !TargetHas(c, Run(c, init, steps + more).value, root, db)
    ensures AllSpare(more, root, db)
  {
    hide Run, TargetHas, DirOk, TempsDiffer, AllRegistered;
    var s := Run(c, init, steps).value;
    var work := s.threads[tid].work;
    assert ThreadOk(c, s, s.threads[tid]);
    var head: seq<Step> := [];
    var now := s;
    if work.from.Some? {
      var read := ReadSome(tid, |s.files[work.from.value]| - |work.got|);
      RunOne(c, init, steps, read);
      StepKeepsInv(c, s, read);
      now, head := Next(c, s, read), [read];
      assert now.threads[tid].work.got == s.files[work.from.value];
    } else {
      assert steps + [] == steps;
    }
    ReadsWithout(c, now, tid, root, db);
    RunOne(c, init, steps + head, ReadDone(tid));
    StepKeepsInv(c, now, ReadDone(tid));
    var rest := ReadyLoses(c, init, steps + head + [ReadDone(tid)], tid, root, db);
    more := head + [ReadDone(tid)] + rest;
    assert steps + more == steps + head + [ReadDone(tid)] + rest;
  }

  /** What a finished read without the entry leaves at hand. */
  lemma ReadsWithout(c: Codec, s: State, tid: nat, root: string, db: string)
    requires c.RoundTrips() && Inv(c, s) && Enabled(c, s, ReadDone(tid))
    requires !ThreadHas(c, s, s.threads[tid], root, db)
    ensures var s' := Next(c, s, ReadDone(tid));
            tid in s'.threads && s'.threads[tid].work.Ready? && !Has(s'.threads[tid].work.reg, root, db)
  {
    assert ThreadOk(c, s, s.threads[tid]);
    if s.threads[tid].work.from.Some? {
      ReadsAreComplete(c, s, tid);
      assert s.threads[tid].work.got == s.files[s.threads[tid].work.from.value];
    }
  }

  // ---------------------------------------------------------------------------------------
  // One call alone
  // ---------------------------------------------------------------------------------------

  /** What the registry file holds; nothing when there is no file. */
  function Current(c: Codec, s: State): Registry {
    if Target in s.dir && s.dir[Target] in s.files && c.parse(s.files[s.dir[Target]]).Some?
    then c.parse(s.files[s.dir[Target]]).value else map[]
  }

  /** Opening a temp file, writing all of a map and renaming puts the map into the file. */
  lemma SaveLeaves(c: Codec, s: State, tid: nat, inode: nat)
    requires c.RoundTrips() && Enabled(c, s, OpenTemp(tid, inode))
    ensures var data := c.ser(s.threads[tid].work.reg);
            var s1 := Next(c, s, OpenTemp(tid, inode));
            && Enabled(c, s1, WriteSome(tid, |data|))
            && var s2 := Next(c, s1, WriteSome(tid, |data|));
               && Enabled(c, s2, Rename(tid))
               && var now := Next(c, s2, Rename(tid));
                  Current(c, now) == s.threads[tid].work.reg && now.threads == s.threads - {tid} && now.live == s.live
  {
    var data := c.ser(s.threads[tid].work.reg);
    var s2 := Next(c, Next(c, s, OpenTemp(tid, inode)), WriteSome(tid, |data|));
    assert [] + data[0..|data|] == data;
    assert s2.files[inode] == data;
    assert Next(c, s2, Rename(tid)).threads == s.threads - {tid};
  }

  /** A call that is ready saves its map: then the file holds that map. */
  lemma SavesMap(c: Codec, init: State, steps: seq<Step>, tid: nat) returns (more: seq<Step>)
    requires c.RoundTrips() && Run(c, init, steps).Some?
    requires var s := Run(c, init, steps).value; Inv(c, s) && tid in s.threads && s.threads[tid].work.Ready?
    ensures Run(c, init, steps + more).Some?
    ensures var s, now := Run(c, init, steps).value, Run(c, init, steps + more).value;
            Current(c, now) == s.threads[tid].work.reg && now.threads == s.threads - {tid} && now.live == s.live
  {
    hide Run, PublishedOk, TempsDiffer, AllRegistered, Current;
    var s := Run(c, init, steps).value;
    assert ThreadOk(c, s, s.threads[tid]);
    var tmp := TempOf(s, tid);
    var unused := FreshInode(s.files.Keys);
    var inode := if tmp in s.dir then s.dir[tmp] else unused;
    var open, write, rename := OpenTemp(tid, inode), WriteSome(tid, |c.ser(s.threads[tid].work.reg)|), Rename(tid);
    assert Enabled(c, s, open);
    SaveLeaves(c, s, tid, inode);
    hide Next, Enabled, Inv;
    RunOne(c, init, steps, open);
    RunOne(c, init, steps + [open], write);
    RunOne(c, init, steps + [open] + [write], rename);
    more := [open, write, rename];
    assert steps + more == steps + [open] + [write] + [rename];
  }

  /** A call that starts and reads all there is before anyone else moves has read the file. */
  lemma ReadsAll(c: Codec, s: State, tid: nat, pid: nat, root: string, db: string) returns (steps: seq<Step>)
    requires c.RoundTrips() && Inv(c, s) && tid !in s.threads && pid in s.nonce
    ensures Run(c, s, steps).Some?
    ensures var now := Run(c, s, steps).value;
            && Inv(c, now) && now.live == s.live && now.files == s.files && Enabled(c, now, ReadDone(tid))
            && now.threads == s.threads[tid := Thread(pid, root, db,
                 Reading(Found(s.dir, Target), if Target in s.dir && s.dir[Target] in s.files then s.files[s.dir[Target]] else []))]
  {
    hide TempsDiffer, AllRegistered, ThreadOk, Complete;
    assert Run(c, s, []) == Some(s);
    hide Run;
    var start := Start(tid, pid, root, db);
    RunOne(c, s, [], start);
    StepKeepsInv(c, s, start);
    var s1 := Next(c, s, start);
    steps := [] + [start];
    if Target in s.dir {
      var read := ReadSome(tid, |s.files[s.dir[Target]]|);
      RunOne(c, s, steps, read);
      StepKeepsInv(c, s1, read);
      steps := steps + [read];
      var data := s.files[s.dir[Target]];
      assert [] + data[0..|data|] == data;
      assert Next(c, s1, read).threads == s.threads[tid := Thread(pid, root, db, Reading(Some(s.dir[Target]), data))];
    }
  }

  /** It is then ready with what the file held, less the entries whose index is gone, and its own. */
  lemma ReadsFile(c: Codec, s: State, tid: nat, pid: nat, root: string, db: string) returns (steps: seq<Step>)
    requires c.RoundTrips() && Inv(c, s) && tid !in s.threads && pid in s.nonce
    ensures Run(c, s, steps).Some?
    ensures var now := Run(c, s, steps).value;
            && Inv(c, now) && now.live == s.live
            && now.threads == s.threads[tid := Thread(pid, root, db, Ready(Prune(Current(c, s), s.live)[root := db]))]
  {
    hide Run, Inv;
    steps := ReadsAll(c, s, tid, pid, root, db);
    var now := Run(c, s, steps).value;
    RunOne(c, s, steps, ReadDone(tid));
    StepKeepsInv(c, now, ReadDone(tid));
    FileParses(c, s);
    ReadLeaves(c, s, now, tid);
    steps := steps + [ReadDone(tid)];
  }

  lemma FileParses(c: Codec, s: State)
    requires Inv(c, s)
    ensures Target in s.dir ==> s.dir[Target] in s.files && c.parse(s.files[s.dir[Target]]).Some?
  {
    hide TempsDiffer, ThreadOk, AllRegistered;
    if Target in s.dir {
      assert s.dir[Target] in s.published;
    }
  }

  /** What a read of the whole file leaves. */
  lemma ReadLeaves(c: Codec, s: State, now: State, tid: nat)
    requires Enabled(c, now, ReadDone(tid)) && now.live == s.live
    requires Target in s.dir ==> s.dir[Target] in s.files && c.parse(s.files[s.dir[Target]]).Some?
    requires now.threads[tid].work ==
             Reading(Found(s.dir, Target), if Target in s.dir && s.dir[Target] in s.files then s.files[s.dir[Target]] else [])
    ensures var t := now.threads[tid];
            && Next(c, now, ReadDone(tid)).live == now.live
            && Next(c, now, ReadDone(tid)).threads
               == now.threads[tid := t.(work := Ready(Prune(Current(c, s), s.live)[t.root := t.db]))]
  {
    if Target !in s.dir {
      assert Prune(Current(c, s), s.live) == map[];
    }
  }

  /** `register` without interference, from any state: the file then holds exactly the new entry and, of the
      entries of other roots it held, those whose index exists. */
  lemma RegisterAlone(c: Codec, s: State, tid: nat, pid: nat, root: string, db: string) returns (steps: seq<Step>)
    requires c.RoundTrips() && Inv(c, s) && tid !in s.threads && pid in s.nonce
    ensures Run(c, s, steps).Some?
    ensures var now := Run(c, s, steps).value;
            && now.threads == s.threads && now.live == s.live
            && (forall k, v :: Has(Current(c, now), k, v) <==>
                  if k == root then v == db else Has(Current(c, s), k, v) && v in s.live)
  {
    hide Run, Inv, Current;
    var load := ReadsFile(c, s, tid, pid, root, db);
    var save := SavesMap(c, s, load, tid);
    steps := load + save;
    assert s.threads[tid := Run(c, s, load).value.threads[tid]] - {tid} == s.threads;
  }

  // ---------------------------------------------------------------------------------------
  // The lost update
  // ---------------------------------------------------------------------------------------

  /** Two index files, no registry, nobody running. */
  function Before(dbs: set<string>): State {
    State(map[], map[], map[], map[], dbs, {}, {})
  }

  /** Two calls of one process both find no file. */
  lemma BothRead(c: Codec, a: string, b: string, da: string, db: string) returns (steps: seq<Step>)
    requires a != b
    ensures Run(c, Before({da, db}), steps) ==
            Some(State(map[], map[], map[0 := 0],
                       map[0 := Thread(0, a, da, Ready(map[a := da])), 1 := Thread(0, b, db, Ready(map[b := db]))],
                       {da, db}, {(a, da), (b, db)}, {}))
    ensures AllSpare(steps, a, da)
  {
    var init := Before({da, db});
    assert Run(c, init, []) == Some(init);
    hide Run;
    RunOne(c, init, [], Spawn(0));
    var s1 := Next(c, init, Spawn(0));
    var r1 := [] + [Spawn(0)];
    RunOne(c, init, r1, Start(0, 0, a, da));
    var s2 := Next(c, s1, Start(0, 0, a, da));
    var r2 := r1 + [Start(0, 0, a, da)];
    RunOne(c, init, r2, Start(1, 0, b, db));
    var s3 := Next(c, s2, Start(1, 0, b, db));
    var r3 := r2 + [Start(1, 0, b, db)];
    RunOne(c, init, r3, ReadDone(0));
    var s4 := Next(c, s3, ReadDone(0));
    var r4 := r3 + [ReadDone(0)];
    RunOne(c, init, r4, ReadDone(1));
    steps := r4 + [ReadDone(1)];
    assert Next(c, s4, ReadDone(1)).registered == {(a, da), (b, db)};
    assert Next(c, s4, ReadDone(1)).threads ==
        map[0 := Thread(0, a, da, Ready(map[a := da])), 1 := Thread(0, b, db, Ready(map[b := db]))];
  }

  /** Nobody starts a call or finishes reading, and no index file changes. */
  predicate OnlySaves(steps: seq<Step>) {
    forall i :: 0 <= i < |steps| ==> steps[i].OpenTemp? || steps[i].WriteSome? || steps[i].Rename?
  }

  /** A call that is ready saves its map. */
  lemma Saves(c: Codec, init: State, steps: seq<Step>, tid: nat, inode: nat) returns (more: seq<Step>)
    requires Run(c, init, steps).Some?
    requires var s := Run(c, init, steps).value;
             && tid in s.threads && s.threads[tid].work.Ready? && s.threads[tid].pid in s.nonce
             && TempOf(s, tid) !in s.dir && inode !in s.files
    ensures Run(c, init, steps + more).Some?
    ensures var s, now := Run(c, init, steps).value, Run(c, init, steps + more).value;
            && now.dir == s.dir[Target := inode]
            && now.files == s.files[inode := c.ser(s.threads[tid].work.reg)]
            && now.nonce == s.nonce[s.threads[tid].pid := s.nonce[s.threads[tid].pid] + 1]
            && now.threads == s.threads - {tid} && now.live == s.live
    ensures OnlySaves(more)
  {
    hide Run;
    var s := Run(c, init, steps).value;
    var data := c.ser(s.threads[tid].work.reg);
    var open, write, rename := OpenTemp(tid, inode), WriteSome(tid, |data|), Rename(tid);
    RunOne(c, init, steps, open);
    var s1 := Next(c, s, open);
    RunOne(c, init, steps + [open], write);
    var s2 := Next(c, s1, write);
    assert s2.files[inode] == data;
    RunOne(c, init, steps + [open] + [write], rename);
    more := [open, write, rename];
    assert steps + more == steps + [open] + [write] + [rename];
    assert s2.files == s.files[inode := data];
    assert s2.dir - {TempOf(s, tid)} == s.dir;
  }

  /** The update the program accepts losing. Two calls read before either writes: `read` leaves both
      with a map and no file. Then each only saves: after the first the entry is in the file, after the
      second it is gone, though its index stayed in place and nobody registered its root elsewhere. */
  lemma UpdateCanBeLost(c: Codec, a: string, b: string, da: string, db: string)
    returns (read: seq<Step>, first: seq<Step>, second: seq<Step>)
    requires c.RoundTrips() && a != b
    ensures Fresh(Before({da, db}))
    ensures Run(c, Before({da, db}), read).Some? && Run(c, Before({da, db}), read + first).Some?
    ensures Run(c, Before({da, db}), read + first + second).Some?
    ensures var both := Run(c, Before({da, db}), read).value;
            && Target !in both.dir && both.threads.Keys == {0, 1}
            && both.threads[0] == Thread(0, a, da, Ready(map[a := da]))
            && both.threads[1] == Thread(0, b, db, Ready(map[b := db]))
    ensures OnlySaves(first) && OnlySaves(second) && AllSpare(read + first + second, a, da)
    ensures TargetHas(c, Run(c, Before({da, db}), read + first).value, a, da)
    ensures var end := Run(c, Before({da, db}), read + first + second).value;
            end.threads == map[] && da in end.live && TargetHas(c, end, b, db) && !TargetHas(c, end, a, da)
  {
    var init := Before({da, db});
    read := BothRead(c, a, b, da, db);
    hide Run, Next, Enabled;
    first := Saves(c, init, read, 0, 0);
    second := Saves(c, init, read + first, 1, 1);
  }
}
