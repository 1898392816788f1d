/** Every interleaving of the tasks that fill the caches of `oci.rs`: one lock for each final
    file name, taken around looking, removing, fetching and publishing. A cancelled task lets go
    of its lock at once, but a file operation it has handed over may still run. */
module CacheTasks {
  import opened Wrappers
  import opened BlobCache

  type TaskId = nat

  datatype Phase =
    | Waiting
    | Looking
    | Removing
    | Fetching
    | Writing(path: Path, got: Bytes)
    | Finished(ok: bool)

  datatype Task = Task(request: Request, phase: Phase)

  /** What cancelled tasks have left to the file system to do: to remove an entry, as a directory
      or as a file by what it was found to be, or to create a work file. */
  datatype LateOp = LateRemove(key: Key, directory: bool) | LateCreate(path: Path)

  /** `touched` names the entries that something outside the cache put there or changed since
      the cache last published or removed them; `orphans` the work files that a cancelled
      creation made for no task. */
  datatype System = System(
    files: map<Path, Node>, tasks: map<TaskId, Task>, locks: map<Key, TaskId>, touched: set<Key>,
    late: set<LateOp>, orphans: set<Path>)

  datatype Step =
    | Begin(task: TaskId, request: Request)
    | Acquire(task: TaskId)
    | Look(task: TaskId, readable: bool)
    | Remove(task: TaskId)
    | Create(task: TaskId, unique: nat)
    | Write(task: TaskId, bytes: Bytes)
    | Rename(task: TaskId, raw: Bytes, cancelled: bool)
    | Fail(task: TaskId)
    | CancelRemoving(task: TaskId, directory: bool)
    | CancelCreating(task: TaskId, unique: nat)
    | RunsLate(op: LateOp)
    | Touch(key: Key, node: Option<Node>)

  predicate Critical(phase: Phase) {
    phase.Looking? || phase.Removing? || phase.Fetching? || phase.Writing?
  }

  function Entry(s: System, key: Key): Option<Node> {
    if Final(key) in s.files then Some(s.files[Final(key)]) else None
  }

  predicate In(s: System, t: TaskId, phase: Phase) {
    t in s.tasks && s.tasks[t].phase == phase
  }

  function KeyFor(s: System, t: TaskId): Key
    requires t in s.tasks
  {
    KeyOf(s.tasks[t].request)
  }

  predicate IsFullDirectory(node: Option<Node>) {
    node == Some(Directory(false))
  }

  /** A task may fail at any point, by an error or by its own cancellation; a failing task that
      has a work file removes it. A rename in flight when its task is cancelled happens before
      that removal, or finds nothing to rename and is no step. */
  predicate Enabled(hash: Hash, s: System, step: Step) {
    match step
    case Begin(t, _) => t !in s.tasks
    case Acquire(t) => In(s, t, Waiting) && KeyFor(s, t) !in s.locks
    case Look(t, _) => In(s, t, Looking)
    case Remove(t) => In(s, t, Removing) && !IsFullDirectory(Entry(s, KeyFor(s, t)))
    case Create(t, unique) => In(s, t, Fetching) && Partial(KeyFor(s, t), unique) !in s.files
    case Write(t, bytes) =>
      t in s.tasks && s.tasks[t].phase.Writing? && Fits(s.tasks[t].request, s.tasks[t].phase.got + bytes)
    case Rename(t, raw, _) =>
      && t in s.tasks && s.tasks[t].phase.Writing?
      && (s.tasks[t].request.BlobRequest? ==> raw == s.tasks[t].phase.got)
      && Refusal(hash, s.tasks[t].request, raw, s.tasks[t].phase.got).None?
      && (var node := Entry(s, KeyFor(s, t)); node.Some? ==> !node.value.Directory?)
    case Fail(t) => t in s.tasks && !s.tasks[t].phase.Finished?
    case CancelRemoving(t, _) => In(s, t, Removing)
    case CancelCreating(t, _) => In(s, t, Fetching)
    case RunsLate(op) => op in s.late
    case Touch(_, _) => true
  }

  function InPhase(s: System, t: TaskId, phase: Phase): System
    requires t in s.tasks
  {
    s.(tasks := s.tasks[t := s.tasks[t].(phase := phase)])
  }

  /** The task ends and, if it held its lock, lets go of it. */
  function Ended(s: System, t: TaskId, ok: bool): System
    requires t in s.tasks
  {
    InPhase(
      s.(locks := if Critical(s.tasks[t].phase) then s.locks - {KeyFor(s, t)} else s.locks), t, Finished(ok))
  }

  function Looked(s: System, t: TaskId, state: Result<FileState, CacheError>): System
    requires t in s.tasks
  {
    match state
    case Err(_) => Ended(s, t, false)
    case Ok(Valid) => Ended(s, t, true)
    case Ok(Corrupt) => InPhase(s, t, Removing)
    case Ok(Missing) => InPhase(s, t, Fetching)
  }

  function Removed(s: System, key: Key): System {
    s.(files := s.files - {Final(key)}, touched := s.touched - {key})
  }

  function Published(s: System, path: Path, key: Key): System {
    var moved := if path in s.files then s.files[path] else Special;
    s.(files := (s.files - {path})[Final(key) := moved], touched := s.touched - {key})
  }

  function RunLate(s: System, op: LateOp): System {
    match op
    case LateRemove(key, directory) =>
      var entry := Entry(s, key);
      if entry.Some? && entry.value.Directory? == directory && !IsFullDirectory(entry)
      then s.(files := s.files - {Final(key)}) else s
    case LateCreate(path) =>
      if path in s.files then s else s.(files := s.files[path := File([])], orphans := s.orphans + {path})
  }

  function Next(hash: Hash, s: System, step: Step): System
    requires Enabled(hash, s, step)
  {
    match step
    case Begin(t, request) => s.(tasks := s.tasks[t := Task(request, Waiting)])
    case Acquire(t) => InPhase(s.(locks := s.locks[KeyFor(s, t) := t]), t, Looking)
    case Look(t, readable) =>
      Looked(s, t, Verify(hash, s.tasks[t].request, Entry(s, KeyFor(s, t)), readable))
    case Remove(t) => InPhase(Removed(s, KeyFor(s, t)), t, Fetching)
    case Create(t, unique) =>
      var path := Partial(KeyFor(s, t), unique);
      InPhase(s.(files := s.files[path := File([])]), t, Writing(path, []))
    case Write(t, bytes) =>
      var path, next := s.tasks[t].phase.path, s.tasks[t].phase.got + bytes;
      InPhase(s.(files := s.files[path := File(next)]), t, Writing(path, next))
    case Rename(t, _, cancelled) => Ended(Published(s, s.tasks[t].phase.path, KeyFor(s, t)), t, !cancelled)
    case Fail(t) =>
      var cleaned := if s.tasks[t].phase.Writing? then s.files - {s.tasks[t].phase.path} else s.files;
      Ended(s.(files := cleaned), t, false)
    case CancelRemoving(t, directory) => Ended(s.(late := s.late + {LateRemove(KeyFor(s, t), directory)}), t, false)
    case CancelCreating(t, unique) =>
      Ended(s.(late := s.late + {LateCreate(Partial(KeyFor(s, t), unique))}), t, false)
    case RunsLate(op) => RunLate(s.(late := s.late - {op}), op)
    case Touch(key, node) =>
      s.(files := if node.Some? then s.files[Final(key) := node.value] else s.files - {Final(key)},
         touched := s.touched + {key})
  }

  // ----- What every interleaving keeps

  /** The lock is held exactly by the task inside. */
  ghost predicate LocksHeld(tasks: map<TaskId, Task>, locks: map<Key, TaskId>) {
    && (forall t <- tasks :: Critical(tasks[t].phase) ==> Holds(tasks, locks, t))
    && (forall key <- locks :: locks[key] in tasks && Inside(tasks[locks[key]], key))
  }

  predicate Holds(tasks: map<TaskId, Task>, locks: map<Key, TaskId>, t: TaskId)
    requires t in tasks
  {
    KeyOf(tasks[t].request) in locks && locks[KeyOf(tasks[t].request)] == t
  }

  predicate Inside(task: Task, key: Key) {
    Critical(task.phase) && KeyOf(task.request) == key
  }

  /** A work file holds what its task has received. */
  ghost predicate WorkFilesHold(files: map<Path, Node>, tasks: map<TaskId, Task>, orphans: set<Path>) {
    forall t <- tasks :: tasks[t].phase.Writing? ==>
      HoldsReceived(files, tasks[t]) && tasks[t].phase.path !in orphans
  }

  predicate HoldsReceived(files: map<Path, Node>, task: Task)
    requires task.phase.Writing?
  {
    && task.phase.path.Partial? && task.phase.path.key == KeyOf(task.request)
    && task.phase.path in files && files[task.phase.path] == File(task.phase.got)
    && (task.phase.got != [] ==> Fits(task.request, task.phase.got))
  }

  /** Every work file is an orphan, or that of the task holding its lock. */
  ghost predicate WorkFilesOwned(
    files: map<Path, Node>, tasks: map<TaskId, Task>, locks: map<Key, TaskId>, orphans: set<Path>)
  {
    && (forall path <- files :: path.Partial? && path !in orphans ==>
          path.key in locks && OwnedBy(tasks, path, locks[path.key]))
    && (forall path <- orphans :: path in files && path.Partial?)
  }

  predicate OwnedBy(tasks: map<TaskId, Task>, path: Path, t: TaskId) {
    t in tasks && tasks[t].phase.Writing? && tasks[t].phase.path == path
  }

  ghost predicate LateCreatesPartials(late: set<LateOp>) {
    forall op <- late :: op.LateCreate? ==> op.path.Partial?
  }

  /** What the cache put under a final name is what some task asked for: its digest, and its
      size or limit. */
  ghost predicate FinalsVouched(hash: Hash, s: System) {
    forall path <- s.files :: path.Final? && path.key !in s.touched ==>
      s.files[path].File? && Vouched(hash, s.tasks, path.key, s.files[path].content)
  }

  ghost predicate Vouched(hash: Hash, tasks: map<TaskId, Task>, key: Key, content: Bytes) {
    exists t :: t in tasks && AskedFor(hash, tasks[t], key, content)
  }

  ghost predicate AskedFor(hash: Hash, task: Task, key: Key, content: Bytes) {
    task.phase.Finished? && KeyOf(task.request) == key && Satisfies(hash, task.request, content)
  }

  predicate PastLook(phase: Phase) {
    phase.Removing? || phase.Fetching? || phase.Writing?
  }

  /** A task past its look works on an entry that is absent or not the cache's own. */
  ghost predicate NothingToLose(s: System) {
    forall t <- s.tasks :: PastLook(s.tasks[t].phase) ==> Spare(s, KeyFor(s, t))
  }

  predicate Spare(s: System, key: Key) {
    Entry(s, key).None? || key in s.touched
  }

  ghost predicate Inv(hash: Hash, s: System) {
    && LocksHeld(s.tasks, s.locks)
    && WorkFilesHold(s.files, s.tasks, s.orphans)
    && WorkFilesOwned(s.files, s.tasks, s.locks, s.orphans)
    && LateCreatesPartials(s.late)
    && FinalsVouched(hash, s)
    && NothingToLose(s)
  }

  // ----- Locks

  lemma LocksMove(s: System, t: TaskId, phase: Phase)
    requires LocksHeld(s.tasks, s.locks)
    requires t in s.tasks && Critical(s.tasks[t].phase) == Critical(phase)
    ensures LocksHeld(InPhase(s, t, phase).tasks, InPhase(s, t, phase).locks)
  {
    var tasks := InPhase(s, t, phase).tasks;
    forall u <- tasks | Critical(tasks[u].phase) ensures Holds(tasks, s.locks, u) {
      assert Holds(s.tasks, s.locks, u);
    }
  }

  lemma LocksEnd(s: System, t: TaskId, ok: bool)
    requires LocksHeld(s.tasks, s.locks) && t in s.tasks
    ensures LocksHeld(Ended(s, t, ok).tasks, Ended(s, t, ok).locks)
  {
    var s' := Ended(s, t, ok);
    forall u <- s'.tasks | Critical(s'.tasks[u].phase) ensures Holds(s'.tasks, s'.locks, u) {
      assert Holds(s.tasks, s.locks, u);
      if Critical(s.tasks[t].phase) { assert Holds(s.tasks, s.locks, t); }
    }
    forall key <- s'.locks ensures s'.locks[key] in s'.tasks && Inside(s'.tasks[s'.locks[key]], key) {
      assert Inside(s.tasks[s.locks[key]], key);
    }
  }

  lemma LocksStay(hash: Hash, s: System, step: Step)
    requires LocksHeld(s.tasks, s.locks) && Enabled(hash, s, step)
    ensures LocksHeld(Next(hash, s, step).tasks, Next(hash, s, step).locks)
  {
    match step
    case Begin(t, _) =>
    case Acquire(t) =>
    case Look(t, _) =>
      LocksEnd(s, t, true);
      LocksEnd(s, t, false);
      LocksMove(s, t, Removing);
      LocksMove(s, t, Fetching);
    case Remove(t) => LocksMove(s, t, Fetching);
    case Create(t, unique) => LocksMove(s, t, Next(hash, s, step).tasks[t].phase);
    case Write(t, _) => LocksMove(s, t, Next(hash, s, step).tasks[t].phase);
    case Rename(t, _, cancelled) => LocksEnd(s, t, !cancelled);
    case Fail(t) => LocksEnd(s, t, false);
    case CancelRemoving(t, _) => LocksEnd(s, t, false);
    case CancelCreating(t, _) => LocksEnd(s, t, false);
    case RunsLate(_) =>
    case Touch(_, _) =>
  }

  // ----- Work files

  /** The step is of no task, or of one that has no work file before or after. */
  predicate LeavesWorkFiles(step: Step, s: System) {
    && !step.Create? && !step.Write? && !step.Rename?
    && (step.Fail? && step.task in s.tasks ==> !s.tasks[step.task].phase.Writing?)
  }

  ghost predicate SamePartials(files: map<Path, Node>, files': map<Path, Node>) {
    forall path: Path :: path.Partial? ==>
      && (path in files <==> path in files')
      && (path in files ==> files[path] == files'[path])
  }

  ghost predicate SameWriters(tasks: map<TaskId, Task>, tasks': map<TaskId, Task>) {
    && (forall t <- tasks :: tasks[t].phase.Writing? ==> t in tasks' && tasks'[t] == tasks[t])
    && (forall t <- tasks' :: tasks'[t].phase.Writing? ==> t in tasks && tasks[t] == tasks'[t])
  }

  ghost predicate WritersKeepLocks(tasks: map<TaskId, Task>, locks: map<Key, TaskId>, locks': map<Key, TaskId>) {
    forall key <- locks :: locks[key] in tasks && tasks[locks[key]].phase.Writing? ==>
      key in locks' && locks'[key] == locks[key]
  }

  lemma WorkFilesUntouched(s: System, s': System)
    requires WorkFilesHold(s.files, s.tasks, s.orphans) && WorkFilesOwned(s.files, s.tasks, s.locks, s.orphans)
    requires SamePartials(s.files, s'.files) && SameWriters(s.tasks, s'.tasks) && s'.orphans == s.orphans
    requires WritersKeepLocks(s.tasks, s.locks, s'.locks)
    ensures WorkFilesHold(s'.files, s'.tasks, s'.orphans)
    ensures WorkFilesOwned(s'.files, s'.tasks, s'.locks, s'.orphans)
  {
    forall t <- s'.tasks | s'.tasks[t].phase.Writing? ensures HoldsReceived(s'.files, s'.tasks[t]) {
      assert HoldsReceived(s.files, s.tasks[t]);
    }
    forall path <- s'.files | path.Partial? && path !in s'.orphans
      ensures path.key in s'.locks && OwnedBy(s'.tasks, path, s'.locks[path.key])
    {
      assert OwnedBy(s.tasks, path, s.locks[path.key]);
    }
  }

  lemma OthersKeepWriters(hash: Hash, s: System, step: Step)
    requires Enabled(hash, s, step) && LeavesWorkFiles(step, s)
    ensures SameWriters(s.tasks, Next(hash, s, step).tasks)
  {
  }

  lemma OthersKeepLocks(hash: Hash, s: System, step: Step)
    requires LocksHeld(s.tasks, s.locks) && Enabled(hash, s, step) && LeavesWorkFiles(step, s)
    ensures WritersKeepLocks(s.tasks, s.locks, Next(hash, s, step).locks)
  {
    var locks, locks' := s.locks, Next(hash, s, step).locks;
    forall key <- locks | locks[key] in s.tasks && s.tasks[locks[key]].phase.Writing?
      ensures key in locks' && locks'[key] == locks[key]
    {
      assert Inside(s.tasks[locks[key]], key);
    }
  }

  lemma OthersKeepPartials(hash: Hash, s: System, step: Step)
    requires Enabled(hash, s, step) && LeavesWorkFiles(step, s)
    requires step.RunsLate? ==> step.op.LateRemove?
    ensures SamePartials(s.files, Next(hash, s, step).files) && Next(hash, s, step).orphans == s.orphans
  {
  }

  /** The one task with a work file in hand, before or after its step. */
  lemma WriterAlone(s: System, t: TaskId, u: TaskId)
    requires LocksHeld(s.tasks, s.locks) && t in s.tasks && u in s.tasks
    requires Critical(s.tasks[t].phase) && Critical(s.tasks[u].phase) && KeyFor(s, t) == KeyFor(s, u)
    ensures t == u
  {
    assert Holds(s.tasks, s.locks, t) && Holds(s.tasks, s.locks, u);
  }

  /** A task changes its own work file, or makes one, and no other task's. */
  lemma OwnFileChanges(s: System, t: TaskId, path: Path, got: Bytes)
    requires LocksHeld(s.tasks, s.locks) && WorkFilesHold(s.files, s.tasks, s.orphans)
    requires WorkFilesOwned(s.files, s.tasks, s.locks, s.orphans)
    requires t in s.tasks && path.Partial? && path.key == KeyFor(s, t) && (got != [] ==> Fits(s.tasks[t].request, got))
    requires (In(s, t, Fetching) && path !in s.files) || (s.tasks[t].phase.Writing? && s.tasks[t].phase.path == path)
    ensures
      var s' := InPhase(s.(files := s.files[path := File(got)]), t, Writing(path, got));
      WorkFilesHold(s'.files, s'.tasks, s'.orphans) && WorkFilesOwned(s'.files, s'.tasks, s'.locks, s'.orphans)
  {
    var s' := InPhase(s.(files := s.files[path := File(got)]), t, Writing(path, got));
    assert Holds(s.tasks, s.locks, t);
    forall u <- s'.tasks | s'.tasks[u].phase.Writing? ensures HoldsReceived(s'.files, s'.tasks[u]) {
      if u != t {
        assert HoldsReceived(s.files, s.tasks[u]);
        if s.tasks[u].phase.path == path { WriterAlone(s, t, u); }
      }
    }
    forall p <- s'.files | p.Partial? && p !in s'.orphans
      ensures p.key in s'.locks && OwnedBy(s'.tasks, p, s'.locks[p.key])
    {
      if p != path {
        assert OwnedBy(s.tasks, p, s.locks[p.key]);
      }
    }
  }

  /** A task takes its work file away and ends. */
  lemma OwnFileGoes(s: System, s': System, t: TaskId)
    requires LocksHeld(s.tasks, s.locks) && WorkFilesHold(s.files, s.tasks, s.orphans)
    requires WorkFilesOwned(s.files, s.tasks, s.locks, s.orphans)
    requires t in s.tasks && s.tasks[t].phase.Writing? && s'.orphans == s.orphans
    requires s'.tasks.Keys == s.tasks.Keys && s'.tasks[t].phase.Finished?
    requires forall u <- s.tasks :: u != t ==> s'.tasks[u] == s.tasks[u]
    requires s'.locks == s.locks - {KeyFor(s, t)}
    requires s.tasks[t].phase.path !in s'.files && SamePartials(s.files - {s.tasks[t].phase.path}, s'.files)
    ensures WorkFilesHold(s'.files, s'.tasks, s'.orphans)
    ensures WorkFilesOwned(s'.files, s'.tasks, s'.locks, s'.orphans)
  {
    var path := s.tasks[t].phase.path;
    assert HoldsReceived(s.files, s.tasks[t]) && Holds(s.tasks, s.locks, t);
    forall u <- s'.tasks | s'.tasks[u].phase.Writing?
      ensures HoldsReceived(s'.files, s'.tasks[u])
    {
      assert HoldsReceived(s.files, s.tasks[u]);
      if s.tasks[u].phase.path == path { WriterAlone(s, t, u); }
    }
    forall p <- s'.files | p.Partial? && p !in s'.orphans
      ensures p.key in s'.locks && OwnedBy(s'.tasks, p, s'.locks[p.key])
    {
      assert OwnedBy(s.tasks, p, s.locks[p.key]);
    }
    forall p <- s'.orphans ensures p in s'.files {
      assert p in s.files && p != path;
    }
  }

  lemma OrphanMade(s: System, path: Path)
    requires WorkFilesHold(s.files, s.tasks, s.orphans) && WorkFilesOwned(s.files, s.tasks, s.locks, s.orphans)
    requires path.Partial? && path !in s.files
    ensures
      var files, orphans := s.files[path := File([])], s.orphans + {path};
      WorkFilesHold(files, s.tasks, orphans) && WorkFilesOwned(files, s.tasks, s.locks, orphans)
  {
    var files := s.files[path := File([])];
    forall t <- s.tasks | s.tasks[t].phase.Writing?
      ensures HoldsReceived(files, s.tasks[t]) && s.tasks[t].phase.path != path
    {
      assert HoldsReceived(s.files, s.tasks[t]);
    }
  }

  lemma WriterStays(hash: Hash, s: System, step: Step)
    requires Inv(hash, s) && Enabled(hash, s, step) && !LeavesWorkFiles(step, s)
    ensures WorkFilesHold(Next(hash, s, step).files, Next(hash, s, step).tasks, Next(hash, s, step).orphans)
    ensures WorkFilesOwned(Next(hash, s, step).files, Next(hash, s, step).tasks, Next(hash, s, step).locks,
                           Next(hash, s, step).orphans)
  {
    var t := step.task;
    if step.Create? {
      OwnFileChanges(s, t, Partial(KeyFor(s, t), step.unique), []);
    } else {
      assert HoldsReceived(s.files, s.tasks[t]);
      if step.Write? {
        OwnFileChanges(s, t, s.tasks[t].phase.path, s.tasks[t].phase.got + step.bytes);
      } else {
        OwnFileGoes(s, Next(hash, s, step), t);
      }
    }
  }

  lemma WorkFilesStay(hash: Hash, s: System, step: Step)
    requires Inv(hash, s) && Enabled(hash, s, step)
    ensures WorkFilesHold(Next(hash, s, step).files, Next(hash, s, step).tasks, Next(hash, s, step).orphans)
    ensures WorkFilesOwned(Next(hash, s, step).files, Next(hash, s, step).tasks, Next(hash, s, step).locks,
                           Next(hash, s, step).orphans)
  {
    if step.RunsLate? && step.op.LateCreate? {
      if step.op.path !in s.files { OrphanMade(s, step.op.path); }
    } else if LeavesWorkFiles(step, s) {
      OthersKeepWriters(hash, s, step);
      OthersKeepLocks(hash, s, step);
      OthersKeepPartials(hash, s, step);
      WorkFilesUntouched(s, Next(hash, s, step));
    } else {
      WriterStays(hash, s, step);
    }
  }

  // ----- Entries

  ghost predicate FinishedStay(tasks: map<TaskId, Task>, tasks': map<TaskId, Task>) {
    forall t <- tasks :: tasks[t].phase.Finished? ==> t in tasks' && tasks'[t] == tasks[t]
  }

  lemma FinishedNeverStep(hash: Hash, s: System, step: Step)
    requires Enabled(hash, s, step)
    ensures FinishedStay(s.tasks, Next(hash, s, step).tasks)
  {
  }

  lemma VouchedStays(hash: Hash, tasks: map<TaskId, Task>, tasks': map<TaskId, Task>, key: Key, content: Bytes)
    requires Vouched(hash, tasks, key, content) && FinishedStay(tasks, tasks')
    ensures Vouched(hash, tasks', key, content)
  {
    var t :| t in tasks && AskedFor(hash, tasks[t], key, content);
    assert tasks'[t] == tasks[t];
  }

  /** A complete publication: the entry is what its task's own request asked for. */
  lemma PublishedVouched(hash: Hash, s: System, step: Step)
    requires WorkFilesHold(s.files, s.tasks, s.orphans) && step.Rename? && Enabled(hash, s, step)
    ensures
      var key, s' := KeyFor(s, step.task), Next(hash, s, step);
      && s'.tasks[step.task].phase.Finished? && s'.tasks[step.task].request == s.tasks[step.task].request
      && Entry(s', key) == Some(File(s.tasks[step.task].phase.got))
      && Satisfies(hash, s.tasks[step.task].request, s.tasks[step.task].phase.got)
  {
    assert HoldsReceived(s.files, s.tasks[step.task]);
  }

  /** A final name changes only by something outside, by the removal of an entry that is not the
      cache's own, by a removal that a cancelled task left behind, or by a complete publication:
      a partial download is never seen under it. */
  lemma FinalChangesOnlyBy(hash: Hash, s: System, step: Step, key: Key)
    requires Inv(hash, s) && Enabled(hash, s, step) && !(step.Touch? && step.key == key)
    requires Entry(Next(hash, s, step), key) != Entry(s, key)
    ensures (step.RunsLate? && step.op.LateRemove? && step.op.key == key)
            || ((step.Remove? || step.Rename?) && KeyFor(s, step.task) == key && Spare(s, key))
    ensures Entry(Next(hash, s, step), key).Some? ==> step.Rename? && key !in Next(hash, s, step).touched
  {
    if !(step.RunsLate? && step.op.LateRemove? && step.op.key == key)
       && !((step.Remove? || step.Rename?) && KeyFor(s, step.task) == key)
    {
      PartialsAside(hash, s, step, key);
    }
    if step.Remove? || step.Rename? {
      assert PastLook(s.tasks[step.task].phase);
    }
  }

  /** Whatever else a step does, it does to work files. */
  lemma PartialsAside(hash: Hash, s: System, step: Step, key: Key)
    requires LateCreatesPartials(s.late) && WorkFilesHold(s.files, s.tasks, s.orphans) && Enabled(hash, s, step)
    requires !(step.RunsLate? && step.op.LateRemove? && step.op.key == key) && !(step.Touch? && step.key == key)
    requires !((step.Remove? || step.Rename?) && KeyFor(s, step.task) == key)
    ensures Entry(Next(hash, s, step), key) == Entry(s, key)
  {
    if (step.Write? || step.Rename? || step.Fail?) && s.tasks[step.task].phase.Writing? {
      assert HoldsReceived(s.files, s.tasks[step.task]);
    }
  }

  lemma TouchedGrowsOnlyBy(hash: Hash, s: System, step: Step, key: Key)
    requires Enabled(hash, s, step) && !(step.Touch? && step.key == key)
    ensures key in Next(hash, s, step).touched ==> key in s.touched
    ensures key in s.touched && key !in Next(hash, s, step).touched ==>
              (step.Remove? || step.Rename?) && KeyFor(s, step.task) == key
  {
  }

  lemma FinalsStay(hash: Hash, s: System, step: Step)
    requires Inv(hash, s) && Enabled(hash, s, step)
    ensures FinalsVouched(hash, Next(hash, s, step))
  {
    var s' := Next(hash, s, step);
    FinishedNeverStep(hash, s, step);
    forall path <- s'.files | path.Final? && path.key !in s'.touched
      ensures s'.files[path].File? && Vouched(hash, s'.tasks, path.key, s'.files[path].content)
    {
      FinalStays(hash, s, step, path.key);
    }
  }

  lemma FinalStays(hash: Hash, s: System, step: Step, key: Key)
    requires Inv(hash, s) && Enabled(hash, s, step) && FinishedStay(s.tasks, Next(hash, s, step).tasks)
    requires key !in Next(hash, s, step).touched && Entry(Next(hash, s, step), key).Some?
    ensures
      var entry := Entry(Next(hash, s, step), key);
      entry.value.File? && Vouched(hash, Next(hash, s, step).tasks, key, entry.value.content)
  {
    var s' := Next(hash, s, step);
    if step.Rename? && KeyFor(s, step.task) == key {
      PublishedVouched(hash, s, step);
      assert AskedFor(hash, s'.tasks[step.task], key, Entry(s', key).value.content);
    } else {
      if Entry(s', key) != Entry(s, key) { FinalChangesOnlyBy(hash, s, step, key); }
      TouchedGrowsOnlyBy(hash, s, step, key);
      assert Final(key) in s.files;
      VouchedStays(hash, s.tasks, s'.tasks, key, s.files[Final(key)].content);
    }
  }

  lemma SpareStays(hash: Hash, s: System, step: Step, key: Key)
    requires Inv(hash, s) && Enabled(hash, s, step) && Spare(s, key)
    requires !(step.Rename? && KeyFor(s, step.task) == key)
    ensures Spare(Next(hash, s, step), key)
  {
    if step != Touch(key, None) && !(step.Touch? && step.key == key) {
      TouchedGrowsOnlyBy(hash, s, step, key);
      if Entry(Next(hash, s, step), key) != Entry(s, key) { FinalChangesOnlyBy(hash, s, step, key); }
    }
  }

  lemma CorruptIsSpare(hash: Hash, s: System, t: TaskId, readable: bool)
    requires FinalsVouched(hash, s) && t in s.tasks
    requires Verify(hash, s.tasks[t].request, Entry(s, KeyFor(s, t)), readable) in {Ok(Corrupt), Ok(Missing)}
    ensures Spare(s, KeyFor(s, t))
  {
    var key := KeyFor(s, t);
    VerifiedExactly(hash, s.tasks[t].request, Entry(s, key), readable);
  }

  lemma NothingToLoseStays(hash: Hash, s: System, step: Step)
    requires Inv(hash, s) && Enabled(hash, s, step)
    ensures NothingToLose(Next(hash, s, step))
  {
    var s' := Next(hash, s, step);
    forall t <- s'.tasks | PastLook(s'.tasks[t].phase) ensures Spare(s', KeyFor(s', t)) {
      PastLookSpare(hash, s, step, t);
    }
  }

  lemma PastLookSpare(hash: Hash, s: System, step: Step, t: TaskId)
    requires Inv(hash, s) && Enabled(hash, s, step)
    requires t in Next(hash, s, step).tasks && PastLook(Next(hash, s, step).tasks[t].phase)
    ensures Spare(Next(hash, s, step), KeyFor(Next(hash, s, step), t))
  {
    StillInside(hash, s, step, t);
    if step.Rename? && KeyFor(s, step.task) == KeyFor(s, t) {
      WriterAlone(s, step.task, t);
    } else {
      if s.tasks[t].phase.Looking? { CorruptIsSpare(hash, s, t, step.readable); }
      SpareStays(hash, s, step, KeyFor(s, t));
    }
  }

  lemma StillInside(hash: Hash, s: System, step: Step, t: TaskId)
    requires Enabled(hash, s, step)
    requires t in Next(hash, s, step).tasks && PastLook(Next(hash, s, step).tasks[t].phase)
    ensures t in s.tasks && s.tasks[t].request == Next(hash, s, step).tasks[t].request
    ensures PastLook(s.tasks[t].phase)
            || (step.Look? && step.task == t && s.tasks[t].phase.Looking?
                && Verify(hash, s.tasks[t].request, Entry(s, KeyFor(s, t)), step.readable)
                   in {Ok(Corrupt), Ok(Missing)})
    ensures step.Rename? ==> step.task != t
  {
  }

  lemma InvStays(hash: Hash, s: System, step: Step)
    requires Inv(hash, s) && Enabled(hash, s, step)
    ensures Inv(hash, Next(hash, s, step))
  {
    LocksStay(hash, s, step);
    WorkFilesStay(hash, s, step);
    FinalsStay(hash, s, step);
    NothingToLoseStays(hash, s, step);
    LateStays(hash, s, step);
  }

  lemma LateStays(hash: Hash, s: System, step: Step)
    requires LateCreatesPartials(s.late) && Enabled(hash, s, step)
    ensures LateCreatesPartials(Next(hash, s, step).late)
  {
  }

  // ----- What the invariant gives

  lemma OneTaskInside(hash: Hash, s: System, t: TaskId, u: TaskId)
    requires Inv(hash, s) && t in s.tasks && u in s.tasks
    requires Critical(s.tasks[t].phase) && Critical(s.tasks[u].phase)
    requires KeyFor(s, t) == KeyFor(s, u)
    ensures t == u
  {
    WriterAlone(s, t, u);
  }

  /** The work files are exactly those of the tasks that are receiving, and the orphans. So a
      failed task has left none, unless it was cancelled while its file was being created. */
  lemma WorkFilesExactly(hash: Hash, s: System, path: Path)
    requires Inv(hash, s) && path.Partial?
    ensures path in s.files <==> path in s.orphans || exists t :: OwnedBy(s.tasks, path, t)
    ensures !(path in s.orphans && exists t :: OwnedBy(s.tasks, path, t))
  {
    if path in s.files && path !in s.orphans {
      assert OwnedBy(s.tasks, path, s.locks[path.key]);
    }
    if t :| OwnedBy(s.tasks, path, t) {
      assert HoldsReceived(s.files, s.tasks[t]);
    }
  }

  /** An orphan is only ever made by a creation that outlived its task. */
  lemma OrphansOnlyBy(hash: Hash, s: System, step: Step, path: Path)
    requires Enabled(hash, s, step)
    ensures path in Next(hash, s, step).orphans <==>
            path in s.orphans || (step == RunsLate(LateCreate(path)) && path !in s.files)
    ensures LateCreate(path) in Next(hash, s, step).late && LateCreate(path) !in s.late ==>
              step.CancelCreating? && path == Partial(KeyFor(s, step.task), step.unique)
  {
  }

  predicate Succeeds(hash: Hash, s: System, step: Step, t: TaskId)
    requires Enabled(hash, s, step)
  {
    In(Next(hash, s, step), t, Finished(true)) && !In(s, t, Finished(true))
  }

  /** The moment a task succeeds, the final name holds what that task's own request asked for. */
  lemma SuccessIsVerified(hash: Hash, s: System, step: Step, t: TaskId)
    requires Inv(hash, s) && Enabled(hash, s, step) && Succeeds(hash, s, step, t)
    ensures
      var entry := Entry(Next(hash, s, step), KeyFor(s, t));
      entry.Some? && entry.value.File? && Satisfies(hash, s.tasks[t].request, entry.value.content)
  {
    if step.Look? {
      VerifiedExactly(hash, s.tasks[t].request, Entry(s, KeyFor(s, t)), step.readable);
    } else {
      PublishedVouched(hash, s, step);
    }
  }

  /** Nothing but the task itself and its lock. */
  predicate OnlyTaskMoves(s: System, s': System, t: TaskId) {
    && s'.files == s.files && s'.touched == s.touched && s'.late == s.late && s'.orphans == s.orphans
    && s'.tasks.Keys == s.tasks.Keys
    && forall u <- s.tasks :: u != t ==> s'.tasks[u] == s.tasks[u]
  }

  /** What a task does about what it finds: it is done with what it asked for, fetches what is
      missing, removes what is corrupt and gives up on the rest. */
  lemma LookOutcome(hash: Hash, s: System, t: TaskId, readable: bool)
    requires Enabled(hash, s, Look(t, readable))
    ensures
      var s' := Next(hash, s, Look(t, readable));
      var r, key, entry := s.tasks[t].request, KeyFor(s, t), Entry(s, KeyFor(s, t));
      var tooLong := r.LayerRequest? && entry.Some? && entry.value.File? && |entry.value.content| > r.limit;
      && OnlyTaskMoves(s, s', t) && s'.tasks[t].request == r
      && s'.tasks[t].phase ==
         (if entry.None? then Fetching
          else if !entry.value.File? then Removing
          else if tooLong || !readable then Finished(false)
          else if !Matches(hash, key, entry.value.content) then Removing
          else Finished(Satisfies(hash, r, entry.value.content)))
      && s'.locks == if s'.tasks[t].phase.Finished? then s.locks - {key} else s.locks
  {
    VerifiedExactly(hash, s.tasks[t].request, Entry(s, KeyFor(s, t)), readable);
  }

  /** A task with nothing in its way gets a blob the registry has: create, write and rename are
      open to it in turn, after which it has succeeded, the entry is the blob and the lock is free. */
  lemma FetchSucceeds(hash: Hash, s: System, t: TaskId, unique: nat, blob: Bytes)
    requires In(s, t, Fetching) && s.tasks[t].request.BlobRequest?
    requires Partial(KeyFor(s, t), unique) !in s.files
    requires Entry(s, KeyFor(s, t)).Some? ==> !Entry(s, KeyFor(s, t)).value.Directory?
    requires Size(blob) == s.tasks[t].request.descriptor.size && hash(blob) == s.tasks[t].request.descriptor.digest
    ensures Enabled(hash, s, Create(t, unique))
    ensures Enabled(hash, Next(hash, s, Create(t, unique)), Write(t, blob))
    ensures
      var written := Next(hash, Next(hash, s, Create(t, unique)), Write(t, blob));
      && Enabled(hash, written, Rename(t, blob, false))
      && (var s' := Next(hash, written, Rename(t, blob, false));
          && In(s', t, Finished(true))
          && s'.files == s.files[Final(KeyFor(s, t)) := File(blob)]
          && s'.locks == s.locks - {KeyFor(s, t)})
  {
    assert [] + blob == blob;
    var path := Partial(KeyFor(s, t), unique);
    var files := s.files[path := File([])];
    assert files[path := File(blob)] - {path} == s.files;
  }

  /** Removing and failing: the entry is gone and fetched anew; the work file is gone, the lock
      free and the task has not succeeded. */
  lemma RemoveAndFailOutcome(hash: Hash, s: System, t: TaskId)
    ensures Enabled(hash, s, Remove(t)) ==>
              var s' := Next(hash, s, Remove(t));
              In(s', t, Fetching) && s'.files == s.files - {Final(KeyFor(s, t))} && s'.locks == s.locks
    ensures Enabled(hash, s, Fail(t)) ==>
              var s' := Next(hash, s, Fail(t));
              && In(s', t, Finished(false))
              && (s.tasks[t].phase.Writing? ==> s'.files == s.files - {s.tasks[t].phase.path})
              && (!s.tasks[t].phase.Writing? ==> s'.files == s.files)
              && (Critical(s.tasks[t].phase) ==> s'.locks == s.locks - {KeyFor(s, t)})
  {
  }

  /** No task is ever stuck: its own next step is open to it, or the lock is held by a task
      inside, which can at least fail. */
  lemma NeverStuck(hash: Hash, s: System, t: TaskId, request: Request, readable: bool, unique: nat, bytes: Bytes)
    requires Inv(hash, s)
    ensures t !in s.tasks ==> Enabled(hash, s, Begin(t, request))
    ensures t in s.tasks && !s.tasks[t].phase.Finished? ==> Enabled(hash, s, Fail(t))
    ensures t in s.tasks ==>
              var key := KeyFor(s, t);
              match s.tasks[t].phase
              case Waiting =>
                if key in s.locks then Enabled(hash, s, Fail(s.locks[key])) && KeyFor(s, s.locks[key]) == key
                else Enabled(hash, s, Acquire(t))
              case Looking => Enabled(hash, s, Look(t, readable))
              case Removing => Entry(s, key) != Some(Directory(false)) ==> Enabled(hash, s, Remove(t))
              case Fetching => Partial(key, unique) !in s.files ==> Enabled(hash, s, Create(t, unique))
              case Writing(_, got) => Fits(s.tasks[t].request, got + bytes) ==> Enabled(hash, s, Write(t, bytes))
              case Finished(_) => true
  {
    if t in s.tasks && KeyFor(s, t) in s.locks {
      assert Inside(s.tasks[s.locks[KeyFor(s, t)]], KeyFor(s, t));
    }
  }

  // ----- Runs

  ghost predicate Possible(hash: Hash, s: System, steps: seq<Step>)
    decreases |steps|
  {
    steps == [] || (Enabled(hash, s, steps[0]) && Possible(hash, Next(hash, s, steps[0]), steps[1..]))
  }

  ghost function After(hash: Hash, s: System, steps: seq<Step>): System
    requires Possible(hash, s, steps)
    decreases |steps|
  {
    if steps == [] then s else After(hash, Next(hash, s, steps[0]), steps[1..])
  }

  /** A cache directory as found: no work file, and nothing vouched for. */
  ghost predicate Start(s: System) {
    && s.tasks == map[] && s.locks == map[] && s.late == {} && s.orphans == {}
    && forall path <- s.files :: path.Final? && path.key in s.touched
  }

  lemma {:induction false} RunKeepsInv(hash: Hash, s: System, steps: seq<Step>)
    requires Inv(hash, s) && Possible(hash, s, steps)
    ensures Inv(hash, After(hash, s, steps))
    decreases |steps|
  {
    if steps != [] {
      InvStays(hash, s, steps[0]);
      RunKeepsInv(hash, Next(hash, s, steps[0]), steps[1..]);
    }
  }

  /** In every interleaving, cancellations included: what the cache put under a final name has
      the digest, and the size or limit, that some task asked for; and once no task is receiving
      the work files are exactly the orphans. */
  lemma RunSound(hash: Hash, s: System, steps: seq<Step>)
    requires Start(s) && Possible(hash, s, steps)
    ensures
      var s' := After(hash, s, steps);
      && FinalsVouched(hash, s')
      && ((forall t <- s'.tasks :: !s'.tasks[t].phase.Writing?) ==>
            forall path: Path :: path.Partial? ==> (path in s'.files <==> path in s'.orphans))
  {
    RunKeepsInv(hash, s, steps);
    var s' := After(hash, s, steps);
    if forall t <- s'.tasks :: !s'.tasks[t].phase.Writing? {
      forall path: Path | path.Partial? ensures path in s'.files <==> path in s'.orphans {
        WorkFilesExactly(hash, s', path);
      }
    }
  }

  /** Without a task cancelled while creating there is no orphan, so then no work file is left. */
  lemma {:induction false} NoCancelNoOrphan(hash: Hash, s: System, steps: seq<Step>)
    requires Possible(hash, s, steps) && s.orphans == {} && forall op <- s.late :: op.LateRemove?
    requires forall k :: 0 <= k < |steps| ==> !steps[k].CancelCreating?
    ensures After(hash, s, steps).orphans == {}
    decreases |steps|
  {
    if steps != [] {
      NoCancelNoOrphan(hash, Next(hash, s, steps[0]), steps[1..]);
    }
  }

  ghost predicate Works(s: System, step: Step, key: Key) {
    && (step.Remove? || step.Create? || step.Rename? || step.CancelRemoving?)
    && step.task in s.tasks && KeyFor(s, step.task) == key
  }

  ghost predicate NeverWorks(hash: Hash, s: System, steps: seq<Step>, key: Key)
    requires Possible(hash, s, steps)
    decreases |steps|
  {
    steps == [] || (!Works(s, steps[0], key) && NeverWorks(hash, Next(hash, s, steps[0]), steps[1..], key))
  }

  ghost predicate TouchesNot(steps: seq<Step>, key: Key) {
    forall step :: step in steps ==> !(step.Touch? && step.key == key)
  }

  lemma PublishedStays(hash: Hash, s: System, step: Step, key: Key)
    requires Inv(hash, s) && Enabled(hash, s, step) && !(step.Touch? && step.key == key)
    requires Entry(s, key).Some? && key !in s.touched && LateRemove(key, false) !in s.late
    ensures
      var s' := Next(hash, s, step);
      && Entry(s', key) == Entry(s, key) && key !in s'.touched
      && LateRemove(key, false) !in s'.late && !Works(s, step, key)
  {
    var s' := Next(hash, s, step);
    assert s.files[Final(key)].File?;
    if Entry(s', key) != Entry(s, key) {
      FinalChangesOnlyBy(hash, s, step, key);
    }
    TouchedGrowsOnlyBy(hash, s, step, key);
  }

  /** Once published, an entry that nothing outside touches, and that no cancelled removal is
      still to reach, stays as it is, and no task ever removes or fetches it again. */
  lemma {:induction false} PublishedOnce(hash: Hash, s: System, steps: seq<Step>, key: Key)
    requires Inv(hash, s) && Possible(hash, s, steps) && TouchesNot(steps, key)
    requires Entry(s, key).Some? && key !in s.touched && LateRemove(key, false) !in s.late
    ensures Entry(After(hash, s, steps), key) == Entry(s, key)
    ensures NeverWorks(hash, s, steps, key)
    decreases |steps|
  {
    if steps != [] {
      InvStays(hash, s, steps[0]);
      PublishedStays(hash, s, steps[0], key);
      PublishedOnce(hash, Next(hash, s, steps[0]), steps[1..], key);
    }
  }

  ghost predicate KeptForGood(hash: Hash, s: System, key: Key) {
    forall steps: seq<Step> | Possible(hash, s, steps) && TouchesNot(steps, key) ::
      Entry(After(hash, s, steps), key) == Entry(s, key)
  }

  /** The condition is exact: a published entry is kept in every continuation exactly when no
      removal handed over by a cancelled task is outstanding. */
  lemma KeptForGoodExactly(hash: Hash, s: System, key: Key)
    requires Inv(hash, s) && Entry(s, key).Some? && key !in s.touched
    ensures KeptForGood(hash, s, key) <==> LateRemove(key, false) !in s.late
  {
    if LateRemove(key, false) !in s.late {
      forall steps | Possible(hash, s, steps) && TouchesNot(steps, key)
        ensures Entry(After(hash, s, steps), key) == Entry(s, key)
      {
        PublishedOnce(hash, s, steps, key);
      }
    } else {
      var step := RunsLate(LateRemove(key, false));
      assert [step][0] == step && [step][1..] == [];
      assert Possible(hash, Next(hash, s, step), []);
      assert Possible(hash, s, [step]) && After(hash, s, [step]) == Next(hash, s, step);
      assert TouchesNot([step], key);
      assert s.files[Final(key)].File?;
    }
  }

  // ----- Such a removal can be outstanding

  ghost predicate Reaches(hash: Hash, s: System, s': System) {
    exists steps :: Possible(hash, s, steps) && After(hash, s, steps) == s'
  }

  lemma {:induction false} RunsJoin(hash: Hash, s: System, first: seq<Step>, later: seq<Step>)
    requires Possible(hash, s, first) && Possible(hash, After(hash, s, first), later)
    ensures Possible(hash, s, first + later)
    ensures After(hash, s, first + later) == After(hash, After(hash, s, first), later)
    decreases |first|
  {
    if first == [] {
      assert first + later == later;
    } else {
      assert (first + later)[0] == first[0] && (first + later)[1..] == first[1..] + later;
      RunsJoin(hash, Next(hash, s, first[0]), first[1..], later);
    }
  }

  lemma OneMore(hash: Hash, s: System, steps: seq<Step>, step: Step)
    requires Possible(hash, s, steps) && Enabled(hash, After(hash, s, steps), step)
    ensures Possible(hash, s, steps + [step])
    ensures After(hash, s, steps + [step]) == Next(hash, After(hash, s, steps), step)
  {
    assert [step][0] == step && [step][1..] == [];
    assert Possible(hash, Next(hash, After(hash, s, steps), step), []);
    RunsJoin(hash, s, steps, [step]);
  }

  lemma ReachesItself(hash: Hash, s: System)
    ensures Reaches(hash, s, s)
  {
    assert Possible(hash, s, []) && After(hash, s, []) == s;
  }

  lemma ReachesNext(hash: Hash, s: System, s': System, step: Step)
    requires Reaches(hash, s, s') && Enabled(hash, s', step)
    ensures Reaches(hash, s, Next(hash, s', step))
  {
    var steps :| Possible(hash, s, steps) && After(hash, s, steps) == s';
    OneMore(hash, s, steps, step);
  }

  /** Two tasks after the same blob. */
  function Two(
      r: Request, files: map<Path, Node>, first: Phase, second: Phase, holder: map<Key, TaskId>, touched: set<Key>,
      late: set<LateOp>): System
  {
    System(files, map[0 := Task(r, first), 1 := Task(r, second)], holder, touched, late, {})
  }

  lemma PhasesOfTwo(
      r: Request, files: map<Path, Node>, first: Phase, second: Phase, holder: map<Key, TaskId>, touched: set<Key>,
      late: set<LateOp>, next: Phase)
    ensures InPhase(Two(r, files, first, second, holder, touched, late), 0, next)
         == Two(r, files, next, second, holder, touched, late)
    ensures InPhase(Two(r, files, first, second, holder, touched, late), 1, next)
         == Two(r, files, first, next, holder, touched, late)
  {
  }

  /** The first takes the lock, finds the entry corrupt, and is cancelled while removing it. */
  lemma FirstSteps(hash: Hash, r: Request, bad: Bytes)
    requires r.BlobRequest? && !Matches(hash, KeyOf(r), bad)
    ensures
      var key := KeyOf(r);
      var files, late := map[Final(key) := File(bad)], {LateRemove(key, false)};
      Reaches(hash, Two(r, files, Waiting, Waiting, map[], {key}, {}),
              Two(r, files, Finished(false), Waiting, map[], {key}, late))
  {
    var key := KeyOf(r);
    var files, lock, late := map[Final(key) := File(bad)], map[key := 0], {LateRemove(key, false)};
    var start := Two(r, files, Waiting, Waiting, map[], {key}, {});
    var looking := Two(r, files, Looking, Waiting, lock, {key}, {});
    var removing := Two(r, files, Removing, Waiting, lock, {key}, {});
    ReachesItself(hash, start);
    PhasesOfTwo(r, files, Waiting, Waiting, lock, {key}, {}, Looking);
    ReachesNext(hash, start, start, Acquire(0));
    assert Next(hash, start, Acquire(0)) == looking;
    PhasesOfTwo(r, files, Looking, Waiting, lock, {key}, {}, Removing);
    ReachesNext(hash, start, looking, Look(0, true));
    assert Next(hash, looking, Look(0, true)) == removing;
    CancelOfTwo(hash, r, files);
    ReachesNext(hash, start, removing, CancelRemoving(0, false));
  }

  lemma CancelOfTwo(hash: Hash, r: Request, files: map<Path, Node>)
    ensures
      var key := KeyOf(r);
      var removing := Two(r, files, Removing, Waiting, map[key := 0], {key}, {});
      Enabled(hash, removing, CancelRemoving(0, false))
      && Next(hash, removing, CancelRemoving(0, false))
         == Two(r, files, Finished(false), Waiting, map[], {key}, {LateRemove(key, false)})
  {
    var key := KeyOf(r);
    var late := {LateRemove(key, false)};
    PhasesOfTwo(r, files, Removing, Waiting, map[], {key}, late, Finished(false));
    assert map[key := 0] - {key} == map[];
  }

  /** The second finds the entry corrupt as well, and removes it. */
  lemma SecondRemoves(hash: Hash, start: System, r: Request, bad: Bytes, late: set<LateOp>)
    requires r.BlobRequest? && !Matches(hash, KeyOf(r), bad)
    requires Reaches(hash, start,
                     Two(r, map[Final(KeyOf(r)) := File(bad)], Finished(false), Waiting, map[], {KeyOf(r)}, late))
    ensures Reaches(hash, start, Two(r, map[], Finished(false), Fetching, map[KeyOf(r) := 1], {}, late))
  {
    var key, over := KeyOf(r), Finished(false);
    var files, lock := map[Final(key) := File(bad)], map[key := 1];
    var waiting := Two(r, files, over, Waiting, map[], {key}, late);
    var looking := Two(r, files, over, Looking, lock, {key}, late);
    var removing := Two(r, files, over, Removing, lock, {key}, late);
    PhasesOfTwo(r, files, over, Waiting, lock, {key}, late, Looking);
    ReachesNext(hash, start, waiting, Acquire(1));
    assert Next(hash, waiting, Acquire(1)) == looking;
    PhasesOfTwo(r, files, over, Looking, lock, {key}, late, Removing);
    ReachesNext(hash, start, looking, Look(1, true));
    assert Next(hash, looking, Look(1, true)) == removing;
    PhasesOfTwo(r, map[], over, Removing, lock, {}, late, Fetching);
    ReachesNext(hash, start, removing, Remove(1));
    assert files - {Final(key)} == map[] && {key} - {key} == {};
  }

  /** It fetches the blob, writes it and publishes it. */
  lemma SecondPublishes(hash: Hash, start: System, r: Request, good: Bytes, late: set<LateOp>)
    requires r == BlobRequest(Descriptor(hash(good), Size(good)))
    requires Reaches(hash, start, Two(r, map[], Finished(false), Fetching, map[KeyOf(r) := 1], {}, late))
    ensures Reaches(hash, start,
                    Two(r, map[Final(KeyOf(r)) := File(good)], Finished(false), Finished(true), map[], {}, late))
  {
    var key, over := KeyOf(r), Finished(false);
    var path, lock := Partial(key, 0), map[key := 1];
    var fetching := Two(r, map[], over, Fetching, lock, {}, late);
    var created := Two(r, map[path := File([])], over, Writing(path, []), lock, {}, late);
    var written := Two(r, map[path := File(good)], over, Writing(path, good), lock, {}, late);
    PhasesOfTwo(r, map[path := File([])], over, Fetching, lock, {}, late, Writing(path, []));
    ReachesNext(hash, start, fetching, Create(1, 0));
    assert Next(hash, fetching, Create(1, 0)) == created;
    WriteOfTwo(hash, r, path, good, late);
    ReachesNext(hash, start, created, Write(1, good));
    RenameOfTwo(hash, r, path, good, late);
    ReachesNext(hash, start, written, Rename(1, good, false));
  }

  lemma WriteOfTwo(hash: Hash, r: Request, path: Path, good: Bytes, late: set<LateOp>)
    requires r == BlobRequest(Descriptor(hash(good), Size(good)))
    ensures
      var created := Two(r, map[path := File([])], Finished(false), Writing(path, []), map[KeyOf(r) := 1], {}, late);
      Enabled(hash, created, Write(1, good))
      && Next(hash, created, Write(1, good))
         == Two(r, map[path := File(good)], Finished(false), Writing(path, good), map[KeyOf(r) := 1], {}, late)
  {
    assert [] + good == good;
    PhasesOfTwo(r, map[path := File(good)], Finished(false), Writing(path, []), map[KeyOf(r) := 1], {}, late,
                Writing(path, good));
  }

  lemma RenameOfTwo(hash: Hash, r: Request, path: Path, good: Bytes, late: set<LateOp>)
    requires r == BlobRequest(Descriptor(hash(good), Size(good))) && path.Partial?
    ensures
      var lock := map[KeyOf(r) := 1];
      var written := Two(r, map[path := File(good)], Finished(false), Writing(path, good), lock, {}, late);
      Enabled(hash, written, Rename(1, good, false))
      && Next(hash, written, Rename(1, good, false))
         == Two(r, map[Final(KeyOf(r)) := File(good)], Finished(false), Finished(true), map[], {}, late)
  {
    var key, files := KeyOf(r), map[path := File(good)];
    assert (files - {path})[Final(key) := File(good)] == map[Final(key) := File(good)];
    assert map[key := 1] - {key} == map[];
    PhasesOfTwo(r, map[Final(key) := File(good)], Finished(false), Writing(path, good), map[], {}, late,
                Finished(true));
  }

  lemma BothBegin(hash: Hash, r: Request, start: System)
    requires Start(start) && start.touched == {KeyOf(r)}
    ensures Reaches(hash, start, Two(r, start.files, Waiting, Waiting, map[], {KeyOf(r)}, {}))
  {
    var one := start.(tasks := map[0 := Task(r, Waiting)]);
    ReachesItself(hash, start);
    ReachesNext(hash, start, start, Begin(0, r));
    assert Next(hash, start, Begin(0, r)) == one;
    ReachesNext(hash, start, one, Begin(1, r));
    assert Next(hash, one, Begin(1, r)) == Two(r, start.files, Waiting, Waiting, map[], {KeyOf(r)}, {});
  }

  lemma ReachesFurther(hash: Hash, s: System, s': System, s'': System)
    requires Reaches(hash, s, s') && Reaches(hash, s', s'')
    ensures Reaches(hash, s, s'')
  {
    var first :| Possible(hash, s, first) && After(hash, s, first) == s';
    var second :| Possible(hash, s', second) && After(hash, s', second) == s'';
    RunsJoin(hash, s, first, second);
  }

  /** One task is cancelled while it removes a corrupt entry, another then publishes the blob and
      succeeds, and the first one's removal is still to come: the published entry can go. */
  lemma LateRemovalReachable(hash: Hash, bad: Bytes, good: Bytes) returns (start: System, s: System, key: Key)
    requires hash(bad) != hash(good)
    ensures Start(start) && Reaches(hash, start, s)
    ensures In(s, 1, Finished(true)) && KeyFor(s, 1) == key && Entry(s, key) == Some(File(good))
    ensures key !in s.touched && !KeptForGood(hash, s, key)
  {
    var r := BlobRequest(Descriptor(hash(good), Size(good)));
    key := KeyOf(r);
    var files, late := map[Final(key) := File(bad)], {LateRemove(key, false)};
    start := System(files, map[], map[], {key}, {}, {});
    s := Two(r, map[Final(key) := File(good)], Finished(false), Finished(true), map[], {}, late);
    BothBegin(hash, r, start);
    FirstSteps(hash, r, bad);
    ReachesFurther(hash, start, Two(r, files, Waiting, Waiting, map[], {key}, {}),
                   Two(r, files, Finished(false), Waiting, map[], {key}, late));
    SecondRemoves(hash, start, r, bad, late);
    SecondPublishes(hash, start, r, good, late);
    var steps :| Possible(hash, start, steps) && After(hash, start, steps) == s;
    RunKeepsInv(hash, start, steps);
    KeptForGoodExactly(hash, s, key);
  }
}
