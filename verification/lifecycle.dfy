/**
  The task side of the engine (user_tasks/tasks.py and the receivers at the
  end of user_tasks/signals.py): the defaults of `UserTaskMixin`, the lazy
  `status` lookup that creates a record for a task nobody published, and the
  four receivers that turn Celery's prerun, success, failure and retry
  notifications into status transitions.
 */
module Lifecycle {
  import opened Store
  import T = Transitions

  // ---------------------------------------------------------------------
  // UserTaskMixin defaults

  /** `name.split('.')[-1]`: the text after the last dot, or the whole name
      when it has none. */
  function LastSegment(name: string): (r: string)
    ensures '.' !in r
    ensures |r| <= |name| && r == name[|name| - |r|..]
    ensures |r| < |name| ==> name[|name| - |r| - 1] == '.'
    decreases |name|
  {
    if |name| == 0 || name[|name| - 1] == '.' then ""
    else
      var r := LastSegment(name[..|name| - 1]) + [name[|name| - 1]];
      assert name[..|name| - 1][|name| - |r|..] + [name[|name| - 1]] == name[|name| - |r|..];
      r
  }

  /** The segment after a dot is what `split('.')[-1]` returns. */
  lemma {:induction false} LastSegmentAfterDot(prefix: string, segment: string)
    requires '.' !in segment
    ensures LastSegment(prefix + "." + segment) == segment
  {
    var name := prefix + "." + segment;
    assert name[|prefix|] == '.';
    assert forall i :: |prefix| < i < |name| ==> name[i] == segment[i - |prefix| - 1];
    assert name[|name| - |segment|..] == segment;
  }

  /** A user task class as the mixin sees it: the module and class names, and
      what its own `generate_name` and `calculate_total_steps` return for the
      task's arguments, `None` where it keeps the mixin's default. */
  datatype TaskKind = TaskKind(moduleName: string, className: string, name: Option<string>, steps: Option<int>)

  /** `generate_name`: the override's result, by default the last segment of
      the class name. */
  function GenerateName(kind: TaskKind): (r: string)
    ensures kind.name.Some? ==> r == kind.name.value
    ensures kind.name.None? ==> '.' !in r && |r| <= |kind.className| && r == kind.className[|kind.className| - |r|..]
    ensures kind.name.None? && '.' !in kind.className ==> r == kind.className
  {
    match kind.name
    case Some(n) => n
    case None =>
      LastSegment(kind.className)
  }

  /** `calculate_total_steps`: the override's result, by default one step
      (the whole task). */
  function TotalSteps(kind: TaskKind): (r: int)
    ensures kind.steps.None? ==> r == 1
    ensures kind.steps.Some? ==> r == kind.steps.value
  {
    match kind.steps
    case Some(n) => n
    case None => 1
  }

  /** The `task_class` of a record created for the task: `module.Class`. */
  function TaskClass(kind: TaskKind): (r: string)
    ensures |r| == |kind.moduleName| + 1 + |kind.className|
    ensures r[..|kind.moduleName|] == kind.moduleName && r[|kind.moduleName|] == '.'
    ensures '.' !in kind.className ==> LastSegment(r) == kind.className
  {
    assert '.' !in kind.className ==> LastSegment(kind.moduleName + "." + kind.className) == kind.className by {
      if '.' !in kind.className { LastSegmentAfterDot(kind.moduleName, kind.className); }
    }
    kind.moduleName + "." + kind.className
  }

  /** A class that overrides neither default gets one step and its own name. */
  lemma DefaultKind(moduleName: string, className: string)
    requires '.' !in className
    ensures var kind := TaskKind(moduleName, className, None, None);
      GenerateName(kind) == className && TotalSteps(kind) == 1
      && LastSegment(TaskClass(kind)) == GenerateName(kind)
  {
  }

  // ---------------------------------------------------------------------
  // The lazy `status` property

  /** The running request: its task id, and the `user_id` argument if the
      call passed one. */
  datatype Request = Request(taskId: string, userId: Option<UserRef>)

  /** The outcome of `status`: the record's key in the (possibly extended)
      store, or the KeyError raised when a record has to be created and the
      call has no `user_id`. */
  datatype Lookup = Found(db: Db, id: Id) | NoUserId

  /** The record a fresh lookup creates: a parentless task, named and sized
      by the class, owned by the caller. */
  function LazyRecord(kind: TaskKind, req: Request, user: UserRef, now: int): (st: Status)
    ensures st.parent.None? && !st.isContainer && st.state == Pending && st.completedSteps == 0
    ensures st.taskId == req.taskId && st.user == user && st.created == now
    ensures st.name == GenerateName(kind) && st.taskClass == TaskClass(kind) && st.totalSteps == TotalSteps(kind)
  {
    NewStatus(req.taskId, user, None, false, TaskClass(kind), GenerateName(kind), TotalSteps(kind), now)
  }

  /** `UserTaskMixin.status`: the record of the running task id if there is
      one, leaving the store alone; otherwise exactly one new parentless
      record for it, or KeyError without `user_id`. */
  function StatusOf(db: Db, kind: TaskKind, req: Request, now: int): (r: Lookup)
    requires Valid(db)
    ensures r.Found? ==> Valid(r.db) && r.id in r.db.statuses && r.db.statuses[r.id].taskId == req.taskId
    ensures (exists k :: k in db.statuses && db.statuses[k].taskId == req.taskId) ==> r.Found? && r.db == db
    ensures r.NoUserId? <==> (forall k :: k in db.statuses ==> db.statuses[k].taskId != req.taskId) && req.userId.None?
    ensures r.Found? && r.db != db ==>
      && r.id == db.nextId && req.userId.Some?
      && r.db == db.(statuses := db.statuses[db.nextId := LazyRecord(kind, req, req.userId.value, now)], nextId := db.nextId + 1)
  {
    match FindTask(db, req.taskId)
    case Some(k) => Found(db, k)
    case None =>
      match req.userId
      case None => NoUserId
      case Some(user) => Found(Insert(db, LazyRecord(kind, req, user, now)), db.nextId)
  }

  /** Asking for `status` again finds the same record and creates nothing. */
  lemma StatusOfTwice(db: Db, kind: TaskKind, req: Request, now: int, later: int)
    requires Valid(db) && StatusOf(db, kind, req, now).Found?
    ensures var l := StatusOf(db, kind, req, now);
      StatusOf(l.db, kind, req, later) == l
  {
    var l := StatusOf(db, kind, req, now);
    var k := FindTask(l.db, req.taskId);
    assert k.Some?;
    SameTaskId(l.db.statuses, k.value, l.id);
  }

  // ---------------------------------------------------------------------
  // Receivers

  /** The task a notification is about: an instance of a user task class
      running `request`, or any other task. */
  datatype Sender = UserTask(kind: TaskKind, request: Request) | OtherTask

  /** The exception a task's failure notification carries. */
  datatype Exception = CanceledException | Error(text: string)

  /** What escapes a receiver. */
  datatype Escape = UserIdMissing | TaskCanceled

  /** A receiver's effect: the store it leaves, and what escaped it. */
  datatype Handled = Handled(db: Db, escape: Option<Escape>)

  /** The record a user-task sender refers to, once `status` has found it. */
  ghost predicate Refers(db: Db, sender: Sender, k: Id) {
    sender.UserTask? && k in db.statuses && db.statuses[k].taskId == sender.request.taskId
  }

  /** `start_user_task` (task_prerun): the task's record starts. */
  function OnPrerun(db: Db, sender: Sender, now: int): (r: Handled)
    requires Valid(db)
    ensures Valid(r.db)
    ensures sender.OtherTask? ==> r == Handled(db, None)
    ensures r.escape == Some(UserIdMissing) ==> r.db == db
    ensures forall k :: Refers(db, sender, k) ==>
      && r.db.statuses.Keys == db.statuses.Keys && r.db.events == db.events && r.db.artifacts == db.artifacts
      && (r.escape == Some(TaskCanceled) <==> CanceledLeaf(db.statuses[k]))
      && (r.escape.None? ==> r.db.statuses[k].state == InProgress)
    ensures forall k :: Refers(r.db, sender, k) && k !in db.statuses ==>
      r.escape.None? && r.db.statuses[k].state == InProgress && r.db.statuses[k].parent.None?
  {
    match sender
    case OtherTask => Handled(db, None)
    case UserTask(kind, req) =>
      match StatusOf(db, kind, req, now)
      case NoUserId => Handled(db, Some(UserIdMissing))
      case Found(d, id) =>
        forall k | Refers(db, sender, k) ensures k == id {
          SameTaskId(d.statuses, k, id);
        }
        forall k | Refers(d, sender, k) ensures k == id {
          SameTaskId(d.statuses, k, id);
        }
        match T.Start(d, id)
        case Done(d') => Handled(d', None)
        case TaskCanceled(d') => Handled(d', Some(TaskCanceled))
  }

  /** The looked-up record is the only one a sender refers to. */
  lemma RefersOnly(db: Db, sender: Sender, id: Id)
    requires Valid(db) && Refers(db, sender, id)
    ensures forall k :: Refers(db, sender, k) ==> k == id
  {
    forall k | Refers(db, sender, k) ensures k == id {
      SameTaskId(db.statuses, k, id);
    }
  }

  /** A lookup for a user task that does not raise refers to its record. */
  lemma FoundRefers(db: Db, sender: Sender, now: int)
    requires Valid(db) && sender.UserTask?
    requires StatusOf(db, sender.kind, sender.request, now).Found?
    ensures var l := StatusOf(db, sender.kind, sender.request, now);
      && Refers(l.db, sender, l.id)
      && (forall k :: Refers(l.db, sender, k) ==> k == l.id)
      && (forall k :: Refers(db, sender, k) ==> k == l.id && l.db == db)
      && (l.id !in db.statuses ==> l.db.statuses[l.id] == LazyRecord(sender.kind, sender.request, sender.request.userId.value, now))
      && l.db.events == db.events && l.db.artifacts == db.artifacts
      && (forall k :: k in db.statuses ==> k in l.db.statuses && l.db.statuses[k] == db.statuses[k])
  {
    var l := StatusOf(db, sender.kind, sender.request, now);
    RefersOnly(l.db, sender, l.id);
  }

  /** The failure receiver once `status` has found record `id`. */
  function FailFound(d: Db, id: Id, exc: Exception): (r: Db)
    requires Valid(d) && id in d.statuses
    ensures Valid(r) && r.statuses.Keys == d.statuses.Keys && r.events == d.events + [Stopped(id)]
    ensures r.statuses[id].taskId == d.statuses[id].taskId
    ensures exc.CanceledException? ==> r.statuses == d.statuses && r.artifacts == d.artifacts
    ensures exc.Error? ==> r.statuses[id].state == Failed
    ensures exc.Error? ==> |r.artifacts| > |d.artifacts| && r.artifacts[|d.artifacts|] == T.ErrorArtifact(id, exc.text)
    ensures exc.Error? ==> forall j :: j in Path(d.statuses, id) ==> r.statuses[j].state == Failed
  {
    var failed := if exc.Error? then T.Fail(d, id, exc.text) else d;
    failed.(events := failed.events + [Stopped(id)])
  }

  /** `task_failed` (task_failure): unless the task was canceled, its record
      and every ancestor fail with the exception's text; either way exactly
      one stopped notification for the record follows. */
  function OnFailure(db: Db, sender: Sender, exc: Exception, now: int): (r: Handled)
    requires Valid(db)
    ensures Valid(r.db)
    ensures db.statuses.Keys <= r.db.statuses.Keys
    ensures sender.OtherTask? ==> r == Handled(db, None)
    ensures r.escape != Some(TaskCanceled)
    ensures r.escape == Some(UserIdMissing) ==> r.db == db
    ensures sender.UserTask? && r.escape.None? ==> exists k :: Refers(r.db, sender, k)
    ensures forall k :: Refers(r.db, sender, k) ==>
      && r.escape.None? && r.db.events == db.events + [Stopped(k)]
      && (exc.CanceledException? ==> r.db.artifacts == db.artifacts)
      && (exc.Error? ==> r.db.statuses[k].state == Failed)
      && (exc.Error? ==> |r.db.artifacts| > |db.artifacts| && r.db.artifacts[|db.artifacts|] == T.ErrorArtifact(k, exc.text))
    ensures forall k :: Refers(db, sender, k) ==>
      && (exc.CanceledException? ==> r.db.statuses == db.statuses)
      && (exc.Error? ==> forall j :: j in Path(db.statuses, k) ==> r.db.statuses[j].state == Failed)
  {
    match sender
    case OtherTask => Handled(db, None)
    case UserTask(kind, req) =>
      match StatusOf(db, kind, req, now)
      case NoUserId => Handled(db, Some(UserIdMissing))
      case Found(d, id) =>
        FoundRefers(db, sender, now);
        var r := Handled(FailFound(d, id, exc), None);
        assert Refers(r.db, sender, id);
        RefersOnly(r.db, sender, id);
        r
  }

  /** `retrying_task` (task_retry): the record alone counts one more attempt
      and waits for it. */
  function OnRetry(db: Db, sender: Sender, now: int): (r: Handled)
    requires Valid(db)
    ensures Valid(r.db)
    ensures db.statuses.Keys <= r.db.statuses.Keys
    ensures sender.OtherTask? ==> r == Handled(db, None)
    ensures r.escape != Some(TaskCanceled)
    ensures r.escape == Some(UserIdMissing) ==> r.db == db
    ensures sender.UserTask? && r.escape.None? ==> exists k :: Refers(r.db, sender, k)
    ensures forall k :: Refers(r.db, sender, k) ==>
      && r.escape.None? && r.db.events == db.events && r.db.artifacts == db.artifacts
      && r.db.statuses[k].state == Retrying
    ensures forall k :: Refers(db, sender, k) ==>
      && r.db.statuses[k].attempts == db.statuses[k].attempts + 1
      && r.db.statuses.Keys == db.statuses.Keys
      && forall j :: j in db.statuses && j != k ==> r.db.statuses[j] == db.statuses[j]
  {
    match sender
    case OtherTask => Handled(db, None)
    case UserTask(kind, req) =>
      match StatusOf(db, kind, req, now)
      case NoUserId => Handled(db, Some(UserIdMissing))
      case Found(d, id) =>
        FoundRefers(db, sender, now);
        var r := Handled(T.Retry(d, id), None);
        assert Refers(r.db, sender, id);
        RefersOnly(r.db, sender, id);
        r
  }

  /** The states after which a cleanly ending task has not succeeded. */
  predicate EndedOtherwise(state: string) {
    state == Canceled || state == Failed || state == Retrying
  }

  /** The success receiver once `status` has found record `id`. */
  function SucceedFound(d: Db, id: Id): (r: Handled)
    requires Valid(d) && id in d.statuses
    ensures Valid(r.db) && r.db.statuses.Keys == d.statuses.Keys && r.db.artifacts == d.artifacts
    ensures r.db.statuses[id].taskId == d.statuses[id].taskId
    ensures r.escape.None? ==> r.db.events == d.events + [Stopped(id)]
    ensures r.escape.Some? ==> r.escape == Some(TaskCanceled) && r.db.events == d.events
    ensures EndedOtherwise(d.statuses[id].state) ==> r == Handled(d.(events := d.events + [Stopped(id)]), None)
    ensures !EndedOtherwise(d.statuses[id].state) && r.escape.None? ==> r.db.statuses[id].state == Succeeded
    ensures r.escape.Some? ==> exists j :: j in Path(d.statuses, id) && CanceledLeaf(d.statuses[j])
    ensures (forall j :: j in Path(d.statuses, id) ==> !CanceledLeaf(d.statuses[j])) ==> r.escape.None?
  {
    if EndedOtherwise(d.statuses[id].state) then Handled(d.(events := d.events + [Stopped(id)]), None)
    else match T.Succeed(d, id)
      case Done(d') => Handled(d'.(events := d'.events + [Stopped(id)]), None)
      case TaskCanceled(d') => Handled(d', Some(TaskCanceled))
  }

  /** A pending record without a parent, such as one `status` just created,
      succeeds and is stopped. */
  lemma PendingRootSucceeds(d: Db, id: Id)
    requires Valid(d) && id in d.statuses && d.statuses[id].parent.None? && d.statuses[id].state == Pending
    ensures SucceedFound(d, id).escape.None? && SucceedFound(d, id).db.statuses[id].state == Succeeded
  {
    assert Path(d.statuses, id) == [id];
  }

  /** `task_succeeded` (task_success): the record succeeds unless it was
      canceled, failed or is waiting for a retry; then one stopped
      notification for it follows, unless `succeed` raised because a
      canceled task lies on its chain. */
  function OnSuccess(db: Db, sender: Sender, now: int): (r: Handled)
    requires Valid(db)
    ensures Valid(r.db)
    ensures db.statuses.Keys <= r.db.statuses.Keys
    ensures sender.OtherTask? ==> r == Handled(db, None)
    ensures r.escape == Some(UserIdMissing) ==> r.db == db
    ensures sender.UserTask? && r.escape != Some(UserIdMissing) ==> exists k :: Refers(r.db, sender, k)
    ensures forall k :: Refers(r.db, sender, k) ==>
      && r.db.artifacts == db.artifacts
      && (r.escape.None? ==> r.db.events == db.events + [Stopped(k)])
      && (r.escape.Some? ==> r.escape == Some(TaskCanceled) && r.db.events == db.events)
    ensures forall k :: Refers(db, sender, k) ==>
      && (EndedOtherwise(db.statuses[k].state) ==> r == Handled(db.(events := db.events + [Stopped(k)]), None))
      && (!EndedOtherwise(db.statuses[k].state) && r.escape.None? ==> r.db.statuses[k].state == Succeeded)
      && (r.escape == Some(TaskCanceled) ==> exists j :: j in Path(db.statuses, k) && CanceledLeaf(db.statuses[j]))
    ensures forall k :: Refers(r.db, sender, k) && k !in db.statuses ==>
      r.escape.None? && r.db.statuses[k].state == Succeeded
  {
    match sender
    case OtherTask => Handled(db, None)
    case UserTask(kind, req) =>
      match StatusOf(db, kind, req, now)
      case NoUserId => Handled(db, Some(UserIdMissing))
      case Found(d, id) =>
        FoundRefers(db, sender, now);
        var r := SucceedFound(d, id);
        assert Refers(r.db, sender, id);
        RefersOnly(r.db, sender, id);
        assert id in db.statuses ==> Refers(db, sender, id) && d == db;
        if id in db.statuses then r else PendingRootSucceeds(d, id); r
  }

  /** Every parent is a container, as the topology builder creates them. */
  ghost predicate ParentsAreContainers(s: map<Id, Status>) {
    forall k :: k in s && s[k].parent.Some? ==> s[k].parent.value in s && s[s[k].parent.value].isContainer
  }

  /** When every parent is a container, the success receiver always emits
      its stopped notification: only a canceled task can make `succeed`
      raise, and the receiver skips a canceled task. */
  lemma SuccessStops(db: Db, sender: Sender, now: int)
    requires Valid(db) && ParentsAreContainers(db.statuses) && sender.UserTask?
    requires StatusOf(db, sender.kind, sender.request, now).Found?
    ensures var r := OnSuccess(db, sender, now);
      r.escape.None? && exists k :: Refers(r.db, sender, k) && r.db.events == db.events + [Stopped(k)]
  {
    var l := StatusOf(db, sender.kind, sender.request, now);
    FoundRefers(db, sender, now);
    var s := l.db.statuses;
    var p := Path(s, l.id);
    forall i | 0 < i < |p|
      ensures !CanceledLeaf(s[p[i]])
    {
      assert s[p[i - 1]].parent == Some(p[i]);
    }
  }
}
