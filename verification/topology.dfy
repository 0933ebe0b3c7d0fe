/**
  The topology builder of user_tasks/signals.py: `create_user_task` turns
  the message published for a task into status records, one leaf per
  trackable task plus a container record for each group, chain and chord
  the task belongs to, and keeps every container's step total equal to the
  sum of its members' totals.

  A task is abstracted to what the builder reads from it: whether it is a
  trackable (`UserTaskMixin`) task, its class name, the name and step count
  its `generate_name` and `calculate_total_steps` produce for the message's
  arguments, the `user_task_name` keyword argument (empty when absent) and
  the `user_id` argument. A publication draws at most one fresh task id
  (`uuid4()` in the source, for a chain's or a chord's record): it is the
  `uuid` parameter. `now` is the creation timestamp.
 */
module Topology {
  import opened Store
  import opened Transitions

  datatype Task = Task(
    trackable: bool,
    taskClass: string,
    name: string,
    steps: int,
    userTaskName: string,
    userId: Option<UserRef>)

  /** A chained task: its id, the task, and the tasks linked after it. */
  datatype Signature = Signature(id: string, task: Task, links: seq<Signature>)

  /** The body task of a chord, with the task id it will run under. */
  datatype ChordBody = ChordBody(id: string, task: Task)

  /** A protocol-1 publish message, reduced to the keys the builder reads:
      `id`, the sender task, `taskset`, `callbacks` and `chord`. */
  datatype Message = Message(id: string, task: Task, taskset: Option<string>, callbacks: seq<Signature>, chord: Option<ChordBody>)

  /** Why publishing stopped: a missing or unknown `user_id` (TypeError), a
      task id already present (the unique constraint on `task_id`), or a
      chord message without a `taskset` (a KeyError, or the not-null
      constraint on `task_id` when the key holds None). */
  datatype PublishError = MissingUserId | InvalidUserId(userId: UserRef) | DuplicateTaskId(taskId: string) | MissingTaskset

  datatype Result<T> = Ok(value: T) | Err(error: PublishError)

  /** The store after publishing, and the error that stopped it, if any.
      Records committed before the error stay. */
  datatype Outcome = Outcome(db: Db, error: Option<PublishError>)

  const MissingUserIdText: string := "Each invocation of a UserTaskMixin " + "subclass must include the user_id"
  const InvalidUserIdPrefix: string := "Invalid user_id: "

  /** The TypeError message of a user id error; other errors have no text of their own here. */
  function ErrorText(e: PublishError): string {
    match e
    case MissingUserId => MissingUserIdText
    case InvalidUserId(u) => InvalidUserIdPrefix + u
    case _ => ""
  }

  /** The two user id messages are told apart, and the second names the offending value. */
  lemma ErrorTextNamesUser(a: UserRef, b: UserRef)
    ensures ErrorText(InvalidUserId(a)) == ErrorText(InvalidUserId(b)) ==> a == b
    ensures ErrorText(MissingUserId) != ErrorText(InvalidUserId(a))
  {
    var n := |InvalidUserIdPrefix|;
    assert ErrorText(InvalidUserId(a))[n..] == a;
    assert ErrorText(InvalidUserId(b))[n..] == b;
    assert MissingUserIdText[0] == "Each invocation of a UserTaskMixin "[0] == 'E';
    assert (InvalidUserIdPrefix + a)[0] == InvalidUserIdPrefix[0];
    assert InvalidUserIdPrefix[0] == 'I';
  }

  /** `_get_user_id`: the `user_id` argument must be present and name a user. */
  function GetUserId(userId: Option<UserRef>, users: set<UserRef>): (r: Result<UserRef>)
    ensures r.Ok? <==> userId.Some? && userId.value in users
    ensures r.Ok? ==> r.value == userId.value
    ensures userId.None? ==> r == Err(MissingUserId)
    ensures userId.Some? && userId.value !in users ==> r == Err(InvalidUserId(userId.value))
  {
    match userId
    case None => Err(MissingUserId)
    case Some(u) => if u in users then Ok(u) else Err(InvalidUserId(u))
  }

  /** The record of one task. */
  function Leaf(id: string, task: Task, user: UserRef, parent: Option<Id>, now: int): Status {
    NewStatus(id, user, parent, false, task.taskClass, task.name, task.steps, now)
  }

  /** A container record with no parent. */
  function Container(taskId: string, user: UserRef, taskClass: string, name: string, total: int, now: int): Status {
    NewStatus(taskId, user, None, true, taskClass, name, total, now)
  }

  /** A container record under another: a chord's group. */
  function Nested(taskId: string, user: UserRef, taskClass: string, name: string, total: int, parent: Id, now: int): Status {
    NewStatus(taskId, user, Some(parent), true, taskClass, name, total, now)
  }

  ghost predicate Fresh(db: Db, taskId: string) {
    forall k :: k in db.statuses ==> db.statuses[k].taskId != taskId
  }

  // ---------------------------------------------------------------------
  // A single task, possibly a group member

  /** `_get_or_create_group_parent`: no container outside a group; otherwise
      the group's record, created empty under the `taskset` id when missing,
      which adopts the task's `user_task_name` only while its own name is empty. */
  function GroupParent(db: Db, taskset: Option<string>, name: string, user: UserRef, now: int): (r: (Db, Option<Id>))
    requires Valid(db)
    ensures Valid(r.0) && r.0.events == db.events && r.0.artifacts == db.artifacts
    ensures taskset.None? || taskset == Some("") ==> r == (db, None)
    ensures taskset.Some? && taskset.value != "" && Fresh(db, taskset.value) ==>
      && r.1 == Some(db.nextId) && r.0.nextId == db.nextId + 1
      && r.0.statuses == db.statuses[db.nextId := Container(taskset.value, user, GroupClass, name, 0, now)]
    ensures taskset.Some? && taskset.value != "" && !Fresh(db, taskset.value) ==>
      && r.1.Some? && r.1.value in db.statuses && db.statuses[r.1.value].taskId == taskset.value
      && r.0.nextId == db.nextId
      && var g := r.1.value;
         r.0.statuses == db.statuses[g := db.statuses[g].(name := if name != "" && db.statuses[g].name == "" then name else db.statuses[g].name)]
  {
    if taskset.None? || taskset.value == "" then (db, None)
    else
      var (d, g, created) := GetOrCreate(db, Container(taskset.value, user, GroupClass, name, 0, now));
      if name != "" && d.statuses[g].name == "" then
        var t := d.statuses[g := d.statuses[g].(name := name)];
        EditKeepsValid(d, t);
        (d.(statuses := t), Some(g))
      else (d, Some(g))
  }

  /** Record `k` once `leaf`'s steps are counted into its parent and the
      parent's ancestors. */
  ghost function Raised(s: map<Id, Status>, leaf: Status, k: Id): Status
    requires IsForest(s) && k in s && (leaf.parent.Some? ==> leaf.parent.value in s)
  {
    s[k].(totalSteps := s[k].totalSteps + if leaf.parent.Some? && k in Path(s, leaf.parent.value) then leaf.totalSteps else 0)
  }

  /** Lines 48-52 of `create_user_task` as written: the record is created
      unless one with the task id exists, and the group's total (and its
      ancestors') is raised by the task's steps in either case. */
  function RegisterAsWritten(db: Db, leaf: Status): (r: Db)
    requires Valid(db) && (leaf.parent.Some? ==> leaf.parent.value in db.statuses)
    ensures Valid(r) && r.events == db.events && r.artifacts == db.artifacts
    ensures !Fresh(db, leaf.taskId) ==>
      && r.nextId == db.nextId && r.statuses.Keys == db.statuses.Keys
      && forall k :: k in db.statuses ==> r.statuses[k] == Raised(db.statuses, leaf, k)
    ensures Fresh(db, leaf.taskId) ==>
      && r.nextId == db.nextId + 1 && r.statuses.Keys == db.statuses.Keys + {db.nextId}
      && r.statuses[db.nextId] == leaf
      && forall k :: k in db.statuses ==> r.statuses[k] == Raised(db.statuses, leaf, k)
  {
    var (d, _, created) := GetOrCreate(db, leaf);
    if leaf.parent.Some? then
      var r := IncrementTotal(d, leaf.parent.value, leaf.totalSteps);
      RaisedAsWritten(db, leaf, d, created, r);
      r
    else d
  }

  /** Either outcome of `get_or_create`, followed by the increment. */
  lemma RaisedAsWritten(db: Db, leaf: Status, d: Db, created: bool, r: Db)
    requires IsForest(db.statuses) && db.nextId !in db.statuses && leaf.parent.Some? && leaf.parent.value in db.statuses
    requires created <==> Fresh(db, leaf.taskId)
    requires !created ==> d == db
    requires created ==> d == db.(statuses := db.statuses[db.nextId := leaf], nextId := db.nextId + 1)
    requires IsForest(d.statuses) && leaf.parent.value in d.statuses
    requires r == IncrementTotal(d, leaf.parent.value, leaf.totalSteps)
    ensures !created ==>
      && r.nextId == db.nextId && r.statuses.Keys == db.statuses.Keys
      && forall k :: k in db.statuses ==> r.statuses[k] == Raised(db.statuses, leaf, k)
    ensures created ==>
      && r.nextId == db.nextId + 1 && r.statuses.Keys == db.statuses.Keys + {db.nextId}
      && r.statuses[db.nextId] == leaf
      && forall k :: k in db.statuses ==> r.statuses[k] == Raised(db.statuses, leaf, k)
  {
    if created {
      CountedOnce(db, leaf, d, r);
    } else {
      RaisedInPlace(db, leaf, r);
    }
  }

  /** The increment alone, on a task whose record already exists. */
  lemma RaisedInPlace(db: Db, leaf: Status, r: Db)
    requires IsForest(db.statuses) && leaf.parent.Some? && leaf.parent.value in db.statuses
    requires r == IncrementTotal(db, leaf.parent.value, leaf.totalSteps)
    ensures r.nextId == db.nextId && r.statuses.Keys == db.statuses.Keys
    ensures forall k :: k in db.statuses ==> r.statuses[k] == Raised(db.statuses, leaf, k)
  {
  }

  /** Lines 48-52 of `create_user_task` as intended: a task's steps are
      counted into its group once, when its record is created; publishing a
      task whose record exists changes nothing. */
  function Register(db: Db, leaf: Status): (r: Db)
    requires Valid(db) && (leaf.parent.Some? ==> leaf.parent.value in db.statuses)
    ensures Valid(r) && r.events == db.events && r.artifacts == db.artifacts
    ensures !Fresh(db, leaf.taskId) ==> r == db
    ensures Fresh(db, leaf.taskId) ==>
      && r.nextId == db.nextId + 1 && r.statuses.Keys == db.statuses.Keys + {db.nextId}
      && r.statuses[db.nextId] == leaf
      && forall k :: k in db.statuses ==> r.statuses[k] == Raised(db.statuses, leaf, k)
  {
    match FindTask(db, leaf.taskId)
    case Some(_) => db
    case None =>
      var d := Insert(db, leaf);
      if leaf.parent.Some? then
        var r := IncrementTotal(d, leaf.parent.value, leaf.totalSteps);
        CountedOnce(db, leaf, d, r);
        r
      else d
  }

  lemma CountedOnce(db: Db, leaf: Status, d: Db, r: Db)
    requires IsForest(db.statuses) && db.nextId !in db.statuses && leaf.parent.Some? && leaf.parent.value in db.statuses
    requires d == db.(statuses := db.statuses[db.nextId := leaf], nextId := db.nextId + 1) && IsForest(d.statuses)
    requires r == IncrementTotal(d, leaf.parent.value, leaf.totalSteps)
    ensures r.statuses[db.nextId] == leaf
    ensures forall k :: k in db.statuses ==> r.statuses[k] == Raised(db.statuses, leaf, k)
  {
    var p := Path(db.statuses, leaf.parent.value);
    InsertKeepsPath(db.statuses, db.nextId, leaf, leaf.parent.value);
    assert Path(d.statuses, leaf.parent.value) == p;
    assert db.nextId !in p by {
      forall i | 0 <= i < |p| ensures p[i] != db.nextId {
        assert p[i] in db.statuses;
      }
    }
    forall k | k in db.statuses
      ensures r.statuses[k] == db.statuses[k].(totalSteps := db.statuses[k].totalSteps + if k in p then leaf.totalSteps else 0)
    {
      assert d.statuses[k] == db.statuses[k];
    }
  }

  /** Publishing a group member twice, as written, creates its record once
      but counts its steps into the group twice. */
  lemma RegisterTwiceAsWritten(db: Db, leaf: Status)
    requires Valid(db) && leaf.parent.Some? && leaf.parent.value in db.statuses && Fresh(db, leaf.taskId)
    ensures var d1 := RegisterAsWritten(db, leaf);
            var d2 := RegisterAsWritten(d1, leaf);
            var g := leaf.parent.value;
            && d2.statuses.Keys == d1.statuses.Keys
            && d1.statuses[g].totalSteps == db.statuses[g].totalSteps + leaf.totalSteps
            && d2.statuses[g].totalSteps == db.statuses[g].totalSteps + 2 * leaf.totalSteps
  {
    var g := leaf.parent.value;
    var d1 := RegisterAsWritten(db, leaf);
    InsertKeepsPath(db.statuses, db.nextId, leaf, g);
    assert d1.statuses[db.nextId].taskId == leaf.taskId;
    assert !Fresh(d1, leaf.taskId);
    assert g in Path(db.statuses, g) && g in Path(d1.statuses, g);
  }

  /** Publishing a task twice, as intended, is the same as publishing it once. */
  lemma RegisterTwice(db: Db, leaf: Status)
    requires Valid(db) && (leaf.parent.Some? ==> leaf.parent.value in db.statuses)
    ensures Register(Register(db, leaf), leaf) == Register(db, leaf)
  {
    var d1 := Register(db, leaf);
    if Fresh(db, leaf.taskId) {
      assert d1.statuses[db.nextId].taskId == leaf.taskId;
    }
    assert !Fresh(d1, leaf.taskId);
  }

  // ---------------------------------------------------------------------
  // Chains

  /** How many tasks of `sigs`, including everything linked after them, are
      trackable, and the sum of their steps. */
  function Tracked(sigs: seq<Signature>): nat {
    if |sigs| == 0 then 0
    else (if sigs[0].task.trackable then 1 else 0) + Tracked(sigs[0].links) + Tracked(sigs[1..])
  }

  function TrackedSteps(sigs: seq<Signature>): int {
    if |sigs| == 0 then 0
    else (if sigs[0].task.trackable then sigs[0].task.steps else 0) + TrackedSteps(sigs[0].links) + TrackedSteps(sigs[1..])
  }

  /** `parent`, if any, is a stored record at the top of the forest. */
  ghost predicate Rooted(db: Db, parent: Option<Id>) {
    parent.Some? ==> parent.value in db.statuses && db.statuses[parent.value].parent.None?
  }

  /** `b` is `a` with `n` new task records under the container `c`, whose
      total has risen by `steps` and whose name, once set, is kept. */
  ghost predicate Grows(a: Db, b: Db, c: Id, n: int, steps: int) {
    Counts(a, b, c, steps) && Appends(a, b, c, n)
  }

  /** The container `c` of `a` again in `b`, its total risen by `steps` and
      its name, once set, kept. */
  ghost predicate Counts(a: Db, b: Db, c: Id, steps: int) {
    && c in a.statuses && c in b.statuses
    && b.statuses[c] == a.statuses[c].(totalSteps := a.statuses[c].totalSteps + steps, name := b.statuses[c].name)
    && (a.statuses[c].name != "" ==> b.statuses[c].name == a.statuses[c].name)
  }

  /** `b` is `a` with `n` new leaf records under `c` and every record other
      than `c` untouched. */
  ghost predicate Appends(a: Db, b: Db, c: Id, n: int) {
    && b.events == a.events && b.artifacts == a.artifacts
    && b.nextId == a.nextId + n
    && (forall k :: k in a.statuses && k != c ==> k in b.statuses && b.statuses[k] == a.statuses[k])
    && (forall k :: k in b.statuses <==> k in a.statuses || a.nextId <= k < b.nextId)
    && (forall k :: a.nextId <= k < b.nextId ==> k in b.statuses && b.statuses[k].parent == Some(c) && !b.statuses[k].isContainer)
  }

  lemma GrowsThen(a: Db, b: Db, d: Db, c: Id, n1: nat, s1: int, n2: nat, s2: int, n: int, s: int)
    requires Valid(a) && Grows(a, b, c, n1, s1) && Grows(b, d, c, n2, s2)
    requires n == n1 + n2 && s == s1 + s2
    ensures Grows(a, d, c, n, s)
  {
    assert c < a.nextId;
    forall k | a.nextId <= k < d.nextId
      ensures k in d.statuses && d.statuses[k].parent == Some(c) && !d.statuses[k].isContainer
    {
      if k < b.nextId {
        assert k in b.statuses && k != c;
      }
    }
  }

  /** On a record without a parent, `increment_total_steps` touches only that record. */
  lemma IncrementRoot(db: Db, c: Id, n: int)
    requires IsForest(db.statuses) && c in db.statuses && db.statuses[c].parent.None?
    ensures IncrementTotal(db, c, n) == db.(statuses := db.statuses[c := db.statuses[c].(totalSteps := db.statuses[c].totalSteps + n)])
  {
    assert Path(db.statuses, c) == [c];
  }

  /** On a record without a parent, `set_name` touches only that record. */
  lemma SetNameRoot(db: Db, c: Id, name: string)
    requires IsForest(db.statuses) && c in db.statuses && db.statuses[c].parent.None?
    ensures SetName(db, c, name) == db.(statuses := db.statuses[c := db.statuses[c].(name := name)])
  {
    assert Path(db.statuses, c) == [c];
  }

  /** Adding one member record under the root container `c`, counting its
      steps into `c`, and naming `c` after the member's `user_task_name`
      while `c` has no name yet. `AddMemberWalks` shows this is the insert
      followed by the source's upward `increment_total_steps` and
      `set_name` walks, which stop at `c` because it is a root. */
  function AddMember(db: Db, c: Id, member: Status, userTaskName: string): (r: Db)
    requires Valid(db) && Rooted(db, Some(c)) && member.parent == Some(c) && !member.isContainer && Fresh(db, member.taskId)
    ensures Valid(r) && Rooted(r, Some(c)) && Grows(db, r, c, 1, member.totalSteps) && r.statuses[db.nextId] == member
    ensures r.statuses[c].name == if db.statuses[c].name == "" then userTaskName else db.statuses[c].name
  {
    var st := db.statuses[c];
    var r := Added(db, c, member, userTaskName);
    assert c < db.nextId;
    MemberKeepsValid(db, c, member, r.statuses[c]);
    AddMemberGrows(db, c, member, r);
    r
  }

  /** The store `AddMember` leaves: `member` at the next key, and `c` with
      the member's steps counted in and named `name` if it had no name. */
  function Added(db: Db, c: Id, member: Status, name: string): Db
    requires c in db.statuses
  {
    var st := db.statuses[c];
    var top := st.(totalSteps := st.totalSteps + member.totalSteps, name := if st.name == "" then name else st.name);
    db.(statuses := db.statuses[db.nextId := member][c := top], nextId := db.nextId + 1)
  }

  /** `AddMember` is the new record inserted, then the root's total raised
      by its steps, then the root named when it had no name and the member
      has one. */
  lemma AddMemberWalks(db: Db, c: Id, member: Status, userTaskName: string)
    requires Valid(db) && Rooted(db, Some(c)) && member.parent == Some(c) && !member.isContainer && Fresh(db, member.taskId)
    ensures var d2 := IncrementTotal(Insert(db, member), c, member.totalSteps);
      AddMember(db, c, member, userTaskName) ==
        if userTaskName != "" && d2.statuses[c].name == "" then SetName(d2, c, userTaskName) else d2
  {
    var d1 := Insert(db, member);
    IncrementRoot(d1, c, member.totalSteps);
    var d2 := IncrementTotal(d1, c, member.totalSteps);
    SetNameRoot(d2, c, userTaskName);
    WalksFrom(db, d1, d2, SetName(d2, c, userTaskName), c, member, userTaskName);
  }

  /** The steps of `AddMemberWalks`, on the stores each walk leaves. */
  lemma WalksFrom(db: Db, d1: Db, d2: Db, d3: Db, c: Id, member: Status, name: string)
    requires c in db.statuses && c != db.nextId
    requires d1 == db.(statuses := db.statuses[db.nextId := member], nextId := db.nextId + 1)
    requires d2 == d1.(statuses := d1.statuses[c := d1.statuses[c].(totalSteps := d1.statuses[c].totalSteps + member.totalSteps)])
    requires d3 == d2.(statuses := d2.statuses[c := d2.statuses[c].(name := name)])
    ensures Added(db, c, member, name) == if name != "" && d2.statuses[c].name == "" then d3 else d2
  {
    var st := db.statuses[c];
    assert d1.statuses[c] == st;
    var counted := st.(totalSteps := st.totalSteps + member.totalSteps);
    var m := db.statuses[db.nextId := member];
    assert d2.statuses == m[c := counted];
    if name != "" && st.name == "" {
      RenameTwice(m, c, counted, counted.(name := name));
    }
  }

  /** Writing a key twice leaves the second value. */
  lemma RenameTwice(m: map<Id, Status>, c: Id, a: Status, b: Status)
    ensures m[c := a][c := b] == m[c := b]
  {
  }

  /** A new member under `c`, and `c` edited without changing its place or
      task id, keep the store valid. */
  lemma MemberKeepsValid(db: Db, c: Id, member: Status, top: Status)
    requires Valid(db) && c in db.statuses && member.parent == Some(c) && Fresh(db, member.taskId)
    requires top.parent == db.statuses[c].parent && top.isContainer == db.statuses[c].isContainer
    requires top.taskId == db.statuses[c].taskId
    ensures Valid(db.(statuses := db.statuses[db.nextId := member][c := top], nextId := db.nextId + 1))
  {
    var d1 := Insert(db, member);
    var t := d1.statuses[c := top];
    assert SameShape(d1.statuses, t);
    EditKeepsValid(d1, t);
  }

  lemma AddMemberGrows(db: Db, c: Id, member: Status, r: Db)
    requires KeysBelow(db.statuses, db.nextId) && c in db.statuses && member.parent == Some(c) && !member.isContainer
    requires r.events == db.events && r.artifacts == db.artifacts && r.nextId == db.nextId + 1 && c in r.statuses
    requires r.statuses == db.statuses[db.nextId := member][c := r.statuses[c]]
    requires r.statuses[c] == db.statuses[c].(totalSteps := db.statuses[c].totalSteps + member.totalSteps, name := r.statuses[c].name)
    requires db.statuses[c].name != "" ==> r.statuses[c].name == db.statuses[c].name
    ensures Grows(db, r, c, 1, member.totalSteps) && r.statuses[db.nextId] == member
  {
    assert c < db.nextId;
  }

  /** `a` with records added under new keys only, the existing ones untouched. */
  ghost predicate Extends(a: Db, b: Db) {
    && b.events == a.events && b.artifacts == a.artifacts && a.nextId <= b.nextId
    && (forall k :: k in a.statuses ==> k in b.statuses && b.statuses[k] == a.statuses[k])
    && (forall k :: k in b.statuses <==> k in a.statuses || a.nextId <= k < b.nextId)
  }

  /** The atomic block of `_create_chain_entry` for a trackable task when
      the chain's container `c` exists: the task's record under `c`; a task
      id already taken rolls the block back. */
  function LinkInto(db: Db, user: UserRef, id: string, task: Task, c: Id, now: int): (r: Result<Db>)
    requires Valid(db) && Rooted(db, Some(c))
    ensures r.Ok? <==> Fresh(db, id)
    ensures r.Err? ==> r.error == DuplicateTaskId(id)
    ensures r.Ok? ==> Valid(r.value) && Rooted(r.value, Some(c)) && Grows(db, r.value, c, 1, task.steps)
    ensures r.Ok? ==> r.value.statuses[db.nextId] == Leaf(id, task, user, Some(c), now)
    ensures r.Ok? ==> r.value.statuses[c].name == if db.statuses[c].name == "" then task.userTaskName else db.statuses[c].name
  {
    if FindTask(db, id).Some? then Err(DuplicateTaskId(id))
    else Ok(AddMember(db, c, Leaf(id, task, user, Some(c), now), task.userTaskName))
  }

  /** The same block for the first trackable task of a chain: the chain's
      container first (empty, named after the task's `user_task_name`), then
      the task's record under it. */
  function LinkFirst(db: Db, user: UserRef, id: string, task: Task, uuid: string, now: int): (r: Result<Db>)
    requires Valid(db)
    ensures r.Ok? <==> Fresh(db, uuid) && id != uuid && Fresh(db, id)
    ensures r.Err? ==> r.error.DuplicateTaskId?
    ensures r.Ok? ==> Valid(r.value) && Rooted(r.value, Some(db.nextId)) && Extends(db, r.value) && r.value.nextId == db.nextId + 2
    ensures r.Ok? ==> r.value.statuses[db.nextId] == Container(uuid, user, ChainClass, task.userTaskName, task.steps, now)
    ensures r.Ok? ==> r.value.statuses[db.nextId + 1] == Leaf(id, task, user, Some(db.nextId), now)
  {
    var c := db.nextId;
    if FindTask(db, uuid).Some? then Err(DuplicateTaskId(uuid))
    else
      var d1 := Insert(db, Container(uuid, user, ChainClass, task.userTaskName, 0, now));
      assert Fresh(d1, id) <==> Fresh(db, id) && id != uuid by {
        assert d1.statuses[c].taskId == uuid;
        assert forall k :: k in db.statuses ==> k in d1.statuses && d1.statuses[k] == db.statuses[k];
      }
      match LinkInto(d1, user, id, task, c, now)
      case Err(e) => Err(e)
      case Ok(d) =>
        FirstExtends(db, d1, d, c, task.steps);
        Ok(d)
  }

  lemma FirstExtends(db: Db, d1: Db, d: Db, c: Id, steps: int)
    requires KeysBelow(db.statuses, db.nextId) && c == db.nextId && c in d1.statuses
    requires d1 == db.(statuses := db.statuses[c := d1.statuses[c]], nextId := c + 1)
    requires Grows(d1, d, c, 1, steps)
    ensures Extends(db, d) && d.nextId == db.nextId + 2
    ensures d.statuses[c] == d1.statuses[c].(totalSteps := d1.statuses[c].totalSteps + steps, name := d.statuses[c].name)
  {
    assert c !in db.statuses;
  }

  /** `_create_chain_entry`: a trackable task gets its record (and the chain
      its container, at the first trackable task); then the tasks linked
      after it are entered under the same container, in order, whether or
      not this one was trackable. */
  function ChainEntry(db: Db, user: UserRef, id: string, task: Task, links: seq<Signature>, parent: Option<Id>,
                      uuid: string, now: int): (r: Outcome)
    requires Valid(db) && Rooted(db, parent)
    ensures Valid(r.db) && Rooted(r.db, parent) && (match r.error case Some(e) => e.DuplicateTaskId? case None => true)
    decreases links, 2
  {
    if !task.trackable then ChainEach(db, user, links, parent, uuid, now)
    else if parent.Some? then ChainInto(db, user, id, task, links, parent.value, uuid, now)
    else ChainStart(db, user, id, task, links, uuid, now)
  }

  /** A trackable task of a chain whose container `c` exists: its record, then its links. */
  function ChainInto(db: Db, user: UserRef, id: string, task: Task, links: seq<Signature>, c: Id,
                     uuid: string, now: int): (r: Outcome)
    requires Valid(db) && Rooted(db, Some(c))
    ensures Valid(r.db) && Rooted(r.db, Some(c)) && (match r.error case Some(e) => e.DuplicateTaskId? case None => true)
    decreases links, 1
  {
    match LinkInto(db, user, id, task, c, now)
    case Err(e) => Outcome(db, Some(e))
    case Ok(d) => ChainEach(d, user, links, Some(c), uuid, now)
  }

  /** The first trackable task of a chain: the container and its record, then its links. */
  function ChainStart(db: Db, user: UserRef, id: string, task: Task, links: seq<Signature>,
                      uuid: string, now: int): (r: Outcome)
    requires Valid(db)
    ensures Valid(r.db) && (match r.error case Some(e) => e.DuplicateTaskId? case None => true)
    decreases links, 1
  {
    match LinkFirst(db, user, id, task, uuid, now)
    case Err(e) => Outcome(db, Some(e))
    case Ok(d) => ChainEach(d, user, links, Some(db.nextId), uuid, now)
  }

  /** The loop over `callbacks` in `_create_chain_entry`: each callback is
      entered with the same container; the first failure stops the loop. */
  function ChainEach(db: Db, user: UserRef, sigs: seq<Signature>, parent: Option<Id>, uuid: string, now: int): (r: Outcome)
    requires Valid(db) && Rooted(db, parent)
    ensures Valid(r.db) && Rooted(r.db, parent) && (match r.error case Some(e) => e.DuplicateTaskId? case None => true)
    decreases sigs, 0
  {
    if |sigs| == 0 then Outcome(db, None)
    else
      var o := ChainEntry(db, user, sigs[0].id, sigs[0].task, sigs[0].links, parent, uuid, now);
      if o.error.Some? then o
      else ChainEach(o.db, user, sigs[1..], parent, uuid, now)
  }

  /** Entering a task under an existing chain container adds one record
      under it per trackable task reached, and their steps to its total. */
  lemma {:induction false} ChainEntryGrows(db: Db, user: UserRef, id: string, task: Task, links: seq<Signature>, c: Id,
                                           uuid: string, now: int)
    requires Valid(db) && Rooted(db, Some(c))
    ensures var r := ChainEntry(db, user, id, task, links, Some(c), uuid, now);
      r.error.None? ==>
        Grows(db, r.db, c, (if task.trackable then 1 else 0) + Tracked(links),
              (if task.trackable then task.steps else 0) + TrackedSteps(links))
    decreases links, 3
  {
    if !task.trackable {
      ChainEachGrows(db, user, links, c, uuid, now);
    } else {
      ChainIntoGrows(db, user, id, task, links, c, uuid, now);
    }
  }

  lemma {:induction false} ChainIntoGrows(db: Db, user: UserRef, id: string, task: Task, links: seq<Signature>, c: Id,
                                          uuid: string, now: int)
    requires Valid(db) && Rooted(db, Some(c))
    ensures var r := ChainInto(db, user, id, task, links, c, uuid, now);
      r.error.None? ==> Grows(db, r.db, c, 1 + Tracked(links), task.steps + TrackedSteps(links))
    decreases links, 2
  {
    match LinkInto(db, user, id, task, c, now)
    case Err(_) =>
    case Ok(d) =>
      ChainEachGrows(d, user, links, c, uuid, now);
      var r := ChainEach(d, user, links, Some(c), uuid, now);
      assert ChainInto(db, user, id, task, links, c, uuid, now) == r;
      if r.error.None? {
        GrowsThen(db, d, r.db, c, 1, task.steps, Tracked(links), TrackedSteps(links),
                  1 + Tracked(links), task.steps + TrackedSteps(links));
      }
  }

  lemma {:induction false} ChainEachGrows(db: Db, user: UserRef, sigs: seq<Signature>, c: Id, uuid: string, now: int)
    requires Valid(db) && Rooted(db, Some(c))
    ensures var r := ChainEach(db, user, sigs, Some(c), uuid, now);
      r.error.None? ==> Grows(db, r.db, c, Tracked(sigs), TrackedSteps(sigs))
    decreases sigs, 1
  {
    if |sigs| == 0 {
      assert Grows(db, db, c, Tracked(sigs), TrackedSteps(sigs));
    } else {
      var s := sigs[0];
      var o := ChainEntry(db, user, s.id, s.task, s.links, Some(c), uuid, now);
      if o.error.None? {
        ChainEachHead(db, o, user, sigs, c, uuid, now);
        ChainEachGrows(o.db, user, sigs[1..], c, uuid, now);
        ChainEachStep(db, o, user, sigs, c, uuid, now);
      }
    }
  }

  lemma ChainEachHead(db: Db, o: Outcome, user: UserRef, sigs: seq<Signature>, c: Id, uuid: string, now: int)
    requires Valid(db) && Rooted(db, Some(c)) && |sigs| > 0
    requires o == ChainEntry(db, user, sigs[0].id, sigs[0].task, sigs[0].links, Some(c), uuid, now) && o.error.None?
    ensures Grows(db, o.db, c, (if sigs[0].task.trackable then 1 else 0) + Tracked(sigs[0].links),
                              (if sigs[0].task.trackable then sigs[0].task.steps else 0) + TrackedSteps(sigs[0].links))
    decreases sigs, 0
  {
    ChainEntryGrows(db, user, sigs[0].id, sigs[0].task, sigs[0].links, c, uuid, now);
  }

  lemma ChainEachStep(db: Db, o: Outcome, user: UserRef, sigs: seq<Signature>, c: Id, uuid: string, now: int)
    requires Valid(db) && Rooted(db, Some(c)) && |sigs| > 0
    requires o == ChainEntry(db, user, sigs[0].id, sigs[0].task, sigs[0].links, Some(c), uuid, now) && o.error.None?
    requires Grows(db, o.db, c, (if sigs[0].task.trackable then 1 else 0) + Tracked(sigs[0].links),
                               (if sigs[0].task.trackable then sigs[0].task.steps else 0) + TrackedSteps(sigs[0].links))
    requires var r := ChainEach(o.db, user, sigs[1..], Some(c), uuid, now);
      r.error.None? ==> Grows(o.db, r.db, c, Tracked(sigs[1..]), TrackedSteps(sigs[1..]))
    ensures var r := ChainEach(db, user, sigs, Some(c), uuid, now);
      r.error.None? ==> Grows(db, r.db, c, Tracked(sigs), TrackedSteps(sigs))
  {
    var r := ChainEach(o.db, user, sigs[1..], Some(c), uuid, now);
    assert ChainEach(db, user, sigs, Some(c), uuid, now) == r;
    if r.error.None? {
      GrowsEach(db, o.db, r.db, c, sigs);
    }
  }

  /** The growth of one callback followed by the growth of the rest is the growth of the whole loop. */
  lemma GrowsEach(a: Db, b: Db, d: Db, c: Id, sigs: seq<Signature>)
    requires Valid(a) && |sigs| > 0
    requires Grows(a, b, c, (if sigs[0].task.trackable then 1 else 0) + Tracked(sigs[0].links),
                            (if sigs[0].task.trackable then sigs[0].task.steps else 0) + TrackedSteps(sigs[0].links))
    requires Grows(b, d, c, Tracked(sigs[1..]), TrackedSteps(sigs[1..]))
    ensures Grows(a, d, c, Tracked(sigs), TrackedSteps(sigs))
  {
    var s := sigs[0];
    GrowsThen(a, b, d, c, (if s.task.trackable then 1 else 0) + Tracked(s.links),
              (if s.task.trackable then s.task.steps else 0) + TrackedSteps(s.links),
              Tracked(sigs[1..]), TrackedSteps(sigs[1..]), Tracked(sigs), TrackedSteps(sigs));
  }

  /** `r` is `db` with a new chain: its container at the next key, without
      a parent, counting the steps of every trackable task of the chain;
      the first task right after it; and the other trackable tasks after
      that, all directly under the container. */
  ghost predicate ChainShape(db: Db, r: Db, user: UserRef, id: string, task: Task, sigs: seq<Signature>,
                             uuid: string, now: int) {
    ChainHead(db, r, user, id, task, sigs, uuid, now) && ChainMembers(db, r, sigs)
  }

  /** The container at the next key and the first task right after it. */
  ghost predicate ChainHead(db: Db, r: Db, user: UserRef, id: string, task: Task, sigs: seq<Signature>,
                            uuid: string, now: int) {
    var c := db.nextId;
    && c in r.statuses && c + 1 in r.statuses
    && r.statuses[c] == Container(uuid, user, ChainClass, r.statuses[c].name, task.steps + TrackedSteps(sigs), now)
    && (task.userTaskName != "" ==> r.statuses[c].name == task.userTaskName)
    && r.statuses[c + 1] == Leaf(id, task, user, Some(c), now)
  }

  /** One new record per trackable task of the chain, the ones after the
      first directly under the container. */
  ghost predicate ChainMembers(db: Db, r: Db, sigs: seq<Signature>) {
    var c := db.nextId;
    && Extends(db, r) && r.nextId == db.nextId + 2 + Tracked(sigs)
    && (forall k :: c + 1 < k < r.nextId ==> k in r.statuses && r.statuses[k].parent == Some(c) && !r.statuses[k].isContainer)
  }

  /** Publishing the head of a chain, when nothing fails, builds the whole chain. */
  lemma ChainBuilt(db: Db, user: UserRef, id: string, task: Task, sigs: seq<Signature>, uuid: string, now: int)
    requires Valid(db) && task.trackable
    ensures var r := ChainEntry(db, user, id, task, sigs, None, uuid, now);
      r.error.None? ==> ChainShape(db, r.db, user, id, task, sigs, uuid, now)
  {
    var r := ChainEntry(db, user, id, task, sigs, None, uuid, now);
    match LinkFirst(db, user, id, task, uuid, now)
    case Err(_) =>
    case Ok(d) =>
      ChainEachGrows(d, user, sigs, db.nextId, uuid, now);
      assert r == ChainStart(db, user, id, task, sigs, uuid, now);
      assert r == ChainEach(d, user, sigs, Some(db.nextId), uuid, now);
      if r.error.None? {
        assert db.nextId !in db.statuses;
        ChainShapeFrom(db, d, r.db, user, id, task, sigs, uuid, now);
      }
  }

  lemma ChainShapeFrom(db: Db, d: Db, r: Db, user: UserRef, id: string, task: Task, sigs: seq<Signature>, uuid: string, now: int)
    requires Extends(db, d) && d.nextId == db.nextId + 2 && db.nextId !in db.statuses
    requires d.statuses[db.nextId] == Container(uuid, user, ChainClass, task.userTaskName, task.steps, now)
    requires d.statuses[db.nextId + 1] == Leaf(id, task, user, Some(db.nextId), now)
    requires Grows(d, r, db.nextId, Tracked(sigs), TrackedSteps(sigs))
    ensures ChainShape(db, r, user, id, task, sigs, uuid, now)
  {
    var c := db.nextId;
    assert c + 1 in d.statuses && c + 1 != c;
  }

  /** The task ids of the trackable tasks of `sigs`, each followed by the
      tasks linked after it: the order in which the builder enters them. */
  function TrackedIds(sigs: seq<Signature>): seq<string>
    decreases sigs, 0
  {
    if |sigs| == 0 then [] else EntryIds(sigs[0].id, sigs[0].task, sigs[0].links) + TrackedIds(sigs[1..])
  }

  /** The task ids of one chain entry and of everything linked after it. */
  function EntryIds(id: string, task: Task, links: seq<Signature>): seq<string>
    decreases links, 1
  {
    (if task.trackable then [id] else []) + TrackedIds(links)
  }

  /** `a` unless it is empty, then `b`: the rule by which a container keeps
      the first `user_task_name` it is given. */
  function FirstNamed(a: string, b: string): (r: string)
    ensures r == "" <==> a == "" && b == ""
    ensures a != "" ==> r == a
  {
    if a == "" then b else a
  }

  /** The first non-empty `user_task_name` of the trackable tasks of `sigs`,
      in the order the builder enters them; empty when there is none. */
  function TrackedName(sigs: seq<Signature>): string
    decreases sigs, 0
  {
    if |sigs| == 0 then "" else FirstNamed(EntryName(sigs[0].task, sigs[0].links), TrackedName(sigs[1..]))
  }

  function EntryName(task: Task, links: seq<Signature>): string
    decreases links, 1
  {
    FirstNamed(if task.trackable then task.userTaskName else "", TrackedName(links))
  }

  ghost predicate AllFresh(db: Db, ids: seq<string>) {
    forall x :: x in ids ==> Fresh(db, x)
  }

  /** The records `b` added to `a` carry task ids from `ids`. */
  ghost predicate NewIdsIn(a: Db, b: Db, ids: seq<string>) {
    forall k :: a.nextId <= k < b.nextId ==> k in b.statuses && b.statuses[k].taskId in ids
  }

  /** The container `c` of `b` has the name of `c` in `a`, or `name` if that was empty. */
  ghost predicate NamedAfter(a: Db, b: Db, c: Id, name: string) {
    c in a.statuses && c in b.statuses && b.statuses[c].name == FirstNamed(a.statuses[c].name, name)
  }

  /** Growth that added records with other task ids keeps a task id fresh. */
  lemma FreshAfter(a: Db, b: Db, c: Id, n: int, steps: int, ids: seq<string>, rest: seq<string>)
    requires KeysBelow(a.statuses, a.nextId) && Grows(a, b, c, n, steps) && NewIdsIn(a, b, ids)
    requires AllFresh(a, rest) && forall x :: x in rest ==> x !in ids
    ensures AllFresh(b, rest)
  {
    forall x, k | x in rest && k in b.statuses
      ensures b.statuses[k].taskId != x
    {
      if k in a.statuses {
        assert k == c || b.statuses[k] == a.statuses[k];
      }
    }
  }

  lemma NewIdsThen(a: Db, b: Db, d: Db, c: Id, n: int, steps: int, ids1: seq<string>, ids2: seq<string>)
    requires KeysBelow(a.statuses, a.nextId) && c in a.statuses && a.nextId <= b.nextId
    requires Grows(b, d, c, n, steps) && NewIdsIn(a, b, ids1) && NewIdsIn(b, d, ids2)
    ensures NewIdsIn(a, d, ids1 + ids2)
  {
    forall k | a.nextId <= k < d.nextId
      ensures k in d.statuses && d.statuses[k].taskId in ids1 + ids2
    {
      if k < b.nextId {
        assert k != c && k in b.statuses;
        assert d.statuses[k] == b.statuses[k];
      }
    }
  }

  /** With every task id of an entry fresh and distinct, entering it under
      the container `c` cannot fail; its records carry exactly those ids and
      `c` takes its first `user_task_name` if it had no name. */
  lemma {:induction false} ChainEntryOk(db: Db, user: UserRef, id: string, task: Task, links: seq<Signature>, c: Id,
                                        uuid: string, now: int)
    requires Valid(db) && Rooted(db, Some(c))
    requires AllFresh(db, EntryIds(id, task, links)) && Distinct(EntryIds(id, task, links))
    ensures var r := ChainEntry(db, user, id, task, links, Some(c), uuid, now);
      r.error.None? && NewIdsIn(db, r.db, EntryIds(id, task, links)) && NamedAfter(db, r.db, c, EntryName(task, links))
    decreases links, 2
  {
    if !task.trackable {
      assert EntryIds(id, task, links) == TrackedIds(links);
      ChainEachOk(db, user, links, c, uuid, now);
    } else {
      ChainIntoOk(db, user, id, task, links, c, uuid, now);
    }
  }

  lemma {:induction false} ChainIntoOk(db: Db, user: UserRef, id: string, task: Task, links: seq<Signature>, c: Id,
                                       uuid: string, now: int)
    requires Valid(db) && Rooted(db, Some(c)) && task.trackable
    requires AllFresh(db, [id] + TrackedIds(links)) && Distinct([id] + TrackedIds(links))
    ensures var r := ChainInto(db, user, id, task, links, c, uuid, now);
      && r.error.None? && NewIdsIn(db, r.db, [id] + TrackedIds(links))
      && NamedAfter(db, r.db, c, FirstNamed(task.userTaskName, TrackedName(links)))
    decreases links, 1
  {
    assert id in [id] + TrackedIds(links);
    var d := LinkInto(db, user, id, task, c, now).value;
    assert NewIdsIn(db, d, [id]);
    DistinctSplit([id], TrackedIds(links));
    FreshAfter(db, d, c, 1, task.steps, [id], TrackedIds(links));
    ChainEachOk(d, user, links, c, uuid, now);
    ChainEachGrows(d, user, links, c, uuid, now);
    var r := ChainEach(d, user, links, Some(c), uuid, now);
    NewIdsThen(db, d, r.db, c, Tracked(links), TrackedSteps(links), [id], TrackedIds(links));
  }

  lemma {:induction false} ChainEachOk(db: Db, user: UserRef, sigs: seq<Signature>, c: Id, uuid: string, now: int)
    requires Valid(db) && Rooted(db, Some(c))
    requires AllFresh(db, TrackedIds(sigs)) && Distinct(TrackedIds(sigs))
    ensures var r := ChainEach(db, user, sigs, Some(c), uuid, now);
      r.error.None? && NewIdsIn(db, r.db, TrackedIds(sigs)) && NamedAfter(db, r.db, c, TrackedName(sigs))
    decreases sigs, 0
  {
    if |sigs| > 0 {
      var s := sigs[0];
      var ids0 := EntryIds(s.id, s.task, s.links);
      var rest := TrackedIds(sigs[1..]);
      var o := ChainEntry(db, user, s.id, s.task, s.links, Some(c), uuid, now);
      DistinctSplit(ids0, rest);
      ChainEntryOk(db, user, s.id, s.task, s.links, c, uuid, now);
      ChainEntryGrows(db, user, s.id, s.task, s.links, c, uuid, now);
      FreshAfter(db, o.db, c, (if s.task.trackable then 1 else 0) + Tracked(s.links),
                 (if s.task.trackable then s.task.steps else 0) + TrackedSteps(s.links), ids0, rest);
      ChainEachOk(o.db, user, sigs[1..], c, uuid, now);
      ChainEachGrows(o.db, user, sigs[1..], c, uuid, now);
      ChainEachOkStep(db, user, sigs, c, uuid, now, o);
    }
  }

  lemma ChainEachOkStep(db: Db, user: UserRef, sigs: seq<Signature>, c: Id, uuid: string, now: int, o: Outcome)
    requires Valid(db) && Rooted(db, Some(c)) && |sigs| > 0
    requires o == ChainEntry(db, user, sigs[0].id, sigs[0].task, sigs[0].links, Some(c), uuid, now)
    requires o.error.None? && NewIdsIn(db, o.db, EntryIds(sigs[0].id, sigs[0].task, sigs[0].links))
    requires NamedAfter(db, o.db, c, EntryName(sigs[0].task, sigs[0].links)) && db.nextId <= o.db.nextId
    requires var r := ChainEach(o.db, user, sigs[1..], Some(c), uuid, now);
      && r.error.None? && NewIdsIn(o.db, r.db, TrackedIds(sigs[1..])) && NamedAfter(o.db, r.db, c, TrackedName(sigs[1..]))
      && Grows(o.db, r.db, c, Tracked(sigs[1..]), TrackedSteps(sigs[1..]))
    ensures var r := ChainEach(db, user, sigs, Some(c), uuid, now);
      r.error.None? && NewIdsIn(db, r.db, TrackedIds(sigs)) && NamedAfter(db, r.db, c, TrackedName(sigs))
  {
    var r := ChainEach(o.db, user, sigs[1..], Some(c), uuid, now);
    assert ChainEach(db, user, sigs, Some(c), uuid, now) == r;
    NewIdsThen(db, o.db, r.db, c, Tracked(sigs[1..]), TrackedSteps(sigs[1..]),
               EntryIds(sigs[0].id, sigs[0].task, sigs[0].links), TrackedIds(sigs[1..]));
  }

  /** A chain whose task ids, and the id its container gets, are all fresh
      and distinct is built whole: no error, the shape of `ChainShape`, and
      the container named after the first `user_task_name` of the chain. */
  lemma ChainOk(db: Db, user: UserRef, id: string, task: Task, sigs: seq<Signature>, uuid: string, now: int)
    requires Valid(db) && task.trackable
    requires AllFresh(db, [id] + TrackedIds(sigs)) && Distinct([id] + TrackedIds(sigs))
    requires Fresh(db, uuid) && uuid !in [id] + TrackedIds(sigs)
    ensures var r := ChainEntry(db, user, id, task, sigs, None, uuid, now);
      && r.error.None? && ChainShape(db, r.db, user, id, task, sigs, uuid, now)
      && r.db.statuses[db.nextId].name == FirstNamed(task.userTaskName, TrackedName(sigs))
  {
    var c := db.nextId;
    assert id in [id] + TrackedIds(sigs);
    var d := LinkFirst(db, user, id, task, uuid, now).value;
    DistinctSplit([id], TrackedIds(sigs));
    assert id in [id];
    FreshAfterFirst(db, d, id, uuid, TrackedIds(sigs));
    ChainEachOk(d, user, sigs, c, uuid, now);
    ChainBuilt(db, user, id, task, sigs, uuid, now);
  }

  /** The chain's container and first record keep fresh every task id
      other than theirs. */
  lemma FreshAfterFirst(db: Db, d: Db, id: string, uuid: string, ids: seq<string>)
    requires Extends(db, d) && d.nextId == db.nextId + 2
    requires d.statuses[db.nextId].taskId == uuid && d.statuses[db.nextId + 1].taskId == id
    requires AllFresh(db, [id] + ids) && uuid !in [id] + ids && id !in ids
    ensures AllFresh(d, ids)
  {
    forall x, k | x in ids && k in d.statuses
      ensures d.statuses[k].taskId != x
    {
      assert x in [id] + ids;
      if k !in db.statuses {
        assert k == db.nextId || k == db.nextId + 1;
      }
    }
  }

  // ---------------------------------------------------------------------
  // Chords

  lemma ExtendsThen(a: Db, b: Db, d: Db)
    requires Extends(a, b) && Extends(b, d)
    ensures Extends(a, d)
  {
  }

  /** The group and chord records of a chord whose first header is being
      published: the group first, then the chord, then the group moved
      under the chord. */
  function ChordOpen(db: Db, user: UserRef, groupId: string, name: string, steps: int, uuid: string, now: int): (r: Result<Db>)
    requires Valid(db) && Fresh(db, groupId)
    ensures r.Ok? <==> Fresh(db, uuid) && uuid != groupId
    ensures r.Err? ==> r.error == DuplicateTaskId(uuid)
    ensures r.Ok? ==>
      var g, ch := db.nextId, db.nextId + 1;
      && Valid(r.value) && Extends(db, r.value) && r.value.nextId == db.nextId + 2
      && r.value.statuses[g] == Nested(groupId, user, GroupClass, name, steps, ch, now)
      && r.value.statuses[ch] == Container(uuid, user, ChordClass, name, steps, now)
  {
    var g, ch := db.nextId, db.nextId + 1;
    var d1 := Insert(db, Container(groupId, user, GroupClass, name, steps, now));
    assert Fresh(d1, uuid) <==> Fresh(db, uuid) && uuid != groupId by {
      assert d1.statuses[g].taskId == groupId;
      assert forall k :: k in db.statuses ==> k in d1.statuses && d1.statuses[k] == db.statuses[k];
    }
    if FindTask(d1, uuid).Some? then Err(DuplicateTaskId(uuid))
    else
      var d2 := Insert(d1, Container(uuid, user, ChordClass, name, steps, now));
      assert Childless(d2.statuses, g) by {
        forall j | j in d2.statuses ensures d2.statuses[j].parent != Some(g) {
          if j in db.statuses {
            assert db.statuses[j].parent.Some? ==> db.statuses[j].parent.value in db.statuses;
          }
        }
      }
      var grp := Nested(groupId, user, GroupClass, name, steps, ch, now);
      AdoptKeepsValid(d2, g, ch, grp);
      ExtendsInsert(db, db, Container(groupId, user, GroupClass, name, steps, now));
      ExtendsInsert(db, d1, Container(uuid, user, ChordClass, name, steps, now));
      ExtendsReplace(db, d2, g, grp);
      Ok(d2.(statuses := d2.statuses[g := grp]))
  }

  /** The chord's body task, once the chord's record `ch` exists: nothing
      for an untracked body; otherwise its record under the chord (unless
      one exists) and its steps counted into the chord either way. */
  function ChordBodyAdd(db: Db, ch: Id, body: ChordBody, user: UserRef, now: int): (r: Db)
    requires Valid(db) && Rooted(db, Some(ch))
    ensures Valid(r) && Rooted(r, Some(ch))
    ensures BodyAdded(db, r, ch, body, user, now)
  {
    if !body.task.trackable then
      GrowsNone(db, ch);
      db
    else if FindTask(db, body.id).Some? then
      IncrementRoot(db, ch, body.task.steps);
      GrowsByTotal(db, ch, body.task.steps);
      IncrementTotal(db, ch, body.task.steps)
    else AddMember(db, ch, Leaf(body.id, body.task, user, Some(ch), now), "")
  }

  /** A store grows from itself by nothing. */
  lemma GrowsNone(db: Db, c: Id)
    requires KeysBelow(db.statuses, db.nextId) && c in db.statuses
    ensures Grows(db, db, c, 0, 0)
  {
  }

  /** Raising only the container's total is growth by no records. */
  lemma GrowsByTotal(db: Db, c: Id, n: int)
    requires KeysBelow(db.statuses, db.nextId) && c in db.statuses
    ensures Grows(db, db.(statuses := db.statuses[c := db.statuses[c].(totalSteps := db.statuses[c].totalSteps + n)]), c, 0, n)
  {
    var r := db.(statuses := db.statuses[c := db.statuses[c].(totalSteps := db.statuses[c].totalSteps + n)]);
    assert r.statuses[c].name == db.statuses[c].name;
  }

  /** What the first header's block leaves behind: the store extended by
      three records at the next keys, the group (holding the header's steps
      and named by it) under the chord (likewise), the chord at the top of
      the forest, and the header's record under the group. */
  ghost predicate HeadShape(db: Db, r: Db, user: UserRef, id: string, task: Task, groupId: string, uuid: string, now: int) {
    var g, ch := db.nextId, db.nextId + 1;
    && Valid(r) && Extends(db, r) && r.nextId == db.nextId + 3 && Rooted(r, Some(ch))
    && r.statuses[g] == Nested(groupId, user, GroupClass, task.userTaskName, task.steps, ch, now)
    && r.statuses[ch] == Container(uuid, user, ChordClass, task.userTaskName, task.steps, now)
    && r.statuses[g + 2] == Leaf(id, task, user, Some(g), now)
  }

  /** The atomic block of `_create_chord_entry` for the first header task
      seen: the group's record and the chord's record (both with the
      header's steps), the group moved under the chord, and the header's
      record under the group. A task id already taken rolls the block back. */
  function ChordHead(db: Db, user: UserRef, id: string, task: Task, groupId: string, uuid: string, now: int): (r: Result<Db>)
    requires Valid(db) && Fresh(db, groupId)
    ensures r.Ok? <==>
      Fresh(db, uuid) && uuid != groupId && Fresh(db, id) && id != groupId && id != uuid
    ensures r.Err? ==> r.error.DuplicateTaskId?
    ensures r.Ok? ==> HeadShape(db, r.value, user, id, task, groupId, uuid, now)
  {
    var g := db.nextId;
    match ChordOpen(db, user, groupId, task.userTaskName, task.steps, uuid, now)
    case Err(e) => Err(e)
    case Ok(d1) =>
      ChordFresh(db, d1, id, groupId, uuid);
      match Create(d1, Leaf(id, task, user, Some(g), now))
      case None => Err(DuplicateTaskId(id))
      case Some(d2) =>
        HeadShapeFrom(db, d1, d2, user, id, task, groupId, uuid, now);
        Ok(d2)
  }

  /** The header's record added after the group and chord records gives the
      shape `HeadShape` describes. */
  lemma HeadShapeFrom(db: Db, d1: Db, d2: Db, user: UserRef, id: string, task: Task, groupId: string, uuid: string, now: int)
    requires Valid(d1) && Extends(db, d1) && d1.nextId == db.nextId + 2
    requires d1.statuses[db.nextId] == Nested(groupId, user, GroupClass, task.userTaskName, task.steps, db.nextId + 1, now)
    requires d1.statuses[db.nextId + 1] == Container(uuid, user, ChordClass, task.userTaskName, task.steps, now)
    requires Valid(d2)
    requires d2 == d1.(statuses := d1.statuses[d1.nextId := Leaf(id, task, user, Some(db.nextId), now)], nextId := d1.nextId + 1)
    ensures HeadShape(db, d2, user, id, task, groupId, uuid, now)
  {
    ExtendsInsert(db, d1, Leaf(id, task, user, Some(db.nextId), now));
  }

  lemma ChordFresh(db: Db, d1: Db, id: string, a: string, b: string)
    requires Extends(db, d1) && d1.nextId == db.nextId + 2 && db.nextId !in db.statuses
    requires d1.statuses[db.nextId].taskId == a && d1.statuses[db.nextId + 1].taskId == b
    ensures Fresh(d1, id) <==> Fresh(db, id) && id != a && id != b
  {
  }

  /** Rewriting a record the older store did not have keeps the extension. */
  lemma ExtendsReplace(a: Db, b: Db, k: Id, st: Status)
    requires Extends(a, b) && k in b.statuses && k !in a.statuses
    ensures Extends(a, b.(statuses := b.statuses[k := st]))
  {
  }

  /** Adding one record at `nextId` extends the store. */
  lemma ExtendsInsert(a: Db, b: Db, st: Status)
    requires Extends(a, b) && b.nextId !in b.statuses
    ensures Extends(a, b.(statuses := b.statuses[b.nextId := st], nextId := b.nextId + 1))
  {
  }

  /** `_create_chord_entry` for the first header task seen: `ChordHead`,
      then the body task counted into the chord, which the header's group
      hangs under. */
  function ChordFirst(db: Db, user: UserRef, id: string, task: Task, groupId: string, body: ChordBody,
                      uuid: string, now: int): (r: Outcome)
    requires Valid(db) && Fresh(db, groupId)
    ensures Valid(r.db)
    ensures r.error.None? <==>
      Fresh(db, uuid) && uuid != groupId && Fresh(db, id) && id != groupId && id != uuid
    ensures match r.error case Some(e) => r.db == db && e.DuplicateTaskId? case None => true
  {
    ChordFinish(db, ChordHead(db, user, id, task, groupId, uuid, now), body, user, now)
  }

  /** What the body task adds once the header's block `h` has built the
      chord at `ch`: the chord counts the body's steps, and a fresh trackable
      body gets its own record, at the next key and under the chord. The
      chord keeps its name. */
  ghost predicate BodyAdded(h: Db, r: Db, ch: Id, body: ChordBody, user: UserRef, now: int) {
    && Grows(h, r, ch, if body.task.trackable && Fresh(h, body.id) then 1 else 0,
                       if body.task.trackable then body.task.steps else 0)
    && r.statuses[ch].name == h.statuses[ch].name
    && (r.nextId == h.nextId + 1 ==> r.statuses[h.nextId] == Leaf(body.id, body.task, user, Some(ch), now))
  }

  /** The rest of `ChordFirst` once the header's block has run: a rolled-back
      block reports its error and keeps the store; a committed one goes on
      to the body. */
  function ChordFinish(db: Db, h: Result<Db>, body: ChordBody, user: UserRef, now: int): (r: Outcome)
    requires Valid(db) && (h.Ok? ==> Valid(h.value) && Rooted(h.value, Some(db.nextId + 1)))
    ensures Valid(r.db)
    ensures r.error.None? <==> h.Ok?
    ensures r.error.Some? ==> h.Err? && r.db == db && r.error.value == h.error
  {
    match h
    case Err(e) => Outcome(db, Some(e))
    case Ok(d) => Outcome(ChordBodyAdd(d, db.nextId + 1, body, user, now), None)
  }

  /** A committed header's block is followed by the body task's share. */
  lemma ChordFinishAdds(db: Db, h: Result<Db>, body: ChordBody, user: UserRef, now: int)
    requires Valid(db) && h.Ok? && Valid(h.value) && Rooted(h.value, Some(db.nextId + 1))
    ensures BodyAdded(h.value, ChordFinish(db, h, body, user, now).db, db.nextId + 1, body, user, now)
  {
  }

  /** A record after a header joins the chord whose group is `g`: the
      group and its ancestors count `n` more steps, and when the header
      names the task and the group has no name yet, they all take it. */
  ghost function Joined(s: map<Id, Status>, g: Id, n: int, name: string, k: Id): Status
    requires IsForest(s) && g in s && k in s
  {
    var on := k in Path(s, g);
    var renamed := name != "" && s[g].name == "";
    s[k].(totalSteps := s[k].totalSteps + (if on then n else 0), name := if on && renamed then name else s[k].name)
  }

  /** The existing group's share of `_create_chord_entry` for a later
      header task: its total (and its ancestors') grows, and an empty name
      is replaced by the header's. */
  function GroupJoin(db: Db, g: Id, n: int, name: string): (r: Db)
    requires Valid(db) && g in db.statuses
    ensures Valid(r) && r == db.(statuses := r.statuses) && r.statuses.Keys == db.statuses.Keys
    ensures forall k :: k in db.statuses ==> r.statuses[k] == Joined(db.statuses, g, n, name, k)
  {
    var d1 := IncrementTotal(db, g, n);
    if name != "" && d1.statuses[g].name == "" then
      JoinedPaths(db.statuses, d1.statuses, g, n);
      var r := SetName(d1, g, name);
      assert Path(d1.statuses, g) == Path(db.statuses, g);
      JoinedRenamed(db.statuses, d1.statuses, r.statuses, g, n, name, Path(db.statuses, g));
      r
    else
      JoinedKept(db.statuses, d1.statuses, g, n, name);
      d1
  }

  /** Raising totals along the path from `g` keeps every parent chain. */
  lemma JoinedPaths(s: map<Id, Status>, s1: map<Id, Status>, g: Id, n: int)
    requires IsForest(s) && g in s && s1.Keys == s.Keys
    requires forall k :: k in s ==> s1[k] == s[k].(totalSteps := s[k].totalSteps + if k in Path(s, g) then n else 0)
    ensures IsForest(s1) && Path(s1, g) == Path(s, g)
  {
    assert SameShape(s, s1);
    ShapeKeepsPaths(s, s1);
  }

  lemma JoinedKept(s: map<Id, Status>, s1: map<Id, Status>, g: Id, n: int, name: string)
    requires IsForest(s) && g in s && s1.Keys == s.Keys
    requires forall k :: k in s ==> s1[k] == s[k].(totalSteps := s[k].totalSteps + if k in Path(s, g) then n else 0)
    requires !(name != "" && s1[g].name == "")
    ensures forall k :: k in s ==> s1[k] == Joined(s, g, n, name, k)
  {
  }

  lemma JoinedRenamed(s: map<Id, Status>, s1: map<Id, Status>, t: map<Id, Status>, g: Id, n: int, name: string, p: seq<Id>)
    requires IsForest(s) && g in s && s1.Keys == s.Keys && t.Keys == s.Keys && p == Path(s, g)
    requires forall k :: k in s ==> s1[k] == s[k].(totalSteps := s[k].totalSteps + if k in p then n else 0)
    requires forall k :: k in s1 ==> t[k] == s1[k].(name := if k in p then name else s1[k].name)
    requires name != "" && s1[g].name == ""
    ensures forall k :: k in s ==> t[k] == Joined(s, g, n, name, k)
  {
    assert s[g].name == "";
    forall k | k in s
      ensures t[k] == Joined(s, g, n, name, k)
    {
      JoinedRenamedAt(s[k], s1[k], t[k], k in p, n, name);
    }
  }

  lemma JoinedRenamedAt(st: Status, st1: Status, st2: Status, on: bool, n: int, name: string)
    requires st1 == st.(totalSteps := st.totalSteps + if on then n else 0)
    requires st2 == st1.(name := if on then name else st1.name)
    ensures st2 == st.(totalSteps := st.totalSteps + (if on then n else 0), name := if on then name else st.name)
  {
  }

  /** `_create_chord_entry` for a header task whose group exists: the
      group's share, then the header's record under the group; a task id
      already taken rolls both back. The body was recorded by the first
      header, so nothing else happens. */
  function ChordJoin(db: Db, user: UserRef, id: string, task: Task, g: Id, now: int): (r: Outcome)
    requires Valid(db) && g in db.statuses
    ensures Valid(r.db)
    ensures r.error.None? <==> Fresh(db, id)
    ensures r.error.Some? ==> r.db == db && r.error == Some(DuplicateTaskId(id))
    ensures r.error.None? ==>
      && r.db.events == db.events && r.db.artifacts == db.artifacts && r.db.nextId == db.nextId + 1
      && r.db.statuses.Keys == db.statuses.Keys + {db.nextId}
      && r.db.statuses[db.nextId] == Leaf(id, task, user, Some(g), now)
      && forall k :: k in db.statuses ==> r.db.statuses[k] == Joined(db.statuses, g, task.steps, task.userTaskName, k)
  {
    var d := GroupJoin(db, g, task.steps, task.userTaskName);
    assert Fresh(d, id) <==> Fresh(db, id) by {
      assert forall k :: k in db.statuses ==> d.statuses[k].taskId == db.statuses[k].taskId;
    }
    match Create(d, Leaf(id, task, user, Some(g), now))
    case None => Outcome(db, Some(DuplicateTaskId(id)))
    case Some(d2) =>
      JoinedThenAdded(db, d, d2, g, task.steps, task.userTaskName, Leaf(id, task, user, Some(g), now));
      Outcome(d2, None)
  }

  lemma JoinedThenAdded(db: Db, d: Db, d2: Db, g: Id, n: int, name: string, leaf: Status)
    requires IsForest(db.statuses) && KeysBelow(db.statuses, db.nextId) && g in db.statuses
    requires d == db.(statuses := d.statuses) && d.statuses.Keys == db.statuses.Keys
    requires forall k :: k in db.statuses ==> d.statuses[k] == Joined(db.statuses, g, n, name, k)
    requires d2 == d.(statuses := d.statuses[d.nextId := leaf], nextId := d.nextId + 1)
    ensures d2.events == db.events && d2.artifacts == db.artifacts && d2.nextId == db.nextId + 1
    ensures d2.statuses.Keys == db.statuses.Keys + {db.nextId} && d2.statuses[db.nextId] == leaf
    ensures forall k :: k in db.statuses ==> d2.statuses[k] == Joined(db.statuses, g, n, name, k)
  {
    assert db.nextId !in db.statuses;
  }

  /** `_create_chord_entry`: a message without a `taskset` is refused;
      otherwise the first header seen builds the chord, later ones join it. */
  function ChordEntry(db: Db, user: UserRef, id: string, task: Task, taskset: Option<string>, body: ChordBody,
                      uuid: string, now: int): (r: Outcome)
    requires Valid(db)
    ensures Valid(r.db)
    ensures taskset.None? ==> r == Outcome(db, Some(MissingTaskset))
    ensures r.error.Some? ==> r.db == db
    ensures taskset.Some? && !Fresh(db, taskset.value) ==> r.db.nextId <= db.nextId + 1
    ensures taskset.Some? && Fresh(db, taskset.value) && r.error.None? ==> r.db.nextId >= db.nextId + 3
    ensures forall g :: g in db.statuses && taskset == Some(db.statuses[g].taskId) ==>
      r == ChordJoin(db, user, id, task, g, now)
    ensures taskset.Some? && Fresh(db, taskset.value) ==>
      r == ChordFirst(db, user, id, task, taskset.value, body, uuid, now)
  {
    match taskset
    case None => Outcome(db, Some(MissingTaskset))
    case Some(groupId) =>
      match FindTask(db, groupId)
      case Some(g) =>
        assert forall j :: j in db.statuses && db.statuses[j].taskId == groupId ==> j == g by {
          forall j | j in db.statuses && db.statuses[j].taskId == groupId
            ensures j == g
          {
            SameTaskId(db.statuses, j, g);
          }
        }
        ChordJoin(db, user, id, task, g, now)
      case None => ChordFirst(db, user, id, task, groupId, body, uuid, now)
  }

  // ---------------------------------------------------------------------
  // The signal handler

  /** Lines 45-52 of `create_user_task`: the group's record when the task
      belongs to a group, then the task's record under it. Registration is
      the corrected one, which counts a task's steps into its group only
      when its record is created. */
  function SingleEntry(db: Db, user: UserRef, id: string, task: Task, taskset: Option<string>, now: int): (r: Db)
    requires Valid(db)
    ensures Valid(r) && r.events == db.events && r.artifacts == db.artifacts
    ensures !Fresh(db, id) && (taskset.None? || taskset == Some("")) ==> r == db
  {
    var (d, parent) := GroupParent(db, taskset, task.userTaskName, user, now);
    Register(d, Leaf(id, task, user, parent, now))
  }

  /** A task outside any group: one new record without a parent. */
  lemma SingleAlone(db: Db, user: UserRef, id: string, task: Task, taskset: Option<string>, now: int)
    requires Valid(db) && (taskset.None? || taskset == Some("")) && Fresh(db, id)
    ensures SingleEntry(db, user, id, task, taskset, now) ==
      db.(statuses := db.statuses[db.nextId := Leaf(id, task, user, None, now)], nextId := db.nextId + 1)
  {
  }

  /** `r` is `db` with a new group `groupId` at the next key, holding the
      steps of its first member, and that member under it at the key after. */
  ghost predicate NewGroupShape(db: Db, r: Db, user: UserRef, id: string, task: Task, groupId: string, now: int) {
    var g := db.nextId;
    && r.nextId == db.nextId + 2 && g in r.statuses && g + 1 in r.statuses
    && (forall k :: k in r.statuses <==> k in db.statuses || k == g || k == g + 1)
    && (forall k :: k in db.statuses ==> r.statuses[k] == db.statuses[k])
    && r.statuses[g] == Container(groupId, user, GroupClass, task.userTaskName, task.steps, now)
    && r.statuses[g + 1] == Leaf(id, task, user, Some(g), now)
  }

  /** A member of a group whose record does not exist yet: the group's
      record, holding the member's steps, then the member under it. */
  lemma SingleNewGroup(db: Db, user: UserRef, id: string, task: Task, groupId: string, now: int)
    requires Valid(db) && groupId != "" && Fresh(db, groupId) && id != groupId && Fresh(db, id)
    ensures NewGroupShape(db, SingleEntry(db, user, id, task, Some(groupId), now), user, id, task, groupId, now)
  {
    var g := db.nextId;
    var (d, parent) := GroupParent(db, Some(groupId), task.userTaskName, user, now);
    var c0 := Container(groupId, user, GroupClass, task.userTaskName, 0, now);
    NewGroupFresh(db, d, id, c0);
    var leaf := Leaf(id, task, user, parent, now);
    RegisterUnderRoot(d, leaf, g);
    NewGroupShapeFrom(db, d, Register(d, leaf), c0, leaf, user, id, task, groupId, now);
  }

  lemma NewGroupShapeFrom(db: Db, d: Db, r: Db, c0: Status, leaf: Status, user: UserRef, id: string, task: Task, groupId: string, now: int)
    requires db.nextId !in db.statuses && d.nextId == db.nextId + 1 && d.statuses == db.statuses[db.nextId := c0]
    requires c0 == Container(groupId, user, GroupClass, task.userTaskName, 0, now) && leaf == Leaf(id, task, user, Some(db.nextId), now)
    requires r.nextId == d.nextId + 1 && db.nextId in r.statuses && d.nextId in r.statuses
    requires forall k :: k in r.statuses <==> k in d.statuses || k == d.nextId
    requires forall k :: k in d.statuses && k != db.nextId ==> r.statuses[k] == d.statuses[k]
    requires r.statuses[db.nextId] == d.statuses[db.nextId].(totalSteps := d.statuses[db.nextId].totalSteps + leaf.totalSteps)
    requires r.statuses[d.nextId] == leaf
    ensures NewGroupShape(db, r, user, id, task, groupId, now)
  {
  }

  lemma NewGroupFresh(db: Db, d: Db, id: string, st: Status)
    requires KeysBelow(db.statuses, db.nextId) && Fresh(db, id) && id != st.taskId
    requires d.statuses == db.statuses[db.nextId := st]
    ensures Fresh(d, id)
  {
  }

  /** Registering a new task under a container without a parent raises that
      container's total and nothing else. */
  lemma RegisterUnderRoot(d: Db, leaf: Status, g: Id)
    requires Valid(d) && leaf.parent == Some(g) && Rooted(d, Some(g)) && Fresh(d, leaf.taskId)
    ensures var r := Register(d, leaf);
      && r.nextId == d.nextId + 1 && g in r.statuses && d.nextId in r.statuses
      && r.statuses.Keys == d.statuses.Keys + {d.nextId}
      && (forall k :: k in d.statuses && k != g ==> r.statuses[k] == d.statuses[k])
      && r.statuses[g] == d.statuses[g].(totalSteps := d.statuses[g].totalSteps + leaf.totalSteps)
      && r.statuses[d.nextId] == leaf
  {
    RaisedUnderRoot(d, leaf, g, Register(d, leaf));
  }

  lemma RaisedUnderRoot(d: Db, leaf: Status, g: Id, r: Db)
    requires Valid(d) && leaf.parent == Some(g) && Rooted(d, Some(g))
    requires r.nextId == d.nextId + 1 && r.statuses.Keys == d.statuses.Keys + {d.nextId} && r.statuses[d.nextId] == leaf
    requires forall k :: k in d.statuses ==> r.statuses[k] == Raised(d.statuses, leaf, k)
    ensures forall k :: k in d.statuses && k != g ==> r.statuses[k] == d.statuses[k]
    ensures r.statuses[g] == d.statuses[g].(totalSteps := d.statuses[g].totalSteps + leaf.totalSteps)
  {
    var p := Path(d.statuses, g);
    assert p == [g];
    forall k | k in d.statuses
      ensures Raised(d.statuses, leaf, k) == d.statuses[k].(totalSteps := d.statuses[k].totalSteps + if k == g then leaf.totalSteps else 0)
    {
      assert k in p <==> k == g;
    }
  }

  /** A new member of a group whose record `g` exists: the member under it,
      and its steps counted into the group and the group's ancestors; the
      group adopts the member's `user_task_name` while its own is empty. */
  lemma SingleJoinGroup(db: Db, user: UserRef, id: string, task: Task, g: Id, now: int)
    requires Valid(db) && g in db.statuses && db.statuses[g].taskId != "" && Fresh(db, id)
    ensures var r := SingleEntry(db, user, id, task, Some(db.statuses[g].taskId), now);
      && r.nextId == db.nextId + 1
      && r.statuses.Keys == db.statuses.Keys + {db.nextId}
      && r.statuses[db.nextId] == Leaf(id, task, user, Some(g), now)
      && r.statuses[g].totalSteps == db.statuses[g].totalSteps + task.steps
      && r.statuses[g].name == (if task.userTaskName != "" && db.statuses[g].name == "" then task.userTaskName else db.statuses[g].name)
      && r.statuses[g].taskId == db.statuses[g].taskId && r.statuses[g].taskClass == db.statuses[g].taskClass
      && r.statuses[g].parent == db.statuses[g].parent && r.statuses[g].isContainer == db.statuses[g].isContainer
      && forall k :: k in db.statuses && k !in Path(GroupParent(db, Some(db.statuses[g].taskId), task.userTaskName, user, now).0.statuses, g) ==>
           r.statuses[k] == db.statuses[k]
  {
    var (d, parent) := GroupParent(db, Some(db.statuses[g].taskId), task.userTaskName, user, now);
    assert parent == Some(g);
    assert Fresh(d, id) by {
      assert forall k :: k in d.statuses ==> d.statuses[k].taskId == db.statuses[k].taskId;
    }
    var leaf := Leaf(id, task, user, parent, now);
    assert SingleEntry(db, user, id, task, Some(db.statuses[g].taskId), now) == Register(d, leaf);
    var r := Register(d, leaf);
    JoinGroupFrom(db, d, r, leaf, g, task.userTaskName);
  }

  /** A new member of a group without a parent changes no record other than the group's. */
  lemma SingleJoinRootGroup(db: Db, user: UserRef, id: string, task: Task, g: Id, now: int)
    requires Valid(db) && g in db.statuses && db.statuses[g].taskId != "" && Fresh(db, id) && db.statuses[g].parent.None?
    ensures var r := SingleEntry(db, user, id, task, Some(db.statuses[g].taskId), now);
      forall k :: k in db.statuses && k != g ==> r.statuses[k] == db.statuses[k]
  {
    SingleJoinGroup(db, user, id, task, g, now);
    var d := GroupParent(db, Some(db.statuses[g].taskId), task.userTaskName, user, now).0;
    assert d.statuses[g].parent.None?;
    assert Path(d.statuses, g) == [g];
  }

  lemma JoinGroupFrom(db: Db, d: Db, r: Db, leaf: Status, g: Id, name: string)
    requires IsForest(d.statuses) && g in db.statuses && leaf.parent == Some(g)
    requires d.nextId == db.nextId
    requires d.statuses == db.statuses[g := db.statuses[g].(name := if name != "" && db.statuses[g].name == "" then name else db.statuses[g].name)]
    requires r.nextId == d.nextId + 1 && r.statuses.Keys == d.statuses.Keys + {d.nextId} && r.statuses[d.nextId] == leaf
    requires forall k :: k in d.statuses ==> r.statuses[k] == Raised(d.statuses, leaf, k)
    ensures r.nextId == db.nextId + 1 && r.statuses.Keys == db.statuses.Keys + {db.nextId} && r.statuses[db.nextId] == leaf
    ensures r.statuses[g] == db.statuses[g].(totalSteps := db.statuses[g].totalSteps + leaf.totalSteps,
      name := if name != "" && db.statuses[g].name == "" then name else db.statuses[g].name)
    ensures forall k :: k in db.statuses && k !in Path(d.statuses, g) ==> r.statuses[k] == db.statuses[k]
  {
    assert g in Path(d.statuses, g);
    assert r.statuses[g] == Raised(d.statuses, leaf, g);
  }

  /** `create_user_task`: nothing for a task that is not trackable; a user
      id error before any write; then a chain when the message has
      callbacks, a chord when it carries one, and otherwise `SingleEntry`. */
  function Publish(db: Db, m: Message, users: set<UserRef>, uuid: string, now: int): (r: Outcome)
    requires Valid(db)
    ensures Valid(r.db)
    ensures !m.task.trackable ==> r == Outcome(db, None)
    ensures m.task.trackable && GetUserId(m.task.userId, users).Err? ==>
      r == Outcome(db, Some(GetUserId(m.task.userId, users).error))
    ensures r.error == Some(MissingTaskset) <==>
      m.task.trackable && GetUserId(m.task.userId, users).Ok? && m.callbacks == [] && m.chord.Some? && m.taskset.None?
    ensures r.error.Some? && r.error.value.DuplicateTaskId? ==> m.callbacks != [] || m.chord.Some?
    ensures m.task.trackable && GetUserId(m.task.userId, users).Ok? && m.callbacks != [] ==>
      r == ChainEntry(db, m.task.userId.value, m.id, m.task, m.callbacks, None, uuid, now)
    ensures m.task.trackable && GetUserId(m.task.userId, users).Ok? && m.callbacks == [] && m.chord.Some? ==>
      r == ChordEntry(db, m.task.userId.value, m.id, m.task, m.taskset, m.chord.value, uuid, now)
    ensures m.task.trackable && GetUserId(m.task.userId, users).Ok? && m.callbacks == [] && m.chord.None? ==>
      r == Outcome(SingleEntry(db, m.task.userId.value, m.id, m.task, m.taskset, now), None)
  {
    if !m.task.trackable then Outcome(db, None)
    else
      match GetUserId(m.task.userId, users)
      case Err(e) => Outcome(db, Some(e))
      case Ok(user) =>
        if m.callbacks != [] then ChainEntry(db, user, m.id, m.task, m.callbacks, None, uuid, now)
        else if m.chord.Some? then ChordEntry(db, user, m.id, m.task, m.taskset, m.chord.value, uuid, now)
        else Outcome(SingleEntry(db, user, m.id, m.task, m.taskset, now), None)
  }
}
