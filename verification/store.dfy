/**
  The status record store: task status nodes linked into a forest through
  their parent references, the artifacts attached to them, and the
  notifications emitted while they change (`UserTaskStatus` and
  `UserTaskArtifact` in user_tasks/models.py).
 */
module Store {

  /** Primary key of a status record. */
  type Id = nat

  /** A user's primary key, in its text form. */
  type UserRef = string

  datatype Option<T> = None | Some(value: T)

  // The named states of a status record; any other string is a custom state.
  const Pending: string := "Pending"
  const InProgress: string := "In Progress"
  const Succeeded: string := "Succeeded"
  const Failed: string := "Failed"
  const Canceled: string := "Canceled"
  const Retrying: string := "Retrying"

  // Task classes of the synthetic container records.
  const GroupClass: string := "celery.group"
  const ChainClass: string := "celery.chain"
  const ChordClass: string := "celery.chord"

  /** One task, or one chain/group/chord of tasks. `created` is a timestamp in
      microseconds; the counters are unbounded integers. */
  datatype Status = Status(
    taskId: string,
    user: UserRef,
    parent: Option<Id>,
    isContainer: bool,
    taskClass: string,
    name: string,
    state: string,
    completedSteps: int,
    totalSteps: int,
    attempts: int,
    created: int)

  /** An output or error produced for a status; `file` is the stored file's
      name, empty when there is none. */
  datatype Artifact = Artifact(status: Id, name: string, file: string, url: string, text: string)

  /** Notifications the engine emits: a revocation request to the task queue
      for the task of a status, and the "stopped" signal for a status. */
  datatype Event = Revoke(status: Id) | Stopped(status: Id)

  /** The whole store. `nextId` is the key the next created record gets. */
  datatype Db = Db(statuses: map<Id, Status>, artifacts: seq<Artifact>, events: seq<Event>, nextId: Id)

  /** A record as the creating code writes it: waiting to start, nothing done, first attempt. */
  function NewStatus(taskId: string, user: UserRef, parent: Option<Id>, isContainer: bool,
                     taskClass: string, name: string, totalSteps: int, created: int): (st: Status)
    ensures st.state == Pending && st.completedSteps == 0 && st.attempts == 1
    ensures st.taskId == taskId && st.parent == parent && st.totalSteps == totalSteps
  {
    Status(taskId, user, parent, isContainer, taskClass, name, Pending, 0, totalSteps, 1, created)
  }

  predicate Terminal(state: string) {
    state == Canceled || state == Failed || state == Succeeded
  }

  predicate Waiting(state: string) {
    state == Pending || state == Retrying
  }

  /** A task (not a container) whose cancellation has been recorded. */
  predicate CanceledLeaf(st: Status) {
    st.state == Canceled && !st.isContainer
  }

  // ---------------------------------------------------------------------
  // The forest invariant

  /** `rank` strictly increases from every parent to its children, and every
      parent reference points at a stored record. */
  ghost predicate Ranked(s: map<Id, Status>, rank: map<Id, nat>) {
    forall k :: k in s ==>
      && k in rank
      && (s[k].parent.Some? ==> s[k].parent.value in s && s[k].parent.value in rank && rank[s[k].parent.value] < rank[k])
  }

  /** Parent references never dangle and never form a cycle. Parent keys are
      not ordered by creation (a chord's group is re-parented under the chord
      created after it), so acyclicity is a rank, not a key order. */
  ghost predicate IsForest(s: map<Id, Status>) {
    exists rank :: Ranked(s, rank)
  }

  ghost function RankOf(s: map<Id, Status>): (rank: map<Id, nat>)
    requires IsForest(s)
    ensures Ranked(s, rank)
  {
    var rank :| Ranked(s, rank); rank
  }

  /** `owner` maps the task id of every record back to its key. */
  ghost predicate Owns(s: map<Id, Status>, owner: map<string, Id>) {
    forall k :: k in s ==> s[k].taskId in owner && owner[s[k].taskId] == k
  }

  /** No two records share a task id (the column is unique). */
  ghost predicate UniqueTaskIds(s: map<Id, Status>) {
    exists owner :: Owns(s, owner)
  }

  ghost function OwnerOf(s: map<Id, Status>): (owner: map<string, Id>)
    requires UniqueTaskIds(s)
    ensures Owns(s, owner)
  {
    var owner :| Owns(s, owner); owner
  }

  /** Two records with the same task id are the same record. */
  lemma SameTaskId(s: map<Id, Status>, a: Id, b: Id)
    requires UniqueTaskIds(s) && a in s && b in s && s[a].taskId == s[b].taskId
    ensures a == b
  {
    var owner := OwnerOf(s);
    assert owner[s[a].taskId] == a && owner[s[b].taskId] == b;
  }

  ghost predicate KeysBelow(s: map<Id, Status>, n: Id) {
    forall k :: k in s ==> k < n
  }

  /** Every artifact belongs to a stored status (the foreign key). */
  ghost predicate ArtifactsOwned(s: map<Id, Status>, artifacts: seq<Artifact>) {
    forall i :: 0 <= i < |artifacts| ==> artifacts[i].status in s
  }

  /** The integrity the relational store guarantees. */
  ghost predicate Valid(db: Db) {
    && IsForest(db.statuses)
    && KeysBelow(db.statuses, db.nextId)
    && UniqueTaskIds(db.statuses)
    && ArtifactsOwned(db.statuses, db.artifacts)
  }

  // ---------------------------------------------------------------------
  // Parent chains

  /** No element occurs twice. */
  ghost predicate Distinct<T>(p: seq<T>) {
    forall i, j :: 0 <= i < j < |p| ==> p[i] != p[j]
  }

  /** Both halves of a sequence without repeats are without repeats, and share nothing. */
  lemma DistinctSplit<T>(a: seq<T>, b: seq<T>)
    requires Distinct(a + b)
    ensures Distinct(a) && Distinct(b) && forall x :: x in a ==> x !in b
  {
    assert forall i :: 0 <= i < |b| ==> (a + b)[|a| + i] == b[i];
    assert forall i :: 0 <= i < |a| ==> (a + b)[i] == a[i];
    forall i, j | 0 <= i < j < |b| ensures b[i] != b[j] {
      assert (a + b)[|a| + i] != (a + b)[|a| + j];
    }
  }

  /** `p` follows parent references from `p[0]` up to a root. */
  ghost predicate IsChain(s: map<Id, Status>, p: seq<Id>) {
    && |p| > 0
    && (forall i :: 0 <= i < |p| ==> p[i] in s)
    && (forall i :: 0 <= i < |p| - 1 ==> s[p[i]].parent == Some(p[i + 1]))
    && s[p[|p| - 1]].parent.None?
  }

  /** The node followed by all of its ancestors, nearest first. */
  function Path(s: map<Id, Status>, id: Id): (p: seq<Id>)
    requires IsForest(s) && id in s
    ensures IsChain(s, p) && p[0] == id && Distinct(p)
    ensures forall i :: 0 < i < |p| ==> RankOf(s)[p[i]] < RankOf(s)[id]
    decreases RankOf(s)[id]
  {
    match s[id].parent
    case None => [id]
    case Some(q) =>
      var up := Path(s, q);
      assert forall i :: 0 < i < |up| ==> RankOf(s)[up[i]] < RankOf(s)[q];
      [id] + up
  }

  /** A parent chain is determined by its first node. */
  lemma {:induction false} ChainIsPath(s: map<Id, Status>, p: seq<Id>)
    requires IsForest(s) && IsChain(s, p)
    ensures p == Path(s, p[0])
    decreases |p|
  {
    if |p| > 1 {
      assert s[p[0]].parent == Some(p[1]);
      assert IsChain(s, p[1..]);
      ChainIsPath(s, p[1..]);
      assert p == [p[0]] + p[1..];
    }
  }

  lemma PathOfChild(s: map<Id, Status>, id: Id)
    requires IsForest(s) && id in s && s[id].parent.Some?
    ensures Path(s, id) == [id] + Path(s, s[id].parent.value)
  {
  }

  /** Same keys, same parent references and container flags. */
  ghost predicate SameShape(s: map<Id, Status>, t: map<Id, Status>) {
    && t.Keys == s.Keys
    && forall k :: k in s ==> t[k].parent == s[k].parent && t[k].isContainer == s[k].isContainer
  }

  /** Changes that keep the shape keep the forest and every parent chain. */
  lemma ShapeKeepsPaths(s: map<Id, Status>, t: map<Id, Status>)
    requires IsForest(s) && SameShape(s, t)
    ensures IsForest(t)
    ensures forall id :: id in s ==> Path(t, id) == Path(s, id)
  {
    assert Ranked(t, RankOf(s));
    forall id | id in s
      ensures Path(t, id) == Path(s, id)
    {
      var p := Path(s, id);
      assert IsChain(t, p);
      ChainIsPath(t, p);
    }
  }

  // ---------------------------------------------------------------------
  // Queries

  /** Direct children of `parent` among the keys below `n`, in key order. */
  function ChildrenBelow(s: map<Id, Status>, parent: Id, n: nat): (r: seq<Id>)
    ensures forall c :: c in r <==> c < n && c in s && s[c].parent == Some(parent)
    ensures forall i, j :: 0 <= i < j < |r| ==> r[i] < r[j]
  {
    if n == 0 then []
    else
      var r := ChildrenBelow(s, parent, n - 1);
      assert forall i :: 0 <= i < |r| ==> r[i] in r;
      if n - 1 in s && s[n - 1].parent == Some(parent) then r + [n - 1] else r
  }

  /** The record whose task id is `taskId` among the keys below `n`. */
  function FindBelow(s: map<Id, Status>, taskId: string, n: nat): (r: Option<Id>)
    ensures r.Some? ==> r.value < n && r.value in s && s[r.value].taskId == taskId
    ensures r.None? ==> forall k :: k in s && k < n ==> s[k].taskId != taskId
  {
    if n == 0 then None
    else if n - 1 in s && s[n - 1].taskId == taskId then Some(n - 1)
    else FindBelow(s, taskId, n - 1)
  }

  /** `UserTaskStatus.objects.get(task_id=...)`. */
  function FindTask(db: Db, taskId: string): (r: Option<Id>)
    requires KeysBelow(db.statuses, db.nextId)
    ensures r.Some? ==> r.value in db.statuses && db.statuses[r.value].taskId == taskId
    ensures r.None? ==> forall k :: k in db.statuses ==> db.statuses[k].taskId != taskId
  {
    FindBelow(db.statuses, taskId, db.nextId)
  }

  // ---------------------------------------------------------------------
  // Creation

  /** Inserting a record under an existing parent (or as a root) keeps the forest. */
  lemma AddKeepsForest(s: map<Id, Status>, k: Id, st: Status)
    requires IsForest(s) && k !in s
    requires st.parent.Some? ==> st.parent.value in s
    ensures IsForest(s[k := st])
  {
    var rank := RankOf(s);
    var r: map<Id, nat> := if st.parent.Some? then rank[k := rank[st.parent.value] + 1] else rank[k := 0];
    assert Ranked(s[k := st], r);
  }

  /** A record with a task id not yet in the table keeps the ids unique. */
  lemma AddKeepsUnique(s: map<Id, Status>, k: Id, st: Status)
    requires UniqueTaskIds(s) && k !in s
    requires forall j :: j in s ==> s[j].taskId != st.taskId
    ensures UniqueTaskIds(s[k := st])
  {
    var owner := OwnerOf(s)[st.taskId := k];
    assert Owns(s[k := st], owner);
  }

  /** Stores `st` under the next key; the caller has checked that its task id is new. */
  function Insert(db: Db, st: Status): (r: Db)
    requires Valid(db)
    requires st.parent.Some? ==> st.parent.value in db.statuses
    requires forall k :: k in db.statuses ==> db.statuses[k].taskId != st.taskId
    ensures Valid(r)
    ensures r == db.(statuses := db.statuses[db.nextId := st], nextId := db.nextId + 1)
    ensures db.nextId !in db.statuses
  {
    AddKeepsForest(db.statuses, db.nextId, st);
    AddKeepsUnique(db.statuses, db.nextId, st);
    db.(statuses := db.statuses[db.nextId := st], nextId := db.nextId + 1)
  }

  /** A new key leaves every existing parent chain as it was. */
  lemma InsertKeepsPath(s: map<Id, Status>, n: Id, st: Status, k: Id)
    requires IsForest(s) && n !in s && IsForest(s[n := st]) && k in s
    ensures Path(s[n := st], k) == Path(s, k)
  {
    var p := Path(s, k);
    assert forall i :: 0 <= i < |p| ==> p[i] != n;
    assert IsChain(s[n := st], p);
    ChainIsPath(s[n := st], p);
  }

  /** `UserTaskStatus.objects.create(...)`: the task id is unique in the
      table, so a clash is refused and nothing is written. */
  function Create(db: Db, st: Status): (r: Option<Db>)
    requires Valid(db)
    requires st.parent.Some? ==> st.parent.value in db.statuses
    ensures r.None? <==> exists k :: k in db.statuses && db.statuses[k].taskId == st.taskId
    ensures r.Some? ==> Valid(r.value)
    ensures r.Some? ==> r.value == db.(statuses := db.statuses[db.nextId := st], nextId := db.nextId + 1)
  {
    if FindTask(db, st.taskId).Some? then None else Some(Insert(db, st))
  }

  /** `UserTaskStatus.objects.get_or_create(task_id=..., defaults=...)`: the
      record holding the task id if there is one, otherwise a new record
      built from `st`; `created` says which. */
  function GetOrCreate(db: Db, st: Status): (r: (Db, Id, bool))
    requires Valid(db)
    requires st.parent.Some? ==> st.parent.value in db.statuses
    ensures Valid(r.0) && r.1 in r.0.statuses && r.0.statuses[r.1].taskId == st.taskId
    ensures r.2 <==> forall k :: k in db.statuses ==> db.statuses[k].taskId != st.taskId
    ensures !r.2 ==> r.0 == db
    ensures r.2 ==> r.0 == db.(statuses := db.statuses[db.nextId := st], nextId := db.nextId + 1) && r.1 == db.nextId
  {
    match FindTask(db, st.taskId)
    case Some(k) => (db, k, false)
    case None => (Insert(db, st), db.nextId, true)
  }

  /** Nothing points at `k` as its parent. */
  ghost predicate Childless(s: map<Id, Status>, k: Id) {
    forall j :: j in s ==> s[j].parent != Some(k)
  }

  /** Hanging a root without children under another root keeps the forest
      (the chord's group is moved under the chord this way). */
  lemma AdoptKeepsValid(db: Db, g: Id, c: Id, st: Status)
    requires Valid(db) && g in db.statuses && c in db.statuses && g != c
    requires db.statuses[c].parent.None? && Childless(db.statuses, g)
    requires st.parent == Some(c) && st.taskId == db.statuses[g].taskId
    ensures Valid(db.(statuses := db.statuses[g := st]))
  {
    var s := db.statuses;
    var t := s[g := st];
    var rank := RankOf(s);
    var r := rank[g := rank[c] + 1];
    assert Ranked(t, r);
    assert Owns(t, OwnerOf(s));
  }

  // ---------------------------------------------------------------------
  // Filtering sequences

  /** `a` is `b` with some elements left out, the rest in order. */
  ghost predicate IsSubsequence<T>(a: seq<T>, b: seq<T>)
    decreases |b|
  {
    if |a| == 0 then true
    else if |b| == 0 then false
    else (a[0] == b[0] && IsSubsequence(a[1..], b[1..])) || IsSubsequence(a, b[1..])
  }

  /** The elements of `xs` satisfying `p`, in order (`queryset.filter(...)`). */
  function Keep<T(==,!new)>(xs: seq<T>, p: T -> bool): (r: seq<T>)
    ensures forall x :: x in r <==> x in xs && p(x)
    ensures |r| <= |xs|
  {
    if |xs| == 0 then []
    else if p(xs[0]) then [xs[0]] + Keep(xs[1..], p)
    else Keep(xs[1..], p)
  }

  /** What `Keep` returns is a subsequence of its input. */
  lemma {:induction false} KeepIsSubsequence<T(!new)>(xs: seq<T>, p: T -> bool)
    ensures IsSubsequence(Keep(xs, p), xs)
    decreases |xs|
  {
    if |xs| > 0 {
      KeepIsSubsequence(xs[1..], p);
      var r := Keep(xs[1..], p);
      if p(xs[0]) {
        assert ([xs[0]] + r)[1..] == r;
      } else if |r| > 0 {
        assert IsSubsequence(r, xs[1..]);
      }
    }
  }

  /** `Keep` keeps every copy of an element satisfying `p` and no copy of
      any other element. */
  lemma {:induction false} KeepCounts<T(!new)>(xs: seq<T>, p: T -> bool)
    ensures forall x :: multiset(Keep(xs, p))[x] == if p(x) then multiset(xs)[x] else 0
    decreases |xs|
  {
    if |xs| > 0 {
      KeepCounts(xs[1..], p);
      assert xs == [xs[0]] + xs[1..];
    }
  }

  /** Filtering a second time removes nothing more. */
  lemma {:induction false} KeepTwice<T(!new)>(xs: seq<T>, p: T -> bool)
    ensures Keep(Keep(xs, p), p) == Keep(xs, p)
    decreases |xs|
  {
    if |xs| > 0 {
      KeepTwice(xs[1..], p);
      if p(xs[0]) {
        assert ([xs[0]] + Keep(xs[1..], p))[1..] == Keep(xs[1..], p);
      }
    }
  }

  lemma {:induction false} SubsequenceOfItself<T>(xs: seq<T>)
    ensures IsSubsequence(xs, xs)
    decreases |xs|
  {
    if |xs| > 0 {
      SubsequenceOfItself(xs[1..]);
    }
  }

  /** Filters that agree on every element keep the same elements. */
  lemma {:induction false} KeepSame<T(!new)>(xs: seq<T>, p: T -> bool, q: T -> bool)
    requires forall x :: p(x) == q(x)
    ensures Keep(xs, p) == Keep(xs, q)
    decreases |xs|
  {
    if |xs| > 0 {
      KeepSame(xs[1..], p, q);
    }
  }
}
