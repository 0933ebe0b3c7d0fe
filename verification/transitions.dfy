/**
  The transition engine: the methods of `UserTaskStatus` in
  user_tasks/models.py that change one record and then walk up its parent
  chain (or, for cancellation, down through container children).

  Each walk up is taken over the precomputed parent chain `Path(s, id)`; the
  walks never change parent references, so this is the same walk the source
  performs by following `self.parent` one step at a time. Every operation is
  one sequential step over the store: locks, transactions and re-reads of
  the row are not modelled.
 */
module Transitions {
  import opened Store

  /** The store after a transition, or the store as it stood when
      `TaskCanceledException` was raised. */
  datatype Step = Done(db: Db) | TaskCanceled(db: Db)

  /** Applies `f` to every record on `path` and leaves the others alone. */
  function MapAlong(s: map<Id, Status>, path: seq<Id>, f: Status -> Status): (r: map<Id, Status>)
    requires forall i :: 0 <= i < |path| ==> path[i] in s
    requires Distinct(path)
    ensures r.Keys == s.Keys
    ensures forall k :: k in s ==> r[k] == if k in path then f(s[k]) else s[k]
    decreases |path|
  {
    if |path| == 0 then s
    else
      assert path[0] !in path[1..];
      MapAlong(s[path[0] := f(s[path[0]])], path[1..], f)
  }

  /** Editing fields other than the parent link, container flag and task id
      keeps the store's integrity. */
  lemma EditKeepsValid(db: Db, t: map<Id, Status>)
    requires SameShape(db.statuses, t)
    requires forall k :: k in t ==> t[k].taskId == db.statuses[k].taskId
    ensures Valid(db) ==> Valid(db.(statuses := t))
  {
    if Valid(db) {
      ShapeKeepsPaths(db.statuses, t);
      assert Owns(t, OwnerOf(db.statuses));
    }
  }

  // ---------------------------------------------------------------------
  // start()

  /** Every record strictly between `path[0]` and `path[i]`, and `path[i]`
      itself, was Pending or Retrying, so the walk of `start` reaches `path[i]`. */
  ghost predicate StartReaches(s: map<Id, Status>, path: seq<Id>, i: int)
  {
    forall m :: 1 <= m <= i && m < |path| && path[m] in s ==> Waiting(s[path[m]].state)
  }

  /** The walk of `start`: the record becomes In Progress, and its parent is
      started in turn only if it is Pending or Retrying. */
  function StartAlong(s: map<Id, Status>, path: seq<Id>): (r: map<Id, Status>)
    requires |path| > 0 && (forall i :: 0 <= i < |path| ==> path[i] in s) && Distinct(path)
    ensures StateOnly(s, r)
    decreases |path|
  {
    var s1 := s[path[0] := s[path[0]].(state := InProgress)];
    if |path| > 1 && Waiting(s1[path[1]].state) then
      var r := StartAlong(s1, path[1..]);
      StateOnlyThen(s, s1, r);
      r
    else s1
  }

  /** `start` touches no record off the chain. */
  lemma {:induction false} StartAlongFrame(s: map<Id, Status>, path: seq<Id>, k: Id)
    requires |path| > 0 && (forall i :: 0 <= i < |path| ==> path[i] in s) && Distinct(path)
    requires k in s && k !in path
    ensures StartAlong(s, path)[k] == s[k]
    decreases |path|
  {
    var s1 := s[path[0] := s[path[0]].(state := InProgress)];
    if |path| > 1 && Waiting(s1[path[1]].state) {
      StartAlongFrame(s1, path[1..], k);
    }
  }

  /** One step of the `start` walk, seen from the parent onwards. */
  lemma StartShift(s: map<Id, Status>, s1: map<Id, Status>, t: map<Id, Status>, path: seq<Id>)
    requires |path| > 1 && (forall i :: 0 <= i < |path| ==> path[i] in s) && Distinct(path)
    requires s1 == s[path[0] := s[path[0]].(state := InProgress)] && Waiting(s[path[1]].state)
    requires t.Keys == s.Keys && (forall k :: k in s1 && k !in path[1..] ==> t[k] == s1[k])
    requires forall i :: 0 <= i < |path[1..]| ==>
      t[path[1..][i]] == if StartReaches(s1, path[1..], i) then s1[path[1..][i]].(state := InProgress) else s1[path[1..][i]]
    ensures forall i :: 0 <= i < |path| ==>
      t[path[i]] == if StartReaches(s, path, i) then s[path[i]].(state := InProgress) else s[path[i]]
  {
    forall i | 0 <= i < |path|
      ensures t[path[i]] == if StartReaches(s, path, i) then s[path[i]].(state := InProgress) else s[path[i]]
    {
      if i == 0 {
        assert path[0] !in path[1..];
        assert StartReaches(s, path, 0);
      } else {
        assert path[1..][i - 1] == path[i] && path[i] != path[0];
        assert forall m :: 1 <= m < |path| ==> path[m] != path[0] && path[1..][m - 1] == path[m];
        assert StartReaches(s, path, i) <==> StartReaches(s1, path[1..], i - 1);
      }
    }
  }

  /** The records `start` sets In Progress: the record itself and each
      ancestor reached through waiting records only. */
  lemma {:induction false} StartAlongUpdates(s: map<Id, Status>, path: seq<Id>)
    requires |path| > 0 && (forall i :: 0 <= i < |path| ==> path[i] in s) && Distinct(path)
    ensures forall i :: 0 <= i < |path| ==>
      StartAlong(s, path)[path[i]] == if StartReaches(s, path, i) then s[path[i]].(state := InProgress) else s[path[i]]
    decreases |path|
  {
    var s1 := s[path[0] := s[path[0]].(state := InProgress)];
    if |path| > 1 && Waiting(s1[path[1]].state) {
      assert path[0] !in path[1..];
      StartAlongUpdates(s1, path[1..]);
      forall k | k in s1 && k !in path[1..] {
        StartAlongFrame(s1, path[1..], k);
      }
      StartShift(s, s1, StartAlong(s1, path[1..]), path);
    } else {
      StartHalts(s, s1, path);
    }
  }

  /** The `start` walk ends at `path[0]`: the chain ends there or the parent
      is not waiting. */
  lemma StartHalts(s: map<Id, Status>, s1: map<Id, Status>, path: seq<Id>)
    requires |path| > 0 && (forall i :: 0 <= i < |path| ==> path[i] in s) && Distinct(path)
    requires s1 == s[path[0] := s[path[0]].(state := InProgress)]
    requires |path| > 1 ==> !Waiting(s[path[1]].state)
    ensures forall i :: 0 <= i < |path| ==>
      s1[path[i]] == if StartReaches(s, path, i) then s[path[i]].(state := InProgress) else s[path[i]]
  {
    assert forall i :: 1 <= i < |path| ==> path[i] != path[0] && !StartReaches(s, path, i);
    assert StartReaches(s, path, 0);
  }

  /** `UserTaskStatus.start`: a canceled task refuses to start; otherwise the
      record and every waiting ancestor up to the first non-waiting one
      become In Progress. A Failed parent stays Failed. */
  function Start(db: Db, id: Id): (r: Step)
    requires IsForest(db.statuses) && id in db.statuses
    ensures r.TaskCanceled? <==> CanceledLeaf(db.statuses[id])
    ensures r.TaskCanceled? ==> r.db == db
    ensures r.db == db.(statuses := r.db.statuses) && r.db.statuses.Keys == db.statuses.Keys
    ensures r.Done? ==> r.db.statuses[id].state == InProgress
    ensures r.Done? ==> forall k :: k in db.statuses && k !in Path(db.statuses, id) ==> r.db.statuses[k] == db.statuses[k]
    ensures r.Done? && db.statuses[id].parent.Some? ==>
      var p := db.statuses[id].parent.value;
      r.db.statuses[p] == if Waiting(db.statuses[p].state) then db.statuses[p].(state := InProgress) else db.statuses[p]
    ensures Valid(db) ==> Valid(r.db)
  {
    var st := db.statuses[id];
    if st.state == Canceled && !st.isContainer then TaskCanceled(db)
    else
      var path := Path(db.statuses, id);
      var r := StartAlong(db.statuses, path);
      StartAlongUpdates(db.statuses, path);
      assert forall k :: k in db.statuses && k !in path ==> r[k] == db.statuses[k] by {
        forall k | k in db.statuses && k !in path {
          StartAlongFrame(db.statuses, path, k);
        }
      }
      assert StartReaches(db.statuses, path, 0);
      assert st.parent.Some? ==> |path| > 1 && path[1] == st.parent.value;
      EditKeepsValid(db, r);
      Done(db.(statuses := r))
  }

  // ---------------------------------------------------------------------
  // increment_completed_steps() and increment_total_steps()

  /** The increments of `increment_completed_steps` along `path`, then the
      cancellation check: each record on the walk raises after its ancestors
      have been incremented if it is a canceled task, so every increment
      happens and the walk raises if any record on it is a canceled task. */
  function IncrementAlong(db: Db, path: seq<Id>, n: int): (r: Step)
    requires (forall i :: 0 <= i < |path| ==> path[i] in db.statuses) && Distinct(path)
    ensures r.db == db.(statuses := r.db.statuses) && r.db.statuses.Keys == db.statuses.Keys
    ensures forall k :: k in db.statuses ==>
      r.db.statuses[k] == db.statuses[k].(completedSteps := db.statuses[k].completedSteps + if k in path then n else 0)
    ensures r.TaskCanceled? <==> exists i :: 0 <= i < |path| && CanceledLeaf(db.statuses[path[i]])
  {
    var s := MapAlong(db.statuses, path, (st: Status) => st.(completedSteps := st.completedSteps + n));
    if exists i :: 0 <= i < |path| && CanceledLeaf(db.statuses[path[i]]) then TaskCanceled(db.(statuses := s))
    else Done(db.(statuses := s))
  }

  /** `UserTaskStatus.increment_completed_steps`: adds `n` to the record and
      to every ancestor, changes nothing else, and reports cancellation if a
      canceled task lies on the chain. */
  function IncrementCompleted(db: Db, id: Id, n: int): (r: Step)
    requires IsForest(db.statuses) && id in db.statuses
    ensures r.db == db.(statuses := r.db.statuses) && r.db.statuses.Keys == db.statuses.Keys
    ensures r.db.statuses[id].completedSteps == db.statuses[id].completedSteps + n
    ensures forall k :: k in db.statuses ==>
      r.db.statuses[k] == db.statuses[k].(completedSteps := db.statuses[k].completedSteps + if k in Path(db.statuses, id) then n else 0)
    ensures CanceledLeaf(db.statuses[id]) ==> r.TaskCanceled?
    ensures r.TaskCanceled? <==> exists k :: k in Path(db.statuses, id) && CanceledLeaf(db.statuses[k])
  {
    var path := Path(db.statuses, id);
    var r := IncrementAlong(db, path, n);
    assert r.TaskCanceled? <==> exists k :: k in path && CanceledLeaf(db.statuses[k]) by {
      assert forall k :: k in path <==> exists i :: 0 <= i < |path| && path[i] == k;
    }
    r
  }

  /** `UserTaskStatus.increment_total_steps`: adds `n` to the record and to
      every ancestor and changes nothing else. */
  function IncrementTotal(db: Db, id: Id, n: int): (r: Db)
    requires IsForest(db.statuses) && id in db.statuses
    ensures r == db.(statuses := r.statuses) && r.statuses.Keys == db.statuses.Keys
    ensures r.statuses[id].totalSteps == db.statuses[id].totalSteps + n
    ensures forall k :: k in db.statuses ==>
      r.statuses[k] == db.statuses[k].(totalSteps := db.statuses[k].totalSteps + if k in Path(db.statuses, id) then n else 0)
    ensures Valid(db) ==> Valid(r)
  {
    var r := db.(statuses := MapAlong(db.statuses, Path(db.statuses, id), (st: Status) => st.(totalSteps := st.totalSteps + n)));
    EditKeepsValid(db, r.statuses); r
  }

  // ---------------------------------------------------------------------
  // cancel()

  /** Cancellation of `id` reaches `k`: `k` is `id`, or its parent is a
      container that cancellation reaches. */
  ghost predicate Covered(s: map<Id, Status>, id: Id, k: Id)
    requires IsForest(s) && k in s
    decreases RankOf(s)[k]
  {
    k == id || (s[k].parent.Some? && s[s[k].parent.value].isContainer && Covered(s, id, s[k].parent.value))
  }

  /** The records cancellation of `id` reaches. */
  ghost function Reach(s: map<Id, Status>, id: Id): set<Id>
    requires IsForest(s)
  {
    set k | k in s && Covered(s, id, k)
  }

  /** The records cancellation of any of `kids` reaches. */
  ghost function ReachAny(s: map<Id, Status>, kids: seq<Id>): set<Id>
    requires IsForest(s)
  {
    if |kids| == 0 then {} else Reach(s, kids[0]) + ReachAny(s, kids[1..])
  }

  /** `t` is `s` with every record of `reach` that had not finished set to
      Canceled, and nothing else changed. */
  ghost predicate CanceledWhere(s: map<Id, Status>, t: map<Id, Status>, reach: set<Id>) {
    && t.Keys == s.Keys
    && forall k :: k in s ==> t[k] == if k in reach && !Terminal(s[k].state) then s[k].(state := Canceled) else s[k]
  }

  /** Every event of `evs` names a task (not a container) of `reach` that was
      waiting to run in `s`. */
  ghost predicate Notices(s: map<Id, Status>, evs: seq<Event>, reach: set<Id>) {
    forall i :: 0 <= i < |evs| ==>
      evs[i].status in reach && evs[i].status in s && !s[evs[i].status].isContainer && Waiting(s[evs[i].status].state)
  }

  /** Each record of `s` that is a task of `reach` waiting to run is named
      by exactly one revocation request and one stopped notice of `evs`;
      every other record of `s` by none. */
  ghost predicate Announces(s: map<Id, Status>, evs: seq<Event>, reach: set<Id>) {
    forall k :: k in s ==>
      && multiset(evs)[Revoke(k)] == (if k in reach && !s[k].isContainer && Waiting(s[k].state) then 1 else 0)
      && multiset(evs)[Stopped(k)] == (if k in reach && !s[k].isContainer && Waiting(s[k].state) then 1 else 0)
  }

  /** The records whose rank is at least that of `id`: shrinks strictly when
      cancellation descends to a child. */
  ghost function Above(s: map<Id, Status>, id: Id): set<Id>
    requires IsForest(s)
  {
    set k | k in s && k in RankOf(s) && id in RankOf(s) && RankOf(s)[k] >= RankOf(s)[id]
  }

  lemma {:induction false} CoveredRank(s: map<Id, Status>, c: Id, k: Id)
    requires IsForest(s) && k in s && c in s && Covered(s, c, k)
    ensures RankOf(s)[c] <= RankOf(s)[k]
    decreases RankOf(s)[k]
  {
    if k != c {
      CoveredRank(s, c, s[k].parent.value);
    }
  }

  lemma {:induction false} CoveredFromChild(s: map<Id, Status>, id: Id, c: Id, k: Id)
    requires IsForest(s) && k in s && id in s && c in s
    requires s[c].parent == Some(id) && s[id].isContainer && Covered(s, c, k)
    ensures Covered(s, id, k)
    decreases RankOf(s)[k]
  {
    if k != c {
      CoveredFromChild(s, id, c, s[k].parent.value);
    }
  }

  /** A record other than `id` that cancellation of `id` reaches lies below
      a child of `id`, and `id` is a container. */
  lemma {:induction false} CoveredThroughChild(s: map<Id, Status>, id: Id, k: Id) returns (c: Id)
    requires IsForest(s) && k in s && id in s && k != id && Covered(s, id, k)
    ensures c in s && s[c].parent == Some(id) && s[id].isContainer && Covered(s, c, k)
    decreases RankOf(s)[k]
  {
    var p := s[k].parent.value;
    if p == id {
      c := k;
    } else {
      c := CoveredThroughChild(s, id, p);
    }
  }

  lemma {:induction false} ReachAnyMember(s: map<Id, Status>, kids: seq<Id>, k: Id)
    requires IsForest(s) && k in s
    ensures k in ReachAny(s, kids) <==> exists i :: 0 <= i < |kids| && Covered(s, kids[i], k)
    decreases |kids|
  {
    if |kids| > 0 {
      ReachAnyMember(s, kids[1..], k);
      if exists i :: 0 <= i < |kids| && Covered(s, kids[i], k) {
        var i :| 0 <= i < |kids| && Covered(s, kids[i], k);
        if i > 0 {
          assert kids[1..][i - 1] == kids[i];
        }
      }
      if exists i :: 0 <= i < |kids[1..]| && Covered(s, kids[1..][i], k) {
        var i :| 0 <= i < |kids[1..]| && Covered(s, kids[1..][i], k);
        assert kids[i + 1] == kids[1..][i];
      }
    }
  }

  lemma ReachAnyWithin(s: map<Id, Status>, kids: seq<Id>)
    requires IsForest(s)
    ensures ReachAny(s, kids) <= s.Keys
  {
    if |kids| > 0 {
      ReachAnyWithin(s, kids[1..]);
    }
  }

  /** The records reached through the children of container `id` are exactly
      the records other than `id` reached from `id`. */
  lemma ChildrenCover(s: map<Id, Status>, id: Id, kids: seq<Id>)
    requires IsForest(s) && id in s && s[id].isContainer
    requires forall c :: c in kids <==> c in s && s[c].parent == Some(id)
    ensures ReachAny(s, kids) == Reach(s, id) - {id}
  {
    ReachAnyWithin(s, kids);
    forall k | k in s
      ensures k in ReachAny(s, kids) <==> k in Reach(s, id) - {id}
    {
      ReachAnyMember(s, kids, k);
      if k in ReachAny(s, kids) {
        var i :| 0 <= i < |kids| && Covered(s, kids[i], k);
        CoveredRank(s, kids[i], k);
        CoveredFromChild(s, id, kids[i], k);
      }
      if k != id && Covered(s, id, k) {
        var c := CoveredThroughChild(s, id, k);
        assert c in kids;
        var i :| 0 <= i < |kids| && kids[i] == c;
      }
    }
  }

  /** Cancellation of a task reaches only the task itself. */
  lemma LeafReach(s: map<Id, Status>, id: Id)
    requires IsForest(s) && id in s && !s[id].isContainer
    ensures Reach(s, id) == {id}
  {
    forall k | k in s && Covered(s, id, k)
      ensures k == id
    {
      if k != id {
        var c := CoveredThroughChild(s, id, k);
      }
    }
  }

  /** Canceling `a` and then `b` cancels `a + b`: a record canceled by the
      first step is finished for the second. */
  lemma CanceledThen(s: map<Id, Status>, t: map<Id, Status>, u: map<Id, Status>, a: set<Id>, b: set<Id>)
    requires CanceledWhere(s, t, a) && CanceledWhere(t, u, b)
    ensures CanceledWhere(s, u, a + b)
  {
  }

  /** Events of a later step are events of the whole walk: a task still
      waiting after the first step was waiting before it. */
  lemma NoticesThen(s: map<Id, Status>, t: map<Id, Status>, e1: seq<Event>, e2: seq<Event>, a: set<Id>, b: set<Id>)
    requires Notices(s, e1, a) && CanceledWhere(s, t, a) && Notices(t, e2, b)
    ensures Notices(s, e1 + e2, a + b)
  {
    forall i | |e1| <= i < |e1 + e2|
      ensures (e1 + e2)[i] == e2[i - |e1|]
    {
    }
  }

  /** Cancellation always reaches the canceled record itself. */
  lemma ReachesItself(s: map<Id, Status>, id: Id)
    requires IsForest(s) && id in s
    ensures id in Reach(s, id) && Reach(s, id) == (Reach(s, id) - {id}) + {id}
  {
    assert Covered(s, id, id);
  }

  /** A later step announces nothing twice: a task announced by the first
      step is Canceled, so no longer waiting, in the second. */
  lemma AnnouncesThen(s: map<Id, Status>, t: map<Id, Status>, e1: seq<Event>, e2: seq<Event>, a: set<Id>, b: set<Id>)
    requires Announces(s, e1, a) && CanceledWhere(s, t, a) && Announces(t, e2, b)
    ensures Announces(s, e1 + e2, a + b)
  {
    forall k | k in s
      ensures multiset(e1 + e2)[Revoke(k)] == multiset(e1)[Revoke(k)] + multiset(e2)[Revoke(k)]
      ensures multiset(e1 + e2)[Stopped(k)] == multiset(e1)[Stopped(k)] + multiset(e2)[Stopped(k)]
    {
    }
  }

  /** A container is never announced, so adding it to the reach changes nothing. */
  lemma AnnouncesContainer(s: map<Id, Status>, evs: seq<Event>, a: set<Id>, id: Id)
    requires Announces(s, evs, a) && id in s && s[id].isContainer
    ensures Announces(s, evs, a + {id})
  {
  }

  lemma NoticesWithin(s: map<Id, Status>, evs: seq<Event>, a: set<Id>, b: set<Id>)
    requires Notices(s, evs, a) && a <= b
    ensures Notices(s, evs, b)
  {
  }

  /** `UserTaskStatus.cancel` on a store whose parent links are those of `s0`:
      the record's descendants or its task are dealt with first, then the
      record becomes Canceled unless it already finished. */
  function CancelFrom(db: Db, ghost s0: map<Id, Status>, id: Id): (r: Db)
    requires IsForest(s0) && SameShape(s0, db.statuses) && KeysBelow(db.statuses, db.nextId) && id in s0
    ensures r.artifacts == db.artifacts && r.nextId == db.nextId
    ensures CanceledWhere(db.statuses, r.statuses, Reach(s0, id))
    ensures db.events <= r.events
    ensures Notices(db.statuses, r.events[|db.events|..], Reach(s0, id))
    ensures Announces(db.statuses, r.events[|db.events|..], Reach(s0, id))
    ensures !db.statuses[id].isContainer ==>
      r.events == db.events + if Waiting(db.statuses[id].state) then [Revoke(id), Stopped(id)] else []
    decreases Above(s0, id), 2, 0
  {
    var db1 := CancelBelow(db, s0, id);
    var cur := db1.statuses[id];
    var r := db1.(statuses := CancelOne(db1.statuses, id));
    ReachesItself(s0, id);
    CanceledThen(db.statuses, db1.statuses, r.statuses, Reach(s0, id) - {id}, {id});
    r
  }

  /** The last part of `cancel`: under its lock, the record becomes
      Canceled unless it already finished. */
  function CancelOne(s: map<Id, Status>, id: Id): (r: map<Id, Status>)
    requires id in s
    ensures CanceledWhere(s, r, {id})
  {
    var cur := s[id];
    if Terminal(cur.state) then s else s[id := cur.(state := Canceled)]
  }

  /** The first part of `cancel`: a container cancels each child (in key
      order); a task waiting to run gets a revocation request and a stopped
      signal. The record itself is left as it was. */
  function CancelBelow(db: Db, ghost s0: map<Id, Status>, id: Id): (r: Db)
    requires IsForest(s0) && SameShape(s0, db.statuses) && KeysBelow(db.statuses, db.nextId) && id in s0
    ensures r.artifacts == db.artifacts && r.nextId == db.nextId
    ensures CanceledWhere(db.statuses, r.statuses, Reach(s0, id) - {id})
    ensures db.events <= r.events
    ensures Notices(db.statuses, r.events[|db.events|..], Reach(s0, id))
    ensures Announces(db.statuses, r.events[|db.events|..], Reach(s0, id))
    ensures !db.statuses[id].isContainer ==>
      r.events == db.events + if Waiting(db.statuses[id].state) then [Revoke(id), Stopped(id)] else []
    decreases Above(s0, id), 1, 0
  {
    var st := db.statuses[id];
    ReachesItself(s0, id);
    if st.isContainer then
      var kids := ChildrenBelow(db.statuses, id, db.nextId);
      ChildrenCover(s0, id, kids);
      var r := CancelEach(db, s0, kids, id);
      NoticesWithin(db.statuses, r.events[|db.events|..], Reach(s0, id) - {id}, Reach(s0, id));
      AnnouncesContainer(db.statuses, r.events[|db.events|..], Reach(s0, id) - {id}, id);
      r
    else
      LeafReach(s0, id);
      assert Reach(s0, id) - {id} == {};
      RevokeTask(db, id)
  }

  /** The first part of `cancel` for a task: a revocation request and a
      stopped signal if it is waiting to run, nothing otherwise. */
  function RevokeTask(db: Db, id: Id): (r: Db)
    requires id in db.statuses && !db.statuses[id].isContainer
    ensures r.statuses == db.statuses && r.artifacts == db.artifacts && r.nextId == db.nextId
    ensures db.events <= r.events
    ensures Notices(db.statuses, r.events[|db.events|..], {id})
    ensures Announces(db.statuses, r.events[|db.events|..], {id})
    ensures r.events == db.events + if Waiting(db.statuses[id].state) then [Revoke(id), Stopped(id)] else []
  {
    if Waiting(db.statuses[id].state) then
      var r := db.(events := db.events + [Revoke(id), Stopped(id)]);
      assert r.events[|db.events|..] == [Revoke(id), Stopped(id)];
      r
    else
      assert db.events[|db.events|..] == [];
      db
  }

  /** Cancels each of `kids`, children of `parent`, in order. */
  function CancelEach(db: Db, ghost s0: map<Id, Status>, kids: seq<Id>, ghost parent: Id): (r: Db)
    requires IsForest(s0) && SameShape(s0, db.statuses) && KeysBelow(db.statuses, db.nextId) && parent in s0
    requires forall i :: 0 <= i < |kids| ==> kids[i] in s0 && s0[kids[i]].parent == Some(parent)
    ensures r.artifacts == db.artifacts && r.nextId == db.nextId
    ensures CanceledWhere(db.statuses, r.statuses, ReachAny(s0, kids))
    ensures db.events <= r.events
    ensures Notices(db.statuses, r.events[|db.events|..], ReachAny(s0, kids))
    ensures Announces(db.statuses, r.events[|db.events|..], ReachAny(s0, kids))
    decreases Above(s0, parent), 0, |kids|
  {
    if |kids| == 0 then
      assert db.events[|db.events|..] == [];
      db
    else
      var c := kids[0];
      AboveShrinks(s0, parent, c);
      var db1 := CancelFrom(db, s0, c);
      CanceledKeepsKeys(s0, db, db1, Reach(s0, c));
      ChildrenTail(s0, kids, parent);
      var r := CancelEach(db1, s0, kids[1..], parent);
      ReachAnyCons(s0, kids);
      WalkThen(db.statuses, db1.statuses, r.statuses, db.events, db1.events, r.events,
               Reach(s0, c), ReachAny(s0, kids[1..]), ReachAny(s0, kids));
      r
  }

  /** Two cancellation walks in a row are one walk over both reaches. */
  lemma WalkThen(s: map<Id, Status>, t: map<Id, Status>, u: map<Id, Status>,
                 e0: seq<Event>, e1: seq<Event>, e2: seq<Event>, a: set<Id>, b: set<Id>, both: set<Id>)
    requires CanceledWhere(s, t, a) && CanceledWhere(t, u, b) && both == a + b
    requires e0 <= e1 <= e2 && Notices(s, e1[|e0|..], a) && Notices(t, e2[|e1|..], b)
    requires Announces(s, e1[|e0|..], a) && Announces(t, e2[|e1|..], b)
    ensures CanceledWhere(s, u, both) && e0 <= e2 && Notices(s, e2[|e0|..], both) && Announces(s, e2[|e0|..], both)
  {
    CanceledThen(s, t, u, a, b);
    NoticesThen(s, t, e1[|e0|..], e2[|e1|..], a, b);
    AnnouncesThen(s, t, e1[|e0|..], e2[|e1|..], a, b);
    SliceThen(e0, e1, e2);
  }

  lemma AboveShrinks(s: map<Id, Status>, parent: Id, c: Id)
    requires IsForest(s) && parent in s && c in s && s[c].parent == Some(parent)
    ensures Above(s, c) < Above(s, parent)
  {
    assert parent in Above(s, parent) && parent !in Above(s, c);
  }

  lemma SliceThen<T>(a: seq<T>, b: seq<T>, c: seq<T>)
    requires a <= b <= c
    ensures c[|a|..] == b[|a|..] + c[|b|..]
  {
  }

  lemma ChildrenTail(s0: map<Id, Status>, kids: seq<Id>, parent: Id)
    requires |kids| > 0
    requires forall i :: 0 <= i < |kids| ==> kids[i] in s0 && s0[kids[i]].parent == Some(parent)
    ensures forall i :: 0 <= i < |kids[1..]| ==> kids[1..][i] in s0 && s0[kids[1..][i]].parent == Some(parent)
  {
    assert forall i :: 0 <= i < |kids[1..]| ==> kids[1..][i] == kids[i + 1];
  }

  lemma ReachAnyCons(s0: map<Id, Status>, kids: seq<Id>)
    requires IsForest(s0) && |kids| > 0
    ensures ReachAny(s0, kids) == Reach(s0, kids[0]) + ReachAny(s0, kids[1..])
  {
  }

  lemma CanceledKeepsKeys(s0: map<Id, Status>, db: Db, db1: Db, reach: set<Id>)
    requires SameShape(s0, db.statuses) && KeysBelow(db.statuses, db.nextId)
    requires CanceledWhere(db.statuses, db1.statuses, reach) && db1.nextId == db.nextId
    ensures SameShape(s0, db1.statuses) && KeysBelow(db1.statuses, db1.nextId)
  {
  }

  lemma CanceledKeepsShape(s0: map<Id, Status>, s: map<Id, Status>, t: map<Id, Status>, reach: set<Id>)
    requires SameShape(s0, s) && CanceledWhere(s, t, reach)
    ensures SameShape(s0, t)
  {
  }

  lemma ReachIsCovered(s: map<Id, Status>, id: Id)
    requires IsForest(s)
    ensures forall k :: k in s ==> (k in Reach(s, id) <==> Covered(s, id, k))
  {
  }

  lemma NoticesAt(s: map<Id, Status>, before: seq<Event>, after: seq<Event>, reach: set<Id>)
    requires before <= after && Notices(s, after[|before|..], reach)
    ensures forall i :: |before| <= i < |after| ==>
      after[i].status in reach && after[i].status in s && !s[after[i].status].isContainer && Waiting(s[after[i].status].state)
  {
    forall i | |before| <= i < |after|
      ensures after[i] == after[|before|..][i - |before|]
    {
    }
  }

  lemma AnnouncesCovered(s: map<Id, Status>, evs: seq<Event>, id: Id)
    requires IsForest(s) && Announces(s, evs, Reach(s, id))
    ensures forall k :: k in s ==>
      var n := if Covered(s, id, k) && !s[k].isContainer && Waiting(s[k].state) then 1 else 0;
      multiset(evs)[Revoke(k)] == n && multiset(evs)[Stopped(k)] == n
  {
    ReachIsCovered(s, id);
  }

  /** `UserTaskStatus.cancel`: every record the cancellation reaches (the
      record and, through containers, its descendants) becomes Canceled unless
      it had already finished; finished records keep their state; nothing
      else changes; only waiting tasks among them are revoked and reported
      stopped. */
  function Cancel(db: Db, id: Id): (r: Db)
    requires IsForest(db.statuses) && KeysBelow(db.statuses, db.nextId) && id in db.statuses
    ensures r.artifacts == db.artifacts && r.nextId == db.nextId && r.statuses.Keys == db.statuses.Keys
    ensures forall k :: k in db.statuses ==>
      r.statuses[k] == if Covered(db.statuses, id, k) && !Terminal(db.statuses[k].state)
                       then db.statuses[k].(state := Canceled) else db.statuses[k]
    ensures db.events <= r.events
    ensures forall i :: |db.events| <= i < |r.events| ==>
      var k := r.events[i].status;
      k in db.statuses && Covered(db.statuses, id, k) && !db.statuses[k].isContainer && Waiting(db.statuses[k].state)
    ensures forall k :: k in db.statuses ==>
      var n := if Covered(db.statuses, id, k) && !db.statuses[k].isContainer && Waiting(db.statuses[k].state) then 1 else 0;
      multiset(r.events[|db.events|..])[Revoke(k)] == n && multiset(r.events[|db.events|..])[Stopped(k)] == n
    ensures !db.statuses[id].isContainer ==>
      r.events == db.events + if Waiting(db.statuses[id].state) then [Revoke(id), Stopped(id)] else []
    ensures Valid(db) ==> Valid(r)
  {
    var r := CancelFrom(db, db.statuses, id);
    CancelCovers(db, id, r);
    CanceledKeepsShape(db.statuses, db.statuses, r.statuses, Reach(db.statuses, id));
    EditKeepsValid(db, r.statuses);
    r
  }

  /** The walk's guarantees about its reach, restated through `Covered`. */
  lemma CancelCovers(db: Db, id: Id, r: Db)
    requires IsForest(db.statuses) && id in db.statuses && db.events <= r.events
    requires CanceledWhere(db.statuses, r.statuses, Reach(db.statuses, id))
    requires Notices(db.statuses, r.events[|db.events|..], Reach(db.statuses, id))
    requires Announces(db.statuses, r.events[|db.events|..], Reach(db.statuses, id))
    ensures forall k :: k in db.statuses ==>
      r.statuses[k] == if Covered(db.statuses, id, k) && !Terminal(db.statuses[k].state)
                       then db.statuses[k].(state := Canceled) else db.statuses[k]
    ensures forall i :: |db.events| <= i < |r.events| ==>
      var k := r.events[i].status;
      k in db.statuses && Covered(db.statuses, id, k) && !db.statuses[k].isContainer && Waiting(db.statuses[k].state)
    ensures forall k :: k in db.statuses ==>
      var n := if Covered(db.statuses, id, k) && !db.statuses[k].isContainer && Waiting(db.statuses[k].state) then 1 else 0;
      multiset(r.events[|db.events|..])[Revoke(k)] == n && multiset(r.events[|db.events|..])[Stopped(k)] == n
  {
    ReachIsCovered(db.statuses, id);
    NoticesAt(db.statuses, db.events, r.events, Reach(db.statuses, id));
    AnnouncesCovered(db.statuses, r.events[|db.events|..], id);
  }

  // ---------------------------------------------------------------------
  // fail(), retry(), set_name(), set_state()

  function ErrorArtifact(status: Id, message: string): Artifact {
    Artifact(status, "Error", "", "", message)
  }

  /** One Error artifact per record of `path`, in order. */
  function ErrorArtifacts(path: seq<Id>, message: string): (r: seq<Artifact>)
    ensures |r| == |path|
    ensures forall i :: 0 <= i < |path| ==> r[i] == ErrorArtifact(path[i], message)
  {
    if |path| == 0 then [] else [ErrorArtifact(path[0], message)] + ErrorArtifacts(path[1..], message)
  }

  /** `UserTaskStatus.fail`: the record and every ancestor become Failed,
      whatever their state was, and each gets one Error artifact carrying the
      message, nearest first. */
  function Fail(db: Db, id: Id, message: string): (r: Db)
    requires IsForest(db.statuses) && id in db.statuses
    ensures r.events == db.events && r.nextId == db.nextId && r.statuses.Keys == db.statuses.Keys
    ensures forall k :: k in db.statuses ==>
      r.statuses[k] == db.statuses[k].(state := if k in Path(db.statuses, id) then Failed else db.statuses[k].state)
    ensures |r.artifacts| == |db.artifacts| + |Path(db.statuses, id)|
    ensures r.artifacts[..|db.artifacts|] == db.artifacts
    ensures forall i :: 0 <= i < |Path(db.statuses, id)| ==>
      r.artifacts[|db.artifacts| + i] == ErrorArtifact(Path(db.statuses, id)[i], message)
    ensures Valid(db) ==> Valid(r)
  {
    var path := Path(db.statuses, id);
    var t := MapAlong(db.statuses, path, MarkFailed);
    FailedAlong(db.statuses, id);
    ErrorsAppended(db.artifacts, path, message);
    FailKeepsValid(db, t, path, message);
    db.(statuses := t, artifacts := db.artifacts + ErrorArtifacts(path, message))
  }

  /** The record as `fail` leaves it. */
  function MarkFailed(st: Status): Status
  {
    st.(state := Failed)
  }

  /** Exactly the records of the chain become Failed. */
  lemma FailedAlong(s: map<Id, Status>, id: Id)
    requires IsForest(s) && id in s
    ensures var t := MapAlong(s, Path(s, id), MarkFailed);
      && t.Keys == s.Keys
      && forall k :: k in s ==> t[k] == s[k].(state := if k in Path(s, id) then Failed else s[k].state)
  {
  }

  /** The Error artifacts follow the existing ones, one per record of the chain, in order. */
  lemma ErrorsAppended(a: seq<Artifact>, path: seq<Id>, message: string)
    ensures var b := a + ErrorArtifacts(path, message);
      && |b| == |a| + |path| && b[..|a|] == a
      && forall i :: 0 <= i < |path| ==> b[|a| + i] == ErrorArtifact(path[i], message)
  {
    var b := a + ErrorArtifacts(path, message);
    assert b[..|a|] == a;
  }

  /** New states and one Error artifact per record of the chain keep the
      store valid. */
  lemma FailKeepsValid(db: Db, t: map<Id, Status>, path: seq<Id>, message: string)
    requires forall i :: 0 <= i < |path| ==> path[i] in db.statuses
    requires StateOnly(db.statuses, t)
    ensures Valid(db) ==> Valid(db.(statuses := t, artifacts := db.artifacts + ErrorArtifacts(path, message)))
  {
    EditKeepsValid(db, t);
    if Valid(db) {
      var a := db.artifacts + ErrorArtifacts(path, message);
      forall i | 0 <= i < |a|
        ensures a[i].status in t
      {
        if i >= |db.artifacts| {
          assert a[i] == ErrorArtifact(path[i - |db.artifacts|], message);
        }
      }
    }
  }

  /** `UserTaskStatus.retry`: one more attempt and state Retrying, on this
      record only; the parent keeps its state. */
  function Retry(db: Db, id: Id): (r: Db)
    requires id in db.statuses
    ensures r == db.(statuses := r.statuses) && r.statuses.Keys == db.statuses.Keys
    ensures r.statuses[id].attempts == db.statuses[id].attempts + 1 && r.statuses[id].state == Retrying
    ensures r.statuses[id] == db.statuses[id].(attempts := r.statuses[id].attempts, state := r.statuses[id].state)
    ensures forall k :: k in db.statuses && k != id ==> r.statuses[k] == db.statuses[k]
    ensures Valid(db) ==> Valid(r)
  {
    var st := db.statuses[id];
    var r := db.(statuses := db.statuses[id := st.(attempts := st.attempts + 1, state := Retrying)]);
    EditKeepsValid(db, r.statuses); r
  }

  /** `UserTaskStatus.set_name`: the record and every ancestor get the name. */
  function SetName(db: Db, id: Id, name: string): (r: Db)
    requires IsForest(db.statuses) && id in db.statuses
    ensures r == db.(statuses := r.statuses) && r.statuses.Keys == db.statuses.Keys
    ensures forall k :: k in db.statuses ==>
      r.statuses[k] == db.statuses[k].(name := if k in Path(db.statuses, id) then name else db.statuses[k].name)
    ensures Valid(db) ==> Valid(r)
  {
    var r := db.(statuses := MapAlong(db.statuses, Path(db.statuses, id), (st: Status) => st.(name := name)));
    EditKeepsValid(db, r.statuses); r
  }

  /** The walk of `set_state` reaches `path[i]`: no parent on the way up to
      it is a group. */
  ghost predicate StateReaches(s: map<Id, Status>, path: seq<Id>, i: int)
  {
    forall m :: 1 <= m <= i && m < |path| && path[m] in s ==> s[path[m]].taskClass != GroupClass
  }

  /** No canceled task among `path[0..i]`. */
  ghost predicate UncanceledTo(s: map<Id, Status>, path: seq<Id>, i: int)
  {
    forall m :: 0 <= m <= i && m < |path| && path[m] in s ==> !CanceledLeaf(s[path[m]])
  }

  /** `t` differs from `s` at most in the states of its records. */
  ghost predicate StateOnly(s: map<Id, Status>, t: map<Id, Status>) {
    t.Keys == s.Keys && forall k :: k in s ==> t[k] == s[k].(state := t[k].state)
  }

  lemma StateOnlyThen(s: map<Id, Status>, t: map<Id, Status>, u: map<Id, Status>)
    requires StateOnly(s, t) && StateOnly(t, u)
    ensures StateOnly(s, u)
  {
  }

  /** One step of the `set_state` walk, seen from the parent onwards. */
  lemma StateShift(s: map<Id, Status>, s1: map<Id, Status>, path: seq<Id>, state: string)
    requires |path| > 1 && (forall i :: 0 <= i < |path| ==> path[i] in s) && Distinct(path)
    requires s1 == s[path[0] := s[path[0]].(state := state)]
    requires !CanceledLeaf(s[path[0]]) && s[path[1]].taskClass != GroupClass
    ensures forall i :: 1 <= i < |path| ==>
      && path[1..][i - 1] == path[i] && s1[path[i]] == s[path[i]]
      && (StateReaches(s, path, i) <==> StateReaches(s1, path[1..], i - 1))
      && (UncanceledTo(s, path, i) <==> UncanceledTo(s1, path[1..], i - 1))
  {
    assert forall i :: 1 <= i < |path| ==> path[1..][i - 1] == path[i] && path[i] != path[0];
  }

  /** The `set_state` walk reaches a canceled task exactly when its remainder
      from the parent onwards does. */
  lemma StateShiftRaises(s: map<Id, Status>, s1: map<Id, Status>, path: seq<Id>, state: string)
    requires |path| > 1 && (forall i :: 0 <= i < |path| ==> path[i] in s) && Distinct(path)
    requires s1 == s[path[0] := s[path[0]].(state := state)]
    requires !CanceledLeaf(s[path[0]]) && s[path[1]].taskClass != GroupClass
    ensures (exists i :: 0 <= i < |path| && StateReaches(s, path, i) && CanceledLeaf(s[path[i]])) <==>
            (exists i :: 0 <= i < |path[1..]| && StateReaches(s1, path[1..], i) && CanceledLeaf(s1[path[1..][i]]))
  {
    StateShift(s, s1, path, state);
    if exists i :: 0 <= i < |path| && StateReaches(s, path, i) && CanceledLeaf(s[path[i]]) {
      var i :| 0 <= i < |path| && StateReaches(s, path, i) && CanceledLeaf(s[path[i]]);
      assert i != 0;
      assert path[1..][i - 1] == path[i] && s1[path[i]] == s[path[i]];
      assert StateReaches(s1, path[1..], i - 1) && CanceledLeaf(s1[path[1..][i - 1]]);
    }
    if exists i :: 0 <= i < |path[1..]| && StateReaches(s1, path[1..], i) && CanceledLeaf(s1[path[1..][i]]) {
      var i :| 0 <= i < |path[1..]| && StateReaches(s1, path[1..], i) && CanceledLeaf(s1[path[1..][i]]);
      assert path[1..][i] == path[i + 1] && s1[path[i + 1]] == s[path[i + 1]];
      assert StateReaches(s, path, i + 1) && CanceledLeaf(s[path[i + 1]]);
    }
  }

  /** The records the `set_state` walk updates, given what the rest of the
      walk did from the parent onwards. */
  lemma StateStep(s: map<Id, Status>, s1: map<Id, Status>, t: map<Id, Status>, path: seq<Id>, state: string)
    requires |path| > 1 && (forall i :: 0 <= i < |path| ==> path[i] in s) && Distinct(path)
    requires s1 == s[path[0] := s[path[0]].(state := state)]
    requires !CanceledLeaf(s[path[0]]) && s[path[1]].taskClass != GroupClass
    requires t.Keys == s.Keys && (forall k :: k in s1 && k !in path[1..] ==> t[k] == s1[k])
    requires forall i :: 0 <= i < |path[1..]| ==>
      t[path[1..][i]] ==
        if StateReaches(s1, path[1..], i) && UncanceledTo(s1, path[1..], i)
        then s1[path[1..][i]].(state := state) else s1[path[1..][i]]
    ensures forall i :: 0 <= i < |path| ==>
      t[path[i]] ==
        if StateReaches(s, path, i) && UncanceledTo(s, path, i)
        then s[path[i]].(state := state) else s[path[i]]
  {
    StateShift(s, s1, path, state);
    forall i | 0 <= i < |path|
      ensures t[path[i]] ==
        if StateReaches(s, path, i) && UncanceledTo(s, path, i)
        then s[path[i]].(state := state) else s[path[i]]
    {
      if i == 0 {
        assert path[0] !in path[1..];
        assert StateReaches(s, path, 0) && UncanceledTo(s, path, 0);
      } else {
        assert t[path[i]] == t[path[1..][i - 1]];
      }
    }
  }

  /** The `set_state` walk ends at `path[0]`: the chain ends there or the
      parent is a group. */
  lemma StateHalts(s: map<Id, Status>, s1: map<Id, Status>, path: seq<Id>, state: string)
    requires |path| > 0 && (forall i :: 0 <= i < |path| ==> path[i] in s) && Distinct(path)
    requires s1 == s[path[0] := s[path[0]].(state := state)]
    requires !CanceledLeaf(s[path[0]]) && (|path| > 1 ==> s[path[1]].taskClass == GroupClass)
    ensures forall i :: 0 <= i < |path| ==>
      s1[path[i]] ==
        if StateReaches(s, path, i) && UncanceledTo(s, path, i)
        then s[path[i]].(state := state) else s[path[i]]
    ensures forall i :: 0 <= i < |path| && StateReaches(s, path, i) ==> i == 0
  {
    assert forall i :: 1 <= i < |path| ==> path[i] != path[0] && !StateReaches(s, path, i);
    assert StateReaches(s, path, 0) && UncanceledTo(s, path, 0);
  }

  /** The walk of `set_state`: a canceled task raises, the records before it
      keep the new state; otherwise the state is set and the walk continues
      to the parent unless the parent is a group. */
  function SetStateAlong(s: map<Id, Status>, path: seq<Id>, state: string): (r: (map<Id, Status>, bool))
    requires |path| > 0 && (forall i :: 0 <= i < |path| ==> path[i] in s) && Distinct(path)
    ensures StateOnly(s, r.0)
    ensures CanceledLeaf(s[path[0]]) ==> r == (s, true)
    decreases |path|
  {
    if CanceledLeaf(s[path[0]]) then (s, true)
    else
      var s1 := s[path[0] := s[path[0]].(state := state)];
      if |path| > 1 && s1[path[1]].taskClass != GroupClass then
        var r := SetStateAlong(s1, path[1..], state);
        StateOnlyThen(s, s1, r.0);
        r
      else (s1, false)
  }

  /** `set_state` touches no record off the chain. */
  lemma {:induction false} SetStateAlongFrame(s: map<Id, Status>, path: seq<Id>, state: string, k: Id)
    requires |path| > 0 && (forall i :: 0 <= i < |path| ==> path[i] in s) && Distinct(path)
    requires k in s && k !in path
    ensures SetStateAlong(s, path, state).0[k] == s[k]
    decreases |path|
  {
    if !CanceledLeaf(s[path[0]]) {
      var s1 := s[path[0] := s[path[0]].(state := state)];
      if |path| > 1 && s1[path[1]].taskClass != GroupClass {
        SetStateAlongFrame(s1, path[1..], state, k);
      }
    }
  }

  /** The records the `set_state` walk updates: those it reaches before any
      canceled task. */
  lemma {:induction false} SetStateAlongUpdates(s: map<Id, Status>, path: seq<Id>, state: string)
    requires |path| > 0 && (forall i :: 0 <= i < |path| ==> path[i] in s) && Distinct(path)
    ensures forall i :: 0 <= i < |path| ==>
      SetStateAlong(s, path, state).0[path[i]] ==
        if StateReaches(s, path, i) && UncanceledTo(s, path, i)
        then s[path[i]].(state := state) else s[path[i]]
    decreases |path|
  {
    if CanceledLeaf(s[path[0]]) {
      assert forall i :: 0 <= i < |path| ==> !UncanceledTo(s, path, i);
    } else {
      var s1 := s[path[0] := s[path[0]].(state := state)];
      if |path| > 1 && s1[path[1]].taskClass != GroupClass {
        SetStateAlongUpdates(s1, path[1..], state);
        forall k | k in s1 && k !in path[1..] {
          SetStateAlongFrame(s1, path[1..], state, k);
        }
        StateStep(s, s1, SetStateAlong(s1, path[1..], state).0, path, state);
      } else {
        StateHalts(s, s1, path, state);
      }
    }
  }

  /** The `set_state` walk raises exactly when it reaches a canceled task. */
  lemma {:induction false} SetStateAlongRaises(s: map<Id, Status>, path: seq<Id>, state: string)
    requires |path| > 0 && (forall i :: 0 <= i < |path| ==> path[i] in s) && Distinct(path)
    ensures SetStateAlong(s, path, state).1 <==>
      exists i :: 0 <= i < |path| && StateReaches(s, path, i) && CanceledLeaf(s[path[i]])
    decreases |path|
  {
    if CanceledLeaf(s[path[0]]) {
      assert StateReaches(s, path, 0);
    } else {
      var s1 := s[path[0] := s[path[0]].(state := state)];
      if |path| > 1 && s1[path[1]].taskClass != GroupClass {
        SetStateAlongRaises(s1, path[1..], state);
        StateShiftRaises(s, s1, path, state);
      } else {
        StateHalts(s, s1, path, state);
      }
    }
  }

  /** `UserTaskStatus.set_state`: a canceled task raises and keeps its state;
      otherwise the custom state goes to the record and up the chain, stopping
      below the first group container. */
  function SetState(db: Db, id: Id, state: string): (r: Step)
    requires IsForest(db.statuses) && id in db.statuses
    ensures r.db == db.(statuses := r.db.statuses) && r.db.statuses.Keys == db.statuses.Keys
    ensures CanceledLeaf(db.statuses[id]) ==> r == TaskCanceled(db)
    ensures !CanceledLeaf(db.statuses[id]) ==> r.db.statuses[id] == db.statuses[id].(state := state)
    ensures StateOnly(db.statuses, r.db.statuses)
    ensures forall k :: k in db.statuses && k !in Path(db.statuses, id) ==> r.db.statuses[k] == db.statuses[k]
    ensures forall p :: db.statuses[id].parent == Some(p) && p in db.statuses && db.statuses[p].taskClass == GroupClass ==>
      r.db.statuses[p] == db.statuses[p]
    ensures r.TaskCanceled? <==>
      exists i :: 0 <= i < |Path(db.statuses, id)| && StateReaches(db.statuses, Path(db.statuses, id), i)
        && CanceledLeaf(db.statuses[Path(db.statuses, id)[i]])
    ensures Valid(db) ==> Valid(r.db)
  {
    var w := SetStateAlong(db.statuses, Path(db.statuses, id), state);
    SetStateWalk(db.statuses, id, state);
    EditKeepsValid(db, w.0);
    if w.1 then TaskCanceled(db.(statuses := w.0)) else Done(db.(statuses := w.0))
  }

  /** What the `set_state` walk does along the record's parent chain. */
  lemma SetStateWalk(s: map<Id, Status>, id: Id, state: string)
    requires IsForest(s) && id in s
    ensures var path := Path(s, id);
      var w := SetStateAlong(s, path, state);
      && StateOnly(s, w.0)
      && (CanceledLeaf(s[id]) ==> w == (s, true))
      && (!CanceledLeaf(s[id]) ==> w.0[id] == s[id].(state := state))
      && (forall k :: k in s && k !in path ==> w.0[k] == s[k])
      && (forall p :: s[id].parent == Some(p) && p in s && s[p].taskClass == GroupClass ==> w.0[p] == s[p])
      && (w.1 <==> exists i :: 0 <= i < |path| && StateReaches(s, path, i) && CanceledLeaf(s[path[i]]))
  {
    var path := Path(s, id);
    var w := SetStateAlong(s, path, state);
    SetStateAlongUpdates(s, path, state);
    SetStateAlongRaises(s, path, state);
    forall k | k in s && k !in path
      ensures w.0[k] == s[k]
    {
      SetStateAlongFrame(s, path, state, k);
    }
    assert StateReaches(s, path, 0) && path[0] == id;
    if !CanceledLeaf(s[id]) {
      assert UncanceledTo(s, path, 0);
      assert s[id].parent.Some? ==> |path| > 1 && path[1] == s[id].parent.value;
    }
  }

  // ---------------------------------------------------------------------
  // succeed()

  /** Every child of `p` other than `id` has succeeded. */
  ghost predicate SiblingsSucceeded(s: map<Id, Status>, p: Id, id: Id) {
    forall k :: k in s && k != id && s[k].parent == Some(p) ==> s[k].state == Succeeded
  }

  /** No record under `p` is in a state other than Succeeded (the query of `succeed`). */
  predicate ChildrenSucceeded(s: map<Id, Status>, p: Id) {
    forall k | k in s :: s[k].parent == Some(p) ==> s[k].state == Succeeded
  }

  function Max(a: int, b: int): int {
    if a < b then b else a
  }

  /** A child of `path[1]` other than `path[0]` is not on the chain. */
  lemma SiblingOffChain(s: map<Id, Status>, path: seq<Id>, k: Id)
    requires IsChain(s, path) && Distinct(path) && |path| > 1
    requires k in s && k != path[0] && s[k].parent == Some(path[1])
    ensures k !in path
  {
    forall j | 0 <= j < |path|
      ensures path[j] != k
    {
      if 0 < j < |path| - 1 {
        assert s[path[j]].parent == Some(path[j + 1]);
      }
    }
  }

  /** `t` differs from `s` at most in the completed steps and states of its records. */
  ghost predicate ProgressOnly(s: map<Id, Status>, t: map<Id, Status>) {
    t.Keys == s.Keys && forall k :: k in s ==> t[k] == s[k].(completedSteps := t[k].completedSteps, state := t[k].state)
  }

  lemma ProgressOnlyThen(s: map<Id, Status>, t: map<Id, Status>, u: map<Id, Status>)
    requires ProgressOnly(s, t) && ProgressOnly(t, u)
    ensures ProgressOnly(s, u)
  {
  }

  /** Some record of `path` is a canceled task. */
  predicate AnyCanceled(s: map<Id, Status>, path: seq<Id>)
    requires forall i :: 0 <= i < |path| ==> path[i] in s
  {
    exists i :: 0 <= i < |path| && CanceledLeaf(s[path[i]])
  }

  /** The steps of a record not yet counted as completed. */
  function Owed(st: Status): int {
    st.totalSteps - st.completedSteps
  }

  function AddCompleted(s: map<Id, Status>, path: seq<Id>, n: int): (r: map<Id, Status>)
    requires (forall i :: 0 <= i < |path| ==> path[i] in s) && Distinct(path)
    ensures r.Keys == s.Keys
    ensures forall k :: k in s ==> r[k] == if k in path then s[k].(completedSteps := s[k].completedSteps + n) else s[k]
  {
    MapAlong(s, path, (x: Status) => x.(completedSteps := x.completedSteps + n))
  }

  /** The first part of `succeed`: when `path[0]` has steps left, they are
      counted as completed on it and on every ancestor. */
  function CountRemaining(s: map<Id, Status>, path: seq<Id>): (r: map<Id, Status>)
    requires |path| > 0 && (forall i :: 0 <= i < |path| ==> path[i] in s) && Distinct(path)
    ensures r.Keys == s.Keys
    ensures forall k :: k in s ==>
      r[k] == if k in path && Owed(s[path[0]]) > 0 then s[k].(completedSteps := s[k].completedSteps + Owed(s[path[0]])) else s[k]
    ensures ProgressOnly(s, r) && forall k :: k in s ==> r[k].state == s[k].state
  {
    var owed := Owed(s[path[0]]);
    if owed > 0 then AddCompleted(s, path, owed) else s
  }

  /** `succeed` on `path[0]` alone, when it does not raise: the remaining
      steps are counted along the chain and the record becomes Succeeded. */
  function Settle(s: map<Id, Status>, path: seq<Id>): (r: map<Id, Status>)
    requires |path| > 0 && (forall i :: 0 <= i < |path| ==> path[i] in s) && Distinct(path)
    ensures ProgressOnly(s, r)
    ensures r[path[0]] == s[path[0]].(completedSteps := Max(s[path[0]].completedSteps, s[path[0]].totalSteps), state := Succeeded)
    ensures forall k :: k in s && k !in path ==> r[k] == s[k]
    ensures forall k :: k in s && k != path[0] ==> r[k].state == s[k].state
  {
    var s1 := CountRemaining(s, path);
    assert path[0] in path;
    assert s1[path[0]].completedSteps == Max(s[path[0]].completedSteps, s[path[0]].totalSteps);
    var r := s1[path[0] := s1[path[0]].(state := Succeeded)];
    assert ProgressOnly(s1, r);
    ProgressOnlyThen(s, s1, r);
    r
  }

  /** Progress leaves the parent links, so the rest of a chain is still a
      chain. */
  lemma ChainTail(s: map<Id, Status>, t: map<Id, Status>, path: seq<Id>)
    requires IsChain(s, path) && |path| > 1 && ProgressOnly(s, t)
    ensures IsChain(t, path[1..])
  {
    assert forall i :: 0 <= i < |path| ==> t[path[i]].parent == s[path[i]].parent;
  }

  /** Counting the remaining steps of `path[0]` raises: there are some, and a
      canceled task lies on the chain. */
  predicate SettleRaises(s: map<Id, Status>, path: seq<Id>)
    requires |path| > 0 && forall i :: 0 <= i < |path| ==> path[i] in s
  {
    Owed(s[path[0]]) > 0 && AnyCanceled(s, path)
  }

  /** The walk of `succeed` along the chain `path`: the record's remaining
      steps are counted (along the whole chain, raising afterwards if a
      canceled task is on it), the record becomes Succeeded, and the parent
      succeeds in turn once none of its children is left unfinished. The flag
      tells whether `TaskCanceledException` was raised. */
  function SucceedAlong(s: map<Id, Status>, path: seq<Id>): (r: (map<Id, Status>, bool))
    requires IsChain(s, path) && Distinct(path)
    ensures ProgressOnly(s, r.0)
    decreases |path|
  {
    if SettleRaises(s, path) then (CountRemaining(s, path), true)
    else
      var s2 := Settle(s, path);
      if |path| > 1 && ChildrenSucceeded(s2, path[1]) then
        ChainTail(s, s2, path);
        var r := SucceedAlong(s2, path[1..]);
        ProgressOnlyThen(s, s2, r.0);
        r
      else (s2, false)
  }

  /** `succeed` touches no record off the chain. */
  lemma {:induction false} SucceedAlongFrame(s: map<Id, Status>, path: seq<Id>, k: Id)
    requires IsChain(s, path) && Distinct(path)
    requires k in s && k !in path
    ensures SucceedAlong(s, path).0[k] == s[k]
    decreases |path|
  {
    if !SettleRaises(s, path) {
      var s2 := Settle(s, path);
      if |path| > 1 && ChildrenSucceeded(s2, path[1]) {
        ChainTail(s, s2, path);
        SucceedAlongFrame(s2, path[1..], k);
      }
    }
  }

  /** Unless the walk raised, the record ends Succeeded with every step
      counted: its completed steps are at least its total. */
  lemma SucceedAlongCompletes(s: map<Id, Status>, path: seq<Id>)
    requires IsChain(s, path) && Distinct(path)
    ensures var r := SucceedAlong(s, path);
      !r.1 ==> r.0[path[0]] == s[path[0]].(completedSteps := Max(s[path[0]].completedSteps, s[path[0]].totalSteps), state := Succeeded)
  {
    if !SettleRaises(s, path) {
      var s2 := Settle(s, path);
      if |path| > 1 && ChildrenSucceeded(s2, path[1]) {
        ChainTail(s, s2, path);
        assert path[0] !in path[1..];
        SucceedAlongFrame(s2, path[1..], path[0]);
      }
    }
  }

  /** A canceled task above `path[0]` after it settled was one before. */
  lemma AnyCanceledTail(s: map<Id, Status>, t: map<Id, Status>, path: seq<Id>)
    requires |path| > 1 && (forall i :: 0 <= i < |path| ==> path[i] in s) && Distinct(path)
    requires ProgressOnly(s, t) && forall k :: k in s && k != path[0] ==> t[k].state == s[k].state
    requires AnyCanceled(t, path[1..])
    ensures AnyCanceled(s, path)
  {
    var i :| 0 <= i < |path[1..]| && CanceledLeaf(t[path[1..][i]]);
    assert path[1..][i] == path[i + 1] && path[i + 1] != path[0];
    assert CanceledLeaf(s[path[i + 1]]);
  }

  /** The walk raises only when a canceled task lies on the chain. */
  lemma {:induction false} SucceedAlongRaises(s: map<Id, Status>, path: seq<Id>)
    requires IsChain(s, path) && Distinct(path)
    ensures SucceedAlong(s, path).1 ==> AnyCanceled(s, path)
    decreases |path|
  {
    if !SettleRaises(s, path) {
      var s2 := Settle(s, path);
      if |path| > 1 && ChildrenSucceeded(s2, path[1]) {
        ChainTail(s, s2, path);
        SucceedAlongRaises(s2, path[1..]);
        RaisesStep(s, path);
      }
    }
  }

  /** One step of `SucceedAlongRaises`: a raise further up the chain comes
      from a canceled task that was already there. */
  lemma RaisesStep(s: map<Id, Status>, path: seq<Id>)
    requires IsChain(s, path) && Distinct(path) && |path| > 1 && !SettleRaises(s, path)
    requires ChildrenSucceeded(Settle(s, path), path[1]) && IsChain(Settle(s, path), path[1..])
    requires SucceedAlong(Settle(s, path), path[1..]).1 ==> AnyCanceled(Settle(s, path), path[1..])
    ensures SucceedAlong(s, path).1 ==> AnyCanceled(s, path)
  {
    var s2 := Settle(s, path);
    assert SucceedAlong(s, path) == SucceedAlong(s2, path[1..]);
    if SucceedAlong(s2, path[1..]).1 {
      AnyCanceledTail(s, s2, path);
    }
  }

  /** After the record succeeds, its parent has no unfinished child exactly
      when every other child had already succeeded. */
  lemma SettleSiblings(s: map<Id, Status>, path: seq<Id>)
    requires IsChain(s, path) && Distinct(path) && |path| > 1
    ensures ChildrenSucceeded(Settle(s, path), path[1]) <==> SiblingsSucceeded(s, path[1], path[0])
  {
    var s2 := Settle(s, path);
    forall k | k in s2 && k != path[0] && s2[k].parent == Some(path[1])
      ensures s2[k] == s[k]
    {
      SiblingOffChain(s, path, k);
    }
  }

  /** The parent succeeds exactly when every other child already had (and
      the walk did not raise); otherwise it keeps its state. */
  lemma SucceedAlongJoins(s: map<Id, Status>, path: seq<Id>)
    requires IsChain(s, path) && Distinct(path)
    ensures var r := SucceedAlong(s, path); |path| > 1 ==>
      && (!r.1 && SiblingsSucceeded(s, path[1], path[0]) ==> r.0[path[1]].state == Succeeded)
      && (!SiblingsSucceeded(s, path[1], path[0]) ==> r.0[path[1]].state == s[path[1]].state)
  {
    if |path| > 1 && !SettleRaises(s, path) {
      var s2 := Settle(s, path);
      assert path[0] !in path[1..];
      SettleSiblings(s, path);
      if ChildrenSucceeded(s2, path[1]) {
        ChainTail(s, s2, path);
        SucceedAlongCompletes(s2, path[1..]);
      }
    }
  }

  /** What `succeed` counts along the chain for `path[0]`: the steps it
      still owes, if any. */
  function Credit(s: map<Id, Status>, path: seq<Id>): nat
    requires |path| > 0 && path[0] in s
  {
    if Owed(s[path[0]]) > 0 then Owed(s[path[0]]) else 0
  }

  /** Settling `path[0]` credits every record of the chain with its owed steps. */
  lemma SettleCounts(s: map<Id, Status>, path: seq<Id>, k: Id)
    requires |path| > 0 && (forall i :: 0 <= i < |path| ==> path[i] in s) && Distinct(path) && k in s
    ensures Settle(s, path)[k].completedSteps == s[k].completedSteps + if k in path then Credit(s, path) else 0
  {
    var s1 := CountRemaining(s, path);
    assert Settle(s, path) == s1[path[0] := s1[path[0]].(state := Succeeded)];
  }

  /** Every record of the chain gains at least the credit of `path[0]`:
      exactly that when the walk stops at `path[0]` (it raised, it has no
      parent, or a sibling had not succeeded), more when ancestors settle
      in turn. */
  lemma {:induction false} SucceedAlongCounts(s: map<Id, Status>, path: seq<Id>, k: Id)
    requires IsChain(s, path) && Distinct(path) && k in s
    ensures SucceedAlong(s, path).0[k].completedSteps >= s[k].completedSteps + if k in path then Credit(s, path) else 0
    decreases |path|
  {
    if !SettleRaises(s, path) {
      var s2 := Settle(s, path);
      SettleCounts(s, path, k);
      if |path| > 1 && ChildrenSucceeded(s2, path[1]) {
        ChainTail(s, s2, path);
        SucceedAlongCounts(s2, path[1..], k);
        assert SucceedAlong(s, path) == SucceedAlong(s2, path[1..]);
      }
    }
  }

  lemma SucceedAlongStops(s: map<Id, Status>, path: seq<Id>, k: Id)
    requires IsChain(s, path) && Distinct(path) && k in s
    requires |path| == 1 || !SiblingsSucceeded(s, path[1], path[0])
    ensures SucceedAlong(s, path).0[k].completedSteps == s[k].completedSteps + if k in path then Credit(s, path) else 0
  {
    if !SettleRaises(s, path) {
      SettleCounts(s, path, k);
      if |path| > 1 {
        SettleSiblings(s, path);
      }
    }
  }

  /** `SucceedAlongCounts` and the raise on the chain of `id`. */
  /** A record owing steps raises when a canceled leaf is on its chain. */
  lemma SucceedRaisesOwed(s: map<Id, Status>, id: Id)
    requires IsForest(s) && id in s
    ensures Owed(s[id]) > 0 && (exists k :: k in Path(s, id) && CanceledLeaf(s[k])) ==> SucceedAlong(s, Path(s, id)).1
  {
    var path := Path(s, id);
    assert AnyCanceled(s, path) <==> exists k :: k in path && CanceledLeaf(s[k]) by {
      assert forall k :: k in path <==> exists i :: 0 <= i < |path| && path[i] == k;
    }
  }

  /** Every record of the chain gains at least the steps `id` owed. */
  lemma SucceedGains(s: map<Id, Status>, id: Id)
    requires IsForest(s) && id in s
    ensures forall k :: k in Path(s, id) ==>
      SucceedAlong(s, Path(s, id)).0[k].completedSteps >= s[k].completedSteps + Max(Owed(s[id]), 0)
  {
    var path := Path(s, id);
    assert Credit(s, path) == Max(Owed(s[id]), 0);
    forall k | k in path
      ensures SucceedAlong(s, path).0[k].completedSteps >= s[k].completedSteps + Max(Owed(s[id]), 0)
    {
      SucceedAlongCounts(s, path, k);
    }
  }

  /** When the parent does not succeed too, the chain gains exactly those steps. */
  lemma SucceedSettles(s: map<Id, Status>, id: Id)
    requires IsForest(s) && id in s
    ensures s[id].parent.None? || !SiblingsSucceeded(s, s[id].parent.value, id) ==>
      forall k :: k in Path(s, id) ==>
        SucceedAlong(s, Path(s, id)).0[k].completedSteps == s[k].completedSteps + Max(Owed(s[id]), 0)
  {
    if s[id].parent.Some? && SiblingsSucceeded(s, s[id].parent.value, id) {
      return;
    }
    var path := Path(s, id);
    assert Credit(s, path) == Max(Owed(s[id]), 0);
    assert s[id].parent.Some? ==> |path| > 1 && path[1] == s[id].parent.value;
    forall k | k in path
      ensures SucceedAlong(s, path).0[k].completedSteps == s[k].completedSteps + Max(Owed(s[id]), 0)
    {
      SucceedAlongStops(s, path, k);
    }
  }

  /** What `Succeed` promises about which records change and how, stated on the records alone. */
  lemma SucceedShape(s: map<Id, Status>, id: Id)
    requires IsForest(s) && id in s
    ensures var w := SucceedAlong(s, Path(s, id));
      && w.0.Keys == s.Keys
      && (forall k :: k in s ==> w.0[k] == s[k].(completedSteps := w.0[k].completedSteps, state := w.0[k].state))
      && (forall k :: k in s && k !in Path(s, id) ==> w.0[k] == s[k])
      && (!w.1 ==> w.0[id].state == Succeeded && w.0[id].completedSteps == Max(s[id].completedSteps, s[id].totalSteps))
      && (forall p :: s[id].parent == Some(p) && p in s ==>
            && (!w.1 && SiblingsSucceeded(s, p, id) ==> w.0[p].state == Succeeded)
            && (!SiblingsSucceeded(s, p, id) ==> w.0[p].state == s[p].state))
  {
    var path := Path(s, id);
    var w := SucceedAlong(s, path);
    SucceedAlongCompletes(s, path);
    SucceedAlongJoins(s, path);
    forall k | k in s && k !in path
      ensures w.0[k] == s[k]
    {
      SucceedAlongFrame(s, path, k);
    }
  }

  /** What `Succeed` promises about raising and about the steps credited, stated on the records alone. */
  lemma SucceedSteps(s: map<Id, Status>, id: Id)
    requires IsForest(s) && id in s
    ensures var w := SucceedAlong(s, Path(s, id));
      && ((forall k :: k in Path(s, id) ==> !CanceledLeaf(s[k])) ==> !w.1)
      && (Owed(s[id]) > 0 && (exists k :: k in Path(s, id) && CanceledLeaf(s[k])) ==> w.1)
      && (forall k :: k in Path(s, id) ==> w.0[k].completedSteps >= s[k].completedSteps + Max(Owed(s[id]), 0))
      && (s[id].parent.None? || !SiblingsSucceeded(s, s[id].parent.value, id) ==>
            forall k :: k in Path(s, id) ==> w.0[k].completedSteps == s[k].completedSteps + Max(Owed(s[id]), 0))
  {
    SucceedAlongRaises(s, Path(s, id));
    SucceedRaisesOwed(s, id);
    SucceedGains(s, id);
    SucceedSettles(s, id);
  }

  /** `UserTaskStatus.succeed`: the record is completed (remaining steps are
      counted, up the chain too) and Succeeded; its parent then succeeds in
      the same way exactly when every other child of the parent already has. */
  function Succeed(db: Db, id: Id): (r: Step)
    requires IsForest(db.statuses) && id in db.statuses
    ensures r.db == db.(statuses := r.db.statuses) && r.db.statuses.Keys == db.statuses.Keys
    ensures forall k :: k in db.statuses ==>
      r.db.statuses[k] == db.statuses[k].(completedSteps := r.db.statuses[k].completedSteps, state := r.db.statuses[k].state)
    ensures forall k :: k in db.statuses && k !in Path(db.statuses, id) ==> r.db.statuses[k] == db.statuses[k]
    ensures r.Done? ==> r.db.statuses[id].state == Succeeded
    ensures r.Done? ==>
      r.db.statuses[id].completedSteps == Max(db.statuses[id].completedSteps, db.statuses[id].totalSteps)
    ensures (forall k :: k in Path(db.statuses, id) ==> !CanceledLeaf(db.statuses[k])) ==> r.Done?
    ensures Owed(db.statuses[id]) > 0 && (exists k :: k in Path(db.statuses, id) && CanceledLeaf(db.statuses[k])) ==>
      r.TaskCanceled?
    ensures forall k :: k in Path(db.statuses, id) ==>
      r.db.statuses[k].completedSteps >= db.statuses[k].completedSteps + Max(Owed(db.statuses[id]), 0)
    ensures db.statuses[id].parent.None? || !SiblingsSucceeded(db.statuses, db.statuses[id].parent.value, id) ==>
      forall k :: k in Path(db.statuses, id) ==>
        r.db.statuses[k].completedSteps == db.statuses[k].completedSteps + Max(Owed(db.statuses[id]), 0)
    ensures forall p :: db.statuses[id].parent == Some(p) && p in db.statuses ==>
      && (r.Done? && SiblingsSucceeded(db.statuses, p, id) ==> r.db.statuses[p].state == Succeeded)
      && (!SiblingsSucceeded(db.statuses, p, id) ==> r.db.statuses[p].state == db.statuses[p].state)
    ensures Valid(db) ==> Valid(r.db)
  {
    var w := SucceedAlong(db.statuses, Path(db.statuses, id));
    SucceedShape(db.statuses, id);
    SucceedSteps(db.statuses, id);
    var d := db.(statuses := w.0);
    var r := if w.1 then TaskCanceled(d) else Done(d);
    assert r.db == d && r.db.statuses == w.0 && (r.Done? <==> !w.1);
    EditKeepsValid(db, w.0);
    r
  }
}
