/**
  The retention purge (`purge_old_user_tasks` in user_tasks/tasks.py):
  every status created before the cutoff is deleted, and the foreign keys
  cascade the deletion to its artifacts and, through `parent`, to every
  status below it.
 */
module Retention {
  import opened Store

  /** One day in the store's timestamp unit (microseconds). */
  const Day: int := 24 * 60 * 60 * 1000000

  /** `USER_TASKS_MAX_AGE` when the setting is absent: 30 days. */
  const DefaultMaxAge: int := 30 * Day

  /** The purge deletes `k`: it, or a status above it, was created before
      the cutoff. */
  predicate Doomed(s: map<Id, Status>, k: Id, cutoff: int)
    requires IsForest(s) && k in s
  {
    exists j :: j in Path(s, k) && s[j].created < cutoff
  }

  /** The statuses the purge keeps. */
  function Survivors(s: map<Id, Status>, cutoff: int): (r: map<Id, Status>)
    requires IsForest(s)
    ensures forall k :: k in r <==> k in s && !Doomed(s, k, cutoff)
    ensures forall k :: k in r ==> r[k] == s[k]
  {
    map k | k in s && !Doomed(s, k, cutoff) :: s[k]
  }

  /** Every status on the parent chain of `j` is on the chain of any status
      whose chain passes through `j`. */
  lemma {:induction false} PathThrough(s: map<Id, Status>, k: Id, j: Id)
    requires IsForest(s) && k in s && j in Path(s, k)
    ensures j in s && forall x :: x in Path(s, j) ==> x in Path(s, k)
    decreases RankOf(s)[k]
  {
    if j != k {
      var p := s[k].parent.value;
      assert Path(s, k) == [k] + Path(s, p);
      PathThrough(s, p, j);
    }
  }

  /** A status survives only together with every status above it. */
  lemma SurvivorsClosed(s: map<Id, Status>, cutoff: int, k: Id)
    requires IsForest(s) && k in s && !Doomed(s, k, cutoff)
    ensures forall j :: j in Path(s, k) ==> j in s && !Doomed(s, j, cutoff)
  {
    forall j | j in Path(s, k)
      ensures j in s && !Doomed(s, j, cutoff)
    {
      PathThrough(s, k, j);
    }
  }

  /** The surviving statuses keep the store's integrity and their parent chains. */
  lemma SurvivorsValid(db: Db, cutoff: int)
    requires Valid(db)
    ensures var t := Survivors(db.statuses, cutoff);
      && IsForest(t) && KeysBelow(t, db.nextId) && UniqueTaskIds(t)
      && forall k :: k in t ==> Path(t, k) == Path(db.statuses, k)
  {
    var s := db.statuses;
    var t := Survivors(s, cutoff);
    forall k | k in t && t[k].parent.Some?
      ensures t[k].parent.value in t
    {
      SurvivorsClosed(s, cutoff, k);
      assert t[k].parent.value in Path(s, k);
    }
    assert Ranked(t, RankOf(s));
    assert Owns(t, OwnerOf(s));
    forall k | k in t
      ensures Path(t, k) == Path(s, k)
    {
      var p := Path(s, k);
      SurvivorsClosed(s, cutoff, k);
      assert IsChain(t, p);
      ChainIsPath(t, p);
    }
  }

  /** `purge_old_user_tasks` with the cutoff `now - USER_TASKS_MAX_AGE`:
      exactly the statuses created before the cutoff and everything below
      them are deleted, with their artifacts; the other statuses and their
      artifacts stay as they were, in order. */
  function Purge(db: Db, cutoff: int): (r: Db)
    requires Valid(db)
    ensures Valid(r)
    ensures r.events == db.events && r.nextId == db.nextId
    ensures forall k :: k in r.statuses <==> k in db.statuses && !Doomed(db.statuses, k, cutoff)
    ensures forall k :: k in r.statuses ==> r.statuses[k] == db.statuses[k]
    ensures forall k :: k in db.statuses && db.statuses[k].created < cutoff ==> k !in r.statuses
    ensures forall a :: a in r.artifacts <==> a in db.artifacts && a.status in r.statuses
    ensures IsSubsequence(r.artifacts, db.artifacts)
    ensures forall a :: multiset(r.artifacts)[a] == if a.status in r.statuses then multiset(db.artifacts)[a] else 0
  {
    var t := Survivors(db.statuses, cutoff);
    var keep := (a: Artifact) => a.status in t;
    SurvivorsValid(db, cutoff);
    KeepIsSubsequence(db.artifacts, keep);
    KeepCounts(db.artifacts, keep);
    forall k | k in db.statuses && db.statuses[k].created < cutoff
      ensures Doomed(db.statuses, k, cutoff)
    {
      assert k in Path(db.statuses, k);
    }
    var arts := Keep(db.artifacts, keep);
    assert ArtifactsOwned(t, arts) by {
      forall i | 0 <= i < |arts| ensures arts[i].status in t {
        assert arts[i] in arts;
      }
    }
    db.(statuses := t, artifacts := arts)
  }

  /** The purge removed the whole subtree of every old status: a status is
      kept only if none above it was old. */
  lemma PurgeKeepsNoOldAncestor(db: Db, cutoff: int, k: Id)
    requires Valid(db) && k in Purge(db, cutoff).statuses
    ensures forall j :: j in Path(db.statuses, k) ==> j in Purge(db, cutoff).statuses && db.statuses[j].created >= cutoff
  {
    SurvivorsClosed(db.statuses, cutoff, k);
  }

  /** Purging again with the same cutoff deletes nothing more. */
  lemma PurgeTwice(db: Db, cutoff: int)
    requires Valid(db)
    ensures Purge(Purge(db, cutoff), cutoff) == Purge(db, cutoff)
  {
    var r := Purge(db, cutoff);
    var t := r.statuses;
    SurvivorsValid(db, cutoff);
    forall k | k in t
      ensures !Doomed(t, k, cutoff)
    {
      assert Path(t, k) == Path(db.statuses, k);
    }
    assert Survivors(t, cutoff) == t;
    var keep := (a: Artifact) => a.status in t;
    KeepSame(db.artifacts, (a: Artifact) => a.status in Survivors(db.statuses, cutoff), keep);
    KeepTwice(db.artifacts, keep);
  }

  /** The default retention: statuses older than 30 days are purged. */
  lemma DefaultPurge(db: Db, now: int, k: Id)
    requires Valid(db) && k in db.statuses && db.statuses[k].created < now - DefaultMaxAge
    ensures k !in Purge(db, now - DefaultMaxAge).statuses
    ensures DefaultMaxAge == 2592000000000
  {
  }
}
