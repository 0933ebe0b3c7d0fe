/**
  The publishing scenarios of the package's own signal tests, stated as
  lemmas about `Publish` on an empty store: one task, a group of two, a
  chain of four with one plain Celery task, and chords with a trackable
  and an untracked body. A trackable test task has one step; user "1"
  exists.
 */
module Scenarios {
  import opened Store
  import opened Topology

  function Users(): set<UserRef> {
    {"1"}
  }

  function Now(): int {
    0
  }

  function Empty(): (db: Db)
    ensures Valid(db)
  {
    var db := Db(map[], [], [], 0);
    assert Ranked(db.statuses, map[]);
    assert Owns(db.statuses, map[]);
    db
  }

  /** A trackable test task named after its argument, with an optional `user_task_name`. */
  function Sample(arg: string, userTaskName: string): Task {
    Task(true, "test_signals.sample_task", "SampleTask: " + arg, 1, userTaskName, Some("1"))
  }

  /** A plain Celery task. */
  function Plain(): Task {
    Task(false, "test_signals.normal_task", "normal_task", 1, "", None)
  }

  /** The task id `uuid4()` gives a chain or chord record. */
  function Uuid(): string {
    "uuid"
  }

  /** A lone task gets one record without a parent, holding its one step;
      publishing it again creates nothing. */
  lemma SingleTask()
    ensures var m := Message("t", Sample("Argument", ""), None, [], None);
      var r := Publish(Empty(), m, Users(), Uuid(), Now());
      && r.error.None? && r.db.nextId == 1 && r.db.statuses.Keys == {0}
      && r.db.statuses[0] == Leaf("t", Sample("Argument", ""), "1", None, Now())
      && r.db.statuses[0].totalSteps == 1 && r.db.statuses[0].parent.None? && !r.db.statuses[0].isContainer
      && Publish(r.db, m, Users(), Uuid(), Now()) == Outcome(r.db, None)
  {
    var m := Message("t", Sample("Argument", ""), None, [], None);
    SingleAlone(Empty(), "1", "t", m.task, None, Now());
    var r := Publish(Empty(), m, Users(), Uuid(), Now());
    assert !Fresh(r.db, "t") by {
      assert r.db.statuses[0].taskId == "t";
    }
  }

  function GroupFirst(): Message {
    Message("t1", Sample("1", ""), Some("g"), [], None)
  }

  function GroupSecond(): Message {
    Message("t2", Sample("2", "Group: 1, 2"), Some("g"), [], None)
  }

  /** The first member of a group: the group's record, holding its step,
      and the member under it. */
  lemma GroupOpened()
    ensures var r := Publish(Empty(), GroupFirst(), Users(), Uuid(), Now());
      r.error.None? && NewGroupShape(Empty(), r.db, "1", "t1", Sample("1", ""), "g", Now())
  {
    SingleNewGroup(Empty(), "1", "t1", Sample("1", ""), "g", Now());
  }

  /** A group of two tasks, the second carrying a `user_task_name`: the
      group's record without a parent, holding both steps and named by the
      second task, and one record per task under it. */
  lemma GroupOfTwo()
    ensures var r1 := Publish(Empty(), GroupFirst(), Users(), Uuid(), Now());
      var r2 := Publish(r1.db, GroupSecond(), Users(), Uuid(), Now());
      && r1.error.None? && r2.error.None?
      && r2.db.statuses.Keys == {0, 1, 2}
      && r2.db.statuses[0].taskId == "g" && r2.db.statuses[0].taskClass == GroupClass
      && r2.db.statuses[0].isContainer && r2.db.statuses[0].parent.None?
      && r2.db.statuses[0].totalSteps == 2 && r2.db.statuses[0].name == "Group: 1, 2"
      && r2.db.statuses[1] == Leaf("t1", Sample("1", ""), "1", Some(0), Now())
      && r2.db.statuses[2] == Leaf("t2", Sample("2", "Group: 1, 2"), "1", Some(0), Now())
  {
    GroupOpened();
    var db := Publish(Empty(), GroupFirst(), Users(), Uuid(), Now()).db;
    GroupJoined(db);
  }

  /** The store after the second member of a group joined it. */
  ghost predicate GroupOfTwoShape(r: Db) {
    && r.statuses.Keys == {0, 1, 2}
    && r.statuses[0].taskId == "g" && r.statuses[0].taskClass == GroupClass
    && r.statuses[0].isContainer && r.statuses[0].parent.None?
    && r.statuses[0].totalSteps == 2 && r.statuses[0].name == "Group: 1, 2"
    && r.statuses[1] == Leaf("t1", Sample("1", ""), "1", Some(0), Now())
    && r.statuses[2] == Leaf("t2", Sample("2", "Group: 1, 2"), "1", Some(0), Now())
  }

  lemma GroupJoined(db: Db)
    requires Valid(db) && NewGroupShape(Empty(), db, "1", "t1", Sample("1", ""), "g", Now())
    ensures var r := Publish(db, GroupSecond(), Users(), Uuid(), Now());
      r.error.None? && GroupOfTwoShape(r.db)
  {
    assert db.statuses.Keys == {0, 1};
    assert Fresh(db, "t2");
    assert GetUserId(GroupSecond().task.userId, Users()) == Ok("1");
    var e := SingleEntry(db, "1", "t2", GroupSecond().task, Some("g"), Now());
    assert Publish(db, GroupSecond(), Users(), Uuid(), Now()) == Outcome(e, None);
    SingleJoinGroup(db, "1", "t2", GroupSecond().task, 0, Now());
    SingleJoinRootGroup(db, "1", "t2", GroupSecond().task, 0, Now());
    GroupJoinedFrom(db, e);
  }

  lemma GroupJoinedFrom(db: Db, r: Db)
    requires db.statuses.Keys == {0, 1} && db.nextId == 2
    requires db.statuses[0] == Container("g", "1", GroupClass, "", 1, Now())
    requires db.statuses[1] == Leaf("t1", Sample("1", ""), "1", Some(0), Now())
    requires r.statuses.Keys == db.statuses.Keys + {db.nextId}
    requires r.statuses[db.nextId] == Leaf("t2", GroupSecond().task, "1", Some(0), Now())
    requires r.statuses[0].totalSteps == db.statuses[0].totalSteps + GroupSecond().task.steps
    requires r.statuses[0].name == (if GroupSecond().task.userTaskName != "" && db.statuses[0].name == "" then GroupSecond().task.userTaskName else db.statuses[0].name)
    requires r.statuses[0].taskId == db.statuses[0].taskId && r.statuses[0].taskClass == db.statuses[0].taskClass
    requires r.statuses[0].parent == db.statuses[0].parent && r.statuses[0].isContainer == db.statuses[0].isContainer
    requires forall k :: k in db.statuses && k != 0 ==> r.statuses[k] == db.statuses[k]
    ensures GroupOfTwoShape(r)
  {
    assert r.statuses[1] == db.statuses[1];
  }

  /** The tasks linked after the first of the chain: the second names the
      chain, the fourth is a plain Celery task. */
  function ChainLinks(): seq<Signature> {
    [Signature("t2", Sample("2", "Chain: 1, 2, 3"),
       [Signature("t3", Sample("3", ""), [Signature("t4", Plain(), [])])])]
  }

  function ChainHeadMessage(): Message {
    Message("t1", Sample("1", ""), None, ChainLinks(), None)
  }

  /** What the builder counts in the links of the chain: two trackable
      tasks, two steps, and the name the second task gives. */
  lemma ChainLinksCounted()
    ensures TrackedIds(ChainLinks()) == ["t2", "t3"]
    ensures Tracked(ChainLinks()) == 2 && TrackedSteps(ChainLinks()) == 2
    ensures TrackedName(ChainLinks()) == "Chain: 1, 2, 3"
  {
    var last := [Signature("t4", Plain(), [])];
    var third := [Signature("t3", Sample("3", ""), last)];
    assert TrackedIds(last) == [] by {
      assert EntryIds("t4", Plain(), []) == [];
    }
    assert TrackedIds(third) == ["t3"] by {
      assert EntryIds("t3", Sample("3", ""), last) == ["t3"];
    }
    assert EntryIds("t2", Sample("2", "Chain: 1, 2, 3"), third) == ["t2", "t3"];
    assert Tracked(last) == 0 && Tracked(third) == 1;
    assert TrackedSteps(last) == 0 && TrackedSteps(third) == 1;
    assert TrackedName(last) == "" by {
      assert EntryName(Plain(), []) == "";
    }
    assert TrackedName(third) == "" by {
      assert EntryName(Sample("3", ""), last) == "";
    }
    assert EntryName(Sample("2", "Chain: 1, 2, 3"), third) == "Chain: 1, 2, 3";
  }

  /** The chain's head is published as the start of a chain. */
  lemma ChainHeadPublished()
    ensures Publish(Empty(), ChainHeadMessage(), Users(), Uuid(), Now()) == ChainEntry(Empty(), "1", "t1", Sample("1", ""), ChainLinks(), None, Uuid(), Now())
  {
    assert GetUserId(Sample("1", "").userId, Users()) == Ok("1");
  }

  /** The shape of the chain the builder makes for the chain's head. */
  lemma ChainBuiltFromEmpty()
    ensures var r := ChainEntry(Empty(), "1", "t1", Sample("1", ""), ChainLinks(), None, Uuid(), Now());
      && r.error.None?
      && ChainShape(Empty(), r.db, "1", "t1", Sample("1", ""), ChainLinks(), Uuid(), Now())
      && r.db.statuses[0].name == "Chain: 1, 2, 3"
  {
    ChainLinksCounted();
    assert Distinct(["t1", "t2", "t3"]);
    ChainOk(Empty(), "1", "t1", Sample("1", ""), ChainLinks(), Uuid(), Now());
  }

  /** The store a chain of three trackable tasks and a plain one leaves:
      the chain's record without a parent, holding the three steps and named
      by the second task, and the three tasks' records under it. */
  ghost predicate ChainOfFourShape(db: Db) {
    && db.statuses.Keys == {0, 1, 2, 3}
    && db.statuses[0].taskClass == ChainClass && db.statuses[0].isContainer && db.statuses[0].parent.None?
    && db.statuses[0].totalSteps == 3 && db.statuses[0].name == "Chain: 1, 2, 3"
    && db.statuses[1] == Leaf("t1", Sample("1", ""), "1", Some(0), Now())
    && forall k :: 1 <= k <= 3 ==> db.statuses[k].parent == Some(0) && !db.statuses[k].isContainer
  }

  lemma ChainShapeOfFour(db: Db)
    requires ChainShape(Empty(), db, "1", "t1", Sample("1", ""), ChainLinks(), Uuid(), Now())
    requires db.statuses[0].name == "Chain: 1, 2, 3"
    requires Tracked(ChainLinks()) == 2 && TrackedSteps(ChainLinks()) == 2
    ensures ChainOfFourShape(db)
  {
    assert db.nextId == 4;
    assert db.statuses.Keys == {0, 1, 2, 3};
  }

  /** Publishing the chain's head builds the whole chain; the plain task
      gets no record. */
  lemma ChainOfFour()
    ensures var r := Publish(Empty(), ChainHeadMessage(), Users(), Uuid(), Now());
      r.error.None? && ChainOfFourShape(r.db)
  {
    ChainHeadPublished();
    ChainLinksCounted();
    ChainBuiltFromEmpty();
    var r := ChainEntry(Empty(), "1", "t1", Sample("1", ""), ChainLinks(), None, Uuid(), Now());
    ChainShapeOfFour(r.db);
  }

  /** A chord header task of group "g" with the given body. */
  function Header(id: string, arg: string, name: string, body: ChordBody): Message {
    Message(id, Sample(arg, name), Some("g"), [], Some(body))
  }

  /** The store after the first header: the group at 0 under the chord at 1,
      both named by the header, the header's record at 2 under the group,
      and a trackable body's record at 3 under the chord. */
  ghost predicate ChordOpenedShape(db: Db, name: string, body: ChordBody) {
    var tracked := body.task.trackable;
    && db.nextId == (if tracked then 4 else 3)
    && (forall k :: k in db.statuses <==> 0 <= k < db.nextId)
    && db.statuses[0] == Nested("g", "1", GroupClass, name, 1, 1, Now())
    && db.statuses[1] == Container("uuid", "1", ChordClass, name, 1 + (if tracked then body.task.steps else 0), Now())
    && db.statuses[2] == Leaf("h1", Sample("1", name), "1", Some(0), Now())
    && (tracked ==> db.statuses[3] == Leaf(body.id, body.task, "1", Some(1), Now()))
  }

  /** The first header of a chord is published as the chord's first header. */
  lemma ChordOpenedPublished(name: string, body: ChordBody)
    ensures Publish(Empty(), Header("h1", "1", name, body), Users(), Uuid(), Now()) ==
      ChordFirst(Empty(), "1", "h1", Sample("1", name), "g", body, Uuid(), Now())
  {
    assert GetUserId(Sample("1", name).userId, Users()) == Ok("1");
    assert FindTask(Empty(), "g").None?;
  }

  /** The first header of a chord builds the group, the chord and the body. */
  lemma ChordOpened(name: string, body: ChordBody)
    requires body.id != "g" && body.id != "uuid" && body.id != "h1"
    ensures var r := Publish(Empty(), Header("h1", "1", name, body), Users(), Uuid(), Now());
      r.error.None? && ChordOpenedShape(r.db, name, body)
  {
    var task := Sample("1", name);
    ChordOpenedPublished(name, body);
    var h := ChordHead(Empty(), "1", "h1", task, "g", Uuid(), Now());
    HeadFresh(h.value, task, name, body.id);
    ChordFinishAdds(Empty(), h, body, "1", Now());
    ChordOpenedFrom(h.value, ChordFinish(Empty(), h, body, "1", Now()).db, name, body);
  }

  lemma ChordOpenedFrom(h: Db, r: Db, name: string, body: ChordBody)
    requires Extends(Empty(), h) && h.nextId == 3
    requires h.statuses[0] == Nested("g", "1", GroupClass, name, 1, 1, Now())
    requires h.statuses[1] == Container("uuid", "1", ChordClass, name, 1, Now())
    requires h.statuses[2] == Leaf("h1", Sample("1", name), "1", Some(0), Now())
    requires Fresh(h, body.id) && BodyAdded(h, r, 1, body, "1", Now())
    ensures ChordOpenedShape(r, name, body)
  {
    assert h.statuses.Keys == {0, 1, 2};
  }

  /** The header's records leave the body's task id unused. */
  lemma HeadFresh(h: Db, task: Task, name: string, id: string)
    requires Extends(Empty(), h) && h.nextId == 3
    requires h.statuses[0] == Nested("g", "1", GroupClass, name, 1, 1, Now())
    requires h.statuses[1] == Container("uuid", "1", ChordClass, name, 1, Now())
    requires h.statuses[2] == Leaf("h1", task, "1", Some(0), Now())
    requires id != "g" && id != "uuid" && id != "h1"
    ensures Fresh(h, id)
  {
    forall k | k in h.statuses
      ensures h.statuses[k].taskId != id
    {
      assert k == 0 || k == 1 || k == 2;
    }
  }

  /** The store after the second header: both containers count its step,
      take its name when the first header gave none, and its record is the
      last one, under the group. */
  ghost predicate ChordJoinedShape(db: Db, name1: string, name2: string, body: ChordBody) {
    var tracked := body.task.trackable;
    var name := FirstNamed(name1, name2);
    && db.nextId == (if tracked then 5 else 4)
    && (forall k :: k in db.statuses <==> 0 <= k < db.nextId)
    && db.statuses[0] == Nested("g", "1", GroupClass, name, 2, 1, Now())
    && db.statuses[1] == Container("uuid", "1", ChordClass, name, 2 + (if tracked then body.task.steps else 0), Now())
    && db.statuses[2] == Leaf("h1", Sample("1", name1), "1", Some(0), Now())
    && (tracked ==> db.statuses[3] == Leaf(body.id, body.task, "1", Some(1), Now()))
    && db.statuses[db.nextId - 1] == Leaf("h2", Sample("2", name2), "1", Some(0), Now())
  }

  /** A later header of the chord is published as a header joining it. */
  lemma ChordJoinedPublished(db: Db, name1: string, name2: string, body: ChordBody)
    requires Valid(db) && ChordOpenedShape(db, name1, body)
    ensures Publish(db, Header("h2", "2", name2, body), Users(), Uuid(), Now()) == ChordJoin(db, "1", "h2", Sample("2", name2), 0, Now())
  {
    var s := db.statuses;
    assert GetUserId(Sample("2", name2).userId, Users()) == Ok("1");
    assert FindTask(db, "g") == Some(0) by {
      var f := FindTask(db, "g");
      assert s[0].taskId == "g";
      if f.Some? {
        SameTaskId(s, f.value, 0);
      }
    }
  }

  /** A task id other than those of the chord's first records is unused. */
  lemma ChordOpenedFresh(db: Db, name: string, body: ChordBody, id: string)
    requires ChordOpenedShape(db, name, body)
    requires id != "g" && id != "uuid" && id != "h1" && id != body.id
    ensures Fresh(db, id)
  {
    forall k | k in db.statuses
      ensures db.statuses[k].taskId != id
    {
      assert k == 0 || k == 1 || k == 2 || k == 3;
    }
  }

  /** A later header of the chord joins the group and the chord. */
  lemma ChordJoined(db: Db, name1: string, name2: string, body: ChordBody)
    requires Valid(db) && ChordOpenedShape(db, name1, body) && body.id != "h2"
    ensures var r := Publish(db, Header("h2", "2", name2, body), Users(), Uuid(), Now());
      r.error.None? && ChordJoinedShape(r.db, name1, name2, body)
  {
    ChordJoinedPublished(db, name1, name2, body);
    ChordOpenedFresh(db, name1, body, "h2");
    ChordOpenedPath(db, name1, body);
    var r := ChordJoin(db, "1", "h2", Sample("2", name2), 0, Now());
    assert 0 in db.statuses && 1 in db.statuses && 2 in db.statuses && (body.task.trackable ==> 3 in db.statuses);
    ChordJoinedFrom(db, r.db, name1, name2, body);
  }

  /** The opened chord's group sits under the chord, which is a root. */
  lemma ChordOpenedPath(db: Db, name: string, body: ChordBody)
    requires IsForest(db.statuses) && ChordOpenedShape(db, name, body)
    ensures Path(db.statuses, 0) == [0, 1]
  {
    var s := db.statuses;
    PathOfChild(s, 0);
    assert Path(s, 1) == [1];
  }

  /** The chord's group after the second header joined it. */
  lemma JoinedGroupRecord(st: Status, joined: Status, name1: string, name2: string)
    requires st == Nested("g", "1", GroupClass, name1, 1, 1, Now())
    requires joined == st.(totalSteps := 2, name := if name2 != "" && st.name == "" then name2 else st.name)
    ensures joined == Nested("g", "1", GroupClass, FirstNamed(name1, name2), 2, 1, Now())
  {
  }

  lemma ChordJoinedFrom(db: Db, r: Db, name1: string, name2: string, body: ChordBody)
    requires IsForest(db.statuses) && ChordOpenedShape(db, name1, body) && Path(db.statuses, 0) == [0, 1]
    requires r.nextId == db.nextId + 1 && r.statuses.Keys == db.statuses.Keys + {db.nextId}
    requires r.statuses[db.nextId] == Leaf("h2", Sample("2", name2), "1", Some(0), Now())
    requires r.statuses[0] == Joined(db.statuses, 0, 1, name2, 0) && r.statuses[1] == Joined(db.statuses, 0, 1, name2, 1)
    requires r.statuses[2] == Joined(db.statuses, 0, 1, name2, 2)
    requires body.task.trackable ==> r.statuses[3] == Joined(db.statuses, 0, 1, name2, 3)
    ensures ChordJoinedShape(r, name1, name2, body)
  {
    var s := db.statuses;
    assert 0 in Path(s, 0) && 1 in Path(s, 0) && 2 !in Path(s, 0) && 3 !in Path(s, 0);
    assert r.statuses[2] == s[2];
    assert body.task.trackable ==> r.statuses[3] == s[3];
    JoinedGroupRecord(s[0], r.statuses[0], name1, name2);
  }

  function TrackedBody(): ChordBody {
    ChordBody("b", Sample("3", ""))
  }

  function UntrackedBody(): ChordBody {
    ChordBody("b", Task(false, "test_signals.normal_task", "normal_task", 1, "", None))
  }

  /** A chord of two headers, the second naming it, and a trackable body:
      five records; the chord without a parent counts three steps, the group
      under it two, and both carry the second header's name. */
  lemma ChordOfThree()
    ensures var r1 := Publish(Empty(), Header("h1", "1", "", TrackedBody()), Users(), Uuid(), Now());
      var r2 := Publish(r1.db, Header("h2", "2", "Chord: 1 & 2, then 3", TrackedBody()), Users(), Uuid(), Now());
      && r1.error.None? && r2.error.None? && r2.db.nextId == 5
      && ChordJoinedShape(r2.db, "", "Chord: 1 & 2, then 3", TrackedBody())
  {
    ChordOpened("", TrackedBody());
    var r1 := Publish(Empty(), Header("h1", "1", "", TrackedBody()), Users(), Uuid(), Now());
    ChordJoined(r1.db, "", "Chord: 1 & 2, then 3", TrackedBody());
  }

  /** A chord whose body is a plain Celery task: four records; the first
      header's name stays and the second's is ignored, and the chord counts
      only the two headers' steps. */
  lemma ChordWithoutBody()
    ensures var r1 := Publish(Empty(), Header("h1", "1", "Chord: 1 & 2", UntrackedBody()), Users(), Uuid(), Now());
      var r2 := Publish(r1.db, Header("h2", "2", "I should be ignored", UntrackedBody()), Users(), Uuid(), Now());
      && r1.error.None? && r2.error.None? && r2.db.nextId == 4
      && ChordJoinedShape(r2.db, "Chord: 1 & 2", "I should be ignored", UntrackedBody())
  {
    ChordOpened("Chord: 1 & 2", UntrackedBody());
    var r1 := Publish(Empty(), Header("h1", "1", "Chord: 1 & 2", UntrackedBody()), Users(), Uuid(), Now());
    ChordJoined(r1.db, "Chord: 1 & 2", "I should be ignored", UntrackedBody());
  }

  /** Publishing a plain Celery task records nothing. */
  lemma PlainTaskIgnored(db: Db)
    requires Valid(db)
    ensures Publish(db, Message("t", Plain(), None, [], None), Users(), Uuid(), Now()) == Outcome(db, None)
  {
  }
}
