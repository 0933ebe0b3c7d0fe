# django-user-tasks: the task status tree, in Dafny

django-user-tasks keeps one `UserTaskStatus` record for every Celery task
a user triggers. It also keeps one container record for every group,
chain and chord such a task belongs to. The records form a forest through
their `parent` references. Errors and outputs hang off them as
`UserTaskArtifact` records. This project models that engine as pure
functions over an immutable store and proves what each step does:

- `store.dfy` (module `Store`) holds the records, artifacts and emitted
  notifications. It also holds the forest invariant: a ghost rank that
  strictly decreases toward the roots, needed because a chord's group
  record is re-parented under a chord record created after it. Parent
  chains (`Path`) and task-id lookup are defined here too.
- `transitions.dfy` (module `Transitions`) holds the methods of
  `UserTaskStatus` that change one record and then walk up its parent
  chain, or down through a container's children for `cancel`. A step
  returns the new store, or `TaskCanceled` with the store as it stood when
  `TaskCanceledException` was raised.
- `topology.dfy` (module `Topology`) holds the publish-time builder
  `create_user_task`. It covers single tasks, groups (`taskset`), chains
  (`callbacks`, nested through each callback's links) and chords (`chord`),
  and the `user_id` check.
- `lifecycle.dfy` (module `Lifecycle`) holds the `UserTaskMixin` defaults,
  the lazy `status` lookup, and the four receivers for prerun, success,
  failure and retry.
- `retention.dfy` (module `Retention`) holds `purge_old_user_tasks`, with
  the cascade to descendants and artifacts.
- `protocol.dfy` (module `Protocol`) holds the Celery protocol-2 to
  protocol-1 message conversion.
- `access.dfy` (module `Access`) holds the ownership predicates, the
  permission table and the REST list filters.
- `display.dfy` (module `Display`) holds `state_text` and the text forms
  of records.
- `scenarios.dfy` (module `Scenarios`) holds the publishing scenarios of
  the package's signal tests, stated about `Publish` on an empty store.

Inputs the engine takes from outside are parameters:
- the set of existing users;
- the source of fresh container task ids (`uuid4()`);
- the creation time;
- the translation catalogue.

A task is abstracted to what the builder reads:
- whether it is a `UserTaskMixin` task;
- its class name;
- the name and step count its hooks compute;
- its `user_task_name` and `user_id` arguments.

Three facts about the code that the model states as they are:
- `succeed` raises `completed_steps` to `total_steps` only when it is
  lower (user_tasks/models.py:210-211). A record that already counts more
  steps keeps them, so `Succeed` states `completed == max(completed, total)`.
- The success receiver sends its stopped notification after `succeed`
  returns, so it sends none when `succeed` raises (user_tasks/signals.py:211-221).
  `SuccessStops` proves that one is always sent when every parent is a
  container, which is true of every record the builder creates.
- Only the chord header whose `get_or_create` created the group record goes
  on to the body (user_tasks/signals.py:114-116). The body's steps are
  counted once, by that header.

## Model

| member | source | states |
|---|---|---|
| Store.NewStatus | user_tasks/models.py:71-74 | a new record waits in Pending, with no step done, on its first attempt |
| Store.Path | user_tasks/models.py:65-66 | following `parent` from any record reaches a root without visiting a record twice, so every upward walk ends |
| Store.FindTask | user_tasks/models.py:63-64 | a lookup by task id finds a record with that id, or proves no record has it |
| Store.SameTaskId | user_tasks/models.py:63-64 | `task_id` is unique: two records with the same task id are the same record |
| Transitions.Start | user_tasks/models.py:83-95 | a canceled leaf raises and nothing changes; otherwise the record is In Progress, its parent starts only if it was Pending or Retrying, and nothing off the parent chain changes |
| Transitions.StartAlongUpdates | user_tasks/models.py:91-95 | along the parent chain, exactly the records reached through waiting parents become In Progress; a failed or running parent stops the walk |
| Transitions.IncrementCompleted | user_tasks/models.py:97-116 | the record and every ancestor count exactly n more completed steps and nothing else changes; it raises exactly when a canceled leaf is on the chain, after all increments |
| Transitions.IncrementTotal | user_tasks/models.py:118-124 | the record and every ancestor count exactly n more total steps; nothing else changes |
| Transitions.Cancel | user_tasks/models.py:126-143 | every record below a container (and the record) that has not ended becomes Canceled; ended records keep their state; every waiting leaf reached gets exactly one revoke request and one stopped notification, and no other record gets either |
| Transitions.ChildrenCover | user_tasks/models.py:130-133 | cancelling each direct child of a container reaches exactly the records below the container |
| Transitions.Fail | user_tasks/models.py:146-160 | the record and every ancestor become Failed whatever their state, each getting one "Error" artifact with the message, in chain order |
| Transitions.Retry | user_tasks/models.py:162-170 | the record alone counts one more attempt and becomes Retrying; its parent is untouched |
| Transitions.SetName | user_tasks/models.py:172-179 | the record and every ancestor take the name; no other field or record changes |
| Transitions.SetState | user_tasks/models.py:181-197 | a canceled leaf raises with no change; otherwise the record takes the state, the walk stops below a group parent, and only states change |
| Transitions.SetStateAlongUpdates | user_tasks/models.py:188-197 | along the chain, exactly the records before the first group parent and before any canceled leaf take the state |
| Transitions.Succeed | user_tasks/models.py:206-217 | the record succeeds with all its steps done; every ancestor gains at least the steps it owed, exactly those when the parent does not succeed too; it raises when steps were owed and a canceled leaf is on the chain; its parent succeeds exactly when all siblings had succeeded, and is otherwise unchanged |
| Transitions.SucceedAlongCounts | user_tasks/models.py:210-217 | each record of the chain gains at least the steps the record at its foot owed, since a succeeding parent may add its own |
| Transitions.SucceedAlongJoins | user_tasks/models.py:214-217 | the parent's join: it succeeds when every other child already had, and keeps its state when one had not |
| Display.StateText | user_tasks/models.py:199-204 | a named state reads in translation; a custom state reads as itself |
| Display.Content | user_tasks/models.py:246-253 | an artifact shows its file name, else its URL, else its text cut to 47 characters plus "..." when over 50 |
| Display.ArtifactString | user_tasks/models.py:242-254 | the text form is the fixed prefix, the name, ") ", the shown content and ">", each at its own place |
| Display.ArtifactStringParses | user_tasks/models.py:242-254 | two artifacts whose names hold no ")" print alike exactly when their names and shown contents agree |
| Topology.GetUserId | user_tasks/signals.py:160-177 | a missing `user_id` and an unknown one are told apart; a known one is passed through |
| Topology.ErrorTextNamesUser | user_tasks/signals.py:170-176 | the two TypeError messages differ, and the second names the offending value |
| Topology.GroupParent | user_tasks/signals.py:133-157 | no `taskset` means no parent; a new group id gets an empty group record with no steps; an existing group adopts the name only while its own is empty |
| Topology.RegisterAsWritten | user_tasks/signals.py:48-52 | the record exists afterwards; a new task gets its record at the next key; the group chain's totals grow by the task's steps even when the record already existed |
| Topology.RegisterTwiceAsWritten | user_tasks/signals.py:48-52 | delivering the same group member twice counts its steps into the group twice |
| Topology.Register | user_tasks/signals.py:48-52 | a new task gets one record and its steps counted up its group chain; a known task id changes nothing |
| Topology.RegisterTwice | user_tasks/signals.py:48-52 | delivering the same message again leaves the store as the first delivery left it |
| Topology.SingleAlone | user_tasks/signals.py:45-50 | a task outside any group gets exactly one parentless record holding its steps |
| Topology.SingleNewGroup | user_tasks/signals.py:45-52 | the first member of a group creates the group record, holding its steps and named by it, and its own record under it |
| Topology.SingleJoinGroup | user_tasks/signals.py:45-52 | a later member gets its record under the group; the group counts its steps and takes its name only while unnamed; records off the group's chain are untouched |
| Topology.LinkFirst | user_tasks/signals.py:65-76 | the first chain task creates the chain container (named by the task, holding its steps) and its own record; a taken id rolls both back |
| Topology.LinkInto | user_tasks/signals.py:71-76 | a later chain task gets its record under the container, which counts its steps and adopts its name while unnamed |
| Topology.AddMemberWalks | user_tasks/signals.py:71-76 | adding a member equals inserting its record, running `increment_total_steps` up from the container, then `set_name` only when the member brings a name and the container has none |
| Topology.ChainEntryGrows | user_tasks/signals.py:55-80 | entering a chain task and its links adds one record per trackable task under the container and exactly their steps to its total; untracked tasks add nothing but their links are followed |
| Topology.ChainBuilt | user_tasks/signals.py:55-80 | a chain built without error has its container at the next key, holding all trackable steps, and every trackable task under it |
| Topology.ChainOk | user_tasks/signals.py:55-80 | with all task ids new and distinct, building a chain does not fail, and the container takes the first name any trackable task gives |
| Topology.FirstNamed | user_tasks/signals.py:75-76 | a container keeps the first non-empty `user_task_name` it is given |
| Topology.ChordOpen | user_tasks/signals.py:96-105 | the group and chord records both hold the header's steps, and the group is moved under the chord |
| Topology.ChordHead | user_tasks/signals.py:95-112 | the first header creates group, chord and its own record under the group; a taken id rolls the block back |
| Topology.ChordBodyAdd | user_tasks/signals.py:117-130 | an untracked body adds nothing; a trackable body gets its record under the chord unless it exists, and its steps are counted either way |
| Topology.ChordFinishAdds | user_tasks/signals.py:113-130 | once the header's block has built the chord, the body's share follows: a trackable body not yet known gets its record under the chord, and a trackable body's steps count into the chord |
| Topology.ChordFirst | user_tasks/signals.py:95-130 | the first header succeeds exactly when the chord's uuid and the header's id are new and distinct from the group's; otherwise it reports the duplicate and leaves the store unchanged |
| Topology.GroupJoin | user_tasks/signals.py:106-110 | a later header raises the group's and the chord's totals and names them only when the group is unnamed |
| Topology.ChordJoin | user_tasks/signals.py:106-116 | a later header joins the existing group with one record and adds no body |
| Topology.ChordEntry | user_tasks/signals.py:83-130 | a chord message without a group is refused; a new group id builds the chord with the header's first-header result; an existing group is joined with the header's join result |
| Topology.Publish | user_tasks/signals.py:25-52 | untracked tasks record nothing; user id errors record nothing; a task with callbacks is built as a chain, else one with a chord as a chord entry, else as a single task; the store stays a valid forest |
| Lifecycle.LastSegment | user_tasks/tasks.py:47 | the result has no dot and is the part of the name after its last dot |
| Lifecycle.LastSegmentAfterDot | user_tasks/tasks.py:39-47 | the text after a final dot is what `split('.')[-1]` returns |
| Lifecycle.GenerateName | user_tasks/tasks.py:39-47 | the override's name, by default the class name's last dotted segment |
| Lifecycle.TotalSteps | user_tasks/tasks.py:49-59 | the override's count, by default one step for any arguments |
| Lifecycle.TaskClass | user_tasks/tasks.py:86 | `module.Class`, whose last segment is the class name |
| Lifecycle.DefaultKind | user_tasks/tasks.py:39-59 | a class overriding nothing is named after itself and has one step |
| Lifecycle.StatusOf | user_tasks/tasks.py:73-90 | the running task's record is found without change; otherwise exactly one new parentless record is created, or KeyError when `user_id` is absent |
| Lifecycle.StatusOfTwice | user_tasks/tasks.py:73-90 | asking for `status` again finds the same record and creates nothing |
| Lifecycle.OnPrerun | user_tasks/signals.py:180-186 | a user task's record starts, raising only for a canceled leaf; other tasks change nothing |
| Lifecycle.OnFailure | user_tasks/signals.py:189-199 | unless canceled, the record and its ancestors fail with the exception's text; exactly one stopped notification follows either way |
| Lifecycle.OnRetry | user_tasks/signals.py:202-208 | the record alone counts an attempt and becomes Retrying, with no notification |
| Lifecycle.OnSuccess | user_tasks/signals.py:211-221 | a record not canceled, failed or retrying succeeds; one stopped notification follows unless `succeed` raised on a canceled leaf |
| Lifecycle.SuccessStops | user_tasks/signals.py:211-221 | when every parent is a container, success never raises and emits exactly one stopped notification |
| Retention.Survivors | user_tasks/tasks.py:111-113 | a status survives exactly when neither it nor any status above it is older than the cutoff |
| Retention.SurvivorsValid | user_tasks/models.py:65-66 | the surviving statuses still form a valid forest with the same parent chains |
| Retention.Purge | user_tasks/tasks.py:104-113 | old statuses and everything below them go, with their artifacts; the rest stay unchanged and in order, every copy of a kept artifact kept |
| Retention.PurgeKeepsNoOldAncestor | user_tasks/tasks.py:112-113 | every status above a survivor survives and is recent |
| Retention.PurgeTwice | user_tasks/tasks.py:111-113 | a second purge with the same cutoff deletes nothing |
| Retention.DefaultPurge | user_tasks/conf.py:74 | by default statuses older than 30 days are purged |
| Protocol.Missing | user_tasks/utils.py:26 | lists exactly the required headers that are absent, in parameter order |
| Protocol.ExtractHeaders | user_tasks/utils.py:26-39 | all seven headers are required; `group` becomes `taskset`, `utc` is true, others are dropped |
| Protocol.ExtractEmbed | user_tasks/utils.py:42-51 | callbacks and errbacks default to an empty list when absent or false; `task_chain` becomes `chain`; `chord` passes through |
| Protocol.LinkChain | user_tasks/utils.py:21-22 | with a chain, the callbacks gain exactly one last element, the chain; without, they are unchanged |
| Protocol.Proto2ToProto1 | user_tasks/utils.py:8-23 | the converted body: headers copied, arguments unchanged, defaults applied, the chain appended to the callbacks; fails exactly on missing headers or non-list callbacks |
| Protocol.EmbedKeysOnly | user_tasks/utils.py:42 | only `callbacks`, `errbacks`, `task_chain` and `chord` are read; a literal `chain` key is ignored |
| Protocol.HeaderKeysOnly | user_tasks/utils.py:26 | headers other than the seven named ones do not affect the result |
| Access.IsStatusCreator | user_tasks/rules.py:22-36 | true without a status; otherwise exactly when the user triggered it |
| Access.IsArtifactCreator | user_tasks/rules.py:39-53 | true without an artifact; otherwise the ownership of its status |
| Access.StatusRule | user_tasks/rules.py:67-70 | view, cancel and delete for the creator or a superuser; change for superusers only |
| Access.ArtifactRule | user_tasks/rules.py:71-73 | view for the creator or a superuser; change and delete for superusers only; cancel refused |
| Access.FilterStatuses | user_tasks/filters.py:34-40 | a superuser sees the input unchanged; others see exactly their own records, in input order, as many times as they occur |
| Access.FilterArtifacts | user_tasks/filters.py:17-23 | a superuser sees the input unchanged; others see exactly the artifacts of their statuses, in order, as many times as they occur |
| Access.StatusFilterIsViewRule | user_tasks/filters.py:34-40 | a status is listed exactly when the view rule grants it |
| Access.ArtifactFilterIsViewRule | user_tasks/filters.py:17-23 | an artifact is listed exactly when the view rule grants it |
| Access.ArtifactFilterFollowsStatus | user_tasks/filters.py:17-23 | an artifact is listed exactly when its status would be |
| Scenarios.SingleTask | tests/test_signals.py:192-205 | one trackable task: one parentless record with one step; publishing it again creates nothing |
| Scenarios.GroupOfTwo | tests/test_signals.py:269-290 | a group of two: three records, the group parentless with two steps and the second task's name |
| Scenarios.ChainOfFour | tests/test_signals.py:207-228 | a chain of three trackable tasks and a plain one: four records, the chain holding three steps and the second task's name |
| Scenarios.ChordOpened | user_tasks/signals.py:95-130 | the first header creates the group under the chord, its own record, and a trackable body's record |
| Scenarios.ChordJoined | user_tasks/signals.py:106-112 | the second header adds one record; group and chord count its step and adopt its name only if unnamed |
| Scenarios.ChordOfThree | tests/test_signals.py:230-267 | two headers and a trackable body: five records, chord total three, group total two, both named by the second header |
| Scenarios.ChordWithoutBody | tests/test_signals.py:136-167 | two headers and a plain body: four records, chord total two, the first header's name kept |
| Scenarios.PlainTaskIgnored | tests/test_signals.py:178-183 | publishing a plain Celery task records nothing |

## Findings

| source | as written | input that shows it | evidently intended | confidence | as-written member | corrected member |
|---|---|---|---|---|---|---|
| user_tasks/signals.py:48-52 | the group's total grows by the task's steps even when `get_or_create` found the task's record already there | a group member's message published twice with the same task id, as Celery does when the task retries | a re-delivered task counts its steps once, as its record is created once | medium, not executed | Topology.RegisterTwiceAsWritten | Topology.RegisterTwice |

`Publish` uses the corrected `Register`; see `Topology.Publish` under "Left out".

## Left out

- Transactions, `select_for_update`, `F()` updates and `refresh_from_db` are not modelled. Every operation is one sequential step over the store, so races between workers are not modelled.
- `import_string` and `ImportError` are not modelled. An unimportable sender is a task that is not trackable. An import failure of a chain callback or chord body is not modelled.
- `arguments_as_dict` and `inspect.getcallargs` are not modelled. A task carries the name, step count, `user_task_name` and `user_id` they would yield.
- `current_app.control.revoke` and the `user_task_stopped` dispatch become events appended to the store. Receivers' own failures under `send_robust` are not modelled.
- The `uuid` and `modified` fields are not modelled. `created` is an integer timestamp in microseconds.
- The translation catalogue behind `state_text` is a function parameter.
- URL validation of artifact `url` is delegated to Django's validator and not modelled. The artifact file is its stored name.
- `PositiveSmallIntegerField` bounds are not modelled. Step and attempt counters are unbounded integers, because the source never relies on wrap-around.
- Lifecycle.LazyRecord: the record is created for any `user_id`. The user foreign-key check the database would make is not modelled.
- Lifecycle.SuccessStops: assumes every parent is a container, which the builder guarantees. Preservation of that property by every operation is not proved.
- Celery's `chain(...)` object is the `Chain` constructor of a message value.
- Topology.Publish: uses the corrected `Register`. As written (user_tasks/signals.py:51-52), a group member published again with the same task id adds its steps to the group again; `RegisterAsWritten` models that.
- Topology.LinkFirst: the member record's `task_class` is the task's class name. The source passes the task object itself (user_tasks/signals.py:72), which Django stores as that object's `str()`, a text the model does not know.
- Topology.LinkInto: as for `LinkFirst`, the record takes the class name where the source stores `str()` of the task object (user_tasks/signals.py:72).
- Topology.ChordHead: as for `LinkFirst`, the header's record takes the class name where the source stores `str()` of the task object (user_tasks/signals.py:112).
- Topology.ChordJoin: as for `ChordHead`, the record takes the class name where the source stores `str()` of the task object (user_tasks/signals.py:112).
- Protocol.Proto2ToProto1: returns a new body and leaves the input alone. When the input's `callbacks` list is non-empty, the source keeps that same list object (user_tasks/utils.py:45) and appends the chain to it in place (user_tasks/utils.py:21-22), so the caller's message changes too. Values here have no identity, so that aliasing is not modelled.
- Connection closing around task start is not modelled. The REST views, serializers, admin, URL configuration and storage selection are not modelled either.
