/**
  Who may see and act on which records: the ownership predicates and the
  permission table of user_tasks/rules.py, and the default list filters of
  user_tasks/filters.py ("superusers see everything, other users see only
  what they triggered"), cross-checked against each other.
 */
module Access {
  import opened Store

  /** The requesting user: primary key and superuser flag. */
  datatype User = User(id: UserRef, isSuperuser: bool)

  /** The actions the permission table names for each model. */
  datatype Action = View | Cancel | Change | Delete

  /** `is_status_creator`: true when no status is given, otherwise exactly
      when the user triggered the task. */
  function IsStatusCreator(user: User, status: Option<Status>): (r: bool)
    ensures status.None? ==> r
    ensures status.Some? ==> (r <==> status.value.user == user.id)
  {
    match status
    case None => true
    case Some(st) => st.user == user.id
  }

  /** `is_artifact_creator`: true when no artifact is given, otherwise the
      ownership of the artifact's status. */
  function IsArtifactCreator(user: User, s: map<Id, Status>, artifact: Option<Artifact>): (r: bool)
    requires artifact.Some? ==> artifact.value.status in s
    ensures artifact.None? ==> r
    ensures artifact.Some? ==> (r <==> s[artifact.value.status].user == user.id)
  {
    match artifact
    case None => true
    case Some(a) => IsStatusCreator(user, Some(s[a.status]))
  }

  /** `STATUS_PERMISSION`. */
  function StatusPermission(user: User, status: Option<Status>): bool {
    IsStatusCreator(user, status) || user.isSuperuser
  }

  /** `ARTIFACT_PERMISSION`. */
  function ArtifactPermission(user: User, s: map<Id, Status>, artifact: Option<Artifact>): bool
    requires artifact.Some? ==> artifact.value.status in s
  {
    IsArtifactCreator(user, s, artifact) || user.isSuperuser
  }

  /** The status rules `add_rules` registers: view, cancel and delete for the
      creator or a superuser, change for superusers only. */
  function StatusRule(user: User, action: Action, status: Option<Status>): (r: bool)
    ensures action != Change ==> (r <==> status.None? || status.value.user == user.id || user.isSuperuser)
    ensures action == Change ==> (r <==> user.isSuperuser)
  {
    match action
    case View => StatusPermission(user, status)
    case Cancel => StatusPermission(user, status)
    case Change => user.isSuperuser
    case Delete => StatusPermission(user, status)
  }

  /** The artifact rules `add_rules` registers: view for the creator or a
      superuser, change and delete for superusers only; no cancel rule is
      registered, so it is refused. */
  function ArtifactRule(user: User, s: map<Id, Status>, action: Action, artifact: Option<Artifact>): (r: bool)
    requires artifact.Some? ==> artifact.value.status in s
    ensures action == View ==> (r <==> artifact.None? || s[artifact.value.status].user == user.id || user.isSuperuser)
    ensures action == Change || action == Delete ==> (r <==> user.isSuperuser)
    ensures action == Cancel ==> !r
  {
    match action
    case View => ArtifactPermission(user, s, artifact)
    case Cancel => false
    case Change => user.isSuperuser
    case Delete => user.isSuperuser
  }

  // ---------------------------------------------------------------------
  // List filters

  /** `StatusFilterBackend.filter_queryset`. */
  function FilterStatuses(user: User, xs: seq<Status>): (r: seq<Status>)
    ensures user.isSuperuser ==> r == xs
    ensures !user.isSuperuser ==> forall st :: st in r <==> st in xs && st.user == user.id
    ensures !user.isSuperuser ==> forall st :: multiset(r)[st] == if st.user == user.id then multiset(xs)[st] else 0
    ensures IsSubsequence(r, xs)
  {
    if user.isSuperuser then
      SubsequenceOfItself(xs);
      xs
    else
      KeepIsSubsequence(xs, (st: Status) => st.user == user.id);
      KeepCounts(xs, (st: Status) => st.user == user.id);
      Keep(xs, (st: Status) => st.user == user.id)
  }

  /** `ArtifactFilterBackend.filter_queryset`: artifacts of statuses the
      user owns. Every artifact's status is in the table (the foreign key). */
  function FilterArtifacts(user: User, s: map<Id, Status>, xs: seq<Artifact>): (r: seq<Artifact>)
    requires forall i :: 0 <= i < |xs| ==> xs[i].status in s
    ensures user.isSuperuser ==> r == xs
    ensures !user.isSuperuser ==> forall a :: a in r <==> a in xs && s[a.status].user == user.id
    ensures !user.isSuperuser ==>
      forall a :: multiset(r)[a] == if a.status in s && s[a.status].user == user.id then multiset(xs)[a] else 0
    ensures IsSubsequence(r, xs)
  {
    if user.isSuperuser then
      SubsequenceOfItself(xs);
      xs
    else
      var p := (a: Artifact) => a.status in s && s[a.status].user == user.id;
      KeepIsSubsequence(xs, p);
      KeepCounts(xs, p);
      Keep(xs, p)
  }

  /** A status is listed exactly when the view rule grants it to the user. */
  lemma StatusFilterIsViewRule(user: User, xs: seq<Status>)
    ensures forall st :: st in FilterStatuses(user, xs) <==> st in xs && StatusRule(user, View, Some(st))
  {
  }

  /** An artifact is listed exactly when the view rule grants it to the user. */
  lemma ArtifactFilterIsViewRule(user: User, s: map<Id, Status>, xs: seq<Artifact>)
    requires forall i :: 0 <= i < |xs| ==> xs[i].status in s
    ensures forall a :: a in FilterArtifacts(user, s, xs) <==> a in xs && ArtifactRule(user, s, View, Some(a))
  {
  }

  /** An artifact is listed exactly when its status is. */
  lemma ArtifactFilterFollowsStatus(user: User, s: map<Id, Status>, xs: seq<Artifact>)
    requires forall i :: 0 <= i < |xs| ==> xs[i].status in s
    ensures forall a :: a in FilterArtifacts(user, s, xs) <==>
      a in xs && s[a.status] in FilterStatuses(user, [s[a.status]])
  {
  }
}
