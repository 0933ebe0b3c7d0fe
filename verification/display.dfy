/**
  The text forms of records in user_tasks/models.py: the translated state
  (`UserTaskStatus.state_text`) and the `__str__` of artifacts.
  The translation catalogue is a function parameter.
 */
module Display {
  import opened Store

  /** The states `STATE_TRANSLATIONS` has an entry for. */
  predicate Named(state: string) {
    state == Pending || state == InProgress || state == Succeeded || state == Failed || state == Canceled || state == Retrying
  }

  /** `state_text`: a named state in the current language; a custom state
      exactly as it was set. */
  function StateText(state: string, translate: string -> string): (r: string)
    ensures Named(state) ==> r == translate(state)
    ensures !Named(state) ==> r == state
  {
    if Named(state) then translate(state) else state
  }

  const TextLimit: nat := 50
  const Ellipsis: string := "..."

  /** What `UserTaskArtifact.__str__` shows of the payload: the file name,
      else the URL, else the text, cut to 47 characters and an ellipsis when
      longer than 50. */
  function Content(a: Artifact): (c: string)
    ensures a.file != "" ==> c == a.file
    ensures a.file == "" && a.url != "" ==> c == a.url
    ensures a.file == "" && a.url == "" ==> |c| <= TextLimit
    ensures a.file == "" && a.url == "" && |a.text| <= TextLimit ==> c == a.text
    ensures a.file == "" && a.url == "" && |a.text| > TextLimit ==>
      |c| == TextLimit && c[..TextLimit - |Ellipsis|] == a.text[..TextLimit - |Ellipsis|] && c[TextLimit - |Ellipsis|..] == Ellipsis
  {
    if a.file != "" then a.file
    else if a.url != "" then a.url
    else if |a.text| > TextLimit then
      var c := a.text[..TextLimit - |Ellipsis|] + Ellipsis;
      assert c[..TextLimit - |Ellipsis|] == a.text[..TextLimit - |Ellipsis|];
      c
    else a.text
  }

  const ArtifactPrefix: string := "<UserTaskArtifact: ("

  /** `UserTaskArtifact.__str__`: the name in parentheses after the prefix,
      then a space, the shown content and the closing bracket. */
  function ArtifactString(a: Artifact): (r: string)
    ensures var n := |ArtifactPrefix|;
      && |r| == n + |a.name| + 2 + |Content(a)| + 1
      && r[..n] == ArtifactPrefix
      && r[n..n + |a.name|] == a.name
      && r[n + |a.name|..n + |a.name| + 2] == ") "
      && r[n + |a.name| + 2..|r| - 1] == Content(a)
      && r[|r| - 1] == '>'
  {
    var r := ArtifactPrefix + a.name + ") " + Content(a) + ">";
    var n := |ArtifactPrefix|;
    assert r[n..n + |a.name|] == a.name;
    assert r[n + |a.name|..n + |a.name| + 2] == ") ";
    r
  }

  /** The text form tells artifacts apart by name and shown content: the
      first closing parenthesis after the prefix ends the name, so two
      artifacts whose names hold none print alike exactly when their names
      and contents agree. */
  lemma {:induction false} ArtifactStringParses(a: Artifact, b: Artifact)
    requires ')' !in a.name && ')' !in b.name
    ensures ArtifactString(a) == ArtifactString(b) <==> a.name == b.name && Content(a) == Content(b)
  {
    NameInForm(a);
    NameInForm(b);
  }

  /** Where the name sits in the text form, and the parenthesis after it. */
  lemma NameInForm(a: Artifact)
    ensures ArtifactString(a)[|ArtifactPrefix| + |a.name|] == ')'
    ensures forall i :: 0 <= i < |a.name| ==> ArtifactString(a)[|ArtifactPrefix| + i] == a.name[i]
  {
    var n := |ArtifactPrefix|;
    var r := ArtifactString(a);
    assert r[n + |a.name|] == r[n + |a.name|..n + |a.name| + 2][0];
    forall i | 0 <= i < |a.name|
      ensures r[n + i] == a.name[i]
    {
      assert r[n + i] == r[n..n + |a.name|][i];
    }
  }
}
