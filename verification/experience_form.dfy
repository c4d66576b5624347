/** The work-experience form: validation, the description text split into
    stored lines, and the add/edit routing driven by the identifier being edited. */
module ExperienceForm {

  import opened Wrappers
  import opened Text
  import opened Seqs
  import opened Keyed
  import opened ResumeStore
  import FormEditor

  /** The form's values; the description is edited as one multi-line text. */
  datatype ExperienceFormData = ExperienceFormData(
    company: string,
    position: string,
    startDate: string,
    endDate: string,
    isCurrentRole: bool,
    description: string,
    location: Option<string>)

  const DefaultForm := ExperienceFormData("", "", "", "", false, "", Some(""))

  /** `experienceSchema`: company, position, start date and description are required
      (at least one character); end date and location are optional. */
  predicate SchemaValid(d: ExperienceFormData) {
    |d.company| >= 1 && |d.position| >= 1 && |d.startDate| >= 1 && |d.description| >= 1
  }

  function NonBlank(): string -> bool {
    (line: string) => Trim(line) != ""
  }

  /** `description.split("\n").filter(line => line.trim() !== '')`. */
  function DescriptionLines(text: string): (r: seq<string>)
    ensures forall i :: 0 <= i < |r| ==> !IsBlank(r[i]) && '\n' !in r[i]
  {
    var r := Filter(Split(text, '\n'), NonBlank());
    assert forall i :: 0 <= i < |r| ==> !IsBlank(r[i]) by {
      forall i | 0 <= i < |r| ensures !IsBlank(r[i]) {
        assert NonBlank()(r[i]);
        TrimEmptyIffBlank(r[i]);
      }
    }
    r
  }

  /** The stored lines are the text's lines in order with the blank ones dropped:
      the lines of `a + '\n' + b` are those of `a` followed by those of `b`. */
  lemma DescriptionLinesOfTwoParts(a: string, b: string)
    requires '\n' !in a
    ensures DescriptionLines(a + "\n" + b) == DescriptionLines(a) + DescriptionLines(b)
  {
    SplitAfter(a, b, '\n');
    SplitSingle(a, '\n');
    FilterAppend([a], Split(b, '\n'), NonBlank());
  }

  /** A description made only of white space passes the schema's length check and is
      stored as no lines at all. */
  lemma BlankDescriptionStoresNothing(text: string)
    requires IsBlank(text)
    ensures DescriptionLines(text) == []
  {
    var pieces := Split(text, '\n');
    JoinSplit(text, '\n');
    forall i | 0 <= i < |pieces| ensures !NonBlank()(pieces[i]) {
      PieceOfBlankIsBlank(pieces, i);
      TrimEmptyIffBlank(pieces[i]);
    }
    FilterKeepsNone(pieces, NonBlank());
  }

  lemma {:induction false} PieceOfBlankIsBlank(pieces: seq<string>, i: nat)
    requires i < |pieces|
    requires IsBlank(Join(pieces, "\n"))
    ensures IsBlank(pieces[i])
    decreases |pieces|
  {
    if |pieces| > 1 {
      var rest := Join(pieces[1..], "\n");
      assert Join(pieces, "\n") == pieces[0] + "\n" + rest;
      if i == 0 {
        forall k | 0 <= k < |pieces[0]| ensures IsSpace(pieces[0][k]) {
          assert Join(pieces, "\n")[k] == pieces[0][k];
        }
      } else {
        forall k | 0 <= k < |rest| ensures IsSpace(rest[k]) {
          assert Join(pieces, "\n")[|pieces[0]| + 1 + k] == rest[k];
        }
        PieceOfBlankIsBlank(pieces[1..], i - 1);
      }
    }
  }

  lemma BlankButValid()
    ensures SchemaValid(DefaultForm.(company := "Acme", position := "Engineer", startDate := "2020-01", description := " \n "))
    ensures DescriptionLines(" \n ") == []
  {
    BlankDescriptionStoresNothing(" \n ");
  }

  /** Loading stored lines into the form (`join("\n")`) and saving them again gives
      back the same lines, provided each is non-blank and has no newline. */
  lemma {:induction false} DescriptionRoundTrip(lines: seq<string>)
    requires forall i :: 0 <= i < |lines| ==> !IsBlank(lines[i]) && '\n' !in lines[i]
    ensures DescriptionLines(Join(lines, "\n")) == lines
    decreases |lines|
  {
    if |lines| == 0 {
      assert Split("", '\n') == [""];
      TrimEmptyIffBlank("");
    } else if |lines| == 1 {
      SplitSingle(lines[0], '\n');
      TrimEmptyIffBlank(lines[0]);
    } else {
      DescriptionLinesOfTwoParts(lines[0], Join(lines[1..], "\n"));
      DescriptionRoundTrip([lines[0]]);
      DescriptionRoundTrip(lines[1..]);
      assert [lines[0]] + lines[1..] == lines;
    }
  }

  // ---------------------------------------------------------------------------
  // Routing

  /** The component's `editingId` and the form's defaults, blank at first. */
  type Editor = FormEditor.Editor<ExperienceFormData>

  const InitialEditor: Editor := FormEditor.Init(DefaultForm)

  predicate Editing(ed: Editor) {
    FormEditor.Editing(ed)
  }

  function Draft(d: ExperienceFormData): ExperienceDraft {
    ExperienceDraft(d.company, d.position, d.startDate, d.endDate, d.isCurrentRole, DescriptionLines(d.description), d.location)
  }

  function Patch(d: ExperienceFormData): (p: ExperiencePatch)
    ensures forall e: Experience {:trigger MergeExperience(e, p)} :: ExperienceDraftOf(MergeExperience(e, p)) == Draft(d)
  {
    ExperiencePatch(Some(d.company), Some(d.position), Some(d.startDate), Some(d.endDate),
                    Some(d.isCurrentRole), Some(DescriptionLines(d.description)), Some(d.location))
  }

  /** `form.handleSubmit(onSubmit)` on the values `d`. An invalid form changes
      nothing. A valid one updates the experience being edited (the count stays)
      or appends a new one under a fresh identifier; afterwards nothing is being
      edited and `form.reset()` refills the form with its defaults. Only the
      experiences change. The result is the resume, the state and the form's values. */
  function OnSubmit(res: Resume, ed: Editor, d: ExperienceFormData, freshId: Id): (r: (Resume, Editor, ExperienceFormData))
    requires freshId !in Ids(res.experiences, ExperienceId)
    ensures !SchemaValid(d) ==> r == (res, ed, d)
    ensures SchemaValid(d) ==> r.1.editingId == None && r.1.defaults == ed.defaults && r.2 == ed.defaults
    ensures r.0.personalInfo == res.personalInfo && r.0.education == res.education && r.0.skills == res.skills
    ensures SchemaValid(d) && Editing(ed) ==>
      && |r.0.experiences| == |res.experiences|
      && (forall i :: 0 <= i < |res.experiences| && res.experiences[i].id == ed.editingId.value ==>
            r.0.experiences[i].id == res.experiences[i].id && ExperienceDraftOf(r.0.experiences[i]) == Draft(d))
      && (forall i :: 0 <= i < |res.experiences| && res.experiences[i].id != ed.editingId.value ==>
            r.0.experiences[i] == res.experiences[i])
    ensures SchemaValid(d) && !Editing(ed) ==>
      && |r.0.experiences| == |res.experiences| + 1
      && r.0.experiences[..|res.experiences|] == res.experiences
      && r.0.experiences[|res.experiences|].id == freshId
      && ExperienceDraftOf(r.0.experiences[|res.experiences|]) == Draft(d)
    ensures Valid(res) ==> Valid(r.0)
  {
    if !SchemaValid(d) then (res, ed, d)
    else
      var res' := if Editing(ed) then UpdateExperience(res, ed.editingId.value, Patch(d))
                  else AddExperience(res, Draft(d), freshId);
      var cleared := FormEditor.Clear(ed);
      (res', cleared.0, cleared.1)
  }

  /** The form's values for a stored experience, its lines joined by newlines. */
  function FormOf(e: Experience): (d: ExperienceFormData)
    ensures d.company == e.company && d.position == e.position && d.startDate == e.startDate
    ensures d.endDate == e.endDate && d.isCurrentRole == e.isCurrentRole && d.location == e.location
    ensures d.description == Join(e.description, "\n")
  {
    ExperienceFormData(e.company, e.position, e.startDate, e.endDate, e.isCurrentRole, Join(e.description, "\n"), e.location)
  }

  /** `handleEdit`: remember the experience's identifier and load its fields into
      the form, which also makes them the form's defaults. */
  function HandleEdit(ed: Editor, e: Experience): (r: (Editor, ExperienceFormData))
    ensures r.0.editingId == Some(e.id)
    ensures r.1 == FormOf(e) && r.0.defaults == FormOf(e)
  {
    FormEditor.Edit(ed, e.id, FormOf(e))
  }

  /** `handleAddNew` as written: nothing is being edited and the form shows its
      current defaults: the blank form at first, but the last edited experience
      once one has been opened. */
  function HandleAddNew(ed: Editor): (r: (Editor, ExperienceFormData))
    ensures !Editing(r.0) && r.0.defaults == ed.defaults && r.1 == ed.defaults
    ensures ed == InitialEditor ==> r.1 == DefaultForm
  {
    FormEditor.Clear(ed)
  }

  /** "Add new" after opening an experience for editing, saved or not, shows that
      experience's values instead of a blank form. */
  lemma AddNewAfterEditShowsEdited(res: Resume, ed: Editor, e: Experience, d: ExperienceFormData, freshId: Id)
    requires freshId !in Ids(res.experiences, ExperienceId)
    ensures HandleAddNew(HandleEdit(ed, e).0).1 == FormOf(e)
    ensures HandleAddNew(OnSubmit(res, HandleEdit(ed, e).0, d, freshId).1).1 == FormOf(e)
    ensures e.company != "" ==> HandleAddNew(HandleEdit(ed, e).0).1 != DefaultForm
  {
  }

  /** `handleAddNew` as evidently intended: a blank form whatever came before. */
  function HandleAddNewBlank(ed: Editor): (r: (Editor, ExperienceFormData))
    ensures !Editing(r.0) && r.0.defaults == DefaultForm && r.1 == DefaultForm
  {
    FormEditor.ClearToBlank(ed, DefaultForm)
  }

  /** With the intended "add new", opening an experience first leaves no trace. */
  lemma AddNewBlankForgetsEdit(ed: Editor, e: Experience)
    ensures HandleAddNewBlank(HandleEdit(ed, e).0) == HandleAddNewBlank(ed)
    ensures HandleAddNewBlank(HandleEdit(ed, e).0) == HandleAddNew(InitialEditor)
  {
  }

  /** `handleDelete`. */
  function HandleDelete(res: Resume, id: Id): (r: Resume)
    ensures id !in Ids(r.experiences, ExperienceId)
    ensures forall i :: 0 <= i < |res.experiences| && res.experiences[i].id != id ==> res.experiences[i] in r.experiences
    ensures r.personalInfo == res.personalInfo && r.education == res.education && r.skills == res.skills
  {
    DeleteExperience(res, id)
  }

  /** Opening a stored experience for editing and saving it unchanged leaves the
      resume as it was, when its lines are non-blank and newline-free. */
  lemma EditThenSaveIsIdentity(res: Resume, ed: Editor, k: nat, freshId: Id)
    requires Valid(res)
    requires k < |res.experiences|
    requires freshId !in Ids(res.experiences, ExperienceId)
    requires Truthy(res.experiences[k].id)
    requires var e := res.experiences[k];
      forall i :: 0 <= i < |e.description| ==> !IsBlank(e.description[i]) && '\n' !in e.description[i]
    requires SchemaValid(FormOf(res.experiences[k]))
    ensures OnSubmit(res, HandleEdit(ed, res.experiences[k]).0, HandleEdit(ed, res.experiences[k]).1, freshId).0 == res
  {
    var e := res.experiences[k];
    DescriptionRoundTrip(e.description);
    var r := OnSubmit(res, HandleEdit(ed, e).0, HandleEdit(ed, e).1, freshId).0;
    forall i | 0 <= i < |res.experiences| ensures r.experiences[i] == res.experiences[i] {
      if res.experiences[i].id == e.id {
        assert i == k;
      }
    }
  }

  /** After `handleAddNew`, whatever it shows, a valid submit adds exactly one experience. */
  lemma AddNewThenSubmitAdds(res: Resume, ed: Editor, d: ExperienceFormData, freshId: Id)
    requires freshId !in Ids(res.experiences, ExperienceId)
    requires SchemaValid(d)
    ensures |OnSubmit(res, HandleAddNew(ed).0, d, freshId).0.experiences| == |res.experiences| + 1
    ensures |OnSubmit(res, HandleAddNewBlank(ed).0, d, freshId).0.experiences| == |res.experiences| + 1
  {
  }
}
