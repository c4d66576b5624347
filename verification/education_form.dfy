/** The education form: validation, and add/edit routing driven by the
    identifier being edited. The form's values are the entry's fields as stored. */
module EducationForm {

  import opened Wrappers
  import opened Text
  import opened Keyed
  import opened ResumeStore
  import FormEditor

  /** The form holds exactly the fields of an education entry without its identifier. */
  type EducationFormData = EducationDraft

  const DefaultForm := EducationDraft("", "", "", "", Some(""))

  /** `educationSchema`: institution, degree, field and graduation date are required;
      the grade average is optional. */
  predicate SchemaValid(d: EducationFormData) {
    |d.institution| >= 1 && |d.degree| >= 1 && |d.field| >= 1 && |d.graduationDate| >= 1
  }

  /** The component's `editingId` and the form's defaults, blank at first. */
  type Editor = FormEditor.Editor<EducationFormData>

  const InitialEditor: Editor := FormEditor.Init(DefaultForm)

  predicate Editing(ed: Editor) {
    FormEditor.Editing(ed)
  }

  function Patch(d: EducationFormData): (p: EducationPatch)
    ensures forall e: Education {:trigger MergeEducation(e, p)} :: EducationDraftOf(MergeEducation(e, p)) == d
  {
    EducationPatch(Some(d.institution), Some(d.degree), Some(d.field), Some(d.graduationDate), Some(d.gpa))
  }

  /** `onSubmit` behind `form.handleSubmit`, on the values `d`. An invalid form
      changes nothing. A valid one updates the entry being edited (the count stays)
      or appends a new entry under a fresh identifier; afterwards nothing is being
      edited and `form.reset()` refills the form with its defaults. Only the
      education list changes. The result is the resume, the state and the form's values. */
  function OnSubmit(res: Resume, ed: Editor, d: EducationFormData, freshId: Id): (r: (Resume, Editor, EducationFormData))
    requires freshId !in Ids(res.education, EducationId)
    ensures !SchemaValid(d) ==> r == (res, ed, d)
    ensures SchemaValid(d) ==> r.1.editingId == None && r.1.defaults == ed.defaults && r.2 == ed.defaults
    ensures r.0.personalInfo == res.personalInfo && r.0.experiences == res.experiences && r.0.skills == res.skills
    ensures SchemaValid(d) && Editing(ed) ==>
      && |r.0.education| == |res.education|
      && (forall i :: 0 <= i < |res.education| && res.education[i].id == ed.editingId.value ==>
            r.0.education[i].id == res.education[i].id && EducationDraftOf(r.0.education[i]) == d)
      && (forall i :: 0 <= i < |res.education| && res.education[i].id != ed.editingId.value ==>
            r.0.education[i] == res.education[i])
    ensures SchemaValid(d) && !Editing(ed) ==>
      && |r.0.education| == |res.education| + 1
      && r.0.education[..|res.education|] == res.education
      && r.0.education[|res.education|].id == freshId
      && EducationDraftOf(r.0.education[|res.education|]) == d
    ensures Valid(res) ==> Valid(r.0)
  {
    if !SchemaValid(d) then (res, ed, d)
    else
      var res' := if Editing(ed) then UpdateEducation(res, ed.editingId.value, Patch(d))
                  else AddEducation(res, d, freshId);
      var cleared := FormEditor.Clear(ed);
      (res', cleared.0, cleared.1)
  }

  /** `handleEdit`: remember the entry's identifier and load its fields into the
      form (`form.reset(education)`), which also makes them the form's defaults. */
  function HandleEdit(ed: Editor, e: Education): (r: (Editor, EducationFormData))
    ensures r.0.editingId == Some(e.id)
    ensures EducationWithId(r.1, e.id) == e && r.0.defaults == r.1
  {
    FormEditor.Edit(ed, e.id, EducationDraftOf(e))
  }

  /** `handleAddNew` as written: nothing is being edited and the form shows its
      current defaults: blank at first, the last edited entry once one was opened. */
  function HandleAddNew(ed: Editor): (r: (Editor, EducationFormData))
    ensures !Editing(r.0) && r.0.defaults == ed.defaults && r.1 == ed.defaults
    ensures ed == InitialEditor ==> r.1 == DefaultForm
  {
    FormEditor.Clear(ed)
  }

  /** "Add new" after opening an entry for editing, saved or not, shows that
      entry's fields instead of a blank form. */
  lemma AddNewAfterEditShowsEdited(res: Resume, ed: Editor, e: Education, d: EducationFormData, freshId: Id)
    requires freshId !in Ids(res.education, EducationId)
    ensures HandleAddNew(HandleEdit(ed, e).0).1 == EducationDraftOf(e)
    ensures HandleAddNew(OnSubmit(res, HandleEdit(ed, e).0, d, freshId).1).1 == EducationDraftOf(e)
    ensures e.institution != "" ==> HandleAddNew(HandleEdit(ed, e).0).1 != DefaultForm
  {
  }

  /** `handleAddNew` as evidently intended: a blank form whatever came before. */
  function HandleAddNewBlank(ed: Editor): (r: (Editor, EducationFormData))
    ensures !Editing(r.0) && r.0.defaults == DefaultForm && r.1 == DefaultForm
  {
    FormEditor.ClearToBlank(ed, DefaultForm)
  }

  /** With the intended "add new", opening an entry first leaves no trace. */
  lemma AddNewBlankForgetsEdit(ed: Editor, e: Education)
    ensures HandleAddNewBlank(HandleEdit(ed, e).0) == HandleAddNewBlank(ed)
    ensures HandleAddNewBlank(HandleEdit(ed, e).0) == HandleAddNew(InitialEditor)
  {
  }

  /** `handleDelete`. */
  function HandleDelete(res: Resume, id: Id): (r: Resume)
    ensures id !in Ids(r.education, EducationId)
    ensures forall i :: 0 <= i < |res.education| && res.education[i].id != id ==> res.education[i] in r.education
    ensures r.personalInfo == res.personalInfo && r.experiences == res.experiences && r.skills == res.skills
  {
    DeleteEducation(res, id)
  }

  /** Opening a stored entry for editing and saving it unchanged leaves the resume
      as it was: unlike the experience form, nothing is normalised on the way. */
  lemma EditThenSaveIsIdentity(res: Resume, ed: Editor, k: nat, freshId: Id)
    requires Valid(res)
    requires k < |res.education|
    requires freshId !in Ids(res.education, EducationId)
    requires Truthy(res.education[k].id)
    requires SchemaValid(EducationDraftOf(res.education[k]))
    ensures OnSubmit(res, HandleEdit(ed, res.education[k]).0, HandleEdit(ed, res.education[k]).1, freshId).0 == res
  {
    var e := res.education[k];
    var r := OnSubmit(res, HandleEdit(ed, e).0, HandleEdit(ed, e).1, freshId).0;
    forall i | 0 <= i < |res.education| ensures r.education[i] == res.education[i] {
      if res.education[i].id == e.id {
        assert i == k;
      }
    }
  }

  /** An entry whose identifier is the empty string cannot be edited: saving it
      after `handleEdit` appends a copy instead, because `if (editingId)` is false. */
  lemma EmptyIdEditAppends(res: Resume, ed: Editor, k: nat, freshId: Id)
    requires k < |res.education|
    requires freshId !in Ids(res.education, EducationId)
    requires res.education[k].id == ""
    requires SchemaValid(EducationDraftOf(res.education[k]))
    ensures |OnSubmit(res, HandleEdit(ed, res.education[k]).0, HandleEdit(ed, res.education[k]).1, freshId).0.education|
         == |res.education| + 1
  {
  }
}
