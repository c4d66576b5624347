/** The resume's personal-information form: the form starts from the stored
    record, and a valid submit replaces the record with the form's values. */
module PersonalInfoForm {

  import opened Wrappers
  import opened ResumeStore

  /** `personalInfoSchema`: name, phone and location are required, the e-mail must
      be well formed and the three remaining fields are optional. What counts as a
      well-formed address is the validation library's business; it is a parameter. */
  predicate SchemaValid(d: PersonalInfo, isEmail: string -> bool) {
    |d.name| >= 1 && isEmail(d.email) && |d.phone| >= 1 && |d.location| >= 1
  }

  /** The form's `defaultValues`: the record stored when the form is mounted. */
  function Defaults(res: Resume): PersonalInfo {
    res.personalInfo
  }

  /** `updatePersonalInfo(data)`: every field of the submitted record is present in
      the patch, optional ones included. */
  function PatchOf(d: PersonalInfo): (p: PersonalInfoPatch)
    ensures forall i: PersonalInfo {:trigger MergePersonalInfo(i, p)} :: MergePersonalInfo(i, p) == d
  {
    PersonalInfoPatch(Some(d.name), Some(d.email), Some(d.phone), Some(d.location),
                      Some(d.linkedin), Some(d.portfolio), Some(d.summary))
  }

  /** `onSubmit` behind `form.handleSubmit`: an invalid form changes nothing; a
      valid one makes the personal information exactly the submitted values.
      The three collections never change. */
  function OnSubmit(res: Resume, d: PersonalInfo, isEmail: string -> bool): (r: Resume)
    ensures !SchemaValid(d, isEmail) ==> r == res
    ensures SchemaValid(d, isEmail) ==> r.personalInfo == d
    ensures r.experiences == res.experiences && r.education == res.education && r.skills == res.skills
    ensures Valid(res) ==> Valid(r)
  {
    if SchemaValid(d, isEmail) then UpdatePersonalInfo(res, PatchOf(d)) else res
  }

  /** Submitting the form untouched changes nothing, whether or not it validates. */
  lemma SubmitDefaultsIsNoop(res: Resume, isEmail: string -> bool)
    ensures OnSubmit(res, Defaults(res), isEmail) == res
  {
  }

  /** The optional fields play no part in validation. */
  lemma OptionalFieldsAreFree(d: PersonalInfo, isEmail: string -> bool,
                              linkedin: Option<string>, portfolio: Option<string>, summary: Option<string>)
    ensures SchemaValid(d, isEmail) == SchemaValid(d.(linkedin := linkedin, portfolio := portfolio, summary := summary), isEmail)
  {
  }

  /** The initial resume's record never validates, so the first save needs a name,
      phone, location and e-mail. */
  lemma InitialRecordInvalid(isEmail: string -> bool)
    ensures !SchemaValid(Defaults(InitialResume), isEmail)
  {
  }

  /** A second identical submit changes nothing more. */
  lemma SubmitIdempotent(res: Resume, d: PersonalInfo, isEmail: string -> bool)
    ensures OnSubmit(OnSubmit(res, d, isEmail), d, isEmail) == OnSubmit(res, d, isEmail)
  {
  }
}
