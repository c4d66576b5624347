/** The resume store: one personal-information record merged field by field,
    and three keyed lists (experiences, education, skills) each with append,
    merge-update and delete. Every operation touches one part of the resume
    only. Persistence to local storage is left out. */
module ResumeStore {

  import opened Wrappers
  import opened Keyed
  import opened Seqs

  datatype PersonalInfo = PersonalInfo(
    name: string,
    email: string,
    phone: string,
    location: string,
    linkedin: Option<string>,
    portfolio: Option<string>,
    summary: Option<string>)

  datatype PersonalInfoPatch = PersonalInfoPatch(
    name: Option<string>,
    email: Option<string>,
    phone: Option<string>,
    location: Option<string>,
    linkedin: Option<Option<string>>,
    portfolio: Option<Option<string>>,
    summary: Option<Option<string>>)

  datatype Experience = Experience(
    id: Id,
    company: string,
    position: string,
    startDate: string,
    endDate: string,
    isCurrentRole: bool,
    description: seq<string>,
    location: Option<string>)

  datatype ExperienceDraft = ExperienceDraft(
    company: string,
    position: string,
    startDate: string,
    endDate: string,
    isCurrentRole: bool,
    description: seq<string>,
    location: Option<string>)

  datatype ExperiencePatch = ExperiencePatch(
    company: Option<string>,
    position: Option<string>,
    startDate: Option<string>,
    endDate: Option<string>,
    isCurrentRole: Option<bool>,
    description: Option<seq<string>>,
    location: Option<Option<string>>)

  datatype Education = Education(
    id: Id,
    institution: string,
    degree: string,
    field: string,
    graduationDate: string,
    gpa: Option<string>)

  datatype EducationDraft = EducationDraft(
    institution: string,
    degree: string,
    field: string,
    graduationDate: string,
    gpa: Option<string>)

  datatype EducationPatch = EducationPatch(
    institution: Option<string>,
    degree: Option<string>,
    field: Option<string>,
    graduationDate: Option<string>,
    gpa: Option<Option<string>>)

  datatype SkillCategory = Technical | Soft | Language

  datatype Proficiency = Beginner | Intermediate | Advanced | Expert

  /** The string literals the store uses for the two enumerations. */
  function CategoryName(c: SkillCategory): string {
    match c
    case Technical => "technical"
    case Soft => "soft"
    case Language => "language"
  }

  function ProficiencyName(p: Proficiency): string {
    match p
    case Beginner => "beginner"
    case Intermediate => "intermediate"
    case Advanced => "advanced"
    case Expert => "expert"
  }

  datatype Skill = Skill(id: Id, name: string, category: SkillCategory, proficiency: Option<Proficiency>)

  datatype SkillDraft = SkillDraft(name: string, category: SkillCategory, proficiency: Option<Proficiency>)

  datatype SkillPatch = SkillPatch(
    name: Option<string>,
    category: Option<SkillCategory>,
    proficiency: Option<Option<Proficiency>>)

  datatype Resume = Resume(
    personalInfo: PersonalInfo,
    experiences: seq<Experience>,
    education: seq<Education>,
    skills: seq<Skill>)

  function ExperienceId(e: Experience): Id { e.id }
  function EducationId(e: Education): Id { e.id }
  function SkillId(s: Skill): Id { s.id }

  /** Identifiers are unique within each collection. */
  ghost predicate Valid(r: Resume) {
    && UniqueIds(r.experiences, ExperienceId)
    && UniqueIds(r.education, EducationId)
    && UniqueIds(r.skills, SkillId)
  }

  /** `initialResume`. */
  const InitialResume := Resume(PersonalInfo("", "", "", "", None, None, None), [], [], [])

  lemma InitialResumeIsEmpty()
    ensures InitialResume.personalInfo.name == "" && InitialResume.personalInfo.email == ""
    ensures InitialResume.personalInfo.phone == "" && InitialResume.personalInfo.location == ""
    ensures InitialResume.experiences == [] && InitialResume.education == [] && InitialResume.skills == []
    ensures Valid(InitialResume)
  {
  }

  // ---------------------------------------------------------------------------
  // Personal information

  function MergePersonalInfo(i: PersonalInfo, p: PersonalInfoPatch): (r: PersonalInfo)
    ensures p.name.Some? ==> r.name == p.name.value
    ensures p.name.None? ==> r.name == i.name
    ensures p.email.Some? ==> r.email == p.email.value
    ensures p.email.None? ==> r.email == i.email
    ensures p.phone.Some? ==> r.phone == p.phone.value
    ensures p.phone.None? ==> r.phone == i.phone
    ensures p.location.Some? ==> r.location == p.location.value
    ensures p.location.None? ==> r.location == i.location
    ensures p.linkedin.Some? ==> r.linkedin == p.linkedin.value
    ensures p.linkedin.None? ==> r.linkedin == i.linkedin
    ensures p.portfolio.Some? ==> r.portfolio == p.portfolio.value
    ensures p.portfolio.None? ==> r.portfolio == i.portfolio
    ensures p.summary.Some? ==> r.summary == p.summary.value
    ensures p.summary.None? ==> r.summary == i.summary
  {
    PersonalInfo(
      Pick(p.name, i.name),
      Pick(p.email, i.email),
      Pick(p.phone, i.phone),
      Pick(p.location, i.location),
      Pick(p.linkedin, i.linkedin),
      Pick(p.portfolio, i.portfolio),
      Pick(p.summary, i.summary))
  }

  /** `updatePersonalInfo`: merges into the personal information and leaves the
      three collections untouched. */
  function UpdatePersonalInfo(res: Resume, p: PersonalInfoPatch): (r: Resume)
    ensures r.personalInfo == MergePersonalInfo(res.personalInfo, p)
    ensures r.experiences == res.experiences && r.education == res.education && r.skills == res.skills
  {
    res.(personalInfo := MergePersonalInfo(res.personalInfo, p))
  }

  // ---------------------------------------------------------------------------
  // Experiences

  function ExperienceWithId(d: ExperienceDraft, id: Id): (e: Experience)
    ensures e.id == id
  {
    Experience(id, d.company, d.position, d.startDate, d.endDate, d.isCurrentRole, d.description, d.location)
  }

  function ExperienceDraftOf(e: Experience): ExperienceDraft {
    ExperienceDraft(e.company, e.position, e.startDate, e.endDate, e.isCurrentRole, e.description, e.location)
  }

  function MergeExperience(e: Experience, p: ExperiencePatch): (r: Experience)
    ensures r.id == e.id
    ensures p.company.Some? ==> r.company == p.company.value
    ensures p.company.None? ==> r.company == e.company
    ensures p.position.Some? ==> r.position == p.position.value
    ensures p.position.None? ==> r.position == e.position
    ensures p.startDate.Some? ==> r.startDate == p.startDate.value
    ensures p.startDate.None? ==> r.startDate == e.startDate
    ensures p.endDate.Some? ==> r.endDate == p.endDate.value
    ensures p.endDate.None? ==> r.endDate == e.endDate
    ensures p.isCurrentRole.Some? ==> r.isCurrentRole == p.isCurrentRole.value
    ensures p.isCurrentRole.None? ==> r.isCurrentRole == e.isCurrentRole
    ensures p.description.Some? ==> r.description == p.description.value
    ensures p.description.None? ==> r.description == e.description
    ensures p.location.Some? ==> r.location == p.location.value
    ensures p.location.None? ==> r.location == e.location
  {
    Experience(e.id,
      Pick(p.company, e.company),
      Pick(p.position, e.position),
      Pick(p.startDate, e.startDate),
      Pick(p.endDate, e.endDate),
      Pick(p.isCurrentRole, e.isCurrentRole),
      Pick(p.description, e.description),
      Pick(p.location, e.location))
  }

  function ExperienceMerger(p: ExperiencePatch): Experience -> Experience {
    (e: Experience) => MergeExperience(e, p)
  }

  function AddExperience(res: Resume, d: ExperienceDraft, freshId: Id): (r: Resume)
    requires freshId !in Ids(res.experiences, ExperienceId)
    ensures r.personalInfo == res.personalInfo && r.education == res.education && r.skills == res.skills
    ensures |r.experiences| == |res.experiences| + 1 && r.experiences[..|res.experiences|] == res.experiences
    ensures r.experiences[|res.experiences|].id == freshId
    ensures ExperienceDraftOf(r.experiences[|res.experiences|]) == d
    ensures Valid(res) ==> Valid(r)
  {
    var e := ExperienceWithId(d, freshId);
    AppendFreshKeepsUnique(res.experiences, e, ExperienceId);
    assert (res.experiences + [e])[..|res.experiences|] == res.experiences;
    res.(experiences := res.experiences + [e])
  }

  function UpdateExperience(res: Resume, id: Id, p: ExperiencePatch): (r: Resume)
    ensures r.personalInfo == res.personalInfo && r.education == res.education && r.skills == res.skills
    ensures |r.experiences| == |res.experiences|
    ensures forall i :: 0 <= i < |res.experiences| && res.experiences[i].id != id ==>
      r.experiences[i] == res.experiences[i]
    ensures forall i :: 0 <= i < |res.experiences| && res.experiences[i].id == id ==>
      r.experiences[i] == MergeExperience(res.experiences[i], p)
    ensures id !in Ids(res.experiences, ExperienceId) ==> r == res
    ensures Valid(res) ==> Valid(r)
  {
    UpdateKeepsIds(res.experiences, ExperienceId, id, ExperienceMerger(p));
    UpdateAbsentIsNoop(res.experiences, ExperienceId, id, ExperienceMerger(p));
    res.(experiences := UpdateWhere(res.experiences, ExperienceId, id, ExperienceMerger(p)))
  }

  function DeleteExperience(res: Resume, id: Id): (r: Resume)
    ensures r.personalInfo == res.personalInfo && r.education == res.education && r.skills == res.skills
    ensures id !in Ids(r.experiences, ExperienceId)
    ensures forall i :: 0 <= i < |r.experiences| ==> r.experiences[i] in res.experiences
    ensures forall i :: 0 <= i < |res.experiences| && res.experiences[i].id != id ==>
      res.experiences[i] in r.experiences
    ensures Valid(res) ==> Valid(r) && (id in Ids(res.experiences, ExperienceId) ==> |r.experiences| == |res.experiences| - 1)
  {
    RemoveKeepsUnique(res.experiences, ExperienceId, id);
    RemoveCount(res.experiences, ExperienceId, id);
    res.(experiences := Remove(res.experiences, ExperienceId, id))
  }

  /** Deleting an experience keeps the others in order, is idempotent and undoes an add. */
  lemma DeleteExperienceProperties(res: Resume, id: Id, d: ExperienceDraft, freshId: Id)
    requires freshId !in Ids(res.experiences, ExperienceId)
    ensures DeleteExperience(DeleteExperience(res, id), id) == DeleteExperience(res, id)
    ensures forall more: seq<Experience> {:trigger DeleteExperience(res.(experiences := res.experiences + more), id)} ::
      DeleteExperience(res.(experiences := res.experiences + more), id).experiences
        == DeleteExperience(res, id).experiences + Remove(more, ExperienceId, id)
    ensures DeleteExperience(AddExperience(res, d, freshId), freshId) == res
  {
    RemoveIdempotent(res.experiences, ExperienceId, id);
    forall more: seq<Experience> ensures
      DeleteExperience(res.(experiences := res.experiences + more), id).experiences
        == DeleteExperience(res, id).experiences + Remove(more, ExperienceId, id)
    {
      RemoveAppend(res.experiences, more, ExperienceId, id);
    }
    AppendThenRemove(res.experiences, ExperienceWithId(d, freshId), ExperienceId);
  }

  // ---------------------------------------------------------------------------
  // Education

  function EducationWithId(d: EducationDraft, id: Id): (e: Education)
    ensures e.id == id
  {
    Education(id, d.institution, d.degree, d.field, d.graduationDate, d.gpa)
  }

  function EducationDraftOf(e: Education): EducationDraft {
    EducationDraft(e.institution, e.degree, e.field, e.graduationDate, e.gpa)
  }

  function MergeEducation(e: Education, p: EducationPatch): (r: Education)
    ensures r.id == e.id
    ensures p.institution.Some? ==> r.institution == p.institution.value
    ensures p.institution.None? ==> r.institution == e.institution
    ensures p.degree.Some? ==> r.degree == p.degree.value
    ensures p.degree.None? ==> r.degree == e.degree
    ensures p.field.Some? ==> r.field == p.field.value
    ensures p.field.None? ==> r.field == e.field
    ensures p.graduationDate.Some? ==> r.graduationDate == p.graduationDate.value
    ensures p.graduationDate.None? ==> r.graduationDate == e.graduationDate
    ensures p.gpa.Some? ==> r.gpa == p.gpa.value
    ensures p.gpa.None? ==> r.gpa == e.gpa
  {
    Education(e.id,
      Pick(p.institution, e.institution),
      Pick(p.degree, e.degree),
      Pick(p.field, e.field),
      Pick(p.graduationDate, e.graduationDate),
      Pick(p.gpa, e.gpa))
  }

  function EducationMerger(p: EducationPatch): Education -> Education {
    (e: Education) => MergeEducation(e, p)
  }

  function AddEducation(res: Resume, d: EducationDraft, freshId: Id): (r: Resume)
    requires freshId !in Ids(res.education, EducationId)
    ensures r.personalInfo == res.personalInfo && r.experiences == res.experiences && r.skills == res.skills
    ensures |r.education| == |res.education| + 1 && r.education[..|res.education|] == res.education
    ensures r.education[|res.education|].id == freshId
    ensures EducationDraftOf(r.education[|res.education|]) == d
    ensures Valid(res) ==> Valid(r)
  {
    var e := EducationWithId(d, freshId);
    AppendFreshKeepsUnique(res.education, e, EducationId);
    assert (res.education + [e])[..|res.education|] == res.education;
    res.(education := res.education + [e])
  }

  function UpdateEducation(res: Resume, id: Id, p: EducationPatch): (r: Resume)
    ensures r.personalInfo == res.personalInfo && r.experiences == res.experiences && r.skills == res.skills
    ensures |r.education| == |res.education|
    ensures forall i :: 0 <= i < |res.education| && res.education[i].id != id ==>
      r.education[i] == res.education[i]
    ensures forall i :: 0 <= i < |res.education| && res.education[i].id == id ==>
      r.education[i] == MergeEducation(res.education[i], p)
    ensures id !in Ids(res.education, EducationId) ==> r == res
    ensures Valid(res) ==> Valid(r)
  {
    UpdateKeepsIds(res.education, EducationId, id, EducationMerger(p));
    UpdateAbsentIsNoop(res.education, EducationId, id, EducationMerger(p));
    res.(education := UpdateWhere(res.education, EducationId, id, EducationMerger(p)))
  }

  function DeleteEducation(res: Resume, id: Id): (r: Resume)
    ensures r.personalInfo == res.personalInfo && r.experiences == res.experiences && r.skills == res.skills
    ensures id !in Ids(r.education, EducationId)
    ensures forall i :: 0 <= i < |r.education| ==> r.education[i] in res.education
    ensures forall i :: 0 <= i < |res.education| && res.education[i].id != id ==>
      res.education[i] in r.education
    ensures Valid(res) ==> Valid(r) && (id in Ids(res.education, EducationId) ==> |r.education| == |res.education| - 1)
  {
    RemoveKeepsUnique(res.education, EducationId, id);
    RemoveCount(res.education, EducationId, id);
    res.(education := Remove(res.education, EducationId, id))
  }

  /** Deleting an education entry keeps the others in order, is idempotent and undoes an add. */
  lemma DeleteEducationProperties(res: Resume, id: Id, d: EducationDraft, freshId: Id)
    requires freshId !in Ids(res.education, EducationId)
    ensures DeleteEducation(DeleteEducation(res, id), id) == DeleteEducation(res, id)
    ensures forall more: seq<Education> {:trigger DeleteEducation(res.(education := res.education + more), id)} ::
      DeleteEducation(res.(education := res.education + more), id).education
        == DeleteEducation(res, id).education + Remove(more, EducationId, id)
    ensures DeleteEducation(AddEducation(res, d, freshId), freshId) == res
  {
    RemoveIdempotent(res.education, EducationId, id);
    forall more: seq<Education> ensures
      DeleteEducation(res.(education := res.education + more), id).education
        == DeleteEducation(res, id).education + Remove(more, EducationId, id)
    {
      RemoveAppend(res.education, more, EducationId, id);
    }
    AppendThenRemove(res.education, EducationWithId(d, freshId), EducationId);
  }

  // ---------------------------------------------------------------------------
  // Skills

  function SkillWithId(d: SkillDraft, id: Id): (s: Skill)
    ensures s.id == id
  {
    Skill(id, d.name, d.category, d.proficiency)
  }

  function SkillDraftOf(s: Skill): SkillDraft {
    SkillDraft(s.name, s.category, s.proficiency)
  }

  function MergeSkill(s: Skill, p: SkillPatch): (r: Skill)
    ensures r.id == s.id
    ensures p.name.Some? ==> r.name == p.name.value
    ensures p.name.None? ==> r.name == s.name
    ensures p.category.Some? ==> r.category == p.category.value
    ensures p.category.None? ==> r.category == s.category
    ensures p.proficiency.Some? ==> r.proficiency == p.proficiency.value
    ensures p.proficiency.None? ==> r.proficiency == s.proficiency
  {
    Skill(s.id, Pick(p.name, s.name), Pick(p.category, s.category), Pick(p.proficiency, s.proficiency))
  }

  function SkillMerger(p: SkillPatch): Skill -> Skill {
    (s: Skill) => MergeSkill(s, p)
  }

  function AddSkill(res: Resume, d: SkillDraft, freshId: Id): (r: Resume)
    requires freshId !in Ids(res.skills, SkillId)
    ensures r.personalInfo == res.personalInfo && r.experiences == res.experiences && r.education == res.education
    ensures |r.skills| == |res.skills| + 1 && r.skills[..|res.skills|] == res.skills
    ensures r.skills[|res.skills|].id == freshId
    ensures SkillDraftOf(r.skills[|res.skills|]) == d
    ensures Valid(res) ==> Valid(r)
  {
    var s := SkillWithId(d, freshId);
    AppendFreshKeepsUnique(res.skills, s, SkillId);
    assert (res.skills + [s])[..|res.skills|] == res.skills;
    res.(skills := res.skills + [s])
  }

  function UpdateSkill(res: Resume, id: Id, p: SkillPatch): (r: Resume)
    ensures r.personalInfo == res.personalInfo && r.experiences == res.experiences && r.education == res.education
    ensures |r.skills| == |res.skills|
    ensures forall i :: 0 <= i < |res.skills| && res.skills[i].id != id ==> r.skills[i] == res.skills[i]
    ensures forall i :: 0 <= i < |res.skills| && res.skills[i].id == id ==> r.skills[i] == MergeSkill(res.skills[i], p)
    ensures id !in Ids(res.skills, SkillId) ==> r == res
    ensures Valid(res) ==> Valid(r)
  {
    UpdateKeepsIds(res.skills, SkillId, id, SkillMerger(p));
    UpdateAbsentIsNoop(res.skills, SkillId, id, SkillMerger(p));
    res.(skills := UpdateWhere(res.skills, SkillId, id, SkillMerger(p)))
  }

  function DeleteSkill(res: Resume, id: Id): (r: Resume)
    ensures r.personalInfo == res.personalInfo && r.experiences == res.experiences && r.education == res.education
    ensures id !in Ids(r.skills, SkillId)
    ensures forall i :: 0 <= i < |r.skills| ==> r.skills[i] in res.skills
    ensures forall i :: 0 <= i < |res.skills| && res.skills[i].id != id ==> res.skills[i] in r.skills
    ensures Valid(res) ==> Valid(r) && (id in Ids(res.skills, SkillId) ==> |r.skills| == |res.skills| - 1)
  {
    RemoveKeepsUnique(res.skills, SkillId, id);
    RemoveCount(res.skills, SkillId, id);
    res.(skills := Remove(res.skills, SkillId, id))
  }

  /** Deleting a skill keeps the others in order, is idempotent and undoes an add. */
  lemma DeleteSkillProperties(res: Resume, id: Id, d: SkillDraft, freshId: Id)
    requires freshId !in Ids(res.skills, SkillId)
    ensures DeleteSkill(DeleteSkill(res, id), id) == DeleteSkill(res, id)
    ensures forall more: seq<Skill> {:trigger DeleteSkill(res.(skills := res.skills + more), id)} ::
      DeleteSkill(res.(skills := res.skills + more), id).skills
        == DeleteSkill(res, id).skills + Remove(more, SkillId, id)
    ensures DeleteSkill(AddSkill(res, d, freshId), freshId) == res
  {
    RemoveIdempotent(res.skills, SkillId, id);
    forall more: seq<Skill> ensures
      DeleteSkill(res.(skills := res.skills + more), id).skills
        == DeleteSkill(res, id).skills + Remove(more, SkillId, id)
    {
      RemoveAppend(res.skills, more, SkillId, id);
    }
    AppendThenRemove(res.skills, SkillWithId(d, freshId), SkillId);
  }

  /** `skill => skill.category === c`. */
  function InCategory(c: SkillCategory): Skill -> bool {
    (x: Skill) => x.category == c
  }

  /** `skills.filter(skill => skill.category === c)`: the skills of one category,
      in list order. */
  function OfCategory(skills: seq<Skill>, c: SkillCategory): (r: seq<Skill>)
    ensures |r| <= |skills|
    ensures forall i :: 0 <= i < |r| ==> r[i].category == c && r[i] in skills
    ensures forall i :: 0 <= i < |skills| && skills[i].category == c ==> skills[i] in r
  {
    Filter(skills, InCategory(c))
  }

  /** The selection is empty exactly when no skill has the category. */
  lemma {:induction false} OfCategoryEmpty(skills: seq<Skill>, c: SkillCategory)
    ensures OfCategory(skills, c) == [] <==> forall i :: 0 <= i < |skills| ==> skills[i].category != c
  {
    if OfCategory(skills, c) != [] {
      var x := OfCategory(skills, c)[0];
      var i :| 0 <= i < |skills| && skills[i] == x;
    }
  }
}
