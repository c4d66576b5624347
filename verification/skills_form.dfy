/** The skills form: validation of the raw select values, the always-append
    submit, and the grouping of the skill list by category for display. */
module SkillsForm {

  import opened Wrappers
  import opened Keyed
  import opened ResumeStore
  import opened Seqs

  /** The form's raw values: the selects hand over strings, which the schema
      checks against the two enumerations. */
  datatype SkillFormData = SkillFormData(name: string, category: string, proficiency: Option<string>)

  const DefaultForm := SkillFormData("", "technical", Some("intermediate"))

  function ParseCategory(s: string): (r: Option<SkillCategory>)
    ensures r.None? ==> forall c: SkillCategory :: CategoryName(c) != s
    ensures r.Some? ==> CategoryName(r.value) == s
  {
    if s == "technical" then Some(Technical)
    else if s == "soft" then Some(Soft)
    else if s == "language" then Some(Language)
    else None
  }

  function ParseProficiency(s: string): (r: Option<Proficiency>)
    ensures r.None? ==> forall p: Proficiency :: ProficiencyName(p) != s
    ensures r.Some? ==> ProficiencyName(r.value) == s
  {
    if s == "beginner" then Some(Beginner)
    else if s == "intermediate" then Some(Intermediate)
    else if s == "advanced" then Some(Advanced)
    else if s == "expert" then Some(Expert)
    else None
  }

  lemma ParseNames(c: SkillCategory, p: Proficiency)
    ensures ParseCategory(CategoryName(c)) == Some(c)
    ensures ParseProficiency(ProficiencyName(p)) == Some(p)
  {
  }

  /** `skillSchema`: a non-empty name, a known category and, when given, a known
      proficiency. */
  predicate SchemaValid(d: SkillFormData) {
    && |d.name| >= 1
    && ParseCategory(d.category).Some?
    && (d.proficiency.Some? ==> ParseProficiency(d.proficiency.value).Some?)
  }

  function Draft(d: SkillFormData): (r: SkillDraft)
    requires SchemaValid(d)
    ensures r.name == d.name && CategoryName(r.category) == d.category
    ensures r.proficiency.Some? <==> d.proficiency.Some?
    ensures r.proficiency.Some? ==> ProficiencyName(r.proficiency.value) == d.proficiency.value
  {
    var prof := if d.proficiency.Some? then Some(ParseProficiency(d.proficiency.value).value) else None;
    SkillDraft(d.name, ParseCategory(d.category).value, prof)
  }

  /** `onSubmit`: there is no editing here, so a valid form always appends one skill
      under a fresh identifier; an invalid one changes nothing. */
  function OnSubmit(res: Resume, d: SkillFormData, freshId: Id): (r: Resume)
    requires freshId !in Ids(res.skills, SkillId)
    ensures !SchemaValid(d) ==> r == res
    ensures SchemaValid(d) ==>
      && |r.skills| == |res.skills| + 1
      && r.skills[..|res.skills|] == res.skills
      && r.skills[|res.skills|].id == freshId
      && SkillDraftOf(r.skills[|res.skills|]) == Draft(d)
    ensures r.personalInfo == res.personalInfo && r.experiences == res.experiences && r.education == res.education
    ensures Valid(res) ==> Valid(r)
  {
    if SchemaValid(d) then AddSkill(res, Draft(d), freshId) else res
  }

  /** The form's defaults need only a name to pass, and then add an intermediate
      technical skill. */
  lemma DefaultsNeedOnlyAName(name: string)
    requires |name| >= 1
    ensures SchemaValid(DefaultForm.(name := name))
    ensures Draft(DefaultForm.(name := name)) == SkillDraft(name, Technical, Some(Intermediate))
  {
  }

  /** `handleDelete`. */
  function HandleDelete(res: Resume, id: Id): (r: Resume)
    ensures id !in Ids(r.skills, SkillId)
    ensures forall i :: 0 <= i < |res.skills| && res.skills[i].id != id ==> res.skills[i] in r.skills
    ensures r.personalInfo == res.personalInfo && r.experiences == res.experiences && r.education == res.education
  {
    DeleteSkill(res, id)
  }

  // ---------------------------------------------------------------------------
  // Grouping: `resume.skills.reduce(...)` into a record keyed by category, read
  // back with `Object.entries`, i.e. in the order the keys were first inserted.

  datatype Group = Group(category: SkillCategory, skills: seq<Skill>)

  function Keys(gs: seq<Group>): (r: seq<SkillCategory>)
    ensures |r| == |gs| && forall i :: 0 <= i < |gs| ==> r[i] == gs[i].category
  {
    Map(gs, (g: Group) => g.category)
  }

  function Categories(skills: seq<Skill>): (r: seq<SkillCategory>)
    ensures |r| == |skills| && forall i :: 0 <= i < |skills| ==> r[i] == skills[i].category
  {
    Map(skills, (x: Skill) => x.category)
  }

  /** The distinct elements of `cs`, each at the place it first occurs. */
  function FirstOccurrences(cs: seq<SkillCategory>): (r: seq<SkillCategory>)
    ensures forall c :: c in r <==> c in cs
    decreases |cs|
  {
    if |cs| == 0 then []
    else
      var init := cs[..|cs| - 1];
      var last := cs[|cs| - 1];
      assert cs == init + [last];
      var r := FirstOccurrences(init);
      if last in r then r else r + [last]
  }

  function SumSizes(gs: seq<Group>): nat
    decreases |gs|
  {
    if |gs| == 0 then 0 else |gs[0].skills| + SumSizes(gs[1..])
  }

  /** The position of the group for `c`, or -1 when there is none. */
  function FindGroup(gs: seq<Group>, c: SkillCategory): (k: int)
    ensures -1 <= k < |gs|
    ensures k >= 0 ==> gs[k].category == c
    ensures k == -1 <==> c !in Keys(gs)
    decreases |gs|
  {
    if |gs| == 0 then -1
    else if gs[|gs| - 1].category == c then |gs| - 1
    else
      var k := FindGroup(gs[..|gs| - 1], c);
      assert Keys(gs) == Keys(gs[..|gs| - 1]) + [gs[|gs| - 1].category];
      k
  }

  /** One reduction step: push the skill onto its category's group, creating the
      group at the end when the category has none yet. */
  function AddToGroups(gs: seq<Group>, x: Skill): seq<Group> {
    var k := FindGroup(gs, x.category);
    if k >= 0 then gs[k := Group(x.category, gs[k].skills + [x])]
    else gs + [Group(x.category, [x])]
  }

  /** The grouping is exactly the category selection of the skill list: one
      non-empty group per category that occurs, in order of first occurrence,
      each holding that category's skills in list order. */
  ghost predicate GroupsOf(gs: seq<Group>, skills: seq<Skill>) {
    && DistinctKeys(gs)
    && Selections(gs, skills)
    && Keys(gs) == FirstOccurrences(Categories(skills))
    && SumSizes(gs) == |skills|
  }

  ghost predicate DistinctKeys(gs: seq<Group>) {
    forall i, j :: 0 <= i < j < |gs| ==> gs[i].category != gs[j].category
  }

  ghost predicate Selections(gs: seq<Group>, skills: seq<Skill>) {
    forall i :: 0 <= i < |gs| ==> gs[i].skills == OfCategory(skills, gs[i].category) && gs[i].skills != []
  }

  lemma {:induction false} SumSizesAppend(gs: seq<Group>, g: Group)
    ensures SumSizes(gs + [g]) == SumSizes(gs) + |g.skills|
    decreases |gs|
  {
    if |gs| == 0 {
      assert gs + [g] == [g];
    } else {
      assert (gs + [g])[1..] == gs[1..] + [g];
      SumSizesAppend(gs[1..], g);
    }
  }

  lemma {:induction false} SumSizesGrow(gs: seq<Group>, k: nat, x: Skill)
    requires k < |gs|
    ensures SumSizes(gs[k := Group(gs[k].category, gs[k].skills + [x])]) == SumSizes(gs) + 1
    decreases |gs|
  {
    var gs' := gs[k := Group(gs[k].category, gs[k].skills + [x])];
    if k > 0 {
      assert gs'[1..] == gs[1..][k - 1 := Group(gs[k].category, gs[k].skills + [x])];
      SumSizesGrow(gs[1..], k - 1, x);
    } else {
      assert gs'[1..] == gs[1..];
    }
  }

  /** Appending a skill extends its own category's selection and no other. */
  lemma OfCategorySnoc(skills: seq<Skill>, x: Skill, c: SkillCategory)
    ensures OfCategory(skills + [x], c) == OfCategory(skills, c) + (if x.category == c then [x] else [])
  {
    FilterAppend(skills, [x], InCategory(c));
    assert [x][1..] == [];
  }

  lemma CategoriesSnoc(skills: seq<Skill>, x: Skill)
    ensures OfCategory(skills + [x], x.category) == OfCategory(skills, x.category) + [x]
    ensures forall c :: c != x.category ==> OfCategory(skills + [x], c) == OfCategory(skills, c)
    ensures FirstOccurrences(Categories(skills + [x]))
         == if x.category in Categories(skills) then FirstOccurrences(Categories(skills))
            else FirstOccurrences(Categories(skills)) + [x.category]
  {
    OfCategorySnoc(skills, x, x.category);
    forall c | c != x.category ensures OfCategory(skills + [x], c) == OfCategory(skills, c) {
      OfCategorySnoc(skills, x, c);
    }
    FirstOccurrencesSnoc(skills, x);
  }

  lemma FirstOccurrencesSnoc(skills: seq<Skill>, x: Skill)
    ensures FirstOccurrences(Categories(skills + [x]))
         == if x.category in Categories(skills) then FirstOccurrences(Categories(skills))
            else FirstOccurrences(Categories(skills)) + [x.category]
  {
    var cs := Categories(skills + [x]);
    assert cs == Categories(skills) + [x.category];
    assert cs[..|cs| - 1] == Categories(skills);
  }

  /** The step when the category already has a group: that group grows by one. */
  lemma AddToExistingGroup(gs: seq<Group>, skills: seq<Skill>, x: Skill)
    requires GroupsOf(gs, skills)
    requires FindGroup(gs, x.category) >= 0
    ensures GroupsOf(AddToGroups(gs, x), skills + [x])
  {
    var c := x.category;
    var k := FindGroup(gs, c);
    var r := AddToGroups(gs, x);
    assert r == gs[k := Group(c, gs[k].skills + [x])];
    CategoriesSnoc(skills, x);
    SumSizesGrow(gs, k, x);
    KeysOfReplace(gs, k, Group(c, gs[k].skills + [x]));
    assert c in Categories(skills) by {
      assert Keys(gs)[k] == c;
    }
    ExistingGroupSelections(gs, skills, x, k);
    assert DistinctKeys(r) by {
      forall i, j | 0 <= i < j < |r| ensures r[i].category != r[j].category {
        assert Keys(r)[i] == Keys(gs)[i] && Keys(r)[j] == Keys(gs)[j];
      }
    }
  }

  lemma KeysOfReplace(gs: seq<Group>, k: nat, g: Group)
    requires k < |gs| && g.category == gs[k].category
    ensures Keys(gs[k := g]) == Keys(gs)
  {
    assert forall i :: 0 <= i < |gs| ==> Keys(gs[k := g])[i] == Keys(gs)[i];
  }

  lemma ExistingGroupSelections(gs: seq<Group>, skills: seq<Skill>, x: Skill, k: nat)
    requires DistinctKeys(gs) && Selections(gs, skills)
    requires k < |gs| && gs[k].category == x.category
    ensures Selections(gs[k := Group(x.category, gs[k].skills + [x])], skills + [x])
  {
    var c := x.category;
    var r := gs[k := Group(c, gs[k].skills + [x])];
    CategoriesSnoc(skills, x);
    forall i | 0 <= i < |r| ensures r[i].skills == OfCategory(skills + [x], r[i].category) && r[i].skills != [] {
      if i != k {
        assert r[i] == gs[i];
        assert gs[i].category != c;
      }
    }
  }

  /** The step when the category is new: a singleton group is added at the end. */
  lemma AddNewGroup(gs: seq<Group>, skills: seq<Skill>, x: Skill)
    requires GroupsOf(gs, skills)
    requires FindGroup(gs, x.category) == -1
    ensures GroupsOf(AddToGroups(gs, x), skills + [x])
  {
    var g := Group(x.category, [x]);
    assert AddToGroups(gs, x) == gs + [g];
    SumSizesAppend(gs, g);
    NewGroupKeys(gs, skills, x);
    NewGroupDistinct(gs, g);
    NewGroupSelections(gs, skills, x);
  }

  lemma NewGroupKeys(gs: seq<Group>, skills: seq<Skill>, x: Skill)
    requires Keys(gs) == FirstOccurrences(Categories(skills))
    requires x.category !in Keys(gs)
    ensures Keys(gs + [Group(x.category, [x])]) == FirstOccurrences(Categories(skills + [x]))
  {
    CategoriesSnoc(skills, x);
    assert Keys(gs + [Group(x.category, [x])]) == Keys(gs) + [x.category];
  }

  lemma NewGroupDistinct(gs: seq<Group>, g: Group)
    requires DistinctKeys(gs)
    requires g.category !in Keys(gs)
    ensures DistinctKeys(gs + [g])
  {
    var r := gs + [g];
    forall i, j | 0 <= i < j < |r| ensures r[i].category != r[j].category {
      if j == |gs| {
        assert Keys(gs)[i] == gs[i].category;
      }
    }
  }

  lemma NewGroupSelections(gs: seq<Group>, skills: seq<Skill>, x: Skill)
    requires Selections(gs, skills)
    requires Keys(gs) == FirstOccurrences(Categories(skills))
    requires x.category !in Keys(gs)
    ensures Selections(gs + [Group(x.category, [x])], skills + [x])
  {
    var c := x.category;
    var r := gs + [Group(c, [x])];
    OfCategoryAbsent(skills, c);
    OfCategorySnoc(skills, x, c);
    forall i | 0 <= i < |r| ensures r[i].skills == OfCategory(skills + [x], r[i].category) && r[i].skills != [] {
      if i < |gs| {
        assert r[i] == gs[i];
        assert Keys(gs)[i] == gs[i].category;
        OfCategorySnoc(skills, x, gs[i].category);
      }
    }
  }

  /** A category no skill has selects nothing. */
  lemma OfCategoryAbsent(skills: seq<Skill>, c: SkillCategory)
    requires c !in Categories(skills)
    ensures OfCategory(skills, c) == []
  {
    OfCategoryEmpty(skills, c);
    forall i | 0 <= i < |skills| ensures skills[i].category != c {
      assert Categories(skills)[i] == skills[i].category;
    }
  }

  lemma AddToGroupsStep(gs: seq<Group>, skills: seq<Skill>, x: Skill)
    requires GroupsOf(gs, skills)
    ensures GroupsOf(AddToGroups(gs, x), skills + [x])
  {
    if FindGroup(gs, x.category) >= 0 {
      AddToExistingGroup(gs, skills, x);
    } else {
      AddNewGroup(gs, skills, x);
    }
  }

  /** `groupedSkills`. */
  function GroupedSkills(skills: seq<Skill>): (gs: seq<Group>)
    ensures GroupsOf(gs, skills)
    decreases |skills|
  {
    if |skills| == 0 then []
    else
      var init := skills[..|skills| - 1];
      var last := skills[|skills| - 1];
      assert skills == init + [last];
      var gs := GroupedSkills(init);
      AddToGroupsStep(gs, init, last);
      AddToGroups(gs, last)
  }

  /** What the skills card shows: every skill in exactly one group, the one of its
      category; a category gets a group exactly when some skill has it; the group
      sizes add up to the number of skills. */
  lemma GroupedSkillsProperties(skills: seq<Skill>)
    ensures var gs := GroupedSkills(skills);
      && (forall c :: c in Keys(gs) <==> exists i :: 0 <= i < |skills| && skills[i].category == c)
      && (forall i, j :: 0 <= i < |skills| && 0 <= j < |gs| ==>
            (skills[i] in gs[j].skills <==> skills[i].category == gs[j].category))
      && SumSizes(gs) == |skills|
  {
    var gs := GroupedSkills(skills);
    forall c ensures c in Keys(gs) <==> exists i :: 0 <= i < |skills| && skills[i].category == c {
      if c in Categories(skills) {
        var i :| 0 <= i < |skills| && Categories(skills)[i] == c;
      }
    }
  }
}
