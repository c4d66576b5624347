/** The resume preview: month formatting of stored dates, the empty-resume
    placeholder, and the document's sections derived from the resume. The
    document is modelled as the text it shows, not as markup. */
module ResumePreview {

  import opened Wrappers
  import opened Text
  import opened ResumeStore

  // ---------------------------------------------------------------------------
  // Dates: `formatDate`

  const MonthNames: seq<string> := ["January", "February", "March", "April", "May", "June",
    "July", "August", "September", "October", "November", "December"]

  const InvalidDate := "Invalid Date"

  /** A calendar month: a year and a month index 0..11. */
  datatype YearMonth = YearMonth(year: int, month: int)

  /** `new Date(year, monthIndex)` down to the month: a year from 0 to 99 means
      1900 plus that year, and a month index outside 0..11 carries into the year. */
  function MakeDate(year: nat, monthIndex: int): (r: YearMonth)
    ensures 0 <= r.month < 12
    ensures r.year * 12 + r.month == (if year <= 99 then 1900 + year else year) * 12 + monthIndex
    ensures monthIndex >= -1 ==> r.year >= 99
  {
    var y := if year <= 99 then 1900 + year else year;
    YearMonth(y + monthIndex / 12, monthIndex % 12)
  }

  /** A month index within 0..11 does not carry. */
  lemma MakeDateInRange(year: nat, monthIndex: int)
    requires 0 <= monthIndex < 12
    ensures MakeDate(year, monthIndex) == YearMonth(if year <= 99 then 1900 + year else year, monthIndex)
  {
  }

  /** `toLocaleDateString('en-US', { year: 'numeric', month: 'long' })`. */
  function MonthYear(d: YearMonth): (r: string)
    requires 0 <= d.month < 12 && d.year >= 0
    ensures |r| > 0 && r[0] != 'I'
  {
    MonthNames[d.month] + " " + NatToString(d.year)
  }

  /** The text before the first `-`, and the one between the first and second. */
  function YearPart(s: string): string {
    Split(s, '-')[0]
  }

  function MonthPart(s: string): Option<string> {
    var parts := Split(s, '-');
    if |parts| >= 2 then Some(parts[1]) else None
  }

  /** Both parts read as numbers, in which case the date is valid. */
  predicate Readable(s: string) {
    ParseInt(YearPart(s)).Some? && MonthPart(s).Some? && ParseInt(MonthPart(s).value).Some?
  }

  /** The month number read from the part after the first dash, if any. */
  function MonthNumber(s: string): Option<nat> {
    if MonthPart(s).Some? then ParseInt(MonthPart(s).value) else None
  }

  /** `new Date(...).toLocaleDateString(...)` on the two numbers read, where `None`
      stands for `NaN`. */
  function ShowParts(y: Option<nat>, m: Option<nat>): (r: string)
    ensures r == InvalidDate <==> y.None? || m.None?
    ensures |r| > 0
  {
    if y.None? || m.None? then InvalidDate
    else MonthYear(MakeDate(y.value, m.value as int - 1))
  }

  /** `formatDate`: the empty string stays empty; a string whose year or month does
      not read as a number gives "Invalid Date"; anything else is a month and year. */
  function FormatDate(s: string): (r: string)
    ensures r == "" <==> s == ""
    ensures r == InvalidDate <==> s != "" && !Readable(s)
  {
    if s == "" then "" else ShowParts(ParseInt(YearPart(s)), MonthNumber(s))
  }

  /** The month field's format: a month 1..12 written with two digits. */
  function TwoDigits(m: nat): (r: string)
    requires m < 100
    ensures |r| == 2 && forall k :: 0 <= k < 2 ==> IsDigit(r[k])
    ensures DigitsValue(r) == m
  {
    var r := [DigitChar(m / 10), DigitChar(m % 10)];
    assert r[..1] == [DigitChar(m / 10)] && r[..1][..0] == [];
    assert DigitsValue(r[..1]) == m / 10;
    r
  }

  lemma NumeralHasNoDash(ds: string)
    requires forall k :: 0 <= k < |ds| ==> IsDigit(ds[k])
    ensures '-' !in ds
  {
  }

  /** A numeral followed by a dash and another numeral splits into the two. */
  lemma PartsOfDigits(ys: string, ms: string)
    requires forall k :: 0 <= k < |ys| ==> IsDigit(ys[k])
    requires forall k :: 0 <= k < |ms| ==> IsDigit(ms[k])
    ensures YearPart(ys + "-" + ms) == ys && MonthPart(ys + "-" + ms) == Some(ms)
  {
    NumeralHasNoDash(ys);
    NumeralHasNoDash(ms);
    SplitAfter(ys, ms, '-');
    SplitSingle(ms, '-');
  }

  lemma ParseDigits(ds: string)
    requires |ds| > 0 && forall k :: 0 <= k < |ds| ==> IsDigit(ds[k])
    ensures ParseInt(ds) == Some(DigitsValue(ds))
  {
    LeadingDigitsOfDigits(ds);
  }

  /** A year and a month written as digits and joined by a dash are read back as
      those two numbers. */
  lemma ReadParts(ys: string, ms: string, s: string)
    requires s == ys + "-" + ms
    requires |ys| > 0 && forall k :: 0 <= k < |ys| ==> IsDigit(ys[k])
    requires |ms| > 0 && forall k :: 0 <= k < |ms| ==> IsDigit(ms[k])
    ensures ParseInt(YearPart(s)) == Some(DigitsValue(ys))
    ensures MonthNumber(s) == Some(DigitsValue(ms))
  {
    PartsOfDigits(ys, ms);
    ParseDigits(ys);
    ParseDigits(ms);
  }

  /** Once both parts read as numbers, the date shown is the constructor's month. */
  lemma FormatReadParts(s: string, y: nat, m: nat)
    requires ParseInt(YearPart(s)) == Some(y) && MonthNumber(s) == Some(m)
    ensures FormatDate(s) == MonthYear(MakeDate(y, m - 1))
  {
    assert s != "";
    assert FormatDate(s) == ShowParts(Some(y), Some(m));
  }

  /** A numeral, a dash and a numeral show as the month the constructor builds
      from the two numbers. */
  lemma FormatNumerals(y: nat, ms: string, m: nat)
    requires |ms| > 0 && (forall k :: 0 <= k < |ms| ==> IsDigit(ms[k])) && DigitsValue(ms) == m
    ensures FormatDate(NatToString(y) + "-" + ms) == MonthYear(MakeDate(y, m - 1))
  {
    var s := NatToString(y) + "-" + ms;
    DigitsValueOfNatToString(y);
    ReadParts(NatToString(y), ms, s);
    FormatReadParts(s, y, m);
  }

  /** The month input's own format "YYYY-MM" with a year of at least 100 shows as
      that month's name and that year. */
  lemma FormatMonthInput(y: nat, m: nat)
    requires y >= 100 && 1 <= m <= 12
    ensures FormatDate(NatToString(y) + "-" + TwoDigits(m)) == MonthNames[m - 1] + " " + NatToString(y)
  {
    FormatNumerals(y, TwoDigits(m), m);
    MakeDateInRange(y, m - 1);
  }

  /** A year from 0 to 99 is shown as a year of the twentieth century. */
  lemma FormatTwoDigitYear(y: nat, m: nat)
    requires y <= 99 && 1 <= m <= 12
    ensures FormatDate(NatToString(y) + "-" + TwoDigits(m)) == MonthNames[m - 1] + " " + NatToString(1900 + y)
  {
    FormatNumerals(y, TwoDigits(m), m);
    MakeDateInRange(y, m - 1);
  }

  /** Month 13 is January of the next year and month 00 is December of the year
      before: the constructor carries instead of rejecting. */
  lemma FormatMonthCarries(y: nat)
    requires y >= 101
    ensures FormatDate(NatToString(y) + "-" + TwoDigits(13)) == MonthYear(YearMonth(y + 1, 0))
    ensures FormatDate(NatToString(y) + "-" + TwoDigits(0)) == MonthYear(YearMonth(y - 1, 11))
  {
    FormatNumerals(y, TwoDigits(13), 13);
    assert MakeDate(y, 12) == YearMonth(y + 1, 0);
    FormatNumerals(y, TwoDigits(0), 0);
    assert MakeDate(y, -1) == YearMonth(y - 1, 11);
  }

  /** A year alone, or a month that is not a number, is an invalid date. */
  lemma FormatDateWithoutMonth(ys: string, rest: string)
    requires |ys| > 0 && forall k :: 0 <= k < |ys| ==> IsDigit(ys[k])
    requires |rest| > 0 && !IsDigit(rest[0]) && '-' !in rest
    ensures FormatDate(ys) == InvalidDate
    ensures FormatDate(ys + "-" + rest) == InvalidDate
  {
    NumeralHasNoDash(ys);
    SplitSingle(ys, '-');
    assert MonthPart(ys) == None;
    SplitAfter(ys, rest, '-');
    SplitSingle(rest, '-');
    assert MonthPart(ys + "-" + rest) == Some(rest);
  }

  lemma FormatDateExample()
    ensures FormatDate("2020-01") == "January 2020"
  {
    assert NatToString(2020) == "2020" by {
      assert NatToString(2) == "2";
      assert NatToString(20) == "20";
      assert NatToString(202) == "202";
    }
    assert TwoDigits(1) == "01" by {
      assert DigitChar(0) == '0' && DigitChar(1) == '1';
    }
    FormatMonthInput(2020, 1);
    assert NatToString(2020) + "-" + TwoDigits(1) == "2020-01";
    assert MonthNames[0] + " " + "2020" == "January 2020";
  }

  // ---------------------------------------------------------------------------
  // The document

  datatype ExperienceView = ExperienceView(
    position: string,
    company: string,
    dates: string,
    location: Option<string>,
    bullets: seq<string>)

  datatype EducationView = EducationView(
    heading: string,
    institution: string,
    gpa: Option<string>,
    date: string)

  datatype SkillLine = SkillLine(caption: string, items: string)

  /** The header (name and two rows of contact details), then the four sections;
      `None` is a section that is not rendered. */
  datatype Document = Document(
    name: string,
    contactRow: seq<string>,
    linkRow: seq<string>,
    summary: Option<string>,
    experiences: Option<seq<ExperienceView>>,
    education: Option<seq<EducationView>>,
    skills: Option<seq<SkillLine>>)

  datatype Preview = Placeholder | Shown(doc: Document)

  /** `{value && ...}` on an optional text field. */
  predicate Present(o: Option<string>) {
    o.Some? && Truthy(o.value)
  }

  function ShownIfPresent(o: Option<string>): (r: Option<string>)
    ensures r.Some? <==> Present(o)
    ensures r.Some? ==> r == o
  {
    if Present(o) then o else None
  }

  /** `isEmpty`: no name and no entries in any list. */
  predicate IsEmpty(res: Resume) {
    !Truthy(res.personalInfo.name) && |res.experiences| == 0 && |res.education| == 0 && |res.skills| == 0
  }

  /** The download file name: the person's name, or "resume" when there is none. */
  function PdfFileName(res: Resume): (r: string)
    ensures |r| >= 4 && r[|r| - 4..] == ".pdf"
    ensures Truthy(res.personalInfo.name) ==> r[..|r| - 4] == res.personalInfo.name
    ensures !Truthy(res.personalInfo.name) ==> r == "resume.pdf"
  {
    (if Truthy(res.personalInfo.name) then res.personalInfo.name else "resume") + ".pdf"
  }

  function ViewExperience(e: Experience): (v: ExperienceView)
    ensures v.position == e.position && v.company == e.company && v.bullets == e.description
    ensures v.dates == FormatDate(e.startDate) + " - " + (if e.isCurrentRole then "Present" else FormatDate(e.endDate))
    ensures v.location.Some? <==> Present(e.location)
  {
    ExperienceView(e.position, e.company,
      FormatDate(e.startDate) + " - " + (if e.isCurrentRole then "Present" else FormatDate(e.endDate)),
      ShownIfPresent(e.location), e.description)
  }

  /** A current role ends "Present", whatever end date is stored. */
  lemma CurrentRoleShowsPresent(e: Experience, otherEnd: string)
    requires e.isCurrentRole
    ensures ViewExperience(e).dates == ViewExperience(e.(endDate := otherEnd)).dates
    ensures ViewExperience(e).dates == FormatDate(e.startDate) + " - Present"
  {
    var start := FormatDate(e.startDate);
    assert ViewExperience(e).dates == start + " - " + "Present";
    assert ViewExperience(e.(endDate := otherEnd)).dates == start + " - " + "Present";
    assert start + " - " + "Present" == start + (" - " + "Present");
    assert " - " + "Present" == " - Present";
  }

  function ViewEducation(e: Education): (v: EducationView)
    ensures v.heading == e.degree + " in " + e.field && v.institution == e.institution
    ensures v.gpa.Some? <==> Present(e.gpa)
    ensures v.date == FormatDate(e.graduationDate)
  {
    EducationView(e.degree + " in " + e.field, e.institution, ShownIfPresent(e.gpa), FormatDate(e.graduationDate))
  }

  // ---------------------------------------------------------------------------
  // Skills: one line per category, in a fixed order

  const CategoryOrder: seq<SkillCategory> := [Technical, Soft, Language]

  function Label(c: SkillCategory): string {
    match c
    case Technical => "Technical"
    case Soft => "Soft Skills"
    case Language => "Languages"
  }

  /** One skill: its name, with the proficiency in parentheses when there is one. */
  function Item(s: Skill): string {
    s.name + (if s.proficiency.Some? then " (" + ProficiencyName(s.proficiency.value) + ")" else "")
  }

  function Items(ss: seq<Skill>): (r: seq<string>)
    ensures |r| == |ss| && forall i :: 0 <= i < |ss| ==> r[i] == Item(ss[i])
  {
    seq(|ss|, i requires 0 <= i < |ss| => Item(ss[i]))
  }

  /** The spans as the preview emits them: each item followed by ", " unless it is
      the last. */
  function Spans(ss: seq<Skill>): (r: seq<string>)
    ensures |r| == |ss|
  {
    seq(|ss|, i requires 0 <= i < |ss| => Item(ss[i]) + (if i < |ss| - 1 then ", " else ""))
  }

  /** The emitted spans read as the items joined by ", ": a separator between any
      two items and none after the last. */
  lemma {:induction false} SpansAreJoin(ss: seq<Skill>)
    ensures Concat(Spans(ss)) == Join(Items(ss), ", ")
    decreases |ss|
  {
    if |ss| > 1 {
      SpansAreJoin(ss[1..]);
      assert Spans(ss)[1..] == Spans(ss[1..]);
      assert Items(ss)[1..] == Items(ss[1..]);
    } else if |ss| == 1 {
      assert Spans(ss)[1..] == [];
    }
  }

  function SkillLineOf(skills: seq<Skill>, c: SkillCategory): SkillLine {
    SkillLine(Label(c), Concat(Spans(OfCategory(skills, c))))
  }

  /** The categories in the fixed order, skipping those without skills. */
  function LineCategories(skills: seq<Skill>): (r: seq<SkillCategory>)
    ensures forall c :: c in r <==> OfCategory(skills, c) != []
  {
    (if OfCategory(skills, Technical) != [] then [Technical] else [])
    + (if OfCategory(skills, Soft) != [] then [Soft] else [])
    + (if OfCategory(skills, Language) != [] then [Language] else [])
  }

  function SkillLines(skills: seq<Skill>): (r: seq<SkillLine>)
  {
    var cs := LineCategories(skills);
    seq(|cs|, i requires 0 <= i < |cs| => SkillLineOf(skills, cs[i]))
  }

  /** Every skill belongs to exactly one of the three categories, so the lines
      together list each skill once. */
  lemma {:induction false} CategorySizesSum(skills: seq<Skill>)
    ensures |OfCategory(skills, Technical)| + |OfCategory(skills, Soft)| + |OfCategory(skills, Language)| == |skills|
    decreases |skills|
  {
    if |skills| > 0 {
      CategorySizesSum(skills[1..]);
    }
  }

  /** A line is shown for a category exactly when some skill has it, and the lines
      follow the order technical, soft, language. */
  lemma SkillLinesProperties(skills: seq<Skill>)
    ensures forall c :: c in LineCategories(skills) <==>
      exists i :: 0 <= i < |skills| && skills[i].category == c
    ensures |skills| > 0 ==> |SkillLines(skills)| > 0
    ensures forall i, j :: 0 <= i < j < |LineCategories(skills)| ==>
      Rank(LineCategories(skills)[i]) < Rank(LineCategories(skills)[j])
  {
    forall c ensures c in LineCategories(skills) <==> exists i :: 0 <= i < |skills| && skills[i].category == c {
      assert c in CategoryOrder by {
        match c
        case Technical => assert CategoryOrder[0] == c;
        case Soft => assert CategoryOrder[1] == c;
        case Language => assert CategoryOrder[2] == c;
      }
      OfCategoryEmpty(skills, c);
    }
    if |skills| > 0 {
      assert skills[0].category in LineCategories(skills);
    }
    RanksIncrease(skills);
  }

  function Rank(c: SkillCategory): nat {
    match c
    case Technical => 0
    case Soft => 1
    case Language => 2
  }

  lemma RanksIncrease(skills: seq<Skill>)
    ensures var cs := LineCategories(skills);
      forall i, j :: 0 <= i < j < |cs| ==> Rank(cs[i]) < Rank(cs[j])
  {
  }

  // ---------------------------------------------------------------------------
  // The preview

  function RenderDocument(res: Resume): Document {
    var info := res.personalInfo;
    var exps := res.experiences;
    var edus := res.education;
    Document(
      info.name,
      Truthful([info.email, info.phone]),
      Truthful([info.location, info.linkedin.GetOr(""), info.portfolio.GetOr("")]),
      ShownIfPresent(info.summary),
      if |exps| > 0 then Some(seq(|exps|, i requires 0 <= i < |exps| => ViewExperience(exps[i]))) else None,
      if |edus| > 0 then Some(seq(|edus|, i requires 0 <= i < |edus| => ViewEducation(edus[i]))) else None,
      if |res.skills| > 0 then Some(SkillLines(res.skills)) else None)
  }

  /** What the preview card shows: the placeholder exactly when the resume is
      empty; otherwise a document whose sections appear exactly when there is
      something to put in them, with one entry per stored entry, in store order. */
  function Render(res: Resume): (r: Preview)
    ensures r.Placeholder? <==> IsEmpty(res)
    ensures r.Shown? ==>
      && r.doc.name == res.personalInfo.name
      && (r.doc.summary.Some? <==> Present(res.personalInfo.summary))
      && (r.doc.experiences.Some? <==> |res.experiences| > 0)
      && (r.doc.education.Some? <==> |res.education| > 0)
      && (r.doc.skills.Some? <==> |res.skills| > 0)
    ensures r.Shown? && r.doc.experiences.Some? ==>
      && |r.doc.experiences.value| == |res.experiences|
      && forall i :: 0 <= i < |res.experiences| ==>
           r.doc.experiences.value[i].bullets == res.experiences[i].description
           && r.doc.experiences.value[i].position == res.experiences[i].position
    ensures r.Shown? && r.doc.education.Some? ==>
      && |r.doc.education.value| == |res.education|
      && forall i :: 0 <= i < |res.education| ==> r.doc.education.value[i].institution == res.education[i].institution
    ensures r.Shown? ==> forall x :: x in r.doc.contactRow <==> Truthy(x) && (x == res.personalInfo.email || x == res.personalInfo.phone)
  {
    if IsEmpty(res) then Placeholder else Shown(RenderDocument(res))
  }

  /** The download button is enabled exactly when a document is shown. */
  predicate DownloadEnabled(res: Resume) {
    !IsEmpty(res)
  }

  lemma DownloadMatchesPreview(res: Resume)
    ensures DownloadEnabled(res) <==> Render(res).Shown?
  {
  }

  /** A resume with contact details or a summary but no name and no entries still
      shows the placeholder: only the name and the three lists count. */
  lemma ContactsAloneShowPlaceholder(res: Resume)
    requires res.personalInfo.name == "" && res.experiences == [] && res.education == [] && res.skills == []
    ensures Render(res) == Placeholder
  {
  }
}
