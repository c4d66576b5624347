/** The cover-letter store: one flat record, merged field by field and reset to
    a fixed initial value. The initial value's date is computed once, when the
    module is loaded, so a reset restores that date and not the day of the reset.
    Persistence to local storage is left out. */
module CoverLetterStore {

  import opened Wrappers

  datatype CoverLetterData = CoverLetterData(
    fullName: string,
    email: string,
    phone: string,
    address: string,
    companyName: string,
    hiringManagerName: string,
    jobTitle: string,
    date: string,
    introduction: string,
    bodyParagraph1: string,
    bodyParagraph2: string,
    conclusion: string,
    skills: seq<string>,
    references: string)

  /** `Partial<CoverLetterData>`. */
  datatype CoverLetterPatch = CoverLetterPatch(
    fullName: Option<string>,
    email: Option<string>,
    phone: Option<string>,
    address: Option<string>,
    companyName: Option<string>,
    hiringManagerName: Option<string>,
    jobTitle: Option<string>,
    date: Option<string>,
    introduction: Option<string>,
    bodyParagraph1: Option<string>,
    bodyParagraph2: Option<string>,
    conclusion: Option<string>,
    skills: Option<seq<string>>,
    references: Option<string>)

  const EmptyPatch := CoverLetterPatch(None, None, None, None, None, None, None, None, None, None, None, None, None, None)

  const DefaultReferences := "References available upon request"

  /** `initialCoverLetterData`, given the locale date string `new Date().toLocaleDateString()`
      produced when the module was loaded. */
  function InitialCoverLetterData(loadDate: string): (d: CoverLetterData)
    ensures d.fullName == "" && d.email == "" && d.phone == "" && d.address == ""
    ensures d.companyName == "" && d.hiringManagerName == "" && d.jobTitle == ""
    ensures d.introduction == "" && d.bodyParagraph1 == "" && d.bodyParagraph2 == "" && d.conclusion == ""
    ensures d.skills == []
    ensures d.references == DefaultReferences
    ensures d.date == loadDate
  {
    CoverLetterData("", "", "", "", "", "", "", loadDate, "", "", "", "", [], DefaultReferences)
  }

  /** The store: the current record, and the date captured at module load. */
  datatype Store = Store(loadDate: string, data: CoverLetterData)

  function Init(loadDate: string): Store {
    Store(loadDate, InitialCoverLetterData(loadDate))
  }

  function MergeCoverLetter(d: CoverLetterData, p: CoverLetterPatch): (r: CoverLetterData)
    ensures p.fullName.Some? ==> r.fullName == p.fullName.value
    ensures p.fullName.None? ==> r.fullName == d.fullName
    ensures p.email.Some? ==> r.email == p.email.value
    ensures p.email.None? ==> r.email == d.email
    ensures p.phone.Some? ==> r.phone == p.phone.value
    ensures p.phone.None? ==> r.phone == d.phone
    ensures p.address.Some? ==> r.address == p.address.value
    ensures p.address.None? ==> r.address == d.address
    ensures p.companyName.Some? ==> r.companyName == p.companyName.value
    ensures p.companyName.None? ==> r.companyName == d.companyName
    ensures p.hiringManagerName.Some? ==> r.hiringManagerName == p.hiringManagerName.value
    ensures p.hiringManagerName.None? ==> r.hiringManagerName == d.hiringManagerName
    ensures p.jobTitle.Some? ==> r.jobTitle == p.jobTitle.value
    ensures p.jobTitle.None? ==> r.jobTitle == d.jobTitle
    ensures p.date.Some? ==> r.date == p.date.value
    ensures p.date.None? ==> r.date == d.date
    ensures p.introduction.Some? ==> r.introduction == p.introduction.value
    ensures p.introduction.None? ==> r.introduction == d.introduction
    ensures p.bodyParagraph1.Some? ==> r.bodyParagraph1 == p.bodyParagraph1.value
    ensures p.bodyParagraph1.None? ==> r.bodyParagraph1 == d.bodyParagraph1
    ensures p.bodyParagraph2.Some? ==> r.bodyParagraph2 == p.bodyParagraph2.value
    ensures p.bodyParagraph2.None? ==> r.bodyParagraph2 == d.bodyParagraph2
    ensures p.conclusion.Some? ==> r.conclusion == p.conclusion.value
    ensures p.conclusion.None? ==> r.conclusion == d.conclusion
    ensures p.skills.Some? ==> r.skills == p.skills.value
    ensures p.skills.None? ==> r.skills == d.skills
    ensures p.references.Some? ==> r.references == p.references.value
    ensures p.references.None? ==> r.references == d.references
  {
    CoverLetterData(
      Pick(p.fullName, d.fullName),
      Pick(p.email, d.email),
      Pick(p.phone, d.phone),
      Pick(p.address, d.address),
      Pick(p.companyName, d.companyName),
      Pick(p.hiringManagerName, d.hiringManagerName),
      Pick(p.jobTitle, d.jobTitle),
      Pick(p.date, d.date),
      Pick(p.introduction, d.introduction),
      Pick(p.bodyParagraph1, d.bodyParagraph1),
      Pick(p.bodyParagraph2, d.bodyParagraph2),
      Pick(p.conclusion, d.conclusion),
      Pick(p.skills, d.skills),
      Pick(p.references, d.references))
  }

  function ThenPatch(first: CoverLetterPatch, second: CoverLetterPatch): CoverLetterPatch {
    CoverLetterPatch(
      Then(first.fullName, second.fullName),
      Then(first.email, second.email),
      Then(first.phone, second.phone),
      Then(first.address, second.address),
      Then(first.companyName, second.companyName),
      Then(first.hiringManagerName, second.hiringManagerName),
      Then(first.jobTitle, second.jobTitle),
      Then(first.date, second.date),
      Then(first.introduction, second.introduction),
      Then(first.bodyParagraph1, second.bodyParagraph1),
      Then(first.bodyParagraph2, second.bodyParagraph2),
      Then(first.conclusion, second.conclusion),
      Then(first.skills, second.skills),
      Then(first.references, second.references))
  }

  /** `updateCoverLetterData`. */
  function UpdateCoverLetterData(st: Store, p: CoverLetterPatch): (r: Store)
    ensures r.loadDate == st.loadDate
    ensures r.data == MergeCoverLetter(st.data, p)
  {
    st.(data := MergeCoverLetter(st.data, p))
  }

  /** `resetCoverLetterData`: whatever the current record, it becomes the initial
      record built at module load. */
  function ResetCoverLetterData(st: Store): (r: Store)
    ensures r.loadDate == st.loadDate
    ensures r.data == InitialCoverLetterData(st.loadDate)
  {
    st.(data := InitialCoverLetterData(st.loadDate))
  }

  /** An update with the empty patch changes nothing; two updates in a row are one
      update with the composed patch, so the later value of a field wins. */
  lemma UpdateLaws(st: Store, first: CoverLetterPatch, second: CoverLetterPatch)
    ensures UpdateCoverLetterData(st, EmptyPatch) == st
    ensures UpdateCoverLetterData(UpdateCoverLetterData(st, first), second)
         == UpdateCoverLetterData(st, ThenPatch(first, second))
  {
  }

  /** Reset is idempotent and forgets everything but the load-time date. */
  lemma ResetLaws(st: Store, other: CoverLetterData)
    ensures ResetCoverLetterData(ResetCoverLetterData(st)) == ResetCoverLetterData(st)
    ensures ResetCoverLetterData(st.(data := other)) == ResetCoverLetterData(st)
    ensures ResetCoverLetterData(st) == Init(st.loadDate)
  {
  }

  /** The store's commands, as a user may issue them in any order. */
  datatype Command = Update(patch: CoverLetterPatch) | Reset

  function Step(st: Store, cmd: Command): Store {
    match cmd
    case Update(p) => UpdateCoverLetterData(st, p)
    case Reset => ResetCoverLetterData(st)
  }

  function Run(st: Store, cmds: seq<Command>): Store
    decreases |cmds|
  {
    if |cmds| == 0 then st
    else Run(Step(st, cmds[0]), cmds[1..])
  }

  lemma {:induction false} RunKeepsLoadDate(st: Store, cmds: seq<Command>)
    ensures Run(st, cmds).loadDate == st.loadDate
    decreases |cmds|
  {
    if |cmds| > 0 {
      RunKeepsLoadDate(Step(st, cmds[0]), cmds[1..]);
    }
  }

  lemma {:induction false} RunAppend(st: Store, cmds: seq<Command>, more: seq<Command>)
    ensures Run(st, cmds + more) == Run(Run(st, cmds), more)
    decreases |cmds|
  {
    if |cmds| > 0 {
      assert (cmds + more)[0] == cmds[0] && (cmds + more)[1..] == cmds[1..] + more;
      RunAppend(Step(st, cmds[0]), cmds[1..], more);
    } else {
      assert cmds + more == more;
    }
  }

  /** However long the session and whatever was edited, including the date, a reset
      brings back the date captured when the module was loaded: it is not recomputed. */
  lemma ResetRestoresLoadDate(loadDate: string, cmds: seq<Command>)
    ensures Run(Init(loadDate), cmds + [Reset]).data == InitialCoverLetterData(loadDate)
    ensures Run(Init(loadDate), cmds + [Reset]).data.date == loadDate
  {
    RunAppend(Init(loadDate), cmds, [Reset]);
    RunKeepsLoadDate(Init(loadDate), cmds);
  }
}
