# apply-and-build, modelled in Dafny

apply-and-build is a browser application for job seekers. It has three parts:

- a **job tracker**: a list of applications, each with a company, a position, a status (applied, interviewing, offered, rejected) and an application date. The Jobs page adds, edits, deletes, searches and filters them. The Dashboard counts them by status and lists the five most recent;
- a **resume builder**: personal information plus lists of experiences, education entries and skills, each edited through its own form. A live preview shows the resume, which can be downloaded as a PDF;
- a **cover-letter generator**: one flat record of fourteen fields, a preview, and a PDF export.

All state lives in three stores: jobs, resume and cover letter. Each store is a value that the pages replace through small update functions.

This project models those stores, the two job pages, the four resume forms and the two previews as pure Dafny functions over immutable datatypes. It proves what the code promises about them:

- list operations keep ids unique and leave other entries alone;
- an update is a field-wise merge;
- deleting removes exactly one entry, when ids are unique;
- a filter keeps exactly the matching entries;
- the dashboard counts add up, and its recent list is sorted, stable and the true top five;
- the description text of an experience round-trips through its edit form;
- the skill grouping puts every skill in the one group of its category;
- the resume date formatter behaves as the ECMAScript `Date` constructor does: two-digit years, month carry, "Invalid Date";
- the cover-letter preview and its PDF carry the same text exactly when no placeholder is needed.

Layout, one module per file:

- `wrappers.dfy`: Option, plus `Pick`/`Then`, the merge of one optional patch field;
- `text.dfy`: truthiness, lower-casing, substring search, trimming, `split`/`join`, `parseInt`;
- `seqs.dfy`: `filter`, `map` and counting;
- `keyed.dfy`: the `map`-where-id-matches and `filter`-id-out operations shared by every store list;
- `job_store.dfy`, `resume_store.dfy`, `cover_letter_store.dfy`: the three stores;
- `jobs_page.dfy`, `dashboard.dfy`: the two job pages;
- `form_editor.dfy`: the editing id and the form defaults that the experience and education forms keep;
- `experience_form.dfy`, `education_form.dfy`, `skills_form.dfy`, `personal_info_form.dfy`: the resume forms;
- `resume_preview.dfy`, `cover_letter_preview.dfy`: the previews and their PDF output.

These stand in for things the code gets from its environment:

- **Fresh ids:** `crypto.randomUUID()` becomes a `freshId` argument. It is required to be absent from the list it joins.
- **Today's date:** in the Jobs page this becomes a `today` argument.
- **Load-time date:** the cover-letter store's date becomes a `loadDate` string.
- **Email check:** the schema's email test becomes an `isEmail` predicate argument.
- **Job dates:** the application date is an integer day number (`DateKey`). The code only compares dates and shows them.
- **Resume dates:** these stay `"YYYY-MM"` strings, because their formatting is modelled.

In the code, the cover letter's initial record, date included, is built once when the store module loads (`src/store/coverLetterStore.ts:42`). Reset assigns that same record (line 60), so a reset restores the load-time date. `CoverLetterStore.ResetRestoresLoadDate` states this.

## Model

| member | source | states |
|---|---|---|
| JobStore.MergeJob | src/store/jobStore.ts:41 | `{ ...job, ...updates }`: every field named in the patch takes the patch's value, every other field keeps the job's; the id is never changed by the merge |
| JobStore.MergeTwice | src/store/jobStore.ts:39-43 | two updates in a row equal one update whose patch takes the later value of every field |
| JobStore.MergeEmptyIsIdentity | src/store/jobStore.ts:41 | merging an empty patch leaves a job unchanged |
| JobStore.AddJob | src/store/jobStore.ts:32-37 | the list grows by one at the end, the old list is an unchanged prefix, the new job carries the fresh id and exactly the submitted fields, and unique ids stay unique |
| JobStore.UpdateJob | src/store/jobStore.ts:39-43 | same length; jobs with another id are untouched; jobs with the id are merged with the patch; the list of ids is unchanged |
| JobStore.UpdateAbsentJob | src/store/jobStore.ts:39-43 | updating an id nobody has changes nothing |
| JobStore.DeleteJob | src/store/jobStore.ts:45-47 | the id no longer occurs; every survivor was in the list; every job with another id survives |
| JobStore.DeleteJobProperties | src/store/jobStore.ts:45-47 | delete distributes over concatenation, is idempotent, is a no-op for an absent id, removes exactly one job when ids are unique, and keeps ids unique |
| JobStore.AddThenDelete | src/store/jobStore.ts:32-47 | deleting the job just added restores the previous list |
| JobStore.JobsByStatus | src/store/jobStore.ts:49-51 | the result holds only jobs of the status, all taken from the list, and every job of that status is in it |
| JobStore.JobsByStatusAppend | src/store/jobStore.ts:49-51 | selecting by status distributes over concatenation, so order is kept |
| JobStore.StatusCountsSum | src/store/jobStore.ts:4 | since the four statuses partition the jobs, their counts add up to `getTotalJobs()` |
| JobsPage.FilteredJobs | src/pages/Jobs.tsx:32-38 | a job is shown if and only if the lower-cased search term occurs in its lower-cased company or position and the status filter is 'all' or equals its status; the list is no longer than the store's, and each shown job appears exactly as many times as in the store |
| JobsPage.FilteredJobsAppend | src/pages/Jobs.tsx:32-38 | filtering distributes over concatenation, so the list order is kept |
| JobsPage.EmptySearch | src/pages/Jobs.tsx:32-38 | with an empty search the 'all' filter shows every job and a status filter shows exactly `getJobsByStatus` |
| JobsPage.FormPatch | src/pages/Jobs.tsx:52-55 | the update sent when editing overwrites every editable field of the job with the form's values |
| JobsPage.ResetForm | src/pages/Jobs.tsx:70-82 | the form goes back to its defaults, with today's date and status 'applied', and editing ends; the jobs are untouched |
| JobsPage.HandleSubmit | src/pages/Jobs.tsx:40-68 | with company or position empty nothing changes; otherwise an edited job is merged in place or a new job is appended, and the form is reset |
| JobsPage.HandleEdit | src/pages/Jobs.tsx:84-97 | the form is filled from the job, with a missing optional field shown as the empty string |
| JobsPage.EditThenSaveFillsOptionalFields | src/pages/Jobs.tsx:84-97 | opening a job and saving it unchanged turns an absent optional field such as notes into the empty string, and keeps everything else |
| JobsPage.HandleStatusChange | src/pages/Jobs.tsx:107-108 | only the job with the id changes, and only its status |
| JobsPage.StatusChangeMovesOneCount | src/pages/Jobs.tsx:107-108 | with unique ids, a status change moves exactly one job from its old status count to the new one and leaves every other count alone |
| JobsPage.HandleDelete | src/pages/Jobs.tsx:99-100 | after a delete the id is gone and every other job remains |
| Dashboard.ComputeStats | src/pages/Dashboard.tsx:8-37 | the four cards show the total and the applied, interviewing and offered counts; these three never exceed the total, and what they leave is the rejected count |
| Dashboard.SortNewestFirst | src/pages/Dashboard.tsx:40 | the sort yields a permutation of the jobs ordered by non-increasing application date |
| Dashboard.SortStable | src/pages/Dashboard.tsx:40 | jobs with the same date keep their relative order, as the ECMAScript stable sort promises |
| Dashboard.RecentJobs | src/pages/Dashboard.tsx:39-41 | the list holds min(5, n) jobs, newest first, drawn from the store, and every job left out is no newer than the last one shown; it is the front of the stable newest-first order, so among jobs tied on a date the one earlier in the store is shown |
| Dashboard.RecentJobsStable | src/pages/Dashboard.tsx:39-41 | of the jobs applied for on any one day, the recent list shows a leading run of them in store order, so a tie at the fifth place goes to the job earlier in the store |
| Dashboard.RenderAsWritten | src/pages/Dashboard.tsx:39-41 | as written: the view shows the stats and the five most recent jobs, and the store's list is left sorted in place |
| Dashboard.RenderAsWrittenReordersStore | src/pages/Dashboard.tsx:39-41 | two jobs added oldest first come back from a dashboard render in the opposite order |
| Dashboard.Render | src/pages/Dashboard.tsx:39-41 | corrected: the same view, with the store's list unchanged |
| Dashboard.RenderIsReadOnly | src/pages/Dashboard.tsx:39-41 | rendering twice shows the same view and still leaves the store as it was |
| ResumeStore.InitialResumeIsEmpty | src/store/resumeStore.ts:62-72 | the initial resume has empty personal fields and no entries, and satisfies the unique-ids invariant |
| ResumeStore.MergePersonalInfo | src/store/resumeStore.ts:79-84 | personal info is merged field by field: a field in the patch overwrites, any other is kept |
| ResumeStore.UpdatePersonalInfo | src/store/resumeStore.ts:79-84 | personal info becomes the merge, and the three lists are untouched |
| ResumeStore.MergeExperience | src/store/resumeStore.ts:96-103 | an experience is merged field by field and keeps its id |
| ResumeStore.AddExperience | src/store/resumeStore.ts:86-94 | one experience with the fresh id and the submitted fields is appended; the rest of the resume is unchanged; unique ids stay unique |
| ResumeStore.UpdateExperience | src/store/resumeStore.ts:96-103 | entries with the id are merged in place and all others are untouched; an absent id changes nothing; unique ids stay unique |
| ResumeStore.DeleteExperience | src/store/resumeStore.ts:105-110 | the id is gone, the other entries remain, and exactly one entry goes when ids are unique |
| ResumeStore.DeleteExperienceProperties | src/store/resumeStore.ts:86-110 | delete is idempotent and distributes over appended entries, and deleting what was just added restores the resume |
| ResumeStore.MergeEducation | src/store/resumeStore.ts:122-129 | an education entry is merged field by field and keeps its id |
| ResumeStore.AddEducation | src/store/resumeStore.ts:112-120 | one entry with the fresh id and the submitted fields is appended; nothing else changes; unique ids stay unique |
| ResumeStore.UpdateEducation | src/store/resumeStore.ts:122-129 | matching entries are merged in place and all others kept; an absent id changes nothing |
| ResumeStore.DeleteEducation | src/store/resumeStore.ts:131-136 | the id is gone, the others remain, and exactly one goes when ids are unique |
| ResumeStore.DeleteEducationProperties | src/store/resumeStore.ts:112-136 | delete is idempotent and distributes over appended entries, and add-then-delete restores the resume |
| ResumeStore.MergeSkill | src/store/resumeStore.ts:148-155 | a skill is merged field by field and keeps its id |
| ResumeStore.AddSkill | src/store/resumeStore.ts:138-146 | one skill with the fresh id and the submitted fields is appended; nothing else changes; unique ids stay unique |
| ResumeStore.UpdateSkill | src/store/resumeStore.ts:148-155 | matching skills are merged in place and all others kept; an absent id changes nothing |
| ResumeStore.DeleteSkill | src/store/resumeStore.ts:157-162 | the id is gone, the others remain, and exactly one goes when ids are unique |
| ResumeStore.DeleteSkillProperties | src/store/resumeStore.ts:138-162 | delete is idempotent and distributes over appended skills, and add-then-delete restores the resume |
| ResumeStore.OfCategory | src/components/resume/ResumePreview.tsx:178 | selecting skills by category keeps exactly the skills of that category, and no more of them than there are skills |
| ResumeStore.OfCategoryEmpty | src/components/resume/ResumePreview.tsx:179 | a category's selection is empty if and only if no skill has that category |
| CoverLetterStore.InitialCoverLetterData | src/store/coverLetterStore.ts:34-49 | every text field starts empty, there are no skills, references has its stock sentence, and the date is the one taken at load |
| CoverLetterStore.MergeCoverLetter | src/store/coverLetterStore.ts:55-58 | each of the fourteen fields takes the patch's value when given and keeps the current one otherwise |
| CoverLetterStore.UpdateCoverLetterData | src/store/coverLetterStore.ts:55-58 | an update merges the patch and never touches the load-time date |
| CoverLetterStore.UpdateLaws | src/store/coverLetterStore.ts:55-58 | an empty update is a no-op, and two updates equal one update with the later values winning |
| CoverLetterStore.ResetCoverLetterData | src/store/coverLetterStore.ts:59-60 | reset yields the initial record built at load time |
| CoverLetterStore.ResetLaws | src/store/coverLetterStore.ts:59-60 | reset is idempotent, forgets the current record entirely, and returns to the store's initial state |
| CoverLetterStore.RunKeepsLoadDate | src/store/coverLetterStore.ts:42 | no sequence of updates and resets changes the date captured at load |
| CoverLetterStore.RunAppend | src/store/coverLetterStore.ts:51-61 | running two command sequences in turn equals running their concatenation |
| CoverLetterStore.ResetRestoresLoadDate | src/store/coverLetterStore.ts:42 | after any session that ends with a reset the record is the initial one, dated at load time, not at the reset |
| ExperienceForm.DescriptionLines | src/components/resume/ExperienceForm.tsx:52 | the stored bullet points contain no line break and none is blank |
| ExperienceForm.DescriptionLinesOfTwoParts | src/components/resume/ExperienceForm.tsx:52 | the bullets of two texts joined by a line break are the bullets of the first followed by those of the second |
| ExperienceForm.BlankDescriptionStoresNothing | src/components/resume/ExperienceForm.tsx:52 | a description made only of whitespace stores no bullet at all |
| ExperienceForm.BlankButValid | src/components/resume/ExperienceForm.tsx:16-24 | the schema accepts the description " \n " because it is not empty, yet it stores an empty bullet list |
| ExperienceForm.DescriptionRoundTrip | src/components/resume/ExperienceForm.tsx:52 | bullets without line breaks and not blank come back unchanged after join-by-line-break and re-split, which is the edit round trip of lines 78 and 52 |
| ExperienceForm.Patch | src/components/resume/ExperienceForm.tsx:55-56 | saving an edit overwrites every editable field of the experience with the form's values |
| FormEditor.Edit | src/components/resume/ExperienceForm.tsx:75-76 | opening an entry sets the editing id, and the entry's values fill the form and become its defaults, as `reset(values)` does |
| FormEditor.Clear | src/components/resume/ExperienceForm.tsx:92-93 | a bare `reset()` with the editing id cleared ends editing and shows the defaults the form currently holds, which stay as they were |
| FormEditor.ClearsKeepEditedValues | src/components/resume/ExperienceForm.tsx:69-93 | after an entry is opened, any number of later clears keep its values as the defaults, and the next clear shows them again |
| ExperienceForm.OnSubmit | src/components/resume/ExperienceForm.tsx:49-72 | an invalid form changes nothing; a valid one updates the edited entries in place when an id is set, appends one entry otherwise, and touches no other section; afterwards editing has ended and the form shows its current defaults |
| ExperienceForm.FormOf | src/components/resume/ExperienceForm.tsx:76-79 | the form holds the experience's fields, with the bullets joined by line breaks into the description |
| ExperienceForm.HandleEdit | src/components/resume/ExperienceForm.tsx:74-81 | the editing id is the experience's id, and the form shows it and keeps it as defaults |
| ExperienceForm.HandleAddNew | src/components/resume/ExperienceForm.tsx:91-95 | as written: editing ends and the form shows its current defaults, which are the blank ones only when no entry was opened before |
| ExperienceForm.AddNewAfterEditShowsEdited | src/components/resume/ExperienceForm.tsx:69-95 | after an experience was opened, saved or not, "add new" shows that experience's fields, so with a company filled in it is not the blank form |
| ExperienceForm.HandleAddNewBlank | src/components/resume/ExperienceForm.tsx:36-47 | corrected: "add new" ends editing and shows the blank defaults given to `useForm`, which become the defaults again |
| ExperienceForm.AddNewBlankForgetsEdit | src/components/resume/ExperienceForm.tsx:36-95 | with the corrected "add new", having opened an experience before leaves no trace: the result is the one on a fresh form |
| ExperienceForm.HandleDelete | src/components/resume/ExperienceForm.tsx:83-84 | the id is gone, other experiences remain, other sections are untouched |
| ExperienceForm.EditThenSaveIsIdentity | src/components/resume/ExperienceForm.tsx:49-81 | opening an experience with a non-empty id and clean bullets and saving it unchanged leaves the resume exactly as it was |
| ExperienceForm.AddNewThenSubmitAdds | src/components/resume/ExperienceForm.tsx:49-95 | "add new", as written or corrected, followed by a valid submit adds exactly one experience |
| EducationForm.Patch | src/components/resume/EducationForm.tsx:42-43 | saving an edit overwrites every editable field of the entry with the form's values |
| EducationForm.OnSubmit | src/components/resume/EducationForm.tsx:41-59 | an invalid form changes nothing; a valid one updates in place when an id is set, appends otherwise, and touches no other section; afterwards editing has ended and the form shows its current defaults |
| EducationForm.HandleEdit | src/components/resume/EducationForm.tsx:61-65 | the editing id is the entry's id, and the form holds exactly the entry's fields, which also become its defaults: the entry is rebuilt from the form and its own id |
| EducationForm.HandleAddNew | src/components/resume/EducationForm.tsx:75-79 | as written: editing ends and the form shows its current defaults, which are the blank ones only when no entry was opened before |
| EducationForm.AddNewAfterEditShowsEdited | src/components/resume/EducationForm.tsx:56-79 | after an entry was opened, saved or not, "add new" shows that entry's fields, so with an institution filled in it is not the blank form |
| EducationForm.HandleAddNewBlank | src/components/resume/EducationForm.tsx:27-39 | corrected: "add new" ends editing and shows the blank defaults given to `useForm`, which become the defaults again |
| EducationForm.AddNewBlankForgetsEdit | src/components/resume/EducationForm.tsx:27-79 | with the corrected "add new", having opened an entry before leaves no trace: the result is the one on a fresh form |
| EducationForm.HandleDelete | src/components/resume/EducationForm.tsx:67-68 | the id is gone, other entries remain, other sections are untouched |
| EducationForm.EditThenSaveIsIdentity | src/components/resume/EducationForm.tsx:41-65 | opening an entry with a non-empty id and saving it unchanged leaves the resume as it was |
| EducationForm.EmptyIdEditAppends | src/components/resume/EducationForm.tsx:42 | an entry whose id is the empty string is not updated on save but appended again, because the empty id is falsy |
| SkillsForm.ParseCategory | src/components/resume/SkillsForm.tsx:18 | the category field is accepted exactly when it names one of the three categories |
| SkillsForm.ParseProficiency | src/components/resume/SkillsForm.tsx:19 | the proficiency field is accepted exactly when it names one of the four levels |
| SkillsForm.ParseNames | src/components/resume/SkillsForm.tsx:16-20 | each category and level is accepted under its own name |
| SkillsForm.Draft | src/components/resume/SkillsForm.tsx:38-40 | the stored skill has the form's name, category and proficiency |
| SkillsForm.OnSubmit | src/components/resume/SkillsForm.tsx:38-46 | an invalid form changes nothing; a valid one appends exactly one skill and touches no other section |
| SkillsForm.DefaultsNeedOnlyAName | src/components/resume/SkillsForm.tsx:31-35 | the default form needs only a name to pass and stores a technical skill at intermediate level |
| SkillsForm.HandleDelete | src/components/resume/SkillsForm.tsx:48-49 | the id is gone, other skills remain, other sections are untouched |
| SkillsForm.FindGroup | src/components/resume/SkillsForm.tsx:62-63 | a group is found exactly when its category is already a key, and the found group has that category |
| SkillsForm.GroupedSkills | src/components/resume/SkillsForm.tsx:61-67 | the groups have distinct keys in first-appearance order, each group holds exactly the skills of its category, in order, and none is empty |
| SkillsForm.GroupedSkillsProperties | src/components/resume/SkillsForm.tsx:61-67 | a category is a key if and only if some skill has it; a skill is in a group if and only if the categories match; the group sizes add up to the number of skills |
| PersonalInfoForm.PatchOf | src/components/resume/PersonalInfoForm.tsx:31-32 | submitting the whole form replaces personal info by the form, whatever it held before |
| PersonalInfoForm.OnSubmit | src/components/resume/PersonalInfoForm.tsx:12-32 | an invalid form changes nothing; a valid one sets personal info to the form and leaves the three lists alone |
| PersonalInfoForm.SubmitDefaultsIsNoop | src/components/resume/PersonalInfoForm.tsx:28 | submitting the untouched form, filled from the store, changes nothing |
| PersonalInfoForm.OptionalFieldsAreFree | src/components/resume/PersonalInfoForm.tsx:12-20 | LinkedIn, portfolio and summary never decide validity |
| PersonalInfoForm.InitialRecordInvalid | src/components/resume/PersonalInfoForm.tsx:12-20 | the empty initial personal info does not pass the schema |
| PersonalInfoForm.SubmitIdempotent | src/components/resume/PersonalInfoForm.tsx:31-32 | submitting the same form twice is the same as once |
| Text.ParseInt | src/components/resume/ResumePreview.tsx:44 | `parseInt` gives a number exactly when the text starts with a digit |
| Text.ParseNatToString | src/components/resume/ResumePreview.tsx:44 | `parseInt` reads back the numeral of any natural number |
| Text.SplitJoin | src/components/resume/ExperienceForm.tsx:78 | splitting a join on the same separator gives back pieces that do not contain it |
| Text.JoinSplit | src/components/resume/ExperienceForm.tsx:52 | joining the pieces of a split on the same separator gives back the text |
| Text.TrimEmptyIffBlank | src/components/resume/ExperienceForm.tsx:52 | `trim()` yields the empty string exactly when the text is all whitespace |
| ResumePreview.MakeDate | src/components/resume/ResumePreview.tsx:44 | `new Date(y, m)` counts months from year y, with years 0 to 99 read as 1900 to 1999, and carries months outside 0 to 11 into the year |
| ResumePreview.FormatDate | src/components/resume/ResumePreview.tsx:41-49 | an empty date shows as empty; "Invalid Date" shows exactly when year or month is not a number; otherwise a month name and year |
| ResumePreview.FormatMonthInput | src/components/resume/ResumePreview.tsx:41-49 | a month input "YYYY-MM" with year at least 100 shows as that month's full name and the year |
| ResumePreview.FormatTwoDigitYear | src/components/resume/ResumePreview.tsx:44 | a year below 100 is shown in the 1900s |
| ResumePreview.FormatMonthCarries | src/components/resume/ResumePreview.tsx:44 | month 13 shows as January of the next year and month 00 as December of the previous one |
| ResumePreview.FormatDateWithoutMonth | src/components/resume/ResumePreview.tsx:43-44 | a date with no month part, or a non-numeric one, shows as "Invalid Date" |
| ResumePreview.FormatDateExample | src/components/resume/ResumePreview.tsx:41-49 | "2020-01" shows as "January 2020" |
| ResumePreview.PdfFileName | src/components/resume/ResumePreview.tsx:20 | the file is the person's name plus ".pdf", or "resume.pdf" when the name is empty |
| ResumePreview.ShownIfPresent | src/components/resume/ResumePreview.tsx:97-102 | an optional contact is shown exactly when present and non-empty |
| ResumePreview.ViewExperience | src/components/resume/ResumePreview.tsx:124-140 | an entry shows its position, company and bullets, the formatted start date and end date, and its location exactly when present and non-empty |
| ResumePreview.CurrentRoleShowsPresent | src/components/resume/ResumePreview.tsx:132 | a current role shows "Present" whatever end date it stores |
| ResumePreview.ViewEducation | src/components/resume/ResumePreview.tsx:154-163 | an entry shows "degree in field", the institution, the formatted graduation date, and the GPA exactly when present and non-empty |
| ResumePreview.SpansAreJoin | src/components/resume/ResumePreview.tsx:191-196 | the per-skill spans with their trailing ", " read as the skills joined by ", " |
| ResumePreview.LineCategories | src/components/resume/ResumePreview.tsx:177-179 | a category gets a line exactly when at least one skill has it |
| ResumePreview.CategorySizesSum | src/components/resume/ResumePreview.tsx:177-178 | every skill is listed under exactly one of the three categories |
| ResumePreview.SkillLinesProperties | src/components/resume/ResumePreview.tsx:171-200 | a category has a line if and only if some skill has it, a non-empty skill list shows at least one line, and lines follow the order technical, soft, language |
| ResumePreview.Render | src/components/resume/ResumePreview.tsx:51-200 | the placeholder shows exactly when the resume is empty; each section shows exactly when it has content; entry i shows stored entry i's position, bullets or institution; the contact row holds exactly the non-empty email and phone |
| ResumePreview.DownloadMatchesPreview | src/components/resume/ResumePreview.tsx:62 | the download button is enabled exactly when the preview shows a resume |
| ResumePreview.ContactsAloneShowPlaceholder | src/components/resume/ResumePreview.tsx:51-54 | a resume with contact details but no name and no entries still shows the placeholder |
| CoverLetterPreview.Paragraphs | src/components/coverLetter/CoverLetterPreview.tsx:51-69 | the letter's body holds at most four paragraphs, none of them empty |
| CoverLetterPreview.ParagraphsAreTheFilledFields | src/components/coverLetter/CoverLetterPreview.tsx:51-69 | the body is the four fields filtered for non-empty ones, so it keeps the order introduction, first body paragraph, second body paragraph, conclusion, keeps repeated texts, and holds a text exactly when it is one of the four fields and non-empty |
| Text.Truthful | src/components/coverLetter/CoverLetterPreview.tsx:51-69 | keeping the truthy strings keeps exactly the non-empty entries and never lengthens the list |
| Text.TruthfulCons | src/components/coverLetter/CoverLetterPreview.tsx:51-69 | the strings are considered front to back: a non-empty first string comes first and an empty one is dropped |
| CoverLetterPreview.PdfFileName | src/components/coverLetter/CoverLetterPreview.tsx:76 | the file is the full name followed by "_Cover_Letter.pdf" |
| CoverLetterPreview.PdfBlocksShape | src/components/coverLetter/CoverLetterPreview.tsx:29-74 | the export has eight fixed blocks plus the hiring manager when given plus one per non-empty paragraph, opens with the name in 16-point bold, puts the subject before the paragraphs, and closes with "Sincerely," and the name in bold |
| CoverLetterPreview.BoldBlocks | src/components/coverLetter/CoverLetterPreview.tsx:30-74 | only the name and the subject line are bold |
| CoverLetterPreview.BlankLetterExport | src/components/coverLetter/CoverLetterPreview.tsx:29-76 | exporting the initial letter gives the eight fixed blocks, dated at load time, into a file named "_Cover_Letter.pdf" |
| CoverLetterPreview.PreviewMatchesExport | src/components/coverLetter/CoverLetterPreview.tsx:94-147 | the preview and the PDF show the same texts if and only if name, company and job title are all filled in, since otherwise the preview shows a placeholder |

## Left out

- Persistence: each store is saved to local storage by the persist middleware. That is I/O and is not modelled; the stores start from their initial values.
- Fresh ids: `crypto.randomUUID()` is a `freshId` argument that must not already be in use. Randomness is outside the model.
- Dates: today's date in the Jobs page and the cover-letter load date are arguments, because they come from the clock. Application dates are abstract day numbers, not ISO strings, and `new Date(...).getTime()` becomes a comparison of those numbers.
- Dashboard.SortNewestFirst and Dashboard.RecentJobs: assume every stored application date parses. The date input is not required and `handleSubmit` checks only company and position (`src/pages/Jobs.tsx:43`), so a job can be stored with the empty date. `new Date("").getTime()` is NaN, which makes the comparator at `src/pages/Dashboard.tsx:40` inconsistent, and then the order `sort` produces is implementation-defined. The model's day numbers always compare, so it does not cover that case.
- UI state: toasts, dialog open flags, icons, styling and React rendering plumbing are presentation only.
- PDF engines: html2pdf and jsPDF are foreign libraries. The resume PDF is taken to be the preview's content. The cover-letter PDF is modelled as its ordered list of text blocks with size and weight; the y cursor, the spacing and `splitTextToSize` line wrapping are left out.
- ResumePreview.FormatDate: follows the ECMAScript `Date` constructor for years and months but not its time-value range limit. A year beyond about 275760 would print "Invalid Date" in a browser. Locale output is fixed to en-US month names, as the code requests.
- Text.ParseInt: reads leading decimal digits only. Leading whitespace, signs and the `0x` prefix of JavaScript `parseInt` are not modelled; the date strings produced by a month input never contain them.
- Text.ToLower and Text.Trim: ASCII only. Unicode case mapping and the full set of whitespace characters of `toLowerCase` and `trim` are not modelled.
- Form library: zod and react-hook-form internals are not modelled. Each schema is a predicate and the email format check is an `isEmail` argument. `form.reset(values)` loads `values` and also makes them the form's defaults, and a bare `form.reset()` loads the current defaults; the experience and education forms carry those defaults in `FormEditor.Editor`. An optional field the user leaves empty, such as an education `gpa`, submits its default, the empty string (`src/components/resume/EducationForm.tsx:37`).
- SkillsForm handleAddNew (`src/components/resume/SkillsForm.tsx:56-58`): it only resets the form to `SkillsForm.DefaultForm` and opens the dialog, so there is no separate member.
- Skill editing: the skills form never calls `updateSkill`. `ResumeStore.UpdateSkill` models the store function on its own.
- Other components: the cover-letter input forms, JobCard, Layout and the CoverLetter and Resume pages only wire fields to the stores above and lay them out. They are not part of this model.

## Findings

| source | as written | input that shows it | evidently intended | confidence | as-written member | corrected member |
|---|---|---|---|---|---|---|
| src/pages/Dashboard.tsx:39-41 | `jobs.sort(...)` sorts the store's own array in place before `slice(0, 5)`, so merely showing the Dashboard reorders the job list seen by the Jobs page | jobs a (date 1) then b (date 2): after a render the store holds [b, a] | sort a copy (`[...jobs].sort(...)`) and leave the store's order alone | medium, not executed | Dashboard.RenderAsWritten, Dashboard.RenderAsWrittenReordersStore | Dashboard.Render, Dashboard.RenderIsReadOnly |
| src/components/resume/ExperienceForm.tsx:91-95 | `handleAddNew` calls a bare `form.reset()`, but `handleEdit` (line 76) made the edited experience the form's defaults, so "add new" shows the last experience opened instead of a blank form | open an experience with company "Acme", close the dialog, press "add new": the form shows company "Acme" | `form.reset(blank defaults)`, a blank form | medium, not executed | ExperienceForm.HandleAddNew, ExperienceForm.AddNewAfterEditShowsEdited | ExperienceForm.HandleAddNewBlank, ExperienceForm.AddNewBlankForgetsEdit |
| src/components/resume/EducationForm.tsx:75-79 | `handleAddNew` calls a bare `form.reset()`, but `handleEdit` (line 63) made the edited entry the form's defaults, so "add new" shows the last entry opened instead of a blank form | open an entry with institution "MIT", save it, press "add new": the form shows institution "MIT" | `form.reset(blank defaults)`, a blank form | medium, not executed | EducationForm.HandleAddNew, EducationForm.AddNewAfterEditShowsEdited | EducationForm.HandleAddNewBlank, EducationForm.AddNewBlankForgetsEdit |
