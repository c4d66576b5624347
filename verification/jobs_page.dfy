/** The Jobs page: the search-and-status filter over the job list, and the
    add/edit dialog whose submit validates two fields and then routes to
    `addJob` or `updateJob`. Toasts and the dialog's open flag are left out. */
module JobsPage {

  import opened Wrappers
  import opened Text
  import opened Seqs
  import opened Keyed
  import opened JobStore

  // ---------------------------------------------------------------------------
  // Search and status filter

  datatype StatusFilter = All | Only(status: JobStatus)

  /** The company or the position contains the search term, ignoring ASCII case. */
  predicate MatchesSearch(j: Job, term: string) {
    Contains(ToLower(j.company), ToLower(term)) || Contains(ToLower(j.position), ToLower(term))
  }

  predicate MatchesStatus(j: Job, f: StatusFilter) {
    f.All? || j.status == f.status
  }

  function Shown(term: string, f: StatusFilter): Job -> bool {
    (j: Job) => MatchesSearch(j, term) && MatchesStatus(j, f)
  }

  /** `filteredJobs`: a job is listed iff it matches both the search and the status filter. */
  function FilteredJobs(jobs: seq<Job>, term: string, f: StatusFilter): (r: seq<Job>)
    ensures forall i :: 0 <= i < |r| ==> r[i] in jobs && MatchesSearch(r[i], term) && MatchesStatus(r[i], f)
    ensures forall i :: 0 <= i < |jobs| && MatchesSearch(jobs[i], term) && MatchesStatus(jobs[i], f) ==> jobs[i] in r
    ensures |r| <= |jobs|
    ensures forall j :: multiset(r)[j] == (if MatchesSearch(j, term) && MatchesStatus(j, f) then multiset(jobs)[j] else 0)
  {
    var r := Filter(jobs, Shown(term, f));
    FilterMultiset(jobs, Shown(term, f));
    assert forall i :: 0 <= i < |r| ==> Shown(term, f)(r[i]);
    assert forall i :: 0 <= i < |jobs| && MatchesSearch(jobs[i], term) && MatchesStatus(jobs[i], f) ==> Shown(term, f)(jobs[i]);
    r
  }

  /** The listed jobs keep the store's order: the filter distributes over concatenation. */
  lemma FilteredJobsAppend(jobs: seq<Job>, more: seq<Job>, term: string, f: StatusFilter)
    ensures FilteredJobs(jobs + more, term, f) == FilteredJobs(jobs, term, f) + FilteredJobs(more, term, f)
  {
    FilterAppend(jobs, more, Shown(term, f));
  }

  /** With an empty search, the 'all' filter lists every job and a status filter
      lists exactly `getJobsByStatus` of that status. */
  lemma EmptySearch(jobs: seq<Job>, st: JobStatus)
    ensures FilteredJobs(jobs, "", All) == jobs
    ensures FilteredJobs(jobs, "", Only(st)) == JobsByStatus(jobs, st)
  {
    forall i | 0 <= i < |jobs| ensures MatchesSearch(jobs[i], "") {
      ContainsEmpty(ToLower(jobs[i].company));
    }
    FilterKeepsAll(jobs, Shown("", All));
    FilterCongruent(jobs, Shown("", Only(st)), HasStatus(st));
  }

  // ---------------------------------------------------------------------------
  // The add/edit dialog

  /** The dialog's form: every optional field is edited as a string. */
  datatype JobForm = JobForm(
    company: string,
    position: string,
    status: JobStatus,
    applicationDate: DateKey,
    notes: string,
    contactEmail: string,
    salary: string,
    location: string)

  /** The page state the dialog acts on: the store's list, the form, and the job being edited. */
  datatype Page = Page(jobs: seq<Job>, form: JobForm, editing: Option<Job>)

  /** The blank form; `today` is `new Date().toISOString().split('T')[0]`. */
  function DefaultForm(today: DateKey): JobForm {
    JobForm("", "", Applied, today, "", "", "", "")
  }

  /** The form as passed to `addJob`: optional fields are always present strings. */
  function FormDraft(f: JobForm): JobDraft {
    JobDraft(f.company, f.position, f.status, f.applicationDate, Some(f.notes), Some(f.contactEmail), Some(f.salary), Some(f.location))
  }

  /** The form as passed to `updateJob`: every field is present. */
  function FormPatch(f: JobForm): (p: JobPatch)
    ensures forall j: Job {:trigger MergeJob(j, p)} :: DraftOf(MergeJob(j, p)) == FormDraft(f)
  {
    JobPatch(Some(f.company), Some(f.position), Some(f.status), Some(f.applicationDate),
             Some(Some(f.notes)), Some(Some(f.contactEmail)), Some(Some(f.salary)), Some(Some(f.location)))
  }

  /** The submit gate: company and position must be non-empty. */
  predicate FormValid(f: JobForm) {
    Truthy(f.company) && Truthy(f.position)
  }

  /** `resetForm`, also run by the "Add Job" button: blank form, nothing being edited. */
  function ResetForm(pg: Page, today: DateKey): (r: Page)
    ensures r.jobs == pg.jobs && r.editing == None && r.form == DefaultForm(today)
  {
    Page(pg.jobs, DefaultForm(today), None)
  }

  /** `handleSubmit`. An invalid form changes nothing. Otherwise, when a job is being
      edited the job with its identifier takes every field of the form and the count
      stays; when none is, one job with the form's fields and a fresh identifier is
      appended. Either way the form is then reset. */
  function HandleSubmit(pg: Page, today: DateKey, freshId: Id): (r: Page)
    requires freshId !in JobIds(pg.jobs)
    ensures !FormValid(pg.form) ==> r == pg
    ensures FormValid(pg.form) ==> r.editing == None && r.form == DefaultForm(today)
    ensures FormValid(pg.form) && pg.editing.Some? ==>
      && |r.jobs| == |pg.jobs|
      && (forall i :: 0 <= i < |pg.jobs| && pg.jobs[i].id == pg.editing.value.id ==>
            r.jobs[i].id == pg.jobs[i].id && DraftOf(r.jobs[i]) == FormDraft(pg.form))
      && (forall i :: 0 <= i < |pg.jobs| && pg.jobs[i].id != pg.editing.value.id ==> r.jobs[i] == pg.jobs[i])
    ensures FormValid(pg.form) && pg.editing.None? ==>
      && |r.jobs| == |pg.jobs| + 1
      && r.jobs[..|pg.jobs|] == pg.jobs
      && r.jobs[|pg.jobs|].id == freshId
      && DraftOf(r.jobs[|pg.jobs|]) == FormDraft(pg.form)
  {
    if !FormValid(pg.form) then pg
    else
      var jobs := if pg.editing.Some? then UpdateJob(pg.jobs, pg.editing.value.id, FormPatch(pg.form))
                  else AddJob(pg.jobs, FormDraft(pg.form), freshId);
      Page(jobs, DefaultForm(today), None)
  }

  /** `handleEdit`: the job's fields are loaded into the form, an absent optional
      field as the empty string, and the job is remembered as being edited. */
  function HandleEdit(pg: Page, j: Job): (r: Page)
    ensures r.jobs == pg.jobs && r.editing == Some(j)
    ensures r.form.company == j.company && r.form.position == j.position
    ensures r.form.status == j.status && r.form.applicationDate == j.applicationDate
    ensures r.form.notes == (if j.notes.Some? then j.notes.value else "")
    ensures r.form.contactEmail == (if j.contactEmail.Some? then j.contactEmail.value else "")
    ensures r.form.salary == (if j.salary.Some? then j.salary.value else "")
    ensures r.form.location == (if j.location.Some? then j.location.value else "")
  {
    Page(pg.jobs,
         JobForm(j.company, j.position, j.status, j.applicationDate,
                 j.notes.GetOr(""), j.contactEmail.GetOr(""), j.salary.GetOr(""), j.location.GetOr("")),
         Some(j))
  }

  /** Opening a job for editing and saving it unchanged is not the identity: each
      absent optional field comes back as a present empty string. */
  lemma EditThenSaveFillsOptionalFields(pg: Page, k: nat, today: DateKey, freshId: Id)
    requires k < |pg.jobs|
    requires freshId !in JobIds(pg.jobs)
    requires FormValid(HandleEdit(pg, pg.jobs[k]).form)
    ensures HandleSubmit(HandleEdit(pg, pg.jobs[k]), today, freshId).jobs[k]
         == pg.jobs[k].(notes := Some(pg.jobs[k].notes.GetOr("")),
                        contactEmail := Some(pg.jobs[k].contactEmail.GetOr("")),
                        salary := Some(pg.jobs[k].salary.GetOr("")),
                        location := Some(pg.jobs[k].location.GetOr("")))
    ensures pg.jobs[k].notes == None ==> HandleSubmit(HandleEdit(pg, pg.jobs[k]), today, freshId).jobs[k].notes == Some("")
  {
  }

  /** `handleStatusChange`: only the status of the job with that identifier changes. */
  function HandleStatusChange(jobs: seq<Job>, id: Id, st: JobStatus): (r: seq<Job>)
    ensures |r| == |jobs|
    ensures forall i :: 0 <= i < |jobs| ==> r[i] == (if jobs[i].id == id then jobs[i].(status := st) else jobs[i])
  {
    UpdateJob(jobs, id, EmptyPatch.(status := Some(st)))
  }

  /** `handleDelete`. */
  function HandleDelete(jobs: seq<Job>, id: Id): (r: seq<Job>)
    ensures id !in JobIds(r)
    ensures forall i :: 0 <= i < |jobs| && jobs[i].id != id ==> jobs[i] in r
    ensures forall i :: 0 <= i < |r| ==> r[i] in jobs
  {
    DeleteJob(jobs, id)
  }

  lemma CountCons(x: Job, rest: seq<Job>, st: JobStatus)
    ensures CountStatus([x] + rest, st) == (if x.status == st then 1 else 0) + CountStatus(rest, st)
  {
    JobsByStatusAppend([x], rest, st);
  }

  lemma UniqueTail(jobs: seq<Job>)
    requires |jobs| > 0 && UniqueIds(jobs, JobId)
    ensures UniqueIds(jobs[1..], JobId)
    ensures jobs[0].id !in JobIds(jobs[1..])
  {
    var rest := jobs[1..];
    forall i | 0 <= i < |rest| ensures JobIds(rest)[i] != jobs[0].id {
      assert rest[i] == jobs[i + 1];
    }
  }

  lemma StatusChangeCons(x: Job, rest: seq<Job>, id: Id, to: JobStatus)
    ensures HandleStatusChange([x] + rest, id, to)
         == [if x.id == id then x.(status := to) else x] + HandleStatusChange(rest, id, to)
  {
  }

  /** Moving one job (identifiers unique) from its status to another status `to`
      moves one unit between the two dashboard counts and leaves the others alone. */
  lemma {:induction false} StatusChangeMovesOneCount(jobs: seq<Job>, k: nat, to: JobStatus, st: JobStatus)
    requires k < |jobs|
    requires UniqueIds(jobs, JobId)
    requires jobs[k].status != to
    ensures CountStatus(HandleStatusChange(jobs, jobs[k].id, to), st) ==
        if st == to then CountStatus(jobs, st) + 1
        else if st == jobs[k].status then CountStatus(jobs, st) - 1
        else CountStatus(jobs, st)
    decreases |jobs|
  {
    UniqueTail(jobs);
    if k == 0 {
      CountHead(jobs, st);
      StatusChangeAtHead(jobs, to, st);
    } else {
      assert jobs[1..][k - 1] == jobs[k];
      assert jobs[0].id != jobs[k].id by {
        assert JobIds(jobs[1..])[k - 1] == jobs[k].id;
      }
      StatusChangeMovesOneCount(jobs[1..], k - 1, to, st);
      StatusChangeStep(jobs, k, to, st);
    }
  }

  /** The inductive step: a first job other than the one moved adds the same
      amount before and after, so the shift found in the rest carries over. */
  lemma StatusChangeStep(jobs: seq<Job>, k: nat, to: JobStatus, st: JobStatus)
    requires 0 < k < |jobs| && jobs[0].id != jobs[k].id
    requires CountStatus(HandleStatusChange(jobs[1..], jobs[k].id, to), st) ==
        if st == to then CountStatus(jobs[1..], st) + 1
        else if st == jobs[k].status then CountStatus(jobs[1..], st) - 1
        else CountStatus(jobs[1..], st)
    ensures CountStatus(HandleStatusChange(jobs, jobs[k].id, to), st) ==
        if st == to then CountStatus(jobs, st) + 1
        else if st == jobs[k].status then CountStatus(jobs, st) - 1
        else CountStatus(jobs, st)
  {
    CountHead(jobs, st);
    StatusChangePastHead(jobs, jobs[k].id, to, st);
  }

  lemma CountHead(jobs: seq<Job>, st: JobStatus)
    requires |jobs| > 0
    ensures CountStatus(jobs, st) == (if jobs[0].status == st then 1 else 0) + CountStatus(jobs[1..], st)
  {
    assert jobs == [jobs[0]] + jobs[1..];
    CountCons(jobs[0], jobs[1..], st);
  }

  /** The job moved is the first one, and no later job shares its identifier. */
  lemma StatusChangeAtHead(jobs: seq<Job>, to: JobStatus, st: JobStatus)
    requires |jobs| > 0 && jobs[0].id !in JobIds(jobs[1..])
    ensures CountStatus(HandleStatusChange(jobs, jobs[0].id, to), st)
         == (if to == st then 1 else 0) + CountStatus(jobs[1..], st)
  {
    var x, rest := jobs[0], jobs[1..];
    assert jobs == [x] + rest;
    StatusChangeCons(x, rest, x.id, to);
    UpdateAbsentJob(rest, x.id, EmptyPatch.(status := Some(to)));
    CountCons(x.(status := to), rest, st);
  }

  /** A first job that is not the one moved is counted as before. */
  lemma StatusChangePastHead(jobs: seq<Job>, id: Id, to: JobStatus, st: JobStatus)
    requires |jobs| > 0 && jobs[0].id != id
    ensures CountStatus(HandleStatusChange(jobs, id, to), st)
         == (if jobs[0].status == st then 1 else 0) + CountStatus(HandleStatusChange(jobs[1..], id, to), st)
  {
    var x, rest := jobs[0], jobs[1..];
    assert jobs == [x] + rest;
    StatusChangeCons(x, rest, id, to);
    CountCons(x, HandleStatusChange(rest, id, to), st);
  }
}
