/** The job-application store: a list of applications with append, merge-update,
    delete, a by-status query and a count. Persistence to local storage is left
    out; the store is the in-memory list. */
module JobStore {

  import opened Wrappers
  import opened Seqs
  import opened Keyed

  datatype JobStatus = Applied | Interviewing | Offered | Rejected

  /** An application date is the ISO day `YYYY-MM-DD` the form's date input
      produces, abstracted to an integer key that orders days chronologically. */
  type DateKey = int

  datatype Job = Job(
    id: Id,
    company: string,
    position: string,
    status: JobStatus,
    applicationDate: DateKey,
    notes: Option<string>,
    contactEmail: Option<string>,
    salary: Option<string>,
    location: Option<string>)

  /** `Omit<JobApplication, 'id'>`: what `addJob` is given. */
  datatype JobDraft = JobDraft(
    company: string,
    position: string,
    status: JobStatus,
    applicationDate: DateKey,
    notes: Option<string>,
    contactEmail: Option<string>,
    salary: Option<string>,
    location: Option<string>)

  /** `Partial<JobApplication>` without `id`: every field may be absent; an optional
      field may also be present with the value `undefined` (`Some(None)`). */
  datatype JobPatch = JobPatch(
    company: Option<string>,
    position: Option<string>,
    status: Option<JobStatus>,
    applicationDate: Option<DateKey>,
    notes: Option<Option<string>>,
    contactEmail: Option<Option<string>>,
    salary: Option<Option<string>>,
    location: Option<Option<string>>)

  const EmptyPatch := JobPatch(None, None, None, None, None, None, None, None)

  function JobId(j: Job): Id {
    j.id
  }

  function JobIds(jobs: seq<Job>): seq<Id> {
    Ids(jobs, JobId)
  }

  /** The record `{ ...draft, id }`. */
  function WithId(d: JobDraft, id: Id): (j: Job)
    ensures j.id == id
    ensures DraftOf(j) == d
  {
    Job(id, d.company, d.position, d.status, d.applicationDate, d.notes, d.contactEmail, d.salary, d.location)
  }

  /** Every field of a job except its identifier. */
  function DraftOf(j: Job): JobDraft {
    JobDraft(j.company, j.position, j.status, j.applicationDate, j.notes, j.contactEmail, j.salary, j.location)
  }

  /** `{ ...job, ...updates }`. */
  function MergeJob(j: Job, p: JobPatch): (r: Job)
    ensures r.id == j.id
    ensures p.company.Some? ==> r.company == p.company.value
    ensures p.company.None? ==> r.company == j.company
    ensures p.position.Some? ==> r.position == p.position.value
    ensures p.position.None? ==> r.position == j.position
    ensures p.status.Some? ==> r.status == p.status.value
    ensures p.status.None? ==> r.status == j.status
    ensures p.applicationDate.Some? ==> r.applicationDate == p.applicationDate.value
    ensures p.applicationDate.None? ==> r.applicationDate == j.applicationDate
    ensures p.notes.Some? ==> r.notes == p.notes.value
    ensures p.notes.None? ==> r.notes == j.notes
    ensures p.contactEmail.Some? ==> r.contactEmail == p.contactEmail.value
    ensures p.contactEmail.None? ==> r.contactEmail == j.contactEmail
    ensures p.salary.Some? ==> r.salary == p.salary.value
    ensures p.salary.None? ==> r.salary == j.salary
    ensures p.location.Some? ==> r.location == p.location.value
    ensures p.location.None? ==> r.location == j.location
  {
    Job(j.id,
        Pick(p.company, j.company),
        Pick(p.position, j.position),
        Pick(p.status, j.status),
        Pick(p.applicationDate, j.applicationDate),
        Pick(p.notes, j.notes),
        Pick(p.contactEmail, j.contactEmail),
        Pick(p.salary, j.salary),
        Pick(p.location, j.location))
  }

  /** The patch that applies `first` and then `second`. */
  function ThenPatch(first: JobPatch, second: JobPatch): JobPatch {
    JobPatch(
      Then(first.company, second.company),
      Then(first.position, second.position),
      Then(first.status, second.status),
      Then(first.applicationDate, second.applicationDate),
      Then(first.notes, second.notes),
      Then(first.contactEmail, second.contactEmail),
      Then(first.salary, second.salary),
      Then(first.location, second.location))
  }

  /** Merging the empty patch is the identity. */
  lemma MergeEmptyIsIdentity(j: Job)
    ensures MergeJob(j, EmptyPatch) == j
  {
  }

  /** Two successive merges are one merge of the composed patch; in particular the
      later value of a field present in both wins. */
  lemma MergeTwice(j: Job, first: JobPatch, second: JobPatch)
    ensures MergeJob(MergeJob(j, first), second) == MergeJob(j, ThenPatch(first, second))
  {
  }

  function Merger(p: JobPatch): Job -> Job {
    (j: Job) => MergeJob(j, p)
  }

  function HasStatus(st: JobStatus): Job -> bool {
    (j: Job) => j.status == st
  }

  // ---------------------------------------------------------------------------
  // Store operations

  /** `addJob`: the draft, under the fresh identifier `crypto.randomUUID()` would
      give, is appended after every existing application. */
  function AddJob(jobs: seq<Job>, d: JobDraft, freshId: Id): (r: seq<Job>)
    requires freshId !in JobIds(jobs)
    ensures |r| == |jobs| + 1
    ensures r[..|jobs|] == jobs
    ensures r[|jobs|].id == freshId && DraftOf(r[|jobs|]) == d
    ensures UniqueIds(jobs, JobId) ==> UniqueIds(r, JobId)
  {
    var r := jobs + [WithId(d, freshId)];
    assert r[..|jobs|] == jobs;
    AppendFreshKeepsUnique(jobs, WithId(d, freshId), JobId);
    r
  }

  /** `updateJob`: the application whose identifier matches absorbs the patch;
      every other application and the order are untouched. */
  function UpdateJob(jobs: seq<Job>, id: Id, p: JobPatch): (r: seq<Job>)
    ensures |r| == |jobs|
    ensures forall i :: 0 <= i < |jobs| && jobs[i].id != id ==> r[i] == jobs[i]
    ensures forall i :: 0 <= i < |jobs| && jobs[i].id == id ==> r[i] == MergeJob(jobs[i], p)
    ensures JobIds(r) == JobIds(jobs)
  {
    UpdateKeepsIds(jobs, JobId, id, Merger(p));
    UpdateWhere(jobs, JobId, id, Merger(p))
  }

  /** `updateJob` on an identifier that is not present is a no-op. */
  lemma UpdateAbsentJob(jobs: seq<Job>, id: Id, p: JobPatch)
    requires id !in JobIds(jobs)
    ensures UpdateJob(jobs, id, p) == jobs
  {
    UpdateAbsentIsNoop(jobs, JobId, id, Merger(p));
  }

  /** `deleteJob`: every application with that identifier is removed, the others
      are kept. */
  function DeleteJob(jobs: seq<Job>, id: Id): (r: seq<Job>)
    ensures id !in JobIds(r)
    ensures forall i :: 0 <= i < |r| ==> r[i] in jobs
    ensures forall i :: 0 <= i < |jobs| && jobs[i].id != id ==> jobs[i] in r
  {
    Remove(jobs, JobId, id)
  }

  /** `deleteJob` keeps the survivors in order and is idempotent; with unique
      identifiers it removes exactly one application when the identifier is present. */
  lemma DeleteJobProperties(jobs: seq<Job>, more: seq<Job>, id: Id)
    ensures DeleteJob(jobs + more, id) == DeleteJob(jobs, id) + DeleteJob(more, id)
    ensures DeleteJob(DeleteJob(jobs, id), id) == DeleteJob(jobs, id)
    ensures id !in JobIds(jobs) ==> DeleteJob(jobs, id) == jobs
    ensures UniqueIds(jobs, JobId) && id in JobIds(jobs) ==> |DeleteJob(jobs, id)| == |jobs| - 1
    ensures UniqueIds(jobs, JobId) ==> UniqueIds(DeleteJob(jobs, id), JobId)
  {
    RemoveAppend(jobs, more, JobId, id);
    RemoveIdempotent(jobs, JobId, id);
    if id !in JobIds(jobs) {
      RemoveAbsentIsNoop(jobs, JobId, id);
    }
    RemoveKeepsUnique(jobs, JobId, id);
    RemoveCount(jobs, JobId, id);
  }

  /** Deleting the application just added restores the list. */
  lemma AddThenDelete(jobs: seq<Job>, d: JobDraft, freshId: Id)
    requires freshId !in JobIds(jobs)
    ensures DeleteJob(AddJob(jobs, d, freshId), freshId) == jobs
  {
    AppendThenRemove(jobs, WithId(d, freshId), JobId);
  }

  /** `getJobsByStatus`: the applications with that status, in list order. */
  function JobsByStatus(jobs: seq<Job>, st: JobStatus): (r: seq<Job>)
    ensures forall i :: 0 <= i < |r| ==> r[i].status == st && r[i] in jobs
    ensures forall i :: 0 <= i < |jobs| && jobs[i].status == st ==> jobs[i] in r
  {
    var r := Filter(jobs, HasStatus(st));
    assert forall i :: 0 <= i < |r| ==> HasStatus(st)(r[i]);
    r
  }

  /** The by-status query is order preserving: it distributes over concatenation. */
  lemma JobsByStatusAppend(jobs: seq<Job>, more: seq<Job>, st: JobStatus)
    ensures JobsByStatus(jobs + more, st) == JobsByStatus(jobs, st) + JobsByStatus(more, st)
  {
    FilterAppend(jobs, more, HasStatus(st));
  }

  /** `getTotalJobs`. */
  function TotalJobs(jobs: seq<Job>): nat {
    |jobs|
  }

  function CountStatus(jobs: seq<Job>, st: JobStatus): nat {
    |JobsByStatus(jobs, st)|
  }

  /** The status enumeration has exactly four values, so the four by-status
      counts partition the total. */
  lemma {:induction false} StatusCountsSum(jobs: seq<Job>)
    ensures CountStatus(jobs, Applied) + CountStatus(jobs, Interviewing)
          + CountStatus(jobs, Offered) + CountStatus(jobs, Rejected) == TotalJobs(jobs)
    decreases |jobs|
  {
    if |jobs| > 0 {
      StatusCountsSum(jobs[1..]);
      assert jobs == [jobs[0]] + jobs[1..];
      JobsByStatusAppend([jobs[0]], jobs[1..], Applied);
      JobsByStatusAppend([jobs[0]], jobs[1..], Interviewing);
      JobsByStatusAppend([jobs[0]], jobs[1..], Offered);
      JobsByStatusAppend([jobs[0]], jobs[1..], Rejected);
    }
  }
}
