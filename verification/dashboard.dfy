/** The Dashboard page: four counters over the job list and the five most recent
    applications, newest first. */
module Dashboard {

  import opened Wrappers
  import opened Seqs
  import opened JobStore

  // ---------------------------------------------------------------------------
  // Counters

  datatype Stats = Stats(total: nat, applied: nat, interviewing: nat, offers: nat)

  /** `stats`: Total Applications, Applied, Interviewing and Offers. Rejected
      applications have no counter, so the three status counters never exceed the
      total and fall short of it by exactly the rejected ones. */
  function ComputeStats(jobs: seq<Job>): (s: Stats)
    ensures s.total == |jobs|
    ensures s.applied == |JobsByStatus(jobs, Applied)|
    ensures s.interviewing == |JobsByStatus(jobs, Interviewing)|
    ensures s.offers == |JobsByStatus(jobs, Offered)|
    ensures s.applied + s.interviewing + s.offers <= s.total
    ensures s.total - (s.applied + s.interviewing + s.offers) == |JobsByStatus(jobs, Rejected)|
  {
    StatusCountsSum(jobs);
    Stats(TotalJobs(jobs), |JobsByStatus(jobs, Applied)|, |JobsByStatus(jobs, Interviewing)|, |JobsByStatus(jobs, Offered)|)
  }

  // ---------------------------------------------------------------------------
  // Newest-first stable sort (`Array.prototype.sort` is stable)

  ghost predicate NewestFirst(s: seq<Job>) {
    forall i, j :: 0 <= i < j < |s| ==> s[i].applicationDate >= s[j].applicationDate
  }

  /** Places `x` in front of the first job that is not newer than it, so that among
      jobs of one date the earlier in the input stays first. */
  function Insert(x: Job, s: seq<Job>): (r: seq<Job>)
    ensures |r| == |s| + 1
    ensures multiset(r) == multiset(s) + multiset{x}
    decreases |s|
  {
    if |s| == 0 || x.applicationDate >= s[0].applicationDate then [x] + s
    else
      assert s == [s[0]] + s[1..];
      [s[0]] + Insert(x, s[1..])
  }

  lemma {:induction false} InsertNewestFirst(x: Job, s: seq<Job>)
    requires NewestFirst(s)
    ensures NewestFirst(Insert(x, s))
    decreases |s|
  {
    if |s| > 0 && x.applicationDate < s[0].applicationDate {
      var t := Insert(x, s[1..]);
      InsertNewestFirst(x, s[1..]);
      InsertStaysBelow(x, s[1..], s[0].applicationDate);
      assert Insert(x, s) == [s[0]] + t;
    }
  }

  /** Inserting a job no newer than `top` among jobs no newer than `top` keeps
      every job no newer than `top`. */
  lemma InsertStaysBelow(x: Job, s: seq<Job>, top: DateKey)
    requires x.applicationDate <= top
    requires forall k :: 0 <= k < |s| ==> s[k].applicationDate <= top
    ensures forall k :: 0 <= k < |Insert(x, s)| ==> Insert(x, s)[k].applicationDate <= top
  {
    var t := Insert(x, s);
    forall k | 0 <= k < |t| ensures t[k].applicationDate <= top {
      assert t[k] in multiset(t);
      assert t[k] in multiset(s) || t[k] == x;
    }
  }

  /** The comparator `(a, b) => date(b) - date(a)` under a stable sort. */
  function SortNewestFirst(s: seq<Job>): (r: seq<Job>)
    ensures |r| == |s|
    ensures multiset(r) == multiset(s)
    ensures NewestFirst(r)
    decreases |s|
  {
    if |s| == 0 then []
    else
      var t := SortNewestFirst(s[1..]);
      InsertNewestFirst(s[0], t);
      assert s == [s[0]] + s[1..];
      Insert(s[0], t)
  }

  /** The jobs applied for on day `d`, in list order. */
  function OnDate(s: seq<Job>, d: DateKey): seq<Job>
    decreases |s|
  {
    if |s| == 0 then []
    else (if s[0].applicationDate == d then [s[0]] else []) + OnDate(s[1..], d)
  }

  lemma {:induction false} InsertStable(x: Job, s: seq<Job>, d: DateKey)
    ensures OnDate(Insert(x, s), d) == (if x.applicationDate == d then [x] else []) + OnDate(s, d)
    decreases |s|
  {
    if |s| == 0 || x.applicationDate >= s[0].applicationDate {
      var r := Insert(x, s);
      assert r[0] == x && r[1..] == s;
      OnDateHead(r, d);
    } else {
      InsertStable(x, s[1..], d);
      InsertBehindStable(x, s, d);
    }
  }

  /** The step of `InsertStable` where `x` goes behind the first job: that job and
      `x` have different dates, so at most one of them is on day `d`. */
  lemma InsertBehindStable(x: Job, s: seq<Job>, d: DateKey)
    requires |s| > 0 && x.applicationDate < s[0].applicationDate
    requires OnDate(Insert(x, s[1..]), d) == (if x.applicationDate == d then [x] else []) + OnDate(s[1..], d)
    ensures OnDate(Insert(x, s), d) == (if x.applicationDate == d then [x] else []) + OnDate(s, d)
  {
    var r, t := Insert(x, s), Insert(x, s[1..]);
    var hx := if x.applicationDate == d then [x] else [];
    var hs := if s[0].applicationDate == d then [s[0]] else [];
    var rest := OnDate(s[1..], d);
    assert r == [s[0]] + t;
    assert r[0] == s[0] && r[1..] == t;
    OnDateHead(r, d);
    OnDateHead(s, d);
    assert OnDate(r, d) == hs + (hx + rest);
    assert OnDate(s, d) == hs + rest;
    if hx == [] {
      assert hx + rest == rest && hx + (hs + rest) == hs + rest;
    } else {
      assert hs == [];
      assert hs + (hx + rest) == hx + rest && hs + rest == rest;
    }
  }

  lemma OnDateHead(s: seq<Job>, d: DateKey)
    requires |s| > 0
    ensures OnDate(s, d) == (if s[0].applicationDate == d then [s[0]] else []) + OnDate(s[1..], d)
  {
  }

  /** Stability: the jobs of any one date appear in the sorted list in their input order. */
  lemma {:induction false} SortStable(s: seq<Job>, d: DateKey)
    ensures OnDate(SortNewestFirst(s), d) == OnDate(s, d)
    decreases |s|
  {
    if |s| > 0 {
      SortStable(s[1..], d);
      InsertStable(s[0], SortNewestFirst(s[1..]), d);
    }
  }

  // ---------------------------------------------------------------------------
  // Recent applications

  const RecentCount := 5

  /** Whatever a newest-first prefix leaves out is no newer than its last entry. */
  lemma PrefixBound(sorted: seq<Job>, k: nat)
    requires 0 < k <= |sorted| && NewestFirst(sorted)
    ensures forall x :: x in multiset(sorted) - multiset(sorted[..k]) ==> x.applicationDate <= sorted[k - 1].applicationDate
  {
    assert sorted == sorted[..k] + sorted[k..];
    assert multiset(sorted) == multiset(sorted[..k]) + multiset(sorted[k..]);
    forall x | x in multiset(sorted) - multiset(sorted[..k])
      ensures x.applicationDate <= sorted[k - 1].applicationDate
    {
      assert x in multiset(sorted[k..]);
      var m :| 0 <= m < |sorted[k..]| && sorted[k..][m] == x;
      assert sorted[k + m] == x;
    }
  }

  /** `recentJobs`: the first five of the newest-first order. */
  function RecentJobs(jobs: seq<Job>): (r: seq<Job>)
    ensures |r| == if |jobs| < RecentCount then |jobs| else RecentCount
    ensures NewestFirst(r)
    ensures multiset(r) <= multiset(jobs)
    ensures forall x :: x in multiset(jobs) - multiset(r) ==> x.applicationDate <= r[|r| - 1].applicationDate
    ensures r == SortNewestFirst(jobs)[..if |jobs| < RecentCount then |jobs| else RecentCount]
  {
    var r := SortNewestFirst(jobs)[..if |jobs| < RecentCount then |jobs| else RecentCount];
    RecentJobsFacts(jobs, r);
    r
  }

  /** What taking the front of the newest-first order gives. */
  lemma RecentJobsFacts(jobs: seq<Job>, r: seq<Job>)
    requires r == SortNewestFirst(jobs)[..if |jobs| < RecentCount then |jobs| else RecentCount]
    ensures |r| == if |jobs| < RecentCount then |jobs| else RecentCount
    ensures NewestFirst(r)
    ensures multiset(r) <= multiset(jobs)
    ensures forall x :: x in multiset(jobs) - multiset(r) ==> |r| > 0 && x.applicationDate <= r[|r| - 1].applicationDate
  {
    NewestFirstPrefix(jobs, SortNewestFirst(jobs), r);
  }

  /** A prefix of a newest-first arrangement of `jobs` is newest first and drawn
      from `jobs`, and any job it leaves out is no newer than its last entry. */
  lemma NewestFirstPrefix(jobs: seq<Job>, sorted: seq<Job>, r: seq<Job>)
    requires NewestFirst(sorted) && multiset(sorted) == multiset(jobs)
    requires r <= sorted
    requires |r| > 0 || |sorted| == 0
    ensures NewestFirst(r)
    ensures multiset(r) <= multiset(jobs)
    ensures forall x :: x in multiset(jobs) - multiset(r) ==> |r| > 0 && x.applicationDate <= r[|r| - 1].applicationDate
  {
    PrefixSplit(sorted, r);
    PrefixKeepsOrder(sorted, r);
    if |r| > 0 {
      PrefixBound(sorted, |r|);
      assert sorted[..|r|] == r;
    }
  }

  lemma PrefixSplit(sorted: seq<Job>, r: seq<Job>)
    requires r <= sorted
    ensures multiset(sorted) == multiset(r) + multiset(sorted[|r|..])
  {
    assert sorted == r + sorted[|r|..];
  }

  lemma PrefixKeepsOrder(sorted: seq<Job>, r: seq<Job>)
    requires NewestFirst(sorted) && r <= sorted
    ensures NewestFirst(r)
  {
    forall i, j | 0 <= i < j < |r| ensures r[i].applicationDate >= r[j].applicationDate {
      assert r[i] == sorted[i] && r[j] == sorted[j];
    }
  }

  /** Cutting a list short keeps, of the jobs on any one day, a leading run of them. */
  lemma {:induction false} OnDatePrefix(s: seq<Job>, k: nat, d: DateKey)
    requires k <= |s|
    ensures OnDate(s[..k], d) <= OnDate(s, d)
    decreases |s|
  {
    if k > 0 {
      OnDateHead(s, d);
      OnDateHead(s[..k], d);
      assert s[..k][1..] == s[1..][..k - 1];
      OnDatePrefix(s[1..], k - 1, d);
    }
  }

  /** The recent list is stable: of the jobs applied for on any one day it shows a
      leading run in store order, so a tie at the last place goes to the job
      earlier in the store. */
  lemma RecentJobsStable(jobs: seq<Job>, d: DateKey)
    ensures OnDate(RecentJobs(jobs), d) <= OnDate(jobs, d)
  {
    SortStable(jobs, d);
    OnDatePrefix(SortNewestFirst(jobs), if |jobs| < RecentCount then |jobs| else RecentCount, d);
  }

  // ---------------------------------------------------------------------------
  // The page

  datatype View = View(stats: Stats, recent: seq<Job>)

  /** The page as written: `jobs.sort(...)` sorts the store's own array in place,
      so rendering the dashboard also leaves the store's list newest first.
      Returns the view and the store's list after the render. */
  function RenderAsWritten(jobs: seq<Job>): (r: (View, seq<Job>))
    ensures r.0 == View(ComputeStats(jobs), RecentJobs(jobs))
    ensures multiset(r.1) == multiset(jobs) && NewestFirst(r.1)
  {
    (View(ComputeStats(jobs), RecentJobs(jobs)), SortNewestFirst(jobs))
  }

  /** Two jobs added oldest first come out of a dashboard render in the other order:
      the Jobs page, which lists the store in insertion order, then shows them
      newest first. */
  lemma RenderAsWrittenReordersStore()
    ensures var a := Job("a", "Acme", "Engineer", Applied, 1, None, None, None, None);
            var b := Job("b", "Beta", "Analyst", Applied, 2, None, None, None, None);
            RenderAsWritten([a, b]).1 == [b, a] != [a, b]
  {
    var a := Job("a", "Acme", "Engineer", Applied, 1, None, None, None, None);
    var b := Job("b", "Beta", "Analyst", Applied, 2, None, None, None, None);
    assert [a, b][1..] == [b];
    assert SortNewestFirst([b]) == Insert(b, []) == [b];
    assert Insert(a, [b]) == [b] + Insert(a, []) == [b, a];
    assert SortNewestFirst([a, b]) == [b, a];
  }

  /** The page as evidently intended (sorting a copy, `[...jobs].sort(...)`): the
      view is the same and the store's list is left as it was. */
  function Render(jobs: seq<Job>): (r: (View, seq<Job>))
    ensures r.1 == jobs
    ensures r.0.stats.total == |jobs| && |r.0.recent| <= RecentCount
    ensures r.0 == RenderAsWritten(jobs).0
  {
    (View(ComputeStats(jobs), RecentJobs(jobs)), jobs)
  }

  /** Rendering the dashboard any number of times leaves the store as it was. */
  lemma RenderIsReadOnly(jobs: seq<Job>)
    ensures Render(Render(jobs).1).1 == jobs
    ensures Render(Render(jobs).1).0 == Render(jobs).0
  {
  }
}
