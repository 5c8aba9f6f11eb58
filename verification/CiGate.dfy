/**
 * The complete CI gate: find the latest eligible run over a paginated listing, load every job of its attempt,
 * judge the jobs, and list the runs again.
 */
module CiGate {
  import opened Prelude
  import opened CiTimeline

  const REPOSITORY := "Yunushan/leaguebridge"
  const WORKFLOW_PATH := ".github/workflows/ci.yml"
  const PAGE_SIZE := 100
  const MAXIMUM_ENTRIES := 1000
  const NO_RUN := Run(0, 0, 0, "", "", "", "", "", "", "", "")

  // ---------------------------------------------------------------- listing runs

  predicate Listable(r: Run, workflowId: int, commit: string) {
    && r.id > 0 && r.attempt > 0
    && r.workflowId == workflowId && r.path == WORKFLOW_PATH && r.commit == commit && r.branch == "main"
    && r.repository == REPOSITORY && r.headRepository == REPOSITORY
  }

  predicate Eligible(r: Run) {
    r.event == "push" || r.event == "workflow_dispatch"
  }

  predicate DistinctIds(rs: seq<Run>) {
    forall i, j :: 0 <= i < j < |rs| ==> rs[i].id != rs[j].id
  }

  function Ids(rs: seq<Run>): set<int> {
    set r | r in rs :: r.id
  }

  function Listed(pages: seq<RunPage>): seq<Run> {
    if pages == [] then [] else Listed(pages[..|pages| - 1]) + pages[|pages| - 1].runs
  }

  /** One more page extends a sound listing: same declared total, within bounds, no repeated or foreign run. */
  predicate PageFits(page: RunPage, before: seq<Run>, total: int, workflowId: int, commit: string) {
    && page.total == total && 0 <= total <= MAXIMUM_ENTRIES && |page.runs| <= PAGE_SIZE
    && |before| + |page.runs| <= total
    && (page.runs == [] ==> |before| == total)
    && (forall r | r in page.runs :: Listable(r, workflowId, commit))
    && DistinctIds(before + page.runs)
  }

  predicate SoundPages(pages: seq<RunPage>, workflowId: int, commit: string) {
    pages != [] ==>
      var before := pages[..|pages| - 1];
      && SoundPages(before, workflowId, commit)
      && PageFits(pages[|pages| - 1], Listed(before), pages[0].total, workflowId, commit)
  }

  predicate CompleteInventory(pages: seq<RunPage>, workflowId: int, commit: string) {
    && pages != []
    && SoundPages(pages, workflowId, commit)
    && |Listed(pages)| == pages[0].total
  }

  /** What completeness means: one stable total, as many distinct runs as it declares, all of them admissible. */
  lemma {:induction false} CompleteInventoryMeans(pages: seq<RunPage>, workflowId: int, commit: string)
    requires SoundPages(pages, workflowId, commit)
    ensures forall k | 0 <= k < |pages| :: pages[k].total == pages[0].total && |pages[k].runs| <= PAGE_SIZE
    ensures pages != [] ==> |Listed(pages)| <= pages[0].total <= MAXIMUM_ENTRIES
    ensures DistinctIds(Listed(pages)) && |Ids(Listed(pages))| == |Listed(pages)|
    ensures forall r | r in Listed(pages) :: Listable(r, workflowId, commit)
  {
    var listed := Listed(pages);
    if pages != [] {
      CompleteInventoryMeans(pages[..|pages| - 1], workflowId, commit);
      assert forall k | 0 <= k < |pages| - 1 :: pages[..|pages| - 1][k] == pages[k];
    }
    var ids := seq(|listed|, i requires 0 <= i < |listed| => listed[i].id);
    DistinctSize(ids);
    assert (set x | x in ids) == Ids(listed) by {
      forall x | x in Ids(listed)
        ensures x in ids
      {
        var i :| 0 <= i < |listed| && listed[i].id == x;
        assert ids[i] == x;
      }
    }
  }

  predicate IsHighestEligible(run: Run, listed: seq<Run>) {
    run in listed && Eligible(run) && forall r | r in listed && Eligible(r) :: r.id <= run.id
  }

  predicate HasEligible(listed: seq<Run>) {
    exists r :: r in listed && Eligible(r)
  }

  /** The loop variable of the scan: the highest eligible run so far, or the zero run when there is none. */
  predicate IsLatest(latest: Run, listed: seq<Run>) {
    latest.id >= 0 && if latest.id == 0 then !HasEligible(listed) else IsHighestEligible(latest, listed)
  }

  lemma RepeatedIdIsNotDistinct(before: seq<Run>, runs: seq<Run>, i: nat)
    requires i < |runs| && runs[i].id in Ids(before + runs[..i])
    ensures !DistinctIds(before + runs)
  {
    var all := before + runs;
    var k :| 0 <= k < |before + runs[..i]| && (before + runs[..i])[k].id == runs[i].id;
    assert all[k] == (before + runs[..i])[k] && all[|before| + i] == runs[i];
  }

  /** One page's runs: reject the first inadmissible or repeated run, and keep the highest eligible one. */
  method ScanPage(runs: seq<Run>, workflowId: int, commit: string, seen0: set<int>, latest0: Run, ghost before: seq<Run>)
    returns (ok: bool, seen: set<int>, latest: Run)
    requires seen0 == Ids(before) && DistinctIds(before) && IsLatest(latest0, before)
    ensures ok <==> (forall r | r in runs :: Listable(r, workflowId, commit)) && DistinctIds(before + runs)
    ensures ok ==> seen == Ids(before + runs) && IsLatest(latest, before + runs)
  {
    hide IsLatest, Eligible;
    seen, latest := seen0, latest0;
    assert before + runs[..0] == before;
    for i := 0 to |runs|
      invariant seen == Ids(before + runs[..i]) && DistinctIds(before + runs[..i])
      invariant forall r | r in runs[..i] :: Listable(r, workflowId, commit)
      invariant IsLatest(latest, before + runs[..i])
    {
      var candidate := runs[i];
      assert candidate in runs;
      ghost var scanned := before + runs[..i];
      assert before + runs[..i + 1] == scanned + [candidate];
      if candidate.id in seen {
        RepeatedIdIsNotDistinct(before, runs, i);
      }
      if candidate.id <= 0 || candidate.attempt <= 0 || candidate.id in seen {
        return false, seen, latest;
      }
      seen := seen + {candidate.id};
      if candidate.workflowId != workflowId || candidate.path != WORKFLOW_PATH || candidate.commit != commit
         || candidate.branch != "main" || candidate.repository != REPOSITORY || candidate.headRepository != REPOSITORY
      {
        return false, seen, latest;
      }
      LatestOfMore(scanned, candidate, latest);
      if Eligible(candidate) && candidate.id > latest.id {
        latest := candidate;
      }
    }
    assert runs[..|runs|] == runs;
    ok := true;
  }

  lemma LatestOfMore(scanned: seq<Run>, candidate: Run, latest: Run)
    requires IsLatest(latest, scanned) && candidate.id > 0
    ensures Ids(scanned + [candidate]) == Ids(scanned) + {candidate.id}
    ensures IsLatest(if Eligible(candidate) && candidate.id > latest.id then candidate else latest, scanned + [candidate])
  {
  }

  function RunPages(trail: seq<Exchange>): seq<RunPage> {
    if trail == [] then [] else
      RunPages(trail[..|trail| - 1])
      + if trail[|trail| - 1].RunsRead? then [trail[|trail| - 1].runPage] else []
  }

  /** The calls of one listing: pages one, two, three and so on of the same query, at most ten of them. */
  predicate ListingTrail(trail: seq<Exchange>, workflowId: int, commit: string) {
    && |trail| <= MAXIMUM_ENTRIES / PAGE_SIZE
    && (forall k | 0 <= k < |trail| ::
          || (trail[k].Failed? && k == |trail| - 1)
          || (trail[k].RunsRead? && trail[k].workflowId == workflowId && trail[k].commit == commit && trail[k].page == k + 1))
  }

  lemma ExtendTrail(trail: seq<Exchange>, e: Exchange, workflowId: int, commit: string)
    ensures RunPages(trail + [e]) == RunPages(trail) + if e.RunsRead? then [e.runPage] else []
    ensures NoFailure(trail + [e]) <==> NoFailure(trail) && !e.Failed?
    ensures NoFailure(trail) && ListingTrail(trail, workflowId, commit) && |trail| < MAXIMUM_ENTRIES / PAGE_SIZE
            && (e.Failed? || (e.RunsRead? && e.workflowId == workflowId && e.commit == commit && e.page == |trail| + 1))
            ==> ListingTrail(trail + [e], workflowId, commit)
  {
    RunPagesOfMore(trail, e);
    ExtendNoFailure(trail, e);
    hide RunPages;
    if NoFailure(trail) {
      assert forall k | 0 <= k < |trail| :: trail[k] in trail && !trail[k].Failed?;
    }
  }

  lemma RunPagesOfMore(trail: seq<Exchange>, e: Exchange)
    ensures RunPages(trail + [e]) == RunPages(trail) + if e.RunsRead? then [e.runPage] else []
  {
    var longer := trail + [e];
    assert longer[..|longer| - 1] == trail && longer[|trail|] == e;
  }

  lemma ExtendPages(pages: seq<RunPage>, page: RunPage, workflowId: int, commit: string)
    ensures Listed(pages + [page]) == Listed(pages) + page.runs
    ensures SoundPages(pages + [page], workflowId, commit) <==>
            && SoundPages(pages, workflowId, commit)
            && PageFits(page, Listed(pages), (pages + [page])[0].total, workflowId, commit)
  {
    var longer := pages + [page];
    assert longer[..|longer| - 1] == pages && longer[|pages|] == page;
  }

  /** The variables of the page loop. */
  datatype Scan = Scan(seen: set<int>, total: int, count: int, latest: Run)

  /** The loop variables describe the pages read so far, which are sound. */
  ghost predicate Tracks(scan: Scan, pages: seq<RunPage>, workflowId: int, commit: string) {
    && SoundPages(pages, workflowId, commit)
    && scan.total == (if pages == [] then -1 else pages[0].total)
    && scan.count == |Listed(pages)| && scan.seen == Ids(Listed(pages))
    && IsLatest(scan.latest, Listed(pages))
  }

  /** The body of the page loop: take in one page, or reject it because it does not fit the pages before it. */
  method TakePage(scan: Scan, response: RunPage, workflowId: int, commit: string, ghost pages: seq<RunPage>)
    returns (next: Option<Scan>)
    requires Tracks(scan, pages, workflowId, commit)
    ensures next.Some? <==> SoundPages(pages + [response], workflowId, commit)
    ensures next.Some? ==> Tracks(next.value, pages + [response], workflowId, commit)
  {
    ExtendPages(pages, response, workflowId, commit);
    if pages != [] {
      CompleteInventoryMeans(pages, workflowId, commit);
    }
    var runs := response.runs;
    if response.total < 0 || response.total > MAXIMUM_ENTRIES || |runs| > PAGE_SIZE
       || (scan.total >= 0 && scan.total != response.total)
    {
      return None;
    }
    var count := scan.count + |runs|;
    if count > response.total || (|runs| == 0 && count != response.total) {
      return None;
    }
    var ok, seen, latest := ScanPage(runs, workflowId, commit, scan.seen, scan.latest, Listed(pages));
    next := if ok then Some(Scan(seen, response.total, count, latest)) else None;
  }

  /** A listing whose calls all succeeded, whose pages are one complete inventory, and that has an eligible run. */
  ghost predicate Usable(trail: seq<Exchange>, workflowId: int, commit: string) {
    && NoFailure(trail)
    && CompleteInventory(RunPages(trail), workflowId, commit)
    && HasEligible(Listed(RunPages(trail)))
  }

  /** The loop invariant: every call so far returned a sound page, and the inventory is not complete yet. */
  ghost predicate Reading(scan: Scan, trail: seq<Exchange>, workflowId: int, commit: string) {
    && ListingTrail(trail, workflowId, commit) && NoFailure(trail) && |RunPages(trail)| == |trail|
    && Tracks(scan, RunPages(trail), workflowId, commit)
  }

  /** One iteration: read page `|trail| + 1` and take it in; `None` when the listing has become unusable. */
  method ReadPage(api: Api, workflowId: int, commit: string, scan: Scan, page: nat, ghost trail: seq<Exchange>)
    returns (next: Option<Scan>, ghost read: Exchange)
    requires api.Valid() && Reading(scan, trail, workflowId, commit)
    requires page == |trail| + 1 && page <= MAXIMUM_ENTRIES / PAGE_SIZE
    modifies api
    ensures api.Valid() && api.log == old(api.log) + [read]
    ensures ListingTrail(trail + [read], workflowId, commit)
    ensures next.Some? ==> Reading(next.value, trail + [read], workflowId, commit)
    ensures next.None? ==> !Usable(trail + [read], workflowId, commit)
  {
    var response := api.ReadRuns(workflowId, commit, page);
    read := api.log[|api.log| - 1];
    ExtendTrail(trail, read, workflowId, commit);
    if response.None? {
      return None, read;
    }
    next := TakePage(scan, response.value, workflowId, commit, RunPages(trail));
  }

  lemma Conclude(scan: Scan, trail: seq<Exchange>, workflowId: int, commit: string)
    requires Reading(scan, trail, workflowId, commit) && trail != []
    ensures ListingTrail(trail, workflowId, commit)
    ensures Usable(trail, workflowId, commit) <==> scan.count == scan.total && scan.latest.id != 0
    ensures Usable(trail, workflowId, commit) ==> IsHighestEligible(scan.latest, Listed(RunPages(trail)))
  {
  }

  lemma NothingRead(workflowId: int, commit: string)
    ensures Reading(Scan({}, -1, 0, NO_RUN), [], workflowId, commit)
  {
  }

  /**
   * The page loop. It reads at most ten pages and succeeds exactly when the listing is usable; the result is then
   * the eligible run with the highest ID.
   */
  method LatestRun(api: Api, workflowId: int, commit: string) returns (result: Option<Run>, ghost trail: seq<Exchange>)
    requires api.Valid()
    modifies api
    ensures api.Valid() && api.log == old(api.log) + trail
    ensures trail != [] && ListingTrail(trail, workflowId, commit)
    ensures result.Some? <==> Usable(trail, workflowId, commit)
    ensures result.Some? ==> IsHighestEligible(result.value, Listed(RunPages(trail)))
  {
    hide Usable, Reading, IsHighestEligible, Listed, RunPages, ListingTrail;
    var scan := Scan({}, -1, 0, NO_RUN);
    trail := [];
    NothingRead(workflowId, commit);
    var page := 1;
    while page <= MAXIMUM_ENTRIES / PAGE_SIZE
      invariant page == |trail| + 1 <= MAXIMUM_ENTRIES / PAGE_SIZE + 1
      invariant api.Valid() && api.log == old(api.log) + trail
      invariant Reading(scan, trail, workflowId, commit) && scan.count != scan.total
    {
      var next, read := ReadPage(api, workflowId, commit, scan, page, trail);
      trail := trail + [read];
      if next.None? {
        return None, trail;
      }
      scan := next.value;
      if scan.count == scan.total {
        break;
      }
      page := page + 1;
    }
    Conclude(scan, trail, workflowId, commit);
    if scan.count != scan.total || scan.latest.id == 0 {
      return None, trail;
    }
    return Some(scan.latest), trail;
  }

  /** The highest eligible run of a listing without repeated IDs is unique. */
  lemma HighestIsUnique(a: Run, b: Run, listed: seq<Run>)
    requires DistinctIds(listed) && IsHighestEligible(a, listed) && IsHighestEligible(b, listed)
    ensures a == b
  {
    var i :| 0 <= i < |listed| && listed[i] == a;
    var j :| 0 <= j < |listed| && listed[j] == b;
    assert a.id == b.id;
    assert i == j;
  }

  // ---------------------------------------------------------------- loading and judging jobs

  function JobList(pages: seq<JobPage>): seq<Job> {
    if pages == [] then [] else JobList(pages[..|pages| - 1]) + pages[|pages| - 1].jobs
  }

  predicate JobPageFits(page: JobPage, before: seq<Job>, total: int) {
    && page.total == total && 0 < total <= MAXIMUM_ENTRIES && |page.jobs| <= PAGE_SIZE
    && |before| + |page.jobs| <= total
    && (page.jobs == [] ==> |before| == total)
  }

  predicate SoundJobPages(pages: seq<JobPage>) {
    pages != [] ==>
      var before := pages[..|pages| - 1];
      SoundJobPages(before) && JobPageFits(pages[|pages| - 1], JobList(before), pages[0].total)
  }

  predicate CompleteJobs(pages: seq<JobPage>) {
    pages != [] && SoundJobPages(pages) && |JobList(pages)| == pages[0].total
  }

  /** A complete job inventory has one stable total, and as many jobs as it declares. */
  lemma {:induction false} SoundJobPagesMean(pages: seq<JobPage>)
    requires SoundJobPages(pages)
    ensures forall k | 0 <= k < |pages| :: pages[k].total == pages[0].total && |pages[k].jobs| <= PAGE_SIZE
    ensures pages != [] ==> |JobList(pages)| <= pages[0].total <= MAXIMUM_ENTRIES
    ensures forall k | 0 <= k < |pages| :: forall j | j in pages[k].jobs :: j in JobList(pages)
    ensures forall j | j in JobList(pages) :: exists k :: 0 <= k < |pages| && j in pages[k].jobs
  {
    if pages != [] {
      var before := pages[..|pages| - 1];
      SoundJobPagesMean(before);
      assert forall k | 0 <= k < |pages| - 1 :: before[k] == pages[k];
      forall j | j in JobList(pages)
        ensures exists k :: 0 <= k < |pages| && j in pages[k].jobs
      {
        if j in JobList(before) {
          var k :| 0 <= k < |before| && j in before[k].jobs;
          assert j in pages[k].jobs;
        } else {
          assert j in pages[|pages| - 1].jobs;
        }
      }
    }
  }

  function JobPages(trail: seq<Exchange>): seq<JobPage> {
    if trail == [] then [] else
      JobPages(trail[..|trail| - 1])
      + if trail[|trail| - 1].JobsRead? then [trail[|trail| - 1].jobPage] else []
  }

  predicate JobTrail(trail: seq<Exchange>, run: Run) {
    && |trail| <= MAXIMUM_ENTRIES / PAGE_SIZE
    && (forall k | 0 <= k < |trail| ::
          || (trail[k].Failed? && k == |trail| - 1)
          || (trail[k].JobsRead? && trail[k].runId == run.id && trail[k].runAttempt == run.attempt && trail[k].page == k + 1))
  }

  ghost predicate JobsLoaded(trail: seq<Exchange>) {
    NoFailure(trail) && CompleteJobs(JobPages(trail))
  }

  lemma ExtendJobTrail(trail: seq<Exchange>, e: Exchange, run: Run)
    ensures JobPages(trail + [e]) == JobPages(trail) + if e.JobsRead? then [e.jobPage] else []
    ensures NoFailure(trail + [e]) <==> NoFailure(trail) && !e.Failed?
    ensures NoFailure(trail) && JobTrail(trail, run) && |trail| < MAXIMUM_ENTRIES / PAGE_SIZE
            && (e.Failed? || (e.JobsRead? && e.runId == run.id && e.runAttempt == run.attempt && e.page == |trail| + 1))
            ==> JobTrail(trail + [e], run)
  {
    JobPagesOfMore(trail, e);
    ExtendNoFailure(trail, e);
    hide JobPages;
    if NoFailure(trail) {
      assert forall k | 0 <= k < |trail| :: trail[k] in trail && !trail[k].Failed?;
    }
  }

  lemma JobPagesOfMore(trail: seq<Exchange>, e: Exchange)
    ensures JobPages(trail + [e]) == JobPages(trail) + if e.JobsRead? then [e.jobPage] else []
  {
    var longer := trail + [e];
    assert longer[..|longer| - 1] == trail && longer[|trail|] == e;
  }

  lemma ExtendNoFailure(trail: seq<Exchange>, e: Exchange)
    ensures NoFailure(trail + [e]) <==> NoFailure(trail) && !e.Failed?
  {
    var longer := trail + [e];
    assert longer[|trail|] == e;
    assert forall x | x in trail :: x in longer;
    assert forall x | x in longer :: x in trail || x == e;
  }

  lemma ExtendJobPages(pages: seq<JobPage>, page: JobPage)
    ensures JobList(pages + [page]) == JobList(pages) + page.jobs
    ensures SoundJobPages(pages + [page]) <==>
            SoundJobPages(pages) && JobPageFits(page, JobList(pages), (pages + [page])[0].total)
  {
    var longer := pages + [page];
    assert longer[..|longer| - 1] == pages && longer[|pages|] == page;
  }

  ghost predicate LoadingJobs(jobs: seq<Job>, total: int, trail: seq<Exchange>, run: Run) {
    var pages := JobPages(trail);
    && JobTrail(trail, run) && NoFailure(trail) && |pages| == |trail|
    && SoundJobPages(pages) && jobs == JobList(pages)
    && total == (if pages == [] then -1 else pages[0].total)
  }

  /** One iteration of the job loop. */
  method ReadJobPage(api: Api, run: Run, jobs: seq<Job>, total: int, page: nat, ghost trail: seq<Exchange>)
    returns (next: Option<(seq<Job>, int)>, ghost read: Exchange)
    requires api.Valid() && LoadingJobs(jobs, total, trail, run)
    requires page == |trail| + 1 && page <= MAXIMUM_ENTRIES / PAGE_SIZE
    modifies api
    ensures api.Valid() && api.log == old(api.log) + [read]
    ensures JobTrail(trail + [read], run)
    ensures next.Some? ==> LoadingJobs(next.value.0, next.value.1, trail + [read], run)
    ensures next.None? ==> !JobsLoaded(trail + [read])
  {
    hide LoadingJobs, JobTrail, JobsLoaded;
    var response := api.ReadJobs(run.id, run.attempt, page);
    read := api.log[|api.log| - 1];
    if response.None? {
      JobReadFailed(jobs, total, trail, run, read);
      return None, read;
    }
    var answer := response.value;
    JobPageDecides(jobs, total, trail, run, read);
    if answer.total <= 0 || answer.total > MAXIMUM_ENTRIES || |answer.jobs| > PAGE_SIZE
       || (total >= 0 && total != answer.total)
    {
      return None, read;
    }
    var longer := jobs + answer.jobs;
    if |longer| > answer.total || (|answer.jobs| == 0 && |longer| != answer.total) {
      return None, read;
    }
    return Some((longer, answer.total)), read;
  }

  lemma JobReadFailed(jobs: seq<Job>, total: int, trail: seq<Exchange>, run: Run, read: Exchange)
    requires LoadingJobs(jobs, total, trail, run) && |trail| < MAXIMUM_ENTRIES / PAGE_SIZE && read.Failed?
    ensures JobTrail(trail + [read], run) && !JobsLoaded(trail + [read])
  {
    ExtendJobTrail(trail, read, run);
    hide JobTrail, NoFailure, CompleteJobs, JobPages;
  }

  /** What the running checks ask of the next page decides whether the pages can still be an inventory. */
  lemma JobPageDecides(jobs: seq<Job>, total: int, trail: seq<Exchange>, run: Run, read: Exchange)
    requires LoadingJobs(jobs, total, trail, run) && |trail| < MAXIMUM_ENTRIES / PAGE_SIZE
    requires read.JobsRead? && read.runId == run.id && read.runAttempt == run.attempt && read.page == |trail| + 1
    ensures JobTrail(trail + [read], run)
    ensures var answer, longer := read.jobPage, jobs + read.jobPage.jobs;
            if && 0 < answer.total <= MAXIMUM_ENTRIES && |answer.jobs| <= PAGE_SIZE
               && (total >= 0 ==> total == answer.total)
               && |longer| <= answer.total && (|answer.jobs| == 0 ==> |longer| == answer.total)
            then LoadingJobs(longer, answer.total, trail + [read], run)
            else !JobsLoaded(trail + [read])
  {
    var pages := JobPages(trail);
    ExtendJobTrail(trail, read, run);
    ExtendJobPages(pages, read.jobPage);
    hide JobTrail, NoFailure, JobPages, JobList;
    if pages != [] {
      FirstJobTotal(pages);
    }
  }

  lemma FirstJobTotal(pages: seq<JobPage>)
    requires SoundJobPages(pages) && pages != []
    ensures pages[0].total > 0
  {
    SoundJobPagesMean(pages);
  }

  lemma ConcludeJobs(jobs: seq<Job>, total: int, trail: seq<Exchange>, run: Run)
    requires LoadingJobs(jobs, total, trail, run) && trail != []
    ensures JobsLoaded(trail) <==> |jobs| == total
    ensures jobs == JobList(JobPages(trail))
  {
  }

  lemma NothingLoaded(run: Run)
    ensures JobTrail([], run) && LoadingJobs([], -1, [], run)
  {
  }

  /** Load every job of one attempt; succeeds exactly when the pages read are one complete job inventory. */
  method LoadJobs(api: Api, run: Run) returns (result: Option<seq<Job>>, ghost trail: seq<Exchange>)
    requires api.Valid()
    modifies api
    ensures api.Valid() && api.log == old(api.log) + trail
    ensures trail != [] && JobTrail(trail, run)
    ensures result.Some? <==> JobsLoaded(trail)
    ensures result.Some? ==> result.value == JobList(JobPages(trail))
  {
    hide LoadingJobs, JobsLoaded, JobList, JobPages, JobTrail;
    var jobs: seq<Job>, total := [], -1;
    trail := [];
    NothingLoaded(run);
    var page := 1;
    while page <= MAXIMUM_ENTRIES / PAGE_SIZE
      invariant page == |trail| + 1 <= MAXIMUM_ENTRIES / PAGE_SIZE + 1
      invariant api.Valid() && api.log == old(api.log) + trail
      invariant JobTrail(trail, run) && LoadingJobs(jobs, total, trail, run) && |jobs| != total
    {
      var next, read := ReadJobPage(api, run, jobs, total, page, trail);
      trail := trail + [read];
      if next.None? {
        return None, trail;
      }
      jobs, total := next.value.0, next.value.1;
      ConcludeJobs(jobs, total, trail, run);
      if |jobs| == total {
        return Some(jobs), trail;
      }
      page := page + 1;
    }
    ConcludeJobs(jobs, total, trail, run);
    return None, trail;
  }

  predicate JobPasses(j: Job, run: Run) {
    && j.id > 0 && j.name != ""
    && j.runId == run.id && (j.attempt.Some? ==> j.attempt.value == run.attempt) && j.commit == run.commit
    && j.status == COMPLETED && j.conclusion == SUCCESS
  }

  predicate JobsDiffer(jobs: seq<Job>) {
    forall i, j :: 0 <= i < j < |jobs| ==> jobs[i].id != jobs[j].id && jobs[i].name != jobs[j].name
  }

  /** Every job succeeded and belongs to the attempt, IDs and names are unique, and every required name is there. */
  predicate JobsAccepted(run: Run, jobs: seq<Job>, required: seq<string>) {
    && (forall j | j in jobs :: JobPasses(j, run))
    && JobsDiffer(jobs)
    && (forall name | name in required :: exists j :: j in jobs && j.name == name)
  }

  method VerifyJobs(run: Run, jobs: seq<Job>, required: seq<string>) returns (ok: bool)
    ensures ok <==> JobsAccepted(run, jobs, required)
  {
    hide JobPasses, JobsDiffer, JobNames, JobIds;
    NoJobs();
    var names: set<string>, ids: set<int> := {}, {};
    for i := 0 to |jobs|
      invariant names == JobNames(jobs[..i]) && ids == JobIds(jobs[..i])
      invariant (forall j | j in jobs[..i] :: JobPasses(j, run)) && JobsDiffer(jobs[..i])
    {
      var item := jobs[i];
      assert item in jobs && jobs[..i + 1] == jobs[..i] + [item];
      OneMoreJob(jobs[..i], item);
      JobPassing(item, run);
      if item.id <= 0 || item.id in ids || item.name == "" || item.name in names {
        if item.id in ids || item.name in names {
          DifferInPrefix(jobs, i + 1);
        }
        return false;
      }
      if item.runId != run.id || (item.attempt.Some? && item.attempt.value != run.attempt) || item.commit != run.commit {
        return false;
      }
      if item.status != COMPLETED || item.conclusion != SUCCESS {
        return false;
      }
      ids, names := ids + {item.id}, names + {item.name};
    }
    assert jobs[..|jobs|] == jobs;
    NamesOfJobs(jobs);
    for i := 0 to |required|
      invariant forall k | 0 <= k < i :: required[k] in names
    {
      if required[i] !in names {
        assert required[i] in required;
        return false;
      }
    }
    ok := true;
  }

  ghost function JobNames(jobs: seq<Job>): set<string> {
    set j | j in jobs :: j.name
  }

  ghost function JobIds(jobs: seq<Job>): set<int> {
    set j | j in jobs :: j.id
  }

  lemma NoJobs()
    ensures JobNames([]) == {} && JobIds([]) == {} && JobsDiffer([])
  {
  }

  lemma NamesOfJobs(jobs: seq<Job>)
    ensures forall name :: name in JobNames(jobs) <==> exists j :: j in jobs && j.name == name
  {
  }

  lemma JobPassing(j: Job, run: Run)
    ensures JobPasses(j, run) <==>
            && j.id > 0 && j.name != ""
            && j.runId == run.id && (j.attempt.Some? ==> j.attempt.value == run.attempt) && j.commit == run.commit
            && j.status == COMPLETED && j.conclusion == SUCCESS
  {
  }

  lemma DifferInPrefix(jobs: seq<Job>, n: nat)
    requires n <= |jobs| && !JobsDiffer(jobs[..n])
    ensures !JobsDiffer(jobs)
  {
  }

  lemma OneMoreJob(jobs: seq<Job>, job: Job)
    ensures JobsDiffer(jobs + [job]) <==> JobsDiffer(jobs) && job.id !in JobIds(jobs) && job.name !in JobNames(jobs)
    ensures JobNames(jobs + [job]) == JobNames(jobs) + {job.name} && JobIds(jobs + [job]) == JobIds(jobs) + {job.id}
  {
    var more := jobs + [job];
    assert forall i | 0 <= i < |jobs| :: more[i] == jobs[i] && jobs[i] in jobs;
    if j :| j in jobs && (j.id == job.id || j.name == job.name) {
      var i :| 0 <= i < |jobs| && jobs[i] == j;
      assert more[i] == j && more[|jobs|] == job;
    }
  }

  // ---------------------------------------------------------------- the gate

  predicate IsObjectId(s: string) {
    (|s| == 40 || |s| == 64) && forall c | c in s :: '0' <= c <= '9' || 'a' <= c <= 'f'
  }

  predicate ActiveWorkflow(w: Workflow) {
    w.id > 0 && w.path == WORKFLOW_PATH && w.name == "CI" && w.state == "active"
  }

  /** The calls of one gate, in the order they are made. */
  datatype GateTrail = GateTrail(definition: seq<Exchange>, first: seq<Exchange>, jobs: seq<Exchange>, second: seq<Exchange>)
  {
    function All(): seq<Exchange> {
      definition + first + jobs + second
    }
  }

  /** The definition that was read is the active workflow of this ID. */
  ghost predicate Defined(definition: seq<Exchange>, commit: string, workflowId: int) {
    && IsObjectId(commit)
    && |definition| == 1 && definition[0].WorkflowRead? && ActiveWorkflow(definition[0].workflow)
    && definition[0].workflow.id == workflowId
  }

  /** What the calls after the first listing must establish about its latest run. */
  ghost predicate Passes(loading: seq<Exchange>, second: seq<Exchange>, run: Run, workflowId: int, commit: string,
                         required: seq<string>) {
    && run.status == COMPLETED && run.conclusion == SUCCESS
    && loading != [] && JobTrail(loading, run) && JobsLoaded(loading)
    && JobsAccepted(run, JobList(JobPages(loading)), required)
    && second != [] && ListingTrail(second, workflowId, commit) && Usable(second, workflowId, commit)
    && IsHighestEligible(run, Listed(RunPages(second)))
  }

  ghost predicate GatePassed(trail: GateTrail, run: Run, commit: string, required: seq<string>) {
    && |trail.definition| == 1 && trail.definition[0].WorkflowRead?
    && var workflowId := trail.definition[0].workflow.id;
    && Defined(trail.definition, commit, workflowId)
    && trail.first != [] && ListingTrail(trail.first, workflowId, commit) && Usable(trail.first, workflowId, commit)
    && IsHighestEligible(run, Listed(RunPages(trail.first)))
    && Passes(trail.jobs, trail.second, run, workflowId, commit, required)
  }

  lemma UsableHighestIsUnique(trail: seq<Exchange>, workflowId: int, commit: string, a: Run, b: Run)
    requires Usable(trail, workflowId, commit)
    requires IsHighestEligible(a, Listed(RunPages(trail))) && IsHighestEligible(b, Listed(RunPages(trail)))
    ensures a == b
  {
    CompleteInventoryMeans(RunPages(trail), workflowId, commit);
    HighestIsUnique(a, b, Listed(RunPages(trail)));
  }

  lemma OnlyHighest(trail: seq<Exchange>, workflowId: int, commit: string, run: Run)
    requires Usable(trail, workflowId, commit) && IsHighestEligible(run, Listed(RunPages(trail)))
    ensures forall other :: IsHighestEligible(other, Listed(RunPages(trail))) ==> other == run
  {
    hide Usable, IsHighestEligible, Listed, RunPages;
    forall other | IsHighestEligible(other, Listed(RunPages(trail)))
      ensures other == run
    {
      UsableHighestIsUnique(trail, workflowId, commit, other, run);
    }
  }

  /** List the runs again: the latest must still be the very same record. */
  method StillLatest(api: Api, workflowId: int, commit: string, run: Run) returns (ok: bool, ghost trail: seq<Exchange>)
    requires api.Valid()
    modifies api
    ensures api.Valid() && api.log == old(api.log) + trail
    ensures trail != [] && ListingTrail(trail, workflowId, commit)
    ensures ok <==> Usable(trail, workflowId, commit) && IsHighestEligible(run, Listed(RunPages(trail)))
  {
    hide Usable, IsHighestEligible, Listed, RunPages, ListingTrail;
    var current, listed := LatestRun(api, workflowId, commit);
    trail := listed;
    if current.None? {
      return false, trail;
    }
    OnlyHighest(trail, workflowId, commit, current.value);
    ok := current.value == run;
  }

  /** Read the workflow definition and list its runs for the first time. */
  method FindLatest(api: Api, commit: string)
    returns (workflowId: int, latest: Option<Run>, ghost asked: seq<Exchange>, ghost first: seq<Exchange>)
    requires api.Valid()
    modifies api
    ensures api.Valid() && api.log == old(api.log) + (asked + first)
    ensures latest.Some? ==>
              && Defined(asked, commit, workflowId)
              && first != [] && ListingTrail(first, workflowId, commit) && Usable(first, workflowId, commit)
              && IsHighestEligible(latest.value, Listed(RunPages(first)))
    ensures latest.None? ==> forall id :: !(Defined(asked, commit, id) && Usable(first, id, commit))
  {
    hide Usable, IsHighestEligible, Listed, RunPages, ListingTrail, IsObjectId, ActiveWorkflow;
    workflowId, asked, first := 0, [], [];
    if !IsObjectId(commit) {
      return workflowId, None, asked, first;
    }
    var definition := api.ReadWorkflow();
    asked := [api.log[|api.log| - 1]];
    if definition.None? || !ActiveWorkflow(definition.value) {
      return workflowId, None, asked, first;
    }
    workflowId := definition.value.id;
    latest, first := LatestRun(api, workflowId, commit);
  }

  /** The latest run must have passed: its own outcome, its jobs, and then it must still be the latest. */
  method VerifyLatest(api: Api, workflowId: int, commit: string, run: Run, required: seq<string>)
    returns (ok: bool, ghost loading: seq<Exchange>, ghost second: seq<Exchange>)
    requires api.Valid()
    modifies api
    ensures api.Valid() && api.log == old(api.log) + (loading + second)
    ensures ok <==> Passes(loading, second, run, workflowId, commit, required)
  {
    hide Usable, IsHighestEligible, Listed, RunPages, JobsLoaded, JobList, JobPages, JobsAccepted, ListingTrail, JobTrail;
    loading, second := [], [];
    if run.status != COMPLETED || run.conclusion != SUCCESS {
      return false, loading, second;
    }
    var jobs, calls := LoadJobs(api, run);
    loading := calls;
    if jobs.None? {
      return false, loading, second;
    }
    var accepted := VerifyJobs(run, jobs.value, required);
    if !accepted {
      return false, loading, second;
    }
    ok, second := StillLatest(api, workflowId, commit, run);
  }

  /** The gate succeeds exactly when its calls establish that some run passed, and it returns that run. */
  method VerifyGate(api: Api, commit: string, required: seq<string>) returns (result: Option<Run>, ghost trail: GateTrail)
    requires api.Valid()
    modifies api
    ensures api.Valid() && api.log == old(api.log) + trail.All()
    ensures result.Some? ==> GatePassed(trail, result.value, commit, required)
    ensures result.None? ==> forall run :: !GatePassed(trail, run, commit, required)
  {
    hide Usable, IsHighestEligible, Listed, RunPages, ListingTrail, GatePassed, Defined, Passes, GateTrail.All;
    var workflowId, latest, asked, first := FindLatest(api, commit);
    trail := GateTrail(asked, first, [], []);
    AllOf(asked, first, [], []);
    if latest.None? {
      NothingLatest(trail, commit, required);
      return None, trail;
    }
    var ok, loading, second := VerifyLatest(api, workflowId, commit, latest.value, required);
    trail := GateTrail(asked, first, loading, second);
    AllOf(asked, first, loading, second);
    GateDecides(trail, latest.value, workflowId, commit, required);
    result := if ok then latest else None;
  }

  lemma AllOf(definition: seq<Exchange>, first: seq<Exchange>, jobs: seq<Exchange>, second: seq<Exchange>)
    ensures GateTrail(definition, first, jobs, second).All() == (definition + first) + (jobs + second)
  {
    assert definition + first + jobs + second == (definition + first) + (jobs + second);
  }

  lemma NothingLatest(trail: GateTrail, commit: string, required: seq<string>)
    requires forall id :: !(Defined(trail.definition, commit, id) && Usable(trail.first, id, commit))
    ensures forall run :: !GatePassed(trail, run, commit, required)
  {
    hide Usable, IsHighestEligible, JobsLoaded, JobsAccepted, ListingTrail, JobTrail, IsObjectId, ActiveWorkflow;
    if |trail.definition| == 1 && trail.definition[0].WorkflowRead? {
      var id := trail.definition[0].workflow.id;
      assert !(Defined(trail.definition, commit, id) && Usable(trail.first, id, commit));
    }
  }

  /** With a usable first listing its latest run is the only one that can pass, and the other calls decide whether it does. */
  lemma GateDecides(trail: GateTrail, run: Run, workflowId: int, commit: string, required: seq<string>)
    requires Defined(trail.definition, commit, workflowId)
    requires trail.first != [] && ListingTrail(trail.first, workflowId, commit) && Usable(trail.first, workflowId, commit)
    requires IsHighestEligible(run, Listed(RunPages(trail.first)))
    ensures GatePassed(trail, run, commit, required) <==> Passes(trail.jobs, trail.second, run, workflowId, commit, required)
    ensures forall other :: GatePassed(trail, other, commit, required) ==> other == run
  {
    hide Usable, IsHighestEligible, Listed, RunPages, JobsLoaded, JobList, JobPages, JobsAccepted, ListingTrail, JobTrail;
    OnlyHighest(trail.first, workflowId, commit, run);
  }

  /** The run of a passed gate is determined by the calls, and is identified: callers need not look again. */
  lemma GateRunIsIdentified(trail: GateTrail, a: Run, b: Run, commit: string, required: seq<string>)
    requires GatePassed(trail, a, commit, required) && GatePassed(trail, b, commit, required)
    ensures a == b && a.id > 0 && a.attempt > 0 && a.commit == commit
  {
    hide RunPages, JobsLoaded, JobList, JobPages, JobsAccepted, ListingTrail, JobTrail;
    var workflowId := trail.definition[0].workflow.id;
    UsableHighestIsUnique(trail.first, workflowId, commit, a, b);
    CompleteInventoryMeans(RunPages(trail.first), workflowId, commit);
  }
}
