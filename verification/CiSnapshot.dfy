/**
 * What a successful observation says about the changing world it was made in. The calls are spread over time and the
 * pages of one listing are read at different instants, yet the reported commit, run and attempt were current
 * throughout one interval that contains both signature checks.
 */
module CiSnapshot {
  import opened Prelude
  import opened CiTimeline
  import opened CiGate
  import opened CurrentCi

  // ---------------------------------------------------------------- pieces of an ordered log

  ghost predicate Before(a: seq<Exchange>, b: seq<Exchange>) {
    forall x, y | x in a && y in b :: x.at <= y.at
  }

  ghost predicate Truthful(log: seq<Exchange>, h: History) {
    InOrder(log) && HonestLog(log, h)
  }

  lemma Split(a: seq<Exchange>, b: seq<Exchange>, h: History)
    requires Truthful(a + b, h)
    ensures Truthful(a, h) && Truthful(b, h) && Before(a, b)
  {
    var all := a + b;
    forall i | 0 <= i < |a|
      ensures Honest(a[i], h) && all[i] == a[i]
    {
      assert Honest(all[i], h);
    }
    forall i | 0 <= i < |b|
      ensures Honest(b[i], h) && all[|a| + i] == b[i]
    {
      assert Honest(all[|a| + i], h);
    }
    forall x, y | x in a && y in b
      ensures x.at <= y.at
    {
      var i :| 0 <= i < |a| && a[i] == x;
      var j :| 0 <= j < |b| && b[j] == y;
      assert all[i].at <= all[|a| + j].at;
    }
  }

  function First(trail: seq<Exchange>): nat
    requires trail != []
  {
    trail[0].at
  }

  function Last(trail: seq<Exchange>): nat
    requires trail != []
  {
    trail[|trail| - 1].at
  }

  // ---------------------------------------------------------------- one run listing

  lemma {:induction false} PagesOfTrail(trail: seq<Exchange>, workflowId: int, commit: string)
    requires ListingTrail(trail, workflowId, commit) && NoFailure(trail)
    ensures |RunPages(trail)| == |trail|
    ensures forall k | 0 <= k < |trail| :: trail[k].RunsRead? && RunPages(trail)[k] == trail[k].runPage
    ensures forall k | 0 <= k < |trail| :: trail[k].workflowId == workflowId && trail[k].commit == commit
  {
    if trail != [] {
      var before := trail[..|trail| - 1];
      assert forall e | e in before :: e in trail;
      PagesOfTrail(before, workflowId, commit);
      assert trail[|trail| - 1] in trail;
    }
  }

  lemma {:induction false} ListedOnSomePage(pages: seq<RunPage>, r: Run) returns (k: nat)
    requires r in Listed(pages)
    ensures k < |pages| && r in pages[k].runs
  {
    if r in pages[|pages| - 1].runs {
      k := |pages| - 1;
    } else {
      k := ListedOnSomePage(pages[..|pages| - 1], r);
    }
  }

  /** The instant at which a listed run was read, as exactly the listed record. */
  lemma ListedWasRead(h: History, trail: seq<Exchange>, workflowId: int, commit: string, r: Run) returns (t: nat)
    requires Truthful(trail, h) && trail != []
    requires ListingTrail(trail, workflowId, commit) && NoFailure(trail) && r in Listed(RunPages(trail))
    ensures First(trail) <= t <= Last(trail)
    ensures r.id in Inventory(h(t), workflowId, commit) && h(t).runs[r.id] == r
  {
    hide Listed, RunPages, ListingTrail, NoFailure, Inventory;
    PagesOfTrail(trail, workflowId, commit);
    var k := ListedOnSomePage(RunPages(trail), r);
    assert Honest(trail[k], h);
    t := trail[k].at;
  }

  /**
   * A usable listing froze the inventory: although its pages were read at different instants, the set of runs was
   * the listed one at every instant from the first page to the last.
   */
  lemma InventoryStable(h: History, trail: seq<Exchange>, workflowId: int, commit: string, t: nat)
    requires Evolves(h) && Truthful(trail, h) && trail != []
    requires ListingTrail(trail, workflowId, commit) && Usable(trail, workflowId, commit)
    requires First(trail) <= t <= Last(trail)
    ensures Inventory(h(t), workflowId, commit) == Ids(Listed(RunPages(trail)))
  {
    var pages := RunPages(trail);
    var listed := Listed(pages);
    var first := Inventory(h(First(trail)), workflowId, commit);
    var now := Inventory(h(t), workflowId, commit);
    var last := Inventory(h(Last(trail)), workflowId, commit);
    PagesOfTrail(trail, workflowId, commit);
    CompleteInventoryMeans(pages, workflowId, commit);
    assert Honest(trail[0], h) && Honest(trail[|trail| - 1], h);
    assert |first| == |last| == |Ids(listed)|;
    InventoryGrows(h, workflowId, commit, First(trail), t);
    InventoryGrows(h, workflowId, commit, t, Last(trail));
    SubsetOfEqualSize(first, last);
    assert now == last;
    forall r | r in listed
      ensures r.id in last
    {
      var u := ListedWasRead(h, trail, workflowId, commit, r);
      InventoryGrows(h, workflowId, commit, u, Last(trail));
    }
    SubsetOfEqualSize(Ids(listed), last);
  }

  // ---------------------------------------------------------------- two run listings

  /** `run` is, at this instant and as exactly this record, the newest eligible run and complete and successful. */
  ghost predicate LatestEligible(w: World, workflowId: int, commit: string, run: Run) {
    && run.id in Inventory(w, workflowId, commit) && w.runs[run.id] == run
    && Eligible(run) && run.status == COMPLETED && run.conclusion == SUCCESS
    && forall id | id in Inventory(w, workflowId, commit) && Eligible(w.runs[id]) :: id <= run.id
  }

  /** Two listings that agree on the run: it was the latest eligible run at every instant between them. */
  lemma LatestBetween(h: History, a: seq<Exchange>, b: seq<Exchange>, workflowId: int, commit: string, run: Run, t: nat)
    requires Evolves(h) && Truthful(a, h) && Truthful(b, h) && a != [] && b != []
    requires ListingTrail(a, workflowId, commit) && Usable(a, workflowId, commit)
    requires ListingTrail(b, workflowId, commit) && Usable(b, workflowId, commit)
    requires IsHighestEligible(run, Listed(RunPages(a))) && IsHighestEligible(run, Listed(RunPages(b)))
    requires run.status == COMPLETED && run.conclusion == SUCCESS
    requires Last(a) <= t <= First(b)
    ensures LatestEligible(h(t), workflowId, commit, run)
  {
    var s := ListedWasRead(h, a, workflowId, commit, run);
    var u := ListedWasRead(h, b, workflowId, commit, run);
    CompletedAttemptIsFrozen(h, run.id, s, t, u);
    InventoryStable(h, b, workflowId, commit, First(b));
    InventoryGrows(h, workflowId, commit, s, t);
    InventoryGrows(h, workflowId, commit, t, First(b));
    forall id | id in Inventory(h(t), workflowId, commit) && Eligible(h(t).runs[id])
      ensures id <= run.id
    {
      var r :| r in Listed(RunPages(b)) && r.id == id;
      var v := ListedWasRead(h, b, workflowId, commit, r);
      GrowsOver(h, t, v);
      assert RunGrows(h(t).runs[id], h(v).runs[id]);
    }
  }

  // ---------------------------------------------------------------- jobs

  lemma {:induction false} PagesOfJobTrail(trail: seq<Exchange>, run: Run)
    requires JobTrail(trail, run) && NoFailure(trail)
    ensures |JobPages(trail)| == |trail|
    ensures forall k | 0 <= k < |trail| :: trail[k].JobsRead? && JobPages(trail)[k] == trail[k].jobPage
    ensures forall k | 0 <= k < |trail| :: trail[k].runId == run.id && trail[k].runAttempt == run.attempt
  {
    if trail != [] {
      var before := trail[..|trail| - 1];
      assert forall e | e in before :: e in trail;
      PagesOfJobTrail(before, run);
      assert trail[|trail| - 1] in trail;
    }
  }

  ghost function JobsOf(w: World, run: Run): map<int, Job> {
    if (run.id, run.attempt) in w.jobs then w.jobs[(run.id, run.attempt)] else map[]
  }

  lemma JobsOfGrow(h: History, run: Run, t: nat, u: nat)
    requires Evolves(h) && t <= u
    ensures JobsGrow(JobsOf(h(t), run), JobsOf(h(u), run))
    ensures JobsOf(h(t), run).Keys <= JobsOf(h(u), run).Keys
  {
    GrowsOver(h, t, u);
    assert JobsGrow(JobsOf(h(t), run), JobsOf(h(u), run));
    assert forall id | id in JobsOf(h(t), run) :: id in JobsOf(h(u), run);
  }

  lemma JobOnPage(h: History, trail: seq<Exchange>, run: Run, k: nat, j: Job)
    requires Truthful(trail, h) && k < |trail| && trail[k].JobsRead?
    requires trail[k].runId == run.id && trail[k].runAttempt == run.attempt && j in trail[k].jobPage.jobs
    ensures First(trail) <= trail[k].at <= Last(trail)
    ensures j.id in JobsOf(h(trail[k].at), run) && JobsOf(h(trail[k].at), run)[j.id] == j
  {
    assert Honest(trail[k], h);
  }

  /** A loaded job was read at some instant of the loading, as exactly the loaded record. */
  lemma JobWasRead(h: History, trail: seq<Exchange>, run: Run, j: Job) returns (t: nat)
    requires Truthful(trail, h) && trail != []
    requires JobTrail(trail, run) && JobsLoaded(trail) && j in JobList(JobPages(trail))
    ensures First(trail) <= t <= Last(trail)
    ensures j.id in JobsOf(h(t), run) && JobsOf(h(t), run)[j.id] == j
  {
    SoundJobPagesMean(JobPages(trail));
    PagesOfJobTrail(trail, run);
    hide JobList, JobTrail, JobPages, NoFailure, SoundJobPages, HonestLog;
    var k :| 0 <= k < |JobPages(trail)| && j in JobPages(trail)[k].jobs;
    JobOnPage(h, trail, run, k, j);
    t := trail[k].at;
  }

  lemma DistinctJobIds(jobs: seq<Job>)
    requires forall i, j :: 0 <= i < j < |jobs| ==> jobs[i].id != jobs[j].id
    ensures |JobIds(jobs)| == |jobs|
  {
    var ids := seq(|jobs|, i requires 0 <= i < |jobs| => jobs[i].id);
    DistinctSize(ids);
    forall x | x in JobIds(jobs)
      ensures x in ids
    {
      var i :| 0 <= i < |jobs| && jobs[i].id == x;
      assert ids[i] == x;
    }
    assert (set x | x in ids) == JobIds(jobs);
  }

  /** When loading ended, the loaded jobs were the whole inventory of the attempt. */
  lemma JobInventoryComplete(h: History, trail: seq<Exchange>, run: Run)
    requires Evolves(h) && Truthful(trail, h) && trail != []
    requires JobTrail(trail, run) && JobsLoaded(trail)
    requires forall i, j :: 0 <= i < j < |JobList(JobPages(trail))| ==>
               JobList(JobPages(trail))[i].id != JobList(JobPages(trail))[j].id
    ensures JobsOf(h(Last(trail)), run).Keys == JobIds(JobList(JobPages(trail)))
  {
    var jobs := JobList(JobPages(trail));
    DistinctJobIds(jobs);
    SoundJobPagesMean(JobPages(trail));
    PagesOfJobTrail(trail, run);
    var now := JobsOf(h(Last(trail)), run);
    assert Honest(trail[|trail| - 1], h);
    forall j | j in jobs
      ensures j.id in now
    {
      var t := JobWasRead(h, trail, run, j);
      JobsOfGrow(h, run, t, Last(trail));
    }
    SubsetOfEqualSize(JobIds(jobs), now.Keys);
  }

  /** Every job known for the attempt passes, and every required name is among them. */
  ghost predicate AllJobsPass(w: World, run: Run, required: seq<string>) {
    && (forall id | id in JobsOf(w, run) :: JobPasses(JobsOf(w, run)[id], run))
    && RequiredJobsPass(w, run, required)
  }

  ghost predicate RequiredJobsPass(w: World, run: Run, required: seq<string>) {
    forall name | name in required :: PassingJobNamed(w, run, name)
  }

  ghost predicate PassingJobNamed(w: World, run: Run, name: string) {
    exists id :: id in JobsOf(w, run) && JobsOf(w, run)[id].name == name && JobPasses(JobsOf(w, run)[id], run)
  }

  /** Accepted jobs: all jobs of the attempt pass when loading ended, and the required ones pass from then on. */
  lemma JobsHold(h: History, trail: seq<Exchange>, run: Run, required: seq<string>, t: nat)
    requires Evolves(h) && Truthful(trail, h) && trail != []
    requires JobTrail(trail, run) && JobsLoaded(trail) && JobsAccepted(run, JobList(JobPages(trail)), required)
    requires Last(trail) <= t
    ensures AllJobsPass(h(Last(trail)), run, required) && RequiredJobsPass(h(t), run, required)
  {
    hide JobPages, JobList, JobTrail, JobsLoaded, JobPasses, Evolves, Truthful, JobsOf;
    var jobs, end := JobList(JobPages(trail)), Last(trail);
    JobInventoryComplete(h, trail, run);
    forall j, u | j in jobs && end <= u
      ensures j.id in JobsOf(h(u), run) && JobsOf(h(u), run)[j.id] == j && JobPasses(j, run)
    {
      AcceptedJobStays(h, trail, run, required, j, u);
    }
    forall name, u | name in required && end <= u
      ensures PassingJobNamed(h(u), run, name)
    {
      var j :| j in jobs && j.name == name;
    }
  }

  lemma AcceptedJobStays(h: History, trail: seq<Exchange>, run: Run, required: seq<string>, j: Job, u: nat)
    requires Evolves(h) && Truthful(trail, h) && trail != []
    requires JobTrail(trail, run) && JobsLoaded(trail) && JobsAccepted(run, JobList(JobPages(trail)), required)
    requires j in JobList(JobPages(trail)) && Last(trail) <= u
    ensures j.id in JobsOf(h(u), run) && JobsOf(h(u), run)[j.id] == j && JobPasses(j, run)
  {
    hide JobPages, JobList, JobTrail, JobsLoaded, Evolves, Truthful, JobsDiffer;
    var s := JobWasRead(h, trail, run, j);
    JobsOfGrow(h, run, s, u);
  }

  // ---------------------------------------------------------------- the whole observation

  /** The relevant pieces of a session, cut out of the one ordered log they were recorded in. */
  ghost predicate Arranged(first: FirstPass, second: SecondPass, h: History) {
    && Truthful(first.source, h) && Truthful(first.gate.first, h) && Truthful(first.gate.jobs, h)
    && Truthful(second.gate.second, h) && Truthful(second.main, h)
    && Before(first.source, first.gate.first) && Before(first.gate.first, first.gate.jobs)
    && Before(first.gate.first, first.raceVet) && Before(first.gate.jobs, first.raceVet)
    && Before(first.raceVet, first.crossBuild) && Before(first.crossBuild, second.gate.second)
    && Before(second.gate.second, second.main)
  }

  lemma SplitGate(gate: GateTrail, h: History)
    requires Truthful(gate.All(), h)
    ensures Truthful(gate.first, h) && Truthful(gate.jobs, h) && Truthful(gate.second, h)
    ensures Before(gate.first, gate.jobs)
  {
    hide Truthful, Before;
    var head := gate.definition + gate.first;
    Split(head + gate.jobs, gate.second, h);
    Split(head, gate.jobs, h);
    Split(gate.definition, gate.first, h);
    BeforePart(gate.definition, gate.first, gate.jobs);
  }

  lemma BeforePart(a: seq<Exchange>, b: seq<Exchange>, c: seq<Exchange>)
    ensures Before(a + b, c) ==> Before(a, c) && Before(b, c)
    ensures Before(c, a + b) ==> Before(c, a) && Before(c, b)
  {
    assert forall x | x in a :: x in a + b;
    assert forall x | x in b :: x in a + b;
  }

  lemma BeforeGate(gate: GateTrail, c: seq<Exchange>)
    ensures Before(gate.All(), c) ==> Before(gate.first, c) && Before(gate.jobs, c) && Before(gate.second, c)
    ensures Before(c, gate.All()) ==> Before(c, gate.first) && Before(c, gate.second)
  {
    hide Before;
    BeforePart(gate.definition + gate.first + gate.jobs, gate.second, c);
    BeforePart(gate.definition + gate.first, gate.jobs, c);
    BeforePart(gate.definition, gate.first, c);
  }

  lemma Arrange(first: FirstPass, second: SecondPass, h: History)
    requires Truthful(first.All() + second.All(), h)
    ensures Arranged(first, second, h)
  {
    hide Truthful, Before;
    Split(first.All(), second.All(), h);
    var early := first.source + first.gate.All();
    Split(early + first.raceVet, first.crossBuild, h);
    Split(early, first.raceVet, h);
    Split(first.source, first.gate.All(), h);
    Split(second.source + second.gate.All(), second.main, h);
    Split(second.source, second.gate.All(), h);
    SplitGate(first.gate, h);
    SplitGate(second.gate, h);
    BeforePart(first.source, first.gate.All(), first.raceVet);
    BeforePart(early, first.raceVet, first.crossBuild);
    BeforeGate(first.gate, first.source);
    BeforeGate(first.gate, first.raceVet);
    BeforePart(early + first.raceVet, first.crossBuild, second.All());
    BeforePart(second.source + second.gate.All(), second.main, first.crossBuild);
    BeforePart(second.source, second.gate.All(), first.crossBuild);
    BeforeGate(second.gate, first.crossBuild);
    BeforePart(second.source, second.gate.All(), second.main);
    BeforeGate(second.gate, second.main);
  }

  /** The interval of the claim: from the end of the first run listing to the start of the last one. */
  ghost predicate InWindow(first: FirstPass, second: SecondPass, t: nat)
    requires first.gate.first != [] && second.gate.second != []
  {
    Last(first.gate.first) <= t <= First(second.gate.second)
  }

  /** Both gates selected the very same record of the very same workflow. */
  lemma SameRun(h: History, first: FirstPass, second: SecondPass, o: Observation, source: Source, run: Run, again: Run,
                input: VerifyRequest, required: seq<string>, d: Digests)
    requires Evolves(h) && Arranged(first, second, h)
    requires Observed(first, second, o, source, run, again, input, required, d)
    ensures again == run
    ensures first.gate.definition[0].workflow.id == second.gate.definition[0].workflow.id == run.workflowId
  {
    var a, b := first.gate.first, second.gate.second;
    var s := ListedWasRead(h, a, first.gate.definition[0].workflow.id, source.commit, run);
    var u := ListedWasRead(h, b, second.gate.definition[0].workflow.id, source.commit, again);
    WindowIsNonempty(h, first, second, o, source, run, again, input, required, d);
    CompletedAttemptIsFrozen(h, run.id, s, u, u);
  }

  /** Both signature checks happened inside the window. */
  lemma WindowIsNonempty(h: History, first: FirstPass, second: SecondPass, o: Observation, source: Source, run: Run,
                         again: Run, input: VerifyRequest, required: seq<string>, d: Digests)
    requires Arranged(first, second, h)
    requires Observed(first, second, o, source, run, again, input, required, d)
    ensures Last(first.gate.first) <= First(first.raceVet) <= First(first.crossBuild) <= First(second.gate.second)
  {
    var a, b := first.gate.first, second.gate.second;
    assert a[|a| - 1] in a && b[0] in b && first.raceVet[0] in first.raceVet && first.crossBuild[0] in first.crossBuild;
  }

  /** Main was at the reported commit from the first read of main to the last. */
  lemma MainStayed(h: History, first: FirstPass, second: SecondPass, o: Observation, source: Source, run: Run, again: Run,
                   input: VerifyRequest, required: seq<string>, d: Digests, t: nat)
    requires MainMovesToFreshCommits(h) && Arranged(first, second, h)
    requires Observed(first, second, o, source, run, again, input, required, d)
    requires First(first.source) <= t <= First(second.main)
    ensures h(t).main == o.commit
  {
    hide GatePassed, SignedFor, InOrder, ExactMain, Descends, ApprovedBlob, Before;
    assert Honest(first.source[0], h) && Honest(second.main[0], h);
    MainNeverReturns(h, First(first.source), t, First(second.main));
  }

  /**
   * The double-collect theorem. If the log is truthful, runs only grow and main moves only to fresh commits, then at
   * every instant of the window main was at the reported commit, the reported run was the latest eligible run of that
   * commit, unchanged, complete and successful; and from the loading of its jobs on, every required job had passed.
   */
  lemma ObservationIsStable(h: History, first: FirstPass, second: SecondPass, o: Observation, source: Source, run: Run,
                            again: Run, input: VerifyRequest, required: seq<string>, d: Digests, t: nat)
    requires Evolves(h) && MainMovesToFreshCommits(h) && Truthful(first.All() + second.All(), h)
    requires Observed(first, second, o, source, run, again, input, required, d)
    requires InWindow(first, second, t)
    ensures InWindow(first, second, First(first.raceVet)) && InWindow(first, second, First(first.crossBuild))
    ensures h(t).main == o.commit
    ensures LatestEligible(h(t), run.workflowId, o.commit, run) && run.id == o.runId && run.attempt == o.runAttempt
    ensures AllJobsPass(h(Last(first.gate.jobs)), run, required)
    ensures Last(first.gate.jobs) <= First(first.raceVet)
    ensures Last(first.gate.jobs) <= t ==> RequiredJobsPass(h(t), run, required)
  {
    Arrange(first, second, h);
    WindowIsNonempty(h, first, second, o, source, run, again, input, required, d);
    SameRun(h, first, second, o, source, run, again, input, required, d);
    WindowInsideMainReads(h, first, second, t);
    MainStayed(h, first, second, o, source, run, again, input, required, d, t);
    LatestBetween(h, first.gate.first, second.gate.second, run.workflowId, source.commit, run, t);
    JobsHold(h, first.gate.jobs, run, required, if Last(first.gate.jobs) <= t then t else Last(first.gate.jobs));
    assert first.gate.jobs[|first.gate.jobs| - 1] in first.gate.jobs && first.raceVet[0] in first.raceVet;
  }

  lemma WindowInsideMainReads(h: History, first: FirstPass, second: SecondPass, t: nat)
    requires Arranged(first, second, h)
    requires first.source != [] && first.gate.first != [] && second.gate.second != [] && second.main != []
    requires InWindow(first, second, t)
    ensures First(first.source) <= t <= First(second.main)
  {
    var a, b := first.gate.first, second.gate.second;
    assert first.source[0] in first.source && a[|a| - 1] in a && b[0] in b && second.main[0] in second.main;
  }
}
