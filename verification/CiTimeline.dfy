/**
 * What the GitHub API can answer, and how the observed state may evolve while it is being read.
 *
 * Every call happens at an instant of a discrete clock. A history gives the state at every instant, so
 * "something changed between two calls" is simply a difference between two instants. Answers are arbitrary:
 * nothing about them is assumed by the code that reads them. `Honest` says what a truthful answer is, and is
 * used only to interpret a completed session.
 */
module CiTimeline {
  import opened Prelude

  datatype Workflow = Workflow(id: int, name: string, path: string, state: string)

  datatype Run = Run(id: int, attempt: int, workflowId: int, path: string, event: string, branch: string,
                     commit: string, status: string, conclusion: string, repository: string, headRepository: string)

  datatype RunPage = RunPage(total: int, runs: seq<Run>)

  datatype Job = Job(id: int, runId: int, attempt: Option<int>, commit: string, name: string, status: string,
                     conclusion: string)

  datatype JobPage = JobPage(total: int, jobs: seq<Job>)

  datatype Reference = Reference(name: string, kind: string, sha: string)

  datatype GitCommit = GitCommit(sha: string, tree: string)

  datatype GitEntry = GitEntry(path: string, mode: string, kind: string, sha: string)

  datatype GitTree = GitTree(sha: string, truncated: Option<bool>, entries: seq<GitEntry>)

  datatype GitBlob = GitBlob(sha: string, encoding: string, size: int, content: string)

  /** Git objects are named by their content, so they never change. */
  datatype GitStore = GitStore(commits: map<string, GitCommit>, trees: map<string, GitTree>, blobs: map<string, GitBlob>)

  datatype SignatureRequest = SignatureRequest(kind: string, commit: string, tree: string, workflowSha: string,
                                               runId: int, runAttempt: int, subjects: seq<string>)

  datatype Exchange =
    | Failed(at: nat)
    | MainRead(at: nat, reference: Reference)
    | CommitRead(at: nat, sha: string, commitObject: GitCommit)
    | TreeRead(at: nat, sha: string, tree: GitTree)
    | BlobRead(at: nat, sha: string, blob: GitBlob)
    | WorkflowRead(at: nat, workflow: Workflow)
    | RunsRead(at: nat, workflowId: int, commit: string, page: nat, runPage: RunPage)
    | JobsRead(at: nat, runId: int, runAttempt: int, page: nat, jobPage: JobPage)
    | Signed(at: nat, request: SignatureRequest)

  /** The mutable state: the commit main points to, every run, and every job of every run attempt. */
  datatype World = World(main: string, runs: map<int, Run>, jobs: map<(int, int), map<int, Job>>)

  type History = nat -> World

  const COMPLETED := "completed"
  const SUCCESS := "success"

  /** A run keeps its identity, its attempt number only grows, and a completed attempt is final. */
  ghost predicate RunGrows(r: Run, r': Run) {
    && r'.id == r.id && r'.workflowId == r.workflowId && r'.path == r.path && r'.event == r.event
    && r'.branch == r.branch && r'.commit == r.commit
    && r'.repository == r.repository && r'.headRepository == r.headRepository
    && r.attempt <= r'.attempt
    && (r.attempt == r'.attempt && r.status == COMPLETED ==> r' == r)
  }

  /** Jobs of one attempt are only added, and a completed job is final. */
  ghost predicate JobsGrow(a: map<int, Job>, b: map<int, Job>) {
    forall id | id in a :: id in b && (a[id].status == COMPLETED ==> b[id] == a[id])
  }

  ghost predicate Grows(w: World, w': World) {
    && (forall id | id in w.runs :: id in w'.runs && RunGrows(w.runs[id], w'.runs[id]))
    && (forall key | key in w.jobs :: key in w'.jobs && JobsGrow(w.jobs[key], w'.jobs[key]))
  }

  ghost predicate WellKeyed(w: World) {
    && (forall id | id in w.runs :: w.runs[id].id == id)
    && (forall key, id | key in w.jobs && id in w.jobs[key] :: w.jobs[key][id].id == id)
  }

  /** One environment step after another: runs, attempts and jobs only grow. */
  ghost predicate Evolves(h: History) {
    && (forall t: nat :: WellKeyed(h(t)))
    && (forall t: nat :: Grows(h(t), h(t + 1)))
  }

  /** Main moves only to commits it has never pointed to before. */
  ghost predicate MainMovesToFreshCommits(h: History) {
    forall t: nat, u: nat :: u <= t && h(t + 1).main != h(t).main ==> h(u).main != h(t + 1).main
  }

  lemma {:induction false} GrowsOver(h: History, t: nat, u: nat)
    requires Evolves(h) && t <= u
    ensures Grows(h(t), h(u))
    decreases u - t
  {
    if t < u {
      GrowsOver(h, t, u - 1);
      assert Grows(h(u - 1), h(u - 1 + 1));
    }
  }

  /** A main that is back where it was never left: no other commit was visible in between. */
  lemma {:induction false} MainNeverReturns(h: History, t: nat, u: nat, v: nat)
    requires MainMovesToFreshCommits(h) && t <= u <= v && h(t).main == h(v).main
    ensures h(u).main == h(t).main
    decreases v
  {
    if u < v {
      assert h(v - 1 + 1).main == h(v).main;
      MainNeverReturns(h, t, u, v - 1);
    }
  }

  /** A completed attempt seen twice with the same attempt number was the same record all along. */
  lemma CompletedAttemptIsFrozen(h: History, id: int, t: nat, u: nat, v: nat)
    requires Evolves(h) && t <= u <= v
    requires id in h(t).runs && id in h(v).runs
    requires h(t).runs[id].status == COMPLETED && h(t).runs[id].attempt == h(v).runs[id].attempt
    ensures id in h(u).runs && h(u).runs[id] == h(t).runs[id]
  {
    GrowsOver(h, t, u);
    GrowsOver(h, u, v);
  }

  /** The runs the server lists for one workflow, commit and the main branch. */
  ghost function Inventory(w: World, workflowId: int, commit: string): set<int> {
    set id | id in w.runs && w.runs[id].workflowId == workflowId && w.runs[id].commit == commit
             && w.runs[id].branch == "main"
  }

  lemma InventoryGrows(h: History, workflowId: int, commit: string, t: nat, u: nat)
    requires Evolves(h) && t <= u
    ensures Inventory(h(t), workflowId, commit) <= Inventory(h(u), workflowId, commit)
  {
    GrowsOver(h, t, u);
    forall id | id in Inventory(h(t), workflowId, commit)
      ensures id in Inventory(h(u), workflowId, commit)
    {
      assert RunGrows(h(t).runs[id], h(u).runs[id]);
    }
  }

  /**
   * A truthful answer. A page declares the true size of the inventory at its own instant and lists only true
   * records; which records, in which order, and how pages overlap is left open.
   */
  ghost predicate Honest(e: Exchange, h: History) {
    match e
    case MainRead(at, reference) => reference.sha == h(at).main
    case RunsRead(at, workflowId, commit, _, page) =>
      && page.total == |Inventory(h(at), workflowId, commit)|
      && forall r | r in page.runs :: r.id in Inventory(h(at), workflowId, commit) && h(at).runs[r.id] == r
    case JobsRead(at, runId, attempt, _, page) =>
      && (runId, attempt) in h(at).jobs
      && page.total == |h(at).jobs[(runId, attempt)]|
      && forall j | j in page.jobs :: j.id in h(at).jobs[(runId, attempt)] && h(at).jobs[(runId, attempt)][j.id] == j
    case _ => true
  }

  /** A truthful answer about a Git object is the stored object of that name. */
  ghost predicate HonestObjects(log: seq<Exchange>, store: GitStore) {
    forall e | e in log ::
      match e
      case CommitRead(_, sha, found) => sha in store.commits && store.commits[sha] == found
      case TreeRead(_, sha, tree) => sha in store.trees && store.trees[sha] == tree
      case BlobRead(_, sha, blob) => sha in store.blobs && store.blobs[sha] == blob
      case _ => true
  }

  ghost predicate HonestLog(log: seq<Exchange>, h: History) {
    forall i | 0 <= i < |log| :: Honest(log[i], h)
  }

  ghost predicate InOrder(log: seq<Exchange>) {
    forall i, j | 0 <= i <= j < |log| :: log[i].at <= log[j].at
  }

  ghost predicate NoFailure(log: seq<Exchange>) {
    forall e | e in log :: !e.Failed?
  }

  /** The API client: it reads at later and later instants and may fail at any call. */
  class Api {
    var clock: nat
    var log: seq<Exchange>

    ghost predicate Valid()
      reads this
    {
      InOrder(log) && (log != [] ==> log[|log| - 1].at <= clock)
    }

    constructor ()
      ensures Valid() && log == []
    {
      clock, log := 0, [];
    }

    /** Any amount of time may pass before the next answer. */
    method Advance()
      requires Valid()
      modifies this`clock
      ensures Valid() && old(clock) <= clock
    {
      var delay: int := *;
      if delay > 0 {
        clock := clock + delay;
      }
    }

    method Record(e: Exchange)
      requires Valid() && e.at == clock
      modifies this`log
      ensures Valid() && log == old(log) + [e]
    {
      log := log + [e];
    }

    method ReadMain() returns (r: Option<Reference>)
      requires Valid()
      modifies this
      ensures Valid()
      ensures log == old(log) + [if r.Some? then MainRead(clock, r.value) else Failed(clock)]
    {
      Advance();
      r := *;
      Record(if r.Some? then MainRead(clock, r.value) else Failed(clock));
    }

    method ReadCommit(sha: string) returns (r: Option<GitCommit>)
      requires Valid()
      modifies this
      ensures Valid()
      ensures log == old(log) + [if r.Some? then CommitRead(clock, sha, r.value) else Failed(clock)]
    {
      Advance();
      r := *;
      Record(if r.Some? then CommitRead(clock, sha, r.value) else Failed(clock));
    }

    method ReadTree(sha: string) returns (r: Option<GitTree>)
      requires Valid()
      modifies this
      ensures Valid()
      ensures log == old(log) + [if r.Some? then TreeRead(clock, sha, r.value) else Failed(clock)]
    {
      Advance();
      r := *;
      Record(if r.Some? then TreeRead(clock, sha, r.value) else Failed(clock));
    }

    method ReadBlob(sha: string) returns (r: Option<GitBlob>)
      requires Valid()
      modifies this
      ensures Valid()
      ensures log == old(log) + [if r.Some? then BlobRead(clock, sha, r.value) else Failed(clock)]
    {
      Advance();
      r := *;
      Record(if r.Some? then BlobRead(clock, sha, r.value) else Failed(clock));
    }

    method ReadWorkflow() returns (r: Option<Workflow>)
      requires Valid()
      modifies this
      ensures Valid()
      ensures log == old(log) + [if r.Some? then WorkflowRead(clock, r.value) else Failed(clock)]
    {
      Advance();
      r := *;
      Record(if r.Some? then WorkflowRead(clock, r.value) else Failed(clock));
    }

    method ReadRuns(workflowId: int, commit: string, page: nat) returns (r: Option<RunPage>)
      requires Valid()
      modifies this
      ensures Valid()
      ensures log == old(log) + [if r.Some? then RunsRead(clock, workflowId, commit, page, r.value) else Failed(clock)]
    {
      Advance();
      r := *;
      Record(if r.Some? then RunsRead(clock, workflowId, commit, page, r.value) else Failed(clock));
    }

    method ReadJobs(runId: int, attempt: int, page: nat) returns (r: Option<JobPage>)
      requires Valid()
      modifies this
      ensures Valid()
      ensures log == old(log) + [if r.Some? then JobsRead(clock, runId, attempt, page, r.value) else Failed(clock)]
    {
      Advance();
      r := *;
      Record(if r.Some? then JobsRead(clock, runId, attempt, page, r.value) else Failed(clock));
    }

    method CheckSignatures(request: SignatureRequest) returns (ok: bool)
      requires Valid()
      modifies this
      ensures Valid()
      ensures log == old(log) + [if ok then Signed(clock, request) else Failed(clock)]
    {
      Advance();
      ok := *;
      Record(if ok then Signed(clock, request) else Failed(clock));
    }
  }
}
