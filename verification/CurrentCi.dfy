/**
 * The observation of current main: resolve the source, run the gate, check both signature sets, resolve the source
 * again, run the gate again and read main once more.
 */
module CurrentCi {
  import opened Prelude
  import opened CiTimeline
  import opened CiGate

  const MAIN_REF := "refs/heads/main"
  const SUPPORTED_WORKFLOW_SHA256 := "6a7ae97e9b07c74799aae41c9a2296cfb796c9da18164c0695cd9b84c2acf073"
  const MAXIMUM_TREE_ENTRIES := 1000
  const MAXIMUM_WORKFLOW_SIZE := 0x40000
  const CROSS_BUILD_SUBJECTS := 9

  /** Base64 decoding and the two digests, as functions of bytes. */
  datatype Digests = Digests(decode: string -> Option<seq<bv8>>, blobId: (nat, seq<bv8>) -> string, sha256: seq<bv8> -> string)

  datatype Source = Source(commit: string, tree: string, workflowBlob: string)

  datatype VerifyRequest = VerifyRequest(ghPath: string, raceVetSubject: string, crossBuildSubjects: seq<string>)

  datatype Observation = Observation(commit: string, tree: string, runId: int, runAttempt: int, observedAt: nat)

  // ---------------------------------------------------------------- resolving the source

  predicate ExactMain(r: Reference) {
    r.name == MAIN_REF && r.kind == "commit" && IsObjectId(r.sha)
  }

  method ResolveMain(api: Api) returns (commit: Option<string>, ghost trail: seq<Exchange>)
    requires api.Valid()
    modifies api
    ensures api.Valid() && api.log == old(api.log) + trail && |trail| == 1
    ensures commit.Some? <==> trail[0].MainRead? && ExactMain(trail[0].reference)
    ensures commit.Some? ==> commit.value == trail[0].reference.sha
  {
    var reference := api.ReadMain();
    trail := [api.log[|api.log| - 1]];
    commit := if reference.Some? && ExactMain(reference.value) then Some(reference.value.sha) else None;
  }

  predicate UnambiguousTree(tree: GitTree, current: string) {
    && tree.sha == current && tree.truncated == Some(false) && 0 < |tree.entries| <= MAXIMUM_TREE_ENTRIES
    && DistinctPaths(tree.entries)
  }

  predicate RightKind(e: GitEntry, leaf: bool) {
    if leaf then e.kind == "blob" && (e.mode == "100644" || e.mode == "100755") else e.kind == "tree" && e.mode == "040000"
  }

  /** `e` is the one entry of an unambiguous tree under the wanted name, of the right kind and digest width. */
  predicate Selects(tree: GitTree, current: string, component: string, width: nat, leaf: bool, e: GitEntry) {
    && UnambiguousTree(tree, current)
    && e in tree.entries && e.path == component
    && IsObjectId(e.sha) && |e.sha| == width && RightKind(e, leaf)
  }

  lemma OnlyOneSelected(tree: GitTree, current: string, component: string, width: nat, leaf: bool, e: GitEntry)
    requires UnambiguousTree(tree, current) && e in tree.entries && e.path == component
    ensures forall x :: Selects(tree, current, component, width, leaf, x) ==> x == e
  {
    forall x | Selects(tree, current, component, width, leaf, x)
      ensures x == e
    {
      var i :| 0 <= i < |tree.entries| && tree.entries[i] == x;
      var j :| 0 <= j < |tree.entries| && tree.entries[j] == e;
      assert i == j;
    }
  }

  predicate DistinctPaths(entries: seq<GitEntry>) {
    && (forall e | e in entries :: e.path != "")
    && (forall i, j :: 0 <= i < j < |entries| ==> entries[i].path != entries[j].path)
  }

  predicate Names(entries: seq<GitEntry>, component: string) {
    exists e :: e in entries && e.path == component
  }

  /** One pass over an entry inventory: it must be unambiguous, and the entry of the wanted name is remembered. */
  method ScanEntries(entries: seq<GitEntry>, component: string) returns (ok: bool, selected: GitEntry)
    ensures ok <==> DistinctPaths(entries)
    ensures ok && Names(entries, component) ==> selected in entries && selected.path == component
    ensures ok && !Names(entries, component) ==> selected.sha == ""
  {
    var seen: set<string> := {};
    selected := GitEntry("", "", "", "");
    for i := 0 to |entries|
      invariant seen == set x | x in entries[..i] :: x.path
      invariant DistinctPaths(entries[..i])
      invariant if component in seen then selected in entries[..i] && selected.path == component else selected.sha == ""
    {
      var entry := entries[i];
      assert entry in entries && entries[..i + 1] == entries[..i] + [entry];
      if entry.path == "" || entry.path in seen {
        return false, selected;
      }
      seen := seen + {entry.path};
      if entry.path == component {
        selected := entry;
      }
    }
    assert entries[..|entries|] == entries;
    ok := true;
  }

  method PickEntry(tree: GitTree, current: string, component: string, width: nat, leaf: bool) returns (e: Option<GitEntry>)
    ensures e.Some? ==> Selects(tree, current, component, width, leaf, e.value)
    ensures e.None? ==> forall x :: !Selects(tree, current, component, width, leaf, x)
  {
    var entries := tree.entries;
    if tree.sha != current || tree.truncated != Some(false) || |entries| == 0 || |entries| > MAXIMUM_TREE_ENTRIES {
      return None;
    }
    var ok, selected := ScanEntries(entries, component);
    if !ok {
      return None;
    }
    if Names(entries, component) {
      OnlyOneSelected(tree, current, component, width, leaf, selected);
    }
    if !IsObjectId(selected.sha) || |selected.sha| != width || !RightKind(selected, leaf) {
      return None;
    }
    e := Some(selected);
  }

  predicate ApprovedBlob(blob: GitBlob, current: string, d: Digests) {
    && blob.sha == current && blob.encoding == "base64"
    && 0 < blob.size <= MAXIMUM_WORKFLOW_SIZE && |blob.content| <= 2 * MAXIMUM_WORKFLOW_SIZE
    && var data := d.decode(blob.content);
    && data.Some? && |data.value| == blob.size
    && d.blobId(|current|, data.value) == current
    && d.sha256(data.value) == SUPPORTED_WORKFLOW_SHA256
  }

  const COMPONENTS: seq<string> := [".github", "workflows", "ci.yml"]

  /** The calls that lead from main, through its commit and three directories, to the approved workflow bytes. */
  ghost predicate Resolved(trail: seq<Exchange>, s: Source, d: Digests) {
    && |trail| == 6
    && trail[0].MainRead? && ExactMain(trail[0].reference) && trail[0].reference.sha == s.commit
    && trail[1].CommitRead? && trail[1].sha == s.commit && trail[1].commitObject == GitCommit(s.commit, s.tree)
    && IsObjectId(s.tree) && |s.tree| == |s.commit|
    && trail[2].TreeRead? && trail[2].sha == s.tree
    && trail[3].TreeRead? && trail[4].TreeRead?
    && Descends(trail[2].tree, s.tree, 0, |s.commit|, trail[3].sha)
    && Descends(trail[3].tree, trail[3].sha, 1, |s.commit|, trail[4].sha)
    && Descends(trail[4].tree, trail[4].sha, 2, |s.commit|, s.workflowBlob)
    && trail[5].BlobRead? && trail[5].sha == s.workflowBlob && ApprovedBlob(trail[5].blob, s.workflowBlob, d)
  }

  ghost predicate Descends(tree: GitTree, current: string, level: nat, width: nat, next: string)
    requires level < 3
  {
    exists e :: Selects(tree, current, COMPONENTS[level], width, level == 2, e) && e.sha == next
  }

  lemma DescendsOne(tree: GitTree, current: string, level: nat, width: nat, a: string, b: string)
    requires level < 3 && Descends(tree, current, level, width, a) && Descends(tree, current, level, width, b)
    ensures a == b
  {
    var x :| Selects(tree, current, COMPONENTS[level], width, level == 2, x) && x.sha == a;
    var y :| Selects(tree, current, COMPONENTS[level], width, level == 2, y) && y.sha == b;
    OnlyOneSelected(tree, current, COMPONENTS[level], width, level == 2, y);
  }

  /** The calls so far lead from main through its commit and the first `level` directories to `current`. */
  ghost predicate Below(trail: seq<Exchange>, level: nat, commit: string, root: string, current: string) {
    && level <= 3 && |trail| == level + 2
    && trail[0].MainRead? && ExactMain(trail[0].reference) && trail[0].reference.sha == commit
    && trail[1].CommitRead? && trail[1].sha == commit && trail[1].commitObject == GitCommit(commit, root)
    && IsObjectId(root) && |root| == |commit|
    && (if level == 0 then current == root else trail[2].TreeRead? && trail[2].sha == root)
    && (level > 1 ==> trail[3].TreeRead? && Descends(trail[2].tree, trail[2].sha, 0, |commit|, trail[3].sha))
    && (level > 2 ==> trail[4].TreeRead? && Descends(trail[3].tree, trail[3].sha, 1, |commit|, trail[4].sha))
    && (level > 0 ==>
          && trail[level + 1].TreeRead?
          && Descends(trail[level + 1].tree, trail[level + 1].sha, level - 1, |commit|, current))
  }

  lemma OneLevelMore(trail: seq<Exchange>, level: nat, commit: string, root: string, current: string, e: Exchange, next: string)
    requires Below(trail, level, commit, root, current) && level < 3 && e.TreeRead? && e.sha == current
    requires Descends(e.tree, current, level, |commit|, next)
    ensures Below(trail + [e], level + 1, commit, root, next)
  {
    hide Descends, ExactMain, IsObjectId;
    var longer := trail + [e];
    assert forall k | 0 <= k < |trail| :: longer[k] == trail[k];
  }

  lemma TooShort(trail: seq<Exchange>, d: Digests)
    requires |trail| < 6
    ensures forall s :: !Resolved(trail, s, d)
  {
  }

  /** Three directories down, the blob decides. */
  lemma BlobDecides(trail: seq<Exchange>, commit: string, root: string, current: string, e: Exchange, d: Digests)
    requires Below(trail, 3, commit, root, current) && (e.Failed? || (e.BlobRead? && e.sha == current))
    ensures e.BlobRead? && ApprovedBlob(e.blob, current, d) ==> Resolved(trail + [e], Source(commit, root, current), d)
    ensures forall s | Resolved(trail + [e], s, d) :: e.BlobRead? && ApprovedBlob(e.blob, current, d)
  {
    hide Descends, ExactMain, IsObjectId, ApprovedBlob;
    var longer := trail + [e];
    assert forall k | 0 <= k < |trail| :: longer[k] == trail[k];
    assert longer[5] == e;
    forall s | Resolved(longer, s, d)
      ensures e.BlobRead? && ApprovedBlob(e.blob, current, d)
    {
      DescendsOne(longer[4].tree, longer[4].sha, 2, |commit|, s.workflowBlob, current);
    }
  }

  method ResolveSource(api: Api, d: Digests) returns (source: Option<Source>, ghost trail: seq<Exchange>)
    requires api.Valid()
    modifies api
    ensures api.Valid() && api.log == old(api.log) + trail
    ensures source.Some? ==> Resolved(trail, source.value, d)
    ensures source.None? ==> forall s :: !Resolved(trail, s, d)
  {
    hide ApprovedBlob, Selects, IsObjectId, ExactMain, Below, Descends, Resolved;
    var commit, first := ResolveMain(api);
    trail := first;
    TooShort(trail, d);
    if commit.None? {
      return None, trail;
    }
    var found := api.ReadCommit(commit.value);
    trail := trail + [api.log[|api.log| - 1]];
    TooShort(trail, d);
    if found.None? || found.value.sha != commit.value || !IsObjectId(found.value.tree)
       || |found.value.tree| != |commit.value|
    {
      return None, trail;
    }
    var root := found.value.tree;
    AtTheRoot(trail, commit.value, root);
    var current, longer := DescendTree(api, trail, old(api.log), commit.value, root);
    trail := longer;
    if current.None? {
      TooShort(trail, d);
      return None, trail;
    }
    var blob := api.ReadBlob(current.value);
    ghost var last := api.log[|api.log| - 1];
    BlobDecides(trail, commit.value, root, current.value, last, d);
    trail := trail + [last];
    if blob.None? || !ApprovedBlob(blob.value, current.value, d) {
      return None, trail;
    }
    source := Some(Source(commit.value, root, current.value));
  }

  lemma AtTheRoot(trail: seq<Exchange>, commit: string, root: string)
    requires |trail| == 2 && trail[0].MainRead? && ExactMain(trail[0].reference) && trail[0].reference.sha == commit
    requires trail[1].CommitRead? && trail[1].sha == commit && trail[1].commitObject == GitCommit(commit, root)
    requires IsObjectId(root) && |root| == |commit|
    ensures Below(trail, 0, commit, root, root)
  {
  }

  /** Read one directory after the other, picking the entry that leads on. */
  method DescendTree(api: Api, ghost trail: seq<Exchange>, ghost before: seq<Exchange>, commit: string, root: string)
    returns (found: Option<string>, ghost longer: seq<Exchange>)
    requires api.Valid() && api.log == before + trail && Below(trail, 0, commit, root, root)
    modifies api
    ensures api.Valid() && api.log == before + longer
    ensures found.Some? ==> Below(longer, 3, commit, root, found.value)
    ensures found.None? ==> |longer| < 6
  {
    hide Selects, IsObjectId, Below, Descends;
    var current := root;
    longer := trail;
    for index := 0 to 3
      invariant api.Valid() && api.log == before + longer
      invariant Below(longer, index, commit, root, current)
    {
      LengthBelow(longer, index, commit, root, current);
      var tree := api.ReadTree(current);
      ghost var e := api.log[|api.log| - 1];
      ghost var above := longer;
      longer := longer + [e];
      if tree.None? {
        return None, longer;
      }
      var selected := PickEntry(tree.value, current, COMPONENTS[index], |commit|, index == 2);
      if selected.None? {
        return None, longer;
      }
      Leads(tree.value, current, index, |commit|, selected.value);
      OneLevelMore(above, index, commit, root, current, e, selected.value.sha);
      current := selected.value.sha;
    }
    found := Some(current);
  }

  lemma LengthBelow(trail: seq<Exchange>, level: nat, commit: string, root: string, current: string)
    requires Below(trail, level, commit, root, current)
    ensures |trail| == level + 2
  {
  }

  lemma Leads(tree: GitTree, current: string, level: nat, width: nat, e: GitEntry)
    requires level < 3 && Selects(tree, current, COMPONENTS[level], width, level == 2, e)
    ensures Descends(tree, current, level, width, e.sha)
  {
  }

  /** Git objects are immutable, so the source is a function of the commit: only a move of main can change it. */
  lemma SourceDetermined(store: GitStore, d: Digests, a: seq<Exchange>, s: Source, b: seq<Exchange>, s': Source)
    requires HonestObjects(a, store) && HonestObjects(b, store)
    requires Resolved(a, s, d) && Resolved(b, s', d) && s.commit == s'.commit
    ensures s == s'
  {
    assert a[1] in a && b[1] in b && a[2] in a && b[2] in b;
    assert s.tree == s'.tree;
    DescendsOne(a[2].tree, s.tree, 0, |s.commit|, a[3].sha, b[3].sha);
    assert a[3] in a && b[3] in b;
    DescendsOne(a[3].tree, a[3].sha, 1, |s.commit|, a[4].sha, b[4].sha);
    assert a[4] in a && b[4] in b;
    DescendsOne(a[4].tree, a[4].sha, 2, |s.commit|, s.workflowBlob, s'.workflowBlob);
  }

  // ---------------------------------------------------------------- the observation

  predicate DistinctSubjects(input: VerifyRequest) {
    var paths := [input.raceVetSubject] + input.crossBuildSubjects;
    && input.ghPath != "" && |input.crossBuildSubjects| == CROSS_BUILD_SUBJECTS
    && (forall p | p in paths :: p != "")
    && (forall i, j :: 0 <= i < j < |paths| ==> paths[i] != paths[j])
  }

  method CheckSubjects(input: VerifyRequest) returns (ok: bool)
    ensures ok <==> DistinctSubjects(input)
  {
    ghost var paths := [input.raceVetSubject] + input.crossBuildSubjects;
    assert input.raceVetSubject == paths[0] && input.raceVetSubject in paths;
    if input.ghPath == "" || input.raceVetSubject == "" || |input.crossBuildSubjects| != CROSS_BUILD_SUBJECTS {
      return false;
    }
    var seen := {input.raceVetSubject};
    for i := 0 to |input.crossBuildSubjects|
      invariant forall k :: 0 <= k <= i ==> paths[k] in seen && paths[k] != ""
      invariant forall p | p in seen :: exists k :: 0 <= k <= i && paths[k] == p
      invariant forall k, l :: 0 <= k < l <= i ==> paths[k] != paths[l]
    {
      var path := input.crossBuildSubjects[i];
      assert path == paths[i + 1] && path in paths;
      if path == "" || path in seen {
        return false;
      }
      seen := seen + {path};
    }
    ok := true;
  }

  /** The calls of an observation: what is established first, and what is read again afterwards. */
  datatype FirstPass = FirstPass(source: seq<Exchange>, gate: GateTrail, raceVet: seq<Exchange>, crossBuild: seq<Exchange>)
  {
    function All(): seq<Exchange> {
      source + gate.All() + raceVet + crossBuild
    }
  }

  datatype SecondPass = SecondPass(source: seq<Exchange>, gate: GateTrail, main: seq<Exchange>)
  {
    function All(): seq<Exchange> {
      source + gate.All() + main
    }
  }

  predicate SignedFor(trail: seq<Exchange>, kind: string, subjects: seq<string>, source: Source, run: Run) {
    && |trail| == 1 && trail[0].Signed?
    && trail[0].request == SignatureRequest(kind, source.commit, source.tree, source.commit, run.id, run.attempt, subjects)
  }

  ghost predicate Established(pass: FirstPass, source: Source, run: Run, input: VerifyRequest, required: seq<string>, d: Digests)
  {
    && Resolved(pass.source, source, d)
    && GatePassed(pass.gate, run, source.commit, required)
    && SignedFor(pass.raceVet, "race-vet", [input.raceVetSubject], source, run)
    && SignedFor(pass.crossBuild, "cross-build", input.crossBuildSubjects, source, run)
  }

  ghost predicate Confirmed(pass: SecondPass, source: Source, run: Run, again: Run, required: seq<string>, d: Digests) {
    && Resolved(pass.source, source, d)
    && GatePassed(pass.gate, again, source.commit, required)
    && again.id == run.id && again.attempt == run.attempt && again.commit == run.commit
    && |pass.main| == 1 && pass.main[0].MainRead? && ExactMain(pass.main[0].reference)
    && pass.main[0].reference.sha == source.commit
  }

  lemma ResolvedOnce(trail: seq<Exchange>, a: Source, b: Source, d: Digests)
    requires Resolved(trail, a, d) && Resolved(trail, b, d)
    ensures a == b
  {
    hide Selects, ApprovedBlob, ExactMain, IsObjectId;
    DescendsOne(trail[4].tree, trail[4].sha, 2, |a.commit|, a.workflowBlob, b.workflowBlob);
  }

  /** The calls of a first pass establish at most one source and run. */
  lemma EstablishedOnce(pass: FirstPass, a: Source, b: Source, x: Run, y: Run, input: VerifyRequest,
                        required: string -> seq<string>, d: Digests)
    requires Established(pass, a, x, input, required(a.commit), d)
    requires Established(pass, b, y, input, required(b.commit), d)
    ensures a == b && x == y
  {
    hide Resolved, GatePassed;
    ResolvedOnce(pass.source, a, b, d);
    GateRunIsIdentified(pass.gate, x, y, a.commit, required(a.commit));
  }

  ghost predicate Finds(source: seq<Exchange>, gate: GateTrail, s: Source, r: Run, required: string -> seq<string>, d: Digests)
  {
    Resolved(source, s, d) && GatePassed(gate, r, s.commit, required(s.commit))
  }

  /** The source and the run of the gate, together: found exactly when the calls determine them. */
  method FindRun(api: Api, required: string -> seq<string>, d: Digests)
    returns (found: Option<(Source, Run)>, ghost sourceTrail: seq<Exchange>, ghost gate: GateTrail)
    requires api.Valid()
    modifies api
    ensures api.Valid() && api.log == old(api.log) + (sourceTrail + gate.All())
    ensures forall s, r :: Finds(sourceTrail, gate, s, r, required, d) <==> found == Some((s, r))
  {
    hide Resolved, GatePassed;
    gate := GateTrail([], [], [], []);
    var source, run;
    source, sourceTrail := ResolveSource(api, d);
    if source.None? {
      return None, sourceTrail, gate;
    }
    run, gate := VerifyGate(api, source.value.commit, required(source.value.commit));
    forall s, r | Finds(sourceTrail, gate, s, r, required, d)
      ensures run.Some? && s == source.value && r == run.value
      ensures r.id > 0 && r.attempt > 0 && r.commit == s.commit
    {
      ResolvedOnce(sourceTrail, s, source.value, d);
      GateRunIsIdentified(gate, r, run.value, s.commit, required(s.commit));
    }
    if run.None? || run.value.id <= 0 || run.value.attempt <= 0 || run.value.commit != source.value.commit {
      return None, sourceTrail, gate;
    }
    found := Some((source.value, run.value));
  }

  /** Both signature sets for one run, the context looked at before each. */
  method CheckBothSets(api: Api, input: VerifyRequest, source: Source, run: Run)
    returns (ok: bool, cancelled: bool, ghost raceVet: seq<Exchange>, ghost crossBuild: seq<Exchange>)
    requires api.Valid()
    modifies api
    ensures api.Valid() && api.log == old(api.log) + raceVet + crossBuild
    ensures !cancelled ==>
              (ok <==> && SignedFor(raceVet, "race-vet", [input.raceVetSubject], source, run)
                       && SignedFor(crossBuild, "cross-build", input.crossBuildSubjects, source, run))
    ensures cancelled ==> !ok
  {
    raceVet, crossBuild := [], [];
    var request := SignatureRequest("race-vet", source.commit, source.tree, source.commit, run.id, run.attempt,
                                    [input.raceVetSubject]);
    cancelled := *;
    if cancelled {
      return false, true, raceVet, crossBuild;
    }
    ok := api.CheckSignatures(request);
    raceVet := [api.log[|api.log| - 1]];
    if !ok {
      return;
    }
    request := request.(kind := "cross-build", subjects := input.crossBuildSubjects);
    cancelled := *;
    if cancelled {
      return false, true, raceVet, crossBuild;
    }
    ok := api.CheckSignatures(request);
    crossBuild := [api.log[|api.log| - 1]];
  }

  /**
   * Source, gate and both signature sets. Unless the context was cancelled, a failure means that the calls made do not
   * establish anything.
   */
  method Establish(api: Api, input: VerifyRequest, required: string -> seq<string>, d: Digests)
    returns (found: Option<(Source, Run)>, cancelled: bool, ghost pass: FirstPass)
    requires api.Valid()
    modifies api
    ensures api.Valid() && api.log == old(api.log) + pass.All()
    ensures found.Some? ==> Established(pass, found.value.0, found.value.1, input, required(found.value.0.commit), d)
    ensures found.None? && !cancelled ==>
              forall source: Source, run :: !Established(pass, source, run, input, required(source.commit), d)
  {
    hide Resolved, GatePassed, SignedFor;
    cancelled := false;
    ghost var sourceTrail, gate;
    found, sourceTrail, gate := FindRun(api, required, d);
    pass := FirstPass(sourceTrail, gate, [], []);
    forall s: Source, r | Resolved(sourceTrail, s, d) && GatePassed(gate, r, s.commit, required(s.commit))
      ensures found == Some((s, r))
    {
      assert Finds(sourceTrail, gate, s, r, required, d);
    }
    if found.None? {
      return;
    }
    var ok;
    ghost var raceVet, crossBuild;
    ok, cancelled, raceVet, crossBuild := CheckBothSets(api, input, found.value.0, found.value.1);
    pass := FirstPass(sourceTrail, gate, raceVet, crossBuild);
    if !ok {
      found := None;
    }
  }

  /** The source, the gate and main once more: succeeds exactly when the calls confirm what was established. */
  method Confirm(api: Api, source: Source, run: Run, required: string -> seq<string>, d: Digests)
    returns (ok: bool, ghost pass: SecondPass, ghost again: Run)
    requires api.Valid()
    modifies api
    ensures api.Valid() && api.log == old(api.log) + pass.All()
    ensures ok ==> Confirmed(pass, source, run, again, required(source.commit), d)
    ensures !ok ==> forall other :: !Confirmed(pass, source, run, other, required(source.commit), d)
  {
    hide Resolved, GatePassed, ExactMain, Confirmed;
    pass, again := SecondPass([], GateTrail([], [], [], []), []), run;
    var currentSource, sourceTrail := ResolveSource(api, d);
    pass := pass.(source := sourceTrail);
    if currentSource.None? || currentSource.value != source {
      SourceNotConfirmed(pass, source, run, currentSource, required(source.commit), d);
      return false, pass, again;
    }
    var currentRun, gate := VerifyGate(api, source.commit, required(source.commit));
    pass := pass.(gate := gate);
    if currentRun.None? || currentRun.value.id != run.id || currentRun.value.attempt != run.attempt
       || currentRun.value.commit != run.commit
    {
      RunNotConfirmed(pass, source, run, currentRun, required(source.commit), d);
      return false, pass, again;
    }
    again := currentRun.value;
    var finalCommit, finalTrail := ResolveMain(api);
    pass := pass.(main := finalTrail);
    ok := finalCommit.Some? && finalCommit.value == source.commit;
    MainDecides(pass, source, run, again, required(source.commit), d);
  }

  lemma SourceNotConfirmed(pass: SecondPass, source: Source, run: Run, current: Option<Source>, required: seq<string>, d: Digests)
    requires current.Some? ==> Resolved(pass.source, current.value, d) && current.value != source
    requires current.None? ==> forall s :: !Resolved(pass.source, s, d)
    ensures forall other :: !Confirmed(pass, source, run, other, required, d)
  {
    hide Resolved, GatePassed, ExactMain;
    if current.Some? && Resolved(pass.source, source, d) {
      ResolvedOnce(pass.source, source, current.value, d);
    }
  }

  lemma RunNotConfirmed(pass: SecondPass, source: Source, run: Run, current: Option<Run>, required: seq<string>, d: Digests)
    requires current.Some? ==>
               && GatePassed(pass.gate, current.value, source.commit, required)
               && (current.value.id != run.id || current.value.attempt != run.attempt || current.value.commit != run.commit)
    requires current.None? ==> forall r :: !GatePassed(pass.gate, r, source.commit, required)
    ensures forall other :: !Confirmed(pass, source, run, other, required, d)
  {
    hide Resolved, GatePassed, ExactMain;
    if current.Some? {
      forall other | GatePassed(pass.gate, other, source.commit, required)
        ensures other == current.value
      {
        GateRunIsIdentified(pass.gate, other, current.value, source.commit, required);
      }
    }
  }

  lemma MainDecides(pass: SecondPass, source: Source, run: Run, again: Run, required: seq<string>, d: Digests)
    requires Resolved(pass.source, source, d) && GatePassed(pass.gate, again, source.commit, required)
    requires again.id == run.id && again.attempt == run.attempt && again.commit == run.commit && |pass.main| == 1
    ensures var confirmed := pass.main[0].MainRead? && ExactMain(pass.main[0].reference)
                             && pass.main[0].reference.sha == source.commit;
            if confirmed then Confirmed(pass, source, run, again, required, d)
            else forall other :: !Confirmed(pass, source, run, other, required, d)
  {
    hide Resolved, GatePassed, ExactMain;
  }

  /** Everything the calls of a successful observation established. */
  ghost predicate Observed(first: FirstPass, second: SecondPass, o: Observation, source: Source, run: Run, again: Run,
                           input: VerifyRequest, required: seq<string>, d: Digests)
  {
    && Established(first, source, run, input, required, d)
    && Confirmed(second, source, run, again, required, d)
    && o.commit == source.commit && o.tree == source.tree && o.runId == run.id && o.runAttempt == run.attempt
  }

  /**
   * Verify current main: a success carries the whole chain of observations; and unless the context was cancelled, a
   * failure means that the subjects repeat or that the calls made are not such a chain.
   */
  method Verify(api: Api, input: VerifyRequest, required: string -> seq<string>, d: Digests)
    returns (result: Option<Observation>, cancelled: bool, ghost first: FirstPass, ghost second: SecondPass,
             ghost source: Source, ghost run: Run, ghost again: Run)
    requires api.Valid()
    modifies api
    ensures api.Valid() && api.log == old(api.log) + first.All() + second.All()
    ensures result.Some? ==>
              && DistinctSubjects(input)
              && Observed(first, second, result.value, source, run, again, input, required(source.commit), d)
    ensures result.None? && !cancelled && DistinctSubjects(input) ==>
              forall o, s: Source, r, r' :: !Observed(first, second, o, s, r, r', input, required(s.commit), d)
  {
    hide Established, Confirmed, DistinctSubjects;
    var noTrail := GateTrail([], [], [], []);
    first, second := FirstPass([], noTrail, [], []), SecondPass([], noTrail, []);
    source, run, again := Source("", "", ""), NO_RUN, NO_RUN;
    result := None;
    cancelled := *;
    if cancelled {
      return;
    }
    var distinct := CheckSubjects(input);
    if !distinct {
      return;
    }
    var found;
    found, cancelled, first := Establish(api, input, required, d);
    if found.None? {
      return;
    }
    source, run := found.value.0, found.value.1;
    forall s: Source, r | Established(first, s, r, input, required(s.commit), d)
      ensures s == source && r == run
    {
      EstablishedOnce(first, s, source, r, run, input, required, d);
    }
    var ok;
    ok, second, again := Confirm(api, found.value.0, found.value.1, required, d);
    if !ok {
      return;
    }
    cancelled := *;
    if cancelled {
      return;
    }
    result := Some(Observation(found.value.0.commit, found.value.0.tree, found.value.1.id, found.value.1.attempt, api.clock));
  }
}
