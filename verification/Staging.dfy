/**
 * A native-package staging tree: the manifest built from a verified release archive, and the verification that a tree
 * holds exactly what its manifest lists.
 */
module Staging {
  import opened Prelude
  import Evidence

  type Path = seq<string>
  type Bytes = seq<char>

  /** A tree by path; the root is the empty path. `Odd` is anything that is neither a directory nor a plain file. */
  datatype Node = Folder | Plain(data: Bytes, mode: string) | Odd
  type Tree = map<Path, Node>

  datatype Target = Target(goos: string, goarch: string, kernel: string)

  datatype Payload = Payload(source: string, install: Path, role: string, mode: string, size: int, digest: string)

  datatype Manifest = Manifest(identityValid: bool, version: string, target: Target, filename: string, format: string,
                               archiveDigest: string, family: string, packageVersion: string, architecture: string,
                               installRoot: string, payload: seq<Payload>)

  datatype SourceFile = SourceFile(path: string, install: string, role: string, mode: string, size: int, digest: string)

  /** The manifest of a release archive. */
  datatype Source = Source(identityValid: bool, version: string, target: Target, filename: string, format: string,
                           placesValid: bool, payload: seq<SourceFile>)

  datatype Host = Host(sha256: Bytes -> string, version: string -> bool, supported: (string, string) -> bool,
                       decode: Bytes -> Option<Manifest>, encode: Manifest -> Bytes, encodeSource: Source -> Bytes)

  datatype Spec = Spec(family: string, goos: string, goarch: string, architecture: string, installRoot: string)

  const MAX_MANIFEST: int := 0x10_0000
  const MAX_PAYLOAD: int := 0x800_0000
  const STAGING_MANIFEST := "NATIVE-PACKAGE-MANIFEST.json"
  const SOURCE_MANIFEST := "PACKAGE-MANIFEST.json"
  const SOURCES: seq<string> := ["LICENSE", SOURCE_MANIFEST, "README.md", "SBOM.spdx.json", "leaguebridge",
                                 "linux-bsd-client-smoke.sh", "linux-bsd-remote-session.sh"]
  const ARCHIVE_NAMES: seq<string> := ["LICENSE", "README.md", "SBOM.spdx.json", "install.sh", "leaguebridge",
                                       "linux-bsd-client-smoke.sh", "linux-bsd-remote-session.sh", "uninstall.sh"]
  const SPECS: seq<Spec> := [
    Spec("debian", "linux", "amd64", "amd64", "/"), Spec("debian", "linux", "arm64", "arm64", "/"),
    Spec("rpm", "linux", "amd64", "x86_64", "/"), Spec("rpm", "linux", "arm64", "aarch64", "/"),
    Spec("freebsd-pkg", "freebsd", "amd64", "amd64", "/usr/local"),
    Spec("freebsd-pkg", "freebsd", "arm64", "aarch64", "/usr/local"),
    Spec("openbsd-pkg", "openbsd", "amd64", "amd64", "/usr/local"),
    Spec("openbsd-pkg", "openbsd", "arm64", "arm64", "/usr/local"),
    Spec("pkgsrc", "netbsd", "amd64", "amd64", "/usr/local"),
    Spec("pkgsrc", "netbsd", "arm64", "aarch64", "/usr/local"),
    Spec("dports", "dragonfly", "amd64", "amd64", "/usr/local")]

  // ---------------------------------------------------------------- tables

  function FindSpec(specs: seq<Spec>, family: string, goos: string, goarch: string): Option<Spec> {
    if specs == [] then None
    else if specs[0].family == family && specs[0].goos == goos && specs[0].goarch == goarch then Some(specs[0])
    else FindSpec(specs[1..], family, goos, goarch)
  }

  function FamilySpecFor(family: string, goos: string, goarch: string): Option<Spec> {
    FindSpec(SPECS, family, goos, goarch)
  }

  function RequiredKernel(goos: string): string {
    match goos
    case "linux" => "Linux"
    case "freebsd" => "FreeBSD"
    case "openbsd" => "OpenBSD"
    case "netbsd" => "NetBSD"
    case "dragonfly" => "DragonFly"
    case _ => ""
  }

  function SourceFilename(version: string, goos: string, goarch: string): string {
    "leaguebridge_" + (if "v" <= version then version[1..] else version) + "_" + goos + "_" + goarch + ".tar.gz"
  }

  function Prefix(installRoot: string): Path {
    if installRoot == "/" then ["usr"] else ["usr", "local"]
  }

  function StagedInstall(source: string, installRoot: string): Path {
    Prefix(installRoot) +
    (if source == "leaguebridge" then ["bin", source]
     else if source == "linux-bsd-client-smoke.sh" || source == "linux-bsd-remote-session.sh"
     then ["libexec", "leaguebridge", source]
     else ["share", "doc", "leaguebridge", source])
  }

  function StagedMetadata(source: string): (string, string) {
    match source
    case "LICENSE" => ("license", "0644")
    case "leaguebridge" => ("executable", "0755")
    case "linux-bsd-client-smoke.sh" => ("client-smoke-helper", "0755")
    case "linux-bsd-remote-session.sh" => ("remote-session-helper", "0755")
    case "SBOM.spdx.json" => ("sbom", "0644")
    case "PACKAGE-MANIFEST.json" => ("documentation", "0644")
    case "README.md" => ("documentation", "0644")
    case _ => ("", "")
  }

  // ---------------------------------------------------------------- the manifest

  predicate ValidEntry(e: Payload, source: string, installRoot: string) {
    && e.source == source && 0 <= e.size <= MAX_PAYLOAD && Evidence.IsSha256(e.digest)
    && e.install == StagedInstall(source, installRoot) && (e.role, e.mode) == StagedMetadata(source)
  }

  predicate ValidManifest(m: Manifest, h: Host) {
    && m.identityValid && h.version(m.version)
    && m.format == "tar.gz" && Evidence.IsSha256(m.archiveDigest)
    && m.filename == SourceFilename(m.version, m.target.goos, m.target.goarch)
    && m.target.kernel == RequiredKernel(m.target.goos) && m.packageVersion == m.version
    && var spec := FamilySpecFor(m.family, m.target.goos, m.target.goarch);
    && spec.Some? && m.architecture == spec.value.architecture && m.installRoot == spec.value.installRoot
    && |m.payload| == |SOURCES| && forall i | 0 <= i < |SOURCES| :: ValidEntry(m.payload[i], SOURCES[i], m.installRoot)
  }

  function Unmarshal(data: Bytes, h: Host): Option<Manifest> {
    var m := h.decode(data);
    if 0 < |data| <= MAX_MANIFEST && m.Some? && ValidManifest(m.value, h) && h.encode(m.value) == data then m else None
  }

  function StagedPath(e: Payload): Path {
    ["root"] + e.install
  }

  predicate SafePath(p: Path) {
    p != [] && forall c | c in p :: c != "" && c != "." && c != ".."
  }

  lemma SourcesDiffer()
    ensures forall i, j | 0 <= i < j < |SOURCES| :: SOURCES[i] != SOURCES[j]
  {
    assert |SOURCES[0]| == 7 && |SOURCES[1]| == 21 && |SOURCES[2]| == 9 && |SOURCES[3]| == 14;
    assert |SOURCES[4]| == 12 && |SOURCES[5]| == 25 && |SOURCES[6]| == 27;
  }

  /** The staged paths of a valid manifest are pairwise distinct, safe, and none is the manifest itself. */
  lemma StagedPathsDiffer(m: Manifest, h: Host)
    requires ValidManifest(m, h)
    ensures PathsDiffer(m.payload)
    ensures forall e | e in m.payload :: SafePath(StagedPath(e)) && StagedPath(e) != [STAGING_MANIFEST]
    ensures forall e | e in m.payload :: e.size <= MAX_PAYLOAD && (e.mode == "0644" || e.mode == "0755")
  {
    hide StagedInstall, StagedMetadata, Evidence.IsSha256, FamilySpecFor, RequiredKernel, SourceFilename, SafePath;
    SourcesDiffer();
    forall i | 0 <= i < |m.payload|
      ensures var p := StagedPath(m.payload[i]); p[|p| - 1] == SOURCES[i] && SafePath(p) && |p| > 1
      ensures var e := m.payload[i]; e.size <= MAX_PAYLOAD && (e.mode == "0644" || e.mode == "0755")
    {
      EntryIsSafe(m.payload[i], SOURCES[i], m.installRoot);
    }
    assert forall e | e in m.payload :: exists i | 0 <= i < |m.payload| :: m.payload[i] == e;
  }

  lemma EntryIsSafe(e: Payload, source: string, installRoot: string)
    requires ValidEntry(e, source, installRoot) && source in SOURCES
    ensures var p := StagedPath(e); |p| > 1 && p[|p| - 1] == source && SafePath(p)
    ensures e.mode == "0644" || e.mode == "0755"
  {
    hide StagedInstall, StagedMetadata, SafePath, Evidence.IsSha256;
    InstallIsSafe(source, installRoot);
    ModeIsKnown(source);
    SafeUnderRoot(e.install);
    assert StagedPath(e)[|StagedPath(e)| - 1] == e.install[|e.install| - 1];
  }

  lemma SafeUnderRoot(install: Path)
    requires SafePath(install)
    ensures SafePath(["root"] + install)
  {
    assert "root"[0] == 'r';
  }

  lemma InstallIsSafe(source: string, installRoot: string)
    requires source in SOURCES
    ensures var p := StagedInstall(source, installRoot); p != [] && p[|p| - 1] == source && SafePath(p)
  {
    hide StagedMetadata;
    SourceIsSafe(source);
  }

  lemma SourceIsSafe(source: string)
    requires source in SOURCES
    ensures |source| > 2
  {
  }

  lemma ModeIsKnown(source: string)
    requires source in SOURCES
    ensures var mode := StagedMetadata(source).1; mode == "0644" || mode == "0755"
  {
    hide StagedInstall;
  }

  // ---------------------------------------------------------------- the tree

  predicate WellFormed(t: Tree) {
    && [] in t && t[[]].Folder?
    && forall p | p in t && p != [] :: p[..|p| - 1] in t && t[p[..|p| - 1]].Folder?
  }

  lemma {:induction false} PrefixIsFolder(t: Tree, p: Path, k: nat)
    requires WellFormed(t) && p in t && k < |p|
    ensures p[..k] in t && t[p[..k]].Folder?
    decreases |p|
  {
    var parent := p[..|p| - 1];
    if k < |parent| {
      PrefixIsFolder(t, parent, k);
      assert parent[..k] == p[..k];
    } else {
      assert parent == p[..k];
    }
  }

  /** Every proper prefix of the given paths, the root included. */
  function Ancestors(files: set<Path>): set<Path> {
    set p, k | p in files && 0 <= k < |p| :: p[..k]
  }

  predicate IsPlain(t: Tree, p: Path) {
    p in t && t[p].Plain?
  }

  /** A file with the declared size, digest and, where the system has them, permission bits. */
  predicate HoldsFile(t: Tree, p: Path, size: int, digest: string, mode: string, h: Host, posix: bool) {
    && IsPlain(t, p) && |t[p].data| == size && h.sha256(t[p].data) == digest && (posix ==> t[p].mode == mode)
  }

  function PathsOf(payload: seq<Payload>): set<Path> {
    set e | e in payload :: StagedPath(e)
  }

  function ExpectedPaths(m: Manifest): set<Path> {
    {[STAGING_MANIFEST]} + PathsOf(m.payload)
  }

  function FilesIn(t: Tree): set<Path> {
    set p | p in t && !t[p].Folder?
  }

  function FoldersIn(t: Tree): set<Path> {
    set p | p in t && t[p].Folder?
  }

  predicate PathsDiffer(payload: seq<Payload>) {
    forall i, j | 0 <= i < j < |payload| :: StagedPath(payload[i]) != StagedPath(payload[j])
  }

  /**
   * The tree is a staging tree for `m`: its files are the manifest, in canonical form, and the payloads as declared; its
   * directories are the ancestors of those files; and there is nothing else.
   */
  predicate Staged(t: Tree, m: Manifest, h: Host, posix: bool) {
    && IsPlain(t, [STAGING_MANIFEST]) && Unmarshal(t[[STAGING_MANIFEST]].data, h) == Some(m)
    && (posix ==> t[[STAGING_MANIFEST]].mode == "0644")
    && (forall e | e in m.payload :: HoldsPayload(t, e, h, posix))
    && FilesIn(t) == ExpectedPaths(m) && FoldersIn(t) == Ancestors(ExpectedPaths(m))
  }

  /** Read one file of the tree, looking at every component on the way. */
  method ReadStagedFile(t: Tree, p: Path, maximum: int) returns (data: Option<Bytes>)
    requires WellFormed(t)
    ensures data.Some? <==> SafePath(p) && IsPlain(t, p) && |t[p].data| <= maximum
    ensures data.Some? ==> data.value == t[p].data
  {
    if !SafePath(p) {
      return None;
    }
    for k := 1 to |p|
      invariant forall j | 0 < j < k :: p[..j] in t && t[p[..j]].Folder?
    {
      if p[..k] !in t || !t[p[..k]].Folder? {
        if p in t {
          PrefixIsFolder(t, p, k);
        }
        return None;
      }
    }
    if !IsPlain(t, p) || |t[p].data| > maximum {
      return None;
    }
    data := Some(t[p].data);
  }

  method VerifyFile(t: Tree, p: Path, size: int, digest: string, mode: string, h: Host, posix: bool) returns (ok: bool)
    requires WellFormed(t) && SafePath(p) && size <= MAX_PAYLOAD && (mode == "0644" || mode == "0755")
    ensures ok <==> HoldsFile(t, p, size, digest, mode, h, posix)
  {
    var data := ReadStagedFile(t, p, MAX_PAYLOAD);
    if data.None? || |data.value| != size {
      return false;
    }
    if posix && t[p].mode != mode {
      return false;
    }
    ok := h.sha256(data.value) == digest;
  }

  /** Files by path: every payload under its own staged path. */
  predicate Indexes(files: map<Path, Payload>, payload: seq<Payload>) {
    files.Keys == PathsOf(payload) && forall p | p in files :: files[p] in payload && StagedPath(files[p]) == p
  }

  /** The expected files by path, and the directories above them, collected one payload at a time. */
  method Collect(payload: seq<Payload>) returns (files: map<Path, Payload>, folders: set<Path>)
    requires PathsDiffer(payload)
    ensures Indexes(files, payload)
    ensures folders == {[]} + Ancestors(PathsOf(payload))
  {
    hide StagedPath, Ancestors, PathsDiffer, Indexes, PathsOf;
    files, folders := map[], {[]};
    NoAncestors();
    for i := 0 to |payload|
      invariant Indexes(files, payload[..i]) && folders == {[]} + Ancestors(PathsOf(payload[..i]))
    {
      var entry := payload[i];
      var path := StagedPath(entry);
      IndexesMore(files, payload, i);
      if path in files {
        assert false;
      }
      files := files[path := entry];
      PathIsLong(entry);
      var above := Above(path);
      AncestorsOfMore(PathsOf(payload[..i]), path);
      PathsOfMore(payload, i);
      folders := folders + above;
    }
    assert payload[..|payload|] == payload;
  }

  /** The check for two payloads on one path never fires. */
  lemma IndexesMore(files: map<Path, Payload>, payload: seq<Payload>, i: nat)
    requires PathsDiffer(payload) && i < |payload| && Indexes(files, payload[..i])
    ensures StagedPath(payload[i]) !in files
    ensures Indexes(files[StagedPath(payload[i]) := payload[i]], payload[..i + 1])
  {
    hide StagedPath;
    assert forall k | 0 <= k < i :: StagedPath(payload[k]) != StagedPath(payload[i]);
    PathsOfMore(payload, i);
  }

  lemma NoAncestors()
    ensures Ancestors({}) == {} && PathsOf([]) == {} && Indexes(map[], [])
  {
  }

  lemma PathIsLong(e: Payload)
    ensures StagedPath(e) != []
  {
  }

  lemma PathsOfMore(payload: seq<Payload>, i: nat)
    requires i < |payload|
    ensures PathsOf(payload[..i + 1]) == PathsOf(payload[..i]) + {StagedPath(payload[i])}
    ensures forall e | e in payload[..i] :: e in payload[..i + 1]
    ensures payload[i] in payload[..i + 1]
  {
    hide StagedPath;
    assert payload[..i + 1] == payload[..i] + [payload[i]];
  }

  /** From the parent of a path up to the root. */
  method Above(path: Path) returns (above: set<Path>)
    requires path != []
    ensures above == set k | 0 <= k < |path| :: path[..k]
  {
    above := {};
    var k := |path| - 1;
    while true
      invariant 0 <= k < |path| && above == set j | k < j < |path| :: path[..j]
      decreases k
    {
      above := above + {path[..k]};
      if k == 0 {
        break;
      }
      k := k - 1;
    }
  }

  lemma AncestorsOfMore(files: set<Path>, path: Path)
    ensures Ancestors(files + {path}) == Ancestors(files) + set k | 0 <= k < |path| :: path[..k]
  {
  }

  /** Walk everything in the tree: directories and files only where they are expected, and no third kind of entry. */
  method VerifyTree(t: Tree, files: set<Path>, folders: set<Path>) returns (ok: bool)
    ensures ok <==> forall p | p in t :: if t[p].Folder? then p in folders else p in files && t[p].Plain?
  {
    var rest := t.Keys;
    while rest != {}
      invariant rest <= t.Keys
      invariant forall p | p in t && p !in rest :: if t[p].Folder? then p in folders else p in files && t[p].Plain?
      decreases |rest|
    {
      var p :| p in rest;
      rest := rest - {p};
      if t[p].Odd? || (t[p].Folder? && p !in folders) || (!t[p].Folder? && p !in files) {
        return false;
      }
    }
    ok := true;
  }

  predicate HoldsPayload(t: Tree, e: Payload, h: Host, posix: bool) {
    HoldsFile(t, StagedPath(e), e.size, e.digest, e.mode, h, posix)
  }

  method VerifyPayloads(t: Tree, payload: seq<Payload>, files: map<Path, Payload>, h: Host, posix: bool) returns (ok: bool)
    requires WellFormed(t) && PathsDiffer(payload) && Indexes(files, payload)
    requires forall e | e in payload :: SafePath(StagedPath(e)) && e.size <= MAX_PAYLOAD && (e.mode == "0644" || e.mode == "0755")
    ensures ok <==> forall e | e in payload :: HoldsPayload(t, e, h, posix)
  {
    hide HoldsFile, SafePath, WellFormed, StagedPath, PathsDiffer, PathsOf;
    EveryPayloadIsIndexed(payload, files);
    var rest := files.Keys;
    while rest != {}
      invariant rest <= files.Keys
      invariant forall p | p in files && p !in rest :: HoldsPayload(t, files[p], h, posix)
      decreases |rest|
    {
      var p :| p in rest;
      rest := rest - {p};
      var entry := files[p];
      var matches := VerifyFile(t, p, entry.size, entry.digest, entry.mode, h, posix);
      if !matches {
        return false;
      }
    }
    ok := true;
  }

  lemma EveryPayloadIsIndexed(payload: seq<Payload>, files: map<Path, Payload>)
    requires PathsDiffer(payload) && Indexes(files, payload)
    ensures forall e | e in payload :: StagedPath(e) in files && files[StagedPath(e)] == e
  {
    hide StagedPath;
    forall e | e in payload
      ensures StagedPath(e) in files && files[StagedPath(e)] == e
    {
      assert StagedPath(e) in PathsOf(payload);
      var other := files[StagedPath(e)];
      var i :| 0 <= i < |payload| && payload[i] == e;
      var j :| 0 <= j < |payload| && payload[j] == other;
    }
  }

  /** Accepts exactly the staging trees, and returns the manifest they are staging trees for. */
  method VerifyStagingRoot(t: Tree, h: Host, posix: bool) returns (result: Option<Manifest>)
    requires WellFormed(t)
    ensures forall m :: Staged(t, m, h, posix) <==> result == Some(m)
  {
    var data := ReadStagedFile(t, [STAGING_MANIFEST], MAX_MANIFEST);
    StagedNeedsManifest(t, h, posix);
    hide Staged, WellFormed, Unmarshal;
    if data.None? {
      return None;
    }
    var m := Unmarshal(data.value, h);
    if m.None? {
      return None;
    }
    var contents := VerifyContents(t, m.value, h, posix);
    result := if contents then m else None;
  }

  lemma StagedNeedsManifest(t: Tree, h: Host, posix: bool)
    ensures SafePath([STAGING_MANIFEST])
    ensures forall m | Staged(t, m, h, posix) ::
              && IsPlain(t, [STAGING_MANIFEST]) && |t[[STAGING_MANIFEST]].data| <= MAX_MANIFEST
              && Unmarshal(t[[STAGING_MANIFEST]].data, h) == Some(m)
  {
    hide ValidManifest, FilesIn, FoldersIn, HoldsPayload;
  }

  /** Everything after the manifest is read: the inventory, every file, and the shape of the tree. */
  method VerifyContents(t: Tree, m: Manifest, h: Host, posix: bool) returns (ok: bool)
    requires WellFormed(t) && IsPlain(t, [STAGING_MANIFEST]) && Unmarshal(t[[STAGING_MANIFEST]].data, h) == Some(m)
    ensures ok <==> Staged(t, m, h, posix)
  {
    hide Staged, HoldsFile, HoldsPayload, ValidManifest, WellFormed, PathsOf, Ancestors, SafePath, StagedPath, Unmarshal;
    hide PathsDiffer;
    var data := t[[STAGING_MANIFEST]].data;
    ParsedManifest(data, h);
    StagedMeans(t, m, h, posix);
    StagedPathsDiffer(m, h);
    var files, folders := Collect(m.payload);
    ManifestPathIsSafe();
    var manifestHolds := VerifyFile(t, [STAGING_MANIFEST], |data|, h.sha256(data), "0644", h, posix);
    var payloadsHold := VerifyPayloads(t, m.payload, files, h, posix);
    if !manifestHolds || !payloadsHold {
      return false;
    }
    ok := VerifyTree(t, files.Keys + {[STAGING_MANIFEST]}, folders);
  }

  lemma ManifestPathIsSafe()
    ensures SafePath([STAGING_MANIFEST])
  {
  }

  lemma ParsedManifest(data: Bytes, h: Host)
    requires Unmarshal(data, h).Some?
    ensures ValidManifest(Unmarshal(data, h).value, h) && |data| <= MAX_PAYLOAD
  {
    hide ValidManifest;
  }

  /** Being a staging tree, in the words of the checks. */
  lemma StagedMeans(t: Tree, m: Manifest, h: Host, posix: bool)
    requires WellFormed(t) && IsPlain(t, [STAGING_MANIFEST]) && Unmarshal(t[[STAGING_MANIFEST]].data, h) == Some(m)
    ensures Staged(t, m, h, posix) <==>
            && HoldsFile(t, [STAGING_MANIFEST], |t[[STAGING_MANIFEST]].data|, h.sha256(t[[STAGING_MANIFEST]].data), "0644", h, posix)
            && (forall e | e in m.payload :: HoldsPayload(t, e, h, posix))
            && forall p | p in t ::
                 if t[p].Folder? then p in {[]} + Ancestors(PathsOf(m.payload))
                 else p in PathsOf(m.payload) + {[STAGING_MANIFEST]} && t[p].Plain?
  {
    hide Unmarshal, Ancestors, HoldsPayload, PathsOf, FilesIn, FoldersIn;
    AncestorsOfManifest(PathsOf(m.payload));
    if forall e | e in m.payload :: HoldsPayload(t, e, h, posix) {
      PayloadsArePlain(t, m.payload, h, posix);
      FoldersArePresent(t, ExpectedPaths(m));
      ExactSets(t, ExpectedPaths(m), Ancestors(ExpectedPaths(m)));
    }
  }

  /** When everything expected is there, having exactly the expected entries is having no others. */
  lemma ExactSets(t: Tree, files: set<Path>, folders: set<Path>)
    requires forall p | p in files :: IsPlain(t, p)
    requires forall p | p in folders :: p in t && t[p].Folder?
    ensures FilesIn(t) == files && FoldersIn(t) == folders <==>
              forall p | p in t :: if t[p].Folder? then p in folders else p in files && t[p].Plain?
  {
    if FilesIn(t) == files && FoldersIn(t) == folders {
      forall p | p in t
        ensures if t[p].Folder? then p in folders else p in files && t[p].Plain?
      {
        assert p in FilesIn(t) || p in FoldersIn(t);
      }
    }
  }

  lemma AncestorsOfManifest(files: set<Path>)
    ensures Ancestors({[STAGING_MANIFEST]} + files) == {[]} + Ancestors(files)
  {
    var path := [STAGING_MANIFEST];
    AncestorsOfMore(files, path);
    assert files + {path} == {path} + files;
    assert path[..0] == [];
  }

  lemma PayloadsArePlain(t: Tree, payload: seq<Payload>, h: Host, posix: bool)
    requires forall e | e in payload :: HoldsPayload(t, e, h, posix)
    ensures forall p | p in PathsOf(payload) :: IsPlain(t, p)
  {
    hide StagedPath;
  }

  lemma FoldersArePresent(t: Tree, files: set<Path>)
    requires WellFormed(t) && forall p | p in files :: p in t
    ensures forall p | p in Ancestors(files) :: p in t && t[p].Folder?
  {
    forall p, k | p in files && 0 <= k < |p|
      ensures p[..k] in t && t[p[..k]].Folder?
    {
      PrefixIsFolder(t, p, k);
    }
  }

  // ---------------------------------------------------------------- building the manifest

  function SourceMetadata(path: string): (string, string, string) {
    match path
    case "LICENSE" => ("/usr/local/share/doc/leaguebridge/LICENSE", "license", "0644")
    case "README.md" => ("/usr/local/share/doc/leaguebridge/README.md", "documentation", "0644")
    case "SBOM.spdx.json" => ("/usr/local/share/doc/leaguebridge/SBOM.spdx.json", "sbom", "0644")
    case "install.sh" => ("", "installer", "0755")
    case "leaguebridge" => ("/usr/local/bin/leaguebridge", "executable", "0755")
    case "linux-bsd-client-smoke.sh" =>
      ("/usr/local/libexec/leaguebridge/linux-bsd-client-smoke.sh", "client-smoke-helper", "0755")
    case "linux-bsd-remote-session.sh" =>
      ("/usr/local/libexec/leaguebridge/linux-bsd-remote-session.sh", "remote-session-helper", "0755")
    case "uninstall.sh" => ("/usr/local/libexec/leaguebridge/uninstall.sh", "uninstaller", "0755")
    case _ => ("", "", "")
  }

  /** A canonical Unix source: the identity, the target's kernel and file name, and the exact ordered payload. */
  predicate ValidSource(s: Source, h: Host) {
    && s.identityValid && h.version(s.version) && s.placesValid
    && s.filename == SourceFilename(s.version, s.target.goos, s.target.goarch)
    && s.target.kernel == RequiredKernel(s.target.goos)
    && h.supported(s.target.goos, s.target.goarch)
    && |s.payload| == |ARCHIVE_NAMES|
    && forall i | 0 <= i < |ARCHIVE_NAMES| ::
         && s.payload[i].path == ARCHIVE_NAMES[i] && s.payload[i].size >= 0 && Evidence.IsSha256(s.payload[i].digest)
         && (s.payload[i].install, s.payload[i].role, s.payload[i].mode) == SourceMetadata(ARCHIVE_NAMES[i])
  }

  /** The file of a payload with a given path; a missing one has no size and no digest. */
  function Entry(payload: seq<SourceFile>, path: string): SourceFile {
    if payload == [] then SourceFile("", "", "", "", 0, "")
    else if payload[|payload| - 1].path == path then payload[|payload| - 1]
    else Entry(payload[..|payload| - 1], path)
  }

  function SizeOf(s: Source, text: Bytes, source: string): int {
    if source == SOURCE_MANIFEST then |text| else Entry(s.payload, source).size
  }

  function DigestOf(s: Source, text: Bytes, source: string, h: Host): string {
    if source == SOURCE_MANIFEST then h.sha256(text) else Entry(s.payload, source).digest
  }

  lemma ArchiveNamesCover(s: Source, h: Host, source: string)
    requires ValidSource(s, h) && source in SOURCES && source != SOURCE_MANIFEST
    ensures Entry(s.payload, source) in s.payload && Entry(s.payload, source).path == source
  {
    var k :| 0 <= k < |SOURCES| && SOURCES[k] == source;
    var i := if k == 0 then 0 else if k <= 3 then k - 1 else k;
    assert ARCHIVE_NAMES[i] == source;
    EntryIsFound(s.payload, i);
  }

  lemma {:induction false} EntryIsFound(payload: seq<SourceFile>, i: nat)
    requires i < |payload|
    ensures Entry(payload, payload[i].path) in payload && Entry(payload, payload[i].path).path == payload[i].path
  {
    if payload[|payload| - 1].path != payload[i].path {
      EntryIsFound(payload[..|payload| - 1], i);
    }
  }

  /** What the code writes for one source file. */
  function StagedEntry(s: Source, text: Bytes, source: string, spec: Spec, h: Host): Payload {
    Payload(source, StagedInstall(source, spec.installRoot), StagedMetadata(source).0, StagedMetadata(source).1,
            SizeOf(s, text, source), DigestOf(s, text, source, h))
  }

  predicate Fits(s: Source, text: Bytes) {
    forall source | source in SOURCES :: SizeOf(s, text, source) <= MAX_PAYLOAD
  }

  /** What the code demands of its inputs, apart from the sizes. */
  predicate BuildInputs(s: Source, text: Bytes, archiveDigest: string, family: string, h: Host) {
    && text != [] && h.encodeSource(s) == text && Evidence.IsSha256(archiveDigest) && s.format == "tar.gz"
    && FamilySpecFor(family, s.target.goos, s.target.goarch).Some? && ValidSource(s, h)
  }

  function Draft(s: Source, archiveDigest: string, spec: Spec, payload: seq<Payload>): Manifest {
    Manifest(true, s.version, s.target, s.filename, s.format, archiveDigest, spec.family, s.version, spec.architecture,
             spec.installRoot, payload)
  }

  lemma DraftIsValidWhenItFits(s: Source, text: Bytes, archiveDigest: string, family: string, h: Host,
                               payload: seq<Payload>)
    requires BuildInputs(s, text, archiveDigest, family, h) && Evidence.IsSha256(h.sha256(text))
    requires var spec := FamilySpecFor(family, s.target.goos, s.target.goarch).value;
             |payload| == |SOURCES| && forall i | 0 <= i < |SOURCES| :: payload[i] == StagedEntry(s, text, SOURCES[i], spec, h)
    ensures ValidManifest(Draft(s, archiveDigest, FamilySpecFor(family, s.target.goos, s.target.goarch).value, payload), h)
            <==> Fits(s, text)
  {
    var spec := FamilySpecFor(family, s.target.goos, s.target.goarch).value;
    SpecIsOwn(SPECS, family, s.target.goos, s.target.goarch);
    hide StagedMetadata, StagedInstall, SourceFilename, RequiredKernel, FindSpec;
    forall i | 0 <= i < |SOURCES|
      ensures ValidEntry(payload[i], SOURCES[i], spec.installRoot) <==> SizeOf(s, text, SOURCES[i]) <= MAX_PAYLOAD
    {
      EntryFits(s, text, archiveDigest, family, h, SOURCES[i]);
    }
    hide ValidEntry, ValidSource, StagedEntry, SizeOf;
    if Fits(s, text) {
      assert forall i | 0 <= i < |SOURCES| :: SOURCES[i] in SOURCES;
    }
  }

  lemma EntryFits(s: Source, text: Bytes, archiveDigest: string, family: string, h: Host, source: string)
    requires BuildInputs(s, text, archiveDigest, family, h) && Evidence.IsSha256(h.sha256(text)) && source in SOURCES
    ensures 0 <= SizeOf(s, text, source) && Evidence.IsSha256(DigestOf(s, text, source, h))
  {
    hide FamilySpecFor, RequiredKernel, SourceFilename, SourceMetadata;
    if source != SOURCE_MANIFEST {
      ArchiveNamesCover(s, h, source);
    }
  }

  lemma {:induction false} SpecIsOwn(specs: seq<Spec>, family: string, goos: string, goarch: string)
    requires FindSpec(specs, family, goos, goarch).Some?
    ensures FindSpec(specs, family, goos, goarch).value.family == family
  {
    if specs[0].family != family || specs[0].goos != goos || specs[0].goarch != goarch {
      SpecIsOwn(specs[1..], family, goos, goarch);
    }
  }

  /**
   * Build the staging manifest. For good inputs it succeeds exactly when every staged size is within the limit, and the
   * result is a valid manifest that carries the archive's own sizes and digests.
   */
  method Build(s: Source, text: Bytes, archiveDigest: string, family: string, h: Host) returns (result: Option<Manifest>)
    requires Evidence.IsSha256(h.sha256(text))
    ensures result.Some? <==> BuildInputs(s, text, archiveDigest, family, h) && Fits(s, text)
    ensures result.Some? ==> ValidManifest(result.value, h) && result.value.archiveDigest == archiveDigest
    ensures result.Some? ==> forall e | e in result.value.payload ::
              e.size == SizeOf(s, text, e.source) && e.digest == DigestOf(s, text, e.source, h)
  {
    if text == [] || h.encodeSource(s) != text || !Evidence.IsSha256(archiveDigest) || s.format != "tar.gz" {
      return None;
    }
    var spec := FamilySpecFor(family, s.target.goos, s.target.goarch);
    if spec.None? || !ValidSource(s, h) {
      return None;
    }
    hide ValidSource, FamilySpecFor, StagedInstall, StagedMetadata, SizeOf, DigestOf, Fits, ValidManifest, Evidence.IsSha256;
    var payload: seq<Payload> := [];
    for i := 0 to |SOURCES|
      invariant |payload| == i && forall k | 0 <= k < i :: payload[k] == StagedEntry(s, text, SOURCES[k], spec.value, h)
    {
      payload := payload + [StagedEntry(s, text, SOURCES[i], spec.value, h)];
    }
    DraftIsValidWhenItFits(s, text, archiveDigest, family, h, payload);
    var m := Draft(s, archiveDigest, spec.value, payload);
    result := if ValidManifest(m, h) then Some(m) else None;
  }
}
