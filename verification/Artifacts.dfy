/**
 * The artifact bundle of a record: a directory that holds exactly the declared files, each with its size and digest. The
 * directory is shared with a writer who may act between any two operations.
 */
module Artifacts {
  import opened Prelude
  import opened Evidence

  /** What the host provides: hashing, and simple case folding outside ASCII. */
  datatype Host = Host(sha256: seq<char> -> string, otherFold: (char, char) -> bool)

  // ---------------------------------------------------------------- the declaration

  /** What validating a record leaves to rely on about its artifacts. */
  predicate ValidDeclaration(declared: seq<Artifact>) {
    && (forall a | a in declared :: ValidArtifactName(a.name) && 0 < a.size <= MAX_ARTIFACT)
    && ValidBundle(declared)
  }

  lemma {:induction false} CheckArtifactsAreValid(checks: seq<Check>)
    requires forall c | c in checks :: ValidCheck(c)
    ensures forall a | a in CheckArtifacts(checks) :: ValidArtifactName(a.name) && 0 < a.size <= MAX_ARTIFACT
  {
    hide IsSha256, ValidArtifactName;
    if checks != [] {
      CheckArtifactsAreValid(checks[1..]);
      assert ValidCheck(checks[0]);
    }
  }

  /** A valid record declares its artifacts validly. */
  lemma RecordDeclaresValidly(r: Record, supported: (string, string) -> bool)
    requires ValidRecord(r, supported)
    ensures ValidDeclaration(Declared(r))
  {
    hide IsSha256, ValidArtifactName, MeetsMeasurements;
    CheckArtifactsAreValid(r.checks);
  }

  lemma {:induction false} TotalIsMonotone(artifacts: seq<Artifact>, i: nat)
    requires i <= |artifacts| && forall a | a in artifacts :: a.size > 0
    ensures 0 <= TotalSize(artifacts[..i]) <= TotalSize(artifacts)
    decreases |artifacts|
  {
    var n := |artifacts|;
    if i == n {
      assert artifacts[..i] == artifacts;
      if n > 0 {
        TotalIsMonotone(artifacts[..n - 1], n - 1);
        assert artifacts[..n - 1][..n - 1] == artifacts[..n - 1];
      }
    } else {
      TotalIsMonotone(artifacts[..n - 1], i);
      assert artifacts[..n - 1][..i] == artifacts[..i] && artifacts[n - 1] in artifacts;
    }
  }

  /** The running total is compared before it is added to, so it never exceeds the limit, let alone overflows. */
  method ValidateGlobalNames(declared: seq<Artifact>) returns (ok: bool)
    requires forall a | a in declared :: 0 < a.size <= MAX_ARTIFACT
    ensures ok <==> ValidBundle(declared)
  {
    hide InLowerCase, PortableNamesDiffer, PortableNames, TotalSize;
    NothingDeclared();
    var seen: set<string> := {};
    var total := 0;
    for i := 0 to |declared|
      invariant seen == PortableNames(declared[..i]) && PortableNamesDiffer(declared[..i])
      invariant total == TotalSize(declared[..i]) && 0 <= total <= MAX_BUNDLE
    {
      var item := declared[i];
      assert item in declared && declared[..i + 1] == declared[..i] + [item];
      OneMoreDeclared(declared[..i], item);
      var portable := InLowerCase(item.name);
      if portable in seen {
        DifferInPrefix(declared, i + 1);
        return false;
      }
      seen := seen + {portable};
      if total > MAX_BUNDLE - item.size {
        TotalIsMonotone(declared, i + 1);
        return false;
      }
      total := total + item.size;
    }
    assert declared[..|declared|] == declared;
    ok := true;
  }

  ghost function PortableNames(declared: seq<Artifact>): set<string> {
    set a | a in declared :: InLowerCase(a.name)
  }

  lemma NothingDeclared()
    ensures PortableNames([]) == {} && PortableNamesDiffer([]) && TotalSize([]) == 0
  {
  }

  lemma DifferInPrefix(declared: seq<Artifact>, n: nat)
    requires n <= |declared| && !PortableNamesDiffer(declared[..n])
    ensures !PortableNamesDiffer(declared)
  {
  }

  lemma OneMoreDeclared(declared: seq<Artifact>, item: Artifact)
    ensures PortableNamesDiffer(declared + [item]) <==>
              PortableNamesDiffer(declared) && InLowerCase(item.name) !in PortableNames(declared)
    ensures PortableNames(declared + [item]) == PortableNames(declared) + {InLowerCase(item.name)}
    ensures TotalSize(declared + [item]) == TotalSize(declared) + item.size
  {
    hide InLowerCase;
    var more := declared + [item];
    assert more[..|declared|] == declared;
    OneMoreName(declared, item);
  }

  lemma OneMoreName(declared: seq<Artifact>, item: Artifact)
    ensures PortableNamesDiffer(declared + [item]) <==>
              PortableNamesDiffer(declared) && InLowerCase(item.name) !in PortableNames(declared)
  {
    hide InLowerCase;
    var more := declared + [item];
    assert forall i | 0 <= i < |declared| :: more[i] == declared[i];
    if PortableNamesDiffer(more) {
      forall a | a in declared
        ensures InLowerCase(a.name) != InLowerCase(item.name)
      {
        var i :| 0 <= i < |declared| && declared[i] == a;
        assert InLowerCase(more[i].name) != InLowerCase(more[|declared|].name);
      }
    } else if PortableNamesDiffer(declared) {
      var i, j :| 0 <= i < j < |more| && InLowerCase(more[i].name) == InLowerCase(more[j].name);
      assert j == |declared| && declared[i] in declared;
    }
  }

  // ---------------------------------------------------------------- names

  /** How `EqualFold` compares two characters. */
  predicate SameCharFold(c: char, d: char, h: Host) {
    c == d || if c as int < 128 && d as int < 128 then Lower(c) == Lower(d) else h.otherFold(c, d)
  }

  predicate SameFold(a: string, b: string, h: Host) {
    |a| == |b| && forall i | 0 <= i < |a| :: SameCharFold(a[i], b[i], h)
  }

  predicate IsBasename(name: string) {
    name != "" && name != "." && name != ".." && (name == "/" || '/' !in name)
  }

  lemma ValidNameIsBasename(name: string)
    requires ValidArtifactName(name)
    ensures IsBasename(name)
  {
  }

  /** Names of a declaration that fold alike have one lower-case form. */
  lemma FoldIsLowerCase(a: string, b: string, h: Host)
    requires ValidArtifactName(a) && ValidArtifactName(b) && SameFold(a, b, h)
    ensures InLowerCase(a) == InLowerCase(b)
  {
    forall i | 0 <= i < |a|
      ensures Lower(a[i]) == Lower(b[i])
    {
      assert SameCharFold(a[i], b[i], h) && a[i] in a && b[i] in b;
    }
  }

  // ---------------------------------------------------------------- the directory

  function Expected(declared: seq<Artifact>): (r: map<string, Artifact>)
    ensures forall name :: name in r <==> exists a :: a in declared && a.name == name
    ensures forall name | name in r :: r[name] in declared && r[name].name == name
  {
    if declared == [] then map[]
    else Expected(declared[..|declared| - 1])[declared[|declared| - 1].name := declared[|declared| - 1]]
  }

  type Inode = nat

  datatype File = Plain(data: seq<char>) | NotPlain

  /** One moment of the directory and of the files that are in it or still open. */
  datatype State = State(names: map<string, Inode>, files: map<Inode, File>)

  predicate WellFormed(s: State) {
    forall name | name in s.names :: s.names[name] in s.files
  }

  predicate IsPlain(s: State, name: string) {
    name in s.names && s.names[name] in s.files && s.files[s.names[name]].Plain?
  }

  /** The name is this plain file, of this size. */
  predicate IsFile(s: State, name: string, inode: Inode, size: int) {
    && name in s.names && s.names[name] == inode
    && inode in s.files && s.files[inode].Plain? && |s.files[inode].data| == size
  }

  /** The file holds what was declared. */
  predicate HasContent(s: State, inode: Inode, a: Artifact, h: Host) {
    && inode in s.files && s.files[inode].Plain?
    && |s.files[inode].data| == a.size && h.sha256(s.files[inode].data) == a.digest
  }

  /** The entry set of a directory is exactly the declared names, each a plain file. */
  predicate ExactEntries(s: State, expected: map<string, Artifact>) {
    s.names.Keys == expected.Keys && forall name | name in expected :: IsPlain(s, name)
  }

  predicate Holds(s: State, a: Artifact, h: Host) {
    a.name in s.names && HasContent(s, s.names[a.name], a, h)
  }

  /** Exactly the declared files, byte for byte as declared. */
  predicate BundleMatches(s: State, declared: seq<Artifact>, h: Host) {
    && s.names.Keys == (set a | a in declared :: a.name)
    && forall a | a in declared :: Holds(s, a, h)
  }

  /** More entries than expected names cannot all be expected: looking at one too many is enough. */
  lemma OneTooMany(names: seq<string>, expected: map<string, Artifact>)
    requires forall i, j :: 0 <= i < j < |names| ==> names[i] != names[j]
    requires |names| > |expected|
    ensures exists name :: name in names && name !in expected
  {
    DistinctSize(names);
    var all := set name | name in names;
    if forall name | name in names :: name in expected {
      SubsetSize(all, expected.Keys);
    }
  }

  /** What the first entries of a directory, one more than expected, decide about all of its names. */
  lemma EntrySetDecides(entries: map<string, Inode>, expected: map<string, Artifact>, read: seq<string>)
    requires |read| == if |entries| <= |expected| + 1 then |entries| else |expected| + 1
    requires forall i, j :: 0 <= i < j < |read| ==> read[i] != read[j]
    requires forall name | name in read :: name in entries
    requires |entries| <= |expected| + 1 ==> forall name | name in entries :: name in read
    ensures entries.Keys == expected.Keys <==>
              (forall name | name in read :: name in expected) && forall name | name in expected :: name in read
    ensures entries.Keys == expected.Keys ==> forall name :: name in entries <==> name in read
  {
    if |read| > |expected| {
      OneTooMany(read, expected);
    }
    if entries.Keys == expected.Keys {
      assert |entries| == |entries.Keys| == |expected.Keys| == |expected|;
    }
  }

  /** An entry that is no basename, or two that differ only in case. */
  method HasCollision(read: seq<string>, h: Host) returns (found: bool)
    ensures found <==> (exists i | 0 <= i < |read| :: !IsBasename(read[i]))
                       || exists i, j | 0 <= j < i < |read| :: read[j] != read[i] && SameFold(read[j], read[i], h)
  {
    hide IsBasename, SameFold;
    for i := 0 to |read|
      invariant forall k | 0 <= k < i :: IsBasename(read[k])
      invariant forall k, j | 0 <= j < k < i :: read[j] == read[k] || !SameFold(read[j], read[k], h)
    {
      if !IsBasename(read[i]) {
        return true;
      }
      for j := 0 to i
        invariant forall k | 0 <= k < j :: read[k] == read[i] || !SameFold(read[k], read[i], h)
      {
        if read[j] != read[i] && SameFold(read[j], read[i], h) {
          return true;
        }
      }
    }
    found := false;
  }

  /** Names of a valid declaration never collide, so that only the entry set matters. */
  lemma ExpectedNeverCollides(names: seq<string>, expected: map<string, Artifact>, h: Host)
    requires Unambiguous(expected) && forall name | name in names :: name in expected
    ensures forall i | 0 <= i < |names| :: IsBasename(names[i])
    ensures forall i, j | 0 <= j < i < |names| :: names[j] == names[i] || !SameFold(names[j], names[i], h)
  {
    hide SameFold, ValidArtifactName, IsBasename;
    forall i | 0 <= i < |names|
      ensures IsBasename(names[i])
    {
      assert names[i] in names;
      ValidNameIsBasename(names[i]);
    }
    forall i, j | 0 <= j < i < |names| && SameFold(names[j], names[i], h)
      ensures names[j] == names[i]
    {
      assert names[i] in names && names[j] in names;
      FoldIsLowerCase(names[j], names[i], h);
    }
  }

  predicate Unambiguous(expected: map<string, Artifact>) {
    && (forall name | name in expected :: ValidArtifactName(name))
    && forall a, b | a in expected && b in expected && InLowerCase(a) == InLowerCase(b) :: a == b
  }

  // ---------------------------------------------------------------- what was seen

  ghost predicate SeenPlain(history: seq<State>, from: nat, to: nat, name: string) {
    exists k :: from <= k < to <= |history| && IsPlain(history[k], name)
  }

  /** From one moment on: a listing of exactly the expected names, and each of them then seen to be a plain file. */
  ghost predicate Enumerated(history: seq<State>, at: nat, to: nat, expected: map<string, Artifact>) {
    && at < to <= |history| && history[at].names.Keys == expected.Keys
    && forall name | name in expected :: SeenPlain(history, at + 1, to, name)
  }

  /** Between two sightings of the name as one plain file of the declared size, that file held the declared bytes. */
  ghost predicate Checked(history: seq<State>, from: nat, to: nat, a: Artifact, h: Host) {
    exists before, reading, after, inode: Inode ::
      CheckedAt(history, from, to, a, h, before, reading, after, inode)
  }

  ghost predicate CheckedAt(history: seq<State>, from: nat, to: nat, a: Artifact, h: Host, before: int, reading: int,
                            after: int, inode: Inode) {
    && from <= before < reading < after < to <= |history|
    && IsFile(history[before], a.name, inode, a.size) && HasContent(history[reading], inode, a, h)
    && IsFile(history[after], a.name, inode, a.size)
  }

  /**
   * What an accepted bundle was seen to be: first its entry set was exact, then every file was checked, and then the
   * entry set was exact once more.
   */
  ghost predicate Vouched(history: seq<State>, declared: seq<Artifact>, h: Host) {
    exists middle: nat, last: nat ::
      && middle <= last
      && Enumerated(history, 0, middle, Expected(declared))
      && (forall a | a in declared :: Checked(history, middle, last, a, h))
      && Enumerated(history, last, |history|, Expected(declared))
  }

  class Bundle {
    const quiet: bool
    const reliable: bool
    var now: State
    ghost var history: seq<State>

    predicate Valid()
      reads this
    {
      WellFormed(now)
    }

    /** The writer acts, then the next operation takes place. */
    method Step()
      requires Valid()
      modifies this
      ensures Valid() && history == old(history) + [now]
      ensures quiet ==> now == old(now)
    {
      var next: State := *;
      if !quiet && WellFormed(next) {
        now := next;
      }
      history := history + [now];
    }

    method Faults() returns (fault: bool)
      ensures reliable ==> !fault
    {
      var bad: bool := *;
      fault := bad && !reliable;
    }

    /** Read at most `limit` names of the directory, in no particular order. */
    method ReadDirectory(limit: nat) returns (names: Option<seq<string>>)
      requires Valid()
      modifies this
      ensures Valid() && history == old(history) + [now] && (quiet ==> now == old(now)) && (reliable ==> names.Some?)
      ensures names.Some? ==>
                && |names.value| == (if |now.names| <= limit then |now.names| else limit)
                && (forall i, j :: 0 <= i < j < |names.value| ==> names.value[i] != names.value[j])
                && (forall name | name in names.value :: name in now.names)
                && (|now.names| <= limit ==> forall name | name in now.names :: name in names.value)
    {
      Step();
      var fault := Faults();
      if fault {
        return None;
      }
      var read := FirstNames(now.names, limit);
      names := Some(read);
    }

    /** Whether a name is a plain file, and which. */
    method Lstat(name: string) returns (info: Option<(Inode, nat)>)
      requires Valid()
      modifies this
      ensures Valid() && history == old(history) + [now] && (quiet ==> now == old(now))
      ensures info.Some? ==> IsFile(now, name, info.value.0, info.value.1)
      ensures reliable && IsPlain(now, name) ==> info.Some?
    {
      Step();
      var fault := Faults();
      if fault || !IsPlain(now, name) {
        return None;
      }
      info := Some((now.names[name], |now.files[now.names[name]].data|));
    }

    /** Open a name. A raced-in file may be of any kind. */
    method OpenName(name: string) returns (handle: Option<Inode>)
      requires Valid()
      modifies this
      ensures Valid() && history == old(history) + [now] && (quiet ==> now == old(now))
      ensures handle.Some? ==> name in now.names && handle.value == now.names[name]
      ensures reliable && name in now.names ==> handle.Some?
    {
      Step();
      var fault := Faults();
      handle := if fault || name !in now.names then None else Some(now.names[name]);
    }

    /** The size of an open plain file. */
    method Stat(inode: Inode) returns (size: Option<nat>)
      requires Valid()
      modifies this
      ensures Valid() && history == old(history) + [now] && (quiet ==> now == old(now))
      ensures size.Some? ==> inode in now.files && now.files[inode].Plain? && |now.files[inode].data| == size.value
      ensures reliable && inode in now.files && now.files[inode].Plain? ==> size.Some?
    {
      Step();
      var fault := Faults();
      size := if fault || inode !in now.files || !now.files[inode].Plain? then None else Some(|now.files[inode].data|);
    }

    /** Read at most `limit` characters of an open file. */
    method Read(inode: Inode, limit: nat) returns (data: Option<seq<char>>)
      requires Valid()
      modifies this
      ensures Valid() && history == old(history) + [now] && (quiet ==> now == old(now))
      ensures data.Some? ==>
                && inode in now.files && now.files[inode].Plain?
                && data.value == if |now.files[inode].data| <= limit then now.files[inode].data
                                 else now.files[inode].data[..limit]
      ensures reliable && inode in now.files && now.files[inode].Plain? ==> data.Some?
    {
      Step();
      var fault := Faults();
      if fault || inode !in now.files || !now.files[inode].Plain? {
        return None;
      }
      var all := now.files[inode].data;
      data := Some(if |all| <= limit then all else all[..limit]);
    }

    /** One enumeration: one name too many is enough to know the whole entry set. */
    method VerifyEntrySet(expected: map<string, Artifact>, h: Host) returns (names: Option<seq<string>>)
      requires Valid() && Unambiguous(expected)
      modifies this
      ensures Valid() && old(history) < history && (quiet ==> now == old(now))
      ensures names.Some? ==>
                && (forall i, j :: 0 <= i < j < |names.value| ==> names.value[i] != names.value[j])
                && (forall name :: name in names.value <==> name in expected)
                && Enumerated(history, |old(history)|, |history|, expected)
      ensures quiet && names.Some? ==> ExactEntries(now, expected)
      ensures quiet && reliable && ExactEntries(now, expected) ==> names.Some?
    {
      hide Unambiguous, IsPlain, IsFile;
      var listed := ReadDirectory(|expected| + 1);
      if listed.None? {
        return None;
      }
      var read := listed.value;
      EntrySetDecides(now.names, expected, read);
      ghost var exact := now.names.Keys == expected.Keys;
      var collision := HasCollision(read, h);
      if collision {
        if exact {
          ExpectedNeverCollides(read, expected, h);
        }
        return None;
      }
      var fine := InspectAll(read, expected);
      if !fine || exists name :: name in expected && name !in read {
        return None;
      }
      names := Some(read);
    }

    /** Every name read must be a plain file that is expected. */
    method InspectAll(read: seq<string>, expected: map<string, Artifact>) returns (ok: bool)
      requires Valid()
      modifies this
      ensures Valid() && old(history) <= history && (quiet ==> now == old(now))
      ensures ok ==> forall name | name in read ::
                       name in expected && SeenPlain(history, |old(history)|, |history|, name)
      ensures quiet && ok ==> forall name | name in read :: IsPlain(now, name)
      ensures quiet && reliable && (forall name | name in read :: name in expected && IsPlain(now, name)) ==> ok
    {
      hide IsPlain, IsFile;
      for i := 0 to |read|
        invariant Valid() && old(history) <= history && (quiet ==> now == old(now))
        invariant forall j | 0 <= j < i :: read[j] in expected && (quiet ==> IsPlain(now, read[j]))
        invariant forall j | 0 <= j < i :: SeenPlain(history, |old(history)|, |history|, read[j])
      {
        label Looking:
        var info := Lstat(read[i]);
        assert read[i] in read;
        if info.None? || read[i] !in expected {
          return false;
        }
        FileIsPlain(now, read[i], info.value.0, info.value.1);
        StillPlain(old@Looking(history), history, |old(history)|, |old@Looking(history)|, read[..i]);
        assert history[|history| - 1] == now;
      }
      ok := true;
    }

    /** Open a file that was inspected; what was opened must be that very file, of the declared size. */
    method OpenSame(a: Artifact, inode: Inode) returns (ok: bool)
      requires Valid()
      modifies this
      ensures Valid() && old(history) < history && (quiet ==> now == old(now))
      ensures ok ==> exists k :: |old(history)| <= k < |history| && a.name in history[k].names
                                 && history[k].names[a.name] == inode
      ensures quiet && reliable && IsFile(now, a.name, inode, a.size) ==> ok
    {
      var handle := OpenName(a.name);
      if handle.None? {
        return false;
      }
      ghost var opening := |history| - 1;
      var inside := Stat(handle.value);
      ok := inside.Some? && handle.value == inode && inside.value == a.size;
      assert ok ==> a.name in history[opening].names;
    }

    /** One file: inspected, opened, inspected, read, and inspected again. */
    method VerifyFile(a: Artifact, h: Host) returns (ok: bool)
      requires Valid() && 0 < a.size
      modifies this
      ensures Valid() && old(history) < history && (quiet ==> now == old(now))
      ensures ok ==> Checked(history, |old(history)|, |history|, a, h)
      ensures quiet && ok ==> Holds(now, a, h)
      ensures quiet && reliable && Holds(now, a, h) ==> ok
    {
      hide Checked, HasContent, IsPlain;
      HeldIsFile(now, a, h);
      var before := Lstat(a.name);
      if before.None? || before.value.1 != a.size {
        return false;
      }
      var inode := before.value.0;
      var same := OpenSame(a, inode);
      if !same {
        return false;
      }
      var data := Read(inode, a.size + 1);
      if data.None? || |data.value| != a.size {
        return false;
      }
      ReadIsContent(now, inode, a, h, data.value);
      ghost var reading := |history| - 1;
      var inside := Stat(inode);
      var after := Lstat(a.name);
      if inside.None? || after.None? || inside.value != a.size || after.value != (inode, a.size) {
        return false;
      }
      ok := h.sha256(data.value) == a.digest;
      if ok {
        CheckedBy(history, |old(history)|, a, h, reading, inode);
      }
    }

    method VerifyFiles(names: seq<string>, declared: seq<Artifact>, expected: map<string, Artifact>, h: Host)
      returns (ok: bool)
      requires Valid() && TotalSize(declared) <= MAX_BUNDLE
      requires Matched(names, declared, expected) && forall name | name in names :: name in expected
      modifies this
      ensures Valid() && old(history) <= history && (quiet ==> now == old(now))
      ensures ok ==> forall name | name in names :: Checked(history, |old(history)|, |history|, expected[name], h)
      ensures quiet && ok ==> forall name | name in names :: Holds(now, expected[name], h)
      ensures quiet && reliable && (forall name | name in names :: Holds(now, expected[name], h)) ==> ok
    {
      hide Holds, Checked, AllChecked, Matched;
      var verified := 0;
      NothingChecked(history, |history|, names, expected, h);
      for i := 0 to |names|
        invariant Valid() && old(history) <= history && (quiet ==> now == old(now))
        invariant AllChecked(history, |old(history)|, names, i, expected, h)
        invariant forall k | 0 <= k < i :: quiet ==> Holds(now, expected[names[k]], h)
        invariant (forall name | name in names[..i] :: name in expected) && verified == SizeOf(names[..i], expected)
      {
        label Checking:
        RunningTotalFits(names, i, declared, expected);
        var a := expected[names[i]];
        if verified > MAX_BUNDLE - a.size {
          assert false;
        }
        var matches := VerifyFile(a, h);
        if !matches {
          assert names[i] in names;
          return false;
        }
        OneMoreChecked(old@Checking(history), history, |old(history)|, names, i, expected, h);
        assert names[..i + 1][..i] == names[..i];
        verified := verified + a.size;
      }
      AllCheckedMeans(history, |old(history)|, names, expected, h);
      ok := true;
    }

    /**
     * Enumerate, check every file, enumerate again. Whatever the writer does, acceptance means that the entry set was
     * exact before and after the files were checked, and that each was its declared self in between. Without a writer
     * and without faults this accepts exactly the directories that hold the declared files and nothing else, however
     * large the directory is; the running size check never fires.
     */
    method VerifyBundle(declared: seq<Artifact>, h: Host) returns (ok: bool)
      requires Valid() && ValidDeclaration(declared) && history == []
      modifies this
      ensures Valid()
      ensures ok ==> Vouched(history, declared, h)
      ensures quiet && ok ==> BundleMatches(old(now), declared, h)
      ensures quiet && reliable && BundleMatches(old(now), declared, h) ==> ok
    {
      var expected := Expected(declared);
      Prepared(now, declared, h);
      hide Expected, Unambiguous, Declares, Holds, Enumerated, Checked, Vouched;
      hide ValidDeclaration, BundleMatches, ExactEntries, TotalSize;
      var names := VerifyEntrySet(expected, h);
      if names.None? {
        return false;
      }
      ghost var middle := history;
      var hold := VerifyFiles(names.value, declared, expected, h);
      if !hold {
        return false;
      }
      ghost var last := history;
      var again := VerifyEntrySet(expected, h);
      ok := again.Some?;
      if ok {
        VouchedBy(middle, last, history, declared, names.value, h);
      }
    }
  }

  lemma VouchedBy(middle: seq<State>, last: seq<State>, history: seq<State>, declared: seq<Artifact>, names: seq<string>,
                  h: Host)
    requires middle <= last <= history && Enumerated(middle, 0, |middle|, Expected(declared))
    requires forall a | a in declared :: a.name in names && a.name in Expected(declared) && Expected(declared)[a.name] == a
    requires forall name | name in names ::
               name in Expected(declared) && Checked(last, |middle|, |last|, Expected(declared)[name], h)
    requires Enumerated(history, |last|, |history|, Expected(declared))
    ensures Vouched(history, declared, h)
  {
    hide Expected, Enumerated, Checked;
    EnumeratedLater(middle, history, 0, |middle|, Expected(declared));
    forall a | a in declared
      ensures Checked(history, |middle|, |last|, a, h)
    {
      CheckedLater(last, history, |middle|, |middle|, |last|, a, h);
    }
  }

  /** The first names of a directory. */
  method FirstNames(entries: map<string, Inode>, limit: nat) returns (names: seq<string>)
    ensures |names| == if |entries| <= limit then |entries| else limit
    ensures forall i, j :: 0 <= i < j < |names| ==> names[i] != names[j]
    ensures forall name | name in names :: name in entries
    ensures |entries| <= limit ==> forall name | name in entries :: name in names
  {
    names := [];
    var rest := entries.Keys;
    while rest != {} && |names| < limit
      invariant rest <= entries.Keys && |names| + |rest| == |entries| && |names| <= limit
      invariant forall i, j :: 0 <= i < j < |names| ==> names[i] != names[j]
      invariant forall name :: name in names <==> name in entries && name !in rest
      decreases |rest|
    {
      var name :| name in rest;
      rest := rest - {name};
      names := names + [name];
    }
  }

  lemma HeldIsFile(s: State, a: Artifact, h: Host)
    ensures Holds(s, a, h) ==> IsPlain(s, a.name) && IsFile(s, a.name, s.names[a.name], a.size)
  {
  }

  /** One character more than declared is enough to know the whole file. */
  lemma ReadIsContent(s: State, inode: Inode, a: Artifact, h: Host, data: seq<char>)
    requires inode in s.files && s.files[inode].Plain? && |data| == a.size
    requires data == if |s.files[inode].data| <= a.size + 1 then s.files[inode].data else s.files[inode].data[..a.size + 1]
    ensures HasContent(s, inode, a, h) <==> h.sha256(data) == a.digest
  {
  }

  lemma FileIsPlain(s: State, name: string, inode: Inode, size: int)
    requires IsFile(s, name, inode, size)
    ensures IsPlain(s, name)
  {
  }

  /** The moments of a completed check: the second is the open, and two more inspections surround the read. */
  lemma CheckedBy(history: seq<State>, from: nat, a: Artifact, h: Host, reading: nat, inode: Inode)
    requires from < reading < |history| - 1
    requires IsFile(history[from], a.name, inode, a.size) && HasContent(history[reading], inode, a, h)
    requires IsFile(history[|history| - 1], a.name, inode, a.size)
    ensures Checked(history, from, |history|, a, h)
  {
    assert CheckedAt(history, from, |history|, a, h, from, reading, |history| - 1, inode);
  }

  lemma CheckedLater(before: seq<State>, after: seq<State>, from: nat, start: nat, to: nat, a: Artifact, h: Host)
    requires before <= after && start <= from && |before| <= to <= |after| && Checked(before, from, |before|, a, h)
    ensures Checked(after, start, to, a, h)
  {
    hide IsFile, HasContent;
    var i, j, k, inode: Inode :| CheckedAt(before, from, |before|, a, h, i, j, k, inode);
    assert CheckedAt(after, start, to, a, h, i, j, k, inode);
  }

  /** The first `n` names are of checked files. */
  ghost predicate AllChecked(history: seq<State>, from: nat, names: seq<string>, n: nat, expected: map<string, Artifact>,
                             h: Host)
    requires forall name | name in names :: name in expected
  {
    n <= |names| && forall k | 0 <= k < n :: Checked(history, from, |history|, expected[names[k]], h)
  }

  lemma AllCheckedMeans(history: seq<State>, from: nat, names: seq<string>, expected: map<string, Artifact>, h: Host)
    requires forall name | name in names :: name in expected
    requires AllChecked(history, from, names, |names|, expected, h)
    ensures forall name | name in names :: Checked(history, from, |history|, expected[name], h)
  {
    hide Checked;
  }

  lemma NothingChecked(history: seq<State>, from: nat, names: seq<string>, expected: map<string, Artifact>, h: Host)
    requires forall name | name in names :: name in expected
    ensures AllChecked(history, from, names, 0, expected, h)
  {
  }

  lemma OneMoreChecked(before: seq<State>, after: seq<State>, from: nat, names: seq<string>, n: nat,
                       expected: map<string, Artifact>, h: Host)
    requires before <= after && from <= |before| && n < |names| && forall name | name in names :: name in expected
    requires AllChecked(before, from, names, n, expected, h)
    requires Checked(after, |before|, |after|, expected[names[n]], h)
    ensures AllChecked(after, from, names, n + 1, expected, h)
  {
    hide Checked;
    forall k | 0 <= k <= n
      ensures Checked(after, from, |after|, expected[names[k]], h)
    {
      if k < n {
        CheckedLater(before, after, from, from, |after|, expected[names[k]], h);
      } else {
        CheckedLater(after, after, |before|, from, |after|, expected[names[n]], h);
      }
    }
  }

  lemma StillPlain(before: seq<State>, after: seq<State>, from: nat, to: nat, names: seq<string>)
    requires before <= after && to <= |before| && forall i | 0 <= i < |names| :: SeenPlain(before, from, to, names[i])
    ensures forall i | 0 <= i < |names| ::
              SeenPlain(after, from, to, names[i]) && SeenPlain(after, from, |after|, names[i])
  {
    hide IsPlain;
    forall i | 0 <= i < |names|
      ensures SeenPlain(after, from, to, names[i]) && SeenPlain(after, from, |after|, names[i])
    {
      var k :| from <= k < to && IsPlain(before[k], names[i]);
      assert IsPlain(after[k], names[i]);
    }
  }

  lemma EnumeratedLater(before: seq<State>, after: seq<State>, at: nat, to: nat, expected: map<string, Artifact>)
    requires before <= after && to <= |before| && Enumerated(before, at, to, expected)
    ensures Enumerated(after, at, to, expected)
  {
    hide SeenPlain;
    forall name | name in expected
      ensures SeenPlain(after, at + 1, to, name)
    {
      StillPlain(before, after, at + 1, to, [name]);
      assert [name][0] == name;
    }
  }

  // ---------------------------------------------------------------- sizes

  function SizeOf(names: seq<string>, expected: map<string, Artifact>): int
    requires forall name | name in names :: name in expected
  {
    if names == [] then 0
    else
      assert names[|names| - 1] in names;
      SizeOf(names[..|names| - 1], expected) + expected[names[|names| - 1]].size
  }

  predicate Declares(declared: seq<Artifact>, name: string) {
    exists a :: a in declared && a.name == name
  }

  lemma {:induction false} SizeOfSplit(left: seq<string>, right: seq<string>, expected: map<string, Artifact>)
    requires forall name | name in left + right :: name in expected
    ensures forall name | name in left :: name in expected
    ensures forall name | name in right :: name in expected
    ensures SizeOf(left + right, expected) == SizeOf(left, expected) + SizeOf(right, expected)
    decreases |right|
  {
    assert forall name | name in left :: name in left + right;
    assert forall name | name in right :: name in left + right;
    if right == [] {
      assert left + right == left;
    } else {
      var n := |right| - 1;
      assert (left + right)[..|left + right| - 1] == left + right[..n];
      assert forall name | name in left + right[..n] :: name in left + right;
      SizeOfSplit(left, right[..n], expected);
    }
  }

  lemma RemoveName(names: seq<string>, k: nat, expected: map<string, Artifact>)
    requires k < |names| && forall name | name in names :: name in expected
    ensures forall name | name in names[..k] + names[k + 1..] :: name in names
    ensures SizeOf(names, expected) == SizeOf(names[..k] + names[k + 1..], expected) + expected[names[k]].size
  {
    var left, right := names[..k], names[k + 1..];
    assert names == left + ([names[k]] + right);
    SizeOfSplit(left, [names[k]] + right, expected);
    SizeOfSplit([names[k]], right, expected);
    assert forall name | name in left + right :: name in names;
    SizeOfSplit(left, right, expected);
    assert SizeOf([names[k]], expected) == expected[names[k]].size by {
      assert [names[k]][..0] == [];
    }
  }

  /** Distinct names from the declaration never weigh more than the whole declaration. */
  lemma {:induction false} SizeOfDistinct(names: seq<string>, declared: seq<Artifact>, expected: map<string, Artifact>)
    requires forall i, j :: 0 <= i < j < |names| ==> names[i] != names[j]
    requires forall i, j :: 0 <= i < j < |declared| ==> declared[i].name != declared[j].name
    requires forall a | a in declared :: a.size > 0 && a.name in expected && expected[a.name] == a
    requires forall name | name in names :: Declares(declared, name)
    requires forall name | name in names :: name in expected
    ensures SizeOf(names, expected) <= TotalSize(declared)
    decreases |declared|
  {
    if declared == [] {
      assert forall k | 0 <= k < |names| :: Declares(declared, names[k]);
      assert names == [];
    } else {
      var n := |declared| - 1;
      var last := declared[n];
      if k :| 0 <= k < |names| && names[k] == last.name {
        var others := names[..k] + names[k + 1..];
        RemoveName(names, k, expected);
        StillDeclared(others, declared);
        SizeOfDistinct(others, declared[..n], expected);
      } else {
        StillDeclared(names, declared);
        SizeOfDistinct(names, declared[..n], expected);
      }
    }
  }

  lemma StillDeclared(names: seq<string>, declared: seq<Artifact>)
    requires declared != [] && declared[|declared| - 1].name !in names
    requires forall name | name in names :: Declares(declared, name)
    ensures forall name | name in names :: Declares(declared[..|declared| - 1], name)
  {
    forall name | name in names
      ensures Declares(declared[..|declared| - 1], name)
    {
      var a :| a in declared && a.name == name;
      assert a in declared[..|declared| - 1];
    }
  }

  /** Distinct names, each of one of the distinct artifacts in the table. */
  ghost predicate Matched(names: seq<string>, declared: seq<Artifact>, expected: map<string, Artifact>) {
    && (forall i, j :: 0 <= i < j < |names| ==> names[i] != names[j])
    && (forall i, j :: 0 <= i < j < |declared| ==> declared[i].name != declared[j].name)
    && (forall a | a in declared :: a.size > 0 && a.name in expected && expected[a.name] == a)
    && forall name | name in names :: name in expected && Declares(declared, name)
  }

  /** The size check inside the loop can never fire: what is verified so far and the next file fit the declaration. */
  lemma RunningTotalFits(names: seq<string>, i: nat, declared: seq<Artifact>, expected: map<string, Artifact>)
    requires i < |names| && Matched(names, declared, expected)
    ensures names[i] in expected && expected[names[i]].size > 0
    ensures forall name | name in names[..i] :: name in expected
    ensures SizeOf(names[..i], expected) + expected[names[i]].size <= TotalSize(declared)
  {
    var next := names[..i + 1];
    assert next[..i] == names[..i];
    assert forall name | name in next :: name in names;
    SizeOfDistinct(next, declared, expected);
  }

  /** Names that differ in lower case differ, and the table of them is unambiguous. */
  lemma NamesDiffer(declared: seq<Artifact>)
    requires ValidDeclaration(declared)
    ensures forall i, j :: 0 <= i < j < |declared| ==> declared[i].name != declared[j].name
    ensures forall a | a in declared :: a.name in Expected(declared) && Expected(declared)[a.name] == a
    ensures Unambiguous(Expected(declared))
  {
    hide ValidArtifactName, InLowerCase;
    forall i, j | 0 <= i < |declared| && 0 <= j < |declared|
                  && InLowerCase(declared[i].name) == InLowerCase(declared[j].name)
      ensures i == j
    {
    }
    forall a, b | a in declared && b in declared && InLowerCase(a.name) == InLowerCase(b.name)
      ensures a == b
    {
      var i :| 0 <= i < |declared| && declared[i] == a;
      var j :| 0 <= j < |declared| && declared[j] == b;
      assert i == j;
    }
  }

  lemma Prepared(s: State, declared: seq<Artifact>, h: Host)
    requires ValidDeclaration(declared)
    ensures TotalSize(declared) <= MAX_BUNDLE && Unambiguous(Expected(declared))
    ensures forall i, j :: 0 <= i < j < |declared| ==> declared[i].name != declared[j].name
    ensures forall a | a in declared :: a.size > 0 && a.name in Expected(declared) && Expected(declared)[a.name] == a
    ensures forall name | name in Expected(declared) :: Declares(declared, name) && Expected(declared)[name].name == name
    ensures BundleMatches(s, declared, h) <==>
              ExactEntries(s, Expected(declared))
              && forall name | name in Expected(declared) :: Holds(s, Expected(declared)[name], h)
  {
    hide ValidArtifactName, InLowerCase, Unambiguous, Holds, BundleMatches, ExactEntries;
    NamesDiffer(declared);
    BundleByName(s, declared, Expected(declared), h);
  }

  lemma BundleByName(s: State, declared: seq<Artifact>, expected: map<string, Artifact>, h: Host)
    requires forall a | a in declared :: a.name in expected && expected[a.name] == a
    requires forall name | name in expected :: expected[name] in declared && expected[name].name == name
    ensures BundleMatches(s, declared, h) <==>
              ExactEntries(s, expected) && forall name | name in expected :: Holds(s, expected[name], h)
  {
    assert expected.Keys == set a | a in declared :: a.name;
  }
}
