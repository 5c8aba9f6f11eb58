/**
 * Publishing a set of files in one directory: every file is staged under a temporary name, then linked to its own name,
 * then the temporary names are removed; a failure undoes what was done.
 */
module TemplateSet {
  import opened Prelude
  import opened Directory

  datatype Template = Template(name: string, data: seq<char>)

  /** A staged file: its final and temporary names, the inode written, the inode last seen, whether it was linked. */
  datatype Staged = Staged(target: string, temporary: string, inode: Inode, identity: Option<Inode>, linked: bool)

  const PREFIX := ".leaguebridge-evidence-"
  const ATTEMPTS: nat := 100

  // ---------------------------------------------------------------- what the directory holds without interference

  /** Names and inodes of staged files are new and all different, and linked names are new too. */
  ghost predicate Fresh(base: map<string, Inode>, baseFiles: map<Inode, File>, staged: seq<Staged>) {
    && (forall j | 0 <= j < |staged| :: staged[j].temporary !in base && staged[j].inode !in baseFiles)
    && (forall j, k | 0 <= j < k < |staged| ::
          staged[j].temporary != staged[k].temporary && staged[j].inode != staged[k].inode)
    && (forall j | 0 <= j < |staged| && staged[j].linked :: staged[j].target !in base)
    && (forall j, k | 0 <= j < |staged| && 0 <= k < |staged| && staged[j].linked ::
          && staged[j].target != staged[k].temporary
          && (j != k && staged[k].linked ==> staged[j].target != staged[k].target))
  }

  /** Whether the final name of item `j` is still to be kept when the first `i` items are cleaned up. */
  predicate Standing(staged: seq<Staged>, j: nat, i: nat, drop: bool)
    requires j < |staged|
  {
    staged[j].linked && (drop ==> i <= j)
  }

  /** Nothing that should be there is missing or rebound. */
  ghost predicate Keeps(names: map<string, Inode>, base: map<string, Inode>, staged: seq<Staged>, i: nat, drop: bool) {
    && (forall n | n in base :: n in names && names[n] == base[n])
    && (forall j | i <= j < |staged| :: staged[j].temporary in names && names[staged[j].temporary] == staged[j].inode)
    && (forall j | 0 <= j < |staged| && Standing(staged, j, i, drop) ::
          staged[j].target in names && names[staged[j].target] == staged[j].inode)
  }

  /** Nothing is there that should not be. */
  ghost predicate Covers(names: map<string, Inode>, base: map<string, Inode>, staged: seq<Staged>, i: nat, drop: bool) {
    forall n | n in names ::
      || n in base
      || (exists j :: i <= j < |staged| && staged[j].temporary == n)
      || (exists j :: 0 <= j < |staged| && Standing(staged, j, i, drop) && staged[j].target == n)
  }

  ghost predicate Holds(files: map<Inode, File>, baseFiles: map<Inode, File>, staged: seq<Staged>, all: seq<Template>) {
    && |staged| <= |all|
    && (forall i | i in baseFiles :: i in files && files[i] == baseFiles[i])
    && (forall j | 0 <= j < |staged| :: staged[j].inode in files && staged[j].target == all[j].name)
    && (forall j | 0 <= j < |staged| && staged[j].identity.Some? ::
          files[staged[j].inode] == Regular(all[j].data) && staged[j].identity.value == staged[j].inode)
  }

  // ---------------------------------------------------------------- what may be linked and removed, with interference

  /** An inode the run saw under a temporary name that it had created. */
  ghost predicate Own(past: seq<Event>, inode: Inode) {
    exists temporary :: Created(temporary) in past && Inspected(temporary, Some(inode)) in past
  }

  /** Links go to free names. What is removed is a temporary name of the run, or a name it linked and just saw to be its own. */
  ghost predicate Allowed(past: seq<Event>, e: Event) {
    match e
    case Linked(_, free) => free
    case Removed(name) =>
      || Created(name) in past
      || (Linked(name, true) in past && past != []
          && past[|past| - 1].Inspected? && past[|past| - 1].name == name
          && past[|past| - 1].found.Some? && Own(past, past[|past| - 1].found.value))
    case _ => true
  }

  ghost predicate Disciplined(log: seq<Event>) {
    forall i | 0 <= i < |log| :: Allowed(log[..i], log[i])
  }

  lemma Recorded(log: seq<Event>, e: Event)
    requires Disciplined(log) && Allowed(log, e)
    ensures Disciplined(log + [e])
  {
    var all := log + [e];
    forall i | 0 <= i < |all|
      ensures Allowed(all[..i], all[i])
    {
      assert all[..i] == if i < |log| then log[..i] else log;
    }
  }

  /** The log vouches for the staged items: created, last seen as recorded, linked where they say so. */
  ghost predicate Vouches(log: seq<Event>, staged: seq<Staged>) {
    forall s | s in staged ::
      && Created(s.temporary) in log
      && (s.identity.Some? ==> Inspected(s.temporary, s.identity) in log)
      && (s.linked ==> Linked(s.target, true) in log)
  }

  // ---------------------------------------------------------------- the code

  /**
   * Remove the temporary names, and first the published names if asked to, each only when it still is the file that was
   * staged. Errors are passed over; `complete` tells whether there were none.
   */
  method Cleanup(d: Dir, staged: seq<Staged>, removePublished: bool, ghost base: map<string, Inode>,
                 ghost baseFiles: map<Inode, File>)
    returns (complete: bool)
    requires d.Valid() && Disciplined(d.log) && Vouches(d.log, staged)
    requires d.quiet ==>
               && Fresh(base, baseFiles, staged) && Keeps(d.names, base, staged, 0, removePublished)
               && forall s | s in staged && s.linked :: s.identity == Some(s.inode)
    modifies d`names, d`files, d`log
    ensures d.Valid() && Disciplined(d.log)
    ensures d.quiet ==> d.files == old(d.files) && Keeps(d.names, base, staged, |staged|, removePublished)
    ensures d.quiet && complete && Covers(old(d.names), base, staged, 0, removePublished) ==>
              Covers(d.names, base, staged, |staged|, removePublished)
  {
    complete := true;
    for i := 0 to |staged|
      invariant d.Valid() && Disciplined(d.log) && Vouches(d.log, staged)
      invariant d.quiet ==> d.files == old(d.files) && Keeps(d.names, base, staged, i, removePublished)
      invariant d.quiet && complete && Covers(old(d.names), base, staged, 0, removePublished) ==>
                  Covers(d.names, base, staged, i, removePublished)
    {
      var worked := CleanupOne(d, staged, i, removePublished, base, baseFiles);
      complete := complete && worked;
    }
  }

  method CleanupOne(d: Dir, staged: seq<Staged>, i: nat, removePublished: bool, ghost base: map<string, Inode>,
                    ghost baseFiles: map<Inode, File>)
    returns (complete: bool)
    requires i < |staged|
    requires d.Valid() && Disciplined(d.log) && Vouches(d.log, staged)
    requires d.quiet ==>
               && Fresh(base, baseFiles, staged) && Keeps(d.names, base, staged, i, removePublished)
               && (staged[i].linked ==> staged[i].identity == Some(staged[i].inode))
    modifies d`names, d`files, d`log
    ensures d.Valid() && Disciplined(d.log) && Vouches(d.log, staged)
    ensures d.quiet ==> d.files == old(d.files) && Keeps(d.names, base, staged, i + 1, removePublished)
    ensures d.quiet && complete && Covers(old(d.names), base, staged, i, removePublished) ==>
              Covers(d.names, base, staged, i + 1, removePublished)
  {
    hide Keeps, Covers, Fresh, Disciplined, Vouches;
    var item := staged[i];
    var dropped := false;
    if removePublished && item.linked {
      dropped := RemoveTarget(d, staged, i);
    }
    var removed := RemoveTemporary(d, staged, i);
    complete := removed && (dropped || !(removePublished && item.linked));
    if d.quiet {
      CleanupStep(old(d.names), d.names, base, baseFiles, staged, i, removePublished, dropped, removed);
    }
  }

  /** Remove a published name if it is still seen to be the file that was staged. */
  method RemoveTarget(d: Dir, staged: seq<Staged>, i: nat) returns (dropped: bool)
    requires i < |staged| && staged[i].linked
    requires d.Valid() && Disciplined(d.log) && Vouches(d.log, staged)
    modifies d`names, d`files, d`log
    ensures d.Valid() && Disciplined(d.log) && Vouches(d.log, staged)
    ensures d.quiet ==> d.files == old(d.files)
    ensures d.quiet ==> d.names == old(d.names) - if dropped then {staged[i].target} else {}
  {
    hide Disciplined, Vouches, Allowed;
    var item := staged[i];
    var seen := d.Lstat(item.target);
    Inspects(old(d.log), d.log, staged, item.target);
    if seen.Found? && item.identity == Some(seen.inode) {
      label Before:
      TargetMayGo(d.log, staged, i);
      dropped := d.Remove(item.target);
      Removes(old@Before(d.log), d.log, staged, item.target);
    } else {
      dropped := false;
    }
  }

  method RemoveTemporary(d: Dir, staged: seq<Staged>, i: nat) returns (removed: bool)
    requires i < |staged|
    requires d.Valid() && Disciplined(d.log) && Vouches(d.log, staged)
    modifies d`names, d`files, d`log
    ensures d.Valid() && Disciplined(d.log) && Vouches(d.log, staged)
    ensures d.quiet ==> d.files == old(d.files)
    ensures d.quiet ==> d.names == old(d.names) - if removed then {staged[i].temporary} else {}
  {
    hide Disciplined, Vouches, Allowed;
    TemporaryMayGo(d.log, staged, i);
    removed := d.Remove(staged[i].temporary);
    Removes(old(d.log), d.log, staged, staged[i].temporary);
  }

  lemma TemporaryMayGo(log: seq<Event>, staged: seq<Staged>, i: nat)
    requires i < |staged| && Vouches(log, staged)
    ensures Allowed(log, Removed(staged[i].temporary))
  {
    assert staged[i] in staged;
  }

  lemma TargetMayGo(log: seq<Event>, staged: seq<Staged>, i: nat)
    requires i < |staged| && Vouches(log, staged) && staged[i].linked && staged[i].identity.Some?
    requires log != [] && log[|log| - 1] == Inspected(staged[i].target, staged[i].identity)
    ensures Allowed(log, Removed(staged[i].target))
  {
    assert staged[i] in staged;
    assert Own(log, staged[i].identity.value);
  }

  lemma Inspects(before: seq<Event>, after: seq<Event>, staged: seq<Staged>, name: string)
    requires Disciplined(before) && Vouches(before, staged)
    requires |after| == |before| + 1 && after[..|before|] == before
    requires after[|before|].Inspected? && after[|before|].name == name
    ensures Disciplined(after) && Vouches(after, staged)
  {
    assert after == before + [after[|before|]];
    Recorded(before, after[|before|]);
    forall e | e in before ensures e in after {}
  }

  lemma Removes(before: seq<Event>, after: seq<Event>, staged: seq<Staged>, name: string)
    requires Disciplined(before) && Vouches(before, staged)
    requires after == before + [Removed(name)] && Allowed(before, Removed(name))
    ensures Disciplined(after) && Vouches(after, staged)
  {
    Recorded(before, Removed(name));
    forall e | e in before ensures e in after {}
  }

  /** One item cleaned up: whatever was removed, nothing else is disturbed; if all was removed, nothing is left of it. */
  lemma CleanupStep(names: map<string, Inode>, after: map<string, Inode>, base: map<string, Inode>,
                    baseFiles: map<Inode, File>, staged: seq<Staged>, i: nat, drop: bool, target: bool, temporary: bool)
    requires i < |staged| && Fresh(base, baseFiles, staged) && Keeps(names, base, staged, i, drop)
    requires target ==> drop && staged[i].linked
    requires after == (names - if target then {staged[i].target} else {}) - if temporary then {staged[i].temporary} else {}
    ensures Keeps(after, base, staged, i + 1, drop)
    ensures temporary && (drop && staged[i].linked ==> target) && Covers(names, base, staged, i, drop) ==>
              Covers(after, base, staged, i + 1, drop)
  {
    hide Covers;
    assert forall j | 0 <= j < |staged| && Standing(staged, j, i + 1, drop) :: Standing(staged, j, i, drop);
    if temporary && (drop && staged[i].linked ==> target) && Covers(names, base, staged, i, drop) {
      CleanupCovers(names, after, base, staged, i, drop);
    }
  }

  lemma CleanupCovers(names: map<string, Inode>, after: map<string, Inode>, base: map<string, Inode>,
                      staged: seq<Staged>, i: nat, drop: bool)
    requires i < |staged| && Covers(names, base, staged, i, drop)
    requires forall n | n in after :: n in names && n != staged[i].temporary
                                      && (drop && staged[i].linked ==> n != staged[i].target)
    ensures Covers(after, base, staged, i + 1, drop)
  {
    forall n | n in after && n !in base
      ensures (exists j :: i + 1 <= j < |staged| && staged[j].temporary == n)
              || exists j :: 0 <= j < |staged| && Standing(staged, j, i + 1, drop) && staged[j].target == n
    {
      if !(exists j :: i + 1 <= j < |staged| && staged[j].temporary == n) {
        var j :| 0 <= j < |staged| && Standing(staged, j, i, drop) && staged[j].target == n;
        assert Standing(staged, j, i + 1, drop);
      }
    }
  }

  /**
   * A new regular file under a random name; `complete` is false when a file could be neither used nor removed. At most
   * `ATTEMPTS` names are tried, and where nothing fails without a reason that many were taken before it gives up.
   */
  method CreateTemp(d: Dir, ghost staged: seq<Staged>) returns (made: Option<(string, Inode)>, complete: bool)
    requires d.Valid() && Disciplined(d.log) && Vouches(d.log, staged)
    modifies d`names, d`files, d`log
    ensures d.Valid() && Disciplined(d.log) && Vouches(d.log, staged)
    ensures made.Some? ==> Created(made.value.0) in d.log
    ensures d.quiet && made.Some? ==>
              && made.value.0 !in old(d.names) && made.value.1 !in old(d.files)
              && d.names == old(d.names)[made.value.0 := made.value.1]
              && d.files == old(d.files)[made.value.1 := Regular("")]
    ensures d.quiet ==> (forall n | n in old(d.names) :: n in d.names && d.names[n] == old(d.names)[n])
    ensures d.quiet ==> (forall f | f in old(d.files) :: f in d.files && d.files[f] == old(d.files)[f])
    ensures d.quiet && made.None? && complete ==> d.names == old(d.names)
    ensures d.quiet && d.reliable ==> made.Some? && made.value.0 !in d.reserved
    ensures |old(d.log)| <= |d.log| <= |old(d.log)| + ATTEMPTS + 1
    ensures forall k | |old(d.log)| <= k < |d.log| :: d.log[k].Refused? || k >= |d.log| - 2
    ensures d.reliable && made.None? ==>
              |d.log| == |old(d.log)| + ATTEMPTS && forall k | |old(d.log)| <= k < |d.log| :: d.log[k].Refused?
  {
    hide Allowed, Disciplined, Vouches;
    for attempt := 0 to ATTEMPTS
      invariant d.Valid() && Disciplined(d.log) && Vouches(d.log, staged)
      invariant d.quiet ==> d.names == old(d.names) && d.files == old(d.files)
      invariant d.quiet && d.reliable ==> attempt == 0
      invariant |d.log| == |old(d.log)| + attempt && forall k | |old(d.log)| <= k < |d.log| :: d.log[k].Refused?
    {
      var drawn := d.RandomName(PREFIX);
      if drawn.None? {
        return None, true;
      }
      var name := drawn.value;
      label Before:
      var inode, taken := d.CreateExclusive(name);
      if inode.None? {
        Refuses(old@Before(d.log), d.log, staged, name);
        if taken {
          continue;
        }
        return None, true;
      }
      Creates(old@Before(d.log), d.log, staged, name);
      var inspected := d.Works();
      if !inspected {
        label Inspecting:
        JustCreatedMayGo(d.log, name);
        var removed := d.Remove(name);
        Removes(old@Inspecting(d.log), d.log, staged, name);
        return None, removed;
      }
      return Some((name, inode.value)), true;
    }
    return None, true;
  }

  lemma Creates(before: seq<Event>, after: seq<Event>, staged: seq<Staged>, name: string)
    requires Disciplined(before) && Vouches(before, staged) && after == before + [Created(name)]
    ensures Disciplined(after) && Vouches(after, staged) && Created(name) in after
  {
    Recorded(before, Created(name));
    forall e | e in before ensures e in after {}
  }

  lemma Refuses(before: seq<Event>, after: seq<Event>, staged: seq<Staged>, name: string)
    requires Disciplined(before) && Vouches(before, staged) && after == before + [Refused(name)]
    ensures Disciplined(after) && Vouches(after, staged)
  {
    Recorded(before, Refused(name));
    forall e | e in before ensures e in after {}
  }

  lemma JustCreatedMayGo(log: seq<Event>, name: string)
    requires Created(name) in log
    ensures Allowed(log, Removed(name))
  {
  }

  /** Everything known about a quiet directory while items are staged and then linked. */
  ghost predicate Consistent(names: map<string, Inode>, files: map<Inode, File>, base: map<string, Inode>,
                             baseFiles: map<Inode, File>, staged: seq<Staged>, all: seq<Template>) {
    && Fresh(base, baseFiles, staged) && Holds(files, baseFiles, staged, all)
    && Keeps(names, base, staged, 0, false) && Covers(names, base, staged, 0, false)
  }

  predicate Unlinked(staged: seq<Staged>) {
    forall s | s in staged :: !s.linked
  }

  /** No temporary name is one of the names set aside. */
  predicate Avoids(staged: seq<Staged>, reserved: set<string>) {
    forall s | s in staged :: s.temporary !in reserved
  }

  predicate Identified(staged: seq<Staged>) {
    forall s | s in staged :: s.identity.Some?
  }

  /** Stage one file: create, write, inspect. On failure the item, if any, is still listed for cleaning up. */
  method StageOne(d: Dir, all: seq<Template>, staged: seq<Staged>, ghost base: map<string, Inode>,
                  ghost baseFiles: map<Inode, File>)
    returns (ok: bool, more: seq<Staged>, complete: bool)
    requires |staged| < |all| && Unlinked(staged) && Identified(staged)
    requires d.Valid() && Disciplined(d.log) && Vouches(d.log, staged)
    requires d.quiet ==> Consistent(d.names, d.files, base, baseFiles, staged, all)
    modifies d`names, d`files, d`log
    ensures d.Valid() && Disciplined(d.log) && Vouches(d.log, more) && Unlinked(more)
    ensures ok ==> |more| == |staged| + 1 && Identified(more)
    ensures d.quiet && complete ==> Consistent(d.names, d.files, base, baseFiles, more, all)
    ensures d.quiet ==> Fresh(base, baseFiles, more) && Holds(d.files, baseFiles, more, all)
                        && Keeps(d.names, base, more, 0, false)
    ensures ok ==> complete
    ensures d.quiet && d.reliable ==> ok && more[..|staged|] == staged && more[|staged|].temporary !in d.reserved
  {
    hide Disciplined, Vouches, Fresh, Holds, Keeps, Covers;
    var file := all[|staged|];
    var made, clean := CreateTemp(d, staged);
    if made.None? {
      if d.quiet {
        Undisturbed(old(d.names), old(d.files), d.names, d.files, base, baseFiles, staged, all);
      }
      return false, staged, clean;
    }
    var (temporary, inode) := made.value;
    var item := Staged(file.name, temporary, inode, None, false);
    more := staged + [item];
    if d.quiet {
      StagedOneMore(old(d.names), old(d.files), base, baseFiles, staged, all, item);
    }
    VouchesForMore(d.log, staged, item);
    label Writing:
    var ready := d.Works();
    if !ready {
      return false, more, true;
    }
    var written := d.Write(inode, file.data);
    if d.quiet {
      WritingKeeps(old@Writing(d.names), old@Writing(d.files), d.files, base, baseFiles, more, all);
    }
    if !written {
      return false, more, true;
    }
    label Inspecting:
    var seen := d.Lstat(temporary);
    Inspects(old@Inspecting(d.log), d.log, more, temporary);
    if !seen.Found? || !seen.regular {
      return false, more, true;
    }
    var last := |staged|;
    var known := item.(identity := Some(seen.inode));
    if d.quiet {
      IdentityKnown(d.names, d.files, base, baseFiles, staged, all, item, known);
    }
    VouchesForIdentity(d.log, staged, item, known);
    ok, more, complete := true, staged + [known], true;
  }

  lemma Undisturbed(names: map<string, Inode>, files: map<Inode, File>, after: map<string, Inode>, written: map<Inode, File>,
                    base: map<string, Inode>, baseFiles: map<Inode, File>, staged: seq<Staged>, all: seq<Template>)
    requires Consistent(names, files, base, baseFiles, staged, all)
    requires forall n | n in names :: n in after && after[n] == names[n]
    requires forall f | f in files :: f in written && written[f] == files[f]
    ensures Fresh(base, baseFiles, staged) && Holds(written, baseFiles, staged, all) && Keeps(after, base, staged, 0, false)
    ensures after == names ==> Consistent(after, written, base, baseFiles, staged, all)
  {
    hide Covers, Fresh;
  }

  lemma StagedOneMore(names: map<string, Inode>, files: map<Inode, File>, base: map<string, Inode>,
                      baseFiles: map<Inode, File>, staged: seq<Staged>, all: seq<Template>, item: Staged)
    requires Consistent(names, files, base, baseFiles, staged, all) && Unlinked(staged) && |staged| < |all|
    requires item.temporary !in names && item.inode !in files && item.identity.None? && !item.linked
    requires item.target == all[|staged|].name
    ensures Consistent(names[item.temporary := item.inode], files[item.inode := Regular("")], base, baseFiles,
                       staged + [item], all)
  {
    hide Fresh, Holds, Keeps, Covers;
    FreshOneMore(names, files, base, baseFiles, staged, all, item);
    KeepsOneMore(names, base, staged, item);
    CoversOneMore(names, base, staged, item);
  }

  lemma FreshOneMore(names: map<string, Inode>, files: map<Inode, File>, base: map<string, Inode>,
                     baseFiles: map<Inode, File>, staged: seq<Staged>, all: seq<Template>, item: Staged)
    requires Fresh(base, baseFiles, staged) && Holds(files, baseFiles, staged, all) && Keeps(names, base, staged, 0, false)
    requires Unlinked(staged) && |staged| < |all| && item.target == all[|staged|].name
    requires item.temporary !in names && item.inode !in files && item.identity.None? && !item.linked
    ensures Fresh(base, baseFiles, staged + [item])
    ensures Holds(files[item.inode := Regular("")], baseFiles, staged + [item], all)
  {
    assert forall s | s in staged + [item] :: !s.linked;
  }

  lemma KeepsOneMore(names: map<string, Inode>, base: map<string, Inode>, staged: seq<Staged>, item: Staged)
    requires Keeps(names, base, staged, 0, false) && item.temporary !in names && !item.linked
    ensures Keeps(names[item.temporary := item.inode], base, staged + [item], 0, false)
  {
    var more := staged + [item];
    assert forall j | 0 <= j < |more| && Standing(more, j, 0, false) :: j < |staged| && Standing(staged, j, 0, false);
  }

  lemma CoversOneMore(names: map<string, Inode>, base: map<string, Inode>, staged: seq<Staged>, item: Staged)
    requires Covers(names, base, staged, 0, false) && Unlinked(staged)
    ensures Covers(names[item.temporary := item.inode], base, staged + [item], 0, false)
  {
    var more := staged + [item];
    assert more[|staged|].temporary == item.temporary;
    forall n | n in names && n !in base
      ensures exists j :: 0 <= j < |more| && more[j].temporary == n
    {
      assert forall j | 0 <= j < |staged| :: staged[j] in staged;
      var j :| 0 <= j < |staged| && staged[j].temporary == n;
      assert more[j].temporary == n;
    }
  }

  lemma WritingKeeps(names: map<string, Inode>, files: map<Inode, File>, written: map<Inode, File>, base: map<string, Inode>,
                     baseFiles: map<Inode, File>, more: seq<Staged>, all: seq<Template>)
    requires Consistent(names, files, base, baseFiles, more, all) && more != [] && more[|more| - 1].identity.None?
    requires written.Keys == files.Keys
    requires forall f | f in files && f != more[|more| - 1].inode :: written[f] == files[f]
    ensures Consistent(names, written, base, baseFiles, more, all)
  {
    hide Covers, Keeps;
  }

  lemma IdentityKnown(names: map<string, Inode>, files: map<Inode, File>, base: map<string, Inode>,
                      baseFiles: map<Inode, File>, staged: seq<Staged>, all: seq<Template>, item: Staged, known: Staged)
    requires Consistent(names, files, base, baseFiles, staged + [item], all) && known == item.(identity := Some(item.inode))
    requires |staged| < |all| && item.inode in files && files[item.inode] == Regular(all[|staged|].data)
    ensures Consistent(names, files, base, baseFiles, staged + [known], all)
  {
    hide Covers, Keeps, Fresh, Holds;
    SameShape(names, base, baseFiles, staged + [item], staged + [known]);
    HoldsIdentity(files, baseFiles, staged, all, item, known);
  }

  lemma HoldsIdentity(files: map<Inode, File>, baseFiles: map<Inode, File>, staged: seq<Staged>, all: seq<Template>,
                      item: Staged, known: Staged)
    requires Holds(files, baseFiles, staged + [item], all) && known == item.(identity := Some(item.inode))
    requires |staged| < |all| && item.inode in files && files[item.inode] == Regular(all[|staged|].data)
    ensures Holds(files, baseFiles, staged + [known], all)
  {
    var before, more := staged + [item], staged + [known];
    assert forall j | 0 <= j < |staged| :: before[j] == more[j] == staged[j];
    assert before[|staged|] == item && more[|staged|] == known;
  }

  /** Items that differ only in their recorded identity are laid out alike. */
  lemma SameShape(names: map<string, Inode>, base: map<string, Inode>, baseFiles: map<Inode, File>, a: seq<Staged>, b: seq<Staged>)
    requires |a| == |b| && Fresh(base, baseFiles, a) && Keeps(names, base, a, 0, false) && Covers(names, base, a, 0, false)
    requires forall j | 0 <= j < |a| ::
               a[j].target == b[j].target && a[j].temporary == b[j].temporary && a[j].inode == b[j].inode && a[j].linked == b[j].linked
    ensures Fresh(base, baseFiles, b) && Keeps(names, base, b, 0, false) && Covers(names, base, b, 0, false)
  {
    hide Fresh, Covers, Keeps;
    SameFreshness(base, baseFiles, a, b);
    SameKept(names, base, a, b);
    SameCover(names, base, a, b);
  }

  lemma SameFreshness(base: map<string, Inode>, baseFiles: map<Inode, File>, a: seq<Staged>, b: seq<Staged>)
    requires |a| == |b| && Fresh(base, baseFiles, a)
    requires forall j | 0 <= j < |a| ::
               a[j].target == b[j].target && a[j].temporary == b[j].temporary && a[j].inode == b[j].inode && a[j].linked == b[j].linked
    ensures Fresh(base, baseFiles, b)
  {
  }

  lemma SameKept(names: map<string, Inode>, base: map<string, Inode>, a: seq<Staged>, b: seq<Staged>)
    requires |a| == |b| && Keeps(names, base, a, 0, false)
    requires forall j | 0 <= j < |a| ::
               a[j].target == b[j].target && a[j].temporary == b[j].temporary && a[j].inode == b[j].inode && a[j].linked == b[j].linked
    ensures Keeps(names, base, b, 0, false)
  {
    assert forall j | 0 <= j < |b| && Standing(b, j, 0, false) :: Standing(a, j, 0, false);
  }

  lemma SameCover(names: map<string, Inode>, base: map<string, Inode>, a: seq<Staged>, b: seq<Staged>)
    requires |a| == |b| && Covers(names, base, a, 0, false)
    requires forall j | 0 <= j < |a| ::
               a[j].target == b[j].target && a[j].temporary == b[j].temporary && a[j].linked == b[j].linked
    ensures Covers(names, base, b, 0, false)
  {
    forall n | n in names && n !in base && !(exists j :: 0 <= j < |b| && b[j].temporary == n)
      ensures exists j :: 0 <= j < |b| && Standing(b, j, 0, false) && b[j].target == n
    {
      assert forall j | 0 <= j < |a| :: a[j].temporary == b[j].temporary;
      var j :| 0 <= j < |a| && Standing(a, j, 0, false) && a[j].target == n;
      assert Standing(b, j, 0, false);
    }
  }

  lemma VouchesForMore(log: seq<Event>, staged: seq<Staged>, item: Staged)
    requires Vouches(log, staged) && Created(item.temporary) in log && item.identity.None? && !item.linked
    ensures Vouches(log, staged + [item])
  {
  }

  lemma VouchesForIdentity(log: seq<Event>, staged: seq<Staged>, item: Staged, known: Staged)
    requires Vouches(log, staged + [item]) && known == item.(identity := known.identity) && !item.linked
    requires log != [] && log[|log| - 1] == Inspected(item.temporary, known.identity)
    ensures Vouches(log, staged + [known])
  {
    assert item in staged + [item];
    assert forall s | s in staged :: s in staged + [item];
  }

  /** Linking one more item, without interference. */
  lemma LinkedOneMore(names: map<string, Inode>, files: map<Inode, File>, base: map<string, Inode>,
                      baseFiles: map<Inode, File>, staged: seq<Staged>, all: seq<Template>, index: nat)
    requires Consistent(names, files, base, baseFiles, staged, all) && index < |staged| && !staged[index].linked
    requires staged[index].target !in names
    ensures var linked := staged[index := staged[index].(linked := true)];
            Consistent(names[staged[index].target := staged[index].inode], files, base, baseFiles, linked, all)
  {
    hide Fresh, Holds, Keeps, Covers;
    FreshLinked(names, base, baseFiles, staged, index);
    HoldsLinked(files, baseFiles, staged, all, index);
    KeepsLinked(names, base, staged, index);
    CoversLinked(names, base, staged, index);
  }

  lemma FreshLinked(names: map<string, Inode>, base: map<string, Inode>, baseFiles: map<Inode, File>,
                    staged: seq<Staged>, index: nat)
    requires Fresh(base, baseFiles, staged) && Keeps(names, base, staged, 0, false)
    requires index < |staged| && !staged[index].linked && staged[index].target !in names
    ensures Fresh(base, baseFiles, staged[index := staged[index].(linked := true)])
  {
    var linked := staged[index := staged[index].(linked := true)];
    assert forall j | 0 <= j < |staged| && staged[j].linked :: Standing(staged, j, 0, false);
  }

  lemma HoldsLinked(files: map<Inode, File>, baseFiles: map<Inode, File>, staged: seq<Staged>, all: seq<Template>, index: nat)
    requires Holds(files, baseFiles, staged, all) && index < |staged|
    ensures Holds(files, baseFiles, staged[index := staged[index].(linked := true)], all)
  {
  }

  lemma KeepsLinked(names: map<string, Inode>, base: map<string, Inode>, staged: seq<Staged>, index: nat)
    requires Keeps(names, base, staged, 0, false) && index < |staged| && !staged[index].linked
    requires staged[index].target !in names
    ensures Keeps(names[staged[index].target := staged[index].inode], base,
                  staged[index := staged[index].(linked := true)], 0, false)
  {
    var linked := staged[index := staged[index].(linked := true)];
    assert forall j | 0 <= j < |staged| && j != index && Standing(linked, j, 0, false) :: Standing(staged, j, 0, false);
  }

  lemma CoversLinked(names: map<string, Inode>, base: map<string, Inode>, staged: seq<Staged>, index: nat)
    requires Covers(names, base, staged, 0, false) && index < |staged|
    ensures Covers(names[staged[index].target := staged[index].inode], base,
                   staged[index := staged[index].(linked := true)], 0, false)
  {
    var linked := staged[index := staged[index].(linked := true)];
    assert Standing(linked, index, 0, false);
    forall n | n in names && n !in base
      ensures (exists j :: 0 <= j < |linked| && linked[j].temporary == n)
              || exists j :: 0 <= j < |linked| && Standing(linked, j, 0, false) && linked[j].target == n
    {
      if j :| 0 <= j < |staged| && staged[j].temporary == n {
        assert linked[j].temporary == n;
      } else {
        var j :| 0 <= j < |staged| && Standing(staged, j, 0, false) && staged[j].target == n;
        assert Standing(linked, j, 0, false);
      }
    }
  }

  /** Removing published names asks for at least what keeping them does. */
  lemma DroppingStartsAlike(names: map<string, Inode>, base: map<string, Inode>, staged: seq<Staged>)
    requires Keeps(names, base, staged, 0, false) && Covers(names, base, staged, 0, false)
    ensures Keeps(names, base, staged, 0, true) && Covers(names, base, staged, 0, true)
  {
    assert forall j | 0 <= j < |staged| :: Standing(staged, j, 0, true) == Standing(staged, j, 0, false);
  }

  lemma VouchesForLink(log: seq<Event>, before: seq<Event>, staged: seq<Staged>, index: nat)
    requires index < |staged| && Vouches(before, staged) && Disciplined(before)
    requires log == before + [Linked(staged[index].target, true)]
    ensures Vouches(log, staged[index := staged[index].(linked := true)]) && Disciplined(log)
  {
    var linked := staged[index := staged[index].(linked := true)];
    Recorded(before, Linked(staged[index].target, true));
    forall s | s in linked
      ensures Created(s.temporary) in log
      ensures s.identity.Some? ==> Inspected(s.temporary, s.identity) in log
      ensures s.linked ==> Linked(s.target, true) in log
    {
      var j :| 0 <= j < |linked| && linked[j] == s;
      assert staged[j] in staged;
    }
  }

  // ---------------------------------------------------------------- the whole operation

  predicate Bound(names: map<string, Inode>, files: map<Inode, File>, t: Template) {
    t.name in names && names[t.name] in files && files[names[t.name]] == Regular(t.data)
  }

  /** Names that were there keep their binding and their contents. */
  ghost predicate Untouched(names: map<string, Inode>, files: map<Inode, File>, base: map<string, Inode>,
                            baseFiles: map<Inode, File>) {
    && (forall n | n in base :: n in names && names[n] == base[n])
    && (forall f | f in baseFiles :: f in files && files[f] == baseFiles[f])
  }

  function Names(all: seq<Template>): set<string> {
    set t | t in all :: t.name
  }

  /** First stage every file. */
  method StageAll(d: Dir, all: seq<Template>, ghost base: map<string, Inode>, ghost baseFiles: map<Inode, File>)
    returns (ok: bool, staged: seq<Staged>, complete: bool)
    requires d.Valid() && Disciplined(d.log)
    requires d.quiet ==> base == d.names && baseFiles == d.files
    modifies d`names, d`files, d`log
    ensures d.Valid() && Disciplined(d.log) && Vouches(d.log, staged) && Unlinked(staged)
    ensures ok ==> |staged| == |all| && Identified(staged) && complete
    ensures d.quiet && complete ==> Consistent(d.names, d.files, base, baseFiles, staged, all)
    ensures d.quiet ==> Fresh(base, baseFiles, staged) && Holds(d.files, baseFiles, staged, all)
                        && Keeps(d.names, base, staged, 0, false)
    ensures d.quiet && d.reliable ==> ok && Avoids(staged, d.reserved)
  {
    staged := [];
    for i := 0 to |all|
      invariant |staged| == i && Unlinked(staged) && Identified(staged)
      invariant d.Valid() && Disciplined(d.log) && Vouches(d.log, staged)
      invariant d.quiet ==> Consistent(d.names, d.files, base, baseFiles, staged, all)
      invariant d.quiet && d.reliable ==> Avoids(staged, d.reserved)
    {
      var staging, more, clean := StageOne(d, all, staged, base, baseFiles);
      staged := more;
      if !staging {
        return false, staged, clean;
      }
    }
    return true, staged, true;
  }

  /** Then link every file to its own name, stopping at the first that fails. */
  method LinkAll(d: Dir, all: seq<Template>, staged: seq<Staged>, ghost base: map<string, Inode>,
                 ghost baseFiles: map<Inode, File>)
    returns (ok: bool, linked: seq<Staged>)
    requires |staged| == |all| && Unlinked(staged) && Identified(staged)
    requires d.Valid() && Disciplined(d.log) && Vouches(d.log, staged)
    requires d.quiet ==> Consistent(d.names, d.files, base, baseFiles, staged, all)
    modifies d`names, d`files, d`log
    ensures d.Valid() && Disciplined(d.log) && Vouches(d.log, linked) && |linked| == |all| && Identified(linked)
    ensures d.quiet ==> Consistent(d.names, d.files, base, baseFiles, linked, all)
    ensures ok ==> forall s | s in linked :: s.linked
    ensures d.quiet && d.reliable && Free(all, base) && Names(all) <= d.reserved && Avoids(staged, d.reserved) ==> ok
  {
    hide Disciplined, Vouches, Consistent, Free, Names;
    linked := staged;
    for i := 0 to |staged|
      invariant |linked| == |all| && Identified(linked)
      invariant forall j | 0 <= j < |linked| :: linked[j].linked <==> j < i
      invariant forall j | 0 <= j < |linked| :: linked[j].temporary == staged[j].temporary
      invariant d.Valid() && Disciplined(d.log) && Vouches(d.log, linked)
      invariant d.quiet ==> Consistent(d.names, d.files, base, baseFiles, linked, all)
    {
      label Linking:
      if d.quiet {
        TemporaryIs(d.names, d.files, base, baseFiles, linked, all, i);
        if Free(all, base) && Names(all) <= d.reserved && Avoids(staged, d.reserved) {
          TargetIsFree(d.names, d.files, base, baseFiles, linked, all, i, d.reserved);
        }
      }
      var done := d.Link(linked[i].temporary, linked[i].target);
      if !done {
        return false, linked;
      }
      VouchesForLink(d.log, old@Linking(d.log), linked, i);
      if d.quiet {
        LinkedOneMore(old@Linking(d.names), d.files, base, baseFiles, linked, all, i);
      }
      linked := linked[i := linked[i].(linked := true)];
    }
    ok := true;
  }

  /** The names asked for are new and all different. */
  predicate Free(all: seq<Template>, base: map<string, Inode>) {
    && (forall t | t in all :: t.name !in base)
    && forall i, j | 0 <= i < j < |all| :: all[i].name != all[j].name
  }

  lemma TargetIsFree(names: map<string, Inode>, files: map<Inode, File>, base: map<string, Inode>,
                     baseFiles: map<Inode, File>, staged: seq<Staged>, all: seq<Template>, i: nat, reserved: set<string>)
    requires Consistent(names, files, base, baseFiles, staged, all) && i < |staged| == |all| && Free(all, base)
    requires forall j | 0 <= j < |staged| :: staged[j].linked <==> j < i
    requires Names(all) <= reserved && forall j | 0 <= j < |staged| :: staged[j].temporary !in reserved
    ensures staged[i].target !in names
  {
    hide Fresh, Keeps;
    assert staged[i].target == all[i].name && all[i] in all && all[i].name in Names(all);
    assert forall j | 0 <= j < i :: staged[j].target == all[j].name != all[i].name;
    assert forall j | 0 <= j < |staged| && Standing(staged, j, 0, false) :: j < i;
  }

  lemma TemporaryIs(names: map<string, Inode>, files: map<Inode, File>, base: map<string, Inode>,
                    baseFiles: map<Inode, File>, staged: seq<Staged>, all: seq<Template>, i: nat)
    requires Consistent(names, files, base, baseFiles, staged, all) && i < |staged|
    ensures staged[i].temporary in names && names[staged[i].temporary] == staged[i].inode
  {
  }

  /** Look at every destination before anything is created. */
  method NoneExists(d: Dir, all: seq<Template>) returns (free: bool)
    requires d.Valid() && d.log == []
    modifies d`names, d`files, d`log
    ensures d.Valid() && Disciplined(d.log)
    ensures d.quiet ==> d.names == old(d.names) && d.files == old(d.files)
    ensures d.quiet && d.reliable && Free(all, d.names) ==> free
    ensures d.quiet && free ==> forall t | t in all :: t.name !in d.names
  {
    for i := 0 to |all|
      invariant d.Valid() && Disciplined(d.log)
      invariant d.quiet ==> d.names == old(d.names) && d.files == old(d.files)
      invariant d.quiet ==> forall j | 0 <= j < i :: all[j].name !in d.names
    {
      label Looking:
      var seen := d.Lstat(all[i].name);
      Recorded(old@Looking(d.log), d.log[|d.log| - 1]);
      if !seen.Missing? {
        return false;
      }
    }
    free := true;
  }

  lemma Restored(names: map<string, Inode>, base: map<string, Inode>, staged: seq<Staged>, drop: bool)
    requires Keeps(names, base, staged, |staged|, drop) && Covers(names, base, staged, |staged|, drop)
    requires drop || Unlinked(staged)
    ensures names == base
  {
    assert forall j | 0 <= j < |staged| :: staged[j] in staged && !Standing(staged, j, |staged|, drop);
  }

  lemma Remains(names: map<string, Inode>, files: map<Inode, File>, base: map<string, Inode>, baseFiles: map<Inode, File>,
                staged: seq<Staged>, all: seq<Template>, drop: bool)
    requires Keeps(names, base, staged, |staged|, drop) && Holds(files, baseFiles, staged, all)
    ensures Untouched(names, files, base, baseFiles)
  {
  }

  lemma Published(names: map<string, Inode>, files: map<Inode, File>, base: map<string, Inode>, baseFiles: map<Inode, File>,
                  staged: seq<Staged>, all: seq<Template>)
    requires Fresh(base, baseFiles, staged) && Holds(files, baseFiles, staged, all)
    requires Keeps(names, base, staged, |staged|, false)
    requires |staged| == |all| && Identified(staged) && forall s | s in staged :: s.linked
    ensures Free(all, base)
    ensures forall t | t in all :: t.name !in base && Bound(names, files, t)
    ensures Covers(names, base, staged, |staged|, false) ==> names.Keys == base.Keys + Names(all)
  {
    PublishedFree(base, baseFiles, files, staged, all);
    hide Fresh, Covers, Free;
    forall j | 0 <= j < |all|
      ensures Bound(names, files, all[j])
    {
      assert staged[j] in staged && Standing(staged, j, |staged|, false);
    }
    assert forall t | t in all :: t.name in names;
    hide Holds, Keeps, Bound, Identified;
    if Covers(names, base, staged, |staged|, false) {
      PublishedNames(names, files, base, baseFiles, staged, all);
    }
  }

  lemma PublishedFree(base: map<string, Inode>, baseFiles: map<Inode, File>, files: map<Inode, File>,
                      staged: seq<Staged>, all: seq<Template>)
    requires Fresh(base, baseFiles, staged) && Holds(files, baseFiles, staged, all)
    requires |staged| == |all| && forall s | s in staged :: s.linked
    ensures Free(all, base) && forall t | t in all :: t.name !in base
  {
    forall j | 0 <= j < |all|
      ensures staged[j].linked && staged[j].target == all[j].name
    {
      assert staged[j] in staged;
    }
  }

  lemma PublishedNames(names: map<string, Inode>, files: map<Inode, File>, base: map<string, Inode>,
                       baseFiles: map<Inode, File>, staged: seq<Staged>, all: seq<Template>)
    requires Holds(files, baseFiles, staged, all) && Keeps(names, base, staged, |staged|, false) && |staged| == |all|
    requires Covers(names, base, staged, |staged|, false)
    requires forall t | t in all :: t.name in names
    ensures names.Keys == base.Keys + Names(all)
  {
    forall n | n in names && n !in base
      ensures n in Names(all)
    {
      var j :| 0 <= j < |staged| && Standing(staged, j, |staged|, false) && staged[j].target == n;
      assert all[j] in all;
    }
    assert forall n | n in Names(all) :: n in names;
  }

  /**
   * All or nothing. In a quiet directory a success binds every name to exactly its bytes, a failure restores the
   * directory, and either way no other name or content changes; `complete` is false when an inspection or removal of the
   * clean-up itself failed, which may leave extra names behind and nothing worse. A name that is already there is found
   * before anything is created, so that it never costs more than the failure, whatever else fails. In any directory,
   * links go only to free names, and only temporary names of this run, or names just seen to be its own files, are
   * removed. When nothing goes wrong by itself, publishing succeeds exactly when the names are new and all different.
   */
  method Publish(d: Dir, all: seq<Template>) returns (ok: bool, complete: bool)
    requires d.Valid() && d.log == []
    modifies d`names, d`files, d`log
    ensures d.Valid() && Disciplined(d.log)
    ensures d.quiet ==> Untouched(d.names, d.files, old(d.names), old(d.files))
    ensures d.quiet && (exists t | t in all :: t.name in old(d.names)) ==>
              !ok && complete && d.names == old(d.names) && d.files == old(d.files)
    ensures d.quiet && ok ==> forall t | t in all :: t.name !in old(d.names) && Bound(d.names, d.files, t)
    ensures d.quiet && ok && complete ==> d.names.Keys == old(d.names).Keys + Names(all)
    ensures d.quiet && !ok && complete ==> d.names == old(d.names)
    ensures d.quiet && d.reliable && Names(all) <= d.reserved ==> (ok <==> Free(all, old(d.names)))
  {
    ghost var base, baseFiles := d.names, d.files;
    var free := NoneExists(d, all);
    if !free {
      return false, true;
    }
    hide Disciplined, Vouches, Fresh, Holds, Keeps, Covers, Bound, Untouched, Names, Free;
    var staging, staged, clean := StageAll(d, all, base, baseFiles);
    if !staging {
      complete := Cleanup(d, staged, false, base, baseFiles);
      if d.quiet {
        Remains(d.names, d.files, base, baseFiles, staged, all, false);
        if clean && complete {
          Restored(d.names, base, staged, false);
        }
      }
      return false, clean && complete;
    }
    var linking, linked := LinkAll(d, all, staged, base, baseFiles);
    if d.quiet {
      DroppingStartsAlike(d.names, base, linked);
      LinkedIsIdentified(d.files, baseFiles, linked, all);
    }
    complete := Cleanup(d, linked, !linking, base, baseFiles);
    if d.quiet {
      Remains(d.names, d.files, base, baseFiles, linked, all, !linking);
      if linking {
        Published(d.names, d.files, base, baseFiles, linked, all);
      } else if complete {
        Restored(d.names, base, linked, true);
      }
    }
    return linking, complete;
  }

  lemma LinkedIsIdentified(files: map<Inode, File>, baseFiles: map<Inode, File>, staged: seq<Staged>, all: seq<Template>)
    requires Holds(files, baseFiles, staged, all) && Identified(staged)
    ensures forall s | s in staged :: s.identity == Some(s.inode)
  {
  }
}
