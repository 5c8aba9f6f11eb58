/**
 * Opening a file beneath a held directory while a writer may rearrange the tree between any two operations: every
 * component is inspected and pinned, and everything is inspected again after the open.
 */
module RootedOpen {
  import opened Prelude

  type Inode = nat

  datatype Kind = Folder | RegularFile | Symlink | Special

  /** One moment of the tree. `detours` is where paths with links in them lead; other paths are walked. */
  datatype Tree = Tree(kinds: map<Inode, Kind>, links: map<Inode, map<string, Inode>>, detours: map<seq<string>, Inode>)

  datatype Info = Info(inode: Inode, kind: Kind)

  predicate WellFormed(t: Tree) {
    && (forall d, n | d in t.links && n in t.links[d] :: t.links[d][n] in t.kinds)
    && (forall path | path in t.detours :: t.detours[path] in t.kinds)
  }

  predicate Binds(t: Tree, folder: Inode, name: string, inode: Inode) {
    folder in t.links && name in t.links[folder] && t.links[folder][name] == inode && inode in t.kinds
  }

  /** Follow a path through real directories only. */
  function Walk(t: Tree, folder: Inode, path: seq<string>): (r: Option<Inode>)
    requires path != [] && WellFormed(t)
    ensures r.Some? ==> r.value in t.kinds
    decreases |path|
  {
    if folder !in t.links || path[0] !in t.links[folder] then None
    else
      var next := t.links[folder][path[0]];
      if |path| == 1 then Some(next)
      else if t.kinds[next] == Folder then Walk(t, next, path[1..])
      else None
  }

  /** The components of a clean relative path that stays below the root. */
  predicate SafePath(path: seq<string>) {
    path != [] && forall c | c in path :: c != "" && c != "." && c != ".." && '/' !in c
  }

  /** The regular file at a path of real directories. */
  function RealFile(t: Tree, folder: Inode, path: seq<string>): Option<Inode>
    requires path != [] && WellFormed(t)
  {
    var walked := Walk(t, folder, path);
    if walked.Some? && t.kinds[walked.value] == RegularFile then walked else None
  }

  /** Where the operating system takes a path: the walk, or a detour when there is none. */
  function Route(t: Tree, root: Inode, path: seq<string>): (r: Option<Inode>)
    requires path != [] && WellFormed(t)
    ensures r.Some? ==> r.value in t.kinds
  {
    if Walk(t, root, path).Some? then Walk(t, root, path)
    else if path in t.detours then Some(t.detours[path])
    else None
  }

  /** A name inspected in a pinned directory, and the directory it was found to be. */
  datatype Parent = Parent(folder: Inode, name: string, child: Inode)

  predicate Stands(t: Tree, p: Parent) {
    Binds(t, p.folder, p.name, p.child) && t.kinds[p.child] == Folder
  }

  predicate HasFolder(t: Tree, folder: Inode, name: string)
    requires WellFormed(t)
  {
    folder in t.links && name in t.links[folder] && t.kinds[t.links[folder][name]] == Folder
  }

  /** The parent was seen standing at some moment from `from` up to `to`. */
  ghost predicate Seen(history: seq<Tree>, from: nat, to: nat, p: Parent) {
    exists k :: from <= k < to <= |history| && Stands(history[k], p)
  }

  ghost predicate AllSeen(history: seq<Tree>, from: nat, to: nat, parents: seq<Parent>) {
    forall p | p in parents :: Seen(history, from, to, p)
  }

  predicate IsFileIn(t: Tree, folder: Inode, name: string, file: Inode) {
    Binds(t, folder, name, file) && t.kinds[file] == RegularFile
  }

  /** The parents are the first components of the path, each in the directory the one before it was found to be. */
  predicate Chained(root: Inode, path: seq<string>, parents: seq<Parent>) {
    && |parents| < |path|
    && forall k | 0 <= k < |parents| ::
         parents[k].name == path[k] && parents[k].folder == Bottom(root, parents[..k])
  }

  function Bottom(root: Inode, parents: seq<Parent>): Inode {
    if parents == [] then root else parents[|parents| - 1].child
  }

  /**
   * What is known of a returned file. There are two moments, one when the last name was inspected and a later one when
   * the path was opened. At the first the file was the regular file bound to the last name. Every parent was seen as the
   * same directory before the first, between the two, and after the second. At the very last moment the path leads to
   * the file and it is regular.
   */
  ghost predicate Vouched(history: seq<Tree>, root: Inode, path: seq<string>, file: Inode) {
    path != [] && exists leaf: nat, moment: nat, parents :: VouchedBy(history, root, path, file, leaf, moment, parents)
  }

  ghost predicate VouchedBy(history: seq<Tree>, root: Inode, path: seq<string>, file: Inode, leaf: nat, moment: nat,
                            parents: seq<Parent>)
    requires path != []
  {
    && Chained(root, path, parents) && |parents| == |path| - 1 && leaf < moment < |history|
    && AllSeen(history, 0, leaf, parents)
    && IsFileIn(history[leaf], Bottom(root, parents), path[|path| - 1], file)
    && AllSeen(history, leaf + 1, moment, parents)
    && AllSeen(history, moment + 1, |history|, parents)
    && Reachable(history[|history| - 1], root, path, file)
  }

  predicate Reachable(t: Tree, root: Inode, path: seq<string>, file: Inode)
    requires path != []
  {
    WellFormed(t) && Route(t, root, path) == Some(file) && t.kinds[file] == RegularFile
  }

  /** The parents stand, and what is below the last of them is what is below the root. */
  predicate Leads(t: Tree, root: Inode, path: seq<string>, parents: seq<Parent>)
    requires WellFormed(t) && |parents| < |path|
  {
    && RealFile(t, root, path) == RealFile(t, Bottom(root, parents), path[|parents|..])
    && forall p | p in parents :: Stands(t, p)
  }

  class FileSystem {
    const root: Inode
    const quiet: bool
    const reliable: bool
    var now: Tree
    ghost var history: seq<Tree>

    predicate Valid()
      reads this
    {
      WellFormed(now)
    }

    /** The writer acts, then the next operation takes place. */
    method Step()
      requires Valid()
      modifies this
      ensures Valid() && history == old(history) + [now]
      ensures quiet ==> now == old(now)
    {
      var next: Tree := *;
      if !quiet && WellFormed(next) {
        now := next;
      }
      history := history + [now];
    }

    method Faults() returns (fault: bool)
      ensures reliable ==> !fault
    {
      var bad: bool := *;
      fault := bad && !reliable;
    }

    method Lstat(folder: Inode, name: string) returns (info: Option<Info>)
      requires Valid()
      modifies this
      ensures Valid() && history == old(history) + [now] && (quiet ==> now == old(now))
      ensures info.Some? ==> Binds(now, folder, name, info.value.inode) && now.kinds[info.value.inode] == info.value.kind
      ensures reliable && info.None? ==> folder !in now.links || name !in now.links[folder]
    {
      Step();
      var fault := Faults();
      if fault || folder !in now.links || name !in now.links[folder] {
        return None;
      }
      var inode := now.links[folder][name];
      info := Some(Info(inode, now.kinds[inode]));
    }

    /** Open a directory by name. A link in its place may lead anywhere. */
    method OpenChild(folder: Inode, name: string) returns (child: Option<Inode>)
      requires Valid()
      modifies this
      ensures Valid() && history == old(history) + [now] && (quiet ==> now == old(now))
      ensures reliable && HasFolder(now, folder, name) ==> child == Some(now.links[folder][name])
    {
      Step();
      var fault := Faults();
      if fault {
        return None;
      }
      if HasFolder(now, folder, name) {
        return Some(now.links[folder][name]);
      }
      var anywhere: Option<Inode> := *;
      child := anywhere;
    }

    /** The kind of an open file. */
    method Stat(inode: Inode) returns (info: Option<Info>)
      requires Valid()
      modifies this
      ensures Valid() && history == old(history) + [now] && (quiet ==> now == old(now))
      ensures info.Some? ==> info.value.inode == inode && inode in now.kinds && now.kinds[inode] == info.value.kind
      ensures reliable && inode in now.kinds ==> info.Some?
    {
      Step();
      var fault := Faults();
      info := if !fault && inode in now.kinds then Some(Info(inode, now.kinds[inode])) else None;
    }

    /** Open a whole path for reading, without waiting. A link on the way may lead anywhere. */
    method OpenPath(path: seq<string>) returns (file: Option<Inode>)
      requires Valid() && path != []
      modifies this
      ensures Valid() && history == old(history) + [now] && (quiet ==> now == old(now))
      ensures reliable && Walk(now, root, path).Some? && now.kinds[Walk(now, root, path).value] == RegularFile ==>
                file == Walk(now, root, path)
    {
      Step();
      var fault := Faults();
      if fault {
        return None;
      }
      var walked := Walk(now, root, path);
      if walked.Some? && now.kinds[walked.value] == RegularFile {
        return walked;
      }
      var anywhere: Option<Inode> := *;
      file := anywhere;
    }

    /** Inspect a whole path, its last component not followed. */
    method LstatPath(path: seq<string>) returns (info: Option<Info>)
      requires Valid() && path != []
      modifies this
      ensures Valid() && history == old(history) + [now] && (quiet ==> now == old(now))
      ensures info.Some? ==> Route(now, root, path) == Some(info.value.inode)
                             && now.kinds[info.value.inode] == info.value.kind
      ensures reliable && Walk(now, root, path).Some? ==> info.Some?
    {
      Step();
      var fault := Faults();
      var found := Route(now, root, path);
      info := if !fault && found.Some? then Some(Info(found.value, now.kinds[found.value])) else None;
    }

    /** Whether a name still is the directory it was found to be. */
    method Verify(p: Parent) returns (ok: bool)
      requires Valid()
      modifies this
      ensures Valid() && history == old(history) + [now] && (quiet ==> now == old(now))
      ensures ok ==> Stands(now, p)
      ensures reliable && Stands(now, p) ==> ok
    {
      var current := Lstat(p.folder, p.name);
      ok := current.Some? && current.value.kind == Folder && current.value.inode == p.child;
    }

    method VerifyAll(parents: seq<Parent>) returns (ok: bool)
      requires Valid()
      modifies this
      ensures Valid() && old(history) <= history && (quiet ==> now == old(now))
      ensures ok ==> AllSeen(history, |old(history)|, |history|, parents)
      ensures quiet && reliable && (forall p | p in parents :: Stands(now, p)) ==> ok
    {
      hide Seen, Stands;
      for k := 0 to |parents|
        invariant Valid() && old(history) <= history && (quiet ==> now == old(now))
        invariant AllSeen(history, |old(history)|, |history|, parents[..k])
      {
        label Looking:
        var fine := Verify(parents[k]);
        if !fine {
          assert parents[k] in parents;
          return false;
        }
        assert parents[..k + 1] == parents[..k] + [parents[k]];
        SeenByMore(old@Looking(history), history, |old(history)|, parents[..k], parents[k]);
      }
      assert parents[..|parents|] == parents;
      ok := true;
    }

    /** Inspect one component, open it, and inspect it again. */
    method Enter(folder: Inode, name: string) returns (parent: Option<Parent>)
      requires Valid()
      modifies this
      ensures Valid() && old(history) < history && (quiet ==> now == old(now))
      ensures parent.Some? ==> parent.value.folder == folder && parent.value.name == name
                               && Stands(history[|history| - 1], parent.value)
      ensures quiet && parent.Some? ==> HasFolder(now, folder, name) && parent.value.child == now.links[folder][name]
      ensures quiet && reliable && parent.None? ==> !HasFolder(now, folder, name)
    {
      var info := Lstat(folder, name);
      if info.None? || info.value.kind != Folder {
        return None;
      }
      var child := OpenChild(folder, name);
      if child.None? {
        return None;
      }
      var p := Parent(folder, name, child.value);
      var inside := Stat(child.value);
      if inside.None? || inside.value.kind != Folder || info.value.inode != child.value {
        return None;
      }
      var same := Verify(p);
      parent := if same then Some(p) else None;
    }

    /** Inspect and pin every parent, then inspect the last component. */
    method Descend(path: seq<string>) returns (parents: seq<Parent>, leaf: Option<Info>)
      requires Valid() && path != [] && history == []
      modifies this
      ensures Valid() && (quiet ==> now == old(now))
      ensures leaf.Some? ==>
                && Chained(root, path, parents) && |parents| == |path| - 1
                && history != [] && AllSeen(history, 0, |history| - 1, parents)
                && IsFileIn(history[|history| - 1], Bottom(root, parents), path[|path| - 1], leaf.value.inode)
      ensures quiet && leaf.Some? ==>
                RealFile(now, root, path) == Some(leaf.value.inode) && forall p | p in parents :: Stands(now, p)
      ensures quiet && reliable && leaf.None? ==> RealFile(now, root, path).None?
    {
      hide Chained, Bottom, AllSeen, Stands, WellFormed, RealFile, HasFolder, Leads;
      parents := [];
      var folder := root;
      NothingEntered(now, history, root, path);
      for k := 0 to |path| - 1
        invariant Valid() && (quiet ==> now == old(now))
        invariant |parents| == k && Chained(root, path, parents) && folder == Bottom(root, parents)
        invariant AllSeen(history, 0, |history|, parents)
        invariant quiet ==> Leads(now, root, path, parents)
      {
        label Looking:
        var entered := Enter(folder, path[k]);
        if entered.None? {
          if quiet && reliable {
            LeadsNowhere(now, root, path, parents);
          }
          return parents, None;
        }
        SeenByMore(old@Looking(history), history, 0, parents, entered.value);
        ChainedByMore(root, path, parents, entered.value);
        if quiet {
          LeadsByMore(now, root, path, parents, entered.value);
        }
        parents := parents + [entered.value];
        folder := entered.value.child;
      }
      label Leaf:
      leaf := Lstat(folder, path[|path| - 1]);
      if quiet {
        LeadsToLast(now, root, path, parents);
      }
      if leaf.None? || leaf.value.kind != RegularFile {
        return parents, None;
      }
      AllSeenLater(old@Leaf(history), history, 0, |old@Leaf(history)|, parents);
    }

    /**
     * The whole protocol: descend, check the parents, open the path, check the parents again, and compare what was
     * opened, what was inspected, and what the path leads to now.
     */
    method Open(path: seq<string>) returns (file: Option<Inode>)
      requires Valid() && history == []
      modifies this
      ensures Valid()
      ensures file.Some? ==> SafePath(path) && Vouched(history, root, path, file.value)
      ensures quiet && file.Some? ==> path != [] && RealFile(now, root, path) == file
      ensures quiet && reliable && SafePath(path) && file.None? ==> RealFile(now, root, path).None?
    {
      hide AllSeen, IsFileIn, Chained, Bottom, WellFormed;
      if !SafePath(path) {
        return None;
      }
      var parents, before := Descend(path);
      if before.None? {
        return None;
      }
      ghost var descended := history;
      var standing := VerifyAll(parents);
      if !standing {
        return None;
      }
      ghost var checked := history;
      var handle := OpenPath(path);
      if handle.None? {
        return None;
      }
      standing := VerifyAll(parents);
      if !standing {
        return None;
      }
      ghost var verified := history;
      var inside := Stat(handle.value);
      var after := LstatPath(path);
      if inside.None? || after.None? || inside.value.kind != RegularFile || after.value.kind != RegularFile
         || before.value.inode != handle.value || before.value.inode != after.value.inode
      {
        return None;
      }
      file := handle;
      Remembered(descended, checked, verified, history, root, path, parents, file.value);
    }
  }

  /** What was seen at each stage is still on record at the end. */
  lemma Remembered(descended: seq<Tree>, checked: seq<Tree>, verified: seq<Tree>, history: seq<Tree>, root: Inode,
                   path: seq<string>, parents: seq<Parent>, file: Inode)
    requires [] < descended <= checked < verified <= history && path != []
    requires Chained(root, path, parents) && |parents| == |path| - 1
    requires AllSeen(descended, 0, |descended| - 1, parents)
    requires IsFileIn(descended[|descended| - 1], Bottom(root, parents), path[|path| - 1], file)
    requires AllSeen(checked, |descended|, |checked|, parents)
    requires AllSeen(verified, |checked| + 1, |verified|, parents)
    requires Reachable(history[|history| - 1], root, path, file)
    ensures Vouched(history, root, path, file)
  {
    hide Reachable, AllSeen, IsFileIn, Chained, Bottom;
    AllSeenLater(descended, history, 0, |descended| - 1, parents);
    AllSeenLater(checked, history, |descended|, |checked|, parents);
    AllSeenLater(verified, history, |checked| + 1, |verified|, parents);
    AllSeenWithin(history, |checked| + 1, |verified|, |history|, parents);
    assert VouchedBy(history, root, path, file, |descended| - 1, |checked|, parents);
  }

  lemma NothingEntered(t: Tree, history: seq<Tree>, root: Inode, path: seq<string>)
    requires WellFormed(t) && path != []
    ensures Chained(root, path, []) && Bottom(root, []) == root && AllSeen(history, 0, |history|, [])
    ensures Leads(t, root, path, [])
  {
    assert path[0..] == path;
  }

  lemma LeadsByMore(t: Tree, root: Inode, path: seq<string>, parents: seq<Parent>, p: Parent)
    requires WellFormed(t) && |parents| + 1 < |path| && Leads(t, root, path, parents)
    requires p.folder == Bottom(root, parents) && p.name == path[|parents|]
    requires HasFolder(t, p.folder, p.name) && p.child == t.links[p.folder][p.name]
    ensures Leads(t, root, path, parents + [p])
  {
    var rest := path[|parents|..];
    assert rest[0] == p.name && rest[1..] == path[|parents| + 1..];
  }

  lemma LeadsNowhere(t: Tree, root: Inode, path: seq<string>, parents: seq<Parent>)
    requires WellFormed(t) && |parents| + 1 < |path| && Leads(t, root, path, parents)
    requires !HasFolder(t, Bottom(root, parents), path[|parents|])
    ensures RealFile(t, root, path).None?
  {
    assert path[|parents|..][0] == path[|parents|];
  }

  lemma LeadsToLast(t: Tree, root: Inode, path: seq<string>, parents: seq<Parent>)
    requires WellFormed(t) && |parents| + 1 == |path| && Leads(t, root, path, parents)
    ensures forall p | p in parents :: Stands(t, p)
    ensures forall i: Inode ::
              RealFile(t, root, path) == Some(i) <==> IsFileIn(t, Bottom(root, parents), path[|path| - 1], i)
  {
    assert path[|parents|..] == [path[|path| - 1]];
  }

  lemma ChainedByMore(root: Inode, path: seq<string>, parents: seq<Parent>, p: Parent)
    requires Chained(root, path, parents) && |parents| + 1 < |path|
    requires p.folder == Bottom(root, parents) && p.name == path[|parents|]
    ensures Chained(root, path, parents + [p]) && Bottom(root, parents + [p]) == p.child
  {
    var more := parents + [p];
    forall k | 0 <= k < |more|
      ensures more[k].name == path[k] && more[k].folder == Bottom(root, more[..k])
    {
      assert more[..k] == parents[..k];
      assert parents[..|parents|] == parents;
    }
  }

  lemma SeenByMore(before: seq<Tree>, after: seq<Tree>, from: nat, parents: seq<Parent>, p: Parent)
    requires from <= |before| && before < after && Stands(after[|after| - 1], p)
    requires AllSeen(before, from, |before|, parents)
    ensures AllSeen(after, from, |after|, parents + [p])
  {
    hide Stands;
    AllSeenLater(before, after, from, |before|, parents);
    AllSeenWithin(after, from, |before|, |after|, parents);
  }

  lemma AllSeenLater(before: seq<Tree>, after: seq<Tree>, from: nat, to: nat, parents: seq<Parent>)
    requires before <= after && to <= |before| && AllSeen(before, from, to, parents)
    ensures AllSeen(after, from, to, parents)
  {
    hide Stands;
    forall p | p in parents
      ensures Seen(after, from, to, p)
    {
      var k :| from <= k < to && Stands(before[k], p);
      assert Stands(after[k], p);
    }
  }

  lemma AllSeenWithin(history: seq<Tree>, from: nat, to: nat, end: nat, parents: seq<Parent>)
    requires to <= end <= |history| && AllSeen(history, from, to, parents)
    ensures AllSeen(history, from, end, parents)
  {
    hide Stands;
    forall p | p in parents
      ensures Seen(history, from, end, p)
    {
      var k :| from <= k < to && Stands(history[k], p);
      assert from <= k < end;
    }
  }
}
