/**
 * A directory of hard-linked names, shared with a writer who may act between any two operations. A quiet directory is
 * one where the writer does nothing, and a reliable one is one where no operation fails without a reason. Every
 * operation that matters is recorded.
 */
module Directory {
  import opened Prelude

  type Inode = nat

  datatype File = Regular(data: seq<char>) | OtherKind

  datatype Event = Created(name: string)
                 | Refused(name: string)
                 | Inspected(name: string, found: Option<Inode>)
                 | Linked(name: string, free: bool)
                 | Removed(name: string)

  datatype Stat = Found(inode: Inode, regular: bool) | Missing | Unreadable

  class Dir {
    const quiet: bool
    const reliable: bool
    /** Names that random names never hit in a reliable directory. */
    const reserved: set<string>
    var names: map<string, Inode>
    var files: map<Inode, File>
    var log: seq<Event>

    predicate Valid()
      reads this
    {
      forall name | name in names :: names[name] in files
    }

    /** The writer: any change at all that leaves a directory. */
    method Interfere()
      requires Valid()
      modifies this`names, this`files
      ensures Valid()
      ensures quiet ==> names == old(names) && files == old(files)
    {
      if quiet {
        return;
      }
      var newNames: map<string, Inode> := *;
      var newFiles: map<Inode, File> := *;
      if forall name | name in newNames :: newNames[name] in newFiles {
        names, files := newNames, newFiles;
      }
    }

    method Lstat(name: string) returns (s: Stat)
      requires Valid()
      modifies this`names, this`files, this`log
      ensures Valid()
      ensures quiet ==> names == old(names) && files == old(files)
      ensures s.Missing? ==> name !in names
      ensures reliable ==> !s.Unreadable?
      ensures s.Found? ==> name in names && s.inode == names[name] && (s.regular <==> files[s.inode].Regular?)
      ensures log == old(log) + [Inspected(name, if s.Found? then Some(s.inode) else None)]
    {
      Interfere();
      var fault: bool := *;
      s := if fault && !reliable then Unreadable
           else if name in names then Found(names[name], files[names[name]].Regular?) else Missing;
      log := log + [Inspected(name, if s.Found? then Some(s.inode) else None)];
    }

    /** Create a new empty regular file under a name nobody has, or fail; `taken` tells whether somebody has it. */
    method CreateExclusive(name: string) returns (created: Option<Inode>, taken: bool)
      requires Valid()
      modifies this`names, this`files, this`log
      ensures Valid()
      ensures quiet && name !in old(names) ==> !taken
      ensures if taken then created.None? && name in names else created.None? ==> !reliable
      ensures created.None? && quiet ==> names == old(names) && files == old(files)
      ensures created.Some? && quiet ==>
                && name !in old(names) && created.value !in old(files)
                && names == old(names)[name := created.value] && files == old(files)[created.value := Regular("")]
      ensures log == old(log) + [if created.Some? then Created(name) else Refused(name)]
    {
      Interfere();
      var fault: bool := *;
      taken := name in names && (reliable || !fault);
      if taken || (fault && !reliable) {
        log := log + [Refused(name)];
        return None, taken;
      }
      var unused: Inode := FreshInode(files.Keys);
      names, files := names[name := unused], files[unused := Regular("")];
      log := log + [Created(name)];
      created := Some(unused);
    }

    /** Write through an open handle; a failing write leaves part of the data. */
    method Write(inode: Inode, data: seq<char>) returns (ok: bool)
      requires Valid() && (quiet ==> inode in files && files[inode].Regular?)
      modifies this`names, this`files
      ensures Valid()
      ensures quiet ==> names == old(names) && files.Keys == old(files).Keys && files[inode].Regular?
      ensures quiet ==> forall i | i in files && i != inode :: files[i] == old(files)[i]
      ensures quiet && ok ==> files[inode] == Regular(data)
      ensures reliable ==> ok
    {
      Interfere();
      var fault: bool := *;
      var complete := reliable || !fault;
      var part: seq<char> := *;
      if inode in files && files[inode].Regular? {
        files := files[inode := Regular(if complete then data else part)];
      }
      ok := complete;
    }

    /** Make a second name for a file. Never replaces: a taken name makes it fail. */
    method Link(source: string, target: string) returns (ok: bool)
      requires Valid()
      modifies this`names, this`files, this`log
      ensures Valid()
      ensures quiet ==> files == old(files)
      ensures quiet && reliable && source in old(names) && target !in old(names) ==> ok
      ensures !ok ==> log == old(log) && (quiet ==> names == old(names))
      ensures ok ==> log == old(log) + [Linked(target, true)]
      ensures ok && quiet ==> source in old(names) && target !in old(names)
                              && names == old(names)[target := old(names)[source]]
    {
      Interfere();
      var fault: bool := *;
      var free := target !in names;
      if (fault && !reliable) || source !in names || !free {
        return false;
      }
      names := names[target := names[source]];
      log := log + [Linked(target, free)];
      ok := true;
    }

    method Remove(name: string) returns (ok: bool)
      requires Valid()
      modifies this`names, this`files, this`log
      ensures Valid()
      ensures quiet ==> files == old(files) && names == if ok then old(names) - {name} else old(names)
      ensures log == old(log) + [Removed(name)]
      ensures reliable ==> ok
    {
      Interfere();
      var fault: bool := *;
      ok := reliable || !fault;
      if ok {
        names := names - {name};
      }
      log := log + [Removed(name)];
    }

    /** A random name, or none when there is no randomness to be had. */
    method RandomName(prefix: string) returns (name: Option<string>)
      ensures name.Some? ==> prefix <= name.value
      ensures reliable ==> name.Some? && name.value !in names && name.value !in reserved
    {
      var fault: bool, random: string := *, *;
      if reliable {
        var unused := UnusedName(prefix, names.Keys + reserved);
        return Some(unused);
      }
      name := if fault then None else Some(prefix + random);
    }

    /** Whether a step that touches nothing in the directory works. */
    method Works() returns (ok: bool)
      ensures reliable ==> ok
    {
      var fault: bool := *;
      ok := reliable || !fault;
    }
  }

  method UnusedName(prefix: string, used: set<string>) returns (name: string)
    ensures prefix <= name && name !in used
  {
    name := prefix;
    var rest := used;
    while rest != {}
      invariant rest <= used && prefix <= name
      invariant forall s | s in used && s !in rest :: |s| < |name|
      decreases |rest|
    {
      var s :| s in rest;
      rest := rest - {s};
      if |s| >= |name| {
        name := name + seq(|s| - |name| + 1, _ => '0');
      }
    }
  }

  method FreshInode(used: set<Inode>) returns (unused: Inode)
    ensures unused !in used
  {
    unused := 0;
    var rest := used;
    while rest != {}
      invariant rest <= used
      invariant forall i | i in used && i !in rest :: i < unused
      decreases |rest|
    {
      var i :| i in rest;
      rest := rest - {i};
      if i >= unused {
        unused := i + 1;
      }
    }
  }
}
