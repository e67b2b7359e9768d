/** The part of the file system the compiler observes: `os.Stat` and
    `os.MkdirAll`. A path maps to a regular file with its modification time
    or to a directory; a path that is absent makes Stat fail. Which absent
    folders MkdirAll cannot create (permissions, a read-only volume) is an
    oracle fixed for the run. */
module Files {
  import opened Catalog

  datatype Info = File(mtime: int) | Directory

  type Entries = map<string, Info>

  function Lookup(fs: Entries, path: string): (r: Option<Info>)
    ensures r.Some? <==> path in fs
    ensures r.Some? ==> r.value == fs[path]
  {
    if path in fs then Some(fs[path]) else None
  }

  /** Nothing that existed has gone or changed, and everything new is a
      directory: the only way the compiler changes the file system. */
  ghost predicate Grows(fs: Entries, fs': Entries) {
    && (forall p :: p in fs ==> p in fs' && fs'[p] == fs[p])
    && (forall p :: p in fs' && p !in fs ==> fs'[p] == Directory)
  }

  lemma GrowsTransitive(a: Entries, b: Entries, c: Entries)
    requires Grows(a, b) && Grows(b, c)
    ensures Grows(a, c)
  {
  }

  datatype MkdirResult = MkdirResult(ok: bool, fs: Entries)

  /** MkdirAll succeeds on path: it is already a directory, or it is absent
      and may be created. */
  predicate MkdirSucceeds(fs: Entries, denied: set<string>, path: string) {
    (path in fs && fs[path] == Directory) || (path !in fs && path !in denied)
  }

  /** Growing the file system never makes a MkdirAll that would succeed fail. */
  lemma MkdirSucceedsGrows(fs: Entries, fs': Entries, denied: set<string>, path: string)
    requires Grows(fs, fs') && MkdirSucceeds(fs, denied, path)
    ensures MkdirSucceeds(fs', denied, path)
  {
  }

  /** `os.MkdirAll(path)`: succeeds at once on an existing directory, fails on
      an existing file, and otherwise creates the directory unless the oracle
      denies it. */
  function MkdirAllOn(fs: Entries, denied: set<string>, path: string): (r: MkdirResult)
    ensures r.ok <==> MkdirSucceeds(fs, denied, path)
    ensures r.ok ==> path in r.fs && r.fs[path] == Directory
    ensures !r.ok ==> r.fs == fs
    ensures Grows(fs, r.fs) && r.fs.Keys <= fs.Keys + {path}
  {
    if path in fs then MkdirResult(fs[path] == Directory, fs)
    else if path in denied then MkdirResult(false, fs)
    else MkdirResult(true, fs[path := Directory])
  }

  /** The file system as the running program sees it. */
  class Disk {
    var entries: Entries
    const denied: set<string>

    constructor (entries: Entries, denied: set<string>)
      ensures this.entries == entries && this.denied == denied
    {
      this.entries := entries;
      this.denied := denied;
    }

    /** `os.Stat(path)`: the entry, or None where Go returns an error. */
    method Stat(path: string) returns (info: Option<Info>)
      ensures info.Some? <==> path in entries
      ensures info.Some? ==> info.value == entries[path]
    {
      if path in entries {
        info := Some(entries[path]);
      } else {
        info := None;
      }
    }

    method MkdirAll(path: string) returns (ok: bool)
      modifies this
      ensures MkdirResult(ok, entries) == MkdirAllOn(old(entries), denied, path)
    {
      if path in entries {
        ok := entries[path] == Directory;
      } else if path in denied {
        ok := false;
      } else {
        entries := entries[path := Directory];
        ok := true;
      }
    }
  }
}
