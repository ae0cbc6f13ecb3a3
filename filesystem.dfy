/** The part of the file system the relocation engine touches: which paths are
    directories and which are files, and the helpers of `modules/utils/folder_utils.py`
    that query and change it. Whether an operating-system call succeeds is decided
    by an oracle, since permissions, locks and devices are outside the model. */
module FileSystem {
  import opened PyStr
  import opened Paths

  /** The directories and the files that exist, as full paths. */
  datatype Entries = Entries(dirs: set<string>, files: set<string>)

  /** Whether `os.rename` (for `rename_folder`) and the final rename or copy inside
      `shutil.move` (for `move_folder`) succeed for a given pair of paths. */
  datatype Os = Os(renameOk: (string, string) -> bool, moveOk: (string, string) -> bool)

  /** A Python argument that may or may not be a `str`. */
  datatype Arg = Str(s: string) | NotStr

  /** `os.path.isdir` */
  predicate IsDir(e: Entries, p: string) { p in e.dirs }

  /** `os.path.exists` */
  predicate Exists(e: Entries, p: string) { p in e.dirs || p in e.files }

  /** `check_directory_exists`: false for a non-string, otherwise `os.path.isdir`. */
  predicate CheckDirectoryExists(e: Entries, p: Arg) {
    p.Str? && IsDir(e, p.s)
  }

  /** `rename_folder`: refuses a path that is not a directory, and `os.rename` refuses
      to put a directory where a file is; otherwise the rename either succeeds, and the
      directory now sits at the new path, or changes nothing. */
  function RenameStep(e: Entries, os: Os, oldPath: string, newPath: string): (r: (bool, Entries))
    ensures r.0 <==> IsDir(e, oldPath) && newPath !in e.files && os.renameOk(oldPath, newPath)
    ensures r.0 ==> IsDir(r.1, newPath) && (oldPath != newPath ==> !IsDir(r.1, oldPath)) &&
                    r.1.files == e.files &&
                    forall p :: p != oldPath && p != newPath ==> (IsDir(r.1, p) <==> IsDir(e, p))
    ensures !r.0 ==> r.1 == e
  {
    if oldPath !in e.dirs || newPath in e.files || !os.renameOk(oldPath, newPath) then (false, e)
    else (true, Entries(e.dirs - {oldPath} + {newPath}, e.files))
  }

  /** Where `shutil.move(src, dst)` puts `src`: inside `dst` when `dst` is an
      existing directory, at `dst` otherwise. */
  function MoveTarget(e: Entries, src: string, dst: string): string {
    if IsDir(e, dst) then JoinPath(dst, Basename(src)) else dst
  }

  /** `shutil.move(src, dst)` onto the directory it names already: it renames the
      directory onto itself and returns, leaving the disk as it was. */
  predicate SameDirectory(e: Entries, src: string, dst: string) {
    IsDir(e, dst) && src == dst
  }

  /** `move_folder`: refuses a source that is not a directory; `shutil.move` renames
      a directory onto itself without changing anything, and refuses a target that
      exists: an entry of the same name inside an existing destination directory, or
      a file at the destination itself; otherwise the move succeeds or changes nothing. */
  function MoveStep(e: Entries, os: Os, src: string, dst: string): (r: (bool, Entries))
    ensures SameDirectory(e, src, dst) ==> r == (os.moveOk(src, dst), e)
    ensures var t := MoveTarget(e, src, dst);
            !SameDirectory(e, src, dst) ==>
              (r.0 <==> IsDir(e, src) && !Exists(e, t) && os.moveOk(src, t))
    ensures var t := MoveTarget(e, src, dst);
            r.0 && !SameDirectory(e, src, dst) ==>
              IsDir(r.1, t) && (src != t ==> !IsDir(r.1, src)) && r.1.files == e.files &&
              forall p :: p != src && p != t ==> (IsDir(r.1, p) <==> IsDir(e, p))
    ensures !r.0 ==> r.1 == e
  {
    if src !in e.dirs then (false, e)
    else if dst in e.dirs && src == dst then (os.moveOk(src, dst), e)
    else
      var target := MoveTarget(e, src, dst);
      if target in e.dirs || target in e.files then (false, e)
      else if !os.moveOk(src, target) then (false, e)
      else (true, Entries(e.dirs - {src} + {target}, e.files))
  }

  /** `list_folders_in_directory`: the names `os.listdir` returns, in its order, that
      name a directory under `path`; an empty list when the listing fails. */
  function FoldersIn(e: Entries, path: string, listing: Option<seq<string>>): (r: seq<string>)
    decreases if listing.Some? then |listing.value| else 0
  {
    if listing.None? || listing.value == [] then []
    else
      var names := listing.value;
      var init := FoldersIn(e, path, Some(names[..|names| - 1]));
      var f := names[|names| - 1];
      if IsDir(e, JoinPath(path, f)) then init + [f] else init
  }

  /** A name is listed exactly when `os.listdir` returned it and it is a directory. */
  lemma {:induction false} FoldersInMembers(e: Entries, path: string, listing: Option<seq<string>>)
    ensures forall f :: f in FoldersIn(e, path, listing) <==>
                        listing.Some? && f in listing.value && IsDir(e, JoinPath(path, f))
    decreases if listing.Some? then |listing.value| else 0
  {
    if listing.Some? && listing.value != [] {
      var names := listing.value;
      var init := names[..|names| - 1];
      FoldersInMembers(e, path, Some(init));
      assert names == init + [names[|names| - 1]];
    }
  }

  /** The file system as the program sees it while it runs. */
  class Disk {
    var dirs: set<string>
    var files: set<string>
    const os: Os

    constructor (dirs0: set<string>, files0: set<string>, os0: Os)
      ensures State() == Entries(dirs0, files0) && os == os0
    {
      dirs := dirs0;
      files := files0;
      os := os0;
    }

    function State(): Entries
      reads this
    {
      Entries(dirs, files)
    }

    /** `check_directory_exists` */
    method CheckDirectoryExists(p: Arg) returns (b: bool)
      ensures b <==> p.Str? && IsDir(State(), p.s)
    {
      if !p.Str? {
        return false;
      }
      b := p.s in dirs;
    }

    /** `os.path.exists` */
    method PathExists(p: string) returns (b: bool)
      ensures b <==> Exists(State(), p)
    {
      b := p in dirs || p in files;
    }

    /** `rename_folder` */
    method RenameFolder(oldName: string, newName: string) returns (ok: bool)
      modifies this
      ensures (ok, State()) == RenameStep(old(State()), os, oldName, newName)
    {
      if oldName !in dirs {
        return false;
      }
      if newName in files || !os.renameOk(oldName, newName) {
        return false;
      }
      dirs := dirs - {oldName} + {newName};
      ok := true;
    }

    /** `move_folder`, with `shutil.move`'s choice of target. */
    method MoveFolder(source: string, destination: string) returns (ok: bool)
      modifies this
      ensures (ok, State()) == MoveStep(old(State()), os, source, destination)
    {
      if source !in dirs {
        return false;
      }
      if destination in dirs && source == destination {
        return os.moveOk(source, destination);
      }
      var target := destination;
      if destination in dirs {
        target := JoinPath(destination, Basename(source));
      }
      if target in dirs || target in files {
        return false;
      }
      if !os.moveOk(source, target) {
        return false;
      }
      dirs := dirs - {source} + {target};
      ok := true;
    }

    /** `list_folders_in_directory` */
    method ListFoldersInDirectory(path: string, listing: Option<seq<string>>) returns (folders: seq<string>)
      ensures folders == FoldersIn(State(), path, listing)
    {
      if listing.None? {
        return [];
      }
      var names := listing.value;
      folders := [];
      for i := 0 to |names|
        invariant folders == FoldersIn(State(), path, Some(names[..i]))
      {
        assert names[..i + 1][..i] == names[..i];
        if JoinPath(path, names[i]) in dirs {
          folders := folders + [names[i]];
        }
      }
      assert names[..|names|] == names;
    }
  }
}
