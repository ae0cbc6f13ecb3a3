/** `modules/folder_management.py`: listing the source folders of a game folder,
    looking up a game's destination, marking source folders as disabled and moving
    them into the matched destination folders. */
module FolderManagement {
  import opened PyStr
  import opened Paths
  import opened FileSystem
  import opened Matcher
  import opened Categorizer

  // ------------------------------------------------------------------ listing

  /** Names a source listing leaves out: archives still being extracted. */
  predicate Excluded(name: string) {
    EndsWith(name, ".extracted") || EndsWith(name, ".temp")
  }

  /** The `(folder_name, folder_path)` pairs of the listed names that are kept. */
  function SourceFolders(names: seq<string>, root: string): (r: seq<(string, string)>)
    ensures |r| <= |names|
    ensures forall k :: 0 <= k < |r| ==> r[k].1 == JoinPath(root, r[k].0) && !Excluded(r[k].0)
    decreases |names|
  {
    if names == [] then []
    else
      var init := SourceFolders(names[..|names| - 1], root);
      var f := names[|names| - 1];
      if Excluded(f) then init else init + [(f, JoinPath(root, f))]
  }

  /** The listing offers a folder of this name. */
  predicate Offers(r: seq<(string, string)>, f: string) {
    exists k :: 0 <= k < |r| && r[k].0 == f
  }

  /** A folder name is offered exactly when it was listed and is not excluded. */
  lemma {:induction false} SourceFoldersMembers(names: seq<string>, root: string)
    ensures forall f :: Offers(SourceFolders(names, root), f) <==> f in names && !Excluded(f)
    decreases |names|
  {
    if names != [] {
      var init := names[..|names| - 1];
      SourceFoldersMembers(init, root);
      assert names == init + [names[|names| - 1]];
      var r := SourceFolders(names, root);
      var ri := SourceFolders(init, root);
      var last := names[|names| - 1];
      forall f ensures Offers(r, f) <==> f in names && !Excluded(f) {
        if Excluded(last) {
          assert r == ri;
        } else {
          assert r == ri + [(last, JoinPath(root, last))];
          if Offers(ri, f) {
            var k :| 0 <= k < |ri| && ri[k].0 == f;
            assert r[k] == ri[k];
          }
          if Offers(r, f) {
            var k :| 0 <= k < |r| && r[k].0 == f;
            if k < |ri| { assert r[k] == ri[k]; assert Offers(ri, f); }
          }
          if f == last { assert r[|r| - 1].0 == f; }
        }
      }
    }
  }

  /** `list_available_game_folders`: `None` for a non-string root, otherwise the
      directories listed under it. */
  method ListAvailableGameFolders(disk: Disk, root: Arg, listing: Option<seq<string>>)
    returns (r: Option<seq<string>>)
    ensures r.None? <==> root.NotStr?
    ensures r.Some? ==> r.value == FoldersIn(disk.State(), root.s, listing)
  {
    if !root.Str? {
      return None;
    }
    var folders := disk.ListFoldersInDirectory(root.s, listing);
    r := Some(folders);
  }

  /** `list_available_source_folders`: `None` for a non-string argument, otherwise
      the directories under it that are not excluded, each with its full path, in
      listing order. */
  method ListAvailableSourceFolders(disk: Disk, gameFolder: Arg, listing: Option<seq<string>>)
    returns (r: Option<seq<(string, string)>>)
    ensures r.None? <==> gameFolder.NotStr?
    ensures r.Some? ==> r.value == SourceFolders(FoldersIn(disk.State(), gameFolder.s, listing), gameFolder.s)
  {
    if !gameFolder.Str? {
      return None;
    }
    var root := gameFolder.s;
    var names := disk.ListFoldersInDirectory(root, listing);
    var withPath: seq<(string, string)> := [];
    for i := 0 to |names|
      invariant |withPath| == i
      invariant forall k :: 0 <= k < i ==> withPath[k] == (names[k], JoinPath(root, names[k]))
    {
      withPath := withPath + [(names[i], JoinPath(root, names[i]))];
    }
    var kept: seq<(string, string)> := [];
    for j := 0 to |withPath|
      invariant kept == SourceFolders(names[..j], root)
    {
      assert names[..j + 1][..j] == names[..j];
      var (name, path) := withPath[j];
      if !(EndsWith(name, ".extracted") || EndsWith(name, ".temp")) {
        kept := kept + [(name, path)];
      }
    }
    assert names[..|names|] == names;
    r := Some(kept);
  }

  // -------------------------------------------------------- destination lookup

  const NotSet: string := "Not Set"

  /** A key of the destination table equal to the name, ignoring case. */
  predicate KeyMatches(entry: (string, string), name: string) {
    Lower(entry.0) == Lower(name)
  }

  /** `check_and_determine_destination_folder`: the value of the first key equal to
      the name ignoring case, unless that value is "Not Set"; `None` when no key
      matches. The table is the `DESTINATION_PATH` dictionary in insertion order. */
  method CheckAndDetermineDestinationFolder(table: seq<(string, string)>, name: string)
    returns (r: Option<string>)
    ensures r.Some? ==> exists i :: 0 <= i < |table| && KeyMatches(table[i], name) &&
                                    (forall j :: 0 <= j < i ==> !KeyMatches(table[j], name)) &&
                                    r.value == table[i].1 && r.value != NotSet
    ensures r.None? <==> (forall i :: 0 <= i < |table| ==> !KeyMatches(table[i], name)) ||
                         (exists i :: 0 <= i < |table| && KeyMatches(table[i], name) &&
                                      (forall j :: 0 <= j < i ==> !KeyMatches(table[j], name)) &&
                                      table[i].1 == NotSet)
  {
    var nameLower := Lower(name);
    for i := 0 to |table|
      invariant forall j :: 0 <= j < i ==> !KeyMatches(table[j], name)
    {
      if Lower(table[i].0) == nameLower {
        var predefined := table[i].1;
        if predefined == NotSet {
          return None;
        }
        return Some(predefined);
      }
    }
    return None;
  }

  // -------------------------------------------------------------- disable pass

  /** The new name a source folder gets: an existing "DISABLED_", "DISABLED-" or
      "disabled " prefix (in any case) is replaced by "DISABLED ", any other name is
      prefixed with it, and a name already starting with "DISABLED " is kept. */
  function DisabledName(name: string): string {
    if StartsWith(name, "DISABLED ") then name
    else if StartsWith(name, "DISABLED_") || StartsWith(name, "DISABLED-") ||
            StartsWith(Lower(name), "disabled ") then "DISABLED " + name[9..]
    else "DISABLED " + name
  }

  /** The path a source folder is renamed to: the same parent, the disabled name. */
  function DisabledPath(p: string): string {
    JoinPath(Dirname(p), DisabledName(Basename(p)))
  }

  /** One iteration of `add_prefix_disabled_folders`: `None` when the folder is not
      a directory (the pass stops there); otherwise the path the folder now has. A
      folder not yet named "DISABLED …" is renamed to its disabled path, and keeps
      its old path only when that rename fails. */
  function DisableStep(e: Entries, os: Os, p: string): (r: (Option<string>, Entries))
    ensures r.0.None? <==> !IsDir(e, p)
    ensures r.0.None? ==> r.1 == e
    ensures r.0.Some? ==> (r.0.value == p && r.1 == e) ||
                          (r.0.value == DisabledPath(p) && !StartsWith(Basename(p), "DISABLED ") &&
                           r.1 == RenameStep(e, os, p, DisabledPath(p)).1 && IsDir(r.1, r.0.value))
    ensures IsDir(e, p) && StartsWith(Basename(p), "DISABLED ") ==> r == (Some(p), e)
    ensures IsDir(e, p) && !StartsWith(Basename(p), "DISABLED ") ==>
              var rename := RenameStep(e, os, p, DisabledPath(p));
              r.1 == rename.1 &&
              (rename.0 ==> r.0 == Some(DisabledPath(p))) &&
              (!rename.0 ==> r.0 == Some(p))
  {
    if !IsDir(e, p) then (None, e)
    else if StartsWith(Basename(p), "DISABLED ") then (Some(p), e)
    else
      var q := DisabledPath(p);
      var (ok, e1) := RenameStep(e, os, p, q);
      (Some(if ok then q else p), e1)
  }

  /** `add_prefix_disabled_folders` as a whole: the new paths in order, or `None`
      when some folder is not a directory by the time it is reached. Renames done
      before that point are not undone. */
  function DisablePass(e: Entries, os: Os, paths: seq<string>): (Option<seq<string>>, Entries)
    decreases |paths|
  {
    if paths == [] then (Some([]), e)
    else
      var (done, e1) := DisablePass(e, os, paths[..|paths| - 1]);
      if done.None? then (None, e1)
      else
        var (q, e2) := DisableStep(e1, os, paths[|paths| - 1]);
        if q.None? then (None, e2) else (Some(done.value + [q.value]), e2)
  }

  /** Once the pass has stopped, later paths change nothing. */
  lemma {:induction false} DisablePassStops(e: Entries, os: Os, paths: seq<string>, k: nat)
    requires k <= |paths| && DisablePass(e, os, paths[..k]).0.None?
    ensures DisablePass(e, os, paths) == DisablePass(e, os, paths[..k])
    decreases |paths|
  {
    if k < |paths| {
      var init := paths[..|paths| - 1];
      assert init[..k] == paths[..k];
      DisablePassStops(e, os, init, k);
    } else {
      assert paths[..k] == paths;
    }
  }

  /** `add_prefix_disabled_folders` */
  method AddPrefixDisabledFolders(disk: Disk, paths: seq<string>) returns (r: Option<seq<string>>)
    modifies disk
    ensures (r, disk.State()) == DisablePass(old(disk.State()), disk.os, paths)
  {
    ghost var e0 := disk.State();
    var renamed: seq<string> := [];
    for i := 0 to |paths|
      invariant (Some(renamed), disk.State()) == DisablePass(e0, disk.os, paths[..i])
    {
      assert paths[..i + 1][..i] == paths[..i];
      var sourcePath := paths[i];
      var isDir := disk.CheckDirectoryExists(Str(sourcePath));
      if !isDir {
        DisablePassStops(e0, disk.os, paths, i + 1);
        return None;
      }
      var sourceName := Basename(sourcePath);
      if StartsWith(sourceName, "DISABLED ") {
        renamed := renamed + [sourcePath];
        continue;
      }
      var sourcePathNew := JoinPath(Dirname(sourcePath), DisabledName(sourceName));
      var ok := disk.RenameFolder(sourcePath, sourcePathNew);
      if ok {
        renamed := renamed + [sourcePathNew];
      } else {
        renamed := renamed + [sourcePath];
      }
    }
    assert paths[..|paths|] == paths;
    r := Some(renamed);
  }

  // ---------------------------------------------------------------- move pass

  datatype MoveKind = Moved | Failed | Duplicate

  /** What happened to one folder, with the `(renamed_source_path,
      full_destination_path)` pair the summary records. */
  datatype MoveRecord = MoveRecord(kind: MoveKind, source: string, target: string)

  /** The `{'moved', 'failed', 'duplicates'}` summary. */
  datatype Summary = Summary(
    moved: seq<(string, string)>,
    failed: seq<(string, string)>,
    duplicates: seq<(string, string)>)

  /** The path a folder is moved to: its own name inside the matched destination. */
  function FullDestination(root: string, destinationName: string, source: string): string {
    JoinPath(JoinPath(root, destinationName), Basename(source))
  }

  /** One iteration of the loop in `process_folder`: a folder whose move fails is a
      duplicate when its full destination path exists, a failure otherwise. */
  function MoveOne(e: Entries, os: Os, source: string, destinationName: string, root: string)
    : (r: (MoveRecord, Entries))
    ensures r.0.source == source && r.0.target == FullDestination(root, destinationName, source)
  {
    var t := FullDestination(root, destinationName, source);
    var (ok, e1) := MoveStep(e, os, source, t);
    (MoveRecord(if ok then Moved else if Exists(e1, t) then Duplicate else Failed, source, t), e1)
  }

  /** How one item's move ends: moved when the move succeeds, a duplicate when it
      fails while the full destination exists, a failure otherwise; only a move
      changes the disk. */
  lemma MoveOneSpec(e: Entries, os: Os, source: string, destinationName: string, root: string)
    ensures var r := MoveOne(e, os, source, destinationName, root);
            var t := FullDestination(root, destinationName, source);
            (r.0.kind == Moved <==> MoveStep(e, os, source, t).0) &&
            (r.0.kind == Duplicate <==> !MoveStep(e, os, source, t).0 && Exists(e, t)) &&
            (r.0.kind == Moved ==> r.1 == MoveStep(e, os, source, t).1) &&
            (r.0.kind != Moved ==> r.1 == e)
  {
  }

  /** The loop of `process_folder` over `zip(renamed_source_path_list,
      destination_foldername_list)`. */
  function MovePass(e: Entries, os: Os, pairs: seq<(string, string)>, root: string)
    : (r: (seq<MoveRecord>, Entries))
    ensures |r.0| == |pairs|
    ensures forall i :: 0 <= i < |pairs| ==>
              r.0[i].source == pairs[i].0 && r.0[i].target == FullDestination(root, pairs[i].1, pairs[i].0)
    decreases |pairs|
  {
    if pairs == [] then ([], e)
    else
      var (recs, e1) := MovePass(e, os, pairs[..|pairs| - 1], root);
      var last := pairs[|pairs| - 1];
      var (rec, e2) := MoveOne(e1, os, last.0, last.1, root);
      RecordsAppend(recs, rec, pairs, root);
      (recs + [rec], e2)
  }

  /** Records that carry their pairs, extended by a record for the next pair. */
  lemma RecordsAppend(recs: seq<MoveRecord>, rec: MoveRecord, pairs: seq<(string, string)>, root: string)
    requires |pairs| > 0 && |recs| == |pairs| - 1
    requires forall i :: 0 <= i < |recs| ==>
               recs[i].source == pairs[i].0 && recs[i].target == FullDestination(root, pairs[i].1, pairs[i].0)
    requires var last := pairs[|pairs| - 1];
             rec.source == last.0 && rec.target == FullDestination(root, last.1, last.0)
    ensures var r := recs + [rec];
            |r| == |pairs| &&
            forall i :: 0 <= i < |pairs| ==>
              r[i].source == pairs[i].0 && r[i].target == FullDestination(root, pairs[i].1, pairs[i].0)
  {
  }

  /** The pairs of the records of one kind, in order. */
  function Pairs(kind: MoveKind, recs: seq<MoveRecord>): (r: seq<(string, string)>)
    ensures |r| <= |recs|
    decreases |recs|
  {
    if recs == [] then []
    else
      var init := Pairs(kind, recs[..|recs| - 1]);
      var last := recs[|recs| - 1];
      if last.kind == kind then init + [(last.source, last.target)] else init
  }

  /** The positions of the records of one kind, in increasing order. */
  function KindIndices(kind: MoveKind, recs: seq<MoveRecord>): seq<nat>
    decreases |recs|
  {
    if recs == [] then []
    else
      var r := KindIndices(kind, recs[..|recs| - 1]);
      if recs[|recs| - 1].kind == kind then r + [|recs| - 1] else r
  }

  /** Entry `k` of a kind's list is the pair of record `KindIndices(kind, recs)[k]`,
      the positions increase, and every record of that kind has its position listed. */
  lemma {:induction false} KindIndicesSpec(kind: MoveKind, recs: seq<MoveRecord>)
    ensures var r := KindIndices(kind, recs);
            |r| == |Pairs(kind, recs)| &&
            (forall k :: 0 <= k < |r| ==>
               r[k] < |recs| && recs[r[k]].kind == kind &&
               Pairs(kind, recs)[k] == (recs[r[k]].source, recs[r[k]].target)) &&
            (forall k, l :: 0 <= k < l < |r| ==> r[k] < r[l]) &&
            (forall i :: 0 <= i < |recs| && recs[i].kind == kind ==> i in r)
    decreases |recs|
  {
    if recs != [] {
      var init := recs[..|recs| - 1];
      var last := recs[|recs| - 1];
      KindIndicesSpec(kind, init);
      var r0 := KindIndices(kind, init);
      var p0 := Pairs(kind, init);
      assert forall i :: 0 <= i < |init| ==> init[i] == recs[i];
      if last.kind == kind {
        assert KindIndices(kind, recs) == r0 + [|recs| - 1];
        assert Pairs(kind, recs) == p0 + [(last.source, last.target)];
      } else {
        assert KindIndices(kind, recs) == r0;
        assert Pairs(kind, recs) == p0;
      }
    }
  }

  /** The list of one kind in a summary. */
  function KindList(kind: MoveKind, s: Summary): seq<(string, string)> {
    match kind
    case Moved => s.moved
    case Failed => s.failed
    case Duplicate => s.duplicates
  }

  function Summarize(recs: seq<MoveRecord>): Summary {
    Summary(Pairs(Moved, recs), Pairs(Failed, recs), Pairs(Duplicate, recs))
  }

  /** Python's `zip`: as long as the shorter list. */
  function Zip(a: seq<string>, b: seq<string>): (r: seq<(string, string)>)
    ensures |r| == if |a| <= |b| then |a| else |b|
    ensures forall i :: 0 <= i < |r| ==> r[i] == (a[i], b[i])
  {
    var n := if |a| <= |b| then |a| else |b|;
    seq(n, i requires 0 <= i < n => (a[i], b[i]))
  }

  function SourcePaths(mapping: seq<MatchResult>): (r: seq<string>)
    ensures |r| == |mapping| && forall i :: 0 <= i < |r| ==> r[i] == mapping[i].sourcePath
  {
    seq(|mapping|, i requires 0 <= i < |mapping| => mapping[i].sourcePath)
  }

  function DestinationNames(mapping: seq<MatchResult>): (r: seq<string>)
    ensures |r| == |mapping| && forall i :: 0 <= i < |r| ==> r[i] == mapping[i].destinationName
  {
    seq(|mapping|, i requires 0 <= i < |mapping| => mapping[i].destinationName)
  }

  /** `process_folder`: the disable pass, then the move pass over its result. When
      the disable pass stops (`add_prefix_disabled_folders` returns `None`), the
      Python code fails on `zip(None, ...)`; the model returns `None`. */
  function ProcessSpec(e: Entries, os: Os, mapping: seq<MatchResult>, root: string)
    : (Option<Summary>, Entries)
  {
    var (renamed, e1) := DisablePass(e, os, SourcePaths(mapping));
    if renamed.None? then (None, e1)
    else
      var (recs, e2) := MovePass(e1, os, Zip(renamed.value, DestinationNames(mapping)), root);
      (Some(Summarize(recs)), e2)
  }

  /** The loop of `process_folder`. */
  method MoveAll(disk: Disk, pairs: seq<(string, string)>, root: string) returns (summary: Summary)
    modifies disk
    ensures var (recs, e) := MovePass(old(disk.State()), disk.os, pairs, root);
            summary == Summarize(recs) && disk.State() == e
  {
    ghost var e0 := disk.State();
    ghost var recs: seq<MoveRecord> := [];
    summary := Summary([], [], []);
    for i := 0 to |pairs|
      invariant (recs, disk.State()) == MovePass(e0, disk.os, pairs[..i], root)
      invariant summary == Summarize(recs)
    {
      assert pairs[..i + 1][..i] == pairs[..i];
      var rec := MoveEntry(disk, pairs[i].0, pairs[i].1, root);
      SummarizeLast(recs, rec);
      var entry := (rec.source, rec.target);
      if rec.kind == Moved {
        summary := summary.(moved := summary.moved + [entry]);
      } else if rec.kind == Duplicate {
        summary := summary.(duplicates := summary.duplicates + [entry]);
      } else {
        summary := summary.(failed := summary.failed + [entry]);
      }
      recs := recs + [rec];
    }
    assert pairs[..|pairs|] == pairs;
  }

  /** One iteration of the loop of `process_folder`. */
  method MoveEntry(disk: Disk, renamedSourcePath: string, destinationFoldername: string, root: string)
    returns (rec: MoveRecord)
    modifies disk
    ensures (rec, disk.State()) == MoveOne(old(disk.State()), disk.os, renamedSourcePath, destinationFoldername, root)
  {
    var destinationPath := JoinPath(root, destinationFoldername);
    var baseFolderName := Basename(renamedSourcePath);
    var fullDestinationPath := JoinPath(destinationPath, baseFolderName);
    var moved := disk.MoveFolder(renamedSourcePath, fullDestinationPath);
    if moved {
      return MoveRecord(Moved, renamedSourcePath, fullDestinationPath);
    }
    var present := disk.PathExists(fullDestinationPath);
    if present {
      rec := MoveRecord(Duplicate, renamedSourcePath, fullDestinationPath);
    } else {
      rec := MoveRecord(Failed, renamedSourcePath, fullDestinationPath);
    }
  }

  /** One more record adds its pair to the list of its kind. */
  lemma SummarizeLast(recs: seq<MoveRecord>, rec: MoveRecord)
    ensures var s := Summarize(recs);
            var entry := [(rec.source, rec.target)];
            Summarize(recs + [rec]) ==
              if rec.kind == Moved then s.(moved := s.moved + entry)
              else if rec.kind == Duplicate then s.(duplicates := s.duplicates + entry)
              else s.(failed := s.failed + entry)
  {
    assert (recs + [rec])[..|recs|] == recs;
  }

  /** `process_folder` */
  method ProcessFolder(disk: Disk, mapping: seq<MatchResult>, destinationFolder: string)
    returns (summary: Option<Summary>)
    modifies disk
    ensures (summary, disk.State()) == ProcessSpec(old(disk.State()), disk.os, mapping, destinationFolder)
  {
    var sourcePathList := SourcePaths(mapping);
    var destinationFoldernameList := DestinationNames(mapping);
    var renamedSourcePathList := AddPrefixDisabledFolders(disk, sourcePathList);
    if renamedSourcePathList.None? {
      return None;
    }
    var s := MoveAll(disk, Zip(renamedSourcePathList.value, destinationFoldernameList), destinationFolder);
    summary := Some(s);
  }

  // ------------------------------------------------------------------- lemmas

  /** Every new name carries the "DISABLED " prefix. */
  lemma DisabledNamePrefixed(name: string)
    ensures StartsWith(DisabledName(name), "DISABLED ")
  {
  }

  /** A name is left alone exactly when it already starts with "DISABLED ". */
  lemma DisabledNameFixedPoint(name: string)
    ensures DisabledName(name) == name <==> StartsWith(name, "DISABLED ")
  {
    DisabledNamePrefixed(name);
  }

  /** Disabling twice is disabling once. */
  lemma DisabledNameIdempotent(name: string)
    ensures DisabledName(DisabledName(name)) == DisabledName(name)
  {
    DisabledNamePrefixed(name);
  }

  /** A doubled "DISABLED DISABLED " prefix is never introduced: it appears in the
      new name only when the name already had it, or had it after its first nine
      characters. */
  lemma {:induction false} DisabledNameNoDoublePrefix(name: string)
    ensures StartsWith(DisabledName(name), "DISABLED DISABLED ") ==>
              StartsWith(name, "DISABLED DISABLED ") ||
              (|name| >= 9 && StartsWith(name[9..], "DISABLED "))
  {
    var r := DisabledName(name);
    var p := "DISABLED ";
    assert "DISABLED DISABLED " == p + p;
    if StartsWith(r, p + p) && !StartsWith(name, p) {
      if StartsWith(name, "DISABLED_") || StartsWith(name, "DISABLED-") ||
         StartsWith(Lower(name), "disabled ") {
        assert |name| >= 9 && r == p + name[9..];
        PrefixAfter(p, name[9..], p);
      } else {
        PrefixAfter(p, name, p);
        assert false;
      }
    }
  }

  /** A common head can be dropped from both sides of a prefix test. */
  lemma PrefixAfter(a: string, rest: string, q: string)
    requires a + q <= a + rest
    ensures q <= rest
  {
    assert forall i :: 0 <= i < |q| ==> q[i] == (a + q)[|a| + i] == (a + rest)[|a| + i] == rest[i];
  }

  /** Disabling a name of the recognised kinds keeps what follows its prefix, and
      any other name whole. */
  lemma DisabledNameKeepsRest(name: string)
    ensures !StartsWith(name, "DISABLED ") && |name| >= 9 &&
            (name[..9] == "DISABLED_" || name[..9] == "DISABLED-" || Lower(name[..9]) == "disabled ") ==>
              DisabledName(name)[9..] == name[9..]
    ensures !StartsWith(name, "DISABLED_") && !StartsWith(name, "DISABLED-") &&
            !StartsWith(Lower(name), "disabled ") ==>
              DisabledName(name)[9..] == name
  {
    if |name| >= 9 {
      assert Lower(name)[..9] == Lower(name[..9]);
    }
  }

  /** The characters of a disabled name are those of "DISABLED " and of the name. */
  lemma DisabledNameChars(name: string)
    ensures forall c :: c in DisabledName(name) ==> c in "DISABLED " || c in name
  {
    if !StartsWith(name, "DISABLED ") {
      if StartsWith(name, "DISABLED_") || StartsWith(name, "DISABLED-") ||
         StartsWith(Lower(name), "disabled ") {
        forall c | c in DisabledName(name) ensures c in "DISABLED " || c in name {
          var r := DisabledName(name);
          var k :| 0 <= k < |r| && r[k] == c;
          if k >= 9 { assert c == name[k]; }
        }
      }
    }
  }

  /** The renamed folder stays in its parent directory and its name is the
      disabled name. */
  lemma DisabledPathShape(p: string)
    ensures Dirname(DisabledPath(p)) == Dirname(p)
    ensures Basename(DisabledPath(p)) == DisabledName(Basename(p))
  {
    var n := Basename(p);
    assert '/' !in n by {
      forall c | c in n ensures c != '/' {
        var k :| 0 <= k < |n| && n[k] == c;
        assert n[k] == p[TailStart(p) + k];
      }
    }
    DisabledNameChars(n);
    assert '/' !in DisabledName(n);
    DirnameJoin(p, DisabledName(n));
    BasenameJoin(Dirname(p), DisabledName(n));
  }

  /** A name with a lower-case "disabled_" prefix is not recognised and gets a
      second prefix. */
  lemma DisabledNameLowerUnderscore()
    ensures DisabledName("disabled_x") == "DISABLED disabled_x"
  {
    var n := "disabled_x";
    assert n[0] != "DISABLED "[0];
    assert Lower(n)[8] == '_' && "disabled "[8] == ' ';
  }

  /** The pass stops at the first folder that is not a directory when it is
      reached, and the renames done before it stay in place. */
  lemma DisablePassStopsAt(e: Entries, os: Os, paths: seq<string>, i: nat)
    requires i < |paths|
    requires DisablePass(e, os, paths[..i]).0.Some?
    requires !IsDir(DisablePass(e, os, paths[..i]).1, paths[i])
    ensures DisablePass(e, os, paths) == (None, DisablePass(e, os, paths[..i]).1)
  {
    assert paths[..i + 1][..i] == paths[..i];
    DisablePassStops(e, os, paths, i + 1);
  }

  /** Each new path is the source itself or its image under `f`. */
  predicate RenamedFrom(r: seq<string>, paths: seq<string>, f: string -> string) {
    |r| == |paths| && forall i :: 0 <= i < |paths| ==> r[i] == paths[i] || r[i] == f(paths[i])
  }

  lemma RenamedFromLast(done: seq<string>, paths: seq<string>, q: string, f: string -> string)
    requires paths != [] && RenamedFrom(done, paths[..|paths| - 1], f)
    requires q == paths[|paths| - 1] || q == f(paths[|paths| - 1])
    ensures RenamedFrom(done + [q], paths, f)
  {
    var r, init := done + [q], paths[..|paths| - 1];
    forall i | 0 <= i < |paths|
      ensures r[i] == paths[i] || r[i] == f(paths[i])
    {
      if i < |init| { assert r[i] == done[i] && paths[i] == init[i]; }
    }
  }

  /** A completed disable pass gives one path per source, each the source itself
      or its disabled path. */
  lemma {:induction false} DisablePassShape(e: Entries, os: Os, paths: seq<string>)
    ensures var r := DisablePass(e, os, paths).0;
            r.Some? ==> |r.value| == |paths| &&
                        forall i :: 0 <= i < |paths| ==> r.value[i] == paths[i] || r.value[i] == DisabledPath(paths[i])
    decreases |paths|
  {
    if paths != [] {
      var init := paths[..|paths| - 1];
      var last := paths[|paths| - 1];
      DisablePassShape(e, os, init);
      var pass := DisablePass(e, os, init);
      if pass.0.Some? {
        var step := DisableStep(pass.1, os, last);
        if step.0.Some? {
          assert RenamedFrom(pass.0.value, init, DisabledPath);
          RenamedFromLast(pass.0.value, paths, step.0.value, DisabledPath);
          assert DisablePass(e, os, paths).0 == Some(pass.0.value + [step.0.value]);
        }
      }
    }
  }

  /** Directories the pass has not reached are still in place. A rename in the
      program carries the folder's contents with it, so `p` must not lie inside
      any of the renamed folders. */
  lemma {:induction false} DisablePassKeeps(e: Entries, os: Os, paths: seq<string>, p: string)
    requires IsDir(e, p) && p !in paths
    requires forall i :: 0 <= i < |paths| ==> !Below(p, paths[i])
    ensures IsDir(DisablePass(e, os, paths).1, p)
    decreases |paths|
  {
    if paths != [] {
      var init := paths[..|paths| - 1];
      assert p !in init;
      assert paths[|paths| - 1] != p;
      assert forall i :: 0 <= i < |init| ==> init[i] == paths[i];
      DisablePassKeeps(e, os, init, p);
    }
  }

  /** When the sources are distinct directories, none inside another (as the
      listing of one parent folder gives them), the disable pass completes. */
  lemma {:induction false} DisablePassCompletes(e: Entries, os: Os, paths: seq<string>)
    requires forall i :: 0 <= i < |paths| ==> IsDir(e, paths[i])
    requires forall i, j :: 0 <= i < j < |paths| ==> paths[i] != paths[j]
    requires forall i, j :: 0 <= i < |paths| && 0 <= j < |paths| && i != j ==> !Below(paths[j], paths[i])
    ensures DisablePass(e, os, paths).0.Some?
    decreases |paths|
  {
    if paths != [] {
      var init := paths[..|paths| - 1];
      var last := paths[|paths| - 1];
      assert forall k :: 0 <= k < |init| ==> init[k] == paths[k];
      DisablePassCompletes(e, os, init);
      assert last !in init by {
        forall k | 0 <= k < |init| ensures init[k] != last {
          assert init[k] == paths[k];
        }
      }
      assert forall k :: 0 <= k < |init| ==> !Below(last, init[k]);
      DisablePassKeeps(e, os, init, last);
    }
  }

  /** Every path's disabled path, in order. */
  function DisabledPaths(paths: seq<string>): (r: seq<string>)
    ensures |r| == |paths| && forall i :: 0 <= i < |paths| ==> r[i] == DisabledPath(paths[i])
    decreases |paths|
  {
    if paths == [] then [] else DisabledPaths(paths[..|paths| - 1]) + [DisabledPath(paths[|paths| - 1])]
  }

  /** When every source is a directory not yet named "DISABLED …", none equal to or
      inside another, and the OS allows each rename onto a path that is not a file,
      the pass renames every folder: it returns the disabled paths in order, each of
      them is then a directory, and no file changes. */
  lemma {:induction false} DisablePassRenamesAll(e: Entries, os: Os, paths: seq<string>)
    requires forall i :: 0 <= i < |paths| ==> IsDir(e, paths[i])
    requires forall i, j :: 0 <= i < j < |paths| ==> paths[i] != paths[j]
    requires forall i, j :: 0 <= i < |paths| && 0 <= j < |paths| && i != j ==> !Below(paths[j], paths[i])
    requires forall i :: 0 <= i < |paths| ==> !StartsWith(Basename(paths[i]), "DISABLED ")
    requires forall i :: 0 <= i < |paths| ==>
               os.renameOk(paths[i], DisabledPath(paths[i])) && DisabledPath(paths[i]) !in e.files
    ensures var pass := DisablePass(e, os, paths);
            pass.0 == Some(DisabledPaths(paths)) &&
            (forall i :: 0 <= i < |paths| ==> IsDir(pass.1, DisabledPath(paths[i]))) &&
            pass.1.files == e.files
    decreases |paths|
  {
    if paths != [] {
      var init := paths[..|paths| - 1];
      var last := paths[|paths| - 1];
      assert forall k :: 0 <= k < |init| ==> init[k] == paths[k];
      DisablePassRenamesAll(e, os, init);
      var (done, e1) := DisablePass(e, os, init);
      assert last !in init by {
        forall k | 0 <= k < |init| ensures init[k] != last {
          assert init[k] == paths[k];
        }
      }
      assert forall k :: 0 <= k < |init| ==> !Below(last, init[k]);
      DisablePassKeeps(e, os, init, last);
      var q := DisabledPath(last);
      var (ok, e2) := RenameStep(e1, os, last, q);
      assert ok;
      DisableStepRenames(e1, os, last, init, q, e2);
      assert DisablePass(e, os, paths) == (Some(done.value + [q]), e2);
      assert DisabledPaths(paths) == DisabledPaths(init) + [q];
    }
  }

  /** The last step of `DisablePassRenamesAll`: the rename keeps every earlier
      disabled path, since none of them is the source being renamed. */
  lemma DisableStepRenames(e1: Entries, os: Os, last: string, init: seq<string>, q: string, e2: Entries)
    requires q == DisabledPath(last) && (true, e2) == RenameStep(e1, os, last, q)
    requires !StartsWith(Basename(last), "DISABLED ")
    requires forall k :: 0 <= k < |init| ==> IsDir(e1, DisabledPath(init[k]))
    ensures DisableStep(e1, os, last) == (Some(q), e2)
    ensures forall k :: 0 <= k < |init| ==> IsDir(e2, DisabledPath(init[k]))
    ensures IsDir(e2, q) && e2.files == e1.files
  {
    forall k | 0 <= k < |init| ensures IsDir(e2, DisabledPath(init[k])) {
      DisabledPathShape(init[k]);
      DisabledNamePrefixed(Basename(init[k]));
      assert DisabledPath(init[k]) != last;
    }
  }

  /** The summary sorts every record into exactly one of its three lists. */
  lemma {:induction false} SummaryPartition(recs: seq<MoveRecord>)
    ensures var s := Summarize(recs);
            |s.moved| + |s.failed| + |s.duplicates| == |recs|
    decreases |recs|
  {
    if recs != [] {
      SummaryPartition(recs[..|recs| - 1]);
    }
  }

  /** Some record of the given kind carries the pair. */
  predicate HasRecord(recs: seq<MoveRecord>, kind: MoveKind, st: (string, string)) {
    exists i :: 0 <= i < |recs| && recs[i].kind == kind && (recs[i].source, recs[i].target) == st
  }

  /** A pair is in the list of a kind exactly when some record of that kind has it. */
  lemma {:induction false} PairsMembers(kind: MoveKind, recs: seq<MoveRecord>)
    ensures forall st :: st in Pairs(kind, recs) <==> HasRecord(recs, kind, st)
    decreases |recs|
  {
    if recs != [] {
      var init := recs[..|recs| - 1];
      PairsMembers(kind, init);
      forall st | HasRecord(init, kind, st) ensures HasRecord(recs, kind, st) {
        var i :| 0 <= i < |init| && init[i].kind == kind && (init[i].source, init[i].target) == st;
        assert recs[i] == init[i];
      }
      forall st | HasRecord(recs, kind, st) ensures st in Pairs(kind, recs) {
        var i :| 0 <= i < |recs| && recs[i].kind == kind && (recs[i].source, recs[i].target) == st;
        if i < |init| {
          assert init[i] == recs[i];
          assert HasRecord(init, kind, st);
        }
      }
    }
  }

  /** When `process_folder` completes, every selected folder is accounted for once,
      and every recorded pair goes from the folder's (possibly disabled) path to its
      own name inside the matched destination folder. */
  lemma ProcessFolderAccounts(e: Entries, os: Os, mapping: seq<MatchResult>, root: string)
    ensures var (s, _) := ProcessSpec(e, os, mapping, root);
            s.Some? ==>
              |s.value.moved| + |s.value.failed| + |s.value.duplicates| == |mapping| &&
              forall st :: st in s.value.moved + s.value.failed + s.value.duplicates ==>
                exists i :: 0 <= i < |mapping| &&
                  (st.0 == mapping[i].sourcePath || st.0 == DisabledPath(mapping[i].sourcePath)) &&
                  st.1 == FullDestination(root, mapping[i].destinationName, st.0)
  {
    var (renamed, e1) := DisablePass(e, os, SourcePaths(mapping));
    if renamed.Some? {
      DisablePassShape(e, os, SourcePaths(mapping));
      var pairs := Zip(renamed.value, DestinationNames(mapping));
      var (recs, e2) := MovePass(e1, os, pairs, root);
      SummaryPartition(recs);
      PairsMembers(Moved, recs);
      PairsMembers(Failed, recs);
      PairsMembers(Duplicate, recs);
      var s := Summarize(recs);
      forall st | st in s.moved + s.failed + s.duplicates
        ensures exists i :: 0 <= i < |mapping| &&
                  (st.0 == mapping[i].sourcePath || st.0 == DisabledPath(mapping[i].sourcePath)) &&
                  st.1 == FullDestination(root, mapping[i].destinationName, st.0)
      {
        assert st in s.moved || st in s.failed || st in s.duplicates;
        var i :| 0 <= i < |recs| && (recs[i].source, recs[i].target) == st;
        assert pairs[i] == (renamed.value[i], mapping[i].destinationName);
      }
    }
  }

  /** The k-th entry of a kind's list belongs to the folder at position `idx[k]`: it
      goes from that folder's path, or its disabled path, to its own name inside the
      matched destination. */
  predicate FolderEntry(list: seq<(string, string)>, idx: seq<nat>, k: int,
                        mapping: seq<MatchResult>, renamed: seq<string>, root: string)
  {
    0 <= k < |idx| && k < |list| && idx[k] < |mapping| && idx[k] < |renamed| &&
    (renamed[idx[k]] == mapping[idx[k]].sourcePath ||
     renamed[idx[k]] == DisabledPath(mapping[idx[k]].sourcePath)) &&
    list[k] == (renamed[idx[k]], FullDestination(root, mapping[idx[k]].destinationName, renamed[idx[k]]))
  }

  /** In a completed run each of the moved, failed and duplicate lists keeps the
      input order: entry `k` belongs to the selected item at a strictly increasing
      position `idx[k]`, goes from that item's path (or its disabled path) to its own
      name inside that item's destination, and every item whose move ended that
      way is listed. `renamed` and `recs` are the disable pass's paths and the move
      pass's records of the run. */
  lemma ProcessFolderOrder(e: Entries, os: Os, mapping: seq<MatchResult>, root: string, kind: MoveKind,
                           renamed: seq<string>, e1: Entries, recs: seq<MoveRecord>)
    requires DisablePass(e, os, SourcePaths(mapping)) == (Some(renamed), e1)
    requires recs == MovePass(e1, os, Zip(renamed, DestinationNames(mapping)), root).0
    ensures ProcessSpec(e, os, mapping, root).0 == Some(Summarize(recs))
    ensures |renamed| == |mapping| && |recs| == |mapping|
    ensures var list := KindList(kind, Summarize(recs));
            var idx := KindIndices(kind, recs);
            |idx| == |list| &&
            (forall k, l :: 0 <= k < l < |idx| ==> idx[k] < idx[l]) &&
            (forall i :: 0 <= i < |recs| && recs[i].kind == kind ==> i in idx) &&
            forall k :: 0 <= k < |idx| ==> FolderEntry(list, idx, k, mapping, renamed, root)
  {
    ProcessFolderRun(e, os, mapping, root, renamed, e1, recs);
    KindOrder(kind, recs, mapping, renamed, root);
    KindListPairs(kind, recs);
  }

  /** The order argument of `ProcessFolderOrder`, for any records that carry each
      folder's path or disabled path to its own destination. */
  lemma KindOrder(kind: MoveKind, recs: seq<MoveRecord>, mapping: seq<MatchResult>,
                  renamed: seq<string>, root: string)
    requires |renamed| == |mapping| && |recs| == |mapping|
    requires forall i :: 0 <= i < |mapping| ==>
               (renamed[i] == mapping[i].sourcePath || renamed[i] == DisabledPath(mapping[i].sourcePath)) &&
               recs[i].source == renamed[i] &&
               recs[i].target == FullDestination(root, mapping[i].destinationName, renamed[i])
    ensures var list := Pairs(kind, recs);
            var idx := KindIndices(kind, recs);
            |idx| == |list| &&
            (forall k, l :: 0 <= k < l < |idx| ==> idx[k] < idx[l]) &&
            (forall i :: 0 <= i < |recs| && recs[i].kind == kind ==> i in idx) &&
            forall k :: 0 <= k < |idx| ==> FolderEntry(list, idx, k, mapping, renamed, root)
  {
    KindIndicesSpec(kind, recs);
  }

  lemma KindListPairs(kind: MoveKind, recs: seq<MoveRecord>)
    ensures KindList(kind, Summarize(recs)) == Pairs(kind, recs)
  {
  }

  /** A completed run of `process_folder`: one record per selected folder, in order,
      from its path or disabled path to its own name inside the matched destination. */
  lemma ProcessFolderRun(e: Entries, os: Os, mapping: seq<MatchResult>, root: string,
                         renamed: seq<string>, e1: Entries, recs: seq<MoveRecord>)
    requires DisablePass(e, os, SourcePaths(mapping)) == (Some(renamed), e1)
    requires recs == MovePass(e1, os, Zip(renamed, DestinationNames(mapping)), root).0
    ensures ProcessSpec(e, os, mapping, root).0 == Some(Summarize(recs))
    ensures |renamed| == |mapping| && |recs| == |mapping|
    ensures forall i :: 0 <= i < |mapping| ==>
              (renamed[i] == mapping[i].sourcePath || renamed[i] == DisabledPath(mapping[i].sourcePath)) &&
              recs[i].source == renamed[i] &&
              recs[i].target == FullDestination(root, mapping[i].destinationName, renamed[i])
  {
    DisablePassShape(e, os, SourcePaths(mapping));
    var pairs := Zip(renamed, DestinationNames(mapping));
    forall i | 0 <= i < |mapping|
      ensures recs[i].source == renamed[i] &&
              recs[i].target == FullDestination(root, mapping[i].destinationName, renamed[i])
    {
      assert pairs[i] == (renamed[i], mapping[i].destinationName);
    }
  }

  /** With distinct sources that are all directories, none inside another,
      `process_folder` completes. */
  lemma ProcessFolderCompletes(e: Entries, os: Os, mapping: seq<MatchResult>, root: string)
    requires forall i :: 0 <= i < |mapping| ==> IsDir(e, mapping[i].sourcePath)
    requires forall i, j :: 0 <= i < j < |mapping| ==> mapping[i].sourcePath != mapping[j].sourcePath
    requires forall i, j :: 0 <= i < |mapping| && 0 <= j < |mapping| && i != j ==>
               !Below(mapping[j].sourcePath, mapping[i].sourcePath)
    ensures ProcessSpec(e, os, mapping, root).0.Some?
  {
    DisablePassCompletes(e, os, SourcePaths(mapping));
  }

  /** A folder whose name is already disabled is moved under its own name. */
  lemma DisabledSourceKeepsName(e: Entries, os: Os, p: string)
    requires IsDir(e, p) && StartsWith(Basename(p), "DISABLED ")
    ensures DisablePass(e, os, [p]) == (Some([p]), e)
  {
    assert [p][..|[p]| - 1] == [];
    assert DisablePass(e, os, []) == (Some([]), e);
    assert DisableStep(e, os, p) == (Some(p), e);
    assert [] + [p] == [p];
  }
}
