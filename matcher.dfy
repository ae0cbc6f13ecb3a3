/** The three-tier matcher: direct name match, content match, fuzzy match. */
module Matcher {
  import opened PyStr
  import opened Paths
  import opened Normalizer

  /** A similarity score as `fuzz.ratio` returns it. */
  type Score = r: real | 0.0 <= r <= 100.0

  /** The settings the matcher reads. `extensionsCheck` is the `EXTENSIONS_CHECK`
      dictionary; `translit` stands in for `unidecode`. */
  datatype MatchConfig = MatchConfig(
    skipWords: seq<string>,
    ignoreNumbers: bool,
    aliases: AliasTable,
    extensionsCheck: map<string, string>,
    translit: string -> string)

  /** One name yielded by `os.walk` below a source folder: the depth of the
      directory it was listed in (0 for the source folder itself), and its kind. */
  datatype WalkEntry = WalkEntry(depth: nat, name: string, isDir: bool)

  datatype Reason = DirectFolderMatch | ContentMatch | FuzzyMatch | NoMatch

  function ReasonText(r: Reason): string {
    match r
    case DirectFolderMatch => "Direct folder match"
    case ContentMatch => "Content match"
    case FuzzyMatch => "Fuzzy match"
    case NoMatch => "No match"
  }

  /** One `(source_path, destination, confidence, reason)` tuple. */
  datatype Mapping = Mapping(sourcePath: string, destination: string, confidence: real, reason: Reason)

  const NotFound: string := "Not Found"
  const MaxWalkDepth: nat := 5

  /** Python truthiness of an optional string result. */
  predicate Found(o: Option<string>) { o.Some? && o.value != "" }

  function Resolved(raw: string, cfg: MatchConfig): string {
    ResolvedName(raw, cfg.skipWords, cfg.ignoreNumbers, cfg.aliases, cfg.translit)
  }


  // ------------------------------------------------------------ partial_match

  /** Spaces removed, then lower-cased. */
  function Squash(s: string): string { Lower(RemoveSpaces(s)) }

  /** `partial_match`: some destination, squashed, is no longer than the squashed
      source and one of the two contains the other. */
  predicate PartialMatch(source: string, dests: seq<string>)
    decreases |dests|
  {
    dests != [] &&
    ((|Squash(source)| >= |Squash(dests[0])| &&
      (Contains(Squash(dests[0]), Squash(source)) || Contains(Squash(source), Squash(dests[0]))))
     || PartialMatch(source, dests[1..]))
  }

  /** Against one destination: the squashed destination must occur in the squashed
      source; so a source shorter than the destination never matches. */
  lemma PartialMatchOne(source: string, d: string)
    ensures PartialMatch(source, [d]) <==>
            |Squash(source)| >= |Squash(d)| && Contains(Squash(source), Squash(d))
  {
    var s', d' := Squash(source), Squash(d);
    assert [d][1..] == [];
    if |s'| >= |d'| && Contains(d', s') {
      ContainsShorter(d', s');
      ContainsSelf(s');
    }
  }

  // ---------------------------------------------------------------- tier 1

  /** The first destination the name partially matches. */
  function FirstPartialMatch(n: string, dests: seq<string>): (r: Option<string>)
    ensures r.Some? ==> exists j :: 0 <= j < |dests| && r.value == dests[j] &&
                          PartialMatch(n, [dests[j]]) &&
                          forall k :: 0 <= k < j ==> !PartialMatch(n, [dests[k]])
    ensures r.None? <==> forall k :: 0 <= k < |dests| ==> !PartialMatch(n, [dests[k]])
  {
    match FirstIndex(dests, d => PartialMatch(n, [d]))
    case None => None
    case Some(j) => Some(dests[j])
  }

  /** `find_folder_name_match`: the first destination the resolved basename
      partially matches. */
  function FindFolderNameMatch(path: string, dests: seq<string>, cfg: MatchConfig): (r: Option<string>)
    ensures var n := ResolveAlias(NormalizeName(Basename(path), cfg.skipWords, cfg.ignoreNumbers, cfg.translit),
                                  cfg.aliases);
            (r.None? <==> forall k :: 0 <= k < |dests| ==> !PartialMatch(n, [dests[k]])) &&
            (r.Some? ==> exists j :: 0 <= j < |dests| && r.value == dests[j] && PartialMatch(n, [dests[j]]) &&
                                     forall k :: 0 <= k < j ==> !PartialMatch(n, [dests[k]]))
  {
    FirstPartialMatch(Resolved(Basename(path), cfg), dests)
  }

  // ---------------------------------------------------------------- tier 2

  /** The test `find_folder_name_in_subfolders` applies to one sub-folder name. */
  predicate SubfolderMatches(dirName: string, dest: string, cfg: MatchConfig) {
    Lower(dirName) == Lower(dest) ||
    var n := Resolved(dirName, cfg);
    Lower(n) == Lower(dest) || PartialMatch(n, [dest])
  }

  predicate DirHit(e: WalkEntry, dest: string, cfg: MatchConfig) {
    e.isDir && e.depth <= MaxWalkDepth && SubfolderMatches(e.name, dest, cfg)
  }

  /** `find_folder_name_in_subfolders`: some sub-folder at most five levels down matches. */
  predicate FolderInSubfolders(walk: seq<WalkEntry>, dest: string, cfg: MatchConfig) {
    FirstIndex(walk, e => DirHit(e, dest, cfg)).Some?
  }

  /** The extension list: the `extensions` entry split on commas, each piece stripped. */
  function ExtensionPieces(extensionsCheck: map<string, string>): seq<string> {
    var raw := if "extensions" in extensionsCheck then extensionsCheck["extensions"] else "";
    var pieces := SplitOn(raw, ',');
    seq(|pieces|, k requires 0 <= k < |pieces| => Strip(pieces[k]))
  }

  predicate HasListedExtension(file: string, exts: seq<string>) {
    exists k :: 0 <= k < |exts| && EndsWith(file, Strip(exts[k]))
  }

  /** Index of the last '.' when one exists. */
  function LastDot(f: string): (r: Option<nat>)
    ensures r.Some? ==> r.value < |f| && f[r.value] == '.' &&
                        forall k :: r.value < k < |f| ==> f[k] != '.'
    ensures r.None? ==> '.' !in f
    decreases |f|
  {
    if f == [] then None
    else if f[|f| - 1] == '.' then Some(|f| - 1)
    else LastDot(f[..|f| - 1])
  }

  /** `os.path.splitext(f)[0]`: the name without its extension; leading dots do
      not start an extension. */
  function SplitextRoot(f: string): (r: string)
    ensures r <= f
    ensures |r| < |f| <==> exists i, k :: 0 <= k < i < |f| && f[k] != '.' && f[i] == '.'
    ensures |r| < |f| ==> f[|r|] == '.' && (forall k :: |r| < k < |f| ==> f[k] != '.') &&
                          exists k :: 0 <= k < |r| && r[k] != '.'
  {
    match LastDot(f)
    case None => f
    case Some(i) => if exists k :: 0 <= k < i && f[k] != '.' then f[..i] else f
  }

  /** The test `find_file_in_subfolders` applies to one file name. */
  predicate FileMatches(file: string, dest: string, cfg: MatchConfig) {
    HasListedExtension(file, ExtensionPieces(cfg.extensionsCheck)) &&
    (Contains(Lower(SplitextRoot(file)), Lower(dest)) || PartialMatch(Resolved(file, cfg), [dest]))
  }

  predicate FileHit(e: WalkEntry, dest: string, cfg: MatchConfig) {
    !e.isDir && e.depth <= MaxWalkDepth && FileMatches(e.name, dest, cfg)
  }

  /** `find_file_in_subfolders`: skipped when the extension settings are empty. */
  predicate FileInSubfolders(walk: seq<WalkEntry>, dest: string, cfg: MatchConfig) {
    |cfg.extensionsCheck| > 0 && FirstIndex(walk, e => FileHit(e, dest, cfg)).Some?
  }

  predicate ContentHit(walk: seq<WalkEntry>, dest: string, cfg: MatchConfig) {
    FolderInSubfolders(walk, dest, cfg) || FileInSubfolders(walk, dest, cfg)
  }

  /** `find_content_match`: the first destination that some sub-folder or listed
      file of the source tree matches. */
  function FindContentMatch(walk: seq<WalkEntry>, dests: seq<string>, cfg: MatchConfig): (r: Option<string>)
    ensures r.Some? ==> exists j :: 0 <= j < |dests| && r.value == dests[j] &&
                          ContentHit(walk, dests[j], cfg) &&
                          forall k :: 0 <= k < j ==> !ContentHit(walk, dests[k], cfg)
    ensures r.None? <==> forall k :: 0 <= k < |dests| ==> !ContentHit(walk, dests[k], cfg)
  {
    match FirstIndex(dests, d => ContentHit(walk, d, cfg))
    case None => None
    case Some(j) => Some(dests[j])
  }

  /** A sub-folder found anywhere within depth five decides the content match. */
  lemma FolderInSubfoldersExists(walk: seq<WalkEntry>, dest: string, cfg: MatchConfig)
    ensures FolderInSubfolders(walk, dest, cfg) <==>
            exists i :: 0 <= i < |walk| && walk[i].isDir && walk[i].depth <= MaxWalkDepth &&
                        SubfolderMatches(walk[i].name, dest, cfg)
  {
    var p := (e: WalkEntry) => DirHit(e, dest, cfg);
    var r := FirstIndex(walk, p);
    if r.Some? {
      assert p(walk[r.value]);
    }
  }

  /** A listed file anywhere within depth five decides the file test, provided the
      extension settings are not empty. */
  lemma FileInSubfoldersExists(walk: seq<WalkEntry>, dest: string, cfg: MatchConfig)
    ensures FileInSubfolders(walk, dest, cfg) <==>
            |cfg.extensionsCheck| > 0 &&
            exists i :: 0 <= i < |walk| && !walk[i].isDir && walk[i].depth <= MaxWalkDepth &&
                        HasListedExtension(walk[i].name, ExtensionPieces(cfg.extensionsCheck)) &&
                        (Contains(Lower(SplitextRoot(walk[i].name)), Lower(dest)) ||
                         PartialMatch(Resolved(walk[i].name, cfg), [dest]))
  {
    var p := (e: WalkEntry) => FileHit(e, dest, cfg);
    var r := FirstIndex(walk, p);
    if r.Some? {
      assert p(walk[r.value]);
    }
  }

  /** Settings whose `extensions` entry is missing or empty split into the single
      piece "", which every file name ends with: every file then passes the
      extension filter. */
  lemma {:induction false} EmptyExtensionsListAll(cfg: MatchConfig, file: string)
    requires "extensions" !in cfg.extensionsCheck || cfg.extensionsCheck["extensions"] == ""
    ensures ExtensionPieces(cfg.extensionsCheck) == [""]
    ensures HasListedExtension(file, ExtensionPieces(cfg.extensionsCheck))
  {
    assert SplitOn("", ',') == [""];
    assert Strip("") == "";
    assert EndsWith(file, Strip(ExtensionPieces(cfg.extensionsCheck)[0]));
  }

  // ---------------------------------------------------------------- tier 3

  /** `crop_text_to_length`: every window of width `k`, left to right. */
  function CropText(text: string, k: nat): (r: seq<string>)
    ensures |r| == if |text| >= k then |text| - k + 1 else 0
    ensures forall i :: 0 <= i < |r| ==> |r[i]| == k && r[i] == text[i..i + k]
  {
    if |text| >= k then seq(|text| - k + 1, i requires 0 <= i < |text| - k + 1 => text[i..i + k])
    else []
  }

  /** The best ratio of any crop against the destination, 0 when there is no crop. */
  function MaxRatio(crops: seq<string>, dest: string, ratio: (string, string) -> Score): (m: Score)
    ensures forall c :: c in crops ==> ratio(c, dest) <= m
    ensures crops == [] ==> m == 0.0
    ensures crops != [] ==> exists c :: c in crops && ratio(c, dest) == m
    decreases |crops|
  {
    if crops == [] then 0.0
    else
      var m := MaxRatio(crops[..|crops| - 1], dest, ratio);
      var x := ratio(crops[|crops| - 1], dest);
      assert crops == crops[..|crops| - 1] + [crops[|crops| - 1]];
      if x > m then x else m
  }

  /** The score one destination can reach: its best crop of width `|dest| + 1`. */
  function DestScore(name: string, dest: string, ratio: (string, string) -> Score): Score {
    MaxRatio(CropText(name, |dest| + 1), dest, ratio)
  }

  /** The best destination so far and its score. */
  datatype Best = Best(dest: Option<string>, score: real)

  /** One comparison: a strictly better score replaces the current best. */
  function Consider(b: Best, dest: string, score: real): Best {
    if score > b.score then Best(Some(dest), score) else b
  }

  /** A left-to-right scan keeping the first strictly best score. */
  function ScanBest(dests: seq<string>, score: string -> Score): (b: Best)
    ensures 0.0 <= b.score <= 100.0
    decreases |dests|
  {
    if dests == [] then Best(None, 0.0)
    else
      var d := dests[|dests| - 1];
      Consider(ScanBest(dests[..|dests| - 1], score), d, score(d))
  }

  /** The scan `find_fuzzy_match` makes, destination by destination. */
  function FuzzyBest(name: string, dests: seq<string>, ratio: (string, string) -> Score): Best {
    ScanBest(dests, d => DestScore(name, d, ratio))
  }

  /** The inner scan over the crops of one destination. */
  function CropScan(b: Best, crops: seq<string>, dest: string, ratio: (string, string) -> Score): Best
    decreases |crops|
  {
    if crops == [] then b
    else Consider(CropScan(b, crops[..|crops| - 1], dest, ratio), dest, ratio(crops[|crops| - 1], dest))
  }

  /** `best_match or "Not Found"`, with the score. */
  function FuzzyOutcome(b: Best): (string, real) {
    (if Found(b.dest) then b.dest.value else NotFound, b.score)
  }

  /** Scanning the crops one by one amounts to comparing their maximum once. */
  lemma {:induction false} CropScanIsMax(b: Best, crops: seq<string>, dest: string,
                                         ratio: (string, string) -> Score)
    requires 0.0 <= b.score
    ensures CropScan(b, crops, dest, ratio) == Consider(b, dest, MaxRatio(crops, dest, ratio))
    decreases |crops|
  {
    if crops != [] {
      var init := crops[..|crops| - 1];
      CropScanIsMax(b, init, dest, ratio);
      var m := MaxRatio(init, dest, ratio);
      var x := ratio(crops[|crops| - 1], dest);
      assert MaxRatio(crops, dest, ratio) == if x > m then x else m;
      assert CropScan(b, crops, dest, ratio) == Consider(Consider(b, dest, m), dest, x);
    }
  }

  /** The best score is the maximum over all destinations' scores, and nothing is
      kept exactly when that maximum is 0. */
  lemma {:induction false} ScanBestIsMax(dests: seq<string>, score: string -> Score)
    ensures var b := ScanBest(dests, score);
            (forall k :: 0 <= k < |dests| ==> score(dests[k]) <= b.score) &&
            (b.dest.None? <==> b.score == 0.0)
    decreases |dests|
  {
    if dests != [] {
      var init := dests[..|dests| - 1];
      ScanBestIsMax(init, score);
      assert forall k :: 0 <= k < |init| ==> dests[k] == init[k];
    }
  }

  /** The destination kept is the first whose score equals the maximum: a later
      destination that only ties does not replace it. */
  lemma {:induction false} ScanBestKeepsFirst(dests: seq<string>, score: string -> Score)
    ensures var b := ScanBest(dests, score);
            b.dest.Some? ==>
              exists j :: 0 <= j < |dests| && b.dest.value == dests[j] &&
                          score(dests[j]) == b.score &&
                          forall k :: 0 <= k < j ==> score(dests[k]) < b.score
    decreases |dests|
  {
    if dests != [] {
      var init := dests[..|dests| - 1];
      var d := dests[|dests| - 1];
      ScanBestKeepsFirst(init, score);
      ScanBestIsMax(init, score);
      var p := ScanBest(init, score);
      var b := ScanBest(dests, score);
      if score(d) > p.score {
        assert b.dest.value == dests[|dests| - 1];
        assert forall k :: 0 <= k < |init| ==> dests[k] == init[k];
      } else if p.dest.Some? {
        var j :| 0 <= j < |init| && p.dest.value == init[j] &&
                 score(init[j]) == p.score &&
                 forall k :: 0 <= k < j ==> score(init[k]) < p.score;
        assert b == p;
        assert forall k :: 0 <= k <= j ==> dests[k] == init[k];
      }
    }
  }

  /** `find_fuzzy_match` keeps the maximum of all destination scores; the destination
      kept is the first to reach it, and none is kept exactly when it is 0. */
  lemma FuzzyBestIsFirstMax(name: string, dests: seq<string>, ratio: (string, string) -> Score)
    ensures var b := FuzzyBest(name, dests, ratio);
            (forall k :: 0 <= k < |dests| ==> DestScore(name, dests[k], ratio) <= b.score) &&
            (b.dest.None? <==> b.score == 0.0) &&
            (b.dest.Some? ==>
               exists j :: 0 <= j < |dests| && b.dest.value == dests[j] &&
                           DestScore(name, dests[j], ratio) == b.score &&
                           forall k :: 0 <= k < j ==> DestScore(name, dests[k], ratio) < b.score)
  {
    var score := d => DestScore(name, d, ratio);
    ScanBestIsMax(dests, score);
    ScanBestKeepsFirst(dests, score);
  }

  /** A destination at least as long as the name has no crop and so scores 0. */
  lemma LongDestinationScoresZero(name: string, dest: string, ratio: (string, string) -> Score)
    requires |dest| >= |name|
    ensures CropText(name, |dest| + 1) == [] && DestScore(name, dest, ratio) == 0.0
  {
  }

  /** The inner loop of `find_fuzzy_match`: each crop's ratio against one destination. */
  method ScanCrops(current: Best, crops: seq<string>, dest: string,
                   ratio: (string, string) -> Score) returns (b: Best)
    requires 0.0 <= current.score
    ensures b == Consider(current, dest, MaxRatio(crops, dest, ratio))
  {
    b := current;
    var j := 0;
    while j < |crops|
      invariant 0 <= j <= |crops|
      invariant b == CropScan(current, crops[..j], dest, ratio)
      invariant 0.0 <= b.score
    {
      assert crops[..j + 1][..j] == crops[..j] && crops[..j + 1][j] == crops[j];
      var s := ratio(crops[j], dest);
      if s > b.score {
        b := Best(Some(dest), s);
      }
      j := j + 1;
    }
    assert crops[..|crops|] == crops;
    CropScanIsMax(current, crops, dest, ratio);
  }

  /** `find_fuzzy_match` */
  method FindFuzzyMatch(path: string, dests: seq<string>, cfg: MatchConfig,
                        ratio: (string, string) -> Score) returns (best: string, score: real)
    ensures (best, score) == FuzzyOutcome(FuzzyBest(Resolved(Basename(path), cfg), dests, ratio))
  {
    var normalizedMap := NormalizeFolders(path, cfg.skipWords, cfg.ignoreNumbers, cfg.translit);
    var nameMap := ApplyAliases(normalizedMap, cfg.aliases);
    var name := nameMap[0].normalized;
    assert name == Resolved(Basename(path), cfg);
    var current := ScanDestinations(name, dests, ratio);
    best := if Found(current.dest) then current.dest.value else NotFound;
    score := current.score;
  }

  /** The outer loop of `find_fuzzy_match`: every destination's crops in turn. */
  method ScanDestinations(name: string, dests: seq<string>, ratio: (string, string) -> Score)
    returns (current: Best)
    ensures current == FuzzyBest(name, dests, ratio)
  {
    current := Best(None, 0.0);
    ghost var destScore := d => DestScore(name, d, ratio);
    var i := 0;
    while i < |dests|
      invariant 0 <= i <= |dests|
      invariant current == ScanBest(dests[..i], destScore)
    {
      var dest := dests[i];
      var crops := CropText(name, |dest| + 1);
      current := ScanCrops(current, crops, dest, ratio);
      assert destScore(dest) == MaxRatio(crops, dest, ratio);
      assert dests[..i + 1][..i] == dests[..i];
      i := i + 1;
    }
    assert dests[..|dests|] == dests;
  }

  // ------------------------------------------------------ get_matching_weight

  function MinLength(dests: seq<string>): (m: nat)
    requires dests != []
    ensures forall k :: 0 <= k < |dests| ==> m <= |dests[k]|
    ensures exists k :: 0 <= k < |dests| && m == |dests[k]|
    decreases |dests|
  {
    if |dests| == 1 then |dests[0]|
    else
      var m := MinLength(dests[1..]);
      assert forall k :: 1 <= k < |dests| ==> dests[1..][k - 1] == dests[k];
      if |dests[0]| < m then |dests[0]| else m
  }

  /** Tier 1 is tried only when the raw basename is at least as long as the
      shortest destination name. */
  function TierOne(path: string, dests: seq<string>, cfg: MatchConfig): Option<string>
    requires dests != []
  {
    if |Basename(path)| >= MinLength(dests) then FindFolderNameMatch(path, dests, cfg) else None
  }

  /** The tuple `get_matching_weight` produces for one source folder. */
  function MatchOne(path: string, dests: seq<string>, cfg: MatchConfig,
                    tree: string -> seq<WalkEntry>, ratio: (string, string) -> Score): Mapping
    requires dests != []
  {
    var t1 := TierOne(path, dests, cfg);
    if Found(t1) then Mapping(path, t1.value, 100.0, DirectFolderMatch)
    else
      var t2 := FindContentMatch(tree(path), dests, cfg);
      if Found(t2) then Mapping(path, t2.value, 95.0, ContentMatch)
      else
        var (m, s) := FuzzyOutcome(FuzzyBest(Resolved(Basename(path), cfg), dests, ratio));
        if s > 0.0 then Mapping(path, m, s, FuzzyMatch) else Mapping(path, NotFound, 0.0, NoMatch)
  }

  /** The body of the loop in `get_matching_weight`: the three tiers for one source. */
  method MatchSource(path: string, dests: seq<string>, cfg: MatchConfig,
                     tree: string -> seq<WalkEntry>, ratio: (string, string) -> Score)
    returns (m: Mapping)
    requires dests != []
    ensures m == MatchOne(path, dests, cfg, tree, ratio)
  {
    var name := Basename(path);
    var minLength := MinLength(dests);
    if |name| >= minLength {
      var folderMatch := FindFolderNameMatch(path, dests, cfg);
      if Found(folderMatch) {
        return Mapping(path, folderMatch.value, 100.0, DirectFolderMatch);
      }
    }
    var contentMatch := FindContentMatch(tree(path), dests, cfg);
    if Found(contentMatch) {
      return Mapping(path, contentMatch.value, 95.0, ContentMatch);
    }
    var fuzzyMatch, confidence := FindFuzzyMatch(path, dests, cfg, ratio);
    if confidence > 0.0 {
      m := Mapping(path, fuzzyMatch, confidence, FuzzyMatch);
    } else {
      m := Mapping(path, NotFound, 0.0, NoMatch);
    }
  }

  /** `get_matching_weight`: one tuple per source folder, in input order. */
  method GetMatchingWeight(sources: seq<string>, dests: seq<string>, cfg: MatchConfig,
                           tree: string -> seq<WalkEntry>, ratio: (string, string) -> Score)
    returns (results: seq<Mapping>)
    requires sources != [] ==> dests != []
    ensures |results| == |sources|
    ensures forall i :: 0 <= i < |sources| ==> results[i] == MatchOne(sources[i], dests, cfg, tree, ratio)
  {
    ghost var spec := (s: string) requires dests != [] => MatchOne(s, dests, cfg, tree, ratio);
    results := [];
    for i := 0 to |sources|
      invariant |results| == i
      invariant forall k :: 0 <= k < i ==> spec.requires(sources[k]) && results[k] == spec(sources[k])
    {
      var m := MatchSource(sources[i], dests, cfg, tree, ratio);
      AppendMapped(results, sources, m, spec);
      results := results + [m];
    }
  }

  /** One more result, computed from the next source, keeps the results in step
      with the sources. */
  lemma AppendMapped(results: seq<Mapping>, sources: seq<string>, m: Mapping, f: string --> Mapping)
    requires |results| < |sources|
    requires forall k :: 0 <= k < |results| ==> f.requires(sources[k]) && results[k] == f(sources[k])
    requires f.requires(sources[|results|]) && m == f(sources[|results|])
    ensures forall k :: 0 <= k <= |results| ==> f.requires(sources[k]) && (results + [m])[k] == f(sources[k])
  {
  }

  // ------------------------------------------------------------------ lemmas

  /** Every tuple has one of four shapes, and each tier is reached only when the
      tiers before it found nothing. */
  lemma MatchOneTiers(path: string, dests: seq<string>, cfg: MatchConfig,
                      tree: string -> seq<WalkEntry>, ratio: (string, string) -> Score)
    requires dests != []
    ensures var r := MatchOne(path, dests, cfg, tree, ratio);
            var n := Resolved(Basename(path), cfg);
            var b := FuzzyBest(n, dests, ratio);
            r.sourcePath == path && 0.0 <= r.confidence <= 100.0 &&
            (r.reason == DirectFolderMatch ==>
               r.confidence == 100.0 && |Basename(path)| >= MinLength(dests) &&
               exists j :: 0 <= j < |dests| && r.destination == dests[j] &&
                           |Squash(n)| >= |Squash(dests[j])| && Contains(Squash(n), Squash(dests[j]))) &&
            (r.reason == DirectFolderMatch ==> FirstPartialMatch(n, dests) == Some(r.destination)) &&
            (r.reason == ContentMatch ==>
               r.confidence == 95.0 && !Found(TierOne(path, dests, cfg)) &&
               exists j :: 0 <= j < |dests| && r.destination == dests[j] &&
                           ContentHit(tree(path), dests[j], cfg) &&
                           forall k :: 0 <= k < j ==> !ContentHit(tree(path), dests[k], cfg)) &&
            (r.reason == FuzzyMatch ==>
               !Found(TierOne(path, dests, cfg)) && !Found(FindContentMatch(tree(path), dests, cfg)) &&
               0.0 < r.confidence == b.score && r.destination == FuzzyOutcome(b).0 &&
               forall k :: 0 <= k < |dests| ==> DestScore(n, dests[k], ratio) <= r.confidence) &&
            (r.reason == NoMatch ==>
               !Found(TierOne(path, dests, cfg)) && !Found(FindContentMatch(tree(path), dests, cfg)) &&
               r.destination == NotFound && r.confidence == 0.0 &&
               forall k :: 0 <= k < |dests| ==> DestScore(n, dests[k], ratio) == 0.0)
  {
    var n := Resolved(Basename(path), cfg);
    FuzzyBestIsFirstMax(n, dests, ratio);
    var t1 := TierOne(path, dests, cfg);
    if Found(t1) {
      var j :| 0 <= j < |dests| && t1.value == dests[j] && PartialMatch(n, [dests[j]]) &&
               forall k :: 0 <= k < j ==> !PartialMatch(n, [dests[k]]);
      PartialMatchOne(n, dests[j]);
    }
  }

  /** A source name shorter than every destination name never gets a direct match. */
  lemma ShortNameSkipsTierOne(path: string, dests: seq<string>, cfg: MatchConfig,
                              tree: string -> seq<WalkEntry>, ratio: (string, string) -> Score)
    requires dests != [] && |Basename(path)| < MinLength(dests)
    ensures MatchOne(path, dests, cfg, tree, ratio).reason != DirectFolderMatch
  {
  }
}
