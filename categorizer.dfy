/** `process_match_to_categorized`: runs the matcher over the listed source folders
    and sorts every result into a HIGH, MEDIUM or LOW confidence band. */
module Categorizer {
  import opened PyStr
  import opened Matcher

  datatype Category = High | Medium | Low

  function CategoryText(c: Category): string {
    match c
    case High => "HIGH"
    case Medium => "MEDIUM"
    case Low => "LOW"
  }

  /** The `MatchResult` record. */
  datatype MatchResult = MatchResult(
    sourcePath: string,
    destinationName: string,
    confidence: real,
    reason: Reason,
    category: Category)

  /** `d.get(key, default)` */
  function Get(d: map<string, int>, key: string, default: int): (v: int)
    ensures key in d ==> v == d[key]
    ensures key !in d ==> v == default
  {
    if key in d then d[key] else default
  }

  /** The band of one confidence value: HIGH from the high threshold up, MEDIUM from
      the medium threshold up, LOW below both. */
  function Categorize(confidence: real, high: int, medium: int): (c: Category)
    ensures c == High <==> confidence >= high as real
    ensures c == Medium <==> confidence < high as real && confidence >= medium as real
    ensures c == Low <==> confidence < high as real && confidence < medium as real
  {
    if confidence >= high as real then High
    else if confidence >= medium as real then Medium
    else Low
  }

  /** Bands in increasing order of confidence. */
  function Rank(c: Category): nat {
    match c
    case Low => 0
    case Medium => 1
    case High => 2
  }

  /** A matcher tuple turned into a `MatchResult`. */
  function Categorized(m: Mapping, high: int, medium: int): (r: MatchResult)
    ensures r.sourcePath == m.sourcePath && r.destinationName == m.destination
    ensures r.confidence == m.confidence && r.reason == m.reason
    ensures r.category == Categorize(m.confidence, high, medium)
  {
    MatchResult(m.sourcePath, m.destination, m.confidence, m.reason,
                Categorize(m.confidence, high, medium))
  }

  /** The result list `process_match_to_categorized` returns: empty when no source
      root is selected, when there are no source folders, or when the destination
      root lists no folders; otherwise one result per source folder, in order. */
  method ProcessMatchToCategorized(
      selectedSourceFolder: string,
      sourceFolders: seq<(string, string)>,
      destinationListing: seq<string>,
      thresholds: map<string, int>,
      cfg: MatchConfig,
      tree: string -> seq<WalkEntry>,
      ratio: (string, string) -> Score)
    returns (results: seq<MatchResult>)
    ensures selectedSourceFolder == [] || sourceFolders == [] || destinationListing == [] ==>
              results == []
    ensures selectedSourceFolder != [] && sourceFolders != [] && destinationListing != [] ==>
              |results| == |sourceFolders| &&
              forall i :: 0 <= i < |sourceFolders| ==>
                results[i] == Categorized(MatchOne(sourceFolders[i].1, destinationListing, cfg, tree, ratio),
                                          Get(thresholds, "HIGH_CONFIDENCE", 0),
                                          Get(thresholds, "MEDIUM_CONFIDENCE", 0))
  {
    var high := Get(thresholds, "HIGH_CONFIDENCE", 0);
    var medium := Get(thresholds, "MEDIUM_CONFIDENCE", 0);
    if selectedSourceFolder == [] {
      return [];
    }
    var paths := seq(|sourceFolders|, i requires 0 <= i < |sourceFolders| => sourceFolders[i].1);
    if paths == [] {
      return [];
    }
    if destinationListing == [] {
      return [];
    }
    var mappingData := GetMatchingWeight(paths, destinationListing, cfg, tree, ratio);
    results := CategorizeAll(mappingData, high, medium);
  }

  /** The categorising loop of `process_match_to_categorized`. */
  method CategorizeAll(mappingData: seq<Mapping>, high: int, medium: int)
    returns (results: seq<MatchResult>)
    ensures |results| == |mappingData|
    ensures forall k :: 0 <= k < |mappingData| ==> results[k] == Categorized(mappingData[k], high, medium)
  {
    results := [];
    for i := 0 to |mappingData|
      invariant |results| == i
      invariant forall k :: 0 <= k < i ==> results[k] == Categorized(mappingData[k], high, medium)
    {
      var m := mappingData[i];
      var category := if m.confidence >= high as real then High
                      else if m.confidence >= medium as real then Medium
                      else Low;
      results := results + [MatchResult(m.sourcePath, m.destination, m.confidence, m.reason, category)];
    }
  }

  // ------------------------------------------------------------------- lemmas

  /** A higher confidence never lands in a lower band. */
  lemma CategorizeMonotone(c1: real, c2: real, high: int, medium: int)
    requires c1 <= c2
    ensures Rank(Categorize(c1, high, medium)) <= Rank(Categorize(c2, high, medium))
  {
  }

  /** MEDIUM is reachable only when the medium threshold lies below the high one. */
  lemma MediumNeedsOrderedThresholds(confidence: real, high: int, medium: int)
    requires Categorize(confidence, high, medium) == Medium
    ensures medium < high
  {
  }

  /** With no thresholds configured both default to 0, and since every matcher
      confidence lies in [0, 100], every result is HIGH. */
  lemma MissingThresholdsAllHigh(path: string, dests: seq<string>, cfg: MatchConfig,
                                 tree: string -> seq<WalkEntry>, ratio: (string, string) -> Score)
    requires dests != []
    ensures var m := MatchOne(path, dests, cfg, tree, ratio);
            Categorized(m, Get(map[], "HIGH_CONFIDENCE", 0), Get(map[], "MEDIUM_CONFIDENCE", 0)).category == High
  {
    MatchOneTiers(path, dests, cfg, tree, ratio);
  }

  /** Direct and content matches are HIGH under any high threshold up to 95; a
      result that is not a match at all is LOW whenever the medium threshold is
      positive. */
  lemma TierBands(path: string, dests: seq<string>, cfg: MatchConfig,
                  tree: string -> seq<WalkEntry>, ratio: (string, string) -> Score,
                  high: int, medium: int)
    requires dests != []
    ensures var m := MatchOne(path, dests, cfg, tree, ratio);
            var c := Categorized(m, high, medium).category;
            (m.reason in {DirectFolderMatch, ContentMatch} && high <= 95 ==> c == High) &&
            (m.reason == NoMatch && 0 < medium && 0 < high ==> c == Low)
  {
    MatchOneTiers(path, dests, cfg, tree, ratio);
  }
}
