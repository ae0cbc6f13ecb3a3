/** The input rules of the settings dialog (`modules/settings_ui.py`): the extension
    list check, the confidence threshold check, the case-insensitive alias
    de-duplication done on save, and the guards on adding alias and destination rows. */
module Settings {
  import opened PyStr
  import opened Categorizer

  // ------------------------------------------------------ validate_extensions

  const EmptyExtensions: string := "Extensions Check cannot be empty."
  const NoValidExtension: string := "Extensions Check must contain at least one valid extension."

  function InvalidExtension(ext: string): string {
    "Invalid extension: '" + ext + "'. Extensions must start with a dot and contain alphanumeric characters."
  }

  /** `[p.strip() for p in pieces if p.strip()]` */
  function NonEmptyStripped(pieces: seq<string>): (r: seq<string>)
    ensures |r| <= |pieces|
    ensures forall k :: 0 <= k < |r| ==> r[k] != []
    decreases |pieces|
  {
    if pieces == [] then []
    else
      var rest := NonEmptyStripped(pieces[1..]);
      if Strip(pieces[0]) == [] then rest else [Strip(pieces[0])] + rest
  }

  /** The extensions the user typed, split on commas, stripped, blanks dropped. */
  function ExtensionList(extensions: string): seq<string> {
    NonEmptyStripped(SplitOn(extensions, ','))
  }

  /** `re.match(r'^\.[a-zA-Z0-9]+$', ext)` on a stripped piece. */
  predicate ValidExtension(ext: string) {
    |ext| >= 2 && ext[0] == '.' && forall i :: 1 <= i < |ext| ==> IsAlnum(ext[i])
  }

  /** The check loop: the first invalid extension is reported. */
  function CheckExtensions(exts: seq<string>): (r: (bool, string))
    ensures r.0 <==> forall k :: 0 <= k < |exts| ==> ValidExtension(exts[k])
    ensures r.0 ==> r.1 == []
    ensures !r.0 ==> exists k :: 0 <= k < |exts| && !ValidExtension(exts[k]) &&
                                 (forall j :: 0 <= j < k ==> ValidExtension(exts[j])) &&
                                 r.1 == InvalidExtension(exts[k])
  {
    match FirstIndex(exts, e => !ValidExtension(e))
    case None => (true, [])
    case Some(k) => (false, InvalidExtension(exts[k]))
  }

  /** `validate_extensions` */
  function ValidateExtensions(extensions: string): (r: (bool, string))
    ensures extensions == [] ==> r == (false, EmptyExtensions)
    ensures extensions != [] && ExtensionList(extensions) == [] ==> r == (false, NoValidExtension)
    ensures r.0 <==> extensions != [] && ExtensionList(extensions) != [] &&
                     forall k :: 0 <= k < |ExtensionList(extensions)| ==> ValidExtension(ExtensionList(extensions)[k])
    ensures r.0 ==> r.1 == []
    ensures var exts := ExtensionList(extensions);
            !r.0 && exts != [] && extensions != [] ==>
              exists k :: 0 <= k < |exts| && !ValidExtension(exts[k]) &&
                          (forall j :: 0 <= j < k ==> ValidExtension(exts[j])) &&
                          r.1 == InvalidExtension(exts[k])
  {
    if extensions == [] then (false, EmptyExtensions)
    else
      var exts := ExtensionList(extensions);
      if exts == [] then (false, NoValidExtension)
      else CheckExtensions(exts)
  }

  // ---------------------------------------------------------------- thresholds

  /** Digits with single underscores between them, as Python's `int()` accepts. */
  predicate DigitGroups(s: string) {
    |s| > 0 && IsDigit(s[0]) && IsDigit(s[|s| - 1]) &&
    (forall i :: 0 <= i < |s| ==> IsDigit(s[i]) || s[i] == '_') &&
    (forall i :: 0 <= i < |s| - 1 ==> !(s[i] == '_' && s[i + 1] == '_'))
  }

  /** The value of the digits of `s`, underscores skipped. */
  function DigitsValue(s: string): nat
    decreases |s|
  {
    if s == [] then 0
    else
      var c := s[|s| - 1];
      if IsDigit(c) then DigitsValue(s[..|s| - 1]) * 10 + (c as int - '0' as int)
      else DigitsValue(s[..|s| - 1])
  }

  /** Python's `int(text)` on ASCII input: surrounding whitespace, an optional sign,
      then digit groups; `None` where Python raises `ValueError`. */
  function ParseInt(text: string): Option<int> {
    ParseSigned(Strip(text))
  }

  /** An optional sign, then digit groups. */
  function ParseSigned(t: string): Option<int> {
    var signed := t != [] && (t[0] == '-' || t[0] == '+');
    var body := if signed then t[1..] else t;
    if !DigitGroups(body) then None
    else
      var v: int := DigitsValue(body);
      if signed && t[0] == '-' then Some(-v) else Some(v)
  }

  function DigitChar(d: nat): (c: char)
    requires d < 10
    ensures IsDigit(c) && c as int - '0' as int == d
  {
    ('0' as int + d) as char
  }

  /** `str(n)` for a natural number. */
  function NatToStr(n: nat): (s: string)
    ensures |s| > 0 && forall i :: 0 <= i < |s| ==> IsDigit(s[i])
    decreases n
  {
    if n < 10 then [DigitChar(n)] else NatToStr(n / 10) + [DigitChar(n % 10)]
  }

  /** `str(n)` */
  function IntToStr(n: int): string {
    if n < 0 then "-" + NatToStr(-n) else NatToStr(n)
  }

  const NotNumbers: string := "HIGH_CONFIDENCE and MEDIUM_CONFIDENCE must be valid numbers."
  const HighOutOfRange: string := "HIGH_CONFIDENCE must be a number between 1 and 100."
  const MediumOutOfRange: string := "MEDIUM_CONFIDENCE must be a number between 1 and 100."
  const NotOrdered: string := "HIGH_CONFIDENCE must be greater than MEDIUM_CONFIDENCE."

  datatype ThresholdCheck = Accepted(high: int, medium: int) | Rejected(message: string)

  /** The threshold block of `save_combined_settings`: both texts are parsed first,
      then the high range, the medium range and their order are checked. */
  function ValidateThresholds(highText: string, mediumText: string): (r: ThresholdCheck)
    ensures r.Accepted? <==>
              ParseInt(highText).Some? && ParseInt(mediumText).Some? &&
              1 <= ParseInt(highText).value <= 100 && 1 <= ParseInt(mediumText).value <= 100 &&
              ParseInt(highText).value > ParseInt(mediumText).value
    ensures r.Accepted? ==> r.high == ParseInt(highText).value && r.medium == ParseInt(mediumText).value
    ensures r == Rejected(NotNumbers) <==> ParseInt(highText).None? || ParseInt(mediumText).None?
    ensures r == Rejected(HighOutOfRange) <==>
              ParseInt(highText).Some? && ParseInt(mediumText).Some? && !(1 <= ParseInt(highText).value <= 100)
    ensures r == Rejected(MediumOutOfRange) <==>
              ParseInt(highText).Some? && ParseInt(mediumText).Some? &&
              1 <= ParseInt(highText).value <= 100 && !(1 <= ParseInt(mediumText).value <= 100)
    ensures r == Rejected(NotOrdered) <==>
              ParseInt(highText).Some? && ParseInt(mediumText).Some? &&
              1 <= ParseInt(highText).value <= 100 && 1 <= ParseInt(mediumText).value <= 100 &&
              ParseInt(highText).value <= ParseInt(mediumText).value
    ensures r.Rejected? ==> r.message in {NotNumbers, HighOutOfRange, MediumOutOfRange, NotOrdered}
  {
    var h := ParseInt(highText);
    var m := ParseInt(mediumText);
    if h.None? || m.None? then Rejected(NotNumbers)
    else if !(1 <= h.value <= 100) then Rejected(HighOutOfRange)
    else if !(1 <= m.value <= 100) then Rejected(MediumOutOfRange)
    else if h.value <= m.value then Rejected(NotOrdered)
    else Accepted(h.value, m.value)
  }

  // ---------------------------------------------------------------- aliases

  /** A Python `dict` of strings, in insertion order. */
  type Dict = seq<(string, string)>

  predicate DistinctKeys(d: Dict) {
    forall i, j :: 0 <= i < j < |d| ==> d[i].0 != d[j].0
  }

  predicate HasKey(d: Dict, k: string) {
    exists i :: 0 <= i < |d| && d[i].0 == k
  }

  /** Position of a key in the dict. */
  function IndexOfKey(d: Dict, k: string): (r: Option<nat>)
    ensures r.Some? ==> r.value < |d| && d[r.value].0 == k &&
                        forall j :: 0 <= j < r.value ==> d[j].0 != k
    ensures r.None? <==> !HasKey(d, k)
  {
    FirstIndex(d, (p: (string, string)) => p.0 == k)
  }

  /** `d.get(k)` */
  function Lookup(d: Dict, k: string): (r: Option<string>)
    ensures r.Some? <==> HasKey(d, k)
    ensures r.Some? ==> exists i :: 0 <= i < |d| && d[i] == (k, r.value)
  {
    match IndexOfKey(d, k)
    case Some(i) => Some(d[i].1)
    case None => None
  }

  /** `d[k] = v`: an existing key keeps its position and takes the new value; a new
      key goes at the end. */
  function Assign(d: Dict, k: string, v: string): (r: Dict)
    ensures Lookup(r, k) == Some(v)
    ensures forall k' :: k' != k ==> Lookup(r, k') == Lookup(d, k')
    ensures DistinctKeys(d) ==> DistinctKeys(r)
    ensures !HasKey(d, k) ==> r == d + [(k, v)]
    ensures forall k' :: HasKey(r, k') <==> HasKey(d, k') || k' == k
  {
    match IndexOfKey(d, k)
    case Some(i) =>
      var r := d[i := (k, v)];
      assert forall j :: 0 <= j < |d| ==> r[j].0 == d[j].0;
      assert r[i].0 == k;
      SameKeysSameIndex(d, r);
      r
    case None =>
      var r := d + [(k, v)];
      assert forall j :: 0 <= j < |d| ==> r[j] == d[j];
      assert forall j :: 0 <= j < |d| ==> d[j].0 != k;
      assert r[|d|].0 == k && HasKey(r, k);
      assert IndexOfKey(r, k) == Some(|d|);
      r
  }

  /** Dicts with the same keys at the same positions find every key at the same place. */
  lemma SameKeysSameIndex(d: Dict, r: Dict)
    requires |d| == |r| && forall j :: 0 <= j < |d| ==> r[j].0 == d[j].0
    ensures forall k :: IndexOfKey(r, k) == IndexOfKey(d, k)
  {
    forall k ensures IndexOfKey(r, k) == IndexOfKey(d, k) {
      var a := IndexOfKey(r, k);
      var b := IndexOfKey(d, k);
      if a.Some? { assert HasKey(d, k); }
      if b.Some? { assert HasKey(r, k); }
    }
  }

  function Key(alias: string, lowered: bool): string {
    if lowered then Lower(alias) else alias
  }

  /** The rows stored one by one into a dict, keyed by the (possibly lower-cased)
      first column. */
  function Fold(rows: Dict, lowered: bool): (r: Dict)
    ensures DistinctKeys(r)
    decreases |rows|
  {
    if rows == [] then []
    else
      var last := rows[|rows| - 1];
      Assign(Fold(rows[..|rows| - 1], lowered), Key(last.0, lowered), last.1)
  }

  /** The value of the last row whose key is `k`. */
  function LastValue(rows: Dict, lowered: bool, k: string): Option<string>
    decreases |rows|
  {
    if rows == [] then None
    else
      var last := rows[|rows| - 1];
      if Key(last.0, lowered) == k then Some(last.1) else LastValue(rows[..|rows| - 1], lowered, k)
  }

  /** The `ALIAS` dictionary `save_combined_settings` writes: the alias rows as a
      dict, then re-keyed by the lower-cased alias. */
  function UniqueAliasesOf(rows: Dict): Dict {
    Fold(Fold(rows, false), true)
  }

  // ---------------------------------------------------------- add-row guards

  datatype Warning = Warning(title: string, text: string)

  const BothFields: Warning := Warning("Input Error", "Both fields must be filled.")

  function DuplicateEntry(name: string): Warning {
    Warning("Duplicate Entry", name + " already exists in the list.")
  }

  /** The guard of `add_new_alias` and `add_new_destination`: both stripped fields
      must be non-blank and the first must not already be a row's first column. */
  function AddRow(rows: Dict, first: string, second: string): (Option<Warning>, Dict) {
    var a := Strip(first);
    var b := Strip(second);
    if a == [] || b == [] then (Some(BothFields), rows)
    else if HasKey(rows, a) then (Some(DuplicateEntry(a)), rows)
    else (None, rows + [(a, b)])
  }

  /** What the guard decides: a row is added exactly when both stripped fields are
      non-blank and the first is new, and each refusal has its own warning. */
  lemma AddRowSpec(rows: Dict, first: string, second: string)
    ensures var r := AddRow(rows, first, second);
            var a := Strip(first); var b := Strip(second);
            (r.0.None? <==> a != [] && b != [] && !HasKey(rows, a)) &&
            (r.0.None? ==> r.1 == rows + [(a, b)]) &&
            (r.0.Some? ==> r.1 == rows) &&
            (a == [] || b == [] ==> r.0 == Some(BothFields)) &&
            (a != [] && b != [] && HasKey(rows, a) ==> r.0 == Some(DuplicateEntry(a)))
  {
  }

  /** The set of a table's first column, as the add-row guards collect it. */
  function FirstColumn(d: Dict): (r: set<string>)
    ensures forall k :: k in r <==> HasKey(d, k)
  {
    set i | 0 <= i < |d| :: d[i].0
  }

  /** The shared body of `add_new_alias` and `add_new_destination`: strip both
      fields, refuse a blank one or a first field already in the table's first
      column, and otherwise append the row. */
  method GuardRow(rows: Dict, first: string, second: string) returns (warning: Option<Warning>, newRows: Dict)
    ensures (warning, newRows) == AddRow(rows, first, second)
    ensures warning.Some? ==> newRows == rows
  {
    var key := Strip(first);
    var value := Strip(second);
    if key == [] || value == [] {
      return Some(BothFields), rows;
    }
    var existing := FirstColumn(rows);
    if key in existing {
      return Some(DuplicateEntry(key)), rows;
    }
    return None, rows + [(key, value)];
  }

  /** The two tables of the settings dialog and the entry fields used to add rows. */
  class SettingsForm {
    var aliasRows: Dict
    var destinationRows: Dict
    var newAliasEntry: string
    var newTargetEntry: string
    var newGameNameEntry: string
    var newDestinationPathEntry: string

    constructor (aliases: Dict, destinations: Dict)
      ensures aliasRows == aliases && destinationRows == destinations
      ensures newAliasEntry == [] && newTargetEntry == [] &&
              newGameNameEntry == [] && newDestinationPathEntry == []
    {
      aliasRows := aliases;
      destinationRows := destinations;
      newAliasEntry := [];
      newTargetEntry := [];
      newGameNameEntry := [];
      newDestinationPathEntry := [];
    }

    /** `add_new_alias`: on success the row is appended and both entries cleared. */
    method AddNewAlias() returns (warning: Option<Warning>)
      modifies this
      ensures (warning, aliasRows) == AddRow(old(aliasRows), old(newAliasEntry), old(newTargetEntry))
      ensures warning.None? ==> newAliasEntry == [] && newTargetEntry == []
      ensures warning.Some? ==> newAliasEntry == old(newAliasEntry) && newTargetEntry == old(newTargetEntry)
      ensures destinationRows == old(destinationRows)
      ensures newGameNameEntry == old(newGameNameEntry) && newDestinationPathEntry == old(newDestinationPathEntry)
    {
      warning, aliasRows := GuardRow(aliasRows, newAliasEntry, newTargetEntry);
      if warning.None? {
        newAliasEntry := [];
        newTargetEntry := [];
      }
    }

    /** `add_new_destination`: on success the row is appended and both entries cleared. */
    method AddNewDestination() returns (warning: Option<Warning>)
      modifies this
      ensures (warning, destinationRows) ==
              AddRow(old(destinationRows), old(newGameNameEntry), old(newDestinationPathEntry))
      ensures warning.None? ==> newGameNameEntry == [] && newDestinationPathEntry == []
      ensures warning.Some? ==> newGameNameEntry == old(newGameNameEntry) &&
                                newDestinationPathEntry == old(newDestinationPathEntry)
      ensures aliasRows == old(aliasRows)
      ensures newAliasEntry == old(newAliasEntry) && newTargetEntry == old(newTargetEntry)
    {
      warning, destinationRows := GuardRow(destinationRows, newGameNameEntry, newDestinationPathEntry);
      if warning.None? {
        newGameNameEntry := [];
        newDestinationPathEntry := [];
      }
    }

    /** The alias block of `save_combined_settings`. */
    method UniqueAliases() returns (unique: Dict)
      ensures unique == UniqueAliasesOf(aliasRows)
    {
      var aliases := Fold(aliasRows, false);
      unique := [];
      for i := 0 to |aliases|
        invariant unique == Fold(aliases[..i], true)
      {
        assert aliases[..i + 1][..i] == aliases[..i];
        unique := Assign(unique, Lower(aliases[i].0), aliases[i].1);
      }
      assert aliases[..|aliases|] == aliases;
    }
  }

  // ------------------------------------------------------------------- lemmas

  /** Looking a key up in the folded dict gives the last row stored under it. */
  lemma {:induction false} FoldLookup(rows: Dict, lowered: bool, k: string)
    ensures Lookup(Fold(rows, lowered), k) == LastValue(rows, lowered, k)
    decreases |rows|
  {
    if rows != [] {
      FoldLookup(rows[..|rows| - 1], lowered, k);
    }
  }

  /** Some row is stored under the key `k`. */
  predicate Stored(rows: Dict, lowered: bool, k: string) {
    exists i :: 0 <= i < |rows| && Key(rows[i].0, lowered) == k
  }

  /** The folded dict has a key exactly when some row is stored under it. */
  lemma {:induction false} FoldKeys(rows: Dict, lowered: bool, k: string)
    ensures HasKey(Fold(rows, lowered), k) <==> Stored(rows, lowered, k)
    decreases |rows|
  {
    if rows != [] {
      var init := rows[..|rows| - 1];
      var last := rows[|rows| - 1];
      FoldKeys(init, lowered, k);
      StoredLast(rows, lowered, k);
      var f := Fold(init, lowered);
      assert Fold(rows, lowered) == Assign(f, Key(last.0, lowered), last.1);
    }
  }

  /** A row is stored under `k` when an earlier one is or the last one is. */
  lemma StoredLast(rows: Dict, lowered: bool, k: string)
    requires rows != []
    ensures Stored(rows, lowered, k) <==>
            Stored(rows[..|rows| - 1], lowered, k) || Key(rows[|rows| - 1].0, lowered) == k
  {
    var init := rows[..|rows| - 1];
    if Stored(init, lowered, k) {
      var i :| 0 <= i < |init| && Key(init[i].0, lowered) == k;
      assert rows[i] == init[i];
    }
    if Key(rows[|rows| - 1].0, lowered) == k {
      assert Stored(rows, lowered, k);
    }
    if Stored(rows, lowered, k) {
      var i :| 0 <= i < |rows| && Key(rows[i].0, lowered) == k;
      if i < |init| { assert init[i] == rows[i]; }
    }
  }

  /** Rows with distinct first columns form the dict unchanged. */
  lemma {:induction false} FoldDistinctRows(rows: Dict)
    requires DistinctKeys(rows)
    ensures Fold(rows, false) == rows
    decreases |rows|
  {
    if rows != [] {
      var init := rows[..|rows| - 1];
      var last := rows[|rows| - 1];
      FoldDistinctRows(init);
      FoldKeys(init, false, last.0);
      assert !HasKey(Fold(init, false), last.0);
      assert rows == init + [last];
    }
  }

  /** Every key of the saved alias dict is lower-case, every alias row has its
      lower-cased alias as a key, and no key occurs twice. */
  lemma UniqueAliasesKeys(rows: Dict)
    ensures var u := UniqueAliasesOf(rows);
            DistinctKeys(u) &&
            (forall i :: 0 <= i < |u| ==> Lower(u[i].0) == u[i].0) &&
            (forall i :: 0 <= i < |rows| ==> HasKey(u, Lower(rows[i].0)))
  {
    var d := Fold(rows, false);
    var u := Fold(d, true);
    forall i | 0 <= i < |u| ensures Lower(u[i].0) == u[i].0 {
      assert HasKey(u, u[i].0);
      FoldKeys(d, true, u[i].0);
      var j :| 0 <= j < |d| && Key(d[j].0, true) == u[i].0;
      LowerIdempotent(d[j].0);
    }
    forall i | 0 <= i < |rows| ensures HasKey(u, Lower(rows[i].0)) {
      assert Key(rows[i].0, false) == rows[i].0;
      FoldKeys(rows, false, rows[i].0);
      var j :| 0 <= j < |d| && d[j].0 == rows[i].0;
      assert Key(d[j].0, true) == Lower(rows[i].0);
      FoldKeys(d, true, Lower(rows[i].0));
    }
  }

  /** When no alias row repeats another exactly, the target kept for an alias is the
      one of the last row whose alias equals it ignoring case. */
  lemma UniqueAliasesLaterRowWins(rows: Dict, alias: string)
    requires DistinctKeys(rows)
    ensures Lookup(UniqueAliasesOf(rows), Lower(alias)) == LastValue(rows, true, Lower(alias))
  {
    FoldDistinctRows(rows);
    FoldLookup(rows, true, Lower(alias));
  }

  /** Rows added through the dialog never repeat a first column. */
  lemma AddRowKeepsDistinct(rows: Dict, first: string, second: string)
    requires DistinctKeys(rows)
    ensures DistinctKeys(AddRow(rows, first, second).1)
  {
    var a := Strip(first);
    var b := Strip(second);
    if a != [] && b != [] && !HasKey(rows, a) {
      var t := rows + [(a, b)];
      assert AddRow(rows, first, second).1 == t;
      forall i, j | 0 <= i < j < |t| ensures t[i].0 != t[j].0 {
        assert t[i] == rows[i];
        if j < |rows| {
          assert t[j] == rows[j];
        }
      }
    }
  }

  /** `str` then `int` gives the number back: the thresholds saved as text are
      read back unchanged. */
  lemma {:induction false} ParseIntToStr(n: int)
    ensures ParseInt(IntToStr(n)) == Some(n)
  {
    var digits := NatToStr(if n < 0 then -n else n);
    NatToStrValue(if n < 0 then -n else n);
    if n < 0 {
      ParseSignedNegative(digits);
      StripUnspaced("-" + digits);
    } else {
      ParseSignedDigits(digits);
      StripUnspaced(digits);
    }
  }

  lemma ParseSignedDigits(d: string)
    requires DigitGroups(d)
    ensures ParseSigned(d) == Some(DigitsValue(d)) && !IsSpace(d[0]) && !IsSpace(d[|d| - 1])
  {
    assert IsDigit(d[0]);
  }

  lemma ParseSignedNegative(d: string)
    requires DigitGroups(d)
    ensures var t := "-" + d;
            ParseSigned(t) == Some(-(DigitsValue(d) as int)) && !IsSpace(t[0]) && !IsSpace(t[|t| - 1])
  {
    var t := "-" + d;
    assert t[1..] == d;
    assert t[|t| - 1] == d[|d| - 1];
  }

  lemma {:induction false} NatToStrValue(n: nat)
    ensures DigitGroups(NatToStr(n)) && DigitsValue(NatToStr(n)) == n
    decreases n
  {
    var s := NatToStr(n);
    if n >= 10 {
      NatToStrValue(n / 10);
      assert s[..|s| - 1] == NatToStr(n / 10);
    }
  }

  /** Accepted thresholds make all three bands reachable: the high threshold itself
      is HIGH, the medium threshold is MEDIUM and a zero confidence is LOW. */
  lemma AcceptedThresholdsBands(highText: string, mediumText: string)
    requires ValidateThresholds(highText, mediumText).Accepted?
    ensures var t := ValidateThresholds(highText, mediumText);
            Categorize(t.high as real, t.high, t.medium) == High &&
            Categorize(t.medium as real, t.high, t.medium) == Medium &&
            Categorize(0.0, t.high, t.medium) == Low
  {
  }
}
