/** Name normalisation (`normalize_folders`) and alias rewriting (`apply_aliases`). */
module Normalizer {
  import opened PyStr
  import opened Paths

  /** One item of the `{path: (original_name, normalized_name)}` dictionary. */
  datatype NameEntry = NameEntry(path: string, original: string, normalized: string)

  /** The alias dictionary as its items in insertion order: (alias key, canonical name). */
  type AliasTable = seq<(string, string)>

  // ------------------------------------------------------------ specification

  /** Skip words removed one after the other, each lower-cased first. */
  function RemoveSkipWords(s: string, skip: seq<string>): string
    decreases |skip|
  {
    if skip == [] then s
    else RemoveAll(RemoveSkipWords(s, skip[..|skip| - 1]), Lower(skip[|skip| - 1]))
  }

  /** The name after transliteration, lower-casing, trimming and skip-word removal. */
  function AfterSkipWords(raw: string, skip: seq<string>, translit: string -> string): string {
    RemoveSkipWords(Strip(Lower(translit(raw))), skip)
  }

  /** Digits are dropped only when asked for and the name is not all digits. */
  function DropNumbers(s: string, ignoreNumbers: bool): string {
    if ignoreNumbers && !IsDigitStr(s) then DropDigits(s) else s
  }

  /** `_` and `-` become spaces, whitespace runs collapse, words are title-cased. */
  function Tidy(s: string): string {
    Title(CollapseSpaces(ReplaceChar(ReplaceChar(s, '_', ' '), '-', ' ')))
  }

  /** The normalised form of a raw folder or file name. */
  function NormalizeName(raw: string, skip: seq<string>, ignoreNumbers: bool,
                         translit: string -> string): string
  {
    Tidy(DropNumbers(AfterSkipWords(raw, skip, translit), ignoreNumbers))
  }

  /** The value of the first alias key (in table order) that occurs in the name,
      both sides lower-cased. */
  function FirstAlias(name: string, aliases: AliasTable): Option<string>
    decreases |aliases|
  {
    if aliases == [] then None
    else if Contains(Lower(name), Lower(aliases[0].0)) then Some(aliases[0].1)
    else FirstAlias(name, aliases[1..])
  }

  predicate AliasKeyMatches(name: string, aliases: AliasTable, i: int)
    requires 0 <= i < |aliases|
  {
    Contains(Lower(name), Lower(aliases[i].0))
  }

  function ResolveAlias(name: string, aliases: AliasTable): string {
    match FirstAlias(name, aliases)
    case Some(v) => v
    case None => name
  }

  function Aliased(e: NameEntry, aliases: AliasTable): NameEntry {
    e.(normalized := ResolveAlias(e.normalized, aliases))
  }

  /** Normalised and alias-resolved form of a raw name, as the matcher tiers use it. */
  function ResolvedName(raw: string, skip: seq<string>, ignoreNumbers: bool,
                        aliases: AliasTable, translit: string -> string): string
  {
    ResolveAlias(NormalizeName(raw, skip, ignoreNumbers, translit), aliases)
  }

  // ---------------------------------------------------------------- methods

  /** `normalize_folders`: a one-entry map from the path to (basename, normalised name). */
  method NormalizeFolders(path: string, skip: seq<string>, ignoreNumbers: bool,
                          translit: string -> string) returns (m: seq<NameEntry>)
    ensures m == [NameEntry(path, Basename(path), NormalizeName(Basename(path), skip, ignoreNumbers, translit))]
    ensures '_' !in m[0].normalized && '-' !in m[0].normalized && WellSpaced(m[0].normalized)
  {
    var original := Basename(path);
    var name := Strip(Lower(translit(original)));
    ghost var start := name;
    var i := 0;
    while i < |skip|
      invariant 0 <= i <= |skip|
      invariant name == RemoveSkipWords(start, skip[..i])
    {
      assert skip[..i + 1][..i] == skip[..i];
      name := RemoveAll(name, Lower(skip[i]));
      i := i + 1;
    }
    assert skip[..|skip|] == skip;
    if ignoreNumbers && !IsDigitStr(name) {
      name := DropDigits(name);
    }
    name := ReplaceChar(ReplaceChar(name, '_', ' '), '-', ' ');
    name := CollapseSpaces(name);
    name := Title(name);
    m := [NameEntry(path, original, name)];
    NormalizeNameShape(original, skip, ignoreNumbers, translit);
  }

  /** `apply_aliases`: every entry keeps its path and original name; its normalised
      name is replaced by the first matching alias target, if any. */
  method ApplyAliases(m: seq<NameEntry>, aliases: AliasTable) returns (u: seq<NameEntry>)
    ensures aliases == [] ==> u == m
    ensures |u| == |m|
    ensures forall k :: 0 <= k < |m| ==> u[k] == Aliased(m[k], aliases)
  {
    if aliases == [] {
      return m;
    }
    u := [];
    var k := 0;
    while k < |m|
      invariant 0 <= k <= |m| && |u| == k
      invariant forall q :: 0 <= q < k ==> u[q] == Aliased(m[q], aliases)
    {
      var e := m[k];
      var found := false;
      var j := 0;
      while j < |aliases|
        invariant 0 <= j <= |aliases|
        invariant FirstAlias(e.normalized, aliases) == FirstAlias(e.normalized, aliases[j..])
      {
        if Contains(Lower(e.normalized), Lower(aliases[j].0)) {
          u := u + [e.(normalized := aliases[j].1)];
          found := true;
          break;
        }
        assert aliases[j..][1..] == aliases[j + 1..];
        j := j + 1;
      }
      if !found {
        u := u + [e];
      }
      k := k + 1;
    }
  }

  // ------------------------------------------------------------------ lemmas

  /** First-match-wins: the alias found is that of the first matching key, and
      no alias is found exactly when no key matches. */
  lemma {:induction false} FirstAliasIsFirstMatch(name: string, aliases: AliasTable)
    ensures FirstAlias(name, aliases).None? <==>
            forall i :: 0 <= i < |aliases| ==> !AliasKeyMatches(name, aliases, i)
    ensures FirstAlias(name, aliases).Some? ==>
            exists i :: 0 <= i < |aliases| && AliasKeyMatches(name, aliases, i) &&
                        FirstAlias(name, aliases).value == aliases[i].1 &&
                        forall j :: 0 <= j < i ==> !AliasKeyMatches(name, aliases, j)
    decreases |aliases|
  {
    if aliases != [] {
      FirstAliasIsFirstMatch(name, aliases[1..]);
      forall i | 1 <= i < |aliases|
        ensures AliasKeyMatches(name, aliases, i) == AliasKeyMatches(name, aliases[1..], i - 1)
      {
      }
      if !AliasKeyMatches(name, aliases, 0) && FirstAlias(name, aliases[1..]).Some? {
        var i :| 0 <= i < |aliases[1..]| && AliasKeyMatches(name, aliases[1..], i) &&
                 FirstAlias(name, aliases[1..]).value == aliases[1..][i].1 &&
                 forall j :: 0 <= j < i ==> !AliasKeyMatches(name, aliases[1..], j);
        assert AliasKeyMatches(name, aliases, i + 1);
      }
    }
  }

  /** With no matching key the name is left as it is. */
  lemma ResolveAliasNoMatch(name: string, aliases: AliasTable)
    requires forall i :: 0 <= i < |aliases| ==> !AliasKeyMatches(name, aliases, i)
    ensures ResolveAlias(name, aliases) == name
  {
    FirstAliasIsFirstMatch(name, aliases);
  }

  /** Characters of a collapsed string other than the separator come from the input. */
  lemma {:induction false} WordChars(s: string, c: char)
    requires c in Word(s)
    ensures c in s
  {
    if s != [] && !IsSpace(s[0]) && c != s[0] {
      WordChars(s[1..], c);
    }
  }

  lemma {:induction false} SplitWordsChars(s: string, k: nat, c: char)
    requires k < |SplitWords(s)| && c in SplitWords(s)[k]
    ensures c in s
    decreases |s|
  {
    if IsSpace(s[0]) {
      SplitWordsChars(s[1..], k, c);
      SuffixChars(s, 1, c);
    } else {
      var w := Word(s);
      var ws := SplitWords(s[|w|..]);
      assert SplitWords(s) == [w] + ws;
      if k == 0 {
        WordChars(s, c);
      } else {
        assert SplitWords(s)[k] == ws[k - 1];
        SplitWordsChars(s[|w|..], k - 1, c);
        SuffixChars(s, |w|, c);
      }
    }
  }

  lemma SuffixChars(s: string, n: nat, c: char)
    requires n <= |s| && c in s[n..]
    ensures c in s
  {
    var j :| 0 <= j < |s[n..]| && s[n..][j] == c;
    assert s[n + j] == c;
  }

  lemma {:induction false} JoinChars(ws: seq<string>, c: char)
    requires c in Join(ws, " ") && c != ' '
    ensures exists k :: 0 <= k < |ws| && c in ws[k]
  {
    if |ws| > 1 {
      if c !in ws[0] {
        JoinChars(ws[1..], c);
        var k :| 0 <= k < |ws[1..]| && c in ws[1..][k];
        assert c in ws[k + 1];
      }
    }
  }

  lemma CollapseChars(s: string, c: char)
    requires c in CollapseSpaces(s) && c != ' '
    ensures c in s
  {
    JoinChars(SplitWords(s), c);
    var k :| 0 <= k < |SplitWords(s)| && c in SplitWords(s)[k];
    SplitWordsChars(s, k, c);
  }

  /** Title-casing a well-spaced string keeps it well-spaced, and keeps every
      non-letter character where it was. */
  lemma TitleShape(s: string)
    ensures |Title(s)| == |s|
    ensures forall i :: 0 <= i < |s| && !IsAlpha(s[i]) ==> Title(s)[i] == s[i]
    ensures forall i :: 0 <= i < |s| && IsAlpha(s[i]) ==> IsAlpha(Title(s)[i])
  {
    forall i | 0 <= i < |s| ensures !IsAlpha(s[i]) ==> Title(s)[i] == s[i]
                            ensures IsAlpha(s[i]) ==> IsAlpha(Title(s)[i])
    {
      TitleKeeps(s, false, i);
    }
  }

  /** Title-casing keeps a string well-spaced. */
  lemma TitleWellSpaced(c: string)
    requires WellSpaced(c)
    ensures WellSpaced(Title(c))
  {
    var r := Title(c);
    TitleShape(c);
    forall i | 0 <= i < |r| ensures (IsSpace(r[i]) ==> r[i] == ' ') && (r[i] == ' ' <==> c[i] == ' ') {
      if !IsAlpha(c[i]) { assert r[i] == c[i]; }
    }
    forall i | 0 <= i < |r| - 1 ensures !DoubleSpaceAt(r, i) {
      assert !DoubleSpaceAt(c, i);
    }
  }

  /** Every non-letter, non-space character of the tidied string is a character of
      the input other than `_` and `-`. */
  lemma TidyChars(d: string, x: char)
    requires x in Tidy(d) && x != ' ' && !IsAlpha(x)
    ensures x in d && x != '_' && x != '-'
  {
    var p := ReplaceChar(ReplaceChar(d, '_', ' '), '-', ' ');
    var c := CollapseSpaces(p);
    TitleShape(c);
    var i :| 0 <= i < |Title(c)| && Title(c)[i] == x;
    assert c[i] == x;
    CollapseChars(p, x);
    var j :| 0 <= j < |p| && p[j] == x;
    assert x == d[j];
  }

  /** The tidy-up steps leave no `_` or `-`, leave the words separated by single
      spaces, and introduce no digit. */
  lemma TidyShape(d: string)
    ensures var r := Tidy(d);
            '_' !in r && '-' !in r && WellSpaced(r) &&
            ((forall i :: 0 <= i < |d| ==> !IsDigit(d[i])) ==>
               forall i :: 0 <= i < |r| ==> !IsDigit(r[i]))
  {
    var r := Tidy(d);
    if '_' in r { TidyChars(d, '_'); }
    if '-' in r { TidyChars(d, '-'); }
    CollapseWellSpaced(ReplaceChar(ReplaceChar(d, '_', ' '), '-', ' '));
    TitleWellSpaced(CollapseSpaces(ReplaceChar(ReplaceChar(d, '_', ' '), '-', ' ')));
    if forall i :: 0 <= i < |d| ==> !IsDigit(d[i]) {
      forall i | 0 <= i < |r| ensures !IsDigit(r[i]) {
        if IsDigit(r[i]) {
          assert r[i] in r;
          TidyChars(d, r[i]);
        }
      }
    }
  }

  /** What `normalize_folders` produces: no `_` or `-`, words separated by single
      spaces with none leading or trailing, and no digits when digits are dropped. */
  lemma NormalizeNameShape(raw: string, skip: seq<string>, ignoreNumbers: bool,
                           translit: string -> string)
    ensures var r := NormalizeName(raw, skip, ignoreNumbers, translit);
            '_' !in r && '-' !in r && WellSpaced(r) &&
            (ignoreNumbers && !IsDigitStr(AfterSkipWords(raw, skip, translit)) ==>
               forall i :: 0 <= i < |r| ==> !IsDigit(r[i]))
  {
    TidyShape(DropNumbers(AfterSkipWords(raw, skip, translit), ignoreNumbers));
  }

  /** Normalising a normalised name again gives it back, provided transliteration
      leaves it alone and neither the skip words nor digit dropping change its
      lower-cased form any more. */
  lemma NormalizeNameIdempotent(raw: string, skip: seq<string>, ignoreNumbers: bool,
                                translit: string -> string)
    requires var n := NormalizeName(raw, skip, ignoreNumbers, translit);
             translit(n) == n && RemoveSkipWords(Lower(n), skip) == Lower(n) &&
             DropNumbers(Lower(n), ignoreNumbers) == Lower(n)
    ensures var n := NormalizeName(raw, skip, ignoreNumbers, translit);
            NormalizeName(n, skip, ignoreNumbers, translit) == n
  {
    var n := NormalizeName(raw, skip, ignoreNumbers, translit);
    var c := CollapseSpaces(ReplaceChar(ReplaceChar(
      DropNumbers(AfterSkipWords(raw, skip, translit), ignoreNumbers), '_', ' '), '-', ' '));
    assert n == Title(c);
    NormalizeNameShape(raw, skip, ignoreNumbers, translit);
    var l := Lower(n);
    LowerWellSpaced(n);
    if l != [] {
      StripUnspaced(l);
    }
    assert AfterSkipWords(n, skip, translit) == l;
    TidyOfTitled(c);
  }

  /** Tidying the lower-cased form of a tidy title-cased string gives it back. */
  lemma TidyOfTitled(c: string)
    requires '_' !in Title(c) && '-' !in Title(c) && WellSpaced(Title(c))
    ensures Tidy(Lower(Title(c))) == Title(c)
  {
    var n := Title(c);
    var l := Lower(n);
    LowerWellSpaced(n);
    assert forall i :: 0 <= i < |l| ==> l[i] != '_' && l[i] != '-' by {
      assert forall i :: 0 <= i < |n| ==> n[i] in n;
    }
    assert ReplaceChar(ReplaceChar(l, '_', ' '), '-', ' ') == l;
    CollapseOfWellSpaced(l);
    TitleLowerTitle(c, false);
  }
}
