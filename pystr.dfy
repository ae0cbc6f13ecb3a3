/** Python `str` operations the engine relies on, restricted to ASCII character
    classes (the transliteration step produces ASCII before any of them runs). */
module PyStr {

  datatype Option<T> = None | Some(value: T)

  // ---------------------------------------------------------------- characters

  predicate IsUpperChar(c: char) { 'A' <= c <= 'Z' }
  predicate IsLowerChar(c: char) { 'a' <= c <= 'z' }
  /** `str.isalpha` / "cased" on ASCII. */
  predicate IsAlpha(c: char) { IsUpperChar(c) || IsLowerChar(c) }
  /** `str.isdigit` on ASCII. */
  predicate IsDigit(c: char) { '0' <= c <= '9' }
  predicate IsAlnum(c: char) { IsAlpha(c) || IsDigit(c) }
  /** `str.isspace` on ASCII: space, \t \n \v \f \r, and the separators 0x1C..0x1F. */
  predicate IsSpace(c: char) {
    c == ' ' || (9 <= c as int <= 13) || (28 <= c as int <= 31)
  }

  function ToLowerChar(c: char): (r: char)
    ensures IsAlpha(c) ==> IsLowerChar(r)
    ensures !IsUpperChar(c) ==> r == c
  {
    if IsUpperChar(c) then (c as int + 32) as char else c
  }

  function ToUpperChar(c: char): (r: char)
    ensures IsAlpha(c) ==> IsUpperChar(r)
    ensures !IsLowerChar(c) ==> r == c
  {
    if IsLowerChar(c) then (c as int - 32) as char else c
  }

  // ----------------------------------------------------------------- predicates

  predicate StartsWith(s: string, p: string) { p <= s }

  predicate EndsWith(s: string, p: string) {
    |p| <= |s| && s[|s| - |p|..] == p
  }

  /** Python's `needle in hay` on strings. */
  predicate Contains(hay: string, needle: string)
    decreases |hay|
  {
    needle <= hay || (hay != [] && Contains(hay[1..], needle))
  }

  /** `str.isdigit()`: non-empty and all digits. */
  predicate IsDigitStr(s: string) {
    |s| > 0 && forall i :: 0 <= i < |s| ==> IsDigit(s[i])
  }

  predicate NoSpaceChars(s: string) {
    forall i :: 0 <= i < |s| ==> !IsSpace(s[i])
  }

  /** Two spaces in a row start at position `i`. */
  predicate DoubleSpaceAt(s: string, i: int)
    requires 0 <= i < |s| - 1
  {
    s[i] == ' ' && s[i + 1] == ' '
  }

  /** The shape `" ".join(s.split())` produces: words separated by one space. */
  predicate WellSpaced(s: string) {
    (forall i :: 0 <= i < |s| ==> IsSpace(s[i]) ==> s[i] == ' ') &&
    (|s| > 0 ==> s[0] != ' ' && s[|s| - 1] != ' ') &&
    (forall i :: 0 <= i < |s| - 1 ==> !DoubleSpaceAt(s, i))
  }

  // ---------------------------------------------------------------- transforms

  /** `str.lower()` */
  function Lower(s: string): (r: string)
    ensures |r| == |s|
  {
    seq(|s|, i requires 0 <= i < |s| => ToLowerChar(s[i]))
  }

  /** `str.lstrip()` */
  function LStrip(s: string): (r: string)
    ensures |r| <= |s| && r == s[|s| - |r|..]
    ensures r != [] ==> !IsSpace(r[0])
    decreases |s|
  {
    if s != [] && IsSpace(s[0]) then LStrip(s[1..]) else s
  }

  /** `str.rstrip()` */
  function RStrip(s: string): (r: string)
    ensures |r| <= |s| && r == s[..|r|]
    ensures r != [] ==> !IsSpace(r[|r| - 1])
    decreases |s|
  {
    if s != [] && IsSpace(s[|s| - 1]) then RStrip(s[..|s| - 1]) else s
  }

  /** `str.strip()` */
  function Strip(s: string): string { RStrip(LStrip(s)) }

  /** `s.replace(w, '')`: removes the non-overlapping occurrences of `w`, scanning
      from the left. Replacing the empty string by the empty string changes nothing. */
  function RemoveAll(s: string, w: string): (r: string)
    ensures |r| <= |s|
    decreases |s|
  {
    if w == [] || |s| < |w| then s
    else if w <= s then RemoveAll(s[|w|..], w)
    else [s[0]] + RemoveAll(s[1..], w)
  }

  /** `s.replace(a, b)` for single characters. */
  function ReplaceChar(s: string, a: char, b: char): (r: string)
    ensures |r| == |s|
  {
    seq(|s|, i requires 0 <= i < |s| => if s[i] == a then b else s[i])
  }

  /** `''.join(c for c in s if not c.isdigit())` */
  function DropDigits(s: string): (r: string)
    ensures forall i :: 0 <= i < |r| ==> !IsDigit(r[i])
    ensures forall c :: c in r ==> c in s
  {
    if s == [] then []
    else if IsDigit(s[0]) then DropDigits(s[1..])
    else [s[0]] + DropDigits(s[1..])
  }

  /** The leading run of non-space characters. */
  function Word(s: string): (w: string)
    ensures w <= s && NoSpaceChars(w)
    ensures |w| < |s| ==> IsSpace(s[|w|])
  {
    if s == [] || IsSpace(s[0]) then [] else [s[0]] + Word(s[1..])
  }

  /** `str.split()` with no separator: the maximal runs of non-space characters. */
  function SplitWords(s: string): (ws: seq<string>)
    ensures forall k :: 0 <= k < |ws| ==> ws[k] != [] && NoSpaceChars(ws[k])
    decreases |s|
  {
    if s == [] then []
    else if IsSpace(s[0]) then SplitWords(s[1..])
    else
      var w := Word(s);
      [w] + SplitWords(s[|w|..])
  }

  /** `sep.join(ws)` */
  function Join(ws: seq<string>, sep: string): string {
    if ws == [] then []
    else if |ws| == 1 then ws[0]
    else ws[0] + sep + Join(ws[1..], sep)
  }

  /** `" ".join(s.split())` */
  function CollapseSpaces(s: string): string { Join(SplitWords(s), " ") }

  /** `str.title()`: a letter is upper-cased when the character before it is not a
      letter and lower-cased otherwise; every other character is kept. */
  function TitleFrom(s: string, prevCased: bool): (r: string)
    ensures |r| == |s|
  {
    if s == [] then []
    else if IsAlpha(s[0]) then
      [if prevCased then ToLowerChar(s[0]) else ToUpperChar(s[0])] + TitleFrom(s[1..], true)
    else [s[0]] + TitleFrom(s[1..], false)
  }

  function Title(s: string): string { TitleFrom(s, false) }

  /** `s.replace(" ", "")` */
  function RemoveSpaces(s: string): string { RemoveAll(s, " ") }

  /** `s.split(sep)` for a one-character separator: always at least one piece. */
  function SplitOn(s: string, sep: char): (ps: seq<string>)
    ensures |ps| >= 1
    ensures forall k :: 0 <= k < |ps| ==> sep !in ps[k]
    decreases |s|
  {
    if sep !in s then [s]
    else
      var i := IndexOf(s, sep);
      [s[..i]] + SplitOn(s[i + 1..], sep)
  }

  /** Index of the first occurrence of `c`. */
  function IndexOf(s: string, c: char): (i: nat)
    requires c in s
    ensures i < |s| && s[i] == c && c !in s[..i]
  {
    if s[0] == c then 0 else 1 + IndexOf(s[1..], c)
  }

  /** Index of the first element satisfying `p`. */
  function FirstIndex<T>(xs: seq<T>, p: T -> bool): (r: Option<nat>)
    ensures r.Some? ==> r.value < |xs| && p(xs[r.value]) &&
                        forall j :: 0 <= j < r.value ==> !p(xs[j])
    ensures r.None? <==> forall j :: 0 <= j < |xs| ==> !p(xs[j])
    decreases |xs|
  {
    if xs == [] then None
    else if p(xs[0]) then Some(0)
    else match FirstIndex(xs[1..], p)
      case None => None
      case Some(i) => Some(i + 1)
  }

  // ------------------------------------------------------------------- lemmas

  /** `needle in hay` holds exactly when the needle sits at some offset of the hay. */
  lemma {:induction false} ContainsAt(hay: string, needle: string)
    ensures Contains(hay, needle) <==>
            exists i :: 0 <= i <= |hay| - |needle| && needle <= hay[i..]
    decreases |hay|
  {
    if needle <= hay {
      assert hay[0..] == hay;
    } else if hay == [] {
    } else {
      ContainsAt(hay[1..], needle);
      if Contains(hay[1..], needle) {
        var i :| 0 <= i <= |hay[1..]| - |needle| && needle <= hay[1..][i..];
        assert hay[1..][i..] == hay[i + 1..];
      }
      if exists i :: 0 <= i <= |hay| - |needle| && needle <= hay[i..] {
        var i :| 0 <= i <= |hay| - |needle| && needle <= hay[i..];
        assert i != 0;
        assert hay[1..][i - 1..] == hay[i..];
      }
    }
  }

  /** A string contained in a string no longer than itself is that string. */
  lemma ContainsShorter(hay: string, needle: string)
    requires |hay| <= |needle| && Contains(hay, needle)
    ensures hay == needle
  {
    ContainsAt(hay, needle);
    var i :| 0 <= i <= |hay| - |needle| && needle <= hay[i..];
  }

  lemma ContainsSelf(s: string)
    ensures Contains(s, s)
  {
  }

  /** The characters of a title-cased string are those of the input, up to case. */
  lemma {:induction false} TitleKeeps(s: string, prevCased: bool, i: nat)
    requires i < |s|
    ensures !IsAlpha(s[i]) ==> TitleFrom(s, prevCased)[i] == s[i]
    ensures IsAlpha(s[i]) ==> IsAlpha(TitleFrom(s, prevCased)[i]) &&
                              ToLowerChar(TitleFrom(s, prevCased)[i]) == ToLowerChar(s[i])
  {
    if i > 0 {
      TitleKeeps(s[1..], IsAlpha(s[0]), i - 1);
    }
  }

  lemma {:induction false} DropDigitsOnDigitFree(s: string)
    requires forall i :: 0 <= i < |s| ==> !IsDigit(s[i])
    ensures DropDigits(s) == s
  {
    if s != [] {
      DropDigitsOnDigitFree(s[1..]);
    }
  }

  lemma {:induction false} JoinWellSpaced(ws: seq<string>)
    requires forall k :: 0 <= k < |ws| ==> ws[k] != [] && NoSpaceChars(ws[k])
    ensures WellSpaced(Join(ws, " "))
    ensures |ws| > 0 ==> Join(ws, " ") != [] && ws[0] <= Join(ws, " ")
  {
    if |ws| > 1 {
      JoinWellSpaced(ws[1..]);
      var rest := Join(ws[1..], " ");
      var r := ws[0] + " " + rest;
      assert Join(ws, " ") == r;
      forall i | 0 <= i < |r| ensures IsSpace(r[i]) ==> r[i] == ' ' {
        if i < |ws[0]| { assert r[i] == ws[0][i]; }
        else if i > |ws[0]| { assert r[i] == rest[i - |ws[0]| - 1]; }
      }
      forall i | 0 <= i < |r| - 1 ensures !DoubleSpaceAt(r, i) {
        if i + 1 < |ws[0]| {
          assert r[i] == ws[0][i];
        } else if i + 1 == |ws[0]| {
          assert r[i] == ws[0][i];
        } else if i == |ws[0]| {
          assert r[i + 1] == rest[0] == ws[1][0];
        } else {
          assert r[i] == rest[i - |ws[0]| - 1] && r[i + 1] == rest[i - |ws[0]|];
          assert !DoubleSpaceAt(rest, i - |ws[0]| - 1);
        }
      }
      assert r[|r| - 1] == rest[|rest| - 1];
      assert r[0] == ws[0][0];
    }
  }

  lemma LowerIdempotent(s: string)
    ensures Lower(Lower(s)) == Lower(s)
  {
  }

  lemma CollapseWellSpaced(s: string)
    ensures WellSpaced(CollapseSpaces(s))
  {
    JoinWellSpaced(SplitWords(s));
  }
  /** A string that neither starts nor ends with whitespace is its own strip. */
  lemma StripUnspaced(s: string)
    requires s != [] && !IsSpace(s[0]) && !IsSpace(s[|s| - 1])
    ensures Strip(s) == s
  {
    assert LStrip(s) == s;
  }

  /** Lower-casing keeps a string well-spaced: it changes letters only. */
  lemma LowerWellSpaced(s: string)
    requires WellSpaced(s)
    ensures WellSpaced(Lower(s))
  {
    var l := Lower(s);
    assert forall i :: 0 <= i < |s| ==> (l[i] == ' ' <==> s[i] == ' ') && (IsSpace(l[i]) <==> IsSpace(s[i]));
    forall i | 0 <= i < |l| - 1 ensures !DoubleSpaceAt(l, i) {
      assert !DoubleSpaceAt(s, i);
    }
  }

  /** `" ".join(s.split())` leaves a well-spaced string as it is. */
  lemma {:induction false} CollapseOfWellSpaced(s: string)
    requires WellSpaced(s)
    ensures CollapseSpaces(s) == s
    decreases |s|
  {
    if s != [] {
      var w := Word(s);
      assert |w| > 0 by { assert !IsSpace(s[0]); }
      assert SplitWords(s) == [w] + SplitWords(s[|w|..]);
      if |w| == |s| {
        assert s[|w|..] == [];
        assert w == s;
      } else {
        var t := s[|w| + 1..];
        WellSpacedAfterWord(s, w);
        CollapseOfWellSpaced(t);
        SplitWordsLeadingSpace(s[|w|..]);
        var ws := SplitWords(t);
        assert ws != [] by {
          assert SplitWords(t) == [Word(t)] + SplitWords(t[|Word(t)|..]);
        }
        JoinCons(w, ws);
      }
    }
  }

  /** In a well-spaced string a word that is not the whole string is followed by
      one space and a well-spaced rest that starts with a non-space. */
  lemma WellSpacedAfterWord(s: string, w: string)
    requires WellSpaced(s) && w == Word(s) && |w| < |s|
    ensures |w| + 1 < |s| && s[|w|] == ' ' && s == w + " " + s[|w| + 1..]
    ensures !IsSpace(s[|w| + 1]) && WellSpaced(s[|w| + 1..])
  {
    var n := |w|;
    SpaceInWellSpaced(s, n);
    WellSpacedSuffix(s, n + 1);
    assert s[..n] == w;
    SplitAround(s, n);
  }

  lemma SplitAround(s: string, n: nat)
    requires n < |s|
    ensures s == s[..n] + [s[n]] + s[n + 1..]
  {
    assert s[..n + 1] == s[..n] + [s[n]];
    assert s == s[..n + 1] + s[n + 1..];
  }

  /** A space inside a well-spaced string is a single ' ' followed by a non-space. */
  lemma SpaceInWellSpaced(s: string, n: nat)
    requires WellSpaced(s) && n < |s| && IsSpace(s[n])
    ensures s[n] == ' ' && n + 1 < |s| && !IsSpace(s[n + 1])
  {
    assert n != |s| - 1;
    assert !DoubleSpaceAt(s, n);
  }

  /** A suffix of a well-spaced string that starts with a non-space is well-spaced. */
  lemma WellSpacedSuffix(s: string, k: nat)
    requires WellSpaced(s) && k < |s| && s[k] != ' '
    ensures WellSpaced(s[k..])
  {
    var t := s[k..];
    forall i | 0 <= i < |t| ensures IsSpace(t[i]) ==> t[i] == ' ' {
      assert t[i] == s[k + i];
    }
    forall i | 0 <= i < |t| - 1 ensures !DoubleSpaceAt(t, i) {
      assert t[i] == s[k + i] && t[i + 1] == s[k + i + 1];
      assert !DoubleSpaceAt(s, k + i);
    }
    assert t[|t| - 1] == s[|s| - 1];
  }

  /** A leading space is dropped by `str.split()`. */
  lemma SplitWordsLeadingSpace(u: string)
    requires u != [] && u[0] == ' '
    ensures SplitWords(u) == SplitWords(u[1..])
  {
  }

  /** Joining a word in front of a non-empty list puts one separator between. */
  lemma JoinCons(w: string, ws: seq<string>)
    requires ws != []
    ensures Join([w] + ws, " ") == w + " " + Join(ws, " ")
  {
    assert ([w] + ws)[1..] == ws;
  }

  /** Title-casing the lower-cased form of a title-cased string gives it back. */
  lemma {:induction false} TitleLowerTitle(s: string, prevCased: bool)
    ensures TitleFrom(Lower(TitleFrom(s, prevCased)), prevCased) == TitleFrom(s, prevCased)
    decreases |s|
  {
    if s != [] {
      var t := TitleFrom(s, prevCased);
      var rest := TitleFrom(s[1..], IsAlpha(s[0]));
      assert t == [t[0]] + rest;
      TitleLowerTitle(s[1..], IsAlpha(s[0]));
      var l := Lower(t);
      assert l == [ToLowerChar(t[0])] + Lower(rest);
      assert l[1..] == Lower(rest);
      TitleCharOfLower(s[0], prevCased);
      assert TitleFrom(l, prevCased) == [t[0]] + TitleFrom(l[1..], IsAlpha(s[0]));
    }
  }

  /** The one-character step of `TitleLowerTitle`. */
  lemma TitleCharOfLower(c: char, prevCased: bool)
    ensures var t := TitleFrom([c], prevCased)[0];
      IsAlpha(ToLowerChar(t)) == IsAlpha(c) &&
      TitleFrom([ToLowerChar(t)], prevCased)[0] == t
  {
  }
}
