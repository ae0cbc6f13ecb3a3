/** POSIX path helpers as `os.path` computes them: `join`, `basename`, `dirname`. */
module Paths {

  predicate AllSlashes(s: string) {
    forall i :: 0 <= i < |s| ==> s[i] == '/'
  }

  /** Length of the part up to and including the last '/' (0 when there is none). */
  function TailStart(p: string): (i: nat)
    ensures i <= |p|
    ensures i > 0 ==> p[i - 1] == '/'
    ensures forall k :: i <= k < |p| ==> p[k] != '/'
    decreases |p|
  {
    if p == [] then 0
    else if p[|p| - 1] == '/' then |p|
    else TailStart(p[..|p| - 1])
  }

  /** `s.rstrip('/')` */
  function RStripSlash(s: string): (r: string)
    ensures |r| <= |s| && r == s[..|r|]
    ensures r != [] ==> r[|r| - 1] != '/'
    ensures forall k :: |r| <= k < |s| ==> s[k] == '/'
    decreases |s|
  {
    if s != [] && s[|s| - 1] == '/' then RStripSlash(s[..|s| - 1]) else s
  }

  /** `os.path.basename(p)` */
  function Basename(p: string): string {
    p[TailStart(p)..]
  }

  /** `os.path.dirname(p)`: the head up to the last '/', with trailing slashes
      removed unless the head consists of slashes only. */
  function Dirname(p: string): string {
    var head := p[..TailStart(p)];
    if head != [] && !AllSlashes(head) then RStripSlash(head) else head
  }

  /** `os.path.join(a, b)` for two components. */
  function JoinPath(a: string, b: string): string {
    if b != [] && b[0] == '/' then b
    else if a == [] || a[|a| - 1] == '/' then a + b
    else a + "/" + b
  }

  /** `p` lies strictly inside the directory `q`. */
  predicate Below(p: string, q: string) {
    |q| + 1 <= |p| && p[..|q| + 1] == q + "/"
  }

  // ------------------------------------------------------------------- lemmas

  lemma {:induction false} TailStartAppend(x: string, n: string)
    requires '/' !in n
    ensures TailStart(x + n) == TailStart(x)
    decreases |n|
  {
    if n != [] {
      var m := n[..|n| - 1];
      assert (x + n)[..|x + n| - 1] == x + m;
      assert n[|n| - 1] in n;
      assert forall c :: c in m ==> c in n;
      TailStartAppend(x, m);
    } else {
      assert x + n == x;
    }
  }

  /** Joining a directory with a slash-free component yields that component as basename. */
  lemma BasenameJoin(d: string, n: string)
    requires '/' !in n
    ensures Basename(JoinPath(d, n)) == n
  {
    if n != [] { assert n[0] in n; }
    if d == [] || d[|d| - 1] == '/' {
      TailStartAppend(d, n);
      if d == [] {
        assert d + n == n;
      }
    } else {
      TailStartAppend(d + "/", n);
      assert d + "/" + n == (d + "/") + n;
    }
  }

  /** What `dirname` returns is empty, all slashes, or does not end in a slash. */
  lemma DirnameShape(p: string)
    ensures var d := Dirname(p); d == [] || AllSlashes(d) || d[|d| - 1] != '/'
  {
    var head := p[..TailStart(p)];
    if head != [] && !AllSlashes(head) {
      var r := RStripSlash(head);
      assert forall k :: |r| <= k < |head| ==> head[k] == '/';
    }
  }

  /** Renaming the last component keeps the parent directory. */
  lemma DirnameJoin(p: string, n: string)
    requires '/' !in n
    ensures Dirname(JoinPath(Dirname(p), n)) == Dirname(p)
  {
    var d := Dirname(p);
    DirnameShape(p);
    if n != [] { assert n[0] in n; }
    if d == [] {
      TailStartAppend([], n);
      assert [] + n == n;
    } else if d[|d| - 1] == '/' {
      TailStartAppend(d, n);
      assert (d + n)[..|d|] == d;
      assert AllSlashes(d);
    } else {
      var h := d + "/";
      TailStartAppend(h, n);
      assert d + "/" + n == h + n;
      assert (h + n)[..|h|] == h;
      assert !AllSlashes(h) by { assert h[|d| - 1] != '/'; }
      assert RStripSlash(h) == RStripSlash(d) == d;
    }
  }
}
