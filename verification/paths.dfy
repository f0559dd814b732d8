/**
 * Slash-separated repository paths as `buildFileTree` takes them apart
 * (`path.split("/")`, `pop()` for the name, `join("/")` for the parent), and
 * the order on names used to sort siblings.
 */
module Paths {
  import opened Basics

  /** Position of the last `/` in `s`, if any. */
  function LastSlash(s: string): (r: Option<nat>)
    ensures r.None? <==> '/' !in s
    ensures r.Some? ==> r.value < |s| && s[r.value] == '/' && '/' !in s[r.value + 1..]
  {
    if |s| == 0 then None
    else if s[|s| - 1] == '/' then
      assert '/' !in s[|s|..];
      Some(|s| - 1)
    else
      var r := LastSlash(s[..|s| - 1]);
      assert s == s[..|s| - 1] + [s[|s| - 1]];
      if r.Some? then
        assert s[r.value + 1..] == s[..|s| - 1][r.value + 1..] + [s[|s| - 1]];
        r
      else r
  }

  /**
   * The segments before the last one, joined by `/`: everything before the
   * last slash, or the empty string when there is none.
   */
  function Parent(path: string): (r: string)
    ensures '/' !in path ==> r == ""
    ensures '/' in path ==> |r| < |path| && path[..|r|] == r && path[|r|] == '/' && '/' !in path[|r| + 1..]
    ensures r == "" || |r| < |path|
  {
    match LastSlash(path)
    case None => ""
    case Some(i) => path[..i]
  }

  /** The last `/`-segment of `path`: everything after the last slash. */
  function BaseName(path: string): (r: string)
    ensures '/' !in r
    ensures '/' !in path ==> r == path
    ensures '/' in path ==> path == Parent(path) + "/" + r
  {
    match LastSlash(path)
    case None => path
    case Some(i) =>
      assert path == path[..i] + "/" + path[i + 1..];
      path[i + 1..]
  }

  /** A path whose parent is not the empty string is its parent, a slash and its name. */
  lemma ParentJoin(path: string)
    requires Parent(path) != ""
    ensures path == Parent(path) + "/" + BaseName(path)
  {
  }

  /** Two paths with the same parent and the same name are the same path. */
  lemma SplitInjective(a: string, b: string)
    requires Parent(a) == Parent(b) && BaseName(a) == BaseName(b)
    requires Parent(a) != ""
    ensures a == b
  {
    ParentJoin(a);
    ParentJoin(b);
  }

  /** Lexicographic order on code points: the order in which sibling names are sorted. */
  predicate NameLe(a: string, b: string) {
    |a| == 0 || (|b| > 0 && (a[0] < b[0] || (a[0] == b[0] && NameLe(a[1..], b[1..]))))
  }

  lemma {:induction false} NameLeTotal(a: string, b: string)
    ensures NameLe(a, b) || NameLe(b, a)
  {
    if |a| > 0 && |b| > 0 && a[0] == b[0] {
      NameLeTotal(a[1..], b[1..]);
    }
  }

  lemma {:induction false} NameLeAntisymmetric(a: string, b: string)
    requires NameLe(a, b) && NameLe(b, a)
    ensures a == b
  {
    if |a| > 0 && |b| > 0 {
      NameLeAntisymmetric(a[1..], b[1..]);
      assert a == [a[0]] + a[1..] && b == [b[0]] + b[1..];
    }
  }

  lemma {:induction false} NameLeTransitive(a: string, b: string, c: string)
    requires NameLe(a, b) && NameLe(b, c)
    ensures NameLe(a, c)
  {
    if |a| > 0 && |b| > 0 && |c| > 0 && a[0] == b[0] && b[0] == c[0] {
      NameLeTransitive(a[1..], b[1..], c[1..]);
    }
  }
}
