/** Repository paths as component sequences, and the "/"-joined text the program stores. */
module Paths {
  import opened Sorting
  import opened Strings

  type Name = string
  type Path = seq<Name>

  predicate IsName(n: Name) {
    n != "" && n != "." && n != ".." && '/' !in n
  }

  predicate HasNames(p: Path) {
    forall i | 0 <= i < |p| :: IsName(p[i])
  }

  /** The program's path check; the empty path is the repository root. */
  predicate SafePath(p: Path) {
    HasNames(p) && (p != [] ==> p[0] != ".git")
  }

  /** One path is the other, or a directory above it. */
  predicate Related(p: Path, q: Path) {
    p <= q || q <= p
  }

  lemma Comparable(p: Path, p': Path, q: Path)
    requires p <= q && p' <= q
    ensures Related(p, p')
  {
    if |p| <= |p'| { assert p == p'[..|p|]; } else { assert p' == p[..|p'|]; }
  }

  ghost predicate PrefixFree(s: set<Path>) {
    forall p, q | p in s && q in s && p <= q :: p == q
  }

  function Text(p: Path): string {
    if p == [] then "" else if |p| == 1 then p[0] else p[0] + "/" + Text(p[1..])
  }

  /** `raw.split("/")` */
  function Split(raw: string): (parts: seq<string>)
    ensures |parts| >= 1
  {
    if raw == "" then [""]
    else if raw[0] == '/' then [""] + Split(raw[1..])
    else var rest := Split(raw[1..]); [[raw[0]] + rest[0]] + rest[1..]
  }

  lemma {:induction false} SplitJoined(a: string, b: string)
    requires '/' !in a
    ensures Split(a + "/" + b) == [a] + Split(b)
  {
    var s := a + "/" + b;
    if a == "" {
      assert s[1..] == b;
    } else {
      assert s[1..] == a[1..] + "/" + b;
      SplitJoined(a[1..], b);
      assert [a[0]] + a[1..] == a;
    }
  }

  lemma {:induction false} SplitName(a: string)
    requires '/' !in a
    ensures Split(a) == [a]
  {
    if a != "" {
      SplitName(a[1..]);
      assert [a[0]] + a[1..] == a;
    }
  }

  /** Joining and splitting are inverse on every path the index can hold. */
  lemma {:induction false} SplitText(p: Path)
    requires p != [] && HasNames(p)
    ensures Split(Text(p)) == p
  {
    if |p| == 1 {
      SplitName(p[0]);
    } else {
      SplitText(p[1..]);
      SplitJoined(p[0], Text(p[1..]));
    }
  }

  lemma TextInjective(p: Path, q: Path)
    requires HasNames(p) && HasNames(q) && Text(p) == Text(q)
    ensures p == q
  {
    if p != [] { SplitText(p); }
    if q != [] { SplitText(q); }
    if p != [] { assert IsName(p[0]); }
    if q != [] { assert IsName(q[0]); }
  }

  lemma {:induction false} TextAppend(p: Path, r: Path)
    requires p != [] && r != []
    ensures Text(p + r) == Text(p) + "/" + Text(r)
  {
    assert (p + r)[1..] == p[1..] + r;
    if |p| > 1 {
      TextAppend(p[1..], r);
    } else {
      assert (p + r)[1..] == r;
    }
  }

  lemma JoinAssociates(a: string, b: string, c: string)
    ensures (a + "/" + b) + "/" + c == a + "/" + (b + "/" + c)
  {
  }

  lemma {:induction false} SplitAppend(p: Path, t: string)
    requires p != [] && HasNames(p)
    ensures Split(Text(p) + "/" + t) == p + Split(t)
  {
    assert IsName(p[0]);
    if |p| == 1 {
      SplitJoined(p[0], t);
      assert p == [p[0]];
    } else {
      var below := Text(p[1..]) + "/" + t;
      SplitAppend(p[1..], t);
      SplitJoined(p[0], below);
      JoinAssociates(p[0], Text(p[1..]), t);
      assert p == [p[0]] + p[1..];
      assert [p[0]] + (p[1..] + Split(t)) == p + Split(t);
    }
  }

  /** The program's string test `path.startswith(tree + "/")` is the component-prefix test, and
      the slice after it is the text of the remaining components. */
  lemma StartsWithIsBelow(tree: Path, path: Path)
    requires tree != [] && HasNames(tree) && path != [] && HasNames(path)
    ensures Text(tree) + "/" <= Text(path) <==> tree < path
    ensures tree < path ==> Text(path)[|Text(tree)| + 1..] == Text(path[|tree|..])
  {
    if tree < path {
      var rest := path[|tree|..];
      assert path == tree + rest;
      TextAppend(tree, rest);
    }
    if Text(tree) + "/" <= Text(path) {
      var t := Text(path)[|Text(tree)| + 1..];
      assert Text(path) == Text(tree) + "/" + t;
      SplitText(path);
      SplitAppend(tree, t);
    }
  }

  predicate Leq(p: Path, q: Path) {
    Strings.Leq(Text(p), Text(q))
  }

  lemma LeqIsTotalOn(s: set<Path>)
    requires forall p | p in s :: HasNames(p)
    ensures TotalOn(s, Leq)
  {
    forall a, b | a in s && b in s ensures Leq(a, b) || Leq(b, a) { LeqTotal(Text(a), Text(b)); }
    forall a, b | a in s && b in s && Leq(a, b) && Leq(b, a) ensures a == b {
      LeqAntisymmetric(Text(a), Text(b));
      TextInjective(a, b);
    }
    forall a, b, c | a in s && b in s && c in s && Leq(a, b) && Leq(b, c) ensures Leq(a, c) {
      LeqTransitive(Text(a), Text(b), Text(c));
    }
  }

  /** `sorted(paths)`: by text, not by component. */
  function SortedPaths(s: set<Path>): (xs: seq<Path>)
    requires forall p | p in s :: HasNames(p)
    ensures Elements(xs) == s && |xs| == |s|
    ensures Ascending(xs, Leq)
  {
    LeqIsTotalOn(s);
    Sorted(s, Leq)
  }
}
