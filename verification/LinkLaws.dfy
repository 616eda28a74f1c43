/** What a committed link means, told from its own place in the tree and the text of its blob. */
module LinkLaws {
  import opened Outcomes
  import opened Paths
  import opened TreeWalk
  import opened GitTree
  import opened SnapshotBuilder
  import Utf8

  // ---------------------------------------------------------------- the text of a link

  /** The link's text is one that may stand behind its directory: neither empty nor a bare dot, no leading slash or
      backslash, no drive letter. */
  predicate IsRelative(text: string, isAlpha: char -> bool) {
    text != "" && text != "." && text[0] !in {'/', '\\'} && !(|text| >= 2 && text[1] == ':' && isAlpha(text[0]))
  }

  predicate NoSlash(parts: seq<string>) {
    forall i | 0 <= i < |parts| :: '/' !in parts[i]
  }

  lemma {:induction false} SplitParts(parts: seq<string>)
    requires parts != [] && NoSlash(parts)
    ensures Split(Text(parts)) == parts
  {
    if |parts| == 1 {
      SplitName(parts[0]);
    } else {
      SplitParts(parts[1..]);
      SplitJoined(parts[0], Text(parts[1..]));
    }
  }

  // ---------------------------------------------------------------- forbidden paths

  /** From `i` to `j` stands one whole part of the text: a slash or an end on both sides and none within. */
  predicate PartIs(t: string, i: nat, j: nat, x: string) {
    i <= j <= |t| && (i == 0 || t[i - 1] == '/') && (j == |t| || t[j] == '/') && t[i..j] == x && '/' !in x
  }

  /** The program's text check: nothing in `.git`, and no part that is empty, a dot or two. The root is safe. */
  predicate SafeText(t: string) {
    || t == ""
    || (t != ".git" && !(".git/" <= t)
        && forall i, j | 0 <= i <= j <= |t| :: !PartIs(t, i, j, "") && !PartIs(t, i, j, ".") && !PartIs(t, i, j, ".."))
  }

  /** The parts of a text with a first part in front. */
  lemma PartBehind(a: string, b: string, i: nat, j: nat, x: string)
    requires '/' !in a
    ensures var n := |a| + 1;
            PartIs(a + "/" + b, i, j, x) <==> (i == 0 && j == |a| && x == a) || (i >= n && j >= n && PartIs(b, i - n, j - n, x))
  {
    var t, n := a + "/" + b, |a| + 1;
    assert t[|a|] == '/' && t[..|a|] == a;
    if n <= i <= j <= |t| { assert t[i..j] == b[i - n..j - n]; }
    if i <= |a| < j <= |t| { assert t[i..j][|a| - i] == '/'; }
  }

  lemma {:induction false} PartsAre(parts: seq<string>, x: string)
    requires parts != [] && NoSlash(parts)
    ensures x in parts <==> exists i: nat, j: nat :: PartIs(Text(parts), i, j, x)
  {
    hide Text, PartIs;
    if |parts| == 1 {
      OnePart(parts, x);
    } else {
      var a, b, n := parts[0], Text(parts[1..]), |parts[0]| + 1;
      FirstPart(parts);
      PartsAre(parts[1..], x);
      assert x in parts <==> x == a || x in parts[1..];
      PartBehind(a, b, 0, |a|, x);
      if i: nat, j: nat :| PartIs(b, i, j, x) { PartBehind(a, b, i + n, j + n, x); }
      if i: nat, j: nat :| PartIs(Text(parts), i, j, x) { PartBehind(a, b, i, j, x); }
    }
  }

  lemma OnePart(parts: seq<string>, x: string)
    requires |parts| == 1 && NoSlash(parts)
    ensures x in parts <==> exists i: nat, j: nat :: PartIs(Text(parts), i, j, x)
  {
    var t := parts[0];
    assert parts == [t] && Text(parts) == t && t[0..|t|] == t;
    if x in parts { assert PartIs(Text(parts), 0, |t|, x); }
    forall i: nat, j: nat | PartIs(Text(parts), i, j, x) ensures x in parts { WholePart(t, i, j, x); }
  }

  lemma WholePart(t: string, i: nat, j: nat, x: string)
    requires '/' !in t && PartIs(t, i, j, x)
    ensures x == t
  {
    assert i == 0 && j == |t| && t[0..|t|] == t;
  }

  lemma FirstPart(parts: seq<string>)
    requires |parts| > 1
    ensures Text(parts) == parts[0] + "/" + Text(parts[1..])
  {
  }

  lemma FirstSlash(a: string, b: string)
    requires '/' !in a
    ensures ".git/" <= a + "/" + b <==> a == ".git"
  {
    var t := a + "/" + b;
    assert t[|a|] == '/' && forall k | 0 <= k < |a| :: t[k] == a[k];
    if ".git/" <= t {
      assert t[4] == '/' && forall k | 0 <= k < 4 :: t[k] == ".git/"[k] != '/';
      assert |a| == 4 && a == t[..4];
    }
    if a == ".git" { assert t[..5] == ".git/"; }
  }

  lemma GitFirst(parts: seq<string>)
    requires parts != [] && NoSlash(parts)
    ensures parts[0] == ".git" <==> Text(parts) == ".git" || ".git/" <= Text(parts)
  {
    var a := parts[0];
    if |parts| > 1 {
      FirstSlash(a, Text(parts[1..]));
      assert Text(parts)[|a|] == '/' && '/' !in ".git";
    } else {
      assert ".git/"[4] == '/';
      assert ".git/" <= a ==> a[4] == '/';
    }
  }

  /** The test on components is the program's test on the text. */
  lemma SafePathIff(parts: seq<string>)
    requires NoSlash(parts) && parts != [""]
    ensures SafePath(parts) <==> SafeText(Text(parts))
  {
    hide Text, PartIs;
    TextOfNothing(parts);
    if parts != [] {
      GitFirst(parts);
      PartsAre(parts, "");
      PartsAre(parts, ".");
      PartsAre(parts, "..");
      var t := Text(parts);
      forall i: nat, j: nat, x | PartIs(t, i, j, x) ensures i <= j <= |t| { PartInside(t, i, j, x); }
      assert HasNames(parts) <==> "" !in parts && "." !in parts && ".." !in parts;
    }
  }

  lemma PartInside(t: string, i: nat, j: nat, x: string)
    requires PartIs(t, i, j, x)
    ensures i <= j <= |t|
  {
  }

  lemma TextOfNothing(parts: seq<string>)
    requires parts != [""]
    ensures Text(parts) == "" <==> parts == []
  {
  }

  lemma ResolveParts(repo: Repo, link: Path, parts: seq<string>)
    requires link != [] && parts != [] && NoSlash(parts) && IsRelative(Text(parts), repo.isAlpha)
    ensures ResolveLink(repo, link, Text(parts)) ==
            match Fold(link[..|link| - 1], parts)
            case Err(e) => Err(e)
            case Ok(p) => if SafePath(p) then Ok(p) else Err(Forbidden)
  {
    hide Split, Fold, SafePath, Text;
    SplitParts(parts);
  }

  // ---------------------------------------------------------------- where it points

  function Ups(k: nat): seq<string> { seq(k, _ => "..") }

  lemma {:induction false} FoldUps(base: Path, k: nat, rest: seq<string>)
    ensures k <= |base| ==> Fold(base, Ups(k) + rest) == Fold(base[..|base| - k], rest)
    ensures k > |base| ==> Fold(base, Ups(k) + rest) == Err(EscapesRoot)
    decreases k
  {
    if k == 0 {
      assert Ups(0) + rest == rest && base[..|base|] == base;
    } else {
      assert (Ups(k) + rest)[0] == ".." && (Ups(k) + rest)[1..] == Ups(k - 1) + rest;
      if base != [] {
        FoldUps(base[..|base| - 1], k - 1, rest);
        if k <= |base| { assert base[..|base| - 1][..|base| - k] == base[..|base| - k]; }
      }
    }
  }

  lemma UpsNoSlash(k: nat, names: Path)
    requires HasNames(names)
    ensures NoSlash(Ups(k) + names)
  {
    forall i | 0 <= i < k + |names| ensures '/' !in (Ups(k) + names)[i] {
      if i >= k { assert IsName(names[i - k]); }
    }
  }

  /** A link's text of so many parents and then names is read from the directory that the link is in: each parent drops
      its last component, and the names follow. */
  lemma RelativeTarget(repo: Repo, dir: Path, name: Name, k: nat, names: Path)
    requires HasNames(names) && k + |names| > 0 && IsRelative(Text(Ups(k) + names), repo.isAlpha)
    ensures ResolveLink(repo, dir + [name], Text(Ups(k) + names)) ==
            if k > |dir| then Err(EscapesRoot)
            else if SafePath(dir[..|dir| - k] + names) then Ok(dir[..|dir| - k] + names)
            else Err(Forbidden)
  {
    hide Fold, SafePath, Text, IsName, ResolveLink;
    UpsNoSlash(k, names);
    ResolveParts(repo, dir + [name], Ups(k) + names);
    assert (dir + [name])[..|dir + [name]| - 1] == dir;
    FoldUps(dir, k, names);
    if k <= |dir| {
      FoldNames(dir[..|dir| - k], names, []);
      assert names + [] == names;
      FoldNothing(dir[..|dir| - k] + names);
    }
  }

  lemma FoldNothing(base: Path)
    ensures Fold(base, []) == Ok(base)
  {
  }

  lemma {:induction false} FoldJoins(base: Path, a: seq<string>, b: seq<string>)
    ensures Fold(base, a + b) == match Fold(base, a) case Err(e) => Err(e) case Ok(p) => Fold(p, b)
    decreases |a|
  {
    if a == [] {
      assert a + b == b;
    } else {
      assert (a + b)[1..] == a[1..] + b && (a + b)[0] == a[0];
      var moved := if a[0] == "" || a[0] == "." then base
                   else if a[0] == ".." && base != [] then base[..|base| - 1] else base + [a[0]];
      FoldJoins(moved, a[1..], b);
    }
  }

  /** A dot or an empty part anywhere in the text makes no difference. */
  lemma EmptyPartsVanish(repo: Repo, link: Path, a: seq<string>, x: string, b: seq<string>)
    requires link != [] && (x == "" || x == ".") && NoSlash(a) && NoSlash(b) && a + b != []
    requires IsRelative(Text(a + [x] + b), repo.isAlpha) && IsRelative(Text(a + b), repo.isAlpha)
    ensures ResolveLink(repo, link, Text(a + [x] + b)) == ResolveLink(repo, link, Text(a + b))
  {
    hide Fold, SafePath, Text, ResolveLink;
    var base := link[..|link| - 1];
    ResolveParts(repo, link, a + [x] + b);
    ResolveParts(repo, link, a + b);
    assert a + [x] + b == a + ([x] + b);
    FoldJoins(base, a, [x] + b);
    FoldJoins(base, a, b);
    if Fold(base, a).Ok? { FoldEmptyPart(Fold(base, a).value, x, b); }
  }

  lemma FoldEmptyPart(base: Path, x: string, b: seq<string>)
    requires x == "" || x == "."
    ensures Fold(base, [x] + b) == Fold(base, b)
  {
    assert ([x] + b)[1..] == b;
  }

  lemma ParentUndoesName(repo: Repo, link: Path, a: seq<string>, n: Name, b: seq<string>)
    requires link != [] && IsName(n) && NoSlash(a) && NoSlash(b) && a + b != []
    requires IsRelative(Text(a + [n, ".."] + b), repo.isAlpha) && IsRelative(Text(a + b), repo.isAlpha)
    ensures ResolveLink(repo, link, Text(a + [n, ".."] + b)) == ResolveLink(repo, link, Text(a + b))
  {
    hide Fold, SafePath, Text, ResolveLink;
    var base := link[..|link| - 1];
    ResolveParts(repo, link, a + [n, ".."] + b);
    ResolveParts(repo, link, a + b);
    assert a + [n, ".."] + b == a + ([n, ".."] + b);
    FoldJoins(base, a, [n, ".."] + b);
    FoldJoins(base, a, b);
    if Fold(base, a).Ok? { FoldThereAndBack(Fold(base, a).value, n, b); }
  }

  lemma FoldThereAndBack(base: Path, n: Name, b: seq<string>)
    requires IsName(n)
    ensures Fold(base, [n, ".."] + b) == Fold(base, b)
  {
    var parts := [n, ".."] + b;
    assert parts[1..] == [".."] + b && parts[1..][1..] == b;
    assert (base + [n])[..|base|] == base;
  }

  /** No other text resolves: an absolute one, a bare dot and an empty one are refused. */
  lemma OnlyRelativeResolves(repo: Repo, link: Path, text: string)
    requires !IsRelative(text, repo.isAlpha)
    ensures ResolveLink(repo, link, text) == Err(if text == "" || text == "." then Invalid else Absolute)
  {
  }

  // ---------------------------------------------------------------- in the committed tree

  predicate IsLinkText(text: string) {
    text != "" && '\n' !in text && '\r' !in text && (0 as char) !in text
  }

  /** A link reads as a text exactly when its blob is there, is the text's UTF-8 within 4,096 bytes, and the text is
      not empty and has no NUL and no line break. */
  lemma ReadsAsIff(repo: Repo, link: Path, text: string)
    requires link in repo.index
    ensures RawLink(repo, link) == Ok(text) <==>
            && repo.index[link].oid in repo.blobs && repo.blobs[repo.index[link].oid] == Utf8.Encode(text)
            && |Utf8.Encode(text)| <= 4096 && IsLinkText(text)
  {
    hide Utf8.Decode, Utf8.Encode;
    if repo.index[link].oid in repo.blobs {
      var raw := repo.blobs[repo.index[link].oid];
      Utf8.DecodeIff(raw, text);
      Utf8.ZeroBytes(text);
      Utf8.EmptyBytes(text);
      if raw == Utf8.Encode(text) { Utf8.DecodeEncode(text); }
    }
  }

  lemma LinkNode(repo: Repo, link: Path, text: string, target: Path)
    requires link in repo.index && repo.index[link].mode == Symlink
    requires RawLink(repo, link) == Ok(text) && ResolveLink(repo, link, text) == Ok(target)
    ensures Nodes(repo)[link] == Link(Some(target))
  {
    hide RawLink, ResolveLink;
  }

  /** A plain committed file is its own object, executable when its mode says so. */
  lemma FileNode(repo: Repo, p: Path)
    requires p in repo.index && repo.index[p].mode != Symlink
    ensures Nodes(repo)[p] == Blob(repo.index[p].oid, repo.index[p].mode == Exec)
  {
    hide LinkTarget;
  }

  /** In a finished snapshot a link holds the bytes of the file that its text names from its own directory. */
  lemma SnapshotReadsLink(repo: Repo, s: RepositorySnapshot, dir: Path, name: Name, k: nat, names: Path)
    requires WellFormedRepo(repo) && Exact(repo, s) && k <= |dir| && names != []
    requires var link := dir + [name];
             link in repo.index && repo.index[link].mode == Symlink && RawLink(repo, link) == Ok(Text(Ups(k) + names))
    requires HasNames(names) && IsRelative(Text(Ups(k) + names), repo.isAlpha)
    requires var target := dir[..|dir| - k] + names; target in repo.index && repo.index[target].mode != Symlink
    ensures var link, oid := dir + [name], repo.index[dir[..|dir| - k] + names].oid;
            oid in repo.blobs && link in s.blobByPath && s.blobByPath[link] == repo.blobs[oid]
  {
    hide RawLink, ResolveLink, Nodes, Text, Exact, PrefixFree, SafePath, Follow;
    var link, target := dir + [name], dir[..|dir| - k] + names;
    assert SafePath(target);
    RelativeTarget(repo, dir, name, k, names);
    LinkNode(repo, link, Text(Ups(k) + names), target);
    FileNode(repo, target);
    NodesPrefixFree(repo);
    FollowLink(Nodes(repo), link, [], 1);
    NothingBelowBlob(Nodes(repo), target, [], 0);
    assert link + [] == link && target + [] == target;
    assert LeadsTo(Nodes(repo), link, repo.index[target].oid);
    ExactAt(repo, s, link, repo.index[target].oid);
  }

  lemma ExactAt(repo: Repo, s: RepositorySnapshot, q: Path, oid: Oid)
    requires WellFormedRepo(repo) && Exact(repo, s) && LeadsTo(Nodes(repo), q, oid)
    ensures oid in repo.blobs && q in s.blobByPath && s.blobByPath[q] == repo.blobs[oid]
  {
    hide LeadsTo, Nodes;
  }
}
