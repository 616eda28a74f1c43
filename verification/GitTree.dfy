/** A committed Git tree and the lexical resolution of its symbolic links. */
module GitTree {
  import opened Outcomes
  import opened Paths
  import opened TreeWalk
  import Utf8

  type Bytes = Utf8.Bytes


  const MAX_SYMLINK_TARGET_BYTES := 4096

  datatype Mode = File | Exec | Symlink

  datatype Entry = Entry(mode: Mode, oid: Oid)

  /** The committed index, the object store, and the library tables the program borrows. */
  datatype Repo = Repo(
    index: map<Path, Entry>,
    blobs: map<Oid, Bytes>,
    isAlpha: char -> bool,
    sha256: Bytes -> string)

  datatype LinkError =
    | MissingObject | TargetTooLarge | EmptyTarget | BadEncoding
    | Absolute | Invalid | EscapesRoot | Forbidden

  // ---------------------------------------------------------------- link text

  function DecodeLink(raw: Bytes): Result<string, LinkError> {
    if raw == [] then Err(EmptyTarget)
    else if 0 in raw then Err(BadEncoding)
    else match Utf8.Decode(raw)
      case None => Err(BadEncoding)
      case Some(text) => if '\n' in text || '\r' in text then Err(BadEncoding) else Ok(text)
  }

  /** Folding the target's parts onto the link's directory, one part at a time. */
  function Fold(base: Path, parts: seq<string>): (r: Result<Path, LinkError>)
    decreases |parts|
  {
    if parts == [] then Ok(base)
    else if parts[0] == "" || parts[0] == "." then Fold(base, parts[1..])
    else if parts[0] == ".." then
      if base == [] then Err(EscapesRoot) else Fold(base[..|base| - 1], parts[1..])
    else Fold(base + [parts[0]], parts[1..])
  }

  function Parent(p: Path): Path {
    if p == [] then [] else p[..|p| - 1]
  }

  function ResolveLink(repo: Repo, link: Path, raw: string): Result<Path, LinkError> {
    if raw != "" && (raw[0] == '/' || raw[0] == '\\') then Err(Absolute)
    else if |raw| >= 2 && raw[1] == ':' && repo.isAlpha(raw[0]) then Err(Absolute)
    else if raw == "" || raw == "." then Err(Invalid)
    else match Fold(Parent(link), Split(raw))
      case Err(e) => Err(e)
      case Ok(p) => if SafePath(p) then Ok(p) else Err(Forbidden)
  }

  function ReadBlob(repo: Repo, oid: Oid, maxBytes: int): Result<Bytes, LinkError> {
    if oid !in repo.blobs then Err(MissingObject)
    else if |repo.blobs[oid]| > maxBytes then Err(TargetTooLarge)
    else Ok(repo.blobs[oid])
  }

  /** The committed text of one symbolic link. */
  function RawLink(repo: Repo, link: Path): Result<string, LinkError>
    requires link in repo.index
  {
    match ReadBlob(repo, repo.index[link].oid, MAX_SYMLINK_TARGET_BYTES)
    case Err(e) => Err(e)
    case Ok(raw) => DecodeLink(raw)
  }

  /** Where one symbolic link points, read lexically from its committed text. */
  function LinkTarget(repo: Repo, link: Path): Result<Path, LinkError>
    requires link in repo.index
  {
    match RawLink(repo, link)
    case Err(e) => Err(e)
    case Ok(text) => ResolveLink(repo, link, text)
  }

  lemma {:induction false} FoldNames(base: Path, names: Path, parts: seq<string>)
    requires HasNames(names)
    ensures Fold(base, names + parts) == Fold(base + names, parts)
    decreases |names|
  {
    if names == [] {
      assert names + parts == parts && base + names == base;
    } else {
      assert IsName(names[0]);
      assert (names + parts)[1..] == names[1..] + parts;
      FoldNames(base + [names[0]], names[1..], parts);
      assert base + [names[0]] + names[1..] == base + names;
    }
  }

  /** The program's loop over the parts of directory and target together, from the root. */
  method ResolveLinkPath(repo: Repo, link: Path, raw: string) returns (r: Result<Path, LinkError>)
    requires HasNames(link)
    ensures r == ResolveLink(repo, link, raw)
  {
    hide Split, SafePath, IsName;
    if raw != "" && (raw[0] == '/' || raw[0] == '\\') { return Err(Absolute); }
    if |raw| >= 2 && raw[1] == ':' && repo.isAlpha(raw[0]) { return Err(Absolute); }
    if raw == "" || raw == "." { return Err(Invalid); }
    var base := Parent(link);
    var combined := base + Split(raw);
    FoldNames([], base, Split(raw));
    assert [] + base == base;
    var parts: Path := [];
    for i := 0 to |combined|
      invariant Fold([], combined) == Fold(parts, combined[i..])
    {
      var part := combined[i];
      assert combined[i..][1..] == combined[i + 1..];
      if part == "" || part == "." {
        continue;
      }
      if part == ".." {
        if parts == [] { return Err(EscapesRoot); }
        parts := parts[..|parts| - 1];
        continue;
      }
      parts := parts + [part];
    }
    r := if SafePath(parts) then Ok(parts) else Err(Forbidden);
  }

  method ReadLink(repo: Repo, link: Path) returns (r: Result<Path, LinkError>)
    requires WellFormedRepo(repo) && link in repo.index
    ensures r == LinkTarget(repo, link)
    ensures repo.index[link].mode == Symlink ==>
              Nodes(repo)[link] == Link(match r case Ok(t) => Some(t) case Err(_) => None)
  {
    var text := RawLink(repo, link);
    if text.Err? { return Err(text.error); }
    r := ResolveLinkPath(repo, link, text.value);
  }

  /** The depth of the walk below the root after each part never goes negative exactly when
      the fold succeeds. */
  function Depth(start: int, parts: seq<string>): int {
    if parts == [] then start
    else
      var last := parts[|parts| - 1];
      var before := Depth(start, parts[..|parts| - 1]);
      if last == "" || last == "." then before else if last == ".." then before - 1 else before + 1
  }

  lemma {:induction false} DepthStep(start: int, parts: seq<string>)
    requires parts != []
    ensures Depth(start, parts)
         == Depth(Depth(start, parts[..1]), parts[1..])
  {
    if |parts| == 1 {
      assert parts[..1] == parts && parts[1..] == [];
    } else {
      var init := parts[..|parts| - 1];
      DepthStep(start, init);
      assert init[..1] == parts[..1];
      assert parts[1..][..|parts| - 2] == init[1..];
    }
  }

  /** A link escapes the root exactly when some prefix of its parts climbs above it. */
  lemma {:induction false} EscapesIffDepthNegative(base: Path, parts: seq<string>)
    ensures Fold(base, parts).Err? <==> exists k :: 0 <= k <= |parts| && Depth(|base|, parts[..k]) < 0
    ensures Fold(base, parts).Ok? ==> |Fold(base, parts).value| == Depth(|base|, parts)
    ensures Fold(base, parts).Err? ==> Fold(base, parts).error == EscapesRoot
    decreases |parts|
  {
    if parts == [] {
      assert forall k | 0 <= k <= |parts| :: parts[..k] == [];
    } else {
      var rest := parts[1..];
      assert parts[..0] == [] && Depth(|base|, parts[..0]) == |base|;
      var next := Depth(|base|, parts[..1]);
      assert parts[..1][..0] == [] && parts[..1] == [parts[0]];
      assert next == if parts[0] == "" || parts[0] == "." then |base|
                     else if parts[0] == ".." then |base| - 1 else |base| + 1 by {
        assert Depth(|base|, []) == |base|;
      }
      DepthStep(|base|, parts);
      forall k | 1 <= k <= |parts|
        ensures Depth(|base|, parts[..k]) == Depth(next, rest[..k - 1])
      {
        DepthStep(|base|, parts[..k]);
        assert parts[..k][..1] == parts[..1] && parts[..k][1..] == rest[..k - 1];
      }
      if next < 0 {
        assert Depth(|base|, parts[..1]) < 0;
      } else {
        var moved := if parts[0] == "" || parts[0] == "." then base
                     else if parts[0] == ".." then base[..|base| - 1] else base + [parts[0]];
        EscapesIffDepthNegative(moved, rest);
        assert Fold(base, parts) == Fold(moved, rest);
        if exists k :: 0 <= k <= |rest| && Depth(next, rest[..k]) < 0 {
          var k :| 0 <= k <= |rest| && Depth(next, rest[..k]) < 0;
          assert Depth(|base|, parts[..k + 1]) == Depth(next, rest[..k + 1 - 1]);
        }
        if exists k :: 0 <= k <= |parts| && Depth(|base|, parts[..k]) < 0 {
          var k :| 0 <= k <= |parts| && Depth(|base|, parts[..k]) < 0;
          assert Depth(next, rest[..k - 1]) < 0;
        }
      }
    }
  }

  /** The committed tree as the reference walk sees it. */
  function Nodes(repo: Repo): Tree {
    map p | p in repo.index ::
      match repo.index[p].mode
      case File => Blob(repo.index[p].oid, false)
      case Exec => Blob(repo.index[p].oid, true)
      case Symlink => Link(match LinkTarget(repo, p) case Ok(t) => Some(t) case Err(_) => None)
  }

  ghost predicate WellFormedRepo(repo: Repo) {
    && (forall p | p in repo.index :: p != [] && SafePath(p))
    && PrefixFree(repo.index.Keys)
  }

  lemma NodesWellFormed(repo: Repo)
    requires WellFormedRepo(repo)
    ensures Nodes(repo).Keys == repo.index.Keys && WellFormed(Nodes(repo))
  {
  }

  /** What a committed path is, from the index and the directories its paths imply. */
  function CommittedKind(repo: Repo, p: Path): (k: Kind)
    ensures k == KindOf(Nodes(repo), p)
  {
    assert Nodes(repo).Keys == repo.index.Keys;
    if p in repo.index then
      match repo.index[p].mode
      case File => KBlob(repo.index[p].oid, false)
      case Exec => KBlob(repo.index[p].oid, true)
      case Symlink => KLink(Nodes(repo)[p].target)
    else if p == [] || exists q | q in repo.index :: p < q then KTree
    else KAbsent
  }
}
