/** The manifest order: the builder's recursion over paths and the verifiers' walk over a directory. */
module Manifest {
  import opened Outcomes
  import opened Sorting
  import S = Strings
  import opened Paths

  // ---------------------------------------------------------------- the order itself

  /** At each level plain files come first, by name; then directories by name. */
  predicate WalkLeq(p: Path, q: Path) {
    if p == [] || q == [] then p == []
    else if |p| == 1 && |q| == 1 then S.Leq(p[0], q[0])
    else if |p| == 1 then true
    else if |q| == 1 then false
    else if p[0] == q[0] then WalkLeq(p[1..], q[1..])
    else S.Leq(p[0], q[0])
  }

  lemma {:induction false} WalkTotal(p: Path, q: Path)
    ensures WalkLeq(p, q) || WalkLeq(q, p)
  {
    if p != [] && q != [] {
      S.LeqTotal(p[0], q[0]);
      if |p| > 1 && |q| > 1 { WalkTotal(p[1..], q[1..]); }
    }
  }

  lemma {:induction false} WalkAntisymmetric(p: Path, q: Path)
    requires WalkLeq(p, q) && WalkLeq(q, p)
    ensures p == q
  {
    if p != [] && q != [] {
      assert p == [p[0]] + p[1..] && q == [q[0]] + q[1..];
      if |p| == 1 && |q| == 1 {
        S.LeqAntisymmetric(p[0], q[0]);
      } else if p[0] == q[0] {
        WalkAntisymmetric(p[1..], q[1..]);
      } else {
        S.LeqAntisymmetric(p[0], q[0]);
      }
    }
  }

  lemma {:induction false} WalkTransitive(p: Path, q: Path, r: Path)
    requires WalkLeq(p, q) && WalkLeq(q, r)
    ensures WalkLeq(p, r)
  {
    if p != [] && q != [] && r != [] {
      if |p| > 1 && |q| > 1 && |r| > 1 {
        if p[0] == q[0] && q[0] == r[0] {
          WalkTransitive(p[1..], q[1..], r[1..]);
        } else if p[0] != q[0] && q[0] != r[0] {
          S.LeqTransitive(p[0], q[0], r[0]);
          if p[0] == r[0] { S.LeqAntisymmetric(p[0], q[0]); }
        }
      } else if |p| == 1 && |q| == 1 && |r| == 1 {
        S.LeqTransitive(p[0], q[0], r[0]);
      }
    }
  }

  lemma WalkIsTotalOn(s: set<Path>)
    ensures TotalOn(s, WalkLeq)
  {
    forall a, b | a in s && b in s ensures WalkLeq(a, b) || WalkLeq(b, a) { WalkTotal(a, b); }
    forall a, b | a in s && b in s && WalkLeq(a, b) && WalkLeq(b, a) ensures a == b { WalkAntisymmetric(a, b); }
    forall a, b, c | a in s && b in s && c in s && WalkLeq(a, b) && WalkLeq(b, c) ensures WalkLeq(a, c) {
      WalkTransitive(a, b, c);
    }
  }

  lemma {:induction false} WalkUnderPrefix(prefix: Path, x: Path, y: Path)
    requires x != [] && y != []
    ensures WalkLeq(prefix + x, prefix + y) == WalkLeq(x, y)
  {
    if prefix == [] {
      assert prefix + x == x && prefix + y == y;
    } else {
      assert (prefix + x)[1..] == prefix[1..] + x && (prefix + y)[1..] == prefix[1..] + y;
      WalkUnderPrefix(prefix[1..], x, y);
    }
  }

  // ---------------------------------------------------------------- pieces in order

  /** `xs` lists exactly the paths of `s`, once each, in walk order. */
  ghost predicate Lists(xs: seq<Path>, s: set<Path>) {
    Elements(xs) == s && Ascending(xs, WalkLeq)
  }

  lemma ListsTogether(xs: seq<Path>, s: set<Path>, ys: seq<Path>, t: set<Path>)
    requires Lists(xs, s) && Lists(ys, t)
    requires forall a, b | a in s && b in t :: a != b && WalkLeq(a, b)
    ensures Lists(xs + ys, s + t)
  {
    var all := xs + ys;
    forall i, j | 0 <= i < j < |all|
      ensures WalkLeq(all[i], all[j]) && all[i] != all[j]
    {
      if i < |xs| <= j { assert all[i] in Elements(xs) && all[j] in Elements(ys); }
    }
    forall x | x in s + t ensures x in all {
      assert x in Elements(xs) || x in Elements(ys);
    }
  }

  /** The order decides the listing. */
  lemma ListsUnique(xs: seq<Path>, ys: seq<Path>, s: set<Path>)
    requires Lists(xs, s) && Lists(ys, s)
    ensures xs == ys
  {
    WalkIsTotalOn(s);
    SortedIsUnique(xs, ys, WalkLeq);
  }

  function FilesAt(prefix: Path, names: seq<Name>): (r: seq<Path>)
    ensures |r| == |names| && forall i | 0 <= i < |r| :: r[i] == prefix + [names[i]]
  {
    seq(|names|, i requires 0 <= i < |names| => prefix + [names[i]])
  }

  lemma FilesAtLists(prefix: Path, names: seq<Name>)
    requires Ascending(names, S.Leq)
    ensures Lists(FilesAt(prefix, names), set n | n in names :: prefix + [n])
  {
    var xs := FilesAt(prefix, names);
    forall i, j | 0 <= i < j < |xs|
      ensures WalkLeq(xs[i], xs[j]) && xs[i] != xs[j]
    {
      WalkUnderPrefix(prefix, [names[i]], [names[j]]);
      assert xs[i][|prefix|] == names[i] && xs[j][|prefix|] == names[j];
    }
    forall n | n in names ensures prefix + [n] in xs {
      var i :| 0 <= i < |names| && names[i] == n;
      assert xs[i] == prefix + [n];
    }
  }

  // ---------------------------------------------------------------- the builder's recursion

  ghost function MaxLength(s: set<Path>): (n: nat)
    ensures forall p | p in s :: |p| <= n
  {
    if s == {} then 0 else
      var p :| p in s;
      var rest := MaxLength(s - {p});
      assert forall q | q in s :: q == p || q in s - {p};
      if |p| <= rest then rest else |p|
  }

  function FileNames(paths: set<Path>, prefix: Path): set<Name> {
    set p | p in paths && prefix < p && |p| == |prefix| + 1 :: p[|prefix|]
  }

  function DirectoryNames(paths: set<Path>, prefix: Path): set<Name> {
    set p | p in paths && prefix < p && |p| > |prefix| + 1 :: p[|prefix|]
  }

  function ManifestPathOrder(paths: set<Path>, prefix: Path): seq<Path>
    decreases MaxLength(paths) - |prefix|, 1, 0
  {
    var files := S.SortedStrings(FileNames(paths, prefix));
    var dirs := S.SortedStrings(DirectoryNames(paths, prefix));
    assert forall d | d in dirs :: d in Elements(dirs);
    FilesAt(prefix, files) + ChildOrders(paths, prefix, dirs)
  }

  function ChildOrders(paths: set<Path>, prefix: Path, dirs: seq<Name>): seq<Path>
    requires forall d | d in dirs :: d in DirectoryNames(paths, prefix)
    decreases MaxLength(paths) - |prefix|, 0, |dirs|
  {
    if dirs == [] then []
    else
      assert dirs[0] in dirs && dirs[0] in DirectoryNames(paths, prefix);
      assert exists p | p in paths :: |p| > |prefix| + 1;
      ManifestPathOrder(paths, prefix + [dirs[0]]) + ChildOrders(paths, prefix, dirs[1..])
  }

  ghost function Below(paths: set<Path>, prefix: Path): set<Path> {
    set p | p in paths && prefix < p
  }

  ghost function BelowAny(paths: set<Path>, prefix: Path, dirs: seq<Name>): set<Path> {
    set p | p in paths && prefix < p && |p| > |prefix| + 1 && p[|prefix|] in dirs
  }

  lemma BelowNamed(paths: set<Path>, prefix: Path, d: Name, p: Path)
    requires p in Below(paths, prefix + [d])
    ensures prefix < p && |p| > |prefix| + 1 && p[|prefix|] == d
  {
    assert p[..|prefix| + 1] == prefix + [d];
  }

  lemma NamedBelow(paths: set<Path>, prefix: Path, p: Path)
    requires p in paths && prefix < p && |p| > |prefix| + 1
    ensures p in Below(paths, prefix + [p[|prefix|]])
  {
    assert p[..|prefix| + 1] == prefix + [p[|prefix|]];
  }

  lemma DeeperOrder(prefix: Path, a: Path, b: Path)
    requires prefix < a && prefix < b && |a| > |prefix| + 1 && |b| > |prefix| + 1
    requires a[|prefix|] != b[|prefix|] && S.Leq(a[|prefix|], b[|prefix|])
    ensures WalkLeq(a, b) && a != b
  {
    var x, y := a[|prefix|..], b[|prefix|..];
    assert a == prefix + x && b == prefix + y;
    WalkUnderPrefix(prefix, x, y);
  }

  lemma FileBeforeDeeper(prefix: Path, n: Name, b: Path)
    requires prefix < b && |b| > |prefix| + 1
    ensures WalkLeq(prefix + [n], b) && prefix + [n] != b
  {
    var y := b[|prefix|..];
    assert b == prefix + y;
    WalkUnderPrefix(prefix, [n], y);
  }

  /** The builder lists every path below the prefix, once, in walk order. */
  lemma {:induction false} ManifestLists(paths: set<Path>, prefix: Path)
    ensures Lists(ManifestPathOrder(paths, prefix), Below(paths, prefix))
    decreases MaxLength(paths) - |prefix|, 1, 0
  {
    var names, dirNames := FileNames(paths, prefix), DirectoryNames(paths, prefix);
    var files, dirs := S.SortedStrings(names), S.SortedStrings(dirNames);
    assert forall d | d in dirs :: d in Elements(dirs);
    assert forall d | d in dirNames :: d in Elements(dirs);
    FilesAtLists(prefix, files);
    ChildrenList(paths, prefix, dirs);
    var here := set n | n in files :: prefix + [n];
    var deeper := BelowAny(paths, prefix, dirs);
    forall a, b | a in here && b in deeper ensures a != b && WalkLeq(a, b) {
      var n :| n in files && a == prefix + [n];
      FileBeforeDeeper(prefix, n, b);
    }
    ListsTogether(FilesAt(prefix, files), here, ChildOrders(paths, prefix, dirs), deeper);
    assert here + deeper == Below(paths, prefix) by { LevelsCover(paths, prefix, files, dirs); }
  }

  lemma LevelsCover(paths: set<Path>, prefix: Path, files: seq<Name>, dirs: seq<Name>)
    requires Elements(files) == FileNames(paths, prefix) && Elements(dirs) == DirectoryNames(paths, prefix)
    ensures (set n | n in files :: prefix + [n]) + BelowAny(paths, prefix, dirs) == Below(paths, prefix)
  {
    var here := set n | n in files :: prefix + [n];
    forall p | p in Below(paths, prefix) ensures p in here + BelowAny(paths, prefix, dirs) {
      if |p| == |prefix| + 1 {
        assert p[|prefix|] in Elements(files);
        assert p == prefix + [p[|prefix|]];
      } else {
        assert p[|prefix|] in Elements(dirs);
      }
    }
    forall a | a in here ensures a in Below(paths, prefix) {
      var n :| n in files && a == prefix + [n];
      assert n in Elements(files);
      var p :| p in paths && prefix < p && |p| == |prefix| + 1 && p[|prefix|] == n;
      assert p == prefix + [n];
    }
  }

  lemma {:induction false} ChildrenList(paths: set<Path>, prefix: Path, dirs: seq<Name>)
    requires forall d | d in dirs :: d in DirectoryNames(paths, prefix)
    requires Ascending(dirs, S.Leq)
    ensures Lists(ChildOrders(paths, prefix, dirs), BelowAny(paths, prefix, dirs))
    decreases MaxLength(paths) - |prefix|, 0, |dirs|
  {
    if dirs == [] {
      assert BelowAny(paths, prefix, dirs) == {};
    } else {
      var d, rest := dirs[0], dirs[1..];
      assert d in dirs;
      ManifestLists(paths, prefix + [d]);
      ChildrenList(paths, prefix, rest);
      forall a, b | a in Below(paths, prefix + [d]) && b in BelowAny(paths, prefix, rest)
        ensures a != b && WalkLeq(a, b)
      {
        BelowNamed(paths, prefix, d, a);
        var k :| 0 <= k < |rest| && rest[k] == b[|prefix|];
        assert dirs[k + 1] == rest[k];
        DeeperOrder(prefix, a, b);
      }
      ListsTogether(ManifestPathOrder(paths, prefix + [d]), Below(paths, prefix + [d]),
                    ChildOrders(paths, prefix, rest), BelowAny(paths, prefix, rest));
      forall p ensures p in BelowAny(paths, prefix, dirs) <==>
                       p in Below(paths, prefix + [d]) + BelowAny(paths, prefix, rest)
      {
        if p in Below(paths, prefix + [d]) { BelowNamed(paths, prefix, d, p); }
        if p in BelowAny(paths, prefix, dirs) { NamedBelow(paths, prefix, p); }
      }
    }
  }

  // ---------------------------------------------------------------- the verifiers' walk

  datatype FileInfo = FileInfo(bytes: nat, sha256: string)

  /** A directory on disk holding regular files and directories. */
  datatype Directory = Directory(files: map<Name, FileInfo>, dirs: map<Name, Directory>)

  datatype Row = Row(path: Path, info: FileInfo)

  /** Every file below a directory, by its path. */
  ghost function FilesOf(dir: Directory, base: Path): set<Path>
    decreases dir
  {
    (set n | n in dir.files :: base + [n])
    + (set d, p | d in dir.dirs && p in FilesOf(dir.dirs[d], base + [d]) :: p)
  }

  /** The file found by descending along a relative path. */
  function InfoAt(dir: Directory, rel: Path): Option<FileInfo>
    decreases dir
  {
    if rel == [] then None
    else if |rel| == 1 then if rel[0] in dir.files then Some(dir.files[rel[0]]) else None
    else if rel[0] in dir.dirs then InfoAt(dir.dirs[rel[0]], rel[1..])
    else None
  }

  function FileRows(dir: Directory, base: Path, names: seq<Name>): (r: seq<Row>)
    requires forall n | n in names :: n in dir.files
    ensures |r| == |names|
    ensures forall i | 0 <= i < |r| :: r[i] == Row(base + [names[i]], dir.files[names[i]])
  {
    seq(|names|, i requires 0 <= i < |names| => Row(base + [names[i]], dir.files[names[i]]))
  }

  /** The sorted top-down walk: this directory's files by name, then each directory by name. */
  function WalkRows(dir: Directory, base: Path): seq<Row>
    decreases dir, 1, 0
  {
    var files, dirs := S.SortedStrings(dir.files.Keys), S.SortedStrings(dir.dirs.Keys);
    assert forall n | n in files :: n in Elements(files);
    assert forall d | d in dirs :: d in Elements(dirs);
    FileRows(dir, base, files) + ChildRows(dir, base, dirs)
  }

  function ChildRows(dir: Directory, base: Path, names: seq<Name>): seq<Row>
    requires forall d | d in names :: d in dir.dirs
    decreases dir, 0, |names|
  {
    if names == [] then []
    else
      assert names[0] in names;
      WalkRows(dir.dirs[names[0]], base + [names[0]]) + ChildRows(dir, base, names[1..])
  }

  function PathsOf(rows: seq<Row>): (r: seq<Path>)
    ensures |r| == |rows| && forall i | 0 <= i < |r| :: r[i] == rows[i].path
  {
    seq(|rows|, i requires 0 <= i < |rows| => rows[i].path)
  }

  ghost function FilesUnder(dir: Directory, base: Path, names: seq<Name>): set<Path>
    requires forall d | d in names :: d in dir.dirs
  {
    set d, p | d in names && p in FilesOf(dir.dirs[d], base + [d]) :: p
  }

  lemma StepInto(base: Path, d: Name, p: Path)
    requires base + [d] < p
    ensures base < p && |p| > |base| + 1 && p[|base|] == d
    ensures p[|base|..] == [d] + p[|base + [d]|..]
    ensures p[|base|..][0] == d && p[|base|..][1..] == p[|base + [d]|..]
  {
    assert p[..|base| + 1] == base + [d];
  }

  lemma {:induction false} FilesOfBelow(dir: Directory, base: Path, p: Path)
    requires p in FilesOf(dir, base)
    ensures base < p
    ensures InfoAt(dir, p[|base|..]).Some?
    decreases dir
  {
    if exists n | n in dir.files :: p == base + [n] {
      var n :| n in dir.files && p == base + [n];
      assert p[|base|..] == [n];
    } else {
      var d :| d in dir.dirs && p in FilesOf(dir.dirs[d], base + [d]);
      FilesOfBelow(dir.dirs[d], base + [d], p);
      StepInto(base, d, p);
    }
  }

  lemma PathsOfAppend(a: seq<Row>, b: seq<Row>)
    ensures PathsOf(a + b) == PathsOf(a) + PathsOf(b)
  {
  }

  lemma HereBeforeDeeper(dir: Directory, base: Path, names: seq<Name>, n: Name, b: Path)
    requires forall d | d in names :: d in dir.dirs
    requires b in FilesUnder(dir, base, names)
    ensures base + [n] != b && WalkLeq(base + [n], b)
  {
    var d :| d in names && b in FilesOf(dir.dirs[d], base + [d]);
    FilesOfBelow(dir.dirs[d], base + [d], b);
    StepInto(base, d, b);
    FileBeforeDeeper(base, n, b);
  }

  lemma SiblingOrder(dir: Directory, base: Path, names: seq<Name>, a: Path, b: Path)
    requires |names| > 0 && (forall d | d in names :: d in dir.dirs) && Ascending(names, S.Leq)
    requires names[0] in names && a in FilesOf(dir.dirs[names[0]], base + [names[0]])
    requires (forall d | d in names[1..] :: d in dir.dirs) && b in FilesUnder(dir, base, names[1..])
    ensures a != b && WalkLeq(a, b)
  {
    hide FilesOf, WalkLeq;
    var d, rest := names[0], names[1..];
    var e :| e in rest && b in FilesOf(dir.dirs[e], base + [e]);
    FilesOfBelow(dir.dirs[d], base + [d], a);
    FilesOfBelow(dir.dirs[e], base + [e], b);
    StepInto(base, d, a);
    StepInto(base, e, b);
    var k :| 0 <= k < |rest| && rest[k] == e;
    assert names[k + 1] == e;
    DeeperOrder(base, a, b);
  }

  lemma LevelsOfDirectory(dir: Directory, base: Path, files: seq<Name>, dirs: seq<Name>)
    requires Elements(files) == dir.files.Keys && Elements(dirs) == dir.dirs.Keys
    ensures (forall n | n in files :: n in dir.files) && (forall d | d in dirs :: d in dir.dirs)
    ensures (set n | n in files :: base + [n]) + FilesUnder(dir, base, dirs) == FilesOf(dir, base)
  {
    assert forall n | n in files :: n in Elements(files);
    assert forall d | d in dirs :: d in Elements(dirs);
    assert forall n | n in dir.files :: n in Elements(files);
    assert forall d | d in dir.dirs :: d in Elements(dirs);
  }

  /** The walk lists every file below the directory, once, in walk order. */
  lemma {:induction false} WalkLists(dir: Directory, base: Path)
    ensures Lists(PathsOf(WalkRows(dir, base)), FilesOf(dir, base))
    decreases dir, 1, 0
  {
    hide WalkLeq, S.SortedStrings, S.Leq, Lists, FilesOf, FilesUnder, ChildRows, PathsOf, FilesAt, FileRows;
    var files, dirs := S.SortedStrings(dir.files.Keys), S.SortedStrings(dir.dirs.Keys);
    LevelsOfDirectory(dir, base, files, dirs);
    var here, deeper := (set n | n in files :: base + [n]), FilesUnder(dir, base, dirs);
    FilesAtLists(base, files);
    ChildRowsList(dir, base, dirs);
    AllHereBeforeDeeper(dir, base, here, dirs);
    ListsTogether(FilesAt(base, files), here, PathsOf(ChildRows(dir, base, dirs)), deeper);
    PathsOfAppend(FileRows(dir, base, files), ChildRows(dir, base, dirs));
    PathsOfFileRows(dir, base, files);
  }

  lemma PathsOfFileRows(dir: Directory, base: Path, names: seq<Name>)
    requires forall n | n in names :: n in dir.files
    ensures PathsOf(FileRows(dir, base, names)) == FilesAt(base, names)
  {
    var paths := PathsOf(FileRows(dir, base, names));
    assert forall i | 0 <= i < |paths| :: paths[i] == FilesAt(base, names)[i];
  }

  lemma AllHereBeforeDeeper(dir: Directory, base: Path, here: set<Path>, dirs: seq<Name>)
    requires forall d | d in dirs :: d in dir.dirs
    requires forall a | a in here :: exists n :: a == base + [n]
    ensures forall a, b | a in here && b in FilesUnder(dir, base, dirs) :: a != b && WalkLeq(a, b)
  {
    hide WalkLeq, FilesUnder;
    forall a, b | a in here && b in FilesUnder(dir, base, dirs) ensures a != b && WalkLeq(a, b) {
      var n :| a == base + [n];
      HereBeforeDeeper(dir, base, dirs, n, b);
    }
  }

  lemma {:induction false} ChildRowsList(dir: Directory, base: Path, names: seq<Name>)
    requires forall d | d in names :: d in dir.dirs
    requires Ascending(names, S.Leq)
    ensures Lists(PathsOf(ChildRows(dir, base, names)), FilesUnder(dir, base, names))
    decreases dir, 0, |names|
  {
    hide WalkLeq, S.Leq, WalkRows, FilesOf;
    if names != [] {
      var d, rest := names[0], names[1..];
      assert d in names;
      var one, others := FilesOf(dir.dirs[d], base + [d]), FilesUnder(dir, base, rest);
      WalkLists(dir.dirs[d], base + [d]);
      ChildRowsList(dir, base, rest);
      hide Lists;
      forall a, b | a in one && b in others ensures a != b && WalkLeq(a, b) {
        SiblingOrder(dir, base, names, a, b);
      }
      ListsTogether(PathsOf(WalkRows(dir.dirs[d], base + [d])), one, PathsOf(ChildRows(dir, base, rest)), others);
      PathsOfAppend(WalkRows(dir.dirs[d], base + [d]), ChildRows(dir, base, rest));
      assert one + others == FilesUnder(dir, base, names);
    }
  }

  /** Every row carries the facts of the file at its path. */
  lemma {:induction false} WalkRowsFaithful(dir: Directory, base: Path, row: Row)
    requires row in WalkRows(dir, base)
    ensures base < row.path && InfoAt(dir, row.path[|base|..]) == Some(row.info)
    decreases dir, 1, 0
  {
    var files, dirs := S.SortedStrings(dir.files.Keys), S.SortedStrings(dir.dirs.Keys);
    assert forall n | n in files :: n in Elements(files);
    assert forall d | d in dirs :: d in Elements(dirs);
    if row in FileRows(dir, base, files) {
      var i :| 0 <= i < |files| && FileRows(dir, base, files)[i] == row;
      assert row.path[|base|..] == [files[i]];
    } else {
      ChildRowsFaithful(dir, base, dirs, row);
    }
  }

  lemma {:induction false} ChildRowsFaithful(dir: Directory, base: Path, names: seq<Name>, row: Row)
    requires forall d | d in names :: d in dir.dirs
    requires row in ChildRows(dir, base, names)
    ensures base < row.path && InfoAt(dir, row.path[|base|..]) == Some(row.info)
    decreases dir, 0, |names|
  {
    var d := names[0];
    assert d in names;
    if row in WalkRows(dir.dirs[d], base + [d]) {
      WalkRowsFaithful(dir.dirs[d], base + [d], row);
      StepInto(base, d, row.path);
    } else {
      ChildRowsFaithful(dir, base, names[1..], row);
    }
  }

  // ---------------------------------------------------------------- the builder matches the verifiers

  /** The manifest rows the builder writes for its entries. */
  function ManifestRows(entries: map<Path, FileInfo>): (rows: seq<Row>)
    requires [] !in entries
  {
    var order := ManifestPathOrder(entries.Keys, []);
    ManifestLists(entries.Keys, []);
    assert forall i | 0 <= i < |order| :: order[i] in Elements(order);
    seq(|order|, i requires 0 <= i < |order| => Row(order[i], entries[order[i]]))
  }

  /** When a directory holds exactly the entries, the verifiers' walk reads back the builder's
      manifest row for row, so both hash the same bytes. */
  lemma BuilderMatchesVerifiers(entries: map<Path, FileInfo>, dir: Directory)
    requires [] !in entries
    requires FilesOf(dir, []) == entries.Keys
    requires forall p | p in entries :: InfoAt(dir, p) == Some(entries[p])
    ensures WalkRows(dir, []) == ManifestRows(entries)
  {
    hide ManifestPathOrder, WalkRows, Lists, FilesOf, InfoAt, ManifestRows;
    var order, rows := ManifestPathOrder(entries.Keys, []), WalkRows(dir, []);
    ManifestRowsAre(entries);
    WalkLists(dir, []);
    ListsUnique(PathsOf(rows), order, entries.Keys);
    forall i | 0 <= i < |rows| ensures rows[i] == ManifestRows(entries)[i] {
      WalkRowsFaithful(dir, [], rows[i]);
      assert rows[i].path[0..] == rows[i].path;
      assert PathsOf(rows)[i] == order[i];
    }
  }

  lemma ManifestRowsAre(entries: map<Path, FileInfo>)
    requires [] !in entries
    ensures var order, rows := ManifestPathOrder(entries.Keys, []), ManifestRows(entries);
            && Lists(order, entries.Keys) && |rows| == |order|
            && forall i | 0 <= i < |order| :: order[i] in entries && rows[i] == Row(order[i], entries[order[i]])
  {
    hide ManifestPathOrder;
    var order := ManifestPathOrder(entries.Keys, []);
    ManifestLists(entries.Keys, []);
    assert Below(entries.Keys, []) == entries.Keys;
    assert forall i | 0 <= i < |order| :: order[i] in Elements(order);
  }

  // ---------------------------------------------------------------- the handoff verifier's loop

  const MAX_HANDOFF_BYTES: nat := 220_000_000
  const MAX_HANDOFF_FILES: nat := 32_000

  function Keep(rows: seq<Row>, excluded: set<Path>): seq<Row> {
    if rows == [] then []
    else
      var init, last := Keep(rows[..|rows| - 1], excluded), rows[|rows| - 1];
      if last.path in excluded then init else init + [last]
  }

  function TotalBytes(rows: seq<Row>): nat {
    if rows == [] then 0 else TotalBytes(rows[..|rows| - 1]) + rows[|rows| - 1].info.bytes
  }

  lemma Associates<T>(a: seq<T>, b: seq<T>, c: seq<T>)
    ensures (a + b) + c == a + (b + c)
  {
  }

  lemma {:induction false} KeepAppend(a: seq<Row>, b: seq<Row>, excluded: set<Path>)
    ensures Keep(a + b, excluded) == Keep(a, excluded) + Keep(b, excluded)
  {
    if b == [] {
      assert a + b == a;
    } else {
      assert (a + b)[..|a + b| - 1] == a + b[..|b| - 1];
      KeepAppend(a, b[..|b| - 1], excluded);
    }
  }

  lemma {:induction false} TotalAppend(a: seq<Row>, b: seq<Row>)
    ensures TotalBytes(a + b) == TotalBytes(a) + TotalBytes(b)
  {
    if b == [] {
      assert a + b == a;
    } else {
      assert (a + b)[..|a + b| - 1] == a + b[..|b| - 1];
      TotalAppend(a, b[..|b| - 1]);
    }
  }

  ghost predicate WithinHandoff(rows: seq<Row>) {
    TotalBytes(rows) <= MAX_HANDOFF_BYTES && |rows| <= MAX_HANDOFF_FILES
  }

  ghost function ReadRows(rows0: seq<Row>, walked: seq<Row>, excluded: set<Path>): seq<Row> {
    rows0 + Keep(walked, excluded)
  }

  /** `rows` is the kept walk so far, with its byte total. */
  ghost predicate ReadSoFar(rows0: seq<Row>, walked: seq<Row>, excluded: set<Path>, rows: seq<Row>, total: nat) {
    rows == rows0 + Keep(walked, excluded) && total == TotalBytes(rows) && WithinHandoff(rows)
  }

  ghost predicate Overflows(rows0: seq<Row>, walked: seq<Row>, excluded: set<Path>) {
    !WithinHandoff(rows0 + Keep(walked, excluded))
  }

  /** Once the kept part of a walk is out of bounds, every longer walk is. */
  lemma OverflowPersists(rows0: seq<Row>, a: seq<Row>, b: seq<Row>, excluded: set<Path>)
    requires Overflows(rows0, a, excluded)
    ensures Overflows(rows0, a + b, excluded)
  {
    hide Keep, TotalBytes;
    var before, after := rows0 + Keep(a, excluded), Keep(b, excluded);
    KeepAppend(a, b, excluded);
    TotalAppend(before, after);
    Associates(rows0, Keep(a, excluded), after);
  }

  lemma ReadMore(rows0: seq<Row>, a: seq<Row>, b: seq<Row>, excluded: set<Path>, rows: seq<Row>)
    requires rows == rows0 + Keep(a, excluded)
    ensures rows + Keep(b, excluded) == rows0 + Keep(a + b, excluded)
  {
    hide Keep;
    KeepAppend(a, b, excluded);
    Associates(rows0, Keep(a, excluded), Keep(b, excluded));
  }

  lemma KeepOne(row: Row, excluded: set<Path>)
    ensures Keep([row], excluded) == if row.path in excluded then [] else [row]
    ensures TotalBytes([row]) == row.info.bytes
  {
    assert [row][..0] == [];
    assert Keep([], excluded) == [] && TotalBytes([]) == 0;
  }

  /** One directory's own files, in name order. */
  method FilesHere(dir: Directory, base: Path, names: seq<Name>, excluded: set<Path>, rows0: seq<Row>, total0: nat)
    returns (ok: bool, rows: seq<Row>, total: nat)
    requires forall n | n in names :: n in dir.files
    requires ReadSoFar(rows0, [], excluded, rows0, total0)
    ensures if ok then ReadSoFar(rows0, FileRows(dir, base, names), excluded, rows, total)
            else Overflows(rows0, FileRows(dir, base, names), excluded)
  {
    hide Keep, TotalBytes;
    ghost var here := FileRows(dir, base, names);
    rows, total := rows0, total0;
    assert here[..0] == [];
    for i := 0 to |names|
      invariant ReadSoFar(rows0, here[..i], excluded, rows, total)
    {
      var relative := base + [names[i]];
      var row := Row(relative, dir.files[names[i]]);
      assert here[..i + 1] == here[..i] + [row];
      KeepOne(row, excluded);
      ReadMore(rows0, here[..i], [row], excluded, rows);
      if relative in excluded { continue; }
      TotalAppend(rows, [row]);
      total := total + row.info.bytes;
      if total > MAX_HANDOFF_BYTES || |rows| >= MAX_HANDOFF_FILES {
        assert Overflows(rows0, here[..i + 1], excluded);
        OverflowPersists(rows0, here[..i + 1], here[i + 1..], excluded);
        assert here == here[..i + 1] + here[i + 1..];
        return false, rows, total;
      }
      rows := rows + [row];
    }
    assert here[..|names|] == here;
    ok := true;
  }

  /** The rows of a walk that has finished its own files and the first `i` directories. */
  ghost function Walked(dir: Directory, base: Path, names: seq<Name>, dirs: seq<Name>, i: nat): seq<Row>
    requires (forall n | n in names :: n in dir.files) && (forall d | d in dirs :: d in dir.dirs) && i <= |dirs|
  {
    FileRows(dir, base, names) + ChildRows(dir, base, dirs[..i])
  }

  lemma WalkedStep(dir: Directory, base: Path, names: seq<Name>, dirs: seq<Name>, i: nat)
    requires (forall n | n in names :: n in dir.files) && (forall d | d in dirs :: d in dir.dirs) && i < |dirs|
    ensures Walked(dir, base, names, dirs, i + 1) ==
            Walked(dir, base, names, dirs, i) + WalkRows(dir.dirs[dirs[i]], base + [dirs[i]])
  {
    hide WalkRows;
    ChildRowsSplit(dir, base, dirs, i);
    Associates(FileRows(dir, base, names), ChildRows(dir, base, dirs[..i]),
               WalkRows(dir.dirs[dirs[i]], base + [dirs[i]]));
  }

  lemma WalkedTo(dir: Directory, base: Path, names: seq<Name>, dirs: seq<Name>, i: nat)
    requires (forall n | n in names :: n in dir.files) && (forall d | d in dirs :: d in dir.dirs) && i <= |dirs|
    requires names == S.SortedStrings(dir.files.Keys) && dirs == S.SortedStrings(dir.dirs.Keys)
    ensures WalkRows(dir, base) == Walked(dir, base, names, dirs, i) + ChildRows(dir, base, dirs[i..])
    ensures i == 0 ==> Walked(dir, base, names, dirs, i) == FileRows(dir, base, names)
    ensures i == |dirs| ==> WalkRows(dir, base) == Walked(dir, base, names, dirs, i)
  {
    assert dirs == dirs[..i] + dirs[i..];
    ChildRowsAppend(dir, base, dirs[..i], dirs[i..]);
    Associates(FileRows(dir, base, names), ChildRows(dir, base, dirs[..i]), ChildRows(dir, base, dirs[i..]));
  }

  lemma NamesAreKeys(names: seq<Name>, keys: set<Name>)
    requires Elements(names) == keys
    ensures forall n | n in names :: n in keys
  {
    assert forall n | n in names :: n in Elements(names);
  }

  /** Read a directory tree into rows, refusing it as soon as a bound is passed: it succeeds exactly
      when the whole kept walk is within both bounds, and then returns that walk. */
  method Files(dir: Directory, base: Path, excluded: set<Path>, rows0: seq<Row>, total0: nat)
    returns (ok: bool, rows: seq<Row>, total: nat)
    requires ReadSoFar(rows0, [], excluded, rows0, total0)
    ensures if ok then ReadSoFar(rows0, WalkRows(dir, base), excluded, rows, total)
            else Overflows(rows0, WalkRows(dir, base), excluded)
    decreases dir
  {
    hide Keep, TotalBytes, WithinHandoff, S.SortedStrings, Elements, Ascending, Overflows, ReadSoFar, ReadRows, FileRows, WalkRows,
      ChildRows, Walked;
    var names, dirs := S.SortedStrings(dir.files.Keys), S.SortedStrings(dir.dirs.Keys);
    NamesAreKeys(names, dir.files.Keys);
    NamesAreKeys(dirs, dir.dirs.Keys);
    ok, rows, total := FilesHere(dir, base, names, excluded, rows0, total0);
    WalkedTo(dir, base, names, dirs, 0);
    if !ok {
      OverflowPersists(rows0, FileRows(dir, base, names), ChildRows(dir, base, dirs[0..]), excluded);
      return;
    }
    for i := 0 to |dirs|
      invariant ReadSoFar(rows0, Walked(dir, base, names, dirs, i), excluded, rows, total)
    {
      ghost var before, walked := rows, Walked(dir, base, names, dirs, i);
      ghost var child := WalkRows(dir.dirs[dirs[i]], base + [dirs[i]]);
      ReadRestart(rows0, walked, excluded, rows, total);
      ok, rows, total := Files(dir.dirs[dirs[i]], base + [dirs[i]], excluded, rows, total);
      ReadJoins(rows0, walked, before, child, excluded, rows, total);
      WalkedStep(dir, base, names, dirs, i);
      if !ok {
        WalkedTo(dir, base, names, dirs, i + 1);
        OverflowPersists(rows0, walked + child, ChildRows(dir, base, dirs[i + 1..]), excluded);
        return;
      }
    }
    WalkedTo(dir, base, names, dirs, |dirs|);
    ok := true;
  }

  lemma ReadRestart(rows0: seq<Row>, walked: seq<Row>, excluded: set<Path>, rows: seq<Row>, total: nat)
    requires ReadSoFar(rows0, walked, excluded, rows, total)
    ensures ReadSoFar(rows, [], excluded, rows, total) && rows == ReadRows(rows0, walked, excluded)
  {
    assert rows + [] == rows;
  }

  /** Reading one more subtree, from where the last read stopped, continues the same walk. */
  lemma ReadJoins(rows0: seq<Row>, walked: seq<Row>, before: seq<Row>, child: seq<Row>, excluded: set<Path>,
                  rows: seq<Row>, total: nat)
    requires before == ReadRows(rows0, walked, excluded)
    ensures ReadSoFar(before, child, excluded, rows, total) ==>
              ReadSoFar(rows0, walked + child, excluded, rows, total)
    ensures Overflows(before, child, excluded) ==> Overflows(rows0, walked + child, excluded)
  {
    ReadMore(rows0, walked, child, excluded, before);
  }

  lemma {:induction false} ChildRowsAppend(dir: Directory, base: Path, a: seq<Name>, b: seq<Name>)
    requires forall d | d in a + b :: d in dir.dirs
    ensures (forall d | d in a :: d in dir.dirs) && (forall d | d in b :: d in dir.dirs)
    ensures ChildRows(dir, base, a + b) == ChildRows(dir, base, a) + ChildRows(dir, base, b)
    decreases |a|
  {
    hide WalkRows;
    assert forall d | d in a :: d in a + b;
    assert forall d | d in b :: d in a + b;
    if a == [] {
      assert a + b == b;
    } else {
      assert (a + b)[1..] == a[1..] + b;
      ChildRowsAppend(dir, base, a[1..], b);
      Associates(WalkRows(dir.dirs[a[0]], base + [a[0]]), ChildRows(dir, base, a[1..]), ChildRows(dir, base, b));
    }
  }

  lemma ChildRowsSplit(dir: Directory, base: Path, dirs: seq<Name>, i: nat)
    requires i < |dirs| && forall d | d in dirs :: d in dir.dirs
    ensures ChildRows(dir, base, dirs[..i + 1]) ==
            ChildRows(dir, base, dirs[..i]) + WalkRows(dir.dirs[dirs[i]], base + [dirs[i]])
    ensures ChildRows(dir, base, dirs) == ChildRows(dir, base, dirs[..i + 1]) + ChildRows(dir, base, dirs[i + 1..])
  {
    hide ChildRows, WalkRows;
    assert dirs[..i + 1] == dirs[..i] + [dirs[i]];
    ChildRowsAppend(dir, base, dirs[..i], [dirs[i]]);
    ChildRowsSingle(dir, base, dirs[i]);
    assert dirs == dirs[..i + 1] + dirs[i + 1..];
    ChildRowsAppend(dir, base, dirs[..i + 1], dirs[i + 1..]);
  }

  lemma ChildRowsSingle(dir: Directory, base: Path, d: Name)
    requires d in dir.dirs
    ensures ChildRows(dir, base, [d]) == WalkRows(dir.dirs[d], base + [d])
  {
    hide WalkRows;
    assert [d][1..] == [];
  }

}
