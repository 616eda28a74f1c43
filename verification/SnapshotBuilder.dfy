/** The snapshot builder: entries, blobs and totals updated in place while links are expanded. */
module SnapshotBuilder {
  import opened Outcomes
  import opened Sorting
  import opened Paths
  import opened TreeWalk
  import opened GitTree
  import opened LinkWalk
  import opened Snapshot
  import M = Manifest

  ghost predicate LeadsNowhere(tree: Tree, start: Path, budget: nat) {
    forall rest: Path, n: nat | n <= budget :: Follow(tree, start + rest, n) == None
  }

  lemma StopAgainLeadsNowhere(tree: Tree, start: Path, j: nat, k: nat, stop: Path, budget: nat)
    requires PrefixFree(tree.Keys) && j < k
    requires Hop(tree, start, j) == Some(stop) && Hop(tree, start, k) == Some(stop)
    ensures LeadsNowhere(tree, start, budget)
  {
    hide Follow, Hop;
    HopPrefix(tree, start, j, k);
    forall rest: Path, n: nat | n <= budget
      ensures Follow(tree, start + rest, n) == None
    {
      FollowAlong(tree, start, j, stop, rest, n);
      if n >= j { CycleLeadsNowhere(tree, stop, k - j, rest, n - j); }
    }
  }

  lemma RejectedLinkLeadsNowhere(tree: Tree, start: Path, k: nat, link: Path, budget: nat)
    requires PrefixFree(tree.Keys) && Hop(tree, start, k) == Some(link)
    requires KindOf(tree, link) == KLink(None)
    ensures LeadsNowhere(tree, start, budget)
  {
    forall rest: Path, n: nat | n <= budget
      ensures Follow(tree, start + rest, n) == None
    {
      FollowAlong(tree, start, k, link, rest, n);
      if n >= k { FollowLink(tree, link, rest, n - k); }
    }
  }

  lemma TooFarLeadsNowhere(tree: Tree, start: Path, k: nat, end: Path, budget: nat)
    requires PrefixFree(tree.Keys) && Hop(tree, start, k) == Some(end) && budget < k
    ensures LeadsNowhere(tree, start, budget)
  {
    forall rest: Path, n: nat | n <= budget
      ensures Follow(tree, start + rest, n) == None
    {
      FollowAlong(tree, start, k, end, rest, n);
    }
  }

  /** Going back to a link the same walk already used leads nowhere, whatever the budget. */
  lemma RepeatedStopLeadsNowhere(tree: Tree, start: Path, k: nat, path: Path)
    requires PrefixFree(tree.Keys) && Hop(tree, start, k) == Some(path) && path in Stops(tree, start, k)
    ensures forall budget: nat :: LeadsNowhere(tree, start, budget)
  {
    StopHasIndex(tree, start, k, path);
    var j: nat :| j < k && Hop(tree, start, j) == Some(path);
    forall budget: nat ensures LeadsNowhere(tree, start, budget) {
      StopAgainLeadsNowhere(tree, start, j, k, path, budget);
    }
  }

  lemma LinkIsNotTerminal(tree: Tree, leaf: Path, end: Path, kind: Kind)
    requires leaf in tree && tree[leaf].Link? && kind == KindOf(tree, end) && !kind.KLink?
    ensures Hop(tree, leaf, 0) != Some(end)
  {
  }

  /** A committed link reads as this. */
  predicate LinksTo(repo: Repo, link: Path, target: Result<Path, LinkError>) {
    link in repo.index && repo.index[link].mode == Symlink && LinkTarget(repo, link) == target
  }

  ghost predicate BadLinkIn(repo: Repo, cause: LinkError) {
    exists link :: LinksTo(repo, link, Err(cause))
  }

  /** Some link points, lexically, at nothing committed. */
  ghost predicate BrokenLinkIn(repo: Repo) {
    exists link, target :: LinksTo(repo, link, Ok(target)) && KindOf(Nodes(repo), target) == KAbsent
  }

  /** Why resolving `start` failed. */
  ghost predicate ResolveCause(repo: Repo, start: Path, hops0: nat, chain0: set<Path>, e: SnapshotError) {
    var tree := Nodes(repo);
    match e
    case HopLimit => hops0 <= MAX_SYMLINK_HOPS && Hop(tree, start, MAX_SYMLINK_HOPS + 1 - hops0).Some?
    case Cycle => exists k: nat, path :: Hop(tree, start, k) == Some(path) && path in chain0 + Stops(tree, start, k)
    case Broken => BrokenLinkIn(repo)
    case BadLink(cause) => BadLinkIn(repo, cause)
    case _ => false
  }

  datatype Stop = Terminal(kind: Kind) | Onward(target: Path) | Rejected(cause: LinkError)

  /** One look at the path a walk has reached. */
  method Look(repo: Repo, path: Path) returns (stop: Stop)
    requires WellFormedRepo(repo)
    ensures stop.Terminal? ==> stop.kind == KindOf(Nodes(repo), path) && !stop.kind.KLink?
    ensures stop.Onward? ==> KindOf(Nodes(repo), path) == KLink(Some(stop.target)) && LinksTo(repo, path, Ok(stop.target))
    ensures stop.Rejected? ==> KindOf(Nodes(repo), path) == KLink(None) && LinksTo(repo, path, Err(stop.cause))
  {
    hide LinkTarget;
    NodesWellFormed(repo);
    if path in repo.index && repo.index[path].mode == Symlink {
      var target := ReadLink(repo, path);
      stop := match target case Ok(t) => Onward(t) case Err(e) => Rejected(e);
    } else {
      stop := Terminal(CommittedKind(repo, path));
    }
  }

  lemma NodeModes(repo: Repo, leaf: Path)
    requires WellFormedRepo(repo) && leaf in repo.index
    ensures if repo.index[leaf].mode == Symlink then Nodes(repo)[leaf].Link?
            else Nodes(repo)[leaf].Blob? && Nodes(repo)[leaf].oid == repo.index[leaf].oid
  {
    hide LinkTarget;
  }

  lemma NodesPrefixFree(repo: Repo)
    requires WellFormedRepo(repo)
    ensures PrefixFree(Nodes(repo).Keys) && Nodes(repo).Keys == repo.index.Keys && [] !in Nodes(repo)
  {
    NodesWellFormed(repo);
  }

  lemma HopLimitCause(repo: Repo, start: Path, hops0: nat, chain0: set<Path>, k: nat)
    requires hops0 + k == MAX_SYMLINK_HOPS + 1 && k > 0 && Hop(Nodes(repo), start, k).Some?
    ensures ResolveCause(repo, start, hops0, chain0, HopLimit)
  {
    hide Hop, Nodes;
  }

  lemma CycleCause(repo: Repo, start: Path, hops0: nat, chain0: set<Path>, k: nat, path: Path)
    requires Hop(Nodes(repo), start, k) == Some(path) && path in chain0 + Stops(Nodes(repo), start, k)
    ensures ResolveCause(repo, start, hops0, chain0, Cycle)
  {
    hide Hop, Stops, Nodes;
  }

  lemma BrokenCause(repo: Repo, start: Path, hops0: nat, chain0: set<Path>, path: Path)
    requires KindOf(Nodes(repo), path) == KAbsent && exists link :: LinksTo(repo, link, Ok(path))
    ensures ResolveCause(repo, start, hops0, chain0, Broken)
  {
    hide LinksTo, KindOf, Nodes;
  }

  lemma BadLinkCause(repo: Repo, start: Path, hops0: nat, chain0: set<Path>, link: Path, cause: LinkError)
    requires LinksTo(repo, link, Err(cause))
    ensures ResolveCause(repo, start, hops0, chain0, BadLink(cause))
  {
    hide LinksTo, Nodes;
  }

  lemma StartIsLink(repo: Repo, start: Path)
    requires start in repo.index && repo.index[start].mode == Symlink
    ensures KindOf(Nodes(repo), start).KLink?
  {
    hide LinkTarget;
  }

  /** Resolve `start` to a committed file or directory. The chain keeps every link already used by
      the enclosing expansion, and `hops` counts from the enclosing expansion's total. */
  method ResolveTerminal(repo: Repo, start: Path, hops0: nat, chain0: set<Path>)
    returns (r: Result<(Path, Kind), SnapshotError>, chain: set<Path>, hops: nat)
    requires WellFormedRepo(repo) && hops0 <= MAX_SYMLINK_HOPS
    requires start in repo.index && repo.index[start].mode == Symlink
    ensures hops0 <= hops
    ensures r.Ok? ==>
              && hops <= MAX_SYMLINK_HOPS
              && Hop(Nodes(repo), start, hops - hops0) == Some(r.value.0)
              && r.value.1 == KindOf(Nodes(repo), r.value.0) && (r.value.1.KBlob? || r.value.1.KTree?)
    ensures chain == chain0 + Stops(Nodes(repo), start, hops - hops0)
    ensures r.Err? ==> ResolveCause(repo, start, hops0, chain0, r.error)
    ensures r == Err(HopLimit) ==> LeadsNowhere(Nodes(repo), start, MAX_SYMLINK_HOPS - hops0)
    ensures r == Err(Cycle) && chain0 == {} ==> forall budget: nat :: LeadsNowhere(Nodes(repo), start, budget)
    ensures r.Err? && r.error.BadLink? ==> forall budget: nat :: LeadsNowhere(Nodes(repo), start, budget)
  {
    hide Nodes, LinksTo, PrefixFree, WellFormed, WellFormedRepo, Follow, LeadsNowhere, ResolveCause;
    ghost var tree := Nodes(repo);
    StartIsLink(repo, start);
    NodesPrefixFree(repo);
    var path := start;
    chain, hops := chain0, hops0;
    while true
      invariant hops0 <= hops <= MAX_SYMLINK_HOPS + 1
      invariant Hop(tree, start, hops - hops0) == Some(path)
      invariant chain == chain0 + Stops(tree, start, hops - hops0)
      invariant path == start || exists link :: LinksTo(repo, link, Ok(path))
      decreases MAX_SYMLINK_HOPS + 1 - hops
    {
      if hops > MAX_SYMLINK_HOPS {
        TooFarLeadsNowhere(tree, start, hops - hops0, path, MAX_SYMLINK_HOPS - hops0);
        HopLimitCause(repo, start, hops0, chain0, hops - hops0);
        return Err(HopLimit), chain, hops;
      }
      if path in chain {
        CycleCause(repo, start, hops0, chain0, hops - hops0, path);
        if chain0 == {} { RepeatedStopLeadsNowhere(tree, start, hops - hops0, path); }
        return Err(Cycle), chain, hops;
      }
      var stop := Look(repo, path);
      match stop {
        case Rejected(cause) =>
          BadLinkCause(repo, start, hops0, chain0, path, cause);
          forall budget: nat ensures LeadsNowhere(tree, start, budget) {
            RejectedLinkLeadsNowhere(tree, start, hops - hops0, path, budget);
          }
          return Err(BadLink(cause)), chain, hops;
        case Terminal(kind) =>
          if kind == KAbsent {
            assert path != start;
            BrokenCause(repo, start, hops0, chain0, path);
          }
          r := if kind == KAbsent then Err(Broken) else Ok((path, kind));
          return;
        case Onward(target) =>
          HopExtends(tree, start, hops - hops0);
          chain := chain + {path};
          path := target;
          hops := hops + 1;
      }
    }
  }

  // ---------------------------------------------------------------- ghost accounting

  /** The bytes of the objects a list of outputs came from. */
  ghost function BytesOf(repo: Repo, source: map<Path, Oid>, paths: seq<Path>): nat {
    if paths == [] then 0
    else
      var last := paths[|paths| - 1];
      BytesOf(repo, source, paths[..|paths| - 1])
      + if last in source && source[last] in repo.blobs then |repo.blobs[source[last]]| else 0
  }

  lemma {:induction false} BytesAppend(repo: Repo, source: map<Path, Oid>, a: seq<Path>, b: seq<Path>)
    ensures BytesOf(repo, source, a + b) == BytesOf(repo, source, a) + BytesOf(repo, source, b)
  {
    if b == [] {
      assert a + b == a;
    } else {
      assert (a + b)[..|a + b| - 1] == a + b[..|b| - 1];
      BytesAppend(repo, source, a, b[..|b| - 1]);
    }
  }

  lemma {:induction false} BytesStable(repo: Repo, source: map<Path, Oid>, source': map<Path, Oid>, paths: seq<Path>)
    requires forall q | q in paths :: q in source && q in source' && source'[q] == source[q]
    ensures BytesOf(repo, source', paths) == BytesOf(repo, source, paths)
  {
    if paths != [] {
      var init := paths[..|paths| - 1];
      assert forall q | q in init :: q in paths;
      BytesStable(repo, source, source', init);
    }
  }

  lemma BytesExtend(repo: Repo, source: map<Path, Oid>, order: seq<Path>, path: Path, oid: Oid)
    requires Elements(order) == source.Keys && path !in source && oid in repo.blobs
    ensures BytesOf(repo, source[path := oid], order + [path]) == BytesOf(repo, source, order) + |repo.blobs[oid]|
  {
    assert forall q | q in order :: q in Elements(order);
    BytesStable(repo, source, source[path := oid], order);
    assert (order + [path])[..|order|] == order;
  }

  ghost predicate Distinct<T(!new)>(xs: seq<T>) {
    forall i, j | 0 <= i < j < |xs| :: xs[i] != xs[j]
  }

  /** Alias entries that hold one object. */
  ghost function AliasesOf(aliases: set<Path>, source: map<Path, Oid>, oid: Oid): set<Path> {
    set q | q in aliases && q in source && source[q] == oid
  }

  ghost predicate CountsMatch(counts: map<Oid, nat>, aliases: set<Path>, source: map<Path, Oid>) {
    forall oid: Oid ::
      |AliasesOf(aliases, source, oid)| == CountOf(counts, oid) <= MAX_OBJECT_MATERIALIZATIONS
  }

  function CountOf(counts: map<Oid, nat>, oid: Oid): nat {
    if oid in counts then counts[oid] else 0
  }

  lemma CountedAlias(counts: map<Oid, nat>, aliases: set<Path>, source: map<Path, Oid>, q: Path, oid: Oid)
    requires CountsMatch(counts, aliases, source) && aliases <= source.Keys && q !in source
    requires CountOf(counts, oid) < MAX_OBJECT_MATERIALIZATIONS
    ensures CountsMatch(counts[oid := CountOf(counts, oid) + 1], aliases + {q}, source[q := oid])
  {
    hide AliasesOf;
    var counts' := counts[oid := CountOf(counts, oid) + 1];
    forall other: Oid
      ensures |AliasesOf(aliases + {q}, source[q := oid], other)| == CountOf(counts', other) <= MAX_OBJECT_MATERIALIZATIONS
    {
      OneMoreAlias(aliases, source, q, oid, other);
      assert |AliasesOf(aliases, source, other)| == CountOf(counts, other);
    }
  }

  lemma OneMoreAlias(aliases: set<Path>, source: map<Path, Oid>, q: Path, oid: Oid, other: Oid)
    requires aliases <= source.Keys && q !in source
    ensures |AliasesOf(aliases + {q}, source[q := oid], other)| == |AliasesOf(aliases, source, other)| + if other == oid then 1 else 0
  {
    var before, after := AliasesOf(aliases, source, other), AliasesOf(aliases + {q}, source[q := oid], other);
    if other == oid {
      assert after == before + {q};
    } else {
      assert after == before;
    }
  }

  lemma UncountedFile(counts: map<Oid, nat>, aliases: set<Path>, source: map<Path, Oid>, q: Path, oid: Oid)
    requires CountsMatch(counts, aliases, source) && aliases <= source.Keys && q !in source
    ensures CountsMatch(counts, aliases, source[q := oid])
  {
    forall other: Oid
      ensures AliasesOf(aliases, source[q := oid], other) == AliasesOf(aliases, source, other)
    {
    }
  }

  /** Every row describes the committed object its path came from. */
  ghost predicate RowsMatch(repo: Repo, entries: map<Path, M.FileInfo>, blobByPath: map<Path, Bytes>, source: map<Path, Oid>) {
    && entries.Keys == blobByPath.Keys == source.Keys
    && forall q | q in entries ::
         && source[q] in repo.blobs && blobByPath[q] == repo.blobs[source[q]]
         && entries[q] == M.FileInfo(|repo.blobs[source[q]]|, repo.sha256(repo.blobs[source[q]]))
  }

  lemma RowsMatchAppend(repo: Repo, entries: map<Path, M.FileInfo>, blobByPath: map<Path, Bytes>,
                        source: map<Path, Oid>, path: Path, oid: Oid)
    requires RowsMatch(repo, entries, blobByPath, source) && oid in repo.blobs
    ensures var data := repo.blobs[oid];
            RowsMatch(repo, entries[path := M.FileInfo(|data|, repo.sha256(data))], blobByPath[path := data],
                      source[path := oid])
  {
  }

  lemma DistinctAppend(order: seq<Path>, path: Path)
    requires Distinct(order) && path !in Elements(order)
    ensures Distinct(order + [path]) && Elements(order + [path]) == Elements(order) + {path}
  {
    forall i, j | 0 <= i < j < |order + [path]|
      ensures (order + [path])[i] != (order + [path])[j]
    {
      if j == |order| { assert order[i] in Elements(order); }
    }
    assert (order + [path])[|order|] == path;
  }

  /** Insertion order of the entries, the object each came from, and which are aliases. */
  datatype History = History(order: seq<Path>, source: map<Path, Oid>, aliases: set<Path>)

  const NO_HISTORY := History([], map[], {})

  ghost function Extend(h: History, path: Path, oid: Oid, alias: bool): History {
    History(h.order + [path], h.source[path := oid], if alias then h.aliases + {path} else h.aliases)
  }

  lemma ExtendSource(h: History, path: Path, oid: Oid, alias: bool)
    ensures Extend(h, path, oid, alias).source == h.source[path := oid]
  {
  }

  ghost predicate Consistent(repo: Repo, entries: map<Path, M.FileInfo>, blobByPath: map<Path, Bytes>, total: nat,
                             counts: map<Oid, nat>, h: History)
  {
    && RowsMatch(repo, entries, blobByPath, h.source)
    && Distinct(h.order) && Elements(h.order) == entries.Keys && |entries| <= MAX_REPOSITORY_FILES
    && total == BytesOf(repo, h.source, h.order) <= MAX_REPOSITORY_BYTES
    && h.aliases <= h.source.Keys
    && CountsMatch(counts, h.aliases, h.source)
  }

  lemma ConsistentExtend(repo: Repo, entries: map<Path, M.FileInfo>, blobByPath: map<Path, Bytes>, total: nat,
                         counts: map<Oid, nat>, h: History, path: Path, oid: Oid, alias: bool)
    requires Consistent(repo, entries, blobByPath, total, counts, h) && path !in entries
    requires oid in repo.blobs && total + |repo.blobs[oid]| <= MAX_REPOSITORY_BYTES
    requires |entries| < MAX_REPOSITORY_FILES
    requires alias ==> CountOf(counts, oid) < MAX_OBJECT_MATERIALIZATIONS
    ensures var data := repo.blobs[oid];
            Consistent(repo, entries[path := M.FileInfo(|data|, repo.sha256(data))], blobByPath[path := data],
                       total + |data|, if alias then counts[oid := CountOf(counts, oid) + 1] else counts,
                       Extend(h, path, oid, alias))
  {
    hide CountsMatch, RowsMatch, BytesOf, Distinct, Elements;
    RowKeys(repo, entries, blobByPath, h.source);
    var row := M.FileInfo(|repo.blobs[oid]|, repo.sha256(repo.blobs[oid]));
    assert |entries[path := row]| == |entries| + 1;
    assert entries[path := row].Keys == entries.Keys + {path};
    BytesExtend(repo, h.source, h.order, path, oid);
    DistinctAppend(h.order, path);
    RowsMatchAppend(repo, entries, blobByPath, h.source, path, oid);
    if alias {
      CountedAlias(counts, h.aliases, h.source, path, oid);
    } else {
      UncountedFile(counts, h.aliases, h.source, path, oid);
    }
  }

  lemma RowKeys(repo: Repo, entries: map<Path, M.FileInfo>, blobByPath: map<Path, Bytes>, source: map<Path, Oid>)
    requires RowsMatch(repo, entries, blobByPath, source)
    ensures entries.Keys == blobByPath.Keys == source.Keys
  {
  }

  // ---------------------------------------------------------------- why a snapshot fails

  ghost predicate Honest(repo: Repo, source: map<Path, Oid>) {
    forall q | q in source :: LeadsTo(Nodes(repo), q, source[q])
  }

  lemma HonestExtend(repo: Repo, source: map<Path, Oid>, q: Path, oid: Oid)
    requires Honest(repo, source) && LeadsTo(Nodes(repo), q, oid)
    ensures Honest(repo, source[q := oid])
  {
    hide LeadsTo;
  }

  ghost predicate Reaches(repo: Repo, q: Path) {
    exists oid :: LeadsTo(Nodes(repo), q, oid)
  }

  ghost predicate AllReach(repo: Repo, files: set<Path>) {
    forall q | q in files :: Reaches(repo, q)
  }

  /** More than `most` paths lead to files. */
  ghost predicate FilesOver(repo: Repo, most: nat) {
    exists files: set<Path> :: AllReach(repo, files) && |files| > most
  }

  /** A committed file that is not a link. */
  predicate Regular(repo: Repo, q: Path) { q in repo.index && repo.index[q].mode != Symlink }

  /** Every one of these paths leads to the object, and none is a plain committed file. */
  ghost predicate AliasesTo(repo: Repo, files: set<Path>, oid: Oid) {
    forall q | q in files :: !Regular(repo, q) && LeadsTo(Nodes(repo), q, oid)
  }

  /** What has been counted as an alias is no plain committed file. */
  predicate Apart(repo: Repo, aliases: set<Path>) {
    forall q | q in aliases :: !Regular(repo, q)
  }

  lemma ApartExtend(repo: Repo, h: History, path: Path, oid: Oid, alias: bool)
    requires Apart(repo, h.aliases) && (alias ==> !Regular(repo, path))
    ensures Apart(repo, Extend(h, path, oid, alias).aliases)
  {
    hide Regular;
  }

  /** The walk from the path replaces more links than the hop budget allows. */
  ghost predicate WalksTooFar(repo: Repo, q: Path) {
    Walk(Nodes(repo), q, MAX_SYMLINK_HOPS + 1).Some?
  }

  /** More than `most` paths other than plain committed files lead to one and the same object. */
  ghost predicate AliasesOver(repo: Repo, most: nat) {
    exists oid: Oid, files: set<Path> :: AliasesTo(repo, files, oid) && |files| > most
  }

  /** Distinct paths lead to files of more than `most` bytes together. */
  ghost predicate BytesOver(repo: Repo, most: nat) {
    exists source: map<Path, Oid>, order: seq<Path> ::
      Distinct(order) && Elements(order) == source.Keys && Honest(repo, source) && BytesOf(repo, source, order) > most
  }

  ghost predicate Committed(repo: Repo, oid: Oid) {
    exists p :: p in repo.index && repo.index[p].oid == oid
  }

  function LinkCount(repo: Repo): nat {
    |set p | p in repo.index && repo.index[p].mode == Symlink|
  }

  /** What each error says about the committed tree. */
  ghost predicate Cause(repo: Repo, e: SnapshotError) {
    match e
    case PathCollision => false
    case ForbiddenPath => false
    case HopLimit => exists q :: WalksTooFar(repo, q)
    case Cycle => SelfContaining(Nodes(repo))
    case Broken => BrokenLinkIn(repo)
    case BadLink(cause) => BadLinkIn(repo, cause)
    case BadObject(_) => exists oid :: Committed(repo, oid) && oid !in repo.blobs
    case FileCountBound => FilesOver(repo, MAX_REPOSITORY_FILES)
    case ByteBound => BytesOver(repo, MAX_REPOSITORY_BYTES)
    case ObjectAliasBound => AliasesOver(repo, MAX_OBJECT_MATERIALIZATIONS)
    case SymlinkCountBound => LinkCount(repo) > MAX_REPOSITORY_SYMLINKS
  }

  lemma TooManyFiles(repo: Repo, source: map<Path, Oid>, path: Path, oid: Oid)
    requires Honest(repo, source) && LeadsTo(Nodes(repo), path, oid) && path !in source && |source| + 1 > MAX_REPOSITORY_FILES
    ensures Cause(repo, FileCountBound)
  {
    hide LeadsTo;
    var files := source.Keys + {path};
    assert |files| > MAX_REPOSITORY_FILES;
    forall q | q in files ensures Reaches(repo, q) {
      assert LeadsTo(Nodes(repo), q, if q in source then source[q] else oid);
    }
  }

  lemma TooManyAliases(repo: Repo, counts: map<Oid, nat>, aliases: set<Path>, source: map<Path, Oid>, path: Path, oid: Oid)
    requires Honest(repo, source) && CountsMatch(counts, aliases, source) && LeadsTo(Nodes(repo), path, oid) && path !in source
    requires Apart(repo, aliases) && !Regular(repo, path)
    requires CountOf(counts, oid) + 1 > MAX_OBJECT_MATERIALIZATIONS
    ensures Cause(repo, ObjectAliasBound)
  {
    hide LeadsTo, Regular;
    var files := AliasesOf(aliases, source, oid) + {path};
    assert |AliasesOf(aliases, source, oid)| == CountOf(counts, oid);
    assert path !in AliasesOf(aliases, source, oid);
    assert AliasesTo(repo, files, oid);
  }

  lemma TooManyBytes(repo: Repo, h: History, path: Path, oid: Oid)
    requires Honest(repo, h.source) && LeadsTo(Nodes(repo), path, oid) && path !in h.source
    requires Distinct(h.order) && Elements(h.order) == h.source.Keys && oid in repo.blobs
    requires BytesOf(repo, h.source, h.order) + |repo.blobs[oid]| > MAX_REPOSITORY_BYTES
    ensures Cause(repo, ByteBound)
  {
    hide LeadsTo, BytesOf, Distinct, Elements, Honest;
    HonestExtend(repo, h.source, path, oid);
    DistinctAppend(h.order, path);
    BytesExtend(repo, h.source, h.order, path, oid);
  }

  lemma MissingObjectCause(repo: Repo, oid: Oid)
    requires Committed(repo, oid) && oid !in repo.blobs
    ensures Cause(repo, BadObject(MissingObject))
  {
    hide Committed;
  }

  lemma FailureCauses(repo: Repo, entries: map<Path, M.FileInfo>, blobByPath: map<Path, Bytes>, total: nat,
                      counts: map<Oid, nat>, h: History, path: Path, oid: Oid)
    requires Consistent(repo, entries, blobByPath, total, counts, h) && Honest(repo, h.source) && path !in entries
    requires LeadsTo(Nodes(repo), path, oid) && Committed(repo, oid) && Apart(repo, h.aliases)
    ensures !Regular(repo, path) && CountOf(counts, oid) + 1 > MAX_OBJECT_MATERIALIZATIONS ==> Cause(repo, ObjectAliasBound)
    ensures oid !in repo.blobs ==> Cause(repo, BadObject(MissingObject))
    ensures oid in repo.blobs && total + |repo.blobs[oid]| > MAX_REPOSITORY_BYTES ==> Cause(repo, ByteBound)
    ensures |entries| + 1 > MAX_REPOSITORY_FILES ==> Cause(repo, FileCountBound)
  {
    hide Cause, Honest, LeadsTo, RowsMatch, CountsMatch, Distinct, Elements, BytesOf, Committed, Nodes, Apart, Regular;
    RowKeys(repo, entries, blobByPath, h.source);
    assert |h.source| == |h.source.Keys| && |entries| == |entries.Keys|;
    if !Regular(repo, path) && CountOf(counts, oid) + 1 > MAX_OBJECT_MATERIALIZATIONS { TooManyAliases(repo, counts, h.aliases, h.source, path, oid); }
    if oid !in repo.blobs { MissingObjectCause(repo, oid); }
    if oid in repo.blobs && total + |repo.blobs[oid]| > MAX_REPOSITORY_BYTES { TooManyBytes(repo, h, path, oid); }
    if |entries| + 1 > MAX_REPOSITORY_FILES { TooManyFiles(repo, h.source, path, oid); }
  }

  /** A file or directory that a walk from an output path has reached gives that output its object. */
  lemma BlobReached(repo: Repo, out: Path, hops: nat, end: Path, oid: Oid)
    requires WellFormedRepo(repo) && Walk(Nodes(repo), out, hops) == Some(end)
    requires end in repo.index && repo.index[end].mode != Symlink && repo.index[end].oid == oid
    ensures LeadsTo(Nodes(repo), out, oid) && Committed(repo, oid)
  {
    hide Walk, Nodes;
    NodesPrefixFree(repo);
    NodeModes(repo, end);
    NothingBelowBlob(Nodes(repo), end, [], 0);
    assert end + [] == end;
    WalkFollows(Nodes(repo), out, hops, 0);
  }

  /** A path whose walk replaces a link is no plain committed file. */
  lemma WalkedIsNotRegular(repo: Repo, q: Path, hops: nat)
    requires WellFormedRepo(repo) && hops > 0 && Walk(Nodes(repo), q, hops).Some?
    ensures !Regular(repo, q)
  {
    NodesPrefixFree(repo);
    if Regular(repo, q) {
      NodeModes(repo, q);
      LeafIs(Nodes(repo), q, q);
    }
  }

  lemma BlobKind(repo: Repo, end: Path, kind: Kind)
    requires WellFormedRepo(repo) && kind == KindOf(Nodes(repo), end) && kind.KBlob?
    ensures end in repo.index && repo.index[end].mode != Symlink && repo.index[end].oid == kind.oid
  {
    hide LinkTarget;
  }

  /** Resolving a nested link fails for a cause that shows in the tree: the hops and links of the
      enclosing expansions are all hops and links of one walk. */
  lemma ResolveFailure(repo: Repo, out: Path, leaf: Path, hops: nat, chain: set<Path>, e: SnapshotError)
    requires WellFormedRepo(repo) && Walk(Nodes(repo), out, hops) == Some(leaf) && ChainOk(Nodes(repo), chain, leaf)
    requires ResolveCause(repo, leaf, hops, chain, e)
    ensures Cause(repo, e)
  {
    hide Walk, Nodes, ChainOk, Stops, Hop, SelfContaining, PrefixFree;
    var tree := Nodes(repo);
    NodesPrefixFree(repo);
    if e == HopLimit {
      var k := MAX_SYMLINK_HOPS + 1 - hops;
      HopIsWalk(tree, leaf, k);
      WalkOn(tree, out, hops, k);
      assert WalksTooFar(repo, out);
    } else if e == Cycle {
      var k: nat, path :| Hop(tree, leaf, k) == Some(path) && path in chain + Stops(tree, leaf, k);
      RevisitIsCycle(tree, chain, leaf, k, path);
    }
  }

  /** After a nested link is resolved, the walk from its output path and its chain go on. */
  lemma ResolvedWalk(repo: Repo, out: Path, leaf: Path, hops: nat, chain: set<Path>, k: nat, end: Path)
    requires WellFormedRepo(repo) && Walk(Nodes(repo), out, hops) == Some(leaf) && ChainOk(Nodes(repo), chain, leaf)
    requires Hop(Nodes(repo), leaf, k) == Some(end)
    ensures Walk(Nodes(repo), out, hops + k) == Some(end)
    ensures ChainOk(Nodes(repo), chain + Stops(Nodes(repo), leaf, k), end)
  {
    hide Walk, Nodes, ChainOk, Stops, Hop, PrefixFree;
    NodesPrefixFree(repo);
    HopIsWalk(Nodes(repo), leaf, k);
    WalkOn(Nodes(repo), out, hops, k);
    ChainResolves(Nodes(repo), chain, leaf, k, end);
  }

  /** A descendant of an aliased directory stands where its output path's walk stands. */
  lemma DescendantWalk(repo: Repo, alias: Path, dir: Path, hops: nat, chain: set<Path>, leaf: Path)
    requires WellFormedRepo(repo) && Walk(Nodes(repo), alias, hops) == Some(dir) && ChainOk(Nodes(repo), chain, dir) && dir <= leaf
    ensures Walk(Nodes(repo), Relocated(leaf, dir, alias), hops) == Some(leaf) && ChainOk(Nodes(repo), chain, leaf)
  {
    hide Walk, Nodes, ChainOk, PrefixFree;
    NodesPrefixFree(repo);
    WalkBelow(Nodes(repo), alias, hops, leaf[|dir|..]);
    ChainDescends(Nodes(repo), chain, dir, leaf[|dir|..]);
    assert dir + leaf[|dir|..] == leaf;
  }

  /** What one expansion returns: its outputs and how many files and bytes it added. */
  datatype Expansion = Expansion(outputs: seq<Path>, files: nat, bytes: nat)

  /** The history gained exactly these alias outputs, in this order; nothing earlier changed, and
      no output is at, above or below another. */
  ghost predicate Grew(h: History, h': History, keys: set<Path>, keys': set<Path>, outputs: seq<Path>) {
    && h'.order == h.order + outputs
    && h'.aliases == h.aliases + Elements(outputs)
    && (forall q | q in h.source :: q in h'.source && h'.source[q] == h.source[q])
    && keys' == keys + Elements(outputs)
    && PrefixFree(keys')
  }

  lemma GrewNothing(h: History, keys: set<Path>)
    requires PrefixFree(keys)
    ensures Grew(h, h, keys, keys, [])
  {
  }

  lemma GrewByOne(h: History, out: Path, oid: Oid, keys: set<Path>)
    requires PrefixFree(keys + {out}) && out !in h.source
    ensures Grew(h, Extend(h, out, oid, true), keys, keys + {out}, [out])
    ensures out in Extend(h, out, oid, true).source && Extend(h, out, oid, true).source[out] == oid
  {
  }

  lemma GrewKeys(h: History, h': History, keys: set<Path>, keys': set<Path>, outputs: seq<Path>)
    requires Grew(h, h', keys, keys', outputs)
    ensures keys' == keys + Elements(outputs) && PrefixFree(keys')
    ensures forall q | q in h.source :: q in h'.source && h'.source[q] == h.source[q]
  {
  }

  lemma GrewTwice(h: History, h': History, h'': History, keys: set<Path>, keys': set<Path>, keys'': set<Path>,
                  outputs: seq<Path>, added: seq<Path>)
    requires Grew(h, h', keys, keys', outputs) && Grew(h', h'', keys', keys'', added)
    ensures Grew(h, h'', keys, keys'', outputs + added)
    ensures forall q | q in h'.source :: q in h''.source && h''.source[q] == h'.source[q]
  {
    assert h.order + outputs + added == h.order + (outputs + added);
    assert Elements(outputs + added) == Elements(outputs) + Elements(added);
  }

  /** The finished snapshot: entries listed in manifest order, blobs, and link records. */
  datatype RepositorySnapshot = RepositorySnapshot(
    order: seq<Path>, entries: map<Path, M.FileInfo>, totalBytes: nat, blobByPath: map<Path, Bytes>, links: seq<LinkRecord>)

  // ---------------------------------------------------------------- link records

  /** A record names where its link resolved, within the hop bound, and counts its own outputs. */
  ghost predicate RecordHolds(repo: Repo, h: History, rec: LinkRecord)
    requires WellFormedRepo(repo)
  {
    && rec.linkPath in repo.index && repo.index[rec.linkPath].mode == Symlink
    && (exists k: nat :: k <= MAX_SYMLINK_HOPS && Hop(Nodes(repo), rec.linkPath, k) == Some(rec.resolvedPath))
    && RawLink(repo, rec.linkPath) == Ok(rec.rawLink)
    && rec.resolved == KindOf(Nodes(repo), rec.resolvedPath) && (rec.resolved.KBlob? || rec.resolved.KTree?)
    && (forall q | q in rec.outputPaths :: q in h.source && q in h.aliases && rec.linkPath <= q)
    && rec.fileCount == |rec.outputPaths|
    && rec.byteCount == BytesOf(repo, h.source, rec.outputPaths)
  }

  /** The outputs laid end to end: each plain file itself, each link its record's outputs. */
  ghost function Laid(repo: Repo, paths: seq<Path>, links: seq<LinkRecord>): seq<Path> {
    if paths == [] then []
    else
      var p, init := paths[|paths| - 1], paths[..|paths| - 1];
      if p in repo.index && repo.index[p].mode != Symlink then Laid(repo, init, links) + [p]
      else if links == [] then Laid(repo, init, links)
      else Laid(repo, init, links[..|links| - 1]) + links[|links| - 1].outputPaths
  }

  function LinkPathsOf(repo: Repo, paths: seq<Path>): seq<Path> {
    if paths == [] then []
    else
      var p, init := paths[|paths| - 1], LinkPathsOf(repo, paths[..|paths| - 1]);
      if p in repo.index && repo.index[p].mode == Symlink then init + [p] else init
  }

  /** The entries, in insertion order and without overlap, are each plain file itself and each
      link record's outputs; there is one sound record per committed link, in order; and exactly
      the record outputs are aliases. */
  ghost predicate Ledger(repo: Repo, paths: seq<Path>, h: History, links: seq<LinkRecord>)
    requires WellFormedRepo(repo)
  {
    && h.order == Laid(repo, paths, links)
    && |links| == |LinkPathsOf(repo, paths)|
    && (forall i | 0 <= i < |links| :: links[i].linkPath == LinkPathsOf(repo, paths)[i])
    && (forall i | 0 <= i < |links| :: RecordHolds(repo, h, links[i]))
    && (forall q | q in h.aliases :: exists i :: 0 <= i < |links| && q in links[i].outputPaths)
  }

  ghost predicate Preserves(h: History, h': History) {
    && (forall q | q in h.source :: q in h'.source && h'.source[q] == h.source[q])
    && h.aliases <= h'.aliases
  }

  lemma ConsistentFacts(repo: Repo, entries: map<Path, M.FileInfo>, blobByPath: map<Path, Bytes>, total: nat,
                        counts: map<Oid, nat>, h: History)
    requires Consistent(repo, entries, blobByPath, total, counts, h)
    ensures Elements(h.order) == h.source.Keys == entries.Keys
    ensures total == BytesOf(repo, h.source, h.order)
  {
  }

  lemma CoversBelow(tree: Tree, from: Path, at: Path, outputs: seq<Path>, source: map<Path, Oid>, budget: nat)
    requires Covers(tree, from, at, outputs, source, budget)
    ensures forall q | q in outputs :: at <= q
  {
  }

  /** Bytes counted while the outputs were added are the bytes of the outputs. */
  lemma GrewBytes(repo: Repo, h: History, h': History, outputs: seq<Path>, total: nat, total': nat)
    requires h'.order == h.order + outputs && Preserves(h, h') && Elements(h.order) == h.source.Keys
    requires total == BytesOf(repo, h.source, h.order) && total' == BytesOf(repo, h'.source, h'.order)
    ensures total' - total == BytesOf(repo, h'.source, outputs)
  {
    assert forall q | q in h.order :: q in Elements(h.order);
    BytesStable(repo, h.source, h'.source, h.order);
    BytesAppend(repo, h'.source, h.order, outputs);
  }

  lemma RecordPreserved(repo: Repo, h: History, h': History, rec: LinkRecord)
    requires WellFormedRepo(repo) && RecordHolds(repo, h, rec) && Preserves(h, h')
    ensures RecordHolds(repo, h', rec)
  {
    BytesStable(repo, h.source, h'.source, rec.outputPaths);
  }

  lemma LedgerFile(repo: Repo, paths: seq<Path>, p: Path, h: History, oid: Oid, links: seq<LinkRecord>)
    requires WellFormedRepo(repo) && Ledger(repo, paths, h, links)
    requires p in repo.index && repo.index[p].mode != Symlink && p !in h.source
    ensures Ledger(repo, paths + [p], Extend(h, p, oid, false), links)
  {
    var h' := Extend(h, p, oid, false);
    assert (paths + [p])[..|paths|] == paths;
    forall i | 0 <= i < |links| ensures RecordHolds(repo, h', links[i]) {
      RecordPreserved(repo, h, h', links[i]);
    }
  }

  lemma LedgerLink(repo: Repo, paths: seq<Path>, p: Path, h: History, h': History,
                   links: seq<LinkRecord>, rec: LinkRecord)
    requires WellFormedRepo(repo) && Ledger(repo, paths, h, links)
    requires p in repo.index && repo.index[p].mode == Symlink && rec.linkPath == p
    requires Preserves(h, h') && h'.order == h.order + rec.outputPaths
    requires h'.aliases == h.aliases + Elements(rec.outputPaths)
    requires RecordHolds(repo, h', rec)
    ensures Ledger(repo, paths + [p], h', links + [rec])
  {
    var links' := links + [rec];
    assert (paths + [p])[..|paths|] == paths;
    assert links'[..|links|] == links && links'[|links|] == rec;
    forall i | 0 <= i < |links'| ensures RecordHolds(repo, h', links'[i]) {
      if i < |links| { RecordPreserved(repo, h, h', links[i]); }
    }
    forall q | q in h'.aliases ensures exists i :: 0 <= i < |links'| && q in links'[i].outputPaths {
      if q in h.aliases {
        var i :| 0 <= i < |links| && q in links[i].outputPaths;
        assert q in links'[i].outputPaths;
      } else {
        assert q in links'[|links|].outputPaths;
      }
    }
  }

  lemma FileExtends(h: History, path: Path, oid: Oid)
    requires path !in h.source
    ensures var h' := Extend(h, path, oid, false);
            h'.order == h.order + [path] && forall q | q in h.source :: q in h'.source && h'.source[q] == h.source[q]
  {
  }

  lemma TakeOneMore<T>(xs: seq<T>, i: nat)
    requires i < |xs|
    ensures xs[..i + 1] == xs[..i] + [xs[i]]
  {
  }

  lemma TopLevelIsClear(repo: Repo, todo: seq<Path>, i: nat, outputs: seq<Path>, source: map<Path, Oid>)
    requires WellFormedRepo(repo) && Listing(Nodes(repo), [], todo) && i < |todo|
    requires Progress(Nodes(repo), [], [], todo, i, outputs, source, MAX_SYMLINK_HOPS)
    ensures todo[i] in repo.index && SafePath(todo[i]) && todo[i] != []
    ensures Clear(Elements(outputs), todo[i]) && Relocated(todo[i], [], []) == todo[i]
    ensures PrefixFree(Nodes(repo).Keys)
  {
    NodesWellFormed(repo);
    assert Clear({}, []);
    RelocatedAtRoot(todo[i]);
    var tree := Nodes(repo);
    hide Progress, Listing, Clear, Nodes, Elements, Relocated, PrefixFree, SafePath, Follow;
    ListedLeaf(tree, [], todo, i);
    NextIsClear(tree, [], [], todo, i, outputs, source, MAX_SYMLINK_HOPS, {});
    assert {} + Elements(outputs) == Elements(outputs);
  }

  /** A top-level link once read and resolved. */
  datatype TopLink = TopLink(raw: string, end: Path, kind: Kind, chain: set<Path>, hops: nat)

  ghost predicate TopLinkHolds(repo: Repo, path: Path, top: TopLink)
    requires WellFormedRepo(repo) && path in repo.index
  {
    && RawLink(repo, path) == Ok(top.raw) && 0 < top.hops <= MAX_SYMLINK_HOPS
    && Hop(Nodes(repo), path, top.hops) == Some(top.end)
    && top.kind == KindOf(Nodes(repo), top.end) && (top.kind.KBlob? || top.kind.KTree?)
    && top.chain == Stops(Nodes(repo), path, top.hops)
  }

  /** The first hop is validated by itself; then the whole chain is resolved. */
  method ReadTopLink(repo: Repo, path: Path) returns (r: Result<TopLink, SnapshotError>)
    requires WellFormedRepo(repo) && path in repo.index && repo.index[path].mode == Symlink
    ensures r.Ok? ==> TopLinkHolds(repo, path, r.value)
    ensures r.Err? ==> Cause(repo, r.error)
    ensures r.Err? && r.error != Broken ==> LeadsNowhere(Nodes(repo), path, MAX_SYMLINK_HOPS)
  {
    hide Nodes, LinkTarget, RawLink, ResolveLink, SafePath, WellFormedRepo, PrefixFree, Hop, KindOf, LeadsNowhere,
      TopLinkHolds, DecodeLink, ReadBlob, Stops, ChainOk, Walk, ResolveCause;
    LinkTargetIs(repo, path);
    if LinkTarget(repo, path).Err? { BadLinkLeadsNowhere(repo, path); }
    var raw := RawLink(repo, path);
    if raw.Err? {
      assert LinksTo(repo, path, Err(raw.error));
      return Err(BadLink(raw.error));
    }
    var first := ResolveLinkPath(repo, path, raw.value);
    if first.Err? {
      assert LinksTo(repo, path, Err(first.error));
      return Err(BadLink(first.error));
    }
    var resolved, chain, hops := ResolveTerminal(repo, path, 0, {});
    if resolved.Err? {
      AtTheTop(repo, path);
      ResolveErrors(repo, path, resolved.error);
      ResolveFailure(repo, path, path, 0, {}, resolved.error);
      return Err(resolved.error);
    }
    assert {} + Stops(Nodes(repo), path, hops) == Stops(Nodes(repo), path, hops);
    var (end, kind) := resolved.value;
    var top := TopLink(raw.value, end, kind, chain, hops);
    TopLinkIs(repo, path, top);
    r := Ok(top);
  }

  lemma ResolveErrors(repo: Repo, path: Path, e: SnapshotError)
    requires ResolveCause(repo, path, 0, {}, e)
    ensures e in {HopLimit, Cycle, Broken} || e.BadLink?
  {
    hide Nodes;
  }

  lemma AtTheTop(repo: Repo, path: Path)
    ensures Walk(Nodes(repo), path, 0) == Some(path) && ChainOk(Nodes(repo), {}, path)
  {
    hide Nodes;
  }

  lemma LinkTargetIs(repo: Repo, path: Path)
    requires WellFormedRepo(repo) && path in repo.index
    ensures path != [] && HasNames(path)
    ensures RawLink(repo, path).Err? ==> LinkTarget(repo, path) == Err(RawLink(repo, path).error)
    ensures RawLink(repo, path).Ok? ==> LinkTarget(repo, path) == ResolveLink(repo, path, RawLink(repo, path).value)
  {
    hide ResolveLink, RawLink;
  }

  lemma TopLinkIs(repo: Repo, path: Path, top: TopLink)
    requires WellFormedRepo(repo) && path in repo.index
    requires repo.index[path].mode == Symlink && RawLink(repo, path) == Ok(top.raw) && top.hops <= MAX_SYMLINK_HOPS
    requires Hop(Nodes(repo), path, top.hops) == Some(top.end)
    requires top.kind == KindOf(Nodes(repo), top.end) && (top.kind.KBlob? || top.kind.KTree?)
    requires top.chain == Stops(Nodes(repo), path, top.hops)
    ensures TopLinkHolds(repo, path, top)
  {
    hide RawLink, Stops;
    NodeModes(repo, path);
    NodesPrefixFree(repo);
    LinkIsNotTerminal(Nodes(repo), path, top.end, top.kind);
  }

  lemma BadLinkLeadsNowhere(repo: Repo, path: Path)
    requires WellFormedRepo(repo) && path in repo.index && repo.index[path].mode == Symlink
    requires LinkTarget(repo, path).Err?
    ensures LeadsNowhere(Nodes(repo), path, MAX_SYMLINK_HOPS)
  {
    hide LinkTarget;
    NodesWellFormed(repo);
    RejectedLinkLeadsNowhere(Nodes(repo), path, 0, path, MAX_SYMLINK_HOPS);
  }

  /** One top-level link has been expanded and recorded, and nothing earlier changed. */
  ghost predicate Recorded(repo: Repo, path: Path, h: History, h': History, keys': set<Path>, rec: LinkRecord)
    requires WellFormedRepo(repo)
  {
    && rec.linkPath == path && PrefixFree(keys')
    && Preserves(h, h') && h'.order == h.order + rec.outputPaths
    && h'.aliases == h.aliases + Elements(rec.outputPaths)
    && RecordHolds(repo, h', rec)
    && Covers(Nodes(repo), path, path, rec.outputPaths, h'.source, MAX_SYMLINK_HOPS)
  }

  lemma RecordFromGrowth(repo: Repo, h: History, h': History, keys: set<Path>, keys': set<Path>,
                         total: nat, total': nat, rec: LinkRecord, top: TopLink)
    requires WellFormedRepo(repo) && rec.linkPath in repo.index && repo.index[rec.linkPath].mode == Symlink
    requires Grew(h, h', keys, keys', rec.outputPaths)
    requires Elements(h.order) == h.source.Keys && Elements(h'.order) == h'.source.Keys
    requires total == BytesOf(repo, h.source, h.order) && total' == BytesOf(repo, h'.source, h'.order)
    requires TopLinkHolds(repo, rec.linkPath, top)
    requires rec.rawLink == top.raw && rec.resolvedPath == top.end && rec.resolved == top.kind
    requires rec.fileCount == |rec.outputPaths| && total' - total == rec.byteCount
    requires Covers(Nodes(repo), top.end, rec.linkPath, rec.outputPaths, h'.source, MAX_SYMLINK_HOPS - top.hops)
    ensures Recorded(repo, rec.linkPath, h, h', keys', rec)
  {
    hide BytesOf, Nodes, RawLink, KindOf, Hop, PrefixFree, Covers, WellFormedRepo;
    NodesWellFormed(repo);
    GrewBytes(repo, h, h', rec.outputPaths, total, total');
    forall q | q in rec.outputPaths ensures q in h'.source && q in h'.aliases {
      assert q in Elements(rec.outputPaths);
      var i :| 0 <= i < |rec.outputPaths| && rec.outputPaths[i] == q;
      assert h'.order[|h.order| + i] == q;
      assert q in Elements(h'.order);
    }
    CoversThroughLinks(Nodes(repo), rec.linkPath, top.hops, top.end, rec.linkPath, rec.outputPaths, h'.source, MAX_SYMLINK_HOPS);
    CoversBelow(Nodes(repo), rec.linkPath, rec.linkPath, rec.outputPaths, h'.source, MAX_SYMLINK_HOPS);
  }

  lemma RecordedFacts(repo: Repo, path: Path, h: History, h': History, keys': set<Path>, rec: LinkRecord)
    requires WellFormedRepo(repo) && Recorded(repo, path, h, h', keys', rec)
    ensures rec.linkPath == path && PrefixFree(keys')
    ensures Preserves(h, h') && h'.order == h.order + rec.outputPaths
    ensures h'.aliases == h.aliases + Elements(rec.outputPaths)
    ensures RecordHolds(repo, h', rec)
    ensures Covers(Nodes(repo), path, path, rec.outputPaths, h'.source, MAX_SYMLINK_HOPS)
    ensures forall q | q in h.source :: q in h'.source && h'.source[q] == h.source[q]
  {
    hide RecordHolds, Covers, PrefixFree, WellFormedRepo, Nodes;
  }

  lemma TopLinkFacts(repo: Repo, path: Path, top: TopLink, keys: set<Path>)
    requires WellFormedRepo(repo) && path in repo.index && TopLinkHolds(repo, path, top) && Clear(keys, path)
    ensures SafePath(path) && path != [] && path !in keys
    ensures 0 < top.hops <= MAX_SYMLINK_HOPS && top.kind == KindOf(Nodes(repo), top.end)
    ensures top.kind.KBlob? || top.kind.KTree?
    ensures Walk(Nodes(repo), path, top.hops) == Some(top.end) && ChainOk(Nodes(repo), top.chain, top.end)
  {
    hide Nodes, RawLink, KindOf, Hop, Stops, ChainOk, Walk;
    AtTheTop(repo, path);
    ResolvedWalk(repo, path, path, 0, {}, top.hops, top.end);
    assert {} + Stops(Nodes(repo), path, top.hops) == top.chain;
  }

  lemma CoversCommittedFile(repo: Repo, path: Path, h: History)
    requires WellFormedRepo(repo) && path in repo.index && repo.index[path].mode != Symlink
    ensures var oid := repo.index[path].oid;
            Covers(Nodes(repo), path, path, [path], Extend(h, path, oid, false).source, MAX_SYMLINK_HOPS)
  {
    hide LinkTarget, Covers, Follow, SafePath;
    NodesWellFormed(repo);
    assert Nodes(repo)[path].Blob? && Nodes(repo)[path].oid == repo.index[path].oid;
    CoversBlob(Nodes(repo), path, path, Extend(h, path, repo.index[path].oid, false).source, MAX_SYMLINK_HOPS);
  }

  lemma DirectoryIsNoLeaf(tree: Tree, dir: Path)
    requires WellFormed(tree) && KindOf(tree, dir) == KTree
    ensures [] !in tree && PrefixFree(tree.Keys)
  {
  }

  lemma BuildStart(repo: Repo, entries: map<Path, M.FileInfo>, blobByPath: map<Path, Bytes>, total: nat,
                   counts: map<Oid, nat>, links: seq<LinkRecord>)
    requires WellFormedRepo(repo) && Consistent(repo, entries, blobByPath, total, counts, NO_HISTORY) && links == []
    ensures PrefixFree(entries.Keys)
    ensures Progress(Nodes(repo), [], [], IndexPaths(repo), 0, [], map[], MAX_SYMLINK_HOPS)
    ensures Ledger(repo, IndexPaths(repo)[..0], NO_HISTORY, links)
  {
    assert IndexPaths(repo)[..0] == [];
    ProgressStart(Nodes(repo), [], [], IndexPaths(repo), map[], MAX_SYMLINK_HOPS);
    hide Progress, Nodes, IndexPaths;
    assert entries.Keys == {};
  }

  lemma BuildEnd(repo: Repo, todo: seq<Path>, h: History)
    requires WellFormedRepo(repo) && todo == IndexPaths(repo)
    requires Progress(Nodes(repo), [], [], todo, |todo|, h.order, h.source, MAX_SYMLINK_HOPS)
    ensures Covers(Nodes(repo), [], [], h.order, h.source, MAX_SYMLINK_HOPS) && todo[..|todo|] == todo
  {
    hide Progress, Covers, LinkTarget, IndexPaths, Listing;
    NodesWellFormed(repo);
    assert [] !in Nodes(repo);
    ProgressDone(Nodes(repo), [], [], todo, h.order, h.source, MAX_SYMLINK_HOPS);
  }

  class Builder {
    const repo: Repo
    var entries: map<Path, M.FileInfo>
    var blobByPath: map<Path, Bytes>
    var total: nat
    var objectMaterializations: map<Oid, nat>
    var links: seq<LinkRecord>
    ghost var history: History

    ghost predicate Valid()
      reads this
    {
      && Consistent(repo, entries, blobByPath, total, objectMaterializations, history)
      && Honest(repo, history.source) && Apart(repo, history.aliases)
    }

    constructor (repo: Repo)
      ensures Valid() && this.repo == repo && history == NO_HISTORY && links == []
    {
      this.repo := repo;
      entries, blobByPath, total, objectMaterializations, links := map[], map[], 0, map[], [];
      history := NO_HISTORY;
    }

    /** Record one output file. */
    method Account(path: Path, data: Bytes) returns (r: Result<(), SnapshotError>)
      modifies this`entries, this`blobByPath
      ensures r == if path in old(entries) then Err(PathCollision)
                   else if |old(entries)| + 1 > MAX_REPOSITORY_FILES then Err(FileCountBound)
                   else Ok(())
      ensures r.Ok? ==> entries == old(entries)[path := M.FileInfo(|data|, repo.sha256(data))]
      ensures r.Ok? ==> blobByPath == old(blobByPath)[path := data]
      ensures r.Err? ==> entries == old(entries) && blobByPath == old(blobByPath)
    {
      if path in entries { return Err(PathCollision); }
      if |entries| + 1 > MAX_REPOSITORY_FILES { return Err(FileCountBound); }
      entries := entries[path := M.FileInfo(|data|, repo.sha256(data))];
      blobByPath := blobByPath[path := data];
      r := Ok(());
    }

    /** Copy one committed object to an output path, within every bound. */
    method MaterializeFile(path: Path, oid: Oid, countAlias: bool) returns (r: Result<(), SnapshotError>)
      requires Valid() && LeadsTo(Nodes(repo), path, oid) && Committed(repo, oid) && (countAlias ==> !Regular(repo, path))
      modifies this`entries, this`blobByPath, this`total, this`objectMaterializations, this`history
      ensures r.Ok? ==>
                && Valid() && path !in old(entries) && oid in repo.blobs
                && history == Extend(old(history), path, oid, countAlias)
                && entries.Keys == old(entries).Keys + {path}
                && total == old(total) + |repo.blobs[oid]|
      ensures r.Err? && path !in old(entries) ==> Cause(repo, r.error)
    {
      hide Consistent, Extend, Honest, LeadsTo, Nodes, Committed, Cause, Apart, Regular;
      ghost var old' := history;
      if path !in entries {
        FailureCauses(repo, entries, blobByPath, total, objectMaterializations, history, path, oid);
      }
      if countAlias {
        var count := CountOf(objectMaterializations, oid) + 1;
        if count > MAX_OBJECT_MATERIALIZATIONS { return Err(ObjectAliasBound); }
        objectMaterializations := objectMaterializations[oid := count];
      }
      var data := ReadBlob(repo, oid, MAX_REPOSITORY_BYTES - total);
      if data.Err? {
        return Err(if data.error == TargetTooLarge then ByteBound else BadObject(data.error));
      }
      total := total + |data.value|;
      if total > MAX_REPOSITORY_BYTES { return Err(ByteBound); }
      r := Account(path, data.value);
      if r.Ok? {
        ConsistentExtend(repo, old(entries), old(blobByPath), old(total), old(objectMaterializations),
                         history, path, oid, countAlias);
        HonestExtend(repo, history.source, path, oid);
        ApartExtend(repo, history, path, oid, countAlias);
        ExtendSource(history, path, oid, countAlias);
        history := Extend(history, path, oid, countAlias);
      }
    }

    /** Copy one object as an alias output. */
    method MaterializeAliasFile(out: Path, oid: Oid) returns (r: Result<Expansion, SnapshotError>)
      requires Valid() && LeadsTo(Nodes(repo), out, oid) && Committed(repo, oid) && !Regular(repo, out)
      requires PrefixFree(entries.Keys) && Clear(entries.Keys, out)
      modifies this`entries, this`blobByPath, this`total, this`objectMaterializations, this`history
      ensures r.Ok? ==>
                && Valid() && r.value.outputs == [out] && r.value.files == 1
                && r.value.bytes == total - old(total)
                && out in history.source && history.source[out] == oid
                && Grew(old(history), history, old(entries).Keys, entries.Keys, [out])
      ensures r.Err? ==> Cause(repo, r.error)
    {
      hide Consistent, Clear, PrefixFree, Extend, Grew, Honest, LeadsTo, Nodes, Committed, Cause, Apart, Regular;
      ConsistentFacts(repo, entries, blobByPath, total, objectMaterializations, history);
      ClearKeepsPrefixFree(entries.Keys, out);
      var before := total;
      var done := MaterializeFile(out, oid, true);
      if done.Err? { return Err(done.error); }
      GrewByOne(old(history), out, oid, old(entries).Keys);
      r := Ok(Expansion([out], 1, total - before));
    }

    /** Expand what a link chain resolved to, a file or a directory, at one output path. */
    method MaterializeResolved(out: Path, end: Path, kind: Kind, chain: set<Path>, hops: nat)
      returns (r: Result<Expansion, SnapshotError>)
      requires Valid() && WellFormedRepo(repo) && 0 < hops <= MAX_SYMLINK_HOPS
      requires kind == KindOf(Nodes(repo), end) && (kind.KBlob? || kind.KTree?)
      requires Walk(Nodes(repo), out, hops) == Some(end) && ChainOk(Nodes(repo), chain, end)
      requires SafePath(out) && out != []
      requires PrefixFree(entries.Keys) && Clear(entries.Keys, out)
      modifies this`entries, this`blobByPath, this`total, this`objectMaterializations, this`history
      ensures r.Ok? ==>
                && Valid()
                && Grew(old(history), history, old(entries).Keys, entries.Keys, r.value.outputs)
                && Covers(Nodes(repo), end, out, r.value.outputs, history.source, MAX_SYMLINK_HOPS - hops)
                && r.value.files == |r.value.outputs| && r.value.bytes == total - old(total)
      ensures r.Err? ==> Cause(repo, r.error)
      decreases MAX_SYMLINK_HOPS - hops, 2
    {
      hide Consistent, Nodes, Follow, Covers, Grew, SafePath, Clear, Elements, PrefixFree, WellFormedRepo, Honest, LeadsTo,
        Committed, Cause, Walk, ChainOk, Apart, Regular;
      ghost var tree := Nodes(repo);
      NodesPrefixFree(repo);
      if kind.KBlob? {
        BlobKind(repo, end, kind);
        WalkedIsNotRegular(repo, out, hops);
        BlobReached(repo, out, hops, end, kind.oid);
        r := MaterializeAliasFile(out, kind.oid);
        if r.Ok? { CoversBlob(tree, end, out, history.source, MAX_SYMLINK_HOPS - hops); }
      } else {
        r := MaterializeTreeAlias(out, end, chain, hops);
      }
    }

    /** Expand one committed leaf of an aliased directory at its output path. */
    method MaterializeDescendant(leaf: Path, out: Path, outerChain: set<Path>, hopsUsed: nat)
      returns (r: Result<Expansion, SnapshotError>)
      requires Valid() && WellFormedRepo(repo) && 0 < hopsUsed <= MAX_SYMLINK_HOPS
      requires leaf in repo.index && SafePath(out) && out != []
      requires Walk(Nodes(repo), out, hopsUsed) == Some(leaf) && ChainOk(Nodes(repo), outerChain, leaf)
      requires PrefixFree(entries.Keys) && Clear(entries.Keys, out)
      modifies this`entries, this`blobByPath, this`total, this`objectMaterializations, this`history
      ensures r.Ok? ==>
                && Valid()
                && Grew(old(history), history, old(entries).Keys, entries.Keys, r.value.outputs)
                && Covers(Nodes(repo), leaf, out, r.value.outputs, history.source, MAX_SYMLINK_HOPS - hopsUsed)
                && r.value.files == |r.value.outputs| && r.value.bytes == total - old(total)
      ensures r.Err? ==> Cause(repo, r.error)
      decreases MAX_SYMLINK_HOPS - hopsUsed, 0
    {
      hide Consistent, Nodes, LinkTarget, Follow, Covers, Grew, SafePath, Clear, Elements, LeadsNowhere, Stops, PrefixFree,
        WellFormedRepo, Honest, LeadsTo, Committed, Cause, Walk, ChainOk, ResolveCause, Apart, Regular;
      ghost var tree, budget := Nodes(repo), MAX_SYMLINK_HOPS - hopsUsed;
      NodesPrefixFree(repo);
      NodeModes(repo, leaf);
      if repo.index[leaf].mode != Symlink {
        BlobReached(repo, out, hopsUsed, leaf, repo.index[leaf].oid);
        WalkedIsNotRegular(repo, out, hopsUsed);
        r := MaterializeAliasFile(out, repo.index[leaf].oid);
        if r.Ok? { CoversBlob(tree, leaf, out, history.source, budget); }
      } else {
        var resolved, chain, hops := ResolveTerminal(repo, leaf, hopsUsed, outerChain);
        if resolved.Err? {
          ResolveFailure(repo, out, leaf, hopsUsed, outerChain, resolved.error);
          return Err(resolved.error);
        }
        var (end, kind) := resolved.value;
        ResolvedWalk(repo, out, leaf, hopsUsed, outerChain, hops - hopsUsed, end);
        assert hops != hopsUsed by { LinkIsNotTerminal(tree, leaf, end, kind); }
        r := MaterializeResolved(out, end, kind, chain, hops);
        if r.Ok? {
          CoversThroughLinks(tree, leaf, hops - hopsUsed, end, out, r.value.outputs, history.source, budget);
        }
      }
    }

    /** Expand every committed descendant of `dir` under `alias`, continuing the outer chain and
        hop budget. */
    method MaterializeTreeAlias(alias: Path, dir: Path, outerChain: set<Path>, hopsUsed: nat)
      returns (r: Result<Expansion, SnapshotError>)
      requires Valid() && WellFormedRepo(repo) && 0 < hopsUsed <= MAX_SYMLINK_HOPS
      requires KindOf(Nodes(repo), dir) == KTree && SafePath(alias) && alias != []
      requires Walk(Nodes(repo), alias, hopsUsed) == Some(dir) && ChainOk(Nodes(repo), outerChain, dir)
      requires PrefixFree(entries.Keys) && Clear(entries.Keys, alias)
      modifies this`entries, this`blobByPath, this`total, this`objectMaterializations, this`history
      ensures r.Ok? ==>
                && Valid()
                && Grew(old(history), history, old(entries).Keys, entries.Keys, r.value.outputs)
                && Covers(Nodes(repo), dir, alias, r.value.outputs, history.source, MAX_SYMLINK_HOPS - hopsUsed)
                && r.value.files == |r.value.outputs| && r.value.bytes == total - old(total)
      ensures r.Err? ==> Cause(repo, r.error)
      decreases MAX_SYMLINK_HOPS - hopsUsed, 1
    {
      hide Consistent, Nodes, LinkTarget, Follow, Covers, Progress, SafePath, Clear, KindOf, Relocated, Elements, HasNames,
        Listing, Grew, PrefixFree, WellFormed, WellFormedRepo, DescendantPaths, IsDirectory, Related, Honest, LeadsTo,
        Committed, Cause, Walk, ChainOk, Apart;
      ghost var tree, budget, keys := Nodes(repo), MAX_SYMLINK_HOPS - hopsUsed, entries.Keys;
      NodesWellFormed(repo);
      DirectoryIsNoLeaf(tree, dir);
      var todo := DescendantPaths(repo, dir);
      var outputs: seq<Path>, files: nat, bytes: nat := [], 0, 0;
      ProgressStart(tree, dir, alias, todo, history.source, budget);
      GrewNothing(history, keys);
      for i := 0 to |todo|
        invariant Valid() && Grew(old(history), history, keys, entries.Keys, outputs)
        invariant Progress(tree, dir, alias, todo, i, outputs, history.source, budget)
        invariant files == |outputs| && bytes == total - old(total)
      {
        var leaf := todo[i];
        ListedLeaf(tree, dir, todo, i);
        var out := Relocated(leaf, dir, alias);
        GrewKeys(old(history), history, keys, entries.Keys, outputs);
        RelocatedIsSafe(leaf, dir, alias);
        DescendantWalk(repo, alias, dir, hopsUsed, outerChain, leaf);
        if !SafePath(out) { return Err(ForbiddenPath); }
        NextIsClear(tree, dir, alias, todo, i, outputs, history.source, budget, keys);
        ghost var before, beforeKeys := history, entries.Keys;
        var one := MaterializeDescendant(leaf, out, outerChain, hopsUsed);
        if one.Err? { return Err(one.error); }
        GrewTwice(old(history), before, history, keys, beforeKeys, entries.Keys, outputs, one.value.outputs);
        ProgressStep(tree, dir, alias, todo, i, outputs, before.source, one.value.outputs, history.source, budget);
        outputs := outputs + one.value.outputs;
        files, bytes := files + one.value.files, bytes + one.value.bytes;
      }
      ProgressDone(tree, dir, alias, todo, outputs, history.source, budget);
      r := Ok(Expansion(outputs, files, bytes));
    }

    /** Build the whole snapshot: every committed path in sorted order. */
    method Build() returns (r: Result<RepositorySnapshot, SnapshotError>)
      requires Valid() && WellFormedRepo(repo) && history == NO_HISTORY && links == []
      modifies this
      ensures r.Ok? ==>
                && Valid() && PrefixFree(entries.Keys)
                && Covers(Nodes(repo), [], [], history.order, history.source, MAX_SYMLINK_HOPS)
                && Ledger(repo, IndexPaths(repo), history, links) && LinkCount(repo) <= MAX_REPOSITORY_SYMLINKS
                && r.value == RepositorySnapshot(M.ManifestPathOrder(entries.Keys, []), entries, total, blobByPath, links)
      ensures r.Err? ==> Cause(repo, r.error)
    {
      hide Consistent, Nodes, Progress, Listing, Covers, Ledger, RecordHolds, WellFormedRepo, WellFormed, PrefixFree,
        KindOf, IndexPaths, Clear, Elements, M.ManifestPathOrder, Honest, Apart;
      if LinkCount(repo) > MAX_REPOSITORY_SYMLINKS {
        return Err(SymlinkCountBound);
      }
      var todo := IndexPaths(repo);
      BuildStart(repo, entries, blobByPath, total, objectMaterializations, links);
      for i := 0 to |todo|
        invariant Valid() && PrefixFree(entries.Keys)
        invariant Progress(Nodes(repo), [], [], todo, i, history.order, history.source, MAX_SYMLINK_HOPS)
        invariant Ledger(repo, todo[..i], history, links)
      {
        var one := BuildPath(todo, i);
        if one.Err? { return Err(one.error); }
      }
      BuildEnd(repo, todo, history);
      r := Ok(RepositorySnapshot(M.ManifestPathOrder(entries.Keys, []), entries, total, blobByPath, links));
    }

    /** One committed path of the top-level loop: a plain file, or a link with its record. */
    method BuildPath(todo: seq<Path>, i: nat) returns (r: Result<(), SnapshotError>)
      requires Valid() && WellFormedRepo(repo) && PrefixFree(entries.Keys)
      requires Listing(Nodes(repo), [], todo) && i < |todo|
      requires Progress(Nodes(repo), [], [], todo, i, history.order, history.source, MAX_SYMLINK_HOPS)
      requires Ledger(repo, todo[..i], history, links)
      modifies this
      ensures r.Ok? ==>
                && Valid() && PrefixFree(entries.Keys)
                && Progress(Nodes(repo), [], [], todo, i + 1, history.order, history.source, MAX_SYMLINK_HOPS)
                && Ledger(repo, todo[..i + 1], history, links)
      ensures r.Err? ==> Cause(repo, r.error)
    {
      hide Consistent, Nodes, Progress, Listing, Covers, Ledger, RecordHolds, WellFormedRepo, WellFormed, PrefixFree,
        KindOf, Clear, Elements, Grew, Extend, Relocated, SafePath, Follow, Preserves, Honest, Cause, Apart;
      var path := todo[i];
      ghost var before, beforeLinks := history, links;
      ConsistentFacts(repo, entries, blobByPath, total, objectMaterializations, history);
      TopLevelIsClear(repo, todo, i, history.order, history.source);
      TakeOneMore(todo, i);
      if repo.index[path].mode != Symlink {
        r := BuildFile(path);
        if r.Ok? {
          FileExtends(before, path, repo.index[path].oid);
          ProgressStep(Nodes(repo), [], [], todo, i, before.order, before.source, [path], history.source, MAX_SYMLINK_HOPS);
          LedgerFile(repo, todo[..i], path, before, repo.index[path].oid, beforeLinks);
        }
      } else {
        var rec := BuildLink(path);
        if rec.Err? { return Err(rec.error); }
        links := links + [rec.value];
        RecordedFacts(repo, path, before, history, entries.Keys, rec.value);
        ProgressStep(Nodes(repo), [], [], todo, i, before.order, before.source, rec.value.outputPaths, history.source, MAX_SYMLINK_HOPS);
        LedgerLink(repo, todo[..i], path, before, history, beforeLinks, rec.value);
        r := Ok(());
      }
    }

    method BuildFile(path: Path) returns (r: Result<(), SnapshotError>)
      requires Valid() && WellFormedRepo(repo) && PrefixFree(entries.Keys) && Clear(entries.Keys, path)
      requires path in repo.index && repo.index[path].mode != Symlink
      modifies this`entries, this`blobByPath, this`total, this`objectMaterializations, this`history
      ensures r.Ok? ==>
                && Valid() && PrefixFree(entries.Keys) && path !in old(history).source
                && history == Extend(old(history), path, repo.index[path].oid, false)
                && Covers(Nodes(repo), path, path, [path], history.source, MAX_SYMLINK_HOPS)
      ensures r.Err? ==> Cause(repo, r.error)
    {
      hide Consistent, Nodes, Covers, LinkTarget, Follow, Extend, Clear, PrefixFree, Honest, LeadsTo, Committed, Cause, Walk,
        Apart;
      ConsistentFacts(repo, entries, blobByPath, total, objectMaterializations, history);
      ClearKeepsPrefixFree(entries.Keys, path);
      if path in entries { return Err(PathCollision); }
      AtTheTop(repo, path);
      BlobReached(repo, path, 0, path, repo.index[path].oid);
      r := MaterializeFile(path, repo.index[path].oid, false);
      if r.Ok? { CoversCommittedFile(repo, path, old(history)); }
    }

    /** A committed link at the top level: read it, resolve it, expand it, describe it in a record. */
    method BuildLink(path: Path) returns (r: Result<LinkRecord, SnapshotError>)
      requires Valid() && WellFormedRepo(repo) && PrefixFree(entries.Keys) && Clear(entries.Keys, path)
      requires path in repo.index && repo.index[path].mode == Symlink
      modifies this`entries, this`blobByPath, this`total, this`objectMaterializations, this`history
      ensures r.Ok? ==> Valid() && Recorded(repo, path, old(history), history, entries.Keys, r.value)
      ensures r.Err? ==> Cause(repo, r.error)
    {
      var top := ReadTopLink(repo, path);
      if top.Err? { return Err(top.error); }
      r := ExpandTopLink(path, top.value);
    }

    method ExpandTopLink(path: Path, top: TopLink) returns (r: Result<LinkRecord, SnapshotError>)
      requires Valid() && WellFormedRepo(repo) && PrefixFree(entries.Keys) && Clear(entries.Keys, path)
      requires path in repo.index && repo.index[path].mode == Symlink && TopLinkHolds(repo, path, top)
      modifies this`entries, this`blobByPath, this`total, this`objectMaterializations, this`history
      ensures r.Ok? ==> Valid() && Recorded(repo, path, old(history), history, entries.Keys, r.value)
      ensures r.Err? ==> Cause(repo, r.error)
    {
      hide Consistent, Nodes, Covers, LinkTarget, RawLink, Follow, Grew, RecordHolds, Preserves, Elements, Clear, PrefixFree,
        WellFormedRepo, WellFormed, SafePath, BytesOf, TopLinkHolds, Recorded, KindOf, Hop, Honest, Cause, Walk, ChainOk, Stops, Apart;
      ghost var keys := entries.Keys;
      ConsistentFacts(repo, entries, blobByPath, total, objectMaterializations, history);
      TopLinkFacts(repo, path, top, entries.Keys);
      var before := total;
      if top.kind.KBlob? && path in entries { return Err(PathCollision); }
      var done := MaterializeResolved(path, top.end, top.kind, top.chain, top.hops);
      if done.Err? { return Err(done.error); }
      ConsistentFacts(repo, entries, blobByPath, total, objectMaterializations, history);
      var rec := LinkRecord(path, top.raw, top.end, top.kind, done.value.outputs, done.value.files, total - before);
      RecordFromGrowth(repo, old(history), history, keys, entries.Keys, before, total, rec, top);
      r := Ok(rec);
    }
  }

  // ---------------------------------------------------------------- the finished snapshot

  function RowBytes(entries: map<Path, M.FileInfo>, order: seq<Path>): nat
    requires forall q | q in order :: q in entries
  {
    if order == [] then 0
    else
      assert order[|order| - 1] in order;
      RowBytes(entries, order[..|order| - 1]) + entries[order[|order| - 1]].bytes
  }

  /** The snapshot holds exactly the files the reference walk reaches, each with the bytes of the
      committed object it reaches. */
  ghost predicate Exact(repo: Repo, snapshot: RepositorySnapshot)
    requires WellFormedRepo(repo)
  {
    && snapshot.entries.Keys == snapshot.blobByPath.Keys
    && (forall q :: q in snapshot.blobByPath <==> Reaches(repo, q))
    && (forall q, oid | LeadsTo(Nodes(repo), q, oid) ::
          oid in repo.blobs && q in snapshot.blobByPath && snapshot.blobByPath[q] == repo.blobs[oid]
          && snapshot.entries[q] == M.FileInfo(|repo.blobs[oid]|, repo.sha256(repo.blobs[oid])))
  }

  lemma CoveredIsExact(repo: Repo, snapshot: RepositorySnapshot, h: History)
    requires WellFormedRepo(repo)
    requires RowsMatch(repo, snapshot.entries, snapshot.blobByPath, h.source)
    requires Elements(h.order) == h.source.Keys
    requires Covers(Nodes(repo), [], [], h.order, h.source, MAX_SYMLINK_HOPS)
    ensures Exact(repo, snapshot)
  {
    var tree := Nodes(repo);
    hide Nodes;
    forall q | q in snapshot.blobByPath
      ensures LeadsTo(tree, q, h.source[q])
    {
      assert q in Elements(h.order) && [] + q[0..] == q;
      assert Follow(tree, q, MAX_SYMLINK_HOPS) == Some(h.source[q]);
    }
    forall q, oid | LeadsTo(tree, q, oid)
      ensures q in snapshot.blobByPath && h.source[q] == oid
    {
      var n: nat :| Follow(tree, q, n) == Some(oid);
      assert [] + q == q;
      assert q in h.order && q in Elements(h.order);
      LeadsToUnique(tree, q, oid, h.source[q]);
    }
  }

  lemma WithoutAt(ys: seq<Path>, i: nat)
    requires Distinct(ys) && i < |ys|
    ensures Distinct(ys[..i] + ys[i + 1..]) && Elements(ys[..i] + ys[i + 1..]) == Elements(ys) - {ys[i]}
  {
    var rest := ys[..i] + ys[i + 1..];
    assert forall k | 0 <= k < |rest| :: rest[k] == if k < i then ys[k] else ys[k + 1];
    forall y | y in Elements(ys) - {ys[i]} ensures y in rest {
      var j :| 0 <= j < |ys| && ys[j] == y;
      assert rest[if j < i then j else j - 1] == y;
    }
  }

  lemma BytesWithoutAt(repo: Repo, source: map<Path, Oid>, ys: seq<Path>, i: nat)
    requires i < |ys|
    ensures BytesOf(repo, source, ys) ==
            BytesOf(repo, source, ys[..i] + ys[i + 1..]) + BytesOf(repo, source, [ys[i]])
  {
    var before, one, after := ys[..i], [ys[i]], ys[i + 1..];
    assert ys == before + (one + after);
    BytesAppend(repo, source, before, one + after);
    BytesAppend(repo, source, one, after);
    BytesAppend(repo, source, before, after);
  }

  lemma {:induction false} BytesPermute(repo: Repo, source: map<Path, Oid>, xs: seq<Path>, ys: seq<Path>)
    requires Distinct(xs) && Distinct(ys) && Elements(xs) == Elements(ys)
    ensures BytesOf(repo, source, xs) == BytesOf(repo, source, ys)
    decreases |xs|
  {
    assert ys != [] ==> ys[0] in Elements(ys);
    if xs != [] {
      assert xs[0] in Elements(xs) && xs[0] in Elements(ys);
      var i :| 0 <= i < |ys| && ys[i] == xs[0];
      WithoutAt(xs, 0);
      WithoutAt(ys, i);
      BytesWithoutAt(repo, source, xs, 0);
      BytesWithoutAt(repo, source, ys, i);
      hide BytesOf, Distinct, Elements;
      BytesPermute(repo, source, xs[..0] + xs[1..], ys[..i] + ys[i + 1..]);
    }
  }

  lemma {:induction false} RowBytesAre(repo: Repo, entries: map<Path, M.FileInfo>, blobByPath: map<Path, Bytes>,
                                       source: map<Path, Oid>, order: seq<Path>)
    requires RowsMatch(repo, entries, blobByPath, source) && forall q | q in order :: q in entries
    ensures RowBytes(entries, order) == BytesOf(repo, source, order)
  {
    if order != [] {
      var init := order[..|order| - 1];
      assert forall q | q in init :: q in order;
      assert order[|order| - 1] in order;
      RowBytesAre(repo, entries, blobByPath, source, init);
    }
  }

  // ---------------------------------------------------------------- success means that no cause holds

  lemma NoLongWalk(repo: Repo, h: History, q: Path)
    requires Covers(Nodes(repo), [], [], h.order, h.source, MAX_SYMLINK_HOPS)
    ensures !WalksTooFar(repo, q)
  {
    hide Walk, Nodes, Follow;
    assert [] + q == q;
  }

  lemma WalkStarts(tree: Tree, q: Path, j: nat, k: nat)
    requires j <= k && Walk(tree, q, k).Some?
    ensures Walk(tree, q, j).Some?
    decreases j
  {
    if j > 0 {
      var p := Leaf(tree, q).value;
      WalkStarts(tree, tree[p].target.value + q[|p|..], j - 1, k - 1);
    }
  }

  /** A path that contains itself can be walked round and round, past any budget. */
  lemma NothingContainsItself(repo: Repo, h: History)
    requires WellFormedRepo(repo) && Covers(Nodes(repo), [], [], h.order, h.source, MAX_SYMLINK_HOPS)
    ensures !SelfContaining(Nodes(repo))
  {
    hide Walk, Nodes, Covers, WalksTooFar, Rounds, Links;
    var tree := Nodes(repo);
    NodesPrefixFree(repo);
    if SelfContaining(tree) {
      var x: Path :| Contains(tree, x, x);
      var rel: Path, k: nat :| k > 0 && Walk(tree, x + rel, k) == Some(x);
      var rounds := MAX_SYMLINK_HOPS + 1;
      RoundsWalk(tree, x, rel, k, [], rounds);
      var q := Rounds(x, rel, [], rounds);
      WalkStarts(tree, q, rounds, Links(k, rounds));
      TooFar(repo, q);
      NoLongWalk(repo, h, q);
    }
  }

  lemma TooFar(repo: Repo, q: Path)
    requires Walk(Nodes(repo), q, MAX_SYMLINK_HOPS + 1).Some?
    ensures WalksTooFar(repo, q)
  {
  }

  lemma {:induction false} LinkIsListed(repo: Repo, paths: seq<Path>, link: Path)
    requires link in paths && link in repo.index && repo.index[link].mode == Symlink
    ensures link in LinkPathsOf(repo, paths)
  {
    if paths[|paths| - 1] != link { LinkIsListed(repo, paths[..|paths| - 1], link); }
  }

  /** Every committed link has been resolved: its text reads, its first target is committed, and the last
      one is a file or a directory. */
  lemma LinkResolves(repo: Repo, h: History, links: seq<LinkRecord>, link: Path)
    requires WellFormedRepo(repo) && Ledger(repo, IndexPaths(repo), h, links)
    requires link in repo.index && repo.index[link].mode == Symlink
    ensures RawLink(repo, link).Ok? && LinkTarget(repo, link).Ok?
    ensures KindOf(Nodes(repo), LinkTarget(repo, link).value) != KAbsent
  {
    hide RawLink, IndexPaths, WellFormedRepo, LinkPathsOf, Laid, BytesOf, Listing, ResolveLink;
    var todo := IndexPaths(repo);
    assert link in Elements(todo);
    LinkIsListed(repo, todo, link);
    var i :| 0 <= i < |links| && links[i].linkPath == link;
    ResolvedRecord(repo, h, links[i]);
  }

  lemma FirstHop(tree: Tree, link: Path, k: nat, end: Path)
    requires link in tree && tree[link].Link? && k > 0 && Hop(tree, link, k) == Some(end) && KindOf(tree, end) != KAbsent
    ensures tree[link].target.Some? && KindOf(tree, tree[link].target.value) != KAbsent
  {
    hide IsDirectory;
    var first := tree[link].target.value;
    assert Hop(tree, first, k - 1) == Some(end);
  }

  lemma ResolvedRecord(repo: Repo, h: History, rec: LinkRecord)
    requires WellFormedRepo(repo) && RecordHolds(repo, h, rec)
    ensures RawLink(repo, rec.linkPath).Ok? && LinkTarget(repo, rec.linkPath).Ok?
    ensures KindOf(Nodes(repo), LinkTarget(repo, rec.linkPath).value) != KAbsent
  {
    hide RawLink, BytesOf, ResolveLink, SafePath;
    var tree, link := Nodes(repo), rec.linkPath;
    NodesPrefixFree(repo);
    NodeModes(repo, link);
    var k: nat :| k <= MAX_SYMLINK_HOPS && Hop(tree, link, k) == Some(rec.resolvedPath);
    LinkIsNotTerminal(tree, link, rec.resolvedPath, rec.resolved);
    assert k > 0;
    FirstHop(tree, link, k, rec.resolvedPath);
  }

  lemma NoBadLink(repo: Repo, h: History, links: seq<LinkRecord>, cause: LinkError)
    requires WellFormedRepo(repo) && Ledger(repo, IndexPaths(repo), h, links)
    ensures !BrokenLinkIn(repo) && !BadLinkIn(repo, cause)
  {
    hide Ledger, KindOf, LinkTarget, RawLink, WellFormedRepo, Nodes, IndexPaths;
    if BrokenLinkIn(repo) {
      var link, target :| LinksTo(repo, link, Ok(target)) && KindOf(Nodes(repo), target) == KAbsent;
      LinkResolves(repo, h, links, link);
    }
    if BadLinkIn(repo, cause) {
      var link :| LinksTo(repo, link, Err(cause));
      LinkResolves(repo, h, links, link);
    }
  }

  lemma NoMissingObject(repo: Repo, s: RepositorySnapshot, h: History, oid: Oid)
    requires WellFormedRepo(repo) && Ledger(repo, IndexPaths(repo), h, s.links) && Exact(repo, s)
    requires Committed(repo, oid)
    ensures oid in repo.blobs
  {
    hide Ledger, LinkTarget, Nodes, IndexPaths, Walk, LeadsTo, WellFormedRepo;
    var p :| p in repo.index && repo.index[p].oid == oid;
    if repo.index[p].mode == Symlink {
      LinkResolves(repo, h, s.links, p);
    } else {
      AtTheTop(repo, p);
      BlobReached(repo, p, 0, p, oid);
    }
  }

  lemma SubsetCard<T>(a: set<T>, b: set<T>)
    requires a <= b
    ensures |a| <= |b|
  {
    assert b == a + (b - a);
  }

  lemma FilesWithin(repo: Repo, s: RepositorySnapshot)
    requires WellFormedRepo(repo) && Exact(repo, s)
    ensures !FilesOver(repo, |s.entries|)
  {
    hide LeadsTo, Nodes, WellFormedRepo;
    assert |s.entries.Keys| == |s.entries|;
    if FilesOver(repo, |s.entries|) {
      var files: set<Path> :| AllReach(repo, files) && |files| > |s.entries|;
      forall q | q in files ensures q in s.entries { assert Reaches(repo, q); }
      assert files <= s.entries.Keys;
      SubsetCard(files, s.entries.Keys);
    }
  }

  /** The history knows the object of every path that leads to one. */
  lemma SourceIs(repo: Repo, s: RepositorySnapshot, h: History, q: Path, oid: Oid)
    requires WellFormedRepo(repo) && Exact(repo, s) && Honest(repo, h.source) && h.source.Keys == s.entries.Keys
    requires LeadsTo(Nodes(repo), q, oid)
    ensures q in h.source && h.source[q] == oid
  {
    hide LeadsTo, Nodes, WellFormedRepo;
    LeadsToUnique(Nodes(repo), q, oid, h.source[q]);
  }

  lemma {:induction false} BytesSubset(repo: Repo, source: map<Path, Oid>, xs: seq<Path>, ys: seq<Path>)
    requires Distinct(xs) && Distinct(ys) && Elements(xs) <= Elements(ys)
    ensures BytesOf(repo, source, xs) <= BytesOf(repo, source, ys)
    decreases |xs|
  {
    if xs != [] {
      assert xs[0] in Elements(xs) && xs[0] in Elements(ys);
      var i :| 0 <= i < |ys| && ys[i] == xs[0];
      WithoutAt(xs, 0);
      WithoutAt(ys, i);
      BytesWithoutAt(repo, source, xs, 0);
      BytesWithoutAt(repo, source, ys, i);
      hide BytesOf, Distinct, Elements;
      BytesSubset(repo, source, xs[..0] + xs[1..], ys[..i] + ys[i + 1..]);
    }
  }

  lemma BytesWithin(repo: Repo, s: RepositorySnapshot, h: History)
    requires WellFormedRepo(repo) && Exact(repo, s) && Honest(repo, h.source) && h.source.Keys == s.entries.Keys
    requires Distinct(h.order) && Elements(h.order) == h.source.Keys
    ensures !BytesOver(repo, BytesOf(repo, h.source, h.order))
  {
    hide LeadsTo, Nodes, WellFormedRepo, BytesOf, Exact, Distinct;
    var most := BytesOf(repo, h.source, h.order);
    if BytesOver(repo, most) {
      var source: map<Path, Oid>, order: seq<Path> :|
        Distinct(order) && Elements(order) == source.Keys && Honest(repo, source) && BytesOf(repo, source, order) > most;
      forall q | q in order ensures q in source && q in h.source && h.source[q] == source[q] {
        assert q in Elements(order);
        SourceIs(repo, s, h, q, source[q]);
      }
      BytesStable(repo, source, h.source, order);
      BytesSubset(repo, h.source, order, h.order);
    }
  }

  /** What is laid out is a plain committed file or an output of a record. */
  lemma {:induction false} LaidMember(repo: Repo, paths: seq<Path>, links: seq<LinkRecord>, q: Path)
    requires q in Laid(repo, paths, links)
    ensures Regular(repo, q) || exists i :: 0 <= i < |links| && q in links[i].outputPaths
  {
    if paths != [] {
      var p, init := paths[|paths| - 1], paths[..|paths| - 1];
      if Regular(repo, p) {
        if q != p { LaidMember(repo, init, links, q); }
      } else if links == [] {
        LaidMember(repo, init, links, q);
      } else if q !in links[|links| - 1].outputPaths {
        LaidMember(repo, init, links[..|links| - 1], q);
      }
    }
  }

  lemma AliasesWithin(repo: Repo, s: RepositorySnapshot, h: History, most: nat)
    requires WellFormedRepo(repo) && Exact(repo, s) && Honest(repo, h.source) && h.source.Keys == s.entries.Keys
    requires Elements(h.order) == h.source.Keys && Ledger(repo, IndexPaths(repo), h, s.links)
    requires forall oid: Oid :: |AliasesOf(h.aliases, h.source, oid)| <= most
    ensures !AliasesOver(repo, most)
  {
    hide LeadsTo, Nodes, WellFormedRepo, Exact, Laid, LinkPathsOf, Regular, BytesOf, KindOf, Hop, RawLink, IndexPaths;
    if AliasesOver(repo, most) {
      var oid: Oid, files: set<Path> :| AliasesTo(repo, files, oid) && |files| > most;
      forall q | q in files ensures q in h.aliases && q in h.source && h.source[q] == oid {
        SourceIs(repo, s, h, q, oid);
        assert q in Elements(h.order);
        LaidMember(repo, IndexPaths(repo), s.links, q);
        var i :| 0 <= i < |s.links| && q in s.links[i].outputPaths;
        assert RecordHolds(repo, h, s.links[i]);
      }
      assert files <= AliasesOf(h.aliases, h.source, oid);
      SubsetCard(files, AliasesOf(h.aliases, h.source, oid));
    }
  }

  lemma NoCauseLeft(repo: Repo, s: RepositorySnapshot, h: History, counts: map<Oid, nat>, e: SnapshotError)
    requires WellFormedRepo(repo) && Consistent(repo, s.entries, s.blobByPath, s.totalBytes, counts, h)
    requires Honest(repo, h.source) && Exact(repo, s) && Ledger(repo, IndexPaths(repo), h, s.links)
    requires Covers(Nodes(repo), [], [], h.order, h.source, MAX_SYMLINK_HOPS) && LinkCount(repo) <= MAX_REPOSITORY_SYMLINKS
    ensures !Cause(repo, e)
  {
    hide WellFormedRepo, Honest, Exact, Ledger, Covers, Nodes, WalksTooFar, SelfContaining, BrokenLinkIn, BadLinkIn,
      FilesOver, BytesOver, AliasesOver, IndexPaths, RowsMatch, Distinct, Elements, BytesOf, Committed, AliasesOf;
    RowKeys(repo, s.entries, s.blobByPath, h.source);
    match e
    case PathCollision | ForbiddenPath | SymlinkCountBound =>
    case HopLimit => forall q ensures !WalksTooFar(repo, q) { NoLongWalk(repo, h, q); }
    case Cycle => NothingContainsItself(repo, h);
    case Broken => NoBadLink(repo, h, s.links, MissingObject);
    case BadLink(cause) => NoBadLink(repo, h, s.links, cause);
    case BadObject(_) => forall oid | Committed(repo, oid) ensures oid in repo.blobs { NoMissingObject(repo, s, h, oid); }
    case FileCountBound => FilesWithin(repo, s); FewerFiles(repo, |s.entries|, MAX_REPOSITORY_FILES);
    case ByteBound => BytesWithin(repo, s, h); FewerBytes(repo, s.totalBytes, MAX_REPOSITORY_BYTES);
    case ObjectAliasBound => AliasesWithin(repo, s, h, MAX_OBJECT_MATERIALIZATIONS);
  }

  lemma FewerFiles(repo: Repo, low: nat, high: nat)
    requires low <= high && !FilesOver(repo, low)
    ensures !FilesOver(repo, high)
  {
    hide LeadsTo, Nodes;
  }

  lemma FewerBytes(repo: Repo, low: nat, high: nat)
    requires low <= high && !BytesOver(repo, low)
    ensures !BytesOver(repo, high)
  {
    hide Honest, Distinct, Elements, BytesOf;
  }

  /** `snapshot_repository` on a committed tree: an exact, prefix-free, fully accounted snapshot in
      manifest order exactly when no cause of failure holds of the tree, or an error whose own cause
      holds, which is never a path collision or a forbidden output. */
  method SnapshotRepository(repo: Repo) returns (r: Result<RepositorySnapshot, SnapshotError>, ghost h: History)
    requires WellFormedRepo(repo)
    ensures r.Ok? ==> Exact(repo, r.value) && PrefixFree(r.value.entries.Keys)
    ensures r.Ok? ==> M.Lists(r.value.order, r.value.entries.Keys)
    ensures r.Ok? ==> (forall q | q in r.value.order :: q in r.value.entries)
                      && r.value.totalBytes == RowBytes(r.value.entries, r.value.order) <= MAX_REPOSITORY_BYTES
                      && |r.value.entries| <= MAX_REPOSITORY_FILES
    ensures r.Ok? ==> Distinct(h.order) && Elements(h.order) == r.value.entries.Keys
                      && Ledger(repo, IndexPaths(repo), h, r.value.links)
    ensures r.Ok? ==> forall oid: Oid :: |AliasesOf(h.aliases, h.source, oid)| <= MAX_OBJECT_MATERIALIZATIONS
    ensures r.Err? ==> Cause(repo, r.error)
    ensures r.Ok? <==> forall e :: !Cause(repo, e)
  {
    hide Cause, Exact, Covers, Ledger, WellFormedRepo, Nodes, IndexPaths, Honest, Apart, M.ManifestPathOrder;
    var builder := new Builder(repo);
    r := builder.Build();
    h := builder.history;
    if r.Ok? {
      FinishedSnapshot(repo, r.value, h, builder.objectMaterializations);
      forall e ensures !Cause(repo, e) { NoCauseLeft(repo, r.value, h, builder.objectMaterializations, e); }
    }
  }

  lemma FinishedSnapshot(repo: Repo, s: RepositorySnapshot, h: History, counts: map<Oid, nat>)
    requires WellFormedRepo(repo) && Consistent(repo, s.entries, s.blobByPath, s.totalBytes, counts, h)
    requires Covers(Nodes(repo), [], [], h.order, h.source, MAX_SYMLINK_HOPS)
    requires s.order == M.ManifestPathOrder(s.entries.Keys, [])
    ensures Exact(repo, s) && M.Lists(s.order, s.entries.Keys)
    ensures forall q | q in s.order :: q in s.entries
    ensures s.totalBytes == RowBytes(s.entries, s.order)
  {
    hide Exact, Covers, Nodes, M.ManifestPathOrder, CountsMatch, RowBytes, BytesOf, WellFormedRepo;
    hide PrefixFree;
    CoveredIsExact(repo, s, h);
    RootHasNoFile(repo, s, h);
    OrderLists(s.entries.Keys);
    assert forall q | q in s.order :: q in Elements(s.order);
    BytesPermute(repo, h.source, h.order, s.order);
    RowBytesAre(repo, s.entries, s.blobByPath, h.source, s.order);
  }

  lemma OrderLists(paths: set<Path>)
    requires [] !in paths
    ensures var order := M.ManifestPathOrder(paths, []);
            M.Lists(order, paths) && Distinct(order) && Elements(order) == paths
  {
    hide M.ManifestPathOrder;
    M.ManifestLists(paths, []);
    assert M.Below(paths, []) == paths;
  }

  lemma RootHasNoFile(repo: Repo, s: RepositorySnapshot, h: History)
    requires WellFormedRepo(repo) && Exact(repo, s)
    ensures [] !in s.entries
  {
    hide Nodes, LeadsTo;
    NodesWellFormed(repo);
    forall oid ensures !LeadsTo(Nodes(repo), [], oid) { RootLeadsNowhere(Nodes(repo), oid); }
  }

  lemma RootLeadsNowhere(tree: Tree, oid: Oid)
    requires [] !in tree
    ensures !LeadsTo(tree, [], oid)
  {
    assert Leaf(tree, []) == None;
    assert forall n: nat :: Follow(tree, [], n) == None;
  }

  /** A directory that holds exactly the snapshot's entries is read back by the verifiers' sorted
      walk in the snapshot's own order, row for row. */
  lemma SnapshotVerifies(s: RepositorySnapshot, dir: M.Directory)
    requires [] !in s.entries && s.order == M.ManifestPathOrder(s.entries.Keys, [])
    requires M.FilesOf(dir, []) == s.entries.Keys
    requires forall p | p in s.entries :: M.InfoAt(dir, p) == Some(s.entries[p])
    ensures M.PathsOf(M.WalkRows(dir, [])) == s.order
    ensures M.WalkRows(dir, []) == M.ManifestRows(s.entries)
  {
    M.BuilderMatchesVerifiers(s.entries, dir);
  }
}
