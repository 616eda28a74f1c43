/** Flattening a committed tree with links into a bounded set of regular files. */
module Snapshot {
  import opened Outcomes
  import opened Sorting
  import opened Paths
  import opened TreeWalk
  import opened LinkWalk
  import opened GitTree

  const MAX_SYMLINK_HOPS: nat := 32
  const MAX_REPOSITORY_BYTES: nat := 200_000_000
  const MAX_REPOSITORY_FILES: nat := 30_000
  const MAX_REPOSITORY_SYMLINKS: nat := 4_096
  const MAX_OBJECT_MATERIALIZATIONS: nat := 256

  datatype SnapshotError =
    | PathCollision | ForbiddenPath
    | FileCountBound | ByteBound | ObjectAliasBound | SymlinkCountBound
    | HopLimit | Cycle | Broken | BadLink(cause: LinkError) | BadObject(cause: LinkError)

  datatype LinkRecord = LinkRecord(
    linkPath: Path, rawLink: string, resolvedPath: Path, resolved: Kind,
    outputPaths: seq<Path>, fileCount: nat, byteCount: nat)

  // ---------------------------------------------------------------- what a chunk of output covers

  /** No walk from a path at or below `from` replaces more than `budget` links. */
  ghost predicate Within(tree: Tree, from: Path, budget: nat) {
    forall rel: Path :: Walk(tree, from + rel, budget + 1) == None
  }

  lemma BlobWithin(tree: Tree, file: Path, budget: nat)
    requires PrefixFree(tree.Keys) && file in tree && tree[file].Blob?
    ensures Within(tree, file, budget)
  {
    forall rel: Path ensures Walk(tree, file + rel, budget + 1) == None {
      assert LeafAbove(tree, file, file + rel);
      LeafIs(tree, file, file + rel);
    }
  }

  lemma LinksWithin(tree: Tree, link: Path, k: nat, end: Path, budget: nat)
    requires PrefixFree(tree.Keys) && Hop(tree, link, k) == Some(end) && k <= budget
    requires Within(tree, end, budget - k)
    ensures Within(tree, link, budget)
  {
    hide Walk, Hop, PrefixFree;
    HopIsWalk(tree, link, k);
    forall rel: Path ensures Walk(tree, link + rel, budget + 1) == None {
      WalkBelow(tree, link, k, rel);
      WalkOn(tree, link + rel, k, budget - k + 1);
      assert k + (budget - k + 1) == budget + 1;
    }
  }

  /** `outputs` are exactly the files the walk finds at and below `from`, moved to `at`: each one
      holds the object its walk reaches within `budget` hops, no reachable file is missing, and no walk
      goes further than that. */
  ghost predicate Covers(tree: Tree, from: Path, at: Path, outputs: seq<Path>, source: map<Path, Oid>, budget: nat) {
    && (forall q | q in outputs ::
          q in source && at <= q && Follow(tree, from + q[|at|..], budget) == Some(source[q]))
    && (forall rel: Path, n: nat | Follow(tree, from + rel, n).Some? :: at + rel in outputs)
    && Within(tree, from, budget)
  }

  lemma CoversBlob(tree: Tree, file: Path, at: Path, source: map<Path, Oid>, budget: nat)
    requires PrefixFree(tree.Keys) && file in tree && tree[file].Blob?
    requires at in source && source[at] == tree[file].oid
    ensures Covers(tree, file, at, [at], source, budget)
  {
    hide Within;
    BlobWithin(tree, file, budget);
    NothingBelowBlob(tree, file, [], budget);
    assert at[|at|..] == [];
    forall rel: Path, n: nat | Follow(tree, file + rel, n).Some?
      ensures at + rel in [at]
    {
      NothingBelowBlob(tree, file, rel, n);
      assert at + rel == at;
    }
  }

  lemma CoversThroughLinks(tree: Tree, link: Path, k: nat, end: Path, at: Path,
                           outputs: seq<Path>, source: map<Path, Oid>, budget: nat)
    requires PrefixFree(tree.Keys) && Hop(tree, link, k) == Some(end) && k <= budget
    requires Covers(tree, end, at, outputs, source, budget - k)
    ensures Covers(tree, link, at, outputs, source, budget)
  {
    hide Within;
    LinksWithin(tree, link, k, end, budget);
    forall q | q in outputs
      ensures Follow(tree, link + q[|at|..], budget) == Some(source[q])
    {
      FollowAlong(tree, link, k, end, q[|at|..], budget);
    }
    forall rel: Path, n: nat | Follow(tree, link + rel, n).Some?
      ensures at + rel in outputs
    {
      FollowAlong(tree, link, k, end, rel, n);
      assert Follow(tree, end + rel, n - k).Some?;
    }
  }

  // ---------------------------------------------------------------- listing a directory

  function Relocated(p: Path, dir: Path, at: Path): Path
    requires dir <= p
  {
    at + p[|dir|..]
  }

  lemma RelocatedAtRoot(p: Path)
    ensures Relocated(p, [], []) == p
  {
    assert p[0..] == p && [] + p == p;
  }

  ghost predicate Listing(tree: Tree, dir: Path, todo: seq<Path>) {
    && (forall i | 0 <= i < |todo| :: todo[i] in tree && dir <= todo[i] && todo[i] != dir)
    && (forall i, j | 0 <= i < j < |todo| :: todo[i] != todo[j])
    && (forall p | p in tree && dir <= p && p != dir :: p in todo)
  }

  lemma ListedLeaf(tree: Tree, dir: Path, todo: seq<Path>, i: nat)
    requires WellFormed(tree) && Listing(tree, dir, todo) && i < |todo|
    ensures todo[i] in tree && dir <= todo[i] && todo[i] != dir && SafePath(todo[i])
  {
  }

  /** No walk through one of the given leaves of `dir` replaces more than `budget` links. */
  ghost predicate WithinListed(tree: Tree, dir: Path, done: seq<Path>, budget: nat) {
    forall rel: Path | Leaf(tree, dir + rel).Some? && Leaf(tree, dir + rel).value in done :: Walk(tree, dir + rel, budget + 1) == None
  }

  lemma OneMoreWithin(tree: Tree, dir: Path, todo: seq<Path>, i: nat, budget: nat)
    requires i < |todo| && dir <= todo[i] && WithinListed(tree, dir, todo[..i], budget) && Within(tree, todo[i], budget)
    ensures WithinListed(tree, dir, todo[..i + 1], budget)
  {
    hide Walk;
    forall rel: Path | Leaf(tree, dir + rel).Some? && Leaf(tree, dir + rel).value in todo[..i + 1]
      ensures Walk(tree, dir + rel, budget + 1) == None
    {
      if Leaf(tree, dir + rel).value !in todo[..i] {
        assert Leaf(tree, dir + rel).value == todo[i];
        RebaseRelative(todo[i], dir, dir, rel);
        assert Walk(tree, todo[i] + (dir + rel)[|todo[i]|..], budget + 1) == None;
      }
    }
  }

  lemma AllListedWithin(tree: Tree, dir: Path, todo: seq<Path>, budget: nat)
    requires PrefixFree(tree.Keys) && Listing(tree, dir, todo) && KindOf(tree, dir) == KTree
    requires WithinListed(tree, dir, todo, budget)
    ensures Within(tree, dir, budget)
  {
    forall rel: Path ensures Walk(tree, dir + rel, budget + 1) == None {
      if Leaf(tree, dir + rel).Some? {
        var p := Leaf(tree, dir + rel).value;
        Comparable(p, dir, dir + rel);
        NoLeafAboveDirectory(tree, dir, p);
        assert p in todo;
      }
    }
  }

  /** The state of a directory expansion after its first `i` descendants. */
  ghost predicate Progress(tree: Tree, dir: Path, at: Path, todo: seq<Path>, i: nat,
                           outputs: seq<Path>, source: map<Path, Oid>, budget: nat)
    requires i <= |todo| && Listing(tree, dir, todo)
  {
    && (forall q | q in outputs ::
          q in source && at <= q && Follow(tree, dir + q[|at|..], budget) == Some(source[q]))
    && (forall rel: Path, n: nat | Follow(tree, dir + rel, n).Some? && Leaf(tree, dir + rel).value in todo[..i] ::
          at + rel in outputs)
    && (forall q | q in outputs :: exists j | 0 <= j < i :: Relocated(todo[j], dir, at) <= q)
    && WithinListed(tree, dir, todo[..i], budget)
  }

  lemma RebaseOutput(leaf: Path, dir: Path, at: Path, q: Path)
    requires dir <= leaf && Relocated(leaf, dir, at) <= q
    ensures at <= q
    ensures dir + q[|at|..] == leaf + q[|Relocated(leaf, dir, at)|..]
  {
    var out := Relocated(leaf, dir, at);
    assert q == out + q[|out|..];
    assert leaf == dir + leaf[|dir|..];
    assert q[|at|..] == leaf[|dir|..] + q[|out|..];
  }

  lemma RebaseRelative(leaf: Path, dir: Path, at: Path, rel: Path)
    requires dir <= leaf <= dir + rel
    ensures dir + rel == leaf + (dir + rel)[|leaf|..]
    ensures at + rel == Relocated(leaf, dir, at) + (dir + rel)[|leaf|..]
  {
    assert rel == (dir + rel)[|dir|..];
    assert leaf == (dir + rel)[..|leaf|];
    assert leaf[|dir|..] == rel[..|leaf| - |dir|];
    assert (dir + rel)[|leaf|..] == rel[|leaf| - |dir|..];
  }

  lemma ProgressStep(tree: Tree, dir: Path, at: Path, todo: seq<Path>, i: nat,
                     outputs: seq<Path>, source: map<Path, Oid>,
                     added: seq<Path>, source': map<Path, Oid>, budget: nat)
    requires i < |todo| && Listing(tree, dir, todo)
    requires Progress(tree, dir, at, todo, i, outputs, source, budget)
    requires forall q | q in source :: q in source' && source'[q] == source[q]
    requires Covers(tree, todo[i], Relocated(todo[i], dir, at), added, source', budget)
    ensures Progress(tree, dir, at, todo, i + 1, outputs + added, source', budget)
  {
    hide WithinListed, Within;
    var leaf := todo[i];
    OneMoreWithin(tree, dir, todo, i, budget);
    forall q | q in outputs + added
      ensures q in source' && at <= q && Follow(tree, dir + q[|at|..], budget) == Some(source'[q])
      ensures exists j | 0 <= j < i + 1 :: Relocated(todo[j], dir, at) <= q
    {
      if q in outputs {
        var j :| 0 <= j < i && Relocated(todo[j], dir, at) <= q;
      } else {
        RebaseOutput(leaf, dir, at, q);
      }
    }
    forall rel: Path, n: nat | Follow(tree, dir + rel, n).Some? && Leaf(tree, dir + rel).value in todo[..i + 1]
      ensures at + rel in outputs + added
    {
      if Leaf(tree, dir + rel).value !in todo[..i] {
        assert Leaf(tree, dir + rel).value == leaf;
        RebaseRelative(leaf, dir, at, rel);
      }
    }
  }

  lemma ProgressDone(tree: Tree, dir: Path, at: Path, todo: seq<Path>,
                     outputs: seq<Path>, source: map<Path, Oid>, budget: nat)
    requires PrefixFree(tree.Keys) && Listing(tree, dir, todo) && KindOf(tree, dir) == KTree && [] !in tree
    requires Progress(tree, dir, at, todo, |todo|, outputs, source, budget)
    ensures Covers(tree, dir, at, outputs, source, budget)
  {
    hide WithinListed, Within;
    assert todo[..|todo|] == todo;
    AllListedWithin(tree, dir, todo, budget);
    forall rel: Path, n: nat | Follow(tree, dir + rel, n).Some?
      ensures at + rel in outputs
    {
      LeafBelowDirectory(tree, dir, rel, n);
    }
  }

  lemma ProgressStart(tree: Tree, dir: Path, at: Path, todo: seq<Path>, source: map<Path, Oid>, budget: nat)
    requires Listing(tree, dir, todo)
    ensures Progress(tree, dir, at, todo, 0, [], source, budget)
  {
  }

  lemma SortedIsListing(repo: Repo, dir: Path, todo: seq<Path>)
    requires WellFormedRepo(repo) && Ascending(todo, Paths.Leq)
    requires Elements(todo) == set p | p in repo.index && (dir == [] || dir < p)
    ensures Listing(Nodes(repo), dir, todo)
  {
    hide LinkTarget, SafePath, PrefixFree, Paths.Leq;
    assert Nodes(repo).Keys == repo.index.Keys;
    hide Nodes;
    assert forall i | 0 <= i < |todo| :: todo[i] in Elements(todo);
    forall p | p in repo.index && dir <= p && p != dir ensures p in todo {
      assert p in Elements(todo);
    }
  }

  /** `_descendants`: the committed paths strictly below a directory, sorted. */
  function DescendantPaths(repo: Repo, dir: Path): (todo: seq<Path>)
    requires WellFormedRepo(repo)
    ensures Listing(Nodes(repo), dir, todo)
  {
    var todo := SortedPaths(set p | p in repo.index && (dir == [] || dir < p));
    SortedIsListing(repo, dir, todo);
    todo
  }

  /** `sorted(index)` */
  function IndexPaths(repo: Repo): (todo: seq<Path>)
    requires WellFormedRepo(repo)
    ensures Listing(Nodes(repo), [], todo) && Elements(todo) == repo.index.Keys
  {
    var todo := SortedPaths(repo.index.Keys);
    SortedIsListing(repo, [], todo);
    todo
  }

  // ---------------------------------------------------------------- why outputs never collide

  /** No key is at, above or below `p`. */
  ghost predicate Clear(keys: set<Path>, p: Path) {
    forall k | k in keys :: !Related(k, p)
  }

  lemma UnrelatedBelow(k: Path, p: Path, q: Path)
    requires !Related(k, p) && p <= q
    ensures !Related(k, q)
  {
    if k <= q { Comparable(k, p, q); }
  }

  lemma ClearKeepsPrefixFree(keys: set<Path>, p: Path)
    requires PrefixFree(keys) && Clear(keys, p)
    ensures PrefixFree(keys + {p}) && p !in keys
  {
  }

  lemma SiblingsUnrelated(tree: Tree, dir: Path, at: Path, p: Path, q: Path)
    requires PrefixFree(tree.Keys) && p in tree && q in tree && p != q && dir <= p && dir <= q
    ensures !Related(Relocated(p, dir, at), Relocated(q, dir, at))
  {
    var p', q' := Relocated(p, dir, at), Relocated(q, dir, at);
    assert p == dir + p'[|at|..] && q == dir + q'[|at|..];
    assert p' <= q' ==> p <= q;
    assert q' <= p' ==> q <= p;
  }

  /** The next descendant's output path is clear of everything written so far. */
  lemma NextIsClear(tree: Tree, dir: Path, at: Path, todo: seq<Path>, i: nat,
                    outputs: seq<Path>, source: map<Path, Oid>, budget: nat, keys: set<Path>)
    requires PrefixFree(tree.Keys) && i < |todo| && Listing(tree, dir, todo)
    requires Progress(tree, dir, at, todo, i, outputs, source, budget)
    requires Clear(keys, at)
    ensures Clear(keys + Elements(outputs), Relocated(todo[i], dir, at))
  {
    var out := Relocated(todo[i], dir, at);
    forall k | k in keys + Elements(outputs)
      ensures !Related(k, out)
    {
      if k in keys {
        UnrelatedBelow(k, at, out);
      } else {
        var j :| 0 <= j < i && Relocated(todo[j], dir, at) <= k;
        SiblingsUnrelated(tree, dir, at, todo[i], todo[j]);
        UnrelatedBelow(out, Relocated(todo[j], dir, at), k);
      }
    }
  }

  lemma RelocatedIsSafe(p: Path, dir: Path, at: Path)
    requires SafePath(p) && SafePath(at) && at != [] && dir <= p
    ensures SafePath(Relocated(p, dir, at)) && Relocated(p, dir, at) != []
  {
    var out := Relocated(p, dir, at);
    forall i | 0 <= i < |out| ensures IsName(out[i]) {
      if i >= |at| { assert out[i] == p[|dir| + i - |at|]; }
    }
  }
}
