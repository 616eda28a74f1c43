/** Walks that count their links: how one path becomes another by replacing link after link. */
module LinkWalk {
  import opened Outcomes
  import opened Paths
  import opened TreeWalk

  /** Where the walk from `q` stands after replacing `k` links, each a leaf above the path so far. */
  ghost function Walk(tree: Tree, q: Path, k: nat): Option<Path>
    decreases k
  {
    if k == 0 then Some(q)
    else
      match Leaf(tree, q)
      case None => None
      case Some(p) => if tree[p].Link? && tree[p].target.Some? then Walk(tree, tree[p].target.value + q[|p|..], k - 1) else None
  }

  /** Going on below the path makes no difference to the links replaced. */
  lemma {:induction false} WalkBelow(tree: Tree, q: Path, k: nat, rest: Path)
    requires PrefixFree(tree.Keys) && Walk(tree, q, k).Some?
    ensures Walk(tree, q + rest, k) == Some(Walk(tree, q, k).value + rest)
    decreases k
  {
    if k > 0 {
      var p := Leaf(tree, q).value;
      assert LeafAbove(tree, p, q + rest);
      LeafIs(tree, p, q + rest);
      var next := tree[p].target.value + q[|p|..];
      assert (q + rest)[|p|..] == q[|p|..] + rest;
      assert tree[p].target.value + (q + rest)[|p|..] == next + rest;
      WalkBelow(tree, next, k - 1, rest);
    }
  }

  lemma {:induction false} WalkOn(tree: Tree, q: Path, j: nat, k: nat)
    requires Walk(tree, q, j).Some?
    ensures Walk(tree, q, j + k) == Walk(tree, Walk(tree, q, j).value, k)
    decreases j
  {
    if j > 0 {
      var p := Leaf(tree, q).value;
      WalkOn(tree, tree[p].target.value + q[|p|..], j - 1, k);
    }
  }

  /** A chain of links is a walk. */
  lemma {:induction false} HopIsWalk(tree: Tree, start: Path, k: nat)
    requires PrefixFree(tree.Keys) && Hop(tree, start, k).Some?
    ensures Walk(tree, start, k) == Hop(tree, start, k)
    decreases k
  {
    if k > 0 {
      assert LeafAbove(tree, start, start);
      LeafIs(tree, start, start);
      var target := tree[start].target.value;
      assert target + start[|start|..] == target;
      HopIsWalk(tree, target, k - 1);
    }
  }

  lemma {:induction false} WalkFollows(tree: Tree, q: Path, k: nat, hops: nat)
    requires Walk(tree, q, k).Some?
    ensures Follow(tree, q, k + hops) == Follow(tree, Walk(tree, q, k).value, hops)
    decreases k
  {
    if k > 0 {
      var p := Leaf(tree, q).value;
      WalkFollows(tree, tree[p].target.value + q[|p|..], k - 1, hops);
    }
  }

  // ---------------------------------------------------------------- links used on the way

  /** The links a walk has used after `k` hops from `start`. */
  ghost function Stops(tree: Tree, start: Path, k: nat): set<Path> {
    if k == 0 || Hop(tree, start, k - 1) == None then {}
    else Stops(tree, start, k - 1) + {Hop(tree, start, k - 1).value}
  }

  lemma {:induction false} StopHasIndex(tree: Tree, start: Path, k: nat, p: Path)
    requires p in Stops(tree, start, k)
    ensures exists j: nat :: j < k && Hop(tree, start, j) == Some(p)
  {
    if Hop(tree, start, k - 1) == Some(p) {
      assert k - 1 < k;
    } else {
      StopHasIndex(tree, start, k - 1, p);
      var j: nat :| j < k - 1 && Hop(tree, start, j) == Some(p);
      assert j < k;
    }
  }

  /** At or below `x`, some path walks to `cur` over at least one link. */
  ghost predicate Contains(tree: Tree, x: Path, cur: Path) {
    exists rel: Path, k: nat :: k > 0 && Walk(tree, x + rel, k) == Some(cur)
  }

  /** Every link in the chain leads, at or below itself, to the current path. */
  ghost predicate ChainOk(tree: Tree, chain: set<Path>, cur: Path) {
    forall x | x in chain :: Contains(tree, x, cur)
  }

  /** Some path, at or below itself, walks back to itself: the files below it have no end. */
  ghost predicate SelfContaining(tree: Tree) {
    exists x: Path :: Contains(tree, x, x)
  }

  lemma ContainsBelow(tree: Tree, x: Path, cur: Path, rel: Path)
    requires PrefixFree(tree.Keys) && Contains(tree, x, cur)
    ensures Contains(tree, x, cur + rel)
  {
    var r: Path, k: nat :| k > 0 && Walk(tree, x + r, k) == Some(cur);
    WalkBelow(tree, x + r, k, rel);
    assert (x + r) + rel == x + (r + rel);
  }

  lemma ContainsOn(tree: Tree, x: Path, cur: Path, k: nat, end: Path)
    requires PrefixFree(tree.Keys) && Contains(tree, x, cur) && Hop(tree, cur, k) == Some(end)
    ensures Contains(tree, x, end)
  {
    var r: Path, j: nat :| j > 0 && Walk(tree, x + r, j) == Some(cur);
    HopIsWalk(tree, cur, k);
    WalkOn(tree, x + r, j, k);
  }

  lemma StopContains(tree: Tree, start: Path, k: nat, end: Path, x: Path)
    requires PrefixFree(tree.Keys) && Hop(tree, start, k) == Some(end) && x in Stops(tree, start, k)
    ensures Contains(tree, x, end)
  {
    StopHasIndex(tree, start, k, x);
    var j: nat :| j < k && Hop(tree, start, j) == Some(x);
    HopPrefix(tree, start, j, k);
    HopIsWalk(tree, x, k - j);
    assert x + [] == x;
  }

  lemma ChainDescends(tree: Tree, chain: set<Path>, dir: Path, rel: Path)
    requires PrefixFree(tree.Keys) && ChainOk(tree, chain, dir)
    ensures ChainOk(tree, chain, dir + rel)
  {
    hide Contains;
    forall x | x in chain ensures Contains(tree, x, dir + rel) { ContainsBelow(tree, x, dir, rel); }
  }

  lemma ChainResolves(tree: Tree, chain: set<Path>, leaf: Path, k: nat, end: Path)
    requires PrefixFree(tree.Keys) && ChainOk(tree, chain, leaf) && Hop(tree, leaf, k) == Some(end)
    ensures ChainOk(tree, chain + Stops(tree, leaf, k), end)
  {
    hide Contains, Stops;
    forall x | x in chain + Stops(tree, leaf, k) ensures Contains(tree, x, end) {
      if x in chain { ContainsOn(tree, x, leaf, k, end); } else { StopContains(tree, leaf, k, end, x); }
    }
  }

  /** Coming back to a link already in use, in this resolution or an enclosing one, means that some
      directory or link contains itself. */
  lemma RevisitIsCycle(tree: Tree, chain: set<Path>, leaf: Path, k: nat, path: Path)
    requires PrefixFree(tree.Keys) && ChainOk(tree, chain, leaf) && Hop(tree, leaf, k) == Some(path)
    requires path in chain + Stops(tree, leaf, k)
    ensures SelfContaining(tree)
  {
    hide Contains, Stops;
    ChainResolves(tree, chain, leaf, k, path);
    assert Contains(tree, path, path);
  }

  /** `x` followed by `rounds` copies of `rel` and then `file` */
  ghost function Rounds(x: Path, rel: Path, file: Path, rounds: nat): Path {
    if rounds == 0 then x + file else x + Repeat(rel, rounds) + file
  }

  ghost function Repeat(rel: Path, n: nat): Path { if n == 0 then [] else rel + Repeat(rel, n - 1) }

  /** `rounds` times `k` */
  function Links(k: nat, rounds: nat): (n: nat)
    ensures k > 0 ==> n >= rounds
  {
    if rounds == 0 then 0 else k + Links(k, rounds - 1)
  }

  lemma RoundsSplit(x: Path, rel: Path, file: Path, rounds: nat)
    requires rounds > 0
    ensures exists tail :: Rounds(x, rel, file, rounds) == (x + rel) + tail && Rounds(x, rel, file, rounds - 1) == x + tail
  {
    var tail := Repeat(rel, rounds - 1) + file;
    assert Rounds(x, rel, file, rounds) == (x + rel) + tail;
    if rounds == 1 { assert tail == file; } else { assert Rounds(x, rel, file, rounds - 1) == x + tail; }
  }

  lemma NoRounds(tree: Tree, x: Path, rel: Path, file: Path)
    ensures Walk(tree, Rounds(x, rel, file, 0), 0) == Some(x + file)
  {
  }

  lemma {:induction false} RoundsWalk(tree: Tree, x: Path, rel: Path, k: nat, file: Path, rounds: nat)
    requires PrefixFree(tree.Keys) && k > 0 && Walk(tree, x + rel, k) == Some(x)
    ensures Walk(tree, Rounds(x, rel, file, rounds), Links(k, rounds)) == Some(x + file)
    decreases rounds
  {
    hide Walk, Rounds, PrefixFree;
    if rounds == 0 {
      NoRounds(tree, x, rel, file);
    } else {
      RoundsSplit(x, rel, file, rounds);
      var tail :| Rounds(x, rel, file, rounds) == (x + rel) + tail && Rounds(x, rel, file, rounds - 1) == x + tail;
      WalkBelow(tree, x + rel, k, tail);
      RoundsWalk(tree, x, rel, k, file, rounds - 1);
      WalkOn(tree, (x + rel) + tail, k, Links(k, rounds - 1));
    }
  }

  /** A self-containing path with a file below it reaches that file over ever more links, so no hop
      budget covers it and no finite snapshot is exact. */
  lemma SelfContainingIsEndless(tree: Tree, x: Path, rel: Path, k: nat, file: Path, hops: nat, rounds: nat)
    requires PrefixFree(tree.Keys) && k > 0 && Walk(tree, x + rel, k) == Some(x) && Follow(tree, x + file, hops).Some?
    ensures var q := Rounds(x, rel, file, rounds);
            && Walk(tree, q, Links(k, rounds)).Some? && Links(k, rounds) >= rounds
            && Follow(tree, q, Links(k, rounds) + hops) == Follow(tree, x + file, hops)
  {
    hide Walk, Follow, Rounds, Links, PrefixFree;
    RoundsWalk(tree, x, rel, k, file, rounds);
    WalkFollows(tree, Rounds(x, rel, file, rounds), Links(k, rounds), hops);
  }
}
