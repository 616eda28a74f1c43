/** The reference meaning of a path in a committed tree that holds symbolic links. */
module TreeWalk {
  import opened Outcomes
  import opened Paths

  type Oid = string

  /** A leaf of the committed index: a file's object, or a link's lexically resolved target
      (`None` when the link text itself is rejected). */
  datatype Node = Blob(oid: Oid, exec: bool) | Link(target: Option<Path>)

  type Tree = map<Path, Node>

  /** What a well-formed commit guarantees: safe names, and no file that is also a directory. */
  ghost predicate WellFormed(tree: Tree) {
    && (forall p | p in tree :: p != [] && SafePath(p))
    && PrefixFree(tree.Keys)
  }

  // ---------------------------------------------------------------- committed kinds

  datatype Kind = KBlob(oid: Oid, exec: bool) | KLink(target: Option<Path>) | KTree | KAbsent

  predicate IsDirectory(tree: Tree, p: Path) {
    p == [] || exists q | q in tree :: p < q
  }

  function KindOf(tree: Tree, p: Path): Kind {
    if p in tree then
      match tree[p]
      case Blob(oid, exec) => KBlob(oid, exec)
      case Link(target) => KLink(target)
    else if IsDirectory(tree, p) then KTree
    else KAbsent
  }

  // ---------------------------------------------------------------- the reference walk

  ghost predicate LeafAbove(tree: Tree, p: Path, q: Path) {
    p in tree && p <= q
  }

  /** The index leaf that is a component prefix of `q`; a well-formed index has at most one. */
  ghost function Leaf(tree: Tree, q: Path): (p: Option<Path>)
    ensures p.Some? ==> LeafAbove(tree, p.value, q)
    ensures p == None ==> forall p' :: !LeafAbove(tree, p', q)
  {
    if p :| LeafAbove(tree, p, q) then Some(p) else None
  }

  /** The reference semantics: find the index leaf above `q`; a file must be `q` itself; a link
      is replaced by its target and the walk goes on with the rest of the path. */
  ghost function Follow(tree: Tree, q: Path, hops: nat): Option<Oid>
    decreases hops
  {
    match Leaf(tree, q)
    case None => None
    case Some(p) =>
      match tree[p]
      case Blob(oid, _) => if p == q then Some(oid) else None
      case Link(target) =>
        if hops == 0 || target == None then None
        else Follow(tree, target.value + q[|p|..], hops - 1)
  }

  /** The walk from `q` ends at a committed file with this object id. */
  ghost predicate LeadsTo(tree: Tree, q: Path, oid: Oid) {
    exists hops: nat :: Follow(tree, q, hops) == Some(oid)
  }

  lemma LeafIs(tree: Tree, p: Path, q: Path)
    requires PrefixFree(tree.Keys) && LeafAbove(tree, p, q)
    ensures Leaf(tree, q) == Some(p)
  {
    Comparable(p, Leaf(tree, q).value, q);
  }

  lemma {:induction false} FollowMoreHops(tree: Tree, q: Path, hops: nat, more: nat)
    requires hops <= more && Follow(tree, q, hops).Some?
    ensures Follow(tree, q, more) == Follow(tree, q, hops)
    decreases hops
  {
    var p := Leaf(tree, q).value;
    if tree[p].Link? {
      FollowMoreHops(tree, tree[p].target.value + q[|p|..], hops - 1, more - 1);
    }
  }

  /** The walk is a partial function: a path leads to at most one object. */
  lemma LeadsToUnique(tree: Tree, q: Path, a: Oid, b: Oid)
    requires LeadsTo(tree, q, a) && LeadsTo(tree, q, b)
    ensures a == b
  {
    var m: nat :| Follow(tree, q, m) == Some(a);
    var n: nat :| Follow(tree, q, n) == Some(b);
    FollowMoreHops(tree, q, m, m + n);
    FollowMoreHops(tree, q, n, m + n);
  }

  // ---------------------------------------------------------------- chains of links

  /** Where `k` link hops from `start` end, every stop being exactly a committed link. */
  function Hop(tree: Tree, start: Path, k: nat): Option<Path>
    decreases k
  {
    if k == 0 then Some(start)
    else match KindOf(tree, start)
      case KLink(Some(target)) => Hop(tree, target, k - 1)
      case _ => None
  }

  lemma {:induction false} HopExtends(tree: Tree, start: Path, k: nat)
    requires Hop(tree, start, k).Some?
    ensures Hop(tree, start, k + 1) ==
            match KindOf(tree, Hop(tree, start, k).value)
            case KLink(target) => target
            case _ => None
    decreases k
  {
    if k > 0 { HopExtends(tree, KindOf(tree, start).target.value, k - 1); }
    else if KindOf(tree, start).KLink? && KindOf(tree, start).target.Some? {
      assert Hop(tree, KindOf(tree, start).target.value, 0) == KindOf(tree, start).target;
    }
  }

  lemma {:induction false} HopPrefix(tree: Tree, start: Path, j: nat, k: nat)
    requires j <= k && Hop(tree, start, k).Some?
    ensures Hop(tree, start, j).Some?
    ensures Hop(tree, Hop(tree, start, j).value, k - j) == Hop(tree, start, k)
    decreases k
  {
    if j > 0 { HopPrefix(tree, KindOf(tree, start).target.value, j - 1, k - 1); }
  }

  lemma FollowLink(tree: Tree, link: Path, rest: Path, hops: nat)
    requires PrefixFree(tree.Keys) && link in tree && tree[link].Link?
    ensures Follow(tree, link + rest, hops) ==
              if hops == 0 || tree[link].target == None then None
              else Follow(tree, tree[link].target.value + rest, hops - 1)
  {
    assert LeafAbove(tree, link, link + rest);
    LeafIs(tree, link, link + rest);
    assert (link + rest)[|link|..] == rest;
  }

  /** Following anything below a chain of links costs exactly the chain's hops. */
  lemma {:induction false} FollowAlong(tree: Tree, start: Path, k: nat, end: Path, rest: Path, hops: nat)
    requires PrefixFree(tree.Keys) && Hop(tree, start, k) == Some(end)
    ensures hops < k ==> Follow(tree, start + rest, hops) == None
    ensures hops >= k ==> Follow(tree, start + rest, hops) == Follow(tree, end + rest, hops - k)
    decreases k
  {
    hide Follow, PrefixFree;
    if k > 0 {
      var target := tree[start].target.value;
      FollowLink(tree, start, rest, hops);
      if hops > 0 { FollowAlong(tree, target, k - 1, end, rest, hops - 1); }
    }
  }

  /** A chain of links that comes back to a stop it already made leads nowhere at all. */
  lemma {:induction false} CycleLeadsNowhere(tree: Tree, stop: Path, k: nat, rest: Path, hops: nat)
    requires PrefixFree(tree.Keys) && k > 0 && Hop(tree, stop, k) == Some(stop)
    ensures Follow(tree, stop + rest, hops) == None
    decreases hops
  {
    FollowAlong(tree, stop, k, stop, rest, hops);
    if hops >= k { CycleLeadsNowhere(tree, stop, k, rest, hops - k); }
  }

  lemma NoLeafAboveDirectory(tree: Tree, dir: Path, leaf: Path)
    requires PrefixFree(tree.Keys) && dir !in tree && IsDirectory(tree, dir) && leaf in tree
    ensures !(leaf <= dir)
  {
    if dir != [] {
      var below :| below in tree && dir < below;
      assert leaf <= dir ==> leaf <= below;
    }
  }

  /** Below a committed directory, the leaf of a path is one of the directory's descendants. */
  lemma LeafBelowDirectory(tree: Tree, dir: Path, rel: Path, hops: nat)
    requires PrefixFree(tree.Keys) && KindOf(tree, dir).KTree?
    requires Follow(tree, dir + rel, hops).Some?
    ensures Leaf(tree, dir + rel).Some? && dir < Leaf(tree, dir + rel).value
  {
    var p := Leaf(tree, dir + rel).value;
    Comparable(p, dir, dir + rel);
    NoLeafAboveDirectory(tree, dir, p);
  }

  /** A path through a plain file has nothing below it. */
  lemma NothingBelowBlob(tree: Tree, p: Path, rest: Path, hops: nat)
    requires PrefixFree(tree.Keys) && p in tree && tree[p].Blob?
    ensures Follow(tree, p + rest, hops) == if rest == [] then Some(tree[p].oid) else None
  {
    assert LeafAbove(tree, p, p + rest);
    LeafIs(tree, p, p + rest);
  }

  /** Targets are resolved lexically: a path through a linked directory is absent as a committed path,
      although the reference walk would go on from the link's own target. */
  lemma ThroughLinkIsAbsent(tree: Tree, link: Path, rest: Path, hops: nat)
    requires PrefixFree(tree.Keys) && link in tree && tree[link].Link? && tree[link].target.Some? && rest != []
    ensures KindOf(tree, link + rest) == KAbsent
    ensures Follow(tree, link + rest, hops + 1) == Follow(tree, tree[link].target.value + rest, hops)
  {
    FollowLink(tree, link, rest, hops + 1);
    assert link < link + rest;
    forall q | q in tree ensures q != link + rest && !(link + rest < q) {
      assert link + rest <= q ==> link <= q;
    }
  }
}
