/** Python's `sorted` on a set of distinct values, for any order that is total on that set. */
module Sorting {

  ghost predicate TotalOn<T(!new)>(s: set<T>, leq: (T, T) -> bool) {
    && (forall a, b | a in s && b in s :: leq(a, b) || leq(b, a))
    && (forall a, b | a in s && b in s && leq(a, b) && leq(b, a) :: a == b)
    && (forall a, b, c | a in s && b in s && c in s && leq(a, b) && leq(b, c) :: leq(a, c))
  }

  /** Ascending with no repetition. */
  ghost predicate Ascending<T(!new)>(xs: seq<T>, leq: (T, T) -> bool) {
    forall i, j | 0 <= i < j < |xs| :: leq(xs[i], xs[j]) && xs[i] != xs[j]
  }

  ghost function Elements<T>(xs: seq<T>): set<T> {
    set x | x in xs
  }

  lemma LeastExists<T(!new)>(s: set<T>, leq: (T, T) -> bool)
    requires s != {} && TotalOn(s, leq)
    ensures exists m | m in s :: forall x | x in s :: leq(m, x)
  {
    var y :| y in s;
    var rest := s - {y};
    if rest == {} {
      assert s == {y};
    } else {
      LeastExists(rest, leq);
      var m :| m in rest && forall x | x in rest :: leq(m, x);
      var least := if leq(m, y) then m else y;
      assert forall x | x in s :: x in rest || x == y;
      assert least in s && forall x | x in s :: leq(least, x);
    }
  }

  function Least<T(==, !new)>(s: set<T>, leq: (T, T) -> bool): (m: T)
    requires s != {} && TotalOn(s, leq)
    ensures m in s && forall x | x in s :: leq(m, x)
  {
    LeastExists(s, leq);
    var m :| m in s && forall x | x in s :: leq(m, x);
    m
  }

  lemma SubsetTotal<T(!new)>(s: set<T>, part: set<T>, leq: (T, T) -> bool)
    requires TotalOn(s, leq) && part <= s
    ensures TotalOn(part, leq)
  {
  }

  lemma ConsAscending<T(!new)>(m: T, rest: seq<T>, leq: (T, T) -> bool)
    requires Ascending(rest, leq)
    requires m !in Elements(rest) && forall x | x in Elements(rest) :: leq(m, x)
    ensures Ascending([m] + rest, leq)
    ensures Elements([m] + rest) == {m} + Elements(rest)
  {
    var all := [m] + rest;
    forall i, j | 0 <= i < j < |all|
      ensures leq(all[i], all[j]) && all[i] != all[j]
    {
      assert all[j] == rest[j - 1] && rest[j - 1] in Elements(rest);
      if i > 0 { assert all[i] == rest[i - 1]; }
    }
    forall x | x in {m} + Elements(rest) ensures x in all {
      if x == m { assert all[0] == x; } else {
        var k :| 0 <= k < |rest| && rest[k] == x;
        assert all[k + 1] == x;
      }
    }
  }

  function Sorted<T(==, !new)>(s: set<T>, leq: (T, T) -> bool): (xs: seq<T>)
    requires TotalOn(s, leq)
    ensures Elements(xs) == s && |xs| == |s|
    ensures Ascending(xs, leq)
  {
    if s == {} then [] else
      var m := Least(s, leq);
      SubsetTotal(s, s - {m}, leq);
      var rest := Sorted(s - {m}, leq);
      ConsAscending(m, rest, leq);
      [m] + rest
  }

  /** An ascending listing of a set is the sorted listing: the order decides everything. */
  lemma {:induction false} SortedIsUnique<T(!new)>(xs: seq<T>, ys: seq<T>, leq: (T, T) -> bool)
    requires TotalOn(Elements(xs), leq)
    requires Ascending(xs, leq) && Ascending(ys, leq)
    requires Elements(xs) == Elements(ys)
    ensures xs == ys
  {
    assert ys != [] ==> ys[0] in Elements(ys);
    if xs == [] {
    } else {
      assert xs[0] in Elements(xs) && xs[0] in Elements(ys);
      assert ys[0] in Elements(ys) && ys[0] in Elements(xs);
      var i :| 0 <= i < |ys| && ys[i] == xs[0];
      var j :| 0 <= j < |xs| && xs[j] == ys[0];
      assert xs[0] == ys[0];
      TailElements(xs);
      TailElements(ys);
      SortedIsUnique(xs[1..], ys[1..], leq);
    }
  }

  lemma TailElements<T(!new)>(xs: seq<T>)
    requires |xs| > 0 && forall i | 0 < i < |xs| :: xs[i] != xs[0]
    ensures Elements(xs[1..]) == Elements(xs) - {xs[0]}
  {
    forall x | x in Elements(xs) - {xs[0]}
      ensures x in xs[1..]
    {
      var i :| 0 <= i < |xs| && xs[i] == x;
      assert xs[1..][i - 1] == x;
    }
  }

  lemma {:induction false} AscendingCount<T(!new)>(xs: seq<T>, leq: (T, T) -> bool)
    requires Ascending(xs, leq)
    ensures |Elements(xs)| == |xs|
  {
    if xs == [] {
      assert Elements(xs) == {};
    } else {
      TailElements(xs);
      AscendingCount(xs[1..], leq);
      assert xs[0] in Elements(xs);
    }
  }

  ghost function Below<T(!new)>(s: set<T>, x: T, leq: (T, T) -> bool): set<T> {
    set y | y in s && y != x && leq(y, x)
  }

  /** In a sorted listing an element stands behind as many others as are below it. */
  lemma IndexIsCount<T(!new)>(xs: seq<T>, i: nat, leq: (T, T) -> bool)
    requires i < |xs| && Ascending(xs, leq) && TotalOn(Elements(xs), leq)
    ensures |Below(Elements(xs), xs[i], leq)| == i
  {
    var front := xs[..i];
    forall y | y in Elements(front) ensures y in Below(Elements(xs), xs[i], leq) {
      var k :| 0 <= k < i && xs[k] == y;
    }
    forall y | y in Below(Elements(xs), xs[i], leq) ensures y in Elements(front) {
      var k :| 0 <= k < |xs| && xs[k] == y;
      assert xs[i] in Elements(xs);
      assert k < i;
      assert front[k] == y;
    }
    assert Below(Elements(xs), xs[i], leq) == Elements(front);
    AscendingCount(front, leq);
  }
}
