/** Code-point order on strings. */
module Strings {
  import opened Sorting

  /** Python's string comparison: code point by code point, a proper prefix first. */
  predicate Leq(a: string, b: string) {
    a == [] || (b != [] && (a[0] < b[0] || (a[0] == b[0] && Leq(a[1..], b[1..]))))
  }

  lemma {:induction false} LeqTotal(a: string, b: string)
    ensures Leq(a, b) || Leq(b, a)
  {
    if a != [] && b != [] && a[0] == b[0] { LeqTotal(a[1..], b[1..]); }
  }

  lemma {:induction false} LeqAntisymmetric(a: string, b: string)
    requires Leq(a, b) && Leq(b, a)
    ensures a == b
  {
    if a != [] && b != [] {
      LeqAntisymmetric(a[1..], b[1..]);
      assert a == [a[0]] + a[1..];
    }
  }

  lemma {:induction false} LeqTransitive(a: string, b: string, c: string)
    requires Leq(a, b) && Leq(b, c)
    ensures Leq(a, c)
  {
    if a != [] && a[0] == b[0] && b[0] == c[0] { LeqTransitive(a[1..], b[1..], c[1..]); }
  }

  /** `a` comes first: it is a proper prefix, or has the smaller code point where the two first differ. */
  ghost predicate Earlier(a: string, b: string) {
    a < b || exists i: nat :: DiffersBelow(a, b, i)
  }

  /** The smaller code point where the two first differ. */
  predicate DiffersBelow(a: string, b: string, i: nat) {
    i < |a| && i < |b| && a[..i] == b[..i] && a[i] < b[i]
  }

  lemma DiffersInTail(a: string, b: string, i: nat)
    requires a != "" && b != "" && a[0] == b[0]
    ensures DiffersBelow(a[1..], b[1..], i) <==> DiffersBelow(a, b, i + 1)
  {
    if i + 1 < |a| && i + 1 < |b| {
      assert a[..i + 1] == [a[0]] + a[1..][..i] && b[..i + 1] == [b[0]] + b[1..][..i];
      assert a[1..][..i] == a[..i + 1][1..] && b[1..][..i] == b[..i + 1][1..];
    }
  }

  lemma DiffersAtHead(a: string, b: string, i: nat)
    requires a != "" && b != "" && DiffersBelow(a, b, i)
    ensures if i == 0 then a[0] < b[0] else a[0] == b[0]
  {
    if i > 0 { assert a[0] == a[..i][0] && b[0] == b[..i][0]; }
  }

  lemma {:induction false} LeqIff(a: string, b: string)
    ensures Leq(a, b) <==> a == b || Earlier(a, b)
  {
    hide DiffersBelow;
    if a == [] || b == [] {
      assert forall i: nat :: !DiffersBelow(a, b, i) by { Undiffering(a, b); }
    } else {
      LeqIff(a[1..], b[1..]);
      assert a == [a[0]] + a[1..] && b == [b[0]] + b[1..];
      HeadDecides(a, b);
    }
  }

  lemma Undiffering(a: string, b: string)
    requires a == [] || b == []
    ensures forall i: nat :: !DiffersBelow(a, b, i)
  {
  }

  lemma HeadDecides(a: string, b: string)
    requires a != "" && b != ""
    ensures Earlier(a, b) <==> a[0] < b[0] || (a[0] == b[0] && Earlier(a[1..], b[1..]))
  {
    hide DiffersBelow;
    assert a == [a[0]] + a[1..] && b == [b[0]] + b[1..];
    forall i: nat | DiffersBelow(a, b, i) ensures if i == 0 then a[0] < b[0] else a[0] == b[0] { DiffersAtHead(a, b, i); }
    if a[0] == b[0] {
      forall i: nat ensures DiffersBelow(a[1..], b[1..], i) <==> DiffersBelow(a, b, i + 1) { DiffersInTail(a, b, i); }
      if exists i: nat :: DiffersBelow(a, b, i) {
        var i: nat :| DiffersBelow(a, b, i);
        assert DiffersBelow(a[1..], b[1..], i - 1) <==> DiffersBelow(a, b, i - 1 + 1);
      }
    }
    if a[0] < b[0] { HeadDiffers(a, b); }
  }

  lemma HeadDiffers(a: string, b: string)
    requires a != "" && b != "" && a[0] < b[0]
    ensures DiffersBelow(a, b, 0)
  {
    assert a[..0] == b[..0];
  }

  lemma LeqIsTotalOn(s: set<string>)
    ensures TotalOn(s, Leq)
  {
    forall a, b | a in s && b in s ensures Leq(a, b) || Leq(b, a) { LeqTotal(a, b); }
    forall a, b | a in s && b in s && Leq(a, b) && Leq(b, a) ensures a == b { LeqAntisymmetric(a, b); }
    forall a, b, c | a in s && b in s && c in s && Leq(a, b) && Leq(b, c) ensures Leq(a, c) {
      LeqTransitive(a, b, c);
    }
  }

  function SortedStrings(s: set<string>): (xs: seq<string>)
    ensures Elements(xs) == s && |xs| == |s|
    ensures Ascending(xs, Leq)
  {
    LeqIsTotalOn(s);
    Sorted(s, Leq)
  }
}
