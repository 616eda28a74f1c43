/** The related-work context told from the candidates themselves: who is related, on what evidence, in what order, and when
    the comparison counts as complete. */
module ContextLaws {
  import opened Outcomes
  import opened Sorting
  import opened DecisionContext
  import opened RelatedWork
  import TitleCuts
  import S = Strings

  // ---------------------------------------------------------------- evidence

  /** Both say which issues they close, in one repository, and this is one of both. */
  predicate ClosesToo(a: Source, b: Source, n: int) {
    && a.key.owner == b.key.owner && a.key.repo == b.key.repo && a.closingComplete && b.closingComplete
    && n in a.closing && n in b.closing
  }

  /** At least three candidates and at least half of all touch the path. */
  predicate Crowded(facts: Facts, path: string) {
    var touching := TitleCuts.Touching(facts.candidates, path);
    |touching| >= 3 && 2 * |touching| >= facts.count
  }

  /** Both list their paths, and this uncrowded one is of both. */
  predicate TouchesToo(facts: Facts, a: Source, b: Source, path: string) {
    a.pathsComplete && b.pathsComplete && path in a.paths && path in b.paths && !Crowded(facts, path)
  }

  predicate Mentions(target: Source, c: Source) {
    target.referencesComplete && c.key in target.references
  }

  ghost predicate ClosesSame(target: Source, c: Source) { exists n :: ClosesToo(target, c, n) }

  ghost predicate TouchesSame(facts: Facts, target: Source, c: Source) { exists p :: TouchesToo(facts, target, c, p) }

  lemma CrowdedIsHub(facts: Facts, path: string)
    requires WellKeyed(facts)
    ensures Crowded(facts, path) <==> Hub(facts, path)
  {
    hide Fanout;
    TitleCuts.FanoutIsCount(facts.candidates, path);
  }

  lemma CommonTells(facts: Facts, target: Source, c: Source)
    requires WellKeyed(facts)
    ensures forall n :: n in CommonIssues(target, c) <==> ClosesToo(target, c, n)
    ensures forall p :: p in CommonPaths(facts, target, c) <==> TouchesToo(facts, target, c, p)
  {
    hide Crowded, Hub;
    forall p ensures p in CommonPaths(facts, target, c) <==> TouchesToo(facts, target, c, p) { CrowdedIsHub(facts, p); }
  }

  lemma SomeMember<T>(s: set<T>) returns (x: T)
    requires s != {}
    ensures x in s
  {
    x :| x in s;
  }

  lemma EvidenceTells(facts: Facts, target: Source, c: Source)
    requires WellKeyed(facts)
    ensures CommonIssues(target, c) != {} <==> ClosesSame(target, c)
    ensures CommonPaths(facts, target, c) != {} <==> TouchesSame(facts, target, c)
    ensures Refers(target, c) <==> Mentions(target, c)
  {
    hide CommonIssues, CommonPaths, ClosesToo, TouchesToo;
    CommonTells(facts, target, c);
    var issues, paths := CommonIssues(target, c), CommonPaths(facts, target, c);
    if issues != {} {
      var n := SomeMember(issues);
      assert ClosesToo(target, c, n);
    }
    if ClosesSame(target, c) {
      var n :| ClosesToo(target, c, n);
      assert n in issues;
    }
    if paths != {} {
      var p :| p in paths;
      assert TouchesToo(facts, target, c, p);
    }
    if TouchesSame(facts, target, c) {
      var p :| TouchesToo(facts, target, c, p);
      assert p in paths;
    }
  }

  /** A candidate is related exactly when it is another one and closes an issue, is mentioned, or touches a path. */
  lemma RelatedIff(facts: Facts, target: Source, c: Source)
    requires WellKeyed(facts)
    ensures IsRelated(facts, target, c) <==>
            c.key != target.key && (ClosesSame(target, c) || Mentions(target, c) || TouchesSame(facts, target, c))
  {
    hide CommonIssues, CommonPaths, Refers, ClosesSame, TouchesSame, Mentions, S.SortedStrings, SortedInts, FirstThree;
    EvidenceTells(facts, target, c);
  }

  /** At most three of the common values, and the least of them. */
  ghost predicate LeastOnes<T(!new)>(listed: seq<T>, common: iset<T>, leq: (T, T) -> bool) {
    && |listed| <= 3 && Ascending(listed, leq)
    && (forall i | 0 <= i < |listed| :: listed[i] in common)
    && (forall x | x in common && x !in listed :: |listed| == 3 && forall i | 0 <= i < |listed| :: leq(listed[i], x) && listed[i] != x)
  }

  lemma FirstAreLeast<T(!new)>(all: seq<T>, common: iset<T>, leq: (T, T) -> bool)
    requires Ascending(all, leq) && forall x :: x in common <==> x in Elements(all)
    ensures LeastOnes(FirstThree(all), common, leq)
  {
    var listed := FirstThree(all);
    forall i | 0 <= i < |listed| ensures listed[i] in common { assert listed[i] == all[i] && all[i] in Elements(all); }
    assert forall k | 0 <= k < |listed| :: all[k] == listed[k] && listed[k] in listed;
    forall x | x in common && x !in listed
      ensures |listed| == 3 && forall i | 0 <= i < |listed| :: leq(listed[i], x) && listed[i] != x
    {
      assert x in Elements(all);
      var k :| 0 <= k < |all| && all[k] == x;
      assert k >= |listed|;
    }
  }

  ghost function ClosedByBoth(target: Source, c: Source): iset<int> { iset n: int | ClosesToo(target, c, n) }

  ghost function TouchedByBoth(facts: Facts, target: Source, c: Source): iset<string> { iset p: string | TouchesToo(facts, target, c, p) }

  /** What a relation of each kind lists. */
  ghost predicate RelationTells(facts: Facts, target: Source, c: Source, r: Relation) {
    match r
    case SameIssue(issues) => issues != [] && LeastOnes(issues, ClosedByBoth(target, c), IntLeq)
    case Reference => Mentions(target, c)
    case SharedPath(paths) => paths != [] && LeastOnes(paths, TouchedByBoth(facts, target, c), S.Leq)
  }

  lemma IssuesListed(facts: Facts, target: Source, c: Source)
    requires WellKeyed(facts) && CommonIssues(target, c) != {}
    ensures RelationTells(facts, target, c, SameIssue(FirstThree(SortedInts(CommonIssues(target, c)))))
  {
    hide CommonIssues, ClosesToo, IntLeq;
    CommonTells(facts, target, c);
    var all := SortedInts(CommonIssues(target, c));
    assert |all| > 0 by { assert |all| == |CommonIssues(target, c)|; }
    FirstAreLeast(all, ClosedByBoth(target, c), IntLeq);
  }

  lemma PathsListed(facts: Facts, target: Source, c: Source)
    requires WellKeyed(facts) && CommonPaths(facts, target, c) != {}
    ensures RelationTells(facts, target, c, SharedPath(FirstThree(S.SortedStrings(CommonPaths(facts, target, c)))))
  {
    hide CommonPaths, TouchesToo, S.Leq;
    CommonTells(facts, target, c);
    var all := S.SortedStrings(CommonPaths(facts, target, c));
    assert |all| > 0 by { assert |all| == |CommonPaths(facts, target, c)|; }
    FirstAreLeast(all, TouchedByBoth(facts, target, c), S.Leq);
  }

  /** The evidence of an entry: one relation for each kind that there is, in the order of the kinds' names, each listing up
      to three of what is common, the least. */
  lemma RelationsTell(facts: Facts, target: Source, c: Source)
    requires WellKeyed(facts)
    ensures var rs := Relations(facts, target, c);
            && (forall i | 0 <= i < |rs| :: RelationTells(facts, target, c, rs[i]))
            && (forall i, j | 0 <= i < j < |rs| :: KindIndex(rs[i]) < KindIndex(rs[j]))
            && (TouchesSame(facts, target, c) <==> exists i :: 0 <= i < |rs| && rs[i].SharedPath?)
            && (Mentions(target, c) <==> exists i :: 0 <= i < |rs| && rs[i].Reference?)
            && (ClosesSame(target, c) <==> exists i :: 0 <= i < |rs| && rs[i].SameIssue?)
  {
    hide CommonIssues, CommonPaths, Refers, ClosesSame, TouchesSame, Mentions, S.SortedStrings, SortedInts, FirstThree, LeastOnes;
    EvidenceTells(facts, target, c);
    if CommonIssues(target, c) != {} { IssuesListed(facts, target, c); }
    if CommonPaths(facts, target, c) != {} { PathsListed(facts, target, c); }
    var paths := if CommonPaths(facts, target, c) == {} then [] else [SharedPath(FirstThree(S.SortedStrings(CommonPaths(facts, target, c))))];
    var issues := if CommonIssues(target, c) == {} then [] else [SameIssue(FirstThree(SortedInts(CommonIssues(target, c))))];
    var refs := if Refers(target, c) then [Reference] else [];
    var rs := Relations(facts, target, c);
    assert rs == paths + refs + issues;
    if paths != [] { assert rs[0] == paths[0]; }
    if refs != [] { assert rs[|paths|] == Reference; }
    if issues != [] { assert rs[|paths| + |refs|] == issues[0]; }
  }

  // ---------------------------------------------------------------- order

  /** The strongest evidence: a common issue, else a mention, else a common path. */
  ghost function Class(facts: Facts, target: Source, c: Source): nat {
    if ClosesSame(target, c) then 0 else if Mentions(target, c) then 1 else 2
  }

  /** By owner, then by repository, then by number. */
  ghost predicate KeyBefore(a: Key, b: Key) {
    S.Earlier(a.owner, b.owner)
    || (a.owner == b.owner && (S.Earlier(a.repo, b.repo) || (a.repo == b.repo && a.number < b.number)))
  }

  lemma KeyOrder(a: Key, b: Key)
    ensures KeyLeq(a, b) <==> a == b || KeyBefore(a, b)
  {
    hide S.Leq, S.Earlier;
    S.LeqIff(a.owner, b.owner);
    S.LeqIff(a.repo, b.repo);
    NeverEarlier(a.owner);
    NeverEarlier(a.repo);
  }

  lemma NeverEarlier(s: string)
    ensures !S.Earlier(s, s)
  {
  }

  lemma StrengthTells(rs: seq<Relation>)
    requires 1 <= |rs| <= 3
    ensures Strength(rs) == if (exists i :: 0 <= i < |rs| && rs[i].SameIssue?) then 0
                            else if (exists i :: 0 <= i < |rs| && rs[i].Reference?) then 1 else 2
  {
    if |rs| > 1 {
      assert forall i | 1 <= i < |rs| :: rs[i] == rs[1..][i - 1];
      StrengthTells(rs[1..]);
      if (exists i :: 0 <= i < |rs[1..]| && rs[1..][i].SameIssue?) {
        var i :| 0 <= i < |rs[1..]| && rs[1..][i].SameIssue?;
        assert rs[i + 1].SameIssue?;
      }
      if (exists i :: 0 <= i < |rs[1..]| && rs[1..][i].Reference?) {
        var i :| 0 <= i < |rs[1..]| && rs[1..][i].Reference?;
        assert rs[i + 1].Reference?;
      }
    }
  }

  lemma RankTells(facts: Facts, target: Source, c: Source)
    requires WellKeyed(facts) && IsRelated(facts, target, c)
    ensures RankOf(facts, target, c) == Rank(Class(facts, target, c), c.key)
  {
    hide Relations, ClosesSame, Mentions, RelationTells, Strength;
    RelationsTell(facts, target, c);
    RelationCount(facts, target, c);
    StrengthTells(Relations(facts, target, c));
  }

  lemma RelationCount(facts: Facts, target: Source, c: Source)
    ensures |Relations(facts, target, c)| <= 3
  {
    hide CommonIssues, CommonPaths, Refers, S.SortedStrings, SortedInts, FirstThree;
  }

  /** A candidate that closes a common issue precedes one that does not, a mentioned one precedes one related by paths
      alone, and within one class the keys decide. */
  lemma RelatedOrder(facts: Facts, target: Source, c: Source, d: Source, i: nat, j: nat)
    requires WellKeyed(facts) && c in facts.candidates && d in facts.candidates && c != d
    requires IsRelated(facts, target, c) && IsRelated(facts, target, d)
    requires i < |Related(facts, target)| && Related(facts, target)[i] == EntryOf(facts, target, c)
    requires j < |Related(facts, target)| && Related(facts, target)[j] == EntryOf(facts, target, d)
    ensures i < j <==> Class(facts, target, c) < Class(facts, target, d)
                       || (Class(facts, target, c) == Class(facts, target, d) && KeyBefore(c.key, d.key))
  {
    hide Related, IsRelated, RankOf, EntryOf, KeyLeq, KeyBefore, Class, EntryRank, Relations;
    EntryFacts(facts, target, c);
    EntryFacts(facts, target, d);
    RankTells(facts, target, c);
    RankTells(facts, target, d);
    EntryRankIs(facts, target, c);
    EntryRankIs(facts, target, d);
    if c.key == d.key { SameKeySameSource(facts, c, d); }
    if i < j { RelatedInOrder(facts, target, i, j); }
    if j < i { RelatedInOrder(facts, target, j, i); }
    KeyOrder(c.key, d.key);
    KeyOrder(d.key, c.key);
    KeysApart(c.key, d.key);
  }

  lemma EntryRankIs(facts: Facts, target: Source, c: Source)
    requires IsRelated(facts, target, c)
    ensures EntryOf(facts, target, c).relations != [] && EntryRank(EntryOf(facts, target, c)) == RankOf(facts, target, c)
  {
    hide Relations, Strength;
  }

  lemma KeysApart(a: Key, b: Key)
    ensures KeyLeq(a, b) && KeyLeq(b, a) ==> a == b
    ensures KeyLeq(a, b) || KeyLeq(b, a)
  {
    KeysTotal({a, b});
  }

  // ---------------------------------------------------------------- completeness

  /** The two cannot be compared in every respect: the target's references are not known, the paths or, in one
      repository, the closed issues of one of them are not. */
  predicate LeavesOpen(target: Source, c: Source) {
    || !target.referencesComplete || !target.pathsComplete || !c.pathsComplete
    || (target.key.owner == c.key.owner && target.key.repo == c.key.repo && (!target.closingComplete || !c.closingComplete))
  }

  /** Four different things are common, one more than is listed. */
  ghost predicate MoreThanListed(facts: Facts, target: Source, c: Source) {
    || (exists issues: set<int> :: |issues| == 4 && forall n | n in issues :: ClosesToo(target, c, n))
    || (exists paths: set<string> :: |paths| == 4 && forall p | p in paths :: TouchesToo(facts, target, c, p))
  }

  lemma FourOf<T>(s: set<T>) returns (four: set<T>)
    requires |s| > 3
    ensures four <= s && |four| == 4
  {
    var a :| a in s;
    assert |s - {a}| > 2;
    var b :| b in s - {a};
    assert |s - {a} - {b}| > 1;
    var c :| c in s - {a} - {b};
    assert |s - {a} - {b} - {c}| > 0;
    var d :| d in s - {a} - {b} - {c};
    four := {a, b, c, d};
  }

  lemma OverfullIff(facts: Facts, target: Source, c: Source)
    requires WellKeyed(facts)
    ensures Overfull(facts, target, c) <==> MoreThanListed(facts, target, c)
  {
    hide ClosesToo, TouchesToo, CommonIssues, CommonPaths;
    CommonTells(facts, target, c);
    var issues, paths := CommonIssues(target, c), CommonPaths(facts, target, c);
    if |issues| > 3 { var four := FourOf(issues); }
    if |paths| > 3 { var four := FourOf(paths); }
    if four: set<int> :| |four| == 4 && forall n | n in four :: ClosesToo(target, c, n) {
      assert forall n | n in four :: n in issues;
      AtMost(four, issues);
    }
    if four: set<string> :| |four| == 4 && forall p | p in four :: TouchesToo(facts, target, c, p) {
      assert forall p | p in four :: p in paths;
      AtMost(four, paths);
    }
  }

  lemma AtMost<T>(a: set<T>, b: set<T>)
    requires a <= b
    ensures |a| <= |b|
  {
    assert b == a + (b - a);
  }

  /** Another candidate of the snapshot. */
  predicate IsOther(facts: Facts, target: Source, c: Source) { c in facts.candidates && c.key != target.key }

  /** The context is complete exactly when the snapshot is, every other candidate can be compared and nothing common goes
      unlisted; otherwise the reason names the first of these that fails. */
  lemma StatusTells(facts: Facts, target: Source)
    requires WellKeyed(facts)
    ensures var comparable := forall c | IsOther(facts, target, c) :: !LeavesOpen(target, c);
            var listed := forall c | IsOther(facts, target, c) :: !MoreThanListed(facts, target, c);
            && (StatusOf(facts, target) == Complete <==> facts.complete && comparable && listed)
            && StatusOf(facts, target) in {Complete, Truncated}
            && ReasonOf(facts, target) == (if !facts.complete then facts.reason else if !comparable then "comparison_incomplete"
                                           else if !listed then "relation_bound" else "")
  {
    hide Overfull, MoreThanListed, CommonIssues, CommonPaths;
    forall c ensures Overfull(facts, target, c) <==> MoreThanListed(facts, target, c) { OverfullIff(facts, target, c); }
    forall c ensures Incomparable(target, c) <==> LeavesOpen(target, c) {}
    var cs := facts.candidates;
    if c :| IsOther(facts, target, c) && LeavesOpen(target, c) {
      var i :| 0 <= i < |cs| && cs[i] == c;
    }
    if c :| IsOther(facts, target, c) && MoreThanListed(facts, target, c) {
      var i :| 0 <= i < |cs| && cs[i] == c;
    }
    if i :| 0 <= i < |cs| && cs[i].key != target.key && Incomparable(target, cs[i]) { assert IsOther(facts, target, cs[i]); }
    if i :| 0 <= i < |cs| && cs[i].key != target.key && Overfull(facts, target, cs[i]) { assert IsOther(facts, target, cs[i]); }
  }
}
