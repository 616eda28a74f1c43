/** When the context builder reaches its internal error, told from the snapshot it is given. */
module TitleCuts {
  import opened Outcomes
  import opened Sorting
  import opened Titles
  import opened DecisionContext
  import opened RelatedWork

  // ---------------------------------------------------------------- what does not depend on titles

  /** The same candidate but for its title. */
  predicate SameWork(a: Source, b: Source) {
    a.(title := "") == b.(title := "")
  }

  /** The snapshot's facts as they are handed in: neither sorted nor with normalised titles. */
  function RawFacts(s: Snapshot): Facts {
    Facts(s.complete, s.reason, s.count, s.candidates)
  }

  function Touching(cs: seq<Source>, path: string): set<Key> {
    set c | c in cs && path in c.paths :: c.key
  }

  lemma {:induction false} FanoutIsCount(cs: seq<Source>, path: string)
    requires DistinctKeys(cs)
    ensures Fanout(cs, path) == |Touching(cs, path)|
  {
    if cs == [] {
      assert Touching(cs, path) == {};
    } else {
      var init, last := cs[..|cs| - 1], cs[|cs| - 1];
      FanoutIsCount(init, path);
      assert cs == init + [last];
      assert last.key !in Touching(init, path);
      assert Touching(cs, path) == Touching(init, path) + if path in last.paths then {last.key} else {};
    }
  }

  ghost predicate HasTwin(c: Source, others: seq<Source>) {
    exists d :: d in others && SameWork(c, d)
  }

  /** Every candidate of the one list has its twin in the other. */
  ghost predicate Covered(xs: seq<Source>, ys: seq<Source>) {
    forall x | x in xs :: HasTwin(x, ys)
  }

  lemma TouchingCarries(xs: seq<Source>, ys: seq<Source>, path: string)
    requires Covered(xs, ys)
    ensures Touching(xs, path) <= Touching(ys, path)
  {
    hide SameWork, HasTwin;
    forall k | k in Touching(xs, path) ensures k in Touching(ys, path) {
      var x :| x in xs && path in x.paths && x.key == k;
      var y := TwinOf(x, ys);
      SameFields(x, y);
    }
  }

  lemma TwinOf(c: Source, others: seq<Source>) returns (d: Source)
    requires HasTwin(c, others)
    ensures d in others && SameWork(c, d)
  {
    d :| d in others && SameWork(c, d);
  }

  lemma SameFields(a: Source, b: Source)
    requires SameWork(a, b)
    ensures a.key == b.key && a.paths == b.paths && b == a.(title := b.title)
  {
    assert a.(title := "").key == b.(title := "").key && a.(title := "").paths == b.(title := "").paths;
  }

  lemma HubsAgree(f: Facts, g: Facts, path: string)
    requires DistinctKeys(f.candidates) && DistinctKeys(g.candidates)
    requires Covered(f.candidates, g.candidates) && Covered(g.candidates, f.candidates) && f.count == g.count
    ensures Hub(f, path) <==> Hub(g, path)
  {
    hide DistinctKeys, Touching, Covered;
    FanoutIsCount(f.candidates, path);
    FanoutIsCount(g.candidates, path);
    TouchingCarries(f.candidates, g.candidates, path);
    TouchingCarries(g.candidates, f.candidates, path);
    assert Touching(f.candidates, path) == Touching(g.candidates, path);
  }

  lemma SameRelations(f: Facts, g: Facts, t: Source, u: Source, c: Source, d: Source)
    requires forall path :: Hub(f, path) <==> Hub(g, path)
    requires SameWork(t, u) && SameWork(c, d)
    ensures Relations(f, t, c) == Relations(g, u, d)
  {
    hide Hub, FirstThree, SameWork;
    SameFields(t, u);
    SameFields(c, d);
    assert CommonPaths(f, t, c) == CommonPaths(g, u, d);
    assert CommonIssues(t, c) == CommonIssues(u, d);
  }

  /** Relatedness and rank do not look at titles. */
  lemma TitlesAside(f: Facts, g: Facts, t: Source, u: Source, c: Source, d: Source)
    requires forall path :: Hub(f, path) <==> Hub(g, path)
    requires SameWork(t, u) && SameWork(c, d)
    ensures IsRelated(f, t, c) <==> IsRelated(g, u, d)
    ensures IsRelated(f, t, c) ==> RankOf(f, t, c) == RankOf(g, u, d)
  {
    hide Hub, Relations, Strength, SameWork;
    SameRelations(f, g, t, u, c, d);
    SameFields(t, u);
    SameFields(c, d);
  }

  lemma RanksCarry(f: Facts, g: Facts, t: Source, u: Source)
    requires forall path :: Hub(f, path) <==> Hub(g, path)
    requires Covered(f.candidates, g.candidates) && SameWork(t, u)
    ensures RelatedRanks(f, t) <= RelatedRanks(g, u)
  {
    hide Hub, IsRelated, RankOf, SameWork, HasTwin;
    forall r | r in RelatedRanks(f, t) ensures r in RelatedRanks(g, u) {
      var c :| c in f.candidates && IsRelated(f, t, c) && RankOf(f, t, c) == r;
      var d := TwinOf(c, g.candidates);
      TitlesAside(f, g, t, u, c, d);
    }
  }

  lemma RanksAgree(f: Facts, g: Facts, t: Source, u: Source)
    requires forall path :: Hub(f, path) <==> Hub(g, path)
    requires Covered(f.candidates, g.candidates) && Covered(g.candidates, f.candidates) && SameWork(t, u)
    ensures RelatedRanks(f, t) == RelatedRanks(g, u)
  {
    hide Hub, RelatedRanks, Covered;
    RanksCarry(f, g, t, u);
    RanksCarry(g, f, u, t);
  }

  // ---------------------------------------------------------------- the rebuilt snapshot

  lemma RebuiltTo(env: Env, s: Snapshot, raw: Source) returns (c: Source)
    requires Rebuilt(env, s).Some? && raw in s.candidates
    ensures c in Rebuilt(env, s).value.candidates && SourceOk(env, raw)
    ensures c == raw.(title := Title(raw.title, env.space).value)
  {
    hide SortedByKey, Title, KeyLeq, SourceOk;
    var cs := Normalized(env, s.candidates);
    SortedByKeyIs(cs);
    var j :| 0 <= j < |s.candidates| && s.candidates[j] == raw;
    c := cs[j];
    assert CandidateSource(env, s.candidates[j]) == Some(cs[j]);
  }

  lemma RebuiltAgrees(env: Env, s: Snapshot)
    requires Rebuilt(env, s).Some?
    ensures var cs := Rebuilt(env, s).value.candidates; Covered(s.candidates, cs) && Covered(cs, s.candidates)
    ensures DistinctKeys(s.candidates) && DistinctKeys(Rebuilt(env, s).value.candidates)
    ensures Rebuilt(env, s).value.count == s.count
  {
    hide Title, SourceOk, SnapshotFacts;
    var facts := Rebuilt(env, s).value;
    forall raw | raw in s.candidates ensures HasTwin(raw, facts.candidates) {
      var c := RebuiltTo(env, s, raw);
      assert SameWork(raw, c);
    }
    forall c | c in facts.candidates ensures HasTwin(c, s.candidates) {
      var raw := RebuiltFrom(env, s.candidates, s.complete, s.reason, Some(s.count), c);
      assert SameWork(c, raw);
    }
    RawKeysDistinct(env, s);
  }

  lemma RawKeysDistinct(env: Env, s: Snapshot)
    requires Rebuilt(env, s).Some?
    ensures DistinctKeys(s.candidates) && DistinctKeys(Rebuilt(env, s).value.candidates)
    ensures Rebuilt(env, s).value.count == s.count
  {
    hide SortedByKey, Title, KeyLeq, SourceOk;
    var cs := Normalized(env, s.candidates);
    SortedByKeyIs(cs);
    forall i | 0 <= i < |cs| ensures cs[i].key == s.candidates[i].key {
      assert CandidateSource(env, s.candidates[i]) == Some(cs[i]);
    }
  }

  lemma FindRaw(env: Env, s: Snapshot, key: Key)
    requires Rebuilt(env, s).Some? && FindTarget(Rebuilt(env, s).value.candidates, key).Some?
    ensures FindTarget(s.candidates, key).Some?
    ensures SameWork(FindTarget(s.candidates, key).value, FindTarget(Rebuilt(env, s).value.candidates, key).value)
  {
    hide Title, SourceOk, SnapshotFacts, FindTarget;
    var facts := Rebuilt(env, s).value;
    FoundTarget(facts.candidates, key);
    FoundTarget(s.candidates, key);
    var target := FindTarget(facts.candidates, key).value;
    var raw := RebuiltFrom(env, s.candidates, s.complete, s.reason, Some(s.count), target);
    var k :| 0 <= k < |s.candidates| && s.candidates[k] == raw;
    RebuiltAgrees(env, s);
    SameKeySameSource(RawFacts(s), raw, FindTarget(s.candidates, key).value);
  }

  // ---------------------------------------------------------------- what is displayed

  /** The ranks of the related candidates that come before this one. */
  ghost function Stronger(facts: Facts, target: Source, c: Source): set<Rank>
    requires IsRelated(facts, target, c)
  {
    Below(RelatedRanks(facts, target), RankOf(facts, target, c), RankLeq)
  }

  /** A related candidate is displayed exactly when fewer than `cap` come before it. */
  lemma DisplayedIff(facts: Facts, target: Source, cap: nat, c: Source, i: nat)
    requires WellKeyed(facts) && c in facts.candidates && IsRelated(facts, target, c)
    requires i < |Related(facts, target)| && Related(facts, target)[i] == EntryOf(facts, target, c)
    ensures i < |Kept(Related(facts, target), cap)| <==> |Stronger(facts, target, c)| < cap
  {
    hide Related, IsRelated, EntryOf, RankOf, SortedRanks, RankLeq, RelatedRanks;
    var ranks := SortedRanks(RelatedRanks(facts, target));
    var d := RelatedAt(facts, target, i);
    EntryFacts(facts, target, c);
    EntryFacts(facts, target, d);
    SameKeySameSource(facts, c, d);
    RanksTotal(RelatedRanks(facts, target));
    IndexIsCount(ranks, i, RankLeq);
  }

  /** A handed-in candidate whose title is cut behind a space and which the context displays. */
  ghost predicate DisplaysCut(env: Env, o: Observation, s: Snapshot, cap: int, raw: Source) {
    && CutBehindSpace(raw.title, env.space)
    && FindTarget(s.candidates, o.target).Some?
    && var target := FindTarget(s.candidates, o.target).value;
       && IsRelated(RawFacts(s), target, raw)
       && |Stronger(RawFacts(s), target, raw)| < cap
  }

  /** A candidate and its rebuilt form are related, ranked and displayed alike. */
  lemma RebuiltAlike(env: Env, o: Observation, s: Snapshot, cap: int, raw: Source, c: Source)
    requires env.space(' ') && PastGates(env, o, s, cap)
    requires raw in s.candidates && SourceOk(env, raw) && c == raw.(title := Title(raw.title, env.space).value)
    ensures var facts := Rebuilt(env, s).value;
            var target := FindTarget(facts.candidates, o.target).value;
            DisplaysCut(env, o, s, cap, raw) <==>
            IsRelated(facts, target, c) && !Stable(c.title, env.space) && |Stronger(facts, target, c)| < cap
  {
    hide Title, Stable, CutBehindSpace, SourceOk, IsRelated, RankOf, Hub, FindTarget, SnapshotFacts, RankLeq;
    hide DistinctKeys, Covered, RelatedRanks;
    var facts := Rebuilt(env, s).value;
    var target := FindTarget(facts.candidates, o.target).value;
    TitleOfOk(env, raw);
    TitleStableIff(raw.title, env.space);
    FindRaw(env, s, o.target);
    RebuiltAgrees(env, s);
    forall path ensures Hub(RawFacts(s), path) <==> Hub(facts, path) { HubsAgree(RawFacts(s), facts, path); }
    TitlesAside(RawFacts(s), facts, FindTarget(s.candidates, o.target).value, target, raw, c);
    RanksAgree(RawFacts(s), facts, FindTarget(s.candidates, o.target).value, target);
  }

  lemma UnstableIsCut(env: Env, o: Observation, s: Snapshot, cap: int) returns (raw: Source)
    requires env.space(' ') && PastGates(env, o, s, cap) && !TitlesStable(env, BuiltBody(env, o, s, cap).candidates)
    ensures raw in s.candidates && DisplaysCut(env, o, s, cap, raw)
  {
    hide Related, EntryOf, IsRelated, Stable, Title, SourceOk, DisplaysCut, RankOf, FindTarget, SnapshotFacts, StatusOf, ReasonOf;
    FactsAreGood(env, s.candidates, s.complete, s.reason, Some(s.count));
    var facts := Rebuilt(env, s).value;
    var target := FindTarget(facts.candidates, o.target).value;
    var es, shown := Related(facts, target), BuiltBody(env, o, s, cap).candidates;
    assert shown == Kept(es, cap);
    var i :| 0 <= i < |shown| && !Stable(shown[i].title, env.space);
    var c := RelatedAt(facts, target, i);
    EntryFacts(facts, target, c);
    raw := RebuiltFrom(env, s.candidates, s.complete, s.reason, Some(s.count), c);
    DisplayedIff(facts, target, cap, c, i);
    RebuiltAlike(env, o, s, cap, raw, c);
  }

  lemma CutIsUnstable(env: Env, o: Observation, s: Snapshot, cap: int, raw: Source)
    requires env.space(' ') && PastGates(env, o, s, cap) && raw in s.candidates && DisplaysCut(env, o, s, cap, raw)
    ensures !TitlesStable(env, BuiltBody(env, o, s, cap).candidates)
  {
    hide Related, EntryOf, IsRelated, Stable, Title, SourceOk, DisplaysCut, RankOf, FindTarget, SnapshotFacts, StatusOf, ReasonOf;
    FactsAreGood(env, s.candidates, s.complete, s.reason, Some(s.count));
    var facts := Rebuilt(env, s).value;
    var target := FindTarget(facts.candidates, o.target).value;
    var es, shown := Related(facts, target), BuiltBody(env, o, s, cap).candidates;
    assert shown == Kept(es, cap);
    var c := RebuiltTo(env, s, raw);
    RebuiltAlike(env, o, s, cap, raw, c);
    RelatedIsComplete(facts, target, c);
    var i :| 0 <= i < |es| && es[i] == EntryOf(facts, target, c);
    EntryFacts(facts, target, c);
    DisplayedIff(facts, target, cap, c, i);
    assert shown[i] == es[i];
  }

  /** The builder reaches its internal error exactly when it gets past its gates and some handed-in title
      is cut behind a space, on a candidate that is among the `cap` most strongly related. */
  lemma BuildRaisesIff(env: Env, o: Observation, s: Snapshot, cap: int)
    requires Sound(env) && ObservationOk(o)
    ensures Build(env, Some(o), s, cap) == Raises <==>
            PastGates(env, o, s, cap) && exists raw :: raw in s.candidates && DisplaysCut(env, o, s, cap, raw)
  {
    hide Build, PastGates, BuiltBody, ObservationOk, TitlesStable, DisplaysCut;
    BuildRaisesOnDisplay(env, o, s, cap);
    if PastGates(env, o, s, cap) {
      if exists raw :: raw in s.candidates && DisplaysCut(env, o, s, cap, raw) {
        var raw :| raw in s.candidates && DisplaysCut(env, o, s, cap, raw);
        CutIsUnstable(env, o, s, cap, raw);
      } else if !TitlesStable(env, BuiltBody(env, o, s, cap).candidates) {
        var raw := UnstableIsCut(env, o, s, cap);
      }
    }
  }

  /** A snapshot none of whose titles is cut behind a space never raises, whatever its identity, the
      observation or the cap. */
  lemma UncutNeverRaises(env: Env, o: Option<Observation>, s: Snapshot, cap: int)
    requires Sound(env) && (o.Some? ==> ObservationOk(o.value))
    requires forall raw | raw in s.candidates :: !CutBehindSpace(raw.title, env.space)
    ensures Build(env, o, s, cap) != Raises
  {
    hide PastGates, ObservationOk, CutBehindSpace;
    if o.Some? { BuildRaisesIff(env, o.value, s, cap); }
  }
}
