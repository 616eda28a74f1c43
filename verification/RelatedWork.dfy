/** What holds of the related-work context: the reader accepts what the builder makes, order and time do
    not matter, relatedness is symmetric, and the cap keeps the strongest. */
module RelatedWork {
  import opened Outcomes
  import opened Sorting
  import opened Titles
  import opened DecisionContext
  import S = Strings

  // ---------------------------------------------------------------- relations are well formed

  lemma {:induction false} AscendingPrefix<T(!new)>(xs: seq<T>, ys: seq<T>, leq: (T, T) -> bool)
    requires ys <= xs && Ascending(xs, leq)
    ensures Ascending(ys, leq)
  {
    assert forall i | 0 <= i < |ys| :: ys[i] == xs[i];
  }

  /** The first three of a sorted list are sorted, and are its own. */
  lemma FirstPaths(paths: set<string>)
    requires paths != {}
    ensures var some := FirstThree(S.SortedStrings(paths));
            && 1 <= |some| <= MaxShared && some == S.SortedStrings(set p | p in some)
            && forall i | 0 <= i < |some| :: some[i] in paths
  {
    hide S.Leq;
    var all := S.SortedStrings(paths);
    var some := FirstThree(all);
    assert |all| == |paths|;
    AscendingPrefix(all, some, S.Leq);
    var listed := S.SortedStrings(set p | p in some);
    assert Elements(some) == set p | p in some;
    S.LeqIsTotalOn(Elements(some));
    SortedIsUnique(some, listed, S.Leq);
    forall i | 0 <= i < |some| ensures some[i] in paths { assert some[i] == all[i] && all[i] in Elements(all); }
  }

  lemma SharedPathsOk(env: Env, c: Source, paths: set<string>)
    requires SortedPaths(env, c.paths) && paths != {} && forall p | p in paths :: p in c.paths
    ensures RelationOk(env, SharedPath(FirstThree(S.SortedStrings(paths))))
  {
    hide S.SortedStrings, FirstThree;
    FirstPaths(paths);
    var some := FirstThree(S.SortedStrings(paths));
    forall i | 0 <= i < |some| ensures env.safePath(some[i]) {
      var k :| 0 <= k < |c.paths| && c.paths[k] == some[i];
    }
  }

  lemma FirstIssues(issues: set<int>)
    requires issues != {}
    ensures var some := FirstThree(SortedInts(issues));
            && 1 <= |some| <= MaxShared && some == SortedInts(set n | n in some)
            && forall i | 0 <= i < |some| :: some[i] in issues
  {
    hide IntLeq, Sorted;
    var all := SortedInts(issues);
    var some := FirstThree(all);
    assert |all| == |issues|;
    AscendingPrefix(all, some, IntLeq);
    var listed := SortedInts(set n | n in some);
    assert Elements(some) == set n | n in some;
    IntsTotal(Elements(some));
    SortedIsUnique(some, listed, IntLeq);
    forall i | 0 <= i < |some| ensures some[i] in issues { assert some[i] == all[i] && all[i] in Elements(all); }
  }

  lemma IntsTotal(s: set<int>)
    ensures TotalOn(s, IntLeq)
  {
  }

  lemma SharedIssuesOk(env: Env, c: Source, issues: set<int>)
    requires SortedIssues(c.closing) && issues != {} && forall n | n in issues :: n in c.closing
    ensures RelationOk(env, SameIssue(FirstThree(SortedInts(issues))))
  {
    hide SortedInts, FirstThree;
    FirstIssues(issues);
    var some := FirstThree(SortedInts(issues));
    forall i | 0 <= i < |some| ensures some[i] >= 1 {
      var k :| 0 <= k < |c.closing| && c.closing[k] == some[i];
    }
  }

  lemma ReferenceOk(env: Env)
    ensures RelationOk(env, Reference)
  {
  }

  lemma RelationsAreOk(env: Env, facts: Facts, target: Source, c: Source)
    requires GoodSource(env, target) && GoodSource(env, c) && Relations(facts, target, c) != []
    ensures RelationsOk(env, Relations(facts, target, c))
  {
    hide SortedPaths, SortedIssues, S.SortedStrings, SortedInts, FirstThree, RelationOk, Refers, Hub;
    var paths, issues := CommonPaths(facts, target, c), CommonIssues(target, c);
    if paths != {} { SharedPathsOk(env, c, paths); }
    if issues != {} { SharedIssuesOk(env, c, issues); }
    ReferenceOk(env);
  }

  // ---------------------------------------------------------------- the list of related candidates

  lemma RelatedAt(facts: Facts, target: Source, i: nat) returns (c: Source)
    requires WellKeyed(facts) && i < |Related(facts, target)|
    ensures c in facts.candidates && IsRelated(facts, target, c) && Related(facts, target)[i] == EntryOf(facts, target, c)
    ensures SortedRanks(RelatedRanks(facts, target))[i] == RankOf(facts, target, c)
    ensures |SortedRanks(RelatedRanks(facts, target))| == |Related(facts, target)|
  {
    hide IsRelated, RankOf, EntryOf, SortedRanks;
    var ranks := SortedRanks(RelatedRanks(facts, target));
    RanksHaveSources(facts, target, ranks);
    c := ByKey(facts.candidates)[ranks[i].key];
  }

  /** Exactly the related candidates are listed. */
  lemma RelatedIsComplete(facts: Facts, target: Source, c: Source)
    requires WellKeyed(facts) && c in facts.candidates && IsRelated(facts, target, c)
    ensures EntryOf(facts, target, c) in Related(facts, target)
  {
    hide IsRelated, EntryOf, SortedRanks;
    var ranks := SortedRanks(RelatedRanks(facts, target));
    RanksHaveSources(facts, target, ranks);
    assert RankOf(facts, target, c) in Elements(ranks);
    var i :| 0 <= i < |ranks| && ranks[i] == RankOf(facts, target, c);
    assert ranks[i].key == c.key;
    assert Related(facts, target)[i] == EntryOf(facts, target, c);
  }

  lemma EntryFacts(facts: Facts, target: Source, c: Source)
    requires IsRelated(facts, target, c)
    ensures var e := EntryOf(facts, target, c);
            && e.relations == Relations(facts, target, c) != [] && e.key == c.key && e.title == c.title
            && RankOf(facts, target, c) == Rank(Strength(e.relations), e.key)
  {
    hide Relations, Strength;
  }

  /** The rank of a listed entry. */
  function EntryRank(e: Entry): Rank
    requires e.relations != []
  {
    Rank(Strength(e.relations), e.key)
  }

  lemma EntryRankAt(facts: Facts, target: Source, i: nat)
    requires WellKeyed(facts) && i < |Related(facts, target)|
    ensures Related(facts, target)[i].relations != []
    ensures |SortedRanks(RelatedRanks(facts, target))| == |Related(facts, target)|
    ensures EntryRank(Related(facts, target)[i]) == SortedRanks(RelatedRanks(facts, target))[i]
  {
    hide IsRelated, RankOf, EntryOf, SortedRanks, Related, Strength;
    var c := RelatedAt(facts, target, i);
    EntryFacts(facts, target, c);
  }

  lemma RelatedInOrder(facts: Facts, target: Source, i: nat, j: nat)
    requires WellKeyed(facts) && i < j < |Related(facts, target)|
    ensures Related(facts, target)[i].relations != [] && Related(facts, target)[j].relations != []
    ensures RankLeq(EntryRank(Related(facts, target)[i]), EntryRank(Related(facts, target)[j]))
    ensures Related(facts, target)[i].key != Related(facts, target)[j].key
  {
    hide SortedRanks, Related, RankLeq, EntryRank;
    EntryRankAt(facts, target, i);
    EntryRankAt(facts, target, j);
    DifferentKeys(facts, target, i, j);
  }

  lemma DifferentKeys(facts: Facts, target: Source, i: nat, j: nat)
    requires WellKeyed(facts) && i < j < |Related(facts, target)|
    ensures Related(facts, target)[i].key != Related(facts, target)[j].key
  {
    hide SortedRanks, Related, IsRelated, RankOf, EntryOf, RankLeq;
    var c := RelatedAt(facts, target, i);
    var d := RelatedAt(facts, target, j);
    EntryFacts(facts, target, c);
    EntryFacts(facts, target, d);
    if c.key == d.key { SameKeySameSource(facts, c, d); }
  }

  lemma SameKeySameSource(facts: Facts, c: Source, d: Source)
    requires WellKeyed(facts) && c in facts.candidates && d in facts.candidates && c.key == d.key
    ensures c == d
  {
    var m := ByKey(facts.candidates);
    assert m[c.key] == c && m[d.key] == d;
  }

  lemma {:induction false} EntryKeys(es: seq<Entry>, keys: set<Key>)
    requires DistinctEntries(es) && forall i | 0 <= i < |es| :: es[i].key in keys
    ensures |es| <= |keys|
  {
    if es != [] {
      assert forall i | 0 <= i < |es[1..]| :: es[1..][i].key in keys - {es[0].key};
      EntryKeys(es[1..], keys - {es[0].key});
    }
  }

  lemma RelatedIsShort(facts: Facts, target: Source)
    requires WellKeyed(facts)
    ensures |Related(facts, target)| <= |facts.candidates| && DistinctEntries(Related(facts, target))
  {
    hide Related, EntryOf, IsRelated, RankOf, SortedRanks;
    var es, cs := Related(facts, target), facts.candidates;
    forall i, j | 0 <= i < j < |es| ensures es[i].key != es[j].key { DifferentKeys(facts, target, i, j); }
    var keys := set c | c in cs :: c.key;
    forall i | 0 <= i < |es| ensures es[i].key in keys {
      var c := RelatedAt(facts, target, i);
      EntryFacts(facts, target, c);
    }
    EntryKeys(es, keys);
    DistinctCount(cs);
  }

  // ---------------------------------------------------------------- the reader accepts the builder

  ghost predicate TitlesStable(env: Env, es: seq<Entry>) {
    forall i | 0 <= i < |es| :: Stable(es[i].title, env.space)
  }

  lemma EntriesAreOk(env: Env, facts: Facts, target: Source, i: nat)
    requires GoodFacts(env, facts) && GoodSource(env, target) && i < |Related(facts, target)|
    ensures var e := Related(facts, target)[i]; EntryOk(env, e) <==> Stable(e.title, env.space)
  {
    hide Related, IsRelated, RankOf, SortedRanks, RelationsOk, Relations, Title, SortedPaths, SortedIssues;
    var c := RelatedAt(facts, target, i);
    EntryFacts(facts, target, c);
    var k :| 0 <= k < |facts.candidates| && facts.candidates[k] == c;
    RelationsAreOk(env, facts, target, c);
  }

  /** For good facts the strict reader accepts the builder's context exactly when every displayed title
      is stable, so the builder's internal error is reached exactly when one is not. */
  lemma AcceptedIff(env: Env, o: Observation, facts: Facts, target: Source, observedAt: string, cap: nat)
    requires Sound(env) && ObservationOk(o) && GoodFacts(env, facts) && GoodSource(env, target)
    requires env.timestampOk(observedAt) && 1 <= cap <= MaxCandidates
    ensures var body := BodyOf(env, o, facts, target, cap);
            Accepts(env, Context(body, observedAt, env.contextId(body))) <==> TitlesStable(env, body.candidates)
  {
    hide Related, EntryOk, Stable, RankLeq, Strength, AnyIncomparable, AnyOverfull, IsId, ValidKey, GoodSource;
    var body := BodyOf(env, o, facts, target, cap);
    var es, shown := Related(facts, target), body.candidates;
    RelatedIsShort(facts, target);
    assert HeaderOk(env, Context(body, observedAt, env.contextId(body)));
    forall i | 0 <= i < |shown| ensures shown[i] == es[i] && (EntryOk(env, shown[i]) <==> Stable(shown[i].title, env.space)) {
      EntriesAreOk(env, facts, target, i);
    }
    forall i | 0 <= i < |shown| ensures shown[i].relations != [] { EntryRankAt(facts, target, i); }
    forall i, j | 0 <= i < j < |shown|
      ensures RankLeq(EntryRank(shown[i]), EntryRank(shown[j])) && shown[i].key != shown[j].key
    {
      RelatedInOrder(facts, target, i, j);
    }
  }

  // ---------------------------------------------------------------- when the builder raises

  lemma {:induction false} FoundTarget(cs: seq<Source>, key: Key)
    ensures match FindTarget(cs, key)
            case None => forall i | 0 <= i < |cs| :: cs[i].key != key
            case Some(c) => c in cs && c.key == key
  {
    if cs != [] && cs[0].key != key {
      FoundTarget(cs[1..], key);
      assert forall i | 1 <= i < |cs| :: cs[i] == cs[1..][i - 1];
    }
  }

  /** The body that a call builds, when it gets past every gate. */
  predicate PastGates(env: Env, o: Observation, s: Snapshot, cap: int) {
    && "sha256:" <= s.id && env.timestampOk(s.observedAt)
    && Rebuilt(env, s).Some? && env.snapshotId(Rebuilt(env, s).value) == s.id
    && 1 <= cap <= MaxCandidates
    && FindTarget(Rebuilt(env, s).value.candidates, o.target).Some?
    && FindTarget(Rebuilt(env, s).value.candidates, o.target).value.headSha == o.headSha
  }

  function BuiltBody(env: Env, o: Observation, s: Snapshot, cap: int): Body
    requires PastGates(env, o, s, cap)
  {
    FactsAreGood(env, s.candidates, s.complete, s.reason, Some(s.count));
    var facts := Rebuilt(env, s).value;
    BodyOf(env, o, facts, FindTarget(facts.candidates, o.target).value, cap)
  }

  /** Past its gates the builder raises exactly when an unstable title is on display; otherwise it
      withholds, or returns a context that the reader accepts. */
  lemma BuildRaisesOnDisplay(env: Env, o: Observation, s: Snapshot, cap: int)
    requires Sound(env) && ObservationOk(o)
    ensures Build(env, Some(o), s, cap) == Raises <==>
            PastGates(env, o, s, cap) && !TitlesStable(env, BuiltBody(env, o, s, cap).candidates)
    ensures Build(env, Some(o), s, cap).Built? ==> Accepts(env, Build(env, Some(o), s, cap).context)
  {
    hide Accepts, BodyOf, FindTarget, SnapshotFacts, Sound, ObservationOk, GoodFacts, GoodSource, TitlesStable;
    if PastGates(env, o, s, cap) {
      var facts := Rebuilt(env, s).value;
      var target := FindTarget(facts.candidates, o.target).value;
      FactsAreGood(env, s.candidates, s.complete, s.reason, Some(s.count));
      FoundTarget(facts.candidates, o.target);
      TargetIsGood(env, facts, target);
      AcceptedIff(env, o, facts, target, s.observedAt, cap);
    }
  }

  lemma TargetIsGood(env: Env, facts: Facts, target: Source)
    requires GoodFacts(env, facts) && target in facts.candidates
    ensures GoodSource(env, target)
  {
    hide GoodSource;
    var k :| 0 <= k < |facts.candidates| && facts.candidates[k] == target;
  }

  // ---------------------------------------------------------------- snapshots that the program makes

  predicate AllStable(env: Env, facts: Facts) {
    forall i | 0 <= i < |facts.candidates| :: Stable(facts.candidates[i].title, env.space)
  }

  /** Each candidate of rebuilt facts is one of the given ones with its title normalised. */
  lemma RebuiltFrom(env: Env, raws: seq<Source>, complete: bool, reason: string, count: Option<int>, c: Source) returns (raw: Source)
    requires SnapshotFacts(env, raws, complete, reason, count).Some?
    requires c in SnapshotFacts(env, raws, complete, reason, count).value.candidates
    ensures raw in raws && SourceOk(env, raw) && c == raw.(title := Title(raw.title, env.space).value)
  {
    hide SortedByKey, Title, KeyLeq, SourceOk;
    var cs := Normalized(env, raws);
    SortedByKeyIs(cs);
    assert c in cs;
    var j :| 0 <= j < |cs| && cs[j] == c;
    raw := raws[j];
    assert CandidateSource(env, raws[j]) == Some(cs[j]);
  }

  /** Rebuilding to the same facts means that every title was stable. */
  lemma RebuiltSameIsStable(env: Env, facts: Facts)
    requires SnapshotFacts(env, facts.candidates, facts.complete, facts.reason, Some(facts.count)) == Some(facts)
    ensures AllStable(env, facts)
  {
    hide SnapshotFacts, Title, SourceOk;
    FactsAreGood(env, facts.candidates, facts.complete, facts.reason, Some(facts.count));
    forall i | 0 <= i < |facts.candidates| ensures Stable(facts.candidates[i].title, env.space) {
      var c := facts.candidates[i];
      var raw := RebuiltFrom(env, facts.candidates, facts.complete, facts.reason, Some(facts.count), c);
      SameKeySameSource(facts, c, raw);
      assert SourceOk(env, raw);
      TitleOfOk(env, raw);
    }
  }

  lemma TitleOfOk(env: Env, c: Source)
    requires SourceOk(env, c)
    ensures Title(c.title, env.space).Some?
  {
  }

  /** Different facts with one identity. */
  predicate SameId(env: Env, f: Facts, g: Facts) {
    f != g && env.snapshotId(f) == env.snapshotId(g)
  }

  /** With the identity that the program itself gives to the facts, the builder raises only if they share it
      with the different facts that they rebuild to. */
  lemma ProgramSnapshotNeverRaises(env: Env, o: Observation, facts: Facts, observedAt: string, cap: int)
    requires Sound(env) && ObservationOk(o)
    ensures var s := Snapshot(env.snapshotId(facts), observedAt, facts.complete, facts.reason, facts.count, facts.candidates);
            Build(env, Some(o), s, cap) == Raises ==> Rebuilt(env, s).Some? && SameId(env, Rebuilt(env, s).value, facts)
  {
    hide Build, BodyOf, SnapshotFacts, FindTarget, AllStable, ObservationOk, Stable;
    var s := Snapshot(env.snapshotId(facts), observedAt, facts.complete, facts.reason, facts.count, facts.candidates);
    BuildRaisesOnDisplay(env, o, s, cap);
    if PastGates(env, o, s, cap) && Rebuilt(env, s).value == facts {
      RebuiltSameIsStable(env, facts);
      FactsAreGood(env, s.candidates, s.complete, s.reason, Some(s.count));
      StableShown(env, o, facts, FindTarget(facts.candidates, o.target).value, cap);
    }
  }

  lemma StableShown(env: Env, o: Observation, facts: Facts, target: Source, cap: nat)
    requires WellKeyed(facts) && AllStable(env, facts)
    ensures TitlesStable(env, BodyOf(env, o, facts, target, cap).candidates)
  {
    hide Related, IsRelated, RankOf, SortedRanks, EntryOf, AnyIncomparable, AnyOverfull, Stable;
    var es, shown := Related(facts, target), BodyOf(env, o, facts, target, cap).candidates;
    forall i | 0 <= i < |shown| ensures Stable(shown[i].title, env.space) {
      var c := RelatedAt(facts, target, i);
      EntryFacts(facts, target, c);
      var k :| 0 <= k < |facts.candidates| && facts.candidates[k] == c;
    }
  }

  // ---------------------------------------------------------------- one that it does not make

  function SampleKey(n: int): Key { Key("o", "r", n) }

  /** A pull request that refers to the second one and touches nothing. */
  function SampleTarget(): Source {
    Source(SampleKey(1), "h", "a", true, [], true, [], true, multiset{SampleKey(2)}, 0, "https://github.com/", "")
  }

  function SampleOther(title: string): Source {
    Source(SampleKey(2), "h", title, true, [], true, [], true, multiset{}, 0, "https://github.com/", "")
  }

  /** A title whose cut at one hundred characters falls behind a space. */
  function LongTitle(): string { seq(99, _ => 'a') + " a" }

  lemma StableMeans(t: string, space: Whitespace)
    requires Stable(t, space)
    ensures Title(t, space) == Some(t)
  {
  }

  lemma SampleOk(env: Env)
    requires Sound(env) && !env.space('a')
    ensures SourceOk(env, SampleTarget()) && Title("a", env.space) == Some("a")
    ensures SourceOk(env, SampleOther(LongTitle())) && Title(LongTitle(), env.space).Some?
    ensures !Stable(Title(LongTitle(), env.space).value, env.space)
  {
    hide Title, Stable, Skip, Squeeze;
    TitleNotIdempotent(env.space);
    StableIsTidy("a", env.space);
    assert Stable("a", env.space);
    StableMeans("a", env.space);
    NothingIsSorted(env);
    assert "https://github.com/" <= "https://github.com/";
  }

  lemma NothingIsSorted(env: Env)
    ensures SortedPaths(env, []) && SortedIssues([])
  {
    var paths: seq<string> := [];
    var issues: seq<int> := [];
    assert (set p | p in paths) == {} && (set n | n in issues) == {};
    assert |S.SortedStrings({})| == 0 && |SortedInts({})| == 0;
  }

  /** A caller that hands in the raw candidates with the identity of their normalised form does reach the
      builder's internal error. */
  lemma BuilderCanRaise(env: Env, observedAt: string)
    requires Sound(env) && !env.space('a') && env.timestampOk(observedAt)
    ensures exists o, s :: ObservationOk(o) && Build(env, Some(o), s, MaxCandidates) == Raises
  {
    hide Build, Title, SourceOk, Stable, SortedByKey, Related, EntryOf, KeyLeq, LongTitle, StatusOf, ReasonOf, Relations;
    var t, other := SampleTarget(), SampleOther(LongTitle());
    var raws := [t, other];
    SampleOk(env);
    var title := Title(LongTitle(), env.space).value;
    var shown := SampleOther(title);
    assert Normalized(env, raws) == [t, shown];
    SortedByKeyIs([t, shown]);
    var facts := SnapshotFacts(env, raws, true, "", Some(2)).value;
    var s := Snapshot(env.snapshotId(facts), observedAt, true, "", 2, raws);
    var o := Observation(SampleKey(1), "h", env.snapshotId(facts));
    assert IsId(s.id);
    SampleObserved(o);
    FoundTarget(facts.candidates, SampleKey(1));
    assert t in [t, shown] && shown in [t, shown];
    var k :| 0 <= k < |facts.candidates| && facts.candidates[k] == t;
    assert FindTarget(facts.candidates, SampleKey(1)) == Some(t);
    BuildRaisesOnDisplay(env, o, s, MaxCandidates);
    FactsAreGood(env, raws, true, "", Some(2));
    ShownUnstable(env, o, facts, t, shown);
  }

  /** An environment with one whitespace character and one identity. */
  function PlainEnv(): Env {
    Env(c => c == ' ', _ => true, _ => true, _ => ZeroId(), _ => ZeroId())
  }

  function ZeroId(): string { "sha256:" + seq(64, _ => '0') }

  lemma PlainEnvIsSound()
    ensures Sound(PlainEnv()) && !PlainEnv().space('a') && PlainEnv().timestampOk("")
  {
    var id := ZeroId();
    assert "sha256:" <= id && id[7..] == seq(64, _ => '0');
    assert IsId(id);
  }

  /** So there is a call that reaches the error. */
  lemma BuilderDoesRaise() returns (o: Observation, s: Snapshot)
    ensures Sound(PlainEnv()) && ObservationOk(o) && Build(PlainEnv(), Some(o), s, MaxCandidates) == Raises
  {
    hide Build, Sound, ObservationOk, PlainEnv;
    PlainEnvIsSound();
    BuilderCanRaise(PlainEnv(), "");
    o, s :| ObservationOk(o) && Build(PlainEnv(), Some(o), s, MaxCandidates) == Raises;
  }

  lemma SampleObserved(o: Observation)
    requires o.target == SampleKey(1) && o.headSha == "h" && IsId(o.id)
    ensures ObservationOk(o)
  {
  }

  lemma ShownUnstable(env: Env, o: Observation, facts: Facts, target: Source, shown: Source)
    requires WellKeyed(facts) && |facts.candidates| <= MaxCandidates && shown in facts.candidates
    requires shown.key != target.key && Refers(target, shown) && !Stable(shown.title, env.space)
    ensures !TitlesStable(env, BodyOf(env, o, facts, target, MaxCandidates).candidates)
  {
    hide Related, Stable, SortedRanks, Refers, CommonPaths, CommonIssues;
    hide StatusOf, ReasonOf;
    assert Relations(facts, target, shown) != [];
    RelatedIsComplete(facts, target, shown);
    RelatedIsShort(facts, target);
    var es := Related(facts, target);
    var i :| 0 <= i < |es| && es[i] == EntryOf(facts, target, shown);
    assert BodyOf(env, o, facts, target, MaxCandidates).candidates[i].title == shown.title;
  }

  // ---------------------------------------------------------------- order and time do not matter

  lemma {:induction false} SameElements<T>(xs: seq<T>, ys: seq<T>)
    requires multiset(xs) == multiset(ys)
    ensures |xs| == |ys| && forall x :: x in xs <==> x in ys
  {
    assert |multiset(xs)| == |multiset(ys)|;
    forall x ensures x in xs <==> x in ys { assert x in multiset(xs) <==> x in multiset(ys); }
  }

  lemma {:induction false} DistinctIff(cs: seq<Source>)
    ensures DistinctKeys(cs) <==> |set c | c in cs :: c.key| == |cs|
    ensures |set c | c in cs :: c.key| <= |cs|
  {
    hide DistinctKeys;
    if cs == [] {
      assert (set c | c in cs :: c.key) == {};
      NoneDistinct(cs);
    } else {
      DistinctIff(cs[1..]);
      DistinctFirst(cs);
      var all, others := (set c | c in cs :: c.key), (set c | c in cs[1..] :: c.key);
      assert all == {cs[0].key} + others;
      if cs[0].key in others { assert all == others; }
    }
  }

  lemma NoneDistinct(cs: seq<Source>)
    requires cs == []
    ensures DistinctKeys(cs)
  {
  }

  lemma DistinctFirst(cs: seq<Source>)
    requires cs != []
    ensures DistinctKeys(cs) <==> DistinctKeys(cs[1..]) && cs[0].key !in set c | c in cs[1..] :: c.key
  {
    assert forall i | 1 <= i < |cs| :: cs[i] == cs[1..][i - 1];
    if DistinctKeys(cs) {
      forall c | c in cs[1..] ensures c.key != cs[0].key {
        var i :| 0 <= i < |cs[1..]| && cs[1..][i] == c;
        assert cs[i + 1] == c;
      }
    } else {
      var i, j :| 0 <= i < j < |cs| && cs[i].key == cs[j].key;
      assert cs[j] in cs[1..];
    }
  }

  lemma SortedByKeyCanonical(xs: seq<Source>, ys: seq<Source>)
    requires DistinctKeys(xs) && DistinctKeys(ys) && forall c :: c in xs <==> c in ys
    ensures SortedByKey(xs) == SortedByKey(ys)
  {
    assert ByKey(xs) == ByKey(ys);
  }

  /** The order in which candidates are handed in leaves no trace in the snapshot, nor in its identity. */
  lemma SnapshotOrderIrrelevant(env: Env, raws: seq<Source>, others: seq<Source>, complete: bool, reason: string, count: Option<int>)
    requires multiset(raws) == multiset(others)
    ensures SnapshotFacts(env, raws, complete, reason, count) == SnapshotFacts(env, others, complete, reason, count)
  {
    hide SortedByKey, SourceOk, Title;
    SameElements(raws, others);
    AllOkSame(env, raws, others);
    if AllOk(env, raws) {
      var xs, ys := Normalized(env, raws), Normalized(env, others);
      NormalizedSame(env, raws, others);
      NormalizedSame(env, others, raws);
      DistinctIff(xs);
      DistinctIff(ys);
      assert (set c | c in xs :: c.key) == (set c | c in ys :: c.key);
      if DistinctKeys(xs) { SortedByKeyCanonical(xs, ys); }
    }
  }

  lemma AllOkSame(env: Env, raws: seq<Source>, others: seq<Source>)
    requires forall x :: x in raws <==> x in others
    ensures AllOk(env, raws) <==> AllOk(env, others)
  {
    hide SourceOk;
    assert AllOk(env, raws) <==> forall c | c in raws :: SourceOk(env, c);
    assert AllOk(env, others) <==> forall c | c in others :: SourceOk(env, c);
  }

  lemma NormalizedSame(env: Env, raws: seq<Source>, others: seq<Source>)
    requires AllOk(env, raws) && AllOk(env, others) && forall x | x in raws :: x in others
    ensures forall c | c in Normalized(env, raws) :: c in Normalized(env, others)
  {
    hide SourceOk, Title;
    var xs, ys := Normalized(env, raws), Normalized(env, others);
    forall c | c in xs ensures c in ys {
      var i :| 0 <= i < |xs| && xs[i] == c;
      assert raws[i] in others;
      var j :| 0 <= j < |others| && others[j] == raws[i];
      assert CandidateSource(env, others[j]) == Some(ys[j]) && CandidateSource(env, raws[i]) == Some(xs[i]);
      assert ys[j] == c;
    }
  }

  /** Neither does the order matter to the builder, nor the time the snapshot was taken: the body and the
      identity are the same, only the recorded time follows. */
  lemma BuildOrderAndTimeIrrelevant(env: Env, o: Observation, s: Snapshot, candidates: seq<Source>, observedAt: string, cap: int)
    requires multiset(candidates) == multiset(s.candidates) && env.timestampOk(s.observedAt) && env.timestampOk(observedAt)
    requires Sound(env) && ObservationOk(o)
    ensures var t := s.(candidates := candidates, observedAt := observedAt);
            match Build(env, Some(o), s, cap)
            case Built(c) => Build(env, Some(o), t, cap) == Built(Context(c.body, observedAt, c.id))
            case outcome => Build(env, Some(o), t, cap) == outcome
  {
    hide BodyOf, SnapshotFacts, FindTarget, Accepts, TitlesStable, ObservationOk;
    var t := s.(candidates := candidates, observedAt := observedAt);
    SnapshotOrderIrrelevant(env, candidates, s.candidates, s.complete, s.reason, Some(s.count));
    assert Rebuilt(env, s) == Rebuilt(env, t);
    BuildRaisesOnDisplay(env, o, s, cap);
    BuildRaisesOnDisplay(env, o, t, cap);
    assert PastGates(env, o, s, cap) <==> PastGates(env, o, t, cap);
    if PastGates(env, o, s, cap) { assert BuiltBody(env, o, s, cap) == BuiltBody(env, o, t, cap); }
  }

  // ---------------------------------------------------------------- symmetry and the cap

  /** Shared paths and shared issues relate two candidates in both directions, with the same evidence. */
  lemma SharedWorkIsSymmetric(facts: Facts, a: Source, b: Source, r: Relation)
    requires !r.Reference?
    ensures r in Relations(facts, a, b) <==> r in Relations(facts, b, a)
  {
    hide Hub, FirstThree, S.SortedStrings, SortedInts, Refers;
    assert CommonPaths(facts, a, b) == CommonPaths(facts, b, a);
    assert CommonIssues(a, b) == CommonIssues(b, a);
  }

  /** A related candidate left out by the cap is never stronger than one that is shown. */
  lemma CapKeepsStrongest(facts: Facts, target: Source, cap: nat, shown: nat, c: Source)
    requires WellKeyed(facts) && c in facts.candidates && IsRelated(facts, target, c)
    requires shown < |Kept(Related(facts, target), cap)| && EntryOf(facts, target, c) !in Kept(Related(facts, target), cap)
    ensures Related(facts, target)[shown].relations != []
    ensures RankLeq(EntryRank(Related(facts, target)[shown]), RankOf(facts, target, c))
  {
    hide Related, IsRelated, EntryOf, SortedRanks, RankLeq, Strength;
    var es := Related(facts, target);
    RelatedIsComplete(facts, target, c);
    var i :| 0 <= i < |es| && es[i] == EntryOf(facts, target, c);
    EntryFacts(facts, target, c);
    assert forall k | 0 <= k < |Kept(es, cap)| :: Kept(es, cap)[k] == es[k];
    RelatedInOrder(facts, target, shown, i);
  }
}
