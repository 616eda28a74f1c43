/** The snapshot and the related-work context told from the raw candidates: what is accepted, what is withheld and why, and
    what a built context says. */
module BuildLaws {
  import opened Outcomes
  import opened Sorting
  import opened Titles
  import opened DecisionContext
  import opened RelatedWork
  import opened ContextLaws
  import S = Strings
  import A = Admission

  // ---------------------------------------------------------------- titles

  /** The words of a text, between runs of whitespace. */
  function Words(s: string, space: Whitespace): (ws: seq<string>)
    ensures s != "" && !space(s[0]) ==> ws != []
  {
    if s == "" then []
    else if space(s[0]) then Words(s[1..], space)
    else if |s| == 1 || space(s[1]) then [[s[0]]] + Words(s[1..], space)
    else
      var later := Words(s[1..], space);
      [[s[0]] + later[0]] + later[1..]
  }

  /** Words with one space between any two. */
  function Spaced(ws: seq<string>): string {
    if ws == [] then "" else if |ws| == 1 then ws[0] else ws[0] + " " + Spaced(ws[1..])
  }

  lemma SkipWords(s: string, space: Whitespace)
    ensures Words(Skip(s, space), space) == Words(s, space)
    ensures Skip(s, space) == "" ==> Words(s, space) == []
  {
  }

  lemma FirstLetter(c: char, word: string, ws: seq<string>)
    ensures Spaced([[c] + word] + ws) == [c] + Spaced([word] + ws)
  {
    assert ([[c] + word] + ws)[1..] == ws && ([word] + ws)[1..] == ws;
    if ws != [] { assert [c] + word + " " + Spaced(ws) == [c] + (word + " " + Spaced(ws)); }
  }

  lemma {:induction false} SqueezedWords(s: string, space: Whitespace)
    requires s == "" || !space(s[0])
    ensures Squeeze(s, space) == Spaced(Words(s, space))
    decreases |s|
  {
    if s != "" {
      var tail := s[1..];
      if tail == "" {
        assert Words(s, space) == [[s[0]]];
      } else if space(tail[0]) {
        var rest := Skip(tail, space);
        SkipShrinks(tail, space);
        SkipWords(tail, space);
        SqueezedWords(rest, space);
        assert Words(s, space)[1..] == Words(tail, space);
      } else {
        SqueezedWords(tail, space);
        var later := Words(tail, space);
        assert later == [later[0]] + later[1..];
        FirstLetter(s[0], later[0], later[1..]);
      }
    }
  }

  /** A title is its words with one space between any two, cut behind a hundred characters; there is none
      exactly when there is no word. */
  lemma TitleIs(s: string, space: Whitespace)
    ensures var text := Spaced(Words(s, space));
            Title(s, space) == if text == "" then None else Some(if |text| <= 100 then text else text[..100])
  {
    SkipShrinks(s, space);
    SkipWords(s, space);
    SqueezedWords(Skip(s, space), space);
  }

  lemma {:induction false} NoTitleIff(s: string, space: Whitespace)
    ensures Title(s, space) == None <==> forall i | 0 <= i < |s| :: space(s[i])
  {
    TitleIs(s, space);
    NoWordIff(s, space);
  }

  lemma {:induction false} NoWordIff(s: string, space: Whitespace)
    ensures Spaced(Words(s, space)) == "" <==> forall i | 0 <= i < |s| :: space(s[i])
  {
    if s != "" {
      NoWordIff(s[1..], space);
      if space(s[0]) {
        assert forall i | 1 <= i < |s| :: s[i] == s[1..][i - 1];
      } else {
        assert Words(s, space)[0] != "";
      }
    }
  }

  // ---------------------------------------------------------------- what a snapshot accepts

  predicate NameText(s: string) {
    1 <= |s| <= 100 && forall i | 0 <= i < |s| ::
      'a' <= s[i] <= 'z' || 'A' <= s[i] <= 'Z' || '0' <= s[i] <= '9' || s[i] == '.' || s[i] == '_' || s[i] == '-'
  }

  predicate KeyText(k: Key) { NameText(k.owner) && NameText(k.repo) && k.number >= 1 }

  predicate Link(s: string) { |s| <= 250 && (s != "" ==> |s| >= 19 && s[..19] == "https://github.com/") }

  /** The source of one candidate, field by field: its lists strictly ascending, a title with a word in it, a
      link that is there. */
  ghost predicate Wellformed(env: Env, c: Source) {
    && KeyText(c.key) && 1 <= |c.headSha| <= 100 && (exists i :: 0 <= i < |c.title| && !env.space(c.title[i]))
    && (forall i | 0 <= i < |c.paths| :: env.safePath(c.paths[i]))
    && (forall i, j | 0 <= i < j < |c.paths| :: S.Earlier(c.paths[i], c.paths[j]))
    && (forall i | 0 <= i < |c.closing| :: c.closing[i] >= 1)
    && (forall i, j | 0 <= i < j < |c.closing| :: c.closing[i] < c.closing[j])
    && (forall k | k in c.references :: KeyText(k))
    && c.cardIssue >= 0 && c.url != "" && Link(c.url) && Link(c.cardUrl)
  }

  lemma PathsSortedIff(paths: seq<string>)
    ensures paths == S.SortedStrings(set p | p in paths) <==> forall i, j | 0 <= i < j < |paths| :: S.Earlier(paths[i], paths[j])
  {
    hide S.Earlier, S.Leq, S.SortedStrings;
    var sorted := S.SortedStrings(set p | p in paths);
    if paths == sorted {
      forall i, j | 0 <= i < j < |paths| ensures S.Earlier(paths[i], paths[j]) { S.LeqIff(paths[i], paths[j]); }
    }
    if forall i, j | 0 <= i < j < |paths| :: S.Earlier(paths[i], paths[j]) {
      forall i, j | 0 <= i < j < |paths| ensures S.Leq(paths[i], paths[j]) && paths[i] != paths[j] {
        S.LeqIff(paths[i], paths[j]);
        NeverEarlier(paths[i]);
      }
      S.LeqIsTotalOn(set p | p in paths);
      SortedIsUnique(paths, sorted, S.Leq);
    }
  }

  lemma IssuesSortedIff(issues: seq<int>)
    ensures issues == SortedInts(set n | n in issues) <==> forall i, j | 0 <= i < j < |issues| :: issues[i] < issues[j]
  {
    hide SortedInts;
    var sorted := SortedInts(set n | n in issues);
    if forall i, j | 0 <= i < j < |issues| :: issues[i] < issues[j] {
      IntsTotal(set n | n in issues);
      SortedIsUnique(issues, sorted, IntLeq);
    }
  }

  /** A candidate is accepted exactly when it is well-formed. */
  lemma SourceOkIff(env: Env, c: Source)
    ensures SourceOk(env, c) <==> Wellformed(env, c)
  {
    hide S.Earlier, S.SortedStrings, SortedInts, Title;
    NoTitleIff(c.title, env.space);
    PathsSortedIff(c.paths);
    IssuesSortedIff(c.closing);
  }

  /** The snapshot that can be rebuilt: well-formed candidates with different keys, and a count, a reason and
      completeness that go together. */
  ghost predicate Consistent(env: Env, s: Snapshot) {
    && (forall c | c in s.candidates :: Wellformed(env, c))
    && (forall i, j | 0 <= i < j < |s.candidates| :: s.candidates[i].key != s.candidates[j].key)
    && |s.reason| <= 120 && s.count >= |s.candidates|
    && (s.complete ==> s.count == |s.candidates| && s.reason == "")
  }

  lemma RebuiltIff(env: Env, s: Snapshot)
    ensures Rebuilt(env, s).Some? <==> Consistent(env, s)
  {
    hide SourceOk, Wellformed, SortedByKey, Title;
    forall c ensures SourceOk(env, c) <==> Wellformed(env, c) { SourceOkIff(env, c); }
    assert AllOk(env, s.candidates) <==> forall c | c in s.candidates :: Wellformed(env, c);
    if AllOk(env, s.candidates) { NormalizedKeys(env, s.candidates); }
  }

  lemma NormalizedKeys(env: Env, raws: seq<Source>)
    requires AllOk(env, raws)
    ensures var cs := Normalized(env, raws);
            |cs| == |raws| && forall i | 0 <= i < |cs| ::
              Title(raws[i].title, env.space).Some? && cs[i] == raws[i].(title := Title(raws[i].title, env.space).value)
  {
    hide Title, SortedPaths, SortedIssues;
    forall i | 0 <= i < |raws|
      ensures var cs := Normalized(env, raws);
              Title(raws[i].title, env.space).Some? && cs[i] == raws[i].(title := Title(raws[i].title, env.space).value)
    {
      assert SourceOk(env, raws[i]);
      assert CandidateSource(env, raws[i]) == Some(Normalized(env, raws)[i]);
    }
  }

  /** The facts of a rebuilt snapshot: the candidates with their titles normalised, in the order of their
      keys, and a reason when it is incomplete. */
  lemma FactsTell(env: Env, s: Snapshot)
    requires Rebuilt(env, s).Some?
    ensures var facts := Rebuilt(env, s).value;
            && facts.complete == s.complete && facts.count == s.count
            && facts.reason == (if !s.complete && s.reason == "" then "snapshot.incomplete" else s.reason)
            && |facts.candidates| == |s.candidates|
            && (forall raw | raw in s.candidates ::
                  Title(raw.title, env.space).Some? && raw.(title := Title(raw.title, env.space).value) in facts.candidates)
            && (forall c | c in facts.candidates ::
                  exists raw :: raw in s.candidates && Title(raw.title, env.space).Some?
                                && c == raw.(title := Title(raw.title, env.space).value))
            && (forall i, j | 0 <= i < j < |facts.candidates| ::
                  KeyBefore(facts.candidates[i].key, facts.candidates[j].key))
  {
    hide SortedByKey, Title, SourceOk, KeyLeq, KeyBefore;
    var facts, cs := Rebuilt(env, s).value, Normalized(env, s.candidates);
    SortedByKeyIs(cs);
    NormalizedKeys(env, s.candidates);
    forall i, j | 0 <= i < j < |facts.candidates| ensures KeyBefore(facts.candidates[i].key, facts.candidates[j].key) {
      KeyOrder(facts.candidates[i].key, facts.candidates[j].key);
    }
    forall raw | raw in s.candidates
      ensures Title(raw.title, env.space).Some? && raw.(title := Title(raw.title, env.space).value) in facts.candidates
    {
      var i :| 0 <= i < |s.candidates| && s.candidates[i] == raw;
      assert cs[i] in cs;
    }
    forall c | c in facts.candidates
      ensures exists raw :: raw in s.candidates && Title(raw.title, env.space).Some?
                            && c == raw.(title := Title(raw.title, env.space).value)
    {
      var raw := RebuiltFrom(env, s.candidates, s.complete, s.reason, Some(s.count), c);
      TitleOfOk(env, raw);
    }
  }

  // ---------------------------------------------------------------- what the builder withholds

  predicate ReadableSnapshot(env: Env, s: Snapshot) {
    |s.id| >= 7 && s.id[..7] == "sha256:" && env.timestampOk(s.observedAt)
  }

  /** It rebuilds, to the identity that it has. */
  ghost predicate OwnIdentity(env: Env, s: Snapshot) {
    Consistent(env, s) && exists facts :: Rebuilt(env, s) == Some(facts) && env.snapshotId(facts) == s.id
  }

  /** A candidate is the target, at the commit that was observed. */
  ghost predicate ShowsTarget(s: Snapshot, o: Observation) {
    exists c :: c in s.candidates && c.key == o.target && c.headSha == o.headSha
  }

  /** The builder withholds the context for the first of these that fails, and for no other reason. */
  lemma WithheldTells(env: Env, o: Observation, s: Snapshot, cap: int)
    ensures Build(env, None, s, cap) == Withheld("observation.invalid")
    ensures var result := Build(env, Some(o), s, cap);
            if !ReadableSnapshot(env, s) then result == Withheld("snapshot.invalid")
            else if !OwnIdentity(env, s) then result == Withheld("snapshot.identity_mismatch")
            else if cap < 1 || cap > 10 then result == Withheld("context.bound_invalid")
            else if !ShowsTarget(s, o) then result == Withheld("target.snapshot_mismatch")
            else !result.Withheld?
  {
    hide Accepts, BodyOf, SnapshotFacts, Consistent, GoodFacts, ShowsTarget;
    RebuiltIff(env, s);
    if Rebuilt(env, s).Some? { TargetShown(env, o, s); }
  }

  lemma TargetShown(env: Env, o: Observation, s: Snapshot)
    requires Rebuilt(env, s).Some?
    ensures var target := FindTarget(Rebuilt(env, s).value.candidates, o.target);
            ShowsTarget(s, o) <==> target.Some? && target.value.headSha == o.headSha
  {
    hide SnapshotFacts, KeyBefore, Title, FindTarget;
    FactsTell(env, s);
    var facts := Rebuilt(env, s).value;
    FactsAreGood(env, s.candidates, s.complete, s.reason, Some(s.count));
    FoundTarget(facts.candidates, o.target);
    var target := FindTarget(facts.candidates, o.target);
    if ShowsTarget(s, o) {
      var raw :| raw in s.candidates && raw.key == o.target && raw.headSha == o.headSha;
      var c := raw.(title := Title(raw.title, env.space).value);
      assert c in facts.candidates;
      if target.Some? { SameKeySameSource(facts, c, target.value); }
    }
  }

  // ---------------------------------------------------------------- what a context says

  /** The related candidates: the others that close an issue of the target, are mentioned by it or touch
      an uncrowded path of it. */
  ghost function RelatedTo(facts: Facts, target: Source): set<Source> {
    set c | c in facts.candidates && c.key != target.key
            && (ClosesSame(target, c) || Mentions(target, c) || TouchesSame(facts, target, c))
  }

  lemma RelatedIsCounted(facts: Facts, target: Source)
    requires WellKeyed(facts)
    ensures |Related(facts, target)| == |RelatedTo(facts, target)|
  {
    hide Related, IsRelated, ClosesSame, Mentions, TouchesSame, EntryOf, RankOf, SortedRanks;
    forall c ensures IsRelated(facts, target, c) <==>
                     c.key != target.key && (ClosesSame(target, c) || Mentions(target, c) || TouchesSame(facts, target, c))
    {
      RelatedIff(facts, target, c);
    }
    var es, related := Related(facts, target), RelatedTo(facts, target);
    var keys := set c | c in related :: c.key;
    KeysOfSources(facts, related);
    RelatedIsShort(facts, target);
    forall i | 0 <= i < |es| ensures es[i].key in keys {
      var c := RelatedAt(facts, target, i);
      EntryFacts(facts, target, c);
      assert c in related;
    }
    EntryKeys(es, keys);
    EntryKeySet(es);
    forall k | k in keys ensures k in (set e | e in es :: e.key) {
      var c :| c in related && c.key == k;
      RelatedIsComplete(facts, target, c);
      EntryFacts(facts, target, c);
      assert EntryOf(facts, target, c) in es;
    }
    AtMost(keys, set e | e in es :: e.key);
  }

  lemma KeysOfSources(facts: Facts, some: set<Source>)
    requires WellKeyed(facts) && forall c | c in some :: c in facts.candidates
    ensures |set c | c in some :: c.key| == |some|
  {
    if some == {} {
      assert (set c | c in some :: c.key) == {};
    } else {
      var c :| c in some;
      var rest := some - {c};
      KeysOfSources(facts, rest);
      assert (set d | d in some :: d.key) == {c.key} + set d | d in rest :: d.key;
      if c.key in (set d | d in rest :: d.key) {
        var d :| d in rest && d.key == c.key;
        SameKeySameSource(facts, c, d);
      }
    }
  }

  lemma {:induction false} EntryKeySet(es: seq<Entry>)
    ensures |set e | e in es :: e.key| <= |es|
  {
    if es == [] {
      assert (set e | e in es :: e.key) == {};
    } else {
      EntryKeySet(es[1..]);
      assert (set e | e in es :: e.key) == {es[0].key} + set e | e in es[1..] :: e.key;
    }
  }

  /** An entry shows the candidate as the snapshot has it, with its title normalised. */
  ghost predicate Shows(env: Env, e: Entry, raw: Source) {
    && e.key == raw.key && e.headSha == raw.headSha && e.url == raw.url && e.cardIssue == raw.cardIssue
    && Title(raw.title, env.space) == Some(e.title)
  }

  /** The body is about the observed commit and the snapshot, as it was handed in. */
  predicate AboutSnapshot(body: Body, o: Observation, s: Snapshot) {
    && body.target == o.target && body.headSha == o.headSha && body.observationId == o.id
    && body.snapshotId == s.id && body.count == s.count && body.complete == s.complete
    && body.snapshotReason == if !s.complete && s.reason == "" then "snapshot.incomplete" else s.reason
  }

  /** It tells how the other candidates are related to this one. */
  ghost predicate TellsRelated(body: Body, facts: Facts, target: Source)
    requires WellKeyed(facts)
  {
    && target in facts.candidates && target.key == body.target && body.relatedCount == |RelatedTo(facts, target)|
    && body.status == StatusOf(facts, target) && body.reason == ReasonOf(facts, target)
    && body.candidates <= Related(facts, target)
  }

  /** A built context is about the observed commit and the snapshot it was given, under that snapshot's
      identity, count and time; it counts all related candidates and shows as many as the cap allows. */
  lemma BuiltTells(env: Env, o: Observation, s: Snapshot, cap: int)
    requires Build(env, Some(o), s, cap).Built?
    ensures Rebuilt(env, s).Some? && WellKeyed(Rebuilt(env, s).value)
    ensures var context := Build(env, Some(o), s, cap).context; var body := context.body;
            && context.observedAt == s.observedAt && context.id == env.contextId(body) && AboutSnapshot(body, o, s)
            && (exists target :: TellsRelated(body, Rebuilt(env, s).value, target))
            && |body.candidates| == (if body.relatedCount <= cap then body.relatedCount else cap)
            && forall i | 0 <= i < |body.candidates| :: exists raw :: raw in s.candidates && Shows(env, body.candidates[i], raw)
  {
    hide Build, Rebuilt, RelatedTo, StatusOf, ReasonOf, Related, Shows, KeyBefore, Title, WellKeyed;
    var target := BuiltFrom(env, o, s, cap);
    var facts := Rebuilt(env, s).value;
    FactsTell(env, s);
    RelatedIsCounted(facts, target);
    var body := Build(env, Some(o), s, cap).context.body;
    assert TellsRelated(body, facts, target);
    forall i | 0 <= i < |body.candidates| ensures exists raw :: raw in s.candidates && Shows(env, body.candidates[i], raw) {
      EntryShows(env, s, target, i);
    }
  }

  /** A built context has the body made of the snapshot's facts and its target. */
  lemma BuiltFrom(env: Env, o: Observation, s: Snapshot, cap: int) returns (target: Source)
    requires Build(env, Some(o), s, cap).Built?
    ensures Rebuilt(env, s).Some? && WellKeyed(Rebuilt(env, s).value) && cap >= 1
    ensures var facts := Rebuilt(env, s).value; var context := Build(env, Some(o), s, cap).context;
            && target in facts.candidates && target.key == o.target && env.snapshotId(facts) == s.id
            && context == Context(BodyOf(env, o, facts, target, cap), s.observedAt, env.contextId(context.body))
  {
    hide Accepts, SnapshotFacts, BodyOf, FindTarget, GoodSource;
    var facts := Rebuilt(env, s).value;
    FactsAreGood(env, s.candidates, s.complete, s.reason, Some(s.count));
    FoundTarget(facts.candidates, o.target);
    target := FindTarget(facts.candidates, o.target).value;
  }

  lemma EntryShows(env: Env, s: Snapshot, target: Source, i: nat)
    requires Rebuilt(env, s).Some? && WellKeyed(Rebuilt(env, s).value) && i < |Related(Rebuilt(env, s).value, target)|
    ensures exists raw :: raw in s.candidates && Shows(env, Related(Rebuilt(env, s).value, target)[i], raw)
  {
    hide Title, SnapshotFacts, Related, IsRelated, RankOf, SortedRanks, Relations, SourceOk;
    var facts := Rebuilt(env, s).value;
    var c := RelatedAt(facts, target, i);
    var raw := RebuiltFrom(env, s.candidates, s.complete, s.reason, Some(s.count), c);
    TitleOfOk(env, raw);
    assert Shows(env, Related(facts, target)[i], raw);
  }

  // ---------------------------------------------------------------- what the reader accepts

  predicate IdText(s: string) {
    |s| == 71 && s[..7] == "sha256:" && forall i | 7 <= i < 71 :: '0' <= s[i] <= '9' || 'a' <= s[i] <= 'f'
  }

  lemma IdIff(s: string)
    ensures IsId(s) <==> IdText(s)
  {
    if |s| == 71 { assert forall i | 0 <= i < 64 :: s[7..][i] == s[i + 7]; }
    if IsId(s) {
      assert |s| == 71;
      forall i | 7 <= i < 71 ensures '0' <= s[i] <= '9' || 'a' <= s[i] <= 'f' { assert s[7..][i - 7] == s[i]; }
    }
  }

  /** No whitespace at the ends, none but single spaces in between, and one to a hundred characters. */
  predicate TitleText(t: string, space: Whitespace) {
    && 1 <= |t| <= 100 && !space(t[0]) && !space(t[|t| - 1])
    && forall i | 0 < i < |t| - 1 && space(t[i]) :: t[i] == ' ' && !space(t[i + 1])
  }

  lemma StableIff(t: string, space: Whitespace)
    requires space(' ')
    ensures Stable(t, space) <==> TitleText(t, space)
  {
    hide Title;
    StableIsTidy(t, space);
  }

  ghost predicate RelationText(env: Env, r: Relation) {
    match r
    case SharedPath(paths) =>
      && 1 <= |paths| <= 3 && (forall i | 0 <= i < |paths| :: env.safePath(paths[i]))
      && forall i, j | 0 <= i < j < |paths| :: S.Earlier(paths[i], paths[j])
    case Reference => true
    case SameIssue(issues) =>
      && 1 <= |issues| <= 3 && (forall i | 0 <= i < |issues| :: issues[i] >= 1)
      && forall i, j | 0 <= i < j < |issues| :: issues[i] < issues[j]
  }

  lemma RelationOkIff(env: Env, r: Relation)
    ensures RelationOk(env, r) <==> RelationText(env, r)
  {
    hide S.Earlier, S.SortedStrings, SortedInts;
    match r
    case SharedPath(paths) => PathsSortedIff(paths);
    case SameIssue(issues) => IssuesSortedIff(issues);
    case Reference =>
  }

  /** Of two lists, the first goes on in the second, or has the smaller element where they first differ. */
  ghost predicate ListsInOrder<T(!new)>(a: seq<T>, b: seq<T>, less: (T, T) -> bool) {
    a <= b || exists i | 0 <= i < |a| && i < |b| :: a[..i] == b[..i] && less(a[i], b[i])
  }

  /** By the name of the kind (paths, then references, then issues), then by what is listed. */
  ghost predicate RelationsInOrder(a: Relation, b: Relation) {
    match a
    case SharedPath(paths) => b.SharedPath? ==> ListsInOrder(paths, b.paths, S.Earlier)
    case Reference => !b.SharedPath?
    case SameIssue(issues) => b.SameIssue? && ListsInOrder(issues, b.issues, IntLess)
  }

  predicate IntLess(a: int, b: int) { a < b }

  lemma SameFirst<T(!new)>(first: T, a: seq<T>, b: seq<T>, less: (T, T) -> bool)
    requires !less(first, first)
    ensures ListsInOrder([first] + a, [first] + b, less) <==> ListsInOrder(a, b, less)
  {
    var p, q := [first] + a, [first] + b;
    assert p[1..] == a && q[1..] == b;
    if a <= b { assert p == q[..|p|]; }
    if p <= q { assert a == b[..|a|]; }
    if i: nat :| i < |a| && i < |b| && a[..i] == b[..i] && less(a[i], b[i]) {
      assert p[..i + 1] == [first] + a[..i] == q[..i + 1];
      assert less(p[i + 1], q[i + 1]);
    }
    if i: nat :| i < |p| && i < |q| && p[..i] == q[..i] && less(p[i], q[i]) {
      assert i > 0 && a[..i - 1] == p[..i][1..] && b[..i - 1] == q[..i][1..];
      assert less(a[i - 1], b[i - 1]);
    }
  }

  lemma OtherFirst<T(!new)>(a: seq<T>, b: seq<T>, less: (T, T) -> bool)
    requires a != [] && b != [] && a[0] != b[0]
    ensures ListsInOrder(a, b, less) <==> less(a[0], b[0])
  {
    assert a[..0] == b[..0];
    forall i | 0 < i < |a| && i < |b| ensures a[..i] != b[..i] { assert a[..i][0] == a[0] && b[..i][0] == b[0]; }
  }

  lemma EmptyFirst<T(!new)>(a: seq<T>, b: seq<T>, less: (T, T) -> bool)
    requires a == [] || b == []
    ensures ListsInOrder(a, b, less) <==> a == []
  {
  }

  lemma {:induction false} LexPathsIff(a: seq<string>, b: seq<string>)
    ensures LexStrings(a, b) <==> ListsInOrder(a, b, S.Earlier)
  {
    hide S.Earlier, S.Leq, ListsInOrder;
    if a == [] || b == [] {
      EmptyFirst(a, b, S.Earlier);
    } else if a[0] == b[0] {
      NeverEarlier(a[0]);
      SameFirst(a[0], a[1..], b[1..], S.Earlier);
      assert a == [a[0]] + a[1..] && b == [a[0]] + b[1..];
      LexPathsIff(a[1..], b[1..]);
    } else {
      S.LeqIff(a[0], b[0]);
      OtherFirst(a, b, S.Earlier);
    }
  }

  lemma {:induction false} LexIssuesIff(a: seq<int>, b: seq<int>)
    ensures LexInts(a, b) <==> ListsInOrder(a, b, IntLess)
  {
    hide ListsInOrder;
    if a == [] || b == [] {
      EmptyFirst(a, b, IntLess);
    } else if a[0] == b[0] {
      SameFirst(a[0], a[1..], b[1..], IntLess);
      assert a == [a[0]] + a[1..] && b == [a[0]] + b[1..];
      LexIssuesIff(a[1..], b[1..]);
    } else {
      OtherFirst(a, b, IntLess);
    }
  }

  lemma RelationOrderIff(a: Relation, b: Relation)
    ensures RelationLeq(a, b) <==> RelationsInOrder(a, b)
  {
    hide LexStrings, LexInts, ListsInOrder;
    if a.SharedPath? && b.SharedPath? { LexPathsIff(a.paths, b.paths); }
    if a.SameIssue? && b.SameIssue? { LexIssuesIff(a.issues, b.issues); }
  }

  ghost predicate EntryText(env: Env, e: Entry) {
    && KeyText(e.key) && 1 <= |e.headSha| <= 100 && TitleText(e.title, env.space)
    && e.url != "" && Link(e.url) && e.cardIssue >= 0 && 1 <= |e.relations| <= 3
    && (forall i | 0 <= i < |e.relations| :: RelationText(env, e.relations[i]))
    && (forall i, j | 0 <= i < j < |e.relations| :: RelationsInOrder(e.relations[i], e.relations[j]))
  }

  lemma EntryOkIff(env: Env, e: Entry)
    requires env.space(' ')
    ensures EntryOk(env, e) <==> EntryText(env, e)
  {
    hide Stable, TitleText, RelationOk, RelationText, RelationLeq, RelationsInOrder;
    StableIff(e.title, env.space);
    forall r ensures RelationOk(env, r) <==> RelationText(env, r) { RelationOkIff(env, r); }
    forall a, b ensures RelationLeq(a, b) <==> RelationsInOrder(a, b) { RelationOrderIff(a, b); }
  }

  /** The class of an entry by what it lists: issues, else a reference, else paths. */
  function ListedClass(e: Entry): nat {
    if exists i :: 0 <= i < |e.relations| && e.relations[i].SameIssue? then 0
    else if exists i :: 0 <= i < |e.relations| && e.relations[i].Reference? then 1
    else 2
  }

  ghost predicate StrongerOrEarlier(a: Entry, b: Entry) {
    ListedClass(a) < ListedClass(b) || (ListedClass(a) == ListedClass(b) && KeyBefore(a.key, b.key))
  }

  /** The status, the reason and the rest go together. */
  predicate StatusText(b: Body) {
    match b.status
    case Complete => b.complete && b.reason == ""
    case Truncated => b.reason != ""
    case Unavailable => !b.complete && b.reason != "" && b.candidates == [] && b.relatedCount == 0
  }

  ghost predicate ReadableHeader(env: Env, c: Context) {
    var b := c.body;
    && KeyText(b.target) && 1 <= |b.headSha| <= 100 && IdText(b.observationId) && IdText(b.snapshotId)
    && env.timestampOk(c.observedAt) && |b.snapshotReason| <= 120 && |b.reason| <= 120
    && |b.candidates| <= 10 && |b.candidates| <= b.relatedCount <= b.count
    && StatusText(b) && c.id == env.contextId(b)
  }

  lemma HeaderIff(env: Env, c: Context)
    ensures HeaderOk(env, c) <==> ReadableHeader(env, c)
  {
    hide IsId, IdText;
    IdIff(c.body.observationId);
    IdIff(c.body.snapshotId);
  }

  /** The strict reader accepts exactly the contexts with a readable header whose entries are well-formed,
      have different keys, and stand in the order of their keys or of their strength. */
  lemma AcceptsIff(env: Env, c: Context)
    requires env.space(' ')
    ensures var es := c.body.candidates;
            Accepts(env, c) <==>
            && ReadableHeader(env, c) && (forall i | 0 <= i < |es| :: EntryText(env, es[i]))
            && ((forall i, j | 0 <= i < j < |es| :: KeyBefore(es[i].key, es[j].key))
                || ((forall i, j | 0 <= i < j < |es| :: es[i].key != es[j].key)
                    && forall i, j | 0 <= i < j < |es| :: StrongerOrEarlier(es[i], es[j])))
  {
    hide HeaderOk, ReadableHeader, EntryOk, EntryText, InKeyOrder, InStrengthOrder, KeyBefore, StrongerOrEarlier;
    var es := c.body.candidates;
    HeaderIff(env, c);
    forall i | 0 <= i < |es| ensures EntryOk(env, es[i]) <==> EntryText(env, es[i]) { EntryOkIff(env, es[i]); }
    if forall i | 0 <= i < |es| :: EntryText(env, es[i]) {
      ShortRelations(env, es);
      KeyOrderIff(es);
      StrengthOrderIff(es);
    }
  }

  lemma ShortRelations(env: Env, es: seq<Entry>)
    requires forall i | 0 <= i < |es| :: EntryText(env, es[i])
    ensures forall i | 0 <= i < |es| :: 1 <= |es[i].relations| <= 3
  {
    hide TitleText, RelationText, RelationsInOrder;
  }

  lemma KeyOrderIff(es: seq<Entry>)
    ensures DistinctEntries(es) && InKeyOrder(es) <==> forall i, j | 0 <= i < j < |es| :: KeyBefore(es[i].key, es[j].key)
  {
    hide KeyLeq, KeyBefore;
    forall a, b ensures KeyLeq(a, b) <==> a == b || KeyBefore(a, b) { KeyOrder(a, b); }
    forall a ensures !KeyBefore(a, a) { KeyNotBefore(a); }
  }

  lemma KeyNotBefore(a: Key)
    ensures !KeyBefore(a, a)
  {
    NeverEarlier(a.owner);
    NeverEarlier(a.repo);
  }

  lemma StrengthOrderIff(es: seq<Entry>)
    requires forall i | 0 <= i < |es| :: 1 <= |es[i].relations| <= 3
    ensures DistinctEntries(es) ==>
            (InStrengthOrder(es) <==> forall i, j | 0 <= i < j < |es| :: StrongerOrEarlier(es[i], es[j]))
  {
    hide KeyLeq, KeyBefore, Strength, ListedClass;
    forall i | 0 <= i < |es| ensures Strength(es[i].relations) == ListedClass(es[i]) { ListedClassIs(es[i]); }
    forall a, b ensures KeyLeq(a, b) <==> a == b || KeyBefore(a, b) { KeyOrder(a, b); }
  }

  lemma ListedClassIs(e: Entry)
    requires 1 <= |e.relations| <= 3
    ensures Strength(e.relations) == ListedClass(e)
  {
    hide Strength;
    StrengthTells(e.relations);
  }
}
