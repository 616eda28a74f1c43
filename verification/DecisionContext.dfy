/** Related-work context: a canonical snapshot, deterministic relations, a strength-ordered cap and the
    strict reader of what the builder makes. */
module DecisionContext {
  import opened Outcomes
  import opened Sorting
  import opened Titles
  import S = Strings
  import A = Admission

  const MaxCandidates := 10
  const MaxRelations := 3
  const MaxShared := 3
  const MaxUrl := 250
  const MaxReason := 120
  const HubMinFanout := 3

  // ---------------------------------------------------------------- keys and their orders

  datatype Key = Key(owner: string, repo: string, number: int)

  /** Tuple order on owner, repository and number. */
  predicate KeyLeq(a: Key, b: Key) {
    if a.owner != b.owner then S.Leq(a.owner, b.owner)
    else if a.repo != b.repo then S.Leq(a.repo, b.repo)
    else a.number <= b.number
  }

  lemma KeysTotal(s: set<Key>)
    ensures TotalOn(s, KeyLeq)
  {
    hide S.Leq;
    forall a, b | a in s && b in s ensures KeyLeq(a, b) || KeyLeq(b, a) {
      S.LeqTotal(a.owner, b.owner);
      S.LeqTotal(a.repo, b.repo);
    }
    forall a, b | a in s && b in s && KeyLeq(a, b) && KeyLeq(b, a) ensures a == b {
      if a.owner != b.owner { S.LeqAntisymmetric(a.owner, b.owner); }
      else if a.repo != b.repo { S.LeqAntisymmetric(a.repo, b.repo); }
    }
    forall a, b, c | a in s && b in s && c in s && KeyLeq(a, b) && KeyLeq(b, c) ensures KeyLeq(a, c) { KeyLeqTransitive(a, b, c); }
  }

  lemma KeyLeqTransitive(a: Key, b: Key, c: Key)
    requires KeyLeq(a, b) && KeyLeq(b, c)
    ensures KeyLeq(a, c)
  {
    hide S.Leq;
    if a.owner != b.owner && b.owner != c.owner {
      S.LeqTransitive(a.owner, b.owner, c.owner);
      if a.owner == c.owner { S.LeqAntisymmetric(a.owner, b.owner); }
    } else if a.owner == b.owner == c.owner && a.repo != b.repo && b.repo != c.repo {
      S.LeqTransitive(a.repo, b.repo, c.repo);
      if a.repo == c.repo { S.LeqAntisymmetric(a.repo, b.repo); }
    }
  }

  function SortedKeys(s: set<Key>): (ks: seq<Key>)
    ensures Elements(ks) == s && |ks| == |s| && Ascending(ks, KeyLeq)
  {
    KeysTotal(s);
    Sorted(s, KeyLeq)
  }

  /** Relation strength, the strongest first, then the key. */
  datatype Rank = Rank(strength: nat, key: Key)

  predicate RankLeq(a: Rank, b: Rank) {
    a.strength < b.strength || (a.strength == b.strength && KeyLeq(a.key, b.key))
  }

  lemma RanksTotal(s: set<Rank>)
    ensures TotalOn(s, RankLeq)
  {
    hide KeyLeq;
    KeysTotal(set r | r in s :: r.key);
    forall a, b | a in s && b in s ensures RankLeq(a, b) || RankLeq(b, a) {
      assert a.key in (set r | r in s :: r.key) && b.key in (set r | r in s :: r.key);
    }
    forall a, b | a in s && b in s && RankLeq(a, b) && RankLeq(b, a) ensures a == b {
      assert a.key in (set r | r in s :: r.key) && b.key in (set r | r in s :: r.key);
    }
    forall a, b, c | a in s && b in s && c in s && RankLeq(a, b) && RankLeq(b, c) ensures RankLeq(a, c) {
      if a.strength == b.strength == c.strength { KeyLeqTransitive(a.key, b.key, c.key); }
    }
  }

  function SortedRanks(s: set<Rank>): (rs: seq<Rank>)
    ensures Elements(rs) == s && |rs| == |s| && Ascending(rs, RankLeq)
  {
    RanksTotal(s);
    Sorted(s, RankLeq)
  }

  predicate IntLeq(a: int, b: int) { a <= b }

  function SortedInts(s: set<int>): (xs: seq<int>)
    ensures Elements(xs) == s && |xs| == |s| && Ascending(xs, IntLeq)
  {
    Sorted(s, IntLeq)
  }

  // ---------------------------------------------------------------- candidates and snapshots

  /** One open pull request as observed; the program keeps the references sorted, which a multiset says too. */
  datatype Source = Source(
    key: Key, headSha: string, title: string,
    pathsComplete: bool, paths: seq<string>,
    closingComplete: bool, closing: seq<int>,
    referencesComplete: bool, references: multiset<Key>,
    cardIssue: int, url: string, cardUrl: string)

  /** What a snapshot's identity covers: everything but the time of observation. */
  datatype Facts = Facts(complete: bool, reason: string, count: int, candidates: seq<Source>)

  datatype Relation = SharedPath(paths: seq<string>) | Reference | SameIssue(issues: seq<int>)

  datatype Entry = Entry(key: Key, headSha: string, title: string, url: string, cardIssue: int, relations: seq<Relation>)

  /** What a context's identity covers: everything but its id and the time of observation. */
  datatype Body = Body(
    target: Key, headSha: string, observationId: string,
    snapshotId: string, count: int, complete: bool, snapshotReason: string,
    status: Status, reason: string, relatedCount: int, candidates: seq<Entry>)

  datatype Status = Complete | Truncated | Unavailable

  datatype Context = Context(body: Body, observedAt: string, id: string)

  /** Text tests and identities that the model does not look into. */
  datatype Env = Env(
    space: Whitespace, safePath: string -> bool, timestampOk: string -> bool,
    snapshotId: Facts -> string, contextId: Body -> string)

  predicate IsId(s: string) { "sha256:" <= s && A.IsDigest(s[7..]) }

  /** The plain space is whitespace and identities are digests. */
  ghost predicate Sound(env: Env) {
    env.space(' ') && (forall f :: IsId(env.snapshotId(f))) && (forall b :: IsId(env.contextId(b)))
  }

  predicate ValidKey(k: Key) { A.IsName(k.owner) && A.IsName(k.repo) && k.number >= 1 }

  predicate SafeHead(s: string) { 1 <= |s| <= 100 }

  predicate SafeUrl(s: string) { |s| <= MaxUrl && (s == "" || "https://github.com/" <= s) }

  predicate SortedPaths(env: Env, paths: seq<string>) {
    paths == S.SortedStrings(set p | p in paths) && forall i | 0 <= i < |paths| :: env.safePath(paths[i])
  }

  predicate SortedIssues(issues: seq<int>) {
    issues == SortedInts(set n | n in issues) && forall i | 0 <= i < |issues| :: issues[i] >= 1
  }

  predicate SourceOk(env: Env, c: Source) {
    && ValidKey(c.key) && SafeHead(c.headSha) && Title(c.title, env.space).Some?
    && SortedPaths(env, c.paths) && SortedIssues(c.closing)
    && (forall k | k in c.references :: ValidKey(k))
    && c.cardIssue >= 0 && c.url != "" && SafeUrl(c.url) && SafeUrl(c.cardUrl)
  }

  /** `_candidate_source` */
  function CandidateSource(env: Env, c: Source): Option<Source> {
    if SourceOk(env, c) then Some(c.(title := Title(c.title, env.space).value)) else None
  }

  predicate AllOk(env: Env, raws: seq<Source>) {
    forall i | 0 <= i < |raws| :: SourceOk(env, raws[i])
  }

  function Normalized(env: Env, raws: seq<Source>): (cs: seq<Source>)
    requires AllOk(env, raws)
    ensures |cs| == |raws| && forall i | 0 <= i < |cs| :: CandidateSource(env, raws[i]) == Some(cs[i])
  {
    seq(|raws|, i requires 0 <= i < |raws| => CandidateSource(env, raws[i]).value)
  }

  predicate DistinctKeys(cs: seq<Source>) {
    forall i, j | 0 <= i < j < |cs| :: cs[i].key != cs[j].key
  }

  function ByKey(cs: seq<Source>): (m: map<Key, Source>)
    requires DistinctKeys(cs)
    ensures forall c | c in cs :: c.key in m && m[c.key] == c
    ensures forall k | k in m :: m[k] in cs && m[k].key == k
  {
    map c | c in cs :: c.key := c
  }

  /** `normalized.sort(key=owner, repo, number)` on distinct keys */
  function SortedByKey(cs: seq<Source>): (out: seq<Source>)
    requires DistinctKeys(cs)
  {
    var m := ByKey(cs);
    var keys := SortedKeys(m.Keys);
    assert forall k | k in keys :: k in Elements(keys);
    seq(|keys|, i requires 0 <= i < |keys| => m[keys[i]])
  }

  lemma KeysAre(cs: seq<Source>)
    requires DistinctKeys(cs)
    ensures ByKey(cs).Keys == set c | c in cs :: c.key
  {
    hide DistinctKeys, ByKey;
    var m := ByKey(cs);
    forall k ensures k in m <==> k in set c | c in cs :: c.key {
      if k in m { assert m[k] in cs && m[k].key == k; }
    }
  }

  lemma SortedByKeyAt(cs: seq<Source>)
    requires DistinctKeys(cs)
    ensures var keys, out := SortedKeys(ByKey(cs).Keys), SortedByKey(cs);
            && |out| == |keys| && Ascending(keys, KeyLeq) && Elements(keys) == (set c | c in cs :: c.key)
            && forall i | 0 <= i < |out| :: out[i] in cs && out[i].key == keys[i]
  {
    hide KeyLeq, DistinctKeys, SortedKeys, ByKey, Ascending;
    KeysAre(cs);
    var m := ByKey(cs);
    var keys := SortedKeys(m.Keys);
    forall i | 0 <= i < |keys| ensures keys[i] in m && m[keys[i]] in cs && m[keys[i]].key == keys[i] {
      assert keys[i] in Elements(keys);
    }
  }

  lemma SortedByKeyIs(cs: seq<Source>)
    requires DistinctKeys(cs)
    ensures var out := SortedByKey(cs);
            && |out| == |cs| && DistinctKeys(out)
            && (forall c :: c in out <==> c in cs)
            && (forall i, j | 0 <= i < j < |out| :: KeyLeq(out[i].key, out[j].key))
  {
    hide KeyLeq, SortedKeys, SortedByKey, ByKey;
    var keys, out := SortedKeys(ByKey(cs).Keys), SortedByKey(cs);
    SortedByKeyAt(cs);
    DistinctCount(cs);
    forall c | c in cs ensures c in out {
      assert c.key in Elements(keys);
      var i :| 0 <= i < |keys| && keys[i] == c.key;
      OneByKey(cs, c, out[i]);
    }
  }

  lemma OneByKey(cs: seq<Source>, c: Source, d: Source)
    requires DistinctKeys(cs) && c in cs && d in cs && c.key == d.key
    ensures c == d
  {
  }

  lemma {:induction false} DistinctCount(cs: seq<Source>)
    requires DistinctKeys(cs)
    ensures |set c | c in cs :: c.key| == |cs|
  {
    if cs == [] {
      assert (set c | c in cs :: c.key) == {};
    } else {
      var rest := cs[1..];
      DistinctCount(rest);
      assert (set c | c in cs :: c.key) == {cs[0].key} + set c | c in rest :: c.key;
      assert cs[0].key !in set c | c in rest :: c.key;
    }
  }

  /** `repository_snapshot`, without the time and the identity it adds */
  function SnapshotFacts(env: Env, raws: seq<Source>, complete: bool, reason: string, count: Option<int>): Option<Facts> {
    if !AllOk(env, raws) then None
    else
      var cs := Normalized(env, raws);
      if !DistinctKeys(cs) || |reason| > MaxReason then None
      else
        var n := if count == None then |cs| else count.value;
        if n < |cs| || (complete && (n != |cs| || reason != "")) then None
        else Some(Facts(complete, if !complete && reason == "" then "snapshot.incomplete" else reason, n, SortedByKey(cs)))
  }

  // ---------------------------------------------------------------- relations

  /** How many candidates touch the path. */
  function Fanout(cs: seq<Source>, path: string): nat {
    if cs == [] then 0 else Fanout(cs[..|cs| - 1], path) + if path in cs[|cs| - 1].paths then 1 else 0
  }

  /** `_hub_path`: touched by at least three candidates and at least half of all. */
  predicate Hub(facts: Facts, path: string) {
    var n := Fanout(facts.candidates, path);
    n >= HubMinFanout && n * 2 >= facts.count
  }

  predicate SameRepo(a: Source, b: Source) { a.key.owner == b.key.owner && a.key.repo == b.key.repo }

  function CommonIssues(a: Source, b: Source): set<int> {
    if SameRepo(a, b) && a.closingComplete && b.closingComplete then (set n | n in a.closing && n in b.closing) else {}
  }

  function CommonPaths(facts: Facts, a: Source, b: Source): set<string> {
    if a.pathsComplete && b.pathsComplete then (set p | p in a.paths && p in b.paths && !Hub(facts, p)) else {}
  }

  predicate Refers(target: Source, c: Source) { target.referencesComplete && c.key in target.references }

  function FirstThree<T>(xs: seq<T>): (ys: seq<T>)
    ensures ys <= xs && |ys| <= MaxShared && (xs != [] ==> ys != [])
  {
    if |xs| <= MaxShared then xs else xs[..MaxShared]
  }

  /** In the order of their kinds' names. */
  function Relations(facts: Facts, target: Source, c: Source): seq<Relation> {
    (if CommonPaths(facts, target, c) == {} then [] else [SharedPath(FirstThree(S.SortedStrings(CommonPaths(facts, target, c))))])
    + (if Refers(target, c) then [Reference] else [])
    + (if CommonIssues(target, c) == {} then [] else [SameIssue(FirstThree(SortedInts(CommonIssues(target, c))))])
  }

  predicate Incomparable(target: Source, c: Source) {
    || (SameRepo(target, c) && !(target.closingComplete && c.closingComplete))
    || !target.referencesComplete
    || !(target.pathsComplete && c.pathsComplete)
  }

  predicate Overfull(facts: Facts, target: Source, c: Source) {
    |CommonIssues(target, c)| > MaxShared || |CommonPaths(facts, target, c)| > MaxShared
  }

  function StrengthOf(r: Relation): nat {
    match r case SameIssue(_) => 0 case Reference => 1 case SharedPath(_) => 2
  }

  function Strength(rs: seq<Relation>): nat
    requires rs != []
  {
    if |rs| == 1 then StrengthOf(rs[0])
    else if StrengthOf(rs[0]) <= Strength(rs[1..]) then StrengthOf(rs[0]) else Strength(rs[1..])
  }

  function EntryOf(facts: Facts, target: Source, c: Source): Entry {
    Entry(c.key, c.headSha, c.title, c.url, c.cardIssue, Relations(facts, target, c))
  }

  predicate IsRelated(facts: Facts, target: Source, c: Source) {
    c.key != target.key && Relations(facts, target, c) != []
  }

  function RankOf(facts: Facts, target: Source, c: Source): Rank
    requires IsRelated(facts, target, c)
  {
    Rank(Strength(Relations(facts, target, c)), c.key)
  }

  predicate WellKeyed(facts: Facts) { DistinctKeys(facts.candidates) }

  function RelatedRanks(facts: Facts, target: Source): set<Rank> {
    set c | c in facts.candidates && IsRelated(facts, target, c) :: RankOf(facts, target, c)
  }

  /** `related.sort(key=_strength_candidate_key)` */
  function Related(facts: Facts, target: Source): (es: seq<Entry>)
    requires WellKeyed(facts)
  {
    var ranks := SortedRanks(RelatedRanks(facts, target));
    var m := ByKey(facts.candidates);
    RanksHaveSources(facts, target, ranks);
    seq(|ranks|, i requires 0 <= i < |ranks| => EntryOf(facts, target, m[ranks[i].key]))
  }

  lemma RanksHaveSources(facts: Facts, target: Source, ranks: seq<Rank>)
    requires WellKeyed(facts) && Elements(ranks) == RelatedRanks(facts, target)
    ensures var m := ByKey(facts.candidates);
            forall i | 0 <= i < |ranks| ::
              ranks[i].key in m && IsRelated(facts, target, m[ranks[i].key]) && RankOf(facts, target, m[ranks[i].key]) == ranks[i]
  {
    hide IsRelated, Strength, Relations;
    forall i | 0 <= i < |ranks|
      ensures var m := ByKey(facts.candidates);
              ranks[i].key in m && IsRelated(facts, target, m[ranks[i].key]) && RankOf(facts, target, m[ranks[i].key]) == ranks[i]
    {
      assert ranks[i] in Elements(ranks);
      var c :| c in facts.candidates && IsRelated(facts, target, c) && RankOf(facts, target, c) == ranks[i];
      assert c.key == ranks[i].key;
    }
  }

  // ---------------------------------------------------------------- the context

  /** A normalised review observation, as far as the context uses it. */
  datatype Observation = Observation(target: Key, headSha: string, id: string)

  predicate ObservationOk(o: Observation) { ValidKey(o.target) && SafeHead(o.headSha) && IsId(o.id) }

  predicate AnyIncomparable(facts: Facts, target: Source) {
    exists i :: 0 <= i < |facts.candidates| && facts.candidates[i].key != target.key && Incomparable(target, facts.candidates[i])
  }

  predicate AnyOverfull(facts: Facts, target: Source) {
    exists i :: 0 <= i < |facts.candidates| && facts.candidates[i].key != target.key && Overfull(facts, target, facts.candidates[i])
  }

  function Kept(es: seq<Entry>, cap: nat): (ks: seq<Entry>)
    ensures ks <= es && |ks| <= cap && (|ks| < |es| ==> |ks| == cap)
  {
    if |es| <= cap then es else es[..cap]
  }

  function ReasonOf(facts: Facts, target: Source): string {
    if !facts.complete then facts.reason
    else if AnyIncomparable(facts, target) then "comparison_incomplete"
    else if AnyOverfull(facts, target) then "relation_bound"
    else ""
  }

  function StatusOf(facts: Facts, target: Source): Status {
    if !facts.complete || AnyIncomparable(facts, target) || AnyOverfull(facts, target) then Truncated else Complete
  }

  function BodyOf(env: Env, o: Observation, facts: Facts, target: Source, cap: nat): Body
    requires WellKeyed(facts)
  {
    var related := Related(facts, target);
    Body(o.target, o.headSha, o.id, env.snapshotId(facts), facts.count, facts.complete, facts.reason,
         StatusOf(facts, target), ReasonOf(facts, target), |related|, Kept(related, cap))
  }

  // ---------------------------------------------------------------- the strict reader

  predicate RelationOk(env: Env, r: Relation) {
    match r
    case SharedPath(paths) => 1 <= |paths| <= MaxShared && SortedPaths(env, paths)
    case Reference => true
    case SameIssue(issues) => 1 <= |issues| <= MaxShared && SortedIssues(issues)
  }

  function KindIndex(r: Relation): nat {
    match r case SharedPath(_) => 0 case Reference => 1 case SameIssue(_) => 2
  }

  predicate LexStrings(a: seq<string>, b: seq<string>) {
    a == [] || (b != [] && if a[0] == b[0] then LexStrings(a[1..], b[1..]) else S.Leq(a[0], b[0]))
  }

  predicate LexInts(a: seq<int>, b: seq<int>) {
    a == [] || (b != [] && if a[0] == b[0] then LexInts(a[1..], b[1..]) else a[0] < b[0])
  }

  /** Order on kind name, then paths, then issues. */
  predicate RelationLeq(a: Relation, b: Relation) {
    if KindIndex(a) != KindIndex(b) then KindIndex(a) < KindIndex(b)
    else match (a, b)
      case (SharedPath(p), SharedPath(q)) => LexStrings(p, q)
      case (SameIssue(p), SameIssue(q)) => LexInts(p, q)
      case _ => true
  }

  predicate RelationsOk(env: Env, rs: seq<Relation>) {
    && 1 <= |rs| <= MaxRelations
    && (forall i | 0 <= i < |rs| :: RelationOk(env, rs[i]))
    && (forall i, j | 0 <= i < j < |rs| :: RelationLeq(rs[i], rs[j]))
  }

  predicate EntryOk(env: Env, e: Entry) {
    && ValidKey(e.key) && SafeHead(e.headSha) && Stable(e.title, env.space)
    && e.url != "" && SafeUrl(e.url) && e.cardIssue >= 0 && RelationsOk(env, e.relations)
  }

  predicate InKeyOrder(es: seq<Entry>) {
    forall i, j | 0 <= i < j < |es| :: KeyLeq(es[i].key, es[j].key)
  }

  predicate InStrengthOrder(es: seq<Entry>)
    requires forall i | 0 <= i < |es| :: es[i].relations != []
  {
    forall i, j | 0 <= i < j < |es| ::
      RankLeq(Rank(Strength(es[i].relations), es[i].key), Rank(Strength(es[j].relations), es[j].key))
  }

  predicate DistinctEntries(es: seq<Entry>) {
    forall i, j | 0 <= i < j < |es| :: es[i].key != es[j].key
  }

  predicate StatusOk(b: Body) {
    && (b.status == Complete ==> b.complete && b.reason == "")
    && (b.status == Truncated ==> b.reason != "")
    && (b.status == Unavailable ==> !b.complete && b.reason != "" && b.candidates == [] && b.relatedCount == 0)
  }

  predicate HeaderOk(env: Env, c: Context) {
    var b := c.body;
    && ValidKey(b.target) && SafeHead(b.headSha) && IsId(b.observationId) && IsId(b.snapshotId)
    && env.timestampOk(c.observedAt) && |b.snapshotReason| <= MaxReason && |b.reason| <= MaxReason
    && |b.candidates| <= MaxCandidates && |b.candidates| <= b.relatedCount <= b.count
    && StatusOk(b) && c.id == env.contextId(b)
  }

  /** `normalize_decision_context` accepts the context. */
  predicate Accepts(env: Env, c: Context) {
    var es := c.body.candidates;
    && HeaderOk(env, c)
    && (forall i | 0 <= i < |es| :: EntryOk(env, es[i]))
    && DistinctEntries(es) && (InKeyOrder(es) || InStrengthOrder(es))
  }

  // ---------------------------------------------------------------- the builder

  datatype Snapshot = Snapshot(id: string, observedAt: string, complete: bool, reason: string, count: int, candidates: seq<Source>)

  datatype Outcome = Withheld(reason: string) | Built(context: Context) | Raises

  function FindTarget(cs: seq<Source>, key: Key): Option<Source> {
    if cs == [] then None else if cs[0].key == key then Some(cs[0]) else FindTarget(cs[1..], key)
  }

  function Rebuilt(env: Env, s: Snapshot): Option<Facts> {
    SnapshotFacts(env, s.candidates, s.complete, s.reason, Some(s.count))
  }

  /** `build_decision_context`; `Withheld` is the unavailable context for a reason. */
  function Build(env: Env, o: Option<Observation>, s: Snapshot, cap: int): Outcome {
    if o == None then Withheld("observation.invalid")
    else if !("sha256:" <= s.id) || !env.timestampOk(s.observedAt) then Withheld("snapshot.invalid")
    else if Rebuilt(env, s) == None || env.snapshotId(Rebuilt(env, s).value) != s.id then Withheld("snapshot.identity_mismatch")
    else if cap < 1 || cap > MaxCandidates then Withheld("context.bound_invalid")
    else
      var facts := Rebuilt(env, s).value;
      var target := FindTarget(facts.candidates, o.value.target);
      if target == None || target.value.headSha != o.value.headSha then Withheld("target.snapshot_mismatch")
      else
        FactsAreGood(env, s.candidates, s.complete, s.reason, Some(s.count));
        var body := BodyOf(env, o.value, facts, target.value, cap);
        var context := Context(body, s.observedAt, env.contextId(body));
        if Accepts(env, context) then Built(context) else Raises
  }

  /** What a rebuilt snapshot guarantees of its facts. */
  predicate GoodFacts(env: Env, facts: Facts) {
    && WellKeyed(facts) && |facts.reason| <= MaxReason && |facts.candidates| <= facts.count
    && (facts.complete <==> facts.reason == "")
    && (forall i | 0 <= i < |facts.candidates| :: GoodSource(env, facts.candidates[i]))
  }

  predicate GoodSource(env: Env, c: Source) {
    && ValidKey(c.key) && SafeHead(c.headSha) && SortedPaths(env, c.paths) && SortedIssues(c.closing)
    && c.cardIssue >= 0 && c.url != "" && SafeUrl(c.url)
  }

  lemma FactsAreGood(env: Env, raws: seq<Source>, complete: bool, reason: string, count: Option<int>)
    ensures var facts := SnapshotFacts(env, raws, complete, reason, count);
            facts.Some? ==> GoodFacts(env, facts.value)
  {
    hide SortedByKey, Title, SortedPaths, SortedIssues, KeyLeq;
    if SnapshotFacts(env, raws, complete, reason, count).Some? {
      var cs := Normalized(env, raws);
      SortedByKeyIs(cs);
      var out := SortedByKey(cs);
      forall i | 0 <= i < |out| ensures GoodSource(env, out[i]) {
        assert out[i] in cs;
        var j :| 0 <= j < |cs| && cs[j] == out[i];
        assert SourceOk(env, raws[j]);
      }
    }
  }
}
