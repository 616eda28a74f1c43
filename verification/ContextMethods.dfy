/** The loops of the context builder and of its strict reader. */
module ContextMethods {
  import opened Outcomes
  import opened Sorting
  import opened Titles
  import opened DecisionContext
  import opened RelatedWork
  import S = Strings

  predicate NoRepeats(paths: seq<string>) {
    forall i, j | 0 <= i < j < |paths| :: paths[i] != paths[j]
  }

  function CountAt(fanout: map<string, nat>, path: string): nat {
    if path in fanout then fanout[path] else 0
  }

  /** `_path_fanout`: one pass over every candidate's paths. */
  method PathFanout(cs: seq<Source>) returns (fanout: map<string, nat>)
    requires forall i | 0 <= i < |cs| :: NoRepeats(cs[i].paths)
    ensures forall path :: CountAt(fanout, path) == Fanout(cs, path)
  {
    hide NoRepeats;
    fanout := map[];
    for i := 0 to |cs|
      invariant forall path :: CountAt(fanout, path) == Fanout(cs[..i], path)
    {
      assert cs[..i + 1][..i] == cs[..i];
      fanout := CountPaths(fanout, cs[i].paths);
    }
    assert cs[..|cs|] == cs;
  }

  method CountPaths(before: map<string, nat>, paths: seq<string>) returns (fanout: map<string, nat>)
    requires NoRepeats(paths)
    ensures forall path :: CountAt(fanout, path) == CountAt(before, path) + if path in paths then 1 else 0
  {
    fanout := before;
    for i := 0 to |paths|
      invariant forall path :: CountAt(fanout, path) == CountAt(before, path) + if path in paths[..i] then 1 else 0
    {
      assert paths[..i + 1] == paths[..i] + [paths[i]];
      assert paths[i] !in paths[..i];
      fanout := fanout[paths[i] := CountAt(fanout, paths[i]) + 1];
    }
    assert paths[..|paths|] == paths;
  }

  function RelatedAmong(facts: Facts, target: Source, cs: seq<Source>): seq<Entry> {
    if cs == [] then []
    else
      var c := cs[|cs| - 1];
      RelatedAmong(facts, target, cs[..|cs| - 1]) + if IsRelated(facts, target, c) then [EntryOf(facts, target, c)] else []
  }

  /** The matching loop of `build_decision_context`: the related rows before sorting, and the two flags. */
  method MatchCandidates(facts: Facts, target: Source) returns (related: seq<Entry>, incomplete: bool, truncated: bool)
    requires WellKeyed(facts)
    ensures incomplete == AnyIncomparable(facts, target) && truncated == AnyOverfull(facts, target)
    ensures forall e :: e in related <==> e in Related(facts, target)
    ensures |related| == |Related(facts, target)|
  {
    hide Incomparable, Overfull, Relations, EntryOf, Related, WellKeyed;
    var cs := facts.candidates;
    related, incomplete, truncated := [], false, false;
    for i := 0 to |cs|
      invariant related == RelatedAmong(facts, target, cs[..i])
      invariant incomplete <==> exists k :: 0 <= k < i && cs[k].key != target.key && Incomparable(target, cs[k])
      invariant truncated <==> exists k :: 0 <= k < i && cs[k].key != target.key && Overfull(facts, target, cs[k])
    {
      var c := cs[i];
      assert cs[..i + 1][..i] == cs[..i];
      if c.key != target.key {
        if Incomparable(target, c) { incomplete := true; }
        if Overfull(facts, target, c) { truncated := true; }
        if Relations(facts, target, c) != [] { related := related + [EntryOf(facts, target, c)]; }
      }
    }
    assert cs[..|cs|] == cs;
    MatchedIsRelated(facts, target);
  }

  /** The entry is that of a related candidate. */
  ghost predicate ComesFrom(facts: Facts, target: Source, cs: seq<Source>, e: Entry) {
    exists c :: c in cs && IsRelated(facts, target, c) && e == EntryOf(facts, target, c)
  }

  lemma ComesFromMore(facts: Facts, target: Source, cs: seq<Source>, more: seq<Source>, e: Entry)
    requires ComesFrom(facts, target, cs, e)
    ensures ComesFrom(facts, target, cs + more, e)
  {
    hide IsRelated, EntryOf;
    var c :| c in cs && IsRelated(facts, target, c) && e == EntryOf(facts, target, c);
    assert c in cs + more;
  }

  lemma {:induction false} AmongComeFrom(facts: Facts, target: Source, cs: seq<Source>)
    ensures forall e | e in RelatedAmong(facts, target, cs) :: ComesFrom(facts, target, cs, e)
  {
    hide IsRelated, EntryOf;
    if cs != [] {
      var init, last := cs[..|cs| - 1], cs[|cs| - 1];
      var before := RelatedAmong(facts, target, init);
      AmongComeFrom(facts, target, init);
      assert cs == init + [last];
      forall e | e in RelatedAmong(facts, target, cs) ensures ComesFrom(facts, target, cs, e) {
        if e in before { ComesFromMore(facts, target, init, [last], e); } else { assert e == EntryOf(facts, target, last); }
      }
    }
  }

  lemma {:induction false} AmongDistinct(facts: Facts, target: Source, cs: seq<Source>)
    requires DistinctKeys(cs)
    ensures DistinctEntries(RelatedAmong(facts, target, cs))
  {
    hide IsRelated, EntryOf;
    if cs != [] {
      var init, last := cs[..|cs| - 1], cs[|cs| - 1];
      var before := RelatedAmong(facts, target, init);
      AmongDistinct(facts, target, init);
      AmongComeFrom(facts, target, init);
      EntryKey(facts, target, last);
      forall e | e in before ensures e.key != last.key {
        assert ComesFrom(facts, target, init, e);
        var c :| c in init && IsRelated(facts, target, c) && e == EntryOf(facts, target, c);
        EntryKey(facts, target, c);
      }
    }
  }

  lemma {:induction false} AmongComplete(facts: Facts, target: Source, cs: seq<Source>, c: Source)
    requires c in cs && IsRelated(facts, target, c)
    ensures EntryOf(facts, target, c) in RelatedAmong(facts, target, cs)
  {
    hide IsRelated, EntryOf;
    if c != cs[|cs| - 1] { AmongComplete(facts, target, cs[..|cs| - 1], c); }
  }

  lemma EntryKey(facts: Facts, target: Source, c: Source)
    ensures EntryOf(facts, target, c).key == c.key
  {
  }

  /** The loop's rows are the sorted list's rows. */
  lemma MatchedIsRelated(facts: Facts, target: Source)
    requires WellKeyed(facts)
    ensures var es := RelatedAmong(facts, target, facts.candidates);
            && (forall e :: e in es <==> e in Related(facts, target)) && |es| == |Related(facts, target)|
  {
    hide IsRelated, EntryOf, Related, RelatedAmong, RankOf;
    var cs := facts.candidates;
    var es, sorted := RelatedAmong(facts, target, cs), Related(facts, target);
    AmongComeFrom(facts, target, cs);
    AmongDistinct(facts, target, cs);
    RelatedIsShort(facts, target);
    forall e | e in es ensures e in sorted {
      assert ComesFrom(facts, target, cs, e);
      var c :| c in cs && IsRelated(facts, target, c) && e == EntryOf(facts, target, c);
      RelatedIsComplete(facts, target, c);
    }
    forall e | e in sorted ensures e in es {
      var i :| 0 <= i < |sorted| && sorted[i] == e;
      var c := RelatedAt(facts, target, i);
      AmongComplete(facts, target, cs, c);
    }
    SameCount(es, sorted);
  }

  lemma SameCount(a: seq<Entry>, b: seq<Entry>)
    requires DistinctEntries(a) && DistinctEntries(b) && forall e :: e in a <==> e in b
    ensures |a| == |b|
  {
    var keys := set e | e in a :: e.key;
    assert keys == set e | e in b :: e.key;
    EntryCount(a);
    EntryCount(b);
  }

  lemma {:induction false} EntryCount(es: seq<Entry>)
    requires DistinctEntries(es)
    ensures |set e | e in es :: e.key| == |es|
  {
    if es == [] {
      assert (set e | e in es :: e.key) == {};
    } else {
      EntryCount(es[1..]);
      assert (set e | e in es :: e.key) == {es[0].key} + set e | e in es[1..] :: e.key;
      assert es[0].key !in set e | e in es[1..] :: e.key;
    }
  }

  /** The reading loop of `normalize_decision_context`, with its set of keys already seen. */
  method ReadEntries(env: Env, es: seq<Entry>) returns (ok: bool)
    ensures ok == ((forall i | 0 <= i < |es| :: EntryOk(env, es[i])) && DistinctEntries(es))
  {
    hide EntryOk;
    var seen: set<Key> := {};
    for i := 0 to |es|
      invariant seen == set k | 0 <= k < i :: es[k].key
      invariant (forall k | 0 <= k < i :: EntryOk(env, es[k])) && DistinctEntries(es[..i])
    {
      if es[i].key in seen || !EntryOk(env, es[i]) {
        return false;
      }
      seen := seen + {es[i].key};
    }
    ok := true;
  }

  /** `normalize_decision_context` */
  method ReadContext(env: Env, c: Context) returns (ok: bool)
    ensures ok == Accepts(env, c)
  {
    hide EntryOk, HeaderOk, DistinctEntries, KeyLeq, RankLeq, Strength;
    if !HeaderOk(env, c) {
      return false;
    }
    var readable := ReadEntries(env, c.body.candidates);
    if !readable {
      return false;
    }
    EntriesHaveRelations(env, c.body.candidates);
    ok := InKeyOrder(c.body.candidates) || InStrengthOrder(c.body.candidates);
  }

  lemma EntriesHaveRelations(env: Env, es: seq<Entry>)
    requires forall i | 0 <= i < |es| :: EntryOk(env, es[i])
    ensures forall i | 0 <= i < |es| :: es[i].relations != []
  {
  }
}
