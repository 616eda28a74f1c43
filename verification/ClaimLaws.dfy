/** What the operations on a card's claims do, told comment by comment. */
module ClaimLaws {
  import opened AgentClaim

  // ---------------------------------------------------------------- comments

  predicate ActiveAt(log: seq<Comment>, i: nat, key: string) {
    i < |log| && log[i].bot && log[i].body.Active? && log[i].body.key == key
  }

  predicate SupersededAt(log: seq<Comment>, i: nat, key: string) {
    i < |log| && log[i].bot && log[i].body.Superseded? && log[i].body.key == key
  }

  /** A superseded claim that was not finished with one of the two codes its reader knows. */
  predicate UnreadableAt(log: seq<Comment>, i: nat) {
    && i < |log| && log[i].bot && log[i].body.Superseded?
    && log[i].body.stage != Finished("consumer.committed") && log[i].body.stage != Finished("consumer.rejected")
  }

  predicate SomeActive(log: seq<Comment>, key: string) { exists i | 0 <= i < |log| :: ActiveAt(log, i, key) }

  predicate TwoActive(log: seq<Comment>, key: string) {
    exists i, j | 0 <= i < j < |log| :: ActiveAt(log, i, key) && ActiveAt(log, j, key)
  }

  predicate SomeSuperseded(log: seq<Comment>, key: string) { exists i | 0 <= i < |log| :: SupersededAt(log, i, key) }

  predicate TwoSuperseded(log: seq<Comment>, key: string) {
    exists i, j | 0 <= i < j < |log| :: SupersededAt(log, i, key) && SupersededAt(log, j, key)
  }

  predicate SomeUnreadable(log: seq<Comment>) { exists i | 0 <= i < |log| :: UnreadableAt(log, i) }

  lemma {:induction false} CountIsTwo(log: seq<Comment>, p: Comment -> bool) returns (i: nat, j: nat)
    requires Count(log, p) >= 2
    ensures i < j < |log| && p(log[i]) && p(log[j])
  {
    var rest := log[..|log| - 1];
    if Count(rest, p) >= 2 {
      i, j := CountIsTwo(rest, p);
    } else {
      CountIsExistence(rest, p);
      i :| 0 <= i < |rest| && p(rest[i]);
      j := |rest|;
    }
  }

  lemma ActiveCounts(log: seq<Comment>, key: string)
    ensures ActiveCount(log, key) >= 1 <==> SomeActive(log, key)
    ensures ActiveCount(log, key) >= 2 <==> TwoActive(log, key)
  {
    hide Count;
    CountIsExistence(log, ActiveIs(key));
    if SomeActive(log, key) {
      var i :| 0 <= i < |log| && ActiveAt(log, i, key);
      assert ActiveIs(key)(log[i]);
    }
    if ActiveCount(log, key) >= 1 {
      var i :| 0 <= i < |log| && ActiveIs(key)(log[i]);
      assert ActiveAt(log, i, key);
    }
    if TwoActive(log, key) {
      var i, j :| 0 <= i < j < |log| && ActiveAt(log, i, key) && ActiveAt(log, j, key);
      CountTwo(log, ActiveIs(key), i, j);
    }
    if ActiveCount(log, key) >= 2 {
      var i, j := CountIsTwo(log, ActiveIs(key));
      assert ActiveAt(log, i, key) && ActiveAt(log, j, key);
    }
  }

  lemma SupersededCounts(log: seq<Comment>, key: string)
    ensures SupersededCount(log, key) >= 1 <==> SomeSuperseded(log, key)
    ensures SupersededCount(log, key) >= 2 <==> TwoSuperseded(log, key)
  {
    hide Count;
    CountIsExistence(log, SupersededIs(key));
    if SomeSuperseded(log, key) {
      var i :| 0 <= i < |log| && SupersededAt(log, i, key);
      assert SupersededIs(key)(log[i]);
    }
    if SupersededCount(log, key) >= 1 {
      var i :| 0 <= i < |log| && SupersededIs(key)(log[i]);
      assert SupersededAt(log, i, key);
    }
    if TwoSuperseded(log, key) {
      var i, j :| 0 <= i < j < |log| && SupersededAt(log, i, key) && SupersededAt(log, j, key);
      CountTwo(log, SupersededIs(key), i, j);
    }
    if SupersededCount(log, key) >= 2 {
      var i, j := CountIsTwo(log, SupersededIs(key));
      assert SupersededAt(log, i, key) && SupersededAt(log, j, key);
    }
  }

  lemma JamIsUnreadable(log: seq<Comment>)
    ensures Jammed(log) <==> SomeUnreadable(log)
  {
    hide Count;
    CountIsExistence(log, IsJam);
    if SomeUnreadable(log) {
      var i :| 0 <= i < |log| && UnreadableAt(log, i);
      assert IsJam(log[i]);
    }
    if Jammed(log) {
      var i :| 0 <= i < |log| && IsJam(log[i]);
      assert UnreadableAt(log, i);
    }
  }

  // ---------------------------------------------------------------- reading

  /** A key is active when the card shows exactly one active claim on it and nothing superseded, superseded
      the other way round, missing when it shows neither; two of a kind, both kinds, or any superseded
      claim that cannot be read make it an error. */
  lemma KeyStateIff(log: seq<Comment>, key: string)
    ensures var wrong := TwoActive(log, key) || TwoSuperseded(log, key) || SomeUnreadable(log);
            var active, superseded := SomeActive(log, key), SomeSuperseded(log, key);
            && (KeyState(log, key) == ErrorState <==> wrong || (active && superseded))
            && (KeyState(log, key) == ActiveState <==> !wrong && active && !superseded)
            && (KeyState(log, key) == SupersededState <==> !wrong && !active && superseded)
            && (KeyState(log, key) == MissingState <==> !wrong && !active && !superseded)
  {
    hide ActiveCount, SupersededCount, Jammed, SomeActive, SomeSuperseded, SomeUnreadable, TwoActive, TwoSuperseded;
    ActiveCounts(log, key);
    SupersededCounts(log, key);
    JamIsUnreadable(log);
  }

  /** The state of the card for an event that is known under several keys: an error when one key is in
      error or two are not missing, missing under the first key when all are, and else the one that is not. */
  lemma {:induction false} RecoveryStateIff(log: seq<Comment>, keys: seq<string>)
    requires keys != []
    ensures var (state, key) := RecoveryState(log, keys);
            && (state == ErrorState <==>
                || (exists i :: 0 <= i < |keys| && KeyState(log, keys[i]) == ErrorState)
                || (exists i, j :: 0 <= i < j < |keys|
                      && KeyState(log, keys[i]) != MissingState && KeyState(log, keys[j]) != MissingState))
            && (state == MissingState <==> forall i :: 0 <= i < |keys| ==> KeyState(log, keys[i]) == MissingState)
            && (state == MissingState ==> key == keys[0])
            && (state in {ActiveState, SupersededState} ==> key in keys && KeyState(log, key) == state)
  {
    hide KeyState;
    if |keys| > 1 {
      var rest := keys[1..];
      RecoveryStateIff(log, rest);
      forall i | 0 <= i < |rest| ensures keys[i + 1] == rest[i] {
      }
      Lifted(log, keys);
    }
  }

  lemma Lifted(log: seq<Comment>, keys: seq<string>)
    requires |keys| > 1
    ensures var rest := keys[1..];
            && ((exists i :: 0 <= i < |keys| && KeyState(log, keys[i]) == ErrorState) <==>
                KeyState(log, keys[0]) == ErrorState || exists i :: 0 <= i < |rest| && KeyState(log, rest[i]) == ErrorState)
            && ((exists i, j :: 0 <= i < j < |keys|
                   && KeyState(log, keys[i]) != MissingState && KeyState(log, keys[j]) != MissingState) <==>
                || (KeyState(log, keys[0]) != MissingState && exists i :: 0 <= i < |rest| && KeyState(log, rest[i]) != MissingState)
                || (exists i, j :: 0 <= i < j < |rest|
                      && KeyState(log, rest[i]) != MissingState && KeyState(log, rest[j]) != MissingState))
            && ((forall i :: 0 <= i < |keys| ==> KeyState(log, keys[i]) == MissingState) <==>
                KeyState(log, keys[0]) == MissingState && forall i :: 0 <= i < |rest| ==> KeyState(log, rest[i]) == MissingState)
  {
    hide KeyState;
    var rest := keys[1..];
    assert forall i :: 0 <= i < |rest| ==> keys[i + 1] == rest[i];
    assert forall i :: 1 <= i < |keys| ==> rest[i - 1] == keys[i];
  }

  // ---------------------------------------------------------------- the operations

  /** A claim is admitted exactly when the card shows no active claim on its key, and writes one then;
      a run that ends before it reports leaves the claim without the admission. */
  lemma ClaimTells(s: System, key: string, told: bool, primary: string -> bool)
    ensures var after := Apply(s, Claim(key, told), primary);
            && after.superseded == s.superseded
            && (SomeActive(s.log, key) ==> after == s)
            && (!SomeActive(s.log, key) ==>
                && |after.log| == |s.log| + 1 && after.log[..|s.log|] == s.log
                && after.log[|s.log|].bot && after.log[|s.log|].body == Active(key, Pending)
                && after.admitted == s.admitted + if told then [key] else [])
  {
    hide ActiveCount, SomeActive;
    ActiveCounts(s.log, key);
    assert s.admitted + [] == s.admitted;
  }

  /** Own comments keep the identifiers they were given, and never share one. */
  predicate Distinct(log: seq<Comment>) {
    forall i, j :: 0 <= i < j < |log| && log[i].bot && log[j].bot ==> log[i].id < log[j].id
  }

  predicate Numbered(log: seq<Comment>) {
    && Distinct(log)
    && forall i :: 0 <= i < |log| && log[i].bot ==> log[i].id < Count(log, IsOwn)
  }

  /** The same comments by the same authors, with other bodies. */
  predicate SameIds(a: seq<Comment>, b: seq<Comment>) {
    |a| == |b| && forall i :: 0 <= i < |a| ==> a[i].bot == b[i].bot && a[i].id == b[i].id
  }

  lemma {:induction false} SameIdsCount(a: seq<Comment>, b: seq<Comment>)
    requires SameIds(a, b)
    ensures Count(a, IsOwn) == Count(b, IsOwn)
  {
    if a != [] { SameIdsCount(a[..|a| - 1], b[..|b| - 1]); }
  }

  lemma SameIdsNumbered(a: seq<Comment>, b: seq<Comment>)
    requires SameIds(a, b) && Numbered(a)
    ensures Numbered(b)
  {
    hide Count;
    SameIdsCount(a, b);
  }

  lemma {:induction false} FinishSameIds(log: seq<Comment>, id: nat, code: string)
    ensures SameIds(log, FinishLog(log, id, code))
  {
    if log != [] { FinishSameIds(log[..|log| - 1], id, code); }
  }

  lemma PatchSameIds(log: seq<Comment>, keys: seq<string>, writable: bool)
    requires keys != []
    ensures SameIds(log, SupersedeLog(log, keys, writable))
  {
    hide RecoveryState;
  }

  lemma PushNumbered(log: seq<Comment>, c: Comment)
    requires Numbered(log) && (c.bot ==> c.id == Count(log, IsOwn))
    ensures Numbered(log + [c])
  {
    hide Count;
    CountPush(log, c, IsOwn);
  }

  lemma {:induction false} RunIsNumbered(ops: seq<Op>, primary: string -> bool)
    ensures Numbered(After(Empty, ops, primary).log)
  {
    hide Numbered, Apply, FinishLog, SupersedeLog;
    if ops == [] {
      NothingIsNumbered();
    } else {
      RunIsNumbered(ops[..|ops| - 1], primary);
      StepIsNumbered(After(Empty, ops[..|ops| - 1], primary), ops[|ops| - 1], primary);
    }
  }

  lemma NothingIsNumbered()
    ensures Numbered([])
  {
  }

  lemma StepIsNumbered(s: System, op: Op, primary: string -> bool)
    requires Numbered(s.log)
    ensures Numbered(Apply(s, op, primary).log)
  {
    hide Numbered, FinishLog, SupersedeLog, Count, RecoveryState, Admits, SameIds;
    match op
    case Claim(key, told) => PushNumbered(s.log, NewClaim(s.log, key));
    case Finish(id, code) =>
      FinishSameIds(s.log, id, code);
      SameIdsNumbered(s.log, FinishLog(s.log, id, code));
    case Supersede(keys, writable) =>
      if keys != [] {
        PatchSameIds(s.log, keys, writable);
        SameIdsNumbered(s.log, SupersedeLog(s.log, keys, writable));
      }
    case Foreign(body) => PushNumbered(s.log, Comment(false, 0, body));
  }

  /** No two comments of the program ever have the same identifier. */
  lemma IdsAreDistinct(ops: seq<Op>, primary: string -> bool)
    ensures Distinct(After(Empty, ops, primary).log)
  {
    hide After;
    RunIsNumbered(ops, primary);
  }

  /** The terminal update writes the code into the claim with that identifier, which is active under its
      key from then on, and leaves every other comment and every report as it was. */
  lemma {:induction false} FinishTells(s: System, id: nat, code: string, i: nat, primary: string -> bool)
    requires Distinct(s.log) && i < |s.log|
    ensures var after := Apply(s, Finish(id, code), primary); var c := s.log[i];
            && after.admitted == s.admitted && after.superseded == s.superseded && |after.log| == |s.log|
            && after.log[i].bot == c.bot && after.log[i].id == c.id
            && after.log[i].body ==
               if c.bot && c.id == id && !c.body.Text? then Active(c.body.key, Finished(code)) else c.body
  {
    FinishSameIds(s.log, id, code);
    FinishedAt(s.log, id, code, i);
  }

  lemma {:induction false} FinishedAt(log: seq<Comment>, id: nat, code: string, i: nat)
    requires Distinct(log) && i < |log|
    ensures |FinishLog(log, id, code)| == |log|
    ensures var c := log[i];
            FinishLog(log, id, code)[i].body ==
            if c.bot && c.id == id && !c.body.Text? then Active(c.body.key, Finished(code)) else c.body
  {
    var init := log[..|log| - 1];
    FinishSameIds(log, id, code);
    FinishSameIds(init, id, code);
    if i < |init| { FinishedAt(init, id, code, i); }
  }

  /** A supersession rewrites the active claim of the key that the card is active under, keeping its
      stage, and is reported; with no such key, a key that is not primary, or a body that cannot be
      written, nothing changes. */
  lemma SupersedeTells(s: System, keys: seq<string>, writable: bool, primary: string -> bool)
    ensures var after := Apply(s, Supersede(keys, writable), primary);
            if keys != [] && (forall k <- keys :: primary(k)) && writable && RecoveryState(s.log, keys).0 == ActiveState
            then
              var key := RecoveryState(s.log, keys).1;
              && after.admitted == s.admitted && after.superseded == s.superseded + [key]
              && |after.log| == |s.log|
              && forall i | 0 <= i < |s.log| ::
                   after.log[i] == if ActiveAt(s.log, i, key) then s.log[i].(body := Superseded(key, s.log[i].body.stage)) else s.log[i]
            else after == s
  {
    hide RecoveryState;
  }

  /** A comment by somebody else is appended, and is not the program's. */
  lemma ForeignTells(s: System, body: Body, primary: string -> bool)
    ensures var after := Apply(s, Foreign(body), primary);
            after.log[..|after.log| - 1] == s.log && !after.log[|after.log| - 1].bot
    ensures var after := Apply(s, Foreign(body), primary); after.admitted == s.admitted && after.superseded == s.superseded
  {
  }
}
