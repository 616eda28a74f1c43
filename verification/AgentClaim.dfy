/** Admission claims of agent events: serialised operations on the comments of one card. */
module AgentClaim {
  import opened Outcomes
  import A = Admission
  import Utf8

  /** How far the claimed event has come, as the claim comment says: still pending, or finished with a code. */
  datatype Stage = Pending | Finished(code: string)

  /** What a comment body is to this protocol. A superseded claim keeps its stage in its wording. */
  datatype Body = Text | Active(key: string, stage: Stage) | Superseded(key: string, stage: Stage)

  /** `id` tells the program's own comments apart. */
  datatype Comment = Comment(bot: bool, id: nat, body: Body)

  predicate IsOwn(c: Comment) { c.bot }

  predicate IsActive(c: Comment, key: string) { c.bot && c.body.Active? && c.body.key == key }

  predicate IsSuperseded(c: Comment, key: string) { c.bot && c.body.Superseded? && c.body.key == key }

  /** The two wordings that the reader of superseded claims accepts. */
  predicate Accepted(stage: Stage) {
    stage == Finished("consumer.committed") || stage == Finished("consumer.rejected")
  }

  /** A superseded claim with any other wording: no reader accepts it. */
  predicate IsJam(c: Comment) { c.bot && c.body.Superseded? && !Accepted(c.body.stage) }

  function Count(log: seq<Comment>, p: Comment -> bool): nat {
    if log == [] then 0 else Count(log[..|log| - 1], p) + if p(log[|log| - 1]) then 1 else 0
  }

  function ActiveIs(key: string): Comment -> bool { c => IsActive(c, key) }

  function SupersededIs(key: string): Comment -> bool { c => IsSuperseded(c, key) }

  function ActiveCount(log: seq<Comment>, key: string): nat { Count(log, ActiveIs(key)) }

  function SupersededCount(log: seq<Comment>, key: string): nat { Count(log, SupersededIs(key)) }

  predicate Jammed(log: seq<Comment>) { Count(log, IsJam) > 0 }

  // ---------------------------------------------------------------- reading the card

  datatype Listing = Nothing | One | Bad

  function Listed(count: nat): Listing { if count == 0 then Nothing else if count == 1 then One else Bad }

  /** `list_claims` */
  function ListClaims(log: seq<Comment>, key: string): Listing { Listed(ActiveCount(log, key)) }

  /** `list_superseded_triage_claims`: an unacceptable body on the card is an error for every key. */
  function ListSuperseded(log: seq<Comment>, key: string): Listing {
    if Jammed(log) then Bad else Listed(SupersededCount(log, key))
  }

  datatype State = MissingState | ActiveState | SupersededState | ErrorState

  function KeyState(log: seq<Comment>, key: string): State {
    match (ListClaims(log, key), ListSuperseded(log, key))
    case (Bad, _) => ErrorState
    case (_, Bad) => ErrorState
    case (One, One) => ErrorState
    case (One, Nothing) => ActiveState
    case (Nothing, One) => SupersededState
    case (Nothing, Nothing) => MissingState
  }

  /** `triage_claim_recovery_state` over the identity with the review context and the one without:
      the key that is in some state, if exactly one is. */
  function RecoveryState(log: seq<Comment>, keys: seq<string>): (r: (State, string))
    requires keys != []
    ensures r.1 in keys
  {
    var state := KeyState(log, keys[0]);
    if |keys| == 1 || state == ErrorState then (state, keys[0])
    else
      var rest := RecoveryState(log, keys[1..]);
      if rest.0 == ErrorState then rest
      else if rest.0 == MissingState then (state, keys[0])
      else if state == MissingState then rest
      else (ErrorState, keys[0])
  }

  // ---------------------------------------------------------------- operations

  function SupersededBody(key: string): Stage -> Body { stage => Superseded(key, stage) }

  function PatchedComment(c: Comment, key: string, body: Stage -> Body): Comment {
    if IsActive(c, key) then Comment(true, c.id, body(c.body.stage)) else c
  }

  function Patched(log: seq<Comment>, key: string, body: Stage -> Body): seq<Comment> {
    seq(|log|, i requires 0 <= i < |log| => PatchedComment(log[i], key, body))
  }

  function Admits(log: seq<Comment>, key: string): bool { ListClaims(log, key) == Nothing }

  /** A new own comment; own comments are numbered in the order in which they are written. */
  function NewClaim(log: seq<Comment>, key: string): Comment {
    Comment(true, Count(log, IsOwn), Active(key, Pending))
  }

  function ClaimLog(log: seq<Comment>, key: string): seq<Comment> {
    if Admits(log, key) then log + [NewClaim(log, key)] else log
  }

  /** The terminal update overwrites a claim comment, whatever has become of it meanwhile. */
  function FinishedComment(c: Comment, code: string): Comment {
    if c.body.Text? then c else c.(body := Active(c.body.key, Finished(code)))
  }

  /** It goes by the comment's id. */
  function FinishLog(log: seq<Comment>, id: nat, code: string): seq<Comment> {
    if log == [] then []
    else
      var init, last := log[..|log| - 1], log[|log| - 1];
      if last.bot && last.id == id then init + [FinishedComment(last, code)] else FinishLog(init, id, code) + [last]
  }

  /** The own comment with this id. */
  function OwnWith(log: seq<Comment>, id: nat): Option<Comment> {
    if log == [] then None
    else if log[|log| - 1].bot && log[|log| - 1].id == id then Some(log[|log| - 1])
    else OwnWith(log[..|log| - 1], id)
  }

  /** `supersede_triage_claim`; `writable` says that the claim's timestamp is trusted and its rewritten
      body within the size bound. */
  function SupersedeLog(log: seq<Comment>, keys: seq<string>, writable: bool): seq<Comment>
    requires keys != []
  {
    var (state, key) := RecoveryState(log, keys);
    if state == ActiveState && writable then Patched(log, key, SupersededBody(key)) else log
  }

  /** The card, and what has been reported so far: keys admitted and keys superseded, in order. */
  datatype System = System(log: seq<Comment>, admitted: seq<string>, superseded: seq<string>)

  /** `told` is false when the run ends before it reports its admission. */
  datatype Op =
    | Claim(key: string, told: bool)
    | Finish(id: nat, code: string)
    | Supersede(keys: seq<string>, writable: bool)
    | Foreign(body: Body)

  /** Only claims of primary triage actions may be superseded. */
  function Apply(s: System, op: Op, primary: string -> bool): System {
    match op
    case Claim(key, told) =>
      System(ClaimLog(s.log, key), if Admits(s.log, key) && told then s.admitted + [key] else s.admitted, s.superseded)
    case Finish(id, code) => s.(log := FinishLog(s.log, id, code))
    case Supersede(keys, writable) =>
      if keys == [] || exists k :: k in keys && !primary(k) then s
      else
        var (state, key) := RecoveryState(s.log, keys);
        s.(log := SupersedeLog(s.log, keys, writable),
           superseded := if state == ActiveState && writable then s.superseded + [key] else s.superseded)
    case Foreign(body) => s.(log := s.log + [Comment(false, 0, body)])
  }

  function After(s: System, ops: seq<Op>, primary: string -> bool): System {
    if ops == [] then s else Apply(After(s, ops[..|ops| - 1], primary), ops[|ops| - 1], primary)
  }

  const Empty := System([], [], [])

  function Times(keys: seq<string>, key: string): nat {
    if keys == [] then 0 else Times(keys[..|keys| - 1], key) + if keys[|keys| - 1] == key then 1 else 0
  }

  // ---------------------------------------------------------------- counting

  lemma CountPush(log: seq<Comment>, c: Comment, p: Comment -> bool)
    ensures Count(log + [c], p) == Count(log, p) + if p(c) then 1 else 0
  {
    assert (log + [c])[..|log|] == log;
  }

  lemma TimesPush(keys: seq<string>, k: string, key: string)
    ensures Times(keys + [k], key) == Times(keys, key) + if k == key then 1 else 0
  {
    assert (keys + [k])[..|keys|] == keys;
  }

  lemma PatchedPush(log: seq<Comment>, c: Comment, key: string, body: Stage -> Body)
    ensures Patched(log + [c], key, body) == Patched(log, key, body) + [PatchedComment(c, key, body)]
  {
  }

  /** Superseding the claims on `key` turns each active one into a superseded one. */
  lemma {:induction false} CountPatched(log: seq<Comment>, key: string, other: string)
    ensures var patched := Patched(log, key, SupersededBody(key));
            && ActiveCount(patched, other) == (if other == key then 0 else ActiveCount(log, other))
            && SupersededCount(patched, other) == SupersededCount(log, other) + (if other == key then ActiveCount(log, key) else 0)
  {
    if log != [] {
      var n := |log| - 1;
      CountPatched(log[..n], key, other);
      assert log == log[..n] + [log[n]];
      PatchedPush(log[..n], log[n], key, SupersededBody(key));
      CountPush(Patched(log[..n], key, SupersededBody(key)), PatchedComment(log[n], key, SupersededBody(key)), ActiveIs(other));
      CountPush(Patched(log[..n], key, SupersededBody(key)), PatchedComment(log[n], key, SupersededBody(key)), SupersededIs(other));
    }
  }

  /** The terminal update hits a claim on `key` that has been superseded. */
  predicate HitsSuperseded(log: seq<Comment>, id: nat, key: string) {
    OwnWith(log, id).Some? && IsSuperseded(OwnWith(log, id).value, key)
  }

  /** The terminal update hits a superseded claim that no reader accepts. */
  predicate HitsJam(log: seq<Comment>, id: nat) {
    OwnWith(log, id).Some? && IsJam(OwnWith(log, id).value)
  }

  /** A terminal update makes a superseded claim active again, and changes no other count. */
  lemma {:induction false} CountFinished(log: seq<Comment>, id: nat, code: string, key: string)
    ensures var hit := if HitsSuperseded(log, id, key) then 1 else 0; var after := FinishLog(log, id, code);
            && ActiveCount(after, key) == ActiveCount(log, key) + hit
            && SupersededCount(after, key) == SupersededCount(log, key) - hit
            && Count(after, IsJam) == Count(log, IsJam) - if HitsJam(log, id) then 1 else 0
  {
    if log != [] {
      var init, last := log[..|log| - 1], log[|log| - 1];
      var mine := last.bot && last.id == id;
      var before, now := (if mine then init else FinishLog(init, id, code)), (if mine then FinishedComment(last, code) else last);
      assert FinishLog(log, id, code) == before + [now];
      if !mine { CountFinished(init, id, code, key); }
      CountPush(before, now, ActiveIs(key));
      CountPush(before, now, SupersededIs(key));
      CountPush(before, now, IsJam);
    }
  }

  // ---------------------------------------------------------------- invariant

  predicate KeyOk(s: System, key: string, primary: string -> bool) {
    var active, superseded := ActiveCount(s.log, key), SupersededCount(s.log, key);
    var admitted, times := Times(s.admitted, key), Times(s.superseded, key);
    && superseded <= 1 && active + superseded <= 2
    && admitted <= active + superseded
    && (superseded == 1 || admitted >= 2 ==> times >= 1)
    && (!primary(key) ==> active <= 1 && superseded == 0 && times == 0)
  }

  lemma ClaimKeeps(s: System, k: string, told: bool, key: string, primary: string -> bool)
    requires KeyOk(s, key, primary)
    ensures KeyOk(Apply(s, Claim(k, told), primary), key, primary)
  {
    hide Count, Times;
    var c := NewClaim(s.log, k);
    CountPush(s.log, c, ActiveIs(key));
    CountPush(s.log, c, SupersededIs(key));
    TimesPush(s.admitted, k, key);
  }

  lemma FinishKeeps(s: System, id: nat, code: string, key: string, primary: string -> bool)
    requires KeyOk(s, key, primary)
    ensures KeyOk(Apply(s, Finish(id, code), primary), key, primary)
  {
    hide ActiveCount, SupersededCount, Times, FinishLog, HitsSuperseded, Count;
    CountFinished(s.log, id, code, key);
  }

  lemma ActiveKeyState(log: seq<Comment>, keys: seq<string>)
    requires keys != [] && RecoveryState(log, keys).0 == ActiveState
    ensures var key := RecoveryState(log, keys).1; ActiveCount(log, key) == 1 && SupersededCount(log, key) == 0
  {
    hide Count;
  }

  lemma SupersedeKeeps(s: System, keys: seq<string>, writable: bool, key: string, primary: string -> bool)
    requires KeyOk(s, key, primary)
    ensures KeyOk(Apply(s, Supersede(keys, writable), primary), key, primary)
  {
    hide ActiveCount, SupersededCount, Times, Patched, RecoveryState;
    if keys != [] && RecoveryState(s.log, keys).0 == ActiveState {
      var k := RecoveryState(s.log, keys).1;
      ActiveKeyState(s.log, keys);
      CountPatched(s.log, k, key);
      TimesPush(s.superseded, k, key);
    }
  }

  lemma ApplyKeeps(s: System, op: Op, key: string, primary: string -> bool)
    requires KeyOk(s, key, primary)
    ensures KeyOk(Apply(s, op, primary), key, primary)
  {
    hide KeyOk, Apply;
    match op
    case Claim(k, told) => ClaimKeeps(s, k, told, key, primary);
    case Finish(id, code) => FinishKeeps(s, id, code, key, primary);
    case Supersede(keys, writable) => SupersedeKeeps(s, keys, writable, key, primary);
    case Foreign(body) => ForeignKeeps(s, body, key, primary);
  }

  lemma ForeignKeeps(s: System, body: Body, key: string, primary: string -> bool)
    requires KeyOk(s, key, primary)
    ensures KeyOk(Apply(s, Foreign(body), primary), key, primary)
  {
    hide Count, Times;
    CountPush(s.log, Comment(false, 0, body), ActiveIs(key));
    CountPush(s.log, Comment(false, 0, body), SupersededIs(key));
  }

  lemma {:induction false} AfterKeeps(s: System, ops: seq<Op>, key: string, primary: string -> bool)
    requires KeyOk(s, key, primary)
    ensures KeyOk(After(s, ops, primary), key, primary)
  {
    hide KeyOk, Apply;
    if ops != [] {
      AfterKeeps(s, ops[..|ops| - 1], key, primary);
      ApplyKeeps(After(s, ops[..|ops| - 1], primary), ops[|ops| - 1], key, primary);
    }
  }

  /** Over every run of the card: at most two admissions on a key, a second one only behind a
      supersession, and at most one for a key that is not a primary triage key. */
  lemma AdmissionsAreBounded(ops: seq<Op>, key: string, primary: string -> bool)
    ensures var s := After(Empty, ops, primary);
            && Times(s.admitted, key) <= 2
            && (Times(s.admitted, key) == 2 ==> Times(s.superseded, key) >= 1)
            && (!primary(key) ==> Times(s.admitted, key) <= 1)
  {
    hide ActiveCount, SupersededCount, Times, After;
    EmptyOk(key, primary);
    AfterKeeps(Empty, ops, key, primary);
  }

  // ---------------------------------------------------------------- terminal updates that come late

  /** No terminal update hits a claim that has been superseded. */
  ghost predicate NoLateFinish(ops: seq<Op>, primary: string -> bool) {
    forall i, key | 0 <= i < |ops| && ops[i].Finish? :: !HitsSuperseded(After(Empty, ops[..i], primary).log, ops[i].id, key)
  }

  predicate OneActive(s: System, key: string) {
    && ActiveCount(s.log, key) <= 1 && SupersededCount(s.log, key) <= 1
    && Times(s.superseded, key) == SupersededCount(s.log, key)
  }

  /** As long as none does, there is at most one active claim on a key, and at most one supersession. */
  lemma {:induction false} OneActiveUnlessLate(ops: seq<Op>, key: string, primary: string -> bool)
    requires NoLateFinish(ops, primary)
    ensures OneActive(After(Empty, ops, primary), key)
  {
    hide ActiveCount, SupersededCount, Times, Apply, HitsSuperseded;
    if ops == [] {
      EmptyCounts(key);
      NoTimes(key);
    } else {
      var n := |ops| - 1;
      forall i, k | 0 <= i < n && ops[..n][i].Finish?
        ensures !HitsSuperseded(After(Empty, ops[..n][..i], primary).log, ops[..n][i].id, k)
      {
        assert ops[..n][..i] == ops[..i];
      }
      OneActiveUnlessLate(ops[..n], key, primary);
      var s := After(Empty, ops[..n], primary);
      assert ops[n].Finish? ==> !HitsSuperseded(s.log, ops[n].id, key);
      OneActiveStep(s, ops[n], key, primary);
    }
  }

  lemma OneActiveStep(s: System, op: Op, key: string, primary: string -> bool)
    requires OneActive(s, key) && (op.Finish? ==> !HitsSuperseded(s.log, op.id, key))
    ensures OneActive(Apply(s, op, primary), key)
  {
    hide Count, Times, Patched, RecoveryState, FinishLog, HitsSuperseded;
    match op
    case Claim(k, told) =>
      CountPush(s.log, NewClaim(s.log, k), ActiveIs(key));
      CountPush(s.log, NewClaim(s.log, k), SupersededIs(key));
    case Finish(id, code) => CountFinished(s.log, id, code, key);
    case Supersede(keys, writable) =>
      if keys != [] && RecoveryState(s.log, keys).0 == ActiveState {
        var k := RecoveryState(s.log, keys).1;
        ActiveKeyState(s.log, keys);
        CountPatched(s.log, k, key);
        TimesPush(s.superseded, k, key);
      }
    case Foreign(body) =>
      CountPush(s.log, Comment(false, 0, body), ActiveIs(key));
      CountPush(s.log, Comment(false, 0, body), SupersededIs(key));
  }

  /** A terminal update leaves two active claims on a key exactly when it hits a superseded claim on it
      while another is active; no later claim is then admitted on the key, nor any superseded. */
  lemma LateFinishDoublesIff(log: seq<Comment>, id: nat, code: string, key: string)
    requires ActiveCount(log, key) <= 1
    ensures ActiveCount(FinishLog(log, id, code), key) > 1 <==> ActiveCount(log, key) == 1 && HitsSuperseded(log, id, key)
    ensures ActiveCount(FinishLog(log, id, code), key) > 1 ==> KeyState(FinishLog(log, id, code), key) == ErrorState
  {
    hide ActiveCount, SupersededCount, FinishLog, HitsSuperseded, Count;
    CountFinished(log, id, code, key);
  }

  /** It does happen: a claim superseded while its run still works, claimed again, and then finished by
      the first run. */
  lemma LateFinishHappens(key: string, primary: string -> bool, code: string)
    requires primary(key)
    ensures var ops := [Claim(key, true), Supersede([key], true), Claim(key, true), Finish(0, code)];
            ActiveCount(After(Empty, ops, primary).log, key) == 2
  {
    hide Count, After, ActiveCount, SupersededCount, Jammed, Patched, Apply, FinishLog;
    FirstClaim(key, primary);
    SecondClaim(key, Pending, primary);
    FourSteps(Empty, Claim(key, true), Supersede([key], true), Claim(key, true), Finish(0, code), primary);
    LateSteps(key, code, primary);
  }

  lemma NoTimes(key: string)
    ensures Times([], key) == 0
  {
  }

  lemma EmptyOk(key: string, primary: string -> bool)
    ensures KeyOk(Empty, key, primary)
  {
  }

  lemma {:induction false} AfterAppend(s: System, ops: seq<Op>, op: Op, primary: string -> bool)
    ensures After(s, ops + [op], primary) == Apply(After(s, ops, primary), op, primary)
  {
    hide Apply;
    assert (ops + [op])[..|ops|] == ops;
  }

  /** The bound of two is reached: a finished primary claim can be superseded and claimed again. */
  lemma TwoAdmissionsHappen(key: string, primary: string -> bool, code: string)
    requires primary(key)
    ensures var s := After(Empty, [Claim(key, true), Finish(0, code), Supersede([key], true), Claim(key, true)], primary);
            s.admitted == [key, key] && s.superseded == [key]
  {
    hide Count, After, ActiveCount, SupersededCount, Jammed, Patched, Apply, FinishLog;
    FirstClaim(key, primary);
    FinishFirst(key, code, primary);
    SecondClaim(key, Finished(code), primary);
    FourSteps(Empty, Claim(key, true), Finish(0, code), Supersede([key], true), Claim(key, true), primary);
  }

  function OnlyClaim(key: string, stage: Stage): System {
    System([Comment(true, 0, Active(key, stage))], [key], [])
  }

  function OnlySuperseded(key: string, stage: Stage): System {
    System([Comment(true, 0, Superseded(key, stage))], [key], [key])
  }

  lemma FirstClaim(key: string, primary: string -> bool)
    ensures Apply(Empty, Claim(key, true), primary) == OnlyClaim(key, Pending)
  {
    EmptyCounts(key);
  }

  lemma FinishFirst(key: string, code: string, primary: string -> bool)
    ensures Apply(OnlyClaim(key, Pending), Finish(0, code), primary) == OnlyClaim(key, Finished(code))
  {
    var c := Comment(true, 0, Active(key, Pending));
    assert [c][..0] == [];
  }

  lemma SecondClaim(key: string, stage: Stage, primary: string -> bool)
    requires primary(key)
    ensures Apply(OnlyClaim(key, stage), Supersede([key], true), primary) == OnlySuperseded(key, stage)
    ensures Apply(OnlySuperseded(key, stage), Claim(key, true), primary) ==
            System([Comment(true, 0, Superseded(key, stage)), Comment(true, 1, Active(key, Pending))], [key, key], [key])
  {
    hide Count, ActiveCount, SupersededCount, Jammed, Patched;
    SingleCounts(key, stage);
    PatchedSingle(Comment(true, 0, Active(key, stage)), key);
  }

  lemma PatchedSingle(c: Comment, key: string)
    ensures Patched([c], key, SupersededBody(key)) == [PatchedComment(c, key, SupersededBody(key))]
  {
  }

  lemma LateSteps(key: string, code: string, primary: string -> bool)
    ensures var s := System([Comment(true, 0, Superseded(key, Pending)), Comment(true, 1, Active(key, Pending))], [key, key], [key]);
            ActiveCount(Apply(s, Finish(0, code), primary).log, key) == 2
  {
    hide Count;
    var one, two := Comment(true, 0, Superseded(key, Pending)), Comment(true, 1, Active(key, Pending));
    var log := [one, two];
    assert log[..1] == [one] && [one][..0] == [];
    SingleCounts(key, Pending);
    CountPush([one], two, ActiveIs(key));
    assert [one] + [two] == log;
    CountFinished(log, 0, code, key);
    assert OwnWith(log, 0) == OwnWith([one], 0) == Some(one);
  }

  lemma ThreeSteps(s: System, a: Op, b: Op, c: Op, primary: string -> bool)
    ensures After(s, [a, b, c], primary) == Apply(Apply(Apply(s, a, primary), b, primary), c, primary)
  {
    hide Apply;
    AfterAppend(s, [a, b], c, primary);
    AfterAppend(s, [a], b, primary);
    AfterAppend(s, [], a, primary);
    assert [a, b, c] == [a, b] + [c] && [a, b] == [a] + [b] && [a] == [] + [a];
  }

  lemma FourSteps(s: System, a: Op, b: Op, c: Op, d: Op, primary: string -> bool)
    ensures After(s, [a, b, c, d], primary) == Apply(Apply(Apply(Apply(s, a, primary), b, primary), c, primary), d, primary)
  {
    hide Apply;
    ThreeSteps(s, a, b, c, primary);
    AfterAppend(s, [a, b, c], d, primary);
    assert [a, b, c, d] == [a, b, c] + [d];
  }

  lemma EmptyCounts(key: string)
    ensures ActiveCount([], key) == 0 && SupersededCount([], key) == 0 && !Jammed([])
  {
  }

  lemma SingleCounts(key: string, stage: Stage)
    ensures var a := [Comment(true, 0, Active(key, stage))];
            ActiveCount(a, key) == 1 && SupersededCount(a, key) == 0 && !Jammed(a)
    ensures var b := [Comment(true, 0, Superseded(key, stage))];
            ActiveCount(b, key) == 0 && SupersededCount(b, key) == 1 && Count(b, IsOwn) == 1
  {
    hide Accepted;
    SingleCount(Comment(true, 0, Active(key, stage)), ActiveIs(key));
    SingleCount(Comment(true, 0, Active(key, stage)), SupersededIs(key));
    SingleCount(Comment(true, 0, Active(key, stage)), IsJam);
    SingleCount(Comment(true, 0, Superseded(key, stage)), ActiveIs(key));
    SingleCount(Comment(true, 0, Superseded(key, stage)), SupersededIs(key));
    SingleCount(Comment(true, 0, Superseded(key, stage)), IsOwn);
  }

  lemma SingleCount(c: Comment, p: Comment -> bool)
    ensures Count([c], p) == if p(c) then 1 else 0
  {
    assert [c][..0] == [];
  }

  // ---------------------------------------------------------------- superseded claims that nobody accepts

  lemma {:induction false} CountIsExistence(log: seq<Comment>, p: Comment -> bool)
    ensures Count(log, p) > 0 <==> exists i :: 0 <= i < |log| && p(log[i])
  {
    if log != [] {
      var rest := log[..|log| - 1];
      CountIsExistence(rest, p);
      if exists i :: 0 <= i < |log| && p(log[i]) {
        var i :| 0 <= i < |log| && p(log[i]);
        assert i < |rest| ==> p(rest[i]);
      }
    }
  }

  /** Superseding leaves the card unreadable for later supersessions exactly when the claim does not
      stand finished with one of the two accepted codes. */
  lemma SupersedeJamsIff(log: seq<Comment>, keys: seq<string>)
    requires keys != [] && RecoveryState(log, keys).0 == ActiveState && !Jammed(log)
    ensures var key := RecoveryState(log, keys).1;
            Jammed(SupersedeLog(log, keys, true)) <==> exists i :: 0 <= i < |log| && IsActive(log[i], key) && !Accepted(log[i].body.stage)
  {
    hide Count, RecoveryState, Accepted;
    var key := RecoveryState(log, keys).1;
    var patched := SupersedeLog(log, keys, true);
    CountIsExistence(log, IsJam);
    CountIsExistence(patched, IsJam);
    if exists i :: 0 <= i < |log| && IsActive(log[i], key) && !Accepted(log[i].body.stage) {
      var i :| 0 <= i < |log| && IsActive(log[i], key) && !Accepted(log[i].body.stage);
      assert IsJam(patched[i]);
    }
    if Jammed(patched) {
      var i :| 0 <= i < |patched| && IsJam(patched[i]);
      assert !IsJam(log[i]);
      assert IsActive(log[i], key);
    }
  }

  /** The code that the triage workflow finishes a primary claim with: `applied` says that the card was
      brought up to date, and an empty error code that the primary result had none. */
  function FinalCode(applied: bool, errorCode: string): string {
    if applied then
      if errorCode == "" then "consumer.committed"
      else if errorCode != "source.revision_mismatch" then "consumer.committed.primary." + errorCode
      else errorCode
    else if errorCode == "" then "consumer.rejected"
    else errorCode
  }

  /** A result without an error code is committed when applied and rejected when not; an error code of its own stands as it
      is when the result was not applied or the source had moved on, and otherwise behind that it was committed. */
  lemma FinalCodeTells(errorCode: string)
    ensures FinalCode(true, "") == "consumer.committed" && FinalCode(false, "") == "consumer.rejected"
    ensures errorCode != "" ==> FinalCode(false, errorCode) == errorCode
    ensures FinalCode(true, "source.revision_mismatch") == "source.revision_mismatch"
    ensures errorCode !in {"", "source.revision_mismatch"} ==> FinalCode(true, errorCode) == "consumer.committed.primary." + errorCode
  {
  }

  lemma FinalCodeAcceptedIff(applied: bool, errorCode: string)
    ensures Accepted(Finished(FinalCode(applied, errorCode))) <==>
            errorCode == "" || (!applied && errorCode in {"consumer.committed", "consumer.rejected"})
  {
    if applied && errorCode != "" && errorCode != "source.revision_mismatch" {
      assert |FinalCode(applied, errorCode)| > 27;
    }
  }

  /** A claim that the workflow has finished jams its card, when it is superseded, exactly when its
      primary result carried an error code of its own, although the event is over. */
  lemma FinishedClaimJamsIff(key: string, applied: bool, errorCode: string, primary: string -> bool)
    requires primary(key)
    ensures var ops := [Claim(key, true), Finish(0, FinalCode(applied, errorCode)), Supersede([key], true)];
            Jammed(After(Empty, ops, primary).log) <==>
            errorCode != "" && (applied || errorCode !in {"consumer.committed", "consumer.rejected"})
  {
    hide Count, After, ActiveCount, SupersededCount, Jammed, Patched, Apply, FinishLog, FinalCode, Accepted;
    var code := FinalCode(applied, errorCode);
    FirstClaim(key, primary);
    FinishFirst(key, code, primary);
    SecondClaim(key, Finished(code), primary);
    ThreeSteps(Empty, Claim(key, true), Finish(0, code), Supersede([key], true), primary);
    FinalCodeAcceptedIff(applied, errorCode);
    SingleJam(key, Finished(code));
  }

  lemma SingleJam(key: string, stage: Stage)
    ensures Jammed([Comment(true, 0, Superseded(key, stage))]) <==> !Accepted(stage)
  {
    hide Accepted;
    SingleCount(Comment(true, 0, Superseded(key, stage)), IsJam);
  }

  lemma {:induction false} JamIsError(log: seq<Comment>, keys: seq<string>)
    requires keys != [] && Jammed(log)
    ensures RecoveryState(log, keys).0 == ErrorState
  {
    hide Jammed, ActiveCount, SupersededCount;
    if |keys| > 1 { JamIsError(log, keys[1..]); }
  }

  /** On a jammed card no supersession changes anything, and only a terminal update of the jamming claim
      itself can clear the card. */
  lemma JamStands(s: System, op: Op, primary: string -> bool)
    requires Jammed(s.log)
    ensures op.Supersede? ==> Apply(s, op, primary) == s
    ensures !Jammed(Apply(s, op, primary).log) ==> op.Finish? && HitsJam(s.log, op.id)
  {
    hide Count, ActiveCount, RecoveryState, FinishLog, Accepted;
    match op
    case Supersede(keys, _) => if keys != [] { JamIsError(s.log, keys); }
    case Claim(key, _) => CountPush(s.log, NewClaim(s.log, key), IsJam);
    case Finish(id, code) => CountFinished(s.log, id, code, "");
    case Foreign(body) => CountPush(s.log, Comment(false, 0, body), IsJam);
  }

  // ---------------------------------------------------------------- comments by others

  function Own(log: seq<Comment>): seq<Comment> {
    if log == [] then [] else Own(log[..|log| - 1]) + if log[|log| - 1].bot then [log[|log| - 1]] else []
  }

  function OwnOps(ops: seq<Op>): seq<Op> {
    if ops == [] then [] else OwnOps(ops[..|ops| - 1]) + if ops[|ops| - 1].Foreign? then [] else [ops[|ops| - 1]]
  }

  lemma {:induction false} CountOwn(log: seq<Comment>, p: Comment -> bool)
    requires forall c | p(c) :: c.bot
    ensures Count(Own(log), p) == Count(log, p)
  {
    if log != [] {
      var rest, last := log[..|log| - 1], log[|log| - 1];
      CountOwn(rest, p);
      assert Own(rest) + [] == Own(rest);
      if last.bot { CountPush(Own(rest), last, p); }
    }
  }

  lemma OwnPush(log: seq<Comment>, c: Comment)
    ensures Own(log + [c]) == Own(log) + if c.bot then [c] else []
  {
    assert (log + [c])[..|log|] == log;
  }

  lemma {:induction false} PatchedOwn(log: seq<Comment>, key: string, body: Stage -> Body)
    ensures Own(Patched(log, key, body)) == Patched(Own(log), key, body)
  {
    if log != [] {
      var rest, last := log[..|log| - 1], log[|log| - 1];
      assert log == rest + [last];
      PatchedOwn(rest, key, body);
      PatchedPush(rest, last, key, body);
      OwnPush(rest, last);
      OwnPush(Patched(rest, key, body), PatchedComment(last, key, body));
      assert Own(rest) + [] == Own(rest);
      if last.bot { PatchedPush(Own(rest), last, key, body); }
    }
  }

  lemma FinishPush(log: seq<Comment>, c: Comment, id: nat, code: string)
    ensures FinishLog(log + [c], id, code) ==
            if c.bot && c.id == id then log + [FinishedComment(c, code)] else FinishLog(log, id, code) + [c]
  {
    assert (log + [c])[..|log|] == log;
  }

  lemma {:induction false} FinishOwn(log: seq<Comment>, id: nat, code: string)
    ensures Own(FinishLog(log, id, code)) == FinishLog(Own(log), id, code)
  {
    hide FinishLog, Own;
    if log == [] {
      NoOwn(id, code);
    } else {
      var rest, last := log[..|log| - 1], log[|log| - 1];
      assert log == rest + [last];
      FinishOwn(rest, id, code);
      FinishPush(rest, last, id, code);
      OwnPush(rest, last);
      if last.bot && last.id == id {
        OwnPush(rest, FinishedComment(last, code));
        FinishPush(Own(rest), last, id, code);
      } else {
        OwnPush(FinishLog(rest, id, code), last);
        assert Own(rest) + [] == Own(rest) && Own(FinishLog(rest, id, code)) + [] == Own(FinishLog(rest, id, code));
        if last.bot { FinishPush(Own(rest), last, id, code); }
      }
    }
  }

  lemma NoOwn(id: nat, code: string)
    ensures Own([]) == [] && FinishLog([], id, code) == []
  {
  }

  lemma {:induction false} RecoveryOwn(log: seq<Comment>, keys: seq<string>)
    requires keys != []
    ensures RecoveryState(Own(log), keys) == RecoveryState(log, keys)
  {
    hide Count;
    CountOwn(log, ActiveIs(keys[0]));
    CountOwn(log, SupersededIs(keys[0]));
    CountOwn(log, IsJam);
    if |keys| > 1 { RecoveryOwn(log, keys[1..]); }
  }

  function Strip(s: System): System { s.(log := Own(s.log)) }

  lemma StripStep(s: System, op: Op, primary: string -> bool)
    ensures Strip(Apply(s, op, primary)) == if op.Foreign? then Strip(s) else Apply(Strip(s), op, primary)
  {
    hide Count, RecoveryState, Patched, Own, FinishLog;
    match op
    case Claim(key, told) =>
      CountOwn(s.log, ActiveIs(key));
      CountOwn(s.log, IsOwn);
      OwnPush(s.log, NewClaim(s.log, key));
    case Finish(id, code) => FinishOwn(s.log, id, code);
    case Supersede(keys, writable) =>
      if keys != [] {
        RecoveryOwn(s.log, keys);
        var key := RecoveryState(s.log, keys).1;
        PatchedOwn(s.log, key, SupersededBody(key));
      }
    case Foreign(body) => OwnPush(s.log, Comment(false, 0, body));
  }

  /** Whatever others write between the operations, every admission, every supersession and the
      program's own comments come out as if they had written nothing. */
  lemma {:induction false} ForeignCommentsAreIrrelevant(s: System, ops: seq<Op>, primary: string -> bool)
    ensures Strip(After(s, ops, primary)) == After(Strip(s), OwnOps(ops), primary)
  {
    hide Apply, Strip;
    if ops != [] {
      var n := |ops| - 1;
      ForeignCommentsAreIrrelevant(s, ops[..n], primary);
      StripStep(After(s, ops[..n], primary), ops[n], primary);
      assert OwnOps(ops[..n]) + [] == OwnOps(ops[..n]);
      if !ops[n].Foreign? { AfterAppend(Strip(s), OwnOps(ops[..n]), ops[n], primary); }
    }
  }

  // ---------------------------------------------------------------- the operations on a live card

  lemma {:induction false} CountTwo(log: seq<Comment>, p: Comment -> bool, i: nat, j: nat)
    requires i < j < |log| && p(log[i]) && p(log[j])
    ensures Count(log, p) >= 2
  {
    var rest := log[..|log| - 1];
    if j == |log| - 1 {
      CountIsExistence(rest, p);
      assert p(rest[i]);
    } else {
      CountTwo(rest, p, i, j);
    }
  }

  lemma OnlyClaimPatched(log: seq<Comment>, key: string, at: nat, body: Stage -> Body)
    requires at < |log| && IsActive(log[at], key) && ActiveCount(log, key) == 1
    ensures log[at := PatchedComment(log[at], key, body)] == Patched(log, key, body)
  {
    hide Count;
    forall i | 0 <= i < |log| && i != at ensures !IsActive(log[i], key) {
      if IsActive(log[i], key) {
        CountTwo(log, ActiveIs(key), if i < at then i else at, if i < at then at else i);
      }
    }
  }

  lemma FinishSuffix(log: seq<Comment>, i: nat, id: nat, code: string)
    requires 0 < i <= |log|
    ensures var c := log[i - 1];
            FinishLog(log[..i], id, code) ==
            if c.bot && c.id == id then log[..i - 1] + [FinishedComment(c, code)] else FinishLog(log[..i - 1], id, code) + [c]
  {
    assert log[..i] == log[..i - 1] + [log[i - 1]];
    FinishPush(log[..i - 1], log[i - 1], id, code);
  }

  /** The key that `claim` looks for and writes; a claim for pull-request triage must bring a review context. */
  function ClaimKey(e: A.Event, sha256: Utf8.Bytes -> string): Option<string> {
    if "triage.pr." <= e.action && e.reviewContext == "" then None
    else if e.recoveryContext != "" && e.reviewContext == "" then None
    else match A.NormalizedIdentity(e)
      case None => None
      case Some(identity) => Some(A.EventKey(identity, sha256))
  }

  class Card {
    var comments: seq<Comment>

    constructor ()
      ensures comments == []
    {
      comments := [];
    }

    method FindClaim(key: string) returns (found: Result<Option<nat>, string>)
      ensures match found
              case Err(_) => ListClaims(comments, key) == Bad
              case Ok(None) => ListClaims(comments, key) == Nothing
              case Ok(Some(at)) => ListClaims(comments, key) == One && at < |comments| && IsActive(comments[at], key)
    {
      var matches: seq<nat> := [];
      for i := 0 to |comments|
        invariant |matches| == ActiveCount(comments[..i], key)
        invariant forall k | 0 <= k < |matches| :: matches[k] < i && IsActive(comments[matches[k]], key)
      {
        assert comments[..i + 1] == comments[..i] + [comments[i]];
        CountPush(comments[..i], comments[i], ActiveIs(key));
        if IsActive(comments[i], key) { matches := matches + [i]; }
      }
      assert comments[..|comments|] == comments;
      if |matches| > 1 {
        return Err("agent event has duplicate durable claims");
      }
      found := Ok(if matches == [] then None else Some(matches[0]));
    }

    /** The claim on one event key. */
    method Claim(key: string) returns (admitted: Result<bool, string>)
      modifies this
      ensures comments == ClaimLog(old(comments), key)
      ensures admitted.Err? <==> ListClaims(old(comments), key) == Bad
      ensures admitted.Ok? ==> admitted.value == Admits(old(comments), key)
    {
      var found := FindClaim(key);
      if found.Err? {
        return Err(found.error);
      }
      if found.value.None? {
        comments := comments + [NewClaim(comments, key)];
      }
      admitted := Ok(found.value.None?);
    }

    /** `claim`: refuse what has no key, else claim the key. */
    method ClaimEvent(e: A.Event, sha256: Utf8.Bytes -> string) returns (admitted: Result<bool, string>)
      modifies this
      ensures match ClaimKey(e, sha256)
              case None => admitted.Err? && comments == old(comments)
              case Some(key) =>
                && comments == ClaimLog(old(comments), key)
                && (admitted.Err? <==> ListClaims(old(comments), key) == Bad)
                && (admitted.Ok? ==> admitted.value == Admits(old(comments), key))
    {
      if "triage.pr." <= e.action && e.reviewContext == "" {
        return Err("PR triage claim requires a verified review context");
      }
      if e.recoveryContext != "" && e.reviewContext == "" {
        return Err("recovery claim requires a verified review context");
      }
      var identity := A.NormalizedIdentity(e);
      if identity == None {
        return Err("agent event is invalid");
      }
      admitted := Claim(A.EventKey(identity.value, sha256));
    }

    /** The terminal update of a claim comment, by its id. */
    method Finish(id: nat, code: string)
      modifies this
      ensures comments == FinishLog(old(comments), id, code)
    {
      hide FinishLog, FinishedComment;
      var i := |comments|;
      assert comments[..i] == comments && comments[i..] == [];
      while i > 0
        invariant 0 <= i <= |comments| && comments == old(comments)
        invariant FinishLog(comments, id, code) == FinishLog(comments[..i], id, code) + comments[i..]
      {
        FinishSuffix(comments, i, id, code);
        var c := comments[i - 1];
        if c.bot && c.id == id {
          assert comments[i - 1 := FinishedComment(c, code)] == comments[..i - 1] + [FinishedComment(c, code)] + comments[i..];
          comments := comments[i - 1 := FinishedComment(c, code)];
          return;
        }
        assert FinishLog(comments[..i - 1], id, code) + [c] + comments[i..] == FinishLog(comments[..i - 1], id, code) + comments[i - 1..];
        i := i - 1;
      }
      NoOwn(id, code);
      assert comments[..0] == [] && comments[0..] == comments;
    }

    /** `supersede_triage_claim` */
    method Supersede(keys: seq<string>, writable: bool) returns (state: Result<State, string>)
      requires keys != []
      modifies this
      ensures comments == SupersedeLog(old(comments), keys, writable)
      ensures var found := RecoveryState(old(comments), keys).0;
              && (state.Err? <==> found == ErrorState || (found == ActiveState && !writable))
              && (state.Ok? ==> state.value == found)
    {
      var (s, key) := RecoveryState(comments, keys);
      if s == ErrorState {
        return Err("triage replay found no single claim state");
      }
      if s == ActiveState {
        if !writable {
          return Err("superseded triage claim could not be written");
        }
        ActiveKeyState(comments, keys);
        var found := FindClaim(key);
        var at := found.value.value;
        OnlyClaimPatched(comments, key, at, SupersededBody(key));
        comments := comments[at := PatchedComment(comments[at], key, SupersededBody(key))];
      }
      state := Ok(s);
    }
  }
}
