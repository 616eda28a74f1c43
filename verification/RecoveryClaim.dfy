/** Recovering an erased decision label: concurrent runs that claim one event on a shared comment log. */
module RecoveryClaim {
  import opened Outcomes

  const PageSize := 100
  const MaxPages := 10

  /** A claim record; its key names the recovered event. */
  datatype Record = Record(key: string, erasedAt: string, rest: string)

  /** What a comment body is to this protocol: unrelated text, a broken claim marker, or a claim. */
  datatype Body = Unrelated | Broken | Claim(record: Record)

  datatype Comment = Comment(trusted: bool, body: Body)

  // ---------------------------------------------------------------- reading claims out of comments

  predicate IsClaim(c: Comment, key: string) {
    c.trusted && c.body.Claim? && c.body.record.key == key
  }

  predicate IsBroken(c: Comment) {
    c.trusted && c.body.Broken?
  }

  /** The positions of the trusted claims on one key; comment `i` has id `i + 1`. */
  function Claims(log: seq<Comment>, key: string): (at: seq<nat>)
    ensures forall i | 0 <= i < |at| :: at[i] < |log| && IsClaim(log[at[i]], key)
    ensures forall j | 0 <= j < |log| && IsClaim(log[j], key) :: j in at
    ensures forall i, j | 0 <= i < j < |at| :: at[i] < at[j]
  {
    if log == [] then []
    else
      var n := |log| - 1;
      Claims(log[..n], key) + if IsClaim(log[n], key) then [n] else []
  }

  /** `_trusted_claims`: an error for a broken or a second claim. */
  function TrustedClaims(log: seq<Comment>, key: string): Result<Option<nat>, string> {
    if exists i :: 0 <= i < |log| && IsBroken(log[i]) then Err("malformed")
    else if |Claims(log, key)| > 1 then Err("duplicated")
    else Ok(if Claims(log, key) == [] then None else Some(Claims(log, key)[0]))
  }

  lemma ClaimsStep(log: seq<Comment>, i: nat, key: string)
    requires i < |log|
    ensures Claims(log[..i + 1], key) == Claims(log[..i], key) + if IsClaim(log[i], key) then [i] else []
  {
    assert log[..i + 1][..i] == log[..i];
  }

  lemma FoundBroken(log: seq<Comment>, i: nat, key: string)
    requires i < |log| && IsBroken(log[i])
    ensures TrustedClaims(log, key) == Err("malformed")
  {
    hide Claims;
  }

  lemma FoundNoneBroken(log: seq<Comment>, key: string)
    requires forall i | 0 <= i < |log| :: !IsBroken(log[i])
    ensures var at := Claims(log, key);
            TrustedClaims(log, key) == if |at| > 1 then Err("duplicated") else Ok(if at == [] then None else Some(at[0]))
  {
    hide Claims, IsBroken;
  }

  /** The loop behind it. */
  method CollectClaims(log: seq<Comment>, key: string) returns (found: Result<Option<nat>, string>)
    ensures found == TrustedClaims(log, key)
  {
    hide Claims, TrustedClaims;
    var matches: seq<nat> := [];
    NoClaims(log[..0], key);
    for i := 0 to |log|
      invariant forall j | 0 <= j < i :: !IsBroken(log[j])
      invariant matches == Claims(log[..i], key)
    {
      ClaimsStep(log, i, key);
      if IsBroken(log[i]) {
        FoundBroken(log, i, key);
        return Err("malformed");
      }
      if IsClaim(log[i], key) { matches := matches + [i]; }
    }
    assert log[..|log|] == log;
    FoundNoneBroken(log, key);
    if |matches| > 1 {
      return Err("duplicated");
    }
    found := Ok(if matches == [] then None else Some(matches[0]));
  }

  // ---------------------------------------------------------------- the system

  /** What the rest of `admission_record` makes of one reading of the card and its timeline. */
  datatype Inspection = NotRequired | Rejected | Offers(record: Record, updatedAt: string)

  /** The card and its timeline as read; both may change between any two reads. */
  datatype Rules = Rules(inspect: (string, string) -> Inspection)

  datatype Round = First | Second(record: Record, id: nat)

  datatype Run =
    | AwaitIssue(round: Round)
    | AwaitEvents(round: Round, issue: string)
    | AwaitComments(round: Round, issue: string, events: string, pages: seq<Comment>)
    | Posting(record: Record)
    | Verifying(record: Record, id: nat)
    | Admitted(record: Record, id: nat)
    | Refused
    | Failed

  datatype System = System(log: seq<Comment>, runs: map<nat, Run>)

  /** One API call of one run that only reads, or its end at any point. */
  datatype Call = ReadIssue(issue: string) | ReadEvents(events: string) | ReadPage | Verify | Crash

  /** One step of the system; a comment by anybody else may come between any two. */
  datatype Step = Start(run: nat) | Do(run: nat, call: Call) | Post(run: nat) | Foreign(comment: Comment)

  /** `_read_complete_history`, one page: the comments after the ones already read. */
  function Page(log: seq<Comment>, read: nat): seq<Comment> {
    if read >= |log| then [] else if read + PageSize <= |log| then log[read..read + PageSize] else log[read..]
  }

  /** The decision of `claim` after its first reading of the world. */
  function FirstDecision(rules: Rules, issue: string, events: string, comments: seq<Comment>): Run {
    match rules.inspect(issue, events)
    case NotRequired => Refused
    case Rejected => Refused
    case Offers(record, updatedAt) =>
      match TrustedClaims(comments, record.key)
      case Err(_) => Failed
      case Ok(Some(_)) => Refused
      case Ok(None) => if updatedAt == record.erasedAt then Posting(record) else Refused
  }

  /** And after the second, when the run has written comment `id`. */
  function SecondDecision(rules: Rules, issue: string, events: string, comments: seq<Comment>, record: Record, id: nat): Run {
    match TrustedClaims(comments, record.key)
    case Err(_) => Failed
    case Ok(claim) =>
      var repeated := rules.inspect(issue, events);
      if repeated.Offers? && repeated.record == record && claim.Some? && claim.value + 1 == id
      then Admitted(record, id)
      else Refused
  }

  /** The verdict of a complete reading, by its round. */
  function Verdict(rules: Rules, round: Round, issue: string, events: string, comments: seq<Comment>): Run {
    match round
    case First => FirstDecision(rules, issue, events, comments)
    case Second(record, id) => SecondDecision(rules, issue, events, comments, record, id)
  }

  function AfterPage(rules: Rules, log: seq<Comment>, r: Run): Run
    requires r.AwaitComments?
  {
    var page := Page(log, |r.pages|);
    var pages := r.pages + page;
    if |page| == PageSize then
      if |pages| >= PageSize * MaxPages then Failed else r.(pages := pages)
    else
      Verdict(rules, r.round, r.issue, r.events, pages)
  }

  /** `_write_claim`'s read-back: the comment with the returned id must be the claim itself. */
  function AfterVerify(log: seq<Comment>, record: Record, id: nat): Run {
    if 1 <= id <= |log| && log[id - 1] == Comment(true, Claim(record)) then AwaitIssue(Second(record, id)) else Failed
  }

  /** A call that the run is not ready for changes nothing. */
  function Move(rules: Rules, log: seq<Comment>, r: Run, call: Call): Run {
    match call
    case ReadIssue(issue) => if r.AwaitIssue? then AwaitEvents(r.round, issue) else r
    case ReadEvents(events) => if r.AwaitEvents? then AwaitComments(r.round, r.issue, events, []) else r
    case ReadPage => if r.AwaitComments? then AfterPage(rules, log, r) else r
    case Verify => if r.Verifying? then AfterVerify(log, r.record, r.id) else r
    case Crash => if r.Admitted? || r.Refused? then r else Failed
  }

  function Apply(rules: Rules, s: System, step: Step): System {
    match step
    case Foreign(comment) => s.(log := s.log + [comment])
    case Start(run) => if run in s.runs then s else s.(runs := s.runs[run := AwaitIssue(First)])
    case Do(run, call) => if run in s.runs then s.(runs := s.runs[run := Move(rules, s.log, s.runs[run], call)]) else s
    case Post(run) =>
      if run in s.runs && s.runs[run].Posting? then
        var record := s.runs[run].record;
        System(s.log + [Comment(true, Claim(record))], s.runs[run := Verifying(record, |s.log| + 1)])
      else s
  }

  function After(rules: Rules, s: System, steps: seq<Step>): System {
    if steps == [] then s else Apply(rules, After(rules, s, steps[..|steps| - 1]), steps[|steps| - 1])
  }

  // ---------------------------------------------------------------- invariant

  /** The comment a run has written, if it has. */
  function Written(r: Run): Option<(Record, nat)> {
    match r
    case AwaitIssue(Second(record, id)) => Some((record, id))
    case AwaitEvents(Second(record, id), _) => Some((record, id))
    case AwaitComments(Second(record, id), _, _, _) => Some((record, id))
    case Verifying(record, id) => Some((record, id))
    case Admitted(record, id) => Some((record, id))
    case _ => None
  }

  /** A written claim stands in the log under the run's id. */
  predicate WrittenStands(log: seq<Comment>, r: Run) {
    Written(r).Some? ==>
      var (record, id) := Written(r).value;
      1 <= id <= |log| && log[id - 1] == Comment(true, Claim(record))
  }

  /** What has been read is the log's own beginning, in whole pages. */
  predicate ReadIsPrefix(log: seq<Comment>, r: Run) {
    r.AwaitComments? ==> r.pages <= log && |r.pages| % PageSize == 0 && |r.pages| < PageSize * MaxPages
  }

  /** No claim on the key precedes the admitted one. */
  predicate AdmittedIsFirst(log: seq<Comment>, r: Run) {
    r.Admitted? ==> forall i | 0 <= i < |log| && i < r.id - 1 :: !IsClaim(log[i], r.record.key)
  }

  predicate RunOk(log: seq<Comment>, r: Run) {
    WrittenStands(log, r) && ReadIsPrefix(log, r) && AdmittedIsFirst(log, r)
  }

  predicate DifferentIds(a: Run, b: Run) {
    Written(a).Some? && Written(b).Some? ==> Written(a).value.1 != Written(b).value.1
  }

  ghost predicate Inv(s: System) {
    && (forall r | r in s.runs :: RunOk(s.log, s.runs[r]))
    && (forall a, b | a in s.runs && b in s.runs && a != b :: DifferentIds(s.runs[a], s.runs[b]))
  }

  /** The log only grows, and a run's facts about it stay true. */
  lemma RunOkGrows(log: seq<Comment>, comment: Comment, r: Run)
    requires RunOk(log, r)
    ensures RunOk(log + [comment], r)
  {
    if r.AwaitComments? {
      assert r.pages == (log + [comment])[..|r.pages|];
    }
  }

  /** The last page is short, so what has been read is the whole log at that moment. */
  lemma LastPageCompletes(log: seq<Comment>, r: Run)
    requires r.AwaitComments? && ReadIsPrefix(log, r) && |Page(log, |r.pages|)| < PageSize
    ensures r.pages + Page(log, |r.pages|) == log
  {
  }

  lemma FullPageIsPrefix(log: seq<Comment>, r: Run)
    requires r.AwaitComments? && ReadIsPrefix(log, r) && |Page(log, |r.pages|)| == PageSize
    ensures r.pages + Page(log, |r.pages|) <= log
  {
    assert log == r.pages + log[|r.pages|..];
  }

  lemma AfterPageOk(rules: Rules, log: seq<Comment>, r: Run)
    requires r.AwaitComments? && RunOk(log, r)
    ensures RunOk(log, AfterPage(rules, log, r))
    ensures Written(AfterPage(rules, log, r)).Some? ==> Written(AfterPage(rules, log, r)) == Written(r)
  {
    hide TrustedClaims, Page, Claims;
    var page := Page(log, |r.pages|);
    PageIsShort(log, |r.pages|);
    if |page| == PageSize {
      FullPageIsPrefix(log, r);
    } else {
      LastPageCompletes(log, r);
      if r.round.Second? {
        AdmissionIsFirst(rules, r.issue, r.events, log, r.round.record, r.round.id);
      }
    }
  }

  lemma PageIsShort(log: seq<Comment>, read: nat)
    ensures |Page(log, read)| <= PageSize
  {
  }

  lemma AdmissionIsFirst(rules: Rules, issue: string, events: string, log: seq<Comment>, record: Record, id: nat)
    ensures var after := SecondDecision(rules, issue, events, log, record, id);
            && (after.Admitted? ==> after == Admitted(record, id)) && AdmittedIsFirst(log, after)
            && (after.Admitted? || after.Refused? || after.Failed?)
  {
    var after := SecondDecision(rules, issue, events, log, record, id);
    if after.Admitted? {
      var claims := Claims(log, record.key);
      assert |claims| == 1 && claims[0] + 1 == id;
      assert forall i | 0 <= i < |log| && IsClaim(log[i], record.key) :: i in claims;
    }
  }

  /** A change of one run that keeps its own facts and its written id keeps the invariant. */
  lemma OneRunMoves(s: System, run: nat, r: Run)
    requires Inv(s) && RunOk(s.log, r)
    requires Written(r).Some? ==> run in s.runs && Written(s.runs[run]) == Written(r)
    ensures Inv(s.(runs := s.runs[run := r]))
  {
    hide RunOk, Written;
  }

  lemma PostKeeps(rules: Rules, s: System, run: nat)
    requires Inv(s) && run in s.runs && s.runs[run].Posting?
    ensures Inv(Apply(rules, s, Post(run)))
  {
    hide RunOk, DifferentIds;
    var record := s.runs[run].record;
    var comment := Comment(true, Claim(record));
    var t := Apply(rules, s, Post(run));
    assert t == System(s.log + [comment], s.runs[run := Verifying(record, |s.log| + 1)]);
    PostedRunOk(s.log, record);
    forall r | r in t.runs ensures RunOk(t.log, t.runs[r]) {
      if r != run { RunOkGrows(s.log, comment, s.runs[r]); }
    }
    forall a, b | a in t.runs && b in t.runs && a != b ensures DifferentIds(t.runs[a], t.runs[b]) {
      if a == run { FreshId(s.log, record, s.runs[b]); } else if b == run { FreshId(s.log, record, s.runs[a]); }
    }
  }

  lemma PostedRunOk(log: seq<Comment>, record: Record)
    ensures RunOk(log + [Comment(true, Claim(record))], Verifying(record, |log| + 1))
  {
  }

  lemma FreshId(log: seq<Comment>, record: Record, other: Run)
    requires RunOk(log, other)
    ensures DifferentIds(Verifying(record, |log| + 1), other) && DifferentIds(other, Verifying(record, |log| + 1))
  {
  }

  lemma RunIsOk(s: System, run: nat)
    requires Inv(s) && run in s.runs
    ensures RunOk(s.log, s.runs[run])
  {
    hide RunOk, DifferentIds;
  }

  lemma MoveOk(rules: Rules, log: seq<Comment>, r: Run, call: Call)
    requires RunOk(log, r)
    ensures var moved := Move(rules, log, r, call);
            RunOk(log, moved) && (Written(moved).Some? ==> Written(moved) == Written(r))
  {
    hide AfterPage, IsClaim;
    if call.ReadPage? && r.AwaitComments? { AfterPageOk(rules, log, r); }
  }

  lemma ApplyKeeps(rules: Rules, s: System, step: Step)
    requires Inv(s)
    ensures Inv(Apply(rules, s, step))
  {
    hide RunOk, Move;
    var t := Apply(rules, s, step);
    match step
    case Foreign(comment) =>
      forall r | r in t.runs ensures RunOk(t.log, t.runs[r]) { RunOkGrows(s.log, comment, s.runs[r]); }
    case Start(run) =>
      FreshRunOk(s.log);
      if run !in s.runs { OneRunMoves(s, run, AwaitIssue(First)); }
    case Do(run, call) =>
      if run in s.runs {
        MoveOk(rules, s.log, s.runs[run], call);
        OneRunMoves(s, run, Move(rules, s.log, s.runs[run], call));
      }
    case Post(run) =>
      if run in s.runs && s.runs[run].Posting? { PostKeeps(rules, s, run); }
  }

  lemma FreshRunOk(log: seq<Comment>)
    ensures RunOk(log, AwaitIssue(First)) && Written(AwaitIssue(First)).None?
  {
  }

  lemma {:induction false} AfterKeeps(rules: Rules, s: System, steps: seq<Step>)
    requires Inv(s)
    ensures Inv(After(rules, s, steps))
  {
    hide Inv, Apply;
    if steps != [] {
      AfterKeeps(rules, s, steps[..|steps| - 1]);
      ApplyKeeps(rules, After(rules, s, steps[..|steps| - 1]), steps[|steps| - 1]);
    }
  }

  // ---------------------------------------------------------------- safety over every interleaving

  function Initial(log: seq<Comment>): System { System(log, map[]) }

  predicate AdmittedFor(s: System, run: nat, key: string) {
    run in s.runs && s.runs[run].Admitted? && s.runs[run].record.key == key
  }

  lemma ReachableInv(rules: Rules, log: seq<Comment>, steps: seq<Step>)
    ensures Inv(After(rules, Initial(log), steps))
  {
    AfterKeeps(rules, Initial(log), steps);
  }

  lemma AdmittedRunFacts(s: System, run: nat, key: string)
    requires Inv(s) && AdmittedFor(s, run, key)
    ensures var r := s.runs[run];
            && 1 <= r.id <= |s.log| && IsClaim(s.log[r.id - 1], key)
            && forall i | 0 <= i < r.id - 1 :: !IsClaim(s.log[i], key)
  {
    assert RunOk(s.log, s.runs[run]);
  }

  /** However many runs are interleaved, and whatever else is written meanwhile, one event key admits
      at most one run. */
  lemma AtMostOneAdmitted(rules: Rules, log: seq<Comment>, steps: seq<Step>, a: nat, b: nat, key: string)
    requires AdmittedFor(After(rules, Initial(log), steps), a, key) && AdmittedFor(After(rules, Initial(log), steps), b, key)
    ensures a == b
  {
    hide After, Inv;
    var s := After(rules, Initial(log), steps);
    ReachableInv(rules, log, steps);
    AdmittedRunFacts(s, a, key);
    AdmittedRunFacts(s, b, key);
    if a != b {
      IdsDiffer(s, a, b);
    }
  }

  lemma IdsDiffer(s: System, a: nat, b: nat)
    requires Inv(s) && a in s.runs && b in s.runs && a != b && s.runs[a].Admitted? && s.runs[b].Admitted?
    ensures s.runs[a].id != s.runs[b].id
  {
    assert DifferentIds(s.runs[a], s.runs[b]);
  }

  lemma {:induction false} AfterAppend(rules: Rules, s: System, steps: seq<Step>, more: seq<Step>)
    ensures After(rules, s, steps + more) == After(rules, After(rules, s, steps), more)
  {
    hide Apply;
    if more == [] {
      assert steps + more == steps;
    } else {
      assert (steps + more)[..|steps + more| - 1] == steps + more[..|more| - 1];
      AfterAppend(rules, s, steps, more[..|more| - 1]);
    }
  }

  /** A run that starts later writes, if at all, behind everything that stood there. */
  predicate WritesBehind(s: System, t: System, run: nat) {
    s.log <= t.log && (run in t.runs && Written(t.runs[run]).Some? ==> Written(t.runs[run]).value.1 > |s.log|)
  }

  lemma StepWritesBehind(rules: Rules, s: System, t: System, step: Step, run: nat)
    requires Inv(t) && WritesBehind(s, t, run)
    ensures WritesBehind(s, Apply(rules, t, step), run)
  {
    hide Move, Inv, RunOk;
    if step.Do? && step.run == run && run in t.runs {
      RunIsOk(t, run);
      MoveOk(rules, t.log, t.runs[run], step.call);
    }
  }

  lemma {:induction false} LaterWritesBehind(rules: Rules, s: System, steps: seq<Step>, run: nat)
    requires Inv(s) && run !in s.runs
    ensures WritesBehind(s, After(rules, s, steps), run)
  {
    hide Inv, Apply, Written;
    if steps != [] {
      var before := After(rules, s, steps[..|steps| - 1]);
      LaterWritesBehind(rules, s, steps[..|steps| - 1], run);
      AfterKeeps(rules, s, steps[..|steps| - 1]);
      StepWritesBehind(rules, s, before, steps[|steps| - 1], run);
    }
  }

  /** Once a trusted claim on the key stands in the log, no run that starts afterwards is admitted. */
  lemma LateRunNotAdmitted(rules: Rules, s: System, steps: seq<Step>, run: nat, key: string, claim: nat)
    requires Inv(s) && run !in s.runs && claim < |s.log| && IsClaim(s.log[claim], key)
    ensures !AdmittedFor(After(rules, s, steps), run, key)
  {
    hide Inv, After;
    var t := After(rules, s, steps);
    LaterWritesBehind(rules, s, steps, run);
    AfterKeeps(rules, s, steps);
    assert t.log[claim] == s.log[claim];
    if AdmittedFor(t, run, key) { AdmittedRunFacts(t, run, key); }
  }

  /** With two claims on the key in the log, nobody else is admitted any more. */
  lemma DuplicateBlocks(rules: Rules, s: System, step: Step, run: nat, key: string)
    requires Inv(s) && |Claims(s.log, key)| > 1 && !AdmittedFor(s, run, key)
    ensures !AdmittedFor(Apply(rules, s, step), run, key)
  {
    hide Claims, Inv, FirstDecision, Page;
    if step == Do(run, ReadPage) && run in s.runs && s.runs[run].AwaitComments? {
      var r := s.runs[run];
      RunIsOk(s, run);
      PageIsShort(s.log, |r.pages|);
      if |Page(s.log, |r.pages|)| < PageSize {
        LastPageCompletes(s.log, r);
        FirstNeverAdmits(rules, r.issue, r.events, s.log);
      }
    }
  }

  lemma FirstNeverAdmits(rules: Rules, issue: string, events: string, comments: seq<Comment>)
    ensures !FirstDecision(rules, issue, events, comments).Admitted?
  {
  }

  // ---------------------------------------------------------------- what a complete reading decides

  /** The trusted automation wrote a claim on this key here. */
  predicate HoldsClaim(log: seq<Comment>, key: string, at: nat) {
    at < |log| && log[at].trusted && log[at].body.Claim? && log[at].body.record.key == key
  }

  predicate NoClaim(log: seq<Comment>, key: string) {
    forall at | 0 <= at < |log| :: !HoldsClaim(log, key, at)
  }

  /** And here only. */
  predicate OnlyClaim(log: seq<Comment>, key: string, at: nat) {
    HoldsClaim(log, key, at) && forall i | 0 <= i < |log| && i != at :: !HoldsClaim(log, key, i)
  }

  /** The trusted automation wrote something that looks like a claim and is none. */
  predicate HasBroken(log: seq<Comment>) {
    exists at :: 0 <= at < |log| && log[at].trusted && log[at].body == Broken
  }

  lemma ClaimsAre(log: seq<Comment>, key: string)
    ensures forall at: nat :: at in Claims(log, key) <==> HoldsClaim(log, key, at)
  {
    forall at: nat ensures at in Claims(log, key) <==> HoldsClaim(log, key, at) {
      if at < |log| { assert IsClaim(log[at], key) <==> HoldsClaim(log, key, at); }
    }
  }

  lemma NoClaimTells(log: seq<Comment>, key: string)
    ensures Claims(log, key) == [] <==> NoClaim(log, key)
  {
    hide Claims, HoldsClaim;
    ClaimsAre(log, key);
    var claims := Claims(log, key);
    if claims != [] { assert claims[0] in claims; }
  }

  lemma OnlyClaimTells(log: seq<Comment>, key: string, at: nat)
    ensures Claims(log, key) == [at] <==> OnlyClaim(log, key, at)
  {
    hide Claims, HoldsClaim;
    ClaimsAre(log, key);
    var claims := Claims(log, key);
    assert |claims| > 1 ==> claims[0] < claims[1];
    if claims == [at] { assert at in claims; }
    if OnlyClaim(log, key, at) {
      assert HoldsClaim(log, key, at);
      forall i | 0 <= i < |claims| ensures claims[i] == at { ClaimAt(log, key, i); }
    }
  }

  lemma ClaimAt(log: seq<Comment>, key: string, i: nat)
    requires i < |Claims(log, key)|
    ensures Claims(log, key)[i] < |log| && HoldsClaim(log, key, Claims(log, key)[i])
  {
    hide Claims;
    assert IsClaim(log[Claims(log, key)[i]], key);
  }

  lemma BrokenTells(log: seq<Comment>)
    ensures HasBroken(log) <==> exists i :: 0 <= i < |log| && IsBroken(log[i])
  {
    if HasBroken(log) {
      var i :| 0 <= i < |log| && log[i].trusted && log[i].body == Broken;
      assert IsBroken(log[i]);
    }
  }

  lemma TrustedClaimsTell(log: seq<Comment>, key: string)
    ensures TrustedClaims(log, key) == Ok(None) <==> !HasBroken(log) && NoClaim(log, key)
    ensures forall at: nat :: TrustedClaims(log, key) == Ok(Some(at)) <==> !HasBroken(log) && OnlyClaim(log, key, at)
  {
    hide Claims, HasBroken, NoClaim, OnlyClaim, IsBroken;
    BrokenTells(log);
    NoClaimTells(log, key);
    forall at: nat ensures TrustedClaims(log, key) == Ok(Some(at)) <==> !HasBroken(log) && OnlyClaim(log, key, at) {
      OnlyClaimTells(log, key, at);
    }
  }

  /** The run's reading ends with the next page. */
  predicate LastPage(log: seq<Comment>, r: Run) {
    r.AwaitComments? && ReadIsPrefix(log, r) && |log| < |r.pages| + PageSize
  }

  lemma LastPageDecides(rules: Rules, log: seq<Comment>, r: Run)
    requires LastPage(log, r)
    ensures Move(rules, log, r, ReadPage) == Verdict(rules, r.round, r.issue, r.events, log)
  {
    hide Verdict;
    LastPageCompletes(log, r);
  }

  /** A first reading leads to posting a record exactly when the card as read offers that record at the time at which
      its label was erased, and the log holds no claim on its key and none that is broken. */
  lemma PostsIff(rules: Rules, log: seq<Comment>, r: Run, record: Record)
    requires LastPage(log, r)
    ensures Move(rules, log, r, ReadPage) == Posting(record) <==>
            && r.round == First && rules.inspect(r.issue, r.events) == Offers(record, record.erasedAt)
            && !HasBroken(log) && NoClaim(log, record.key)
  {
    hide TrustedClaims, HasBroken, NoClaim, Move;
    LastPageDecides(rules, log, r);
    TrustedClaimsTell(log, record.key);
  }

  /** A second reading admits exactly when the card as read again offers the very record that was posted, and the run's
      own comment is the only claim on the key in a log without broken ones. */
  lemma AdmitsIff(rules: Rules, log: seq<Comment>, r: Run, record: Record, id: nat)
    requires LastPage(log, r) && id > 0
    ensures Move(rules, log, r, ReadPage) == Admitted(record, id) <==>
            && r.round == Second(record, id)
            && rules.inspect(r.issue, r.events).Offers? && rules.inspect(r.issue, r.events).record == record
            && !HasBroken(log) && OnlyClaim(log, record.key, id - 1)
  {
    hide TrustedClaims, HasBroken, OnlyClaim, NoClaim, Move;
    LastPageDecides(rules, log, r);
    TrustedClaimsTell(log, record.key);
    if r.round == Second(record, id) {
      match TrustedClaims(log, record.key)
      case Ok(Some(at)) => assert TrustedClaims(log, record.key) == Ok(Some(id - 1)) <==> at == id - 1;
      case _ =>
    }
  }

  /** A complete reading fails exactly when it has a record to look for and the log holds a broken claim or a second one
      on the key; in every other case that neither posts nor admits, the run is refused. */
  lemma FailsIff(rules: Rules, log: seq<Comment>, r: Run)
    requires LastPage(log, r)
    ensures var offered, next := rules.inspect(r.issue, r.events), Move(rules, log, r, ReadPage);
            && (next == Failed <==>
                  (r.round.Second? || offered.Offers?)
                  && var key := if r.round.Second? then r.round.record.key else offered.record.key;
                     HasBroken(log) || !(NoClaim(log, key) || exists at: nat :: OnlyClaim(log, key, at)))
            && (next == Failed || next == Refused || next.Posting? || next.Admitted?)
  {
    hide TrustedClaims, HasBroken, OnlyClaim, NoClaim, Move;
    LastPageDecides(rules, log, r);
    var offered := rules.inspect(r.issue, r.events);
    if r.round.Second? { TrustedClaimsSome(log, r.round.record.key); }
    else if offered.Offers? { TrustedClaimsSome(log, offered.record.key); }
  }

  lemma TrustedClaimsSome(log: seq<Comment>, key: string)
    ensures TrustedClaims(log, key).Err? <==> HasBroken(log) || !(NoClaim(log, key) || exists at: nat :: OnlyClaim(log, key, at))
  {
    hide TrustedClaims, HasBroken, OnlyClaim, NoClaim;
    TrustedClaimsTell(log, key);
    match TrustedClaims(log, key)
    case Ok(Some(at)) => assert TrustedClaims(log, key) == Ok(Some(at)) && OnlyClaim(log, key, at);
    case _ =>
  }

  /** A run that has ended stays as it ended, whatever happens. */
  lemma EndStays(rules: Rules, s: System, step: Step, run: nat)
    requires run in s.runs && (s.runs[run].Admitted? || s.runs[run].Refused? || s.runs[run].Failed?)
    ensures run in Apply(rules, s, step).runs && Apply(rules, s, step).runs[run] == s.runs[run]
  {
    hide AfterPage, AfterVerify;
  }

  /** A run that dies before it has ended is out, and a run goes on only with its own claim read back. */
  lemma DeadRunIsOut(rules: Rules, log: seq<Comment>, r: Run)
    ensures !r.Admitted? && !r.Refused? ==> Move(rules, log, r, Crash) == Failed
    ensures r.Verifying? ==>
              (Move(rules, log, r, Verify) == AwaitIssue(Second(r.record, r.id)) <==>
               r.id > 0 && HoldsClaim(log, r.record.key, r.id - 1) && log[r.id - 1].body.record == r.record)
              && (Move(rules, log, r, Verify) == AwaitIssue(Second(r.record, r.id)) || Move(rules, log, r, Verify) == Failed)
  {
    if r.Verifying? && 1 <= r.id <= |log| {
      var c := log[r.id - 1];
      assert c == Comment(c.trusted, c.body) && (c.body.Claim? ==> c.body == Claim(c.body.record));
    }
  }

  /** No other step of the system makes a run post or admit. */
  lemma OnlyReadingDecides(rules: Rules, s: System, step: Step, run: nat)
    requires Inv(s)
    requires var t := Apply(rules, s, step); run in t.runs && (t.runs[run].Posting? || t.runs[run].Admitted?)
    requires run in s.runs ==> s.runs[run] != Apply(rules, s, step).runs[run]
    ensures step == Do(run, ReadPage) && run in s.runs && LastPage(s.log, s.runs[run])
  {
    hide Inv, Verdict, RunOk;
    if run in s.runs {
      RunIsOk(s, run);
      RunReads(s.log, s.runs[run]);
    }
  }

  lemma RunReads(log: seq<Comment>, r: Run)
    requires RunOk(log, r)
    ensures ReadIsPrefix(log, r)
  {
  }

  // ---------------------------------------------------------------- revalidation

  /** `revalidate` on one reading of the comments and one inspection. */
  function Revalidate(rules: Rules, issue: string, events: string, comments: seq<Comment>, key: string): bool {
    match TrustedClaims(comments, key)
    case Ok(Some(at)) =>
      var repeated := rules.inspect(issue, events);
      repeated.Offers? && comments[at].body == Claim(repeated.record)
    case _ => false
  }

  /** Revalidation passes exactly when the log holds no broken claim and one claim on the key, and the card offers
      that claim's record. */
  lemma RevalidatesIff(rules: Rules, issue: string, events: string, log: seq<Comment>, key: string)
    ensures Revalidate(rules, issue, events, log, key) <==>
            && !HasBroken(log) && rules.inspect(issue, events).Offers?
            && exists at: nat :: OnlyClaim(log, key, at) && log[at].body.record == rules.inspect(issue, events).record
  {
    hide TrustedClaims, HasBroken;
    TrustedClaimsTell(log, key);
    match TrustedClaims(log, key)
    case Ok(Some(at)) => assert OnlyClaim(log, key, at);
    case _ =>
  }

  /** After a run was admitted, revalidation passes only on that run's own claim. */
  lemma RevalidationIsOwn(rules: Rules, s: System, run: nat, issue: string, events: string, key: string)
    requires Inv(s) && AdmittedFor(s, run, key) && Revalidate(rules, issue, events, s.log, key)
    ensures rules.inspect(issue, events).Offers? && rules.inspect(issue, events).record == s.runs[run].record
    ensures forall i | 0 <= i < |s.log| :: IsClaim(s.log[i], key) <==> i == s.runs[run].id - 1
  {
    hide Inv;
    AdmittedRunFacts(s, run, key);
    var claims := Claims(s.log, key);
    var own := s.runs[run].id - 1;
    assert own in claims;
    assert claims == [own];
    RunIsOk(s, run);
    assert s.log[own] == Comment(true, Claim(s.runs[run].record));
    forall i | 0 <= i < |s.log| && IsClaim(s.log[i], key) ensures i == own { assert i in claims; }
  }

  // ---------------------------------------------------------------- a lone run succeeds

  function Pages(run: nat, n: nat): seq<Step> { seq(n, _ => Do(run, ReadPage)) }

  lemma NextPage(rules: Rules, s: System, run: nat, n: nat)
    ensures After(rules, s, Pages(run, n + 1)) == Apply(rules, After(rules, s, Pages(run, n)), Do(run, ReadPage))
  {
    hide Apply;
    assert Pages(run, n + 1)[..n] == Pages(run, n);
  }

  lemma FullPage(rules: Rules, log: seq<Comment>, r: Run, n: nat)
    requires r.AwaitComments? && (n + 1) * PageSize <= |log| && r.pages == log[..n * PageSize]
    ensures n + 1 < MaxPages ==> AfterPage(rules, log, r) == r.(pages := log[..(n + 1) * PageSize])
    ensures n + 1 >= MaxPages ==> AfterPage(rules, log, r) == Failed
  {
    hide Verdict;
    assert log[..(n + 1) * PageSize] == log[..n * PageSize] + log[n * PageSize..(n + 1) * PageSize];
  }

  lemma ShortPage(rules: Rules, log: seq<Comment>, r: Run, n: nat)
    requires r.AwaitComments? && n * PageSize <= |log| < (n + 1) * PageSize && r.pages == log[..n * PageSize]
    ensures AfterPage(rules, log, r) == Verdict(rules, r.round, r.issue, r.events, log)
  {
    hide Verdict;
    assert log == log[..n * PageSize] + log[n * PageSize..];
  }

  /** While nobody else writes, each page extends the reading by a hundred comments. */
  lemma {:induction false} FullPages(rules: Rules, s: System, run: nat, n: nat)
    requires run in s.runs && s.runs[run].AwaitComments? && s.runs[run].pages == []
    requires n < MaxPages && n * PageSize <= |s.log|
    ensures After(rules, s, Pages(run, n)) == s.(runs := s.runs[run := s.runs[run].(pages := s.log[..n * PageSize])])
  {
    hide AfterPage;
    var r := s.runs[run];
    if n == 0 {
      assert s.log[..0] == [] && s.runs[run := r] == s.runs;
    } else {
      FullPages(rules, s, run, n - 1);
      NextPage(rules, s, run, n - 1);
      FullPage(rules, s.log, r.(pages := s.log[..(n - 1) * PageSize]), n - 1);
    }
  }

  /** A history of fewer than a thousand comments is read to its end. */
  lemma WholeHistory(rules: Rules, s: System, run: nat)
    requires run in s.runs && s.runs[run].AwaitComments? && s.runs[run].pages == [] && |s.log| < PageSize * MaxPages
    ensures var r := s.runs[run];
            After(rules, s, Pages(run, |s.log| / PageSize + 1)) ==
            s.(runs := s.runs[run := Verdict(rules, r.round, r.issue, r.events, s.log)])
  {
    hide AfterPage, Verdict, After;
    var n := |s.log| / PageSize;
    FullPages(rules, s, run, n);
    NextPage(rules, s, run, n);
    ShortPage(rules, s.log, s.runs[run].(pages := s.log[..n * PageSize]), n);
  }

  /** A longer one is refused, however it is read. */
  lemma LongHistoryFails(rules: Rules, s: System, run: nat)
    requires run in s.runs && s.runs[run].AwaitComments? && s.runs[run].pages == [] && |s.log| >= PageSize * MaxPages
    ensures After(rules, s, Pages(run, MaxPages)) == s.(runs := s.runs[run := Failed])
  {
    hide AfterPage, After;
    var n := MaxPages - 1;
    FullPages(rules, s, run, n);
    NextPage(rules, s, run, n);
    FullPage(rules, s.log, s.runs[run].(pages := s.log[..n * PageSize]), n);
  }

  /** All calls of one undisturbed run, first reading to verdict. */
  function Reading(run: nat, issue: string, events: string, length: nat): seq<Step> {
    [Do(run, ReadIssue(issue)), Do(run, ReadEvents(events))] + Pages(run, length / PageSize + 1)
  }

  lemma OneStep(rules: Rules, s: System, a: Step)
    ensures After(rules, s, [a]) == Apply(rules, s, a)
  {
    hide Apply;
    assert [a][..0] == [];
  }

  lemma TwoSteps(rules: Rules, s: System, a: Step, b: Step)
    ensures After(rules, s, [a, b]) == Apply(rules, Apply(rules, s, a), b)
  {
    hide Apply;
    OneStep(rules, s, a);
    assert [a, b][..1] == [a];
  }

  lemma Opening(rules: Rules, s: System, run: nat, issue: string, events: string)
    requires run in s.runs && s.runs[run].AwaitIssue?
    ensures After(rules, s, [Do(run, ReadIssue(issue)), Do(run, ReadEvents(events))]) ==
            s.(runs := s.runs[run := AwaitComments(s.runs[run].round, issue, events, [])])
  {
    TwoSteps(rules, s, Do(run, ReadIssue(issue)), Do(run, ReadEvents(events)));
  }

  lemma WholeReading(rules: Rules, s: System, run: nat, issue: string, events: string)
    requires run in s.runs && s.runs[run].AwaitIssue? && |s.log| < PageSize * MaxPages
    ensures After(rules, s, Reading(run, issue, events, |s.log|)) ==
            s.(runs := s.runs[run := Verdict(rules, s.runs[run].round, issue, events, s.log)])
  {
    hide Verdict, Apply, After;
    Opening(rules, s, run, issue, events);
    var t := s.(runs := s.runs[run := AwaitComments(s.runs[run].round, issue, events, [])]);
    AfterAppend(rules, s, [Do(run, ReadIssue(issue)), Do(run, ReadEvents(events))], Pages(run, |s.log| / PageSize + 1));
    WholeHistory(rules, t, run);
    var v := Verdict(rules, s.runs[run].round, issue, events, s.log);
    assert t.runs[run := v] == s.runs[run := v];
  }

  lemma Writing(rules: Rules, s: System, run: nat)
    requires run in s.runs && s.runs[run].Posting?
    ensures var record := s.runs[run].record;
            After(rules, s, [Post(run), Do(run, Verify)]) ==
            System(s.log + [Comment(true, Claim(record))], s.runs[run := AwaitIssue(Second(record, |s.log| + 1))])
  {
    TwoSteps(rules, s, Post(run), Do(run, Verify));
  }

  /** A run that nobody disturbs, on a card that offers one record throughout, is admitted when the
      log has no trusted claim on its key, no broken one, and room for one more comment. */
  lemma LoneRunAdmitted(rules: Rules, log: seq<Comment>, run: nat, issue: string, events: string, record: Record)
    requires rules.inspect(issue, events) == Offers(record, record.erasedAt)
    requires |log| + 1 < PageSize * MaxPages
    requires forall i | 0 <= i < |log| :: !IsBroken(log[i]) && !IsClaim(log[i], record.key)
    ensures var steps := [Start(run)] + Reading(run, issue, events, |log|) + [Post(run), Do(run, Verify)]
                         + Reading(run, issue, events, |log| + 1);
            AdmittedFor(After(rules, Initial(log), steps), run, record.key)
  {
    hide Reading, After, Verdict, Apply;
    var claim := Comment(true, Claim(record));
    var s1 := System(log, map[run := AwaitIssue(First)]);
    var s2 := System(log, map[run := Posting(record)]);
    var s3 := System(log + [claim], map[run := AwaitIssue(Second(record, |log| + 1))]);
    var start, first, write := [Start(run)], Reading(run, issue, events, |log|), [Post(run), Do(run, Verify)];
    var second := Reading(run, issue, events, |log| + 1);
    AfterAppend(rules, Initial(log), start + first + write, second);
    AfterAppend(rules, Initial(log), start + first, write);
    AfterAppend(rules, Initial(log), start, first);
    OneStep(rules, Initial(log), Start(run));
    Starting(rules, log, run);
    WholeReading(rules, s1, run, issue, events);
    FreshVerdicts(rules, log, issue, events, record);
    assert s1.runs[run := Posting(record)] == s2.runs;
    Writing(rules, s2, run);
    assert s2.runs[run := AwaitIssue(Second(record, |log| + 1))] == s3.runs;
    WholeReading(rules, s3, run, issue, events);
  }

  lemma Starting(rules: Rules, log: seq<Comment>, run: nat)
    ensures Apply(rules, Initial(log), Start(run)) == System(log, map[run := AwaitIssue(First)])
  {
  }

  lemma FreshVerdicts(rules: Rules, log: seq<Comment>, issue: string, events: string, record: Record)
    requires rules.inspect(issue, events) == Offers(record, record.erasedAt)
    requires forall i | 0 <= i < |log| :: !IsBroken(log[i]) && !IsClaim(log[i], record.key)
    ensures Verdict(rules, First, issue, events, log) == Posting(record)
    ensures var id := |log| + 1;
            Verdict(rules, Second(record, id), issue, events, log + [Comment(true, Claim(record))]) == Admitted(record, id)
  {
    hide Claims;
    var longer := log + [Comment(true, Claim(record))];
    NoClaims(log, record.key);
    OneClaim(log, Comment(true, Claim(record)), record.key);
    assert forall i | 0 <= i < |log| :: longer[i] == log[i];
  }

  lemma {:induction false} NoClaims(log: seq<Comment>, key: string)
    requires forall i | 0 <= i < |log| :: !IsClaim(log[i], key)
    ensures Claims(log, key) == []
  {
    if log != [] {
      var n := |log| - 1;
      assert forall i | 0 <= i < n :: log[..n][i] == log[i];
      NoClaims(log[..n], key);
    }
  }

  lemma OneClaim(log: seq<Comment>, c: Comment, key: string)
    requires IsClaim(c, key) && Claims(log, key) == []
    ensures Claims(log + [c], key) == [|log|]
  {
    assert (log + [c])[..|log|] == log;
  }
}
