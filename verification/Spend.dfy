/** Spend accounting of a worker that may die at any point, and the supervisor's merged report. */
module Spend {
  import opened Outcomes

  datatype Limits = Limits(maxTurns: nat, maxProviderRequests: nat, maxInputTokens: nat, maxOutputTokens: nat)

  /** Token counts observed so far, where known. */
  datatype Tokens = Tokens(input: Option<nat>, output: Option<nat>)

  predicate TokensSpent(limits: Limits, observed: Option<Tokens>) {
    observed.Some? &&
    ((observed.value.input.Some? && observed.value.input.value >= limits.maxInputTokens)
     || (observed.value.output.Some? && observed.value.output.value >= limits.maxOutputTokens))
  }

  /** The next request is within every limit. */
  predicate MayBegin(limits: Limits, turns: nat, requests: nat, observed: Option<Tokens>) {
    !TokensSpent(limits, observed) && turns + 1 <= limits.maxTurns && requests + 1 <= limits.maxProviderRequests
  }

  class RuntimeBudget {
    const limits: Limits
    var turns: nat
    var providerRequests: nat

    /** Turns and requests advance together and never pass their limits. */
    predicate Valid()
      reads this
    {
      turns == providerRequests && turns <= limits.maxTurns && providerRequests <= limits.maxProviderRequests
    }

    constructor (limits: Limits)
      ensures Valid() && this.limits == limits && turns == 0 && providerRequests == 0
    {
      this.limits := limits;
      turns := 0;
      providerRequests := 0;
    }

    /** `begin_provider_request` */
    method BeginProviderRequest(observed: Option<Tokens>) returns (outcome: Result<(), string>)
      requires Valid()
      modifies this
      ensures Valid()
      ensures outcome.Ok? <==> MayBegin(limits, old(turns), old(providerRequests), observed)
      ensures outcome.Ok? ==> turns == old(turns) + 1 && providerRequests == old(providerRequests) + 1
      ensures outcome.Err? ==> turns == old(turns) && providerRequests == old(providerRequests)
    {
      if observed.Some? {
        var tokens := observed.value;
        if tokens.input.Some? && tokens.input.value >= limits.maxInputTokens {
          return Err("context.exceeded");
        }
        if tokens.output.Some? && tokens.output.value >= limits.maxOutputTokens {
          return Err("context.exceeded");
        }
      }
      if turns + 1 > limits.maxTurns {
        return Err("context.exceeded");
      }
      if providerRequests + 1 > limits.maxProviderRequests {
        return Err("context.exceeded");
      }
      turns := turns + 1;
      providerRequests := providerRequests + 1;
      outcome := Ok(());
    }
  }

  // ---------------------------------------------------------------- the worker

  /** What a checkpoint or a worker result says about spend. */
  datatype Report = Report(spendStarted: bool, usage: map<string, int>)

  const RequestsName := "providerRequests"
  const TurnsName := "turns"

  function UsageOf(requests: nat, turns: nat): map<string, int> {
    map[RequestsName := requests, TurnsName := turns]
  }

  /** Where the worker stands: waiting for something to continue with, between counting a request and
      saving the count, between saving and sending, in an exception handler, about to write its result,
      or gone. */
  datatype Phase = Waiting | Counted | Saved | Handling | Leaving(report: Report) | Exited

  datatype Worker = Worker(
    phase: Phase,
    turns: nat,
    requests: nat,
    spendStarted: bool,
    sent: nat,
    checkpoint: Option<Report>,
    result: Option<Report>)

  const Fresh := Worker(Waiting, 0, 0, false, 0, None, None)

  /** One step of a Codex worker; `Kill` may come between any two. A failing send may still have put
      the request on the wire. A token update that arrives while a request is out is checkpointed as well. */
  datatype Step =
    | Begin(observed: Option<Tokens>)
    | Save
    | SaveFails
    | Send
    | SendFails(out: bool)
    | UsageSaves
    | UsageSaveFails
    | Fail
    | Finish
    | HandlerSaves
    | HandlerFails
    | WriteResult
    | WriteFails
    | Kill

  function Current(w: Worker): Report {
    Report(w.spendStarted, UsageOf(w.requests, w.turns))
  }

  function Apply(limits: Limits, w: Worker, step: Step): Worker {
    match (step, w.phase)
    case (Begin(observed), Waiting) =>
      if MayBegin(limits, w.turns, w.requests, observed)
      then w.(phase := Counted, turns := w.turns + 1, requests := w.requests + 1, spendStarted := true)
      else w.(phase := Handling)
    case (Save, Counted) => w.(phase := Saved, checkpoint := Some(Current(w)))
    case (SaveFails, Counted) => w.(phase := Handling)
    case (Send, Saved) => w.(phase := Waiting, sent := w.sent + 1)
    case (SendFails(out), Saved) => w.(phase := Handling, sent := if out then w.sent + 1 else w.sent)
    case (UsageSaves, Waiting) => if w.sent == 0 then w else w.(checkpoint := Some(Current(w)))
    case (UsageSaveFails, Waiting) => if w.sent == 0 then w else w.(phase := Handling)
    case (Fail, Waiting) => w.(phase := Handling)
    case (Finish, Waiting) => w.(phase := Leaving(Current(w)))
    case (HandlerSaves, Handling) => w.(phase := Leaving(Current(w)), checkpoint := Some(Current(w)))
    case (HandlerFails, Handling) => w.(phase := Leaving(Report(false, UsageOf(0, 0))))
    case (WriteResult, Leaving(report)) => w.(phase := Exited, result := Some(report))
    case (WriteFails, Leaving(report)) => w.(phase := Exited)
    case (Kill, _) => w.(phase := Exited)
    case _ => w
  }

  function After(limits: Limits, steps: seq<Step>): Worker {
    if steps == [] then Fresh else Apply(limits, After(limits, steps[..|steps| - 1]), steps[|steps| - 1])
  }

  // ---------------------------------------------------------------- the worker's invariant

  function Requests(r: Report): int { if RequestsName in r.usage then r.usage[RequestsName] else 0 }

  function Turns(r: Report): int { if TurnsName in r.usage then r.usage[TurnsName] else 0 }

  /** A saved report covers what was sent and runs at most one ahead. */
  predicate Covers(r: Report, w: Worker) {
    && RequestsName in r.usage && TurnsName in r.usage
    && w.sent <= Requests(r) <= w.sent + 1 && Turns(r) == Requests(r) <= w.requests
    && (Requests(r) > 0 ==> r.spendStarted)
  }

  predicate Honest(r: Report, w: Worker) {
    && RequestsName in r.usage && TurnsName in r.usage
    && 0 <= Requests(r) <= w.sent + 1 && Turns(r) == Requests(r) <= w.requests
  }

  predicate Inv(limits: Limits, w: Worker) {
    && w.turns == w.requests <= w.sent + 1 && w.sent <= w.requests
    && w.turns <= limits.maxTurns && w.requests <= limits.maxProviderRequests
    && (w.requests > 0 ==> w.spendStarted)
    && (w.phase.Waiting? ==> w.sent == w.requests)
    && ((w.phase.Counted? || w.phase.Saved?) ==> w.requests == w.sent + 1)
    && (w.phase.Saved? ==> w.checkpoint.Some? && Requests(w.checkpoint.value) == w.requests)
    && (w.checkpoint.Some? ==> Covers(w.checkpoint.value, w))
    && (w.sent > 0 ==> w.checkpoint.Some?)
    && (w.phase.Leaving? ==> Honest(w.phase.report, w))
    && (w.result.Some? ==> Honest(w.result.value, w))
  }

  lemma CurrentFacts(w: Worker)
    ensures var r := Current(w);
            && RequestsName in r.usage && TurnsName in r.usage && Requests(r) == w.requests && Turns(r) == w.turns
            && r.spendStarted == w.spendStarted
  {
  }

  lemma ApplyKeeps(limits: Limits, w: Worker, step: Step)
    requires Inv(limits, w)
    ensures Inv(limits, Apply(limits, w, step))
  {
    hide Current, Requests, Turns, UsageOf, TokensSpent;
    CurrentFacts(w);
    NothingFacts();
  }

  lemma NothingFacts()
    ensures var r := Report(false, UsageOf(0, 0));
            RequestsName in r.usage && TurnsName in r.usage && Requests(r) == 0 && Turns(r) == 0
  {
  }

  lemma FreshInv(limits: Limits)
    ensures Inv(limits, Fresh)
  {
  }

  lemma {:induction false} AfterKeeps(limits: Limits, steps: seq<Step>)
    ensures Inv(limits, After(limits, steps))
  {
    hide Inv, Apply;
    if steps == [] {
      FreshInv(limits);
    } else {
      AfterKeeps(limits, steps[..|steps| - 1]);
      ApplyKeeps(limits, After(limits, steps[..|steps| - 1]), steps[|steps| - 1]);
    }
  }

  /** At every point at which a worker may die: the requests sent are at most the checkpointed ones,
      those at most one ahead; turns equal requests; and both stay within their limits. */
  lemma CheckpointCoversSpend(limits: Limits, steps: seq<Step>)
    ensures var w := After(limits, steps);
            && w.turns == w.requests <= limits.maxProviderRequests && w.turns <= limits.maxTurns
            && (w.sent > 0 ==> w.checkpoint.Some?)
            && (w.checkpoint.Some? ==>
                  var saved := w.checkpoint.value;
                  w.sent <= Requests(saved) <= w.sent + 1 && Turns(saved) == Requests(saved)
                  && Requests(saved) <= limits.maxProviderRequests && Turns(saved) <= limits.maxTurns)
  {
    AfterKeeps(limits, steps);
  }

  // ---------------------------------------------------------------- the supervisor

  const UsageNames := ["inputTokens", "outputTokens", "cacheReadTokens", "cacheWriteTokens", RequestsName, "toolCalls", TurnsName]

  /** `isinstance(value, int) and value >= 0`, where the name is present at all. */
  function CountAt(usage: map<string, int>, name: string): Option<nat> {
    if name in usage && usage[name] >= 0 then Some(usage[name]) else None
  }

  function MaxCount(a: Option<nat>, b: Option<nat>): Option<nat> {
    match (a, b)
    case (None, _) => b
    case (_, None) => a
    case (Some(x), Some(y)) => Some(if x >= y then x else y)
  }

  /** What the supervisor has in hand: nothing readable, a result, or a note of its own that it
      killed the worker or found no result. */
  datatype WorkerValue = Unreadable | Value(report: Report)

  datatype Merged = Merged(spendStarted: bool, usage: map<string, Option<nat>>)

  function ValueReport(value: WorkerValue): Report {
    if value.Value? then value.report else Report(false, map[])
  }

  function CheckpointReport(checkpoint: Option<Report>): Report {
    if checkpoint.Some? then checkpoint.value else Report(false, map[])
  }

  /** `_merge_worker_checkpoint`, its spend and usage parts */
  method Merge(value: WorkerValue, checkpoint: Option<Report>) returns (merged: Merged)
    ensures merged.spendStarted == (ValueReport(value).spendStarted || CheckpointReport(checkpoint).spendStarted)
    ensures merged.usage.Keys == set name <- UsageNames
    ensures forall name | name in UsageNames ::
              name in merged.usage
              && merged.usage[name] == MaxCount(CountAt(ValueReport(value).usage, name), CountAt(CheckpointReport(checkpoint).usage, name))
  {
    hide MaxCount, CountAt;
    var worker, saved := ValueReport(value), CheckpointReport(checkpoint);
    var usage: map<string, Option<nat>> := map[];
    for i := 0 to |UsageNames|
      invariant usage.Keys == set name <- UsageNames[..i]
      invariant forall k | 0 <= k < i ::
                  UsageNames[k] in usage
                  && usage[UsageNames[k]] == MaxCount(CountAt(worker.usage, UsageNames[k]), CountAt(saved.usage, UsageNames[k]))
    {
      var name := UsageNames[i];
      usage := usage[name := MaxCount(CountAt(worker.usage, name), CountAt(saved.usage, name))];
    }
    merged := Merged(worker.spendStarted || saved.spendStarted, usage);
  }

  /** The merged report as a value. */
  function MergedRequests(value: WorkerValue, checkpoint: Option<Report>): Option<nat> {
    MaxCount(CountAt(ValueReport(value).usage, RequestsName), CountAt(CheckpointReport(checkpoint).usage, RequestsName))
  }

  function MergedSpend(value: WorkerValue, checkpoint: Option<Report>): bool {
    ValueReport(value).spendStarted || CheckpointReport(checkpoint).spendStarted
  }

  /** Whatever the worker wrote or failed to write before it exited, the merged report never shows
      fewer requests than were sent, nor no spend after a send. */
  lemma MergedNeverUnderReports(limits: Limits, steps: seq<Step>, value: WorkerValue)
    ensures var w := After(limits, steps);
            w.sent > 0 ==>
              && MergedSpend(value, w.checkpoint)
              && MergedRequests(value, w.checkpoint).Some? && MergedRequests(value, w.checkpoint).value >= w.sent
  {
    hide After;
    AfterKeeps(limits, steps);
  }

  /** And with the worker's own result, or none, it shows at most one more, and stays within the limit,
      so the supervisor's own limit check never fires on it. */
  lemma MergedNeverOverReports(limits: Limits, steps: seq<Step>, value: WorkerValue)
    requires var w := After(limits, steps);
             value == Unreadable || (w.result.Some? && value == Value(w.result.value)) || (value.Value? && value.report.usage == map[])
    ensures var w := After(limits, steps); var requests := MergedRequests(value, w.checkpoint);
            requests.Some? ==> requests.value <= w.sent + 1 && requests.value <= limits.maxProviderRequests
  {
    hide After;
    AfterKeeps(limits, steps);
  }

  /** A side of the merge that is there and states this count under this name. */
  predicate Reports(r: Report, name: string, n: nat) { name in r.usage && r.usage[name] == n }

  predicate WorkerReports(value: WorkerValue, name: string, n: nat) { value.Value? && Reports(value.report, name, n) }

  predicate CheckpointReports(checkpoint: Option<Report>, name: string, n: nat) {
    checkpoint.Some? && Reports(checkpoint.value, name, n)
  }

  /** Under every name the merged count is a count that one of the two sides reports and that neither
      side exceeds; there is none exactly when neither side reports one. */
  lemma MergedCountIff(value: WorkerValue, checkpoint: Option<Report>, name: string, n: nat)
    ensures var merged := MaxCount(CountAt(ValueReport(value).usage, name), CountAt(CheckpointReport(checkpoint).usage, name));
            merged == Some(n) <==>
            && (WorkerReports(value, name, n) || CheckpointReports(checkpoint, name, n))
            && forall m: nat | m > n :: !WorkerReports(value, name, m) && !CheckpointReports(checkpoint, name, m)
  {
    var worker, saved := CountAt(ValueReport(value).usage, name), CountAt(CheckpointReport(checkpoint).usage, name);
    assert worker.Some? ==> WorkerReports(value, name, worker.value);
    assert saved.Some? ==> CheckpointReports(checkpoint, name, saved.value);
  }

  /** Spend shows exactly when one side that is there says so. */
  lemma MergedSpendIff(value: WorkerValue, checkpoint: Option<Report>)
    ensures MergedSpend(value, checkpoint) <==>
            (value.Value? && value.report.spendStarted) || (checkpoint.Some? && checkpoint.value.spendStarted)
  {
  }

  /** The names that the merged report goes through. */
  lemma MergedNames()
    ensures (set name <- UsageNames) ==
            {"inputTokens", "outputTokens", "cacheReadTokens", "cacheWriteTokens", "providerRequests", "toolCalls", "turns"}
  {
    assert UsageNames[0] in UsageNames && UsageNames[1] in UsageNames && UsageNames[2] in UsageNames && UsageNames[3] in UsageNames;
    assert UsageNames[4] in UsageNames && UsageNames[5] in UsageNames && UsageNames[6] in UsageNames;
  }

  /** The next request goes ahead exactly when no observed token count has reached its limit and neither
      the turns nor the requests have. */
  lemma BeginsIff(limits: Limits, w: Worker, observed: Option<Tokens>)
    requires w.phase.Waiting?
    ensures var after := Apply(limits, w, Begin(observed));
            var spent := observed.Some? && (
              (exists n: nat :: observed.value.input == Some(n) && n >= limits.maxInputTokens)
              || (exists n: nat :: observed.value.output == Some(n) && n >= limits.maxOutputTokens));
            && (after.phase.Counted? <==> !spent && w.turns < limits.maxTurns && w.requests < limits.maxProviderRequests)
            && (after.phase.Counted? ==> after.requests == w.requests + 1 && after.turns == w.turns + 1)
            && (!after.phase.Counted? ==> after == w.(phase := Handling))
  {
  }

  /** `n` requests without a mishap, and then the end. */
  function Requested(n: nat): seq<Step> {
    if n == 0 then [] else Requested(n - 1) + [Begin(None), Save, Send]
  }

  lemma AfterPush(limits: Limits, steps: seq<Step>, step: Step)
    ensures After(limits, steps + [step]) == Apply(limits, After(limits, steps), step)
  {
    assert (steps + [step])[..|steps|] == steps;
  }

  lemma AfterThree(limits: Limits, steps: seq<Step>, a: Step, b: Step, c: Step)
    ensures After(limits, steps + [a, b, c]) == Apply(limits, Apply(limits, Apply(limits, After(limits, steps), a), b), c)
  {
    hide After, Apply;
    assert steps + [a, b, c] == steps + [a] + [b] + [c];
    AfterPush(limits, steps, a);
    AfterPush(limits, steps + [a], b);
    AfterPush(limits, steps + [a] + [b], c);
  }

  lemma {:induction false} UndisturbedRequests(limits: Limits, n: nat)
    requires n <= limits.maxTurns && n <= limits.maxProviderRequests
    ensures var saved := Report(true, UsageOf(n, n));
            After(limits, Requested(n)) == Worker(Waiting, n, n, n > 0, n, if n == 0 then None else Some(saved), None)
  {
    hide After, UsageOf;
    if n > 0 {
      UndisturbedRequests(limits, n - 1);
      AfterThree(limits, Requested(n - 1), Begin(None), Save, Send);
    } else {
      NoSteps(limits);
    }
  }

  lemma NoSteps(limits: Limits)
    ensures After(limits, []) == Fresh
  {
  }

  /** A worker that sends `n` requests without a mishap and writes its result is reported with exactly
      those, and with spend exactly when there were any; dying right after the last one instead, it is
      reported in the same way from its checkpoint alone. */
  lemma UndisturbedIsExact(limits: Limits, n: nat)
    requires n <= limits.maxTurns && n <= limits.maxProviderRequests
    ensures var w := After(limits, Requested(n) + [UsageSaves, Finish, WriteResult]);
            && w.phase.Exited? && w.sent == n && w.result.Some?
            && MergedRequests(Value(w.result.value), w.checkpoint) == Some(n)
            && (MergedSpend(Value(w.result.value), w.checkpoint) <==> n > 0)
    ensures var w := After(limits, Requested(n) + [Kill]);
            && w.phase.Exited? && w.sent == n && w.result.None?
            && (n > 0 ==> MergedRequests(Unreadable, w.checkpoint) == Some(n))
            && (MergedSpend(Unreadable, w.checkpoint) <==> n > 0)
  {
    hide After;
    UndisturbedRequests(limits, n);
    AfterThree(limits, Requested(n), UsageSaves, Finish, WriteResult);
    AfterPush(limits, Requested(n), Kill);
  }

  /** A token update is checkpointed with what was counted so far, once a request has been sent; when that fails the work
      ends. */
  lemma TokenUpdateTells(limits: Limits, w: Worker)
    requires w.phase.Waiting?
    ensures w.sent == 0 ==> Apply(limits, w, UsageSaves) == Apply(limits, w, UsageSaveFails) == w
    ensures w.sent > 0 ==>
              && Apply(limits, w, UsageSaves) == w.(checkpoint := Some(Report(w.spendStarted, UsageOf(w.requests, w.turns))))
              && Apply(limits, w, UsageSaveFails) == w.(phase := Handling)
  {
    hide UsageOf;
  }

  /** A mishap ends the work: the request that was counted is reported by the handler's checkpoint and
      result, unless saving that fails as well; then the result says nothing was spent. */
  lemma MishapIsReported(limits: Limits, w: Worker, mishap: Step)
    requires (mishap.SaveFails? && w.phase.Counted?) || (mishap.SendFails? && w.phase.Saved?) || (mishap.Fail? && w.phase.Waiting?)
    ensures var handled := Apply(limits, Apply(limits, Apply(limits, w, mishap), HandlerSaves), WriteResult);
            && handled.phase.Exited? && handled.checkpoint == handled.result == Some(Report(w.spendStarted, UsageOf(w.requests, w.turns)))
            && handled.sent == w.sent + if mishap == SendFails(true) then 1 else 0
    ensures var lost := Apply(limits, Apply(limits, Apply(limits, w, mishap), HandlerFails), WriteResult);
            lost.phase.Exited? && lost.checkpoint == w.checkpoint && lost.result == Some(Report(false, UsageOf(0, 0)))
  {
    hide UsageOf;
  }

  /** `_write_rejected`: what is reported when the supervisor itself fails. */
  function RejectedReport(checkpoint: Option<Report>): (bool, nat) {
    if checkpoint.Some? && checkpoint.value.spendStarted then
      (true, match CountAt(checkpoint.value.usage, RequestsName) case Some(n) => n case None => 0)
    else (false, 0)
  }

  /** It is what the checkpoint says, where that says that spend has started, and nothing otherwise. */
  lemma RejectedIff(checkpoint: Option<Report>, n: nat)
    ensures var (spend, requests) := RejectedReport(checkpoint);
            && (spend <==> checkpoint.Some? && checkpoint.value.spendStarted)
            && (requests == n <==>
                  (spend && CheckpointReports(checkpoint, RequestsName, n))
                  || (n == 0 && !(spend && exists m: nat :: CheckpointReports(checkpoint, RequestsName, m))))
  {
    var found := CountAt(CheckpointReport(checkpoint).usage, RequestsName);
    assert found.Some? ==> CheckpointReports(checkpoint, RequestsName, found.value);
  }

  /** Even then, what was sent before the checkpoint was read is reported, at most one ahead. */
  lemma RejectedNeverUnderReports(limits: Limits, steps: seq<Step>)
    ensures var w := After(limits, steps); var (spend, requests) := RejectedReport(w.checkpoint);
            w.sent <= requests <= w.sent + 1 && (w.sent > 0 ==> spend)
  {
    hide After;
    AfterKeeps(limits, steps);
  }
}
