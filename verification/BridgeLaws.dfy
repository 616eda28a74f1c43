/** What the bridge reads from a transcript, told on its rows and action by action. */
module BridgeLaws {
  import opened Outcomes
  import opened Json
  import opened Retention
  import opened Bridge
  import opened DenialLaws
  import opened ReductionLaws
  import A = Admission
  import RC = RepairCandidate
  import SizeBudgets

  // ---------------------------------------------------------------- rows

  /** Row `k` is the only result row. */
  predicate OnlyResult(rows: seq<Row>, k: nat) {
    k < |rows| && ResultRow(rows[k]) && forall i | 0 <= i < |rows| && i != k :: !ResultRow(rows[i])
  }

  lemma TerminalIff(rows: seq<Row>, k: nat)
    ensures Terminal(rows) == Some(k) <==> OnlyResult(rows, k)
    ensures Terminal(rows) == Some(k) ==> (TrailingRows(rows) <==> k + 1 < |rows|)
  {
    var f := First(IsResult, rows, 0);
    if f < |rows| {
      var g := First(IsResult, rows, f + 1);
      assert IsResult(rows[f]) && (g < |rows| ==> IsResult(rows[g]));
      forall i | 0 <= i < |rows| && i != f && g == |rows| ensures !IsResult(rows[i]) {}
    }
    assert forall i | 0 <= i < |rows| :: IsResult(rows[i]) <==> ResultRow(rows[i]);
  }

  /** Every init row names this model, and one of them stands before row `k`; `repeated` says that there are two. */
  predicate NamesModel(rows: seq<Row>, k: nat, model: string, repeated: bool) {
    && model != ""
    && (exists i | 0 <= i < |rows| :: i < k && InitRow(rows[i]))
    && (forall i | 0 <= i < |rows| && InitRow(rows[i]) :: Says(rows[i], "model", Str(model)))
    && (repeated <==> exists i, j | 0 <= i < j < |rows| :: InitRow(rows[i]) && InitRow(rows[j]))
  }

  lemma InitIs(row: Row)
    ensures IsInit(row) <==> InitRow(row)
  {
  }

  lemma ModelIff(rows: seq<Row>, k: nat, model: string, repeated: bool)
    ensures ObservedModel(rows, Some(k)) == Model(model, repeated) <==> NamesModel(rows, k, model, repeated)
    ensures ObservedModel(rows, None) == NoModel
  {
    hide IsInit, InitRow;
    forall i | 0 <= i < |rows| ensures IsInit(rows[i]) <==> InitRow(rows[i]) { InitIs(rows[i]); }
    var f := First(IsInit, rows, 0);
    if f < |rows| {
      assert IsInit(rows[f]) && InitRow(rows[f]);
      var g := First(IsInit, rows, f + 1);
      if g < |rows| { assert IsInit(rows[g]) && InitRow(rows[g]); }
      assert Says(rows[f], "model", Str(model)) <==> Field(rows[f], "model") == Str(model);
      assert forall i | 0 <= i < |rows| :: Says(rows[i], "model", Str(model)) <==> Field(rows[i], "model") == Str(model);
    }
  }

  /** The places of all tool calls. */
  ghost predicate AllCalls(rows: seq<Row>, places: set<(nat, nat)>) {
    forall r: nat, i: nat :: (r, i) in places <==> IsCall(rows, r, i)
  }

  lemma RowCalls(rows: seq<Row>, r: nat) returns (places: set<(nat, nat)>)
    requires r < |rows|
    ensures forall x: nat, i: nat :: (x, i) in places <==> x == r && IsCall(rows, r, i)
    ensures |places| == ToolUseCount(Content(rows[r], "assistant"))
  {
    hide Content, IsCall, CallAt;
    var items := Content(rows[r], "assistant");
    CallCount(items);
    var calls := Calls(items);
    places := InRow(r, calls);
    PairCount(r, calls);
    forall x: nat, i: nat ensures (x, i) in places <==> x == r && IsCall(rows, r, i) {
      CallHasPlace(rows, r, i);
    }
  }

  lemma CallHasPlace(rows: seq<Row>, r: nat, i: nat)
    requires r < |rows|
    ensures IsCall(rows, r, i) <==> i in Calls(Content(rows[r], "assistant"))
  {
    hide Content;
    ContentIs(rows, r, "assistant");
    hide HasItem, ItemAt;
  }

  function InRow(r: nat, items: set<nat>): set<(nat, nat)> { set i | i in items :: (r, i) }

  lemma PairCount(r: nat, items: set<nat>)
    ensures |InRow(r, items)| == |items|
  {
    if items != {} {
      var k :| k in items;
      PairCount(r, items - {k});
      assert (r, k) !in InRow(r, items - {k});
      assert InRow(r, items) == InRow(r, items - {k}) + {(r, k)};
    }
  }

  lemma CallStays(rows: seq<Row>, r: nat, i: nat)
    requires r + 1 < |rows|
    ensures IsCall(rows[..|rows| - 1], r, i) <==> IsCall(rows, r, i)
  {
    assert rows[..|rows| - 1][r] == rows[r];
  }

  lemma CallInRange(rows: seq<Row>, r: nat, i: nat)
    ensures IsCall(rows, r, i) ==> r < |rows|
  {
  }

  /** The usage counts every tool call of the transcript once. */
  lemma {:induction false} ToolCallsAre(rows: seq<Row>) returns (places: set<(nat, nat)>)
    ensures AllCalls(rows, places) && |places| == ToolCalls(rows)
  {
    hide IsCall, Content, ToolUseCount;
    if rows == [] {
      places := {};
      forall r: nat, i: nat ensures !IsCall(rows, r, i) { CallInRange(rows, r, i); }
    } else {
      var n := |rows| - 1;
      var before := ToolCallsAre(rows[..n]);
      var last := RowCalls(rows, n);
      forall r: nat, i: nat
        ensures (r, i) in before <==> r < n && IsCall(rows, r, i)
      {
        CallInRange(rows[..n], r, i);
        if r < n { CallStays(rows, r, i); }
      }
      forall place | place in before ensures place !in last { assert place == (place.0, place.1); }
      places := before + last;
      forall r: nat, i: nat ensures (r, i) in places <==> IsCall(rows, r, i) { CallInRange(rows, r, i); }
    }
  }

  predicate SaysCount(fields: map<string, Value>, name: string, n: nat) { Says(fields, name, Int(n)) }

  /** A count that the result row states under `name`, in its usage or itself. */
  predicate StatesUsage(row: Row, name: string, n: nat) {
    "usage" in row && row["usage"].Obj? && SaysCount(row["usage"].fields, name, n)
  }

  /** The usage says what the result row states, zero turns where it states none, and otherwise nothing. */
  lemma UsageTells(rows: seq<Row>, row: Row, n: nat)
    ensures var usage := UsageOf(rows, Some(row));
            && (usage.inputTokens == Some(n) <==> StatesUsage(row, "input_tokens", n))
            && (usage.outputTokens == Some(n) <==> StatesUsage(row, "output_tokens", n))
            && (usage.cacheReadTokens == Some(n) <==> StatesUsage(row, "cache_read_input_tokens", n))
            && (usage.cacheWriteTokens == Some(n) <==> StatesUsage(row, "cache_creation_input_tokens", n))
            && (usage.turns == n <==> SaysCount(row, "num_turns", n) || (n == 0 && forall m: nat :: !SaysCount(row, "num_turns", m)))
            && usage.toolCalls == ToolCalls(rows)
    ensures UsageOf(rows, None) == Usage(None, None, None, None, ToolCalls(rows), 0)
  {
    if IsCount(Field(row, "num_turns")) { assert SaysCount(row, "num_turns", Field(row, "num_turns").n); }
  }

  // ---------------------------------------------------------------- what is delivered

  /** The run succeeded: its result row is no error and says so. */
  lemma SucceededIff(row: Row)
    ensures Succeeded(row) <==> Says(row, "is_error", Bool(false)) && Says(row, "subtype", Str("success"))
  {
  }

  /** The duration is accepted exactly when it is an integer from zero to the most. */
  lemma TimingTells(row: Row, most: nat)
    ensures var timing := TimingVariance(Some(row), most);
            && (timing == TimingAbsent <==> "duration_ms" !in row)
            && (timing == TimingNonInteger <==> "duration_ms" in row && forall n :: !Says(row, "duration_ms", Int(n)))
            && (timing == TimingAccepted <==> exists n: nat :: Says(row, "duration_ms", Int(n)) && n <= most)
            && (timing == TimingOutOfRange <==> exists n :: Says(row, "duration_ms", Int(n)) && !(0 <= n <= most))
    ensures TimingVariance(None, most) == TimingUnknown
  {
    if "duration_ms" in row && row["duration_ms"].Int? {
      assert Says(row, "duration_ms", Int(row["duration_ms"].n));
    }
  }

  /** The text of a result row that is no error. */
  predicate HasText(row: Row, readers: Readers, text: string) {
    if Says(row, "is_error", Bool(false)) && "result" in row && row["result"].Str?
    then text == readers.strip(row["result"].s)
    else text == ""
  }

  /** What the reply text is read as, by action: a bare object, an object that may be wrapped in prose, one in a
      code fence, or the text itself. */
  datatype Reading = AsObject | Wrapped | Fenced | AsText

  function ReadingOf(action: string): Reading
    requires action in A.Actions
  {
    if action == "nl-decision.local" || action == "nl-decision.search" then AsObject
    else if action == "deep-review.local" || action == "deep-review.search" then AsText
    else if action == "nl-decision.schema-repair" then Fenced
    else Wrapped
  }

  function ReadText(action: string, text: string, readers: Readers): Option<Value>
    requires action in A.Actions
  {
    match ReadingOf(action)
    case AsText => Some(Obj(map["text" := Str(text)]))
    case Wrapped => readers.extractObject(text)
    case AsObject => OnlyObject(readers.loads(text))
    case Fenced => OnlyObject(readers.loads(readers.unfence(text)))
  }

  function OnlyObject(v: Option<Value>): Option<Value> {
    match v case Some(Obj(fields)) => Some(Obj(fields)) case _ => None
  }

  /** The two decisions take the structured output and never a file; every other action a file when there is one; and
      else the text, when there is any, is read as the action demands. */
  lemma DeliveredTells(action: string, row: Row, file: Option<Option<Value>>, readers: Readers, text: string)
    requires action in A.Actions && HasText(row, readers, text)
    ensures var native := action == "nl-decision.local" || action == "nl-decision.search";
            Delivered(action, row, file, readers) ==
            if native && "structured_output" in row then Some(row["structured_output"])
            else if !native && file.Some? then file.value
            else if text == "" then None
            else ReadText(action, text, readers)
  {
    hide A.Actions;
    ActionKinds(action);
    hide NativeStructured, Extracts;
    assert text == ResultText(Some(row), readers);
  }

  lemma ActionKinds(action: string)
    requires action in A.Actions
    ensures NativeStructured(action) <==> action == "nl-decision.local" || action == "nl-decision.search"
    ensures "deep-review" <= action <==> action == "deep-review.local" || action == "deep-review.search"
    ensures !NativeStructured(action) && !("deep-review" <= action) ==> (Extracts(action) <==> action != "nl-decision.schema-repair")
  {
    assert action[0] in {'t', 'd', 'n', 'm'};
    if action[0] == 't' {
      assert action[..7] == "triage.";
    } else if action[0] == 'd' {
      assert action[..11] == "deep-review";
    } else if action[0] == 'n' {
      assert action[..11] == "nl-decision";
    }
  }

  /** The actions that have budgets are exactly those that admit events. */
  lemma ActionNamesIff(name: string)
    ensures name in A.Actions <==> exists action :: RC.ActionName(action) == name
  {
    if name in A.Actions {
      assert RC.ActionName(SizeBudgets.TriagePrLocal) == "triage.pr.local" && RC.ActionName(SizeBudgets.TriagePrSearch) == "triage.pr.search";
      assert RC.ActionName(SizeBudgets.TriageIssueLocal) == "triage.issue.local";
      assert RC.ActionName(SizeBudgets.TriageIssueSearch) == "triage.issue.search";
      assert RC.ActionName(SizeBudgets.TriageSchemaRepair) == "triage.schema-repair";
      assert RC.ActionName(SizeBudgets.DeepReviewLocal) == "deep-review.local";
      assert RC.ActionName(SizeBudgets.DeepReviewSearch) == "deep-review.search";
      assert RC.ActionName(SizeBudgets.NlDecisionLocal) == "nl-decision.local";
      assert RC.ActionName(SizeBudgets.NlDecisionSearch) == "nl-decision.search";
      assert RC.ActionName(SizeBudgets.NlDecisionSchemaRepair) == "nl-decision.schema-repair";
      assert RC.ActionName(SizeBudgets.MergeResolveConflicts) == "merge.resolve-conflicts";
    }
  }
}
