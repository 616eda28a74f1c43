/** What the bridge reads from a transcript. */
module Bridge {
  import opened Outcomes
  import opened Json
  import opened Retention

  // ---------------------------------------------------------------- the terminal row

  /** The index of the result row, when there is exactly one. */
  function Terminal(rows: seq<Row>): Option<nat> {
    var k := First(IsResult, rows, 0);
    if k < |rows| && First(IsResult, rows, k + 1) == |rows| then Some(k) else None
  }

  function TerminalRow(rows: seq<Row>): Option<Row> {
    match Terminal(rows) case None => None case Some(k) => Some(rows[k])
  }

  predicate TrailingRows(rows: seq<Row>) {
    Terminal(rows).Some? && Terminal(rows).value != |rows| - 1
  }

  /** Every index whose row satisfies `p`, in order. */
  method IndexesOf(p: Row -> bool, rows: seq<Row>) returns (indexes: seq<nat>)
    ensures forall k | 0 <= k < |indexes| :: indexes[k] < |rows| && p(rows[indexes[k]])
    ensures forall j | 0 <= j < |rows| && p(rows[j]) :: j in indexes
    ensures var f := First(p, rows, 0);
            && (f == |rows| <==> indexes == [])
            && (f < |rows| ==> indexes != [] && indexes[0] == f && (First(p, rows, f + 1) < |rows| <==> |indexes| > 1))
  {
    indexes := [];
    for i := 0 to |rows|
      invariant forall k | 0 <= k < |indexes| :: indexes[k] < i && p(rows[indexes[k]])
      invariant forall a, b | 0 <= a < b < |indexes| :: indexes[a] < indexes[b]
      invariant forall j | 0 <= j < i && p(rows[j]) :: j in indexes
    {
      if p(rows[i]) { indexes := indexes + [i]; }
    }
    ghost var f := First(p, rows, 0);
    assert indexes != [] ==> p(rows[indexes[0]]);
    if f < |rows| {
      assert f in indexes;
      if |indexes| > 1 {
        assert p(rows[indexes[1]]);
      }
      if First(p, rows, f + 1) < |rows| {
        assert First(p, rows, f + 1) in indexes;
      }
    }
  }

  /** `_terminal_result`: collect every result index, then demand a single one. */
  method TerminalResult(rows: seq<Row>) returns (index: Option<nat>, trailing: bool)
    ensures index == Terminal(rows) && trailing == TrailingRows(rows)
  {
    var indexes := IndexesOf(IsResult, rows);
    if |indexes| != 1 {
      return None, false;
    }
    index, trailing := Some(indexes[0]), indexes[0] != |rows| - 1;
  }

  // ---------------------------------------------------------------- the observed model

  /** A named model: a non-empty string. */
  predicate IsModel(v: Value) { v.Str? && v.s != "" }

  datatype Observed = NoModel | Model(name: string, repeated: bool)

  /** Every init row names one and the same model, and one of them comes before the result. */
  function ObservedModel(rows: seq<Row>, result: Option<nat>): Observed {
    var f := First(IsInit, rows, 0);
    if result.None? || f == |rows| || f >= result.value then NoModel
    else
      var model := Field(rows[f], "model");
      if IsModel(model) && forall i | 0 <= i < |rows| && IsInit(rows[i]) :: Field(rows[i], "model") == model
      then Model(model.s, First(IsInit, rows, f + 1) < |rows|)
      else NoModel
  }

  /** The models that the given rows name, when each of them names one. */
  method ModelsAt(rows: seq<Row>, indexes: seq<nat>) returns (models: Option<seq<string>>)
    requires forall k | 0 <= k < |indexes| :: indexes[k] < |rows|
    ensures models == None ==> exists k :: 0 <= k < |indexes| && !IsModel(Field(rows[indexes[k]], "model"))
    ensures models.Some? ==> |models.value| == |indexes|
    ensures models.Some? ==> forall k | 0 <= k < |indexes| ::
                               Field(rows[indexes[k]], "model") == Str(models.value[k]) && models.value[k] != ""
  {
    var named: seq<string> := [];
    for k := 0 to |indexes|
      invariant |named| == k
      invariant forall j | 0 <= j < k :: Field(rows[indexes[j]], "model") == Str(named[j]) && named[j] != ""
    {
      var model := Field(rows[indexes[k]], "model");
      if !model.Str? || model.s == "" {
        return None;
      }
      named := named + [model.s];
    }
    models := Some(named);
  }

  /** `_observed_model` */
  method ObserveModel(rows: seq<Row>, result: Option<nat>) returns (observed: Observed)
    ensures observed == ObservedModel(rows, result)
  {
    hide First, Field, IsInit;
    var inits := IndexesOf(IsInit, rows);
    if inits == [] || result.None? {
      return NoModel;
    }
    var named := ModelsAt(rows, inits);
    if named == None {
      return NoModel;
    }
    var models := named.value;
    if !(exists k :: 0 <= k < |inits| && inits[k] < result.value) {
      assert inits[0] >= result.value;
      return NoModel;
    }
    assert First(IsInit, rows, 0) < result.value;
    for k := 1 to |models|
      invariant forall j | 0 <= j < k :: models[j] == models[0]
    {
      if models[k] != models[0] {
        assert IsInit(rows[inits[k]]);
        return NoModel;
      }
    }
    observed := Model(models[0], |inits| > 1);
  }

  // ---------------------------------------------------------------- timing, text, delivery

  datatype Timing = TimingUnknown | TimingAccepted | TimingAbsent | TimingNonInteger | TimingOutOfRange

  /** `_timing_variance` */
  function TimingVariance(terminal: Option<Row>, maxDurationMs: nat): Timing {
    match terminal
    case None => TimingUnknown
    case Some(row) =>
      if "duration_ms" !in row then TimingAbsent
      else
        var duration := row["duration_ms"];
        if !duration.Int? then TimingNonInteger
        else if 0 <= duration.n <= maxDurationMs then TimingAccepted
        else TimingOutOfRange
  }

  /** Text helpers of the host language that this model does not look into. */
  datatype Readers = Readers(
    strip: string -> string,
    loads: string -> Option<Value>,
    extractObject: string -> Option<Value>,
    unfence: string -> string)

  predicate NotAnError(terminal: Row) {
    Field(terminal, "is_error") == Bool(false)
  }

  /** The bridge treats the run as successful. */
  predicate Succeeded(terminal: Row) {
    NotAnError(terminal) && Field(terminal, "subtype") == Str("success")
  }

  /** `_result_text` */
  function ResultText(terminal: Option<Row>, readers: Readers): string {
    match terminal
    case None => ""
    case Some(row) =>
      if NotAnError(row) && Field(row, "result").Str? then readers.strip(Field(row, "result").s) else ""
  }

  /** `claude_native_structured_output` */
  predicate NativeStructured(action: string) {
    "nl-decision" <= action && action != "triage.schema-repair" && action != "nl-decision.schema-repair"
  }

  /** The reply may wrap its object: `action.startswith("triage.") or action in JSON_EMBEDDED_ACTIONS` */
  predicate Extracts(action: string) {
    "triage." <= action || action == "merge.resolve-conflicts"
  }

  function ObjectOnly(v: Option<Value>): Option<Value> {
    if v.Some? && v.value.Obj? then v else None
  }

  /** `_delivered`; `None` is any of its errors. A delivered file, when given, is `Some` of its content. */
  function Delivered(action: string, terminal: Row, file: Option<Option<Value>>, readers: Readers): Option<Value> {
    var text := ResultText(Some(terminal), readers);
    if NativeStructured(action) then
      if "structured_output" in terminal then Some(terminal["structured_output"])
      else if text == "" then None
      else ObjectOnly(readers.loads(text))
    else if file.Some? then file.value
    else if text == "" then None
    else if "deep-review" <= action then Some(Obj(map["text" := Str(text)]))
    else if Extracts(action) then readers.extractObject(text)
    else ObjectOnly(readers.loads(readers.unfence(text)))
  }

  // ---------------------------------------------------------------- usage

  datatype Usage = Usage(
    inputTokens: Option<nat>, outputTokens: Option<nat>,
    cacheReadTokens: Option<nat>, cacheWriteTokens: Option<nat>,
    toolCalls: nat, turns: nat)

  function ToolCalls(rows: seq<Row>): nat {
    if rows == [] then 0
    else ToolCalls(rows[..|rows| - 1]) + ToolUseCount(Content(rows[|rows| - 1], "assistant"))
  }

  function Token(terminal: Option<Row>, name: string): Option<nat> {
    if terminal.Some? && Field(terminal.value, "usage").Obj? && IsCount(Field(Field(terminal.value, "usage").fields, name))
    then Some(Field(Field(terminal.value, "usage").fields, name).n)
    else None
  }

  function Turns(terminal: Option<Row>): nat {
    if terminal.Some? && IsCount(Field(terminal.value, "num_turns")) then Field(terminal.value, "num_turns").n else 0
  }

  function UsageOf(rows: seq<Row>, terminal: Option<Row>): Usage {
    Usage(Token(terminal, "input_tokens"), Token(terminal, "output_tokens"),
          Token(terminal, "cache_read_input_tokens"), Token(terminal, "cache_creation_input_tokens"),
          ToolCalls(rows), Turns(terminal))
  }

  /** `_usage`, less its constant parts and the duration it is handed */
  method CollectUsage(rows: seq<Row>, terminal: Option<Row>) returns (usage: Usage)
    ensures usage == UsageOf(rows, terminal)
  {
    var toolCalls := 0;
    for i := 0 to |rows|
      invariant toolCalls == ToolCalls(rows[..i])
    {
      assert rows[..i + 1][..i] == rows[..i];
      toolCalls := toolCalls + ToolUseCount(Content(rows[i], "assistant"));
    }
    assert rows[..|rows|] == rows;
    var turns := 0;
    if terminal.Some? && IsCount(Field(terminal.value, "num_turns")) {
      turns := Field(terminal.value, "num_turns").n;
    }
    usage := Usage(Token(terminal, "input_tokens"), Token(terminal, "output_tokens"),
                   Token(terminal, "cache_read_input_tokens"), Token(terminal, "cache_creation_input_tokens"),
                   toolCalls, turns);
  }
}
