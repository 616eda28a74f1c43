/** Cross-job reduction of a transcript: which fields of which rows survive, and the denial evidence. */
module Retention {
  import opened Outcomes
  import opened Json
  import opened JsonSize
  import Utf8

  type Row = map<string, Value>

  const MaxDeniedInvocations := 8
  const MaxDeniedEvidenceBytes := 8192
  const MaxToolNameChars := 96

  /** The text sanitizers and the denial-wording test, which this model does not look into. */
  datatype Wording = Wording(boundedText: Value -> string, requestShape: Value -> Value, denialMarker: string -> bool)

  // ---------------------------------------------------------------- reading rows

  /** `row.get(key)` */
  function Field(row: Row, key: string): Value {
    if key in row then row[key] else Null
  }

  predicate HasType(row: Row, name: string) {
    Field(row, "type") == Str(name)
  }

  predicate IsResult(row: Row) { HasType(row, "result") }

  predicate IsInit(row: Row) { HasType(row, "system") && Field(row, "subtype") == Str("init") }

  predicate IsMarker(row: Row) { HasType(row, "wheelhouse.tool_denials") }

  /** The message content of an assistant or user row, when it is a list. */
  function Content(row: Row, name: string): seq<Value> {
    if HasType(row, name) && Field(row, "message").Obj? && Field(Field(row, "message").fields, "content").Arr?
    then Field(Field(row, "message").fields, "content").items
    else []
  }

  predicate IsToolUse(item: Value) { item.Obj? && HasType(item.fields, "tool_use") }

  /** `isinstance(value, int) and not isinstance(value, bool) and value >= 0` */
  predicate IsCount(v: Value) { v.Int? && v.n >= 0 }

  /** The first index from `i` on whose row satisfies `p`, or the length. */
  function First(p: Row -> bool, rows: seq<Row>, i: nat): (k: nat)
    requires i <= |rows|
    ensures i <= k <= |rows|
    ensures k < |rows| ==> p(rows[k])
    ensures forall j | i <= j < k :: !p(rows[j])
    decreases |rows| - i
  {
    if i == |rows| || p(rows[i]) then i else First(p, rows, i + 1)
  }

  // ---------------------------------------------------------------- tool calls and their results

  datatype Use = Use(sequence: nat, id: string, tool: string, request: Value)

  function UseOf(item: Value, sequence: nat, w: Wording): Use
    requires item.Obj?
  {
    var id := Field(item.fields, "id");
    var name := w.boundedText(if "name" in item.fields then item.fields["name"] else Str(""));
    var tool := if |name| > MaxToolNameChars then name[..MaxToolNameChars] else name;
    Use(sequence, if id.Str? then id.s else "", if tool == "" then "unknown" else tool, w.requestShape(Field(item.fields, "input")))
  }

  function UsesIn(items: seq<Value>, sequence: nat, w: Wording): seq<Use> {
    if items == [] then []
    else
      var last := items[|items| - 1];
      UsesIn(items[..|items| - 1], sequence, w) + if IsToolUse(last) then [UseOf(last, sequence, w)] else []
  }

  /** Every tool call in transcript order, numbered by its row. */
  function Uses(rows: seq<Row>, w: Wording): seq<Use> {
    if rows == [] then []
    else Uses(rows[..|rows| - 1], w) + UsesIn(Content(rows[|rows| - 1], "assistant"), |rows|, w)
  }

  predicate IsToolResult(item: Value) { item.Obj? && HasType(item.fields, "tool_result") }

  function ResultId(item: Value): string
    requires item.Obj?
  {
    var id := Field(item.fields, "tool_use_id");
    if id.Str? then id.s else ""
  }

  predicate IsText(v: Value) { v.Obj? && Field(v.fields, "text").Str? }

  /** Some text piece of the tool result satisfies the denial wording. */
  predicate SaysDenied(raw: Value, w: Wording) {
    match raw
    case Str(s) => w.denialMarker(s)
    case Obj(fields) => Field(fields, "text").Str? && w.denialMarker(Field(fields, "text").s)
    case Arr(items) => exists i :: 0 <= i < |items| && IsText(items[i]) && w.denialMarker(Field(items[i].fields, "text").s)
    case _ => false
  }

  predicate IsDenial(item: Value, w: Wording)
    requires item.Obj?
  {
    Field(item.fields, "is_error") == Bool(true) && SaysDenied(Field(item.fields, "content"), w)
  }

  /** Ids of denied tool results; the empty id stands for results without one. */
  function DeniedIds(rows: seq<Row>, w: Wording): set<string> {
    set r, i | 0 <= r < |rows| && 0 <= i < |Content(rows[r], "user")| && IsToolResult(Content(rows[r], "user")[i])
               && IsDenial(Content(rows[r], "user")[i], w) :: ResultId(Content(rows[r], "user")[i])
  }

  function ResultIds(rows: seq<Row>): set<string> {
    set r, i | 0 <= r < |rows| && 0 <= i < |Content(rows[r], "user")| && IsToolResult(Content(rows[r], "user")[i])
               && ResultId(Content(rows[r], "user")[i]) != "" :: ResultId(Content(rows[r], "user")[i])
  }

  // ---------------------------------------------------------------- denial evidence

  /** The last result row, or an empty one. */
  function LastResult(rows: seq<Row>): Row {
    if rows == [] then map[]
    else if IsResult(rows[|rows| - 1]) then rows[|rows| - 1]
    else LastResult(rows[..|rows| - 1])
  }

  function DenialCount(rows: seq<Row>, w: Wording): nat {
    var count := Field(LastResult(rows), "permission_denials_count");
    if IsCount(count) then count.n else |DeniedIds(rows, w) - {""}|
  }

  function Denied(uses: seq<Use>, denied: set<string>): seq<Use> {
    if uses == [] then []
    else
      var last := uses[|uses| - 1];
      Denied(uses[..|uses| - 1], denied) + if last.id != "" && last.id in denied then [last] else []
  }

  function Unmatched(uses: seq<Use>, selected: seq<Use>, results: set<string>): seq<Use> {
    if uses == [] then []
    else
      var last := uses[|uses| - 1];
      Unmatched(uses[..|uses| - 1], selected, results)
      + if last !in selected && last.id != "" && last.id !in results then [last] else []
  }

  predicate DistinctIds(uses: seq<Use>) {
    forall i, j | 0 <= i < j < |uses| :: uses[i].id != uses[j].id
  }

  function Selected(rows: seq<Row>, w: Wording): seq<Use> {
    var uses := Uses(rows, w);
    var selected := Denied(uses, DeniedIds(rows, w));
    var unmatched := Unmatched(uses, selected, ResultIds(rows));
    var count := DenialCount(rows, w);
    if count > |selected| && count - |selected| == |unmatched| && DistinctIds(unmatched) then selected + unmatched else selected
  }

  function Invocation(u: Use): Value {
    Obj(map["sequence" := Int(u.sequence), "tool" := Str(u.tool), "request" := u.request])
  }

  function FirstInvocations(selected: seq<Use>): (inv: seq<Value>)
    ensures |inv| <= MaxDeniedInvocations
    ensures forall i | 0 <= i < |inv| :: i < |selected| && inv[i] == Invocation(selected[i])
  {
    var n := if |selected| > MaxDeniedInvocations then MaxDeniedInvocations else |selected|;
    seq(n, i requires 0 <= i < n => Invocation(selected[i]))
  }

  function Evidence(count: nat, invocations: seq<Value>): Value {
    Obj(map["version" := Int(1), "denialCount" := Int(count), "reason" := Str("permission_denied"), "invocations" := Arr(invocations)])
  }

  /** `json.dumps(value, sort_keys=True, separators=(",", ":")).encode()`: canonical text with every
      character outside printable ASCII written as one or two six-byte escapes. */
  function AsciiCost(c: char): nat {
    if 0x20 <= c as int <= 0x7E then 1 else if (c as int) < 0x1_0000 then 6 else 12
  }

  function DumpedLength(s: string): nat {
    if s == "" then 0 else AsciiCost(s[0]) + DumpedLength(s[1..])
  }

  function DumpedSize(v: Value): nat {
    DumpedLength(Render(v))
  }

  /** Drop the latest invocations until the evidence fits. */
  function Fitting(count: nat, invocations: seq<Value>): (kept: seq<Value>)
    ensures kept <= invocations
  {
    if DumpedSize(Evidence(count, invocations)) > MaxDeniedEvidenceBytes && invocations != []
    then Fitting(count, invocations[..|invocations| - 1])
    else invocations
  }

  function Capped(count: nat, invocations: seq<Value>): (n: nat)
    ensures n <= MaxDeniedInvocations
  {
    var m := if count >= |invocations| then count else |invocations|;
    if m > MaxDeniedInvocations then MaxDeniedInvocations else m
  }

  /** `denied_tool_evidence` */
  function DeniedToolEvidence(rows: seq<Row>, w: Wording): Option<Value> {
    var count := DenialCount(rows, w);
    var selected := Selected(rows, w);
    if count == 0 && selected == [] then None
    else
      var invocations := FirstInvocations(selected);
      var capped := Capped(count, invocations);
      Some(Evidence(capped, Fitting(capped, invocations)))
  }

  // ---------------------------------------------------------------- the reduction

  function Keep(row: Row, keys: set<string>): Row {
    map k | k in row && k in keys :: row[k]
  }

  const InitKeys := {"type", "subtype", "model"}
  const ResultKeys := {"type", "subtype", "is_error", "result", "duration_ms", "num_turns"}
  const TokenKeys := {"input_tokens", "output_tokens", "cache_read_input_tokens", "cache_creation_input_tokens"}

  function ToolUseCount(items: seq<Value>): nat {
    if items == [] then 0
    else ToolUseCount(items[..|items| - 1]) + if IsToolUse(items[|items| - 1]) then 1 else 0
  }

  const BareToolUse := Obj(map["type" := Str("tool_use")])

  predicate KeepsStructured(action: string) {
    "nl-decision." <= action && action != "nl-decision.schema-repair"
  }

  function ReduceAssistant(row: Row): Row
    requires Field(row, "message").Obj?
  {
    var content := Field(Field(row, "message").fields, "content");
    if content.Arr? then
      map["type" := Str("assistant"),
          "message" := Obj(map["content" := Arr(seq(ToolUseCount(content.items), _ => BareToolUse))])]
    else map[]
  }

  function ReducedCount(row: Row): Row {
    var count := Field(row, "permission_denials_count");
    if count.Int? && count.n > 0 then map["permission_denials_count" := count] else map[]
  }

  function ReducedStructured(row: Row, action: string): Row {
    if KeepsStructured(action) && "structured_output" in row then map["structured_output" := row["structured_output"]] else map[]
  }

  function ReducedUsage(row: Row): Row {
    var usage := Field(row, "usage");
    if usage.Obj? then map["usage" := Obj(map k | k in TokenKeys :: Field(usage.fields, k))] else map[]
  }

  function ReduceRow(row: Row, action: string): Row {
    if IsInit(row) then Keep(row, InitKeys)
    else if HasType(row, "assistant") && Field(row, "message").Obj? then ReduceAssistant(row)
    else if IsResult(row) then Keep(row, ResultKeys) + ReducedCount(row) + ReducedStructured(row, action) + ReducedUsage(row)
    else map[]
  }

  function Bounded(rows: seq<Row>, action: string): seq<Row> {
    seq(|rows|, i requires 0 <= i < |rows| => ReduceRow(rows[i], action))
  }

  function Insert(rows: seq<Row>, at: nat, row: Row): seq<Row>
    requires at <= |rows|
  {
    rows[..at] + [row] + rows[at..]
  }

  function Marker(evidence: Value): Row {
    map["type" := Str("wheelhouse.tool_denials"), "data" := evidence]
  }

  /** `reduce_execution` on rows that are objects */
  function Reduce(rows: seq<Row>, action: string, w: Wording): seq<Row> {
    var bounded := Bounded(rows, action);
    match DeniedToolEvidence(rows, w)
    case None => bounded
    case Some(evidence) => Insert(bounded, First(IsResult, bounded, 0), Marker(evidence))
  }

  /** `reduce_execution`: anything but an array of objects is refused. */
  function ReduceExecution(data: Value, action: string, w: Wording): Option<seq<Row>> {
    if data.Arr? && forall i | 0 <= i < |data.items| :: data.items[i].Obj?
    then Some(Reduce(seq(|data.items|, i requires 0 <= i < |data.items| => data.items[i].fields), action, w))
    else None
  }

  // ---------------------------------------------------------------- reading the evidence back

  function Markers(rows: seq<Row>): seq<Value> {
    if rows == [] then []
    else Markers(rows[..|rows| - 1]) + if IsMarker(rows[|rows| - 1]) then [Field(rows[|rows| - 1], "data")] else []
  }

  /** `retained_tool_denials` */
  function RetainedToolDenials(rows: seq<Row>): Option<Value> {
    var matches := Markers(rows);
    if |matches| != 1 || !matches[0].Obj? then None
    else
      var fields := matches[0].fields;
      var version, count := Field(fields, "version"), Field(fields, "denialCount");
      if version != Int(1) && version != Bool(true) then None
      else if Field(fields, "reason") != Str("permission_denied") then None
      else if !(count.Int? || count.Bool?) || !Field(fields, "invocations").Arr? then None
      else if DumpedSize(matches[0]) > MaxDeniedEvidenceBytes then None
      else Some(matches[0])
  }
}
