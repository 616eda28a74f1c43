/** What the reduction of a transcript leaves, key by key, and what its reader makes of the marker row. */
module ReductionLaws {
  import opened Outcomes
  import opened Json
  import opened Retention
  import opened DenialLaws

  // ---------------------------------------------------------------- one row

  predicate InitRow(row: Row) { Says(row, "type", Str("system")) && Says(row, "subtype", Str("init")) }

  predicate AssistantRow(row: Row) { Says(row, "type", Str("assistant")) && "message" in row && row["message"].Obj? }

  predicate ResultRow(row: Row) { Says(row, "type", Str("result")) }

  /** The items of the message content, if it is a list. */
  predicate HasContent(row: Row, items: seq<Value>) {
    AssistantRow(row) && Says(row["message"].fields, "content", Arr(items))
  }

  /** The positions of the tool calls in a list of items. */
  function Calls(items: seq<Value>): set<nat> {
    set i: nat | i < |items| && items[i].Obj? && Says(items[i].fields, "type", Str("tool_use"))
  }

  /** A list of `n` tool calls of which nothing but their kind is left. */
  predicate BareCalls(v: Value, n: nat) {
    && v.Arr? && |v.items| == n
    && forall i | 0 <= i < n :: v.items[i] == Obj(map["type" := Str("tool_use")])
  }

  /** What an assistant row keeps: its type and how many tools it calls. */
  ghost predicate AssistantKeeps(row: Row, key: string, v: Value) {
    exists items :: HasContent(row, items) &&
      (|| (key == "type" && v == Str("assistant"))
       || (key == "message" && v.Obj? && v.fields.Keys == {"content"} && BareCalls(v.fields["content"], |Calls(items)|)))
  }

  /** The usage that is kept: four token counts, null where one is missing. */
  predicate UsageKept(row: Row, v: Value) {
    && "usage" in row && row["usage"].Obj? && v.Obj?
    && v.fields.Keys == {"input_tokens", "output_tokens", "cache_read_input_tokens", "cache_creation_input_tokens"}
    && forall name | name in v.fields ::
         v.fields[name] == if name in row["usage"].fields then row["usage"].fields[name] else Null
  }

  /** What a result row keeps: six fields as they are, a positive count of denials, the structured output of a decision
      that is not itself a repair, and the token counts of its usage. */
  predicate ResultKeeps(row: Row, action: string, key: string, v: Value) {
    if key == "usage" then UsageKept(row, v)
    else
      && Says(row, key, v)
      && (|| key in {"type", "subtype", "is_error", "result", "duration_ms", "num_turns"}
          || (key == "permission_denials_count" && v.Int? && v.n > 0)
          || (key == "structured_output" && |action| >= 12 && action[..12] == "nl-decision." && action != "nl-decision.schema-repair"))
  }

  /** What is kept of a row: of any other kind, nothing. */
  ghost predicate Keeps(row: Row, action: string, key: string, v: Value) {
    if InitRow(row) then key in {"type", "subtype", "model"} && Says(row, key, v)
    else if AssistantRow(row) then AssistantKeeps(row, key, v)
    else if ResultRow(row) then ResultKeeps(row, action, key, v)
    else false
  }

  lemma {:induction false} CallCount(items: seq<Value>)
    ensures ToolUseCount(items) == |Calls(items)|
  {
    if items == [] {
      assert Calls(items) == {};
    } else {
      var n := |items| - 1;
      CallCount(items[..n]);
      if IsToolUse(items[n]) {
        assert Calls(items) == Calls(items[..n]) + {n};
      } else {
        assert Calls(items) == Calls(items[..n]);
      }
    }
  }

  lemma AssistantTells(row: Row, key: string, v: Value)
    requires AssistantRow(row)
    ensures Says(ReduceAssistant(row), key, v) <==> AssistantKeeps(row, key, v)
  {
    hide ToolUseCount, Calls;
    var content := Field(row["message"].fields, "content");
    if content.Arr? {
      CallCount(content.items);
      assert HasContent(row, content.items);
      if key == "message" && AssistantKeeps(row, key, v) {
        assert v.fields["content"].items == seq(ToolUseCount(content.items), _ => BareToolUse);
        assert v.fields == map["content" := v.fields["content"]];
      }
    } else {
      assert forall items :: !HasContent(row, items);
    }
  }

  lemma UsageTells(row: Row, v: Value)
    ensures Says(ReducedUsage(row), "usage", v) <==> UsageKept(row, v)
  {
    if UsageKept(row, v) {
      assert v.fields == map k | k in TokenKeys :: Field(row["usage"].fields, k);
    }
  }

  lemma SaysSum(a: Row, b: Row, key: string, v: Value)
    ensures Says(a + b, key, v) <==> if key in b then Says(b, key, v) else Says(a, key, v)
  {
  }

  lemma CountTells(row: Row, key: string, v: Value)
    ensures key in ReducedCount(row) ==> key == "permission_denials_count"
    ensures Says(ReducedCount(row), key, v) <==> key == "permission_denials_count" && Says(row, key, v) && v.Int? && v.n > 0
  {
  }

  lemma StructuredTells(row: Row, action: string, key: string, v: Value)
    ensures key in ReducedStructured(row, action) ==> key == "structured_output"
    ensures Says(ReducedStructured(row, action), key, v) <==>
            && key == "structured_output" && Says(row, key, v)
            && |action| >= 12 && action[..12] == "nl-decision." && action != "nl-decision.schema-repair"
  {
    assert "nl-decision." <= action <==> |action| >= 12 && action[..12] == "nl-decision.";
  }

  lemma KeepTells(row: Row, key: string, v: Value)
    ensures Says(Keep(row, ResultKeys), key, v) <==>
            key in {"type", "subtype", "is_error", "result", "duration_ms", "num_turns"} && Says(row, key, v)
  {
  }

  lemma ResultTells(row: Row, action: string, key: string, v: Value)
    requires ResultRow(row)
    ensures Says(Keep(row, ResultKeys) + ReducedCount(row) + ReducedStructured(row, action) + ReducedUsage(row), key, v) <==>
            ResultKeeps(row, action, key, v)
  {
    hide ReducedUsage, UsageKept, ReducedCount, ReducedStructured, Keep, KeepsStructured, Says;
    var kept, count, structured, usage :=
      Keep(row, ResultKeys), ReducedCount(row), ReducedStructured(row, action), ReducedUsage(row);
    UsageOnly(row);
    UsageTells(row, v);
    CountTells(row, key, v);
    StructuredTells(row, action, key, v);
    KeepTells(row, key, v);
    Present(usage, key, v);
    Present(count, key, v);
    Present(structured, key, v);
    SaysSum(kept + count + structured, usage, key, v);
    SaysSum(kept + count, structured, key, v);
    SaysSum(kept, count, key, v);
    NamesApart(key);
  }

  lemma Present(row: Row, key: string, v: Value)
    ensures Says(row, key, v) ==> key in row
  {
  }

  lemma NamesApart(key: string)
    ensures key in {"usage", "permission_denials_count", "structured_output"} ==>
              key !in {"type", "subtype", "is_error", "result", "duration_ms", "num_turns"}
    ensures "usage" != "permission_denials_count" && "usage" != "structured_output" && "permission_denials_count" != "structured_output"
  {
    assert |"usage"| == 5 && |"permission_denials_count"| == 24 && |"structured_output"| == 17;
    assert |"type"| == 4 && |"subtype"| == 7 && |"is_error"| == 8 && |"result"| == 6 && |"duration_ms"| == 11 && |"num_turns"| == 9;
  }

  lemma UsageOnly(row: Row)
    ensures ReducedUsage(row).Keys <= {"usage"}
  {
  }

  /** Each key of a reduced row is one that its kind keeps, with the value it keeps; and each of those is there. */
  lemma ReducedRowTells(row: Row, action: string, key: string, v: Value)
    ensures Says(ReduceRow(row, action), key, v) <==> Keeps(row, action, key, v)
  {
    hide ReduceAssistant, AssistantKeeps, ResultKeeps, ReducedCount, ReducedStructured, ReducedUsage;
    if InitRow(row) {
    } else if AssistantRow(row) {
      AssistantTells(row, key, v);
    } else if ResultRow(row) {
      ResultTells(row, action, key, v);
    }
  }

  // ---------------------------------------------------------------- the whole transcript

  /** The reduced rows, with one more before the first result row or at the end. */
  predicate WithMarker(rows: seq<Row>, action: string, out: seq<Row>, at: nat, evidence: Value) {
    && at <= |rows| && (at < |rows| ==> ResultRow(rows[at])) && (forall i | 0 <= i < at :: !ResultRow(rows[i]))
    && |out| == |rows| + 1 && out[at] == map["type" := Str("wheelhouse.tool_denials"), "data" := evidence]
    && (forall i | 0 <= i < at :: out[i] == ReduceRow(rows[i], action))
    && (forall i | at <= i < |rows| :: out[i + 1] == ReduceRow(rows[i], action))
  }

  /** Row for row the reduced rows, and with evidence one row that tells it. */
  lemma ReductionTells(rows: seq<Row>, action: string, w: Wording)
    ensures var out := Reduce(rows, action, w);
            match DeniedToolEvidence(rows, w)
            case None => |out| == |rows| && forall i | 0 <= i < |rows| :: out[i] == ReduceRow(rows[i], action)
            case Some(evidence) => exists at: nat :: WithMarker(rows, action, out, at, evidence)
  {
    hide DeniedToolEvidence, ReduceRow, WithMarker, Insert, Marker, Bounded, First;
    var bounded := Bounded(rows, action);
    BoundedRows(rows, action);
    if DeniedToolEvidence(rows, w).Some? {
      var at, evidence := First(IsResult, bounded, 0), DeniedToolEvidence(rows, w).value;
      MarkerInserted(rows, action, bounded, at, evidence);
      assert Reduce(rows, action, w) == Insert(bounded, at, Marker(evidence));
    }
  }

  lemma BoundedRows(rows: seq<Row>, action: string)
    ensures var bounded := Bounded(rows, action);
            |bounded| == |rows| && forall i | 0 <= i < |rows| ::
              bounded[i] == ReduceRow(rows[i], action) && (IsResult(bounded[i]) <==> ResultRow(rows[i]))
  {
    hide ReduceRow, IsResult, ResultRow;
    forall i | 0 <= i < |rows| ensures IsResult(Bounded(rows, action)[i]) <==> ResultRow(rows[i]) { ResultStays(rows[i], action); }
  }

  lemma MarkerInserted(rows: seq<Row>, action: string, bounded: seq<Row>, at: nat, evidence: Value)
    requires bounded == Bounded(rows, action) && at == First(IsResult, bounded, 0)
    requires forall i | 0 <= i < |rows| :: IsResult(bounded[i]) <==> ResultRow(rows[i])
    ensures WithMarker(rows, action, Insert(bounded, at, Marker(evidence)), at, evidence)
  {
    hide ReduceRow, IsResult, ResultRow;
    var out := Insert(bounded, at, Marker(evidence));
    assert forall i | 0 <= i < at :: out[i] == bounded[i];
    assert forall i | at <= i < |rows| :: out[i + 1] == bounded[i];
  }

  lemma ResultStays(row: Row, action: string)
    ensures IsResult(ReduceRow(row, action)) <==> ResultRow(row)
  {
    hide Keeps, ReduceRow;
    ReducedRowTells(row, action, "type", Str("result"));
    KindStays(row, action);
  }

  lemma KindStays(row: Row, action: string)
    ensures Keeps(row, action, "type", Str("result")) <==> ResultRow(row)
  {
  }

  // ---------------------------------------------------------------- the size of the evidence

  /** A character of JSON text as it is written in ASCII: itself when printable, else one escaped code unit or, above
      the basic plane, two. */
  function InAscii(c: char): string {
    var n := c as int;
    if 0x20 <= n <= 0x7E then [c]
    else if n < 0x1_0000 then Unit(n)
    else Unit(0xD800 + (n - 0x1_0000) / 0x400) + Unit(0xDC00 + (n - 0x1_0000) % 0x400)
  }

  /** A backslash, the letter u and four hexadecimal digits. */
  function Unit(n: int): string
    requires 0 <= n < 0x1_0000
  {
    "\\u" + [HexDigit(n / 0x1000), HexDigit(n / 0x100 % 0x10), HexDigit(n / 0x10 % 0x10), HexDigit(n % 0x10)]
  }

  function AllAscii(s: string): string { if s == "" then "" else InAscii(s[0]) + AllAscii(s[1..]) }

  /** The size that the evidence is measured by is the length of its canonical text in ASCII. */
  lemma {:induction false} DumpedIsAscii(s: string)
    ensures DumpedLength(s) == |AllAscii(s)|
  {
    if s != "" { DumpedIsAscii(s[1..]); }
  }

  // ---------------------------------------------------------------- reading the marker row

  predicate MarkerRow(row: Row) { Says(row, "type", Str("wheelhouse.tool_denials")) }

  /** The only marker row is row `k`. */
  predicate OnlyMarker(rows: seq<Row>, k: nat) {
    k < |rows| && MarkerRow(rows[k]) && forall i | 0 <= i < |rows| && i != k :: !MarkerRow(rows[i])
  }

  /** Evidence as the reader demands it; a version of true passes for 1 and a boolean for a count. */
  predicate ReadableEvidence(v: Value) {
    && v.Obj? && (Says(v.fields, "version", Int(1)) || Says(v.fields, "version", Bool(true)))
    && Says(v.fields, "reason", Str("permission_denied"))
    && "denialCount" in v.fields && (v.fields["denialCount"].Int? || v.fields["denialCount"].Bool?)
    && "invocations" in v.fields && v.fields["invocations"].Arr?
    && |AllAscii(Render(v))| <= 8192
  }

  /** The marker rows, by position. */
  lemma {:induction false} MarkersAre(rows: seq<Row>) returns (at: seq<nat>)
    ensures |at| == |Markers(rows)| && forall k | 0 <= k < |at| ::
              at[k] < |rows| && MarkerRow(rows[at[k]]) && Markers(rows)[k] == Field(rows[at[k]], "data")
    ensures forall j, k | 0 <= j < k < |at| :: at[j] < at[k]
    ensures forall i: nat | i < |rows| && MarkerRow(rows[i]) :: i in at
  {
    if rows == [] {
      at := [];
    } else {
      var n := |rows| - 1;
      var init := rows[..n];
      var before := MarkersAre(init);
      assert MarkerRow(rows[n]) <==> IsMarker(rows[n]);
      at := before + if IsMarker(rows[n]) then [n] else [];
      forall i: nat | i < |rows| && MarkerRow(rows[i]) ensures i in at {
        if i < n { assert init[i] == rows[i]; }
      }
    }
  }

  /** The reader returns the data of the one marker row, if it is evidence it can read; two such rows, none or any other
      data give nothing. */
  lemma RetainedIff(rows: seq<Row>, v: Value)
    ensures RetainedToolDenials(rows) == Some(v) <==>
            ReadableEvidence(v) && exists k: nat :: OnlyMarker(rows, k) && Says(rows[k], "data", v)
  {
    hide Markers, Render, DumpedLength, AllAscii, MarkerRow;
    var at := MarkersAre(rows);
    DumpedIsAscii(Render(v));
    if |at| == 1 {
      assert OnlyMarker(rows, at[0]);
    }
    if k: nat :| OnlyMarker(rows, k) {
      assert k in at;
      SameMarkers(rows, at, k);
    }
  }

  lemma SameMarkers(rows: seq<Row>, at: seq<nat>, k: nat)
    requires OnlyMarker(rows, k) && k in at
    requires forall j | 0 <= j < |at| :: at[j] < |rows| && MarkerRow(rows[at[j]])
    requires |at| > 1 ==> at[0] < at[1]
    ensures at == [k]
  {
    hide MarkerRow;
    forall j | 0 <= j < |at| ensures at[j] == k {}
  }
}
