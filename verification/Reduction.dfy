/** The reduction keeps everything the bridge reads. */
module Reduction {
  import opened Outcomes
  import opened Json
  import opened JsonSize
  import opened Retention
  import opened Bridge
  import Utf8

  // ---------------------------------------------------------------- one row

  lemma MergeField(a: Row, b: Row, key: string)
    requires key !in b
    ensures Field(a + b, key) == Field(a, key) && (key in a + b <==> key in a)
  {
  }

  lemma KeepField(row: Row, keys: set<string>, key: string)
    requires key in keys
    ensures Field(Keep(row, keys), key) == Field(row, key) && (key in Keep(row, keys) <==> key in row)
  {
  }

  lemma ToolUseCountOfBare(n: nat)
    ensures ToolUseCount(seq(n, _ => BareToolUse)) == n
  {
    if n > 0 {
      var s := seq(n, _ => BareToolUse);
      assert s[..n - 1] == seq(n - 1, _ => BareToolUse);
      ToolUseCountOfBare(n - 1);
    }
  }

  lemma ReducedResult(row: Row, action: string, key: string)
    requires IsResult(row) && key in ResultKeys
    ensures var r := ReduceRow(row, action);
            Field(r, key) == Field(row, key) && (key in r <==> key in row)
  {
    hide Keep;
    KeepField(row, ResultKeys, key);
    var count, structured, usage := ReducedCount(row), ReducedStructured(row, action), ReducedUsage(row);
    assert key !in count && key !in structured && key !in usage;
    MergeField(Keep(row, ResultKeys), count, key);
    MergeField(Keep(row, ResultKeys) + count, structured, key);
    MergeField(Keep(row, ResultKeys) + count + structured, usage, key);
  }

  lemma ReducedStructuredOutput(row: Row, action: string)
    requires IsResult(row)
    ensures var r := ReduceRow(row, action);
            && ("structured_output" in r <==> KeepsStructured(action) && "structured_output" in row)
            && ("structured_output" in r ==> r["structured_output"] == row["structured_output"])
  {
    hide KeepsStructured;
    var base := Keep(row, ResultKeys);
    assert "structured_output" !in base;
    MergeField(base, ReducedCount(row), "structured_output");
    MergeField(base + ReducedCount(row) + ReducedStructured(row, action), ReducedUsage(row), "structured_output");
  }

  lemma ReducedTokens(row: Row, action: string, name: string)
    requires IsResult(row) && name in TokenKeys
    ensures Token(Some(ReduceRow(row, action)), name) == Token(Some(row), name)
  {
    var usage := Field(row, "usage");
    var base := Keep(row, ResultKeys) + ReducedCount(row) + ReducedStructured(row, action);
    assert "usage" !in base;
    assert Field(base + ReducedUsage(row), "usage") == Field(ReducedUsage(row), "usage");
  }

  lemma ReducedAssistant(row: Row)
    requires HasType(row, "assistant") && Field(row, "message").Obj?
    ensures var r := ReduceAssistant(row);
            && (HasType(r, "assistant") || r == map[])
            && ToolUseCount(Content(r, "assistant")) == ToolUseCount(Content(row, "assistant"))
  {
    var content := Field(Field(row, "message").fields, "content");
    if content.Arr? {
      ToolUseCountOfBare(ToolUseCount(content.items));
    }
  }

  lemma ReducedKinds(row: Row, action: string)
    ensures var r := ReduceRow(row, action);
            && (IsResult(r) <==> IsResult(row)) && (IsInit(r) <==> IsInit(row)) && !IsMarker(r)
            && (IsInit(row) ==> Field(r, "model") == Field(row, "model"))
            && ToolUseCount(Content(r, "assistant")) == ToolUseCount(Content(row, "assistant"))
  {
    hide ReduceAssistant, Keep, ToolUseCount, ReducedCount, ReducedStructured, ReducedUsage;
    if IsInit(row) {
      KeepField(row, InitKeys, "type");
      KeepField(row, InitKeys, "subtype");
      KeepField(row, InitKeys, "model");
    } else if HasType(row, "assistant") && Field(row, "message").Obj? {
      ReducedAssistant(row);
    } else if IsResult(row) {
      ReducedResult(row, action, "type");
    }
  }

  // ---------------------------------------------------------------- inserting the marker row

  /** Where row `k` of the original stands after a row is inserted at `at`. */
  function Shift(at: nat, k: nat): nat { if k < at then k else k + 1 }

  lemma {:induction false} FirstAgrees(p: Row -> bool, rows: seq<Row>, others: seq<Row>, i: nat)
    requires |rows| == |others| && i <= |rows| && forall j | 0 <= j < |rows| :: p(rows[j]) <==> p(others[j])
    ensures First(p, others, i) == First(p, rows, i)
    decreases |rows| - i
  {
    if i < |rows| { FirstAgrees(p, rows, others, i + 1); }
  }

  lemma {:induction false} FirstShifts(p: Row -> bool, rows: seq<Row>, at: nat, row: Row, i: nat)
    requires at <= |rows| && !p(row) && i <= |rows|
    ensures First(p, Insert(rows, at, row), Shift(at, i)) == Shift(at, First(p, rows, i))
    ensures i == at ==> First(p, Insert(rows, at, row), at) == Shift(at, First(p, rows, at))
    decreases |rows| - i
  {
    hide Insert;
    var ins := Insert(rows, at, row);
    InsertedAt(rows, at, row);
    assert !p(ins[at]);
    if i < |rows| {
      InsertedRow(rows, at, row, i);
      FirstShifts(p, rows, at, row, i + 1);
    }
  }

  lemma InsertedAt(rows: seq<Row>, at: nat, row: Row)
    requires at <= |rows|
    ensures |Insert(rows, at, row)| == |rows| + 1 && Insert(rows, at, row)[at] == row
  {
  }

  lemma InsertedRow(rows: seq<Row>, at: nat, row: Row, k: nat)
    requires at <= |rows| && k < |rows|
    ensures Insert(rows, at, row)[Shift(at, k)] == rows[k]
  {
  }

  lemma ToolCallsAppend(a: seq<Row>, b: seq<Row>)
    ensures ToolCalls(a + b) == ToolCalls(a) + ToolCalls(b)
  {
    if b == [] {
      assert a + b == a;
    } else {
      assert (a + b)[..|a + b| - 1] == a + b[..|b| - 1];
      ToolCallsAppend(a, b[..|b| - 1]);
    }
  }

  lemma {:induction false} ToolCallsBounded(rows: seq<Row>, action: string)
    ensures ToolCalls(Bounded(rows, action)) == ToolCalls(rows)
  {
    hide ToolUseCount, Content, ReduceRow;
    if rows != [] {
      var n := |rows| - 1;
      assert Bounded(rows, action)[..n] == Bounded(rows[..n], action);
      ToolCallsBounded(rows[..n], action);
      ReducedKinds(rows[n], action);
    }
  }

  lemma ToolCallsInsert(rows: seq<Row>, at: nat, row: Row)
    requires at <= |rows| && ToolUseCount(Content(row, "assistant")) == 0
    ensures ToolCalls(Insert(rows, at, row)) == ToolCalls(rows)
  {
    hide ToolUseCount, Content, ToolCalls;
    ToolCallsAppend(rows[..at] + [row], rows[at..]);
    ToolCallsAppend(rows[..at], [row]);
    ToolCallsAppend(rows[..at], rows[at..]);
    assert rows[..at] + rows[at..] == rows;
    ToolCallsSingle(row);
  }

  lemma ToolCallsSingle(row: Row)
    ensures ToolCalls([row]) == ToolUseCount(Content(row, "assistant"))
  {
    hide ToolUseCount, Content;
    assert [row][..0] == [];
  }

  // ---------------------------------------------------------------- where rows go

  /** The position in the reduction of row `k`. */
  function Place(rows: seq<Row>, w: Wording, k: nat): nat {
    if DeniedToolEvidence(rows, w).Some? then Shift(First(IsResult, rows, 0), k) else k
  }

  lemma MarkerIsInert(evidence: Value)
    ensures !IsResult(Marker(evidence)) && !IsInit(Marker(evidence)) && IsMarker(Marker(evidence))
    ensures Content(Marker(evidence), "assistant") == []
    ensures Field(Marker(evidence), "data") == evidence
  {
  }

  /** Each row keeps its place up to the inserted marker. */
  lemma Placed(rows: seq<Row>, action: string, w: Wording, k: nat)
    requires k <= |rows|
    ensures var out := Reduce(rows, action, w);
            && |out| == Place(rows, w, |rows|)
            && (k < |rows| ==> Place(rows, w, k) < |out| && out[Place(rows, w, k)] == ReduceRow(rows[k], action))
  {
    hide ReduceRow, DeniedToolEvidence, First, Marker;
    BoundedAgrees(rows, action, IsResult, 0);
  }

  /** A search for the first result or init row finds the corresponding row. */
  lemma PlacedFirst(rows: seq<Row>, action: string, w: Wording, p: Row -> bool)
    requires p == IsResult || p == IsInit
    ensures First(p, Reduce(rows, action, w), 0) == Place(rows, w, First(p, rows, 0))
  {
    hide ReduceRow, DeniedToolEvidence, First, Insert, Marker;
    BoundedAgrees(rows, action, p, 0);
    BoundedAgrees(rows, action, IsResult, 0);
    if DeniedToolEvidence(rows, w).Some? {
      var evidence := DeniedToolEvidence(rows, w).value;
      MarkerIsInert(evidence);
      FirstShifts(p, Bounded(rows, action), First(IsResult, rows, 0), Marker(evidence), 0);
    }
  }

  /** And so does a search that goes on behind row `k`. */
  lemma PlacedNext(rows: seq<Row>, action: string, w: Wording, p: Row -> bool, k: nat)
    requires (p == IsResult || p == IsInit) && k < |rows|
    ensures var out := Reduce(rows, action, w);
            Place(rows, w, k) < |out| && First(p, out, Place(rows, w, k) + 1) == Place(rows, w, First(p, rows, k + 1))
  {
    hide ReduceRow, DeniedToolEvidence, First, Insert, Marker;
    Placed(rows, action, w, k);
    BoundedAgrees(rows, action, p, k + 1);
    BoundedAgrees(rows, action, IsResult, 0);
    if DeniedToolEvidence(rows, w).Some? {
      var evidence := DeniedToolEvidence(rows, w).value;
      MarkerIsInert(evidence);
      FirstShifts(p, Bounded(rows, action), First(IsResult, rows, 0), Marker(evidence), k + 1);
    }
  }

  lemma BoundedAgrees(rows: seq<Row>, action: string, p: Row -> bool, i: nat)
    requires (p == IsResult || p == IsInit) && i <= |rows|
    ensures First(p, Bounded(rows, action), i) == First(p, rows, i)
  {
    hide ReduceRow, First;
    var bounded := Bounded(rows, action);
    forall j | 0 <= j < |rows| ensures p(bounded[j]) <==> p(rows[j]) { ReducedKinds(rows[j], action); }
    FirstAgrees(p, rows, bounded, i);
  }

  // ---------------------------------------------------------------- what the bridge reads survives

  lemma EmptyKept(rows: seq<Row>, action: string, w: Wording)
    ensures Reduce(rows, action, w) == [] <==> rows == []
  {
    hide ReduceRow;
    if rows == [] {
      assert DeniedIds(rows, w) - {""} == {};
    }
  }

  /** The same verdict on whether there is one terminal result, the same trailing-rows flag, and the
      terminal row is the reduced one. */
  lemma TerminalKept(rows: seq<Row>, action: string, w: Wording)
    ensures var out := Reduce(rows, action, w);
            && Terminal(out) == (match Terminal(rows) case None => None case Some(k) => Some(Place(rows, w, k)))
            && TerminalRow(out) == (match TerminalRow(rows) case None => None case Some(row) => Some(ReduceRow(row, action)))
            && (TrailingRows(out) <==> TrailingRows(rows))
  {
    hide ReduceRow, DeniedToolEvidence, First, Reduce;
    PlacedFirst(rows, action, w, IsResult);
    var k := First(IsResult, rows, 0);
    Placed(rows, action, w, k);
    if k < |rows| { PlacedNext(rows, action, w, IsResult, k); }
  }

  /** The reduction has the same init rows, in the sense that they name the same models. */
  predicate AllName(rows: seq<Row>, model: Value) {
    forall i | 0 <= i < |rows| && IsInit(rows[i]) :: Field(rows[i], "model") == model
  }

  lemma ModelKept(rows: seq<Row>, action: string, w: Wording)
    ensures var out := Reduce(rows, action, w);
            ObservedModel(out, Terminal(out)) == ObservedModel(rows, Terminal(rows))
  {
    hide ReduceRow, DeniedToolEvidence, First, Reduce, Terminal, IsInit, Field, IsModel;
    var out := Reduce(rows, action, w);
    TerminalKept(rows, action, w);
    PlacedFirst(rows, action, w, IsInit);
    var f := First(IsInit, rows, 0);
    Placed(rows, action, w, f);
    if f < |rows| {
      PlacedNext(rows, action, w, IsInit, f);
      ReducedKinds(rows[f], action);
      NamesKept(rows, action, w, Field(rows[f], "model"));
    }
  }

  lemma NamesKept(rows: seq<Row>, action: string, w: Wording, model: Value)
    ensures AllName(Reduce(rows, action, w), model) <==> AllName(rows, model)
  {
    hide ReduceRow, IsInit, Marker, DeniedToolEvidence;
    var bounded := Bounded(rows, action);
    forall k | 0 <= k < |rows|
      ensures IsInit(bounded[k]) <==> IsInit(rows[k])
      ensures IsInit(rows[k]) ==> Field(bounded[k], "model") == Field(rows[k], "model")
    {
      ReducedKinds(rows[k], action);
    }
    if DeniedToolEvidence(rows, w).Some? {
      var evidence := DeniedToolEvidence(rows, w).value;
      MarkerIsInert(evidence);
      InsertNames(bounded, First(IsResult, bounded, 0), Marker(evidence), model);
    }
  }

  lemma InsertNames(rows: seq<Row>, at: nat, row: Row, model: Value)
    requires at <= |rows| && !IsInit(row)
    ensures AllName(Insert(rows, at, row), model) <==> AllName(rows, model)
  {
    hide IsInit;
    var out := Insert(rows, at, row);
    if AllName(out, model) {
      forall i | 0 <= i < |rows| && IsInit(rows[i]) ensures Field(rows[i], "model") == model {
        assert out[Shift(at, i)] == rows[i];
      }
    }
  }

  lemma ToolCallsKept(rows: seq<Row>, action: string, w: Wording)
    ensures ToolCalls(Reduce(rows, action, w)) == ToolCalls(rows)
  {
    hide ReduceRow, DeniedToolEvidence, Content, ToolUseCount, Marker, First;
    ToolCallsBounded(rows, action);
    if DeniedToolEvidence(rows, w).Some? {
      var evidence := DeniedToolEvidence(rows, w).value;
      MarkerIsInert(evidence);
      NoToolUse();
      ToolCallsInsert(Bounded(rows, action), First(IsResult, Bounded(rows, action), 0), Marker(evidence));
    }
  }

  lemma NoToolUse()
    ensures ToolUseCount([]) == 0
  {
  }

  /** The reading of the terminal row that `_delivered`, `_result_text`, `_usage` and the success
      test rest on. */
  lemma TerminalFieldsKept(row: Row, action: string, maxDurationMs: nat, readers: Readers)
    requires IsResult(row)
    ensures var r := ReduceRow(row, action);
            && (Succeeded(r) <==> Succeeded(row))
            && TimingVariance(Some(r), maxDurationMs) == TimingVariance(Some(row), maxDurationMs)
            && ResultText(Some(r), readers) == ResultText(Some(row), readers)
            && Turns(Some(r)) == Turns(Some(row))
  {
    hide ReduceRow;
    ReducedResult(row, action, "is_error");
    ReducedResult(row, action, "subtype");
    ReducedResult(row, action, "duration_ms");
    ReducedResult(row, action, "result");
    ReducedResult(row, action, "num_turns");
  }

  lemma TokensKept(row: Row, action: string, rows: seq<Row>, out: seq<Row>)
    requires IsResult(row) && ToolCalls(out) == ToolCalls(rows) && Turns(Some(ReduceRow(row, action))) == Turns(Some(row))
    ensures UsageOf(out, Some(ReduceRow(row, action))) == UsageOf(rows, Some(row))
  {
    hide ReduceRow, Token, Turns, ToolCalls;
    ReducedTokens(row, action, "input_tokens");
    ReducedTokens(row, action, "output_tokens");
    ReducedTokens(row, action, "cache_read_input_tokens");
    ReducedTokens(row, action, "cache_creation_input_tokens");
  }

  /** The reduction drops the carrier of structured output exactly when it should keep it. */
  predicate CarrierAgrees(action: string) {
    NativeStructured(action) ==> KeepsStructured(action)
  }

  lemma DeliveredKept(row: Row, action: string, file: Option<Option<Value>>, readers: Readers)
    requires IsResult(row) && CarrierAgrees(action)
    ensures Delivered(action, ReduceRow(row, action), file, readers) == Delivered(action, row, file, readers)
  {
    hide ReduceRow, KeepsStructured, NativeStructured, ResultText;
    TerminalFieldsKept(row, action, 0, readers);
    ReducedStructuredOutput(row, action);
  }

  /** What is delivered survives the reduction for every result row exactly when the two tests on the
      action agree; an action that begins with "nl-decision" but not "nl-decision." loses it. */
  lemma DeliveredKeptIff(action: string)
    ensures (forall row, file, readers | IsResult(row) ::
               Delivered(action, ReduceRow(row, action), file, readers) == Delivered(action, row, file, readers))
            <==> CarrierAgrees(action)
  {
    hide ReduceRow, KeepsStructured, NativeStructured;
    if CarrierAgrees(action) {
      forall row, file, readers | IsResult(row)
        ensures Delivered(action, ReduceRow(row, action), file, readers) == Delivered(action, row, file, readers)
      {
        DeliveredKept(row, action, file, readers);
      }
    } else {
      var row: Row := map["type" := Str("result"), "structured_output" := Bool(true)];
      var readers := Readers((s: string) => s, (s: string) => None, (s: string) => None, (s: string) => s);
      ReducedStructuredOutput(row, action);
      assert IsResult(row);
      assert Delivered(action, row, None, readers) == Some(Bool(true));
      assert Delivered(action, ReduceRow(row, action), None, readers) != Some(Bool(true));
    }
  }

  /** Everything about the transcript that the bridge acts on, but the denial evidence. */
  datatype View = View(
    empty: bool, single: bool, trailing: bool, model: Observed, succeeded: bool, timing: Timing,
    text: string, delivered: Option<Value>, usage: Usage)

  function ViewOf(rows: seq<Row>, action: string, file: Option<Option<Value>>, readers: Readers, maxDurationMs: nat): View {
    var terminal := TerminalRow(rows);
    View(rows == [], terminal.Some?, TrailingRows(rows), ObservedModel(rows, Terminal(rows)),
         terminal.Some? && Succeeded(terminal.value), TimingVariance(terminal, maxDurationMs), ResultText(terminal, readers),
         if terminal.None? then None else Delivered(action, terminal.value, file, readers), UsageOf(rows, terminal))
  }

  lemma ViewKept(rows: seq<Row>, action: string, w: Wording, file: Option<Option<Value>>, readers: Readers, maxDurationMs: nat)
    requires CarrierAgrees(action)
    ensures ViewOf(Reduce(rows, action, w), action, file, readers, maxDurationMs) == ViewOf(rows, action, file, readers, maxDurationMs)
  {
    hide ReduceRow, Reduce, TrailingRows, ObservedModel, Terminal, Succeeded, TimingVariance, ResultText, Delivered, ToolCalls, CarrierAgrees;
    var out := Reduce(rows, action, w);
    EmptyKept(rows, action, w);
    TerminalKept(rows, action, w);
    ModelKept(rows, action, w);
    ToolCallsKept(rows, action, w);
    if TerminalRow(rows).Some? {
      var row := TerminalRow(rows).value;
      TerminalIsResult(rows);
      TerminalFieldsKept(row, action, maxDurationMs, readers);
      DeliveredKept(row, action, file, readers);
      TokensKept(row, action, rows, out);
    }
  }

  lemma TerminalIsResult(rows: seq<Row>)
    requires TerminalRow(rows).Some?
    ensures IsResult(TerminalRow(rows).value)
  {
  }
}
