/** The denial evidence: extracted in loops, bounded, honest, and readable after the reduction. */
module Denials {
  import opened Outcomes
  import opened Sorting
  import opened Json
  import opened JsonSize
  import opened Schema
  import opened SchemaBound
  import opened Retention
  import opened Reduction
  import ActionSchemas
  import Utf8

  // ---------------------------------------------------------------- the evidence always fits

  lemma {:induction false} DumpedLengthBound(s: string)
    ensures DumpedLength(s) <= 6 * Utf8.Length(s)
  {
    if s != "" { DumpedLengthBound(s[1..]); }
  }

  lemma {:induction false} FieldsCostUniform(v: Value, keys: seq<string>, most: nat)
    requires v.Obj? && forall k | k in keys :: k in v.fields && MemberCost(v, k) <= most
    ensures FieldsCost(v, keys) <= |keys| * most
  {
    hide MemberCost;
    if keys != [] {
      assert keys[0] in keys;
      FieldsCostUniform(v, keys[1..], most);
      Distribute(|keys| - 1, most);
    }
  }

  lemma KeyCount(v: Value)
    requires v.Obj?
    ensures |Keys(v)| == |v.fields|
  {
    hide Keys;
    KeysAreDistinct(v);
    DistinctCount(Keys(v), v.fields.Keys);
  }

  lemma {:induction false} DistinctCount(keys: seq<string>, names: set<string>)
    requires forall i, j | 0 <= i < j < |keys| :: keys[i] != keys[j]
    requires forall k :: k in keys <==> k in names
    ensures |keys| == |names|
  {
    if keys == [] {
      assert names == {} by {
        forall k ensures k !in names { assert k !in keys; }
      }
    } else {
      assert keys[0] in keys;
      DistinctCount(keys[1..], names - {keys[0]});
    }
  }

  lemma EmptyEvidenceFits(count: nat)
    requires count <= 9
    ensures DumpedSize(Evidence(count, [])) <= MaxDeniedEvidenceBytes
  {
    hide Size, Keys, MemberCost, FieldsCost, DumpedLength;
    var v := Evidence(count, []);
    EmptyEvidenceMembers(count);
    SizeOfObject(v);
    KeyCount(v);
    KeysAreDistinct(v);
    assert v.fields.Keys == {"version", "denialCount", "reason", "invocations"};
    assert |v.fields| <= 4;
    FieldsCostUniform(v, Keys(v), 60);
    ProductMonotone(|Keys(v)|, 4, 60);
    DumpedLengthBound(Render(v));
    SizeIsLength(v);
  }

  lemma EmptyEvidenceSizes(count: nat)
    requires count <= 9
    ensures Size(Int(1)) == 1 && Size(Int(count)) == 1 && Size(Arr([])) == 2
  {
    hide Size;
    SizeOfInt(1);
    SizeOfInt(count);
    SizeOfArray(Arr([]));
  }

  lemma EvidenceWordsArePlain()
    ensures ActionSchemas.PlainText("version") && ActionSchemas.PlainText("denialCount") && ActionSchemas.PlainText("reason")
    ensures ActionSchemas.PlainText("invocations") && ActionSchemas.PlainText("permission_denied")
  {
  }

  lemma EvidenceNameSizes()
    ensures Size(Str("version")) == 9 && Size(Str("denialCount")) == 13
    ensures Size(Str("reason")) == 8 && Size(Str("invocations")) == 13 && Size(Str("permission_denied")) == 19
  {
    hide Size, ActionSchemas.PlainText;
    EvidenceWordsArePlain();
    ActionSchemas.PlainTextSize("permission_denied");
    ActionSchemas.PlainTextSize("version");
    ActionSchemas.PlainTextSize("denialCount");
    ActionSchemas.PlainTextSize("reason");
    ActionSchemas.PlainTextSize("invocations");
  }

  lemma EvidenceKeys(count: nat, invocations: seq<Value>)
    ensures Evidence(count, invocations).fields.Keys == {"version", "denialCount", "reason", "invocations"}
  {
  }

  lemma EmptyEvidenceMembers(count: nat)
    requires count <= 9
    ensures var v := Evidence(count, []); forall k | k in v.fields :: MemberCost(v, k) <= 60
  {
    hide Size, Evidence;
    EvidenceIsObject(count, []);
    EvidenceKeys(count, []);
    EvidenceFields(count, []);
    EmptyEvidenceSizes(count);
    EvidenceNameSizes();
  }

  lemma {:induction false} FittingFits(count: nat, invocations: seq<Value>)
    requires count <= 9
    ensures DumpedSize(Evidence(count, Fitting(count, invocations))) <= MaxDeniedEvidenceBytes
  {
    hide DumpedSize, Evidence;
    if DumpedSize(Evidence(count, invocations)) > MaxDeniedEvidenceBytes && invocations != [] {
      FittingFits(count, invocations[..|invocations| - 1]);
    } else {
      EmptyEvidenceFits(count);
    }
  }

  // ---------------------------------------------------------------- and is read back

  lemma {:induction false} MarkersAppend(a: seq<Row>, b: seq<Row>)
    ensures Markers(a + b) == Markers(a) + Markers(b)
  {
    hide IsMarker;
    if b == [] {
      assert a + b == a;
    } else {
      assert (a + b)[..|a + b| - 1] == a + b[..|b| - 1];
      MarkersAppend(a, b[..|b| - 1]);
    }
  }

  lemma {:induction false} NoMarkers(rows: seq<Row>)
    requires forall k | 0 <= k < |rows| :: !IsMarker(rows[k])
    ensures Markers(rows) == []
  {
    hide IsMarker;
    if rows != [] { NoMarkers(rows[..|rows| - 1]); }
  }

  lemma BoundedHasNoMarkers(rows: seq<Row>, action: string)
    ensures forall k | 0 <= k < |rows| :: !IsMarker(Bounded(rows, action)[k])
  {
    hide ReduceRow, IsMarker;
    forall k | 0 <= k < |rows| ensures !IsMarker(Bounded(rows, action)[k]) { ReducedKinds(rows[k], action); }
  }

  lemma InsertedMarker(rows: seq<Row>, at: nat, evidence: Value)
    requires at <= |rows| && forall k | 0 <= k < |rows| :: !IsMarker(rows[k])
    ensures Markers(Insert(rows, at, Marker(evidence))) == [evidence]
  {
    hide IsMarker, Marker;
    var marker := Marker(evidence);
    MarkerIsInert(evidence);
    NoMarkers(rows[..at]);
    NoMarkers(rows[at..]);
    assert [marker][..0] == [];
    assert Markers([marker]) == [evidence];
    MarkersAppend(rows[..at] + [marker], rows[at..]);
    MarkersAppend(rows[..at], [marker]);
  }

  lemma EvidenceFields(count: nat, invocations: seq<Value>)
    ensures var fields := Evidence(count, invocations).fields;
            && Field(fields, "version") == Int(1) && Field(fields, "reason") == Str("permission_denied")
            && Field(fields, "denialCount") == Int(count) && Field(fields, "invocations") == Arr(invocations)
  {
  }

  /** Whatever the transcript holds, forged marker rows included, the bridge reads from its reduction
      exactly the evidence extracted from the transcript itself. */
  lemma DenialsSurvive(rows: seq<Row>, action: string, w: Wording)
    ensures RetainedToolDenials(Reduce(rows, action, w)) == DeniedToolEvidence(rows, w)
  {
    hide Bounded, IsMarker, Marker, Insert, First, DenialCount, Selected, Capped, FirstInvocations, Fitting, Evidence, DumpedSize;
    var bounded := Bounded(rows, action);
    BoundedHasNoMarkers(rows, action);
    BoundedLength(rows, action);
    if DeniedToolEvidence(rows, w).None? {
      NoMarkers(bounded);
    } else {
      var invocations := FirstInvocations(Selected(rows, w));
      var capped := Capped(DenialCount(rows, w), invocations);
      InsertedMarker(bounded, First(IsResult, bounded, 0), Evidence(capped, Fitting(capped, invocations)));
      EvidenceFields(capped, Fitting(capped, invocations));
      FittingFits(capped, invocations);
      EvidenceIsObject(capped, Fitting(capped, invocations));
    }
  }

  lemma BoundedLength(rows: seq<Row>, action: string)
    ensures |Bounded(rows, action)| == |rows|
  {
  }

  lemma EvidenceIsObject(count: nat, invocations: seq<Value>)
    ensures Evidence(count, invocations).Obj?
  {
  }

  // ---------------------------------------------------------------- the evidence is honest

  lemma {:induction false} DeniedAreUses(uses: seq<Use>, denied: set<string>)
    ensures forall u | u in Denied(uses, denied) :: u in uses && u.id != "" && u.id in denied
    ensures forall u | u in uses && u.id != "" && u.id in denied :: u in Denied(uses, denied)
  {
    if uses != [] {
      var rest := uses[..|uses| - 1];
      DeniedAreUses(rest, denied);
      assert uses == rest + [uses[|uses| - 1]];
    }
  }

  lemma {:induction false} UnmatchedAreUses(uses: seq<Use>, selected: seq<Use>, results: set<string>)
    ensures forall u | u in Unmatched(uses, selected, results) :: u in uses && u !in selected && u.id != "" && u.id !in results
  {
    if uses != [] {
      var rest := uses[..|uses| - 1];
      UnmatchedAreUses(rest, selected, results);
      assert uses == rest + [uses[|uses| - 1]];
    }
  }

  /** Every retained invocation is a tool call of the transcript that was denied or never got a result;
      a call that succeeded gains no retained payload. */
  lemma EvidenceIsHonest(rows: seq<Row>, w: Wording)
    ensures forall u | u in Selected(rows, w) ::
              u in Uses(rows, w) && u.id != "" && (u.id in DeniedIds(rows, w) || u.id !in ResultIds(rows))
    ensures forall u | u in Uses(rows, w) && u.id != "" && u.id in DeniedIds(rows, w) :: u in Selected(rows, w)
  {
    hide Uses, DeniedIds, ResultIds, DenialCount, Denied, Unmatched, DistinctIds;
    var uses := Uses(rows, w);
    var denied := Denied(uses, DeniedIds(rows, w));
    DeniedAreUses(uses, DeniedIds(rows, w));
    UnmatchedAreUses(uses, denied, ResultIds(rows));
  }

  /** The evidence, when there is any: at most eight invocations, each of a selected call, earliest
      first, and small enough for its reader. */
  lemma EvidenceIsBounded(rows: seq<Row>, w: Wording) returns (count: nat, kept: seq<Value>)
    requires DeniedToolEvidence(rows, w).Some?
    ensures DeniedToolEvidence(rows, w) == Some(Evidence(count, kept)) && DumpedSize(Evidence(count, kept)) <= MaxDeniedEvidenceBytes
    ensures |kept| <= count <= MaxDeniedInvocations && |kept| <= |Selected(rows, w)|
    ensures forall i | 0 <= i < |kept| :: kept[i] == Invocation(Selected(rows, w)[i])
  {
    hide Selected, DenialCount, Invocation, Evidence, DumpedSize, Fitting;
    var invocations := FirstInvocations(Selected(rows, w));
    count := Capped(DenialCount(rows, w), invocations);
    kept := Fitting(count, invocations);
    FittingFits(count, invocations);
    assert kept <= invocations;
  }

  // ---------------------------------------------------------------- the loops

  /** `_tool_use_rows` */
  method ToolUseRows(rows: seq<Row>, w: Wording) returns (uses: seq<Use>)
    ensures uses == Uses(rows, w)
  {
    uses := [];
    for r := 0 to |rows|
      invariant uses == Uses(rows[..r], w)
    {
      var content := Content(rows[r], "assistant");
      var before := uses;
      for i := 0 to |content|
        invariant uses == before + UsesIn(content[..i], r + 1, w)
      {
        assert content[..i + 1][..i] == content[..i];
        if IsToolUse(content[i]) {
          uses := uses + [UseOf(content[i], r + 1, w)];
        }
      }
      assert content[..|content|] == content;
      assert rows[..r + 1][..r] == rows[..r];
    }
    assert rows[..|rows|] == rows;
  }

  /** `_tool_result_rows` */
  method ToolResultRows(rows: seq<Row>, w: Wording) returns (denied: set<string>, results: set<string>)
    ensures denied == DeniedIds(rows, w) && results == ResultIds(rows)
  {
    denied, results := {}, {};
    for r := 0 to |rows|
      invariant denied == DeniedIds(rows[..r], w) && results == ResultIds(rows[..r])
    {
      var rowDenied, rowResults := RowResults(Content(rows[r], "user"), w);
      DeniedIdsStep(rows, r, w);
      denied, results := denied + rowDenied, results + rowResults;
    }
    assert rows[..|rows|] == rows;
  }

  function RowDenied(content: seq<Value>, w: Wording): set<string> {
    set i | 0 <= i < |content| && IsToolResult(content[i]) && IsDenial(content[i], w) :: ResultId(content[i])
  }

  function RowResultIds(content: seq<Value>): set<string> {
    set i | 0 <= i < |content| && IsToolResult(content[i]) && ResultId(content[i]) != "" :: ResultId(content[i])
  }

  lemma DeniedIdsStep(rows: seq<Row>, r: nat, w: Wording)
    requires r < |rows|
    ensures DeniedIds(rows[..r + 1], w) == DeniedIds(rows[..r], w) + RowDenied(Content(rows[r], "user"), w)
    ensures ResultIds(rows[..r + 1]) == ResultIds(rows[..r]) + RowResultIds(Content(rows[r], "user"))
  {
    hide Content, IsToolResult, IsDenial, ResultId;
    var longer, shorter := rows[..r + 1], rows[..r];
    assert longer[r] == rows[r];
    assert forall k | 0 <= k < r :: longer[k] == shorter[k];
  }

  lemma ToolResultsAreObjects(item: Value)
    requires IsToolResult(item)
    ensures item.Obj?
  {
  }

  method RowResults(content: seq<Value>, w: Wording) returns (denied: set<string>, results: set<string>)
    ensures denied == RowDenied(content, w) && results == RowResultIds(content)
  {
    hide IsDenial, ResultId, IsToolResult;
    denied, results := {}, {};
    for i := 0 to |content|
      invariant denied == RowDenied(content[..i], w) && results == RowResultIds(content[..i])
    {
      assert content[..i + 1][i] == content[i] && content[..i + 1][..i] == content[..i];
      if IsToolResult(content[i]) {
        ToolResultsAreObjects(content[i]);
        var id := ResultId(content[i]);
        if id != "" { results := results + {id}; }
        if IsDenial(content[i], w) { denied := denied + {id}; }
      }
    }
    assert content[..|content|] == content;
  }

  /** `denied_tool_evidence` */
  method ExtractEvidence(rows: seq<Row>, w: Wording) returns (evidence: Option<Value>)
    ensures evidence == DeniedToolEvidence(rows, w)
  {
    hide Uses, DeniedIds, ResultIds, LastResult, DumpedSize, Evidence, Invocation;
    var uses := ToolUseRows(rows, w);
    var denied, results := ToolResultRows(rows, w);
    var stated := Field(LastResult(rows), "permission_denials_count");
    var count := if IsCount(stated) then stated.n else |denied - {""}|;
    var selected := SelectDenied(uses, denied);
    var unmatched := SelectUnmatched(uses, selected, results);
    if count > |selected| && count - |selected| == |unmatched| && DistinctIds(unmatched) {
      selected := selected + unmatched;
    }
    if count == 0 && selected == [] {
      return None;
    }
    var invocations := FirstInvocations(selected);
    var capped := Capped(count, invocations);
    while DumpedSize(Evidence(capped, invocations)) > MaxDeniedEvidenceBytes && invocations != []
      invariant Fitting(capped, invocations) == Fitting(capped, FirstInvocations(selected))
      decreases |invocations|
    {
      invocations := invocations[..|invocations| - 1];
    }
    evidence := Some(Evidence(capped, invocations));
  }

  method SelectDenied(uses: seq<Use>, denied: set<string>) returns (selected: seq<Use>)
    ensures selected == Denied(uses, denied)
  {
    selected := [];
    for i := 0 to |uses|
      invariant selected == Denied(uses[..i], denied)
    {
      assert uses[..i + 1][..i] == uses[..i];
      if uses[i].id != "" && uses[i].id in denied { selected := selected + [uses[i]]; }
    }
    assert uses[..|uses|] == uses;
  }

  method SelectUnmatched(uses: seq<Use>, selected: seq<Use>, results: set<string>) returns (unmatched: seq<Use>)
    ensures unmatched == Unmatched(uses, selected, results)
  {
    unmatched := [];
    for i := 0 to |uses|
      invariant unmatched == Unmatched(uses[..i], selected, results)
    {
      assert uses[..i + 1][..i] == uses[..i];
      if uses[i] !in selected && uses[i].id != "" && uses[i].id !in results { unmatched := unmatched + [uses[i]]; }
    }
    assert uses[..|uses|] == uses;
  }

  /** The reducing loop of `reduce_execution` */
  method ReduceTranscript(rows: seq<Row>, action: string, w: Wording) returns (out: seq<Row>)
    ensures out == Reduce(rows, action, w)
  {
    hide ReduceRow, DeniedToolEvidence, Marker;
    var bounded: seq<Row> := [];
    for i := 0 to |rows|
      invariant bounded == Bounded(rows, action)[..i]
    {
      bounded := bounded + [ReduceRow(rows[i], action)];
    }
    assert Bounded(rows, action)[..|rows|] == Bounded(rows, action);
    var evidence := ExtractEvidence(rows, w);
    if evidence == None {
      return bounded;
    }
    out := Insert(bounded, First(IsResult, bounded, 0), Marker(evidence.value));
  }

  /** `reduce_execution`, from the test of its argument on */
  method ReduceLoaded(data: Value, action: string, w: Wording) returns (out: Option<seq<Row>>)
    ensures out == ReduceExecution(data, action, w)
    ensures out.Some? <==> data.Arr? && forall i | 0 <= i < |data.items| :: data.items[i].Obj?
  {
    hide Reduce;
    if !data.Arr? {
      return None;
    }
    var rows: seq<Row> := [];
    for i := 0 to |data.items|
      invariant |rows| == i && forall j | 0 <= j < i :: data.items[j] == Obj(rows[j])
    {
      if !data.items[i].Obj? {
        return None;
      }
      rows := rows + [data.items[i].fields];
    }
    assert rows == seq(|data.items|, i requires 0 <= i < |data.items| => data.items[i].fields);
    var reduced := ReduceTranscript(rows, action, w);
    out := Some(reduced);
  }
}
