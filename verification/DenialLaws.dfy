/** The denial evidence told from the transcript itself, row by row. */
module DenialLaws {
  import opened Outcomes
  import opened Json
  import opened Retention

  // ---------------------------------------------------------------- what a transcript row holds

  predicate Says(fields: map<string, Value>, key: string, v: Value) {
    key in fields && fields[key] == v
  }

  /** Item `i` of the message content of row `r`, which is of type `kind`. */
  predicate HasItem(rows: seq<Row>, kind: string, r: nat, i: nat) {
    && r < |rows| && Says(rows[r], "type", Str(kind)) && "message" in rows[r] && rows[r]["message"].Obj?
    && var message := rows[r]["message"].fields;
       "content" in message && message["content"].Arr? && i < |message["content"].items|
  }

  function ItemAt(rows: seq<Row>, kind: string, r: nat, i: nat): Value
    requires HasItem(rows, kind, r, i)
  {
    rows[r]["message"].fields["content"].items[i]
  }

  predicate IsCall(rows: seq<Row>, r: nat, i: nat) {
    HasItem(rows, "assistant", r, i) && ItemAt(rows, "assistant", r, i).Obj?
    && Says(ItemAt(rows, "assistant", r, i).fields, "type", Str("tool_use"))
  }

  predicate IsAnswer(rows: seq<Row>, r: nat, i: nat) {
    HasItem(rows, "user", r, i) && ItemAt(rows, "user", r, i).Obj?
    && Says(ItemAt(rows, "user", r, i).fields, "type", Str("tool_result"))
  }

  /** A string field, or the empty string. */
  function TextOf(fields: map<string, Value>, key: string): string {
    if key in fields && fields[key].Str? then fields[key].s else ""
  }

  function CallId(rows: seq<Row>, r: nat, i: nat): string
    requires IsCall(rows, r, i)
  {
    TextOf(ItemAt(rows, "assistant", r, i).fields, "id")
  }

  function AnswerId(rows: seq<Row>, r: nat, i: nat): string
    requires IsAnswer(rows, r, i)
  {
    TextOf(ItemAt(rows, "user", r, i).fields, "tool_use_id")
  }

  /** Some text piece of an erroneous answer has the denial wording. */
  predicate IsDeniedAnswer(rows: seq<Row>, r: nat, i: nat, w: Wording) {
    && IsAnswer(rows, r, i)
    && var answer := ItemAt(rows, "user", r, i).fields;
       && Says(answer, "is_error", Bool(true)) && "content" in answer
       && match answer["content"]
          case Str(s) => w.denialMarker(s)
          case Obj(piece) => "text" in piece && piece["text"].Str? && w.denialMarker(piece["text"].s)
          case Arr(pieces) => exists j :: 0 <= j < |pieces| && pieces[j].Obj? && "text" in pieces[j].fields
                                          && pieces[j].fields["text"].Str? && w.denialMarker(pieces[j].fields["text"].s)
          case _ => false
  }

  // ---------------------------------------------------------------- calls

  /** What is kept of the call at item `i` of row `r`: its row counted from one, its id, its sanitised name cut at 96
      characters or "unknown", and the shape of its request. */
  function CallAt(rows: seq<Row>, r: nat, i: nat, w: Wording): (u: Use)
    requires IsCall(rows, r, i)
    ensures u.sequence == r + 1 && u.id == CallId(rows, r, i)
  {
    var call := ItemAt(rows, "assistant", r, i).fields;
    var name := w.boundedText(if "name" in call then call["name"] else Str(""));
    var tool := name[..if |name| <= 96 then |name| else 96];
    Use(r + 1, CallId(rows, r, i), if tool == "" then "unknown" else tool,
        w.requestShape(if "input" in call then call["input"] else Null))
  }

  /** Places in the transcript, row by row and item by item. */
  predicate Ascending(at: seq<(nat, nat)>) {
    forall a, b | 0 <= a < b < |at| :: at[a].0 < at[b].0 || (at[a].0 == at[b].0 && at[a].1 < at[b].1)
  }

  /** The list holds the calls before item `i` of row `r`, in order. */
  ghost predicate ListsCalls(rows: seq<Row>, at: seq<(nat, nat)>, uses: seq<Use>, r: nat, i: nat, w: Wording) {
    && |at| == |uses| && Ascending(at)
    && (forall k | 0 <= k < |at| :: IsCall(rows, at[k].0, at[k].1) && uses[k] == CallAt(rows, at[k].0, at[k].1, w))
    && (forall k | 0 <= k < |at| :: at[k].0 < r || (at[k].0 == r && at[k].1 < i))
    && (forall x: nat, y: nat | IsCall(rows, x, y) && (x < r || (x == r && y < i)) :: (x, y) in at)
  }

  lemma ContentIs(rows: seq<Row>, r: nat, kind: string)
    requires r < |rows|
    ensures forall i: nat :: HasItem(rows, kind, r, i) <==> i < |Content(rows[r], kind)|
    ensures forall i: nat | HasItem(rows, kind, r, i) :: ItemAt(rows, kind, r, i) == Content(rows[r], kind)[i]
  {
  }

  lemma CallIs(rows: seq<Row>, r: nat, i: nat, w: Wording)
    requires r < |rows| && i < |Content(rows[r], "assistant")|
    ensures var item := Content(rows[r], "assistant")[i];
            && (IsCall(rows, r, i) <==> IsToolUse(item))
            && (IsCall(rows, r, i) ==> UseOf(item, r + 1, w) == CallAt(rows, r, i, w))
  {
    hide Content, HasItem, ItemAt;
    ContentIs(rows, r, "assistant");
  }

  lemma OneMoreItem(rows: seq<Row>, at: seq<(nat, nat)>, uses: seq<Use>, r: nat, i: nat, w: Wording)
    requires ListsCalls(rows, at, uses, r, i, w)
    ensures IsCall(rows, r, i) ==> ListsCalls(rows, at + [(r, i)], uses + [CallAt(rows, r, i, w)], r, i + 1, w)
    ensures !IsCall(rows, r, i) ==> ListsCalls(rows, at, uses, r, i + 1, w)
  {
    hide IsCall, CallAt;
    if IsCall(rows, r, i) {
      var more := at + [(r, i)];
      assert more[|at|] == (r, i);
      forall x: nat, y: nat | IsCall(rows, x, y) && (x < r || (x == r && y < i + 1)) ensures (x, y) in more {
        if (x, y) in at { var k :| 0 <= k < |at| && at[k] == (x, y); assert more[k] == (x, y); }
      }
    }
  }

  lemma {:induction false} CallsInRow(rows: seq<Row>, r: nat, i: nat, w: Wording, at: seq<(nat, nat)>, uses: seq<Use>) returns (more: seq<(nat, nat)>)
    requires r < |rows| && i <= |Content(rows[r], "assistant")| && ListsCalls(rows, at, uses, r, 0, w)
    ensures ListsCalls(rows, more, uses + UsesIn(Content(rows[r], "assistant")[..i], r + 1, w), r, i, w)
  {
    hide Content, UseOf, IsToolUse, IsCall, CallAt, ListsCalls;
    var content := Content(rows[r], "assistant");
    if i == 0 {
      assert uses + [] == uses;
      more := at;
    } else {
      var before := CallsInRow(rows, r, i - 1, w, at, uses);
      var listed := uses + UsesIn(content[..i - 1], r + 1, w);
      assert content[..i][..i - 1] == content[..i - 1] && content[..i][i - 1] == content[i - 1];
      CallIs(rows, r, i - 1, w);
      OneMoreItem(rows, before, listed, r, i - 1, w);
      if IsCall(rows, r, i - 1) {
        more := before + [(r, i - 1)];
        UsesInPush(content[..i], r + 1, w);
        assert uses + UsesIn(content[..i], r + 1, w) == listed + [CallAt(rows, r, i - 1, w)];
      } else {
        more := before;
        UsesInPush(content[..i], r + 1, w);
        assert uses + UsesIn(content[..i], r + 1, w) == listed;
      }
    }
  }

  lemma UsesInPush(items: seq<Value>, sequence: nat, w: Wording)
    requires items != []
    ensures var last := items[|items| - 1];
            UsesIn(items, sequence, w) == UsesIn(items[..|items| - 1], sequence, w) + if IsToolUse(last) then [UseOf(last, sequence, w)] else []
  {
  }

  lemma RowDone(rows: seq<Row>, at: seq<(nat, nat)>, uses: seq<Use>, r: nat, w: Wording)
    requires r < |rows| && ListsCalls(rows, at, uses, r, |Content(rows[r], "assistant")|, w)
    ensures ListsCalls(rows, at, uses, r + 1, 0, w)
  {
    hide Content, CallAt, ItemAt;
    ContentIs(rows, r, "assistant");
  }

  lemma {:induction false} CallsUpTo(rows: seq<Row>, r: nat, w: Wording) returns (at: seq<(nat, nat)>)
    requires r <= |rows|
    ensures ListsCalls(rows, at, Uses(rows[..r], w), r, 0, w)
  {
    hide UsesIn, Content, ListsCalls;
    if r == 0 {
      at := [];
      NoCalls(rows, w);
    } else {
      var before := CallsUpTo(rows, r - 1, w);
      var content := Content(rows[r - 1], "assistant");
      at := CallsInRow(rows, r - 1, |content|, w, before, Uses(rows[..r - 1], w));
      assert content[..|content|] == content;
      assert rows[..r][..r - 1] == rows[..r - 1];
      RowDone(rows, at, Uses(rows[..r], w), r - 1, w);
    }
  }

  lemma NoCalls(rows: seq<Row>, w: Wording)
    ensures ListsCalls(rows, [], [], 0, 0, w)
  {
  }

  /** The calls of the transcript, in the order of rows and of the items of a row, each once. */
  lemma UsesAre(rows: seq<Row>, w: Wording) returns (at: seq<(nat, nat)>)
    ensures |at| == |Uses(rows, w)| && Ascending(at)
    ensures forall r: nat, i: nat :: IsCall(rows, r, i) <==> (r, i) in at
    ensures forall k | 0 <= k < |at| :: IsCall(rows, at[k].0, at[k].1) && Uses(rows, w)[k] == CallAt(rows, at[k].0, at[k].1, w)
  {
    at := CallsUpTo(rows, |rows|, w);
    assert rows[..|rows|] == rows;
    hide Uses, CallAt, ItemAt;
    forall r: nat, i: nat ensures IsCall(rows, r, i) <==> (r, i) in at {
      if (r, i) in at { var k :| 0 <= k < |at| && at[k] == (r, i); }
    }
  }

  // ---------------------------------------------------------------- answers

  lemma AnswerIs(rows: seq<Row>, r: nat, i: nat, w: Wording)
    requires r < |rows| && i < |Content(rows[r], "user")|
    ensures var item := Content(rows[r], "user")[i];
            && (IsAnswer(rows, r, i) <==> IsToolResult(item))
            && (IsAnswer(rows, r, i) ==> ResultId(item) == AnswerId(rows, r, i))
            && (IsDeniedAnswer(rows, r, i, w) <==> IsToolResult(item) && IsDenial(item, w))
  {
    hide Content, HasItem, ItemAt;
    ContentIs(rows, r, "user");
    var item := Content(rows[r], "user")[i];
    if IsToolResult(item) && "content" in item.fields && item.fields["content"].Arr? {
      var pieces := item.fields["content"].items;
      assert forall j | 0 <= j < |pieces| :: IsText(pieces[j]) <==> pieces[j].Obj? && "text" in pieces[j].fields && pieces[j].fields["text"].Str?;
      assert forall j | 0 <= j < |pieces| && IsText(pieces[j]) :: Field(pieces[j].fields, "text") == pieces[j].fields["text"];
    }
  }

  /** Some denied answer of the transcript has this id. */
  ghost predicate IsDeniedId(rows: seq<Row>, id: string, w: Wording) {
    exists r: nat, i: nat :: IsDeniedAnswer(rows, r, i, w) && AnswerId(rows, r, i) == id
  }

  ghost predicate IsAnsweredId(rows: seq<Row>, id: string) {
    exists r: nat, i: nat :: IsAnswer(rows, r, i) && AnswerId(rows, r, i) == id
  }

  lemma IdsAre(rows: seq<Row>, id: string, w: Wording)
    ensures id in DeniedIds(rows, w) <==> IsDeniedId(rows, id, w)
    ensures id in ResultIds(rows) <==> id != "" && IsAnsweredId(rows, id)
  {
    hide Content, IsAnswer, IsDeniedAnswer, IsDenial, ResultId, AnswerId;
    forall r: nat, i: nat | r < |rows| && i < |Content(rows[r], "user")|
      ensures var item := Content(rows[r], "user")[i];
              && (IsAnswer(rows, r, i) <==> IsToolResult(item)) && (IsAnswer(rows, r, i) ==> ResultId(item) == AnswerId(rows, r, i))
              && (IsDeniedAnswer(rows, r, i, w) <==> IsToolResult(item) && IsDenial(item, w))
    {
      AnswerIs(rows, r, i, w);
    }
    forall r: nat, i: nat | IsAnswer(rows, r, i) ensures r < |rows| && i < |Content(rows[r], "user")| { AnswerHasPlace(rows, r, i); }
    forall r: nat, i: nat | IsDeniedAnswer(rows, r, i, w) ensures IsAnswer(rows, r, i) { DeniedIsAnswer(rows, r, i, w); }
  }

  lemma AnswerHasPlace(rows: seq<Row>, r: nat, i: nat)
    requires IsAnswer(rows, r, i)
    ensures r < |rows| && i < |Content(rows[r], "user")|
  {
    ContentIs(rows, r, "user");
  }

  lemma DeniedIsAnswer(rows: seq<Row>, r: nat, i: nat, w: Wording)
    requires IsDeniedAnswer(rows, r, i, w)
    ensures IsAnswer(rows, r, i)
  {
  }

  // ---------------------------------------------------------------- the count

  predicate IsResultRow(rows: seq<Row>, k: nat) {
    k < |rows| && Says(rows[k], "type", Str("result"))
  }

  /** Row `k` is the last result row and states a count. */
  predicate StatesCount(rows: seq<Row>, k: nat, n: nat) {
    && IsResultRow(rows, k) && (forall j | k < j < |rows| :: !IsResultRow(rows, j))
    && Says(rows[k], "permission_denials_count", Int(n))
  }

  /** The distinct non-empty ids of denied answers. */
  ghost predicate AreDeniedIds(rows: seq<Row>, ids: set<string>, w: Wording) {
    forall id :: id in ids <==> id != "" && IsDeniedId(rows, id, w)
  }

  ghost predicate Stated(rows: seq<Row>, n: nat) {
    exists k: nat :: StatesCount(rows, k, n)
  }

  /** The transcript's denial count: what its last result row states, else how many different calls were denied. */
  ghost predicate Counts(rows: seq<Row>, n: nat, w: Wording) {
    if exists m: nat :: Stated(rows, m) then Stated(rows, n)
    else exists ids: set<string> :: AreDeniedIds(rows, ids, w) && |ids| == n
  }

  lemma {:induction false} LastResultIs(rows: seq<Row>, k: nat)
    requires IsResultRow(rows, k) && forall j | k < j < |rows| :: !IsResultRow(rows, j)
    ensures LastResult(rows) == rows[k]
  {
    var n := |rows| - 1;
    assert IsResult(rows[n]) <==> IsResultRow(rows, n);
    if k < n {
      forall j | k <= j < n ensures IsResultRow(rows[..n], j) <==> IsResultRow(rows, j) { assert rows[..n][j] == rows[j]; }
      LastResultIs(rows[..n], k);
    }
  }

  lemma {:induction false} NoResult(rows: seq<Row>)
    requires forall j: nat :: !IsResultRow(rows, j)
    ensures LastResult(rows) == map[]
  {
    if rows != [] {
      var n := |rows| - 1;
      assert IsResult(rows[n]) <==> IsResultRow(rows, n);
      forall j: nat ensures !IsResultRow(rows[..n], j) { if j < n { assert rows[..n][j] == rows[j]; assert !IsResultRow(rows, j); } }
      NoResult(rows[..n]);
    }
  }

  lemma {:induction false} LastResultExists(rows: seq<Row>) returns (k: nat)
    requires exists j: nat :: IsResultRow(rows, j)
    ensures IsResultRow(rows, k) && forall j | k < j < |rows| :: !IsResultRow(rows, j)
  {
    var n := |rows| - 1;
    if IsResultRow(rows, n) {
      k := n;
    } else {
      var j: nat :| IsResultRow(rows, j);
      assert rows[..n][j] == rows[j];
      assert IsResultRow(rows[..n], j);
      k := LastResultExists(rows[..n]);
      assert rows[..n][k] == rows[k];
      forall i | k < i < |rows| ensures !IsResultRow(rows, i) {
        if i < n { assert rows[..n][i] == rows[i]; assert !IsResultRow(rows[..n], i); }
      }
    }
  }

  lemma StatedIs(rows: seq<Row>, n: nat)
    ensures Stated(rows, n) <==> Field(LastResult(rows), "permission_denials_count") == Int(n)
  {
    hide LastResult, IsResultRow;
    if k: nat :| StatesCount(rows, k, n) {
      LastResultIs(rows, k);
    } else if exists j: nat :: IsResultRow(rows, j) {
      var k := LastResultExists(rows);
      LastResultIs(rows, k);
      assert StatesCount(rows, k, n) <==> Says(rows[k], "permission_denials_count", Int(n));
    } else {
      NoResult(rows);
    }
  }

  lemma DeniedIdSet(rows: seq<Row>, w: Wording)
    ensures AreDeniedIds(rows, DeniedIds(rows, w) - {""}, w)
  {
    hide DeniedIds, IsDeniedId;
    forall id ensures id in DeniedIds(rows, w) - {""} <==> id != "" && IsDeniedId(rows, id, w) { IdsAre(rows, id, w); }
  }

  /** The count is that of the transcript, and there is one only. */
  lemma CountIs(rows: seq<Row>, w: Wording, n: nat)
    ensures Counts(rows, n, w) <==> n == DenialCount(rows, w)
  {
    hide LastResult, Stated, DeniedIds, AreDeniedIds;
    var count := Field(LastResult(rows), "permission_denials_count");
    forall m: nat ensures Stated(rows, m) <==> count == Int(m) { StatedIs(rows, m); }
    if IsCount(count) {
      assert Stated(rows, count.n);
    } else {
      DeniedIdSet(rows, w);
      if exists ids: set<string> :: AreDeniedIds(rows, ids, w) && |ids| == n {
        var ids: set<string> :| AreDeniedIds(rows, ids, w) && |ids| == n;
        SameIds(rows, ids, DeniedIds(rows, w) - {""}, w);
      }
    }
  }

  lemma SameIds(rows: seq<Row>, a: set<string>, b: set<string>, w: Wording)
    requires AreDeniedIds(rows, a, w) && AreDeniedIds(rows, b, w)
    ensures a == b
  {
    hide IsDeniedId;
  }

  // ---------------------------------------------------------------- the selection

  /** The calls at these positions of the list, in its order. */
  predicate Picks(uses: seq<Use>, at: seq<nat>, picked: seq<Use>) {
    && |at| == |picked| && (forall a, b | 0 <= a < b < |at| :: at[a] < at[b])
    && (forall k | 0 <= k < |at| :: at[k] < |uses| && picked[k] == uses[at[k]])
  }

  ghost predicate WasDenied(rows: seq<Row>, u: Use, w: Wording) { u.id != "" && IsDeniedId(rows, u.id, w) }

  ghost predicate WasNotAnswered(rows: seq<Row>, u: Use) { u.id != "" && !IsAnsweredId(rows, u.id) }

  lemma PickMore(uses: seq<Use>, at: seq<nat>, picked: seq<Use>)
    requires uses != [] && Picks(uses[..|uses| - 1], at, picked)
    ensures Picks(uses, at, picked) && Picks(uses, at + [|uses| - 1], picked + [uses[|uses| - 1]])
  {
    var init := uses[..|uses| - 1];
    assert forall k | 0 <= k < |at| :: init[at[k]] == uses[at[k]];
  }

  /** The positions whose call is denied. */
  lemma {:induction false} DeniedAre(uses: seq<Use>, denied: set<string>) returns (at: seq<nat>)
    ensures Picks(uses, at, Denied(uses, denied))
    ensures forall k: nat | k < |uses| :: k in at <==> uses[k].id != "" && uses[k].id in denied
  {
    at := [];
    if uses != [] {
      var n := |uses| - 1;
      var init := DeniedAre(uses[..n], denied);
      PickMore(uses, init, Denied(uses[..n], denied));
      at := if uses[n].id != "" && uses[n].id in denied then init + [n] else init;
      assert Denied(uses[..n], denied) + [] == Denied(uses[..n], denied);
      assert forall k: nat | k < n :: uses[..n][k] == uses[k];
    }
  }

  lemma {:induction false} UnmatchedAre(uses: seq<Use>, selected: seq<Use>, results: set<string>) returns (at: seq<nat>)
    ensures Picks(uses, at, Unmatched(uses, selected, results))
    ensures forall k: nat | k < |uses| :: k in at <==> uses[k] !in selected && uses[k].id != "" && uses[k].id !in results
  {
    at := [];
    if uses != [] {
      var n := |uses| - 1;
      var init := UnmatchedAre(uses[..n], selected, results);
      PickMore(uses, init, Unmatched(uses[..n], selected, results));
      at := if uses[n] !in selected && uses[n].id != "" && uses[n].id !in results then init + [n] else init;
      assert Unmatched(uses[..n], selected, results) + [] == Unmatched(uses[..n], selected, results);
      assert forall k: nat | k < n :: uses[..n][k] == uses[k];
    }
  }

  /** No denied call lacks an answer. */
  lemma DeniedIsAnswered(rows: seq<Row>, u: Use, w: Wording)
    requires WasDenied(rows, u, w)
    ensures !WasNotAnswered(rows, u)
  {
    hide HasItem, ItemAt;
    var r: nat, i: nat :| IsDeniedAnswer(rows, r, i, w) && AnswerId(rows, r, i) == u.id;
    DeniedIsAnswer(rows, r, i, w);
  }

  predicate DifferentIds(uses: seq<Use>) {
    forall a, b | 0 <= a < b < |uses| :: uses[a].id != uses[b].id
  }

  /** What is selected: every call that was denied; and when the transcript counts more denials than those, by exactly as
      many as there are calls without an answer, and these have different ids, those calls as well. */
  lemma SelectedAre(rows: seq<Row>, w: Wording) returns (denied: seq<Use>, waiting: seq<Use>, ds: seq<nat>, ws: seq<nat>)
    ensures var uses := Uses(rows, w);
            && Picks(uses, ds, denied) && (forall k: nat | k < |uses| :: k in ds <==> WasDenied(rows, uses[k], w))
            && Picks(uses, ws, waiting) && (forall k: nat | k < |uses| :: k in ws <==> WasNotAnswered(rows, uses[k]))
    ensures forall n: nat | Counts(rows, n, w) ::
              Selected(rows, w) == if n > |denied| && n == |denied| + |waiting| && DifferentIds(waiting) then denied + waiting else denied
  {
    hide Uses, DeniedIds, ResultIds, DenialCount, IsDeniedId, IsAnsweredId, Counts, Denied, Unmatched;
    var uses := Uses(rows, w);
    denied := Denied(uses, DeniedIds(rows, w));
    waiting := Unmatched(uses, denied, ResultIds(rows));
    ds := DeniedAre(uses, DeniedIds(rows, w));
    ws := UnmatchedAre(uses, denied, ResultIds(rows));
    forall k: nat | k < |uses|
      ensures k in ds <==> WasDenied(rows, uses[k], w)
      ensures k in ws <==> WasNotAnswered(rows, uses[k])
    {
      IdsAre(rows, uses[k].id, w);
      if WasDenied(rows, uses[k], w) { DeniedIsAnswered(rows, uses[k], w); }
      if uses[k] in denied {
        var j :| 0 <= j < |denied| && denied[j] == uses[k];
        assert ds[j] in ds && uses[ds[j]] == uses[k];
        IdsAre(rows, uses[ds[j]].id, w);
      }
    }
    forall n: nat | Counts(rows, n, w) ensures n == DenialCount(rows, w) { CountIs(rows, w, n); }
  }

  // ---------------------------------------------------------------- the evidence

  function Least(a: nat, b: nat): nat { if a <= b then a else b }

  function Greatest(a: nat, b: nat): nat { if a <= b then b else a }

  /** One retained invocation. */
  predicate TellsCall(v: Value, u: Use) {
    v == Obj(map["sequence" := Int(u.sequence), "tool" := Str(u.tool), "request" := u.request])
  }

  /** There is no evidence exactly when the count is zero and no call is selected. */
  lemma NoEvidenceIff(rows: seq<Row>, w: Wording)
    ensures DeniedToolEvidence(rows, w) == None <==> Counts(rows, 0, w) && Selected(rows, w) == []
  {
    hide Selected, DenialCount, Counts, FirstInvocations, Fitting, Capped, Evidence;
    CountIs(rows, w, 0);
  }

  /** Else it states the count, but at least as many as the first eight selected calls and at most eight; and it tells the
      first of the selected calls, as many of up to eight as fit. */
  lemma EvidenceIs(rows: seq<Row>, w: Wording, n: nat) returns (told: seq<Value>)
    requires Counts(rows, n, w) && (n > 0 || Selected(rows, w) != [])
    ensures var denialCount := Least(8, Greatest(n, |Selected(rows, w)|));
            DeniedToolEvidence(rows, w) == Some(Obj(map["version" := Int(1), "denialCount" := Int(denialCount),
                                                         "reason" := Str("permission_denied"), "invocations" := Arr(told)]))
    ensures |told| <= 8 && |told| <= |Selected(rows, w)|
    ensures forall k | 0 <= k < |told| :: TellsCall(told[k], Selected(rows, w)[k])
    ensures |told| < Least(8, |Selected(rows, w)|) ==>
              exists next :: TellsCall(next, Selected(rows, w)[|told|])
                             && DumpedSize(Evidence(Least(8, Greatest(n, |Selected(rows, w)|)), told + [next])) > 8192
  {
    hide Selected, DenialCount, Counts, DumpedSize;
    CountIs(rows, w, n);
    var invocations := FirstInvocations(Selected(rows, w));
    told := Fitting(Capped(n, invocations), invocations);
    FittingStops(Capped(n, invocations), invocations);
    InvocationCount(Selected(rows, w));
    if |told| < |invocations| {
      assert invocations[..|told| + 1] == told + [invocations[|told|]];
      assert TellsCall(invocations[|told|], Selected(rows, w)[|told|]);
    }
  }

  lemma InvocationCount(selected: seq<Use>)
    ensures |FirstInvocations(selected)| == Least(8, |selected|)
  {
  }

  lemma {:induction false} FittingStops(count: nat, invocations: seq<Value>)
    ensures var kept := Fitting(count, invocations);
            |kept| < |invocations| ==> DumpedSize(Evidence(count, invocations[..|kept| + 1])) > MaxDeniedEvidenceBytes
  {
    hide DumpedSize, Evidence;
    if DumpedSize(Evidence(count, invocations)) > MaxDeniedEvidenceBytes && invocations != [] {
      var init := invocations[..|invocations| - 1];
      FittingStops(count, init);
      var kept := Fitting(count, init);
      if |kept| < |init| {
        assert init[..|kept| + 1] == invocations[..|kept| + 1];
      } else {
        assert invocations[..|kept| + 1] == invocations;
      }
    }
  }
}
