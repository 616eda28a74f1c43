/** The candidate kept for the one repair turn: bounded on every branch, so never dropped for its size. */
module RepairCandidate {
  import opened Outcomes
  import opened Json
  import opened JsonSize
  import opened Schema
  import opened SizeBudgets
  import opened Bridge
  import opened Truncation
  import R = Retention
  import Red = Reduction
  import C = CompactTransport
  import Decimal
  import Utf8

  function ActionName(action: Action): string {
    match action
    case TriagePrLocal => "triage.pr.local"
    case TriagePrSearch => "triage.pr.search"
    case TriageIssueLocal => "triage.issue.local"
    case TriageIssueSearch => "triage.issue.search"
    case TriageSchemaRepair => "triage.schema-repair"
    case DeepReviewLocal => "deep-review.local"
    case DeepReviewSearch => "deep-review.search"
    case NlDecisionLocal => "nl-decision.local"
    case NlDecisionSearch => "nl-decision.search"
    case NlDecisionSchemaRepair => "nl-decision.schema-repair"
    case MergeResolveConflicts => "merge.resolve-conflicts"
  }

  /** The readers shorten or keep what they are given: stripping drops characters, and lenient
      decoding drops bytes. */
  ghost predicate Shortening(readers: Readers, lenient: Utf8.Bytes -> string) {
    (forall s :: Utf8.Length(readers.strip(s)) <= Utf8.Length(s)) && (forall bs :: Utf8.Length(lenient(bs)) <= |bs|)
  }

  /** `_raw_delivered_file`; `None` is a missing or irregular file. */
  function RawFile(file: Option<Utf8.Bytes>, maxBytes: nat, readers: Readers, lenient: Utf8.Bytes -> string): string {
    match file
    case None => ""
    case Some(content) =>
      if |content| > maxBytes then
        var prefix := lenient(content[..maxBytes]);
        prefix + Marker(Utf8.Length(prefix), |content|)
      else match Utf8.Decode(content)
        case None => ""
        case Some(text) => readers.strip(text)
  }

  /** A value within its cap, or the marked beginning of its canonical text. */
  function Retained(v: Value, maxBytes: nat, retention: nat): Value {
    if Size(v) <= maxBytes then v else Str(BoundedText(Render(v), retention))
  }

  /** What the terminal text parses to, by the action's own reader. */
  function ParsedResult(action: Action, text: string, readers: Readers): Option<Value> {
    var name := ActionName(action);
    ObjectOnly(if Extracts(name) then readers.extractObject(text) else readers.loads(text))
  }

  /** `_repair_candidate` */
  function Candidate(action: Action, terminal: R.Row, file: Option<Utf8.Bytes>, maxBytes: nat, readers: Readers,
                     lenient: Utf8.Bytes -> string): Option<Value>
  {
    var retention := RepairCandidateMaxBytes(action);
    if NativeStructured(ActionName(action)) && "structured_output" in terminal then
      Some(Retained(terminal["structured_output"], maxBytes, retention))
    else
      var text := ResultText(Some(terminal), readers);
      if text != "" && ParsedResult(action, text, readers).Some? then
        Some(Retained(ParsedResult(action, text, readers).value, maxBytes, retention))
      else
        var raw := RawFile(file, retention, readers, lenient);
        if raw != "" then Some(Str(raw))
        else if text != "" then Some(Str(BoundedText(text, retention)))
        else None
  }

  // ---------------------------------------------------------------- bounds

  const LargestSize := Decimal.Power10(19)

  lemma {:induction false} DecodeLength(bs: Utf8.Bytes)
    requires Utf8.Decode(bs).Some?
    ensures Utf8.Length(Utf8.Decode(bs).value) == |bs|
  {
    if bs != [] {
      var n := Utf8.Announced(bs[0]);
      DecodeLength(bs[n..]);
      var c, rest := Utf8.DecodeChar(bs).value, Utf8.Decode(bs[n..]).value;
      assert ([c] + rest)[1..] == rest;
    }
  }

  /** A text costs at most six bytes for each of its own. */
  lemma TextCost(text: string, most: nat)
    requires Utf8.Length(text) <= most
    ensures Size(Str(text)) <= 2 + 6 * most
  {
    hide EscapedSize;
    SizeOfString(text);
    EscapedSizeBound(text);
    Utf8.LengthBounds(text);
  }

  lemma MarkedLength(prefix: string, total: nat, most: nat)
    requires Utf8.Length(prefix) <= most && Utf8.Length(prefix) <= total < LargestSize
    ensures Utf8.Length(prefix + Marker(Utf8.Length(prefix), total)) <= most + MarkerMaxBytes
  {
    hide Marker, Decimal.Power10;
    C.MarkerLength(Utf8.Length(prefix), total);
    Utf8.LengthAppend(prefix, Marker(Utf8.Length(prefix), total));
  }

  lemma BoundedTextCost(text: string, retention: nat)
    requires Utf8.Length(text) < LargestSize
    ensures Size(Str(BoundedText(text, retention))) <= 2 + 6 * (retention + MarkerMaxBytes)
  {
    hide Marker, Size, Decimal.Power10;
    if Utf8.Length(text) <= retention {
      TextCost(text, retention + MarkerMaxBytes);
    } else {
      Utf8.CutIsPrefix(text, retention);
      MarkedLength(Utf8.Cut(text, retention), Utf8.Length(text), retention);
      TextCost(BoundedText(text, retention), retention + MarkerMaxBytes);
    }
  }

  lemma RetainedCost(v: Value, maxBytes: nat, retention: nat)
    requires Size(v) < LargestSize
    ensures Size(Retained(v, maxBytes, retention)) <= Max(maxBytes, 2 + 6 * (retention + MarkerMaxBytes))
  {
    hide Size, BoundedText, Decimal.Power10;
    if Size(v) > maxBytes {
      SizeIsLength(v);
      BoundedTextCost(Render(v), retention);
    }
  }

  lemma RawFileCost(file: Option<Utf8.Bytes>, retention: nat, readers: Readers, lenient: Utf8.Bytes -> string)
    requires Shortening(readers, lenient) && (file.Some? ==> |file.value| < LargestSize)
    ensures Size(Str(RawFile(file, retention, readers, lenient))) <= 2 + 6 * (retention + MarkerMaxBytes)
  {
    hide Marker, Size, Decimal.Power10, Utf8.Decode;
    var raw := RawFile(file, retention, readers, lenient);
    if file.Some? && |file.value| > retention {
      var prefix := lenient(file.value[..retention]);
      MarkedLength(prefix, |file.value|, retention);
    } else if file.Some? && Utf8.Decode(file.value).Some? {
      DecodeLength(file.value);
    }
    TextCost(raw, retention + MarkerMaxBytes);
  }

  /** Sizes that an address space can hold. */
  predicate Sane(action: Action, terminal: R.Row, file: Option<Utf8.Bytes>, readers: Readers) {
    && (file.Some? ==> |file.value| < LargestSize)
    && ("structured_output" in terminal ==> Size(terminal["structured_output"]) < LargestSize)
    && var text := ResultText(Some(terminal), readers);
       && Utf8.Length(text) < LargestSize
       && (ParsedResult(action, text, readers).Some? ==> Size(ParsedResult(action, text, readers).value) < LargestSize)
  }

  /** When an agent task carries its action's own cap, whatever is kept for the repair turn is within the
      retention bound, so the bridge's size guard never drops it. */
  lemma NoSilentDrop(action: Action, terminal: R.Row, file: Option<Utf8.Bytes>, readers: Readers, lenient: Utf8.Bytes -> string)
    requires Shortening(readers, lenient) && Sane(action, terminal, file, readers)
    ensures var kept := Candidate(action, terminal, file, MaxFinalBytes(action), readers, lenient);
            kept.Some? ==> Size(kept.value) <= RetentionMaxBytes(action)
  {
    hide Size, Retained, RawFile, BoundedText, ResultText, ParsedResult, NativeStructured, ActionName, Shortening;
    hide Decimal.Power10;
    var max, retention := MaxFinalBytes(action), RepairCandidateMaxBytes(action);
    var text := ResultText(Some(terminal), readers);
    if "structured_output" in terminal { RetainedCost(terminal["structured_output"], max, retention); }
    if ParsedResult(action, text, readers).Some? { RetainedCost(ParsedResult(action, text, readers).value, max, retention); }
    RawFileCost(file, retention, readers, lenient);
    BoundedTextCost(text, retention);
  }

  // ---------------------------------------------------------------- what is kept, against what was delivered

  lemma RawFileEmptyIff(file: Option<Utf8.Bytes>, maxBytes: nat, readers: Readers, lenient: Utf8.Bytes -> string)
    ensures RawFile(file, maxBytes, readers, lenient) == "" <==>
            file.None? || (|file.value| <= maxBytes
                           && (Utf8.Decode(file.value).None? || readers.strip(Utf8.Decode(file.value).value) == ""))
  {
    hide Utf8.Decode, Decimal.Power10;
    if file.Some? && |file.value| > maxBytes {
      var prefix := lenient(file.value[..maxBytes]);
      assert |Marker(Utf8.Length(prefix), |file.value|)| > 0;
    }
  }

  /** Nothing is kept exactly when the terminal row carries neither a structured value that the action
      reads nor the text of a run without error, and the file is missing, blank or, within the bound, no text. */
  lemma NothingIsKeptIff(action: Action, terminal: R.Row, file: Option<Utf8.Bytes>, maxBytes: nat, readers: Readers,
                         lenient: Utf8.Bytes -> string)
    ensures Candidate(action, terminal, file, maxBytes, readers, lenient) == None <==>
            && !(IsDecision(action) && "structured_output" in terminal)
            && (R.Field(terminal, "is_error") == Bool(false) ==>
                  match R.Field(terminal, "result") case Str(s) => readers.strip(s) == "" case _ => true)
            && (file.None? || (|file.value| <= RepairCandidateMaxBytes(action)
                               && (Utf8.Decode(file.value).None? || readers.strip(Utf8.Decode(file.value).value) == "")))
  {
    hide RawFile, Retained, ParsedResult, BoundedText, NativeStructured, ActionName, Utf8.Decode;
    NativeActions(action);
    RawFileEmptyIff(file, RepairCandidateMaxBytes(action), readers, lenient);
  }

  predicate IsDecision(action: Action) { action.NlDecisionLocal? || action.NlDecisionSearch? }

  predicate IsDeepReview(action: Action) { action.DeepReviewLocal? || action.DeepReviewSearch? }

  /** Which carrier each action reads: the tests on the action's name, told apart. */
  lemma NativeActions(action: Action)
    ensures NativeStructured(ActionName(action)) <==> IsDecision(action)
  {
    var name := ActionName(action);
    if IsDecision(action) {
      assert name[..11] == "nl-decision";
      assert |name| < 20;
    } else if action.TriageSchemaRepair? || action.NlDecisionSchemaRepair? {
    } else {
      assert name[0] != 'n';
    }
  }

  lemma DeepReviewActions(action: Action)
    ensures "deep-review" <= ActionName(action) <==> IsDeepReview(action)
  {
    var name := ActionName(action);
    if IsDeepReview(action) {
      assert name[..11] == "deep-review";
    } else {
      assert name[0] != 'd';
    }
  }

  lemma DecisionsParse(action: Action)
    requires IsDecision(action) || action.NlDecisionSchemaRepair?
    ensures !Extracts(ActionName(action))
  {
    assert ActionName(action)[0] == 'n';
  }

  lemma DeepReviewsParse(action: Action)
    requires IsDeepReview(action)
    ensures !Extracts(ActionName(action))
  {
    assert ActionName(action)[0] == 'd';
  }

  lemma OthersExtract(action: Action)
    requires !IsDecision(action) && !action.NlDecisionSchemaRepair? && !IsDeepReview(action)
    ensures Extracts(ActionName(action))
  {
    var name := ActionName(action);
    if !action.MergeResolveConflicts? {
      assert name[..7] == "triage.";
    }
  }

  /** The declared output file: no path at all, a path with no readable file, or its content. */
  type Declared = Option<Option<Utf8.Bytes>>

  function OnDisk(declared: Declared): Option<Utf8.Bytes> {
    match declared case None => None case Some(file) => file
  }

  /** What loading the declared file gives, for the reader of delivered values. */
  function Loaded(declared: Declared, load: Utf8.Bytes -> Option<Value>): Option<Option<Value>> {
    match declared
    case None => None
    case Some(file) => Some(match file case None => None case Some(content) => load(content))
  }

  /** A file that loads is text and not blank. */
  ghost predicate LoadsText(load: Utf8.Bytes -> Option<Value>, readers: Readers) {
    forall bs :: load(bs).Some? ==> Utf8.Decode(bs).Some? && readers.strip(Utf8.Decode(bs).value) != ""
  }

  /** Whatever was delivered, through any carrier and for any action, leaves something to repair. */
  lemma DeliveredIsKept(action: Action, terminal: R.Row, declared: Declared, maxBytes: nat, readers: Readers,
                        load: Utf8.Bytes -> Option<Value>, lenient: Utf8.Bytes -> string)
    requires LoadsText(load, readers)
    requires Delivered(ActionName(action), terminal, Loaded(declared, load), readers).Some?
    ensures Candidate(action, terminal, OnDisk(declared), maxBytes, readers, lenient).Some?
  {
    hide RawFile, Retained, ParsedResult, BoundedText, NativeStructured, ActionName, ResultText, Utf8.Decode;
    RawFileEmptyIff(OnDisk(declared), RepairCandidateMaxBytes(action), readers, lenient);
  }

  /** What the text readers guarantee: extraction gives objects, a fenced text is no JSON object as it stands, and
      no text is JSON for an object that holds that very text. */
  ghost predicate PlainReaders(readers: Readers) {
    && (forall s :: readers.extractObject(s).Some? ==> readers.extractObject(s).value.Obj?)
    && (forall s :: readers.unfence(s) != s ==> ObjectOnly(readers.loads(s)) == None)
    && (forall s :: readers.loads(s) != Some(Obj(map["text" := Str(s)])))
  }

  /** The terminal text and the delivered value agree: always for the two decision actions; without a declared
      file for every other action but deep review and a fenced decision repair; and with one when the terminal
      text holds the same value. */
  predicate TextCarries(action: Action, terminal: R.Row, declared: Declared, v: Value, readers: Readers) {
    var text := ResultText(Some(terminal), readers);
    if IsDecision(action) then true
    else if declared == None then !IsDeepReview(action) && (action.NlDecisionSchemaRepair? ==> readers.unfence(text) == text)
    else text != "" && ParsedResult(action, text, readers) == Some(v)
  }

  /** The terminal text, when there is one, holds this object. */
  predicate ParsesTo(action: Action, terminal: R.Row, v: Value, readers: Readers) {
    ResultText(Some(terminal), readers) != "" && ParsedResult(action, ResultText(Some(terminal), readers), readers) == Some(v)
  }

  predicate StructuredKept(action: Action, terminal: R.Row) {
    IsDecision(action) && "structured_output" in terminal
  }

  lemma DeliveredToDecision(action: Action, terminal: R.Row, file: Option<Option<Value>>, readers: Readers)
    requires IsDecision(action) && Delivered(ActionName(action), terminal, file, readers).Some?
    ensures var v := Delivered(ActionName(action), terminal, file, readers).value;
            if StructuredKept(action, terminal) then v == terminal["structured_output"] else ParsesTo(action, terminal, v, readers)
  {
    hide ResultText, NativeStructured, ActionName, ObjectOnly, Extracts;
    NativeActions(action);
    DecisionsParse(action);
  }

  lemma DeliveredFromText(action: Action, terminal: R.Row, readers: Readers)
    requires PlainReaders(readers) && !IsDecision(action) && Delivered(ActionName(action), terminal, None, readers).Some?
    ensures var v := Delivered(ActionName(action), terminal, None, readers).value;
            && v.Obj? && (TextCarries(action, terminal, None, v, readers) <==> ParsesTo(action, terminal, v, readers))
  {
    hide ResultText, NativeStructured, ActionName;
    NativeActions(action);
    DeepReviewActions(action);
    if action.NlDecisionSchemaRepair? {
      DecisionsParse(action);
    } else if IsDeepReview(action) {
      DeepReviewsParse(action);
    } else {
      OthersExtract(action);
    }
  }

  /** The carriers agree exactly when the delivered value is structured output or what the text holds. */
  lemma CarriersAgree(action: Action, terminal: R.Row, declared: Declared, readers: Readers, load: Utf8.Bytes -> Option<Value>)
    requires PlainReaders(readers) && Delivered(ActionName(action), terminal, Loaded(declared, load), readers).Some?
    ensures var v := Delivered(ActionName(action), terminal, Loaded(declared, load), readers).value;
            && (TextCarries(action, terminal, declared, v, readers) <==>
                  StructuredKept(action, terminal) || ParsesTo(action, terminal, v, readers))
            && (StructuredKept(action, terminal) ==> v == terminal["structured_output"])
  {
    hide ResultText, ParsedResult, ActionName, Delivered, PlainReaders;
    if IsDecision(action) {
      DeliveredToDecision(action, terminal, Loaded(declared, load), readers);
    } else if declared == None {
      DeliveredFromText(action, terminal, readers);
    }
  }

  lemma CandidateByCase(action: Action, terminal: R.Row, file: Option<Utf8.Bytes>, maxBytes: nat, readers: Readers,
                        lenient: Utf8.Bytes -> string)
    ensures var text, retention := ResultText(Some(terminal), readers), RepairCandidateMaxBytes(action);
            var kept := Candidate(action, terminal, file, maxBytes, readers, lenient);
            && (StructuredKept(action, terminal) ==> kept == Some(Retained(terminal["structured_output"], maxBytes, retention)))
            && (forall v | !StructuredKept(action, terminal) && ParsesTo(action, terminal, v, readers) ::
                  kept == Some(Retained(v, maxBytes, retention)))
            && (!StructuredKept(action, terminal) && (forall v :: !ParsesTo(action, terminal, v, readers)) ==>
                  kept == var raw := RawFile(file, retention, readers, lenient);
                          if raw != "" then Some(Str(raw)) else if text != "" then Some(Str(BoundedText(text, retention))) else None)
  {
    hide ResultText, ParsedResult, ActionName, NativeStructured, RawFile, Retained, BoundedText;
    NativeActions(action);
    var text := ResultText(Some(terminal), readers);
    if text != "" && ParsedResult(action, text, readers).Some? {
      assert ParsesTo(action, terminal, ParsedResult(action, text, readers).value, readers);
    }
  }

  /** When the carriers agree, a delivered value of any action is itself what is kept: whole when within the cap,
      else as the marked beginning of its canonical text. An object within the cap is kept whole only then. */
  lemma DeliveredValueIsKept(action: Action, terminal: R.Row, declared: Declared, maxBytes: nat, readers: Readers,
                             load: Utf8.Bytes -> Option<Value>, lenient: Utf8.Bytes -> string)
    requires PlainReaders(readers) && Delivered(ActionName(action), terminal, Loaded(declared, load), readers).Some?
    ensures var v := Delivered(ActionName(action), terminal, Loaded(declared, load), readers).value;
            var kept := Candidate(action, terminal, OnDisk(declared), maxBytes, readers, lenient);
            && (TextCarries(action, terminal, declared, v, readers) ==>
                  kept == Some(Retained(v, maxBytes, RepairCandidateMaxBytes(action))))
            && (v.Obj? && Size(v) <= maxBytes ==> (kept == Some(v) <==> TextCarries(action, terminal, declared, v, readers)))
  {
    hide ParsesTo, StructuredKept, TextCarries, Delivered, Candidate, ActionName, ResultText, Size, BoundedText, RawFile, PlainReaders;
    CarriersAgree(action, terminal, declared, readers, load);
    CandidateByCase(action, terminal, OnDisk(declared), maxBytes, readers, lenient);
    var v := Delivered(ActionName(action), terminal, Loaded(declared, load), readers).value;
    if !TextCarries(action, terminal, declared, v, readers) && exists w :: ParsesTo(action, terminal, w, readers) {
      var w :| ParsesTo(action, terminal, w, readers);
      assert w != v;
    }
  }

  /** A delivered text that the action's own reader makes no object of is kept as text, a fenced decision repair and
      an ordinary deep review among them. */
  lemma TextIsKept(action: Action, terminal: R.Row, maxBytes: nat, readers: Readers, lenient: Utf8.Bytes -> string)
    requires !IsDecision(action) && Delivered(ActionName(action), terminal, None, readers).Some?
    requires var text := ResultText(Some(terminal), readers); ObjectOnly(readers.loads(text)) == None
    requires IsDeepReview(action) || action.NlDecisionSchemaRepair?
    ensures Candidate(action, terminal, None, maxBytes, readers, lenient)
            == Some(Str(BoundedText(ResultText(Some(terminal), readers), RepairCandidateMaxBytes(action))))
  {
    hide ResultText, NativeStructured, ActionName, BoundedText, Retained;
    NativeActions(action);
    if action.NlDecisionSchemaRepair? { DecisionsParse(action); } else { DeepReviewsParse(action); }
  }

  /** A delivered file is kept as text when the terminal text holds no object. */
  lemma FileIsKept(action: Action, terminal: R.Row, content: Utf8.Bytes, maxBytes: nat, readers: Readers,
                   load: Utf8.Bytes -> Option<Value>, lenient: Utf8.Bytes -> string)
    requires LoadsText(load, readers) && !IsDecision(action) && load(content).Some?
    requires forall v :: !ParsesTo(action, terminal, v, readers)
    ensures Delivered(ActionName(action), terminal, Loaded(Some(Some(content)), load), readers) == load(content)
    ensures Candidate(action, terminal, OnDisk(Some(Some(content))), maxBytes, readers, lenient)
            == Some(Str(if |content| <= RepairCandidateMaxBytes(action) then readers.strip(Utf8.Decode(content).value)
                        else RawFile(Some(content), RepairCandidateMaxBytes(action), readers, lenient)))
  {
    hide ParsesTo, StructuredKept, NativeStructured, ActionName, ResultText, BoundedText, Candidate, Utf8.Decode, Marker;
    NativeActions(action);
    assert !StructuredKept(action, terminal) by { NotStructured(action, terminal); }
    RawFileEmptyIff(Some(content), RepairCandidateMaxBytes(action), readers, lenient);
    CandidateByCase(action, terminal, Some(content), maxBytes, readers, lenient);
  }

  lemma NotStructured(action: Action, terminal: R.Row)
    requires !IsDecision(action)
    ensures !StructuredKept(action, terminal)
  {
  }

  lemma ValidIsObject(action: Action, c: Checker, v: Value, f: nat)
    requires c.Validate(v, SchemaOf(action), f) == Valid
    ensures v.Obj?
  {
    hide c.OneOf, c.AnyOf, c.AllOf, c.Fields, c.Items;
    assert SchemaOf(action).types == OneType(TObject) && SchemaOf(action).ref == None;
  }

  /** A schema-valid delivered value that fails a later check reaches the repair turn whole exactly when the
      carriers agree. */
  lemma ValidIsKeptWholeIff(action: Action, terminal: R.Row, declared: Declared, readers: Readers,
                            load: Utf8.Bytes -> Option<Value>, lenient: Utf8.Bytes -> string, c: Checker, f: nat)
    requires PlainReaders(readers) && c.defs == DefsOf(action)
    requires var v := Delivered(ActionName(action), terminal, Loaded(declared, load), readers);
             v.Some? && c.Validate(v.value, SchemaOf(action), f) == Valid
    ensures var v := Delivered(ActionName(action), terminal, Loaded(declared, load), readers).value;
            Candidate(action, terminal, OnDisk(declared), MaxFinalBytes(action), readers, lenient) == Some(v) <==>
            TextCarries(action, terminal, declared, v, readers)
  {
    hide Delivered, Candidate, ActionName, TextCarries, Size, PlainReaders, SchemaOf;
    hide c.Validate;
    var v := Delivered(ActionName(action), terminal, Loaded(declared, load), readers).value;
    DeliveredValueIsKept(action, terminal, declared, MaxFinalBytes(action), readers, load, lenient);
    ValidIsObject(action, c, v, f);
    SchemaValidIsUnderCap(action, c, v, f);
  }

  /** Every shipped action keeps the carrier it reads. */
  lemma ActionsKeepCarrier(action: Action)
    ensures Red.CarrierAgrees(ActionName(action))
  {
    var name := ActionName(action);
    if action.NlDecisionLocal? || action.NlDecisionSearch? {
      assert name[..12] == "nl-decision.";
      assert |name| < 26;
    } else if !action.NlDecisionSchemaRepair? {
      assert name[0] != 'n';
    }
  }

  /** The repair candidate is the same from the reduced transcript as from the full one. */
  lemma CandidateSurvivesReduction(action: Action, row: R.Row, file: Option<Utf8.Bytes>, maxBytes: nat, readers: Readers,
                                   lenient: Utf8.Bytes -> string)
    requires R.IsResult(row)
    ensures Candidate(action, R.ReduceRow(row, ActionName(action)), file, maxBytes, readers, lenient)
            == Candidate(action, row, file, maxBytes, readers, lenient)
  {
    hide R.ReduceRow, R.KeepsStructured, NativeStructured, ActionName, ResultText, RawFile, Retained, ParsedResult, BoundedText;
    ActionsKeepCarrier(action);
    Red.TerminalFieldsKept(row, ActionName(action), 0, readers);
    Red.ReducedStructuredOutput(row, ActionName(action));
  }
}
