/** The result schemas of the actions, and the bound the walker computes for each. */
module ActionSchemas {
  import opened Outcomes
  import opened Json
  import opened JsonSize
  import opened Schema
  import opened SchemaBound
  import Decimal

  function Text(low: nat, high: nat): Schema {
    Keywords(types := OneType(TString), minLength := low, maxLength := Some(high))
  }

  function Patterned(p: Pattern): Schema {
    Keywords(types := OneType(TString), pattern := Some(p))
  }

  function Choice(words: seq<string>): Schema {
    Keywords(types := OneType(TString), members := Some(seq(|words|, i requires 0 <= i < |words| => Str(words[i]))))
  }

  function Closed(required: seq<string>, properties: seq<Property>): Schema {
    Keywords(types := OneType(TObject), required := required, properties := properties, additional := AdditionalFalse)
  }

  function ListOf(low: nat, high: nat, item: Schema): Schema {
    Keywords(types := OneType(TArray), minItems := low, maxItems := Some(high), items := TheSchema(item))
  }

  function Flag(): Schema { Keywords(types := OneType(TBoolean)) }

  function Number(low: int, high: int): Schema {
    Keywords(types := OneType(TInteger), minimum := Some(low), maximum := Some(high))
  }

  const NlDecision := Closed(["mode"], [
    Property("mode", Choice(["action", "answer", "clarify"])),
    Property("action", Text(0, 80)),
    Property("free_text", Text(0, 6144)),
    Property("answer", Text(0, 12288))])

  const DeepReview := Closed(["text"], [Property("text", Text(1, 65536))])

  const TriageIssue := Closed(
    ["summary", "product_implications", "recommended_action", "recommended_reason", "evidence"], [
    Property("summary", Text(1, 4000)),
    Property("product_implications", Text(1, 4000)),
    Property("recommended_action", Choice(["close", "decline", "hold", "investigate", "comment"])),
    Property("recommended_reason", Text(1, 4000)),
    Property("evidence", Text(1, 12000))])

  const Resolution := Closed(["file", "hunk", "selection", "rationale"], [
    Property("file", Text(1, 240)),
    Property("hunk", Number(0, 999)),
    Property("selection", Choice(["ours", "theirs", "ours-then-theirs", "theirs-then-ours"])),
    Property("rationale", Text(0, 500))])

  const MergeResolve := Closed(["status", "reason", "resolutions"], [
    Property("status", Choice(["resolved", "cannot_safely_resolve"])),
    Property("reason", Text(0, 2000)),
    Property("resolutions", ListOf(0, 100, Resolution))])

  // ---------------------------------------------------------------- computing the bound

  predicate PlainText(s: string) {
    forall i | 0 <= i < |s| :: IsPlain(s[i])
  }

  lemma PlainTextSize(s: string)
    requires PlainText(s)
    ensures EscapedSize(s) == |s| && Size(Str(s)) == |s| + 2
  {
    SizeOfString(s);
    EscapedSizeBound(s);
  }

  /** What one declared property adds: its quoted name, a colon and a comma, and its value. */
  function Cost(properties: seq<Property>, costs: seq<nat>, i: nat): nat
    requires |properties| == |costs|
  {
    if i < |properties| then |properties[i].name| + 3 + costs[i] else 0
  }

  function Total(properties: seq<Property>, costs: seq<nat>, i: nat): nat
    requires |properties| == |costs|
    decreases |properties| - i
  {
    if i < |properties| then Cost(properties, costs, i) + Total(properties, costs, i + 1) else 0
  }

  function NineCosts(properties: seq<Property>, costs: seq<nat>): nat
    requires |properties| == |costs|
  {
    Cost(properties, costs, 0) + Cost(properties, costs, 1) + Cost(properties, costs, 2)
    + Cost(properties, costs, 3) + Cost(properties, costs, 4) + Cost(properties, costs, 5)
    + Cost(properties, costs, 6) + Cost(properties, costs, 7) + Cost(properties, costs, 8)
  }

  lemma TotalStep(properties: seq<Property>, costs: seq<nat>, i: nat)
    requires |properties| == |costs|
    ensures Total(properties, costs, i) == Cost(properties, costs, i) + Total(properties, costs, i + 1)
  {
    if i >= |properties| { assert Total(properties, costs, i + 1) == 0; }
  }

  lemma TotalOfNine(properties: seq<Property>, costs: seq<nat>)
    requires |properties| == |costs| <= 9
    ensures Total(properties, costs, 0) == NineCosts(properties, costs)
  {
    hide Cost;
    forall i: nat | i < 9 ensures Total(properties, costs, i) == Cost(properties, costs, i) + Total(properties, costs, i + 1) {
      TotalStep(properties, costs, i);
    }
    assert Total(properties, costs, 9) == 0;
  }

  lemma {:induction false} TotalIs(c: Checker, s: Schema, depth: nat, i: nat, costs: seq<nat>)
    requires i <= |s.properties| == |costs|
    requires forall j | 0 <= j < |costs| ::
               PlainText(s.properties[j].name) && c.WorstCase(s.properties[j].schema, depth) == Some(costs[j])
    ensures c.PropertiesTotal(s, depth, i) == Some(Total(s.properties, costs, i))
    decreases |costs| - i
  {
    hide c.WorstCase, Size, PlainText, EscapedSize;
    if i < |costs| {
      PlainTextSize(s.properties[i].name);
      TotalIs(c, s, depth, i + 1, costs);
    }
  }

  lemma ClosedIs(c: Checker, required: seq<string>, properties: seq<Property>, depth: nat, costs: seq<nat>)
    requires |properties| == |costs| <= 9 && properties != []
    requires forall j | 0 <= j < |costs| ::
               PlainText(properties[j].name) && c.WorstCase(properties[j].schema, depth) == Some(costs[j])
    ensures c.WorstCase(Closed(required, properties), depth) == Some(1 + |properties| + NineCosts(properties, costs))
  {
    hide PlainText, NineCosts, Total;
    hide c.PropertiesTotal;
    TotalIs(c, Closed(required, properties), depth, 0, costs);
    TotalOfNine(properties, costs);
  }

  function Longest(words: seq<string>): nat {
    if words == [] then 0 else Max(|words[0]|, Longest(words[1..]))
  }

  lemma {:induction false} WordsIs(words: seq<string>, values: seq<Value>)
    requires words != [] && forall i | 0 <= i < |words| :: PlainText(words[i])
    requires |values| == |words| && forall i | 0 <= i < |words| :: values[i] == Str(words[i])
    ensures MaxSize(values) == Some(2 + Longest(words))
  {
    hide Size, PlainText;
    PlainTextSize(words[0]);
    if |words| == 1 {
      assert values[1..] == [] && words[1..] == [];
    } else {
      WordsIs(words[1..], values[1..]);
    }
  }

  lemma ChoiceIs(c: Checker, words: seq<string>, depth: nat)
    requires words != [] && forall i | 0 <= i < |words| :: PlainText(words[i])
    ensures c.WorstCase(Choice(words), depth) == Some(2 + Longest(words))
  {
    WordsIs(words, Choice(words).members.value);
  }

  lemma TextIs(c: Checker, low: nat, high: nat, depth: nat)
    ensures c.WorstCase(Text(low, high), depth) == Some(2 + 6 * high)
  {
  }

  lemma PatternIs(c: Checker, p: Pattern, depth: nat)
    requires PatternMaxChars(p).Some?
    ensures c.WorstCase(Patterned(p), depth) == Some(2 + PatternMaxChars(p).value)
  {
  }

  lemma FlagIs(c: Checker, depth: nat)
    ensures c.WorstCase(Flag(), depth) == Some(5)
  {
  }

  lemma NumberIs(c: Checker, low: nat, high: nat, depth: nat)
    requires low <= high
    ensures c.WorstCase(Number(low, high), depth) == Some(|Decimal.Text(high)|)
  {
    SizeOfInt(low);
    SizeOfInt(high);
    Decimal.TextBetween(low, high, high);
    Decimal.DigitsMonotone(low, high);
  }

  lemma NlWordsArePlain()
    ensures PlainText("mode") && PlainText("action") && PlainText("free_text") && PlainText("answer") && PlainText("clarify")
  {
  }

  lemma NlDecisionBound(c: Checker, depth: nat)
    ensures c.WorstCase(NlDecision, depth) == Some(111129)
  {
    hide c.WorstCase, PlainText;
    NlWordsArePlain();
    ChoiceIs(c, ["action", "answer", "clarify"], depth);
    TextIs(c, 0, 80, depth);
    TextIs(c, 0, 6144, depth);
    TextIs(c, 0, 12288, depth);
    ClosedIs(c, ["mode"], NlDecision.properties, depth, [9, 482, 36866, 73730]);
  }

  lemma DeepReviewBound(c: Checker, depth: nat)
    ensures c.WorstCase(DeepReview, depth) == Some(393227)
  {
    hide c.WorstCase;
    TextIs(c, 1, 65536, depth);
    ClosedIs(c, ["text"], DeepReview.properties, depth, [393218]);
  }

  lemma IssueWordsArePlain()
    ensures PlainText("summary") && PlainText("product_implications") && PlainText("recommended_action")
    ensures PlainText("recommended_reason") && PlainText("evidence")
  {
  }

  lemma ActionWordsArePlain()
    ensures PlainText("close") && PlainText("decline") && PlainText("hold") && PlainText("investigate") && PlainText("comment")
  {
  }

  lemma TriageIssueBound(c: Checker, depth: nat)
    ensures c.WorstCase(TriageIssue, depth) == Some(144113)
  {
    hide c.WorstCase, PlainText;
    IssueWordsArePlain();
    ActionWordsArePlain();
    ChoiceIs(c, ["close", "decline", "hold", "investigate", "comment"], depth);
    TextIs(c, 1, 4000, depth);
    TextIs(c, 1, 12000, depth);
    ClosedIs(c, TriageIssue.required, TriageIssue.properties, depth, [24002, 24002, 13, 24002, 72002]);
  }

  lemma ResolveWordsArePlain()
    ensures PlainText("file") && PlainText("hunk") && PlainText("selection") && PlainText("rationale")
    ensures PlainText("ours") && PlainText("theirs") && PlainText("ours-then-theirs") && PlainText("theirs-then-ours")
  {
  }

  lemma MergeWordsArePlain()
    ensures PlainText("status") && PlainText("reason") && PlainText("resolutions")
    ensures PlainText("resolved") && PlainText("cannot_safely_resolve")
  {
  }

  lemma ListIs(c: Checker, low: nat, high: nat, item: Schema, depth: nat, n: nat)
    requires c.WorstCase(item, depth) == Some(n) && high > 0
    ensures c.WorstCase(ListOf(low, high, item), depth) == Some(1 + high * n + high)
  {
  }

  lemma ResolutionBound(c: Checker, depth: nat)
    ensures c.WorstCase(Resolution, depth) == Some(4508)
  {
    hide c.WorstCase, PlainText;
    ResolveWordsArePlain();
    ChoiceIs(c, ["ours", "theirs", "ours-then-theirs", "theirs-then-ours"], depth);
    TextIs(c, 1, 240, depth);
    TextIs(c, 0, 500, depth);
    NumberIs(c, 0, 999, depth);
    ClosedIs(c, Resolution.required, Resolution.properties, depth, [1442, 3, 18, 3002]);
  }

  lemma MergeResolveBound(c: Checker, depth: nat)
    ensures c.WorstCase(MergeResolve, depth) == Some(462962)
  {
    hide c.WorstCase, PlainText;
    MergeWordsArePlain();
    ResolutionBound(c, depth);
    ListIs(c, 0, 100, Resolution, depth, 4508);
    ChoiceIs(c, ["resolved", "cannot_safely_resolve"], depth);
    TextIs(c, 0, 2000, depth);
    ClosedIs(c, MergeResolve.required, MergeResolve.properties, depth, [23, 12002, 450901]);
  }

  // ---------------------------------------------------------------- pull-request triage

  function Const(word: string): Schema { Keywords(constant := Some(Str(word))) }

  function EnumOf(words: seq<string>): Schema {
    Keywords(members := Some(seq(|words|, i requires 0 <= i < |words| => Str(words[i]))))
  }

  function Ref(name: string): Schema { Keywords(ref := Some(Local(name))) }

  const OtherBasis := Closed(["kind", "observation_id", "context_id"], [
    Property("kind", Const("other")),
    Property("observation_id", Patterned(Sha256Tag)),
    Property("context_id", Patterned(Sha256Tag))])

  const TestsBasis := Closed(["kind", "observation_id", "context_id", "check_names"], [
    Property("kind", EnumOf(["configured-tests-not-run", "configured-tests-not-green"])),
    Property("observation_id", Patterned(Sha256Tag)),
    Property("context_id", Patterned(Sha256Tag)),
    Property("check_names", ListOf(1, 16, Text(1, 300)))])

  const Criterion := Closed(["id", "quote", "external_source_required"], [
    Property("id", Patterned(Slug)),
    Property("quote", Text(8, 2048)),
    Property("external_source_required", Flag())])

  const VisionEvidence := Closed(
    ["target_owner", "target_repo", "target_number", "target_facts_sha256", "vision_sha",
     "vision_content_sha256", "base_sha", "target_head_sha", "applicable_criteria"], [
    Property("target_owner", Text(1, 100)),
    Property("target_repo", Text(1, 100)),
    Property("target_number", Number(1, 2147483647)),
    Property("target_facts_sha256", Patterned(Hex64)),
    Property("vision_sha", Patterned(Hex7To64)),
    Property("vision_content_sha256", Patterned(Hex64)),
    Property("base_sha", Patterned(Hex7To64)),
    Property("target_head_sha", Patterned(Hex7To64)),
    Property("applicable_criteria", ListOf(0, 32, Criterion))])

  const InspectedFile := Closed(["path", "sha256"], [
    Property("path", Text(1, 1024)),
    Property("sha256", Patterned(Hex64))])

  const SourceProvenance := Closed(["url", "requested_ref", "resolved_commit", "inspected_files"], [
    Property("url", Text(1, 2048)),
    Property("requested_ref", Text(1, 255)),
    Property("resolved_commit", Patterned(Hex40To64)),
    Property("inspected_files", ListOf(1, 128, InspectedFile))])

  const BehaviorEvidenceRef := Closed(["source", "quote"], [
    Property("source", Patterned(EvidencePath)),
    Property("quote", Text(12, 2048))])

  const EvidenceRef := Closed(["source", "quote"], [
    Property("source", Patterned(TargetPath)),
    Property("quote", Text(12, 2048))])

  const Assertion := Closed(["claim", "subject", "effect", "evidence"], [
    Property("claim", Text(1, 700)),
    Property("subject", Choice(["existing_mode", "default_behavior", "existing_workflow", "delivery_contract", "documentation_or_tests"])),
    Property("effect", Choice(["unchanged", "restored", "changed", "tightened", "new_requirement"])),
    Property("evidence", Ref("behaviorEvidenceRef"))])

  const Restoration := Closed(
    ["corrected_defect", "corrected_defect_evidence", "intended_behavior_restored", "intended_behavior_restored_evidence"], [
    Property("corrected_defect", Text(12, 500)),
    Property("corrected_defect_evidence", Ref("evidenceRef")),
    Property("intended_behavior_restored", Text(12, 500)),
    Property("intended_behavior_restored_evidence", Ref("evidenceRef"))])

  const Automerge := Closed(["behavior_class", "changes_existing_or_default_behavior", "optin_default_off"], [
    Property("behavior_class", Choice(["A", "B", "C", "ineligible"])),
    Property("behavior_assertions", ListOf(0, 12, Assertion)),
    Property("class_b_restoration", Restoration),
    Property("external_source_required", Flag()),
    Property("aligns_with_vision", Flag()),
    Property("changes_existing_or_default_behavior", Flag()),
    Property("optin_default_off", Flag()),
    Property("recommend_merge", Flag())])

  const Basis := Keywords(oneOf := Schemas.Schemas([OtherBasis, TestsBasis]))

  const TriagePr := Closed(
    ["summary", "product_implications", "recommended_action", "recommended_reason", "evidence", "recommendation_basis"], [
    Property("summary", Text(1, 4000)),
    Property("product_implications", Text(1, 4000)),
    Property("recommended_action", Choice(["merge", "request-changes", "decline", "close", "hold", "investigate", "comment"])),
    Property("recommended_reason", Text(1, 4000)),
    Property("evidence", Text(1, 12000)),
    Property("recommendation_basis", Basis),
    Property("vision_evidence", VisionEvidence),
    Property("source_provenance", SourceProvenance),
    Property("automerge", Automerge)])

  const PrDefs: Defs := map["evidenceRef" := EvidenceRef, "behaviorEvidenceRef" := BehaviorEvidenceRef]

  lemma BasisWordsArePlain()
    ensures PlainText("kind") && PlainText("observation_id") && PlainText("context_id") && PlainText("check_names")
    ensures PlainText("other")
  {
  }

  lemma BasisKindsArePlain()
    ensures PlainText("configured-tests-not-run") && PlainText("configured-tests-not-green")
  {
  }

  lemma BasisBound(c: Checker, depth: nat)
    ensures c.WorstCase(Basis, depth) == Some(29079)
  {
    hide c.MaxOver;
    hide OtherBasis, TestsBasis;
    BasisMaximum(c, depth);
    assert Basis.oneOf.list == [OtherBasis, TestsBasis];
  }

  lemma BasisMaximum(c: Checker, depth: nat)
    ensures Basis.oneOf == Schemas.Schemas([OtherBasis, TestsBasis])
    ensures c.MaxOver([OtherBasis, TestsBasis], Basis, depth, 0) == Some(29079)
  {
    hide c.WorstCase;
    TestsBasisBound(c, depth);
    OtherBasisBound(c, depth);
    assert c.MaxOver([OtherBasis, TestsBasis], Basis, depth, 1) == Some(29079);
  }

  lemma TestsBasisBound(c: Checker, depth: nat)
    ensures c.WorstCase(TestsBasis, depth) == Some(29079)
  {
    hide c.WorstCase, PlainText;
    BasisWordsArePlain();
    BasisKindsArePlain();
    PatternIs(c, Sha256Tag, depth);
    TextIs(c, 1, 300, depth);
    EnumIs(c, ["configured-tests-not-run", "configured-tests-not-green"], depth);
    ListIs(c, 1, 16, Text(1, 300), depth, 1802);
    ClosedIs(c, TestsBasis.required, TestsBasis.properties, depth, [28, 73, 73, 28849]);
  }

  lemma OtherBasisBound(c: Checker, depth: nat)
    ensures c.WorstCase(OtherBasis, depth) == Some(194)
  {
    hide c.WorstCase, PlainText;
    BasisWordsArePlain();
    PatternIs(c, Sha256Tag, depth);
    ConstIs(c, "other", depth);
    ClosedIs(c, OtherBasis.required, OtherBasis.properties, depth, [7, 73, 73]);
  }

  lemma EnumIs(c: Checker, words: seq<string>, depth: nat)
    requires words != [] && forall i | 0 <= i < |words| :: PlainText(words[i])
    ensures c.WorstCase(EnumOf(words), depth) == Some(2 + Longest(words))
  {
    WordsIs(words, EnumOf(words).members.value);
  }

  lemma ConstIs(c: Checker, word: string, depth: nat)
    requires PlainText(word)
    ensures c.WorstCase(Const(word), depth) == Some(2 + |word|)
  {
    PlainTextSize(word);
  }

  lemma RefIs(c: Checker, name: string, depth: nat)
    requires name in c.defs && depth > 0
    ensures c.WorstCase(Ref(name), depth) == c.WorstCase(c.defs[name], depth - 1)
  {
  }

  lemma VisionWordsArePlain()
    ensures PlainText("target_owner") && PlainText("target_repo") && PlainText("target_number") && PlainText("vision_sha")
    ensures PlainText("base_sha") && PlainText("target_head_sha") && PlainText("id") && PlainText("quote")
  {
  }

  lemma MoreVisionWordsArePlain()
    ensures PlainText("target_facts_sha256") && PlainText("vision_content_sha256")
    ensures PlainText("applicable_criteria") && PlainText("external_source_required")
  {
  }

  lemma TenDigits()
    ensures |Decimal.Text(2147483647)| == 10
  {
  }

  lemma CriterionBound(c: Checker, depth: nat)
    ensures c.WorstCase(Criterion, depth) == Some(12405)
  {
    hide c.WorstCase, PlainText;
    VisionWordsArePlain();
    MoreVisionWordsArePlain();
    PatternIs(c, Slug, depth);
    TextIs(c, 8, 2048, depth);
    FlagIs(c, depth);
    ClosedIs(c, Criterion.required, Criterion.properties, depth, [66, 12290, 5]);
  }

  lemma VisionEvidenceBound(c: Checker, depth: nat)
    ensures c.WorstCase(VisionEvidence, depth) == Some(398702)
  {
    hide c.WorstCase, PlainText;
    VisionWordsArePlain();
    MoreVisionWordsArePlain();
    TextIs(c, 1, 100, depth);
    PatternIs(c, Hex64, depth);
    PatternIs(c, Hex7To64, depth);
    NumberIs(c, 1, 2147483647, depth);
    TenDigits();
    CriterionBound(c, depth);
    ListIs(c, 0, 32, Criterion, depth, 12405);
    ClosedIs(c, VisionEvidence.required, VisionEvidence.properties, depth, [602, 602, 10, 66, 66, 66, 66, 66, 396993]);
  }

  lemma SourceWordsArePlain()
    ensures PlainText("path") && PlainText("sha256") && PlainText("url") && PlainText("requested_ref")
    ensures PlainText("resolved_commit") && PlainText("inspected_files") && PlainText("source") && PlainText("quote")
  {
  }

  lemma SourceProvenanceBound(c: Checker, depth: nat)
    ensures c.WorstCase(SourceProvenance, depth) == Some(811648)
  {
    hide c.WorstCase, PlainText;
    SourceWordsArePlain();
    TextIs(c, 1, 1024, depth);
    PatternIs(c, Hex64, depth);
    TextIs(c, 1, 2048, depth);
    TextIs(c, 1, 255, depth);
    PatternIs(c, Hex40To64, depth);
    ClosedIs(c, InspectedFile.required, InspectedFile.properties, depth, [6146, 66]);
    ListIs(c, 1, 128, InspectedFile, depth, 6231);
    ClosedIs(c, SourceProvenance.required, SourceProvenance.properties, depth, [12290, 1532, 66, 797697]);
  }

  lemma EvidenceRefBounds(c: Checker, depth: nat)
    ensures c.WorstCase(EvidenceRef, depth) == Some(13223)
    ensures c.WorstCase(BehaviorEvidenceRef, depth) == Some(13223)
  {
    hide c.WorstCase, PlainText;
    SourceWordsArePlain();
    PatternIs(c, EvidencePath, depth);
    PatternIs(c, TargetPath, depth);
    TextIs(c, 12, 2048, depth);
    ClosedIs(c, EvidenceRef.required, EvidenceRef.properties, depth, [913, 12290]);
    ClosedIs(c, BehaviorEvidenceRef.required, BehaviorEvidenceRef.properties, depth, [913, 12290]);
  }

  lemma AssertionWordsArePlain()
    ensures PlainText("claim") && PlainText("subject") && PlainText("effect") && PlainText("evidence")
    ensures PlainText("unchanged") && PlainText("restored") && PlainText("changed") && PlainText("tightened") && PlainText("new_requirement")
  {
  }

  lemma SubjectsArePlain()
    ensures PlainText("existing_mode") && PlainText("default_behavior") && PlainText("existing_workflow")
    ensures PlainText("delivery_contract") && PlainText("documentation_or_tests")
  {
  }

  lemma AssertionBound(c: Checker, depth: nat)
    requires c.defs == PrDefs && depth > 0
    ensures c.WorstCase(Assertion, depth) == Some(17509)
  {
    hide c.WorstCase, PlainText, Text, Choice, Ref;
    AssertionWordsArePlain();
    SubjectsArePlain();
    TextIs(c, 1, 700, depth);
    ChoiceIs(c, ["existing_mode", "default_behavior", "existing_workflow", "delivery_contract", "documentation_or_tests"], depth);
    ChoiceIs(c, ["unchanged", "restored", "changed", "tightened", "new_requirement"], depth);
    RefIs(c, "behaviorEvidenceRef", depth);
    EvidenceRefBounds(c, depth - 1);
    ClosedIs(c, Assertion.required, Assertion.properties, depth, [4202, 24, 17, 13223]);
  }

  lemma RestorationWordsArePlain()
    ensures PlainText("corrected_defect") && PlainText("corrected_defect_evidence")
    ensures PlainText("intended_behavior_restored") && PlainText("intended_behavior_restored_evidence")
  {
  }

  lemma RestorationBound(c: Checker, depth: nat)
    requires c.defs == PrDefs && depth > 0
    ensures c.WorstCase(Restoration, depth) == Some(32569)
  {
    hide c.WorstCase, PlainText;
    RestorationWordsArePlain();
    TextIs(c, 12, 500, depth);
    RefIs(c, "evidenceRef", depth);
    EvidenceRefBounds(c, depth - 1);
    ClosedIs(c, Restoration.required, Restoration.properties, depth, [3002, 13223, 3002, 13223]);
  }

  lemma AutomergeWordsArePlain()
    ensures PlainText("behavior_class") && PlainText("behavior_assertions") && PlainText("class_b_restoration")
    ensures PlainText("external_source_required") && PlainText("A") && PlainText("B") && PlainText("C") && PlainText("ineligible")
  {
  }

  lemma AutomergeFlagsArePlain()
    ensures PlainText("aligns_with_vision") && PlainText("changes_existing_or_default_behavior")
    ensures PlainText("optin_default_off") && PlainText("recommend_merge")
  {
  }

  lemma AutomergeBound(c: Checker, depth: nat)
    requires c.defs == PrDefs && depth > 0
    ensures c.WorstCase(Automerge, depth) == Some(242922)
  {
    hide c.WorstCase, PlainText;
    AutomergeWordsArePlain();
    AutomergeFlagsArePlain();
    FlagIs(c, depth);
    ChoiceIs(c, ["A", "B", "C", "ineligible"], depth);
    AssertionBound(c, depth);
    ListIs(c, 0, 12, Assertion, depth, 17509);
    RestorationBound(c, depth);
    ClosedIs(c, Automerge.required, Automerge.properties, depth, [12, 210121, 32569, 5, 5, 5, 5, 5]);
  }

  lemma PrWordsArePlain()
    ensures PlainText("recommendation_basis") && PlainText("vision_evidence") && PlainText("source_provenance")
    ensures PlainText("automerge") && PlainText("merge") && PlainText("request-changes")
  {
  }

  lemma TriagePrBound(c: Checker, depth: nat)
    requires c.defs == PrDefs && depth > 0
    ensures c.WorstCase(TriagePr, depth) == Some(1626545)
  {
    hide c.WorstCase, PlainText, Text, Choice, Basis, VisionEvidence, SourceProvenance, Automerge;
    PrWordsArePlain();
    IssueWordsArePlain();
    ActionWordsArePlain();
    TextIs(c, 1, 4000, depth);
    TextIs(c, 1, 12000, depth);
    ChoiceIs(c, ["merge", "request-changes", "decline", "close", "hold", "investigate", "comment"], depth);
    BasisBound(c, depth);
    VisionEvidenceBound(c, depth);
    SourceProvenanceBound(c, depth);
    AutomergeBound(c, depth);
    ClosedIs(c, TriagePr.required, TriagePr.properties, depth,
             [24002, 24002, 17, 24002, 72002, 29079, 398702, 811648, 242922]);
  }
}
