/** The per-action byte budgets, and the guarantee that a schema-valid result is never over its own cap. */
module SizeBudgets {
  import opened Outcomes
  import opened Json
  import opened Schema
  import opened SchemaBound
  import opened ActionSchemas

  datatype Action =
    | TriagePrLocal | TriagePrSearch | TriageIssueLocal | TriageIssueSearch | TriageSchemaRepair
    | DeepReviewLocal | DeepReviewSearch
    | NlDecisionLocal | NlDecisionSearch | NlDecisionSchemaRepair
    | MergeResolveConflicts

  function SchemaOf(action: Action): Schema {
    match action
    case TriagePrLocal | TriagePrSearch | TriageSchemaRepair => TriagePr
    case TriageIssueLocal | TriageIssueSearch => TriageIssue
    case DeepReviewLocal | DeepReviewSearch => DeepReview
    case NlDecisionLocal | NlDecisionSearch | NlDecisionSchemaRepair => NlDecision
    case MergeResolveConflicts => MergeResolve
  }

  function DefsOf(action: Action): Defs {
    if SchemaOf(action) == TriagePr then PrDefs else map[]
  }

  function MaxFinalBytes(action: Action): nat {
    match action
    case TriagePrLocal | TriagePrSearch | TriageSchemaRepair => 1638400
    case TriageIssueLocal | TriageIssueSearch => 196608
    case DeepReviewLocal | DeepReviewSearch => 458752
    case NlDecisionLocal | NlDecisionSearch | NlDecisionSchemaRepair => 131072
    case MergeResolveConflicts => 524288
  }

  function RepairCandidateMaxBytes(action: Action): nat {
    match action
    case NlDecisionLocal | NlDecisionSearch | NlDecisionSchemaRepair => 122880
    case _ => 24000
  }

  const FinalHeadroomBytes := 4096
  const MarkerMaxBytes := 96

  /** `delivered_retention_canonical_max_bytes` */
  function RetentionMaxBytes(action: Action): nat {
    Max(MaxFinalBytes(action), 2 + 6 * (RepairCandidateMaxBytes(action) + MarkerMaxBytes))
  }

  // ---------------------------------------------------------------- strictness of the shipped schemas

  lemma ClosedStrict(required: seq<string>, properties: seq<Property>)
    requires forall i | 0 <= i < |properties| :: Strict(properties[i].schema)
    ensures Strict(Closed(required, properties))
  {
  }

  lemma ListStrict(low: nat, high: nat, item: Schema)
    requires Strict(item)
    ensures Strict(ListOf(low, high, item))
  {
  }

  lemma TextStrict(low: nat, high: nat)
    ensures Strict(ActionSchemas.Text(low, high))
  {
  }

  lemma PatternStrict(p: Pattern)
    ensures Strict(Patterned(p))
  {
  }

  lemma WordsStrict(words: seq<string>)
    ensures Strict(Choice(words)) && Strict(EnumOf(words))
  {
    hide Size, MaxSize;
    var members := EnumOf(words).members.value;
    assert members == Choice(words).members.value;
    forall i | 0 <= i < |members| ensures MaxSize(members).Some? && Size(Twin(members[i])) <= MaxSize(members).value {
      MaxSizeCovers(members, i);
    }
  }

  lemma NumberStrict(low: int, high: int)
    ensures Strict(Number(low, high)) && Strict(Flag())
  {
  }

  lemma WordStrict(word: string)
    ensures Strict(Const(word)) && Strict(Ref(word))
  {
  }

  lemma BothStrict()
    ensures Strict(OtherBasis) && Strict(TestsBasis)
  {
    hide Strict, ActionSchemas.Text, Patterned, Const, EnumOf, ListOf;
    WordStrict("other");
    WordsStrict(["configured-tests-not-run", "configured-tests-not-green"]);
    PatternStrict(Sha256Tag);
    TextStrict(1, 300);
    ListStrict(1, 16, ActionSchemas.Text(1, 300));
    ClosedStrict(OtherBasis.required, OtherBasis.properties);
    ClosedStrict(TestsBasis.required, TestsBasis.properties);
  }

  lemma BasisStrict()
    ensures Strict(Basis)
  {
    BothStrict();
  }

  lemma AssertionStrict()
    ensures Strict(Assertion) && Strict(Restoration)
  {
    hide Strict, ActionSchemas.Text, Choice, Ref;
    TextStrict(1, 700);
    TextStrict(12, 500);
    WordsStrict(["existing_mode", "default_behavior", "existing_workflow", "delivery_contract", "documentation_or_tests"]);
    WordsStrict(["unchanged", "restored", "changed", "tightened", "new_requirement"]);
    WordStrict("behaviorEvidenceRef");
    WordStrict("evidenceRef");
    ClosedStrict(Assertion.required, Assertion.properties);
    ClosedStrict(Restoration.required, Restoration.properties);
  }

  lemma AutomergeStrict()
    ensures Strict(Automerge)
  {
    hide Strict, Choice, Flag, ListOf;
    WordsStrict(["A", "B", "C", "ineligible"]);
    NumberStrict(0, 0);
    AssertionStrict();
    ListStrict(0, 12, Assertion);
    ClosedStrict(Automerge.required, Automerge.properties);
  }

  lemma VisionStrict()
    ensures Strict(VisionEvidence)
  {
    hide Strict, ActionSchemas.Text, Patterned, Number, Flag, ListOf;
    TextStrict(1, 100);
    TextStrict(8, 2048);
    NumberStrict(1, 2147483647);
    PatternStrict(Slug);
    PatternStrict(Hex64);
    PatternStrict(Hex7To64);
    ClosedStrict(Criterion.required, Criterion.properties);
    ListStrict(0, 32, Criterion);
    ClosedStrict(VisionEvidence.required, VisionEvidence.properties);
  }

  lemma SourceStrict()
    ensures Strict(SourceProvenance) && AllStrict(PrDefs)
  {
    hide Strict, ActionSchemas.Text, Patterned, ListOf;
    TextStrict(1, 1024);
    TextStrict(1, 2048);
    TextStrict(1, 255);
    TextStrict(12, 2048);
    PatternStrict(Hex64);
    PatternStrict(Hex40To64);
    PatternStrict(EvidencePath);
    PatternStrict(TargetPath);
    ClosedStrict(InspectedFile.required, InspectedFile.properties);
    ListStrict(1, 128, InspectedFile);
    ClosedStrict(SourceProvenance.required, SourceProvenance.properties);
    ClosedStrict(EvidenceRef.required, EvidenceRef.properties);
    ClosedStrict(BehaviorEvidenceRef.required, BehaviorEvidenceRef.properties);
  }

  lemma TriagePrStrict()
    ensures Strict(TriagePr) && AllStrict(PrDefs)
  {
    hide Strict, AllStrict, ActionSchemas.Text, Choice;
    TextStrict(1, 4000);
    TextStrict(1, 12000);
    WordsStrict(["merge", "request-changes", "decline", "close", "hold", "investigate", "comment"]);
    BasisStrict();
    VisionStrict();
    SourceStrict();
    AutomergeStrict();
    ClosedStrict(TriagePr.required, TriagePr.properties);
  }

  lemma MergeResolveStrict()
    ensures Strict(MergeResolve)
  {
    hide Strict, ActionSchemas.Text, Choice, Number, ListOf;
    TextStrict(1, 240);
    TextStrict(0, 500);
    TextStrict(0, 2000);
    NumberStrict(0, 999);
    WordsStrict(["ours", "theirs", "ours-then-theirs", "theirs-then-ours"]);
    WordsStrict(["resolved", "cannot_safely_resolve"]);
    ClosedStrict(Resolution.required, Resolution.properties);
    ListStrict(0, 100, Resolution);
    ClosedStrict(MergeResolve.required, MergeResolve.properties);
  }

  lemma OthersStrict()
    ensures Strict(TriageIssue) && Strict(DeepReview) && Strict(NlDecision) && Strict(MergeResolve)
  {
    hide Strict, ActionSchemas.Text, Choice;
    TextStrict(1, 4000);
    TextStrict(1, 12000);
    TextStrict(1, 65536);
    TextStrict(0, 80);
    TextStrict(0, 6144);
    TextStrict(0, 12288);
    WordsStrict(["close", "decline", "hold", "investigate", "comment"]);
    WordsStrict(["action", "answer", "clarify"]);
    ClosedStrict(TriageIssue.required, TriageIssue.properties);
    ClosedStrict(DeepReview.required, DeepReview.properties);
    ClosedStrict(NlDecision.required, NlDecision.properties);
    MergeResolveStrict();
  }

  lemma WorstCases(action: Action, c: Checker)
    requires c.defs == DefsOf(action)
    ensures c.WorstCase(SchemaOf(action), 1).Some?
    ensures c.WorstCase(SchemaOf(action), 1).value + FinalHeadroomBytes <= MaxFinalBytes(action)
  {
    hide c.WorstCase;
    hide Closed;
    match action
    case TriagePrLocal | TriagePrSearch | TriageSchemaRepair => TriagePrBound(c, 1);
    case TriageIssueLocal | TriageIssueSearch => TriageIssueBound(c, 1);
    case DeepReviewLocal | DeepReviewSearch => DeepReviewBound(c, 1);
    case NlDecisionLocal | NlDecisionSearch | NlDecisionSchemaRepair => NlDecisionBound(c, 1);
    case MergeResolveConflicts => MergeResolveBound(c, 1);
  }

  /** A schema-valid result of any action is at least 4096 bytes under the action's own cap, so the
      bridge's size guard never rejects it. */
  lemma SchemaValidIsUnderCap(action: Action, c: Checker, v: Value, f: nat)
    requires c.defs == DefsOf(action) && c.Validate(v, SchemaOf(action), f) == Valid
    ensures Size(v) + FinalHeadroomBytes <= MaxFinalBytes(action)
  {
    hide Size, Strict;
    hide c.WorstCase, c.Validate;
    WorstCases(action, c);
    OthersStrict();
    TriagePrStrict();
    BoundSound(c, v, SchemaOf(action), f, 1);
  }

  /** For natural-language decisions the repair turn's candidate bound holds every valid value whole. */
  lemma ValidDecisionFitsRepair(c: Checker, v: Value, f: nat)
    requires c.defs == map[] && c.Validate(v, NlDecision, f) == Valid
    ensures Size(v) <= 111129 <= RepairCandidateMaxBytes(NlDecisionLocal)
  {
    hide Size, Strict;
    hide c.WorstCase, c.Validate;
    NlDecisionBound(c, 1);
    OthersStrict();
    BoundSound(c, v, NlDecision, f, 1);
  }
}
