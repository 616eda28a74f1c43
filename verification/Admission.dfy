/** The identity of an agent event and the key derived from it. */
module Admission {
  import opened Outcomes
  import opened Json
  import JsonParser
  import Utf8

  /** The arguments of `normalized_event_identity`; an empty string stands for an absent context. */
  datatype Event = Event(
    action: string,
    owner: string,
    repo: string,
    number: int,
    cardIssue: int,
    revision: string,
    eventId: string,
    reviewContext: string,
    recoveryContext: string)

  const Actions: set<string> := {
    "triage.pr.local", "triage.pr.search", "triage.issue.local", "triage.issue.search", "triage.schema-repair",
    "deep-review.local", "deep-review.search",
    "nl-decision.local", "nl-decision.search", "nl-decision.schema-repair",
    "merge.resolve-conflicts" }

  predicate IsAlphanumeric(c: char) { '0' <= c <= '9' || 'a' <= c <= 'z' || 'A' <= c <= 'Z' }

  predicate IsName(s: string) {
    1 <= |s| <= 100 && forall i | 0 <= i < |s| :: IsAlphanumeric(s[i]) || s[i] in {'_', '.', '-'}
  }

  predicate IsToken(s: string, most: nat) {
    1 <= |s| <= most && forall i | 0 <= i < |s| :: IsAlphanumeric(s[i]) || s[i] in {':', '.', '_', '+', '-'}
  }

  predicate IsDigest(s: string) {
    |s| == 64 && forall i | 0 <= i < 64 :: '0' <= s[i] <= '9' || 'a' <= s[i] <= 'f'
  }

  /** Every check before the identity is built. */
  predicate Admissible(e: Event) {
    && e.action in Actions
    && IsName(e.owner) && IsName(e.repo) && e.number >= 1 && e.cardIssue >= 1
    && IsToken(e.revision, 160)
    && (("nl-decision." <= e.action || "deep-review." <= e.action) <==> e.eventId != "")
    && (e.eventId != "" ==> IsToken(e.eventId, 200))
    && (e.reviewContext != "" ==> IsDigest(e.reviewContext))
    && (e.recoveryContext != "" ==> IsDigest(e.recoveryContext))
    && (e.reviewContext != "" || e.recoveryContext != "" ==> "triage.pr." <= e.action || e.action == "triage.schema-repair")
    && (e.recoveryContext != "" ==> e.reviewContext != "")
  }

  function Target(e: Event): Value {
    Obj(map["owner" := Str(e.owner), "repo" := Str(e.repo), "number" := Int(e.number)])
  }

  function Base(e: Event): map<string, Value> {
    map["version" := Int(1), "action" := Str(e.action), "target" := Target(e), "cardIssue" := Int(e.cardIssue),
        "revision" := Str(e.revision), "eventId" := if e.eventId == "" then Null else Str(e.eventId)]
  }

  /** Absent contexts are left out of the identity, not written as null. */
  function Identity(e: Event): Value {
    var fields := Base(e);
    var reviewed := if e.reviewContext == "" then fields else fields["reviewContext" := Str(e.reviewContext)];
    Obj(if e.recoveryContext == "" then reviewed else reviewed["recoveryContext" := Str(e.recoveryContext)])
  }

  function NormalizedIdentity(e: Event): Option<Value> {
    if Admissible(e) then Some(Identity(e)) else None
  }

  /** What a reader of the identity finds under one key. */
  function At(v: Value, key: string): Option<Value> {
    if v.Obj? && key in v.fields then Some(v.fields[key]) else None
  }

  lemma TargetFields(e: Event)
    ensures At(Target(e), "owner") == Some(Str(e.owner))
    ensures At(Target(e), "repo") == Some(Str(e.repo))
    ensures At(Target(e), "number") == Some(Int(e.number))
  {
  }

  lemma BaseFields(e: Event)
    ensures var b := Obj(Base(e));
            && At(b, "action") == Some(Str(e.action)) && At(b, "target") == Some(Target(e))
            && At(b, "cardIssue") == Some(Int(e.cardIssue)) && At(b, "revision") == Some(Str(e.revision))
            && At(b, "eventId") == Some(if e.eventId == "" then Null else Str(e.eventId))
            && At(b, "reviewContext") == None && At(b, "recoveryContext") == None
  {
    hide Target;
    assert "action" != "target" && "action" != "cardIssue" && "action" != "revision" && "action" != "eventId";
    assert "target" != "cardIssue" && "target" != "revision" && "target" != "eventId";
    assert "cardIssue" != "revision" && "cardIssue" != "eventId" && "revision" != "eventId";
  }

  lemma IdentityFields(e: Event)
    ensures var v := Identity(e);
            && At(v, "action") == Some(Str(e.action)) && At(v, "target") == Some(Target(e))
            && At(v, "cardIssue") == Some(Int(e.cardIssue)) && At(v, "revision") == Some(Str(e.revision))
            && At(v, "eventId") == Some(if e.eventId == "" then Null else Str(e.eventId))
            && At(v, "reviewContext") == (if e.reviewContext == "" then None else Some(Str(e.reviewContext)))
            && At(v, "recoveryContext") == (if e.recoveryContext == "" then None else Some(Str(e.recoveryContext)))
  {
    hide Base, Target;
    BaseFields(e);
    assert |"reviewContext"| == 13 && |"recoveryContext"| == 15;
  }

  /** The identity names its event completely, absent contexts included. */
  lemma IdentityInjective(e: Event, f: Event)
    requires Identity(e) == Identity(f)
    ensures e == f
  {
    hide Identity, Target;
    IdentityFields(e);
    IdentityFields(f);
    assert Target(e) == Target(f);
    TargetFields(e);
    TargetFields(f);
  }

  predicate NameText(s: string) {
    1 <= |s| <= 100 && forall i | 0 <= i < |s| ::
      '0' <= s[i] <= '9' || 'a' <= s[i] <= 'z' || 'A' <= s[i] <= 'Z' || s[i] == '_' || s[i] == '.' || s[i] == '-'
  }

  predicate TokenText(s: string, most: nat) {
    1 <= |s| <= most && forall i | 0 <= i < |s| ::
      '0' <= s[i] <= '9' || 'a' <= s[i] <= 'z' || 'A' <= s[i] <= 'Z'
      || s[i] == ':' || s[i] == '.' || s[i] == '_' || s[i] == '+' || s[i] == '-'
  }

  predicate HexText(s: string) {
    |s| == 64 && forall i | 0 <= i < 64 ::
      s[i] in {'0', '1', '2', '3', '4', '5', '6', '7', '8', '9', 'a', 'b', 'c', 'd', 'e', 'f'}
  }

  /** The actions that an event identifier belongs to. */
  const WithEventId: set<string> := {
    "deep-review.local", "deep-review.search", "nl-decision.local", "nl-decision.search", "nl-decision.schema-repair" }

  /** Those that may bring a review context. */
  const MayBeReviewed: set<string> := { "triage.pr.local", "triage.pr.search", "triage.schema-repair" }

  /** The rest. */
  const Plain: set<string> := { "triage.issue.local", "triage.issue.search", "merge.resolve-conflicts" }

  /** The events that have an identity, action by action: only the five deep reviews and decisions have an
      event identifier, and they must; only the three pull-request triages may have contexts, and never a
      recovery context alone. */
  lemma AdmissibleIff(e: Event)
    ensures NormalizedIdentity(e).Some? <==>
            && NameText(e.owner) && NameText(e.repo) && e.number >= 1 && e.cardIssue >= 1 && TokenText(e.revision, 160)
            && (|| (e.action in WithEventId && TokenText(e.eventId, 200) && e.reviewContext == e.recoveryContext == "")
                || (e.action in Plain && e.eventId == e.reviewContext == e.recoveryContext == "")
                || (e.action in MayBeReviewed && e.eventId == "" && (e.reviewContext == "" || HexText(e.reviewContext))
                    && (e.recoveryContext == "" || (e.reviewContext != "" && HexText(e.recoveryContext)))))
  {
    ActionFamilies(e.action);
    assert forall s :: IsName(s) <==> NameText(s);
    assert forall s, n :: IsToken(s, n) <==> TokenText(s, n);
    assert forall s :: IsDigest(s) <==> HexText(s);
  }

  lemma ActionFamilies(action: string)
    ensures action in Actions <==> action in WithEventId || action in MayBeReviewed || action in Plain
    ensures action in WithEventId ==> action !in MayBeReviewed && action !in Plain && NeedsEventId(action) && !TakesContexts(action)
    ensures action in MayBeReviewed ==> action !in Plain && !NeedsEventId(action) && TakesContexts(action)
    ensures action in Plain ==> !NeedsEventId(action) && !TakesContexts(action)
  {
    hide NeedsEventId, TakesContexts;
    forall a | a in Actions ensures (NeedsEventId(a) <==> a in WithEventId) && (TakesContexts(a) <==> a in MayBeReviewed) {
      FamilyOf(a);
    }
  }

  predicate NeedsEventId(action: string) { "nl-decision." <= action || "deep-review." <= action }

  predicate TakesContexts(action: string) { "triage.pr." <= action || action == "triage.schema-repair" }

  lemma FamilyOf(action: string)
    requires action in Actions
    ensures (NeedsEventId(action) <==> action in WithEventId) && (TakesContexts(action) <==> action in MayBeReviewed)
  {
    if action in WithEventId {
      assert action[0] == 'd' || action[0] == 'n';
      assert action[0] == 'd' ==> action[..12] == "deep-review.";
      assert action[0] == 'n' ==> action[..12] == "nl-decision.";
    } else if action == "triage.schema-repair" || action in Plain {
      assert (action[0] == 't' && action[7] in {'s', 'i'}) || action[0] == 'm';
    } else {
      assert action[0] == 't' && action[..10] == "triage.pr.";
    }
  }

  /** What the identity says, and nothing else: the version, the action, the card, the target, the revision, the event
      identifier or null, and those contexts that there are. */
  lemma IdentityTells(e: Event)
    requires NormalizedIdentity(e).Some?
    ensures var v := NormalizedIdentity(e).value;
            && At(v, "version") == Some(Int(1)) && At(v, "action") == Some(Str(e.action))
            && At(v, "target") == Some(Obj(map["owner" := Str(e.owner), "repo" := Str(e.repo), "number" := Int(e.number)]))
            && At(v, "cardIssue") == Some(Int(e.cardIssue)) && At(v, "revision") == Some(Str(e.revision))
            && At(v, "eventId") == Some(if e.eventId == "" then Null else Str(e.eventId))
            && At(v, "reviewContext") == (if e.reviewContext == "" then None else Some(Str(e.reviewContext)))
            && At(v, "recoveryContext") == (if e.recoveryContext == "" then None else Some(Str(e.recoveryContext)))
    ensures var v := NormalizedIdentity(e).value;
            v.Obj? && v.fields.Keys <= {"version", "action", "target", "cardIssue", "revision", "eventId",
                                        "reviewContext", "recoveryContext"}
  {
    hide Admissible;
    IdentityFields(e);
    VersionIsOne(e);
  }

  lemma VersionIsOne(e: Event)
    ensures At(Identity(e), "version") == Some(Int(1))
  {
    hide Target;
    assert "version" != "action" && "version" != "target" && "version" != "cardIssue" && "version" != "revision";
    assert "version" != "eventId" && |"version"| == 7 && |"reviewContext"| == 13 && |"recoveryContext"| == 15;
  }

  // ---------------------------------------------------------------- keys and markers

  /** Two different texts with one digest. */
  predicate Collides(sha256: Utf8.Bytes -> string, a: Utf8.Bytes, b: Utf8.Bytes) {
    a != b && sha256(a) == sha256(b)
  }

  /** `event_key_sha256` */
  function EventKey(identity: Value, sha256: Utf8.Bytes -> string): string {
    sha256(CanonicalBytes(identity))
  }

  /** `event_claim_marker` */
  function ClaimMarker(key: string): Option<string> {
    if IsDigest(key) then Some("<!-- wheelhouse-agent-claim:v1:" + key + " -->") else None
  }

  /** Two admitted events with one key are the same event, or their canonical identities collide: unless
      the hash itself fails, a claim never shadows another event. */
  lemma KeyNamesEvent(e: Event, f: Event, sha256: Utf8.Bytes -> string)
    requires Admissible(e) && Admissible(f)
    ensures EventKey(NormalizedIdentity(e).value, sha256) == EventKey(NormalizedIdentity(f).value, sha256) <==>
            e == f || Collides(sha256, CanonicalBytes(Identity(e)), CanonicalBytes(Identity(f)))
  {
    hide Identity, CanonicalBytes, Admissible;
    if CanonicalBytes(Identity(e)) == CanonicalBytes(Identity(f)) {
      JsonParser.CanonicalBytesInjective(Identity(e), Identity(f));
      IdentityInjective(e, f);
    }
  }

  /** The same of the markers that claims carry. */
  lemma MarkerNamesEvent(e: Event, f: Event, sha256: Utf8.Bytes -> string)
    requires Admissible(e) && Admissible(f)
    requires IsDigest(EventKey(Identity(e), sha256)) && IsDigest(EventKey(Identity(f), sha256))
    ensures ClaimMarker(EventKey(Identity(e), sha256)) == ClaimMarker(EventKey(Identity(f), sha256)) <==>
            e == f || Collides(sha256, CanonicalBytes(Identity(e)), CanonicalBytes(Identity(f)))
  {
    hide IsDigest, CanonicalBytes, Identity, Admissible, Collides, EventKey;
    KeyNamesEvent(e, f, sha256);
    var a, b := EventKey(Identity(e), sha256), EventKey(Identity(f), sha256);
    if ClaimMarker(a) == ClaimMarker(b) {
      Cancel("<!-- wheelhouse-agent-claim:v1:", a, b, " -->");
    }
  }

  lemma Cancel(head: string, a: string, b: string, tail: string)
    requires head + a + tail == head + b + tail
    ensures a == b
  {
    var n, m := |head|, |head + a|;
    assert |a| == |b|;
    assert a == (head + a + tail)[n..m];
    assert b == (head + b + tail)[n..m];
  }

  /** There is a marker exactly for a key of sixty-four lower-case hexadecimal digits, and it holds nothing but the key. */
  lemma MarkerIff(key: string, marker: string)
    ensures ClaimMarker(key) == Some(marker) <==> HexText(key) && marker == "<!-- wheelhouse-agent-claim:v1:" + key + " -->"
  {
    assert IsDigest(key) <==> HexText(key);
  }
}
