/** The learning ledger's record format: `to_json`, `from_json` and `validate_structure`, for every
    schema version the ledger has had. */
module Learning {
  import opened Text
  import opened JsonGrammar
  import opened JsonParser
  import opened JsonPrinter
  import opened JsonRecords

  const LEARNING_SCHEMA_VERSION: nat := 5
  const LEGACY_LEARNING_SCHEMA_VERSION: nat := 1
  const LEGACY_WORK_SCHEMA_VERSION: nat := 3
  const LEGACY_HARNESS_SCHEMA_VERSION: nat := 4

  datatype LearningOutcome = Failed | Succeeded

  datatype CandidateEvidence =
    CandidateEvidence(manifestPath: string, manifestHash: string, bundleHash: string, attempts: U32, repairs: U32)

  datatype LearningRecord = LearningRecord(
    schemaVersion: U32,
    id: string,
    timestampMs: U64,
    source: string,
    intent: string,
    recipeId: string,
    atomStack: seq<string>,
    gate: string,
    attempt: U32,
    outcome: LearningOutcome,
    failure: string,
    correction: string,
    artifactPath: string,
    artifactHash: string,
    providerModel: string,
    workPlanId: string,
    workPlanManifest: string,
    workPacketCount: U64,
    candidateVerification: Option<CandidateEvidence>,
    harnessAttestationPath: string,
    harnessAttestationHash: string,
    routeLen: U64)

  function OutcomeText(o: LearningOutcome): string {
    if o == Failed then "failed" else "succeeded"
  }

  function ParseOutcome(s: string): Option<LearningOutcome> {
    var t := AsciiLower(TrimEnd(TrimStart(s)));
    if t == "failed" || t == "failure" || t == "blocked" then Some(Failed)
    else if t == "succeeded" || t == "success" || t == "proven" || t == "passed" then Some(Succeeded)
    else None
  }

  // ---- validate_structure ----

  predicate RequiresWorkEvidence(r: LearningRecord) {
    !Blank(r.providerModel) || "provider-" <= r.source || "deepseek-" <= r.source
  }

  predicate RequiresHarnessEvidence(r: LearningRecord) {
    !(r.source == "native-app" && Blank(r.providerModel) && r.routeLen >= 4)
  }

  predicate ValidLegacyHash(s: string) {
    |s| == 20 && s[..4] == "fnv:" && forall i :: 4 <= i < 20 ==> IsHex(s[i])
  }

  predicate ValidCandidate(c: CandidateEvidence) {
    !Blank(c.manifestPath) && ValidTag(c.manifestHash) && ValidTag(c.bundleHash)
    && c.attempts != 0 && c.repairs == c.attempts - 1
  }

  predicate ValidSuccess(r: LearningRecord) {
    var nativeRoute := r.source == "native-app" && r.routeLen >= 4;
    if r.schemaVersion == LEGACY_LEARNING_SCHEMA_VERSION then nativeRoute || !Blank(r.artifactHash)
    else
      && ((nativeRoute && Blank(r.providerModel)) || (!Blank(r.artifactPath) && !Blank(r.artifactHash)))
      && (r.schemaVersion >= LEGACY_WORK_SCHEMA_VERSION && RequiresWorkEvidence(r) ==>
            && !Blank(r.workPlanId) && !Blank(r.workPlanManifest)
            && r.workPacketCount >= if r.schemaVersion >= LEGACY_HARNESS_SCHEMA_VERSION then 19 else 13)
      && (r.schemaVersion >= LEGACY_HARNESS_SCHEMA_VERSION && RequiresHarnessEvidence(r) ==>
            !Blank(r.harnessAttestationPath) && ValidTag(r.harnessAttestationHash))
      && (r.schemaVersion == LEARNING_SCHEMA_VERSION && RequiresWorkEvidence(r) ==>
            r.candidateVerification.Some? && ValidCandidate(r.candidateVerification.value))
  }

  predicate ValidStructure(r: LearningRecord) {
    && 1 <= r.schemaVersion <= LEARNING_SCHEMA_VERSION
    && !Blank(r.id) && !Blank(r.source) && !Blank(r.intent) && !Blank(r.gate)
    && r.timestampMs != 0 && r.attempt != 0
    && (forall i :: 0 <= i < |r.atomStack| ==> !Blank(r.atomStack[i]))
    && (r.outcome == Failed ==> !Blank(r.failure))
    && (if r.outcome == Succeeded && r.gate == "native-fast-build" then true
        else
          && (r.outcome == Succeeded ==> ValidSuccess(r))
          && (r.artifactHash != "" ==>
                if r.schemaVersion == LEGACY_LEARNING_SCHEMA_VERSION then ValidLegacyHash(r.artifactHash)
                else ValidTag(r.artifactHash)))
  }

  // ---- to_json ----

  const BASE_FIELDS: seq<string> := [
    "schema_version", "id", "timestamp_ms", "source", "intent", "recipe_id", "atom_stack", "gate", "attempt",
    "outcome", "failure", "correction", "artifact_path", "artifact_hash", "provider_model", "route_len"]
  const WORK_FIELDS: seq<string> := ["work_plan_id", "work_plan_manifest", "work_packet_count"]
  const HARNESS_FIELDS: seq<string> := ["harness_attestation_path", "harness_attestation_hash"]
  const CANDIDATE_FIELDS: seq<string> := ["candidate_verification"]
  const EVIDENCE_FIELDS: seq<string> := ["manifest_path", "manifest_hash", "bundle_hash", "attempts", "repairs"]

  function EvidenceValue(c: CandidateEvidence): JsonValue {
    Object(Labelled(EVIDENCE_FIELDS,
      [String(c.manifestPath), String(c.manifestHash), String(c.bundleHash), NumberOf(c.attempts),
       NumberOf(c.repairs)]))
  }

  function CandidateValue(c: Option<CandidateEvidence>): JsonValue {
    if c == None then Null else EvidenceValue(c.value)
  }

  predicate HasWork(schema: nat) { schema >= LEGACY_WORK_SCHEMA_VERSION }
  predicate HasHarness(schema: nat) { schema >= LEGACY_HARNESS_SCHEMA_VERSION }
  predicate HasCandidate(schema: nat) { schema >= LEARNING_SCHEMA_VERSION }

  /** The names `to_json` writes, in its order. */
  function PrintedNames(schema: nat): seq<string> {
    BASE_FIELDS[..15]
    + (if HasWork(schema) then WORK_FIELDS else [])
    + (if HasHarness(schema) then HARNESS_FIELDS else [])
    + (if HasCandidate(schema) then CANDIDATE_FIELDS else [])
    + [BASE_FIELDS[15]]
  }

  function BaseValues(r: LearningRecord): seq<JsonValue> {
    [NumberOf(r.schemaVersion), String(r.id), NumberOf(r.timestampMs), String(r.source), String(r.intent),
     String(r.recipeId), Array(Strings(r.atomStack)), String(r.gate), NumberOf(r.attempt),
     String(OutcomeText(r.outcome)), String(r.failure), String(r.correction), String(r.artifactPath),
     String(r.artifactHash), String(r.providerModel)]
  }

  function PrintedValues(r: LearningRecord): seq<JsonValue> {
    BaseValues(r)
    + (if HasWork(r.schemaVersion)
       then [String(r.workPlanId), String(r.workPlanManifest), NumberOf(r.workPacketCount)] else [])
    + (if HasHarness(r.schemaVersion)
       then [String(r.harnessAttestationPath), String(r.harnessAttestationHash)] else [])
    + (if HasCandidate(r.schemaVersion) then [CandidateValue(r.candidateVerification)] else [])
    + [NumberOf(r.routeLen)]
  }

  function RecordValue(r: LearningRecord): JsonValue {
    Object(Labelled(PrintedNames(r.schemaVersion), PrintedValues(r)))
  }

  function ToJson(r: LearningRecord): string {
    Print(RecordValue(r))
  }

  // ---- from_json ----

  function ReadEvidence(v: JsonValue): Option<CandidateEvidence> {
    if !v.Object? || |v.fields| != |EVIDENCE_FIELDS|
       || exists i :: 0 <= i < |v.fields| && v.fields[i].name !in EVIDENCE_FIELDS then None
    else
      var manifestPath :- JsonString(v, "manifest_path");
      var manifestHash :- JsonString(v, "manifest_hash");
      var bundleHash :- JsonString(v, "bundle_hash");
      var attempts :- JsonU32(v, "attempts");
      var repairs :- JsonU32(v, "repairs");
      Some(CandidateEvidence(manifestPath, manifestHash, bundleHash, attempts, repairs))
  }

  function JsonCandidate(root: JsonValue): Option<Option<CandidateEvidence>> {
    var v :- Get(root, "candidate_verification");
    if v == Null then Some(None)
    else
      var c :- ReadEvidence(v);
      Some(Some(c))
  }

  predicate NameAllowed(schema: nat, name: string) {
    || name in BASE_FIELDS
    || (HasWork(schema) && name in WORK_FIELDS)
    || (HasHarness(schema) && name in HARNESS_FIELDS)
    || (schema == LEARNING_SCHEMA_VERSION && name in CANDIDATE_FIELDS)
  }

  function ExpectedLength(schema: nat): nat {
    |BASE_FIELDS| + (if HasWork(schema) then |WORK_FIELDS| else 0)
    + (if HasHarness(schema) then |HARNESS_FIELDS| else 0)
    + (if schema == LEARNING_SCHEMA_VERSION then |CANDIDATE_FIELDS| else 0)
  }

  /** The record a parsed line holds, before it is validated. */
  function ReadRecord(root: JsonValue): Option<LearningRecord> {
    if !root.Object? then None
    else
      var schema :- JsonU32(root, "schema_version");
      if |root.fields| != ExpectedLength(schema)
         || exists i :: 0 <= i < |root.fields| && !NameAllowed(schema, root.fields[i].name) then None
      else
        var id :- JsonString(root, "id");
        var timestampMs :- JsonU64(root, "timestamp_ms");
        var source :- JsonString(root, "source");
        var intent :- JsonString(root, "intent");
        var recipeId :- JsonString(root, "recipe_id");
        var atomStack :- JsonStringArray(root, "atom_stack");
        var gate :- JsonString(root, "gate");
        var attempt :- JsonU32(root, "attempt");
        var outcomeText :- JsonString(root, "outcome");
        var outcome :- ParseOutcome(outcomeText);
        var failure :- JsonString(root, "failure");
        var correction :- JsonString(root, "correction");
        var artifactPath :- JsonString(root, "artifact_path");
        var artifactHash :- JsonString(root, "artifact_hash");
        var providerModel :- JsonString(root, "provider_model");
        var candidate :- if schema == LEARNING_SCHEMA_VERSION then JsonCandidate(root) else Some(None);
        var routeLen :- JsonU64(root, "route_len");
        Some(LearningRecord(
          schema, id, timestampMs, source, intent, recipeId, atomStack, gate, attempt, outcome, failure,
          correction, artifactPath, artifactHash, providerModel,
          GetOr(JsonString(root, "work_plan_id"), ""),
          GetOr(JsonString(root, "work_plan_manifest"), ""),
          GetOr(JsonU64(root, "work_packet_count"), 0),
          candidate,
          GetOr(JsonString(root, "harness_attestation_path"), ""),
          GetOr(JsonString(root, "harness_attestation_hash"), ""),
          routeLen))
  }

  function FromJson(line: string): Option<LearningRecord> {
    match ResultOf(line)
    case Rejected(_) => None
    case Parsed(root) =>
      var r :- ReadRecord(root);
      if ValidStructure(r) then Some(r) else None
  }
}
