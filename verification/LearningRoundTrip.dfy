/** Which records survive the ledger: reading a printed record back, for every record and schema. */
module LearningRoundTrip {
  import opened Text
  import opened JsonGrammar
  import opened JsonPrinter
  import opened JsonRecords
  import opened Learning

  function CleanEvidence(c: CandidateEvidence): CandidateEvidence {
    c.(manifestPath := Clean(c.manifestPath), manifestHash := Clean(c.manifestHash), bundleHash := Clean(c.bundleHash))
  }

  /** What the ledger keeps of a record: cleaned text, and only the fields its schema has. */
  function Canonical(r: LearningRecord): LearningRecord {
    var work := HasWork(r.schemaVersion);
    var harness := HasHarness(r.schemaVersion);
    LearningRecord(
      r.schemaVersion, Clean(r.id), r.timestampMs, Clean(r.source), Clean(r.intent), Clean(r.recipeId),
      CleanAll(r.atomStack), Clean(r.gate), r.attempt, r.outcome, Clean(r.failure), Clean(r.correction),
      Clean(r.artifactPath), Clean(r.artifactHash), Clean(r.providerModel),
      if work then Clean(r.workPlanId) else "",
      if work then Clean(r.workPlanManifest) else "",
      if work then r.workPacketCount else 0,
      if r.schemaVersion == LEARNING_SCHEMA_VERSION && r.candidateVerification.Some?
        then Some(CleanEvidence(r.candidateVerification.value)) else None,
      if harness then Clean(r.harnessAttestationPath) else "",
      if harness then Clean(r.harnessAttestationHash) else "",
      r.routeLen)
  }

  // ---- field names ----

  function Rank(name: string): int {
    match name
    case "schema_version" => 0
    case "id" => 1
    case "timestamp_ms" => 2
    case "source" => 3
    case "intent" => 4
    case "recipe_id" => 5
    case "atom_stack" => 6
    case "gate" => 7
    case "attempt" => 8
    case "outcome" => 9
    case "failure" => 10
    case "correction" => 11
    case "artifact_path" => 12
    case "artifact_hash" => 13
    case "provider_model" => 14
    case "work_plan_id" => 15
    case "work_plan_manifest" => 16
    case "work_packet_count" => 17
    case "harness_attestation_path" => 18
    case "harness_attestation_hash" => 19
    case "candidate_verification" => 20
    case "route_len" => 21
    case "manifest_path" => 22
    case "manifest_hash" => 23
    case "bundle_hash" => 24
    case "attempts" => 25
    case "repairs" => 26
    case _ => -1
  }

  lemma FirstNames()
    ensures forall k :: 0 <= k < 8 ==> Rank(BASE_FIELDS[k]) == k && PlainName(BASE_FIELDS[k])
  {
  }

  lemma LaterNames()
    ensures forall k :: 8 <= k < 15 ==> Rank(BASE_FIELDS[k]) == k && PlainName(BASE_FIELDS[k])
    ensures Rank(BASE_FIELDS[15]) == 21 && PlainName(BASE_FIELDS[15])
  {
  }

  lemma BaseNames()
    ensures forall k :: 0 <= k < 15 ==> Rank(BASE_FIELDS[k]) == k
    ensures Rank(BASE_FIELDS[15]) == 21
    ensures forall k :: 0 <= k < 16 ==> PlainName(BASE_FIELDS[k])
  {
    hide Rank, PlainName;
    FirstNames();
    LaterNames();
  }

  lemma NewerNames()
    ensures forall k :: 0 <= k < 3 ==> Rank(WORK_FIELDS[k]) == 15 + k && PlainName(WORK_FIELDS[k])
    ensures forall k :: 0 <= k < 2 ==> Rank(HARNESS_FIELDS[k]) == 18 + k && PlainName(HARNESS_FIELDS[k])
    ensures Rank(CANDIDATE_FIELDS[0]) == 20 && PlainName(CANDIDATE_FIELDS[0])
  {
  }

  lemma EvidenceNames()
    ensures forall k :: 0 <= k < 5 ==> Rank(EVIDENCE_FIELDS[k]) == 22 + k && PlainName(EVIDENCE_FIELDS[k])
  {
  }

  /** The printed names are plain and in rank order, so no name is printed twice. */
  lemma PrintedNamesRanked(schema: nat)
    ensures forall k :: 0 <= k < |PrintedNames(schema)| ==> PlainName(PrintedNames(schema)[k])
    ensures forall j, k :: 0 <= j < k < |PrintedNames(schema)| ==>
              Rank(PrintedNames(schema)[j]) < Rank(PrintedNames(schema)[k])
  {
    BaseNames();
    NewerNames();
  }

  lemma OutcomeReads(o: LearningOutcome)
    ensures Clean(OutcomeText(o)) == OutcomeText(o) && ParseOutcome(OutcomeText(o)) == Some(o)
  {
    CleanName(OutcomeText(o));
    assert TrimStart(OutcomeText(o)) == OutcomeText(o) && TrimEnd(OutcomeText(o)) == OutcomeText(o);
    assert AsciiLower(OutcomeText(o)) == OutcomeText(o);
  }

  // ---- candidate evidence ----

  function EvidenceValues(c: CandidateEvidence): seq<JsonValue> {
    [String(c.manifestPath), String(c.manifestHash), String(c.bundleHash), NumberOf(c.attempts), NumberOf(c.repairs)]
  }

  lemma EvidencePrintable(c: Option<CandidateEvidence>)
    ensures Printable(CandidateValue(c), 1)
  {
    if c.Some? {
      EvidenceNames();
      NumberPrintable(c.value.attempts, 2);
      NumberPrintable(c.value.repairs, 2);
      LabelledPrintable(EVIDENCE_FIELDS, EvidenceValues(c.value), 1);
    }
  }

  lemma EvidenceLook(c: CandidateEvidence)
    ensures var v := CleanValue(EvidenceValue(c));
            && v.Object? && |v.fields| == |EVIDENCE_FIELDS|
            && (forall k :: 0 <= k < |v.fields| ==> v.fields[k].name in EVIDENCE_FIELDS)
            && JsonString(v, EVIDENCE_FIELDS[0]) == Some(Clean(c.manifestPath))
            && JsonString(v, EVIDENCE_FIELDS[1]) == Some(Clean(c.manifestHash))
            && JsonString(v, EVIDENCE_FIELDS[2]) == Some(Clean(c.bundleHash))
            && JsonU32(v, EVIDENCE_FIELDS[3]) == Some(c.attempts)
            && JsonU32(v, EVIDENCE_FIELDS[4]) == Some(c.repairs)
  {
    EvidenceNames();
    var names, values := EVIDENCE_FIELDS, EvidenceValues(c);
    forall k | 0 <= k < 5 ensures Clean(names[k]) == names[k] { CleanName(names[k]); }
    forall k | 0 <= k < 5
      ensures Get(Object(CleanFields(Labelled(names, values))), names[k]) == Some(CleanValue(values[k])) {
      LookUp(names, values, k);
    }
    NumberReads(c.attempts);
    NumberReads(c.repairs);
  }

  lemma EvidenceAssembles(v: JsonValue, c: CandidateEvidence)
    requires v.Object? && |v.fields| == |EVIDENCE_FIELDS|
    requires forall k :: 0 <= k < |v.fields| ==> v.fields[k].name in EVIDENCE_FIELDS
    requires JsonString(v, "manifest_path") == Some(c.manifestPath)
    requires JsonString(v, "manifest_hash") == Some(c.manifestHash)
    requires JsonString(v, "bundle_hash") == Some(c.bundleHash)
    requires JsonU32(v, "attempts") == Some(c.attempts)
    requires JsonU32(v, "repairs") == Some(c.repairs)
    ensures ReadEvidence(v) == Some(c)
  {
  }

  lemma EvidenceReads(c: Option<CandidateEvidence>, root: JsonValue)
    requires Get(root, "candidate_verification") == Some(CleanValue(CandidateValue(c)))
    ensures JsonCandidate(root) == Some(if c.Some? then Some(CleanEvidence(c.value)) else None)
  {
    if c == None {
      assert CleanValue(Null) == Null;
    } else {
      EvidenceLook(c.value);
      assert EVIDENCE_FIELDS[0] == "manifest_path" && EVIDENCE_FIELDS[1] == "manifest_hash";
      assert EVIDENCE_FIELDS[2] == "bundle_hash" && EVIDENCE_FIELDS[3] == "attempts" && EVIDENCE_FIELDS[4] == "repairs";
      EvidenceAssembles(CleanValue(EvidenceValue(c.value)), CleanEvidence(c.value));
    }
  }

  // ---- the record ----

  ghost predicate AllPrintable(values: seq<JsonValue>) {
    forall k :: 0 <= k < |values| ==> Printable(values[k], 1)
  }

  lemma AllPrintableJoin(a: seq<JsonValue>, b: seq<JsonValue>)
    requires AllPrintable(a) && AllPrintable(b)
    ensures AllPrintable(a + b)
  {
  }

  lemma BaseValuesPrintable(r: LearningRecord)
    ensures AllPrintable(BaseValues(r))
  {
    hide Decimal;
    NumberPrintable(r.schemaVersion, 1);
    NumberPrintable(r.timestampMs, 1);
    NumberPrintable(r.attempt, 1);
    StringsPrintable(r.atomStack, 1);
  }

  lemma NewerValuesPrintable(r: LearningRecord)
    ensures AllPrintable([String(r.workPlanId), String(r.workPlanManifest), NumberOf(r.workPacketCount)])
    ensures AllPrintable([String(r.harnessAttestationPath), String(r.harnessAttestationHash)])
    ensures AllPrintable([CandidateValue(r.candidateVerification)])
    ensures AllPrintable([NumberOf(r.routeLen)])
  {
    NumberPrintable(r.workPacketCount, 1);
    NumberPrintable(r.routeLen, 1);
    EvidencePrintable(r.candidateVerification);
  }

  lemma PrintedValuesPrintable(r: LearningRecord)
    ensures AllPrintable(PrintedValues(r))
  {
    BaseValuesPrintable(r);
    NewerValuesPrintable(r);
    var v0 := BaseValues(r);
    var v1 := if HasWork(r.schemaVersion)
              then [String(r.workPlanId), String(r.workPlanManifest), NumberOf(r.workPacketCount)] else [];
    var v2 := if HasHarness(r.schemaVersion)
              then [String(r.harnessAttestationPath), String(r.harnessAttestationHash)] else [];
    var v3 := if HasCandidate(r.schemaVersion) then [CandidateValue(r.candidateVerification)] else [];
    AllPrintableJoin(v0, v1);
    AllPrintableJoin(v0 + v1, v2);
    AllPrintableJoin(v0 + v1 + v2, v3);
    AllPrintableJoin(v0 + v1 + v2 + v3, [NumberOf(r.routeLen)]);
  }

  lemma RecordPrintable(r: LearningRecord)
    ensures Printable(RecordValue(r), 0)
  {
    hide Printable, Decimal;
    PrintedNamesRanked(r.schemaVersion);
    PrintedValuesPrintable(r);
    LabelledPrintable(PrintedNames(r.schemaVersion), PrintedValues(r), 0);
  }

  ghost function ReadBack(r: LearningRecord): JsonValue {
    CleanValue(RecordValue(r))
  }

  lemma Look(r: LearningRecord, k: nat)
    requires k < |PrintedNames(r.schemaVersion)|
    ensures Get(ReadBack(r), PrintedNames(r.schemaVersion)[k]) == Some(CleanValue(PrintedValues(r)[k]))
  {
    PrintedNamesRanked(r.schemaVersion);
    LookUp(PrintedNames(r.schemaVersion), PrintedValues(r), k);
  }

  lemma LookBase(r: LearningRecord, k: nat)
    requires k < 15
    ensures Get(ReadBack(r), BASE_FIELDS[k]) == Some(CleanValue(BaseValues(r)[k]))
  {
    Look(r, k);
    assert PrintedNames(r.schemaVersion)[k] == BASE_FIELDS[k] && PrintedValues(r)[k] == BaseValues(r)[k];
  }

  lemma LookRouteLen(r: LearningRecord)
    ensures Get(ReadBack(r), "route_len") == Some(CleanValue(NumberOf(r.routeLen)))
  {
    var last := |PrintedNames(r.schemaVersion)| - 1;
    Look(r, last);
    assert PrintedNames(r.schemaVersion)[last] == "route_len" && PrintedValues(r)[last] == NumberOf(r.routeLen);
  }

  lemma LookWork(r: LearningRecord)
    requires HasWork(r.schemaVersion)
    ensures Get(ReadBack(r), "work_plan_id") == Some(String(Clean(r.workPlanId)))
    ensures Get(ReadBack(r), "work_plan_manifest") == Some(String(Clean(r.workPlanManifest)))
    ensures Get(ReadBack(r), "work_packet_count") == Some(NumberOf(r.workPacketCount))
  {
    forall k | 0 <= k < 3
      ensures PrintedNames(r.schemaVersion)[15 + k] == WORK_FIELDS[k] { }
    Look(r, 15);
    Look(r, 16);
    Look(r, 17);
  }

  lemma LookHarness(r: LearningRecord)
    requires HasHarness(r.schemaVersion)
    ensures Get(ReadBack(r), "harness_attestation_path") == Some(String(Clean(r.harnessAttestationPath)))
    ensures Get(ReadBack(r), "harness_attestation_hash") == Some(String(Clean(r.harnessAttestationHash)))
  {
    assert PrintedNames(r.schemaVersion)[18] == HARNESS_FIELDS[0]
           && PrintedNames(r.schemaVersion)[19] == HARNESS_FIELDS[1];
    Look(r, 18);
    Look(r, 19);
  }

  lemma LookCandidate(r: LearningRecord)
    requires HasCandidate(r.schemaVersion)
    ensures Get(ReadBack(r), "candidate_verification") == Some(CleanValue(CandidateValue(r.candidateVerification)))
  {
    assert PrintedNames(r.schemaVersion)[20] == CANDIDATE_FIELDS[0];
    Look(r, 20);
  }

  /** A name the schema does not print is not found. */
  lemma LookMissing(r: LearningRecord, name: string)
    requires 15 <= Rank(name) < 21 && PlainName(name)
    requires forall k :: 0 <= k < |PrintedNames(r.schemaVersion)| ==> PrintedNames(r.schemaVersion)[k] != name
    ensures Get(ReadBack(r), name) == None
  {
    PrintedNamesRanked(r.schemaVersion);
    var fields := ReadBack(r).fields;
    forall j | 0 <= j < |fields| ensures fields[j].name != name {
      CleanName(PrintedNames(r.schemaVersion)[j]);
    }
    FindNothing(fields, name);
  }

  /** The fields every schema has. */
  ghost predicate BaseReads(root: JsonValue, c: LearningRecord) {
    && JsonU32(root, "schema_version") == Some(c.schemaVersion)
    && JsonString(root, "id") == Some(c.id)
    && JsonU64(root, "timestamp_ms") == Some(c.timestampMs)
    && JsonString(root, "source") == Some(c.source)
    && JsonString(root, "intent") == Some(c.intent)
    && JsonString(root, "recipe_id") == Some(c.recipeId)
    && JsonStringArray(root, "atom_stack") == Some(c.atomStack)
    && JsonString(root, "gate") == Some(c.gate)
    && JsonU32(root, "attempt") == Some(c.attempt)
    && JsonString(root, "outcome") == Some(OutcomeText(c.outcome))
    && JsonString(root, "failure") == Some(c.failure)
    && JsonString(root, "correction") == Some(c.correction)
    && JsonString(root, "artifact_path") == Some(c.artifactPath)
    && JsonString(root, "artifact_hash") == Some(c.artifactHash)
    && JsonString(root, "provider_model") == Some(c.providerModel)
    && JsonU64(root, "route_len") == Some(c.routeLen)
  }

  /** The fields of the newer schemas, at their defaults where the schema lacks them. */
  ghost predicate NewerReads(root: JsonValue, c: LearningRecord) {
    && GetOr(JsonString(root, "work_plan_id"), "") == c.workPlanId
    && GetOr(JsonString(root, "work_plan_manifest"), "") == c.workPlanManifest
    && GetOr(JsonU64(root, "work_packet_count"), 0) == c.workPacketCount
    && (if c.schemaVersion == LEARNING_SCHEMA_VERSION then JsonCandidate(root) else Some(None))
       == Some(c.candidateVerification)
    && GetOr(JsonString(root, "harness_attestation_path"), "") == c.harnessAttestationPath
    && GetOr(JsonString(root, "harness_attestation_hash"), "") == c.harnessAttestationHash
  }

  ghost predicate NamesFit(root: JsonValue, schema: nat) {
    && root.Object? && |root.fields| == ExpectedLength(schema)
    && forall i :: 0 <= i < |root.fields| ==> NameAllowed(schema, root.fields[i].name)
  }

  lemma Assemble(root: JsonValue, c: LearningRecord)
    requires NamesFit(root, c.schemaVersion) && BaseReads(root, c) && NewerReads(root, c)
    ensures ReadRecord(root) == Some(c)
  {
    OutcomeReads(c.outcome);
  }

  lemma BaseNumbersRead(r: LearningRecord)
    ensures JsonU32(ReadBack(r), "schema_version") == Some(r.schemaVersion)
    ensures JsonU64(ReadBack(r), "timestamp_ms") == Some(r.timestampMs)
    ensures JsonU32(ReadBack(r), "attempt") == Some(r.attempt)
    ensures JsonU64(ReadBack(r), "route_len") == Some(r.routeLen)
  {
    LookBase(r, 0);
    LookBase(r, 2);
    LookBase(r, 8);
    LookRouteLen(r);
    NumberReads(r.schemaVersion);
    NumberReads(r.timestampMs);
    NumberReads(r.attempt);
    NumberReads(r.routeLen);
  }

  lemma TextReads(r: LearningRecord, k: nat, s: string)
    requires k < 15 && BaseValues(r)[k] == String(s)
    ensures JsonString(ReadBack(r), BASE_FIELDS[k]) == Some(Clean(s))
  {
    LookBase(r, k);
  }

  lemma IdRead(r: LearningRecord)
    ensures JsonString(ReadBack(r), "id") == Some(Clean(r.id))
  {
    TextReads(r, 1, r.id);
  }

  lemma OriginRead(r: LearningRecord)
    ensures JsonString(ReadBack(r), "source") == Some(Clean(r.source))
    ensures JsonString(ReadBack(r), "intent") == Some(Clean(r.intent))
  {
    TextReads(r, 3, r.source);
    TextReads(r, 4, r.intent);
  }

  lemma RecipeAndGateRead(r: LearningRecord)
    ensures JsonString(ReadBack(r), "recipe_id") == Some(Clean(r.recipeId))
    ensures JsonString(ReadBack(r), "gate") == Some(Clean(r.gate))
  {
    TextReads(r, 5, r.recipeId);
    TextReads(r, 7, r.gate);
  }

  lemma LastTextsRead(r: LearningRecord)
    ensures JsonString(ReadBack(r), "failure") == Some(Clean(r.failure))
    ensures JsonString(ReadBack(r), "correction") == Some(Clean(r.correction))
    ensures JsonString(ReadBack(r), "artifact_path") == Some(Clean(r.artifactPath))
    ensures JsonString(ReadBack(r), "artifact_hash") == Some(Clean(r.artifactHash))
    ensures JsonString(ReadBack(r), "provider_model") == Some(Clean(r.providerModel))
  {
    TextReads(r, 10, r.failure);
    TextReads(r, 11, r.correction);
    TextReads(r, 12, r.artifactPath);
    TextReads(r, 13, r.artifactHash);
    TextReads(r, 14, r.providerModel);
  }

  lemma StackAndOutcomeRead(r: LearningRecord)
    ensures JsonStringArray(ReadBack(r), "atom_stack") == Some(CleanAll(r.atomStack))
    ensures JsonString(ReadBack(r), "outcome") == Some(OutcomeText(r.outcome))
  {
    LookBase(r, 6);
    StringsRead(r.atomStack);
    TextReads(r, 9, OutcomeText(r.outcome));
    OutcomeReads(r.outcome);
  }

  lemma BaseFieldsRead(r: LearningRecord)
    ensures BaseReads(ReadBack(r), Canonical(r))
  {
    BaseNumbersRead(r);
    IdRead(r);
    OriginRead(r);
    RecipeAndGateRead(r);
    LastTextsRead(r);
    StackAndOutcomeRead(r);
  }

  lemma WorkFieldsRead(r: LearningRecord)
    ensures GetOr(JsonString(ReadBack(r), "work_plan_id"), "") == Canonical(r).workPlanId
    ensures GetOr(JsonString(ReadBack(r), "work_plan_manifest"), "") == Canonical(r).workPlanManifest
    ensures GetOr(JsonU64(ReadBack(r), "work_packet_count"), 0) == Canonical(r).workPacketCount
  {
    if HasWork(r.schemaVersion) {
      LookWork(r);
      NumberReads(r.workPacketCount);
    } else {
      NewerNames();
      BaseNames();
      LookMissing(r, WORK_FIELDS[0]);
      LookMissing(r, WORK_FIELDS[1]);
      LookMissing(r, WORK_FIELDS[2]);
    }
  }

  lemma HarnessFieldsRead(r: LearningRecord)
    ensures GetOr(JsonString(ReadBack(r), "harness_attestation_path"), "") == Canonical(r).harnessAttestationPath
    ensures GetOr(JsonString(ReadBack(r), "harness_attestation_hash"), "") == Canonical(r).harnessAttestationHash
  {
    if HasHarness(r.schemaVersion) {
      LookHarness(r);
    } else {
      NewerNames();
      BaseNames();
      LookMissing(r, HARNESS_FIELDS[0]);
      LookMissing(r, HARNESS_FIELDS[1]);
    }
  }

  lemma NewerFieldsRead(r: LearningRecord)
    requires r.schemaVersion <= LEARNING_SCHEMA_VERSION
    ensures NewerReads(ReadBack(r), Canonical(r))
  {
    WorkFieldsRead(r);
    HarnessFieldsRead(r);
    if HasCandidate(r.schemaVersion) {
      LookCandidate(r);
      EvidenceReads(r.candidateVerification, ReadBack(r));
    }
  }

  lemma NamesRead(r: LearningRecord)
    requires r.schemaVersion <= LEARNING_SCHEMA_VERSION
    ensures NamesFit(ReadBack(r), r.schemaVersion)
  {
    PrintedNamesRanked(r.schemaVersion);
    var names := PrintedNames(r.schemaVersion);
    forall i | 0 <= i < |names| ensures NameAllowed(r.schemaVersion, Clean(names[i])) {
      CleanName(names[i]);
      NameIsAllowed(r.schemaVersion, i);
    }
  }

  lemma NameIsAllowed(schema: nat, i: nat)
    requires schema <= LEARNING_SCHEMA_VERSION && i < |PrintedNames(schema)|
    ensures NameAllowed(schema, PrintedNames(schema)[i])
  {
    var name := PrintedNames(schema)[i];
    if i < 15 {
      assert name == BASE_FIELDS[i];
    } else if i == |PrintedNames(schema)| - 1 {
      assert name == BASE_FIELDS[15];
    } else if i < 18 {
      assert name == WORK_FIELDS[i - 15];
    } else if i < 20 {
      assert name == HARNESS_FIELDS[i - 18];
    } else {
      assert name == CANDIDATE_FIELDS[i - 20];
    }
  }

  lemma RecordReads(r: LearningRecord)
    requires r.schemaVersion <= LEARNING_SCHEMA_VERSION
    ensures ReadRecord(ReadBack(r)) == Some(Canonical(r))
  {
    NamesRead(r);
    BaseFieldsRead(r);
    NewerFieldsRead(r);
    Assemble(ReadBack(r), Canonical(r));
  }

  /** A later schema is printed with a field too many for its own reader. */
  lemma LaterSchemaUnread(r: LearningRecord)
    requires r.schemaVersion > LEARNING_SCHEMA_VERSION
    ensures ReadRecord(ReadBack(r)) == None
  {
    BaseNumbersRead(r);
    assert |ReadBack(r).fields| == 22 && ExpectedLength(r.schemaVersion) == 21;
  }

  /** What the ledger reads back out of a record it printed: the canonical record, if that is valid. */
  lemma RecordRoundTrip(r: LearningRecord)
    ensures FromJson(ToJson(r)) == if ValidStructure(Canonical(r)) then Some(Canonical(r)) else None
  {
    RecordPrintable(r);
    PrintRoundTrip(RecordValue(r));
    if r.schemaVersion <= LEARNING_SCHEMA_VERSION {
      RecordReads(r);
    } else {
      LaterSchemaUnread(r);
    }
  }

  ghost predicate CleanRecord(r: LearningRecord) {
    && IsClean(r.id) && IsClean(r.source) && IsClean(r.intent) && IsClean(r.recipeId)
    && (forall i :: 0 <= i < |r.atomStack| ==> IsClean(r.atomStack[i]))
    && IsClean(r.gate) && IsClean(r.failure) && IsClean(r.correction) && IsClean(r.artifactPath)
    && IsClean(r.artifactHash) && IsClean(r.providerModel) && IsClean(r.workPlanId) && IsClean(r.workPlanManifest)
    && IsClean(r.harnessAttestationPath) && IsClean(r.harnessAttestationHash)
    && (r.candidateVerification.Some? ==>
          var c := r.candidateVerification.value;
          IsClean(c.manifestPath) && IsClean(c.manifestHash) && IsClean(c.bundleHash))
  }

  /** Fields newer than the record's schema are at their defaults. */
  predicate NewerDefault(r: LearningRecord) {
    && (!HasWork(r.schemaVersion) ==> r.workPlanId == "" && r.workPlanManifest == "" && r.workPacketCount == 0)
    && (!HasHarness(r.schemaVersion) ==> r.harnessAttestationPath == "" && r.harnessAttestationHash == "")
    && (r.schemaVersion != LEARNING_SCHEMA_VERSION ==> r.candidateVerification == None)
  }

  lemma CanonicalFixed(r: LearningRecord)
    ensures Canonical(r) == r <==> CleanRecord(r) && NewerDefault(r)
  {
    CleanAllFixed(r.atomStack);
    forall s: string ensures Clean(s) == s <==> IsClean(s) { CleanFixed(s); }
    assert IsClean("");
  }

  /** A record comes back as it was, for every schema, exactly when it is structurally valid, its text
      is clean and what its schema lacks is at its default. */
  lemma RecordSurvives(r: LearningRecord)
    ensures FromJson(ToJson(r)) == Some(r) <==> ValidStructure(r) && CleanRecord(r) && NewerDefault(r)
  {
    RecordRoundTrip(r);
    CanonicalFixed(r);
  }

  /** `append` checks the record, not what will be read back: this one passes the structural check and
      is lost, because its id of one control character is printed as a space. */
  lemma AppendedButUnreadable(r: LearningRecord)
    requires ValidStructure(r)
    ensures var bad := r.(id := "\U{0}");
            ValidStructure(bad) && FromJson(ToJson(bad)) == None
  {
    var bad := r.(id := "\U{0}");
    assert !IsWhitespace(bad.id[0]);
    RecordRoundTrip(bad);
    assert Canonical(bad).id == " ";
    assert Blank(Canonical(bad).id);
  }
}
