/** What a learning record must carry, schema by schema, and what a line of the ledger is therefore known to hold. */
module LearningRules {
  import opened Text
  import opened TextTables
  import opened Learning

  /** Something but white space. */
  ghost predicate Given(s: string) {
    exists i :: 0 <= i < |s| && !IsWhitespace(s[i])
  }

  predicate HexText(s: string, n: nat) {
    |s| == n && forall c :: c in s ==> c in HEX_DIGITS
  }

  /** A SHA-256 tag. */
  ghost predicate Hashed(s: string) {
    exists hex :: s == "sha256:" + hex && HexText(hex, 64)
  }

  /** The checksum of the first schema. */
  ghost predicate Checksummed(s: string) {
    exists hex :: s == "fnv:" + hex && HexText(hex, 16)
  }

  /** The native application went over a whole route. */
  predicate LongRoute(r: LearningRecord) {
    r.source == "native-app" && r.routeLen >= 4
  }

  /** A provider had a part in it. */
  ghost predicate Aided(r: LearningRecord) {
    Given(r.providerModel) || "provider-" <= r.source || "deepseek-" <= r.source
  }

  ghost predicate Unaided(r: LearningRecord) {
    LongRoute(r) && !Given(r.providerModel)
  }

  ghost predicate Verified(c: CandidateEvidence) {
    Given(c.manifestPath) && Hashed(c.manifestHash) && Hashed(c.bundleHash) && c.attempts == c.repairs + 1
  }

  ghost predicate Always(r: LearningRecord) {
    && r.schemaVersion in {1, 2, 3, 4, 5}
    && Given(r.id) && Given(r.source) && Given(r.intent) && Given(r.gate) && r.timestampMs > 0 && r.attempt > 0
    && (forall atom :: atom in r.atomStack ==> Given(atom))
    && (r.outcome == Failed ==> Given(r.failure))
  }

  predicate FastBuild(r: LearningRecord) {
    r.outcome == Succeeded && r.gate == "native-fast-build"
  }

  ghost predicate HashFits(r: LearningRecord) {
    r.artifactHash == "" || if r.schemaVersion == 1 then Checksummed(r.artifactHash) else Hashed(r.artifactHash)
  }

  ghost predicate SuccessShown(r: LearningRecord) {
    var v := r.schemaVersion;
    && (v == 1 ==> LongRoute(r) || Given(r.artifactHash))
    && (v >= 2 ==> Unaided(r) || (Given(r.artifactPath) && Given(r.artifactHash)))
    && (v >= 3 && Aided(r) ==>
          Given(r.workPlanId) && Given(r.workPlanManifest) && r.workPacketCount >= if v == 3 then 13 else 19)
    && (v >= 4 ==> Unaided(r) || (Given(r.harnessAttestationPath) && Hashed(r.harnessAttestationHash)))
    && (v == 5 && Aided(r) ==> r.candidateVerification.Some? && Verified(r.candidateVerification.value))
  }

  lemma GivenMeans(s: string)
    ensures Given(s) <==> !Blank(s)
  {
    hide IsWhitespace;
  }

  lemma HashedMeans(s: string)
    ensures Hashed(s) <==> ValidTag(s)
  {
    hide ValidTag;
    TagMeans(s);
    if hex :| s == "sha256:" + hex && |hex| == 64 && forall c :: c in hex ==> c in HEX_DIGITS {
      assert HexText(hex, 64);
    }
  }

  lemma ChecksummedMeans(s: string)
    ensures Checksummed(s) <==> ValidLegacyHash(s)
  {
    if ValidLegacyHash(s) {
      var hex := s[4..];
      forall c | c in hex ensures c in HEX_DIGITS { HexTable(c); }
      assert s == "fnv:" + hex && HexText(hex, 16);
    }
    if hex :| s == "fnv:" + hex && HexText(hex, 16) {
      forall i | 4 <= i < 20 ensures IsHex(s[i]) {
        assert s[i] == hex[i - 4];
        HexTable(s[i]);
      }
    }
  }

  lemma VerifiedMeans(c: CandidateEvidence)
    ensures Verified(c) <==> ValidCandidate(c)
  {
    hide Given, Blank, Hashed, ValidTag;
    GivenMeans(c.manifestPath);
    HashedMeans(c.manifestHash);
    HashedMeans(c.bundleHash);
  }

  lemma SuccessMeans(r: LearningRecord)
    requires 1 <= r.schemaVersion <= 5
    ensures SuccessShown(r) <==> ValidSuccess(r)
  {
    hide Given, Blank, Hashed, ValidTag, Verified, ValidCandidate;
    GivenMeans(r.artifactHash);
    GivenMeans(r.artifactPath);
    GivenMeans(r.providerModel);
    GivenMeans(r.workPlanId);
    GivenMeans(r.workPlanManifest);
    GivenMeans(r.harnessAttestationPath);
    HashedMeans(r.harnessAttestationHash);
    if r.candidateVerification.Some? { VerifiedMeans(r.candidateVerification.value); }
  }

  /** A record is valid exactly if it has what every record must have and, unless it is the success of a fast build, the
      hash of its schema and, if it is a success, all that shows it. */
  lemma RulesExactly(r: LearningRecord)
    ensures ValidStructure(r)
       <==> Always(r) && (FastBuild(r) || (HashFits(r) && (r.outcome == Succeeded ==> SuccessShown(r))))
  {
    hide Given, Blank, Hashed, ValidTag, Checksummed, ValidLegacyHash, SuccessShown, ValidSuccess;
    AlwaysMeans(r);
    HashedMeans(r.artifactHash);
    ChecksummedMeans(r.artifactHash);
    if 1 <= r.schemaVersion <= 5 { SuccessMeans(r); }
  }

  lemma AlwaysMeans(r: LearningRecord)
    ensures Always(r)
       <==> && 1 <= r.schemaVersion <= 5
            && !Blank(r.id) && !Blank(r.source) && !Blank(r.intent) && !Blank(r.gate)
            && r.timestampMs != 0 && r.attempt != 0
            && (forall i :: 0 <= i < |r.atomStack| ==> !Blank(r.atomStack[i]))
            && (r.outcome == Failed ==> !Blank(r.failure))
  {
    hide Given, Blank;
    GivenMeans(r.id);
    GivenMeans(r.source);
    GivenMeans(r.intent);
    GivenMeans(r.gate);
    GivenMeans(r.failure);
    forall i | 0 <= i < |r.atomStack| ensures Given(r.atomStack[i]) <==> !Blank(r.atomStack[i]) {
      GivenMeans(r.atomStack[i]);
    }
  }

  /** A success with a provider in it that can be read from a line of the current schema names its plan and at least
      nineteen packets, an artifact and an attestation with hashes, and evidence with one attempt more than repairs. */
  lemma ReadableSuccess(line: string, r: LearningRecord)
    requires FromJson(line) == Some(r) && r.schemaVersion == 5 && r.outcome == Succeeded && !FastBuild(r)
    requires Given(r.providerModel)
    ensures Given(r.workPlanId) && Given(r.workPlanManifest) && r.workPacketCount >= 19
    ensures Given(r.artifactPath) && Hashed(r.artifactHash)
    ensures Given(r.harnessAttestationPath) && Hashed(r.harnessAttestationHash)
    ensures r.candidateVerification.Some? && Verified(r.candidateVerification.value)
  {
    hide ReadRecord, ValidStructure, Given, Hashed, Verified;
    RulesExactly(r);
    GivenSome(r.artifactHash);
  }

  lemma GivenSome(s: string)
    requires Given(s)
    ensures s != ""
  {
  }

  const FAILED_WORDS: seq<string> := ["failed", "failure", "blocked"]
  const SUCCEEDED_WORDS: seq<string> := ["succeeded", "success", "proven", "passed"]

  lemma FailedPlain(k: nat)
    requires k < |FAILED_WORDS|
    ensures LowerWord(FAILED_WORDS[k])
  {
  }

  lemma SucceededPlain(k: nat)
    requires k < |SUCCEEDED_WORDS|
    ensures LowerWord(SUCCEEDED_WORDS[k])
  {
  }

  ghost predicate AmongWords(s: string, words: seq<string>) {
    exists k :: 0 <= k < |words| && AnyCase(s, words[k])
  }

  /** The words for an outcome, in any case and with white space around them, and no others. */
  lemma OutcomeWords(pre: string, core: string, post: string)
    requires AllWhite(pre) && AllWhite(post)
    requires core != "" ==> !IsWhitespace(core[0]) && !IsWhitespace(core[|core| - 1])
    ensures ParseOutcome(pre + core + post)
         == if AmongWords(core, FAILED_WORDS) then Some(Failed)
            else if AmongWords(core, SUCCEEDED_WORDS) then Some(Succeeded) else None
  {
    hide IsWhitespace, TrimStart, TrimEnd, AnyCase, AsciiLower;
    TrimmedExactly(pre, core, post);
    forall k | 0 <= k < 3 ensures AnyCase(core, FAILED_WORDS[k]) <==> AsciiLower(core) == FAILED_WORDS[k] {
      FailedPlain(k);
      AnyCaseLower(core, FAILED_WORDS[k]);
    }
    forall k | 0 <= k < 4 ensures AnyCase(core, SUCCEEDED_WORDS[k]) <==> AsciiLower(core) == SUCCEEDED_WORDS[k] {
      SucceededPlain(k);
      AnyCaseLower(core, SUCCEEDED_WORDS[k]);
    }
    assert FAILED_WORDS[0] == "failed" && FAILED_WORDS[1] == "failure" && FAILED_WORDS[2] == "blocked";
    assert SUCCEEDED_WORDS[0] == "succeeded" && SUCCEEDED_WORDS[1] == "success";
    assert SUCCEEDED_WORDS[2] == "proven" && SUCCEEDED_WORDS[3] == "passed";
  }
}
