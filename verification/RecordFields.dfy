/** Which fields a readable record has: every reader takes exactly the names the printer writes, each once and in any
    order, and no others. */
module RecordFields {
  import opened Text
  import opened JsonGrammar
  import opened JsonParser
  import opened JsonPlain
  import opened JsonRecords
  import opened VerificationModel
  import opened VerificationStore
  import Learning

  /** An object with exactly these names, each once. */
  ghost predicate Has(v: JsonValue, names: seq<string>) {
    && v.Object?
    && (forall i, j :: 0 <= i < j < |v.fields| ==> v.fields[i].name != v.fields[j].name)
    && (forall name :: name in names <==> exists i :: 0 <= i < |v.fields| && v.fields[i].name == name)
  }

  lemma ExactHas(v: JsonValue, names: seq<string>)
    requires Exact(v, names) && NamesOnce(v)
    ensures Has(v, names)
  {
    var some, all := set i | 0 <= i < |v.fields| :: v.fields[i].name, set i | 0 <= i < |names| :: names[i];
    assert some == all;
    forall name ensures name in names <==> exists i :: 0 <= i < |v.fields| && v.fields[i].name == name {
      assert name in names <==> name in all;
      assert name in some <==> exists i :: 0 <= i < |v.fields| && v.fields[i].name == name;
    }
  }

  lemma {:induction false} FoundOnce(fields: seq<Field>, key: string)
    requires Find(fields, key).Some? && forall i :: 0 <= i < |fields| ==> NamesOnce(fields[i].value)
    ensures NamesOnce(Find(fields, key).value)
  {
    hide NamesOnce;
    if fields[0].name != key { FoundOnce(fields[1..], key); }
  }

  lemma GotOnce(v: JsonValue, key: string)
    requires NamesOnce(v) && Get(v, key).Some?
    ensures NamesOnce(Get(v, key).value)
  {
    FoundOnce(v.fields, key);
  }

  // ---- manifests ----

  const ATTEMPT_NAMES: seq<string> := [
    "attempt", "bundle_hash", "candidate_dir", "commands", "failure", "files", "passed", "plan_id", "schema_version"]
  const FILE_NAMES: seq<string> := ["controller_owned", "hash", "len", "path"]
  const COMMAND_NAMES: seq<string> := [
    "args", "exit_code", "name", "program", "stderr_hash", "stderr_len", "stderr_path", "stdout_hash", "stdout_len",
    "stdout_path", "timed_out"]
  const REPAIR_NAMES: seq<string> := [
    "after_attempt", "files", "model", "plan_id", "repaired_bundle_hash", "schema_version", "source_bundle_hash"]
  const REPAIR_FILE_NAMES: seq<string> := ["hash", "len", "path"]
  const FINAL_NAMES: seq<string> := [
    "attempt_manifest", "attempt_manifest_hash", "attempts", "bundle_hash", "candidate_dir", "history_hash", "passed",
    "plan_id", "repairs", "schema_version"]

  /** The same names in another order. */
  ghost predicate SameNames(xs: seq<string>, ys: seq<string>) {
    forall x :: x in xs <==> x in ys
  }

  lemma HasOther(v: JsonValue, xs: seq<string>, ys: seq<string>)
    requires Has(v, xs) && SameNames(xs, ys)
    ensures Has(v, ys)
  {
  }

  lemma AttemptNames()
    ensures SameNames(ATTEMPT_FIELDS, ATTEMPT_NAMES)
  {
    assert ATTEMPT_FIELDS == [ATTEMPT_NAMES[8], ATTEMPT_NAMES[7], ATTEMPT_NAMES[0], ATTEMPT_NAMES[6], ATTEMPT_NAMES[2],
                              ATTEMPT_NAMES[1], ATTEMPT_NAMES[5], ATTEMPT_NAMES[3], ATTEMPT_NAMES[4]];
  }

  lemma FileNames()
    ensures SameNames(FILE_FIELDS, FILE_NAMES)
  {
    assert FILE_FIELDS == [FILE_NAMES[3], FILE_NAMES[1], FILE_NAMES[2], FILE_NAMES[0]];
  }


  lemma CommandNames()
    ensures SameNames(COMMAND_FIELDS, COMMAND_NAMES)
  {
    assert COMMAND_FIELDS == [COMMAND_NAMES[2], COMMAND_NAMES[3], COMMAND_NAMES[0], COMMAND_NAMES[1],
                               COMMAND_NAMES[10], COMMAND_NAMES[9], COMMAND_NAMES[7], COMMAND_NAMES[8],
                               COMMAND_NAMES[6], COMMAND_NAMES[4], COMMAND_NAMES[5]];
  }


  lemma RepairNames()
    ensures SameNames(REPAIR_FIELDS, REPAIR_NAMES)
  {
    assert REPAIR_FIELDS == [REPAIR_NAMES[5], REPAIR_NAMES[3], REPAIR_NAMES[0], REPAIR_NAMES[6], REPAIR_NAMES[4],
                              REPAIR_NAMES[2], REPAIR_NAMES[1]];
  }


  lemma RepairFileNames()
    ensures SameNames(REPAIR_FILE_FIELDS, REPAIR_FILE_NAMES)
  {
    assert REPAIR_FILE_FIELDS == [REPAIR_FILE_NAMES[2], REPAIR_FILE_NAMES[0], REPAIR_FILE_NAMES[1]];
  }


  lemma FinalNames()
    ensures SameNames(FINAL_FIELDS, FINAL_NAMES)
  {
    assert FINAL_FIELDS == [FINAL_NAMES[9], FINAL_NAMES[7], FINAL_NAMES[6], FINAL_NAMES[2], FINAL_NAMES[8],
                             FINAL_NAMES[3], FINAL_NAMES[5], FINAL_NAMES[4], FINAL_NAMES[0], FINAL_NAMES[1]];
  }

  /** Every item is an object with exactly these names. */
  ghost predicate AllHave(vs: seq<JsonValue>, names: seq<string>) {
    forall i :: 0 <= i < |vs| ==> Has(vs[i], names)
  }

  ghost predicate AllOnce(vs: seq<JsonValue>) {
    forall i :: 0 <= i < |vs| ==> NamesOnce(vs[i])
  }

  lemma {:induction false} FilesHave(vs: seq<JsonValue>)
    requires ReadFiles(vs).Some? && AllOnce(vs)
    ensures AllHave(vs, FILE_NAMES)
  {
    hide Has, NamesOnce, Exact, JsonString, JsonU64, JsonBool;
    if vs != [] {
      var last := vs[|vs| - 1];
      FilesHave(vs[..|vs| - 1]);
      assert NamesOnce(last);
      ExactHas(last, FILE_FIELDS);
      FileNames();
      HasOther(last, FILE_FIELDS, FILE_NAMES);
      AllHaveMore(vs, FILE_NAMES);
    }
  }

  lemma AllHaveMore(vs: seq<JsonValue>, names: seq<string>)
    requires vs != [] && AllHave(vs[..|vs| - 1], names) && Has(vs[|vs| - 1], names)
    ensures AllHave(vs, names)
  {
    hide Has;
    forall i | 0 <= i < |vs| ensures Has(vs[i], names) {
      if i < |vs| - 1 { assert vs[i] == vs[..|vs| - 1][i]; }
    }
  }

  lemma {:induction false} CommandsHave(vs: seq<JsonValue>)
    requires ReadCommands(vs).Some? && AllOnce(vs)
    ensures AllHave(vs, COMMAND_NAMES)
  {
    hide Has, NamesOnce, Exact, JsonString, JsonU64, JsonBool, JsonI32, JsonStringArray;
    if vs != [] {
      var last := vs[|vs| - 1];
      CommandsHave(vs[..|vs| - 1]);
      assert NamesOnce(last);
      ExactHas(last, COMMAND_FIELDS);
      CommandNames();
      HasOther(last, COMMAND_FIELDS, COMMAND_NAMES);
      AllHaveMore(vs, COMMAND_NAMES);
    }
  }

  lemma {:induction false} RepairFilesHave(env: Env, disk: Disk, dir: string, vs: seq<JsonValue>)
    requires ReadRepairFiles(env, disk, dir, vs).Some? && AllOnce(vs)
    ensures AllHave(vs, REPAIR_FILE_NAMES)
  {
    hide Has, NamesOnce, Exact, JsonString, JsonU64, ValidFile, ValidTag, ValidRelativePath, ByteLength;
    if vs != [] {
      var last := vs[|vs| - 1];
      RepairFilesHave(env, disk, dir, vs[..|vs| - 1]);
      assert NamesOnce(last);
      ExactHas(last, REPAIR_FILE_FIELDS);
      RepairFileNames();
      HasOther(last, REPAIR_FILE_FIELDS, REPAIR_FILE_NAMES);
      AllHaveMore(vs, REPAIR_FILE_NAMES);
    }
  }

  lemma ArrayOnce(v: JsonValue, key: string)
    requires NamesOnce(v) && JsonArray(v, key).Some?
    ensures AllOnce(JsonArray(v, key).value) && Get(v, key) == Some(Array(JsonArray(v, key).value))
  {
    GotOnce(v, key);
  }

  /** An attempt's manifest has the names of an attempt and is of schema one, and its files and commands have theirs. */
  lemma AttemptFields(env: Env, text: string, path: string)
    returns (v: JsonValue, files: seq<JsonValue>, commands: seq<JsonValue>)
    requires ParseAttempt(env, text, path).Some?
    ensures ResultOf(text) == Parsed(v) && Has(v, ATTEMPT_NAMES) && JsonU64(v, "schema_version") == Some(1)
    ensures Get(v, "files") == Some(Array(files)) && AllHave(files, FILE_NAMES)
    ensures Get(v, "commands") == Some(Array(commands)) && AllHave(commands, COMMAND_NAMES)
  {
    hide Has, NamesOnce, Exact, JsonString, JsonU64, JsonU32, JsonBool, JsonArray, AllOnce, AllHave, Get, ResultOf;
    v := ResultOf(text).value;
    NamesReadOnce(text);
    ExactHas(v, ATTEMPT_FIELDS);
    AttemptNames();
    HasOther(v, ATTEMPT_FIELDS, ATTEMPT_NAMES);
    files, commands := JsonArray(v, "files").value, JsonArray(v, "commands").value;
    ArrayOnce(v, "files");
    ArrayOnce(v, "commands");
    FilesHave(files);
    CommandsHave(commands);
  }

  /** A repair's manifest has the names of a repair and is of schema one, and its files have theirs. */
  lemma RepairFields(env: Env, disk: Disk, path: string) returns (v: JsonValue, files: seq<JsonValue>)
    requires ParseRepair(env, disk, path).Some?
    ensures path in disk && ResultOf(disk[path]) == Parsed(v)
    ensures Has(v, REPAIR_NAMES) && JsonU64(v, "schema_version") == Some(1)
    ensures Get(v, "files") == Some(Array(files)) && AllHave(files, REPAIR_FILE_NAMES)
  {
    hide Has, NamesOnce, Exact, JsonString, JsonU64, JsonU32, JsonArray, AllOnce, AllHave, Get, ResultOf, Parent,
         FileName, Exists, RepairFieldsValid;
    v := ResultOf(disk[path]).value;
    NamesReadOnce(disk[path]);
    ExactHas(v, REPAIR_FIELDS);
    RepairNames();
    HasOther(v, REPAIR_FIELDS, REPAIR_NAMES);
    files := JsonArray(v, "files").value;
    ArrayOnce(v, "files");
    RepairFilesHave(env, disk, Parent(path) + "/files", files);
  }

  /** A final manifest that is accepted has the names of one, is of schema one and says of one to thirty-two attempts
      that they passed with one repair less. */
  lemma FinalFields(env: Env, disk: Disk, path: string, manifestHash: string, plan: string, bundleHash: string)
    returns (v: JsonValue)
    requires VerifyEvidence(env, disk, path, manifestHash, plan, bundleHash).Some?
    ensures path in disk && ResultOf(disk[path]) == Parsed(v)
    ensures Has(v, FINAL_NAMES) && JsonU64(v, "schema_version") == Some(1) && Get(v, "passed") == Some(Bool(true))
    ensures JsonString(v, "plan_id") == Some(plan) && JsonString(v, "bundle_hash") == Some(bundleHash)
    ensures var n := VerifyEvidence(env, disk, path, manifestHash, plan, bundleHash).value.attempts;
            1 <= n <= 32 && JsonU32(v, "attempts") == Some(n) && JsonU32(v, "repairs") == Some(n - 1)
  {
    hide Has, NamesOnce, Exact, JsonString, JsonU64, JsonU32, Get, ResultOf, Parent, FinalPlace, ValidTag, ValidPlanId,
         ChainOf, FinalMatches;
    v := ResultOf(disk[path]).value;
    NamesReadOnce(disk[path]);
    ExactHas(v, FINAL_FIELDS);
    FinalNames();
    HasOther(v, FINAL_FIELDS, FINAL_NAMES);
  }

  // ---- the learning ledger ----

  const LINE_NAMES: seq<string> := [
    "schema_version", "id", "timestamp_ms", "source", "intent", "recipe_id", "atom_stack", "gate", "attempt",
    "outcome", "failure", "correction", "artifact_path", "artifact_hash", "provider_model", "route_len",
    "work_plan_id", "work_plan_manifest", "work_packet_count", "harness_attestation_path", "harness_attestation_hash",
    "candidate_verification"]
  const CANDIDATE_NAMES: seq<string> := ["attempts", "bundle_hash", "manifest_hash", "manifest_path", "repairs"]

  /** How many of the names a schema has. */
  function NameCount(schema: nat): (n: nat)
    ensures n <= |LINE_NAMES|
  {
    if schema <= 2 then 16 else if schema == 3 then 19 else if schema == 4 then 21 else 22
  }

  /** A line that can be read is an object with as many fields as its schema has names, each once, and all of them among
      those names. */
  lemma LineFields(line: string, r: Learning.LearningRecord) returns (v: JsonValue)
    requires Learning.FromJson(line) == Some(r)
    ensures ResultOf(line) == Parsed(v) && v.Object? && NamesOnce(v)
    ensures 1 <= r.schemaVersion <= 5 && |v.fields| == NameCount(r.schemaVersion)
    ensures forall i :: 0 <= i < |v.fields| ==> v.fields[i].name in LINE_NAMES[..NameCount(r.schemaVersion)]
  {
    hide NamesOnce, ResultOf, JsonString, JsonU64, JsonU32, JsonStringArray, Learning.NameAllowed,
         Learning.ExpectedLength, Learning.JsonCandidate, Learning.ParseOutcome, NameCount;
    v := ResultOf(line).value;
    NamesReadOnce(line);
    LineSchema(v, r);
    forall i | 0 <= i < |v.fields| ensures v.fields[i].name in LINE_NAMES[..NameCount(r.schemaVersion)] {
      LineName(r.schemaVersion, v.fields[i].name);
    }
  }

  lemma LineSchema(v: JsonValue, r: Learning.LearningRecord)
    requires Learning.ReadRecord(v) == Some(r) && Learning.ValidStructure(r)
    ensures 1 <= r.schemaVersion <= 5 && v.Object? && |v.fields| == NameCount(r.schemaVersion)
    ensures forall i :: 0 <= i < |v.fields| ==> Learning.NameAllowed(r.schemaVersion, v.fields[i].name)
  {
    hide JsonString, JsonU64, JsonU32, JsonStringArray, Learning.NameAllowed, Learning.JsonCandidate,
         Learning.ParseOutcome, Learning.ValidSuccess, Blank, ValidTag, Learning.ValidLegacyHash;
  }

  lemma LineName(schema: nat, name: string)
    requires 1 <= schema <= 5 && Learning.NameAllowed(schema, name)
    ensures name in LINE_NAMES[..NameCount(schema)]
  {
    var names := LINE_NAMES[..NameCount(schema)];
    if name in Learning.BASE_FIELDS {
      var k :| 0 <= k < 16 && Learning.BASE_FIELDS[k] == name;
      assert names[k] == name;
    } else if name in Learning.WORK_FIELDS {
      var k :| 0 <= k < 3 && Learning.WORK_FIELDS[k] == name;
      assert names[16 + k] == name;
    } else if name in Learning.HARNESS_FIELDS {
      var k :| 0 <= k < 2 && Learning.HARNESS_FIELDS[k] == name;
      assert names[19 + k] == name;
    } else {
      assert name == Learning.CANDIDATE_FIELDS[0];
      assert names[21] == name;
    }
  }

  /** Evidence in a line is an object with five fields, each of them one of these. */
  lemma CandidateFields(line: string, r: Learning.LearningRecord) returns (v: JsonValue)
    requires Learning.FromJson(line) == Some(r) && r.candidateVerification.Some?
    ensures ResultOf(line).Parsed? && Get(ResultOf(line).value, "candidate_verification") == Some(v)
    ensures v.Object? && NamesOnce(v) && |v.fields| == 5 && r.schemaVersion == 5
    ensures forall i :: 0 <= i < |v.fields| ==> v.fields[i].name in CANDIDATE_NAMES
  {
    hide NamesOnce, ResultOf, JsonString, JsonU64, JsonU32, JsonStringArray, Learning.NameAllowed,
         Learning.ExpectedLength, Learning.ParseOutcome, Get, Learning.ValidStructure;
    var root := ResultOf(line).value;
    v := Get(root, "candidate_verification").value;
    NamesReadOnce(line);
    GotOnce(root, "candidate_verification");
    forall i | 0 <= i < |v.fields| ensures v.fields[i].name in CANDIDATE_NAMES {
      assert v.fields[i].name in Learning.EVIDENCE_FIELDS;
      var k :| 0 <= k < 5 && Learning.EVIDENCE_FIELDS[k] == v.fields[i].name;
      assert CANDIDATE_NAMES[if k == 0 then 3 else if k == 1 then 2 else if k == 2 then 1 else if k == 3 then 0 else 4]
          == v.fields[i].name;
    }
  }
}
