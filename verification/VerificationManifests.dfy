/** Manifests read back as what was printed, their text cleaned. */
module VerificationManifests {
  import opened Text
  import opened JsonGrammar
  import opened JsonParser
  import opened JsonPrinter
  import opened JsonRecords
  import opened VerificationModel
  import opened VerificationStore

  // ---- names ----

  function ManifestRank(name: string): int {
    match name
    case "schema_version" => 0
    case "plan_id" => 1
    case "attempt" => 2
    case "passed" => 3
    case "candidate_dir" => 4
    case "bundle_hash" => 5
    case "files" => 6
    case "commands" => 7
    case "failure" => 8
    case _ => -1
  }

  function CommandRank(name: string): int {
    match name
    case "name" => 0
    case "program" => 1
    case "args" => 2
    case "exit_code" => 3
    case "timed_out" => 4
    case "stdout_path" => 5
    case "stdout_hash" => 6
    case "stdout_len" => 7
    case "stderr_path" => 8
    case "stderr_hash" => 9
    case "stderr_len" => 10
    case _ => -1
  }

  function RepairRank(name: string): int {
    match name
    case "schema_version" => 0
    case "plan_id" => 1
    case "after_attempt" => 2
    case "source_bundle_hash" => 3
    case "repaired_bundle_hash" => 4
    case "model" => 5
    case "files" => 6
    case _ => -1
  }

  function FinalRank(name: string): int {
    match name
    case "schema_version" => 0
    case "plan_id" => 1
    case "passed" => 2
    case "attempts" => 3
    case "repairs" => 4
    case "bundle_hash" => 5
    case "history_hash" => 6
    case "candidate_dir" => 7
    case "attempt_manifest" => 8
    case "attempt_manifest_hash" => 9
    case _ => -1
  }

  lemma DistinctByRank(names: seq<string>, rank: string -> int)
    requires forall k :: 0 <= k < |names| ==> PlainName(names[k]) && rank(names[k]) == k
    ensures DistinctNames(names)
  {
  }

  lemma AttemptNames()
    ensures DistinctNames(ATTEMPT_FIELDS)
  {
    assert forall k :: 0 <= k < 9 ==> ManifestRank(ATTEMPT_FIELDS[k]) == k;
    DistinctByRank(ATTEMPT_FIELDS, ManifestRank);
  }

  lemma FileNames()
    ensures DistinctNames(FILE_FIELDS) && DistinctNames(REPAIR_FILE_FIELDS)
  {
  }

  lemma CommandNames()
    ensures DistinctNames(COMMAND_FIELDS)
  {
    assert forall k :: 0 <= k < 11 ==> CommandRank(COMMAND_FIELDS[k]) == k;
    DistinctByRank(COMMAND_FIELDS, CommandRank);
  }

  lemma RepairNames()
    ensures DistinctNames(REPAIR_FIELDS)
  {
    assert forall k :: 0 <= k < 7 ==> RepairRank(REPAIR_FIELDS[k]) == k;
    DistinctByRank(REPAIR_FIELDS, RepairRank);
  }

  lemma FinalNames()
    ensures DistinctNames(FINAL_FIELDS)
  {
    assert forall k :: 0 <= k < 10 ==> FinalRank(FINAL_FIELDS[k]) == k;
    DistinctByRank(FINAL_FIELDS, FinalRank);
  }

  /** A printed object read back has exactly the names it was printed with. */
  lemma ExactBack(names: seq<string>, values: seq<JsonValue>)
    requires |names| == |values| && DistinctNames(names)
    ensures Exact(CleanValue(Object(Labelled(names, values))), names)
  {
    var fields := CleanFields(Labelled(names, values));
    forall k | 0 <= k < |names| ensures fields[k].name == names[k] { CleanName(names[k]); }
    assert (set i | 0 <= i < |fields| :: fields[i].name) == (set i | 0 <= i < |names| :: names[i]);
  }

  ghost function Back(names: seq<string>, values: seq<JsonValue>): JsonValue
    requires |names| == |values|
  {
    CleanValue(Object(Labelled(names, values)))
  }

  lemma LookBack(names: seq<string>, values: seq<JsonValue>, k: nat)
    requires |names| == |values| && k < |names| && DistinctNames(names)
    ensures Get(Back(names, values), names[k]) == Some(CleanValue(values[k]))
  {
    LookUp(names, values, k);
  }

  // ---- cleaned evidence ----

  /** The lengths are what a u64 holds. */
  predicate FileFits(f: FileEvidence) {
    f.len < 0x1_0000_0000_0000_0000
  }

  predicate CommandFits(c: CommandEvidence) {
    c.stdoutLen < 0x1_0000_0000_0000_0000 && c.stderrLen < 0x1_0000_0000_0000_0000
  }

  predicate AttemptFits(a: Attempt) {
    && (forall i :: 0 <= i < |a.files| ==> FileFits(a.files[i]))
    && (forall i :: 0 <= i < |a.commands| ==> CommandFits(a.commands[i]))
  }

  function CleanFile(f: FileEvidence): FileEvidence {
    f.(path := Clean(f.path), hash := Clean(f.hash))
  }

  function CleanCommand(c: CommandEvidence): CommandEvidence {
    c.(name := Clean(c.name), program := Clean(c.program), args := CleanAll(c.args),
       stdoutPath := Clean(c.stdoutPath), stdoutHash := Clean(c.stdoutHash),
       stderrPath := Clean(c.stderrPath), stderrHash := Clean(c.stderrHash))
  }

  function CleanFileList(fs: seq<FileEvidence>): (r: seq<FileEvidence>)
    ensures |r| == |fs| && forall i :: 0 <= i < |fs| ==> r[i] == CleanFile(fs[i])
  {
    seq(|fs|, i requires 0 <= i < |fs| => CleanFile(fs[i]))
  }

  function CleanCommandList(cs: seq<CommandEvidence>): (r: seq<CommandEvidence>)
    ensures |r| == |cs| && forall i :: 0 <= i < |cs| ==> r[i] == CleanCommand(cs[i])
  {
    seq(|cs|, i requires 0 <= i < |cs| => CleanCommand(cs[i]))
  }

  /** The attempt its manifest reads back as. */
  function CleanAttempt(a: Attempt): Attempt {
    a.(planId := Clean(a.planId), candidateDir := Clean(a.candidateDir), bundleHash := Clean(a.bundleHash),
       files := CleanFileList(a.files), commands := CleanCommandList(a.commands), failure := Clean(a.failure))
  }

  // ---- files ----

  lemma FileReads(f: FileEvidence)
    requires FileFits(f)
    ensures ReadFile(CleanValue(FileValue(f))) == Some(CleanFile(f))
  {
    var values := [String(f.path), String(f.hash), NumberOf(f.len), Bool(f.controllerOwned)];
    FileNames();
    ExactBack(FILE_FIELDS, values);
    LookBack(FILE_FIELDS, values, 0);
    LookBack(FILE_FIELDS, values, 1);
    LookBack(FILE_FIELDS, values, 2);
    LookBack(FILE_FIELDS, values, 3);
    NumberReads(f.len);
  }

  lemma FilePrintable(f: FileEvidence)
    ensures Printable(FileValue(f), 2)
  {
    FileNames();
    NumberPrintable(f.len, 3);
    LabelledPrintable(FILE_FIELDS, [String(f.path), String(f.hash), NumberOf(f.len), Bool(f.controllerOwned)], 2);
  }

  lemma {:induction false} ReadFilesAll(vs: seq<JsonValue>, xs: seq<FileEvidence>)
    requires |vs| == |xs| && forall i :: 0 <= i < |vs| ==> ReadFile(vs[i]) == Some(xs[i])
    ensures ReadFiles(vs) == Some(xs)
  {
    hide ReadFile;
    if xs != [] {
      var k := |xs| - 1;
      ReadFilesAll(vs[..k], xs[..k]);
      assert xs == xs[..k] + [xs[k]];
    }
  }

  lemma FilesRead(xs: seq<FileEvidence>)
    requires forall i :: 0 <= i < |xs| ==> FileFits(xs[i])
    ensures ReadFiles(CleanItems(FileValueList(xs))) == Some(CleanFileList(xs))
  {
    var vs := CleanItems(FileValueList(xs));
    forall i | 0 <= i < |xs| ensures ReadFile(vs[i]) == Some(CleanFileList(xs)[i]) {
      FileReads(xs[i]);
    }
    ReadFilesAll(vs, CleanFileList(xs));
  }

  lemma FilesPrintable(fs: seq<FileEvidence>)
    ensures Printable(Array(FileValueList(fs)), 1)
  {
    forall x | x in FileValueList(fs) ensures Printable(x, 2) {
      var i :| 0 <= i < |fs| && FileValueList(fs)[i] == x;
      FilePrintable(fs[i]);
    }
  }

  // ---- commands ----

  lemma IntegerReads(n: I32, root: JsonValue, key: string)
    requires Get(root, key) == Some(Number(IntegerText(n)))
    ensures JsonI32(root, key) == Some(n)
  {
    hide Decimal, DigitsValue;
    var m: int := n;
    if m < 0 {
      DecimalValue(-m);
      assert IntegerText(n)[1..] == Decimal(-m);
    } else {
      DecimalValue(m);
    }
  }

  lemma CommandStdoutRead(c: CommandEvidence)
    requires CommandFits(c)
    ensures var v := Back(COMMAND_FIELDS, CommandValues(c));
            && JsonString(v, "stdout_path") == Some(Clean(c.stdoutPath))
            && JsonString(v, "stdout_hash") == Some(Clean(c.stdoutHash))
            && JsonU64(v, "stdout_len") == Some(c.stdoutLen)
  {
    CommandNames();
    LookBack(COMMAND_FIELDS, CommandValues(c), 5);
    LookBack(COMMAND_FIELDS, CommandValues(c), 6);
    LookBack(COMMAND_FIELDS, CommandValues(c), 7);
    NumberReads(c.stdoutLen);
  }

  lemma CommandStderrRead(c: CommandEvidence)
    requires CommandFits(c)
    ensures var v := Back(COMMAND_FIELDS, CommandValues(c));
            && JsonString(v, "stderr_path") == Some(Clean(c.stderrPath))
            && JsonString(v, "stderr_hash") == Some(Clean(c.stderrHash))
            && JsonU64(v, "stderr_len") == Some(c.stderrLen)
  {
    CommandNames();
    LookBack(COMMAND_FIELDS, CommandValues(c), 8);
    LookBack(COMMAND_FIELDS, CommandValues(c), 9);
    LookBack(COMMAND_FIELDS, CommandValues(c), 10);
    NumberReads(c.stderrLen);
  }

  lemma CommandCallRead(c: CommandEvidence)
    ensures var v := Back(COMMAND_FIELDS, CommandValues(c));
            && JsonString(v, "name") == Some(Clean(c.name))
            && JsonString(v, "program") == Some(Clean(c.program))
            && JsonStringArray(v, "args") == Some(CleanAll(c.args))
            && JsonI32(v, "exit_code") == Some(c.exitCode)
            && JsonBool(v, "timed_out") == Some(c.timedOut)
  {
    hide IntegerText, Back, Decimal, CleanAll;
    CommandNames();
    forall k | 0 <= k < 5
      ensures Get(Back(COMMAND_FIELDS, CommandValues(c)), COMMAND_FIELDS[k]) == Some(CleanValue(CommandValues(c)[k])) {
      LookBack(COMMAND_FIELDS, CommandValues(c), k);
    }
    assert COMMAND_FIELDS[0] == "name" && COMMAND_FIELDS[1] == "program" && COMMAND_FIELDS[2] == "args";
    assert COMMAND_FIELDS[3] == "exit_code" && COMMAND_FIELDS[4] == "timed_out";
    StringsRead(c.args);
    IntegerReads(c.exitCode, Back(COMMAND_FIELDS, CommandValues(c)), "exit_code");
  }

  lemma CommandReads(c: CommandEvidence)
    requires CommandFits(c)
    ensures ReadCommand(CleanValue(CommandValue(c))) == Some(CleanCommand(c))
  {
    CommandNames();
    ExactBack(COMMAND_FIELDS, CommandValues(c));
    CommandCallRead(c);
    CommandStdoutRead(c);
    CommandStderrRead(c);
  }

  lemma CommandPrintable(c: CommandEvidence)
    ensures Printable(CommandValue(c), 2)
  {
    hide Decimal;
    assert |CommandValues(c)| == 11;
    CommandNames();
    NumberPrintable(c.stdoutLen, 3);
    NumberPrintable(c.stderrLen, 3);
    StringsPrintable(c.args, 3);
    assert Printable(Number(IntegerText(c.exitCode)), 3);
    LabelledPrintable(COMMAND_FIELDS, CommandValues(c), 2);
  }

  lemma {:induction false} ReadCommandsAll(vs: seq<JsonValue>, xs: seq<CommandEvidence>)
    requires |vs| == |xs| && forall i :: 0 <= i < |vs| ==> ReadCommand(vs[i]) == Some(xs[i])
    ensures ReadCommands(vs) == Some(xs)
  {
    hide ReadCommand;
    if xs != [] {
      var k := |xs| - 1;
      ReadCommandsAll(vs[..k], xs[..k]);
      assert xs == xs[..k] + [xs[k]];
    }
  }

  lemma CommandsRead(xs: seq<CommandEvidence>)
    requires forall i :: 0 <= i < |xs| ==> CommandFits(xs[i])
    ensures ReadCommands(CleanItems(CommandValueList(xs))) == Some(CleanCommandList(xs))
  {
    var vs := CleanItems(CommandValueList(xs));
    forall i | 0 <= i < |xs| ensures ReadCommand(vs[i]) == Some(CleanCommandList(xs)[i]) {
      CommandReads(xs[i]);
    }
    ReadCommandsAll(vs, CleanCommandList(xs));
  }

  lemma CommandsPrintable(cs: seq<CommandEvidence>)
    ensures Printable(Array(CommandValueList(cs)), 1)
  {
    forall x | x in CommandValueList(cs) ensures Printable(x, 2) {
      var i :| 0 <= i < |cs| && CommandValueList(cs)[i] == x;
      CommandPrintable(cs[i]);
    }
  }

  // ---- the attempt manifest ----

  lemma AttemptPrintable(a: Attempt)
    ensures Printable(Object(Labelled(ATTEMPT_FIELDS, AttemptValues(a))), 0)
  {
    hide Print, FileValueList, CommandValueList, Decimal;
    AttemptNames();
    NumberPrintable(VERIFICATION_SCHEMA_VERSION, 1);
    NumberPrintable(a.number, 1);
    FilesPrintable(a.files);
    CommandsPrintable(a.commands);
    assert |AttemptValues(a)| == 9;
    LabelledPrintable(ATTEMPT_FIELDS, AttemptValues(a), 0);
  }

  lemma AttemptHeadRead(a: Attempt)
    ensures var v := Back(ATTEMPT_FIELDS, AttemptValues(a));
            && JsonU64(v, "schema_version") == Some(VERIFICATION_SCHEMA_VERSION)
            && JsonString(v, "plan_id") == Some(Clean(a.planId))
            && JsonU32(v, "attempt") == Some(a.number)
            && JsonBool(v, "passed") == Some(a.passed)
  {
    AttemptNames();
    LookBack(ATTEMPT_FIELDS, AttemptValues(a), 0);
    LookBack(ATTEMPT_FIELDS, AttemptValues(a), 1);
    LookBack(ATTEMPT_FIELDS, AttemptValues(a), 2);
    LookBack(ATTEMPT_FIELDS, AttemptValues(a), 3);
    NumberReads(VERIFICATION_SCHEMA_VERSION);
    NumberReads(a.number);
  }

  lemma AttemptBodyRead(a: Attempt)
    ensures var v := Back(ATTEMPT_FIELDS, AttemptValues(a));
            && JsonString(v, "candidate_dir") == Some(Clean(a.candidateDir))
            && JsonString(v, "bundle_hash") == Some(Clean(a.bundleHash))
            && JsonArray(v, "files") == Some(CleanItems(FileValueList(a.files)))
            && JsonArray(v, "commands") == Some(CleanItems(CommandValueList(a.commands)))
            && JsonString(v, "failure") == Some(Clean(a.failure))
  {
    AttemptNames();
    LookBack(ATTEMPT_FIELDS, AttemptValues(a), 4);
    LookBack(ATTEMPT_FIELDS, AttemptValues(a), 5);
    LookBack(ATTEMPT_FIELDS, AttemptValues(a), 6);
    LookBack(ATTEMPT_FIELDS, AttemptValues(a), 7);
    LookBack(ATTEMPT_FIELDS, AttemptValues(a), 8);
  }

  /** An attempt's manifest parses to the object it was printed from. */
  lemma AttemptTextParses(a: Attempt)
    ensures ResultOf(AttemptText(a)) == Parsed(Back(ATTEMPT_FIELDS, AttemptValues(a)))
    ensures Exact(Back(ATTEMPT_FIELDS, AttemptValues(a)), ATTEMPT_FIELDS)
  {
    AttemptPrintable(a);
    PrintRoundTrip(Object(Labelled(ATTEMPT_FIELDS, AttemptValues(a))));
    AttemptNames();
    ExactBack(ATTEMPT_FIELDS, AttemptValues(a));
  }

  /** An attempt's manifest reads back as the attempt, cleaned. */
  lemma AttemptRoundTrip(env: Env, a: Attempt, path: string)
    requires AttemptFits(a)
    ensures ParseAttempt(env, AttemptText(a), path)
         == Some(CleanAttempt(a).(manifestPath := path, manifestHash := env.hash(AttemptText(a))))
  {
    hide AttemptText, AttemptValues, Exact, JsonString, JsonU64, JsonU32, JsonBool, JsonArray, Back, ResultOf,
         FileValueList, CommandValueList;
    AttemptTextParses(a);
    AttemptHeadRead(a);
    AttemptBodyRead(a);
    FilesRead(a.files);
    CommandsRead(a.commands);
  }

  // ---- the repair manifest ----

  function RepairFileValues(env: Env, f: CandidateFile): seq<JsonValue> {
    [String(Normalize(f.path)), String(env.hash(f.content)), NumberOf(ByteLength(f.content))]
  }

  lemma RepairFilePrintable(env: Env, f: CandidateFile)
    ensures Printable(RepairFileValue(env, f), 2)
  {
    FileNames();
    NumberPrintable(ByteLength(f.content), 3);
    LabelledPrintable(REPAIR_FILE_FIELDS, RepairFileValues(env, f), 2);
  }

  lemma RepairFilesPrintable(env: Env, files: seq<CandidateFile>)
    ensures Printable(Array(RepairFileList(env, files)), 1)
  {
    forall x | x in RepairFileList(env, files) ensures Printable(x, 2) {
      var i :| 0 <= i < |files| && RepairFileList(env, files)[i] == x;
      RepairFilePrintable(env, files[i]);
    }
  }

  lemma RepairPrintable(env: Env, r: Repair)
    ensures Printable(Object(Labelled(REPAIR_FIELDS, RepairValues(env, r))), 0)
  {
    hide RepairFileList, Decimal;
    assert |RepairValues(env, r)| == 7;
    RepairNames();
    NumberPrintable(VERIFICATION_SCHEMA_VERSION, 1);
    NumberPrintable(r.afterAttempt, 1);
    RepairFilesPrintable(env, r.files);
    LabelledPrintable(REPAIR_FIELDS, RepairValues(env, r), 0);
  }

  /** What a repair file's entry reads back as. */
  lemma RepairFileReads(env: Env, f: CandidateFile)
    requires ByteLength(f.content) < 0x1_0000_0000_0000_0000
    ensures var v := CleanValue(RepairFileValue(env, f));
            && Exact(v, REPAIR_FILE_FIELDS)
            && JsonString(v, "path") == Some(Clean(Normalize(f.path)))
            && JsonString(v, "hash") == Some(Clean(env.hash(f.content)))
            && JsonU64(v, "len") == Some(ByteLength(f.content))
  {
    FileNames();
    ExactBack(REPAIR_FILE_FIELDS, RepairFileValues(env, f));
    LookBack(REPAIR_FILE_FIELDS, RepairFileValues(env, f), 0);
    LookBack(REPAIR_FILE_FIELDS, RepairFileValues(env, f), 1);
    LookBack(REPAIR_FILE_FIELDS, RepairFileValues(env, f), 2);
    NumberReads(ByteLength(f.content));
  }

  lemma RepairHeadRead(env: Env, r: Repair)
    ensures var v := Back(REPAIR_FIELDS, RepairValues(env, r));
            && JsonU64(v, "schema_version") == Some(VERIFICATION_SCHEMA_VERSION)
            && JsonString(v, "plan_id") == Some(Clean(r.planId))
            && JsonU32(v, "after_attempt") == Some(r.afterAttempt)
            && JsonArray(v, "files") == Some(CleanItems(RepairFileList(env, r.files)))
  {
    RepairNames();
    LookBack(REPAIR_FIELDS, RepairValues(env, r), 0);
    LookBack(REPAIR_FIELDS, RepairValues(env, r), 1);
    LookBack(REPAIR_FIELDS, RepairValues(env, r), 2);
    LookBack(REPAIR_FIELDS, RepairValues(env, r), 6);
    NumberReads(VERIFICATION_SCHEMA_VERSION);
    NumberReads(r.afterAttempt);
  }

  lemma RepairHashesRead(env: Env, r: Repair)
    ensures var v := Back(REPAIR_FIELDS, RepairValues(env, r));
            && JsonString(v, "source_bundle_hash") == Some(Clean(r.sourceHash))
            && JsonString(v, "repaired_bundle_hash") == Some(Clean(r.repairedHash))
            && JsonString(v, "model") == Some(Clean(r.model))
  {
    RepairNames();
    LookBack(REPAIR_FIELDS, RepairValues(env, r), 3);
    LookBack(REPAIR_FIELDS, RepairValues(env, r), 4);
    LookBack(REPAIR_FIELDS, RepairValues(env, r), 5);
  }

  /** A repair manifest parses to the object it was printed from. */
  lemma RepairTextParses(env: Env, r: Repair)
    ensures ResultOf(RepairText(env, r)) == Parsed(Back(REPAIR_FIELDS, RepairValues(env, r)))
    ensures Exact(Back(REPAIR_FIELDS, RepairValues(env, r)), REPAIR_FIELDS)
  {
    RepairPrintable(env, r);
    PrintRoundTrip(Object(Labelled(REPAIR_FIELDS, RepairValues(env, r))));
    RepairNames();
    ExactBack(REPAIR_FIELDS, RepairValues(env, r));
  }

  // ---- the final manifest ----

  lemma FinalPrintable(a: Attempt, repairs: nat, history: string)
    ensures Printable(Object(Labelled(FINAL_FIELDS, FinalValues(a, repairs, history))), 0)
  {
    FinalNames();
    NumberPrintable(VERIFICATION_SCHEMA_VERSION, 1);
    NumberPrintable(a.number, 1);
    NumberPrintable(repairs, 1);
    LabelledPrintable(FINAL_FIELDS, FinalValues(a, repairs, history), 0);
  }

  lemma FinalHeadRead(a: Attempt, repairs: U32, history: string)
    ensures var v := Back(FINAL_FIELDS, FinalValues(a, repairs, history));
            && JsonU64(v, "schema_version") == Some(VERIFICATION_SCHEMA_VERSION)
            && JsonString(v, "plan_id") == Some(Clean(a.planId))
            && Get(v, "passed") == Some(Bool(true))
            && JsonU32(v, "attempts") == Some(a.number)
            && JsonU32(v, "repairs") == Some(repairs)
  {
    FinalNames();
    LookBack(FINAL_FIELDS, FinalValues(a, repairs, history), 0);
    LookBack(FINAL_FIELDS, FinalValues(a, repairs, history), 1);
    LookBack(FINAL_FIELDS, FinalValues(a, repairs, history), 2);
    LookBack(FINAL_FIELDS, FinalValues(a, repairs, history), 3);
    LookBack(FINAL_FIELDS, FinalValues(a, repairs, history), 4);
    NumberReads(VERIFICATION_SCHEMA_VERSION);
    NumberReads(a.number);
    NumberReads(repairs);
  }

  lemma FinalBodyRead(a: Attempt, repairs: U32, history: string)
    ensures var v := Back(FINAL_FIELDS, FinalValues(a, repairs, history));
            && JsonString(v, "bundle_hash") == Some(Clean(a.bundleHash))
            && JsonString(v, "history_hash") == Some(Clean(history))
            && JsonString(v, "candidate_dir") == Some(Clean(a.candidateDir))
            && JsonString(v, "attempt_manifest") == Some(Clean(a.manifestPath))
            && JsonString(v, "attempt_manifest_hash") == Some(Clean(a.manifestHash))
  {
    FinalNames();
    LookBack(FINAL_FIELDS, FinalValues(a, repairs, history), 5);
    LookBack(FINAL_FIELDS, FinalValues(a, repairs, history), 6);
    LookBack(FINAL_FIELDS, FinalValues(a, repairs, history), 7);
    LookBack(FINAL_FIELDS, FinalValues(a, repairs, history), 8);
    LookBack(FINAL_FIELDS, FinalValues(a, repairs, history), 9);
  }

  lemma TagClean(s: string)
    requires ValidTag(s)
    ensures Clean(s) == s
  {
    forall i | 0 <= i < |s| ensures CleanChar(s[i]) == s[i] {
      if i < 7 { assert s[i] == s[..7][i]; }
    }
    CleanFixed(s);
  }

  lemma PlanClean(plan: string)
    requires ValidPlanId(plan)
    ensures Clean(plan) == plan
  {
    CleanFixed(plan);
  }

  /** The final manifest of a passing attempt reads back as its claim. */
  lemma FinalRoundTrip(a: Attempt, repairs: U32, history: string)
    requires ValidPlanId(a.planId) && 1 <= a.number <= MAX_VERIFICATION_ATTEMPTS && repairs == a.number - 1
    requires ValidTag(a.bundleHash) && ValidTag(history) && ValidTag(a.manifestHash)
    requires IsClean(a.candidateDir) && IsClean(a.manifestPath)
    ensures ResultOf(FinalText(a, repairs, history)).Parsed?
    ensures ReadFinal(ResultOf(FinalText(a, repairs, history)).value, a.planId, a.bundleHash)
         == Some(Final(a.number, repairs, history, a.candidateDir, a.manifestPath, a.manifestHash))
  {
    var v := Back(FINAL_FIELDS, FinalValues(a, repairs, history));
    FinalPrintable(a, repairs, history);
    PrintRoundTrip(Object(Labelled(FINAL_FIELDS, FinalValues(a, repairs, history))));
    FinalNames();
    ExactBack(FINAL_FIELDS, FinalValues(a, repairs, history));
    FinalHeadRead(a, repairs, history);
    FinalBodyRead(a, repairs, history);
    FinalClean(a, history);
    FinalAssembles(v, a, repairs, history);
  }

  lemma FinalClean(a: Attempt, history: string)
    requires ValidPlanId(a.planId) && ValidTag(a.bundleHash) && ValidTag(history) && ValidTag(a.manifestHash)
    requires IsClean(a.candidateDir) && IsClean(a.manifestPath)
    ensures Clean(a.planId) == a.planId && Clean(a.bundleHash) == a.bundleHash && Clean(history) == history
    ensures Clean(a.manifestHash) == a.manifestHash && Clean(a.candidateDir) == a.candidateDir
    ensures Clean(a.manifestPath) == a.manifestPath
  {
    TagClean(a.bundleHash);
    TagClean(history);
    TagClean(a.manifestHash);
    PlanClean(a.planId);
    CleanFixed(a.candidateDir);
    CleanFixed(a.manifestPath);
  }

  lemma FinalAssembles(v: JsonValue, a: Attempt, repairs: U32, history: string)
    requires Exact(v, FINAL_FIELDS) && JsonU64(v, "schema_version") == Some(VERIFICATION_SCHEMA_VERSION)
    requires JsonString(v, "plan_id") == Some(a.planId) && JsonString(v, "bundle_hash") == Some(a.bundleHash)
    requires Get(v, "passed") == Some(Bool(true))
    requires JsonU32(v, "attempts") == Some(a.number) && JsonU32(v, "repairs") == Some(repairs)
    requires 1 <= a.number <= MAX_VERIFICATION_ATTEMPTS && repairs == a.number - 1
    requires JsonString(v, "history_hash") == Some(history) && ValidTag(history)
    requires JsonString(v, "candidate_dir") == Some(a.candidateDir)
    requires JsonString(v, "attempt_manifest") == Some(a.manifestPath)
    requires JsonString(v, "attempt_manifest_hash") == Some(a.manifestHash)
    ensures ReadFinal(v, a.planId, a.bundleHash)
         == Some(Final(a.number, repairs, history, a.candidateDir, a.manifestPath, a.manifestHash))
  {
  }
}
