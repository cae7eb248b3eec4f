/** The evidence store: where evidence lies on disk, how manifests are printed and read back, and the
    checks an attempt, a repair and a whole chain must pass. The disk maps path texts to file texts. */
module VerificationStore {
  import opened Text
  import opened JsonGrammar
  import opened JsonParser
  import opened JsonPrinter
  import opened JsonRecords
  import opened VerificationModel

  type Disk = map<string, string>

  // ---- paths ----

  predicate IsDir(disk: Disk, p: string) {
    exists q :: q in disk && p + "/" <= q
  }

  predicate Exists(disk: Disk, p: string) {
    p in disk || IsDir(disk, p)
  }

  /** Some directory on the way to `p` is a file, so `p` cannot be created. */
  predicate Obstructed(disk: Disk, p: string) {
    exists q :: q in disk && q + "/" <= p
  }

  function LastSlash(p: string): (k: int)
    ensures -1 <= k < |p|
    ensures k >= 0 ==> p[k] == '/'
    ensures forall i :: k < i < |p| ==> p[i] != '/'
  {
    if p == "" then -1 else if p[|p| - 1] == '/' then |p| - 1 else LastSlash(p[..|p| - 1])
  }

  function Parent(p: string): string {
    if LastSlash(p) < 0 then "" else p[..LastSlash(p)]
  }

  function FileName(p: string): string {
    p[LastSlash(p) + 1..]
  }

  /** `{n:03}` */
  function Pad3(n: nat): string {
    (if n < 10 then "00" else if n < 100 then "0" else "") + Decimal(n)
  }

  function PlanDir(env: Env, plan: string): string {
    env.root + "/" + plan + "/candidate-verification"
  }

  function AttemptName(n: nat): string {
    "attempt-" + Pad3(n)
  }

  function AttemptDir(env: Env, plan: string, n: nat): string {
    PlanDir(env, plan) + "/" + AttemptName(n)
  }

  function AttemptPath(env: Env, plan: string, n: nat): string {
    AttemptDir(env, plan, n) + "/attempt.json"
  }

  function CandidateDir(env: Env, plan: string, n: nat): string {
    AttemptDir(env, plan, n) + "/candidate"
  }

  function RepairDir(env: Env, plan: string, n: nat): string {
    AttemptDir(env, plan, n) + "/repair"
  }

  function RepairPath(env: Env, plan: string, n: nat): string {
    RepairDir(env, plan, n) + "/repair.json"
  }

  function FinalPath(env: Env, plan: string): string {
    PlanDir(env, plan) + "/verification-final.json"
  }

  // ---- evidence ----

  datatype FileEvidence = FileEvidence(path: string, hash: string, len: nat, controllerOwned: bool)

  type I32 = n: int | -0x8000_0000 <= n < 0x8000_0000

  datatype CommandEvidence = CommandEvidence(
    name: string, program: string, args: seq<string>, exitCode: I32, timedOut: bool,
    stdoutPath: string, stdoutHash: string, stdoutLen: nat,
    stderrPath: string, stderrHash: string, stderrLen: nat)
  {
    predicate Passed() {
      !timedOut && exitCode == 0
    }
  }

  datatype Attempt = Attempt(
    planId: string, number: U32, passed: bool, candidateDir: string, bundleHash: string,
    files: seq<FileEvidence>, commands: seq<CommandEvidence>, failure: string,
    manifestPath: string, manifestHash: string)

  datatype Repair = Repair(
    planId: string, afterAttempt: U32, sourceHash: string, repairedHash: string, model: string,
    files: seq<CandidateFile>, manifestPath: string, manifestHash: string)

  datatype Success = Success(
    planId: string, attempts: U32, repairs: U32, bundleHash: string, candidateDir: string,
    manifestPath: string, manifestHash: string)

  datatype Verified = Verified(planId: string, attempts: U32, repairs: U32, bundleHash: string, candidateDir: string)

  datatype Loaded<+T> = Missing | Corrupt | Present(value: T)

  // ---- printing ----

  const ATTEMPT_FIELDS: seq<string> := [
    "schema_version", "plan_id", "attempt", "passed", "candidate_dir", "bundle_hash", "files", "commands", "failure"]
  const FILE_FIELDS: seq<string> := ["path", "hash", "len", "controller_owned"]
  const COMMAND_FIELDS: seq<string> := [
    "name", "program", "args", "exit_code", "timed_out", "stdout_path", "stdout_hash", "stdout_len",
    "stderr_path", "stderr_hash", "stderr_len"]
  const REPAIR_FIELDS: seq<string> := [
    "schema_version", "plan_id", "after_attempt", "source_bundle_hash", "repaired_bundle_hash", "model", "files"]
  const REPAIR_FILE_FIELDS: seq<string> := ["path", "hash", "len"]
  const FINAL_FIELDS: seq<string> := [
    "schema_version", "plan_id", "passed", "attempts", "repairs", "bundle_hash", "history_hash", "candidate_dir",
    "attempt_manifest", "attempt_manifest_hash"]

  function FileValue(f: FileEvidence): JsonValue {
    Object(Labelled(FILE_FIELDS, [String(f.path), String(f.hash), NumberOf(f.len), Bool(f.controllerOwned)]))
  }

  function CommandValues(c: CommandEvidence): seq<JsonValue> {
    [String(c.name), String(c.program), Array(Strings(c.args)), Number(IntegerText(c.exitCode)), Bool(c.timedOut),
     String(c.stdoutPath), String(c.stdoutHash), NumberOf(c.stdoutLen),
     String(c.stderrPath), String(c.stderrHash), NumberOf(c.stderrLen)]
  }

  function CommandValue(c: CommandEvidence): JsonValue {
    Object(Labelled(COMMAND_FIELDS, CommandValues(c)))
  }

  function FileValueList(fs: seq<FileEvidence>): (r: seq<JsonValue>)
    ensures |r| == |fs| && forall i :: 0 <= i < |fs| ==> r[i] == FileValue(fs[i])
  {
    seq(|fs|, i requires 0 <= i < |fs| => FileValue(fs[i]))
  }

  function CommandValueList(cs: seq<CommandEvidence>): (r: seq<JsonValue>)
    ensures |r| == |cs| && forall i :: 0 <= i < |cs| ==> r[i] == CommandValue(cs[i])
  {
    seq(|cs|, i requires 0 <= i < |cs| => CommandValue(cs[i]))
  }

  function AttemptValues(a: Attempt): seq<JsonValue> {
    [NumberOf(VERIFICATION_SCHEMA_VERSION), String(a.planId), NumberOf(a.number), Bool(a.passed),
     String(a.candidateDir), String(a.bundleHash), Array(FileValueList(a.files)), Array(CommandValueList(a.commands)),
     String(a.failure)]
  }

  /** The attempt's manifest; it does not mention the manifest's own path and hash. */
  function AttemptText(a: Attempt): string {
    Print(Object(Labelled(ATTEMPT_FIELDS, AttemptValues(a))))
  }

  function RepairFileValue(env: Env, f: CandidateFile): JsonValue {
    Object(Labelled(REPAIR_FILE_FIELDS,
      [String(Normalize(f.path)), String(env.hash(f.content)), NumberOf(ByteLength(f.content))]))
  }

  function RepairFileList(env: Env, files: seq<CandidateFile>): (r: seq<JsonValue>)
    ensures |r| == |files| && forall i :: 0 <= i < |files| ==> r[i] == RepairFileValue(env, files[i])
  {
    seq(|files|, i requires 0 <= i < |files| => RepairFileValue(env, files[i]))
  }

  function RepairValues(env: Env, r: Repair): seq<JsonValue> {
    [NumberOf(VERIFICATION_SCHEMA_VERSION), String(r.planId), NumberOf(r.afterAttempt), String(r.sourceHash),
     String(r.repairedHash), String(r.model), Array(RepairFileList(env, r.files))]
  }

  function RepairText(env: Env, r: Repair): string {
    Print(Object(Labelled(REPAIR_FIELDS, RepairValues(env, r))))
  }

  function FinalValues(a: Attempt, repairs: nat, history: string): seq<JsonValue> {
    [NumberOf(VERIFICATION_SCHEMA_VERSION), String(a.planId), Bool(true), NumberOf(a.number), NumberOf(repairs),
     String(a.bundleHash), String(history), String(a.candidateDir), String(a.manifestPath), String(a.manifestHash)]
  }

  function FinalText(a: Attempt, repairs: nat, history: string): string {
    Print(Object(Labelled(FINAL_FIELDS, FinalValues(a, repairs, history))))
  }

  // ---- reading ----

  /** `exact_value_object`: an object with exactly these names. */
  predicate Exact(v: JsonValue, names: seq<string>) {
    && v.Object?
    && (set i | 0 <= i < |v.fields| :: v.fields[i].name) == (set i | 0 <= i < |names| :: names[i])
  }

  function JsonBool(root: JsonValue, key: string): Option<bool> {
    var v :- Get(root, key);
    if v.Bool? then Some(v.flag) else None
  }

  function JsonArray(root: JsonValue, key: string): Option<seq<JsonValue>> {
    var v :- Get(root, key);
    if v.Array? then Some(v.items) else None
  }

  function Signed(negative: bool, n: nat): int {
    var m: int := n;
    if negative then -m else m
  }

  /** `str::parse::<i64>` on a JSON number, narrowed to i32. */
  function JsonI32(root: JsonValue, key: string): Option<I32> {
    var v :- Get(root, key);
    if !v.Number? then None
    else
      var negative := v.digits != "" && v.digits[0] == '-';
      var digits := if negative then v.digits[1..] else v.digits;
      if !Digits(digits) then None
      else
        var n := Signed(negative, DigitsValue(digits));
        if -0x8000_0000 <= n < 0x8000_0000 then Some(n) else None
  }

  function ReadFile(v: JsonValue): Option<FileEvidence> {
    if !Exact(v, FILE_FIELDS) then None
    else
      var path :- JsonString(v, "path");
      var hash :- JsonString(v, "hash");
      var len :- JsonU64(v, "len");
      var controllerOwned :- JsonBool(v, "controller_owned");
      Some(FileEvidence(path, hash, len, controllerOwned))
  }

  function ReadFiles(vs: seq<JsonValue>): Option<seq<FileEvidence>> {
    if vs == [] then Some([])
    else
      var front :- ReadFiles(vs[..|vs| - 1]);
      var last :- ReadFile(vs[|vs| - 1]);
      Some(front + [last])
  }

  function ReadCommand(v: JsonValue): Option<CommandEvidence> {
    if !Exact(v, COMMAND_FIELDS) then None
    else
      var name :- JsonString(v, "name");
      var program :- JsonString(v, "program");
      var args :- JsonStringArray(v, "args");
      var exitCode :- JsonI32(v, "exit_code");
      var timedOut :- JsonBool(v, "timed_out");
      var stdoutPath :- JsonString(v, "stdout_path");
      var stdoutHash :- JsonString(v, "stdout_hash");
      var stdoutLen :- JsonU64(v, "stdout_len");
      var stderrPath :- JsonString(v, "stderr_path");
      var stderrHash :- JsonString(v, "stderr_hash");
      var stderrLen :- JsonU64(v, "stderr_len");
      Some(CommandEvidence(name, program, args, exitCode, timedOut,
                           stdoutPath, stdoutHash, stdoutLen, stderrPath, stderrHash, stderrLen))
  }

  function ReadCommands(vs: seq<JsonValue>): Option<seq<CommandEvidence>> {
    if vs == [] then Some([])
    else
      var front :- ReadCommands(vs[..|vs| - 1]);
      var last :- ReadCommand(vs[|vs| - 1]);
      Some(front + [last])
  }

  function ReadAttempt(v: JsonValue, path: string, hash: string): Option<Attempt> {
    if !Exact(v, ATTEMPT_FIELDS) then None
    else
      var schema :- JsonU64(v, "schema_version");
      if schema != VERIFICATION_SCHEMA_VERSION then None
      else
        var planId :- JsonString(v, "plan_id");
        var number :- JsonU32(v, "attempt");
        var passed :- JsonBool(v, "passed");
        var candidateDir :- JsonString(v, "candidate_dir");
        var bundleHash :- JsonString(v, "bundle_hash");
        var fileValues :- JsonArray(v, "files");
        var files :- ReadFiles(fileValues);
        var commandValues :- JsonArray(v, "commands");
        var commands :- ReadCommands(commandValues);
        var failure :- JsonString(v, "failure");
        Some(Attempt(planId, number, passed, candidateDir, bundleHash, files, commands, failure, path, hash))
  }

  /** `parse_attempt`, with the manifest's own path and hash filled in. */
  function ParseAttempt(env: Env, text: string, path: string): Option<Attempt> {
    match ResultOf(text)
    case Rejected(_) => None
    case Parsed(v) => ReadAttempt(v, path, env.hash(text))
  }

  // ---- checking an attempt ----

  predicate FileMatches(env: Env, disk: Disk, dir: string, f: FileEvidence) {
    var path := dir + "/" + f.path;
    && ValidRelativePath(f.path) && path in disk
    && f.len == ByteLength(disk[path]) && ValidTag(f.hash) && env.hash(disk[path]) == f.hash
    && ValidFile(CandidateFile(f.path, disk[path]))
  }

  /** The files of one owner, in evidence order, with the texts on disk. */
  function Rebuild(disk: Disk, dir: string, fs: seq<FileEvidence>, controller: bool): seq<CandidateFile> {
    if fs == [] then []
    else
      var last := fs[|fs| - 1];
      var path := dir + "/" + last.path;
      Rebuild(disk, dir, fs[..|fs| - 1], controller)
      + (if last.controllerOwned == controller && path in disk then [CandidateFile(last.path, disk[path])] else [])
  }

  /** The controller's files the checker expects beside a candidate. */
  function ExpectedController(env: Env, profile: Profile, files: seq<CandidateFile>): Option<seq<CandidateFile>> {
    if HasCargoToml(files) then Some([])
    else if profile == JsonProfile then
      var controller := [CandidateFile(MANIFEST_NAME, ControllerManifest("")),
                         CandidateFile(LIBRARY_NAME, Harness(env, files))];
      if ValidFile(controller[0]) && ValidFile(controller[1]) then Some(controller) else None
    else if !HasStandardTarget(files) && |RustFiles(files)| != 1 then None
    else
      var extra := if HasStandardTarget(files) then "" else BinTarget(RustFiles(files)[0].path);
      var manifest := CandidateFile(MANIFEST_NAME, ControllerManifest(extra));
      if ValidFile(manifest) then Some([manifest]) else None
  }

  const GATE_NAMES: seq<string> := ["cargo-check", "cargo-test", "cargo-clippy"]
  const GATE_ARGS: seq<seq<string>> := [
    ["check", "--all-targets", "--offline"],
    ["test", "--all-targets", "--offline"],
    ["clippy", "--all-targets", "--offline", "--", "-D", "warnings"]]

  predicate ValidProgram(program: string) {
    AsciiLower(FileName(program)) == "cargo" || AsciiLower(FileName(program)) == "cargo.exe"
  }

  predicate LogMatches(env: Env, disk: Disk, dir: string, path: string, hash: string, len: nat) {
    dir + "/" <= path && path in disk && ValidTag(hash) && len == ByteLength(disk[path]) && env.hash(disk[path]) == hash
  }

  predicate CommandMatches(env: Env, disk: Disk, dir: string, c: CommandEvidence, k: nat) {
    && k < |GATE_NAMES| && c.name == GATE_NAMES[k] && c.args == GATE_ARGS[k] && ValidProgram(c.program)
    && LogMatches(env, disk, dir, c.stdoutPath, c.stdoutHash, c.stdoutLen)
    && LogMatches(env, disk, dir, c.stderrPath, c.stderrHash, c.stderrLen)
  }

  /** A pass is three passing gates; a failure is a first failing gate after passing ones. */
  predicate GatesClose(a: Attempt) {
    && 1 <= |a.commands| <= |GATE_NAMES|
    && (forall k :: 0 <= k < |a.commands| - 1 ==> a.commands[k].Passed())
    && if a.passed then |a.commands| == |GATE_NAMES| && a.commands[|a.commands| - 1].Passed() && a.failure == ""
       else a.failure != "" && !a.commands[|a.commands| - 1].Passed()
  }

  predicate PathsMatch(disk: Disk, a: Attempt) {
    && Exists(disk, a.candidateDir)
    && FileName(a.manifestPath) == "attempt.json"
    && Parent(a.candidateDir) == Parent(a.manifestPath) && FileName(a.candidateDir) == "candidate"
    && FileName(Parent(a.manifestPath)) == AttemptName(a.number)
  }

  predicate BundleMatches(env: Env, disk: Disk, a: Attempt) {
    && (forall i :: 0 <= i < |a.files| ==> FileMatches(env, disk, a.candidateDir, a.files[i]))
    && var candidate := Rebuild(disk, a.candidateDir, a.files, false);
       && ValidFiles(candidate) && ProfileOf(candidate) != Unsupported
       && ExpectedController(env, ProfileOf(candidate), candidate) == Some(Rebuild(disk, a.candidateDir, a.files, true))
       && BundleHash(env, candidate) == a.bundleHash
       && (a.passed ==> JsonSound(candidate))
  }

  /** The store's `verify_attempt`. */
  predicate AttemptHolds(env: Env, disk: Disk, a: Attempt) {
    && ValidPlanId(a.planId) && 1 <= a.number <= MAX_VERIFICATION_ATTEMPTS
    && ValidTag(a.bundleHash) && ValidTag(a.manifestHash)
    && a.manifestPath in disk && env.hash(disk[a.manifestPath]) == a.manifestHash
    && PathsMatch(disk, a)
    && BundleMatches(env, disk, a)
    && GatesClose(a)
    && forall k :: 0 <= k < |a.commands| ==> CommandMatches(env, disk, Parent(a.manifestPath), a.commands[k], k)
  }

  function LoadAttempt(env: Env, disk: Disk, plan: string, n: nat): Loaded<Attempt> {
    var path := AttemptPath(env, plan, n);
    if !Exists(disk, path) then Missing
    else if path !in disk then Corrupt
    else match ParseAttempt(env, disk[path], path)
      case None => Corrupt
      case Some(a) => if AttemptHolds(env, disk, a) then Present(a) else Corrupt
  }

  // ---- checking a repair ----

  predicate RepairFieldsValid(env: Env, r: Repair) {
    && ValidPlanId(r.planId) && ValidModel(r.model) && ValidFiles(r.files)
    && 1 <= r.afterAttempt < MAX_VERIFICATION_ATTEMPTS
    && ValidTag(r.sourceHash) && ValidTag(r.repairedHash) && r.sourceHash != r.repairedHash
    && BundleHash(env, r.files) == r.repairedHash
  }

  function ReadRepairFile(env: Env, disk: Disk, dir: string, v: JsonValue): Option<CandidateFile> {
    if !Exact(v, REPAIR_FILE_FIELDS) then None
    else
      var path :- JsonString(v, "path");
      var hash :- JsonString(v, "hash");
      var len :- JsonU64(v, "len");
      var full := dir + "/" + path;
      if !ValidRelativePath(path) || full !in disk || !ValidTag(hash) || ByteLength(disk[full]) != len
         || env.hash(disk[full]) != hash || !ValidFile(CandidateFile(path, disk[full])) then None
      else Some(CandidateFile(path, disk[full]))
  }

  function ReadRepairFiles(env: Env, disk: Disk, dir: string, vs: seq<JsonValue>): Option<seq<CandidateFile>> {
    if vs == [] then Some([])
    else
      var front :- ReadRepairFiles(env, disk, dir, vs[..|vs| - 1]);
      var last :- ReadRepairFile(env, disk, dir, vs[|vs| - 1]);
      Some(front + [last])
  }

  function ReadRepair(env: Env, disk: Disk, v: JsonValue, path: string, hash: string): Option<Repair> {
    if !Exact(v, REPAIR_FIELDS) then None
    else
      var schema :- JsonU64(v, "schema_version");
      if schema != VERIFICATION_SCHEMA_VERSION || !Exists(disk, Parent(path) + "/files") then None
      else
        var fileValues :- JsonArray(v, "files");
        var files :- ReadRepairFiles(env, disk, Parent(path) + "/files", fileValues);
        var planId :- JsonString(v, "plan_id");
        var afterAttempt :- JsonU32(v, "after_attempt");
        var sourceHash :- JsonString(v, "source_bundle_hash");
        var repairedHash :- JsonString(v, "repaired_bundle_hash");
        var model :- JsonString(v, "model");
        var r := Repair(planId, afterAttempt, sourceHash, repairedHash, model, files, path, hash);
        if RepairFieldsValid(env, r) then Some(r) else None
  }

  /** `parse_repair` of the file at `path`. */
  function ParseRepair(env: Env, disk: Disk, path: string): Option<Repair> {
    if path !in disk || FileName(path) != "repair.json" then None
    else match ResultOf(disk[path])
      case Rejected(_) => None
      case Parsed(v) => ReadRepair(env, disk, v, path, env.hash(disk[path]))
  }

  /** `verify_repair`: the repair is what its manifest on disk reads as. */
  predicate RepairHolds(env: Env, disk: Disk, r: Repair) {
    && RepairFieldsValid(env, r) && ValidTag(r.manifestHash)
    && ParseRepair(env, disk, r.manifestPath) == Some(r)
  }

  function LoadRepair(env: Env, disk: Disk, plan: string, n: nat): Loaded<Repair> {
    var path := RepairPath(env, plan, n);
    if !ValidPlanId(plan) || n == 0 then Corrupt
    else if !Exists(disk, path) then Missing
    else match ParseRepair(env, disk, path)
      case None => Corrupt
      case Some(r) => if RepairHolds(env, disk, r) then Present(r) else Corrupt
  }

  // ---- the chain ----

  /** Attempt `i`, and the repair after it unless it is the last. */
  datatype Link = Link(attempt: Attempt, repair: Option<Repair>)

  function AttemptLine(k: nat, a: Attempt): string {
    "attempt:" + Decimal(k) + ":" + a.bundleHash + ":" + a.manifestHash + "\n"
  }

  function RepairLine(k: nat, r: Repair): string {
    "repair:" + Decimal(k) + ":" + r.sourceHash + ":" + r.repairedHash + ":" + r.manifestHash + "\n"
  }

  function LinkText(k: nat, l: Link): string {
    AttemptLine(k, l.attempt) + if l.repair.Some? then RepairLine(k, l.repair.value) else ""
  }

  function LinksText(links: seq<Link>): string {
    if links == [] then "" else LinksText(links[..|links| - 1]) + LinkText(|links|, links[|links| - 1])
  }

  /** The text whose hash closes a chain. */
  function History(plan: string, links: seq<Link>): string {
    "schema:" + Decimal(VERIFICATION_SCHEMA_VERSION) + "\nplan:" + plan + "\n" + LinksText(links)
  }

  /** What attempt `i` of a chain of `n` must be on disk. */
  predicate AttemptLinks(env: Env, disk: Disk, plan: string, n: nat, i: nat, a: Attempt) {
    && LoadAttempt(env, disk, plan, i) == Present(a)
    && a.planId == plan && a.number == i && (a.passed <==> i == n)
  }

  /** What the repair after attempt `i` must be. */
  predicate RepairLinks(env: Env, disk: Disk, plan: string, i: nat, a: Attempt, r: Repair) {
    && LoadRepair(env, disk, plan, i) == Present(r)
    && r.sourceHash == a.bundleHash && r.afterAttempt == i && r.planId == plan
  }

  /** The first `k` links of a chain of `n` attempts. */
  ghost predicate Linked(env: Env, disk: Disk, plan: string, n: nat, links: seq<Link>) {
    && |links| <= n
    && (forall i :: 0 <= i < |links| ==> AttemptLinks(env, disk, plan, n, i + 1, links[i].attempt))
    && (forall i :: 0 <= i < |links| ==> (links[i].repair.Some? <==> i + 1 < n))
    && (forall i :: 0 <= i < |links| && i + 1 < n ==>
          RepairLinks(env, disk, plan, i + 1, links[i].attempt, links[i].repair.value))
    && (forall i :: 0 < i < |links| ==> links[i - 1].repair.value.repairedHash == links[i].attempt.bundleHash)
  }

  /** A whole chain: `n` links, nothing after them. */
  ghost predicate Closed(env: Env, disk: Disk, plan: string, n: nat, links: seq<Link>) {
    && ValidPlanId(plan) && 1 <= n <= MAX_VERIFICATION_ATTEMPTS && |links| == n
    && Linked(env, disk, plan, n, links)
    && LoadRepair(env, disk, plan, n) == Missing
    && (n < MAX_VERIFICATION_ATTEMPTS ==> LoadAttempt(env, disk, plan, n + 1) == Missing)
  }

  /** One turn of `load_chain`'s loop: link `i` behind a repair that expects its bundle. */
  function LinkAt(env: Env, disk: Disk, plan: string, n: nat, i: nat, prior: Option<Repair>): Option<Link> {
    var loaded := LoadAttempt(env, disk, plan, i);
    if !loaded.Present? then None
    else
      var a := loaded.value;
      if a.planId != plan || a.number != i || (a.passed != (i == n)) then None
      else if prior.Some? && prior.value.repairedHash != a.bundleHash then None
      else if i == n then Some(Link(a, None))
      else
        var repair := LoadRepair(env, disk, plan, i);
        if !repair.Present? || !RepairLinks(env, disk, plan, i, a, repair.value) then None
        else Some(Link(a, Some(repair.value)))
  }

  function LastRepair(links: seq<Link>): Option<Repair> {
    if links == [] then None else links[|links| - 1].repair
  }

  /** The links a loop collects that computes each from its number and the repair before it. */
  function Collect(step: (nat, Option<Repair>) -> Option<Link>, k: nat): (r: Option<seq<Link>>)
    ensures r.Some? ==> |r.value| == k
  {
    if k == 0 then Some([])
    else
      var front :- Collect(step, k - 1);
      var link :- step(k, LastRepair(front));
      Some(front + [link])
  }

  function Step(env: Env, disk: Disk, plan: string, n: nat): (nat, Option<Repair>) -> Option<Link> {
    (i: nat, prior: Option<Repair>) => LinkAt(env, disk, plan, n, i, prior)
  }

  function LinksUpTo(env: Env, disk: Disk, plan: string, n: nat, k: nat): (r: Option<seq<Link>>) {
    Collect(Step(env, disk, plan, n), k)
  }

  function ChainOf(env: Env, disk: Disk, plan: string, n: nat): Option<seq<Link>> {
    if !ValidPlanId(plan) || n == 0 || n > MAX_VERIFICATION_ATTEMPTS then None
    else
      var links :- LinksUpTo(env, disk, plan, n, n);
      if LoadRepair(env, disk, plan, n) != Missing
         || (n < MAX_VERIFICATION_ATTEMPTS && LoadAttempt(env, disk, plan, n + 1) != Missing) then None
      else Some(links)
  }

  lemma {:induction false} CollectStops(step: (nat, Option<Repair>) -> Option<Link>, j: nat, k: nat)
    requires j <= k && Collect(step, j) == None
    ensures Collect(step, k) == None
    decreases k
  {
    if j < k { CollectStops(step, j, k - 1); }
  }

  /** `load_chain` */
  method LoadChain(env: Env, disk: Disk, plan: string, n: nat) returns (r: Option<seq<Link>>)
    ensures r == ChainOf(env, disk, plan, n)
  {
    if !ValidPlanId(plan) || n == 0 || n > MAX_VERIFICATION_ATTEMPTS { return None; }
    var links := LoadLinks(env, disk, plan, n);
    if links == None || LoadRepair(env, disk, plan, n) != Missing { return None; }
    if n < MAX_VERIFICATION_ATTEMPTS && LoadAttempt(env, disk, plan, n + 1) != Missing { return None; }
    r := links;
  }

  method LoadLinks(env: Env, disk: Disk, plan: string, n: nat) returns (r: Option<seq<Link>>)
    ensures r == LinksUpTo(env, disk, plan, n, n)
  {
    hide LinkAt;
    ghost var step := Step(env, disk, plan, n);
    var links: seq<Link> := [];
    var priorRepair: Option<Repair> := None;
    for ordinal := 1 to n + 1
      invariant Collect(step, ordinal - 1) == Some(links)
      invariant priorRepair == LastRepair(links)
    {
      var link := LoadLink(env, disk, plan, n, ordinal, priorRepair);
      assert step(ordinal, priorRepair) == link;
      if link == None {
        CollectStops(step, ordinal, n);
        return None;
      }
      links := links + [link.value];
      priorRepair := link.value.repair;
    }
    r := Some(links);
  }

  method LoadLink(env: Env, disk: Disk, plan: string, n: nat, ordinal: nat, priorRepair: Option<Repair>)
    returns (r: Option<Link>)
    requires ordinal <= n
    ensures r == LinkAt(env, disk, plan, n, ordinal, priorRepair)
  {
    var loaded := LoadAttempt(env, disk, plan, ordinal);
    if !loaded.Present? { return None; }
    var attempt := loaded.value;
    if attempt.planId != plan || attempt.number != ordinal { return None; }
    if ordinal < n && attempt.passed { return None; }
    if ordinal == n && !attempt.passed { return None; }
    if priorRepair.Some? && priorRepair.value.repairedHash != attempt.bundleHash { return None; }
    if ordinal == n { return Some(Link(attempt, None)); }
    var loadedRepair := LoadRepair(env, disk, plan, ordinal);
    if !loadedRepair.Present? { return None; }
    var repair := loadedRepair.value;
    if repair.sourceHash != attempt.bundleHash || repair.afterAttempt != ordinal || repair.planId != plan {
      return None;
    }
    r := Some(Link(attempt, Some(repair)));
  }

  // ---- verify_candidate_evidence ----

  /** What the final manifest claims. */
  datatype Final = Final(attempts: U32, repairs: U32, historyHash: string, candidateDir: string,
                         attemptManifest: string, attemptManifestHash: string)

  /** The final manifest's fields, checked against the claim it is presented for. */
  function ReadFinal(v: JsonValue, plan: string, bundleHash: string): Option<Final> {
    if !Exact(v, FINAL_FIELDS) then None
    else
      var schema :- JsonU64(v, "schema_version");
      var planId :- JsonString(v, "plan_id");
      var claimedBundle :- JsonString(v, "bundle_hash");
      if schema != VERIFICATION_SCHEMA_VERSION || planId != plan || Get(v, "passed") != Some(Bool(true))
         || claimedBundle != bundleHash then None
      else
        var attempts :- JsonU32(v, "attempts");
        if attempts == 0 || attempts > MAX_VERIFICATION_ATTEMPTS then None
        else
          var repairs :- JsonU32(v, "repairs");
          if repairs != attempts - 1 then None
          else
            var historyHash :- JsonString(v, "history_hash");
            var attemptManifest :- JsonString(v, "attempt_manifest");
            var attemptManifestHash :- JsonString(v, "attempt_manifest_hash");
            var candidateDir :- JsonString(v, "candidate_dir");
            if !ValidTag(historyHash) then None
            else Some(Final(attempts, repairs, historyHash, candidateDir, attemptManifest, attemptManifestHash))
  }

  /** The final manifest agrees with the chain it closes. */
  predicate FinalMatches(env: Env, disk: Disk, plan: string, bundleHash: string, f: Final, links: seq<Link>)
    requires links != []
  {
    var a := links[|links| - 1].attempt;
    && |links| - 1 == f.repairs && env.hash(History(plan, links)) == f.historyHash
    && f.attemptManifest in disk && ValidTag(f.attemptManifestHash)
    && env.hash(disk[f.attemptManifest]) == f.attemptManifestHash
    && f.attemptManifest == a.manifestPath && f.attemptManifestHash == a.manifestHash
    && Exists(disk, f.candidateDir) && f.candidateDir == a.candidateDir
    && a.passed && a.number == f.attempts && a.planId == plan && a.bundleHash == bundleHash
  }

  /** The manifest lies where the final manifest of this plan lies. */
  predicate FinalPlace(path: string, plan: string) {
    && FileName(path) == "verification-final.json"
    && FileName(Parent(path)) == "candidate-verification"
    && FileName(Parent(Parent(path))) == plan
  }

  /** `verify_candidate_evidence`; the root is what is above the plan's directory. */
  function VerifyEvidence(env: Env, disk: Disk, path: string, manifestHash: string, plan: string, bundleHash: string)
    : Option<Verified>
  {
    if !ValidPlanId(plan) || !ValidTag(manifestHash) || !ValidTag(bundleHash) then None
    else if path !in disk || env.hash(disk[path]) != manifestHash || !FinalPlace(path, plan) then None
    else match ResultOf(disk[path])
      case Rejected(_) => None
      case Parsed(v) =>
        var f :- ReadFinal(v, plan, bundleHash);
        var above := env.(root := Parent(Parent(Parent(path))));
        var links :- ChainOf(above, disk, plan, f.attempts);
        if links != [] && FinalMatches(above, disk, plan, bundleHash, f, links)
        then Some(Verified(plan, f.attempts, f.repairs, bundleHash, f.candidateDir)) else None
  }
}
