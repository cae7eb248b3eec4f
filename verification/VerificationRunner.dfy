/** The runner: it writes a candidate to disk, runs the strict gates on it, records the attempt, stores
    repairs and finalises the chain. */
module VerificationRunner {
  import opened Text
  import opened VerificationModel
  import opened VerificationStore

  datatype VerificationError = InvalidCandidate | UnsupportedCandidate | CommandFailed | BadEvidence | Io

  datatype Result<+T> = Returned(value: T) | Errored(error: VerificationError)

  /** What running one gate comes to. */
  datatype GateOutcome = NotStarted | Ran(exitCode: I32, timedOut: bool, stdout: string, stderr: string)

  predicate Writable(disk: Disk, path: string, text: string) {
    if Exists(disk, path) then path in disk && disk[path] == text else !Obstructed(disk, path)
  }

  /** Nothing written before is changed. */
  ghost predicate Extends(before: Disk, after: Disk) {
    forall p :: p in before ==> p in after && after[p] == before[p]
  }

  predicate Under(dir: string, p: string) {
    dir + "/" <= p
  }

  /** Whatever differs lies under the directory. */
  ghost predicate OnlyUnder(before: Disk, after: Disk, dir: string) {
    forall p :: (p in before || p in after) && !Under(dir, p) ==> p in before && p in after && before[p] == after[p]
  }

  function EvidenceFor(env: Env, f: CandidateFile, controller: bool): FileEvidence {
    FileEvidence(Normalize(f.path), env.hash(f.content), ByteLength(f.content), controller)
  }

  function EvidenceList(env: Env, files: seq<CandidateFile>, controller: bool): (r: seq<FileEvidence>)
    ensures |r| == |files| && forall i :: 0 <= i < |files| ==> r[i] == EvidenceFor(env, files[i], controller)
  {
    seq(|files|, i requires 0 <= i < |files| => EvidenceFor(env, files[i], controller))
  }

  ghost predicate OnDisk(disk: Disk, dir: string, files: seq<CandidateFile>) {
    forall i :: 0 <= i < |files| ==>
      var path := dir + "/" + Normalize(files[i].path);
      path in disk && disk[path] == files[i].content
  }

  /** The files the runner adds beside a candidate. */
  function ControllerFor(env: Env, files: seq<CandidateFile>): Option<seq<CandidateFile>> {
    if HasCargoToml(files) then Some([])
    else if ProfileOf(files) == JsonProfile then
      Some([CandidateFile(MANIFEST_NAME, ControllerManifest("")), CandidateFile(LIBRARY_NAME, Harness(env, files))])
    else if HasStandardTarget(files) then Some([CandidateFile(MANIFEST_NAME, ControllerManifest(""))])
    else if |RustFiles(files)| == 1 then
      Some([CandidateFile(MANIFEST_NAME, ControllerManifest(BinTarget(RustFiles(files)[0].path)))])
    else None
  }

  predicate IsForbidden(f: CandidateFile) {
    Normalize(f.path) == "build.rs" || ".cargo/" <= Normalize(f.path)
  }

  function LogPath(dir: string, k: nat, stream: string): string
    requires k < |GATE_NAMES|
  {
    dir + "/0" + Decimal(k + 1) + "-" + GATE_NAMES[k] + "." + stream + ".log"
  }

  /** The evidence a gate leaves. */
  function CommandFor(env: Env, dir: string, k: nat, g: GateOutcome): CommandEvidence
    requires k < |GATE_NAMES| && g.Ran?
  {
    CommandEvidence(GATE_NAMES[k], env.cargo, GATE_ARGS[k], g.exitCode, g.timedOut,
                    LogPath(dir, k, "stdout"), env.hash(g.stdout), ByteLength(g.stdout),
                    LogPath(dir, k, "stderr"), env.hash(g.stderr), ByteLength(g.stderr))
  }

  /** The command's logs are on disk and within bounds. */
  ghost predicate Logged(env: Env, disk: Disk, dir: string, k: nat, c: CommandEvidence) {
    && k < |GATE_NAMES|
    && exists g: GateOutcome :: LoggedAs(env, disk, dir, k, c, g)
  }

  ghost predicate LoggedAs(env: Env, disk: Disk, dir: string, k: nat, c: CommandEvidence, g: GateOutcome)
    requires k < |GATE_NAMES|
  {
    && g.Ran? && c == CommandFor(env, dir, k, g)
    && c.stdoutPath in disk && disk[c.stdoutPath] == g.stdout && ByteLength(g.stdout) <= MAX_LOG_BYTES
    && c.stderrPath in disk && disk[c.stderrPath] == g.stderr && ByteLength(g.stderr) <= MAX_LOG_BYTES
  }

  /** What a freshly built attempt is, on disk and in memory. */
  ghost predicate Built(env: Env, disk: Disk, plan: string, n: nat, files: seq<CandidateFile>, a: Attempt) {
    var dir := AttemptDir(env, plan, n);
    && ControllerFor(env, files).Some?
    && a.planId == plan && a.number == n && a.candidateDir == CandidateDir(env, plan, n)
    && a.bundleHash == BundleHash(env, files)
    && a.files == EvidenceList(env, files, false) + EvidenceList(env, ControllerFor(env, files).value, true)
    && OnDisk(disk, a.candidateDir, files) && OnDisk(disk, a.candidateDir, ControllerFor(env, files).value)
    && GatesClose(a)
    && AllLogged(env, disk, dir, a.commands)
    && a.manifestPath == AttemptPath(env, plan, n)
    && a.manifestPath in disk && disk[a.manifestPath] == AttemptText(a) && a.manifestHash == env.hash(AttemptText(a))
  }

  /** Gates run in order until one fails or all have run. */
  predicate StopsAtFailure(commands: seq<CommandEvidence>) {
    && 1 <= |commands| <= |GATE_NAMES|
    && (forall k :: 0 <= k < |commands| - 1 ==> commands[k].Passed())
    && (|commands| < |GATE_NAMES| ==> !commands[|commands| - 1].Passed())
  }

  /** What `verify_attempt` returns: the stored attempt for this bundle, untouched, or a freshly built one. */
  ghost predicate Made(env: Env, before: Disk, after: Disk, plan: string, n: nat, files: seq<CandidateFile>,
                       a: Attempt) {
    && ValidPlanId(plan) && ValidFiles(files) && 1 <= n <= MAX_VERIFICATION_ATTEMPTS
    && OnlyAttempt(before, after, AttemptDir(env, plan, n))
    && (|| (LoadAttempt(env, before, plan, n) == Present(a) && a.bundleHash == BundleHash(env, files)
            && after == before)
        || (&& LoadAttempt(env, before, plan, n) == Missing && ProfileOf(files) != Unsupported
            && Built(env, after, plan, n, files, a) && !Obstructed(after, AttemptPath(env, plan, n))))
  }

  /** `failure_summary`: the failed gate by name, then what the environment makes of its logs. */
  function FailureText(env: Env, c: CommandEvidence, stdout: string, stderr: string): string {
    c.name + " failed " + env.summary(c.name, stdout, stderr)
  }

  lemma LogNotCandidate(dir: string, p: string)
    requires dir + "/candidate/" <= p || p == dir + "/attempt.json"
    ensures !IsLog(dir, p)
  {
    var n := |dir| + 1;
    assert p[n] == (if p == dir + "/attempt.json" then dir + "/attempt.json" else dir + "/candidate/")[n];
    forall k, stream | 0 <= k < |GATE_NAMES| && stream in {"stdout", "stderr"} ensures p != LogPath(dir, k, stream) {
      assert LogPath(dir, k, stream)[n] == '0';
    }
  }

  lemma OnDiskKept(before: Disk, after: Disk, dir: string, files: seq<CandidateFile>)
    requires OnDisk(before, dir + "/candidate", files) && KeepsAllButLogs(before, after, dir)
    ensures OnDisk(after, dir + "/candidate", files)
  {
    forall i | 0 <= i < |files|
      ensures var path := dir + "/candidate" + "/" + Normalize(files[i].path);
              path in after && after[path] == files[i].content
    {
      var path := dir + "/candidate" + "/" + Normalize(files[i].path);
      assert dir + "/candidate" + "/" == dir + "/candidate/";
      assert dir + "/candidate/" <= path;
      LogNotCandidate(dir, path);
    }
  }

  lemma OnDiskExtends(before: Disk, after: Disk, dir: string, files: seq<CandidateFile>)
    requires OnDisk(before, dir, files) && Extends(before, after)
    ensures OnDisk(after, dir, files)
  {
  }

  lemma OnDiskMore(before: Disk, after: Disk, dir: string, files: seq<CandidateFile>, f: CandidateFile)
    requires OnDisk(before, dir, files) && Extends(before, after) && OnDisk(after, dir, [f])
    ensures OnDisk(after, dir, files + [f])
  {
    assert [f][0] == f;
  }

  lemma LoggedExtends(env: Env, before: Disk, after: Disk, dir: string, k: nat, c: CommandEvidence)
    requires Logged(env, before, dir, k, c) && Extends(before, after)
    ensures Logged(env, after, dir, k, c)
  {
    var g: GateOutcome :| LoggedAs(env, before, dir, k, c, g);
    assert LoggedAs(env, after, dir, k, c, g);
  }

  /** What the three phases of an attempt leave: files written, gates run, manifest stored. */
  lemma BuiltHere(env: Env, written: Disk, logged: Disk, disk: Disk, plan: string, n: nat, files: seq<CandidateFile>,
                  a: Attempt)
    requires ControllerFor(env, files).Some?
    requires a.planId == plan && a.number == n && a.candidateDir == CandidateDir(env, plan, n)
    requires a.bundleHash == BundleHash(env, files) && GatesClose(a)
    requires a.files == EvidenceList(env, files, false) + EvidenceList(env, ControllerFor(env, files).value, true)
    requires OnDisk(written, a.candidateDir, files) && OnDisk(written, a.candidateDir, ControllerFor(env, files).value)
    requires KeepsAllButLogs(written, logged, AttemptDir(env, plan, n)) && Extends(logged, disk)
    requires AllLogged(env, logged, AttemptDir(env, plan, n), a.commands)
    requires a.manifestPath == AttemptPath(env, plan, n)
    requires a.manifestPath in disk && disk[a.manifestPath] == AttemptText(a)
             && a.manifestHash == env.hash(AttemptText(a))
    ensures Built(env, disk, plan, n, files, a) == true
  {
    var dir := AttemptDir(env, plan, n);
    OnDiskKept(written, logged, dir, files);
    OnDiskKept(written, logged, dir, ControllerFor(env, files).value);
    OnDiskExtends(logged, disk, a.candidateDir, files);
    OnDiskExtends(logged, disk, a.candidateDir, ControllerFor(env, files).value);
    forall k | 0 <= k < |a.commands| ensures Logged(env, disk, dir, k, a.commands[k]) {
      LoggedExtends(env, logged, disk, dir, k, a.commands[k]);
    }
  }

  predicate IsLog(dir: string, p: string) {
    exists k, stream :: 0 <= k < |GATE_NAMES| && stream in {"stdout", "stderr"} && p == LogPath(dir, k, stream)
  }

  /** Running gates changes nothing but their own logs. */
  ghost predicate KeepsAllButLogs(before: Disk, after: Disk, dir: string) {
    forall p :: (p in before || p in after) && !IsLog(dir, p) ==> p in before && p in after && before[p] == after[p]
  }

  /** A path an attempt writes: a candidate file, a log or the manifest. */
  predicate OfAttempt(dir: string, p: string) {
    Under(dir + "/candidate", p) || IsLog(dir, p) || p == dir + "/attempt.json"
  }

  /** An attempt changes nothing but its own paths. */
  ghost predicate OnlyAttempt(before: Disk, after: Disk, dir: string) {
    forall p :: (p in before || p in after) && !OfAttempt(dir, p) ==> p in before && p in after && before[p] == after[p]
  }

  lemma OnlyUnderTrans(a: Disk, b: Disk, c: Disk, dir: string)
    requires OnlyUnder(a, b, dir) && OnlyUnder(b, c, dir)
    ensures OnlyUnder(a, c, dir)
  {
  }

  /** No path but this one differs. */
  ghost predicate SameBut(before: Disk, after: Disk, path: string) {
    forall p :: (p in before || p in after) && p != path ==> p in before && p in after && before[p] == after[p]
  }

  lemma StartsDiffer(dir: string, p: string)
    requires Under(dir + "/candidate", p) || IsLog(dir, p)
    ensures |p| > |dir| + 1 && p[|dir| + 1] != 'a'
  {
    var n := |dir| + 1;
    if Under(dir + "/candidate", p) {
      assert p[n] == (dir + "/candidate/")[n];
    } else {
      var k, stream :| 0 <= k < |GATE_NAMES| && stream in {"stdout", "stderr"} && p == LogPath(dir, k, stream);
      assert LogPath(dir, k, stream)[n] == '0';
    }
  }

  lemma ManifestStart(dir: string, p: string)
    requires p == dir + "/attempt.json" || dir + "/attempt.json" + "/" <= p
    ensures |p| > |dir| + 1 && p[|dir| + 1] == 'a'
  {
    assert p[|dir| + 1] == (dir + "/attempt.json")[|dir| + 1];
  }

  /** Candidate files and logs are never the manifest nor below it. */
  lemma ManifestAbsent(before: Disk, after: Disk, dir: string)
    requires !Exists(before, dir + "/attempt.json")
    requires forall p :: p in after && p !in before ==> Under(dir + "/candidate", p) || IsLog(dir, p)
    ensures !Exists(after, dir + "/attempt.json")
  {
    forall p | p in after && p !in before ensures !(p == dir + "/attempt.json" || dir + "/attempt.json" + "/" <= p) {
      StartsDiffer(dir, p);
      if p == dir + "/attempt.json" || dir + "/attempt.json" + "/" <= p { ManifestStart(dir, p); }
    }
  }

  lemma NotItsOwnObstacle(disk: Disk, path: string, text: string)
    requires !Obstructed(disk, path)
    ensures !Obstructed(disk[path := text], path)
  {
    forall q | q in disk[path := text] && q + "/" <= path ensures q in disk { }
  }

  lemma OnlyAttemptTrans(a: Disk, b: Disk, c: Disk, dir: string)
    requires OnlyAttempt(a, b, dir) && OnlyAttempt(b, c, dir)
    ensures OnlyAttempt(a, c, dir)
  {
  }

  lemma CandidateOnly(a: Disk, b: Disk, dir: string)
    requires OnlyUnder(a, b, dir + "/candidate")
    ensures OnlyAttempt(a, b, dir)
  {
  }

  lemma GatedOnly(a: Disk, b: Disk, c: Disk, dir: string)
    requires KeepsAllButLogs(a, b, dir) && SameBut(b, c, dir + "/attempt.json")
    ensures OnlyAttempt(a, c, dir)
  {
  }

  /** The manifest does not mention its own place and hash. */
  lemma SameText(a: Attempt, path: string, hash: string)
    ensures AttemptText(a.(manifestPath := path, manifestHash := hash)) == AttemptText(a)
  {
  }

  lemma RecordedCloses(a: Attempt, commands: seq<CommandEvidence>)
    requires a.commands == commands && StopsAtFailure(commands)
    requires a.passed == (|commands| == |GATE_NAMES| && commands[|commands| - 1].Passed())
    requires a.failure == "" <==> a.passed
    ensures GatesClose(a) == true
  {
  }

  lemma FailureNamed(env: Env, c: CommandEvidence, stdout: string, stderr: string)
    ensures FailureText(env, c, stdout, stderr) != ""
  {
  }

  /** The logs of the commands so far are on disk. */
  ghost predicate AllLogged(env: Env, disk: Disk, dir: string, commands: seq<CommandEvidence>) {
    forall k :: 0 <= k < |commands| ==> Logged(env, disk, dir, k, commands[k])
  }

  /** Only the logs of gate `k` may have changed. */
  ghost predicate KeepsAllButGate(before: Disk, after: Disk, dir: string, k: nat)
    requires k < |GATE_NAMES|
  {
    forall p :: (p in before || p in after) && p != LogPath(dir, k, "stdout") && p != LogPath(dir, k, "stderr") ==>
      p in before && p in after && before[p] == after[p]
  }

  lemma LogsKept(env: Env, before: Disk, after: Disk, dir: string, j: nat, k: nat, c: CommandEvidence)
    requires j < k < |GATE_NAMES| && Logged(env, before, dir, j, c) && KeepsAllButGate(before, after, dir, k)
    ensures Logged(env, after, dir, j, c)
  {
    var g: GateOutcome :| LoggedAs(env, before, dir, j, c, g);
    LogPathsDiffer(dir, j, k, "stdout", "stdout");
    LogPathsDiffer(dir, j, k, "stdout", "stderr");
    LogPathsDiffer(dir, j, k, "stderr", "stdout");
    LogPathsDiffer(dir, j, k, "stderr", "stderr");
    assert LoggedAs(env, after, dir, j, c, g);
  }

  /** Gate `k` after gates `0..k`: their logs stay, nothing else changes. */
  lemma GateStep(env: Env, start: Disk, before: Disk, after: Disk, dir: string, commands: seq<CommandEvidence>,
                 c: CommandEvidence)
    requires |commands| < |GATE_NAMES| && AllLogged(env, before, dir, commands)
    requires KeepsAllButLogs(start, before, dir) && KeepsAllButGate(before, after, dir, |commands|)
    ensures KeepsAllButLogs(start, after, dir)
    ensures AllLogged(env, after, dir, commands)
    ensures Logged(env, after, dir, |commands|, c) ==> AllLogged(env, after, dir, commands + [c])
  {
    forall j | 0 <= j < |commands| ensures Logged(env, after, dir, j, commands[j]) {
      LogsKept(env, before, after, dir, j, |commands|, commands[j]);
    }
    forall p | (p in start || p in after) && !IsLog(dir, p) ensures p in start && p in after && after[p] == start[p] {
      assert p != LogPath(dir, |commands|, "stdout") && p != LogPath(dir, |commands|, "stderr");
    }
  }

  lemma LogPathsDiffer(dir: string, j: nat, k: nat, s: string, t: string)
    requires j < |GATE_NAMES| && k < |GATE_NAMES| && j != k
    ensures LogPath(dir, j, s) != LogPath(dir, k, t)
  {
    var n := |dir| + 2;
    assert LogPath(dir, j, s)[n] == Decimal(j + 1)[0] && LogPath(dir, k, t)[n] == Decimal(k + 1)[0];
  }

  /** Files written in order until one cannot be. */
  function WriteAll(disk: Disk, dir: string, files: seq<CandidateFile>): (r: (Disk, bool)) {
    if files == [] then (disk, true)
    else
      var last := files[|files| - 1];
      var before := WriteAll(disk, dir, files[..|files| - 1]);
      var path := dir + "/" + Normalize(last.path);
      if !before.1 || !Writable(before.0, path, last.content) then (before.0, false)
      else (before.0[path := last.content], true)
  }

  lemma {:induction false} WriteAllStops(disk: Disk, dir: string, files: seq<CandidateFile>, k: nat)
    requires k <= |files| && !WriteAll(disk, dir, files[..k]).1
    ensures WriteAll(disk, dir, files) == WriteAll(disk, dir, files[..k])
  {
    if k < |files| {
      assert files[..|files| - 1][..k] == files[..k];
      WriteAllStops(disk, dir, files[..|files| - 1], k);
    } else {
      assert files[..k] == files;
    }
  }

  /** The repair of a failed attempt by these files. */
  function RepairFor(env: Env, failed: Attempt, model: string, files: seq<CandidateFile>): Repair {
    var path := RepairPath(env, failed.planId, failed.number);
    var r := Repair(failed.planId, failed.number, failed.bundleHash, BundleHash(env, files), model, files, path, "");
    r.(manifestHash := env.hash(RepairText(env, r)))
  }

  /** What `store_repair` asks before it writes anything. */
  predicate Repairable(env: Env, disk: Disk, failed: Attempt, model: string, files: seq<CandidateFile>) {
    && !failed.passed && ValidFiles(files) && AttemptHolds(env, disk, failed) && ValidModel(model)
    && failed.manifestPath == AttemptPath(env, failed.planId, failed.number)
  }

  function RepairFiles(env: Env, failed: Attempt): string {
    RepairDir(env, failed.planId, failed.number) + "/files"
  }

  /** The disk after storing a repair. */
  function RepairDisk(env: Env, disk: Disk, failed: Attempt, model: string, files: seq<CandidateFile>): Disk {
    if !Repairable(env, disk, failed, model, files) then disk
    else
      var written := WriteAll(disk, RepairFiles(env, failed), files);
      var repair := RepairFor(env, failed, model, files);
      if written.1 && Writable(written.0, repair.manifestPath, RepairText(env, repair))
      then written.0[repair.manifestPath := RepairText(env, repair)] else written.0
  }

  /** A repair is stored when every write succeeds and the checker accepts what was written. */
  predicate RepairStored(env: Env, disk: Disk, failed: Attempt, model: string, files: seq<CandidateFile>) {
    && Repairable(env, disk, failed, model, files)
    && var written := WriteAll(disk, RepairFiles(env, failed), files);
       var repair := RepairFor(env, failed, model, files);
       && written.1 && Writable(written.0, repair.manifestPath, RepairText(env, repair))
       && RepairHolds(env, RepairDisk(env, disk, failed, model, files), repair)
  }

  /** What `finalize` writes for an attempt at the end of these links. */
  function FinalManifest(env: Env, a: Attempt, links: seq<Link>): string
    requires links != []
  {
    FinalText(a, |links| - 1, env.hash(History(a.planId, links)))
  }

  /** `finalize` succeeds: a passing attempt that closes its chain, and no other final manifest is there. */
  predicate Finalizable(env: Env, disk: Disk, a: Attempt) {
    && a.passed && AttemptHolds(env, disk, a)
    && var links := ChainOf(env, disk, a.planId, a.number);
       && links.Some? && links.value != [] && links.value[|links.value| - 1].attempt == a
       && Writable(disk, FinalPath(env, a.planId), FinalManifest(env, a, links.value))
  }

  function FinalSuccess(env: Env, a: Attempt, links: seq<Link>): Success
    requires links != []
  {
    Success(a.planId, a.number, (|links| - 1) % 0x1_0000_0000, a.bundleHash, a.candidateDir,
            FinalPath(env, a.planId), env.hash(FinalManifest(env, a, links)))
  }

  // ---- what every step comes to, failures included ----

  function ErrorOf<T>(r: Result<T>): Option<VerificationError> {
    match r
    case Returned(_) => None
    case Errored(e) => Some(e)
  }

  /** The candidate's own files, written in order until one is forbidden or cannot be written. */
  function FilesWritten(disk: Disk, dir: string, files: seq<CandidateFile>): (r: (Disk, Option<VerificationError>)) {
    if files == [] then (disk, None)
    else
      var last := files[|files| - 1];
      var before := FilesWritten(disk, dir, files[..|files| - 1]);
      if before.1.Some? then before
      else if IsForbidden(last) then (before.0, Some(UnsupportedCandidate))
      else if !Writable(before.0, dir + "/" + Normalize(last.path), last.content) then (before.0, Some(BadEvidence))
      else (before.0[dir + "/" + Normalize(last.path) := last.content], None)
  }

  lemma {:induction false} FilesWrittenStops(disk: Disk, dir: string, files: seq<CandidateFile>, k: nat)
    requires k <= |files| && FilesWritten(disk, dir, files[..k]).1.Some?
    ensures FilesWritten(disk, dir, files) == FilesWritten(disk, dir, files[..k])
  {
    if k < |files| {
      assert files[..|files| - 1][..k] == files[..k];
      FilesWrittenStops(disk, dir, files[..|files| - 1], k);
    } else {
      assert files[..k] == files;
    }
  }

  lemma FilesWrittenMore(disk: Disk, dir: string, files: seq<CandidateFile>, f: CandidateFile)
    ensures var before := FilesWritten(disk, dir, files);
            FilesWritten(disk, dir, files + [f])
            == if before.1.Some? then before
               else if IsForbidden(f) then (before.0, Some(UnsupportedCandidate))
               else if !Writable(before.0, dir + "/" + Normalize(f.path), f.content) then (before.0, Some(BadEvidence))
               else (before.0[dir + "/" + Normalize(f.path) := f.content], None)
  {
    assert (files + [f])[..|files|] == files;
  }

  /** Before the first file nothing is written and nothing is to be shown. */
  lemma NoneWritten(env: Env, disk: Disk, dir: string)
    ensures FilesWritten(disk, dir, []) == (disk, None)
    ensures OnDisk(disk, dir, []) && EvidenceList(env, [], false) == []
    ensures Extends(disk, disk) && OnlyUnder(disk, disk, dir)
  {
  }

  lemma ExtendsTrans(a: Disk, b: Disk, c: Disk)
    requires Extends(a, b) && Extends(b, c)
    ensures Extends(a, c)
  {
  }

  /** The controller's files, if it has any for this candidate. */
  function ControllerWritten(env: Env, disk: Disk, dir: string, files: seq<CandidateFile>)
    : (r: (Disk, Option<VerificationError>))
  {
    match ControllerFor(env, files)
    case None => (disk, Some(UnsupportedCandidate))
    case Some(controller) =>
      var written := WriteAll(disk, dir, controller);
      (written.0, if written.1 then None else Some(BadEvidence))
  }

  /** Everything an attempt has on disk before its gates, and the check of its manifest for dependencies. */
  function Materialized(env: Env, disk: Disk, dir: string, files: seq<CandidateFile>)
    : (r: (Disk, Option<VerificationError>))
  {
    var own := FilesWritten(disk, dir, files);
    if own.1.Some? then own
    else if ProfileOf(files) == Unsupported then (own.0, Some(UnsupportedCandidate))
    else
      var all := ControllerWritten(env, own.0, dir, files);
      if all.1.Some? then all
      else if dir + "/" + MANIFEST_NAME !in all.0 then (all.0, Some(Io))
      else if !env.dependencyFree(all.0[dir + "/" + MANIFEST_NAME]) then (all.0, Some(UnsupportedCandidate))
      else all
  }

  lemma WriteAllOne(disk: Disk, dir: string, f: CandidateFile)
    ensures WriteAll(disk, dir, [f])
         == if Writable(disk, dir + "/" + Normalize(f.path), f.content)
            then (disk[dir + "/" + Normalize(f.path) := f.content], true) else (disk, false)
  {
    assert [f][..0] == [];
    assert WriteAll(disk, dir, [f][..0]) == (disk, true);
  }

  lemma WriteAllTwo(disk: Disk, dir: string, f: CandidateFile, g: CandidateFile)
    ensures var first := WriteAll(disk, dir, [f]);
            WriteAll(disk, dir, [f, g])
            == if !first.1 || !Writable(first.0, dir + "/" + Normalize(g.path), g.content) then (first.0, false)
               else (first.0[dir + "/" + Normalize(g.path) := g.content], true)
  {
    assert [f, g][..1] == [f];
  }

  /** One gate: what it leaves on disk, and its evidence if it ran and its logs are within bounds. */
  function GateEnds(env: Env, disk: Disk, dir: string, k: nat, g: GateOutcome): (r: (Disk, Result<CommandEvidence>))
    requires k < |GATE_NAMES|
  {
    var stdoutPath, stderrPath := LogPath(dir, k, "stdout"), LogPath(dir, k, "stderr");
    if IsDir(disk, stdoutPath) || IsDir(disk, stderrPath) then (disk, Errored(Io))
    else if g == NotStarted then (disk[stdoutPath := ""][stderrPath := ""], Errored(CommandFailed))
    else
      (disk[stdoutPath := g.stdout][stderrPath := g.stderr],
       if ByteLength(g.stdout) > MAX_LOG_BYTES || ByteLength(g.stderr) > MAX_LOG_BYTES then Errored(CommandFailed)
       else Returned(CommandFor(env, dir, k, g)))
  }

  /** The gates from `k` on, behind the commands that passed: up to the first that errs or does not pass. */
  function GatesEnd(env: Env, gate: nat -> GateOutcome, disk: Disk, runs: nat, dir: string, k: nat,
                    commands: seq<CommandEvidence>): (r: (Disk, nat, Result<seq<CommandEvidence>>))
    requires k <= |GATE_NAMES|
    decreases |GATE_NAMES| - k
  {
    if k == |GATE_NAMES| then (disk, runs, Returned(commands))
    else
      var (after, command) := GateEnds(env, disk, dir, k, gate(runs));
      match command
      case Errored(e) => (after, runs + 1, Errored(e))
      case Returned(c) =>
        if !c.Passed() then (after, runs + 1, Returned(commands + [c]))
        else GatesEnd(env, gate, after, runs + 1, dir, k + 1, commands + [c])
  }

  /** The attempt these commands make of a candidate, without its place and hash. */
  function AttemptOf(env: Env, disk: Disk, plan: string, n: nat, files: seq<CandidateFile>,
                     commands: seq<CommandEvidence>): Option<Attempt>
  {
    if ControllerFor(env, files) == None || commands == [] || n >= 0x1_0000_0000 then None
    else
      var last := commands[|commands| - 1];
      if last.stdoutPath !in disk || last.stderrPath !in disk then None
      else
        var passed := |commands| == |GATE_NAMES| && last.Passed();
        Some(Attempt(plan, n, passed, CandidateDir(env, plan, n), BundleHash(env, files),
                     EvidenceList(env, files, false) + EvidenceList(env, ControllerFor(env, files).value, true),
                     commands,
                     if passed then "" else FailureText(env, last, disk[last.stdoutPath], disk[last.stderrPath]),
                     "", ""))
  }

  /** A gate that erred ends the gates, one that does not pass is the last, and one that passes is followed. */
  lemma GatesEndStep(env: Env, gate: nat -> GateOutcome, disk: Disk, runs: nat, dir: string, k: nat,
                     commands: seq<CommandEvidence>)
    requires k < |GATE_NAMES|
    ensures var (after, command) := GateEnds(env, disk, dir, k, gate(runs));
            GatesEnd(env, gate, disk, runs, dir, k, commands)
            == match command
               case Errored(e) => (after, runs + 1, Errored(e))
               case Returned(c) =>
                 if !c.Passed() then (after, runs + 1, Returned(commands + [c]))
                 else GatesEnd(env, gate, after, runs + 1, dir, k + 1, commands + [c])
  {
  }

  lemma GatesDone(env: Env, gate: nat -> GateOutcome, disk: Disk, runs: nat, dir: string,
                  commands: seq<CommandEvidence>)
    ensures GatesEnd(env, gate, disk, runs, dir, |GATE_NAMES|, commands) == (disk, runs, Returned(commands))
  {
  }

  lemma AttemptMade(env: Env, disk: Disk, plan: string, n: nat, files: seq<CandidateFile>,
                    commands: seq<CommandEvidence>)
    requires ControllerFor(env, files).Some? && n < 0x1_0000_0000
    requires AllLogged(env, disk, AttemptDir(env, plan, n), commands) && commands != []
    ensures AttemptOf(env, disk, plan, n, files, commands).Some?
    ensures commands[|commands| - 1].stdoutPath in disk && commands[|commands| - 1].stderrPath in disk
  {
    hide ControllerFor, BundleHash, EvidenceList, FailureText, AttemptDir, CandidateDir;
    assert Logged(env, disk, AttemptDir(env, plan, n), |commands| - 1, commands[|commands| - 1]);
  }

  /** The manifest is written, or the attempt is lost. */
  function RecordEnds(env: Env, disk: Disk, path: string, a: Attempt): (r: (Disk, Result<Attempt>)) {
    if !Writable(disk, path, AttemptText(a)) then (disk, Errored(BadEvidence))
    else (disk[path := AttemptText(a)], Returned(a.(manifestPath := path, manifestHash := env.hash(AttemptText(a)))))
  }

  lemma RecordedOnly(env: Env, logged: Disk, disk: Disk, path: string, a: Attempt, r: Result<Attempt>)
    requires (disk, r) == RecordEnds(env, logged, path, a) && !Exists(logged, path)
    ensures Extends(logged, disk) && SameBut(logged, disk, path)
  {
    hide AttemptText;
  }

  /** A recorded attempt is built. */
  lemma RecordedBuilt(env: Env, written: Disk, logged: Disk, disk: Disk, plan: string, n: nat,
                      files: seq<CandidateFile>, commands: seq<CommandEvidence>, a: Attempt)
    requires ControllerFor(env, files).Some? && n < 0x1_0000_0000
    requires OnDisk(written, CandidateDir(env, plan, n), files)
    requires OnDisk(written, CandidateDir(env, plan, n), ControllerFor(env, files).value)
    requires KeepsAllButLogs(written, logged, AttemptDir(env, plan, n))
    requires AllLogged(env, logged, AttemptDir(env, plan, n), commands) && StopsAtFailure(commands) == true
    requires !Exists(logged, AttemptPath(env, plan, n)) && AttemptOf(env, logged, plan, n, files, commands).Some?
    requires (disk, Returned(a)) == RecordEnds(env, logged, AttemptPath(env, plan, n),
                                               AttemptOf(env, logged, plan, n, files, commands).value)
    ensures Built(env, disk, plan, n, files, a) == true && !Obstructed(disk, AttemptPath(env, plan, n))
  {
    hide *;
    var path := AttemptPath(env, plan, n);
    var made := AttemptOf(env, logged, plan, n, files, commands).value;
    MadeFields(env, logged, plan, n, files, commands);
    RecordedFields(env, logged, disk, path, made, a);
    RecordedCloses(a, commands);
    BuiltHere(env, written, logged, disk, plan, n, files, a);
  }

  lemma MadeFields(env: Env, disk: Disk, plan: string, n: nat, files: seq<CandidateFile>,
                   commands: seq<CommandEvidence>)
    requires AttemptOf(env, disk, plan, n, files, commands).Some?
    ensures var a := AttemptOf(env, disk, plan, n, files, commands).value;
            && ControllerFor(env, files).Some? && commands != []
            && a.planId == plan && a.number == n && a.candidateDir == CandidateDir(env, plan, n)
            && a.bundleHash == BundleHash(env, files) && a.commands == commands
            && a.files == EvidenceList(env, files, false) + EvidenceList(env, ControllerFor(env, files).value, true)
            && a.passed == (|commands| == |GATE_NAMES| && commands[|commands| - 1].Passed())
            && (a.failure == "" <==> a.passed)
  {
    hide *;
    MadeShape(env, disk, plan, n, files, commands);
    var last := commands[|commands| - 1];
    FailureNamed(env, last, disk[last.stdoutPath], disk[last.stderrPath]);
  }

  lemma MadeShape(env: Env, disk: Disk, plan: string, n: nat, files: seq<CandidateFile>,
                  commands: seq<CommandEvidence>)
    requires AttemptOf(env, disk, plan, n, files, commands).Some?
    ensures ControllerFor(env, files).Some? && commands != []
    ensures var a := AttemptOf(env, disk, plan, n, files, commands).value;
            var last := commands[|commands| - 1];
            && last.stdoutPath in disk && last.stderrPath in disk
            && a.planId == plan && a.number == n && a.candidateDir == CandidateDir(env, plan, n)
            && a.bundleHash == BundleHash(env, files) && a.commands == commands
            && a.files == EvidenceList(env, files, false) + EvidenceList(env, ControllerFor(env, files).value, true)
            && a.passed == (|commands| == |GATE_NAMES| && last.Passed())
            && a.failure == if a.passed then ""
                            else FailureText(env, last, disk[last.stdoutPath], disk[last.stderrPath])
  {
    hide ControllerFor, EvidenceList, BundleHash, FailureText, CandidateDir;
  }

  lemma RecordedFields(env: Env, logged: Disk, disk: Disk, path: string, made: Attempt, a: Attempt)
    requires (disk, Returned(a)) == RecordEnds(env, logged, path, made) && !Exists(logged, path)
    ensures a == made.(manifestPath := path, manifestHash := env.hash(AttemptText(a)))
    ensures Extends(logged, disk) && path in disk && disk[path] == AttemptText(a) && !Obstructed(disk, path)
  {
    hide AttemptText;
    SameText(made, path, a.manifestHash);
    NotItsOwnObstacle(logged, path, AttemptText(made));
  }

  /** The gates and the manifest of an attempt whose files are on disk. */
  function GatedEnds(env: Env, gate: nat -> GateOutcome, disk: Disk, runs: nat, plan: string, n: nat,
                     files: seq<CandidateFile>): (r: (Disk, nat, Result<Attempt>))
  {
    var (logged, after, commands) := GatesEnd(env, gate, disk, runs, AttemptDir(env, plan, n), 0, []);
    match commands
    case Errored(e) => (logged, after, Errored(e))
    case Returned(cs) =>
      match AttemptOf(env, logged, plan, n, files, cs)
      case None => (logged, after, Errored(Io))
      case Some(a) =>
        var (recorded, r) := RecordEnds(env, logged, AttemptPath(env, plan, n), a);
        (recorded, after, r)
  }

  /** An attempt that is not on disk yet, from its files to its manifest. */
  function BuildEnds(env: Env, gate: nat -> GateOutcome, disk: Disk, runs: nat, plan: string, n: nat,
                     files: seq<CandidateFile>): (r: (Disk, nat, Result<Attempt>))
  {
    var (written, problem) := Materialized(env, disk, CandidateDir(env, plan, n), files);
    match problem
    case Some(e) => (written, runs, Errored(e))
    case None => GatedEnds(env, gate, written, runs, plan, n, files)
  }

  /** An attempt: refused, found on disk, or built. */
  function AttemptEnds(env: Env, gate: nat -> GateOutcome, disk: Disk, runs: nat, plan: string, n: nat,
                       files: seq<CandidateFile>): (r: (Disk, nat, Result<Attempt>))
  {
    if !ValidPlanId(plan) || !ValidFiles(files) || n == 0 || n > MAX_VERIFICATION_ATTEMPTS then
      (disk, runs, Errored(InvalidCandidate))
    else
      match LoadAttempt(env, disk, plan, n)
      case Corrupt => (disk, runs, Errored(BadEvidence))
      case Present(a) =>
        (disk, runs, if a.bundleHash == BundleHash(env, files) then Returned(a) else Errored(BadEvidence))
      case Missing => BuildEnds(env, gate, disk, runs, plan, n, files)
  }

  class CandidateVerifier {
    const env: Env
    const gate: nat -> GateOutcome   // what the k-th gate run comes to
    var disk: Disk
    var gatesRun: nat

    constructor (env: Env, gate: nat -> GateOutcome, disk: Disk)
      ensures this.env == env && this.gate == gate && this.disk == disk && gatesRun == 0
    {
      this.env := env;
      this.gate := gate;
      this.disk := disk;
      gatesRun := 0;
    }

    /** `write_immutable` and `write_immutable_verified`: a path once written keeps its text. */
    method WriteImmutable(path: string, text: string) returns (ok: bool)
      modifies this`disk
      ensures ok == Writable(old(disk), path, text)
      ensures disk == if ok then old(disk)[path := text] else old(disk)
      ensures Extends(old(disk), disk)
    {
      if Exists(disk, path) { return path in disk && disk[path] == text; }
      if Obstructed(disk, path) { return false; }
      disk := disk[path := text];
      ok := true;
    }

    method WriteFile(dir: string, f: CandidateFile, controller: bool) returns (r: Result<FileEvidence>)
      modifies this`disk
      ensures Extends(old(disk), disk) && OnlyUnder(old(disk), disk, dir)
      ensures r.Returned? ==> OnDisk(disk, dir, [f]) && r.value == EvidenceFor(env, f, controller)
      ensures ErrorOf(r) == if Writable(old(disk), dir + "/" + Normalize(f.path), f.content) then None
                            else Some(BadEvidence)
      ensures disk == if r.Returned? then old(disk)[dir + "/" + Normalize(f.path) := f.content] else old(disk)
    {
      var path := dir + "/" + Normalize(f.path);
      var ok := WriteImmutable(path, f.content);
      if !ok { return Errored(BadEvidence); }
      assert dir + "/" <= path;
      r := Returned(EvidenceFor(env, f, controller));
    }

    method MaterializeCandidate(dir: string, files: seq<CandidateFile>) returns (r: Result<seq<FileEvidence>>)
      requires ValidFiles(files)
      modifies this`disk
      ensures Extends(old(disk), disk) && OnlyUnder(old(disk), disk, dir)
      ensures r.Returned? ==>
                && ProfileOf(files) != Unsupported && ControllerFor(env, files).Some?
                && OnDisk(disk, dir, files) && OnDisk(disk, dir, ControllerFor(env, files).value)
                && r.value == EvidenceList(env, files, false) + EvidenceList(env, ControllerFor(env, files).value, true)
      ensures (disk, ErrorOf(r)) == Materialized(env, old(disk), dir, files)
    {
      hide FilesWritten, ControllerWritten, ControllerFor, ProfileOf, IsForbidden;
      var evidence := WriteCandidate(dir, files);
      if evidence.Errored? { return Errored(evidence.error); }
      if ProfileOf(files) == Unsupported { return Errored(UnsupportedCandidate); }
      ghost var written := disk;
      var controller := EnsureManifest(dir, files);
      OnlyUnderTrans(old(disk), written, disk, dir);
      if controller.Errored? { return Errored(controller.error); }
      OnDiskExtends(written, disk, dir, files);
      var manifestPath := dir + "/" + MANIFEST_NAME;
      if manifestPath !in disk { return Errored(Io); }
      if !env.dependencyFree(disk[manifestPath]) { return Errored(UnsupportedCandidate); }
      r := Returned(evidence.value + controller.value);
    }

    /** The candidate's own files, one after another. */
    method WriteCandidate(dir: string, files: seq<CandidateFile>) returns (r: Result<seq<FileEvidence>>)
      modifies this`disk
      ensures Extends(old(disk), disk) && OnlyUnder(old(disk), disk, dir)
      ensures r.Returned? ==> OnDisk(disk, dir, files) && r.value == EvidenceList(env, files, false)
      ensures (disk, ErrorOf(r)) == FilesWritten(old(disk), dir, files)
    {
      hide Writable, IsForbidden, Normalize, FilesWritten, Extends, OnlyUnder, OnDisk;
      var evidence: seq<FileEvidence> := [];
      NoneWritten(env, disk, dir);
      for i := 0 to |files|
        invariant Extends(old(disk), disk) && OnlyUnder(old(disk), disk, dir)
        invariant OnDisk(disk, dir, files[..i]) && evidence == EvidenceList(env, files[..i], false)
        invariant (disk, None) == FilesWritten(old(disk), dir, files[..i])
      {
        FilesWrittenMore(old(disk), dir, files[..i], files[i]);
        assert files[..i + 1] == files[..i] + [files[i]];
        if IsForbidden(files[i]) {
          FilesWrittenStops(old(disk), dir, files, i + 1);
          return Errored(UnsupportedCandidate);
        }
        ghost var before := disk;
        var written := WriteFile(dir, files[i], false);
        OnlyUnderTrans(old(disk), before, disk, dir);
        ExtendsTrans(old(disk), before, disk);
        if written.Errored? {
          FilesWrittenStops(old(disk), dir, files, i + 1);
          return Errored(written.error);
        }
        OnDiskMore(before, disk, dir, files[..i], files[i]);
        evidence := evidence + [written.value];
      }
      assert files[..|files|] == files;
      r := Returned(evidence);
    }

    /** The controller's own files, written after the candidate's. */
    method EnsureManifest(dir: string, files: seq<CandidateFile>) returns (r: Result<seq<FileEvidence>>)
      modifies this`disk
      ensures Extends(old(disk), disk) && OnlyUnder(old(disk), disk, dir)
      ensures r.Returned? ==>
                && ControllerFor(env, files).Some? && OnDisk(disk, dir, ControllerFor(env, files).value)
                && r.value == EvidenceList(env, ControllerFor(env, files).value, true)
      ensures (disk, ErrorOf(r)) == ControllerWritten(env, old(disk), dir, files)
    {
      hide ControllerManifest, Harness, HasCargoToml, HasStandardTarget, ProfileOf, BinTarget, RustFiles, Writable,
           WriteAll;
      if HasCargoToml(files) {
        NothingWritten(disk, dir);
        return Returned([]);
      }
      if ProfileOf(files) == JsonProfile {
        var manifest := CandidateFile(MANIFEST_NAME, ControllerManifest(""));
        var harness := CandidateFile(LIBRARY_NAME, Harness(env, files));
        WriteAllOne(disk, dir, manifest);
        WriteAllTwo(disk, dir, manifest, harness);
        var first := WriteFile(dir, manifest, true);
        if first.Errored? { return Errored(first.error); }
        assert [manifest][0] == manifest;
        var second := WriteFile(dir, harness, true);
        if second.Errored? { return Errored(second.error); }
        assert [harness][0] == harness;
        return Returned([first.value, second.value]);
      }
      var text;
      if HasStandardTarget(files) {
        text := ControllerManifest("");
      } else if |RustFiles(files)| == 1 {
        text := ControllerManifest(BinTarget(RustFiles(files)[0].path));
      } else {
        return Errored(UnsupportedCandidate);
      }
      WriteAllOne(disk, dir, CandidateFile(MANIFEST_NAME, text));
      var written := WriteFile(dir, CandidateFile(MANIFEST_NAME, text), true);
      if written.Errored? { return Errored(written.error); }
      r := Returned([written.value]);
    }

    lemma NothingWritten(disk: Disk, dir: string)
      ensures WriteAll(disk, dir, []) == (disk, true)
    {
    }

    /** One gate: its logs are created anew, the gate runs, its logs must be within bounds. */
    method RunCommand(dir: string, k: nat) returns (r: Result<CommandEvidence>)
      requires k < |GATE_NAMES|
      modifies this`disk, this`gatesRun
      ensures gatesRun == old(gatesRun) + 1
      ensures KeepsAllButGate(old(disk), disk, dir, k)
      ensures r.Returned? ==> Logged(env, disk, dir, k, r.value)
      ensures (disk, r) == GateEnds(env, old(disk), dir, k, gate(old(gatesRun)))
    {
      var stdoutPath, stderrPath := LogPath(dir, k, "stdout"), LogPath(dir, k, "stderr");
      LogsDiffer(dir, k);
      var g := gate(gatesRun);
      gatesRun := gatesRun + 1;
      if IsDir(disk, stdoutPath) || IsDir(disk, stderrPath) { return Errored(Io); }
      if g == NotStarted {
        disk := disk[stdoutPath := ""][stderrPath := ""];
        return Errored(CommandFailed);
      }
      disk := disk[stdoutPath := g.stdout][stderrPath := g.stderr];
      if ByteLength(g.stdout) > MAX_LOG_BYTES || ByteLength(g.stderr) > MAX_LOG_BYTES { return Errored(CommandFailed); }
      r := Returned(CommandFor(env, dir, k, g));
      assert LoggedAs(env, disk, dir, k, r.value, g);
    }

    lemma LogsDiffer(dir: string, k: nat)
      requires k < |GATE_NAMES|
      ensures LogPath(dir, k, "stdout") != LogPath(dir, k, "stderr")
    {
      var head := dir + "/0" + Decimal(k + 1) + "-" + GATE_NAMES[k] + ".";
      assert LogPath(dir, k, "stdout") == head + "stdout.log" && LogPath(dir, k, "stderr") == head + "stderr.log";
      assert (head + "stdout.log")[|head| + 3] == 'o' && (head + "stderr.log")[|head| + 3] == 'e';
    }
 
    /** The gates in order, stopping at the first that does not pass. */
    method RunGates(dir: string) returns (r: Result<seq<CommandEvidence>>)
      modifies this`disk, this`gatesRun
      ensures gatesRun >= old(gatesRun)
      ensures KeepsAllButLogs(old(disk), disk, dir)
      ensures r.Returned? ==>
                AllLogged(env, disk, dir, r.value) && StopsAtFailure(r.value) == true
      ensures (disk, gatesRun, r) == GatesEnd(env, gate, old(disk), old(gatesRun), dir, 0, [])
    {
      hide Logged, KeepsAllButGate, GateEnds, GatesEnd;
      var commands: seq<CommandEvidence> := [];
      for k := 0 to |GATE_NAMES|
        invariant |commands| == k && gatesRun >= old(gatesRun)
        invariant KeepsAllButLogs(old(disk), disk, dir)
        invariant AllLogged(env, disk, dir, commands)
        invariant forall j :: 0 <= j < k ==> commands[j].Passed()
        invariant GatesEnd(env, gate, disk, gatesRun, dir, k, commands)
               == GatesEnd(env, gate, old(disk), old(gatesRun), dir, 0, [])
      {
        ghost var before := disk;
        GatesEndStep(env, gate, disk, gatesRun, dir, k, commands);
        var command := RunCommand(dir, k);
        if command.Errored? {
          GateStep(env, old(disk), before, disk, dir, commands, CommandFor(env, dir, k, Ran(0, false, "", "")));
          return Errored(command.error);
        }
        GateStep(env, old(disk), before, disk, dir, commands, command.value);
        commands := commands + [command.value];
        if !command.value.Passed() { return Returned(commands); }
      }
      GatesDone(env, gate, disk, gatesRun, dir, commands);
      r := Returned(commands);
    }

    /** An attempt that is not on disk yet. */
    method BuildAttempt(plan: string, n: nat, files: seq<CandidateFile>) returns (r: Result<Attempt>)
      requires ValidPlanId(plan) && ValidFiles(files) && 1 <= n <= MAX_VERIFICATION_ATTEMPTS
      requires !Exists(disk, AttemptPath(env, plan, n))
      modifies this`disk, this`gatesRun
      ensures gatesRun >= old(gatesRun)
      ensures OnlyAttempt(old(disk), disk, AttemptDir(env, plan, n))
      ensures r.Returned? ==>
                && ProfileOf(files) != Unsupported && Built(env, disk, plan, n, files, r.value) == true
                && !Obstructed(disk, AttemptPath(env, plan, n))
      ensures (disk, gatesRun, r) == BuildEnds(env, gate, old(disk), old(gatesRun), plan, n, files)
    {
      hide Materialized, GatedEnds, Built;
      var evidence := MaterializeCandidate(CandidateDir(env, plan, n), files);
      CandidateOnly(old(disk), disk, AttemptDir(env, plan, n));
      ManifestAbsent(old(disk), disk, AttemptDir(env, plan, n));
      if evidence.Errored? { return Errored(evidence.error); }
      ghost var written := disk;
      r := GateAttempt(plan, n, files, evidence.value);
      OnlyAttemptTrans(old(disk), written, disk, AttemptDir(env, plan, n));
    }

    /** The gates and the manifest of an attempt whose files are on disk. */
    method GateAttempt(plan: string, n: nat, files: seq<CandidateFile>, evidence: seq<FileEvidence>)
      returns (r: Result<Attempt>)
      requires ControllerFor(env, files).Some? && 1 <= n <= MAX_VERIFICATION_ATTEMPTS
      requires !Exists(disk, AttemptPath(env, plan, n))
      requires evidence == EvidenceList(env, files, false) + EvidenceList(env, ControllerFor(env, files).value, true)
      requires OnDisk(disk, CandidateDir(env, plan, n), files)
      requires OnDisk(disk, CandidateDir(env, plan, n), ControllerFor(env, files).value)
      modifies this`disk, this`gatesRun
      ensures gatesRun >= old(gatesRun)
      ensures OnlyAttempt(old(disk), disk, AttemptDir(env, plan, n))
      ensures r.Returned? ==>
                Built(env, disk, plan, n, files, r.value) == true && !Obstructed(disk, AttemptPath(env, plan, n))
      ensures (disk, gatesRun, r) == GatedEnds(env, gate, old(disk), old(gatesRun), plan, n, files)
    {
      hide AttemptText, ControllerFor, Output, GatesClose, AttemptDir, CandidateDir, GatesEnd, AttemptOf, RecordEnds,
           Built;
      ghost var written := disk;
      var commands := RunGates(AttemptDir(env, plan, n));
      if commands.Errored? { return Errored(commands.error); }
      ghost var logged := disk;
      ManifestAbsent(written, logged, AttemptDir(env, plan, n));
      r := RecordAttempt(plan, n, files, evidence, commands.value);
      RecordedOnly(env, logged, disk, AttemptPath(env, plan, n),
                   AttemptOf(env, logged, plan, n, files, commands.value).value, r);
      GatedOnly(written, logged, disk, AttemptDir(env, plan, n));
      if r.Returned? { RecordedBuilt(env, written, logged, disk, plan, n, files, commands.value, r.value); }
    }

    /** The manifest of an attempt whose files and logs are on disk. */
    method RecordAttempt(plan: string, n: nat, files: seq<CandidateFile>, evidence: seq<FileEvidence>,
                         commands: seq<CommandEvidence>) returns (r: Result<Attempt>)
      requires ControllerFor(env, files).Some? && n < 0x1_0000_0000
      requires evidence == EvidenceList(env, files, false) + EvidenceList(env, ControllerFor(env, files).value, true)
      requires AllLogged(env, disk, AttemptDir(env, plan, n), commands) && commands != []
      modifies this`disk
      ensures AttemptOf(env, old(disk), plan, n, files, commands).Some?
      ensures (disk, r) == RecordEnds(env, old(disk), AttemptPath(env, plan, n),
                                      AttemptOf(env, old(disk), plan, n, files, commands).value)
    {
      hide AttemptText, ControllerFor, EvidenceList, BundleHash, FailureText, AttemptDir, AllLogged, Writable;
      AttemptMade(env, disk, plan, n, files, commands);
      var last := commands[|commands| - 1];
      var passed := |commands| == |GATE_NAMES| && last.Passed();
      var failure := if passed then "" else FailureText(env, last, disk[last.stdoutPath], disk[last.stderrPath]);
      var path := AttemptPath(env, plan, n);
      var a := Attempt(plan, n, passed, CandidateDir(env, plan, n), BundleHash(env, files), evidence, commands, failure,
                       "", "");
      assert AttemptOf(env, disk, plan, n, files, commands) == Some(a);
      var stored := WriteImmutable(path, AttemptText(a));
      if !stored { return Errored(BadEvidence); }
      r := Returned(a.(manifestPath := path, manifestHash := env.hash(disk[path])));
    }

    /** `verify_attempt`: the stored attempt for this bundle, or a new one. */
    method VerifyAttempt(plan: string, n: nat, files: seq<CandidateFile>) returns (r: Result<Attempt>)
      modifies this`disk, this`gatesRun
      ensures gatesRun >= old(gatesRun)
      ensures OnlyAttempt(old(disk), disk, AttemptDir(env, plan, n))
      ensures r.Returned? ==> Made(env, old(disk), disk, plan, n, files, r.value) == true
      ensures LoadAttempt(env, old(disk), plan, n) != Missing ==> disk == old(disk) && gatesRun == old(gatesRun)
      ensures LoadAttempt(env, old(disk), plan, n).Present? && ValidPlanId(plan) && ValidFiles(files)
              && 1 <= n <= MAX_VERIFICATION_ATTEMPTS ==>
                var a := LoadAttempt(env, old(disk), plan, n).value;
                if a.bundleHash == BundleHash(env, files) then r == Returned(a) else r == Errored(BadEvidence)
      ensures (disk, gatesRun, r) == AttemptEnds(env, gate, old(disk), old(gatesRun), plan, n, files)
    {
      hide BuildEnds, ValidPlanId, ValidFiles, BundleHash;
      if !ValidPlanId(plan) { return Errored(InvalidCandidate); }
      var ok := ValidateFiles(files);
      if !ok || n == 0 || n > MAX_VERIFICATION_ATTEMPTS { return Errored(InvalidCandidate); }
      var existing := LoadAttempt(env, disk, plan, n);
      if existing.Corrupt? { return Errored(BadEvidence); }
      if existing.Present? {
        if existing.value.bundleHash != BundleHash(env, files) { return Errored(BadEvidence); }
        return Returned(existing.value);
      }
      r := BuildAttempt(plan, n, files);
    }

    /** `store_repair` */
    method StoreRepair(failed: Attempt, model: string, files: seq<CandidateFile>) returns (r: Result<Repair>)
      modifies this`disk
      ensures disk == RepairDisk(env, old(disk), failed, model, files)
      ensures r.Returned? == RepairStored(env, old(disk), failed, model, files)
      ensures r.Returned? ==> r.value == RepairFor(env, failed, model, files)
    {
      hide AttemptHolds, RepairHolds, RepairFor, WriteAll, ValidModel, ValidFiles, Writable, RepairText, BundleHash;
      RepairPlace(env, failed, model, files);
      if failed.passed { return Errored(BadEvidence); }
      var ok := ValidateFiles(files);
      if !ok { return Errored(InvalidCandidate); }
      if !AttemptHolds(env, disk, failed) || !ValidModel(model)
         || failed.manifestPath != AttemptPath(env, failed.planId, failed.number) {
        return Errored(BadEvidence);
      }
      var written := StoreFiles(RepairFiles(env, failed), files);
      if !written { return Errored(BadEvidence); }
      var repair := RepairFor(env, failed, model, files);
      var stored := WriteImmutable(repair.manifestPath, RepairText(env, repair));
      if !stored || !RepairHolds(env, disk, repair) { return Errored(BadEvidence); }
      r := Returned(repair);
    }

    lemma RepairPlace(env: Env, failed: Attempt, model: string, files: seq<CandidateFile>)
      ensures RepairFor(env, failed, model, files).manifestPath == RepairPath(env, failed.planId, failed.number)
    {
      hide RepairText, BundleHash;
    }

    method StoreFiles(dir: string, files: seq<CandidateFile>) returns (ok: bool)
      modifies this`disk
      ensures (disk, ok) == WriteAll(old(disk), dir, files)
    {
      for i := 0 to |files|
        invariant (disk, true) == WriteAll(old(disk), dir, files[..i])
      {
        assert files[..i + 1][..i] == files[..i];
        var written := WriteImmutable(dir + "/" + Normalize(files[i].path), files[i].content);
        if !written {
          WriteAllStops(old(disk), dir, files, i + 1);
          return false;
        }
      }
      assert files[..|files|] == files;
      ok := true;
    }

    /** `finalize` */
    method Finalize(a: Attempt) returns (r: Result<Success>)
      modifies this`disk
      ensures r == if Finalizable(env, old(disk), a)
                   then Returned(FinalSuccess(env, a, ChainOf(env, old(disk), a.planId, a.number).value))
                   else Errored(BadEvidence)
      ensures disk == if Finalizable(env, old(disk), a)
                      then old(disk)[FinalPath(env, a.planId)
                                     := FinalManifest(env, a, ChainOf(env, old(disk), a.planId, a.number).value)]
                      else old(disk)
    {
      hide AttemptHolds, ChainOf, FinalText, History, Writable;
      if !a.passed || !AttemptHolds(env, disk, a) { return Errored(BadEvidence); }
      var links := LoadChain(env, disk, a.planId, a.number);
      if links == None || links.value == [] || links.value[|links.value| - 1].attempt != a {
        return Errored(BadEvidence);
      }
      var stored := WriteImmutable(FinalPath(env, a.planId), FinalManifest(env, a, links.value));
      if !stored { return Errored(BadEvidence); }
      r := Returned(FinalSuccess(env, a, links.value));
    }
  }
}
