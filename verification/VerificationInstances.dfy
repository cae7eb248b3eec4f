/** Concrete evidence: a failed attempt on disk whose repair is refused and yet found, and one that was built by a
    program the checker does not take for cargo. */
module VerificationInstances {
  import opened Text
  import opened Utf8
  import opened VerificationModel
  import opened VerificationStore
  import opened VerificationRunner
  import opened VerificationAgreement
  import opened VerificationClosing

  const SAMPLE_PLAN := "p"
  const SAMPLE_MODEL := "m"
  const SAMPLE_PATH := "src\\main.rs"
  const BROKEN := "fn main() {\n"
  const FIXED := "fn main() {}\n"

  function SampleFiles(content: string): seq<CandidateFile> {
    [CandidateFile(SAMPLE_PATH, content)]
  }

  function SampleTag(digit: char): string {
    "sha256:" + seq(64, i => digit)
  }

  /** A hash that tells the two contents apart, and a program of any name. */
  function SampleEnv(cargo: string): Env {
    Env("/evidence", (s: string) => if s == BROKEN then SampleTag('0') else SampleTag('1'), cargo, (c: char) => [c],
        (text: string) => true, (name: string, stdout: string, stderr: string) => "")
  }

  lemma SampleGrounded(cargo: string)
    ensures Grounded(SampleEnv(cargo)) && IsClean(SampleEnv(cargo).root)
  {
    forall c: char ensures ByteLength([c]) <= 10 { ByteBounds([c]); }
    assert ValidTag(SampleTag('0')) && ValidTag(SampleTag('1'));
  }

  // ---- the bundle ----

  lemma SamplePath()
    ensures Normalize(SAMPLE_PATH) == "src/main.rs" && ValidRelativePath(SAMPLE_PATH) == true
  {
    assert Normalize(SAMPLE_PATH) == "src/main.rs";
    TwoPartsValid("src", "main.rs");
    assert "src" + ("/" + "main.rs") == "src/main.rs";
  }

  /** A valid Rust bundle with a standard target. */
  lemma SampleBundle(content: string)
    requires content != "" && |content| <= 20
    ensures var files := SampleFiles(content);
            && ValidFiles(files) && !HasCargoToml(files) && HasStandardTarget(files) && ProfileOf(files) == RustProfile
            && Output(files) == content
  {
    hide ValidRelativePath;
    var files := SampleFiles(content);
    SamplePath();
    ByteBounds(content);
    assert files[0].path == SAMPLE_PATH && files[0].content == content;
    assert IsStandardTarget(files[0]);
    assert AsciiLower(SAMPLE_PATH)[8..] == ".rs";
    assert files[..0] == [] && RustFiles(files) == RustFiles([]) + [files[0]];
    assert |PathKey(files[0])| == 11;
  }

  lemma SampleController(env: Env, content: string)
    requires content != "" && |content| <= 20
    ensures ControllerFor(env, SampleFiles(content)) == Some([CandidateFile(MANIFEST_NAME, ControllerManifest(""))])
    ensures JsonSound(SampleFiles(content))
  {
    hide ControllerManifest, Harness, HasCargoToml, HasStandardTarget, ProfileOf;
    SampleBundle(content);
  }

  // ---- a failed attempt ----

  const FAILED_GATE: GateOutcome := Ran(1, false, "", "")

  ghost function SampleEvidence(env: Env): seq<FileEvidence> {
    EvidenceList(env, SampleFiles(BROKEN), false)
    + EvidenceList(env, [CandidateFile(MANIFEST_NAME, ControllerManifest(""))], true)
  }

  ghost function SampleDraft(env: Env): Attempt {
    Attempt(SAMPLE_PLAN, 1, false, CandidateDir(env, SAMPLE_PLAN, 1), BundleHash(env, SampleFiles(BROKEN)),
            SampleEvidence(env),
            [CommandFor(env, AttemptDir(env, SAMPLE_PLAN, 1), 0, FAILED_GATE)], "cargo-check failed",
            AttemptPath(env, SAMPLE_PLAN, 1), "")
  }

  ghost function SampleAttempt(env: Env): Attempt {
    SampleDraft(env).(manifestHash := env.hash(AttemptText(SampleDraft(env))))
  }

  ghost function SampleDisk(env: Env): Disk {
    var dir := AttemptDir(env, SAMPLE_PLAN, 1);
    map[CandidateDir(env, SAMPLE_PLAN, 1) + "/src/main.rs" := BROKEN,
        CandidateDir(env, SAMPLE_PLAN, 1) + "/Cargo.toml" := ControllerManifest(""),
        LogPath(dir, 0, "stdout") := "",
        LogPath(dir, 0, "stderr") := "",
        AttemptPath(env, SAMPLE_PLAN, 1) := AttemptText(SampleAttempt(env))]
  }

  /** The five paths by what comes after their common directory. */
  lemma SampleKeys(env: Env, p: string)
    requires p in SampleDisk(env)
    ensures var n := |AttemptDir(env, SAMPLE_PLAN, 1)|;
            |p| > n + 1 && p[n + 1] in {'c', '0', 'a'}
  {
    hide AttemptText, AttemptDir, ControllerManifest;
    var dir := AttemptDir(env, SAMPLE_PLAN, 1);
    var n := |dir|;
    assert (dir + "/candidate" + "/src/main.rs")[n + 1] == 'c';
    assert (dir + "/candidate" + "/Cargo.toml")[n + 1] == 'c';
    assert LogPath(dir, 0, "stdout")[n + 1] == '0' && LogPath(dir, 0, "stderr")[n + 1] == '0';
    assert (dir + "/attempt.json")[n + 1] == 'a';
  }

  /** The path holds the text. */
  predicate Reads(disk: Disk, p: string, text: string) {
    p in disk && disk[p] == text
  }

  predicate SampleReads(disk: Disk, dir: string, manifest: string) {
    && Reads(disk, dir + "/candidate" + "/src/main.rs", BROKEN)
    && Reads(disk, dir + "/candidate" + "/Cargo.toml", ControllerManifest(""))
    && Reads(disk, LogPath(dir, 0, "stdout"), "") && Reads(disk, LogPath(dir, 0, "stderr"), "")
    && Reads(disk, dir + "/attempt.json", manifest)
  }

  lemma SampleTexts(env: Env)
    ensures SampleReads(SampleDisk(env), AttemptDir(env, SAMPLE_PLAN, 1), AttemptText(SampleAttempt(env)))
  {
    hide AttemptText, AttemptDir, ControllerManifest, SampleAttempt;
    var dir := AttemptDir(env, SAMPLE_PLAN, 1);
    var n := |dir|;
    assert (dir + "/candidate" + "/src/main.rs")[n + 1] == 'c' && (dir + "/candidate" + "/src/main.rs")[n + 11] == 's';
    assert (dir + "/candidate" + "/Cargo.toml")[n + 1] == 'c' && (dir + "/candidate" + "/Cargo.toml")[n + 11] == 'C';
    assert LogPath(dir, 0, "stdout")[n + 1] == '0' && LogPath(dir, 0, "stderr")[n + 1] == '0';
    assert (dir + "/attempt.json")[n + 1] == 'a';
  }

  lemma SampleLogged(env: Env, disk: Disk)
    requires SampleReads(disk, AttemptDir(env, SAMPLE_PLAN, 1), AttemptText(SampleAttempt(env)))
    ensures AllLogged(env, disk, AttemptDir(env, SAMPLE_PLAN, 1), SampleAttempt(env).commands)
    ensures GatesClose(SampleAttempt(env)) == true
  {
    hide AttemptText, ControllerManifest, AttemptDir, SampleEvidence, Output;
    var c := SampleAttempt(env).commands[0];
    assert ByteLength("") == 0;
    assert LoggedAs(env, disk, AttemptDir(env, SAMPLE_PLAN, 1), 0, c, FAILED_GATE);
  }

  lemma SampleOnDisk(env: Env, disk: Disk)
    requires SampleReads(disk, AttemptDir(env, SAMPLE_PLAN, 1), AttemptText(SampleAttempt(env)))
    ensures OnDisk(disk, CandidateDir(env, SAMPLE_PLAN, 1), SampleFiles(BROKEN))
    ensures OnDisk(disk, CandidateDir(env, SAMPLE_PLAN, 1), [CandidateFile(MANIFEST_NAME, ControllerManifest(""))])
  {
    hide AttemptText, ControllerManifest, AttemptDir, SampleAttempt;
    var dir := CandidateDir(env, SAMPLE_PLAN, 1);
    SamplePath();
    assert SampleFiles(BROKEN)[0].path == SAMPLE_PATH;
    assert Normalize(MANIFEST_NAME) == MANIFEST_NAME;
    assert dir + "/" + "src/main.rs" == dir + "/src/main.rs" && dir + "/" + MANIFEST_NAME == dir + "/Cargo.toml";
  }

  lemma SampleBuilt(env: Env)
    ensures Built(env, SampleDisk(env), SAMPLE_PLAN, 1, SampleFiles(BROKEN), SampleAttempt(env)) == true
  {
    hide AttemptText, ControllerManifest, SampleDisk, ControllerFor, Output, AllLogged, GatesClose, OnDisk,
         SampleFiles, AttemptDir;
    var a, disk := SampleAttempt(env), SampleDisk(env);
    SampleTexts(env);
    SampleController(env, BROKEN);
    SampleLogged(env, disk);
    SampleOnDisk(env, disk);
    SameText(a, a.manifestPath, "");
    assert a.(manifestPath := a.manifestPath, manifestHash := "") == a.(manifestHash := "");
  }

  // ---- the repair that is refused and found ----

  lemma NothingAt(env: Env, p: string)
    requires AttemptDir(env, SAMPLE_PLAN, 1) + "/r" <= p
    ensures !Exists(SampleDisk(env), p) && !Obstructed(SampleDisk(env), p)
  {
    hide AttemptText, AttemptDir, ControllerManifest, SampleDisk;
    var disk, n := SampleDisk(env), |AttemptDir(env, SAMPLE_PLAN, 1)|;
    assert p[n + 1] == (AttemptDir(env, SAMPLE_PLAN, 1) + "/r")[n + 1];
    forall q | q in disk ensures q != p && !(p + "/" <= q) && !(q + "/" <= p) { SampleKeys(env, q); }
  }

  lemma SampleWrites(env: Env)
    ensures RepairWrites(env, SampleDisk(env), SampleAttempt(env), SAMPLE_MODEL, SampleFiles(FIXED)) == true
  {
    hide AttemptText, AttemptDir, ControllerManifest, SampleDisk, RepairText, BundleHash, Exists, Obstructed;
    var disk, a, files := SampleDisk(env), SampleAttempt(env), SampleFiles(FIXED);
    var dir := AttemptDir(env, SAMPLE_PLAN, 1);
    var first := RepairFiles(env, a) + "/" + "src/main.rs";
    var second := RepairPath(env, SAMPLE_PLAN, 1);
    SamplePath();
    assert first[..|dir| + 2] == dir + "/r" && second[..|dir| + 2] == dir + "/r";
    NothingAt(env, first);
    NothingAt(env, second);
    assert files[..0] == [];
    assert WriteAll(disk, RepairFiles(env, a), files[..0]) == (disk, true);
    assert WriteAll(disk, RepairFiles(env, a), files) == (disk[first := FIXED], true);
    assert first[|dir| + 8] == 'f' && second[|dir| + 8] == 'r';
    StillNothing(disk, first, FIXED, second, |dir| + 8);
  }

  /** A path beside a written one is as free as it was. */
  lemma StillNothing(disk: Disk, first: string, text: string, second: string, k: nat)
    requires !Exists(disk, second) && !Obstructed(disk, second)
    requires k < |first| && k < |second| && first[k] != second[k]
    ensures !Exists(disk[first := text], second) && !Obstructed(disk[first := text], second)
  {
  }

  lemma {:induction false} NoSlash(p: string)
    requires '/' !in p
    ensures LastSlash(p) == -1
  {
    if p != "" { NoSlash(p[..|p| - 1]); }
  }

  /** A name without slashes and capitals is itself. */
  lemma PlainName(p: string)
    requires '/' !in p && forall i :: 0 <= i < |p| ==> !('A' <= p[i] <= 'Z')
    ensures AsciiLower(FileName(p)) == p
  {
    hide LastSlash;
    NoSlash(p);
    assert p[0..] == p;
    assert AsciiLower(p) == p;
  }

  const CARGO := "cargo"

  lemma CargoProgram()
    ensures ValidProgram(CARGO)
  {
    hide FileName, AsciiLower;
    PlainName(CARGO);
  }

  lemma SampleRepairable()
    ensures Repairable(SampleEnv(CARGO), SampleDisk(SampleEnv(CARGO)), SampleAttempt(SampleEnv(CARGO)), SAMPLE_MODEL,
                       SampleFiles(FIXED)) == true
  {
    hide AttemptText, ControllerManifest, SampleDisk, AttemptHolds, Refusal, Built, ValidProgram, ValidFiles;
    var env := SampleEnv(CARGO);
    SampleGrounded(CARGO);
    SampleBuilt(env);
    SampleBundle(BROKEN);
    SampleBundle(FIXED);
    SampleController(env, BROKEN);
    CargoProgram();
    BuiltHolds(env, SampleDisk(env), SAMPLE_PLAN, 1, SampleFiles(BROKEN), SampleAttempt(env));
  }

  lemma SampleMoves()
    ensures var env := SampleEnv(CARGO); Moves(RepairFor(env, SampleAttempt(env), SAMPLE_MODEL, SampleFiles(FIXED)))
    ensures NormalizedFiles(SampleFiles(FIXED)) != SampleFiles(FIXED)
  {
    hide RepairText, AttemptText, ControllerManifest, ValidFiles;
    SampleBundle(BROKEN);
    SampleBundle(FIXED);
    SamplePath();
    assert NormalizedFiles(SampleFiles(FIXED))[0].path != SampleFiles(FIXED)[0].path;
    assert BROKEN[11] == '\n' && FIXED[11] == '}';
    assert SampleTag('0')[7] != SampleTag('1')[7];
  }

  /** Evidence to which `RefusedYetLoads` applies. */
  lemma RefusedInstance() returns (env: Env, disk: Disk, failed: Attempt, model: string, files: seq<CandidateFile>)
    ensures Grounded(env) && Repairable(env, disk, failed, model, files) == true
    ensures RepairWrites(env, disk, failed, model, files) && Moves(RepairFor(env, failed, model, files))
    ensures NormalizedFiles(files) != files
    ensures !RepairStored(env, disk, failed, model, files)
    ensures LoadRepair(env, RepairDisk(env, disk, failed, model, files), failed.planId, failed.number).Present?
  {
    hide SampleEnv, SampleDisk, SampleAttempt, SampleFiles, RepairFor, Repairable, RepairStored, LoadRepair,
         RepairDisk, RepairWrites, Moves, Grounded;
    env := SampleEnv(CARGO);
    disk, failed, model, files := SampleDisk(env), SampleAttempt(env), SAMPLE_MODEL, SampleFiles(FIXED);
    SampleGrounded(CARGO);
    SampleRepairable();
    SampleWrites(env);
    SampleMoves();
    RefusedYetLoads(env, disk, failed, model, files);
  }

  // ---- another program ----

  const OTHER_CARGO := "cross"

  lemma OtherProgram()
    ensures !ValidProgram(OTHER_CARGO) && IsClean(OTHER_CARGO)
  {
    hide FileName, AsciiLower;
    PlainName(OTHER_CARGO);
    assert OTHER_CARGO[1] == 'r';
  }

  /** The runner takes whatever program `CARGO` names; an attempt built by one of another name is never loaded again. */
  lemma OtherCargo() returns (env: Env, disk: Disk, a: Attempt)
    ensures Grounded(env) && IsClean(env.root) && env.cargo == OTHER_CARGO
    ensures Built(env, disk, SAMPLE_PLAN, 1, SampleFiles(BROKEN), a) == true
    ensures LoadAttempt(env, disk, SAMPLE_PLAN, 1) == Corrupt
  {
    hide AttemptText, ControllerManifest, SampleDisk, AttemptHolds, LoadAttempt, Refusal, Built, ValidProgram,
         SampleAttempt;
    env := SampleEnv(OTHER_CARGO);
    disk, a := SampleDisk(env), SampleAttempt(env);
    SampleGrounded(OTHER_CARGO);
    OtherProgram();
    SampleBuilt(env);
    SampleBundle(BROKEN);
    BuiltLoads(env, disk, SAMPLE_PLAN, 1, SampleFiles(BROKEN), a);
  }
}
