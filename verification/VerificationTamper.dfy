/** What accepted evidence is worth: every log, file and manifest is on disk as it was recorded, and with a hash that
    no two texts share, the claim alone determines all of them. */
module VerificationTamper {
  import opened Text
  import opened TextTables
  import opened JsonGrammar
  import opened JsonParser
  import opened JsonRecords
  import opened VerificationModel
  import opened VerificationStore
  import opened VerificationAgreement
  import opened VerificationChain
  import opened VerificationFrames

  // ---- paths ----

  lemma Whole(path: string)
    ensures LastSlash(path) < 0 ==> path == FileName(path) && Parent(path) == ""
    ensures LastSlash(path) >= 0 ==> path == Parent(path) + "/" + FileName(path)
  {
    hide LastSlash;
    var k := LastSlash(path);
    assert k < 0 ==> path[k + 1..] == path;
    assert k >= 0 ==> path == path[..k] + "/" + path[k + 1..];
  }

  lemma NoName()
    ensures FileName("") == ""
  {
  }

  lemma InDirectory(dir: string, name: string)
    requires '/' !in name
    ensures Parent(dir + "/" + name) == dir && FileName(dir + "/" + name) == name
  {
    assert dir + "/" + name == dir + ("/" + name);
    ParentOf(dir, name);
  }

  lemma SlashIn(p: string)
    ensures LastSlash(p) >= 0 ==> '/' in p
  {
    hide LastSlash;
    if LastSlash(p) >= 0 { assert p[LastSlash(p)] in p; }
  }

  lemma Alone(name: string)
    requires '/' !in name
    ensures FileName(name) == name
  {
    hide LastSlash;
    SlashIn(name);
    assert name[0..] == name;
  }

  // ---- what is recorded is there ----

  /** The file is there, with this hash, which is a tag, and this many bytes. */
  ghost predicate Recorded(env: Env, disk: Disk, path: string, hash: string, len: nat) {
    path in disk && env.hash(disk[path]) == hash && ValidTag(hash) && ByteLength(disk[path]) == len
  }

  ghost predicate LogsRecorded(env: Env, disk: Disk, c: CommandEvidence) {
    && Recorded(env, disk, c.stdoutPath, c.stdoutHash, c.stdoutLen)
    && Recorded(env, disk, c.stderrPath, c.stderrHash, c.stderrLen)
  }

  /** The manifest, every file and both logs of every command are what the attempt says they are. */
  ghost predicate AttemptRecorded(env: Env, disk: Disk, a: Attempt) {
    && a.manifestPath in disk && env.hash(disk[a.manifestPath]) == a.manifestHash
    && ValidTag(a.manifestHash) && ValidTag(a.bundleHash)
    && (forall f :: f in a.files ==>
          ValidRelativePath(f.path) && Recorded(env, disk, a.candidateDir + "/" + f.path, f.hash, f.len))
    && (forall c :: c in a.commands ==> LogsRecorded(env, disk, c))
  }

  /** The three gates, in order, all passed. */
  ghost predicate AllGatesPassed(a: Attempt) {
    && |a.commands| == 3 && a.failure == ""
    && a.commands[0].name == "cargo-check" && a.commands[0].args == ["check", "--all-targets", "--offline"]
    && a.commands[1].name == "cargo-test" && a.commands[1].args == ["test", "--all-targets", "--offline"]
    && a.commands[2].name == "cargo-clippy"
    && a.commands[2].args == ["clippy", "--all-targets", "--offline", "--", "-D", "warnings"]
    && forall c :: c in a.commands ==> c.exitCode == 0 && !c.timedOut
  }

  /** Gates passed until one did not, and why is recorded. */
  ghost predicate LastGateFailed(a: Attempt) {
    && 1 <= |a.commands| <= 3 && a.failure != ""
    && (forall k :: 0 <= k < |a.commands| - 1 ==> a.commands[k].exitCode == 0 && !a.commands[k].timedOut)
    && var last := a.commands[|a.commands| - 1]; last.exitCode != 0 || last.timedOut
  }

  lemma HoldsRecorded(env: Env, disk: Disk, a: Attempt)
    requires AttemptHolds(env, disk, a)
    ensures AttemptRecorded(env, disk, a)
  {
    hide GatesClose, PathsMatch, ValidPlanId, ValidTag, Rebuild, ExpectedController, ValidFiles, ValidFile,
         ValidRelativePath, ValidProgram, ProfileOf, BundleHash, JsonSound, ByteLength;
    forall c | c in a.commands ensures LogsRecorded(env, disk, c) {
      var k :| 0 <= k < |a.commands| && a.commands[k] == c;
      assert CommandMatches(env, disk, Parent(a.manifestPath), a.commands[k], k);
    }
    forall f | f in a.files
      ensures ValidRelativePath(f.path) && Recorded(env, disk, a.candidateDir + "/" + f.path, f.hash, f.len)
    {
      var i :| 0 <= i < |a.files| && a.files[i] == f;
      assert FileMatches(env, disk, a.candidateDir, a.files[i]);
    }
  }

  lemma HoldsGates(env: Env, disk: Disk, a: Attempt)
    requires AttemptHolds(env, disk, a)
    ensures if a.passed then AllGatesPassed(a) else LastGateFailed(a)
  {
    hide BundleMatches, PathsMatch, ValidPlanId, ValidTag, LogMatches, ValidProgram;
    forall k | 0 <= k < |a.commands| ensures a.commands[k].name == GATE_NAMES[k] && a.commands[k].args == GATE_ARGS[k] {
      assert CommandMatches(env, disk, Parent(a.manifestPath), a.commands[k], k);
    }
  }

  /** Everything of an attempt lies in one directory, named by its number, and its gates were run by cargo. */
  ghost predicate AttemptPlaced(a: Attempt) {
    var dir := Parent(a.manifestPath);
    && a.manifestPath == dir + "/" + "attempt.json" && a.candidateDir == dir + "/" + "candidate"
    && FileName(dir) == "attempt-" + Pad3(a.number)
    && forall c :: c in a.commands ==>
         && dir + "/" <= c.stdoutPath && dir + "/" <= c.stderrPath
         && (AnyCase(FileName(c.program), "cargo") || AnyCase(FileName(c.program), "cargo.exe"))
  }

  lemma HoldsPlaced(env: Env, disk: Disk, a: Attempt)
    requires AttemptHolds(env, disk, a)
    ensures AttemptPlaced(a)
  {
    hide BundleMatches, ValidPlanId, ValidTag, GatesClose, ByteLength, Pad3, FileName, Parent, Exists, AnyCase,
         AsciiLower;
    NoName();
    Whole(a.manifestPath);
    Whole(a.candidateDir);
    assert AttemptName(a.number) == "attempt-" + Pad3(a.number);
    assert AttemptName(a.number) != "" && Parent(a.manifestPath) != "";
    forall c | c in a.commands
      ensures Parent(a.manifestPath) + "/" <= c.stdoutPath && Parent(a.manifestPath) + "/" <= c.stderrPath
      ensures AnyCase(FileName(c.program), "cargo") || AnyCase(FileName(c.program), "cargo.exe")
    {
      var k :| 0 <= k < |a.commands| && a.commands[k] == c;
      assert CommandMatches(env, disk, Parent(a.manifestPath), a.commands[k], k);
      AnyCaseLower(FileName(c.program), "cargo");
      AnyCaseLower(FileName(c.program), "cargo.exe");
    }
  }

  /** The bundle of an attempt: its files that are not the controller's, with their texts on disk. */
  ghost function BundleOf(disk: Disk, a: Attempt): seq<CandidateFile> {
    Rebuild(disk, a.candidateDir, a.files, false)
  }

  ghost predicate BundleSound(env: Env, disk: Disk, a: Attempt) {
    var files := BundleOf(disk, a);
    && ValidFiles(files) && env.hash(Output(files)) == a.bundleHash
    && (HasCargoToml(files) || RustFiles(files) != [] || forall f :: f in files ==> IsJson(f))
    && (a.passed && !HasCargoToml(files) && RustFiles(files) == [] ==>
          forall f :: f in files ==> ResultOf(f.content).Parsed?)
    && ExpectedController(env, ProfileOf(files), files) == Some(Rebuild(disk, a.candidateDir, a.files, true))
  }

  lemma HoldsBundle(env: Env, disk: Disk, a: Attempt)
    requires AttemptHolds(env, disk, a)
    ensures BundleSound(env, disk, a)
  {
    hide GatesClose, PathsMatch, ValidPlanId, ValidTag, Rebuild, ExpectedController, ValidFiles, CommandMatches,
         FileMatches, ResultOf, HasCargoToml, RustFiles, IsJson, Output;
  }

  /** The repair's manifest and its files are on disk as it says, and it leads from one bundle to another, before the
      last attempt there can be. */
  ghost predicate RepairRecorded(env: Env, disk: Disk, r: Repair) {
    && r.manifestPath in disk && env.hash(disk[r.manifestPath]) == r.manifestHash
    && (forall f :: f in r.files ==>
          var path := Parent(r.manifestPath) + "/files/" + f.path; path in disk && disk[path] == f.content)
    && ValidFiles(r.files) && env.hash(Output(r.files)) == r.repairedHash
    && ValidTag(r.sourceHash) && ValidTag(r.repairedHash) && r.sourceHash != r.repairedHash
    && 1 <= r.afterAttempt <= 31 && ValidPlanId(r.planId) && ValidModel(r.model)
    && FileName(r.manifestPath) == "repair.json"
  }

  lemma {:induction false} RepairFilesThere(env: Env, disk: Disk, dir: string, vs: seq<JsonValue>)
    requires ReadRepairFiles(env, disk, dir, vs).Some?
    ensures forall f :: f in ReadRepairFiles(env, disk, dir, vs).value ==>
              dir + "/" + f.path in disk && disk[dir + "/" + f.path] == f.content
  {
    hide Exact, JsonString, JsonU64, ValidRelativePath, ValidFile, ValidTag;
    if vs != [] { RepairFilesThere(env, disk, dir, vs[..|vs| - 1]); }
  }

  lemma ParsedRepairThere(env: Env, disk: Disk, path: string)
    requires ParseRepair(env, disk, path).Some?
    ensures RepairRecorded(env, disk, ParseRepair(env, disk, path).value)
  {
    hide Exact, JsonString, JsonU64, JsonU32, ValidFiles, ValidTag, ValidModel, ValidPlanId, Parent, FileName,
         Exists, ReadRepairFiles, Output, ResultOf;
    var v := ResultOf(disk[path]).value;
    var dir := Parent(path) + "/files";
    RepairFilesThere(env, disk, dir, JsonArray(v, "files").value);
    forall f: CandidateFile ensures dir + "/" + f.path == Parent(path) + "/files/" + f.path {
      assert "/files" + "/" == "/files/";
      assert (Parent(path) + "/files") + "/" + f.path == Parent(path) + ("/files" + "/") + f.path;
    }
  }

  lemma LoadedRecorded(env: Env, disk: Disk, plan: string, n: nat, i: nat, a: Attempt)
    requires AttemptLinks(env, disk, plan, n, i, a)
    ensures AttemptRecorded(env, disk, a) && AttemptPlaced(a) && BundleSound(env, disk, a)
    ensures if a.passed then AllGatesPassed(a) else LastGateFailed(a)
  {
    hide AttemptHolds, AttemptRecorded, AttemptPlaced, BundleSound, AllGatesPassed, LastGateFailed, LoadAttempt;
    LoadedAttempt(env, disk, plan, i, a);
    HoldsRecorded(env, disk, a);
    HoldsPlaced(env, disk, a);
    HoldsGates(env, disk, a);
    HoldsBundle(env, disk, a);
  }

  lemma LoadedRepairRecorded(env: Env, disk: Disk, plan: string, i: nat, r: Repair)
    requires LoadRepair(env, disk, plan, i) == Present(r)
    ensures RepairRecorded(env, disk, r)
  {
    hide ParseRepair, RepairFieldsValid, RepairRecorded, ValidPlanId, Exists;
    ParsedRepairThere(env, disk, RepairPath(env, plan, i));
  }

  /** Everything a chain rests on is recorded, each attempt ended as it says, and only the last passed. */
  ghost predicate ChainRecorded(env: Env, disk: Disk, links: seq<Link>) {
    && (forall i :: 0 <= i < |links| ==>
          && AttemptRecorded(env, disk, links[i].attempt) && AttemptPlaced(links[i].attempt)
          && BundleSound(env, disk, links[i].attempt)
          && if i == |links| - 1 then AllGatesPassed(links[i].attempt) else LastGateFailed(links[i].attempt))
    && (forall i :: 0 <= i < |links| && links[i].repair.Some? ==> RepairRecorded(env, disk, links[i].repair.value))
  }

  lemma ClosedRecorded(env: Env, disk: Disk, plan: string, n: nat, links: seq<Link>)
    requires Closed(env, disk, plan, n, links)
    ensures ChainRecorded(env, disk, links)
  {
    hide AttemptRecorded, AttemptPlaced, BundleSound, AllGatesPassed, LastGateFailed, LoadAttempt, LoadRepair,
         RepairRecorded, ValidPlanId;
    forall i | 0 <= i < n
      ensures AttemptRecorded(env, disk, links[i].attempt) && AttemptPlaced(links[i].attempt)
      ensures BundleSound(env, disk, links[i].attempt)
      ensures if i == n - 1 then AllGatesPassed(links[i].attempt) else LastGateFailed(links[i].attempt)
    {
      assert AttemptLinks(env, disk, plan, n, i + 1, links[i].attempt);
      LoadedRecorded(env, disk, plan, n, i + 1, links[i].attempt);
    }
    forall i | 0 <= i < n && links[i].repair.Some? ensures RepairRecorded(env, disk, links[i].repair.value) {
      assert RepairLinks(env, disk, plan, i + 1, links[i].attempt, links[i].repair.value);
      LoadedRepairRecorded(env, disk, plan, i + 1, links[i].repair.value);
    }
  }

  /** The final manifest of a plan, below its directory. */
  function FinalIn(top: string): string {
    top + "/" + "candidate-verification" + "/" + "verification-final.json"
  }

  /** A final manifest lies at its place exactly if its path is that place, in the directory of the plan, and that is
      alone or below some root. */
  lemma FinalPlaceExactly(path: string, plan: string)
    requires '/' !in plan && plan != ""
    ensures FinalPlace(path, plan) <==> path == FinalIn(plan) || exists root :: path == FinalIn(root + "/" + plan)
  {
    hide FileName, Parent;
    var dir := Parent(path);
    var top := Parent(dir);
    if FinalPlace(path, plan) {
      NoName();
      Whole(path);
      Whole(dir);
      Whole(top);
      assert path == FinalIn(top);
      assert top == plan || top == Parent(top) + "/" + plan;
    }
    if root :| path == FinalIn(root + "/" + plan) {
      PlaceOf(root + "/" + plan);
      InDirectory(root, plan);
    }
    if path == FinalIn(plan) {
      PlaceOf(plan);
      Alone(plan);
    }
  }

  lemma PlaceOf(top: string)
    ensures FileName(FinalIn(top)) == "verification-final.json"
    ensures FileName(Parent(FinalIn(top))) == "candidate-verification" && Parent(Parent(FinalIn(top))) == top
  {
    hide FileName, Parent;
    InDirectory(top + "/" + "candidate-verification", "verification-final.json");
    InDirectory(top, "candidate-verification");
  }

  function Above(env: Env, path: string): Env {
    env.(root := Parent(Parent(Parent(path))))
  }

  /** In an accepted chain every log, file and manifest is on disk as recorded, the last attempt passed the three gates
      and every other ended at a gate that failed. */
  lemma AcceptedRecorded(env: Env, disk: Disk, path: string, manifestHash: string, plan: string, bundleHash: string)
    returns (links: seq<Link>)
    requires VerifyEvidence(env, disk, path, manifestHash, plan, bundleHash).Some?
    ensures Closed(Above(env, path), disk, plan, |links|, links) && ChainRecorded(Above(env, path), disk, links)
    ensures path in disk && env.hash(disk[path]) == manifestHash
    ensures links[|links| - 1].attempt.bundleHash == bundleHash
    ensures path == FinalIn(plan) || path == FinalIn(Above(env, path).root + "/" + plan)
  {
    links := AcceptedChain(env, disk, path, manifestHash, plan, bundleHash);
    AcceptedPlace(env, disk, path, manifestHash, plan, bundleHash);
    hide ChainRecorded;
    ClosedRecorded(Above(env, path), disk, plan, |links|, links);
  }

  lemma AcceptedPlace(env: Env, disk: Disk, path: string, manifestHash: string, plan: string, bundleHash: string)
    requires VerifyEvidence(env, disk, path, manifestHash, plan, bundleHash).Some?
    ensures path == FinalIn(plan) || path == FinalIn(Above(env, path).root + "/" + plan)
  {
    hide ReadFinal, ChainOf, FinalMatches, FileName, Parent;
    assert '/' !in plan && plan != "";
    FinalPlaceExactly(path, plan);
    if root :| path == FinalIn(root + "/" + plan) {
      PlaceOf(root + "/" + plan);
      InDirectory(root, plan);
    }
  }

  // ---- the claim determines the evidence ----

  ghost predicate CollisionFree(env: Env) {
    forall x, y :: env.hash(x) == env.hash(y) ==> x == y
  }

  ghost predicate SameText(d: Disk, e: Disk, path: string) {
    path in d && path in e && d[path] == e[path]
  }

  /** The same texts lie at every path the attempt rests on. */
  ghost predicate SameEvidence(d: Disk, e: Disk, a: Attempt) {
    && SameText(d, e, a.manifestPath)
    && (forall f :: f in a.files ==> SameText(d, e, a.candidateDir + "/" + f.path))
    && (forall c :: c in a.commands ==> SameText(d, e, c.stdoutPath) && SameText(d, e, c.stderrPath))
  }

  ghost predicate SameRepairEvidence(d: Disk, e: Disk, r: Repair) {
    && SameText(d, e, r.manifestPath)
    && (forall f :: f in r.files ==> SameText(d, e, Parent(r.manifestPath) + "/files/" + f.path))
  }

  lemma LoadedText(env: Env, disk: Disk, plan: string, i: nat, a: Attempt)
    requires LoadAttempt(env, disk, plan, i) == Present(a)
    ensures var path := AttemptPath(env, plan, i);
            path in disk && a.manifestPath == path && ParseAttempt(env, disk[path], path) == Some(a)
            && a.manifestHash == env.hash(disk[path])
  {
    hide AttemptHolds, ReadAttempt, AttemptPath;
    var path := AttemptPath(env, plan, i);
    ParsedPlace(env, disk[path], path);
  }

  /** Attempts of one place and one manifest hash are one attempt, with the same evidence. */
  lemma SameAttempt(env: Env, d: Disk, e: Disk, plan: string, i: nat, a: Attempt, b: Attempt)
    requires CollisionFree(env) && a.manifestHash == b.manifestHash
    requires LoadAttempt(env, d, plan, i) == Present(a) && LoadAttempt(env, e, plan, i) == Present(b)
    ensures a == b && SameEvidence(d, e, a)
  {
    hide LoadAttempt, ParseAttempt, AttemptPath, AttemptHolds, ByteLength;
    LoadedText(env, d, plan, i, a);
    LoadedText(env, e, plan, i, b);
    LoadedAttempt(env, d, plan, i, a);
    LoadedAttempt(env, e, plan, i, b);
    HoldsRecorded(env, d, a);
    HoldsRecorded(env, e, b);
    forall c | c in a.commands ensures SameText(d, e, c.stdoutPath) && SameText(d, e, c.stderrPath) {
      assert LogsRecorded(env, d, c) && LogsRecorded(env, e, c);
    }
    forall f | f in a.files ensures SameText(d, e, a.candidateDir + "/" + f.path) {
      var p := a.candidateDir + "/" + f.path;
      assert Recorded(env, d, p, f.hash, f.len) && Recorded(env, e, p, f.hash, f.len);
    }
  }

  lemma SameRepairFile(env: Env, d: Disk, e: Disk, dir: string, v: JsonValue)
    requires CollisionFree(env) && ReadRepairFile(env, d, dir, v).Some? && ReadRepairFile(env, e, dir, v).Some?
    ensures ReadRepairFile(env, d, dir, v) == ReadRepairFile(env, e, dir, v)
  {
    hide Exact, JsonString, JsonU64, ValidRelativePath, ValidFile, ValidTag, ByteLength;
  }

  lemma {:induction false} SameRepairFiles(env: Env, d: Disk, e: Disk, dir: string, vs: seq<JsonValue>)
    requires CollisionFree(env) && ReadRepairFiles(env, d, dir, vs).Some? && ReadRepairFiles(env, e, dir, vs).Some?
    ensures ReadRepairFiles(env, d, dir, vs) == ReadRepairFiles(env, e, dir, vs)
  {
    hide ReadRepairFile, CollisionFree;
    if vs != [] {
      SameRepairFiles(env, d, e, dir, vs[..|vs| - 1]);
      SameRepairFile(env, d, e, dir, vs[|vs| - 1]);
    }
  }

  lemma ParsedSame(env: Env, d: Disk, e: Disk, path: string)
    requires CollisionFree(env) && SameText(d, e, path)
    requires ParseRepair(env, d, path).Some? && ParseRepair(env, e, path).Some?
    ensures ParseRepair(env, d, path) == ParseRepair(env, e, path)
  {
    hide Exact, JsonString, JsonU64, JsonU32, RepairFieldsValid, Parent, FileName, Exists, ReadRepairFiles, ResultOf,
         CollisionFree;
    var v := ResultOf(d[path]).value;
    SameRepairFiles(env, d, e, Parent(path) + "/files", JsonArray(v, "files").value);
  }

  lemma LoadedRepairText(env: Env, disk: Disk, plan: string, i: nat, r: Repair)
    requires LoadRepair(env, disk, plan, i) == Present(r)
    ensures var path := RepairPath(env, plan, i);
            path in disk && r.manifestPath == path && ParseRepair(env, disk, path) == Some(r)
            && r.manifestHash == env.hash(disk[path])
  {
    hide ParseRepair, RepairHolds, ValidPlanId, RepairPath, Exists;
    ParsedRepairPlace(env, disk, RepairPath(env, plan, i));
  }

  lemma SameRepair(env: Env, d: Disk, e: Disk, plan: string, i: nat, r: Repair, s: Repair)
    requires CollisionFree(env) && r.manifestHash == s.manifestHash
    requires LoadRepair(env, d, plan, i) == Present(r) && LoadRepair(env, e, plan, i) == Present(s)
    ensures r == s && SameRepairEvidence(d, e, r)
  {
    hide LoadRepair, ParseRepair, RepairPath, ValidFiles, Output, Parent;
    LoadedRepairText(env, d, plan, i, r);
    LoadedRepairText(env, e, plan, i, s);
    ParsedSame(env, d, e, r.manifestPath);
    ParsedRepairThere(env, d, r.manifestPath);
    ParsedRepairThere(env, e, r.manifestPath);
  }

  /** The claim of the final manifest at `path`. */
  ghost function FinalAt(disk: Disk, path: string, plan: string, bundleHash: string): Option<Final> {
    if path !in disk || ResultOf(disk[path]).Rejected? then None
    else ReadFinal(ResultOf(disk[path]).value, plan, bundleHash)
  }

  /** An accepted chain is as long as the final manifest says, and its history has the hash that is in it. */
  lemma AcceptedHistory(env: Env, disk: Disk, path: string, manifestHash: string, plan: string, bundleHash: string)
    returns (links: seq<Link>)
    requires VerifyEvidence(env, disk, path, manifestHash, plan, bundleHash).Some?
    ensures path in disk && env.hash(disk[path]) == manifestHash && ValidPlanId(plan)
    ensures Closed(Above(env, path), disk, plan, |links|, links) && links != []
    ensures var f := FinalAt(disk, path, plan, bundleHash);
            f.Some? && |links| == f.value.attempts && env.hash(History(plan, links)) == f.value.historyHash
  {
    hide ReadFinal, ChainOf, Closed, FinalPlace, ValidTag, ValidPlanId, History, Exists, Parent;
    links := AcceptedChain(env, disk, path, manifestHash, plan, bundleHash);
    ClosedCount(Above(env, path), disk, plan, links,
                VerifyEvidence(env, disk, path, manifestHash, plan, bundleHash).value.attempts);
    ChainIsClosed(Above(env, path), disk, plan, |links|, links);
  }

  lemma ClosedCount(env: Env, disk: Disk, plan: string, links: seq<Link>, n: nat)
    requires Closed(env, disk, plan, n, links)
    ensures |links| == n && n > 0
  {
  }

  lemma SameLink(env: Env, d: Disk, e: Disk, plan: string, n: nat, ls: seq<Link>, ms: seq<Link>, i: nat)
    requires CollisionFree(env) && i < n && Closed(env, d, plan, n, ls) && Closed(env, e, plan, n, ms)
    requires SameHashes(ls[i], ms[i])
    ensures ls[i] == ms[i] && SameEvidence(d, e, ls[i].attempt)
    ensures ls[i].repair.Some? ==> SameRepairEvidence(d, e, ls[i].repair.value)
  {
    hide CollisionFree, LoadAttempt, LoadRepair, ValidPlanId, SameEvidence, SameRepairEvidence;
    var a, b := ls[i].attempt, ms[i].attempt;
    assert AttemptLinks(env, d, plan, n, i + 1, a) && AttemptLinks(env, e, plan, n, i + 1, b);
    SameAttempt(env, d, e, plan, i + 1, a, b);
    if ls[i].repair.Some? {
      var r, s := ls[i].repair.value, ms[i].repair.value;
      assert RepairLinks(env, d, plan, i + 1, a, r) && RepairLinks(env, e, plan, i + 1, b, s);
      SameRepair(env, d, e, plan, i + 1, r, s);
    }
  }

  /** With a hash that no two texts share, whoever knows the hash of the final manifest knows the evidence: on any two
      disks on which the claim is accepted, the chain is the same, and the same texts lie at the final manifest and at
      every manifest, file and log of it. */
  lemma ClaimDetermines(env: Env, d: Disk, e: Disk, path: string, manifestHash: string, plan: string,
                        bundleHash: string)
    returns (links: seq<Link>)
    requires CollisionFree(env)
    requires VerifyEvidence(env, d, path, manifestHash, plan, bundleHash).Some?
    requires VerifyEvidence(env, e, path, manifestHash, plan, bundleHash).Some?
    ensures Closed(Above(env, path), d, plan, |links|, links) && Closed(Above(env, path), e, plan, |links|, links)
    ensures SameText(d, e, path)
    ensures forall i :: 0 <= i < |links| ==> SameEvidence(d, e, links[i].attempt)
    ensures forall i :: 0 <= i < |links| && links[i].repair.Some? ==> SameRepairEvidence(d, e, links[i].repair.value)
  {
    hide Closed, SameEvidence, SameRepairEvidence, History, ValidPlanId, ReadFinal, ResultOf, WellTagged, SameHashes,
         VerifyEvidence, Parent;
    var above := Above(env, path);
    links := AcceptedHistory(env, d, path, manifestHash, plan, bundleHash);
    var others := AcceptedHistory(env, e, path, manifestHash, plan, bundleHash);
    assert d[path] == e[path];
    assert History(plan, links) == History(plan, others);
    ClosedIsTagged(above, d, plan, |links|, links);
    ClosedIsTagged(above, e, plan, |others|, others);
    HistoryDetermines(plan, links, plan, others);
    forall i | 0 <= i < |links|
      ensures links[i] == others[i] && SameEvidence(d, e, links[i].attempt)
      ensures links[i].repair.Some? ==> SameRepairEvidence(d, e, links[i].repair.value)
    {
      SameLink(above, d, e, plan, |links|, links, others, i);
    }
    assert links == others;
  }

  lemma LastPassed(env: Env, disk: Disk, plan: string, links: seq<Link>, i: nat)
    requires Closed(env, disk, plan, |links|, links) && 1 <= i <= |links|
    ensures LoadAttempt(env, disk, plan, i).Present?
    ensures LoadAttempt(env, disk, plan, i).value.passed <==> i == |links|
  {
    hide LoadAttempt, LoadRepair, ValidPlanId;
    assert AttemptLinks(env, disk, plan, |links|, i, links[i - 1].attempt);
  }

  /** A disk holds at most one closed chain of a plan. */
  lemma ChainUnique(env: Env, disk: Disk, plan: string, ls: seq<Link>, ms: seq<Link>)
    requires Closed(env, disk, plan, |ls|, ls) && Closed(env, disk, plan, |ms|, ms)
    ensures ls == ms
  {
    hide Closed, LoadAttempt, ChainOf;
    ClosedCount(env, disk, plan, ls, |ls|);
    ClosedCount(env, disk, plan, ms, |ms|);
    LastPassed(env, disk, plan, ls, if |ls| <= |ms| then |ls| else |ms|);
    LastPassed(env, disk, plan, ms, if |ls| <= |ms| then |ls| else |ms|);
    ChainIsClosed(env, disk, plan, |ls|, ls);
    ChainIsClosed(env, disk, plan, |ms|, ms);
  }

  /** The paths a chain rests on. */
  ghost predicate RestsOn(links: seq<Link>, p: string) {
    exists i :: 0 <= i < |links| && LinkRestsOn(links[i], p)
  }

  ghost predicate LinkRestsOn(l: Link, p: string) {
    || p == l.attempt.manifestPath
    || (exists f :: f in l.attempt.files && p == l.attempt.candidateDir + "/" + f.path)
    || (exists c :: c in l.attempt.commands && (p == c.stdoutPath || p == c.stderrPath))
    || (l.repair.Some? && var r := l.repair.value;
          p == r.manifestPath || exists f :: f in r.files && p == Parent(r.manifestPath) + "/files/" + f.path)
  }

  /** Tampering shows: evidence that is still accepted after one of its files was overwritten was not changed. */
  lemma TamperingShows(env: Env, d: Disk, p: string, t: string, path: string, manifestHash: string, plan: string,
                       bundleHash: string, links: seq<Link>)
    requires CollisionFree(env) && Closed(Above(env, path), d, plan, |links|, links)
    requires VerifyEvidence(env, d, path, manifestHash, plan, bundleHash).Some?
    requires VerifyEvidence(env, d[p := t], path, manifestHash, plan, bundleHash).Some?
    requires p == path || RestsOn(links, p)
    ensures p in d && t == d[p]
  {
    hide Closed, VerifyEvidence, CollisionFree, Above, Parent;
    var same := ClaimDetermines(env, d, d[p := t], path, manifestHash, plan, bundleHash);
    ChainUnique(Above(env, path), d, plan, same, links);
    assert SameText(d, d[p := t], p);
  }
}
