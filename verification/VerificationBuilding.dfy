/** What it takes to build an attempt where nothing is yet: which bundles can be laid out on disk, and which gates leave
    evidence. */
module VerificationBuilding {
  import opened Text
  import opened Utf8
  import opened VerificationModel
  import opened VerificationRules
  import opened VerificationRunner
  import opened VerificationStore

  // ---- files ----

  /** Nothing lies under the directory, and no file is in its way. */
  ghost predicate Fresh(disk: Disk, dir: string) {
    forall q :: q in disk ==> !(dir + "/" <= q) && !(q + "/" <= dir + "/")
  }

  /** The second file lies in a directory that has the first one's name. */
  predicate Inside(f: CandidateFile, g: CandidateFile) {
    Normalize(f.path) + "/" <= Normalize(g.path)
  }

  ghost predicate NoneInside(files: seq<CandidateFile>) {
    forall f, g :: f in files && g in files ==> !Inside(f, g)
  }

  ghost predicate Apart(files: seq<CandidateFile>) {
    forall i, j :: 0 <= i < j < |files| ==> Normalize(files[i].path) != Normalize(files[j].path)
  }

  function Place(dir: string, f: CandidateFile): string {
    dir + "/" + Normalize(f.path)
  }

  /** The files are added to the disk, and nothing else. */
  ghost predicate Added(disk: Disk, after: Disk, dir: string, files: seq<CandidateFile>) {
    && (forall q :: q in disk ==> q in after && after[q] == disk[q])
    && (forall f :: f in files ==> Place(dir, f) in after && after[Place(dir, f)] == f.content)
    && (forall q :: q in after ==> q in disk || exists f :: f in files && q == Place(dir, f))
  }

  lemma NotOnFresh(disk: Disk, dir: string, rest: string, q: string)
    requires Fresh(disk, dir) && q in disk
    ensures q != dir + "/" + rest && !(dir + "/" + rest + "/" <= q) && !(q + "/" <= dir + "/" + rest)
  {
    InTheWay(dir, rest, q);
  }

  lemma InTheWay(dir: string, rest: string, q: string)
    ensures dir + "/" <= dir + "/" + rest
    ensures q + "/" <= dir + "/" + rest ==> q + "/" <= dir + "/" || dir + "/" <= q
  {
    var p := dir + "/" + rest;
    assert p[..|dir| + 1] == dir + "/";
    if q + "/" <= p {
      if |q| <= |dir| {
        assert q + "/" == p[..|q| + 1] == (dir + "/")[..|q| + 1];
      } else {
        assert q == p[..|q|] && dir + "/" == q[..|dir| + 1];
      }
    }
  }

  /** Whether a path is free depends on the files already added only. */
  lemma WritableExactly(disk: Disk, after: Disk, dir: string, files: seq<CandidateFile>, f: CandidateFile)
    requires Fresh(disk, dir) && Added(disk, after, dir, files)
    requires forall g :: g in files ==> Normalize(g.path) != Normalize(f.path)
    ensures Writable(after, Place(dir, f), f.content)
       <==> forall g :: g in files ==> !Inside(f, g) && !Inside(g, f)
  {
    hide Fresh, Normalize;
    var p := Place(dir, f);
    forall g | g in files ensures (p == Place(dir, g)) == false
      ensures p + "/" <= Place(dir, g) <==> Inside(f, g)
      ensures Place(dir, g) + "/" <= p <==> Inside(g, f)
    {
      Beside(dir, Normalize(f.path), Normalize(g.path));
      Beside(dir, Normalize(g.path), Normalize(f.path));
    }
    forall q | q in disk ensures q != p && !(p + "/" <= q) && !(q + "/" <= p) {
      NotOnFresh(disk, dir, Normalize(f.path), q);
    }
    if g :| g in files && (Inside(f, g) || Inside(g, f)) { assert Place(dir, g) in after; }
  }

  lemma Beside(dir: string, x: string, y: string)
    ensures dir + "/" + x == dir + "/" + y <==> x == y
    ensures dir + "/" + x + "/" <= dir + "/" + y <==> x + "/" <= y
  {
    var k := |dir| + 1;
    assert (dir + "/" + x)[k..] == x && (dir + "/" + y)[k..] == y;
    assert (dir + "/" + x + "/")[k..] == x + "/";
    assert dir + "/" + x + "/" == dir + "/" + (x + "/");
    if x + "/" <= y {
      assert y == (x + "/") + y[|x| + 1..];
      assert dir + "/" + y == dir + "/" + (x + "/") + y[|x| + 1..];
    }
  }

  lemma AddedOne(disk: Disk, after: Disk, dir: string, files: seq<CandidateFile>, f: CandidateFile)
    requires Fresh(disk, dir) && Added(disk, after, dir, files)
    requires forall g :: g in files ==> Normalize(g.path) != Normalize(f.path)
    ensures Added(disk, after[Place(dir, f) := f.content], dir, files + [f])
  {
    hide Fresh, Normalize;
    var now := after[Place(dir, f) := f.content];
    forall g | g in files ensures Place(dir, g) != Place(dir, f) { Beside(dir, Normalize(g.path), Normalize(f.path)); }
    forall q | q in disk ensures q != Place(dir, f) { NotOnFresh(disk, dir, Normalize(f.path), q); }
    forall q | q in now ensures q in disk || exists g :: g in files + [f] && q == Place(dir, g) {
      if q == Place(dir, f) { assert f in files + [f]; }
      else if q !in disk { var g :| g in files && q == Place(dir, g); assert g in files + [f]; }
    }
  }

  /** Where nothing is yet, files with different paths can be written exactly if none lies inside another. */
  lemma {:induction false} WrittenExactly(disk: Disk, dir: string, files: seq<CandidateFile>)
    requires Fresh(disk, dir) && Apart(files)
    ensures WriteAll(disk, dir, files).1 <==> NoneInside(files)
    ensures WriteAll(disk, dir, files).1 ==> Added(disk, WriteAll(disk, dir, files).0, dir, files)
  {
    hide Fresh, Normalize, Writable;
    if files != [] {
      var k := |files| - 1;
      var front, f := files[..k], files[k];
      WrittenExactly(disk, dir, front);
      assert files == front + [f];
      LastApart(files);
      if NoneInside(front) {
        var after := WriteAll(disk, dir, front).0;
        WritableExactly(disk, after, dir, front, f);
        AddedOne(disk, after, dir, front, f);
        NoneInsideMore(front, f);
      } else {
        var g, h :| g in front && h in front && Inside(g, h);
        assert g in files && h in files;
      }
    }
  }

  lemma LastApart(files: seq<CandidateFile>)
    requires files != [] && Apart(files)
    ensures forall g :: g in files[..|files| - 1] ==> Normalize(g.path) != Normalize(files[|files| - 1].path)
    ensures Apart(files[..|files| - 1])
  {
  }

  lemma NoneInsideMore(files: seq<CandidateFile>, f: CandidateFile)
    requires NoneInside(files)
    ensures NoneInside(files + [f]) <==> forall g :: g in files ==> !Inside(f, g) && !Inside(g, f)
  {
    assert !Inside(f, f);
    assert f in files + [f];
    forall g | g in files ensures g in files + [f] { }
  }

  // ---- a bundle and what the runner adds to it ----

  lemma {:induction false} WriteAllJoin(disk: Disk, dir: string, a: seq<CandidateFile>, b: seq<CandidateFile>)
    ensures var first := WriteAll(disk, dir, a);
            WriteAll(disk, dir, a + b) == if first.1 then WriteAll(first.0, dir, b) else first
  {
    hide Writable, Normalize;
    if b == [] {
      assert a + b == a;
    } else {
      assert (a + b)[..|a + b| - 1] == a + b[..|b| - 1];
      WriteAllJoin(disk, dir, a, b[..|b| - 1]);
    }
  }

  ghost predicate NoneForbidden(files: seq<CandidateFile>) {
    forall f :: f in files ==> Normalize(f.path) != "build.rs" && !(".cargo/" <= Normalize(f.path))
  }

  /** Without a forbidden file the bundle is simply written, and with one it is refused. */
  lemma {:induction false} OwnExactly(disk: Disk, dir: string, files: seq<CandidateFile>)
    ensures FilesWritten(disk, dir, files).1 == None <==> NoneForbidden(files) && WriteAll(disk, dir, files).1
    ensures FilesWritten(disk, dir, files).1 == None ==>
              FilesWritten(disk, dir, files).0 == WriteAll(disk, dir, files).0
  {
    hide Writable, Normalize;
    if files != [] {
      var k := |files| - 1;
      OwnExactly(disk, dir, files[..k]);
      assert files == files[..k] + [files[k]];
    }
  }

  /** The bundle can be built: some file is named as a manifest, or all are JSON, or one of the two standard targets is
      there, or exactly one Rust file. */
  ghost predicate HasTarget(files: seq<CandidateFile>) {
    || (exists f :: f in files && IsManifest(f))
    || (!SomeRust(files) && forall f :: f in files ==> EndsAnyCase(f.path, ".json"))
    || (exists f :: f in files && Normalize(f.path) in ["src/main.rs", "src/lib.rs"])
    || |set i | 0 <= i < |files| && EndsAnyCase(files[i].path, ".rs")| == 1
  }

  lemma HasManifestMeans(files: seq<CandidateFile>)
    ensures HasCargoToml(files) <==> exists f :: f in files && IsManifest(f)
  {
    hide IsManifest, IsCargoToml;
    forall f: CandidateFile ensures IsCargoToml(f) <==> IsManifest(f) { ManifestMeans(f); }
    if f :| f in files && IsManifest(f) {
      var i :| 0 <= i < |files| && files[i] == f;
      assert IsCargoToml(files[i]);
    }
    if i :| 0 <= i < |files| && IsCargoToml(files[i]) { assert files[i] in files; }
  }

  lemma HasStandardMeans(files: seq<CandidateFile>)
    ensures HasStandardTarget(files) <==> exists f :: f in files && Normalize(f.path) in ["src/main.rs", "src/lib.rs"]
  {
    hide Normalize;
    if f :| f in files && Normalize(f.path) in ["src/main.rs", "src/lib.rs"] {
      var i :| 0 <= i < |files| && files[i] == f;
      assert IsStandardTarget(files[i]);
    }
    if i :| 0 <= i < |files| && IsStandardTarget(files[i]) { assert files[i] in files; }
  }

  lemma RustPlacesMean(files: seq<CandidateFile>)
    ensures RustPlaces(files) == set i | 0 <= i < |files| && EndsAnyCase(files[i].path, ".rs")
  {
    hide IsRust, EndsAnyCase;
    forall f: CandidateFile ensures IsRust(f) <==> EndsAnyCase(f.path, ".rs") { RustMeans(f); }
  }

  lemma TargetExactly(env: Env, files: seq<CandidateFile>)
    ensures ControllerFor(env, files).Some? <==> HasTarget(files)
  {
    hide ControllerManifest, Harness, BinTarget, RustFiles, SomeRust, EndsAnyCase, IsManifest, HasCargoToml,
         HasStandardTarget, ProfileOf, RustPlaces, Normalize;
    HasManifestMeans(files);
    HasStandardMeans(files);
    ProfileExactly(files);
    RustCount(files);
    RustPlacesMean(files);
  }

  /** A bundle that can be built is of a kind that is supported. */
  lemma TargetSupported(env: Env, files: seq<CandidateFile>)
    requires ControllerFor(env, files).Some?
    ensures ProfileOf(files) != Unsupported
  {
    hide ControllerManifest, Harness, BinTarget, IsRust, IsJson, HasCargoToml;
    RustFilesAre(files);
    if HasStandardTarget(files) {
      var i :| 0 <= i < |files| && IsStandardTarget(files[i]);
      StandardIsRust(files[i]);
      assert files[i] in RustFiles(files);
    }
  }

  lemma StandardIsRust(f: CandidateFile)
    requires IsStandardTarget(f)
    ensures IsRust(f)
  {
    var n, k := Normalize(f.path), |f.path|;
    assert n[k - 3..] == ".rs";
    assert n[k - 3] == '.' && n[k - 2] == 'r' && n[k - 1] == 's';
    assert AsciiLower(f.path)[k - 3..] == ".rs";
  }

  /** A path of the runner's own is no file's of the bundle. */
  lemma OwnApart(env: Env, files: seq<CandidateFile>)
    requires ValidFiles(files) && ControllerFor(env, files).Some?
    ensures Apart(files + ControllerFor(env, files).value)
  {
    hide ControllerManifest, Harness, BinTarget, ValidFile, RustFiles, IsRust, IsJson;
    var own := ControllerFor(env, files).value;
    forall i, j | 0 <= i < j < |files| ensures Normalize(files[i].path) != Normalize(files[j].path) {
      assert PathKey(files[i]) != PathKey(files[j]);
    }
    forall f, g | f in files && g in own ensures Normalize(f.path) != Normalize(g.path) {
      var i :| 0 <= i < |files| && files[i] == f;
      OwnPath(env, files, g);
      if Normalize(f.path) == MANIFEST_NAME { ManifestKey(f); }
      if Normalize(f.path) == LIBRARY_NAME && Normalize(g.path) == LIBRARY_NAME {
        StandardIsRust(f);
        RustFilesAre(files);
        assert f in RustFiles(files);
      }
    }
    if |own| == 2 { OwnTwo(env, files); }
    assert forall k :: 0 <= k < |own| ==> own[k] in own;
  }

  lemma ManifestKey(f: CandidateFile)
    requires Normalize(f.path) == MANIFEST_NAME
    ensures IsCargoToml(f)
  {
    assert AsciiLower(MANIFEST_NAME) == "cargo.toml";
  }

  lemma OwnPath(env: Env, files: seq<CandidateFile>, g: CandidateFile)
    requires ControllerFor(env, files).Some? && g in ControllerFor(env, files).value
    ensures !HasCargoToml(files)
    ensures Normalize(g.path) == MANIFEST_NAME || (Normalize(g.path) == LIBRARY_NAME && RustFiles(files) == [])
  {
    hide ControllerManifest, Harness, BinTarget, IsRust, IsJson;
    assert Normalize(MANIFEST_NAME) == MANIFEST_NAME && Normalize(LIBRARY_NAME) == LIBRARY_NAME;
  }

  lemma OwnTwo(env: Env, files: seq<CandidateFile>)
    requires ControllerFor(env, files).Some? && |ControllerFor(env, files).value| == 2
    ensures Normalize(ControllerFor(env, files).value[0].path) != Normalize(ControllerFor(env, files).value[1].path)
  {
    hide ControllerManifest, Harness, BinTarget, IsRust, IsJson, RustFiles;
    assert |Normalize(MANIFEST_NAME)| == 10 && |Normalize(LIBRARY_NAME)| == 10;
    assert Normalize(MANIFEST_NAME)[0] == 'C' && Normalize(LIBRARY_NAME)[0] == 's';
  }

  /** A bundle can be laid out: no build script or cargo configuration, a target, no file inside another, the runner's
      own included, and a file named exactly Cargo.toml that asks for no dependency. */
  ghost predicate Buildable(env: Env, files: seq<CandidateFile>) {
    && NoneForbidden(files) && HasTarget(files) && ControllerFor(env, files).Some?
    && var all := files + ControllerFor(env, files).value;
       && NoneInside(all)
       && exists f :: f in all && Normalize(f.path) == "Cargo.toml" && env.dependencyFree(f.content)
  }

  lemma MaterializedExactly(env: Env, disk: Disk, dir: string, files: seq<CandidateFile>)
    requires ValidFiles(files) && Fresh(disk, dir)
    ensures Materialized(env, disk, dir, files).1 == None <==> Buildable(env, files)
    ensures Buildable(env, files) ==>
              Added(disk, Materialized(env, disk, dir, files).0, dir, files + ControllerFor(env, files).value)
  {
    hide Fresh, ControllerFor, HasTarget, NoneInside, NoneForbidden, WriteAll, FilesWritten, Normalize, Added,
         ValidFiles;
    OwnExactly(disk, dir, files);
    TargetExactly(env, files);
    if ControllerFor(env, files).Some? {
      var own := ControllerFor(env, files).value;
      TargetSupported(env, files);
      OwnApart(env, files);
      WriteAllJoin(disk, dir, files, own);
      WrittenExactly(disk, dir, files + own);
      if WriteAll(disk, dir, files + own).1 {
        ManifestAdded(env, disk, WriteAll(disk, dir, files + own).0, dir, files + own);
      }
    }
  }

  /** A bundle whose manifest is named otherwise, in the case of its letters, is written and then refused: the manifest
      that is read is not there. */
  lemma OddManifest(env: Env, disk: Disk, dir: string, files: seq<CandidateFile>)
    requires ValidFiles(files) && Fresh(disk, dir) && NoneForbidden(files) && NoneInside(files)
    requires HasCargoToml(files) && forall f :: f in files ==> Normalize(f.path) != "Cargo.toml"
    ensures Materialized(env, disk, dir, files).1 == Some(Io)
    ensures Added(disk, Materialized(env, disk, dir, files).0, dir, files)
  {
    hide Fresh, NoneInside, NoneForbidden, WriteAll, FilesWritten, Normalize, Added, ValidFiles, HasCargoToml,
         ProfileOf;
    OwnExactly(disk, dir, files);
    TargetSupported(env, files);
    OwnApart(env, files);
    assert files + [] == files;
    WrittenExactly(disk, dir, files);
    var written := FilesWritten(disk, dir, files).0;
    NoManifest(disk, written, dir, files);
    NothingMore(written, dir);
  }

  lemma NothingMore(disk: Disk, dir: string)
    ensures WriteAll(disk, dir, []) == (disk, true)
  {
  }

  lemma NoManifest(disk: Disk, after: Disk, dir: string, files: seq<CandidateFile>)
    requires Fresh(disk, dir) && Added(disk, after, dir, files)
    requires forall f :: f in files ==> Normalize(f.path) != "Cargo.toml"
    ensures dir + "/" + MANIFEST_NAME !in after
  {
    hide Normalize;
    assert dir + "/" <= dir + "/" + MANIFEST_NAME;
    forall f | f in files ensures Place(dir, f) != dir + "/" + MANIFEST_NAME {
      Beside(dir, Normalize(f.path), MANIFEST_NAME);
    }
  }

  /** The file at the manifest's place is the one named so. */
  lemma ManifestAdded(env: Env, disk: Disk, after: Disk, dir: string, files: seq<CandidateFile>)
    requires Fresh(disk, dir) && Added(disk, after, dir, files)
    ensures dir + "/" + MANIFEST_NAME in after && env.dependencyFree(after[dir + "/" + MANIFEST_NAME])
       <==> exists f :: f in files && Normalize(f.path) == "Cargo.toml" && env.dependencyFree(f.content)
  {
    hide Normalize;
    var p := dir + "/" + MANIFEST_NAME;
    if f :| f in files && Normalize(f.path) == "Cargo.toml" && env.dependencyFree(f.content) {
      assert Place(dir, f) == p;
    }
    if p in after {
      assert dir + "/" <= p;
      var f :| f in files && p == Place(dir, f);
      Beside(dir, MANIFEST_NAME, Normalize(f.path));
      assert after[p] == f.content;
    }
  }

  // ---- gates ----

  /** The gate passed: it ran in time and ended with code zero. */
  predicate GatePasses(g: GateOutcome) {
    g.Ran? && !g.timedOut && g.exitCode == 0
  }

  /** The gate started, and neither of its logs has more than four mebibytes. */
  predicate GateKept(g: GateOutcome) {
    g.Ran? && |Encode(g.stdout)| <= 4194304 && |Encode(g.stderr)| <= 4194304
  }

  /** Of the gate runs from `runs` on, at most `left`, each up to the first that does not pass can be kept. */
  predicate GatesKept(gate: nat -> GateOutcome, runs: nat, left: nat)
    decreases left
  {
    left == 0 || (GateKept(gate(runs)) && (GatePasses(gate(runs)) ==> GatesKept(gate, runs + 1, left - 1)))
  }

  /** How many of them run. */
  function GatesRun(gate: nat -> GateOutcome, runs: nat, left: nat): nat
    decreases left
  {
    if left == 0 then 0
    else if GateKept(gate(runs)) && GatePasses(gate(runs)) then 1 + GatesRun(gate, runs + 1, left - 1)
    else 1
  }

  /** No log's place is taken by a directory. */
  ghost predicate LogsFree(disk: Disk, dir: string) {
    forall p :: IsLog(dir, p) ==> !IsDir(disk, p)
  }

  lemma SlashBehind(p: string, s: string)
    requires p + "/" <= s
    ensures |p| < |s| && s[|p|] == '/'
  {
    assert (p + "/")[|p|] == '/';
  }

  predicate Flat(s: string) {
    forall i :: 0 <= i < |s| ==> s[i] != '/'
  }

  function LogName(k: nat, stream: string): string
    requires k < |GATE_NAMES|
  {
    "0" + Decimal(k + 1) + "-" + GATE_NAMES[k] + "." + stream + ".log"
  }

  lemma LogNameFlat(k: nat, stream: string)
    requires k < |GATE_NAMES| && stream in {"stdout", "stderr"}
    ensures Flat(LogName(k, stream))
  {
    hide Decimal;
    var name := GATE_NAMES[k];
    assert Flat(name) && Flat(stream) && Flat(Decimal(k + 1));
    assert Flat("0" + Decimal(k + 1)) && Flat("-" + name) && Flat("." + stream);
    assert LogName(k, stream) == ("0" + Decimal(k + 1)) + ("-" + name) + ("." + stream) + ".log";
    assert Flat(".log");
  }

  lemma LogText(dir: string, k: nat, stream: string)
    requires k < |GATE_NAMES| && stream in {"stdout", "stderr"}
    ensures dir + "/" <= LogPath(dir, k, stream)
    ensures forall i :: |dir| < i < |LogPath(dir, k, stream)| ==> LogPath(dir, k, stream)[i] != '/'
  {
    LogJoined(dir, k, stream);
    LogNameFlat(k, stream);
    hide *;
    FlatBehind(dir + "/", LogName(k, stream));
  }

  lemma LogJoined(dir: string, k: nat, stream: string)
    requires k < |GATE_NAMES|
    ensures LogPath(dir, k, stream) == (dir + "/") + LogName(k, stream)
  {
    hide Decimal;
  }

  lemma FlatBehind(dir: string, name: string)
    requires Flat(name)
    ensures dir <= dir + name && forall i :: |dir| <= i < |dir + name| ==> (dir + name)[i] != '/'
  {
  }

  lemma LogFlat(dir: string, k: nat, stream: string, p: string)
    requires k < |GATE_NAMES| && stream in {"stdout", "stderr"} && dir + "/" <= p
    ensures !(p + "/" <= LogPath(dir, k, stream))
  {
    hide LogPath;
    LogText(dir, k, stream);
    if p + "/" <= LogPath(dir, k, stream) { SlashBehind(p, LogPath(dir, k, stream)); }
  }

  lemma LogsFreeKept(disk: Disk, dir: string, k: nat, stream: string, text: string)
    requires k < |GATE_NAMES| && stream in {"stdout", "stderr"} && LogsFree(disk, dir)
    ensures LogsFree(disk[LogPath(dir, k, stream) := text], dir)
  {
    hide LogPath, Decimal;
    forall p | IsLog(dir, p) ensures !IsDir(disk[LogPath(dir, k, stream) := text], p) {
      LogUnder(dir, p);
      LogFlat(dir, k, stream, p);
    }
  }

  lemma LogUnder(dir: string, p: string)
    requires IsLog(dir, p)
    ensures dir + "/" <= p
  {
    hide LogPath;
    var k, stream :| 0 <= k < |GATE_NAMES| && stream in {"stdout", "stderr"} && p == LogPath(dir, k, stream);
    LogText(dir, k, stream);
  }

  /** The evidence is of this outcome. */
  predicate OfOutcome(c: CommandEvidence, g: GateOutcome) {
    g.Ran? && c.exitCode == g.exitCode && c.timedOut == g.timedOut
  }

  /** One gate leaves evidence exactly if it can be kept, and then of what it came to. */
  lemma GateExactly(env: Env, disk: Disk, dir: string, k: nat, g: GateOutcome)
    requires k < |GATE_NAMES| && LogsFree(disk, dir)
    ensures var (after, command) := GateEnds(env, disk, dir, k, g);
            && LogsFree(after, dir)
            && (command.Returned? <==> GateKept(g))
            && (command.Returned? ==> (command.value.Passed() <==> GatePasses(g)))
            && (command.Returned? ==> OfOutcome(command.value, g))
  {
    hide LogsFree, LogPath, Decimal, Encode, ByteLength;
    LogsNotDirs(disk, dir, k);
    if g.Ran? {
      EncodeLength(g.stdout);
      EncodeLength(g.stderr);
      LogsFreeKept(disk, dir, k, "stdout", g.stdout);
      LogsFreeKept(disk[LogPath(dir, k, "stdout") := g.stdout], dir, k, "stderr", g.stderr);
    } else {
      LogsFreeKept(disk, dir, k, "stdout", "");
      LogsFreeKept(disk[LogPath(dir, k, "stdout") := ""], dir, k, "stderr", "");
    }
  }

  lemma LogsNotDirs(disk: Disk, dir: string, k: nat)
    requires k < |GATE_NAMES| && LogsFree(disk, dir)
    ensures !IsDir(disk, LogPath(dir, k, "stdout")) && !IsDir(disk, LogPath(dir, k, "stderr"))
  {
    hide LogPath, Decimal;
    assert IsLog(dir, LogPath(dir, k, "stdout")) && IsLog(dir, LogPath(dir, k, "stderr"));
  }

  /** The evidence of the gates from `k` on is of the outcomes in their order. */
  ghost predicate OfOutcomes(commands: seq<CommandEvidence>, k: nat, gate: nat -> GateOutcome, runs: nat) {
    forall j :: k <= j < |commands| ==> OfOutcome(commands[j], gate(runs + (j - k)))
  }

  /** The gates leave evidence exactly if every one up to the first that does not pass can be kept; each runs once. */
  lemma {:induction false} GatesExactly(env: Env, gate: nat -> GateOutcome, disk: Disk, runs: nat, dir: string, k: nat,
                                        commands: seq<CommandEvidence>)
    requires k == |commands| <= |GATE_NAMES| && LogsFree(disk, dir)
    ensures var (after, ran, r) := GatesEnd(env, gate, disk, runs, dir, k, commands);
            && (r.Returned? <==> GatesKept(gate, runs, |GATE_NAMES| - k))
            && ran == runs + GatesRun(gate, runs, |GATE_NAMES| - k)
            && (r.Returned? ==> Follows(commands, r.value, k, gate, runs, ran - runs))
    decreases |GATE_NAMES| - k
  {
    hide GateEnds, GatesEnd, LogsFree, GateKept, GatePasses, OfOutcome, Follows;
    if k < |GATE_NAMES| {
      GatesEndStep(env, gate, disk, runs, dir, k, commands);
      GateExactly(env, disk, dir, k, gate(runs));
      var (after, command) := GateEnds(env, disk, dir, k, gate(runs));
      if command.Returned? {
        var more := commands + [command.value];
        OneFollows(commands, command.value, k, gate, runs);
        if GatePasses(gate(runs)) {
          GatesExactly(env, gate, after, runs + 1, dir, k + 1, more);
          var (_, ran, r) := GatesEnd(env, gate, after, runs + 1, dir, k + 1, more);
          if r.Returned? { FollowsJoin(commands, command.value, r.value, k, gate, runs, ran - (runs + 1)); }
        }
      }
    } else {
      GatesDone(env, gate, disk, runs, dir, commands);
      NoneFollows(commands, k, gate, runs);
    }
  }

  /** Behind the first `k` commands come `ran` more, of the outcomes from `runs` on. */
  ghost predicate Follows(front: seq<CommandEvidence>, all: seq<CommandEvidence>, k: nat, gate: nat -> GateOutcome,
                          runs: nat, ran: int) {
    k == |front| && |all| == k + ran && ran >= 0 && all[..k] == front && OfOutcomes(all, k, gate, runs)
  }

  lemma NoneFollows(commands: seq<CommandEvidence>, k: nat, gate: nat -> GateOutcome, runs: nat)
    requires k == |commands|
    ensures Follows(commands, commands, k, gate, runs, 0)
  {
    assert commands[..k] == commands;
  }

  lemma OneFollows(commands: seq<CommandEvidence>, c: CommandEvidence, k: nat, gate: nat -> GateOutcome, runs: nat)
    requires k == |commands| && OfOutcome(c, gate(runs))
    ensures Follows(commands, commands + [c], k, gate, runs, 1)
  {
    hide OfOutcome;
    assert runs + (k - k) == runs;
  }

  lemma FollowsJoin(front: seq<CommandEvidence>, c: CommandEvidence, all: seq<CommandEvidence>, k: nat,
                    gate: nat -> GateOutcome, runs: nat, ran: int)
    requires k == |front| && OfOutcome(c, gate(runs)) && Follows(front + [c], all, k + 1, gate, runs + 1, ran)
    ensures Follows(front, all, k, gate, runs, ran + 1)
  {
    hide OfOutcome;
    assert all[..k] == all[..k + 1][..k] == front && all[k] == all[..k + 1][k] == c;
    forall j | k <= j < |all| ensures OfOutcome(all[j], gate(runs + (j - k))) {
      if j == k {
        assert runs + (j - k) == runs;
      } else {
        assert runs + 1 + (j - (k + 1)) == runs + (j - k);
        assert OfOutcome(all[j], gate(runs + 1 + (j - (k + 1))));
      }
    }
  }

  // ---- a whole attempt ----

  /** Nothing but logs is added. */
  ghost predicate LogsAdded(before: Disk, after: Disk, dir: string) {
    (forall q :: q in before ==> q in after) && forall q :: q in after ==> q in before || IsLog(dir, q)
  }

  predicate HasLogs(disk: Disk, c: CommandEvidence) {
    c.stdoutPath in disk && c.stderrPath in disk
  }

  lemma GateLeaves(env: Env, disk: Disk, dir: string, k: nat, g: GateOutcome)
    requires k < |GATE_NAMES|
    ensures LogsAdded(disk, GateEnds(env, disk, dir, k, g).0, dir)
    ensures GateEnds(env, disk, dir, k, g).1.Returned? ==>
              HasLogs(GateEnds(env, disk, dir, k, g).0, GateEnds(env, disk, dir, k, g).1.value)
  {
    hide LogPath, ByteLength;
    assert IsLog(dir, LogPath(dir, k, "stdout")) && IsLog(dir, LogPath(dir, k, "stderr"));
  }

  lemma {:induction false} GatesLeave(env: Env, gate: nat -> GateOutcome, disk: Disk, runs: nat, dir: string, k: nat,
                                      commands: seq<CommandEvidence>)
    requires k == |commands| <= |GATE_NAMES|
    requires commands != [] ==> HasLogs(disk, commands[k - 1])
    ensures var (after, _, r) := GatesEnd(env, gate, disk, runs, dir, k, commands);
            LogsAdded(disk, after, dir)
            && (r.Returned? && r.value != [] ==> HasLogs(after, r.value[|r.value| - 1]))
    decreases |GATE_NAMES| - k
  {
    hide GateEnds, GatesEnd, LogsAdded, HasLogs;
    AddedNothing(disk, dir);
    if k < |GATE_NAMES| {
      GatesEndStep(env, gate, disk, runs, dir, k, commands);
      GateLeaves(env, disk, dir, k, gate(runs));
      var (after, command) := GateEnds(env, disk, dir, k, gate(runs));
      if command.Returned? && command.value.Passed() {
        var more := commands + [command.value];
        GatesLeave(env, gate, after, runs + 1, dir, k + 1, more);
        AddedTrans(disk, after, GatesEnd(env, gate, after, runs + 1, dir, k + 1, more).0, dir);
      }
    } else {
      GatesDone(env, gate, disk, runs, dir, commands);
    }
  }

  lemma AddedNothing(disk: Disk, dir: string)
    ensures LogsAdded(disk, disk, dir)
  {
  }

  lemma AddedTrans(a: Disk, b: Disk, c: Disk, dir: string)
    requires LogsAdded(a, b, dir) && LogsAdded(b, c, dir)
    ensures LogsAdded(a, c, dir)
  {
    hide IsLog;
  }

  lemma FreshCandidate(disk: Disk, dir: string)
    requires Fresh(disk, dir)
    ensures Fresh(disk, dir + "/candidate")
  {
    assert dir + "/candidate" + "/" == dir + "/" + "candidate/";
    forall q | q in disk ensures !(dir + "/candidate" + "/" <= q) && !(q + "/" <= dir + "/candidate" + "/") {
      InTheWay(dir, "candidate/", q);
    }
  }

  /** A path below the attempt's directory begins there with this character. */
  predicate Begins(dir: string, p: string, c: char) {
    |p| > |dir| + 1 && p[|dir| + 1] == c
  }

  lemma LogBegins(dir: string, p: string)
    requires IsLog(dir, p)
    ensures Begins(dir, p, '0')
  {
    hide Decimal;
    var k, stream :| 0 <= k < |GATE_NAMES| && stream in {"stdout", "stderr"} && p == LogPath(dir, k, stream);
    LogJoined(dir, k, stream);
    assert p[|dir| + 1] == LogName(k, stream)[0] == '0';
  }

  lemma CandidateBegins(dir: string, f: CandidateFile)
    ensures Begins(dir, Place(dir + "/candidate", f), 'c') && dir + "/" <= Place(dir + "/candidate", f)
  {
    hide Normalize;
    var p := Place(dir + "/candidate", f);
    assert p == dir + "/" + ("candidate" + "/" + Normalize(f.path));
  }

  lemma BelowBegins(dir: string, p: string, q: string, c: char)
    requires Begins(dir, p, c) && p <= q
    ensures Begins(dir, q, c)
  {
  }

  /** Candidate files leave the places of the logs free. */
  lemma FilesLeaveLogs(disk: Disk, after: Disk, dir: string, files: seq<CandidateFile>)
    requires Fresh(disk, dir) && Added(disk, after, dir + "/candidate", files)
    ensures LogsFree(after, dir)
  {
    hide IsLog, Place, Begins;
    forall p, q | IsLog(dir, p) && q in after ensures !(p + "/" <= q) {
      LogBegins(dir, p);
      LogUnder(dir, p);
      if q !in disk {
        var f :| f in files && q == Place(dir + "/candidate", f);
        CandidateBegins(dir, f);
      }
      if p + "/" <= q {
        assert p <= q;
        BelowBegins(dir, p, q, '0');
        BeginsOnce(dir, q, '0', 'c');
      }
    }
  }

  lemma BeginsOnce(dir: string, p: string, c: char, d: char)
    requires c != d && Begins(dir, p, c)
    ensures !Begins(dir, p, d)
  {
  }

  /** Candidate files and logs leave the place of the manifest free. */
  lemma FilesLeaveManifest(disk: Disk, written: Disk, logged: Disk, dir: string, files: seq<CandidateFile>,
                           text: string)
    requires Fresh(disk, dir) && Added(disk, written, dir + "/candidate", files) && LogsAdded(written, logged, dir)
    ensures Writable(logged, dir + "/attempt.json", text)
  {
    hide IsLog, Place, Begins;
    var path := dir + "/attempt.json";
    ManifestBegins(dir);
    forall q | q in logged ensures q != path && !(path + "/" <= q) && !(q + "/" <= path) {
      if q in disk {
        assert path == dir + "/" + "attempt.json";
        NotOnFresh(disk, dir, "attempt.json", q);
      } else {
        if IsLog(dir, q) {
          LogBegins(dir, q);
          LogUnder(dir, q);
        } else {
          var f :| f in files && q == Place(dir + "/candidate", f);
          CandidateBegins(dir, f);
        }
        BesideManifest(dir, q);
      }
    }
  }

  lemma ManifestBegins(dir: string)
    ensures Begins(dir, dir + "/attempt.json", 'a')
    ensures forall i :: |dir| < i < |dir + "/attempt.json"| ==> (dir + "/attempt.json")[i] != '/'
  {
    assert dir + "/attempt.json" == (dir + "/") + "attempt.json";
    FlatBehind(dir + "/", "attempt.json");
  }

  lemma BesideManifest(dir: string, q: string)
    requires dir + "/" <= q && (Begins(dir, q, '0') || Begins(dir, q, 'c'))
    ensures q != dir + "/attempt.json" && !(dir + "/attempt.json" + "/" <= q) && !(q + "/" <= dir + "/attempt.json")
  {
    hide Begins;
    var path := dir + "/attempt.json";
    ManifestBegins(dir);
    var c := if Begins(dir, q, '0') then '0' else 'c';
    BeginsOnce(dir, q, c, 'a');
    if path + "/" <= q {
      assert path <= q;
      BelowBegins(dir, path, q, 'a');
    }
    if q + "/" <= path { SlashBehind(q, path); }
  }

  /** Where nothing of an attempt is yet, it can be built exactly if its bundle can be laid out and every gate up to the
      first that does not pass can be kept. Gates run for a bundle that can be laid out only, each once and in order,
      and the attempt passed exactly if all three did. */
  lemma BuildExactly(env: Env, gate: nat -> GateOutcome, disk: Disk, runs: nat, plan: string, n: nat,
                     files: seq<CandidateFile>)
    requires ValidFiles(files) && n <= 32 && Fresh(disk, AttemptDir(env, plan, n))
    ensures var (_, ran, r) := BuildEnds(env, gate, disk, runs, plan, n, files);
            && (r.Returned? <==> Buildable(env, files) && GatesKept(gate, runs, 3))
            && ran == runs + (if Buildable(env, files) then GatesRun(gate, runs, 3) else 0)
            && (r.Returned? ==>
                  && |r.value.commands| == ran - runs && OfOutcomes(r.value.commands, 0, gate, runs)
                  && (r.value.passed <==> GatePasses(gate(runs)) && GatePasses(gate(runs + 1))
                                          && GatePasses(gate(runs + 2))))
  {
    hide Fresh, AttemptDir, Materialized, GatedEnds, GatesKept, NoneForbidden, NoneInside, HasTarget,
         GatesRun, OfOutcomes, ValidFiles, Added, ControllerFor, GatePasses;
    var dir := AttemptDir(env, plan, n);
    FreshCandidate(disk, dir);
    MaterializedExactly(env, disk, dir + "/candidate", files);
    if Buildable(env, files) {
      var all := files + ControllerFor(env, files).value;
      var written := Materialized(env, disk, dir + "/candidate", files).0;
      GatedExactly(env, gate, disk, written, runs, plan, n, files, all);
    }
  }

  lemma GatedExactly(env: Env, gate: nat -> GateOutcome, disk: Disk, written: Disk, runs: nat, plan: string, n: nat,
                     files: seq<CandidateFile>, all: seq<CandidateFile>)
    requires n <= 32 && Fresh(disk, AttemptDir(env, plan, n)) && ControllerFor(env, files).Some?
    requires Added(disk, written, CandidateDir(env, plan, n), all)
    ensures var (_, ran, r) := GatedEnds(env, gate, written, runs, plan, n, files);
            && (r.Returned? <==> GatesKept(gate, runs, 3))
            && ran == runs + GatesRun(gate, runs, 3)
            && (r.Returned? ==>
                  && |r.value.commands| == ran - runs && OfOutcomes(r.value.commands, 0, gate, runs)
                  && (r.value.passed <==> GatePasses(gate(runs)) && GatePasses(gate(runs + 1))
                                          && GatePasses(gate(runs + 2))))
  {
    hide Fresh, AttemptDir, GatesEnd, GatesKept, GatesRun, OfOutcomes, Added, ControllerFor, GatePasses, LogsFree,
         LogsAdded, HasLogs, AttemptOf, RecordEnds, Writable, AttemptText, Follows;
    var dir := AttemptDir(env, plan, n);
    FilesLeaveLogs(disk, written, dir, all);
    GatesExactly(env, gate, written, runs, dir, 0, []);
    GatesLeave(env, gate, written, runs, dir, 0, []);
    var (logged, ran, r) := GatesEnd(env, gate, written, runs, dir, 0, []);
    if r.Returned? {
      KeptCommands(r.value, gate, runs, ran - runs);
      AttemptSome(env, logged, plan, n, files, r.value);
      var a := AttemptOf(env, logged, plan, n, files, r.value).value;
      MadeShape(env, logged, plan, n, files, r.value);
      FilesLeaveManifest(disk, written, logged, dir, all, AttemptText(a));
      RecordKept(env, logged, dir + "/attempt.json", a);
    }
  }

  lemma RecordKept(env: Env, disk: Disk, path: string, a: Attempt)
    requires Writable(disk, path, AttemptText(a))
    ensures var r := RecordEnds(env, disk, path, a).1;
            r.Returned? && r.value.commands == a.commands && r.value.passed == a.passed
  {
    hide Writable, AttemptText;
  }

  lemma AttemptSome(env: Env, disk: Disk, plan: string, n: nat, files: seq<CandidateFile>,
                    commands: seq<CommandEvidence>)
    requires ControllerFor(env, files).Some? && n <= 32 && commands != []
    requires HasLogs(disk, commands[|commands| - 1])
    ensures AttemptOf(env, disk, plan, n, files, commands).Some?
  {
    hide ControllerFor, BundleHash, EvidenceList, FailureText, CandidateDir;
  }

  /** The commands a kept run of gates leaves, and whether all three passed. */
  lemma KeptCommands(commands: seq<CommandEvidence>, gate: nat -> GateOutcome, runs: nat, ran: int)
    requires Follows([], commands, 0, gate, runs, ran) && ran == GatesRun(gate, runs, 3) && GatesKept(gate, runs, 3)
    ensures |commands| == ran && 1 <= ran <= 3 && OfOutcomes(commands, 0, gate, runs)
    ensures |commands| == |GATE_NAMES| && commands[ran - 1].Passed()
       <==> GatePasses(gate(runs)) && GatePasses(gate(runs + 1)) && GatePasses(gate(runs + 2))
  {
    ThreeRun(gate, runs);
    assert OfOutcome(commands[ran - 1], gate(runs + (ran - 1 - 0)));
  }

  lemma ThreeRun(gate: nat -> GateOutcome, runs: nat)
    requires GatesKept(gate, runs, 3)
    ensures var ran := GatesRun(gate, runs, 3);
            && 1 <= ran <= 3
            && (ran == 3 <==> GatePasses(gate(runs)) && GatePasses(gate(runs + 1)))
            && (ran < 3 ==> !GatePasses(gate(runs)) || !GatePasses(gate(runs + 1)))
  {
    hide GatePasses, GateKept;
    assert GatesKept(gate, runs, 3) <==>
             GateKept(gate(runs)) && (GatePasses(gate(runs)) ==> GatesKept(gate, runs + 1, 2));
    assert GatesKept(gate, runs + 1, 2) <==>
             GateKept(gate(runs + 1)) && (GatePasses(gate(runs + 1)) ==> GatesKept(gate, runs + 2, 1));
    assert GatesRun(gate, runs + 2, 1) == 1;
  }
}
