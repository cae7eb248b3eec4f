/** The runner and the store agree: what the runner builds, the store's checker accepts, unless the
    controller's text for an unsound JSON bundle cannot be recomputed or gates passed such a bundle. */
module VerificationAgreement {
  import opened Text
  import opened Utf8
  import Secrets
  import opened JsonReading
  import opened JsonParser
  import opened JsonRecords
  import opened VerificationModel
  import opened VerificationStore
  import opened VerificationManifests
  import opened VerificationRunner

  // ---- lengths ----

  function Power10(k: nat): nat {
    if k == 0 then 1 else 10 * Power10(k - 1)
  }

  lemma {:induction false} DecimalLength(n: nat, k: nat)
    requires 0 < k && n < Power10(k)
    ensures |Decimal(n)| <= k
  {
    if n >= 10 {
      assert Power10(1) == 10 * Power10(0);
      DecimalLength(n / 10, k - 1);
    }
  }

  lemma {:induction false} ByteTotalBound(files: seq<CandidateFile>)
    requires forall i :: 0 <= i < |files| ==> ByteLength(files[i].content) <= MAX_CANDIDATE_FILE_BYTES
    ensures ByteTotal(files) <= |files| * MAX_CANDIDATE_FILE_BYTES
  {
    if files != [] { ByteTotalBound(files[..|files| - 1]); }
  }

  lemma {:induction false} TomlEscapeLength(s: string)
    ensures |TomlEscape(s)| <= 2 * |s|
  {
    if s != "" { TomlEscapeLength(s[1..]); }
  }

  // ---- paths ----

  lemma {:induction false} LonePart(s: string)
    requires '/' !in s
    ensures Parts(s) == [s]
  {
    if s != "" {
      LonePart(s[1..]);
      assert [s[0]] + s[1..] == s;
    }
  }

  lemma {:induction false} FirstPart(a: string, b: string)
    requires '/' !in a
    ensures Parts(a + ("/" + b)) == [a] + Parts(b)
  {
    var s := a + ("/" + b);
    if a == "" {
      assert s == "/" + b;
      assert s[1..] == b;
    } else {
      FirstPart(a[1..], b);
      assert s[1..] == a[1..] + ("/" + b);
      assert [a[0]] + a[1..] == a;
    }
  }

  predicate NoControl(s: string) {
    forall i :: 0 <= i < |s| ==> !IsControl(s[i])
  }

  lemma {:induction false} PartsNoControl(s: string)
    requires forall i :: 0 <= i < |Parts(s)| ==> NoControl(Parts(s)[i])
    ensures NoControl(s)
  {
    if s != "" {
      var rest := Parts(s[1..]);
      forall i | 0 <= i < |rest| ensures NoControl(rest[i]) {
        if s[0] == '/' {
          assert Parts(s)[i + 1] == rest[i];
        } else if i == 0 {
          assert Parts(s)[0] == [s[0]] + rest[0];
          forall j | 0 <= j < |rest[0]| ensures !IsControl(rest[0][j]) { assert Parts(s)[0][j + 1] == rest[0][j]; }
        } else {
          assert Parts(s)[i] == rest[i];
        }
      }
      PartsNoControl(s[1..]);
      if s[0] != '/' { assert Parts(s)[0][0] == s[0]; }
      forall i | 0 <= i < |s| ensures !IsControl(s[i]) {
        if i > 0 { assert s[i] == s[1..][i - 1]; }
      }
    }
  }

  lemma ValidPathClean(path: string)
    requires ValidRelativePath(path)
    ensures IsClean(Normalize(path))
  {
    var parts := Parts(Normalize(path));
    forall i | 0 <= i < |parts| ensures NoControl(parts[i]) { assert SafePart(parts[i]); }
    PartsNoControl(Normalize(path));
  }

  /** Letters and dots only, and not just dots. */
  predicate PlainPart(s: string) {
    && 0 < |s| <= 20 && 'a' <= AsciiLower(s)[0] <= 'z'
    && forall i :: 0 <= i < |s| ==> 'a' <= AsciiLower(s)[i] <= 'z' || s[i] == '.'
  }

  lemma OnePartValid(s: string)
    requires PlainPart(s)
    ensures ValidRelativePath(s) == true && Normalize(s) == s
  {
    assert Normalize(s) == s;
    LonePart(s);
    ByteBounds(s);
  }

  lemma TwoPartsValid(a: string, b: string)
    requires PlainPart(a) && PlainPart(b)
    ensures ValidRelativePath(a + ("/" + b)) == true && Normalize(a + ("/" + b)) == a + ("/" + b)
  {
    hide Parts;
    var s := a + ("/" + b);
    assert Normalize(s) == s;
    LonePart(b);
    FirstPart(a, b);
    assert Parts(s) == [a, b] && SafePart(a) && SafePart(b);
    ByteBounds(s);
    forall i | 0 <= i < |s| ensures s[i] != ':' {
      if i < |a| { assert s[i] == a[i]; } else if i > |a| { assert s[i] == b[i - |a| - 1]; }
    }
    assert s[0] == a[0];
  }

  lemma ControllerPathsValid()
    ensures ValidRelativePath(MANIFEST_NAME) == true && Normalize(MANIFEST_NAME) == MANIFEST_NAME
    ensures ValidRelativePath(LIBRARY_NAME) == true && Normalize(LIBRARY_NAME) == LIBRARY_NAME
  {
    OnePartValid(MANIFEST_NAME);
    TwoPartsValid("src", "lib.rs");
    assert "src" + ("/" + "lib.rs") == "src/lib.rs";
  }

  lemma {:induction false} LastSlashJoin(dir: string, name: string)
    requires '/' !in name
    ensures LastSlash(dir + ("/" + name)) == |dir|
  {
    var p := dir + ("/" + name);
    if name == "" {
      assert p[|p| - 1] == '/';
    } else {
      var short := name[..|name| - 1];
      LastSlashJoin(dir, short);
      assert p[..|p| - 1] == dir + ("/" + short);
      assert p[|p| - 1] == name[|name| - 1];
    }
  }

  lemma ParentOf(dir: string, name: string)
    requires '/' !in name
    ensures Parent(dir + ("/" + name)) == dir && FileName(dir + ("/" + name)) == name
  {
    LastSlashJoin(dir, name);
  }

  lemma AttemptNamePlain(n: nat)
    ensures '/' !in AttemptName(n)
  {
  }

  lemma ParentOfJoined(dir: string, slashed: string, name: string)
    requires '/' !in name && slashed == "/" + name
    ensures Parent(dir + slashed) == dir && FileName(dir + slashed) == name
  {
    ParentOf(dir, name);
  }

  lemma ManifestParts(dir: string)
    ensures Parent(dir + "/attempt.json") == dir && FileName(dir + "/attempt.json") == "attempt.json"
  {
    ParentOfJoined(dir, "/attempt.json", "attempt.json");
  }

  lemma CandidateParts(dir: string)
    ensures Parent(dir + "/candidate") == dir && FileName(dir + "/candidate") == "candidate"
  {
    ParentOfJoined(dir, "/candidate", "candidate");
  }

  lemma AttemptDirParts(env: Env, plan: string, n: nat)
    ensures FileName(AttemptDir(env, plan, n)) == AttemptName(n)
    ensures Parent(AttemptDir(env, plan, n)) == PlanDir(env, plan)
  {
    AttemptNamePlain(n);
    ParentOf(PlanDir(env, plan), AttemptName(n));
    assert PlanDir(env, plan) + "/" + AttemptName(n) == PlanDir(env, plan) + ("/" + AttemptName(n));
  }

  // ---- what a normalised bundle keeps ----

  lemma NormalizedKeeps(f: CandidateFile)
    ensures PathKey(Normalized(f)) == PathKey(f) && FileBlock(Normalized(f)) == FileBlock(f)
    ensures IsStandardTarget(Normalized(f)) == IsStandardTarget(f)
    ensures ValidFile(Normalized(f)) == ValidFile(f)
  {
    NormalizeTwice(f.path);
  }

  /** A suffix without slashes survives normalisation, and no other appears. */
  lemma SuffixKept(path: string, suffix: string)
    requires '/' !in suffix && '\\' !in suffix
    ensures EndsWith(AsciiLower(Normalize(path)), suffix) == EndsWith(AsciiLower(path), suffix)
  {
    var p, q := AsciiLower(path), AsciiLower(Normalize(path));
    if |suffix| <= |path| {
      var n := |path| - |suffix|;
      if EndsWith(p, suffix) {
        forall i | 0 <= i < |suffix| ensures q[n..][i] == suffix[i] { assert p[n..][i] == suffix[i]; }
      }
      if EndsWith(q, suffix) {
        forall i | 0 <= i < |suffix| ensures p[n..][i] == suffix[i] { assert q[n..][i] == suffix[i]; }
      }
    }
  }

  lemma KindKept(f: CandidateFile)
    ensures IsRust(Normalized(f)) == IsRust(f) && IsJson(Normalized(f)) == IsJson(f)
  {
    SuffixKept(f.path, ".rs");
    SuffixKept(f.path, ".json");
  }

  lemma {:induction false} RustKept(files: seq<CandidateFile>)
    ensures RustFiles(NormalizedFiles(files)) == NormalizedFiles(RustFiles(files))
  {
    if files == [] {
      assert NormalizedFiles(files) == [];
    } else {
      var n := |files| - 1;
      RustKept(files[..n]);
      KindKept(files[n]);
      assert NormalizedFiles(files)[..n] == NormalizedFiles(files[..n]);
      var tail := if IsRust(files[n]) then [files[n]] else [];
      assert NormalizedFiles(RustFiles(files[..n]) + tail)
             == NormalizedFiles(RustFiles(files[..n])) + NormalizedFiles(tail);
    }
  }

  lemma {:induction false} BlocksKept(files: seq<CandidateFile>)
    ensures Blocks(NormalizedFiles(files)) == Blocks(files) && ByteTotal(NormalizedFiles(files)) == ByteTotal(files)
  {
    if files != [] {
      var n := |files| - 1;
      BlocksKept(files[..n]);
      NormalizedKeeps(files[n]);
      assert NormalizedFiles(files)[..n] == NormalizedFiles(files[..n]);
    }
  }

  lemma TargetsKept(files: seq<CandidateFile>)
    ensures HasCargoToml(NormalizedFiles(files)) == HasCargoToml(files)
    ensures HasStandardTarget(NormalizedFiles(files)) == HasStandardTarget(files)
  {
    var norm := NormalizedFiles(files);
    forall i | 0 <= i < |files| ensures IsCargoToml(norm[i]) == IsCargoToml(files[i])
      && IsStandardTarget(norm[i]) == IsStandardTarget(files[i])
    {
      NormalizedKeeps(files[i]);
    }
    if HasCargoToml(files) {
      var i :| 0 <= i < |files| && IsCargoToml(files[i]);
      assert IsCargoToml(norm[i]);
    }
    if HasStandardTarget(files) {
      var i :| 0 <= i < |files| && IsStandardTarget(files[i]);
      assert IsStandardTarget(norm[i]);
    }
  }

  ghost predicate AllJson(files: seq<CandidateFile>) {
    forall i :: 0 <= i < |files| ==> IsJson(files[i])
  }

  lemma AllJsonKept(files: seq<CandidateFile>)
    ensures AllJson(NormalizedFiles(files)) == AllJson(files)
  {
    hide IsJson;
    var norm := NormalizedFiles(files);
    forall i | 0 <= i < |files| ensures IsJson(norm[i]) == IsJson(files[i]) { KindKept(files[i]); }
    if AllJson(norm) {
      forall i | 0 <= i < |files| ensures IsJson(files[i]) { assert IsJson(norm[i]); }
    }
  }

  ghost predicate AllParse(files: seq<CandidateFile>) {
    forall i :: 0 <= i < |files| ==> ResultOf(files[i].content).Parsed?
  }

  lemma AllParseKept(files: seq<CandidateFile>)
    ensures AllParse(NormalizedFiles(files)) == AllParse(files)
  {
    hide ResultOf;
    var norm := NormalizedFiles(files);
    if AllParse(norm) {
      forall i | 0 <= i < |files| ensures ResultOf(files[i].content).Parsed? {
        assert ResultOf(norm[i].content).Parsed?;
      }
    }
  }

  lemma ProfileBy(files: seq<CandidateFile>)
    ensures ProfileOf(files) == if HasCargoToml(files) || RustFiles(files) != [] then RustProfile
                                else if AllJson(files) then JsonProfile else Unsupported
    ensures JsonSound(files) == (ProfileOf(files) == JsonProfile ==> AllParse(files))
  {
    hide HasCargoToml, RustFiles, IsJson, ResultOf;
  }

  lemma ProfileKept(files: seq<CandidateFile>)
    ensures ProfileOf(NormalizedFiles(files)) == ProfileOf(files)
    ensures JsonSound(NormalizedFiles(files)) == JsonSound(files)
  {
    hide *;
    TargetsKept(files);
    RustKept(files);
    AllJsonKept(files);
    AllParseKept(files);
    ProfileBy(files);
    ProfileBy(NormalizedFiles(files));
    SameSize(RustFiles(files));
  }

  lemma SameSize(files: seq<CandidateFile>)
    ensures NormalizedFiles(files) == [] <==> files == []
  {
  }

  lemma BundleKept(env: Env, files: seq<CandidateFile>)
    requires ValidFiles(files)
    ensures ValidFiles(NormalizedFiles(files)) && BundleHash(env, NormalizedFiles(files)) == BundleHash(env, files)
  {
    var norm := NormalizedFiles(files);
    forall i | 0 <= i < |files| ensures ValidFile(norm[i]) && PathKey(norm[i]) == PathKey(files[i]) {
      NormalizedKeeps(files[i]);
    }
    BlocksKept(files);
  }

  // ---- the controller's files ----

  lemma ManifestValid(extra: string)
    requires |extra| <= 2000
    ensures ValidFile(CandidateFile(MANIFEST_NAME, ControllerManifest(extra))) == true
  {
    ControllerPathsValid();
    ByteBounds(ControllerManifest(extra));
  }

  lemma BinTargetLength(path: string)
    requires ValidRelativePath(path)
    ensures |BinTarget(path)| <= 2000
  {
    ByteBounds(Normalize(path));
    TomlEscapeLength(Normalize(path));
  }

  lemma LibraryValid(content: string)
    requires content != "" && ByteLength(content) <= MAX_CANDIDATE_FILE_BYTES
    ensures ValidFile(CandidateFile(LIBRARY_NAME, content)) == true
  {
    ControllerPathsValid();
  }

  lemma HarnessValid(env: Env, files: seq<CandidateFile>)
    requires ValidFiles(files) && JsonSound(files)
    ensures ValidFile(CandidateFile(LIBRARY_NAME, Harness(env, files))) == true
  {
    hide SoundHarness;
    forall i | 0 <= i < |files| ensures ByteLength(files[i].content) <= MAX_CANDIDATE_FILE_BYTES {
      assert ValidFile(files[i]);
    }
    ByteTotalBound(files);
    assert ByteTotal(files) <= MAX_CANDIDATE_FILES * MAX_CANDIDATE_FILE_BYTES;
    SevenDigits();
    DecimalLength(|files|, 7);
    DecimalLength(ByteTotal(files), 7);
    SoundHarnessShort(|files|, ByteTotal(files));
    LibraryValid(SoundHarness(|files|, ByteTotal(files)));
  }

  lemma SevenDigits()
    ensures Power10(7) == 10000000
  {
    assert Power10(3) == 1000;
    assert Power10(6) == 1000000;
  }

  lemma HarnessParts()
    ensures 0 < |HARNESS_FILES| <= 80 && |HARNESS_BYTES| <= 80 && |HARNESS_TEST| <= 80
    ensures |HARNESS_NAME| <= 80 && |HARNESS_FIRST| <= 80 && |HARNESS_SECOND| <= 80
  {
  }

  lemma SoundHarnessShort(count: nat, bytes: nat)
    requires |Decimal(count)| <= 7 && |Decimal(bytes)| <= 7
    ensures 0 < |SoundHarness(count, bytes)| && ByteLength(SoundHarness(count, bytes)) <= MAX_CANDIDATE_FILE_BYTES
  {
    hide Decimal, ByteLength;
    HarnessParts();
    ByteBounds(SoundHarness(count, bytes));
  }

  // ---- the crate that refuses ----

  /** Hashes are tags, and a character is quoted by at most ten bytes. */
  ghost predicate Grounded(env: Env) {
    && (forall s :: ValidTag(env.hash(s)))
    && (forall c :: ByteLength(env.quote(c)) <= 10)
  }

  lemma {:induction false} QuotedLength(env: Env, s: string)
    requires Grounded(env)
    ensures ByteLength(QuotedText(env, s)) <= 10 * |s|
  {
    if s != "" {
      QuotedLength(env, s[1..]);
      ByteLengthJoin(env.quote(s[0]), QuotedText(env, s[1..]));
    }
  }

  lemma MessagesShort(problem: Problem)
    ensures |MessageOf(problem)| <= 50
  {
  }

  lemma ErrorOffset(text: string)
    requires ResultOf(text).Rejected?
    ensures ResultOf(text).error.offset <= ByteLength(text)
  {
    hide ReadText;
    var rest := ReadText(text).1;
    var k := |text| - |rest|;
    ByteLengthJoin(text[..k], text[k..]);
    assert text == text[..k] + text[k..];
  }

  lemma {:induction false} RejectedFile(files: seq<CandidateFile>)
    requires FirstRejected(files).Some?
    ensures var r := FirstRejected(files).value;
            r.0 in files && ResultOf(r.0.content).Rejected? && ResultOf(r.0.content).error == r.1
  {
    hide ResultOf;
    if !ResultOf(files[0].content).Rejected? { RejectedFile(files[1..]); }
  }

  lemma PathBytes(path: string)
    requires ValidRelativePath(path)
    ensures ByteLength(path) <= 240
  {
    SameBytes(path);
  }

  lemma {:induction false} SameBytes(path: string)
    ensures ByteLength(Normalize(path)) == ByteLength(path)
  {
    if path != "" {
      SameBytes(path[..|path| - 1]);
      assert Normalize(path)[..|path| - 1] == Normalize(path[..|path| - 1]);
    }
  }

  /** The reason is far shorter than what `clean_failure` cuts off. */
  lemma FailureShort(files: seq<CandidateFile>)
    requires ValidFiles(files)
    ensures ByteLength(JsonFailure(files)) <= 7700
  {
    hide CleanFailure, ErrorText, ResultOf, ValidRelativePath;
    if FirstRejected(files).Some? {
      var r := FirstRejected(files).value;
      RejectedFile(files);
      ReasonShort(r.0, r.1);
    }
  }

  lemma ReasonShort(f: CandidateFile, e: JsonError)
    requires ValidFile(f) && ResultOf(f.content).Rejected? && ResultOf(f.content).error == e
    ensures ByteLength(CleanFailure("JSON file " + f.path + " failed strict parsing: " + ErrorText(e))) <= 7700
  {
    hide Secrets.Redacted, ResultOf, ErrorText, ByteLength, Fitting, ValidRelativePath;
    var start, rest := "JSON file ", " failed strict parsing: " + ErrorText(e);
    ErrorOffset(f.content);
    ErrorShort(e);
    PathBytes(f.path);
    ByteBounds(start);
    ByteBounds(rest);
    ByteLengthJoin(start, f.path);
    ByteLengthJoin(start + f.path, rest);
    var whole := "JSON file " + f.path + " failed strict parsing: " + ErrorText(e);
    assert whole == (start + f.path) + rest;
    Secrets.RedactedLength(whole);
  }

  lemma ErrorShort(e: JsonError)
    requires e.offset <= MAX_CANDIDATE_FILE_BYTES
    ensures |ErrorText(e)| <= 78
  {
    hide Decimal, MessageOf;
    SevenDigits();
    DecimalLength(e.offset, 7);
    MessagesShort(e.problem);
  }

  /** The crate that refuses an unsound bundle is a valid candidate file. */
  lemma RefusalValid(env: Env, files: seq<CandidateFile>)
    requires Grounded(env) && ValidFiles(files)
    ensures ValidFile(CandidateFile(LIBRARY_NAME, Refusal(env, files))) == true
  {
    hide JsonFailure, ByteLength, ValidRelativePath;
    var failure := JsonFailure(files);
    FailureShort(files);
    ByteBounds(failure);
    QuotedLength(env, failure);
    var start, quoted, rest := "#![forbid(unsafe_code)]\ncompile_error!(\"", QuotedText(env, failure), "\");\n";
    ByteBounds(start);
    ByteBounds(rest);
    ByteLengthJoin(start, quoted);
    ByteLengthJoin(start + quoted, rest);
    LibraryValid(Refusal(env, files));
  }

  lemma HarnessFits(env: Env, files: seq<CandidateFile>)
    requires Grounded(env) && ValidFiles(files)
    ensures ValidFile(CandidateFile(LIBRARY_NAME, Harness(env, files))) == true
  {
    hide Refusal, SoundHarness;
    if JsonSound(files) { HarnessValid(env, files); } else { RefusalValid(env, files); }
  }

  /** The checker can recompute what the controller wrote for this bundle: the reason names the file as it was given,
      but the checker knows it with forward slashes. */
  predicate Recomputes(env: Env, files: seq<CandidateFile>) {
    JsonSound(files) || Refusal(env, NormalizedFiles(files)) == Refusal(env, files)
  }

  /** The checker expects exactly the controller files the runner wrote, when they can be recomputed at all. */
  lemma ControllersAgree(env: Env, files: seq<CandidateFile>)
    requires Grounded(env) && ValidFiles(files) && ControllerFor(env, files).Some?
    ensures var norm := NormalizedFiles(files);
            ExpectedController(env, ProfileOf(norm), norm) == ControllerFor(env, files) <==> Recomputes(env, files)
  {
    hide ControllerManifest, SoundHarness, Refusal;
    TargetsKept(files);
    ProfileKept(files);
    if !HasCargoToml(files) {
      if ProfileOf(files) == JsonProfile { HarnessAgrees(env, files); } else { TargetAgrees(env, files); }
    }
  }

  lemma HarnessAgrees(env: Env, files: seq<CandidateFile>)
    requires Grounded(env) && ValidFiles(files) && !HasCargoToml(files) && ProfileOf(files) == JsonProfile
    ensures var norm := NormalizedFiles(files);
            !HasCargoToml(norm) && ProfileOf(norm) == JsonProfile
            && (ExpectedController(env, JsonProfile, norm) == ControllerFor(env, files) <==> Recomputes(env, files))
  {
    hide ControllerManifest, SoundHarness, ByteTotal, Refusal;
    var norm := NormalizedFiles(files);
    TargetsKept(files);
    ProfileKept(files);
    BlocksKept(files);
    BundleKept(env, files);
    ManifestValid("");
    HarnessFits(env, norm);
    var manifest := CandidateFile(MANIFEST_NAME, ControllerManifest(""));
    var written := CandidateFile(LIBRARY_NAME, Harness(env, files));
    var expected := CandidateFile(LIBRARY_NAME, Harness(env, norm));
    assert ControllerFor(env, files).value[1] == written;
    assert ExpectedController(env, JsonProfile, norm) == Some([manifest, expected]);
  }

  lemma TargetAgrees(env: Env, files: seq<CandidateFile>)
    requires ValidFiles(files) && ControllerFor(env, files).Some? && !HasCargoToml(files)
             && ProfileOf(files) != JsonProfile
    ensures var norm := NormalizedFiles(files);
            ExpectedController(env, ProfileOf(norm), norm) == ControllerFor(env, files)
  {
    hide ControllerManifest, SoundHarness, Refusal, ValidRelativePath;
    var norm := NormalizedFiles(files);
    TargetsKept(files);
    ProfileKept(files);
    RustKept(files);
    if HasStandardTarget(files) {
      ManifestValid("");
    } else {
      var f := RustFiles(files)[0];
      RustFrom(files);
      NormalizeTwice(f.path);
      assert RustFiles(norm)[0].path == Normalize(f.path);
      assert BinTarget(Normalize(f.path)) == BinTarget(f.path);
      BinTargetLength(f.path);
      ManifestValid(BinTarget(f.path));
    }
  }

  lemma {:induction false} RustFrom(files: seq<CandidateFile>)
    ensures forall i :: 0 <= i < |RustFiles(files)| ==> RustFiles(files)[i] in files
  {
    if files != [] { RustFrom(files[..|files| - 1]); }
  }

  // ---- the evidence ----

  /** What the checker needs of its surroundings besides: a root whose path a manifest can hold. */
  ghost predicate Sane(env: Env) {
    Grounded(env) && IsClean(env.root)
  }

  lemma EvidenceMatches(env: Env, disk: Disk, dir: string, files: seq<CandidateFile>, controller: bool)
    requires Grounded(env) && OnDisk(disk, dir, files) && forall i :: 0 <= i < |files| ==> ValidFile(files[i])
    ensures forall i :: 0 <= i < |files| ==> FileMatches(env, disk, dir, EvidenceList(env, files, controller)[i])
  {
    forall i | 0 <= i < |files| ensures FileMatches(env, disk, dir, EvidenceList(env, files, controller)[i]) {
      assert EvidenceList(env, files, controller)[i] == EvidenceFor(env, files[i], controller);
      NormalizedKeeps(files[i]);
      NormalizeTwice(files[i].path);
      assert ValidFile(files[i]);
      assert ValidTag(env.hash(files[i].content));
    }
  }

  lemma {:induction false} RebuildJoin(disk: Disk, dir: string, xs: seq<FileEvidence>, ys: seq<FileEvidence>,
                                       controller: bool)
    ensures Rebuild(disk, dir, xs + ys, controller)
            == Rebuild(disk, dir, xs, controller) + Rebuild(disk, dir, ys, controller)
  {
    if ys == [] {
      assert xs + ys == xs;
    } else {
      var n := |ys| - 1;
      RebuildJoin(disk, dir, xs, ys[..n], controller);
      assert (xs + ys)[..|xs + ys| - 1] == xs + ys[..n];
    }
  }

  lemma {:induction false} RebuildOwn(env: Env, disk: Disk, dir: string, files: seq<CandidateFile>, controller: bool)
    requires OnDisk(disk, dir, files)
    ensures Rebuild(disk, dir, EvidenceList(env, files, controller), controller) == NormalizedFiles(files)
    ensures Rebuild(disk, dir, EvidenceList(env, files, controller), !controller) == []
  {
    if files == [] {
      assert EvidenceList(env, files, controller) == [] && NormalizedFiles(files) == [];
    } else {
      var n := |files| - 1;
      var evidence := EvidenceList(env, files, controller);
      RebuildOwn(env, disk, dir, files[..n], controller);
      assert evidence[..n] == EvidenceList(env, files[..n], controller);
      assert evidence[n] == EvidenceFor(env, files[n], controller);
      assert NormalizedFiles(files) == NormalizedFiles(files[..n]) + [Normalized(files[n])];
    }
  }

  /** The bundle and the controller files rebuilt from a fresh attempt are those it was built from. */
  lemma BuiltRebuilds(env: Env, disk: Disk, plan: string, n: nat, files: seq<CandidateFile>, a: Attempt)
    requires Built(env, disk, plan, n, files, a)
    ensures Rebuild(disk, a.candidateDir, a.files, false) == NormalizedFiles(files)
    ensures Rebuild(disk, a.candidateDir, a.files, true) == ControllerFor(env, files).value
  {
    var controller := ControllerFor(env, files).value;
    var own, added := EvidenceList(env, files, false), EvidenceList(env, controller, true);
    RebuildJoin(disk, a.candidateDir, own, added, false);
    RebuildJoin(disk, a.candidateDir, own, added, true);
    RebuildOwn(env, disk, a.candidateDir, files, false);
    RebuildOwn(env, disk, a.candidateDir, controller, true);
    ControllerNormal(env, files);
  }

  lemma ControllerNormal(env: Env, files: seq<CandidateFile>)
    requires ControllerFor(env, files).Some?
    ensures NormalizedFiles(ControllerFor(env, files).value) == ControllerFor(env, files).value
  {
    hide ControllerManifest, SoundHarness, Refusal, ValidRelativePath;
    ControllerPathsValid();
    var controller := ControllerFor(env, files).value;
    forall i | 0 <= i < |controller| ensures Normalized(controller[i]) == controller[i] { }
  }

  lemma ExpectedValid(env: Env, profile: Profile, files: seq<CandidateFile>)
    requires ExpectedController(env, profile, files).Some?
    ensures forall f :: f in ExpectedController(env, profile, files).value ==> ValidFile(f) == true
  {
    hide ControllerManifest, SoundHarness, Refusal;
    var controller := ExpectedController(env, profile, files).value;
    if HasCargoToml(files) {
      assert controller == [];
    } else if profile == JsonProfile {
      assert controller == [controller[0], controller[1]];
    } else {
      assert controller == [controller[0]];
    }
  }

  /** The bundle of a fresh attempt recomputes exactly when its controller files do and a pass is sound. */
  lemma BuiltBundle(env: Env, disk: Disk, plan: string, n: nat, files: seq<CandidateFile>, a: Attempt)
    requires Grounded(env) && ValidFiles(files) && ProfileOf(files) != Unsupported
             && Built(env, disk, plan, n, files, a)
    ensures BundleMatches(env, disk, a) == (Recomputes(env, files) && (a.passed ==> JsonSound(files)))
  {
    hide ControllerManifest, SoundHarness, Refusal;
    var controller := ControllerFor(env, files).value;
    BuiltRebuilds(env, disk, plan, n, files, a);
    ControllersAgree(env, files);
    ProfileKept(files);
    BundleKept(env, files);
    if Recomputes(env, files) {
      ExpectedValid(env, ProfileOf(files), NormalizedFiles(files));
      EvidenceMatches(env, disk, a.candidateDir, files, false);
      EvidenceMatches(env, disk, a.candidateDir, controller, true);
      EvidenceJoin(env, disk, a.candidateDir, EvidenceList(env, files, false), EvidenceList(env, controller, true));
    }
  }

  lemma EvidenceJoin(env: Env, disk: Disk, dir: string, xs: seq<FileEvidence>, ys: seq<FileEvidence>)
    requires forall i :: 0 <= i < |xs| ==> FileMatches(env, disk, dir, xs[i])
    requires forall i :: 0 <= i < |ys| ==> FileMatches(env, disk, dir, ys[i])
    ensures forall i :: 0 <= i < |xs + ys| ==> FileMatches(env, disk, dir, (xs + ys)[i])
  {
  }

  lemma LoggedMatches(env: Env, disk: Disk, dir: string, k: nat, c: CommandEvidence)
    requires Grounded(env) && Logged(env, disk, dir, k, c)
    ensures CommandMatches(env, disk, dir, c, k) == ValidProgram(env.cargo)
  {
    hide ValidProgram;
    var g: GateOutcome :| LoggedAs(env, disk, dir, k, c, g);
    assert dir + "/" <= LogPath(dir, k, "stdout") && dir + "/" <= LogPath(dir, k, "stderr");
    assert ValidTag(env.hash(g.stdout)) && ValidTag(env.hash(g.stderr));
  }

  lemma BuiltPaths(env: Env, disk: Disk, plan: string, n: nat, files: seq<CandidateFile>, a: Attempt)
    requires files != [] && Built(env, disk, plan, n, files, a)
    ensures PathsMatch(disk, a) && Parent(a.manifestPath) == AttemptDir(env, plan, n)
  {
    var dir := AttemptDir(env, plan, n);
    ManifestParts(dir);
    CandidateParts(dir);
    AttemptDirParts(env, plan, n);
    var path := a.candidateDir + "/" + Normalize(files[0].path);
    assert path in disk && a.candidateDir + "/" <= path;
  }

  /** What an attempt needs to be accepted: controller files that recompute, a sound bundle if it passed, and gates
      run by a program that is called cargo. */
  predicate Acceptable(env: Env, files: seq<CandidateFile>, a: Attempt) {
    Recomputes(env, files) && (a.passed ==> JsonSound(files)) && ValidProgram(env.cargo)
  }

  /** The checker accepts a fresh attempt exactly when it is acceptable. */
  lemma BuiltHolds(env: Env, disk: Disk, plan: string, n: nat, files: seq<CandidateFile>, a: Attempt)
    requires Grounded(env) && ValidPlanId(plan) && 1 <= n <= MAX_VERIFICATION_ATTEMPTS
    requires ValidFiles(files) && ProfileOf(files) != Unsupported && Built(env, disk, plan, n, files, a)
    ensures AttemptHolds(env, disk, a) == Acceptable(env, files, a)
  {
    hide Recomputes, JsonSound, ValidProgram;
    BuiltPaths(env, disk, plan, n, files, a);
    BuiltBundle(env, disk, plan, n, files, a);
    BuiltCommands(env, disk, plan, n, files, a);
    assert ValidTag(env.hash(Output(files))) && ValidTag(env.hash(AttemptText(a)));
    HoldsByBundle(env, disk, a);
  }

  lemma BuiltCommands(env: Env, disk: Disk, plan: string, n: nat, files: seq<CandidateFile>, a: Attempt)
    requires Grounded(env) && Built(env, disk, plan, n, files, a)
    ensures forall k :: 0 <= k < |a.commands| ==>
              CommandMatches(env, disk, AttemptDir(env, plan, n), a.commands[k], k) == ValidProgram(env.cargo)
  {
    hide ValidProgram;
    forall k | 0 <= k < |a.commands|
      ensures CommandMatches(env, disk, AttemptDir(env, plan, n), a.commands[k], k) == ValidProgram(env.cargo)
    {
      LoggedMatches(env, disk, AttemptDir(env, plan, n), k, a.commands[k]);
    }
  }

  lemma HoldsByBundle(env: Env, disk: Disk, a: Attempt)
    requires ValidPlanId(a.planId) && 1 <= a.number <= MAX_VERIFICATION_ATTEMPTS
    requires ValidTag(a.bundleHash) && ValidTag(a.manifestHash)
    requires a.manifestPath in disk && env.hash(disk[a.manifestPath]) == a.manifestHash
    requires PathsMatch(disk, a) == true && GatesClose(a) == true
    requires forall k :: 0 <= k < |a.commands| ==>
               CommandMatches(env, disk, Parent(a.manifestPath), a.commands[k], k) == ValidProgram(env.cargo)
    ensures AttemptHolds(env, disk, a) == (BundleMatches(env, disk, a) && ValidProgram(env.cargo))
  {
    hide BundleMatches, CommandMatches, ValidProgram;
    assert |a.commands| > 0;
  }

  // ---- the manifest read back ----

  lemma CleanJoin(a: string, b: string)
    requires IsClean(a) && IsClean(b)
    ensures IsClean(a + b)
  {
  }

  lemma NamesClean()
    ensures forall k :: 0 <= k < |GATE_NAMES| ==> IsClean(GATE_NAMES[k])
    ensures forall k :: 0 <= k < |GATE_ARGS| ==> CleanAll(GATE_ARGS[k]) == GATE_ARGS[k]
  {
    forall k | 0 <= k < |GATE_ARGS| ensures CleanAll(GATE_ARGS[k]) == GATE_ARGS[k] {
      forall i | 0 <= i < |GATE_ARGS[k]| ensures IsClean(GATE_ARGS[k][i]) { }
      CleanAllFixed(GATE_ARGS[k]);
    }
  }

  lemma DirClean(env: Env, plan: string, n: nat)
    requires IsClean(env.root) && ValidPlanId(plan)
    ensures IsClean(AttemptDir(env, plan, n)) && IsClean(CandidateDir(env, plan, n))
            && IsClean(AttemptPath(env, plan, n))
  {
    PlanClean(plan);
    CleanFixed(plan);
    CleanJoin(env.root + "/" + plan, "/candidate-verification");
    assert IsClean(AttemptName(n));
    CleanJoin(PlanDir(env, plan), "/");
    CleanJoin(PlanDir(env, plan) + "/", AttemptName(n));
    CleanJoin(AttemptDir(env, plan, n), "/candidate");
    CleanJoin(AttemptDir(env, plan, n), "/attempt.json");
  }

  lemma EvidenceClean(env: Env, files: seq<CandidateFile>, controller: bool)
    requires Grounded(env) && forall i :: 0 <= i < |files| ==> ValidRelativePath(files[i].path)
    ensures forall i :: 0 <= i < |files| ==>
              CleanFile(EvidenceList(env, files, controller)[i]) == EvidenceList(env, files, controller)[i]
  {
    forall i | 0 <= i < |files|
      ensures CleanFile(EvidenceList(env, files, controller)[i]) == EvidenceList(env, files, controller)[i]
    {
      ValidPathClean(files[i].path);
      CleanFixed(Normalize(files[i].path));
      TagClean(env.hash(files[i].content));
    }
  }

  /** The program of a command as a manifest holds it. */
  function Printed(c: CommandEvidence): CommandEvidence {
    c.(program := Clean(c.program))
  }

  function PrintedList(cs: seq<CommandEvidence>): (r: seq<CommandEvidence>)
    ensures |r| == |cs| && forall k :: 0 <= k < |cs| ==> r[k] == Printed(cs[k])
  {
    seq(|cs|, k requires 0 <= k < |cs| => Printed(cs[k]))
  }

  lemma CommandClean(env: Env, disk: Disk, dir: string, k: nat, c: CommandEvidence)
    requires Grounded(env) && Logged(env, disk, dir, k, c)
    ensures CommandFits(c) && (IsClean(dir) ==> CleanCommand(c) == Printed(c))
  {
    var g: GateOutcome :| LoggedAs(env, disk, dir, k, c, g);
    if IsClean(dir) {
      NamesClean();
      CleanFixed(c.name);
      TagClean(c.stdoutHash);
      TagClean(c.stderrHash);
      LogPathClean(dir, k, "stdout");
      LogPathClean(dir, k, "stderr");
      CleanFixed(c.stdoutPath);
      CleanFixed(c.stderrPath);
    }
  }

  lemma LogPathClean(dir: string, k: nat, stream: string)
    requires k < |GATE_NAMES| && IsClean(dir) && IsClean(stream)
    ensures IsClean(LogPath(dir, k, stream))
  {
    NamesClean();
    assert IsClean(GATE_NAMES[k]);
    CleanJoin(dir, "/0");
    CleanJoin(dir + "/0", Decimal(k + 1));
    CleanJoin(dir + "/0" + Decimal(k + 1), "-");
    CleanJoin(dir + "/0" + Decimal(k + 1) + "-", GATE_NAMES[k]);
    CleanJoin(dir + "/0" + Decimal(k + 1) + "-" + GATE_NAMES[k], ".");
    CleanJoin(dir + "/0" + Decimal(k + 1) + "-" + GATE_NAMES[k] + ".", stream);
    CleanJoin(dir + "/0" + Decimal(k + 1) + "-" + GATE_NAMES[k] + "." + stream, ".log");
  }

  lemma ControllerFits(env: Env, files: seq<CandidateFile>)
    requires Grounded(env) && ValidFiles(files) && ControllerFor(env, files).Some?
    ensures forall f :: f in ControllerFor(env, files).value ==>
              (ValidRelativePath(f.path) == true && ByteLength(f.content) < 0x1_0000_0000_0000_0000)
  {
    hide ControllerManifest, Harness;
    ControllerPathsValid();
    ManifestValid("");
    var controller := ControllerFor(env, files).value;
    if HasCargoToml(files) {
      assert controller == [];
    } else if ProfileOf(files) == JsonProfile {
      assert controller == [controller[0], controller[1]];
      HarnessFits(env, files);
    } else if HasStandardTarget(files) {
      assert controller == [controller[0]];
    } else {
      var f := RustFiles(files)[0];
      RustFrom(files);
      assert ValidFile(f);
      BinTargetLength(f.path);
      ManifestValid(BinTarget(f.path));
      assert controller == [controller[0]];
    }
  }

  lemma JoinClean(xs: seq<FileEvidence>, ys: seq<FileEvidence>)
    requires forall i :: 0 <= i < |xs| ==> CleanFile(xs[i]) == xs[i] && FileFits(xs[i])
    requires forall i :: 0 <= i < |ys| ==> CleanFile(ys[i]) == ys[i] && FileFits(ys[i])
    ensures CleanFileList(xs + ys) == xs + ys
    ensures forall i :: 0 <= i < |xs + ys| ==> FileFits((xs + ys)[i])
  {
  }

  lemma BuiltFilesClean(env: Env, disk: Disk, plan: string, n: nat, files: seq<CandidateFile>, a: Attempt)
    requires Grounded(env) && ValidFiles(files) && Built(env, disk, plan, n, files, a)
    ensures CleanFileList(a.files) == a.files && forall i :: 0 <= i < |a.files| ==> FileFits(a.files[i])
  {
    var controller := ControllerFor(env, files).value;
    ControllerFits(env, files);
    forall i | 0 <= i < |files| ensures ValidRelativePath(files[i].path) { assert ValidFile(files[i]); }
    forall i | 0 <= i < |controller| ensures ValidRelativePath(controller[i].path) {
      assert controller[i] in controller;
    }
    EvidenceClean(env, files, false);
    EvidenceClean(env, controller, true);
    var xs, ys := EvidenceList(env, files, false), EvidenceList(env, controller, true);
    forall i | 0 <= i < |xs| ensures FileFits(xs[i]) { assert ValidFile(files[i]); }
    forall i | 0 <= i < |ys| ensures FileFits(ys[i]) { assert controller[i] in controller; }
    JoinClean(xs, ys);
  }

  lemma BuiltCommandsClean(env: Env, disk: Disk, plan: string, n: nat, files: seq<CandidateFile>, a: Attempt)
    requires Grounded(env) && ValidPlanId(plan) && Built(env, disk, plan, n, files, a)
    ensures forall k :: 0 <= k < |a.commands| ==> CommandFits(a.commands[k])
    ensures IsClean(env.root) ==> CleanCommandList(a.commands) == PrintedList(a.commands)
  {
    hide CommandFits, CleanCommand, Printed;
    if IsClean(env.root) { DirClean(env, plan, n); }
    forall k | 0 <= k < |a.commands|
      ensures CommandFits(a.commands[k])
      ensures IsClean(env.root) ==> CleanCommand(a.commands[k]) == Printed(a.commands[k])
    {
      CommandClean(env, disk, AttemptDir(env, plan, n), k, a.commands[k]);
    }
  }

  /** Only the failure text and the programs may lose something in the manifest. */
  function Recorded(a: Attempt): Attempt {
    a.(failure := Clean(a.failure), commands := PrintedList(a.commands))
  }

  lemma BuiltClean(env: Env, disk: Disk, plan: string, n: nat, files: seq<CandidateFile>, a: Attempt)
    requires Grounded(env) && ValidPlanId(plan) && ValidFiles(files) && Built(env, disk, plan, n, files, a)
    ensures AttemptFits(a) && (IsClean(env.root) ==> CleanAttempt(a) == Recorded(a))
  {
    BuiltFilesClean(env, disk, plan, n, files, a);
    BuiltCommandsClean(env, disk, plan, n, files, a);
    PlanClean(plan);
    TagClean(env.hash(Output(files)));
    if IsClean(env.root) {
      DirClean(env, plan, n);
      CleanFixed(a.candidateDir);
    }
  }

  lemma {:induction false} LastSlashClean(p: string)
    ensures LastSlash(Clean(p)) == LastSlash(p)
  {
    if p != "" && p[|p| - 1] != '/' {
      assert Clean(p)[..|p| - 1] == Clean(p[..|p| - 1]);
      LastSlashClean(p[..|p| - 1]);
    }
  }

  lemma CleanTail(p: string, k: nat)
    requires k <= |p|
    ensures Clean(p[k..]) == Clean(p)[k..]
  {
  }

  /** What makes a program cargo is not lost in a manifest, nor added. */
  lemma ProgramClean(p: string)
    ensures ValidProgram(Clean(p)) == ValidProgram(p)
  {
    hide LastSlash, AsciiLower, Clean;
    LastSlashClean(p);
    CleanTail(p, LastSlash(p) + 1);
    SameWord(FileName(p), "cargo");
    SameWord(FileName(p), "cargo.exe");
  }

  lemma SameWord(name: string, word: string)
    requires forall i :: 0 <= i < |word| ==> word[i] > ' ' && !IsControl(word[i])
    ensures AsciiLower(Clean(name)) == word <==> AsciiLower(name) == word
  {
    var lower, printed := AsciiLower(name), AsciiLower(Clean(name));
    if lower == word {
      forall i | 0 <= i < |word| ensures printed[i] == word[i] { assert lower[i] == word[i]; }
    }
    if printed == word {
      forall i | 0 <= i < |word| ensures lower[i] == word[i] { assert printed[i] == word[i]; }
    }
  }

  lemma PrintedMatches(env: Env, disk: Disk, dir: string, c: CommandEvidence, k: nat)
    ensures CommandMatches(env, disk, dir, Printed(c), k) == CommandMatches(env, disk, dir, c, k)
    ensures Printed(c).Passed() == c.Passed()
  {
    hide ValidProgram;
    ProgramClean(c.program);
  }

  lemma RecordedHolds(env: Env, disk: Disk, a: Attempt)
    ensures AttemptHolds(env, disk, Recorded(a)) == AttemptHolds(env, disk, a)
  {
    hide CommandMatches, Printed;
    var r := Recorded(a);
    var dir := Parent(a.manifestPath);
    forall k | 0 <= k < |a.commands|
      ensures CommandMatches(env, disk, dir, r.commands[k], k) == CommandMatches(env, disk, dir, a.commands[k], k)
      ensures r.commands[k].Passed() == a.commands[k].Passed()
    {
      PrintedMatches(env, disk, dir, a.commands[k], k);
    }
    assert GatesClose(r) == GatesClose(a);
    assert BundleMatches(env, disk, r) == BundleMatches(env, disk, a);
    assert PathsMatch(disk, r) == PathsMatch(disk, a);
    SameCommands(env, disk, dir, r.commands, a.commands);
  }

  ghost predicate CommandsMatch(env: Env, disk: Disk, dir: string, cs: seq<CommandEvidence>) {
    forall k :: 0 <= k < |cs| ==> CommandMatches(env, disk, dir, cs[k], k)
  }

  lemma SameCommands(env: Env, disk: Disk, dir: string, cs: seq<CommandEvidence>, ds: seq<CommandEvidence>)
    requires |cs| == |ds|
    requires forall k :: 0 <= k < |cs| ==>
               CommandMatches(env, disk, dir, cs[k], k) == CommandMatches(env, disk, dir, ds[k], k)
    ensures CommandsMatch(env, disk, dir, cs) == CommandsMatch(env, disk, dir, ds)
  {
    hide CommandMatches;
  }

  /** A manifest cannot hold a root with control characters, so the checker finds another place in it. */
  lemma RootLost(env: Env, disk: Disk, plan: string, n: nat, a: Attempt)
    requires !IsClean(env.root) && a.candidateDir == CandidateDir(env, plan, n)
             && a.manifestPath == AttemptPath(env, plan, n)
    ensures !AttemptHolds(env, disk, CleanAttempt(a))
  {
    hide LastSlash, AttemptName, PlanDir, BundleMatches, CommandMatches, CleanFileList, CleanCommandList, GatesClose,
         ValidTag, Exists, IsClean;
    var dir := AttemptDir(env, plan, n);
    if IsClean(dir) { RootIn(env, plan, n); }
    ManifestParts(dir);
    CleanSplit(dir, "/candidate");
    CandidateParts(Clean(dir));
    CleanFixed(dir);
    assert Clean("/candidate") == "/candidate";
  }

  lemma CleanSplit(a: string, b: string)
    ensures Clean(a + b) == Clean(a) + Clean(b)
  {
  }

  lemma RootIn(env: Env, plan: string, n: nat)
    requires IsClean(AttemptDir(env, plan, n))
    ensures IsClean(env.root)
  {
    forall i | 0 <= i < |env.root| ensures CleanChar(env.root[i]) == env.root[i] {
      assert AttemptDir(env, plan, n)[i] == env.root[i];
    }
  }

  /** What the runner builds the store loads: the same attempt but for control characters of its failure text and of
      the program's path, exactly if it is acceptable and the root is printable. Otherwise the store calls it
      corrupt. */
  lemma BuiltLoads(env: Env, disk: Disk, plan: string, n: nat, files: seq<CandidateFile>, a: Attempt)
    requires Grounded(env) && ValidPlanId(plan) && 1 <= n <= MAX_VERIFICATION_ATTEMPTS
    requires ValidFiles(files) && ProfileOf(files) != Unsupported && Built(env, disk, plan, n, files, a)
    ensures LoadAttempt(env, disk, plan, n)
         == if Acceptable(env, files, a) && IsClean(env.root) then Present(Recorded(a)) else Corrupt
  {
    hide Built, Acceptable, AttemptHolds, Recorded, CleanAttempt, AttemptText, AttemptFits;
    BuiltText(env, disk, plan, n, files, a);
    BuiltClean(env, disk, plan, n, files, a);
    BuiltHolds(env, disk, plan, n, files, a);
    RecordedHolds(env, disk, a);
    AttemptRoundTrip(env, a, AttemptPath(env, plan, n));
    OwnPlace(a);
    if !IsClean(env.root) { RootLost(env, disk, plan, n, a); }
  }

  lemma OwnPlace(a: Attempt)
    ensures CleanAttempt(a).(manifestPath := a.manifestPath, manifestHash := a.manifestHash) == CleanAttempt(a)
  {
    hide CleanFileList, CleanCommandList;
  }

  lemma BuiltText(env: Env, disk: Disk, plan: string, n: nat, files: seq<CandidateFile>, a: Attempt)
    requires Built(env, disk, plan, n, files, a)
    ensures a.manifestPath == AttemptPath(env, plan, n) && a.manifestPath in disk
    ensures a.candidateDir == CandidateDir(env, plan, n)
    ensures disk[a.manifestPath] == AttemptText(a) && a.manifestHash == env.hash(AttemptText(a))
  {
  }

  /** A bundle with forward slashes always loads, if gates fail an unsound one and are run by cargo. */
  lemma SlashedLoads(env: Env, disk: Disk, plan: string, n: nat, files: seq<CandidateFile>, a: Attempt)
    requires Grounded(env) && ValidPlanId(plan) && 1 <= n <= MAX_VERIFICATION_ATTEMPTS
    requires ValidFiles(files) && ProfileOf(files) != Unsupported && Built(env, disk, plan, n, files, a)
    requires forall i :: 0 <= i < |files| ==> '\\' !in files[i].path
    requires (a.passed ==> JsonSound(files)) && ValidProgram(env.cargo) && IsClean(env.root)
    ensures LoadAttempt(env, disk, plan, n) == Present(Recorded(a)) && AttemptHolds(env, disk, a)
  {
    hide LoadAttempt, AttemptHolds, JsonSound, ValidProgram, Built, Refusal;
    SlashedSame(files);
    BuiltLoads(env, disk, plan, n, files, a);
    BuiltHolds(env, disk, plan, n, files, a);
  }

  lemma SlashedSame(files: seq<CandidateFile>)
    requires forall i :: 0 <= i < |files| ==> '\\' !in files[i].path
    ensures NormalizedFiles(files) == files
  {
    forall i | 0 <= i < |files| ensures Normalized(files[i]) == files[i] {
      assert forall k :: 0 <= k < |files[i].path| ==> files[i].path[k] in files[i].path;
      assert Normalize(files[i].path) == files[i].path;
    }
  }
}
