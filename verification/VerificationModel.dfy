/** Candidate bundles: what a bundle is, its one-text form, its hash and its profile. */
module VerificationModel {
  import opened Text
  import opened JsonParser
  import Secrets

  const VERIFICATION_SCHEMA_VERSION: nat := 1
  const MAX_CANDIDATE_FILES: nat := 32
  const MAX_VERIFICATION_ATTEMPTS: nat := 32
  const MAX_CANDIDATE_FILE_BYTES: nat := 131072
  const MAX_LOG_BYTES: nat := 4194304
  const MAX_FAILURE_BYTES: nat := 24576
  const MANIFEST_NAME: string := "Cargo.toml"
  const LIBRARY_NAME: string := "src/lib.rs"

  datatype CandidateFile = CandidateFile(path: string, content: string)

  datatype Profile = RustProfile | JsonProfile | Unsupported

  /** What the verifier takes from outside: the root directory, the hash, the `CARGO` program, what `escape_debug`
      makes of a character, the check of a manifest for dependencies and the summary of a failed command. */
  datatype Env = Env(
    root: string,
    hash: string -> string,
    cargo: string,
    quote: char -> string,
    dependencyFree: string -> bool,
    summary: (string, string, string) -> string)

  function Normalize(path: string): (r: string)
    ensures |r| == |path|
    ensures forall i :: 0 <= i < |path| ==> r[i] == if path[i] == '\\' then '/' else path[i]
  {
    seq(|path|, i requires 0 <= i < |path| => if path[i] == '\\' then '/' else path[i])
  }

  lemma NormalizeTwice(path: string)
    ensures Normalize(Normalize(path)) == Normalize(path)
  {
  }

  /** `path.split('/')` */
  function Parts(path: string): (parts: seq<string>)
    ensures |parts| > 0
  {
    if path == "" then [""]
    else
      var rest := Parts(path[1..]);
      if path[0] == '/' then [""] + rest else [[path[0]] + rest[0]] + rest[1..]
  }

  predicate SafePart(part: string) {
    part != "" && part != "." && part != ".." && forall i :: 0 <= i < |part| ==> !IsControl(part[i])
  }

  /** `validate_relative_path` */
  predicate ValidRelativePath(path: string) {
    var n := Normalize(path);
    && n != "" && ByteLength(n) <= 240 && n[0] != '/' && ':' !in n
    && forall i :: 0 <= i < |Parts(n)| ==> SafePart(Parts(n)[i])
  }

  /** `CandidateFile::validate` */
  predicate ValidFile(f: CandidateFile) {
    ValidRelativePath(f.path) && f.content != "" && ByteLength(f.content) <= MAX_CANDIDATE_FILE_BYTES
  }

  function PathKey(f: CandidateFile): string {
    AsciiLower(Normalize(f.path))
  }

  /** `validate_files` */
  predicate ValidFiles(files: seq<CandidateFile>) {
    && 1 <= |files| <= MAX_CANDIDATE_FILES
    && (forall i :: 0 <= i < |files| ==> ValidFile(files[i]))
    && (forall i, j :: 0 <= i < j < |files| ==> PathKey(files[i]) != PathKey(files[j]))
  }

  method ValidateFiles(files: seq<CandidateFile>) returns (ok: bool)
    ensures ok == ValidFiles(files)
  {
    if files == [] || |files| > MAX_CANDIDATE_FILES { return false; }
    var paths: set<string> := {};
    for i := 0 to |files|
      invariant paths == set k | 0 <= k < i :: PathKey(files[k])
      invariant forall k :: 0 <= k < i ==> ValidFile(files[k])
      invariant forall j, k :: 0 <= j < k < i ==> PathKey(files[j]) != PathKey(files[k])
    {
      if !ValidFile(files[i]) || PathKey(files[i]) in paths { return false; }
      paths := paths + {PathKey(files[i])};
    }
    ok := true;
  }

  function FileBlock(f: CandidateFile): string {
    "FILE: " + Normalize(f.path) + "\n" + f.content
    + if f.content != "" && f.content[|f.content| - 1] == '\n' then "" else "\n"
  }

  function Blocks(files: seq<CandidateFile>): string {
    if files == [] then "" else Blocks(files[..|files| - 1]) + FileBlock(files[|files| - 1])
  }

  /** The text a valid bundle is released and hashed as. */
  function Output(files: seq<CandidateFile>): string {
    if |files| == 1 then files[0].content else Blocks(files)
  }

  method CandidateOutput(files: seq<CandidateFile>) returns (r: Option<string>)
    ensures r == if ValidFiles(files) then Some(Output(files)) else None
  {
    var ok := ValidateFiles(files);
    if !ok { return None; }
    if |files| == 1 { return Some(files[0].content); }
    var output := "";
    for i := 0 to |files|
      invariant output == Blocks(files[..i])
    {
      assert files[..i + 1][..i] == files[..i];
      output := output + FileBlock(files[i]);
    }
    assert files[..|files|] == files;
    r := Some(output);
  }

  predicate IsCargoToml(f: CandidateFile) {
    PathKey(f) == "cargo.toml"
  }

  predicate HasCargoToml(files: seq<CandidateFile>) {
    exists i :: 0 <= i < |files| && IsCargoToml(files[i])
  }

  predicate EndsWith(s: string, suffix: string) {
    |s| >= |suffix| && s[|s| - |suffix|..] == suffix
  }

  predicate IsRust(f: CandidateFile) {
    EndsWith(AsciiLower(f.path), ".rs")
  }

  predicate IsJson(f: CandidateFile) {
    EndsWith(AsciiLower(f.path), ".json")
  }

  function RustFiles(files: seq<CandidateFile>): (r: seq<CandidateFile>) {
    if files == [] then []
    else RustFiles(files[..|files| - 1]) + (if IsRust(files[|files| - 1]) then [files[|files| - 1]] else [])
  }

  /** `candidate_profile` of a valid bundle. */
  function ProfileOf(files: seq<CandidateFile>): Profile {
    if HasCargoToml(files) || RustFiles(files) != [] then RustProfile
    else if forall i :: 0 <= i < |files| ==> IsJson(files[i]) then JsonProfile
    else Unsupported
  }

  /** `json_validation_failure` finds nothing. */
  predicate JsonSound(files: seq<CandidateFile>) {
    ProfileOf(files) == JsonProfile ==> forall i :: 0 <= i < |files| ==> ResultOf(files[i].content).Parsed?
  }

  function ByteTotal(files: seq<CandidateFile>): nat {
    if files == [] then 0 else ByteTotal(files[..|files| - 1]) + ByteLength(files[|files| - 1].content)
  }

  const HARNESS_FILES := "#![forbid(unsafe_code)]\npub const VERIFIED_JSON_FILES: usize = "
  const HARNESS_BYTES := ";\npub const VERIFIED_JSON_BYTES: usize = "
  const HARNESS_TEST := ";\n#[cfg(test)]\nmod tests {\n    use super::*;\n    #[test]\n"
  const HARNESS_NAME := "    fn controller_validated_nonempty_json_bundle() {\n"
  const HARNESS_FIRST := "        assert!(std::hint::black_box(VERIFIED_JSON_FILES) > 0);\n"
  const HARNESS_SECOND := "        assert!(std::hint::black_box(VERIFIED_JSON_BYTES) > 0);\n    }\n}\n"

  function SoundHarness(count: nat, bytes: nat): string {
    HARNESS_FILES + Decimal(count) + HARNESS_BYTES + Decimal(bytes) + HARNESS_TEST + HARNESS_NAME + HARNESS_FIRST
        + HARNESS_SECOND
  }

  /** The front of a text, of at most `n` bytes and as long as it can be. */
  function Fitting(s: string, n: nat): string {
    if ByteLength(s) <= n then s else Fitting(s[..|s| - 1], n)
  }

  /** `clean_failure` */
  function CleanFailure(text: string): string {
    var redacted := Secrets.Redacted(text);
    if ByteLength(redacted) <= MAX_FAILURE_BYTES then redacted
    else Fitting(redacted, MAX_FAILURE_BYTES) + "\n[verification output truncated]"
  }

  /** File `i` does not parse, this is why, and every file before it parses. */
  predicate RejectedAt(files: seq<CandidateFile>, i: nat, r: (CandidateFile, JsonError)) {
    && i < |files| && files[i] == r.0 && ResultOf(files[i].content) == Rejected(r.1)
    && forall j :: 0 <= j < i ==> ResultOf(files[j].content).Parsed?
  }

  /** The first file that does not parse, and why. */
  function FirstRejected(files: seq<CandidateFile>): (r: Option<(CandidateFile, JsonError)>)
    ensures r.None? <==> forall i :: 0 <= i < |files| ==> ResultOf(files[i].content).Parsed?
    ensures r.Some? ==> exists i: nat :: RejectedAt(files, i, r.value)
  {
    if files == [] then None
    else if ResultOf(files[0].content).Rejected? then
      assert RejectedAt(files, 0, (files[0], ResultOf(files[0].content).error));
      Some((files[0], ResultOf(files[0].content).error))
    else
      var r := FirstRejected(files[1..]);
      assert forall i :: 0 < i < |files| ==> files[i] == files[1..][i - 1];
      if r == None then r else RejectedNext(files, r.value); r
  }

  lemma RejectedNext(files: seq<CandidateFile>, r: (CandidateFile, JsonError))
    requires files != [] && ResultOf(files[0].content).Parsed? && exists i :: RejectedAt(files[1..], i, r)
    ensures exists i :: RejectedAt(files, i, r)
  {
    hide ResultOf;
    var i: nat :| RejectedAt(files[1..], i, r);
    forall j | 0 <= j < i + 1 ensures ResultOf(files[j].content).Parsed? {
      if j > 0 { assert files[1..][j - 1] == files[j]; }
    }
    assert RejectedAt(files, i + 1, r);
  }

  /** `json_validation_failure` of a JSON bundle that has one. */
  function JsonFailure(files: seq<CandidateFile>): string {
    match FirstRejected(files)
    case None => ""
    case Some(r) => CleanFailure("JSON file " + r.0.path + " failed strict parsing: " + ErrorText(r.1))
  }

  function QuotedText(env: Env, s: string): string {
    if s == "" then "" else env.quote(s[0]) + QuotedText(env, s[1..])
  }

  /** The crate that refuses to compile, with the reason as a string literal. */
  function Refusal(env: Env, files: seq<CandidateFile>): string {
    "#![forbid(unsafe_code)]\ncompile_error!(\"" + QuotedText(env, JsonFailure(files)) + "\");\n"
  }

  /** `controller_json_harness`: a crate that compiles exactly when every file parses. */
  function Harness(env: Env, files: seq<CandidateFile>): string {
    if JsonSound(files) then SoundHarness(|files|, ByteTotal(files)) else Refusal(env, files)
  }

  function ControllerManifest(extra: string): string {
    "[package]\nname = \"atom-verified-candidate\"\nversion = \"0.1.0\"\nedition = \"2021\"\n"
    + "publish = false\n\n[workspace]\n"
    + extra
  }

  function TomlEscape(s: string): string {
    if s == "" then ""
    else (if s[0] == '\\' then "\\\\" else if s[0] == '"' then "\\\"" else [s[0]]) + TomlEscape(s[1..])
  }

  function BinTarget(path: string): string {
    "\n[[bin]]\nname = \"candidate\"\npath = \"" + TomlEscape(Normalize(path)) + "\"\n"
  }

  predicate IsStandardTarget(f: CandidateFile) {
    Normalize(f.path) == "src/main.rs" || Normalize(f.path) == "src/lib.rs"
  }

  predicate HasStandardTarget(files: seq<CandidateFile>) {
    exists i :: 0 <= i < |files| && IsStandardTarget(files[i])
  }

  predicate ValidPlanId(plan: string) {
    1 <= |plan| <= 160 && forall i :: 0 <= i < |plan| ==> 'a' <= plan[i] <= 'z' || IsDigit(plan[i]) || plan[i] == '-'
  }

  /** `validate_model` */
  predicate ValidModel(model: string) {
    && TrimEnd(TrimStart(model)) == model && model != "" && ByteLength(model) <= 240
    && forall i :: 0 <= i < |model| ==> !IsControl(model[i])
  }

  /** `bundle_hash` of a valid bundle. */
  function BundleHash(env: Env, files: seq<CandidateFile>): string {
    env.hash(Output(files))
  }

  function Normalized(f: CandidateFile): CandidateFile {
    f.(path := Normalize(f.path))
  }

  function NormalizedFiles(files: seq<CandidateFile>): (r: seq<CandidateFile>)
    ensures |r| == |files| && forall i :: 0 <= i < |files| ==> r[i] == Normalized(files[i])
  {
    seq(|files|, i requires 0 <= i < |files| => Normalized(files[i]))
  }
}
