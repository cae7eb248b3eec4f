/** The rules of a candidate bundle in plain terms: which paths, files and names are accepted, what kind of bundle it
    is, and what the texts made of it say. */
module VerificationRules {
  import opened Text
  import opened TextTables
  import opened Utf8
  import opened VerificationModel
  import opened VerificationStore
  import Secrets

  // ---- paths ----

  function Slashes(s: string): nat {
    if s == "" then 0 else (if s[0] == '/' then 1 else 0) + Slashes(s[1..])
  }

  lemma {:induction false} PartCount(s: string)
    ensures |Parts(s)| == Slashes(s) + 1
  {
    if s != "" { PartCount(s[1..]); }
  }

  /** `part` is what lies between two slashes, or between a slash and an end. */
  predicate IsPart(s: string, a: string, part: string, b: string) {
    && s == a + part + b && '/' !in part
    && (a == "" || a[|a| - 1] == '/') && (b == "" || b[0] == '/')
  }

  lemma {:induction false} FirstPart(part: string, b: string)
    requires '/' !in part && (b == "" || b[0] == '/')
    ensures Parts(part + b)[0] == part
  {
    if part == "" {
      assert part + b == b;
      if b != "" { assert Parts(b) == [""] + Parts(b[1..]); }
    } else {
      assert (part + b)[1..] == part[1..] + b;
      FirstPart(part[1..], b);
    }
  }

  /** The pieces behind a slash are those of the rest. */
  lemma {:induction false} PartsBehind(a: string, rest: string)
    requires a == "" || a[|a| - 1] == '/'
    ensures |Parts(a + rest)| == Slashes(a) + |Parts(rest)|
    ensures forall j :: 0 <= j < |Parts(rest)| ==> Parts(a + rest)[Slashes(a) + j] == Parts(rest)[j]
  {
    if a == "" {
      assert a + rest == rest;
    } else {
      assert (a + rest)[1..] == a[1..] + rest;
      PartsBehind(a[1..], rest);
      if |a| > 1 && a[0] != '/' { SomeSlash(a[1..]); }
    }
  }

  lemma {:induction false} SomeSlash(s: string)
    requires s != "" && s[|s| - 1] == '/'
    ensures Slashes(s) > 0
  {
    if |s| > 1 { SomeSlash(s[1..]); }
  }

  lemma PartThere(s: string, a: string, part: string, b: string)
    requires IsPart(s, a, part, b)
    ensures part in Parts(s)
  {
    assert s == a + (part + b);
    PartsBehind(a, part + b);
    FirstPart(part, b);
    assert Parts(s)[Slashes(a) + 0] == part;
  }

  /** A part of the rest, when a character is put in front. */
  lemma PartBehind(c: char, rest: string, a: string, part: string, b: string)
    requires IsPart(rest, a, part, b)
    ensures c == '/' || a != "" ==> IsPart([c] + rest, [c] + a, part, b)
    ensures c != '/' && a == "" ==> IsPart([c] + rest, "", [c] + part, b)
    ensures c == '/' ==> IsPart([c] + rest, "", "", [c] + rest)
  {
    assert [c] + (a + part + b) == ([c] + a) + part + b;
    assert a == "" ==> [c] + rest == "" + ([c] + part) + b;
    assert [c] + rest == "" + "" + ([c] + rest);
  }

  lemma {:induction false} PartPlace(s: string, i: nat) returns (a: string, b: string)
    requires i < |Parts(s)|
    ensures IsPart(s, a, Parts(s)[i], b)
    ensures i == 0 <==> a == ""
    decreases |s|
  {
    hide IsPart;
    if s == "" {
      a, b := "", "";
      EmptyPart();
    } else {
      var j := if s[0] == '/' && i > 0 then i - 1 else if s[0] == '/' then 0 else i;
      var a1, b1 := PartPlace(s[1..], j);
      PartBehind(s[0], s[1..], a1, Parts(s[1..])[j], b1);
      assert s == [s[0]] + s[1..];
      if i == 0 {
        a, b := "", if s[0] == '/' then s else b1;
      } else {
        a, b := [s[0]] + a1, b1;
      }
    }
  }

  lemma EmptyPart()
    ensures IsPart("", "", "", "")
  {
  }

  predicate PlainPart(part: string) {
    && part != "" && part != "." && part != ".."
    && forall c :: c in part ==> !(c as int <= 0x1F || 0x7F <= c as int <= 0x9F)
  }

  /** A path is accepted exactly if, written with slashes, it is no longer than 240 bytes, has no colon, and none of its
      parts is empty, a dot, two dots or has a control character. */
  lemma PathExactly(path: string)
    ensures ValidRelativePath(path)
       <==> && |Encode(Normalize(path))| <= 240 && ':' !in path
            && forall a, part, b :: IsPart(Normalize(path), a, part, b) ==> PlainPart(part)
  {
    hide Parts, Normalize, Encode, SafePart, PlainPart;
    var n := Normalize(path);
    EncodeLength(n);
    ColonKept(path);
    if ValidRelativePath(path) {
      forall a, part, b | IsPart(n, a, part, b) ensures PlainPart(part) {
        PartThere(n, a, part, b);
        var i :| 0 <= i < |Parts(n)| && Parts(n)[i] == part;
        SafeIsPlain(part);
      }
    }
    if |Encode(n)| <= 240 && ':' !in path && forall a, part, b :: IsPart(n, a, part, b) ==> PlainPart(part) {
      forall i | 0 <= i < |Parts(n)| ensures SafePart(Parts(n)[i]) {
        var a, b := PartPlace(n, i);
        SafeIsPlain(Parts(n)[i]);
      }
      var a, b := PartPlace(n, 0);
      FirstIsPlain(n, Parts(n)[0], b);
    }
  }

  lemma ColonKept(path: string)
    ensures ':' in Normalize(path) <==> ':' in path
  {
    if ':' in path {
      var i :| 0 <= i < |path| && path[i] == ':';
      assert Normalize(path)[i] == ':';
    }
    if ':' in Normalize(path) {
      var i :| 0 <= i < |path| && Normalize(path)[i] == ':';
      assert path[i] == ':';
    }
  }

  lemma FirstIsPlain(s: string, part: string, b: string)
    requires IsPart(s, "", part, b) && PlainPart(part)
    ensures s != "" && s[0] != '/'
  {
    assert s == part + b;
    assert part[0] in part;
  }

  lemma SafeIsPlain(part: string)
    ensures SafePart(part) <==> PlainPart(part)
  {
    forall c: char ensures IsControl(c) <==> c as int <= 0x1F || 0x7F <= c as int <= 0x9F { ControlTable(c); }
    if PlainPart(part) {
      forall i | 0 <= i < |part| ensures !IsControl(part[i]) { assert part[i] in part; }
    }
  }

  // ---- plans, models and bundles ----

  const LETTERS := "abcdefghijklmnopqrstuvwxyz"

  lemma LetterTable(c: char)
    ensures c in LETTERS <==> 'a' <= c <= 'z'
  {
    if 'a' <= c <= 'z' { assert LETTERS[c as int - 0x61] == c; }
  }

  /** A plan id is one to a hundred and sixty lower-case letters, digits and dashes. */
  lemma PlanExactly(plan: string)
    ensures ValidPlanId(plan)
       <==> 1 <= |plan| <= 160 && forall c :: c in plan ==> c in LETTERS || c in DIGITS || c == '-'
  {
    hide *;
    PlanMeans(plan);
    forall c: char ensures c in LETTERS <==> 'a' <= c <= 'z' { LetterTable(c); }
    forall c: char ensures IsDigit(c) <==> c in DIGITS { DigitTable(c); }
  }

  lemma PlanMeans(plan: string)
    ensures ValidPlanId(plan)
       <==> 1 <= |plan| <= 160 && forall c :: c in plan ==> 'a' <= c <= 'z' || IsDigit(c) || c == '-'
  {
    hide IsDigit;
    if forall c :: c in plan ==> 'a' <= c <= 'z' || IsDigit(c) || c == '-' {
      forall i | 0 <= i < |plan| ensures 'a' <= plan[i] <= 'z' || IsDigit(plan[i]) || plan[i] == '-' {
        assert plan[i] in plan;
      }
    }
  }

  /** A model's name is one to two hundred and forty bytes without control characters or white space at its ends. */
  lemma ModelExactly(model: string)
    ensures ValidModel(model)
       <==> && 1 <= |Encode(model)| <= 240
            && (forall c :: c in model ==> !(c as int <= 0x1F || 0x7F <= c as int <= 0x9F))
            && model[0] as int !in SPACES && model[|model| - 1] as int !in SPACES
  {
    hide TrimEnd, TrimStart, IsWhitespace, IsControl, Encode, ByteLength;
    EncodeLength(model);
    ByteBounds(model);
    forall c: char ensures IsControl(c) <==> c as int <= 0x1F || 0x7F <= c as int <= 0x9F { ControlTable(c); }
    if model != "" {
      TrimmedItself(model);
      WhitespaceTable(model[0]);
      WhitespaceTable(model[|model| - 1]);
    }
    if forall c :: c in model ==> !(c as int <= 0x1F || 0x7F <= c as int <= 0x9F) {
      forall i | 0 <= i < |model| ensures !IsControl(model[i]) { assert model[i] in model; }
    }
  }

  lemma TrimmedItself(s: string)
    requires s != ""
    ensures TrimEnd(TrimStart(s)) == s <==> !IsWhitespace(s[0]) && !IsWhitespace(s[|s| - 1])
  {
    hide IsWhitespace;
    TrimStartShortens(s[1..]);
    TrimEndShortens(TrimStart(s));
    TrimEndShortens(s[..|s| - 1]);
  }

  lemma {:induction false} TrimEndShortens(s: string)
    ensures |TrimEnd(s)| <= |s|
  {
    hide IsWhitespace;
    if s != "" { TrimEndShortens(s[..|s| - 1]); }
  }

  lemma {:induction false} TrimStartShortens(s: string)
    ensures |TrimStart(s)| <= |s|
  {
    hide IsWhitespace;
    if s != "" { TrimStartShortens(s[1..]); }
  }

  /** The path with slashes, in lower case: two paths with one key are one file where case does not count. */
  predicate SamePlace(f: CandidateFile, g: CandidateFile) {
    PathKey(f) == PathKey(g)
  }

  /** A bundle is accepted exactly if it has one to thirty-two files at different places, each with an accepted path and
      with a content of one to 131,072 bytes. */
  lemma FilesExactly(files: seq<CandidateFile>)
    ensures ValidFiles(files)
       <==> && 1 <= |files| <= 32
            && (forall f :: f in files ==> ValidRelativePath(f.path) && 1 <= |Encode(f.content)| <= 131072)
            && (forall i, j :: 0 <= i < |files| && 0 <= j < |files| && i != j ==> !SamePlace(files[i], files[j]))
  {
    hide ValidRelativePath, PathKey, Encode, ByteLength;
    forall f: CandidateFile
      ensures |Encode(f.content)| == ByteLength(f.content) && |f.content| <= ByteLength(f.content)
    {
      EncodeLength(f.content);
      ByteBounds(f.content);
    }
    forall f: CandidateFile ensures f.content == "" ==> ByteLength(f.content) == 0 { ByteBounds(f.content); }
    if (forall f :: f in files ==> ValidRelativePath(f.path) && 1 <= |Encode(f.content)| <= 131072) {
      forall i | 0 <= i < |files| ensures ValidFile(files[i]) { assert files[i] in files; }
    }
    if ValidFiles(files) {
      forall i, j | 0 <= i < |files| && 0 <= j < |files| && i != j ensures !SamePlace(files[i], files[j]) {
        assert if i < j then PathKey(files[i]) != PathKey(files[j]) else PathKey(files[j]) != PathKey(files[i]);
      }
    }
    if forall i, j :: 0 <= i < |files| && 0 <= j < |files| && i != j ==> !SamePlace(files[i], files[j]) {
      forall i, j | 0 <= i < j < |files| ensures PathKey(files[i]) != PathKey(files[j]) {
        assert !SamePlace(files[i], files[j]);
      }
    }
  }

  // ---- kinds of bundle ----

  /** The path ends in this lower-case ending, in any case. */
  ghost predicate EndsAnyCase(path: string, ending: string) {
    exists stem, tail :: path == stem + tail && AnyCase(tail, ending)
  }

  lemma EndsExactly(path: string, ending: string)
    requires LowerWord(ending)
    ensures EndsWith(AsciiLower(path), ending) <==> EndsAnyCase(path, ending)
  {
    var k := |path| - |ending|;
    if EndsWith(AsciiLower(path), ending) {
      var stem, tail := path[..k], path[k..];
      assert AsciiLower(tail) == AsciiLower(path)[k..];
      AnyCaseLower(tail, ending);
      assert path == stem + tail;
    }
    if EndsAnyCase(path, ending) {
      var stem, tail :| path == stem + tail && AnyCase(tail, ending);
      AnyCaseLower(tail, ending);
      assert AsciiLower(path)[k..] == AsciiLower(tail);
    }
  }

  ghost function RustPlaces(files: seq<CandidateFile>): set<int> {
    set i | 0 <= i < |files| && IsRust(files[i])
  }

  lemma {:induction false} RustFilesAre(files: seq<CandidateFile>)
    ensures forall f :: f in RustFiles(files) <==> f in files && IsRust(f)
  {
    hide IsRust;
    if files != [] {
      var k := |files| - 1;
      RustFilesAre(files[..k]);
      assert files == files[..k] + [files[k]];
    }
  }

  lemma {:induction false} RustCount(files: seq<CandidateFile>)
    ensures |RustFiles(files)| == |RustPlaces(files)|
  {
    hide IsRust;
    if files == [] {
      assert RustPlaces(files) == {};
    } else {
      var k := |files| - 1;
      RustCount(files[..k]);
      assert RustPlaces(files) == RustPlaces(files[..k]) + (if IsRust(files[k]) then {k} else {});
    }
  }

  predicate IsManifest(f: CandidateFile) {
    AnyCase(Normalize(f.path), "cargo.toml")
  }

  lemma ManifestMeans(f: CandidateFile)
    ensures IsCargoToml(f) <==> IsManifest(f)
  {
    AnyCaseLower(Normalize(f.path), "cargo.toml");
  }

  lemma RustMeans(f: CandidateFile)
    ensures IsRust(f) <==> EndsAnyCase(f.path, ".rs")
  {
    EndsExactly(f.path, ".rs");
  }

  lemma JsonMeans(f: CandidateFile)
    ensures IsJson(f) <==> EndsAnyCase(f.path, ".json")
  {
    EndsExactly(f.path, ".json");
  }

  ghost predicate SomeRust(files: seq<CandidateFile>) {
    exists f :: f in files && (IsManifest(f) || EndsAnyCase(f.path, ".rs"))
  }

  /** A bundle with a Cargo.toml or a Rust file is Rust; one of JSON files alone is JSON; any other is neither. */
  lemma ProfileExactly(files: seq<CandidateFile>)
    ensures ProfileOf(files) == RustProfile <==> SomeRust(files)
    ensures ProfileOf(files) == JsonProfile
       <==> !SomeRust(files) && forall f :: f in files ==> EndsAnyCase(f.path, ".json")
  {
    hide RustFiles, IsCargoToml, IsManifest, IsRust, IsJson, EndsAnyCase;
    RustFilesAre(files);
    forall f: CandidateFile
      ensures IsCargoToml(f) <==> IsManifest(f)
      ensures IsRust(f) <==> EndsAnyCase(f.path, ".rs")
      ensures IsJson(f) <==> EndsAnyCase(f.path, ".json")
    {
      ManifestMeans(f);
      RustMeans(f);
      JsonMeans(f);
    }
    if RustFiles(files) != [] { assert RustFiles(files)[0] in RustFiles(files); }
    if f :| f in files && IsRust(f) { assert f in RustFiles(files); }
    if f :| f in files && IsManifest(f) {
      var i :| 0 <= i < |files| && files[i] == f;
      assert IsCargoToml(files[i]);
    }
    if HasCargoToml(files) {
      var i :| 0 <= i < |files| && IsCargoToml(files[i]);
      assert files[i] in files;
    }
    if forall f :: f in files ==> EndsAnyCase(f.path, ".json") {
      forall i | 0 <= i < |files| ensures IsJson(files[i]) { assert files[i] in files; }
    }
    if forall i :: 0 <= i < |files| ==> IsJson(files[i]) {
      forall f | f in files ensures EndsAnyCase(f.path, ".json") { }
    }
  }

  // ---- programs ----

  /** A gate is taken for cargo's exactly if its program is a file named cargo or cargo.exe, in any case. */
  lemma ProgramExactly(program: string)
    ensures ValidProgram(program)
       <==> AnyCase(FileName(program), "cargo") || AnyCase(FileName(program), "cargo.exe")
  {
    hide FileName, AnyCase, AsciiLower;
    AnyCaseLower(FileName(program), "cargo");
    AnyCaseLower(FileName(program), "cargo.exe");
  }

  // ---- sizes ----

  function Contents(files: seq<CandidateFile>): string {
    if files == [] then "" else files[0].content + Contents(files[1..])
  }

  lemma {:induction false} TotalJoin(a: seq<CandidateFile>, b: seq<CandidateFile>)
    ensures ByteTotal(a + b) == ByteTotal(a) + ByteTotal(b)
  {
    hide ByteLength;
    if b == [] {
      assert a + b == a;
    } else {
      var k := |b| - 1;
      assert (a + b)[..|a + b| - 1] == a + b[..k];
      TotalJoin(a, b[..k]);
    }
  }

  /** The bytes counted are those of the contents one after another. */
  lemma {:induction false} TotalIsEncoded(files: seq<CandidateFile>)
    ensures ByteTotal(files) == |Encode(Contents(files))|
  {
    hide Encode, ByteLength;
    if files != [] {
      TotalIsEncoded(files[1..]);
      assert files == [files[0]] + files[1..];
      TotalJoin([files[0]], files[1..]);
      assert [files[0]][..0] == [];
      EncodeJoin(files[0].content, Contents(files[1..]));
      EncodeLength(files[0].content);
    } else {
      EncodeLength("");
      ByteBounds("");
    }
  }

  /** Both numbers in the crate made for a JSON bundle are positive, as its own test asserts. */
  lemma TotalPositive(files: seq<CandidateFile>)
    requires ValidFiles(files)
    ensures |files| > 0 && |files| <= ByteTotal(files) <= 32 * 131072
  {
    hide ByteLength, ValidRelativePath, PathKey;
    TotalBounds(files);
  }

  lemma {:induction false} TotalBounds(files: seq<CandidateFile>)
    requires forall i :: 0 <= i < |files| ==> ValidFile(files[i])
    ensures |files| <= ByteTotal(files) <= |files| * 131072
  {
    hide ByteLength, ValidRelativePath;
    if files != [] {
      TotalBounds(files[..|files| - 1]);
      assert ValidFile(files[|files| - 1]);
      ByteBounds(files[|files| - 1].content);
    }
  }

  // ---- failure texts ----

  lemma {:induction false} FittingIsFront(s: string, n: nat)
    ensures Fitting(s, n) <= s && ByteLength(Fitting(s, n)) <= n
    ensures forall k :: |Fitting(s, n)| < k <= |s| ==> ByteLength(s[..k]) > n
  {
    hide Utf8Length;
    assert s[..|s|] == s;
    if ByteLength(s) > n {
      FittingIsFront(s[..|s| - 1], n);
      forall k | |Fitting(s, n)| < k <= |s| ensures ByteLength(s[..k]) > n {
        if k < |s| { assert s[..|s| - 1][..k] == s[..k]; }
      }
    }
  }

  const TRUNCATED := "\n[verification output truncated]"

  /** A failure text is redacted, and if it has more than 24,576 bytes then as many whole characters are kept as fit and
      the cut is noted. */
  lemma FailureCleaned(text: string)
    ensures var whole, r := Secrets.Redacted(text), CleanFailure(text);
            if |Encode(whole)| <= 24576 then r == whole
            else exists front, rest :: && whole == front + rest && r == front + TRUNCATED && rest != ""
                                       && |Encode(front)| <= 24576 < |Encode(front + [rest[0]])|
  {
    hide Secrets.Redacted, Encode, ByteLength;
    var whole := Secrets.Redacted(text);
    EncodeLength(whole);
    if ByteLength(whole) > 24576 {
      var front := Fitting(whole, 24576);
      FittingIsFront(whole, 24576);
      EncodeLength(front);
      var rest := whole[|front|..];
      assert whole == front + rest;
      assert front != whole && whole[..|whole|] == whole;
      assert whole[..|front| + 1] == front + [rest[0]];
      EncodeLength(front + [rest[0]]);
    }
  }

  // ---- a path in a manifest ----

  /** What a basic string of TOML with no escapes but those of the backslash and the quotation mark holds up to its end,
      and what follows it. */
  function TomlString(s: string): Option<(string, string)> {
    if s == "" then None
    else if s[0] == '"' then Some(("", s[1..]))
    else if s[0] == '\\' then
      if |s| < 2 || s[1] !in "\\\"" then None
      else match TomlString(s[2..]) case None => None case Some(r) => Some(([s[1]] + r.0, r.1))
    else match TomlString(s[1..]) case None => None case Some(r) => Some(([s[0]] + r.0, r.1))
  }

  /** The path in the manifest of a single Rust file reads as the path of that file. */
  lemma {:induction false} PathReads(path: string, rest: string)
    ensures TomlString(TomlEscape(path) + "\"" + rest) == Some((path, rest))
  {
    if path == "" {
      assert TomlEscape(path) + "\"" + rest == "\"" + rest;
    } else {
      PathReads(path[1..], rest);
      var head := if path[0] == '\\' then "\\\\" else if path[0] == '"' then "\\\"" else [path[0]];
      var tail := TomlEscape(path[1..]) + "\"" + rest;
      assert TomlEscape(path) == head + TomlEscape(path[1..]);
      assert TomlEscape(path) + "\"" + rest == head + tail;
      assert (head + tail)[|head|..] == tail;
      assert path == [path[0]] + path[1..];
    }
  }

  // ---- places ----

  const DIGIT_CHARS := "0123456789"

  function ThreeDigits(n: nat): string
    requires n < 1000
  {
    [DIGIT_CHARS[n / 100], DIGIT_CHARS[n / 10 % 10], DIGIT_CHARS[n % 10]]
  }

  lemma DecimalDigit(n: nat)
    requires n < 10
    ensures Decimal(n) == [DIGIT_CHARS[n]]
  {
  }

  lemma PaddedDigits(n: nat)
    requires n < 1000
    ensures Pad3(n) == ThreeDigits(n)
  {
    hide Decimal;
    DecimalDigit(n % 10);
    if n < 10 {
      assert n / 100 == 0 && n / 10 % 10 == 0 && n % 10 == n;
    } else {
      DecimalStep(n);
      if n < 100 {
        DecimalDigit(n / 10);
        assert n / 100 == 0 && n / 10 % 10 == n / 10;
      } else {
        DecimalStep(n / 10);
        DecimalDigit(n / 100);
        DecimalDigit(n / 10 % 10);
        assert n / 10 / 10 == n / 100;
      }
    }
  }

  lemma DecimalStep(n: nat)
    requires n >= 10
    ensures Decimal(n) == Decimal(n / 10) + Decimal(n % 10)
  {
  }

  /** Where the evidence of a plan lies: three digits number an attempt, and everything of it is below its directory. */
  lemma Layout(env: Env, plan: string, n: nat)
    requires n < 1000
    ensures var dir := env.root + "/" + plan + "/candidate-verification";
            && AttemptPath(env, plan, n) == dir + "/attempt-" + ThreeDigits(n) + "/attempt.json"
            && CandidateDir(env, plan, n) == dir + "/attempt-" + ThreeDigits(n) + "/candidate"
            && RepairPath(env, plan, n) == dir + "/attempt-" + ThreeDigits(n) + "/repair/repair.json"
            && FinalPath(env, plan) == dir + "/verification-final.json"
  {
    hide Pad3, ThreeDigits;
    PaddedDigits(n);
    var dir := env.root + "/" + plan + "/candidate-verification";
    assert AttemptDir(env, plan, n) == dir + "/attempt-" + ThreeDigits(n);
    var own := dir + "/attempt-" + ThreeDigits(n);
    assert own + "/repair" + "/repair.json" == own + "/repair/repair.json";
  }
}
