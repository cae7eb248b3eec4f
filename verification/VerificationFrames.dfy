/** What evidence depends on: attempt `n` and the repair after it depend on nothing outside the directory of
    attempt `n`, and once accepted they stay accepted while nothing written is changed. */
module VerificationFrames {
  import opened Text
  import opened JsonGrammar
  import opened JsonRecords
  import opened VerificationModel
  import opened VerificationStore
  import opened VerificationRunner
  import opened VerificationAgreement

  /** Nothing below the directory differs. */
  ghost predicate SameUnder(before: Disk, after: Disk, dir: string) {
    forall p :: Under(dir, p) ==> (p in before <==> p in after) && (p in before ==> before[p] == after[p])
  }

  lemma UnderTrans(dir: string, p: string, q: string)
    requires Under(dir, p) && (q == p || p + "/" <= q)
    ensures Under(dir, q)
  {
    assert q[..|dir| + 1] == p[..|dir| + 1];
  }

  lemma ExistsFrame(before: Disk, after: Disk, dir: string, p: string)
    requires SameUnder(before, after, dir) && Under(dir, p)
    ensures Exists(before, p) == Exists(after, p)
  {
    forall q | p + "/" <= q ensures Under(dir, q) { UnderTrans(dir, p, q); }
    if IsDir(before, p) {
      var q :| q in before && p + "/" <= q;
      assert Under(dir, q) && q in after;
    }
    if IsDir(after, p) {
      var q :| q in after && p + "/" <= q;
      assert Under(dir, q) && q in before;
    }
  }

  lemma SplitPath(p: string)
    requires Parent(p) != ""
    ensures p == Parent(p) + ("/" + FileName(p))
  {
    hide LastSlash;
    var k := LastSlash(p);
    assert p == p[..k] + ([p[k]] + p[k + 1..]);
  }

  lemma CandidatePlace(dir: string, p: string)
    requires dir != "" && Parent(p) == dir && FileName(p) == "candidate"
    ensures p == dir + "/candidate"
  {
    hide Parent, FileName;
    SplitPath(p);
    assert "/" + "candidate" == "/candidate";
  }

  lemma {:induction false} RebuildFrame(before: Disk, after: Disk, dir: string, below: string, fs: seq<FileEvidence>,
                                        controller: bool)
    requires SameUnder(before, after, dir) && Under(dir, below + "/")
    ensures Rebuild(before, below, fs, controller) == Rebuild(after, below, fs, controller)
  {
    if fs != [] {
      RebuildFrame(before, after, dir, below, fs[..|fs| - 1], controller);
      UnderLonger(dir, below + "/", fs[|fs| - 1].path);
    }
  }

  lemma UnderLonger(dir: string, p: string, more: string)
    requires Under(dir, p)
    ensures Under(dir, p + more)
  {
    assert (p + more)[..|dir| + 1] == p[..|dir| + 1];
  }

  lemma BundleFrame(env: Env, before: Disk, after: Disk, dir: string, a: Attempt)
    requires SameUnder(before, after, dir) && a.candidateDir == dir + "/candidate"
    ensures BundleMatches(env, before, a) == BundleMatches(env, after, a)
  {
    assert Under(dir, a.candidateDir + "/");
    RebuildFrame(before, after, dir, a.candidateDir, a.files, false);
    RebuildFrame(before, after, dir, a.candidateDir, a.files, true);
    forall i | 0 <= i < |a.files|
      ensures FileMatches(env, before, a.candidateDir, a.files[i])
              == FileMatches(env, after, a.candidateDir, a.files[i])
    {
      UnderLonger(dir, a.candidateDir + "/", a.files[i].path);
    }
  }

  lemma HoldsFrame(env: Env, before: Disk, after: Disk, dir: string, a: Attempt)
    requires SameUnder(before, after, dir) && dir != "" && a.manifestPath == dir + "/attempt.json"
    ensures AttemptHolds(env, before, a) == AttemptHolds(env, after, a)
  {
    hide BundleMatches, CommandMatches, GatesClose, ValidPlanId, ValidTag, LastSlash, Exists;
    ManifestParts(dir);
    assert Under(dir, a.manifestPath);
    if Parent(a.candidateDir) == dir && FileName(a.candidateDir) == "candidate" {
      CandidatePlace(dir, a.candidateDir);
      assert Under(dir, a.candidateDir);
      ExistsFrame(before, after, dir, a.candidateDir);
      BundleFrame(env, before, after, dir, a);
      forall k | 0 <= k < |a.commands|
        ensures CommandMatches(env, before, dir, a.commands[k], k) == CommandMatches(env, after, dir, a.commands[k], k)
      {
        CommandFrame(env, before, after, dir, a.commands[k], k);
      }
    }
  }

  lemma CommandFrame(env: Env, before: Disk, after: Disk, dir: string, c: CommandEvidence, k: nat)
    requires SameUnder(before, after, dir)
    ensures CommandMatches(env, before, dir, c, k) == CommandMatches(env, after, dir, c, k)
  {
    assert Under(dir, c.stdoutPath) == (dir + "/" <= c.stdoutPath);
    assert Under(dir, c.stderrPath) == (dir + "/" <= c.stderrPath);
  }

  lemma ParsedPlace(env: Env, text: string, path: string)
    requires ParseAttempt(env, text, path).Some?
    ensures ParseAttempt(env, text, path).value.manifestPath == path
    ensures ParseAttempt(env, text, path).value.manifestHash == env.hash(text)
  {
  }

  /** An attempt depends on its own directory only. */
  lemma LoadAttemptFrame(env: Env, before: Disk, after: Disk, plan: string, n: nat)
    requires SameUnder(before, after, AttemptDir(env, plan, n))
    ensures LoadAttempt(env, before, plan, n) == LoadAttempt(env, after, plan, n)
  {
    hide ReadAttempt, AttemptHolds;
    var dir := AttemptDir(env, plan, n);
    var path := AttemptPath(env, plan, n);
    assert Under(dir, path);
    ExistsFrame(before, after, dir, path);
    if path in before {
      var parsed := ParseAttempt(env, before[path], path);
      if parsed.Some? {
        ParsedPlace(env, before[path], path);
        HoldsFrame(env, before, after, dir, parsed.value);
      }
    }
  }

  // ---- repairs ----

  lemma RepairParts(dir: string)
    ensures Parent(dir + "/repair.json") == dir && FileName(dir + "/repair.json") == "repair.json"
  {
    ParentOfJoined(dir, "/repair.json", "repair.json");
  }

  lemma {:induction false} RepairFilesFrame(env: Env, before: Disk, after: Disk, dir: string, below: string,
                                            vs: seq<JsonValue>)
    requires SameUnder(before, after, dir) && Under(dir, below + "/")
    ensures ReadRepairFiles(env, before, below, vs) == ReadRepairFiles(env, after, below, vs)
  {
    hide ReadRepairFile;
    if vs != [] {
      RepairFilesFrame(env, before, after, dir, below, vs[..|vs| - 1]);
      RepairFileFrame(env, before, after, dir, below, vs[|vs| - 1]);
    }
  }

  lemma RepairFileFrame(env: Env, before: Disk, after: Disk, dir: string, below: string, v: JsonValue)
    requires SameUnder(before, after, dir) && Under(dir, below + "/")
    ensures ReadRepairFile(env, before, below, v) == ReadRepairFile(env, after, below, v)
  {
    forall path: string ensures Under(dir, below + "/" + path) { UnderLonger(dir, below + "/", path); }
  }

  lemma SameReading(env: Env, before: Disk, after: Disk, path: string)
    requires Exists(before, Parent(path) + "/files") == Exists(after, Parent(path) + "/files")
    requires forall vs :: ReadRepairFiles(env, before, Parent(path) + "/files", vs)
                       == ReadRepairFiles(env, after, Parent(path) + "/files", vs)
    ensures forall v, hash :: ReadRepair(env, before, v, path, hash) == ReadRepair(env, after, v, path, hash)
  {
    hide ReadRepairFiles, RepairFieldsValid, Exact, Exists, JsonArray, JsonString, JsonU32, JsonU64, Parent;
  }

  lemma ParseRepairFrame(env: Env, before: Disk, after: Disk, dir: string)
    requires SameUnder(before, after, dir)
    ensures ParseRepair(env, before, dir + "/repair.json") == ParseRepair(env, after, dir + "/repair.json")
  {
    hide ReadRepair, Exists;
    var path := dir + "/repair.json";
    assert Under(dir, path);
    RepairParts(dir);
    assert Under(dir, dir + "/files") && Under(dir, dir + "/files" + "/");
    ExistsFrame(before, after, dir, dir + "/files");
    forall vs: seq<JsonValue>
      ensures ReadRepairFiles(env, before, dir + "/files", vs) == ReadRepairFiles(env, after, dir + "/files", vs)
    {
      RepairFilesFrame(env, before, after, dir, dir + "/files", vs);
    }
    if path in before { SameReading(env, before, after, path); }
  }

  lemma ParsedRepairPlace(env: Env, disk: Disk, path: string)
    requires ParseRepair(env, disk, path).Some?
    ensures path in disk && ParseRepair(env, disk, path).value.manifestPath == path
    ensures ParseRepair(env, disk, path).value.manifestHash == env.hash(disk[path])
    ensures RepairFieldsValid(env, ParseRepair(env, disk, path).value)
  {
  }

  /** A repair depends on its own directory only. */
  lemma LoadRepairFrame(env: Env, before: Disk, after: Disk, plan: string, n: nat)
    requires SameUnder(before, after, RepairDir(env, plan, n))
    ensures LoadRepair(env, before, plan, n) == LoadRepair(env, after, plan, n)
  {
    hide ParseRepair, RepairFieldsValid;
    var dir := RepairDir(env, plan, n);
    var path := RepairPath(env, plan, n);
    assert Under(dir, path) && path == dir + "/repair.json";
    ExistsFrame(before, after, dir, path);
    ParseRepairFrame(env, before, after, dir);
    if ParseRepair(env, before, path).Some? { ParsedRepairPlace(env, before, path); }
  }

  // ---- accepted evidence stays accepted ----

  lemma ExistsKept(before: Disk, after: Disk, p: string)
    requires Extends(before, after) && Exists(before, p)
    ensures Exists(after, p)
  {
    if p !in before {
      var q :| q in before && p + "/" <= q;
      assert q in after;
    }
  }

  lemma {:induction false} RebuildKept(env: Env, before: Disk, after: Disk, dir: string, fs: seq<FileEvidence>,
                                       controller: bool)
    requires Extends(before, after) && forall i :: 0 <= i < |fs| ==> FileMatches(env, before, dir, fs[i])
    ensures Rebuild(before, dir, fs, controller) == Rebuild(after, dir, fs, controller)
  {
    if fs != [] {
      RebuildKept(env, before, after, dir, fs[..|fs| - 1], controller);
      assert FileMatches(env, before, dir, fs[|fs| - 1]);
    }
  }

  lemma HoldsKept(env: Env, before: Disk, after: Disk, a: Attempt)
    requires Extends(before, after) && AttemptHolds(env, before, a)
    ensures AttemptHolds(env, after, a)
  {
    assert BundleMatches(env, before, a);
    assert BundleMatches(env, after, a) == true by {
      RebuildKept(env, before, after, a.candidateDir, a.files, false);
      RebuildKept(env, before, after, a.candidateDir, a.files, true);
      forall i | 0 <= i < |a.files| ensures FileMatches(env, after, a.candidateDir, a.files[i]) {
        assert FileMatches(env, before, a.candidateDir, a.files[i]);
      }
    }
    ExistsKept(before, after, a.candidateDir);
    var dir := Parent(a.manifestPath);
    forall k | 0 <= k < |a.commands| ensures CommandMatches(env, after, dir, a.commands[k], k) {
      assert CommandMatches(env, before, dir, a.commands[k], k);
    }
  }

  lemma LoadAttemptKept(env: Env, before: Disk, after: Disk, plan: string, n: nat)
    requires Extends(before, after) && LoadAttempt(env, before, plan, n).Present?
    ensures LoadAttempt(env, after, plan, n) == LoadAttempt(env, before, plan, n)
  {
    hide ParseAttempt, AttemptHolds;
    HoldsKept(env, before, after, LoadAttempt(env, before, plan, n).value);
  }

  // ---- attempts do not share paths ----

  lemma {:induction false} LeadingZero(s: string)
    requires forall i :: 0 <= i < |s| ==> IsDigit(s[i])
    ensures DigitsValue("0" + s) == DigitsValue(s)
  {
    if s == "" {
      assert "0" + s == "0" && "0"[..0] == "";
    } else {
      LeadingZero(s[..|s| - 1]);
      assert ("0" + s)[..|s|] == "0" + s[..|s| - 1];
    }
  }

  lemma Pad3Digits(n: nat)
    ensures forall i :: 0 <= i < |Pad3(n)| ==> IsDigit(Pad3(n)[i])
    ensures DigitsValue(Pad3(n)) == n
  {
    hide Decimal, DigitsValue;
    DecimalValue(n);
    LeadingZero(Decimal(n));
    LeadingZero("0" + Decimal(n));
    assert "00" + Decimal(n) == "0" + ("0" + Decimal(n));
    assert "" + Decimal(n) == Decimal(n);
  }

  lemma SameName(m: nat, n: nat)
    requires AttemptName(m) == AttemptName(n)
    ensures m == n
  {
    Pad3Digits(m);
    Pad3Digits(n);
    assert Pad3(m) == AttemptName(m)[8..] && Pad3(n) == AttemptName(n)[8..];
  }

  /** Two names below one directory that lead to the same path are the same name. */
  lemma SameStep(base: string, x: string, y: string, p: string)
    requires '/' !in x && '/' !in y && base + (x + "/") <= p && base + (y + "/") <= p
    ensures x == y
  {
    NotShorter(base, x, y, p);
    NotShorter(base, y, x, p);
    assert x == p[|base|..|base| + |x|] && y == p[|base|..|base| + |y|];
  }

  lemma StepEnds(base: string, x: string, p: string)
    requires '/' !in x && base + (x + "/") <= p
    ensures p[|base| + |x|] == '/' && forall i :: |base| <= i < |base| + |x| ==> p[i] != '/'
  {
    var step := base + (x + "/");
    assert p[..|step|] == step;
    forall i | |base| <= i < |base| + |x| ensures p[i] != '/' {
      assert p[i] == step[i] == x[i - |base|];
      assert x[i - |base|] in x;
    }
    assert p[|base| + |x|] == step[|base| + |x|];
  }

  lemma NotShorter(base: string, x: string, y: string, p: string)
    requires '/' !in x && '/' !in y && base + (x + "/") <= p && base + (y + "/") <= p
    ensures |y| <= |x|
  {
    StepEnds(base, x, p);
    StepEnds(base, y, p);
  }

  /** No path belongs to two attempts. */
  lemma OneAttempt(env: Env, plan: string, m: nat, n: nat, p: string)
    requires Under(AttemptDir(env, plan, m), p) && Under(AttemptDir(env, plan, n), p)
    ensures m == n
  {
    var base := PlanDir(env, plan) + "/";
    assert AttemptDir(env, plan, m) + "/" == base + (AttemptName(m) + "/");
    assert AttemptDir(env, plan, n) + "/" == base + (AttemptName(n) + "/");
    AttemptNamePlain(m);
    AttemptNamePlain(n);
    SameStep(base, AttemptName(m), AttemptName(n), p);
    SameName(m, n);
  }

  lemma FinalElsewhere(env: Env, plan: string, n: nat)
    ensures !Under(AttemptDir(env, plan, n), FinalPath(env, plan))
  {
    var k := |PlanDir(env, plan)| + 1;
    assert FinalPath(env, plan)[k] == 'v';
    assert (AttemptDir(env, plan, n) + "/")[k] == AttemptName(n)[0] == 'a';
  }

  lemma OfAttemptUnder(dir: string, p: string)
    requires OfAttempt(dir, p)
    ensures Under(dir, p) && !Under(dir + "/repair", p)
  {
    if Under(dir + "/candidate", p) || IsLog(dir, p) {
      StartOf(dir, p);
    } else {
      ManifestStart(dir, p);
    }
    if Under(dir + "/repair", p) { RepairStart(dir, p); }
  }

  lemma RepairStart(dir: string, p: string)
    requires Under(dir + "/repair", p)
    ensures p[|dir| + 1] == 'r'
  {
    assert p[|dir| + 1] == (dir + "/repair/")[|dir| + 1];
  }

  lemma StartOf(dir: string, p: string)
    requires Under(dir + "/candidate", p) || IsLog(dir, p)
    ensures Under(dir, p) && p[|dir| + 1] in {'c', '0'}
  {
    var n := |dir| + 1;
    if Under(dir + "/candidate", p) {
      assert p[n] == (dir + "/candidate/")[n];
      assert p[..n] == (dir + "/candidate/")[..n] == dir + "/";
    } else {
      var k, stream :| 0 <= k < |GATE_NAMES| && stream in {"stdout", "stderr"} && p == LogPath(dir, k, stream);
      assert p[..n] == dir + "/" && p[n] == '0';
    }
  }

  /** Attempt `n` at work leaves every other attempt and every repair as they were. */
  lemma AttemptLeaves(env: Env, before: Disk, after: Disk, plan: string, n: nat)
    requires OnlyAttempt(before, after, AttemptDir(env, plan, n))
    ensures forall k :: k != n ==> SameUnder(before, after, AttemptDir(env, plan, k))
    ensures forall k :: SameUnder(before, after, RepairDir(env, plan, k))
  {
    forall k, p | k != n && Under(AttemptDir(env, plan, k), p) ensures !OfAttempt(AttemptDir(env, plan, n), p) {
      if OfAttempt(AttemptDir(env, plan, n), p) {
        OfAttemptUnder(AttemptDir(env, plan, n), p);
        OneAttempt(env, plan, k, n, p);
      }
    }
    forall k ensures SameUnder(before, after, RepairDir(env, plan, k)) {
      if k != n {
        RepairWithin(env, plan, k);
        SameUnderDeeper(before, after, AttemptDir(env, plan, k), "/repair");
      } else {
        forall p | Under(RepairDir(env, plan, n), p) ensures !OfAttempt(AttemptDir(env, plan, n), p) {
          if OfAttempt(AttemptDir(env, plan, n), p) { OfAttemptUnder(AttemptDir(env, plan, n), p); }
        }
      }
    }
  }

  lemma RepairWithin(env: Env, plan: string, n: nat)
    ensures RepairDir(env, plan, n) == AttemptDir(env, plan, n) + "/repair"
  {
  }

  lemma SameUnderDeeper(before: Disk, after: Disk, dir: string, below: string)
    requires SameUnder(before, after, dir) && below != "" && below[0] == '/'
    ensures SameUnder(before, after, dir + below)
  {
    forall p | Under(dir + below, p) ensures Under(dir, p) {
      assert p[..|dir| + 1] == (dir + below + "/")[..|dir| + 1] == dir + "/";
    }
  }
}
