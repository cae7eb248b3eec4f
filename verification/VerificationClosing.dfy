/** Closing a chain: what `finalize` writes is accepted by the independent checker, and what `store_repair`
    writes reads back as the repair it returns. */
module VerificationClosing {
  import opened Text
  import opened JsonGrammar
  import opened JsonParser
  import opened JsonPrinter
  import opened JsonRecords
  import opened VerificationModel
  import opened VerificationStore
  import opened VerificationManifests
  import opened VerificationChain
  import opened VerificationRunner
  import opened VerificationAgreement
  import opened VerificationFrames

  // ---- finalize ----

  lemma {:induction false} CollectSame(
    left: (nat, Option<Repair>) -> Option<Link>, right: (nat, Option<Repair>) -> Option<Link>, k: nat)
    requires forall i: nat, prior :: left(i, prior) == right(i, prior)
    ensures Collect(left, k) == Collect(right, k)
  {
    if k > 0 { CollectSame(left, right, k - 1); }
  }

  /** A chain is the same on disks whose attempts and repairs load the same. */
  lemma ChainFrame(env: Env, before: Disk, after: Disk, plan: string, n: nat)
    requires forall k :: LoadAttempt(env, before, plan, k) == LoadAttempt(env, after, plan, k)
    requires forall k :: LoadRepair(env, before, plan, k) == LoadRepair(env, after, plan, k)
    ensures ChainOf(env, before, plan, n) == ChainOf(env, after, plan, n)
  {
    hide LoadAttempt, LoadRepair;
    var left, right := Step(env, before, plan, n), Step(env, after, plan, n);
    forall i: nat, prior: Option<Repair> ensures left(i, prior) == right(i, prior) { }
    CollectSame(left, right, n);
  }

  /** Writing the final manifest changes no attempt and no repair. */
  lemma FinalLeaves(env: Env, disk: Disk, plan: string, text: string)
    ensures var after := disk[FinalPath(env, plan) := text];
            && (forall k :: LoadAttempt(env, disk, plan, k) == LoadAttempt(env, after, plan, k))
            && (forall k :: LoadRepair(env, disk, plan, k) == LoadRepair(env, after, plan, k))
  {
    hide LoadAttempt, LoadRepair;
    var after := disk[FinalPath(env, plan) := text];
    forall k ensures LoadAttempt(env, disk, plan, k) == LoadAttempt(env, after, plan, k)
      ensures LoadRepair(env, disk, plan, k) == LoadRepair(env, after, plan, k)
    {
      FinalElsewhere(env, plan, k);
      assert SameUnder(disk, after, AttemptDir(env, plan, k));
      SameUnderDeeper(disk, after, AttemptDir(env, plan, k), "/repair");
      RepairWithin(env, plan, k);
      LoadAttemptFrame(env, disk, after, plan, k);
      LoadRepairFrame(env, disk, after, plan, k);
    }
  }

  lemma PlanPlain(plan: string)
    requires ValidPlanId(plan)
    ensures '/' !in plan
  {
  }

  lemma FinalPlaced(env: Env, plan: string)
    requires ValidPlanId(plan)
    ensures FinalPlace(FinalPath(env, plan), plan) == true
    ensures Parent(Parent(Parent(FinalPath(env, plan)))) == env.root
  {
    hide LastSlash, Parent, FileName;
    PlanPlain(plan);
    ParentOfJoined(PlanDir(env, plan), "/verification-final.json", "verification-final.json");
    ParentOfJoined(env.root + "/" + plan, "/candidate-verification", "candidate-verification");
    assert env.root + "/" + plan == env.root + ("/" + plan);
    ParentOf(env.root, plan);
  }

  lemma LoadedPlaces(env: Env, disk: Disk, plan: string, n: nat, a: Attempt)
    requires LoadAttempt(env, disk, plan, n) == Present(a)
    ensures a.manifestPath == AttemptPath(env, plan, n) && a.candidateDir == CandidateDir(env, plan, n)
    ensures AttemptHolds(env, disk, a)
  {
    hide ReadAttempt, BundleMatches, CommandMatches;
    ParsedPlace(env, disk[AttemptPath(env, plan, n)], AttemptPath(env, plan, n));
    ManifestParts(AttemptDir(env, plan, n));
    assert AttemptDir(env, plan, n) != "";
    CandidatePlace(AttemptDir(env, plan, n), a.candidateDir);
  }

  lemma RootInCandidate(env: Env, plan: string, n: nat)
    requires IsClean(CandidateDir(env, plan, n))
    ensures IsClean(env.root)
  {
    forall i | 0 <= i < |env.root| ensures CleanChar(env.root[i]) == env.root[i] {
      assert CandidateDir(env, plan, n)[i] == env.root[i];
    }
  }

  /** What a chain that finalizes knows of its last attempt. */
  lemma FinalizableLast(env: Env, disk: Disk, a: Attempt)
    requires Grounded(env) && Finalizable(env, disk, a)
    ensures var links := ChainOf(env, disk, a.planId, a.number).value;
            && |links| == a.number && 1 <= a.number <= MAX_VERIFICATION_ATTEMPTS
            && LoadAttempt(env, disk, a.planId, a.number) == Present(a)
            && a.manifestPath == AttemptPath(env, a.planId, a.number)
            && a.candidateDir == CandidateDir(env, a.planId, a.number)
            && (IsClean(env.root) ==> IsClean(a.candidateDir) && IsClean(a.manifestPath))
            && (!IsClean(env.root) ==> !IsClean(a.candidateDir))
  {
    hide AttemptHolds, LoadAttempt, LoadRepair;
    var links := ChainOf(env, disk, a.planId, a.number).value;
    ChainIsClosed(env, disk, a.planId, a.number, links);
    assert AttemptLinks(env, disk, a.planId, a.number, a.number, links[a.number - 1].attempt);
    LoadedPlaces(env, disk, a.planId, a.number, a);
    if IsClean(env.root) { DirClean(env, a.planId, a.number); }
    if IsClean(a.candidateDir) { RootInCandidate(env, a.planId, a.number); }
  }

  lemma HoldsTagged(env: Env, disk: Disk, a: Attempt)
    requires AttemptHolds(env, disk, a)
    ensures ValidPlanId(a.planId) && ValidTag(a.bundleHash) && ValidTag(a.manifestHash)
    ensures a.manifestPath in disk && env.hash(disk[a.manifestPath]) == a.manifestHash && Exists(disk, a.candidateDir)
  {
  }

  /** What is true of the evidence after `finalize`, wherever its root is. */
  lemma FinalSettled(env: Env, disk: Disk, a: Attempt)
    requires Grounded(env) && Finalizable(env, disk, a)
    ensures var links := ChainOf(env, disk, a.planId, a.number).value;
            var after := disk[FinalPath(env, a.planId) := FinalManifest(env, a, links)];
            && FinalPlace(FinalPath(env, a.planId), a.planId)
            && env.(root := Parent(Parent(Parent(FinalPath(env, a.planId))))) == env
            && ChainOf(env, after, a.planId, a.number) == Some(links)
            && links != [] && links[|links| - 1].attempt == a && |links| == a.number
            && ValidPlanId(a.planId) && ValidTag(a.bundleHash)
            && ValidTag(env.hash(FinalManifest(env, a, links)))
  {
    hide AttemptHolds, LoadAttempt, LoadRepair, Parent, FileName, FinalText, ChainOf;
    var links := ChainOf(env, disk, a.planId, a.number).value;
    var text := FinalManifest(env, a, links);
    FinalizableLast(env, disk, a);
    HoldsTagged(env, disk, a);
    FinalPlaced(env, a.planId);
    assert env.(root := env.root) == env;
    FinalLeaves(env, disk, a.planId, text);
    ChainFrame(env, disk, disk[FinalPath(env, a.planId) := text], a.planId, a.number);
  }

  /** Whatever `finalize` returns, the independent checker accepts, with the same counts and bundle, exactly if a
      manifest can hold the root's path. */
  lemma FinalizeVerifies(env: Env, disk: Disk, a: Attempt)
    requires Grounded(env) && Finalizable(env, disk, a)
    ensures var links := ChainOf(env, disk, a.planId, a.number).value;
            var text := FinalManifest(env, a, links);
            VerifyEvidence(env, disk[FinalPath(env, a.planId) := text], FinalPath(env, a.planId), env.hash(text),
                           a.planId, a.bundleHash)
            == if IsClean(env.root) then Some(Verified(a.planId, a.number, a.number - 1, a.bundleHash, a.candidateDir))
               else None
  {
    hide VerifyEvidence, FinalManifest, ChainOf, AttemptHolds;
    if IsClean(env.root) { FinalAccepted(env, disk, a); } else { FinalRefused(env, disk, a); }
  }

  lemma FinalAccepted(env: Env, disk: Disk, a: Attempt)
    requires Grounded(env) && Finalizable(env, disk, a) && IsClean(env.root)
    ensures var links := ChainOf(env, disk, a.planId, a.number).value;
            var text := FinalManifest(env, a, links);
            VerifyEvidence(env, disk[FinalPath(env, a.planId) := text], FinalPath(env, a.planId), env.hash(text),
                           a.planId, a.bundleHash)
            == Some(Verified(a.planId, a.number, a.number - 1, a.bundleHash, a.candidateDir))
  {
    hide AttemptHolds, LoadAttempt, LoadRepair, ReadFinal, Parent, FileName, FinalPlace, FinalText, ChainOf,
         FinalPath, AttemptPath;
    var links := ChainOf(env, disk, a.planId, a.number).value;
    var history := env.hash(History(a.planId, links));
    var text := FinalManifest(env, a, links);
    var path := FinalPath(env, a.planId);
    var after := disk[path := text];
    FinalizableLast(env, disk, a);
    HoldsTagged(env, disk, a);
    FinalSettled(env, disk, a);
    FinalRoundTrip(a, a.number - 1, history);
    ExistsKeptHere(env, disk, path, text, a);
    var f := Final(a.number, a.number - 1, history, a.candidateDir, a.manifestPath, a.manifestHash);
    assert FinalMatches(env, after, a.planId, a.bundleHash, f, links);
  }

  lemma FinalRefused(env: Env, disk: Disk, a: Attempt)
    requires Grounded(env) && Finalizable(env, disk, a) && !IsClean(env.root)
    ensures var links := ChainOf(env, disk, a.planId, a.number).value;
            var text := FinalManifest(env, a, links);
            VerifyEvidence(env, disk[FinalPath(env, a.planId) := text], FinalPath(env, a.planId), env.hash(text),
                           a.planId, a.bundleHash) == None
  {
    hide AttemptHolds, LoadAttempt, LoadRepair, ReadFinal, Parent, FileName, FinalPlace, FinalText, ChainOf,
         FinalPath;
    var links := ChainOf(env, disk, a.planId, a.number).value;
    FinalizableLast(env, disk, a);
    FinalSettled(env, disk, a);
    FinalPlaceLost(a, a.number - 1, env.hash(History(a.planId, links)), a.planId, a.bundleHash);
  }

  /** The final manifest cannot name a directory with control characters. */
  lemma FinalPlaceLost(a: Attempt, repairs: U32, history: string, plan: string, bundleHash: string)
    requires !IsClean(a.candidateDir)
    ensures var read := ResultOf(FinalText(a, repairs, history));
            read.Parsed? && var f := ReadFinal(read.value, plan, bundleHash);
                            f.Some? ==> f.value.candidateDir != a.candidateDir && f.value.attempts == a.number
  {
    hide ReadFinal, Back;
    var v := Back(FINAL_FIELDS, FinalValues(a, repairs, history));
    FinalPrintable(a, repairs, history);
    PrintRoundTrip(Object(Labelled(FINAL_FIELDS, FinalValues(a, repairs, history))));
    BackIs(FINAL_FIELDS, FinalValues(a, repairs, history));
    FinalHeadRead(a, repairs, history);
    FinalBodyRead(a, repairs, history);
    CleanFixed(a.candidateDir);
    FinalReads(v, plan, bundleHash);
  }

  lemma BackIs(names: seq<string>, values: seq<JsonValue>)
    requires |names| == |values|
    ensures Back(names, values) == CleanValue(Object(Labelled(names, values)))
  {
  }

  /** What a final manifest that can be read names. */
  lemma FinalReads(v: JsonValue, plan: string, bundleHash: string)
    ensures var f := ReadFinal(v, plan, bundleHash);
            f.Some? ==> JsonString(v, "candidate_dir") == Some(f.value.candidateDir)
                        && JsonU32(v, "attempts") == Some(f.value.attempts)
  {
    hide Exact, JsonU64, JsonU32, JsonString, Get, ValidTag;
  }

  lemma ExistsKeptHere(env: Env, disk: Disk, path: string, text: string, a: Attempt)
    requires Exists(disk, a.candidateDir) && a.manifestPath in disk
    requires a.manifestPath == AttemptPath(env, a.planId, a.number) && path == FinalPath(env, a.planId)
    ensures var after := disk[path := text];
            Exists(after, a.candidateDir) && a.manifestPath in after && after[a.manifestPath] == disk[a.manifestPath]
  {
    var after := disk[path := text];
    FinalElsewhere(env, a.planId, a.number);
    assert Under(AttemptDir(env, a.planId, a.number), a.manifestPath);
    if a.candidateDir !in disk {
      var q :| q in disk && a.candidateDir + "/" <= q;
      assert q in after;
    }
  }

  // ---- store_repair ----

  lemma {:induction false} WriteAllKeeps(disk: Disk, dir: string, files: seq<CandidateFile>)
    ensures var r := WriteAll(disk, dir, files);
            Extends(disk, r.0) && OnlyUnder(disk, r.0, dir) && (r.1 ==> OnDisk(r.0, dir, files))
  {
    if files != [] {
      var n := |files| - 1;
      WriteAllKeeps(disk, dir, files[..n]);
      var front := WriteAll(disk, dir, files[..n]);
      assert dir + "/" <= dir + "/" + Normalize(files[n].path);
      if front.1 {
        forall i | 0 <= i < n ensures files[..n][i] == files[i] { }
      }
    }
  }

  lemma RepairWritten(env: Env, disk: Disk, failed: Attempt, model: string, files: seq<CandidateFile>)
    ensures var after := RepairDisk(env, disk, failed, model, files);
            Extends(disk, after) && OnlyUnder(disk, after, RepairDir(env, failed.planId, failed.number))
  {
    hide RepairText, BundleHash, Repairable, WriteAll;
    var dir := RepairDir(env, failed.planId, failed.number);
    WriteAllKeeps(disk, RepairFiles(env, failed), files);
    forall p | Under(RepairFiles(env, failed), p) ensures Under(dir, p) {
      assert p[..|dir| + 1] == (RepairFiles(env, failed) + "/")[..|dir| + 1] == dir + "/";
    }
    assert Under(dir, RepairPath(env, failed.planId, failed.number));
  }

  lemma RepairEntryReads(env: Env, disk: Disk, dir: string, f: CandidateFile)
    requires Grounded(env) && ValidFile(f) && OnDisk(disk, dir, [f])
    ensures ReadRepairFile(env, disk, dir, CleanValue(RepairFileValue(env, f))) == Some(Normalized(f))
  {
    hide Exact, JsonString, JsonU64;
    RepairFileReads(env, f);
    NormalizedKeeps(f);
    NormalizeTwice(f.path);
    ValidPathClean(f.path);
    CleanFixed(Normalize(f.path));
    assert ValidTag(env.hash(f.content));
    TagClean(env.hash(f.content));
    assert [f][0] == f;
  }

  lemma {:induction false} RepairEntriesRead(env: Env, disk: Disk, dir: string, vs: seq<JsonValue>,
                                             files: seq<CandidateFile>)
    requires |vs| == |files|
    requires forall i :: 0 <= i < |vs| ==> ReadRepairFile(env, disk, dir, vs[i]) == Some(files[i])
    ensures ReadRepairFiles(env, disk, dir, vs) == Some(files)
  {
    hide ReadRepairFile;
    if vs == [] {
      assert files == [];
    } else {
      var n := |vs| - 1;
      RepairEntriesRead(env, disk, dir, vs[..n], files[..n]);
      assert files == files[..n] + [files[n]];
    }
  }

  lemma RepairFilesRead(env: Env, disk: Disk, dir: string, files: seq<CandidateFile>)
    requires Grounded(env) && ValidFiles(files) && OnDisk(disk, dir, files)
    ensures ReadRepairFiles(env, disk, dir, CleanItems(RepairFileList(env, files))) == Some(NormalizedFiles(files))
  {
    hide ReadRepairFile, RepairFileValue;
    var vs := CleanItems(RepairFileList(env, files));
    forall i | 0 <= i < |files| ensures ReadRepairFile(env, disk, dir, vs[i]) == Some(NormalizedFiles(files)[i]) {
      assert vs[i] == CleanValue(RepairFileValue(env, files[i]));
      assert ValidFile(files[i]) && [files[i]][0] == files[i];
      RepairEntryReads(env, disk, dir, files[i]);
    }
    RepairEntriesRead(env, disk, dir, vs, NormalizedFiles(files));
  }

  /** What may be in a repair that is about to be stored. */
  ghost predicate Storable(env: Env, r: Repair) {
    && ValidPlanId(r.planId) && ValidModel(r.model) && ValidFiles(r.files)
    && ValidTag(r.sourceHash) && r.repairedHash == BundleHash(env, r.files)
  }

  lemma RepairHeadClean(env: Env, r: Repair)
    requires Grounded(env) && Storable(env, r)
    ensures Clean(r.planId) == r.planId && Clean(r.model) == r.model
    ensures Clean(r.sourceHash) == r.sourceHash && Clean(r.repairedHash) == r.repairedHash && ValidTag(r.repairedHash)
  {
    PlanClean(r.planId);
    CleanFixed(r.model);
    TagClean(r.sourceHash);
    assert ValidTag(env.hash(Output(r.files)));
    TagClean(r.repairedHash);
  }

  /** A step of the chain may be recorded: not after the last attempt, and to another bundle. */
  predicate Moves(r: Repair) {
    1 <= r.afterAttempt < MAX_VERIFICATION_ATTEMPTS && r.sourceHash != r.repairedHash
  }

  /** A stored repair manifest reads back with its paths normalised, if it moves the chain at all. */
  lemma RepairReads(env: Env, disk: Disk, dir: string, r: Repair)
    requires Grounded(env) && Storable(env, r) && OnDisk(disk, dir + "/files", r.files)
    requires r.manifestPath == dir + "/repair.json" && r.manifestPath in disk
    requires disk[r.manifestPath] == RepairText(env, r) && r.manifestHash == env.hash(RepairText(env, r))
    ensures ParseRepair(env, disk, r.manifestPath)
         == if Moves(r) then Some(r.(files := NormalizedFiles(r.files))) else None
  {
    hide ReadRepairFiles, RepairText, Exact, JsonString, JsonU64, JsonU32, JsonArray, Back, ResultOf, ValidFiles,
         ValidModel, BundleHash;
    var v := Back(REPAIR_FIELDS, RepairValues(env, r));
    RepairTextParses(env, r);
    RepairHeadRead(env, r);
    RepairHashesRead(env, r);
    RepairHeadClean(env, r);
    RepairParts(dir);
    RepairFilesRead(env, disk, dir + "/files", r.files);
    BundleKept(env, r.files);
    FilesExist(disk, dir + "/files", r.files);
  }

  lemma FilesExist(disk: Disk, dir: string, files: seq<CandidateFile>)
    requires ValidFiles(files) && OnDisk(disk, dir, files)
    ensures Exists(disk, dir)
  {
    var path := dir + "/" + Normalize(files[0].path);
    assert path in disk && dir + "/" <= path;
  }

  /** Every write of the repair goes through. */
  predicate RepairWrites(env: Env, disk: Disk, failed: Attempt, model: string, files: seq<CandidateFile>) {
    var written := WriteAll(disk, RepairFiles(env, failed), files);
    var repair := RepairFor(env, failed, model, files);
    written.1 && Writable(written.0, repair.manifestPath, RepairText(env, repair))
  }

  lemma SameRepairText(env: Env, r: Repair, hash: string)
    ensures RepairText(env, r.(manifestHash := hash)) == RepairText(env, r)
  {
  }

  lemma RepairStorable(env: Env, disk: Disk, failed: Attempt, model: string, files: seq<CandidateFile>)
    requires Grounded(env) && Repairable(env, disk, failed, model, files)
    ensures Storable(env, RepairFor(env, failed, model, files))
    ensures var r := RepairFor(env, failed, model, files); r.manifestHash == env.hash(RepairText(env, r))
  {
    hide RepairText, BundleHash, BundleMatches, CommandMatches;
    var r := RepairFor(env, failed, model, files);
    SameRepairText(env, r.(manifestHash := ""), r.manifestHash);
    assert r.(manifestHash := "").(manifestHash := r.manifestHash) == r;
  }

  /** What lies on disk once every write went through. */
  lemma RepairOnDisk(env: Env, disk: Disk, failed: Attempt, model: string, files: seq<CandidateFile>)
    requires Repairable(env, disk, failed, model, files) && RepairWrites(env, disk, failed, model, files)
    ensures var after := RepairDisk(env, disk, failed, model, files);
            var r := RepairFor(env, failed, model, files);
            && OnDisk(after, RepairFiles(env, failed), files)
            && r.manifestPath in after && after[r.manifestPath] == RepairText(env, r)
  {
    hide RepairText, BundleHash, Repairable, WriteAll;
    WriteAllKeeps(disk, RepairFiles(env, failed), files);
  }

  /** `store_repair` succeeds exactly when its writes do, the repair moves the chain, and every path is
      written with forward slashes. */
  lemma StoredExactly(env: Env, disk: Disk, failed: Attempt, model: string, files: seq<CandidateFile>)
    requires Grounded(env)
    ensures RepairStored(env, disk, failed, model, files)
        <==> && Repairable(env, disk, failed, model, files) && RepairWrites(env, disk, failed, model, files)
             && Moves(RepairFor(env, failed, model, files)) && NormalizedFiles(files) == files
  {
    hide RepairText, BundleHash, WriteAll, ParseRepair, AttemptHolds, ValidModel, ValidFiles;
    if Repairable(env, disk, failed, model, files) && RepairWrites(env, disk, failed, model, files) {
      var after := RepairDisk(env, disk, failed, model, files);
      var r := RepairFor(env, failed, model, files);
      RepairStorable(env, disk, failed, model, files);
      RepairOnDisk(env, disk, failed, model, files);
      RepairReads(env, after, RepairDir(env, failed.planId, failed.number), r);
      RepairHeadClean(env, r);
      assert ValidTag(r.manifestHash);
    }
  }

  /** A stored repair is the one the chain loads. */
  lemma StoredLoads(env: Env, disk: Disk, failed: Attempt, model: string, files: seq<CandidateFile>)
    requires RepairStored(env, disk, failed, model, files)
    ensures LoadRepair(env, RepairDisk(env, disk, failed, model, files), failed.planId, failed.number)
         == Present(RepairFor(env, failed, model, files))
  {
    hide RepairText, BundleHash, WriteAll, AttemptHolds, ValidFiles, ValidModel, ReadRepair;
  }

  /** A repair with a backslash in a path is refused after it was written: the caller gets an error, yet the
      next load of the same chain finds the repair, with forward slashes, and goes on from it. */
  lemma RefusedYetLoads(env: Env, disk: Disk, failed: Attempt, model: string, files: seq<CandidateFile>)
    requires Grounded(env) && Repairable(env, disk, failed, model, files)
             && RepairWrites(env, disk, failed, model, files)
    requires Moves(RepairFor(env, failed, model, files)) && NormalizedFiles(files) != files
    ensures !RepairStored(env, disk, failed, model, files)
    ensures LoadRepair(env, RepairDisk(env, disk, failed, model, files), failed.planId, failed.number)
         == Present(RepairFor(env, failed, model, files).(files := NormalizedFiles(files)))
  {
    hide RepairText, BundleHash, WriteAll, ParseRepair, AttemptHolds, ValidModel, ValidFiles;
    var after := RepairDisk(env, disk, failed, model, files);
    var r := RepairFor(env, failed, model, files);
    StoredExactly(env, disk, failed, model, files);
    RepairStorable(env, disk, failed, model, files);
    RepairOnDisk(env, disk, failed, model, files);
    RepairReads(env, after, RepairDir(env, failed.planId, failed.number), r);
    ParsedRepairPlace(env, after, r.manifestPath);
    assert ValidTag(r.manifestHash);
  }
}
