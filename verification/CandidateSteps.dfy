/** The state of a candidate loop between its rounds, on disk, and what each step keeps. */
module CandidateSteps {
  import opened Text
  import opened VerificationModel
  import opened VerificationStore
  import opened VerificationChain
  import opened VerificationRunner
  import opened VerificationAgreement
  import opened VerificationFrames
  import opened VerificationClosing

  /** The bundle attempt `i` is about: the initial one, then that of the repair before it. */
  function FilesAt(env: Env, disk: Disk, plan: string, initial: seq<CandidateFile>, i: nat): seq<CandidateFile> {
    if i <= 1 then initial
    else match LoadRepair(env, disk, plan, i - 1)
      case Present(r) => r.files
      case Missing => []
      case Corrupt => []
  }

  /** Attempt `i`, if it can be loaded, is about bundle `i`. */
  ghost predicate Bound(env: Env, disk: Disk, plan: string, initial: seq<CandidateFile>, i: nat) {
    var files := FilesAt(env, disk, plan, initial, i);
    && ValidFiles(files)
    && (LoadAttempt(env, disk, plan, i).Present? ==>
          LoadAttempt(env, disk, plan, i).value.bundleHash == BundleHash(env, files))
  }

  /** Rounds before `ordinal` are bound to their bundles and repaired, and `files` is the next bundle. */
  ghost predicate Traced(env: Env, disk: Disk, plan: string, initial: seq<CandidateFile>, ordinal: nat,
                         files: seq<CandidateFile>)
  {
    && files == FilesAt(env, disk, plan, initial, ordinal)
    && (forall i :: 1 <= i < ordinal ==> Bound(env, disk, plan, initial, i))
    && (forall i :: 1 <= i < ordinal ==> LoadRepair(env, disk, plan, i).Present?)
  }

  /** What an attempt is loaded as: itself, or as its manifest records it. */
  ghost predicate Recalls(l: Loaded<Attempt>, a: Attempt) {
    l == Present(a) || l == Present(Recorded(a))
  }

  /** What a round's attempt is once it was made or found. */
  ghost predicate Settled(env: Env, disk: Disk, plan: string, n: nat, files: seq<CandidateFile>, a: Attempt) {
    && ValidPlanId(plan) && ValidFiles(files) && 1 <= n <= MAX_VERIFICATION_ATTEMPTS
    && a.number == n && a.bundleHash == BundleHash(env, files) && a.manifestPath == AttemptPath(env, plan, n)
    && (AttemptHolds(env, disk, a) ==> Recalls(LoadAttempt(env, disk, plan, n), a))
    && (LoadAttempt(env, disk, plan, n).Present? ==> LoadAttempt(env, disk, plan, n).value.bundleHash == a.bundleHash)
  }

  /** `verify_attempt` leaves a settled attempt, whether it built it or found it. */
  lemma FoundSettles(env: Env, disk: Disk, plan: string, n: nat, files: seq<CandidateFile>, a: Attempt)
    requires ValidPlanId(plan) && ValidFiles(files) && 1 <= n <= MAX_VERIFICATION_ATTEMPTS
    requires LoadAttempt(env, disk, plan, n) == Present(a) && a.bundleHash == BundleHash(env, files)
    ensures Settled(env, disk, plan, n, files, a) == true
  {
    hide ReadAttempt, BundleMatches, CommandMatches, GatesClose;
    LoadedPlaces(env, disk, plan, n, a);
    ManifestParts(AttemptDir(env, plan, n));
    AttemptDirParts(env, plan, n);
    SameName(a.number, n);
  }

  lemma BuiltIdentity(env: Env, disk: Disk, plan: string, n: nat, files: seq<CandidateFile>, a: Attempt)
    requires Built(env, disk, plan, n, files, a)
    ensures a.planId == plan && a.number == n && a.bundleHash == BundleHash(env, files)
    ensures a.manifestPath == AttemptPath(env, plan, n)
  {
  }

  /** A pass is recorded as it is, if its program's path has no control characters. */
  lemma PassRecorded(env: Env, disk: Disk, plan: string, n: nat, files: seq<CandidateFile>, a: Attempt)
    requires Built(env, disk, plan, n, files, a) && a.passed && IsClean(env.cargo)
    ensures Recorded(a) == a
  {
    hide ControllerFor, AttemptText, Output;
    forall k | 0 <= k < |a.commands| ensures Printed(a.commands[k]) == a.commands[k] {
      assert Logged(env, disk, AttemptDir(env, plan, n), k, a.commands[k]);
      CleanFixed(env.cargo);
    }
    assert PrintedList(a.commands) == a.commands;
  }

  lemma BuiltSettles(env: Env, disk: Disk, plan: string, n: nat, files: seq<CandidateFile>, a: Attempt)
    requires Sane(env) && ValidPlanId(plan) && ValidFiles(files) && 1 <= n <= MAX_VERIFICATION_ATTEMPTS
    requires ProfileOf(files) != Unsupported && Built(env, disk, plan, n, files, a)
    ensures Settled(env, disk, plan, n, files, a) == true
  {
    hide Built, LoadAttempt, AttemptHolds, ValidFiles;
    BuiltIdentity(env, disk, plan, n, files, a);
    BuiltHolds(env, disk, plan, n, files, a);
    BuiltLoads(env, disk, plan, n, files, a);
  }

  // ---- rounds traced on disk ----

  lemma FilesAtFrame(env: Env, before: Disk, after: Disk, plan: string, initial: seq<CandidateFile>, i: nat)
    requires i <= 1 || LoadRepair(env, before, plan, i - 1) == LoadRepair(env, after, plan, i - 1)
    ensures FilesAt(env, before, plan, initial, i) == FilesAt(env, after, plan, initial, i)
  {
  }

  /** Making attempt `n` leaves the rounds before it, and binds round `n`. */
  lemma TracedAttempt(env: Env, before: Disk, after: Disk, plan: string, initial: seq<CandidateFile>, n: nat,
                      files: seq<CandidateFile>, a: Attempt)
    requires Traced(env, before, plan, initial, n, files) && OnlyAttempt(before, after, AttemptDir(env, plan, n))
    requires Settled(env, after, plan, n, files, a)
    ensures Traced(env, after, plan, initial, n, files) && Bound(env, after, plan, initial, n)
  {
    hide LoadAttempt, LoadRepair, AttemptHolds, ValidFiles, OnlyAttempt, SameUnder;
    AttemptLeaves(env, before, after, plan, n);
    forall i: nat ensures LoadRepair(env, before, plan, i) == LoadRepair(env, after, plan, i) {
      LoadRepairFrame(env, before, after, plan, i);
    }
    forall i: nat ensures FilesAt(env, before, plan, initial, i) == FilesAt(env, after, plan, initial, i) {
      if i > 1 { FilesAtFrame(env, before, after, plan, initial, i); }
    }
    forall i | 1 <= i < n ensures Bound(env, after, plan, initial, i) {
      LoadAttemptFrame(env, before, after, plan, i);
      assert Bound(env, before, plan, initial, i);
    }
  }

  /** A repair found on disk completes round `n`. */
  lemma TracedFound(env: Env, disk: Disk, plan: string, initial: seq<CandidateFile>, n: nat, files: seq<CandidateFile>)
    requires n >= 1 && Traced(env, disk, plan, initial, n, files) && Bound(env, disk, plan, initial, n)
    requires LoadRepair(env, disk, plan, n).Present?
    ensures Traced(env, disk, plan, initial, n + 1, LoadRepair(env, disk, plan, n).value.files)
  {
    hide LoadAttempt, LoadRepair, ValidFiles;
  }

  /** Storing the repair after attempt `n` leaves other rounds, and attempt `n` once it is accepted. */
  lemma RepairLeaves(env: Env, before: Disk, after: Disk, plan: string, n: nat)
    requires Extends(before, after) && OnlyUnder(before, after, RepairDir(env, plan, n))
    ensures forall k :: k != n ==> LoadAttempt(env, before, plan, k) == LoadAttempt(env, after, plan, k)
    ensures forall k :: k != n ==> LoadRepair(env, before, plan, k) == LoadRepair(env, after, plan, k)
    ensures LoadAttempt(env, before, plan, n).Present? ==>
              LoadAttempt(env, before, plan, n) == LoadAttempt(env, after, plan, n)
  {
    hide LoadAttempt, LoadRepair;
    var dir := AttemptDir(env, plan, n);
    RepairWithin(env, plan, n);
    if LoadAttempt(env, before, plan, n).Present? { LoadAttemptKept(env, before, after, plan, n); }
    forall k | k != n
      ensures LoadAttempt(env, before, plan, k) == LoadAttempt(env, after, plan, k)
      ensures LoadRepair(env, before, plan, k) == LoadRepair(env, after, plan, k)
    {
      RepairElsewhere(env, before, after, plan, n, k);
      LoadAttemptFrame(env, before, after, plan, k);
      SameUnderDeeper(before, after, AttemptDir(env, plan, k), "/repair");
      RepairWithin(env, plan, k);
      LoadRepairFrame(env, before, after, plan, k);
    }
  }

  lemma WithinAttempt(env: Env, plan: string, n: nat, p: string)
    requires Under(RepairDir(env, plan, n), p)
    ensures Under(AttemptDir(env, plan, n), p)
  {
    var dir := AttemptDir(env, plan, n);
    assert p[..|dir| + 1] == (dir + "/repair" + "/")[..|dir| + 1] == dir + "/";
  }

  lemma RepairElsewhere(env: Env, before: Disk, after: Disk, plan: string, n: nat, k: nat)
    requires OnlyUnder(before, after, RepairDir(env, plan, n)) && k != n
    ensures SameUnder(before, after, AttemptDir(env, plan, k))
  {
    forall p | Under(AttemptDir(env, plan, k), p) ensures !Under(RepairDir(env, plan, n), p) {
      if Under(RepairDir(env, plan, n), p) {
        WithinAttempt(env, plan, n, p);
        OneAttempt(env, plan, k, n, p);
      }
    }
  }

  lemma TracedStored(env: Env, before: Disk, plan: string, initial: seq<CandidateFile>, n: nat,
                     files: seq<CandidateFile>, a: Attempt, model: string, repaired: seq<CandidateFile>)
    requires Traced(env, before, plan, initial, n, files) && Bound(env, before, plan, initial, n)
    requires Settled(env, before, plan, n, files, a) && a.planId == plan
    requires RepairStored(env, before, a, model, repaired)
    ensures Traced(env, RepairDisk(env, before, a, model, repaired), plan, initial, n + 1, repaired)
  {
    hide LoadAttempt, LoadRepair, AttemptHolds, ValidFiles, RepairDisk, RepairHolds, BundleHash, ValidModel, WriteAll;
    var after := RepairDisk(env, before, a, model, repaired);
    RepairWritten(env, before, a, model, repaired);
    RepairLeaves(env, before, after, plan, n);
    StoredLoads(env, before, a, model, repaired);
    forall i | 1 <= i < n + 1
      ensures Bound(env, after, plan, initial, i) && LoadRepair(env, after, plan, i).Present?
    {
      assert Bound(env, before, plan, initial, i);
      FilesAtFrame(env, before, after, plan, initial, i);
    }
  }

  // ---- a completed loop ----

  datatype Report = Report(manifestPath: string, manifestHash: string, bundleHash: string, attempts: nat, repairs: nat)

  datatype ClosedCandidate = ClosedCandidate(text: string, report: Report)

  /** Attempts 1 to `n` from the initial bundle are a finalised chain. */
  ghost predicate Completed(env: Env, disk: Disk, plan: string, initial: seq<CandidateFile>, n: nat) {
    && ValidPlanId(plan) && 1 <= n <= MAX_VERIFICATION_ATTEMPTS
    && (forall i :: 1 <= i <= n ==> Bound(env, disk, plan, initial, i))
    && LoadAttempt(env, disk, plan, n).Present?
    && var a := LoadAttempt(env, disk, plan, n).value;
       && a.planId == plan && a.number == n && Finalizable(env, disk, a)
       && FinalPath(env, plan) in disk
  }

  /** What a completed loop releases: the text of the bundle that passed, and the report of its chain. */
  ghost function Released(env: Env, disk: Disk, plan: string, initial: seq<CandidateFile>, n: nat): ClosedCandidate
    requires Completed(env, disk, plan, initial, n)
  {
    ClosedCandidate(
      Output(FilesAt(env, disk, plan, initial, n)),
      Report(FinalPath(env, plan), env.hash(disk[FinalPath(env, plan)]),
             BundleHash(env, FilesAt(env, disk, plan, initial, n)), n, n - 1))
  }

  lemma Longer(p: string, q: string, more: string)
    requires p <= q
    ensures p <= q + more
  {
    assert (q + more)[..|p|] == q[..|p|];
  }

  lemma PlanStep(env: Env, plan: string, n: nat)
    ensures env.root + "/" + (plan + "/") <= AttemptPath(env, plan, n)
  {
    hide AttemptName;
    var p := env.root + "/" + plan;
    assert p + "/" == env.root + "/" + (plan + "/");
    assert p + "/" <= p + "/candidate-verification";
    Longer(p + "/", PlanDir(env, plan), "/");
    Longer(p + "/", PlanDir(env, plan) + "/", AttemptName(n));
    Longer(p + "/", AttemptDir(env, plan, n), "/attempt.json");
  }

  lemma SamePlan(env: Env, plan1: string, plan2: string, m: nat, n: nat)
    requires ValidPlanId(plan1) && ValidPlanId(plan2) && AttemptPath(env, plan1, m) == AttemptPath(env, plan2, n)
    ensures plan1 == plan2
  {
    hide AttemptPath;
    PlanStep(env, plan1, m);
    PlanStep(env, plan2, n);
    PlanPlain(plan1);
    PlanPlain(plan2);
    SameStep(env.root + "/", plan1, plan2, AttemptPath(env, plan1, m));
  }

  /** Finalizing round `n` completes the loop. */
  lemma FinalizeCompletes(env: Env, disk: Disk, plan: string, initial: seq<CandidateFile>, n: nat,
                          files: seq<CandidateFile>, a: Attempt)
    requires Sane(env) && Traced(env, disk, plan, initial, n, files) && Bound(env, disk, plan, initial, n)
    requires Settled(env, disk, plan, n, files, a) && Finalizable(env, disk, a)
    ensures a.planId == plan
    ensures var links := ChainOf(env, disk, plan, n).value;
            var after := disk[FinalPath(env, plan) := FinalManifest(env, a, links)];
            && |links| == n && Completed(env, after, plan, initial, n)
            && LoadAttempt(env, after, plan, n) == Present(a)
            && FilesAt(env, after, plan, initial, n) == files
  {
    hide LoadAttempt, LoadRepair, AttemptHolds, ValidFiles;
    FinalizableLast(env, disk, a);
    HoldsTagged(env, disk, a);
    SamePlan(env, plan, a.planId, n, a.number);
    var links := ChainOf(env, disk, plan, n).value;
    var text := FinalManifest(env, a, links);
    var after := disk[FinalPath(env, plan) := text];
    FinalLeaves(env, disk, plan, text);
    ChainFrame(env, disk, after, plan, n);
    LoadedPlaces(env, after, plan, n, a);
    forall i | 1 <= i <= n
      ensures Bound(env, after, plan, initial, i)
      ensures FilesAt(env, after, plan, initial, i) == FilesAt(env, disk, plan, initial, i)
    {
      FilesAtFrame(env, disk, after, plan, initial, i);
      assert Bound(env, disk, plan, initial, i);
    }
  }

  /** Round `i` of a completed loop: its attempt is there and bound, and unless it passed so is its repair. */
  lemma CompletedRound(env: Env, disk: Disk, plan: string, initial: seq<CandidateFile>, n: nat, i: nat)
    requires Completed(env, disk, plan, initial, n) && 1 <= i <= n
    ensures var files := FilesAt(env, disk, plan, initial, i);
            && ValidFiles(files) && LoadAttempt(env, disk, plan, i).Present?
            && var a := LoadAttempt(env, disk, plan, i).value;
               && a.bundleHash == BundleHash(env, files) && (a.passed <==> i == n)
               && (i < n ==>
                     && LoadRepair(env, disk, plan, i).Present?
                     && LoadRepair(env, disk, plan, i).value.sourceHash == a.bundleHash
                     && FilesAt(env, disk, plan, initial, i + 1) == LoadRepair(env, disk, plan, i).value.files)
  {
    hide LoadAttempt, LoadRepair, AttemptHolds, ValidFiles, BundleHash;
    var links := ChainOf(env, disk, plan, n).value;
    ChainIsClosed(env, disk, plan, n, links);
    assert AttemptLinks(env, disk, plan, n, i, links[i - 1].attempt);
    if i < n { assert RepairLinks(env, disk, plan, i, links[i - 1].attempt, links[i - 1].repair.value); }
    assert Bound(env, disk, plan, initial, i);
  }

  /** The final manifest of a completed loop is the one it would write again. */
  lemma CompletedFinal(env: Env, disk: Disk, plan: string, initial: seq<CandidateFile>, n: nat)
    requires Completed(env, disk, plan, initial, n)
    ensures var a := LoadAttempt(env, disk, plan, n).value;
            var links := ChainOf(env, disk, plan, n).value;
            && Finalizable(env, disk, a) && a.planId == plan && a.number == n
            && disk[FinalPath(env, plan)] == FinalManifest(env, a, links)
            && disk[FinalPath(env, plan) := FinalManifest(env, a, links)] == disk
  {
    hide LoadAttempt, LoadRepair, AttemptHolds, ValidFiles, ChainOf, FinalManifest;
  }

  // ---- a fresh run ----

  /** Nothing of the plan is on disk. */
  ghost predicate FreshPlan(env: Env, disk: Disk, plan: string) {
    forall p :: p in disk ==> !Under(PlanDir(env, plan), p)
  }

  /** Nothing of attempt `n` or a later one is on disk, and no final manifest. */
  ghost predicate Untouched(env: Env, disk: Disk, plan: string, n: nat) {
    && (forall k: nat, p :: n <= k && p in disk ==> !Under(AttemptDir(env, plan, k), p))
    && !Exists(disk, FinalPath(env, plan))
  }

  /** A fresh run before round `n`: failed attempts linked by repairs up to this bundle, nothing else. */
  ghost predicate FreshRound(env: Env, disk: Disk, plan: string, n: nat, files: seq<CandidateFile>, links: seq<Link>) {
    && n >= 1 && |links| == n - 1 && Linked(env, disk, plan, n, links)
    && (n > 1 ==> links[n - 2].repair.value.repairedHash == BundleHash(env, files))
    && Untouched(env, disk, plan, n)
  }

  lemma WithinPlan(env: Env, plan: string, k: nat, p: string)
    requires Under(AttemptDir(env, plan, k), p) || p == FinalPath(env, plan) || FinalPath(env, plan) + "/" <= p
    ensures Under(PlanDir(env, plan), p)
  {
    hide AttemptName;
    var dir := PlanDir(env, plan);
    if Under(AttemptDir(env, plan, k), p) {
      assert p[..|dir| + 1] == (dir + "/" + AttemptName(k) + "/")[..|dir| + 1] == dir + "/";
    } else {
      assert p[..|dir| + 1] == FinalPath(env, plan)[..|dir| + 1] == dir + "/";
    }
  }

  lemma FreshStart(env: Env, disk: Disk, plan: string, files: seq<CandidateFile>)
    requires FreshPlan(env, disk, plan)
    ensures FreshRound(env, disk, plan, 1, files, [])
  {
    forall k: nat, p | 1 <= k && p in disk ensures !Under(AttemptDir(env, plan, k), p) {
      if Under(AttemptDir(env, plan, k), p) { WithinPlan(env, plan, k, p); }
    }
    forall p | p in disk ensures !(p == FinalPath(env, plan) || FinalPath(env, plan) + "/" <= p) {
      if p == FinalPath(env, plan) || FinalPath(env, plan) + "/" <= p { WithinPlan(env, plan, 1, p); }
    }
  }

  lemma FinalBelow(env: Env, plan: string, n: nat, p: string)
    requires p == FinalPath(env, plan) || FinalPath(env, plan) + "/" <= p
    ensures |p| > |PlanDir(env, plan)| + 1 && p[|PlanDir(env, plan)| + 1] == 'v'
  {
    var k := |PlanDir(env, plan)| + 1;
    assert p[k] == FinalPath(env, plan)[k] == 'v';
  }

  lemma AttemptBelow(env: Env, plan: string, n: nat, p: string)
    requires Under(AttemptDir(env, plan, n), p)
    ensures |p| > |PlanDir(env, plan)| + 1 && p[|PlanDir(env, plan)| + 1] == 'a'
  {
    var k := |PlanDir(env, plan)| + 1;
    assert p[k] == (AttemptDir(env, plan, n) + "/")[k] == AttemptName(n)[0] == 'a';
  }

  /** Work in the directory of attempt `n` leaves later attempts and the final manifest untouched. */
  lemma StillUntouched(env: Env, before: Disk, after: Disk, plan: string, n: nat)
    requires Untouched(env, before, plan, n) && OnlyUnder(before, after, AttemptDir(env, plan, n))
    ensures Untouched(env, after, plan, n + 1)
  {
    forall k: nat, p | n + 1 <= k && p in after ensures !Under(AttemptDir(env, plan, k), p) {
      if Under(AttemptDir(env, plan, k), p) && Under(AttemptDir(env, plan, n), p) { OneAttempt(env, plan, k, n, p); }
    }
    forall p | p in after ensures !(p == FinalPath(env, plan) || FinalPath(env, plan) + "/" <= p) {
      if Under(AttemptDir(env, plan, n), p) {
        AttemptBelow(env, plan, n, p);
        if p == FinalPath(env, plan) || FinalPath(env, plan) + "/" <= p { FinalBelow(env, plan, n, p); }
      } else {
        assert p in before;
      }
    }
  }

  lemma AttemptStaysUnder(env: Env, before: Disk, after: Disk, plan: string, n: nat)
    requires OnlyAttempt(before, after, AttemptDir(env, plan, n))
    ensures OnlyUnder(before, after, AttemptDir(env, plan, n))
  {
    forall p | OfAttempt(AttemptDir(env, plan, n), p) ensures Under(AttemptDir(env, plan, n), p) {
      OfAttemptUnder(AttemptDir(env, plan, n), p);
    }
  }

  lemma RepairStaysUnder(env: Env, before: Disk, after: Disk, plan: string, n: nat)
    requires OnlyUnder(before, after, RepairDir(env, plan, n))
    ensures OnlyUnder(before, after, AttemptDir(env, plan, n))
  {
    forall p | Under(RepairDir(env, plan, n), p) ensures Under(AttemptDir(env, plan, n), p) {
      WithinAttempt(env, plan, n, p);
    }
  }

  /** Where nothing is, nothing loads. */
  lemma NothingThere(env: Env, disk: Disk, plan: string, n: nat)
    requires forall p :: p in disk ==> !Under(AttemptDir(env, plan, n), p)
    ensures LoadAttempt(env, disk, plan, n) == Missing
  {
    var path := AttemptPath(env, plan, n);
    assert Under(AttemptDir(env, plan, n), path);
    forall q | path + "/" <= q ensures Under(AttemptDir(env, plan, n), q) {
      UnderTrans(AttemptDir(env, plan, n), path, q);
    }
  }

  lemma NoRepairThere(env: Env, disk: Disk, plan: string, n: nat)
    requires ValidPlanId(plan) && n >= 1 && forall p :: p in disk ==> !Under(RepairDir(env, plan, n), p)
    ensures LoadRepair(env, disk, plan, n) == Missing
  {
    var path := RepairPath(env, plan, n);
    assert Under(RepairDir(env, plan, n), path);
    forall q | path + "/" <= q ensures Under(RepairDir(env, plan, n), q) {
      UnderTrans(RepairDir(env, plan, n), path, q);
    }
  }

  /** In a fresh run attempt `n` is not there before it is made, and no repair of it after. */
  lemma FreshAttempt(env: Env, before: Disk, after: Disk, plan: string, n: nat)
    requires ValidPlanId(plan) && n >= 1 && Untouched(env, before, plan, n)
    requires OnlyAttempt(before, after, AttemptDir(env, plan, n))
    ensures LoadRepair(env, after, plan, n) == Missing && LoadAttempt(env, after, plan, n + 1) == Missing
    ensures Untouched(env, after, plan, n + 1)
  {
    hide OnlyAttempt, LoadRepair, LoadAttempt, Untouched, SameUnder;
    AttemptStaysUnder(env, before, after, plan, n);
    StillUntouched(env, before, after, plan, n);
    AttemptLeaves(env, before, after, plan, n);
    NothingUnder(env, before, after, plan, n);
    NoRepairThere(env, after, plan, n);
    UntouchedAt(env, after, plan, n + 1);
    NothingThere(env, after, plan, n + 1);
  }

  lemma UntouchedAt(env: Env, disk: Disk, plan: string, n: nat)
    requires Untouched(env, disk, plan, n)
    ensures forall p :: p in disk ==> !Under(AttemptDir(env, plan, n), p)
    ensures !Exists(disk, FinalPath(env, plan))
  {
  }

  lemma NothingUnder(env: Env, before: Disk, after: Disk, plan: string, n: nat)
    requires Untouched(env, before, plan, n) && SameUnder(before, after, RepairDir(env, plan, n))
    ensures forall p :: p in after ==> !Under(RepairDir(env, plan, n), p)
  {
    forall p | p in after ensures !Under(RepairDir(env, plan, n), p) {
      if Under(RepairDir(env, plan, n), p) { WithinAttempt(env, plan, n, p); }
    }
  }

  // ---- links grow ----

  lemma LinkedFrame(env: Env, before: Disk, after: Disk, plan: string, n: nat, links: seq<Link>)
    requires n >= 1 && |links| == n - 1 && Linked(env, before, plan, n, links)
    requires forall k :: k != n ==> LoadAttempt(env, before, plan, k) == LoadAttempt(env, after, plan, k)
    requires forall k :: k != n ==> LoadRepair(env, before, plan, k) == LoadRepair(env, after, plan, k)
    ensures Linked(env, after, plan, n, links)
  {
    hide LoadAttempt, LoadRepair;
    forall i | 0 <= i < |links| ensures AttemptLinks(env, after, plan, n, i + 1, links[i].attempt) {
      assert AttemptLinks(env, before, plan, n, i + 1, links[i].attempt);
    }
    forall i | 0 <= i < |links|
      ensures RepairLinks(env, after, plan, i + 1, links[i].attempt, links[i].repair.value)
    {
      assert RepairLinks(env, before, plan, i + 1, links[i].attempt, links[i].repair.value);
    }
  }

  lemma LinkedPass(env: Env, disk: Disk, plan: string, n: nat, links: seq<Link>, a: Attempt)
    requires n >= 1 && |links| == n - 1 && Linked(env, disk, plan, n, links)
    requires n > 1 ==> links[n - 2].repair.value.repairedHash == a.bundleHash
    requires AttemptLinks(env, disk, plan, n, n, a)
    ensures Linked(env, disk, plan, n, links + [Link(a, None)])
  {
    hide AttemptLinks, RepairLinks;
    var more := links + [Link(a, None)];
    forall i | 0 <= i < |more| ensures AttemptLinks(env, disk, plan, n, i + 1, more[i].attempt) { }
    forall i | 0 <= i < |more| && i + 1 < n
      ensures RepairLinks(env, disk, plan, i + 1, more[i].attempt, more[i].repair.value)
    {
      assert more[i] == links[i];
    }
  }

  lemma LinkedRepair(env: Env, disk: Disk, plan: string, n: nat, links: seq<Link>, a: Attempt, r: Repair)
    requires n >= 1 && |links| == n - 1 && Linked(env, disk, plan, n, links)
    requires n > 1 ==> links[n - 2].repair.value.repairedHash == a.bundleHash
    requires AttemptLinks(env, disk, plan, n + 1, n, a) && RepairLinks(env, disk, plan, n, a, r)
    ensures Linked(env, disk, plan, n + 1, links + [Link(a, Some(r))])
  {
    hide RepairLinks, LoadAttempt;
    var more := links + [Link(a, Some(r))];
    forall i | 0 <= i < |more| ensures AttemptLinks(env, disk, plan, n + 1, i + 1, more[i].attempt) {
      if i < n - 1 { assert AttemptLinks(env, disk, plan, n, i + 1, links[i].attempt); }
    }
    forall i | 0 <= i < |more| ensures RepairLinks(env, disk, plan, i + 1, more[i].attempt, more[i].repair.value) {
      if i < n - 1 { assert RepairLinks(env, disk, plan, i + 1, links[i].attempt, links[i].repair.value); }
    }
  }

  // ---- a fresh round ----

  lemma ObstacleOfFinal(env: Env, disk: Disk, plan: string, n: nat)
    requires !Obstructed(disk, AttemptPath(env, plan, n)) && !Exists(disk, FinalPath(env, plan))
    ensures !Obstructed(disk, FinalPath(env, plan))
  {
    forall q: string | q + "/" <= FinalPath(env, plan) ensures q + "/" <= AttemptPath(env, plan, n) {
      CommonAncestor(env, plan, n, q);
    }
  }

  lemma CommonAncestor(env: Env, plan: string, n: nat, q: string)
    requires q + "/" <= FinalPath(env, plan)
    ensures q + "/" <= AttemptPath(env, plan, n)
  {
    var path := AttemptPath(env, plan, n);
    var cut := |PlanDir(env, plan)| + 1;
    FinalAncestor(env, plan, q);
    assert Under(AttemptDir(env, plan, n), path);
    WithinPlan(env, plan, n, path);
    assert path == path[..cut] + path[cut..];
    Longer(q + "/", path[..cut], path[cut..]);
  }

  lemma FinalAncestor(env: Env, plan: string, q: string)
    requires q + "/" <= FinalPath(env, plan)
    ensures q + "/" <= PlanDir(env, plan) + "/"
  {
    var dir := PlanDir(env, plan);
    var path := FinalPath(env, plan);
    assert path[|q|] == '/';
    assert path == dir + "/" + "verification-final.json";
    forall i | |dir| < i < |path| ensures path[i] != '/' {
      assert path[i] == "verification-final.json"[i - |dir| - 1];
    }
    assert path[..|q| + 1] == (dir + "/")[..|q| + 1];
  }

  /** What the chain says of the attempt a fresh round built, once the checker accepts it. */
  lemma BuiltLinks(env: Env, disk: Disk, plan: string, n: nat, files: seq<CandidateFile>, a: Attempt)
    requires Sane(env) && ValidPlanId(plan) && ValidFiles(files) && 1 <= n <= MAX_VERIFICATION_ATTEMPTS
    requires ProfileOf(files) != Unsupported && Built(env, disk, plan, n, files, a)
    ensures Acceptable(env, files, a) ==>
              LoadAttempt(env, disk, plan, n) == Present(Recorded(a)) && AttemptHolds(env, disk, a)
    ensures AttemptHolds(env, disk, a) ==> Acceptable(env, files, a)
  {
    hide Built, LoadAttempt, AttemptHolds, ValidFiles;
    BuiltHolds(env, disk, plan, n, files, a);
    BuiltLoads(env, disk, plan, n, files, a);
  }

  /** Another disk on which every other round loads the same keeps the links before round `n`. */
  lemma FreshLinks(env: Env, before: Disk, after: Disk, plan: string, n: nat, files: seq<CandidateFile>,
                   links: seq<Link>)
    requires FreshRound(env, before, plan, n, files, links) && OnlyAttempt(before, after, AttemptDir(env, plan, n))
    ensures Linked(env, after, plan, n, links)
  {
    hide LoadAttempt, LoadRepair, OnlyAttempt, SameUnder, Untouched;
    AttemptLeaves(env, before, after, plan, n);
    forall k ensures k != n ==> LoadAttempt(env, before, plan, k) == LoadAttempt(env, after, plan, k)
      ensures LoadRepair(env, before, plan, k) == LoadRepair(env, after, plan, k)
    {
      if k != n { LoadAttemptFrame(env, before, after, plan, k); }
      LoadRepairFrame(env, before, after, plan, k);
    }
    LinkedFrame(env, before, after, plan, n, links);
  }

  /** A fresh round whose gates pass a sound bundle can be finalised, if its program is called cargo and can be
      recorded. */
  lemma FreshPass(env: Env, before: Disk, after: Disk, plan: string, n: nat, files: seq<CandidateFile>,
                  links: seq<Link>, a: Attempt)
    requires Sane(env) && ValidPlanId(plan) && ValidFiles(files) && 1 <= n <= MAX_VERIFICATION_ATTEMPTS
    requires FreshRound(env, before, plan, n, files, links) && OnlyAttempt(before, after, AttemptDir(env, plan, n))
    requires ProfileOf(files) != Unsupported && Built(env, after, plan, n, files, a)
    requires !Obstructed(after, AttemptPath(env, plan, n)) && a.passed && JsonSound(files)
    requires ValidProgram(env.cargo) && IsClean(env.cargo)
    ensures Finalizable(env, after, a)
  {
    hide LoadAttempt, LoadRepair, OnlyAttempt, SameUnder, AttemptHolds, Built, ValidFiles, Exists, Obstructed,
         ValidProgram, Recorded;
    BuiltIdentity(env, after, plan, n, files, a);
    PassRecorded(env, after, plan, n, files, a);
    BuiltLinks(env, after, plan, n, files, a);
    assert AttemptLinks(env, after, plan, n, n, a);
    FreshLinks(env, before, after, plan, n, files, links);
    LinkedPass(env, after, plan, n, links, a);
    FreshAttempt(env, before, after, plan, n);
    var all := links + [Link(a, None)];
    ChainIsClosed(env, after, plan, n, all);
    UntouchedAt(env, after, plan, n + 1);
    ObstacleOfFinal(env, after, plan, n);
  }

  /** A fresh round whose repair is stored is followed by a fresh round on the repaired bundle. */
  lemma FreshRepaired(env: Env, before: Disk, middle: Disk, plan: string, n: nat, files: seq<CandidateFile>,
                      links: seq<Link>, a: Attempt, model: string, repaired: seq<CandidateFile>)
    returns (next: seq<Link>)
    requires Sane(env) && ValidPlanId(plan) && ValidFiles(files) && 1 <= n <= MAX_VERIFICATION_ATTEMPTS
    requires FreshRound(env, before, plan, n, files, links) && OnlyAttempt(before, middle, AttemptDir(env, plan, n))
    requires ProfileOf(files) != Unsupported && Built(env, middle, plan, n, files, a)
    requires RepairStored(env, middle, a, model, repaired)
    ensures FreshRound(env, RepairDisk(env, middle, a, model, repaired), plan, n + 1, repaired, next)
  {
    hide LoadAttempt, LoadRepair, OnlyAttempt, SameUnder, AttemptHolds, Built, ValidFiles, Exists, Untouched,
         ParseRepair, ValidModel, BundleHash, WriteAll;
    var after := RepairDisk(env, middle, a, model, repaired);
    var r := RepairFor(env, a, model, repaired);
    BuiltIdentity(env, middle, plan, n, files, a);
    BuiltLinks(env, middle, plan, n, files, a);
    RepairWritten(env, middle, a, model, repaired);
    RepairLeaves(env, middle, after, plan, n);
    StoredLoads(env, middle, a, model, repaired);
    assert AttemptLinks(env, after, plan, n + 1, n, Recorded(a));
    assert RepairLinks(env, after, plan, n, Recorded(a), r);
    FreshLinks(env, before, middle, plan, n, files, links);
    LinkedFrame(env, middle, after, plan, n, links);
    LinkedRepair(env, after, plan, n, links, Recorded(a), r);
    next := links + [Link(Recorded(a), Some(r))];
    AttemptStaysUnder(env, before, middle, plan, n);
    RepairStaysUnder(env, middle, after, plan, n);
    OnlyUnderTrans(before, middle, after, AttemptDir(env, plan, n));
    StillUntouched(env, before, after, plan, n);
  }
}
