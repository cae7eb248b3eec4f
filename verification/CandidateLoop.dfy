/** The loop that closes a candidate: verify, and while the gates fail ask the provider for repairs. Provider answers
    are an arbitrary sequence, and so is the time that is left whenever the loop looks at the clock. */
module CandidateLoop {
  import opened Text
  import opened VerificationModel
  import opened VerificationStore
  import opened VerificationRunner
  import opened VerificationAgreement
  import opened VerificationClosing
  import opened CandidateSteps

  const REPAIR_RESPONSE_ATTEMPTS: nat := 3

  /** A round needs ten seconds for each of its three gates; times are in nanoseconds. */
  const ROUND_TIME: nat := 30_000_000_000

  datatype LoopError =
    | OutOfTime
    | VerifyFailed(error: VerificationError)
    | FinalizeFailed
    | ReverifyFailed
    | OutputMismatch
    | AttemptsExhausted
    | RepairUnreadable
    | RepairUnbound
    | ProviderFailed
    | RepairRefused
    | NoAttempts

  datatype LoopResult<+T> = Closed(value: T) | Failed(error: LoopError)

  /** What one provider request comes to. */
  datatype Reply = CallFailed | Answered(raw: string)

  // ---- which files to repair ----

  predicate OccursAt(s: string, part: string, i: nat) {
    i + |part| <= |s| && s[i..i + |part|] == part
  }

  predicate Contains(s: string, part: string) {
    exists i: nat :: i <= |s| && OccursAt(s, part, i)
  }

  function Backslashed(s: string): string {
    seq(|s|, i requires 0 <= i < |s| => if s[i] == '/' then '\\' else s[i])
  }

  predicate Mentioned(f: CandidateFile, failure: string) {
    Contains(AsciiLower(failure), PathKey(f)) || Contains(AsciiLower(failure), Backslashed(PathKey(f)))
  }

  /** The indices below `n` of files the failure mentions. */
  function MentionedIndices(files: seq<CandidateFile>, failure: string, n: nat): (r: seq<nat>)
    requires n <= |files|
    ensures forall k :: 0 <= k < |r| ==> r[k] < n && Mentioned(files[r[k]], failure)
    ensures forall j, k :: 0 <= j < k < |r| ==> r[j] < r[k]
    ensures forall i :: 0 <= i < n ==> (i in r <==> Mentioned(files[i], failure))
  {
    if n == 0 then []
    else MentionedIndices(files, failure, n - 1) + (if Mentioned(files[n - 1], failure) then [n - 1] else [])
  }

  /** `repair_target_indices`: the files the failure mentions, or all of them. */
  function Targets(files: seq<CandidateFile>, failure: string): (r: seq<nat>)
    ensures forall k :: 0 <= k < |r| ==> r[k] < |files|
    ensures forall j, k :: 0 <= j < k < |r| ==> r[j] < r[k]
    ensures files != [] ==> r != []
    ensures (exists i :: 0 <= i < |files| && Mentioned(files[i], failure)) ==>
              forall i :: 0 <= i < |files| ==> (i in r <==> Mentioned(files[i], failure))
  {
    var mentioned := MentionedIndices(files, failure, |files|);
    if mentioned == [] then seq(|files|, i => i) else mentioned
  }

  predicate SameIgnoringCase(c: char, d: char) {
    || c == d || ('a' <= c <= 'z' && d as int == c as int - 32) || ('a' <= d <= 'z' && c as int == d as int - 32)
  }

  /** At `k` the failure names the path, in any ASCII case, with this slash between its parts. */
  predicate NamesPath(failure: string, path: string, k: nat, slash: char) {
    && k + |path| <= |failure|
    && forall j :: 0 <= j < |path| ==>
         if path[j] == '/' || path[j] == '\\' then failure[k + j] == slash
         else SameIgnoringCase(failure[k + j], path[j])
  }

  lemma LowerAgrees(c: char, d: char)
    ensures AsciiLower([c]) == AsciiLower([d]) <==> SameIgnoringCase(c, d)
  {
    assert AsciiLower([c])[0] == if 'A' <= c <= 'Z' then (c as int + 32) as char else c;
    assert AsciiLower([d])[0] == if 'A' <= d <= 'Z' then (d as int + 32) as char else d;
  }

  lemma OccursNamed(f: CandidateFile, failure: string, k: nat)
    requires k <= |failure|
    ensures OccursAt(AsciiLower(failure), PathKey(f), k) <==> NamesPath(failure, f.path, k, '/')
    ensures OccursAt(AsciiLower(failure), Backslashed(PathKey(f)), k) <==> NamesPath(failure, f.path, k, '\\')
  {
    if k + |f.path| <= |failure| {
      var part := AsciiLower(failure)[k..k + |f.path|];
      var key := PathKey(f);
      forall j | 0 <= j < |f.path|
        ensures part[j] == key[j] <==> if f.path[j] == '/' || f.path[j] == '\\' then failure[k + j] == '/'
                                       else SameIgnoringCase(failure[k + j], f.path[j])
        ensures part[j] == Backslashed(key)[j]
           <==> if f.path[j] == '/' || f.path[j] == '\\' then failure[k + j] == '\\'
                else SameIgnoringCase(failure[k + j], f.path[j])
      {
        LowerAgrees(failure[k + j], f.path[j]);
        assert AsciiLower([failure[k + j]])[0] == part[j] && AsciiLower([f.path[j]])[0] == AsciiLower(f.path)[j];
      }
    }
  }

  /** A failure mentions a file exactly if it names the file's path somewhere, with either slash throughout. */
  lemma MentionedMeans(f: CandidateFile, failure: string)
    ensures Mentioned(f, failure)
       <==> exists k: nat :: && k <= |failure|
                             && (NamesPath(failure, f.path, k, '/') || NamesPath(failure, f.path, k, '\\'))
  {
    hide OccursAt, NamesPath, AsciiLower;
    assert |AsciiLower(failure)| == |failure| by { LowerLength(failure); }
    forall k: nat | k <= |failure|
      ensures OccursAt(AsciiLower(failure), PathKey(f), k) <==> NamesPath(failure, f.path, k, '/')
      ensures OccursAt(AsciiLower(failure), Backslashed(PathKey(f)), k) <==> NamesPath(failure, f.path, k, '\\')
    {
      OccursNamed(f, failure, k);
    }
  }

  lemma LowerLength(s: string)
    ensures |AsciiLower(s)| == |s|
  {
  }

  lemma {:induction false} NoneMentioned(files: seq<CandidateFile>, failure: string, n: nat)
    requires n <= |files| && forall j :: 0 <= j < n ==> !Mentioned(files[j], failure)
    ensures MentionedIndices(files, failure, n) == []
  {
    hide Mentioned;
    if n > 0 { NoneMentioned(files, failure, n - 1); }
  }

  /** The targets are exactly the files the failure names, or all of them if it names none. */
  lemma TargetsExactly(files: seq<CandidateFile>, failure: string, i: nat)
    requires i < |files|
    ensures i in Targets(files, failure)
       <==> || Mentioned(files[i], failure)
            || forall j :: 0 <= j < |files| ==> !Mentioned(files[j], failure)
  {
    hide Mentioned;
    if forall j :: 0 <= j < |files| ==> !Mentioned(files[j], failure) {
      NoneMentioned(files, failure, |files|);
      assert Targets(files, failure)[i] == i;
    }
  }

  /** The files at these indices have new, valid content; the others and all paths are as they were. */
  ghost predicate Repaired(files: seq<CandidateFile>, repaired: seq<CandidateFile>, done: seq<nat>) {
    && |repaired| == |files|
    && (forall i :: 0 <= i < |files| ==> repaired[i].path == files[i].path)
    && (forall i :: 0 <= i < |files| && i !in done ==> repaired[i] == files[i])
    && (forall i :: 0 <= i < |files| && i in done ==> repaired[i].content != files[i].content && ValidFile(repaired[i]))
  }

  lemma NothingYet(files: seq<CandidateFile>)
    ensures Repaired(files, files, [])
  {
  }

  /** The next target is untouched so far. */
  lemma NotYet(files: seq<CandidateFile>, repaired: seq<CandidateFile>, targets: seq<nat>, k: nat)
    requires k < |targets| && targets[k] < |files| && Repaired(files, repaired, targets[..k])
    requires forall i, j :: 0 <= i < j < |targets| ==> targets[i] < targets[j]
    ensures targets[k] !in targets[..k] && |repaired| == |files| && repaired[targets[k]] == files[targets[k]]
  {
    hide ValidFile;
  }

  lemma RepairedMore(files: seq<CandidateFile>, repaired: seq<CandidateFile>, targets: seq<nat>, k: nat,
                     file: CandidateFile)
    requires k < |targets| && targets[k] < |files| && targets[k] !in targets[..k]
    requires Repaired(files, repaired, targets[..k]) && ValidFile(file)
    requires file.path == files[targets[k]].path && file.content != files[targets[k]].content
    ensures Repaired(files, repaired[targets[k] := file], targets[..k + 1])
  {
    hide ValidFile;
    assert targets[..k + 1] == targets[..k] + [targets[k]];
  }

  // ---- the loop ----

  /** Gates passed a JSON bundle that does not parse. */
  ghost predicate UnsoundPass(env: Env, disk: Disk, plan: string) {
    exists n, files, a :: Built(env, disk, plan, n, files, a) && a.passed && !JsonSound(files)
  }

  /** Whatever a completed loop released, the independent checker accepts it as `n` attempts and `n - 1` repairs,
      exactly if a manifest can hold the root's path. */
  lemma ReleasedVerifies(env: Env, disk: Disk, plan: string, initial: seq<CandidateFile>, n: nat)
    requires Grounded(env) && Completed(env, disk, plan, initial, n)
    ensures var report := Released(env, disk, plan, initial, n).report;
            VerifyEvidence(env, disk, report.manifestPath, report.manifestHash, plan, report.bundleHash)
            == if IsClean(env.root) then Some(Verified(plan, n, n - 1, report.bundleHash, CandidateDir(env, plan, n)))
               else None
    ensures env.hash(Released(env, disk, plan, initial, n).text)
            == Released(env, disk, plan, initial, n).report.bundleHash
  {
    hide LoadAttempt, LoadRepair, AttemptHolds, ValidFiles, VerifyEvidence, FinalManifest, ChainOf;
    CompletedFinal(env, disk, plan, initial, n);
    CompletedRound(env, disk, plan, initial, n, n);
    FinalizeVerifies(env, disk, LoadAttempt(env, disk, plan, n).value);
    FinalizableLast(env, disk, LoadAttempt(env, disk, plan, n).value);
  }

  // ---- one round ----

  lemma TracedStart(env: Env, disk: Disk, plan: string, initial: seq<CandidateFile>)
    ensures Traced(env, disk, plan, initial, 1, initial)
  {
  }

  /** Whether found or built, the attempt of a round is settled and bound. */
  lemma RoundSettles(env: Env, before: Disk, middle: Disk, plan: string, initial: seq<CandidateFile>, n: nat,
                     files: seq<CandidateFile>, a: Attempt)
    requires Sane(env) && Traced(env, before, plan, initial, n, files) && Made(env, before, middle, plan, n, files, a)
    ensures Settled(env, middle, plan, n, files, a) && Traced(env, middle, plan, initial, n, files)
    ensures Bound(env, middle, plan, initial, n) && ValidFiles(files)
  {
    hide LoadAttempt, LoadRepair, Traced, Settled, Bound, Built, OnlyAttempt, ValidFiles, BundleHash, Obstructed;
    if LoadAttempt(env, before, plan, n) == Present(a) {
      FoundSettles(env, middle, plan, n, files, a);
    } else {
      BuiltSettles(env, middle, plan, n, files, a);
    }
    TracedAttempt(env, before, middle, plan, initial, n, files, a);
  }

  lemma MadeValid(env: Env, before: Disk, after: Disk, plan: string, n: nat, files: seq<CandidateFile>, a: Attempt)
    requires Made(env, before, after, plan, n, files, a)
    ensures ValidFiles(files)
  {
  }

  lemma CompletedFrom(env: Env, disk: Disk, plan: string, initial: seq<CandidateFile>, n: nat)
    requires Completed(env, disk, plan, initial, n)
    ensures 1 <= n <= MAX_VERIFICATION_ATTEMPTS && ValidPlanId(plan) && FilesAt(env, disk, plan, initial, 1) == initial
  {
  }

  /** A released round is the completed loop on disk. */
  lemma RoundReleases(env: Env, middle: Disk, plan: string, initial: seq<CandidateFile>, n: nat,
                      files: seq<CandidateFile>, a: Attempt)
    requires Sane(env) && Traced(env, middle, plan, initial, n, files) && Bound(env, middle, plan, initial, n)
    requires Settled(env, middle, plan, n, files, a) && Finalizable(env, middle, a)
    ensures a.planId == plan && a.number == n && a.bundleHash == BundleHash(env, files)
    ensures var manifest := FinalManifest(env, a, ChainOf(env, middle, plan, n).value);
            var after := middle[FinalPath(env, plan) := manifest];
            && Completed(env, after, plan, initial, n) == true
            && Released(env, after, plan, initial, n)
            == ClosedCandidate(Output(files), Report(FinalPath(env, plan), env.hash(manifest), a.bundleHash, n, n - 1))
  {
    hide LoadAttempt, LoadRepair, AttemptHolds, ValidFiles, Traced, Bound, Completed, FilesAt, FinalManifest, ChainOf;
    FinalizeCompletes(env, middle, plan, initial, n, files, a);
  }

  /** A failed round whose repair is on disk or was just stored is traced, and the next bundle with it. */
  lemma RoundStored(env: Env, middle: Disk, plan: string, initial: seq<CandidateFile>, n: nat,
                    files: seq<CandidateFile>, a: Attempt, model: string, repaired: seq<CandidateFile>)
    requires Traced(env, middle, plan, initial, n, files) && Bound(env, middle, plan, initial, n)
    requires Settled(env, middle, plan, n, files, a) && RepairStored(env, middle, a, model, repaired)
    ensures Traced(env, RepairDisk(env, middle, a, model, repaired), plan, initial, n + 1, repaired)
  {
    hide LoadAttempt, LoadRepair, ValidFiles, Traced, Bound, RepairDisk, RepairHolds, BundleHash, ValidModel,
         WriteAll;
    StoredPlan(env, middle, a, model, repaired);
    SamePlan(env, plan, a.planId, n, a.number);
    TracedStored(env, middle, plan, initial, n, files, a, model, repaired);
  }

  lemma StoredPlan(env: Env, disk: Disk, a: Attempt, model: string, repaired: seq<CandidateFile>)
    requires RepairStored(env, disk, a, model, repaired)
    ensures ValidPlanId(a.planId) && a.manifestPath == AttemptPath(env, a.planId, a.number)
  {
    hide BundleMatches, CommandMatches, RepairHolds, WriteAll, ValidFiles;
  }

  /** In a fresh run attempt `n` is always built. */
  lemma FreshIsBuilt(env: Env, before: Disk, middle: Disk, plan: string, n: nat, files: seq<CandidateFile>,
                     links: seq<Link>, a: Attempt)
    requires FreshRound(env, before, plan, n, files, links) && Made(env, before, middle, plan, n, files, a)
    ensures ValidPlanId(plan) && ValidFiles(files) && 1 <= n <= MAX_VERIFICATION_ATTEMPTS
    ensures OnlyAttempt(before, middle, AttemptDir(env, plan, n))
    ensures ProfileOf(files) != Unsupported && Built(env, middle, plan, n, files, a)
    ensures !Obstructed(middle, AttemptPath(env, plan, n)) && LoadRepair(env, middle, plan, n) == Missing
  {
    hide LoadAttempt, LoadRepair, ValidFiles, OnlyAttempt, Built, Linked, Obstructed, Untouched;
    UntouchedAt(env, before, plan, n);
    NothingThere(env, before, plan, n);
    FreshAttempt(env, before, middle, plan, n);
  }

  /** A program that the checker takes for cargo, and whose path a manifest can hold. */
  ghost predicate CargoFits(env: Env) {
    ValidProgram(env.cargo) && IsClean(env.cargo)
  }

  /** A fresh passing round fails to finalise only if gates passed an unsound bundle or are not run by cargo. */
  lemma FreshFinalizes(env: Env, before: Disk, middle: Disk, plan: string, n: nat, files: seq<CandidateFile>,
                       links: seq<Link>, a: Attempt)
    requires Sane(env) && FreshRound(env, before, plan, n, files, links)
    requires Made(env, before, middle, plan, n, files, a) && a.passed && !Finalizable(env, middle, a) && CargoFits(env)
    ensures UnsoundPass(env, middle, plan)
  {
    hide LoadAttempt, LoadRepair, ValidFiles, OnlyAttempt, Built, FreshRound, Finalizable, Made, Obstructed;
    FreshIsBuilt(env, before, middle, plan, n, files, links, a);
    if JsonSound(files) {
      FreshPass(env, before, middle, plan, n, files, links, a);
    } else {
      assert Built(env, middle, plan, n, files, a) && a.passed && !JsonSound(files);
    }
  }

  /** A fresh failed round, once its repair is stored, leaves a fresh round. */
  lemma FreshGoesOn(env: Env, before: Disk, middle: Disk, plan: string, n: nat, files: seq<CandidateFile>,
                    links: seq<Link>, a: Attempt, model: string, repaired: seq<CandidateFile>) returns (next: seq<Link>)
    requires Sane(env) && FreshRound(env, before, plan, n, files, links)
    requires Made(env, before, middle, plan, n, files, a) && RepairStored(env, middle, a, model, repaired)
    ensures FreshRound(env, RepairDisk(env, middle, a, model, repaired), plan, n + 1, repaired, next)
  {
    hide LoadAttempt, LoadRepair, ValidFiles, OnlyAttempt, Built, FreshRound, RepairStored, RepairDisk, Made,
         Obstructed;
    FreshIsBuilt(env, before, middle, plan, n, files, links, a);
    next := FreshRepaired(env, before, middle, plan, n, files, links, a, model, repaired);
  }

  class ProviderLoop {
    const verifier: CandidateVerifier
    const plan: string
    const model: string
    const reply: nat -> Reply                       // what the k-th request comes to
    const artifact: (string, string) -> Option<string> // the file an answer carries for a path
    const timeLeft: nat -> nat                      // what the k-th look at the clock leaves until the deadline
    var requests: nat
    var looks: nat

    constructor (verifier: CandidateVerifier, plan: string, model: string, reply: nat -> Reply,
                 artifact: (string, string) -> Option<string>, timeLeft: nat -> nat)
      ensures this.verifier == verifier && this.plan == plan && this.model == model
      ensures this.reply == reply && this.artifact == artifact && this.timeLeft == timeLeft
      ensures requests == 0 && looks == 0
    {
      this.verifier := verifier;
      this.plan := plan;
      this.model := model;
      this.reply := reply;
      this.artifact := artifact;
      this.timeLeft := timeLeft;
      requests, looks := 0, 0;
    }

    /** `remaining` */
    method Look() returns (left: nat)
      modifies this`looks
      ensures looks == old(looks) + 1 && left == timeLeft(old(looks))
    {
      left := timeLeft(looks);
      looks := looks + 1;
    }

    /** The answer has no content for the file, or the one it has already. */
    predicate Unusable(current: CandidateFile, k: nat) {
      && reply(k).Answered?
      && (artifact(current.path, reply(k).raw) == None || artifact(current.path, reply(k).raw) == Some(current.content))
    }

    /** `request_file_repair`: at most three requests for one file; an answer that changes nothing is refused. */
    method RequestFileRepair(current: CandidateFile) returns (r: LoopResult<string>)
      modifies this`requests, this`looks
      ensures old(requests) <= requests <= old(requests) + 3
      ensures r.Closed? ==> requests > old(requests) && r.value != current.content && reply(requests - 1).Answered?
                            && artifact(current.path, reply(requests - 1).raw) == Some(r.value)
      ensures r.Failed? ==> r.error == ProviderFailed || (r.error == OutOfTime && looks > 0 && timeLeft(looks - 1) == 0)
      ensures r == Failed(ProviderFailed) ==>
                requests > old(requests)
                && (reply(requests - 1).CallFailed?
                    || (requests == old(requests) + 3 && Unusable(current, requests - 1)))
      ensures forall k: nat :: old(requests) <= k < requests - 1 ==> Unusable(current, k)
      ensures r == Failed(OutOfTime) && requests > old(requests) ==> Unusable(current, requests - 1)
    {
      for attempt := 0 to REPAIR_RESPONSE_ATTEMPTS
        invariant requests == old(requests) + attempt
        invariant forall k: nat :: old(requests) <= k < requests ==> Unusable(current, k)
      {
        var left := Look();
        if left == 0 { return Failed(OutOfTime); }
        var answer := reply(requests);
        requests := requests + 1;
        if answer.CallFailed? { return Failed(ProviderFailed); }
        var content := artifact(current.path, answer.raw);
        if content.Some? && content.value != current.content { return Closed(content.value); }
      }
      r := Failed(ProviderFailed);
    }

    /** The content of file `t` is that of an answer to one of these requests. */
    ghost predicate AnsweredFor(files: seq<CandidateFile>, t: nat, from: nat, to: nat) {
      t < |files| && exists k: nat :: from <= k < to && Brings(k, files[t])
    }

    predicate Brings(k: nat, f: CandidateFile) {
      reply(k).Answered? && artifact(f.path, reply(k).raw) == Some(f.content)
    }

    lemma AnsweredMore(files: seq<CandidateFile>, targets: seq<nat>, k: nat, f: CandidateFile, from: nat, before: nat,
                       to: nat)
      requires k < |targets| && (forall j, l :: 0 <= j < l < |targets| ==> targets[j] < targets[l])
      requires targets[k] < |files| && from <= before < to && Brings(to - 1, f)
      requires forall j :: 0 <= j < k ==> AnsweredFor(files, targets[j], from, before)
      ensures forall j :: 0 <= j < k + 1 ==> AnsweredFor(files[targets[k] := f], targets[j], from, to)
    {
      hide Brings;
      var after := files[targets[k] := f];
      forall j | 0 <= j < k + 1 ensures AnsweredFor(after, targets[j], from, to) {
        if j < k {
          assert targets[j] != targets[k] && after[targets[j]] == files[targets[j]];
          var i: nat :| from <= i < before && Brings(i, files[targets[j]]);
        } else {
          assert after[targets[j]] == f && from <= to - 1 < to;
        }
      }
    }

    /** `repair_candidate`: exactly the targets get new, valid content; paths stay. */
    method RepairCandidate(files: seq<CandidateFile>, failure: string) returns (r: LoopResult<seq<CandidateFile>>)
      modifies this`requests, this`looks
      ensures old(requests) <= requests <= old(requests) + 3 * |Targets(files, failure)|
      ensures r.Failed? ==> r.error in {ProviderFailed, RepairRefused, OutOfTime}
      ensures r.Closed? ==> Repaired(files, r.value, Targets(files, failure))
      ensures r.Closed? ==>
                forall k :: 0 <= k < |Targets(files, failure)| ==>
                  AnsweredFor(r.value, Targets(files, failure)[k], old(requests), requests)
    {
      hide ValidFile, Repaired, AnsweredFor;
      var targets := Targets(files, failure);
      var repaired := files;
      NothingYet(files);
      for k := 0 to |targets|
        invariant old(requests) <= requests <= old(requests) + 3 * k
        invariant |repaired| == |files| && Repaired(files, repaired, targets[..k])
        invariant forall j :: 0 <= j < k ==> AnsweredFor(repaired, targets[j], old(requests), requests)
      {
        var index := targets[k];
        NotYet(files, repaired, targets, k);
        ghost var before := requests;
        var content := RequestFileRepair(repaired[index]);
        if content.Failed? { return Failed(content.error); }
        var file := CandidateFile(repaired[index].path, content.value);
        if !ValidFile(file) { return Failed(RepairRefused); }
        RepairedMore(files, repaired, targets, k, file);
        AnsweredMore(repaired, targets, k, file, old(requests), before, requests);
        repaired := repaired[index := file];
      }
      assert targets[..|targets|] == targets;
      r := Closed(repaired);
    }

    /** The end of the loop: finalise, have the evidence verified independently, release the bundle's text. */
    method Release(attempt: Attempt, files: seq<CandidateFile>) returns (r: LoopResult<ClosedCandidate>)
      requires ValidFiles(files)
      modifies verifier`disk
      ensures var env, before := verifier.env, old(verifier.disk);
              if Finalizable(env, before, attempt) then
                var manifest := FinalManifest(env, attempt, ChainOf(env, before, attempt.planId, attempt.number).value);
                && verifier.disk == before[FinalPath(env, attempt.planId) := manifest]
                && (Sane(env) && attempt.planId == plan && attempt.bundleHash == BundleHash(env, files) ==>
                      r == Closed(ClosedCandidate(Output(files),
                                    Report(FinalPath(env, plan), env.hash(manifest), attempt.bundleHash,
                                           attempt.number, attempt.number - 1))))
              else r == Failed(FinalizeFailed) && verifier.disk == before
    {
      hide AttemptHolds, VerifyEvidence, ChainOf, FinalManifest, ValidFiles;
      ghost var before := verifier.disk;
      var success := verifier.Finalize(attempt);
      if success.Errored? { return Failed(FinalizeFailed); }
      assert Finalizable(verifier.env, before, attempt);
      var s := success.value;
      var verified := VerifyEvidence(verifier.env, verifier.disk, s.manifestPath, s.manifestHash, plan, s.bundleHash);
      if Sane(verifier.env) { FinalizeVerifies(verifier.env, before, attempt); }
      if verified == None { return Failed(ReverifyFailed); }
      var text := CandidateOutput(files);
      if text == None { return Failed(VerifyFailed(InvalidCandidate)); }
      if verifier.env.hash(text.value) != s.bundleHash { return Failed(OutputMismatch); }
      r := Closed(ClosedCandidate(text.value, Report(s.manifestPath, s.manifestHash, s.bundleHash,
                                                     verified.value.attempts, verified.value.repairs)));
    }

    /** The bundle after a failed attempt: that of the repair on disk, or of a repair asked for and stored now. */
    method NextFiles(attempt: Attempt, ordinal: nat, files: seq<CandidateFile>)
      returns (r: LoopResult<seq<CandidateFile>>)
      modifies this`requests, this`looks, verifier`disk
      ensures var env, before := verifier.env, old(verifier.disk);
              match LoadRepair(env, before, plan, ordinal)
              case Corrupt => r == Failed(RepairUnreadable) && verifier.disk == before && requests == old(requests)
              case Present(repair) =>
                && verifier.disk == before && requests == old(requests)
                && r == if repair.sourceHash == attempt.bundleHash then Closed(repair.files) else Failed(RepairUnbound)
              case Missing =>
                && (r.Failed? ==> r.error in {ProviderFailed, RepairRefused, OutOfTime})
                && (r.Closed? ==>
                      && Repaired(files, r.value, Targets(files, attempt.failure))
                      && RepairStored(env, before, attempt, model, r.value)
                      && verifier.disk == RepairDisk(env, before, attempt, model, r.value))
    {
      hide LoadRepair, RepairStored, RepairDisk, RepairFor, Repaired, Targets;
      var loaded := LoadRepair(verifier.env, verifier.disk, plan, ordinal);
      if loaded.Corrupt? { return Failed(RepairUnreadable); }
      if loaded.Present? {
        if loaded.value.sourceHash != attempt.bundleHash { return Failed(RepairUnbound); }
        return Closed(loaded.value.files);
      }
      var repaired := RepairCandidate(files, attempt.failure);
      if repaired.Failed? { return repaired; }
      var stored := verifier.StoreRepair(attempt, model, repaired.value);
      if stored.Errored? { return Failed(RepairRefused); }
      RepairKeepsFiles(verifier.env, attempt, model, repaired.value);
      r := Closed(stored.value.files);
    }

    lemma RepairKeepsFiles(env: Env, a: Attempt, model: string, files: seq<CandidateFile>)
      ensures RepairFor(env, a, model, files).files == files
    {
    }

    /** No look at the clock finds too little time for a round. */
    ghost predicate InTime() {
      forall k :: timeLeft(k) >= ROUND_TIME
    }

    lemma AlwaysTime(k: nat)
      requires InTime()
      ensures timeLeft(k) >= ROUND_TIME
    {
    }

    /** `close_candidate_loop`, for any reading `goal` of where an earlier run of the same call may have ended. */
    method CloseCandidate(initial: seq<CandidateFile>, limit: nat, ghost goal: nat)
      returns (r: LoopResult<ClosedCandidate>)
      modifies this`requests, this`looks, verifier`disk, verifier`gatesRun
      // A release is the completed chain on disk, text and report.
      ensures Sane(verifier.env) && r.Closed? ==>
                var n := r.value.report.attempts;
                && n <= limit && Completed(verifier.env, verifier.disk, plan, initial, n) == true
                && r.value == Released(verifier.env, verifier.disk, plan, initial, n)
      // Finalised evidence is never refused, and the text is always that of the bundle that passed.
      ensures Sane(verifier.env) && r.Failed? ==> r.error != ReverifyFailed && r.error != OutputMismatch
      // A fresh run never finds a repair it cannot use, and its passing attempt is refused only if gates passed a
      // bundle that does not parse or are run by a program that is not taken for cargo.
      ensures Sane(verifier.env) && FreshPlan(verifier.env, old(verifier.disk), plan) && r.Failed? ==>
                && r.error != RepairUnreadable && r.error != RepairUnbound
                && (r.error == FinalizeFailed && CargoFits(verifier.env) ==>
                      UnsoundPass(verifier.env, verifier.disk, plan) == true)
      // Run again after a success and in time, it does nothing and returns the same.
      ensures Sane(verifier.env) && InTime() && goal <= limit
              && Completed(verifier.env, old(verifier.disk), plan, initial, goal) ==>
                && r == Closed(Released(verifier.env, old(verifier.disk), plan, initial, goal))
                && verifier.disk == old(verifier.disk) && verifier.gatesRun == old(verifier.gatesRun)
                && requests == old(requests)
    {
      hide *;
      ghost var env, start := verifier.env, verifier.disk;
      ghost var rerun := InTime() && goal <= limit && Completed(env, start, plan, initial, goal);
      ghost var startsFresh := Sane(env) && FreshPlan(env, start, plan);
      ghost var links: seq<Link> := [];
      var files := initial;
      if startsFresh { FreshStart(env, start, plan, initial); }
      TracedStart(env, start, plan, initial);
      if rerun { CompletedFrom(env, start, plan, initial, goal); }
      for ordinal := 1 to limit + 1
        invariant Sane(env) ==> Traced(env, verifier.disk, plan, initial, ordinal, files)
        invariant startsFresh ==> FreshRound(env, verifier.disk, plan, ordinal, files, links)
        invariant Sane(env) && rerun ==>
                    && verifier.disk == start && verifier.gatesRun == old(verifier.gatesRun)
                    && requests == old(requests)
                    && ordinal <= goal && files == FilesAt(env, start, plan, initial, ordinal)
      {
        ghost var before := verifier.disk;
        if Sane(env) && rerun { CompletedRound(env, start, plan, initial, goal, ordinal); }
        var left := Look();
        if rerun { AlwaysTime(looks - 1); }
        if left < ROUND_TIME { return Failed(OutOfTime); }
        var made := verifier.VerifyAttempt(plan, ordinal, files);
        if made.Errored? { return Failed(VerifyFailed(made.error)); }
        var attempt := made.value;
        ghost var middle := verifier.disk;
        if Sane(env) { RoundSettles(env, before, middle, plan, initial, ordinal, files, attempt); }
        if startsFresh { FreshIsBuilt(env, before, middle, plan, ordinal, files, links, attempt); }
        if attempt.passed {
          MadeValid(env, before, middle, plan, ordinal, files, attempt);
          r := Release(attempt, files);
          if Sane(env) && Finalizable(env, middle, attempt) {
            RoundReleases(env, middle, plan, initial, ordinal, files, attempt);
          }
          if startsFresh && CargoFits(env) && !Finalizable(env, middle, attempt) {
            FreshFinalizes(env, before, middle, plan, ordinal, files, links, attempt);
          }
          if Sane(env) && rerun { CompletedFinal(env, start, plan, initial, goal); }
          return;
        }
        if ordinal == limit { return Failed(AttemptsExhausted); }
        var next := NextFiles(attempt, ordinal, files);
        if next.Failed? { return Failed(next.error); }
        if Sane(env) {
          if LoadRepair(env, middle, plan, ordinal).Present? {
            TracedFound(env, middle, plan, initial, ordinal, files);
          } else {
            RoundStored(env, middle, plan, initial, ordinal, files, attempt, model, next.value);
          }
        }
        if startsFresh {
          links := FreshGoesOn(env, before, middle, plan, ordinal, files, links, attempt, model, next.value);
        }
        files := next.value;
      }
      r := Failed(NoAttempts);
    }
  }
}
