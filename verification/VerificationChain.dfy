/** What an accepted chain of evidence means, and what its hashed texts determine. */
module VerificationChain {
  import opened Text
  import opened JsonGrammar
  import opened JsonParser
  import opened JsonRecords
  import opened JsonCompleteness
  import opened VerificationModel
  import opened VerificationStore

  // ---- load_chain finds exactly the closed chains ----

  /** Link `i` is what the disk holds, behind the repair that led to it. */
  ghost predicate LinkFits(env: Env, disk: Disk, plan: string, n: nat, i: nat, prior: Option<Repair>, l: Link) {
    && AttemptLinks(env, disk, plan, n, i, l.attempt)
    && (prior.Some? ==> prior.value.repairedHash == l.attempt.bundleHash)
    && (l.repair.Some? <==> i < n)
    && (i < n ==> RepairLinks(env, disk, plan, i, l.attempt, l.repair.value))
  }

  lemma LinkAtFits(env: Env, disk: Disk, plan: string, n: nat, i: nat, prior: Option<Repair>, l: Link)
    requires i <= n
    ensures LinkAt(env, disk, plan, n, i, prior) == Some(l) <==> LinkFits(env, disk, plan, n, i, prior, l)
  {
  }

  type Fits = (nat, Option<Repair>, Link) -> bool

  function Prior(links: seq<Link>, i: nat): Option<Repair>
    requires i <= |links|
  {
    if i == 0 then None else links[i - 1].repair
  }

  ghost predicate FitsAt(fits: Fits, links: seq<Link>, i: nat)
    requires i < |links|
  {
    fits(i + 1, Prior(links, i), links[i])
  }

  ghost predicate AllFit(fits: Fits, links: seq<Link>) {
    forall i :: 0 <= i < |links| ==> FitsAt(fits, links, i)
  }

  lemma AllFitSnoc(fits: Fits, front: seq<Link>, l: Link)
    ensures AllFit(fits, front + [l]) <==> AllFit(fits, front) && fits(|front| + 1, LastRepair(front), l)
  {
    var links := front + [l];
    forall i | 0 <= i < |front| ensures FitsAt(fits, links, i) == FitsAt(fits, front, i) {
      assert links[i] == front[i] && Prior(links, i) == Prior(front, i);
    }
    assert Prior(links, |front|) == LastRepair(front);
    assert FitsAt(fits, links, |front|) == fits(|front| + 1, LastRepair(front), l);
  }

  lemma CollectLast(step: (nat, Option<Repair>) -> Option<Link>, k: nat, links: seq<Link>)
    requires 0 < k
    ensures Collect(step, k) == Some(links) <==>
            && |links| == k && Collect(step, k - 1) == Some(links[..k - 1])
            && step(k, LastRepair(links[..k - 1])) == Some(links[k - 1])
  {
    if |links| == k {
      assert links == links[..k - 1] + [links[k - 1]];
    }
    var front := Collect(step, k - 1);
    if Collect(step, k) == Some(links) {
      assert links[..k - 1] == front.value;
    }
  }

  /** A loop whose steps return exactly the fitting links collects exactly the fitting chains. */
  lemma {:induction false} CollectFits(
    step: (nat, Option<Repair>) -> Option<Link>, fits: Fits, k: nat, links: seq<Link>)
    requires forall i: nat, prior, l :: i <= k ==> (step(i, prior) == Some(l) <==> fits(i, prior, l))
    ensures Collect(step, k) == Some(links) <==> |links| == k && AllFit(fits, links)
    decreases k
  {
    if k > 0 {
      CollectLast(step, k, links);
      if |links| == k {
        var front, l := links[..k - 1], links[k - 1];
        assert links == front + [l];
        CollectFits(step, fits, k - 1, front);
        AllFitSnoc(fits, front, l);
      }
    }
  }

  ghost function FitsOf(env: Env, disk: Disk, plan: string, n: nat): Fits {
    (i: nat, prior: Option<Repair>, l: Link) => LinkFits(env, disk, plan, n, i, prior, l)
  }

  lemma LinkedIsAllFit(env: Env, disk: Disk, plan: string, n: nat, links: seq<Link>)
    requires |links| <= n
    ensures Linked(env, disk, plan, n, links) <==>
            AllFit(FitsOf(env, disk, plan, n), links)
  {
    hide LoadAttempt, LoadRepair;
    var fits := FitsOf(env, disk, plan, n);
    if Linked(env, disk, plan, n, links) {
      forall i | 0 <= i < |links| ensures FitsAt(fits, links, i) {
        assert LinkFits(env, disk, plan, n, i + 1, Prior(links, i), links[i]);
      }
    }
    if AllFit(fits, links) {
      forall i | 0 <= i < |links|
        ensures AttemptLinks(env, disk, plan, n, i + 1, links[i].attempt)
        ensures links[i].repair.Some? <==> i + 1 < n
        ensures i + 1 < n ==> RepairLinks(env, disk, plan, i + 1, links[i].attempt, links[i].repair.value)
        ensures 0 < i && links[i - 1].repair.Some? ==>
                  links[i - 1].repair.value.repairedHash == links[i].attempt.bundleHash
      {
        assert FitsAt(fits, links, i);
        assert LinkFits(env, disk, plan, n, i + 1, Prior(links, i), links[i]);
      }
    }
  }

  lemma UpToLinked(env: Env, disk: Disk, plan: string, n: nat, links: seq<Link>)
    ensures LinksUpTo(env, disk, plan, n, n) == Some(links) <==> |links| == n && Linked(env, disk, plan, n, links)
  {
    var step := Step(env, disk, plan, n);
    var fits := FitsOf(env, disk, plan, n);
    forall i: nat, prior, l | i <= n ensures step(i, prior) == Some(l) <==> fits(i, prior, l) {
      LinkAtFits(env, disk, plan, n, i, prior, l);
    }
    CollectFits(step, fits, n, links);
    if |links| == n { LinkedIsAllFit(env, disk, plan, n, links); }
  }

  /** `load_chain` succeeds exactly on a closed chain, and returns it. */
  lemma ChainIsClosed(env: Env, disk: Disk, plan: string, n: nat, links: seq<Link>)
    ensures ChainOf(env, disk, plan, n) == Some(links) <==> Closed(env, disk, plan, n, links)
  {
    UpToLinked(env, disk, plan, n, links);
  }

  /** Every attempt recomputes from disk and only the last passed; repair `i` leads from the bundle of
      attempt `i` to the bundle of attempt `i + 1` and carries files of that bundle. */
  ghost predicate ChainMeans(env: Env, disk: Disk, links: seq<Link>) {
    && (forall i :: 0 <= i < |links| ==> AttemptHolds(env, disk, links[i].attempt))
    && (forall i :: 0 <= i < |links| ==> (links[i].attempt.passed <==> i == |links| - 1))
    && (forall i :: 0 <= i < |links| - 1 ==>
          && links[i].repair.Some?
          && var r := links[i].repair.value;
             && r.sourceHash == links[i].attempt.bundleHash && r.repairedHash == links[i + 1].attempt.bundleHash
             && BundleHash(env, r.files) == r.repairedHash)
  }

  /** What accepting a final manifest means: attempts 1 to n of the plan are a closed chain with that
      meaning, the claim is the last one's bundle, and no repair and no attempt follows. */
  lemma AcceptedEvidence(env: Env, disk: Disk, path: string, manifestHash: string, plan: string, bundleHash: string)
    returns (links: seq<Link>)
    requires VerifyEvidence(env, disk, path, manifestHash, plan, bundleHash).Some?
    ensures var v := VerifyEvidence(env, disk, path, manifestHash, plan, bundleHash).value;
            var above := env.(root := Parent(Parent(Parent(path))));
            && Closed(above, disk, plan, v.attempts, links) && v.repairs == v.attempts - 1
            && links[v.attempts - 1].attempt.bundleHash == bundleHash
            && links[v.attempts - 1].attempt.candidateDir == v.candidateDir
            && ChainMeans(above, disk, links)
  {
    links := AcceptedChain(env, disk, path, manifestHash, plan, bundleHash);
    ClosedMeans(env.(root := Parent(Parent(Parent(path)))), disk, plan, |links|, links);
  }

  lemma AcceptedChain(env: Env, disk: Disk, path: string, manifestHash: string, plan: string, bundleHash: string)
    returns (links: seq<Link>)
    requires VerifyEvidence(env, disk, path, manifestHash, plan, bundleHash).Some?
    ensures var v := VerifyEvidence(env, disk, path, manifestHash, plan, bundleHash).value;
            && Closed(env.(root := Parent(Parent(Parent(path)))), disk, plan, v.attempts, links)
            && v.repairs == v.attempts - 1
            && links[v.attempts - 1].attempt.bundleHash == bundleHash
            && links[v.attempts - 1].attempt.candidateDir == v.candidateDir
  {
    hide ReadFinal, ChainOf, Closed, FinalPlace, ValidTag, ValidPlanId, History, Exists;
    var v := VerifyEvidence(env, disk, path, manifestHash, plan, bundleHash).value;
    var above := env.(root := Parent(Parent(Parent(path))));
    FinalCounts(ResultOf(disk[path]).value, plan, bundleHash);
    links := ChainOf(above, disk, plan, v.attempts).value;
    ChainIsClosed(above, disk, plan, v.attempts, links);
  }

  lemma FinalCounts(v: JsonValue, plan: string, bundleHash: string)
    requires ReadFinal(v, plan, bundleHash).Some?
    ensures var f := ReadFinal(v, plan, bundleHash).value; f.attempts >= 1 && f.repairs == f.attempts - 1
  {
    hide Exact, JsonU64, JsonU32, JsonString, Get, ValidTag;
  }

  /** What a loaded attempt, and a loaded repair, is known to be. */
  lemma LoadedAttempt(env: Env, disk: Disk, plan: string, i: nat, a: Attempt)
    requires LoadAttempt(env, disk, plan, i) == Present(a)
    ensures AttemptHolds(env, disk, a)
  {
    hide ParseAttempt, AttemptHolds;
  }

  lemma AttemptTags(env: Env, disk: Disk, a: Attempt)
    requires AttemptHolds(env, disk, a)
    ensures ValidTag(a.bundleHash) && ValidTag(a.manifestHash)
  {
    hide BundleMatches, CommandMatches, PathsMatch, GatesClose, ValidTag;
  }

  lemma RepairBundle(env: Env, disk: Disk, plan: string, i: nat, r: Repair)
    requires LoadRepair(env, disk, plan, i) == Present(r)
    ensures BundleHash(env, r.files) == r.repairedHash
  {
    hide LoadRepair, BundleHash, ValidTag, ValidPlanId, ValidModel, ValidFiles;
    LoadedRepair(env, disk, plan, i, r);
  }

  lemma LoadedRepair(env: Env, disk: Disk, plan: string, i: nat, r: Repair)
    requires LoadRepair(env, disk, plan, i) == Present(r)
    ensures RepairFieldsValid(env, r) && ValidTag(r.manifestHash)
  {
    hide ParseRepair, RepairFieldsValid, ValidTag;
  }

  lemma ClosedMeans(env: Env, disk: Disk, plan: string, n: nat, links: seq<Link>)
    requires Closed(env, disk, plan, n, links)
    ensures ChainMeans(env, disk, links)
  {
    hide LoadAttempt, LoadRepair, AttemptHolds, BundleHash, ValidPlanId;
    forall i | 0 <= i < n
      ensures links[i].attempt.passed <==> i == n - 1
      ensures AttemptHolds(env, disk, links[i].attempt)
    {
      assert AttemptLinks(env, disk, plan, n, i + 1, links[i].attempt);
      LoadedAttempt(env, disk, plan, i + 1, links[i].attempt);
    }
    forall i | 0 <= i < n - 1
      ensures RepairLinks(env, disk, plan, i + 1, links[i].attempt, links[i].repair.value)
      ensures BundleHash(env, links[i].repair.value.files) == links[i].repair.value.repairedHash
      ensures links[i].repair.value.repairedHash == links[i + 1].attempt.bundleHash
    {
      assert RepairLinks(env, disk, plan, i + 1, links[i].attempt, links[i].repair.value);
      RepairBundle(env, disk, plan, i + 1, links[i].repair.value);
      var j := i + 1;
      assert links[j - 1].repair.value.repairedHash == links[j].attempt.bundleHash;
    }
  }

  // ---- the history text determines the chain's hashes ----

  /** Tags have one length, and every link but the last has its repair. */
  ghost predicate WellTagged(links: seq<Link>) {
    && (forall i :: 0 <= i < |links| ==> Tagged(links[i]))
    && (forall i :: 0 <= i < |links| ==> (links[i].repair.Some? <==> i + 1 < |links|))
  }

  ghost predicate Tagged(l: Link) {
    && |l.attempt.bundleHash| == 71 && |l.attempt.manifestHash| == 71
    && (l.repair.Some? ==>
          && |l.repair.value.sourceHash| == 71 && |l.repair.value.repairedHash| == 71
          && |l.repair.value.manifestHash| == 71)
  }

  ghost predicate SameHashes(l: Link, m: Link) {
    && l.attempt.bundleHash == m.attempt.bundleHash && l.attempt.manifestHash == m.attempt.manifestHash
    && (l.repair.Some? <==> m.repair.Some?)
    && (l.repair.Some? ==>
          && l.repair.value.sourceHash == m.repair.value.sourceHash
          && l.repair.value.repairedHash == m.repair.value.repairedHash
          && l.repair.value.manifestHash == m.repair.value.manifestHash)
  }

  function LinkLength(k: nat, repaired: bool): nat {
    |Decimal(k)| + 153 + if repaired then |Decimal(k)| + 224 else 0
  }

  lemma LinkTextLength(k: nat, l: Link)
    requires Tagged(l)
    ensures |LinkText(k, l)| == LinkLength(k, l.repair.Some?)
  {
  }

  lemma SplitEqual(a: string, b: string, c: string, d: string)
    requires a + b == c + d && |a| == |c|
    ensures a == c && b == d
  {
    assert (a + b)[..|a|] == a && (c + d)[..|c|] == c;
    assert (a + b)[|a|..] == b && (c + d)[|c|..] == d;
  }

  lemma AttemptLineDetermines(k: nat, a: Attempt, b: Attempt)
    requires |a.bundleHash| == 71 && |b.bundleHash| == 71 && |a.manifestHash| == 71 && |b.manifestHash| == 71
    requires AttemptLine(k, a) == AttemptLine(k, b)
    ensures a.bundleHash == b.bundleHash && a.manifestHash == b.manifestHash
  {
    var head := "attempt:" + Decimal(k) + ":";
    assert AttemptLine(k, a) == head + (a.bundleHash + (":" + (a.manifestHash + "\n")));
    assert AttemptLine(k, b) == head + (b.bundleHash + (":" + (b.manifestHash + "\n")));
    SplitEqual(head, a.bundleHash + (":" + (a.manifestHash + "\n")),
               head, b.bundleHash + (":" + (b.manifestHash + "\n")));
    SplitEqual(a.bundleHash, ":" + (a.manifestHash + "\n"), b.bundleHash, ":" + (b.manifestHash + "\n"));
    SplitEqual(":", a.manifestHash + "\n", ":", b.manifestHash + "\n");
    SplitEqual(a.manifestHash, "\n", b.manifestHash, "\n");
  }

  lemma RepairLineDetermines(k: nat, a: Repair, b: Repair)
    requires |a.sourceHash| == 71 && |b.sourceHash| == 71 && |a.repairedHash| == 71 && |b.repairedHash| == 71
    requires |a.manifestHash| == 71 && |b.manifestHash| == 71 && RepairLine(k, a) == RepairLine(k, b)
    ensures a.sourceHash == b.sourceHash && a.repairedHash == b.repairedHash && a.manifestHash == b.manifestHash
  {
    var head := "repair:" + Decimal(k) + ":";
    var a2 := ":" + (a.manifestHash + "\n");
    var b2 := ":" + (b.manifestHash + "\n");
    var a1 := ":" + (a.repairedHash + a2);
    var b1 := ":" + (b.repairedHash + b2);
    assert RepairLine(k, a) == head + (a.sourceHash + a1);
    assert RepairLine(k, b) == head + (b.sourceHash + b1);
    SplitEqual(head, a.sourceHash + a1, head, b.sourceHash + b1);
    SplitEqual(a.sourceHash, a1, b.sourceHash, b1);
    SplitEqual(":", a.repairedHash + a2, ":", b.repairedHash + b2);
    SplitEqual(a.repairedHash, a2, b.repairedHash, b2);
    SplitEqual(":", a.manifestHash + "\n", ":", b.manifestHash + "\n");
    SplitEqual(a.manifestHash, "\n", b.manifestHash, "\n");
  }

  lemma LinkTextDetermines(k: nat, l: Link, m: Link)
    requires Tagged(l) && Tagged(m) && (l.repair.Some? <==> m.repair.Some?) && LinkText(k, l) == LinkText(k, m)
    ensures SameHashes(l, m)
  {
    SplitEqual(AttemptLine(k, l.attempt), if l.repair.Some? then RepairLine(k, l.repair.value) else "",
               AttemptLine(k, m.attempt), if m.repair.Some? then RepairLine(k, m.repair.value) else "");
    AttemptLineDetermines(k, l.attempt, m.attempt);
    if l.repair.Some? { RepairLineDetermines(k, l.repair.value, m.repair.value); }
  }

  lemma {:induction false} LinksTextDetermines(ls: seq<Link>, ms: seq<Link>)
    requires |ls| == |ms| && LinksText(ls) == LinksText(ms)
    requires forall i :: 0 <= i < |ls| ==> Tagged(ls[i]) && Tagged(ms[i])
    requires forall i :: 0 <= i < |ls| ==> (ls[i].repair.Some? <==> ms[i].repair.Some?)
    ensures forall i :: 0 <= i < |ls| ==> SameHashes(ls[i], ms[i])
  {
    if ls != [] {
      var k := |ls|;
      LinkTextLength(k, ls[k - 1]);
      LinkTextLength(k, ms[k - 1]);
      SplitEqual(LinksText(ls[..k - 1]), LinkText(k, ls[k - 1]), LinksText(ms[..k - 1]), LinkText(k, ms[k - 1]));
      LinkTextDetermines(k, ls[k - 1], ms[k - 1]);
      LinksTextDetermines(ls[..k - 1], ms[..k - 1]);
      forall i | 0 <= i < k - 1 ensures SameHashes(ls[i], ms[i]) {
        assert SameHashes(ls[..k - 1][i], ms[..k - 1][i]);
      }
    }
  }

  /** The length of `n` links that all carry a repair. */
  function RepairedLength(n: nat): nat {
    if n == 0 then 0 else RepairedLength(n - 1) + LinkLength(n, true)
  }

  lemma {:induction false} RepairedTextLength(links: seq<Link>)
    requires forall i :: 0 <= i < |links| ==> Tagged(links[i]) && links[i].repair.Some?
    ensures |LinksText(links)| == RepairedLength(|links|)
  {
    if links != [] {
      LinkTextLength(|links|, links[|links| - 1]);
      RepairedTextLength(links[..|links| - 1]);
    }
  }

  function ChainLength(n: nat): nat
    requires n > 0
  {
    RepairedLength(n - 1) + LinkLength(n, false)
  }

  lemma ChainTextLength(links: seq<Link>)
    requires links != [] && WellTagged(links)
    ensures |LinksText(links)| == ChainLength(|links|)
  {
    LinkTextLength(|links|, links[|links| - 1]);
    RepairedTextLength(links[..|links| - 1]);
  }

  lemma {:induction false} RepairedLengthGrows(m: nat, n: nat)
    requires m <= n
    ensures RepairedLength(m) <= RepairedLength(n)
    decreases n
  {
    if m < n { RepairedLengthGrows(m, n - 1); }
  }

  lemma LengthGap(k: nat, m: nat)
    requires 0 < k < m
    ensures ChainLength(k) < ChainLength(m)
  {
    RepairedLengthGrows(k, m - 1);
  }

  /** The line a text starts with is no longer than any other reading of it. */
  lemma LineNotLonger(a: string, b: string, x: string, y: string)
    requires '\n' !in a && a + ("\n" + x) == b + ("\n" + y)
    ensures |a| <= |b|
  {
    assert (b + ("\n" + y))[|b|] == '\n';
    forall i | 0 <= i < |a| ensures (a + ("\n" + x))[i] != '\n' { }
  }

  /** The first characters of a text up to a line feed are determined by it. */
  lemma LineDetermined(a: string, b: string, x: string, y: string)
    requires '\n' !in a && '\n' !in b && a + ("\n" + x) == b + ("\n" + y)
    ensures a == b && x == y
  {
    LineNotLonger(a, b, x, y);
    LineNotLonger(b, a, y, x);
    SplitEqual(a, "\n" + x, b, "\n" + y);
    SplitEqual("\n", x, "\n", y);
  }

  /** The hashed history determines the plan, the number of attempts and every hash of the chain. */
  lemma HistoryDetermines(plan1: string, ls: seq<Link>, plan2: string, ms: seq<Link>)
    requires ValidPlanId(plan1) && ValidPlanId(plan2) && ls != [] && ms != []
    requires WellTagged(ls) && WellTagged(ms) && History(plan1, ls) == History(plan2, ms)
    ensures plan1 == plan2 && |ls| == |ms| && forall i :: 0 <= i < |ls| ==> SameHashes(ls[i], ms[i])
  {
    var head := "schema:" + Decimal(VERIFICATION_SCHEMA_VERSION) + "\nplan:";
    HistoryShape(plan1, ls);
    HistoryShape(plan2, ms);
    SplitEqual(head, plan1 + ("\n" + LinksText(ls)), head, plan2 + ("\n" + LinksText(ms)));
    LineDetermined(plan1, plan2, LinksText(ls), LinksText(ms));
    SameLength(ls, ms);
    LinksTextDetermines(ls, ms);
  }

  lemma SameLength(ls: seq<Link>, ms: seq<Link>)
    requires ls != [] && ms != [] && WellTagged(ls) && WellTagged(ms) && LinksText(ls) == LinksText(ms)
    ensures |ls| == |ms|
  {
    ChainTextLength(ls);
    ChainTextLength(ms);
    if |ls| < |ms| { LengthGap(|ls|, |ms|); }
    if |ms| < |ls| { LengthGap(|ms|, |ls|); }
  }

  lemma HistoryShape(plan: string, links: seq<Link>)
    ensures History(plan, links)
         == "schema:" + Decimal(VERIFICATION_SCHEMA_VERSION) + "\nplan:" + (plan + ("\n" + LinksText(links)))
  {
    var head := "schema:" + Decimal(VERIFICATION_SCHEMA_VERSION) + "\nplan:";
    Assoc(head, plan, "\n");
    Assoc(head, plan + "\n", LinksText(links));
    Assoc(plan, "\n", LinksText(links));
  }

  /** Every closed chain has tags of one length. */
  lemma ClosedIsTagged(env: Env, disk: Disk, plan: string, n: nat, links: seq<Link>)
    requires Closed(env, disk, plan, n, links)
    ensures WellTagged(links)
  {
    hide LoadAttempt, LoadRepair, AttemptHolds, BundleHash, ValidPlanId, ValidFiles, ValidModel;
    forall i | 0 <= i < |links| ensures Tagged(links[i]) {
      assert AttemptLinks(env, disk, plan, n, i + 1, links[i].attempt);
      LoadedAttempt(env, disk, plan, i + 1, links[i].attempt);
      AttemptTags(env, disk, links[i].attempt);
      if i + 1 < n {
        assert RepairLinks(env, disk, plan, i + 1, links[i].attempt, links[i].repair.value);
        LoadedRepair(env, disk, plan, i + 1, links[i].repair.value);
      }
    }
  }

  // ---- the released text determines the bundle ----

  const FILE_HEADER := "FILE: "

  /** A line that starts like a file header. */
  ghost predicate HeaderLine(c: string, i: nat) {
    i + 6 <= |c| && (i == 0 || c[i - 1] == '\n') && c[i..i + 6] == FILE_HEADER
  }

  ghost predicate NoHeaderLine(c: string) {
    forall i :: 0 <= i < |c| ==> !HeaderLine(c, i)
  }

  ghost predicate EndsLine(c: string) {
    c != "" && c[|c| - 1] == '\n'
  }

  /** A path without a line feed, and a content that ends its last line. */
  ghost predicate Readable(f: CandidateFile) {
    '\n' !in Normalize(f.path) && EndsLine(f.content)
  }

  ghost predicate Decodable(f: CandidateFile) {
    Readable(f) && NoHeaderLine(f.content)
  }

  lemma {:induction false} BlocksFront(files: seq<CandidateFile>)
    requires files != []
    ensures Blocks(files) == FileBlock(files[0]) + Blocks(files[1..])
    decreases |files|
  {
    var k := |files| - 1;
    if k > 0 {
      var middle := files[1..][..k - 1];
      BlocksFront(files[..k]);
      assert files[..k][1..] == middle && files[..k][0] == files[0] && files[1..][k - 1] == files[k];
      assert Blocks(files[1..]) == Blocks(middle) + FileBlock(files[k]);
      Assoc(FileBlock(files[0]), Blocks(middle), FileBlock(files[k]));
    } else {
      LoneBlock(files[0]);
      assert files == [files[0]] && files[1..] == [];
    }
  }

  lemma LoneBlock(f: CandidateFile)
    ensures Blocks([f]) == FileBlock(f) + Blocks([])
  {
    assert [f][..0] == [];
    assert Blocks([f]) == Blocks([]) + FileBlock(f);
    assert "" + FileBlock(f) == FileBlock(f) + "";
  }

  lemma BlocksStart(files: seq<CandidateFile>)
    ensures files == [] ==> Blocks(files) == ""
    ensures files != [] ==> FILE_HEADER <= Blocks(files)
  {
    if files != [] {
      BlocksFront(files);
      assert FILE_HEADER <= FileBlock(files[0]);
    }
  }

  /** Where one reading ends a content that another runs on with, the other has a header line. */
  lemma HeaderAtEnd(c: string, rest: string, d: string, more: string)
    requires EndsLine(c) && EndsLine(d) && (rest == "" || FILE_HEADER <= rest)
    requires c + rest == d + more && |c| < |d|
    ensures HeaderLine(d, |c|)
  {
    var n := |c|;
    var t := c + rest;
    assert d == t[..|d|] && rest == t[n..];
    assert d[n - 1] == c[n - 1];
    assert forall k :: n <= k < |d| ==> d[k] == rest[k - n];
    assert d[|d| - 1] == rest[|d| - 1 - n];
    assert forall k :: 0 <= k < 6 ==> FILE_HEADER[k] != '\n';
    assert |d| >= n + 6;
    assert d[n..n + 6] == rest[..6];
  }

  /** A content cannot run on into what another reading takes for the next file. */
  lemma ContentNotLonger(c: string, rest: string, d: string, more: string)
    requires EndsLine(c) && EndsLine(d) && NoHeaderLine(d) && (rest == "" || FILE_HEADER <= rest)
    requires c + rest == d + more
    ensures |d| <= |c|
  {
    if |c| < |d| { HeaderAtEnd(c, rest, d, more); }
  }

  /** Blocks that begin equal texts have the same path. */
  lemma SameHead(f: CandidateFile, g: CandidateFile, x: string, y: string)
    requires Readable(f) && Readable(g) && FileBlock(f) + x == FileBlock(g) + y
    ensures Normalize(f.path) == Normalize(g.path) && f.content + x == g.content + y
  {
    hide FileBlock, Normalize, EndsLine;
    BlockShape(f, x);
    BlockShape(g, y);
    SplitEqual(FILE_HEADER, Normalize(f.path) + ("\n" + (f.content + x)),
               FILE_HEADER, Normalize(g.path) + ("\n" + (g.content + y)));
    LineDetermined(Normalize(f.path), Normalize(g.path), f.content + x, g.content + y);
  }

  lemma {:induction false} BlocksDetermine(fs: seq<CandidateFile>, gs: seq<CandidateFile>)
    requires forall i :: 0 <= i < |fs| ==> Decodable(fs[i])
    requires forall i :: 0 <= i < |gs| ==> Decodable(gs[i])
    requires Blocks(fs) == Blocks(gs)
    ensures NormalizedFiles(fs) == NormalizedFiles(gs)
    decreases |fs|
  {
    BlocksStart(fs);
    BlocksStart(gs);
    if fs != [] && gs != [] {
      BlocksFront(fs);
      BlocksFront(gs);
      var x, y := Blocks(fs[1..]), Blocks(gs[1..]);
      SameHead(fs[0], gs[0], x, y);
      BlocksStart(fs[1..]);
      BlocksStart(gs[1..]);
      ContentNotLonger(fs[0].content, x, gs[0].content, y);
      ContentNotLonger(gs[0].content, y, fs[0].content, x);
      SplitEqual(fs[0].content, x, gs[0].content, y);
      BlocksDetermine(fs[1..], gs[1..]);
      NormalizedFront(fs);
      NormalizedFront(gs);
    }
  }

  lemma BlockShape(f: CandidateFile, rest: string)
    requires EndsLine(f.content)
    ensures FileBlock(f) + rest == FILE_HEADER + (Normalize(f.path) + ("\n" + (f.content + rest)))
  {
  }

  lemma NormalizedFront(files: seq<CandidateFile>)
    requires files != []
    ensures NormalizedFiles(files) == [Normalized(files[0])] + NormalizedFiles(files[1..])
  {
  }

  /** Several files start with a header line, which a lone one may not have. */
  lemma LoneIsNotMany(f: CandidateFile, gs: seq<CandidateFile>)
    requires Decodable(f) && gs != []
    ensures f.content != Blocks(gs)
  {
    hide Blocks, Normalize;
    BlocksStart(gs);
    assert !HeaderLine(f.content, 0);
    assert FILE_HEADER <= Blocks(gs) ==> Blocks(gs)[0..6] == FILE_HEADER;
  }

  /** The released text determines a bundle whose contents end their last line and have no header-like
      line: its files and paths, or, for a lone file, its content. */
  lemma OutputDetermines(fs: seq<CandidateFile>, gs: seq<CandidateFile>)
    requires fs != [] && gs != [] && Output(fs) == Output(gs)
    requires forall i :: 0 <= i < |fs| ==> Decodable(fs[i])
    requires forall i :: 0 <= i < |gs| ==> Decodable(gs[i])
    ensures |fs| == |gs|
    ensures if |fs| == 1 then fs[0].content == gs[0].content else NormalizedFiles(fs) == NormalizedFiles(gs)
  {
    hide Blocks, NormalizedFiles, HeaderLine;
    if |fs| == 1 && |gs| > 1 {
      LoneIsNotMany(fs[0], gs);
    } else if |gs| == 1 && |fs| > 1 {
      LoneIsNotMany(gs[0], fs);
    } else if |fs| > 1 {
      BlocksDetermine(fs, gs);
    }
  }

  /** A lone file's path is not part of what is released and hashed, nor is a missing last line feed. */
  lemma OutputForgets(path1: string, path2: string, content: string, other: CandidateFile)
    requires content != "" && content[|content| - 1] != '\n'
    ensures Output([CandidateFile(path1, content)]) == Output([CandidateFile(path2, content)])
    ensures Output([CandidateFile(path1, content), other]) == Output([CandidateFile(path1, content + "\n"), other])
  {
    var f, g := CandidateFile(path1, content), CandidateFile(path1, content + "\n");
    assert FileBlock(f) == FileBlock(g);
    BlocksFront([f, other]);
    BlocksFront([g, other]);
    assert [f, other][1..] == [other] == [g, other][1..];
  }
}
