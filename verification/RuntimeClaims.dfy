/** What a status is worth: what must have happened in a run for the runtime to be proven, to wait for a provider, to
    wait for verification, or to be blocked. */
module RuntimeClaims {
  import opened Text
  import opened Bus
  import opened Runtime
  import opened RuntimeRuns

  // ---- one operation ----

  /** The report says what was recomputed, for the plan and the model of the pending call. */
  ghost predicate ReportTrue(state: RuntimeState, r: Report, c: Recomputed) {
    && state.status == ProviderPending
    && (exists call, plan :: state.call == Some(call) && call.plan == Some(plan)
                             && r.planId == plan.id && c.planModel == call.model)
    && c.planPackets == Some(r.packets) && r.executed + r.resumed == |r.packets|
    && |r.packets| < 0x1_0000_0000_0000_0000 && |(set p | p in r.packets)| == |r.packets|
    && (exists candidate :: r.candidate == Some(candidate) && candidate.bundleHash == r.hash
                            && c.candidateCounts == Some((candidate.attempts, candidate.repairs)))
    && c.artifact == Some((r.len, r.hash)) && r.textLen == r.len > 0 && r.textHash == r.hash
    && (exists i :: 0 <= i < |r.artifact| && !IsWhitespace(r.artifact[i]))
    && (exists i :: 0 <= i < |r.manifest| && !IsWhitespace(r.manifest[i]))
  }

  lemma {:induction false} AllDifferent(xs: seq<string>)
    ensures |(set x | x in xs)| <= |xs|
    ensures NoneTwice(xs) <==> |(set x | x in xs)| == |xs|
  {
    if xs != [] {
      var front, last := xs[..|xs| - 1], xs[|xs| - 1];
      AllDifferent(front);
      var some, all := set x | x in front, set x | x in xs;
      assert xs == front + [last];
      assert all == some + {last};
      if last in front {
        var i :| 0 <= i < |front| && front[i] == last;
        assert xs[i] == xs[|xs| - 1] && !NoneTwice(xs);
        assert all == some;
      } else {
        NoneTwiceFront(front, last);
      }
    }
  }

  lemma NoneTwiceFront(front: seq<string>, last: string)
    requires last !in front
    ensures NoneTwice(front + [last]) <==> NoneTwice(front)
  {
    var xs := front + [last];
    if NoneTwice(xs) {
      forall i, j | 0 <= i < j < |front| ensures front[i] != front[j] { assert xs[i] != xs[j]; }
    }
  }

  lemma HoldsMeans(state: RuntimeState, r: Report, c: Recomputed)
    ensures ReportHolds(state, r, c) <==> ReportTrue(state, r, c)
  {
    AllDifferent(r.packets);
    hide NoneTwice, IsWhitespace;
  }

  /** What a state claims of a provider's work is the report's. */
  ghost predicate ClaimsReport(state: RuntimeState, r: Report) {
    && state.artifact == r.artifact && state.outputHash == r.hash && state.outputLen == r.len
    && state.planId == r.planId && state.manifest == r.manifest && state.packets == |r.packets|
    && state.candidate == r.candidate
  }

  /** A report is accepted exactly if it is true, and then its claims, which were recomputed, are the state's; one that
      is not true blocks. */
  lemma ReportAccepted(s: System, r: Report, c: Recomputed, redact: string -> string, problem: string)
    ensures var after := AfterReport(s, r, c, redact, problem).state;
            && (after.status == VerificationPending <==> ReportTrue(s.state, r, c))
            && (after.status != VerificationPending ==> after.status == Blocked && after.blockers != [])
            && (after.status == VerificationPending ==>
                  && ClaimsReport(after, r) && c.artifact == Some((after.outputLen, after.outputHash))
                  && after.candidate.Some? && after.candidate.value.bundleHash == after.outputHash
                  && c.candidateCounts == Some((after.candidate.value.attempts, after.candidate.value.repairs)))
  {
    hide Sent, ReportSteps, ReportHolds;
    HoldsMeans(s.state, r, c);
  }

  /** Nothing stands in the way of an intent: its recipe is linked to the mission and its stack valid. */
  ghost predicate Unblocked(i: Intent) {
    i.linked && i.stackValid && (i.provider == NotNeeded || i.provider.Prepared?)
  }

  /** An intent is proven exactly if nothing is in its way and no provider is wanted; it waits for the provider exactly
      if one is; and what is in its way is recorded. */
  lemma IntentDecided(s: System, i: Intent, floor: string)
    ensures var after := AfterIntent(s, i, floor).state;
            && (after.status == Proven <==> Unblocked(i) && i.provider == NotNeeded)
            && (after.status == ProviderPending <==> Unblocked(i) && i.provider.Prepared?)
            && (after.status == Blocked <==> !Unblocked(i))
            && (after.status == Proven || after.status == ProviderPending || after.status == Blocked)
            && (after.blockers == [] <==> Unblocked(i))
            && (after.call == if i.provider.Prepared? then Some(i.provider.call) else None)
  {
    hide Sent, IntentSteps;
  }

  // ---- whole runs ----

  /** The operation leaves status and claims alone. */
  predicate Bystanding(op: Op) {
    op.ProofStored? || op.Learned?
  }

  lemma BystanderKeeps(s: System, op: Op, floor: string, redact: string -> string)
    requires Bystanding(op)
    ensures Next(s, op, floor, redact).state == s.state.(lastRoute := Next(s, op, floor, redact).state.lastRoute)
  {
    hide Sent, LearningSteps;
  }

  lemma ScheduleKeeps(s: System, floor: string, redact: string -> string)
    ensures var after := Next(s, Schedule, floor, redact).state;
            || (s.state.status == ProviderPending && s.state.call.Some?
                && after == s.state.(lastRoute := after.lastRoute))
            || (after.status == Blocked && after.blockers != [])
  {
    hide Sent, ScheduleSteps;
  }

  /** What any other operation comes to. */
  lemma OthersDecided(s: System, op: Op, floor: string, redact: string -> string)
    requires op.ProviderStuck? || op.StoreStuck? || op.StartupStuck? || op.Drifted? || op.SetProvider?
    ensures var after := Next(s, op, floor, redact).state;
            && (op.SetProvider? ==> after.status == Drafted && after.blockers == [])
            && (op.Drifted? ==> after.status == DriftMarked && after.driftCount == s.state.driftCount + 1)
            && (op.ProviderStuck? || op.StoreStuck? || op.StartupStuck? ==>
                  && after.status == Blocked && (forall b :: b in s.state.blockers ==> b in after.blockers)
                  && (if op.StartupStuck? then op.reason else redact(op.reason)) in after.blockers)
  {
    hide Sent;
  }

  /** Operation `k` of the run was this intent or report, decided as said, and nothing after it but bystanders, and
      schedules where the runtime waits for the provider. */
  ghost predicate Quiet(ops: seq<Op>, k: nat, scheduling: bool) {
    forall j :: k < j < |ops| ==> Bystanding(ops[j]) || (scheduling && ops[j].Schedule?)
  }

  ghost predicate ProvenAt(ops: seq<Op>, k: nat) {
    && k < |ops| && Quiet(ops, k, false)
    && ops[k].RunIntent? && Unblocked(ops[k].intent) && ops[k].intent.provider == NotNeeded
  }

  ghost predicate PendingAt(state: RuntimeState, ops: seq<Op>, k: nat) {
    && k < |ops| && Quiet(ops, k, true)
    && ops[k].RunIntent? && Unblocked(ops[k].intent) && ops[k].intent.provider.Prepared?
    && state.call == Some(ops[k].intent.provider.call)
  }

  ghost predicate ReportedAt(s: System, state: RuntimeState, ops: seq<Op>, k: nat, floor: string,
                             redact: string -> string) {
    && k < |ops| && Quiet(ops, k, false)
    && ops[k].Reported? && ReportTrue(After(s, ops[..k], floor, redact).state, ops[k].report, ops[k].recomputed)
    && ClaimsReport(state, ops[k].report)
  }

  /** What the status at the end of a run rests on. */
  ghost predicate Founded(s: System, ops: seq<Op>, floor: string, redact: string -> string) {
    var state := After(s, ops, floor, redact).state;
    match state.status
    case Proven => exists k: nat :: ProvenAt(ops, k)
    case ProviderPending => exists k: nat :: PendingAt(state, ops, k)
    case VerificationPending => exists k: nat :: ReportedAt(s, state, ops, k, floor, redact)
    case Blocked => state.blockers != []
    case Drafted => true
    case DriftMarked => true
  }

  lemma AfterMore(s: System, ops: seq<Op>, op: Op, floor: string, redact: string -> string)
    ensures After(s, ops + [op], floor, redact) == Next(After(s, ops, floor, redact), op, floor, redact)
  {
    hide Next;
    assert (ops + [op])[..|ops|] == ops;
  }

  lemma QuietMore(ops: seq<Op>, op: Op, k: nat, scheduling: bool)
    requires k < |ops| && Quiet(ops, k, scheduling) && (Bystanding(op) || (scheduling && op.Schedule?))
    ensures Quiet(ops + [op], k, scheduling)
  {
    hide Bystanding;
  }

  lemma ProvenMore(ops: seq<Op>, op: Op, k: nat)
    requires ProvenAt(ops, k) && Bystanding(op)
    ensures ProvenAt(ops + [op], k)
  {
    hide Quiet, Unblocked, Bystanding;
    QuietMore(ops, op, k, false);
  }

  lemma PendingMore(state: RuntimeState, after: RuntimeState, ops: seq<Op>, op: Op, k: nat)
    requires PendingAt(state, ops, k) && after.call == state.call && (Bystanding(op) || op.Schedule?)
    ensures PendingAt(after, ops + [op], k)
  {
    hide Quiet, Unblocked, Bystanding;
    QuietMore(ops, op, k, true);
  }

  lemma ReportedMore(s: System, state: RuntimeState, after: RuntimeState, ops: seq<Op>, op: Op, k: nat, floor: string,
                     redact: string -> string)
    requires ReportedAt(s, state, ops, k, floor, redact) && Bystanding(op)
    requires after == state.(lastRoute := after.lastRoute)
    ensures ReportedAt(s, after, ops + [op], k, floor, redact)
  {
    hide Quiet, ReportTrue, Bystanding, After;
    QuietMore(ops, op, k, false);
    assert (ops + [op])[..k] == ops[..k];
  }

  lemma FoundedByBystander(s: System, ops: seq<Op>, op: Op, floor: string, redact: string -> string)
    requires Founded(s, ops, floor, redact)
    requires var before := After(s, ops, floor, redact);
             var after := Next(before, op, floor, redact).state;
             && after == before.state.(lastRoute := after.lastRoute)
             && (Bystanding(op) || (op.Schedule? && before.state.status == ProviderPending))
    ensures Founded(s, ops + [op], floor, redact)
  {
    hide Next, After, ProvenAt, PendingAt, ReportedAt, Bystanding;
    AfterMore(s, ops, op, floor, redact);
    var state, after := After(s, ops, floor, redact).state, After(s, ops + [op], floor, redact).state;
    match state.status {
      case Proven =>
        var k: nat :| ProvenAt(ops, k);
        ProvenMore(ops, op, k);
      case ProviderPending =>
        var k: nat :| PendingAt(state, ops, k);
        PendingMore(state, after, ops, op, k);
      case VerificationPending =>
        var k: nat :| ReportedAt(s, state, ops, k, floor, redact);
        ReportedMore(s, state, after, ops, op, k, floor, redact);
      case _ =>
    }
  }

  /** In every run from a fresh runtime, a status is founded: proven means that the last intent was linked, valid and
      wanted no provider; verification pending means that the last report was true, of the call that was pending then,
      and that its recomputed claims are the state's; and whoever is blocked knows why. */
  lemma {:induction false} StatusFounded(s: System, ops: seq<Op>, floor: string, redact: string -> string)
    requires s.state == InitialState()
    ensures Founded(s, ops, floor, redact)
  {
    hide Next, ReportTrue, Unblocked, ClaimsReport;
    if ops != [] {
      var front, op := ops[..|ops| - 1], ops[|ops| - 1];
      StatusFounded(s, front, floor, redact);
      assert ops == front + [op];
      StepFounded(s, front, op, floor, redact);
    }
  }

  lemma StepFounded(s: System, front: seq<Op>, op: Op, floor: string, redact: string -> string)
    requires Founded(s, front, floor, redact)
    ensures Founded(s, front + [op], floor, redact)
  {
    hide ReportTrue, Unblocked, ClaimsReport, Founded, Next, AfterIntent, AfterReport;
    var ops, before := front + [op], After(s, front, floor, redact);
    assert ops[..|front|] == front;
    match op {
      case RunIntent(i) => IntentFounded(s, front, i, floor, redact);
      case Reported(r, c, problem) => ReportFounded(s, front, op, floor, redact);
      case Schedule => ScheduleFounded(s, front, floor, redact);
      case ProofStored(_, _) =>
        BystanderKeeps(before, op, floor, redact);
        FoundedByBystander(s, front, op, floor, redact);
      case Learned(_, _, _) =>
        BystanderKeeps(before, op, floor, redact);
        FoundedByBystander(s, front, op, floor, redact);
      case _ => OtherFounded(s, front, op, floor, redact);
    }
  }

  lemma IntentFounded(s: System, front: seq<Op>, i: Intent, floor: string, redact: string -> string)
    ensures Founded(s, front + [RunIntent(i)], floor, redact)
  {
    hide ReportTrue, Unblocked, AfterIntent;
    var ops := front + [RunIntent(i)];
    assert ops[..|front|] == front;
    IntentDecided(After(s, front, floor, redact), i, floor);
    var state := After(s, ops, floor, redact).state;
    if state.status == Proven { assert ProvenAt(ops, |front|); }
    if state.status == ProviderPending { assert PendingAt(state, ops, |front|); }
  }

  lemma ReportFounded(s: System, front: seq<Op>, op: Op, floor: string, redact: string -> string)
    requires op.Reported?
    ensures Founded(s, front + [op], floor, redact)
  {
    hide ReportTrue, ClaimsReport, AfterReport;
    var ops := front + [op];
    assert ops[..|front|] == front;
    ReportAccepted(After(s, front, floor, redact), op.report, op.recomputed, redact, op.problem);
    var state := After(s, ops, floor, redact).state;
    if state.status == VerificationPending { assert ReportedAt(s, state, ops, |front|, floor, redact); }
  }

  lemma ScheduleFounded(s: System, front: seq<Op>, floor: string, redact: string -> string)
    requires Founded(s, front, floor, redact)
    ensures Founded(s, front + [Schedule], floor, redact)
  {
    hide ReportTrue, ClaimsReport, Unblocked, Next;
    var ops, before := front + [Schedule], After(s, front, floor, redact);
    assert ops[..|front|] == front;
    ScheduleKeeps(before, floor, redact);
    var after := Next(before, Schedule, floor, redact).state;
    if !(after.status == Blocked && after.blockers != []) { FoundedByBystander(s, front, Schedule, floor, redact); }
  }

  lemma OtherFounded(s: System, front: seq<Op>, op: Op, floor: string, redact: string -> string)
    requires op.ProviderStuck? || op.StoreStuck? || op.StartupStuck? || op.Drifted? || op.SetProvider?
    ensures Founded(s, front + [op], floor, redact)
  {
    hide Next;
    assert (front + [op])[..|front|] == front;
    OthersDecided(After(s, front, floor, redact), op, floor, redact);
  }

  // ---- claims and counts ----

  /** Nothing is claimed of a provider's work. */
  predicate NoClaim(state: RuntimeState) {
    && state.artifact == "" && state.outputHash == "" && state.outputLen == 0 && state.manifest == ""
    && state.packets == 0 && state.candidate == None
  }

  predicate SameClaims(s: RuntimeState, t: RuntimeState) {
    && s.artifact == t.artifact && s.outputHash == t.outputHash && s.outputLen == t.outputLen
    && s.manifest == t.manifest && s.packets == t.packets && s.candidate == t.candidate && s.planId == t.planId
  }

  /** The operation ends what was claimed. */
  predicate Ends(op: Op) {
    op.RunIntent? || op.SetProvider?
  }

  lemma ClaimsKept(s: System, op: Op, floor: string, redact: string -> string)
    requires !Ends(op) && (op.Reported? ==> !ReportTrue(s.state, op.report, op.recomputed))
    ensures SameClaims(s.state, Next(s, op, floor, redact).state)
  {
    hide Prolonged, Noted, Sent, ReportHolds, ReportTrue, AfterBlocked, AfterSchedule, AfterReport, LearningSteps;
    match op {
      case Reported(r, c, problem) => ReportKept(s, r, c, redact, problem);
      case Schedule => ScheduleKept(s, redact);
      case ProviderStuck(reason) => BlockedKept(s, redact(reason));
      case Learned(x, origin, succeeded) => ProlongedKept(s, LearningSteps(origin, x.title, x.nodeId, succeeded));
      case _ => NotedKept(s, op, floor, redact);
    }
  }

  lemma ProlongedKept(s: System, steps: seq<Step>)
    ensures SameClaims(s.state, Prolonged(s, steps).state)
  {
    hide Sent;
  }

  lemma BlockedKept(s: System, reason: string)
    ensures SameClaims(s.state, AfterBlocked(s, reason).state)
  {
    hide Sent, BlockedSteps;
  }

  lemma ScheduleKept(s: System, redact: string -> string)
    ensures SameClaims(s.state, AfterSchedule(s, redact).state)
  {
    hide Sent, BlockedSteps, ScheduleSteps;
  }

  lemma ReportKept(s: System, r: Report, c: Recomputed, redact: string -> string, problem: string)
    requires !ReportTrue(s.state, r, c)
    ensures SameClaims(s.state, AfterReport(s, r, c, redact, problem).state)
  {
    hide ReportHolds, ReportTrue, AfterBlocked, Prolonged;
    HoldsMeans(s.state, r, c);
    BlockedKept(s, redact("provider report verification failed: " + problem));
  }

  lemma NotedKept(s: System, op: Op, floor: string, redact: string -> string)
    requires op.StoreStuck? || op.StartupStuck? || op.Drifted? || op.ProofStored?
    ensures SameClaims(s.state, Next(s, op, floor, redact).state)
  {
    hide Sent, StartupSteps;
  }

  lemma ClaimsEnded(s: System, op: Op, floor: string, redact: string -> string)
    requires Ends(op)
    ensures NoClaim(Next(s, op, floor, redact).state)
  {
    hide Sent, IntentSteps, IntentStatus, IntentBlockers;
  }

  lemma ClaimsMade(s: System, op: Op, floor: string, redact: string -> string)
    requires op.Reported? && ReportTrue(s.state, op.report, op.recomputed)
    ensures ClaimsReport(Next(s, op, floor, redact).state, op.report)
  {
    hide AfterReport, ReportTrue;
    ReportAccepted(s, op.report, op.recomputed, redact, op.problem);
  }

  /** The state's claims are those of a report that was true when it came, and nothing has ended them since. */
  ghost predicate ClaimedAt(s: System, state: RuntimeState, ops: seq<Op>, k: nat, floor: string,
                            redact: string -> string) {
    && k < |ops| && ops[k].Reported?
    && ReportTrue(After(s, ops[..k], floor, redact).state, ops[k].report, ops[k].recomputed)
    && ClaimsReport(state, ops[k].report) && forall j :: k < j < |ops| ==> !Ends(ops[j])
  }

  /** In every run from a fresh runtime, whatever the status, the state claims nothing of a provider's work but what a
      report said that was true when it came and that no intent and no change of the provider has ended. */
  lemma {:induction false} ClaimsFounded(s: System, ops: seq<Op>, floor: string, redact: string -> string)
    requires s.state == InitialState()
    ensures var state := After(s, ops, floor, redact).state;
            NoClaim(state) || exists k: nat :: ClaimedAt(s, state, ops, k, floor, redact)
  {
    hide Next, ReportTrue, ClaimsReport;
    if ops != [] {
      var front, op := ops[..|ops| - 1], ops[|ops| - 1];
      ClaimsFounded(s, front, floor, redact);
      assert ops == front + [op];
      var before, state := After(s, front, floor, redact), After(s, ops, floor, redact).state;
      if Ends(op) {
        ClaimsEnded(before, op, floor, redact);
      } else if op.Reported? && ReportTrue(before.state, op.report, op.recomputed) {
        ClaimsMade(before, op, floor, redact);
        assert ops[..|front|] == front;
        assert ClaimedAt(s, state, ops, |front|, floor, redact);
      } else {
        ClaimsKept(before, op, floor, redact);
        if !NoClaim(before.state) {
          var k: nat :| ClaimedAt(s, before.state, front, k, floor, redact);
          assert ops[..k] == front[..k];
          SameClaimed(before.state, state, ops[k].report);
          assert ClaimedAt(s, state, ops, k, floor, redact);
        }
      }
    }
  }

  lemma SameClaimed(s: RuntimeState, t: RuntimeState, r: Report)
    requires SameClaims(s, t) && ClaimsReport(s, r)
    ensures ClaimsReport(t, r)
  {
  }

  function Drifts(ops: seq<Op>): nat {
    if ops == [] then 0 else Drifts(ops[..|ops| - 1]) + if ops[|ops| - 1].Drifted? then 1 else 0
  }

  lemma OpCounts(s: System, op: Op, floor: string, redact: string -> string)
    ensures var after := Next(s, op, floor, redact).state;
            && after.driftCount == s.state.driftCount + (if op.Drifted? then 1 else 0)
            && after.proofCount
               == s.state.proofCount + if op.RunIntent? && after.status == Proven then 1 else 0
  {
    hide Sent, ReportHolds, ReportSteps, LearningSteps, ScheduleSteps, IntentSteps, IntentBlockers;
  }

  /** From a fresh runtime the counters count: drifts marked, and intents that ended proven. */
  lemma {:induction false} CountsExactly(s: System, ops: seq<Op>, floor: string, redact: string -> string)
    requires s.state == InitialState()
    ensures var state := After(s, ops, floor, redact).state;
            state.driftCount == Drifts(ops) && state.proofCount == ProvenRuns(s, ops, floor, redact)
  {
    hide Next;
    if ops != [] {
      CountsExactly(s, ops[..|ops| - 1], floor, redact);
      OpCounts(After(s, ops[..|ops| - 1], floor, redact), ops[|ops| - 1], floor, redact);
    }
  }
}
