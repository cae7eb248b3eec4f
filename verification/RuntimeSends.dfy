/** What the runtime puts on the bus: which envelopes every operation sends, from where to where and in which order, and
    when it raises backpressure. */
module RuntimeSends {
  import opened Text
  import opened Bus
  import opened BusRecords
  import opened Runtime
  import opened RuntimeRuns
  import opened RuntimeClaims

  /** One envelope: its layer, its kind and its ends. */
  datatype Hop = Hop(layer: Layer, kind: Kind, source: string, target: string)

  function HopOf(e: Envelope): Hop {
    Hop(e.layer, e.kind, e.source, e.target)
  }

  function Hops(envelopes: seq<Envelope>): (r: seq<Hop>)
    ensures |r| == |envelopes| && forall k :: 0 <= k < |r| ==> r[k] == HopOf(envelopes[k])
  {
    seq(|envelopes|, k requires 0 <= k < |envelopes| => HopOf(envelopes[k]))
  }

  // ---- chains ----

  /** A transport envelope comes in, an orchestration envelope leaves, and the others stay inside. */
  predicate OnRamp(e: Envelope) {
    && (e.ramp == Ingress <==> e.layer == L0Transport) && (e.ramp == OffRamp <==> e.layer == L3Orchestration)
  }

  /** The envelope is this step, under this number and this parent. */
  predicate IsStep(e: Envelope, s: Step, id: nat, parent: Option<nat>) {
    && HopOf(e) == Hop(s.layer, s.kind, s.source, s.target) && e.body == s.body && e.evidence == s.evidence
    && e.id == id && e.parent == parent && OnRamp(e)
  }

  /** The steps of a chain are the next envelopes, each below the one before it. */
  ghost predicate Follows(f: Fabric, g: Fabric, parent: Option<nat>, steps: seq<Step>) {
    && g.nextId == f.nextId + |steps| && |g.envelopes| == |f.envelopes| + |steps|
    && g.envelopes[..|f.envelopes|] == f.envelopes
    && forall k :: 0 <= k < |steps| ==>
         IsStep(g.envelopes[|f.envelopes| + k], steps[k], f.nextId + k,
                if k == 0 then parent else Some(f.nextId + k - 1))
  }

  lemma OneStep(f: Fabric, parent: Option<nat>, s: Step)
    ensures var g := Emitted(f, DraftOf(parent, s));
            && g.nextId == f.nextId + 1 && g.envelopes == f.envelopes + [EnvelopeFor(f, DraftOf(parent, s))]
            && IsStep(EnvelopeFor(f, DraftOf(parent, s)), s, f.nextId, parent)
  {
    hide Emitted, OwnThread;
    EmittedRecords(f, DraftOf(parent, s));
  }

  lemma {:induction false} SentFollows(f: Fabric, parent: Option<nat>, steps: seq<Step>)
    requires f.nextId > 0
    ensures Follows(f, Sent(f, parent, steps), parent, steps)
  {
    hide Emitted, IsStep, EnvelopeFor, DraftOf;
    if steps == [] {
      assert f.envelopes[..|f.envelopes|] == f.envelopes;
    } else {
      var k := |steps| - 1;
      var before := Sent(f, parent, steps[..k]);
      SentFollows(f, parent, steps[..k]);
      OneStep(before, ParentAt(before, parent, k), steps[k]);
      SentLast(f, parent, steps);
    }
  }

  /** The hops of a chain of steps. */
  function StepHops(steps: seq<Step>): (r: seq<Hop>)
    ensures |r| == |steps|
    ensures forall k :: 0 <= k < |r| ==> r[k] == Hop(steps[k].layer, steps[k].kind, steps[k].source, steps[k].target)
  {
    seq(|steps|, k requires 0 <= k < |steps| =>
      Hop(steps[k].layer, steps[k].kind, steps[k].source, steps[k].target))
  }

  lemma FollowsHops(f: Fabric, g: Fabric, parent: Option<nat>, steps: seq<Step>)
    requires Follows(f, g, parent, steps)
    ensures Hops(g.envelopes) == Hops(f.envelopes) + StepHops(steps)
  {
    hide IsStep;
    var more := g.envelopes[|f.envelopes|..];
    forall k | 0 <= k < |steps| ensures HopOf(more[k]) == StepHops(steps)[k] {
      assert more[k] == g.envelopes[|f.envelopes| + k];
      StepHop(more[k], steps[k], f.nextId + k, if k == 0 then parent else Some(f.nextId + k - 1));
    }
    assert Hops(more) == StepHops(steps);
    assert g.envelopes == f.envelopes + more;
    HopsJoin(f.envelopes, more);
  }

  lemma StepHop(e: Envelope, s: Step, id: nat, parent: Option<nat>)
    requires IsStep(e, s, id, parent)
    ensures HopOf(e) == Hop(s.layer, s.kind, s.source, s.target)
  {
  }

  lemma HopsJoin(a: seq<Envelope>, b: seq<Envelope>)
    ensures Hops(a + b) == Hops(a) + Hops(b)
  {
  }

  // ---- operations ----

  function StuckHops(kind: Kind): seq<Hop> {
    [Hop(L0Transport, kind, "model-worker", "provider-adapter"),
     Hop(L1Message, kind, "provider-adapter", "proof-loop"),
     Hop(L2Flow, kind, "provider-adapter", "proof-loop"),
     Hop(L3Orchestration, kind, "proof-loop", "artifact-state")]
  }

  function WantedHops(provider: ProviderResult): seq<Hop> {
    match provider
    case NotNeeded => []
    case SetupFailed(_) => []
    case MissingKey(_) => [Hop(L2Flow, ProviderBlocked, "provider-adapter", "operator")]
    case Prepared(call) =>
      [Hop(L2Flow, ProviderPrepared, "provider-adapter", "model")]
      + if call.plan == None then [] else [Hop(L2Flow, WorkPlanCreated, "work-planner", "provider-worker")]
  }

  function OpeningHops(): seq<Hop> {
    [Hop(L0Transport, IntentIngress, "operator", "math-atoms-runtime"),
     Hop(L1Message, IntentClassified, "classifier", "wiki-graph"),
     Hop(L2Flow, EvidenceRetrieved, "wiki-graph", "recipe-selector")]
  }

  ghost function DecidedKind(i: Intent): Kind {
    if !Unblocked(i) then ProofBlocked else if i.provider == NotNeeded then ProofCaptured else ProofPending
  }

  function DecidedHops(kind: Kind): seq<Hop> {
    [Hop(L3Orchestration, RecipeSelected, "recipe-selector", "proof-loop"),
     Hop(L3Orchestration, kind, "proof-loop", "artifact-state")]
  }

  ghost function IntentHops(i: Intent): seq<Hop> {
    OpeningHops() + WantedHops(i.provider) + DecidedHops(DecidedKind(i))
  }

  function ScheduledHops(): seq<Hop> {
    [Hop(L0Transport, ProviderExecutionRequested, "proof-loop", "provider-adapter"),
     Hop(L1Message, ProviderExecutionRequested, "provider-adapter", "model-worker"),
     Hop(L2Flow, ProviderExecutionScheduled, "provider-adapter", "model-worker"),
     Hop(L3Orchestration, ProviderExecutionScheduled, "proof-loop", "provider-worker")]
  }

  function PacketHops(n: nat): (r: seq<Hop>)
    ensures |r| == n
    ensures forall k :: 0 <= k < n ==> r[k] == Hop(L2Flow, WorkPacketExecuted, "provider-worker", "work-proof")
  {
    seq(n, k => Hop(L2Flow, WorkPacketExecuted, "provider-worker", "work-proof"))
  }

  function ReportedHops(n: nat): seq<Hop> {
    [Hop(L0Transport, ProviderExecuted, "model-worker", "provider-adapter"),
     Hop(L1Message, ProviderExecuted, "provider-adapter", "proof-loop"),
     Hop(L2Flow, ProviderExecuted, "provider-adapter", "proof-loop")]
    + PacketHops(n)
    + (if n == 0 then [] else [Hop(L3Orchestration, WorkPlanCompleted, "work-proof", "proof-loop")])
    + [Hop(L3Orchestration, ProviderExecuted, "proof-loop", "artifact-state"),
       Hop(L3Orchestration, ProofPending, "proof-loop", "artifact-state")]
  }

  /** What an operation sends, from the state it finds. */
  ghost function OpHops(state: RuntimeState, op: Op): seq<Hop> {
    match op
    case RunIntent(i) => IntentHops(i)
    case SetProvider => []
    case Schedule =>
      if state.call.Some? && state.status == ProviderPending then ScheduledHops() else StuckHops(ProviderBlocked)
    case Reported(r, c, _) =>
      if ReportTrue(state, r, c) then ReportedHops(|r.packets|) else StuckHops(ProviderBlocked)
    case ProviderStuck(_) => StuckHops(ProviderBlocked)
    case StoreStuck(_) => [Hop(L3Orchestration, StoreBlocked, "proof-store", "proof-loop")]
    case StartupStuck(_) =>
      [Hop(L0Transport, StoreBlocked, "proof-store", "math-atoms-runtime"),
       Hop(L1Message, StoreBlocked, "math-atoms-runtime", "wiki-graph"),
       Hop(L2Flow, StoreBlocked, "wiki-graph", "proof-loop"),
       Hop(L3Orchestration, StoreBlocked, "proof-loop", "artifact-state")]
    case Drifted(_) => [Hop(L3Orchestration, DriftFlagged, "operator", "proof-loop")]
    case ProofStored(_, proven) =>
      [if proven then Hop(L3Orchestration, StoreLearned, "proof-store", "wiki-graph")
       else Hop(L3Orchestration, StoreObserved, "proof-store", "proof-loop")]
    case Learned(_, origin, _) =>
      [Hop(L0Transport, LearningObserved, origin, "learning-store"),
       Hop(L1Message, LearningPersisted, "learning-store", "wiki-graph"),
       Hop(L2Flow, LearningApplied, "wiki-graph", "recipe-selector"),
       Hop(L3Orchestration, LearningApplied, "proof-loop", "artifact-state")]
  }

  lemma IntentStepsHop(i: Intent, floor: string)
    ensures StepHops(IntentSteps(i, floor)) == IntentHops(i)
  {
    hide *;
    OpeningStepsHop(i);
    WantedStepsHop(i);
    DecidedStepsHop(i, floor);
    StepHopsJoin(OpeningSteps(i), ProviderSteps(i));
    StepHopsJoin(OpeningSteps(i) + ProviderSteps(i), DecidedSteps(i, floor));
    IntentStepsAre(i, floor);
    IntentHopsAre(i);
  }

  function DecidedSteps(i: Intent, floor: string): seq<Step> {
    [L3(RecipeSelected, "recipe-selector", "proof-loop", i.recipe, i.evidence), ProofStep(i, floor)]
  }

  lemma IntentStepsAre(i: Intent, floor: string)
    ensures IntentSteps(i, floor) == OpeningSteps(i) + ProviderSteps(i) + DecidedSteps(i, floor)
  {
    hide OpeningSteps, ProviderSteps, ProofStep, L3;
  }

  lemma IntentHopsAre(i: Intent)
    ensures IntentHops(i) == OpeningHops() + WantedHops(i.provider) + DecidedHops(DecidedKind(i))
  {
  }

  lemma OpeningStepsHop(i: Intent)
    ensures StepHops(OpeningSteps(i)) == OpeningHops()
  {
  }

  lemma DecidedStepsHop(i: Intent, floor: string)
    ensures StepHops(DecidedSteps(i, floor)) == DecidedHops(DecidedKind(i))
  {
    hide ProofBody, StepHops, DecidedHops;
    KindDecided(i);
    PairHops(DecidedSteps(i, floor)[0], DecidedSteps(i, floor)[1]);
    DecidedHopsAre(DecidedKind(i));
    assert DecidedSteps(i, floor) == [DecidedSteps(i, floor)[0], DecidedSteps(i, floor)[1]];
  }

  lemma DecidedHopsAre(kind: Kind)
    ensures DecidedHops(kind) == [Hop(L3Orchestration, RecipeSelected, "recipe-selector", "proof-loop"),
                                  Hop(L3Orchestration, kind, "proof-loop", "artifact-state")]
  {
  }

  lemma KindDecided(i: Intent)
    ensures ProofKind(i) == DecidedKind(i)
  {
    assert IntentBlockers(i) == [] <==> Unblocked(i);
  }

  lemma PairHops(a: Step, b: Step)
    ensures StepHops([a]) == [Hop(a.layer, a.kind, a.source, a.target)]
    ensures StepHops([a, b])
         == [Hop(a.layer, a.kind, a.source, a.target), Hop(b.layer, b.kind, b.source, b.target)]
  {
  }

  lemma WantedStepsHop(i: Intent)
    ensures StepHops(ProviderSteps(i)) == WantedHops(i.provider)
  {
    hide Decimal, StepHops;
    var steps := ProviderSteps(i);
    match |steps| {
      case 0 => assert StepHops([]) == [];
      case 1 =>
        assert steps == [steps[0]];
        PairHops(steps[0], steps[0]);
      case _ =>
        assert steps == [steps[0], steps[1]];
        PairHops(steps[0], steps[1]);
    }
  }

  lemma StepHopsJoin(a: seq<Step>, b: seq<Step>)
    ensures StepHops(a + b) == StepHops(a) + StepHops(b)
  {
  }

  lemma ReportStepsHop(state: RuntimeState, r: Report)
    ensures StepHops(ReportSteps(state, r)) == ReportedHops(|r.packets|)
  {
    hide ReportBody, Decimal;
    var evidence := state.evidence;
    var opening, packets := ReportOpening(ReportBody(state, r), evidence), PacketSteps(r, evidence, |r.packets|);
    StepHopsJoin(opening, packets);
    StepHopsJoin(opening + packets, CompletionSteps(r, evidence));
    StepHopsJoin(opening + packets + CompletionSteps(r, evidence), ClosingSteps(evidence));
    assert StepHops(packets) == PacketHops(|r.packets|);
  }

  lemma BlockedStepsHop(reason: string, evidence: seq<string>)
    ensures StepHops(BlockedSteps(reason, evidence)) == StuckHops(ProviderBlocked)
  {
  }

  lemma ScheduleStepsHop(call: Call, evidence: seq<string>)
    ensures StepHops(ScheduleSteps(call, evidence)) == ScheduledHops()
  {
  }

  lemma StartupStepsHop(state: RuntimeState, reason: string)
    ensures StepHops(StartupSteps(reason)) == OpHops(state, StartupStuck(reason))
  {
  }

  lemma LearningStepsHop(state: RuntimeState, op: Op)
    requires op.Learned?
    ensures StepHops(LearningSteps(op.origin, op.lesson.title, op.lesson.nodeId, op.succeeded)) == OpHops(state, op)
  {
    hide LearningBody;
  }

  lemma SentHops(f: Fabric, parent: Option<nat>, steps: seq<Step>)
    requires f.nextId > 0
    ensures Hops(Sent(f, parent, steps).envelopes) == Hops(f.envelopes) + StepHops(steps)
    ensures Sent(f, parent, steps).nextId > 0
  {
    hide Sent, Hops, StepHops;
    SentFollows(f, parent, steps);
    FollowsHops(f, Sent(f, parent, steps), parent, steps);
  }

  lemma ProlongedHops(s: System, steps: seq<Step>)
    requires s.bus.nextId > 0
    ensures Hops(Prolonged(s, steps).bus.envelopes) == Hops(s.bus.envelopes) + StepHops(steps)
    ensures Prolonged(s, steps).bus.nextId > 0
  {
    hide Sent, Hops, StepHops;
    SentHops(s.bus, LastId(s.state.lastRoute), steps);
  }

  lemma NotedHops(s: System, step: Step)
    requires s.bus.nextId > 0
    ensures Hops(Noted(s, step).bus.envelopes)
         == Hops(s.bus.envelopes) + [Hop(step.layer, step.kind, step.source, step.target)]
    ensures Noted(s, step).bus.nextId > 0
  {
    hide Emitted;
    OneStep(s.bus, Some(LastOrZero(s.state.lastRoute)), step);
  }

  lemma BlockedHops(s: System, reason: string)
    requires s.bus.nextId > 0
    ensures Hops(AfterBlocked(s, reason).bus.envelopes) == Hops(s.bus.envelopes) + StuckHops(ProviderBlocked)
    ensures AfterBlocked(s, reason).bus.nextId > 0
  {
    hide Prolonged, Hops, StepHops, BlockedSteps, StuckHops;
    var t := s.(state := s.state.(status := Blocked, blockers := WithUnique(s.state.blockers, reason)));
    ProlongedHops(t, BlockedSteps(reason, s.state.evidence));
    BlockedStepsHop(reason, s.state.evidence);
  }

  lemma IntentSends(s: System, i: Intent, floor: string)
    requires s.bus.nextId > 0
    ensures Hops(AfterIntent(s, i, floor).bus.envelopes) == Hops(s.bus.envelopes) + IntentHops(i)
    ensures AfterIntent(s, i, floor).bus.nextId > 0
  {
    hide Sent, Hops, StepHops, IntentSteps, IntentHops;
    SentHops(s.bus, None, IntentSteps(i, floor));
    IntentStepsHop(i, floor);
  }

  lemma ScheduleSends(s: System, redact: string -> string)
    requires s.bus.nextId > 0
    ensures Hops(AfterSchedule(s, redact).bus.envelopes) == Hops(s.bus.envelopes) + OpHops(s.state, Schedule)
    ensures AfterSchedule(s, redact).bus.nextId > 0
  {
    hide AfterBlocked, Prolonged, Hops, StepHops, ScheduleSteps, StuckHops, ScheduledHops;
    if s.state.call.None? {
      BlockedHops(s, redact(NO_CALL));
    } else if !s.state.status.ProviderPending? {
      BlockedHops(s, redact(NOT_PENDING));
    } else {
      ProlongedHops(s, ScheduleSteps(s.state.call.value, s.state.evidence));
      ScheduleStepsHop(s.state.call.value, s.state.evidence);
    }
  }

  lemma ReportSends(s: System, r: Report, c: Recomputed, redact: string -> string, problem: string)
    requires s.bus.nextId > 0
    ensures var after := AfterReport(s, r, c, redact, problem);
            && Hops(after.bus.envelopes) == Hops(s.bus.envelopes) + OpHops(s.state, Reported(r, c, problem))
            && after.bus.nextId > 0
  {
    hide AfterBlocked, Prolonged, Hops, StepHops, ReportSteps, StuckHops, ReportedHops, ReportHolds, ReportTrue;
    HoldsMeans(s.state, r, c);
    if ReportHolds(s.state, r, c) {
      var t := s.(state := s.state.(status := VerificationPending, artifact := r.artifact, outputHash := r.hash,
                                    outputLen := r.len, planId := r.planId, manifest := r.manifest,
                                    packets := |r.packets|, candidate := r.candidate));
      ProlongedHops(t, ReportSteps(s.state, r));
      ReportStepsHop(s.state, r);
    } else {
      BlockedHops(s, redact("provider report verification failed: " + problem));
    }
  }

  /** Every operation sends the envelopes of its table, in its order, and no others. */
  lemma NextSends(s: System, op: Op, floor: string, redact: string -> string)
    requires s.bus.nextId > 0
    ensures Hops(Next(s, op, floor, redact).bus.envelopes) == Hops(s.bus.envelopes) + OpHops(s.state, op)
    ensures Next(s, op, floor, redact).bus.nextId > 0
  {
    hide AfterIntent, AfterReport, AfterSchedule, AfterBlocked, AfterStoreBlocked, AfterStartupBlocked, AfterDrift,
         AfterProofRecord, AfterLearning, Hops, IntentHops, StuckHops, ScheduledHops, ReportedHops, ReportTrue;
    match op {
      case RunIntent(i) => IntentSends(s, i, floor);
      case SetProvider => assert Hops(s.bus.envelopes) + [] == Hops(s.bus.envelopes);
      case Schedule => ScheduleSends(s, redact);
      case Reported(r, c, problem) => ReportSends(s, r, c, redact, problem);
      case ProviderStuck(reason) => BlockedHops(s, redact(reason));
      case StoreStuck(reason) => StoreStuckSends(s, redact(reason));
      case StartupStuck(reason) => StartupSends(s, reason);
      case Drifted(reason) => DriftSends(s, reason);
      case ProofStored(_, proven) => ProofSends(s, proven);
      case Learned(_, _, _) => LearningSends(s, op, floor, redact);
    }
  }

  lemma StartupSends(s: System, reason: string)
    requires s.bus.nextId > 0
    ensures Hops(AfterStartupBlocked(s, reason).bus.envelopes)
         == Hops(s.bus.envelopes) + OpHops(s.state, StartupStuck(reason))
    ensures AfterStartupBlocked(s, reason).bus.nextId > 0
  {
    hide Sent, Hops, StepHops, StartupSteps, OpHops;
    SentHops(s.bus, None, StartupSteps(reason));
    StartupStepsHop(s.state, reason);
  }

  lemma LearningSends(s: System, op: Op, floor: string, redact: string -> string)
    requires s.bus.nextId > 0 && op.Learned?
    ensures Hops(Next(s, op, floor, redact).bus.envelopes) == Hops(s.bus.envelopes) + OpHops(s.state, op)
    ensures Next(s, op, floor, redact).bus.nextId > 0
  {
    hide Prolonged, Hops, StepHops, LearningSteps, OpHops;
    ProlongedHops(s, LearningSteps(op.origin, op.lesson.title, op.lesson.nodeId, op.succeeded));
    LearningStepsHop(s.state, op);
  }

  lemma StoreStuckSends(s: System, reason: string)
    requires s.bus.nextId > 0
    ensures Hops(AfterStoreBlocked(s, reason).bus.envelopes)
         == Hops(s.bus.envelopes) + [Hop(L3Orchestration, StoreBlocked, "proof-store", "proof-loop")]
    ensures AfterStoreBlocked(s, reason).bus.nextId > 0
  {
    hide Noted, Hops;
    NotedHops(s.(state := s.state.(status := Blocked, blockers := WithUnique(s.state.blockers, reason))),
              L3(StoreBlocked, "proof-store", "proof-loop", reason, s.state.evidence));
  }

  lemma DriftSends(s: System, reason: string)
    requires s.bus.nextId > 0
    ensures Hops(AfterDrift(s, reason).bus.envelopes)
         == Hops(s.bus.envelopes) + [Hop(L3Orchestration, DriftFlagged, "operator", "proof-loop")]
    ensures AfterDrift(s, reason).bus.nextId > 0
  {
    hide Noted, Hops;
    NotedHops(s.(state := s.state.(driftCount := s.state.driftCount + 1, status := DriftMarked)),
              L3(DriftFlagged, "operator", "proof-loop", reason, []));
  }

  lemma ProofSends(s: System, proven: bool)
    requires s.bus.nextId > 0
    ensures Hops(AfterProofRecord(s, proven).bus.envelopes)
         == Hops(s.bus.envelopes) + [if proven then Hop(L3Orchestration, StoreLearned, "proof-store", "wiki-graph")
                                     else Hop(L3Orchestration, StoreObserved, "proof-store", "proof-loop")]
    ensures AfterProofRecord(s, proven).bus.nextId > 0
  {
    hide Noted, Hops;
    NotedHops(s, L3(StoreLearned, "proof-store", "wiki-graph", "stored proof record loaded into graph evidence", []));
    NotedHops(s, L3(StoreObserved, "proof-store", "proof-loop",
                    "stored non-proven run observed but not promoted to graph evidence", []));
  }

  // ---- whole runs ----

  /** What a run sends. */
  ghost function RunHops(s: System, ops: seq<Op>, floor: string, redact: string -> string): seq<Hop> {
    if ops == [] then []
    else
      var front := ops[..|ops| - 1];
      RunHops(s, front, floor, redact) + OpHops(After(s, front, floor, redact).state, ops[|ops| - 1])
  }

  /** A run sends what its operations send, one after another. */
  lemma {:induction false} RunSends(s: System, ops: seq<Op>, floor: string, redact: string -> string)
    requires s.bus.nextId > 0
    ensures Hops(After(s, ops, floor, redact).bus.envelopes) == Hops(s.bus.envelopes) + RunHops(s, ops, floor, redact)
    ensures After(s, ops, floor, redact).bus.nextId > 0
  {
    hide Next, OpHops, Hops;
    if ops == [] {
      assert Hops(s.bus.envelopes) + [] == Hops(s.bus.envelopes);
    } else {
      var front, last := ops[..|ops| - 1], ops[|ops| - 1];
      RunSends(s, front, floor, redact);
      var before := After(s, front, floor, redact);
      NextSends(before, last, floor, redact);
      var a, b, c := Hops(s.bus.envelopes), RunHops(s, front, floor, redact), OpHops(before.state, last);
      assert (a + b) + c == a + (b + c);
    }
  }

  // ---- alarms ----

  predicate Alarms(h: Hop) {
    h.kind == ProviderBlocked || h.kind == ProofBlocked || h.kind == StoreBlocked
  }

  ghost predicate SomeAlarm(hops: seq<Hop>) {
    exists h :: h in hops && Alarms(h)
  }

  lemma StuckAlarms(state: RuntimeState, op: Op)
    ensures SomeAlarm(StuckHops(ProviderBlocked))
    ensures op.StoreStuck? || op.StartupStuck? ==> SomeAlarm(OpHops(state, op))
    ensures op.SetProvider? || op.Drifted? || Bystanding(op) ==> !SomeAlarm(OpHops(state, op))
    ensures !SomeAlarm(ScheduledHops())
  {
    assert Alarms(StuckHops(ProviderBlocked)[0]);
    if op.StoreStuck? || op.StartupStuck? { assert Alarms(OpHops(state, op)[0]); }
  }

  lemma IntentAlarms(i: Intent)
    ensures SomeAlarm(IntentHops(i)) <==> !Unblocked(i)
  {
    var hops := IntentHops(i);
    var last := hops[|hops| - 1];
    assert last in hops;
    assert Alarms(last) <==> !Unblocked(i);
  }

  lemma ReportNoAlarm(n: nat)
    ensures !SomeAlarm(ReportedHops(n))
  {
    var packets := PacketHops(n);
    forall h | h in packets ensures !Alarms(h) { }
  }

  /** An operation raises an alarm on the bus exactly if it leaves the runtime blocked; those that do not touch the
      status never do. */
  lemma AlarmsExactly(s: System, op: Op, floor: string, redact: string -> string)
    requires s.bus.nextId > 0
    ensures SomeAlarm(OpHops(s.state, op)) <==> !Bystanding(op) && Next(s, op, floor, redact).state.status == Blocked
    ensures Hops(Next(s, op, floor, redact).bus.envelopes) == Hops(s.bus.envelopes) + OpHops(s.state, op)
  {
    hide AfterIntent, AfterReport, Sent, Hops, IntentHops, StuckHops, ScheduledHops, ReportedHops, ReportTrue,
         SomeAlarm, Unblocked;
    NextSends(s, op, floor, redact);
    StuckAlarms(s.state, op);
    match op {
      case RunIntent(i) =>
        IntentDecided(s, i, floor);
        IntentAlarms(i);
      case Reported(r, c, problem) =>
        ReportAccepted(s, r, c, redact, problem);
        ReportNoAlarm(|r.packets|);
      case _ =>
    }
  }

  // ---- packets ----

  /** The envelopes of an accepted report name every packet, in the order of the plan, each with the evidence of the
      intent. */
  lemma PacketsNamed(s: System, r: Report, c: Recomputed, redact: string -> string, problem: string, k: nat)
    requires s.bus.nextId > 0 && ReportTrue(s.state, r, c) && k < |r.packets|
    ensures var after, n := AfterReport(s, r, c, redact, problem).bus.envelopes, |s.bus.envelopes|;
            && n + 3 + k < |after|
            && after[n + 3 + k].kind == WorkPacketExecuted && after[n + 3 + k].evidence == s.state.evidence
            && after[n + 3 + k].body
               == "packet " + Decimal(k + 1) + "/" + Decimal(|r.packets|) + " completed: " + r.packets[k]
  {
    hide Sent, ReportHolds, ReportTrue, IsStep, ReportBody, Decimal, CompletionSteps, ClosingSteps;
    HoldsMeans(s.state, r, c);
    var steps := ReportSteps(s.state, r);
    SentFollows(s.bus, LastId(s.state.lastRoute), steps);
    assert steps[3 + k] == PacketStep(r, s.state.evidence, k);
    StepPlaced(s.bus, LastId(s.state.lastRoute), steps, 3 + k);
  }

  lemma StepPlaced(f: Fabric, parent: Option<nat>, steps: seq<Step>, k: nat)
    requires f.nextId > 0 && k < |steps|
    ensures var g := Sent(f, parent, steps);
            && |f.envelopes| + k < |g.envelopes| && g.envelopes[|f.envelopes| + k].kind == steps[k].kind
            && g.envelopes[|f.envelopes| + k].body == steps[k].body
            && g.envelopes[|f.envelopes| + k].evidence == steps[k].evidence
  {
    hide Sent;
    SentFollows(f, parent, steps);
    assert IsStep(Sent(f, parent, steps).envelopes[|f.envelopes| + k], steps[k], f.nextId + k,
                  if k == 0 then parent else Some(f.nextId + k - 1));
  }
}
