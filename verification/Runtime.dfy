/** The runtime that drives the bus: intents, provider executions, blockers and learning, each of them a chain
    of envelopes, and a status over them. Classification, retrieval, recipe choice and the evidence a report
    is checked against are inputs. */
module Runtime {
  import opened Text
  import opened Bus

  datatype Status = Drafted | ProviderPending | VerificationPending | Proven | Blocked | DriftMarked

  datatype Plan = Plan(id: string, packets: nat)

  datatype Call = Call(model: string, endpoint: string, plan: Option<Plan>)

  datatype ProviderResult = NotNeeded | Prepared(call: Call) | MissingKey(env: string) | SetupFailed(reason: string)

  datatype Candidate = Candidate(bundleHash: string, attempts: nat, repairs: nat)

  /** What an intent comes to before the runtime decides on it. */
  datatype Intent = Intent(text: string, atomBody: string, evidence: seq<string>, evidenceBody: string,
                           recipe: string, recipeName: string, atoms: seq<string>, provider: ProviderResult,
                           linked: bool, stackValid: bool)

  /** What a provider execution claims. */
  datatype Report = Report(artifact: string, hash: string, len: nat, textLen: nat, textHash: string,
                           planId: string, manifest: string, packets: seq<string>, executed: nat, resumed: nat,
                           candidate: Option<Candidate>)

  /** What the files named in a report recompute to. */
  datatype Recomputed = Recomputed(planPackets: Option<seq<string>>, planModel: string,
                                   candidateCounts: Option<(nat, nat)>, artifact: Option<(nat, string)>)

  datatype RuntimeState = RuntimeState(
    status: Status, recipe: string, atoms: seq<string>, proofCount: nat, driftCount: nat, evidence: seq<string>,
    blockers: seq<string>, call: Option<Call>, artifact: string, outputHash: string, outputLen: nat,
    planId: string, manifest: string, packets: nat, candidate: Option<Candidate>, lastRoute: seq<nat>)

  datatype System = System(bus: Fabric, state: RuntimeState)

  const DEFAULT_RECIPE := "native-atom-renderer"

  function InitialState(): RuntimeState {
    RuntimeState(Drafted, DEFAULT_RECIPE, [], 0, 0, [], [], None, "", "", 0, "", "", 0, None, [])
  }

  // ---- chains of envelopes ----

  /** One envelope of a chain; its parent is the one before it. */
  datatype Step = Step(layer: Layer, kind: Kind, source: string, target: string, body: string, evidence: seq<string>)

  function RampOf(layer: Layer): Ramp {
    match layer
    case L0Transport => Ingress
    case L3Orchestration => OffRamp
    case L1Message => Internal
    case L2Flow => Internal
  }

  function DraftOf(parent: Option<nat>, s: Step): Draft {
    Draft(parent, s.layer, RampOf(s.layer), s.kind, s.source, s.target, s.body, s.evidence)
  }

  function ParentAt(f: Fabric, parent: Option<nat>, k: nat): Option<nat> {
    if k == 0 || f.nextId == 0 then parent else Some(f.nextId - 1)
  }

  /** The bus after a chain is sent below a parent. */
  function Sent(f: Fabric, parent: Option<nat>, steps: seq<Step>): Fabric {
    if steps == [] then f
    else
      var k := |steps| - 1;
      var before := Sent(f, parent, steps[..k]);
      Emitted(before, DraftOf(ParentAt(before, parent, k), steps[k]))
  }

  /** `n` consecutive ids. */
  function Numbers(first: nat, n: nat): (r: seq<nat>)
    ensures |r| == n && forall i :: 0 <= i < n ==> r[i] == first + i
  {
    seq(n, i requires 0 <= i < n => first + i)
  }

  function LastId(route: seq<nat>): Option<nat> {
    if route == [] then None else Some(route[|route| - 1])
  }

  /** `last_route.last().copied().unwrap_or(0)` */
  function LastOrZero(route: seq<nat>): nat {
    if route == [] then 0 else route[|route| - 1]
  }

  // ---- what each operation is ----

  function L0(kind: Kind, source: string, target: string, body: string): Step {
    Step(L0Transport, kind, source, target, body, [])
  }

  function L1(kind: Kind, source: string, target: string, body: string): Step {
    Step(L1Message, kind, source, target, body, [])
  }

  function L2(kind: Kind, source: string, target: string, body: string, evidence: seq<string>): Step {
    Step(L2Flow, kind, source, target, body, evidence)
  }

  function L3(kind: Kind, source: string, target: string, body: string, evidence: seq<string>): Step {
    Step(L3Orchestration, kind, source, target, body, evidence)
  }

  function BlockedSteps(reason: string, evidence: seq<string>): seq<Step> {
    [L0(ProviderBlocked, "model-worker", "provider-adapter", reason),
     L1(ProviderBlocked, "provider-adapter", "proof-loop", reason),
     L2(ProviderBlocked, "provider-adapter", "proof-loop", reason, evidence),
     L3(ProviderBlocked, "proof-loop", "artifact-state", reason, evidence)]
  }

  function StartupSteps(reason: string): seq<Step> {
    [L0(StoreBlocked, "proof-store", "math-atoms-runtime", reason),
     L1(StoreBlocked, "math-atoms-runtime", "wiki-graph", "persistent proof records rejected"),
     L2(StoreBlocked, "wiki-graph", "proof-loop", "startup proof evidence blocked before retrieval", []),
     L3(StoreBlocked, "proof-loop", "artifact-state", reason, [])]
  }

  function ScheduleSteps(call: Call, evidence: seq<string>): seq<Step> {
    [L0(ProviderExecutionRequested, "proof-loop", "provider-adapter",
        "provider execution requested from pending proof route"),
     L1(ProviderExecutionRequested, "provider-adapter", "model-worker", call.model + " via " + call.endpoint),
     L2(ProviderExecutionScheduled, "provider-adapter", "model-worker",
        "provider worker scheduled with graph evidence payload", evidence),
     L3(ProviderExecutionScheduled, "proof-loop", "provider-worker",
        "provider execution lifted onto Spiderweb orchestration route", evidence)]
  }

  function LearningBody(succeeded: bool): string {
    if succeeded then "gate-passing result promoted as reusable graph evidence"
    else "failure joined as correction evidence without proof promotion"
  }

  function LearningSteps(origin: string, title: string, nodeId: string, succeeded: bool): seq<Step> {
    [L0(LearningObserved, origin, "learning-store", title),
     L1(LearningPersisted, "learning-store", "wiki-graph", "validated learning event persisted and read back"),
     L2(LearningApplied, "wiki-graph", "recipe-selector", LearningBody(succeeded), [nodeId]),
     L3(LearningApplied, "proof-loop", "artifact-state", LearningBody(succeeded), [nodeId])]
  }

  function ProviderSteps(i: Intent): seq<Step> {
    match i.provider
    case NotNeeded => []
    case SetupFailed(_) => []
    case MissingKey(_) =>
      [L2(ProviderBlocked, "provider-adapter", "operator", "provider credential missing; route failed closed",
          i.evidence)]
    case Prepared(call) =>
      [L2(ProviderPrepared, "provider-adapter", "model", "provider request prepared from graph evidence", i.evidence)]
      + (if call.plan.None? then []
         else [L2(WorkPlanCreated, "work-planner", "provider-worker",
                  Decimal(call.plan.value.packets)
                      + " base packets prepared; file packets expand from the strict manifest",
                  i.evidence)])
  }

  function ProviderBlockers(i: Intent): seq<string> {
    match i.provider
    case NotNeeded => []
    case Prepared(_) => []
    case MissingKey(env) => ["Missing provider credential in " + env]
    case SetupFailed(reason) => ["Provider setup failed: " + reason]
  }

  function IntentBlockers(i: Intent): seq<string> {
    ProviderBlockers(i)
    + (if i.linked then [] else [i.recipe + " is not graph-linked to the production app mission"])
    + (if i.stackValid then [] else [i.recipe + " has an invalid canonical atom stack"])
  }

  function IntentStatus(i: Intent): Status {
    if IntentBlockers(i) != [] then Blocked else if i.provider.Prepared? then ProviderPending else Proven
  }

  function ProofKind(i: Intent): Kind {
    if IntentBlockers(i) != [] then ProofBlocked else if i.provider.Prepared? then ProofPending else ProofCaptured
  }

  function JoinWith(xs: seq<string>): string {
    if xs == [] then "" else if |xs| == 1 then xs[0] else JoinWith(xs[..|xs| - 1]) + "; " + xs[|xs| - 1]
  }

  function ProofBody(i: Intent, floor: string): string {
    if IntentBlockers(i) != [] then JoinWith(IntentBlockers(i))
    else if i.provider.Prepared? then
      i.recipeName + " selected for " + floor + "; provider execution required before proof can pass"
    else i.recipeName + " selected for " + floor + " with " + Decimal(|i.evidence|) + " evidence nodes"
  }

  function OpeningSteps(i: Intent): seq<Step> {
    [L0(IntentIngress, "operator", "math-atoms-runtime", i.text),
     L1(IntentClassified, "classifier", "wiki-graph", i.atomBody),
     L2(EvidenceRetrieved, "wiki-graph", "recipe-selector", i.evidenceBody, i.evidence)]
  }

  function SelectSteps(i: Intent): seq<Step> {
    OpeningSteps(i) + ProviderSteps(i) + [L3(RecipeSelected, "recipe-selector", "proof-loop", i.recipe, i.evidence)]
  }

  function ProofStep(i: Intent, floor: string): Step {
    L3(ProofKind(i), "proof-loop", "artifact-state", ProofBody(i, floor), i.evidence)
  }

  function IntentSteps(i: Intent, floor: string): seq<Step> {
    SelectSteps(i) + [ProofStep(i, floor)]
  }

  /** A chain below the last route, which it prolongs. */
  function Prolonged(s: System, steps: seq<Step>): System {
    System(Sent(s.bus, LastId(s.state.lastRoute), steps),
           s.state.(lastRoute := s.state.lastRoute + Numbers(s.bus.nextId, |steps|)))
  }

  /** One envelope beside the route: the last route stays. */
  function Noted(s: System, step: Step): System {
    s.(bus := Emitted(s.bus, DraftOf(Some(LastOrZero(s.state.lastRoute)), step)))
  }

  /** `run_intent_in_mode`: a new route. */
  function AfterIntent(s: System, i: Intent, floor: string): System {
    var steps := IntentSteps(i, floor);
    var call := if i.provider.Prepared? then Some(i.provider.call) else None;
    System(Sent(s.bus, None, steps),
           s.state.(status := IntentStatus(i), recipe := i.recipe, atoms := i.atoms, evidence := i.evidence,
                    blockers := IntentBlockers(i), call := call, artifact := "", outputHash := "", outputLen := 0,
                    planId := if call.Some? && call.value.plan.Some? then call.value.plan.value.id else "",
                    manifest := "", packets := 0, candidate := None,
                    lastRoute := Numbers(s.bus.nextId, |steps|),
                    proofCount := s.state.proofCount + if IntentStatus(i).Proven? then 1 else 0))
  }

  /** `set_provider` */
  function AfterReset(s: System): System {
    s.(state := InitialState().(proofCount := s.state.proofCount, driftCount := s.state.driftCount))
  }

  function AfterBlocked(s: System, reason: string): System {
    Prolonged(s.(state := s.state.(status := Blocked, blockers := WithUnique(s.state.blockers, reason))),
              BlockedSteps(reason, s.state.evidence))
  }

  const NO_CALL := "No prepared provider call. Run an intent that requests provider/model work first."
  const NOT_PENDING := "Provider execution requires a provider pending Spiderweb route"

  /** `schedule_provider_execution` */
  function AfterSchedule(s: System, redact: string -> string): System {
    if s.state.call.None? then AfterBlocked(s, redact(NO_CALL))
    else if !s.state.status.ProviderPending? then AfterBlocked(s, redact(NOT_PENDING))
    else Prolonged(s, ScheduleSteps(s.state.call.value, s.state.evidence))
  }

  function AfterDrift(s: System, reason: string): System {
    Noted(s.(state := s.state.(driftCount := s.state.driftCount + 1, status := DriftMarked)),
          L3(DriftFlagged, "operator", "proof-loop", reason, []))
  }

  function AfterStoreBlocked(s: System, reason: string): System {
    Noted(s.(state := s.state.(status := Blocked, blockers := WithUnique(s.state.blockers, reason))),
          L3(StoreBlocked, "proof-store", "proof-loop", reason, s.state.evidence))
  }

  /** `mark_startup_store_blocked`: a route of its own. */
  function AfterStartupBlocked(s: System, reason: string): System {
    System(Sent(s.bus, None, StartupSteps(reason)),
           s.state.(status := Blocked, blockers := WithUnique(s.state.blockers, reason),
                    lastRoute := Numbers(s.bus.nextId, 4)))
  }

  function AfterProofRecord(s: System, proven: bool): System {
    Noted(s, if proven
             then L3(StoreLearned, "proof-store", "wiki-graph", "stored proof record loaded into graph evidence", [])
             else L3(StoreObserved, "proof-store", "proof-loop",
                     "stored non-proven run observed but not promoted to graph evidence", []))
  }

  function AfterLearning(s: System, origin: string, title: string, nodeId: string, succeeded: bool): System {
    Prolonged(s, LearningSteps(origin, title, nodeId, succeeded))
  }

  // ---- reports ----

  predicate NoneTwice(xs: seq<string>) {
    forall i, j :: 0 <= i < j < |xs| ==> xs[i] != xs[j]
  }

  /** `verify_provider_execution_report` finds nothing wrong. */
  predicate ReportHolds(state: RuntimeState, r: Report, c: Recomputed) {
    && state.status.ProviderPending? && state.call.Some? && state.call.value.plan.Some?
    && r.planId == state.call.value.plan.value.id && !Blank(r.manifest)
    && c.planPackets.Some?
    && r.executed + r.resumed < 0x1_0000_0000_0000_0000
    && r.executed + r.resumed == |r.packets| && NoneTwice(r.packets)
    && r.packets == c.planPackets.value && c.planModel == state.call.value.model
    && !Blank(r.artifact) && r.len != 0 && r.textLen == r.len && r.textHash == r.hash
    && r.candidate.Some? && r.candidate.value.bundleHash == r.hash
    && c.candidateCounts == Some((r.candidate.value.attempts, r.candidate.value.repairs))
    && c.artifact == Some((r.len, r.hash))
  }

  function ReportBody(state: RuntimeState, r: Report): string {
    (if state.call.Some? then state.call.value.model else "provider") + " executed output " + r.hash
    + " (" + Decimal(r.len) + " bytes)"
  }

  function PacketStep(r: Report, evidence: seq<string>, k: nat): Step
    requires k < |r.packets|
  {
    L2(WorkPacketExecuted, "provider-worker", "work-proof",
       "packet " + Decimal(k + 1) + "/" + Decimal(|r.packets|) + " completed: " + r.packets[k], evidence)
  }

  function PacketSteps(r: Report, evidence: seq<string>, n: nat): (steps: seq<Step>)
    requires n <= |r.packets|
    ensures |steps| == n && forall k :: 0 <= k < n ==> steps[k] == PacketStep(r, evidence, k)
  {
    seq(n, k requires 0 <= k < n => PacketStep(r, evidence, k))
  }

  function ReportOpening(body: string, evidence: seq<string>): seq<Step> {
    [L0(ProviderExecuted, "model-worker", "provider-adapter", body),
     L1(ProviderExecuted, "provider-adapter", "proof-loop", body),
     L2(ProviderExecuted, "provider-adapter", "proof-loop", body, evidence)]
  }

  function CompletionSteps(r: Report, evidence: seq<string>): seq<Step> {
    if r.packets == [] then []
    else [L3(WorkPlanCompleted, "work-proof", "proof-loop",
             Decimal(|r.packets|) + " packets complete; " + Decimal(r.executed) + " executed, " + Decimal(r.resumed)
                 + " resumed",
             evidence)]
  }

  function ClosingSteps(evidence: seq<string>): seq<Step> {
    [L3(ProviderExecuted, "proof-loop", "artifact-state", "provider worker completed through Spiderweb route",
        evidence),
     L3(ProofPending, "proof-loop", "artifact-state",
        "provider work evidence verified; executable product harness is still required", evidence)]
  }

  function ReportSteps(state: RuntimeState, r: Report): seq<Step> {
    ReportOpening(ReportBody(state, r), state.evidence) + PacketSteps(r, state.evidence, |r.packets|)
    + CompletionSteps(r, state.evidence) + ClosingSteps(state.evidence)
  }

  /** `mark_provider_execution_report`; `problem` is the text of what is wrong, if anything is. */
  function AfterReport(s: System, r: Report, c: Recomputed, redact: string -> string, problem: string): System {
    if !ReportHolds(s.state, r, c) then AfterBlocked(s, redact("provider report verification failed: " + problem))
    else
      Prolonged(
        s.(state := s.state.(status := VerificationPending, artifact := r.artifact, outputHash := r.hash,
                             outputLen := r.len, planId := r.planId, manifest := r.manifest,
                             packets := |r.packets|, candidate := r.candidate)),
        ReportSteps(s.state, r))
  }

  /** The report `mark_provider_executed` makes up for an output of which it has only a name, a hash and a length. */
  function BareReport(artifact: string, hash: string, len: nat, emptyHash: string): Report {
    Report(artifact, hash, len, 0, emptyHash, "", "", [], 1, 0, None)
  }

  /** `mark_provider_executed` */
  function AfterExecuted(s: System, artifact: string, hash: string, len: nat, emptyHash: string, c: Recomputed,
                         redact: string -> string, problem: string): System {
    AfterReport(s, BareReport(artifact, hash, len, emptyHash), c, redact, problem)
  }

  /** Whatever the runtime is in, `mark_provider_executed` never gets past the verification of its own report: the
      runtime is blocked with the reason recorded and sent over all layers, and of the output it was told of it keeps
      nothing. */
  lemma ExecutedBlocks(s: System, artifact: string, hash: string, len: nat, emptyHash: string, c: Recomputed,
                       redact: string -> string, problem: string)
    ensures var after := AfterExecuted(s, artifact, hash, len, emptyHash, c, redact, problem);
            var reason := redact("provider report verification failed: " + problem);
            && after.state.status.Blocked? && reason in after.state.blockers
            && (forall b :: b in s.state.blockers ==> b in after.state.blockers)
            && after.state == s.state.(status := Blocked, blockers := after.state.blockers,
                                       lastRoute := s.state.lastRoute + Numbers(s.bus.nextId, 4))
            && after.bus == Sent(s.bus, LastId(s.state.lastRoute), BlockedSteps(reason, s.state.evidence))
  {
    hide Sent;
    var r := BareReport(artifact, hash, len, emptyHash);
    assert !ReportHolds(s.state, r, c) by { assert r.candidate.None?; }
    assert |BlockedSteps(redact("provider report verification failed: " + problem), s.state.evidence)| == 4;
  }
}
