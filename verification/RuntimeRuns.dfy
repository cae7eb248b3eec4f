/** What holds over every run of the runtime: the last route is the whole route of its last envelope and touches
    every layer, routes only grow until a new intent, a provider reset or a blocked start, and a proof is never
    claimed beside a blocker or a pending provider call. */
module RuntimeRuns {
  import opened Text
  import opened Memory
  import opened Bus
  import opened BusInvariants
  import opened Runtime
  import Graph

  function Ids(route: seq<Envelope>): (r: seq<nat>)
    ensures |r| == |route| && forall i :: 0 <= i < |route| ==> r[i] == route[i].id
  {
    seq(|route|, i requires 0 <= i < |route| => route[i].id)
  }

  predicate HasLayer(route: seq<Envelope>, layer: Layer) {
    exists i :: 0 <= i < |route| && route[i].layer == layer
  }

  predicate AllLayers(route: seq<Envelope>) {
    && HasLayer(route, L0Transport) && HasLayer(route, L1Message)
    && HasLayer(route, L2Flow) && HasLayer(route, L3Orchestration)
  }

  predicate StepsHave(steps: seq<Step>, layer: Layer) {
    exists i :: 0 <= i < |steps| && steps[i].layer == layer
  }

  predicate EveryLayer(steps: seq<Step>) {
    && StepsHave(steps, L0Transport) && StepsHave(steps, L1Message)
    && StepsHave(steps, L2Flow) && StepsHave(steps, L3Orchestration)
  }

  // ---- chains ----

  lemma SentSnoc(f: Fabric, parent: Option<nat>, steps: seq<Step>, s: Step)
    ensures Sent(f, parent, steps + [s])
         == Emitted(Sent(f, parent, steps), DraftOf(ParentAt(Sent(f, parent, steps), parent, |steps|), s))
  {
    assert (steps + [s])[..|steps|] == steps;
  }

  /** The envelope a chain's step `k` becomes. */
  ghost predicate Carries(e: Envelope, s: Step, id: nat) {
    && e.id == id && e.layer == s.layer && e.kind == s.kind && e.source == s.source && e.target == s.target
    && e.body == s.body && e.evidence == s.evidence
  }

  /** The route of a parent, or nothing. */
  ghost function Above(f: Fabric, parent: Option<nat>): seq<Envelope>
    requires Well(f)
  {
    if parent.Some? then RouteOf(f.envelopes, parent.value) else []
  }

  /** The route a chain has reached. */
  ghost function Reached(f: Fabric, parent: Option<nat>, steps: seq<Step>): seq<Envelope>
    requires Well(f) && Well(Sent(f, parent, steps)) && Sent(f, parent, steps).nextId == f.nextId + |steps|
  {
    if steps == [] then Above(f, parent)
    else RouteOf(Sent(f, parent, steps).envelopes, Sent(f, parent, steps).nextId - 1)
  }

  /** A chain's envelopes prolong its parent's route, one for each step, in order. */
  ghost predicate Chained(f: Fabric, parent: Option<nat>, steps: seq<Step>)
    requires Well(f)
  {
    var after := Sent(f, parent, steps);
    && Well(after) && after.nextId == f.nextId + |steps|
    && (forall id: nat :: id < f.nextId ==> RouteOf(after.envelopes, id) == RouteOf(f.envelopes, id))
    && var route := Reached(f, parent, steps);
       && |route| == |Above(f, parent)| + |steps|
       && route[..|Above(f, parent)|] == Above(f, parent)
       && forall k :: 0 <= k < |steps| ==> Carries(route[|Above(f, parent)| + k], steps[k], f.nextId + k)
  }

  lemma {:induction false} SentChained(f: Fabric, parent: Option<nat>, steps: seq<Step>)
    requires Well(f) && GoodParent(f, parent)
    ensures Chained(f, parent, steps)
  {
    if steps == [] {
      assert Above(f, parent)[..|Above(f, parent)|] == Above(f, parent);
    } else {
      SentChained(f, parent, steps[..|steps| - 1]);
      ChainedMore(f, parent, steps);
    }
  }

  /** The last envelope of a chain: where it comes from, and what stays. */
  lemma ChainedLast(f: Fabric, parent: Option<nat>, steps: seq<Step>) returns (e: Envelope)
    requires Well(f) && GoodParent(f, parent) && steps != [] && Chained(f, parent, steps[..|steps| - 1])
    ensures var after := Sent(f, parent, steps);
            && Well(after) && after.nextId == f.nextId + |steps|
            && Carries(e, steps[|steps| - 1], f.nextId + |steps| - 1)
            && Reached(f, parent, steps) == Reached(f, parent, steps[..|steps| - 1]) + [e]
            && forall id: nat :: id < f.nextId ==> RouteOf(after.envelopes, id) == RouteOf(f.envelopes, id)
  {
    hide Well, RouteOf, Emitted, Carries, DraftOf, Sent, EnvelopeFor;
    var k := |steps| - 1;
    var before := Sent(f, parent, steps[..k]);
    var own := ParentAt(before, parent, k);
    var d := DraftOf(own, steps[k]);
    WellNumbered(before);
    CarriesOne(before, own, steps[k]);
    EmittedWell(before, d);
    EmittedRoute(before, d);
    SentLast(f, parent, steps);
    e := EnvelopeFor(before, d);
  }

  lemma ChainedMore(f: Fabric, parent: Option<nat>, steps: seq<Step>)
    requires Well(f) && GoodParent(f, parent) && steps != [] && Chained(f, parent, steps[..|steps| - 1])
    ensures Chained(f, parent, steps)
  {
    hide Well, RouteOf, Carries, Sent, Above;
    var front, last := steps[..|steps| - 1], steps[|steps| - 1];
    var e := ChainedLast(f, parent, steps);
    CarriesMore(Reached(f, parent, front), |Above(f, parent)|, f.nextId, front, last, e);
    assert steps == front + [last];
  }

  lemma SentLast(f: Fabric, parent: Option<nat>, steps: seq<Step>)
    requires steps != []
    ensures var k := |steps| - 1;
            var before := Sent(f, parent, steps[..k]);
            Sent(f, parent, steps) == Emitted(before, DraftOf(ParentAt(before, parent, k), steps[k]))
  {
  }

  lemma CarriesOne(f: Fabric, parent: Option<nat>, s: Step)
    ensures Carries(EnvelopeFor(f, DraftOf(parent, s)), s, f.nextId) && DraftOf(parent, s).parent == parent
  {
    hide OwnThread;
  }

  /** One more envelope carries one more step. */
  lemma CarriesMore(up: seq<Envelope>, at: nat, first: nat, front: seq<Step>, last: Step, e: Envelope)
    requires |up| == at + |front| && Carries(e, last, first + |front|)
    requires forall j :: 0 <= j < |front| ==> Carries(up[at + j], front[j], first + j)
    ensures (up + [e])[..at] == up[..at]
    ensures forall j :: 0 <= j < |front + [last]| ==> Carries((up + [e])[at + j], (front + [last])[j], first + j)
  {
    hide Carries;
    var steps := front + [last];
    forall j | 0 <= j < |steps| ensures Carries((up + [e])[at + j], steps[j], first + j) {
      if j < |front| { assert Carries(up[at + j], front[j], first + j); }
    }
  }

  // ---- what holds between operations ----

  /** The route is empty, or the whole route of its last envelope, over all four layers. */
  ghost predicate RouteFits(f: Fabric, route: seq<nat>)
    requires Well(f)
  {
    route == [] ||
    var last := route[|route| - 1];
    && 1 <= last < f.nextId && route == Ids(RouteOf(f.envelopes, last)) && AllLayers(RouteOf(f.envelopes, last))
  }

  ghost predicate RouteHolds(s: System)
    requires Well(s.bus)
  {
    RouteFits(s.bus, s.state.lastRoute)
  }

  ghost predicate Valid(s: System) {
    && Well(s.bus) && RouteHolds(s)
    && (s.state.status.Proven? ==> s.state.blockers == [] && s.state.call.None?)
  }

  lemma InitialValid()
    ensures Valid(System(Fabric(1, 1, [], [], [], [], []), InitialState()))
  {
    EmptyIsWell();
  }

  lemma LayersOf(route: seq<Envelope>, at: nat, first: nat, steps: seq<Step>)
    requires |route| == at + |steps| && forall k :: 0 <= k < |steps| ==> Carries(route[at + k], steps[k], first + k)
    requires EveryLayer(steps)
    ensures AllLayers(route)
  {
    forall layer | StepsHave(steps, layer) ensures HasLayer(route, layer) {
      var i :| 0 <= i < |steps| && steps[i].layer == layer;
      assert Carries(route[at + i], steps[i], first + i);
      assert route[at + i].layer == layer;
    }
  }

  /** The ids of a chain's route are those of the route above and the new ones. */
  lemma ChainIds(above: seq<Envelope>, whole: seq<Envelope>, first: nat, steps: seq<Step>)
    requires |whole| == |above| + |steps| && whole[..|above|] == above
    requires forall k :: 0 <= k < |steps| ==> Carries(whole[|above| + k], steps[k], first + k)
    ensures Ids(whole) == Ids(above) + Numbers(first, |steps|)
  {
    forall k | 0 <= k < |whole| ensures whole[k].id == (Ids(above) + Numbers(first, |steps|))[k] {
      if k < |above| {
        assert whole[k] == whole[..|above|][k];
      } else {
        var j := k - |above|;
        assert Carries(whole[|above| + j], steps[j], first + j);
      }
    }
  }

  lemma StepsThere(steps: seq<Step>)
    requires EveryLayer(steps)
    ensures steps != []
  {
  }

  lemma AboveFits(f: Fabric, route: seq<nat>)
    requires Well(f) && RouteFits(f, route)
    ensures GoodParent(f, LastId(route)) && Ids(Above(f, LastId(route))) == route
  {
    hide Well;
  }

  /** A chain with every layer, below the last route or below nothing, leaves a route that fits. */
  lemma ChainRoute(f: Fabric, route: seq<nat>, steps: seq<Step>)
    requires Well(f) && EveryLayer(steps) && RouteFits(f, route)
    ensures var after := Sent(f, LastId(route), steps);
            Well(after) && RouteFits(after, route + Numbers(f.nextId, |steps|))
  {
    hide *;
    var parent := LastId(route);
    WellNumbered(f);
    StepsThere(steps);
    AboveFits(f, route);
    SentChained(f, parent, steps);
    ChainedGives(f, parent, steps);
    var after := Sent(f, parent, steps);
    var whole := RouteOf(after.envelopes, after.nextId - 1);
    ChainIds(Above(f, parent), whole, f.nextId, steps);
    LayersOf(whole, |Above(f, parent)|, f.nextId, steps);
    FitsBy(after, route + Numbers(f.nextId, |steps|));
  }

  lemma ChainedGives(f: Fabric, parent: Option<nat>, steps: seq<Step>)
    requires Well(f) && Chained(f, parent, steps) && steps != []
    ensures var after := Sent(f, parent, steps);
            && Well(after) && Parented(after.envelopes) && after.nextId == f.nextId + |steps|
            && var above, whole := Above(f, parent), RouteOf(after.envelopes, after.nextId - 1);
               && |whole| == |above| + |steps| && whole[..|above|] == above
               && forall k :: 0 <= k < |steps| ==> Carries(whole[|above| + k], steps[k], f.nextId + k)
  {
    hide Well, Carries, Above, RouteOf, Sent;
    WellNumbered(f);
    WellNumbered(Sent(f, parent, steps));
  }

  lemma FitsBy(f: Fabric, route: seq<nat>)
    requires Well(f) && Parented(f.envelopes) && route != [] && route[|route| - 1] == f.nextId - 1
    requires 1 < f.nextId && Ids(RouteOf(f.envelopes, f.nextId - 1)) == route
    requires AllLayers(RouteOf(f.envelopes, f.nextId - 1))
    ensures RouteFits(f, route)
  {
    hide Well, AllLayers, RouteOf;
  }

  lemma ProlongedHolds(s: System, steps: seq<Step>)
    requires Well(s.bus) && RouteHolds(s) && EveryLayer(steps)
    ensures Well(Prolonged(s, steps).bus) && RouteHolds(Prolonged(s, steps))
    ensures s.state.lastRoute <= Prolonged(s, steps).state.lastRoute
  {
    hide Well, RouteFits, Sent, EveryLayer;
    ChainRoute(s.bus, s.state.lastRoute, steps);
  }

  lemma NotedHolds(s: System, step: Step)
    requires Well(s.bus) && RouteHolds(s)
    ensures Well(Noted(s, step).bus) && RouteHolds(Noted(s, step))
  {
    hide Emitted, AllLayers, InThreads, Partitioned, NodesKnown, AllMet;
    EmittedWell(s.bus, DraftOf(Some(LastOrZero(s.state.lastRoute)), step));
    EmittedRoute(s.bus, DraftOf(Some(LastOrZero(s.state.lastRoute)), step));
  }

  // ---- every operation ----

  lemma FourLayers(a: Step, b: Step, c: Step, d: Step, more: seq<Step>)
    requires a.layer.L0Transport? && b.layer.L1Message? && c.layer.L2Flow? && d.layer.L3Orchestration?
    ensures EveryLayer([a, b, c] + more + [d])
  {
    var steps := [a, b, c] + more + [d];
    assert steps[0] == a && steps[1] == b && steps[2] == c && steps[|steps| - 1] == d;
  }

  lemma FixedLayers(a: Step, b: Step, c: Step, d: Step)
    requires a.layer.L0Transport? && b.layer.L1Message? && c.layer.L2Flow? && d.layer.L3Orchestration?
    ensures EveryLayer([a, b, c, d])
  {
    FourLayers(a, b, c, d, []);
    assert [a, b, c] + [] + [d] == [a, b, c, d];
  }

  lemma SelectLayers(i: Intent)
    ensures EveryLayer(SelectSteps(i))
  {
    hide EveryLayer, ProviderSteps;
    var opening := OpeningSteps(i);
    var selected := L3(RecipeSelected, "recipe-selector", "proof-loop", i.recipe, i.evidence);
    FourLayers(opening[0], opening[1], opening[2], selected, ProviderSteps(i));
    assert opening == [opening[0], opening[1], opening[2]];
  }

  lemma IntentLayers(i: Intent, floor: string)
    ensures EveryLayer(IntentSteps(i, floor))
  {
    hide SelectSteps, ProofStep, EveryLayer;
    SelectLayers(i);
    MoreLayers(SelectSteps(i), ProofStep(i, floor));
  }

  lemma MoreLayers(steps: seq<Step>, s: Step)
    requires EveryLayer(steps)
    ensures EveryLayer(steps + [s])
  {
    forall layer | StepsHave(steps, layer) ensures StepsHave(steps + [s], layer) {
      var i :| 0 <= i < |steps| && steps[i].layer == layer;
      assert (steps + [s])[i] == steps[i];
    }
  }

  lemma ReportLayers(state: RuntimeState, r: Report)
    ensures EveryLayer(ReportSteps(state, r))
  {
    hide EveryLayer, ReportBody, PacketSteps, CompletionSteps;
    var opening := ReportOpening(ReportBody(state, r), state.evidence);
    var closing := ClosingSteps(state.evidence);
    var more := PacketSteps(r, state.evidence, |r.packets|) + CompletionSteps(r, state.evidence) + [closing[0]];
    FourLayers(opening[0], opening[1], opening[2], closing[1], more);
    assert ReportSteps(state, r) == [opening[0], opening[1], opening[2]] + more + [closing[1]];
  }

  lemma LearningLayers(origin: string, title: string, nodeId: string, succeeded: bool)
    ensures var steps := LearningSteps(origin, title, nodeId, succeeded); |steps| == 4 && EveryLayer(steps)
  {
    hide EveryLayer, LearningBody;
    var steps := LearningSteps(origin, title, nodeId, succeeded);
    FixedLayers(steps[0], steps[1], steps[2], steps[3]);
    assert steps == [steps[0], steps[1], steps[2], steps[3]];
  }

  datatype Op =
    | RunIntent(intent: Intent)
    | SetProvider
    | Schedule
    | Reported(report: Report, recomputed: Recomputed, problem: string)
    | ProviderStuck(reason: string)
    | StoreStuck(reason: string)
    | StartupStuck(reason: string)
    | Drifted(reason: string)
    | ProofStored(proof: Graph.ProofNote, proven: bool)
    | Learned(lesson: Lesson, origin: string, succeeded: bool)

  /** The last route starts anew, or is dropped. */
  predicate StartsRoute(op: Op) {
    op.RunIntent? || op.SetProvider? || op.StartupStuck?
  }

  function Next(s: System, op: Op, floor: string, redact: string -> string): System {
    match op
    case RunIntent(i) => AfterIntent(s, i, floor)
    case SetProvider => AfterReset(s)
    case Schedule => AfterSchedule(s, redact)
    case Reported(r, c, problem) => AfterReport(s, r, c, redact, problem)
    case ProviderStuck(reason) => AfterBlocked(s, redact(reason))
    case StoreStuck(reason) => AfterStoreBlocked(s, redact(reason))
    case StartupStuck(reason) => AfterStartupBlocked(s, reason)
    case Drifted(reason) => AfterDrift(s, reason)
    case ProofStored(_, proven) => AfterProofRecord(s, proven)
    case Learned(x, origin, succeeded) => AfterLearning(s, origin, x.title, x.nodeId, succeeded)
  }

  lemma BlockedValid(s: System, reason: string)
    requires Valid(s)
    ensures Valid(AfterBlocked(s, reason)) && s.state.lastRoute <= AfterBlocked(s, reason).state.lastRoute
  {
    hide Well, Prolonged, EveryLayer;
    var t := s.(state := s.state.(status := Blocked, blockers := WithUnique(s.state.blockers, reason)));
    var steps := BlockedSteps(reason, s.state.evidence);
    FixedLayers(steps[0], steps[1], steps[2], steps[3]);
    assert steps == [steps[0], steps[1], steps[2], steps[3]];
    ProlongedHolds(t, steps);
    SameStatus(t, steps);
  }

  lemma SameStatus(s: System, steps: seq<Step>)
    ensures Prolonged(s, steps).state == s.state.(lastRoute := Prolonged(s, steps).state.lastRoute)
  {
  }

  lemma IntentValid(s: System, i: Intent, floor: string)
    requires Valid(s)
    ensures Valid(AfterIntent(s, i, floor))
    ensures AfterIntent(s, i, floor).state.status.Proven? <==> IntentBlockers(i) == [] && !i.provider.Prepared?
  {
    hide Well, RouteFits, Sent, EveryLayer, IntentSteps, IntentBlockers;
    IntentLayers(i, floor);
    NothingFits(s.bus);
    ChainRoute(s.bus, [], IntentSteps(i, floor));
    assert [] + Numbers(s.bus.nextId, |IntentSteps(i, floor)|) == Numbers(s.bus.nextId, |IntentSteps(i, floor)|);
  }

  lemma NothingFits(f: Fabric)
    requires Well(f)
    ensures RouteFits(f, [])
  {
  }

  lemma ReportValid(s: System, r: Report, c: Recomputed, redact: string -> string, problem: string)
    requires Valid(s)
    ensures Valid(AfterReport(s, r, c, redact, problem))
    ensures s.state.lastRoute <= AfterReport(s, r, c, redact, problem).state.lastRoute
  {
    hide Well, Prolonged, EveryLayer, ReportSteps, ReportHolds, AfterBlocked;
    BlockedValid(s, redact("provider report verification failed: " + problem));
    if ReportHolds(s.state, r, c) {
      var t := s.(state := s.state.(status := VerificationPending, artifact := r.artifact, outputHash := r.hash,
                                    outputLen := r.len, planId := r.planId, manifest := r.manifest,
                                    packets := |r.packets|, candidate := r.candidate));
      ReportLayers(s.state, r);
      ProlongedHolds(t, ReportSteps(s.state, r));
      SameStatus(t, ReportSteps(s.state, r));
    }
  }

  lemma ScheduleValid(s: System, redact: string -> string)
    requires Valid(s)
    ensures Valid(AfterSchedule(s, redact)) && s.state.lastRoute <= AfterSchedule(s, redact).state.lastRoute
  {
    hide Well, Prolonged, EveryLayer, AfterBlocked;
    if s.state.call.None? {
      BlockedValid(s, redact(NO_CALL));
    } else if !s.state.status.ProviderPending? {
      BlockedValid(s, redact(NOT_PENDING));
    } else {
      var steps := ScheduleSteps(s.state.call.value, s.state.evidence);
      FixedLayers(steps[0], steps[1], steps[2], steps[3]);
      assert steps == [steps[0], steps[1], steps[2], steps[3]];
      ProlongedHolds(s, steps);
      SameStatus(s, steps);
    }
  }

  lemma LearningValid(s: System, origin: string, title: string, nodeId: string, succeeded: bool)
    requires Valid(s)
    ensures Valid(AfterLearning(s, origin, title, nodeId, succeeded))
    ensures s.state.lastRoute <= AfterLearning(s, origin, title, nodeId, succeeded).state.lastRoute
  {
    hide Well, Prolonged, EveryLayer, LearningSteps;
    var steps := LearningSteps(origin, title, nodeId, succeeded);
    LearningLayers(origin, title, nodeId, succeeded);
    ProlongedHolds(s, steps);
    SameStatus(s, steps);
  }

  lemma NotedValid(s: System, step: Step)
    requires Well(s.bus) && RouteHolds(s) && (s.state.status.Proven? ==> s.state.blockers == [] && s.state.call.None?)
    ensures Valid(Noted(s, step)) && Noted(s, step).state == s.state
  {
    hide Well;
    NotedHolds(s, step);
  }

  /** What one operation keeps and changes. */
  lemma NextKeeps(s: System, op: Op, floor: string, redact: string -> string)
    requires Valid(s)
    ensures Valid(Next(s, op, floor, redact))
    ensures !StartsRoute(op) ==> s.state.lastRoute <= Next(s, op, floor, redact).state.lastRoute
    ensures Next(s, op, floor, redact).state.proofCount
         == s.state.proofCount + if op.RunIntent? && Next(s, op, floor, redact).state.status.Proven? then 1 else 0
  {
    hide Valid, Prolonged, Noted, IntentSteps, IntentStatus, IntentBlockers, ReportSteps, ReportHolds, Sent,
         AfterIntent, AfterBlocked, AfterReport, AfterSchedule, AfterStartupBlocked, LearningSteps;
    match op
    case RunIntent(i) =>
      IntentValid(s, i, floor);
      IntentCounts(s, op, floor, redact);
    case SetProvider => ResetValid(s);
    case Schedule =>
      ScheduleValid(s, redact);
      ScheduleCounts(s, redact);
    case Reported(r, c, problem) =>
      ReportValid(s, r, c, redact, problem);
      ReportCounts(s, r, c, redact, problem);
    case ProviderStuck(reason) =>
      BlockedValid(s, redact(reason));
      BlockedCounts(s, redact(reason));
    case StoreStuck(reason) => StoreStuckValid(s, redact(reason));
    case StartupStuck(reason) => StartupValid(s, reason);
    case Drifted(reason) => DriftValid(s, reason);
    case ProofStored(_, proven) => ProofValid(s, proven);
    case Learned(x, origin, succeeded) =>
      LearningValid(s, origin, x.title, x.nodeId, succeeded);
      SameStatus(s, LearningSteps(origin, x.title, x.nodeId, succeeded));
  }

  lemma BlockedCounts(s: System, reason: string)
    ensures AfterBlocked(s, reason).state.proofCount == s.state.proofCount
  {
    hide Sent;
  }

  lemma ScheduleCounts(s: System, redact: string -> string)
    ensures AfterSchedule(s, redact).state.proofCount == s.state.proofCount
  {
    hide Sent;
  }

  lemma ReportCounts(s: System, r: Report, c: Recomputed, redact: string -> string, problem: string)
    ensures AfterReport(s, r, c, redact, problem).state.proofCount == s.state.proofCount
  {
    hide Sent, ReportHolds, ReportSteps;
  }

  lemma StoreStuckValid(s: System, why: string)
    requires Valid(s)
    ensures Valid(AfterStoreBlocked(s, why)) && AfterStoreBlocked(s, why).state.lastRoute == s.state.lastRoute
    ensures AfterStoreBlocked(s, why).state.proofCount == s.state.proofCount
  {
    hide Well, Noted, RouteHolds;
    var state := s.state.(status := Blocked, blockers := WithUnique(s.state.blockers, why));
    SameRoute(s, state);
    NotedValid(s.(state := state), L3(StoreBlocked, "proof-store", "proof-loop", why, s.state.evidence));
  }

  lemma StartupValid(s: System, reason: string)
    requires Valid(s)
    ensures Valid(AfterStartupBlocked(s, reason))
    ensures AfterStartupBlocked(s, reason).state.proofCount == s.state.proofCount
  {
    hide Well, RouteFits, Sent, EveryLayer;
    var steps := StartupSteps(reason);
    FixedLayers(steps[0], steps[1], steps[2], steps[3]);
    assert steps == [steps[0], steps[1], steps[2], steps[3]];
    NothingFits(s.bus);
    ChainRoute(s.bus, [], steps);
    assert [] + Numbers(s.bus.nextId, 4) == Numbers(s.bus.nextId, 4);
  }

  lemma DriftValid(s: System, reason: string)
    requires Valid(s)
    ensures Valid(AfterDrift(s, reason)) && AfterDrift(s, reason).state.lastRoute == s.state.lastRoute
    ensures AfterDrift(s, reason).state.proofCount == s.state.proofCount
  {
    hide Well, Noted, RouteHolds;
    var state := s.state.(driftCount := s.state.driftCount + 1, status := DriftMarked);
    SameRoute(s, state);
    NotedValid(s.(state := state), L3(DriftFlagged, "operator", "proof-loop", reason, []));
  }

  lemma ProofValid(s: System, proven: bool)
    requires Valid(s)
    ensures Valid(AfterProofRecord(s, proven)) && AfterProofRecord(s, proven).state == s.state
  {
    hide Well, Noted, RouteHolds;
    NotedValid(s, L3(StoreLearned, "proof-store", "wiki-graph", "stored proof record loaded into graph evidence", []));
    NotedValid(s, L3(StoreObserved, "proof-store", "proof-loop",
                     "stored non-proven run observed but not promoted to graph evidence", []));
  }

  lemma IntentCounts(s: System, op: Op, floor: string, redact: string -> string)
    requires op.RunIntent?
    ensures Next(s, op, floor, redact) == AfterIntent(s, op.intent, floor)
    ensures Next(s, op, floor, redact).state.proofCount
         == s.state.proofCount + if Next(s, op, floor, redact).state.status.Proven? then 1 else 0
  {
    hide Sent, IntentSteps, IntentStatus, IntentBlockers;
  }

  lemma ResetValid(s: System)
    requires Valid(s)
    ensures Valid(AfterReset(s))
  {
    hide Well;
  }

  lemma SameRoute(s: System, state: RuntimeState)
    requires Well(s.bus) && RouteHolds(s) && state.lastRoute == s.state.lastRoute
    ensures RouteHolds(s.(state := state))
  {
  }

  // ---- whole runs ----

  function After(s: System, ops: seq<Op>, floor: string, redact: string -> string): System {
    if ops == [] then s else Next(After(s, ops[..|ops| - 1], floor, redact), ops[|ops| - 1], floor, redact)
  }

  /** How many intents of the run ended proven. */
  function ProvenRuns(s: System, ops: seq<Op>, floor: string, redact: string -> string): nat {
    if ops == [] then 0
    else
      ProvenRuns(s, ops[..|ops| - 1], floor, redact)
      + if ops[|ops| - 1].RunIntent? && After(s, ops, floor, redact).state.status.Proven? then 1 else 0
  }

  /** Every run from a valid state stays valid, and the proof count is the count of proven intents. */
  lemma {:induction false} RunHolds(s: System, ops: seq<Op>, floor: string, redact: string -> string)
    requires Valid(s)
    ensures Valid(After(s, ops, floor, redact))
    ensures After(s, ops, floor, redact).state.proofCount == s.state.proofCount + ProvenRuns(s, ops, floor, redact)
  {
    hide Valid, Next;
    if ops != [] {
      RunHolds(s, ops[..|ops| - 1], floor, redact);
      NextKeeps(After(s, ops[..|ops| - 1], floor, redact), ops[|ops| - 1], floor, redact);
    }
  }

  /** Between new intents, provider resets and blocked starts the last route only grows. */
  lemma {:induction false} RouteGrows(s: System, ops: seq<Op>, floor: string, redact: string -> string)
    requires Valid(s) && forall k :: 0 <= k < |ops| ==> !StartsRoute(ops[k])
    ensures s.state.lastRoute <= After(s, ops, floor, redact).state.lastRoute
  {
    hide Valid, Next;
    if ops != [] {
      var front := ops[..|ops| - 1];
      RouteGrows(s, front, floor, redact);
      RunHolds(s, front, floor, redact);
      NextKeeps(After(s, front, floor, redact), ops[|ops| - 1], floor, redact);
    }
  }
}
