/** The runtime object: its methods send their envelopes one by one, look the route up again, and leave exactly
    the system the operations define. */
module RuntimeMachine {
  import opened Text
  import opened Memory
  import opened Bus
  import opened BusInvariants
  import opened Runtime
  import opened RuntimeRuns
  import RuntimeMemory
  import Graph

  lemma EmittedNext(f: Fabric, d: Draft)
    ensures Emitted(f, d).nextId == f.nextId + 1
  {
    hide Met, Crossing, MarkedIn;
  }

  /** A chain's route, looked up. */
  lemma ChainLookup(f: Fabric, route: seq<nat>, steps: seq<Step>)
    requires Well(f) && EveryLayer(steps) && RouteFits(f, route)
    ensures var after := Sent(f, LastId(route), steps);
            && Parented(after.envelopes) && after.nextId > 0
            && Ids(RouteOf(after.envelopes, after.nextId - 1)) == route + Numbers(f.nextId, |steps|)
            && AllLayers(RouteOf(after.envelopes, after.nextId - 1))
  {
    hide *;
    ChainRoute(f, route, steps);
    StepsThere(steps);
    AboveFits(f, route);
    SentChained(f, LastId(route), steps);
    ChainedGives(f, LastId(route), steps);
    FitsAtEnd(Sent(f, LastId(route), steps), route, f.nextId, |steps|);
  }

  lemma FitsAtEnd(f: Fabric, route: seq<nat>, first: nat, n: nat)
    requires Well(f) && n > 0 && f.nextId == first + n && RouteFits(f, route + Numbers(first, n))
    ensures Parented(f.envelopes) && f.nextId > 0
    ensures Ids(RouteOf(f.envelopes, f.nextId - 1)) == route + Numbers(first, n)
    ensures AllLayers(RouteOf(f.envelopes, f.nextId - 1))
  {
    hide Well, AllLayers, RouteOf;
    WellNumbered(f);
    var longer := route + Numbers(first, n);
    assert longer[|longer| - 1] == first + n - 1;
  }

  /** How a runtime starts whose stores report these errors. */
  function StartOps(storeErrors: seq<string>): (ops: seq<Op>)
    ensures |ops| == |storeErrors| && forall i :: 0 <= i < |ops| ==> ops[i] == StartupStuck(storeErrors[i])
  {
    seq(|storeErrors|, i requires 0 <= i < |storeErrors| => StartupStuck(storeErrors[i]))
  }

  class MathAtomsRuntime {
    const bus: SpiderwebBus
    const graph: Graph.WikiGraph
    const redact: string -> string
    const floor: string
    var state: RuntimeState

    constructor (graph: Graph.WikiGraph, redact: string -> string, floor: string)
      ensures fresh(bus) && this.graph == graph && this.redact == redact && this.floor == floor
      ensures Whole() == System(Fabric(1, 1, [], [], [], [], []), InitialState()) && Valid(Whole())
    {
      bus := new SpiderwebBus();
      this.graph := graph;
      this.redact := redact;
      this.floor := floor;
      state := InitialState();
      new;
      InitialValid();
    }

    function Whole(): System
      reads this, bus
    {
      System(bus.State(), state)
    }

    /** One envelope of a chain that has been sent so far. */
    method Follow(last: Option<nat>, s: Step, ghost start: Fabric, ghost parent: Option<nat>, ghost sent: seq<Step>)
      returns (id: Option<nat>)
      requires bus.State() == Sent(start, parent, sent) && last == ParentAt(bus.State(), parent, |sent|)
      modifies bus
      ensures bus.State() == Sent(start, parent, sent + [s])
      ensures id == ParentAt(bus.State(), parent, |sent| + 1) == Some(bus.nextId - 1)
    {
      hide Sent, Emitted;
      SentSnoc(start, parent, sent, s);
      EmittedNext(bus.State(), DraftOf(last, s));
      var emitted := bus.Emit(DraftOf(last, s));
      id := Some(emitted);
    }

    /** `route_for`, as ids. */
    method RouteIds(id: Option<nat>) returns (ids: seq<nat>)
      requires id.Some? && Parented(bus.envelopes)
      ensures ids == Ids(RouteOf(bus.envelopes, id.value))
    {
      RouteParented(bus.envelopes, id.value);
      var route := bus.RouteFor(id.value);
      ids := Ids(route);
    }

    /** One envelope on each layer below the last route, which is then looked up. */
    method Lift(a: Step, b: Step, c: Step, d: Step)
      requires Well(bus.State()) && RouteHolds(Whole()) && EveryLayer([a, b, c, d])
      modifies this`state, bus
      ensures Whole() == Prolonged(old(Whole()), [a, b, c, d])
    {
      hide Sent, Well, EveryLayer, AllLayers, RouteOf, Parented;
      ghost var start := bus.State();
      var parent := LastId(state.lastRoute);
      var l2 := Open(parent, a, b, c);
      var l3 := Follow(l2, d, start, parent, [a, b, c]);
      assert [a, b, c] + [d] == [a, b, c, d];
      ChainLookup(start, state.lastRoute, [a, b, c, d]);
      var route := RouteIds(l3);
      state := state.(lastRoute := route);
    }

    lemma SentNothing(f: Fabric, parent: Option<nat>)
      ensures Sent(f, parent, []) == f && ParentAt(f, parent, 0) == parent
    {
    }

    /** `mark_provider_blocked` */
    method MarkProviderBlocked(reason: string)
      requires Valid(Whole())
      modifies this`state, bus
      ensures Whole() == AfterBlocked(old(Whole()), redact(reason)) && Valid(Whole())
    {
      hide Well, RouteFits, Prolonged, EveryLayer;
      ghost var before := Whole();
      var why := redact(reason);
      state := state.(status := Blocked, blockers := WithUnique(state.blockers, why));
      var steps := BlockedSteps(why, state.evidence);
      FixedLayers(steps[0], steps[1], steps[2], steps[3]);
      assert steps == [steps[0], steps[1], steps[2], steps[3]];
      Lift(steps[0], steps[1], steps[2], steps[3]);
      BlockedValid(before, why);
    }

    /** `schedule_provider_execution`: the task carries the new route. */
    method ScheduleProviderExecution() returns (task: Option<(Call, seq<nat>)>)
      requires Valid(Whole())
      modifies this`state, bus
      ensures Whole() == AfterSchedule(old(Whole()), redact) && Valid(Whole())
      ensures task == if old(state.call).Some? && old(state.status).ProviderPending?
                      then Some((old(state.call).value, state.lastRoute)) else None
    {
      hide Well, RouteFits, Prolonged, EveryLayer, AfterBlocked;
      ghost var before := Whole();
      ScheduleValid(before, redact);
      if state.call.None? {
        MarkProviderBlocked(NO_CALL);
        return None;
      }
      if !state.status.ProviderPending? {
        MarkProviderBlocked(NOT_PENDING);
        return None;
      }
      var steps := ScheduleSteps(state.call.value, state.evidence);
      FixedLayers(steps[0], steps[1], steps[2], steps[3]);
      assert steps == [steps[0], steps[1], steps[2], steps[3]];
      Lift(steps[0], steps[1], steps[2], steps[3]);
      SameStatus(before, steps);
      task := Some((state.call.value, state.lastRoute));
    }

    /** `learn_learning_record`: the graph is taught, and the record prolongs the route. */
    method LearnLearningRecord(x: Lesson, origin: string, succeeded: bool)
      requires Valid(Whole())
      modifies this`state, bus, graph
      ensures graph.State() == Graph.Added(graph.doctrine, old(graph.State()), x)
      ensures Whole() == AfterLearning(old(Whole()), origin, x.title, x.nodeId, succeeded) && Valid(Whole())
    {
      hide *;
      ghost var before := Whole();
      graph.AddLearningRecord(x);
      assert Whole() == before;
      Observe(x, origin, succeeded);
    }

    /** The envelopes of a learned record. */
    method Observe(x: Lesson, origin: string, succeeded: bool)
      requires Valid(Whole())
      modifies this`state, bus
      ensures Whole() == AfterLearning(old(Whole()), origin, x.title, x.nodeId, succeeded) && Valid(Whole())
    {
      hide Well, RouteFits, Prolonged, EveryLayer, LearningSteps;
      LearningValid(Whole(), origin, x.title, x.nodeId, succeeded);
      var steps := LearningSteps(origin, x.title, x.nodeId, succeeded);
      LearningLayers(origin, x.title, x.nodeId, succeeded);
      assert steps == [steps[0], steps[1], steps[2], steps[3]];
      Lift(steps[0], steps[1], steps[2], steps[3]);
    }

    /** `learn_proof_record`: a proven one is taught to the graph, any is noted beside the route. */
    method LearnProofRecord(p: Graph.ProofNote, proven: bool)
      requires Valid(Whole())
      modifies bus, graph
      ensures graph.State() == if proven then Graph.Proved(old(graph.State()), p) else old(graph.State())
      ensures Whole() == AfterProofRecord(old(Whole()), proven) && Valid(Whole())
    {
      hide Well, RouteFits, Emitted, Graph.Proved;
      ProofValid(Whole(), proven);
      if proven { graph.AddProofRecord(p); }
      var step := if proven
                  then L3(StoreLearned, "proof-store", "wiki-graph",
                          "stored proof record loaded into graph evidence", [])
                  else L3(StoreObserved, "proof-store", "proof-loop",
                          "stored non-proven run observed but not promoted to graph evidence", []);
      var _ := bus.Emit(DraftOf(Some(LastOrZero(state.lastRoute)), step));
    }

    /** `mark_drift` */
    method MarkDrift(reason: string)
      requires Valid(Whole())
      modifies this`state, bus
      ensures Whole() == AfterDrift(old(Whole()), reason) && Valid(Whole())
    {
      hide Well, RouteFits, Emitted;
      DriftValid(Whole(), reason);
      state := state.(driftCount := state.driftCount + 1, status := DriftMarked);
      var _ := bus.Emit(DraftOf(Some(LastOrZero(state.lastRoute)),
                                L3(DriftFlagged, "operator", "proof-loop", reason, [])));
    }

    /** `mark_store_blocked` */
    method MarkStoreBlocked(reason: string)
      requires Valid(Whole())
      modifies this`state, bus
      ensures Whole() == AfterStoreBlocked(old(Whole()), redact(reason)) && Valid(Whole())
    {
      hide Well, RouteFits, Emitted;
      var why := redact(reason);
      StoreStuckValid(Whole(), why);
      state := state.(status := Blocked, blockers := WithUnique(state.blockers, why));
      var _ := bus.Emit(DraftOf(Some(LastOrZero(state.lastRoute)),
                                L3(StoreBlocked, "proof-store", "proof-loop", why, state.evidence)));
    }

    /** `mark_startup_store_blocked`: a chain of its own, from which the last route is looked up. */
    method MarkStartupStoreBlocked(reason: string)
      requires Valid(Whole())
      modifies this`state, bus
      ensures Whole() == AfterStartupBlocked(old(Whole()), reason) && Valid(Whole())
    {
      hide Well, RouteFits, Sent, EveryLayer, AllLayers, RouteOf, Parented;
      ghost var start := bus.State();
      StartupValid(Whole(), reason);
      var steps := StartupSteps(reason);
      FixedLayers(steps[0], steps[1], steps[2], steps[3]);
      assert steps == [steps[0], steps[1], steps[2], steps[3]];
      var l2 := Open(None, steps[0], steps[1], steps[2]);
      var l3 := Follow(l2, steps[3], start, None, [steps[0], steps[1], steps[2]]);
      assert [steps[0], steps[1], steps[2]] + [steps[3]] == steps;
      NothingFits(start);
      ChainLookup(start, [], steps);
      var route := RouteIds(l3);
      assert [] + Numbers(start.nextId, 4) == Numbers(start.nextId, 4);
      state := state.(status := Blocked, blockers := WithUnique(state.blockers, reason), lastRoute := route);
    }

    /** `with_stores`: the graph takes in what the stores hold, of the learning records the effective ones, and every
        store that cannot be read is a blocker with a chain of its own. */
    method Start(proofs: seq<Graph.ProofNote>, records: seq<Lesson>, storeErrors: seq<string>)
      requires Valid(Whole())
      modifies this`state, bus, graph
      ensures graph.State() == RuntimeMemory.Started(graph.doctrine, old(graph.State()), proofs, records)
      ensures Whole() == After(old(Whole()), StartOps(storeErrors), floor, redact) && Valid(Whole())
    {
      hide *;
      ghost var before := Whole();
      TakeIn(proofs, records);
      assert Whole() == before;
      BlockAll(storeErrors);
    }

    method TakeIn(proofs: seq<Graph.ProofNote>, records: seq<Lesson>)
      modifies graph
      ensures graph.State() == RuntimeMemory.Started(graph.doctrine, old(graph.State()), proofs, records)
    {
      hide Graph.AddedAll, Graph.ProvedAll, Effective;
      graph.AddProofRecords(proofs);
      var effective := EffectiveRecords(records, GRAPH_MEMORY_LIMIT);
      graph.AddLearningRecords(effective);
    }

    method BlockAll(storeErrors: seq<string>)
      requires Valid(Whole())
      modifies this`state, bus
      ensures Whole() == After(old(Whole()), StartOps(storeErrors), floor, redact) && Valid(Whole())
    {
      hide Valid, AfterStartupBlocked;
      for i := 0 to |storeErrors|
        invariant Whole() == After(old(Whole()), StartOps(storeErrors[..i]), floor, redact) && Valid(Whole())
      {
        StartMore(storeErrors, i);
        MarkStartupStoreBlocked(storeErrors[i]);
      }
      assert storeErrors[..|storeErrors|] == storeErrors;
    }

    lemma StartMore(storeErrors: seq<string>, i: nat)
      requires i < |storeErrors|
      ensures StartOps(storeErrors[..i + 1]) == StartOps(storeErrors[..i]) + [StartupStuck(storeErrors[i])]
      ensures StartOps(storeErrors[..i + 1])[..i] == StartOps(storeErrors[..i])
    {
    }

    /** `set_provider` */
    method SetProvider()
      requires Valid(Whole())
      modifies this`state
      ensures Whole() == AfterReset(old(Whole())) && Valid(Whole())
    {
      hide Well, RouteFits;
      ResetValid(Whole());
      state := InitialState().(proofCount := state.proofCount, driftCount := state.driftCount);
    }

    /** The first three envelopes of a chain. */
    method Open(parent: Option<nat>, a: Step, b: Step, c: Step) returns (id: Option<nat>)
      modifies bus
      ensures bus.State() == Sent(old(bus.State()), parent, [a, b, c])
      ensures id == ParentAt(bus.State(), parent, 3)
    {
      hide Sent, Emitted;
      ghost var start := bus.State();
      SentNothing(start, parent);
      var l0 := Follow(parent, a, start, parent, []);
      assert [] + [a] == [a];
      var l1 := Follow(l0, b, start, parent, [a]);
      assert [a] + [b] == [a, b];
      id := Follow(l1, c, start, parent, [a, b]);
      assert [a, b] + [c] == [a, b, c];
    }

    /** The provider's part of an intent's chain, and what blocks there. */
    method SendProvider(i: Intent, last: Option<nat>, ghost start: Fabric, ghost sent: seq<Step>)
      returns (id: Option<nat>, blockers: seq<string>)
      requires bus.State() == Sent(start, None, sent) && last == ParentAt(bus.State(), None, |sent|)
      modifies bus
      ensures bus.State() == Sent(start, None, sent + ProviderSteps(i))
      ensures id == ParentAt(bus.State(), None, |sent + ProviderSteps(i)|) && blockers == ProviderBlockers(i)
    {
      hide Sent, Emitted, ProviderSteps;
      var steps := ProviderSteps(i);
      ProviderShape(i);
      id, blockers := last, [];
      match i.provider
      case NotNeeded =>
        assert sent + steps == sent;
      case SetupFailed(reason) =>
        blockers := ["Provider setup failed: " + reason];
        assert sent + steps == sent;
      case MissingKey(env) =>
        blockers := ["Missing provider credential in " + env];
        id := Follow(last, steps[0], start, None, sent);
        assert sent + steps == sent + [steps[0]];
      case Prepared(call) =>
        id := Follow(last, steps[0], start, None, sent);
        if call.plan.Some? {
          id := Follow(id, steps[1], start, None, sent + [steps[0]]);
          assert sent + steps == sent + [steps[0]] + [steps[1]];
        } else {
          assert sent + steps == sent + [steps[0]];
        }
    }

    lemma ProviderShape(i: Intent)
      ensures |ProviderSteps(i)|
           == match i.provider
              case NotNeeded => 0
              case SetupFailed(_) => 0
              case MissingKey(_) => 1
              case Prepared(call) => if call.plan.Some? then 2 else 1
    {
    }

    const UNTOUCHED := "Spiderweb Bus route did not touch all L0-L3 layers"

    /** An intent's envelopes up to the choice of a recipe, and what blocks until then. */
    method Select(i: Intent) returns (id: Option<nat>, blockers: seq<string>)
      modifies bus
      ensures bus.State() == Sent(old(bus.State()), None, SelectSteps(i))
      ensures id == ParentAt(bus.State(), None, |SelectSteps(i)|) && blockers == IntentBlockers(i)
    {
      hide Sent, Emitted, ProviderSteps, ProviderBlockers;
      ghost var start := bus.State();
      var opening := OpeningSteps(i);
      id := Open(None, opening[0], opening[1], opening[2]);
      assert opening == [opening[0], opening[1], opening[2]];
      id, blockers := SendProvider(i, id, start, opening);
      if !i.linked { blockers := blockers + [i.recipe + " is not graph-linked to the production app mission"]; }
      if !i.stackValid { blockers := blockers + [i.recipe + " has an invalid canonical atom stack"]; }
      var selected := L3(RecipeSelected, "recipe-selector", "proof-loop", i.recipe, i.evidence);
      id := Follow(id, selected, start, None, opening + ProviderSteps(i));
    }

    /** `run_intent_in_mode`: the check that the route touched every layer can never block. */
    method RunIntent(i: Intent) returns (proof: nat)
      requires Valid(Whole())
      modifies this`state, bus
      ensures Whole() == AfterIntent(old(Whole()), i, floor) && Valid(Whole())
      ensures proof == bus.nextId - 1 && state.blockers == IntentBlockers(i)
    {
      hide Sent, Emitted, Well, RouteOf, EveryLayer, AllLayers, RouteFits, ProofStep, SelectSteps, IntentBlockers,
           IntentStatus, Parented;
      ghost var start, before := bus.State(), Whole();
      IntentValid(before, i, floor);
      var l3, blockers := Select(i);
      SelectedTouches(start, i);
      var touched := TouchesAll(l3);
      if !touched { blockers := blockers + [UNTOUCHED]; }
      assert blockers == IntentBlockers(i);
      var proven := Follow(l3, ProofStep(i, floor), start, None, SelectSteps(i));
      IntentLayers(i, floor);
      NothingFits(start);
      ChainLookup(start, [], IntentSteps(i, floor));
      var route := RouteIds(proven);
      assert [] + Numbers(start.nextId, |IntentSteps(i, floor)|) == Numbers(start.nextId, |IntentSteps(i, floor)|);
      Conclude(i, blockers, route);
      proof := proven.value;
    }

    /** `route_contains_all_layers` */
    method TouchesAll(id: Option<nat>) returns (touched: bool)
      requires id.Some? && Parented(bus.envelopes)
      ensures touched == AllLayers(RouteOf(bus.envelopes, id.value))
    {
      hide AllLayers, RouteOf, Parented;
      RouteParented(bus.envelopes, id.value);
      var route := bus.RouteFor(id.value);
      touched := AllLayers(route);
    }

    lemma SelectedTouches(f: Fabric, i: Intent)
      requires Well(f)
      ensures var after := Sent(f, None, SelectSteps(i));
              Parented(after.envelopes) && after.nextId > 0 && AllLayers(RouteOf(after.envelopes, after.nextId - 1))
      ensures |SelectSteps(i)| > 0
    {
      hide Well, EveryLayer, AllLayers, RouteOf, Sent, Parented, ProviderSteps, RouteFits;
      SelectLayers(i);
      NothingFits(f);
      ChainLookup(f, [], SelectSteps(i));
    }

    /** The state after an intent. */
    method Conclude(i: Intent, blockers: seq<string>, route: seq<nat>)
      requires blockers == IntentBlockers(i)
      modifies this`state
      ensures state == old(state).(
                status := IntentStatus(i), recipe := i.recipe, atoms := i.atoms, evidence := i.evidence,
                blockers := IntentBlockers(i), call := if i.provider.Prepared? then Some(i.provider.call) else None,
                artifact := "", outputHash := "", outputLen := 0,
                planId :=
                  if i.provider.Prepared? && i.provider.call.plan.Some? then i.provider.call.plan.value.id else "",
                manifest := "", packets := 0, candidate := None, lastRoute := route,
                proofCount := old(state).proofCount + if IntentStatus(i).Proven? then 1 else 0)
    {
      hide IntentBlockers;
      var call := if i.provider.Prepared? then Some(i.provider.call) else None;
      var status := if blockers != [] then Blocked else if call.Some? then ProviderPending else Proven;
      var planId := if call.Some? && call.value.plan.Some? then call.value.plan.value.id else "";
      state := state.(status := status, recipe := i.recipe, atoms := i.atoms, evidence := i.evidence,
                      blockers := blockers,
                      call := call, artifact := "", outputHash := "", outputLen := 0, planId := planId,
                      manifest := "", packets := 0, candidate := None, lastRoute := route);
      if status.Proven? { state := state.(proofCount := state.proofCount + 1); }
    }

    /** `mark_provider_execution_report`: one envelope for every packet, if the report holds. */
    method MarkProviderExecutionReport(r: Report, c: Recomputed, problem: string) returns (accepted: bool)
      requires Valid(Whole())
      modifies this`state, bus
      ensures Whole() == AfterReport(old(Whole()), r, c, redact, problem) && Valid(Whole())
      ensures accepted == ReportHolds(old(state), r, c)
    {
      hide Sent, Emitted, Well, RouteOf, EveryLayer, AllLayers, RouteFits, Parented, ReportHolds, ReportSteps,
           AfterBlocked;
      ghost var start, before := bus.State(), Whole();
      ReportValid(before, r, c, redact, problem);
      accepted := ReportHolds(state, r, c);
      if !accepted {
        MarkProviderBlocked("provider report verification failed: " + problem);
        return;
      }
      var proof := SendReport(r);
      ReportLayers(state, r);
      ChainLookup(start, state.lastRoute, ReportSteps(state, r));
      var route := RouteIds(proof);
      state := state.(status := VerificationPending, artifact := r.artifact, outputHash := r.hash, outputLen := r.len,
                      planId := r.planId, manifest := r.manifest, packets := |r.packets|, candidate := r.candidate,
                      lastRoute := route);
    }

    /** `mark_provider_executed`: a report made up from a name, a hash and a length, which always blocks. */
    method MarkProviderExecuted(artifact: string, hash: string, len: nat, emptyHash: string, c: Recomputed,
                                problem: string)
      requires Valid(Whole())
      modifies this`state, bus
      ensures Whole() == AfterExecuted(old(Whole()), artifact, hash, len, emptyHash, c, redact, problem)
      ensures Valid(Whole()) && state.status.Blocked?
    {
      hide AfterReport, Valid, ReportHolds;
      ExecutedBlocks(Whole(), artifact, hash, len, emptyHash, c, redact, problem);
      var accepted := MarkProviderExecutionReport(BareReport(artifact, hash, len, emptyHash), c, problem);
    }

    /** The envelopes of a report that holds. */
    method SendReport(r: Report) returns (id: Option<nat>)
      modifies bus
      ensures bus.State() == Sent(old(bus.State()), LastId(state.lastRoute), ReportSteps(state, r))
      ensures id == ParentAt(bus.State(), LastId(state.lastRoute), |ReportSteps(state, r)|)
              && |ReportSteps(state, r)| > 0
    {
      hide Sent, Emitted, ReportBody, CompletionSteps, PacketStep, L0, L1, L2, L3;
      ghost var start := bus.State();
      var body, evidence, parent := ReportBody(state, r), state.evidence, LastId(state.lastRoute);
      var opening := ReportOpening(body, evidence);
      id := Open(parent, opening[0], opening[1], opening[2]);
      assert opening == [opening[0], opening[1], opening[2]];
      id := SendPackets(r, evidence, id, start, parent, opening);
      ghost var sent := opening + PacketSteps(r, evidence, |r.packets|);
      var completion := CompletionSteps(r, evidence);
      OneCompletion(r, evidence);
      if completion != [] { id := Follow(id, completion[0], start, parent, sent); }
      assert sent + completion == if completion == [] then sent else sent + [completion[0]];
      var closing := ClosingSteps(evidence);
      id := Follow(id, closing[0], start, parent, sent + completion);
      id := Follow(id, closing[1], start, parent, sent + completion + [closing[0]]);
      assert sent + completion + [closing[0]] + [closing[1]] == ReportSteps(state, r);
    }

    lemma OneCompletion(r: Report, evidence: seq<string>)
      ensures |CompletionSteps(r, evidence)| <= 1
    {
    }

    method SendPackets(r: Report, evidence: seq<string>, last: Option<nat>, ghost start: Fabric,
                       ghost parent: Option<nat>, ghost sent: seq<Step>) returns (id: Option<nat>)
      requires bus.State() == Sent(start, parent, sent) && last == ParentAt(bus.State(), parent, |sent|)
      modifies bus
      ensures bus.State() == Sent(start, parent, sent + PacketSteps(r, evidence, |r.packets|))
      ensures id == ParentAt(bus.State(), parent, |sent + PacketSteps(r, evidence, |r.packets|)|)
    {
      hide Sent, Emitted, PacketStep;
      id := last;
      assert sent + PacketSteps(r, evidence, 0) == sent;
      for k := 0 to |r.packets|
        invariant bus.State() == Sent(start, parent, sent + PacketSteps(r, evidence, k))
        invariant id == ParentAt(bus.State(), parent, |sent + PacketSteps(r, evidence, k)|)
      {
        id := Follow(id, PacketStep(r, evidence, k), start, parent, sent + PacketSteps(r, evidence, k));
        assert sent + PacketSteps(r, evidence, k) + [PacketStep(r, evidence, k)]
               == sent + PacketSteps(r, evidence, k + 1);
      }
    }
  }
}
