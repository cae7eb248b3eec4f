/** The Spiderweb bus: envelopes in threads, threads meeting at nodes, and the route that led to an envelope.
    The bus takes whatever parent it is given; its guarantees are for parents that are none, 0 or issued. */
module Bus {
  import opened Text

  datatype Layer = L0Transport | L1Message | L2Flow | L3Orchestration

  datatype Ramp = Ingress | Internal | OffRamp

  datatype Transfer = SharedNode | Backpressure

  datatype Kind =
    | IntentIngress | IntentClassified | RetrievalRequested | EvidenceRetrieved | ProviderPrepared
    | ProviderExecutionRequested | ProviderExecutionScheduled | ProviderExecuted | ProviderBlocked | WorkPlanCreated
    | WorkPacketExecuted | WorkPlanCompleted | RecipeSelected | ProofCaptured | ProofPending | ProofBlocked
    | StoreLearned | StoreObserved | StoreBlocked | LearningObserved | LearningPersisted | LearningApplied
    | DriftFlagged

  datatype Envelope = Envelope(id: nat, parent: Option<nat>, thread: nat, layer: Layer, ramp: Ramp, kind: Kind,
                               source: string, target: string, body: string, evidence: seq<string>)

  datatype Thread = Thread(id: nat, envelopes: seq<nat>, nodes: seq<string>, layers: seq<Layer>)

  datatype Intersection = Intersection(node: string, threads: seq<nat>, transfer: Transfer)

  datatype Preload = Preload(thread: nat, envelope: nat, targets: seq<string>)

  datatype Signal = Signal(thread: nat, envelope: nat, layer: Layer, source: string, reason: string)

  /** An envelope before it is emitted. */
  datatype Draft = Draft(parent: Option<nat>, layer: Layer, ramp: Ramp, kind: Kind,
                         source: string, target: string, body: string, evidence: seq<string>)

  datatype Fabric = Fabric(nextId: nat, nextThread: nat, envelopes: seq<Envelope>, threads: seq<Thread>,
                           intersections: seq<Intersection>, preloads: seq<Preload>, backpressure: seq<Signal>)

  predicate IsBlocking(kind: Kind) {
    kind.ProviderBlocked? || kind.ProofBlocked? || kind.StoreBlocked?
  }

  function TransferFor(kind: Kind): Transfer {
    if IsBlocking(kind) then Backpressure else SharedNode
  }

  function WithUnique<T(==)>(xs: seq<T>, x: T): seq<T> {
    if x in xs then xs else xs + [x]
  }

  // ---- what one emission does ----

  /** The first envelope with this id. */
  function FindEnvelope(envelopes: seq<Envelope>, id: nat): Option<Envelope> {
    if envelopes == [] then None
    else if envelopes[0].id == id then Some(envelopes[0])
    else FindEnvelope(envelopes[1..], id)
  }

  /** `thread_for_parent` */
  function ThreadFor(envelopes: seq<Envelope>, parent: Option<nat>): Option<nat> {
    var p :- parent;
    var e :- FindEnvelope(envelopes, p);
    Some(e.thread)
  }

  predicate Crosses(t: Thread, own: nat, d: Draft) {
    t.id != own && (d.source in t.nodes || d.target in t.nodes)
  }

  /** The other threads that know an end of the draft. */
  function Crossing(threads: seq<Thread>, own: nat, d: Draft): seq<nat> {
    if threads == [] then []
    else
      var front := Crossing(threads[..|threads| - 1], own, d);
      var last := threads[|threads| - 1];
      if Crosses(last, own, d) then WithUnique(front, last.id) else front
  }

  function Marked(t: Thread, id: nat, d: Draft): Thread {
    t.(envelopes := t.envelopes + [id], layers := WithUnique(t.layers, d.layer),
       nodes := WithUnique(WithUnique(t.nodes, d.source), d.target))
  }

  /** The first thread with the id gets the envelope. */
  function MarkedIn(threads: seq<Thread>, own: nat, id: nat, d: Draft): (r: seq<Thread>)
    ensures |r| == |threads|
  {
    if threads == [] then []
    else if threads[0].id == own then [Marked(threads[0], id, d)] + threads[1..]
    else [threads[0]] + MarkedIn(threads[1..], own, id, d)
  }

  function Inserted(xs: seq<nat>, x: nat): seq<nat> {
    if xs == [] || x <= xs[0] then [x] + xs else [xs[0]] + Inserted(xs[1..], x)
  }

  function Sorted(xs: seq<nat>): seq<nat> {
    if xs == [] then [] else Inserted(Sorted(xs[1..]), xs[0])
  }

  /** `dedup`: equal neighbours become one. */
  function Deduped(xs: seq<nat>): seq<nat> {
    if |xs| <= 1 then xs
    else if xs[0] == xs[1] then Deduped(xs[1..])
    else [xs[0]] + Deduped(xs[1..])
  }

  /** `add_intersection`, with the threads in order and once each. */
  function Joined(all: seq<Intersection>, node: string, threads: seq<nat>, transfer: Transfer): seq<Intersection> {
    if all == [] then [Intersection(node, threads, transfer)]
    else if all[0].node == node && all[0].threads == threads then
      [if transfer.Backpressure? then all[0].(transfer := transfer) else all[0]] + all[1..]
    else [all[0]] + Joined(all[1..], node, threads, transfer)
  }

  function Met(all: seq<Intersection>, node: string, crossing: seq<nat>, own: nat,
               transfer: Transfer): seq<Intersection> {
    var threads := WithUnique(crossing, own);
    if |threads| > 1 then Joined(all, node, Deduped(Sorted(threads)), transfer) else all
  }

  /** `record_fabric` */
  function Recorded(f: Fabric, id: nat, own: nat, d: Draft): Fabric {
    var crossing := Crossing(f.threads, own, d);
    var transfer := TransferFor(d.kind);
    f.(threads := MarkedIn(f.threads, own, id, d),
       intersections := Met(Met(f.intersections, d.source, crossing, own, transfer), d.target, crossing, own, transfer),
       preloads := if d.layer.L2Flow? || d.layer.L3Orchestration?
                   then f.preloads + [Preload(own, id, if d.evidence == [] then [d.target] else d.evidence)]
                   else f.preloads,
       backpressure := if IsBlocking(d.kind)
                       then f.backpressure + [Signal(own, id, d.layer, d.source, d.body)]
                       else f.backpressure)
  }

  /** A thread of its own, if the parent has none. */
  function Opened(f: Fabric, parent: Option<nat>): Fabric {
    if ThreadFor(f.envelopes, parent).Some? then f
    else f.(threads := f.threads + [Thread(f.nextThread, [], [], [])], nextThread := f.nextThread + 1)
  }

  function OwnThread(f: Fabric, parent: Option<nat>): nat {
    match ThreadFor(f.envelopes, parent)
    case Some(t) => t
    case None => f.nextThread
  }

  function EnvelopeFor(f: Fabric, d: Draft): Envelope {
    Envelope(f.nextId, d.parent, OwnThread(f, d.parent), d.layer, d.ramp, d.kind, d.source, d.target, d.body,
             d.evidence)
  }

  /** `emit` */
  function Emitted(f: Fabric, d: Draft): Fabric {
    var open := Opened(f, d.parent).(nextId := f.nextId + 1, envelopes := f.envelopes + [EnvelopeFor(f, d)]);
    Recorded(open, f.nextId, OwnThread(f, d.parent), d)
  }

  // ---- routes ----

  /** Issued ids are 1, 2, 3, …; parents are none, 0 or issued before. */
  ghost predicate Parented(envelopes: seq<Envelope>) {
    && (forall i :: 0 <= i < |envelopes| ==> envelopes[i].id == i + 1)
    && (forall i :: 0 <= i < |envelopes| && envelopes[i].parent.Some? ==> envelopes[i].parent.value <= i)
  }

  /** Where `route_for` looks next. */
  function Ancestor(envelopes: seq<Envelope>, id: nat): Option<nat> {
    var e :- FindEnvelope(envelopes, id);
    e.parent
  }

  /** Where the cursor of `route_for` stands after at most `k` turns; none once it has ended. */
  function Climb(envelopes: seq<Envelope>, cursor: Option<nat>, k: nat): Option<nat>
    decreases k
  {
    if k == 0 || cursor.None? then cursor else Climb(envelopes, Ancestor(envelopes, cursor.value), k - 1)
  }

  /** What `route_for` collects in at most `k` turns. */
  function Climbed(envelopes: seq<Envelope>, cursor: Option<nat>, k: nat): seq<Envelope>
    decreases k
  {
    if k == 0 || cursor.None? || FindEnvelope(envelopes, cursor.value).None? then []
    else
      var e := FindEnvelope(envelopes, cursor.value).value;
      [e] + Climbed(envelopes, e.parent, k - 1)
  }

  /** Looking up the route comes to an end. */
  ghost predicate RouteEnds(envelopes: seq<Envelope>, id: nat) {
    exists k: nat :: Climb(envelopes, Some(id), k).None?
  }

  /** The route of any id whose ancestors come to an end, whatever the parents are. */
  ghost function RouteTo(envelopes: seq<Envelope>, id: nat): seq<Envelope>
    requires RouteEnds(envelopes, id)
  {
    var k: nat :| Climb(envelopes, Some(id), k).None?;
    Reversed(Climbed(envelopes, Some(id), k))
  }

  /** Turns after the end collect nothing more. */
  lemma {:induction false} ClimbedSame(envelopes: seq<Envelope>, cursor: Option<nat>, j: nat, k: nat)
    requires Climb(envelopes, cursor, j).None? && Climb(envelopes, cursor, k).None?
    ensures Climbed(envelopes, cursor, j) == Climbed(envelopes, cursor, k)
    decreases j
  {
    if cursor.Some? { ClimbedSame(envelopes, Ancestor(envelopes, cursor.value), j - 1, k - 1); }
  }

  /** The route to an id: from its first ancestor down. */
  ghost function RouteOf(envelopes: seq<Envelope>, id: nat): seq<Envelope>
    requires Parented(envelopes)
    decreases id
  {
    if id == 0 || id > |envelopes| then []
    else
      var e := envelopes[id - 1];
      (if e.parent.Some? then RouteOf(envelopes, e.parent.value) else []) + [e]
  }

  function Reversed(xs: seq<Envelope>): seq<Envelope> {
    if xs == [] then [] else Reversed(xs[1..]) + [xs[0]]
  }

  lemma NothingReversed()
    ensures Reversed([]) == []
  {
  }

  lemma RouteStep(envelopes: seq<Envelope>, id: nat)
    requires Parented(envelopes)
    ensures RouteOf(envelopes, id)
         == if id == 0 || id > |envelopes| then []
            else (if envelopes[id - 1].parent.Some? then RouteOf(envelopes, envelopes[id - 1].parent.value) else [])
                 + [envelopes[id - 1]]
  {
  }

  lemma {:induction false} FindIssued(envelopes: seq<Envelope>, first: nat, id: nat)
    requires forall i :: 0 <= i < |envelopes| ==> envelopes[i].id == first + i
    ensures FindEnvelope(envelopes, id)
         == if first <= id < first + |envelopes| then Some(envelopes[id - first]) else None
  {
    if envelopes != [] && envelopes[0].id != id { FindIssued(envelopes[1..], first + 1, id); }
  }

  lemma FindNumbered(envelopes: seq<Envelope>, id: nat)
    requires Parented(envelopes)
    ensures FindEnvelope(envelopes, id) == if 1 <= id <= |envelopes| then Some(envelopes[id - 1]) else None
  {
    FindIssued(envelopes, 1, id);
  }

  lemma {:induction false} ClimbParented(envelopes: seq<Envelope>, id: nat, k: nat)
    requires Parented(envelopes) && k > id
    ensures Climb(envelopes, Some(id), k).None?
    ensures Reversed(Climbed(envelopes, Some(id), k)) == RouteOf(envelopes, id)
    decreases id
  {
    hide FindEnvelope, Parented, Climb, Climbed, RouteOf, Reversed;
    FindNumbered(envelopes, id);
    RouteStep(envelopes, id);
    ClimbStep(envelopes, id, k);
    NothingReversed();
    var found := FindEnvelope(envelopes, id);
    if found.Some? {
      var e := found.value;
      ParentBelow(envelopes, id);
      if e.parent.Some? { ClimbParented(envelopes, e.parent.value, k - 1); } else { ClimbNowhere(envelopes, k - 1); }
      ReversedCons(e, Climbed(envelopes, e.parent, k - 1));
      assert [] + [e] == [e];
    } else {
      ClimbNowhere(envelopes, k - 1);
    }
  }

  lemma ClimbNowhere(envelopes: seq<Envelope>, k: nat)
    ensures Climb(envelopes, None, k).None? && Climbed(envelopes, None, k) == []
  {
  }

  /** One turn of the cursor. */
  lemma ClimbStep(envelopes: seq<Envelope>, id: nat, k: nat)
    requires k > 0
    ensures var found := FindEnvelope(envelopes, id);
            match found
            case Some(e) =>
              && Climb(envelopes, Some(id), k) == Climb(envelopes, e.parent, k - 1)
              && Climbed(envelopes, Some(id), k) == [e] + Climbed(envelopes, e.parent, k - 1)
            case None =>
              && Climb(envelopes, Some(id), k) == Climb(envelopes, None, k - 1)
              && Climbed(envelopes, Some(id), k) == []
  {
    hide FindEnvelope;
  }

  lemma ParentBelow(envelopes: seq<Envelope>, id: nat)
    requires Parented(envelopes) && 1 <= id <= |envelopes|
    ensures envelopes[id - 1].parent.Some? ==> envelopes[id - 1].parent.value < id
  {
  }

  lemma ReversedCons(e: Envelope, rest: seq<Envelope>)
    ensures Reversed([e] + rest) == Reversed(rest) + [e]
  {
    assert ([e] + rest)[1..] == rest;
  }

  /** Where parents are none, 0 or issued before, every route ends, and is the route from the first ancestor. */
  lemma RouteParented(envelopes: seq<Envelope>, id: nat)
    requires Parented(envelopes)
    ensures RouteEnds(envelopes, id) && RouteTo(envelopes, id) == RouteOf(envelopes, id)
  {
    hide RouteOf, Climb, Climbed, Reversed, Parented;
    ClimbParented(envelopes, id, id + 1);
    var k: nat :| Climb(envelopes, Some(id), k).None?
                  && RouteTo(envelopes, id) == Reversed(Climbed(envelopes, Some(id), k));
    ClimbedSame(envelopes, Some(id), k, id + 1);
  }

  /** Marking changes the first thread with the id, if there is one. */
  lemma {:induction false} MarkedFirst(threads: seq<Thread>, i: nat, own: nat, id: nat, d: Draft)
    requires i <= |threads| && forall k :: 0 <= k < i ==> threads[k].id != own
    requires i < |threads| ==> threads[i].id == own
    ensures MarkedIn(threads, own, id, d)
         == if i == |threads| then threads else threads[..i] + [Marked(threads[i], id, d)] + threads[i + 1..]
  {
    hide Marked;
    if i > 0 {
      var tail := threads[1..];
      forall k | 0 <= k < i - 1 ensures tail[k].id != own { assert tail[k] == threads[k + 1]; }
      MarkedFirst(tail, i - 1, own, id, d);
      assert threads == [threads[0]] + tail && [threads[0]] + tail[..i - 1] == threads[..i];
      if i < |threads| { assert tail[i..] == threads[i + 1..]; }
    }
  }

  predicate IsMeeting(m: Intersection, node: string, threads: seq<nat>) {
    m.node == node && m.threads == threads
  }

  /** Joining changes the first meeting of these threads at the node, or adds one. */
  lemma {:induction false} JoinedAt(all: seq<Intersection>, i: nat, node: string, threads: seq<nat>, transfer: Transfer)
    requires i <= |all| && forall k :: 0 <= k < i ==> !IsMeeting(all[k], node, threads)
    requires i < |all| ==> IsMeeting(all[i], node, threads)
    ensures Joined(all, node, threads, transfer)
         == if i == |all| then all + [Intersection(node, threads, transfer)]
            else all[..i] + [if transfer.Backpressure? then all[i].(transfer := transfer) else all[i]] + all[i + 1..]
  {
    if i == 0 {
    } else {
      var tail := all[1..];
      assert !IsMeeting(all[0], node, threads);
      forall k | 0 <= k < i - 1 ensures !IsMeeting(tail[k], node, threads) { assert tail[k] == all[k + 1]; }
      JoinedAt(tail, i - 1, node, threads, transfer);
      assert [all[0]] + tail[..i - 1] == all[..i];
      if i < |all| { assert tail[i..] == all[i + 1..]; }
    }
  }

  class SpiderwebBus {
    var nextId: nat
    var nextThread: nat
    var envelopes: seq<Envelope>
    var threads: seq<Thread>
    var intersections: seq<Intersection>
    var preloads: seq<Preload>
    var backpressure: seq<Signal>

    constructor ()
      ensures State() == Fabric(1, 1, [], [], [], [], [])
    {
      nextId, nextThread := 1, 1;
      envelopes, threads, intersections, preloads, backpressure := [], [], [], [], [];
    }

    function State(): Fabric
      reads this
    {
      Fabric(nextId, nextThread, envelopes, threads, intersections, preloads, backpressure)
    }

    /** `route_for`: parents are followed up, then the list is turned around. It ends exactly if the ancestors do. */
    method RouteFor(id: nat) returns (route: seq<Envelope>)
      requires RouteEnds(envelopes, id)
      ensures route == RouteTo(envelopes, id)
    {
      hide FindEnvelope, Reversed, RouteEnds;
      ghost var turns := TurnsOf(envelopes, id);
      ghost var left := turns;
      route := [];
      var cursor: Option<nat> := Some(id);
      while cursor.Some?
        invariant Climb(envelopes, cursor, left).None?
        invariant Climbed(envelopes, Some(id), turns) == route + Climbed(envelopes, cursor, left)
        decreases left
      {
        var env := FindEnvelope(envelopes, cursor.value);
        if env.None? { break; }
        route := route + [env.value];
        cursor := env.value.parent;
        left := left - 1;
      }
      assert route + [] == route;
      route := Reversed(route);
    }

    /** After how many turns the route is complete. */
    lemma TurnsOf(envelopes: seq<Envelope>, id: nat) returns (turns: nat)
      requires RouteEnds(envelopes, id)
      ensures Climb(envelopes, Some(id), turns).None?
      ensures RouteTo(envelopes, id) == Reversed(Climbed(envelopes, Some(id), turns))
    {
      hide Climb, Climbed, Reversed;
      turns :| Climb(envelopes, Some(id), turns).None?
               && RouteTo(envelopes, id) == Reversed(Climbed(envelopes, Some(id), turns));
    }

    /** `emit` */
    method Emit(d: Draft) returns (id: nat)
      modifies this
      ensures State() == Emitted(old(State()), d) && id == old(nextId)
    {
      id := nextId;
      nextId := nextId + 1;
      var own := ThreadFor(envelopes, d.parent);
      if own.None? {
        var created := CreateThread();
        own := Some(created);
      }
      envelopes := envelopes + [Envelope(id, d.parent, own.value, d.layer, d.ramp, d.kind, d.source, d.target, d.body,
                                         d.evidence)];
      RecordFabric(id, own.value, d);
    }

    method CreateThread() returns (id: nat)
      modifies this`nextThread, this`threads
      ensures id == old(nextThread) && nextThread == id + 1 && threads == old(threads) + [Thread(id, [], [], [])]
    {
      id := nextThread;
      nextThread := nextThread + 1;
      threads := threads + [Thread(id, [], [], [])];
    }

    method RecordFabric(id: nat, own: nat, d: Draft)
      modifies this`threads, this`intersections, this`preloads, this`backpressure
      ensures State() == Recorded(old(State()), id, own, d)
    {
      var crossing: seq<nat> := [];
      for i := 0 to |threads|
        invariant threads == old(threads) && State() == old(State())
        invariant crossing == Crossing(threads[..i], own, d)
      {
        assert threads[..i + 1][..i] == threads[..i];
        if threads[i].id != own && (d.source in threads[i].nodes || d.target in threads[i].nodes) {
          crossing := WithUnique(crossing, threads[i].id);
        }
      }
      assert threads[..|threads|] == threads;
      MarkThread(id, own, d);
      AddIntersection(d.source, crossing, own, TransferFor(d.kind));
      AddIntersection(d.target, crossing, own, TransferFor(d.kind));
      if d.layer.L2Flow? || d.layer.L3Orchestration? {
        preloads := preloads + [Preload(own, id, if d.evidence == [] then [d.target] else d.evidence)];
      }
      if IsBlocking(d.kind) { backpressure := backpressure + [Signal(own, id, d.layer, d.source, d.body)]; }
    }

    /** The first thread with the id gets the envelope, its layer and its ends. */
    method MarkThread(id: nat, own: nat, d: Draft)
      modifies this`threads
      ensures threads == MarkedIn(old(threads), own, id, d)
    {
      hide Marked, MarkedIn;
      var i := 0;
      while i < |threads| && threads[i].id != own
        invariant 0 <= i <= |threads| && threads == old(threads)
        invariant forall k :: 0 <= k < i ==> threads[k].id != own
      {
        i := i + 1;
      }
      MarkedFirst(threads, i, own, id, d);
      if i < |threads| { threads := threads[..i] + [Marked(threads[i], id, d)] + threads[i + 1..]; }
    }

    method AddIntersection(node: string, crossing: seq<nat>, own: nat, transfer: Transfer)
      modifies this`intersections
      ensures intersections == Met(old(intersections), node, crossing, own, transfer)
    {
      hide Sorted, Deduped;
      var met := WithUnique(crossing, own);
      if |met| <= 1 { return; }
      var joining := Deduped(Sorted(met));
      var i := 0;
      while i < |intersections| && !IsMeeting(intersections[i], node, joining)
        invariant 0 <= i <= |intersections| && intersections == old(intersections)
        invariant forall k :: 0 <= k < i ==> !IsMeeting(intersections[k], node, joining)
      {
        i := i + 1;
      }
      JoinedAt(intersections, i, node, joining, transfer);
      if i < |intersections| {
        var there := intersections[i];
        if transfer.Backpressure? { there := there.(transfer := transfer); }
        intersections := intersections[..i] + [there] + intersections[i + 1..];
      } else {
        intersections := intersections + [Intersection(node, joining, transfer)];
      }
    }
  }
}
