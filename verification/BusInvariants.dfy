/** What every emission keeps, when parents are none, 0 or issued: threads partition the envelopes, threads that
    share a node meet at it, and every route is a rising chain of parents within one thread. */
module BusInvariants {
  import opened Text
  import opened Bus

  /** The ids of a thread's envelopes, in order of emission. */
  function IdsIn(envelopes: seq<Envelope>, thread: nat): seq<nat> {
    if envelopes == [] then []
    else
      var last := envelopes[|envelopes| - 1];
      IdsIn(envelopes[..|envelopes| - 1], thread) + (if last.thread == thread then [last.id] else [])
  }

  /** An envelope of the thread starts or ends at the node. */
  ghost predicate Visits(envelopes: seq<Envelope>, thread: nat, node: string) {
    exists i :: 0 <= i < |envelopes| && VisitedBy(envelopes[i], thread, node)
  }

  predicate VisitedBy(e: Envelope, thread: nat, node: string) {
    e.thread == thread && (e.source == node || e.target == node)
  }

  ghost predicate MeetAt(all: seq<Intersection>, node: string, a: nat, b: nat) {
    exists k :: 0 <= k < |all| && all[k].node == node && a in all[k].threads && b in all[k].threads
  }

  ghost predicate Numbered(f: Fabric) {
    && f.nextId == |f.envelopes| + 1 && f.nextThread == |f.threads| + 1
    && Parented(f.envelopes)
    && (forall j :: 0 <= j < |f.threads| ==> f.threads[j].id == j + 1)
  }

  /** An envelope is in the thread of its parent. */
  ghost predicate InThreads(f: Fabric)
    requires Numbered(f)
  {
    && (forall i :: 0 <= i < |f.envelopes| ==> 1 <= f.envelopes[i].thread <= |f.threads|)
    && (forall i :: 0 <= i < |f.envelopes| && f.envelopes[i].parent.Some? && f.envelopes[i].parent.value > 0 ==>
          f.envelopes[f.envelopes[i].parent.value - 1].thread == f.envelopes[i].thread)
  }

  /** The threads partition the envelopes: thread `t` lists exactly those of thread `t`, in order. */
  ghost predicate Partitioned(f: Fabric) {
    forall j :: 0 <= j < |f.threads| ==> f.threads[j].envelopes == IdsIn(f.envelopes, j + 1)
  }

  /** A thread's nodes are the ends of its envelopes. */
  ghost predicate NodesKnown(f: Fabric) {
    forall j, node :: 0 <= j < |f.threads| ==> (node in f.threads[j].nodes <==> Visits(f.envelopes, j + 1, node))
  }

  /** Two threads that share a node have an intersection at it that names both. */
  ghost predicate AllMet(f: Fabric) {
    forall a, b, node ::
      && 0 <= a < |f.threads| && 0 <= b < |f.threads| && a != b
      && node in f.threads[a].nodes && node in f.threads[b].nodes ==>
        MeetAt(f.intersections, node, a + 1, b + 1)
  }

  ghost predicate Well(f: Fabric) {
    Numbered(f) && InThreads(f) && Partitioned(f) && NodesKnown(f) && AllMet(f)
  }

  /** None, 0, or an id this bus has issued. */
  predicate GoodParent(f: Fabric, parent: Option<nat>) {
    parent.Some? ==> parent.value < f.nextId
  }

  lemma WellNumbered(f: Fabric)
    requires Well(f)
    ensures f.nextId == |f.envelopes| + 1 && Parented(f.envelopes)
  {
  }

  lemma EmptyIsWell()
    ensures Well(Fabric(1, 1, [], [], [], [], []))
  {
  }

  // ---- the thread of an emission ----

  lemma OwnThreadIs(f: Fabric, parent: Option<nat>)
    requires Numbered(f) && InThreads(f) && GoodParent(f, parent)
    ensures ThreadFor(f.envelopes, parent)
         == if parent.Some? && parent.value > 0 then Some(f.envelopes[parent.value - 1].thread) else None
    ensures 1 <= OwnThread(f, parent) <= |Opened(f, parent).threads|
  {
    if parent.Some? { FindIssued(f.envelopes, 1, parent.value); }
  }

  lemma {:induction false} MarkedAt(threads: seq<Thread>, first: nat, own: nat, id: nat, d: Draft)
    requires forall j :: 0 <= j < |threads| ==> threads[j].id == first + j
    ensures forall j :: 0 <= j < |threads| ==>
              MarkedIn(threads, own, id, d)[j] == if first + j == own then Marked(threads[j], id, d) else threads[j]
  {
    hide Marked;
    if threads != [] && threads[0].id != own {
      var tail := threads[1..];
      forall j | 0 <= j < |tail| ensures tail[j].id == first + 1 + j { assert tail[j] == threads[j + 1]; }
      MarkedAt(tail, first + 1, own, id, d);
      forall j | 0 <= j < |threads|
        ensures MarkedIn(threads, own, id, d)[j] == if first + j == own then Marked(threads[j], id, d) else threads[j]
      {
        if j > 0 { assert MarkedIn(threads, own, id, d)[j] == MarkedIn(tail, own, id, d)[j - 1]; }
      }
    }
  }

  /** The threads after an emission: one more if the parent had none, and the own one marked. */
  lemma EmittedThreads(f: Fabric, d: Draft)
    requires Numbered(f) && InThreads(f) && GoodParent(f, d.parent)
    ensures var own, open := OwnThread(f, d.parent), Opened(f, d.parent);
            && Emitted(f, d).threads == MarkedIn(open.threads, own, f.nextId, d)
            && |Emitted(f, d).threads| == |open.threads|
            && (forall j :: 0 <= j < |open.threads| ==> open.threads[j].id == j + 1)
            && (forall j :: 0 <= j < |open.threads| ==>
                  Emitted(f, d).threads[j]
                  == if j + 1 == own then Marked(open.threads[j], f.nextId, d) else open.threads[j])
  {
    hide Marked, Met, Crossing;
    OwnThreadIs(f, d.parent);
    MarkedAt(Opened(f, d.parent).threads, 1, OwnThread(f, d.parent), f.nextId, d);
  }

  lemma EmittedNumbered(f: Fabric, d: Draft)
    requires Well(f) && GoodParent(f, d.parent)
    ensures Numbered(Emitted(f, d)) && InThreads(Emitted(f, d))
  {
    hide Met, Crossing, MarkedIn, Partitioned, NodesKnown, AllMet;
    EmittedThreads(f, d);
    OwnThreadIs(f, d.parent);
  }

  lemma IdsMore(envelopes: seq<Envelope>, e: Envelope, thread: nat)
    ensures IdsIn(envelopes + [e], thread) == IdsIn(envelopes, thread) + (if e.thread == thread then [e.id] else [])
  {
    assert (envelopes + [e])[..|envelopes|] == envelopes;
  }

  lemma {:induction false} NoIds(envelopes: seq<Envelope>, thread: nat)
    requires forall i :: 0 <= i < |envelopes| ==> envelopes[i].thread != thread
    ensures IdsIn(envelopes, thread) == []
  {
    if envelopes != [] { NoIds(envelopes[..|envelopes| - 1], thread); }
  }

  /** A thread before it is marked, the new one being empty. */
  lemma OpenedThread(f: Fabric, parent: Option<nat>, j: nat)
    requires Well(f) && j < |Opened(f, parent).threads|
    ensures Opened(f, parent).threads[j].envelopes == IdsIn(f.envelopes, j + 1)
    ensures forall node :: node in Opened(f, parent).threads[j].nodes <==> Visits(f.envelopes, j + 1, node)
  {
    hide IdsIn;
    if j == |f.threads| { NoIds(f.envelopes, j + 1); }
  }

  lemma EmittedPartitioned(f: Fabric, d: Draft)
    requires Well(f) && GoodParent(f, d.parent)
    ensures Partitioned(Emitted(f, d))
  {
    hide IdsIn, Met, Crossing, MarkedIn, NodesKnown, AllMet;
    EmittedThreads(f, d);
    var e := EnvelopeFor(f, d);
    forall j | 0 <= j < |Emitted(f, d).threads|
      ensures Emitted(f, d).threads[j].envelopes == IdsIn(Emitted(f, d).envelopes, j + 1)
    {
      OpenedThread(f, d.parent, j);
      IdsMore(f.envelopes, e, j + 1);
      assert IdsIn(f.envelopes, j + 1) + [] == IdsIn(f.envelopes, j + 1);
    }
  }

  lemma VisitsMore(envelopes: seq<Envelope>, e: Envelope, thread: nat, node: string)
    ensures Visits(envelopes + [e], thread, node) <==> Visits(envelopes, thread, node) || VisitedBy(e, thread, node)
  {
    var all := envelopes + [e];
    assert all[|envelopes|] == e;
    if Visits(envelopes, thread, node) {
      var i :| 0 <= i < |envelopes| && VisitedBy(envelopes[i], thread, node);
      assert all[i] == envelopes[i];
    }
  }

  /** The nodes of a thread after an emission. */
  lemma EmittedNodes(f: Fabric, d: Draft, j: nat, node: string)
    requires Well(f) && GoodParent(f, d.parent) && j < |Emitted(f, d).threads|
    ensures node in Emitted(f, d).threads[j].nodes
       <==> || Visits(f.envelopes, j + 1, node)
            || (j + 1 == OwnThread(f, d.parent) && (node == d.source || node == d.target))
  {
    hide IdsIn, Met, Crossing, MarkedIn, AllMet, Visits, Partitioned;
    EmittedThreads(f, d);
    OpenedThread(f, d.parent, j);
  }

  lemma EmittedKnown(f: Fabric, d: Draft)
    requires Well(f) && GoodParent(f, d.parent)
    ensures NodesKnown(Emitted(f, d))
  {
    hide Met, Crossing, MarkedIn, AllMet, Visits, Partitioned, Well;
    var e := EnvelopeFor(f, d);
    forall j, node | 0 <= j < |Emitted(f, d).threads|
      ensures node in Emitted(f, d).threads[j].nodes <==> Visits(Emitted(f, d).envelopes, j + 1, node)
    {
      EmittedNodes(f, d, j, node);
      VisitsMore(f.envelopes, e, j + 1, node);
    }
  }

  // ---- intersections ----

  lemma {:induction false} InsertedMembers(xs: seq<nat>, x: nat)
    ensures forall y :: y in Inserted(xs, x) <==> y in xs || y == x
  {
    if xs != [] && x > xs[0] {
      InsertedMembers(xs[1..], x);
      assert xs == [xs[0]] + xs[1..];
    }
  }

  lemma {:induction false} SortedMembers(xs: seq<nat>)
    ensures forall y :: y in Sorted(xs) <==> y in xs
  {
    if xs != [] {
      SortedMembers(xs[1..]);
      InsertedMembers(Sorted(xs[1..]), xs[0]);
      assert xs == [xs[0]] + xs[1..];
    }
  }

  lemma {:induction false} DedupedMembers(xs: seq<nat>)
    ensures forall y :: y in Deduped(xs) <==> y in xs
  {
    if |xs| > 1 {
      DedupedMembers(xs[1..]);
      assert xs == [xs[0]] + xs[1..];
    }
  }

  lemma {:induction false} CrossingMembers(threads: seq<Thread>, own: nat, d: Draft, k: nat)
    requires k < |threads| && Crosses(threads[k], own, d)
    ensures threads[k].id in Crossing(threads, own, d)
  {
    if k < |threads| - 1 { CrossingMembers(threads[..|threads| - 1], own, d, k); }
  }

  /** No intersection is lost, and the new one is there. */
  lemma {:induction false} JoinedHas(all: seq<Intersection>, node: string, threads: seq<nat>, transfer: Transfer)
    ensures forall n, a, b :: MeetAt(all, n, a, b) ==> MeetAt(Joined(all, node, threads, transfer), n, a, b)
    ensures forall a, b :: a in threads && b in threads ==> MeetAt(Joined(all, node, threads, transfer), node, a, b)
  {
    var after := Joined(all, node, threads, transfer);
    if all == [] {
      assert after[0].node == node && after[0].threads == threads;
    } else if all[0].node == node && all[0].threads == threads {
      assert after[0].node == node && after[0].threads == threads;
      forall n, a, b | MeetAt(all, n, a, b) ensures MeetAt(after, n, a, b) {
        var k :| 0 <= k < |all| && all[k].node == n && a in all[k].threads && b in all[k].threads;
        assert after[k].node == all[k].node && after[k].threads == all[k].threads;
      }
    } else {
      var rest := Joined(all[1..], node, threads, transfer);
      JoinedHas(all[1..], node, threads, transfer);
      forall n, a, b | MeetAt(rest, n, a, b) ensures MeetAt(after, n, a, b) {
        var k :| 0 <= k < |rest| && rest[k].node == n && a in rest[k].threads && b in rest[k].threads;
        assert after[k + 1] == rest[k];
      }
      forall n, a, b | MeetAt(all, n, a, b) ensures MeetAt(after, n, a, b) {
        var k :| 0 <= k < |all| && all[k].node == n && a in all[k].threads && b in all[k].threads;
        if k == 0 {
          assert after[0] == all[0];
        } else {
          assert all[1..][k - 1] == all[k];
          assert MeetAt(all[1..], n, a, b);
        }
      }
    }
  }

  /** Meeting at a node joins the own thread with every crossing one. */
  lemma MetHas(all: seq<Intersection>, node: string, crossing: seq<nat>, own: nat, transfer: Transfer)
    ensures forall n, a, b :: MeetAt(all, n, a, b) ==> MeetAt(Met(all, node, crossing, own, transfer), n, a, b)
    ensures forall a :: a in crossing && a != own ==>
              MeetAt(Met(all, node, crossing, own, transfer), node, a, own)
              && MeetAt(Met(all, node, crossing, own, transfer), node, own, a)
  {
    hide MeetAt, Joined, Sorted, Deduped;
    var threads := WithUnique(crossing, own);
    SortedMembers(threads);
    DedupedMembers(Sorted(threads));
    JoinedHas(all, node, Deduped(Sorted(threads)), transfer);
    forall a | a in crossing && a != own ensures |threads| > 1 {
      assert own in threads && a in threads;
      Two(threads, a, own);
    }
  }

  lemma Two(xs: seq<nat>, a: nat, b: nat)
    requires a in xs && b in xs && a != b
    ensures |xs| > 1
  {
    var i :| 0 <= i < |xs| && xs[i] == a;
    var j :| 0 <= j < |xs| && xs[j] == b;
    assert i != j;
  }

  /** The meetings after an emission: the old ones, and the own thread with every crossing one at both ends. */
  lemma EmittedMeetings(f: Fabric, d: Draft, node: string, j: nat)
    requires Well(f) && GoodParent(f, d.parent)
    ensures forall n, a, b :: MeetAt(f.intersections, n, a, b) ==> MeetAt(Emitted(f, d).intersections, n, a, b)
    ensures j < |f.threads| && j + 1 != OwnThread(f, d.parent) && node in f.threads[j].nodes
            && (node == d.source || node == d.target) ==>
              MeetAt(Emitted(f, d).intersections, node, j + 1, OwnThread(f, d.parent))
              && MeetAt(Emitted(f, d).intersections, node, OwnThread(f, d.parent), j + 1)
  {
    hide MeetAt, Met, Crossing, MarkedIn, Visits, Partitioned, AllMet, NodesKnown;
    var own := OwnThread(f, d.parent);
    var threads := Opened(f, d.parent).threads;
    var crossing := Crossing(threads, own, d);
    var transfer := TransferFor(d.kind);
    var first := Met(f.intersections, d.source, crossing, own, transfer);
    MetHas(f.intersections, d.source, crossing, own, transfer);
    MetHas(first, d.target, crossing, own, transfer);
    if j < |f.threads| && j + 1 != own && node in f.threads[j].nodes && (node == d.source || node == d.target) {
      assert threads[j] == f.threads[j];
      CrossingMembers(threads, own, d, j);
    }
  }

  lemma EmittedMet(f: Fabric, d: Draft)
    requires Well(f) && GoodParent(f, d.parent)
    ensures AllMet(Emitted(f, d))
  {
    hide MeetAt, Visits, Partitioned, Emitted, OwnThread;
    forall a, b, node | 0 <= a < |Emitted(f, d).threads| && 0 <= b < |Emitted(f, d).threads| && a != b
      && node in Emitted(f, d).threads[a].nodes && node in Emitted(f, d).threads[b].nodes
      ensures MeetAt(Emitted(f, d).intersections, node, a + 1, b + 1)
    {
      EmittedNodes(f, d, a, node);
      EmittedNodes(f, d, b, node);
      VisitsOnly(f, a + 1, node);
      VisitsOnly(f, b + 1, node);
      EmittedMeetings(f, d, node, a);
      EmittedMeetings(f, d, node, b);
    }
  }

  /** Whoever visits a node is a thread that lists it. */
  lemma VisitsOnly(f: Fabric, thread: nat, node: string)
    requires Well(f) && thread > 0
    ensures Visits(f.envelopes, thread, node) <==> thread <= |f.threads| && node in f.threads[thread - 1].nodes
  {
    hide Partitioned, AllMet;
    if Visits(f.envelopes, thread, node) {
      var i :| 0 <= i < |f.envelopes| && VisitedBy(f.envelopes[i], thread, node);
      assert f.envelopes[i].thread <= |f.threads|;
    }
    if thread <= |f.threads| {
      var j := thread - 1;
      assert node in f.threads[j].nodes <==> Visits(f.envelopes, j + 1, node);
    }
  }

  /** Every emission with a good parent keeps the fabric well. */
  lemma EmittedWell(f: Fabric, d: Draft)
    requires Well(f) && GoodParent(f, d.parent)
    ensures Well(Emitted(f, d)) && Emitted(f, d).envelopes == f.envelopes + [EnvelopeFor(f, d)]
    ensures Emitted(f, d).nextId == f.nextId + 1
  {
    EmittedNumbered(f, d);
    EmittedPartitioned(f, d);
    EmittedKnown(f, d);
    EmittedMet(f, d);
  }

  // ---- routes ----

  lemma {:induction false} RouteKept(envelopes: seq<Envelope>, more: seq<Envelope>, id: nat)
    requires Parented(envelopes) && Parented(envelopes + more) && id <= |envelopes|
    ensures RouteOf(envelopes + more, id) == RouteOf(envelopes, id)
    decreases id
  {
    if id > 0 {
      var e := envelopes[id - 1];
      assert (envelopes + more)[id - 1] == e;
      if e.parent.Some? { RouteKept(envelopes, more, e.parent.value); }
    }
  }

  /** A route ends in its envelope; each step is to a child, in the same thread, with a greater id; and it starts
      at an envelope without a parent. */
  ghost predicate IsRoute(route: seq<Envelope>, id: nat) {
    && route != [] && route[|route| - 1].id == id
    && (route[0].parent.None? || route[0].parent == Some(0))
    && (forall i :: 0 < i < |route| ==> Follows(route[i - 1], route[i]))
  }

  predicate Follows(e: Envelope, child: Envelope) {
    child.parent == Some(e.id) && e.id < child.id && e.thread == child.thread
  }

  lemma {:induction false} RouteIsRoute(f: Fabric, id: nat)
    requires Well(f) && 1 <= id <= |f.envelopes|
    ensures IsRoute(RouteOf(f.envelopes, id), id)
    decreases id
  {
    hide Partitioned, NodesKnown, AllMet;
    var e := f.envelopes[id - 1];
    if e.parent.Some? && e.parent.value > 0 {
      var p := e.parent.value;
      RouteIsRoute(f, p);
      var front := RouteOf(f.envelopes, p);
      assert front[|front| - 1] == f.envelopes[p - 1] by {
        assert RouteOf(f.envelopes, p)[|front| - 1] == f.envelopes[p - 1];
      }
      var route := front + [e];
      forall i | 0 < i < |route| ensures Follows(route[i - 1], route[i]) {
        if i < |front| { assert Follows(front[i - 1], front[i]); }
      }
    }
  }

  /** The whole route lies in one thread. */
  lemma {:induction false} RouteOneThread(route: seq<Envelope>, id: nat, i: nat)
    requires IsRoute(route, id) && i < |route|
    ensures route[i].thread == route[0].thread
  {
    if i > 0 {
      RouteOneThread(route, id, i - 1);
      assert Follows(route[i - 1], route[i]);
    }
  }

  /** A new envelope's route is its parent's, and itself. */
  lemma EmittedRoute(f: Fabric, d: Draft)
    requires Well(f) && GoodParent(f, d.parent)
    ensures Well(Emitted(f, d))
    ensures RouteOf(Emitted(f, d).envelopes, f.nextId)
         == (if d.parent.Some? then RouteOf(f.envelopes, d.parent.value) else []) + [EnvelopeFor(f, d)]
    ensures forall id: nat :: id < f.nextId ==> RouteOf(Emitted(f, d).envelopes, id) == RouteOf(f.envelopes, id)
  {
    hide Emitted, Partitioned, NodesKnown, AllMet;
    EmittedWell(f, d);
    forall id: nat | id < f.nextId ensures RouteOf(Emitted(f, d).envelopes, id) == RouteOf(f.envelopes, id) {
      RouteKept(f.envelopes, [EnvelopeFor(f, d)], id);
    }
  }

  // ---- bad parents ----

  /** Looking up any envelope's route ends, and gives a route. */
  ghost predicate AllRoutes(envelopes: seq<Envelope>) {
    forall id :: 1 <= id <= |envelopes| ==> RouteEnds(envelopes, id) && IsRoute(RouteTo(envelopes, id), id)
  }

  lemma WellRoutes(f: Fabric)
    requires Well(f)
    ensures AllRoutes(f.envelopes)
  {
    hide IsRoute, RouteEnds, RouteTo, InThreads, Partitioned, NodesKnown, AllMet;
    forall id | 1 <= id <= |f.envelopes|
      ensures RouteEnds(f.envelopes, id) && IsRoute(RouteTo(f.envelopes, id), id)
    {
      RouteIsRoute(f, id);
      RouteParented(f.envelopes, id);
    }
  }

  /** A parent at or above an envelope's own id leaves the envelope without a route: it is the child of an envelope
      that is not there, or of one that is not older, or the lookup does not end. */
  lemma SpoiledRoute(envelopes: seq<Envelope>, id: nat)
    requires forall i :: 0 <= i < |envelopes| ==> envelopes[i].id == i + 1
    requires 1 <= id <= |envelopes| && envelopes[id - 1].parent.Some? && envelopes[id - 1].parent.value >= id
    requires RouteEnds(envelopes, id)
    ensures !IsRoute(RouteTo(envelopes, id), id)
  {
    hide FindEnvelope, Climb, Climbed, Reversed;
    var k: nat :| Climb(envelopes, Some(id), k).None?
                  && RouteTo(envelopes, id) == Reversed(Climbed(envelopes, Some(id), k));
    var e := envelopes[id - 1];
    var p := e.parent.value;
    FindIssued(envelopes, 1, id);
    FindIssued(envelopes, 1, p);
    ClimbGoesOn(envelopes, id, k);
    ClimbStep(envelopes, id, k);
    var rest := Climbed(envelopes, Some(p), k - 1);
    ReversedCons(e, rest);
    ClimbGoesOn(envelopes, p, k - 1);
    ClimbStep(envelopes, p, k - 1);
    NothingReversed();
    var route := Reversed(rest) + [e];
    if p <= |envelopes| {
      var q := envelopes[p - 1];
      ReversedCons(q, Climbed(envelopes, q.parent, k - 2));
      assert route[|route| - 2] == q && !Follows(q, e);
    } else {
      assert route[0] == e;
    }
  }

  /** A lookup that has ended has taken a turn. */
  lemma ClimbGoesOn(envelopes: seq<Envelope>, id: nat, k: nat)
    requires Climb(envelopes, Some(id), k).None?
    ensures k > 0
  {
  }

  /** A good parent is exactly what an emission needs to keep the fabric well, and to keep every route a route. */
  lemma EmittedExactly(f: Fabric, d: Draft)
    requires Well(f)
    ensures Well(Emitted(f, d)) <==> GoodParent(f, d.parent)
    ensures AllRoutes(Emitted(f, d).envelopes) <==> GoodParent(f, d.parent)
  {
    hide Emitted, InThreads, Partitioned, NodesKnown, AllMet, IsRoute, RouteEnds, RouteTo;
    if GoodParent(f, d.parent) {
      EmittedWell(f, d);
      WellRoutes(Emitted(f, d));
    } else {
      EmittedFound(f, d, 0);
      assert Emitted(f, d).envelopes[|f.envelopes|] == EnvelopeFor(f, d);
      if RouteEnds(Emitted(f, d).envelopes, f.nextId) { SpoiledRoute(Emitted(f, d).envelopes, f.nextId); }
    }
  }

  lemma {:induction false} NoWayOut(envelopes: seq<Envelope>, a: nat, b: nat, k: nat)
    requires Ancestor(envelopes, a) == Some(b) && Ancestor(envelopes, b) == Some(a)
    ensures Climb(envelopes, Some(a), k).Some? && Climb(envelopes, Some(b), k).Some?
  {
    if k > 0 { NoWayOut(envelopes, a, b, k - 1); }
  }

  lemma NeverEnds(envelopes: seq<Envelope>, a: nat, b: nat)
    requires Ancestor(envelopes, a) == Some(b) && Ancestor(envelopes, b) == Some(a)
    ensures !RouteEnds(envelopes, a) && !RouteEnds(envelopes, b)
  {
    forall k: nat ensures Climb(envelopes, Some(a), k).Some? && Climb(envelopes, Some(b), k).Some? {
      NoWayOut(envelopes, a, b, k);
    }
  }

  /** The lookup stands at the same id after `j` turns and again after `k`. */
  ghost predicate Returns(envelopes: seq<Envelope>, id: nat, j: nat, k: nat) {
    j < k && Climb(envelopes, Some(id), j).Some? && Climb(envelopes, Some(id), j) == Climb(envelopes, Some(id), k)
  }

  /** Whatever the envelopes are, a lookup goes on forever exactly if it comes to some id a second time; and one that
      ends takes at most one turn more than there are envelopes. */
  lemma EndlessExactly(envelopes: seq<Envelope>, id: nat)
    ensures !RouteEnds(envelopes, id) <==> exists j, k :: Returns(envelopes, id, j, k)
    ensures RouteEnds(envelopes, id) <==> Climb(envelopes, Some(id), |envelopes| + 1).None?
  {
    hide Climb, FindEnvelope;
    if j, k :| Returns(envelopes, id, j, k) {
      forall n: nat ensures Climb(envelopes, Some(id), n).Some? { Circling(envelopes, id, j, k, n); }
    } else if Climb(envelopes, Some(id), |envelopes| + 1).Some? {
      Crowded(envelopes, id);
    }
  }

  lemma {:induction false} ClimbJoin(envelopes: seq<Envelope>, cursor: Option<nat>, j: nat, k: nat)
    ensures Climb(envelopes, cursor, j + k) == Climb(envelopes, Climb(envelopes, cursor, j), k)
    decreases j
  {
    hide Ancestor;
    if j > 0 && cursor.Some? { ClimbJoin(envelopes, Ancestor(envelopes, cursor.value), j - 1, k); }
  }

  /** A lookup that comes back never ends. */
  lemma {:induction false} Circling(envelopes: seq<Envelope>, id: nat, j: nat, k: nat, n: nat)
    requires Returns(envelopes, id, j, k)
    ensures Climb(envelopes, Some(id), n).Some?
    decreases n
  {
    hide Climb;
    if n > k {
      assert k - j > 0;
      Circling(envelopes, id, j, k, n - (k - j));
      ClimbJoin(envelopes, Some(id), k, n - k);
      ClimbJoin(envelopes, Some(id), j, n - k);
    } else if Climb(envelopes, Some(id), n).None? {
      ClimbJoin(envelopes, Some(id), n, k - n);
      EndedStays(envelopes, k - n);
    }
  }

  lemma EndedStays(envelopes: seq<Envelope>, k: nat)
    ensures Climb(envelopes, None, k).None?
  {
  }

  /** A lookup that goes on for more turns than there are envelopes has come to some id twice. */
  lemma Crowded(envelopes: seq<Envelope>, id: nat)
    requires Climb(envelopes, Some(id), |envelopes| + 1).Some?
    ensures exists j, k :: Returns(envelopes, id, j, k)
  {
    hide Climb, FindEnvelope;
    var n := |envelopes| + 1;
    forall k | 0 <= k < n
      ensures Climb(envelopes, Some(id), k).Some? && StandsAt(envelopes, id, k) in IdsOf(envelopes)
    {
      StillClimbing(envelopes, id, k, n);
    }
    var stands := seq(n, k requires 0 <= k < n => StandsAt(envelopes, id, k));
    if forall j, k :: 0 <= j < k < n ==> stands[j] != stands[k] {
      AllApart(stands);
      assert Members(stands) <= IdsOf(envelopes);
      Subset(Members(stands), IdsOf(envelopes));
      FewIds(envelopes);
      assert false;
    }
    var j, k :| 0 <= j < k < n && stands[j] == stands[k];
    assert Returns(envelopes, id, j, k);
  }

  function StandsAt(envelopes: seq<Envelope>, id: nat, k: nat): nat {
    var cursor := Climb(envelopes, Some(id), k);
    if cursor.Some? then cursor.value else 0
  }

  function IdsOf(envelopes: seq<Envelope>): set<nat> {
    set e | e in envelopes :: e.id
  }

  lemma StillClimbing(envelopes: seq<Envelope>, id: nat, k: nat, n: nat)
    requires k < n && Climb(envelopes, Some(id), n).Some?
    ensures Climb(envelopes, Some(id), k).Some? && StandsAt(envelopes, id, k) in IdsOf(envelopes)
  {
    ClimbJoin(envelopes, Some(id), k, n - k);
    var x := StandsAt(envelopes, id, k);
    if FindEnvelope(envelopes, x).None? {
      EndedStays(envelopes, n - k - 1);
    } else {
      FoundIsThere(envelopes, x);
    }
  }

  lemma {:induction false} FoundIsThere(envelopes: seq<Envelope>, id: nat)
    requires FindEnvelope(envelopes, id).Some?
    ensures id in IdsOf(envelopes)
  {
    if envelopes[0].id != id { FoundIsThere(envelopes[1..], id); }
  }

  lemma {:induction false} FewIds(envelopes: seq<Envelope>)
    ensures |IdsOf(envelopes)| <= |envelopes|
  {
    if envelopes != [] {
      FewIds(envelopes[1..]);
      assert IdsOf(envelopes) == IdsOf(envelopes[1..]) + {envelopes[0].id};
    }
  }

  function Members(xs: seq<nat>): set<nat> {
    set x | x in xs
  }

  lemma {:induction false} AllApart(xs: seq<nat>)
    requires forall j, k :: 0 <= j < k < |xs| ==> xs[j] != xs[k]
    ensures |Members(xs)| == |xs|
  {
    if xs != [] {
      var front, last := xs[..|xs| - 1], xs[|xs| - 1];
      AllApart(front);
      assert xs == front + [last];
      assert Members(xs) == Members(front) + {last};
      assert last !in Members(front);
    }
  }

  lemma {:induction false} Subset(a: set<nat>, b: set<nat>)
    requires a <= b
    ensures |a| <= |b|
  {
    if x :| x in a { Subset(a - {x}, b - {x}); }
  }

  /** Every envelope, the new one too, is found by its id. */
  lemma EmittedFound(f: Fabric, d: Draft, id: nat)
    requires f.nextId == |f.envelopes| + 1 && forall i :: 0 <= i < |f.envelopes| ==> f.envelopes[i].id == i + 1
    ensures Emitted(f, d).nextId == f.nextId + 1
    ensures Emitted(f, d).envelopes == f.envelopes + [EnvelopeFor(f, d)]
    ensures FindEnvelope(Emitted(f, d).envelopes, id)
         == if 1 <= id <= f.nextId then Some(Emitted(f, d).envelopes[id - 1]) else None
  {
    hide Met, Crossing, MarkedIn;
    var envelopes := Emitted(f, d).envelopes;
    assert envelopes == f.envelopes + [EnvelopeFor(f, d)];
    forall i | 0 <= i < |envelopes| ensures envelopes[i].id == 1 + i { }
    FindIssued(envelopes, 1, id);
  }

  /** Looking up the new envelope's route goes on forever exactly if it names its own id as parent. A parent
      beyond it is not found, and the route starts below. */
  lemma RouteEndsExactly(f: Fabric, d: Draft)
    requires Well(f)
    ensures RouteEnds(Emitted(f, d).envelopes, f.nextId) <==> d.parent != Some(f.nextId)
  {
    hide Emitted, FindEnvelope, InThreads, Partitioned, NodesKnown, AllMet;
    var envelopes := Emitted(f, d).envelopes;
    WellNumbered(f);
    EmittedFound(f, d, f.nextId);
    if d.parent == Some(f.nextId) {
      NeverEnds(envelopes, f.nextId, f.nextId);
    } else if GoodParent(f, d.parent) {
      EmittedWell(f, d);
      RouteParented(envelopes, f.nextId);
    } else {
      EmittedFound(f, d, d.parent.value);
      assert Climb(envelopes, d.parent, 1).None?;
      assert Climb(envelopes, Some(f.nextId), 2) == Climb(envelopes, d.parent, 1);
    }
  }

  /** A parent beyond the next id is harmless until it is issued: the route ends, but if the next envelope then
      names this one as its parent, neither route does. */
  lemma FutureParent(f: Fabric, d: Draft, e: Draft)
    requires Well(f) && d.parent == Some(f.nextId + 1) && e.parent == Some(f.nextId)
    ensures var first := Emitted(f, d);
            var second := Emitted(first, e);
            && RouteEnds(first.envelopes, f.nextId) && RouteEnds(first.envelopes, f.nextId + 1)
            && !RouteEnds(second.envelopes, f.nextId) && !RouteEnds(second.envelopes, f.nextId + 1)
  {
    hide Emitted, FindEnvelope, InThreads, Partitioned, NodesKnown, AllMet;
    var first := Emitted(f, d);
    var second := Emitted(first, e);
    WellNumbered(f);
    RouteEndsExactly(f, d);
    EmittedFound(f, d, f.nextId + 1);
    EndsAt(first.envelopes, f.nextId + 1, 1);
    EmittedFound(first, e, f.nextId);
    EmittedFound(first, e, f.nextId + 1);
    assert second.envelopes[f.nextId - 1] == EnvelopeFor(f, d);
    assert second.envelopes[f.nextId] == EnvelopeFor(first, e);
    NeverEnds(second.envelopes, f.nextId, f.nextId + 1);
  }

  lemma EndsAt(envelopes: seq<Envelope>, id: nat, k: nat)
    requires Climb(envelopes, Some(id), k).None?
    ensures RouteEnds(envelopes, id)
  {
  }

  // ---- whole runs ----

  /** A new bus after any emissions. */
  function Carried(drafts: seq<Draft>): Fabric {
    if drafts == [] then Fabric(1, 1, [], [], [], [], [])
    else Emitted(Carried(drafts[..|drafts| - 1]), drafts[|drafts| - 1])
  }

  /** Emission `i` of a run names no parent, 0, or an id issued before it. */
  ghost predicate GoodRun(drafts: seq<Draft>) {
    forall i :: 0 <= i < |drafts| && drafts[i].parent.Some? ==> drafts[i].parent.value <= i
  }

  /** Whatever the parents are, one envelope is kept for each emission, with its parent. */
  lemma {:induction false} CarriedParents(drafts: seq<Draft>)
    ensures var f := Carried(drafts);
            && f.nextId == |drafts| + 1 && |f.envelopes| == |drafts|
            && forall i :: 0 <= i < |drafts| ==> f.envelopes[i].id == i + 1 && f.envelopes[i].parent == drafts[i].parent
  {
    hide Emitted;
    if drafts != [] {
      var front, last := drafts[..|drafts| - 1], drafts[|drafts| - 1];
      CarriedParents(front);
      EmittedFound(Carried(front), last, 0);
      assert forall i :: 0 <= i < |front| ==> drafts[i] == front[i];
    }
  }

  /** The bus is well after a run exactly if every parent of the run was good. */
  lemma {:induction false} RunWell(drafts: seq<Draft>)
    ensures Well(Carried(drafts)) <==> GoodRun(drafts)
  {
    hide Emitted, InThreads, Partitioned, NodesKnown, AllMet;
    CarriedParents(drafts);
    if drafts == [] {
      EmptyIsWell();
    } else if GoodRun(drafts) {
      var front := drafts[..|drafts| - 1];
      assert GoodRun(front) by { assert forall i :: 0 <= i < |front| ==> front[i] == drafts[i]; }
      RunWell(front);
      CarriedParents(front);
      EmittedWell(Carried(front), drafts[|drafts| - 1]);
    }
  }

  /** After any run, every envelope can be looked up and has a route exactly if every parent of the run was good:
      one bad parent anywhere spoils the route of the envelope that names it, whatever is emitted later. */
  lemma RunRoutes(drafts: seq<Draft>)
    ensures AllRoutes(Carried(drafts).envelopes) <==> GoodRun(drafts)
  {
    hide Emitted, Well, IsRoute, RouteEnds, RouteTo, Carried;
    RunWell(drafts);
    CarriedParents(drafts);
    var envelopes := Carried(drafts).envelopes;
    if GoodRun(drafts) {
      WellRoutes(Carried(drafts));
    } else {
      var i :| 0 <= i < |drafts| && drafts[i].parent.Some? && drafts[i].parent.value > i;
      if RouteEnds(envelopes, i + 1) { SpoiledRoute(envelopes, i + 1); }
    }
  }
}
