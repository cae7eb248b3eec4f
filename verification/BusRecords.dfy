/** What a run of emissions leaves on the bus beside threads and routes: envelopes, preloads, backpressure signals, and
    the order and kind of meetings. Whatever the parents are. */
module BusRecords {
  import opened Bus
  import opened BusInvariants

  // ---- envelopes, preloads and signals ----

  /** The envelope is the draft, under the number of its emission. */
  predicate IsSent(e: Envelope, d: Draft, id: nat) {
    && e.id == id && e.parent == d.parent && e.layer == d.layer && e.ramp == d.ramp && e.kind == d.kind
    && e.source == d.source && e.target == d.target && e.body == d.body && e.evidence == d.evidence
  }

  predicate Blocks(e: Envelope) {
    e.kind == ProviderBlocked || e.kind == ProofBlocked || e.kind == StoreBlocked
  }

  /** A signal for every blocking envelope, in order. */
  function SignalsOf(envelopes: seq<Envelope>): seq<Signal> {
    if envelopes == [] then []
    else
      var e := envelopes[|envelopes| - 1];
      SignalsOf(envelopes[..|envelopes| - 1])
      + if Blocks(e) then [Signal(e.thread, e.id, e.layer, e.source, e.body)] else []
  }

  predicate Preloads(e: Envelope) {
    e.layer == L2Flow || e.layer == L3Orchestration
  }

  /** A preload for every envelope of the upper two layers, in order: of its evidence, or of its target. */
  function PreloadsOf(envelopes: seq<Envelope>): seq<Preload> {
    if envelopes == [] then []
    else
      var e := envelopes[|envelopes| - 1];
      PreloadsOf(envelopes[..|envelopes| - 1])
      + if Preloads(e) then [Preload(e.thread, e.id, if |e.evidence| > 0 then e.evidence else [e.target])] else []
  }

  /** The new envelope, signal and preload of one emission. */
  lemma EmittedRecords(f: Fabric, d: Draft)
    ensures var g, e := Emitted(f, d), EnvelopeFor(f, d);
            && g.nextId == f.nextId + 1 && g.envelopes == f.envelopes + [e] && IsSent(e, d, f.nextId)
            && g.backpressure
               == f.backpressure + (if Blocks(e) then [Signal(e.thread, e.id, e.layer, e.source, e.body)] else [])
            && g.preloads
               == f.preloads + (if Preloads(e)
                                then [Preload(e.thread, e.id, if |e.evidence| > 0 then e.evidence else [e.target])]
                                else [])
  {
    hide Met, Crossing, MarkedIn, ThreadFor;
  }

  /** After any run: one envelope for each draft, numbered from 1; the signals are those of the blocking envelopes and
      the preloads those of the upper two layers. */
  lemma {:induction false} RunRecords(drafts: seq<Draft>)
    ensures var f := Carried(drafts);
            && f.nextId == |drafts| + 1 && |f.envelopes| == |drafts|
            && (forall i :: 0 <= i < |drafts| ==> IsSent(f.envelopes[i], drafts[i], i + 1))
            && f.backpressure == SignalsOf(f.envelopes) && f.preloads == PreloadsOf(f.envelopes)
  {
    hide Emitted, IsSent, Blocks, Preloads;
    if drafts != [] {
      var front, last := drafts[..|drafts| - 1], drafts[|drafts| - 1];
      RunRecords(front);
      var f, g := Carried(front), Carried(drafts);
      EmittedRecords(f, last);
      assert g.envelopes[..|f.envelopes|] == f.envelopes;
      forall i | 0 <= i < |drafts| ensures IsSent(g.envelopes[i], drafts[i], i + 1) {
        if i < |front| { assert g.envelopes[i] == f.envelopes[i] && front[i] == drafts[i]; }
      }
    }
  }

  // ---- layers of a thread ----

  ghost predicate HasLayerIn(envelopes: seq<Envelope>, thread: nat, layer: Layer) {
    exists i :: 0 <= i < |envelopes| && envelopes[i].thread == thread && envelopes[i].layer == layer
  }

  /** A thread's layers are those of its envelopes. */
  ghost predicate LayersKnown(f: Fabric) {
    forall j, layer :: 0 <= j < |f.threads| ==>
      (layer in f.threads[j].layers <==> HasLayerIn(f.envelopes, j + 1, layer))
  }

  lemma HasLayerMore(envelopes: seq<Envelope>, e: Envelope, thread: nat, layer: Layer)
    ensures HasLayerIn(envelopes + [e], thread, layer)
       <==> HasLayerIn(envelopes, thread, layer) || (e.thread == thread && e.layer == layer)
  {
    var all := envelopes + [e];
    assert all[|envelopes|] == e;
    if HasLayerIn(envelopes, thread, layer) {
      var i :| 0 <= i < |envelopes| && envelopes[i].thread == thread && envelopes[i].layer == layer;
      assert all[i] == envelopes[i];
    }
  }

  lemma EmittedLayers(f: Fabric, d: Draft)
    requires Well(f) && GoodParent(f, d.parent) && LayersKnown(f)
    ensures LayersKnown(Emitted(f, d))
  {
    hide Met, Crossing, MarkedIn, AllMet, Visits, Partitioned, NodesKnown, HasLayerIn;
    EmittedThreads(f, d);
    var e, g := EnvelopeFor(f, d), Emitted(f, d);
    forall j, layer | 0 <= j < |g.threads|
      ensures layer in g.threads[j].layers <==> HasLayerIn(g.envelopes, j + 1, layer)
    {
      HasLayerMore(f.envelopes, e, j + 1, layer);
      if j == |f.threads| { NoLayers(f, j + 1, layer); }
    }
  }

  lemma NoLayers(f: Fabric, thread: nat, layer: Layer)
    requires Well(f) && thread > |f.threads|
    ensures !HasLayerIn(f.envelopes, thread, layer)
  {
    hide AllMet, Visits, Partitioned, NodesKnown;
  }

  lemma NothingKnown()
    ensures LayersKnown(Fabric(1, 1, [], [], [], [], []))
  {
  }

  /** After every run with good parents, a thread's layers are exactly those of its envelopes. */
  lemma {:induction false} RunLayers(drafts: seq<Draft>)
    requires GoodRun(drafts)
    ensures Well(Carried(drafts)) && LayersKnown(Carried(drafts))
  {
    hide Emitted, Well, LayersKnown;
    RunWell(drafts);
    if drafts == [] {
      NothingKnown();
    } else {
      var front := drafts[..|drafts| - 1];
      assert GoodRun(front) by { assert forall i :: 0 <= i < |front| ==> front[i] == drafts[i]; }
      RunLayers(front);
      CarriedParents(front);
      EmittedLayers(Carried(front), drafts[|drafts| - 1]);
    }
  }

  // ---- meetings ----

  ghost predicate Rising(xs: seq<nat>) {
    forall i, j :: 0 <= i < j < |xs| ==> xs[i] < xs[j]
  }

  ghost predicate NotFalling(xs: seq<nat>) {
    forall i, j :: 0 <= i < j < |xs| ==> xs[i] <= xs[j]
  }

  lemma {:induction false} InsertedNotFalling(xs: seq<nat>, x: nat)
    requires NotFalling(xs)
    ensures NotFalling(Inserted(xs, x))
  {
    if xs != [] && x > xs[0] {
      InsertedNotFalling(xs[1..], x);
      InsertedMembers(xs[1..], x);
      var rest := Inserted(xs[1..], x);
      forall j | 0 <= j < |rest| ensures xs[0] <= rest[j] {
        assert rest[j] in rest;
      }
    }
  }

  lemma {:induction false} SortedNotFalling(xs: seq<nat>)
    ensures NotFalling(Sorted(xs))
  {
    if xs != [] {
      SortedNotFalling(xs[1..]);
      InsertedNotFalling(Sorted(xs[1..]), xs[0]);
    }
  }

  lemma {:induction false} DedupedRising(xs: seq<nat>)
    requires NotFalling(xs)
    ensures Rising(Deduped(xs))
  {
    if |xs| > 1 {
      DedupedRising(xs[1..]);
      DedupedMembers(xs[1..]);
      var rest := Deduped(xs[1..]);
      if xs[0] != xs[1] {
        forall j | 0 <= j < |rest| ensures xs[0] < rest[j] {
          assert rest[j] in xs[1..];
        }
      }
    }
  }

  /** Every meeting names at least two threads, each once and in order. */
  ghost predicate Ordered(all: seq<Intersection>) {
    forall m :: m in all ==> |m.threads| >= 2 && Rising(m.threads)
  }

  lemma {:induction false} JoinedOrdered(all: seq<Intersection>, node: string, threads: seq<nat>, transfer: Transfer)
    requires Ordered(all) && |threads| >= 2 && Rising(threads)
    ensures Ordered(Joined(all, node, threads, transfer))
  {
    hide Rising;
    if all != [] && !(all[0].node == node && all[0].threads == threads) {
      JoinedOrdered(all[1..], node, threads, transfer);
    }
  }

  lemma {:induction false} CrossingOthers(threads: seq<Thread>, own: nat, d: Draft)
    ensures own !in Crossing(threads, own, d)
  {
    if threads != [] { CrossingOthers(threads[..|threads| - 1], own, d); }
  }

  lemma MetOrdered(all: seq<Intersection>, node: string, crossing: seq<nat>, own: nat, transfer: Transfer)
    requires Ordered(all) && own !in crossing
    ensures Ordered(Met(all, node, crossing, own, transfer))
  {
    hide Joined, Sorted, Deduped, Ordered, Rising, NotFalling;
    var threads := WithUnique(crossing, own);
    if |threads| > 1 {
      SortedNotFalling(threads);
      DedupedRising(Sorted(threads));
      SortedMembers(threads);
      DedupedMembers(Sorted(threads));
      Two(Deduped(Sorted(threads)), crossing[0], own);
      JoinedOrdered(all, node, Deduped(Sorted(threads)), transfer);
    }
  }

  lemma EmittedOrdered(f: Fabric, d: Draft)
    requires Ordered(f.intersections)
    ensures Ordered(Emitted(f, d).intersections)
  {
    hide Met, Crossing, MarkedIn, ThreadFor, Ordered;
    var own := OwnThread(f, d.parent);
    var crossing := Crossing(Opened(f, d.parent).threads, own, d);
    var transfer := TransferFor(d.kind);
    CrossingOthers(Opened(f, d.parent).threads, own, d);
    MetOrdered(f.intersections, d.source, crossing, own, transfer);
    MetOrdered(Met(f.intersections, d.source, crossing, own, transfer), d.target, crossing, own, transfer);
  }

  /** After any run, every meeting names at least two threads, each once and in order. */
  lemma {:induction false} RunOrdered(drafts: seq<Draft>)
    ensures Ordered(Carried(drafts).intersections)
  {
    hide Emitted;
    if drafts != [] {
      RunOrdered(drafts[..|drafts| - 1]);
      EmittedOrdered(Carried(drafts[..|drafts| - 1]), drafts[|drafts| - 1]);
    }
  }

  /** These threads meet at the node under back pressure. */
  ghost predicate Pressed(all: seq<Intersection>, node: string, threads: seq<nat>) {
    exists m :: m in all && m.node == node && m.threads == threads && m.transfer == Backpressure
  }

  lemma {:induction false} JoinedPressed(all: seq<Intersection>, node: string, threads: seq<nat>, transfer: Transfer)
    ensures forall n, ts :: Pressed(Joined(all, node, threads, transfer), n, ts)
                       <==> Pressed(all, n, ts) || (transfer == Backpressure && n == node && ts == threads)
  {
    var after := Joined(all, node, threads, transfer);
    if all == [] {
      assert after[0] in after;
    } else if all[0].node == node && all[0].threads == threads {
      FirstPressed(all, after, node, threads, transfer);
    } else {
      JoinedPressed(all[1..], node, threads, transfer);
      var rest := Joined(all[1..], node, threads, transfer);
      PressedFront(all[0], all[1..]);
      PressedFront(all[0], rest);
      assert all == [all[0]] + all[1..] && after == [all[0]] + rest;
    }
  }

  lemma PressedFront(m: Intersection, rest: seq<Intersection>)
    ensures forall n, ts :: Pressed([m] + rest, n, ts)
                       <==> Pressed(rest, n, ts) || (m.node == n && m.threads == ts && m.transfer == Backpressure)
  {
    forall n, ts | Pressed(rest, n, ts) ensures Pressed([m] + rest, n, ts) {
      var k :| k in rest && k.node == n && k.threads == ts && k.transfer == Backpressure;
      assert k in [m] + rest;
    }
    assert m in [m] + rest;
  }

  lemma FirstPressed(all: seq<Intersection>, after: seq<Intersection>, node: string, threads: seq<nat>,
                     transfer: Transfer)
    requires all != [] && all[0].node == node && all[0].threads == threads
    requires after == [if transfer == Backpressure then all[0].(transfer := transfer) else all[0]] + all[1..]
    ensures forall n, ts :: Pressed(after, n, ts)
                       <==> Pressed(all, n, ts) || (transfer == Backpressure && n == node && ts == threads)
  {
    PressedFront(all[0], all[1..]);
    PressedFront(after[0], all[1..]);
    assert all == [all[0]] + all[1..] && after == [after[0]] + all[1..];
  }

  /** Back pressure comes with blocking envelopes only, at their ends, for meetings of their own thread; it is put on
      their meeting with every thread that knows such an end; and it is never taken off. */
  lemma EmittedPressed(f: Fabric, d: Draft, n: string, ts: seq<nat>, j: nat)
    requires Well(f) && GoodParent(f, d.parent)
    ensures var g, e := Emitted(f, d), EnvelopeFor(f, d);
            && (Pressed(f.intersections, n, ts) ==> Pressed(g.intersections, n, ts))
            && (Pressed(g.intersections, n, ts) && !Pressed(f.intersections, n, ts) ==>
                  Blocks(e) && (n == d.source || n == d.target) && e.thread in ts)
            && (Blocks(e) && (n == d.source || n == d.target)
                && j < |f.threads| && j + 1 != e.thread && n in f.threads[j].nodes ==>
                  exists us :: Pressed(g.intersections, n, us) && e.thread in us && j + 1 in us)
  {
    hide Met, Crossing, MarkedIn, ThreadFor, Pressed, AllMet, Visits, Partitioned, NodesKnown;
    var own := OwnThread(f, d.parent);
    var threads := Opened(f, d.parent).threads;
    var crossing := Crossing(threads, own, d);
    var transfer := TransferFor(d.kind);
    CrossingOthers(threads, own, d);
    MetPressed(f.intersections, d.source, crossing, own, transfer);
    MetPressed(Met(f.intersections, d.source, crossing, own, transfer), d.target, crossing, own, transfer);
    if j < |f.threads| && j + 1 != own && n in f.threads[j].nodes && (n == d.source || n == d.target) {
      assert threads[j] == f.threads[j];
      CrossingMembers(threads, own, d, j);
    }
  }

  /** The threads of a meeting: the own one and the crossing ones. */
  function Meeting(crossing: seq<nat>, own: nat): seq<nat> {
    Deduped(Sorted(WithUnique(crossing, own)))
  }

  lemma MetPressed(all: seq<Intersection>, node: string, crossing: seq<nat>, own: nat, transfer: Transfer)
    requires own !in crossing
    ensures forall n, ts :: Pressed(Met(all, node, crossing, own, transfer), n, ts)
              <==> || Pressed(all, n, ts)
                   || (transfer == Backpressure && n == node && ts == Meeting(crossing, own) && crossing != [])
    ensures forall k :: k in Meeting(crossing, own) <==> k in crossing || k == own
  {
    hide Joined, Sorted, Deduped, Pressed;
    SortedMembers(WithUnique(crossing, own));
    DedupedMembers(Sorted(WithUnique(crossing, own)));
    JoinedPressed(all, node, Meeting(crossing, own), transfer);
  }
}
