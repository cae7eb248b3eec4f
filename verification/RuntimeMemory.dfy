/** The graph a runtime teaches: after any run, its memory is that of the ledger it started from and of every record
    it learned since, so a runtime that is started again remembers the same. */
module RuntimeMemory {
  import opened Memory
  import opened Graph
  import opened RuntimeRuns

  /** The records a run teaches the graph, in order. */
  function Taught(ops: seq<Op>): seq<Lesson> {
    if ops == [] then []
    else Taught(ops[..|ops| - 1]) + (if ops[|ops| - 1].Learned? then [ops[|ops| - 1].lesson] else [])
  }

  /** What one operation does to the graph. */
  function Teach(doctrine: set<string>, g: Contents, op: Op): Contents {
    if op.Learned? then Added(doctrine, g, op.lesson)
    else if op.ProofStored? && op.proven then Proved(g, op.proof)
    else g
  }

  function GraphAfter(doctrine: set<string>, g: Contents, ops: seq<Op>): Contents {
    if ops == [] then g else Teach(doctrine, GraphAfter(doctrine, g, ops[..|ops| - 1]), ops[|ops| - 1])
  }

  /** The records are valid and have ids of their own: not of each other, of the graph, or of a proof. */
  ghost predicate Fresh(g: Contents, xs: seq<Lesson>, ops: seq<Op>) {
    && DistinctIds(xs) && (forall x :: x in xs ==> x.valid && !IsNode(g.nodes, x.nodeId))
    && forall op, x :: op in ops && op.ProofStored? && x in xs ==> op.proof.nodeId != x.nodeId
  }

  /** A run puts no node in the graph that is neither a record's nor a proof's. */
  lemma {:induction false} NodesAfter(doctrine: set<string>, g: Contents, ops: seq<Op>, id: string)
    requires !IsNode(g.nodes, id) && forall x :: x in Taught(ops) ==> x.nodeId != id
    requires forall op :: op in ops && op.ProofStored? ==> op.proof.nodeId != id
    ensures !IsNode(GraphAfter(doctrine, g, ops).nodes, id)
  {
    hide IsNode, Added, Proved;
    if ops != [] {
      var front, last := ops[..|ops| - 1], ops[|ops| - 1];
      assert last in ops;
      NodesAfter(doctrine, g, front, id);
      var before := GraphAfter(doctrine, g, front);
      if last.Learned? {
        assert Taught(ops)[|Taught(front)|] == last.lesson;
        AddedNodes(doctrine, before, last.lesson, id);
      } else if last.ProofStored? {
        ProvedNodes(before, last.proof, id);
      }
    }
  }

  lemma FreshFront(g: Contents, front: seq<Lesson>, x: Lesson, ops: seq<Op>, last: Op)
    requires Fresh(g, front + [x], ops + [last])
    ensures Fresh(g, front, ops) && x.valid && !IsNode(g.nodes, x.nodeId)
    ensures forall y :: y in front ==> y.nodeId != x.nodeId
    ensures forall op :: op in ops && op.ProofStored? ==> op.proof.nodeId != x.nodeId
  {
    hide IsNode;
    var all := front + [x];
    IdsOfFront(front, x);
    assert all[|front|] == x;
    forall y | y in front ensures y in all { }
    forall op | op in ops ensures op in ops + [last] { }
  }

  /** After any run the memory is the effective memory of the earlier records and those the run taught. */
  lemma {:induction false} RunRemembers(doctrine: set<string>, g: Contents, earlier: seq<Lesson>, ops: seq<Op>)
    requires g.learning == SlotsOf(Effective(earlier, 256)) && Fresh(g, Taught(ops), ops)
    ensures GraphAfter(doctrine, g, ops).learning == SlotsOf(Effective(earlier + Taught(ops), 256))
  {
    hide Effective, Added, Proved, IsNode, Fresh;
    if ops == [] {
      assert earlier + Taught(ops) == earlier;
    } else {
      var front, last := ops[..|ops| - 1], ops[|ops| - 1];
      assert ops == front + [last];
      var before := GraphAfter(doctrine, g, front);
      var known := earlier + Taught(front);
      if last.Learned? {
        FreshFront(g, Taught(front), last.lesson, front, last);
        RunRemembers(doctrine, g, earlier, front);
        NodesAfter(doctrine, g, front, last.lesson.nodeId);
        EffectiveMembers(known, GRAPH_MEMORY_LIMIT);
        AddedSlots(doctrine, before, Effective(known, GRAPH_MEMORY_LIMIT), last.lesson);
        EffectiveStep(known, last.lesson, GRAPH_MEMORY_LIMIT);
        assert earlier + Taught(ops) == known + [last.lesson];
      } else {
        FreshSame(g, Taught(ops), front, last);
        assert Taught(ops) == Taught(front);
        RunRemembers(doctrine, g, earlier, front);
        if last.ProofStored? { SlotsKept(before, last.proof); }
      }
    }
  }

  lemma FreshSame(g: Contents, xs: seq<Lesson>, ops: seq<Op>, last: Op)
    requires Fresh(g, xs, ops + [last])
    ensures Fresh(g, xs, ops)
  {
    forall op | op in ops ensures op in ops + [last] { }
  }

  lemma SlotsKept(g: Contents, p: ProofNote)
    ensures Proved(g, p).learning == g.learning
  {
  }

  // ---- starting again ----

  /** What `with_stores` makes of a base graph and the two ledgers. */
  function Started(doctrine: set<string>, base: Contents, proofs: seq<ProofNote>, records: seq<Lesson>): Contents {
    AddedAll(doctrine, ProvedAll(base, proofs), Effective(records, GRAPH_MEMORY_LIMIT))
  }

  /** A start remembers the effective records of its ledger. */
  lemma StartRemembers(doctrine: set<string>, base: Contents, proofs: seq<ProofNote>, records: seq<Lesson>)
    requires Separate(ProvedAll(base, proofs), records)
    ensures Started(doctrine, base, proofs, records).learning == SlotsOf(Effective(records, GRAPH_MEMORY_LIMIT))
  {
    hide Effective, Added, IsNode;
    var memory := Effective(records, GRAPH_MEMORY_LIMIT);
    EffectiveMembers(records, GRAPH_MEMORY_LIMIT);
    EffectiveIds(records, GRAPH_MEMORY_LIMIT);
    MemoryIsEffective(doctrine, ProvedAll(base, proofs), memory);
    EffectiveTwice(records, GRAPH_MEMORY_LIMIT);
  }

  /** A runtime that learns record after record has the memory of one started on the ledger with all of them. */
  lemma RestartRemembers(doctrine: set<string>, base: Contents, proofs: seq<ProofNote>, records: seq<Lesson>,
                         ops: seq<Op>, laterProofs: seq<ProofNote>)
    requires Separate(ProvedAll(base, proofs), records)
    requires Fresh(Started(doctrine, base, proofs, records), Taught(ops), ops)
    requires Separate(ProvedAll(base, laterProofs), records + Taught(ops))
    ensures GraphAfter(doctrine, Started(doctrine, base, proofs, records), ops).learning
         == Started(doctrine, base, laterProofs, records + Taught(ops)).learning
  {
    hide Effective, Started, Separate, Fresh;
    StartRemembers(doctrine, base, proofs, records);
    RunRemembers(doctrine, Started(doctrine, base, proofs, records), records, ops);
    StartRemembers(doctrine, base, laterProofs, records + Taught(ops));
  }
}
