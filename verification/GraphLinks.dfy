/** Which nodes and links a record brings into the graph: from where to where, and how heavy. */
module GraphLinks {
  import opened Memory
  import opened Graph

  lemma {:induction false} AtomLinks(doctrine: set<string>, nodes: seq<WikiNode>, x: Lesson, n: nat, e: WikiEdge)
    requires n <= |x.atoms|
    ensures e in AtomEdges(doctrine, nodes, x, n)
       <==> && e.target == x.nodeId && e.weight == 4 && e.source in x.atoms[..n]
            && e.source in doctrine && IsNode(nodes, e.source)
  {
    hide IsNode;
    if n > 0 {
      AtomLinks(doctrine, nodes, x, n - 1, e);
      assert x.atoms[..n] == x.atoms[..n - 1] + [x.atoms[n - 1]];
    }
  }

  lemma {:induction false} ProofLinks(p: ProofNote, n: nat, e: WikiEdge)
    requires n <= |p.atoms|
    ensures e in ProofEdges(p, n)
       <==> || e == WikiEdge(p.nodeId, p.recipe, 8) || e == WikiEdge(p.recipe, p.nodeId, 5)
            || (e.target == p.nodeId && e.weight == 4 && e.source in p.atoms[..n])
  {
    if n > 0 {
      ProofLinks(p, n - 1, e);
      assert p.atoms[..n] == p.atoms[..n - 1] + [p.atoms[n - 1]];
    } else {
      assert p.atoms[..0] == [];
    }
  }

  lemma ForgottenEdge(g: Contents, k: nat, e: WikiEdge)
    requires k < |g.learning| && IsNode(g.nodes, e.source) && IsNode(g.nodes, e.target)
    ensures var t := Forgotten(g, k);
            e in t.edges <==> e in g.edges && IsNode(t.nodes, e.source) && IsNode(t.nodes, e.target)
  {
    hide IsNode, DropNode, DropEdges;
    var id := g.learning[k].id;
    DropEdgesMembers(g.edges, id);
    NodeKept(g.nodes, id, e.source);
    NodeKept(g.nodes, id, e.target);
  }

  lemma NodeKept(nodes: seq<WikiNode>, dropped: string, id: string)
    ensures IsNode(DropNode(nodes, dropped), id) <==> IsNode(nodes, id) && id != dropped
  {
    DropNodeMembers(nodes, dropped);
    NodeAmong(nodes, id);
    NodeAmong(DropNode(nodes, dropped), id);
  }

  lemma {:induction false} EvictedEdge(g: Contents, e: WikiEdge)
    requires IsNode(g.nodes, e.source) && IsNode(g.nodes, e.target)
    ensures var t := Evicted(g);
            e in t.edges <==> e in g.edges && IsNode(t.nodes, e.source) && IsNode(t.nodes, e.target)
    decreases |g.learning|
  {
    hide IsNode, Forgotten;
    if |g.learning| > GRAPH_MEMORY_LIMIT {
      var next := Forgotten(g, 0);
      ForgottenEdge(g, 0, e);
      ForgottenLess(g);
      if IsNode(next.nodes, e.source) && IsNode(next.nodes, e.target) {
        EvictedEdge(next, e);
      } else {
        EvictedGone(next, e);
        if !IsNode(next.nodes, e.source) { EvictedNodes(next, e.source); }
        if !IsNode(next.nodes, e.target) { EvictedNodes(next, e.target); }
      }
    }
  }

  lemma ForgottenLess(g: Contents)
    requires g.learning != []
    ensures Forgotten(g, 0).learning == g.learning[1..]
  {
  }

  /** An edge that is not there does not come back. */
  lemma {:induction false} EvictedGone(g: Contents, e: WikiEdge)
    requires e !in g.edges
    ensures e !in Evicted(g).edges
    decreases |g.learning|
  {
    hide DropNode, DropEdges;
    if |g.learning| > GRAPH_MEMORY_LIMIT {
      DropEdgesMembers(g.edges, g.learning[0].id);
      EvictedGone(Forgotten(g, 0), e);
    }
  }

  lemma SupersedingGone(g: Contents, key: string, e: WikiEdge)
    requires e !in g.edges
    ensures e !in Superseding(g, key).edges
  {
    hide DropNode, DropEdges;
    var k := SlotOf(g.learning, key);
    if k >= 0 { DropEdgesMembers(g.edges, g.learning[k].id); }
  }

  /** A node that only the last slot may hold is not evicted. */
  lemma {:induction false} EvictedKeeps(g: Contents, n: WikiNode)
    requires n in g.nodes && g.learning != []
    requires forall i :: 0 <= i < |g.learning| - 1 ==> g.learning[i].id != n.id
    ensures n in Evicted(g).nodes
    decreases |g.learning|
  {
    hide DropNode, DropEdges;
    if |g.learning| > GRAPH_MEMORY_LIMIT {
      var next := Forgotten(g, 0);
      DropNodeMembers(g.nodes, g.learning[0].id);
      ForgottenLess(g);
      forall i | 0 <= i < |next.learning| - 1 ensures next.learning[i].id != n.id {
        assert next.learning[i] == g.learning[i + 1];
      }
      EvictedKeeps(next, n);
    }
  }

  lemma SupersedingSlotsAmong(g: Contents, key: string, i: nat)
    requires i < |Superseding(g, key).learning|
    ensures Superseding(g, key).learning[i] in g.learning
  {
    hide DropNode, DropEdges;
    var k := SlotOf(g.learning, key);
    if k >= 0 {
      assert Superseding(g, key).learning[i] == if i < k then g.learning[i] else g.learning[i + 1];
    }
  }

  ghost predicate SlotsAreNodes(g: Contents) {
    forall s :: s in g.learning ==> IsNode(g.nodes, s.id)
  }

  /** A new, valid record brings its node, under its own title, excerpt and tags. */
  lemma AddedNode(doctrine: set<string>, g: Contents, x: Lesson)
    requires x.valid && !IsNode(g.nodes, x.nodeId) && SlotsAreNodes(g)
    ensures WikiNode(x.nodeId, x.title, x.excerpt, x.tags) in Added(doctrine, g, x).nodes
    ensures IsNode(Added(doctrine, g, x).nodes, x.nodeId)
  {
    hide IsNode, Superseding, Evicted, RecipeEdges, AtomEdges;
    var joined := Joined(g, x);
    var free := Superseding(g, x.key);
    forall i | 0 <= i < |joined.learning| - 1 ensures joined.learning[i].id != x.nodeId {
      assert joined.learning[i] == free.learning[i];
      SupersedingSlotsAmong(g, x.key, i);
    }
    assert NodeOf(x) in joined.nodes by { assert joined.nodes[|joined.nodes| - 1] == NodeOf(x); }
    EvictedKeeps(joined, NodeOf(x));
    NodeAmong(Added(doctrine, g, x).nodes, x.nodeId);
  }

  /** The links a record may bring. */
  predicate RecordLink(doctrine: set<string>, x: Lesson, e: WikiEdge) {
    || (e.source == x.recipe && e.target == x.nodeId && e.weight == 5)
    || (e.source == x.nodeId && e.target == x.recipe && e.weight == 6 && x.promotes)
    || (e.source in x.atoms && e.source in doctrine && e.target == x.nodeId && e.weight == 4)
  }

  /** A new, valid record brings the link from its recipe, of weight 5, the link back to it, of weight 6, exactly if it
      promotes, and the links from its known atoms, of weight 4, as far as these are in the graph; and no others. */
  lemma AddedLinks(doctrine: set<string>, g: Contents, x: Lesson, e: WikiEdge)
    requires x.valid && !IsNode(g.nodes, x.nodeId) && SlotsAreNodes(g) && e !in g.edges
    ensures var t := Added(doctrine, g, x);
            e in t.edges <==> RecordLink(doctrine, x, e) && IsNode(t.nodes, e.source) && IsNode(t.nodes, e.target)
  {
    hide IsNode, Superseding, Evicted, RecipeEdges, AtomEdges;
    var joined, t := Joined(g, x), Added(doctrine, g, x);
    var full := Evicted(joined);
    var free := Superseding(g, x.key);
    AddedNode(doctrine, g, x);
    SupersedingGone(g, x.key, e);
    AtomLinks(doctrine, full.nodes, x, |x.atoms|, e);
    assert x.atoms[..|x.atoms|] == x.atoms;
    RecipeLinks(joined.nodes, x, e);
    assert joined.edges == free.edges + RecipeEdges(joined.nodes, x);
    OwnNode(joined.nodes, x);
    if IsNode(joined.nodes, e.source) && IsNode(joined.nodes, e.target) {
      EvictedEdge(joined, e);
    } else {
      if !IsNode(joined.nodes, e.source) { EvictedNodes(joined, e.source); }
      if !IsNode(joined.nodes, e.target) { EvictedNodes(joined, e.target); }
      EvictedGone(joined, e);
    }
  }

  lemma OwnNode(nodes: seq<WikiNode>, x: Lesson)
    requires nodes != [] && nodes[|nodes| - 1] == NodeOf(x)
    ensures IsNode(nodes, x.nodeId)
  {
  }

  lemma RecipeLinks(nodes: seq<WikiNode>, x: Lesson, e: WikiEdge)
    ensures e in RecipeEdges(nodes, x)
       <==> && IsNode(nodes, x.recipe)
            && (e == WikiEdge(x.recipe, x.nodeId, 5) || (x.promotes && e == WikiEdge(x.nodeId, x.recipe, 6)))
  {
    hide IsNode;
  }

  /** A new, positive proof brings its node, the link to its recipe, of weight 8, the one back, of weight 5, and one
      from each of its atoms, of weight 4; and no others. */
  lemma ProvedLinks(g: Contents, p: ProofNote, e: WikiEdge)
    requires p.positive && !IsNode(g.nodes, p.nodeId) && e !in g.edges
    ensures WikiNode(p.nodeId, p.title, p.excerpt, p.tags) in Proved(g, p).nodes
    ensures e in Proved(g, p).edges
       <==> || e == WikiEdge(p.nodeId, p.recipe, 8) || e == WikiEdge(p.recipe, p.nodeId, 5)
            || (e.target == p.nodeId && e.weight == 4 && e.source in p.atoms)
  {
    hide IsNode;
    ProofLinks(p, |p.atoms|, e);
    assert p.atoms[..|p.atoms|] == p.atoms;
    var t := Proved(g, p);
    assert t.nodes[|g.nodes|] == WikiNode(p.nodeId, p.title, p.excerpt, p.tags);
  }
}
