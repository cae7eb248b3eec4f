/** The wiki graph's learning memory: records come in one at a time, replace the record of their memory key and
    push out the oldest, and the graph always is the one a batch over the whole history would build. */
module Graph {
  import opened Memory

  datatype WikiNode = WikiNode(id: string, title: string, excerpt: string, tags: seq<string>)

  datatype WikiEdge = WikiEdge(source: string, target: string, weight: int)

  /** A learning node and the memory key it holds. */
  datatype Slot = Slot(id: string, key: string)

  datatype Contents = Contents(nodes: seq<WikiNode>, edges: seq<WikiEdge>, learning: seq<Slot>)

  predicate IsNode(nodes: seq<WikiNode>, id: string) {
    exists i :: 0 <= i < |nodes| && nodes[i].id == id
  }

  predicate Touches(e: WikiEdge, id: string) {
    e.source == id || e.target == id
  }

  function DropNode(nodes: seq<WikiNode>, id: string): seq<WikiNode> {
    if nodes == [] then []
    else DropNode(nodes[..|nodes| - 1], id) + (if nodes[|nodes| - 1].id != id then [nodes[|nodes| - 1]] else [])
  }

  function DropEdges(edges: seq<WikiEdge>, id: string): seq<WikiEdge> {
    if edges == [] then []
    else DropEdges(edges[..|edges| - 1], id)
         + (if Touches(edges[|edges| - 1], id) then [] else [edges[|edges| - 1]])
  }

  /** `remove_node` */
  function Removed(g: Contents, id: string): Contents {
    g.(nodes := DropNode(g.nodes, id), edges := DropEdges(g.edges, id))
  }

  /** The slot of a memory key, if it is held. */
  function SlotOf(learning: seq<Slot>, key: string): (k: int)
    ensures -1 <= k < |learning|
    ensures k >= 0 ==> learning[k].key == key
    ensures forall i :: 0 <= i < (if k < 0 then |learning| else k) ==> learning[i].key != key
  {
    if learning == [] then -1
    else
      var k := SlotOf(learning[..|learning| - 1], key);
      if k >= 0 then k
      else if learning[|learning| - 1].key == key then |learning| - 1
      else -1
  }

  function Forgotten(g: Contents, k: nat): Contents
    requires k < |g.learning|
  {
    Removed(g.(learning := g.learning[..k] + g.learning[k + 1..]), g.learning[k].id)
  }

  /** The record of this key is superseded. */
  function Superseding(g: Contents, key: string): Contents {
    var k := SlotOf(g.learning, key);
    if k < 0 then g else Forgotten(g, k)
  }

  /** The oldest learning nodes go until the memory is within its limit. */
  function Evicted(g: Contents): Contents
    decreases |g.learning|
  {
    if |g.learning| <= GRAPH_MEMORY_LIMIT then g else Evicted(Forgotten(g, 0))
  }

  function NodeOf(x: Lesson): WikiNode {
    WikiNode(x.nodeId, x.title, x.excerpt, x.tags)
  }

  /** The links between a record's node and its recipe. */
  function RecipeEdges(nodes: seq<WikiNode>, x: Lesson): seq<WikiEdge> {
    if !IsNode(nodes, x.recipe) then []
    else [WikiEdge(x.recipe, x.nodeId, 5)] + (if x.promotes then [WikiEdge(x.nodeId, x.recipe, 6)] else [])
  }

  /** The links from a record's atoms, of those the doctrine and the graph know. */
  function AtomEdges(doctrine: set<string>, nodes: seq<WikiNode>, x: Lesson, n: nat): seq<WikiEdge>
    requires n <= |x.atoms|
  {
    if n == 0 then []
    else AtomEdges(doctrine, nodes, x, n - 1)
         + (if x.atoms[n - 1] in doctrine && IsNode(nodes, x.atoms[n - 1])
            then [WikiEdge(x.atoms[n - 1], x.nodeId, 4)] else [])
  }

  /** The graph with the record's node in it, before anything is evicted. */
  function Joined(g: Contents, x: Lesson): Contents {
    var free := Superseding(g, x.key);
    var nodes := free.nodes + [NodeOf(x)];
    Contents(nodes, free.edges + RecipeEdges(nodes, x), free.learning + [Slot(x.nodeId, x.key)])
  }

  /** `add_learning_record` */
  function Added(doctrine: set<string>, g: Contents, x: Lesson): Contents {
    if !x.valid || IsNode(g.nodes, x.nodeId) then g
    else
      var full := Evicted(Joined(g, x));
      full.(edges := full.edges + AtomEdges(doctrine, full.nodes, x, |x.atoms|))
  }

  /** A proof record as the graph sees it. */
  datatype ProofNote = ProofNote(positive: bool, nodeId: string, title: string, excerpt: string, tags: seq<string>,
                                 recipe: string, atoms: seq<string>)

  function ProofEdges(p: ProofNote, n: nat): seq<WikiEdge>
    requires n <= |p.atoms|
  {
    if n == 0 then [WikiEdge(p.nodeId, p.recipe, 8), WikiEdge(p.recipe, p.nodeId, 5)]
    else ProofEdges(p, n - 1) + [WikiEdge(p.atoms[n - 1], p.nodeId, 4)]
  }

  /** `add_proof_record`: a node beside the memory; its edges are not asked whether their ends are there. */
  function Proved(g: Contents, p: ProofNote): Contents {
    if !p.positive || IsNode(g.nodes, p.nodeId) then g
    else g.(nodes := g.nodes + [WikiNode(p.nodeId, p.title, p.excerpt, p.tags)],
            edges := g.edges + ProofEdges(p, |p.atoms|))
  }

  function ProvedAll(g: Contents, ps: seq<ProofNote>): Contents {
    if ps == [] then g else Proved(ProvedAll(g, ps[..|ps| - 1]), ps[|ps| - 1])
  }

  function AddedAll(doctrine: set<string>, g: Contents, xs: seq<Lesson>): Contents {
    if xs == [] then g else Added(doctrine, AddedAll(doctrine, g, xs[..|xs| - 1]), xs[|xs| - 1])
  }

  class WikiGraph {
    const doctrine: set<string>
    var nodes: seq<WikiNode>
    var edges: seq<WikiEdge>
    var learning: seq<Slot>

    constructor (doctrine: set<string>, nodes: seq<WikiNode>, edges: seq<WikiEdge>)
      ensures this.doctrine == doctrine && State() == Contents(nodes, edges, [])
    {
      this.doctrine := doctrine;
      this.nodes := nodes;
      this.edges := edges;
      learning := [];
    }

    function State(): Contents
      reads this
    {
      Contents(nodes, edges, learning)
    }

    /** `remove_node`: the node and every edge at it go. */
    method RemoveNode(id: string)
      modifies this`nodes, this`edges
      ensures State() == Removed(old(State()), id)
    {
      var keptNodes: seq<WikiNode> := [];
      for i := 0 to |nodes|
        invariant nodes == old(nodes) && edges == old(edges)
        invariant keptNodes == DropNode(nodes[..i], id)
      {
        assert nodes[..i + 1][..i] == nodes[..i];
        if nodes[i].id != id { keptNodes := keptNodes + [nodes[i]]; }
      }
      assert nodes[..|nodes|] == nodes;
      var keptEdges: seq<WikiEdge> := [];
      for i := 0 to |edges|
        invariant nodes == old(nodes) && edges == old(edges)
        invariant keptEdges == DropEdges(edges[..i], id)
      {
        assert edges[..i + 1][..i] == edges[..i];
        if edges[i].source != id && edges[i].target != id { keptEdges := keptEdges + [edges[i]]; }
      }
      assert edges[..|edges|] == edges;
      nodes, edges := keptNodes, keptEdges;
    }

    /** The slot leaves the memory and its node the graph. */
    method Forget(k: nat)
      requires k < |learning|
      modifies this
      ensures State() == Forgotten(old(State()), k) && |learning| + 1 == |old(learning)|
    {
      var id := learning[k].id;
      learning := learning[..k] + learning[k + 1..];
      RemoveNode(id);
    }

    /** `add_learning_record` */
    method AddLearningRecord(x: Lesson)
      modifies this
      ensures State() == Added(doctrine, old(State()), x)
    {
      hide RecipeEdges, IsNode, Removed, NodeOf;
      if !x.valid || IsNode(nodes, x.nodeId) { return; }
      var k := SlotOf(learning, x.key);
      if k >= 0 { Forget(k); }
      assert State() == Superseding(old(State()), x.key);
      nodes := nodes + [NodeOf(x)];
      edges := edges + RecipeEdges(nodes, x);
      learning := learning + [Slot(x.nodeId, x.key)];
      ghost var joined := State();
      assert joined == Joined(old(State()), x);
      while |learning| > GRAPH_MEMORY_LIMIT
        invariant Evicted(State()) == Evicted(joined)
        decreases |learning|
      {
        Forget(0);
      }
      ghost var full := State();
      for i := 0 to |x.atoms|
        invariant nodes == full.nodes && learning == full.learning
        invariant edges == full.edges + AtomEdges(doctrine, nodes, x, i)
      {
        if x.atoms[i] in doctrine && IsNode(nodes, x.atoms[i]) {
          edges := edges + [WikiEdge(x.atoms[i], x.nodeId, 4)];
        }
      }
    }

    /** `add_proof_record` */
    method AddProofRecord(p: ProofNote)
      modifies this
      ensures State() == Proved(old(State()), p)
    {
      hide IsNode;
      if !p.positive || IsNode(nodes, p.nodeId) { return; }
      nodes := nodes + [WikiNode(p.nodeId, p.title, p.excerpt, p.tags)];
      var links := [WikiEdge(p.nodeId, p.recipe, 8), WikiEdge(p.recipe, p.nodeId, 5)];
      for i := 0 to |p.atoms|
        invariant links == ProofEdges(p, i)
      {
        links := links + [WikiEdge(p.atoms[i], p.nodeId, 4)];
      }
      edges := edges + links;
    }

    method AddProofRecords(ps: seq<ProofNote>)
      modifies this
      ensures State() == ProvedAll(old(State()), ps)
    {
      for i := 0 to |ps|
        invariant State() == ProvedAll(old(State()), ps[..i])
      {
        assert ps[..i + 1][..i] == ps[..i];
        AddProofRecord(ps[i]);
      }
      assert ps[..|ps|] == ps;
    }

    method AddLearningRecords(xs: seq<Lesson>)
      modifies this
      ensures State() == AddedAll(doctrine, old(State()), xs)
    {
      for i := 0 to |xs|
        invariant State() == AddedAll(doctrine, old(State()), xs[..i])
      {
        assert xs[..i + 1][..i] == xs[..i];
        AddLearningRecord(xs[i]);
      }
      assert xs[..|xs|] == xs;
    }
  }

  // ---- what the graph is after any history ----

  function NodesOf(memory: seq<Lesson>): (r: seq<WikiNode>)
    ensures |r| == |memory| && forall i :: 0 <= i < |memory| ==> r[i] == NodeOf(memory[i])
  {
    seq(|memory|, i requires 0 <= i < |memory| => NodeOf(memory[i]))
  }

  function SlotsOf(memory: seq<Lesson>): (r: seq<Slot>)
    ensures |r| == |memory| && forall i :: 0 <= i < |memory| ==> r[i] == Slot(memory[i].nodeId, memory[i].key)
  {
    seq(|memory|, i requires 0 <= i < |memory| => Slot(memory[i].nodeId, memory[i].key))
  }

  /** All links of a record, over the nodes that are no learning nodes. */
  function LinksOf(doctrine: set<string>, nodes: seq<WikiNode>, x: Lesson): seq<WikiEdge> {
    RecipeEdges(nodes, x) + AtomEdges(doctrine, nodes, x, |x.atoms|)
  }

  function AllLinks(doctrine: set<string>, nodes: seq<WikiNode>, memory: seq<Lesson>): seq<WikiEdge> {
    if memory == [] then []
    else AllLinks(doctrine, nodes, memory[..|memory| - 1]) + LinksOf(doctrine, nodes, memory[|memory| - 1])
  }

  /** The graph built at once from a base graph and its effective memory. */
  function Batch(doctrine: set<string>, base: Contents, memory: seq<Lesson>): Contents {
    Contents(base.nodes + NodesOf(memory), base.edges + AllLinks(doctrine, base.nodes, memory), SlotsOf(memory))
  }

  // ---- dropping ----

  lemma {:induction false} DropNodeJoin(a: seq<WikiNode>, b: seq<WikiNode>, id: string)
    ensures DropNode(a + b, id) == DropNode(a, id) + DropNode(b, id)
  {
    if b == [] {
      assert a + b == a;
    } else {
      var n := |b| - 1;
      DropNodeJoin(a, b[..n], id);
      assert (a + b)[..|a + b| - 1] == a + b[..n];
    }
  }

  lemma {:induction false} DropNodeAbsent(nodes: seq<WikiNode>, id: string)
    requires !IsNode(nodes, id)
    ensures DropNode(nodes, id) == nodes
  {
    if nodes != [] {
      var front := nodes[..|nodes| - 1];
      forall i | 0 <= i < |front| ensures front[i].id != id { assert front[i] == nodes[i]; }
      DropNodeAbsent(front, id);
      assert nodes == front + [nodes[|nodes| - 1]];
    }
  }

  lemma {:induction false} DropEdgesJoin(a: seq<WikiEdge>, b: seq<WikiEdge>, id: string)
    ensures DropEdges(a + b, id) == DropEdges(a, id) + DropEdges(b, id)
  {
    hide Touches;
    if b == [] {
      assert a + b == a;
    } else {
      var n := |b| - 1;
      DropEdgesJoin(a, b[..n], id);
      assert (a + b)[..|a + b| - 1] == a + b[..n];
    }
  }

  lemma {:induction false} DropEdgesNone(edges: seq<WikiEdge>, id: string)
    requires forall e :: e in edges ==> !Touches(e, id)
    ensures DropEdges(edges, id) == edges
  {
    hide Touches;
    if edges != [] {
      DropEdgesNone(edges[..|edges| - 1], id);
      assert edges == edges[..|edges| - 1] + [edges[|edges| - 1]];
    }
  }

  lemma {:induction false} DropEdgesAll(edges: seq<WikiEdge>, id: string)
    requires forall e :: e in edges ==> Touches(e, id)
    ensures DropEdges(edges, id) == []
  {
    hide Touches;
    if edges != [] { DropEdgesAll(edges[..|edges| - 1], id); }
  }

  // ---- nodes and memory ----

  /** The records can stand beside the base graph: ids of their own, one each. */
  ghost predicate Separate(base: Contents, xs: seq<Lesson>) {
    && base.learning == [] && DistinctIds(xs)
    && forall x :: x in xs ==> x.valid && !IsNode(base.nodes, x.nodeId)
  }

  /** Nodes and memory are those of the batch; links are not looked at. */
  ghost predicate Remembers(base: Contents, memory: seq<Lesson>, g: Contents) {
    g.nodes == base.nodes + NodesOf(memory) && g.learning == SlotsOf(memory)
  }

  lemma NodesDrop(memory: seq<Lesson>, k: nat)
    requires k < |memory| && DistinctIds(memory)
    ensures DropNode(NodesOf(memory), memory[k].nodeId) == NodesOf(memory[..k] + memory[k + 1..])
  {
    hide DropNode;
    var a, b := memory[..k], memory[k + 1..];
    forall i | 0 <= i < |a| ensures a[i].nodeId != memory[k].nodeId { assert a[i] == memory[i]; }
    forall i | 0 <= i < |b| ensures b[i].nodeId != memory[k].nodeId { assert b[i] == memory[k + 1 + i]; }
    NodesDropMiddle(a, memory[k], b);
    assert NodesOf(memory) == NodesOf(a) + ([NodeOf(memory[k])] + NodesOf(b));
  }

  lemma NodesDropMiddle(a: seq<Lesson>, x: Lesson, b: seq<Lesson>)
    requires forall i :: 0 <= i < |a| ==> a[i].nodeId != x.nodeId
    requires forall i :: 0 <= i < |b| ==> b[i].nodeId != x.nodeId
    ensures DropNode(NodesOf(a) + ([NodeOf(x)] + NodesOf(b)), x.nodeId) == NodesOf(a + b)
  {
    hide DropNode;
    DropNodeJoin(NodesOf(a), [NodeOf(x)] + NodesOf(b), x.nodeId);
    DropNodeJoin([NodeOf(x)], NodesOf(b), x.nodeId);
    DropNodeAbsent(NodesOf(a), x.nodeId);
    DropNodeAbsent(NodesOf(b), x.nodeId);
    LoneNode(x);
    assert NodesOf(a + b) == NodesOf(a) + NodesOf(b);
  }

  lemma LoneNode(x: Lesson)
    ensures DropNode([NodeOf(x)], x.nodeId) == []
  {
    assert [NodeOf(x)][..0] == [];
  }

  lemma ForgottenRemembers(base: Contents, memory: seq<Lesson>, g: Contents, k: nat)
    requires Remembers(base, memory, g) && k < |memory| && DistinctIds(memory)
    requires !IsNode(base.nodes, memory[k].nodeId)
    ensures Remembers(base, memory[..k] + memory[k + 1..], Forgotten(g, k))
  {
    hide DropNode, DropEdges, IsNode;
    DropNodeJoin(base.nodes, NodesOf(memory), memory[k].nodeId);
    DropNodeAbsent(base.nodes, memory[k].nodeId);
    NodesDrop(memory, k);
  }

  lemma SupersedingRemembers(base: Contents, memory: seq<Lesson>, g: Contents, key: string)
    requires Remembers(base, memory, g) && DistinctIds(memory) && DistinctKeys(memory)
    requires forall x :: x in memory ==> !IsNode(base.nodes, x.nodeId)
    ensures Remembers(base, Without(memory, key), Superseding(g, key)) && DistinctIds(Without(memory, key))
  {
    hide IsNode, Forgotten, Without;
    var k := SlotOf(g.learning, key);
    if k < 0 {
      WithoutNothing(memory, key);
    } else {
      WithoutAt(memory, k);
      ForgottenRemembers(base, memory, g, k);
    }
  }

  lemma EvictedRemembers(base: Contents, memory: seq<Lesson>, g: Contents)
    requires Remembers(base, memory, g) && DistinctIds(memory) && |memory| <= GRAPH_MEMORY_LIMIT + 1
    requires forall x :: x in memory ==> !IsNode(base.nodes, x.nodeId)
    ensures Remembers(base, LastOf(memory, GRAPH_MEMORY_LIMIT), Evicted(g))
  {
    hide IsNode, Forgotten, Evicted, Remembers;
    RememberedSize(base, memory, g);
    if |memory| > GRAPH_MEMORY_LIMIT {
      ForgottenRemembers(base, memory, g, 0);
      EvictedOnce(g);
      assert memory[..0] + memory[1..] == LastOf(memory, GRAPH_MEMORY_LIMIT);
    } else {
      EvictedNone(g);
    }
  }

  lemma RememberedSize(base: Contents, memory: seq<Lesson>, g: Contents)
    requires Remembers(base, memory, g)
    ensures |g.learning| == |memory|
  {
  }

  lemma EvictedNone(g: Contents)
    requires |g.learning| <= GRAPH_MEMORY_LIMIT
    ensures Evicted(g) == g
  {
  }

  lemma EvictedOnce(g: Contents)
    requires |g.learning| == GRAPH_MEMORY_LIMIT + 1
    ensures Evicted(g) == Forgotten(g, 0)
  {
    hide DropNode, DropEdges;
    EvictedNone(Forgotten(g, 0));
  }

  /** One record: the nodes and the memory take the incremental step. */
  lemma AddedRemembers(doctrine: set<string>, base: Contents, memory: seq<Lesson>, g: Contents, x: Lesson)
    requires Remembers(base, memory, g) && DistinctKeys(memory) && |memory| <= GRAPH_MEMORY_LIMIT
    requires Separate(base, memory + [x])
    ensures Remembers(base, Remember(memory, x, GRAPH_MEMORY_LIMIT), Added(doctrine, g, x))
  {
    hide Superseding, Evicted, Without, RecipeEdges, AtomEdges, NodeOf;
    NewNode(base, memory, g, x);
    forall y | y in memory ensures !IsNode(base.nodes, y.nodeId) { assert y in memory + [x]; }
    IdsOfFront(memory, x);
    SupersedingRemembers(base, memory, g, x.key);
    WithoutMembers(memory, x.key);
    var kept := Without(memory, x.key);
    var joined := Joined(g, x);
    assert NodesOf(kept + [x]) == NodesOf(kept) + [NodeOf(x)];
    assert SlotsOf(kept + [x]) == SlotsOf(kept) + [Slot(x.nodeId, x.key)];
    assert joined.nodes == base.nodes + NodesOf(kept + [x]);
    KeptIds(memory, kept, x);
    forall y | y in kept + [x] ensures !IsNode(base.nodes, y.nodeId) { assert y in memory + [x]; }
    EvictedRemembers(base, kept + [x], joined);
  }

  lemma IdsOfFront(memory: seq<Lesson>, x: Lesson)
    requires DistinctIds(memory + [x])
    ensures DistinctIds(memory) && forall y :: y in memory ==> y.nodeId != x.nodeId
  {
    var all := memory + [x];
    forall i, j | 0 <= i < j < |memory| ensures memory[i].nodeId != memory[j].nodeId {
      assert all[i].nodeId != all[j].nodeId;
    }
    forall y | y in memory ensures y.nodeId != x.nodeId {
      var i :| 0 <= i < |memory| && memory[i] == y;
      assert all[i].nodeId != all[|memory|].nodeId;
    }
  }

  lemma KeptIds(memory: seq<Lesson>, kept: seq<Lesson>, x: Lesson)
    requires DistinctIds(kept) && (forall y :: y in kept ==> y in memory)
    requires forall y :: y in memory ==> y.nodeId != x.nodeId
    ensures DistinctIds(kept + [x])
  {
    forall i | 0 <= i < |kept| ensures kept[i].nodeId != x.nodeId { assert kept[i] in kept; }
  }

  lemma NewNode(base: Contents, memory: seq<Lesson>, g: Contents, x: Lesson)
    requires Remembers(base, memory, g) && Separate(base, memory + [x])
    ensures x.valid && !IsNode(g.nodes, x.nodeId)
  {
    var all := memory + [x];
    assert all[|memory|] == x && x in all;
    forall i | 0 <= i < |g.nodes| ensures g.nodes[i].id != x.nodeId {
      if i < |base.nodes| {
        assert base.nodes[i].id != x.nodeId;
      } else {
        assert all[i - |base.nodes|].nodeId != all[|memory|].nodeId;
      }
    }
  }

  lemma EffectiveSeparate(base: Contents, xs: seq<Lesson>, x: Lesson)
    requires Separate(base, xs + [x])
    ensures Separate(base, xs) && Separate(base, Effective(xs, GRAPH_MEMORY_LIMIT) + [x])
  {
    hide IsNode, Effective;
    var memory := Effective(xs, GRAPH_MEMORY_LIMIT);
    EffectiveMembers(xs, GRAPH_MEMORY_LIMIT);
    IdsOfFront(xs, x);
    EffectiveIds(xs, GRAPH_MEMORY_LIMIT);
    KeptIds(xs, memory, x);
    forall y | y in xs ensures y.valid && !IsNode(base.nodes, y.nodeId) { assert y in xs + [x]; }
    forall y | y in memory + [x] ensures y.valid && !IsNode(base.nodes, y.nodeId) { assert y in xs + [x]; }
  }

  /** Records with different keys are different records, so distinct ids survive. */
  lemma EffectiveIds(xs: seq<Lesson>, n: nat)
    requires DistinctIds(xs)
    ensures DistinctIds(Effective(xs, n))
  {
    hide Effective;
    var memory := Effective(xs, n);
    EffectiveMembers(xs, n);
    forall i, j | 0 <= i < j < |memory| ensures memory[i].nodeId != memory[j].nodeId {
      assert memory[i] in memory && memory[j] in memory && memory[i].key != memory[j].key;
      var p :| 0 <= p < |xs| && xs[p] == memory[i];
      var q :| 0 <= q < |xs| && xs[q] == memory[j];
      assert p != q;
      assert xs[p].nodeId != xs[q].nodeId;
    }
  }

  /** After any history of records with distinct ids the memory, and the learning nodes, are exactly the
      effective records of the whole history, in order. */
  lemma {:induction false} MemoryIsEffective(doctrine: set<string>, base: Contents, xs: seq<Lesson>)
    requires Separate(base, xs)
    ensures Remembers(base, Effective(xs, 256), AddedAll(doctrine, base, xs))
  {
    hide Effective, Added, Remember, Separate;
    if xs == [] {
      NothingRemembered(base, xs);
    } else {
      var front, last := xs[..|xs| - 1], xs[|xs| - 1];
      assert xs == front + [last];
      EffectiveSeparate(base, front, last);
      MemoryIsEffective(doctrine, base, front);
      EffectiveMembers(front, GRAPH_MEMORY_LIMIT);
      EffectiveStep(front, last, GRAPH_MEMORY_LIMIT);
      AddedRemembers(doctrine, base, Effective(front, GRAPH_MEMORY_LIMIT), AddedAll(doctrine, base, front), last);
    }
  }

  lemma NothingRemembered(base: Contents, xs: seq<Lesson>)
    requires xs == [] && Separate(base, xs)
    ensures Remembers(base, Effective(xs, GRAPH_MEMORY_LIMIT), base)
  {
    assert Effective(xs, GRAPH_MEMORY_LIMIT) == [];
    assert NodesOf([]) == [] && SlotsOf([]) == [];
  }

  // ---- links ----

  /** Records whose ids nothing else mentions: no base edge, no recipe, no atom. */
  ghost predicate Apart(doctrine: set<string>, base: Contents, xs: seq<Lesson>) {
    && Separate(base, xs)
    && (forall x: Lesson, y: Lesson :: x in xs && y in xs ==> x.recipe != y.nodeId)
    && (forall x :: x in xs ==> Unmentioned(doctrine, base, x.nodeId))
  }

  ghost predicate Unmentioned(doctrine: set<string>, base: Contents, id: string) {
    id !in doctrine && forall e :: e in base.edges ==> !Touches(e, id)
  }

  lemma {:induction false} AtomEdgesEnds(doctrine: set<string>, nodes: seq<WikiNode>, x: Lesson, n: nat)
    requires n <= |x.atoms|
    ensures forall e :: e in AtomEdges(doctrine, nodes, x, n) ==>
              e.target == x.nodeId && e.source in doctrine && IsNode(nodes, e.source)
  {
    hide IsNode;
    if n > 0 { AtomEdgesEnds(doctrine, nodes, x, n - 1); }
  }

  lemma LinksEnds(doctrine: set<string>, nodes: seq<WikiNode>, x: Lesson)
    ensures forall e :: e in LinksOf(doctrine, nodes, x) ==>
              && Touches(e, x.nodeId)
              && forall id :: id != x.nodeId && id != x.recipe && id !in doctrine ==> !Touches(e, id)
  {
    hide IsNode, AtomEdges;
    AtomEdgesEnds(doctrine, nodes, x, |x.atoms|);
  }

  lemma {:induction false} AllLinksJoin(doctrine: set<string>, nodes: seq<WikiNode>, a: seq<Lesson>, b: seq<Lesson>)
    ensures AllLinks(doctrine, nodes, a + b) == AllLinks(doctrine, nodes, a) + AllLinks(doctrine, nodes, b)
  {
    hide LinksOf;
    if b == [] {
      assert a + b == a;
    } else {
      var n := |b| - 1;
      AllLinksJoin(doctrine, nodes, a, b[..n]);
      assert (a + b)[..|a + b| - 1] == a + b[..n];
    }
  }

  lemma LoneLinks(doctrine: set<string>, nodes: seq<WikiNode>, x: Lesson)
    ensures AllLinks(doctrine, nodes, [x]) == LinksOf(doctrine, nodes, x)
  {
    hide LinksOf;
    assert [x][..0] == [];
    assert AllLinks(doctrine, nodes, []) == [];
  }

  /** Other records' links stay clear of an id that is none of theirs. */
  lemma {:induction false} LinksClear(doctrine: set<string>, nodes: seq<WikiNode>, memory: seq<Lesson>, id: string)
    requires id !in doctrine && forall y :: y in memory ==> y.nodeId != id && y.recipe != id
    ensures forall e :: e in AllLinks(doctrine, nodes, memory) ==> !Touches(e, id)
  {
    hide LinksOf, Touches;
    if memory != [] {
      LinksClear(doctrine, nodes, memory[..|memory| - 1], id);
      LinksEnds(doctrine, nodes, memory[|memory| - 1]);
    }
  }

  lemma LinksDropMiddle(doctrine: set<string>, nodes: seq<WikiNode>, a: seq<Lesson>, x: Lesson, b: seq<Lesson>)
    requires x.nodeId !in doctrine && forall y :: y in a + b ==> y.nodeId != x.nodeId && y.recipe != x.nodeId
    ensures DropEdges(AllLinks(doctrine, nodes, a + ([x] + b)), x.nodeId) == AllLinks(doctrine, nodes, a + b)
  {
    hide DropEdges, AllLinks, LinksOf, Touches;
    var id := x.nodeId;
    var p, q, r := AllLinks(doctrine, nodes, a), LinksOf(doctrine, nodes, x), AllLinks(doctrine, nodes, b);
    AllLinksJoin(doctrine, nodes, a, [x] + b);
    AllLinksJoin(doctrine, nodes, [x], b);
    AllLinksJoin(doctrine, nodes, a, b);
    LoneLinks(doctrine, nodes, x);
    DropEdgesJoin(p, q + r, id);
    DropEdgesJoin(q, r, id);
    forall y | y in a ensures y.nodeId != id && y.recipe != id { assert y in a + b; }
    forall y | y in b ensures y.nodeId != id && y.recipe != id { assert y in a + b; }
    LinksClear(doctrine, nodes, a, id);
    LinksClear(doctrine, nodes, b, id);
    DropEdgesNone(p, id);
    DropEdgesNone(r, id);
    LinksEnds(doctrine, nodes, x);
    DropEdgesAll(q, id);
    assert [] + r == r;
  }

  /** The links once record `k` is dropped, with more behind them that do not touch it. */
  lemma LinksDrop(doctrine: set<string>, base: Contents, memory: seq<Lesson>, k: nat, more: seq<WikiEdge>)
    requires k < |memory| && DistinctIds(memory) && Unmentioned(doctrine, base, memory[k].nodeId)
    requires forall y :: y in memory ==> y.recipe != memory[k].nodeId
    requires forall e :: e in more ==> !Touches(e, memory[k].nodeId)
    ensures DropEdges(base.edges + AllLinks(doctrine, base.nodes, memory) + more, memory[k].nodeId)
         == base.edges + AllLinks(doctrine, base.nodes, memory[..k] + memory[k + 1..]) + more
  {
    hide DropEdges, AllLinks, Touches;
    var id := memory[k].nodeId;
    var a, b := memory[..k], memory[k + 1..];
    forall y: Lesson | y in a + b ensures y.nodeId != id && y.recipe != id {
      if y in a {
        var i :| 0 <= i < k && memory[i] == y;
      } else {
        var i :| 0 <= i < |b| && b[i] == y;
        assert b[i] == memory[k + 1 + i];
      }
    }
    Around(memory, k);
    LinksDropMiddle(doctrine, base.nodes, a, memory[k], b);
    DropEdgesJoin(base.edges + AllLinks(doctrine, base.nodes, memory), more, id);
    DropEdgesJoin(base.edges, AllLinks(doctrine, base.nodes, memory), id);
    DropEdgesNone(base.edges, id);
    DropEdgesNone(more, id);
  }

  lemma ForgottenBatch(doctrine: set<string>, base: Contents, memory: seq<Lesson>, k: nat, more: seq<WikiEdge>)
    requires k < |memory| && DistinctIds(memory) && Unmentioned(doctrine, base, memory[k].nodeId)
    requires forall y :: y in memory ==> y.recipe != memory[k].nodeId
    requires forall e :: e in more ==> !Touches(e, memory[k].nodeId)
    requires !IsNode(base.nodes, memory[k].nodeId)
    ensures var g := Batch(doctrine, base, memory);
            var h := Batch(doctrine, base, memory[..k] + memory[k + 1..]);
            Forgotten(g.(edges := g.edges + more), k) == h.(edges := h.edges + more)
  {
    hide DropEdges, DropNode, AllLinks, Touches, IsNode;
    var g := Batch(doctrine, base, memory);
    LinksDrop(doctrine, base, memory, k, more);
    ForgottenRemembers(base, memory, g.(edges := g.edges + more), k);
  }

  lemma SupersedingBatch(doctrine: set<string>, base: Contents, memory: seq<Lesson>, key: string)
    requires Apart(doctrine, base, memory) && DistinctKeys(memory)
    ensures Superseding(Batch(doctrine, base, memory), key) == Batch(doctrine, base, Without(memory, key))
  {
    hide IsNode, Forgotten, Without, AllLinks, Unmentioned;
    var g := Batch(doctrine, base, memory);
    var k := SlotOf(g.learning, key);
    if k < 0 {
      WithoutNothing(memory, key);
    } else {
      WithoutAt(memory, k);
      assert memory[k] in memory;
      ForgottenBatch(doctrine, base, memory, k, []);
      assert g.edges + [] == g.edges;
      var h := Batch(doctrine, base, memory[..k] + memory[k + 1..]);
      assert h.edges + [] == h.edges;
    }
  }

  /** Learning nodes make no recipe and no atom known that the base does not know. */
  lemma KnownInBase(base: Contents, memory: seq<Lesson>, id: string)
    requires forall y :: y in memory ==> y.nodeId != id
    ensures IsNode(base.nodes + NodesOf(memory), id) == IsNode(base.nodes, id)
  {
    var all := base.nodes + NodesOf(memory);
    if IsNode(base.nodes, id) {
      var i :| 0 <= i < |base.nodes| && base.nodes[i].id == id;
      assert all[i].id == id;
    }
    if IsNode(all, id) {
      var i :| 0 <= i < |all| && all[i].id == id;
      if i >= |base.nodes| { assert memory[i - |base.nodes|] in memory; }
    }
  }

  lemma {:induction false} AtomEdgesSame(doctrine: set<string>, nodes: seq<WikiNode>, others: seq<WikiNode>, x: Lesson,
                                         n: nat)
    requires n <= |x.atoms| && forall id :: id in doctrine ==> IsNode(nodes, id) == IsNode(others, id)
    ensures AtomEdges(doctrine, nodes, x, n) == AtomEdges(doctrine, others, x, n)
  {
    hide IsNode;
    if n > 0 { AtomEdgesSame(doctrine, nodes, others, x, n - 1); }
  }

  /** A graph with no learning node in it, but for the links of one record still to come. */
  lemma JoinedBatch(doctrine: set<string>, base: Contents, memory: seq<Lesson>, x: Lesson)
    requires Apart(doctrine, base, memory + [x]) && DistinctKeys(memory)
    ensures var kept := Without(memory, x.key) + [x];
            Joined(Batch(doctrine, base, memory), x)
            == Contents(base.nodes + NodesOf(kept),
                        base.edges + AllLinks(doctrine, base.nodes, Without(memory, x.key))
                            + RecipeEdges(base.nodes, x),
                        SlotsOf(kept))
  {
    hide IsNode, Superseding, Without, AllLinks, Unmentioned;
    var kept := Without(memory, x.key);
    ApartFront(doctrine, base, memory, x);
    SupersedingBatch(doctrine, base, memory, x.key);
    WithoutMembers(memory, x.key);
    assert NodesOf(kept + [x]) == NodesOf(kept) + [NodeOf(x)];
    assert SlotsOf(kept + [x]) == SlotsOf(kept) + [Slot(x.nodeId, x.key)];
    forall y | y in kept + [x] ensures y.nodeId != x.recipe { assert y in memory + [x] && x in memory + [x]; }
    KnownInBase(base, kept + [x], x.recipe);
    assert base.nodes + NodesOf(kept) + [NodeOf(x)] == base.nodes + NodesOf(kept + [x]);
  }

  lemma ApartFront(doctrine: set<string>, base: Contents, memory: seq<Lesson>, x: Lesson)
    requires Apart(doctrine, base, memory + [x])
    ensures Apart(doctrine, base, memory)
  {
    hide IsNode, Unmentioned;
    IdsOfFront(memory, x);
    forall y | y in memory ensures y in memory + [x] { }
  }

  /** What one record leaves of a batch graph is the batch graph of what it leaves of the memory. */
  lemma AddedBatch(doctrine: set<string>, base: Contents, memory: seq<Lesson>, x: Lesson)
    requires Apart(doctrine, base, memory + [x]) && DistinctKeys(memory) && |memory| <= GRAPH_MEMORY_LIMIT
    ensures Added(doctrine, Batch(doctrine, base, memory), x)
         == Batch(doctrine, base, Remember(memory, x, GRAPH_MEMORY_LIMIT))
  {
    hide IsNode, Superseding, Evicted, Without, AllLinks, Unmentioned, RecipeEdges, AtomEdges, Forgotten, Touches;
    var g := Batch(doctrine, base, memory);
    var kept := Without(memory, x.key);
    var rest := Remember(memory, x, GRAPH_MEMORY_LIMIT);
    NewNode(base, memory, g, x);
    WithoutMembers(memory, x.key);
    JoinedBatch(doctrine, base, memory, x);
    EvictedBatch(doctrine, base, memory, x);
    var full := Evicted(Joined(g, x));
    forall id | id in doctrine ensures IsNode(full.nodes, id) == IsNode(base.nodes, id) {
      NotTheirs(doctrine, base, memory, x, rest, id);
      KnownInBase(base, rest, id);
    }
    AtomEdgesSame(doctrine, full.nodes, base.nodes, x, |x.atoms|);
    var front := rest[..|rest| - 1];
    assert rest == front + [x];
    LinksLast(doctrine, base.nodes, front, x);
  }

  lemma LinksLast(doctrine: set<string>, nodes: seq<WikiNode>, front: seq<Lesson>, x: Lesson)
    ensures AllLinks(doctrine, nodes, front + [x])
         == AllLinks(doctrine, nodes, front) + RecipeEdges(nodes, x) + AtomEdges(doctrine, nodes, x, |x.atoms|)
  {
    hide RecipeEdges, AtomEdges;
    assert (front + [x])[..|front|] == front;
  }

  /** No remembered record's id is an atom of the doctrine. */
  lemma NotTheirs(doctrine: set<string>, base: Contents, memory: seq<Lesson>, x: Lesson, rest: seq<Lesson>, id: string)
    requires Apart(doctrine, base, memory + [x]) && id in doctrine && rest == Remember(memory, x, GRAPH_MEMORY_LIMIT)
    ensures forall y :: y in rest ==> y.nodeId != id
  {
    hide IsNode, Without;
    WithoutMembers(memory, x.key);
    forall y | y in rest ensures y.nodeId != id {
      assert y in memory + [x];
      assert Unmentioned(doctrine, base, y.nodeId);
    }
  }

  lemma EvictedBatch(doctrine: set<string>, base: Contents, memory: seq<Lesson>, x: Lesson)
    requires Apart(doctrine, base, memory + [x]) && DistinctKeys(memory) && |memory| <= GRAPH_MEMORY_LIMIT
    ensures var rest := Remember(memory, x, GRAPH_MEMORY_LIMIT);
            rest != [] && rest[|rest| - 1] == x
            && Evicted(Joined(Batch(doctrine, base, memory), x))
            == Contents(base.nodes + NodesOf(rest),
                        base.edges + AllLinks(doctrine, base.nodes, rest[..|rest| - 1]) + RecipeEdges(base.nodes, x),
                        SlotsOf(rest))
  {
    hide IsNode, Superseding, Evicted, Without, AllLinks, Unmentioned, RecipeEdges, Joined, Forgotten;
    var kept := Without(memory, x.key);
    var joined := Joined(Batch(doctrine, base, memory), x);
    WithoutMembers(memory, x.key);
    JoinedBatch(doctrine, base, memory, x);
    if |kept + [x]| <= GRAPH_MEMORY_LIMIT {
      EvictedNone(joined);
      assert (kept + [x])[..|kept|] == kept;
    } else {
      EvictedOnce(joined);
      ApartKept(doctrine, base, memory, x);
      FirstForgotten(doctrine, base, kept, x);
      var rest := (kept + [x])[1..];
      assert rest == LastOf(kept + [x], GRAPH_MEMORY_LIMIT);
      assert rest == kept[1..] + [x];
      assert rest[..|rest| - 1] == kept[1..];
    }
  }

  /** Dropping the oldest of a full memory. */
  lemma FirstForgotten(doctrine: set<string>, base: Contents, kept: seq<Lesson>, x: Lesson)
    requires Apart(doctrine, base, kept + [x]) && kept != []
    ensures Forgotten(Contents(base.nodes + NodesOf(kept + [x]),
                               base.edges + AllLinks(doctrine, base.nodes, kept) + RecipeEdges(base.nodes, x),
                               SlotsOf(kept + [x])), 0)
            == Contents(base.nodes + NodesOf((kept + [x])[1..]),
                        base.edges + AllLinks(doctrine, base.nodes, kept[1..]) + RecipeEdges(base.nodes, x),
                        SlotsOf((kept + [x])[1..]))
  {
    hide AllLinks, RecipeEdges, DropEdges, Forgotten, Apart;
    var edges := base.edges + AllLinks(doctrine, base.nodes, kept) + RecipeEdges(base.nodes, x);
    FirstLinks(doctrine, base, kept, x);
    FirstNode(doctrine, base, kept, x);
    assert SlotsOf(kept + [x])[0] == Slot(kept[0].nodeId, kept[0].key);
    ForgetParts(base.nodes + NodesOf(kept + [x]), edges, SlotsOf(kept + [x]));
  }

  lemma FirstLinks(doctrine: set<string>, base: Contents, kept: seq<Lesson>, x: Lesson)
    requires Apart(doctrine, base, kept + [x]) && kept != []
    ensures DropEdges(base.edges + AllLinks(doctrine, base.nodes, kept) + RecipeEdges(base.nodes, x), kept[0].nodeId)
         == base.edges + AllLinks(doctrine, base.nodes, kept[1..]) + RecipeEdges(base.nodes, x)
  {
    hide *;
    OldestApart(doctrine, base, kept, x);
    RecipeClear(base.nodes, x, kept[0].nodeId);
    LinksDrop(doctrine, base, kept, 0, RecipeEdges(base.nodes, x));
    FirstGone(kept);
  }

  lemma FirstNode(doctrine: set<string>, base: Contents, kept: seq<Lesson>, x: Lesson)
    requires Apart(doctrine, base, kept + [x]) && kept != []
    ensures Remembers(base, (kept + [x])[1..],
                      Forgotten(Contents(base.nodes + NodesOf(kept + [x]), [], SlotsOf(kept + [x])), 0))
  {
    hide IsNode, Forgotten, Unmentioned;
    OldestApart(doctrine, base, kept, x);
    assert (kept + [x])[0] == kept[0];
    ForgottenRemembers(base, kept + [x], Contents(base.nodes + NodesOf(kept + [x]), [], SlotsOf(kept + [x])), 0);
    FirstGone(kept + [x]);
  }

  lemma OldestApart(doctrine: set<string>, base: Contents, kept: seq<Lesson>, x: Lesson)
    requires Apart(doctrine, base, kept + [x]) && kept != []
    ensures DistinctIds(kept) && Unmentioned(doctrine, base, kept[0].nodeId) && !IsNode(base.nodes, kept[0].nodeId)
    ensures x.nodeId != kept[0].nodeId && x.recipe != kept[0].nodeId
    ensures forall y :: y in kept ==> y.recipe != kept[0].nodeId
  {
    hide IsNode, Unmentioned;
    var all := kept + [x];
    IdsOfFront(kept, x);
    assert kept[0] in kept && kept[0] in all && x in all;
    forall y | y in kept ensures y.recipe != kept[0].nodeId { assert y in all; }
  }

  lemma FirstGone(xs: seq<Lesson>)
    requires xs != []
    ensures xs[..0] + xs[1..] == xs[1..]
  {
  }

  /** What is forgotten of nodes and memory does not depend on the edges. */
  lemma ForgetParts(nodes: seq<WikiNode>, edges: seq<WikiEdge>, learning: seq<Slot>)
    requires learning != []
    ensures var g, h := Forgotten(Contents(nodes, edges, learning), 0), Forgotten(Contents(nodes, [], learning), 0);
            g.nodes == h.nodes && g.learning == h.learning && g.edges == DropEdges(edges, learning[0].id)
  {
  }

  lemma RecipeClear(nodes: seq<WikiNode>, x: Lesson, id: string)
    requires x.nodeId != id && x.recipe != id
    ensures forall e :: e in RecipeEdges(nodes, x) ==> !Touches(e, id)
  {
    hide IsNode;
  }

  lemma ApartKept(doctrine: set<string>, base: Contents, memory: seq<Lesson>, x: Lesson)
    requires Apart(doctrine, base, memory + [x]) && DistinctKeys(memory)
    ensures Apart(doctrine, base, Without(memory, x.key) + [x])
  {
    hide IsNode, Without, Unmentioned, DistinctKeys;
    var kept := Without(memory, x.key);
    IdsOfFront(memory, x);
    WithoutMembers(memory, x.key);
    KeptDistinct(memory, x.key);
    KeptIds(memory, kept, x);
    forall y | y in kept + [x] ensures y in memory + [x] { }
  }

  lemma KeptDistinct(memory: seq<Lesson>, key: string)
    requires DistinctIds(memory) && DistinctKeys(memory)
    ensures DistinctIds(Without(memory, key))
  {
    hide Without;
    if k :| 0 <= k < |memory| && memory[k].key == key {
      WithoutAt(memory, k);
    } else {
      WithoutNothing(memory, key);
    }
  }

  lemma EffectiveApart(doctrine: set<string>, base: Contents, xs: seq<Lesson>, x: Lesson)
    requires Apart(doctrine, base, xs + [x])
    ensures Apart(doctrine, base, xs) && Apart(doctrine, base, Effective(xs, GRAPH_MEMORY_LIMIT) + [x])
  {
    hide IsNode, Effective, Unmentioned, Separate;
    EffectiveMembers(xs, GRAPH_MEMORY_LIMIT);
    EffectiveSeparate(base, xs, x);
    forall y | y in xs ensures y in xs + [x] { }
    forall y | y in Effective(xs, GRAPH_MEMORY_LIMIT) + [x] ensures y in xs + [x] { }
  }

  /** After any history of records apart from the base graph, the graph built record by record is the graph
      built at once from the effective records: nodes, links and memory, in order. */
  lemma {:induction false} GraphIsBatch(doctrine: set<string>, base: Contents, xs: seq<Lesson>)
    requires Apart(doctrine, base, xs)
    ensures AddedAll(doctrine, base, xs) == Batch(doctrine, base, Effective(xs, 256))
  {
    hide Effective, Added, Remember, Apart, Batch;
    if xs == [] {
      NothingBatched(doctrine, base, xs);
    } else {
      var front, last := xs[..|xs| - 1], xs[|xs| - 1];
      assert xs == front + [last];
      EffectiveApart(doctrine, base, front, last);
      GraphIsBatch(doctrine, base, front);
      EffectiveMembers(front, GRAPH_MEMORY_LIMIT);
      EffectiveStep(front, last, GRAPH_MEMORY_LIMIT);
      AddedBatch(doctrine, base, Effective(front, GRAPH_MEMORY_LIMIT), last);
    }
  }

  lemma NothingBatched(doctrine: set<string>, base: Contents, xs: seq<Lesson>)
    requires xs == [] && Apart(doctrine, base, xs)
    ensures Batch(doctrine, base, Effective(xs, GRAPH_MEMORY_LIMIT)) == base
  {
    assert Effective(xs, GRAPH_MEMORY_LIMIT) == [];
    assert NodesOf([]) == [] && SlotsOf([]) == [] && AllLinks(doctrine, base.nodes, []) == [];
  }

  // ---- what every record keeps, of any graph ----

  /** No id twice, no edge to a missing node, and every slot of the memory holds a node of its own. */
  ghost predicate WellLinked(g: Contents) {
    && UniqueNodes(g.nodes)
    && (forall e :: e in g.edges ==> IsNode(g.nodes, e.source) && IsNode(g.nodes, e.target))
    && (forall s :: s in g.learning ==> IsNode(g.nodes, s.id))
    && (forall i, j :: 0 <= i < j < |g.learning| ==> g.learning[i].id != g.learning[j].id)
  }

  lemma {:induction false} DropNodeMembers(nodes: seq<WikiNode>, id: string)
    ensures forall n :: n in DropNode(nodes, id) <==> n in nodes && n.id != id
  {
    if nodes != [] {
      DropNodeMembers(nodes[..|nodes| - 1], id);
      assert nodes == nodes[..|nodes| - 1] + [nodes[|nodes| - 1]];
    }
  }

  lemma {:induction false} DropEdgesMembers(edges: seq<WikiEdge>, id: string)
    ensures forall e :: e in DropEdges(edges, id) <==> e in edges && !Touches(e, id)
  {
    hide Touches;
    if edges != [] {
      DropEdgesMembers(edges[..|edges| - 1], id);
      assert edges == edges[..|edges| - 1] + [edges[|edges| - 1]];
    }
  }

  lemma NodeAmong(nodes: seq<WikiNode>, id: string)
    ensures IsNode(nodes, id) <==> exists n :: n in nodes && n.id == id
  {
    if IsNode(nodes, id) {
      var i :| 0 <= i < |nodes| && nodes[i].id == id;
      assert nodes[i] in nodes;
    }
  }

  lemma StillNode(nodes: seq<WikiNode>, dropped: string, id: string)
    requires IsNode(nodes, id) && id != dropped
    ensures IsNode(DropNode(nodes, dropped), id)
  {
    hide IsNode, DropNode;
    DropNodeMembers(nodes, dropped);
    NodeAmong(nodes, id);
    NodeAmong(DropNode(nodes, dropped), id);
  }

  ghost predicate UniqueNodes(nodes: seq<WikiNode>) {
    forall i, j :: 0 <= i < j < |nodes| ==> nodes[i].id != nodes[j].id
  }

  lemma {:induction false} DropNodeUnique(nodes: seq<WikiNode>, id: string)
    requires UniqueNodes(nodes)
    ensures UniqueNodes(DropNode(nodes, id))
  {
    if nodes != [] {
      var front, last := nodes[..|nodes| - 1], nodes[|nodes| - 1];
      DropNodeUnique(front, id);
      DropNodeMembers(front, id);
      var kept := DropNode(front, id);
      forall i | 0 <= i < |kept| ensures kept[i].id != last.id {
        assert kept[i] in kept;
        var j :| 0 <= j < |front| && front[j] == kept[i];
        assert nodes[j] == front[j];
      }
      assert UniqueNodes(kept + [last]);
    }
  }

  lemma ForgottenLinked(g: Contents, k: nat)
    requires WellLinked(g) && k < |g.learning|
    ensures WellLinked(Forgotten(g, k))
  {
    hide IsNode, DropNode, DropEdges, UniqueNodes;
    var id := g.learning[k].id;
    var h := Forgotten(g, k);
    DropNodeUnique(g.nodes, id);
    DropEdgesMembers(g.edges, id);
    forall e | e in h.edges ensures IsNode(h.nodes, e.source) && IsNode(h.nodes, e.target) {
      StillNode(g.nodes, id, e.source);
      StillNode(g.nodes, id, e.target);
    }
    forall s | s in h.learning ensures IsNode(h.nodes, s.id) {
      var i :| 0 <= i < |h.learning| && h.learning[i] == s;
      assert s == g.learning[if i < k then i else i + 1];
      StillNode(g.nodes, id, s.id);
    }
    forall i, j | 0 <= i < j < |h.learning| ensures h.learning[i].id != h.learning[j].id {
      assert h.learning[i] == g.learning[if i < k then i else i + 1];
      assert h.learning[j] == g.learning[if j < k then j else j + 1];
    }
  }

  /** Eviction stops before the newest slot. */
  lemma {:induction false} EvictedLinked(g: Contents)
    requires WellLinked(g) && g.learning != []
    ensures WellLinked(Evicted(g)) && |Evicted(g).learning| <= GRAPH_MEMORY_LIMIT
    ensures g.learning[|g.learning| - 1] in Evicted(g).learning
    decreases |g.learning|
  {
    hide WellLinked, DropNode, DropEdges;
    if |g.learning| > GRAPH_MEMORY_LIMIT {
      ForgottenLinked(g, 0);
      var h := Forgotten(g, 0);
      assert h.learning == g.learning[1..];
      assert h.learning[|h.learning| - 1] == g.learning[|g.learning| - 1];
      EvictedLinked(h);
    }
  }

  lemma JoinedLinked(g: Contents, x: Lesson)
    requires WellLinked(g) && !IsNode(g.nodes, x.nodeId)
    ensures WellLinked(Joined(g, x))
  {
    hide IsNode, Forgotten, DropNode, DropEdges;
    var free := Superseding(g, x.key);
    if SlotOf(g.learning, x.key) >= 0 { ForgottenLinked(g, SlotOf(g.learning, x.key)); }
    NotRevived(g, x);
    PushedLinked(free, x);
  }

  lemma NotRevived(g: Contents, x: Lesson)
    requires !IsNode(g.nodes, x.nodeId)
    ensures !IsNode(Superseding(g, x.key).nodes, x.nodeId)
  {
    hide IsNode, DropNode, DropEdges;
    var k := SlotOf(g.learning, x.key);
    if k >= 0 {
      DropNodeMembers(g.nodes, g.learning[k].id);
      NodeAmong(g.nodes, x.nodeId);
      NodeAmong(DropNode(g.nodes, g.learning[k].id), x.nodeId);
    }
  }

  lemma NodeOfMore(nodes: seq<WikiNode>, n: WikiNode, id: string)
    ensures IsNode(nodes + [n], id) <==> IsNode(nodes, id) || n.id == id
  {
    var all := nodes + [n];
    assert all[|nodes|] == n;
    if IsNode(nodes, id) {
      var i :| 0 <= i < |nodes| && nodes[i].id == id;
      assert all[i].id == id;
    }
  }

  lemma PushedLinked(g: Contents, x: Lesson)
    requires WellLinked(g) && !IsNode(g.nodes, x.nodeId)
    ensures var nodes := g.nodes + [NodeOf(x)];
            WellLinked(Contents(nodes, g.edges + RecipeEdges(nodes, x), g.learning + [Slot(x.nodeId, x.key)]))
  {
    var nodes := g.nodes + [NodeOf(x)];
    forall i | 0 <= i < |g.nodes| ensures g.nodes[i].id != x.nodeId { }
    hide IsNode;
    forall id ensures IsNode(nodes, id) <==> IsNode(g.nodes, id) || x.nodeId == id {
      NodeOfMore(g.nodes, NodeOf(x), id);
    }
    forall s | s in g.learning ensures s.id != x.nodeId { }
  }

  /** Adding any record to a well-linked graph leaves it well linked, within its limit. */
  lemma AddedLinked(doctrine: set<string>, g: Contents, x: Lesson)
    requires WellLinked(g) && |g.learning| <= 256
    ensures WellLinked(Added(doctrine, g, x)) && |Added(doctrine, g, x).learning| <= 256
  {
    hide IsNode, Superseding, RecipeEdges, Evicted;
    if x.valid && !IsNode(g.nodes, x.nodeId) {
      JoinedLinked(g, x);
      var joined := Joined(g, x);
      EvictedLinked(joined);
      var full := Evicted(joined);
      assert Slot(x.nodeId, x.key) in full.learning;
      AtomEdgesEnds(doctrine, full.nodes, x, |x.atoms|);
    }
  }

  // ---- the memory alone, of any graph ----

  lemma SupersedingSlots(g: Contents, memory: seq<Lesson>, key: string)
    requires g.learning == SlotsOf(memory) && DistinctKeys(memory)
    ensures Superseding(g, key).learning == SlotsOf(Without(memory, key))
  {
    hide Without, DropNode, DropEdges;
    var k := SlotOf(g.learning, key);
    if k < 0 { WithoutNothing(memory, key); } else { WithoutAt(memory, k); }
  }

  lemma EvictedSlots(g: Contents, memory: seq<Lesson>)
    requires g.learning == SlotsOf(memory) && |memory| <= GRAPH_MEMORY_LIMIT + 1
    ensures Evicted(g).learning == SlotsOf(LastOf(memory, GRAPH_MEMORY_LIMIT))
  {
    hide Evicted, DropNode, DropEdges;
    if |memory| > GRAPH_MEMORY_LIMIT { EvictedOnce(g); } else { EvictedNone(g); }
  }

  /** Whatever else the graph holds, the slots take the incremental step. */
  lemma AddedSlots(doctrine: set<string>, g: Contents, memory: seq<Lesson>, x: Lesson)
    requires x.valid && !IsNode(g.nodes, x.nodeId)
    requires g.learning == SlotsOf(memory) && DistinctKeys(memory) && |memory| <= GRAPH_MEMORY_LIMIT
    ensures Added(doctrine, g, x).learning == SlotsOf(Remember(memory, x, GRAPH_MEMORY_LIMIT))
  {
    hide IsNode, Superseding, Evicted, Without, RecipeEdges, AtomEdges;
    SupersedingSlots(g, memory, x.key);
    WithoutMembers(memory, x.key);
    assert SlotsOf(Without(memory, x.key) + [x]) == SlotsOf(Without(memory, x.key)) + [Slot(x.nodeId, x.key)];
    EvictedSlots(Joined(g, x), Without(memory, x.key) + [x]);
  }

  lemma {:induction false} EvictedNodes(g: Contents, id: string)
    requires !IsNode(g.nodes, id)
    ensures !IsNode(Evicted(g).nodes, id)
    decreases |g.learning|
  {
    hide IsNode, DropNode, DropEdges;
    if |g.learning| > GRAPH_MEMORY_LIMIT {
      DropNodeMembers(g.nodes, g.learning[0].id);
      NodeAmong(g.nodes, id);
      NodeAmong(DropNode(g.nodes, g.learning[0].id), id);
      EvictedNodes(Forgotten(g, 0), id);
    }
  }

  /** A record brings no node but its own. */
  lemma AddedNodes(doctrine: set<string>, g: Contents, x: Lesson, id: string)
    requires !IsNode(g.nodes, id) && id != x.nodeId
    ensures !IsNode(Added(doctrine, g, x).nodes, id)
  {
    hide IsNode, Superseding, Evicted, RecipeEdges, AtomEdges;
    NotRevived(g, x.(nodeId := id));
    NodeOfMore(Superseding(g, x.key).nodes, NodeOf(x), id);
    EvictedNodes(Joined(g, x), id);
  }

  lemma ProvedNodes(g: Contents, p: ProofNote, id: string)
    requires !IsNode(g.nodes, id) && id != p.nodeId
    ensures !IsNode(Proved(g, p).nodes, id) && Proved(g, p).learning == g.learning
  {
    hide IsNode;
    NodeOfMore(g.nodes, WikiNode(p.nodeId, p.title, p.excerpt, p.tags), id);
  }
}
