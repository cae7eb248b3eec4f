/** Depth-bounded search over the wiki graph's relationships, which are walked in either direction. */
module GraphSearch {
  import opened Graph

  /** The other end of an edge at a node. */
  function Across(e: WikiEdge, node: string): string {
    if e.source == node then e.target else e.source
  }

  ghost predicate Adjacent(edges: seq<WikiEdge>, a: string, b: string) {
    exists i :: 0 <= i < |edges| && Touches(edges[i], a) && Across(edges[i], a) == b
  }

  ghost predicate IsPath(edges: seq<WikiEdge>, path: seq<string>) {
    path != [] && forall i :: 0 <= i < |path| - 1 ==> Adjacent(edges, path[i], path[i + 1])
  }

  ghost predicate Joins(edges: seq<WikiEdge>, path: seq<string>, a: string, b: string, depth: nat) {
    IsPath(edges, path) && path[0] == a && path[|path| - 1] == b && |path| - 1 <= depth
  }

  /** Some path of at most `depth` edges leads from `a` to `b`. */
  ghost predicate Related(edges: seq<WikiEdge>, a: string, b: string, depth: nat) {
    exists path :: Joins(edges, path, a, b, depth)
  }

  /** A node waiting to be visited at a depth. */
  datatype Visit = Visit(node: string, depth: nat)

  /** The node was visited, or waits to be, at this depth or before. */
  ghost predicate Covered(visited: map<string, nat>, queue: seq<Visit>, node: string, depth: nat) {
    (node in visited && visited[node] <= depth) || Waiting(queue, node, depth)
  }

  ghost predicate Waiting(queue: seq<Visit>, node: string, depth: nat) {
    exists i :: 0 <= i < |queue| && queue[i].node == node && queue[i].depth <= depth
  }

  /** Everything next to a visited node that was expanded is covered one deeper, and is not the goal. */
  ghost predicate Expanded(edges: seq<WikiEdge>, visited: map<string, nat>, queue: seq<Visit>, goal: string,
                           node: string, depth: nat, n: nat)
    requires n <= |edges|
  {
    forall i :: 0 <= i < n && Touches(edges[i], node) ==>
      Across(edges[i], node) != goal && Covered(visited, queue, Across(edges[i], node), depth + 1)
  }

  /** First in, first out: depths rise by at most one along the queue, and nothing visited is deeper. */
  ghost predicate Level(visited: map<string, nat>, queue: seq<Visit>, level: nat) {
    && (forall i :: 0 <= i < |queue| ==> level <= queue[i].depth <= level + 1)
    && (forall i, j :: 0 <= i < j < |queue| ==> queue[i].depth <= queue[j].depth)
    && (forall v :: v in visited ==> visited[v] <= level)
  }

  /** Waiting nodes are really related to the start, and none is the goal. */
  ghost predicate Sound(edges: seq<WikiEdge>, start: string, goal: string, queue: seq<Visit>) {
    forall i :: 0 <= i < |queue| ==> queue[i].node != goal && Related(edges, start, queue[i].node, queue[i].depth)
  }

  /** All nodes the search can meet. */
  ghost function Universe(edges: seq<WikiEdge>, start: string): set<string> {
    {start} + (set i | 0 <= i < |edges| :: edges[i].source) + (set i | 0 <= i < |edges| :: edges[i].target)
  }

  ghost predicate Known(edges: seq<WikiEdge>, start: string, queue: seq<Visit>) {
    forall i :: 0 <= i < |queue| ==> queue[i].node in Universe(edges, start)
  }

  /** All visited nodes above the depth bound, but the one at hand, are expanded. */
  ghost predicate AllExpanded(edges: seq<WikiEdge>, visited: map<string, nat>, queue: seq<Visit>, goal: string,
                              bound: nat, but: set<string>)
  {
    forall v :: v in visited && v !in but && visited[v] < bound ==>
      Expanded(edges, visited, queue, goal, v, visited[v], |edges|)
  }

  // ---- one step of the queue ----

  /** Covering survives taking the head once its node is visited no deeper, and adding at the end. */
  lemma CoveredKept(visited: map<string, nat>, queue: seq<Visit>, more: map<string, nat>, rest: seq<Visit>)
    requires queue != [] && queue[1..] <= rest
    requires forall v :: v in visited ==> v in more && more[v] <= visited[v]
    requires queue[0].node in more && more[queue[0].node] <= queue[0].depth
    ensures forall node, depth :: Covered(visited, queue, node, depth) ==> Covered(more, rest, node, depth)
  {
    forall node, depth | Covered(visited, queue, node, depth) ensures Covered(more, rest, node, depth) {
      if !(node in visited && visited[node] <= depth) {
        var i :| 0 <= i < |queue| && queue[i].node == node && queue[i].depth <= depth;
        if i > 0 { assert rest[i - 1] == queue[1..][i - 1] == queue[i]; }
      }
    }
  }

  lemma CoveredMore(visited: map<string, nat>, queue: seq<Visit>, v: Visit)
    ensures forall node, depth :: Covered(visited, queue, node, depth) ==> Covered(visited, queue + [v], node, depth)
    ensures Covered(visited, queue + [v], v.node, v.depth)
  {
    var more := queue + [v];
    assert more[|queue|] == v;
    forall node, depth | Covered(visited, queue, node, depth) ensures Covered(visited, more, node, depth) {
      if !(node in visited && visited[node] <= depth) {
        var i :| 0 <= i < |queue| && queue[i].node == node && queue[i].depth <= depth;
        assert more[i] == queue[i];
      }
    }
  }

  lemma RelatedStep(edges: seq<WikiEdge>, start: string, node: string, depth: nat, i: nat)
    requires Related(edges, start, node, depth) && i < |edges| && Touches(edges[i], node)
    ensures Related(edges, start, Across(edges[i], node), depth + 1)
  {
    var path :| Joins(edges, path, start, node, depth);
    var next := Across(edges[i], node);
    var longer := path + [next];
    forall j | 0 <= j < |longer| - 1 ensures Adjacent(edges, longer[j], longer[j + 1]) {
      if j < |path| - 1 { assert Adjacent(edges, path[j], path[j + 1]); }
    }
    assert Joins(edges, longer, start, next, depth + 1);
  }

  lemma SelfRelated(edges: seq<WikiEdge>, node: string)
    ensures Related(edges, node, node, 0)
  {
    assert Joins(edges, [node], node, node, 0);
  }

  lemma RelatedLonger(edges: seq<WikiEdge>, a: string, b: string, depth: nat, more: nat)
    requires Related(edges, a, b, depth) && depth <= more
    ensures Related(edges, a, b, more)
  {
    var path :| Joins(edges, path, a, b, depth);
    assert Joins(edges, path, a, b, more);
  }

  /** With nothing waiting, every node within the bound was visited no deeper than its distance. */
  lemma {:induction false} Visited(edges: seq<WikiEdge>, visited: map<string, nat>, goal: string, bound: nat,
                                   path: seq<string>, k: nat)
    requires IsPath(edges, path) && |path| - 1 <= bound && k < |path|
    requires Covered(visited, [], path[0], 0) && AllExpanded(edges, visited, [], goal, bound, {})
    ensures path[k] in visited && visited[path[k]] <= k
  {
    if k > 0 {
      var before := path[k - 1];
      Visited(edges, visited, goal, bound, path, k - 1);
      assert Expanded(edges, visited, [], goal, before, visited[before], |edges|);
      assert Adjacent(edges, before, path[k - 1 + 1]);
      var i :| 0 <= i < |edges| && Touches(edges[i], before) && Across(edges[i], before) == path[k];
      assert Covered(visited, [], path[k], visited[before] + 1);
    }
  }

  lemma Unrelated(edges: seq<WikiEdge>, visited: map<string, nat>, start: string, goal: string, bound: nat)
    requires Covered(visited, [], start, 0) && AllExpanded(edges, visited, [], goal, bound, {}) && goal !in visited
    ensures !Related(edges, start, goal, bound)
  {
    if Related(edges, start, goal, bound) {
      var path :| Joins(edges, path, start, goal, bound);
      Visited(edges, visited, goal, bound, path, |path| - 1);
    }
  }

  /** `has_relationship_path`: breadth first, each node expanded once, at its least depth. */
  method HasRelationshipPath(edges: seq<WikiEdge>, start: string, goal: string, maxDepth: nat) returns (found: bool)
    ensures found <==> Related(edges, start, goal, maxDepth)
  {
    hide *;
    SelfRelated(edges, start);
    if start == goal {
      RelatedLonger(edges, start, goal, 0, maxDepth);
      return true;
    }
    var seen: set<string> := {};
    var queue := [Visit(start, 0)];
    ghost var visited: map<string, nat> := map[];
    ghost var level: nat := 0;
    SearchStarts(edges, start, goal, maxDepth);
    NoNodes();
    while queue != []
      invariant SameNodes(visited, seen)
      invariant Search(edges, start, goal, maxDepth, visited, queue, level, {})
      decreases Unseen(edges, start, seen), |queue|
    {
      var visit := queue[0];
      SameNode(visited, seen, visit.node);
      if visit.node in seen {
        SearchSkips(edges, start, goal, maxDepth, visited, queue, level);
        queue := queue[1..];
        continue;
      }
      SearchVisits(edges, start, goal, maxDepth, visited, queue, level);
      FewerUnseen(edges, start, seen, visit.node);
      SameNodesMore(visited, seen, visit);
      seen := seen + {visit.node};
      visited := visited[visit.node := visit.depth];
      level := visit.depth;
      queue := queue[1..];
      if visit.depth >= maxDepth {
        SearchBounded(edges, start, goal, maxDepth, visited, queue, level, visit.node);
        continue;
      }
      found, queue := Expand(edges, start, goal, maxDepth, visit, queue, visited);
      if found {
        RelatedLonger(edges, start, goal, visit.depth + 1, maxDepth);
        return;
      }
      SearchExpanded(edges, start, goal, maxDepth, visited, queue, level, visit);
    }
    SearchEnds(edges, start, goal, maxDepth, visited, level);
    found := false;
  }

  ghost predicate SameNodes(visited: map<string, nat>, seen: set<string>) {
    visited.Keys == seen
  }

  lemma NoNodes()
    ensures SameNodes(map[], {})
  {
  }

  lemma SameNode(visited: map<string, nat>, seen: set<string>, node: string)
    requires SameNodes(visited, seen)
    ensures node in visited <==> node in seen
  {
  }

  lemma SameNodesMore(visited: map<string, nat>, seen: set<string>, visit: Visit)
    requires SameNodes(visited, seen)
    ensures SameNodes(visited[visit.node := visit.depth], seen + {visit.node})
  {
  }

  ghost function Unseen(edges: seq<WikiEdge>, start: string, seen: set<string>): nat {
    |Universe(edges, start) - seen|
  }

  lemma FewerUnseen(edges: seq<WikiEdge>, start: string, seen: set<string>, node: string)
    requires node in Universe(edges, start) && node !in seen
    ensures Unseen(edges, start, seen + {node}) < Unseen(edges, start, seen)
  {
    hide Universe;
    var all := Universe(edges, start);
    assert all - seen == (all - (seen + {node})) + {node};
  }

  /** The neighbours of a node join the queue, unless one is the goal. */
  method Expand(edges: seq<WikiEdge>, start: string, goal: string, maxDepth: nat, visit: Visit, waiting: seq<Visit>,
                ghost visited: map<string, nat>) returns (found: bool, queue: seq<Visit>)
    requires Search(edges, start, goal, maxDepth, visited, waiting, visit.depth, {visit.node})
    requires visit.node in visited && visited[visit.node] == visit.depth
    ensures found ==> Related(edges, start, goal, visit.depth + 1)
    ensures !found ==> Search(edges, start, goal, maxDepth, visited, queue, visit.depth, {visit.node})
                       && Expanded(edges, visited, queue, goal, visit.node, visit.depth, |edges|)
  {
    hide *;
    queue := waiting;
    ExpandedNone(edges, visited, queue, goal, visit.node, visit.depth);
    for i := 0 to |edges|
      invariant Search(edges, start, goal, maxDepth, visited, queue, visit.depth, {visit.node})
      invariant Expanded(edges, visited, queue, goal, visit.node, visit.depth, i)
    {
      if edges[i].source == visit.node || edges[i].target == visit.node {
        var next := Across(edges[i], visit.node);
        SearchReaches(edges, start, goal, maxDepth, visited, queue, visit.depth, visit, i);
        if next == goal { return true, queue; }
        SearchPushes(edges, start, goal, maxDepth, visited, queue, visit.depth, visit, i);
        queue := queue + [Visit(next, visit.depth + 1)];
      } else {
        ExpandedPast(edges, visited, queue, goal, visit, i);
      }
    }
    found := false;
  }

  /** What holds while the search runs; `but` holds the node being expanded. */
  ghost predicate Search(edges: seq<WikiEdge>, start: string, goal: string, bound: nat, visited: map<string, nat>,
                         queue: seq<Visit>, level: nat, but: set<string>)
  {
    && Level(visited, queue, level) && Sound(edges, start, goal, queue) && Known(edges, start, queue)
    && goal !in visited && visited.Keys <= Universe(edges, start)
    && (forall v :: v in visited ==> Related(edges, start, v, visited[v]))
    && Covered(visited, queue, start, 0)
    && AllExpanded(edges, visited, queue, goal, bound, but)
  }

  lemma SearchStarts(edges: seq<WikiEdge>, start: string, goal: string, bound: nat)
    requires start != goal
    ensures Search(edges, start, goal, bound, map[], [Visit(start, 0)], 0, {})
  {
    SelfRelated(edges, start);
    assert Waiting([Visit(start, 0)], start, 0) by { assert [Visit(start, 0)][0] == Visit(start, 0); }
  }

  lemma ExpandedKept(edges: seq<WikiEdge>, visited: map<string, nat>, queue: seq<Visit>, more: map<string, nat>,
                     rest: seq<Visit>, goal: string, node: string, depth: nat, n: nat)
    requires n <= |edges| && Expanded(edges, visited, queue, goal, node, depth, n)
    requires forall v, k :: Covered(visited, queue, v, k) ==> Covered(more, rest, v, k)
    ensures Expanded(edges, more, rest, goal, node, depth, n)
  {
  }

  /** A head that was seen before is dropped. */
  lemma SearchSkips(edges: seq<WikiEdge>, start: string, goal: string, bound: nat, visited: map<string, nat>,
                    queue: seq<Visit>, level: nat)
    requires queue != [] && queue[0].node in visited && Search(edges, start, goal, bound, visited, queue, level, {})
    ensures Search(edges, start, goal, bound, visited, queue[1..], level, {})
  {
    hide Related, Expanded, Covered, Universe;
    CoveredKept(visited, queue, visited, queue[1..]);
    forall v | v in visited && visited[v] < bound
      ensures Expanded(edges, visited, queue[1..], goal, v, visited[v], |edges|)
    {
      ExpandedKept(edges, visited, queue, visited, queue[1..], goal, v, visited[v], |edges|);
    }
  }

  /** A new head is visited at the depth it waited for; it is still to be expanded. */
  lemma SearchVisits(edges: seq<WikiEdge>, start: string, goal: string, bound: nat, visited: map<string, nat>,
                     queue: seq<Visit>, level: nat)
    requires queue != [] && queue[0].node !in visited && Search(edges, start, goal, bound, visited, queue, level, {})
    ensures var visit := queue[0];
            && Search(edges, start, goal, bound, visited[visit.node := visit.depth], queue[1..], visit.depth,
                      {visit.node})
            && visit.node in Universe(edges, start)
  {
    hide Related, Expanded, Covered, Universe;
    var visit := queue[0];
    var more := visited[visit.node := visit.depth];
    CoveredKept(visited, queue, more, queue[1..]);
    forall v | v in visited && visited[v] < bound
      ensures Expanded(edges, more, queue[1..], goal, v, visited[v], |edges|)
    {
      ExpandedKept(edges, visited, queue, more, queue[1..], goal, v, visited[v], |edges|);
    }
  }

  /** A node at the bound needs no expansion. */
  lemma SearchBounded(edges: seq<WikiEdge>, start: string, goal: string, bound: nat, visited: map<string, nat>,
                      queue: seq<Visit>, level: nat, node: string)
    requires Search(edges, start, goal, bound, visited, queue, level, {node}) && node in visited
             && visited[node] >= bound
    ensures Search(edges, start, goal, bound, visited, queue, level, {})
  {
    hide Related, Expanded, Covered, Universe, Level, Sound, Known;
  }

  lemma ExpandedNone(edges: seq<WikiEdge>, visited: map<string, nat>, queue: seq<Visit>, goal: string, node: string,
                     depth: nat)
    ensures Expanded(edges, visited, queue, goal, node, depth, 0)
  {
  }

  lemma ExpandedPast(edges: seq<WikiEdge>, visited: map<string, nat>, queue: seq<Visit>, goal: string, visit: Visit,
                     i: nat)
    requires i < |edges| && Expanded(edges, visited, queue, goal, visit.node, visit.depth, i)
    requires edges[i].source != visit.node && edges[i].target != visit.node
    ensures Expanded(edges, visited, queue, goal, visit.node, visit.depth, i + 1)
  {
  }

  lemma SearchReaches(edges: seq<WikiEdge>, start: string, goal: string, bound: nat, visited: map<string, nat>,
                      queue: seq<Visit>, level: nat, visit: Visit, i: nat)
    requires Search(edges, start, goal, bound, visited, queue, level, {visit.node}) && i < |edges|
    requires visit.node in visited && visited[visit.node] == visit.depth
    requires edges[i].source == visit.node || edges[i].target == visit.node
    ensures Touches(edges[i], visit.node) && Related(edges, start, Across(edges[i], visit.node), visit.depth + 1)
    ensures Across(edges[i], visit.node) in Universe(edges, start)
  {
    hide Related, AllExpanded, Covered;
    RelatedStep(edges, start, visit.node, visit.depth, i);
  }

  lemma SearchPushes(edges: seq<WikiEdge>, start: string, goal: string, bound: nat, visited: map<string, nat>,
                     queue: seq<Visit>, level: nat, visit: Visit, i: nat)
    requires Search(edges, start, goal, bound, visited, queue, level, {visit.node}) && i < |edges|
             && level == visit.depth
    requires Expanded(edges, visited, queue, goal, visit.node, visit.depth, i)
    requires Touches(edges[i], visit.node) && Across(edges[i], visit.node) != goal
    requires Related(edges, start, Across(edges[i], visit.node), visit.depth + 1)
    requires Across(edges[i], visit.node) in Universe(edges, start)
    ensures var more := queue + [Visit(Across(edges[i], visit.node), visit.depth + 1)];
            && Search(edges, start, goal, bound, visited, more, level, {visit.node})
            && Expanded(edges, visited, more, goal, visit.node, visit.depth, i + 1)
  {
    hide Related, Covered, Universe, Touches, Across;
    var pushed := Visit(Across(edges[i], visit.node), visit.depth + 1);
    var more := queue + [pushed];
    CoveredMore(visited, queue, pushed);
    ExpandedKept(edges, visited, queue, visited, more, goal, visit.node, visit.depth, i);
    forall v | v in visited && v !in {visit.node} && visited[v] < bound
      ensures Expanded(edges, visited, more, goal, v, visited[v], |edges|)
    {
      assert Expanded(edges, visited, queue, goal, v, visited[v], |edges|);
      ExpandedKept(edges, visited, queue, visited, more, goal, v, visited[v], |edges|);
    }
  }

  lemma SearchExpanded(edges: seq<WikiEdge>, start: string, goal: string, bound: nat, visited: map<string, nat>,
                       queue: seq<Visit>, level: nat, visit: Visit)
    requires Search(edges, start, goal, bound, visited, queue, level, {visit.node})
    requires visit.node in visited && visited[visit.node] == visit.depth
    requires Expanded(edges, visited, queue, goal, visit.node, visit.depth, |edges|)
    ensures Search(edges, start, goal, bound, visited, queue, level, {})
  {
    hide Related, Covered, Universe, Level, Sound, Known, Expanded;
  }

  lemma SearchEnds(edges: seq<WikiEdge>, start: string, goal: string, bound: nat, visited: map<string, nat>, level: nat)
    requires Search(edges, start, goal, bound, visited, [], level, {})
    ensures !Related(edges, start, goal, bound)
  {
    hide Related, Covered, Universe, Level, Sound, Known, AllExpanded;
    Unrelated(edges, visited, start, goal, bound);
  }
}
