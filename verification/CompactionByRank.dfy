/** Compaction section by section: what becomes of each is decided by the length of what goes before it in priority, and
    what is left of them comes out in their original order. */
module CompactionByRank {
  import opened Compaction

  /** The length of a section and of those that go before it among the first `n`: higher priority first, and among
      equals the earlier one. */
  function Weight(sections: seq<Section>, i: nat, n: nat): nat
    requires i < |sections| && n <= |sections|
  {
    if n == 0 then 0
    else
      var j := n - 1;
      Weight(sections, i, j)
      + if j == i || sections[j].priority > sections[i].priority
           || (sections[j].priority == sections[i].priority && j < i)
        then |sections[j].body| else 0
  }

  /** The length of what goes before a section. */
  function Ahead(sections: seq<Section>, i: nat): int
    requires i < |sections|
  {
    Weight(sections, i, |sections|) - |sections[i].body|
  }

  /** What is left of a section: all of it, what fits before a marker, or nothing. */
  function Piece(sections: seq<Section>, budget: nat, i: nat): string
    requires i < |sections|
  {
    var body, room := sections[i].body, budget - Ahead(sections, i);
    if |body| <= room then body
    else if 200 <= room < |body| then body[..room - 48] + "\n... [truncated to fit the local context budget]"
    else ""
  }

  /** The pieces one behind the other, from section `i` on. */
  function PiecesFrom(sections: seq<Section>, budget: nat, i: nat): string
    requires i <= |sections|
    decreases |sections| - i
  {
    if i == |sections| then "" else Piece(sections, budget, i) + PiecesFrom(sections, budget, i + 1)
  }

  // ---- the order sums up to the same ----

  function SumOf(order: seq<nat>, w: nat -> nat): nat {
    if order == [] then 0 else SumOf(order[..|order| - 1], w) + w(order[|order| - 1])
  }

  function SumTo(n: nat, w: nat -> nat): nat {
    if n == 0 then 0 else SumTo(n - 1, w) + w(n - 1)
  }

  lemma {:induction false} SumFront(order: seq<nat>, w: nat -> nat)
    requires order != []
    ensures SumOf(order, w) == w(order[0]) + SumOf(order[1..], w)
    decreases |order|
  {
    if |order| == 1 {
      assert order[..0] == [] && order[1..] == [];
    } else {
      var front := order[..|order| - 1];
      SumFront(front, w);
      assert front[1..] == order[1..][..|order| - 2];
    }
  }

  lemma {:induction false} PlacedSum(sections: seq<Section>, order: seq<nat>, i: nat, w: nat -> nat)
    requires i < |sections| && forall k :: 0 <= k < |order| ==> order[k] < |sections|
    ensures SumOf(Placed(sections, order, i), w) == SumOf(order, w) + w(i)
  {
    var placed := Placed(sections, order, i);
    SumFront(placed, w);
    if order != [] {
      SumFront(order, w);
      if sections[order[0]].priority >= sections[i].priority {
        PlacedSum(sections, order[1..], i, w);
        assert placed[1..] == Placed(sections, order[1..], i);
      } else {
        assert placed[1..] == order;
      }
    }
  }

  lemma {:induction false} OrderSum(sections: seq<Section>, n: nat, w: nat -> nat)
    requires n <= |sections|
    ensures SumOf(OrderOf(sections, n), w) == SumTo(n, w)
  {
    if n > 0 {
      OrderSum(sections, n - 1, w);
      PlacedSum(sections, OrderOf(sections, n - 1), n - 1, w);
    }
  }

  /** The length of a section that goes no later than `i`. */
  function Counted(sections: seq<Section>, i: nat): nat -> nat
    requires i < |sections|
  {
    (j: nat) => if j < |sections| && (j == i || Before(sections, j, i)) then |sections[j].body| else 0
  }

  lemma {:induction false} WeightIsSum(sections: seq<Section>, i: nat, n: nat)
    requires i < |sections| && n <= |sections|
    ensures Weight(sections, i, n) == SumTo(n, Counted(sections, i))
  {
    if n > 0 { WeightIsSum(sections, i, n - 1); }
  }

  /** Up to the place of `i`, everything in the order counts, and nothing behind it. */
  lemma {:induction false} SumIsUsed(sections: seq<Section>, order: seq<nat>, p: nat, k: nat)
    requires InOrder(sections, order) && p < |order| && k <= |order|
    ensures SumOf(order[..k], Counted(sections, order[p])) == Used(sections, order, if k <= p then k else p + 1)
  {
    hide Before;
    if k > 0 {
      SumIsUsed(sections, order, p, k - 1);
      assert order[..k][..k - 1] == order[..k - 1];
      if k - 1 < p {
        assert Before(sections, order[k - 1], order[p]);
      } else if k - 1 > p {
        assert Before(sections, order[p], order[k - 1]);
        NotBoth(sections, order[p], order[k - 1]);
      }
    } else {
      assert order[..0] == [];
    }
  }

  lemma NotBoth(sections: seq<Section>, a: nat, b: nat)
    requires a < |sections| && b < |sections| && Before(sections, a, b)
    ensures !Before(sections, b, a) && a != b
  {
  }

  lemma {:induction false} UsedGrows(sections: seq<Section>, order: seq<nat>, j: nat, k: nat)
    requires j <= k <= |order| && forall q :: 0 <= q < |order| ==> order[q] < |sections|
    ensures Used(sections, order, j) <= Used(sections, order, k)
  {
    if j < k { UsedGrows(sections, order, j, k - 1); }
  }

  /** What goes no later than a section is what is used up to its place. */
  lemma WeightIsUsed(sections: seq<Section>, p: nat)
    requires p < |sections|
    ensures var order := OrderOf(sections, |sections|);
            && InOrder(sections, order)
            && Weight(sections, order[p], |sections|) == Used(sections, order, p + 1)
            && Ahead(sections, order[p]) == Used(sections, order, p)
  {
    hide OrderOf, Before, InOrder;
    var order := OrderOf(sections, |sections|);
    OrderIsPriority(sections, |sections|);
    InRange(sections, order);
    WeightIsSum(sections, order[p], |sections|);
    OrderSum(sections, |sections|, Counted(sections, order[p]));
    SumIsUsed(sections, order, p, |order|);
    assert order[..|order|] == order;
  }

  // ---- piece by piece ----

  lemma PieceIs(sections: seq<Section>, budget: nat, i: nat)
    requires budget > 0 && i < |sections|
    ensures Parts(sections, budget)[i] == Piece(sections, budget, i)
  {
    hide OrderOf, Before, InOrder, Fitting, Weight, Used;
    var order := OrderOf(sections, |sections|);
    OrderIsPriority(sections, |sections|);
    InRange(sections, order);
    UsedNothing(sections, order);
    assert i in order;
    var p :| 0 <= p < |order| && order[p] == i;
    WeightIsUsed(sections, p);
    PieceAt(sections, order, budget, Fitting(sections, order, budget, 0), p);
  }

  lemma UsedNothing(sections: seq<Section>, order: seq<nat>)
    requires forall j :: 0 <= j < |order| ==> order[j] < |sections|
    ensures Used(sections, order, 0) == 0
  {
  }

  lemma PieceAt(sections: seq<Section>, order: seq<nat>, budget: nat, k: nat, p: nat)
    requires InOrder(sections, order) && k <= |order| && p < |order|
    requires forall j :: 0 <= j < |order| ==> order[j] < |sections|
    requires Used(sections, order, k) <= budget && (k < |order| ==> Used(sections, order, k + 1) > budget)
    requires Ahead(sections, order[p]) == Used(sections, order, p)
    ensures PartsAt(sections, order, budget, k)[order[p]] == Piece(sections, budget, order[p])
  {
    hide Before, InOrder, Weight, Used, Ahead, Cut, WholeParts, MARKER;
    var body := sections[order[p]].body;
    UsedStep(sections, order, p);
    if p < k {
      UsedGrows(sections, order, p + 1, k);
      KeptThere(order, k, p);
      if k < |order| { Apart(sections, order, p, k); }
    } else {
      NotKept(sections, order, k, p);
      if p > k {
        UsedGrows(sections, order, k + 1, p);
        Apart(sections, order, k, p);
      } else {
        LongerThan(sections, order, budget, k);
        if Truncates(sections, order, budget, k) { CutReads(body, budget - Used(sections, order, k)); }
      }
    }
  }

  lemma KeptThere(order: seq<nat>, k: nat, p: nat)
    requires p < k <= |order|
    ensures order[p] in order[..k]
  {
    assert order[..k][p] == order[p];
  }

  lemma CutReads(body: string, room: nat)
    requires 200 <= room <= |body|
    ensures |MARKER| <= room
    ensures Cut(body, room) == body[..room - 48] + "\n... [truncated to fit the local context budget]"
  {
  }

  lemma UsedStep(sections: seq<Section>, order: seq<nat>, p: nat)
    requires p < |order| && forall j :: 0 <= j < |order| ==> order[j] < |sections|
    ensures Used(sections, order, p + 1) == Used(sections, order, p) + |sections[order[p]].body|
  {
  }

  lemma Apart(sections: seq<Section>, order: seq<nat>, p: nat, q: nat)
    requires InOrder(sections, order) && p < q < |order|
    ensures order[p] != order[q]
  {
    assert Before(sections, order[p], order[q]);
  }

  lemma NotKept(sections: seq<Section>, order: seq<nat>, k: nat, p: nat)
    requires InOrder(sections, order) && k <= p < |order|
    ensures order[p] !in order[..k]
  {
    hide Before, InOrder;
    forall j | 0 <= j < k ensures order[..k][j] != order[p] { Apart(sections, order, j, p); }
  }

  lemma {:induction false} JoinedJoin(a: seq<string>, b: seq<string>)
    ensures Joined(a + b) == Joined(a) + Joined(b)
  {
    if b == [] {
      assert a + b == a;
    } else {
      var n := |b| - 1;
      assert (a + b)[..|a + b| - 1] == a + b[..n];
      JoinedJoin(a, b[..n]);
    }
  }

  lemma JoinedOne(s: string)
    ensures Joined([s]) == s
  {
    assert [s][..0] == [];
  }

  lemma {:induction false} PiecesJoin(sections: seq<Section>, budget: nat, i: nat)
    requires budget > 0 && i <= |sections|
    ensures Joined(Parts(sections, budget)[i..]) == PiecesFrom(sections, budget, i)
    decreases |sections| - i
  {
    hide Parts, Piece, Joined;
    var parts := Parts(sections, budget);
    if i < |sections| {
      PieceIs(sections, budget, i);
      PiecesJoin(sections, budget, i + 1);
      assert parts[i..] == [parts[i]] + parts[i + 1..];
      JoinedJoin([parts[i]], parts[i + 1..]);
      JoinedOne(parts[i]);
    } else {
      NothingJoined(parts[i..]);
    }
  }

  /** For a positive budget, the compacted text is the pieces of all sections in their original order. */
  lemma CompactedByRank(sections: seq<Section>, budget: nat)
    requires budget > 0
    ensures Compacted(sections, budget) == PiecesFrom(sections, budget, 0)
  {
    hide Parts, Joined;
    PiecesJoin(sections, budget, 0);
    assert Parts(sections, budget)[0..] == Parts(sections, budget);
  }

  function BodiesFrom(sections: seq<Section>, i: nat): string
    requires i <= |sections|
    decreases |sections| - i
  {
    if i == |sections| then "" else sections[i].body + BodiesFrom(sections, i + 1)
  }

  lemma {:induction false} BodiesJoin(sections: seq<Section>, i: nat)
    requires i <= |sections|
    ensures Joined(Bodies(sections)[i..]) == BodiesFrom(sections, i)
    decreases |sections| - i
  {
    hide Joined;
    var bodies := Bodies(sections);
    if i < |sections| {
      BodiesJoin(sections, i + 1);
      assert bodies[i..] == [bodies[i]] + bodies[i + 1..];
      JoinedJoin([bodies[i]], bodies[i + 1..]);
      JoinedOne(bodies[i]);
    } else {
      NothingJoined(bodies[i..]);
    }
  }

  /** Without a budget, everything comes out. */
  lemma NothingCompacted(sections: seq<Section>)
    ensures Compacted(sections, 0) == BodiesFrom(sections, 0)
  {
    hide Joined;
    BodiesJoin(sections, 0);
    assert Bodies(sections)[0..] == Bodies(sections);
  }
}
