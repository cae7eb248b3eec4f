/** Prompt compaction: sections are kept whole in order of priority while they fit, the first that does not is
    cut to exactly what is left if that is worth it, and what is kept comes out in its original order. */
module Compaction {
  datatype Section = Section(title: string, body: string, priority: nat)

  const MIN_TRUNCATED: nat := 200
  const MARKER := "\n... [truncated to fit the local context budget]"

  // ---- the order of priority ----

  /** Section `i` goes before the first of lower priority. */
  function Placed(sections: seq<Section>, order: seq<nat>, i: nat): seq<nat>
    requires i < |sections| && forall k :: 0 <= k < |order| ==> order[k] < |sections|
  {
    if order == [] || sections[order[0]].priority < sections[i].priority then [i] + order
    else [order[0]] + Placed(sections, order[1..], i)
  }

  /** The indices of the first `n` sections, highest priority first, equal priorities in original order. */
  function OrderOf(sections: seq<Section>, n: nat): (r: seq<nat>)
    requires n <= |sections|
    ensures |r| == n && forall k :: 0 <= k < |r| ==> r[k] < n
  {
    if n == 0 then []
    else
      PlacedKeeps(sections, OrderOf(sections, n - 1), n - 1, n);
      Placed(sections, OrderOf(sections, n - 1), n - 1)
  }

  lemma {:induction false} PlacedKeeps(sections: seq<Section>, order: seq<nat>, i: nat, n: nat)
    requires i < n <= |sections| && forall k :: 0 <= k < |order| ==> order[k] < n
    ensures |Placed(sections, order, i)| == |order| + 1
    ensures forall k :: 0 <= k < |Placed(sections, order, i)| ==> Placed(sections, order, i)[k] < n
  {
    if order != [] && sections[order[0]].priority >= sections[i].priority { PlacedKeeps(sections, order[1..], i, n); }
  }

  /** Higher priority first; among equals the earlier section. */
  predicate Before(sections: seq<Section>, a: nat, b: nat)
    requires a < |sections| && b < |sections|
  {
    sections[a].priority > sections[b].priority || (sections[a].priority == sections[b].priority && a < b)
  }

  ghost predicate InOrder(sections: seq<Section>, order: seq<nat>) {
    && (forall k :: 0 <= k < |order| ==> order[k] < |sections|)
    && (forall j, k :: 0 <= j < k < |order| ==> Before(sections, order[j], order[k]))
  }

  lemma {:induction false} PlacedInOrder(sections: seq<Section>, order: seq<nat>, i: nat)
    requires i < |sections| && InOrder(sections, order) && forall k :: 0 <= k < |order| ==> order[k] < i
    ensures InOrder(sections, Placed(sections, order, i))
    ensures forall x :: x in Placed(sections, order, i) <==> x in order || x == i
  {
    if order == [] {
    } else if sections[order[0]].priority < sections[i].priority {
      forall k | 0 <= k < |order| ensures Before(sections, i, order[k]) {
        assert k > 0 ==> Before(sections, order[0], order[k]);
      }
    } else {
      var tail := order[1..];
      PlacedInOrder(sections, tail, i);
      var placed := Placed(sections, tail, i);
      assert order == [order[0]] + tail;
      forall k | 0 <= k < |placed| ensures Before(sections, order[0], placed[k]) {
        assert placed[k] in placed;
        if placed[k] != i {
          var j :| 0 <= j < |tail| && tail[j] == placed[k];
          assert order[j + 1] == tail[j];
        }
      }
    }
  }

  /** Every section once, in order of priority. */
  lemma {:induction false} OrderIsPriority(sections: seq<Section>, n: nat)
    requires n <= |sections|
    ensures InOrder(sections, OrderOf(sections, n)) && forall i :: i in OrderOf(sections, n) <==> 0 <= i < n
  {
    if n > 0 {
      OrderIsPriority(sections, n - 1);
      PlacedInOrder(sections, OrderOf(sections, n - 1), n - 1);
    }
  }

  // ---- what is kept ----

  function Joined(parts: seq<string>): string {
    if parts == [] then "" else Joined(parts[..|parts| - 1]) + parts[|parts| - 1]
  }

  function Bodies(sections: seq<Section>): (r: seq<string>)
    ensures |r| == |sections| && forall i :: 0 <= i < |sections| ==> r[i] == sections[i].body
  {
    seq(|sections|, i requires 0 <= i < |sections| => sections[i].body)
  }

  /** The length of the first `k` sections of the order. */
  function Used(sections: seq<Section>, order: seq<nat>, k: nat): nat
    requires k <= |order| && forall j :: 0 <= j < |order| ==> order[j] < |sections|
  {
    if k == 0 then 0 else Used(sections, order, k - 1) + |sections[order[k - 1]].body|
  }

  /** How many sections of the order fit whole, from `k` on. */
  function Fitting(sections: seq<Section>, order: seq<nat>, budget: nat, k: nat): (n: nat)
    requires k <= |order| && forall j :: 0 <= j < |order| ==> order[j] < |sections|
    requires Used(sections, order, k) <= budget
    ensures k <= n <= |order| && Used(sections, order, n) <= budget
    ensures n < |order| ==> Used(sections, order, n + 1) > budget
    decreases |order| - k
  {
    if k < |order| && Used(sections, order, k + 1) <= budget then Fitting(sections, order, budget, k + 1) else k
  }

  /** All but the room for the marker, then the marker. */
  function Cut(body: string, room: nat): (r: string)
    requires |MARKER| <= room <= |body|
    ensures |r| == room
  {
    body[..room - |MARKER|] + MARKER
  }

  /** The first `k` sections of the order whole, the others empty. */
  function WholeParts(sections: seq<Section>, order: seq<nat>, k: nat): (r: seq<string>)
    requires k <= |order|
    ensures |r| == |sections|
    ensures forall i :: 0 <= i < |r| ==> r[i] == if i in order[..k] then sections[i].body else ""
  {
    seq(|sections|, i requires 0 <= i < |sections| => if i in order[..k] then sections[i].body else "")
  }

  /** The next section of the order is cut to the room that is left, if that is worth it. */
  predicate Truncates(sections: seq<Section>, order: seq<nat>, budget: nat, k: nat)
    requires k <= |order| && (forall j :: 0 <= j < |order| ==> order[j] < |sections|)
  {
    k < |order| && budget >= Used(sections, order, k) + MIN_TRUNCATED
  }

  /** What comes out of a positive budget. */
  function Parts(sections: seq<Section>, budget: nat): (r: seq<string>)
    ensures |r| == |sections|
  {
    var order := OrderOf(sections, |sections|);
    PartsAt(sections, order, budget, Fitting(sections, order, budget, 0))
  }

  function PartsAt(sections: seq<Section>, order: seq<nat>, budget: nat, k: nat): (r: seq<string>)
    requires k <= |order| && (forall j :: 0 <= j < |order| ==> order[j] < |sections|)
    requires Used(sections, order, k) <= budget && (k < |order| ==> Used(sections, order, k + 1) > budget)
    ensures |r| == |sections|
  {
    var whole := WholeParts(sections, order, k);
    if Truncates(sections, order, budget, k)
    then whole[order[k] := Cut(sections[order[k]].body, budget - Used(sections, order, k))] else whole
  }

  function Compacted(sections: seq<Section>, budget: nat): string {
    if budget == 0 then Joined(Bodies(sections)) else Joined(Parts(sections, budget))
  }

  // ---- the loop ----

  /** Exactly the first `k` sections of the order are marked. */
  ghost predicate Marks(sections: seq<Section>, order: seq<nat>, k: nat, keep: seq<bool>) {
    && |keep| == |sections| && k <= |order|
    && forall i :: 0 <= i < |keep| ==> (keep[i] <==> i in order[..k])
  }

  function Kept(bodies: seq<string>, keep: seq<bool>): (r: seq<string>)
    requires |bodies| == |keep|
    ensures |r| == |bodies| && forall i :: 0 <= i < |r| ==> r[i] == if keep[i] then bodies[i] else ""
  {
    seq(|bodies|, i requires 0 <= i < |bodies| => if keep[i] then bodies[i] else "")
  }

  /** `compact_sections` */
  method CompactSections(sections: seq<Section>, budget: nat) returns (out: string)
    ensures out == Compacted(sections, budget)
  {
    hide OrderOf, Before, Placed, Marks, Joined, Fitting, Used, PartsAt, Kept, InOrder;
    if budget == 0 {
      out := Join(Bodies(sections));
      return;
    }
    var order := OrderOf(sections, |sections|);
    var k, used, keep := KeepWhole(sections, order, budget);
    var parts := CutNext(sections, order, budget, k, used, keep);
    out := Join(parts);
  }

  /** What is kept, with the first section that did not fit cut to the room left. */
  method CutNext(sections: seq<Section>, order: seq<nat>, budget: nat, k: nat, used: nat, keep: seq<bool>)
    returns (parts: seq<string>)
    requires Marks(sections, order, k, keep) && (forall j :: 0 <= j < |order| ==> order[j] < |sections|)
    requires used == Used(sections, order, k) <= budget && (k < |order| ==> Used(sections, order, k + 1) > budget)
    ensures parts == PartsAt(sections, order, budget, k)
  {
    hide Cut, Marks, Used, WholeParts, Kept, MARKER;
    KeptWhole(sections, order, k, keep);
    var bodies := Bodies(sections);
    if k < |order| && budget - used >= MIN_TRUNCATED {
      var index, remaining := order[k], budget - used;
      LongerThan(sections, order, budget, k);
      CutIs(sections[index].body, remaining);
      KeptCut(bodies, keep, index, Cut(sections[index].body, remaining));
      assert bodies[index] == sections[index].body;
      return Kept(bodies[index := bodies[index][..remaining - 48] + MARKER], keep[index := true]);
    }
    parts := Kept(bodies, keep);
  }

  lemma LongerThan(sections: seq<Section>, order: seq<nat>, budget: nat, k: nat)
    requires k < |order| && forall j :: 0 <= j < |order| ==> order[j] < |sections|
    requires Used(sections, order, k) <= budget < Used(sections, order, k + 1)
    ensures budget - Used(sections, order, k) < |sections[order[k]].body|
  {
  }

  /** Whole sections in order of priority until one does not fit. */
  method KeepWhole(sections: seq<Section>, order: seq<nat>, budget: nat) returns (k: nat, used: nat, keep: seq<bool>)
    requires forall j :: 0 <= j < |order| ==> order[j] < |sections|
    ensures k == Fitting(sections, order, budget, 0) && used == Used(sections, order, k)
    ensures Marks(sections, order, k, keep)
  {
    hide Marks;
    used, k, keep := 0, 0, seq(|sections|, i => false);
    NoMarks(sections, order, keep);
    while k < |order| && used + |sections[order[k]].body| <= budget
      invariant k <= |order| && used == Used(sections, order, k) <= budget
      invariant Fitting(sections, order, budget, k) == Fitting(sections, order, budget, 0)
      invariant |keep| == |sections| && Marks(sections, order, k, keep)
    {
      MoreMarks(sections, order, k, keep);
      used := used + |sections[order[k]].body|;
      keep := keep[order[k] := true];
      k := k + 1;
    }
  }

  lemma NoMarks(sections: seq<Section>, order: seq<nat>, keep: seq<bool>)
    requires |keep| == |sections| && forall i :: 0 <= i < |keep| ==> !keep[i]
    ensures Marks(sections, order, 0, keep)
  {
  }

  lemma MoreMarks(sections: seq<Section>, order: seq<nat>, k: nat, keep: seq<bool>)
    requires k < |order| && order[k] < |sections| == |keep| && Marks(sections, order, k, keep)
    ensures Marks(sections, order, k + 1, keep[order[k] := true])
  {
    assert order[..k + 1] == order[..k] + [order[k]];
  }

  lemma KeptWhole(sections: seq<Section>, order: seq<nat>, k: nat, keep: seq<bool>)
    requires Marks(sections, order, k, keep)
    ensures |keep| == |sections| && Kept(Bodies(sections), keep) == WholeParts(sections, order, k)
  {
  }

  lemma KeptCut(bodies: seq<string>, keep: seq<bool>, i: nat, part: string)
    requires |bodies| == |keep| && i < |keep|
    ensures Kept(bodies[i := part], keep[i := true]) == Kept(bodies, keep)[i := part]
  {
  }

  lemma CutIs(body: string, room: nat)
    requires MIN_TRUNCATED <= room <= |body|
    ensures |MARKER| == 48 && body[..room - 48] + MARKER == Cut(body, room)
  {
  }

  lemma NotYetKept(sections: seq<Section>, order: seq<nat>, k: nat)
    requires k < |order| && InOrder(sections, order)
    ensures order[k] !in order[..k]
  {
    forall j | 0 <= j < k ensures order[..k][j] != order[k] { assert Before(sections, order[j], order[k]); }
  }

  method Join(parts: seq<string>) returns (out: string)
    ensures out == Joined(parts)
  {
    out := "";
    for i := 0 to |parts|
      invariant out == Joined(parts[..i])
    {
      assert parts[..i + 1][..i] == parts[..i];
      out := out + parts[i];
    }
    assert parts[..|parts|] == parts;
  }

  // ---- the budget ----

  lemma {:induction false} JoinedUpdate(parts: seq<string>, i: nat, part: string)
    requires i < |parts|
    ensures |Joined(parts[i := part])| == |Joined(parts)| - |parts[i]| + |part|
  {
    var n := |parts| - 1;
    if i == n {
      assert parts[i := part][..n] == parts[..n];
    } else {
      JoinedUpdate(parts[..n], i, part);
      assert parts[i := part][..n] == parts[..n][i := part];
    }
  }

  lemma {:induction false} NothingJoined(parts: seq<string>)
    requires forall i :: 0 <= i < |parts| ==> parts[i] == ""
    ensures Joined(parts) == ""
  {
    if parts != [] { NothingJoined(parts[..|parts| - 1]); }
  }

  /** The sections kept whole take exactly the room that was counted. */
  lemma {:induction false} WholeLength(sections: seq<Section>, order: seq<nat>, k: nat)
    requires k <= |order| && InOrder(sections, order)
    ensures |Joined(WholeParts(sections, order, k))| == Used(sections, order, k)
  {
    hide Before, Joined, InOrder, Cut, WholeParts;
    if k == 0 {
      NothingWhole(sections, order);
      NothingJoined(WholeParts(sections, order, 0));
    } else {
      var before := WholeParts(sections, order, k - 1);
      WholeLength(sections, order, k - 1);
      InRange(sections, order);
      JoinedUpdate(before, order[k - 1], sections[order[k - 1]].body);
      WholeMore(sections, order, k);
    }
  }

  lemma NothingWhole(sections: seq<Section>, order: seq<nat>)
    ensures forall i :: 0 <= i < |WholeParts(sections, order, 0)| ==> WholeParts(sections, order, 0)[i] == ""
  {
  }

  lemma InRange(sections: seq<Section>, order: seq<nat>)
    requires InOrder(sections, order)
    ensures forall j :: 0 <= j < |order| ==> order[j] < |sections|
  {
  }

  lemma WholeMore(sections: seq<Section>, order: seq<nat>, k: nat)
    requires 0 < k <= |order| && InOrder(sections, order)
    ensures var before := WholeParts(sections, order, k - 1);
            && before[order[k - 1]] == ""
            && WholeParts(sections, order, k) == before[order[k - 1] := sections[order[k - 1]].body]
  {
    hide Before;
    NotYetKept(sections, order, k - 1);
    assert order[..k] == order[..k - 1] + [order[k - 1]];
  }

  /** A positive budget is never exceeded, and met exactly when a section is cut. */
  lemma BudgetKept(sections: seq<Section>, budget: nat)
    requires budget > 0
    ensures var order := OrderOf(sections, |sections|);
            var k := Fitting(sections, order, budget, 0);
            && |Compacted(sections, budget)| <= budget
            && |Compacted(sections, budget)|
               == if Truncates(sections, order, budget, k) then budget else Used(sections, order, k)
  {
    hide OrderOf, Joined, Cut, Fitting, Before, InOrder, WholeParts;
    var order := OrderOf(sections, |sections|);
    var k := Fitting(sections, order, budget, 0);
    OrderIsPriority(sections, |sections|);
    WholeLength(sections, order, k);
    if Truncates(sections, order, budget, k) { CutLength(sections, order, budget, k); }
  }

  lemma CutLength(sections: seq<Section>, order: seq<nat>, budget: nat, k: nat)
    requires InOrder(sections, order) && k < |order|
    requires Used(sections, order, k) + MIN_TRUNCATED <= budget < Used(sections, order, k + 1)
    ensures (forall j :: 0 <= j < |order| ==> order[j] < |sections|)
            && |Joined(PartsAt(sections, order, budget, k))| == budget
  {
    hide Joined, Cut, Before;
    InRange(sections, order);
    LongerThan(sections, order, budget, k);
    CutIs(sections[order[k]].body, budget - Used(sections, order, k));
    WholeLength(sections, order, k);
    NotYetKept(sections, order, k);
    JoinedUpdate(WholeParts(sections, order, k), order[k],
                 Cut(sections[order[k]].body, budget - Used(sections, order, k)));
  }

  /** What is kept whole is a prefix of the order of priority: no section left out goes before one kept. */
  lemma KeptFirst(sections: seq<Section>, budget: nat, i: nat, j: nat)
    requires budget > 0 && i < |sections| && j < |sections|
    requires var order := OrderOf(sections, |sections|);
             var k := Fitting(sections, order, budget, 0);
             i in order[..k] && j !in order[..k]
    ensures Before(sections, i, j)
  {
    hide OrderOf, Fitting, Before;
    var order := OrderOf(sections, |sections|);
    var k := Fitting(sections, order, budget, 0);
    OrderIsPriority(sections, |sections|);
    var a :| 0 <= a < k && order[a] == i;
    assert j in order;
    var b :| 0 <= b < |order| && order[b] == j;
    forall c | 0 <= c < k ensures order[c] != j { assert order[..k][c] == order[c]; }
  }
}
