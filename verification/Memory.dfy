/** Effective memory: of the records with one memory key only the latest counts, and only the latest `limit`
    keys. The batch definition, the scan that computes it, and the step an incremental memory takes. */
module Memory {

  const GRAPH_MEMORY_LIMIT: nat := 256

  /** A learning record as the graph sees it: its node, its memory key and what its node is linked to. */
  datatype Lesson = Lesson(valid: bool, nodeId: string, key: string, title: string, excerpt: string, tags: seq<string>,
                           recipe: string, promotes: bool, atoms: seq<string>)

  /** The records of other keys, in order. */
  function Without(xs: seq<Lesson>, key: string): seq<Lesson> {
    if xs == [] then [] else Without(xs[..|xs| - 1], key) + Unless(xs[|xs| - 1], key)
  }

  function Unless(x: Lesson, key: string): seq<Lesson> {
    if x.key != key then [x] else []
  }

  lemma {:induction false} WithoutMembers(xs: seq<Lesson>, key: string)
    ensures |Without(xs, key)| <= |xs|
    ensures forall x :: x in Without(xs, key) <==> x in xs && x.key != key
  {
    if xs != [] {
      WithoutMembers(xs[..|xs| - 1], key);
      assert xs == xs[..|xs| - 1] + [xs[|xs| - 1]];
    }
  }

  /** The latest record of every key, in order. */
  function Latest(xs: seq<Lesson>): (r: seq<Lesson>) {
    if xs == [] then [] else Without(Latest(xs[..|xs| - 1]), xs[|xs| - 1].key) + [xs[|xs| - 1]]
  }

  function LastOf(xs: seq<Lesson>, n: nat): (r: seq<Lesson>)
    ensures |r| == if |xs| <= n then |xs| else n
  {
    if |xs| <= n then xs else xs[|xs| - n..]
  }

  /** `effective_records`, as a definition over the whole history. */
  function Effective(xs: seq<Lesson>, n: nat): seq<Lesson> {
    LastOf(Latest(xs), n)
  }

  /** One record into an effective memory: it replaces its key, and the oldest falls out. */
  function Remember(memory: seq<Lesson>, x: Lesson, n: nat): seq<Lesson> {
    LastOf(Without(memory, x.key) + [x], n)
  }

  ghost predicate DistinctKeys(xs: seq<Lesson>) {
    forall i, j :: 0 <= i < j < |xs| ==> xs[i].key != xs[j].key
  }

  // ---- the loop ----

  /** A later record has the key of record `i`. */
  predicate Superseded(xs: seq<Lesson>, i: nat)
    requires i < |xs|
  {
    exists j :: i < j < |xs| && xs[j].key == xs[i].key
  }

  /** What the scan from the end has selected, with everything from `i` on seen. */
  function Scan(xs: seq<Lesson>, i: nat): seq<Lesson>
    requires i <= |xs|
    decreases |xs| - i
  {
    if i == |xs| then [] else (if Superseded(xs, i) then [] else [xs[i]]) + Scan(xs, i + 1)
  }

  lemma {:induction false} WithoutJoin(xs: seq<Lesson>, ys: seq<Lesson>, key: string)
    ensures Without(xs + ys, key) == Without(xs, key) + Without(ys, key)
  {
    hide Unless;
    if ys == [] {
      assert xs + ys == xs;
    } else {
      var n := |ys| - 1;
      WithoutJoin(xs, ys[..n], key);
      assert (xs + ys)[..|xs + ys| - 1] == xs + ys[..n];
      assert (xs + ys)[|xs + ys| - 1] == ys[n];
    }
  }

  lemma WithoutLone(x: Lesson, key: string)
    ensures Without([x], key) == Unless(x, key)
  {
    assert [x][..0] == [];
    assert Without([], key) == [];
  }

  lemma {:induction false} WithoutNothing(xs: seq<Lesson>, key: string)
    requires forall i :: 0 <= i < |xs| ==> xs[i].key != key
    ensures Without(xs, key) == xs
  {
    if xs != [] { WithoutNothing(xs[..|xs| - 1], key); }
  }

  lemma SupersededSnoc(xs: seq<Lesson>, x: Lesson, i: nat)
    requires i < |xs|
    ensures Superseded(xs + [x], i) <==> Superseded(xs, i) || xs[i].key == x.key
  {
    var all := xs + [x];
    assert all[i] == xs[i] && all[|xs|] == x;
    if Superseded(xs, i) {
      var j :| i < j < |xs| && xs[j].key == xs[i].key;
      assert all[j] == xs[j];
    }
    if Superseded(all, i) {
      var j :| i < j < |all| && all[j].key == all[i].key;
      assert j < |xs| ==> all[j] == xs[j];
    }
  }

  /** The scan sees one more record at the end. */
  lemma {:induction false} ScanSnoc(xs: seq<Lesson>, x: Lesson, i: nat)
    requires i <= |xs|
    ensures Scan(xs + [x], i) == Without(Scan(xs, i), x.key) + [x]
    decreases |xs| - i
  {
    hide Superseded, Without;
    var all := xs + [x];
    if i == |xs| {
      LastScan(xs, x);
    } else {
      ScanSnoc(xs, x, i + 1);
      SupersededSnoc(xs, x, i);
      assert all[i] == xs[i];
      var rest := Scan(xs, i + 1);
      if Superseded(xs, i) {
        assert Scan(all, i) == Scan(all, i + 1) && Scan(xs, i) == rest;
      } else {
        assert Scan(xs, i) == [xs[i]] + rest;
        WithoutJoin([xs[i]], rest, x.key);
        WithoutLone(xs[i], x.key);
        assert Scan(all, i) == Unless(xs[i], x.key) + Scan(all, i + 1);
      }
    }
  }

  lemma LastScan(xs: seq<Lesson>, x: Lesson)
    ensures Scan(xs + [x], |xs|) == Without(Scan(xs, |xs|), x.key) + [x]
  {
    var all := xs + [x];
    assert !Superseded(all, |xs|);
    assert Scan(all, |xs| + 1) == [] && Scan(xs, |xs|) == [];
    assert Scan(all, |xs|) == [all[|xs|]] + Scan(all, |xs| + 1);
  }

  lemma LatestSnoc(xs: seq<Lesson>, x: Lesson)
    ensures Latest(xs + [x]) == Without(Latest(xs), x.key) + [x]
  {
    assert (xs + [x])[..|xs|] == xs;
  }

  lemma EmptyLatest()
    ensures Latest([]) == []
  {
  }

  /** Scanning everything gives the latest records. */
  lemma {:induction false} ScanIsLatest(xs: seq<Lesson>)
    ensures Scan(xs, 0) == Latest(xs)
  {
    hide Latest, Without, Superseded;
    if xs == [] {
      EmptyLatest();
    } else {
      hide Scan;
      var front, last := xs[..|xs| - 1], xs[|xs| - 1];
      ScanIsLatest(front);
      ScanSnoc(front, last, 0);
      LatestSnoc(front, last);
      assert front + [last] == xs;
    }
  }

  lemma {:induction false} ScanSplit(xs: seq<Lesson>, i: nat)
    requires i <= |xs|
    ensures |Scan(xs, 0)| >= |Scan(xs, i)| && Scan(xs, 0)[|Scan(xs, 0)| - |Scan(xs, i)|..] == Scan(xs, i)
  {
    if i > 0 {
      ScanSplit(xs, i - 1);
      var head := if Superseded(xs, i - 1) then [] else [xs[i - 1]];
      assert Scan(xs, i - 1) == head + Scan(xs, i);
    }
  }

  lemma SeenIsSuperseded(xs: seq<Lesson>, i: nat, seen: set<string>)
    requires i < |xs| && seen == set j | i + 1 <= j < |xs| :: xs[j].key
    ensures Superseded(xs, i) <==> xs[i].key in seen
  {
  }

  /** `effective_records`: from the end, the first record seen of every key, at most `limit` of them. */
  method EffectiveRecords(records: seq<Lesson>, limit: nat) returns (selected: seq<Lesson>)
    ensures selected == Effective(records, limit)
  {
    hide Superseded, Latest;
    ScanIsLatest(records);
    if limit == 0 { return []; }
    var seen: set<string> := {};
    selected := [];
    var i := |records|;
    while i > 0
      invariant 0 <= i <= |records|
      invariant seen == set j | i <= j < |records| :: records[j].key
      invariant selected == Scan(records, i) && |selected| < limit
    {
      i := i - 1;
      var record := records[i];
      SeenIsSuperseded(records, i, seen);
      if record.key !in seen {
        seen := seen + {record.key};
        selected := [record] + selected;
        if |selected| == limit {
          ScanSplit(records, i);
          return;
        }
      }
    }
  }

  // ---- the laws ----

  lemma {:induction false} WithoutDistinct(xs: seq<Lesson>, key: string)
    requires DistinctKeys(xs)
    ensures DistinctKeys(Without(xs, key))
  {
    if xs != [] {
      WithoutDistinct(xs[..|xs| - 1], key);
      var front := Without(xs[..|xs| - 1], key);
      WithoutMembers(xs[..|xs| - 1], key);
      forall i | 0 <= i < |front| ensures front[i].key != xs[|xs| - 1].key {
        assert front[i] in front;
        var j :| 0 <= j < |xs| - 1 && xs[j] == front[i];
      }
    }
  }

  lemma SnocDistinct(xs: seq<Lesson>, x: Lesson)
    requires DistinctKeys(xs)
    ensures DistinctKeys(Without(xs, x.key) + [x])
  {
    hide Without;
    var kept := Without(xs, x.key);
    WithoutDistinct(xs, x.key);
    WithoutMembers(xs, x.key);
    forall i | 0 <= i < |kept| ensures kept[i].key != x.key { assert kept[i] in kept; }
  }

  lemma {:induction false} LatestDistinct(xs: seq<Lesson>)
    ensures DistinctKeys(Latest(xs))
  {
    hide Latest, Without;
    if xs == [] {
      EmptyLatest();
    } else {
      hide DistinctKeys;
      var front, last := xs[..|xs| - 1], xs[|xs| - 1];
      LatestDistinct(front);
      SnocDistinct(Latest(front), last);
      LatestSnoc(front, last);
      assert front + [last] == xs;
    }
  }

  lemma {:induction false} LatestOfDistinct(xs: seq<Lesson>)
    requires DistinctKeys(xs)
    ensures Latest(xs) == xs
  {
    hide Without;
    if xs != [] {
      var front := xs[..|xs| - 1];
      LatestOfDistinct(front);
      WithoutNothing(front, xs[|xs| - 1].key);
      assert xs == front + [xs[|xs| - 1]];
    }
  }

  /** Removing a key's record before or after the oldest fall out comes to the same, once a record is added. */
  lemma RememberLate(ys: seq<Lesson>, x: Lesson, n: nat)
    requires DistinctKeys(ys) && n > 0
    ensures LastOf(Without(ys, x.key) + [x], n) == Remember(LastOf(ys, n), x, n)
  {
    hide Without, DistinctKeys;
    if |ys| > n {
      var older, recent := ys[..|ys| - n], ys[|ys| - n..];
      assert ys == older + recent;
      WithoutJoin(older, recent, x.key);
      WithoutMembers(recent, x.key);
      KeyOnce(ys, |ys| - n, x.key);
      if Without(older, x.key) == older {
        WithoutOne(recent, x.key);
        LastOfJoin(older, Without(recent, x.key) + [x], n);
        assert older + (Without(recent, x.key) + [x]) == Without(ys, x.key) + [x];
      } else {
        WithoutMembers(older, x.key);
        LastOfJoin(Without(older, x.key), recent + [x], n);
        assert Without(older, x.key) + (recent + [x]) == Without(ys, x.key) + [x];
      }
    }
  }

  lemma LastOfJoin(a: seq<Lesson>, b: seq<Lesson>, n: nat)
    requires |b| >= n
    ensures LastOf(a + b, n) == LastOf(b, n)
  {
  }

  /** A key is removed from the older part or from the recent one, not from both. */
  lemma KeyOnce(ys: seq<Lesson>, k: nat, key: string)
    requires k <= |ys| && DistinctKeys(ys)
    ensures DistinctKeys(ys[k..])
    ensures Without(ys[..k], key) == ys[..k] || Without(ys[k..], key) == ys[k..]
  {
    if exists i :: 0 <= i < k && ys[i].key == key {
      var i :| 0 <= i < k && ys[i].key == key;
      WithoutNothing(ys[k..], key);
    } else {
      WithoutNothing(ys[..k], key);
    }
  }

  /** A key occurs at most once, so removing it removes at most one record. */
  lemma {:induction false} WithoutOne(xs: seq<Lesson>, key: string)
    requires DistinctKeys(xs)
    ensures |Without(xs, key)| >= |xs| - 1
  {
    if xs != [] {
      var front, last := xs[..|xs| - 1], xs[|xs| - 1];
      if last.key == key { WithoutNothing(front, key); } else { WithoutOne(front, key); }
    }
  }

  /** The incremental memory agrees with the batch: one step on what was effective is effective again. */
  lemma EffectiveStep(xs: seq<Lesson>, x: Lesson, n: nat)
    ensures n > 0 ==> Effective(xs + [x], n) == Remember(Effective(xs, n), x, n)
  {
    assert (xs + [x])[..|xs|] == xs;
    LatestDistinct(xs);
    if n > 0 { RememberLate(Latest(xs), x, n); }
  }

  lemma NothingEffective(xs: seq<Lesson>)
    ensures Effective(xs, 0) == []
  {
  }

  lemma EffectiveTwice(xs: seq<Lesson>, n: nat)
    ensures Effective(Effective(xs, n), n) == Effective(xs, n)
  {
    LatestDistinct(xs);
    LatestOfDistinct(Effective(xs, n));
  }

  /** What a trimmed ledger relies on: trimming before more records come changes nothing after. */
  lemma {:induction false} EffectiveJoin(xs: seq<Lesson>, ys: seq<Lesson>, n: nat)
    ensures Effective(Effective(xs, n) + ys, n) == Effective(xs + ys, n)
  {
    hide Effective;
    var e := Effective(xs, n);
    if n == 0 {
      NothingEffective(e + ys);
      NothingEffective(xs + ys);
    } else if ys == [] {
      EffectiveTwice(xs, n);
      assert e + ys == e && xs + ys == xs;
    } else {
      var front, last := ys[..|ys| - 1], ys[|ys| - 1];
      EffectiveJoin(xs, front, n);
      EffectiveStep(e + front, last, n);
      EffectiveStep(xs + front, last, n);
      assert e + ys == (e + front) + [last] && xs + ys == (xs + front) + [last];
    }
  }

  // ---- membership ----

  ghost predicate DistinctIds(xs: seq<Lesson>) {
    forall i, j :: 0 <= i < j < |xs| ==> xs[i].nodeId != xs[j].nodeId
  }

  ghost predicate KeyAbsent(xs: seq<Lesson>, key: string) {
    forall i :: 0 <= i < |xs| ==> xs[i].key != key
  }

  lemma AbsentKept(xs: seq<Lesson>, key: string)
    requires KeyAbsent(xs, key)
    ensures Without(xs, key) == xs
  {
    WithoutNothing(xs, key);
  }

  lemma WithoutMiddle(a: seq<Lesson>, x: Lesson, b: seq<Lesson>)
    requires KeyAbsent(a, x.key) && KeyAbsent(b, x.key)
    ensures Without(a + ([x] + b), x.key) == a + b
  {
    hide Without, KeyAbsent;
    AbsentKept(a, x.key);
    AbsentKept(b, x.key);
    WithoutLone(x, x.key);
    assert Unless(x, x.key) == [];
    WithoutJoin([x], b, x.key);
    assert [] + b == b;
    WithoutJoin(a, [x] + b, x.key);
  }

  lemma AbsentElsewhere(xs: seq<Lesson>, k: nat)
    requires k < |xs| && DistinctKeys(xs)
    ensures KeyAbsent(xs[..k], xs[k].key) && KeyAbsent(xs[k + 1..], xs[k].key)
  {
  }

  /** Where the record of a key lies, and what is left without it. */
  lemma WithoutAt(xs: seq<Lesson>, k: nat)
    requires k < |xs| && DistinctKeys(xs)
    ensures Without(xs, xs[k].key) == xs[..k] + xs[k + 1..]
  {
    hide *;
    AbsentElsewhere(xs, k);
    WithoutMiddle(xs[..k], xs[k], xs[k + 1..]);
    Around(xs, k);
  }

  lemma Around(xs: seq<Lesson>, k: nat)
    requires k < |xs|
    ensures xs == xs[..k] + ([xs[k]] + xs[k + 1..])
  {
  }

  lemma {:induction false} LatestMembers(xs: seq<Lesson>)
    ensures forall x :: x in Latest(xs) ==> x in xs
  {
    hide Without, Latest;
    if xs == [] {
      EmptyLatest();
    } else {
      var front, last := xs[..|xs| - 1], xs[|xs| - 1];
      assert xs == front + [last];
      LatestMembers(front);
      LatestSnoc(front, last);
      WithoutMembers(Latest(front), last.key);
    }
  }

  lemma EffectiveMembers(xs: seq<Lesson>, n: nat)
    ensures forall x :: x in Effective(xs, n) ==> x in xs
    ensures DistinctKeys(Effective(xs, n)) && |Effective(xs, n)| <= n
  {
    hide Latest;
    LatestMembers(xs);
    LatestDistinct(xs);
  }
}
