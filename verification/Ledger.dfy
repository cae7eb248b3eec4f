/** The append-only learning ledger under the lease: `append`, `read_to_string` and `read_records` of
    any number of processes, interleaved a write and a read at a time. */
module Ledger {
  import opened Text
  import opened JsonCompleteness
  import opened JsonPrinter
  import opened Learning
  import opened LearningRoundTrip
  import opened Lease

  // ---- reading a ledger's text ----

  /** The characters before the first line feed, or all of them. */
  function FirstLine(text: string): (line: string)
    ensures |line| <= |text|
  {
    if text == "" || text[0] == '\n' then "" else [text[0]] + FirstLine(text[1..])
  }

  function DropReturn(line: string): string {
    if line != "" && line[|line| - 1] == '\r' then line[..|line| - 1] else line
  }

  /** `str::lines`: split at line feeds, a final carriage return dropped, no empty last line. */
  function SplitLines(text: string): seq<string>
    decreases |text|
  {
    if text == "" then []
    else
      var line := FirstLine(text);
      [DropReturn(line)] + (if |line| == |text| then [] else SplitLines(text[|line| + 1..]))
  }

  datatype ReadResult = Records(records: seq<LearningRecord>) | InvalidLine(number: nat)

  /** `read_records` over the lines from `index` on, behind the records already read. */
  function ReadLines(lines: seq<string>, index: nat, records: seq<LearningRecord>): ReadResult
    requires index <= |lines|
    decreases |lines| - index
  {
    if index == |lines| then Records(records)
    else if Blank(lines[index]) then ReadLines(lines, index + 1, records)
    else match FromJson(lines[index])
      case None => InvalidLine(index + 1)
      case Some(r) => ReadLines(lines, index + 1, records + [r])
  }

  method ReadRecords(text: string) returns (r: ReadResult)
    ensures r == ReadLines(SplitLines(text), 0, [])
  {
    var lines := SplitLines(text);
    var records := [];
    for index := 0 to |lines|
      invariant ReadLines(lines, index, records) == ReadLines(lines, 0, [])
    {
      if !Blank(lines[index]) {
        var parsed := FromJson(lines[index]);
        if parsed == None { return InvalidLine(index + 1); }
        records := records + [parsed.value];
      }
    }
    r := Records(records);
  }

  function Encoded(r: LearningRecord): string {
    ToJson(r) + "\n"
  }

  /** The file after these appends. */
  function TextOfLog(log: seq<LearningRecord>): string {
    if log == [] then "" else TextOfLog(log[..|log| - 1]) + Encoded(log[|log| - 1])
  }

  /** The record can be read back. */
  predicate Readable(r: LearningRecord) {
    ValidStructure(Canonical(r))
  }

  function CanonicalAll(log: seq<LearningRecord>): (c: seq<LearningRecord>)
    ensures |c| == |log| && forall i :: 0 <= i < |log| ==> c[i] == Canonical(log[i])
  {
    seq(|log|, i requires 0 <= i < |log| => Canonical(log[i]))
  }

  function FirstFalse(flags: seq<bool>): (k: nat)
    ensures k <= |flags|
    ensures forall i :: 0 <= i < k ==> flags[i]
    ensures k < |flags| ==> !flags[k]
  {
    if flags == [] || !flags[0] then 0 else 1 + FirstFalse(flags[1..])
  }

  function Readability(log: seq<LearningRecord>): (flags: seq<bool>)
    ensures |flags| == |log| && forall i :: 0 <= i < |log| ==> flags[i] == Readable(log[i])
  {
    seq(|log|, i requires 0 <= i < |log| => Readable(log[i]))
  }

  function FirstUnreadable(log: seq<LearningRecord>): (k: nat)
    ensures k <= |log|
    ensures forall i :: 0 <= i < k ==> Readable(log[i])
    ensures k < |log| ==> !Readable(log[k])
  {
    var flags := Readability(log);
    var k := FirstFalse(flags);
    assert forall i :: 0 <= i < k ==> flags[i] == Readable(log[i]);
    k
  }

  /** What reading these appends gives: all of them, or the line of the first that cannot be read. */
  function ResultOfLog(log: seq<LearningRecord>): ReadResult {
    if FirstUnreadable(log) == |log| then Records(CanonicalAll(log)) else InvalidLine(FirstUnreadable(log) + 1)
  }

  lemma PlainLine(line: string)
    requires line != "" && line[0] == '{' && forall i :: 0 <= i < |line| ==> !IsControl(line[i])
    ensures !Blank(line) && DropReturn(line) == line
    ensures forall i :: 0 <= i < |line| ==> line[i] != '\n'
  {
    assert !IsWhitespace(line[0]);
  }

  lemma LineShape(r: LearningRecord)
    ensures !Blank(ToJson(r)) && DropReturn(ToJson(r)) == ToJson(r)
    ensures forall i :: 0 <= i < |ToJson(r)| ==> ToJson(r)[i] != '\n'
  {
    RecordPrintable(r);
    PrintOneLine(RecordValue(r), 0);
    PlainLine(ToJson(r));
  }

  lemma {:induction false} FirstLineOf(line: string, post: string)
    requires forall i :: 0 <= i < |line| ==> line[i] != '\n'
    ensures FirstLine(line + ("\n" + post)) == line
  {
    if line == "" {
      assert line + ("\n" + post) == "\n" + post;
    } else {
      assert (line + ("\n" + post))[1..] == line[1..] + ("\n" + post);
      FirstLineOf(line[1..], post);
    }
  }

  lemma {:induction false} TextOfLogFront(log: seq<LearningRecord>)
    requires log != []
    ensures TextOfLog(log) == Encoded(log[0]) + TextOfLog(log[1..])
    decreases |log|
  {
    var front := log[..|log| - 1];
    if |log| > 1 {
      TextOfLogFront(front);
      assert front[1..] == log[1..][..|log[1..]| - 1];
      Assoc(Encoded(log[0]), TextOfLog(front[1..]), Encoded(log[|log| - 1]));
    } else {
      assert TextOfLog(front) == "" && TextOfLog(log[1..]) == "";
    }
  }

  function JsonLines(log: seq<LearningRecord>): (lines: seq<string>)
    ensures |lines| == |log| && forall i :: 0 <= i < |log| ==> lines[i] == ToJson(log[i])
  {
    seq(|log|, i requires 0 <= i < |log| => ToJson(log[i]))
  }

  /** The ledger's lines are the records appended, one each. */
  lemma {:induction false} LogLines(log: seq<LearningRecord>)
    ensures SplitLines(TextOfLog(log)) == JsonLines(log)
    decreases |log|
  {
    if log != [] {
      TextOfLogFront(log);
      LineShape(log[0]);
      SplitFirst(ToJson(log[0]), TextOfLog(log[1..]));
      LogLines(log[1..]);
      JsonLinesFront(log);
    }
  }

  lemma JsonLinesFront(log: seq<LearningRecord>)
    requires log != []
    ensures JsonLines(log) == [ToJson(log[0])] + JsonLines(log[1..])
  {
    hide ToJson;
  }

  lemma SplitFirst(line: string, rest: string)
    requires DropReturn(line) == line && forall i :: 0 <= i < |line| ==> line[i] != '\n'
    ensures SplitLines(line + "\n" + rest) == [line] + SplitLines(rest)
  {
    var text := line + "\n" + rest;
    Assoc(line, "\n", rest);
    FirstLineOf(line, rest);
    assert text[|line| + 1..] == rest;
  }

  /** Line `k` reads as the record `c`, or, when not `good`, stops the read. */
  ghost predicate LineReads(lines: seq<string>, k: nat, good: bool, c: LearningRecord)
    requires k < |lines|
  {
    forall records :: ReadLines(lines, k, records)
                   == if good then ReadLines(lines, k + 1, records + [c]) else InvalidLine(k + 1)
  }

  lemma RecordLineReads(r: LearningRecord, lines: seq<string>, k: nat)
    requires k < |lines| && lines[k] == ToJson(r)
    ensures LineReads(lines, k, Readable(r), Canonical(r))
  {
    LineShape(r);
    RecordRoundTrip(r);
  }

  lemma ReadsNext(lines: seq<string>, k: nat, good: bool, c: LearningRecord, records: seq<LearningRecord>)
    requires k < |lines| && LineReads(lines, k, good, c)
    ensures ReadLines(lines, k, records)
         == if good then ReadLines(lines, k + 1, records + [c]) else InvalidLine(k + 1)
  {
    hide ReadLines;
  }

  lemma {:induction false} LinesRead(lines: seq<string>, flags: seq<bool>, records: seq<LearningRecord>, k: nat)
    requires |lines| == |flags| == |records| && k <= FirstFalse(flags)
    requires forall i :: 0 <= i < |lines| ==> LineReads(lines, i, flags[i], records[i])
    ensures ReadLines(lines, k, records[..k])
         == if FirstFalse(flags) == |flags| then Records(records) else InvalidLine(FirstFalse(flags) + 1)
    decreases |lines| - k
  {
    hide LineReads, ReadLines, FirstFalse;
    if k < |lines| {
      assert LineReads(lines, k, flags[k], records[k]);
      ReadsNext(lines, k, flags[k], records[k], records[..k]);
      if k < FirstFalse(flags) {
        assert records[..k] + [records[k]] == records[..k + 1];
        LinesRead(lines, flags, records, k + 1);
      }
    } else {
      assert records[..k] == records;
      ReadsEnd(lines, records);
    }
  }

  lemma ReadsEnd(lines: seq<string>, records: seq<LearningRecord>)
    ensures ReadLines(lines, |lines|, records) == Records(records)
  {
  }

  /** Reading the text of a log: every record in order, or the line of the first unreadable one. */
  lemma LogReads(log: seq<LearningRecord>)
    ensures ReadLines(SplitLines(TextOfLog(log)), 0, []) == ResultOfLog(log)
  {
    hide LineReads, Readable, Canonical, ToJson, SplitLines, TextOfLog, ReadLines;
    LogLines(log);
    var lines := JsonLines(log);
    forall i | 0 <= i < |lines| ensures LineReads(lines, i, Readability(log)[i], CanonicalAll(log)[i]) {
      RecordLineReads(log[i], lines, i);
    }
    assert CanonicalAll(log)[..0] == [];
    LinesRead(lines, Readability(log), CanonicalAll(log), 0);
  }

  // ---- the protocol ----

  /** What the owner of the lease is doing with the ledger file. */
  datatype Work =
    | Appending(record: LearningRecord, start: nat, written: nat)
    | Reading(got: string)

  /** `log` records the appends that have returned. */
  datatype LedgerState = LedgerState(lease: State, data: string, work: map<Pid, Work>, log: seq<LearningRecord>)

  datatype LedgerEvent =
    | LeaseStep(e: Event)
    | BeginAppend(q: Pid, record: LearningRecord)
    | AppendSome(q: Pid, n: nat)
    | AppendDone(q: Pid)                        // synced, read back and compared
    | BeginRead(q: Pid)
    | ReadSome(q: Pid, n: nat)
    | ReadDone(q: Pid)

  function Line(w: Work): string
    requires w.Appending?
  {
    Encoded(w.record)
  }

  predicate Working(s: LedgerState, p: Pid) {
    p in s.work
  }

  predicate LedgerEnabled(s: LedgerState, e: LedgerEvent) {
    match e
    case LeaseStep(e) =>
      // the owner works or leaves, not both; an append is not cut short once it has begun to write
      && Enabled(s.lease, e)
      && (Working(s, e.p) ==> e.Crash? && (s.work[e.p].Appending? ==> s.work[e.p].written == 0))
    case BeginAppend(p, record) => At(s.lease, p).Held? && !Working(s, p) && ValidStructure(record)
    case AppendSome(p, n) =>
      Working(s, p) && s.work[p].Appending? && 0 < n <= |Line(s.work[p])| - s.work[p].written
    case AppendDone(p) => Working(s, p) && s.work[p].Appending? && s.work[p].written == |Line(s.work[p])|
    case BeginRead(p) => At(s.lease, p).Held? && !Working(s, p)
    case ReadSome(p, n) => Working(s, p) && s.work[p].Reading? && 0 < n <= |s.data| - |s.work[p].got|
    case ReadDone(p) => Working(s, p) && s.work[p].Reading? && |s.work[p].got| >= |s.data|
  }

  function Drop(work: map<Pid, Work>, p: Pid): map<Pid, Work> {
    map q | q in work && q != p :: work[q]
  }

  function LedgerAfter(s: LedgerState, e: LedgerEvent): LedgerState
    requires LedgerEnabled(s, e)
  {
    match e
    case LeaseStep(e) =>
      s.(lease := After(s.lease, e), work := if e.Crash? then Drop(s.work, e.p) else s.work)
    case BeginAppend(p, record) => s.(work := s.work[p := Appending(record, |s.data|, 0)])
    case AppendSome(p, n) =>
      var w := s.work[p];
      s.(data := s.data + Line(w)[w.written..w.written + n], work := s.work[p := w.(written := w.written + n)])
    case AppendDone(p) => s.(work := Drop(s.work, p), log := s.log + [s.work[p].record])
    case BeginRead(p) => s.(work := s.work[p := Reading("")])
    case ReadSome(p, n) =>
      var got := s.work[p].got;
      s.(work := s.work[p := Reading(got + s.data[|got|..|got| + n])])
    case ReadDone(p) => s.(work := Drop(s.work, p))
  }

  predicate LedgerRun(s: LedgerState, events: seq<LedgerEvent>)
    decreases |events|
  {
    events == [] || (LedgerEnabled(s, events[0]) && LedgerRun(LedgerAfter(s, events[0]), events[1..]))
  }

  function LedgerEnd(s: LedgerState, events: seq<LedgerEvent>): LedgerState
    requires LedgerRun(s, events)
    decreases |events|
  {
    if events == [] then s else LedgerEnd(LedgerAfter(s, events[0]), events[1..])
  }

  predicate LedgerInitial(s: LedgerState) {
    Initial(s.lease) && s.work == map[] && s.data == TextOfLog(s.log)
  }


  ghost predicate WorkersHold(s: LedgerState) {
    forall p :: p in s.work ==> At(s.lease, p).Held?
  }

  ghost predicate NoAppend(s: LedgerState) {
    forall p :: p in s.work ==> s.work[p].Reading?
  }

  ghost predicate DataAgrees(s: LedgerState) {
    && (NoAppend(s) ==> s.data == TextOfLog(s.log))
    && (forall p :: p in s.work && s.work[p].Appending? ==>
          var w := s.work[p];
          w.start == |TextOfLog(s.log)| && w.written <= |Line(w)| && s.data == TextOfLog(s.log) + Line(w)[..w.written])
    && (forall p :: p in s.work && s.work[p].Reading? ==> s.work[p].got <= s.data)
  }

  ghost predicate LedgerInv(s: LedgerState) {
    Inv(s.lease) && WorkersHold(s) && DataAgrees(s)
  }

  lemma SoleWorker(s: LedgerState, p: Pid, q: Pid)
    requires LedgerInv(s) && p in s.work && At(s.lease, q).Held?
    ensures p == q
  {
    Exclusive(s.lease, p, q);
  }

  /** Steps of other processes leave the owner of the lease where it is. */
  lemma OthersStay(s: State, e: Event, p: Pid)
    requires Enabled(s, e) && e.p != p
    ensures At(After(s, e), p) == At(s, p)
  {
  }

  lemma SettledData(s: LedgerState, p: Pid)
    requires LedgerInv(s) && Working(s, p) && (s.work[p].Appending? ==> s.work[p].written == 0)
    ensures s.data == TextOfLog(s.log)
  {
    forall q | q in s.work ensures q == p { SoleWorker(s, q, p); }
    if s.work[p].Appending? {
      assert Line(s.work[p])[..0] == "";
      assert TextOfLog(s.log) + "" == TextOfLog(s.log);
    }
  }

  lemma IdleLeaseStep(s: LedgerState, e: Event)
    requires LedgerInv(s) && LedgerEnabled(s, LeaseStep(e)) && e.p !in s.work
    ensures LedgerInv(LedgerAfter(s, LeaseStep(e)))
  {
    hide Inv, TextOfLog, ToJson, After;
    var s' := LedgerAfter(s, LeaseStep(e));
    StepInv(s.lease, e);
    assert s'.work == s.work && s'.data == s.data && s'.log == s.log;
    forall p | p in s.work ensures At(s'.lease, p).Held? { OthersStay(s.lease, e, p); }
  }

  lemma CrashAtWork(s: LedgerState, e: Event)
    requires LedgerInv(s) && LedgerEnabled(s, LeaseStep(e)) && e.p in s.work
    ensures LedgerInv(LedgerAfter(s, LeaseStep(e)))
  {
    StepInv(s.lease, e);
    forall p | p in s.work ensures p == e.p { SoleWorker(s, p, e.p); }
    SettledData(s, e.p);
    assert LedgerAfter(s, LeaseStep(e)).work == map[];
  }

  lemma BeginLedgerInv(s: LedgerState, e: LedgerEvent)
    requires LedgerInv(s) && LedgerEnabled(s, e) && (e.BeginAppend? || e.BeginRead?)
    ensures LedgerInv(LedgerAfter(s, e))
  {
    hide Inv, ToJson, TextOfLog;
    forall p | p in s.work ensures false { SoleWorker(s, p, e.q); }
    assert NoAppend(s);
    if e.BeginAppend? {
      var work := LedgerAfter(s, e).work;
      assert e.q in work && !work[e.q].Reading?;
      assert Encoded(e.record)[..0] == "" && TextOfLog(s.log) + "" == TextOfLog(s.log);
    }
  }

  lemma Extend(text: string, line: string, written: nat, n: nat)
    requires written + n <= |line|
    ensures text + line[..written] + line[written..written + n] == text + line[..written + n]
  {
  }

  lemma AppendSomeLedgerInv(s: LedgerState, p: Pid, n: nat)
    requires LedgerInv(s) && LedgerEnabled(s, AppendSome(p, n))
    ensures LedgerInv(LedgerAfter(s, AppendSome(p, n)))
  {
    hide Inv, TextOfLog, ToJson, InLease;
    forall q | q in s.work ensures q == p { SoleWorker(s, q, p); }
    var w := s.work[p];
    var work := LedgerAfter(s, AppendSome(p, n)).work;
    assert p in work && !work[p].Reading?;
    Extend(TextOfLog(s.log), Line(w), w.written, n);
  }

  lemma AppendDoneLedgerInv(s: LedgerState, p: Pid)
    requires LedgerInv(s) && LedgerEnabled(s, AppendDone(p))
    ensures LedgerInv(LedgerAfter(s, AppendDone(p)))
  {
    forall q | q in s.work ensures q == p { SoleWorker(s, q, p); }
    var w := s.work[p];
    assert Line(w)[..w.written] == Line(w);
    assert (s.log + [w.record])[..|s.log|] == s.log;
  }

  lemma ReadSomeLedgerInv(s: LedgerState, p: Pid, n: nat)
    requires LedgerInv(s) && LedgerEnabled(s, ReadSome(p, n))
    ensures LedgerInv(LedgerAfter(s, ReadSome(p, n)))
  {
    hide Inv, ToJson, TextOfLog;
    forall q | q in s.work ensures q == p { SoleWorker(s, q, p); }
    var got := s.work[p].got;
    assert got + s.data[|got|..|got| + n] == s.data[..|got| + n];
  }

  lemma ReadDoneLedgerInv(s: LedgerState, p: Pid)
    requires LedgerInv(s) && LedgerEnabled(s, ReadDone(p))
    ensures LedgerInv(LedgerAfter(s, ReadDone(p)))
  {
    forall q | q in s.work ensures q == p { SoleWorker(s, q, p); }
  }

  lemma StepLedgerInv(s: LedgerState, e: LedgerEvent)
    requires LedgerInv(s) && LedgerEnabled(s, e)
    ensures LedgerInv(LedgerAfter(s, e))
  {
    match e
    case LeaseStep(e) => if e.p in s.work { CrashAtWork(s, e); } else { IdleLeaseStep(s, e); }
    case AppendSome(p, n) => AppendSomeLedgerInv(s, p, n);
    case AppendDone(p) => AppendDoneLedgerInv(s, p);
    case BeginAppend(_, _) => BeginLedgerInv(s, e);
    case BeginRead(_) => BeginLedgerInv(s, e);
    case ReadSome(p, n) => ReadSomeLedgerInv(s, p, n);
    case ReadDone(p) => ReadDoneLedgerInv(s, p);
  }

  lemma StepLogGrows(s: LedgerState, e: LedgerEvent)
    requires LedgerEnabled(s, e)
    ensures s.log <= LedgerAfter(s, e).log
  {
  }

  lemma {:induction false} LedgerRunInv(s: LedgerState, events: seq<LedgerEvent>)
    requires LedgerInv(s) && LedgerRun(s, events)
    ensures LedgerInv(LedgerEnd(s, events))
    ensures s.log <= LedgerEnd(s, events).log
    decreases |events|
  {
    if events != [] {
      StepLedgerInv(s, events[0]);
      StepLogGrows(s, events[0]);
      LedgerRunInv(LedgerAfter(s, events[0]), events[1..]);
    }
  }

  lemma LedgerInitialInv(s: LedgerState)
    requires LedgerInitial(s)
    ensures LedgerInv(s)
  {
    InitialInv(s.lease);
  }

  lemma ReadIsWhole(s: LedgerState, p: Pid)
    requires LedgerInv(s) && p in s.work && s.work[p].Reading? && |s.work[p].got| >= |s.data|
    ensures s.work[p].got == TextOfLog(s.log)
  {
    SettledData(s, p);
  }

  /** Every read of every run sees exactly the appends that had returned, whole and in order; those are a
      prefix of all that are ever appended. The read gives them back, or the line of the first record that
      cannot be read. */
  lemma ReadsSeePrefix(s0: LedgerState, events: seq<LedgerEvent>, p: Pid, later: seq<LedgerEvent>)
    requires LedgerInitial(s0) && LedgerRun(s0, events)
    requires LedgerEnabled(LedgerEnd(s0, events), ReadDone(p))
    requires LedgerRun(LedgerEnd(s0, events), later)
    ensures var s := LedgerEnd(s0, events);
            && ReadLines(SplitLines(s.work[p].got), 0, []) == ResultOfLog(s.log)
            && s0.log <= s.log <= LedgerEnd(s, later).log
  {
    LedgerInitialInv(s0);
    LedgerRunInv(s0, events);
    var s := LedgerEnd(s0, events);
    LedgerRunInv(s, later);
    ReadIsWhole(s, p);
    LogReads(s.log);
  }

  /** An append that has written its whole line has written it at the end. */
  lemma AppendedAt(s: LedgerState, p: Pid)
    requires LedgerInv(s) && LedgerEnabled(s, AppendDone(p))
    ensures p in s.work && s.work[p].Appending?
    ensures var w := s.work[p]; w.start + |Line(w)| == |s.data| && s.data[w.start..w.start + |Line(w)|] == Line(w)
  {
    hide Inv, TextOfLog, Line;
    var w := s.work[p];
    assert Line(w)[..|Line(w)|] == Line(w);
  }

  /** When an append has written everything, the bytes it reads back at its start are its own line. */
  lemma AppendVerifies(s0: LedgerState, events: seq<LedgerEvent>, p: Pid)
    requires LedgerInitial(s0) && LedgerRun(s0, events)
    requires LedgerEnabled(LedgerEnd(s0, events), AppendDone(p))
    ensures var s := LedgerEnd(s0, events);
            var w := s.work[p];
            && w.start + |Line(w)| == |s.data|
            && s.data[w.start..w.start + |Line(w)|] == Line(w)
  {
    hide LedgerRun, LedgerInv, LedgerInitial, LedgerEnabled, Line;
    LedgerInitialInv(s0);
    LedgerRunInv(s0, events);
    AppendedAt(LedgerEnd(s0, events), p);
  }

  // ---- progress ----

  lemma LedgerTwo(s: LedgerState, a: LedgerEvent, b: LedgerEvent)
    requires LedgerEnabled(s, a) && LedgerEnabled(LedgerAfter(s, a), b)
    ensures LedgerRun(s, [a, b]) && LedgerEnd(s, [a, b]) == LedgerAfter(LedgerAfter(s, a), b)
  {
    hide LedgerEnabled, LedgerAfter;
    var t, u := LedgerAfter(s, a), LedgerAfter(LedgerAfter(s, a), b);
    assert [a, b][1..] == [b] && [b][1..] == [];
    assert LedgerRun(u, []);
    assert LedgerRun(t, [b]) && LedgerEnd(t, [b]) == u;
  }

  lemma LedgerThree(s: LedgerState, a: LedgerEvent, b: LedgerEvent, c: LedgerEvent)
    requires LedgerEnabled(s, a) && LedgerEnabled(LedgerAfter(s, a), b)
    requires LedgerEnabled(LedgerAfter(LedgerAfter(s, a), b), c)
    ensures LedgerRun(s, [a, b, c])
    ensures LedgerEnd(s, [a, b, c]) == LedgerAfter(LedgerAfter(LedgerAfter(s, a), b), c)
  {
    hide LedgerEnabled, LedgerAfter;
    LedgerTwo(LedgerAfter(s, a), b, c);
    assert [a, b, c][1..] == [b, c];
  }

  /** Whoever holds the lease and has nothing begun can append: the line is there, at the end, and the record in the
      log, while the lease and everyone's work are as before. */
  lemma Appends(s: LedgerState, p: Pid, r: LearningRecord)
    requires LedgerInv(s) && At(s.lease, p).Held? && !Working(s, p) && ValidStructure(r)
    ensures var es := [BeginAppend(p, r), AppendSome(p, |Encoded(r)|), AppendDone(p)];
            && LedgerRun(s, es)
            && var t := LedgerEnd(s, es);
               && t.log == s.log + [r] && t.data == s.data + Encoded(r) && t.lease == s.lease && t.work == s.work
  {
    hide Inv, TextOfLog, ToJson, LedgerRun, LedgerEnd;
    var line := Encoded(r);
    var a := LedgerAfter(s, BeginAppend(p, r));
    var b := LedgerAfter(a, AppendSome(p, |line|));
    assert line[0..0 + |line|] == line;
    assert LedgerAfter(b, AppendDone(p)).work == s.work;
    LedgerThree(s, BeginAppend(p, r), AppendSome(p, |line|), AppendDone(p));
  }

  /** And it can read: everything that is there is got, and it is the text of the whole log. */
  lemma Reads(s: LedgerState, p: Pid)
    requires LedgerInv(s) && At(s.lease, p).Held? && !Working(s, p)
    ensures var es := if s.data == "" then [BeginRead(p)] else [BeginRead(p), ReadSome(p, |s.data|)];
            && LedgerRun(s, es)
            && var t := LedgerEnd(s, es);
               && p in t.work && t.work[p] == Reading(s.data) && s.data == TextOfLog(s.log)
               && LedgerEnabled(t, ReadDone(p)) && LedgerAfter(t, ReadDone(p)) == s
  {
    hide Inv, TextOfLog, LedgerRun, LedgerEnd, InLease;
    NobodyWorks(s, p);
    var a := LedgerAfter(s, BeginRead(p));
    assert Drop(a.work, p) == s.work;
    if s.data == "" {
      LedgerFirst(s, BeginRead(p));
    } else {
      assert "" + s.data[0..0 + |s.data|] == s.data;
      LedgerTwo(s, BeginRead(p), ReadSome(p, |s.data|));
      DroppedAll(s.work, p, Reading(""), Reading(s.data));
    }
  }

  lemma DroppedAll(work: map<Pid, Work>, p: Pid, v: Work, w: Work)
    requires p !in work
    ensures Drop(work[p := v][p := w], p) == work
  {
  }

  lemma NobodyWorks(s: LedgerState, p: Pid)
    requires LedgerInv(s) && At(s.lease, p).Held? && !Working(s, p)
    ensures s.work == map[] && s.data == TextOfLog(s.log)
  {
    forall q | q in s.work ensures q == p { SoleWorker(s, q, p); }
    assert NoAppend(s);
  }

  lemma LedgerFirst(s: LedgerState, a: LedgerEvent)
    requires LedgerEnabled(s, a)
    ensures LedgerRun(s, [a]) && LedgerEnd(s, [a]) == LedgerAfter(s, a)
  {
    hide LedgerEnabled, LedgerAfter;
    assert [a][1..] == [] && LedgerRun(LedgerAfter(s, a), []);
  }

  /** Whoever holds the lease is never stuck: it may begin or leave, or else go on by any number of bytes that are still
      to come, and is done when none are. */
  lemma WorkGoesOn(s: LedgerState, p: Pid)
    requires LedgerInv(s) && At(s.lease, p).Held?
    ensures if !Working(s, p) then
              && LedgerEnabled(s, LeaseStep(ReadOwner(p))) && LedgerEnabled(s, BeginRead(p))
              && (forall r :: ValidStructure(r) ==> LedgerEnabled(s, BeginAppend(p, r)))
            else match s.work[p]
              case Appending(r, _, written) =>
                && (LedgerEnabled(s, AppendDone(p)) <==> written == |Encoded(r)|)
                && (forall n: nat :: 0 < n <= |Encoded(r)| - written ==> LedgerEnabled(s, AppendSome(p, n)))
              case Reading(got) =>
                && (LedgerEnabled(s, ReadDone(p)) <==> got == s.data)
                && (forall n: nat :: 0 < n <= |s.data| - |got| ==> LedgerEnabled(s, ReadSome(p, n)))
  {
    hide Inv, TextOfLog, ToJson, InLease;
  }
}
