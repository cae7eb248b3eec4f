/** The Unix file lease as a protocol: any number of processes step in any order and may crash
    anywhere. Each step is one system call of `acquire_file_lease` or of the two `Drop`s. */
module Lease {
  import opened Text

  type Pid = nat
  type Inode = nat

  /** Where a process is. The steps from `Checked` on are the lease: the inode check has succeeded and
      the drop has not yet unlinked the path. */
  datatype Place =
    | Idle                                      // no lease and no descriptor
    | Opened(ino: Inode)                        // path opened or created
    | Locked(ino: Inode)                        // flock granted, inode not yet compared
    | Checked(ino: Inode)                       // the path still names the locked inode
    | Writing(ino: Inode, written: nat)         // file truncated, so many characters of the token written
    | Held(ino: Inode)                          // token written: the caller owns the lease
    | Matched(ino: Inode)                       // drop: the path was read and held the own token
    | Unmatched(ino: Inode)                     // drop: nothing to unlink, or already unlinked
    | Closing(ino: Inode)                       // flock released, descriptor still open

  /** `path` is the directory entry, `content` the inodes' text, `locks` the flock holders and
      `token` each process's current owner token. */
  datatype State = State(
    path: Option<Inode>,
    content: map<Inode, string>,
    locks: map<Inode, Pid>,
    place: map<Pid, Place>,
    token: map<Pid, string>)

  datatype Event =
    | Start(p: Pid, token: string)              // a process draws an owner token
    | OpenExisting(p: Pid)
    | Create(p: Pid, ino: Inode)                // open(O_CREAT) when the path names nothing
    | Flock(p: Pid)                             // LOCK_EX | LOCK_NB, granted
    | WouldBlock(p: Pid)                        // refused: the descriptor is closed, retry or time out
    | CheckInode(p: Pid)                        // fstat and stat agree
    | StaleInode(p: Pid)                        // they do not: the descriptor, and with it the lock, is dropped
    | Truncate(p: Pid)
    | Write(p: Pid, n: nat)                     // write_all may take several writes
    | WriteDone(p: Pid)
    | WriteFails(p: Pid)                        // write_owner errs: only the guard is dropped
    | ReadOwner(p: Pid)                         // drop: read the path and compare with the own token
    | Unlink(p: Pid)
    | Unlock(p: Pid)
    | Close(p: Pid)
    | Crash(p: Pid)                             // the kernel closes the descriptor and releases the lock

  predicate HasFile(w: Place) {
    !w.Idle?
  }

  predicate HoldsLock(w: Place) {
    w.Locked? || InLease(w) || w.Unmatched?
  }

  /** Between the successful inode check and the end of the drop's unlink. */
  predicate InLease(w: Place) {
    w.Checked? || w.Writing? || w.Held? || w.Matched?
  }

  function At(s: State, p: Pid): Place {
    if p in s.place then s.place[p] else Idle
  }

  function Token(s: State, p: Pid): string {
    if p in s.token then s.token[p] else ""
  }

  function Move(s: State, p: Pid, w: Place): State {
    s.(place := s.place[p := w])
  }

  function Release(s: State, ino: Inode): State {
    s.(locks := map i | i in s.locks && i != ino :: s.locks[i])
  }

  /** The text read through the path; reading a missing path fails. */
  function PathText(s: State): Option<string> {
    if s.path.Some? && s.path.value in s.content then Some(s.content[s.path.value]) else None
  }

  predicate Enabled(s: State, e: Event) {
    match e
    case Start(p, token) => At(s, p).Idle? && token != ""
    case OpenExisting(p) => At(s, p).Idle? && s.path.Some? && Token(s, p) != ""
    case Create(p, ino) =>
      // an inode number is free when the path does not name it and no descriptor is open on it
      At(s, p).Idle? && s.path == None && Token(s, p) != ""
      && forall q :: q in s.place && HasFile(s.place[q]) ==> s.place[q].ino != ino
    case Flock(p) => At(s, p).Opened? && At(s, p).ino !in s.locks
    case WouldBlock(p) => At(s, p).Opened? && At(s, p).ino in s.locks
    case CheckInode(p) => At(s, p).Locked? && s.path == Some(At(s, p).ino)
    case StaleInode(p) => At(s, p).Locked? && s.path != Some(At(s, p).ino)
    case Truncate(p) => At(s, p).Checked?
    case Write(p, n) => At(s, p).Writing? && 0 < n <= |Token(s, p)| - At(s, p).written
    case WriteDone(p) => At(s, p).Writing? && At(s, p).written == |Token(s, p)|
    case WriteFails(p) => At(s, p).Checked? || At(s, p).Writing?
    case ReadOwner(p) => At(s, p).Held?
    case Unlink(p) => At(s, p).Matched?
    case Unlock(p) => At(s, p).Unmatched?
    case Close(p) => At(s, p).Closing?
    case Crash(p) => true
  }

  function After(s: State, e: Event): State
    requires Enabled(s, e)
  {
    var w := At(s, e.p);
    match e
    case Start(p, token) => s.(token := s.token[p := token])
    case OpenExisting(p) => Move(s, p, Opened(s.path.value))
    case Create(p, ino) => Move(s, p, Opened(ino)).(path := Some(ino), content := s.content[ino := ""])
    case Flock(p) => Move(s, p, Locked(w.ino)).(locks := s.locks[w.ino := p])
    case WouldBlock(p) => Move(s, p, Idle)
    case CheckInode(p) => Move(s, p, Checked(w.ino))
    case StaleInode(p) => Release(Move(s, p, Idle), w.ino)
    case Truncate(p) => Move(s, p, Writing(w.ino, 0)).(content := s.content[w.ino := ""])
    case Write(p, n) =>
      var t := Token(s, p);
      Move(s, p, Writing(w.ino, w.written + n))
        .(content := s.content[w.ino := TextOf(s, w.ino) + t[w.written..w.written + n]])
    case WriteDone(p) => Move(s, p, Held(w.ino))
    case WriteFails(p) => Move(s, p, Unmatched(w.ino))
    case ReadOwner(p) => Move(s, p, if PathText(s) == Some(Token(s, p)) then Matched(w.ino) else Unmatched(w.ino))
    case Unlink(p) => Move(s, p, Unmatched(w.ino)).(path := None)
    case Unlock(p) => Release(Move(s, p, Closing(w.ino)), w.ino)
    case Close(p) => Move(s, p, Idle)
    case Crash(p) => if HoldsLock(w) then Release(Move(s, p, Idle), w.ino) else Move(s, p, Idle)
  }

  function TextOf(s: State, ino: Inode): string {
    if ino in s.content then s.content[ino] else ""
  }

  /** Nobody has opened the file. It may be there, left by a crash, with any text. */
  predicate Initial(s: State) {
    && s.locks == map[] && s.place == map[] && s.token == map[]
    && (s.path.Some? ==> s.path.value in s.content)
  }

  /** A run: the states a sequence of events leads through. */
  predicate Run(s: State, events: seq<Event>)
    decreases |events|
  {
    events == [] || (Enabled(s, events[0]) && Run(After(s, events[0]), events[1..]))
  }

  function RunEnd(s: State, events: seq<Event>): State
    requires Run(s, events)
    decreases |events|
  {
    if events == [] then s else RunEnd(After(s, events[0]), events[1..])
  }

  // ---- the invariant ----

  /** Whoever is at a place that holds a lock has it. */
  ghost predicate HoldersLocked(s: State) {
    forall p :: p in s.place ==> HolderLocked(s, p)
  }

  ghost predicate HolderLocked(s: State, p: Pid)
    requires p in s.place
  {
    HoldsLock(s.place[p]) ==> s.place[p].ino in s.locks && s.locks[s.place[p].ino] == p
  }

  /** Every lock belongs to a process at such a place. */
  ghost predicate LocksHeld(s: State) {
    forall ino :: ino in s.locks ==> LockHeld(s, ino)
  }

  ghost predicate LockHeld(s: State, ino: Inode)
    requires ino in s.locks
  {
    s.locks[ino] in s.place && HoldsLock(s.place[s.locks[ino]]) && s.place[s.locks[ino]].ino == ino
  }

  /** Whoever is in the lease has the inode the path names. */
  ghost predicate PathAgrees(s: State) {
    && (s.path.Some? ==> s.path.value in s.content)
    && (forall p :: p in s.place && InLease(s.place[p]) ==> s.path == Some(s.place[p].ino))
  }

  /** What the lease file holds at each place of its owner. */
  ghost predicate TokenAgrees(s: State) {
    forall p :: p in s.place ==> TokenHolds(s, p)
  }

  ghost predicate TokenHolds(s: State, p: Pid)
    requires p in s.place
  {
    match s.place[p]
    case Writing(ino, n) => n <= |Token(s, p)| && TextOf(s, ino) == Token(s, p)[..n]
    case Held(ino) => TextOf(s, ino) == Token(s, p)
    case Matched(ino) => TextOf(s, ino) == Token(s, p)
    case _ => true
  }

  ghost predicate Inv(s: State) {
    HoldersLocked(s) && LocksHeld(s) && PathAgrees(s) && TokenAgrees(s)
  }

  lemma InitialInv(s: State)
    requires Initial(s)
    ensures Inv(s)
  {
  }

  /** Two processes in the lease are one process. */
  lemma Exclusive(s: State, p: Pid, q: Pid)
    requires Inv(s) && InLease(At(s, p)) && InLease(At(s, q))
    ensures p == q
  {
    assert s.path == Some(s.place[p].ino) && s.path == Some(s.place[q].ino);
  }

  /** A step gives or takes no lock of another process. */
  lemma LocksKept(s: State, e: Event, q: Pid, ino: Inode)
    requires Inv(s) && Enabled(s, e) && q != e.p && ino in s.locks && s.locks[ino] == q
    ensures ino in After(s, e).locks && After(s, e).locks[ino] == q
  {
    hide LocksHeld, PathAgrees, TokenAgrees;
    if e.p in s.place { assert HolderLocked(s, e.p); }
  }

  lemma StepOwn(s: State, e: Event)
    requires Inv(s) && Enabled(s, e) && e.p in After(s, e).place
    ensures HolderLocked(After(s, e), e.p)
  {
    hide LocksHeld, PathAgrees, TokenAgrees;
    if e.p in s.place { assert HolderLocked(s, e.p); }
  }

  lemma StepHolders(s: State, e: Event)
    requires Inv(s) && Enabled(s, e)
    ensures HoldersLocked(After(s, e))
  {
    hide LocksHeld, PathAgrees, TokenAgrees, Enabled;
    forall q | q in After(s, e).place ensures HolderLocked(After(s, e), q) {
      if q == e.p { StepOwn(s, e); } else { StepOther(s, e, q); }
    }
  }

  lemma StepOther(s: State, e: Event, q: Pid)
    requires Inv(s) && Enabled(s, e) && q in After(s, e).place && q != e.p
    ensures HolderLocked(After(s, e), q)
  {
    hide LocksHeld, PathAgrees, TokenAgrees, After, Enabled;
    OtherPlace(s, e, q);
    assert HolderLocked(s, q);
    if HoldsLock(s.place[q]) { LocksKept(s, e, q, s.place[q].ino); }
  }

  lemma StepLocks(s: State, e: Event)
    requires Inv(s) && Enabled(s, e)
    ensures LocksHeld(After(s, e))
  {
    hide After, Enabled, Inv, LockHeld;
    forall ino | ino in After(s, e).locks ensures LockHeld(After(s, e), ino) {
      if After(s, e).locks[ino] == e.p { LockOwn(s, e, ino); } else { LockOther(s, e, ino); }
    }
  }

  lemma LockOwn(s: State, e: Event, ino: Inode)
    requires Inv(s) && Enabled(s, e) && ino in After(s, e).locks && After(s, e).locks[ino] == e.p
    ensures LockHeld(After(s, e), ino)
  {
    hide HoldersLocked, LocksHeld, PathAgrees, TokenAgrees, TextOf, PathText, Token;
    if e.Flock? {
      LockGranted(s, e, ino);
    } else {
      LockKnown(s, e, ino);
      match e
      case Start(_, _) =>
      case CheckInode(_) =>
      case Truncate(_) =>
      case Write(_, _) =>
      case WriteDone(_) =>
      case WriteFails(_) =>
      case ReadOwner(_) =>
      case Unlink(_) =>
      case _ =>
    }
  }

  lemma LockGranted(s: State, e: Event, ino: Inode)
    requires Inv(s) && Enabled(s, e) && e.Flock? && ino in After(s, e).locks && After(s, e).locks[ino] == e.p
    ensures LockHeld(After(s, e), ino)
  {
    hide HoldersLocked, PathAgrees, TokenAgrees;
    assert forall i :: i in s.locks ==> LockHeld(s, i);
  }

  /** Only a granted lock is new. */
  lemma LockKnown(s: State, e: Event, ino: Inode)
    requires Inv(s) && Enabled(s, e) && ino in After(s, e).locks && !e.Flock?
    ensures ino in s.locks && s.locks[ino] == After(s, e).locks[ino] && LockHeld(s, ino)
  {
    hide HoldersLocked, PathAgrees, TokenAgrees, TextOf, PathText, Token, LockHeld;
  }

  lemma LockOther(s: State, e: Event, ino: Inode)
    requires Inv(s) && Enabled(s, e) && ino in After(s, e).locks && After(s, e).locks[ino] != e.p
    ensures LockHeld(After(s, e), ino)
  {
    hide HoldersLocked, PathAgrees, TokenAgrees;
    assert ino in s.locks && s.locks[ino] == After(s, e).locks[ino];
    assert LockHeld(s, ino);
  }

  lemma StepPath(s: State, e: Event)
    requires Inv(s) && Enabled(s, e)
    ensures PathAgrees(After(s, e))
  {
    hide Enabled, After, Inv;
    PathWritten(s, e);
    forall q | q in After(s, e).place && InLease(After(s, e).place[q])
      ensures After(s, e).path == Some(After(s, e).place[q].ino)
    {
      if q == e.p { PathOwn(s, e); } else { PathOther(s, e, q); }
    }
  }

  lemma PathWritten(s: State, e: Event)
    requires Inv(s) && Enabled(s, e)
    ensures After(s, e).path.Some? ==> After(s, e).path.value in After(s, e).content
  {
    hide HoldersLocked, LocksHeld, TokenAgrees;
  }

  lemma PathOwn(s: State, e: Event)
    requires Inv(s) && Enabled(s, e) && e.p in After(s, e).place && InLease(After(s, e).place[e.p])
    ensures After(s, e).path == Some(After(s, e).place[e.p].ino)
  {
    hide HoldersLocked, LocksHeld, TokenAgrees;
  }

  lemma PathOther(s: State, e: Event, q: Pid)
    requires Inv(s) && Enabled(s, e) && q != e.p && q in After(s, e).place && InLease(After(s, e).place[q])
    ensures After(s, e).path == Some(After(s, e).place[q].ino)
  {
    hide HoldersLocked, LocksHeld, TokenAgrees;
    OtherPlace(s, e, q);
    if e.Unlink? { Exclusive(s, e.p, q); }
  }

  lemma StepToken(s: State, e: Event)
    requires Inv(s) && Enabled(s, e)
    ensures TokenAgrees(After(s, e))
  {
    hide Enabled, After, Inv, TokenHolds;
    forall q | q in After(s, e).place ensures TokenHolds(After(s, e), q) {
      if q == e.p { TokenOwn(s, e); } else { TokenOther(s, e, q); }
    }
  }

  lemma TokenOwn(s: State, e: Event)
    requires Inv(s) && Enabled(s, e) && e.p in After(s, e).place
    ensures TokenHolds(After(s, e), e.p)
  {
    hide HoldersLocked, LocksHeld;
    if e.p in s.place { assert TokenHolds(s, e.p); }
  }

  /** The file of a process in its lease is left alone by the others. */
  lemma TextKept(s: State, e: Event, q: Pid)
    requires Inv(s) && Enabled(s, e) && q in s.place && q != e.p && InLease(s.place[q])
    ensures TextOf(After(s, e), s.place[q].ino) == TextOf(s, s.place[q].ino)
  {
    hide HoldersLocked, LocksHeld, TokenAgrees;
    if InLease(At(s, e.p)) { Exclusive(s, e.p, q); }
  }

  lemma TokenOther(s: State, e: Event, q: Pid)
    requires Inv(s) && Enabled(s, e) && q in After(s, e).place && q != e.p
    ensures TokenHolds(After(s, e), q)
  {
    hide HoldersLocked, LocksHeld, PathAgrees, After, TextOf, Enabled;
    OtherPlace(s, e, q);
    assert TokenHolds(s, q);
    if InLease(s.place[q]) { TextKept(s, e, q); }
  }

  lemma OtherPlace(s: State, e: Event, q: Pid)
    requires Inv(s) && Enabled(s, e) && q in After(s, e).place && q != e.p
    ensures q in s.place && After(s, e).place[q] == s.place[q] && Token(After(s, e), q) == Token(s, q)
  {
    hide Inv;
  }

  lemma StepInv(s: State, e: Event)
    requires Inv(s) && Enabled(s, e)
    ensures Inv(After(s, e))
  {
    StepHolders(s, e);
    StepLocks(s, e);
    StepPath(s, e);
    StepToken(s, e);
  }

  lemma {:induction false} RunInv(s: State, events: seq<Event>)
    requires Inv(s) && Run(s, events)
    ensures Inv(RunEnd(s, events))
    decreases |events|
  {
    if events != [] {
      StepInv(s, events[0]);
      RunInv(After(s, events[0]), events[1..]);
    }
  }

  /** In every state of every run at most one process is between its inode check and its unlink; the
      path names its inode and, once it has written it, holds its token. */
  lemma LeaseIsExclusive(s0: State, events: seq<Event>, p: Pid)
    requires Initial(s0) && Run(s0, events)
    requires InLease(At(RunEnd(s0, events), p))
    ensures var s := RunEnd(s0, events);
            && (forall q :: InLease(At(s, q)) ==> q == p)
            && s.path == Some(At(s, p).ino)
            && (At(s, p).Held? || At(s, p).Matched? ==> PathText(s) == Some(Token(s, p)))
  {
    InitialInv(s0);
    RunInv(s0, events);
    var s := RunEnd(s0, events);
    forall q | InLease(At(s, q)) ensures q == p { Exclusive(s, p, q); }
  }

  /** An unlink removes the unlinking process's own file: its inode, holding its token, while nobody else
      is in the lease. */
  lemma UnlinkIsOwn(s0: State, events: seq<Event>, p: Pid)
    requires Initial(s0) && Run(s0, events) && Enabled(RunEnd(s0, events), Unlink(p))
    ensures var s := RunEnd(s0, events);
            && s.path == Some(At(s, p).ino) && PathText(s) == Some(Token(s, p))
            && forall q :: q != p ==> !InLease(At(s, q))
  {
    LeaseIsExclusive(s0, events, p);
  }

  /** A drop that is not cut short always finds its own token and unlinks. */
  lemma DropFindsItsToken(s0: State, events: seq<Event>, p: Pid)
    requires Initial(s0) && Run(s0, events) && Enabled(RunEnd(s0, events), ReadOwner(p))
    ensures At(After(RunEnd(s0, events), ReadOwner(p)), p).Matched?
  {
    LeaseIsExclusive(s0, events, p);
  }

  // ---- progress ----

  /** The steps of an undisturbed acquisition; `free` is an unused inode number. */
  function Acquisition(s: State, p: Pid, token: string, free: Inode): seq<Event> {
    [Start(p, token), if s.path.Some? then OpenExisting(p) else Create(p, free),
     Flock(p), CheckInode(p), Truncate(p), Write(p, |token|), WriteDone(p)]
  }

  ghost predicate Unused(s: State, ino: Inode) {
    ino !in s.locks && forall q :: q in s.place && HasFile(s.place[q]) ==> s.place[q].ino != ino
  }

  lemma {:induction false} RunConcat(s: State, a: seq<Event>, b: seq<Event>)
    requires Run(s, a) && Run(RunEnd(s, a), b)
    ensures Run(s, a + b) && RunEnd(s, a + b) == RunEnd(RunEnd(s, a), b)
    decreases |a|
  {
    if a == [] {
      assert a + b == b;
    } else {
      assert (a + b)[1..] == a[1..] + b;
      RunConcat(After(s, a[0]), a[1..], b);
    }
  }

  lemma RunOne(s: State, e: Event)
    requires Enabled(s, e)
    ensures Run(s, [e]) && RunEnd(s, [e]) == After(s, e)
  {
    assert Run(After(s, e), []);
    assert [e][1..] == [];
  }

  /** Extends a run by one enabled event. */
  lemma RunSnoc(s: State, a: seq<Event>, e: Event)
    requires Run(s, a) && Enabled(RunEnd(s, a), e)
    ensures Run(s, a + [e]) && RunEnd(s, a + [e]) == After(RunEnd(s, a), e)
  {
    RunOne(RunEnd(s, a), e);
    RunConcat(s, a, [e]);
  }

  /** The inode an undisturbed acquisition works on. */
  function Target(s: State, free: Inode): Inode {
    if s.path.Some? then s.path.value else free
  }

  lemma AcquiresCheck(s: State, p: Pid, token: string, free: Inode)
    requires Inv(s) && At(s, p).Idle? && token != "" && Unused(s, free)
    requires s.path.Some? ==> s.path.value !in s.locks
    ensures var es := Acquisition(s, p, token, free)[..4];
            && Run(s, es)
            && At(RunEnd(s, es), p) == Checked(Target(s, free)) && Token(RunEnd(s, es), p) == token
  {
    hide Run, RunEnd, Inv;
    var es := Acquisition(s, p, token, free);
    forall k | 0 < k < 4 ensures es[..k + 1] == es[..k] + [es[k]] { }
    RunOne(s, es[0]);
    assert es[..1] == [es[0]];
    RunSnoc(s, es[..1], es[1]);
    RunSnoc(s, es[..2], es[2]);
    RunSnoc(s, es[..3], es[3]);
  }

  /** Whatever file is lying about, an idle process acquires the lease once its lock is free. */
  lemma Acquires(s: State, p: Pid, token: string, free: Inode)
    requires Inv(s) && At(s, p).Idle? && token != "" && Unused(s, free)
    requires s.path.Some? ==> s.path.value !in s.locks
    ensures Run(s, Acquisition(s, p, token, free))
    ensures At(RunEnd(s, Acquisition(s, p, token, free)), p).Held?
  {
    hide Run, RunEnd, Inv, Unused;
    var es := Acquisition(s, p, token, free);
    AcquiresCheck(s, p, token, free);
    forall k | 4 <= k < 7 ensures es[..k + 1] == es[..k] + [es[k]] { }
    RunSnoc(s, es[..4], es[4]);
    RunSnoc(s, es[..5], es[5]);
    RunSnoc(s, es[..6], es[6]);
    assert es[..7] == es;
  }

  /** A crash never wedges the lease: whoever held it, the next process can take it over. */
  lemma CrashReleases(s: State, q: Pid, p: Pid, token: string, free: Inode)
    requires Inv(s) && InLease(At(s, q)) && p != q && At(s, p).Idle? && token != "" && Unused(s, free)
    ensures var s' := After(s, Crash(q));
            && s'.path == s.path
            && Run(s', Acquisition(s', p, token, free))
            && At(RunEnd(s', Acquisition(s', p, token, free)), p).Held?
  {
    StepInv(s, Crash(q));
    Acquires(After(s, Crash(q)), p, token, free);
  }

  // ---- the end of a lease ----

  /** The steps of an undisturbed drop. */
  function Dropping(p: Pid): seq<Event> {
    [ReadOwner(p), Unlink(p), Unlock(p), Close(p)]
  }

  /** Nobody but `p` is anywhere else, and no lock but that of `ino` has changed. */
  ghost predicate OthersStay(s: State, t: State, p: Pid, ino: Inode) {
    && (forall q :: q != p ==> At(t, q) == At(s, q) && Token(t, q) == Token(s, q))
    && (forall i :: i != ino ==> (i in t.locks <==> i in s.locks) && (i in s.locks ==> t.locks[i] == s.locks[i]))
  }

  /** The states an undisturbed drop leads through. */
  lemma DropStates(s: State, p: Pid)
    requires Inv(s) && At(s, p).Held?
    ensures Enabled(s, ReadOwner(p))
    ensures var a := After(s, ReadOwner(p));
            && Enabled(a, Unlink(p))
            && var b := After(a, Unlink(p));
               && Enabled(b, Unlock(p))
               && var c := After(b, Unlock(p));
                  && Enabled(c, Close(p))
                  && var t, ino := After(c, Close(p)), At(s, p).ino;
                     && t.path == None && t.content == s.content && ino !in t.locks && At(t, p) == Idle
                     && OthersStay(s, t, p, ino)
  {
    hide HoldersLocked, LocksHeld;
    assert TokenHolds(s, p);
  }

  /** Four enabled steps are a run. */
  lemma RunFour(s: State, d: Event, e: Event, f: Event, g: Event)
    requires Enabled(s, d) && Enabled(After(s, d), e) && Enabled(After(After(s, d), e), f)
    requires Enabled(After(After(After(s, d), e), f), g)
    ensures Run(s, [d, e, f, g]) && RunEnd(s, [d, e, f, g]) == After(After(After(After(s, d), e), f), g)
  {
    hide Enabled, After, Run, RunEnd;
    RunOne(s, d);
    RunSnoc(s, [d], e);
    assert [d] + [e] == [d, e];
    RunSnoc(s, [d, e], f);
    assert [d, e] + [f] == [d, e, f];
    RunSnoc(s, [d, e, f], g);
    assert [d, e, f] + [g] == [d, e, f, g];
  }

  lemma DropRuns(s: State, p: Pid)
    requires Inv(s) && At(s, p).Held?
    ensures Run(s, Dropping(p))
    ensures var t, ino := RunEnd(s, Dropping(p)), At(s, p).ino;
            && t.path == None && t.content == s.content && ino !in t.locks && At(t, p) == Idle
            && OthersStay(s, t, p, ino)
  {
    hide Run, RunEnd, Inv, Enabled, After, OthersStay;
    DropStates(s, p);
    RunFour(s, ReadOwner(p), Unlink(p), Unlock(p), Close(p));
  }

  /** Whoever holds the lease can drop it: the path and the lock are gone, the process has nothing open, nobody else has
      moved, and any idle process, the same one too, can acquire the lease next. */
  lemma Drops(s0: State, events: seq<Event>, p: Pid, q: Pid, token: string, free: Inode)
    requires Initial(s0) && Run(s0, events) && At(RunEnd(s0, events), p).Held?
    ensures var s := RunEnd(s0, events);
            && Run(s, Dropping(p))
            && var t, ino := RunEnd(s, Dropping(p)), At(s, p).ino;
               && t.path == None && t.content == s.content && ino !in t.locks && At(t, p) == Idle
               && OthersStay(s, t, p, ino)
               && (At(t, q).Idle? && token != "" && Unused(t, free) ==>
                     && Run(t, Acquisition(t, q, token, free))
                     && At(RunEnd(t, Acquisition(t, q, token, free)), q).Held?)
  {
    hide Run, RunEnd, Inv, OthersStay, Unused;
    InitialInv(s0);
    RunInv(s0, events);
    var s := RunEnd(s0, events);
    DropRuns(s, p);
    RunInv(s, Dropping(p));
    var t := RunEnd(s, Dropping(p));
    if At(t, q).Idle? && token != "" && Unused(t, free) { Acquires(t, q, token, free); }
  }

  /** A process that finds the file locked, or the path moved on, is idle again and has left no trace. */
  lemma RetryLeavesNothing(s: State, p: Pid, e: Event)
    requires Inv(s)
    requires || (At(s, p).Opened? && At(s, p).ino in s.locks && e == WouldBlock(p))
             || (At(s, p).Locked? && s.path != Some(At(s, p).ino) && e == StaleInode(p))
    ensures Enabled(s, e)
    ensures var t := After(s, e);
            && At(t, p) == Idle && t.path == s.path && t.content == s.content && OthersStay(s, t, p, At(s, p).ino)
            && (At(s, p).ino in t.locks <==> e.WouldBlock?)
  {
    if e.StaleInode? { assert HolderLocked(s, p); }
  }

  /** A process that cannot write its token gives the lock back and leaves the file where it is. */
  lemma FailureReleases(s: State, p: Pid)
    requires Inv(s) && (At(s, p).Checked? || At(s, p).Writing?)
    ensures var es := [WriteFails(p), Unlock(p), Close(p)];
            && Run(s, es)
            && var t, ino := RunEnd(s, es), At(s, p).ino;
               && t.path == s.path == Some(ino) && t.content == s.content && ino !in t.locks && At(t, p) == Idle
               && OthersStay(s, t, p, ino)
  {
    hide Run, RunEnd, HoldersLocked, LocksHeld, TokenAgrees;
    var es := [WriteFails(p), Unlock(p), Close(p)];
    RunOne(s, es[0]);
    assert es[..1] == [es[0]] && es[..2] == es[..1] + [es[1]] && es == es[..2] + [es[2]];
    RunSnoc(s, es[..1], es[1]);
    RunSnoc(s, es[..2], es[2]);
  }

  /** Only a process in the lease, or one that creates the file, changes what a file holds; and the path changes only by
      a creation where there was none and by the unlink of the process in the lease. */
  lemma StepTouches(s: State, e: Event)
    requires Inv(s) && Enabled(s, e)
    ensures After(s, e).content != s.content ==> e.Create? || (InLease(At(s, e.p)) && s.path == Some(At(s, e.p).ino))
    ensures forall i :: i in s.content && s.path != Some(i) && !e.Create? ==>
              i in After(s, e).content && After(s, e).content[i] == s.content[i]
    ensures After(s, e).path != s.path ==>
              || (e.Create? && s.path == None && After(s, e).path == Some(e.ino))
              || (e.Unlink? && InLease(At(s, e.p)) && After(s, e).path == None)
  {
    hide HoldersLocked, LocksHeld, TokenAgrees;
  }

  /** No process is ever stuck: wherever it is, the next call of its program can be made, with the one outcome that the
      lock, the path or what is still to be written allows. */
  lemma NeverStuck(s: State, p: Pid)
    ensures Enabled(s, Crash(p))
    ensures match At(s, p)
            case Idle => (forall token :: token != "" ==> Enabled(s, Start(p, token)))
                         && (Token(s, p) != "" && s.path.Some? ==> Enabled(s, OpenExisting(p)))
                         && (forall free :: Token(s, p) != "" && s.path == None && Unused(s, free) ==>
                               Enabled(s, Create(p, free)))
            case Opened(ino) =>
              (Enabled(s, Flock(p)) <==> ino !in s.locks) && (Enabled(s, WouldBlock(p)) <==> ino in s.locks)
            case Locked(ino) =>
              && (Enabled(s, CheckInode(p)) <==> s.path == Some(ino))
              && (Enabled(s, StaleInode(p)) <==> s.path != Some(ino))
            case Checked(_) => Enabled(s, Truncate(p)) && Enabled(s, WriteFails(p))
            case Writing(_, written) =>
              && Enabled(s, WriteFails(p)) && (Enabled(s, WriteDone(p)) <==> written == |Token(s, p)|)
              && (forall n: nat :: 0 < n <= |Token(s, p)| - written <==> Enabled(s, Write(p, n)))
            case Held(_) => Enabled(s, ReadOwner(p))
            case Matched(_) => Enabled(s, Unlink(p))
            case Unmatched(_) => Enabled(s, Unlock(p))
            case Closing(_) => Enabled(s, Close(p))
  {
  }
}
