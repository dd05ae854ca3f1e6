/** `Socket::Shared` on the Linux branch of `src/socket.cpp`, as a client of the reader/writer
    lock: threads run `read`/`write`, `close` and `isOpen` on one shared descriptor. */
module SharedSocket {
  import opened Threads
  import L = RWMutexes

  /** The writer section a thread still has to run. */
  datatype Job = CloseJob | ForgetJob

  datatype After = Return | ThenWrite(job: Job)

  datatype Op =
    | Rest
    | IoCheck               // read or write: holds the read lock, `s` not looked at yet
    | InSyscall             // inside recv or send
    | CloseCheck            // close: first, read-locked section
    | OpenCheck             // isOpen: first, read-locked section
    | RDone(after: After)   // about to give the read lock back
    | WWant(job: Job)       // acquiring or holding the write lock, job not done yet
    | WDone                 // job done, about to give the write lock back

  /** `valid` is `s != InvalidSocket`; `closes` counts `::close` on the descriptor. */
  datatype State = State(lock: L.State, valid: bool, closes: nat, op: map<Tid, Op>)

  predicate Doing(s: State, t: Tid, o: Op) { t in s.op && s.op[t] == o }

  // ------------------------------------------------------------------- steps

  ghost predicate Begin(s: State, s': State, t: Tid, first: Op) {
    && Doing(s, t, Rest) && (first == IoCheck || first == CloseCheck || first == OpenCheck)
    && L.LockReader(s.lock, s'.lock, t)
    && s' == s.(lock := s'.lock, op := s.op[t := first])
  }

  ghost predicate StartIo(s: State, s': State, t: Tid) {
    Doing(s, t, IoCheck) && s' == s.(op := s.op[t := if s.valid then InSyscall else RDone(Return)])
  }

  ghost predicate EndIo(s: State, s': State, t: Tid) {
    Doing(s, t, InSyscall) && s' == s.(op := s.op[t := RDone(Return)])
  }

  /** `close` only shuts the connection down under the read lock. */
  ghost predicate Shutdown(s: State, s': State, t: Tid) {
    Doing(s, t, CloseCheck) && s' == s.(op := s.op[t := RDone(ThenWrite(CloseJob))])
  }

  ghost predicate CheckOpen(s: State, s': State, t: Tid, errored: bool) {
    && Doing(s, t, OpenCheck)
    && s' == s.(op := s.op[t := RDone(if s.valid && !errored then Return else ThenWrite(ForgetJob))])
  }

  ghost predicate LeaveRead(s: State, s': State, t: Tid) {
    && t in s.op && s.op[t].RDone?
    && L.UnlockReader(s.lock, s'.lock, t)
    && s' == s.(lock := s'.lock, op := s.op[t := if s.op[t].after.Return? then Rest else WWant(s.op[t].after.job)])
  }

  ghost predicate AcquireWrite(s: State, s': State, t: Tid) {
    && t in s.op && s.op[t].WWant?
    && (L.LockWriter(s.lock, s'.lock, t) || L.SpuriousWake(s.lock, s'.lock, t) || L.Resume(s.lock, s'.lock, t))
    && s' == s.(lock := s'.lock)
  }

  /** The write-locked section: `close` closes a valid descriptor, `isOpen` only forgets it. */
  ghost predicate DoJob(s: State, s': State, t: Tid) {
    && t in s.op && s.op[t].WWant? && L.In(s.lock, t, L.Writing)
    && s' == s.(valid := false,
                closes := if s.op[t].job == CloseJob && s.valid then s.closes + 1 else s.closes,
                op := s.op[t := WDone])
  }

  ghost predicate LeaveWrite(s: State, s': State, t: Tid) {
    && Doing(s, t, WDone)
    && if L.In(s.lock, t, L.Writing)
       then L.UnlockWriter(s.lock, s'.lock, t) && s' == s.(lock := s'.lock)
       else L.ReleaseMutex(s.lock, s'.lock, t) && s' == s.(lock := s'.lock, op := s.op[t := Rest])
  }

  ghost predicate Step(s: State, s': State, t: Tid, o: Op, errored: bool) {
    || Begin(s, s', t, o)
    || StartIo(s, s', t)
    || EndIo(s, s', t)
    || Shutdown(s, s', t)
    || CheckOpen(s, s', t, errored)
    || LeaveRead(s, s', t)
    || AcquireWrite(s, s', t)
    || DoJob(s, s', t)
    || LeaveWrite(s, s', t)
  }

  ghost predicate Next(s: State, s': State) { exists t: Tid, o: Op, e: bool :: Step(s, s', t, o, e) }

  ghost predicate Init(s: State) {
    && L.Init(s.lock) && s.closes == 0
    && s.op.Keys == s.lock.pc.Keys && forall t | t in s.op :: s.op[t] == Rest
  }

  ghost predicate Run(states: seq<State>) {
    && states != [] && Init(states[0])
    && forall i | 0 < i < |states| :: Next(states[i - 1], states[i])
  }

  // --------------------------------------------------------------- invariant

  /** The lock state each stage of an operation is in. */
  predicate Fits(o: Op, p: L.Pc) {
    match o
    case Rest => p == L.Idle
    case IoCheck | InSyscall | CloseCheck | OpenCheck | RDone(_) => p == L.Reading
    case WWant(_) => p == L.Idle || p == L.Waiting || p == L.Awake || p == L.Writing
    case WDone => p == L.Writing || p == L.Leaving
  }

  ghost predicate Inv(s: State) {
    && L.Inv(s.lock)
    && s.op.Keys == s.lock.pc.Keys
    && (forall t | t in s.op :: Fits(s.op[t], s.lock.pc[t]))
    && (forall t | t in s.op && s.op[t] == InSyscall :: s.valid)
    && (if s.valid then s.closes == 0 else s.closes <= 1)
  }

  /** A lock step of t moves no other thread except from waiting to awake. */
  lemma LockStepFrame(l: L.State, l': L.State, t: Tid)
    requires L.Inv(l) && L.Step(l, l', t)
    ensures L.Inv(l') && l'.pc.Keys == l.pc.Keys
    ensures forall u | u in l.pc && u != t :: l'.pc[u] == l.pc[u] || (l.pc[u] == L.Waiting && l'.pc[u] == L.Awake)
    ensures L.LockReader(l, l', t) ==> l'.pc[t] == L.Reading
    ensures L.UnlockReader(l, l', t) ==> l'.pc[t] == L.Idle
    ensures L.LockWriter(l, l', t) || L.SpuriousWake(l, l', t) || L.Resume(l, l', t) ==>
              l'.pc[t] == L.Waiting || l'.pc[t] == L.Awake || l'.pc[t] == L.Writing
    ensures L.UnlockWriter(l, l', t) ==> l'.pc[t] == L.Leaving
    ensures L.ReleaseMutex(l, l', t) ==> l'.pc[t] == L.Idle
  {
    hide L.Inv;
    L.InvKept(l, l', t);
    if L.UnlockReader(l, l', t) && l'.readLocks == 0 && l.pendingWriteLocks > 0 {
      L.NotifyOneCounts(l.pc[t := L.Idle], l'.pc);
    } else if L.UnlockWriter(l, l', t) && l.pendingWriteLocks > 0 {
      L.NotifyOneCounts(l.pc[t := L.Leaving], l'.pc);
    }
  }

  /** Whoever holds the write lock is alone: nobody is inside recv or send. */
  lemma WriterSeesNoSyscall(s: State, t: Tid)
    requires Inv(s) && L.In(s.lock, t, L.Writing)
    ensures forall u | u in s.op :: s.op[u] != InSyscall
  {
    CountNone(s.lock.pc, L.Reading);
  }

  lemma ReadLockStepKeepsInv(s: State, s': State, t: Tid, o: Op)
    requires Inv(s) && (Begin(s, s', t, o) || LeaveRead(s, s', t))
    ensures Inv(s')
  {
    hide L.Inv, L.LockReader, L.UnlockReader, L.LockWriter, L.SpuriousWake, L.Resume, L.UnlockWriter, L.ReleaseMutex;
    LockStepFrame(s.lock, s'.lock, t);
  }

  lemma WriteLockStepKeepsInv(s: State, s': State, t: Tid)
    requires Inv(s) && (AcquireWrite(s, s', t) || LeaveWrite(s, s', t))
    ensures Inv(s')
  {
    hide L.Inv, L.LockReader, L.UnlockReader, L.LockWriter, L.SpuriousWake, L.Resume, L.UnlockWriter, L.ReleaseMutex;
    LockStepFrame(s.lock, s'.lock, t);
  }

  lemma OpStepKeepsInv(s: State, s': State, t: Tid, errored: bool)
    requires Inv(s)
    requires StartIo(s, s', t) || EndIo(s, s', t) || Shutdown(s, s', t) || CheckOpen(s, s', t, errored)
    ensures Inv(s')
  {
    hide L.Inv;
  }

  lemma DoJobKeepsInv(s: State, s': State, t: Tid)
    requires Inv(s) && DoJob(s, s', t)
    ensures Inv(s')
  {
    hide L.Inv;
    WriterSeesNoSyscall(s, t);
  }

  lemma InvKept(s: State, s': State)
    requires Inv(s) && Next(s, s')
    ensures Inv(s')
  {
    hide Inv, Begin, StartIo, EndIo, Shutdown, CheckOpen, LeaveRead, AcquireWrite, DoJob, LeaveWrite;
    var t: Tid, o: Op, e: bool :| Step(s, s', t, o, e);
    if Begin(s, s', t, o) || LeaveRead(s, s', t) {
      ReadLockStepKeepsInv(s, s', t, o);
    } else if AcquireWrite(s, s', t) || LeaveWrite(s, s', t) {
      WriteLockStepKeepsInv(s, s', t);
    } else if DoJob(s, s', t) {
      DoJobKeepsInv(s, s', t);
    } else {
      OpStepKeepsInv(s, s', t, e);
    }
  }

  lemma {:induction false} RunsKeepInv(states: seq<State>, k: nat)
    requires Run(states) && k < |states|
    ensures Inv(states[k])
  {
    if k == 0 {
      L.InitInv(states[0].lock);
    } else {
      RunsKeepInv(states, k - 1);
      InvKept(states[k - 1], states[k]);
    }
  }

  // ---------------------------------------------------------------- theorems

  /** Over all runs the descriptor is closed at most once, never while a `recv` or `send` on it is
      running, and none starts after it is closed. */
  lemma ClosedOnceAndNeverInUse(states: seq<State>, k: nat)
    requires Run(states) && 0 < k < |states|
    ensures states[k].closes <= 1
    ensures states[k].closes == 1 ==> NobodyInside(states[k])
    ensures states[k - 1].closes < states[k].closes ==> NobodyInside(states[k - 1])
  {
    RunsKeepInv(states, k - 1);
    RunsKeepInv(states, k);
    assert Next(states[k - 1], states[k]);
    ClosesAlone(states[k - 1], states[k]);
  }

  /** Nobody is inside `recv` or `send`. */
  ghost predicate NobodyInside(s: State) {
    forall t | t in s.op :: s.op[t] != InSyscall
  }

  lemma ClosesAlone(s: State, s': State)
    requires Inv(s) && Inv(s') && Next(s, s')
    ensures s'.closes <= 1 && (s'.closes == 1 ==> NobodyInside(s'))
    ensures s.closes < s'.closes ==> NobodyInside(s)
  {
    hide L.Inv, L.LockReader, L.UnlockReader, L.LockWriter, L.SpuriousWake, L.Resume, L.UnlockWriter, L.ReleaseMutex, Fits;
    var t: Tid, o: Op, e: bool :| Step(s, s', t, o, e);
    if DoJob(s, s', t) {
      WriterSeesNoSyscall(s, t);
    }
  }

  /** Once `s` is invalid the descriptor's fate is settled: whether it has been closed never
      changes again. So a descriptor that `isOpen` forgot is never closed. */
  lemma {:induction false} ForgottenStaysAsItIs(states: seq<State>, i: nat, k: nat)
    requires Run(states) && i <= k < |states| && !states[i].valid
    ensures !states[k].valid && states[k].closes == states[i].closes
    decreases k
  {
    if i < k {
      ForgottenStaysAsItIs(states, i, k - 1);
      assert Next(states[k - 1], states[k]);
    }
  }

  lemma JobsEndIt(s: State, s': State)
    requires Next(s, s') && s.valid
    ensures s'.valid ==> s'.closes == s.closes
    ensures !s'.valid ==> exists t :: DoJob(s, s', t)
  {
    hide L.LockReader, L.UnlockReader, L.LockWriter, L.SpuriousWake, L.Resume, L.UnlockWriter, L.ReleaseMutex;
  }

  /** In every run exactly one step takes the descriptor away, and it alone decides: the descriptor
      is closed if and only if that step was `close`'s. If it was `isOpen`'s, which found the socket
      in error, the descriptor is never closed. */
  lemma {:induction false} ClosedIffByClose(states: seq<State>, k: nat) returns (i: nat, t: Tid)
    requires Run(states) && k < |states| && states[0].valid && !states[k].valid
    ensures i < k && states[i].valid && !states[i + 1].valid && DoJob(states[i], states[i + 1], t)
    ensures states[k].closes == if states[i].op[t].job == CloseJob then 1 else 0
    ensures forall j | 0 <= j <= k :: states[j].valid <==> j <= i
  {
    assert Next(states[k - 1], states[k]);
    if states[k - 1].valid {
      i := k - 1;
      JobsEndIt(states[i], states[k]);
      t :| DoJob(states[i], states[k], t);
      RunsKeepInv(states, i);
      ValidBefore(states, i);
    } else {
      i, t := ClosedIffByClose(states, k - 1);
      ForgottenStaysAsItIs(states, k - 1, k);
    }
  }

  lemma ValidBefore(states: seq<State>, k: nat)
    requires Run(states) && k < |states| && states[k].valid
    ensures forall j | 0 <= j <= k :: states[j].valid
  {
    forall j | 0 <= j <= k
      ensures states[j].valid
    {
      if !states[j].valid {
        ForgottenStaysAsItIs(states, j, k);
      }
    }
  }

  /** The wish to forget comes from `isOpen` alone: after it has found the socket in error, or
      gone already. */
  lemma OnlyIsOpenForgets(s: State, s': State, t: Tid, o: Op, errored: bool)
    requires Step(s, s', t, o, errored)
    requires t in s.op && s.op[t] != RDone(ThenWrite(ForgetJob)) && Doing(s', t, RDone(ThenWrite(ForgetJob)))
    ensures CheckOpen(s, s', t, errored) && (!s.valid || errored)
  {
    hide L.LockReader, L.UnlockReader, L.LockWriter, L.SpuriousWake, L.Resume, L.UnlockWriter, L.ReleaseMutex;
  }

  /** A thread that has set out to forget the descriptor and has not done it yet. */
  predicate Forgetting(s: State, t: Tid) {
    Doing(s, t, RDone(ThenWrite(ForgetJob))) || Doing(s, t, WWant(ForgetJob))
  }

  lemma StartsForgetting(s: State, s': State, t: Tid)
    requires Next(s, s') && Forgetting(s', t) && s.valid
    ensures Forgetting(s, t) || CheckOpen(s, s', t, true)
  {
    hide L.LockReader, L.UnlockReader, L.LockWriter, L.SpuriousWake, L.Resume, L.UnlockWriter, L.ReleaseMutex;
    var u: Tid, o: Op, e: bool :| Step(s, s', u, o, e);
  }

  lemma {:induction false} ForgettingBegan(states: seq<State>, k: nat, t: Tid) returns (m: nat)
    requires Run(states) && k < |states| && states[k].valid && Forgetting(states[k], t)
    ensures m < k && states[m].valid && CheckOpen(states[m], states[m + 1], t, true)
  {
    assert !Forgetting(states[0], t);
    ValidBefore(states, k);
    assert Next(states[k - 1], states[k]);
    StartsForgetting(states[k - 1], states[k], t);
    if CheckOpen(states[k - 1], states[k], t, true) {
      m := k - 1;
    } else {
      m := ForgettingBegan(states, k - 1, t);
    }
  }

  /** In every run, a descriptor that is gone without having been closed was lost to a call of
      `isOpen` that found a socket, still valid, in error. */
  lemma LeakedByIsOpen(states: seq<State>, k: nat) returns (m: nat, t: Tid)
    requires Run(states) && k < |states| && states[0].valid && !states[k].valid && states[k].closes == 0
    ensures m < k && states[m].valid && CheckOpen(states[m], states[m + 1], t, true)
  {
    var i: nat;
    i, t := ClosedIffByClose(states, k);
    assert Forgetting(states[i], t);
    m := ForgettingBegan(states, i, t);
  }

  /** Every step of `read`, `write`, `close` and `isOpen`, up to giving the lock back, comes out as its
      test says: a valid socket's `read` or `write` reaches the system call and then returns, an invalid
      one's does not; `close` goes on to close; `isOpen` goes on to forget exactly if it found the
      socket gone or in error. */
  lemma TestsDecide(s: State, s': State, t: Tid, o: Op, errored: bool)
    requires Step(s, s', t, o, errored) && t in s.op && t in s'.op
    ensures s.op[t] == IoCheck ==> s'.op[t] == if s.valid then InSyscall else RDone(Return)
    ensures s.op[t] == InSyscall ==> s'.op[t] == RDone(Return)
    ensures s.op[t] == CloseCheck ==> s'.op[t] == RDone(ThenWrite(CloseJob))
    ensures s.op[t] == OpenCheck ==> s'.op[t] == RDone(if s.valid && !errored then Return else ThenWrite(ForgetJob))
    ensures s.op[t] == RDone(Return) ==> s'.op[t] == Rest
    ensures s.op[t].RDone? && s.op[t].after.ThenWrite? ==> s'.op[t] == WWant(s.op[t].after.job)
  {
    hide L.LockReader, L.UnlockReader, L.LockWriter, L.SpuriousWake, L.Resume, L.UnlockWriter, L.ReleaseMutex;
  }

  /** A lone thread, its lock, and how far its call of `isOpen` has come. */
  function Lone(readLocks: int, mutex: Owner, pc: L.Pc, valid: bool, op: Op): State {
    State(L.State(readLocks, 0, mutex, map[0 := pc]), valid, 0, map[0 := op])
  }

  const LEAKING: seq<State> := [
    Lone(0, Nobody, L.Idle, true, Rest),
    Lone(1, Nobody, L.Reading, true, OpenCheck),
    Lone(1, Nobody, L.Reading, true, RDone(ThenWrite(ForgetJob))),
    Lone(0, Nobody, L.Idle, true, WWant(ForgetJob)),
    Lone(0, Thread(0), L.Writing, true, WWant(ForgetJob)),
    Lone(0, Thread(0), L.Writing, false, WDone)]

  lemma LeakingReads()
    ensures Begin(LEAKING[0], LEAKING[1], 0, OpenCheck) && CheckOpen(LEAKING[1], LEAKING[2], 0, true)
    ensures LeaveRead(LEAKING[2], LEAKING[3], 0)
  {}

  lemma LeakingWrites()
    ensures AcquireWrite(LEAKING[3], LEAKING[4], 0) && DoJob(LEAKING[4], LEAKING[5], 0)
  {}

  /** It does happen: one thread, one call of `isOpen` on a socket in error, and the descriptor is
      gone without having been closed. */
  lemma IsOpenLeaks() returns (states: seq<State>)
    ensures Run(states) && states[0].valid
    ensures |states| == 6 && CheckOpen(states[1], states[2], 0, true) && DoJob(states[4], states[5], 0)
    ensures !states[5].valid && states[5].closes == 0
  {
    hide Begin, CheckOpen, LeaveRead, AcquireWrite, DoJob, StartIo, EndIo, Shutdown, LeaveWrite;
    LeakingReads();
    LeakingWrites();
    states := LEAKING;
    assert Step(states[0], states[1], 0, OpenCheck, false);
    assert Step(states[1], states[2], 0, Rest, true);
    assert Step(states[2], states[3], 0, Rest, false);
    assert Step(states[3], states[4], 0, Rest, false);
    assert Step(states[4], states[5], 0, Rest, false);
  }
}
