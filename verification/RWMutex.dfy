/** The reader/writer lock of `src/rwmutex.h`: any number of threads, one mutex, one condition
    variable signalled with `notify_one` only, and spurious wake-ups.

    Each step is one critical section. A writer keeps the mutex itself for as long as it holds
    the lock, so no other critical section can run meanwhile. A thread stands for one lock/unlock
    pair at a time. */
module RWMutexes {
  import opened Threads

  datatype Pc =
    | Idle
    | Reading   // between lockReader and unlockReader
    | Waiting   // in cv.wait, not notified
    | Awake     // in cv.wait, woken, has not got the mutex back yet
    | Writing   // between lockWriter and unlockWriter
    | Leaving   // in unlockWriter, after the notification, before the mutex is released

  datatype State = State(readLocks: int, pendingWriteLocks: int, mutex: Owner, pc: map<Tid, Pc>)

  predicate In(s: State, t: Tid, p: Pc) { t in s.pc && s.pc[t] == p }

  // ------------------------------------------------------------------- steps

  /** `cv.notify_one()`: some un-notified waiter, if there is one, is woken. */
  ghost predicate NotifyOne(pc: map<Tid, Pc>, pc': map<Tid, Pc>) {
    if exists w: Tid :: w in pc && pc[w] == Waiting
    then exists w: Tid :: w in pc && pc[w] == Waiting && pc' == pc[w := Awake]
    else pc' == pc
  }

  ghost predicate LockReader(s: State, s': State, t: Tid) {
    && s.mutex == Nobody && In(s, t, Idle)
    && s' == s.(readLocks := s.readLocks + 1, pc := s.pc[t := Reading])
  }

  ghost predicate UnlockReader(s: State, s': State, t: Tid) {
    && s.mutex == Nobody && In(s, t, Reading)
    && s' == s.(readLocks := s.readLocks - 1, pc := s'.pc)
    && if s'.readLocks == 0 && s.pendingWriteLocks > 0
       then NotifyOne(s.pc[t := Idle], s'.pc)
       else s'.pc == s.pc[t := Idle]
  }

  ghost predicate LockWriter(s: State, s': State, t: Tid) {
    && s.mutex == Nobody && In(s, t, Idle)
    && s' == if s.readLocks > 0
             then s.(pendingWriteLocks := s.pendingWriteLocks + 1, pc := s.pc[t := Waiting])
             else s.(mutex := Thread(t), pc := s.pc[t := Writing])
  }

  /** A wait may end without a notification. */
  ghost predicate SpuriousWake(s: State, s': State, t: Tid) {
    In(s, t, Waiting) && s' == s.(pc := s.pc[t := Awake])
  }

  /** A woken writer has the mutex again and evaluates the wait condition. */
  ghost predicate Resume(s: State, s': State, t: Tid) {
    && s.mutex == Nobody && In(s, t, Awake)
    && s' == if s.readLocks == 0
             then s.(pendingWriteLocks := s.pendingWriteLocks - 1, mutex := Thread(t), pc := s.pc[t := Writing])
             else s.(pc := s.pc[t := Waiting])
  }

  ghost predicate UnlockWriter(s: State, s': State, t: Tid) {
    && In(s, t, Writing)
    && s' == s.(pc := s'.pc)
    && if s.pendingWriteLocks > 0
       then NotifyOne(s.pc[t := Leaving], s'.pc)
       else s'.pc == s.pc[t := Leaving]
  }

  ghost predicate ReleaseMutex(s: State, s': State, t: Tid) {
    In(s, t, Leaving) && s' == s.(mutex := Nobody, pc := s.pc[t := Idle])
  }

  ghost predicate Step(s: State, s': State, t: Tid) {
    || LockReader(s, s', t)
    || UnlockReader(s, s', t)
    || LockWriter(s, s', t)
    || SpuriousWake(s, s', t)
    || Resume(s, s', t)
    || UnlockWriter(s, s', t)
    || ReleaseMutex(s, s', t)
  }

  ghost predicate Init(s: State) {
    s.readLocks == 0 && s.pendingWriteLocks == 0 && s.mutex == Nobody && forall t | t in s.pc :: s.pc[t] == Idle
  }

  ghost predicate Next(s: State, s': State) { exists t: Tid :: Step(s, s', t) }

  ghost predicate Run(states: seq<State>) {
    && states != [] && Init(states[0])
    && forall i | 0 < i < |states| :: Next(states[i - 1], states[i])
  }

  // --------------------------------------------------------------- invariant

  ghost predicate Inv(s: State) {
    && s.readLocks == Count(s.pc, Reading)
    && s.pendingWriteLocks == Count(s.pc, Waiting) + Count(s.pc, Awake)
    && (forall t | t in s.pc :: s.pc[t] == Writing || s.pc[t] == Leaving <==> s.mutex == Thread(t))
    && (s.mutex != Nobody ==> s.mutex.t in s.pc && s.readLocks == 0)
    && NoLostWakeUp(s)
  }

  /** Whenever the lock is free, or is about to be, an un-notified waiter is not alone: another
      waiter has been woken. */
  ghost predicate NoLostWakeUp(s: State) {
    && s.readLocks == 0
    && (s.mutex != Nobody && s.mutex.t in s.pc ==> s.pc[s.mutex.t] == Leaving)
    && Count(s.pc, Waiting) > 0
    ==> Count(s.pc, Awake) > 0
  }

  lemma NotifyOneCounts(pc: map<Tid, Pc>, pc': map<Tid, Pc>)
    requires NotifyOne(pc, pc')
    ensures pc'.Keys == pc.Keys
    ensures forall p :: p != Waiting && p != Awake ==> Count(pc', p) == Count(pc, p)
    ensures Count(pc', Waiting) + Count(pc', Awake) == Count(pc, Waiting) + Count(pc, Awake)
    ensures forall t | t in pc :: pc'[t] == pc[t] || (pc[t] == Waiting && pc'[t] == Awake)
    ensures Count(pc', Waiting) <= Count(pc, Waiting)
    ensures Count(pc, Waiting) > 0 ==> Count(pc', Awake) > 0
  {
    if exists w: Tid :: w in pc && pc[w] == Waiting {
      var w: Tid :| w in pc && pc[w] == Waiting && pc' == pc[w := Awake];
      MoveOne(pc, w, Awake);
    } else {
      CountNone(pc, Waiting);
    }
  }

  lemma InvKept(s: State, s': State, t: Tid)
    requires Inv(s) && Step(s, s', t)
    ensures Inv(s')
  {
    if UnlockReader(s, s', t) {
      MoveOne(s.pc, t, Idle);
      if s'.readLocks == 0 && s.pendingWriteLocks > 0 {
        NotifyOneCounts(s.pc[t := Idle], s'.pc);
      }
    } else if UnlockWriter(s, s', t) {
      MoveOne(s.pc, t, Leaving);
      if s.pendingWriteLocks > 0 {
        NotifyOneCounts(s.pc[t := Leaving], s'.pc);
      }
    } else {
      MoveOne(s.pc, t, s'.pc[t]);
    }
  }

  lemma InitInv(s: State)
    requires Init(s)
    ensures Inv(s)
  {
    CountNone(s.pc, Reading);
    CountNone(s.pc, Waiting);
    CountNone(s.pc, Awake);
  }

  lemma {:induction false} RunsKeepInv(states: seq<State>, k: nat)
    requires Run(states) && k < |states|
    ensures Inv(states[k])
  {
    if k == 0 {
      InitInv(states[0]);
    } else {
      RunsKeepInv(states, k - 1);
      assert Next(states[k - 1], states[k]);
      var t: Tid :| Step(states[k - 1], states[k], t);
      InvKept(states[k - 1], states[k], t);
    }
  }

  // ---------------------------------------------------------------- theorems

  /** Exclusion at every point of every run: the reader count is exact, and a writer excludes
      every reader and every other writer. */
  lemma Exclusion(states: seq<State>, k: nat)
    requires Run(states) && k < |states|
    ensures states[k].readLocks == Count(states[k].pc, Reading)
    ensures forall t, u | In(states[k], t, Writing) && t != u :: !In(states[k], u, Reading) && !In(states[k], u, Writing)
  {
    RunsKeepInv(states, k);
    CountNone(states[k].pc, Reading);
  }

  /** Nobody holds the lock for reading or writing. */
  ghost predicate Free(s: State) {
    forall t | t in s.pc :: s.pc[t] != Reading && s.pc[t] != Writing && s.pc[t] != Leaving
  }

  /** No lost wake-up, at every point of every run: when nobody holds the lock and a writer is
      still waiting un-notified, another one is awake and its next step takes the lock. */
  lemma SomeWriterCanProceed(states: seq<State>, k: nat, w: Tid) returns (u: Tid, next: State)
    requires Run(states) && k < |states|
    requires Free(states[k]) && In(states[k], w, Waiting)
    ensures In(states[k], u, Awake) && Resume(states[k], next, u) && In(next, u, Writing)
  {
    RunsKeepInv(states, k);
    var s := states[k];
    CountNone(s.pc, Reading);
    CountOne(s.pc, w);
    CountNone(s.pc, Awake);
    u :| u in s.pc && s.pc[u] == Awake;
    next := s.(pendingWriteLocks := s.pendingWriteLocks - 1, mutex := Thread(u), pc := s.pc[u := Writing]);
  }
}

/** The lock as an object. Each method is the part of a member function of `RWMutex` that runs
    between acquiring the mutex and giving it up; `cv.wait` splits `lockWriter` in two. */
module RWMutexCode {
  import opened Threads
  import M = RWMutexes

  class RWMutex {
    var readLocks: int
    var pendingWriteLocks: int
    var mutex: Owner
    var pc: map<Tid, M.Pc>

    ghost function View(): M.State reads this { M.State(readLocks, pendingWriteLocks, mutex, pc) }

    constructor (threads: set<Tid>)
      ensures M.Init(View()) && M.Inv(View()) && pc.Keys == threads
    {
      readLocks, pendingWriteLocks, mutex := 0, 0, Nobody;
      pc := map t | t in threads :: M.Idle;
      new;
      M.InitInv(View());
    }

    method NotifyOne()
      modifies this`pc
      ensures M.NotifyOne(old(pc), pc)
    {
      var waiting := At(pc, M.Waiting);
      if waiting != {} {
        var w :| w in waiting;
        pc := pc[w := M.Awake];
      } else {
        assert forall t | t in pc :: t !in waiting;
      }
    }

    method LockReader(t: Tid)
      requires M.Inv(View()) && mutex == Nobody && M.In(View(), t, M.Idle)
      modifies this
      ensures M.LockReader(old(View()), View(), t) && M.Inv(View())
    {
      readLocks := readLocks + 1;
      pc := pc[t := M.Reading];
      M.InvKept(old(View()), View(), t);
    }

    method UnlockReader(t: Tid)
      requires M.Inv(View()) && mutex == Nobody && M.In(View(), t, M.Reading)
      modifies this
      ensures M.UnlockReader(old(View()), View(), t) && M.Inv(View())
    {
      readLocks := readLocks - 1;
      pc := pc[t := M.Idle];
      if readLocks == 0 && pendingWriteLocks > 0 {
        NotifyOne();
      }
      M.InvKept(old(View()), View(), t);
    }

    method LockWriter(t: Tid)
      requires M.Inv(View()) && mutex == Nobody && M.In(View(), t, M.Idle)
      modifies this
      ensures M.LockWriter(old(View()), View(), t) && M.Inv(View())
    {
      if readLocks > 0 {
        pendingWriteLocks := pendingWriteLocks + 1;
        pc := pc[t := M.Waiting];
      } else {
        mutex := Thread(t);
        pc := pc[t := M.Writing];
      }
      M.InvKept(old(View()), View(), t);
    }

    method ResumeLockWriter(t: Tid)
      requires M.Inv(View()) && mutex == Nobody && M.In(View(), t, M.Awake)
      modifies this
      ensures M.Resume(old(View()), View(), t) && M.Inv(View())
    {
      if readLocks == 0 {
        pendingWriteLocks := pendingWriteLocks - 1;
        mutex := Thread(t);
        pc := pc[t := M.Writing];
      } else {
        pc := pc[t := M.Waiting];
      }
      M.InvKept(old(View()), View(), t);
    }

    method UnlockWriter(t: Tid)
      requires M.Inv(View()) && M.In(View(), t, M.Writing)
      modifies this
      ensures M.UnlockWriter(old(View()), View(), t) && M.Inv(View())
    {
      pc := pc[t := M.Leaving];
      if pendingWriteLocks > 0 {
        NotifyOne();
      }
      M.InvKept(old(View()), View(), t);
    }
  }
}
