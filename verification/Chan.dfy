/** The unbounded channel of `src/chan.h`, shared by any number of threads, with spurious wake-ups.
    `put` signals the condition variable only when the queue was empty and the channel open.

    `put` and `taken` are history variables: what was put and taken since the last `reset`. */
module Chans {
  import opened Threads

  datatype Pc =
    | Idle
    | Waiting  // in cv.wait, not notified
    | Awake    // in cv.wait, woken, has not got the mutex back yet

  datatype State<T> = State(queue: seq<T>, closed: bool, pc: map<Tid, Pc>, put: seq<T>, taken: seq<T>)

  function NotifyAll(pc: map<Tid, Pc>): map<Tid, Pc> {
    map t | t in pc :: if pc[t] == Waiting then Awake else pc[t]
  }

  // Each function is one critical section.

  function Put<T>(s: State<T>, v: T): State<T> {
    s.(queue := s.queue + [v], put := s.put + [v],
       pc := if s.queue == [] && !s.closed then NotifyAll(s.pc) else s.pc)
  }

  function Close<T>(s: State<T>): State<T> {
    s.(closed := true, pc := NotifyAll(s.pc))
  }

  /** `reset` wakes nobody. */
  function Reset<T>(s: State<T>): State<T> {
    s.(queue := [], closed := false, put := [], taken := [])
  }

  /** `take` by t, from its start or from a wake-up: wait, give up, or take the front. */
  function Take<T>(s: State<T>, t: Tid): State<T> {
    if s.queue == [] && !s.closed then s.(pc := s.pc[t := Waiting])
    else if s.queue == [] then s.(pc := s.pc[t := Idle])
    else s.(queue := s.queue[1..], taken := s.taken + [s.queue[0]], pc := s.pc[t := Idle])
  }

  datatype Event<T> = PutEvent(v: T) | CloseEvent | ResetEvent | TakeEvent(t: Tid) | WakeEvent(t: Tid)

  predicate Enabled<T>(s: State<T>, e: Event<T>) {
    match e
    case TakeEvent(t) => t in s.pc && s.pc[t] != Waiting
    case WakeEvent(t) => t in s.pc && s.pc[t] == Waiting
    case _ => true
  }

  function Apply<T>(s: State<T>, e: Event<T>): State<T> {
    match e
    case PutEvent(v) => Put(s, v)
    case CloseEvent => Close(s)
    case ResetEvent => Reset(s)
    case TakeEvent(t) => Take(s, t)
    case WakeEvent(t) => s.(pc := s.pc[t := Awake])
  }

  /** The state after a whole run, if every step of it was possible. */
  ghost predicate Runs<T>(s: State<T>, es: seq<Event<T>>, s': State<T>)
    decreases es
  {
    if es == [] then s' == s else Enabled(s, es[0]) && Runs(Apply(s, es[0]), es[1..], s')
  }

  predicate Init<T>(s: State<T>) {
    s.queue == [] && s.put == [] && s.taken == [] && forall t | t in s.pc :: s.pc[t] == Idle
  }

  /** No wake-up is lost, and nothing is lost, duplicated or reordered. */
  ghost predicate Inv<T>(s: State<T>) {
    && (forall t | t in s.pc && s.pc[t] == Waiting :: s.queue == [] && !s.closed)
    && s.taken + s.queue == s.put
  }

  lemma InvKept<T>(s: State<T>, e: Event<T>)
    requires Inv(s) && Enabled(s, e)
    ensures Inv(Apply(s, e))
  {
    match e
    case PutEvent(v) => assert s.taken + (s.queue + [v]) == s.taken + s.queue + [v];
    case TakeEvent(t) =>
      if s.queue != [] {
        assert s.taken + [s.queue[0]] + s.queue[1..] == s.taken + s.queue;
      }
    case _ =>
  }

  /** In every run, with any number of threads and with resets: a thread waiting un-notified finds
      the queue empty and the channel open, and what has been taken is a prefix of what was put. */
  lemma {:induction false} RunsKeepInv<T>(s: State<T>, es: seq<Event<T>>, s': State<T>)
    requires Inv(s) && Runs(s, es, s')
    ensures Inv(s') && s'.taken <= s'.put
    decreases es
  {
    if es != [] {
      InvKept(s, es[0]);
      RunsKeepInv(Apply(s, es[0]), es[1..], s');
    }
  }

  /** What was put is there to be taken, in order, whether or not the channel has been closed, and
      neither putting nor closing drops anything. */
  lemma NothingIsDropped<T>(s: State<T>, t: Tid, v: T)
    requires t in s.pc
    ensures s.queue != [] ==> Take(s, t).taken == s.taken + [s.queue[0]] && Take(s, t).queue == s.queue[1..]
    ensures Put(s, v).queue == s.queue + [v] && Put(s, v).put == s.put + [v]
    ensures Close(s).queue == s.queue && Close(s).closed
    ensures Put(s, v).closed == Take(s, t).closed == s.closed
  {}

  /** `take` has come back empty-handed. */
  ghost predicate CameBackEmpty<T>(s: State<T>, t: Tid) {
    t in s.pc && Take(s, t).pc[t] == Idle && Take(s, t).taken == s.taken
  }

  /** In every run a `take` comes back empty-handed exactly from a channel that is closed and empty,
      comes back with the oldest value from one that is not empty, and waits on an open empty one. */
  lemma EmptyHandedIff<T>(s: State<T>, es: seq<Event<T>>, s': State<T>, t: Tid)
    requires Init(s) && Runs(s, es, s') && t in s'.pc && s'.pc[t] != Waiting
    ensures CameBackEmpty(s', t) <==> s'.closed && s'.queue == []
    ensures Take(s', t).pc[t] == Waiting <==> !s'.closed && s'.queue == []
    ensures s'.queue != [] ==> s'.taken < s'.put && Take(s', t).taken == s'.put[..|s'.taken| + 1]
  {
    RunsKeepInv(s, es, s');
    if s'.queue != [] {
      assert s'.put == s'.taken + s'.queue;
      assert s'.put[..|s'.taken| + 1] == s'.taken + [s'.queue[0]];
    }
  }

  lemma NoLostWakeUp<T>(s: State<T>, es: seq<Event<T>>, s': State<T>, t: Tid)
    requires Init(s) && Runs(s, es, s')
    requires t in s'.pc && (s'.queue != [] || s'.closed)
    ensures s'.pc[t] != Waiting && Enabled(s', TakeEvent(t)) && Take(s', t).pc[t] == Idle
  {
    RunsKeepInv(s, es, s');
  }
}

/** The same as an object whose methods are the critical sections. */
module ChanCode {
  import opened Threads
  import M = Chans

  class Chan<T> {
    var queue: seq<T>
    var closed: bool
    var pc: map<Tid, M.Pc>
    ghost var put: seq<T>
    ghost var taken: seq<T>

    ghost function View(): M.State<T> reads this { M.State(queue, closed, pc, put, taken) }

    constructor (threads: set<Tid>)
      ensures M.Init(View()) && M.Inv(View()) && pc.Keys == threads && !closed
    {
      queue, closed, put, taken := [], false, [], [];
      pc := map t | t in threads :: M.Idle;
    }

    method Put(v: T)
      modifies this
      ensures View() == M.Put(old(View()), v)
      ensures queue == old(queue) + [v] && closed == old(closed)
      ensures old(M.Inv(View())) ==> M.Inv(View())
    {
      if M.Inv(View()) {
        M.InvKept(View(), M.PutEvent(v));
      }
      var notify := |queue| == 0 && !closed;
      queue := queue + [v];
      put := put + [v];
      if notify {
        pc := M.NotifyAll(pc);
      }
    }

    method Close()
      modifies this
      ensures View() == M.Close(old(View()))
      ensures closed && queue == old(queue)
      ensures old(M.Inv(View())) ==> M.Inv(View())
    {
      if M.Inv(View()) {
        M.InvKept(View(), M.CloseEvent);
      }
      closed := true;
      pc := M.NotifyAll(pc);
    }

    method Reset()
      modifies this
      ensures View() == M.Reset(old(View()))
      ensures !closed && queue == []
      ensures old(M.Inv(View())) ==> M.Inv(View())
    {
      if M.Inv(View()) {
        M.InvKept(View(), M.ResetEvent);
      }
      queue, closed := [], false;
      put, taken := [], [];
    }

    /** What `take` does between two waits; it has returned when the thread is idle again. */
    method Take(t: Tid) returns (out: seq<T>)
      requires t in pc && pc[t] != M.Waiting
      modifies this
      ensures View() == M.Take(old(View()), t)
      ensures taken == old(taken) + out && closed == old(closed)
      ensures old(queue) != [] ==> out == [old(queue)[0]] && queue == old(queue)[1..] && pc[t] == M.Idle
      ensures old(queue) == [] ==> out == [] && queue == [] && pc[t] == if closed then M.Idle else M.Waiting
      ensures old(M.Inv(View())) ==> M.Inv(View())
    {
      if M.Inv(View()) {
        M.InvKept(View(), M.TakeEvent(t));
      }
      if |queue| == 0 && !closed {
        pc := pc[t := M.Waiting];
        return [];
      }
      pc := pc[t := M.Idle];
      if |queue| == 0 {
        return [];
      }
      out := [queue[0]];
      queue := queue[1..];
      taken := taken + out;
    }
  }
}
