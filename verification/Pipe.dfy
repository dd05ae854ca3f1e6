/** The in-process byte pipe of `src/io.cpp`, shared by any number of threads, with spurious
    wake-ups. `write` signals only when the pipe was empty; `read` blocks until it has every byte
    it asked for, or the pipe closes. */
module Pipes {
  import opened Threads
  import opened Framing

  /** A reader inside `read`: how many bytes it wants and which it has. */
  datatype Pc =
    | Idle(last: seq<byte>)                    // not reading; `last` is what it returned
    | Waiting(want: nat, got: seq<byte>)       // in cv.wait, not notified
    | Awake(want: nat, got: seq<byte>)         // in cv.wait, woken, or just entering

  /** `written` and `consumed` are history variables. */
  datatype State = State(data: seq<byte>, closed: bool, pc: map<Tid, Pc>, written: seq<byte>, consumed: seq<byte>)

  function NotifyAll(pc: map<Tid, Pc>): map<Tid, Pc> {
    map t | t in pc :: if pc[t].Waiting? then Awake(pc[t].want, pc[t].got) else pc[t]
  }

  function Close(s: State): State {
    s.(closed := true, pc := NotifyAll(s.pc))
  }

  function Write(s: State, bytes: seq<byte>): State {
    if s.closed || bytes == [] then s
    else s.(data := s.data + bytes, written := s.written + bytes,
            pc := if s.data == [] then NotifyAll(s.pc) else s.pc)
  }

  function Enter(s: State, t: Tid, want: nat): State {
    s.(pc := s.pc[t := Awake(want, [])])
  }

  /** The body of the read loop, from having the mutex to waiting again or returning. */
  function Read(s: State, t: Tid): State
    requires t in s.pc && s.pc[t].Awake?
  {
    var Awake(want, got) := s.pc[t];
    if s.closed then s.(pc := s.pc[t := Idle(got)])
    else if s.data == [] then s.(pc := s.pc[t := Waiting(want, got)])
    else
      var n := if want - |got| < 0 then 0 else if want - |got| < |s.data| then want - |got| else |s.data|;
      var got' := got + s.data[..n];
      s.(data := s.data[n..], consumed := s.consumed + s.data[..n],
         pc := s.pc[t := if |got'| == want then Idle(got') else Waiting(want, got')])
  }

  datatype Event =
    | CloseEvent | WriteEvent(bytes: seq<byte>) | EnterEvent(t: Tid, want: nat) | ReadEvent(t: Tid) | WakeEvent(t: Tid)

  predicate Enabled(s: State, e: Event) {
    match e
    case EnterEvent(t, _) => t in s.pc && s.pc[t].Idle?
    case ReadEvent(t) => t in s.pc && s.pc[t].Awake?
    case WakeEvent(t) => t in s.pc && s.pc[t].Waiting?
    case _ => true
  }

  function Apply(s: State, e: Event): State
    requires Enabled(s, e)
  {
    match e
    case CloseEvent => Close(s)
    case WriteEvent(bytes) => Write(s, bytes)
    case EnterEvent(t, want) => Enter(s, t, want)
    case ReadEvent(t) => Read(s, t)
    case WakeEvent(t) => s.(pc := s.pc[t := Awake(s.pc[t].want, s.pc[t].got)])
  }

  ghost predicate Runs(s: State, es: seq<Event>, s': State)
    decreases es
  {
    if es == [] then s' == s else Enabled(s, es[0]) && Runs(Apply(s, es[0]), es[1..], s')
  }

  predicate Init(s: State) {
    s.data == [] && s.written == [] && s.consumed == [] && forall t | t in s.pc :: s.pc[t].Idle?
  }

  predicate Inv(s: State) {
    && (forall t | t in s.pc && s.pc[t].Waiting? :: s.data == [] && !s.closed)
    && (forall t | t in s.pc && !s.pc[t].Idle? :: |s.pc[t].got| <= s.pc[t].want)
    && s.consumed + s.data == s.written
  }

  lemma InvKept(s: State, e: Event)
    requires Inv(s) && Enabled(s, e)
    ensures Inv(Apply(s, e))
  {
    match e
    case WriteEvent(bytes) => assert s.consumed + (s.data + bytes) == s.consumed + s.data + bytes;
    case ReadEvent(t) => ReadKeeps(s, t);
    case _ =>
  }

  /** One pass of the read loop takes bytes off the front in order; it returns short only when the
      pipe is closed, and goes back to waiting only on an empty, open pipe. */
  lemma ReadKeeps(s: State, t: Tid)
    requires Inv(s) && t in s.pc && s.pc[t].Awake?
    ensures var s' := Read(s, t); var p := s'.pc[t];
            && Inv(s')
            && (p.Idle? ==> s.closed || |p.last| == s.pc[t].want)
            && (!s.closed && s.data != [] && s.pc[t].want <= |s.pc[t].got| + |s.data| ==> p.Idle?)
            && s'.consumed == s.consumed + (if p.Idle? then p.last else p.got)[|s.pc[t].got|..]
  {
    var Awake(want, got) := s.pc[t];
    if !s.closed && s.data != [] {
      var n := if want - |got| < |s.data| then want - |got| else |s.data|;
      assert s.consumed + s.data[..n] + s.data[n..] == s.consumed + s.data;
      assert (got + s.data[..n])[|got|..] == s.data[..n];
    }
  }

  /** In every run: a thread waiting un-notified finds the pipe empty and open, and the bytes read
      are, in order, a prefix of the bytes written. */
  lemma {:induction false} RunsKeepInv(s: State, es: seq<Event>, s': State)
    requires Inv(s) && Runs(s, es, s')
    ensures Inv(s') && s'.consumed <= s'.written
    decreases es
  {
    if es != [] {
      InvKept(s, es[0]);
      RunsKeepInv(Apply(s, es[0]), es[1..], s');
    }
  }

  /** No lost wake-up: once there is data, or the pipe is closed, no reader stays un-notified. */
  lemma NoLostWakeUp(s: State, es: seq<Event>, s': State, t: Tid)
    requires Init(s) && Runs(s, es, s')
    requires t in s'.pc && (s'.data != [] || s'.closed)
    ensures !s'.pc[t].Waiting?
  {
    RunsKeepInv(s, es, s');
  }

  /** An open pipe takes every byte it is given. */
  lemma WritesEverything(s: State, bytes: seq<byte>)
    requires !s.closed
    ensures Write(s, bytes).data == s.data + bytes && Write(s, bytes).written == s.written + bytes
    ensures !Write(s, bytes).closed
  {}

  /** A closed pipe stays closed and takes no more bytes. */
  lemma {:induction false} ClosedForGood(s: State, es: seq<Event>, s': State)
    requires s.closed && Runs(s, es, s')
    ensures s'.closed && s'.written == s.written
    decreases es
  {
    if es != [] {
      ClosedForGood(Apply(s, es[0]), es[1..], s');
    }
  }
}

/** The same as an object whose methods are the critical sections. */
module PipeCode {
  import opened Threads
  import opened Framing
  import M = Pipes

  class Pipe {
    var data: seq<byte>
    var closed: bool
    var pc: map<Tid, M.Pc>
    ghost var written: seq<byte>
    ghost var consumed: seq<byte>

    ghost function View(): M.State reads this { M.State(data, closed, pc, written, consumed) }

    constructor (threads: set<Tid>)
      ensures M.Init(View()) && M.Inv(View()) && pc.Keys == threads && !closed
    {
      data, closed, written, consumed := [], false, [], [];
      pc := map t | t in threads :: M.Idle([]);
    }

    method Close()
      modifies this
      ensures View() == M.Close(old(View()))
      ensures closed && data == old(data)
      ensures old(M.Inv(View())) ==> M.Inv(View())
    {
      if M.Inv(View()) {
        M.InvKept(View(), M.CloseEvent);
      }
      closed := true;
      pc := M.NotifyAll(pc);
    }

    method Write(bytes: seq<byte>) returns (ok: bool)
      modifies this
      ensures ok == !old(closed) && View() == M.Write(old(View()), bytes)
      ensures data == (if ok then old(data) + bytes else old(data)) && closed == old(closed)
      ensures old(M.Inv(View())) ==> M.Inv(View())
    {
      if M.Inv(View()) {
        M.InvKept(View(), M.WriteEvent(bytes));
      }
      if closed {
        return false;
      }
      if |bytes| == 0 {
        return true;
      }
      var notify := |data| == 0;
      data := data + bytes;
      written := written + bytes;
      if notify {
        pc := M.NotifyAll(pc);
      }
      return true;
    }

    /** The start of `read`. */
    method Enter(t: Tid, want: nat)
      requires t in pc && pc[t].Idle?
      modifies this
      ensures View() == M.Enter(old(View()), t, want)
      ensures old(M.Inv(View())) ==> M.Inv(View())
    {
      if M.Inv(View()) {
        M.InvKept(View(), M.EnterEvent(t, want));
      }
      pc := pc[t := M.Awake(want, [])];
    }

    /** What `read` does with the mutex held, until it waits again or returns. */
    method Read(t: Tid)
      requires t in pc && pc[t].Awake? && M.Inv(View())
      modifies this
      ensures View() == M.Read(old(View()), t) && M.Inv(View())
    {
      M.ReadKeeps(View(), t);
      var want, got := pc[t].want, pc[t].got;
      if closed {
        pc := pc[t := M.Idle(got)];
        return;
      }
      if |data| == 0 {
        pc := pc[t := M.Waiting(want, got)];
        return;
      }
      ghost var all, before, had := data, consumed, got;
      ghost var k := 0;
      while |got| < want && |data| > 0
        invariant k <= |all| && |had| + k <= want && got == had + all[..k] && data == all[k..]
        invariant consumed == before + all[..k]
        invariant closed == old(closed) && pc == old(pc) && written == old(written)
        decreases |data|
      {
        assert all[..k + 1] == all[..k] + [all[k]];
        consumed := consumed + [data[0]];
        got := got + [data[0]];
        data := data[1..];
        k := k + 1;
      }
      pc := pc[t := if |got| == want then M.Idle(got) else M.Waiting(want, got)];
    }
  }
}
