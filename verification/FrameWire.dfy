/** Any number of threads send messages through one session: `Impl::send` takes the send lock,
    asks whether the writer is open, and writes header and body as two separate writes to a `Pipe`.
    Closing, and everything the reader at the other end does, may come between any two of these
    steps. */
module FrameWire {
  import opened Threads
  import opened Framing
  import P = Pipes

  /** A thread inside `send`. */
  datatype Pc =
    | Idle
    | Entering(msg: seq<byte>)           // wants the send lock
    | Locked(msg: seq<byte>)             // has it
    | Checked(msg: seq<byte>)            // and has seen the writer open
    | HeaderOut(msg: seq<byte>)          // and has written the header
    | Leaving(msg: seq<byte>, ok: bool)  // about to release the lock and return ok

  /** One returned call of `send`. */
  datatype Return = Return(msg: seq<byte>, ok: bool)

  /** `sent` (messages whose body was written) and `returned` are history variables. */
  datatype State = State(pipe: P.State, lock: Owner, pc: map<Tid, Pc>, sent: seq<seq<byte>>, returned: seq<Return>)

  datatype Event =
    | Send(t: Tid, msg: seq<byte>)
    | Acquire(t: Tid)
    | CheckOpen(t: Tid)
    | WriteHeader(t: Tid)
    | WriteBody(t: Tid)
    | Release(t: Tid)
    | PipeEvent(e: P.Event)              // closing, and the reader

  predicate Enabled(s: State, e: Event) {
    match e
    case Send(t, msg) => t in s.pc && s.pc[t].Idle? && |msg| < SIZE_T_MODULUS
    case Acquire(t) => t in s.pc && s.pc[t].Entering? && s.lock == Nobody
    case CheckOpen(t) => t in s.pc && s.pc[t].Locked?
    case WriteHeader(t) => t in s.pc && s.pc[t].Checked?
    case WriteBody(t) => t in s.pc && s.pc[t].HeaderOut?
    case Release(t) => t in s.pc && s.pc[t].Leaving?
    case PipeEvent(p) => !p.WriteEvent? && P.Enabled(s.pipe, p)
  }

  function Apply(s: State, e: Event): State
    requires Enabled(s, e)
  {
    match e
    case PipeEvent(p) => s.(pipe := P.Apply(s.pipe, p))
    case Send(t, msg) => s.(pc := s.pc[t := Entering(msg)])
    case Acquire(t) => s.(lock := Thread(t), pc := s.pc[t := Locked(s.pc[t].msg)])
    case CheckOpen(t) =>
      var msg := s.pc[t].msg;
      s.(pc := s.pc[t := if s.pipe.closed then Leaving(msg, false) else Checked(msg)])
    case WriteHeader(t) =>
      var msg := s.pc[t].msg;
      s.(pipe := P.Write(s.pipe, Header(|msg|)),
         pc := s.pc[t := if s.pipe.closed then Leaving(msg, false) else HeaderOut(msg)])
    case WriteBody(t) =>
      var msg := s.pc[t].msg;
      s.(pipe := P.Write(s.pipe, msg),
         sent := if s.pipe.closed then s.sent else s.sent + [msg],
         pc := s.pc[t := Leaving(msg, !s.pipe.closed)])
    case Release(t) =>
      s.(lock := Nobody, pc := s.pc[t := Idle], returned := s.returned + [Return(s.pc[t].msg, s.pc[t].ok)])
  }

  ghost predicate Runs(s: State, es: seq<Event>, s': State)
    decreases es
  {
    if es == [] then s' == s else Enabled(s, es[0]) && Runs(Apply(s, es[0]), es[1..], s')
  }

  predicate Init(s: State) {
    && P.Init(s.pipe) && s.lock == Nobody && s.sent == [] && s.returned == []
    && forall t | t in s.pc :: s.pc[t].Idle?
  }

  // --------------------------------------------------------------- invariant

  predicate InLock(p: Pc) { p.Locked? || p.Checked? || p.HeaderOut? || p.Leaving? }

  predicate LockInv(s: State) {
    && (forall t | t in s.pc :: InLock(s.pc[t]) <==> s.lock == Thread(t))
    && (s.lock != Nobody ==> s.lock.t in s.pc)
    && (forall t | t in s.pc && !s.pc[t].Idle? :: |s.pc[t].msg| < SIZE_T_MODULUS)
    && Sized(s.sent)
  }

  /** What the lock holder is doing. */
  function Holder(s: State): Pc {
    if s.lock != Nobody && s.lock.t in s.pc then s.pc[s.lock.t] else Idle
  }

  /** The header of some message. */
  ghost predicate LoneHeader(tail: seq<byte>) {
    exists size: nat | size < SIZE_T_MODULUS :: tail == Header(size)
  }

  /** The wire is whole frames and at most one header after them: that of the lock holder between
      its two writes, or one that closing has cut off from its body. */
  ghost predicate WireInv(s: State) {
    var holder := Holder(s);
    if holder.HeaderOut? && !s.pipe.closed then s.pipe.written == Frames(s.sent) + Header(|holder.msg|)
    else s.pipe.written == Frames(s.sent) || (s.pipe.closed && TornInv(s))
  }

  ghost predicate TornInv(s: State) {
    Frames(s.sent) <= s.pipe.written && LoneHeader(s.pipe.written[|Frames(s.sent)|..])
  }

  /** The messages of the calls that returned true. */
  function Succeeded(rs: seq<Return>): seq<seq<byte>> {
    if rs == [] then []
    else
      var r := rs[|rs| - 1];
      Succeeded(rs[..|rs| - 1]) + if r.ok then [r.msg] else []
  }

  predicate ReturnInv(s: State) {
    var holder := Holder(s);
    s.sent == Succeeded(s.returned) + if holder.Leaving? && holder.ok then [holder.msg] else []
  }

  ghost predicate Inv(s: State) {
    P.Inv(s.pipe) && LockInv(s) && WireInv(s) && ReturnInv(s)
  }

  // ----------------------------------------------------------------- lemmas

  lemma ReaderWritesNothing(p: P.State, e: P.Event)
    requires P.Enabled(p, e) && !e.WriteEvent?
    ensures P.Apply(p, e).written == p.written && (p.closed ==> P.Apply(p, e).closed)
  {}

  lemma PipeEventKeeps(s: State, p: P.Event)
    requires Inv(s) && Enabled(s, PipeEvent(p))
    ensures Inv(Apply(s, PipeEvent(p)))
  {
    hide Frames, Header, Succeeded, P.Inv, P.Apply, P.Enabled;
    P.InvKept(s.pipe, p);
    ReaderWritesNothing(s.pipe, p);
    var s' := Apply(s, PipeEvent(p));
    var holder := Holder(s);
    if holder.HeaderOut? && !s.pipe.closed && s'.pipe.closed {
      assert s.pipe.written[|Frames(s.sent)|..] == Header(|holder.msg|);
    }
  }

  lemma WriteHeaderKeeps(s: State, t: Tid)
    requires Inv(s) && Enabled(s, WriteHeader(t))
    ensures Inv(Apply(s, WriteHeader(t)))
  {
    hide Frames, Header, P.Inv, Succeeded;
    P.InvKept(s.pipe, P.WriteEvent(Header(|s.pc[t].msg|)));
    HeaderIsSomething(|s.pc[t].msg|);
  }

  lemma HeaderIsSomething(size: nat)
    ensures Header(size) != []
  {}

  lemma WriteBodyKeeps(s: State, t: Tid)
    requires Inv(s) && Enabled(s, WriteBody(t))
    ensures Inv(Apply(s, WriteBody(t)))
  {
    hide Frames, Header, P.Inv, Succeeded;
    var msg := s.pc[t].msg;
    P.InvKept(s.pipe, P.WriteEvent(msg));
    if !s.pipe.closed {
      FramesSnoc(s.sent, msg);
      assert s.pipe.written + msg == Frames(s.sent) + (Header(|msg|) + msg);
    }
  }

  lemma SucceededSnoc(rs: seq<Return>, r: Return)
    ensures Succeeded(rs + [r]) == Succeeded(rs) + if r.ok then [r.msg] else []
  {
    assert (rs + [r])[..|rs|] == rs;
  }

  lemma ReleaseKeeps(s: State, t: Tid)
    requires Inv(s) && Enabled(s, Release(t))
    ensures Inv(Apply(s, Release(t)))
  {
    hide Frames, Header, P.Inv, Succeeded;
    SucceededSnoc(s.returned, Return(s.pc[t].msg, s.pc[t].ok));
  }

  lemma InvKept(s: State, e: Event)
    requires Inv(s) && Enabled(s, e)
    ensures Inv(Apply(s, e))
  {
    hide Frames, Header, P.Inv, Succeeded;
    match e {
      case PipeEvent(p) => PipeEventKeeps(s, p);
      case WriteHeader(t) => WriteHeaderKeeps(s, t);
      case WriteBody(t) => WriteBodyKeeps(s, t);
      case Release(t) => ReleaseKeeps(s, t);
      case _ =>
    }
  }

  lemma {:induction false} RunsKeepInv(s: State, es: seq<Event>, s': State)
    requires Inv(s) && Runs(s, es, s')
    ensures Inv(s')
    decreases es
  {
    hide Inv, Apply;
    if es != [] {
      InvKept(s, es[0]);
      RunsKeepInv(Apply(s, es[0]), es[1..], s');
    }
  }

  // ---------------------------------------------------------------- theorems

  /** Frames never interleave, in any run of any number of senders: the wire is whole frames, of
      messages handed to `send`, and at most one header, whose sender holds the send lock or
      whose pipe has closed. The whole frames are those of the calls that returned true, in the
      order of their returning, and at most one that is about to. */
  lemma FramesNeverInterleave(s: State, es: seq<Event>, s': State) returns (tail: seq<byte>)
    requires Init(s) && Runs(s, es, s')
    ensures var holder := Holder(s');
            && s'.pipe.written == Frames(s'.sent) + tail
            && (tail == [] || (LoneHeader(tail) && (holder.HeaderOut? || s'.pipe.closed)))
            && s'.sent == Succeeded(s'.returned) + if holder.Leaving? && holder.ok then [holder.msg] else []
  {
    hide Frames, Header, P.Inv;
    InitInv(s);
    RunsKeepInv(s, es, s');
    tail := s'.pipe.written[|Frames(s'.sent)|..];
  }

  /** Two threads are never both between taking and releasing the send lock. */
  lemma OneSenderAtATime(s: State, es: seq<Event>, s': State, t: Tid, u: Tid)
    requires Init(s) && Runs(s, es, s')
    requires t in s'.pc && u in s'.pc && InLock(s'.pc[t]) && InLock(s'.pc[u])
    ensures t == u
  {
    hide P.Inv, WireInv, ReturnInv;
    InitInv(s);
    RunsKeepInv(s, es, s');
  }

  lemma InitInv(s: State)
    requires Init(s)
    ensures Inv(s)
  {}

  lemma WireTail(s: State) returns (tail: seq<byte>)
    requires Inv(s)
    ensures s.pipe.written == Frames(s.sent) + tail && (tail == [] || LoneHeader(tail))
  {
    hide Frames, Header, P.Inv;
    tail := s.pipe.written[|Frames(s.sent)|..];
  }

  lemma ReadSoFar(s: State) returns (k: nat)
    requires Inv(s)
    ensures k <= |s.sent| && Frames(s.sent[..k]) <= s.pipe.consumed
    ensures k < |s.sent| ==> !(Frames(s.sent[..k + 1]) <= s.pipe.consumed)
    ensures Results(Ignore, s.pipe.consumed, k + 1) == s.sent[..k] + [[]]
  {
    hide Results, Frames, Header;
    var tail := WireTail(s);
    var read, whole := s.pipe.consumed, Frames(s.sent);
    assert read <= read + s.pipe.data == whole + tail;
    PrefixSplits(read, whole, tail);
    if |read| <= |whole| {
      k := CutStream(s.sent, read);
    } else {
      k := |s.sent|;
      assert s.sent[..k] == s.sent;
      var p := read[|whole|..];
      var size: nat :| size < SIZE_T_MODULUS && tail == Header(size);
      ReadPartOfHeader(s.sent, size, p);
    }
  }

  /** Whatever part of the wire the other end has read when, its first reads return messages sent,
      in order, and the next one returns none: nothing that a failed `send` left behind is ever
      taken for a message. */
  lemma ReaderSeesWhatWasSent(s: State, es: seq<Event>, s': State) returns (k: nat)
    requires Init(s) && Runs(s, es, s')
    ensures k <= |s'.sent| && Frames(s'.sent[..k]) <= s'.pipe.consumed
    ensures k < |s'.sent| ==> !(Frames(s'.sent[..k + 1]) <= s'.pipe.consumed)
    ensures Results(Ignore, s'.pipe.consumed, k + 1) == s'.sent[..k] + [[]]
  {
    hide Inv;
    InitInv(s);
    RunsKeepInv(s, es, s');
    k := ReadSoFar(s');
  }

  /** Read number i returns a message exactly when message number i is there whole, and then it
      returns that message. */
  lemma NextRead(s: State, i: nat)
    requires Inv(s) && i <= |s.sent| && Frames(s.sent[..i]) <= s.pipe.consumed
    ensures var r := Results(Ignore, s.pipe.consumed, i + 1);
            && |r| == i + 1
            && (r[i] != [] <==> i < |s.sent| && s.sent[i] != [] && Frames(s.sent[..i + 1]) <= s.pipe.consumed)
            && (r[i] != [] ==> r[i] == s.sent[i])
  {
    hide Inv, Results, Frames;
    var k := ReadSoFar(s);
    if i <= k {
      FewerResults(s.pipe.consumed, i + 1, k + 1);
      assert (s.sent[..k] + [[]])[i] == if i < k then s.sent[i] else [];
      if i < k {
        FewerFrames(s.sent, i + 1, k);
      }
    } else {
      FewerFrames(s.sent, k + 1, i);
    }
  }

  lemma PrefixSplits(p: seq<byte>, s: seq<byte>, t: seq<byte>)
    requires p <= s + t
    ensures |p| <= |s| ==> p <= s
    ensures |p| > |s| ==> p == s + p[|s|..] && p[|s|..] <= t
  {
    assert p == (s + t)[..|p|];
    if |p| <= |s| {
      assert p == s[..|p|];
    } else {
      assert p[|s|..] == t[..|p| - |s|];
    }
  }

  lemma ReadPartOfHeader(msgs: seq<seq<byte>>, size: nat, p: seq<byte>)
    requires Sized(msgs) && size < SIZE_T_MODULUS && p <= Header(size)
    ensures Results(Ignore, Frames(msgs) + p, |msgs| + 1) == msgs + [[]]
  {
    hide Parse, Frames, Header;
    var left := Leftover(msgs, []);
    LeftoverGarbage(msgs);
    RoundTripIgnore(msgs, p, 1);
    assert Leftover(msgs, p) == left + p;
    ResultsUnfold(Ignore, left + p, 1);
    var msg: seq<byte> := seq(size, _ => 0);
    if p < Frame(msg) {
      CutFrame(left, msg, p);
    } else {
      assert p == Frame(msg) + [] && msg == [];
      ParseSkipsGarbage(left, msg, []);
    }
  }

  /** A call that was refused, or is about to be. */
  predicate Refused(s: State) {
    || (exists i :: 0 <= i < |s.returned| && !s.returned[i].ok)
    || (exists t :: t in s.pc && s.pc[t].Leaving? && !s.pc[t].ok)
  }

  lemma RefusedKept(s: State, e: Event)
    requires Enabled(s, e) && (Refused(s) ==> s.pipe.closed)
    ensures Refused(Apply(s, e)) ==> Apply(s, e).pipe.closed
  {
    hide Header;
    var s' := Apply(s, e);
    StaysClosed(s, e);
    if Refused(s') && !s.pipe.closed {
      assert forall t | t in s.pc :: s.pc[t].Leaving? ==> s.pc[t].ok;
      assert forall i | 0 <= i < |s.returned| :: s.returned[i].ok;
    }
  }

  lemma StaysClosed(s: State, e: Event)
    requires Enabled(s, e)
    ensures s.pipe.closed ==> Apply(s, e).pipe.closed
  {
    hide Header;
  }

  /** `send` returns false only because the pipe has been closed. */
  lemma {:induction false} RefusedOnlyWhenClosed(s: State, es: seq<Event>, s': State)
    requires (Refused(s) ==> s.pipe.closed) && Runs(s, es, s')
    ensures Refused(s') ==> s'.pipe.closed
    decreases es
  {
    hide Refused, Apply, Enabled;
    if es != [] {
      RefusedKept(s, es[0]);
      RefusedOnlyWhenClosed(Apply(s, es[0]), es[1..], s');
    }
  }

  /** What one thread does to send a message undisturbed. */
  function SendSteps(t: Tid, msg: seq<byte>): seq<Event> {
    [Send(t, msg), Acquire(t), CheckOpen(t), WriteHeader(t), WriteBody(t), Release(t)]
  }

  lemma Next(s: State, e: Event, es: seq<Event>, s': State)
    requires Enabled(s, e) && Runs(Apply(s, e), es, s')
    ensures Runs(s, [e] + es, s')
  {
    hide Enabled, Apply;
    assert ([e] + es)[0] == e && ([e] + es)[1..] == es;
  }

  /** On an open pipe, with the lock free, a message is sent: its frame is appended, and `send`
      returns true. */
  lemma OpenSendSucceeds(s: State, t: Tid, msg: seq<byte>) returns (s': State)
    requires !s.pipe.closed && s.lock == Nobody && t in s.pc && s.pc[t].Idle? && |msg| < SIZE_T_MODULUS
    ensures Runs(s, SendSteps(t, msg), s')
    ensures s'.sent == s.sent + [msg] && s'.returned == s.returned + [Return(msg, true)]
    ensures s'.pipe.written == s.pipe.written + Frame(msg) && s'.lock == Nobody && !s'.pipe.closed
  {
    hide P.Write, Header, Runs;
    P.WritesEverything(s.pipe, Header(|msg|));
    var s1 := Apply(s, Send(t, msg));
    var s2 := Apply(s1, Acquire(t));
    var s3 := Apply(s2, CheckOpen(t));
    var s4 := Apply(s3, WriteHeader(t));
    P.WritesEverything(s4.pipe, msg);
    var s5 := Apply(s4, WriteBody(t));
    s' := Apply(s5, Release(t));
    assert (s.pipe.written + Header(|msg|)) + msg == s.pipe.written + Frame(msg);
    assert Runs(s', [], s') by { NoMore(s'); }
    Next(s5, Release(t), [], s');
    assert [Release(t)] + [] == [Release(t)];
    Next(s4, WriteBody(t), [Release(t)], s');
    Next(s3, WriteHeader(t), [WriteBody(t)] + [Release(t)], s');
    Next(s2, CheckOpen(t), [WriteHeader(t)] + ([WriteBody(t)] + [Release(t)]), s');
    Next(s1, Acquire(t), [CheckOpen(t)] + ([WriteHeader(t)] + ([WriteBody(t)] + [Release(t)])), s');
    Next(s, Send(t, msg), [Acquire(t)] + ([CheckOpen(t)] + ([WriteHeader(t)] + ([WriteBody(t)] + [Release(t)]))), s');
    assert SendSteps(t, msg)
        == [Send(t, msg)] + ([Acquire(t)] + ([CheckOpen(t)] + ([WriteHeader(t)] + ([WriteBody(t)] + [Release(t)]))));
  }

  lemma NoMore(s: State)
    ensures Runs(s, [], s)
  {}

  /** A closed pipe ends it: from then on no frame is completed and no header is added. */
  lemma {:induction false} NothingAfterClose(s: State, es: seq<Event>, s': State)
    requires s.pipe.closed && Runs(s, es, s')
    ensures s'.pipe.closed && s'.sent == s.sent && s'.pipe.written == s.pipe.written
    decreases es
  {
    if es != [] {
      NothingAfterClose(Apply(s, es[0]), es[1..], s');
    }
  }
}

/** The same as an object: each method is what a thread inside `send` does in one step. */
module FrameWireCode {
  import opened Threads
  import opened Framing
  import M = FrameWire
  import PipeCode

  class Sender {
    const pipe: PipeCode.Pipe
    var sendMutex: Owner
    var pc: map<Tid, M.Pc>
    ghost var sent: seq<seq<byte>>
    ghost var returned: seq<M.Return>

    ghost function View(): M.State reads this, pipe {
      M.State(pipe.View(), sendMutex, pc, sent, returned)
    }

    constructor (pipe: PipeCode.Pipe, threads: set<Tid>)
      ensures this.pipe == pipe && pc.Keys == threads
      ensures View() == M.State(pipe.View(), Nobody, map t | t in threads :: M.Idle, [], [])
    {
      this.pipe, sendMutex, sent, returned := pipe, Nobody, [], [];
      pc := map t | t in threads :: M.Idle;
    }

    method Acquire(t: Tid)
      requires M.Enabled(View(), M.Acquire(t))
      modifies this
      ensures View() == M.Apply(old(View()), M.Acquire(t))
      ensures old(M.Inv(View())) ==> M.Inv(View())
    {
      hide M.Inv;
      if M.Inv(View()) {
        M.InvKept(View(), M.Acquire(t));
      }
      sendMutex := Thread(t);
      pc := pc[t := M.Locked(pc[t].msg)];
    }

    method CheckOpen(t: Tid)
      requires M.Enabled(View(), M.CheckOpen(t))
      modifies this
      ensures View() == M.Apply(old(View()), M.CheckOpen(t))
      ensures old(M.Inv(View())) ==> M.Inv(View())
    {
      hide M.Inv;
      if M.Inv(View()) {
        M.InvKept(View(), M.CheckOpen(t));
      }
      pc := pc[t := if pipe.closed then M.Leaving(pc[t].msg, false) else M.Checked(pc[t].msg)];
    }

    method WriteHeader(t: Tid)
      requires M.Enabled(View(), M.WriteHeader(t))
      modifies this, pipe
      ensures View() == M.Apply(old(View()), M.WriteHeader(t))
      ensures old(M.Inv(View())) ==> M.Inv(View())
    {
      hide M.Inv;
      if M.Inv(View()) {
        M.InvKept(View(), M.WriteHeader(t));
      }
      var msg := pc[t].msg;
      var ok := pipe.Write(Header(|msg|));
      pc := pc[t := if ok then M.HeaderOut(msg) else M.Leaving(msg, false)];
    }

    method WriteBody(t: Tid)
      requires M.Enabled(View(), M.WriteBody(t))
      modifies this, pipe
      ensures View() == M.Apply(old(View()), M.WriteBody(t))
      ensures old(M.Inv(View())) ==> M.Inv(View())
    {
      hide M.Inv;
      if M.Inv(View()) {
        M.InvKept(View(), M.WriteBody(t));
      }
      var msg := pc[t].msg;
      var ok := pipe.Write(msg);
      pc := pc[t := M.Leaving(msg, ok)];
      if ok {
        sent := sent + [msg];
      }
    }

    method Release(t: Tid) returns (ok: bool)
      requires M.Enabled(View(), M.Release(t))
      modifies this
      ensures View() == M.Apply(old(View()), M.Release(t)) && ok == old(pc[t].ok)
      ensures old(M.Inv(View())) ==> M.Inv(View())
    {
      hide M.Inv;
      if M.Inv(View()) {
        M.InvKept(View(), M.Release(t));
      }
      ok := pc[t].ok;
      returned := returned + [M.Return(pc[t].msg, ok)];
      sendMutex := Nobody;
      pc := pc[t := M.Idle];
    }
  }
}
