/** A `Pipe` as the Reader under a `ContentReader`. A read of a pipe blocks until it has every byte,
    so it matters that a message is read without asking for a byte beyond it. */
module PipeReaders {
  import opened Threads
  import opened Framing
  import opened ContentStream
  import P = Pipes
  import PipeCode

  /** A read of an open pipe returns without waiting exactly when all the bytes it wants have been
      written, and then it is a legal read that got them all. */
  lemma ReturnsAtOnceIff(s: P.State, t: Tid, want: nat)
    requires P.Inv(s) && t in s.pc && s.pc[t].Idle? && !s.closed && want > 0
    ensures var s' := P.Read(P.Enter(s, t, want), t);
            && (s'.pc[t].Idle? <==> |s.consumed| + want <= |s.written|)
            && (s'.pc[t].Idle? ==>
                  && |s'.pc[t].last| == want && ShortRead(s.data, want, s'.pc[t].last, s'.data)
                  && |s'.consumed| == |s.consumed| + want)
  {
    assert |s.consumed| + |s.data| == |s.written|;
    if want <= |s.data| {
      assert s.data == s.data[..want] + s.data[want..];
      assert [] + s.data[..want] == s.data[..want];
    }
  }

  /** What the read in progress, or the last one, has got. */
  function Taken(p: P.Pc): seq<byte> { if p.Idle? then p.last else p.got }

  /** One pass of the read loop, in terms of what has been taken and what is left. */
  lemma Pass(s: P.State, t: Tid)
    requires P.Inv(s) && t in s.pc && s.pc[t].Awake?
    ensures t in P.Read(s, t).pc
    ensures var s' := P.Read(s, t); var p, p' := s.pc[t], s'.pc[t];
            && P.Inv(s') && s'.closed == s.closed && s'.written == s.written && !p'.Awake?
            && Taken(p') + s'.data == Taken(p) + s.data && |Taken(p')| <= p.want
            && |s'.consumed| + |Taken(p)| == |s.consumed| + |Taken(p')|
            && (p'.Waiting? ==> !s.closed && s'.data == [] && p'.want == p.want)
            && (p'.Idle? && !s.closed ==> |Taken(p')| == p.want)
            && (s.closed ==> p'.Idle? && Taken(p') == Taken(p))
  {
    P.ReadKeeps(s, t);
    var want, got := s.pc[t].want, s.pc[t].got;
    if !s.closed && s.data != [] {
      var n := if want - |got| < |s.data| then want - |got| else |s.data|;
      assert (got + s.data[..n]) + s.data[n..] == got + s.data;
    }
  }

  /** The first pass returns exactly when nothing has to be waited for. */
  lemma FirstPass(s: P.State, t: Tid, want: nat)
    requires P.Inv(s) && t in s.pc && s.pc[t].Idle?
    ensures P.Read(P.Enter(s, t, want), t).pc[t].Waiting?
       <==> !s.closed && (|s.consumed| + want > |s.written| || s.data == [])
  {
    assert |s.consumed| + |s.data| == |s.written|;
  }

  /** The pipe end of a session's reader: what a piped `ByteSource` stands for. `incoming` is what
      the writer at the other end has yet to write before it closes the pipe; a read that has to
      wait lets the writer go on. */
  class PipeSource {
    const pipe: PipeCode.Pipe
    const thread: Tid
    var incoming: seq<byte>
    ghost var demanded: nat
    ghost var waits: nat

    /** The only reader of its pipe. */
    ghost predicate Valid() reads this, pipe {
      && P.Inv(pipe.View()) && thread in pipe.pc && pipe.pc[thread].Idle? && |pipe.consumed| <= demanded
    }

    ghost function Delivered(): nat reads this, pipe { |pipe.consumed| }

    ghost function Remaining(): seq<byte> reads this, pipe { if pipe.closed then [] else pipe.data + incoming }

    ghost predicate MustWait(n: nat) reads this, pipe {
      !pipe.closed && (Delivered() + n > |pipe.written| || pipe.data == [])
    }

    constructor (pipe: PipeCode.Pipe, thread: Tid, incoming: seq<byte>)
      requires P.Inv(pipe.View()) && thread in pipe.pc && pipe.pc[thread].Idle?
      ensures Valid() && this.pipe == pipe && this.thread == thread && this.incoming == incoming
      ensures demanded == |pipe.consumed| && waits == 0
    {
      this.pipe, this.thread, this.incoming, demanded, waits := pipe, thread, incoming, |pipe.consumed|, 0;
    }

    /** The other end's turn while a reader waits: it writes something, or closes. */
    method WriterGoesOn()
      requires P.Inv(pipe.View()) && thread in pipe.pc && pipe.pc[thread].Waiting?
      modifies this`incoming, pipe
      ensures P.Inv(pipe.View()) && thread in pipe.pc
      ensures pipe.pc[thread] == P.Awake(old(pipe.pc[thread].want), old(pipe.pc[thread].got))
      ensures pipe.consumed == old(pipe.consumed)
      ensures Remaining() == old(Remaining())
      ensures if old(incoming) == [] then pipe.closed && incoming == [] else !pipe.closed && |incoming| < |old(incoming)|
    {
      if incoming == [] {
        pipe.Close();
      } else {
        var k: nat :| 1 <= k <= |incoming|;
        var ok := pipe.Write(incoming[..k]);
        incoming := incoming[k..];
      }
    }

    ghost function Got(): seq<byte> reads this, pipe
      requires thread in pipe.pc
    {
      Taken(pipe.pc[thread])
    }

    /** Bytes go over from the pipe, in order, until there are enough of them or none is left. */
    method OnePass()
      requires P.Inv(pipe.View()) && thread in pipe.pc && pipe.pc[thread].Awake?
      modifies pipe
      ensures P.Inv(pipe.View()) && thread in pipe.pc && !pipe.pc[thread].Awake? && pipe.closed == old(pipe.closed)
      ensures Got() + Remaining() == old(Got() + Remaining()) && |Got()| <= old(pipe.pc[thread].want)
      ensures Delivered() + |old(Got())| == old(Delivered()) + |Got()|
      ensures pipe.pc[thread].Waiting? ==> pipe.pc[thread].want == old(pipe.pc[thread].want) && !pipe.closed
      ensures pipe.pc[thread].Idle? ==> |Got()| == old(pipe.pc[thread].want) || Remaining() == []
      ensures pipe.View() == P.Read(old(pipe.View()), thread)
    {
      hide P.Read, P.Inv;
      Pass(pipe.View(), thread);
      ghost var before, data := Got(), pipe.data;
      pipe.Read(thread);
      assert (Got() + pipe.data) + incoming == (before + data) + incoming;
      assert Got() + (pipe.data + incoming) == (Got() + pipe.data) + incoming;
      assert before + (data + incoming) == (before + data) + incoming;
    }

    method Read(n: nat) returns (got: seq<byte>)
      requires Valid()
      modifies this, pipe
      ensures Valid()
      ensures ShortRead(old(Remaining()), n, got, Remaining())
      ensures |got| == n || Remaining() == []
      ensures Delivered() == old(Delivered()) + |got|
      ensures demanded == Max(old(demanded), old(Delivered()) + n)
      ensures waits == old(waits) + if old(MustWait(n)) then 1 else 0
    {
      hide P.Read, P.Inv;
      ghost var all, start := Remaining(), Delivered();
      FirstPass(pipe.View(), thread, n);
      demanded := Max(demanded, start + n);
      pipe.Enter(thread, n);
      OnePass();
      if pipe.pc[thread].Waiting? {
        waits := waits + 1;
      }
      while pipe.pc[thread].Waiting?
        invariant P.Inv(pipe.View()) && thread in pipe.pc && !pipe.pc[thread].Awake?
        invariant pipe.pc[thread].Waiting? ==> pipe.pc[thread].want == n && !pipe.closed
        invariant Got() + Remaining() == all && |Got()| <= n
        invariant Delivered() == start + |Got()|
        invariant pipe.pc[thread].Idle? ==> |Got()| == n || Remaining() == []
        invariant waits == old(waits) + if old(MustWait(n)) then 1 else 0
        invariant demanded == Max(old(demanded), start + n)
        decreases |incoming|, !pipe.closed
      {
        WriterGoesOn();
        OnePass();
      }
      got := pipe.pc[thread].last;
    }
  }
}
