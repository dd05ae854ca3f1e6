/** The in-memory stream of `src/string_buffer.h`, which hands bytes over in the chunks they were
    written in, and the frame writer on top of it. */
module StringBuffers {
  import opened Framing
  import opened ContentStream

  function Sum(ns: seq<nat>): nat {
    if ns == [] then 0 else ns[0] + Sum(ns[1..])
  }

  lemma {:induction false} SumSnoc(ns: seq<nat>, n: nat)
    ensures Sum(ns + [n]) == Sum(ns) + n
  {
    if ns != [] {
      assert (ns + [n])[1..] == ns[1..] + [n];
      SumSnoc(ns[1..], n);
    }
  }

  class StringBuffer {
    var str: seq<byte>
    var chunkLengths: seq<nat>
    var closed: bool

    ghost predicate Valid() reads this { Sum(chunkLengths) == |str| }

    /** No empty write is waiting to be read. */
    ghost predicate Gapless() reads this { forall i | 0 <= i < |chunkLengths| :: chunkLengths[i] > 0 }

    ghost function Remaining(): seq<byte> reads this { if closed then [] else str }

    /** An empty chunk at the front makes the next read report the end of a stream that has not
        ended. */
    ghost predicate Stalls(n: nat) reads this
      requires Valid()
    {
      !closed && n > 0 && str != [] && chunkLengths[0] == 0
    }

    constructor ()
      ensures Valid() && Gapless() && !closed && str == []
    {
      str, chunkLengths, closed := [], [], false;
    }

    /** A legal Reader exactly where no empty chunk is in front; always one on a gapless buffer. */
    method Read(n: nat) returns (got: seq<byte>)
      requires Valid()
      modifies this`str, this`chunkLengths
      ensures Valid() && old(str) == got + str
      ensures ShortRead(old(Remaining()), n, got, Remaining()) <==> !old(Stalls(n))
      ensures old(Gapless()) ==> Gapless() && ShortRead(old(Remaining()), n, got, Remaining())
      ensures !closed && old(str) != [] ==> |got| == if n < old(chunkLengths)[0] then n else old(chunkLengths)[0]
    {
      if closed || n == 0 || str == [] || chunkLengths == [] {
        return [];
      }
      var len := if n < chunkLengths[0] then n else chunkLengths[0];
      got, str := str[..len], str[len..];
      if n < chunkLengths[0] {
        chunkLengths := [chunkLengths[0] - n] + chunkLengths[1..];
      } else {
        chunkLengths := chunkLengths[1..];
      }
    }

    method Write(bytes: seq<byte>) returns (ok: bool)
      requires Valid()
      modifies this`str, this`chunkLengths
      ensures Valid() && ok == !closed
      ensures str == if ok then old(str) + bytes else old(str)
      ensures chunkLengths == if ok then old(chunkLengths) + [|bytes|] else old(chunkLengths)
      ensures old(Gapless()) ==> (Gapless() <==> !ok || bytes != [])
    {
      if closed {
        return false;
      }
      SumSnoc(chunkLengths, |bytes|);
      str := str + bytes;
      chunkLengths := chunkLengths + [|bytes|];
      assert chunkLengths[|chunkLengths| - 1] == |bytes|;
      return true;
    }

    /** `ContentWriter::write`: header and body are two writes, so an empty message leaves an
        empty chunk behind. */
    method WriteFrame(msg: seq<byte>) returns (ok: bool)
      requires Valid()
      modifies this`str, this`chunkLengths
      ensures Valid() && ok == !closed
      ensures str == if ok then old(str) + Frame(msg) else old(str)
      ensures old(Gapless()) ==> (Gapless() <==> !ok || msg != [])
    {
      ok := Write(Header(|msg|));
      if ok {
        ok := Write(msg);
      }
    }
  }
}
