/** The buffered, incremental reader of `src/content_stream.cpp`, proved to refine the pure parse
    of the whole byte stream whatever way the underlying Reader cuts that stream into chunks. */
module ContentStream {
  import opened Framing

  /** What `Reader::read` promises: it hands over a front part of the stream, at most n bytes of
      it, and at least one byte unless the stream has ended. */
  ghost predicate ShortRead(before: seq<byte>, n: nat, got: seq<byte>, after: seq<byte>) {
    && before == got + after
    && |got| <= n
    && (n > 0 && before != [] ==> got != [])
  }

  function Max(a: int, b: int): int { if a < b then b else a }

  /** A Reader over the bytes `pending`. It may answer each call with any short count; if it is
      `piped`, it blocks until it has all the bytes wanted, like a `Pipe`. */
  class ByteSource {
    const piped: bool
    var pending: seq<byte>
    var closed: bool
    ghost var delivered: nat  // bytes handed over so far
    ghost var demanded: nat   // the furthest stream position any call has asked for
    ghost var waits: nat      // calls that had to wait for bytes to be written
    ghost const total: nat    // length of the stream
    ghost const written: nat  // how much of it has been written already

    ghost predicate Valid() reads this {
      && delivered <= demanded && delivered + |pending| == total
      && (demanded <= written ==> waits == 0)
    }

    ghost function Remaining(): seq<byte> reads this { if closed then [] else pending }

    /** A call that has to wait. */
    ghost predicate MustWait(n: nat) reads this { piped && !closed && n > 0 && delivered + n > written }

    constructor (bytes: seq<byte>, piped: bool, ghost written: nat)
      ensures Valid() && !closed && pending == bytes && delivered == demanded == waits == 0
      ensures this.piped == piped && this.written == written
    {
      this.piped, this.written, total := piped, written, |bytes|;
      pending, closed, delivered, demanded, waits := bytes, false, 0, 0, 0;
    }

    method Close()
      modifies this`closed
      ensures closed
    {
      closed := true;
    }

    method Read(n: nat) returns (got: seq<byte>)
      requires Valid()
      modifies this`pending, this`delivered, this`demanded, this`waits
      ensures Valid()
      ensures ShortRead(old(Remaining()), n, got, Remaining())
      ensures piped ==> |got| == n || Remaining() == []
      ensures delivered == old(delivered) + |got|
      ensures demanded == Max(old(demanded), old(delivered) + n)
      ensures waits == old(waits) + if old(MustWait(n)) then 1 else 0
    {
      demanded := Max(demanded, delivered + n);
      if MustWait(n) {
        waits := waits + 1;
      }
      if closed || n == 0 || pending == [] {
        return [];
      }
      var k: nat :| 1 <= k <= n && k <= |pending|;
      if piped {
        k := if n <= |pending| then n else |pending|;
      }
      got, pending := pending[..k], pending[k..];
      delivered := delivered + k;
    }
  }

  const CHUNK := 256

  lemma FindStep(pat: seq<byte>, s: seq<byte>, i: nat)
    requires i <= |s|
    ensures Find(pat, s, i) == if |s| < i + |pat| then -1 else if pat <= s[i..] then i else Find(pat, s, i + 1)
  {
    if i + |pat| <= |s| {
      assert s[i..][..|pat|] == s[i..i + |pat|];
    }
  }

  lemma NoResults(mode: OnInvalidData, s: seq<byte>)
    ensures Results(mode, s, 0) == []
  {}

  /** Where a loop over `matchAny` that has consumed the first i bytes stops. */
  lemma RunEnds(p: byte -> bool, s: seq<byte>, i: nat)
    requires i <= |s| && (forall j | 0 <= j < i :: p(s[j])) && (i < |s| ==> !p(s[i]))
    ensures RunLength(p, s) == i && AfterRun(p, s) == if i < |s| && s[i] == 0 then i + 1 else i
  {
    assert s == s[..i] + s[i..];
    RunLengthIs(p, s[..i], s[i..]);
  }

  /** One turn of the digit loop, in `size_t` arithmetic: `len *= 10; len += c - '0'`. */
  function AppendDigit(len: nat, c: byte): nat
    requires IsDigit(c)
  {
    (len * 10 % SIZE_T_MODULUS + c - 48) % SIZE_T_MODULUS
  }

  lemma DigitStep(s: seq<byte>, i: nat)
    requires i < |s| && forall j | 0 <= j <= i :: IsDigit(s[j])
    ensures LengthOf(s[..i + 1]) == AppendDigit(LengthOf(s[..i]), s[i])
  {
    assert s[..i + 1][..i] == s[..i];
    WrapOnce(DigitsValue(s[..i]), s[i] - 48);
  }

  lemma NoDigits()
    ensures LengthOf([]) == 0
  {}

  lemma WrapOnce(v: nat, d: nat)
    ensures (v % SIZE_T_MODULUS * 10 % SIZE_T_MODULUS + d) % SIZE_T_MODULUS == (v * 10 + d) % SIZE_T_MODULUS
  {
    var q := v / SIZE_T_MODULUS;
    var len := v % SIZE_T_MODULUS;
    assert v * 10 == q * 10 * SIZE_T_MODULUS + len * 10;
    var q2 := len * 10 / SIZE_T_MODULUS;
    assert v * 10 + d == (q * 10 + q2) * SIZE_T_MODULUS + (len * 10 % SIZE_T_MODULUS + d);
  }

  class ContentReader {
    const reader: ByteSource
    const onInvalidData: OnInvalidData
    var buf: seq<byte>

    ghost predicate Valid() reads this, reader {
      reader.Valid() && |buf| <= reader.delivered
    }

    /** The bytes not consumed yet, buffered or still to come. */
    ghost function Unconsumed(): seq<byte> reads this, reader { buf + reader.Remaining() }

    /** Stream position of the next unconsumed byte. */
    ghost function Position(): int reads this, reader { reader.delivered - |buf| }

    /** Nothing is buffered and nothing beyond the consumed bytes has ever been asked for. */
    ghost predicate Quiet() reads this, reader { buf == [] && reader.demanded == reader.delivered }

    constructor (r: ByteSource, mode: OnInvalidData)
      requires r.Valid()
      ensures Valid() && reader == r && onInvalidData == mode && buf == []
      ensures Unconsumed() == r.Remaining()
    {
      reader, onInvalidData, buf := r, mode, [];
    }

    /** Pulls in only the bytes that are missing. */
    method Buffer(bytes: nat) returns (ok: bool)
      requires Valid()
      modifies this`buf, reader`pending, reader`delivered, reader`demanded, reader`waits
      ensures Valid()
      ensures Unconsumed() == old(Unconsumed()) && Position() == old(Position())
      ensures old(buf) <= buf
      ensures ok <==> bytes <= |Unconsumed()|
      ensures ok ==> bytes <= |buf|
      ensures !ok ==> buf == Unconsumed()
      ensures old(reader.demanded) <= reader.demanded <= Max(old(reader.demanded), Position() + bytes)
    {
      if bytes < |buf| {
        return true;
      }
      var missing := bytes - |buf|;
      while missing > 0
        invariant Valid() && missing == Max(0, bytes - |buf|)
        invariant Unconsumed() == old(Unconsumed()) && Position() == old(Position())
        invariant old(buf) <= buf
        invariant old(reader.demanded) <= reader.demanded <= Max(old(reader.demanded), Position() + bytes)
      {
        var numWant := if CHUNK < missing then CHUNK else missing;
        var chunk := reader.Read(numWant);
        if chunk == [] {
          return false;
        }
        assert (buf + chunk) + reader.Remaining() == buf + (chunk + reader.Remaining());
        buf := buf + chunk;
        missing := missing - |chunk|;
      }
      return true;
    }

    method PopFront()
      requires Valid() && buf != []
      modifies this`buf
      ensures Valid() && buf == old(buf)[1..]
      ensures Unconsumed() == old(Unconsumed())[1..] && Position() == old(Position()) + 1
    {
      buf := buf[1..];
    }

    method Match(pat: seq<byte>) returns (ok: bool)
      requires Valid()
      modifies this`buf, reader`pending, reader`delivered, reader`demanded, reader`waits
      ensures Valid()
      ensures ok <==> pat <= old(Unconsumed())
      ensures Unconsumed() == if ok then old(Unconsumed())[|pat|..] else old(Unconsumed())
      ensures Position() == old(Position()) + if ok then |pat| else 0
      ensures |pat| <= |old(Unconsumed())| && !ok ==> |pat| <= |buf|
      ensures reader.demanded <= Max(old(reader.demanded), old(Position()) + |pat|)
    {
      ok := Buffer(|pat|);
      if !ok {
        return false;
      }
      for i := 0 to |pat|
        invariant forall k | 0 <= k < i :: buf[k] == pat[k]
      {
        if buf[i] != pat[i] {
          assert Unconsumed()[i] == buf[i];
          return false;
        }
      }
      assert buf[..|pat|] == pat;
      buf := buf[|pat|..];
      return true;
    }

    /** The byte matched, or 0 when there is none. A NUL is consumed and still reported as 0. */
    method MatchAny(p: byte -> bool) returns (c: byte)
      requires Valid() && !p(0)
      modifies this`buf, reader`pending, reader`delivered, reader`demanded, reader`waits
      ensures Valid()
      ensures var s := old(Unconsumed());
              if s != [] && (p(s[0]) || s[0] == 0)
              then c == s[0] && Unconsumed() == s[1..] && Position() == old(Position()) + 1
              else c == 0 && Unconsumed() == s && Position() == old(Position())
      ensures reader.demanded <= Max(old(reader.demanded), old(Position()) + 1)
    {
      var ok := Buffer(1);
      if !ok {
        return 0;
      }
      c := buf[0];
      if p(c) || c == 0 {
        PopFront();
        return c;
      }
      return 0;
    }

    /** The same, after i bytes of s. */
    method MatchNext(p: byte -> bool, ghost s: seq<byte>, ghost i: nat) returns (c: byte)
      requires Valid() && !p(0) && i <= |s| && Unconsumed() == s[i..]
      modifies this`buf, reader`pending, reader`delivered, reader`demanded, reader`waits
      ensures Valid()
      ensures if i < |s| && (p(s[i]) || s[i] == 0)
              then c == s[i] && Unconsumed() == s[i + 1..] && Position() == old(Position()) + 1
              else c == 0 && Unconsumed() == s[i..] && Position() == old(Position())
      ensures reader.demanded <= Max(old(reader.demanded), old(Position()) + 1)
    {
      if i < |s| {
        SuffixOfSuffix(s, i, 1);
        assert s[i..][0] == s[i];
      }
      c := MatchAny(p);
    }

    /** One turn of the scan: without enough bytes nothing happens; otherwise the pattern, or one
        byte, is consumed. */
    method MatchOrSkip(pat: seq<byte>) returns (more: bool, matched: bool)
      requires Valid() && pat != []
      modifies this`buf, reader`pending, reader`delivered, reader`demanded, reader`waits
      ensures Valid()
      ensures var s := old(Unconsumed());
              var n := if matched then |pat| else if more then 1 else 0;
              && (more <==> |pat| <= |s|) && (matched <==> pat <= s)
              && Unconsumed() == s[n..] && Position() == old(Position()) + n
      ensures reader.demanded <= Max(old(reader.demanded), old(Position()) + |pat|)
    {
      matched := false;
      more := Buffer(|pat|);
      if more {
        matched := Match(pat);
        if !matched {
          PopFront();
        }
      }
    }

    /** Drops bytes until the pattern has been consumed. */
    method Scan(pat: seq<byte>) returns (ok: bool)
      requires Valid() && pat != []
      modifies this`buf, reader`pending, reader`delivered, reader`demanded, reader`waits
      ensures Valid()
      ensures var s := old(Unconsumed()); var i := Find(pat, s, 0);
              && (ok <==> i >= 0)
              && Unconsumed() == (if ok then s[i + |pat|..] else if |s| < |pat| then s else s[|s| - |pat| + 1..])
      ensures Position() >= old(Position())
      ensures ok ==> reader.demanded <= Max(old(reader.demanded), Position())
    {
      hide Find, OccursAt;
      ghost var s := Unconsumed();
      ghost var i := 0;
      while true
        invariant Valid() && i <= |s| && Unconsumed() == s[i..]
        invariant i > 0 ==> i + |pat| <= |s| + 1
        invariant Position() == old(Position()) + i
        invariant Find(pat, s, 0) == Find(pat, s, i)
        invariant reader.demanded <= Max(old(reader.demanded), Position() + |pat|)
        decreases |s| - i
      {
        FindStep(pat, s, i);
        var more, matched := MatchOrSkip(pat);
        if !more {
          return false;
        }
        if matched {
          SuffixOfSuffix(s, i, |pat|);
          return true;
        }
        SuffixOfSuffix(s, i, 1);
        i := i + 1;
      }
    }

    /** One read. The message, the bytes left over and the closing of the reader are those of the
        pure parse of the unconsumed bytes. A message is returned without having asked for any
        byte beyond its own last one, let alone for one beyond the stream; so reading a message that
        has been written whole through a pipe never waits for the next one. */
    method Read() returns (msg: seq<byte>)
      requires Valid()
      modifies this`buf, reader
      ensures Valid()
      ensures var r := Parse(onInvalidData, old(Unconsumed()));
              && msg == r.msg
              && (if r.bad && onInvalidData == Close
                  then reader.closed && buf <= r.rest
                  else reader.closed == old(reader.closed) && Unconsumed() == r.rest)
      ensures Position() >= old(Position())
      ensures msg != [] ==> reader.demanded <= Max(old(reader.demanded), Position())
      ensures msg != [] && old(Quiet()) ==> Quiet() && (!reader.closed ==> reader.demanded <= reader.total)
      ensures msg != [] && old(Quiet()) && Position() <= reader.written ==> reader.waits == 0
    {
      hide ParseAfterPrefix, Find;
      if onInvalidData == Close {
        var matched := Match(PREFIX);
        if !matched {
          BadHeader();
          return [];
        }
      } else {
        var found := Scan(PREFIX);
        if !found {
          return [];
        }
      }
      msg := ReadAfterPrefix();
    }

    method ReadAfterPrefix() returns (msg: seq<byte>)
      requires Valid()
      modifies this`buf, reader
      ensures Valid()
      ensures var r := ParseAfterPrefix(old(Unconsumed()));
              && msg == r.msg
              && (if r.bad && onInvalidData == Close
                  then reader.closed && buf <= r.rest
                  else reader.closed == old(reader.closed) && Unconsumed() == r.rest)
      ensures Position() >= old(Position())
      ensures msg != [] ==> reader.demanded <= Max(old(reader.demanded), Position())
    {
      hide ParseAfterPrefix, ParseContent;
      var len := ReadToLength();
      if len == 0 {
        return [];
      }
      msg := ReadContent(len);
    }

    method ReadToLength() returns (len: nat)
      requires Valid()
      modifies this`buf, reader`pending, reader`delivered, reader`demanded, reader`waits
      ensures Valid()
      ensures ParseAfterPrefix(old(Unconsumed()))
           == if len == 0 then ReadResult([], Unconsumed(), false) else ParseContent(len, Unconsumed())
      ensures Position() >= old(Position())
      ensures reader.demanded <= Max(old(reader.demanded), Position() + 1)
    {
      hide ParseAfterPrefix, RunLength, AfterRun, LengthOf, ParseContent;
      ghost var s := Unconsumed();
      SkipSpaces();
      ghost var t := Unconsumed();
      len := ReadLength();
      ParseFromLength(s, t, len, Unconsumed());
    }

    method ReadContent(len: nat) returns (msg: seq<byte>)
      requires Valid()
      modifies this`buf, reader
      ensures Valid()
      ensures var r := ParseContent(len, old(Unconsumed()));
              && msg == r.msg
              && (if r.bad && onInvalidData == Close
                  then reader.closed && buf <= r.rest
                  else reader.closed == old(reader.closed) && Unconsumed() == r.rest)
      ensures Position() >= old(Position())
      ensures msg != [] ==> Position() > old(Position()) && reader.demanded <= Max(old(reader.demanded), Position())
    {
      var matched := Match(BLANK_LINE);
      if !matched {
        BadHeader();
        return [];
      }
      msg := ReadBody(len);
    }

    method SkipSpaces()
      requires Valid()
      modifies this`buf, reader`pending, reader`delivered, reader`demanded, reader`waits
      ensures Valid()
      ensures var s := old(Unconsumed()); Unconsumed() == s[AfterRun(IsSpace, s)..]
      ensures Position() >= old(Position())
      ensures reader.demanded <= Max(old(reader.demanded), Position() + 1)
    {
      hide RunLength, AfterRun;
      ghost var s := Unconsumed();
      ghost var i := 0;
      while true
        invariant Valid() && i <= |s| && Unconsumed() == s[i..]
        invariant forall j | 0 <= j < i :: IsSpace(s[j])
        invariant Position() >= old(Position())
        invariant reader.demanded <= Max(old(reader.demanded), Position() + 1)
        decreases |s| - i
      {
        var c := MatchNext(IsSpace, s, i);
        if c == 0 {
          RunEnds(IsSpace, s, i);
          return;
        }
        i := i + 1;
      }
    }

    method ReadLength() returns (len: nat)
      requires Valid()
      modifies this`buf, reader`pending, reader`delivered, reader`demanded, reader`waits
      ensures Valid()
      ensures var s := old(Unconsumed());
              && len == LengthOf(s[..RunLength(IsDigit, s)])
              && Unconsumed() == s[AfterRun(IsDigit, s)..]
      ensures Position() >= old(Position())
      ensures reader.demanded <= Max(old(reader.demanded), Position() + 1)
    {
      hide RunLength, AfterRun, LengthOf, AppendDigit;
      ghost var s := Unconsumed();
      ghost var i := 0;
      len := 0;
      assert s[..0] == [];
      NoDigits();
      while true
        invariant Valid() && i <= |s| && Unconsumed() == s[i..]
        invariant forall j | 0 <= j < i :: IsDigit(s[j])
        invariant len == LengthOf(s[..i])
        invariant Position() >= old(Position())
        invariant reader.demanded <= Max(old(reader.demanded), Position() + 1)
        decreases |s| - i
      {
        var c := MatchNext(IsDigit, s, i);
        if c == 0 {
          RunEnds(IsDigit, s, i);
          return;
        }
        DigitStep(s, i);
        len := AppendDigit(len, c);
        i := i + 1;
      }
    }

    method ReadBody(len: nat) returns (msg: seq<byte>)
      requires Valid()
      modifies this`buf, reader`pending, reader`delivered, reader`demanded, reader`waits
      ensures Valid()
      ensures var r := ParseBody(len, old(Unconsumed())); msg == r.msg && Unconsumed() == r.rest
      ensures Position() >= old(Position())
      ensures msg != [] ==> reader.demanded <= Max(old(reader.demanded), Position())
    {
      var ok := Buffer(len);
      if !ok {
        return [];
      }
      msg := [];
      ghost var all := buf;
      for i := 0 to len
        invariant i <= |all| && msg == all[..i] && buf == all[i..]
        invariant Valid() && Position() == old(Position()) + i
        modifies this`buf
      {
        msg := msg + [buf[0]];
        buf := buf[1..];
      }
    }

    method BadHeader()
      requires Valid()
      modifies reader`closed
      ensures Valid() && reader.closed == (old(reader.closed) || onInvalidData == Close)
    {
      if onInvalidData == Close {
        reader.Close();
      }
    }

    /** The receive loop: read while the reader is open, at most n times. */
    method ReadMessages(n: nat) returns (msgs: seq<seq<byte>>)
      requires Valid() && !reader.closed
      modifies this`buf, reader
      ensures Valid()
      ensures msgs == Results(onInvalidData, old(Unconsumed()), n)
    {
      hide Parse, Results;
      msgs := [];
      ghost var s := Unconsumed();
      ghost var k := 0;
      while |msgs| < n && !reader.closed
        invariant Valid() && k == |msgs| <= n
        invariant if reader.closed then msgs == Results(onInvalidData, s, n)
                  else Results(onInvalidData, s, n) == msgs + Results(onInvalidData, Unconsumed(), n - k)
        decreases n - |msgs|
      {
        ResultsUnfold(onInvalidData, Unconsumed(), n - k);
        var msg := Read();
        msgs := msgs + [msg];
        k := k + 1;
      }
      NoResults(onInvalidData, Unconsumed());
    }
  }
}
