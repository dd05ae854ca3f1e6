/** The header/content framing of the DAP base protocol, as a pure parse and print of byte sequences.

    `Parse` says what one `ContentReader::read` takes off the front of the whole byte stream;
    `Frame` says what one `ContentWriter::write` appends to it. */
module Framing {
  type byte = b: int | 0 <= b < 256

  /** What to do with a malformed header: keep scanning, or close the reader. */
  datatype OnInvalidData = Ignore | Close

  const SIZE_T_MODULUS: nat := 0x1_0000_0000_0000_0000

  // "Content-Length:"
  const PREFIX: seq<byte> := [67, 111, 110, 116, 101, 110, 116, 45, 76, 101, 110, 103, 116, 104, 58]
  // "\r\n\r\n"
  const BLANK_LINE: seq<byte> := [13, 10, 13, 10]

  predicate IsSpace(b: byte) { b == 32 || b == 9 }

  predicate IsDigit(b: byte) { 48 <= b <= 57 }

  // ---------------------------------------------------------------- parsing

  predicate OccursAt(pat: seq<byte>, s: seq<byte>, i: nat) {
    i + |pat| <= |s| && s[i..i + |pat|] == pat
  }

  predicate Contains(pat: seq<byte>, s: seq<byte>) {
    exists i: nat | i <= |s| :: OccursAt(pat, s, i)
  }

  /** Position of the first occurrence of pat at or after i, or -1. */
  function Find(pat: seq<byte>, s: seq<byte>, i: nat): (r: int)
    ensures r >= 0 ==> r >= i && OccursAt(pat, s, r) && forall j: nat | i <= j < r :: !OccursAt(pat, s, j)
    ensures r < 0 ==> r == -1 && forall j: nat | i <= j :: !OccursAt(pat, s, j)
    decreases |s| - i
  {
    if i + |pat| > |s| then -1
    else if OccursAt(pat, s, i) then i
    else Find(pat, s, i + 1)
  }

  /** Length of the longest run at the front of s whose bytes all satisfy p. */
  function RunLength(p: byte -> bool, s: seq<byte>): (k: nat)
    ensures k <= |s|
    ensures forall i | 0 <= i < k :: p(s[i])
    ensures k < |s| ==> !p(s[k])
  {
    if s == [] || !p(s[0]) then 0 else 1 + RunLength(p, s[1..])
  }

  /** What a loop over `matchAny` consumes: the run, and also one NUL that ends it, because
      `strchr` finds the terminator of the character list. */
  function AfterRun(p: byte -> bool, s: seq<byte>): (k: nat)
    ensures RunLength(p, s) <= k <= |s|
  {
    var k := RunLength(p, s);
    if k < |s| && s[k] == 0 then k + 1 else k
  }

  /** The number written by a run of decimal digits, most significant first. */
  function DigitsValue(ds: seq<byte>): nat
    requires forall i | 0 <= i < |ds| :: IsDigit(ds[i])
  {
    if ds == [] then 0 else assert IsDigit(ds[|ds| - 1]); DigitsValue(ds[..|ds| - 1]) * 10 + ds[|ds| - 1] - 48
  }

  /** That number as the `size_t` it is accumulated in. */
  function LengthOf(ds: seq<byte>): nat
    requires forall i | 0 <= i < |ds| :: IsDigit(ds[i])
  {
    DigitsValue(ds) % SIZE_T_MODULUS
  }

  /** Outcome of one read: the message ("" when there is none), the bytes not consumed, and
      whether `badHeader` was reached. */
  datatype ReadResult = ReadResult(msg: seq<byte>, rest: seq<byte>, bad: bool)

  /** Everything after the header prefix: blanks, length, blank line, content. */
  function ParseAfterPrefix(s: seq<byte>): ReadResult {
    var t := s[AfterRun(IsSpace, s)..];
    var len := LengthOf(t[..RunLength(IsDigit, t)]);
    var rest := t[AfterRun(IsDigit, t)..];
    if len == 0 then ReadResult([], rest, false) else ParseContent(len, rest)
  }

  function ParseContent(len: nat, s: seq<byte>): ReadResult {
    if !(BLANK_LINE <= s) then ReadResult([], s, true) else ParseBody(len, s[|BLANK_LINE|..])
  }

  function ParseBody(len: nat, s: seq<byte>): ReadResult {
    if |s| < len then ReadResult([], s, false) else ReadResult(s[..len], s[len..], false)
  }

  /** What is left when no header prefix is found: scanning stops with one byte too few. */
  function ScanRest(s: seq<byte>): seq<byte> {
    if |s| < |PREFIX| then s else s[|s| - |PREFIX| + 1..]
  }

  /** One read of the whole byte stream s. */
  function Parse(mode: OnInvalidData, s: seq<byte>): ReadResult {
    match mode
    case Close =>
      if PREFIX <= s then ParseAfterPrefix(s[|PREFIX|..]) else ReadResult([], s, true)
    case Ignore =>
      var i := Find(PREFIX, s, 0);
      if i < 0 then ReadResult([], ScanRest(s), false) else ParseAfterPrefix(s[i + |PREFIX|..])
  }

  /** The results of at most n reads, stopping once a bad header has closed the reader. */
  function Results(mode: OnInvalidData, s: seq<byte>, n: nat): seq<seq<byte>>
    decreases n
  {
    if n == 0 then []
    else
      var r := Parse(mode, s);
      [r.msg] + if r.bad && mode == Close then [] else Results(mode, r.rest, n - 1)
  }

  // --------------------------------------------------------------- printing

  function Decimal(n: nat): (ds: seq<byte>)
    ensures |ds| > 0 && forall i | 0 <= i < |ds| :: IsDigit(ds[i])
  {
    if n < 10 then [48 + n] else Decimal(n / 10) + [48 + n % 10]
  }

  function Header(size: nat): seq<byte> {
    PREFIX + [32] + Decimal(size) + BLANK_LINE
  }

  function Frame(msg: seq<byte>): seq<byte> {
    Header(|msg|) + msg
  }

  function Frames(msgs: seq<seq<byte>>): seq<byte> {
    if msgs == [] then [] else Frame(msgs[0]) + Frames(msgs[1..])
  }

  /** gaps[0], frame 0, gaps[1], frame 1, ..., last gap. */
  function Stream(gaps: seq<seq<byte>>, msgs: seq<seq<byte>>): seq<byte>
    requires |gaps| == |msgs| + 1
  {
    if msgs == [] then gaps[0] else gaps[0] + (Frame(msgs[0]) + Stream(gaps[1..], msgs[1..]))
  }

  /** Messages whose size a `size_t` can hold. */
  predicate Sized(msgs: seq<seq<byte>>) {
    forall i | 0 <= i < |msgs| :: |msgs[i]| < SIZE_T_MODULUS
  }

  // ------------------------------------------------------------------ lemmas

  lemma {:induction false} DecimalValue(n: nat)
    ensures DigitsValue(Decimal(n)) == n
  {
    if n < 10 {
      assert [48 + n][..0] == [];
    } else {
      DecimalValue(n / 10);
      var ds := Decimal(n / 10);
      assert (ds + [48 + n % 10])[..|ds|] == ds;
    }
  }

  lemma DecimalLength(n: nat)
    requires n < SIZE_T_MODULUS
    ensures LengthOf(Decimal(n)) == n
  {
    hide Decimal, DigitsValue;
    DecimalValue(n);
  }

  /** A run is as long as it can be, and no longer. */
  lemma {:induction false} RunLengthIs(p: byte -> bool, run: seq<byte>, t: seq<byte>)
    requires forall i | 0 <= i < |run| :: p(run[i])
    requires t == [] || !p(t[0])
    ensures RunLength(p, run + t) == |run|
  {
    if run == [] {
      assert run + t == t;
    } else {
      assert (run + t)[1..] == run[1..] + t;
      RunLengthIs(p, run[1..], t);
    }
  }

  /** The length field of a printed header, with what follows it. */
  lemma LengthField(ds: seq<byte>, tail: seq<byte>)
    requires |ds| > 0 && forall i | 0 <= i < |ds| :: IsDigit(ds[i])
    requires tail != [] && !IsDigit(tail[0]) && tail[0] != 0
    ensures AfterRun(IsSpace, [32] + (ds + tail)) == 1
    ensures RunLength(IsDigit, ds + tail) == AfterRun(IsDigit, ds + tail) == |ds|
  {
    RunLengthIs(IsSpace, [32], ds + tail);
    RunLengthIs(IsDigit, ds, tail);
  }

  lemma ParseLength(ds: seq<byte>, tail: seq<byte>)
    requires |ds| > 0 && forall i | 0 <= i < |ds| :: IsDigit(ds[i])
    requires tail != [] && !IsDigit(tail[0]) && tail[0] != 0
    ensures ParseAfterPrefix([32] + (ds + tail))
         == if LengthOf(ds) == 0 then ReadResult([], tail, false) else ParseContent(LengthOf(ds), tail)
  {
    hide LengthOf;
    LengthField(ds, tail);
    assert ([32] + (ds + tail))[1..] == ds + tail;
    assert (ds + tail)[..|ds|] == ds && (ds + tail)[|ds|..] == tail;
  }

  /** What reading a printed frame followed by t should give. An empty message is reported before
      its blank line is consumed. */
  function FrameResult(msg: seq<byte>, t: seq<byte>): ReadResult {
    if msg == [] then ReadResult([], BLANK_LINE + t, false) else ReadResult(msg, t, false)
  }

  function AfterPrefix(msg: seq<byte>, t: seq<byte>): seq<byte> {
    [32] + (Decimal(|msg|) + (BLANK_LINE + (msg + t)))
  }

  lemma FrameSplits(msg: seq<byte>, t: seq<byte>)
    ensures Frame(msg) + t == PREFIX + AfterPrefix(msg, t)
  {}

  lemma ParseAfterPrefixOfFrame(msg: seq<byte>, t: seq<byte>)
    requires |msg| < SIZE_T_MODULUS
    ensures ParseAfterPrefix(AfterPrefix(msg, t)) == FrameResult(msg, t)
  {
    var ds := Decimal(|msg|);
    var tail := BLANK_LINE + (msg + t);
    hide ParseAfterPrefix, LengthOf, Decimal;
    ParseLength(ds, tail);
    DecimalLength(|msg|);
    if msg == [] {
      assert msg + t == t;
    } else {
      assert tail[|BLANK_LINE|..] == msg + t;
      assert (msg + t)[..|msg|] == msg && (msg + t)[|msg|..] == t;
    }
  }

  /** No proper part of the pattern can begin a new occurrence of it. */
  predicate Borderless(pat: seq<byte>) {
    pat != [] && forall k | 0 < k < |pat| :: pat[k] != pat[0]
  }

  lemma OccursAtByte(pat: seq<byte>, s: seq<byte>, i: nat, k: nat)
    requires k < |pat|
    ensures OccursAt(pat, s, i) ==> i + k < |s| && s[i + k] == pat[k]
  {
    if OccursAt(pat, s, i) {
      assert s[i..i + |pat|][k] == s[i + k];
    }
  }

  /** A match cannot straddle pattern-free garbage and a genuine occurrence. */
  lemma FindAfterGarbage(pat: seq<byte>, g: seq<byte>, t: seq<byte>)
    requires Borderless(pat) && !Contains(pat, g)
    ensures Find(pat, g + (pat + t), 0) == |g|
  {
    var s := g + (pat + t);
    assert s[|g|..|g| + |pat|] == pat;
    assert OccursAt(pat, s, |g|);
    forall j: nat | j < |g|
      ensures !OccursAt(pat, s, j)
    {
      if j + |pat| <= |g| {
        assert g[j..j + |pat|] == s[j..j + |pat|];
        assert !OccursAt(pat, g, j);
      } else {
        OccursAtByte(pat, s, j, |g| - j);
        assert s[|g|] == pat[0];
      }
    }
  }

  /** Garbage stays garbage behind bytes that cannot begin the pattern. */
  lemma LongerGarbage(pat: seq<byte>, b: seq<byte>, g: seq<byte>)
    requires pat != [] && !Contains(pat, g)
    requires forall k | 0 <= k < |b| :: b[k] != pat[0]
    ensures !Contains(pat, b + g)
  {
    var s := b + g;
    forall j: nat | j <= |s|
      ensures !OccursAt(pat, s, j)
    {
      if j < |b| {
        OccursAtByte(pat, s, j, 0);
      } else if j + |pat| <= |s| {
        assert g[j - |b|..j - |b| + |pat|] == s[j..j + |pat|];
        assert !OccursAt(pat, g, j - |b|);
      }
    }
  }

  lemma ParseSkipsGarbage(g: seq<byte>, msg: seq<byte>, t: seq<byte>)
    requires Garbage(g) && |msg| < SIZE_T_MODULUS
    ensures Parse(Ignore, g + (Frame(msg) + t)) == FrameResult(msg, t)
  {
    hide Parse, ParseAfterPrefix;
    FrameSplits(msg, t);
    ParseAtPrefix(g, AfterPrefix(msg, t));
    ParseAfterPrefixOfFrame(msg, t);
  }

  lemma ParseCloseMode(msg: seq<byte>, t: seq<byte>)
    requires |msg| < SIZE_T_MODULUS
    ensures Parse(Close, Frame(msg) + t) == FrameResult(msg, t)
  {
    var after := AfterPrefix(msg, t);
    FrameSplits(msg, t);
    assert (PREFIX + after)[|PREFIX|..] == after;
    ParseAfterPrefixOfFrame(msg, t);
  }

  /** What the gaps become once the first message is read: the blank line that an empty message
      leaves unread joins the next gap. */
  function NextGaps(gaps: seq<seq<byte>>, first: seq<byte>): (next: seq<seq<byte>>)
    requires |gaps| > 1
    ensures |next| == |gaps| - 1
  {
    if first == [] then [BLANK_LINE + gaps[1]] + gaps[2..] else gaps[1..]
  }

  lemma NextGapsStream(gaps: seq<seq<byte>>, msgs: seq<seq<byte>>)
    requires |gaps| == |msgs| + 1 && msgs != []
    ensures FrameResult(msgs[0], Stream(gaps[1..], msgs[1..])).rest
         == Stream(NextGaps(gaps, msgs[0]), msgs[1..])
  {
    var gaps' := NextGaps(gaps, msgs[0]);
    assert gaps'[1..] == gaps[1..][1..];
    if msgs[0] == [] && |msgs| > 1 {
      var t := Frame(msgs[1]) + Stream(gaps[1..][1..], msgs[1..][1..]);
      assert BLANK_LINE + (gaps[1] + t) == (BLANK_LINE + gaps[1]) + t;
    }
  }

  /** Bytes that hold no header prefix. */
  predicate Garbage(g: seq<byte>) {
    !Contains(PREFIX, g)
  }

  lemma NextGapsGarbage(gaps: seq<seq<byte>>, first: seq<byte>)
    requires |gaps| > 1
    requires forall i | 0 <= i < |gaps| - 1 :: Garbage(gaps[i])
    ensures var next := NextGaps(gaps, first); forall i | 0 <= i < |next| - 1 :: Garbage(next[i])
  {
    if |gaps| > 2 {
      LongerGarbage(PREFIX, BLANK_LINE, gaps[1]);
    }
  }

  lemma ResultsUnfold(mode: OnInvalidData, s: seq<byte>, n: nat)
    requires n > 0
    ensures var r := Parse(mode, s);
            Results(mode, s, n) == [r.msg] + if r.bad && mode == Close then [] else Results(mode, r.rest, n - 1)
  {}

  /** What is unread after the messages: an empty last one leaves its blank line. */
  function Leftover(msgs: seq<seq<byte>>, last: seq<byte>): seq<byte> {
    if msgs != [] && msgs[|msgs| - 1] == [] then BLANK_LINE + last else last
  }

  lemma NextGapsLeftover(gaps: seq<seq<byte>>, msgs: seq<seq<byte>>)
    requires |gaps| == |msgs| + 1 && msgs != []
    ensures Leftover(msgs[1..], NextGaps(gaps, msgs[0])[|msgs| - 1]) == Leftover(msgs, gaps[|msgs|])
  {
    var next := NextGaps(gaps, msgs[0]);
    if |msgs| > 1 {
      assert next[|msgs| - 1] == gaps[|msgs|];
      assert msgs[1..][|msgs| - 2] == msgs[|msgs| - 1];
    } else {
      assert msgs[1..] == [];
      assert next[0] == if msgs[0] == [] then BLANK_LINE + gaps[1] else gaps[1];
    }
  }

  lemma StreamUnfold(gaps: seq<seq<byte>>, msgs: seq<seq<byte>>)
    requires |gaps| == |msgs| + 1
    ensures Stream(gaps, msgs)
         == if msgs == [] then gaps[0] else gaps[0] + (Frame(msgs[0]) + Stream(gaps[1..], msgs[1..]))
  {}

  lemma EmptyLeftover(last: seq<byte>)
    ensures Leftover([], last) == last
  {}

  lemma FirstAndRest<T>(s: seq<T>, t: seq<T>)
    requires s != []
    ensures s + t == [s[0]] + (s[1..] + t)
  {}

  /** Resynchronisation: in ignore mode, frames separated by arbitrary garbage that does not
      contain the prefix are read back exactly, empty messages included, and the next k reads
      see only the bytes after the last frame, of which nothing is asked. */
  lemma {:induction false} Resynchronises(gaps: seq<seq<byte>>, msgs: seq<seq<byte>>, k: nat)
    requires |gaps| == |msgs| + 1 && Sized(msgs)
    requires forall i | 0 <= i < |msgs| :: Garbage(gaps[i])
    ensures Results(Ignore, Stream(gaps, msgs), |msgs| + k)
         == msgs + Results(Ignore, Leftover(msgs, gaps[|msgs|]), k)
    decreases |msgs|
  {
    hide Parse, Frame, Leftover, NextGaps, Results, Stream;
    StreamUnfold(gaps, msgs);
    if msgs == [] {
      assert Leftover(msgs, gaps[0]) == gaps[0] by { EmptyLeftover(gaps[0]); }
      assert msgs + Results(Ignore, gaps[0], k) == Results(Ignore, gaps[0], k);
    } else {
      ParseSkipsGarbage(gaps[0], msgs[0], Stream(gaps[1..], msgs[1..]));
      ResultsUnfold(Ignore, Stream(gaps, msgs), |msgs| + k);
      NextGapsStream(gaps, msgs);
      NextGapsGarbage(gaps, msgs[0]);
      NextGapsLeftover(gaps, msgs);
      Resynchronises(NextGaps(gaps, msgs[0]), msgs[1..], k);
      FirstAndRest(msgs, Results(Ignore, Leftover(msgs, gaps[|msgs|]), k));
    }
  }

  function NoGaps(n: nat, t: seq<byte>): (gaps: seq<seq<byte>>)
    ensures |gaps| == n + 1
  {
    if n == 0 then [t] else [[]] + NoGaps(n - 1, t)
  }

  lemma {:induction false} FramesAsStream(msgs: seq<seq<byte>>, t: seq<byte>)
    ensures Stream(NoGaps(|msgs|, t), msgs) == Frames(msgs) + t
    ensures NoGaps(|msgs|, t)[|msgs|] == t && forall i | 0 <= i < |msgs| :: NoGaps(|msgs|, t)[i] == []
  {
    if msgs != [] {
      FramesAsStream(msgs[1..], t);
    }
  }

  /** Round trip in ignore mode, whatever follows the printed frames. */
  lemma RoundTripIgnore(msgs: seq<seq<byte>>, t: seq<byte>, k: nat)
    requires Sized(msgs)
    ensures Results(Ignore, Frames(msgs) + t, |msgs| + k) == msgs + Results(Ignore, Leftover(msgs, t), k)
  {
    FramesAsStream(msgs, t);
    Resynchronises(NoGaps(|msgs|, t), msgs, k);
  }

  // ------------------------------------------------------- streams cut short

  lemma {:induction false} FramesAppend(msgs: seq<seq<byte>>, more: seq<seq<byte>>)
    ensures Frames(msgs + more) == Frames(msgs) + Frames(more)
  {
    hide Frame;
    if msgs == [] {
      assert msgs + more == more;
    } else {
      FramesAppend(msgs[1..], more);
      assert (msgs + more)[1..] == msgs[1..] + more;
      var first, rest := Frame(msgs[0]), Frames(msgs[1..]);
      assert first + (rest + Frames(more)) == (first + rest) + Frames(more);
    }
  }

  lemma FramesSnoc(msgs: seq<seq<byte>>, m: seq<byte>)
    ensures Frames(msgs + [m]) == Frames(msgs) + Frame(m)
  {
    FramesAppend(msgs, [m]);
    assert [m][1..] == [];
    assert Frames([m]) == Frame(m) + Frames([]);
  }

  /** Every prefix of printed frames is some whole frames and a proper part of the next. */
  lemma {:induction false} CutFrames(msgs: seq<seq<byte>>, s: seq<byte>) returns (k: nat, p: seq<byte>)
    requires s <= Frames(msgs)
    ensures k <= |msgs| && s == Frames(msgs[..k]) + p
    ensures if k == |msgs| then p == [] else p < Frame(msgs[k])
  {
    hide Frame;
    if msgs == [] {
      return 0, [];
    }
    var n := |Frame(msgs[0])|;
    if |s| < n {
      assert s == Frames(msgs)[..|s|] == Frame(msgs[0])[..|s|];
      assert msgs[..0] == [];
      return 0, s;
    }
    assert s[..n] == Frames(msgs)[..n] == Frame(msgs[0]);
    assert s[n..] <= Frames(msgs)[n..] == Frames(msgs[1..]);
    k, p := CutFrames(msgs[1..], s[n..]);
    k := k + 1;
    assert msgs[..k][1..] == msgs[1..][..k - 1];
  }

  /** Garbage followed by a proper part of the pattern holds no occurrence. */
  lemma NotYetFound(pat: seq<byte>, g: seq<byte>, p: seq<byte>)
    requires Borderless(pat) && !Contains(pat, g) && p < pat
    ensures !Contains(pat, g + p)
  {
    var s := g + p;
    forall j: nat | j <= |s|
      ensures !OccursAt(pat, s, j)
    {
      if j + |pat| <= |g| {
        assert g[j..j + |pat|] == s[j..j + |pat|];
        assert !OccursAt(pat, g, j);
      } else if p != [] && j < |g| {
        OccursAtByte(pat, s, j, |g| - j);
        assert s[|g|] == p[0] == pat[0];
      }
    }
  }

  lemma CutInLength(ds: seq<byte>)
    requires forall i | 0 <= i < |ds| :: IsDigit(ds[i])
    ensures ParseAfterPrefix([32] + ds).msg == []
  {
    RunLengthIs(IsSpace, [32], ds);
    RunLengthIs(IsDigit, ds, []);
    assert ds + [] == ds && ([32] + ds)[1..] == ds;
  }

  lemma CutAfterLength(msg: seq<byte>, cut: seq<byte>)
    requires |msg| < SIZE_T_MODULUS && cut != [] && cut < BLANK_LINE + msg
    ensures ParseAfterPrefix([32] + (Decimal(|msg|) + cut)).msg == []
  {
    var ds := Decimal(|msg|);
    hide ParseAfterPrefix, LengthOf, Decimal;
    ParseLength(ds, cut);
    DecimalLength(|msg|);
    assert BLANK_LINE <= cut ==> |cut[|BLANK_LINE|..]| < |msg|;
  }

  /** A header cut short after its prefix, or a body cut short, gives no message. */
  lemma CutAfterPrefix(msg: seq<byte>, q: seq<byte>)
    requires |msg| < SIZE_T_MODULUS && q < AfterPrefix(msg, [])
    ensures ParseAfterPrefix(q).msg == []
  {
    hide ParseAfterPrefix;
    var ds := Decimal(|msg|);
    var tail := BLANK_LINE + msg;
    assert msg + [] == msg;
    assert q == AfterPrefix(msg, [])[..|q|];
    if q == [] {
      CutBeforeLength();
    } else if |q| <= 1 + |ds| {
      assert q == [32] + ds[..|q| - 1];
      CutInLength(ds[..|q| - 1]);
    } else {
      var cut := tail[..|q| - 1 - |ds|];
      assert q == [32] + (ds + cut);
      CutAfterLength(msg, cut);
    }
  }

  lemma CutBeforeLength()
    ensures ParseAfterPrefix([]).msg == []
  {}

  lemma ParseAtPrefix(g: seq<byte>, q: seq<byte>)
    requires Garbage(g)
    ensures Parse(Ignore, g + (PREFIX + q)) == ParseAfterPrefix(q)
  {
    hide ParseAfterPrefix;
    FindAfterGarbage(PREFIX, g, q);
    assert (g + (PREFIX + q))[|g| + |PREFIX|..] == q;
  }

  lemma CutFrame(g: seq<byte>, msg: seq<byte>, p: seq<byte>)
    requires Garbage(g) && |msg| < SIZE_T_MODULUS && p < Frame(msg)
    ensures Parse(Ignore, g + p).msg == []
  {
    hide Parse, ParseAfterPrefix, Frame, AfterPrefix, Contains;
    FrameSplits(msg, []);
    assert Frame(msg) + [] == Frame(msg);
    var all := AfterPrefix(msg, []);
    assert p == (PREFIX + all)[..|p|];
    if |p| < |PREFIX| {
      assert p == PREFIX[..|p|];
      NotYetFound(PREFIX, g, p);
      NothingLeft(g + p);
    } else {
      var q := all[..|p| - |PREFIX|];
      assert p == PREFIX + q;
      ParseAtPrefix(g, q);
      CutAfterPrefix(msg, q);
    }
  }

  lemma NothingLeft(g: seq<byte>)
    requires Garbage(g)
    ensures Parse(Ignore, g).msg == []
  {
    var i := Find(PREFIX, g, 0);
    assert i >= 0 ==> OccursAt(PREFIX, g, i);
  }

  lemma LeftoverGarbage(msgs: seq<seq<byte>>)
    ensures Garbage(Leftover(msgs, []))
  {
    LongerGarbage(PREFIX, BLANK_LINE, []);
  }

  /** Wherever a stream of printed frames is cut short, reading gives the messages that are whole
      and then nothing: a partial header or body never passes for a message. */
  lemma CutStream(msgs: seq<seq<byte>>, s: seq<byte>) returns (k: nat)
    requires Sized(msgs) && s <= Frames(msgs)
    ensures k <= |msgs| && Frames(msgs[..k]) <= s && (k < |msgs| ==> !(Frames(msgs[..k + 1]) <= s))
    ensures Results(Ignore, s, k + 1) == msgs[..k] + [[]]
  {
    hide Parse, Frame;
    var p: seq<byte>;
    k, p := CutFrames(msgs, s);
    var left := Leftover(msgs[..k], []);
    RoundTripIgnore(msgs[..k], p, 1);
    LeftoverGarbage(msgs[..k]);
    assert Leftover(msgs[..k], p) == left + p;
    if k < |msgs| {
      CutFrame(left, msgs[k], p);
      FramesSnoc(msgs[..k], msgs[k]);
      assert msgs[..k + 1] == msgs[..k] + [msgs[k]];
    } else {
      assert left + p == left;
      NothingLeft(left);
    }
    ResultsUnfold(Ignore, left + p, 1);
  }

  /** Where close mode reads a sequence back: an empty message leaves its blank line unread, which
      makes the next header bad, so it may only be followed by one last empty message. */
  predicate CloseModeReadable(msgs: seq<seq<byte>>) {
    forall i | 0 <= i < |msgs| - 1 && msgs[i] == [] :: i + 2 == |msgs| && msgs[i + 1] == []
  }

  lemma CloseModeReadableTail(msgs: seq<seq<byte>>)
    requires msgs != [] && msgs[0] != []
    ensures CloseModeReadable(msgs) <==> CloseModeReadable(msgs[1..])
  {
    var tail := msgs[1..];
    assert forall i | 0 <= i < |tail| :: tail[i] == msgs[i + 1];
    assert forall i | 0 < i < |msgs| :: msgs[i] == tail[i - 1];
  }

  lemma BlankLineIsBad(t: seq<byte>)
    ensures Parse(Close, BLANK_LINE + t) == ReadResult([], BLANK_LINE + t, true)
  {
    assert (BLANK_LINE + t)[0] != PREFIX[0];
  }

  /** Round trip in close mode, and exactly when it holds. */
  lemma {:induction false} RoundTripCloseIff(msgs: seq<seq<byte>>)
    requires Sized(msgs)
    ensures Results(Close, Frames(msgs), |msgs|) == msgs <==> CloseModeReadable(msgs)
  {
    hide Parse;
    if msgs != [] {
      var t := Frames(msgs[1..]);
      ParseCloseMode(msgs[0], t);
      ResultsUnfold(Close, Frames(msgs), |msgs|);
      assert msgs == [msgs[0]] + msgs[1..];
      if msgs[0] == [] {
        BlankLineIsBad(t);
        if |msgs| > 1 {
          ResultsUnfold(Close, BLANK_LINE + t, |msgs| - 1);
        }
      } else {
        RoundTripCloseIff(msgs[1..]);
        CloseModeReadableTail(msgs);
      }
    }
  }

  // ------------------------------------------------------------ more reads

  lemma {:induction false} FewerResults(s: seq<byte>, m: nat, n: nat)
    requires m <= n
    ensures |Results(Ignore, s, n)| == n && Results(Ignore, s, m) == Results(Ignore, s, n)[..m]
    decreases n
  {
    hide Parse;
    if m > 0 {
      ResultsUnfold(Ignore, s, m);
      ResultsUnfold(Ignore, s, n);
      FewerResults(Parse(Ignore, s).rest, m - 1, n - 1);
    } else if n > 0 {
      ResultsUnfold(Ignore, s, n);
      FewerResults(Parse(Ignore, s).rest, 0, n - 1);
    }
  }

  lemma FewerFrames(msgs: seq<seq<byte>>, i: nat, j: nat)
    requires i <= j <= |msgs|
    ensures Frames(msgs[..i]) <= Frames(msgs[..j])
  {
    hide Frames;
    FramesAppend(msgs[..i], msgs[i..j]);
    assert msgs[..j] == msgs[..i] + msgs[i..j];
  }

  // --------------------------------------------- every header, well-formed or not

  /** What is left to do once the length has been read. */
  lemma ParseFromLength(s: seq<byte>, t: seq<byte>, len: nat, rest: seq<byte>)
    requires t == s[AfterRun(IsSpace, s)..]
    requires len == LengthOf(t[..RunLength(IsDigit, t)]) && rest == t[AfterRun(IsDigit, t)..]
    ensures ParseAfterPrefix(s) == if len == 0 then ReadResult([], rest, false) else ParseContent(len, rest)
  {
    hide RunLength, AfterRun, LengthOf;
  }

  /** What follows a header prefix, taken apart: blanks, length digits, either of them perhaps
      followed by one NUL that is swallowed, and the rest. */
  datatype AfterHeader = AfterHeader(blanks: seq<byte>, nul: bool, digits: seq<byte>, nul2: bool, tail: seq<byte>)

  function Nul(present: bool): seq<byte> { if present then [0] else [] }

  function Bytes(h: AfterHeader): seq<byte> {
    h.blanks + (Nul(h.nul) + (h.digits + (Nul(h.nul2) + h.tail)))
  }

  /** Each part is as long as it can be. */
  predicate Maximal(h: AfterHeader) {
    && (forall i | 0 <= i < |h.blanks| :: IsSpace(h.blanks[i]))
    && (forall i | 0 <= i < |h.digits| :: IsDigit(h.digits[i]))
    && var afterBlanks := h.digits + (Nul(h.nul2) + h.tail);
    && (!h.nul && afterBlanks != [] ==> !IsSpace(afterBlanks[0]) && afterBlanks[0] != 0)
    && (!h.nul2 && h.tail != [] ==> !IsDigit(h.tail[0]) && h.tail[0] != 0)
  }

  /** What a header, followed by whatever, is read as. */
  function HeaderResult(h: AfterHeader): ReadResult
    requires Maximal(h)
  {
    var len := DigitsValue(h.digits) % SIZE_T_MODULUS;
    if len == 0 then ReadResult([], h.tail, false) else ContentResult(len, h.tail)
  }

  /** A blank line and as many bytes as the length says. */
  function ContentResult(len: nat, tail: seq<byte>): ReadResult {
    if |tail| < 4 || tail[..4] != [13, 10, 13, 10] then ReadResult([], tail, true)
    else if |tail| < 4 + len then ReadResult([], tail[4..], false)
    else ReadResult(tail[4..4 + len], tail[4 + len..], false)
  }

  /** Where a run ends, and what a NUL after it does. */
  lemma RunThen(p: byte -> bool, run: seq<byte>, nul: bool, rest: seq<byte>)
    requires !p(0) && forall i | 0 <= i < |run| :: p(run[i])
    requires !nul && rest != [] ==> !p(rest[0]) && rest[0] != 0
    ensures var s := run + (Nul(nul) + rest);
            && RunLength(p, s) == |run| && s[..|run|] == run && s[AfterRun(p, s)..] == rest
  {
    var t := Nul(nul) + rest;
    var s := run + t;
    RunLengthIs(p, run, t);
    assert nul ==> s[|run|] == 0 && s[|run| + 1..] == rest;
    assert !nul ==> t == rest && s[|run|..] == rest;
    assert !nul && rest != [] ==> s[|run|] == rest[0];
  }

  lemma ContentIs(len: nat, tail: seq<byte>)
    ensures ParseContent(len, tail) == ContentResult(len, tail)
  {
    assert BLANK_LINE <= tail <==> |tail| >= 4 && tail[..4] == [13, 10, 13, 10];
    if BLANK_LINE <= tail && |tail| >= 4 + len {
      assert tail[4..][..len] == tail[4..4 + len] && tail[4..][len..] == tail[4 + len..];
    }
  }

  /** Every header is read as its parts say, whatever they are. */
  lemma HeaderIsReadAs(h: AfterHeader)
    requires Maximal(h)
    ensures ParseAfterPrefix(Bytes(h)) == HeaderResult(h)
  {
    hide RunLength, AfterRun, DigitsValue, ParseAfterPrefix, ParseContent, ContentResult;
    var t := h.digits + (Nul(h.nul2) + h.tail);
    RunThen(IsSpace, h.blanks, h.nul, t);
    RunThen(IsDigit, h.digits, h.nul2, h.tail);
    var len := LengthOf(h.digits);
    ParseFromLength(Bytes(h), t, len, h.tail);
    ContentIs(len, h.tail);
  }

  /** One run, the NUL after it if there is one, and the rest. */
  lemma SplitRun(p: byte -> bool, s: seq<byte>) returns (run: seq<byte>, nul: bool, rest: seq<byte>)
    requires !p(0)
    ensures s == run + (Nul(nul) + rest) && forall i | 0 <= i < |run| :: p(run[i])
    ensures !nul && rest != [] ==> !p(rest[0]) && rest[0] != 0
  {
    var k := RunLength(p, s);
    run := s[..k];
    nul := k < |s| && s[k] == 0;
    rest := if nul then s[k + 1..] else s[k..];
    assert nul ==> s[k..] == [0] + rest;
  }

  /** Every byte string can be taken apart so. */
  lemma TakeApart(s: seq<byte>) returns (h: AfterHeader)
    ensures Maximal(h) && Bytes(h) == s
  {
    hide RunLength;
    var blanks, nul, t := SplitRun(IsSpace, s);
    var digits, nul2, tail := SplitRun(IsDigit, t);
    h := AfterHeader(blanks, nul, digits, nul2, tail);
  }

  /** A header with a length that no blank line follows. */
  ghost predicate Broken(s: seq<byte>) {
    exists h :: Maximal(h) && s == PREFIX + Bytes(h) && HeaderResult(h).bad
  }

  /** In close mode the reader is closed exactly by bytes that do not begin with the prefix, or that
      have a non-zero length without a blank line after it. */
  lemma CloseModeClosesIff(s: seq<byte>)
    ensures Parse(Close, s).bad <==> !(PREFIX <= s) || Broken(s)
  {
    hide ParseAfterPrefix, HeaderResult;
    if PREFIX <= s {
      var h := TakeApart(s[|PREFIX|..]);
      assert s == PREFIX + Bytes(h);
      HeaderIsReadAs(h);
      if Broken(s) {
        var g :| Maximal(g) && s == PREFIX + Bytes(g) && HeaderResult(g).bad;
        HeaderIsReadAs(g);
        assert s[|PREFIX|..] == Bytes(g);
      }
    }
  }

  /** The bytes of the header, as text. */
  lemma HeaderText(n: nat)
    ensures |PREFIX| == |"Content-Length:"| && forall i | 0 <= i < |PREFIX| :: PREFIX[i] == "Content-Length:"[i] as int
    ensures Header(n) == PREFIX + [' ' as int] + Decimal(n) + ['\r' as int, '\n' as int, '\r' as int, '\n' as int]
    ensures |Decimal(n)| == 1 || Decimal(n)[0] != '0' as int
  {
    NoLeadingZero(n);
  }

  lemma {:induction false} NoLeadingZero(n: nat)
    ensures n > 0 ==> Decimal(n)[0] != 48
    ensures n < 10 <==> |Decimal(n)| == 1
  {
    if n >= 10 {
      NoLeadingZero(n / 10);
    }
  }

  /** The length is a `size_t`: a longer number wraps. */
  lemma LengthWraps(n: nat)
    ensures LengthOf(Decimal(n)) == n % 0x1_0000_0000_0000_0000
  {
    hide Decimal, DigitsValue;
    DecimalValue(n);
  }

  lemma {:induction false} FindFrom(pat: seq<byte>, s: seq<byte>, i: nat)
    requires i <= |s|
    ensures Find(pat, s, i) == if Find(pat, s[i..], 0) < 0 then -1 else i + Find(pat, s[i..], 0)
  {
    var r, q := Find(pat, s, i), Find(pat, s[i..], 0);
    forall j: nat | i <= j
      ensures OccursAt(pat, s, j) <==> OccursAt(pat, s[i..], j - i)
    {
      if j + |pat| <= |s| {
        assert s[j..j + |pat|] == s[i..][j - i..j - i + |pat|];
      }
    }
    if r >= 0 {
      assert OccursAt(pat, s[i..], r - i);
      assert q >= 0;
    }
    if q >= 0 {
      assert OccursAt(pat, s, q + i);
    }
  }

  /** How much of s a scan for pat drops when it runs out of bytes. */
  function Dropped(pat: seq<byte>, s: seq<byte>): (i: nat)
    requires pat != []
    ensures i <= |s|
  {
    if |s| < |pat| then 0 else |s| - |pat| + 1
  }

  lemma FoundLater(pat: seq<byte>, s: seq<byte>, t: seq<byte>)
    requires pat != [] && !Contains(pat, s) && Contains(pat, s + t)
    ensures Find(pat, s + t, 0) >= Dropped(pat, s)
  {
    Found(pat, s + t);
    forall j: nat | j + |pat| <= |s|
      ensures !OccursAt(pat, s + t, j)
    {
      OccursInFirst(pat, s, t, j);
    }
  }

  /** A scan that ran out of bytes has dropped nothing that a header could begin with: with more
      bytes, reading goes on as if it had never stopped. */
  lemma ScanLosesNothing(s: seq<byte>, t: seq<byte>)
    requires Garbage(s) && Contains(PREFIX, s + t)
    ensures Parse(Ignore, s).msg == [] && Parse(Ignore, Parse(Ignore, s).rest + t) == Parse(Ignore, s + t)
  {
    hide ParseAfterPrefix, Find, Contains;
    var all, i := s + t, Dropped(PREFIX, s);
    NotFound(PREFIX, s);
    FoundLater(PREFIX, s, t);
    FindSkips(PREFIX, all, i);
    FindFrom(PREFIX, all, i);
    assert s[i..] + t == all[i..];
    var r := Find(PREFIX, all, 0);
    SuffixOfSuffix(all, i, r - i + |PREFIX|);
  }

  lemma SuffixOfSuffix(s: seq<byte>, i: nat, k: nat)
    requires i + k <= |s|
    ensures s[i..][k..] == s[i + k..]
  {}

  lemma OccursInFirst(pat: seq<byte>, s: seq<byte>, t: seq<byte>, j: nat)
    requires j + |pat| <= |s|
    ensures OccursAt(pat, s, j) <==> OccursAt(pat, s + t, j)
  {
    assert s[j..j + |pat|] == (s + t)[j..j + |pat|];
  }

  lemma NotFound(pat: seq<byte>, s: seq<byte>)
    requires !Contains(pat, s)
    ensures Find(pat, s, 0) < 0
  {
    var r := Find(pat, s, 0);
    assert r >= 0 ==> OccursAt(pat, s, r);
  }

  lemma Found(pat: seq<byte>, s: seq<byte>)
    requires Contains(pat, s)
    ensures Find(pat, s, 0) >= 0
  {
    var i: nat :| i <= |s| && OccursAt(pat, s, i);
  }

  lemma FindSkips(pat: seq<byte>, s: seq<byte>, i: nat)
    requires Find(pat, s, 0) >= i
    ensures Find(pat, s, i) == Find(pat, s, 0)
  {
    var r, q := Find(pat, s, 0), Find(pat, s, i);
    assert OccursAt(pat, s, r);
    assert q >= 0 ==> OccursAt(pat, s, q);
  }

  /** In ignore mode a broken header costs one read and nothing else: the frames after it are read
      back exactly. */
  lemma BrokenHeaderIsSkipped(h: AfterHeader, garbage: seq<byte>, msgs: seq<seq<byte>>)
    requires Maximal(h) && HeaderResult(h).bad && h.tail == garbage + Frames(msgs)
    requires Garbage(garbage) && Sized(msgs)
    ensures Results(Ignore, PREFIX + Bytes(h), |msgs| + 1) == [[]] + msgs
  {
    hide Parse, ParseAfterPrefix, Frames, Results, Maximal, Bytes, HeaderResult, Contains;
    HeaderIsReadAs(h);
    EmptyIsGarbage();
    var s := PREFIX + Bytes(h);
    assert [] + s == s;
    ParseAtPrefix([], Bytes(h));
    ResultsUnfold(Ignore, s, |msgs| + 1);
    BadKeepsTail(h);
    GarbageThenFramesRead(garbage, msgs);
  }

  lemma ReadBackAll(gaps: seq<seq<byte>>, msgs: seq<seq<byte>>, s: seq<byte>)
    requires |gaps| == |msgs| + 1 && Sized(msgs) && forall i | 0 <= i < |msgs| :: Garbage(gaps[i])
    requires s == Stream(gaps, msgs)
    ensures Results(Ignore, s, |msgs|) == msgs
  {
    hide Results, Stream, Leftover, Garbage, Sized;
    Resynchronises(gaps, msgs, 0);
    NoReads(Leftover(msgs, gaps[|msgs|]));
    assert |msgs| + 0 == |msgs| && msgs + [] == msgs;
  }

  lemma GarbageThenFramesRead(garbage: seq<byte>, msgs: seq<seq<byte>>)
    requires Garbage(garbage) && Sized(msgs)
    ensures Results(Ignore, garbage + Frames(msgs), |msgs|) == msgs
  {
    hide Frames, Results, Garbage, Stream, Sized;
    if msgs == [] {
      NoReads(garbage + Frames(msgs));
    } else {
      var gaps := GarbageThenFrames(garbage, msgs);
      ReadBackAll(gaps, msgs, garbage + Frames(msgs));
    }
  }

  lemma NoReads(s: seq<byte>)
    ensures Results(Ignore, s, 0) == []
  {}

  lemma BadKeepsTail(h: AfterHeader)
    requires Maximal(h) && HeaderResult(h).bad
    ensures HeaderResult(h) == ReadResult([], h.tail, true)
  {
    hide DigitsValue;
  }

  lemma GarbageThenFrames(garbage: seq<byte>, msgs: seq<seq<byte>>) returns (gaps: seq<seq<byte>>)
    requires Garbage(garbage) && msgs != []
    ensures |gaps| == |msgs| + 1 && Stream(gaps, msgs) == garbage + Frames(msgs)
    ensures forall i | 0 <= i < |msgs| :: Garbage(gaps[i])
  {
    hide Frame, Contains;
    gaps := [garbage] + NoGaps(|msgs| - 1, []);
    FramesAsStream(msgs[1..], []);
    assert gaps[1..] == NoGaps(|msgs| - 1, []);
    assert Frames(msgs[1..]) + [] == Frames(msgs[1..]);
    EmptyIsGarbage();
  }

  lemma EmptyIsGarbage()
    ensures Garbage([])
  {}
}
