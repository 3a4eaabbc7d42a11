/**
 * The chunked transfer coding as a machine that eats one octet at a time.
 *
 * `ChunkedInputStream` parses in batches out of a raw buffer and restarts when a batch ends in
 * the middle of a token.  The machine below has no batches: `Run` is a left fold of `Feed`.
 * It is the reference that the imperative parser is proved against.
 */
module ChunkMachine {
  import opened Bytes

  datatype Phase = AwaitingHeader | ReadingChunk | AwaitingEol | AwaitingTrailers | Done

  datatype Fault = BogusChunkSize | MissingCR | MissingLF | LineWithoutCR | MalformedTrailer

  /**
   * `pending` holds the octets that were received but belong to a token that is not complete yet
   * (or is malformed, or come after the end); `payload` is everything decoded so far.
   */
  datatype Machine = Machine(
    phase: Phase,
    chunkSize: nat,
    chunkRead: nat,
    pending: seq<byte>,
    payload: seq<byte>,
    trailers: map<string, string>,
    fault: Option<Fault>)

  const INIT := Machine(AwaitingHeader, 0, 0, [], [], map[], None)

  // ---------------------------------------------------------------- tokens

  /** `Character.digit(c, 16)` on octets decoded as US-ASCII. */
  function HexDigit(b: byte): (r: int)
    ensures -1 <= r < 16
  {
    if 48 <= b <= 57 then b - 48
    else if 97 <= b <= 102 then b - 87
    else if 65 <= b <= 70 then b - 55
    else -1
  }

  predicate AllHex(s: seq<byte>) {
    forall i :: 0 <= i < |s| ==> HexDigit(s[i]) != -1
  }

  /** The number written by hexadecimal digits, most significant first. */
  function HexValue(digits: seq<byte>): nat
    requires AllHex(digits)
  {
    if digits == [] then 0
    else 16 * HexValue(digits[..|digits| - 1]) + HexDigit(digits[|digits| - 1])
  }

  const MAX_INT: nat := 0x7fff_ffff

  /** `Integer.parseInt(s, 16)` on a string of hexadecimal digits; None is NumberFormatException. */
  function ParseSize(digits: seq<byte>): Option<nat>
    requires AllHex(digits)
  {
    if digits == [] || HexValue(digits) > MAX_INT then None else Some(HexValue(digits))
  }

  /** The first index of `b` in `s`, or |s| when it does not occur. */
  function IndexOf(s: seq<byte>, b: byte): (i: nat)
    ensures i <= |s|
    ensures i < |s| ==> s[i] == b
    ensures b !in s[..i]
  {
    if s == [] || s[0] == b then 0
    else
      var j := IndexOf(s[1..], b);
      assert s[..1 + j] == [s[0]] + s[1..][..j];
      1 + j
  }

  /** How many hexadecimal digits open a line. */
  function HexCount(line: seq<byte>): (n: nat)
    ensures n <= |line| && AllHex(line[..n])
    ensures n < |line| ==> HexDigit(line[n]) == -1
  {
    if line == [] || HexDigit(line[0]) == -1 then 0
    else
      var n := HexCount(line[1..]);
      assert line[..1 + n] == [line[0]] + line[1..][..n];
      1 + n
  }

  /** The chunk size a header line announces, whatever stands after the digits. */
  function HeaderSize(line: seq<byte>): Option<nat> {
    ParseSize(line[..HexCount(line)])
  }

  /** What is wrong with a trailer line that lacks only its line feed. */
  function TrailerFault(line: seq<byte>): Option<Fault> {
    if line == [] || line[|line| - 1] != CR then Some(LineWithoutCR)
    else if |line| > 1 && COLON !in line then Some(MalformedTrailer)
    else None
  }

  /** Octets as a US-ASCII string; octets above 127 decode to the replacement character. */
  function Ascii(s: seq<byte>): string {
    seq(|s|, i requires 0 <= i < |s| => if s[i] < 128 then s[i] as char else '\U{FFFD}')
  }

  /** `String.trim`: drops characters up to the space from both ends. */
  function TrimLeft(s: string): string {
    if s != [] && s[0] <= ' ' then TrimLeft(s[1..]) else s
  }

  function TrimRight(s: string): string {
    if s != [] && s[|s| - 1] <= ' ' then TrimRight(s[..|s| - 1]) else s
  }

  function Trim(s: string): string {
    TrimRight(TrimLeft(s))
  }

  /** Stores the trailer written on `line` (which has a colon), the last one of a name winning. */
  function PutTrailer(trailers: map<string, string>, line: seq<byte>): map<string, string>
    requires COLON in line
  {
    var i := IndexOf(line, COLON);
    trailers[Trim(Ascii(line[..i])) := Trim(Ascii(line[i + 1..]))]
  }

  // ---------------------------------------------------------------- the machine

  predicate Stuck(m: Machine) {
    m.fault.Some? || m.phase.Done?
  }

  /** A whole header line, line feed included, is pending. */
  function EndHeader(m: Machine): Machine {
    match HeaderSize(m.pending)
    case None => m.(fault := Some(BogusChunkSize))
    case Some(n) =>
      m.(phase := if n > 0 then ReadingChunk else AwaitingTrailers,
         chunkSize := n, chunkRead := 0, pending := [])
  }

  /** Two octets are pending after the chunk data. */
  function EndEol(m: Machine): Machine
    requires |m.pending| >= 2
  {
    if m.pending[0] != CR then m.(fault := Some(MissingCR))
    else if m.pending[1] != LF then m.(fault := Some(MissingLF))
    else m.(phase := AwaitingHeader, pending := [])
  }

  /** A whole trailer line, line feed included, is pending. */
  function EndTrailer(m: Machine): Machine
    requires |m.pending| >= 1
  {
    var line := m.pending[..|m.pending| - 1];
    if TrailerFault(line).Some? then m.(fault := TrailerFault(line))
    else if |line| == 1 then m.(phase := Done)
    else m.(trailers := PutTrailer(m.trailers, line), pending := [])
  }

  /** Receives one octet of chunk data. */
  function TakeData(m: Machine, b: byte): Machine {
    m.(payload := m.payload + [b],
       chunkRead := m.chunkRead + 1,
       phase := if m.chunkRead + 1 >= m.chunkSize then AwaitingEol else ReadingChunk)
  }

  function Feed(m: Machine, b: byte): Machine {
    var held := m.(pending := m.pending + [b]);
    if Stuck(m) then held
    else match m.phase
      case AwaitingHeader => if b == LF then EndHeader(held) else held
      case ReadingChunk => TakeData(m, b)
      case AwaitingEol => if |m.pending| >= 1 then EndEol(held) else held
      case AwaitingTrailers => if b == LF then EndTrailer(held) else held
      case Done => held
  }

  function Run(m: Machine, s: seq<byte>): Machine
    decreases |s|
  {
    if s == [] then m else Run(Feed(m, s[0]), s[1..])
  }

  /** The machine with nothing pending: where a batch of raw octets is parsed from. */
  function Blank(m: Machine): Machine {
    m.(pending := [], fault := None)
  }

  /** The shape of a machine between octets. */
  ghost predicate Shaped(m: Machine) {
    && (m.phase.ReadingChunk? ==> m.pending == [] && m.fault.None? && m.chunkRead < m.chunkSize)
    && m.chunkRead <= m.chunkSize
    && (m.phase.AwaitingEol? && m.fault.None? ==> |m.pending| <= 1)
    && (m.phase.AwaitingHeader? && m.fault.None? ==> LF !in m.pending)
    && (m.phase.AwaitingTrailers? && m.fault.None? ==> LF !in m.pending)
    && (m.phase.Done? ==> m.fault.None?)
  }

  /**
   * What holds of every machine between octets: its shape, and that the pending octets alone
   * determine how far the current token has got.
   */
  ghost predicate Coherent(m: Machine) {
    Shaped(m) && m == Run(Blank(m), m.pending)
  }

  // ---------------------------------------------------------------- batches

  /** Batch independence of the reference: a batch may be cut anywhere. */
  lemma {:induction false} RunConcat(m: Machine, a: seq<byte>, b: seq<byte>)
    ensures Run(m, a + b) == Run(Run(m, a), b)
    decreases |a|
  {
    if a == [] {
      assert a + b == b;
    } else {
      assert (a + b)[1..] == a[1..] + b;
      RunConcat(Feed(m, a[0]), a[1..], b);
    }
  }

  lemma {:induction false} RunOne(m: Machine, b: byte)
    ensures Run(m, [b]) == Feed(m, b)
  {
    assert Run(m, [b]) == Run(Feed(m, b), []);
  }

  /** What one octet does: it completes a token and clears the pending ones, or it is added to them. */
  ghost predicate KeepsOrClears(m: Machine, b: byte, m': Machine) {
    || (m'.pending == [] && m'.fault.None?)
    || (m'.pending == m.pending + [b] && m'.payload == m.payload && (m'.phase.Done? || Blank(m') == Blank(m)))
  }

  lemma EndHeaderShaped(m: Machine, b: byte)
    requires Shaped(m) && m.phase.AwaitingHeader? && m.fault.None?
    ensures var m' := EndHeader(m.(pending := m.pending + [b])); Shaped(m') && KeepsOrClears(m, b, m')
  {
  }

  lemma EndEolShaped(m: Machine, b: byte)
    requires Shaped(m) && m.phase.AwaitingEol? && m.fault.None? && |m.pending| == 1
    ensures var m' := EndEol(m.(pending := m.pending + [b])); Shaped(m') && KeepsOrClears(m, b, m')
  {
  }

  lemma EndTrailerShaped(m: Machine, b: byte)
    requires Shaped(m) && m.phase.AwaitingTrailers? && m.fault.None?
    ensures var m' := EndTrailer(m.(pending := m.pending + [b])); Shaped(m') && KeepsOrClears(m, b, m')
  {
  }

  lemma TakeDataShaped(m: Machine, b: byte)
    requires Shaped(m) && m.phase.ReadingChunk?
    ensures Shaped(TakeData(m, b)) && KeepsOrClears(m, b, TakeData(m, b))
  {
  }

  lemma HeldShaped(m: Machine, b: byte)
    requires Shaped(m) && !m.phase.ReadingChunk?
    requires Stuck(m) || b != LF || (m.phase.AwaitingEol? && m.pending == [])
    requires m.phase.AwaitingEol? && m.fault.None? ==> m.pending == []
    ensures var m' := m.(pending := m.pending + [b]); Shaped(m') && KeepsOrClears(m, b, m')
  {
  }

  /** An octet either completes a token, leaving nothing pending, or is added to the pending ones. */
  lemma FeedShaped(m: Machine, b: byte)
    requires Shaped(m)
    ensures Shaped(Feed(m, b)) && KeepsOrClears(m, b, Feed(m, b))
  {
    if Stuck(m) {
      HeldShaped(m, b);
    } else {
      match m.phase {
        case AwaitingHeader => if b == LF { EndHeaderShaped(m, b); } else { HeldShaped(m, b); }
        case ReadingChunk => TakeDataShaped(m, b);
        case AwaitingEol => if |m.pending| >= 1 { EndEolShaped(m, b); } else { HeldShaped(m, b); }
        case AwaitingTrailers => if b == LF { EndTrailerShaped(m, b); } else { HeldShaped(m, b); }
      }
    }
  }

  lemma FeedCoherent(m: Machine, b: byte)
    requires Coherent(m)
    ensures Coherent(Feed(m, b))
  {
    var m' := Feed(m, b);
    FeedShaped(m, b);
    if m'.pending == [] {
      assert Run(Blank(m'), []) == m';
    } else if m'.phase.Done? {
      RunStuck(Blank(m'), m'.pending);
      assert [] + m'.pending == m'.pending;
    } else {
      RunConcat(Blank(m), m.pending, [b]);
      RunOne(m, b);
    }
  }

  lemma {:induction false} RunCoherent(m: Machine, s: seq<byte>)
    requires Coherent(m)
    ensures Coherent(Run(m, s))
    decreases |s|
  {
    if s != [] {
      FeedCoherent(m, s[0]);
      RunCoherent(Feed(m, s[0]), s[1..]);
    }
  }

  /** A machine that is done or has met a framing error only collects octets. */
  lemma {:induction false} RunStuck(m: Machine, s: seq<byte>)
    requires Stuck(m)
    ensures Run(m, s) == m.(pending := m.pending + s)
    decreases |s|
  {
    if s == [] {
      assert m.pending + s == m.pending;
    } else {
      RunStuck(Feed(m, s[0]), s[1..]);
      assert m.pending + [s[0]] + s[1..] == m.pending + s;
    }
  }

  /** Octets that do not complete a line are kept. */
  lemma {:induction false} RunPartialLine(m: Machine, s: seq<byte>)
    requires !Stuck(m) && (m.phase.AwaitingHeader? || m.phase.AwaitingTrailers?)
    requires LF !in s
    ensures Run(m, s) == m.(pending := m.pending + s)
    decreases |s|
  {
    if s == [] {
      assert m.pending + s == m.pending;
    } else {
      RunPartialLine(Feed(m, s[0]), s[1..]);
      assert m.pending + [s[0]] + s[1..] == m.pending + s;
    }
  }

  /** A whole line, ended by its first line feed. */
  lemma {:induction false} RunLine(m: Machine, line: seq<byte>)
    requires !Stuck(m) && m.pending == [] && LF !in line
    ensures m.phase.AwaitingHeader? ==> Run(m, line + [LF]) == EndHeader(m.(pending := line + [LF]))
    ensures m.phase.AwaitingTrailers? ==> Run(m, line + [LF]) == EndTrailer(m.(pending := line + [LF]))
  {
    if m.phase.AwaitingHeader? || m.phase.AwaitingTrailers? {
      RunConcat(m, line, [LF]);
      RunPartialLine(m, line);
      RunOne(Run(m, line), LF);
      assert [] + line == line;
    }
  }

  /** Chunk data is copied to the payload, at most up to the end of the chunk. */
  lemma {:induction false} RunData(m: Machine, s: seq<byte>)
    requires m.phase.ReadingChunk? && m.fault.None? && m.chunkRead < m.chunkSize
    requires |s| <= m.chunkSize - m.chunkRead
    ensures Run(m, s) == m.(payload := m.payload + s, chunkRead := m.chunkRead + |s|,
                            phase := if m.chunkRead + |s| >= m.chunkSize then AwaitingEol else ReadingChunk)
    decreases |s|
  {
    if s == [] {
      assert m.payload + s == m.payload;
    } else {
      var m' := Feed(m, s[0]);
      if |s| == 1 {
        assert s[1..] == [];
        assert s == [s[0]];
      } else {
        RunData(m', s[1..]);
        assert m.payload + [s[0]] + s[1..] == m.payload + s;
      }
    }
  }

  /** The two octets after a chunk. */
  lemma {:induction false} RunEol(m: Machine, x: byte, y: byte)
    requires m.phase.AwaitingEol? && m.fault.None? && m.pending == []
    ensures Run(m, [x, y]) == EndEol(m.(pending := [x, y]))
  {
    var m1 := Feed(m, x);
    assert m1 == m.(pending := [x]);
    assert [x] + [y] == [x, y];
    assert [x, y][1..] == [y];
    RunOne(m1, y);
  }

  // ---------------------------------------------------------------- batches, token by token

  /** The first line feed of `s` is at `k`, or there is none and `k` is the length. */
  ghost predicate FirstLineFeed(s: seq<byte>, k: nat) {
    k <= |s| && LF !in s[..k] && (k < |s| ==> s[k] == LF)
  }

  /** What a batch that starts with a header amounts to; `k` is where its first line feed is. */
  lemma HeaderBatch(m: Machine, raw: seq<byte>, k: nat)
    requires m.phase.AwaitingHeader? && m.fault.None? && m.pending == []
    requires FirstLineFeed(raw, k)
    ensures k == |raw| ==> Run(m, raw) == m.(pending := raw)
    ensures k < |raw| ==>
              var size := HeaderSize(raw[..k + 1]);
              && (size.None? ==> Run(m, raw) == m.(pending := raw, fault := Some(BogusChunkSize)))
              && (size.Some? ==>
                    Run(m, raw) == Run(m.(phase := if size.value > 0 then ReadingChunk else AwaitingTrailers,
                                          chunkSize := size.value, chunkRead := 0), raw[k + 1..]))
  {
    if k == |raw| {
      assert raw[..k] == raw;
      RunPartialLine(m, raw);
    } else {
      var line, rest := raw[..k], raw[k + 1..];
      assert raw[..k + 1] == line + [LF];
      assert raw == (line + [LF]) + rest;
      RunLine(m, line);
      RunConcat(m, line + [LF], rest);
      if HeaderSize(raw[..k + 1]).None? {
        RunStuck(Run(m, line + [LF]), rest);
      }
    }
  }

  /** What a batch inside a chunk amounts to. */
  lemma DataBatch(m: Machine, raw: seq<byte>, n: nat)
    requires m.phase.ReadingChunk? && m.fault.None? && m.chunkRead < m.chunkSize
    requires n == Min(m.chunkSize - m.chunkRead, |raw|)
    ensures Run(m, raw) ==
            Run(m.(payload := m.payload + raw[..n], chunkRead := m.chunkRead + n,
                   phase := if m.chunkRead + n >= m.chunkSize then AwaitingEol else ReadingChunk), raw[n..])
  {
    assert raw == raw[..n] + raw[n..];
    RunConcat(m, raw[..n], raw[n..]);
    RunData(m, raw[..n]);
  }

  /** What a batch right after the chunk data amounts to. */
  lemma {:induction false} EolBatch(m: Machine, raw: seq<byte>)
    requires m.phase.AwaitingEol? && m.fault.None? && m.pending == []
    ensures |raw| < 2 ==> Run(m, raw) == m.(pending := raw)
    ensures |raw| >= 2 ==>
              if raw[0] != CR then Run(m, raw) == m.(pending := raw, fault := Some(MissingCR))
              else if raw[1] != LF then Run(m, raw) == m.(pending := raw, fault := Some(MissingLF))
              else Run(m, raw) == Run(m.(phase := AwaitingHeader), raw[2..])
  {
    if |raw| == 1 {
      assert raw == [raw[0]];
      RunOne(m, raw[0]);
    } else if |raw| >= 2 {
      assert raw == [raw[0], raw[1]] + raw[2..];
      RunEol(m, raw[0], raw[1]);
      RunConcat(m, [raw[0], raw[1]], raw[2..]);
      if Run(m, [raw[0], raw[1]]).fault.Some? {
        RunStuck(Run(m, [raw[0], raw[1]]), raw[2..]);
      }
    }
  }

  /** What a batch that starts with a trailer amounts to; `k` is where its first line feed is. */
  lemma {:induction false} TrailerBatch(m: Machine, raw: seq<byte>, k: nat)
    requires m.phase.AwaitingTrailers? && m.fault.None? && m.pending == []
    requires FirstLineFeed(raw, k)
    ensures k == |raw| ==> Run(m, raw) == m.(pending := raw)
    ensures k < |raw| ==>
              if TrailerFault(raw[..k]).Some? then Run(m, raw) == m.(pending := raw, fault := TrailerFault(raw[..k]))
              else if k == 1 then Run(m, raw) == m.(pending := raw, phase := Done)
              else COLON in raw[..k] && Run(m, raw) == Run(m.(trailers := PutTrailer(m.trailers, raw[..k])), raw[k + 1..])
  {
    if k == |raw| {
      assert raw[..k] == raw;
      RunPartialLine(m, raw);
    } else {
      var line, rest := raw[..k], raw[k + 1..];
      var held := line + [LF];
      assert raw == held + rest;
      RunLine(m, line);
      RunConcat(m, held, rest);
      assert held[..|held| - 1] == line;
      if k > 0 {
        assert held[|held| - 2] == raw[k - 1];
      }
      if Stuck(Run(m, held)) {
        RunStuck(Run(m, held), rest);
      }
    }
  }

  // ---------------------------------------------------------------- main results

  /**
   * Batch independence: parsing a batch `a` and then, restarted from the pending octets, a batch
   * `b` ends in the same phase, payload, trailers and fault as parsing `a + b` at once.
   */
  lemma {:induction false} BatchIndependence(m: Machine, a: seq<byte>, b: seq<byte>)
    requires Coherent(m)
    ensures var m1 := Run(Blank(m), m.pending + a);
            Run(Blank(m1), m1.pending + b) == Run(Blank(m), m.pending + (a + b))
  {
    var m1 := Run(Blank(m), m.pending + a);
    RunConcat(Blank(m), m.pending, a);
    RunCoherent(m, a);
    RunConcat(Blank(m1), m1.pending, b);
    RunConcat(m, a, b);
    RunConcat(Blank(m), m.pending, a + b);
  }

  /** A framing error stays the same error, whatever octets follow and however they are batched. */
  lemma {:induction false} FaultIsPermanent(m: Machine, more: seq<byte>)
    requires Coherent(m) && m.fault.Some?
    ensures var m' := Run(Blank(m), m.pending + more);
            m'.fault == m.fault && m'.payload == m.payload && m'.trailers == m.trailers
  {
    RunConcat(Blank(m), m.pending, more);
    RunStuck(m, more);
  }

  /** What was decoded never changes: it only grows, and so does the input it stands for. */
  lemma {:induction false} PayloadGrows(m: Machine, s: seq<byte>)
    ensures m.payload <= Run(m, s).payload
    decreases |s|
  {
    if s != [] {
      PayloadGrows(Feed(m, s[0]), s[1..]);
    }
  }

  lemma {:induction false} PendingIsSuffix(s: seq<byte>)
    ensures var m := Run(INIT, s); |m.pending| <= |s| && s[|s| - |m.pending|..] == m.pending
    decreases |s|
  {
    if s == [] {
    } else {
      var p, b := s[..|s| - 1], s[|s| - 1];
      assert s == p + [b];
      PendingIsSuffix(p);
      RunConcat(INIT, p, [b]);
      RunOne(Run(INIT, p), b);
      RunCoherent(INIT, p);
      FeedShaped(Run(INIT, p), b);
    }
  }

  /**
   * The pending octets are exactly the unprocessed rest: the octets before them already decode to
   * the same payload, with nothing pending.
   */
  lemma {:induction false} PendingIsUnprocessed(s: seq<byte>)
    ensures var m := Run(INIT, s);
            && |m.pending| <= |s|
            && s == s[..|s| - |m.pending|] + m.pending
            && Run(INIT, s[..|s| - |m.pending|]).payload == m.payload
            && Run(INIT, s[..|s| - |m.pending|]).pending == []
  {
    PendingIsSuffix(s);
    SplitAtPending(s);
  }

  lemma {:induction false} RunLast(m: Machine, s: seq<byte>)
    requires s != []
    ensures Run(m, s) == Feed(Run(m, s[..|s| - 1]), s[|s| - 1])
  {
    assert s == s[..|s| - 1] + [s[|s| - 1]];
    RunConcat(m, s[..|s| - 1], [s[|s| - 1]]);
    RunOne(Run(m, s[..|s| - 1]), s[|s| - 1]);
  }

  /** The last octet of `s` was kept: what is pending starts where it started before. */
  lemma {:induction false} LastIsKept(s: seq<byte>)
    requires s != [] && Run(INIT, s).pending != []
    ensures var q, m := Run(INIT, s[..|s| - 1]), Run(INIT, s);
            m.payload == q.payload && |m.pending| == |q.pending| + 1
  {
    RunLast(INIT, s);
    RunCoherent(INIT, s[..|s| - 1]);
    FeedShaped(Run(INIT, s[..|s| - 1]), s[|s| - 1]);
  }

  lemma {:induction false} SplitAtPending(s: seq<byte>)
    requires |Run(INIT, s).pending| <= |s|
    ensures var m := Run(INIT, s);
            Run(INIT, s[..|s| - |m.pending|]).payload == m.payload
            && Run(INIT, s[..|s| - |m.pending|]).pending == []
    decreases |s|
  {
    var m := Run(INIT, s);
    if m.pending == [] {
      assert s[..|s|] == s;
    } else {
      var p := s[..|s| - 1];
      LastIsKept(s);
      PendingIsSuffix(p);
      SplitAtPending(p);
      assert s[..|s| - |m.pending|] == p[..|p| - |Run(INIT, p).pending|];
    }
  }
}
