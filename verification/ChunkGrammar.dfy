/**
 * The chunked coding as a grammar (section 3.6.1 of RFC 2616), independent of any parser, and the
 * proof that the machine accepts exactly the words of the grammar and decodes each to its payload.
 *
 * The grammar is the one the program accepts, slightly wider than the RFC: after the digits of a
 * chunk header anything without a line feed may stand (extensions, the CR, or nothing).
 */
module ChunkGrammar {
  import opened Bytes
  import opened ChunkMachine

  datatype Header = Header(digits: seq<byte>, ext: seq<byte>)

  datatype Chunk = Chunk(header: Header, data: seq<byte>)

  /** Each trailer is a line without its line feed, the CR included. */
  datatype Message = Message(chunks: seq<Chunk>, last: Header, trailers: seq<seq<byte>>)

  const CRLF: seq<byte> := [CR, LF]

  // ---------------------------------------------------------------- what is a message

  ghost predicate HeaderOf(h: Header, size: nat) {
    && h.digits != [] && AllHex(h.digits) && HexValue(h.digits) == size <= MAX_INT
    && LF !in h.ext && (h.ext != [] ==> HexDigit(h.ext[0]) == -1)
  }

  ghost predicate ChunkOk(c: Chunk) {
    c.data != [] && HeaderOf(c.header, |c.data|)
  }

  ghost predicate TrailerOk(t: seq<byte>) {
    |t| >= 2 && LF !in t && t[|t| - 1] == CR && COLON in t
  }

  ghost predicate WellFormed(msg: Message) {
    && (forall i :: 0 <= i < |msg.chunks| ==> ChunkOk(msg.chunks[i]))
    && HeaderOf(msg.last, 0)
    && (forall i :: 0 <= i < |msg.trailers| ==> TrailerOk(msg.trailers[i]))
  }

  // ---------------------------------------------------------------- how it is written and what it means

  ghost function HeaderLine(h: Header): seq<byte> {
    h.digits + h.ext + [LF]
  }

  ghost function ChunkWire(c: Chunk): seq<byte> {
    HeaderLine(c.header) + c.data + CRLF
  }

  ghost function ChunksWire(cs: seq<Chunk>): seq<byte> {
    if cs == [] then [] else ChunksWire(cs[..|cs| - 1]) + ChunkWire(cs[|cs| - 1])
  }

  ghost function TrailersWire(ts: seq<seq<byte>>): seq<byte> {
    if ts == [] then [] else TrailersWire(ts[..|ts| - 1]) + (ts[|ts| - 1] + [LF])
  }

  ghost function Wire(msg: Message): seq<byte> {
    ChunksWire(msg.chunks) + HeaderLine(msg.last) + TrailersWire(msg.trailers) + CRLF
  }

  ghost function Payload(cs: seq<Chunk>): seq<byte> {
    if cs == [] then [] else Payload(cs[..|cs| - 1]) + cs[|cs| - 1].data
  }

  ghost function TrailerMap(ts: seq<seq<byte>>): map<string, string>
    requires forall i :: 0 <= i < |ts| ==> TrailerOk(ts[i])
  {
    if ts == [] then map[]
    else
      assert TrailerOk(ts[|ts| - 1]);
      PutTrailer(TrailerMap(ts[..|ts| - 1]), ts[|ts| - 1])
  }

  // ---------------------------------------------------------------- every message is decoded

  /** The digits of a header line are found whatever follows them. */
  lemma {:induction false} HexCountOf(digits: seq<byte>, rest: seq<byte>)
    requires AllHex(digits) && (rest != [] ==> HexDigit(rest[0]) == -1)
    ensures HexCount(digits + rest) == |digits|
  {
    if digits == [] {
      assert digits + rest == rest;
    } else {
      assert (digits + rest)[1..] == digits[1..] + rest;
      HexCountOf(digits[1..], rest);
    }
  }

  lemma {:induction false} RunHeader(m: Machine, h: Header, size: nat)
    requires m.phase.AwaitingHeader? && m.fault.None? && m.pending == [] && HeaderOf(h, size)
    ensures Run(m, HeaderLine(h)) ==
            m.(phase := if size > 0 then ReadingChunk else AwaitingTrailers, chunkSize := size, chunkRead := 0)
  {
    var line := h.digits + h.ext;
    forall i | 0 <= i < |h.digits| ensures h.digits[i] != LF {
      assert HexDigit(h.digits[i]) != -1;
    }
    assert LF !in line;
    RunLine(m, line);
    assert HeaderLine(h) == line + [LF];
    assert line + [LF] == h.digits + (h.ext + [LF]);
    HexCountOf(h.digits, h.ext + [LF]);
    assert (line + [LF])[..|h.digits|] == h.digits;
  }

  lemma {:induction false} RunChunk(m: Machine, c: Chunk)
    requires m.phase.AwaitingHeader? && m.fault.None? && m.pending == [] && ChunkOk(c)
    ensures Run(m, ChunkWire(c)) ==
            m.(payload := m.payload + c.data, chunkSize := |c.data|, chunkRead := |c.data|)
  {
    RunHeader(m, c.header, |c.data|);
    var m1 := Run(m, HeaderLine(c.header));
    RunData(m1, c.data);
    var m2 := Run(m1, c.data);
    RunEol(m2, CR, LF);
    RunConcat(m, HeaderLine(c.header), c.data);
    RunConcat(m, HeaderLine(c.header) + c.data, CRLF);
  }

  lemma {:induction false} RunChunks(cs: seq<Chunk>)
    requires forall i :: 0 <= i < |cs| ==> ChunkOk(cs[i])
    ensures var m := Run(INIT, ChunksWire(cs));
            m.phase.AwaitingHeader? && m.fault.None? && m.pending == [] && m.payload == Payload(cs)
            && m.trailers == map[]
  {
    if cs != [] {
      var front, c := cs[..|cs| - 1], cs[|cs| - 1];
      RunChunks(front);
      RunConcat(INIT, ChunksWire(front), ChunkWire(c));
      RunChunk(Run(INIT, ChunksWire(front)), c);
    }
  }

  lemma {:induction false} RunTrailer(m: Machine, t: seq<byte>)
    requires m.phase.AwaitingTrailers? && m.fault.None? && m.pending == [] && TrailerOk(t)
    ensures Run(m, t + [LF]) == m.(trailers := PutTrailer(m.trailers, t))
  {
    RunLine(m, t);
    var line := t + [LF];
    assert line[|line| - 2] == CR;
    assert line[..|line| - 1] == t;
  }

  lemma {:induction false} RunTrailers(m: Machine, ts: seq<seq<byte>>)
    requires m.phase.AwaitingTrailers? && m.fault.None? && m.pending == [] && m.trailers == map[]
    requires forall i :: 0 <= i < |ts| ==> TrailerOk(ts[i])
    ensures Run(m, TrailersWire(ts)) == m.(trailers := TrailerMap(ts))
  {
    if ts != [] {
      var front, t := ts[..|ts| - 1], ts[|ts| - 1];
      RunTrailers(m, front);
      RunConcat(m, TrailersWire(front), t + [LF]);
      RunTrailer(Run(m, TrailersWire(front)), t);
    }
  }

  /**
   * Round trip: whatever the chunk sizes, the case and leading zeros of the digits, the
   * extensions and the trailers, the encoding of a message followed by anything decodes to the
   * payload and the trailers of the message, without fault, and leaves what follows untouched.
   */
  lemma {:induction false} EncodingIsDecoded(msg: Message, extra: seq<byte>)
    requires WellFormed(msg)
    ensures var m := Run(INIT, Wire(msg) + extra);
            && m.phase.Done? && m.fault.None?
            && m.payload == Payload(msg.chunks)
            && m.trailers == TrailerMap(msg.trailers)
            && m.pending == CRLF + extra
  {
    var w0 := ChunksWire(msg.chunks);
    var w1 := w0 + HeaderLine(msg.last);
    var w2 := w1 + TrailersWire(msg.trailers);
    RunChunks(msg.chunks);
    var m0 := Run(INIT, w0);
    RunHeader(m0, msg.last, 0);
    RunConcat(INIT, w0, HeaderLine(msg.last));
    var m1 := Run(INIT, w1);
    RunTrailers(m1, msg.trailers);
    RunConcat(INIT, w1, TrailersWire(msg.trailers));
    var m2 := Run(INIT, w2);
    RunLine(m2, [CR]);
    assert [CR] + [LF] == CRLF;
    RunConcat(INIT, w2, CRLF);
    RunConcat(INIT, w2 + CRLF, extra);
    RunStuck(Run(m2, CRLF), extra);
  }

  // ---------------------------------------------------------------- and nothing else is

  /** How far into a message the octets received so far reach. */
  datatype Progress =
    | AtHeader(chunks: seq<Chunk>)
    | InChunk(chunks: seq<Chunk>, header: Header, part: seq<byte>)
    | AtTrailers(chunks: seq<Chunk>, last: Header, trailers: seq<seq<byte>>)
    | Finished(msg: Message, extra: seq<byte>)

  /** The octets `s` and the machine `m` agree with that progress. */
  ghost predicate Describes(p: Progress, s: seq<byte>, m: Machine) {
    match m.phase
    case AwaitingHeader =>
      p.AtHeader? && (forall i :: 0 <= i < |p.chunks| ==> ChunkOk(p.chunks[i]))
      && s == ChunksWire(p.chunks) + m.pending
    case ReadingChunk => PartialChunk(p, m) && s == ChunksWire(p.chunks) + HeaderLine(p.header) + p.part
    case AwaitingEol =>
      PartialChunk(p, m) && |p.part| == m.chunkSize
      && s == ChunksWire(p.chunks) + HeaderLine(p.header) + p.part + m.pending
    case AwaitingTrailers =>
      p.AtTrailers? && WellFormed(Message(p.chunks, p.last, p.trailers))
      && s == ChunksWire(p.chunks) + HeaderLine(p.last) + TrailersWire(p.trailers) + m.pending
    case Done => p.Finished? && WellFormed(p.msg) && s == Wire(p.msg) + p.extra
  }

  ghost predicate PartialChunk(p: Progress, m: Machine) {
    p.InChunk? && (forall i :: 0 <= i < |p.chunks| ==> ChunkOk(p.chunks[i]))
    && HeaderOf(p.header, m.chunkSize) && |p.part| == m.chunkRead <= m.chunkSize && m.chunkSize > 0
  }

  /** A header line that parses is a header of the grammar. */
  lemma ReadHeader(line: seq<byte>) returns (h: Header)
    requires LF !in line && HeaderSize(line + [LF]).Some?
    ensures HeaderLine(h) == line + [LF]
    ensures HeaderOf(h, HeaderSize(line + [LF]).value)
  {
    var n := HexCount(line + [LF]);
    assert n <= |line| by {
      assert HexDigit((line + [LF])[|line|]) == -1;
    }
    h := Header(line[..n], line[n..]);
    assert (line + [LF])[..n] == line[..n];
    assert line == line[..n] + line[n..];
    if h.ext != [] {
      assert (line + [LF])[n] == h.ext[0];
    }
  }

  lemma AdvanceHeader(p: Progress, s: seq<byte>, m: Machine, b: byte) returns (q: Progress)
    requires Shaped(m) && m.phase.AwaitingHeader? && m.fault.None? && Describes(p, s, m)
    requires Feed(m, b).fault.None?
    ensures Describes(q, s + [b], Feed(m, b))
  {
    assert s + [b] == ChunksWire(p.chunks) + (m.pending + [b]);
    if b != LF {
      q := p;
    } else {
      var h := ReadHeader(m.pending);
      var size := Feed(m, b).chunkSize;
      assert ChunksWire(p.chunks) + HeaderLine(h) + [] == ChunksWire(p.chunks) + HeaderLine(h);
      if size > 0 {
        q := InChunk(p.chunks, h, []);
      } else {
        q := AtTrailers(p.chunks, h, []);
        assert ChunksWire(p.chunks) + HeaderLine(h) + TrailersWire([]) + [] == ChunksWire(p.chunks) + HeaderLine(h);
      }
    }
  }

  lemma AdvanceData(p: Progress, s: seq<byte>, m: Machine, b: byte) returns (q: Progress)
    requires Shaped(m) && m.phase.ReadingChunk? && m.fault.None? && Describes(p, s, m)
    ensures Describes(q, s + [b], Feed(m, b))
  {
    q := p.(part := p.part + [b]);
    var front := ChunksWire(p.chunks) + HeaderLine(p.header);
    assert front + p.part + [b] == front + (p.part + [b]);
    assert front + q.part + [] == front + q.part;
  }

  lemma AdvanceEol(p: Progress, s: seq<byte>, m: Machine, b: byte) returns (q: Progress)
    requires Shaped(m) && m.phase.AwaitingEol? && m.fault.None? && Describes(p, s, m)
    requires Feed(m, b).fault.None?
    ensures Describes(q, s + [b], Feed(m, b))
  {
    var front := ChunksWire(p.chunks) + HeaderLine(p.header) + p.part;
    assert s + [b] == front + (m.pending + [b]);
    if m.pending == [] {
      q := p;
    } else {
      var c := Chunk(p.header, p.part);
      var cs := p.chunks + [c];
      q := AtHeader(cs);
      assert cs[..|cs| - 1] == p.chunks;
      assert m.pending + [b] == CRLF;
      assert front + CRLF == ChunksWire(p.chunks) + ChunkWire(c);
      assert ChunksWire(cs) + [] == ChunksWire(cs);
    }
  }

  /** A trailer line that was accepted is a trailer of the grammar, and extends the written trailers. */
  lemma {:induction false} ReadTrailer(front: seq<byte>, ts: seq<seq<byte>>, t: seq<byte>)
    requires |t| >= 2 && LF !in t && t[|t| - 1] == CR && COLON in t
    ensures TrailerOk(t)
    ensures front + TrailersWire(ts + [t]) + [] == front + TrailersWire(ts) + (t + [LF])
  {
    assert (ts + [t])[..|ts|] == ts;
    assert front + TrailersWire(ts) + (t + [LF]) == front + (TrailersWire(ts) + (t + [LF]));
  }

  /** A trailer line that has no fault is the empty line or a trailer. */
  lemma FaultlessTrailer(line: seq<byte>)
    requires TrailerFault(line).None? && LF !in line
    ensures line == [CR] || TrailerOk(line)
  {
  }

  /** What an accepted trailer line looks like. */
  lemma AcceptedTrailer(m: Machine)
    requires m.phase.AwaitingTrailers? && m.fault.None? && Feed(m, LF).fault.None?
    ensures TrailerFault(m.pending).None?
    ensures m.pending == [CR] ==> Feed(m, LF).phase.Done? && Feed(m, LF).pending == CRLF
    ensures m.pending != [CR] ==> Feed(m, LF).phase.AwaitingTrailers? && Feed(m, LF).pending == []
  {
    var held := m.pending + [LF];
    assert held[..|held| - 1] == m.pending;
    assert Feed(m, LF) == EndTrailer(m.(pending := held));
    if |m.pending| == 1 {
      assert m.pending == [m.pending[0]];
    }
  }

  /** The empty line ends the message. */
  lemma AdvanceEnd(p: Progress, s: seq<byte>, m: Machine) returns (q: Progress)
    requires m.phase.AwaitingTrailers? && Describes(p, s, m) && m.pending == [CR]
    ensures q.Finished? && WellFormed(q.msg) && s + [LF] == Wire(q.msg) + q.extra
  {
    var front := ChunksWire(p.chunks) + HeaderLine(p.last);
    q := Finished(Message(p.chunks, p.last, p.trailers), []);
    assert m.pending + [LF] == CRLF;
    assert s + [LF] == front + TrailersWire(p.trailers) + (m.pending + [LF]);
    assert Wire(q.msg) + [] == Wire(q.msg);
  }

  /** A trailer line joins the others. */
  lemma AdvanceLine(p: Progress, s: seq<byte>, m: Machine) returns (q: Progress)
    requires m.phase.AwaitingTrailers? && Describes(p, s, m) && TrailerOk(m.pending)
    ensures q.AtTrailers? && WellFormed(Message(q.chunks, q.last, q.trailers))
    ensures s + [LF] == ChunksWire(q.chunks) + HeaderLine(q.last) + TrailersWire(q.trailers) + []
  {
    var front := ChunksWire(p.chunks) + HeaderLine(p.last);
    assert s + [LF] == front + TrailersWire(p.trailers) + (m.pending + [LF]);
    ReadTrailer(front, p.trailers, m.pending);
    q := AtTrailers(p.chunks, p.last, p.trailers + [m.pending]);
  }

  lemma AdvanceTrailer(p: Progress, s: seq<byte>, m: Machine, b: byte) returns (q: Progress)
    requires Shaped(m) && m.phase.AwaitingTrailers? && m.fault.None? && Describes(p, s, m)
    requires Feed(m, b).fault.None?
    ensures Describes(q, s + [b], Feed(m, b))
  {
    if b != LF {
      q := p;
      var front := ChunksWire(p.chunks) + HeaderLine(p.last);
      assert s + [b] == front + TrailersWire(p.trailers) + (m.pending + [b]);
    } else {
      AcceptedTrailer(m);
      FaultlessTrailer(m.pending);
      if m.pending == [CR] {
        q := AdvanceEnd(p, s, m);
      } else {
        q := AdvanceLine(p, s, m);
      }
    }
  }

  lemma AdvanceDone(p: Progress, s: seq<byte>, m: Machine, b: byte) returns (q: Progress)
    requires m.phase.Done? && Describes(p, s, m)
    ensures Describes(q, s + [b], Feed(m, b))
  {
    q := p.(extra := p.extra + [b]);
    assert Wire(p.msg) + p.extra + [b] == Wire(p.msg) + (p.extra + [b]);
  }

  /** Every octet string that the machine has not rejected is the beginning of a message. */
  lemma {:induction false} ProgressOf(s: seq<byte>) returns (p: Progress)
    requires Run(INIT, s).fault.None?
    ensures Describes(p, s, Run(INIT, s))
    decreases |s|
  {
    if s == [] {
      p := AtHeader([]);
    } else {
      var front, b := s[..|s| - 1], s[|s| - 1];
      assert s == front + [b];
      RunConcat(INIT, front, [b]);
      var m := Run(INIT, front);
      RunOne(m, b);
      RunCoherent(INIT, front);
      p := ProgressOf(front);
      match m.phase {
        case AwaitingHeader => p := AdvanceHeader(p, front, m, b);
        case ReadingChunk => p := AdvanceData(p, front, m, b);
        case AwaitingEol => p := AdvanceEol(p, front, m, b);
        case AwaitingTrailers => p := AdvanceTrailer(p, front, m, b);
        case Done => p := AdvanceDone(p, front, m, b);
      }
    }
  }

  /** The machine finishes on exactly the words of the grammar, followed by anything. */
  lemma {:induction false} AcceptedExactly(s: seq<byte>)
    ensures Run(INIT, s).phase.Done? <==>
            exists msg: Message, extra: seq<byte> :: WellFormed(msg) && s == Wire(msg) + extra
  {
    if Run(INIT, s).phase.Done? {
      RunCoherent(INIT, s);
      var p := ProgressOf(s);
      assert WellFormed(p.msg) && s == Wire(p.msg) + p.extra;
    }
    forall msg: Message, extra: seq<byte> | WellFormed(msg) && s == Wire(msg) + extra
      ensures Run(INIT, s).phase.Done?
    {
      EncodingIsDecoded(msg, extra);
    }
  }

  /**
   * Decoding a beginning of an encoding never faults, yields a beginning of the payload, and is
   * done only once the whole encoding and with it the whole payload has arrived.
   */
  lemma {:induction false} PrefixOfEncoding(msg: Message, extra: seq<byte>, s: seq<byte>)
    requires WellFormed(msg) && s <= Wire(msg) + extra
    ensures var m := Run(INIT, s);
            && m.fault.None?
            && m.payload <= Payload(msg.chunks)
            && (m.phase.Done? ==> m.payload == Payload(msg.chunks) && m.trailers == TrailerMap(msg.trailers))
            && (!m.phase.Done? ==> s < Wire(msg) + extra)
  {
    var w := Wire(msg) + extra;
    var rest := w[|s|..];
    assert w == s + rest;
    EncodingIsDecoded(msg, extra);
    RunConcat(INIT, s, rest);
    var m := Run(INIT, s);
    PayloadGrows(m, rest);
    RunCoherent(INIT, s);
    if Stuck(m) {
      RunStuck(m, rest);
    }
    if s == w {
      assert rest == [];
    }
  }
}
