/**
 * Callers of the decoder: every mix of calls over every fragmentation of an encoding sees the
 * payload of the message and nothing else.
 */
module ChunkClient {
  import opened Bytes
  import opened ChunkMachine
  import opened ChunkGrammar
  import opened ChunkSpelling
  import opened ChunkSource
  import opened ChunkedStream

  /** A public call: `read()`, `read(b, 0, len)` on an array of that length, or `available()`. */
  datatype Call = ReadOne | ReadMany(len: nat) | Ask

  /** The source carries the whole message, whatever comes after it. */
  ghost predicate Carries(s: ChunkedInputStream, msg: Message)
    reads s, s.input
  {
    WellFormed(msg) && Wire(msg) <= s.All()
  }

  /** The state of a decoder is always that of a beginning of the message or of its end. */
  lemma OnTrack(s: ChunkedInputStream, msg: Message)
    requires s.Valid() && Carries(s, msg)
    ensures s.machine.fault.None? && s.machine.payload <= Payload(msg.chunks)
    ensures s.machine.phase.Done? ==> s.machine.payload == Payload(msg.chunks)
    ensures s.machine.phase.Done? ==> s.trailers == TrailerMap(msg.trailers)
    ensures s.delivered <= Payload(msg.chunks)
  {
    var all := s.All();
    var extra := all[|Wire(msg)|..];
    assert all == Wire(msg) + extra;
    assert s.input.taken <= all;
    PrefixOfEncoding(msg, extra, s.input.taken);
    assert s.delivered <= s.machine.payload;
  }

  /** Once everything the source carries is taken, the machine is done. */
  lemma {:induction false} NeverStarved(msg: Message, taken: seq<byte>)
    requires WellFormed(msg) && Wire(msg) <= taken
    ensures Run(INIT, taken).phase.Done?
  {
    EncodingIsDecoded(msg, taken[|Wire(msg)|..]);
    assert taken == Wire(msg) + taken[|Wire(msg)|..];
  }

  /** An honest answer about a message that is carried is never an error. */
  lemma NoError(s: ChunkedInputStream, msg: Message, r: Result, all: seq<byte>)
    requires s.Valid() && WellFormed(msg) && Wire(msg) <= all && s.Honest(r, all) && !s.closed
    requires r != Raised(OutOfBounds)
    ensures !r.Raised? && Carries(s, msg)
    ensures r.Eof? ==> s.delivered == Payload(msg.chunks) && s.trailers == TrailerMap(msg.trailers)
  {
    if r.Raised? && (r.error.SourceFailure? || r.error.PrematureEof?) {
      NeverStarved(msg, s.input.taken);
      assert false;
    } else {
      assert Carries(s, msg);
      OnTrack(s, msg);
    }
  }

  /** One call; the octets it returns are the next ones of the payload. */
  method Perform(s: ChunkedInputStream, c: Call, ghost msg: Message) returns (got: seq<byte>, ended: bool)
    requires s.Valid() && !s.closed && Carries(s, msg)
    modifies s, s.rawData, s.chunkData, s.input
    ensures s.Valid() && !s.closed && Carries(s, msg) && s.OwnBuffers()
    ensures s.delivered == old(s.delivered) + got
    ensures ended ==> got == [] && s.delivered == Payload(msg.chunks) && s.trailers == TrailerMap(msg.trailers)
    ensures !ended && (c.ReadOne? || (c.ReadMany? && c.len > 0)) ==> got != []
  {
    match c {
      case ReadOne =>
        var r := s.Read();
        NoError(s, msg, r, old(s.All()));
        got, ended := if r.Value? then [r.n] else [], r.Eof?;
      case ReadMany(len) =>
        var b := new byte[len];
        var r := s.ReadInto(b, 0, len);
        NoError(s, msg, r, old(s.All()));
        got, ended := if r.Value? then b[..r.n] else [], r.Eof?;
      case Ask =>
        var r := s.Available();
        if r.Raised? && r.error.SourceFailure? {
          NeverStarved(msg, s.input.taken);
          assert false;
        }
        assert Carries(s, msg);
        OnTrack(s, msg);
        got, ended := [], false;
    }
  }

  /**
   * Every mix of calls returns, in order, a beginning of the payload; a call that answers -1 does
   * so only after the whole payload.
   */
  method Play(s: ChunkedInputStream, calls: seq<Call>, ghost msg: Message) returns (out: seq<byte>, ended: bool)
    requires s.Valid() && !s.closed && s.delivered == [] && Carries(s, msg)
    modifies s, s.rawData, s.chunkData, s.input
    ensures s.Valid() && !s.closed && Carries(s, msg) && s.OwnBuffers()
    ensures out == s.delivered <= Payload(msg.chunks)
    ensures ended ==> out == Payload(msg.chunks)
  {
    out, ended := [], false;
    OnTrack(s, msg);
    for i := 0 to |calls|
      invariant s.Valid() && !s.closed && Carries(s, msg) && s.OwnBuffers()
      invariant out == s.delivered <= Payload(msg.chunks)
      invariant ended ==> out == Payload(msg.chunks)
    {
      var got, e := Perform(s, calls[i], msg);
      OnTrack(s, msg);
      out := out + got;
      ended := ended || e;
    }
  }

  /** Reading with any buffer size until -1 ends, and returns exactly the rest of the payload. */
  method ReadToEnd(s: ChunkedInputStream, size: nat, ghost msg: Message) returns (out: seq<byte>)
    requires s.Valid() && !s.closed && size > 0 && Carries(s, msg)
    modifies s, s.rawData, s.chunkData, s.input
    ensures s.Valid() && s.OwnBuffers() && s.delivered == old(s.delivered) + out == Payload(msg.chunks)
    ensures s.trailers == TrailerMap(msg.trailers)
  {
    out := [];
    OnTrack(s, msg);
    while true
      invariant s.Valid() && !s.closed && Carries(s, msg) && s.OwnBuffers()
      invariant s.delivered == old(s.delivered) + out <= Payload(msg.chunks)
      decreases |Payload(msg.chunks)| - |s.delivered|
    {
      var got, ended := Perform(s, ReadMany(size), msg);
      OnTrack(s, msg);
      out := out + got;
      if ended {
        return;
      }
    }
  }

  /**
   * The same from literal octets: over every fragmentation of a spelled-out message a reader gets
   * the octets of its chunks, and each trailer name is bound to its last value.
   */
  method ReadLetter(s: ChunkedInputStream, size: nat, ghost l: Letter) returns (out: seq<byte>)
    requires s.Valid() && !s.closed && size > 0 && s.delivered == []
    requires LetterOk(l) && LetterWire(l) <= s.All()
    modifies s, s.rawData, s.chunkData, s.input
    ensures s.Valid() && s.OwnBuffers() && out == s.delivered == Body(l.pieces) && Binds(s.trailers, Entries(l.fields))
  {
    LetterIsMessage(l);
    out := ReadToEnd(s, size, MessageOf(l));
  }

  // ---------------------------------------------------------------- sources that carry no message

  /** A framing error is final for the machine, and so is what it had decoded by then. */
  lemma {:induction false} FaultIsFinal(taken: seq<byte>, more: seq<byte>)
    requires taken <= more && Run(INIT, taken).fault.Some?
    ensures Run(INIT, more).fault == Run(INIT, taken).fault && Run(INIT, more).payload == Run(INIT, taken).payload
  {
    var rest := more[|taken|..];
    assert more == taken + rest;
    RunConcat(INIT, taken, rest);
    RunStuck(Run(INIT, taken), rest);
  }

  /** One call after a framing error, whatever it is. */
  method Retry(s: ChunkedInputStream, c: Call) returns (r: Result, got: seq<byte>)
    requires s.Valid() && !s.closed && s.machine.fault.Some?
    modifies s, s.rawData, s.chunkData, s.input
    ensures s.Valid() && !s.closed && s.OwnBuffers()
    ensures s.machine.fault == old(s.machine.fault) && s.machine.payload == old(s.machine.payload)
    ensures s.delivered == old(s.delivered) + got && (got != [] ==> r.Value?)
    ensures !r.Eof? && (r.Raised? && r.error.Framing? ==> Some(r.error.fault) == old(s.machine.fault))
    ensures !c.Ask? && got == [] && c != ReadMany(0) ==> r.Raised?
  {
    ghost var was := s.input.taken;
    match c {
      case ReadOne =>
        r := s.Read();
        got := if r.Value? then [r.n] else [];
      case ReadMany(len) =>
        var b := new byte[len];
        r := s.ReadInto(b, 0, len);
        got := if r.Value? then b[..r.n] else [];
      case Ask =>
        r := s.Available();
        got := [];
    }
    FaultIsFinal(was, s.input.taken);
    if r.Eof? {
      RunCoherent(INIT, s.input.taken);
    }
  }

  /**
   * After a framing error every later call is answered so: it delivers what was decoded before the
   * error, or it raises, and a framing error it raises is the same one; the end is never answered.
   */
  method RetryAll(s: ChunkedInputStream, calls: seq<Call>) returns (answers: seq<Result>)
    requires s.Valid() && !s.closed && s.machine.fault.Some?
    modifies s, s.rawData, s.chunkData, s.input
    ensures s.Valid() && !s.closed && s.OwnBuffers() && |answers| == |calls|
    ensures s.machine.fault == old(s.machine.fault) && old(s.delivered) <= s.delivered <= old(s.machine.payload)
    ensures forall i :: 0 <= i < |answers| ==>
              && !answers[i].Eof?
              && (answers[i].Raised? && answers[i].error.Framing? ==> Some(answers[i].error.fault) == old(s.machine.fault))
  {
    answers := [];
    for i := 0 to |calls|
      invariant s.Valid() && !s.closed && s.OwnBuffers() && |answers| == i
      invariant s.machine.fault == old(s.machine.fault) && s.machine.payload == old(s.machine.payload)
      invariant old(s.delivered) <= s.delivered
      invariant forall j :: 0 <= j < i ==>
                  && !answers[j].Eof?
                  && (answers[j].Raised? && answers[j].error.Framing? ==> Some(answers[j].error.fault) == old(s.machine.fault))
    {
      var r, _ := Retry(s, calls[i]);
      answers := answers + [r];
    }
    assert s.delivered <= s.machine.payload;
  }

  // ---------------------------------------------------------------- an error that is not reported

  /** "0" CR LF "x" CR LF: a last chunk and a trailer without a colon */
  const SPOILT: seq<byte> := [48, CR, LF] + [120, CR, LF]

  lemma LastChunkLine()
    ensures HeaderSize([48, CR, LF]) == Some(0)
  {
    var line := [48, CR, LF];
    assert line[1..] == [CR, LF];
    assert HexCount([CR, LF]) == 0;
    assert HexCount(line) == 1 && line[..1] == [48];
    assert [48][..0] == [];
  }

  lemma SpoiltHeader()
    ensures Run(INIT, [48, CR, LF]) == INIT.(phase := AwaitingTrailers)
  {
    LastChunkLine();
    RunLine(INIT, [48, CR]);
    assert [48, CR] + [LF] == [48, CR, LF];
  }

  lemma {:induction false} SpoiltTrailer(m: Machine)
    requires m == INIT.(phase := AwaitingTrailers)
    ensures Run(m, [120, CR, LF]).fault == Some(MalformedTrailer) && Run(m, [120, CR, LF]).payload == []
  {
    RunLine(m, [120, CR]);
    assert [120, CR] + [LF] == [120, CR, LF];
    assert [120, CR, LF][..2] == [120, CR];
  }

  lemma SpoiltRun()
    ensures Run(INIT, SPOILT).fault == Some(MalformedTrailer) && Run(INIT, SPOILT).payload == []
  {
    RunConcat(INIT, [48, CR, LF], [120, CR, LF]);
    SpoiltHeader();
    SpoiltTrailer(INIT.(phase := AwaitingTrailers));
  }

  /**
   * A malformed trailer is thrown but leaves `hasError()` false: on this input, however fragmented,
   * the first read raises it, and the error flag does not tell.
   */
  method ReadSpoilt(script: seq<Reply>, estimates: seq<int>) returns (r: Result, e: bool)
    requires Supply(script) == SPOILT
    ensures r == Raised(Framing(MalformedTrailer)) && !e
  {
    var source := new Source(script, estimates);
    var s := new ChunkedInputStream(source);
    assert s.All() == SPOILT;
    r := s.Read();
    e := s.HasError();
    SpoiltAnswer(s, r);
  }

  lemma SpoiltAnswer(s: ChunkedInputStream, r: Result)
    requires s.Valid() && !s.closed && s.Honest(r, SPOILT) && r != Raised(OutOfBounds)
    requires r.Value? ==> s.delivered != []
    requires s.Starves(r) ==> s.machine.fault.None?
    ensures r == Raised(Framing(MalformedTrailer))
  {
    SpoiltRun();
    var taken := s.input.taken;
    assert taken <= SPOILT;
    var rest := SPOILT[|taken|..];
    assert SPOILT == taken + rest;
    RunConcat(INIT, taken, rest);
    PayloadGrows(s.machine, rest);
    RunCoherent(INIT, taken);
    if s.machine.fault.Some? || s.machine.phase.Done? {
      RunStuck(s.machine, rest);
    }
    assert s.delivered <= s.machine.payload;
  }
}
