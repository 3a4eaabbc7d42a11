/**
 * `com.mexhee.io.ChunkedInputStream`: the restartable parser over a raw buffer and a buffer of
 * decoded octets, both growing and compacting, with a shortcut that bypasses both.
 */
module ChunkedStream {
  import opened Bytes
  import opened ChunkMachine
  import opened ChunkSource

  datatype Error =
    | StreamClosed
    | OutOfBounds
    | PrematureEof
    | SourceFailure
    | Framing(fault: Fault)

  /** What a public call answers: a number, the end (-1), or an exception. */
  datatype Result = Value(n: nat) | Eof | Raised(error: Error)

  class ChunkedInputStream {
    const input: Source
    var trailers: map<string, string>
    var chunkSize: nat
    var chunkRead: nat
    var chunkData: array<byte>
    var chunkPos: nat
    var chunkCount: nat
    var rawData: array<byte>
    var rawPos: nat
    var rawCount: nat
    var error: bool
    var closed: bool
    var phase: Phase

    /** Everything handed to callers so far. */
    ghost var delivered: seq<byte>
    /** The reference machine after all octets taken from the source. */
    ghost var machine: Machine

    ghost predicate Buffers()
      reads this
    {
      && rawData != chunkData
      && rawPos <= rawCount <= rawData.Length
      && chunkPos <= chunkCount <= chunkData.Length
    }

    ghost function Raw(): seq<byte>
      requires Buffers()
      reads this, rawData
    {
      rawData[rawPos..rawCount]
    }

    ghost function Buffered(): seq<byte>
      requires Buffers()
      reads this, chunkData
    {
      chunkData[chunkPos..chunkCount]
    }

    /** The fields as a machine with no fault. */
    ghost function Snapshot(): Machine
      requires Buffers()
      reads this, rawData, chunkData
    {
      Machine(phase, chunkSize, chunkRead, Raw(), delivered + Buffered(), trailers, None)
    }

    /**
     * Between public calls: the fields are the reference machine run over every octet taken from
     * the source; so delivered octets plus buffered ones are the decoding, the raw buffer holds
     * exactly the unprocessed rest, and inside a chunk the raw buffer is empty.
     */
    ghost predicate Valid()
      reads this, rawData, chunkData, input
    {
      && Buffers()
      && machine == Run(INIT, input.taken)
      && Snapshot().(fault := machine.fault) == machine
      && (phase.ReadingChunk? ==> rawPos == rawCount && chunkRead < chunkSize)
    }

    constructor (input: Source)
      requires input.taken == []
      ensures Valid() && this.input == input && fresh(rawData) && fresh(chunkData)
      ensures delivered == [] && !error && !closed
    {
      this.input := input;
      trailers, chunkSize, chunkRead := map[], 0, 0;
      chunkData, chunkPos, chunkCount := new byte[4096], 0, 0;
      rawData, rawPos, rawCount := new byte[32], 0, 0;
      error, closed, phase := false, false, AwaitingHeader;
      delivered, machine := [], INIT;
      new;
      assert Snapshot() == INIT;
    }

    /** The private buffers are only ever replaced by new ones. */
    twostate predicate OwnBuffers()
      reads this
    {
      && (rawData == old(rawData) || fresh(rawData))
      && (chunkData == old(chunkData) || fresh(chunkData))
    }

    method EnsureRawAvailable(size: nat)
      requires Buffers()
      modifies `rawData, `rawPos, `rawCount, rawData
      ensures Buffers() && rawCount + size <= rawData.Length
      ensures Raw() == old(Raw())
      ensures rawData == old(rawData) || fresh(rawData)
    {
      if rawCount + size > rawData.Length {
        var used := rawCount - rawPos;
        if used + size > rawData.Length {
          var tmp := new byte[used + size];
          ArrayCopy(rawData, rawPos, tmp, 0, used);
          rawData := tmp;
        } else {
          ArrayCopy(rawData, rawPos, rawData, 0, used);
        }
        rawCount := used;
        rawPos := 0;
      }
    }

    /** Makes room in `chunkData` for `copyLen` more octets. */
    method EnsureChunkSpace(copyLen: nat)
      requires Buffers()
      modifies `chunkData, `chunkPos, `chunkCount, chunkData
      ensures Buffers() && chunkCount + copyLen <= chunkData.Length
      ensures Buffered() == old(Buffered())
      ensures chunkData == old(chunkData) || fresh(chunkData)
      ensures chunkPos == old(chunkPos) || chunkPos == 0
    {
      if chunkData.Length < chunkCount + copyLen {
        var cnt := chunkCount - chunkPos;
        if chunkData.Length < cnt + copyLen {
          var tmp := new byte[cnt + copyLen];
          ArrayCopy(chunkData, chunkPos, tmp, 0, cnt);
          chunkData := tmp;
        } else {
          ArrayCopy(chunkData, chunkPos, chunkData, 0, cnt);
        }
        chunkPos := 0;
        chunkCount := cnt;
      }
    }

    /** The index of the first line feed in the raw octets, or rawCount. */
    method FindLineFeed() returns (pos: nat)
      requires Buffers()
      ensures rawPos <= pos <= rawCount
      ensures FirstLineFeed(Raw(), pos - rawPos)
    {
      pos := rawPos;
      while pos < rawCount && rawData[pos] != LF
        invariant rawPos <= pos <= rawCount
        invariant LF !in rawData[rawPos..pos]
      {
        pos := pos + 1;
      }
      SliceSlice(rawData[..], rawPos, rawCount, pos - rawPos);
    }

    /** Drops `n` raw octets. */
    method SkipRaw(n: nat)
      requires Buffers() && n <= rawCount - rawPos
      modifies `rawPos
      ensures Buffers() && Raw() == old(Raw())[n..] && rawPos == old(rawPos) + n
    {
      SliceSlice(rawData[..], rawPos, rawCount, n);
      rawPos := rawPos + n;
    }

    /** The number of hexadecimal digits that open a header line. */
    static method CountDigits(line: seq<byte>) returns (i: nat)
      ensures i == HexCount(line)
    {
      i := 0;
      while i < |line| && HexDigit(line[i]) != -1
        invariant 0 <= i <= |line|
        invariant HexCount(line) == i + HexCount(line[i..])
      {
        assert line[i..][1..] == line[i + 1..];
        i := i + 1;
      }
    }

    /** The size on the header line that ends with the line feed at `pos`. */
    method ReadSize(pos: nat) returns (size: Option<nat>)
      requires Buffers() && rawPos <= pos < rawCount
      ensures size == HeaderSize(Raw()[..pos - rawPos + 1])
    {
      SliceSlice(rawData[..], rawPos, rawCount, pos - rawPos + 1);
      var line := rawData[rawPos..pos + 1];
      var digits := CountDigits(line);
      size := ParseSize(line[..digits]);
    }

    /** STATE_AWAITING_CHUNK_HEADER; `k` is the length of the header before its line feed. */
    method ParseHeader() returns (go: bool, r: Option<Fault>, ghost k: nat)
      requires Buffers()
      modifies `phase, `chunkSize, `chunkRead, `rawPos, `error
      ensures Buffers() && FirstLineFeed(old(Raw()), k)
      ensures go == (k < |old(Raw())| && HeaderSize(old(Raw())[..k + 1]).Some?)
      ensures r == if k < |old(Raw())| && !go then Some(BogusChunkSize) else None
      ensures error == (old(error) || r.Some?)
      ensures !go ==> unchanged(`phase, `chunkSize, `chunkRead, `rawPos)
      ensures go ==> chunkSize == HeaderSize(old(Raw())[..k + 1]).value && chunkRead == 0
                     && phase == (if chunkSize > 0 then ReadingChunk else AwaitingTrailers)
                     && Raw() == old(Raw())[k + 1..] && rawPos == old(rawPos) + k + 1
    {
      var pos := FindLineFeed();
      k := pos - rawPos;
      if pos >= rawCount {
        return false, None, k;
      }
      var size := ReadSize(pos);
      if size.None? {
        error := true;
        return false, Some(BogusChunkSize), k;
      }
      chunkSize := size.value;
      SkipRaw(pos + 1 - rawPos);
      chunkRead := 0;
      phase := if chunkSize > 0 then ReadingChunk else AwaitingTrailers;
      return true, None, k;
    }

    /** STATE_READING_CHUNK, with at least one raw octet. */
    method CopyChunk() returns (copyLen: nat)
      requires Buffers() && chunkRead < chunkSize && rawPos < rawCount
      modifies `phase, `chunkRead, `rawPos, `chunkData, `chunkPos, `chunkCount, chunkData
      ensures Buffers() && (chunkData == old(chunkData) || fresh(chunkData))
      ensures copyLen == Min(chunkSize - old(chunkRead), |old(Raw())|) > 0
      ensures Buffered() == old(Buffered()) + old(Raw())[..copyLen]
      ensures Raw() == old(Raw())[copyLen..] && rawPos == old(rawPos) + copyLen
      ensures chunkRead == old(chunkRead) + copyLen
      ensures phase == if chunkRead >= chunkSize then AwaitingEol else old(phase)
      ensures old(chunkPos) == 0 ==> chunkPos == 0
    {
      copyLen := Min(chunkSize - chunkRead, rawCount - rawPos);
      ghost var raw, buffered := Raw(), Buffered();
      EnsureChunkSpace(copyLen);
      assert Raw() == raw && Buffered() == buffered;
      AppendChunkData(copyLen);
      assert Buffered() == buffered + raw[..copyLen];
      if chunkSize - chunkRead <= 0 {
        phase := AwaitingEol;
      }
    }

    /** Copies raw octets behind the decoded ones and advances the three counters. */
    method AppendChunkData(copyLen: nat)
      requires Buffers() && copyLen <= rawCount - rawPos && chunkCount + copyLen <= chunkData.Length
      modifies `rawPos, `chunkCount, `chunkRead, chunkData
      ensures Buffers()
      ensures rawPos == old(rawPos) + copyLen && chunkCount == old(chunkCount) + copyLen
      ensures chunkRead == old(chunkRead) + copyLen
      ensures Buffered() == old(Buffered()) + old(Raw())[..copyLen]
      ensures Raw() == old(Raw())[copyLen..]
    {
      ghost var raw, was, end := rawData[..], chunkData[..], chunkCount + copyLen;
      SliceSlice(raw, rawPos, rawCount, copyLen);
      ArrayCopy(rawData, rawPos, chunkData, chunkCount, copyLen);
      ghost var now := chunkData[..];
      assert now[chunkPos..chunkCount] == was[chunkPos..chunkCount];
      assert now[chunkCount..end] == raw[rawPos..rawPos + copyLen];
      JoinSlices(now, chunkPos, chunkCount, end);
      assert rawData[..] == raw;
      rawPos := rawPos + copyLen;
      chunkCount := chunkCount + copyLen;
      chunkRead := chunkRead + copyLen;
      assert Buffered() == now[chunkPos..chunkCount] && Raw() == raw[rawPos..rawCount];
    }

    lemma JoinSlices(s: seq<byte>, lo: nat, mid: nat, hi: nat)
      requires lo <= mid <= hi <= |s|
      ensures s[lo..hi] == s[lo..mid] + s[mid..hi]
    {
    }

    /** STATE_AWAITING_CHUNK_EOL */
    method ParseEol() returns (go: bool, r: Option<Fault>)
      requires Buffers()
      modifies `phase, `rawPos, `error
      ensures Buffers()
      ensures if |old(Raw())| < 2 then !go && r.None?
              else if old(Raw())[0] != CR then !go && r == Some(MissingCR)
              else if old(Raw())[1] != LF then !go && r == Some(MissingLF)
              else go && r.None?
      ensures !go ==> unchanged(`phase, `rawPos)
      ensures go ==> phase.AwaitingHeader? && Raw() == old(Raw())[2..] && rawPos == old(rawPos) + 2
      ensures error == (old(error) || r.Some?)
    {
      if rawPos + 1 >= rawCount {
        return false, None;
      }
      if rawData[rawPos] != CR {
        error := true;
        return false, Some(MissingCR);
      }
      if rawData[rawPos + 1] != LF {
        error := true;
        return false, Some(MissingLF);
      }
      SkipRaw(2);
      phase := AwaitingHeader;
      return true, None;
    }

    /** What is wrong with the trailer line that ends before `pos`, if anything. */
    method CheckTrailer(pos: nat) returns (f: Option<Fault>)
      requires Buffers() && rawPos <= pos < rawCount
      ensures f == TrailerFault(Raw()[..pos - rawPos])
    {
      SliceSlice(rawData[..], rawPos, rawCount, pos - rawPos);
      if pos == rawPos || rawData[pos - 1] != CR {
        return Some(LineWithoutCR);
      }
      var line := rawData[rawPos..pos];
      if pos != rawPos + 1 && COLON !in line {
        return Some(MalformedTrailer);
      }
      return None;
    }

    /** Stores the trailer that ends before `pos` and moves on behind its line feed. */
    method TakeTrailer(pos: nat)
      requires Buffers() && rawPos <= pos < rawCount && COLON in Raw()[..pos - rawPos]
      modifies `rawPos, `trailers
      ensures Buffers() && trailers == PutTrailer(old(trailers), old(Raw())[..pos - old(rawPos)])
      ensures Raw() == old(Raw())[pos - old(rawPos) + 1..] && rawPos == pos + 1
    {
      SliceSlice(rawData[..], rawPos, rawCount, pos - rawPos);
      trailers := PutTrailer(trailers, rawData[rawPos..pos]);
      SkipRaw(pos + 1 - rawPos);
    }

    /** STATE_AWAITING_TRAILERS; a malformed trailer is thrown without setting `error`. */
    method ParseTrailer() returns (go: bool, r: Option<Fault>, ghost k: nat)
      requires Buffers()
      modifies `phase, `rawPos, `error, `trailers
      ensures Buffers() && FirstLineFeed(old(Raw()), k)
      ensures k == |old(Raw())| ==> !go && r.None? && unchanged(this)
      ensures k < |old(Raw())| ==> r == TrailerFault(old(Raw())[..k])
      ensures k < |old(Raw())| && r.None? ==>
                if k == 1 then !go && phase.Done? && unchanged(`rawPos, `trailers)
                else go && phase == old(phase) && COLON in old(Raw())[..k]
                     && trailers == PutTrailer(old(trailers), old(Raw())[..k])
                     && Raw() == old(Raw())[k + 1..] && rawPos == old(rawPos) + k + 1
      ensures r.Some? ==> !go && unchanged(`phase, `rawPos, `trailers)
      ensures error == (old(error) || (r.Some? && r != Some(MalformedTrailer)))
    {
      var pos := FindLineFeed();
      k := pos - rawPos;
      if pos >= rawCount {
        return false, None, k;
      }
      r := CheckTrailer(pos);
      if r.Some? {
        if r != Some(MalformedTrailer) {
          error := true;
        }
        return false, r, k;
      }
      if pos == rawPos + 1 {
        phase := Done;
        return false, None, k;
      }
      TakeTrailer(pos);
      return true, None, k;
    }

    /** What the reference machine makes of the raw octets, from the current token on. */
    ghost function Pending(): Machine
      requires Buffers()
      reads this, rawData, chunkData
    {
      Run(Blank(Snapshot()), Raw())
    }

    /** A pass over the raw octets is on its way to `goal`, or has got there. */
    ghost predicate Step(go: bool, r: Option<Fault>, goal: Machine)
      reads this, rawData, chunkData
    {
      && Buffers()
      && (phase.ReadingChunk? ==> chunkRead < chunkSize)
      && (if go then r.None? && Pending() == goal else Snapshot().(fault := r) == goal)
    }

    method ProcessHeader(ghost goal: Machine) returns (go: bool, r: Option<Fault>)
      requires Step(true, None, goal) && phase.AwaitingHeader?
      modifies `phase, `chunkSize, `chunkRead, `rawPos, `error
      ensures Step(go, r, goal) && (go ==> old(rawPos) < rawPos) && (!go ==> !phase.ReadingChunk?)
      ensures error == (old(error) || r.Some?) && r != Some(MalformedTrailer)
    {
      ghost var m, raw, k := Blank(Snapshot()), Raw(), 0;
      go, r, k := ParseHeader();
      HeaderBatch(m, raw, k);
    }

    method ProcessChunk(ghost goal: Machine) returns (go: bool)
      requires Step(true, None, goal) && phase.ReadingChunk?
      modifies `phase, `chunkRead, `rawPos, `chunkData, `chunkPos, `chunkCount, chunkData
      ensures chunkData == old(chunkData) || fresh(chunkData)
      ensures Step(go, None, goal) && (go ==> old(rawPos) < rawPos) && (!go ==> rawPos == rawCount)
      ensures old(chunkPos) == 0 ==> chunkPos == 0
    {
      if rawPos >= rawCount {
        return false;
      }
      ghost var m, raw, before := Blank(Snapshot()), Raw(), Buffered();
      var copyLen := CopyChunk();
      DataBatch(m, raw, copyLen);
      assert delivered + (before + raw[..copyLen]) == delivered + before + raw[..copyLen];
      go := phase == AwaitingEol;
    }

    method ProcessEol(ghost goal: Machine) returns (go: bool, r: Option<Fault>)
      requires Step(true, None, goal) && phase.AwaitingEol?
      modifies `phase, `rawPos, `error
      ensures Step(go, r, goal) && (go ==> old(rawPos) < rawPos) && !phase.ReadingChunk?
      ensures error == (old(error) || r.Some?) && r != Some(MalformedTrailer)
    {
      ghost var m, raw := Blank(Snapshot()), Raw();
      go, r := ParseEol();
      EolBatch(m, raw);
    }

    method ProcessTrailer(ghost goal: Machine) returns (go: bool, r: Option<Fault>)
      requires Step(true, None, goal) && phase.AwaitingTrailers?
      modifies `phase, `rawPos, `error, `trailers
      ensures Step(go, r, goal) && (go ==> old(rawPos) < rawPos) && !phase.ReadingChunk?
      ensures error == (old(error) || (r.Some? && r != Some(MalformedTrailer)))
    {
      ghost var m, raw, k := Blank(Snapshot()), Raw(), 0;
      go, r, k := ParseTrailer();
      assert goal == Run(m, raw);
      TrailerBatch(m, raw, k);
      if go {
        assert Blank(Snapshot()) == m.(trailers := PutTrailer(m.trailers, raw[..k])) && Raw() == raw[k + 1..];
      } else {
        assert Raw() == raw;
      }
    }

    /** One round of the parser: the case of the current state. */
    method ProcessToken(ghost goal: Machine) returns (go: bool, r: Option<Fault>)
      requires Step(true, None, goal) && !phase.Done?
      modifies `phase, `chunkSize, `chunkRead, `rawPos, `error, `trailers,
               `chunkData, `chunkPos, `chunkCount, chunkData
      ensures chunkData == old(chunkData) || fresh(chunkData)
      ensures Step(go, r, goal) && (go ==> old(rawPos) < rawPos)
      ensures phase.ReadingChunk? && !go ==> rawPos == rawCount
      ensures error == (old(error) || (r.Some? && r != Some(MalformedTrailer)))
      ensures old(chunkPos) == 0 ==> chunkPos == 0
    {
      r := None;
      match phase {
        case AwaitingHeader => go, r := ProcessHeader(goal);
        case ReadingChunk => go := ProcessChunk(goal);
        case AwaitingEol => go, r := ProcessEol(goal);
        case AwaitingTrailers => go, r := ProcessTrailer(goal);
      }
    }

    /**
     * Parses whatever the raw buffer holds: exactly what the reference machine makes of those
     * octets, fed one at a time.
     */
    method ProcessRaw() returns (r: Option<Fault>)
      requires Buffers() && (phase.ReadingChunk? ==> chunkRead < chunkSize)
      modifies `phase, `chunkSize, `chunkRead, `rawPos, `error, `trailers,
               `chunkData, `chunkPos, `chunkCount, chunkData
      ensures chunkData == old(chunkData) || fresh(chunkData)
      ensures Step(false, r, old(Pending()))
      ensures phase.ReadingChunk? ==> rawPos == rawCount
      ensures error == (old(error) || (r.Some? && r != Some(MalformedTrailer)))
      ensures old(chunkPos) == 0 ==> chunkPos == 0
    {
      ghost var goal := Pending();
      var go := true;
      r := None;
      while go && phase != Done
        invariant chunkData == old(chunkData) || fresh(chunkData)
        invariant Step(go, r, goal)
        invariant phase.ReadingChunk? && !go ==> rawPos == rawCount
        invariant error == (old(error) || (r.Some? && r != Some(MalformedTrailer)))
        invariant old(chunkPos) == 0 ==> chunkPos == 0
        decreases go, rawCount - rawPos
      {
        go, r := ProcessToken(goal);
      }
      if go {
        RunStuck(Blank(Snapshot()), Raw());
        assert [] + Raw() == Raw();
      }
    }

    // ---------------------------------------------------------------- reading ahead

    /** Everything the source has handed out or will hand out before its next end or failure. */
    ghost function All(): seq<byte>
      reads input
    {
      input.taken + Supply(input.script)
    }

    /**
     * One read of at most `n` octets into the raw buffer, and the parsing of what arrived: the
     * part that the blocking and the non-blocking read-ahead share.
     */
    method ReceiveRaw(n: nat) returns (a: Answer, r: Option<Fault>)
      requires Valid() && 0 < n && rawCount + n <= rawData.Length
      modifies this, rawData, chunkData, input`script, input`taken, input`ends
      ensures old(input.taken) <= input.taken
      ensures Valid() && OwnBuffers() && delivered == old(delivered) && closed == old(closed)
      ensures a.Count? ==> All() == old(All()) && r == machine.fault
      ensures a.Count? ==> Budget(input.script) < old(Budget(input.script))
      ensures !a.Count? ==> error && old(All()) == input.taken == old(input.taken) && phase == old(phase)
      ensures !a.Count? ==> chunkCount == old(chunkCount) && Buffered() == old(Buffered())
      ensures error == (old(error) || !a.Count? || (r.Some? && r != Some(MalformedTrailer)))
      ensures input.ends == old(input.ends) + (if a.AtEnd? then 1 else 0)
      ensures !a.Count? ==> machine == old(machine)
      ensures old(chunkPos) == 0 ==> chunkPos == 0
    {
      ghost var was, got := input.taken, [];
      a, got := FetchRaw(n);
      assert Snapshot().(fault := machine.fault) == machine.(pending := machine.pending + got);
      if a.Count? {
        r := ParseReceived(was, got);
      } else {
        NothingReceived(was, got);
        r := None;
      }
    }

    /** The source ended or failed: the decoder stays where it was. */
    method NothingReceived(ghost was: seq<byte>, ghost got: seq<byte>)
      requires Buffers() && (phase.ReadingChunk? ==> rawPos == rawCount && chunkRead < chunkSize)
      requires machine == Run(INIT, was) && input.taken == was && got == []
      requires Snapshot().(fault := machine.fault) == machine.(pending := machine.pending + got)
      modifies `error
      ensures Valid() && error
    {
      assert machine.pending + got == machine.pending;
      error := true;
    }

    /** `processRaw` right after `got` was added to the raw octets, `was` being taken before. */
    method ParseReceived(ghost was: seq<byte>, ghost got: seq<byte>) returns (r: Option<Fault>)
      requires Buffers() && (phase.ReadingChunk? ==> chunkRead < chunkSize)
      requires machine == Run(INIT, was) && input.taken == was + got
      requires Snapshot().(fault := machine.fault) == machine.(pending := machine.pending + got)
      modifies `phase, `chunkSize, `chunkRead, `rawPos, `error, `trailers, `machine,
               `chunkData, `chunkPos, `chunkCount, chunkData
      ensures Valid() && (chunkData == old(chunkData) || fresh(chunkData))
      ensures r == machine.fault
      ensures error == (old(error) || (r.Some? && r != Some(MalformedTrailer)))
      ensures old(chunkPos) == 0 ==> chunkPos == 0
    {
      Absorbed(was, got);
      assert Blank(Snapshot()) == Blank(machine);
      machine := Run(machine, got);
      r := ProcessRaw();
    }

    /** `in.read(rawData, rawCount, n)` and the advance of `rawCount`. */
    method FetchRaw(n: nat) returns (a: Answer, ghost got: seq<byte>)
      requires Buffers() && 0 < n && rawCount + n <= rawData.Length
      modifies `rawCount, rawData, input`script, input`taken, input`ends
      ensures old(input.taken) <= input.taken
      ensures Buffers() && Buffered() == old(Buffered())
      ensures Snapshot() == old(Snapshot()).(pending := old(Raw()) + got) && rawCount == old(rawCount) + |got|
      ensures input.taken == old(input.taken) + got
      ensures a.Count? ==> All() == old(All()) && Budget(input.script) < old(Budget(input.script))
      ensures !a.Count? ==> got == [] && old(All()) == input.taken
      ensures input.ends == old(input.ends) + (if a.AtEnd? then 1 else 0)
    {
      ghost var raw, was := Raw(), input.taken;
      a := input.Read(rawData, rawCount, n);
      assert rawData[rawPos..rawCount] == raw;
      got := [];
      if a.Count? {
        got := rawData[rawCount..rawCount + a.n];
        assert was + got + Supply(input.script) == was + (got + Supply(input.script));
        assert rawData[rawPos..rawCount + a.n] == rawData[rawPos..rawCount] + got;
        rawCount := rawCount + a.n;
      }
    }

    /** Feeding new octets to the machine is feeding the pending and the new ones from its token on. */
    lemma {:induction false} Absorbed(taken: seq<byte>, got: seq<byte>)
      ensures var m := Run(INIT, taken);
              && Run(m, got) == Run(INIT, taken + got)
              && Run(Blank(m), m.pending + got) == Run(m, got)
    {
      var m := Run(INIT, taken);
      RunConcat(INIT, taken, got);
      RunCoherent(INIT, taken);
      RunConcat(Blank(m), m.pending, got);
    }

    /** The answers that set the error flag: every exception but the one for a malformed trailer. */
    predicate SetsError(r: Result) {
      r.Raised? && (r.error.SourceFailure? || r.error.PrematureEof? || (r.error.Framing? && r.error.fault != MalformedTrailer))
    }

    /** The source ended or failed, which the machine does not see. */
    ghost predicate Starves(r: Result) {
      r.Raised? && (r.error.SourceFailure? || r.error.PrematureEof?)
    }

    method ReadAheadNonBlocking() returns (r: Result)
      requires Valid() && !phase.Done?
      modifies this, rawData, chunkData, input
      ensures old(input.taken) <= input.taken
      ensures Valid() && OwnBuffers() && delivered == old(delivered) && closed == old(closed)
      ensures r.Value? ==> r.n == |Buffered()|
      ensures r.Raised? && r.error.Framing? ==> machine.fault == Some(r.error.fault)
      ensures r.Raised? ==> r.error.Framing? || r.error.SourceFailure?
      ensures r.Eof? || (r.Raised? && r.error.SourceFailure?) ==> input.taken == old(All()) && !phase.Done?
      ensures r.Eof? ==> Buffered() == old(Buffered())
      ensures error == (old(error) || r.Eof? || SetsError(r)) && (r.Eof? <==> input.ends > old(input.ends))
      ensures r.Value? || (r.Raised? && r.error.Framing?) ==> All() == old(All())
    {
      var avail := input.Available();
      if avail > 0 {
        EnsureRawAvailable(avail);
        var a, f := ReceiveRaw(avail);
        if a.Broken? {
          return Raised(SourceFailure);
        }
        if a.AtEnd? {
          return Eof;
        }
        if f.Some? {
          return Raised(Framing(f.value));
        }
      }
      return Value(chunkCount - chunkPos);
    }

    method ReadAheadBlocking() returns (r: Result)
      requires Valid() && chunkPos == 0 && chunkCount == 0
      modifies this, rawData, chunkData, input`script, input`taken, input`ends
      ensures old(input.taken) <= input.taken
      ensures Valid() && OwnBuffers() && delivered == old(delivered) && closed == old(closed)
      ensures r.Value? ==> r.n == |Buffered()| > 0
      ensures r.Eof? ==> phase.Done? && Buffered() == []
      ensures error == (old(error) || SetsError(r)) && (Starves(r) ==> machine.fault.None? || old(machine.fault).Some?)
      ensures r.Raised? && r.error.Framing? ==> machine.fault == Some(r.error.fault)
      ensures r.Raised? ==> r.error.Framing? || r.error.SourceFailure? || r.error.PrematureEof?
      ensures r.Raised? && !r.error.Framing? ==> input.taken == old(All()) && !phase.Done?
      ensures !r.Raised? || r.error.Framing? ==> All() == old(All())
    {
      while true
        invariant Valid() && OwnBuffers() && delivered == old(delivered) && closed == old(closed)
        invariant chunkPos == 0 && chunkCount == 0 && All() == old(All()) && old(input.taken) <= input.taken
        invariant error == old(error) && (machine.fault.None? || old(machine.fault).Some?)
        decreases Budget(input.script)
      {
        if phase == Done {
          return Eof;
        }
        var go;
        go, r := ReadRound();
        if !go {
          return r;
        }
      }
    }

    /** One round of the loop: a read of the source, and what it led to. */
    method ReadRound() returns (go: bool, r: Result)
      requires Valid() && chunkPos == 0 && chunkCount == 0 && !phase.Done?
      modifies this, rawData, chunkData, input`script, input`taken, input`ends
      ensures old(input.taken) <= input.taken
      ensures Valid() && OwnBuffers() && delivered == old(delivered) && closed == old(closed)
      ensures go ==> chunkPos == 0 && chunkCount == 0 && All() == old(All()) && machine.fault.None? && error == old(error)
      ensures go ==> Budget(input.script) < old(Budget(input.script))
      ensures !go ==> !r.Eof? && error == (old(error) || SetsError(r))
      ensures !go && r.Value? ==> r.n == |Buffered()| > 0
      ensures !go && r.Raised? ==> r.error.Framing? || Starves(r)
      ensures !go && r.Raised? && r.error.Framing? ==> machine.fault == Some(r.error.fault)
      ensures !go && Starves(r) ==> input.taken == old(All()) && !phase.Done? && machine.fault == old(machine.fault)
      ensures !go && !Starves(r) ==> All() == old(All())
    {
      EnsureRawAvailable(32);
      var a, f := ReceiveRaw(rawData.Length - rawCount);
      if a.Broken? {
        return false, Raised(SourceFailure);
      }
      if a.AtEnd? {
        return false, Raised(PrematureEof);
      }
      if f.Some? {
        return false, Raised(Framing(f.value));
      }
      return chunkCount == 0, Value(chunkCount - chunkPos);
    }

    method ReadAhead(allowBlocking: bool) returns (r: Result)
      requires Valid() && chunkPos >= chunkCount
      modifies this, rawData, chunkData, input
      ensures old(input.taken) <= input.taken
      ensures Valid() && OwnBuffers() && delivered == old(delivered) && closed == old(closed)
      ensures r.Value? ==> r.n == |Buffered()| && (allowBlocking ==> r.n > 0)
      ensures r.Eof? ==> Buffered() == [] && (allowBlocking ==> phase.Done?)
      ensures r.Raised? && r.error.Framing? ==> machine.fault == Some(r.error.fault)
      ensures r.Raised? ==> r.error.Framing? || r.error.SourceFailure? || r.error.PrematureEof?
      ensures r.Raised? && r.error.PrematureEof? ==> allowBlocking
      ensures allowBlocking ==> error == (old(error) || SetsError(r)) && (Starves(r) ==> machine.fault.None? || old(machine.fault).Some?)
      ensures !allowBlocking ==>
                error == (old(error) || SetsError(r) || input.ends > old(input.ends)) && (input.ends > old(input.ends) ==> r.Eof?)
      ensures r.Raised? && !r.error.Framing? ==> input.taken == old(All()) && !phase.Done?
      ensures !r.Raised? || r.error.Framing? ==>
                All() == old(All()) || (!allowBlocking && r.Eof? && input.taken == old(All()))
    {
      if phase == Done {
        return Eof;
      }
      assert Buffered() == [];
      chunkCount := 0;
      chunkPos := 0;
      assert Buffered() == [];
      if allowBlocking {
        r := ReadAheadBlocking();
      } else {
        r := ReadAheadNonBlocking();
      }
    }

    // ---------------------------------------------------------------- public calls

    /**
     * The shortcut: inside a chunk with both buffers empty, octets go straight from the source to
     * the caller.
     */
    method FastRead(b: array<byte>, off: nat, len: nat) returns (r: Result)
      requires Valid() && phase.ReadingChunk? && Buffered() == []
      requires 0 < len && off + len <= b.Length && b != rawData && b != chunkData
      modifies `chunkRead, `phase, `error, `delivered, `machine, input`script, input`taken, input`ends, b
      ensures old(input.taken) <= input.taken
      ensures Valid()
      ensures r.Value? ==> 0 < r.n <= len && delivered == old(delivered) + b[off..off + r.n]
      ensures !r.Value? ==> Starves(r) && machine == old(machine)
      ensures error == (old(error) || SetsError(r))
      ensures !r.Value? ==> delivered == old(delivered) && input.taken == old(All()) && phase == old(phase)
      ensures forall i :: 0 <= i < b.Length && !(r.Value? && off <= i < off + r.n) ==> b[i] == old(b[i])
      ensures r.Value? ==> All() == old(All())
    {
      var remaining := chunkSize - chunkRead;
      var cnt := if remaining < len then remaining else len;
      ghost var was := input.taken;
      var a := FetchDirect(b, off, cnt);
      match a {
        case Broken =>
          error := true;
          return Raised(SourceFailure);
        case AtEnd =>
          error := true;
          return Raised(PrematureEof);
        case Count(nread) =>
          CountDirect(nread, was, b[off..off + nread]);
          return Value(nread);
      }
    }

    /** A read of the source straight into the caller's array, which leaves the decoder alone. */
    method FetchDirect(b: array<byte>, off: nat, n: nat) returns (a: Answer)
      requires Buffers() && 0 < n && off + n <= b.Length && b != rawData && b != chunkData
      modifies input`script, input`taken, input`ends, b
      ensures Buffers() && Snapshot() == old(Snapshot()) && Buffered() == old(Buffered())
      ensures a.Count? ==> 0 < a.n <= n && input.taken == old(input.taken) + b[off..off + a.n] && All() == old(All())
      ensures !a.Count? ==> input.taken == old(input.taken) == old(All())
      ensures forall i :: 0 <= i < b.Length && !(a.Count? && off <= i < off + a.n) ==> b[i] == old(b[i])
    {
      ghost var was := input.taken;
      a := input.Read(b, off, n);
      if a.Count? {
        var got := b[off..off + a.n];
        assert was + got + Supply(input.script) == was + (got + Supply(input.script));
      }
    }

    /** Counts octets of the chunk that went straight to the caller. */
    method CountDirect(nread: nat, ghost was: seq<byte>, ghost got: seq<byte>)
      requires Buffers() && phase.ReadingChunk? && rawPos == rawCount && Buffered() == []
      requires nread == |got| <= chunkSize - chunkRead && chunkRead < chunkSize
      requires machine == Run(INIT, was) && input.taken == was + got
      requires Snapshot().(fault := machine.fault) == machine
      modifies `chunkRead, `phase, `delivered, `machine
      ensures Valid() && delivered == old(delivered) + got
    {
      RunConcat(INIT, was, got);
      RunCoherent(INIT, was);
      RunData(machine, got);
      assert delivered + Buffered() == delivered;
      assert delivered + got + Buffered() == delivered + got;
      machine := Run(machine, got);
      delivered := delivered + got;
      chunkRead := chunkRead + nread;
      if chunkRead >= chunkSize {
        phase := AwaitingEol;
      }
    }

    /** Accounts for `cnt` buffered octets as delivered. */
    method Consume(cnt: nat)
      requires Valid() && cnt <= chunkCount - chunkPos
      modifies `chunkPos, `delivered
      ensures Valid() && delivered == old(delivered) + old(Buffered())[..cnt]
    {
      ghost var d, buffered := delivered, Buffered();
      SliceSlice(chunkData[..], chunkPos, chunkCount, cnt);
      SplitBehind(d, buffered, cnt);
      delivered := delivered + buffered[..cnt];
      chunkPos := chunkPos + cnt;
      assert Buffered() == buffered[cnt..];
    }

    lemma SplitBehind(d: seq<byte>, s: seq<byte>, n: nat)
      requires n <= |s|
      ensures d + s == d + s[..n] + s[n..]
    {
      assert s == s[..n] + s[n..];
    }

    /** Copies `cnt` buffered octets to the caller. */
    method Deliver(b: array<byte>, off: nat, cnt: nat)
      requires Valid() && cnt <= chunkCount - chunkPos && off + cnt <= b.Length
      requires b != rawData && b != chunkData
      modifies `chunkPos, `delivered, b
      ensures Valid() && delivered == old(delivered) + b[off..off + cnt]
      ensures forall i :: 0 <= i < b.Length && !(off <= i < off + cnt) ==> b[i] == old(b[i])
    {
      SliceSlice(chunkData[..], chunkPos, chunkCount, cnt);
      ArrayCopy(chunkData, chunkPos, b, off, cnt);
      Consume(cnt);
    }

    /** The blocking read-ahead answers honestly. */
    method AwaitData() returns (r: Result)
      requires Valid() && chunkPos >= chunkCount && !closed
      modifies this, rawData, chunkData, input
      ensures old(input.taken) <= input.taken
      ensures Valid() && OwnBuffers() && delivered == old(delivered) && closed == old(closed)
      ensures r.Value? ==> r.n == |Buffered()| > 0
      ensures r.Raised? ==> !r.error.StreamClosed? && !r.error.OutOfBounds?
      ensures Honest(r, old(All()))
      ensures error == (old(error) || SetsError(r)) && (Starves(r) ==> machine.fault.None? || old(machine.fault).Some?)
    {
      r := ReadAhead(true);
      if r.Eof? {
        assert delivered + Buffered() == delivered;
      }
    }

    /** `read()` */
    method Read() returns (r: Result)
      requires Valid()
      modifies this, rawData, chunkData, input
      ensures old(input.taken) <= input.taken
      ensures Valid() && OwnBuffers() && closed == old(closed)
      ensures r.Value? ==> r.n < 256 && delivered == old(delivered) + [r.n]
      ensures !r.Value? ==> delivered == old(delivered)
      ensures Honest(r, old(All())) && r != Raised(OutOfBounds)
      ensures error == (old(error) || SetsError(r)) && (Starves(r) ==> machine.fault.None? || old(machine.fault).Some?)
    {
      if closed {
        return Raised(StreamClosed);
      }
      if chunkPos >= chunkCount {
        r := AwaitData();
        if !r.Value? {
          return r;
        }
      }
      r := Value(chunkData[chunkPos]);
      ghost var first := Buffered()[..1];
      assert |first| == 1 && first[0] == Buffered()[0] == chunkData[chunkPos];
      assert first == [chunkData[chunkPos]];
      Consume(1);
    }

    /**
     * What an answer means.  The end is only answered once the machine is done and everything
     * decoded was delivered; an exception names its cause; and unless the source ended or failed
     * too early, nothing of the input was dropped.
     */
    ghost predicate Honest(r: Result, all: seq<byte>)
      reads this, input
    {
      match r
      case Value(_) => !closed && All() == all
      case Eof => !closed && All() == all && machine.phase.Done? && delivered == machine.payload
      case Raised(StreamClosed) => closed && All() == all
      case Raised(OutOfBounds) => !closed && All() == all
      case Raised(Framing(f)) => !closed && All() == all && machine.fault == Some(f)
      case Raised(_) => !closed && input.taken == all && !machine.phase.Done?
    }

    /** `read(b, off, len)` */
    method ReadInto(b: array<byte>, off: int, len: int) returns (r: Result)
      requires Valid() && b != rawData && b != chunkData
      modifies this, rawData, chunkData, input, b
      ensures old(input.taken) <= input.taken
      ensures Valid() && OwnBuffers() && closed == old(closed)
      ensures r.Value? ==> 0 <= off && r.n <= len && off + len <= b.Length && (r.n == 0 <==> len == 0)
      ensures r.Value? ==> delivered == old(delivered) + b[off..off + r.n]
      ensures !r.Value? ==> delivered == old(delivered)
      ensures forall i :: 0 <= i < b.Length && !(r.Value? && off <= i < off + r.n) ==> b[i] == old(b[i])
      ensures r == Raised(OutOfBounds) <==> !closed && !(0 <= off && 0 <= len && off + len <= b.Length)
      ensures Honest(r, old(All()))
      ensures error == (old(error) || SetsError(r)) && (Starves(r) ==> machine.fault.None? || old(machine.fault).Some?)
    {
      if closed {
        return Raised(StreamClosed);
      }
      if off < 0 || off > b.Length || len < 0 || off + len > b.Length {
        return Raised(OutOfBounds);
      } else if len == 0 {
        return Value(0);
      }
      r := ReadSome(b, off, len);
    }

    /** The part of `read(b, off, len)` behind its checks. */
    method ReadSome(b: array<byte>, off: nat, len: nat) returns (r: Result)
      requires Valid() && !closed && b != rawData && b != chunkData && 0 < len && off + len <= b.Length
      modifies this, rawData, chunkData, input, b
      ensures old(input.taken) <= input.taken
      ensures Valid() && OwnBuffers() && closed == old(closed)
      ensures r.Value? ==> 0 < r.n <= len && delivered == old(delivered) + b[off..off + r.n]
      ensures !r.Value? ==> delivered == old(delivered)
      ensures forall i :: 0 <= i < b.Length && !(r.Value? && off <= i < off + r.n) ==> b[i] == old(b[i])
      ensures r != Raised(OutOfBounds) && r != Raised(StreamClosed) && Honest(r, old(All()))
      ensures error == (old(error) || SetsError(r)) && (Starves(r) ==> machine.fault.None? || old(machine.fault).Some?)
    {
      var avail := chunkCount - chunkPos;
      if avail <= 0 {
        if phase == ReadingChunk {
          r := FastRead(b, off, len);
          return;
        }
        r := AwaitData();
        if !r.Value? {
          return;
        }
        avail := r.n;
      }
      var cnt := if avail < len then avail else len;
      Deliver(b, off, cnt);
      return Value(cnt);
    }

    /** `available()`: decodes what is there, delivers nothing, and answers exactly what it holds. */
    method Available() returns (r: Result)
      requires Valid()
      modifies this, rawData, chunkData, input
      ensures old(input.taken) <= input.taken
      ensures Valid() && OwnBuffers() && closed == old(closed) && delivered == old(delivered)
      ensures r.Value? ==> r.n == |Buffered()| && (All() == old(All()) || input.taken == old(All()))
      ensures r.Raised? && r.error.Framing? ==> machine.fault == Some(r.error.fault)
      ensures r.Raised? && r.error.StreamClosed? ==> closed
      // an end of the source is answered by 0, and sets the error flag all the same
      ensures error == (old(error) || SetsError(r) || input.ends > old(input.ends))
      ensures input.ends > old(input.ends) ==> r == Value(0)
      ensures r.Raised? ==> r.error.Framing? || r.error.SourceFailure? || r.error.StreamClosed?
      ensures r.Raised? && r.error.SourceFailure? ==> input.taken == old(All()) && !machine.phase.Done?
      ensures r.Raised? && !r.error.SourceFailure? ==> All() == old(All())
      ensures !r.Eof?
    {
      if closed {
        return Raised(StreamClosed);
      }
      var avail := chunkCount - chunkPos;
      if avail > 0 {
        return Value(avail);
      }
      r := ReadAhead(false);
      if r.Eof? {
        return Value(0);
      }
    }

    /** `hasError()` */
    method HasError() returns (e: bool)
      ensures e == error
    {
      return error;
    }

    /** `close()`; the source's own `close` is outside this model. */
    method Close()
      requires Valid()
      modifies `closed
      ensures Valid() && closed
    {
      closed := true;
    }
  }
}
