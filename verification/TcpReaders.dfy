/**
 * From the wire to the reader: what someone who reads a connection's stream gets, whatever the
 * interleaving of the packets with the reads.
 */
module TcpReaders {
  import opened Bytes
  import opened StreamBuffer
  import opened StreamFifo
  import opened StreamQueue
  import opened TcpPacket
  import opened TcpStream
  import opened TcpMachine
  import opened TcpRuns
  import opened TcpPrefix
  import opened TcpReorder
  import opened TcpTurns

  // ---------------------------------------------------------------- any reader

  /**
   * A run on the buffer of a stream: the calls that the connection made, in their order, with any
   * calls of a reader in between, as long as it heeds its own account; and, unless all that was
   * written fits the buffer anyway, no append refused for lack of space.
   */
  ghost predicate ReadBy(l: Log, ops: seq<Op>) {
    && FromEmpty(ops) && Writes(ops) == l.calls
    && (NothingLost(ops); |Written(l)| <= 2048000 || NeverFull(RunOps(EMPTY, ops).1))
  }

  /** The buffer and the answers of such a run. */
  ghost function ReadRun(l: Log, ops: seq<Op>): (r: (Buf, seq<Out>))
    requires ReadBy(l, ops)
    ensures Sane(r.0) && |r.1| == |ops|
  {
    NothingLost(ops); RunOps(EMPTY, ops)
  }

  /** What that reader has gone through. */
  ghost function Got(l: Log, ops: seq<Op>): seq<byte>
    requires ReadBy(l, ops)
  {
    Taken(Tally(FRESH, ops, ReadRun(l, ops).1))
  }

  /** No call of the connection is refused for lack of space, so that all of them take effect. */
  lemma {:induction false} AllTakeEffect(l: Log, ops: seq<Op>)
    requires Replays(l) && ReadBy(l, ops)
    ensures NeverFull(ReadRun(l, ops).1) && Effective(ops, ReadRun(l, ops).1) == l.calls
  {
    NothingLost(ops);
    if |Written(l)| <= 2048000 {
      ShortRun(EMPTY, NOTHING, ops);
    }
    WritesAreEffective(ops, ReadRun(l, ops).1);
  }

  /** The reader has gone through a beginning of what was written, and the rest is in the buffer. */
  lemma ReaderTakesPrefix(l: Log, ops: seq<Op>)
    requires Replays(l) && ReadBy(l, ops)
    ensures Got(l, ops) + Unread(ReadRun(l, ops).0) == Written(l)
    ensures Got(l, ops) <= Written(l)
  {
    AllTakeEffect(l, ops);
    AnyReaderGetsTheLog(ops);
  }

  /** What is needed of a connection to speak about its readers. */
  ghost predicate Sound(w: World, c: Conn) {
    Safe(w, c) && Replays(c.client.stream) && Replays(c.server.stream)
  }

  /** Every reader of either stream has gone through a beginning of what that side sent. */
  ghost predicate ReadersGetPrefix(w: World, c: Conn) {
    forall s: Side, ops: seq<Op> :: ReadBy(HalfOf(c, s).stream, ops) ==> Got(HalfOf(c, s).stream, ops) <= Content(w, s)
  }

  lemma SoundForReaders(w: World, c: Conn)
    requires Sound(w, c)
    ensures ReadersGetPrefix(w, c)
  {
    SafeIsPrefix(w, c);
    forall s: Side, ops: seq<Op> | ReadBy(HalfOf(c, s).stream, ops)
      ensures Got(HalfOf(c, s).stream, ops) <= Content(w, s)
    {
      ReaderTakesPrefix(HalfOf(c, s).stream, ops);
    }
  }

  /** A reader of a side that sends at most 2048000 octets need not care about space. */
  lemma {:induction false} ShortSide(w: World, c: Conn, s: Side, ops: seq<Op>)
    requires Sound(w, c) && |Content(w, s)| <= 2048000
    requires FromEmpty(ops) && Writes(ops) == HalfOf(c, s).stream.calls
    ensures ReadBy(HalfOf(c, s).stream, ops)
  {
    SafeIsPrefix(w, c);
    NothingLost(ops);
  }

  lemma OpenSound(w: World, p: Packet)
    requires Genuine(w, p) && IsHandshake1(p)
    ensures Sound(w, Open(p))
  {
    OpenSafe(w, p);
  }

  lemma ReceiveSound(w: World, c: Conn, p: Packet)
    requires Sound(w, c) && Genuine(w, p) && !IsHandshake1(p)
    ensures Sound(w, Receive(c, p).conn)
  {
    ReceiveSafe(w, c, p);
    ReceiveGrows(c, p);
  }

  /**
   * End to end: packets of a real connection, reordered, repeated or lost on the way, and a reader
   * of either stream with whatever calls it likes, as long as it heeds its own account.  It has always
   * gone through a beginning of what that side sent, whether the connection is still followed or not.
   */
  lemma {:induction false} WireToReader(w: World, c: Conn, trace: seq<Packet>)
    requires Sound(w, c) && GenuineTrace(w, trace)
    ensures Sound(w, ReceiveAll(c, trace)) && ReadersGetPrefix(w, ReceiveAll(c, trace))
    decreases |trace|
  {
    if trace == [] {
      SoundForReaders(w, c);
    } else {
      ReceiveSound(w, c, trace[0]);
      WireToReader(w, Receive(c, trace[0]).conn, trace[1..]);
    }
  }

  /**
   * And if all segments of a side arrive, in any order and any number of times, and then its FIN,
   * what a reader has gone through followed by what it can still read is exactly what the side sent.
   */
  lemma {:induction false} WholeConnectionRead(f: Flow, syn: Packet, synAck: Packet, ack: Packet, trace: seq<Packet>, fin: Packet, ops: seq<Op>)
    requires Handshake(f.detail, syn, synAck, ack) && StartsAfter(f, syn, synAck)
    requires Proper(f) && Covers(f, trace) && Fits(f, fin, |f.segments|) && Distinct(trace)
    requires fin.id !in {syn.id, synAck.id, ack.id}
    requires forall j :: 0 <= j < |trace| ==> trace[j].id !in {syn.id, synAck.id, ack.id} && trace[j].id != fin.id
    requires ReadBy(HalfOf(ReceiveAll(Open(syn), [synAck, ack] + (trace + [fin])), f.side).stream, ops)
    ensures var l := HalfOf(ReceiveAll(Open(syn), [synAck, ack] + (trace + [fin])), f.side).stream;
            Got(l, ops) + Unread(ReadRun(l, ops).0) == Concat(f.segments) + f.last
  {
    WholeConnection(f, syn, synAck, ack, trace, fin);
    var all := [synAck, ack] + (trace + [fin]);
    EveryTrace(Open(syn), all);
    ReaderTakesPrefix(HalfOf(ReceiveAll(Open(syn), all), f.side).stream, ops);
  }

  // ---------------------------------------------------------------- a reader that keeps the discipline

  /** Such a run in which besides the reader takes each -1 before more is appended. */
  ghost predicate HeardBy(l: Log, ops: seq<Op>) {
    OrderlyRun(ops) && Writes(ops) == l.calls && (|Written(l)| <= 2048000 || NeverFull(RunOrderly(ops).2))
  }

  lemma {:induction false} AllAreHeard(l: Log, ops: seq<Op>)
    requires Replays(l) && HeardBy(l, ops)
    ensures Effective(ops, RunOrderly(ops).2) == l.calls
  {
    EmptyStands();
    DisciplinedRun(EMPTY, NO_STREAM, ops);
    if |Written(l)| <= 2048000 {
      ShortRun(EMPTY, NOTHING, ops);
    }
    WritesAreEffective(ops, RunOrderly(ops).2);
  }

  /** The streams that reader has seen end, and its account of the next one. */
  ghost function InHand(l: Log, ops: seq<Op>): Reader
    requires HeardBy(l, ops)
  {
    HearAll(NEWCOMER, ops, RunOrderly(ops).2)
  }

  /** What is still in the buffer. */
  ghost function Left(l: Log, ops: seq<Op>): Queue
    requires HeardBy(l, ops)
  {
    RunOrderly(ops).1
  }

  /**
   * The reader went through the streams `pieces` in their order: each that ended is one of them,
   * less what the reader dropped of it, and what it has of the current one is a beginning of the next.
   */
  ghost predicate Hears(r: Reader, pieces: seq<seq<byte>>) {
    && |r.ended| <= |pieces|
    && (forall i :: 0 <= i < |r.ended| ==> pieces[i] == r.ended[i].had + r.ended[i].dropped)
    && (|r.ended| < |pieces| ==> Taken(r.now) <= pieces[|r.ended|])
  }

  /** All that the reader went through. */
  ghost function AllHeard(r: Reader): seq<seq<byte>> {
    Whole(r.ended) + (if Taken(r.now) == [] then [] else [Taken(r.now)])
  }

  lemma ReaderHearsPieces(l: Log, ops: seq<Op>)
    requires Replays(l) && HeardBy(l, ops)
    ensures Hears(InHand(l, ops), Pieces(l))
    ensures Left(l, ops).closed == [] && Left(l, ops).open == [] ==> Pieces(l) == AllHeard(InHand(l, ops))
  {
    AllAreHeard(l, ops);
    ReaderGetsTheLog(ops);
    HandfulOfPieces(InHand(l, ops), Left(l, ops), l);
  }

  lemma HandfulOfPieces(r: Reader, q: Queue, l: Log)
    requires MakesUp(r, q, l)
    ensures Hears(r, Pieces(l))
    ensures q.closed == [] && q.open == [] ==> Pieces(l) == AllHeard(r)
  {
    var n, whole := |r.ended|, Whole(r.ended);
    assert Taken(r.now) + [] == Taken(r.now);
    if q.closed == [] {
      assert Pieces(l)[..n] == whole;
      if l.open != [] {
        assert Pieces(l)[n] == Taken(r.now) + q.open;
      }
    } else {
      assert l.closed[..n] == whole && l.closed[n] == Taken(r.now) + q.closed[0];
      assert Pieces(l)[..n] == whole && Pieces(l)[n] == l.closed[n];
    }
    forall i | 0 <= i < n ensures Pieces(l)[i] == r.ended[i].had + r.ended[i].dropped {
      assert Pieces(l)[i] == Pieces(l)[..n][i];
    }
  }

  /**
   * End to end, turn by turn: in a conversation of packets in order, if every turn that was followed
   * by another had been acknowledged, the streams a disciplined reader has seen end are the turns of
   * that side, in order and whole but for what the reader itself dropped, and what it has of the
   * current one is the beginning of the next.
   */
  lemma {:induction false} ReaderHearsTurns(c: Conn, trace: seq<Packet>, s: Side, ops: seq<Op>)
    requires Quiet(c) && Conversation(c, trace) && TurnsAcknowledged(c.detail, Spoken(trace), s)
    requires HeardBy(HalfOf(ReceiveAll(c, trace), s).stream, ops)
    ensures Hears(InHand(HalfOf(ReceiveAll(c, trace), s).stream, ops), Turns(c.detail, Spoken(trace), s))
  {
    EveryTrace(c, trace);
    OneStreamPerTurnIff(c, trace, s);
    ReaderHearsPieces(HalfOf(ReceiveAll(c, trace), s).stream, ops);
  }

  /**
   * A disciplined reader that has gone through everything went through exactly the turns of that
   * side if and only if every turn that was followed by another had been acknowledged.
   */
  lemma {:induction false} ReaderHearsTurnsIff(c: Conn, trace: seq<Packet>, s: Side, ops: seq<Op>)
    requires Quiet(c) && Conversation(c, trace)
    requires HeardBy(HalfOf(ReceiveAll(c, trace), s).stream, ops)
    requires var q := Left(HalfOf(ReceiveAll(c, trace), s).stream, ops); q.closed == [] && q.open == []
    ensures AllHeard(InHand(HalfOf(ReceiveAll(c, trace), s).stream, ops)) == Turns(c.detail, Spoken(trace), s)
            <==> TurnsAcknowledged(c.detail, Spoken(trace), s)
  {
    EveryTrace(c, trace);
    OneStreamPerTurnIff(c, trace, s);
    ReaderHearsPieces(HalfOf(ReceiveAll(c, trace), s).stream, ops);
  }

  // ---------------------------------------------------------------- an old packet with something new

  /**
   * A packet is dropped as old by where it begins, not by where it ends: after the handshake the
   * server sends 10, then repeats it in a longer packet with 11 behind it, and the 11 is lost.
   */
  lemma RepackedIsLost(d: Detail, syn: Packet, synAck: Packet, ack: Packet)
    requires Handshake(d, syn, synAck, ack) && syn.sequence == 0 && synAck.sequence == 0
    requires syn.id == 0 && synAck.id == 1 && ack.id == 2
    ensures var c := ReceiveAll(Open(syn), [synAck, ack] + [Word(d, 0)]);
            && Written(c.server.stream) == [10]
            && Receive(c, Say(4, Reversed(d), 1, 1, [10, 11])) == Res(c, None)
  {
    HandshakeIsQuiet(d, syn, synAck, ack);
    HandshakeEstablishes(d, syn, synAck, ack);
    var c := ReceiveAll(Open(syn), [synAck, ack]);
    assert Below(3) == {0, 1, 2};
    GrudgingMore(d, c, 0);
    assert Grudging(d, 1) == [Word(d, 0)];
    ReceiveAllConcat(Open(syn), [synAck, ack], [Word(d, 0)]);
  }
}
