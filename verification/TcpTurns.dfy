/**
 * Turns: when the marks that a connection sets in its two streams cut each of them exactly where
 * the other side took over the conversation, and when they do not.
 */
module TcpTurns {
  import opened Bytes
  import opened TcpPacket
  import opened TcpStream
  import opened TcpMachine
  import opened TcpRuns
  import opened TcpReorder

  function By(d: Detail, p: Packet): Side {
    if p.detail == d then Client else Server
  }

  function Front(t: seq<Packet>): seq<Packet>
    requires t != []
  {
    t[..|t| - 1]
  }

  function Last(t: seq<Packet>): Packet
    requires t != []
  {
    t[|t| - 1]
  }

  // ---------------------------------------------------------------- conversations

  /** The packet is in order and may be processed at once. */
  ghost predicate InOrder(c: Conn, p: Packet) {
    !p.syn && !p.rst && !p.fin && p.id !in c.consumed && CanProcess(c, p)
  }

  /** Every packet of the trace is in order where it comes. */
  ghost predicate Conversation(c: Conn, trace: seq<Packet>)
    decreases |trace|
  {
    trace == [] || (Conversation(c, Front(trace)) && InOrder(ReceiveAll(c, Front(trace)), Last(trace)))
  }

  /** The packets that carry data. */
  ghost function Spoken(trace: seq<Packet>): seq<Packet>
    decreases |trace|
  {
    if trace == [] then []
    else Spoken(Front(trace)) + (if Last(trace).data != [] then [Last(trace)] else [])
  }

  /** What a side said, turn by turn: its maximal runs in a list of data packets. */
  ghost function Turns(d: Detail, t: seq<Packet>, s: Side): seq<seq<byte>>
    decreases |t|
  {
    if t == [] then []
    else
      var before, p := Turns(d, Front(t), s), Last(t);
      if By(d, p) != s then before
      else if SpokeLast(d, Front(t), s) && before != [] then before[|before| - 1 := before[|before| - 1] + p.data]
      else before + [p.data]
  }

  ghost predicate SpokeLast(d: Detail, t: seq<Packet>, s: Side) {
    t != [] && By(d, Last(t)) == s
  }

  /** Packet `i` ends a turn of the side, and the other side takes over. */
  ghost predicate HandsOver(d: Detail, t: seq<Packet>, i: nat, s: Side) {
    i + 1 < |t| && By(d, t[i]) == s && By(d, t[i + 1]) != s
  }

  ghost predicate SpeaksAfter(d: Detail, t: seq<Packet>, i: nat, s: Side) {
    exists k :: i < k < |t| && By(d, t[k]) == s
  }

  /**
   * Whenever the side hands over and speaks again later, its last packet has acknowledged all that
   * the other side had sent: its acknowledgement number is where the other side goes on.
   */
  ghost predicate TurnsAcknowledged(d: Detail, t: seq<Packet>, s: Side) {
    forall i: nat :: HandsOver(d, t, i, s) && SpeaksAfter(d, t, i + 1, s) ==> t[i].ackNum == t[i + 1].sequence
  }

  // ---------------------------------------------------------------- the connection as a talk

  /** What matters of one direction. */
  datatype Voice = Voice(seqNo: int, ackNo: int, closed: seq<seq<byte>>, open: seq<byte>)

  datatype Talk = Talk(client: Voice, server: Voice)

  function VoiceOf(g: Talk, s: Side): Voice {
    if s == Client then g.client else g.server
  }

  function WithVoices(s: Side, mine: Voice, other: Voice): Talk {
    if s == Client then Talk(mine, other) else Talk(other, mine)
  }

  function ClosedVoice(v: Voice): Voice {
    if v.open == [] then v else v.(closed := v.closed + [v.open], open := [])
  }

  function Speak(g: Talk, s: Side, p: Packet): Talk {
    var mine, other := VoiceOf(g, s), VoiceOf(g, Other(s));
    WithVoices(s, Voice(p.sequence + |p.data|, p.ackNum, mine.closed, mine.open + p.data),
               if other.ackNo == p.sequence then ClosedVoice(other) else other)
  }

  ghost function PiecesOf(v: Voice): seq<seq<byte>> {
    if v.open == [] then v.closed else v.closed + [v.open]
  }

  ghost function SpeakAll(g: Talk, d: Detail, t: seq<Packet>): Talk
    decreases |t|
  {
    if t == [] then g else Speak(SpeakAll(g, d, Front(t)), By(d, Last(t)), Last(t))
  }

  ghost predicate Fitting(g: Talk, s: Side, p: Packet) {
    && p.data != [] && p.sequence == VoiceOf(g, s).seqNo
    && (p.ackNum == VoiceOf(g, s).ackNo || p.ackNum == VoiceOf(g, Other(s)).seqNo)
  }

  ghost predicate Fluent(g: Talk, d: Detail, t: seq<Packet>)
    decreases |t|
  {
    t == [] || (Fluent(g, d, Front(t)) && Fitting(SpeakAll(g, d, Front(t)), By(d, Last(t)), Last(t)))
  }

  /** Nothing waits and nobody has finished. */
  ghost predicate Talking(c: Conn) {
    && c.state == Established && c.client.waiting == [] && c.server.waiting == []
    && !c.client.stream.finished && !c.server.stream.finished
  }

  ghost function VoiceIn(h: Half): Voice {
    Voice(h.seqNo, h.ackNo, h.stream.closed, h.stream.open)
  }

  ghost function Look(c: Conn): Talk {
    Talk(VoiceIn(c.client), VoiceIn(c.server))
  }

  lemma InOrderIsHandled(c: Conn, p: Packet)
    requires Talking(c) && InOrder(c, p)
    ensures Receive(c, p) == if p.data == [] then Res(c, None) else ProcessData(c, p)
  {
    assert !IsOld(c, p);
    assert ProcessAck(c, p) == Res(c, None);
  }

  lemma Heard(c: Conn, p: Packet)
    requires Talking(c) && InOrder(c, p) && p.data != []
    ensures var c' := Receive(c, p).conn;
            && Talking(c') && c'.detail == c.detail
            && Look(c') == Speak(Look(c), By(c.detail, p), p) && Fitting(Look(c), By(c.detail, p), p)
  {
    InOrderIsHandled(c, p);
  }

  /** Bare acknowledgements change nothing: a conversation is what its data packets say. */
  lemma {:induction false} Overheard(c: Conn, trace: seq<Packet>)
    requires Talking(c) && Conversation(c, trace)
    ensures var c' := ReceiveAll(c, trace);
            && Talking(c') && c'.detail == c.detail
            && Look(c') == SpeakAll(Look(c), c.detail, Spoken(trace)) && Fluent(Look(c), c.detail, Spoken(trace))
    decreases |trace|
  {
    if trace != [] {
      var front, p := Front(trace), Last(trace);
      Overheard(c, front);
      assert trace == front + [p];
      ReceiveAllSnoc(c, front, p);
      var c1 := ReceiveAll(c, front);
      if p.data == [] {
        InOrderIsHandled(c1, p);
        assert Spoken(trace) == Spoken(front);
      } else {
        Heard(c1, p);
        assert Front(Spoken(trace)) == Spoken(front) && Last(Spoken(trace)) == p;
      }
    }
  }

  // ---------------------------------------------------------------- lost boundaries

  /** The latest turn of the side was taken over without being acknowledged. */
  ghost predicate Loose(d: Detail, t: seq<Packet>, s: Side)
    decreases |t|
  {
    t != [] && !SpokeLast(d, t, s) &&
    if SpokeLast(d, Front(t), s) then Last(Front(t)).ackNum != Last(t).sequence else Loose(d, Front(t), s)
  }

  /** Some turn of the side was begun while the one before it was loose. */
  ghost predicate Merged(d: Detail, t: seq<Packet>, s: Side)
    decreases |t|
  {
    t != [] && (Merged(d, Front(t), s) || (SpokeLast(d, t, s) && Loose(d, Front(t), s)))
  }

  /** The state of a side's voice after a list of data packets. */
  ghost predicate Told(g: Talk, d: Detail, t: seq<Packet>, s: Side) {
    var g' := SpeakAll(g, d, t);
    var mine, other := VoiceOf(g', s), VoiceOf(g', Other(s));
    && (mine.open != [] <==> SpokeLast(d, t, s) || Loose(d, t, s))
    && (if Merged(d, t, s) then |PiecesOf(mine)| < |Turns(d, t, s)| else PiecesOf(mine) == Turns(d, t, s))
    && mine.ackNo <= other.seqNo
    && (SpokeLast(d, t, s) ==> mine.ackNo == Last(t).ackNum)
    && (Loose(d, t, s) ==> mine.ackNo < other.seqNo)
  }

  /** The side says something. */
  lemma {:induction false} ToldMine(g: Talk, d: Detail, t: seq<Packet>, s: Side)
    requires t != [] && Told(g, d, Front(t), s) && By(d, Last(t)) == s
    requires Fitting(SpeakAll(g, d, Front(t)), s, Last(t))
    ensures Told(g, d, t, s)
  {
    var front, p := Front(t), Last(t);
    var mine := VoiceOf(SpeakAll(g, d, front), s);
    var before := Turns(d, front, s);
    var mine' := VoiceOf(SpeakAll(g, d, t), s);
    assert mine'.closed == mine.closed && mine'.open == mine.open + p.data;
    if mine.open != [] {
      assert PiecesOf(mine)[..|mine.closed|] == mine.closed;
      assert PiecesOf(mine') == mine.closed + [mine.open + p.data];
      if !Merged(d, front, s) {
        assert before[|before| - 1 := before[|before| - 1] + p.data] == PiecesOf(mine');
      }
    } else {
      assert mine.open + p.data == p.data;
    }
  }

  /** The other side says something. */
  lemma {:induction false} ToldOther(g: Talk, d: Detail, t: seq<Packet>, s: Side)
    requires t != [] && Told(g, d, Front(t), s) && By(d, Last(t)) != s
    requires Fitting(SpeakAll(g, d, Front(t)), Other(s), Last(t))
    ensures Told(g, d, t, s)
  {
    var front, p := Front(t), Last(t);
    var mine := VoiceOf(SpeakAll(g, d, front), s);
    var mine' := VoiceOf(SpeakAll(g, d, t), s);
    assert mine' == if mine.ackNo == p.sequence then ClosedVoice(mine) else mine;
    assert PiecesOf(mine') == PiecesOf(mine);
  }

  lemma {:induction false} ToldAll(g: Talk, d: Detail, t: seq<Packet>, s: Side)
    requires Fluent(g, d, t) && VoiceOf(g, s).closed == [] && VoiceOf(g, s).open == []
    requires VoiceOf(g, s).ackNo <= VoiceOf(g, Other(s)).seqNo
    ensures Told(g, d, t, s)
    decreases |t|
  {
    if t != [] {
      ToldAll(g, d, Front(t), s);
      if By(d, Last(t)) == s {
        ToldMine(g, d, t, s);
      } else {
        ToldOther(g, d, t, s);
      }
    }
  }

  // ---------------------------------------------------------------- what that means for the packets

  ghost predicate LooseAt(d: Detail, t: seq<Packet>, i: nat, s: Side) {
    HandsOver(d, t, i, s) && !SpeaksAfter(d, t, i + 1, s) && t[i].ackNum != t[i + 1].sequence
  }

  lemma FrontHandsOver(d: Detail, t: seq<Packet>, i: nat, s: Side)
    requires t != [] && i + 1 < |Front(t)|
    ensures HandsOver(d, Front(t), i, s) <==> HandsOver(d, t, i, s)
    ensures SpeaksAfter(d, t, i + 1, s) <==> SpeaksAfter(d, Front(t), i + 1, s) || SpokeLast(d, t, s)
  {
    if SpeaksAfter(d, t, i + 1, s) && !SpokeLast(d, t, s) {
      var k :| i + 1 < k < |t| && By(d, t[k]) == s;
      assert By(d, Front(t)[k]) == s;
    }
    if SpeaksAfter(d, Front(t), i + 1, s) {
      var k :| i + 1 < k < |Front(t)| && By(d, Front(t)[k]) == s;
      assert By(d, t[k]) == s;
    }
    if SpokeLast(d, t, s) {
      assert By(d, t[|t| - 1]) == s;
    }
  }

  lemma {:induction false} LooseIff(d: Detail, t: seq<Packet>, s: Side)
    ensures Loose(d, t, s) <==> exists i: nat :: LooseAt(d, t, i, s)
    decreases |t|
  {
    if t != [] {
      var front, n := Front(t), |t|;
      LooseIff(d, front, s);
      if exists i: nat :: LooseAt(d, t, i, s) {
        var i: nat :| LooseAt(d, t, i, s);
        LooseBackward(d, t, i, s);
      }
      if Loose(d, t, s) {
        if SpokeLast(d, front, s) {
          assert LooseAt(d, t, n - 2, s);
        } else {
          var i: nat :| LooseAt(d, front, i, s);
          FrontHandsOver(d, t, i, s);
          assert LooseAt(d, t, i, s);
        }
      }
    }
  }

  lemma {:induction false} LooseBackward(d: Detail, t: seq<Packet>, i: nat, s: Side)
    requires t != [] && LooseAt(d, t, i, s)
    requires Loose(d, Front(t), s) <==> exists i: nat :: LooseAt(d, Front(t), i, s)
    ensures Loose(d, t, s)
  {
    var front, n := Front(t), |t|;
    if i + 1 == n - 1 {
      assert Last(front) == t[i];
    } else {
      FrontHandsOver(d, t, i, s);
      assert LooseAt(d, front, i, s);
      assert !SpeaksAfter(d, t, i + 1, s);
    }
  }

  /** A handover that was not acknowledged, and the side speaks again. */
  ghost predicate Unacknowledged(d: Detail, t: seq<Packet>, i: nat, s: Side) {
    HandsOver(d, t, i, s) && SpeaksAfter(d, t, i + 1, s) && t[i].ackNum != t[i + 1].sequence
  }

  lemma {:induction false} MergedForward(d: Detail, t: seq<Packet>, s: Side)
    requires t != [] && Merged(d, t, s)
    requires Merged(d, Front(t), s) ==> exists i: nat :: Unacknowledged(d, Front(t), i, s)
    ensures exists i: nat :: Unacknowledged(d, t, i, s)
  {
    if Merged(d, Front(t), s) {
      var i: nat :| Unacknowledged(d, Front(t), i, s);
      FrontHandsOver(d, t, i, s);
      assert Unacknowledged(d, t, i, s);
    } else {
      LooseIff(d, Front(t), s);
      var i: nat :| LooseAt(d, Front(t), i, s);
      FrontHandsOver(d, t, i, s);
      assert Unacknowledged(d, t, i, s);
    }
  }

  lemma {:induction false} MergedExists(d: Detail, t: seq<Packet>, s: Side)
    ensures Merged(d, t, s) <==> exists i: nat :: Unacknowledged(d, t, i, s)
    decreases |t|
  {
    if t != [] {
      MergedExists(d, Front(t), s);
      if Merged(d, t, s) {
        MergedForward(d, t, s);
      }
      if exists i: nat :: Unacknowledged(d, t, i, s) {
        var i: nat :| Unacknowledged(d, t, i, s);
        MergedBackward(d, t, i, s);
      }
    }
  }

  /** No turn was merged exactly if every turn that was followed by another was acknowledged. */
  lemma {:induction false} MergedIff(d: Detail, t: seq<Packet>, s: Side)
    ensures Merged(d, t, s) <==> !TurnsAcknowledged(d, t, s)
  {
    MergedExists(d, t, s);
    if !TurnsAcknowledged(d, t, s) {
      var i: nat :| HandsOver(d, t, i, s) && SpeaksAfter(d, t, i + 1, s) && t[i].ackNum != t[i + 1].sequence;
      assert Unacknowledged(d, t, i, s);
    }
  }

  lemma {:induction false} MergedBackward(d: Detail, t: seq<Packet>, i: nat, s: Side)
    requires t != [] && Unacknowledged(d, t, i, s)
    requires Merged(d, Front(t), s) <==> exists i: nat :: Unacknowledged(d, Front(t), i, s)
    ensures Merged(d, t, s)
  {
    LooseIff(d, Front(t), s);
    assert i + 1 < |Front(t)|;
    FrontHandsOver(d, t, i, s);
    if SpeaksAfter(d, Front(t), i + 1, s) {
      assert Unacknowledged(d, Front(t), i, s);
    } else {
      assert LooseAt(d, Front(t), i, s);
    }
  }

  // ---------------------------------------------------------------- main results

  /** An established connection in which nothing was said yet, as a handshake leaves it. */
  ghost predicate Quiet(c: Conn) {
    && Talking(c) && c.client.stream == NOTHING && c.server.stream == NOTHING
    && c.client.ackNo <= c.server.seqNo && c.server.ackNo <= c.client.seqNo
  }

  /**
   * For every conversation of packets that arrive in order and may be processed, bare
   * acknowledgements anywhere in between, and for either side: the stream consists of one
   * sub-stream per turn of that side, holding what was said in it, if and only if every turn that
   * the side followed up with another had acknowledged all that the other side had sent.
   */
  lemma {:induction false} OneStreamPerTurnIff(c: Conn, trace: seq<Packet>, s: Side)
    requires Quiet(c) && Conversation(c, trace)
    ensures Pieces(HalfOf(ReceiveAll(c, trace), s).stream) == Turns(c.detail, Spoken(trace), s)
            <==> TurnsAcknowledged(c.detail, Spoken(trace), s)
  {
    Overheard(c, trace);
    var t := Spoken(trace);
    ToldAll(Look(c), c.detail, t, s);
    MergedIff(c.detail, t, s);
    assert Pieces(HalfOf(ReceiveAll(c, trace), s).stream) == PiecesOf(VoiceOf(SpeakAll(Look(c), c.detail, t), s));
  }

  /** A data packet acknowledges all that the other side has sent. */
  ghost predicate Polite(c: Conn, trace: seq<Packet>)
    requires Conversation(c, trace)
    decreases |trace|
  {
    trace == [] ||
    (&& Polite(c, Front(trace))
     && (Last(trace).data != [] ==>
           Last(trace).ackNum == HalfOf(ReceiveAll(c, Front(trace)), Other(By(c.detail, Last(trace)))).seqNo))
  }

  lemma {:induction false} PoliteIsAcknowledged(c: Conn, trace: seq<Packet>, s: Side)
    requires Quiet(c) && Conversation(c, trace) && Polite(c, trace)
    ensures var t := Spoken(trace);
            && !Loose(c.detail, t, s) && !Merged(c.detail, t, s)
            && (SpokeLast(c.detail, t, s) ==> Last(t).ackNum == HalfOf(ReceiveAll(c, trace), Other(s)).seqNo)
    decreases |trace|
  {
    if trace != [] {
      var front, p := Front(trace), Last(trace);
      PoliteIsAcknowledged(c, front, s);
      Overheard(c, front);
      assert trace == front + [p];
      ReceiveAllSnoc(c, front, p);
      var c1 := ReceiveAll(c, front);
      if p.data == [] {
        InOrderIsHandled(c1, p);
        assert Spoken(trace) == Spoken(front);
      } else {
        Heard(c1, p);
        assert Front(Spoken(trace)) == Spoken(front) && Last(Spoken(trace)) == p;
        assert VoiceIn(HalfOf(ReceiveAll(c, trace), Other(s))) == VoiceOf(Look(ReceiveAll(c, trace)), Other(s));
        assert VoiceIn(HalfOf(c1, Other(s))) == VoiceOf(Look(c1), Other(s));
      }
    }
  }

  /**
   * In particular, if each data packet acknowledges all that the other side has sent, each stream
   * consists of one sub-stream per turn.
   */
  lemma {:induction false} OneStreamPerTurn(c: Conn, trace: seq<Packet>, s: Side)
    requires Quiet(c) && Conversation(c, trace) && Polite(c, trace)
    ensures Pieces(HalfOf(ReceiveAll(c, trace), s).stream) == Turns(c.detail, Spoken(trace), s)
  {
    PoliteIsAcknowledged(c, trace, s);
    MergedIff(c.detail, Spoken(trace), s);
    OneStreamPerTurnIff(c, trace, s);
  }

  // ---------------------------------------------------------------- a conversation that is not cut

  /** A data packet. */
  function Say(id: nat, d: Detail, sequence: int, ackNum: int, data: seq<byte>): Packet {
    Packet(id, d, sequence, ackNum, true, false, false, false, data)
  }

  lemma HandshakeIsQuiet(d: Detail, syn: Packet, synAck: Packet, ack: Packet)
    requires Handshake(d, syn, synAck, ack)
    ensures Quiet(ReceiveAll(Open(syn), [synAck, ack]))
  {
    HandshakeEstablishes(d, syn, synAck, ack);
  }

  /** What is known after some packets of a conversation were received. */
  ghost predicate Heeded(c: Conn, trace: seq<Packet>, g: Talk, ids: set<nat>) {
    var c' := ReceiveAll(c, trace);
    && Conversation(c, trace) && Spoken(trace) == trace
    && Talking(c') && c'.detail == c.detail && Look(c') == g && c'.consumed == ids
  }

  lemma OneMore(c: Conn, trace: seq<Packet>, g: Talk, ids: set<nat>, p: Packet)
    requires Heeded(c, trace, g, ids) && Fitting(g, By(c.detail, p), p)
    requires !p.syn && !p.rst && !p.fin && p.id !in ids
    ensures Heeded(c, trace + [p], Speak(g, By(c.detail, p), p), ids + {p.id})
  {
    var all := trace + [p];
    assert Front(all) == trace && Last(all) == p;
    var c1 := ReceiveAll(c, trace);
    ReceiveAllSnoc(c, trace, p);
    Heard(c1, p);
    InOrderIsHandled(c1, p);
  }

  /** Appending one data packet to a list of them. */
  lemma {:induction false} TurnsMore(d: Detail, t: seq<Packet>, p: Packet, s: Side)
    ensures By(d, p) != s ==> Turns(d, t + [p], s) == Turns(d, t, s)
    ensures By(d, p) == s && !SpokeLast(d, t, s) ==> Turns(d, t + [p], s) == Turns(d, t, s) + [p.data]
  {
    assert Front(t + [p]) == t && Last(t + [p]) == p;
  }

  /** The server's second packet repeats its old acknowledgement number and is processed all the same. */
  function Word(d: Detail, i: nat): Packet {
    match i
    case 0 => Say(3, Reversed(d), 1, 1, [10])
    case 1 => Say(4, d, 1, 2, [20])
    case 2 => Say(5, Reversed(d), 2, 1, [11])
    case 3 => Say(6, d, 2, 3, [21])
    case _ => Say(7, Reversed(d), 3, 3, [12])
  }

  /** The first `n` of these packets. */
  function Grudging(d: Detail, n: nat): seq<Packet> {
    if n == 0 then [] else Grudging(d, n - 1) + [Word(d, n - 1)]
  }

  function Stage(n: nat): Talk {
    match n
    case 0 => Talk(Voice(1, 1, [], []), Voice(1, 1, [], []))
    case 1 => Talk(Voice(1, 1, [], []), Voice(2, 1, [], [10]))
    case 2 => Talk(Voice(2, 2, [], [20]), Voice(2, 1, [[10]], []))
    case 3 => Talk(Voice(2, 2, [[20]], []), Voice(3, 1, [[10]], [11]))
    case 4 => Talk(Voice(3, 3, [[20]], [21]), Voice(3, 1, [[10]], [11]))
    case _ => Talk(Voice(3, 3, [[20], [21]], []), Voice(4, 3, [[10]], [11, 12]))
  }

  lemma StageStep(d: Detail, n: nat)
    requires d != Reversed(d) && n < 5
    ensures var s, p := By(d, Word(d, n)), Word(d, n);
            && s == (if n % 2 == 0 then Server else Client) && p.id == n + 3
            && Fitting(Stage(n), s, p) && Speak(Stage(n), s, p) == Stage(n + 1)
  {
  }

  function Below(n: nat): (r: set<nat>)
    ensures forall i: nat :: i in r <==> i < n
  {
    if n == 0 then {} else Below(n - 1) + {n - 1}
  }

  lemma GrudgingMore(d: Detail, c: Conn, n: nat)
    requires d != Reversed(d) && n < 5 && c.detail == d && Heeded(c, Grudging(d, n), Stage(n), Below(n + 3))
    ensures Heeded(c, Grudging(d, n + 1), Stage(n + 1), Below(n + 4))
  {
    StageStep(d, n);
    OneMore(c, Grudging(d, n), Stage(n), Below(n + 3), Word(d, n));
  }

  lemma {:induction false} GrudgingHeeded(d: Detail, c: Conn)
    requires d != Reversed(d) && c.detail == d && Heeded(c, Grudging(d, 0), Stage(0), Below(3))
    ensures Heeded(c, Grudging(d, 5), Stage(5), Below(8))
  {
    GrudgingMore(d, c, 0);
    GrudgingMore(d, c, 1);
    GrudgingMore(d, c, 2);
    GrudgingMore(d, c, 3);
    GrudgingMore(d, c, 4);
  }

  function Said(n: nat): seq<seq<byte>> {
    match n
    case 0 => []
    case 1 => [[10]]
    case 2 => [[10]]
    case 3 => [[10], [11]]
    case 4 => [[10], [11]]
    case _ => [[10], [11], [12]]
  }

  lemma SaidStep(d: Detail, n: nat)
    requires n < 5
    ensures Said(n + 1) == if n % 2 == 0 then Said(n) + [Word(d, n).data] else Said(n)
  {
  }

  /** Speakers alternate, so every packet of the server is a turn of its own. */
  lemma TurnsStep(d: Detail, n: nat)
    requires d != Reversed(d) && n < 5
    requires Turns(d, Grudging(d, n), Server) == Said(n) && (SpokeLast(d, Grudging(d, n), Server) <==> n % 2 == 1)
    ensures Turns(d, Grudging(d, n + 1), Server) == Said(n + 1)
    ensures SpokeLast(d, Grudging(d, n + 1), Server) <==> n % 2 == 0
  {
    StageStep(d, n);
    SaidStep(d, n);
    AfterWord(d, Grudging(d, n), Word(d, n), n % 2 == 0, Said(n));
  }

  lemma {:induction false} AfterWord(d: Detail, t: seq<Packet>, p: Packet, server: bool, before: seq<seq<byte>>)
    requires Turns(d, t, Server) == before && (server <==> By(d, p) == Server) && (server ==> !SpokeLast(d, t, Server))
    ensures Turns(d, t + [p], Server) == if server then before + [p.data] else before
    ensures SpokeLast(d, t + [p], Server) <==> server
  {
    TurnsMore(d, t, p, Server);
  }

  lemma {:induction false} GrudgingTurns(d: Detail)
    requires d != Reversed(d)
    ensures Turns(d, Grudging(d, 5), Server) == Said(5)
  {
    TurnsStep(d, 0);
    TurnsStep(d, 1);
    TurnsStep(d, 2);
    TurnsStep(d, 3);
    TurnsStep(d, 4);
  }

  /**
   * For instance, from the handshake on: the server says 10, the client 20, the server 11 without
   * acknowledging the 20, the client 21, the server 12.  The server had three turns, and its stream
   * has two sub-streams: the turns 11 and 12 have run together.
   */
  lemma {:induction false} TurnsRunTogether(d: Detail, syn: Packet, synAck: Packet, ack: Packet)
    requires Handshake(d, syn, synAck, ack) && syn.sequence == 0 && synAck.sequence == 0
    requires syn.id == 0 && synAck.id == 1 && ack.id == 2
    ensures var c, words := ReceiveAll(Open(syn), [synAck, ack]), Grudging(d, 5);
            && Quiet(c) && Conversation(c, words)
            && Pieces(ReceiveAll(c, words).server.stream) == [[10], [11, 12]]
            && Turns(d, Spoken(words), Server) == [[10], [11], [12]]
  {
    HandshakeIsQuiet(d, syn, synAck, ack);
    HandshakeEstablishes(d, syn, synAck, ack);
    RunTogether(d, ReceiveAll(Open(syn), [synAck, ack]), Grudging(d, 5));
  }

  lemma {:induction false} RunTogether(d: Detail, c: Conn, words: seq<Packet>)
    requires d != Reversed(d) && c.detail == d && words == Grudging(d, 5)
    requires Talking(c) && Look(c) == Stage(0) && c.consumed == {0, 1, 2}
    ensures Conversation(c, words) && Pieces(ReceiveAll(c, words).server.stream) == [[10], [11, 12]]
    ensures Turns(d, Spoken(words), Server) == [[10], [11], [12]]
  {
    assert Below(3) == {0, 1, 2};
    GrudgingHeeded(d, c);
    GrudgingTurns(d);
    var h := ReceiveAll(c, words).server;
    assert VoiceIn(h) == Stage(5).server;
  }
}
