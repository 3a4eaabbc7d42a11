/**
 * The decisions a connection takes about a packet: which waiting packet goes first, which
 * acknowledgements are refused, and when the connection counts as broken.
 */
module TcpChecks {
  import opened Bytes
  import opened TcpPacket
  import opened TcpBuffer
  import opened TcpStream
  import opened TcpMachine
  import opened TcpRuns

  // ---------------------------------------------------------------- which waiting packet goes first

  /** A waiting packet that is only dropped: of an old sequence, and not in turn. */
  ghost predicate Stale(c: Conn, p: Packet) {
    p.id !in c.consumed && IsOld(c, p) && !CanProcess(c, p)
  }

  /** The first packet of that side that is not stale, if there is one, is the one at `i`. */
  ghost predicate FirstAt(c: Conn, s: Side, i: nat) {
    var w := HalfOf(c, s).waiting;
    && i <= |w| && (forall j :: 0 <= j < i ==> Stale(c, w[j])) && (i < |w| ==> !Stale(c, w[i]))
  }

  /** It can be taken. */
  ghost predicate Ready(c: Conn, s: Side, i: nat) {
    var w := HalfOf(c, s).waiting;
    FirstAt(c, s, i) && i < |w| && w[i].id !in c.consumed && CanProcess(c, w[i])
  }

  /** There is none, or it has to wait. */
  ghost predicate Held(c: Conn, s: Side, i: nat) {
    var w := HalfOf(c, s).waiting;
    FirstAt(c, s, i) && (i < |w| ==> w[i].id !in c.consumed && !CanProcess(c, w[i]))
  }

  /** The connection without the first packets of that side. */
  ghost function Without(c: Conn, s: Side, n: nat): Conn
    requires n <= |HalfOf(c, s).waiting|
  {
    With(c, s, HalfOf(c, s).(waiting := HalfOf(c, s).waiting[n..]))
  }

  lemma {:induction false} Shorter(c: Conn, s: Side, i: nat)
    requires FirstAt(c, s, i) && i > 0
    ensures var d := Without(c, s, 1);
            && FirstAt(d, s, i - 1) && HalfOf(d, s).waiting == HalfOf(c, s).waiting[1..]
            && (Ready(c, s, i) ==> Ready(d, s, i - 1)) && (Held(c, s, i) ==> Held(d, s, i - 1))
            && PickupSide(c, s) == PickupSide(d, s)
  {
    var w, d := HalfOf(c, s).waiting, Without(c, s, 1);
    assert forall p :: IsOld(d, p) == IsOld(c, p) && CanProcess(d, p) == CanProcess(c, p);
    assert Stale(c, w[0]);
    assert forall j :: 0 <= j < i - 1 ==> w[1..][j] == w[j + 1];
  }

  lemma {:induction false} SideTakes(c: Conn, s: Side, i: nat)
    requires FirstAt(c, s, i)
    ensures Ready(c, s, i) ==> PickupSide(c, s) == Pickup(Without(c, s, i + 1), Some(HalfOf(c, s).waiting[i]), None)
    ensures Held(c, s, i) ==> PickupSide(c, s) == Pickup(Without(c, s, i), None, None)
    decreases i
  {
    var w := HalfOf(c, s).waiting;
    if i > 0 {
      var d := Without(c, s, 1);
      Shorter(c, s, i);
      SideTakes(d, s, i - 1);
      assert w[1..][i - 1..] == w[i..] && (i < |w| ==> w[1..][i..] == w[i + 1..]);
    } else {
      assert w[0..] == w;
    }
  }

  /** What becomes of the client's side makes no difference to the server's. */
  lemma OtherSide(c: Conn, i: nat, j: nat)
    requires i <= |c.client.waiting| && FirstAt(c, Server, j)
    ensures var d := Without(c, Client, i);
            && d.server == c.server && FirstAt(d, Server, j)
            && (Ready(c, Server, j) ==> Ready(d, Server, j)) && (Held(c, Server, j) ==> Held(d, Server, j))
  {
    var d := Without(c, Client, i);
    assert forall p :: IsOld(d, p) == IsOld(c, p) && CanProcess(d, p) == CanProcess(c, p);
  }

  /**
   * Whatever waits at the server's side, a packet of the client that is in turn goes first; and a
   * packet of the server goes if the client's side has nothing to take.  What was stale before it
   * is gone with it, and nothing else is.
   */
  lemma ClientFirst(c: Conn, i: nat, j: nat)
    requires FirstAt(c, Client, i) && FirstAt(c, Server, j)
    ensures Ready(c, Client, i) ==>
              PickupPacket(c) == Pickup(Without(c, Client, i + 1), Some(c.client.waiting[i]), None)
    ensures Held(c, Client, i) && Ready(c, Server, j) ==>
              PickupPacket(c) == Pickup(Without(Without(c, Client, i), Server, j + 1), Some(c.server.waiting[j]), None)
    ensures Held(c, Client, i) && Held(c, Server, j) ==>
              PickupPacket(c) == Pickup(Without(Without(c, Client, i), Server, j), None, None)
  {
    SideTakes(c, Client, i);
    if Held(c, Client, i) {
      OtherSide(c, i, j);
      SideTakes(Without(c, Client, i), Server, j);
    }
  }

  // ---------------------------------------------------------------- acknowledgements of the handshake

  /** The packet gets as far as being looked at. */
  ghost predicate LookedAt(c: Conn, p: Packet) {
    !IsOld(c, p) && !BothFinished(c)
  }

  /**
   * The second packet of the handshake is refused if and only if it does not acknowledge the first
   * one; then the connection is as it was, and otherwise the handshake is one packet further.
   */
  lemma SynAckRefusedIff(c: Conn, p: Packet)
    requires c.state == SynSent && LookedAt(c, p) && p.syn && p.ack
    ensures Receive(c, p).error == Some(BadSynAck) <==> p.ackNum != c.client.seqNo + 1
    ensures p.ackNum != c.client.seqNo + 1 ==> Receive(c, p).conn == c
    ensures p.ackNum == c.client.seqNo + 1 ==>
              && Receive(c, p).error.None?
              && Receive(c, p).conn.path == c.path + [SynReceived]
              && Receive(c, p).conn.client.seqNo == p.ackNum
              && Receive(c, p).conn.server.seqNo == p.sequence + |p.data|
  {
  }

  /** In terms of the first packet: its octets, if it carries any, are counted. */
  lemma AnswerToTheSyn(syn: Packet, p: Packet)
    requires p.syn && p.ack && LookedAt(Open(syn), p)
    ensures Receive(Open(syn), p).error == Some(BadSynAck) <==> p.ackNum != syn.sequence + |syn.data| + 1
  {
    SynAckRefusedIff(Open(syn), p);
  }

  /** In any other state a second packet of the handshake changes nothing. */
  lemma SynAckIgnored(c: Conn, p: Packet)
    requires c.state != SynSent && p.syn && p.ack
    ensures Receive(c, p) == Res(c, None)
  {
  }

  /** A connection past the handshake stays past it, whatever the packet sets free. */
  lemma {:induction false} PathStays(c: Conn, p: Packet)
    requires !p.rst && HandleBody(c, p).error.None?
    ensures HandleBody(c, p).conn.path <= Handle(c, p).conn.path
  {
    var r := HandleBody(c, p);
    if p.fin {
      FinEvolves(r.conn, p);
      DrainEvolves(ProcessFin(r.conn, p));
      EvolvesTrans(r.conn, ProcessFin(r.conn, p), Drain(ProcessFin(r.conn, p)).conn);
    }
  }

  lemma HandshakeBody(c: Conn, p: Packet)
    requires c.state == SynReceived && p.ack && p.ackNum == c.server.seqNo + 1
    ensures HandleBody(c, p).conn.path == c.path + [Established]
  {
  }

  /**
   * So is the third one, which may carry data or a FIN already: refused if and only if it does not
   * acknowledge the second one, and then nothing of it is taken; if it does, the connection is
   * established, whatever follows.
   */
  lemma HandshakeAckRefusedIff(c: Conn, p: Packet)
    requires c.state == SynReceived && LookedAt(c, p) && p.ack && !p.syn && !p.rst
    requires p.id !in c.consumed && CanProcess(c, p)
    ensures p.ackNum != c.server.seqNo + 1 ==> Receive(c, p) == Res(c, Some(BadHandshakeAck))
    ensures p.ackNum == c.server.seqNo + 1 ==> c.path + [Established] <= Receive(c, p).conn.path
  {
    if p.ackNum == c.server.seqNo + 1 {
      HandshakeBody(c, p);
      if HandleBody(c, p).error.None? {
        PathStays(c, p);
      }
    }
  }

  // ---------------------------------------------------------------- packets that are refused later

  /** A packet object that was counted before is refused, and nothing changes. */
  lemma CountedIsRefused(c: Conn, p: Packet)
    requires LookedAt(c, p) && !IsHandshake2(p) && p.id in c.consumed
    ensures Receive(c, p) == Res(c, Some(AlreadyUpdated))
  {
  }

  /**
   * Data in turn, unless it is also an acknowledgement that the state waits for, is refused if and
   * only if its side has finished; then neither an octet nor a counter of that side changes.
   */
  lemma DataRefusedIff(c: Conn, p: Packet, s: Side)
    requires LookedAt(c, p) && s == Sender(c, p) && !p.syn && !p.rst && !p.fin && p.data != []
    requires p.ack ==> !c.state.SynReceived? && !c.state.FinishWait1? && !c.state.LastAck?
    requires p.id !in c.consumed && CanProcess(c, p)
    ensures Receive(c, p).error == Some(StreamFinished) <==> HalfOf(c, s).stream.finished
    ensures var h, h' := HalfOf(c, s), HalfOf(Receive(c, p).conn, s);
            if h.stream.finished then Written(h'.stream) == Written(h.stream) && h'.seqNo == h.seqNo && h'.ackNo == h.ackNo
            else Written(h'.stream) == Written(h.stream) + p.data && h'.seqNo == h.seqNo + |p.data| && h'.ackNo == p.ackNum
  {
    assert HandleBody(c, p) == ProcessData(c, p);
    DataHalves(c, p, s);
    AddExtends(HalfOf(c, s).stream, p.data);
  }

  // ---------------------------------------------------------------- RST

  /** The connection after a RST in turn, whatever else the packet carries. */
  lemma {:induction false} RstLetsGo(c: Conn, p: Packet)
    requires p.rst
    ensures Handle(c, p).conn.released
  {
    var c1 := ProcessRst(c, p);
    BodyEvolves(c1, p);
    var r := HandleBody(c1, p);
    if r.error.None? && p.fin {
      FinEvolves(r.conn, p);
      DrainEvolves(ProcessFin(r.conn, p));
    }
  }

  lemma RstWaits(c: Conn, p: Packet, s: Side)
    requires s == Sender(c, p) && c.client.waiting == [] && c.server.waiting == []
    requires p.id !in c.consumed && !IsOld(c, p) && !CanProcess(c, p)
    ensures Drain(Store(c, p)) == Res(Store(c, p), None)
  {
    var d := Store(c, p);
    assert HalfOf(d, s).waiting == [p] && HalfOf(d, Other(s)).waiting == [];
    assert IsOld(d, p) == IsOld(c, p) && CanProcess(d, p) == CanProcess(c, p);
    ClientFirst(d, 0, 0);
    assert [p][0..] == [p];
  }

  /**
   * A connection is let go by a RST with the next sequence number if and only if it acknowledges
   * what its own side or the other side got to; otherwise the RST is put away.
   */
  lemma RstReleasesIff(c: Conn, p: Packet, s: Side)
    requires LookedAt(c, p) && s == Sender(c, p) && p.rst && !p.syn && p.id !in c.consumed && !c.released
    requires c.client.waiting == [] && c.server.waiting == [] && p.sequence == HalfOf(c, s).seqNo
    ensures Receive(c, p).conn.released <==> p.ackNum == HalfOf(c, s).ackNo || p.ackNum == HalfOf(c, Other(s)).seqNo
    ensures !Receive(c, p).conn.released ==> Receive(c, p).conn == Store(c, p)
  {
    RstLetsGo(c, p);
    if !CanProcess(c, p) {
      RstWaits(c, p, s);
    }
  }

  // ---------------------------------------------------------------- when a connection counts as broken

  /** Data of that side arrived early and was never put into its stream. */
  ghost predicate DataWaits(c: Conn, s: Side) {
    exists p :: p in HalfOf(c, s).waiting && p.data != []
  }

  lemma WaitingData(w: seq<Packet>)
    ensures HasData(w) <==> exists p :: p in w && p.data != []
  {
    if HasData(w) {
      var i :| 0 <= i < |w| && w[i].data != [];
      assert w[i] in w;
    }
  }

  /**
   * A FIN makes a connection count as broken exactly if data waits of the side it closes, or of the
   * other side and that one was closed before.
   */
  lemma FinBreaksIff(c: Conn, p: Packet)
    ensures var s := Sender(c, p);
            ProcessFin(c, p).maybeBroken
            <==> c.maybeBroken || DataWaits(c, s) || (HalfOf(c, Other(s)).stream.finished && DataWaits(c, Other(s)))
  {
    WaitingData(c.client.waiting);
    WaitingData(c.server.waiting);
    FinHalf(c, p, Sender(c, p));
  }

  /** A RST closes both sides: it does so exactly if any data waits. */
  lemma RstBreaksIff(c: Conn, p: Packet)
    ensures ProcessRst(c, p).maybeBroken <==> c.maybeBroken || DataWaits(c, Client) || DataWaits(c, Server)
  {
    WaitingData(c.client.waiting);
    WaitingData(c.server.waiting);
    RstGrows(c, p);
  }

  lemma AckBreaksIff(c: Conn, p: Packet)
    ensures ProcessAck(c, p).conn.maybeBroken
            <==> c.maybeBroken || (c.state == LastAck && p.ackNum == HalfOf(c, Other(Sender(c, p))).seqNo + 1)
  {
  }

  lemma DataBreaksNot(c: Conn, p: Packet)
    ensures ProcessData(c, p).conn.maybeBroken == c.maybeBroken
  {
  }

  /** Nothing else in handling a packet does, but the last acknowledgement if it goes one too far. */
  lemma BodyBreaksIff(c: Conn, p: Packet)
    ensures HandleBody(c, p).conn.maybeBroken
            <==> c.maybeBroken || (p.ack && c.state == LastAck && p.ackNum == HalfOf(c, Other(Sender(c, p))).seqNo + 1)
  {
    AckBreaksIff(c, p);
    DataBreaksNot(if p.ack then ProcessAck(c, p).conn else c, p);
  }

  /** Once taken for broken, a connection stays so, over every trace. */
  lemma {:induction false} BrokenForGood(c: Conn, trace: seq<Packet>)
    requires c.maybeBroken
    ensures ReceiveAll(c, trace).maybeBroken
  {
    EveryTrace(c, trace);
  }
}
