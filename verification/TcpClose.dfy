/**
 * How a connection ends: the four packets of a close, two FINs that cross, and over every genuine
 * trace exactly when a connection is let go.
 */
module TcpClose {
  import opened Bytes
  import opened TcpPacket
  import opened TcpBuffer
  import opened TcpStream
  import opened TcpMachine
  import opened TcpRuns
  import opened TcpPrefix

  // ---------------------------------------------------------------- the packets of a close

  ghost predicate From(c: Conn, p: Packet, s: Side) {
    p.detail == if s == Client then c.detail else Reversed(c.detail)
  }

  /** A FIN, perhaps with data, that is next from that side and fits the acknowledgements. */
  ghost predicate IsFin(c: Conn, p: Packet, s: Side) {
    && From(c, p, s) && p.fin && !p.syn && !p.rst && p.id !in c.consumed
    && p.sequence == HalfOf(c, s).seqNo
    && (p.ackNum == HalfOf(c, s).ackNo || p.ackNum == HalfOf(c, Other(s)).seqNo)
  }

  /** A bare acknowledgement that is next from that side. */
  ghost predicate IsAck(c: Conn, p: Packet, s: Side) {
    && From(c, p, s) && p.ack && !p.fin && !p.syn && !p.rst && p.data == [] && p.id !in c.consumed
    && p.sequence == HalfOf(c, s).seqNo
  }

  /** Nothing waits, the ends differ, and the connection was not let go. */
  ghost predicate Tidy(c: Conn) {
    c.client.waiting == [] && c.server.waiting == [] && !c.released && c.detail != Reversed(c.detail)
  }

  /** An established connection, open on both sides. */
  ghost predicate Open2(c: Conn) {
    && Tidy(c) && c.state == Established && c.path == [SynSent, SynReceived, Established]
    && !c.client.stream.finished && !c.server.stream.finished
  }

  lemma {:induction false} IdleDrain(c: Conn)
    requires c.client.waiting == [] && c.server.waiting == []
    ensures Drain(c) == Res(c, None)
  {
  }

  /** The state that an acknowledgement leads to, and the one that a FIN leads to. */
  ghost function Acked(s: State): State {
    match s
    case SynReceived => Established
    case FinishWait1 => CloseWait
    case LastAck => Closed
    case _ => s
  }

  ghost function Finned(s: State): State {
    match s
    case Established => FinishWait1
    case CloseWait => LastAck
    case FinishWait1 => Closing
    case _ => s
  }

  /** What handling a packet of a side leaves alone. */
  ghost predicate Spares(c: Conn, d: Conn, p: Packet, s: Side) {
    && d.detail == c.detail && SameWaiting(c, d)
    && HalfOf(d, Other(s)).seqNo == HalfOf(c, Other(s)).seqNo && HalfOf(d, Other(s)).ackNo == HalfOf(c, Other(s)).ackNo
    && c.consumed <= d.consumed <= c.consumed + {p.id}
    && HalfOf(d, s).stream.finished == HalfOf(c, s).stream.finished
    && HalfOf(d, Other(s)).stream.finished == HalfOf(c, Other(s)).stream.finished
  }

  /** One state further, or not. */
  ghost predicate Enters(c: Conn, d: Conn, next: State) {
    d.state == next && d.path == if next == c.state then c.path else c.path + [next]
  }

  lemma AckPart(c: Conn, p: Packet, s: Side)
    requires s == Sender(c, p) && !c.state.SynReceived?
    ensures var r := ProcessAck(c, p);
            && r.error.None? && Spares(c, r.conn, p, s) && Enters(c, r.conn, Acked(c.state))
            && r.conn.released == (c.released || c.state.LastAck?)
  {
  }

  lemma DataPart(c: Conn, p: Packet, s: Side)
    requires s == Sender(c, p) && !HalfOf(c, s).stream.finished
    ensures var r := ProcessData(c, p);
            && r.error.None? && Spares(c, r.conn, p, s) && Enters(c, r.conn, c.state) && r.conn.released == c.released
  {
  }

  /** The part of the handling before the FIN, in an established connection or later. */
  lemma BodyOf(c: Conn, p: Packet, s: Side)
    requires s == Sender(c, p) && !c.state.SynReceived? && !HalfOf(c, s).stream.finished
    ensures var r := HandleBody(c, p);
            && r.error.None? && Spares(c, r.conn, p, s) && Enters(c, r.conn, if p.ack then Acked(c.state) else c.state)
            && r.conn.released == (c.released || (p.ack && c.state.LastAck?))
  {
    AckPart(c, p, s);
    var r := if p.ack then ProcessAck(c, p) else Res(c, None);
    if p.data != [] {
      DataPart(r.conn, p, s);
    }
  }

  lemma FinOf(c: Conn, p: Packet, s: Side)
    requires From(c, p, s) && c.detail != Reversed(c.detail)
    ensures var d := ProcessFin(c, p);
            && d.detail == c.detail && SameWaiting(c, d) && d.released == c.released && d.state == Finned(c.state)
            && d.path == (if d.state == c.state then c.path else c.path + [d.state])
            && HalfOf(d, s).seqNo == p.sequence + |p.data| + 1 && HalfOf(d, s).stream.finished
            && HalfOf(d, s).ackNo == p.ackNum
            && HalfOf(d, Other(s)) == HalfOf(c, Other(s)) && d.consumed == c.consumed + {p.id}
  {
    assert Sender(c, p) == s;
  }

  /** What a FIN in its turn does to the connection when nothing waits. */
  ghost predicate AfterTheFin(c: Conn, p: Packet, s: Side, d: Conn) {
    var middle := if p.ack then Acked(c.state) else c.state;
    var steps := (if middle == c.state then [] else [middle]) + (if Finned(middle) == middle then [] else [Finned(middle)]);
    && Tidy(d) && d.detail == c.detail && d.state == Finned(middle) && d.path == c.path + steps
    && HalfOf(d, s).stream.finished && HalfOf(d, Other(s)).stream.finished == HalfOf(c, Other(s)).stream.finished
    && HalfOf(d, s).seqNo == p.sequence + |p.data| + 1 && HalfOf(d, s).ackNo == p.ackNum
    && HalfOf(d, Other(s)).seqNo == HalfOf(c, Other(s)).seqNo && HalfOf(d, Other(s)).ackNo == HalfOf(c, Other(s)).ackNo
    && d.consumed == c.consumed + {p.id}
  }

  lemma {:induction false} InTurnIsHandled(c: Conn, p: Packet)
    requires !IsOld(c, p) && (BothFinished(c) ==> c.state == LastAck) && !p.syn && p.id !in c.consumed && CanProcess(c, p)
    ensures Receive(c, p) == Handle(c, p)
  {
  }

  lemma {:induction false} FinIsDrained(c: Conn, p: Packet)
    requires p.fin && !p.rst && HandleBody(c, p).error.None?
    requires var d := ProcessFin(HandleBody(c, p).conn, p); d.client.waiting == [] && d.server.waiting == []
    ensures Handle(c, p) == Res(ProcessFin(HandleBody(c, p).conn, p), None)
  {
    IdleDrain(ProcessFin(HandleBody(c, p).conn, p));
  }

  lemma BodyAndFin(c: Conn, p: Packet, s: Side)
    requires Tidy(c) && IsFin(c, p, s) && !HalfOf(c, s).stream.finished && !c.state.SynReceived? && !c.state.LastAck?
    ensures HandleBody(c, p).error.None? && AfterTheFin(c, p, s, ProcessFin(HandleBody(c, p).conn, p))
  {
    assert Sender(c, p) == s;
    BodyOf(c, p, s);
    FinOf(HandleBody(c, p).conn, p, s);
  }

  lemma FinIsHandled(c: Conn, p: Packet, s: Side)
    requires Tidy(c) && IsFin(c, p, s) && !HalfOf(c, s).stream.finished && !c.state.SynReceived? && !c.state.LastAck?
    ensures Receive(c, p).error.None? && AfterTheFin(c, p, s, Receive(c, p).conn)
  {
    BodyAndFin(c, p, s);
    FinIsDrained(c, p);
    assert Sender(c, p) == s;
    InTurnIsHandled(c, p);
  }

  /** What a bare acknowledgement does to the end of a connection. */
  ghost predicate AfterTheAck(c: Conn, p: Packet, s: Side, d: Conn) {
    && d.detail == c.detail && SameWaiting(c, d) && SameStreams(c, d)
    && d.state == Acked(c.state) && d.path == c.path + [Acked(c.state)] && d.released == c.state.LastAck?
    && HalfOf(d, s).seqNo == p.sequence && HalfOf(d, s).ackNo == p.ackNum
    && HalfOf(d, Other(s)) == HalfOf(c, Other(s)) && d.consumed == c.consumed + {p.id}
    && d.maybeBroken == (c.maybeBroken || (c.state.LastAck? && p.ackNum == HalfOf(c, Other(s)).seqNo + 1))
  }

  lemma AckIsHandled(c: Conn, p: Packet, s: Side)
    requires Tidy(c) && IsAck(c, p, s) && (c.state.FinishWait1? || c.state.LastAck?) && (BothFinished(c) ==> c.state.LastAck?)
    ensures Receive(c, p).error.None? && AfterTheAck(c, p, s, Receive(c, p).conn)
  {
    assert Sender(c, p) == s;
    InTurnIsHandled(c, p);
    assert Handle(c, p) == ProcessAck(c, p);
  }

  // ---------------------------------------------------------------- a close in four packets

  /** FIN, acknowledgement, FIN, acknowledgement, each next from its side. */
  ghost predicate FourWay(c: Conn, s: Side, p1: Packet, p2: Packet, p3: Packet, p4: Packet) {
    var o := Other(s);
    && IsFin(c, p1, s) && IsAck(c, p2, o)
    && From(c, p3, o) && p3.fin && !p3.syn && !p3.rst && p3.sequence == HalfOf(c, o).seqNo
    && (p3.ackNum == p2.ackNum || p3.ackNum == p1.sequence + |p1.data| + 1)
    && From(c, p4, s) && p4.ack && !p4.fin && !p4.syn && !p4.rst && p4.data == []
    && p4.sequence == p1.sequence + |p1.data| + 1
    && p3.id !in c.consumed + {p1.id, p2.id} && p4.id !in c.consumed + {p1.id, p2.id, p3.id} && p2.id != p1.id
  }

  /** After the first FIN the acknowledgement fits. */
  lemma AckFits(c: Conn, s: Side, p1: Packet, p2: Packet, c1: Conn)
    requires Open2(c) && IsFin(c, p1, s) && IsAck(c, p2, Other(s)) && p2.id != p1.id && AfterTheFin(c, p1, s, c1)
    ensures Tidy(c1) && IsAck(c1, p2, Other(s)) && c1.state.FinishWait1? && !BothFinished(c1)
    ensures c1.path == c.path + [FinishWait1]
  {
    assert c.path + ([] + [FinishWait1]) == c.path + [FinishWait1];
  }

  /** After the acknowledgement the second FIN fits. */
  lemma FinFits(c: Conn, s: Side, p1: Packet, p2: Packet, p3: Packet, p4: Packet, c1: Conn, c2: Conn)
    requires Open2(c) && FourWay(c, s, p1, p2, p3, p4) && AfterTheFin(c, p1, s, c1) && AfterTheAck(c1, p2, Other(s), c2)
    ensures Tidy(c2) && IsFin(c2, p3, Other(s)) && !HalfOf(c2, Other(s)).stream.finished && c2.state.CloseWait?
  {
  }

  /** After the second FIN the last acknowledgement fits. */
  lemma LastFits(c: Conn, s: Side, p1: Packet, p2: Packet, p3: Packet, p4: Packet, c1: Conn, c2: Conn, c3: Conn)
    requires Open2(c) && FourWay(c, s, p1, p2, p3, p4) && AfterTheFin(c, p1, s, c1) && AfterTheAck(c1, p2, Other(s), c2)
    requires AfterTheFin(c2, p3, Other(s), c3)
    ensures Tidy(c3) && IsAck(c3, p4, s) && c3.state.LastAck? && c3.path == c2.path + [LastAck]
    ensures HalfOf(c3, Other(s)).seqNo == p3.sequence + |p3.data| + 1
  {
    assert c2.path + ([] + [LastAck]) == c2.path + [LastAck];
  }

  /** An orderly close: every state of the full path, and let go at its end and not before. */
  ghost predicate OrderlyClose(c: Conn, c1: Conn, c2: Conn, c3: Conn, c4: Conn) {
    && c1.path == c.path + [FinishWait1] && c2.path == c1.path + [CloseWait]
    && c3.path == c2.path + [LastAck] && c4.path == c3.path + [Closed] && c4.path == FULL_PATH
    && !c1.released && !c2.released && !c3.released && c4.released
  }

  lemma FourSteps(c: Conn, s: Side, p1: Packet, p2: Packet, p3: Packet, p4: Packet, c1: Conn, c2: Conn, c3: Conn, c4: Conn)
    requires Open2(c) && FourWay(c, s, p1, p2, p3, p4) && AfterTheFin(c, p1, s, c1) && AfterTheAck(c1, p2, Other(s), c2)
    requires AfterTheFin(c2, p3, Other(s), c3) && AfterTheAck(c3, p4, s, c4)
    ensures OrderlyClose(c, c1, c2, c3, c4)
    ensures c4.maybeBroken <==> c3.maybeBroken || p4.ackNum == p3.sequence + |p3.data| + 2
  {
    AckFits(c, s, p1, p2, c1);
    LastFits(c, s, p1, p2, p3, p4, c1, c2, c3);
  }

  /**
   * From an established connection, for either side and any counters: the states entered are those
   * of an orderly close, the connection is let go with the last acknowledgement and not before,
   * and it counts as broken by that exactly if the last acknowledgement goes one too far.
   */
  lemma FourWayClose(c: Conn, s: Side, p1: Packet, p2: Packet, p3: Packet, p4: Packet)
      returns (c1: Conn, c2: Conn, c3: Conn, c4: Conn)
    requires Open2(c) && FourWay(c, s, p1, p2, p3, p4)
    ensures c1 == Receive(c, p1).conn && c2 == Receive(c1, p2).conn && c3 == Receive(c2, p3).conn && c4 == Receive(c3, p4).conn
    ensures OrderlyClose(c, c1, c2, c3, c4)
    ensures c4.maybeBroken <==> c3.maybeBroken || p4.ackNum == p3.sequence + |p3.data| + 2
  {
    c1 := FinStep(c, p1, s);
    AckFits(c, s, p1, p2, c1);
    c2 := AckStep(c1, p2, Other(s));
    FinFits(c, s, p1, p2, p3, p4, c1, c2);
    c3 := FinStep(c2, p3, Other(s));
    LastFits(c, s, p1, p2, p3, p4, c1, c2, c3);
    c4 := AckStep(c3, p4, s);
    FourSteps(c, s, p1, p2, p3, p4, c1, c2, c3, c4);
  }

  lemma FinStep(c: Conn, p: Packet, s: Side) returns (d: Conn)
    requires Tidy(c) && IsFin(c, p, s) && !HalfOf(c, s).stream.finished && !c.state.SynReceived? && !c.state.LastAck?
    ensures d == Receive(c, p).conn && AfterTheFin(c, p, s, d)
  {
    FinIsHandled(c, p, s);
    d := Receive(c, p).conn;
  }

  lemma AckStep(c: Conn, p: Packet, s: Side) returns (d: Conn)
    requires Tidy(c) && IsAck(c, p, s) && (c.state.FinishWait1? || c.state.LastAck?) && (BothFinished(c) ==> c.state.LastAck?)
    ensures d == Receive(c, p).conn && AfterTheAck(c, p, s, d)
  {
    AckIsHandled(c, p, s);
    d := Receive(c, p).conn;
  }

  // ---------------------------------------------------------------- the entry of a connection

  lemma PickStep(t: Table, k: int, c: Conn, p: Packet, d: Conn, accept: Detail -> bool)
    requires k in t && t[k] == c && Key(p.detail) == k && !IsHandshake1(p) && d == Receive(c, p).conn
    ensures Pick(t, p, accept) == if d.released then t - {k} else t[k := d]
  {
  }

  lemma SameKey(c: Conn, p: Packet, s: Side)
    requires From(c, p, s)
    ensures Key(p.detail) == Key(c.detail)
  {
    KeyIgnoresDirection(c.detail);
  }

  /** The same close seen from the table: the entry is taken out with the last packet and not before. */
  lemma FourWayRemoves(t: Table, c: Conn, s: Side, p1: Packet, p2: Packet, p3: Packet, p4: Packet, accept: Detail -> bool)
      returns (t1: Table, t2: Table, t3: Table)
    requires Open2(c) && FourWay(c, s, p1, p2, p3, p4) && Key(c.detail) in t && t[Key(c.detail)] == c
    ensures t1 == Pick(t, p1, accept) && t2 == Pick(t1, p2, accept) && t3 == Pick(t2, p3, accept)
    ensures Key(c.detail) in t1 && Key(c.detail) in t2 && Key(c.detail) in t3
    ensures Pick(t3, p4, accept) == t3 - {Key(c.detail)}
  {
    var k := Key(c.detail);
    var c1, c2, c3, c4 := FourWayClose(c, s, p1, p2, p3, p4);
    SameKey(c, p1, s);
    SameKey(c, p2, Other(s));
    SameKey(c, p3, Other(s));
    SameKey(c, p4, s);
    PickStep(t, k, c, p1, c1, accept);
    t1 := t[k := c1];
    PickStep(t1, k, c1, p2, c2, accept);
    t2 := t1[k := c2];
    PickStep(t2, k, c2, p3, c3, accept);
    t3 := t2[k := c3];
    PickStep(t3, k, c3, p4, c4, accept);
  }

  // ---------------------------------------------------------------- two FINs that cross

  /** A second FIN, from the other side, right after the first one. */
  ghost predicate Crosses(c: Conn, s: Side, p1: Packet, p2: Packet) {
    var o := Other(s);
    && IsFin(c, p1, s) && IsFin(c, p2, o) && p1.id != p2.id && p2.ackNum == HalfOf(c, o).ackNo
  }

  /**
   * Without an acknowledgement between them two FINs lead to Closing; if the second one carries the
   * acknowledgement flag, which is looked at first, they lead to LastAck, whatever it acknowledges.
   */
  lemma CrossedFins(c: Conn, s: Side, p1: Packet, p2: Packet) returns (c1: Conn, c2: Conn)
    requires Open2(c) && Crosses(c, s, p1, p2)
    ensures c1 == Receive(c, p1).conn && c2 == Receive(c1, p2).conn && !c2.released && BothFinished(c2)
    ensures c2.path == if p2.ack then c.path + [FinishWait1] + [CloseWait, LastAck] else c.path + [FinishWait1] + [Closing]
    ensures c2.state == if p2.ack then LastAck else Closing
  {
    c1 := FinStep(c, p1, s);
    SecondFits(c, s, p1, p2, c1);
    c2 := FinStep(c1, p2, Other(s));
    SecondPath(c1, p2, Other(s), c2);
  }

  lemma SecondFits(c: Conn, s: Side, p1: Packet, p2: Packet, c1: Conn)
    requires Open2(c) && Crosses(c, s, p1, p2) && AfterTheFin(c, p1, s, c1)
    ensures Tidy(c1) && IsFin(c1, p2, Other(s)) && c1.state.FinishWait1? && c1.path == c.path + [FinishWait1]
    ensures HalfOf(c1, s).stream.finished && !HalfOf(c1, Other(s)).stream.finished
  {
    assert c.path + ([] + [FinishWait1]) == c.path + [FinishWait1];
  }

  lemma SecondPath(c: Conn, p: Packet, o: Side, d: Conn)
    requires c.state.FinishWait1? && HalfOf(c, Other(o)).stream.finished && AfterTheFin(c, p, o, d)
    ensures d.path == c.path + (if p.ack then [CloseWait, LastAck] else [Closing]) && BothFinished(d)
    ensures d.state == (if p.ack then LastAck else Closing) && !d.released
  {
    assert [CloseWait] + [LastAck] == [CloseWait, LastAck];
    assert [] + [Closing] == [Closing];
  }

  /** From there nothing leads on: such a connection stays where it is, and in the table. */
  lemma ClosingIsForever(c: Conn, p: Packet)
    requires c.state.Closing? && BothFinished(c)
    ensures Receive(c, p) == Res(c, None)
  {
  }

  // ---------------------------------------------------------------- which packets are handled

  /** The packets that handling a packet handles without an exception, in order. */
  ghost function HandledIn(c: Conn, p: Packet): seq<Packet>
    decreases Waiting(c), 1
  {
    var r := HandleBody(if p.rst then ProcessRst(c, p) else c, p);
    if r.error.Some? then []
    else [p] + (if p.fin then HandledDraining(ProcessFin(r.conn, p)) else [])
  }

  ghost function HandledDraining(c: Conn): seq<Packet>
    decreases Waiting(c), 0
  {
    var k := PickupPacket(c);
    if k.packet.None? then []
    else
      var r := Handle(k.conn, k.packet.value);
      HandledIn(k.conn, k.packet.value) + (if r.error.Some? then [] else HandledDraining(r.conn))
  }

  /** The packets that are handled when a packet comes: itself if it is in turn, and those it sets free. */
  ghost function HandledBy(c: Conn, p: Packet): seq<Packet> {
    if IsOld(c, p) || (BothFinished(c) && c.state != LastAck) || IsHandshake2(p) || p.id in c.consumed then []
    else if CanProcess(c, p) then HandledIn(c, p)
    else HandledDraining(Store(c, p))
  }

  ghost function HandledOver(c: Conn, trace: seq<Packet>): seq<Packet>
    decreases |trace|
  {
    if trace == [] then [] else HandledBy(c, trace[0]) + HandledOver(Receive(c, trace[0]).conn, trace[1..])
  }

  // ---------------------------------------------------------------- what they lead to

  ghost function Onward(s: State, p: Packet): State {
    var middle := if p.ack then Acked(s) else s;
    if p.fin then Finned(middle) else middle
  }

  /** The state that handled packets lead to, from the end of the handshake on. */
  ghost function Stage(s: State, handled: seq<Packet>): State
    decreases |handled|
  {
    if handled == [] then s else Stage(Onward(s, handled[0]), handled[1..])
  }

  lemma {:induction false} StageConcat(s: State, a: seq<Packet>, b: seq<Packet>)
    ensures Stage(s, a + b) == Stage(Stage(s, a), b)
    decreases |a|
  {
    if a == [] {
      assert a + b == b;
    } else {
      assert (a + b)[1..] == a[1..] + b;
      StageConcat(Onward(s, a[0]), a[1..], b);
    }
  }

  ghost predicate AllAck(handled: seq<Packet>) {
    forall i :: 0 <= i < |handled| ==> handled[i].ack
  }

  /** The handled packets are those that led to the state. */
  ghost predicate Tracks(w: World, c: Conn, handled: seq<Packet>) {
    && Steady(w, c) && AllAck(handled)
    && (if c.state.SynSent? || c.state.SynReceived? then handled == [] && !c.released
        else c.state == Stage(SynReceived, handled) && (c.released <==> c.state.Closed?))
  }

  lemma BodyTracks(w: World, c: Conn, p: Packet, h: seq<Packet>)
    requires Tracks(w, c, h) && Genuine(w, p) && !p.syn && !p.rst && CanProcess(c, p)
    ensures var r := HandleBody(c, p);
            if r.error.Some? then r.conn == c
            else
              && BeforeFin(w, r.conn, p) && r.conn.state == Acked(c.state) && SameWaiting(c, r.conn)
              && (r.conn.released <==> r.conn.state.Closed?)
  {
    BodyCounted(w, c, p);
    NotBeforeHandshake(w, c, p);
  }

  lemma {:induction false} OneHandled(c: Conn, p: Packet, h: seq<Packet>, d: State)
    requires p.ack && (c.state == Stage(SynReceived, h) || (c.state.SynReceived? && h == []))
    requires d == if p.fin then Finned(Acked(c.state)) else Acked(c.state)
    ensures d == Stage(SynReceived, h + [p])
  {
    StageConcat(SynReceived, h, [p]);
    assert Stage(c.state, [p]) == Stage(Onward(c.state, p), []);
  }

  lemma {:induction false} PickupSideRest(c: Conn, s: Side)
    ensures SameRest(c, PickupSide(c, s).conn)
    decreases |HalfOf(c, s).waiting|
  {
    var mine := HalfOf(c, s);
    if mine.waiting != [] {
      var p, rest := mine.waiting[0], With(c, s, mine.(waiting := mine.waiting[1..]));
      if p.id !in c.consumed && !CanProcess(c, p) && IsOld(c, p) {
        PickupSideRest(rest, s);
      }
    }
  }

  lemma PickupTracks(w: World, c: Conn, h: seq<Packet>)
    requires Tracks(w, c, h)
    ensures var k := PickupPacket(c);
            && Tracks(w, k.conn, h)
            && (k.packet.Some? ==> Genuine(w, k.packet.value) && !k.packet.value.syn && !k.packet.value.rst
                                   && CanProcess(k.conn, k.packet.value))
  {
    PickupSteady(w, c);
    PickupSideRest(c, Client);
    PickupSideRest(PickupSide(c, Client).conn, Server);
  }

  lemma FinTracks(w: World, c: Conn, p: Packet, h: seq<Packet>)
    requires Tracks(w, c, h) && Genuine(w, p) && !p.syn && !p.rst && p.fin && CanProcess(c, p) && HandleBody(c, p).error.None?
    ensures Tracks(w, ProcessFin(HandleBody(c, p).conn, p), h + [p])
  {
    BodyTracks(w, c, p, h);
    var b := HandleBody(c, p).conn;
    assert AllGenuine(w, b);
    FinSteady(w, b, p);
    OneHandled(c, p, h, Finned(b.state));
  }

  /** The FIN itself, once what came with it was taken. */
  lemma FinSteady(w: World, b: Conn, p: Packet)
    requires BeforeFin(w, b, p) && Genuine(w, p) && !p.syn && !p.rst && p.fin && AllGenuine(w, b)
    requires NoRst(b.client.waiting) && NoRst(b.server.waiting)
    ensures var d := ProcessFin(b, p);
            Steady(w, d) && d.state == Finned(b.state) && d.released == b.released && !d.state.SynSent? && !d.state.SynReceived?
  {
    FinCounted(w, b, p);
    FinState(b, p);
    StillGenuine(w, b, ProcessFin(b, p));
  }

  lemma StillGenuine(w: World, c: Conn, d: Conn)
    requires SameWaiting(c, d) && AllGenuine(w, c) && NoRst(c.client.waiting) && NoRst(c.server.waiting)
    ensures AllGenuine(w, d) && NoRst(d.client.waiting) && NoRst(d.server.waiting)
  {
  }

  lemma FinState(c: Conn, p: Packet)
    ensures ProcessFin(c, p).state == Finned(c.state) && ProcessFin(c, p).released == c.released
  {
  }

  lemma BareTracks(w: World, c: Conn, p: Packet, h: seq<Packet>)
    requires Tracks(w, c, h) && Genuine(w, p) && !p.syn && !p.rst && !p.fin && CanProcess(c, p) && HandleBody(c, p).error.None?
    ensures Tracks(w, HandleBody(c, p).conn, h + [p])
  {
    HandleSteady(w, c, p);
    BodyTracks(w, c, p, h);
    OneHandled(c, p, h, HandleBody(c, p).conn.state);
  }

  lemma Behind(a: seq<Packet>, b: seq<Packet>, c: seq<Packet>)
    ensures a + (b + c) == a + b + c && a + [] == a
  {
  }

  /** The three outcomes of handling a packet. */
  lemma {:induction false} HandleIs(c: Conn, p: Packet)
    requires !p.rst
    ensures var r := HandleBody(c, p);
            if r.error.Some? then Handle(c, p) == r && HandledIn(c, p) == []
            else if p.fin then Handle(c, p) == Drain(ProcessFin(r.conn, p)) && HandledIn(c, p) == [p] + HandledDraining(ProcessFin(r.conn, p))
            else Handle(c, p) == r && HandledIn(c, p) == [p]
  {
    Behind([p], [], []);
  }

  /** The outcomes of a round of the drain. */
  lemma {:induction false} DrainIs(c: Conn)
    ensures var k := PickupPacket(c);
            if k.packet.None? then Drain(c).conn == k.conn && HandledDraining(c) == []
            else
              var r, taken := Handle(k.conn, k.packet.value), HandledIn(k.conn, k.packet.value);
              if r.error.Some? then Drain(c).conn == r.conn && HandledDraining(c) == taken
              else Drain(c) == Drain(r.conn) && HandledDraining(c) == taken + HandledDraining(r.conn)
  {
    var k := PickupPacket(c);
    if k.packet.Some? {
      Behind(HandledIn(k.conn, k.packet.value), [], []);
    }
  }

  lemma {:induction false} HandleTracks(w: World, c: Conn, p: Packet, h: seq<Packet>)
    requires Tracks(w, c, h) && Genuine(w, p) && !p.syn && !p.rst && CanProcess(c, p)
    ensures Tracks(w, Handle(c, p).conn, h + HandledIn(c, p))
    decreases Waiting(c), 1
  {
    HandleIs(c, p);
    var r := HandleBody(c, p);
    if r.error.Some? {
      BodyTracks(w, c, p, h);
      Behind(h, [], []);
    } else if p.fin {
      FinTracks(w, c, p, h);
      var d := ProcessFin(r.conn, p);
      assert Waiting(d) == Waiting(c);
      DrainTracks(w, d, h + [p]);
      Behind(h, [p], HandledDraining(d));
    } else {
      BareTracks(w, c, p, h);
    }
  }

  lemma {:induction false} DrainTracks(w: World, c: Conn, h: seq<Packet>)
    requires Tracks(w, c, h)
    ensures Tracks(w, Drain(c).conn, h + HandledDraining(c))
    decreases Waiting(c), 0
  {
    DrainIs(c);
    PickupTracks(w, c, h);
    var k := PickupPacket(c);
    if k.packet.None? {
      Behind(h, [], []);
    } else {
      var taken, r := HandledIn(k.conn, k.packet.value), Handle(k.conn, k.packet.value);
      HandleTracks(w, k.conn, k.packet.value, h);
      if r.error.None? {
        DrainTracks(w, r.conn, h + taken);
        Behind(h, taken, HandledDraining(r.conn));
      }
    }
  }

  lemma ReceiveTracks(w: World, c: Conn, p: Packet, h: seq<Packet>)
    requires Tracks(w, c, h) && Genuine(w, p) && !IsHandshake1(p) && !p.rst
    ensures Tracks(w, Receive(c, p).conn, h + HandledBy(c, p))
  {
    ReceiveSteady(w, c, p);
    if IsOld(c, p) || (BothFinished(c) && c.state != LastAck) || IsHandshake2(p) || p.id in c.consumed {
      assert h + [] == h;
    } else if CanProcess(c, p) {
      HandleTracks(w, c, p, h);
    } else {
      SteadyStore(w, c, p);
      DrainTracks(w, Store(c, p), h);
    }
  }

  lemma {:induction false} TraceTracks(w: World, c: Conn, trace: seq<Packet>, h: seq<Packet>)
    requires Tracks(w, c, h) && GenuineTrace(w, trace) && forall i :: 0 <= i < |trace| ==> !trace[i].rst
    ensures Tracks(w, ReceiveAll(c, trace), h + HandledOver(c, trace))
    decreases |trace|
  {
    if trace == [] {
      Behind(h, [], []);
    } else {
      ReceiveTracks(w, c, trace[0], h);
      var c1 := Receive(c, trace[0]).conn;
      TraceTracks(w, c1, trace[1..], h + HandledBy(c, trace[0]));
      Behind(h, HandledBy(c, trace[0]), HandledOver(c1, trace[1..]));
    }
  }

  // ---------------------------------------------------------------- when a connection is let go

  /** Two FINs, an acknowledgement after the first and up to the second, and another one after it. */
  ghost predicate ClosedBy(h: seq<Packet>, i: nat, j: nat, k: nat) {
    && i < j < k < |h| && h[i].fin && h[j].fin && h[k].ack
    && exists m :: i < m <= j && h[m].ack
  }

  ghost predicate Closes(h: seq<Packet>) {
    exists i: nat, j: nat, k: nat :: ClosedBy(h, i, j, k)
  }

  ghost predicate TwoFins(h: seq<Packet>) {
    exists i, j :: 0 <= i < j < |h| && h[i].fin && h[j].fin
  }

  ghost predicate OneFin(h: seq<Packet>) {
    exists i :: 0 <= i < |h| && h[i].fin
  }

  lemma FinsSnoc(h: seq<Packet>, p: Packet)
    ensures OneFin(h + [p]) <==> OneFin(h) || p.fin
    ensures TwoFins(h + [p]) <==> TwoFins(h) || (OneFin(h) && p.fin)
  {
    var all := h + [p];
    assert all[|h|] == p && all[..|h|] == h;
    if OneFin(h) {
      var i :| 0 <= i < |h| && h[i].fin;
      assert all[i].fin;
      if p.fin {
        assert all[i].fin && all[|h|].fin;
      }
    }
    if TwoFins(h) {
      var i, j :| 0 <= i < j < |h| && h[i].fin && h[j].fin;
      assert all[i].fin && all[j].fin;
    }
    if TwoFins(all) {
      var i, j :| 0 <= i < j < |all| && all[i].fin && all[j].fin;
      assert h[i].fin;
      if j < |h| {
        assert h[j].fin;
      }
    }
  }

  /** The stage, by the number of FINs and whether anything came after the second. */
  ghost predicate StageIs(h: seq<Packet>, s: State) {
    if h == [] then s == SynReceived
    else
      var front := h[..|h| - 1];
      if !OneFin(h) then s == Established
      else if !TwoFins(h) then s == (if h[|h| - 1].fin then FinishWait1 else CloseWait)
      else s == (if TwoFins(front) then Closed else LastAck)
  }

  lemma StageSnoc(front: seq<Packet>, p: Packet, s: State)
    requires p.ack && StageIs(front, s)
    ensures StageIs(front + [p], Onward(s, p))
  {
    var h := front + [p];
    assert h[..|h| - 1] == front && h[|h| - 1] == p;
    FinsSnoc(front, p);
    if front == [] {
      assert !OneFin(front) && !TwoFins(front);
    }
  }

  lemma {:induction false} StageByFins(h: seq<Packet>)
    requires AllAck(h)
    ensures StageIs(h, Stage(SynReceived, h))
    decreases |h|
  {
    if h != [] {
      var front, p := h[..|h| - 1], h[|h| - 1];
      StageByFins(front);
      StageSnoc(front, p, Stage(SynReceived, front));
      assert h == front + [p];
      StageConcat(SynReceived, front, [p]);
      OneStage(Stage(SynReceived, front), p);
    }
  }

  lemma {:induction false} OneStage(s: State, p: Packet)
    ensures Stage(s, [p]) == Onward(s, p)
  {
    assert Stage(s, [p]) == Stage(Onward(s, p), []);
  }

  lemma ClosedByFins(h: seq<Packet>)
    requires AllAck(h)
    ensures Closes(h) <==> h != [] && TwoFins(h[..|h| - 1])
  {
    if Closes(h) {
      var i: nat, j: nat, k: nat :| ClosedBy(h, i, j, k);
      var front := h[..|h| - 1];
      assert front[i].fin && front[j].fin;
    }
    if h != [] && TwoFins(h[..|h| - 1]) {
      var front := h[..|h| - 1];
      var i, j :| 0 <= i < j < |front| && front[i].fin && front[j].fin;
      assert h[i] == front[i] && h[j] == front[j] && h[j].ack;
      assert ClosedBy(h, i, j, |h| - 1);
    }
  }

  /**
   * Over every genuine trace without a RST, reordered, repeated or lossy: a connection is let go if
   * and only if two FINs were handled, an acknowledgement after the first one, be it that of the
   * second FIN itself, and another one after the second; and then it went through every state of
   * the full path.
   */
  lemma {:induction false} ReleasedIff(w: World, syn: Packet, trace: seq<Packet>)
    requires Genuine(w, syn) && IsHandshake1(syn) && GenuineTrace(w, trace)
    requires forall i :: 0 <= i < |trace| ==> !trace[i].rst
    ensures var c, h := ReceiveAll(Open(syn), trace), HandledOver(Open(syn), trace);
            && (c.released <==> Closes(h)) && (c.released <==> c.path == FULL_PATH) && c.path <= FULL_PATH
  {
    var c, h := ReceiveAll(Open(syn), trace), HandledOver(Open(syn), trace);
    OpenTracks(w, syn, trace);
    FromTheSyn(syn, trace);
    ClosedByFins(h);
    ReleasedByFins(w, c, h);
  }

  lemma {:induction false} FromTheSyn(syn: Packet, trace: seq<Packet>)
    ensures Lawful(ReceiveAll(Open(syn), trace))
  {
    EveryTrace(Open(syn), trace);
    OpenLawful(syn);
  }

  lemma {:induction false} OpenTracks(w: World, syn: Packet, trace: seq<Packet>)
    requires Genuine(w, syn) && IsHandshake1(syn) && GenuineTrace(w, trace)
    requires forall i :: 0 <= i < |trace| ==> !trace[i].rst
    ensures Tracks(w, ReceiveAll(Open(syn), trace), HandledOver(Open(syn), trace))
  {
    TraceTracks(w, Open(syn), trace, []);
    assert [] + HandledOver(Open(syn), trace) == HandledOver(Open(syn), trace);
  }

  lemma ReleasedByFins(w: World, c: Conn, h: seq<Packet>)
    requires Tracks(w, c, h) && Lawful(c)
    ensures c.released <==> h != [] && TwoFins(h[..|h| - 1])
    ensures (c.released <==> c.path == FULL_PATH) && c.path <= FULL_PATH
  {
    StageByFins(h);
    if h != [] {
      FinsSnoc(h[..|h| - 1], h[|h| - 1]);
      assert h == h[..|h| - 1] + [h[|h| - 1]];
    }
    PathByState(c);
  }

  lemma PathByState(c: Conn)
    requires Lawful(c) && !c.state.Closing?
    ensures c.path <= FULL_PATH && (c.state.Closed? <==> c.path == FULL_PATH)
  {
    if c.path <= FULL_PATH {
      assert c.path[|c.path| - 1] == FULL_PATH[|c.path| - 1];
    }
  }

  // ---------------------------------------------------------------- and its entry

  /** The table follows one connection until it is let go. */
  lemma {:induction false} EntryFollows(t: Table, c: Conn, trace: seq<Packet>, accept: Detail -> bool)
    requires Key(c.detail) in t && t[Key(c.detail)] == c && !c.released
    requires forall i :: 0 <= i < |trace| ==> Key(trace[i].detail) == Key(c.detail) && !IsHandshake1(trace[i])
    ensures Key(c.detail) in PickAll(t, trace, accept) <==> !ReceiveAll(c, trace).released
    ensures !ReceiveAll(c, trace).released ==> PickAll(t, trace, accept)[Key(c.detail)] == ReceiveAll(c, trace)
    decreases |trace|
  {
    if trace != [] {
      var p, k := trace[0], Key(c.detail);
      var d := Receive(c, p).conn;
      PickStep(t, k, c, p, d, accept);
      ReceiveGrows(c, p);
      if d.released {
        EntryStaysAway(t - {k}, k, trace[1..], accept);
        ReleasedStays(d, trace[1..]);
      } else {
        EntryFollows(t[k := d], d, trace[1..], accept);
      }
    }
  }

  lemma {:induction false} EntryStaysAway(t: Table, k: int, trace: seq<Packet>, accept: Detail -> bool)
    requires k !in t && forall i :: 0 <= i < |trace| ==> Key(trace[i].detail) == k && !IsHandshake1(trace[i])
    ensures k !in PickAll(t, trace, accept)
    decreases |trace|
  {
    if trace != [] {
      EntryStaysAway(Pick(t, trace[0], accept), k, trace[1..], accept);
    }
  }

  lemma {:induction false} ReleasedStays(c: Conn, trace: seq<Packet>)
    requires c.released
    ensures ReceiveAll(c, trace).released
    decreases |trace|
  {
    if trace != [] {
      ReceiveGrows(c, trace[0]);
      ReleasedStays(Receive(c, trace[0]).conn, trace[1..]);
    }
  }

  /**
   * From the SYN on: the entry of a connection is in the table after a genuine trace without a RST
   * if and only if it was not closed so.
   */
  lemma {:induction false} EntryGoneIff(w: World, t: Table, syn: Packet, trace: seq<Packet>, accept: Detail -> bool)
    requires Genuine(w, syn) && IsHandshake1(syn) && GenuineTrace(w, trace) && accept(syn.detail)
    requires forall i :: 0 <= i < |trace| ==> !trace[i].rst
    ensures var h := HandledOver(Open(syn), trace);
            Key(w.detail) in PickAll(Pick(t, syn, accept), trace, accept)
            <==> !Closes(h)
  {
    KeyIgnoresDirection(w.detail);
    ReleasedIff(w, syn, trace);
    EntryFollows(Pick(t, syn, accept), Open(syn), trace, accept);
  }
}
