/**
 * What holds of a connection over every trace of packets, well-formed or not: the order of its
 * states, that finished streams are frozen, that draining leaves nothing to do, and that no
 * waiting packet is ever one that was consumed.
 */
module TcpRuns {
  import opened Bytes
  import opened TcpPacket
  import opened TcpBuffer
  import opened TcpStream
  import StreamBuffer
  import opened TcpMachine

  // ---------------------------------------------------------------- states

  const FULL_PATH: seq<State> := [SynSent, SynReceived, Established, FinishWait1, CloseWait, LastAck, Closed]
  const SIMULTANEOUS_CLOSE: seq<State> := [SynSent, SynReceived, Established, FinishWait1, Closing]

  /** The paths a connection may take. */
  ghost predicate Legal(path: seq<State>) {
    path != [] && (path <= FULL_PATH || path == SIMULTANEOUS_CLOSE)
  }

  ghost predicate Lawful(c: Conn) {
    Legal(c.path) && c.state == c.path[|c.path| - 1]
  }

  /** Which state may follow which. */
  predicate Follows(s: State, t: State) {
    match s
    case SynSent => t == SynReceived
    case SynReceived => t == Established
    case Established => t == FinishWait1
    case FinishWait1 => t == CloseWait || t == Closing
    case CloseWait => t == LastAck
    case LastAck => t == Closed
    case _ => false
  }

  lemma EnterLawful(c: Conn, s: State)
    requires Lawful(c) && Follows(c.state, s)
    ensures Lawful(Enter(c, s))
  {
    var n := |c.path|;
    if c.path <= FULL_PATH {
      assert c.path == FULL_PATH[..n];
      assert c.state == FULL_PATH[n - 1];
      if s == Closing {
        assert n == 4;
        assert Enter(c, s).path == SIMULTANEOUS_CLOSE;
      } else {
        assert s == FULL_PATH[n];
        assert Enter(c, s).path == FULL_PATH[..n + 1];
      }
    }
  }

  /**
   * Along a legal path the rank rises strictly, and the connection is established at most once,
   * right after the handshake.
   */
  lemma LegalPath(path: seq<State>)
    requires Legal(path)
    ensures forall i, j :: 0 <= i < j < |path| ==> Rank(path[i]) < Rank(path[j])
    ensures forall i :: 0 <= i < |path| && path[i] == Established ==> i == 2 && path[..3] == [SynSent, SynReceived, Established]
  {
    if path <= FULL_PATH {
      assert forall i :: 0 <= i < |path| ==> path[i] == FULL_PATH[i];
    }
  }

  // ---------------------------------------------------------------- evolution

  /**
   * What may happen to a stream: it grows, and once finished it does not; and it is always what
   * the calls made on it amount to.
   */
  ghost predicate StreamEvolves(l: Log, l': Log) {
    && Written(l) <= Written(l')
    && (l.finished ==> l'.finished && Written(l') == Written(l))
    && l.calls <= l'.calls && (Replays(l) ==> Replays(l'))
  }

  lemma CloseEvolves(l: Log, markOnly: bool)
    ensures StreamEvolves(l, Close(l, markOnly))
  {
    CloseKeeps(l, markOnly);
    if Replays(l) {
      CallReplays(l, StreamBuffer.Finish(markOnly));
    }
  }

  lemma AddEvolves(l: Log, octets: seq<byte>)
    ensures StreamEvolves(l, Add(l, octets))
  {
    AddExtends(l, octets);
    if Replays(l) {
      CallReplays(l, StreamBuffer.Append(octets));
    }
  }

  ghost predicate Suffix(a: seq<Packet>, b: seq<Packet>) {
    |a| <= |b| && a == b[|b| - |a|..]
  }

  /** What any packet may do to a connection. */
  ghost predicate Grows(c: Conn, c': Conn) {
    && c'.detail == c.detail
    && c.path <= c'.path && (Lawful(c) ==> Lawful(c'))
    && StreamEvolves(c.client.stream, c'.client.stream)
    && StreamEvolves(c.server.stream, c'.server.stream)
    && c.consumed <= c'.consumed
    && (c.released ==> c'.released) && (c.maybeBroken ==> c'.maybeBroken)
  }

  /** What handling and draining may do: besides, waiting packets only leave, the lowest first. */
  ghost predicate Evolves(c: Conn, c': Conn) {
    && Grows(c, c')
    && Suffix(c'.client.waiting, c.client.waiting)
    && Suffix(c'.server.waiting, c.server.waiting)
  }

  lemma GrowsTrans(a: Conn, b: Conn, c: Conn)
    requires Grows(a, b) && Grows(b, c)
    ensures Grows(a, c)
  {
  }

  lemma EvolvesTrans(a: Conn, b: Conn, c: Conn)
    requires Evolves(a, b) && Evolves(b, c)
    ensures Evolves(a, c)
  {
    GrowsTrans(a, b, c);
  }

  /** One state further at most, and no other change of the path. */
  ghost predicate Moves(c: Conn, c': Conn) {
    || (c'.state == c.state && c'.path == c.path)
    || (Follows(c.state, c'.state) && c'.path == c.path + [c'.state])
  }

  lemma MoveGrows(c: Conn, c': Conn)
    requires Moves(c, c') && c'.detail == c.detail && c.consumed <= c'.consumed
    requires (c.released ==> c'.released) && (c.maybeBroken ==> c'.maybeBroken)
    requires StreamEvolves(c.client.stream, c'.client.stream) && StreamEvolves(c.server.stream, c'.server.stream)
    ensures Grows(c, c')
  {
    if Lawful(c) && c'.path != c.path {
      EnterLawful(c, c'.state);
    }
  }

  lemma AckGrows(c: Conn, p: Packet)
    ensures Grows(c, ProcessAck(c, p).conn)
  {
    MoveGrows(c, ProcessAck(c, p).conn);
  }

  /** What a data packet does to the two streams. */
  lemma DataHalves(c: Conn, p: Packet, s: Side)
    requires s == Sender(c, p)
    ensures var mine, other := HalfOf(c, s).stream, HalfOf(c, Other(s)).stream;
            var c' := ProcessData(c, p).conn;
            && HalfOf(c', s).stream == Add(mine, p.data)
            && HalfOf(c', Other(s)).stream == (if HalfOf(c, Other(s)).ackNo == p.sequence then Close(other, true) else other)
  {
  }

  lemma DataStreams(c: Conn, p: Packet)
    ensures var c' := ProcessData(c, p).conn;
            StreamEvolves(c.client.stream, c'.client.stream) && StreamEvolves(c.server.stream, c'.server.stream)
  {
    var s := Sender(c, p);
    CloseEvolves(HalfOf(c, Other(s)).stream, true);
    AddEvolves(HalfOf(c, s).stream, p.data);
    DataHalves(c, p, s);
  }

  lemma DataGrows(c: Conn, p: Packet)
    ensures Grows(c, ProcessData(c, p).conn)
  {
    DataStreams(c, p);
    MoveGrows(c, ProcessData(c, p).conn);
  }

  /** What `processFinishPacket` leaves of the side that sent the FIN. */
  lemma FinHalf(c: Conn, p: Packet, s: Side)
    requires s == Sender(c, p)
    ensures var h := HalfOf(ProcessFin(c, p), s);
            && h.stream == Close(HalfOf(c, s).stream, false) && h.seqNo == p.sequence + |p.data| + 1
            && h.waiting == HalfOf(c, s).waiting
    ensures HalfOf(ProcessFin(c, p), Other(s)) == HalfOf(c, Other(s))
  {
  }

  lemma FinMoves(c: Conn, p: Packet)
    ensures Moves(c, ProcessFin(c, p))
  {
  }

  lemma FinGrows(c: Conn, p: Packet)
    ensures Grows(c, ProcessFin(c, p))
  {
    var s := Sender(c, p);
    CloseEvolves(HalfOf(c, s).stream, false);
    FinHalf(c, p, s);
    FinMoves(c, p);
    MoveGrows(c, ProcessFin(c, p));
  }

  lemma RstGrows(c: Conn, p: Packet)
    ensures Grows(c, ProcessRst(c, p)) && BothFinished(ProcessRst(c, p))
    ensures ProcessRst(c, p).state == c.state
  {
    CloseEvolves(c.client.stream, false);
    CloseEvolves(c.server.stream, false);
    MoveGrows(c, ProcessRst(c, p));
  }

  lemma BodyEvolves(c: Conn, p: Packet)
    ensures Evolves(c, HandleBody(c, p).conn)
  {
    var r := if p.ack then ProcessAck(c, p) else Res(c, None);
    AckGrows(c, p);
    DataGrows(r.conn, p);
    GrowsTrans(c, r.conn, ProcessData(r.conn, p).conn);
  }

  /** Taking the first packet of a side away. */
  lemma DropEvolves(c: Conn, s: Side, rest: Conn)
    requires HalfOf(c, s).waiting != [] && rest == With(c, s, HalfOf(c, s).(waiting := HalfOf(c, s).waiting[1..]))
    ensures Evolves(c, rest) && HalfOf(rest, Other(s)) == HalfOf(c, Other(s))
  {
    MoveGrows(c, rest);
  }

  lemma {:induction false} PickupSideEvolves(c: Conn, s: Side)
    ensures var r := PickupSide(c, s);
            Evolves(c, r.conn) && HalfOf(r.conn, Other(s)) == HalfOf(c, Other(s))
    decreases |HalfOf(c, s).waiting|
  {
    var mine := HalfOf(c, s);
    if mine.waiting != [] {
      var p, rest := mine.waiting[0], With(c, s, mine.(waiting := mine.waiting[1..]));
      DropEvolves(c, s, rest);
      if p.id !in c.consumed && !CanProcess(c, p) && IsOld(c, p) {
        PickupSideEvolves(rest, s);
        EvolvesTrans(c, rest, PickupSide(rest, s).conn);
      }
    }
  }

  lemma PickupEvolves(c: Conn)
    ensures Evolves(c, PickupPacket(c).conn)
  {
    PickupSideEvolves(c, Client);
    var r := PickupSide(c, Client);
    PickupSideEvolves(r.conn, Server);
    EvolvesTrans(c, r.conn, PickupSide(r.conn, Server).conn);
  }

  /** Everything in handling a packet up to its FIN. */
  lemma FirstPartEvolves(c: Conn, p: Packet)
    ensures Evolves(c, HandleBody(if p.rst then ProcessRst(c, p) else c, p).conn)
  {
    var c1 := if p.rst then ProcessRst(c, p) else c;
    RstGrows(c, p);
    BodyEvolves(c1, p);
    EvolvesTrans(c, c1, HandleBody(c1, p).conn);
  }

  lemma FinEvolves(c: Conn, p: Packet)
    ensures Evolves(c, ProcessFin(c, p))
  {
    FinGrows(c, p);
  }

  lemma {:induction false} HandleEvolves(c: Conn, p: Packet)
    ensures Evolves(c, Handle(c, p).conn)
    decreases Waiting(c), 1
  {
    FirstPartEvolves(c, p);
    var r := HandleBody(if p.rst then ProcessRst(c, p) else c, p);
    if r.error.None? && p.fin {
      var c2 := ProcessFin(r.conn, p);
      FinEvolves(r.conn, p);
      EvolvesTrans(c, r.conn, c2);
      DrainEvolves(c2);
      EvolvesTrans(c, c2, Drain(c2).conn);
    }
  }

  lemma {:induction false} DrainEvolves(c: Conn)
    ensures Evolves(c, Drain(c).conn)
    decreases Waiting(c), 0
  {
    PickupEvolves(c);
    var k := PickupPacket(c);
    if k.packet.Some? {
      HandleEvolves(k.conn, k.packet.value);
      var r := Handle(k.conn, k.packet.value);
      EvolvesTrans(c, k.conn, r.conn);
      if r.error.None? {
        DrainEvolves(r.conn);
        EvolvesTrans(c, r.conn, Drain(r.conn).conn);
      }
    }
  }

  lemma SynAckGrows(c: Conn, p: Packet)
    requires c.state == SynSent
    ensures Grows(c, ProcessSynAck(c, p).conn)
  {
    MoveGrows(c, ProcessSynAck(c, p).conn);
  }

  lemma StoreGrows(c: Conn, p: Packet)
    ensures Grows(c, Drain(Store(c, p)).conn)
  {
    MoveGrows(c, Store(c, p));
    DrainEvolves(Store(c, p));
    GrowsTrans(c, Store(c, p), Drain(Store(c, p)).conn);
  }

  /** One packet, whatever it is and whether or not it is refused with an exception. */
  lemma ReceiveGrows(c: Conn, p: Packet)
    ensures Grows(c, Receive(c, p).conn)
  {
    if IsOld(c, p) || (BothFinished(c) && c.state != LastAck) {
    } else if IsHandshake2(p) {
      if c.state == SynSent {
        SynAckGrows(c, p);
      }
    } else if p.id !in c.consumed {
      if CanProcess(c, p) {
        HandleEvolves(c, p);
      } else {
        StoreGrows(c, p);
      }
    }
  }

  lemma {:induction false} ReceiveAllSnoc(c: Conn, trace: seq<Packet>, p: Packet)
    ensures ReceiveAll(c, trace + [p]) == Receive(ReceiveAll(c, trace), p).conn
    decreases |trace|
  {
    if trace == [] {
      assert [] + [p] == [p];
      assert ReceiveAll(c, [p]) == ReceiveAll(Receive(c, p).conn, []);
    } else {
      assert (trace + [p])[1..] == trace[1..] + [p];
      ReceiveAllSnoc(Receive(c, trace[0]).conn, trace[1..], p);
    }
  }

  lemma {:induction false} ReceiveAllConcat(c: Conn, a: seq<Packet>, b: seq<Packet>)
    ensures ReceiveAll(c, a + b) == ReceiveAll(ReceiveAll(c, a), b)
    decreases |a|
  {
    if a == [] {
      assert a + b == b;
    } else {
      assert (a + b)[1..] == a[1..] + b;
      ReceiveAllConcat(Receive(c, a[0]).conn, a[1..], b);
    }
  }

  /**
   * For every trace: the states a connection enters form a legal path, of which the earlier part
   * never changes; its streams only grow; a finished stream never gains an octet; and a connection
   * once let go, or once taken for broken, stays so.
   */
  lemma {:induction false} EveryTrace(c: Conn, trace: seq<Packet>)
    ensures Grows(c, ReceiveAll(c, trace))
    decreases |trace|
  {
    if trace != [] {
      ReceiveGrows(c, trace[0]);
      var c1 := Receive(c, trace[0]).conn;
      EveryTrace(c1, trace[1..]);
      GrowsTrans(c, c1, ReceiveAll(c1, trace[1..]));
    }
  }

  /** From the packet that opens it on, a connection's rank only rises. */
  lemma {:induction false} RankRises(syn: Packet, first: seq<Packet>, more: seq<Packet>)
    ensures var c := ReceiveAll(Open(syn), first);
            var c' := ReceiveAll(c, more);
            && Lawful(c) && Lawful(c')
            && (c'.state == c.state || Rank(c.state) < Rank(c'.state))
            && (forall i :: 0 <= i < |c'.path| && c'.path[i] == Established ==> i == 2 && c'.path[..3] == [SynSent, SynReceived, Established])
  {
    var c := ReceiveAll(Open(syn), first);
    OpenLawful(syn);
    EveryTrace(Open(syn), first);
    EveryTrace(c, more);
    PathsRise(c, ReceiveAll(c, more));
  }

  lemma OpenLawful(syn: Packet)
    ensures Lawful(Open(syn))
  {
    assert [SynSent] == FULL_PATH[..1];
  }

  lemma PathsRise(c: Conn, c': Conn)
    requires Lawful(c) && Grows(c, c')
    ensures Lawful(c') && (c'.state == c.state || Rank(c.state) < Rank(c'.state))
    ensures forall i :: 0 <= i < |c'.path| && c'.path[i] == Established ==> i == 2 && c'.path[..3] == [SynSent, SynReceived, Established]
  {
    LegalPath(c'.path);
    assert c.path == c'.path[..|c.path|];
    assert c.state == c'.path[|c.path| - 1];
  }

  // ---------------------------------------------------------------- draining leaves nothing to do

  /** No packet anywhere in the buffer of that side is old or could be processed. */
  ghost predicate QuietSide(c: Conn, s: Side) {
    forall p :: p in HalfOf(c, s).waiting ==> !IsOld(c, p) && !CanProcess(c, p)
  }

  /** Every waiting packet lies in the buffer of its sender. */
  ghost predicate Filed(c: Conn) {
    && (forall p :: p in c.client.waiting ==> Sender(c, p) == Client)
    && (forall p :: p in c.server.waiting ==> Sender(c, p) == Server)
  }

  ghost predicate Ordered(c: Conn) {
    Filed(c) && Sorted(c.client.waiting) && Sorted(c.server.waiting)
  }

  lemma SuffixSorted(a: seq<Packet>, b: seq<Packet>)
    requires Suffix(a, b) && Sorted(b)
    ensures Sorted(a) && forall p :: p in a ==> p in b
  {
  }

  lemma EvolvesOrdered(c: Conn, c': Conn)
    requires Ordered(c) && Evolves(c, c')
    ensures Ordered(c')
  {
    SuffixSorted(c'.client.waiting, c.client.waiting);
    SuffixSorted(c'.server.waiting, c.server.waiting);
  }

  /** Looking at the first packet is looking at all of them. */
  lemma FirstDecides(c: Conn, s: Side)
    requires Ordered(c)
    requires HalfOf(c, s).waiting != [] ==>
               !IsOld(c, HalfOf(c, s).waiting[0]) && !CanProcess(c, HalfOf(c, s).waiting[0])
    ensures QuietSide(c, s)
  {
    var w := HalfOf(c, s).waiting;
    forall p | p in w ensures !IsOld(c, p) && !CanProcess(c, p) {
      var i :| 0 <= i < |w| && w[i] == p;
      assert Sender(c, p) == s && Sender(c, w[0]) == s;
      assert i > 0 ==> w[0].sequence < w[i].sequence;
    }
  }

  /** Picking up changes nothing but the buffer of that side. */
  lemma {:induction false} PickupSideOnly(c: Conn, s: Side)
    ensures var r := PickupSide(c, s).conn; r == With(c, s, HalfOf(c, s).(waiting := HalfOf(r, s).waiting))
    decreases |HalfOf(c, s).waiting|
  {
    var mine := HalfOf(c, s);
    if mine.waiting != [] {
      var p, rest := mine.waiting[0], With(c, s, mine.(waiting := mine.waiting[1..]));
      if p.id !in c.consumed && !CanProcess(c, p) && IsOld(c, p) {
        PickupSideOnly(rest, s);
      }
    }
  }

  lemma {:induction false} PickupSideQuiet(c: Conn, s: Side)
    requires Ordered(c)
    ensures var r := PickupSide(c, s); r.packet.None? && r.error.None? ==> QuietSide(r.conn, s)
    decreases |HalfOf(c, s).waiting|
  {
    var mine := HalfOf(c, s);
    if mine.waiting != [] {
      var p, rest := mine.waiting[0], With(c, s, mine.(waiting := mine.waiting[1..]));
      if p.id !in c.consumed && !CanProcess(c, p) {
        if IsOld(c, p) {
          DropEvolves(c, s, rest);
          EvolvesOrdered(c, rest);
          PickupSideQuiet(rest, s);
        } else {
          FirstDecides(c, s);
        }
      }
    }
  }

  /** Counters, and so what is old or processable, do not change when packets are only removed. */
  lemma QuietSideKept(c: Conn, c': Conn, s: Side)
    requires QuietSide(c, s) && c'.detail == c.detail && HalfOf(c', s).waiting == HalfOf(c, s).waiting
    requires forall x: Side :: HalfOf(c', x).seqNo == HalfOf(c, x).seqNo && HalfOf(c', x).ackNo == HalfOf(c, x).ackNo
    ensures QuietSide(c', s)
  {
    forall p | p in HalfOf(c', s).waiting ensures !IsOld(c', p) && !CanProcess(c', p) {
      assert !IsOld(c, p) && !CanProcess(c, p);
      assert Sender(c, p) == Sender(c', p);
    }
  }

  /** When nothing is picked up, neither side has anything to do. */
  lemma PickupQuiet(c: Conn)
    requires Ordered(c)
    ensures var k := PickupPacket(c);
            k.packet.None? && k.error.None? ==> QuietSide(k.conn, Client) && QuietSide(k.conn, Server)
  {
    var r1 := PickupSide(c, Client);
    PickupSideQuiet(c, Client);
    PickupSideEvolves(c, Client);
    EvolvesOrdered(c, r1.conn);
    if r1.packet.None? && r1.error.None? {
      var r2 := PickupSide(r1.conn, Server);
      PickupSideQuiet(r1.conn, Server);
      PickupSideOnly(r1.conn, Server);
      if r2.packet.None? && r2.error.None? {
        QuietSideKept(r1.conn, r2.conn, Client);
      }
    }
  }

  lemma HandledOrdered(c: Conn)
    requires Ordered(c) && PickupPacket(c).packet.Some?
    ensures Ordered(Handle(PickupPacket(c).conn, PickupPacket(c).packet.value).conn)
  {
    var k := PickupPacket(c);
    PickupEvolves(c);
    EvolvesOrdered(c, k.conn);
    HandleEvolves(k.conn, k.packet.value);
    EvolvesOrdered(k.conn, Handle(k.conn, k.packet.value).conn);
  }

  /**
   * After every drain that ends without an exception, no packet in either buffer is old or could
   * be processed, although only the first of each is ever looked at.
   */
  lemma {:induction false} DrainIsQuiet(c: Conn)
    requires Ordered(c)
    ensures var r := Drain(c); r.error.None? ==> QuietSide(r.conn, Client) && QuietSide(r.conn, Server)
    decreases Waiting(c)
  {
    var k := PickupPacket(c);
    if k.packet.None? {
      PickupQuiet(c);
    } else {
      HandledOrdered(c);
      var r := Handle(k.conn, k.packet.value);
      if r.error.None? {
        DrainIsQuiet(r.conn);
      }
    }
  }

  lemma StoreOrdered(c: Conn, p: Packet)
    requires Ordered(c) && Near(HalfOf(c, Sender(c, p)).waiting, p)
    ensures Ordered(Store(c, p))
  {
    var s := Sender(c, p);
    InsertSorted(HalfOf(c, s).waiting, p);
    InsertFrom(HalfOf(c, s).waiting, p);
  }

  lemma {:induction false} HandleIsQuiet(c: Conn, p: Packet)
    requires Ordered(c)
    ensures Ordered(Handle(c, p).conn)
    ensures var r := Handle(c, p);
            p.fin && r.error.None? ==> QuietSide(r.conn, Client) && QuietSide(r.conn, Server)
  {
    HandleEvolves(c, p);
    EvolvesOrdered(c, Handle(c, p).conn);
    var r := HandleBody(if p.rst then ProcessRst(c, p) else c, p);
    if p.fin && r.error.None? {
      var c2 := ProcessFin(r.conn, p);
      assert SameWaiting(c, c2) && c2.detail == c.detail;
      assert Ordered(c2);
      DrainIsQuiet(c2);
    }
  }

  /** A packet that is put away or that finishes a stream leaves a quiet connection behind. */
  lemma ReceiveIsQuiet(c: Conn, p: Packet)
    requires Ordered(c) && Near(HalfOf(c, Sender(c, p)).waiting, p)
    ensures Ordered(Receive(c, p).conn)
    ensures var r := Receive(c, p);
            !IsOld(c, p) && !(BothFinished(c) && c.state != LastAck) && !IsHandshake2(p)
            && r.error.None? && (p.fin || !CanProcess(c, p))
            ==> QuietSide(r.conn, Client) && QuietSide(r.conn, Server)
  {
    if IsOld(c, p) || (BothFinished(c) && c.state != LastAck) {
    } else if IsHandshake2(p) {
    } else if p.id in c.consumed {
    } else if CanProcess(c, p) {
      HandleIsQuiet(c, p);
    } else {
      StoreOrdered(c, p);
      DrainEvolves(Store(c, p));
      EvolvesOrdered(Store(c, p), Drain(Store(c, p)).conn);
      DrainIsQuiet(Store(c, p));
    }
  }

  /** A connection is quiet exactly if the first waiting packet of each side is neither old nor processable. */
  lemma QuietIff(c: Conn, s: Side)
    requires Ordered(c)
    ensures QuietSide(c, s) <==>
            var w := HalfOf(c, s).waiting; w == [] || (!IsOld(c, w[0]) && !CanProcess(c, w[0]))
  {
    var w := HalfOf(c, s).waiting;
    if w == [] || (!IsOld(c, w[0]) && !CanProcess(c, w[0])) {
      FirstDecides(c, s);
    } else {
      assert w[0] in w;
    }
  }

  /** The acknowledgement that ends the handshake counts as the client's, whoever sent it. */
  predicate EndsHandshake(c: Conn, p: Packet) {
    p.ack && c.state.SynReceived?
  }

  /** The packet is counted by its sender's counter. */
  predicate IsCounted(c: Conn, p: Packet) {
    || p.data != [] || p.rst || (p.ack && (c.state.FinishWait1? || c.state.LastAck?))
    || (EndsHandshake(c, p) && Sender(c, p) == Client)
  }

  /** The sequence number that a side is expected to go on with after a packet in order without FIN. */
  function NextSeq(c: Conn, p: Packet, s: Side): int {
    if s == Sender(c, p) then
      p.sequence + |p.data| + (if EndsHandshake(c, p) && s == Server && p.data == [] then 1 else 0)
    else if !EndsHandshake(c, p) then HalfOf(c, s).seqNo
    else if s == Server then c.server.seqNo + 1
    else p.sequence + |p.data|
  }

  /** The acknowledgement number that its counter holds then. */
  function NextAck(c: Conn, p: Packet, s: Side): int {
    if s == Sender(c, p) then if IsCounted(c, p) then p.ackNum else HalfOf(c, s).ackNo
    else if EndsHandshake(c, p) && s == Client then p.ackNum
    else HalfOf(c, s).ackNo
  }

  lemma AckCounters(c: Conn, p: Packet, s: Side)
    requires p.ack && ProcessAck(c, p).error.None? && p.sequence == HalfOf(c, Sender(c, p)).seqNo
    ensures var h := HalfOf(ProcessAck(c, p).conn, s);
            && (!EndsHandshake(c, p) && s != Sender(c, p) ==> h.seqNo == HalfOf(c, s).seqNo && h.ackNo == HalfOf(c, s).ackNo)
            && (!EndsHandshake(c, p) && s == Sender(c, p) ==>
                  if c.state.FinishWait1? || c.state.LastAck? then h.seqNo == p.sequence + |p.data| && h.ackNo == p.ackNum
                  else h.seqNo == p.sequence && h.ackNo == HalfOf(c, s).ackNo)
            && (EndsHandshake(c, p) ==>
                  if s == Client then h.seqNo == p.sequence + |p.data| && h.ackNo == p.ackNum
                  else h.seqNo == c.server.seqNo + 1 && h.ackNo == c.server.ackNo)
  {
  }

  lemma DataCounters(c: Conn, p: Packet, s: Side)
    requires ProcessData(c, p).error.None?
    ensures var h := HalfOf(ProcessData(c, p).conn, s);
            if s == Sender(c, p) then h.seqNo == p.sequence + |p.data| && h.ackNo == p.ackNum
            else h.seqNo == HalfOf(c, s).seqNo && h.ackNo == HalfOf(c, s).ackNo
  {
  }

  lemma RstCounters(c: Conn, p: Packet, s: Side)
    ensures var d := ProcessRst(c, p);
            var h := HalfOf(d, s);
            && d.detail == c.detail && d.state == c.state && d.client.stream.finished && d.server.stream.finished
            && if s == Sender(c, p) then h.seqNo == p.sequence + |p.data| && h.ackNo == p.ackNum
               else h.seqNo == HalfOf(c, s).seqNo && h.ackNo == HalfOf(c, s).ackNo
  {
  }

  /** A reset closes both streams, so that a packet with data behind it is an error. */
  lemma RstCarriesNothing(c: Conn, p: Packet)
    requires p.rst && HandleBody(ProcessRst(c, p), p).error.None?
    ensures p.data == []
  {
    RstCounters(c, p, Client);
    if p.data != [] && p.ack {
      AckGrows(ProcessRst(c, p), p);
    }
  }

  /** The counters after the part of the handling before the FIN. */
  lemma BodyCounters(c: Conn, p: Packet, s: Side)
    requires !p.rst && p.sequence == HalfOf(c, Sender(c, p)).seqNo && HandleBody(c, p).error.None?
    ensures var h := HalfOf(HandleBody(c, p).conn, s);
            h.seqNo == NextSeq(c, p, s) && h.ackNo == NextAck(c, p, s)
  {
    var r := if p.ack then ProcessAck(c, p) else Res(c, None);
    if p.ack {
      AckCounters(c, p, s);
    }
    if p.data != [] {
      DataCounters(r.conn, p, s);
    }
  }

  lemma {:induction false} CountersAfter(c: Conn, p: Packet, s: Side)
    requires CanProcess(c, p) && !p.fin && Handle(c, p).error.None?
    ensures var h := HalfOf(Handle(c, p).conn, s);
            h.seqNo == NextSeq(c, p, s) && h.ackNo == NextAck(c, p, s)
  {
    if p.rst {
      RstCarriesNothing(c, p);
      RstCounters(c, p, Client);
      RstCounters(c, p, Server);
      if p.ack {
        AckCounters(ProcessRst(c, p), p, s);
      }
    } else {
      BodyCounters(c, p, s);
    }
  }

  /**
   * A waiting packet of a side stays where it is: it is ahead, or it is next but acknowledges
   * neither what its side nor what the other side has got to.
   */
  predicate Remains(w: Packet, seqNo: int, ackNo: int, otherSeqNo: int) {
    w.sequence > seqNo
    || (w.sequence == seqNo && (w.data != [] || w.rst || w.fin) && w.ackNum != ackNo && w.ackNum != otherSeqNo)
  }

  /**
   * A packet in order that carries no FIN and is handled without an exception drains nothing: a
   * side is quiet afterwards exactly if its first waiting packet is ahead of where the packet
   * leads, or is next and breaks the rule for acknowledgements.
   */
  lemma InOrderIsQuietIff(c: Conn, p: Packet, s: Side)
    requires Ordered(c) && !IsOld(c, p) && !(BothFinished(c) && c.state != LastAck) && !IsHandshake2(p)
    requires p.id !in c.consumed && CanProcess(c, p) && !p.fin && Receive(c, p).error.None?
    ensures SameWaiting(c, Receive(c, p).conn)
    ensures QuietSide(Receive(c, p).conn, s) <==>
            var w := HalfOf(c, s).waiting;
            w == [] || Remains(w[0], NextSeq(c, p, s), NextAck(c, p, s), NextSeq(c, p, Other(s)))
  {
    var c', w := Receive(c, p).conn, HalfOf(c, s).waiting;
    assert c' == Handle(c, p).conn;
    HandleIsQuiet(c, p);
    QuietIff(c', s);
    CountersAfter(c, p, s);
    CountersAfter(c, p, Other(s));
    if w != [] {
      assert w[0] in HalfOf(c', s).waiting;
      assert Sender(c', w[0]) == s;
    }
  }

  /** The sequence numbers of each side lie in a window below 2^31. */
  ghost predicate InWindow(d: Detail, p: Packet, client: int, server: int) {
    var lo := if p.detail == d then client else server;
    lo <= p.sequence < lo + TWO31
  }

  ghost predicate Windowed(c: Conn, client: int, server: int) {
    && (forall p :: p in c.client.waiting ==> InWindow(c.detail, p, client, server))
    && (forall p :: p in c.server.waiting ==> InWindow(c.detail, p, client, server))
  }

  lemma WindowIsNear(c: Conn, p: Packet, client: int, server: int)
    requires Ordered(c) && Windowed(c, client, server) && InWindow(c.detail, p, client, server)
    ensures Near(HalfOf(c, Sender(c, p)).waiting, p)
  {
    var w := HalfOf(c, Sender(c, p)).waiting;
    forall i | 0 <= i < |w| ensures -TWO31 < p.sequence - w[i].sequence < TWO31 {
      assert w[i] in w;
    }
  }

  lemma SuffixWindowed(c: Conn, c': Conn, client: int, server: int)
    requires Windowed(c, client, server) && Evolves(c, c')
    ensures Windowed(c', client, server)
  {
    assert forall p :: p in c'.client.waiting ==> p in c.client.waiting;
    assert forall p :: p in c'.server.waiting ==> p in c.server.waiting;
  }

  lemma StoreWindowed(c: Conn, p: Packet, client: int, server: int)
    requires Windowed(c, client, server) && InWindow(c.detail, p, client, server)
    ensures Windowed(Store(c, p), client, server)
  {
    InsertFrom(HalfOf(c, Sender(c, p)).waiting, p);
  }

  lemma ReceiveOrdered(c: Conn, p: Packet, client: int, server: int)
    requires Ordered(c) && Windowed(c, client, server) && InWindow(c.detail, p, client, server)
    ensures var c' := Receive(c, p).conn; Ordered(c') && Windowed(c', client, server) && c'.detail == c.detail
  {
    WindowIsNear(c, p, client, server);
    ReceiveIsQuiet(c, p);
    ReceiveGrows(c, p);
    if IsOld(c, p) || (BothFinished(c) && c.state != LastAck) {
    } else if IsHandshake2(p) {
    } else if p.id in c.consumed {
    } else if CanProcess(c, p) {
      HandleEvolves(c, p);
      SuffixWindowed(c, Handle(c, p).conn, client, server);
    } else {
      StoreWindowed(c, p, client, server);
      DrainEvolves(Store(c, p));
      SuffixWindowed(Store(c, p), Drain(Store(c, p)).conn, client, server);
    }
  }

  /**
   * Over every trace whose sequence numbers lie, for each side, in a window below 2^31: the buffers
   * stay sorted, one packet per sequence number; and after every further packet that is put away and
   * every FIN, handled without an exception, nothing that waits is old or could be processed.
   */
  lemma {:induction false} TraceIsQuiet(c: Conn, trace: seq<Packet>, p: Packet, client: int, server: int)
    requires Ordered(c) && Windowed(c, client, server) && InWindow(c.detail, p, client, server)
    requires forall i :: 0 <= i < |trace| ==> InWindow(c.detail, trace[i], client, server)
    ensures var c1 := ReceiveAll(c, trace);
            var r := Receive(c1, p);
            && Ordered(c1) && Ordered(r.conn)
            && (!IsOld(c1, p) && !(BothFinished(c1) && c1.state != LastAck) && !IsHandshake2(p)
                && r.error.None? && (p.fin || !CanProcess(c1, p))
                ==> QuietSide(r.conn, Client) && QuietSide(r.conn, Server))
    decreases |trace|
  {
    if trace == [] {
      WindowIsNear(c, p, client, server);
      ReceiveIsQuiet(c, p);
    } else {
      ReceiveOrdered(c, trace[0], client, server);
      TraceIsQuiet(Receive(c, trace[0]).conn, trace[1..], p, client, server);
    }
  }

  // ---------------------------------------------------------------- consumed packets

  ghost function IdList(waiting: seq<Packet>): seq<nat> {
    seq(|waiting|, i requires 0 <= i < |waiting| => waiting[i].id)
  }

  ghost function Ids(waiting: seq<Packet>): multiset<nat> {
    multiset(IdList(waiting))
  }

  lemma IdsCons(p: Packet, rest: seq<Packet>)
    ensures Ids([p] + rest) == multiset{p.id} + Ids(rest)
  {
    assert IdList([p] + rest) == [p.id] + IdList(rest);
  }

  ghost function AllIds(c: Conn): multiset<nat> {
    Ids(c.client.waiting) + Ids(c.server.waiting)
  }

  /** Every waiting packet waits once and is not consumed. */
  ghost predicate Fresh(c: Conn) {
    forall i: nat :: AllIds(c)[i] <= 1 && (i in c.consumed ==> AllIds(c)[i] == 0)
  }

  /** The packet is waiting or was consumed. */
  ghost predicate Knows(c: Conn, i: nat) {
    i in c.consumed || AllIds(c)[i] > 0
  }

  /** Only the packet at hand may have been consumed since. */
  ghost predicate Consumes(c: Conn, c': Conn, p: Packet) {
    SameWaiting(c, c') && c'.consumed <= c.consumed + {p.id}
  }

  lemma BodyConsumes(c: Conn, p: Packet)
    ensures Consumes(c, HandleBody(c, p).conn, p)
    ensures HandleBody(c, p).error != Some(AlreadyUpdated)
  {
    var r := if p.ack then ProcessAck(c, p) else Res(c, None);
    AckConsumes(c, p);
    DataConsumes(r.conn, p);
  }

  lemma AckConsumes(c: Conn, p: Packet)
    ensures Consumes(c, ProcessAck(c, p).conn, p) && ProcessAck(c, p).error != Some(AlreadyUpdated)
  {
  }

  lemma DataConsumes(c: Conn, p: Packet)
    ensures Consumes(c, ProcessData(c, p).conn, p) && ProcessData(c, p).error != Some(AlreadyUpdated)
  {
  }

  lemma FinConsumes(c: Conn, p: Packet)
    ensures Consumes(c, ProcessFin(c, p), p) && Consumes(c, ProcessRst(c, p), p)
  {
  }

  /** Taking the first packet of a side off a fresh connection. */
  lemma DropFresh(c: Conn, s: Side, p: Packet, rest: Conn)
    requires Fresh(c) && HalfOf(c, s).waiting != [] && p == HalfOf(c, s).waiting[0]
    requires rest == With(c, s, HalfOf(c, s).(waiting := HalfOf(c, s).waiting[1..]))
    ensures Fresh(rest) && AllIds(rest) <= AllIds(c) && AllIds(rest)[p.id] == 0
    ensures Knows(c, p.id) && p.id !in c.consumed
  {
    var w := HalfOf(c, s).waiting;
    assert w == [p] + w[1..];
    IdsCons(p, w[1..]);
    assert AllIds(c) == AllIds(rest) + multiset{p.id};
    assert AllIds(c)[p.id] >= 1;
  }

  /** Taking packets off a fresh connection; the one picked up is waiting no more. */
  lemma {:induction false} PickupSideFresh(c: Conn, s: Side)
    requires Fresh(c)
    ensures var r := PickupSide(c, s);
            && r.error.None? && Fresh(r.conn) && r.conn.consumed == c.consumed && AllIds(r.conn) <= AllIds(c)
            && (r.packet.Some? ==> AllIds(r.conn)[r.packet.value.id] == 0 && Knows(c, r.packet.value.id))
    decreases |HalfOf(c, s).waiting|
  {
    var mine := HalfOf(c, s);
    if mine.waiting != [] {
      var p, rest := mine.waiting[0], With(c, s, mine.(waiting := mine.waiting[1..]));
      DropFresh(c, s, p, rest);
      if !CanProcess(c, p) && IsOld(c, p) {
        PickupSideFresh(rest, s);
      }
    }
  }

  lemma PickupFresh(c: Conn)
    requires Fresh(c)
    ensures var r := PickupPacket(c);
            && r.error.None? && Fresh(r.conn) && r.conn.consumed == c.consumed && AllIds(r.conn) <= AllIds(c)
            && (r.packet.Some? ==> AllIds(r.conn)[r.packet.value.id] == 0 && Knows(c, r.packet.value.id))
  {
    PickupSideFresh(c, Client);
    var r := PickupSide(c, Client);
    PickupSideFresh(r.conn, Server);
  }

  lemma FreshAfter(c: Conn, c': Conn, p: Packet)
    requires Fresh(c) && Consumes(c, c', p) && AllIds(c)[p.id] == 0
    ensures Fresh(c') && AllIds(c') == AllIds(c)
    ensures forall i: nat :: Knows(c', i) ==> Knows(c, i) || i == p.id
  {
  }

  /**
   * The exception for a packet that was already counted can not be reached while draining, and
   * every waiting packet stays unconsumed.
   */
  lemma {:induction false} HandleFresh(c: Conn, p: Packet)
    requires Fresh(c) && AllIds(c)[p.id] == 0
    ensures var r := Handle(c, p); Fresh(r.conn) && r.error != Some(AlreadyUpdated)
    ensures forall i: nat :: Knows(Handle(c, p).conn, i) ==> Knows(c, i) || i == p.id
    decreases Waiting(c), 1
  {
    var c1 := if p.rst then ProcessRst(c, p) else c;
    FinConsumes(c, p);
    FreshAfter(c, c1, p);
    BodyConsumes(c1, p);
    var r := HandleBody(c1, p);
    FreshAfter(c1, r.conn, p);
    if r.error.None? && p.fin {
      FinConsumes(r.conn, p);
      FreshAfter(r.conn, ProcessFin(r.conn, p), p);
      DrainFresh(ProcessFin(r.conn, p));
    }
  }

  lemma {:induction false} DrainFresh(c: Conn)
    requires Fresh(c)
    ensures var r := Drain(c); Fresh(r.conn) && r.error != Some(AlreadyUpdated)
    ensures forall i: nat :: Knows(Drain(c).conn, i) ==> Knows(c, i)
    decreases Waiting(c), 0
  {
    PickupFresh(c);
    var k := PickupPacket(c);
    if k.packet.Some? {
      HandleFresh(k.conn, k.packet.value);
      var r := Handle(k.conn, k.packet.value);
      if r.error.None? {
        DrainFresh(r.conn);
      }
    }
  }

  lemma {:induction false} InsertIds(waiting: seq<Packet>, p: Packet)
    ensures Ids(Insert(waiting, p)) == Ids(waiting) || Ids(Insert(waiting, p)) == Ids(waiting) + multiset{p.id}
  {
    IdsCons(p, waiting);
    if waiting == [] {
      assert [p] + waiting == [p];
    } else if Compare(p, waiting[0]) > 0 {
      InsertIds(waiting[1..], p);
      assert waiting == [waiting[0]] + waiting[1..];
      IdsCons(waiting[0], waiting[1..]);
      IdsCons(waiting[0], Insert(waiting[1..], p));
    }
  }

  lemma StoreFresh(c: Conn, p: Packet)
    requires Fresh(c) && p.id !in c.consumed && AllIds(c)[p.id] == 0
    ensures Fresh(Store(c, p))
    ensures forall i: nat :: Knows(Store(c, p), i) ==> Knows(c, i) || i == p.id
  {
    StoreIds(c, p);
    MoreFresh(c, Store(c, p), p.id);
  }

  lemma StoreIds(c: Conn, p: Packet)
    ensures AllIds(Store(c, p)) == AllIds(c) || AllIds(Store(c, p)) == AllIds(c) + multiset{p.id}
  {
    var s := Sender(c, p);
    InsertIds(HalfOf(c, s).waiting, p);
    assert HalfOf(Store(c, p), Other(s)) == HalfOf(c, Other(s));
  }

  lemma MoreFresh(c: Conn, d: Conn, x: nat)
    requires Fresh(c) && x !in c.consumed && AllIds(c)[x] == 0 && d.consumed == c.consumed
    requires AllIds(d) == AllIds(c) || AllIds(d) == AllIds(c) + multiset{x}
    ensures Fresh(d) && forall i: nat :: Knows(d, i) ==> Knows(c, i) || i == x
  {
    assert forall i: nat :: AllIds(d)[i] <= AllIds(c)[i] + (if i == x then 1 else 0);
  }

  /** A packet seen for the first time is never taken for one that was already counted. */
  lemma ReceiveFresh(c: Conn, p: Packet)
    requires Fresh(c) && !Knows(c, p.id)
    ensures Fresh(Receive(c, p).conn) && Receive(c, p).error != Some(AlreadyUpdated)
    ensures forall i: nat :: Knows(Receive(c, p).conn, i) ==> Knows(c, i) || i == p.id
  {
    if IsOld(c, p) || (BothFinished(c) && c.state != LastAck) {
    } else if IsHandshake2(p) {
      FreshAfter(c, Receive(c, p).conn, p);
    } else if CanProcess(c, p) {
      HandleFresh(c, p);
    } else {
      StoreFresh(c, p);
      DrainFresh(Store(c, p));
    }
  }

  /** No packet of the trace is answered with the exception for a packet already counted. */
  ghost predicate NeverRepeated(c: Conn, trace: seq<Packet>)
    decreases |trace|
  {
    trace == [] ||
    (Receive(c, trace[0]).error != Some(AlreadyUpdated) && NeverRepeated(Receive(c, trace[0]).conn, trace[1..]))
  }

  /**
   * If every packet object is picked once, the exception for a packet already counted is
   * unreachable, whatever the packets are.
   */
  lemma {:induction false} PickedOnce(c: Conn, trace: seq<Packet>)
    requires Fresh(c) && forall i :: 0 <= i < |trace| ==> !Knows(c, trace[i].id)
    requires forall i, j :: 0 <= i < j < |trace| ==> trace[i].id != trace[j].id
    ensures NeverRepeated(c, trace) && Fresh(ReceiveAll(c, trace))
    decreases |trace|
  {
    if trace != [] {
      var c1, rest := Receive(c, trace[0]).conn, trace[1..];
      ReceiveFresh(c, trace[0]);
      forall i | 0 <= i < |rest| ensures !Knows(c1, rest[i].id) {
        assert rest[i] == trace[i + 1];
        assert !Knows(c, trace[i + 1].id);
      }
      PickedOnce(c1, rest);
    }
  }
}
