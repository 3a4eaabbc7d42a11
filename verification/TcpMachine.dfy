/**
 * A sniffed TCP connection as a value, and every packet as a step: `TCPConnection`,
 * `SequenceCounter`, `PacketsBuffer` and the logic of `PacketReceiverImpl`.
 */
module TcpMachine {
  import opened Bytes
  import opened TcpPacket
  import opened TcpBuffer
  import opened TcpStream

  datatype Side = Client | Server

  function Other(s: Side): Side {
    if s == Client then Server else Client
  }

  /** What a connection keeps of one direction: its counter, its early packets and its stream. */
  datatype Half = Half(seqNo: int, ackNo: int, waiting: seq<Packet>, stream: Log)

  /**
   * `path` are the states entered so far, the last one being `state`; `consumed` are the packets
   * whose consumed flag is set; `released` tells that the listener was told to let go.
   */
  datatype Conn = Conn(
    detail: Detail,
    state: State,
    path: seq<State>,
    client: Half,
    server: Half,
    consumed: set<nat>,
    maybeBroken: bool,
    released: bool)

  datatype Error = AlreadyUpdated | BadSynAck | BadHandshakeAck | StreamFinished

  /** The connection after a step and the exception that ended it, if any. */
  datatype Res = Res(conn: Conn, error: Option<Error>)

  function HalfOf(c: Conn, s: Side): Half {
    if s == Client then c.client else c.server
  }

  function With(c: Conn, s: Side, h: Half): Conn {
    if s == Client then c.(client := h) else c.(server := h)
  }

  /** Who sent the packet. */
  function Sender(c: Conn, p: Packet): Side {
    if p.detail == c.detail then Client else Server
  }

  function Waiting(c: Conn): nat {
    |c.client.waiting| + |c.server.waiting|
  }

  function Enter(c: Conn, s: State): Conn {
    c.(state := s, path := c.path + [s])
  }

  predicate BothFinished(c: Conn) {
    c.client.stream.finished && c.server.stream.finished
  }

  /** The early packets of both directions are the same. */
  predicate SameWaiting(c: Conn, d: Conn) {
    c.client.waiting == d.client.waiting && c.server.waiting == d.server.waiting
  }

  predicate SameStreams(c: Conn, d: Conn) {
    c.client.stream == d.client.stream && c.server.stream == d.server.stream
  }

  /** Everything but the two directions and what was consumed is the same. */
  predicate SameRest(c: Conn, d: Conn) {
    c.detail == d.detail && c.state == d.state && c.path == d.path && c.released == d.released
  }

  // ---------------------------------------------------------------- queries

  /** `isOldPacket` */
  predicate IsOld(c: Conn, p: Packet) {
    p.sequence < HalfOf(c, Sender(c, p)).seqNo
  }

  /** `isCanProcessPacket`, for a packet that is not consumed */
  predicate CanProcess(c: Conn, p: Packet) {
    var mine, other := HalfOf(c, Sender(c, p)), HalfOf(c, Other(Sender(c, p)));
    && p.sequence == mine.seqNo
    && (p.data != [] || p.rst || p.fin ==> p.ackNum == mine.ackNo || p.ackNum == other.seqNo)
  }

  // ---------------------------------------------------------------- the process methods

  /** `updateCounter` */
  function Count(c: Conn, s: Side, p: Packet): (r: Conn)
    ensures SameWaiting(c, r) && SameStreams(c, r) && SameRest(c, r) && r.consumed == c.consumed + {p.id}
  {
    With(c, s, HalfOf(c, s).(seqNo := p.sequence + |p.data|, ackNo := p.ackNum)).(consumed := c.consumed + {p.id})
  }

  function AddOne(c: Conn, s: Side): (r: Conn)
    ensures SameWaiting(c, r) && SameStreams(c, r) && SameRest(c, r) && r.consumed == c.consumed
  {
    With(c, s, HalfOf(c, s).(seqNo := HalfOf(c, s).seqNo + 1))
  }

  function CloseStream(c: Conn, s: Side, markOnly: bool): (r: Conn)
    ensures SameWaiting(c, r) && SameRest(c, r) && r.consumed == c.consumed
  {
    With(c, s, HalfOf(c, s).(stream := Close(HalfOf(c, s).stream, markOnly)))
  }

  /** The connection that a handshake packet opens. */
  function Open(p: Packet): Conn {
    Conn(p.detail, SynSent, [SynSent], Half(p.sequence + |p.data|, p.ackNum, [], NOTHING),
         Half(0, 0, [], NOTHING), {p.id}, false, false)
  }

  function ProcessSynAck(c: Conn, p: Packet): Res {
    if p.ackNum != c.client.seqNo + 1 then Res(c, Some(BadSynAck))
    else Res(Enter(AddOne(Count(c, Server, p), Client), SynReceived), None)
  }

  function ProcessAck(c: Conn, p: Packet): (r: Res)
    ensures SameWaiting(c, r.conn) && SameStreams(c, r.conn) && r.conn.detail == c.detail
    ensures c.consumed <= r.conn.consumed <= c.consumed + {p.id} && (c.released ==> r.conn.released)
  {
    var s := Sender(c, p);
    match c.state
    case SynReceived =>
      if p.ackNum != c.server.seqNo + 1 then Res(c, Some(BadHandshakeAck))
      else Res(Enter(AddOne(Count(c, Client, p), Server), Established), None)
    case FinishWait1 => Res(Enter(Count(c, s, p), CloseWait), None)
    case LastAck =>
      var broken := p.ackNum == HalfOf(c, Other(s)).seqNo + 1;
      Res(Enter(Count(c.(maybeBroken := c.maybeBroken || broken), s, p), Closed).(released := true), None)
    case _ => Res(c, None)
  }

  /** `processCSDataPacket` and `processSCDataPacket` */
  function ProcessData(c: Conn, p: Packet): (r: Res)
    ensures SameWaiting(c, r.conn) && SameRest(c, r.conn)
    ensures c.consumed <= r.conn.consumed <= c.consumed + {p.id}
  {
    var s := Sender(c, p);
    var c1 := if HalfOf(c, Other(s)).ackNo == p.sequence then CloseStream(c, Other(s), true) else c;
    var mine := HalfOf(c1, s);
    var c2 := With(c1, s, mine.(stream := Add(mine.stream, p.data)));
    if mine.stream.finished then Res(c2, Some(StreamFinished)) else Res(Count(c2, s, p), None)
  }

  /** `validateDataPacketsInBuffer` */
  function Validate(c: Conn): Conn {
    c.(maybeBroken := || c.maybeBroken
                      || (c.client.stream.finished && HasData(c.client.waiting))
                      || (c.server.stream.finished && HasData(c.server.waiting)))
  }

  /** `updateConnectionStateAfterReceivedFinishPacket` */
  function AfterFin(c: Conn): Conn {
    match c.state
    case Established => Enter(c, FinishWait1)
    case CloseWait => Enter(c, LastAck)
    case FinishWait1 => Enter(c, Closing)
    case _ => c
  }

  function ProcessFin(c: Conn, p: Packet): (r: Conn)
    ensures SameWaiting(c, r) && r.detail == c.detail && r.released == c.released
    ensures r.consumed == c.consumed + {p.id}
  {
    var s := Sender(c, p);
    Validate(AddOne(Count(AfterFin(CloseStream(c, s, false)), s, p), s))
  }

  function ProcessRst(c: Conn, p: Packet): (r: Conn)
    ensures SameWaiting(c, r) && SameRest(c, r.(released := c.released))
    ensures r.consumed == c.consumed + {p.id}
  {
    var c1 := Count(c, Sender(c, p), p);
    var c2 := if c1.client.stream.finished then c1 else CloseStream(c1, Client, false);
    var c3 := if c2.server.stream.finished then c2 else CloseStream(c2, Server, false);
    Validate(c3).(released := true)
  }

  // ---------------------------------------------------------------- picking up early packets

  /** A connection without the packet that was picked up, if one was. */
  datatype Pickup = Pickup(conn: Conn, packet: Option<Packet>, error: Option<Error>)

  /** `pickupCSBuffer` and `pickupSCBuffer` */
  function PickupSide(c: Conn, s: Side): (r: Pickup)
    ensures r.packet.Some? ==> Waiting(r.conn) < Waiting(c) && r.error.None?
    ensures Waiting(r.conn) <= Waiting(c)
    decreases |HalfOf(c, s).waiting|
  {
    var mine := HalfOf(c, s);
    if mine.waiting == [] then Pickup(c, None, None)
    else
      var p, rest := mine.waiting[0], With(c, s, mine.(waiting := mine.waiting[1..]));
      if p.id in c.consumed then Pickup(c, None, Some(AlreadyUpdated))
      else if CanProcess(c, p) then Pickup(rest, Some(p), None)
      else if IsOld(c, p) then PickupSide(rest, s)
      else Pickup(c, None, None)
  }

  /** `pickupPacket` */
  function PickupPacket(c: Conn): (r: Pickup)
    ensures r.packet.Some? ==> Waiting(r.conn) < Waiting(c) && r.error.None?
    ensures Waiting(r.conn) <= Waiting(c)
  {
    var r := PickupSide(c, Client);
    if r.packet.Some? || r.error.Some? then r else PickupSide(r.conn, Server)
  }

  // ---------------------------------------------------------------- handling and draining

  /** The part of `handlePacket` before the FIN. */
  function HandleBody(c: Conn, p: Packet): (r: Res)
    ensures SameWaiting(c, r.conn)
  {
    var r := if p.ack then ProcessAck(c, p) else Res(c, None);
    if r.error.Some? || p.data == [] then r else ProcessData(r.conn, p)
  }

  /** `handlePacket` */
  function Handle(c: Conn, p: Packet): (r: Res)
    ensures Waiting(r.conn) <= Waiting(c)
    decreases Waiting(c), 1
  {
    var r := HandleBody(if p.rst then ProcessRst(c, p) else c, p);
    if r.error.Some? || !p.fin then r else Drain(ProcessFin(r.conn, p))
  }

  /** `tryToProcessPacketsInBuffer` */
  function Drain(c: Conn): (r: Res)
    ensures Waiting(r.conn) <= Waiting(c)
    decreases Waiting(c), 0
  {
    var k := PickupPacket(c);
    if k.packet.None? then Res(k.conn, k.error)
    else
      var r := Handle(k.conn, k.packet.value);
      if r.error.Some? then r else Drain(r.conn)
  }

  /** `pick` for a packet of an existing connection */
  function Receive(c: Conn, p: Packet): Res {
    if IsOld(c, p) then Res(c, None)
    else if BothFinished(c) && c.state != LastAck then Res(c, None)
    else if IsHandshake2(p) then
      if c.state == SynSent then ProcessSynAck(c, p) else Res(c, None)
    else if p.id in c.consumed then Res(c, Some(AlreadyUpdated))
    else if CanProcess(c, p) then Handle(c, p)
    else Drain(Store(c, p))
  }

  /** Puts an early packet away. */
  function Store(c: Conn, p: Packet): Conn {
    var s := Sender(c, p);
    With(c, s, HalfOf(c, s).(waiting := Insert(HalfOf(c, s).waiting, p)))
  }

  /** The connections being followed, by key. */
  type Table = map<int, Conn>

  /** `pick`; an exception ends the step, the sniffer logs it and goes on. */
  function Pick(t: Table, p: Packet, accept: Detail -> bool): Table {
    var k := Key(p.detail);
    if IsHandshake1(p) then
      if accept(p.detail) then t[k := Open(p)] else t
    else if k !in t then t
    else
      var c := Receive(t[k], p).conn;
      if c.released then t - {k} else t[k := c]
  }

  /** All packets of a trace, one after the other. */
  function PickAll(t: Table, trace: seq<Packet>, accept: Detail -> bool): Table
    decreases |trace|
  {
    if trace == [] then t else PickAll(Pick(t, trace[0], accept), trace[1..], accept)
  }

  /** All packets of a trace, from one connection's point of view. */
  function ReceiveAll(c: Conn, trace: seq<Packet>): Conn
    decreases |trace|
  {
    if trace == [] then c else ReceiveAll(Receive(c, trace[0]).conn, trace[1..])
  }
}
