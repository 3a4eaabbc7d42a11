/**
 * The objects of the sniffer: `TCPConnection` with its `SequenceCounter` and `PacketsBuffer`, and
 * `PacketReceiverImpl` with its map of connections, proved against TcpMachine.
 */
module TcpReceiver {
  import opened Bytes
  import opened TcpPacket
  import opened TcpBuffer
  import opened TcpStream
  import opened TcpMachine
  import opened TcpPrefix
  import opened TcpReaders

  datatype Counter = Counter(seqNo: int, ackNo: int)

  class TcpConnection {
    const detail: Detail
    var state: State
    var clientCounter: Counter
    var serverCounter: Counter
    var csPackets: seq<Packet>
    var scPackets: seq<Packet>
    var clientInputStream: Log
    var serverInputStream: Log
    var consumed: set<nat>
    var maybeBroken: bool
    var released: bool
    /** The states entered so far. */
    ghost var path: seq<State>

    ghost function View(): Conn
      reads this
    {
      Conn(detail, state, path,
           Half(clientCounter.seqNo, clientCounter.ackNo, csPackets, clientInputStream),
           Half(serverCounter.seqNo, serverCounter.ackNo, scPackets, serverInputStream),
           consumed, maybeBroken, released)
    }

    /** A new connection and `processSyncPacket` */
    constructor (p: Packet)
      ensures View() == Open(p)
    {
      detail := p.detail;
      state, path := SynSent, [SynSent];
      clientCounter, serverCounter := Counter(p.sequence + |p.data|, p.ackNum), Counter(0, 0);
      csPackets, scPackets := [], [];
      clientInputStream, serverInputStream := NOTHING, NOTHING;
      consumed, maybeBroken, released := {p.id}, false, false;
    }

    method SetState(s: State)
      modifies `state, `path
      ensures View() == Enter(old(View()), s)
    {
      state, path := s, path + [s];
    }

    // ---------------------------------------------------------------- SequenceCounter

    method UpdateCounter(s: Side, p: Packet)
      modifies `clientCounter, `serverCounter, `consumed
      ensures View() == Count(old(View()), s, p)
    {
      var counter := Counter(p.sequence, p.ackNum);
      if |p.data| > 0 {
        counter := counter.(seqNo := counter.seqNo + |p.data|);
      }
      if s == Client {
        clientCounter := counter;
      } else {
        serverCounter := counter;
      }
      consumed := consumed + {p.id};
    }

    method SequenceAddOne(s: Side)
      modifies `clientCounter, `serverCounter
      ensures View() == AddOne(old(View()), s)
    {
      if s == Client {
        clientCounter := clientCounter.(seqNo := clientCounter.seqNo + 1);
      } else {
        serverCounter := serverCounter.(seqNo := serverCounter.seqNo + 1);
      }
    }

    function SenderOf(p: Packet): (s: Side)
      ensures s == Client <==> p.detail == detail
    {
      if p.detail == detail then Client else Server
    }

    // ---------------------------------------------------------------- queries

    method IsOldPacket(p: Packet) returns (old': bool)
      ensures old' == IsOld(View(), p)
    {
      old' := p.sequence < (if p.detail == detail then clientCounter.seqNo else serverCounter.seqNo);
    }

    /** None is the exception for a packet whose sequence was already counted. */
    method IsCanProcessPacket(p: Packet) returns (can: Option<bool>)
      ensures can == if p.id in consumed then None else Some(CanProcess(View(), p))
    {
      if p.id in consumed {
        return None;
      }
      var byClient := p.detail == detail;
      var matches := p.sequence == if byClient then clientCounter.seqNo else serverCounter.seqNo;
      if matches && (p.data != [] || p.rst || p.fin) {
        if byClient {
          return Some(p.ackNum == clientCounter.ackNo || p.ackNum == serverCounter.seqNo);
        } else {
          return Some(p.ackNum == serverCounter.ackNo || p.ackNum == clientCounter.seqNo);
        }
      }
      return Some(matches);
    }

    method IsFinished() returns (r: bool)
      ensures r == BothFinished(View())
    {
      r := clientInputStream.finished && serverInputStream.finished;
    }

    // ---------------------------------------------------------------- streams

    method FinishStream(s: Side, markOnly: bool)
      modifies `clientInputStream, `serverInputStream
      ensures View() == CloseStream(old(View()), s, markOnly)
    {
      if s == Client {
        clientInputStream := Close(clientInputStream, markOnly);
      } else {
        serverInputStream := Close(serverInputStream, markOnly);
      }
    }

    // ---------------------------------------------------------------- process methods

    method ProcessSyncAckPacket(p: Packet) returns (e: Option<Error>)
      modifies this
      ensures Res(View(), e) == ProcessSynAck(old(View()), p)
    {
      if p.ackNum != clientCounter.seqNo + 1 {
        return Some(BadSynAck);
      }
      UpdateCounter(Server, p);
      SequenceAddOne(Client);
      SetState(SynReceived);
      return None;
    }

    method ProcessAckPacket(p: Packet) returns (e: Option<Error>)
      modifies this
      ensures Res(View(), e) == ProcessAck(old(View()), p)
    {
      match state {
        case SynReceived => e := ProcessHandshake3AckPacket(p);
        case FinishWait1 =>
          UpdateCounter(SenderOf(p), p);
          SetState(CloseWait);
          e := None;
        case LastAck =>
          ProcessLastAckPacket(p);
          e := None;
        case _ => e := None;
      }
    }

    method ProcessHandshake3AckPacket(p: Packet) returns (e: Option<Error>)
      requires state == SynReceived
      modifies this
      ensures Res(View(), e) == ProcessAck(old(View()), p)
    {
      if p.ackNum != serverCounter.seqNo + 1 {
        return Some(BadHandshakeAck);
      }
      UpdateCounter(Client, p);
      SequenceAddOne(Server);
      SetState(Established);
      return None;
    }

    method ProcessLastAckPacket(p: Packet)
      requires state == LastAck
      modifies this
      ensures Res(View(), None) == ProcessAck(old(View()), p)
    {
      if p.ackNum == (if p.detail == detail then serverCounter.seqNo else clientCounter.seqNo) + 1 {
        maybeBroken := true;
      }
      UpdateCounter(SenderOf(p), p);
      SetState(Closed);
      released := true;
    }

    method ProcessDataPacket(p: Packet) returns (e: Option<Error>)
      modifies this
      ensures Res(View(), e) == ProcessData(old(View()), p)
    {
      if p.detail == detail {
        if serverCounter.ackNo == p.sequence {
          FinishStream(Server, true);
        }
        var refused := clientInputStream.finished;
        clientInputStream := Add(clientInputStream, p.data);
        if refused {
          return Some(StreamFinished);
        }
        UpdateCounter(Client, p);
      } else {
        if clientCounter.ackNo == p.sequence {
          FinishStream(Client, true);
        }
        var refused := serverInputStream.finished;
        serverInputStream := Add(serverInputStream, p.data);
        if refused {
          return Some(StreamFinished);
        }
        UpdateCounter(Server, p);
      }
      return None;
    }

    /** `updateConnectionStateAfterReceivedFinishPacket` */
    method UpdateStateAfterFin()
      modifies `state, `path
      ensures View() == AfterFin(old(View()))
    {
      if state == Established {
        SetState(FinishWait1);
      } else if state == CloseWait {
        SetState(LastAck);
      } else if state == FinishWait1 {
        SetState(Closing);
      }
    }

    method ProcessFinishPacket(p: Packet)
      modifies this
      ensures View() == ProcessFin(old(View()), p)
    {
      var s := SenderOf(p);
      FinishStream(s, false);
      UpdateStateAfterFin();
      UpdateCounter(s, p);
      SequenceAddOne(s);
      ValidateDataPacketsInBuffer();
    }

    method ProcessRstPacket(p: Packet)
      modifies this
      ensures View() == ProcessRst(old(View()), p)
    {
      UpdateCounter(SenderOf(p), p);
      if !clientInputStream.finished {
        FinishStream(Client, false);
      }
      if !serverInputStream.finished {
        FinishStream(Server, false);
      }
      ValidateDataPacketsInBuffer();
      released := true;
    }

    method ValidateDataPacketsInBuffer()
      modifies `maybeBroken
      ensures View() == Validate(old(View()))
    {
      var cs := HasDataPackets(csPackets);
      var sc := HasDataPackets(scPackets);
      if clientInputStream.finished && cs {
        maybeBroken := true;
      }
      if serverInputStream.finished && sc {
        maybeBroken := true;
      }
    }

    // ---------------------------------------------------------------- PacketsBuffer

    static method HasDataPackets(waiting: seq<Packet>) returns (r: bool)
      ensures r == HasData(waiting)
    {
      for i := 0 to |waiting|
        invariant forall j :: 0 <= j < i ==> waiting[j].data == []
      {
        if waiting[i].data != [] {
          return true;
        }
      }
      return false;
    }

    method AddToTemporaryStoredPackets(p: Packet)
      modifies `csPackets, `scPackets
      ensures View() == Store(old(View()), p)
    {
      if p.detail == detail {
        csPackets := Insert(csPackets, p);
      } else {
        scPackets := Insert(scPackets, p);
      }
    }

    method PickupFrom(s: Side) returns (packet: Option<Packet>, e: Option<Error>)
      modifies `csPackets, `scPackets
      ensures Pickup(View(), packet, e) == PickupSide(old(View()), s)
      decreases if s == Client then |csPackets| else |scPackets|
    {
      var waiting := if s == Client then csPackets else scPackets;
      if waiting == [] {
        return None, None;
      }
      var p := waiting[0];
      var can := IsCanProcessPacket(p);
      if can.None? {
        return None, Some(AlreadyUpdated);
      }
      var stale := IsOldPacket(p);
      if !can.value && !stale {
        return None, None;
      }
      RemoveFirst(s);
      if can.value {
        return Some(p), None;
      }
      packet, e := PickupFrom(s);
    }

    method RemoveFirst(s: Side)
      requires (if s == Client then csPackets else scPackets) != []
      modifies `csPackets, `scPackets
      ensures View() == With(old(View()), s, HalfOf(old(View()), s).(waiting := HalfOf(old(View()), s).waiting[1..]))
    {
      if s == Client {
        csPackets := csPackets[1..];
      } else {
        scPackets := scPackets[1..];
      }
    }

    method PickupNext() returns (packet: Option<Packet>, e: Option<Error>)
      modifies `csPackets, `scPackets
      ensures Pickup(View(), packet, e) == PickupPacket(old(View()))
    {
      packet, e := PickupFrom(Client);
      if packet.None? && e.None? {
        packet, e := PickupFrom(Server);
      }
    }
  }

  class PacketReceiver {
    const accept: Detail -> bool
    var active: map<int, TcpConnection>
    /** Every connection that was ever followed; readers may hold its streams long after. */
    ghost var known: set<TcpConnection>

    ghost predicate Valid()
      reads this
    {
      && active.Values <= known
      && (forall j, k :: j in active && k in active && j != k ==> active[j] != active[k])
      && (forall k :: k in active ==> Key(active[k].detail) == k)
    }

    ghost function View(): Table
      reads this, active.Values
    {
      map k | k in active :: active[k].View()
    }

    /** Every connection ever followed under that key has collected what the real one sent. */
    ghost predicate AllSound(w: World)
      reads this, known
    {
      forall c :: c in known && Key(c.detail) == Key(w.detail) ==> Sound(w, c.View())
    }

    /** Every reader of every such connection has got a beginning of what was sent. */
    ghost predicate AllRead(w: World)
      reads this, known
    {
      forall c :: c in known && Key(c.detail) == Key(w.detail) ==> ReadersGetPrefix(w, c.View())
    }

    constructor (accept: Detail -> bool)
      ensures Valid() && View() == map[] && this.accept == accept && known == {}
    {
      this.accept := accept;
      active := map[];
      known := {};
    }

    /** `handlePacket` */
    method HandlePacket(p: Packet, c: TcpConnection) returns (e: Option<Error>)
      modifies c
      ensures Res(c.View(), e) == Handle(old(c.View()), p)
      decreases Waiting(c.View()), 1
    {
      if p.rst {
        c.ProcessRstPacket(p);
      }
      e := HandleAckAndData(p, c);
      if e.Some? || !p.fin {
        return;
      }
      c.ProcessFinishPacket(p);
      e := TryToProcessPacketsInBuffer(c);
    }

    method HandleAckAndData(p: Packet, c: TcpConnection) returns (e: Option<Error>)
      modifies c
      ensures Res(c.View(), e) == HandleBody(old(c.View()), p)
    {
      e := None;
      if p.ack {
        e := c.ProcessAckPacket(p);
        if e.Some? {
          return;
        }
      }
      if p.data != [] {
        e := c.ProcessDataPacket(p);
      }
    }

    /** `tryToProcessPacketsInBuffer` */
    method TryToProcessPacketsInBuffer(c: TcpConnection) returns (e: Option<Error>)
      modifies c
      ensures Res(c.View(), e) == Drain(old(c.View()))
      decreases Waiting(c.View()), 0
    {
      ghost var was := c.View();
      while true
        invariant Drain(c.View()) == Drain(was) && Waiting(c.View()) <= Waiting(was)
        decreases Waiting(c.View())
      {
        var packet, f := c.PickupNext();
        if packet.None? {
          return f;
        }
        e := HandlePacket(packet.value, c);
        if e.Some? {
          return;
        }
      }
    }

    /** `pick` for a packet of a connection that is followed */
    method PickFor(p: Packet, c: TcpConnection) returns (e: Option<Error>)
      modifies c
      ensures Res(c.View(), e) == Receive(old(c.View()), p)
    {
      var stale := c.IsOldPacket(p);
      if stale {
        return None;
      }
      var finished := c.IsFinished();
      if finished && c.state != LastAck {
        return None;
      }
      if IsHandshake2(p) {
        if c.state == SynSent {
          e := c.ProcessSyncAckPacket(p);
        } else {
          e := None;
        }
        return;
      }
      var can := c.IsCanProcessPacket(p);
      if can.None? {
        return Some(AlreadyUpdated);
      }
      if can.value {
        e := HandlePacket(p, c);
      } else {
        c.AddToTemporaryStoredPackets(p);
        e := TryToProcessPacketsInBuffer(c);
      }
    }

    /** A handshake begins: a new connection takes the place of any other under its key. */
    method AddConnection(p: Packet)
      requires Valid()
      modifies `active, `known
      ensures Valid() && View() == old(View())[Key(p.detail) := Open(p)]
      ensures old(known) <= known && fresh(known - old(known))
      ensures forall c :: c in known - old(known) ==> c.View() == Open(p)
    {
      var c := new TcpConnection(p);
      active := active[Key(p.detail) := c];
      known := known + {c};
    }

    /** The state listener lets go of a connection that was closed. */
    method Release(k: int)
      requires Valid()
      modifies `active
      ensures Valid() && View() == old(View()) - {k} && active == old(active) - {k}
    {
      active := active - {k};
    }

    method PickInto(k: int, p: Packet) returns (e: Option<Error>)
      requires Valid() && k in active
      modifies active.Values
      ensures View() == old(View())[k := Receive(old(View())[k], p).conn]
      ensures forall c :: c in known && c != active[k] ==> c.View() == old(c.View())
    {
      ghost var was := View();
      var c := active[k];
      e := PickFor(p, c);
      forall j | j in active && j != k ensures active[j].View() == was[j] {
        assert active[j] != c;
      }
    }

    /** `pick`; the exception, if any, is what the sniffer's loop logs. */
    method PickPacket(p: Packet) returns (e: Option<Error>)
      requires Valid()
      modifies this, known
      ensures Valid() && View() == Pick(old(View()), p, accept)
      ensures old(known) <= known && fresh(known - old(known))
      ensures forall c :: c in known ==>
                if c !in old(known) then IsHandshake1(p) && c.View() == Open(p)
                else if !IsHandshake1(p) && Key(p.detail) in old(active) && c == old(active)[Key(p.detail)]
                then c.View() == Receive(old(c.View()), p).conn
                else c.View() == old(c.View())
    {
      var k := Key(p.detail);
      e := None;
      if IsHandshake1(p) {
        if accept(p.detail) {
          AddConnection(p);
        }
      } else if k in active {
        e := PickInto(k, p);
        assert View()[k] == active[k].View();
        if active[k].released {
          Release(k);
          assert View() == old(View()) - {k};
        }
      }
    }

    /** Besides: a genuine packet keeps every connection of its key sound, a foreign one changes none. */
    method PickGenuine(p: Packet)
      requires Valid()
      modifies this, known
      ensures Valid() && View() == Pick(old(View()), p, accept)
      ensures old(known) <= known && fresh(known - old(known))
      ensures forall w :: old(AllSound(w)) && (Genuine(w, p) || Key(p.detail) != Key(w.detail)) ==> AllSound(w)
    {
      var _ := PickPacket(p);
      forall w | old(AllSound(w)) && (Genuine(w, p) || Key(p.detail) != Key(w.detail))
        ensures AllSound(w)
      {
        forall c | c in known && Key(c.detail) == Key(w.detail) ensures Sound(w, c.View()) {
          if c !in old(known) {
            assert c.View().detail == p.detail;
            OpenSound(w, p);
          } else if !IsHandshake1(p) && Key(p.detail) in old(active) && c == old(active)[Key(p.detail)] {
            ReceiveSound(w, old(c.View()), p);
          }
        }
      }
    }

    /**
     * The capture loop: every packet is picked, and an exception does not end the loop.  Whatever
     * real connection the packets of a key come from, reordered, repeated or lost, every connection
     * object that was ever followed under it, released or not, has collected a beginning of what
     * each side sent, and so has every reader of its streams.
     */
    method LoopPackets(trace: seq<Packet>)
      requires Valid()
      modifies this, known
      ensures Valid() && View() == PickAll(old(View()), trace, accept)
      ensures forall w :: old(AllSound(w)) && GenuineOrForeign(w, trace) ==> AllSound(w) && AllRead(w)
    {
      ghost var goal := PickAll(View(), trace, accept);
      var i := 0;
      while i < |trace|
        invariant 0 <= i <= |trace| && Valid()
        invariant old(known) <= known && fresh(known - old(known))
        invariant PickAll(View(), trace[i..], accept) == goal
        invariant forall w :: old(AllSound(w)) && GenuineOrForeign(w, trace) ==> AllSound(w)
      {
        assert trace[i..][1..] == trace[i + 1..];
        PickGenuine(trace[i]);
        i := i + 1;
      }
      forall w | AllSound(w) ensures AllRead(w) {
        forall c | c in known && Key(c.detail) == Key(w.detail) ensures ReadersGetPrefix(w, c.View()) {
          SoundForReaders(w, c.View());
        }
      }
    }
  }

  /** Every packet of the trace is one of that real connection, or has another key. */
  ghost predicate GenuineOrForeign(w: World, trace: seq<Packet>) {
    forall i :: 0 <= i < |trace| ==> Genuine(w, trace[i]) || Key(trace[i].detail) != Key(w.detail)
  }
}
