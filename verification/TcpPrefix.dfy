/**
 * Prefix safety: whatever is lost, repeated or reordered on the way, the octets collected for a
 * side are a beginning of what that side sent, and the counter says how many they are.
 */
module TcpPrefix {
  import opened Bytes
  import opened TcpPacket
  import opened TcpBuffer
  import opened TcpStream
  import opened TcpMachine
  import opened TcpRuns

  /** A real connection: its ends, the initial sequence numbers and what each side sends in all. */
  datatype World = World(detail: Detail, cIsn: nat, sIsn: nat, cData: seq<byte>, sData: seq<byte>)

  function SenderIn(w: World, p: Packet): Side {
    if p.detail == w.detail then Client else Server
  }

  function Isn(w: World, s: Side): nat {
    if s == Client then w.cIsn else w.sIsn
  }

  function Content(w: World, s: Side): seq<byte> {
    if s == Client then w.cData else w.sData
  }

  /**
   * A packet the ends of that connection may send: handshake packets without data, segments of
   * the content at their place, a FIN at its end, acknowledgements, and any RST whatsoever.
   * Sequence numbers do not wrap.
   */
  ghost predicate Genuine(w: World, p: Packet) {
    var s := SenderIn(w, p);
    && (p.detail == w.detail || p.detail == Reversed(w.detail))
    && (if p.rst then !p.syn
        else if p.syn then
          p.data == [] && !p.fin && p.sequence == Isn(w, s)
          && (if s == Client then !p.ack else p.ack && p.ackNum == w.cIsn + 1)
        else
          var o := p.sequence - (Isn(w, s) + 1);
          && p.ack && 0 <= o <= |Content(w, s)| + 1
          && (p.data != [] || p.fin ==> o + |p.data| <= |Content(w, s)|)
          && (p.data != [] && o + |p.data| <= |Content(w, s)| ==> p.data == Content(w, s)[o..o + |p.data|])
          && (p.fin ==> o + |p.data| == |Content(w, s)|))
  }

  /** What was collected is a beginning of the content, and the counter is its length. */
  ghost predicate Counted(h: Half, isn: nat, content: seq<byte>) {
    && Written(h.stream) <= content
    && h.seqNo == isn + 1 + |Written(h.stream)| + (if h.stream.finished then 1 else 0)
    && (h.stream.finished ==> Written(h.stream) == content)
  }

  ghost predicate CountedSide(w: World, c: Conn, s: Side) {
    Counted(HalfOf(c, s), Isn(w, s), Content(w, s))
  }

  ghost predicate Blank(c: Conn) {
    c.client.stream == NOTHING && c.server.stream == NOTHING
  }

  /** The counters fit the state of the handshake and what was collected. */
  ghost predicate OnCourse(w: World, c: Conn) {
    match c.state
    case SynSent => Blank(c) && c.client.seqNo == w.cIsn && c.server.seqNo == 0
    case SynReceived => Blank(c) && c.client.seqNo == w.cIsn + 1 && c.server.seqNo == w.sIsn
    case _ => CountedSide(w, c, Client) && CountedSide(w, c, Server)
  }

  /** A RST was handled: both streams are finished where they were. */
  ghost predicate CutOff(w: World, c: Conn) {
    c.released && BothFinished(c) && Written(c.client.stream) <= w.cData && Written(c.server.stream) <= w.sData
  }

  ghost predicate AllGenuine(w: World, c: Conn) {
    && (forall p :: p in c.client.waiting ==> Genuine(w, p) && !p.syn && SenderIn(w, p) == Client)
    && (forall p :: p in c.server.waiting ==> Genuine(w, p) && !p.syn && SenderIn(w, p) == Server)
  }

  ghost predicate Safe(w: World, c: Conn) {
    c.detail == w.detail && AllGenuine(w, c) && (OnCourse(w, c) || CutOff(w, c))
  }

  lemma SafeIsPrefix(w: World, c: Conn)
    requires Safe(w, c)
    ensures Written(c.client.stream) <= w.cData && Written(c.server.stream) <= w.sData
  {
  }

  // ---------------------------------------------------------------- after a RST

  lemma CutOffKept(w: World, c: Conn, c': Conn)
    requires CutOff(w, c) && Grows(c, c')
    ensures CutOff(w, c')
  {
  }

  lemma GenuineKept(w: World, c: Conn, c': Conn)
    requires AllGenuine(w, c) && Suffix(c'.client.waiting, c.client.waiting) && Suffix(c'.server.waiting, c.server.waiting)
    ensures AllGenuine(w, c')
  {
    forall p | p in c'.client.waiting ensures p in c.client.waiting {
    }
    forall p | p in c'.server.waiting ensures p in c.server.waiting {
    }
  }

  lemma CutOffSafe(w: World, c: Conn, c': Conn)
    requires c.detail == w.detail && AllGenuine(w, c) && CutOff(w, c) && Evolves(c, c')
    ensures Safe(w, c')
  {
    CutOffKept(w, c, c');
    GenuineKept(w, c, c');
  }

  lemma RstCutsOff(w: World, c: Conn, p: Packet)
    requires Safe(w, c)
    ensures CutOff(w, ProcessRst(c, p))
  {
    SafeIsPrefix(w, c);
    CloseKeeps(c.client.stream, false);
    CloseKeeps(c.server.stream, false);
    RstGrows(c, p);
  }

  // ---------------------------------------------------------------- handling one packet

  /** The packet continues what was collected for its sender; only its own counter may be ahead. */
  ghost predicate Continues(w: World, c: Conn, p: Packet) {
    var s := SenderIn(w, p);
    var mine := HalfOf(c, s);
    && c.detail == w.detail && !c.state.SynSent? && !c.state.SynReceived?
    && CountedSide(w, c, Other(s))
    && Counted(mine.(seqNo := p.sequence), Isn(w, s), Content(w, s))
    && (p.data == [] ==> mine.seqNo == p.sequence)
  }

  /** Nothing that matches may be processed before the handshake, apart from its own end. */
  lemma NotBeforeHandshake(w: World, c: Conn, p: Packet)
    requires c.detail == w.detail && OnCourse(w, c) && Genuine(w, p) && !p.rst && !p.syn && CanProcess(c, p)
    ensures !c.state.SynSent? && (c.state.SynReceived? ==> SenderIn(w, p) == Client)
  {
  }

  lemma AckContinues(w: World, c: Conn, p: Packet)
    requires c.detail == w.detail && OnCourse(w, c) && Genuine(w, p) && !p.rst && !p.syn && CanProcess(c, p)
    ensures var r := ProcessAck(c, p);
            if r.error.Some? then r.conn == c else Continues(w, r.conn, p)
  {
    NotBeforeHandshake(w, c, p);
    if c.state.SynReceived? {
      assert Written(NOTHING) == [];
    }
  }

  lemma DataCounted(w: World, c: Conn, p: Packet)
    requires Continues(w, c, p) && Genuine(w, p) && !p.rst && !p.syn && p.data != []
    ensures var r := ProcessData(c, p);
            && r.error.None? && r.conn.state == c.state
            && CountedSide(w, r.conn, Client) && CountedSide(w, r.conn, Server)
            && HalfOf(r.conn, SenderIn(w, p)).seqNo == p.sequence + |p.data|
            && !HalfOf(r.conn, SenderIn(w, p)).stream.finished
  {
    var s := SenderIn(w, p);
    var mine, other := HalfOf(c, s), HalfOf(c, Other(s));
    CloseKeeps(other.stream, true);
    AddExtends(mine.stream, p.data);
    var content, n := Content(w, s), |Written(mine.stream)|;
    assert n == p.sequence - (Isn(w, s) + 1);
    assert content[..n] + content[n..n + |p.data|] == content[..n + |p.data|];
    assert Written(mine.stream) + p.data == content[..n + |p.data|];
    var r := ProcessData(c, p);
    DataHalves(c, p, s);
    assert Counted(HalfOf(r.conn, s), Isn(w, s), content);
    assert Counted(HalfOf(r.conn, Other(s)), Isn(w, Other(s)), Content(w, Other(s)));
  }

  /** The connection right before the FIN of the packet is looked at. */
  ghost predicate BeforeFin(w: World, c: Conn, p: Packet) {
    && c.detail == w.detail && !c.state.SynSent? && !c.state.SynReceived?
    && CountedSide(w, c, Client) && CountedSide(w, c, Server)
    && HalfOf(c, SenderIn(w, p)).seqNo == p.sequence + |p.data|
    && (p.fin ==> !HalfOf(c, SenderIn(w, p)).stream.finished)
  }

  lemma BodyCounted(w: World, c: Conn, p: Packet)
    requires c.detail == w.detail && OnCourse(w, c) && Genuine(w, p) && !p.rst && !p.syn && CanProcess(c, p)
    ensures var r := HandleBody(c, p); if r.error.Some? then r.conn == c else BeforeFin(w, r.conn, p)
  {
    AckContinues(w, c, p);
    var r := ProcessAck(c, p);
    if r.error.None? && p.data != [] {
      DataCounted(w, r.conn, p);
    }
  }

  lemma FinCounted(w: World, c: Conn, p: Packet)
    requires BeforeFin(w, c, p) && Genuine(w, p) && !p.rst && !p.syn && p.fin
    ensures OnCourse(w, ProcessFin(c, p))
  {
    var s := SenderIn(w, p);
    var mine := HalfOf(c, s);
    CloseKeeps(mine.stream, false);
    assert Written(mine.stream) == Content(w, s);
    var c' := ProcessFin(c, p);
    FinHalf(c, p, s);
    FinMoves(c, p);
    assert CountedSide(w, c', s) && CountedSide(w, c', Other(s));
  }

  // ---------------------------------------------------------------- handling and draining

  lemma {:induction false} HandleSafe(w: World, c: Conn, p: Packet)
    requires Safe(w, c) && Genuine(w, p) && !p.syn && CanProcess(c, p)
    ensures Safe(w, Handle(c, p).conn)
    decreases Waiting(c), 1
  {
    if CutOff(w, c) {
      HandleEvolves(c, p);
      CutOffSafe(w, c, Handle(c, p).conn);
    } else if p.rst {
      HandleRstSafe(w, c, p);
    } else {
      BodyCounted(w, c, p);
      var r := HandleBody(c, p);
      if r.error.None? && p.fin {
        FinCounted(w, r.conn, p);
        DrainSafe(w, ProcessFin(r.conn, p));
      }
    }
  }

  lemma {:induction false} HandleRstSafe(w: World, c: Conn, p: Packet)
    requires Safe(w, c) && p.rst
    ensures Safe(w, Handle(c, p).conn)
  {
    var c1 := ProcessRst(c, p);
    RstCutsOff(w, c, p);
    BodyEvolves(c1, p);
    var r := HandleBody(c1, p);
    if r.error.None? && p.fin {
      FinGrows(r.conn, p);
      var c2 := ProcessFin(r.conn, p);
      DrainEvolves(c2);
      EvolvesTrans(c1, r.conn, c2);
      EvolvesTrans(c1, c2, Drain(c2).conn);
      CutOffSafe(w, c1, Drain(c2).conn);
    } else {
      CutOffSafe(w, c1, r.conn);
    }
  }

  /** Taking packets out of the buffers keeps a connection safe; what is taken is genuine and fits. */
  lemma PickupSafe(w: World, c: Conn)
    requires Safe(w, c)
    ensures var k := PickupPacket(c);
            && Safe(w, k.conn)
            && (k.packet.Some? ==> Genuine(w, k.packet.value) && !k.packet.value.syn && CanProcess(k.conn, k.packet.value))
  {
    PickupSideSafe(w, c, Client);
    PickupSideSafe(w, PickupSide(c, Client).conn, Server);
  }

  lemma {:induction false} PickupSideSafe(w: World, c: Conn, s: Side)
    requires Safe(w, c)
    ensures var k := PickupSide(c, s);
            && Safe(w, k.conn)
            && (k.packet.Some? ==> Genuine(w, k.packet.value) && !k.packet.value.syn && CanProcess(k.conn, k.packet.value))
    decreases |HalfOf(c, s).waiting|
  {
    var mine := HalfOf(c, s);
    if mine.waiting != [] {
      var p, rest := mine.waiting[0], With(c, s, mine.(waiting := mine.waiting[1..]));
      assert p in mine.waiting;
      GenuineKept(w, c, rest);
      assert Safe(w, rest);
      if p.id !in c.consumed && !CanProcess(c, p) && IsOld(c, p) {
        PickupSideSafe(w, rest, s);
      }
    }
  }

  lemma {:induction false} DrainSafe(w: World, c: Conn)
    requires Safe(w, c)
    ensures Safe(w, Drain(c).conn)
    decreases Waiting(c), 0
  {
    PickupSafe(w, c);
    var k := PickupPacket(c);
    if k.packet.Some? {
      var p := k.packet.value;
      HandleSafe(w, k.conn, p);
      var r := Handle(k.conn, p);
      if r.error.None? {
        DrainSafe(w, r.conn);
      }
    }
  }

  // ---------------------------------------------------------------- one packet, and every trace

  lemma OpenSafe(w: World, p: Packet)
    requires Genuine(w, p) && IsHandshake1(p)
    ensures Safe(w, Open(p))
  {
  }

  lemma StoreSafe(w: World, c: Conn, p: Packet)
    requires Safe(w, c) && Genuine(w, p) && !p.syn
    ensures Safe(w, Store(c, p))
  {
    InsertFrom(HalfOf(c, Sender(c, p)).waiting, p);
  }

  /** One genuine packet, whenever it comes and how often. */
  lemma ReceiveSafe(w: World, c: Conn, p: Packet)
    requires Safe(w, c) && Genuine(w, p) && !IsHandshake1(p)
    ensures Safe(w, Receive(c, p).conn)
  {
    if IsOld(c, p) || (BothFinished(c) && c.state != LastAck) {
    } else if IsHandshake2(p) {
    } else if p.id in c.consumed {
    } else if CanProcess(c, p) {
      HandleSafe(w, c, p);
    } else {
      StoreSafe(w, c, p);
      DrainSafe(w, Store(c, p));
    }
  }

  /** The entry of that connection, if there is one. */
  ghost predicate EntrySafe(w: World, t: Table) {
    Key(w.detail) in t ==> Safe(w, t[Key(w.detail)]) && OnCourse(w, t[Key(w.detail)])
  }

  lemma PickSafe(w: World, t: Table, p: Packet, accept: Detail -> bool)
    requires EntrySafe(w, t) && (Genuine(w, p) || Key(p.detail) != Key(w.detail))
    ensures EntrySafe(w, Pick(t, p, accept))
  {
    if Key(p.detail) == Key(w.detail) {
      if IsHandshake1(p) {
        OpenSafe(w, p);
      } else if Key(w.detail) in t {
        ReceiveSafe(w, t[Key(w.detail)], p);
      }
    }
  }

  /**
   * Prefix safety: for every trace of genuine packets of a connection, reordered, repeated or
   * lossy, among any packets with other keys, whatever was collected for a side is a beginning of
   * what that side sent, and from the handshake until a RST its length is the counter's sequence
   * number less the initial one, less one for the SYN and one for a FIN that was handled.
   */
  lemma {:induction false} PrefixSafety(w: World, t: Table, trace: seq<Packet>, accept: Detail -> bool)
    requires EntrySafe(w, t)
    requires forall i :: 0 <= i < |trace| ==> Genuine(w, trace[i]) || Key(trace[i].detail) != Key(w.detail)
    ensures EntrySafe(w, PickAll(t, trace, accept))
    ensures Key(w.detail) in PickAll(t, trace, accept) ==>
              var c := PickAll(t, trace, accept)[Key(w.detail)];
              && Written(c.client.stream) <= w.cData && Written(c.server.stream) <= w.sData
              && (!c.state.SynSent? && !c.state.SynReceived? ==>
                    && |Written(c.client.stream)| == c.client.seqNo - (w.cIsn + 1) - (if c.client.stream.finished then 1 else 0)
                    && |Written(c.server.stream)| == c.server.seqNo - (w.sIsn + 1) - (if c.server.stream.finished then 1 else 0))
    decreases |trace|
  {
    if trace != [] {
      PickSafe(w, t, trace[0], accept);
      PrefixSafety(w, Pick(t, trace[0], accept), trace[1..], accept);
    }
  }

  // ---------------------------------------------------------------- everything ever appended

  /** No RST has been handled and none waits. */
  ghost predicate Steady(w: World, c: Conn) {
    && c.detail == w.detail && AllGenuine(w, c) && OnCourse(w, c)
    && NoRst(c.client.waiting) && NoRst(c.server.waiting)
  }

  ghost predicate NoRst(waiting: seq<Packet>) {
    forall p :: p in waiting ==> !p.rst
  }

  lemma SteadyRest(w: World, c: Conn, s: Side, rest: Conn)
    requires Steady(w, c) && HalfOf(c, s).waiting != []
    requires rest == With(c, s, HalfOf(c, s).(waiting := HalfOf(c, s).waiting[1..]))
    ensures Steady(w, rest)
  {
    DropEvolves(c, s, rest);
    GenuineKept(w, c, rest);
    assert forall p :: p in HalfOf(c, s).waiting[1..] ==> p in HalfOf(c, s).waiting;
    assert OnCourse(w, rest);
  }

  lemma SteadyStore(w: World, c: Conn, p: Packet)
    requires Steady(w, c) && Genuine(w, p) && !p.syn && !p.rst
    ensures Steady(w, Store(c, p))
  {
    StoreSafe(w, c, p);
    InsertFrom(HalfOf(c, Sender(c, p)).waiting, p);
    assert OnCourse(w, Store(c, p));
  }

  lemma {:induction false} PickupSideSteady(w: World, c: Conn, s: Side)
    requires Steady(w, c)
    ensures var k := PickupSide(c, s);
            && Steady(w, k.conn)
            && (k.packet.Some? ==> Genuine(w, k.packet.value) && !k.packet.value.syn && !k.packet.value.rst
                                   && CanProcess(k.conn, k.packet.value))
    decreases |HalfOf(c, s).waiting|
  {
    var mine := HalfOf(c, s);
    if mine.waiting != [] {
      var p, rest := mine.waiting[0], With(c, s, mine.(waiting := mine.waiting[1..]));
      assert p in mine.waiting;
      SteadyRest(w, c, s, rest);
      if p.id !in c.consumed && !CanProcess(c, p) && IsOld(c, p) {
        PickupSideSteady(w, rest, s);
      }
    }
  }

  lemma PickupSteady(w: World, c: Conn)
    requires Steady(w, c)
    ensures var k := PickupPacket(c);
            && Steady(w, k.conn)
            && (k.packet.Some? ==> Genuine(w, k.packet.value) && !k.packet.value.syn && !k.packet.value.rst
                                   && CanProcess(k.conn, k.packet.value))
  {
    PickupSideSteady(w, c, Client);
    PickupSideSteady(w, PickupSide(c, Client).conn, Server);
  }

  lemma {:induction false} HandleSteady(w: World, c: Conn, p: Packet)
    requires Steady(w, c) && Genuine(w, p) && !p.syn && !p.rst && CanProcess(c, p)
    ensures Steady(w, Handle(c, p).conn)
    decreases Waiting(c), 1
  {
    BodyCounted(w, c, p);
    var r := HandleBody(c, p);
    if r.error.None? && p.fin {
      FinCounted(w, r.conn, p);
      DrainSteady(w, ProcessFin(r.conn, p));
    }
  }

  lemma {:induction false} DrainSteady(w: World, c: Conn)
    requires Steady(w, c)
    ensures Steady(w, Drain(c).conn)
    decreases Waiting(c), 0
  {
    PickupSteady(w, c);
    var k := PickupPacket(c);
    if k.packet.Some? {
      HandleSteady(w, k.conn, k.packet.value);
      var r := Handle(k.conn, k.packet.value);
      if r.error.None? {
        DrainSteady(w, r.conn);
      }
    }
  }

  lemma ReceiveSteady(w: World, c: Conn, p: Packet)
    requires Steady(w, c) && Genuine(w, p) && !IsHandshake1(p) && !p.rst
    ensures Steady(w, Receive(c, p).conn)
  {
    if IsOld(c, p) || (BothFinished(c) && c.state != LastAck) {
    } else if IsHandshake2(p) {
    } else if p.id in c.consumed {
    } else if CanProcess(c, p) {
      HandleSteady(w, c, p);
    } else {
      SteadyStore(w, c, p);
      DrainSteady(w, Store(c, p));
    }
  }

  /** The packets after the SYN, all of them genuine. */
  ghost predicate GenuineTrace(w: World, trace: seq<Packet>) {
    forall i :: 0 <= i < |trace| ==> Genuine(w, trace[i]) && !IsHandshake1(trace[i])
  }

  lemma {:induction false} TraceSafe(w: World, c: Conn, trace: seq<Packet>)
    requires Safe(w, c) && GenuineTrace(w, trace)
    ensures Safe(w, ReceiveAll(c, trace))
    decreases |trace|
  {
    if trace != [] {
      ReceiveSafe(w, c, trace[0]);
      TraceSafe(w, Receive(c, trace[0]).conn, trace[1..]);
    }
  }

  lemma {:induction false} TraceSteady(w: World, c: Conn, trace: seq<Packet>)
    requires Steady(w, c) && GenuineTrace(w, trace) && forall i :: 0 <= i < |trace| ==> !trace[i].rst
    ensures Steady(w, ReceiveAll(c, trace))
    decreases |trace|
  {
    if trace != [] {
      ReceiveSteady(w, c, trace[0]);
      TraceSteady(w, Receive(c, trace[0]).conn, trace[1..]);
    }
  }

  /**
   * What readers of a connection hold, whether it is still followed or was released by a RST or by
   * its last acknowledgement: for every genuine trace, all that was ever appended to the stream of a
   * side is a beginning of what that side sent; and as long as there is no RST in the trace, from
   * the end of the handshake on, the counter gives its length, to the last packet.
   */
  lemma {:induction false} EverAppended(w: World, syn: Packet, trace: seq<Packet>, s: Side)
    requires Genuine(w, syn) && IsHandshake1(syn) && GenuineTrace(w, trace)
    ensures var h := HalfOf(ReceiveAll(Open(syn), trace), s);
            && Written(h.stream) <= Content(w, s)
            && Replays(h.stream)
    ensures var c := ReceiveAll(Open(syn), trace);
            (forall i :: 0 <= i < |trace| ==> !trace[i].rst) && !c.state.SynSent? && !c.state.SynReceived? ==>
              var h := HalfOf(c, s);
              && |Written(h.stream)| == h.seqNo - (Isn(w, s) + 1) - (if h.stream.finished then 1 else 0)
              && (h.stream.finished ==> Written(h.stream) == Content(w, s))
  {
    var c := ReceiveAll(Open(syn), trace);
    OpenSafe(w, syn);
    TraceSafe(w, Open(syn), trace);
    SafeIsPrefix(w, c);
    EveryTrace(Open(syn), trace);
    assert Replays(NOTHING);
    if forall i :: 0 <= i < |trace| ==> !trace[i].rst {
      TraceSteady(w, Open(syn), trace);
      if !c.state.SynSent? && !c.state.SynReceived? {
        assert CountedSide(w, c, s);
      }
    }
  }

  /**
   * What an old packet amounts to: it is dropped, and nothing is lost by that exactly if it does not
   * reach beyond what was collected.
   */
  lemma OldIsCollectedIff(w: World, c: Conn, p: Packet)
    requires Steady(w, c) && !c.state.SynSent? && !c.state.SynReceived?
    requires Genuine(w, p) && !p.syn && !p.rst && p.data != [] && IsOld(c, p)
    ensures Receive(c, p) == Res(c, None)
    ensures var s := SenderIn(w, p);
            var got, o := Written(HalfOf(c, s).stream), p.sequence - (Isn(w, s) + 1);
            (o + |p.data| <= |got| && got[o..o + |p.data|] == p.data) <==> p.sequence + |p.data| <= HalfOf(c, s).seqNo
  {
    var s := SenderIn(w, p);
    assert CountedSide(w, c, s);
    var got, content, o := Written(HalfOf(c, s).stream), Content(w, s), p.sequence - (Isn(w, s) + 1);
    assert got == content[..|got|];
    if o + |p.data| <= |got| {
      assert got[o..o + |p.data|] == content[o..o + |p.data|];
    }
  }
}
