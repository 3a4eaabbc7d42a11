/**
 * Reassembly: segments of one direction that arrive in any order, any of them repeated, and then
 * the FIN, end up in the stream in their order.
 */
module TcpReorder {
  import opened Bytes
  import opened TcpPacket
  import opened TcpBuffer
  import opened TcpStream
  import opened TcpMachine
  import opened TcpRuns

  /**
   * What one side sends while the other is silent: contiguous segments from `start` on, all with
   * the acknowledgement number `ack`, and a FIN that may carry data itself.
   */
  datatype Flow = Flow(detail: Detail, side: Side, start: int, ack: int, segments: seq<seq<byte>>, last: seq<byte>)

  function Start(f: Flow, i: nat): int
    requires i <= |f.segments|
  {
    if i == 0 then f.start else Start(f, i - 1) + |f.segments[i - 1]|
  }

  /** No segment is empty, and all of it lies in a window below 2^31. */
  ghost predicate Proper(f: Flow) {
    && (forall i :: 0 <= i < |f.segments| ==> f.segments[i] != [])
    && Start(f, |f.segments|) - f.start < TWO31
  }

  /** The packet carries segment `i`, or is the FIN. */
  ghost predicate Fits(f: Flow, p: Packet, i: nat) {
    && i <= |f.segments|
    && (p.detail == f.detail <==> f.side == Client)
    && !p.syn && !p.rst && p.ackNum == f.ack && p.sequence == Start(f, i)
    && p.fin == (i == |f.segments|)
    && p.data == if i < |f.segments| then f.segments[i] else f.last
  }

  lemma {:induction false} StartRises(f: Flow, i: nat, j: nat)
    requires Proper(f) && i < j <= |f.segments|
    ensures Start(f, i) < Start(f, j)
    decreases j
  {
    assert f.segments[j - 1] != [];
    if i < j - 1 {
      StartRises(f, i, j - 1);
    }
  }

  lemma {:induction false} StartInjective(f: Flow, i: nat, j: nat)
    requires Proper(f) && i <= |f.segments| && j <= |f.segments|
    ensures Start(f, i) == Start(f, j) ==> i == j
    ensures Start(f, i) < Start(f, j) ==> i < j
    ensures -TWO31 < Start(f, i) - Start(f, j) < TWO31
  {
    var n := |f.segments|;
    if i < j {
      StartRises(f, i, j);
    }
    if j < i {
      StartRises(f, j, i);
    }
    if i < n {
      StartRises(f, i, n);
    }
    if j < n {
      StartRises(f, j, n);
    }
    if 0 < i {
      StartRises(f, 0, i);
    }
    if 0 < j {
      StartRises(f, 0, j);
    }
  }

  lemma UptoNext(f: Flow, k: nat)
    requires k < |f.segments|
    ensures Concat(f.segments[..k + 1]) == Concat(f.segments[..k]) + f.segments[k]
  {
    assert f.segments[..k + 1] == f.segments[..k] + [f.segments[k]];
    ConcatAppend(f.segments[..k], f.segments[k]);
  }

  // ---------------------------------------------------------------- how far it has got

  /** The first `k` segments are in the stream, behind `base`, and the counters say so. */
  ghost predicate Position(f: Flow, base: seq<byte>, c: Conn, k: nat) {
    var mine, other := HalfOf(c, f.side), HalfOf(c, Other(f.side));
    && k <= |f.segments| && c.detail == f.detail && c.state == Established
    && mine.seqNo == Start(f, k) && (mine.ackNo == f.ack || other.seqNo == f.ack)
    && !mine.stream.finished && Written(mine.stream) == base + Concat(f.segments[..k])
  }

  ghost predicate OnlyFlow(f: Flow, waiting: seq<Packet>) {
    forall p :: p in waiting ==> exists i: nat :: Fits(f, p, i)
  }

  /** Besides, only packets of the flow wait, in order and none of them consumed. */
  ghost predicate Reached(f: Flow, base: seq<byte>, c: Conn, k: nat) {
    && Position(f, base, c, k) && Ordered(c) && Fresh(c)
    && OnlyFlow(f, HalfOf(c, f.side).waiting) && HalfOf(c, Other(f.side)).waiting == []
  }

  /** Segment `i` has arrived: it is in the stream or it waits. */
  ghost predicate Has(f: Flow, c: Conn, k: nat, i: nat) {
    i < k || exists p :: p in HalfOf(c, f.side).waiting && Fits(f, p, i)
  }

  /** Everything is in the stream, which is finished, and nothing waits. */
  ghost predicate Complete(f: Flow, base: seq<byte>, c: Conn) {
    && c.detail == f.detail && HalfOf(c, f.side).seqNo > Start(f, |f.segments|)
    && HalfOf(c, f.side).stream.finished
    && Written(HalfOf(c, f.side).stream) == base + Concat(f.segments) + f.last
    && c.client.waiting == [] && c.server.waiting == []
  }

  /** The stream has got to part `k` of the flow, counting the FIN as its last part. */
  ghost predicate At(f: Flow, base: seq<byte>, c: Conn, k: nat) {
    if k <= |f.segments| then Reached(f, base, c, k) else k == |f.segments| + 1 && Complete(f, base, c)
  }

  lemma FlowSender(f: Flow, c: Conn, p: Packet, i: nat)
    requires c.detail == f.detail && Fits(f, p, i)
    ensures Sender(c, p) == f.side
  {
  }

  /** What can be processed now is exactly segment `k`. */
  lemma ProcessableIsNext(f: Flow, base: seq<byte>, c: Conn, k: nat, p: Packet, i: nat)
    requires Proper(f) && Reached(f, base, c, k) && Fits(f, p, i)
    ensures CanProcess(c, p) <==> i == k
    ensures IsOld(c, p) <==> i < k
  {
    FlowSender(f, c, p, i);
    StartInjective(f, i, k);
    if i < k {
      StartRises(f, i, k);
    }
  }

  // ---------------------------------------------------------------- handling

  lemma BodyTakes(f: Flow, base: seq<byte>, c: Conn, k: nat, p: Packet)
    requires Proper(f) && Reached(f, base, c, k) && Fits(f, p, k)
    ensures var r := HandleBody(c, p);
            var mine, other := HalfOf(r.conn, f.side), HalfOf(r.conn, Other(f.side));
            && r.error.None? && r.conn.state == Established
            && (p.data != [] ==> mine.ackNo == f.ack) && (p.data == [] ==> mine.ackNo == HalfOf(c, f.side).ackNo)
            && other.seqNo == HalfOf(c, Other(f.side)).seqNo
            && mine.seqNo == p.sequence + |p.data|
            && !mine.stream.finished && Written(mine.stream) == Written(HalfOf(c, f.side).stream) + p.data
  {
    FlowSender(f, c, p, k);
    var mine := HalfOf(c, f.side);
    assert ProcessAck(c, p) == Res(c, None);
    if p.data != [] {
      AddExtends(mine.stream, p.data);
      assert HalfOf(ProcessData(c, p).conn, f.side).stream == Add(mine.stream, p.data);
    } else {
      assert Written(mine.stream) + [] == Written(mine.stream);
    }
  }

  lemma {:induction false} HandleSegment(f: Flow, base: seq<byte>, c: Conn, k: nat, p: Packet)
    requires Proper(f) && Reached(f, base, c, k) && Fits(f, p, k) && k < |f.segments| && AllIds(c)[p.id] == 0
    ensures var r := Handle(c, p); r.error.None? && Reached(f, base, r.conn, k + 1) && SameWaiting(c, r.conn)
  {
    var r := Handle(c, p);
    assert r == HandleBody(c, p);
    HandleFresh(c, p);
    BodyEvolves(c, p);
    EvolvesOrdered(c, r.conn);
    SegmentPosition(f, base, c, k, p);
  }

  lemma SegmentPosition(f: Flow, base: seq<byte>, c: Conn, k: nat, p: Packet)
    requires Proper(f) && Reached(f, base, c, k) && Fits(f, p, k) && k < |f.segments|
    ensures var r := HandleBody(c, p);
            r.error.None? && r.conn.detail == c.detail && Position(f, base, r.conn, k + 1)
  {
    var r := HandleBody(c, p);
    assert r.conn.detail == c.detail by {
      BodyEvolves(c, p);
    }
    assert p.data != [];
    BodyTakes(f, base, c, k, p);
    NextPosition(f, base, c, k, r.conn);
  }

  lemma {:induction false} NextPosition(f: Flow, base: seq<byte>, c: Conn, k: nat, d: Conn)
    requires Position(f, base, c, k) && k < |f.segments| && d.detail == c.detail && d.state == Established
    requires var mine := HalfOf(d, f.side);
             && mine.ackNo == f.ack && mine.seqNo == Start(f, k) + |f.segments[k]| && !mine.stream.finished
             && Written(mine.stream) == Written(HalfOf(c, f.side).stream) + f.segments[k]
    ensures Position(f, base, d, k + 1)
  {
    UptoNext(f, k);
  }

  /** The stream is finished and complete; what still waits is old. */
  ghost predicate Finishing(f: Flow, base: seq<byte>, c: Conn) {
    var mine := HalfOf(c, f.side);
    && c.detail == f.detail && mine.seqNo > Start(f, |f.segments|)
    && mine.stream.finished && Written(mine.stream) == base + Concat(f.segments) + f.last
    && HalfOf(c, Other(f.side)).waiting == [] && Fresh(c)
    && (forall p :: p in mine.waiting ==> Sender(c, p) == f.side && p.sequence < mine.seqNo)
  }

  lemma {:induction false} FinishingRest(f: Flow, base: seq<byte>, c: Conn, p: Packet, rest: Conn)
    requires Finishing(f, base, c) && HalfOf(c, f.side).waiting != [] && p == HalfOf(c, f.side).waiting[0]
    requires rest == With(c, f.side, HalfOf(c, f.side).(waiting := HalfOf(c, f.side).waiting[1..]))
    ensures Finishing(f, base, rest) && PickupSide(c, f.side) == PickupSide(rest, f.side)
  {
    DropFresh(c, f.side, p, rest);
    assert p in HalfOf(c, f.side).waiting;
    assert IsOld(c, p) && !CanProcess(c, p);
    forall q | q in HalfOf(rest, f.side).waiting ensures Sender(rest, q) == f.side && q.sequence < HalfOf(rest, f.side).seqNo {
      assert q in HalfOf(c, f.side).waiting;
    }
  }

  lemma {:induction false} PickupOld(f: Flow, base: seq<byte>, c: Conn)
    requires Finishing(f, base, c)
    ensures var r := PickupSide(c, f.side); r.packet.None? && r.error.None? && Complete(f, base, r.conn)
    decreases |HalfOf(c, f.side).waiting|
  {
    var mine := HalfOf(c, f.side);
    if mine.waiting != [] {
      var p, rest := mine.waiting[0], With(c, f.side, mine.(waiting := mine.waiting[1..]));
      FinishingRest(f, base, c, p, rest);
      PickupOld(f, base, rest);
    }
  }

  lemma {:induction false} DrainOld(f: Flow, base: seq<byte>, c: Conn)
    requires Finishing(f, base, c)
    ensures var r := Drain(c); r.error.None? && Complete(f, base, r.conn)
  {
    PickupOld(f, base, c);
  }

  lemma FinFresh(c: Conn, p: Packet)
    requires Fresh(c) && AllIds(c)[p.id] == 0
    ensures Fresh(ProcessFin(HandleBody(c, p).conn, p))
  {
    BodyConsumes(c, p);
    var r := HandleBody(c, p);
    FreshAfter(c, r.conn, p);
    FinConsumes(r.conn, p);
    FreshAfter(r.conn, ProcessFin(r.conn, p), p);
  }

  lemma {:induction false} AllBefore(f: Flow, c: Conn, waiting: seq<Packet>, bound: int)
    requires Proper(f) && OnlyFlow(f, waiting) && c.detail == f.detail && Start(f, |f.segments|) < bound
    ensures forall q :: q in waiting ==> Sender(c, q) == f.side && q.sequence < bound
  {
    var n := |f.segments|;
    forall q | q in waiting ensures Sender(c, q) == f.side && q.sequence < bound {
      var i: nat :| Fits(f, q, i);
      if i < n {
        StartRises(f, i, n);
      }
    }
  }

  lemma FinFinishes(f: Flow, base: seq<byte>, c: Conn, p: Packet)
    requires Proper(f) && Reached(f, base, c, |f.segments|) && Fits(f, p, |f.segments|) && AllIds(c)[p.id] == 0
    ensures var r := HandleBody(c, p); r.error.None? && Finishing(f, base, ProcessFin(r.conn, p))
  {
    var n := |f.segments|;
    BodyTakes(f, base, c, n, p);
    FinFresh(c, p);
    var r := HandleBody(c, p);
    assert SameWaiting(c, r.conn) && r.conn.detail == c.detail by {
      BodyEvolves(c, p);
    }
    FlowSender(f, r.conn, p, n);
    FinHalf(r.conn, p, f.side);
    CloseKeeps(HalfOf(r.conn, f.side).stream, false);
    assert f.segments[..n] == f.segments;
    var c2 := ProcessFin(r.conn, p);
    AllBefore(f, c2, HalfOf(c2, f.side).waiting, HalfOf(c2, f.side).seqNo);
  }

  lemma {:induction false} HandleFin(f: Flow, base: seq<byte>, c: Conn, p: Packet)
    requires Proper(f) && Reached(f, base, c, |f.segments|) && Fits(f, p, |f.segments|) && AllIds(c)[p.id] == 0
    ensures var r := Handle(c, p); r.error.None? && Complete(f, base, r.conn)
  {
    FinFinishes(f, base, c, p);
    DrainOld(f, base, ProcessFin(HandleBody(c, p).conn, p));
  }

  // ---------------------------------------------------------------- draining

  lemma DropOrdered(c: Conn, s: Side, rest: Conn)
    requires Ordered(c) && HalfOf(c, s).waiting != []
    requires rest == With(c, s, HalfOf(c, s).(waiting := HalfOf(c, s).waiting[1..]))
    ensures Ordered(rest)
  {
    var w := HalfOf(c, s).waiting;
    SortedTail(w);
    assert forall q :: q in w[1..] ==> q in w;
  }

  lemma DropReached(f: Flow, base: seq<byte>, c: Conn, k: nat, rest: Conn, p: Packet)
    requires Reached(f, base, c, k) && HalfOf(c, f.side).waiting != [] && p == HalfOf(c, f.side).waiting[0]
    requires rest == With(c, f.side, HalfOf(c, f.side).(waiting := HalfOf(c, f.side).waiting[1..]))
    ensures Reached(f, base, rest, k) && AllIds(rest)[p.id] == 0 && p.id !in c.consumed
  {
    DropFresh(c, f.side, p, rest);
    DropOrdered(c, f.side, rest);
    var w := HalfOf(c, f.side).waiting;
    assert forall q :: q in w[1..] ==> q in w;
    assert OnlyFlow(f, HalfOf(rest, f.side).waiting);
    assert Position(f, base, rest, k);
  }

  /** Only what the dropped packet carried may be gone. */
  lemma DropHas(f: Flow, c: Conn, k: nat, rest: Conn, p: Packet, i: nat)
    requires HalfOf(c, f.side).waiting != [] && p == HalfOf(c, f.side).waiting[0]
    requires rest == With(c, f.side, HalfOf(c, f.side).(waiting := HalfOf(c, f.side).waiting[1..]))
    requires Has(f, c, k, i) && !Fits(f, p, i)
    ensures Has(f, rest, k, i)
  {
    if i >= k {
      var q :| q in HalfOf(c, f.side).waiting && Fits(f, q, i);
      assert q in HalfOf(rest, f.side).waiting;
    }
  }

  /** Picking up either finds nothing to do or finds part `k`; no other part is lost, none appears. */
  lemma {:induction false} PickupFlow(f: Flow, base: seq<byte>, c: Conn, k: nat)
    requires Proper(f) && Reached(f, base, c, k)
    ensures var r := PickupSide(c, f.side);
            && r.error.None? && Reached(f, base, r.conn, k)
            && (r.packet.Some? ==> Fits(f, r.packet.value, k) && AllIds(r.conn)[r.packet.value.id] == 0 && Has(f, c, k, k))
            && (forall i: nat :: i != k && Has(f, c, k, i) ==> Has(f, r.conn, k, i))
            && (forall i: nat :: Has(f, r.conn, k, i) ==> Has(f, c, k, i))
            && (r.packet.None? && Has(f, c, k, k) ==> Has(f, r.conn, k, k))
    decreases |HalfOf(c, f.side).waiting|
  {
    var mine := HalfOf(c, f.side);
    if mine.waiting != [] {
      var p, rest := mine.waiting[0], With(c, f.side, mine.(waiting := mine.waiting[1..]));
      assert p in mine.waiting;
      var j: nat :| Fits(f, p, j);
      ProcessableIsNext(f, base, c, k, p, j);
      DropReached(f, base, c, k, rest, p);
      DropBack(f, c, k, rest);
      forall i: nat | Has(f, c, k, i) && (i != k || j < k) ensures Has(f, rest, k, i) || j > k {
        StartInjective(f, if i <= |f.segments| then i else j, j);
        if i >= k && j <= k {
          DropHas(f, c, k, rest, p, i);
        }
      }
      if j < k {
        PickupFlow(f, base, rest, k);
      }
    }
  }

  /** Dropping a packet makes nothing arrive. */
  lemma DropBack(f: Flow, c: Conn, k: nat, rest: Conn)
    requires HalfOf(c, f.side).waiting != []
    requires rest == With(c, f.side, HalfOf(c, f.side).(waiting := HalfOf(c, f.side).waiting[1..]))
    ensures forall i: nat :: Has(f, rest, k, i) ==> Has(f, c, k, i)
  {
    forall i: nat | Has(f, rest, k, i) ensures Has(f, c, k, i) {
      if i >= k {
        var q :| q in HalfOf(rest, f.side).waiting && Fits(f, q, i);
        assert q in HalfOf(c, f.side).waiting;
      }
    }
  }

  lemma {:induction false} PickupBoth(f: Flow, base: seq<byte>, c: Conn, k: nat)
    requires Proper(f) && Reached(f, base, c, k)
    ensures PickupPacket(c) == PickupSide(c, f.side)
  {
    PickupFlow(f, base, c, k);
    PickupSideOnly(c, f.side);
  }

  lemma {:induction false} CompleteDrains(f: Flow, base: seq<byte>, c: Conn)
    requires Complete(f, base, c)
    ensures Drain(c) == Res(c, None)
  {
  }

  /** What has arrived is the same in `c` and in `d`. */
  ghost predicate Keeps(f: Flow, c: Conn, k: nat, d: Conn, k': nat) {
    forall i: nat :: i <= |f.segments| ==> (Has(f, c, k, i) <==> Has(f, d, k', i))
  }

  /** Part `k` has gone to the stream; the others are where they were. */
  lemma KeepsAfterHandling(f: Flow, c: Conn, k: nat, picked: Conn, c1: Conn)
    requires SameWaiting(picked, c1) && Has(f, c, k, k)
    requires forall i: nat :: i != k && Has(f, c, k, i) ==> Has(f, picked, k, i)
    requires forall i: nat :: Has(f, picked, k, i) ==> Has(f, c, k, i)
    ensures Keeps(f, c, k, c1, k + 1)
  {
    forall i: nat | i <= |f.segments| ensures Has(f, c, k, i) <==> Has(f, c1, k + 1, i) {
      if i > k {
        assert Has(f, picked, k, i) <==> Has(f, c1, k + 1, i);
      }
    }
  }

  /** A round of the drain that finds segment `k` puts it into the stream. */
  lemma RoundTakes(f: Flow, base: seq<byte>, c: Conn, k: nat) returns (c1: Conn)
    requires Proper(f) && Reached(f, base, c, k) && k < |f.segments| && PickupPacket(c).packet.Some?
    ensures Reached(f, base, c1, k + 1) && Waiting(c1) < Waiting(c) && Drain(c) == Drain(c1) && Keeps(f, c, k, c1, k + 1)
  {
    PickupBoth(f, base, c, k);
    PickupFlow(f, base, c, k);
    var r := PickupPacket(c);
    HandleSegment(f, base, r.conn, k, r.packet.value);
    c1 := Handle(r.conn, r.packet.value).conn;
    KeepsAfterHandling(f, c, k, r.conn, c1);
  }

  /** How far a drain gets: everything that has arrived without a gap is in the stream. */
  ghost predicate Settled(f: Flow, base: seq<byte>, c: Conn, k: nat, r: Res, k': nat) {
    && r.error.None? && At(f, base, r.conn, k') && Keeps(f, c, k, r.conn, k')
    && (k' <= |f.segments| ==> !Has(f, r.conn, k', k'))
  }

  /** Once the FIN is handled everything had arrived, and nothing is left to do. */
  lemma FinSettles(f: Flow, base: seq<byte>, c: Conn, r: Res)
    requires r.error.None? && Complete(f, base, r.conn) && Has(f, c, |f.segments|, |f.segments|)
    ensures Settled(f, base, c, |f.segments|, r, |f.segments| + 1)
  {
  }

  /** A round that finds the FIN is the last one. */
  lemma {:induction false} RoundFinishes(f: Flow, base: seq<byte>, c: Conn)
    requires Proper(f) && Reached(f, base, c, |f.segments|) && PickupPacket(c).packet.Some?
    ensures Settled(f, base, c, |f.segments|, Drain(c), |f.segments| + 1)
  {
    var r := LastRound(f, base, c);
    FinSettles(f, base, c, r);
  }

  lemma LastRound(f: Flow, base: seq<byte>, c: Conn) returns (r: Res)
    requires Proper(f) && Reached(f, base, c, |f.segments|) && PickupPacket(c).packet.Some?
    ensures r == Drain(c) && r.error.None? && Complete(f, base, r.conn) && Has(f, c, |f.segments|, |f.segments|)
  {
    var n := |f.segments|;
    PickupBoth(f, base, c, n);
    PickupFlow(f, base, c, n);
    var k := PickupPacket(c);
    r := Handle(k.conn, k.packet.value);
    HandleFin(f, base, k.conn, k.packet.value);
    CompleteDrains(f, base, r.conn);
  }

  lemma {:induction false} RoundStops(f: Flow, base: seq<byte>, c: Conn, k: nat)
    requires Proper(f) && Reached(f, base, c, k) && PickupPacket(c).packet.None?
    ensures Settled(f, base, c, k, Drain(c), k)
  {
    PickupBoth(f, base, c, k);
    PickupFlow(f, base, c, k);
    DrainIsQuiet(c);
    QuietMisses(f, base, Drain(c).conn, k);
    assert Keeps(f, c, k, Drain(c).conn, k);
  }

  /** Where nothing can be picked up the next part is missing. */
  lemma QuietMisses(f: Flow, base: seq<byte>, c: Conn, k: nat)
    requires Proper(f) && Reached(f, base, c, k) && QuietSide(c, f.side)
    ensures !Has(f, c, k, k)
  {
    if Has(f, c, k, k) {
      var q :| q in HalfOf(c, f.side).waiting && Fits(f, q, k);
      ProcessableIsNext(f, base, c, k, q, k);
      assert false;
    }
  }

  lemma SettledLater(f: Flow, base: seq<byte>, c: Conn, k: nat, c1: Conn, k1: nat, r: Res, k': nat)
    requires Keeps(f, c, k, c1, k1) && Settled(f, base, c1, k1, r, k')
    ensures Settled(f, base, c, k, r, k')
  {
  }

  /** A drain takes every part that is next, and loses none. */
  lemma {:induction false} DrainFlow(f: Flow, base: seq<byte>, c: Conn, k: nat) returns (k': nat)
    requires Proper(f) && Reached(f, base, c, k)
    ensures k <= k' && Settled(f, base, c, k, Drain(c), k')
    decreases Waiting(c)
  {
    k' := k;
    if PickupPacket(c).packet.None? {
      RoundStops(f, base, c, k);
    } else if k < |f.segments| {
      var c1 := RoundTakes(f, base, c, k);
      k' := DrainFlow(f, base, c1, k + 1);
      SettledLater(f, base, c, k, c1, k + 1, Drain(c1), k');
    } else {
      RoundFinishes(f, base, c);
      k' := k + 1;
    }
  }

  // ---------------------------------------------------------------- arrivals

  /** Part `i` is new in `d`; apart from it the same has arrived. */
  ghost predicate Gains(f: Flow, c: Conn, k: nat, i: nat, d: Conn, k': nat) {
    forall j: nat :: j <= |f.segments| ==> (Has(f, d, k', j) <==> Has(f, c, k, j) || j == i)
  }

  lemma StoreFlow(f: Flow, base: seq<byte>, c: Conn, k: nat, p: Packet, i: nat)
    requires Proper(f) && Reached(f, base, c, k) && Fits(f, p, i) && !Knows(c, p.id)
    ensures Near(HalfOf(c, f.side).waiting, p)
    ensures Reached(f, base, Store(c, p), k) && Gains(f, c, k, i, Store(c, p), k)
  {
    FlowSender(f, c, p, i);
    var w := HalfOf(c, f.side).waiting;
    FlowNear(f, w, p, i);
    StoreOrdered(c, p);
    StoreFresh(c, p);
    InsertFrom(w, p);
    InsertHas(f, w, p, i);
    assert Position(f, base, Store(c, p), k);
    StoreGains(f, c, k, p, i);
  }

  lemma {:induction false} StoreGains(f: Flow, c: Conn, k: nat, p: Packet, i: nat)
    requires Proper(f) && Fits(f, p, i) && Sender(c, p) == f.side
    requires var w := HalfOf(c, f.side).waiting;
             && (forall q :: q in w ==> q in Insert(w, p)) && (forall q :: q in Insert(w, p) ==> q in w || q == p)
             && exists q :: q in Insert(w, p) && Fits(f, q, i)
    ensures Gains(f, c, k, i, Store(c, p), k)
  {
    forall j: nat | j <= |f.segments| ensures Has(f, Store(c, p), k, j) <==> Has(f, c, k, j) || j == i {
      StartInjective(f, i, j);
    }
  }

  lemma FlowNear(f: Flow, w: seq<Packet>, p: Packet, i: nat)
    requires Proper(f) && OnlyFlow(f, w) && Fits(f, p, i)
    ensures Near(w, p)
  {
    forall j | 0 <= j < |w| ensures -TWO31 < p.sequence - w[j].sequence < TWO31 {
      assert w[j] in w;
      var m: nat :| Fits(f, w[j], m);
      StartInjective(f, i, m);
    }
  }

  /** A packet that is refused has a twin in the buffer. */
  lemma {:induction false} InsertHas(f: Flow, w: seq<Packet>, p: Packet, i: nat)
    requires Proper(f) && OnlyFlow(f, w) && Fits(f, p, i) && Sorted(w) && Near(w, p)
    ensures exists q :: q in Insert(w, p) && Fits(f, q, i)
  {
    InsertFrom(w, p);
    InsertStores(w, p);
    if p !in Insert(w, p) {
      var q :| q in w && q.sequence == p.sequence;
      var m: nat :| Fits(f, q, m);
      StartInjective(f, i, m);
    }
  }

  /** Where one more part leads: a part already taken is dropped, the next one is taken alone, and one
      that is ahead makes the stream catch up with all that has arrived. */
  ghost predicate Advances(f: Flow, k: nat, i: nat, d: Conn, k': nat) {
    if i < k then k' == k
    else if i == k then k' == k + 1
    else k <= k' && (k' <= |f.segments| ==> !Has(f, d, k', k'))
  }

  /** One packet of a flow, wherever it belongs. */
  lemma Arrival(f: Flow, base: seq<byte>, c: Conn, k: nat, p: Packet, i: nat) returns (k': nat)
    requires Proper(f) && At(f, base, c, k) && Fits(f, p, i) && !Knows(c, p.id)
    ensures var d := Receive(c, p).conn;
            At(f, base, d, k') && Gains(f, c, k, i, d, k') && Advances(f, k, i, d, k')
  {
    k' := k;
    if k == |f.segments| + 1 {
      OldAfterAll(f, base, c, p, i);
    } else {
      ProcessableIsNext(f, base, c, k, p, i);
      if i < k {
        assert Receive(c, p) == Res(c, None);
      } else if i == k {
        k' := k + 1;
        InTurn(f, base, c, k, p);
      } else {
        assert Receive(c, p) == Drain(Store(c, p));
        StoreFlow(f, base, c, k, p, i);
        k' := DrainFlow(f, base, Store(c, p), k);
      }
    }
  }

  lemma OldAfterAll(f: Flow, base: seq<byte>, c: Conn, p: Packet, i: nat)
    requires Proper(f) && Complete(f, base, c) && Fits(f, p, i)
    ensures Receive(c, p) == Res(c, None)
  {
    FlowSender(f, c, p, i);
    if i < |f.segments| {
      StartRises(f, i, |f.segments|);
    }
  }

  /** The part that is next goes into the stream; nothing else moves, unless it is the FIN. */
  lemma InTurn(f: Flow, base: seq<byte>, c: Conn, k: nat, p: Packet)
    requires Proper(f) && Reached(f, base, c, k) && Fits(f, p, k) && !Knows(c, p.id)
    ensures var d := Receive(c, p).conn; At(f, base, d, k + 1) && Gains(f, c, k, k, d, k + 1)
  {
    ProcessableIsNext(f, base, c, k, p, k);
    assert Receive(c, p) == Handle(c, p);
    if k < |f.segments| {
      HandleSegment(f, base, c, k, p);
      var d := Handle(c, p).conn;
      assert forall j: nat :: Has(f, d, k, j) <==> Has(f, c, k, j);
    } else {
      HandleFin(f, base, c, p);
    }
  }

  // ---------------------------------------------------------------- how far a trace gets

  /** The packet carries a part of the flow, the FIN being the last part. */
  ghost predicate IsPart(f: Flow, p: Packet) {
    exists i: nat :: Fits(f, p, i)
  }

  ghost function Index(f: Flow, p: Packet): (i: nat)
    requires IsPart(f, p)
    ensures Fits(f, p, i)
  {
    var i: nat :| Fits(f, p, i);
    i
  }

  ghost predicate Parts(f: Flow, trace: seq<Packet>) {
    forall j :: 0 <= j < |trace| ==> IsPart(f, trace[j])
  }

  ghost predicate Carried(f: Flow, trace: seq<Packet>, i: nat) {
    exists j :: 0 <= j < |trace| && Fits(f, trace[j], i)
  }

  /** The first part from `k` on that the trace does not carry. */
  ghost function FirstMissing(f: Flow, trace: seq<Packet>, k: nat): (r: nat)
    requires k <= |f.segments| + 1
    ensures k <= r <= |f.segments| + 1
    ensures forall j: nat :: k <= j < r ==> Carried(f, trace, j)
    ensures r <= |f.segments| ==> !Carried(f, trace, r)
    decreases |f.segments| + 1 - k
  {
    if k <= |f.segments| && Carried(f, trace, k) then FirstMissing(f, trace, k + 1) else k
  }

  /** How many parts are in the stream after a trace, by the numbers of its packets alone. */
  ghost function Reach(f: Flow, trace: seq<Packet>): (r: nat)
    requires Parts(f, trace)
    ensures r <= |f.segments| + 1
    decreases |trace|
  {
    if trace == [] then 0
    else
      var k, i := Reach(f, trace[..|trace| - 1]), Index(f, trace[|trace| - 1]);
      if i < k then k
      else if i == k then k + 1
      else FirstMissing(f, trace, k)
  }

  lemma CarriedSnoc(f: Flow, front: seq<Packet>, p: Packet, j: nat)
    requires Proper(f) && IsPart(f, p)
    ensures Carried(f, front + [p], j) <==> Carried(f, front, j) || j == Index(f, p)
  {
    var all := front + [p];
    assert all[|front|] == p;
    if Carried(f, all, j) {
      var m :| 0 <= m < |all| && Fits(f, all[m], j);
      if m < |front| {
        assert Fits(f, front[m], j);
      } else {
        StartInjective(f, j, Index(f, p));
      }
    }
    if Carried(f, front, j) {
      var m :| 0 <= m < |front| && Fits(f, front[m], j);
      assert all[m] == front[m];
    }
  }

  /** The parts that have arrived are those that the trace carries. */
  ghost predicate Received(f: Flow, c: Conn, k: nat, trace: seq<Packet>) {
    forall j: nat :: j <= |f.segments| ==> (Has(f, c, k, j) <==> Carried(f, trace, j))
  }

  /** Only the packets of the trace were added to those known. */
  ghost predicate KnowsNoMore(c: Conn, trace: seq<Packet>, d: Conn) {
    forall x: nat :: Knows(d, x) ==> Knows(c, x) || exists j :: 0 <= j < |trace| && trace[j].id == x
  }

  ghost predicate Distinct(trace: seq<Packet>) {
    forall i, j :: 0 <= i < j < |trace| ==> trace[i].id != trace[j].id
  }

  /** Packets of the flow, none of them seen before. */
  ghost predicate NewParts(f: Flow, c: Conn, trace: seq<Packet>) {
    Parts(f, trace) && Distinct(trace) && forall j :: 0 <= j < |trace| ==> !Knows(c, trace[j].id)
  }

  /** The stream has got exactly as far as the numbers of the packets say. */
  ghost predicate Followed(f: Flow, base: seq<byte>, c: Conn, trace: seq<Packet>, d: Conn) {
    && Parts(f, trace) && At(f, base, d, Reach(f, trace))
    && Received(f, d, Reach(f, trace), trace) && KnowsNoMore(c, trace, d)
  }

  lemma OnePartMore(f: Flow, base: seq<byte>, c: Conn, front: seq<Packet>, c1: Conn, p: Packet)
    requires Proper(f) && Followed(f, base, c, front, c1) && IsPart(f, p) && !Knows(c1, p.id)
    requires Parts(f, front + [p])
    ensures Followed(f, base, c, front + [p], Receive(c1, p).conn)
  {
    var k := Reach(f, front);
    ReceiveFresh(c1, p);
    var k' := Arrival(f, base, c1, k, p, Index(f, p));
    OneMorePart(f, c1, front, k, p, Receive(c1, p).conn, k');
    KnowsMore(c, front, c1, p, Receive(c1, p).conn);
  }

  /**
   * For every trace of packets of a flow, in any order, any of them repeated and the FIN anywhere:
   * the stream has got exactly as far as the numbers of the packets say.
   */
  lemma {:induction false} Progress(f: Flow, base: seq<byte>, c: Conn, trace: seq<Packet>)
    requires Proper(f) && Reached(f, base, c, 0) && HalfOf(c, f.side).waiting == [] && NewParts(f, c, trace)
    ensures Followed(f, base, c, trace, ReceiveAll(c, trace))
    decreases |trace|
  {
    if trace != [] {
      var n := |trace| - 1;
      var front, p := trace[..n], trace[n];
      assert trace == front + [p];
      Progress(f, base, c, front);
      ReceiveAllSnoc(c, front, p);
      assert !Knows(ReceiveAll(c, front), p.id);
      OnePartMore(f, base, c, front, ReceiveAll(c, front), p);
    }
  }

  lemma KnowsMore(c: Conn, front: seq<Packet>, c1: Conn, p: Packet, d: Conn)
    requires KnowsNoMore(c, front, c1) && forall x: nat :: Knows(d, x) ==> Knows(c1, x) || x == p.id
    ensures KnowsNoMore(c, front + [p], d)
  {
    var all := front + [p];
    forall x: nat | Knows(d, x) && !Knows(c, x) ensures exists j :: 0 <= j < |all| && all[j].id == x {
      if x == p.id {
        assert all[|front|].id == x;
      } else {
        var j :| 0 <= j < |front| && front[j].id == x;
        assert all[j].id == x;
      }
    }
  }

  lemma {:induction false} OneMorePart(f: Flow, c: Conn, front: seq<Packet>, k: nat, p: Packet, d: Conn, k': nat)
    requires Proper(f) && Parts(f, front + [p]) && Parts(f, front) && IsPart(f, p)
    requires k == Reach(f, front) && k' <= |f.segments| + 1 && Received(f, c, k, front)
    requires Gains(f, c, k, Index(f, p), d, k') && Advances(f, k, Index(f, p), d, k')
    ensures k' == Reach(f, front + [p]) && Received(f, d, k', front + [p])
  {
    var all := front + [p];
    assert all[..|all| - 1] == front && all[|all| - 1] == p;
    forall j: nat | j <= |f.segments| ensures Has(f, d, k', j) <==> Carried(f, all, j) {
      CarriedSnoc(f, front, p, j);
    }
    if Index(f, p) > k {
      MissingIsFirst(f, all, k, k');
    }
  }

  lemma {:induction false} MissingIsFirst(f: Flow, trace: seq<Packet>, k: nat, r: nat)
    requires k <= r <= |f.segments| + 1 && forall j: nat :: k <= j < r ==> Carried(f, trace, j)
    requires r <= |f.segments| ==> !Carried(f, trace, r)
    ensures FirstMissing(f, trace, k) == r
    decreases r - k
  {
    if k < r {
      MissingIsFirst(f, trace, k + 1, r);
    }
  }

  // ---------------------------------------------------------------- when a trace completes the stream

  /**
   * Packet `j` completes the flow: all other parts have arrived before, and it is ahead of the
   * stream, or it is the FIN in its turn.  A segment that fills the gap in its turn does not
   * drain what waits.
   */
  ghost predicate Completes(f: Flow, trace: seq<Packet>, j: nat)
    requires j < |trace| && Parts(f, trace)
  {
    var k, i := Reach(f, trace[..j]), Index(f, trace[j]);
    && (forall m: nat :: m <= |f.segments| && m != i ==> Carried(f, trace[..j], m))
    && (i > k || (i == k && i == |f.segments|))
  }

  /** Parts in the stream have arrived. */
  lemma {:induction false} ReachIsCarried(f: Flow, trace: seq<Packet>)
    requires Proper(f) && Parts(f, trace)
    ensures forall j: nat :: j < Reach(f, trace) ==> Carried(f, trace, j)
    decreases |trace|
  {
    if trace != [] {
      var front, p := trace[..|trace| - 1], trace[|trace| - 1];
      assert trace == front + [p];
      ReachIsCarried(f, front);
      forall j: nat | j < Reach(f, trace) ensures Carried(f, trace, j) {
        CarriedSnoc(f, front, p, j);
      }
    }
  }

  lemma {:induction false} CompletesLast(f: Flow, trace: seq<Packet>)
    requires Proper(f) && Parts(f, trace) && trace != [] && Reach(f, trace[..|trace| - 1]) <= |f.segments|
    ensures Reach(f, trace) > |f.segments| <==> Completes(f, trace, |trace| - 1)
  {
    var n := |trace| - 1;
    var front, p := trace[..n], trace[n];
    assert trace == front + [p];
    ReachIsCarried(f, front);
    forall m: nat ensures Carried(f, trace, m) <==> Carried(f, front, m) || m == Index(f, p) {
      CarriedSnoc(f, front, p, m);
    }
    if Index(f, p) > Reach(f, front) && Completes(f, trace, n) {
      MissingIsFirst(f, trace, Reach(f, front), |f.segments| + 1);
    }
  }

  lemma CompletesFront(f: Flow, trace: seq<Packet>, n: nat, j: nat)
    requires Parts(f, trace) && j < n <= |trace|
    ensures Parts(f, trace[..n]) && (Completes(f, trace, j) <==> Completes(f, trace[..n], j))
  {
    assert trace[..j] == trace[..n][..j];
  }

  lemma {:induction false} ReachesEndIff(f: Flow, trace: seq<Packet>)
    requires Proper(f) && Parts(f, trace)
    ensures Reach(f, trace) > |f.segments| <==> exists j: nat :: j < |trace| && Completes(f, trace, j)
    decreases |trace|
  {
    if trace != [] {
      var n := |trace| - 1;
      ReachesEndIff(f, trace[..n]);
      if Reach(f, trace[..n]) > |f.segments| {
        var j: nat :| j < n && Completes(f, trace[..n], j);
        CompletesFront(f, trace, n, j);
        ReachStays(f, trace);
      } else {
        CompletesLast(f, trace);
        if j: nat :| j < |trace| && Completes(f, trace, j) {
          if j < n {
            CompletesFront(f, trace, n, j);
          }
        }
      }
    }
  }

  lemma {:induction false} ReachStays(f: Flow, trace: seq<Packet>)
    requires Proper(f) && Parts(f, trace) && trace != [] && Reach(f, trace[..|trace| - 1]) > |f.segments|
    ensures Reach(f, trace) > |f.segments|
  {
  }

  /** What the stream holds when it has got to part `k`. */
  ghost function Upto(f: Flow, k: nat): seq<byte>
    requires k <= |f.segments| + 1
  {
    if k <= |f.segments| then Concat(f.segments[..k]) else Concat(f.segments) + f.last
  }

  /** An established connection where nothing waits and the flow is about to start. */
  ghost predicate ReadyFor(f: Flow, c: Conn) {
    && c.detail == f.detail && c.state == Established && c.client.waiting == [] && c.server.waiting == []
    && HalfOf(c, f.side).seqNo == f.start && !HalfOf(c, f.side).stream.finished
    && (HalfOf(c, f.side).ackNo == f.ack || HalfOf(c, Other(f.side)).seqNo == f.ack)
  }

  lemma ReadyReached(f: Flow, c: Conn)
    requires ReadyFor(f, c)
    ensures Reached(f, Written(HalfOf(c, f.side).stream), c, 0)
    ensures forall i: nat :: Knows(c, i) <==> i in c.consumed
  {
    assert f.segments[..0] == [];
    assert Written(HalfOf(c, f.side).stream) + Concat([]) == Written(HalfOf(c, f.side).stream);
  }

  /**
   * Reassembly, in an established connection where nothing waits: for every flow of one side whose
   * acknowledgement number is current, and every trace of its packets in any order, any of them
   * repeated and the FIN anywhere, the stream holds exactly the parts up to the point that the
   * numbers of the packets determine; and it is finished, with everything in it and nothing left
   * waiting, if and only if some packet came when all others had come, and was ahead of the stream
   * or was the FIN in its turn.
   */
  lemma {:induction false} CompletesIff(f: Flow, c: Conn, trace: seq<Packet>)
    requires Proper(f) && ReadyFor(f, c) && Parts(f, trace) && Distinct(trace)
    requires forall j :: 0 <= j < |trace| ==> trace[j].id !in c.consumed
    ensures var mine := HalfOf(ReceiveAll(c, trace), f.side).stream;
            && Written(mine) == Written(HalfOf(c, f.side).stream) + Upto(f, Reach(f, trace))
            && (mine.finished <==> exists j: nat :: j < |trace| && Completes(f, trace, j))
    ensures var c' := ReceiveAll(c, trace);
            HalfOf(c', f.side).stream.finished ==> c'.client.waiting == [] && c'.server.waiting == []
  {
    HowFar(f, c, trace);
    ReachesEndIff(f, trace);
  }

  /** The stream of a side that was sent `k` parts. */
  ghost predicate Holds(f: Flow, base: seq<byte>, c: Conn, k: nat)
    requires k <= |f.segments| + 1
  {
    && Written(HalfOf(c, f.side).stream) == base + Upto(f, k)
    && (HalfOf(c, f.side).stream.finished <==> k > |f.segments|)
    && (k > |f.segments| ==> c.client.waiting == [] && c.server.waiting == [])
  }

  lemma {:induction false} HowFar(f: Flow, c: Conn, trace: seq<Packet>)
    requires Proper(f) && ReadyFor(f, c) && Parts(f, trace) && Distinct(trace)
    requires forall j :: 0 <= j < |trace| ==> trace[j].id !in c.consumed
    ensures Holds(f, Written(HalfOf(c, f.side).stream), ReceiveAll(c, trace), Reach(f, trace))
  {
    var base := Written(HalfOf(c, f.side).stream);
    ReadyReached(f, c);
    Progress(f, base, c, trace);
    AtHolds(f, base, ReceiveAll(c, trace), Reach(f, trace));
  }

  lemma AtHolds(f: Flow, base: seq<byte>, c: Conn, k: nat)
    requires k <= |f.segments| + 1 && At(f, base, c, k)
    ensures Holds(f, base, c, k)
  {
    assert base + (Concat(f.segments) + f.last) == base + Concat(f.segments) + f.last;
  }

  ghost predicate IsSegment(f: Flow, p: Packet) {
    exists i: nat :: i < |f.segments| && Fits(f, p, i)
  }

  /** Every packet of the trace is a segment of the flow, and every segment is there. */
  ghost predicate Covers(f: Flow, trace: seq<Packet>) {
    && (forall j :: 0 <= j < |trace| ==> IsSegment(f, trace[j]))
    && (forall i: nat :: i < |f.segments| ==> Carried(f, trace, i))
  }

  /** A FIN that comes last completes the flow. */
  lemma {:induction false} FinLast(f: Flow, trace: seq<Packet>, fin: Packet)
    requires Proper(f) && Covers(f, trace) && Fits(f, fin, |f.segments|)
    ensures Parts(f, trace + [fin]) && Completes(f, trace + [fin], |trace|)
    ensures Reach(f, trace + [fin]) == |f.segments| + 1
  {
    var n, all := |f.segments|, trace + [fin];
    forall j | 0 <= j < |all| ensures IsPart(f, all[j]) {
      if j < |trace| {
        assert IsSegment(f, trace[j]);
      }
    }
    assert all[..|trace|] == trace && all[|trace|] == fin;
    StartInjective(f, Index(f, fin), n);
    assert !Carried(f, trace, n);
    ReachIsCarried(f, trace);
    assert Reach(f, trace) <= n;
    CompletesLast(f, all);
  }

  /**
   * In particular, if the trace contains each segment at least once in any order and then the FIN:
   * the stream ends finished and holds what it held before followed by the segments in their order
   * and the data of the FIN, and no packet is left waiting.
   */
  lemma {:induction false} AnyOrder(f: Flow, c: Conn, trace: seq<Packet>, fin: Packet)
    requires Proper(f) && ReadyFor(f, c) && Covers(f, trace) && Fits(f, fin, |f.segments|)
    requires Distinct(trace) && forall j :: 0 <= j < |trace| ==> trace[j].id !in c.consumed && trace[j].id != fin.id
    requires fin.id !in c.consumed
    ensures var c' := ReceiveAll(c, trace + [fin]);
            && HalfOf(c', f.side).stream.finished
            && Written(HalfOf(c', f.side).stream) == Written(HalfOf(c, f.side).stream) + Concat(f.segments) + f.last
            && c'.client.waiting == [] && c'.server.waiting == []
  {
    FinLast(f, trace, fin);
    HowFar(f, c, trace + [fin]);
    HoldsAll(f, Written(HalfOf(c, f.side).stream), ReceiveAll(c, trace + [fin]));
  }

  lemma HoldsAll(f: Flow, base: seq<byte>, c: Conn)
    requires Holds(f, base, c, |f.segments| + 1)
    ensures Written(HalfOf(c, f.side).stream) == base + Concat(f.segments) + f.last
  {
    assert base + (Concat(f.segments) + f.last) == base + Concat(f.segments) + f.last;
  }

  // ---------------------------------------------------------------- a FIN too early

  /** A FIN that comes first of all is put away. */
  lemma EarlyFin(f: Flow, base: seq<byte>, c: Conn, fin: Packet)
    requires Proper(f) && Reached(f, base, c, 0) && HalfOf(c, f.side).waiting == []
    requires |f.segments| == 1 && Fits(f, fin, 1) && !Knows(c, fin.id)
    ensures var c1 := Receive(c, fin).conn;
            && Reached(f, base, c1, 0) && HalfOf(c1, f.side).waiting == [fin]
            && (forall x: nat :: Knows(c1, x) ==> Knows(c, x) || x == fin.id)
  {
    FlowSender(f, c, fin, 1);
    ProcessableIsNext(f, base, c, 0, fin, 1);
    StoreFlow(f, base, c, 0, fin, 1);
    var c1 := Store(c, fin);
    assert HalfOf(c1, f.side).waiting == [fin];
    ProcessableIsNext(f, base, c1, 0, fin, 1);
    assert Receive(c, fin) == Drain(c1);
    NothingToDrain(f, c1, fin);
    StoreFresh(c, fin);
  }

  lemma {:induction false} NothingToDrain(f: Flow, c: Conn, fin: Packet)
    requires HalfOf(c, f.side).waiting == [fin] && HalfOf(c, Other(f.side)).waiting == []
    requires fin.id !in c.consumed && !CanProcess(c, fin) && !IsOld(c, fin)
    ensures Drain(c) == Res(c, None)
  {
    assert PickupSide(c, f.side) == Pickup(c, None, None);
    assert PickupSide(c, Other(f.side)) == Pickup(c, None, None);
  }

  /** For instance: the FIN comes before the only segment; the stream is not finished by that. */
  lemma FinTooEarly(f: Flow, c: Conn, fin: Packet, p: Packet)
    requires Proper(f) && |f.segments| == 1 && ReadyFor(f, c) && Fits(f, fin, 1) && Fits(f, p, 0)
    requires fin.id !in c.consumed && p.id !in c.consumed && p.id != fin.id
    ensures var c' := Receive(Receive(c, fin).conn, p).conn;
            !HalfOf(c', f.side).stream.finished && fin in HalfOf(c', f.side).waiting && CanProcess(c', fin)
  {
    var base := Written(HalfOf(c, f.side).stream);
    ReadyReached(f, c);
    EarlyFin(f, base, c, fin);
    LateSegment(f, base, Receive(c, fin).conn, fin, p);
  }

  lemma LateSegment(f: Flow, base: seq<byte>, c: Conn, fin: Packet, p: Packet)
    requires Proper(f) && Reached(f, base, c, 0) && HalfOf(c, f.side).waiting == [fin]
    requires |f.segments| == 1 && Fits(f, fin, 1) && Fits(f, p, 0) && !Knows(c, p.id)
    ensures var c' := Receive(c, p).conn;
            !HalfOf(c', f.side).stream.finished && fin in HalfOf(c', f.side).waiting && CanProcess(c', fin)
  {
    ProcessableIsNext(f, base, c, 0, p, 0);
    HandleSegment(f, base, c, 0, p);
    assert Receive(c, p) == Handle(c, p);
    FinWaits(f, base, Handle(c, p).conn, fin);
  }

  lemma FinWaits(f: Flow, base: seq<byte>, c: Conn, fin: Packet)
    requires Proper(f) && Reached(f, base, c, 1) && HalfOf(c, f.side).waiting == [fin]
    requires |f.segments| == 1 && Fits(f, fin, 1)
    ensures !HalfOf(c, f.side).stream.finished && fin in HalfOf(c, f.side).waiting && CanProcess(c, fin)
  {
    ProcessableIsNext(f, base, c, 1, fin, 1);
  }

  // ---------------------------------------------------------------- from the handshake to the FIN

  /** The three packets of a handshake, between these ends, with distinct identities. */
  ghost predicate Handshake(d: Detail, syn: Packet, synAck: Packet, ack: Packet) {
    && d != Reversed(d) && syn.detail == d && synAck.detail == Reversed(d) && ack.detail == d
    && IsHandshake1(syn) && syn.data == [] && syn.sequence >= 0
    && IsHandshake2(synAck) && synAck.data == [] && synAck.sequence >= 0 && synAck.ackNum == syn.sequence + 1
    && ack.ack && !ack.syn && !ack.rst && !ack.fin && ack.data == []
    && ack.sequence == syn.sequence + 1 && ack.ackNum == synAck.sequence + 1
    && syn.id != synAck.id && syn.id != ack.id && synAck.id != ack.id
  }

  /** After a handshake the connection is established and empty, one past the initial numbers. */
  lemma HandshakeEstablishes(d: Detail, syn: Packet, synAck: Packet, ack: Packet)
    requires Handshake(d, syn, synAck, ack)
    ensures var c := ReceiveAll(Open(syn), [synAck, ack]);
            && c.detail == d && c.state == Established && c.consumed == {syn.id, synAck.id, ack.id}
            && c.client == Half(syn.sequence + 1, synAck.sequence + 1, [], NOTHING)
            && c.server == Half(synAck.sequence + 1, syn.sequence + 1, [], NOTHING)
  {
    var c0 := Open(syn);
    var c1 := Receive(c0, synAck).conn;
    assert c1 == ProcessSynAck(c0, synAck).conn;
    assert c1.client == Half(syn.sequence + 1, syn.ackNum, [], NOTHING);
    assert c1.server == Half(synAck.sequence, syn.sequence + 1, [], NOTHING);
    assert Receive(c1, ack) == Handle(c1, ack);
    assert Handle(c1, ack) == ProcessAck(c1, ack);
    assert [synAck, ack][1..] == [ack] && [ack][1..] == [];
    assert ReceiveAll(c1, [ack]) == ReceiveAll(Receive(c1, ack).conn, []);
  }

  /** What the side of a flow sends first after the handshake. */
  ghost predicate StartsAfter(f: Flow, syn: Packet, synAck: Packet) {
    if f.side == Client then f.start == syn.sequence + 1 && f.ack == synAck.sequence + 1
    else f.start == synAck.sequence + 1 && f.ack == syn.sequence + 1
  }

  /**
   * A whole connection: the handshake, then all segments of one side in any order and any number
   * of times, then its FIN.  The stream of that side is finished and holds exactly what was sent.
   */
  lemma {:induction false} WholeConnection(f: Flow, syn: Packet, synAck: Packet, ack: Packet, trace: seq<Packet>, fin: Packet)
    requires Handshake(f.detail, syn, synAck, ack) && StartsAfter(f, syn, synAck)
    requires Proper(f) && Covers(f, trace) && Fits(f, fin, |f.segments|) && Distinct(trace)
    requires fin.id !in {syn.id, synAck.id, ack.id}
    requires forall j :: 0 <= j < |trace| ==> trace[j].id !in {syn.id, synAck.id, ack.id} && trace[j].id != fin.id
    ensures var c := ReceiveAll(Open(syn), [synAck, ack] + (trace + [fin]));
            && HalfOf(c, f.side).stream.finished
            && Written(HalfOf(c, f.side).stream) == Concat(f.segments) + f.last
            && c.client.waiting == [] && c.server.waiting == []
  {
    var opening := [synAck, ack];
    HandshakeReady(f, syn, synAck, ack);
    AfterOpening(f, Open(syn), opening, trace, fin);
  }

  lemma HandshakeReady(f: Flow, syn: Packet, synAck: Packet, ack: Packet)
    requires Handshake(f.detail, syn, synAck, ack) && StartsAfter(f, syn, synAck)
    ensures var c := ReceiveAll(Open(syn), [synAck, ack]);
            && ReadyFor(f, c) && c.consumed == {syn.id, synAck.id, ack.id}
            && HalfOf(c, f.side).stream == NOTHING
  {
    HandshakeEstablishes(f.detail, syn, synAck, ack);
    ReadyAfter(f, syn, synAck, ReceiveAll(Open(syn), [synAck, ack]));
  }

  /** A flow after packets that made the connection ready for it. */
  lemma {:induction false} AfterOpening(f: Flow, first: Conn, opening: seq<Packet>, trace: seq<Packet>, fin: Packet)
    requires Proper(f) && Covers(f, trace) && Fits(f, fin, |f.segments|) && Distinct(trace)
    requires var c := ReceiveAll(first, opening);
             && ReadyFor(f, c) && HalfOf(c, f.side).stream == NOTHING && fin.id !in c.consumed
             && (forall j :: 0 <= j < |trace| ==> trace[j].id !in c.consumed && trace[j].id != fin.id)
    ensures var c' := ReceiveAll(first, opening + (trace + [fin]));
            && HalfOf(c', f.side).stream.finished
            && Written(HalfOf(c', f.side).stream) == Concat(f.segments) + f.last
            && c'.client.waiting == [] && c'.server.waiting == []
  {
    AnyOrder(f, ReceiveAll(first, opening), trace, fin);
    ReceiveAllConcat(first, opening, trace + [fin]);
    assert Written(NOTHING) + Concat(f.segments) == Concat(f.segments);
  }

  lemma ReadyAfter(f: Flow, syn: Packet, synAck: Packet, c: Conn)
    requires StartsAfter(f, syn, synAck) && c.detail == f.detail && c.state == Established
    requires c.client == Half(syn.sequence + 1, synAck.sequence + 1, [], NOTHING)
    requires c.server == Half(synAck.sequence + 1, syn.sequence + 1, [], NOTHING)
    ensures ReadyFor(f, c) && HalfOf(c, f.side).stream == NOTHING
  {
  }
}
