/** Demultiplexing: a connection is not affected by the packets of others. */
module TcpDemux {
  import opened Bytes
  import opened TcpPacket
  import opened TcpMachine

  /** What the table holds under a key. */
  function Entry(t: Table, k: int): Option<Conn> {
    if k in t then Some(t[k]) else None
  }

  /** The packets between two endpoints, in either direction. */
  ghost function Between(trace: seq<Packet>, d: Detail): seq<Packet> {
    if trace == [] then []
    else (if trace[0].detail == d || trace[0].detail == Reversed(d) then [trace[0]] else []) + Between(trace[1..], d)
  }

  /** Packets whose key is that of the connection belong to it. */
  ghost predicate NoCollision(trace: seq<Packet>, d: Detail) {
    forall i :: 0 <= i < |trace| && Key(trace[i].detail) == Key(d) ==> trace[i].detail == d || trace[i].detail == Reversed(d)
  }

  lemma OtherKey(t: Table, p: Packet, accept: Detail -> bool, k: int)
    requires Key(p.detail) != k
    ensures Entry(Pick(t, p, accept), k) == Entry(t, k)
  {
  }

  /**
   * Which connections are followed: a first packet enters the table, replacing what was there, if
   * and only if the filter accepts it; nothing else does.
   */
  lemma FollowedIff(t: Table, p: Packet, accept: Detail -> bool)
    ensures IsHandshake1(p) && !accept(p.detail) ==> Pick(t, p, accept) == t
    ensures IsHandshake1(p) && accept(p.detail) ==> Pick(t, p, accept) == t[Key(p.detail) := Open(p)]
    ensures !IsHandshake1(p) ==> Pick(t, p, accept).Keys <= t.Keys
    ensures !IsHandshake1(p) && Key(p.detail) !in t ==> Pick(t, p, accept) == t
  {
  }

  /** A step looks only at the entry of its own key. */
  lemma SameEntry(t: Table, u: Table, p: Packet, accept: Detail -> bool)
    requires Entry(t, Key(p.detail)) == Entry(u, Key(p.detail))
    ensures Entry(Pick(t, p, accept), Key(p.detail)) == Entry(Pick(u, p, accept), Key(p.detail))
  {
  }

  /**
   * For every interleaved trace: what the table holds for a connection, its state, its buffers and
   * its streams, is what feeding only the packets between its two endpoints would have led to,
   * provided that no other pair of endpoints in the trace has the same key.
   */
  lemma {:induction false} OwnPacketsOnly(t: Table, u: Table, trace: seq<Packet>, accept: Detail -> bool, d: Detail)
    requires Entry(t, Key(d)) == Entry(u, Key(d)) && NoCollision(trace, d)
    ensures Entry(PickAll(t, trace, accept), Key(d)) == Entry(PickAll(u, Between(trace, d), accept), Key(d))
    decreases |trace|
  {
    if trace != [] {
      var p, rest := trace[0], trace[1..];
      assert NoCollision(rest, d) by {
        assert forall i :: 0 <= i < |rest| ==> rest[i] == trace[i + 1];
      }
      KeyIgnoresDirection(d);
      if p.detail == d || p.detail == Reversed(d) {
        SameEntry(t, u, p, accept);
        OwnPacketsOnly(Pick(t, p, accept), Pick(u, p, accept), rest, accept, d);
        assert ([p] + Between(rest, d))[1..] == Between(rest, d);
      } else {
        OtherKey(t, p, accept, Key(d));
        OwnPacketsOnly(Pick(t, p, accept), u, rest, accept, d);
        assert [] + Between(rest, d) == Between(rest, d);
      }
    }
  }

  /**
   * The proviso is needed, and is exact: when the handshake of another pair of endpoints is
   * accepted, the entry of a connection survives if and only if the keys differ.
   */
  lemma EntrySurvivesIff(t: Table, d: Detail, p: Packet, accept: Detail -> bool)
    requires Key(d) in t && (t[Key(d)].detail == d || t[Key(d)].detail == Reversed(d))
    requires IsHandshake1(p) && accept(p.detail) && p.detail != d && p.detail != Reversed(d)
    ensures Entry(Pick(t, p, accept), Key(d)) == Entry(t, Key(d)) <==> Key(p.detail) != Key(d)
  {
    if Key(p.detail) == Key(d) {
      assert Entry(Pick(t, p, accept), Key(d)) == Some(Open(p));
      assert Open(p).detail == p.detail;
    } else {
      OtherKey(t, p, accept, Key(d));
    }
  }

  /** And there is no shortage of such pairs: exchange the last digits of the two ports. */
  lemma CollisionEvicts(t: Table, a: string, b: string, m: nat, n: nat, x: nat, y: nat, p: Packet, accept: Detail -> bool)
    requires m > 0 && n > 0 && x < 10 && y < 10 && x != y
    requires IsHandshake1(p) && p.detail == Detail(Endpoint(a, 10 * m + y), Endpoint(b, 10 * n + x)) && accept(p.detail)
    ensures var d := Detail(Endpoint(a, 10 * m + x), Endpoint(b, 10 * n + y));
            && d != p.detail
            && Entry(Pick(t, p, accept), Key(d)) == Some(Open(p)) && Open(p).detail != d
  {
    KeysCollide(a, b, m, n, x, y);
  }
}
