/**
 * When two connections share a key: the printed port, the hash as a weighted sum, and what both mean
 * for connections between the same hosts.
 */
module TcpKeys {
  import opened Bytes
  import opened TcpPacket
  import opened TcpMachine
  import opened TcpDemux

  const DIGITS: string := "0123456789"

  // ---------------------------------------------------------------- printed numbers

  /** The characters are decimal digits that spell the number, most significant first. */
  ghost predicate Prints(s: string, n: nat)
    decreases |s|
  {
    if s == [] then n == 0
    else s[|s| - 1] == DIGITS[n % 10] && Prints(s[..|s| - 1], n / 10)
  }

  /** How many digits a number has. */
  function Places(n: nat): nat {
    if n < 10 then 1 else Places(n / 10) + 1
  }

  /** A port is printed as its decimal digits, without a leading zero. */
  lemma {:induction false} DecimalPrints(n: nat)
    ensures Prints(Decimal(n), n) && |Decimal(n)| == Places(n)
    ensures Decimal(n)[0] == '0' <==> n == 0
    decreases n
  {
    var s, c := Decimal(n), (n % 10) as char + '0';
    assert c == DIGITS[n % 10];
    if n >= 10 {
      DecimalPrints(n / 10);
      assert s[..|s| - 1] == Decimal(n / 10);
    } else {
      assert s == [c] && s[..0] == [];
    }
  }

  /** So different ports are printed differently. */
  lemma {:induction false} PrintsInjective(s: string, m: nat, n: nat)
    requires Prints(s, m) && Prints(s, n)
    ensures m == n
    decreases |s|
  {
    if s != [] {
      PrintsInjective(s[..|s| - 1], m / 10, n / 10);
      assert m % 10 == n % 10;
    }
  }

  // ---------------------------------------------------------------- the hash

  /** The characters times powers of 31, the last one times 1. */
  function Weighted(s: string): nat {
    if s == [] then 0 else 31 * Weighted(s[..|s| - 1]) + s[|s| - 1] as int
  }

  /** Equal remainders modulo 2^32, with the multiple named. */
  ghost predicate Same32(a: int, b: int) {
    exists k :: a == b + 0x1_0000_0000 * k
  }

  lemma NarrowedSame(x: int)
    ensures Same32(ToInt32(x), x)
  {
    var m := x % TWO32;
    assert x == m + TWO32 * (x / TWO32);
    if m >= TWO31 {
      assert ToInt32(x) == x + 0x1_0000_0000 * (-1 - x / TWO32);
    } else {
      assert ToInt32(x) == x + 0x1_0000_0000 * (-(x / TWO32));
    }
  }

  /** Narrowing keeps exactly the remainder. */
  lemma NarrowedEqualIff(a: int, b: int)
    ensures ToInt32(a) == ToInt32(b) <==> Same32(a, b)
  {
    NarrowedSame(a);
    NarrowedSame(b);
    var i :| ToInt32(a) == a + 0x1_0000_0000 * i;
    var j :| ToInt32(b) == b + 0x1_0000_0000 * j;
    if ToInt32(a) == ToInt32(b) {
      assert a == b + 0x1_0000_0000 * (j - i);
    }
    if Same32(a, b) {
      var k :| a == b + 0x1_0000_0000 * k;
      assert ToInt32(a) - ToInt32(b) == 0x1_0000_0000 * (k + i - j);
    }
  }

  lemma SameSum(a: int, b: int, c: int, d: int)
    requires Same32(a, b) && Same32(c, d)
    ensures Same32(a + c, b + d)
  {
    var i :| a == b + 0x1_0000_0000 * i;
    var j :| c == d + 0x1_0000_0000 * j;
    assert a + c == (b + d) + 0x1_0000_0000 * (i + j);
  }

  lemma SameTrans(a: int, b: int, c: int)
    requires Same32(a, b) && Same32(b, c)
    ensures Same32(a, c) && Same32(b, a)
  {
    var i :| a == b + 0x1_0000_0000 * i;
    var j :| b == c + 0x1_0000_0000 * j;
    assert a == c + 0x1_0000_0000 * (i + j);
    assert b == a + 0x1_0000_0000 * (-i);
  }

  lemma SameTimes(a: int, b: int, c: int)
    requires Same32(a, b)
    ensures Same32(31 * a + c, 31 * b + c)
  {
    var i :| a == b + 0x1_0000_0000 * i;
    assert 31 * a + c == (31 * b + c) + 0x1_0000_0000 * (31 * i);
  }

  /** The hash of a string is its weighted sum in 32 bits. */
  lemma {:induction false} HashIsWeighted(s: string)
    ensures Same32(StringHash(s), Weighted(s))
    decreases |s|
  {
    if s == [] {
      assert 0 == 0 + 0x1_0000_0000 * 0;
    } else {
      var front, c := s[..|s| - 1], s[|s| - 1] as int;
      HashIsWeighted(front);
      SameTimes(StringHash(front), Weighted(front), c);
      NarrowedSame(31 * StringHash(front) + c);
      SameTrans(StringHash(s), 31 * StringHash(front) + c, Weighted(s));
    }
  }

  /** The weighted sums of both ends. */
  function KeySum32(d: Detail): nat {
    Weighted(Label(d.client)) + Weighted(Label(d.server))
  }

  /** What `hashCode` adds up before it is narrowed. */
  function HashSum(d: Detail): int {
    StringHash(Label(d.client)) + StringHash(Label(d.server))
  }

  lemma HashesSum(d: Detail)
    ensures Same32(HashSum(d), KeySum32(d))
  {
    HashIsWeighted(Label(d.client));
    HashIsWeighted(Label(d.server));
    SameSum(StringHash(Label(d.client)), Weighted(Label(d.client)), StringHash(Label(d.server)), Weighted(Label(d.server)));
  }

  /** A key is the sum of the weighted sums of both ends in 32 bits. */
  lemma KeyIsWeighted(d: Detail)
    ensures Same32(Key(d), KeySum32(d)) && -0x8000_0000 <= Key(d) < 0x8000_0000
  {
    HashesSum(d);
    NarrowedSame(HashSum(d));
    SameTrans(Key(d), HashSum(d), KeySum32(d));
  }

  lemma SameForSame(x: int, y: int, u: int, v: int)
    requires Same32(x, u) && Same32(y, v)
    ensures Same32(x, y) <==> Same32(u, v)
  {
    var i :| x == u + 0x1_0000_0000 * i;
    var j :| y == v + 0x1_0000_0000 * j;
    if Same32(x, y) {
      var k :| x == y + 0x1_0000_0000 * k;
      assert u == v + 0x1_0000_0000 * (k + j - i);
    }
    if Same32(u, v) {
      var k :| u == v + 0x1_0000_0000 * k;
      assert x == y + 0x1_0000_0000 * (k + i - j);
    }
  }

  /** Two connections share a key exactly if those sums are the same in 32 bits. */
  lemma KeysEqualIff(d: Detail, e: Detail)
    ensures Key(d) == Key(e) <==> Same32(KeySum32(d), KeySum32(e))
  {
    HashesSum(d);
    HashesSum(e);
    NarrowedEqualIff(HashSum(d), HashSum(e));
    SameForSame(HashSum(d), HashSum(e), KeySum32(d), KeySum32(e));
  }

  // ---------------------------------------------------------------- between the same hosts

  /** The decimal digits of a port times powers of 31. */
  function PortSum(n: nat): nat {
    if n < 10 then n else 31 * PortSum(n / 10) + n % 10
  }

  /** What a weighted sum `w` becomes with as many zeros printed behind it. */
  function Offset(w: nat, places: nat): nat {
    if places == 0 then w else 31 * Offset(w, places - 1) + 48
  }

  lemma {:induction false} WeightedSnoc(s: string, c: char)
    ensures Weighted(s + [c]) == 31 * Weighted(s) + c as int
  {
    assert (s + [c])[..|s|] == s;
  }

  lemma {:induction false} DecimalSnoc(s: string, n: nat)
    ensures var c := (n % 10) as char + '0';
            s + Decimal(n) == (if n < 10 then s else s + Decimal(n / 10)) + [c]
  {
  }

  /** The weighted sum of a printed end falls into what stands before the port and its digits. */
  lemma {:induction false} DigitsSum(s: string, n: nat)
    ensures Weighted(s + Decimal(n)) == Offset(Weighted(s), Places(n)) + PortSum(n)
    decreases n
  {
    var c := (n % 10) as char + '0';
    DecimalSnoc(s, n);
    if n < 10 {
      WeightedSnoc(s, c);
      assert Offset(Weighted(s), 1) == 31 * Offset(Weighted(s), 0) + 48;
    } else {
      DigitsSum(s, n / 10);
      WeightedSnoc(s + Decimal(n / 10), c);
    }
  }

  lemma SameShifted(k: int, a: int, b: int)
    ensures Same32(k + a, k + b) <==> Same32(a, b)
  {
    if Same32(k + a, k + b) {
      var i :| k + a == k + b + 0x1_0000_0000 * i;
      assert a == b + 0x1_0000_0000 * i;
    }
    if Same32(a, b) {
      var i :| a == b + 0x1_0000_0000 * i;
      assert k + a == (k + b) + 0x1_0000_0000 * i;
    }
  }

  /** The part of the sum that is the same for all ports of these lengths. */
  function HostsSum(a: string, j: nat, b: string, k: nat): nat {
    Offset(Weighted(a + "/"), j) + Offset(Weighted(b + "/"), k)
  }

  lemma {:induction false} EndsSum(a: string, b: string, m: nat, n: nat)
    ensures KeySum32(Detail(Endpoint(a, m), Endpoint(b, n)))
         == HostsSum(a, Places(m), b, Places(n)) + (PortSum(m) + PortSum(n))
  {
    DigitsSum(a + "/", m);
    DigitsSum(b + "/", n);
  }

  lemma ShareIff(d: Detail, e: Detail, hosts: nat, x: nat, y: nat)
    requires KeySum32(d) == hosts + x && KeySum32(e) == hosts + y
    ensures Key(d) == Key(e) <==> Same32(x, y)
  {
    KeysEqualIff(d, e);
    SameShifted(hosts, x, y);
  }

  /** The digits of both ports of a connection. */
  function PortsSum(d: Detail): nat {
    PortSum(d.client.port) + PortSum(d.server.port)
  }

  /** The same hosts on the same sides, and ports of the same lengths. */
  predicate Alike(d: Detail, e: Detail) {
    && d.client.address == e.client.address && Places(d.client.port) == Places(e.client.port)
    && d.server.address == e.server.address && Places(d.server.port) == Places(e.server.port)
  }

  lemma HostsAlike(d: Detail, e: Detail) returns (hosts: nat)
    requires Alike(d, e)
    ensures KeySum32(d) == hosts + PortsSum(d) && KeySum32(e) == hosts + PortsSum(e)
  {
    hosts := HostsSum(d.client.address, Places(d.client.port), d.server.address, Places(d.server.port));
    EndsSum(d.client.address, d.server.address, d.client.port, d.server.port);
    EndsSum(e.client.address, e.server.address, e.client.port, e.server.port);
  }

  /**
   * Between the same two hosts, with ports of the same lengths: two connections share a key if and
   * only if the weighted sums of the digits of their ports are the same in 32 bits.
   */
  lemma SameHostsShareIff(d: Detail, e: Detail)
    requires Alike(d, e)
    ensures Key(d) == Key(e) <==> Same32(PortsSum(d), PortsSum(e))
  {
    var hosts := HostsAlike(d, e);
    ShareIff(d, e, hosts, PortsSum(d), PortsSum(e));
  }

  /** Digits of a base larger than ten determine the number. */
  lemma {:induction false} PortSumInjective(m: nat, n: nat)
    requires Places(m) == Places(n) && PortSum(m) == PortSum(n)
    ensures m == n
    decreases m
  {
    if m >= 10 {
      PortSumInjective(m / 10, n / 10);
    }
  }

  /** The sum of a port fits easily. */
  lemma {:induction false} PortSumSmall(n: nat)
    requires n < 65536
    ensures PortSum(n) < 0x100_0000
  {
    var a, b, c, d := n / 10, n / 100, n / 1000, n / 10000;
    assert a / 10 == b && b / 10 == c && c / 10 == d && d < 10;
    assert PortSum(d) < 10;
    assert PortSum(c) < 31 * 10 + 10;
    assert PortSum(b) < 31 * 320 + 10;
    assert PortSum(a) < 31 * 9930 + 10;
  }

  lemma SameSmall(a: int, b: int)
    requires 0 <= a < 0x200_0000 && 0 <= b < 0x200_0000
    ensures Same32(a, b) <==> a == b
  {
    if Same32(a, b) {
      var k :| a == b + 0x1_0000_0000 * k;
      assert k == 0;
    }
    if a == b {
      assert a == b + 0x1_0000_0000 * 0;
    }
  }

  predicate RealPorts(d: Detail) {
    d.client.port < 65536 && d.server.port < 65536
  }

  lemma PortsSumSmall(d: Detail)
    requires RealPorts(d)
    ensures PortsSum(d) < 0x200_0000
  {
    PortSumSmall(d.client.port);
    PortSumSmall(d.server.port);
  }

  /** For real ports that is equality. */
  lemma RealPortsShareIff(d: Detail, e: Detail)
    requires Alike(d, e) && RealPorts(d) && RealPorts(e)
    ensures Key(d) == Key(e) <==> PortsSum(d) == PortsSum(e)
  {
    SameHostsShareIff(d, e);
    PortsSumSmall(d);
    PortsSumSmall(e);
    SameSmall(PortsSum(d), PortsSum(e));
  }

  /**
   * Two connections of a host to one port of another, from ports of the same length, share a key
   * only if they are the same connection.
   */
  lemma ClientPortsDiffer(d: Detail, e: Detail)
    requires Alike(d, e) && RealPorts(d) && RealPorts(e) && d.server == e.server
    ensures Key(d) == Key(e) <==> d == e
  {
    RealPortsShareIff(d, e);
    if PortsSum(d) == PortsSum(e) {
      PortSumInjective(d.client.port, e.client.port);
    }
  }

  /** So a new connection of that kind leaves the entries of the others alone. */
  lemma NeighbourSurvives(t: Table, d: Detail, p: Packet, accept: Detail -> bool)
    requires Alike(d, p.detail) && RealPorts(d) && RealPorts(p.detail) && d.server == p.detail.server
    requires IsHandshake1(p) && p.detail != d
    ensures Entry(Pick(t, p, accept), Key(d)) == Entry(t, Key(d))
  {
    ClientPortsDiffer(d, p.detail);
  }
}
