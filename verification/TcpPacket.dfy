/** Packets, connection keys and connection states. */
module TcpPacket {
  import opened Bytes

  /** One end of a connection; `address` is the printed form of the IP address. */
  datatype Endpoint = Endpoint(address: string, port: nat)

  /** `ConnectionDetail`: for a packet, from whom (client) to whom (server). */
  datatype Detail = Detail(client: Endpoint, server: Endpoint)

  function Reversed(d: Detail): Detail {
    Detail(d.server, d.client)
  }

  /**
   * `TCPPacket`.  `id` is the identity of the packet object: the consumed flag that the program
   * sets on the object is kept, per connection, as a set of identities.
   */
  datatype Packet = Packet(
    id: nat,
    detail: Detail,
    sequence: int,
    ackNum: int,
    ack: bool,
    syn: bool,
    rst: bool,
    fin: bool,
    data: seq<byte>)

  predicate IsHandshake1(p: Packet) {
    p.syn && !p.ack
  }

  predicate IsHandshake2(p: Packet) {
    p.syn && p.ack
  }

  // ---------------------------------------------------------------- order of packets

  const TWO31: int := 0x8000_0000
  const TWO32: int := 0x1_0000_0000

  /** Java's narrowing of a long to an int. */
  function ToInt32(x: int): (r: int)
    ensures -TWO31 <= r < TWO31 && (r - x) % TWO32 == 0
    ensures -TWO31 <= x < TWO31 ==> r == x
  {
    var m := x % TWO32;
    if m >= TWO31 then m - TWO32 else m
  }

  /** `compareTo` */
  function Compare(p: Packet, q: Packet): int {
    ToInt32(p.sequence - q.sequence)
  }

  /** Inside a window below 2^31 the order of packets is the order of their sequence numbers. */
  lemma CompareInWindow(p: Packet, q: Packet)
    requires -TWO31 < p.sequence - q.sequence < TWO31
    ensures Compare(p, q) == p.sequence - q.sequence
  {
  }

  /** Outside it is not even an order: three packets, each before the next, in a circle. */
  lemma CompareNotTransitive(p: Packet, q: Packet, r: Packet)
    requires p.sequence == 0 && q.sequence == 0x6000_0000 && r.sequence == 0xC000_0000
    ensures Compare(p, q) < 0 && Compare(q, r) < 0 && Compare(r, p) < 0
  {
  }

  // ---------------------------------------------------------------- connection states

  datatype State =
    | SynSent | SynReceived | Established | FinishWait1 | CloseWait | FinishWait2
    | LastAck | Closing | TimeWait | Closed

  function Rank(s: State): real {
    match s
    case SynSent => 1.0
    case SynReceived => 2.0
    case Established => 3.0
    case FinishWait1 => 4.0
    case CloseWait => 5.0
    case FinishWait2 => 5.5
    case LastAck => 6.0
    case Closing => 4.5
    case TimeWait => 5.7
    case Closed => 7.0
  }

  // ---------------------------------------------------------------- keys

  /** Decimal digits of a port number. */
  function Decimal(n: nat): string {
    var digit := [(n % 10) as char + '0'];
    if n < 10 then digit else Decimal(n / 10) + digit
  }

  /** `String.hashCode` */
  function StringHash(s: string): int {
    if s == [] then 0 else ToInt32(31 * StringHash(s[..|s| - 1]) + s[|s| - 1] as int)
  }

  function Label(e: Endpoint): string {
    e.address + "/" + Decimal(e.port)
  }

  /** `ConnectionDetail.hashCode`; `equals` compares nothing else, so this is the whole map key. */
  function Key(d: Detail): int {
    ToInt32(StringHash(Label(d.client)) + StringHash(Label(d.server)))
  }

  /** Both directions of a connection share a key. */
  lemma KeyIgnoresDirection(d: Detail)
    ensures Key(Reversed(d)) == Key(d)
  {
    assert StringHash(Label(d.server)) + StringHash(Label(d.client))
        == StringHash(Label(d.client)) + StringHash(Label(d.server));
  }

  lemma {:induction false} HashSnoc(s: string, c: char)
    ensures StringHash(s + [c]) == ToInt32(31 * StringHash(s) + c as int)
  {
    assert (s + [c])[..|s|] == s;
  }

  lemma SumOfNarrowed(a: int, b: int)
    ensures ToInt32(ToInt32(a) + ToInt32(b)) == ToInt32(a + b)
  {
    var x, y := ToInt32(a), ToInt32(b);
    assert ((x - a) + (y - b)) % TWO32 == 0;
    assert (x + y) % TWO32 == (a + b) % TWO32;
  }

  /** The printed endpoint, cut before the last digit of its port. */
  lemma {:induction false} LabelSnoc(a: string, m: nat, k: nat)
    requires m > 0 && k < 10
    ensures Label(Endpoint(a, 10 * m + k)) == (a + "/" + Decimal(m)) + [k as char + '0']
  {
    assert (10 * m + k) / 10 == m && (10 * m + k) % 10 == k;
    assert Decimal(10 * m + k) == Decimal(m) + [k as char + '0'];
    assert a + "/" + (Decimal(m) + [k as char + '0']) == (a + "/" + Decimal(m)) + [k as char + '0'];
  }

  /** The hash of a string and one more digit. */
  function DigitHash(s: string, k: nat): int
    requires k < 10
  {
    31 * StringHash(s) + 48 + k
  }

  lemma EndpointHash(e: Endpoint, s: string, k: nat)
    requires k < 10 && Label(e) == s + [k as char + '0']
    ensures StringHash(Label(e)) == ToInt32(DigitHash(s, k))
  {
    HashSnoc(s, k as char + '0');
  }

  /** Only the sum of the two last digits reaches the key. */
  lemma KeySum(d: Detail, s: string, t: string, x: nat, y: nat)
    requires x < 10 && y < 10
    requires Label(d.client) == s + [x as char + '0'] && Label(d.server) == t + [y as char + '0']
    ensures Key(d) == ToInt32(DigitHash(s, x) + DigitHash(t, y))
  {
    EndpointHash(d.client, s, x);
    EndpointHash(d.server, t, y);
    SumOfNarrowed(DigitHash(s, x), DigitHash(t, y));
  }

  /**
   * Distinct connections may share a key: between two hosts, exchanging the last digits of the
   * two ports is never noticed.
   */
  lemma KeysCollide(a: string, b: string, m: nat, n: nat, x: nat, y: nat)
    requires m > 0 && n > 0 && x < 10 && y < 10
    ensures Key(Detail(Endpoint(a, 10 * m + x), Endpoint(b, 10 * n + y)))
         == Key(Detail(Endpoint(a, 10 * m + y), Endpoint(b, 10 * n + x)))
  {
    var u, v := a + "/" + Decimal(m), b + "/" + Decimal(n);
    LabelSnoc(a, m, x);
    LabelSnoc(a, m, y);
    LabelSnoc(b, n, x);
    LabelSnoc(b, n, y);
    KeySum(Detail(Endpoint(a, 10 * m + x), Endpoint(b, 10 * n + y)), u, v, x, y);
    KeySum(Detail(Endpoint(a, 10 * m + y), Endpoint(b, 10 * n + x)), u, v, y, x);
    assert DigitHash(u, x) + DigitHash(v, y) == DigitHash(u, y) + DigitHash(v, x);
  }
}
