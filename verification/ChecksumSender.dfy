/**
 * `in_cksum`, `in_cksum2` and the checksum steps of `set_packet`, `set_tcp` and `set_udp`, on a
 * packet buffer that is filled in place.
 */
module ChecksumSender {
  import opened Bytes
  import opened Checksum

  const MAX_PACKET_SIZE := 1600
  const IP_HEADER := 20
  const TCP_HEADER := 20
  const UDP_HEADER := 8

  lemma {:induction false} SumSnoc(s: seq<byte>, x: byte, y: byte)
    requires |s| % 2 == 0
    ensures Sum(s + [x, y]) == Sum(s) + LittleWord(x, y)
  {
    SumConcat(s, [x, y]);
    assert [x, y][2..] == [];
  }

  /** Addition in an unsigned 32-bit variable. */
  function Plus32(sum: nat, w: nat): (r: nat)
    ensures r < W32
  {
    (sum + w) % W32
  }

  lemma Plus32Wraps(x: nat, w: nat)
    ensures Plus32(x % W32, w) == (x + w) % W32
    ensures x + w < W32 ==> Plus32(x, w) == x + w
  {
    assert (x + w) - (x % W32 + w) == W32 * (x / W32);
  }

  /** The sum of the first `n` words of a stretch, the last word last. */
  ghost function Words(b: seq<byte>, start: nat, n: nat): nat
    requires start + 2 * n <= |b|
  {
    if n == 0 then 0 else Words(b, start, n - 1) + WordAt(b, start + 2 * (n - 1))
  }

  lemma {:induction false} WordsAreSum(b: seq<byte>, start: nat, n: nat)
    requires start + 2 * n <= |b|
    ensures Words(b, start, n) == Sum(b[start..start + 2 * n])
  {
    if n == 0 {
      assert b[start..start + 2 * n] == [];
    } else {
      WordsAreSum(b, start, n - 1);
      var end := start + 2 * (n - 1);
      SumSnoc(b[start..end], b[end], b[end + 1]);
      assert b[start..start + 2 * n] == b[start..end] + [b[end], b[end + 1]];
    }
  }

  /** The loop, counted in words. */
  method SumWords(buf: array<byte>, start: nat, n: nat, sum0: nat) returns (sum: nat)
    requires start + 2 * n <= buf.Length && sum0 < W32
    ensures sum == (sum0 + Words(buf[..], start, n)) % W32
  {
    sum := sum0;
    var i := 0;
    while i < n
      invariant i <= n && sum == (sum0 + Words(buf[..], start, i)) % W32
    {
      var w := LittleWord(buf[start + 2 * i], buf[start + 2 * i + 1]);
      Plus32Wraps(sum0 + Words(buf[..], start, i), w);
      sum := Plus32(sum, w);
      i := i + 1;
    }
  }

  /** The loop of both functions: adds the words of an even stretch to a 32-bit sum. */
  method AddWords(buf: array<byte>, start: nat, size: nat, sum0: nat) returns (sum: nat)
    requires size % 2 == 0 && start + size <= buf.Length && sum0 < W32
    ensures sum == (sum0 + Sum(buf[start..start + size])) % W32
  {
    sum := SumWords(buf, start, size / 2, sum0);
    WordsAreSum(buf[..], start, size / 2);
    assert buf[..][start..start + 2 * (size / 2)] == buf[start..start + size];
  }

  /** The octets `in_cksum` really sums: of an odd last octet the high half of the word is taken. */
  ghost function Summed(s: seq<byte>, beyond: byte): seq<byte> {
    if |s| % 2 == 0 then s else s[..|s| - 1] + [0, beyond]
  }

  /** The sum that `in_cksum` folds. */
  method RawSum(buf: array<byte>, start: nat, size: nat) returns (sum: nat)
    requires start + size + size % 2 <= buf.Length
    ensures sum == Sum(Summed(buf[start..start + size], if size % 2 == 0 then 0 else buf[start + size])) % W32
  {
    var even := size - size % 2;
    sum := AddWords(buf, start, even, 0);
    ghost var s := buf[start..start + size];
    assert s[..even] == buf[start..start + even];
    if size % 2 == 1 {
      SumSnoc(s[..even], 0, buf[start + size]);
      Plus32Wraps(Sum(s[..even]), LittleWord(0, buf[start + size]));
      sum := Plus32(sum, LittleWord(0, buf[start + size]));
    } else {
      assert s[..even] == s;
    }
  }

  lemma {:induction false} NoWrap(s: seq<byte>)
    requires |s| <= 131072
    ensures Sum(s) % W32 == Sum(s)
  {
    SumBound(s);
  }

  /**
   * `in_cksum` is the Internet checksum of data of odd size exactly if its last octet and the
   * octet behind it are both zero.
   */
  lemma OddSizeIsRightIff(s: seq<byte>, beyond: byte)
    requires |s| % 2 == 1 && |s| <= 131071
    ensures Complement(Sum(Summed(s, beyond))) == ChecksumOf(s) <==> s[|s| - 1] == 0 && beyond == 0
  {
    var front, last := s[..|s| - 1], s[|s| - 1];
    assert s == front + [last];
    SumConcat(front, [last]);
    SumSnoc(front, 0, beyond);
    SumBound(s);
    SumBound(Summed(s, beyond));
    OddSums(Sum(front), last, beyond);
  }

  lemma OddSums(sum: nat, last: byte, beyond: byte)
    requires sum + ONES < W32
    ensures Complement(sum + 256 * beyond) == Complement(sum + last) <==> last == 0 && beyond == 0
  {
    SameComplement(sum + 256 * beyond, sum + last);
    if Congruent(sum + 256 * beyond, sum + last) {
      var k: int :| sum + 256 * beyond == sum + last + ONES * k;
      assert k == 0;
    }
  }

  /** For instance the single octet 1, with a zero behind it: its checksum is 0xfffe, not 0xffff. */
  lemma OddSizeIsWrong()
    ensures Complement(Sum(Summed([1], 0))) == 0xffff && ChecksumOf([1]) == 0xfffe
  {
    assert Summed([1], 0) == [0, 0];
    assert Sum([0, 0]) == 0 + Sum([]);
  }

  /** `in_cksum`; for an odd size the octet behind the data is read. */
  method InCksum(buf: array<byte>, start: nat, size: nat) returns (r: nat)
    requires start + size + size % 2 <= buf.Length
    ensures r == Complement(Sum(Summed(buf[start..start + size], if size % 2 == 0 then 0 else buf[start + size])) % W32)
    ensures size % 2 == 0 && size <= 131072 ==> r == ChecksumOf(buf[start..start + size])
    ensures size % 2 == 1 && size <= 131071 ==>
              (r == ChecksumOf(buf[start..start + size]) <==> buf[start + size - 1] == 0 && buf[start + size] == 0)
  {
    var sum := RawSum(buf, start, size);
    r := Complement(sum);
    ghost var s := buf[start..start + size];
    if size % 2 == 0 && size <= 131072 {
      NoWrap(s);
    } else if size % 2 == 1 && size <= 131071 {
      NoWrap(Summed(s, buf[start + size]));
      OddSizeIsRightIff(s, buf[start + size]);
    }
  }

  /** The pseudo header of TCP and UDP: addresses, zero, protocol, length in network order. */
  ghost function PseudoHeader(addresses: seq<byte>, protocol: byte, length: nat): seq<byte>
    requires |addresses| == 8 && length < W16
  {
    addresses + [0, protocol] + [length / 256, length % 256]
  }

  /** `htons` on a little-endian machine */
  function Htons(x: nat): (r: nat)
    requires x < W16
    ensures r < W16
  {
    Swap(x)
  }

  lemma {:induction false} PseudoSum(addresses: seq<byte>, protocol: byte, length: nat)
    requires |addresses| == 8 && length < W16
    ensures Sum(PseudoHeader(addresses, protocol, length)) == Sum(addresses) + Htons(protocol) + Htons(length)
  {
    SumTwoWords(addresses, 0, protocol, length / 256, length % 256);
    HtonsSwaps(protocol);
    HtonsSwaps(length);
  }

  lemma {:induction false} SumTwoWords(s: seq<byte>, x: byte, y: byte, u: byte, v: byte)
    requires |s| % 2 == 0
    ensures Sum(s + [x, y] + [u, v]) == Sum(s) + LittleWord(x, y) + LittleWord(u, v)
  {
    SumThree(s, [x, y], [u, v]);
    assert Sum([x, y]) == LittleWord(x, y) && Sum([u, v]) == LittleWord(u, v);
  }

  lemma {:induction false} SumThree(s: seq<byte>, t: seq<byte>, u: seq<byte>)
    requires |s| % 2 == 0 && |t| == 2
    ensures Sum(s + t + u) == Sum(s) + Sum(t) + Sum(u)
  {
    SumConcat(s, t);
    SumConcat(s + t, u);
  }

  lemma HtonsSwaps(x: nat)
    requires x < W16
    ensures Htons(x) == LittleWord(x / 256, x % 256)
  {
  }

  /** `in_cksum2`: `len` comes in network order, as the callers pass it. */
  method InCksum2(buf: array<byte>, ip: nat, len: nat, start: nat, size: nat) returns (r: nat)
    requires ip + IP_HEADER <= buf.Length && start + size <= buf.Length && size <= 131000 && len < W16
    ensures r == ChecksumOf(PseudoHeader(buf[ip + 12..ip + 20], buf[ip + 9], Htons(len)) + buf[start..start + size])
  {
    var sum := PseudoHeaderSum(buf, ip, len);
    sum := AddSegment(buf, start, size, sum);
    r := Complement(sum);
    WholeSum(PseudoHeader(buf[ip + 12..ip + 20], buf[ip + 9], Htons(len)), buf[start..start + size]);
  }

  lemma {:induction false} WholeSum(pseudo: seq<byte>, s: seq<byte>)
    requires |pseudo| == 12 && |s| <= 131000
    ensures (Sum(pseudo) + Sum(s)) % W32 == Sum(pseudo + s)
  {
    SumConcat(pseudo, s);
    NoWrap(pseudo + s);
  }

  method PseudoHeaderSum(buf: array<byte>, ip: nat, len: nat) returns (sum: nat)
    requires ip + IP_HEADER <= buf.Length && len < W16
    ensures sum == Sum(PseudoHeader(buf[ip + 12..ip + 20], buf[ip + 9], Htons(len))) < W32
  {
    sum := AddWords(buf, ip + 12, 8, 0);
    PseudoWraps(buf[ip + 12..ip + 20], buf[ip + 9], len);
    sum := Plus32(sum, Htons(buf[ip + 9]));
    sum := Plus32(sum, len);
  }

  lemma {:induction false} PseudoWraps(addresses: seq<byte>, protocol: byte, len: nat)
    requires |addresses| == 8 && len < W16
    ensures Plus32(Plus32((0 + Sum(addresses)) % W32, Htons(protocol)), len)
         == Sum(PseudoHeader(addresses, protocol, Htons(len)))
  {
    HtonsTwice(len);
    PseudoSum(addresses, protocol, Htons(len));
    SumBound(addresses);
    ThreeTerms(Sum(addresses), Htons(protocol), len);
  }

  lemma ThreeTerms(a: nat, b: nat, c: nat)
    requires a + b + c < W32
    ensures Plus32(Plus32((0 + a) % W32, b), c) == a + b + c
  {
    Plus32Wraps(a, b);
    Plus32Wraps(a + b, c);
  }

  lemma HtonsTwice(x: nat)
    requires x < W16
    ensures Htons(Htons(x)) == x
  {
    var lo, hi := x % 256, x / 256;
    assert x == LittleWord(lo, hi);
    HtonsOfWord(lo, hi);
    HtonsOfWord(hi, lo);
  }

  lemma HtonsOfWord(x: byte, y: byte)
    ensures Htons(LittleWord(x, y)) == LittleWord(y, x)
  {
  }

  method AddSegment(buf: array<byte>, start: nat, size: nat, sum0: nat) returns (sum: nat)
    requires start + size <= buf.Length && sum0 < W32
    ensures sum == (sum0 + Sum(buf[start..start + size])) % W32
  {
    var even := size - size % 2;
    sum := AddWords(buf, start, even, sum0);
    ghost var s := buf[start..start + size];
    assert s[..even] == buf[start..start + even];
    if size % 2 == 1 {
      assert s == s[..even] + [buf[start + even]];
      SumConcat(s[..even], [buf[start + even]]);
      Plus32Wraps(sum0 + Sum(s[..even]), buf[start + even]);
      sum := Plus32(sum, buf[start + even]);
    } else {
      assert s[..even] == s;
    }
  }

  // ---------------------------------------------------------------- filling a packet

  method StoreWord(buf: array<byte>, pos: nat, w: nat)
    requires pos + 2 <= buf.Length && w < W16
    modifies buf
    ensures buf[..] == PutWord(old(buf[..]), pos, w)
  {
    buf[pos] := w % 256;
    buf[pos + 1] := w / 256;
  }

  /** A header and the payload behind it. */
  method Fill(buf: array<byte>, pos: nat, header: seq<byte>, data: seq<byte>)
    requires pos + |header| + |data| <= buf.Length
    modifies buf
    ensures forall i :: 0 <= i < |header| ==> buf[pos + i] == header[i]
    ensures forall i :: 0 <= i < |data| ==> buf[pos + |header| + i] == data[i]
    ensures forall i :: 0 <= i < buf.Length && !(pos <= i < pos + |header| + |data|) ==> buf[i] == old(buf[i])
  {
    forall i | 0 <= i < |header| {
      buf[pos + i] := header[i];
    }
    forall i | 0 <= i < |data| {
      buf[pos + |header| + i] := data[i];
    }
  }

  /** A word stored inside a stretch of the buffer is stored in that stretch and nowhere else. */
  lemma PutWordSlice(s: seq<byte>, lo: nat, hi: nat, at: nat, w: nat)
    requires lo + at + 2 <= hi <= |s| && w < W16
    ensures PutWord(s, lo + at, w)[lo..hi] == PutWord(s[lo..hi], at, w)
    ensures PutWord(s, lo + at, w)[..lo] == s[..lo] && PutWord(s, lo + at, w)[hi..] == s[hi..]
  {
  }

  /** The IPv4 step of `set_packet`: whatever the field held, the header verifies afterwards. */
  method SetIpChecksum(buf: array<byte>, ip: nat)
    requires ip + IP_HEADER <= buf.Length
    modifies buf
    ensures ChecksumOf(buf[ip..ip + IP_HEADER]) == 0
    ensures forall i :: 0 <= i < buf.Length && i != ip + 10 && i != ip + 11 ==> buf[i] == old(buf[i])
  {
    ghost var was := buf[..];
    ghost var header := was[ip..ip + IP_HEADER];
    StoreWord(buf, ip + 10, 0);
    PutWordSlice(was, ip, ip + IP_HEADER, 10, 0);
    ghost var zeroed := buf[..];
    assert buf[ip..ip + IP_HEADER] == zeroed[ip..ip + IP_HEADER] == PutWord(header, 10, 0);
    var c := InCksum(buf, ip, IP_HEADER);
    StoreWord(buf, ip + 10, c);
    PutWordSlice(zeroed, ip, ip + IP_HEADER, 10, c);
    assert buf[ip..ip + IP_HEADER] == buf[..][ip..ip + IP_HEADER];
    StoredChecksumVerifies(header, 10);
  }

  /** What a receiver of a segment of that size sums: pseudo header and segment. */
  ghost function Received(buf: seq<byte>, ip: nat, start: nat, size: nat): seq<byte>
    requires ip + IP_HEADER <= start && start + size <= |buf| && size < W16
  {
    PseudoHeader(buf[ip + 12..ip + 20], buf[ip + 9], size) + buf[start..start + size]
  }

  /** A word inside the segment, seen by the receiver. */
  lemma PutInSegment(buf: seq<byte>, ip: nat, start: nat, size: nat, at: nat, w: nat)
    requires ip + IP_HEADER <= start && start + size <= |buf| && size < W16 && at + 2 <= size && w < W16
    ensures Received(PutWord(buf, start + at, w), ip, start, size) == PutWord(Received(buf, ip, start, size), 12 + at, w)
  {
    var t := PutWord(buf, start + at, w);
    PutWordSlice(buf, start, start + size, at, w);
    assert t[ip + 12..ip + 20] == buf[ip + 12..ip + 20] && t[ip + 9] == buf[ip + 9];
    var pseudo := PseudoHeader(buf[ip + 12..ip + 20], buf[ip + 9], size);
    assert |pseudo| == 12;
    assert pseudo + PutWord(buf[start..start + size], at, w) == PutWord(pseudo + buf[start..start + size], 12 + at, w);
  }

  /** Zeroes the field, sums pseudo header and segment, stores the result; zero may be replaced. */
  method StoreChecksum(buf: array<byte>, ip: nat, start: nat, size: nat, at: nat, replaceZero: bool)
    requires ip + IP_HEADER <= start && start + size <= buf.Length && at + 2 <= size <= MAX_PACKET_SIZE && at % 2 == 0
    modifies buf
    ensures ChecksumOf(Received(buf[..], ip, start, size)) == 0
    ensures replaceZero ==> WordAt(buf[..], start + at) != 0
    ensures forall i :: 0 <= i < buf.Length && i != start + at && i != start + at + 1 ==> buf[i] == old(buf[i])
  {
    ghost var was := buf[..];
    StoreWord(buf, start + at, 0);
    var c := ReceiverChecksum(buf, ip, start, size);
    SegmentVerifies(was, buf[..], ip, start, size, at, c);
    if replaceZero && c == 0 {
      c := ONES;
    }
    StoreWord(buf, start + at, c);
  }

  /** A segment with a zeroed field verifies with its checksum, and with all ones for a zero. */
  lemma SegmentVerifies(was: seq<byte>, zeroed: seq<byte>, ip: nat, start: nat, size: nat, at: nat, c: nat)
    requires ip + IP_HEADER <= start && start + size <= |was| && at + 2 <= size <= MAX_PACKET_SIZE && at % 2 == 0
    requires zeroed == PutWord(was, start + at, 0) && c == ChecksumOf(Received(zeroed, ip, start, size))
    ensures ChecksumOf(Received(PutWord(zeroed, start + at, c), ip, start, size)) == 0
    ensures c == 0 ==> ChecksumOf(Received(PutWord(zeroed, start + at, ONES), ip, start, size)) == 0
  {
    PutInSegment(was, ip, start, size, at, 0);
    StoredChecksumVerifies(Received(was, ip, start, size), 12 + at);
    PutInSegment(zeroed, ip, start, size, at, c);
    PutInSegment(zeroed, ip, start, size, at, ONES);
  }

  method ReceiverChecksum(buf: array<byte>, ip: nat, start: nat, size: nat) returns (c: nat)
    requires ip + IP_HEADER <= start && start + size <= buf.Length && size <= MAX_PACKET_SIZE
    ensures c == ChecksumOf(Received(buf[..], ip, start, size)) < W16
  {
    HtonsTwice(size);
    c := InCksum2(buf, ip, Htons(size), start, size);
    assert buf[..][ip + 12..ip + 20] == buf[ip + 12..ip + 20] && buf[..][start..start + size] == buf[start..start + size];
  }

  // ---------------------------------------------------------------- the transport layer

  /** What stands behind the IP header: an encoded TCP header, or the two ports of a UDP header. */
  datatype Transport = Tcp(header: seq<byte>) | Udp(ports: seq<byte>)

  predicate Encoded(t: Transport) {
    match t
    case Tcp(header) => |header| == TCP_HEADER
    case Udp(ports) => |ports| == 4
  }

  function HeaderSize(t: Transport): nat {
    if t.Tcp? then TCP_HEADER else UDP_HEADER
  }

  function Protocol(t: Transport): byte {
    if t.Tcp? then 6 else 17
  }

  /** How much of a payload is put into the packet. */
  function Kept(t: Transport, n: nat): nat {
    Min(n, MAX_PACKET_SIZE - IP_HEADER - HeaderSize(t))
  }

  /**
   * `set_tcp`: header fields and payload, clamped to the packet size, and the checksum.  The other
   * header fields come encoded in `header`.
   */
  method SetTcp(buf: array<byte>, ip: nat, header: seq<byte>, data: seq<byte>) returns (length: nat)
    requires |header| == TCP_HEADER && ip + IP_HEADER + TCP_HEADER + Kept(Tcp(header), |data|) <= buf.Length
    modifies buf
    ensures length == Kept(Tcp(header), |data|) == if |data| <= 1560 then |data| else 1560
    ensures ChecksumOf(Received(buf[..], ip, ip + IP_HEADER, TCP_HEADER + length)) == 0
    ensures forall i :: 0 <= i < TCP_HEADER && i != 16 && i != 17 ==> buf[ip + IP_HEADER + i] == header[i]
    ensures forall i :: 0 <= i < length ==> buf[ip + IP_HEADER + TCP_HEADER + i] == data[i]
    ensures forall i :: 0 <= i < buf.Length && !(ip + IP_HEADER <= i < ip + IP_HEADER + TCP_HEADER + length) ==> buf[i] == old(buf[i])
  {
    length := |data|;
    if length + IP_HEADER + TCP_HEADER > MAX_PACKET_SIZE {
      length := MAX_PACKET_SIZE - IP_HEADER - TCP_HEADER;
    }
    Fill(buf, ip + IP_HEADER, header, data[..length]);
    StoreChecksum(buf, ip, ip + IP_HEADER, TCP_HEADER + length, 16, false);
  }

  /** The UDP header, its checksum still zero, and the payload. */
  method FillUdp(buf: array<byte>, start: nat, ports: seq<byte>, data: seq<byte>)
    requires |ports| == 4 && start + UDP_HEADER + |data| <= buf.Length && UDP_HEADER + |data| < W16
    modifies buf
    ensures forall i :: 0 <= i < 4 ==> buf[start + i] == ports[i]
    ensures BigWord(buf[start + 4], buf[start + 5]) == UDP_HEADER + |data|
    ensures forall i :: 0 <= i < |data| ==> buf[start + UDP_HEADER + i] == data[i]
    ensures forall i :: 0 <= i < buf.Length && !(start <= i < start + UDP_HEADER + |data|) ==> buf[i] == old(buf[i])
  {
    var n := UDP_HEADER + |data|;
    var header := ports + [n / 256, n % 256, 0, 0];
    Fill(buf, start, header, data);
    assert forall i :: 0 <= i < 4 ==> buf[start + i] == header[i] == ports[i];
    assert buf[start + 4] == header[4] && buf[start + 5] == header[5];
  }

  /** `set_udp`: ports, length, payload and checksum, where a zero checksum is sent as 0xffff. */
  method SetUdp(buf: array<byte>, ip: nat, ports: seq<byte>, data: seq<byte>) returns (length: nat)
    requires |ports| == 4 && ip + IP_HEADER + UDP_HEADER + Kept(Udp(ports), |data|) <= buf.Length
    modifies buf
    ensures length == Kept(Udp(ports), |data|) == if |data| <= 1572 then |data| else 1572
    ensures ChecksumOf(Received(buf[..], ip, ip + IP_HEADER, UDP_HEADER + length)) == 0
    ensures WordAt(buf[..], ip + IP_HEADER + 6) != 0
    ensures forall i :: 0 <= i < 4 ==> buf[ip + IP_HEADER + i] == ports[i]
    ensures BigWord(buf[ip + IP_HEADER + 4], buf[ip + IP_HEADER + 5]) == UDP_HEADER + length
    ensures forall i :: 0 <= i < length ==> buf[ip + IP_HEADER + UDP_HEADER + i] == data[i]
    ensures forall i :: 0 <= i < buf.Length && !(ip + IP_HEADER <= i < ip + IP_HEADER + UDP_HEADER + length) ==> buf[i] == old(buf[i])
  {
    length := |data|;
    if length + IP_HEADER + UDP_HEADER > MAX_PACKET_SIZE {
      length := MAX_PACKET_SIZE - IP_HEADER - UDP_HEADER;
    }
    FillUdp(buf, ip + IP_HEADER, ports, data[..length]);
    StoreChecksum(buf, ip, ip + IP_HEADER, UDP_HEADER + length, 6, true);
  }

  // ---------------------------------------------------------------- a whole packet

  /** The transport header and the payload are in place. */
  ghost predicate Carries(buf: seq<byte>, at: nat, t: Transport, data: seq<byte>)
    requires Encoded(t) && at + HeaderSize(t) + Kept(t, |data|) <= |buf|
  {
    && (match t
        case Tcp(header) => forall i :: 0 <= i < TCP_HEADER && i != 16 && i != 17 ==> buf[at + i] == header[i]
        case Udp(ports) =>
          && (forall i :: 0 <= i < 4 ==> buf[at + i] == ports[i])
          && BigWord(buf[at + 4], buf[at + 5]) == UDP_HEADER + Kept(t, |data|)
          && WordAt(buf, at + 6) != 0)
    && (forall i :: 0 <= i < Kept(t, |data|) ==> buf[at + HeaderSize(t) + i] == data[i])
  }

  method SetTransport(buf: array<byte>, ip: nat, t: Transport, data: seq<byte>)
    requires Encoded(t) && ip + IP_HEADER + HeaderSize(t) + Kept(t, |data|) <= buf.Length
    modifies buf
    ensures ChecksumOf(Received(buf[..], ip, ip + IP_HEADER, HeaderSize(t) + Kept(t, |data|))) == 0
    ensures Carries(buf[..], ip + IP_HEADER, t, data)
    ensures forall i :: 0 <= i < buf.Length && !(ip + IP_HEADER <= i < ip + IP_HEADER + HeaderSize(t) + Kept(t, |data|)) ==>
              buf[i] == old(buf[i])
  {
    match t {
      case Tcp(header) => var _ := SetTcp(buf, ip, header, data);
      case Udp(ports) => var _ := SetUdp(buf, ip, ports, data);
    }
  }

  /** The length field of the IP header. */
  function IpLength(buf: seq<byte>, ip: nat): nat
    requires ip + IP_HEADER <= |buf|
  {
    BigWord(buf[ip + 2], buf[ip + 3])
  }

  /**
   * `set_packet` takes the IP length from the data as it was, before `set_tcp` or `set_udp` cuts
   * it: both mean the same segment exactly if nothing was cut off, or the difference is lost in the
   * 16 bits of the field.
   */
  ghost predicate LengthsAgree(t: Transport, n: nat) {
    n <= MAX_PACKET_SIZE - IP_HEADER - HeaderSize(t) || n % W16 == MAX_PACKET_SIZE - IP_HEADER - HeaderSize(t)
  }

  lemma LengthsAgreeIff(t: Transport, n: nat)
    ensures (IP_HEADER + HeaderSize(t) + n) % W16 == IP_HEADER + HeaderSize(t) + Kept(t, n) <==> LengthsAgree(t, n)
  {
    var k := IP_HEADER + HeaderSize(t);
    if n > MAX_PACKET_SIZE - k {
      CutAgrees(k, n);
    }
  }

  lemma CutAgrees(k: nat, n: nat)
    requires k <= MAX_PACKET_SIZE < k + n
    ensures (k + n) % W16 == MAX_PACKET_SIZE <==> n % W16 == MAX_PACKET_SIZE - k
  {
  }

  /** For instance a TCP payload of 1561 octets: 1580 octets of segment are summed, 1581 are announced. */
  lemma PayloadCutByOne(header: seq<byte>)
    ensures var t := Tcp(header);
            (IP_HEADER + HeaderSize(t) + 1561) % W16 == IP_HEADER + 1581 && HeaderSize(t) + Kept(t, 1561) == 1580
  {
  }

  /** Neither a word in front of the addresses nor the checksum of the header matters to the segment. */
  lemma SameReceived(a: seq<byte>, b: seq<byte>, ip: nat, size: nat)
    requires |a| == |b| && ip + IP_HEADER + size <= |a| && size < W16
    requires forall i :: ip <= i < |a| && i !in {ip + 2, ip + 3, ip + 10, ip + 11} ==> a[i] == b[i]
    ensures Received(a, ip, ip + IP_HEADER, size) == Received(b, ip, ip + IP_HEADER, size)
  {
    assert a[ip + 12..ip + 20] == b[ip + 12..ip + 20];
    assert a[ip + IP_HEADER..ip + IP_HEADER + size] == b[ip + IP_HEADER..ip + IP_HEADER + size];
  }

  /** What `set_packet` promises of the packet behind the link header. */
  ghost predicate Complete(buf: seq<byte>, ip: nat, header: seq<byte>, t: Transport, data: seq<byte>)
    requires |header| == IP_HEADER && Encoded(t) && ip + IP_HEADER + HeaderSize(t) + Kept(t, |data|) <= |buf|
  {
    && (forall i :: 0 <= i < IP_HEADER && i !in {2, 3, 9, 10, 11} ==> buf[ip + i] == header[i])
    && buf[ip + 9] == Protocol(t)
    && IpLength(buf, ip) == (IP_HEADER + HeaderSize(t) + |data|) % W16
    && ChecksumOf(buf[ip..ip + IP_HEADER]) == 0
    && ChecksumOf(Received(buf, ip, ip + IP_HEADER, HeaderSize(t) + Kept(t, |data|))) == 0
    && Carries(buf, ip + IP_HEADER, t, data)
  }

  /** Link header and IP header, with protocol and length, the length still as the machine stores it. */
  method FillHeaders(buf: array<byte>, link: seq<byte>, header: seq<byte>, protocol: byte, total: nat)
    requires |header| == IP_HEADER && |link| + IP_HEADER <= buf.Length && total < W16
    modifies buf
    ensures buf[..|link|] == link
    ensures forall i :: 0 <= i < IP_HEADER && i !in {2, 3, 9} ==> buf[|link| + i] == header[i]
    ensures buf[|link| + 9] == protocol && LittleWord(buf[|link| + 2], buf[|link| + 3]) == total
    ensures forall i :: |link| + IP_HEADER <= i < buf.Length ==> buf[i] == old(buf[i])
  {
    Fill(buf, 0, link, header);
    buf[|link| + 9] := protocol;
    buf[|link| + 2] := total % 256;
    buf[|link| + 3] := total / 256;
  }

  /** The last step: the length into network order, and the checksum of the header. */
  method FinishHeader(buf: array<byte>, ip: nat)
    requires ip + IP_HEADER <= buf.Length
    modifies buf
    ensures BigWord(buf[ip + 2], buf[ip + 3]) == old(LittleWord(buf[ip + 2], buf[ip + 3]))
    ensures ChecksumOf(buf[ip..ip + IP_HEADER]) == 0
    ensures forall i :: 0 <= i < buf.Length && i !in {ip + 2, ip + 3, ip + 10, ip + 11} ==> buf[i] == old(buf[i])
  {
    SwapWord(buf, ip + 2);
    SetIpChecksum(buf, ip);
  }

  /** `x = htons(x)` on a word of the buffer */
  method SwapWord(buf: array<byte>, pos: nat)
    requires pos + 2 <= buf.Length
    modifies buf
    ensures buf[pos] == old(buf[pos + 1]) && buf[pos + 1] == old(buf[pos])
    ensures forall i :: 0 <= i < buf.Length && i != pos && i != pos + 1 ==> buf[i] == old(buf[i])
  {
    var x, y := buf[pos], buf[pos + 1];
    HtonsOctets(x, y);
    var w := Htons(LittleWord(x, y));
    buf[pos], buf[pos + 1] := w % 256, w / 256;
  }

  lemma HtonsOctets(x: byte, y: byte)
    ensures Htons(LittleWord(x, y)) % 256 == y && Htons(LittleWord(x, y)) / 256 == x
  {
    HtonsOfWord(x, y);
  }

  /** Everything is in place but the byte order of the length and the checksum of the IP header. */
  ghost predicate Prepared(buf: seq<byte>, ip: nat, header: seq<byte>, t: Transport, data: seq<byte>)
    requires |header| == IP_HEADER && Encoded(t) && ip + IP_HEADER + HeaderSize(t) + Kept(t, |data|) <= |buf|
  {
    && (forall i :: 0 <= i < IP_HEADER && i !in {2, 3, 9} ==> buf[ip + i] == header[i])
    && buf[ip + 9] == Protocol(t)
    && LittleWord(buf[ip + 2], buf[ip + 3]) == (IP_HEADER + HeaderSize(t) + |data|) % W16
    && ChecksumOf(Received(buf, ip, ip + IP_HEADER, HeaderSize(t) + Kept(t, |data|))) == 0
    && Carries(buf, ip + IP_HEADER, t, data)
  }

  method Prepare(buf: array<byte>, link: seq<byte>, header: seq<byte>, t: Transport, data: seq<byte>)
    requires |header| == IP_HEADER && Encoded(t)
    requires |link| + IP_HEADER + HeaderSize(t) + Kept(t, |data|) <= buf.Length
    modifies buf
    ensures buf[..|link|] == link && Prepared(buf[..], |link|, header, t, data)
    ensures forall i :: |link| + IP_HEADER + HeaderSize(t) + Kept(t, |data|) <= i < buf.Length ==> buf[i] == old(buf[i])
  {
    FillHeaders(buf, link, header, Protocol(t), (IP_HEADER + HeaderSize(t) + |data|) % W16);
    ghost var filled := buf[..];
    SetTransport(buf, |link|, t, data);
    SamePrefix(filled, buf[..], |link|);
    assert buf[..|link|] == filled[..|link|];
  }

  /**
   * `set_packet` for TCP and UDP over IPv4, with the link header, if any, and the other fields of the
   * IP header encoded: both checksums verify together, and the segment that the IP length announces
   * is the one that was summed exactly under the condition on the lengths.
   */
  method SetPacket(buf: array<byte>, link: seq<byte>, header: seq<byte>, t: Transport, data: seq<byte>) returns (length: nat)
    requires |header| == IP_HEADER && Encoded(t)
    requires |link| + IP_HEADER + HeaderSize(t) + Kept(t, |data|) <= buf.Length
    modifies buf
    ensures length == |link| + IP_HEADER + HeaderSize(t) + |data| == |link| + (if t.Tcp? then 40 else 28) + |data|
    ensures buf[|link| + 9] == if t.Tcp? then 6 else 17
    ensures buf[..|link|] == link && Complete(buf[..], |link|, header, t, data)
    ensures IpLength(buf[..], |link|) - IP_HEADER == HeaderSize(t) + Kept(t, |data|) <==> LengthsAgree(t, |data|)
    ensures forall i :: |link| + IP_HEADER + HeaderSize(t) + Kept(t, |data|) <= i < buf.Length ==> buf[i] == old(buf[i])
  {
    Prepare(buf, link, header, t, data);
    ghost var prepared := buf[..];
    FinishHeader(buf, |link|);
    assert buf[|link|..|link| + IP_HEADER] == buf[..][|link|..|link| + IP_HEADER];
    HeaderFinished(prepared, buf[..], |link|, header, t, data);
    SamePrefix(prepared, buf[..], |link|);
    assert buf[..|link|] == buf[..][..|link|];
    LengthsAgreeIff(t, |data|);
    length := |link| + IP_HEADER + HeaderSize(t) + |data|;
  }

  /** The last step completes the packet. */
  lemma HeaderFinished(a: seq<byte>, b: seq<byte>, ip: nat, header: seq<byte>, t: Transport, data: seq<byte>)
    requires |header| == IP_HEADER && Encoded(t) && ip + IP_HEADER + HeaderSize(t) + Kept(t, |data|) <= |a| == |b|
    requires Prepared(a, ip, header, t, data)
    requires forall i :: 0 <= i < |a| && i !in {ip + 2, ip + 3, ip + 10, ip + 11} ==> b[i] == a[i]
    requires BigWord(b[ip + 2], b[ip + 3]) == LittleWord(a[ip + 2], a[ip + 3]) && ChecksumOf(b[ip..ip + IP_HEADER]) == 0
    ensures Complete(b, ip, header, t, data)
  {
    SameReceived(a, b, ip, HeaderSize(t) + Kept(t, |data|));
    SameCarried(a, b, ip + IP_HEADER, t, data);
  }

  lemma SameCarried(a: seq<byte>, b: seq<byte>, at: nat, t: Transport, data: seq<byte>)
    requires Encoded(t) && at + HeaderSize(t) + Kept(t, |data|) <= |a| == |b|
    requires forall i :: at <= i < |a| ==> a[i] == b[i]
    requires Carries(a, at, t, data)
    ensures Carries(b, at, t, data)
  {
    if t.Udp? {
      assert WordAt(a, at + 6) == WordAt(b, at + 6);
    }
  }

  // ---------------------------------------------------------------- sending

  /**
   * The clamp leaves the link header out: what `set_packet` writes stays inside a buffer of the
   * packet size exactly if there is no link header or nothing had to be cut for it.
   */
  lemma FitsIff(link: nat, t: Transport, n: nat)
    ensures link + IP_HEADER + HeaderSize(t) + Kept(t, n) <= MAX_PACKET_SIZE
            <==> link == 0 || link + IP_HEADER + HeaderSize(t) + n <= MAX_PACKET_SIZE
  {
  }

  /** For instance a TCP payload of 1547 octets behind an Ethernet header of 14. */
  lemma LinkHeaderLeftOut(header: seq<byte>)
    ensures var t := Tcp(header);
            Kept(t, 1547) == 1547 && 14 + IP_HEADER + HeaderSize(t) + Kept(t, 1547) == MAX_PACKET_SIZE + 1
  {
  }

  const MIN_FRAME := 60

  /**
   * `nativeSendPacket`, for packets that fit its buffer: the frame that goes out holds the whole
   * payload, both checksums verify on it, the IP length is that of the packet, and a short frame is
   * filled up with zeros.
   */
  method SendPacket(link: seq<byte>, header: seq<byte>, t: Transport, data: seq<byte>) returns (frame: seq<byte>)
    requires |header| == IP_HEADER && Encoded(t)
    requires |link| + IP_HEADER + HeaderSize(t) + |data| <= MAX_PACKET_SIZE
    ensures var end := |link| + IP_HEADER + HeaderSize(t) + |data|;
            && end == |link| + (if t.Tcp? then 40 else 28) + |data|
            && |frame| == (if end < 60 then 60 else end)
            && frame[|link| + 9] == (if t.Tcp? then 6 else 17)
            && frame[..|link|] == link && Complete(frame, |link|, header, t, data)
            && |link| + IpLength(frame, |link|) == end
            && frame[end - |data|..end] == data
            && forall i :: end <= i < |frame| ==> frame[i] == 0
  {
    var buf := new byte[MAX_PACKET_SIZE];
    var length := SetPacket(buf, link, header, t, data);
    ghost var packet := buf[..];
    frame := Padded(buf, length);
    SentWhole(packet, frame, link, header, t, data);
  }

  lemma SentWhole(packet: seq<byte>, frame: seq<byte>, link: seq<byte>, header: seq<byte>, t: Transport, data: seq<byte>)
    requires |header| == IP_HEADER && Encoded(t)
    requires var end := |link| + IP_HEADER + HeaderSize(t) + |data|;
             end <= MAX_PACKET_SIZE && end <= |packet| && end <= |frame| && forall i :: 0 <= i < end ==> packet[i] == frame[i]
    requires packet[..|link|] == link && Complete(packet, |link|, header, t, data)
    ensures var end := |link| + IP_HEADER + HeaderSize(t) + |data|;
            && frame[..|link|] == link && Complete(frame, |link|, header, t, data)
            && frame[|link| + 9] == (if t.Tcp? then 6 else 17)
            && |link| + IpLength(frame, |link|) == end && frame[end - |data|..end] == data
  {
    SameComplete(packet, frame, header, |link|, t, data);
    WholePayload(frame, header, |link|, t, data);
    SamePrefix(packet, frame, |link|);
  }

  lemma SamePrefix(a: seq<byte>, b: seq<byte>, n: nat)
    requires n <= |a| && n <= |b| && forall i :: 0 <= i < n ==> a[i] == b[i]
    ensures a[..n] == b[..n]
  {
  }

  /** A short frame is filled up with zeros. */
  method Padded(buf: array<byte>, length: nat) returns (frame: seq<byte>)
    requires MIN_FRAME < buf.Length && length <= buf.Length
    modifies buf
    ensures |frame| == if length < MIN_FRAME then MIN_FRAME else length
    ensures forall i :: 0 <= i < length ==> frame[i] == old(buf[i])
    ensures forall i :: length <= i < |frame| ==> frame[i] == 0
  {
    var n := length;
    if n < MIN_FRAME {
      forall i | length <= i <= MIN_FRAME {
        buf[i] := 0;
      }
      n := MIN_FRAME;
    }
    frame := buf[..n];
  }

  lemma WholePayload(frame: seq<byte>, header: seq<byte>, ip: nat, t: Transport, data: seq<byte>)
    requires |header| == IP_HEADER && Encoded(t)
    requires var end := ip + IP_HEADER + HeaderSize(t) + |data|; end <= MAX_PACKET_SIZE && end <= |frame|
    requires Complete(frame, ip, header, t, data)
    ensures var end := ip + IP_HEADER + HeaderSize(t) + |data|;
            ip + IpLength(frame, ip) == end && frame[end - |data|..end] == data
  {
  }

  /** What stands behind the packet does not matter to it. */
  lemma SameComplete(a: seq<byte>, b: seq<byte>, header: seq<byte>, ip: nat, t: Transport, data: seq<byte>)
    requires |header| == IP_HEADER && Encoded(t)
    requires var end := ip + IP_HEADER + HeaderSize(t) + Kept(t, |data|);
             end <= |a| && end <= |b| && forall i :: 0 <= i < end ==> a[i] == b[i]
    requires Complete(a, ip, header, t, data)
    ensures Complete(b, ip, header, t, data)
  {
    var size := HeaderSize(t) + Kept(t, |data|);
    var end := ip + IP_HEADER + size;
    assert a[ip..ip + IP_HEADER] == b[ip..ip + IP_HEADER];
    SameSegment(a, b, ip, size);
    CarriedBefore(a, end, ip + IP_HEADER, t, data);
    SameCarried(a[..end], b[..end], ip + IP_HEADER, t, data);
    CarriedBefore(b, end, ip + IP_HEADER, t, data);
  }

  lemma SameSegment(a: seq<byte>, b: seq<byte>, ip: nat, size: nat)
    requires var end := ip + IP_HEADER + size; end <= |a| && end <= |b| && forall i :: 0 <= i < end ==> a[i] == b[i]
    requires size < W16
    ensures Received(a, ip, ip + IP_HEADER, size) == Received(b, ip, ip + IP_HEADER, size)
  {
    assert a[ip + 12..ip + 20] == b[ip + 12..ip + 20];
    assert a[ip + IP_HEADER..ip + IP_HEADER + size] == b[ip + IP_HEADER..ip + IP_HEADER + size];
  }

  lemma CarriedBefore(a: seq<byte>, end: nat, at: nat, t: Transport, data: seq<byte>)
    requires Encoded(t) && at + HeaderSize(t) + Kept(t, |data|) <= end <= |a|
    ensures Carries(a, at, t, data) <==> Carries(a[..end], at, t, data)
  {
    if t.Udp? {
      assert WordAt(a, at + 6) == WordAt(a[..end], at + 6);
    }
  }
}
