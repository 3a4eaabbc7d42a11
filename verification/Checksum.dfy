/**
 * The Internet checksum of RFC 1071 as `in_cksum` and `in_cksum2` compute it on a little-endian
 * machine: the sum of 16-bit words in 32 bits, folded exactly twice.
 */
module Checksum {
  import opened Bytes

  const W16: int := 0x1_0000
  const W32: int := 0x1_0000_0000
  const ONES: int := 0xffff

  /** A 16-bit word in memory, read by a little-endian machine, and as the network means it. */
  function LittleWord(x: byte, y: byte): nat {
    x + 256 * y
  }

  function BigWord(x: byte, y: byte): nat {
    256 * x + y
  }

  /** The sum of the words of a byte string; an odd last octet is padded with a zero octet. */
  function Sum(s: seq<byte>): nat {
    if s == [] then 0
    else if |s| == 1 then LittleWord(s[0], 0)
    else LittleWord(s[0], s[1]) + Sum(s[2..])
  }

  function BigSum(s: seq<byte>): nat {
    if s == [] then 0
    else if |s| == 1 then BigWord(s[0], 0)
    else BigWord(s[0], s[1]) + BigSum(s[2..])
  }

  /** Adds the carries to the low half. */
  function Fold(sum: nat): nat {
    sum % W16 + sum / W16
  }

  /** What the program returns for a sum: two folds, cut to 16 bits, complemented. */
  function Complement(sum: nat): (r: nat)
    ensures r < W16
  {
    ONES - Fold(Fold(sum)) % W16
  }

  function ChecksumOf(s: seq<byte>): nat {
    Complement(Sum(s))
  }

  // ---------------------------------------------------------------- two folds

  /** Equal remainders modulo 2^16 - 1, with the multiple named. */
  ghost predicate Congruent(a: int, b: int) {
    exists k :: a == b + ONES * k
  }

  lemma FoldOnce(sum: nat)
    ensures sum == Fold(sum) + ONES * (sum / W16)
    ensures Fold(sum) == 0 <==> sum == 0
  {
  }

  /**
   * Two folds of any 32-bit sum fit 16 bits: they are the representative between 1 and 2^16 - 1
   * of the sum modulo 2^16 - 1, or zero if the sum is zero.
   */
  lemma TwoFoldsFit(sum: nat)
    requires sum < W32
    ensures Fold(Fold(sum)) < W16
    ensures Fold(Fold(sum)) == 0 <==> sum == 0
    ensures Congruent(sum, Fold(Fold(sum)))
  {
    FoldOnce(sum);
    FoldOnce(Fold(sum));
    assert Fold(sum) <= 2 * ONES;
    assert sum == Fold(Fold(sum)) + ONES * (sum / W16 + Fold(sum) / W16);
  }

  lemma ComplementOf(sum: nat)
    requires sum < W32
    ensures Complement(sum) == ONES - Fold(Fold(sum))
  {
    TwoFoldsFit(sum);
  }

  lemma CongruentSmall(a: nat, b: nat)
    requires Congruent(a, b) && a <= ONES && b <= ONES && (a == 0 <==> b == 0)
    ensures a == b
  {
    var k :| a == b + ONES * k;
    assert k == 0;
  }

  /** Two folds are the same for congruent sums. */
  lemma SameFolds(a: nat, b: nat)
    requires a < W32 && b < W32 && Congruent(a, b) && (a == 0 <==> b == 0)
    ensures Fold(Fold(a)) == Fold(Fold(b))
  {
    TwoFoldsFit(a);
    TwoFoldsFit(b);
    FoldsFrom(a, b, Fold(Fold(a)), Fold(Fold(b)));
  }

  lemma FoldsFrom(a: nat, b: nat, x: nat, y: nat)
    requires Congruent(a, b) && Congruent(a, x) && Congruent(b, y) && x < W16 && y < W16 && (x == 0 <==> y == 0)
    ensures x == y
  {
    var i: int :| a == b + ONES * i;
    var j: int :| a == x + ONES * j;
    var k: int :| b == y + ONES * k;
    assert x == y + ONES * (i + k - j);
    CongruentSmall(x, y);
  }

  lemma FoldsCongruent(a: nat, b: nat)
    requires a < W32 && b < W32 && Fold(Fold(a)) == Fold(Fold(b))
    ensures Congruent(a, b) && (a == 0 <==> b == 0)
  {
    TwoFoldsFit(a);
    TwoFoldsFit(b);
    var x := Fold(Fold(a));
    var j: int :| a == x + ONES * j;
    var k: int :| b == x + ONES * k;
    assert a == b + ONES * (j - k);
  }

  /** The checksums of two sums agree exactly if the sums do modulo 2^16 - 1 and in being zero. */
  lemma SameComplement(a: nat, b: nat)
    requires a < W32 && b < W32
    ensures Complement(a) == Complement(b) <==> Congruent(a, b) && (a == 0 <==> b == 0)
  {
    ComplementOf(a);
    ComplementOf(b);
    if Congruent(a, b) && (a == 0 <==> b == 0) {
      SameFolds(a, b);
    }
    if Complement(a) == Complement(b) {
      FoldsCongruent(a, b);
    }
  }

  /** A nonzero sum verifies, that is, its checksum is zero, exactly if 2^16 - 1 divides it. */
  lemma VerifiesIff(sum: nat)
    requires 0 < sum < W32
    ensures Complement(sum) == 0 <==> Congruent(sum, 0)
  {
    TwoFoldsFit(sum);
    var x := Fold(Fold(sum));
    var k :| sum == x + ONES * k;
    if Complement(sum) == 0 {
      assert sum == 0 + ONES * (k + 1);
    }
    if Congruent(sum, 0) {
      var l :| sum == 0 + ONES * l;
      assert x == ONES * (l - k);
      assert l - k == 1;
    }
  }

  /** Adding the checksum makes the sum verify. */
  lemma AddedChecksumVerifies(sum: nat)
    requires sum + ONES < W32
    ensures Complement(sum + Complement(sum)) == 0
    ensures Complement(sum) == 0 ==> Complement(sum + ONES) == 0
  {
    TwoFoldsFit(sum);
    var x := Fold(Fold(sum));
    var k :| sum == x + ONES * k;
    assert sum + Complement(sum) == 0 + ONES * (k + 1);
    VerifiesIff(sum + Complement(sum));
    if Complement(sum) == 0 {
      assert sum + ONES == 0 + ONES * (k + 2);
      VerifiesIff(sum + ONES);
    }
  }

  // ---------------------------------------------------------------- sums of byte strings

  lemma {:induction false} SumConcat(a: seq<byte>, b: seq<byte>)
    requires |a| % 2 == 0
    ensures Sum(a + b) == Sum(a) + Sum(b)
    decreases |a|
  {
    if a == [] {
      assert a + b == b;
    } else {
      assert (a + b)[2..] == a[2..] + b;
      SumConcat(a[2..], b);
    }
  }

  /** The octets of a byte string, weighed by their place: the even ones once, the odd ones 256 times. */
  ghost function Weighed(s: seq<byte>): nat {
    if s == [] then 0
    else
      var last: nat := s[|s| - 1];
      Weighed(s[..|s| - 1]) + (if |s| % 2 == 1 then last else 256 * last)
  }

  lemma {:induction false} SumIsWeighed(s: seq<byte>)
    ensures Sum(s) == Weighed(s)
    decreases |s|
  {
    var n := |s|;
    if n > 0 {
      SumIsWeighed(s[..n - 1]);
      if n % 2 == 1 {
        assert s == s[..n - 1] + [s[n - 1]];
        SumConcat(s[..n - 1], [s[n - 1]]);
      } else {
        assert s == s[..n - 2] + [s[n - 2], s[n - 1]] && s[..n - 1] == s[..n - 2] + [s[n - 2]];
        SumConcat(s[..n - 2], [s[n - 2], s[n - 1]]);
        SumConcat(s[..n - 2], [s[n - 2]]);
        assert [s[n - 2], s[n - 1]][2..] == [];
      }
    }
  }

  /** The example of RFC 1071, section 3: its words sum to ddf2, so the octets 22 0d are stored. */
  lemma ExampleOfTheRfc()
    ensures ChecksumOf([0x00, 0x01, 0xf2, 0x03, 0xf4, 0xf5, 0xf6, 0xf7]) == LittleWord(0x22, 0x0d)
  {
    var s: seq<byte> := [0x00, 0x01, 0xf2, 0x03, 0xf4, 0xf5, 0xf6, 0xf7];
    assert s[2..] == [0xf2, 0x03, 0xf4, 0xf5, 0xf6, 0xf7] && s[2..][2..] == [0xf4, 0xf5, 0xf6, 0xf7];
    assert s[2..][2..][2..] == [0xf6, 0xf7];
  }

  /** Up to 131072 octets no carry leaves the 32 bits; the clamp to 1600 is far below. */
  lemma {:induction false} SumBound(s: seq<byte>)
    ensures Sum(s) <= ONES * ((|s| + 1) / 2)
    ensures |s| <= 131072 ==> Sum(s) + ONES < W32
    decreases |s|
  {
    if |s| >= 2 {
      SumBound(s[2..]);
    }
  }

  /** Replacing the word at an even place. */
  function PutWord(s: seq<byte>, i: nat, w: nat): (r: seq<byte>)
    requires i + 2 <= |s| && w < W16
    ensures |r| == |s|
  {
    s[i := w % 256][i + 1 := w / 256]
  }

  function WordAt(s: seq<byte>, i: nat): (w: nat)
    requires i + 2 <= |s|
    ensures w < W16
  {
    LittleWord(s[i], s[i + 1])
  }

  lemma {:induction false} SumSplit(s: seq<byte>, i: nat)
    requires i + 2 <= |s| && i % 2 == 0
    ensures Sum(s) == Sum(s[..i]) + WordAt(s, i) + Sum(s[i + 2..])
  {
    assert s == s[..i] + s[i..];
    SumConcat(s[..i], s[i..]);
    assert s[i..][2..] == s[i + 2..];
  }

  lemma {:induction false} PutWordSum(s: seq<byte>, i: nat, w: nat)
    requires i + 2 <= |s| && i % 2 == 0 && w < W16
    ensures Sum(PutWord(s, i, w)) == Sum(s) - WordAt(s, i) + w
  {
    var t := PutWord(s, i, w);
    SumSplit(s, i);
    SumSplit(t, i);
    assert t[..i] == s[..i] && t[i + 2..] == s[i + 2..];
    assert WordAt(t, i) == w;
  }

  /**
   * Round trip: a packet whose checksum field was zeroed, summed, and filled with the result sums
   * to a checksum of zero.
   */
  lemma StoredChecksumVerifies(s: seq<byte>, i: nat)
    requires i + 2 <= |s| <= 131072 && i % 2 == 0
    ensures var zeroed := PutWord(s, i, 0);
            ChecksumOf(PutWord(zeroed, i, ChecksumOf(zeroed))) == 0
    ensures var zeroed := PutWord(s, i, 0);
            ChecksumOf(zeroed) == 0 ==> ChecksumOf(PutWord(zeroed, i, ONES)) == 0
  {
    var zeroed := PutWord(s, i, 0);
    SumBound(zeroed);
    AddedChecksumVerifies(Sum(zeroed));
    PutWordSum(zeroed, i, ChecksumOf(zeroed));
    PutWordSum(zeroed, i, ONES);
  }

  lemma ZeroDoesNotVerify()
    ensures Complement(0) == ONES
  {
  }

  lemma ChangeUnnoticedIff(sum: nat, u: nat, w: nat)
    requires u <= sum < W32 && u < W16 && w < W16 && sum - u + w < W32 && Complement(sum) == 0
    ensures Complement(sum - u + w) == 0 <==> w == u || (w == ONES && u == 0) || (w == 0 && u == ONES && sum > ONES)
  {
    ZeroDoesNotVerify();
    VerifiesIff(sum);
    var k: int :| sum == 0 + ONES * k;
    var t := sum - u + w;
    if t > 0 {
      VerifiesIff(t);
      if Congruent(t, 0) {
        var l: int :| t == 0 + ONES * l;
        assert w - u == ONES * (l - k);
      }
      if w == ONES && u == 0 {
        assert t == 0 + ONES * (k + 1);
      } else if w == 0 && u == ONES {
        assert t == 0 + ONES * (k - 1);
      }
    }
  }

  /**
   * What the checksum detects: in a packet that verifies, replacing one word by another goes
   * unnoticed exactly if the words are the same or are the two forms of zero.
   */
  lemma {:induction false} WordChangeUnnoticedIff(s: seq<byte>, i: nat, w: nat)
    requires i + 2 <= |s| <= 131072 && i % 2 == 0 && w < W16 && ChecksumOf(s) == 0
    ensures ChecksumOf(PutWord(s, i, w)) == 0 <==>
            w == WordAt(s, i) || (w == ONES && WordAt(s, i) == 0)
            || (w == 0 && WordAt(s, i) == ONES && Sum(s) > ONES)
  {
    var t := PutWord(s, i, w);
    assert Sum(t) == Sum(s) - WordAt(s, i) + w && WordAt(s, i) <= Sum(s) by {
      PutWordSum(s, i, w);
      SumSplit(s, i);
    }
    StringChange(s, t, WordAt(s, i), w);
  }

  lemma {:induction false} StringChange(s: seq<byte>, t: seq<byte>, u: nat, w: nat)
    requires |s| <= 131072 && |t| <= 131072 && u < W16 && w < W16
    requires u <= Sum(s) && Sum(t) == Sum(s) - u + w && ChecksumOf(s) == 0
    ensures ChecksumOf(t) == 0 <==> w == u || (w == ONES && u == 0) || (w == 0 && u == ONES && Sum(s) > ONES)
  {
    SumBound(s);
    SumBound(t);
    ChangeUnnoticedIff(Sum(s), u, w);
  }

  // ---------------------------------------------------------------- byte order

  function Swap(w: nat): nat
    requires w < W16
  {
    256 * (w % 256) + w / 256
  }

  lemma SwapCongruent(w: nat)
    requires w < W16
    ensures Congruent(Swap(w), 256 * w) && Swap(w) < W16 && (Swap(w) == 0 <==> w == 0)
  {
    assert Swap(w) == 256 * w + ONES * (-(w / 256));
  }

  /** Reading the words the other way round multiplies the sum by 256, modulo 2^16 - 1. */
  lemma {:induction false} SumsCongruent(s: seq<byte>)
    ensures Congruent(Sum(s), 256 * BigSum(s)) && (Sum(s) == 0 <==> BigSum(s) == 0)
    decreases |s|
  {
    if s == [] {
      assert 0 == 256 * 0 + ONES * 0;
    } else {
      var h: int := s[0];
      var rest := if |s| == 1 then [] else s[2..];
      SumsCongruent(rest);
      var k: int :| Sum(rest) == 256 * BigSum(rest) + ONES * k;
      assert Sum(s) == 256 * BigSum(s) + ONES * (k - h);
    }
  }

  lemma {:induction false} BigSumBound(s: seq<byte>)
    ensures BigSum(s) <= ONES * ((|s| + 1) / 2)
    decreases |s|
  {
    if |s| >= 2 {
      BigSumBound(s[2..]);
    }
  }

  /**
   * Byte-order independence: folding the little-endian sum gives the byte swap of folding the
   * big-endian one, so the octets stored by machines of either kind are the same.
   */
  lemma {:induction false} ByteOrderIndependent(s: seq<byte>)
    requires |s| <= 131072
    ensures Fold(Fold(BigSum(s))) < W16
    ensures Fold(Fold(Sum(s))) == Swap(Fold(Fold(BigSum(s))))
    ensures Complement(Sum(s)) == Swap(Complement(BigSum(s)))
  {
    SumBound(s);
    BigSumBound(s);
    SumsCongruent(s);
    FoldsSwap(Sum(s), BigSum(s));
  }

  lemma FoldsSwap(a: nat, b: nat)
    requires a < W32 && b < W32 && Congruent(a, 256 * b) && (a == 0 <==> b == 0)
    ensures Fold(Fold(b)) < W16 && Fold(Fold(a)) == Swap(Fold(Fold(b)))
    ensures Complement(a) == Swap(Complement(b))
  {
    TwoFoldsFit(a);
    TwoFoldsFit(b);
    ComplementOf(a);
    ComplementOf(b);
    SwapFolded(a, b, Fold(Fold(a)), Fold(Fold(b)));
  }

  lemma SwapFolded(a: nat, b: nat, x: nat, y: nat)
    requires Congruent(a, 256 * b) && Congruent(a, x) && Congruent(b, y) && x < W16 && y < W16
    requires x == 0 <==> y == 0
    ensures x == Swap(y) && ONES - x == Swap(ONES - y)
  {
    SwapCongruent(y);
    SwapBothSides(a, b, x, y);
    CongruentSmall(x, Swap(y));
    SwapComplement(y);
  }

  lemma SwapBothSides(a: int, b: int, x: int, y: nat)
    requires y < W16 && Congruent(a, x) && Congruent(b, y) && Congruent(a, 256 * b) && Congruent(Swap(y), 256 * y)
    ensures Congruent(x, Swap(y))
  {
    var i: int :| a == x + ONES * i;
    var j: int :| b == y + ONES * j;
    var k: int :| a == 256 * b + ONES * k;
    var l: int :| Swap(y) == 256 * y + ONES * l;
    assert x == Swap(y) + ONES * (k + 256 * j - i - l);
  }

  lemma SwapComplement(y: nat)
    requires y < W16
    ensures Swap(ONES - y) == ONES - Swap(y)
  {
    assert (ONES - y) / 256 == 255 - y / 256 && (ONES - y) % 256 == 255 - y % 256;
  }
}
