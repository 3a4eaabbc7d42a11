/** Octets and the small vocabulary shared by every module. */
module Bytes {
  /** An octet. Java's signed `byte` stands for the same octet; `& 0xff` recovers it. */
  type byte = x: int | 0 <= x < 256

  const CR: byte := 13
  const LF: byte := 10
  const COLON: byte := 58

  datatype Option<+T> = None | Some(value: T)

  function Min(a: int, b: int): (r: int)
  {
    if a < b then a else b
  }

  /** Concatenation of a list of byte strings, in order. */
  ghost function Concat(parts: seq<seq<byte>>): seq<byte> {
    if parts == [] then [] else parts[0] + Concat(parts[1..])
  }

  lemma {:induction false} ConcatAppend(parts: seq<seq<byte>>, last: seq<byte>)
    ensures Concat(parts + [last]) == Concat(parts) + last
  {
    if parts == [] {
      assert parts + [last] == [last];
      assert Concat([last]) == last + Concat([]);
    } else {
      assert (parts + [last])[1..] == parts[1..] + [last];
      ConcatAppend(parts[1..], last);
    }
  }

  /** Cutting a slice again. */
  lemma SliceSlice(s: seq<byte>, lo: nat, hi: nat, k: nat)
    requires lo + k <= hi <= |s|
    ensures s[lo..hi][..k] == s[lo..lo + k]
    ensures s[lo..hi][k..] == s[lo + k..hi]
  {
  }

  /** `System.arraycopy`: correct also when source and target overlap. */
  method ArrayCopy(src: array<byte>, srcPos: nat, dst: array<byte>, dstPos: nat, n: nat)
    requires srcPos + n <= src.Length && dstPos + n <= dst.Length
    modifies dst
    ensures dst[dstPos..dstPos + n] == old(src[srcPos..srcPos + n])
    ensures forall i :: 0 <= i < dst.Length && !(dstPos <= i < dstPos + n) ==> dst[i] == old(dst[i])
  {
    ghost var was := src[..];
    forall i | 0 <= i < n {
      dst[dstPos + i] := src[srcPos + i];
    }
    assert forall i :: dstPos <= i < dstPos + n ==> dst[i] == was[srcPos + (i - dstPos)];
  }
}
