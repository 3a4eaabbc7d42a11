/**
 * The underlying `InputStream`, as anything that answers reads.
 *
 * The script fixes how the source fragments its octets, where it reports end of stream and where
 * it fails, and what `available` estimates; a statement about every script is a statement about
 * every fragmentation.
 */
module ChunkSource {
  import opened Bytes

  datatype Reply =
    | Octets(data: seq<byte>)   // a burst that one or several reads hand out
    | EndOfStream
    | Failure                   // an IOException

  datatype Answer = Count(n: nat) | AtEnd | Broken

  /** The octets handed out before the first end of stream or failure. */
  ghost function Supply(script: seq<Reply>): seq<byte> {
    if script == [] || !script[0].Octets? then [] else script[0].data + Supply(script[1..])
  }

  /** How many more times the source can answer with an octet or an event. */
  ghost function Budget(script: seq<Reply>): nat {
    if script == [] then 0
    else (if script[0].Octets? then |script[0].data| else 1) + Budget(script[1..])
  }

  class Source {
    var script: seq<Reply>
    var estimates: seq<int>
    ghost var taken: seq<byte>
    ghost var ends: nat          // how often the end of stream was answered

    constructor (script: seq<Reply>, estimates: seq<int>)
      ensures this.script == script && this.estimates == estimates && taken == []
    {
      this.script, this.estimates, taken, ends := script, estimates, [], 0;
    }

    /**
     * `in.read(b, off, n)` with n > 0: one octet at least, or the end, or a failure.
     */
    method Read(b: array<byte>, off: nat, n: nat) returns (a: Answer)
      requires n > 0 && off + n <= b.Length
      modifies `script, `taken, `ends, b
      ensures a.Count? ==> 1 <= a.n <= n && taken == old(taken) + b[off..off + a.n]
      ensures !a.Count? ==> taken == old(taken)
      ensures ends == old(ends) + (if a.AtEnd? then 1 else 0)
      ensures forall i :: 0 <= i < b.Length && !(a.Count? && off <= i < off + a.n) ==> b[i] == old(b[i])
      // nothing is lost, and there is only an end or a failure where the supply is exhausted
      ensures a.Count? ==> old(Supply(script)) == b[off..off + a.n] + Supply(script)
      ensures !a.Count? ==> old(Supply(script)) == []
      ensures if old(script) == [] then script == [] && a.AtEnd? else Budget(script) <= old(Budget(script))
      ensures a.Count? ==> Budget(script) < old(Budget(script))
    {
      while |script| > 0 && script[0].Octets? && script[0].data == []
        invariant Supply(script) == old(Supply(script))
        invariant Budget(script) == old(Budget(script))
        invariant old(script) == [] ==> script == []
        invariant ends == old(ends)
        invariant taken == old(taken) && b[..] == old(b[..])
        decreases |script|
      {
        script := script[1..];
      }
      if script == [] {
        ends := ends + 1;
        return AtEnd;
      }
      match script[0] {
        case EndOfStream =>
          script := script[1..];
          ends := ends + 1;
          return AtEnd;
        case Failure =>
          script := script[1..];
          return Broken;
        case Octets(data) =>
          var k := Min(|data|, n);
          forall i | 0 <= i < k {
            b[off + i] := data[i];
          }
          assert b[off..off + k] == data[..k];
          ghost var rest := script[1..];
          assert data == data[..k] + data[k..];
          script := [Octets(data[k..])] + script[1..];
          assert script[1..] == rest;
          taken := taken + data[..k];
          return Count(k);
      }
    }

    /** `in.available()`: whatever estimate the source cares to give. */
    method Available() returns (n: int)
      modifies `estimates
    {
      if estimates == [] {
        n := 0;
      } else {
        n := estimates[0];
        estimates := estimates[1..];
      }
    }
  }
}
