/** `mark` and `reset` of `DynamicByteArrayInputStream`. */
module StreamMark {
  import opened Bytes
  import opened StreamBuffer
  import opened StreamFifo

  /** Calls made between a mark and its reset. */
  ghost predicate Between(ops: seq<Op>) {
    forall i :: 0 <= i < |ops| ==> !ops[i].FinishCurrent? && !ops[i].Reset? && !ops[i].Mark?
  }

  lemma {:induction false} BetweenIsCareful(b: Buf, ops: seq<Op>)
    requires Sane(b) && Between(ops)
    ensures Careful(b, ops)
    decreases |ops|
  {
    if ops != [] {
      StepSane(b, ops[0]);
      BetweenIsCareful(Step(b, ops[0]).0, ops[1..]);
    }
  }

  ghost function RunBetween(b: Buf, ops: seq<Op>): (r: (Buf, seq<Out>))
    requires Sane(b) && Between(ops)
    ensures Sane(r.0) && |r.1| == |ops|
  {
    BetweenIsCareful(b, ops);
    RunOps(b, ops)
  }

  lemma BetweenFirst(b: Buf, ops: seq<Op>)
    requires Sane(b) && Between(ops) && ops != []
    ensures var (b1, out) := Step(b, ops[0]);
            var outs := RunBetween(b, ops).1;
            && Sane(b1) && outs[0] == out && outs[1..] == RunBetween(b1, ops[1..]).1
            && RunBetween(b, ops).0 == RunBetween(b1, ops[1..]).0
  {
    BetweenIsCareful(b, ops);
    RunFirst(b, ops);
  }

  /**
   * No append was accepted after more than `k` octets had been consumed; `used` of them were
   * consumed before the first of these calls.  A caller knows this from its own calls.
   */
  ghost predicate WithinLimit(k: int, used: nat, ops: seq<Op>, outs: seq<Out>)
    requires |ops| == |outs|
    decreases |ops|
  {
    ops == [] ||
    (&& (ops[0].Append? && outs[0].Accepted? ==> used <= k)
     && WithinLimit(k, used + (if outs[0].Octets? then |outs[0].octets| else 0), ops[1..], outs[1..]))
  }

  /** The mark is intact: nothing before the read position was dropped since it was set. */
  ghost predicate Intact(b: Buf, k: int, p: nat, head: seq<byte>) {
    && Sane(b) && b.markedPos == p <= b.pos && b.readLimit == k > 0
    && b.data[p..] == head
  }

  /** The mark is stale: octets it should bring back are gone. */
  ghost predicate Stale(b: Buf, needed: nat) {
    Sane(b) && b.markedPos >= 0 && |b.data| < needed
  }

  lemma IntactStep(b: Buf, op: Op, k: int, p: nat, head: seq<byte>)
    requires Intact(b, k, p, head) && !op.FinishCurrent? && !op.Reset? && !op.Mark? && !Step(b, op).1.EndMark?
    ensures var (b1, out) := Step(b, op);
            if op.Append? && out.Accepted?
            then (if b.pos - p <= k then Intact(b1, k, p, head + op.octets) && b1.pos == b.pos
                  else Stale(b1, |head| + |op.octets|))
            else Intact(b1, k, p, head) && b1.pos == b.pos + (if out.Octets? then |out.octets| else 0)
  {
    StepSane(b, op);
    if op.Append? {
      assert (b.data + op.octets)[p..] == b.data[p..] + op.octets;
    }
  }

  lemma StaleStep(b: Buf, op: Op, needed: nat)
    requires Stale(b, needed) && !op.FinishCurrent? && !op.Reset? && !op.Mark? && !Step(b, op).1.EndMark?
    ensures var (b1, out) := Step(b, op);
            Stale(b1, needed + (if op.Append? && out.Accepted? then |op.octets| else 0))
  {
    StepSane(b, op);
  }

  /** No answer moved on to the next stream. */
  ghost predicate Inside(outs: seq<Out>) {
    forall i :: 0 <= i < |outs| ==> !outs[i].EndMark?
  }

  lemma InsideFirst(outs: seq<Out>)
    requires outs != [] && Inside(outs)
    ensures !outs[0].EndMark? && Inside(outs[1..])
  {
  }

  lemma {:induction false} StaleRun(b: Buf, ops: seq<Op>, needed: nat)
    requires Stale(b, needed) && Between(ops) && Inside(RunBetween(b, ops).1)
    ensures var (b', outs) := RunBetween(b, ops); Stale(b', needed + |Appended(ops, outs)|)
    decreases |ops|
  {
    if ops != [] {
      BetweenFirst(b, ops);
      InsideFirst(RunBetween(b, ops).1);
      var (b1, out) := Step(b, ops[0]);
      StaleStep(b, ops[0], needed);
      StaleRun(b1, ops[1..], needed + (if ops[0].Append? && out.Accepted? then |ops[0].octets| else 0));
    }
  }

  /** What a reset brings back, if and only if the calls stayed within the limit. */
  ghost predicate Restores(b: Buf, head: seq<byte>, ops: seq<Op>, outs: seq<Out>, k: int, used: nat)
    requires |ops| == |outs|
  {
    && b.markedPos != -1
    && (Unread(ResetTo(b).value) == head + Appended(ops, outs) <==> WithinLimit(k, used, ops, outs))
  }

  /** The first call did not hurt: the rest decides. */
  lemma RestoresFirst(b: Buf, head: seq<byte>, ops: seq<Op>, outs: seq<Out>, k: int, used: nat)
    requires ops != [] && |ops| == |outs| && !(ops[0].Append? && outs[0].Accepted? && used > k)
    requires var added := if ops[0].Append? && outs[0].Accepted? then ops[0].octets else [];
             var taken := if outs[0].Octets? then |outs[0].octets| else 0;
             Restores(b, head + added, ops[1..], outs[1..], k, used + taken)
    ensures Restores(b, head, ops, outs, k, used)
  {
    var added := if ops[0].Append? && outs[0].Accepted? then ops[0].octets else [];
    var rest := Appended(ops[1..], outs[1..]);
    assert head + (added + rest) == (head + added) + rest;
  }

  /** The first call was an append too late: octets are gone. */
  lemma RestoresNot(b: Buf, head: seq<byte>, ops: seq<Op>, outs: seq<Out>, k: int, used: nat)
    requires ops != [] && |ops| == |outs| && ops[0].Append? && outs[0].Accepted? && used > k
    requires Stale(b, |head| + |ops[0].octets| + |Appended(ops[1..], outs[1..])|)
    ensures Restores(b, head, ops, outs, k, used)
  {
    assert |Unread(ResetTo(b).value)| <= |b.data|;
    assert |head + Appended(ops, outs)| == |head| + |ops[0].octets| + |Appended(ops[1..], outs[1..])|;
  }

  /** What a reset brings back after any calls, from an intact mark. */
  lemma {:induction false} ResetAfter(b: Buf, ops: seq<Op>, k: int, p: nat, head: seq<byte>)
    requires Intact(b, k, p, head) && Between(ops) && Inside(RunBetween(b, ops).1)
    ensures var (b', outs) := RunBetween(b, ops); Restores(b', head, ops, outs, k, b.pos - p)
    decreases |ops|
  {
    var (b', outs) := RunBetween(b, ops);
    if ops == [] {
      assert head + [] == head;
    } else {
      BetweenFirst(b, ops);
      InsideFirst(outs);
      var op := ops[0];
      var (b1, out) := Step(b, op);
      IntactStep(b, op, k, p, head);
      if op.Append? && out.Accepted? && b.pos - p > k {
        StaleRun(b1, ops[1..], |head| + |op.octets|);
        RestoresNot(b', head, ops, outs, k, b.pos - p);
      } else {
        var added := if op.Append? && out.Accepted? then op.octets else [];
        assert head + [] == head;
        ResetAfter(b1, ops[1..], k, p, head + added);
        RestoresFirst(b', head, ops, outs, k, b.pos - p);
      }
    }
  }

  /**
   * After `mark(k)` with k > 0 and any calls that stay inside the current stream, `reset` brings
   * back exactly what was unread at the mark followed by everything appended since, if and only
   * if no append came after more than k octets had been consumed.
   */
  lemma {:induction false} ResetRestoresIff(b: Buf, k: int, ops: seq<Op>)
    requires Sane(b) && k > 0 && Between(ops) && Inside(RunBetween(MarkAt(b, k), ops).1)
    ensures var (b', outs) := RunBetween(MarkAt(b, k), ops);
            && ResetTo(b').Some?
            && (Unread(ResetTo(b').value) == Unread(b) + Appended(ops, outs) <==> WithinLimit(k, 0, ops, outs))
  {
    ResetAfter(MarkAt(b, k), ops, k, b.pos, b.data[b.pos..]);
  }

  /** For instance: mark(1), two reads, an append: the reset loses the first octet for good. */
  lemma ResetLoses()
    ensures var b := AppendTo(EMPTY, [1, 2, 3]).0;
            var b1 := ReadUpTo(ReadUpTo(MarkAt(b, 1), 1).0, 1).0;
            var b2 := AppendTo(b1, [4]).0;
            Unread(b) == [1, 2, 3] && ResetTo(b2).Some? && Unread(ResetTo(b2).value) == [3, 4]
  {
    var b := AppendTo(EMPTY, [1, 2, 3]).0;
    assert b == Buf([1, 2, 3], 0, 3, [], false, -1, -1);
    var b1 := ReadUpTo(MarkAt(b, 1), 1).0;
    assert b1 == Buf([1, 2, 3], 1, 3, [], false, 1, 0);
    var b2 := ReadUpTo(b1, 1).0;
    assert b2 == Buf([1, 2, 3], 2, 3, [], false, 1, 0);
    assert [1, 2, 3][2..] + [4] == [3, 4];
    var b3 := AppendTo(b2, [4]).0;
    assert b3 == Buf([3, 4], 0, 2, [], false, 1, 0);
  }
}
