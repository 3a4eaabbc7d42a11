/**
 * Laws of `DynamicByteArrayInputStream` that need no discipline between its users: over all
 * interleavings of all calls no octet is lost, repeated or reordered, and every successful finish
 * is answered by exactly one end of a stream.
 */
module StreamFifo {
  import opened Bytes
  import opened StreamBuffer

  // ---------------------------------------------------------------- runs

  /** No call of the run hurts the buffer. */
  ghost predicate Careful(b: Buf, ops: seq<Op>)
    requires Sane(b)
    decreases |ops|
  {
    ops == [] || (Harmless(b, ops[0]) && (StepSane(b, ops[0]); Careful(Step(b, ops[0]).0, ops[1..])))
  }

  /** The buffer and the answers after a sequence of calls. */
  ghost function RunOps(b: Buf, ops: seq<Op>): (r: (Buf, seq<Out>))
    requires Sane(b) && Careful(b, ops)
    ensures Sane(r.0) && |r.1| == |ops|
    decreases |ops|
  {
    if ops == [] then (b, [])
    else
      StepSane(b, ops[0]);
      var (b1, out) := Step(b, ops[0]);
      var (b2, outs) := RunOps(b1, ops[1..]);
      (b2, [out] + outs)
  }

  /** The first call of a run, and the rest of it. */
  lemma {:induction false} RunFirst(b: Buf, ops: seq<Op>)
    requires Sane(b) && Careful(b, ops) && ops != []
    ensures var (b1, out) := Step(b, ops[0]);
            var outs := RunOps(b, ops).1;
            && Sane(b1) && Careful(b1, ops[1..])
            && outs[0] == out && outs[1..] == RunOps(b1, ops[1..]).1
            && RunOps(b, ops).0 == RunOps(b1, ops[1..]).0
  {
    StepSane(b, ops[0]);
  }

  /** The octets whose append was accepted, in order. */
  ghost function Appended(ops: seq<Op>, outs: seq<Out>): seq<byte>
    requires |ops| == |outs|
  {
    if ops == [] then []
    else Added(ops[0], outs[0]) + Appended(ops[1..], outs[1..])
  }

  ghost function Added(op: Op, out: Out): seq<byte> {
    if op.Append? && out.Accepted? then op.octets else []
  }

  /** The answer moves the reader on to the next stream. */
  ghost predicate EndsStream(out: Out) {
    out.EndMark? || (out.Dropped? && out.next)
  }

  /** How many streams the reader has seen end. */
  ghost function Ends(outs: seq<Out>): nat {
    if outs == [] then 0 else (if EndsStream(outs[0]) then 1 else 0) + Ends(outs[1..])
  }

  /** How many finishes succeeded. */
  ghost function Closes(ops: seq<Op>, outs: seq<Out>): nat
    requires |ops| == |outs|
  {
    if ops == [] then 0
    else (if ops[0].Finish? && outs[0] == Accepted(true) then 1 else 0) + Closes(ops[1..], outs[1..])
  }

  // ---------------------------------------------------------------- the reader's account

  /**
   * The reader's mark: a live one remembers what was taken since; it is spent when an append comes
   * after more octets than its limit.
   */
  datatype Bookmark = NoMark | Live(limit: int, since: seq<byte>) | Spent

  ghost function Take(m: Bookmark, octets: seq<byte>): Bookmark {
    if m.Live? then m.(since := m.since + octets) else m
  }

  ghost function AfterAppend(m: Bookmark): Bookmark {
    if m.Live? && |m.since| > m.limit then Spent else m
  }

  /**
   * What a reader knows from its own calls: its mark, and what it has gone through, whether read,
   * skipped or dropped, before a live mark was set.
   */
  datatype Account = Account(kept: seq<byte>, mark: Bookmark)

  const FRESH := Account([], NoMark)

  /** All that the reader has gone through, less what a reset took back. */
  ghost function Taken(a: Account): seq<byte> {
    if a.mark.Live? then a.kept + a.mark.since else a.kept
  }

  ghost function Took(a: Account, octets: seq<byte>): Account {
    if a.mark.Live? then a.(mark := Take(a.mark, octets)) else a.(kept := a.kept + octets)
  }

  ghost function WithMark(a: Account, m: Bookmark): Account {
    Account(Taken(a), m)
  }

  /** An append keeps the reader's account, or spends its mark. */
  ghost function Appends(a: Account): Account {
    if AfterAppend(a.mark) == a.mark then a else WithMark(a, Spent)
  }

  ghost function Note(a: Account, op: Op, out: Out): Account {
    match out
    case Octets(s) => Took(a, s)
    case Dropped(s, next) => if next then WithMark(Took(a, s), NoMark) else Took(a, s)
    case EndMark => WithMark(a, NoMark)
    case Accepted(_) =>
      (match op
       case Append(_) => Appends(a)
       case Mark(limit) => if limit > 0 then WithMark(a, Live(limit, [])) else a
       case Reset => if a.mark.Live? then a.(mark := NoMark) else a
       case _ => a)
    case _ => a
  }

  ghost function Tally(a: Account, ops: seq<Op>, outs: seq<Out>): Account
    requires |ops| == |outs|
    decreases |ops|
  {
    if ops == [] then a else Tally(Note(a, ops[0], outs[0]), ops[1..], outs[1..])
  }

  /** The buffer remembers the reader's mark. */
  ghost predicate Marked(b: Buf, m: Bookmark) {
    match m
    case NoMark => b.markedPos == -1
    case Live(limit, since) =>
      0 <= b.markedPos <= b.pos <= |b.data| && b.readLimit == limit > 0 && b.data[b.markedPos..b.pos] == since
    case Spent => b.markedPos >= 0
  }

  /** The account is the one of the buffer's reader. */
  ghost predicate Keeps(b: Buf, a: Account) {
    Sane(b) && (b.pos <= b.count || b.pos == 0) && Marked(b, a.mark)
  }

  /** What a reader sees for itself: its mark is not spent when it asks for a reset, and no jump throws. */
  ghost predicate Heeds(b: Buf, a: Account, op: Op)
    requires Sane(b)
  {
    (op.Reset? ==> !a.mark.Spent?) && Step(b, op).1 != Refused(OutOfRange)
  }

  /** What the reader has taken and what it can still read. */
  ghost function Total(b: Buf, a: Account): seq<byte> {
    Taken(a) + Unread(b)
  }

  /** A call that adds nothing and ends `ends` streams. */
  ghost predicate Passes(b: Buf, a: Account, b1: Buf, a1: Account, ends: nat) {
    Keeps(b1, a1) && Total(b1, a1) == Total(b, a) && ends + |b1.marks| == |b.marks|
  }

  /** What a call takes from the front and adds at the back, and the marks it adds and removes. */
  ghost predicate Balances(b: Buf, a: Account, op: Op, b1: Buf, out: Out, a1: Account) {
    && Keeps(b1, a1)
    && Total(b1, a1) == Total(b, a) + Added(op, out)
    && (if EndsStream(out) then 1 else 0) + |b1.marks| == |b.marks| + (if op.Finish? && out == Accepted(true) then 1 else 0)
  }

  ghost predicate Balanced(b: Buf, a: Account, op: Op, r: (Buf, Out)) {
    Balances(b, a, op, r.0, r.1, Note(a, op, r.1))
  }

  lemma PassesBalances(b: Buf, a: Account, op: Op, r: (Buf, Out), a1: Account)
    requires !op.Append? && !op.Finish? && Note(a, op, r.1) == a1
    requires Passes(b, a, r.0, a1, if EndsStream(r.1) then 1 else 0)
    ensures Balanced(b, a, op, r)
  {
    assert Total(b, a) + [] == Total(b, a);
  }

  // ---------------------------------------------------------------- append and finish

  lemma AppendOnlyKeeps(b: Buf, a: Account, octets: seq<byte>)
    requires Keeps(b, a) && Protected(b)
    ensures Keeps(AppendOnly(b, octets), Appends(a)) && Total(AppendOnly(b, octets), Appends(a)) == Total(b, a) + octets
  {
    RisingWiden(b.marks, |b.data|, |b.data| + |octets|);
    assert (b.data + octets)[b.pos..] == b.data[b.pos..] + octets;
    Associative(Taken(a), b.data[b.pos..], octets);
    if a.mark.Live? {
      assert |b.data[b.markedPos..b.pos]| == b.pos - b.markedPos;
      assert (b.data + octets)[b.markedPos..b.pos] == b.data[b.markedPos..b.pos];
    }
  }

  /** What was read is dropped, and a mark that outlived its limit is spent. */
  lemma ShrunkKeeps(b: Buf, a: Account, octets: seq<byte>)
    requires Keeps(b, a) && !Protected(b)
    ensures Keeps(AppendAndShrink(b, octets), Appends(a)) && Taken(Appends(a)) == Taken(a)
  {
    RisingWiden(b.marks, |b.data|, |b.data| + |octets|);
    RisingShift(b.marks, b.pos, |b.data| + |octets|);
    if a.mark.Live? {
      assert |b.data[b.markedPos..b.pos]| == b.pos - b.markedPos;
    }
  }

  lemma AppendAndShrinkKeeps(b: Buf, a: Account, octets: seq<byte>)
    requires Keeps(b, a) && !Protected(b)
    ensures Keeps(AppendAndShrink(b, octets), Appends(a))
    ensures Total(AppendAndShrink(b, octets), Appends(a)) == Total(b, a) + octets
  {
    ShrunkKeeps(b, a, octets);
    Associative(Taken(a), b.data[b.pos..], octets);
  }

  lemma Associative(x: seq<byte>, y: seq<byte>, z: seq<byte>)
    ensures x + (y + z) == x + y + z
  {
  }

  lemma AppendKeeps(b: Buf, a: Account, octets: seq<byte>)
    requires Keeps(b, a)
    ensures Balanced(b, a, Append(octets), AppendTo(b, octets))
  {
    if AppendTo(b, octets).1.Refused? {
      assert Total(b, a) + [] == Total(b, a);
    } else if Protected(b) {
      AppendOnlyKeeps(b, a, octets);
    } else {
      AppendAndShrinkKeeps(b, a, octets);
    }
  }

  lemma FinishKeeps(b: Buf, a: Account, markOnly: bool)
    requires Keeps(b, a)
    ensures Balanced(b, a, Finish(markOnly), FinishAt(b, markOnly))
  {
    FinishSane(b, markOnly);
    assert Total(b, a) + [] == Total(b, a);
  }

  // ---------------------------------------------------------------- reading

  lemma TakenMore(a: Account, got: seq<byte>)
    ensures Taken(Took(a, got)) == Taken(a) + got
  {
    if a.mark.Live? {
      Associative(a.kept, a.mark.since, got);
    }
  }

  lemma TakeMarked(b: Buf, m: Bookmark, to: int)
    requires Marked(b, m) && 0 <= b.pos <= to <= |b.data|
    ensures Marked(b.(pos := to), Take(m, b.data[b.pos..to]))
  {
    if m.Live? {
      assert b.data[b.markedPos..to] == b.data[b.markedPos..b.pos] + b.data[b.pos..to];
    }
  }

  /** The answer of a read or skip up to position `to` of the current stream. */
  ghost function Forward(b: Buf, to: int): (r: (Buf, Out))
    requires 0 <= b.pos <= to <= b.count <= |b.data|
    ensures r.1.Octets?
  {
    (b.(pos := to), Octets(b.data[b.pos..to]))
  }

  lemma ForwardKeeps(b: Buf, a: Account, to: int)
    requires Keeps(b, a) && b.pos <= to <= b.count
    ensures Keeps(Forward(b, to).0, Took(a, Forward(b, to).1.octets))
  {
    TakeMarked(b, a.mark, to);
  }

  lemma ForwardUnread(b: Buf, to: int)
    requires Sane(b) && b.pos <= to <= b.count
    ensures Forward(b, to).1.octets + Unread(Forward(b, to).0) == Unread(b)
  {
    assert b.data[b.pos..] == b.data[b.pos..to] + b.data[to..];
  }

  /** Taking the next octets of the current stream. */
  lemma ForwardPasses(b: Buf, a: Account, to: int)
    requires Keeps(b, a) && b.pos <= to <= b.count
    ensures Passes(b, a, Forward(b, to).0, Took(a, Forward(b, to).1.octets), 0)
  {
    var (b1, out) := Forward(b, to);
    ForwardKeeps(b, a, to);
    ForwardUnread(b, to);
    TakenMore(a, out.octets);
    Associative(Taken(a), out.octets, Unread(b1));
  }

  /** Moving on to the next stream. */
  lemma NextPasses(b: Buf, a: Account)
    requires Keeps(b, a) && b.marks != []
    ensures Passes(b, a, ShrinkToNext(b), WithMark(a, NoMark), 1)
  {
    ShrinkSane(b);
  }

  /** Taking nothing changes nothing. */
  lemma TakeNothing(a: Account)
    ensures Took(a, []) == a
  {
    assert a.kept + [] == a.kept;
    if a.mark.Live? {
      assert a.mark.since + [] == a.mark.since;
    }
  }

  lemma EndKeeps(b: Buf, a: Account, op: Op)
    requires Keeps(b, a) && b.pos >= b.count && !op.Append? && !op.Finish?
    ensures Balanced(b, a, op, AtEnd(b))
  {
    if AtEnd(b).1.EndMark? {
      NextPasses(b, a);
    }
    PassesBalances(b, a, op, AtEnd(b), Note(a, op, AtEnd(b).1));
  }

  lemma OctetsKeep(b: Buf, a: Account, op: Op, to: int)
    requires Keeps(b, a) && b.pos <= to <= b.count && !op.Append? && !op.Finish?
    ensures Balanced(b, a, op, Forward(b, to))
  {
    ForwardPasses(b, a, to);
    PassesBalances(b, a, op, Forward(b, to), Took(a, Forward(b, to).1.octets));
  }

  /** A read or a skip that goes on to position `to`. */
  lemma GoesTo(b: Buf, a: Account, op: Op, to: int, r: (Buf, Out))
    requires Keeps(b, a) && b.pos <= to <= b.count && !op.Append? && !op.Finish? && r == Forward(b, to)
    ensures Balanced(b, a, op, r)
  {
    OctetsKeep(b, a, op, to);
  }

  lemma ReadForward(b: Buf, len: nat)
    requires Sane(b) && b.pos < b.count
    ensures b.pos <= b.pos + Min(len, b.count - b.pos) <= b.count
    ensures ReadUpTo(b, len) == Forward(b, b.pos + Min(len, b.count - b.pos))
  {
  }

  lemma ReadKeeps(b: Buf, a: Account, op: Op, len: nat)
    requires Keeps(b, a) && (op == ReadMany(len) || (op == ReadOne && len == 1))
    ensures Balanced(b, a, op, ReadUpTo(b, len))
  {
    if b.pos < b.count {
      ReadForward(b, len);
      GoesTo(b, a, op, b.pos + Min(len, b.count - b.pos), ReadUpTo(b, len));
    } else {
      EndKeeps(b, a, op);
    }
  }

  /** How far a skip goes, or a negative number if it does not go at all. */
  ghost function SkipLength(b: Buf, n: int): int {
    if b.pos + n > b.count then b.count - b.pos else n
  }

  lemma SkipForward(b: Buf, n: int)
    requires Sane(b) && SkipLength(b, n) >= 0
    ensures b.pos <= b.pos + SkipLength(b, n) <= b.count
    ensures SkipOver(b, n) == Forward(b, b.pos + SkipLength(b, n))
  {
  }

  lemma SkipKeeps(b: Buf, a: Account, n: int)
    requires Keeps(b, a)
    ensures Balanced(b, a, Skip(n), SkipOver(b, n))
  {
    if SkipLength(b, n) >= 0 {
      SkipForward(b, n);
      GoesTo(b, a, Skip(n), b.pos + SkipLength(b, n), SkipOver(b, n));
    } else {
      TakeNothing(a);
      PassesBalances(b, a, Skip(n), SkipOver(b, n), a);
    }
  }

  // ---------------------------------------------------------------- mark, reset and jump

  /** Setting a mark takes nothing. */
  lemma MarkTakesNothing(a: Account, limit: int)
    ensures Taken(Note(a, Mark(limit), Accepted(true))) == Taken(a)
  {
    assert Taken(a) + [] == Taken(a);
  }

  lemma MarkKeeps(b: Buf, a: Account, limit: int)
    requires Keeps(b, a)
    ensures Balanced(b, a, Mark(limit), (MarkAt(b, limit), Accepted(true)))
  {
    MarkTakesNothing(a, limit);
    assert Total(b, a) + [] == Total(b, a);
  }

  /** A reset takes back what was taken since the mark. */
  lemma BackPasses(b: Buf, a: Account)
    requires Keeps(b, a) && a.mark.Live?
    ensures ResetTo(b).Some? && Passes(b, a, ResetTo(b).value, a.(mark := NoMark), 0)
  {
    assert b.data[b.markedPos..] == a.mark.since + b.data[b.pos..];
    Associative(a.kept, a.mark.since, b.data[b.pos..]);
  }

  lemma ResetKeeps(b: Buf, a: Account)
    requires Keeps(b, a) && !a.mark.Spent?
    ensures Harmless(b, Reset)
    ensures Balanced(b, a, Reset, ResetCall(b))
  {
    if a.mark.Live? {
      BackPasses(b, a);
    }
    PassesBalances(b, a, Reset, ResetCall(b), a.(mark := NoMark));
  }

  /** What a jump leaves of the current stream. */
  ghost function Rest(b: Buf): seq<byte>
    requires Sane(b) && b.pos <= b.count
  {
    b.data[b.pos..b.count]
  }

  lemma JumpInside(b: Buf, a: Account, b0: Buf, octets: seq<byte>)
    requires Passes(b, a, b0, Took(a, octets), 0)
    ensures Balanced(b, a, FinishCurrent, (b0, Dropped(octets, false)))
  {
    PassesBalances(b, a, FinishCurrent, (b0, Dropped(octets, false)), Took(a, octets));
  }

  lemma JumpOn(b: Buf, a: Account, b0: Buf, octets: seq<byte>)
    requires Passes(b, a, b0, Took(a, octets), 0) && b0.marks != []
    ensures Balanced(b, a, FinishCurrent, (ShrinkToNext(b0), Dropped(octets, true)))
  {
    JumpPasses(b, a, b0, Took(a, octets));
    PassesBalances(b, a, FinishCurrent, (ShrinkToNext(b0), Dropped(octets, true)), WithMark(Took(a, octets), NoMark));
  }

  lemma RestPasses(b: Buf, a: Account)
    requires Keeps(b, a) && b.pos <= b.count
    ensures Passes(b, a, b.(pos := b.count), Took(a, Rest(b)), 0)
  {
    ForwardPasses(b, a, b.count);
  }

  /** A jump inside the last stream. */
  lemma JumpLast(b: Buf, a: Account)
    requires Keeps(b, a) && b.pos <= b.count && b.marks == []
    ensures Balanced(b, a, FinishCurrent, SkipCurrent(b))
  {
    RestPasses(b, a);
    JumpInside(b, a, b.(pos := b.count), Rest(b));
    assert SkipCurrent(b) == (b.(pos := b.count), Dropped(Rest(b), false));
  }

  /** A jump to the next stream. */
  lemma JumpNext(b: Buf, a: Account)
    requires Keeps(b, a) && 0 <= b.pos <= b.count && b.marks != []
    ensures Balanced(b, a, FinishCurrent, SkipCurrent(b))
  {
    RestPasses(b, a);
    JumpOn(b, a, b.(pos := b.count), Rest(b));
    assert SkipCurrent(b) == (ShrinkToNext(b.(pos := b.count)), Dropped(Rest(b), true));
  }

  lemma JumpKeeps(b: Buf, a: Account)
    requires Keeps(b, a) && b.count >= 0
    ensures Balanced(b, a, FinishCurrent, SkipCurrent(b))
  {
    if b.marks == [] {
      JumpLast(b, a);
    } else {
      JumpNext(b, a);
    }
  }

  lemma JumpPasses(b: Buf, a: Account, b0: Buf, a0: Account)
    requires Passes(b, a, b0, a0, 0) && b0.marks != []
    ensures Passes(b, a, ShrinkToNext(b0), WithMark(a0, NoMark), 1)
  {
    NextPasses(b0, a0);
  }

  lemma StepBalanced(b: Buf, a: Account, op: Op)
    requires Keeps(b, a) && Heeds(b, a, op)
    ensures Harmless(b, op) && Balanced(b, a, op, Step(b, op))
  {
    match op {
      case Append(octets) => AppendKeeps(b, a, octets);
      case Finish(markOnly) => FinishKeeps(b, a, markOnly);
      case ReadOne => ReadKeeps(b, a, op, 1);
      case ReadMany(len) => ReadKeeps(b, a, op, len);
      case Skip(n) => SkipKeeps(b, a, n);
      case Mark(limit) => MarkKeeps(b, a, limit);
      case Reset => ResetKeeps(b, a);
      case FinishCurrent => JumpKeeps(b, a);
    }
  }

  // ---------------------------------------------------------------- all runs

  /** The reader heeds its account in every call of the run. */
  ghost predicate Heedful(b: Buf, a: Account, ops: seq<Op>)
    requires Keeps(b, a)
    decreases |ops|
  {
    ops == [] ||
    (Heeds(b, a, ops[0])
     && (StepBalanced(b, a, ops[0]);
         var (b1, out) := Step(b, ops[0]);
         Heedful(b1, Note(a, ops[0], out), ops[1..])))
  }

  /**
   * The FIFO law, for every reader that heeds its account: what it has taken followed by what is
   * unread is what it had taken, then what was unread, then what was appended; and streams ended
   * plus outstanding marks balance the successful finishes.
   */
  lemma {:induction false} FifoLaw(b: Buf, a: Account, ops: seq<Op>)
    requires Keeps(b, a) && Heedful(b, a, ops)
    ensures Careful(b, ops)
    ensures var (b', outs) := RunOps(b, ops);
            && Keeps(b', Tally(a, ops, outs))
            && Total(b', Tally(a, ops, outs)) == Total(b, a) + Appended(ops, outs)
            && Ends(outs) + |b'.marks| == |b.marks| + Closes(ops, outs)
    decreases |ops|
  {
    if ops == [] {
      assert Total(b, a) + [] == Total(b, a);
    } else {
      StepBalanced(b, a, ops[0]);
      var (b1, out) := Step(b, ops[0]);
      var a1 := Note(a, ops[0], out);
      FifoLaw(b1, a1, ops[1..]);
      RunFirst(b, ops);
      var rest := Appended(ops[1..], RunOps(b, ops).1[1..]);
      Associative(Total(b, a), Added(ops[0], out), rest);
    }
  }

  lemma EmptyKeeps()
    ensures Keeps(EMPTY, FRESH)
  {
  }

  /** A run on a new stream by a reader that heeds its account. */
  ghost predicate FromEmpty(ops: seq<Op>) {
    EmptyKeeps(); Heedful(EMPTY, FRESH, ops)
  }

  /** From the empty stream: what was taken followed by what is unread is all that was appended. */
  lemma {:induction false} NothingLost(ops: seq<Op>)
    requires FromEmpty(ops)
    ensures Careful(EMPTY, ops)
    ensures var (b', outs) := RunOps(EMPTY, ops);
            && Taken(Tally(FRESH, ops, outs)) + Unread(b') == Appended(ops, outs)
            && Ends(outs) + |b'.marks| == Closes(ops, outs)
  {
    FifoLaw(EMPTY, FRESH, ops);
    var outs := RunOps(EMPTY, ops).1;
    assert [] + Unread(EMPTY) + Appended(ops, outs) == Appended(ops, outs);
  }
}
