/**
 * The writer's side of a `DynamicByteArrayInputStream`, as a connection uses it, and the proof
 * that what an orderly reader gets from the buffer, stream by stream, is what was written.
 */
module TcpStream {
  import opened Bytes
  import opened StreamBuffer
  import opened StreamFifo
  import opened StreamQueue

  /**
   * The streams closed so far and the one still open.  `calls` are the calls of `append` and
   * `finish` that were made, in order.
   */
  datatype Log = Log(closed: seq<seq<byte>>, open: seq<byte>, finished: bool, calls: seq<Op>)

  const NOTHING := Log([], [], false, [])

  /** Everything ever appended. */
  ghost function Written(l: Log): seq<byte> {
    Concat(l.closed) + l.open
  }

  /** The streams that hold an octet, in order. */
  ghost function Pieces(l: Log): seq<seq<byte>> {
    if l.open == [] then l.closed else l.closed + [l.open]
  }

  /** `finish(markOnly)` */
  function Close(l: Log, markOnly: bool): Log {
    var l1 := if l.open == [] then l else l.(closed := l.closed + [l.open], open := []);
    l1.(finished := l.finished || !markOnly, calls := l.calls + [Finish(markOnly)])
  }

  /** `append(octets)`, which a finished stream refuses */
  function Add(l: Log, octets: seq<byte>): Log {
    var l1 := if l.finished then l else l.(open := l.open + octets);
    l1.(calls := l.calls + [Append(octets)])
  }

  lemma CloseKeeps(l: Log, markOnly: bool)
    ensures Written(Close(l, markOnly)) == Written(l) && Pieces(Close(l, markOnly)) == Pieces(l)
    ensures Close(l, markOnly).open == []
  {
    if l.open != [] {
      ConcatAppend(l.closed, l.open);
    }
  }

  lemma AddExtends(l: Log, octets: seq<byte>)
    ensures Written(Add(l, octets)) == if l.finished then Written(l) else Written(l) + octets
  {
  }

  // ---------------------------------------------------------------- the calls of a writer

  function Perform(l: Log, op: Op): Log {
    match op
    case Append(s) => Add(l, s)
    case Finish(markOnly) => Close(l, markOnly)
    case _ => l
  }

  function Replay(l: Log, calls: seq<Op>): Log
    decreases |calls|
  {
    if calls == [] then l else Replay(Perform(l, calls[0]), calls[1..])
  }

  /** The log is what its calls amount to. */
  ghost predicate Replays(l: Log) {
    Replay(NOTHING, l.calls) == l
  }

  lemma {:induction false} ReplaySnoc(l: Log, calls: seq<Op>, op: Op)
    ensures Replay(l, calls + [op]) == Perform(Replay(l, calls), op)
    decreases |calls|
  {
    if calls == [] {
      assert calls + [op] == [op];
      assert Replay(l, [op]) == Replay(Perform(l, op), []);
    } else {
      assert (calls + [op])[1..] == calls[1..] + [op];
      ReplaySnoc(Perform(l, calls[0]), calls[1..], op);
    }
  }

  lemma CallReplays(l: Log, op: Op)
    requires Replays(l) && (op.Append? || op.Finish?)
    ensures Replays(Perform(l, op)) && Perform(l, op).calls == l.calls + [op]
  {
    ReplaySnoc(NOTHING, l.calls, op);
  }

  // ---------------------------------------------------------------- reader and writer

  /** The calls of the writer, apart from appends that were refused for lack of space. */
  ghost function Effective(ops: seq<Op>, outs: seq<Out>): seq<Op>
    requires |ops| == |outs|
  {
    if ops == [] then []
    else (if Effect(ops[0], outs[0]) then [ops[0]] else []) + Effective(ops[1..], outs[1..])
  }

  ghost predicate Effect(op: Op, out: Out) {
    op.Finish? || (op.Append? && out != Refused(BufferFull))
  }

  /** What one call of a run did to the log. */
  ghost function LogAfter(l: Log, op: Op, out: Out): Log {
    if Effect(op, out) then Perform(l, op) else l
  }

  lemma {:induction false} ReplayEffective(l: Log, ops: seq<Op>, outs: seq<Out>)
    requires |ops| == |outs| && ops != []
    ensures Replay(l, Effective(ops, outs)) == Replay(LogAfter(l, ops[0], outs[0]), Effective(ops[1..], outs[1..]))
  {
    var rest := Effective(ops[1..], outs[1..]);
    assert ([ops[0]] + rest)[1..] == rest;
    assert [] + rest == rest;
  }

  // ---------------------------------------------------------------- a reader that keeps the discipline

  /**
   * How a stream ended for its reader: what it had gone through, and what a jump to the next stream
   * dropped; nothing was dropped if the stream ended by a -1.
   */
  datatype Passage = Passage(had: seq<byte>, dropped: seq<byte>)

  /** The streams a reader has seen end, and its account of the current one. */
  datatype Reader = Reader(ended: seq<Passage>, now: Account)

  const NEWCOMER := Reader([], FRESH)

  /** The streams that ended, with what was dropped of them. */
  ghost function Whole(ended: seq<Passage>): seq<seq<byte>> {
    seq(|ended|, i requires 0 <= i < |ended| => ended[i].had + ended[i].dropped)
  }

  ghost function Hear(r: Reader, op: Op, out: Out): Reader {
    if EndsStream(out) then Reader(r.ended + [Passage(Taken(r.now), if out.Dropped? then out.octets else [])], FRESH)
    else r.(now := Note(r.now, op, out))
  }

  ghost function HearAll(r: Reader, ops: seq<Op>, outs: seq<Out>): Reader
    requires |ops| == |outs|
    decreases |ops|
  {
    if ops == [] then r else HearAll(Hear(r, ops[0], outs[0]), ops[1..], outs[1..])
  }

  /** Streams gone through, the part of the current one, and what is still in the queue. */
  ghost predicate Joins(whole: seq<seq<byte>>, part: seq<byte>, q: Queue, l: Log) {
    && q.finished == l.finished && (q.touched <==> l.open != [])
    && (if q.closed == [] then l.closed == whole && l.open == part + q.open
        else l.closed == whole + [part + q.closed[0]] + q.closed[1..] && l.open == q.open)
  }

  /** The reader and what is still in the queue make up the log. */
  ghost predicate MakesUp(r: Reader, q: Queue, l: Log) {
    Joins(Whole(r.ended), Taken(r.now), q, l) && r.now.mark == q.mark
  }

  /** Nothing but the split of the current stream between reader and queue has changed. */
  lemma SameStream(whole: seq<seq<byte>>, part: seq<byte>, q: Queue, l: Log, part': seq<byte>, s: seq<byte>)
    requires Joins(whole, part, q, l) && part' + s == part + Current(q)
    ensures Joins(whole, part', WithCurrent(q, s), l)
  {
    if q.closed != [] {
      assert WithCurrent(q, s).closed[1..] == q.closed[1..];
    }
  }

  /** Handing out or passing over octets of the current stream. */
  lemma HearOctets(r: Reader, q: Queue, l: Log, op: Op, out: Out, n: nat)
    requires MakesUp(r, q, l) && n <= |Current(q)|
    requires out == Octets(Current(q)[..n]) || (out == Dropped(Current(q)[..n], false))
    ensures MakesUp(Hear(r, op, out), After(q, op, out), l)
  {
    var s := Current(q);
    assert s == s[..n] + s[n..];
    TakenMore(r.now, s[..n]);
    Associative(Taken(r.now), s[..n], s[n..]);
    SameStream(Whole(r.ended), Taken(r.now), q, l, Taken(Took(r.now, s[..n])), s[n..]);
  }

  /** Going back to the mark. */
  lemma HearReset(r: Reader, q: Queue, l: Log)
    requires MakesUp(r, q, l) && q.mark.Live?
    ensures MakesUp(Hear(r, Reset, Accepted(true)), After(q, Reset, Accepted(true)), l)
  {
    Associative(r.now.kept, q.mark.since, Current(q));
    SameStream(Whole(r.ended), Taken(r.now), q, l, r.now.kept, q.mark.since + Current(q));
  }

  /** The end of the current stream, of which a jump drops what was left. */
  lemma HearEnd(r: Reader, q: Queue, l: Log, op: Op, out: Out)
    requires MakesUp(r, q, l) && q.closed != []
    requires (out == EndMark && q.closed[0] == []) || out == Dropped(q.closed[0], true)
    ensures MakesUp(Hear(r, op, out), After(q, op, out), l)
  {
    var whole, ended := Whole(r.ended), Hear(r, op, out).ended;
    assert Whole(ended) == whole + [Taken(r.now) + q.closed[0]];
    StreamEnds(whole, Taken(r.now), q, l);
  }

  lemma StreamEnds(whole: seq<seq<byte>>, part: seq<byte>, q: Queue, l: Log)
    requires Joins(whole, part, q, l) && q.closed != []
    ensures Joins(whole + [part + q.closed[0]], [], NextStream(q), l)
  {
    if |q.closed| > 1 {
      var rest := q.closed[1..];
      assert rest == [rest[0]] + rest[1..];
      assert [] + rest[0] == rest[0];
      assert l.closed == (whole + [part + q.closed[0]]) + [[] + rest[0]] + rest[1..];
    } else {
      assert q.closed[1..] == [];
      assert [] + q.open == q.open;
    }
  }

  lemma WriteClose(r: Reader, q: Queue, l: Log, markOnly: bool)
    requires MakesUp(r, q, l)
    ensures MakesUp(r, After(q, Finish(markOnly), Accepted(q.touched)), Close(l, markOnly))
  {
    if q.touched {
      if q.closed == [] {
        assert [q.open][1..] == [];
      } else {
        assert (q.closed + [q.open])[1..] == q.closed[1..] + [q.open];
      }
    }
  }

  lemma WriteAdd(r: Reader, q: Queue, l: Log, s: seq<byte>)
    requires MakesUp(r, q, l) && s != [] && !q.finished
    ensures MakesUp(Hear(r, Append(s), Accepted(true)), After(q, Append(s), Accepted(true)), Add(l, s))
  {
    assert Taken(r.now) + (q.open + s) == (Taken(r.now) + q.open) + s;
  }

  lemma WriteAppend(r: Reader, q: Queue, l: Log, s: seq<byte>, out: Out)
    requires MakesUp(r, q, l) && s != [] && Allowed(q, Append(s), out)
    ensures MakesUp(Hear(r, Append(s), out), After(q, Append(s), out), LogAfter(l, Append(s), out))
  {
    if out.Accepted? {
      WriteAdd(r, q, l, s);
    }
  }

  lemma HearMark(r: Reader, q: Queue, l: Log, limit: int)
    requires MakesUp(r, q, l)
    ensures MakesUp(Hear(r, Mark(limit), Accepted(true)), After(q, Mark(limit), Accepted(true)), l)
  {
    MarkTakesNothing(r.now, limit);
  }

  lemma OneCall(r: Reader, q: Queue, l: Log, op: Op, out: Out)
    requires MakesUp(r, q, l) && Allowed(q, op, out) && Orderly(q, op)
    ensures MakesUp(Hear(r, op, out), After(q, op, out), LogAfter(l, op, out))
  {
    match op {
      case Append(octets) => WriteAppend(r, q, l, octets, out);
      case Finish(markOnly) => WriteClose(r, q, l, markOnly);
      case Mark(limit) => HearMark(r, q, l, limit);
      case Reset =>
        if q.mark.Live? {
          HearReset(r, q, l);
        }
      case _ => OneRead(r, q, l, op, out);
    }
  }

  /** A read, a skip or a jump. */
  lemma OneRead(r: Reader, q: Queue, l: Log, op: Op, out: Out)
    requires MakesUp(r, q, l) && Allowed(q, op, out)
    requires op.ReadOne? || op.ReadMany? || op.Skip? || op.FinishCurrent?
    ensures MakesUp(Hear(r, op, out), After(q, op, out), l)
  {
    if EndsStream(out) {
      HearEnd(r, q, l, op, out);
    } else if out.Octets? {
      HearOctets(r, q, l, op, out, |out.octets|);
    } else if out.Dropped? {
      assert Current(q)[..|Current(q)|] == Current(q);
      HearOctets(r, q, l, op, out, |Current(q)|);
    }
  }

  /**
   * Over every disciplined run of a writer and a reader: each stream the reader has seen end is a
   * stream the writer closed, in order, less what the reader itself dropped of it; and what it has
   * gone through of the next one, with what is still in the buffer, makes up the rest of what was
   * written.  In particular `finish` succeeds exactly if something was written since the last one,
   * whatever was read meanwhile.
   */
  lemma {:induction false} ReaderGetsTheLog(ops: seq<Op>)
    requires OrderlyRun(ops)
    ensures var (b', q', outs) := RunOrderly(ops);
            MakesUp(HearAll(NEWCOMER, ops, outs), q', Replay(NOTHING, Effective(ops, outs)))
  {
    EmptyStands();
    assert Whole([]) == [];
    LogFollows(EMPTY, NO_STREAM, NEWCOMER, NOTHING, ops);
  }

  lemma {:induction false} LogFollows(b: Buf, q: Queue, r: Reader, l: Log, ops: seq<Op>)
    requires Stands(b, q) && Disciplined(b, q, ops) && MakesUp(r, q, l)
    ensures var (b', q', outs) := RunAll(b, q, ops);
            MakesUp(HearAll(r, ops, outs), q', Replay(l, Effective(ops, outs)))
    decreases |ops|
  {
    if ops != [] {
      StepRefines(b, q, ops[0]);
      var (b1, out) := Step(b, ops[0]);
      var outs := RunAll(b, q, ops).2;
      OneCall(r, q, l, ops[0], out);
      LogFollows(b1, After(q, ops[0], out), Hear(r, ops[0], out), LogAfter(l, ops[0], out), ops[1..]);
      ReplayEffective(l, ops, outs);
      assert outs[1..] == RunAll(b1, After(q, ops[0], out), ops[1..]).2;
    }
  }

  // ---------------------------------------------------------------- any reader

  /** What was appended in a run is what the log gained, whoever reads meanwhile. */
  lemma {:induction false} AppendedIsWritten(b: Buf, l: Log, ops: seq<Op>)
    requires Sane(b) && Careful(b, ops) && l.finished == b.finished
    ensures var (b', outs) := RunOps(b, ops);
            Written(Replay(l, Effective(ops, outs))) == Written(l) + Appended(ops, outs)
    decreases |ops|
  {
    if ops == [] {
      assert Written(l) + [] == Written(l);
    } else {
      RunFirst(b, ops);
      var (b1, out) := Step(b, ops[0]);
      OneAppended(b, l, ops[0]);
      AppendedIsWritten(b1, LogAfter(l, ops[0], out), ops[1..]);
      AppendedFirst(l, ops, RunOps(b, ops).1);
    }
  }

  lemma {:induction false} AppendedFirst(l: Log, ops: seq<Op>, outs: seq<Out>)
    requires ops != [] && |ops| == |outs|
    requires var l1 := LogAfter(l, ops[0], outs[0]);
             && Written(l1) == Written(l) + Added(ops[0], outs[0])
             && Written(Replay(l1, Effective(ops[1..], outs[1..]))) == Written(l1) + Appended(ops[1..], outs[1..])
    ensures Written(Replay(l, Effective(ops, outs))) == Written(l) + Appended(ops, outs)
  {
    ReplayEffective(l, ops, outs);
    Regrouped(Written(l), Added(ops[0], outs[0]), Appended(ops[1..], outs[1..]));
  }

  lemma Regrouped(a: seq<byte>, b: seq<byte>, c: seq<byte>)
    ensures a + b + c == a + (b + c)
  {
  }

  lemma OneAppended(b: Buf, l: Log, op: Op)
    requires Sane(b) && l.finished == b.finished
    ensures var (b1, out) := Step(b, op);
            var l1 := LogAfter(l, op, out);
            && l1.finished == b1.finished
            && Written(l1) == Written(l) + Added(op, out)
  {
    assert Written(l) + [] == Written(l);
    match op {
      case Append(octets) => AddExtends(l, octets);
      case Finish(markOnly) => CloseKeeps(l, markOnly);
      case _ =>
    }
  }

  /**
   * Over every interleaving of a writer and a reader that heeds its account, without any discipline
   * between the two: what the reader has gone through followed by what is still in the buffer is
   * what the writer wrote.
   */
  lemma {:induction false} AnyReaderGetsTheLog(ops: seq<Op>)
    requires FromEmpty(ops)
    ensures Careful(EMPTY, ops)
    ensures var (b', outs) := RunOps(EMPTY, ops);
            Taken(Tally(FRESH, ops, outs)) + Unread(b') == Written(Replay(NOTHING, Effective(ops, outs)))
  {
    NothingLost(ops);
    var outs := RunOps(EMPTY, ops).1;
    assert Written(Replay(NOTHING, Effective(ops, outs))) == Appended(ops, outs) by {
      AppendedIsWritten(EMPTY, NOTHING, ops);
      assert Written(NOTHING) + Appended(ops, outs) == Appended(ops, outs);
    }
  }

  // ---------------------------------------------------------------- streams that always fit

  ghost predicate NeverFull(outs: seq<Out>) {
    forall i :: 0 <= i < |outs| ==> outs[i] != Refused(BufferFull)
  }

  /** The calls of the writer in a run, whatever they were answered. */
  ghost function Writes(ops: seq<Op>): seq<Op> {
    if ops == [] then []
    else (if ops[0].Append? || ops[0].Finish? then [ops[0]] else []) + Writes(ops[1..])
  }

  /** How many octets the writer offers in all. */
  ghost function Offered(ops: seq<Op>): nat {
    if ops == [] then 0 else (if ops[0].Append? then |ops[0].octets| else 0) + Offered(ops[1..])
  }

  lemma {:induction false} WritesAreEffective(ops: seq<Op>, outs: seq<Out>)
    requires |ops| == |outs| && NeverFull(outs)
    ensures Effective(ops, outs) == Writes(ops)
  {
    if ops != [] {
      assert outs[0] != Refused(BufferFull);
      assert NeverFull(outs[1..]) by {
        assert forall i :: 0 <= i < |outs[1..]| ==> outs[1..][i] == outs[i + 1];
      }
      WritesAreEffective(ops[1..], outs[1..]);
    }
  }

  lemma PerformGrows(l: Log, op: Op)
    ensures Written(l) <= Written(Perform(l, op))
  {
    match op {
      case Append(s) => AddExtends(l, s);
      case Finish(markOnly) => CloseKeeps(l, markOnly);
      case _ =>
    }
  }

  lemma {:induction false} ReplayGrows(l: Log, calls: seq<Op>)
    ensures Written(l) <= Written(Replay(l, calls))
    decreases |calls|
  {
    if calls != [] {
      PerformGrows(l, calls[0]);
      ReplayGrows(Perform(l, calls[0]), calls[1..]);
    }
  }

  /** What the writer's first call of a run leaves to the others. */
  ghost function LogOnward(l: Log, op: Op): Log {
    if op.Append? || op.Finish? then Perform(l, op) else l
  }

  lemma {:induction false} ReplayWrites(l: Log, ops: seq<Op>)
    requires ops != []
    ensures Replay(l, Writes(ops)) == Replay(LogOnward(l, ops[0]), Writes(ops[1..]))
  {
    var rest := Writes(ops[1..]);
    assert ([ops[0]] + rest)[1..] == rest;
    assert [] + rest == rest;
  }

  /** The buffer holds no more than what was written. */
  ghost predicate NoLarger(b: Buf, l: Log) {
    Sane(b) && l.finished == b.finished && |b.data| <= |Written(l)|
  }

  lemma AppendNoLarger(b: Buf, l: Log, octets: seq<byte>)
    requires NoLarger(b, l) && (!l.finished ==> |Written(l)| + |octets| <= 2048000)
    ensures var (b1, out) := AppendTo(b, octets);
            out != Refused(BufferFull) && (Sane(b1) ==> NoLarger(b1, Add(l, octets)))
  {
    AddExtends(l, octets);
    if !b.finished {
      FullIff(b, octets);
    }
  }

  lemma OtherNoLarger(b: Buf, l: Log, op: Op)
    requires NoLarger(b, l) && !op.Append?
    ensures var (b1, out) := Step(b, op);
            out != Refused(BufferFull) && (Sane(b1) ==> NoLarger(b1, LogOnward(l, op)))
  {
    if op.Finish? {
      CloseKeeps(l, op.markOnly);
    }
  }

  lemma {:induction false} ShortRun(b: Buf, l: Log, ops: seq<Op>)
    requires NoLarger(b, l) && Careful(b, ops) && |Written(Replay(l, Writes(ops)))| <= 2048000
    ensures NeverFull(RunOps(b, ops).1)
    decreases |ops|
  {
    if ops != [] {
      RunFirst(b, ops);
      ReplayWrites(l, ops);
      var outs, l1 := RunOps(b, ops).1, LogOnward(l, ops[0]);
      ReplayGrows(l1, Writes(ops[1..]));
      if ops[0].Append? {
        AddExtends(l, ops[0].octets);
        AppendNoLarger(b, l, ops[0].octets);
      } else {
        OtherNoLarger(b, l, ops[0]);
      }
      ShortRun(Step(b, ops[0]).0, l1, ops[1..]);
      forall i | 0 <= i < |outs| ensures outs[i] != Refused(BufferFull) {
        if i > 0 {
          assert outs[i] == outs[1..][i - 1];
        }
      }
    }
  }

  lemma {:induction false} WrittenIsOffered(l: Log, ops: seq<Op>)
    ensures |Written(Replay(l, Writes(ops)))| <= |Written(l)| + Offered(ops)
    decreases |ops|
  {
    if ops != [] {
      ReplayWrites(l, ops);
      WrittenIsOffered(LogOnward(l, ops[0]), ops[1..]);
      match ops[0] {
        case Append(s) => AddExtends(l, s);
        case Finish(markOnly) => CloseKeeps(l, markOnly);
        case _ =>
      }
    }
  }

  /**
   * Over every run from the empty stream in which at most 2048000 octets are appended in all, whatever
   * the reader does, no append is refused for lack of space.
   */
  lemma {:induction false} ShortNeverFull(ops: seq<Op>)
    requires Careful(EMPTY, ops) && Offered(ops) <= 2048000
    ensures NeverFull(RunOps(EMPTY, ops).1)
  {
    WrittenIsOffered(NOTHING, ops);
    ShortRun(EMPTY, NOTHING, ops);
  }

  /** A disciplined run is a run. */
  lemma {:induction false} DisciplinedRun(b: Buf, q: Queue, ops: seq<Op>)
    requires Stands(b, q) && Disciplined(b, q, ops)
    ensures Careful(b, ops) && RunOps(b, ops) == (RunAll(b, q, ops).0, RunAll(b, q, ops).2)
    decreases |ops|
  {
    if ops != [] {
      StepRefines(b, q, ops[0]);
      var (b1, out) := Step(b, ops[0]);
      DisciplinedRun(b1, After(q, ops[0], out), ops[1..]);
      StepSane(b, ops[0]);
    }
  }
}
