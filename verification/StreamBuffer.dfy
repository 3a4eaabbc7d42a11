/**
 * `com.mexhee.io.DynamicByteArrayInputStream` on values: one byte string with a read position,
 * a limit and end-of-stream marks stands for a queue of streams.  Each public call is a function
 * from a buffer to a buffer; the class in DynamicStream.dfy is proved against these functions.
 */
module StreamBuffer {
  import opened Bytes

  const MAX_BUFFER_SIZE: nat := 2000 * 1024

  /**
   * `data` is `buf[..bufferSize]`; `marks` are the end positions of the closed streams (their
   * times are left out).  Positions are `int`: a shift may carry a mark below zero.
   */
  datatype Buf = Buf(
    data: seq<byte>,
    pos: int,
    count: int,
    marks: seq<int>,
    finished: bool,
    readLimit: int,
    markedPos: int)

  const EMPTY := Buf([], 0, 0, [], false, -1, -1)

  datatype Refusal = AlreadyFinished | BufferFull | NoMarkSet | OutOfRange

  /** What a call answers. */
  datatype Out =
    | Octets(octets: seq<byte>)   // read or skipped
    | EndMark                     // -1, and the next stream becomes current
    | EndAll                      // -1, the whole stream is finished
    | Starved                     // a blocking read waits, a non-blocking one answers -1
    | Dropped(octets: seq<byte>, next: bool)   // what a jump passed over; `next`: to the next stream
    | Accepted(ok: bool)
    | Refused(why: Refusal)

  datatype Op =
    | Append(octets: seq<byte>)
    | Finish(markOnly: bool)
    | ReadOne
    | ReadMany(len: nat)
    | Skip(n: int)
    | Mark(limit: int)
    | Reset
    | FinishCurrent

  /** The marks rise strictly, up to `limit` at most. */
  ghost predicate Rising(marks: seq<int>, limit: int) {
    marks == [] || (marks[0] <= limit && (|marks| > 1 ==> marks[0] < marks[1]) && Rising(marks[1..], limit))
  }

  /** Position, limit and marks are consistent. */
  ghost predicate Sane(b: Buf) {
    && 0 <= b.pos <= |b.data|
    && b.count <= |b.data|
    && Rising(b.marks, |b.data|)
    && (b.marks == [] ==> b.count == |b.data|)
    && (b.marks != [] ==> b.marks[0] <= b.count)
    && -1 <= b.markedPos
  }

  /** The octets not yet read. */
  ghost function Unread(b: Buf): seq<byte> {
    if 0 <= b.pos <= |b.data| then b.data[b.pos..] else []
  }

  function Shift(marks: seq<int>, delta: int): (r: seq<int>)
    ensures |r| == |marks|
    ensures forall i :: 0 <= i < |r| ==> r[i] == marks[i] - delta
  {
    seq(|marks|, i requires 0 <= i < |marks| => marks[i] - delta)
  }

  // ---------------------------------------------------------------- append

  /** The mark set by `mark(k)` still protects what was read since. */
  predicate Protected(b: Buf) {
    b.markedPos >= 0 && b.pos - b.markedPos <= b.readLimit
  }

  function AppendOnly(b: Buf, octets: seq<byte>): Buf {
    var data := b.data + octets;
    b.(data := data, count := if b.count == 0 || b.marks == [] then |data| else b.count)
  }

  function AppendAndShrink(b: Buf, octets: seq<byte>): Buf
    requires 0 <= b.pos <= |b.data|
  {
    var data := b.data[b.pos..] + octets;
    var count := b.count - b.pos;
    b.(data := data, pos := 0, marks := Shift(b.marks, b.pos),
       count := if count == 0 || b.marks == [] then |data| else count)
  }

  function AppendTo(b: Buf, octets: seq<byte>): (Buf, Out)
    requires 0 <= b.pos <= |b.data|
  {
    if b.finished then (b, Refused(AlreadyFinished))
    else if Protected(b) then
      if |b.data| + |octets| > MAX_BUFFER_SIZE then (b, Refused(BufferFull))
      else (AppendOnly(b, octets), Accepted(true))
    else
      if |b.data| - b.pos + |octets| > MAX_BUFFER_SIZE then (b, Refused(BufferFull))
      else (AppendAndShrink(b, octets), Accepted(true))
  }

  // ---------------------------------------------------------------- finish

  predicate CanMark(b: Buf) {
    |b.data| > 0 && (b.marks == [] || b.marks[|b.marks| - 1] != |b.data|)
  }

  function FinishAt(b: Buf, markOnly: bool): (Buf, Out) {
    var b1 := if CanMark(b) then b.(marks := b.marks + [|b.data|]) else b;
    (b1.(finished := b.finished || !markOnly), Accepted(CanMark(b)))
  }

  // ---------------------------------------------------------------- reading

  function ShrinkToNext(b: Buf): Buf
    requires 0 <= b.pos <= |b.data|
  {
    if b.marks == [] then b
    else
      var data, marks := b.data[b.pos..], Shift(b.marks[1..], b.pos);
      b.(data := data, marks := marks, pos := 0, markedPos := -1,
         count := if marks != [] then marks[0] else |data|)
  }

  /** A read that finds nothing before `count`. */
  function AtEnd(b: Buf): (Buf, Out)
    requires 0 <= b.pos <= |b.data|
  {
    if b.marks != [] && b.pos >= b.marks[0] then (ShrinkToNext(b), EndMark)
    else if b.marks == [] && b.finished then (b, EndAll)
    else (b, Starved)
  }

  /** `read()` is this with len 1. */
  function ReadUpTo(b: Buf, len: nat): (Buf, Out)
    requires 0 <= b.pos <= |b.data| && b.count <= |b.data|
  {
    if b.pos >= b.count then AtEnd(b)
    else
      var n := Min(len, b.count - b.pos);
      (b.(pos := b.pos + n), Octets(b.data[b.pos..b.pos + n]))
  }

  function SkipOver(b: Buf, n: int): (Buf, Out)
    requires 0 <= b.pos <= |b.data| && b.count <= |b.data|
  {
    var m := if b.pos + n > b.count then b.count - b.pos else n;
    if m < 0 then (b, Octets([]))
    else (b.(pos := b.pos + m), Octets(b.data[b.pos..b.pos + m]))
  }

  function MarkAt(b: Buf, limit: int): Buf {
    if limit > 0 then b.(readLimit := limit, markedPos := b.pos) else b
  }

  /** `reset()`; None is the IOException for a missing mark. */
  function ResetTo(b: Buf): Option<Buf> {
    if b.markedPos == -1 then None else Some(b.(pos := b.markedPos, markedPos := -1))
  }

  function ResetCall(b: Buf): (Buf, Out) {
    if ResetTo(b).None? then (b, Refused(NoMarkSet)) else (ResetTo(b).value, Accepted(true))
  }

  /**
   * `finishCurrentInputStream()`.  With a negative limit the read position is set to it before the
   * copy of the rest of the buffer is refused.
   */
  function SkipCurrent(b: Buf): (Buf, Out)
    requires 0 <= b.pos <= |b.data| && b.count <= |b.data|
  {
    var b1 := b.(pos := b.count);
    var rest := if b.pos <= b.count then b.data[b.pos..b.count] else [];
    if b.marks == [] then (b1, Dropped(rest, false))
    else if b.count < 0 then (b1, Refused(OutOfRange))
    else (ShrinkToNext(b1), Dropped(rest, true))
  }

  // ---------------------------------------------------------------- runs

  function Step(b: Buf, op: Op): (Buf, Out)
    requires 0 <= b.pos <= |b.data| && b.count <= |b.data|
  {
    match op
    case Append(octets) => AppendTo(b, octets)
    case Finish(markOnly) => FinishAt(b, markOnly)
    case ReadOne => ReadUpTo(b, 1)
    case ReadMany(len) => ReadUpTo(b, len)
    case Skip(n) => SkipOver(b, n)
    case Mark(limit) => (MarkAt(b, limit), Accepted(true))
    case Reset => ResetCall(b)
    case FinishCurrent => SkipCurrent(b)
  }

  lemma {:induction false} RisingShift(marks: seq<int>, delta: int, limit: int)
    requires Rising(marks, limit)
    ensures Rising(Shift(marks, delta), limit - delta)
  {
    if marks != [] {
      RisingShift(marks[1..], delta, limit);
      assert Shift(marks, delta)[1..] == Shift(marks[1..], delta);
    }
  }

  lemma {:induction false} RisingWiden(marks: seq<int>, limit: int, limit': int)
    requires Rising(marks, limit) && limit <= limit'
    ensures Rising(marks, limit')
  {
    if marks != [] {
      RisingWiden(marks[1..], limit, limit');
    }
  }

  lemma {:induction false} RisingLast(marks: seq<int>, limit: int)
    requires Rising(marks, limit) && marks != []
    ensures marks[0] <= marks[|marks| - 1] <= limit
  {
    if |marks| > 1 {
      RisingLast(marks[1..], limit);
      assert marks[1..][|marks| - 2] == marks[|marks| - 1];
    }
  }

  lemma {:induction false} RisingAppend(marks: seq<int>, limit: int)
    requires Rising(marks, limit) && (marks != [] ==> marks[|marks| - 1] != limit)
    ensures Rising(marks + [limit], limit)
  {
    if marks == [] {
      assert marks + [limit] == [limit];
    } else {
      assert (marks + [limit])[1..] == marks[1..] + [limit];
      if |marks| > 1 {
        assert marks[1..][|marks| - 2] == marks[|marks| - 1];
      }
      RisingAppend(marks[1..], limit);
    }
  }

  lemma ShrinkSane(b: Buf)
    requires Sane(b)
    ensures Sane(ShrinkToNext(b))
  {
    if b.marks != [] {
      RisingShift(b.marks[1..], b.pos, |b.data|);
    }
  }

  lemma AppendSane(b: Buf, octets: seq<byte>)
    requires Sane(b)
    ensures Sane(AppendTo(b, octets).0)
  {
    RisingWiden(b.marks, |b.data|, |b.data| + |octets|);
    RisingShift(b.marks, b.pos, |b.data| + |octets|);
  }

  lemma FinishSane(b: Buf, markOnly: bool)
    requires Sane(b)
    ensures Sane(FinishAt(b, markOnly).0)
  {
    if CanMark(b) {
      RisingAppend(b.marks, |b.data|);
    }
  }

  lemma ReadSane(b: Buf, len: nat)
    requires Sane(b)
    ensures Sane(ReadUpTo(b, len).0)
  {
    ShrinkSane(b);
  }

  lemma SkipCurrentSane(b: Buf)
    requires Sane(b) && b.count >= 0
    ensures Sane(SkipCurrent(b).0)
  {
    ShrinkSane(b.(pos := b.count));
  }

  /**
   * What a caller of `reset` and `finishCurrentInputStream` has to see to: the marked position is
   * still inside the buffer, and the limit is not negative.
   */
  predicate Harmless(b: Buf, op: Op) {
    (op.Reset? ==> b.markedPos <= |b.data|) && (op.FinishCurrent? ==> b.count >= 0)
  }

  lemma StepSane(b: Buf, op: Op)
    requires Sane(b) && Harmless(b, op)
    ensures Sane(Step(b, op).0)
  {
    match op {
      case Append(octets) => AppendSane(b, octets);
      case Finish(markOnly) => FinishSane(b, markOnly);
      case ReadOne => ReadSane(b, 1);
      case ReadMany(len) => ReadSane(b, len);
      case Skip(_) =>
      case Mark(_) =>
      case Reset =>
      case FinishCurrent => SkipCurrentSane(b);
    }
  }

  /**
   * Which calls keep position, limit and marks consistent: all of them, except a `reset` to a
   * position that an append has dropped and a jump to the next stream at a negative limit.
   */
  lemma StepSaneIff(b: Buf, op: Op)
    requires Sane(b)
    ensures Sane(Step(b, op).0) <==> Harmless(b, op)
  {
    if Harmless(b, op) {
      StepSane(b, op);
    }
  }

  /** For instance: mark(1) after two octets, two more read, one appended; then the reset. */
  lemma ResetOutOfRange()
    ensures var b := AppendTo(EMPTY, [1, 2, 3, 4]).0;
            var marked := MarkAt(ReadUpTo(b, 2).0, 1);
            var b1 := AppendTo(ReadUpTo(marked, 2).0, [9]).0;
            Sane(b1) && ResetTo(b1).Some? && !Sane(ResetTo(b1).value)
  {
    var b := AppendTo(EMPTY, [1, 2, 3, 4]).0;
    assert b == Buf([1, 2, 3, 4], 0, 4, [], false, -1, -1);
    var marked := MarkAt(ReadUpTo(b, 2).0, 1);
    assert marked == Buf([1, 2, 3, 4], 2, 4, [], false, 1, 2);
    var read := ReadUpTo(marked, 2).0;
    assert read == Buf([1, 2, 3, 4], 4, 4, [], false, 1, 2);
    assert [1, 2, 3, 4][4..] + [9] == [9];
    assert AppendTo(read, [9]).0 == Buf([9], 0, 1, [], false, 1, 2);
  }

  /** A buffer without a reader's mark. */
  function Unmarked(data: seq<byte>, pos: int, count: int, marks: seq<int>): Buf {
    Buf(data, pos, count, marks, false, -1, -1)
  }

  /** The call leads from one consistent buffer to the next. */
  ghost predicate Leads(b: Buf, op: Op, b1: Buf) {
    Sane(b) && Step(b, op).0 == b1
  }

  lemma HastyStart()
    ensures Leads(EMPTY, Append([1]), Unmarked([1], 0, 1, []))
    ensures Leads(Unmarked([1], 0, 1, []), Finish(true), Unmarked([1], 0, 1, [1]))
    ensures Leads(Unmarked([1], 0, 1, [1]), ReadOne, Unmarked([1], 1, 1, [1]))
  {
  }

  lemma HastyMiddle()
    ensures Leads(Unmarked([1], 1, 1, [1]), Append([2]), Unmarked([2], 0, 1, [0]))
    ensures Leads(Unmarked([2], 0, 1, [0]), Finish(true), Unmarked([2], 0, 1, [0, 1]))
    ensures Leads(Unmarked([2], 0, 1, [0, 1]), ReadOne, Unmarked([2], 1, 1, [0, 1]))
  {
    assert Shift([1], 1) == [0] && [1][1..] + [2] == [2];
    assert [0, 1][1..] == [1];
  }

  lemma HastyEnd()
    ensures Leads(Unmarked([2], 1, 1, [0, 1]), Append([3]), Unmarked([3], 0, 1, [-1, 0]))
    ensures Leads(Unmarked([3], 0, 1, [-1, 0]), ReadOne, Unmarked([3], 1, 1, [-1, 0]))
    ensures Leads(Unmarked([3], 1, 1, [-1, 0]), ReadOne, Unmarked([], 0, -1, [-1]))
  {
    assert Shift([0, 1], 1) == [-1, 0] && [2][1..] + [3] == [3];
    assert [-1, 0][1..] == [0] && [0, 1][1..] == [1];
    assert Shift([-1, 0][1..], 1) == [-1] && [3][1..] == [];
  }

  /**
   * Ordinary calls of a writer and a reader that never waits for its -1 lead to a negative limit,
   * at which the jump to the next stream throws.
   */
  lemma NegativeLimit()
    ensures Leads(EMPTY, Append([1]), Unmarked([1], 0, 1, []))
    ensures Leads(Unmarked([1], 0, 1, []), Finish(true), Unmarked([1], 0, 1, [1]))
    ensures Leads(Unmarked([1], 0, 1, [1]), ReadOne, Unmarked([1], 1, 1, [1]))
    ensures Leads(Unmarked([1], 1, 1, [1]), Append([2]), Unmarked([2], 0, 1, [0]))
    ensures Leads(Unmarked([2], 0, 1, [0]), Finish(true), Unmarked([2], 0, 1, [0, 1]))
    ensures Leads(Unmarked([2], 0, 1, [0, 1]), ReadOne, Unmarked([2], 1, 1, [0, 1]))
    ensures Leads(Unmarked([2], 1, 1, [0, 1]), Append([3]), Unmarked([3], 0, 1, [-1, 0]))
    ensures Leads(Unmarked([3], 0, 1, [-1, 0]), ReadOne, Unmarked([3], 1, 1, [-1, 0]))
    ensures Leads(Unmarked([3], 1, 1, [-1, 0]), ReadOne, Unmarked([], 0, -1, [-1]))
    ensures SkipCurrent(Unmarked([], 0, -1, [-1])).1 == Refused(OutOfRange)
  {
    HastyStart();
    HastyMiddle();
    HastyEnd();
  }

  /**
   * An append to an unfinished stream is refused for space exactly if the octets that stay, all of
   * them under a protecting mark and the unread ones otherwise, and the new ones are more than
   * 2048000.
   */
  lemma FullIff(b: Buf, octets: seq<byte>)
    requires Sane(b) && !b.finished
    ensures AppendTo(b, octets).1 == Refused(BufferFull) <==>
            (if Protected(b) then |b.data| else |Unread(b)|) + |octets| > 2048000
    ensures AppendTo(b, octets).1 in {Refused(BufferFull), Accepted(true)}
  {
  }

  /** A read never waits while an end-of-stream mark is outstanding. */
  lemma NoWaitAtMark(b: Buf, len: nat)
    requires Sane(b) && b.marks != []
    ensures !ReadUpTo(b, len).1.Starved?
  {
  }
}
