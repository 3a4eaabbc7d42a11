/**
 * `DynamicByteArrayInputStream` as a queue of byte streams: the abstract queue, the discipline
 * under which the buffer refines it, and the proof for all runs.
 */
module StreamQueue {
  import opened Bytes
  import opened StreamBuffer
  import opened StreamFifo

  /**
   * `closed` are the unread parts of the streams that have been finished, the current one first;
   * `open` is the unread part of the stream still being written; `touched` tells whether an octet
   * was appended since the last close; `mark` is the reader's mark, and `room` what decides
   * whether more octets fit.
   */
  datatype Queue = Queue(
    closed: seq<seq<byte>>,
    open: seq<byte>,
    touched: bool,
    finished: bool,
    mark: Bookmark,
    room: Room)

  /**
   * `kept` octets that were read are still stored; if a mark is set, the reader is `lead` octets
   * past the position it stands for, and `limit` is its limit.
   */
  datatype Room = Room(kept: int, marked: bool, lead: int, limit: int)

  const NO_ROOM_TAKEN := Room(0, false, 0, 0)

  /** The mark keeps an append from dropping what was read. */
  predicate Guarded(r: Room) {
    r.marked && r.lead <= r.limit
  }

  ghost function Passed(r: Room, n: int): Room {
    r.(kept := r.kept + n, lead := if r.marked then r.lead + n else 0)
  }

  ghost function RoomAfterAppend(r: Room): Room {
    if Guarded(r) then r else r.(kept := 0, lead := if r.marked then r.lead - r.kept else 0)
  }

  /** The octets still to be read, over all streams. */
  ghost function Volume(q: Queue): nat {
    |Concat(q.closed)| + |q.open|
  }

  /** The octets that an append finds in its way. */
  ghost function Filled(q: Queue): int {
    Volume(q) + (if Guarded(q.room) then q.room.kept else 0)
  }

  ghost function Current(q: Queue): seq<byte> {
    if q.closed != [] then q.closed[0] else q.open
  }

  ghost function WithCurrent(q: Queue, s: seq<byte>): Queue {
    if q.closed != [] then q.(closed := [s] + q.closed[1..]) else q.(open := s)
  }

  // ---------------------------------------------------------------- the specification

  ghost function ReadAnswer(q: Queue, len: nat): Out {
    if Current(q) != [] then Octets(Current(q)[..Min(len, |Current(q)|)])
    else if q.closed != [] then EndMark
    else if q.finished then EndAll
    else Starved
  }

  /** The answers a queue of streams gives. */
  ghost predicate Allowed(q: Queue, op: Op, out: Out) {
    match op
    case Append(_) => if q.finished then out == Refused(AlreadyFinished)
                      else out == if Filled(q) + |op.octets| > 2048000 then Refused(BufferFull) else Accepted(true)
    case Finish(_) => out == Accepted(q.touched)
    case ReadOne => out == ReadAnswer(q, 1)
    case ReadMany(len) => out == ReadAnswer(q, len)
    case Skip(n) => out == Octets(Current(q)[..Min(if n < 0 then 0 else n, |Current(q)|)])
    case Mark(_) => out == Accepted(true)
    case Reset => out == if q.mark.NoMark? then Refused(NoMarkSet) else Accepted(true)
    case FinishCurrent => out == Dropped(Current(q), q.closed != [])
  }

  /** The queue after a call that was answered so. */
  ghost function After(q: Queue, op: Op, out: Out): Queue {
    match out
    case Octets(s) => Advanced(q, s)
    case Dropped(s, next) => if next then NextStream(q) else Advanced(q, s)
    case EndMark => NextStream(q)
    case EndAll => q
    case Starved => q
    case Refused(_) => q
    case Accepted(ok) =>
      match op
      case Append(s) => q.(open := q.open + s, touched := true, mark := AfterAppend(q.mark), room := RoomAfterAppend(q.room))
      case Finish(markOnly) =>
        var q1 := if ok then q.(closed := q.closed + [q.open], open := [], touched := false) else q;
        q1.(finished := q.finished || !markOnly)
      case Mark(limit) => if limit > 0 then q.(mark := Live(limit, []), room := Room(q.room.kept, true, 0, limit)) else q
      case Reset => if q.mark.Live? then WentBack(q) else q
      case _ => q
  }

  ghost function NextStream(q: Queue): Queue {
    q.(closed := if q.closed == [] then [] else q.closed[1..], mark := NoMark, room := NO_ROOM_TAKEN)
  }

  /** Octets of the current stream were taken. */
  ghost function Advanced(q: Queue, s: seq<byte>): Queue {
    WithCurrent(q, Current(q)[Min(|s|, |Current(q)|)..]).(mark := Take(q.mark, s), room := Passed(q.room, |s|))
  }

  /** What was taken since the mark is put back. */
  ghost function WentBack(q: Queue): Queue
    requires q.mark.Live?
  {
    WithCurrent(q, q.mark.since + Current(q)).(mark := NoMark, room := Room(q.room.kept - |q.mark.since|, false, 0, 0))
  }

  ghost predicate QRun(q: Queue, ops: seq<Op>, outs: seq<Out>, q': Queue)
    requires |ops| == |outs|
    decreases |ops|
  {
    if ops == [] then q' == q
    else Allowed(q, ops[0], outs[0]) && QRun(After(q, ops[0], outs[0]), ops[1..], outs[1..], q')
  }

  // ---------------------------------------------------------------- the abstraction

  ghost predicate Ascending(from: int, marks: seq<int>, limit: int) {
    0 <= from <= (if marks == [] then limit else marks[0]) && Rising(marks, limit)
  }

  /** The closed streams: `data` from `from` on, cut at the marks. */
  ghost function Cut(data: seq<byte>, from: int, marks: seq<int>): seq<seq<byte>>
    requires Ascending(from, marks, |data|)
    decreases |marks|
  {
    if marks == [] then [] else [data[from..marks[0]]] + Cut(data, marks[0], marks[1..])
  }

  /** The open stream: what lies behind the last mark. */
  ghost function Tail(data: seq<byte>, from: int, marks: seq<int>): seq<byte>
    requires Ascending(from, marks, |data|)
    decreases |marks|
  {
    if marks == [] then data[from..] else Tail(data, marks[0], marks[1..])
  }

  /** The invariant of a disciplined buffer: no stream boundary lies behind the reader. */
  ghost predicate Strong(b: Buf) {
    && Sane(b)
    && b.pos <= b.count
    && (b.marks != [] ==> b.count == b.marks[0] > 0)
  }

  ghost function RoomOf(b: Buf): Room {
    if b.markedPos < 0 then Room(b.pos, false, 0, 0) else Room(b.pos, true, b.pos - b.markedPos, b.readLimit)
  }

  ghost function Abs(b: Buf, m: Bookmark): Queue
    requires Strong(b)
  {
    Queue(Cut(b.data, b.pos, b.marks), Tail(b.data, b.pos, b.marks), CanMark(b), b.finished, m, RoomOf(b))
  }

  /** The buffer stands for the queue. */
  ghost predicate Stands(b: Buf, q: Queue) {
    Strong(b) && Marked(b, q.mark) && q == Abs(b, q.mark)
  }

  /**
   * The discipline: appended arrays are not empty; an append that drops what was read does not
   * come between the last octet of a closed stream and the -1 that ends it; and a reset is not
   * asked for once its mark is spent.
   */
  ghost predicate Orderly(q: Queue, op: Op) {
    && (op.Append? ==>
          && op.octets != []
          && ((q.mark.Live? && |q.mark.since| <= q.mark.limit) || q.closed == [] || q.closed[0] != []))
    && (op.Reset? ==> !q.mark.Spent?)
  }

  // ---------------------------------------------------------------- cutting

  lemma {:induction false} CutExtend(data: seq<byte>, more: seq<byte>, from: int, marks: seq<int>)
    requires Ascending(from, marks, |data|)
    ensures Ascending(from, marks, |data + more|)
    ensures Cut(data + more, from, marks) == Cut(data, from, marks)
    ensures Tail(data + more, from, marks) == Tail(data, from, marks) + more
    decreases |marks|
  {
    RisingWiden(marks, |data|, |data + more|);
    if marks != [] {
      CutExtend(data, more, marks[0], marks[1..]);
      assert (data + more)[from..marks[0]] == data[from..marks[0]];
    } else {
      assert (data + more)[from..] == data[from..] + more;
    }
  }

  lemma {:induction false} CutShift(data: seq<byte>, p: int, from: int, marks: seq<int>)
    requires 0 <= p <= from && Ascending(from, marks, |data|) && p <= |data|
    ensures Ascending(from - p, Shift(marks, p), |data| - p)
    ensures Cut(data[p..], from - p, Shift(marks, p)) == Cut(data, from, marks)
    ensures Tail(data[p..], from - p, Shift(marks, p)) == Tail(data, from, marks)
    decreases |marks|
  {
    RisingShift(marks, p, |data|);
    if marks != [] {
      CutShift(data, p, marks[0], marks[1..]);
      assert Shift(marks, p)[1..] == Shift(marks[1..], p);
      assert data[p..][from - p..marks[0] - p] == data[from..marks[0]];
    } else {
      assert data[p..][from - p..] == data[from..];
    }
  }

  lemma {:induction false} CutLast(data: seq<byte>, from: int, marks: seq<int>)
    requires Ascending(from, marks, |data|) && (marks != [] ==> marks[|marks| - 1] != |data|)
    ensures Ascending(from, marks + [|data|], |data|)
    ensures Cut(data, from, marks + [|data|]) == Cut(data, from, marks) + [Tail(data, from, marks)]
    ensures Tail(data, from, marks + [|data|]) == []
    decreases |marks|
  {
    var end := marks + [|data|];
    if marks == [] {
      assert end[1..] == [];
      assert data[from..|data|] == data[from..];
      assert Cut(data, from, end) == [data[from..]] + Cut(data, |data|, []);
    } else {
      RisingAppend(marks, |data|);
      assert end[1..] == marks[1..] + [|data|];
      CutLast(data, marks[0], marks[1..]);
    }
  }

  // ---------------------------------------------------------------- one step

  lemma AppendOnlyRefines(b: Buf, octets: seq<byte>, m: Bookmark)
    requires Strong(b) && octets != []
    ensures var b1 := AppendOnly(b, octets);
            Strong(b1) && Abs(b1, m) == Abs(b, m).(open := Abs(b, m).open + octets, touched := true)
  {
    CutExtend(b.data, octets, b.pos, b.marks);
    if b.marks != [] {
      RisingLast(b.marks, |b.data|);
    }
  }

  lemma AppendAndShrinkRefines(b: Buf, octets: seq<byte>, m: Bookmark)
    requires Strong(b) && octets != [] && (b.marks != [] ==> b.pos < b.marks[0]) && !Protected(b)
    ensures var b1 := AppendAndShrink(b, octets);
            && Strong(b1)
            && Abs(b1, m) == Abs(b, m).(open := Abs(b, m).open + octets, touched := true, room := RoomAfterAppend(RoomOf(b)))
  {
    CutShift(b.data, b.pos, b.pos, b.marks);
    CutExtend(b.data[b.pos..], octets, 0, Shift(b.marks, b.pos));
    if b.marks != [] {
      RisingLast(b.marks, |b.data|);
    }
  }

  /** A mark inside its limit protects the buffer, and an append keeps or spends it. */
  lemma AppendMarked(b: Buf, octets: seq<byte>, m: Bookmark)
    requires Strong(b) && Marked(b, m) && AppendTo(b, octets).1.Accepted?
    ensures m.Live? ==> (Protected(b) <==> |m.since| <= m.limit)
    ensures m.NoMark? ==> !Protected(b)
    ensures Marked(AppendTo(b, octets).0, AfterAppend(m))
  {
    if m.Live? {
      assert |b.data[b.markedPos..b.pos]| == b.pos - b.markedPos;
      assert (b.data + octets)[b.markedPos..b.pos] == b.data[b.markedPos..b.pos];
    }
  }

  lemma {:induction false} CutVolume(data: seq<byte>, from: int, marks: seq<int>)
    requires Ascending(from, marks, |data|)
    ensures |Concat(Cut(data, from, marks))| + |Tail(data, from, marks)| == |data| - from
    decreases |marks|
  {
    if marks != [] {
      CutVolume(data, marks[0], marks[1..]);
      var rest := Cut(data, marks[0], marks[1..]);
      assert ([data[from..marks[0]]] + rest)[1..] == rest;
    }
  }

  /** What an append finds in its way: all that is stored under a protecting mark, else the unread octets. */
  lemma FilledIs(b: Buf, q: Queue)
    requires Stands(b, q)
    ensures Guarded(q.room) <==> Protected(b)
    ensures Filled(q) == if Protected(b) then |b.data| else |Unread(b)|
  {
    CutVolume(b.data, b.pos, b.marks);
  }

  /**
   * When an append to an unfinished stream is refused for space: the unread octets of all streams
   * and the new ones are more than 2048000, where under a mark inside its limit the octets count
   * too that were read but are still stored.
   */
  lemma RefusedIff(b: Buf, q: Queue, octets: seq<byte>)
    requires Stands(b, q) && !q.finished
    ensures var out := AppendTo(b, octets).1;
            && out == (if Filled(q) + |octets| > 2048000 then Refused(BufferFull) else Accepted(true))
            && (q.mark.NoMark? || (q.mark.Live? && |q.mark.since| > q.mark.limit) ==>
                  (out == Refused(BufferFull) <==> |Concat(q.closed)| + |q.open| + |octets| > 2048000))
            && (q.mark.Live? && |q.mark.since| <= q.mark.limit ==>
                  (out == Refused(BufferFull) <==> q.room.kept + |Concat(q.closed)| + |q.open| + |octets| > 2048000)
                  && q.room.kept >= |q.mark.since|)
  {
    FilledIs(b, q);
    FullIff(b, octets);
    if q.mark.Live? {
      assert |b.data[b.markedPos..b.pos]| == b.pos - b.markedPos;
    }
  }

  lemma AppendRefines(b: Buf, q: Queue, octets: seq<byte>)
    requires Stands(b, q) && Orderly(q, Append(octets))
    ensures var (b1, out) := AppendTo(b, octets);
            Allowed(q, Append(octets), out) && Stands(b1, After(q, Append(octets), out))
  {
    if !b.finished {
      RefusedIff(b, q, octets);
    }
    if AppendTo(b, octets).1.Accepted? {
      AcceptedRefines(b, q, octets);
    }
  }

  lemma AcceptedRefines(b: Buf, q: Queue, octets: seq<byte>)
    requires Stands(b, q) && Orderly(q, Append(octets)) && AppendTo(b, octets).1.Accepted?
    ensures Stands(AppendTo(b, octets).0, After(q, Append(octets), Accepted(true)))
  {
    AppendMarked(b, octets, q.mark);
    CurrentIs(b, q.mark);
    FilledIs(b, q);
    if Protected(b) {
      AppendOnlyRefines(b, octets, AfterAppend(q.mark));
    } else {
      AppendAndShrinkRefines(b, octets, AfterAppend(q.mark));
    }
  }

  lemma FinishRefines(b: Buf, q: Queue, markOnly: bool)
    requires Stands(b, q)
    ensures var (b1, out) := FinishAt(b, markOnly);
            Allowed(q, Finish(markOnly), out) && Stands(b1, After(q, Finish(markOnly), out))
  {
    FinishSane(b, markOnly);
    if CanMark(b) {
      CutLast(b.data, b.pos, b.marks);
    }
  }

  /** The current stream as a stretch of the buffer. */
  lemma CurrentIs(b: Buf, m: Bookmark)
    requires Strong(b)
    ensures Current(Abs(b, m)) == b.data[b.pos..b.count]
    ensures b.marks == [] <==> Abs(b, m).closed == []
    ensures b.marks != [] ==> Abs(b, m).closed[1..] == Cut(b.data, b.marks[0], b.marks[1..])
  {
    if b.marks == [] {
      assert b.data[b.pos..] == b.data[b.pos..b.count];
    } else {
      assert Cut(b.data, b.pos, b.marks)[1..] == Cut(b.data, b.marks[0], b.marks[1..]);
    }
  }

  /** Moving the read position inside the current stream, back to a mark or on. */
  lemma MoveStrong(b: Buf, pos: int)
    requires Strong(b) && 0 <= pos <= b.count
    ensures Strong(b.(pos := pos)) && CanMark(b.(pos := pos)) == CanMark(b)
  {
  }

  lemma MoveRefines(b: Buf, m: Bookmark, pos: int, m': Bookmark)
    requires Strong(b) && 0 <= pos <= b.count
    ensures var b1 := b.(pos := pos);
            Strong(b1) && Abs(b1, m') == WithCurrent(Abs(b, m), b.data[pos..b.count]).(mark := m', room := RoomOf(b1))
  {
    var b1 := b.(pos := pos);
    MoveStrong(b, pos);
    CurrentIs(b, m);
    CurrentIs(b1, m');
    if b.marks != [] {
      assert Abs(b1, m').closed == [Abs(b1, m').closed[0]] + Abs(b1, m').closed[1..];
    }
  }

  lemma AdvanceMarked(b: Buf, m: Bookmark, n: nat)
    requires Strong(b) && Marked(b, m) && b.pos + n <= b.count
    ensures Marked(b.(pos := b.pos + n), Take(m, b.data[b.pos..b.pos + n]))
  {
    if m.Live? {
      assert b.data[b.markedPos..b.pos + n] == b.data[b.markedPos..b.pos] + b.data[b.pos..b.pos + n];
    }
  }

  lemma AdvanceRefines(b: Buf, q: Queue, n: nat)
    requires Stands(b, q) && b.pos + n <= b.count
    ensures var got := b.data[b.pos..b.pos + n];
            && |Current(q)| == b.count - b.pos && got == Current(q)[..n]
            && |got| == n && Stands(b.(pos := b.pos + n), Advanced(q, got))
  {
    CurrentIs(b, q.mark);
    SliceSlice(b.data, b.pos, b.count, n);
    AdvanceMarked(b, q.mark, n);
    MoveRefines(b, q.mark, b.pos + n, Take(q.mark, b.data[b.pos..b.pos + n]));
  }

  /** What lies between a live mark and the limit. */
  lemma SinceMark(b: Buf, q: Queue)
    requires Stands(b, q) && q.mark.Live?
    ensures 0 <= b.markedPos <= b.count <= |b.data|
    ensures b.data[b.markedPos..b.count] == q.mark.since + Current(q)
  {
    CurrentIs(b, q.mark);
    assert b.data[b.markedPos..b.count] == b.data[b.markedPos..b.pos] + b.data[b.pos..b.count];
  }

  /** Forgetting a mark changes nothing else. */
  lemma ForgetMark(b: Buf, m: Bookmark)
    requires Strong(b)
    ensures Strong(b.(markedPos := -1)) && Abs(b.(markedPos := -1), m) == Abs(b, m).(room := Room(b.pos, false, 0, 0))
  {
  }

  /** Going back to a live mark puts back what was taken since. */
  lemma ResetRefines(b: Buf, q: Queue)
    requires Stands(b, q) && q.mark.Live?
    ensures ResetTo(b).Some? && b.markedPos <= |b.data|
    ensures Stands(ResetTo(b).value, WentBack(q))
  {
    SinceMark(b, q);
    assert |b.data[b.markedPos..b.pos]| == b.pos - b.markedPos;
    MoveRefines(b, q.mark, b.markedPos, NoMark);
    ForgetMark(b.(pos := b.markedPos), NoMark);
  }

  /** Dropping an exhausted closed stream. */
  lemma NextRefines(b: Buf, q: Queue)
    requires Stands(b, q) && b.marks != [] && b.pos == b.marks[0]
    ensures q.closed != [] && Stands(ShrinkToNext(b), NextStream(q))
  {
    ShrinkSane(b);
    CutShift(b.data, b.pos, b.pos, b.marks[1..]);
    assert Cut(b.data, b.pos, b.marks)[1..] == Cut(b.data, b.marks[0], b.marks[1..]);
    SameTouched(b);
  }

  /** Whether the open stream was touched survives the removal of an exhausted stream. */
  lemma SameTouched(b: Buf)
    requires Strong(b) && b.marks != [] && b.pos == b.marks[0]
    ensures CanMark(ShrinkToNext(b)) == CanMark(b)
  {
    var b1 := ShrinkToNext(b);
    RisingLast(b.marks, |b.data|);
    if |b.marks| > 1 {
      assert b1.marks[|b1.marks| - 1] == b.marks[|b.marks| - 1] - b.pos;
    }
  }

  lemma ReadSome(b: Buf, q: Queue, len: nat)
    requires Stands(b, q) && b.pos < b.count
    ensures var (b1, out) := ReadUpTo(b, len);
            && out == ReadAnswer(q, len) && out.Octets? && |out.octets| <= |Current(q)|
            && Stands(b1, Advanced(q, out.octets))
  {
    AdvanceRefines(b, q, Min(len, b.count - b.pos));
  }

  lemma ReadNone(b: Buf, q: Queue, len: nat)
    requires Stands(b, q) && b.pos == b.count
    ensures var (b1, out) := ReadUpTo(b, len);
            && out == ReadAnswer(q, len) && !out.Octets? && (out.EndMark? ==> q.closed != [])
            && Stands(b1, if out.EndMark? then NextStream(q) else q)
  {
    CurrentIs(b, q.mark);
    assert Current(q) == [];
    if b.marks != [] {
      NextRefines(b, q);
    }
  }

  lemma ReadSomeRefines(b: Buf, q: Queue, op: Op, len: nat)
    requires Stands(b, q) && b.pos < b.count && (op == ReadMany(len) || (op == ReadOne && len == 1))
    ensures var (b1, out) := ReadUpTo(b, len); Allowed(q, op, out) && Stands(b1, After(q, op, out))
  {
    ReadSome(b, q, len);
  }

  lemma ReadNoneRefines(b: Buf, q: Queue, op: Op, len: nat)
    requires Stands(b, q) && b.pos == b.count && (op == ReadMany(len) || (op == ReadOne && len == 1))
    ensures var (b1, out) := ReadUpTo(b, len); Allowed(q, op, out) && Stands(b1, After(q, op, out))
  {
    ReadNone(b, q, len);
  }

  lemma ReadRefines(b: Buf, q: Queue, op: Op, len: nat)
    requires Stands(b, q) && (op == ReadMany(len) || (op == ReadOne && len == 1))
    ensures var (b1, out) := ReadUpTo(b, len); Allowed(q, op, out) && Stands(b1, After(q, op, out))
  {
    if b.pos < b.count {
      ReadSomeRefines(b, q, op, len);
    } else {
      ReadNoneRefines(b, q, op, len);
    }
  }

  /** The octets taken, as the queue accounts for them. */
  lemma TakenRefines(b: Buf, q: Queue, op: Op, n: nat)
    requires Stands(b, q) && b.pos + n <= b.count
    ensures var got := b.data[b.pos..b.pos + n];
            && |Current(q)| == b.count - b.pos && got == Current(q)[..n]
            && Stands(b.(pos := b.pos + n), After(q, op, Octets(got)))
  {
    AdvanceRefines(b, q, n);
    assert |b.data[b.pos..b.pos + n]| == n;
  }

  lemma SkipRefines(b: Buf, q: Queue, n: int)
    requires Stands(b, q)
    ensures var (b1, out) := SkipOver(b, n); Allowed(q, Skip(n), out) && Stands(b1, After(q, Skip(n), out))
  {
    var k := Min(if n < 0 then 0 else n, b.count - b.pos);
    TakenRefines(b, q, Skip(n), k);
    SkipTakes(b, n, k);
  }

  lemma SkipTakes(b: Buf, n: int, k: nat)
    requires Strong(b) && k == Min(if n < 0 then 0 else n, b.count - b.pos)
    ensures SkipOver(b, n) == (b.(pos := b.pos + k), Octets(b.data[b.pos..b.pos + k]))
  {
    assert b.data[b.pos..b.pos] == [];
  }

  /** The rest of the last stream, which stays open. */
  lemma JumpInLast(b: Buf, q: Queue)
    requires Stands(b, q) && b.marks == []
    ensures var (b1, out) := SkipCurrent(b);
            Allowed(q, FinishCurrent, out) && Stands(b1, After(q, FinishCurrent, out))
  {
    CurrentIs(b, q.mark);
    TakenRefines(b, q, ReadMany(0), b.count - b.pos);
  }

  /** The rest of a closed stream, and the move to the next one. */
  lemma JumpToNext(b: Buf, q: Queue)
    requires Stands(b, q) && b.marks != []
    ensures var (b1, out) := SkipCurrent(b);
            Allowed(q, FinishCurrent, out) && Stands(b1, After(q, FinishCurrent, out))
  {
    var n := b.count - b.pos;
    CurrentIs(b, q.mark);
    AdvanceRefines(b, q, n);
    var b1 := b.(pos := b.count);
    var q1 := Advanced(q, b.data[b.pos..b.count]);
    NextRefines(b1, q1);
    assert q1.closed[1..] == q.closed[1..];
  }

  lemma FinishCurrentRefines(b: Buf, q: Queue)
    requires Stands(b, q)
    ensures b.count >= 0
    ensures var (b1, out) := SkipCurrent(b);
            Allowed(q, FinishCurrent, out) && Stands(b1, After(q, FinishCurrent, out))
  {
    if b.marks == [] {
      JumpInLast(b, q);
    } else {
      JumpToNext(b, q);
    }
  }

  lemma MarkRefines(b: Buf, q: Queue, limit: int)
    requires Stands(b, q)
    ensures Stands(MarkAt(b, limit), After(q, Mark(limit), Accepted(true)))
  {
    if limit > 0 {
      assert b.data[b.pos..b.pos] == [];
    }
  }

  lemma ResetCallRefines(b: Buf, q: Queue)
    requires Stands(b, q) && Orderly(q, Reset)
    ensures var (b1, out) := Step(b, Reset); Allowed(q, Reset, out) && Stands(b1, After(q, Reset, out))
    ensures Harmless(b, Reset)
  {
    if q.mark.Live? {
      ResetRefines(b, q);
    }
  }

  /**
   * Every orderly call on a buffer is a call on the queue it stands for, and in particular keeps
   * the buffer consistent: a reset finds its position, a jump to the next stream does not throw.
   */
  lemma StepRefines(b: Buf, q: Queue, op: Op)
    requires Stands(b, q) && Orderly(q, op)
    ensures var (b1, out) := Step(b, op); Allowed(q, op, out) && Stands(b1, After(q, op, out))
    ensures Harmless(b, op)
  {
    match op {
      case Append(octets) => AppendRefines(b, q, octets);
      case Finish(markOnly) => FinishRefines(b, q, markOnly);
      case ReadOne => ReadRefines(b, q, op, 1);
      case ReadMany(len) => ReadRefines(b, q, op, len);
      case Skip(n) => SkipRefines(b, q, n);
      case Mark(limit) => MarkRefines(b, q, limit);
      case Reset => ResetCallRefines(b, q);
      case FinishCurrent => FinishCurrentRefines(b, q);
    }
  }

  // ---------------------------------------------------------------- all runs

  /** Every call of the run is orderly where it is made. */
  ghost predicate Disciplined(b: Buf, q: Queue, ops: seq<Op>)
    requires Stands(b, q)
    decreases |ops|
  {
    ops == [] ||
    (Orderly(q, ops[0])
     && (StepRefines(b, q, ops[0]);
         var (b1, out) := Step(b, ops[0]);
         Disciplined(b1, After(q, ops[0], out), ops[1..])))
  }

  /** The buffer, the queue and the answers after a run. */
  ghost function RunAll(b: Buf, q: Queue, ops: seq<Op>): (r: (Buf, Queue, seq<Out>))
    requires Stands(b, q) && Disciplined(b, q, ops)
    ensures Stands(r.0, r.1) && |r.2| == |ops|
    decreases |ops|
  {
    if ops == [] then (b, q, [])
    else
      StepRefines(b, q, ops[0]);
      var (b1, out) := Step(b, ops[0]);
      var (b2, q2, outs) := RunAll(b1, After(q, ops[0], out), ops[1..]);
      (b2, q2, [out] + outs)
  }

  /**
   * Refinement: over every disciplined run of appends, finishes, reads, skips, marks, resets and
   * jumps to the next stream, the answers of the buffer are answers of the queue of streams it
   * stands for, and it ends up standing for the queue reached.
   */
  lemma {:induction false} BufferRefinesQueue(b: Buf, q: Queue, ops: seq<Op>)
    requires Stands(b, q) && Disciplined(b, q, ops)
    ensures var (b', q', outs) := RunAll(b, q, ops); QRun(q, ops, outs, q') && Stands(b', q')
    decreases |ops|
  {
    if ops != [] {
      StepRefines(b, q, ops[0]);
      var (b1, out) := Step(b, ops[0]);
      BufferRefinesQueue(b1, After(q, ops[0], out), ops[1..]);
      var (b2, q2, outs) := RunAll(b1, After(q, ops[0], out), ops[1..]);
      assert ([out] + outs)[1..] == outs;
    }
  }

  const NO_STREAM := Queue([], [], false, false, NoMark, NO_ROOM_TAKEN)

  lemma EmptyStands()
    ensures Stands(EMPTY, NO_STREAM)
  {
  }

  /** A disciplined run on a new stream. */
  ghost predicate OrderlyRun(ops: seq<Op>) {
    EmptyStands(); Disciplined(EMPTY, NO_STREAM, ops)
  }

  /** Buffer, queue and answers after such a run. */
  ghost function RunOrderly(ops: seq<Op>): (r: (Buf, Queue, seq<Out>))
    requires OrderlyRun(ops)
    ensures |r.2| == |ops|
  {
    EmptyStands(); RunAll(EMPTY, NO_STREAM, ops)
  }

  /**
   * Streams come out whole: what a reader has gone through when the current stream ends, by a -1
   * or by a jump to the next one, is exactly that stream, whatever is appended or finished
   * meanwhile and however often the reader went back to its mark.
   */
  lemma {:induction false} StreamComesOutWhole(q: Queue, a: Account, ops: seq<Op>, outs: seq<Out>, q': Queue)
    requires |ops| == |outs| && QRun(q, ops, outs, q')
    requires q.closed != [] && a.mark == q.mark
    requires outs != [] && EndsStream(outs[|outs| - 1]) && Ends(outs) == 1
    ensures Taken(Tally(a, ops, outs)) == Taken(a) + q.closed[0]
    decreases |ops|
  {
    var out := outs[0];
    FrontStream(q, a, ops[0], out);
    if EndsStream(out) {
      if |outs| > 1 {
        assert outs[1..][|outs| - 2] == outs[|outs| - 1];
        EndsLast(outs[1..]);
      }
      assert outs[1..] == [];
    } else {
      assert |outs| > 1;
      assert outs[1..][|outs| - 2] == outs[|outs| - 1];
      StreamComesOutWhole(After(q, ops[0], out), Note(a, ops[0], out), ops[1..], outs[1..], q');
    }
  }

  /** The reader's account and the rest of the front stream make up `s`. */
  ghost predicate Splits(a: Account, q: Queue, s: seq<byte>) {
    q.closed != [] && Taken(a) + q.closed[0] == s && a.mark == q.mark
  }

  /** A call takes octets off the front stream, puts them back, leaves it alone, or ends it. */
  lemma FrontStream(q: Queue, a: Account, op: Op, out: Out)
    requires q.closed != [] && Allowed(q, op, out) && a.mark == q.mark
    ensures if EndsStream(out) then Taken(Note(a, op, out)) == Taken(a) + q.closed[0]
            else Splits(Note(a, op, out), After(q, op, out), Taken(a) + q.closed[0])
  {
    match op {
      case Mark(limit) => MarkTakesNothing(a, limit);
      case Reset =>
        if q.mark.Live? {
          FrontBack(q, a);
        }
      case Append(_) =>
      case Finish(_) =>
      case _ => FrontRead(q, a, op, out);
    }
  }

  /** A reset puts back what was taken since the mark. */
  lemma FrontBack(q: Queue, a: Account)
    requires q.closed != [] && a.mark == q.mark && a.mark.Live?
    ensures Splits(a.(mark := NoMark), After(q, Reset, Accepted(true)), Taken(a) + q.closed[0])
  {
    Associative(a.kept, a.mark.since, q.closed[0]);
  }

  /** A read, a skip or a jump. */
  lemma FrontRead(q: Queue, a: Account, op: Op, out: Out)
    requires q.closed != [] && Allowed(q, op, out) && a.mark == q.mark
    requires op.ReadOne? || op.ReadMany? || op.Skip? || op.FinishCurrent?
    ensures if EndsStream(out) then Taken(Note(a, op, out)) == Taken(a) + q.closed[0]
            else Splits(Note(a, op, out), After(q, op, out), Taken(a) + q.closed[0])
  {
    if out.Octets? {
      FrontTaken(q, a, op, |out.octets|);
    } else if out.EndMark? {
      assert Taken(a) + [] == Taken(a);
    } else {
      TakenMore(a, out.octets);
    }
  }

  lemma FrontTaken(q: Queue, a: Account, op: Op, n: nat)
    requires q.closed != [] && a.mark == q.mark && n <= |q.closed[0]|
    ensures Splits(Took(a, q.closed[0][..n]), After(q, op, Octets(q.closed[0][..n])), Taken(a) + q.closed[0])
  {
    var s := q.closed[0];
    assert s == s[..n] + s[n..];
    TakenMore(a, s[..n]);
    Associative(Taken(a), s[..n], s[n..]);
  }

  lemma {:induction false} EndsLast(outs: seq<Out>)
    requires outs != [] && EndsStream(outs[|outs| - 1])
    ensures Ends(outs) >= 1
  {
    if |outs| > 1 {
      assert outs[1..][|outs| - 2] == outs[|outs| - 1];
      EndsLast(outs[1..]);
    }
  }

  // ---------------------------------------------------------------- why the discipline

  /**
   * A closed stream has been read to its last octet but its -1 has not been taken yet, and more
   * is appended: the next read answers that -1 exactly if a mark still protects the buffer.
   */
  lemma BoundarySurvivesIff(b: Buf, octets: seq<byte>, len: nat)
    requires Strong(b) && b.marks != [] && b.pos == b.marks[0] && octets != []
    requires AppendTo(b, octets).1.Accepted?
    ensures ReadUpTo(AppendTo(b, octets).0, len).1.EndMark? <==> Protected(b)
  {
    var b1 := AppendTo(b, octets).0;
    if !Protected(b) {
      assert b1.count == |b1.data| > 0;
    }
  }

  /** For instance: "1", finish, read the 1, append "2"; the next read crosses into the second stream. */
  lemma BoundaryLost()
    ensures var b := FinishAt(AppendTo(EMPTY, [1]).0, true).0;
            var b1 := ReadUpTo(b, 1).0;
            && ReadUpTo(b1, 1).1 == EndMark
            && ReadUpTo(AppendTo(b1, [2]).0, 1).1 == Octets([2])
  {
    assert AppendTo(EMPTY, [1]).0 == Buf([1], 0, 1, [], false, -1, -1);
    var b := Buf([1], 0, 1, [1], false, -1, -1);
    assert FinishAt(AppendTo(EMPTY, [1]).0, true).0 == b;
    var b1 := Buf([1], 1, 1, [1], false, -1, -1);
    assert ReadUpTo(b, 1).0 == b1;
    AfterTheBoundary(b1);
  }

  lemma AfterTheBoundary(b1: Buf)
    requires b1 == Buf([1], 1, 1, [1], false, -1, -1)
    ensures ReadUpTo(b1, 1).1 == EndMark
    ensures ReadUpTo(AppendTo(b1, [2]).0, 1).1 == Octets([2])
  {
    var b2 := Buf([2], 0, 1, [0], false, -1, -1);
    assert b1.data[1..] + [2] == [2];
    assert Shift([1], 1) == [0];
    assert AppendTo(b1, [2]).0 == b2;
    assert [2][0..1] == [2];
  }
}
