/** `com.mexhee.io.DynamicByteArrayInputStream` with its array, proved against StreamBuffer. */
module DynamicStream {
  import opened Bytes
  import opened StreamBuffer
  import StreamQueue

  class DynamicByteArrayInputStream {
    var buf: array?<byte>
    var pos: int
    var count: int
    var bufferSize: nat
    var isFinished: bool
    var marks: seq<int>
    var readLimit: int
    var markedPos: int

    ghost predicate Valid()
      reads this
    {
      bufferSize == if buf == null then 0 else buf.Length
    }

    /** The value of the buffer; no call writes into `buf`, so appended arrays may be shared. */
    ghost function View(): Buf
      requires Valid()
      reads this, buf
    {
      Buf(if buf == null then [] else buf[..], pos, count, marks, isFinished, readLimit, markedPos)
    }

    constructor ()
      ensures Valid() && View() == EMPTY
    {
      buf, pos, count, bufferSize := null, 0, 0, 0;
      isFinished, marks, readLimit, markedPos := false, [], -1, -1;
    }

    /** Starts with data: the array is taken over, not copied. */
    constructor WithData(data: array<byte>)
      ensures Valid() && buf == data
      ensures View() == Buf(data[..], 0, data.Length, [], false, -1, -1)
    {
      buf, pos, count, bufferSize := data, 0, data.Length, data.Length;
      isFinished, marks, readLimit, markedPos := false, [], -1, -1;
    }

    /** `finish(markFinish)` */
    method Finish(markOnly: bool) returns (success: bool)
      requires Valid()
      modifies `marks, `isFinished
      ensures Valid() && (View(), Accepted(success)) == FinishAt(old(View()), markOnly)
    {
      success := false;
      if bufferSize > 0 && !(|marks| > 0 && bufferSize == marks[|marks| - 1]) {
        marks := marks + [bufferSize];
        success := true;
      }
      if !markOnly {
        isFinished := true;
      }
    }

    /** Moves every mark; the bounds check after it can not fail on a sane buffer. */
    method MoveForwardMarks(delta: int)
      requires Valid() && (marks != [] ==> marks[|marks| - 1] - delta <= bufferSize)
      modifies `marks
      ensures marks == Shift(old(marks), delta)
    {
      var i := 0;
      while i < |marks|
        invariant 0 <= i <= |marks| == |old(marks)|
        invariant forall k :: 0 <= k < i ==> marks[k] == old(marks)[k] - delta
        invariant forall k :: i <= k < |marks| ==> marks[k] == old(marks)[k]
      {
        marks := marks[i := marks[i] - delta];
        i := i + 1;
      }
      assert !(|marks| > 0 && marks[|marks| - 1] > bufferSize);
    }

    /** `append(newBytes)` */
    method Append(newBytes: array<byte>) returns (r: Out)
      requires Valid() && Sane(View())
      modifies this
      ensures Valid() && (View(), r) == AppendTo(old(View()), newBytes[..]) && Sane(View())
      ensures buf == old(buf) || buf == newBytes || fresh(buf)
    {
      AppendSane(View(), newBytes[..]);
      if |marks| > 0 {
        RisingLast(marks, bufferSize);
      }
      if isFinished {
        return Refused(AlreadyFinished);
      }
      if markedPos >= 0 && pos - markedPos <= readLimit {
        r := AppendOnlyArray(newBytes);
      } else {
        r := AppendAndShrinkArray(newBytes);
      }
    }

    method AppendOnlyArray(newBytes: array<byte>) returns (r: Out)
      requires Valid() && 0 <= pos <= bufferSize && !isFinished && Protected(View())
      modifies `buf, `bufferSize, `count
      ensures Valid() && (View(), r) == AppendTo(old(View()), newBytes[..])
      ensures buf == old(buf) || fresh(buf)
    {
      var newSize := bufferSize + newBytes.Length;
      if newSize > MAX_BUFFER_SIZE {
        return Refused(BufferFull);
      }
      var b := Joined(newBytes);
      buf := b;
      bufferSize := newSize;
      if count == 0 || |marks| == 0 {
        count := bufferSize;
      }
      return Accepted(true);
    }

    /** A new array with the whole buffer followed by the new octets. */
    method Joined(newBytes: array<byte>) returns (b: array<byte>)
      requires Valid()
      ensures fresh(b) && b[..] == View().data + newBytes[..]
    {
      b := new byte[bufferSize + newBytes.Length];
      if bufferSize > 0 {
        ArrayCopy(buf, 0, b, 0, bufferSize);
        assert b[0..bufferSize] == buf[0..bufferSize];
      }
      assert b[..bufferSize] == View().data;
      ArrayCopy(newBytes, 0, b, bufferSize, newBytes.Length);
      assert b[..bufferSize] == View().data;
      assert b[bufferSize..bufferSize + newBytes.Length] == newBytes[0..newBytes.Length] == newBytes[..];
      assert b[..] == b[..bufferSize] + b[bufferSize..bufferSize + newBytes.Length];
    }

    method AppendAndShrinkArray(newBytes: array<byte>) returns (r: Out)
      requires Valid() && 0 <= pos <= bufferSize && !isFinished && !Protected(View())
      requires marks != [] ==> marks[|marks| - 1] <= bufferSize
      modifies `buf, `bufferSize, `count, `marks, `pos
      ensures Valid() && (View(), r) == AppendTo(old(View()), newBytes[..])
      ensures buf == old(buf) || buf == newBytes || fresh(buf)
    {
      ghost var v := View();
      ghost var v' := AppendTo(v, newBytes[..]).0;
      var available := bufferSize - pos;
      if available + newBytes.Length > MAX_BUFFER_SIZE {
        return Refused(BufferFull);
      }
      count := count - pos;
      MoveForwardMarks(pos);
      assert View().data == v.data;
      var b := JoinRest(newBytes, available);
      assert b[..] == v'.data;
      buf := b;
      pos := 0;
      bufferSize := b.Length;
      if count == 0 || |marks| == 0 {
        count := bufferSize;
      }
      assert View().data == v'.data && count == v'.count && marks == v'.marks;
      r := Accepted(true);
    }

    /** The unread octets followed by the new ones; the new array itself when nothing is unread. */
    method JoinRest(newBytes: array<byte>, available: nat) returns (b: array<byte>)
      requires Valid() && 0 <= pos <= bufferSize && available == bufferSize - pos
      ensures b[..] == View().data[pos..] + newBytes[..]
      ensures b == newBytes || fresh(b)
    {
      if available > 0 {
        b := new byte[available + newBytes.Length];
        ArrayCopy(buf, pos, b, 0, available);
        assert b[..available] == View().data[pos..];
        ArrayCopy(newBytes, 0, b, available, newBytes.Length);
        assert b[..available] == View().data[pos..];
        assert b[..] == b[..available] + b[available..];
      } else {
        b := newBytes;
        assert View().data[pos..] == [];
      }
    }

    method ShrinkToNextInputStream()
      requires Valid() && Sane(View())
      modifies this
      ensures Valid() && View() == ShrinkToNext(old(View()))
      ensures buf == old(buf) || fresh(buf)
    {
      if |marks| == 0 {
        return;
      }
      ghost var v := View();
      RisingLast(marks, bufferSize);
      var newSize := bufferSize - pos;
      var b := new byte[newSize];
      if newSize > 0 {
        ArrayCopy(buf, pos, b, 0, newSize);
      }
      assert b[..] == v.data[pos..];
      buf := b;
      bufferSize := newSize;
      marks := marks[1..];
      MoveForwardMarks(pos);
      count := if |marks| > 0 then marks[0] else bufferSize;
      pos := 0;
      markedPos := -1;
    }

    /** `isCurrentStreamFinished()`, with the answer of the read that asks. */
    method EndOfCurrent() returns (r: Out)
      requires Valid() && Sane(View())
      modifies this
      ensures Valid() && (View(), r) == AtEnd(old(View()))
      ensures buf == old(buf) || fresh(buf)
    {
      if |marks| > 0 && pos >= marks[0] {
        ShrinkToNextInputStream();
        return EndMark;
      }
      if |marks| == 0 && isFinished {
        return EndAll;
      }
      return Starved;
    }

    /** `read()`; a blocking caller waits and asks again when the answer is Starved. */
    method Read() returns (r: Out)
      requires Valid() && Sane(View())
      modifies this
      ensures Valid() && (View(), r) == ReadUpTo(old(View()), 1)
      ensures buf == old(buf) || fresh(buf)
    {
      if pos < count {
        var x := buf[pos];
        assert View().data[pos..pos + 1] == [x];
        pos := pos + 1;
        return Octets([x]);
      }
      r := EndOfCurrent();
    }

    /** `read(b, off, len)`; None is the IndexOutOfBoundsException. */
    method ReadInto(b: array<byte>, off: int, len: int) returns (r: Option<Out>)
      requires Valid() && Sane(View()) && b != buf
      modifies this, b
      ensures Valid() && (buf == old(buf) || fresh(buf))
      ensures r.None? <==> !(0 <= off && 0 <= len && off + len <= b.Length)
      ensures r.None? ==> View() == old(View())
      ensures r.Some? ==> (View(), r.value) == ReadUpTo(old(View()), len)
      ensures r.Some? && r.value.Octets? ==> b[off..off + |r.value.octets|] == r.value.octets
    {
      if off < 0 || off > b.Length || len < 0 || off + len > b.Length {
        return None;
      }
      if pos >= count {
        var e := EndOfCurrent();
        return Some(e);
      }
      var n := len;
      if pos + len > count {
        n := count - pos;
      }
      ghost var got := View().data[pos..pos + n];
      if n <= 0 {
        assert got == [];
        return Some(Octets([]));
      }
      ArrayCopy(buf, pos, b, off, n);
      pos := pos + n;
      return Some(Octets(b[off..off + n]));
    }

    /** `skip(n)` */
    method Skip(n: int) returns (skipped: nat)
      requires Valid() && Sane(View())
      modifies `pos
      ensures Valid() && View() == SkipOver(old(View()), n).0
      ensures skipped == |SkipOver(old(View()), n).1.octets|
    {
      var m := n;
      if pos + m > count {
        m := count - pos;
      }
      if m < 0 {
        return 0;
      }
      pos := pos + m;
      return m;
    }

    /** `mark(readlimit)` */
    method Mark(limit: int)
      requires Valid()
      modifies `readLimit, `markedPos
      ensures Valid() && View() == MarkAt(old(View()), limit)
    {
      if limit > 0 {
        readLimit := limit;
        markedPos := pos;
      }
    }

    /** `reset()`; false is the IOException. */
    method Reset() returns (ok: bool)
      requires Valid()
      modifies `pos, `markedPos
      ensures Valid() && ok == ResetTo(old(View())).Some?
      ensures View() == if ok then ResetTo(old(View())).value else old(View())
    {
      if markedPos == -1 {
        return false;
      }
      pos := markedPos;
      markedPos := -1;
      return true;
    }

    /** `finishCurrentInputStream()`, which is also `close()`; OutOfRange is the exception of the copy. */
    method FinishCurrentInputStream() returns (r: Out)
      requires Valid() && Sane(View())
      modifies this
      ensures Valid() && (View(), r) == SkipCurrent(old(View()))
      ensures buf == old(buf) || fresh(buf)
    {
      var rest := if pos < count then buf[pos..count] else [];
      var next := |marks| > 0;
      pos := count;
      if next && pos < 0 {
        return Refused(OutOfRange);
      }
      ShrinkToNextInputStream();
      return Dropped(rest, next);
    }

    /** `hasMoreInputStream()`: there is a stream to end or an octet to read. */
    method HasMoreInputStream() returns (more: bool)
      requires Valid() && Sane(View())
      ensures more <==> View().marks != [] || Unread(View()) != []
      ensures forall q :: StreamQueue.Stands(View(), q) ==> (more <==> q.closed != [] || q.open != [])
    {
      more := |marks| > 0 || pos < bufferSize;
      forall q | StreamQueue.Stands(View(), q) ensures more <==> q.closed != [] || q.open != [] {
        StreamQueue.CurrentIs(View(), q.mark);
      }
    }

    /** `closeWholeStream()` forgets everything except the mark of a reader. */
    method CloseWholeStream()
      requires Valid()
      modifies this
      ensures Valid() && View() == EMPTY.(readLimit := old(readLimit), markedPos := old(markedPos))
    {
      buf, pos, count, isFinished, marks, bufferSize := null, 0, 0, false, [], 0;
    }
  }
}
