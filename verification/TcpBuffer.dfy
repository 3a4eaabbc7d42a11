/**
 * The sorted set of out-of-order packets of one direction (`PacketsBuffer`), as a list in the
 * order of `compareTo`.
 */
module TcpBuffer {
  import opened TcpPacket

  /** `TreeSet.add`: a packet that compares equal to a stored one is not stored. */
  function Insert(waiting: seq<Packet>, p: Packet): (r: seq<Packet>)
    ensures |r| <= |waiting| + 1
  {
    if waiting == [] then [p]
    else if Compare(p, waiting[0]) == 0 then waiting
    else if Compare(p, waiting[0]) < 0 then [p] + waiting
    else [waiting[0]] + Insert(waiting[1..], p)
  }

  /** The sequence numbers rise strictly. */
  ghost predicate Sorted(waiting: seq<Packet>) {
    forall i, j :: 0 <= i < j < |waiting| ==> waiting[i].sequence < waiting[j].sequence
  }

  /** The packet's sequence number is less than 2^31 away from every stored one. */
  ghost predicate Near(waiting: seq<Packet>, p: Packet) {
    forall i :: 0 <= i < |waiting| ==> -TWO31 < p.sequence - waiting[i].sequence < TWO31
  }

  /** No packet is invented. */
  lemma {:induction false} InsertFrom(waiting: seq<Packet>, p: Packet)
    ensures forall q :: q in Insert(waiting, p) ==> q == p || q in waiting
    ensures forall q :: q in waiting ==> q in Insert(waiting, p)
  {
    if waiting != [] && Compare(p, waiting[0]) > 0 {
      InsertFrom(waiting[1..], p);
    }
  }

  lemma SortedCons(p: Packet, rest: seq<Packet>)
    requires Sorted(rest) && forall q :: q in rest ==> p.sequence < q.sequence
    ensures Sorted([p] + rest)
  {
  }

  lemma SortedTail(waiting: seq<Packet>)
    requires Sorted(waiting) && waiting != []
    ensures Sorted(waiting[1..]) && forall q :: q in waiting[1..] ==> waiting[0].sequence < q.sequence
  {
  }

  /** Inside a window the buffer stays sorted. */
  lemma {:induction false} InsertSorted(waiting: seq<Packet>, p: Packet)
    requires Sorted(waiting) && Near(waiting, p)
    ensures Sorted(Insert(waiting, p))
  {
    if waiting != [] {
      var first, rest := waiting[0], waiting[1..];
      SortedTail(waiting);
      CompareInWindow(p, first);
      assert waiting == [first] + rest;
      if p.sequence > first.sequence {
        assert Near(rest, p);
        InsertSorted(rest, p);
        InsertFrom(rest, p);
        SortedCons(first, Insert(rest, p));
      } else if p.sequence < first.sequence {
        SortedCons(p, waiting);
      }
    }
  }

  /** A packet is refused only if one with its sequence number is stored already. */
  lemma {:induction false} InsertStores(waiting: seq<Packet>, p: Packet)
    requires Sorted(waiting) && Near(waiting, p)
    ensures p in Insert(waiting, p) || exists q :: q in waiting && q.sequence == p.sequence
  {
    if waiting != [] {
      CompareInWindow(p, waiting[0]);
      if p.sequence > waiting[0].sequence {
        SortedTail(waiting);
        assert Near(waiting[1..], p);
        InsertStores(waiting[1..], p);
      } else if p.sequence == waiting[0].sequence {
        assert waiting[0] in waiting;
      }
    }
  }

  /** With an equal sequence number only the first packet stays: the data of the second is lost. */
  lemma {:induction false} SameSequenceIsRefused(waiting: seq<Packet>, p: Packet, k: nat)
    requires Sorted(waiting) && Near(waiting, p) && k < |waiting| && waiting[k].sequence == p.sequence
    ensures Insert(waiting, p) == waiting
  {
    CompareInWindow(p, waiting[0]);
    if k > 0 {
      SortedTail(waiting);
      assert Near(waiting[1..], p);
      SameSequenceIsRefused(waiting[1..], p, k - 1);
      assert waiting == [waiting[0]] + waiting[1..];
    }
  }

  /** Whether any waiting packet carries data. */
  predicate HasData(waiting: seq<Packet>) {
    exists i :: 0 <= i < |waiting| && waiting[i].data != []
  }
}
