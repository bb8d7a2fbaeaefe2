/** The circular transmit queue that the three command interfaces share: an array that is
    reallocated before it becomes full, with the indices of the oldest entry and of the
    next free place. */
module RingBuffer {

  /** How many entries a reallocation adds. */
  const GROWTH: nat := 16

  class Ring<T(0)> {
    var entries: array<T>
    var count: nat
    var head: nat
    var tail: nat

    /** The index `i` places after `head`. */
    static function Wrap(i: nat, depth: nat): nat {
      if i >= depth then i - depth else i
    }

    ghost predicate Valid()
      reads this
    {
      && (entries.Length == 0 ==> count == 0 && head == 0 && tail == 0)
      && (entries.Length > 0 ==>
        && count < entries.Length && head < entries.Length
        && tail == Wrap(head + count, entries.Length))
    }

    /** The pending entries, oldest first. */
    ghost function Contents(): (s: seq<T>)
      requires Valid()
      reads this, entries
      ensures |s| == count
      ensures forall i :: 0 <= i < count ==> s[i] == entries[Wrap(head + i, entries.Length)]
    {
      seq(count, i requires 0 <= i < count reads this, entries
        requires Valid() => entries[Wrap(head + i, entries.Length)])
    }

    constructor ()
      ensures Valid() && Contents() == [] && fresh(entries)
    {
      entries := new T[0];
      count, head, tail := 0, 0, 0;
    }

    /** Moves the entries to the start of a larger array. */
    method Grow()
      requires Valid()
      modifies this
      ensures Valid() && fresh(entries)
      ensures Contents() == old(Contents())
      ensures entries.Length == old(entries.Length) + 16 && head == 0 && tail == count
    {
      ghost var before := Contents();
      var larger := new T[entries.Length + GROWTH];
      if head < tail {
        forall i | 0 <= i < count {
          larger[i] := entries[head + i];
        }
      } else if head > tail {
        var cnt1, cnt2 := entries.Length - head, tail;
        forall i | 0 <= i < cnt1 {
          larger[i] := entries[head + i];
        }
        forall i | 0 <= i < cnt2 {
          larger[cnt1 + i] := entries[i];
        }
      }
      assert forall i :: 0 <= i < count ==> larger[i] == before[i];
      head, tail, entries := 0, count, larger;
    }

    method Add(x: T)
      requires Valid()
      modifies this, entries
      ensures Valid() && (entries == old(entries) || fresh(entries))
      ensures Contents() == old(Contents()) + [x]
    {
      ghost var before := Contents();
      if count + 1 >= entries.Length {
        Grow();
      }
      entries[tail] := x;
      tail := tail + 1;
      if tail >= entries.Length {
        tail := 0;
      }
      count := count + 1;
      assert Contents() == before + [x];
    }

    method Pop()
      requires Valid() && count > 0
      modifies this`head, this`count
      ensures Valid()
      ensures Contents() == old(Contents())[1..]
    {
      head := head + 1;
      if head >= entries.Length {
        head := 0;
      }
      count := count - 1;
      assert Contents() == old(Contents())[1..];
    }

    /** Pops the `n` oldest entries one by one. */
    method PopMany(n: nat)
      requires Valid() && n <= count
      modifies this`head, this`count
      ensures Valid()
      ensures Contents() == old(Contents())[n..]
    {
      for i := 0 to n
        invariant Valid() && count == old(count) - i
        invariant Contents() == old(Contents())[i..]
      {
        Pop();
      }
    }

    /** Overwrites the entry at array index `pos`, the `k`-th oldest. */
    method Replace(pos: nat, x: T, ghost k: nat)
      requires Valid() && k < count && pos == Wrap(head + k, entries.Length)
      modifies entries
      ensures Valid()
      ensures Contents() == old(Contents())[k := x]
    {
      entries[pos] := x;
      assert Contents() == old(Contents())[k := x];
    }

    /** The index after `pos`, as the iteration over the pending entries computes it. */
    static function Next(pos: nat, depth: nat): (r: nat)
      requires pos < depth
    {
      if pos < depth - 1 then pos + 1 else 0
    }

    /** Going on from the `k`-th oldest entry reaches the next one, and `tail` only after the last. */
    lemma NextIsNext(pos: nat, k: nat)
      requires Valid() && k < count && pos == Wrap(head + k, entries.Length)
      ensures pos != tail
      ensures Next(pos, entries.Length) == Wrap(head + k + 1, entries.Length)
      ensures Next(pos, entries.Length) == tail <==> k + 1 == count
    {
    }

    /** Forgets every entry, as when the queue is stopped. */
    method Clear()
      requires Valid()
      modifies this`head, this`tail, this`count
      ensures Valid() && Contents() == []
    {
      head, tail, count := 0, 0, 0;
    }
  }
}
