/** What the two ends of a stop-and-wait link count: how often a pack was sent, and how often it
    was acknowledged. Versions 2 and 3 of the command interface count in the same way. */
module AckCounts {
  import opened Bytes
  import opened Links
  import opened StopAndWait

  /** How many of the numbers are `num`. */
  function Copies(nums: seq<u16>, num: u16): nat {
    if nums == [] then 0 else (if nums[0] == num then 1 else 0) + Copies(nums[1..], num)
  }

  function Numbers(data: seq<Frame>): seq<u16> {
    seq(|data|, i requires 0 <= i < |data| => data[i].num)
  }

  /** The frames and the acknowledgements with a number that are on the links. */
  function UnderWay(data: seq<Frame>, acks: seq<u16>, num: u16): nat {
    Copies(Numbers(data), num) + Copies(acks, num)
  }

  lemma {:induction false} CopiesAppend(a: seq<u16>, b: seq<u16>, num: u16)
    ensures Copies(a + b, num) == Copies(a, num) + Copies(b, num)
  {
    if a == [] {
      assert a + b == b;
    } else {
      assert (a + b)[0] == a[0] && (a + b)[1..] == a[1..] + b;
      CopiesAppend(a[1..], b, num);
    }
  }

  lemma CopiesLose(nums: seq<u16>, i: nat, num: u16)
    requires i < |nums|
    ensures Copies(Lose(nums, i), num) <= Copies(nums, num)
  {
    CopiesAppend(nums[..i], nums[i + 1..], num);
    CopiesAppend(nums[..i], nums[i..], num);
    assert nums == nums[..i] + nums[i..];
  }

  lemma CopiesOne(a: u16, num: u16)
    ensures Copies([a], num) == if a == num then 1 else 0
  {
  }

  lemma {:induction false} NoCopies(nums: seq<u16>, num: u16)
    requires num !in nums
    ensures Copies(nums, num) == 0
  {
    if nums != [] {
      NoCopies(nums[1..], num);
    }
  }

  /** The counts of a sender: how often it sent its current pack and the last acknowledged one, and
      how many acknowledgements of the last one it counted. */
  datatype Counts = Counts(sent: nat, lastSent: nat, lastAck: nat)

  /** Each transmission of a pack is at most once on the links or counted as acknowledged; `exact`
      says that none was lost or refused. */
  ghost predicate Ledger(v: View, c: Counts, exact: bool) {
    var last := UnderWay(v.data, v.acks, v.lastSeq) + c.lastAck;
    var cur := UnderWay(v.data, v.acks, v.num);
    && last <= c.lastSent && (exact ==> last == c.lastSent)
    && (v.cur == None ==> c.sent == 0)
    && (v.cur.Some? ==> cur <= c.sent && (exact ==> cur == c.sent))
  }

  /** A transmission of the current pack, which may be a new one, is counted. */
  lemma SendLedger(v: View, w: View, c: Counts, exact: bool)
    requires Inv(v) && Ledger(v, c, exact) && w.cur.Some? && w.acks == v.acks && w.lastSeq == v.lastSeq
    requires w.num == if v.cur == None then NextSeq(v.num) else v.num
    requires w.data == v.data + [Frame(w.num, w.cur.value)]
    ensures Ledger(w, c.(sent := c.sent + 1), exact)
  {
    FormLedger(v, w.num);
    assert Numbers(w.data) == Numbers(v.data) + [w.num];
    forall num ensures UnderWay(w.data, w.acks, num) == UnderWay(v.data, v.acks, num) + Copies([w.num], num) {
      CopiesAppend(Numbers(v.data), [w.num], num);
    }
    CopiesOne(w.num, w.num);
    CopiesOne(w.num, w.lastSeq);
  }

  /** Nothing of a pack is on the links before it is first sent. */
  lemma FormLedger(v: View, num: u16)
    requires Inv(v)
    ensures v.cur == None && num == NextSeq(v.num) ==> num != v.lastSeq && UnderWay(v.data, v.acks, num) == 0
    ensures v.cur.Some? ==> v.num != v.lastSeq
  {
    if v.cur == None && num == NextSeq(v.num) {
      NoCopies(Numbers(v.data), num);
      NoCopies(v.acks, num);
    }
  }

  /** A frame that arrives becomes its acknowledgement. */
  lemma ArriveLedger(v: View, w: View, c: Counts, exact: bool)
    requires Ledger(v, c, exact) && v.data != []
    requires w == v.(data := v.data[1..], acks := v.acks + [v.data[0].num], recvSeq := w.recvSeq)
    ensures Ledger(w, c, exact)
  {
    assert Numbers(v.data)[1..] == Numbers(w.data);
    forall num ensures UnderWay(w.data, w.acks, num) == UnderWay(v.data, v.acks, num) {
      CopiesAppend(v.acks, [v.data[0].num], num);
      CopiesOne(v.data[0].num, num);
    }
  }

  lemma LoseLedger(v: View, c: Counts, i: nat)
    requires Ledger(v, c, false)
    ensures i < |v.data| ==> Ledger(v.(data := Lose(v.data, i)), c, false)
    ensures i < |v.acks| ==> Ledger(v.(acks := Lose(v.acks, i)), c, false)
  {
    forall num
      ensures i < |v.data| ==> UnderWay(Lose(v.data, i), v.acks, num) <= UnderWay(v.data, v.acks, num)
      ensures i < |v.acks| ==> UnderWay(v.data, Lose(v.acks, i), num) <= UnderWay(v.data, v.acks, num)
    {
      if i < |v.data| {
        assert Numbers(Lose(v.data, i)) == Lose(Numbers(v.data), i);
        CopiesLose(Numbers(v.data), i, num);
      }
      if i < |v.acks| {
        CopiesLose(v.acks, i, num);
      }
    }
  }

  /** An acknowledgement is counted for the last pack, or makes the current pack the last one, or
      is ignored. */
  lemma AckLedger(v: View, c: Counts, exact: bool)
    requires Inv(v) && Ledger(v, c, exact) && v.acks != []
    ensures var w := v.(acks := v.acks[1..]);
      && Ledger(w, c, false)
      && (v.acks[0] == v.lastSeq ==> Ledger(w, c.(lastAck := c.lastAck + 1), exact))
      && (v.acks[0] != v.lastSeq ==> Ledger(w.(lastSeq := v.num, cur := None), Counts(0, c.sent, 1), exact))
  {
    AckKeeps(v);
    assert forall num :: Copies(v.acks, num) == (if v.acks[0] == num then 1 else 0) + Copies(v.acks[1..], num);
  }
}
