/** Stop-and-wait over links that lose and duplicate frames but keep their order: what holds
    between a sender with wrapping 16-bit sequence numbers, a receiver and two links.
    Versions 2 and 3 of the command interface, which pack differently, both rely on it. */
module StopAndWait {
  import opened Bytes
  import opened Links

  datatype Frame = Frame(num: u16, payload: seq<byte>)

  /** The test that the receiver makes on the sequence number of a data frame: newer than the
      last one, or so much older that the numbers must have wrapped. */
  predicate ShouldProcess(prev: u16, num: u16) {
    num - prev > 0 || num - prev < -10
  }

  /** Frames are those of the last acknowledged pack, then those of the current pack. */
  ghost predicate OldThenNew(data: seq<Frame>, prev: u16, cur: Frame) {
    && (forall i :: 0 <= i < |data| ==> data[i].num == prev || data[i] == cur)
    && (forall i, j :: 0 <= i < j < |data| && data[i] == cur ==> data[j] == cur)
  }

  ghost predicate AcksOldThenNew(acks: seq<u16>, prev: u16, cur: u16) {
    && (forall i :: 0 <= i < |acks| ==> acks[i] == prev || acks[i] == cur)
    && (forall i, j :: 0 <= i < j < |acks| && acks[i] == cur ==> acks[j] == cur)
  }

  ghost predicate AllSeq(data: seq<Frame>, num: u16) {
    forall i :: 0 <= i < |data| ==> data[i].num == num
  }

  ghost predicate AllFrame(data: seq<Frame>, cur: Frame) {
    forall i :: 0 <= i < |data| ==> data[i] == cur
  }

  ghost predicate AllAcks(acks: seq<u16>, num: u16) {
    forall i :: 0 <= i < |acks| ==> acks[i] == num
  }

  /** What the two ends and the two links have in common. `num` and `lastSeq` are the sequence
      numbers of the sender's current pack and of its last acknowledged pack, `cur` the payload
      of the current pack if there is one, `recvSeq` the last number that the receiver accepted. */
  datatype View = View(num: u16, lastSeq: u16, cur: Option<seq<byte>>, recvSeq: u16,
                          data: seq<Frame>, acks: seq<u16>)

  /** The invariant of the protocol. The receiver's number is always that of the last
      acknowledged pack or that of the current pack. */
  ghost predicate Inv(v: View) {
    match v.cur
    case None =>
      v.num == v.lastSeq && v.recvSeq == v.lastSeq && AllSeq(v.data, v.lastSeq) && AllAcks(v.acks, v.lastSeq)
    case Some(p) =>
      && v.num == NextSeq(v.lastSeq)
      && (v.recvSeq == v.lastSeq ==> OldThenNew(v.data, v.lastSeq, Frame(v.num, p)) && AllAcks(v.acks, v.lastSeq))
      && (v.recvSeq != v.lastSeq ==>
        v.recvSeq == v.num && AllFrame(v.data, Frame(v.num, p)) && AcksOldThenNew(v.acks, v.lastSeq, v.num))
  }

  /** The receiver has taken in the current pack. */
  predicate Received(v: View) {
    v.recvSeq != v.lastSeq
  }

  lemma LoseKeeps(v: View, i: nat)
    requires Inv(v)
    ensures i < |v.data| ==> Inv(v.(data := Lose(v.data, i)))
    ensures i < |v.acks| ==> Inv(v.(acks := Lose(v.acks, i)))
  {
  }

  lemma DuplicateKeeps(v: View, i: nat)
    requires Inv(v)
    ensures i < |v.data| ==> Inv(v.(data := Duplicate(v.data, i)))
    ensures i < |v.acks| ==> Inv(v.(acks := Duplicate(v.acks, i)))
  {
  }

  /** Forming a new pack when there is none. */
  lemma FormKeeps(v: View, p: seq<byte>)
    requires Inv(v) && v.cur == None
    ensures Inv(v.(num := NextSeq(v.num), cur := Some(p)))
    ensures !Received(v.(num := NextSeq(v.num), cur := Some(p)))
  {
  }

  /** Every transmission of the current pack carries the same number and payload. */
  lemma SendKeeps(v: View)
    requires Inv(v) && v.cur.Some?
    ensures Inv(v.(data := v.data + [Frame(v.num, v.cur.value)]))
  {
  }

  /** The receiver takes a data frame off the link and acknowledges it. It processes the frame
      if and only if it is the first one of the current pack to arrive, with the payload of
      that pack; whatever the numbers, also when they wrap. */
  lemma ReceiveKeeps(v: View)
    requires Inv(v) && v.data != []
    ensures var f := v.data[0];
      var process := ShouldProcess(v.recvSeq, f.num);
      && process == (v.cur.Some? && !Received(v) && f == Frame(v.num, v.cur.value))
      && Inv(v.(data := v.data[1..], acks := v.acks + [f.num], recvSeq := if process then f.num else v.recvSeq))
  {
  }

  /** The sender takes an acknowledgement off the link. When it has the number of the current
      pack and not of the last one, the receiver has that pack and the sender may advance;
      otherwise it has the number of the last pack. */
  lemma AckKeeps(v: View)
    requires Inv(v) && v.acks != []
    ensures Inv(v.(acks := v.acks[1..]))
    ensures v.acks[0] == v.lastSeq || v.acks[0] == v.num
    ensures v.acks[0] != v.lastSeq ==>
      && v.cur.Some? && Received(v)
      && Inv(v.(acks := v.acks[1..], lastSeq := v.num, cur := None))
  {
  }

  /** The number `d` before another one. */
  function Before(num: u16, d: nat): u16
    requires d < 0x1_0000
  {
    if d <= num then num - d else num + 0x1_0000 - d
  }

  /** Why order matters: which frames that come late are processed again. Of the ten before the last
      accepted one, those on the other side of a wrap are; all the earlier ones are, too. */
  lemma LateFrame(prev: u16, d: nat)
    requires 0 < d < 0x1_0000
    ensures ShouldProcess(prev, Before(prev, d)) <==> d > 10 || prev < d
  {
  }
}
