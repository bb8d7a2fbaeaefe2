/** The transmit queue of version 2 of the command interface as a value, and what each
    operation makes of it. The class `TxQueueV2.TxQueue` is proved to do the same in place. */
module QueueV2 {
  import opened Bytes
  import opened Commands
  import opened PackV2
  import opened StopAndWait

  datatype Tx = Tx(
    entries: seq<Entry>, num: u16,
    buf: seq<byte>, cmdCount: nat, packNum: u16, waitingAck: bool, sentTs: nat, sentCount: nat,
    lastNum: u16, lastSentCount: nat, lastAckCount: nat,
    log: seq<Event>)

  /** A new queue: the first pack gets number 0. */
  const NEW_TX := Tx([], 0xFFFF, [], 0, 0, false, 0, 0, 0xFFFF, 0, 0, [])

  /** What holds of a running queue between two calls: the pack buffer is the encoding of the
      first `cmdCount` entries. */
  ghost predicate Consistent(q: QueueInfo, tx: Tx) {
    && tx.cmdCount <= |tx.entries|
    && tx.buf == Encode(Cmds(tx.entries)[..tx.cmdCount]) && |tx.buf| <= PACK_MAX
    && (!q.ack ==> !tx.waitingAck)
  }

  function Add(tx: Tx, e: Entry): Tx {
    tx.(entries := tx.entries + [e])
  }

  lemma AddKeeps(q: QueueInfo, tx: Tx, e: Entry)
    requires Consistent(q, tx)
    ensures Consistent(q, Add(tx, e))
  {
    CmdsAppend(tx.entries, [e]);
    assert Cmds(Add(tx, e).entries)[..tx.cmdCount] == Cmds(tx.entries)[..tx.cmdCount];
  }

  // ----- Transmitting -----

  /** Fills the pack buffer. */
  function PackCmds(tx: Tx): (r: Tx)
    ensures r.entries == tx.entries && r.cmdCount <= |r.entries|
  {
    var n := PackCount(Cmds(tx.entries), 0);
    tx.(buf := tx.buf + Encode(Cmds(tx.entries)[..n]), cmdCount := n)
  }

  /** The status callbacks of the first `n` entries after a transmission. */
  function PackedEvents(entries: seq<Entry>, n: nat, done: bool): (r: seq<Event>)
    requires n <= |entries|
    ensures |r| == n
  {
    seq(n, i requires 0 <= i < n => Event(entries[i].userdata, Packed, 0, done))
  }

  /** Looks at a queue once: waits for the acknowledgement, or transmits the current pack, made
      first if there is none. `ok` says whether the transport takes the frame; if so, the
      commands in the pack are notified, also when it is sent again. */
  function CheckOnce(q: QueueInfo, tx: Tx, now: nat, ok: bool): Pass<Tx, Frame>
    requires tx.entries == [] || Consistent(q, tx)
  {
    if tx.entries == [] then Pass(tx, None, None, false) else
    var ackLeft := Remaining(q.ackTimeoutMs, tx.sentTs, now);
    if tx.waitingAck && ackLeft > 0 then Pass(tx, None, Some(ackLeft), false) else
    var tx1 := if tx.waitingAck then tx.(waitingAck := false, sentTs := 0) else tx;
    var tx2 := if tx1.cmdCount == 0 then PackCmds(tx1.(num := NextSeq(tx1.num))) else tx1;
    var frame := Some(Frame(tx2.num, tx2.buf));
    if !ok then Pass(tx2, frame, None, false) else
    var log := tx2.log + PackedEvents(tx2.entries, tx2.cmdCount, !q.ack);
    if q.ack then
      var tx3 := tx2.(log := log, packNum := tx2.num, waitingAck := true, sentTs := now, sentCount := tx2.sentCount + 1);
      Pass(tx3, frame, if q.ackTimeoutMs > 0 then Some(q.ackTimeoutMs) else None, false)
    else
      Pass(tx2.(log := log, entries := tx2.entries[tx2.cmdCount..], buf := [], cmdCount := 0), frame, None, true)
  }

  lemma PackCmdsKeeps(q: QueueInfo, tx: Tx, num: u16)
    requires Consistent(q, tx) && tx.entries != [] && tx.cmdCount == 0
    ensures var t := PackCmds(tx.(num := num));
      && Consistent(q, t)
      && (t.cmdCount > 0 <==> FitsAlone(tx.entries[0].cmd))
      && (forall i :: 0 <= i < t.cmdCount ==> FitsAlone(tx.entries[i].cmd))
      && (t.cmdCount == 0 ==> t.buf == [])
  {
    var cmds := Cmds(tx.entries);
    PackIsLongest(cmds, 0);
    assert [] + Encode(cmds[..PackCount(cmds, 0)]) == Encode(cmds[..PackCount(cmds, 0)]);
    forall i | 0 <= i < PackCount(cmds, 0) ensures FitsAlone(tx.entries[i].cmd) {
      assert FitsAlone(cmds[i]);
    }
  }

  /** Looking at a queue keeps it consistent. */
  lemma CheckOnceKeeps(q: QueueInfo, tx: Tx, now: nat, ok: bool)
    requires Consistent(q, tx)
    ensures Consistent(q, CheckOnce(q, tx, now, ok).tx)
  {
    hide PackCmds, Remaining;
    if tx.entries != [] {
      var tx1 := if tx.waitingAck then tx.(waitingAck := false, sentTs := 0) else tx;
      assert Consistent(q, tx1);
      if tx1.cmdCount == 0 {
        PackCmdsKeeps(q, tx1, NextSeq(tx1.num));
      }
    }
  }

  /** Every command fits in a pack of its own. */
  predicate AllFit(tx: Tx) {
    forall i :: 0 <= i < |tx.entries| ==> FitsAlone(tx.entries[i].cmd)
  }

  /** A transmission that is not acknowledged pops entries if and only if the oldest command fits
      in a pack, or a pack was left from before; what remains is in order. */
  lemma AgainPops(q: QueueInfo, tx: Tx, now: nat, ok: bool)
    requires Consistent(q, tx) && tx.entries != [] && CheckOnce(q, tx, now, ok).again
    ensures var t := CheckOnce(q, tx, now, ok).tx;
      && !q.ack && ok && Consistent(q, t) && t.cmdCount == 0
      && |t.entries| <= |tx.entries| && t.entries == tx.entries[|tx.entries| - |t.entries|..]
      && (|t.entries| < |tx.entries| <==> tx.cmdCount > 0 || FitsAlone(tx.entries[0].cmd))
      && (forall i :: 0 <= i < |tx.entries| - |t.entries| ==> tx.cmdCount > 0 || FitsAlone(tx.entries[i].cmd))
  {
    hide PackCmds, Remaining;
    CheckOnceKeeps(q, tx, now, ok);
    if tx.cmdCount == 0 {
      PackCmdsKeeps(q, tx, NextSeq(tx.num));
    }
  }

  /** Whether looking at a queue comes to an end. */
  predicate Ends(q: QueueInfo, tx: Tx) {
    q.ack || AllFit(tx)
  }

  lemma ReadyAfter(q: QueueInfo, tx: Tx, now: nat, ok: bool)
    requires tx.entries == [] || Consistent(q, tx)
    ensures var p := CheckOnce(q, tx, now, ok);
      && (p.tx.entries == [] || Consistent(q, p.tx))
      && (p.again && Ends(q, tx) ==> Ends(q, p.tx) && |p.tx.entries| < |tx.entries|)
  {
    if tx.entries != [] {
      CheckOnceKeeps(q, tx, now, ok);
      if CheckOnce(q, tx, now, ok).again {
        AgainPops(q, tx, now, ok);
      }
    }
  }

  /** Looks at a queue again and again. `takes` says which of the frames given to the transport,
      counted from the start of time, it takes. */
  function CheckAll(q: QueueInfo, tx: Tx, now: nat, takes: nat -> bool, tries: nat): Checked<Tx, Frame>
    requires tx.entries == [] || Consistent(q, tx)
    requires Ends(q, tx)
    decreases |tx.entries|
  {
    var p := CheckOnce(q, tx, now, takes(tries));
    var tries' := if p.frame.Some? then tries + 1 else tries;
    var sent := if p.frame.Some? && takes(tries) then [p.frame.value] else [];
    if !p.again then Checked(p.tx, sent, tries', p.deadline)
    else
      ReadyAfter(q, tx, now, takes(tries));
      var next := CheckAll(q, p.tx, now, takes, tries');
      next.(sent := sent + next.sent)
  }

  /** The deadline of a queue that waits is exact: while `e` milliseconds are less than it, another look
      does nothing but count down; when they are over, it transmits again. */
  lemma DeadlineIsExact(q: QueueInfo, tx: Tx, now: nat, e: nat, ok: bool)
    requires Consistent(q, tx) && tx.entries != [] && tx.waitingAck && Remaining(q.ackTimeoutMs, tx.sentTs, now) > 0
    ensures var d, p := Remaining(q.ackTimeoutMs, tx.sentTs, now), CheckOnce(q, tx, now + 1000 * e, ok);
      if e < d then p == Pass(tx, None, Some(d - e), false) else p.frame.Some?
  {
    hide Consistent, PackCmds, Remaining;
    RemainingIsExact(q.ackTimeoutMs, tx.sentTs, now, e);
  }

  /** So is the one that looking at a queue until there is nothing to do at once ends with. */
  lemma {:induction false} CheckAllDeadline(q: QueueInfo, tx: Tx, now: nat, takes: nat -> bool, tries: nat, e: nat, ok: bool)
    requires (tx.entries == [] || Consistent(q, tx)) && Ends(q, tx)
    requires CheckAll(q, tx, now, takes, tries).deadline.Some?
    ensures var c := CheckAll(q, tx, now, takes, tries);
      && Consistent(q, c.tx) && c.tx.entries != []
      && var p := CheckOnce(q, c.tx, now + 1000 * e, ok);
      if e < c.deadline.value then p == Pass(c.tx, None, Some(c.deadline.value - e), false) else p.frame.Some?
    decreases |tx.entries|
  {
    hide Consistent, PackCmds, Ends;
    var p := CheckOnce(q, tx, now, takes(tries));
    ReadyAfter(q, tx, now, takes(tries));
    if p.again {
      CheckAllDeadline(q, p.tx, now, takes, if p.frame.Some? then tries + 1 else tries, e, ok);
    } else {
      RemainingAtStart(q.ackTimeoutMs, now);
      DeadlineIsExact(q, p.tx, now, e, ok);
    }
  }

  /** Looks at a queue `k` times while the transport takes every frame. */
  function CheckTimes(q: QueueInfo, tx: Tx, now: nat, k: nat): (r: Tx)
    requires Consistent(q, tx)
    ensures Consistent(q, r)
  {
    if k == 0 then tx
    else
      var t := CheckTimes(q, tx, now, k - 1);
      CheckOnceKeeps(q, t, now, true);
      CheckOnce(q, t, now, true).tx
  }

  lemma FreshOnce(q: QueueInfo, tx: Tx, now: nat)
    requires !q.ack && Consistent(q, tx) && tx.cmdCount == 0 && tx.entries != []
    ensures var p := CheckOnce(q, tx, now, true);
      && p.again && p.tx.cmdCount == 0 && (AllFit(p.tx) <==> AllFit(tx))
      && |p.tx.entries| <= |tx.entries| && (AllFit(tx) ==> |p.tx.entries| < |tx.entries|)
  {
    AgainPops(q, tx, now, true);
    var t := CheckOnce(q, tx, now, true).tx;
    var n := |tx.entries| - |t.entries|;
    if AllFit(t) {
      forall i | 0 <= i < |tx.entries| ensures FitsAlone(tx.entries[i].cmd) {
        assert i >= n ==> tx.entries[i] == t.entries[i - n];
      }
    }
  }

  lemma {:induction false} FreshTimes(q: QueueInfo, tx: Tx, now: nat, k: nat)
    requires !q.ack && Consistent(q, tx) && tx.cmdCount == 0
    ensures var t := CheckTimes(q, tx, now, k);
      && t.cmdCount == 0 && (AllFit(t) <==> AllFit(tx))
      && (AllFit(tx) ==> |t.entries| <= if k <= |tx.entries| then |tx.entries| - k else 0)
  {
    hide Consistent, CheckOnce, AllFit;
    if k > 0 {
      FreshTimes(q, tx, now, k - 1);
      var t := CheckTimes(q, tx, now, k - 1);
      CheckOnceKeeps(q, t, now, true);
      if t.entries != [] {
        FreshOnce(q, t, now);
      } else {
        EmptyOnce(q, t, now);
      }
    }
  }

  lemma EmptyOnce(q: QueueInfo, tx: Tx, now: nat)
    requires tx.entries == []
    ensures CheckOnce(q, tx, now, true) == Pass(tx, None, None, false) && AllFit(tx)
  {
  }

  /** With a transport that takes everything, a queue that is not acknowledged is emptied by looking
      at it often enough if and only if every command in it fits in a pack; otherwise looking at
      it goes on forever. */
  lemma NoAckDrainsIff(q: QueueInfo, tx: Tx, now: nat)
    requires !q.ack && Consistent(q, tx) && tx.cmdCount == 0
    ensures (exists k: nat :: CheckTimes(q, tx, now, k).entries == []) <==> AllFit(tx)
    ensures !AllFit(tx) ==> forall k: nat :: CheckOnce(q, CheckTimes(q, tx, now, k), now, true).again
  {
    hide Consistent, CheckOnce;
    FreshTimes(q, tx, now, |tx.entries|);
    forall k: nat ensures !AllFit(tx) ==>
        CheckTimes(q, tx, now, k).entries != [] && CheckOnce(q, CheckTimes(q, tx, now, k), now, true).again
    {
      FreshTimes(q, tx, now, k);
      var t := CheckTimes(q, tx, now, k);
      if t.entries != [] {
        FreshOnce(q, t, now);
      }
    }
    if AllFit(tx) {
      assert CheckTimes(q, tx, now, |tx.entries|).entries == [];
    }
  }

  // ----- Acknowledgements and stopping -----

  /** The acknowledgement of the pack with number `num` arrives. It is only counted when it is a
      repetition of the last one and ignored when it was not waited for; otherwise the commands
      of the pack are notified and leave the queue. The waiting flag stays set. */
  function RecvAck(q: QueueInfo, tx: Tx, num: u16): Tx
    requires tx.entries == [] || Consistent(q, tx)
  {
    if num == tx.lastNum then tx.(lastAckCount := tx.lastAckCount + 1)
    else if num != tx.num || !tx.waitingAck || tx.entries == [] then tx
    else
      tx.(entries := tx.entries[tx.cmdCount..], log := tx.log + AckEvents(tx.entries, tx.cmdCount, 0),
          lastNum := tx.num, lastSentCount := tx.sentCount, lastAckCount := 1,
          buf := [], cmdCount := 0, sentCount := 0)
  }

  lemma RecvAckKeeps(q: QueueInfo, tx: Tx, num: u16)
    requires Consistent(q, tx)
    ensures Consistent(q, RecvAck(q, tx, num))
  {
    assert forall t: Tx :: Cmds(t.entries)[..0] == [];
  }

  /** What comes of the waiting flag that stays set: after the acknowledgement that is waited for, a
      queue with entries left transmits nothing until the timeout of the acknowledged pack is over. */
  lemma AckDoesNotRelease(q: QueueInfo, tx: Tx, now: nat, ok: bool)
    requires q.ack && Consistent(q, tx) && tx.waitingAck && tx.num != tx.lastNum && tx.entries != []
    ensures var t := RecvAck(q, tx, tx.num);
      && Consistent(q, t) && t.lastNum == tx.num
      && (t.entries != [] ==>
        (CheckOnce(q, t, now, ok).frame == None <==> Remaining(q.ackTimeoutMs, tx.sentTs, now) > 0))
  {
    hide Consistent, PackCmds, Remaining;
    RecvAckKeeps(q, tx, tx.num);
  }

  /** Stopping a queue cancels its entries; the pack is left as it is. */
  function Stop(tx: Tx): Tx {
    tx.(entries := [], log := tx.log + CancelEvents(tx.entries))
  }
}
