/** The transmit queue of version 3 of the command interface as a value, and what each
    operation makes of it. The class `TxQueue` is proved to do the same in place. */
module QueueV3 {
  import opened Bytes
  import opened Commands
  import opened PackV3
  import opened StopAndWait

  datatype Tx = Tx(
    entries: seq<Entry>,
    num: u16, lastSentTs: nat,
    buf: seq<byte>, cmdCount: nat, rem: nat, packNum: u16,
    waitingAck: bool, sentTs: nat, sentCount: nat,
    lastNum: u16, lastSentCount: nat, lastAckCount: nat, lastRem: nat,
    log: seq<Event>)

  /** A new queue: the first pack gets number 0. */
  const NEW_TX := Tx([], 0xFFFF, 0, [], 0, 0, 0, false, 0, 0, 0xFFFF, 0, 0, 0, [])

  /** What holds of a running queue between two calls. On an acknowledged queue the pack buffer
      is the encoding of the first `cmdCount` entries, the first one from the point where the
      last acknowledged pack stopped. */
  ghost predicate Consistent(q: QueueInfo, tx: Tx) {
    var cmds := Cmds(tx.entries);
    && tx.cmdCount <= |cmds|
    && (tx.cmdCount == 0 ==> tx.rem == 0 && ValidRem(cmds, tx.lastRem))
    && (!q.ack ==> tx.rem == 0 && tx.lastRem == 0 && !tx.waitingAck)
    && (q.ack && tx.cmdCount == 0 ==> tx.buf == [] && tx.num == tx.lastNum)
    && (q.ack && tx.cmdCount > 0 ==>
      ValidCut(cmds[..tx.cmdCount], tx.lastRem, tx.rem) && |tx.buf| <= PACK_MAX
      && tx.buf == Encode(cmds[..tx.cmdCount], tx.lastRem, tx.rem))
  }

  // ----- Adding -----

  function Add(tx: Tx, e: Entry): Tx {
    tx.(entries := tx.entries + [e])
  }

  lemma AddKeeps(q: QueueInfo, tx: Tx, e: Entry)
    requires Consistent(q, tx)
    ensures Consistent(q, Add(tx, e))
  {
    CmdsAppend(tx.entries, [e]);
    assert Cmds(Add(tx, e).entries)[..tx.cmdCount] == Cmds(tx.entries)[..tx.cmdCount];
  }

  // ----- Packing -----

  /** The status callbacks of the first `n` entries of a pack with number `num`; only the last of
      its `count` entries can be packed in part. */
  function PackEvents(entries: seq<Entry>, n: nat, count: nat, rem: nat, num: u16, ack: bool): (r: seq<Event>)
    requires n <= count && n <= |entries|
    ensures |r| == n
  {
    seq(n, i requires 0 <= i < n =>
      var status := if i == count - 1 && rem > 0 then PartiallyPacked else Packed;
      Event(entries[i].userdata, status, num, !ack && status == Packed))
  }

  /** Fills the pack buffer and notifies the commands packed. */
  function PackCmds(q: QueueInfo, tx: Tx): (r: Tx)
    requires ValidRem(Cmds(tx.entries), tx.lastRem) && (!q.ack ==> tx.lastRem == 0)
    ensures r.entries == tx.entries && r.cmdCount <= |r.entries|
  {
    var p := Pack(Cmds(tx.entries), tx.lastRem, q.ack);
    PackBounds(Cmds(tx.entries), tx.lastRem, q.ack);
    tx.(buf := tx.buf + p.data, cmdCount := p.count, rem := p.rem,
        log := tx.log + PackEvents(tx.entries, p.count, p.count, p.rem, tx.num, q.ack))
  }

  lemma PackBounds(cmds: seq<Cmd>, lastRem: nat, ack: bool)
    requires ValidRem(cmds, lastRem) && (!ack ==> lastRem == 0)
    ensures Pack(cmds, lastRem, ack).count <= |cmds|
  {
    if !ack {
      NoAckPackSize(cmds, 0);
    } else if cmds != [] {
      PackEncodes(cmds, lastRem);
    }
  }

  // ----- Transmitting -----

  /** Looks at a queue once: waits for the acknowledgement or for the minimum delay between two
      packs, or transmits the current pack, made first if there is none. `ok` says whether the
      transport takes the frame. */
  function CheckOnce(q: QueueInfo, tx: Tx, now: nat, ok: bool): Pass<Tx, Frame>
    requires tx.entries == [] || Consistent(q, tx)
  {
    if tx.entries == [] then Pass(tx, None, None, false) else
    var ackLeft := Remaining(q.ackTimeoutMs, tx.sentTs, now);
    if tx.waitingAck && ackLeft > 0 then Pass(tx, None, Some(ackLeft), false) else
    var tx1 := if tx.waitingAck then tx.(waitingAck := false, sentTs := 0) else tx;
    var rateLeft := Remaining(q.maxTxRateMs, tx1.lastSentTs, now);
    if q.maxTxRateMs > 0 && rateLeft > 0 then Pass(tx1, None, Some(rateLeft), false) else
    var tx2 := if tx1.cmdCount == 0 then PackCmds(q, tx1.(num := NextSeq(tx1.num))) else tx1;
    var frame := Some(Frame(tx2.num, tx2.buf));
    if !ok then Pass(tx2, frame, None, false)
    else if q.ack then
      var tx3 := tx2.(lastSentTs := now, packNum := tx2.num, waitingAck := true, sentTs := now,
                      sentCount := tx2.sentCount + 1);
      Pass(tx3, frame, if q.ackTimeoutMs > 0 then Some(q.ackTimeoutMs) else None, false)
    else
      var tx3 := tx2.(lastSentTs := now, entries := tx2.entries[tx2.cmdCount..], buf := [], cmdCount := 0);
      Pass(tx3, frame, None, true)
  }

  lemma PackCmdsKeeps(q: QueueInfo, tx: Tx, num: u16)
    requires Consistent(q, tx) && tx.entries != [] && tx.cmdCount == 0
    ensures var t := PackCmds(q, tx.(num := num));
      Consistent(q, t) && (q.ack ==> t.cmdCount > 0 && t.buf != [])
  {
    var cmds := Cmds(tx.entries);
    PackBounds(cmds, tx.lastRem, q.ack);
    if q.ack {
      PackEncodes(cmds, tx.lastRem);
      assert [] + Pack(cmds, tx.lastRem, true).data == Pack(cmds, tx.lastRem, true).data;
    } else {
      NoAckPackSize(cmds, 0);
    }
  }

  /** Whether a delay of a queue is running: for its acknowledgement, or between two packs. */
  predicate Waits(q: QueueInfo, tx: Tx, now: nat) {
    || (tx.waitingAck && Remaining(q.ackTimeoutMs, tx.sentTs, now) > 0)
    || (q.maxTxRateMs > 0 && Remaining(q.maxTxRateMs, tx.lastSentTs, now) > 0)
  }

  /** Looking at a queue keeps it consistent. */
  lemma CheckOnceKeeps(q: QueueInfo, tx: Tx, now: nat, ok: bool)
    requires Consistent(q, tx)
    ensures Consistent(q, CheckOnce(q, tx, now, ok).tx)
  {
    if tx.entries != [] {
      var tx1 := tx.(waitingAck := false, sentTs := if tx.waitingAck then 0 else tx.sentTs);
      assert Consistent(q, tx1);
      if tx1.cmdCount == 0 {
        PackCmdsKeeps(q, tx1, NextSeq(tx1.num));
      }
    }
  }

  /** Every command fits in a pack of its own. */
  predicate AllFit(tx: Tx) {
    forall i :: 0 <= i < |tx.entries| ==> FitsAlone(tx.entries[i].cmd)
  }

  /** Whether looking at a queue comes to an end: it is acknowledged, or there is a minimum delay
      between packs, or no command is too large. */
  predicate Ends(q: QueueInfo, tx: Tx) {
    q.ack || q.maxTxRateMs > 0 || AllFit(tx)
  }

  /** What each new look at a queue lowers: it pops entries, or the minimum delay begins. */
  function CheckMeasure(q: QueueInfo, tx: Tx, now: nat): (nat, nat) {
    (|tx.entries|, if q.maxTxRateMs > 0 && Remaining(q.maxTxRateMs, tx.lastSentTs, now) > 0 then 0 else 1)
  }

  /** Looking at a queue once keeps it ready to be looked at. */
  lemma ReadyAfter(q: QueueInfo, tx: Tx, now: nat, ok: bool)
    requires tx.entries == [] || Consistent(q, tx)
    ensures var t := CheckOnce(q, tx, now, ok).tx; t.entries == [] || Consistent(q, t)
    ensures var p := CheckOnce(q, tx, now, ok);
      p.again ==> tx.entries != [] && p.frame.Some? && ok
    ensures var p := CheckOnce(q, tx, now, ok);
      p.again && Ends(q, tx) ==>
        Ends(q, p.tx) && (CheckMeasure(q, p.tx, now).0 < CheckMeasure(q, tx, now).0
          || (CheckMeasure(q, p.tx, now).0 == CheckMeasure(q, tx, now).0
              && CheckMeasure(q, p.tx, now).1 < CheckMeasure(q, tx, now).1))
  {
    hide Consistent, PackCmds, CheckMeasure, Ends, Remaining;
    if tx.entries != [] {
      CheckOnceKeeps(q, tx, now, ok);
      if CheckOnce(q, tx, now, ok).again && Ends(q, tx) {
        AgainEnds(q, tx, now, ok);
      }
    }
  }

  lemma AgainEnds(q: QueueInfo, tx: Tx, now: nat, ok: bool)
    requires Consistent(q, tx) && tx.entries != [] && CheckOnce(q, tx, now, ok).again && Ends(q, tx)
    ensures var t := CheckOnce(q, tx, now, ok).tx;
      && Ends(q, t) && CheckMeasure(q, t, now).0 <= CheckMeasure(q, tx, now).0
      && (CheckMeasure(q, t, now).0 == CheckMeasure(q, tx, now).0 ==> CheckMeasure(q, t, now).1 < CheckMeasure(q, tx, now).1)
  {
    hide Consistent, PackCmds;
    AgainPops(q, tx, now, ok);
    var t := CheckOnce(q, tx, now, ok).tx;
    assert t.lastSentTs == now;
  }

  /** Looks at a queue again and again. `takes` says which of the frames given to the transport,
      counted from the start of time, it takes. */
  function CheckAll(q: QueueInfo, tx: Tx, now: nat, takes: nat -> bool, tries: nat): Checked<Tx, Frame>
    requires tx.entries == [] || Consistent(q, tx)
    requires Ends(q, tx)
    decreases CheckMeasure(q, tx, now).0, CheckMeasure(q, tx, now).1
  {
    var p := CheckOnce(q, tx, now, takes(tries));
    var tries' := if p.frame.Some? then tries + 1 else tries;
    var sent := if p.frame.Some? && takes(tries) then [p.frame.value] else [];
    if !p.again then Checked(p.tx, sent, tries', p.deadline)
    else
      ReadyAfter(q, tx, now, takes(tries));
      var next := CheckAll(q, p.tx, now, takes, tries');
      next.(sent := sent + next.sent)
  }

  /** A transmission that is not acknowledged pops entries if and only if the oldest command fits
      in a pack, or a pack was left from before; what remains is in order. */
  lemma AgainPops(q: QueueInfo, tx: Tx, now: nat, ok: bool)
    requires Consistent(q, tx) && tx.entries != [] && CheckOnce(q, tx, now, ok).again
    ensures var t := CheckOnce(q, tx, now, ok).tx;
      && !q.ack && Consistent(q, t)
      && t.entries == tx.entries[|tx.entries| - |t.entries|..]
      && (|t.entries| < |tx.entries| <==> tx.cmdCount > 0 || FitsAlone(tx.entries[0].cmd))
      && t.cmdCount == 0
  {
    CheckOnceKeeps(q, tx, now, ok);
    NoAckPackSize(Cmds(tx.entries), 0);
  }

  /** Looks at a queue `k` times while the transport takes every frame. */
  function CheckTimes(q: QueueInfo, tx: Tx, now: nat, k: nat): (r: Tx)
    requires tx.entries == [] || Consistent(q, tx)
    ensures r.entries == [] || Consistent(q, r)
  {
    if k == 0 then tx
    else
      var t := CheckTimes(q, tx, now, k - 1);
      if t.entries == [] then t
      else
        CheckOnceKeeps(q, t, now, true);
        CheckOnce(q, t, now, true).tx
  }

  /** The commands counted in a pack that is not acknowledged all fit in a pack of their own. */
  lemma {:induction false} CountedFit(cmds: seq<Cmd>, used: nat)
    ensures var n := PackFrom(cmds, used, false).count;
      n <= |cmds| && forall i :: 0 <= i < n ==> FitsAlone(cmds[i])
    decreases |cmds|
  {
    if cmds != [] {
      var len := used + |WriteVarint(|cmds[0]|)| + |cmds[0]|;
      if len <= PACK_MAX {
        CountedFit(cmds[1..], len);
        forall i | 0 < i < PackFrom(cmds, used, false).count ensures FitsAlone(cmds[i]) {
          assert cmds[i] == cmds[1..][i - 1];
        }
      }
    }
  }

  /** A queue that is not acknowledged, without a minimum delay, on which a first look is due. */
  predicate Fresh(q: QueueInfo, tx: Tx) {
    !q.ack && q.maxTxRateMs <= 0 && tx.cmdCount == 0 && tx.buf == []
  }

  lemma FreshOnce(q: QueueInfo, tx: Tx, now: nat)
    requires Fresh(q, tx) && Consistent(q, tx) && tx.entries != []
    ensures var p := CheckOnce(q, tx, now, true);
      && p.again && Fresh(q, p.tx) && Consistent(q, p.tx)
      && |p.tx.entries| <= |tx.entries|
      && (FitsAlone(tx.entries[0].cmd) ==> |p.tx.entries| < |tx.entries|)
      && (AllFit(p.tx) <==> AllFit(tx))
  {
    AgainPops(q, tx, now, true);
    var n := PackFrom(Cmds(tx.entries), 0, false).count;
    CountedFit(Cmds(tx.entries), 0);
    var t := CheckOnce(q, tx, now, true).tx;
    assert t.entries == tx.entries[n..];
    if AllFit(t) {
      forall i | 0 <= i < |tx.entries| ensures FitsAlone(tx.entries[i].cmd) {
        if i < n {
          assert FitsAlone(Cmds(tx.entries)[i]);
        } else {
          assert tx.entries[i] == t.entries[i - n];
        }
      }
    }
  }

  lemma {:induction false} FreshTimes(q: QueueInfo, tx: Tx, now: nat, k: nat)
    requires Fresh(q, tx) && Consistent(q, tx)
    ensures var t := CheckTimes(q, tx, now, k);
      Fresh(q, t) && Consistent(q, t) && (AllFit(t) <==> AllFit(tx))
      && (AllFit(tx) ==> |t.entries| <= if k <= |tx.entries| then |tx.entries| - k else 0)
  {
    hide Consistent, CheckOnce, FitsAlone;
    if k > 0 {
      FreshTimes(q, tx, now, k - 1);
      var t := CheckTimes(q, tx, now, k - 1);
      if t.entries != [] {
        FreshOnce(q, t, now);
      }
    }
  }

  /** With a transport that takes everything, a queue that is not acknowledged is emptied by looking
      at it often enough if and only if every command in it fits in a pack; otherwise looking at it
      goes on forever. */
  lemma NoAckDrainsIff(q: QueueInfo, tx: Tx, now: nat)
    requires Fresh(q, tx) && Consistent(q, tx)
    ensures (exists k: nat :: CheckTimes(q, tx, now, k).entries == []) <==> AllFit(tx)
    ensures !AllFit(tx) ==> forall k: nat :: CheckOnce(q, CheckTimes(q, tx, now, k), now, true).again
  {
    FreshTimes(q, tx, now, |tx.entries|);
    forall k: nat ensures !AllFit(tx) ==>
        CheckTimes(q, tx, now, k).entries != [] && CheckOnce(q, CheckTimes(q, tx, now, k), now, true).again
    {
      FreshTimes(q, tx, now, k);
      var t := CheckTimes(q, tx, now, k);
      if t.entries != [] {
        FreshOnce(q, t, now);
      }
    }
    if AllFit(tx) {
      assert CheckTimes(q, tx, now, |tx.entries|).entries == [];
    }
  }

  /** What livelocks: each time the entries are the same and the frame has only the size of the
      oversize command. */
  lemma OversizeOnce(q: QueueInfo, tx: Tx, now: nat)
    requires Consistent(q, tx) && !q.ack && tx.entries != [] && tx.cmdCount == 0 && tx.buf == []
    requires !FitsAlone(tx.entries[0].cmd) && q.maxTxRateMs <= 0
    ensures var p := CheckOnce(q, tx, now, true);
      && p.again && p.tx.entries == tx.entries && p.tx.cmdCount == 0 && p.tx.buf == []
      && Consistent(q, p.tx) && p.frame.value.payload == WriteVarint(|tx.entries[0].cmd|)
  {
    CheckOnceKeeps(q, tx, now, true);
    var size := WriteVarint(|tx.entries[0].cmd|);
    assert Pack(Cmds(tx.entries), 0, false) == PackResult(size, 0, 0);
    assert [] + size == size && tx.entries[0..] == tx.entries;
  }

  // ----- Acknowledgements -----

  /** How many commands the current pack completes. */
  function CompletedNow(tx: Tx): nat {
    if tx.rem == 0 || tx.cmdCount == 0 then tx.cmdCount else tx.cmdCount - 1
  }

  /** The acknowledgement of the pack with number `num` arrives. It is only counted when it is a
      repetition of the last one and ignored when it was not waited for; otherwise the completed
      commands are notified and leave the queue. The waiting flag stays set. */
  function RecvAck(q: QueueInfo, tx: Tx, num: u16): Tx
    requires tx.entries == [] || Consistent(q, tx)
  {
    if num == tx.lastNum then tx.(lastAckCount := tx.lastAckCount + 1)
    else if num != tx.num || !tx.waitingAck || tx.entries == [] then tx
    else
      var n := CompletedNow(tx);
      tx.(entries := tx.entries[n..], log := tx.log + AckEvents(tx.entries, n, num),
          lastNum := tx.num, lastSentCount := tx.sentCount, lastAckCount := 1, lastRem := tx.rem,
          buf := [], cmdCount := 0, sentCount := 0, rem := 0)
  }

  lemma RecvAckKeeps(q: QueueInfo, tx: Tx, num: u16)
    requires Consistent(q, tx)
    ensures Consistent(q, RecvAck(q, tx, num))
  {
    if num != tx.lastNum && num == tx.num && tx.waitingAck && tx.entries != [] {
      var n := CompletedNow(tx);
      assert Cmds(tx.entries[n..]) == Cmds(tx.entries)[n..];
      assert Cmds(tx.entries)[..tx.cmdCount][tx.cmdCount - 1] == Cmds(tx.entries)[tx.cmdCount - 1];
    }
  }

  /** What comes of the waiting flag that stays set: after the acknowledgement that is waited for, a
      queue with entries left transmits nothing until the timeout of the acknowledged pack is over,
      and the delay between packs, too. */
  lemma AckDoesNotRelease(q: QueueInfo, tx: Tx, now: nat, ok: bool)
    requires q.ack && Consistent(q, tx) && tx.waitingAck && tx.num != tx.lastNum && tx.entries != []
    ensures var t := RecvAck(q, tx, tx.num);
      && Consistent(q, t) && t.lastNum == tx.num
      && (t.entries != [] ==>
        (CheckOnce(q, t, now, ok).frame == None <==>
          Remaining(q.ackTimeoutMs, tx.sentTs, now) > 0
          || (q.maxTxRateMs > 0 && Remaining(q.maxTxRateMs, tx.lastSentTs, now) > 0)))
  {
    hide Consistent, PackCmds, Remaining;
    RecvAckKeeps(q, tx, tx.num);
  }

  // ----- Stopping -----

  /** Stopping a queue cancels its entries; the pack is left as it is. */
  function Stop(tx: Tx): Tx {
    tx.(entries := [], log := tx.log + CancelEvents(tx.entries))
  }
}
