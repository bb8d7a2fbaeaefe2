/** Version 3 of the command interface as a whole: several transmit queues, the reception state of
    each queue identifier, and the timer. */
module InterfaceV3 {
  import opened Bytes
  import opened Commands
  import opened RingBuffer
  import opened PackV3
  import opened StopAndWait
  import opened QueueV3
  import opened TransportLayer
  import opened TxQueueV3

  // ----- Looking at all the queues -----

  /** The queues, the packets sent, the number of frames given to the transport and the delay. */
  datatype AllChecked = AllChecked(txs: seq<Tx>, sent: seq<Packet>, tries: nat, next: int)

  ghost predicate AllReady(qs: seq<QueueInfo>, txs: seq<Tx>) {
    |qs| == |txs| && forall i :: 0 <= i < |qs| ==>
      (txs[i].entries == [] || Consistent(qs[i], txs[i])) && Ends(qs[i], txs[i])
  }

  /** Looks at the first `k` queues in turn, keeping the shortest delay. */
  ghost function CheckUpTo(qs: seq<QueueInfo>, txs: seq<Tx>, now: nat, takes: nat -> bool, tries: nat, k: nat): (r: AllChecked)
    requires AllReady(qs, txs) && k <= |qs|
    ensures |r.txs| == |txs| && r.txs[k..] == txs[k..]
  {
    if k == 0 then AllChecked(txs, [], tries, -1)
    else
      var r := CheckUpTo(qs, txs, now, takes, tries, k - 1);
      var c := CheckAll(qs[k - 1], txs[k - 1], now, takes, r.tries);
      AllChecked(r.txs[k - 1 := c.tx], r.sent + Packets(qs[k - 1], c.sent), c.tries, Sooner(r.next, c.deadline))
  }

  lemma CheckUpToStart(qs: seq<QueueInfo>, txs: seq<Tx>, now: nat, takes: nat -> bool, tries: nat)
    requires AllReady(qs, txs)
    ensures CheckUpTo(qs, txs, now, takes, tries, 0) == AllChecked(txs, [], tries, -1)
  {
  }

  lemma CheckUpToStep(qs: seq<QueueInfo>, txs: seq<Tx>, now: nat, takes: nat -> bool, tries: nat, k: nat)
    requires AllReady(qs, txs) && 0 < k <= |qs|
    ensures var r := CheckUpTo(qs, txs, now, takes, tries, k - 1);
      var c := CheckAll(qs[k - 1], txs[k - 1], now, takes, r.tries);
      CheckUpTo(qs, txs, now, takes, tries, k) ==
        AllChecked(r.txs[k - 1 := c.tx], r.sent + Packets(qs[k - 1], c.sent), c.tries, Sooner(r.next, c.deadline))
  {
  }

  /** When a queue that is not empty has to be looked at again: the time left for its
      acknowledgement if it is waited for, else the time left between two packs. */
  function Deadline(q: QueueInfo, tx: Tx, now: nat): int {
    if tx.waitingAck then Remaining(q.ackTimeoutMs, tx.sentTs, now)
    else Remaining(q.maxTxRateMs, tx.lastSentTs, now)
  }

  /** When exactly a look at a queue gives no deadline: the queue is empty, or no delay is running and
      the transport refuses the frame or there is no acknowledgement timeout. */
  lemma CheckOnceDeadline(q: QueueInfo, tx: Tx, now: nat, ok: bool)
    requires tx.entries == [] || Consistent(q, tx)
    ensures var p := CheckOnce(q, tx, now, ok);
      && (p.frame.Some? <==> tx.entries != [] && !Waits(q, tx, now))
      && (p.again <==> tx.entries != [] && !Waits(q, tx, now) && ok && !q.ack)
    ensures var p := CheckOnce(q, tx, now, ok);
      !p.again ==>
        && (p.deadline == None <==> tx.entries == [] || (!Waits(q, tx, now) && (!ok || q.ackTimeoutMs <= 0)))
        && (p.tx.entries == [] <==> tx.entries == [])
        && (p.deadline.Some? ==> p.deadline.value == Deadline(q, p.tx, now) > 0)
  {
    hide Consistent;
    if tx.entries != [] && tx.cmdCount == 0 {
      assert Consistent(q, tx);
    }
  }

  /** A deadline is exact: while `e` milliseconds are less than it, another look at the queue does
      nothing but count down; when they are over, it transmits, unless a minimum delay is running
      besides the wait for the acknowledgement. */
  lemma DeadlineIsExact(q: QueueInfo, tx: Tx, now: nat, e: nat, ok: bool)
    requires Consistent(q, tx) && tx.entries != [] && Deadline(q, tx, now) > 0
    ensures var d, p := Deadline(q, tx, now), CheckOnce(q, tx, now + 1000 * e, ok);
      && (e < d ==> p == Pass(tx, None, Some(d - e), false))
      && (e >= d ==>
        (p.frame == None <==>
          tx.waitingAck && q.maxTxRateMs > 0 && Remaining(q.maxTxRateMs, tx.lastSentTs, now + 1000 * e) > 0))
  {
    hide Consistent, PackCmds;
    if tx.waitingAck {
      RemainingIsExact(q.ackTimeoutMs, tx.sentTs, now, e);
    } else {
      RemainingIsExact(q.maxTxRateMs, tx.lastSentTs, now, e);
    }
  }

  const ALWAYS: nat -> bool := _ => true

  /** How many frames looking at a queue gives to a transport that takes all of them. */
  function Frames(q: QueueInfo, tx: Tx, now: nat): nat
    requires (tx.entries == [] || Consistent(q, tx)) && Ends(q, tx)
  {
    CheckAll(q, tx, now, ALWAYS, 0).tries
  }

  /** When a queue is left with entries and without a deadline: the transport refuses one of the frames
      that it would need to take, or an acknowledged frame is sent without a timeout. */
  predicate Forgotten(q: QueueInfo, tx: Tx, now: nat, takes: nat -> bool, tries: nat)
    requires (tx.entries == [] || Consistent(q, tx)) && Ends(q, tx)
  {
    || (exists i :: tries <= i < tries + Frames(q, tx, now) && !takes(i))
    || (q.ack && q.ackTimeoutMs <= 0 && Frames(q, tx, now) > 0)
  }

  lemma {:induction false} FramesFrom(q: QueueInfo, tx: Tx, now: nat, tries: nat)
    requires (tx.entries == [] || Consistent(q, tx)) && Ends(q, tx)
    ensures CheckAll(q, tx, now, ALWAYS, tries).tries == tries + Frames(q, tx, now)
    decreases CheckMeasure(q, tx, now).0, CheckMeasure(q, tx, now).1
  {
    hide Consistent, CheckOnce, Ends;
    var p := CheckOnce(q, tx, now, true);
    ReadyAfter(q, tx, now, true);
    if p.again {
      FramesFrom(q, p.tx, now, tries + 1);
      FramesFrom(q, p.tx, now, 1);
    }
  }

  /** The frames of one look and those of the looks after it. */
  lemma FramesStep(q: QueueInfo, tx: Tx, now: nat)
    requires (tx.entries == [] || Consistent(q, tx)) && Ends(q, tx)
    ensures var p := CheckOnce(q, tx, now, true);
      && (p.tx.entries == [] || Consistent(q, p.tx)) && (p.again ==> Ends(q, p.tx))
      && Frames(q, tx, now) == (if p.frame.Some? then 1 else 0) + if p.again then Frames(q, p.tx, now) else 0
  {
    hide Consistent, CheckOnce, Ends;
    ReadyAfter(q, tx, now, true);
    var p := CheckOnce(q, tx, now, true);
    if p.again {
      FramesFrom(q, p.tx, now, 1);
    }
  }

  /** After looking at a queue until there is nothing to do at once, over any transport: it is left with
      entries and without a deadline if and only if it is forgotten; any deadline is that of its
      entries, and positive. */
  lemma {:induction false} CheckAllDeadline(q: QueueInfo, tx: Tx, now: nat, takes: nat -> bool, tries: nat)
    requires (tx.entries == [] || Consistent(q, tx)) && Ends(q, tx)
    ensures var c := CheckAll(q, tx, now, takes, tries);
      && (c.tx.entries != [] && c.deadline == None <==> Forgotten(q, tx, now, takes, tries))
      && (c.deadline.Some? ==> c.tx.entries != [] && c.deadline.value == Deadline(q, c.tx, now) > 0)
    decreases CheckMeasure(q, tx, now).0, CheckMeasure(q, tx, now).1
  {
    hide Consistent, CheckOnce, Ends, Frames, Waits, Deadline, CheckMeasure;
    var p := CheckOnce(q, tx, now, takes(tries));
    ReadyAfter(q, tx, now, takes(tries));
    CheckOnceDeadline(q, tx, now, takes(tries));
    CheckOnceDeadline(q, tx, now, true);
    FramesStep(q, tx, now);
    if p.again {
      CheckAllDeadline(q, p.tx, now, takes, tries + 1);
      ForgottenLater(q, tx, p.tx, now, takes, tries);
    } else if p.frame.Some? && !takes(tries) {
      assert Frames(q, tx, now) > 0 && !takes(tries);
    }
  }

  lemma ForgottenLater(q: QueueInfo, tx: Tx, tx': Tx, now: nat, takes: nat -> bool, tries: nat)
    requires (tx.entries == [] || Consistent(q, tx)) && Ends(q, tx)
    requires (tx'.entries == [] || Consistent(q, tx')) && Ends(q, tx')
    requires !q.ack && takes(tries) && Frames(q, tx, now) == 1 + Frames(q, tx', now)
    ensures Forgotten(q, tx, now, takes, tries) <==> Forgotten(q, tx', now, takes, tries + 1)
  {
    hide Consistent, Ends, Frames;
  }

  /** Which of the first `k` queues are left with entries and have a deadline for them. */
  ghost function Due(qs: seq<QueueInfo>, txs: seq<Tx>, now: nat, takes: nat -> bool, tries: nat, k: nat): (r: seq<bool>)
    requires AllReady(qs, txs) && k <= |qs|
    ensures |r| == k
  {
    if k == 0 then []
    else
      var before := CheckUpTo(qs, txs, now, takes, tries, k - 1);
      var left := CheckUpTo(qs, txs, now, takes, tries, k).txs[k - 1].entries;
      Due(qs, txs, now, takes, tries, k - 1) + [left != [] && !Forgotten(qs[k - 1], txs[k - 1], now, takes, before.tries)]
  }

  /** The delay is the least deadline of the queues that are due. */
  ghost predicate IsLeastDeadline(next: int, qs: seq<QueueInfo>, txs: seq<Tx>, now: nat, due: seq<bool>)
    requires |due| <= |qs| == |txs|
  {
    && (next < 0 <==> forall i :: 0 <= i < |due| ==> !due[i])
    && (next >= 0 ==>
      && next > 0
      && (forall i :: 0 <= i < |due| && due[i] ==> next <= Deadline(qs[i], txs[i], now))
      && (exists i :: 0 <= i < |due| && due[i] && next == Deadline(qs[i], txs[i], now)))
  }

  /** What looking at all the queues gives, over any transport: the least deadline of the queues that
      are left with entries and not forgotten. Nothing wakes the interface up if and only if every
      queue that is left with entries is forgotten. */
  lemma {:induction false} WakeUp(qs: seq<QueueInfo>, txs: seq<Tx>, now: nat, takes: nat -> bool, tries: nat, k: nat)
    requires AllReady(qs, txs) && k <= |qs|
    ensures var r := CheckUpTo(qs, txs, now, takes, tries, k);
      IsLeastDeadline(r.next, qs, r.txs, now, Due(qs, txs, now, takes, tries, k))
  {
    hide Consistent, CheckAll, CheckUpTo, Deadline, Ends, Forgotten;
    if k == 0 {
      CheckUpToStart(qs, txs, now, takes, tries);
    } else {
      hide IsLeastDeadline;
      WakeUp(qs, txs, now, takes, tries, k - 1);
      CheckUpToStep(qs, txs, now, takes, tries, k);
      var r0 := CheckUpTo(qs, txs, now, takes, tries, k - 1);
      CheckAllDeadline(qs[k - 1], txs[k - 1], now, takes, r0.tries);
      var c := CheckAll(qs[k - 1], txs[k - 1], now, takes, r0.tries);
      LeastDeadlineStep(r0.next, qs, r0.txs, now, Due(qs, txs, now, takes, tries, k - 1), c.tx, c.deadline);
    }
  }

  lemma LeastDeadlineStep(next: int, qs: seq<QueueInfo>, txs: seq<Tx>, now: nat, due: seq<bool>, tx: Tx, deadline: Option<int>)
    requires |due| < |qs| == |txs| && IsLeastDeadline(next, qs, txs, now, due)
    requires deadline.Some? ==> deadline.value == Deadline(qs[|due|], tx, now) > 0
    ensures IsLeastDeadline(Sooner(next, deadline), qs, txs[|due| := tx], now, due + [deadline.Some?])
  {
    hide Deadline;
    var k := |due|;
    var txs', due' := txs[k := tx], due + [deadline.Some?];
    if next >= 0 {
      var i :| 0 <= i < k && due[i] && next == Deadline(qs[i], txs[i], now);
      assert txs'[i] == txs[i] && due'[i];
    } else {
      assert forall i :: 0 <= i < k ==> !due'[i];
    }
    assert txs'[k] == tx && due'[k] == deadline.Some?;
    assert forall i :: 0 <= i < k ==> due'[i] == due[i] && txs'[i] == txs[i];
  }

  lemma {:induction false} CheckUpToReady(qs: seq<QueueInfo>, txs: seq<Tx>, now: nat, takes: nat -> bool, tries: nat, k: nat)
    requires AllReady(qs, txs) && k <= |qs|
    ensures AllReady(qs, CheckUpTo(qs, txs, now, takes, tries, k).txs)
  {
    hide CheckUpTo, CheckAll, Consistent, Ends;
    if k == 0 {
      CheckUpToStart(qs, txs, now, takes, tries);
    } else {
      CheckUpToReady(qs, txs, now, takes, tries, k - 1);
      CheckUpToStep(qs, txs, now, takes, tries, k);
      CheckedReady(qs[k - 1], txs[k - 1], now, takes, CheckUpTo(qs, txs, now, takes, tries, k - 1).tries);
    }
  }

  /** None of the queues that are due would transmit at the given time. */
  ghost predicate Quiet(qs: seq<QueueInfo>, txs: seq<Tx>, due: seq<bool>, at: nat)
    requires AllReady(qs, txs) && |due| <= |qs|
  {
    forall i :: 0 <= i < |due| && due[i] ==> CheckOnce(qs[i], txs[i], at, true).frame == None
  }

  /** The delay that looking at all the queues gives is exact: before it is over none of the queues that
      are due would transmit, and when it is over one of them would, if there are no minimum delays. */
  lemma TimerIsExact(qs: seq<QueueInfo>, txs: seq<Tx>, now: nat, takes: nat -> bool, tries: nat, e: nat)
    requires AllReady(qs, txs) && CheckUpTo(qs, txs, now, takes, tries, |qs|).next > 0
    ensures var r, due := CheckUpTo(qs, txs, now, takes, tries, |qs|), Due(qs, txs, now, takes, tries, |qs|);
      && AllReady(qs, r.txs)
      && (e < r.next ==> Quiet(qs, r.txs, due, now + 1000 * e))
      && ((forall q <- qs :: q.maxTxRateMs <= 0) ==> !Quiet(qs, r.txs, due, now + 1000 * r.next))
  {
    hide CheckUpTo, Consistent, Ends, CheckOnce, Deadline, Due;
    var r, due := CheckUpTo(qs, txs, now, takes, tries, |qs|), Due(qs, txs, now, takes, tries, |qs|);
    CheckUpToReady(qs, txs, now, takes, tries, |qs|);
    WakeUp(qs, txs, now, takes, tries, |qs|);
    DueHasEntries(qs, txs, now, takes, tries, |qs|);
    forall i | 0 <= i < |due| && due[i] && e < r.next
      ensures CheckOnce(qs[i], r.txs[i], now + 1000 * e, true).frame == None
    {
      DeadlineIsExact(qs[i], r.txs[i], now, e, true);
    }
    var i :| 0 <= i < |due| && due[i] && r.next == Deadline(qs[i], r.txs[i], now);
    DeadlineIsExact(qs[i], r.txs[i], now, r.next, true);
  }

  /** The timer that looking at all the queues sets is right: there is none if and only if no queue is
      due, and else it fires exactly when the first of those that are due would transmit. */
  ghost predicate TimerOk(qs: seq<QueueInfo>, txs: seq<Tx>, now: nat, takes: nat -> bool, tries: nat, timer: Option<nat>)
    requires AllReady(qs, txs)
  {
    var r, due := CheckUpTo(qs, txs, now, takes, tries, |qs|), Due(qs, txs, now, takes, tries, |qs|);
    && AllReady(qs, r.txs)
    && (timer == None <==> forall i :: 0 <= i < |due| ==> !due[i])
    && (timer.Some? ==>
      && (forall e: nat :: e < timer.value ==> Quiet(qs, r.txs, due, now + 1000 * e))
      && ((forall q <- qs :: q.maxTxRateMs <= 0) ==> !Quiet(qs, r.txs, due, now + 1000 * timer.value)))
  }

  lemma TimerIsOk(qs: seq<QueueInfo>, txs: seq<Tx>, now: nat, takes: nat -> bool, tries: nat)
    requires AllReady(qs, txs)
    ensures var next := CheckUpTo(qs, txs, now, takes, tries, |qs|).next;
      TimerOk(qs, txs, now, takes, tries, if next > 0 then Some(next) else None)
  {
    hide CheckUpTo, Due, Quiet, AllReady, Deadline;
    var r, due := CheckUpTo(qs, txs, now, takes, tries, |qs|), Due(qs, txs, now, takes, tries, |qs|);
    CheckUpToReady(qs, txs, now, takes, tries, |qs|);
    WakeUp(qs, txs, now, takes, tries, |qs|);
    if r.next > 0 {
      forall e: nat | e < r.next ensures Quiet(qs, r.txs, due, now + 1000 * e) {
        TimerIsExact(qs, txs, now, takes, tries, e);
      }
      TimerIsExact(qs, txs, now, takes, tries, 0);
    }
  }

  lemma {:induction false} DueHasEntries(qs: seq<QueueInfo>, txs: seq<Tx>, now: nat, takes: nat -> bool, tries: nat, k: nat)
    requires AllReady(qs, txs) && k <= |qs|
    ensures var r, due := CheckUpTo(qs, txs, now, takes, tries, k), Due(qs, txs, now, takes, tries, k);
      forall i :: 0 <= i < k && due[i] ==> r.txs[i].entries != []
  {
    hide CheckUpTo, CheckAll, Consistent, Ends, Forgotten;
    if k > 0 {
      DueHasEntries(qs, txs, now, takes, tries, k - 1);
      CheckUpToStep(qs, txs, now, takes, tries, k);
    }
  }

  /** No lost wake-up: when the transport takes every frame and every acknowledged queue has a
      timeout, a queue is due if and only if it is left with entries. */
  lemma {:induction false} NoLostWakeUp(qs: seq<QueueInfo>, txs: seq<Tx>, now: nat, takes: nat -> bool, tries: nat, k: nat)
    requires AllReady(qs, txs) && k <= |qs| && (forall i: nat :: takes(i))
    requires forall i :: 0 <= i < |qs| ==> qs[i].ack ==> qs[i].ackTimeoutMs > 0
    ensures var r, due := CheckUpTo(qs, txs, now, takes, tries, k), Due(qs, txs, now, takes, tries, k);
      && IsLeastDeadline(r.next, qs, r.txs, now, due)
      && forall i :: 0 <= i < k ==> (due[i] <==> r.txs[i].entries != [])
  {
    hide Consistent, CheckAll, CheckUpTo, Deadline, Ends, Frames, IsLeastDeadline;
    WakeUp(qs, txs, now, takes, tries, k);
    if k > 0 {
      NoLostWakeUp(qs, txs, now, takes, tries, k - 1);
      CheckUpToStep(qs, txs, now, takes, tries, k);
    }
  }

  /** Looking at a queue leaves it ready to be looked at. */
  lemma {:induction false} CheckedReady(q: QueueInfo, tx: Tx, now: nat, takes: nat -> bool, tries: nat)
    requires (tx.entries == [] || Consistent(q, tx)) && Ends(q, tx)
    ensures var t := CheckAll(q, tx, now, takes, tries).tx;
      && (t.entries == [] || Consistent(q, t)) && Ends(q, t)
      && (Consistent(q, tx) ==> Consistent(q, t))
    decreases CheckMeasure(q, tx, now).0, CheckMeasure(q, tx, now).1
  {
    hide Consistent, Ends;
    var p := CheckOnce(q, tx, now, takes(tries));
    ReadyAfter(q, tx, now, takes(tries));
    StillEnds(q, tx, now, takes(tries));
    if p.again {
      CheckedReady(q, p.tx, now, takes, if p.frame.Some? then tries + 1 else tries);
    }
  }

  /** Looking at a queue once leaves no larger commands in it, and keeps it consistent. */
  lemma StillEnds(q: QueueInfo, tx: Tx, now: nat, ok: bool)
    requires (tx.entries == [] || Consistent(q, tx)) && Ends(q, tx)
    ensures Ends(q, CheckOnce(q, tx, now, ok).tx)
    ensures Consistent(q, tx) ==> Consistent(q, CheckOnce(q, tx, now, ok).tx)
  {
    hide Remaining, Encode, ValidCut, PackEvents, Pack;
    if Consistent(q, tx) {
      CheckOnceKeeps(q, tx, now, ok);
    }
  }

  // ----- The interface -----

  /** Allocates the queues with the given settings. */
  method NewQueues(infos: seq<QueueInfo>) returns (qs: seq<TxQueue>)
    ensures |qs| == |infos|
    ensures forall k :: 0 <= k < |qs| ==>
      && fresh(qs[k]) && fresh(qs[k].ring) && fresh(qs[k].ring.entries)
      && qs[k].info == infos[k] && qs[k].Valid() && qs[k].View() == NEW_TX && Consistent(infos[k], NEW_TX)
    ensures forall k, m :: 0 <= k < m < |qs| ==>
      qs[k] != qs[m] && qs[k].ring != qs[m].ring && qs[k].ring.entries != qs[m].ring.entries
  {
    hide TxQueue.View, Ring.Contents;
    qs := [];
    for i := 0 to |infos|
      invariant |qs| == i
      invariant forall k :: 0 <= k < i ==>
        && fresh(qs[k]) && fresh(qs[k].ring) && fresh(qs[k].ring.entries)
        && qs[k].info == infos[k] && qs[k].Valid() && qs[k].View() == NEW_TX && Consistent(infos[k], NEW_TX)
      invariant forall k, m :: 0 <= k < m < i ==>
        qs[k] != qs[m] && qs[k].ring != qs[m].ring && qs[k].ring.entries != qs[m].ring.entries
    {
      var q := new TxQueue(infos[i]);
      qs := qs + [q];
    }
  }

  class CmdItf3 {
    const queues: seq<TxQueue>
    const net: Transport<Packet>
    /** Added to the identifier of a queue to get that of its acknowledgements. */
    const ackoff: byte
    const recvSeq: array<u16>
    const partial: array<Option<Partial>>
    /** Whether the transport is still there: not after the stop. */
    var open: bool
    var nextAckSeq: u16
    /** The delay for which the timer is set. */
    var timer: Option<nat>
    /** The commands given to the application, with the queue that they came from. */
    var received: seq<(byte, seq<byte>)>

    /** A new interface over the given transport: nothing queued, and ready to accept the first data
        frame of each identifier. */
    constructor (net: Transport<Packet>, infos: seq<QueueInfo>, ackoff: byte)
      ensures this.net == net && this.ackoff == ackoff && open && nextAckSeq == 0 && timer == None && received == []
      ensures Valid() && Infos() == infos && Views() == seq(|infos|, _ => NEW_TX)
      ensures fresh(recvSeq) && fresh(partial) && forall q <- queues :: fresh(q) && fresh(q.ring) && fresh(q.ring.entries)
      ensures (forall id :: 0 <= id < 256 ==> recvSeq[id] == 0xFFFF && partial[id] == None)
    {
      hide TxQueue.View, Ring.Contents, Ring.Valid, Consistent, CmdItf3.Valid;
      this.net, this.ackoff := net, ackoff;
      open, nextAckSeq, timer, received := true, 0, None, [];
      var qs := NewQueues(infos);
      queues := qs;
      recvSeq := new u16[256](_ => 0xFFFF);
      partial := new Option<Partial>[256](_ => None);
      new;
      assert Infos() == infos;
      UsableIsValid(seq(|infos|, _ => NEW_TX));
    }

    /** The queues, their buffers and the reception arrays are different objects. */
    ghost predicate Separate()
      reads set q <- queues :: q.ring
    {
      && (forall i, j :: 0 <= i < j < |queues| ==>
        queues[i] != queues[j] && queues[i].ring != queues[j].ring && queues[i].ring.entries != queues[j].ring.entries)
      && recvSeq.Length == 256 && partial.Length == 256
    }

    ghost predicate Valid()
      reads `open, queues, set q <- queues :: q.ring, set q <- queues :: q.ring.entries
    {
      && Separate()
      && (forall i :: 0 <= i < |queues| ==> queues[i].Ready() && Ends(queues[i].info, queues[i].View()))
      && (open ==> forall i :: 0 <= i < |queues| ==> Consistent(queues[i].info, queues[i].View()))
    }

    ghost function Infos(): (r: seq<QueueInfo>)
      ensures |r| == |queues|
    {
      seq(|queues|, i requires 0 <= i < |queues| => queues[i].info)
    }

    /** The queues as values. */
    ghost function Views(): (r: seq<Tx>)
      requires forall i :: 0 <= i < |queues| ==> queues[i].Valid()
      reads queues, set q <- queues :: q.ring, set q <- queues :: q.ring.entries
      ensures |r| == |queues|
    {
      seq(|queues|, i requires 0 <= i < |queues|
        reads queues, set q <- queues :: q.ring, set q <- queues :: q.ring.entries
        requires queues[i].Valid() => queues[i].View())
    }

    /** The queues, as values, are `txs`. */
    ghost predicate Shows(txs: seq<Tx>)
      reads queues, set q <- queues :: q.ring, set q <- queues :: q.ring.entries
    {
      && Separate() && |txs| == |queues|
      && forall i :: 0 <= i < |queues| ==> queues[i].Valid() && queues[i].View() == txs[i]
    }

    /** Queues with these values are ready, and consistent when the transport is there. */
    ghost predicate Usable(txs: seq<Tx>)
      reads `open
    {
      AllReady(Infos(), txs) && (open ==> forall i :: 0 <= i < |txs| ==> Consistent(queues[i].info, txs[i]))
    }

    lemma ValidQueues()
      requires Valid()
      ensures forall i :: 0 <= i < |queues| ==> queues[i].Valid()
    {
    }

    lemma ValidIsUsable()
      requires Valid()
      ensures Shows(Views()) && Usable(Views())
    {
    }

    lemma UsableIsValid(txs: seq<Tx>)
      requires Shows(txs) && Usable(txs)
      ensures Valid() && Views() == txs
    {
      assert forall i :: 0 <= i < |queues| ==> Infos()[i] == queues[i].info;
    }

    /** Looks at one of the queues; the others stay as they are. */
    method CheckOne(i: nat, now: nat, nextMs: int, ghost txs: seq<Tx>) returns (nextMs': int)
      requires Shows(txs) && Usable(txs) && i < |queues|
      modifies queues[i], queues[i].ring`head, queues[i].ring`count, net
      ensures forall q <- queues :: q.ring.entries == old(q.ring.entries)
      ensures var c := CheckAll(queues[i].info, txs[i], now, net.takes, old(net.tries));
        && Shows(txs[i := c.tx]) && Usable(txs[i := c.tx])
        && net.tries == c.tries && nextMs' == Sooner(nextMs, c.deadline)
        && net.sent == old(net.sent) + Packets(queues[i].info, c.sent)
    {
      hide Consistent, CheckAll, Ends, TxQueue.View, Ring.Contents, Ring.Valid;
      assert Infos()[i] == queues[i].info;
      CheckedReady(queues[i].info, txs[i], now, net.takes, net.tries);
      nextMs' := queues[i].CheckTxQueue(net, now, nextMs);
    }

    /** Looks at all the queues and sets the timer. */
    method CheckTxQueues(now: nat)
      requires Valid()
      modifies `timer, queues, set q <- queues :: q.ring, net
      ensures Valid()
      ensures var r := CheckUpTo(Infos(), old(Views()), now, net.takes, old(net.tries), |queues|);
        && Views() == r.txs && net.sent == old(net.sent) + r.sent && net.tries == r.tries
        && timer == if r.next > 0 then Some(r.next) else None
      ensures AllReady(Infos(), old(Views())) && TimerOk(Infos(), old(Views()), now, net.takes, old(net.tries), timer)
      ensures forall q <- queues :: q.ring.entries == old(q.ring.entries)
    {
      hide CheckAll, CheckUpTo, TimerOk, TxQueue.View, CmdItf3.Shows, CmdItf3.Usable, CmdItf3.Valid;
      ValidQueues();
      ghost var txs := Views();
      ghost var tries, sent0 := net.tries, net.sent;
      ValidIsUsable();
      var nextMs := -1;
      ghost var r := CheckUpTo(Infos(), txs, now, net.takes, tries, 0);
      CheckUpToStart(Infos(), txs, now, net.takes, tries);
      for i := 0 to |queues|
        invariant AllReady(Infos(), txs) && r == CheckUpTo(Infos(), txs, now, net.takes, tries, i)
        invariant Shows(r.txs) && Usable(r.txs)
        invariant forall q <- queues :: q.ring.entries == old(q.ring.entries)
        invariant net.sent == sent0 + r.sent && net.tries == r.tries && nextMs == r.next
      {
        assert r.txs[i] == r.txs[i..][0] == txs[i..][0];
        assert Infos()[i] == queues[i].info;
        CheckUpToStep(Infos(), txs, now, net.takes, tries, i + 1);
        nextMs := CheckOne(i, now, nextMs, r.txs);
        r := CheckUpTo(Infos(), txs, now, net.takes, tries, i + 1);
      }
      timer := if nextMs > 0 then Some(nextMs) else None;
      UsableIsValid(r.txs);
      TimerIsOk(Infos(), txs, now, net.takes, tries);
    }

    /** An acknowledgement frame with identifier `id` goes to the first queue that it belongs to. */
    method RecvAckFrame(id: byte, payload: seq<byte>)
      requires Valid()
      modifies queues, set q <- queues :: q.ring
      ensures Valid() && Views() == AckedViews(Infos(), old(Views()), id as int - ackoff as int, payload)
      ensures forall q <- queues :: q.ring.entries == old(q.ring.entries)
    {
      hide Consistent, Ends, TxQueue.View, CmdItf3.Shows, CmdItf3.Usable, CmdItf3.Valid;
      ValidQueues();
      ValidIsUsable();
      ghost var txs := Views();
      if |payload| < 2 {
        return;
      }
      var ackNum := FromLittleEndian(payload[..2]);
      FromLittleEndianRoundTrip(payload[..2]);
      for i := 0 to |queues|
        invariant Shows(txs) && Usable(txs)
        invariant forall q <- queues :: q.ring.entries == old(q.ring.entries)
        invariant FindQueue(Infos(), id as int - ackoff as int) == FindQueueFrom(Infos(), id as int - ackoff as int, i)
      {
        assert Infos()[i] == queues[i].info;
        if queues[i].info.id as int == id as int - ackoff as int {
          AckOne(i, ackNum, txs);
          UsableIsValid(txs[i := RecvAck(queues[i].info, txs[i], ackNum)]);
          return;
        }
      }
      UsableIsValid(txs);
    }

    /** Any frame arrives from the transport. An acknowledgement goes to its queue, all the queues
        are looked at, and its number is remembered under its own identifier. */
    method RecvData(dataType: DataType, id: byte, num: u16, payload: seq<byte>, now: nat) returns (res: Errno)
      requires Valid()
      modifies recvSeq, partial, `received, `nextAckSeq, `timer, net, queues, set q <- queues :: q.ring
      ensures Valid()
      ensures !old(open) ==>
        && res == EPipe && Views() == old(Views()) && received == old(received)
        && recvSeq[..] == old(recvSeq[..]) && partial[..] == old(partial[..])
        && net.sent == old(net.sent) && net.tries == old(net.tries) && timer == old(timer) && nextAckSeq == old(nextAckSeq)
      ensures old(open) && dataType == Ack ==>
        var acked := AckedViews(Infos(), old(Views()), id as int - ackoff as int, payload);
        && AllReady(Infos(), acked)
        && var r := CheckUpTo(Infos(), acked, now, net.takes, old(net.tries), |queues|);
        && Views() == r.txs && net.sent == old(net.sent) + r.sent
        && timer == (if r.next > 0 then Some(r.next) else None)
        && recvSeq[..] == old(recvSeq[..])[id as int := num]
        && partial[..] == old(partial[..]) && received == old(received) && nextAckSeq == old(nextAckSeq) && res == Success
      ensures old(open) && dataType != Ack ==>
        && timer == old(timer)
        && nextAckSeq == (if dataType == WithAck then NextSeq(old(nextAckSeq)) else old(nextAckSeq))
        && net.tries == old(net.tries) + (if dataType == WithAck then 1 else 0)
        && net.sent == old(net.sent) +
          if dataType == WithAck && net.takes(old(net.tries)) then [AckPacket(id, ackoff, old(nextAckSeq), num)] else []
      ensures old(open) && dataType != Ack ==>
        var process := ShouldProcess(old(recvSeq[id]), num);
        var u := Unpack(payload, old(partial[id]), dataType == WithAck);
        && Views() == old(Views())
        && recvSeq[..] == old(recvSeq[..])[id as int := if process then num else old(recvSeq[id])]
        && partial[..] == old(partial[..])[id as int := if process then u.partial else old(partial[id])]
        && received == old(received) + (if process then Tagged(id, u.delivered) else [])
        && res == if process then u.res else Success
    {
      hide Unpack, Tagged, Consistent, Ends, CheckUpTo, AckedViews, AllReady, TxQueue.View, CmdItf3.Shows, CmdItf3.Valid;
      ValidQueues();
      if !open {
        return EPipe;
      }
      if dataType == Ack {
        RecvAckData(id, num, payload, now);
        return Success;
      }
      ghost var txs := Views();
      ValidIsUsable();
      res := RecvDataFrame(dataType, id, num, payload);
      UsableIsValid(txs);
    }

    /** An acknowledgement frame arrives: after it was handled, all the queues are looked at. */
    method RecvAckData(id: byte, num: u16, payload: seq<byte>, now: nat)
      requires Valid()
      modifies recvSeq, `timer, net, queues, set q <- queues :: q.ring
      ensures Valid()
      ensures var acked := AckedViews(Infos(), old(Views()), id as int - ackoff as int, payload);
        && AllReady(Infos(), acked)
        && var r := CheckUpTo(Infos(), acked, now, net.takes, old(net.tries), |queues|);
        && Views() == r.txs && net.sent == old(net.sent) + r.sent
        && timer == (if r.next > 0 then Some(r.next) else None)
        && recvSeq[..] == old(recvSeq[..])[id as int := num]
    {
      hide Consistent, Ends, CheckUpTo, TimerOk, AckedViews, TxQueue.View, CmdItf3.Shows;
      RecvAckFrame(id, payload);
      AcceptedViews();
      CheckTxQueues(now);
      recvSeq[id] := num;
    }

    lemma AcceptedViews()
      requires Valid()
      ensures AllReady(Infos(), Views())
    {
      ValidIsUsable();
    }

    /** Acknowledges a data frame, whatever becomes of it. */
    method SendAck(id: byte, num: u16)
      modifies `nextAckSeq, net
      ensures nextAckSeq == NextSeq(old(nextAckSeq)) && net.tries == old(net.tries) + 1
      ensures net.sent == old(net.sent) +
        if net.takes(old(net.tries)) then [AckPacket(id, ackoff, old(nextAckSeq), num)] else []
    {
      var ok := net.SendData(AckPacket(id, ackoff, nextAckSeq, num));
      nextAckSeq := NextSeq(nextAckSeq);
    }

    /** Whether a frame is to be processed; if so its number is remembered. */
    method ShouldProcessData(id: byte, num: u16) returns (process: bool)
      requires recvSeq.Length == 256
      modifies recvSeq
      ensures process == ShouldProcess(old(recvSeq[id]), num)
      ensures recvSeq[..] == if process then old(recvSeq[..])[id as int := num] else old(recvSeq[..])
    {
      var diff := num - recvSeq[id];
      process := diff > 0 || diff < -10;
      if process {
        recvSeq[id] := num;
      }
    }

    /** A data frame arrives. What happens to the reception state of its identifier is what
        `Receive` says of the value of that state; nothing else changes but the frames sent. */
    method RecvDataFrame(dataType: DataType, id: byte, num: u16, payload: seq<byte>) returns (res: Errno)
      requires Separate() && dataType != Ack
      modifies recvSeq, partial, `received, `nextAckSeq, net
      ensures var process := ShouldProcess(old(recvSeq[id]), num);
        var u := Unpack(payload, old(partial[id]), dataType == WithAck);
        && recvSeq[..] == old(recvSeq[..])[id as int := if process then num else old(recvSeq[id])]
        && partial[..] == old(partial[..])[id as int := if process then u.partial else old(partial[id])]
        && received == old(received) + (if process then Tagged(id, u.delivered) else [])
        && res == if process then u.res else Success
      ensures nextAckSeq == if dataType == WithAck then NextSeq(old(nextAckSeq)) else old(nextAckSeq)
      ensures net.tries == old(net.tries) + if dataType == WithAck then 1 else 0
      ensures net.sent == old(net.sent) +
        if dataType == WithAck && net.takes(old(net.tries)) then [AckPacket(id, ackoff, old(nextAckSeq), num)] else []
    {
      hide Unpack, Tagged;
      if dataType == WithAck {
        SendAck(id, num);
      }
      var process := ShouldProcessData(id, num);
      if !process {
        return Success;
      }
      res := UnpackCmds(dataType == WithAck, id, payload);
    }

    /** Finds the size of the next command and what is kept of it: from the partial command of the
        queue at the start of a payload, else from the payload. */
    method TakeSize(ack: bool, id: byte, data: seq<byte>, first: bool)
      returns (ok: bool, size: nat, got: seq<byte>, rest: seq<byte>)
      requires partial.Length == 256
      modifies partial
      ensures var follows := ack && first && old(partial[id]).Some?;
        && partial[..] == (if follows then old(partial[..])[id as int := None] else old(partial[..]))
        && ok == (follows || ReadVarint(data).Some?)
        && |got| <= size
        && (ok && follows ==> size == old(partial[id]).value.size && got == old(partial[id]).value.got && rest == data)
        && (ok && !follows ==> size == ReadVarint(data).value.0 && got == [] && rest == data[ReadVarint(data).value.1..])
    {
      ok, size, got, rest := true, 0, [], data;
      if ack && first && partial[id].Some? {
        size, got := partial[id].value.size, partial[id].value.got;
        partial[id] := None;
      } else {
        match ReadVarint(data)
        case None => ok := false;
        case Some((value, len)) => size, rest := value, data[len..];
      }
    }

    /** Gives a complete command to the application if its header can be decoded. */
    method Deliver(id: byte, cmd: seq<byte>) returns (res: Errno)
      modifies `received
      ensures res == if HeaderOk(cmd) then Success else EInval
      ensures received == old(received) + Tagged(id, if HeaderOk(cmd) then [cmd] else [])
    {
      TaggedOne(id, cmd);
      res := EInval;
      if HeaderOk(cmd) {
        received := received + [(id, cmd)];
        res := Success;
      }
    }

    /** Unpacks each command of a payload and gives it to the application. */
    method UnpackCmds(ack: bool, id: byte, payload: seq<byte>) returns (res: Errno)
      requires partial.Length == 256
      modifies `received, partial
      ensures var u := Unpack(payload, old(partial[id]), ack);
        && partial[..] == old(partial[..])[id as int := u.partial]
        && received == old(received) + Tagged(id, u.delivered) && res == u.res
    {
      hide UnpackLoop, Tagged, ReadVarint, Unpack, CmdItf3.Separate;
      UnpackStarts(payload, partial[id], ack);
      TaggedAppend(id, [], []);
      if payload == [] {
        return EInval;
      }
      res := Success;
      var data := payload;
      ghost var all := UnpackLoop(data, true, partial[id], ack, res);
      ghost var done: seq<seq<byte>> := [];
      var first := true;
      Begins(all);
      while data != []
        invariant partial[..] == old(partial[..])[id as int := partial[id]]
        invariant received == old(received) + Tagged(id, done)
        invariant all == Delivering(done, UnpackLoop(data, first, partial[id], ack, res))
        decreases |data|, first
      {
        LoopTurn(data, first, partial[id], ack, res);
        DeliveringTwice(done, [], all);
        var ok, size, got, rest := TakeSize(ack, id, data, first);
        if !ok {
          return EInval;
        }
        if size - |got| > |rest| {
          if !ack {
            return EProto;
          }
          partial[id] := Some(Piece(size, got + rest));
          return Success;
        }
        var n := size - |got|;
        ghost var cmd := got + rest[..n];
        ghost var more := if HeaderOk(cmd) then [cmd] else [];
        res := Deliver(id, got + rest[..n]);
        data, first := rest[n..], false;
        TaggedAppend(id, done, more);
        DeliveringTwice(done, more, UnpackLoop(data, false, partial[id], ack, res));
        done := done + more;
      }
      LoopTurn(data, first, partial[id], ack, res);
      DeliveringTwice(done, [], all);
    }

    /** Adds a command to one of the queues; the others stay as they are. */
    method AddTo(i: nat, cmd: Cmd, userdata: int, ghost txs: seq<Tx>)
      requires Shows(txs) && Usable(txs) && open && i < |queues|
      requires !queues[i].info.ack && queues[i].info.maxTxRateMs <= 0 ==> FitsAlone(cmd)
      modifies queues[i].ring, queues[i].ring.entries
      ensures var t := Add(txs[i], Entry(cmd, userdata));
        Shows(txs[i := t]) && Usable(txs[i := t])
      ensures forall q <- queues :: q.ring.entries == old(q.ring.entries) || fresh(q.ring.entries)
    {
      hide Consistent, TxQueue.View, Ring.Contents, Ring.Valid;
      assert Infos()[i] == queues[i].info;
      AddKeeps(queues[i].info, txs[i], Entry(cmd, userdata));
      queues[i].Add(cmd, userdata);
    }

    /** The queue for a kind of command: the first one of the right type, where low priority has an
        identifier of its own. */
    method FindTxQueue(kind: BufferType) returns (r: Option<nat>)
      ensures r.Some? ==>
        && r.value < |queues| && Suits(kind, queues[r.value].info)
        && forall k :: 0 <= k < r.value ==> !Suits(kind, queues[k].info)
      ensures r == None ==> forall k :: 0 <= k < |queues| ==> !Suits(kind, queues[k].info)
      ensures r.Some? ==> var q := queues[r.value].info;
        && kind != Invalid && (q.ack <==> kind != NonAck) && (q.ack ==> (q.id == 125 <==> kind == LowPrio))
    {
      for i := 0 to |queues|
        invariant forall k :: 0 <= k < i ==> !Suits(kind, queues[k].info)
      {
        if Suits(kind, queues[i].info) {
          return Some(i);
        }
      }
      return None;
    }

    /** The application sends a command: it is added to the queue for its kind, and all the queues
        are looked at. */
    method Send(cmd: Cmd, kind: BufferType, userdata: int, now: nat) returns (res: Errno)
      requires Valid()
      requires forall q <- queues :: Suits(kind, q.info) && !q.info.ack && q.info.maxTxRateMs <= 0 ==> FitsAlone(cmd)
      modifies `timer, net, queues, set q <- queues :: q.ring, set q <- queues :: q.ring.entries
      ensures Valid()
      ensures res == EPipe <==> !old(open)
      ensures kind == Invalid ==> res != Success
      ensures res == Success || res == EPipe || res == EInval
      ensures res == EInval <==> old(open) && forall q <- queues :: !Suits(kind, q.info)
      ensures res != Success ==> Views() == old(Views()) && net.sent == old(net.sent) && timer == old(timer)
      ensures res == Success ==>
        exists i :: 0 <= i < |queues| && Suits(kind, queues[i].info)
          && (queues[i].info.ack <==> kind != NonAck)
          && (queues[i].info.ack ==> (queues[i].info.id == 125 <==> kind == LowPrio))
          && (forall k :: 0 <= k < i ==> !Suits(kind, queues[k].info))
          && IsSent(i, Entry(cmd, userdata), old(Views()), now, old(net.tries), old(net.sent))
    {
      hide Consistent, Ends, CheckUpTo, TimerOk, Suits, TxQueue.View, CmdItf3.Shows, CmdItf3.Usable, CmdItf3.Valid;
      if !open {
        return EPipe;
      }
      var found := FindTxQueue(kind);
      match found
      case None =>
        return EInval;
      case Some(i) =>
        ValidQueues();
        ValidIsUsable();
        ghost var txs := Views();
        AddTo(i, cmd, userdata, txs);
        UsableIsValid(txs[i := Add(txs[i], Entry(cmd, userdata))]);
        AcceptedViews();
        CheckTxQueues(now);
        return Success;
    }

    /** The queues, the frames sent and the timer are those after adding an entry to the `i`-th queue
        and looking at all the queues. */
    ghost predicate IsSent(i: nat, e: Entry, txs: seq<Tx>, now: nat, tries: nat, sent: seq<Packet>)
      requires forall j :: 0 <= j < |queues| ==> queues[j].Valid()
      reads `timer, net, queues, set q <- queues :: q.ring, set q <- queues :: q.ring.entries
    {
      && i < |txs|
      && var added := txs[i := Add(txs[i], e)];
      && AllReady(Infos(), added)
      && var r := CheckUpTo(Infos(), added, now, net.takes, tries, |queues|);
      && Views() == r.txs && net.sent == sent + r.sent && timer == if r.next > 0 then Some(r.next) else None
    }

    /** Stops: every queue is cancelled, and from then on nothing is taken or processed. */
    method StopAll()
      requires Valid()
      modifies `open, queues, set q <- queues :: q.ring
      ensures Valid() && !open
      ensures Views() == StoppedAll(old(Views()))
      ensures forall q <- queues :: q.ring.entries == old(q.ring.entries)
    {
      hide Consistent, Ends, TxQueue.View, CmdItf3.Shows, CmdItf3.Usable, CmdItf3.Valid;
      ValidQueues();
      ValidIsUsable();
      ghost var txs, now' := Views(), Views();
      for i := 0 to |queues|
        invariant Shows(now') && |now'| == |txs| == |queues|
        invariant forall j :: 0 <= j < |queues| ==> now'[j] == if j < i then Stop(txs[j]) else txs[j]
        invariant forall q <- queues :: q.ring.entries == old(q.ring.entries)
      {
        StopOne(i, now');
        now' := now'[i := Stop(now'[i])];
      }
      open := false;
      assert now' == StoppedAll(txs);
      StoppedIsUsable(now');
      UsableIsValid(now');
    }

    method StopOne(i: nat, ghost txs: seq<Tx>)
      requires Shows(txs) && i < |queues|
      modifies queues[i], queues[i].ring`head, queues[i].ring`tail, queues[i].ring`count
      ensures Shows(txs[i := Stop(txs[i])])
      ensures forall q <- queues :: q.ring.entries == old(q.ring.entries)
    {
      hide TxQueue.View, Ring.Contents, Ring.Valid;
      queues[i].Stop();
    }

    lemma StoppedIsUsable(txs: seq<Tx>)
      requires !open && |txs| == |queues| && forall i :: 0 <= i < |txs| ==> txs[i].entries == []
      ensures Usable(txs)
    {
    }

    /** An acknowledgement goes to one of the queues; the others stay as they are. */
    method AckOne(i: nat, ackNum: u16, ghost txs: seq<Tx>)
      requires Shows(txs) && Usable(txs) && i < |queues|
      modifies queues[i], queues[i].ring`head, queues[i].ring`count
      ensures RecvAck.requires(queues[i].info, txs[i], ackNum)
      ensures var t := RecvAck(queues[i].info, txs[i], ackNum);
        Shows(txs[i := t]) && Usable(txs[i := t])
      ensures forall q <- queues :: q.ring.entries == old(q.ring.entries)
    {
      hide Consistent, Ends, TxQueue.View, Ring.Contents, Ring.Valid;
      assert Infos()[i] == queues[i].info;
      AckedReady(queues[i].info, txs[i], ackNum);
      queues[i].RecvAck(ackNum);
    }
  }

  /** All the queues, stopped. */
  function StoppedAll(txs: seq<Tx>): (r: seq<Tx>)
    ensures |r| == |txs|
  {
    seq(|txs|, i requires 0 <= i < |txs| => Stop(txs[i]))
  }

  /** The kinds of commands, by the guarantee that they need. */
  datatype BufferType = Invalid | NonAck | Acknowledged | LowPrio | HighPrio

  /** The identifier of the low priority queue from a device to its controller. */
  const D2C_CMD_LOWPRIO: byte := 125

  /** Whether a queue is for a kind of commands. */
  predicate Suits(kind: BufferType, q: QueueInfo) {
    match kind
    case NonAck => !q.ack
    case Acknowledged => q.ack && q.id != D2C_CMD_LOWPRIO
    case HighPrio => q.ack && q.id != D2C_CMD_LOWPRIO
    case LowPrio => q.ack && q.id == D2C_CMD_LOWPRIO
    case Invalid => false
  }

  /** What the kind of a command promises: with an acknowledgement, unless it is of the kind without;
      the low priority queue is for low priority commands alone, and they go nowhere else. */
  lemma SuitsGuarantee(kind: BufferType, q: QueueInfo)
    requires Suits(kind, q)
    ensures kind != Invalid && (q.ack <==> kind != NonAck) && (q.ack ==> (q.id == 125 <==> kind == LowPrio))
  {
  }

  /** Every queue is for the kinds of commands that it can do for, and for no others. */
  lemma SuitsExactly(kind: BufferType, q: QueueInfo)
    ensures Suits(kind, q) <==>
      if !q.ack then kind == NonAck else if q.id == 125 then kind == LowPrio else kind == Acknowledged || kind == HighPrio
  {
  }

  /** A result with commands delivered before. */
  ghost function Delivering(done: seq<seq<byte>>, u: Unpacked): Unpacked {
    u.(delivered := done + u.delivered)
  }

  lemma Begins(u: Unpacked)
    ensures Delivering([], u) == u
  {
  }

  lemma DeliveringTwice(a: seq<seq<byte>>, b: seq<seq<byte>>, u: Unpacked)
    ensures Delivering(a, Delivering(b, u)) == Delivering(a + b, u)
    ensures a + [] == a
  {
  }

  lemma UnpackStarts(data: seq<byte>, partial: Option<Partial>, ack: bool)
    ensures Unpack(data, partial, ack) ==
      if data == [] then Unpacked([], partial, EInval) else UnpackLoop(data, true, partial, ack, Success)
  {
  }

  /** One turn of the unpacking loop. */
  lemma LoopTurn(data: seq<byte>, first: bool, partial: Option<Partial>, ack: bool, res: Errno)
    ensures data == [] ==> UnpackLoop(data, first, partial, ack, res) == Unpacked([], partial, res)
    ensures data != [] && !(ack && first && partial.Some?) && ReadVarint(data) == None ==>
      UnpackLoop(data, first, partial, ack, res) == Unpacked([], partial, EInval)
    ensures data != [] && ack && first && partial.Some? ==>
      UnpackLoop(data, first, partial, ack, res) == Turned(data, partial.value.size, partial.value.got, None, ack)
    ensures data != [] && !(ack && first && partial.Some?) && ReadVarint(data).Some? ==>
      var (size, len) := ReadVarint(data).value;
      UnpackLoop(data, first, partial, ack, res) == Turned(data[len..], size, [], partial, ack)
  {
    hide ReadVarint, Continue;
    if data != [] {
      if ack && first && partial.Some? {
        ContinueTurned(data, partial.value.size, partial.value.got, None, ack);
      } else if ReadVarint(data).Some? {
        var (size, len) := ReadVarint(data).value;
        ContinueTurned(data[len..], size, [], partial, ack);
      }
    }
  }

  /** The result of the loop when the size of the command and the bytes kept of it are known. */
  ghost function Turned(data: seq<byte>, size: nat, got: seq<byte>, kept: Option<Partial>, ack: bool): Unpacked
    requires |got| <= size
  {
    if size - |got| > |data| then
      if ack then Unpacked([], Some(Piece(size, got + data)), Success) else Unpacked([], kept, EProto)
    else
      var n := size - |got|;
      var cmd := got + data[..n];
      var next := UnpackLoop(data[n..], false, kept, ack, if HeaderOk(cmd) then Success else EInval);
      Delivering(if HeaderOk(cmd) then [cmd] else [], next)
  }

  lemma ContinueTurned(data: seq<byte>, size: nat, got: seq<byte>, kept: Option<Partial>, ack: bool)
    requires |got| <= size
    ensures Continue(data, size, got, kept, ack) == Turned(data, size, got, kept, ack)
  {
    hide UnpackLoop;
  }

  lemma AckedReady(q: QueueInfo, tx: Tx, num: u16)
    requires (tx.entries == [] || Consistent(q, tx)) && Ends(q, tx)
    ensures var t := RecvAck(q, tx, num);
      (t.entries == [] || Consistent(q, t)) && Ends(q, t) && (Consistent(q, tx) ==> Consistent(q, t))
  {
    hide Encode;
    if Consistent(q, tx) {
      RecvAckKeeps(q, tx, num);
    }
  }

  /** The first queue from the `i`-th on with the given identifier. */
  function FindQueueFrom(qs: seq<QueueInfo>, id: int, i: nat): (r: Option<nat>)
    requires i <= |qs|
    ensures r.Some? ==> i <= r.value < |qs| && qs[r.value].id as int == id
    ensures r == None ==> forall k :: i <= k < |qs| ==> qs[k].id as int != id
    decreases |qs| - i
  {
    if i == |qs| then None
    else if qs[i].id as int == id then Some(i)
    else FindQueueFrom(qs, id, i + 1)
  }

  function FindQueue(qs: seq<QueueInfo>, id: int): (r: Option<nat>)
    ensures r.Some? ==> r.value < |qs| && qs[r.value].id as int == id
  {
    FindQueueFrom(qs, id, 0)
  }

  /** The queues after an acknowledgement frame: one that is too short, or for no queue, is ignored. */
  ghost function AckedViews(qs: seq<QueueInfo>, txs: seq<Tx>, id: int, payload: seq<byte>): (r: seq<Tx>)
    requires AllReady(qs, txs)
    ensures |r| == |txs|
  {
    match FindQueue(qs, id)
    case Some(i) =>
      if |payload| < 2 then txs
      else
        FromLittleEndianRoundTrip(payload[..2]);
        txs[i := RecvAck(qs[i], txs[i], FromLittleEndian(payload[..2]))]
    case None => txs
  }
}
