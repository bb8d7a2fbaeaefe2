/** How often a pack of version 3 was sent and acknowledged: what the two counts of the last
    acknowledged pack say about the links. */
module AckCountsV3 {
  import opened Bytes
  import opened Commands
  import opened PackV3
  import opened Links
  import opened StopAndWait
  import opened QueueV3
  import opened SystemV3
  import opened AckCounts

  /** The ledger of the queue. As long as it is exact, the queue waits whenever it has a pack. */
  ghost predicate Books(s: Sys, exact: bool) {
    && Ledger(LinkView(s), Counts(s.tx.sentCount, s.tx.lastSentCount, s.tx.lastAckCount), exact)
    && (exact && s.tx.cmdCount > 0 ==> s.tx.waitingAck)
  }

  lemma CheckBooks(q: QueueInfo, s: Sys, now: nat, ok: bool, exact: bool)
    requires q.ack && SysInv(s) && Books(s, exact) && Next.requires(q, s, Check(now, ok))
    requires exact ==> ok && q.maxTxRateMs <= 0
    ensures Books(Next(q, s, Check(now, ok)), exact)
  {
    hide AtPoint, Inv, Encode, ValidCut, Pack, Remaining, Copies, Numbers;
    var t := Next(q, s, Check(now, ok));
    if !s.stopped && s.tx.entries != [] {
      QueueIsConsistent(q, s);
      PackEncodes(Pending(s), s.tx.lastRem);
      FormLedger(LinkView(s), t.tx.num);
      if CheckOnce(q, s.tx, now, ok).frame.Some? && ok {
        SendLedger(LinkView(s), LinkView(t), Counts(s.tx.sentCount, s.tx.lastSentCount, s.tx.lastAckCount), exact);
      }
    }
  }

  lemma AckBooks(q: QueueInfo, s: Sys, exact: bool)
    requires q.ack && SysInv(s) && Books(s, exact) && Next.requires(q, s, AckArrives) && s.acks != []
    requires exact ==> !s.stopped
    ensures Books(Next(q, s, AckArrives), exact)
  {
    hide AtPoint, Inv, Encode, ValidCut, Consistent, Ledger;
    AckKeeps(LinkView(s));
    AckLedger(LinkView(s), Counts(s.tx.sentCount, s.tx.lastSentCount, s.tx.lastAckCount), exact);
  }

  /** Every step that duplicates nothing keeps the ledger; the faithful ones keep it exact. */
  lemma StepKeepsBooks(q: QueueInfo, s: Sys, step: Step<Cmd>, exact: bool)
    requires q.ack && SysInv(s) && Books(s, exact) && Next.requires(q, s, step) && Unduplicated(step)
    requires exact ==> Faithful(step) && q.maxTxRateMs <= 0 && !s.stopped
    ensures Books(Next(q, s, step), exact)
  {
    hide SysInv, Consistent, Ledger, Receive;
    var c := Counts(s.tx.sentCount, s.tx.lastSentCount, s.tx.lastAckCount);
    var t := Next(q, s, step);
    match step
    case Check(now, ok) => CheckBooks(q, s, now, ok, exact);
    case DataArrives => if s.data != [] { ArriveLedger(LinkView(s), LinkView(t), c, exact); }
    case AckArrives => if s.acks != [] { AckBooks(q, s, exact); }
    case LoseData(i) => LoseLedger(LinkView(s), c, i);
    case LoseAck(i) => LoseLedger(LinkView(s), c, i);
    case _ =>
  }

  lemma {:induction false} RunKeepsBooks(q: QueueInfo, s: Sys, steps: seq<Step<Cmd>>, exact: bool)
    requires q.ack && SysInv(s) && Books(s, exact) && forall step <- steps :: Unduplicated(step)
    requires exact ==> !s.stopped && q.maxTxRateMs <= 0 && forall step <- steps :: Faithful(step)
    ensures Books(RunFrom(q, s, steps), exact)
    decreases |steps|
  {
    hide SysInv, Books, Consistent;
    if steps != [] {
      StepKeepsInv(q, s, steps[0]);
      assert Unduplicated(steps[0]) && (exact ==> Faithful(steps[0]));
      StepKeepsBooks(q, s, steps[0], exact);
      RunKeepsBooks(q, Next(q, s, steps[0]), steps[1..], exact);
    }
  }

  lemma RunBooks(q: QueueInfo, steps: seq<Step<Cmd>>, exact: bool)
    requires q.ack && forall step <- steps :: Unduplicated(step)
    requires exact ==> q.maxTxRateMs <= 0 && forall step <- steps :: Faithful(step)
    ensures Books(Run(q, steps), exact)
  {
    hide Unduplicated, Faithful, RunFrom;
    InitOk();
    assert Books(INIT, exact) by { hide *; }
    RunKeepsBooks(q, INIT, steps, exact);
  }

  /** As long as nothing is duplicated, no pack is ever counted as acknowledged more often than it
      was sent: the error that the queue reports for that tells of a link that duplicates, however
      many packs are lost, refused or sent again. */
  lemma NeverMoreAcks(q: QueueInfo, steps: seq<Step<Cmd>>)
    requires q.ack && forall step <- steps :: Unduplicated(step)
    ensures var tx := Run(q, steps).tx; tx.lastAckCount <= tx.lastSentCount
  {
    hide SysInv, Run;
    RunBooks(q, steps, false);
  }

  /** When nothing is lost or refused either and there is no minimum delay, the counts are exact:
      what was sent of the last acknowledged pack and is not counted as acknowledged is still on the
      links, and so is all that was sent of the current pack. */
  lemma CountsAreExact(q: QueueInfo, steps: seq<Step<Cmd>>)
    requires q.ack && q.maxTxRateMs <= 0 && forall step <- steps :: Faithful(step)
    ensures var s := Run(q, steps);
      && s.tx.lastSentCount == s.tx.lastAckCount + UnderWay(s.data, s.acks, s.tx.lastNum)
      && (s.tx.cmdCount > 0 ==> s.tx.sentCount == UnderWay(s.data, s.acks, s.tx.num))
  {
    hide SysInv, Run;
    RunBooks(q, steps, true);
  }
}
