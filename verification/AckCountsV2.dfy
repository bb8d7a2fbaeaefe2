/** How often a pack of version 2 was sent and acknowledged: what the two counts of the last
    acknowledged pack say about the links, as long as every command fits in a pack. */
module AckCountsV2 {
  import opened Bytes
  import opened Commands
  import opened PackV2
  import opened Links
  import opened StopAndWait
  import opened QueueV2
  import opened SystemV2
  import opened AckCounts

  /** The ledger of the queue. As long as it is exact, the queue waits whenever it has a pack. */
  ghost predicate Books(s: Sys, exact: bool) {
    && (forall i :: 0 <= i < |s.accepted| ==> FitsAlone(s.accepted[i]))
    && Ledger(LinkView(s), Counts(s.tx.sentCount, s.tx.lastSentCount, s.tx.lastAckCount), exact)
    && (exact && s.tx.cmdCount > 0 ==> s.tx.waitingAck)
  }

  /** The step sends no command that is too large for a pack. */
  predicate Small(step: Step<Cmd>) {
    step.Send? ==> FitsAlone(step.cmd)
  }

  lemma CheckBooks(q: QueueInfo, s: Sys, now: nat, ok: bool, exact: bool)
    requires q.ack && SysInv(q, s) && Books(s, exact) && Next.requires(q, s, Check(now, ok))
    requires exact ==> ok
    ensures Books(Next(q, s, Check(now, ok)), exact)
  {
    hide Inv, Remaining, Copies, Numbers, Encode;
    var t := Next(q, s, Check(now, ok));
    if s.tx.entries != [] {
      CheckShape(q, s.tx, now, ok);
      assert s.tx.entries[0].cmd == s.accepted[s.popped];
      FormLedger(LinkView(s), t.tx.num);
      if CheckOnce(q, s.tx, now, ok).frame.Some? && ok {
        SendLedger(LinkView(s), LinkView(t), Counts(s.tx.sentCount, s.tx.lastSentCount, s.tx.lastAckCount), exact);
      }
    }
  }

  lemma AckBooks(q: QueueInfo, s: Sys, exact: bool)
    requires q.ack && SysInv(q, s) && Books(s, exact) && Next.requires(q, s, AckArrives) && s.acks != []
    requires exact ==> !s.stopped
    ensures Books(Next(q, s, AckArrives), exact)
  {
    hide Inv, Encode, Consistent, Ledger;
    AckKeeps(LinkView(s));
    AckLedger(LinkView(s), Counts(s.tx.sentCount, s.tx.lastSentCount, s.tx.lastAckCount), exact);
  }

  /** Every step that duplicates nothing keeps the ledger; the faithful ones keep it exact. */
  lemma StepKeepsBooks(q: QueueInfo, s: Sys, step: Step<Cmd>, exact: bool)
    requires q.ack && SysInv(q, s) && Books(s, exact) && Next.requires(q, s, step) && Unduplicated(step) && Small(step)
    requires exact ==> Faithful(step) && !s.stopped
    ensures Books(Next(q, s, step), exact)
  {
    hide SysInv, Consistent, Ledger, Receive;
    var c := Counts(s.tx.sentCount, s.tx.lastSentCount, s.tx.lastAckCount);
    var t := Next(q, s, step);
    match step
    case Check(now, ok) => CheckBooks(q, s, now, ok, exact);
    case DataArrives => if s.data != [] { ArriveLedger(LinkView(s), LinkView(t), c, exact); }
    case AckArrives => if s.acks != [] { AckBooks(q, s, exact); }
    case LoseData(i) => LoseLedger(LinkView(s), c, i);
    case LoseAck(i) => LoseLedger(LinkView(s), c, i);
    case _ =>
  }

  lemma {:induction false} RunKeepsBooks(q: QueueInfo, s: Sys, steps: seq<Step<Cmd>>, exact: bool)
    requires q.ack && SysInv(q, s) && Books(s, exact) && forall step <- steps :: Unduplicated(step) && Small(step)
    requires exact ==> !s.stopped && forall step <- steps :: Faithful(step)
    ensures Books(RunFrom(q, s, steps), exact)
    decreases |steps|
  {
    hide Flowing, Stuck, Books, Consistent;
    if steps != [] {
      StepKeepsInv(q, s, steps[0]);
      assert Unduplicated(steps[0]) && Small(steps[0]) && (exact ==> Faithful(steps[0]));
      StepKeepsBooks(q, s, steps[0], exact);
      RunKeepsBooks(q, Next(q, s, steps[0]), steps[1..], exact);
    }
  }

  lemma RunBooks(q: QueueInfo, steps: seq<Step<Cmd>>, exact: bool)
    requires q.ack && forall step <- steps :: Unduplicated(step) && Small(step)
    requires exact ==> forall step <- steps :: Faithful(step)
    ensures Books(Run(q, steps), exact)
  {
    hide Unduplicated, Faithful, RunFrom;
    InitOk(q);
    assert Books(INIT, exact) by { hide *; }
    RunKeepsBooks(q, INIT, steps, exact);
  }

  /** As long as nothing is duplicated, no pack is ever counted as acknowledged more often than it
      was sent. */
  lemma NeverMoreAcks(q: QueueInfo, steps: seq<Step<Cmd>>)
    requires q.ack && forall step <- steps :: Unduplicated(step) && Small(step)
    ensures var tx := Run(q, steps).tx; tx.lastAckCount <= tx.lastSentCount
  {
    hide Run;
    RunBooks(q, steps, false);
  }

  /** When nothing is lost or refused either, the counts are exact: what was sent of the last
      acknowledged pack and is not counted as acknowledged is still on the links, and so is all that
      was sent of the current pack. */
  lemma CountsAreExact(q: QueueInfo, steps: seq<Step<Cmd>>)
    requires q.ack && forall step <- steps :: Faithful(step) && Small(step)
    ensures var s := Run(q, steps);
      && s.tx.lastSentCount == s.tx.lastAckCount + UnderWay(s.data, s.acks, s.tx.lastNum)
      && (s.tx.cmdCount > 0 ==> s.tx.sentCount == UnderWay(s.data, s.acks, s.tx.num))
  {
    hide Run;
    RunBooks(q, steps, true);
  }

  // ----- A command that is too large -----

  /** A queue that has looked `k` times at a command too large for a pack, the last time at `t`, with
      every frame lost. */
  function Looked(cmd: Cmd, k: nat, t: nat): Sys {
    var num := (0xFFFF + k) % 0x1_0000;
    Sys(NEW_TX.(entries := [Entry(cmd, 0)], num := num, packNum := if k == 0 then 0 else num,
                waitingAck := k > 0, sentTs := t, sentCount := k),
        false, Rx(0xFFFF, []), [], [], [cmd], 0)
  }

  /** Each look after the timeout sends an empty pack with a number of its own. */
  lemma LookAgain(q: QueueInfo, cmd: Cmd, k: nat, t: nat, now: nat)
    requires q.ack && !FitsAlone(cmd) && now >= t + 1000 * q.ackTimeoutMs && now >= t
    requires QueueInv(q, Looked(cmd, k, t))
    ensures var s := Next(q, Looked(cmd, k, t), Check(now, true));
      && s == Looked(cmd, k + 1, now).(data := [Frame((0x1_0000 + k) % 0x1_0000, [])])
      && QueueInv(q, s) && Next(q, s, LoseData(0)) == Looked(cmd, k + 1, now)
  {
    var s := Looked(cmd, k, t);
    CheckShape(q, s.tx, now, true);
    StepKeepsQueue(q, s, Check(now, true));
    var m := PackCmds(s.tx.(waitingAck := false, sentTs := 0, num := NextSeq(s.tx.num)));
    assert m.cmdCount == 0 && m.buf == [];
    assert PackedEvents(m.entries, 0, false) == [];
    assert m.log + [] == [];
  }

  /** The steps that make `k` looks, each with its frame lost. */
  lemma {:induction false} Looks(q: QueueInfo, cmd: Cmd, k: nat) returns (steps: seq<Step<Cmd>>, t: nat)
    requires q.ack && !FitsAlone(cmd)
    ensures QueueInv(q, INIT) && Run(q, steps) == Looked(cmd, k, t)
    ensures forall step <- steps :: Unduplicated(step)
  {
    InitOk(q);
    if k == 0 {
      steps, t := [Send(cmd)], 0;
      StepKeepsQueue(q, INIT, Send(cmd));
      assert RunFrom(q, Next(q, INIT, steps[0]), steps[1..]) == Next(q, INIT, steps[0]);
    } else {
      var before, from := Looks(q, cmd, k - 1);
      t := from + if q.ackTimeoutMs > 0 then 1000 * q.ackTimeoutMs else 0;
      LookAgain(q, cmd, k - 1, from, t);
      var more := [Check(t, true), LoseData(0)];
      TwoSteps(q, Looked(cmd, k - 1, from), more[0], more[1]);
      RunFromAppend(q, INIT, before, more);
      steps := before + more;
    }
  }

  lemma TwoSteps(q: QueueInfo, s: Sys, a: Step<Cmd>, b: Step<Cmd>)
    requires QueueInv(q, s)
    ensures QueueInv(q, Next(q, s, a)) && RunFrom(q, s, [a, b]) == Next(q, Next(q, s, a), b)
  {
    hide QueueInv, Next;
    StepKeepsQueue(q, s, a);
    StepKeepsQueue(q, Next(q, s, a), b);
    var t := Next(q, s, a);
    assert [a, b][1..] == [b] && [b][1..] == [];
    assert RunFrom(q, t, [b]) == RunFrom(q, Next(q, t, b), []);
  }

  /** The frame of the look after 65535 others is acknowledged with the number of the last pack. */
  lemma LastLook(q: QueueInfo, cmd: Cmd, s: Sys, a: Sys, t: nat)
    requires q.ack && s == Looked(cmd, 0xFFFF, s.tx.sentTs) && QueueInv(q, s)
    requires QueueInv(q, a) && a == Looked(cmd, 0x1_0000, t).(data := [Frame(0xFFFF, [])])
    ensures var b := Next(q, a, DataArrives);
      && QueueInv(q, b) && Next.requires(q, b, AckArrives)
      && Next(q, b, AckArrives).tx == a.tx.(lastAckCount := 1)
  {
    StepKeepsQueue(q, a, DataArrives);
    var b := Next(q, a, DataArrives);
    assert b.acks == [0xFFFF] && b.tx == a.tx;
  }

  /** With a command that is too large the count can be wrong without any duplicate: every look sends
      an empty pack with the next number, and after 65536 of them the number is that of the last
      acknowledged pack again. */
  lemma CountsWrap(q: QueueInfo, cmd: Cmd) returns (steps: seq<Step<Cmd>>)
    requires q.ack && !FitsAlone(cmd)
    ensures forall step <- steps :: Unduplicated(step)
    ensures var tx := Run(q, steps).tx; tx.lastAckCount == 1 && tx.lastSentCount == 0
  {
    hide QueueInv, Next, FitsAlone;
    var before, from := Looks(q, cmd, 0xFFFF);
    var t := from + if q.ackTimeoutMs > 0 then 1000 * q.ackTimeoutMs else 0;
    var s, look, more := Looked(cmd, 0xFFFF, from), Check(t, true), [DataArrives, AckArrives];
    LookAgain(q, cmd, 0xFFFF, from, t);
    var a := Next(q, s, look);
    LastLook(q, cmd, s, a, t);
    assert RunFrom(q, s, [look]) == RunFrom(q, a, []) == a by {
      assert [look][1..] == [];
      StepKeepsQueue(q, s, look);
    }
    TwoSteps(q, a, DataArrives, AckArrives);
    RunFromAppend(q, s, [look], more);
    RunFromAppend(q, INIT, before, [look] + more);
    steps := before + ([look] + more);
  }
}
