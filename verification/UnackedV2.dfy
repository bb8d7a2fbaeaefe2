/** Runs of a queue of version 2 that is not acknowledged: what is delivered when frames are lost,
    duplicated and refused. */
module UnackedV2 {
  import opened Bytes
  import opened Commands
  import opened PackV2
  import opened Links
  import opened StopAndWait
  import opened OneWay
  import opened QueueV2
  import opened SystemV2

  function Delivers(payload: seq<byte>): seq<seq<byte>> {
    Unpack(payload).delivered
  }

  /** A history explains a state: its transmissions carried the commands that left the queue. */
  ghost predicate Explained(s: Sys, h: History) {
    && s.popped <= |s.accepted| && Flatten(h.sent) == s.accepted[..s.popped]
    && Explains(h, Delivers, s.data, s.rx.recvSeq, s.rx.delivered)
  }

  /** Nothing was lost so far, and the number of the queue is that of its next transmission if a pack
      is ready, else of its last one. */
  ghost predicate NothingLost(s: Sys, h: History) {
    && Unbroken(h)
    && (forall c <- s.accepted :: FitsAlone(c))
    && s.tx.num == (if s.tx.cmdCount > 0 then |h.sent| % 0x1_0000 else (|h.sent| - 1) % 0x1_0000) as u16
  }

  /** The pack that a transmission sends is the encoding of the commands that it pops. */
  lemma MadeDelivers(q: QueueInfo, tx: Tx)
    requires Consistent(q, tx) && tx.entries != []
    ensures var made := Made(tx);
      && made.cmdCount <= |tx.entries|
      && Delivers(made.buf) == Deliverable(Cmds(tx.entries)[..made.cmdCount])
  {
    hide Unpack, PackCmds, Deliverable;
    if tx.cmdCount == 0 {
      PackCmdsKeeps(q, tx, tx.num);
      assert tx.(num := tx.num) == tx;
    }
    PackDelivers(Cmds(tx.entries)[..Made(tx).cmdCount]);
  }

  /** A transmission that the transport takes, with the first `n` of the pending commands. */
  lemma TakenExplained(s: Sys, h: History, t: Sys, f: Frame, n: nat)
    requires Explained(s, h) && n <= |s.accepted| - s.popped
    requires Delivers(f.payload) == Deliverable(Pending(s)[..n])
    requires t.rx == s.rx && t.data == s.data + [f] && t.accepted == s.accepted && t.popped == s.popped + n
    ensures Explained(t, Transmit(h, Sent(f, Pending(s)[..n])))
  {
    hide Explains, Unpack, Deliverable;
    var x := Sent(f, Pending(s)[..n]);
    TransmitExplained(h, Delivers, s.data, s.rx.recvSeq, s.rx.delivered, x);
    FlattenAppend(h.sent, x);
    assert s.accepted[..s.popped + n] == s.accepted[..s.popped] + Pending(s)[..n];
  }

  lemma CheckExplained(q: QueueInfo, s: Sys, h: History, now: nat, ok: bool) returns (h': History)
    requires !q.ack && QueueInv(q, s) && Explained(s, h) && Next.requires(q, s, Check(now, ok))
    ensures Explained(Next(q, s, Check(now, ok)), h')
    ensures NothingLost(s, h) ==> NothingLost(Next(q, s, Check(now, ok)), h')
  {
    hide Encode, CheckOnce, Consistent, PackCmds, Explains, Unbroken, QueueInv, FitsAlone, Deliverable, Delivers, Flatten;
    h' := h;
    if s.tx.entries == [] {
      CheckEmpty(q, s.tx, now, ok);
    } else {
      Running(q, s);
      var t, p, n := Next(q, s, Check(now, ok)), CheckOnce(q, s.tx, now, ok), Made(s.tx).cmdCount;
      CheckShape(q, s.tx, now, ok);
      if p.frame.Some? && ok {
        MadeDelivers(q, s.tx);
        TakenExplained(s, h, t, p.frame.value, n);
        h' := Transmit(h, Sent(p.frame.value, Pending(s)[..n]));
        if NothingLost(s, h) {
          TransmitUnbroken(h, Sent(p.frame.value, Pending(s)[..n]));
        }
      }
    }
  }

  lemma Running(q: QueueInfo, s: Sys)
    requires QueueInv(q, s) && s.tx.entries != []
    ensures Consistent(q, s.tx) && Cmds(s.tx.entries) == Pending(s)
    ensures s.tx.entries[0].cmd in s.accepted
  {
    hide Encode, Consistent;
    PendingCmds(q, s);
  }

  /** A frame that arrives moves the receiver as the history says. */
  lemma ArriveStep(q: QueueInfo, s: Sys, h: History) returns (h': History)
    requires Explained(s, h) && s.data != [] && Next.requires(q, s, DataArrives)
    ensures Explained(Next(q, s, DataArrives), h')
    ensures NothingLost(s, h) ==> NothingLost(Next(q, s, DataArrives), h')
  {
    hide Consistent, Unpack, Deliverable, Flatten, Unbroken, Ordered;
    ArriveExplained(h, Delivers, s.data, s.rx.recvSeq, s.rx.delivered);
    h' := Arrive(h, ShouldProcess(s.rx.recvSeq, s.data[0].num));
    if Unbroken(h) {
      ArriveUnbroken(h);
    }
  }

  lemma LinkStepExplained(q: QueueInfo, s: Sys, h: History, step: Step<Cmd>) returns (h': History)
    requires step.LoseData? || step.DuplicateData?
    requires Explained(s, h) && Next.requires(q, s, step)
    ensures Explained(Next(q, s, step), h')
    ensures NothingLost(s, h) && !step.LoseData? ==> NothingLost(Next(q, s, step), h')
  {
    hide Consistent, Explains, Unbroken, Flatten;
    h' := h;
    if step.i < |s.data| {
      ExplainsLink(h, Delivers, s.data, s.rx.recvSeq, s.rx.delivered);
      if step.LoseData? {
        LoseExplained(h, Delivers, s.data, s.rx.recvSeq, s.rx.delivered, step.i);
        h' := h.(onLink := Lose(h.onLink, step.i));
      } else {
        DuplicateExplained(h, Delivers, s.data, s.rx.recvSeq, s.rx.delivered, step.i);
        h' := h.(onLink := Duplicate(h.onLink, step.i));
        if Unbroken(h) {
          DuplicateUnbroken(h, step.i);
        }
      }
    }
  }

  /** The other steps transmit nothing, and no acknowledgement changes the queue. */
  lemma OtherStepExplained(q: QueueInfo, s: Sys, h: History, step: Step<Cmd>)
    requires !q.ack && QueueInv(q, s) && Explained(s, h) && Next.requires(q, s, step)
    requires step.Send? || step.StopQueue? || step.AckArrives? || step.LoseAck? || step.DuplicateAck?
    ensures Explained(Next(q, s, step), h)
    ensures NothingLost(s, h) && (step.Send? ==> FitsAlone(step.cmd)) ==> NothingLost(Next(q, s, step), h)
  {
    hide Explains, Unbroken, Encode, FitsAlone, Flatten;
    var t := Next(q, s, step);
    assert t.accepted[..t.popped] == s.accepted[..s.popped];
  }

  /** Every step keeps a state explained, and nothing is lost unless a frame is. */
  lemma StepExplained(q: QueueInfo, s: Sys, h: History, step: Step<Cmd>) returns (h': History)
    requires !q.ack && QueueInv(q, s) && Explained(s, h)
    ensures Next.requires(q, s, step) && QueueInv(q, Next(q, s, step)) && Explained(Next(q, s, step), h')
    ensures NothingLost(s, h) && !step.LoseData? && (step.Send? ==> FitsAlone(step.cmd))
      ==> NothingLost(Next(q, s, step), h')
  {
    hide QueueInv, CheckOnce, Explained, NothingLost, Consistent, RecvAck, FitsAlone;
    StepKeepsQueue(q, s, step);
    match step
    case Check(now, ok) => h' := CheckExplained(q, s, h, now, ok);
    case DataArrives =>
      if s.data == [] {
        h' := h;
      } else {
        h' := ArriveStep(q, s, h);
      }
    case LoseData(i) => h' := LinkStepExplained(q, s, h, step);
    case DuplicateData(i) => h' := LinkStepExplained(q, s, h, step);
    case _ =>
      OtherStepExplained(q, s, h, step);
      h' := h;
  }

  lemma {:induction false} RunExplained(q: QueueInfo, s: Sys, h: History, steps: seq<Step<Cmd>>)
    returns (h': History)
    requires !q.ack && QueueInv(q, s) && Explained(s, h)
    ensures Explained(RunFrom(q, s, steps), h')
    ensures NothingLost(s, h) && (forall x <- steps :: !x.LoseData? && (x.Send? ==> FitsAlone(x.cmd)))
      ==> NothingLost(RunFrom(q, s, steps), h')
    decreases |steps|
  {
    hide QueueInv, Next, Explained, NothingLost, FitsAlone;
    h' := h;
    if steps != [] {
      h' := StepExplained(q, s, h, steps[0]);
      h' := RunExplained(q, Next(q, s, steps[0]), h', steps[1..]);
    }
  }

  lemma StartExplained()
    ensures Explained(INIT, NO_HISTORY) && NothingLost(INIT, NO_HISTORY)
  {
    assert INIT.accepted[..0] == [];
    assert Pick([], []) == [] && Frames([], []) == [];
    assert Ahead(NO_HISTORY) == [-1, 0];
  }

  /** In every run of a queue that is not acknowledged, whatever is lost, duplicated or refused, and
      across any number of wraps of the sequence numbers, the commands delivered are a subsequence
      of those that left the queue: they can be divided into packs of which some were delivered, in
      order and each once. */
  lemma AtMostOnceInOrder(q: QueueInfo, steps: seq<Step<Cmd>>)
    requires !q.ack
    ensures var s := Run(q, steps);
      s.popped <= |s.accepted| && AtMostOnce(s.accepted[..s.popped], s.rx.delivered)
  {
    InitOk(q);
    StartExplained();
    var h := RunExplained(q, INIT, NO_HISTORY, steps);
    var s := Run(q, steps);
    ExplainedIsAtMostOnce(h, Delivers, s.data, s.rx.recvSeq, s.rx.delivered);
  }

  /** Only the link loses commands that fit in a pack: in a run in which it lost no frame, and has
      none left, everything that left the queue was delivered. */
  lemma OnlyLossesLose(q: QueueInfo, steps: seq<Step<Cmd>>)
    requires !q.ack && (forall x <- steps :: !x.LoseData? && (x.Send? ==> FitsAlone(x.cmd)))
    requires Run(q, steps).data == []
    ensures var s := Run(q, steps);
      s.popped <= |s.accepted| && s.rx.delivered == Deliverable(s.accepted[..s.popped])
  {
    InitOk(q);
    StartExplained();
    var h := RunExplained(q, INIT, NO_HISTORY, steps);
    var s := Run(q, steps);
    UnbrokenDelivers(h, Delivers, s.data, s.rx.recvSeq, s.rx.delivered);
  }
}
