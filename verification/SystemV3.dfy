/** Runs of one acknowledged queue of version 3: a sender, a receiver, and two links that may
    lose and duplicate frames but keep their order. */
module SystemV3 {
  import opened Bytes
  import opened Commands
  import opened PackV3
  import opened Links
  import opened StopAndWait
  import opened QueueV3

  /** The state of the receiver for the queue, and the commands given to the application so far. */
  datatype Rx = Rx(recvSeq: u16, partial: Option<Partial>, delivered: seq<seq<byte>>)

  /** `accepted` holds all the commands ever accepted from the application, oldest first, and
      `acked` counts those reported as acknowledged. */
  datatype Sys = Sys(tx: Tx, stopped: bool, rx: Rx, data: seq<Frame>, acks: seq<u16>,
                     accepted: seq<Cmd>, acked: nat)

  const INIT := Sys(NEW_TX, false, Rx(0xFFFF, None, []), [], [], [], 0)

  /** A data frame reaches the receiver, which answers it in any case and unpacks it if its
      sequence number is to be processed. */
  function Receive(rx: Rx, f: Frame): Rx {
    if !ShouldProcess(rx.recvSeq, f.num) then rx
    else
      var u := Unpack(f.payload, rx.partial, true);
      Rx(f.num, u.partial, rx.delivered + u.delivered)
  }

  /** One step of the system. The k-th accepted command gets k as its user data, which the queue
      only hands back. After the stop nothing is accepted and acknowledgements are refused. */
  function Next(q: QueueInfo, s: Sys, step: Step<Cmd>): Sys
    requires s.tx.entries == [] || Consistent(q, s.tx)
  {
    match step
    case Send(cmd) =>
      if s.stopped then s
      else s.(tx := Add(s.tx, Entry(cmd, |s.accepted|)), accepted := s.accepted + [cmd])
    case Check(now, ok) =>
      var p := CheckOnce(q, s.tx, now, ok);
      s.(tx := p.tx, data := if p.frame.Some? && ok then s.data + [p.frame.value] else s.data)
    case StopQueue =>
      s.(tx := Stop(s.tx), stopped := true)
    case DataArrives =>
      if s.data == [] then s
      else s.(rx := Receive(s.rx, s.data[0]), data := s.data[1..], acks := s.acks + [s.data[0].num])
    case AckArrives =>
      if s.acks == [] then s
      else if s.stopped then s.(acks := s.acks[1..])
      else
        var tx := RecvAck(q, s.tx, s.acks[0]);
        s.(tx := tx, acks := s.acks[1..],
           acked := s.acked + (if |tx.entries| <= |s.tx.entries| then |s.tx.entries| - |tx.entries| else 0))
    case LoseData(i) => if i < |s.data| then s.(data := Lose(s.data, i)) else s
    case LoseAck(i) => if i < |s.acks| then s.(acks := Lose(s.acks, i)) else s
    case DuplicateData(i) => if i < |s.data| then s.(data := Duplicate(s.data, i)) else s
    case DuplicateAck(i) => if i < |s.acks| then s.(acks := Duplicate(s.acks, i)) else s
  }

  // ----- The invariant -----

  /** The commands not yet reported as acknowledged. */
  function Pending(s: Sys): seq<Cmd>
    requires s.acked <= |s.accepted|
  {
    s.accepted[s.acked..]
  }

  function LinkView(s: Sys): View {
    View(s.tx.num, s.tx.lastNum, if s.tx.cmdCount > 0 then Some(s.tx.buf) else None,
         s.rx.recvSeq, s.data, s.acks)
  }

  /** The entries of the queue are the pending commands, until the queue is stopped. */
  ghost predicate QueueInv(s: Sys) {
    && s.acked <= |s.accepted|
    && (s.stopped ==> s.tx.entries == [])
    && (!s.stopped ==>
      && |s.tx.entries| == |s.accepted| - s.acked
      && forall i :: 0 <= i < |s.tx.entries| ==> s.tx.entries[i] == Entry(s.accepted[s.acked + i], s.acked + i))
  }

  /** The current pack encodes the first pending commands from the point of the last
      acknowledged pack; this stays true after the stop. */
  ghost predicate PackOk(pending: seq<Cmd>, tx: Tx) {
    && tx.cmdCount <= |pending|
    && ValidRem(pending, tx.lastRem)
    && (tx.cmdCount == 0 ==> tx.rem == 0 && tx.buf == [])
    && (tx.cmdCount > 0 ==>
      && ValidCut(pending[..tx.cmdCount], tx.lastRem, tx.rem)
      && |tx.buf| <= PACK_MAX
      && tx.buf == Encode(pending[..tx.cmdCount], tx.lastRem, tx.rem))
  }

  /** The receiver has delivered exactly the first `n` commands, and it keeps the beginning of
      the next one, of which it misses `missing` bytes. */
  ghost predicate AtPoint(rx: Rx, accepted: seq<Cmd>, n: nat, missing: nat) {
    && n <= |accepted| && ValidRem(accepted[n..], missing)
    && rx.delivered == Deliverable(accepted[..n])
    && rx.partial == PartialOf(accepted[n..], missing)
  }

  /** How many commands the receiver has completed, and how many bytes it misses of the one it
      has begun: up to the current pack if it took it in, else up to the last acknowledged one. */
  function ReceiverPoint(s: Sys): (nat, nat) {
    if Received(LinkView(s)) then (s.acked + CompletedNow(s.tx), s.tx.rem) else (s.acked, s.tx.lastRem)
  }

  ghost predicate SysInv(s: Sys) {
    && QueueInv(s) && PackOk(Pending(s), s.tx) && Inv(LinkView(s))
    && AtPoint(s.rx, s.accepted, ReceiverPoint(s).0, ReceiverPoint(s).1)
  }

  lemma QueueIsConsistent(q: QueueInfo, s: Sys)
    requires q.ack && SysInv(s) && !s.stopped
    ensures Consistent(q, s.tx) && Cmds(s.tx.entries) == Pending(s)
  {
    assert Cmds(s.tx.entries) == Pending(s);
  }

  lemma PackOkAppend(pending: seq<Cmd>, more: seq<Cmd>, tx: Tx, tx': Tx)
    requires PackOk(pending, tx)
    requires tx' == tx.(entries := tx'.entries)
    ensures PackOk(pending + more, tx')
  {
    assert (pending + more)[..tx.cmdCount] == pending[..tx.cmdCount];
  }

  lemma AtPointAppend(rx: Rx, accepted: seq<Cmd>, more: seq<Cmd>, n: nat, missing: nat)
    requires AtPoint(rx, accepted, n, missing)
    ensures AtPoint(rx, accepted + more, n, missing)
  {
    assert (accepted + more)[..n] == accepted[..n];
    assert (accepted + more)[n..] == accepted[n..] + more;
  }

  lemma SendQueueInv(q: QueueInfo, s: Sys, cmd: Cmd)
    requires QueueInv(s) && Next.requires(q, s, Send(cmd))
    ensures QueueInv(Next(q, s, Send(cmd)))
  {
    hide Consistent;
  }

  lemma SendStep(q: QueueInfo, s: Sys, cmd: Cmd)
    requires q.ack && SysInv(s) && !s.stopped && Next.requires(q, s, Send(cmd))
    ensures SysInv(Next(q, s, Send(cmd)))
  {
    hide PackOk, AtPoint, Inv, Consistent, Cmds;
    var t := Next(q, s, Send(cmd));
    assert QueueInv(t) by { hide *; SendQueueInv(q, s, cmd); }
    assert Pending(t) == Pending(s) + [cmd];
    PackOkAppend(Pending(s), [cmd], s.tx, t.tx);
    AtPointAppend(s.rx, s.accepted, [cmd], ReceiverPoint(s).0, ReceiverPoint(s).1);
  }

  /** Forming the current pack when there is none. */
  lemma PackIsOk(q: QueueInfo, pending: seq<Cmd>, tx: Tx)
    requires q.ack && PackOk(pending, tx) && pending != [] && tx.cmdCount == 0 && Cmds(tx.entries) == pending
    ensures PackOk(pending, PackCmds(q, tx))
    ensures PackCmds(q, tx).cmdCount > 0
  {
    hide Pack, Encode;
    PackEncodes(pending, tx.lastRem);
    assert [] + Pack(pending, tx.lastRem, true).data == Pack(pending, tx.lastRem, true).data;
  }

  lemma CheckStep(q: QueueInfo, s: Sys, now: nat, ok: bool)
    requires q.ack && SysInv(s) && Next.requires(q, s, Check(now, ok))
    requires s.tx.entries != [] ==> Consistent(q, s.tx) && Cmds(s.tx.entries) == Pending(s)
    ensures SysInv(Next(q, s, Check(now, ok)))
  {
    hide AtPoint, Inv, PackCmds, PackOk, Consistent, Remaining;
    var p := CheckOnce(q, s.tx, now, ok);
    var t := Next(q, s, Check(now, ok));
    if p.frame.Some? {
      var tx1 := s.tx.(waitingAck := false, sentTs := if s.tx.waitingAck then 0 else s.tx.sentTs);
      SamePack(Pending(s), s.tx, tx1);
      if tx1.cmdCount == 0 {
        var tx2 := tx1.(num := NextSeq(tx1.num));
        SamePack(Pending(s), s.tx, tx2);
        PackIsOk(q, Pending(s), tx2);
        PackCmdsFrame(q, tx2);
        SamePack(Pending(s), PackCmds(q, tx2), t.tx);
        FormKeeps(LinkView(s), PackCmds(q, tx2).buf);
        SendKeeps(LinkView(s.(tx := PackCmds(q, tx2))));
      } else {
        SamePack(Pending(s), tx1, t.tx);
        SendKeeps(LinkView(s));
      }
    } else {
      SamePack(Pending(s), s.tx, t.tx);
    }
  }

  /** The encoding in the pack does not depend on the times, flags and numbers. */
  lemma SamePack(pending: seq<Cmd>, tx: Tx, tx': Tx)
    requires PackOk(pending, tx)
    requires tx'.buf == tx.buf && tx'.cmdCount == tx.cmdCount && tx'.rem == tx.rem && tx'.lastRem == tx.lastRem
    ensures PackOk(pending, tx')
  {
  }

  /** What packing leaves as it is. */
  lemma PackCmdsFrame(q: QueueInfo, tx: Tx)
    requires PackCmds.requires(q, tx)
    ensures var r := PackCmds(q, tx);
      r == tx.(buf := r.buf, cmdCount := r.cmdCount, rem := r.rem, log := r.log)
  {
  }

  /** Unpacking the current pack moves the receiver to the end of that pack. */
  lemma PackMovesPoint(rx: Rx, accepted: seq<Cmd>, acked: nat, tx: Tx)
    requires AtPoint(rx, accepted, acked, tx.lastRem)
    requires PackOk(accepted[acked..], tx) && tx.cmdCount > 0
    ensures var u := Unpack(tx.buf, rx.partial, true);
      AtPoint(Rx(tx.num, u.partial, rx.delivered + u.delivered), accepted, acked + CompletedNow(tx), tx.rem)
  {
    hide Encode, Deliverable, Unpack;
    var pending, n := accepted[acked..], CompletedNow(tx);
    var taken := pending[..tx.cmdCount];
    UnpackEncoded(taken, tx.lastRem, tx.rem);
    assert PartialOf(taken, tx.lastRem) == PartialOf(pending, tx.lastRem);
    assert accepted[..acked + n] == accepted[..acked] + taken[..n];
    DeliverableAppend(accepted[..acked], taken[..n]);
    assert accepted[acked + n..] == pending[n..];
    if tx.rem > 0 {
      assert taken[n..][0] == pending[n..][0] == taken[|taken| - 1];
    }
  }

  lemma DataStep(q: QueueInfo, s: Sys)
    requires q.ack && SysInv(s) && s.data != [] && Next.requires(q, s, DataArrives)
    ensures SysInv(Next(q, s, DataArrives))
  {
    hide Inv, AtPoint, Unpack, PackOk;
    ReceiveKeeps(LinkView(s));
    if ShouldProcess(s.rx.recvSeq, s.data[0].num) {
      PackMovesPoint(s.rx, s.accepted, s.acked, s.tx);
    }
  }

  /** The state of the pack after its acknowledgement. */
  lemma AckedPackIsOk(pending: seq<Cmd>, tx: Tx, tx': Tx)
    requires PackOk(pending, tx)
    requires tx'.cmdCount == 0 && tx'.rem == 0 && tx'.buf == [] && tx'.lastRem == tx.rem
    ensures CompletedNow(tx) <= |pending| && PackOk(pending[CompletedNow(tx)..], tx')
  {
    if tx.rem > 0 {
      assert pending[..tx.cmdCount][tx.cmdCount - 1] == pending[tx.cmdCount - 1];
    }
  }

  lemma AckStep(q: QueueInfo, s: Sys)
    requires q.ack && SysInv(s) && s.acks != [] && Next.requires(q, s, AckArrives)
    requires !s.stopped ==> Consistent(q, s.tx) && Cmds(s.tx.entries) == Pending(s)
    ensures SysInv(Next(q, s, AckArrives))
  {
    hide Inv, AtPoint, PackOk, Encode, ValidCut;
    AckKeeps(LinkView(s));
    if !s.stopped && s.acks[0] != s.tx.lastNum && s.tx.waitingAck && s.tx.entries != [] {
      var t := Next(q, s, AckArrives);
      AckedPackIsOk(Pending(s), s.tx, t.tx);
      assert t.acked == s.acked + CompletedNow(s.tx);
      assert Pending(t) == Pending(s)[CompletedNow(s.tx)..];
    } else if !s.stopped {
      SamePack(Pending(s), s.tx, Next(q, s, AckArrives).tx);
    }
  }

  lemma LinkStep(q: QueueInfo, s: Sys, step: Step<Cmd>)
    requires q.ack && SysInv(s) && Next.requires(q, s, step)
    requires step.LoseData? || step.LoseAck? || step.DuplicateData? || step.DuplicateAck?
    ensures SysInv(Next(q, s, step))
  {
    hide Inv, AtPoint, PackOk;
    LoseKeeps(LinkView(s), step.i);
    DuplicateKeeps(LinkView(s), step.i);
  }

  lemma StopStep(q: QueueInfo, s: Sys)
    requires q.ack && SysInv(s) && Next.requires(q, s, StopQueue)
    ensures SysInv(Next(q, s, StopQueue))
  {
    hide Inv, AtPoint;
  }

  /** Every step of every kind keeps the invariant. */
  lemma StepKeepsInv(q: QueueInfo, s: Sys, step: Step<Cmd>)
    requires q.ack && SysInv(s)
    ensures Next.requires(q, s, step) && SysInv(Next(q, s, step))
  {
    hide Inv, AtPoint, PackOk;
    if !s.stopped {
      QueueIsConsistent(q, s);
    }
    match step
    case Send(cmd) => if !s.stopped { SendStep(q, s, cmd); }
    case Check(now, ok) => CheckStep(q, s, now, ok);
    case StopQueue => StopStep(q, s);
    case DataArrives => if s.data != [] { DataStep(q, s); }
    case AckArrives => if s.acks != [] { AckStep(q, s); }
    case _ => LinkStep(q, s, step);
  }

  // ----- Runs -----

  /** The state after the given steps from a state that satisfies the invariant. */
  function RunFrom(q: QueueInfo, s: Sys, steps: seq<Step<Cmd>>): (t: Sys)
    requires q.ack && SysInv(s)
    ensures SysInv(t)
    decreases |steps|
  {
    if steps == [] then s
    else
      StepKeepsInv(q, s, steps[0]);
      RunFrom(q, Next(q, s, steps[0]), steps[1..])
  }

  lemma InitOk()
    ensures SysInv(INIT)
  {
    assert Deliverable(INIT.accepted[..0]) == [];
  }

  /** The state after the given steps from the start. */
  function Run(q: QueueInfo, steps: seq<Step<Cmd>>): (s: Sys)
    requires q.ack
    ensures SysInv(s)
  {
    InitOk();
    RunFrom(q, INIT, steps)
  }

  /** In every run, across any number of wraps of the sequence numbers, the commands delivered are
      exactly the deliverable ones of a prefix of the accepted commands, in order and each once.
      The prefix includes every command reported as acknowledged, and it is everything when the
      queue is empty without having been stopped. */
  lemma ExactlyOnceInOrder(q: QueueInfo, steps: seq<Step<Cmd>>)
    requires q.ack
    ensures var s := Run(q, steps);
      exists n :: s.acked <= n <= |s.accepted| && s.rx.delivered == Deliverable(s.accepted[..n])
    ensures var s := Run(q, steps);
      !s.stopped && s.tx.entries == [] ==> s.rx.delivered == Deliverable(s.accepted)
    ensures var s := Run(q, steps); s.rx.recvSeq == s.tx.lastNum || s.rx.recvSeq == s.tx.num
  {
    var s := Run(q, steps);
    assert AtPoint(s.rx, s.accepted, ReceiverPoint(s).0, ReceiverPoint(s).1);
    if !s.stopped && s.tx.entries == [] {
      assert s.accepted[..s.acked] == s.accepted;
    }
  }

  /** As long as the current pack is not acknowledged, its number, bytes and commands do not
      change, whatever is added to the queue, and every frame sent carries them. */
  lemma PackIsStable(q: QueueInfo, s: Sys, step: Step<Cmd>)
    requires q.ack && SysInv(s) && s.tx.cmdCount > 0 && Next.requires(q, s, step)
    ensures var t := Next(q, s, step);
      t.tx.lastNum == s.tx.lastNum ==>
        && t.tx.num == s.tx.num && t.tx.buf == s.tx.buf && t.tx.cmdCount == s.tx.cmdCount && t.tx.rem == s.tx.rem
        && (step.Check? ==> t.data == s.data || t.data == s.data + [Frame(s.tx.num, s.tx.buf)])
    ensures forall f <- s.data :: f.num == s.tx.num ==> f == Frame(s.tx.num, s.tx.buf)
  {
    hide PackOk, AtPoint, Consistent, PackCmds;
  }
}
