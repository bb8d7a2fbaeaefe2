/** Runs of one queue of version 2: a sender, a receiver, and two links that may lose and
    duplicate frames but keep their order. */
module SystemV2 {
  import opened Bytes
  import opened Commands
  import opened PackV2
  import opened Links
  import opened StopAndWait
  import opened QueueV2

  /** The state of the receiver for the queue, and the commands given to the application so far. */
  datatype Rx = Rx(recvSeq: u16, delivered: seq<seq<byte>>)

  /** `accepted` holds all the commands ever accepted from the application, oldest first, and
      `popped` counts those that left the queue, acknowledged or, without acknowledgements, sent. */
  datatype Sys = Sys(tx: Tx, stopped: bool, rx: Rx, data: seq<Frame>, acks: seq<u16>,
                     accepted: seq<Cmd>, popped: nat)

  const INIT := Sys(NEW_TX, false, Rx(0xFFFF, []), [], [], [], 0)

  /** A data frame reaches the receiver, which unpacks it if its number is to be processed. */
  function Receive(rx: Rx, f: Frame): Rx {
    if !ShouldProcess(rx.recvSeq, f.num) then rx
    else Rx(f.num, rx.delivered + Unpack(f.payload).delivered)
  }

  /** How many entries left the queue. */
  function Gone(before: Tx, after: Tx): nat {
    if |after.entries| <= |before.entries| then |before.entries| - |after.entries| else 0
  }

  /** One step of the system. The k-th accepted command gets k as its user data, which the queue
      only hands back. After the stop nothing is accepted and acknowledgements are refused. */
  function Next(q: QueueInfo, s: Sys, step: Step<Cmd>): Sys
    requires s.tx.entries == [] || Consistent(q, s.tx)
  {
    match step
    case Send(cmd) =>
      if s.stopped then s
      else s.(tx := Add(s.tx, Entry(cmd, |s.accepted|)), accepted := s.accepted + [cmd])
    case Check(now, ok) =>
      var p := CheckOnce(q, s.tx, now, ok);
      s.(tx := p.tx, popped := s.popped + Gone(s.tx, p.tx),
         data := if p.frame.Some? && ok then s.data + [p.frame.value] else s.data)
    case StopQueue =>
      s.(tx := Stop(s.tx), stopped := true)
    case DataArrives =>
      if s.data == [] then s
      else s.(rx := Receive(s.rx, s.data[0]), data := s.data[1..],
              acks := if q.ack then s.acks + [s.data[0].num] else s.acks)
    case AckArrives =>
      if s.acks == [] then s
      else if s.stopped then s.(acks := s.acks[1..])
      else
        var tx := RecvAck(q, s.tx, s.acks[0]);
        s.(tx := tx, acks := s.acks[1..], popped := s.popped + Gone(s.tx, tx))
    case LoseData(i) => if i < |s.data| then s.(data := Lose(s.data, i)) else s
    case LoseAck(i) => if i < |s.acks| then s.(acks := Lose(s.acks, i)) else s
    case DuplicateData(i) => if i < |s.data| then s.(data := Duplicate(s.data, i)) else s
    case DuplicateAck(i) => if i < |s.acks| then s.(acks := Duplicate(s.acks, i)) else s
  }

  // ----- What every queue keeps -----

  /** The commands that did not leave the queue. */
  function Pending(s: Sys): seq<Cmd>
    requires s.popped <= |s.accepted|
  {
    s.accepted[s.popped..]
  }

  /** The entries of the queue are the pending commands, until the queue is stopped; the pack
      encodes the first of them, also after the stop. */
  ghost predicate QueueInv(q: QueueInfo, s: Sys) {
    && s.popped <= |s.accepted|
    && (s.stopped ==> s.tx.entries == [])
    && (!s.stopped ==>
      && Consistent(q, s.tx)
      && |s.tx.entries| == |s.accepted| - s.popped
      && forall i :: 0 <= i < |s.tx.entries| ==> s.tx.entries[i] == Entry(s.accepted[s.popped + i], s.popped + i))
    && s.tx.cmdCount <= |Pending(s)|
    && s.tx.buf == Encode(Pending(s)[..s.tx.cmdCount]) && |s.tx.buf| <= PACK_MAX
    && (forall i :: 0 <= i < s.popped + s.tx.cmdCount ==> FitsAlone(s.accepted[i]))
  }

  lemma PendingCmds(q: QueueInfo, s: Sys)
    requires QueueInv(q, s) && !s.stopped
    ensures Cmds(s.tx.entries) == Pending(s)
  {
  }

  lemma SendQueue(q: QueueInfo, s: Sys, cmd: Cmd)
    requires QueueInv(q, s) && Next.requires(q, s, Send(cmd))
    ensures QueueInv(q, Next(q, s, Send(cmd)))
  {
    hide Encode, Consistent;
    if !s.stopped {
      AddKeeps(q, s.tx, Entry(cmd, |s.accepted|));
      assert Pending(Next(q, s, Send(cmd))) == Pending(s) + [cmd];
      assert (Pending(s) + [cmd])[..s.tx.cmdCount] == Pending(s)[..s.tx.cmdCount];
    }
  }

  /** Popping the pack, or the beginning of the entries when it is empty. */
  lemma PoppedQueue(q: QueueInfo, s: Sys, t: Sys, n: nat)
    requires QueueInv(q, s) && !s.stopped && n <= |s.tx.entries|
    requires t.tx.entries == s.tx.entries[n..] && t.popped == s.popped + n
    requires t.accepted == s.accepted && !t.stopped
    requires Consistent(q, t.tx)
    requires forall i :: 0 <= i < n ==> FitsAlone(s.tx.entries[i].cmd)
    requires t.tx.cmdCount <= |t.tx.entries|
    requires forall i :: 0 <= i < t.tx.cmdCount ==> FitsAlone(t.tx.entries[i].cmd)
    ensures QueueInv(q, t)
  {
    hide Encode;
    PendingCmds(q, s);
    assert Cmds(t.tx.entries) == Pending(t);
    forall i | 0 <= i < t.popped + t.tx.cmdCount ensures FitsAlone(t.accepted[i]) {
      if s.popped <= i < t.popped {
        assert s.tx.entries[i - s.popped].cmd == s.accepted[i];
      } else if t.popped <= i {
        assert t.tx.entries[i - t.popped] == s.tx.entries[i - s.popped];
      }
    }
  }

  lemma PackFits(q: QueueInfo, s: Sys)
    requires QueueInv(q, s) && !s.stopped
    ensures s.tx.cmdCount <= |s.tx.entries|
    ensures forall i :: 0 <= i < s.tx.cmdCount ==> FitsAlone(s.tx.entries[i].cmd)
  {
    forall i | 0 <= i < s.tx.cmdCount ensures FitsAlone(s.tx.entries[i].cmd) {
      assert FitsAlone(s.accepted[s.popped + i]);
    }
  }

  /** The pack that a transmission sends: the current one, or a new one. */
  function Made(tx: Tx): (r: Tx) {
    if tx.cmdCount == 0 then PackCmds(tx) else tx
  }

  /** What one look at a queue does to its entries, its pack and its numbers. */
  lemma CheckShape(q: QueueInfo, tx: Tx, now: nat, ok: bool)
    requires Consistent(q, tx) && tx.entries != []
    ensures var p, made := CheckOnce(q, tx, now, ok), Made(tx);
      && Consistent(q, p.tx)
      && made.entries == tx.entries && made.cmdCount <= |tx.entries|
      && (made.cmdCount > 0 <==> tx.cmdCount > 0 || FitsAlone(tx.entries[0].cmd))
      && (made.cmdCount == 0 ==> made.buf == [])
      && (tx.cmdCount == 0 ==> forall i :: 0 <= i < made.cmdCount ==> FitsAlone(tx.entries[i].cmd))
    ensures var p := CheckOnce(q, tx, now, ok);
      p.frame == None ==> p.tx == tx.(waitingAck := p.tx.waitingAck, sentTs := p.tx.sentTs)
    ensures var p, made := CheckOnce(q, tx, now, ok), Made(tx);
      p.frame.Some? ==>
        && p.frame.value == Frame(if tx.cmdCount == 0 then NextSeq(tx.num) else tx.num, made.buf)
        && p.tx.num == p.frame.value.num && p.tx.lastNum == tx.lastNum
        && (if q.ack || !ok then p.tx.entries == tx.entries && p.tx.buf == made.buf && p.tx.cmdCount == made.cmdCount
            else p.tx.entries == tx.entries[made.cmdCount..] && p.tx.buf == [] && p.tx.cmdCount == 0)
  {
    hide Encode, Remaining;
    CheckOnceKeeps(q, tx, now, ok);
    if tx.cmdCount == 0 {
      PackCmdsKeeps(q, tx, tx.num);
      assert tx.(num := tx.num) == tx;
    }
  }

  lemma CheckEmpty(q: QueueInfo, tx: Tx, now: nat, ok: bool)
    requires tx.entries == []
    ensures CheckOnce(q, tx, now, ok) == Pass(tx, None, None, false)
  {
  }

  lemma CheckQueue(q: QueueInfo, s: Sys, now: nat, ok: bool)
    requires QueueInv(q, s) && Next.requires(q, s, Check(now, ok))
    ensures QueueInv(q, Next(q, s, Check(now, ok)))
  {
    hide Encode, CheckOnce, Consistent, PackCmds;
    if s.tx.entries == [] {
      CheckEmpty(q, s.tx, now, ok);
    } else {
      PackFits(q, s);
      CheckShape(q, s.tx, now, ok);
      var t := Next(q, s, Check(now, ok));
      PoppedQueue(q, s, t, Gone(s.tx, t.tx));
    }
  }

  lemma AckQueue(q: QueueInfo, s: Sys)
    requires QueueInv(q, s) && Next.requires(q, s, AckArrives)
    ensures QueueInv(q, Next(q, s, AckArrives))
  {
    hide Encode;
    if s.acks != [] && !s.stopped {
      PackFits(q, s);
      RecvAckKeeps(q, s.tx, s.acks[0]);
      var t := Next(q, s, AckArrives);
      PoppedQueue(q, s, t, Gone(s.tx, t.tx));
    }
  }

  /** Every step keeps what holds of every queue, acknowledged or not. */
  lemma StepKeepsQueue(q: QueueInfo, s: Sys, step: Step<Cmd>)
    requires QueueInv(q, s)
    ensures Next.requires(q, s, step) && QueueInv(q, Next(q, s, step))
  {
    hide Encode, Consistent, CheckOnce, RecvAck;
    match step
    case Send(cmd) => SendQueue(q, s, cmd);
    case Check(now, ok) => CheckQueue(q, s, now, ok);
    case AckArrives => AckQueue(q, s);
    case _ =>
  }

  // ----- What an acknowledged queue and its receiver keep -----

  function LinkView(s: Sys): View {
    View(s.tx.num, s.tx.lastNum, if s.tx.cmdCount > 0 then Some(s.tx.buf) else None,
         s.rx.recvSeq, s.data, s.acks)
  }

  /** How many commands the receiver has. */
  function Reached(s: Sys): nat {
    if Received(LinkView(s)) then s.popped + s.tx.cmdCount else s.popped
  }

  /** The protocol goes on: the receiver has delivered the commands up to the current pack or with it. */
  ghost predicate Flowing(s: Sys) {
    && Inv(LinkView(s)) && Reached(s) <= |s.accepted|
    && s.rx.delivered == Deliverable(s.accepted[..Reached(s)])
  }

  /** After frames that the receiver has, the link carries only empty ones. */
  ghost predicate KnownThenEmpty(data: seq<Frame>, recvSeq: u16, k: nat) {
    && k <= |data|
    && (forall i :: 0 <= i < k ==> data[i].num == recvSeq)
    && (forall i :: k <= i < |data| ==> data[i].payload == [])
  }

  /** The oldest command is too large for a pack: only empty packs are sent. */
  ghost predicate Stuck(s: Sys) {
    && s.tx.cmdCount == 0 && s.tx.buf == []
    && s.popped < |s.accepted| && !FitsAlone(s.accepted[s.popped])
    && s.rx.delivered == Deliverable(s.accepted[..s.popped])
    && exists k: nat :: KnownThenEmpty(s.data, s.rx.recvSeq, k)
  }

  ghost predicate SysInv(q: QueueInfo, s: Sys) {
    QueueInv(q, s) && (Flowing(s) || Stuck(s))
  }

  lemma SendLink(q: QueueInfo, s: Sys, cmd: Cmd)
    requires q.ack && SysInv(q, s) && Next.requires(q, s, Send(cmd))
    ensures var t := Next(q, s, Send(cmd)); Flowing(t) || Stuck(t)
  {
    hide Inv, Consistent, Deliverable;
    var t := Next(q, s, Send(cmd));
    if !s.stopped {
      assert t.accepted[..s.popped] == s.accepted[..s.popped];
      assert Reached(s) <= |s.accepted| ==> t.accepted[..Reached(s)] == s.accepted[..Reached(s)];
      assert s.popped < |s.accepted| ==> t.accepted[s.popped] == s.accepted[s.popped];
      assert LinkView(t) == LinkView(s);
    }
  }

  lemma CheckLink(q: QueueInfo, s: Sys, now: nat, ok: bool)
    requires q.ack && SysInv(q, s) && Next.requires(q, s, Check(now, ok))
    ensures var t := Next(q, s, Check(now, ok)); Flowing(t) || Stuck(t)
  {
    hide Inv, Encode, CheckOnce, Consistent, PackCmds, Deliverable;
    var t := Next(q, s, Check(now, ok));
    var p := CheckOnce(q, s.tx, now, ok);
    if s.tx.entries == [] {
      CheckEmpty(q, s.tx, now, ok);
    } else {
      CheckShape(q, s.tx, now, ok);
      if p.frame.Some? {
        assert s.tx.entries[0].cmd == s.accepted[s.popped];
        if Stuck(s) {
          StuckSends(s, t, p.frame.value, ok);
        } else if Made(s.tx).cmdCount == 0 {
          StuckBegins(s, t, p.frame.value, ok);
        } else {
          FlowSends(s, t, p.frame.value, ok);
        }
      } else {
        assert LinkView(t) == LinkView(s);
      }
    }
  }

  lemma StuckSends(s: Sys, t: Sys, f: Frame, ok: bool)
    requires Stuck(s) && f.payload == []
    requires t.accepted == s.accepted && t.popped == s.popped && t.rx == s.rx && t.tx.cmdCount == 0 && t.tx.buf == []
    requires t.data == if ok then s.data + [f] else s.data
    ensures Stuck(t)
  {
    var k: nat :| KnownThenEmpty(s.data, s.rx.recvSeq, k);
    assert KnownThenEmpty(t.data, t.rx.recvSeq, k);
  }

  lemma StuckBegins(s: Sys, t: Sys, f: Frame, ok: bool)
    requires Flowing(s) && s.tx.cmdCount == 0 && f.payload == []
    requires s.popped < |s.accepted| && !FitsAlone(s.accepted[s.popped])
    requires t.accepted == s.accepted && t.popped == s.popped && t.rx == s.rx && t.tx.cmdCount == 0 && t.tx.buf == []
    requires t.data == if ok then s.data + [f] else s.data
    ensures Stuck(t)
  {
    assert KnownThenEmpty(t.data, t.rx.recvSeq, |s.data|);
  }

  lemma FlowSends(s: Sys, t: Sys, f: Frame, ok: bool)
    requires Flowing(s) && t.tx.cmdCount > 0
    requires s.tx.cmdCount > 0 ==> t.tx.buf == s.tx.buf && t.tx.num == s.tx.num && t.tx.cmdCount == s.tx.cmdCount
    requires s.tx.cmdCount == 0 ==> t.tx.num == NextSeq(s.tx.num)
    requires t.tx.lastNum == s.tx.lastNum && f == Frame(t.tx.num, t.tx.buf) && t.popped + t.tx.cmdCount <= |t.accepted|
    requires t.accepted == s.accepted && t.popped == s.popped && t.rx == s.rx && t.acks == s.acks
    requires t.data == if ok then s.data + [f] else s.data
    ensures Flowing(t)
  {
    hide Inv, Deliverable;
    var v := LinkView(s);
    if s.tx.cmdCount == 0 {
      FormKeeps(v, t.tx.buf);
      NothingReceived(v);
      v := v.(num := NextSeq(v.num), cur := Some(t.tx.buf));
    }
    SendKeeps(v);
    assert LinkView(t) == if ok then v.(data := v.data + [f]) else v;
  }

  lemma NothingReceived(v: View)
    requires Inv(v) && v.cur == None
    ensures !Received(v)
  {
  }

  lemma DataLink(q: QueueInfo, s: Sys)
    requires q.ack && SysInv(q, s) && s.data != [] && Next.requires(q, s, DataArrives)
    ensures var t := Next(q, s, DataArrives); Flowing(t) || Stuck(t)
  {
    hide Inv, Encode, Consistent, Deliverable, Unpack;
    var t := Next(q, s, DataArrives);
    if Flowing(s) {
      ReceiveKeeps(LinkView(s));
      if ShouldProcess(s.rx.recvSeq, s.data[0].num) {
        PackDelivers(Pending(s)[..s.tx.cmdCount]);
        var upTo := s.popped + s.tx.cmdCount;
        assert s.accepted[..upTo] == s.accepted[..s.popped] + Pending(s)[..s.tx.cmdCount];
        DeliverableAppend(s.accepted[..s.popped], Pending(s)[..s.tx.cmdCount]);
      }
    } else {
      StuckReceives(s, t);
    }
  }

  lemma StuckReceives(s: Sys, t: Sys)
    requires Stuck(s) && s.data != [] && t.tx == s.tx && t.accepted == s.accepted && t.popped == s.popped
    requires t.data == s.data[1..] && t.rx == Receive(s.rx, s.data[0])
    ensures Stuck(t)
  {
    var k: nat :| KnownThenEmpty(s.data, s.rx.recvSeq, k);
    if k > 0 {
      assert KnownThenEmpty(t.data, t.rx.recvSeq, k - 1);
    } else {
      assert KnownThenEmpty(t.data, t.rx.recvSeq, 0);
    }
  }

  /** Unpacking a pack delivers its commands. */
  lemma PackDelivers(cmds: seq<Cmd>)
    requires |Encode(cmds)| <= PACK_MAX
    ensures Unpack(Encode(cmds)).delivered == Deliverable(cmds)
  {
    EncodedSizes(cmds);
    UnpackEncoded(cmds, Success);
  }

  lemma {:induction false} EncodedSizes(cmds: seq<Cmd>)
    ensures forall c <- cmds :: |c| <= |Encode(cmds)|
  {
    if cmds != [] {
      EncodedSizes(cmds[1..]);
      assert cmds == [cmds[0]] + cmds[1..];
    }
  }

  lemma AckLink(q: QueueInfo, s: Sys)
    requires q.ack && SysInv(q, s) && s.acks != [] && Next.requires(q, s, AckArrives)
    ensures var t := Next(q, s, AckArrives); Flowing(t) || Stuck(t)
  {
    hide Inv, Encode, Deliverable;
    var t := Next(q, s, AckArrives);
    if Flowing(s) {
      AckKeeps(LinkView(s));
    }
  }

  lemma LinkStep(q: QueueInfo, s: Sys, step: Step<Cmd>)
    requires q.ack && SysInv(q, s) && Next.requires(q, s, step)
    requires step.LoseData? || step.LoseAck? || step.DuplicateData? || step.DuplicateAck?
    ensures var t := Next(q, s, step); Flowing(t) || Stuck(t)
  {
    hide Inv, Encode, Consistent, Deliverable;
    var t := Next(q, s, step);
    if Flowing(s) {
      LoseKeeps(LinkView(s), step.i);
      DuplicateKeeps(LinkView(s), step.i);
    } else {
      StuckLink(s.data, s.rx.recvSeq, step.i);
    }
  }

  lemma StuckLink(data: seq<Frame>, recvSeq: u16, i: nat)
    requires exists k: nat :: KnownThenEmpty(data, recvSeq, k)
    ensures i < |data| ==> exists k: nat :: KnownThenEmpty(Lose(data, i), recvSeq, k)
    ensures i < |data| ==> exists k: nat :: KnownThenEmpty(Duplicate(data, i), recvSeq, k)
  {
    var k: nat :| KnownThenEmpty(data, recvSeq, k);
    if i < |data| {
      assert KnownThenEmpty(Lose(data, i), recvSeq, if i < k then k - 1 else k);
      assert KnownThenEmpty(Duplicate(data, i), recvSeq, if i < k then k + 1 else k);
    }
  }

  /** Every step of every kind keeps the invariant of an acknowledged queue. */
  lemma StepKeepsInv(q: QueueInfo, s: Sys, step: Step<Cmd>)
    requires q.ack && SysInv(q, s)
    ensures Next.requires(q, s, step) && SysInv(q, Next(q, s, step))
  {
    hide QueueInv, Flowing, Stuck, CheckOnce, RecvAck;
    StepKeepsQueue(q, s, step);
    match step
    case Send(cmd) => SendLink(q, s, cmd);
    case Check(now, ok) => CheckLink(q, s, now, ok);
    case StopQueue => StopLink(q, s);
    case DataArrives => if s.data != [] { DataLink(q, s); }
    case AckArrives => if s.acks != [] { AckLink(q, s); }
    case _ => LinkStep(q, s, step);
  }

  lemma StopLink(q: QueueInfo, s: Sys)
    requires SysInv(q, s) && Next.requires(q, s, StopQueue)
    ensures var t := Next(q, s, StopQueue); Flowing(t) || Stuck(t)
  {
    hide Inv, Encode;
  }

  // ----- Runs -----

  /** The state after the given steps from a state that satisfies the invariant. */
  function RunFrom(q: QueueInfo, s: Sys, steps: seq<Step<Cmd>>): (t: Sys)
    requires QueueInv(q, s)
    ensures QueueInv(q, t)
    decreases |steps|
  {
    if steps == [] then s
    else
      StepKeepsQueue(q, s, steps[0]);
      RunFrom(q, Next(q, s, steps[0]), steps[1..])
  }

  lemma {:induction false} RunKeepsInv(q: QueueInfo, s: Sys, steps: seq<Step<Cmd>>)
    requires q.ack && SysInv(q, s)
    ensures SysInv(q, RunFrom(q, s, steps))
    decreases |steps|
  {
    hide QueueInv, Flowing, Stuck, Next;
    if steps != [] {
      StepKeepsInv(q, s, steps[0]);
      RunKeepsInv(q, Next(q, s, steps[0]), steps[1..]);
    }
  }

  lemma InitOk(q: QueueInfo)
    ensures QueueInv(q, INIT) && Flowing(INIT)
  {
    assert INIT.accepted[..0] == [] && Pending(INIT)[..0] == [];
  }

  /** The state after the given steps from the start. */
  function Run(q: QueueInfo, steps: seq<Step<Cmd>>): (s: Sys)
    ensures QueueInv(q, s)
  {
    InitOk(q);
    RunFrom(q, INIT, steps)
  }

  /** In every run of an acknowledged queue, across any number of wraps of the sequence numbers and
      with commands of any size, the commands delivered are exactly the deliverable ones of a
      prefix of the accepted commands, in order and each once. The prefix includes every
      acknowledged command, never goes beyond a command that is too large for a pack, and is
      everything when the queue is empty without having been stopped. */
  lemma ExactlyOnceInOrder(q: QueueInfo, steps: seq<Step<Cmd>>)
    requires q.ack
    ensures var s := Run(q, steps);
      exists n :: s.popped <= n <= |s.accepted| && s.rx.delivered == Deliverable(s.accepted[..n])
        && forall i :: 0 <= i < n ==> FitsAlone(s.accepted[i])
    ensures var s := Run(q, steps);
      !s.stopped && s.tx.entries == [] ==> s.rx.delivered == Deliverable(s.accepted)
  {
    InitOk(q);
    RunKeepsInv(q, INIT, steps);
    var s := Run(q, steps);
    var n := if Flowing(s) then Reached(s) else s.popped;
    assert s.rx.delivered == Deliverable(s.accepted[..n]);
    if !s.stopped && s.tx.entries == [] {
      assert s.accepted[..n] == s.accepted;
    }
  }

  // ----- A queue can be drained if and only if its commands fit in packs -----

  lemma {:induction false} RunFromAppend(q: QueueInfo, s: Sys, a: seq<Step<Cmd>>, b: seq<Step<Cmd>>)
    requires QueueInv(q, s)
    ensures RunFrom(q, s, a + b) == RunFrom(q, RunFrom(q, s, a), b)
    decreases |a|
  {
    hide QueueInv, Next;
    if a == [] {
      assert a + b == b;
    } else {
      StepKeepsQueue(q, s, a[0]);
      assert (a + b)[1..] == a[1..] + b;
      RunFromAppend(q, Next(q, s, a[0]), a[1..], b);
    }
  }

  /** Steps without new commands and without a stop keep the accepted commands and never put a
      command back. */
  ghost predicate Toward(s: Sys, t: Sys) {
    t.accepted == s.accepted && t.stopped == s.stopped && s.popped <= t.popped
  }

  lemma ProgressToward(q: QueueInfo, s: Sys, step: Step<Cmd>)
    requires QueueInv(q, s) && Progress(step)
    ensures Next.requires(q, s, step) && Toward(s, Next(q, s, step))
  {
    hide Encode, Consistent, CheckOnce, RecvAck;
  }

  lemma {:induction false} RunToward(q: QueueInfo, s: Sys, steps: seq<Step<Cmd>>)
    requires QueueInv(q, s) && forall x <- steps :: Progress(x)
    ensures Toward(s, RunFrom(q, s, steps))
    decreases |steps|
  {
    hide QueueInv, Next, Progress;
    if steps != [] {
      ProgressToward(q, s, steps[0]);
      StepKeepsQueue(q, s, steps[0]);
      RunToward(q, Next(q, s, steps[0]), steps[1..]);
    }
  }

  lemma RunStep(q: QueueInfo, s: Sys, step: Step<Cmd>, steps: seq<Step<Cmd>>)
    requires QueueInv(q, s) && Next.requires(q, s, step) && QueueInv(q, Next(q, s, step))
    ensures RunFrom(q, s, [step] + steps) == RunFrom(q, Next(q, s, step), steps)
  {
    hide QueueInv, Next;
    assert ([step] + steps)[1..] == steps;
  }

  /** Lets everything that is on the links arrive. */
  lemma {:induction false} Flush(q: QueueInfo, s: Sys) returns (steps: seq<Step<Cmd>>)
    requires q.ack && QueueInv(q, s)
    ensures forall x <- steps :: Progress(x)
    ensures var t := RunFrom(q, s, steps); t.data == [] && t.acks == []
    decreases 2 * |s.data| + |s.acks|
  {
    hide QueueInv, RecvAck, Receive;
    steps := [];
    if s.data != [] || s.acks != [] {
      var step := if s.data != [] then DataArrives else AckArrives;
      StepKeepsQueue(q, s, step);
      var rest := Flush(q, Next(q, s, step));
      steps := [step] + rest;
      RunStep(q, s, step, rest);
    }
  }

  /** A time at which no delay of the queue is running any more. */
  function Later(q: QueueInfo, tx: Tx): nat {
    tx.sentTs + 1 + (if q.ackTimeoutMs > 0 then q.ackTimeoutMs * 1000 else 0)
  }

  /** At that time a pack with commands is sent, if the oldest command fits in one. */
  lemma CheckSends(q: QueueInfo, s: Sys)
    requires q.ack && QueueInv(q, s) && s.tx.entries != [] && FitsAlone(s.tx.entries[0].cmd)
    requires Next.requires(q, s, Check(Later(q, s.tx), true))
    ensures var t := Next(q, s, Check(Later(q, s.tx), true));
      && t.data == s.data + [Frame(t.tx.num, t.tx.buf)] && t.acks == s.acks && t.popped == s.popped
      && t.tx.cmdCount > 0 && t.tx.waitingAck && t.tx.entries == s.tx.entries && !t.stopped
  {
    hide Encode;
    CheckShape(q, s.tx, Later(q, s.tx), true);
    assert Remaining(q.ackTimeoutMs, s.tx.sentTs, Later(q, s.tx)) <= 0;
  }

  /** With nothing on the links, one transmission and its acknowledgement pop a pack. */
  lemma Round(q: QueueInfo, s: Sys) returns (steps: seq<Step<Cmd>>)
    requires q.ack && SysInv(q, s) && s.tx.entries != [] && FitsAlone(s.tx.entries[0].cmd)
    requires s.data == [] && s.acks == []
    ensures forall x <- steps :: Progress(x)
    ensures RunFrom(q, s, steps).popped > s.popped
  {
    hide QueueInv, Flowing, Stuck, CheckOnce, Receive, RecvAck;
    var step := Check(Later(q, s.tx), true);
    StepKeepsInv(q, s, step);
    CheckSends(q, s);
    var s1 := Next(q, s, step);
    StepKeepsInv(q, s1, DataArrives);
    var s2 := Next(q, s1, DataArrives);
    StepKeepsInv(q, s2, AckArrives);
    AckPops(q, s2);
    steps := [step] + ([DataArrives] + ([AckArrives] + []));
    RunStep(q, s, step, [DataArrives] + ([AckArrives] + []));
    RunStep(q, s1, DataArrives, [AckArrives] + []);
    RunStep(q, s2, AckArrives, []);
  }

  lemma AckPops(q: QueueInfo, s: Sys)
    requires q.ack && SysInv(q, s) && s.acks != [] && s.acks[0] == s.tx.num && s.tx.cmdCount > 0
    requires s.tx.waitingAck && s.tx.entries != [] && !s.stopped
    ensures Next.requires(q, s, AckArrives) && Next(q, s, AckArrives).popped > s.popped
  {
    hide Encode;
    assert s.tx.num != s.tx.lastNum;
  }

  /** From every reachable state of a running queue whose pending commands all fit in a pack,
      finitely many transmissions and arrivals empty the queue and deliver every command. */
  lemma {:induction false} CanDrain(q: QueueInfo, s: Sys) returns (steps: seq<Step<Cmd>>)
    requires q.ack && SysInv(q, s) && !s.stopped && s.popped <= |s.accepted|
    requires forall c <- Pending(s) :: FitsAlone(c)
    ensures forall x <- steps :: Progress(x)
    ensures var t := RunFrom(q, s, steps); t.tx.entries == [] && t.rx.delivered == Deliverable(s.accepted)
    decreases |s.accepted| - s.popped
  {
    hide QueueInv, Flowing, Stuck;
    steps := Flush(q, s);
    var s1 := RunFrom(q, s, steps);
    RunToward(q, s, steps);
    RunKeepsInv(q, s, steps);
    if s1.tx.entries != [] {
      OldestPending(q, s1);
      assert Pending(s1)[0] == Pending(s)[s1.popped - s.popped];
      var round := Round(q, s1);
      var s2 := RunFrom(q, s1, round);
      RunToward(q, s1, round);
      RunKeepsInv(q, s1, round);
      PoppedBound(q, s2);
      assert Pending(s2) == Pending(s)[s2.popped - s.popped..];
      var rest := CanDrain(q, s2);
      RunFromAppend(q, s, steps, round + rest);
      RunFromAppend(q, s1, round, rest);
      steps := steps + (round + rest);
    } else {
      EmptyDelivered(q, s1);
    }
  }

  lemma EmptyDelivered(q: QueueInfo, s: Sys)
    requires SysInv(q, s) && !s.stopped && s.tx.entries == []
    ensures s.rx.delivered == Deliverable(s.accepted)
  {
    assert s.accepted[..s.popped] == s.accepted;
    assert s.popped + s.tx.cmdCount == s.popped;
  }

  lemma PoppedBound(q: QueueInfo, s: Sys)
    requires QueueInv(q, s)
    ensures s.popped <= |s.accepted|
  {
  }

  lemma OldestPending(q: QueueInfo, s: Sys)
    requires QueueInv(q, s) && s.tx.entries != []
    ensures !s.stopped && s.popped < |s.accepted| && s.tx.entries[0].cmd == Pending(s)[0]
  {
  }

  /** A running acknowledged queue can be emptied, by transmissions and arrivals, if and only if
      every command in it fits in a pack. */
  lemma DrainsIff(q: QueueInfo, s: Sys)
    requires q.ack && SysInv(q, s) && !s.stopped && s.popped <= |s.accepted|
    ensures (exists steps :: (forall x <- steps :: Progress(x)) && RunFrom(q, s, steps).tx.entries == [])
      <==> (forall c <- Pending(s) :: FitsAlone(c))
  {
    if forall c <- Pending(s) :: FitsAlone(c) {
      var steps := CanDrain(q, s);
    }
    forall steps | (forall x <- steps :: Progress(x)) && RunFrom(q, s, steps).tx.entries == []
      ensures forall c <- Pending(s) :: FitsAlone(c)
    {
      RunToward(q, s, steps);
      var t := RunFrom(q, s, steps);
      assert t.popped == |s.accepted|;
    }
  }
}
