/** What the application is told about each command, in every run of an acknowledged queue of
    version 3, and how a queue can always be drained. */
module TracesV3 {
  import opened Bytes
  import opened Commands
  import opened PackV3
  import opened Links
  import opened StopAndWait
  import opened QueueV3
  import opened SystemV3

  // ----- Status callbacks -----

  /** Where a command is in its life. */
  datatype Stage = Queued | Begun | InPack | Acked | Dropped

  /** Only notifications of partial packing. */
  ghost predicate Partials(t: seq<Event>) {
    forall e <- t :: e.status == PartiallyPacked && !e.done
  }

  predicate EndsWith(t: seq<Event>, status: SendStatus, done: bool) {
    t != [] && t[|t| - 1].status == status && t[|t| - 1].done == done
  }

  /** What the application has been told of a command: any number of partial packings, then the
      packing of its end, then the acknowledgement; or a beginning of that and a cancellation. */
  ghost predicate TraceOk(t: seq<Event>, stage: Stage)
    decreases match stage case Dropped => 2 case Acked => 1 case _ => 0
  {
    match stage
    case Queued => t == []
    case Begun => t != [] && Partials(t)
    case InPack => EndsWith(t, Packed, false) && Partials(t[..|t| - 1])
    case Acked => EndsWith(t, AckReceived, true) && TraceOk(t[..|t| - 1], InPack)
    case Dropped => EndsWith(t, Canceled, true) && (Partials(t[..|t| - 1]) || TraceOk(t[..|t| - 1], InPack))
  }

  function StageOf(s: Sys, id: int): Stage {
    if id < s.acked then Acked
    else if id >= |s.accepted| then Queued
    else if s.stopped then Dropped
    else if id < s.acked + CompletedNow(s.tx) then InPack
    else if id == s.acked + CompletedNow(s.tx) && (if s.tx.cmdCount > 0 then s.tx.rem > 0 else s.tx.lastRem > 0) then Begun
    else Queued
  }

  /** A command is packed in consecutive packs, with one call for each, and acknowledged with the last
      of them; `num` is the number of the current or last pack. */
  ghost predicate Numbered(t: seq<Event>, stage: Stage, num: u16) {
    && (forall i :: 0 <= i < |t| - 1 && t[i + 1].status != Canceled ==>
      t[i + 1].num == if t[i + 1].status == AckReceived then t[i].num else NextSeq(t[i].num))
    && (stage == Begun || stage == InPack ==> t != [] && t[|t| - 1].num == num)
  }

  ghost predicate LogInv(s: Sys) {
    forall id: nat ::
      TraceOk(Trace(s.tx.log, id), StageOf(s, id)) && Numbered(Trace(s.tx.log, id), StageOf(s, id), s.tx.num)
  }

  /** The change that one operation, which changes the number of the pack from `num` to `num'`, makes
      to the trace of one command. */
  ghost predicate Advances(from: Stage, to: Stage, e: Option<Event>, num: u16, num': u16) {
    match e
    case None => to == from && (to == Begun || to == InPack ==> num' == num)
    case Some(e) =>
      match e.status
      case PartiallyPacked =>
        !e.done && to == Begun && (from == Queued || from == Begun) && e.num == num' == NextSeq(num)
      case Packed =>
        !e.done && to == InPack && (from == Queued || from == Begun) && e.num == num' == NextSeq(num)
      case AckReceived => e.done && to == Acked && from == InPack && e.num == num
      case Canceled => e.done && to == Dropped && from != Acked && from != Dropped
      case Timeout => false
  }

  lemma TraceAdvances(t: seq<Event>, from: Stage, to: Stage, e: Option<Event>, num: u16, num': u16)
    requires TraceOk(t, from) && Numbered(t, from, num) && Advances(from, to, e, num, num')
    ensures var t' := t + (if e.Some? then [e.value] else []); TraceOk(t', to) && Numbered(t', to, num')
  {
    var t' := t + (if e.Some? then [e.value] else []);
    if e.Some? {
      assert t'[..|t'| - 1] == t;
    } else {
      assert t' == t;
    }
  }

  /** If an operation appends events of consecutive commands and every command advances
      accordingly, the invariant of the traces is kept. */
  lemma LogStep(s: Sys, t: Sys, evs: seq<Event>, base: int)
    requires LogInv(s) && t.tx.log == s.tx.log + evs && Consecutive(evs, base)
    requires forall id: nat :: Advances(StageOf(s, id), StageOf(t, id),
      if base <= id < base + |evs| then Some(evs[id - base]) else None, s.tx.num, t.tx.num)
    ensures LogInv(t)
  {
    forall id: nat
      ensures TraceOk(Trace(t.tx.log, id), StageOf(t, id)) && Numbered(Trace(t.tx.log, id), StageOf(t, id), t.tx.num)
    {
      TraceAfter(s.tx.log, evs, base, id);
      var e := if base <= id < base + |evs| then Some(evs[id - base]) else None;
      TraceAdvances(Trace(s.tx.log, id), StageOf(s, id), StageOf(t, id), e, s.tx.num, t.tx.num);
    }
  }

  lemma SameLog(s: Sys, t: Sys)
    requires LogInv(s) && t.tx.log == s.tx.log && t.tx.num == s.tx.num
    requires forall id: nat :: StageOf(t, id) == StageOf(s, id)
    ensures LogInv(t)
  {
  }

  lemma SendLog(q: QueueInfo, s: Sys, cmd: Cmd)
    requires SysInv(s) && LogInv(s) && Next.requires(q, s, Send(cmd))
    ensures LogInv(Next(q, s, Send(cmd)))
  {
    hide Inv, AtPoint, LogInv, Consistent;
    SameLog(s, Next(q, s, Send(cmd)));
  }

  lemma StopLog(q: QueueInfo, s: Sys)
    requires SysInv(s) && LogInv(s) && Next.requires(q, s, StopQueue)
    ensures LogInv(Next(q, s, StopQueue))
  {
    hide Inv, AtPoint, LogInv, Consistent;
    LogStep(s, Next(q, s, StopQueue), CancelEvents(s.tx.entries), s.acked);
  }

  lemma AckLog(q: QueueInfo, s: Sys)
    requires q.ack && SysInv(s) && LogInv(s) && Next.requires(q, s, AckArrives)
    ensures LogInv(Next(q, s, AckArrives))
  {
    hide AtPoint, LogInv, Encode, ValidCut;
    var t := Next(q, s, AckArrives);
    if s.acks != [] && !s.stopped && s.acks[0] != s.tx.lastNum && s.acks[0] == s.tx.num && s.tx.waitingAck
       && s.tx.entries != [] {
      LogStep(s, t, AckEvents(s.tx.entries, CompletedNow(s.tx), s.acks[0]), s.acked);
    } else {
      SameLog(s, t);
    }
  }

  /** Forming a pack when there is none, whether or not the transport takes it. */
  lemma FormLog(q: QueueInfo, s: Sys, t: Sys)
    requires q.ack && SysInv(s) && LogInv(s) && s.tx.entries != [] && s.tx.cmdCount == 0
    requires Consistent(q, s.tx) && Cmds(s.tx.entries) == Pending(s)
    requires t.acked == s.acked && t.accepted == s.accepted && t.stopped == s.stopped && t.tx.num == NextSeq(s.tx.num)
    requires var p := Pack(Pending(s), s.tx.lastRem, true);
      && t.tx.cmdCount == p.count && t.tx.rem == p.rem && p.count <= |s.tx.entries|
      && t.tx.log == s.tx.log + PackEvents(s.tx.entries, p.count, p.count, p.rem, t.tx.num, true)
    ensures LogInv(t)
  {
    hide Inv, AtPoint, LogInv, Consistent, Encode, ValidCut, Pack;
    PackEncodes(Pending(s), s.tx.lastRem);
    LogStep(s, t, PackEvents(s.tx.entries, t.tx.cmdCount, t.tx.cmdCount, t.tx.rem, t.tx.num, true), s.acked);
  }

  lemma CheckLog(q: QueueInfo, s: Sys, now: nat, ok: bool)
    requires q.ack && SysInv(s) && LogInv(s) && Next.requires(q, s, Check(now, ok))
    ensures LogInv(Next(q, s, Check(now, ok)))
  {
    hide Inv, AtPoint, LogInv, Consistent, Encode, ValidCut, Pack, Advances, PackEvents;
    var t := Next(q, s, Check(now, ok));
    var p := CheckOnce(q, s.tx, now, ok);
    if p.frame.Some? && s.tx.cmdCount == 0 {
      QueueIsConsistent(q, s);
      FormLog(q, s, t);
    } else {
      SameLog(s, t);
    }
  }

  lemma StepKeepsLog(q: QueueInfo, s: Sys, step: Step<Cmd>)
    requires q.ack && SysInv(s) && LogInv(s) && Next.requires(q, s, step)
    ensures LogInv(Next(q, s, step))
  {
    hide SysInv, LogInv, Consistent;
    match step
    case Send(cmd) => SendLog(q, s, cmd);
    case Check(now, ok) => CheckLog(q, s, now, ok);
    case StopQueue => StopLog(q, s);
    case AckArrives => AckLog(q, s);
    case _ => SameLog(s, Next(q, s, step));
  }

  lemma {:induction false} RunKeepsLog(q: QueueInfo, s: Sys, steps: seq<Step<Cmd>>)
    requires q.ack && SysInv(s) && LogInv(s)
    ensures LogInv(RunFrom(q, s, steps))
    decreases |steps|
  {
    hide LogInv, SysInv;
    if steps != [] {
      StepKeepsInv(q, s, steps[0]);
      StepKeepsLog(q, s, steps[0]);
      RunKeepsLog(q, Next(q, s, steps[0]), steps[1..]);
    }
  }

  /** In every run, the application is told of every accepted command, in this order: any number
      of partial packings, one packing, one acknowledgement, or a beginning of that followed by a
      cancellation when the queue is stopped. The packings are one for each of the consecutive packs
      that the command spans. It is told of no other command. */
  lemma TracesAreOk(q: QueueInfo, steps: seq<Step<Cmd>>)
    requires q.ack
    ensures var s := Run(q, steps);
      forall id: nat ::
        TraceOk(Trace(s.tx.log, id), StageOf(s, id)) && Numbered(Trace(s.tx.log, id), StageOf(s, id), s.tx.num)
  {
    InitOk();
    assert LogInv(INIT);
    RunKeepsLog(q, INIT, steps);
  }

  /** In every run, the last call for a command is the only one that can say that it is done, and
      it does so for every command acknowledged or, once the queue is stopped, for all. A command
      reported as acknowledged is among those that the receiver has completed. */
  lemma DoneOnce(q: QueueInfo, steps: seq<Step<Cmd>>, id: nat)
    requires q.ack
    ensures var s := Run(q, steps);
      var t := Trace(s.tx.log, id);
      && (forall i :: 0 <= i < |t| - 1 ==> !t[i].done)
      && (id < |s.accepted| && (s.stopped || id < s.acked) ==> t != [] && t[|t| - 1].done)
      && ((exists e <- t :: e.status == AckReceived) ==> id < s.acked)
      && (id < s.acked ==> EndsWith(t, AckReceived, true))
  {
    TracesAreOk(q, steps);
    var s := Run(q, steps);
    var t := Trace(s.tx.log, id);
    assert TraceOk(t, StageOf(s, id));
    NotDoneBefore(t, StageOf(s, id));
  }

  lemma NotDoneBefore(t: seq<Event>, stage: Stage)
    requires TraceOk(t, stage)
    ensures forall i :: 0 <= i < |t| - 1 ==> !t[i].done
    ensures (exists e <- t :: e.status == AckReceived) ==> stage == Acked
  {
    if t != [] {
      var init := t[..|t| - 1];
      if stage == Acked || stage == Dropped {
        if init != [] {
          var init2 := init[..|init| - 1];
          assert init == init2 + [init[|init| - 1]];
        }
      }
      assert t == init + [t[|t| - 1]];
    }
  }

  // ----- A queue can always be drained -----

  lemma {:induction false} RunFromAppend(q: QueueInfo, s: Sys, a: seq<Step<Cmd>>, b: seq<Step<Cmd>>)
    requires q.ack && SysInv(s)
    ensures RunFrom(q, s, a + b) == RunFrom(q, RunFrom(q, s, a), b)
    decreases |a|
  {
    hide SysInv, Next;
    if a == [] {
      assert a + b == b;
    } else {
      StepKeepsInv(q, s, a[0]);
      assert (a + b)[1..] == a[1..] + b;
      RunFromAppend(q, Next(q, s, a[0]), a[1..], b);
    }
  }

  /** The bytes that the sender still has to get acknowledged. */
  function Left(s: Sys): nat
    requires SysInv(s)
  {
    |Stream(Pending(s), s.tx.lastRem)|
  }

  /** What steps without new commands and without a stop keep, and what they may lower. */
  ghost predicate Toward(s: Sys, t: Sys)
    requires SysInv(s) && SysInv(t)
  {
    t.accepted == s.accepted && !t.stopped && Left(t) <= Left(s)
  }

  lemma ArrivalToward(q: QueueInfo, s: Sys, step: Step<Cmd>)
    requires q.ack && SysInv(s) && !s.stopped && (step.DataArrives? || step.AckArrives?)
    ensures Next.requires(q, s, step) && SysInv(Next(q, s, step)) && Toward(s, Next(q, s, step))
  {
    hide Inv, AtPoint, Encode;
    StepKeepsInv(q, s, step);
    var t := Next(q, s, step);
    if step.AckArrives? && s.acks != [] {
      AckKeeps(LinkView(s));
      if s.acks[0] != s.tx.lastNum && s.tx.waitingAck && s.tx.entries != [] {
        AckLowers(q, s);
      }
    }
  }

  lemma QueueInvBound(s: Sys)
    requires QueueInv(s)
    ensures s.acked <= |s.accepted| && (!s.stopped ==> |s.tx.entries| == |s.accepted| - s.acked)
  {
  }

  /** An acknowledgement that is waited for lowers what is left by the bytes of the pack. */
  lemma AckLowers(q: QueueInfo, s: Sys)
    requires q.ack && SysInv(s) && !s.stopped && s.tx.cmdCount > 0
    requires s.acks != [] && s.acks[0] == s.tx.num && s.tx.num != s.tx.lastNum
    requires s.tx.waitingAck && s.tx.entries != [] && Next.requires(q, s, AckArrives)
    requires SysInv(Next(q, s, AckArrives))
    ensures Left(Next(q, s, AckArrives)) == Left(s) - |s.tx.buf| < Left(s)
  {
    hide Inv, AtPoint, Encode, Stream, ValidCut, QueueInv, Consistent;
    var t := Next(q, s, AckArrives);
    assert s.acked <= |s.accepted| && t.acked == s.acked + CompletedNow(s.tx) by {
      hide AckEvents;
      QueueInvBound(s);
      QueueInvBound(t);
      QueueIsConsistent(q, s);
    }
    EncodeThenRest(Pending(s), s.tx.cmdCount, s.tx.lastRem, s.tx.rem);
    assert Pending(t) == Pending(s)[CompletedNow(s.tx)..];
  }

  lemma StepToward(q: QueueInfo, s: Sys, t: Sys, steps: seq<Step<Cmd>>, step: Step<Cmd>) returns (more: seq<Step<Cmd>>)
    requires q.ack && SysInv(s) && Next.requires(q, s, step)
    requires SysInv(Next(q, s, step)) && t == RunFrom(q, Next(q, s, step), steps)
    requires Progress(step) && (forall x <- steps :: Progress(x))
    ensures more == [step] + steps && t == RunFrom(q, s, more) && forall x <- more :: Progress(x)
  {
    hide SysInv, Next;
    more := [step] + steps;
    assert more[1..] == steps;
  }

  /** Lets everything that is on the links arrive. */
  lemma {:induction false} Flush(q: QueueInfo, s: Sys) returns (steps: seq<Step<Cmd>>)
    requires q.ack && SysInv(s) && !s.stopped
    ensures forall x <- steps :: Progress(x)
    ensures var t := RunFrom(q, s, steps); t.data == [] && t.acks == [] && Toward(s, t)
    decreases 2 * |s.data| + |s.acks|
  {
    hide SysInv;
    steps := [];
    if s.data != [] || s.acks != [] {
      var step := if s.data != [] then DataArrives else AckArrives;
      ArrivalToward(q, s, step);
      var rest := Flush(q, Next(q, s, step));
      steps := StepToward(q, s, RunFrom(q, Next(q, s, step), rest), rest, step);
    }
  }

  /** A time at which no delay of the queue is running any more. */
  function Later(q: QueueInfo, tx: Tx): nat {
    tx.sentTs + tx.lastSentTs + 1
    + (if q.ackTimeoutMs > 0 then q.ackTimeoutMs * 1000 else 0)
    + (if q.maxTxRateMs > 0 then q.maxTxRateMs * 1000 else 0)
  }

  /** At that time the current pack is sent, made first if need be. */
  lemma CheckSends(q: QueueInfo, s: Sys)
    requires q.ack && SysInv(s) && !s.stopped && s.tx.entries != []
    requires Next.requires(q, s, Check(Later(q, s.tx), true))
    ensures var t := Next(q, s, Check(Later(q, s.tx), true));
      && t.data == s.data + [Frame(t.tx.num, t.tx.buf)] && t.acks == s.acks
      && t.accepted == s.accepted && !t.stopped && t.acked == s.acked && t.tx.lastRem == s.tx.lastRem
      && t.tx.cmdCount > 0 && t.tx.waitingAck && t.tx.entries == s.tx.entries
  {
    hide Inv, AtPoint, Encode, ValidCut, Pack;
    QueueIsConsistent(q, s);
    PackEncodes(Pending(s), s.tx.lastRem);
    assert Remaining(q.ackTimeoutMs, s.tx.sentTs, Later(q, s.tx)) <= 0;
    assert Remaining(q.maxTxRateMs, s.tx.lastSentTs, Later(q, s.tx)) <= 0;
  }

  /** With nothing on the links, one transmission and its acknowledgement lower what is left. */
  lemma Round(q: QueueInfo, s: Sys) returns (steps: seq<Step<Cmd>>)
    requires q.ack && SysInv(s) && !s.stopped && s.tx.entries != [] && s.data == [] && s.acks == []
    ensures forall x <- steps :: Progress(x)
    ensures var t := RunFrom(q, s, steps); Toward(s, t) && Left(t) < Left(s) && t.data == [] && t.acks == []
  {
    hide Inv, AtPoint, PackOk, QueueInv, CheckOnce, RecvAck, Receive, Consistent, Stream;
    var step := Check(Later(q, s.tx), true);
    StepKeepsInv(q, s, step);
    CheckSends(q, s);
    var s1 := Next(q, s, step);
    StepKeepsInv(q, s1, DataArrives);
    var s2 := Next(q, s1, DataArrives);
    NumbersDiffer(s2);
    StepKeepsInv(q, s2, AckArrives);
    AckLowers(q, s2);
    steps := [step, DataArrives, AckArrives];
    ThreeSteps(q, s, step, DataArrives, AckArrives);
    AckKeepsRest(q, s2);
  }

  lemma NumbersDiffer(s: Sys)
    requires SysInv(s) && s.tx.cmdCount > 0
    ensures s.tx.num != s.tx.lastNum
  {
  }

  lemma AckKeepsRest(q: QueueInfo, s: Sys)
    requires q.ack && SysInv(s) && !s.stopped && Next.requires(q, s, AckArrives) && s.acks != []
    ensures var t := Next(q, s, AckArrives);
      t.accepted == s.accepted && !t.stopped && t.data == s.data && t.acks == s.acks[1..]
  {
  }

  lemma ThreeSteps(q: QueueInfo, s: Sys, a: Step<Cmd>, b: Step<Cmd>, c: Step<Cmd>)
    requires q.ack && SysInv(s)
    requires Next.requires(q, s, a) && SysInv(Next(q, s, a))
    requires Next.requires(q, Next(q, s, a), b) && SysInv(Next(q, Next(q, s, a), b))
    requires Next.requires(q, Next(q, Next(q, s, a), b), c) && SysInv(Next(q, Next(q, Next(q, s, a), b), c))
    ensures RunFrom(q, s, [a, b, c]) == Next(q, Next(q, Next(q, s, a), b), c)
  {
    hide SysInv, Next;
    var s1 := Next(q, s, a);
    assert [a, b, c][1..] == [b, c] && [b, c][1..] == [c] && [c][1..] == [];
    assert RunFrom(q, s, [a, b, c]) == RunFrom(q, s1, [b, c]);
    assert RunFrom(q, s1, [b, c]) == RunFrom(q, Next(q, s1, b), [c]);
    assert RunFrom(q, Next(q, s1, b), [c]) == RunFrom(q, Next(q, Next(q, s1, b), c), []);
  }

  /** From every reachable state of a running queue, finitely many transmissions and arrivals, with
      no new command, empty the queue and deliver every accepted command: no state is a dead end. */
  lemma {:induction false} CanDrain(q: QueueInfo, s: Sys) returns (steps: seq<Step<Cmd>>)
    requires q.ack && SysInv(s) && !s.stopped
    ensures forall x <- steps :: Progress(x)
    ensures var t := RunFrom(q, s, steps);
      t.tx.entries == [] && t.accepted == s.accepted && t.rx.delivered == Deliverable(s.accepted)
    decreases Left(s)
  {
    hide SysInv, Left;
    var flush := Flush(q, s);
    var s1 := RunFrom(q, s, flush);
    steps := flush;
    if s1.tx.entries != [] {
      var round := Round(q, s1);
      var s2 := RunFrom(q, s1, round);
      var rest := CanDrain(q, s2);
      steps := flush + (round + rest);
      RunFromAppend(q, s, flush, round + rest);
      RunFromAppend(q, s1, round, rest);
    } else {
      EmptyDelivered(s1);
    }
  }

  lemma EmptyDelivered(s: Sys)
    requires SysInv(s) && !s.stopped && s.tx.entries == []
    ensures s.rx.delivered == Deliverable(s.accepted)
  {
    assert s.accepted[..s.acked] == s.accepted;
  }

  // ----- How often packs are sent -----

  /** The times of the looks that put a frame on the link. */
  function SendTimes(q: QueueInfo, s: Sys, steps: seq<Step<Cmd>>): seq<nat>
    requires q.ack && SysInv(s)
    decreases |steps|
  {
    if steps == [] then []
    else
      StepKeepsInv(q, s, steps[0]);
      var t := Next(q, s, steps[0]);
      (if steps[0].Check? && |t.data| > |s.data| then [steps[0].now] else []) + SendTimes(q, t, steps[1..])
  }

  /** Since the last transmission the queue is waiting, or its timeout was over by the time `clock`; the
      minimum delay is counted from it. */
  ghost predicate Paced(q: QueueInfo, tx: Tx, last: Option<nat>, clock: nat) {
    last.Some? ==>
      && last.value <= clock && tx.lastSentTs == last.value
      && ((tx.waitingAck && tx.sentTs == last.value) || clock >= last.value + 1000 * q.ackTimeoutMs)
  }

  lemma PacedStep(q: QueueInfo, s: Sys, step: Step<Cmd>, last: Option<nat>, clock: nat)
    requires q.ack && SysInv(s) && Next.requires(q, s, step) && Paced(q, s.tx, last, clock)
    requires step.Check? ==> clock <= step.now
    ensures var t := Next(q, s, step);
      var sent := step.Check? && |t.data| > |s.data|;
      && (sent && last.Some? ==>
        step.now >= last.value + 1000 * q.ackTimeoutMs && step.now >= last.value + 1000 * q.maxTxRateMs)
      && Paced(q, t.tx, if sent then Some(step.now) else last, if step.Check? then step.now else clock)
  {
    hide Inv, AtPoint, PackOk, Consistent, Pack, PackEvents, Encode;
  }

  lemma {:induction false} PacedRun(q: QueueInfo, s: Sys, steps: seq<Step<Cmd>>, last: Option<nat>, clock: nat)
    requires q.ack && SysInv(s) && Clock(steps, clock) && Paced(q, s.tx, last, clock)
    ensures var times := SendTimes(q, s, steps);
      && (last.Some? && times != [] ==>
        times[0] >= last.value + 1000 * q.ackTimeoutMs && times[0] >= last.value + 1000 * q.maxTxRateMs)
      && Spaced(times, 1000 * q.ackTimeoutMs) && Spaced(times, 1000 * q.maxTxRateMs)
    decreases |steps|
  {
    hide SysInv, Next, Paced, Consistent;
    if steps != [] {
      StepKeepsInv(q, s, steps[0]);
      var step, t := steps[0], Next(q, s, steps[0]);
      PacedStep(q, s, step, last, clock);
      var sent := step.Check? && |t.data| > |s.data|;
      PacedRun(q, t, steps[1..], if sent then Some(step.now) else last, if step.Check? then step.now else clock);
    }
  }

  /** In every run of an acknowledged queue whose times do not go back, at least the acknowledgement
      timeout passes between any two transmissions in a row, whether or not the acknowledgement
      arrived in between: packs are sent, one after the other, at most one in each timeout. So does
      the minimum delay. */
  lemma OnePackPerTimeout(q: QueueInfo, steps: seq<Step<Cmd>>)
    requires q.ack && Clock(steps, 0)
    ensures SysInv(INIT)
    ensures var times := SendTimes(q, INIT, steps);
      && Spaced(times, 1000 * q.ackTimeoutMs) && Spaced(times, 1000 * q.maxTxRateMs)
      && (times != [] ==> times[|times| - 1] - times[0] >= (|times| - 1) * (1000 * q.ackTimeoutMs))
  {
    InitOk();
    PacedRun(q, INIT, steps, None, 0);
    var times := SendTimes(q, INIT, steps);
    if times != [] {
      SpacedFew(times, 1000 * q.ackTimeoutMs);
    }
  }
}
