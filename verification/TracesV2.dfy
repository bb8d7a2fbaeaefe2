/** What the application is told about each command, in every run of a queue of version 2,
    acknowledged or not. */
module TracesV2 {
  import opened Bytes
  import opened Commands
  import opened PackV2
  import opened Links
  import opened StopAndWait
  import opened QueueV2
  import opened SystemV2

  /** Where a command is in its life; a finished one has left the queue or was cancelled. */
  datatype Stage = Absent | Queued | Sent | Popped | Dropped

  /** Only notifications of transmissions that leave the command open. */
  ghost predicate AllOpen(t: seq<Event>, ack: bool) {
    && (forall e <- t :: e.status == Packed && !e.done)
    && (!ack ==> t == [])
  }

  ghost predicate EndsWith(t: seq<Event>, ack: bool, status: SendStatus) {
    t != [] && t[|t| - 1].status == status && t[|t| - 1].done && AllOpen(t[..|t| - 1], ack)
  }

  /** What the application has been told of a command. On an acknowledged queue: any number of
      transmissions, then, after at least one, the acknowledgement. On the others: one
      transmission. Or the cancellation, instead of the last of these. */
  ghost predicate TraceOk(t: seq<Event>, ack: bool, stage: Stage) {
    match stage
    case Absent => t == []
    case Queued => AllOpen(t, ack)
    case Sent => AllOpen(t, ack) && t != []
    case Popped => EndsWith(t, ack, if ack then AckReceived else Packed) && (ack ==> |t| > 1)
    case Dropped => EndsWith(t, ack, Canceled)
  }

  function StageOf(q: QueueInfo, s: Sys, id: int): Stage {
    if id < s.popped then Popped
    else if id >= |s.accepted| then Absent
    else if s.stopped then Dropped
    else if q.ack && s.tx.waitingAck && id < s.popped + s.tx.cmdCount then Sent
    else Queued
  }

  ghost predicate LogInv(q: QueueInfo, s: Sys) {
    forall id: nat :: TraceOk(Trace(s.tx.log, id), q.ack, StageOf(q, s, id))
  }

  /** The change that one operation makes to the trace of one command. */
  ghost predicate Advances(ack: bool, from: Stage, to: Stage, e: Option<Event>) {
    match e
    case None => to == from || (from == Sent && to == Queued) || (from == Absent && to == Queued)
    case Some(e) =>
      match e.status
      case Packed =>
        if ack then !e.done && to == Sent && (from == Queued || from == Sent)
        else e.done && to == Popped && from == Queued
      case AckReceived => ack && e.done && to == Popped && from == Sent
      case Canceled => e.done && to == Dropped && (from == Queued || from == Sent)
      case PartiallyPacked => false
      case Timeout => false
  }

  lemma TraceAdvances(t: seq<Event>, ack: bool, from: Stage, to: Stage, e: Option<Event>)
    requires TraceOk(t, ack, from) && Advances(ack, from, to, e)
    ensures TraceOk(t + (if e.Some? then [e.value] else []), ack, to)
  {
    var t' := t + (if e.Some? then [e.value] else []);
    if e.Some? {
      assert t'[..|t'| - 1] == t;
    } else {
      assert t' == t;
    }
  }

  /** If an operation appends events of consecutive commands and every command advances
      accordingly, the invariant of the traces is kept. */
  lemma LogStep(q: QueueInfo, s: Sys, t: Sys, evs: seq<Event>, base: int)
    requires LogInv(q, s) && t.tx.log == s.tx.log + evs && Consecutive(evs, base)
    requires forall id: nat :: Advances(q.ack, StageOf(q, s, id), StageOf(q, t, id),
      if base <= id < base + |evs| then Some(evs[id - base]) else None)
    ensures LogInv(q, t)
  {
    forall id: nat ensures TraceOk(Trace(t.tx.log, id), q.ack, StageOf(q, t, id)) {
      TraceAfter(s.tx.log, evs, base, id);
      var e := if base <= id < base + |evs| then Some(evs[id - base]) else None;
      TraceAdvances(Trace(s.tx.log, id), q.ack, StageOf(q, s, id), StageOf(q, t, id), e);
    }
  }

  lemma SameLog(q: QueueInfo, s: Sys, t: Sys)
    requires LogInv(q, s) && t.tx.log == s.tx.log
    requires forall id: nat :: Advances(q.ack, StageOf(q, s, id), StageOf(q, t, id), None)
    ensures LogInv(q, t)
  {
    assert s.tx.log + [] == s.tx.log;
    LogStep(q, s, t, [], 0);
  }

  lemma StopLog(q: QueueInfo, s: Sys)
    requires QueueInv(q, s) && LogInv(q, s) && Next.requires(q, s, StopQueue)
    ensures LogInv(q, Next(q, s, StopQueue))
  {
    hide LogInv, Consistent, Encode;
    LogStep(q, s, Next(q, s, StopQueue), CancelEvents(s.tx.entries), s.popped);
  }

  lemma AckLog(q: QueueInfo, s: Sys)
    requires q.ack && QueueInv(q, s) && LogInv(q, s) && Next.requires(q, s, AckArrives)
    ensures LogInv(q, Next(q, s, AckArrives))
  {
    hide LogInv, Encode;
    var t := Next(q, s, AckArrives);
    if s.acks != [] && !s.stopped && s.acks[0] != s.tx.lastNum && s.acks[0] == s.tx.num && s.tx.waitingAck
       && s.tx.entries != [] {
      LogStep(q, s, t, AckEvents(s.tx.entries, s.tx.cmdCount, 0), s.popped);
    } else {
      SameLog(q, s, t);
    }
  }

  /** What one look at a queue does to its log and its waiting flag. */
  lemma CheckLogShape(q: QueueInfo, tx: Tx, now: nat, ok: bool)
    requires Consistent(q, tx) && tx.entries != []
    ensures var p, made := CheckOnce(q, tx, now, ok), Made(tx);
      && (p.frame == None || !ok ==> p.tx.log == tx.log && (p.tx.waitingAck ==> tx.waitingAck && p.frame == None))
      && (p.frame.Some? && ok ==>
        && made.cmdCount <= |tx.entries| && p.tx.log == tx.log + PackedEvents(tx.entries, made.cmdCount, !q.ack)
        && (q.ack ==> p.tx.waitingAck))
  {
    hide Encode, Remaining;
    CheckShape(q, tx, now, ok);
  }

  lemma CheckLog(q: QueueInfo, s: Sys, now: nat, ok: bool)
    requires QueueInv(q, s) && LogInv(q, s) && Next.requires(q, s, Check(now, ok))
    ensures LogInv(q, Next(q, s, Check(now, ok)))
  {
    hide LogInv, Encode, CheckOnce, PackCmds;
    var t := Next(q, s, Check(now, ok));
    if s.tx.entries == [] {
      CheckEmpty(q, s.tx, now, ok);
      SameLog(q, s, t);
    } else {
      CheckShape(q, s.tx, now, ok);
      CheckLogShape(q, s.tx, now, ok);
      var p := CheckOnce(q, s.tx, now, ok);
      if p.frame.Some? && ok {
        LogStep(q, s, t, PackedEvents(s.tx.entries, Made(s.tx).cmdCount, !q.ack), s.popped);
      } else {
        SameLog(q, s, t);
      }
    }
  }

  lemma SendLog(q: QueueInfo, s: Sys, cmd: Cmd)
    requires QueueInv(q, s) && LogInv(q, s) && Next.requires(q, s, Send(cmd))
    ensures LogInv(q, Next(q, s, Send(cmd)))
  {
    hide LogInv, Consistent, Encode;
    SameLog(q, s, Next(q, s, Send(cmd)));
  }

  lemma StepKeepsLog(q: QueueInfo, s: Sys, step: Step<Cmd>)
    requires QueueInv(q, s) && LogInv(q, s) && Next.requires(q, s, step)
    requires !q.ack ==> s.acks == []
    ensures LogInv(q, Next(q, s, step))
  {
    hide QueueInv, LogInv, Consistent;
    match step
    case Send(cmd) => SendLog(q, s, cmd);
    case Check(now, ok) => CheckLog(q, s, now, ok);
    case StopQueue => StopLog(q, s);
    case AckArrives => if s.acks != [] { AckLog(q, s); }
    case _ => SameLog(q, s, Next(q, s, step));
  }

  lemma StepKeepsSilence(q: QueueInfo, s: Sys, step: Step<Cmd>)
    requires !q.ack && s.acks == [] && Next.requires(q, s, step)
    ensures Next(q, s, step).acks == []
  {
  }

  lemma {:induction false} RunKeepsLog(q: QueueInfo, s: Sys, steps: seq<Step<Cmd>>)
    requires QueueInv(q, s) && LogInv(q, s) && (!q.ack ==> s.acks == [])
    ensures LogInv(q, RunFrom(q, s, steps))
    decreases |steps|
  {
    hide LogInv, QueueInv, Next;
    if steps != [] {
      StepKeepsQueue(q, s, steps[0]);
      StepKeepsLog(q, s, steps[0]);
      if !q.ack {
        StepKeepsSilence(q, s, steps[0]);
      }
      RunKeepsLog(q, Next(q, s, steps[0]), steps[1..]);
    }
  }

  /** In every run of every queue, only the last call for a command says that it is done, and it
      does so exactly when the command has left the queue or the queue is stopped: each accepted
      command is done once by the end of the stop. A command that was popped was acknowledged
      after a transmission or, without acknowledgements, sent; the others are cancelled. */
  lemma DoneOnce(q: QueueInfo, steps: seq<Step<Cmd>>, id: nat)
    ensures var s := Run(q, steps);
      var t := Trace(s.tx.log, id);
      && (forall i :: 0 <= i < |t| - 1 ==> !t[i].done)
      && (t != [] && t[|t| - 1].done <==> id < |s.accepted| && (s.stopped || id < s.popped))
      && (id < s.popped ==> t[|t| - 1].status == (if q.ack then AckReceived else Packed))
      && (id < s.popped && q.ack ==> |t| > 1)
      && (s.popped <= id < |s.accepted| && s.stopped ==> t[|t| - 1].status == Canceled)
      && (id >= |s.accepted| ==> t == [])
  {
    InitOk(q);
    assert LogInv(q, INIT);
    RunKeepsLog(q, INIT, steps);
    var s := Run(q, steps);
    var t := Trace(s.tx.log, id);
    assert TraceOk(t, q.ack, StageOf(q, s, id));
    assert s.popped <= |s.accepted|;
    if t != [] {
      assert t == t[..|t| - 1] + [t[|t| - 1]];
    }
  }

  // ----- How often packs are sent -----

  /** The times of the looks that put a frame on the link. */
  function SendTimes(q: QueueInfo, s: Sys, steps: seq<Step<Cmd>>): seq<nat>
    requires q.ack && QueueInv(q, s)
    decreases |steps|
  {
    if steps == [] then []
    else
      StepKeepsQueue(q, s, steps[0]);
      var t := Next(q, s, steps[0]);
      (if steps[0].Check? && |t.data| > |s.data| then [steps[0].now] else []) + SendTimes(q, t, steps[1..])
  }

  /** Since the last transmission the queue is waiting, or its timeout was over by the time `clock`. */
  ghost predicate Paced(q: QueueInfo, tx: Tx, last: Option<nat>, clock: nat) {
    last.Some? ==>
      && last.value <= clock
      && ((tx.waitingAck && tx.sentTs == last.value) || clock >= last.value + 1000 * q.ackTimeoutMs)
  }

  lemma PacedStep(q: QueueInfo, s: Sys, step: Step<Cmd>, last: Option<nat>, clock: nat)
    requires q.ack && QueueInv(q, s) && Next.requires(q, s, step) && Paced(q, s.tx, last, clock)
    requires step.Check? ==> clock <= step.now
    ensures var t := Next(q, s, step);
      var sent := step.Check? && |t.data| > |s.data|;
      && (sent && last.Some? ==> step.now >= last.value + 1000 * q.ackTimeoutMs)
      && Paced(q, t.tx, if sent then Some(step.now) else last, if step.Check? then step.now else clock)
  {
    hide QueueInv, Consistent, PackCmds, Encode;
  }

  lemma {:induction false} PacedRun(q: QueueInfo, s: Sys, steps: seq<Step<Cmd>>, last: Option<nat>, clock: nat)
    requires q.ack && QueueInv(q, s) && Clock(steps, clock) && Paced(q, s.tx, last, clock)
    ensures var times := SendTimes(q, s, steps);
      && (last.Some? && times != [] ==> times[0] >= last.value + 1000 * q.ackTimeoutMs)
      && Spaced(times, 1000 * q.ackTimeoutMs)
    decreases |steps|
  {
    hide QueueInv, Next, Paced;
    if steps != [] {
      StepKeepsQueue(q, s, steps[0]);
      var step, t := steps[0], Next(q, s, steps[0]);
      PacedStep(q, s, step, last, clock);
      var sent := step.Check? && |t.data| > |s.data|;
      PacedRun(q, t, steps[1..], if sent then Some(step.now) else last, if step.Check? then step.now else clock);
    }
  }

  /** In every run of an acknowledged queue whose times do not go back, at least the acknowledgement
      timeout passes between any two transmissions in a row, whether or not the acknowledgement
      arrived in between: packs are sent, one after the other, at most one in each timeout. */
  lemma OnePackPerTimeout(q: QueueInfo, steps: seq<Step<Cmd>>)
    requires q.ack && Clock(steps, 0)
    ensures QueueInv(q, INIT)
    ensures var times := SendTimes(q, INIT, steps);
      && Spaced(times, 1000 * q.ackTimeoutMs)
      && (times != [] ==> times[|times| - 1] - times[0] >= (|times| - 1) * (1000 * q.ackTimeoutMs))
  {
    InitOk(q);
    PacedRun(q, INIT, steps, None, 0);
    var times := SendTimes(q, INIT, steps);
    if times != [] {
      SpacedFew(times, 1000 * q.ackTimeoutMs);
    }
  }
}
