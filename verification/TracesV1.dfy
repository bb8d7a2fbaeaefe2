/** What the application is told about each command, in every run of a queue of version 1, and how
    often a command is transmitted. */
module TracesV1 {
  import opened Bytes
  import opened Commands
  import opened Links
  import opened QueueV1
  import opened SystemV1

  ghost predicate Has(items: seq<Item>, id: int) {
    exists i :: 0 <= i < |items| && items[i].userdata == id
  }

  /** Only notifications of transmissions that leave the command open. */
  ghost predicate AllOpen(t: seq<Event>) {
    forall e <- t :: e.status == Packed && !e.done
  }

  /** How often an entry was transmitted. */
  function Transmissions(e: Item): nat {
    e.retryCount + if e.waitingAck then 1 else 0
  }

  /** What was told of a command that left the queue, after `n` calls that left it open. `max` is the
      limit of its retries, if it is positive. */
  ghost predicate IsLast(e: Event, n: nat, ack: bool, max: int) {
    && e.done && (ack && max > 0 ==> n <= max + 1)
    && match e.status
       case AckReceived => ack && n > 0
       case Timeout => ack && max > 0 && n == max + 1
       case Packed => !ack && n == 0
       case Canceled => ack || n == 0
       case PartiallyPacked => false
  }

  ghost predicate DoneTrace(t: seq<Event>, ack: bool, max: int) {
    t != [] && AllOpen(t[..|t| - 1]) && IsLast(t[|t| - 1], |t| - 1, ack, max)
  }

  /** What was told of one command: if it is in the queue, one call for each transmission, none of
      which said that it is done; if it left the queue, the last call, and only that one, said so. */
  ghost predicate IdOk(q: QueueInfo, items: seq<Item>, accepted: seq<Request>, id: nat, t: seq<Event>) {
    && (forall i :: 0 <= i < |items| && items[i].userdata == id ==> AllOpen(t) && |t| == Transmissions(items[i]))
    && (!Has(items, id) ==> if id < |accepted| then DoneTrace(t, q.ack, MaxRetry(q, accepted[id])) else t == [])
  }

  ghost predicate LogInv(q: QueueInfo, s: Sys) {
    forall id: nat :: IdOk(q, s.tx.items, s.accepted, id, Trace(s.tx.log, id))
  }

  lemma OneMore(log: seq<Event>, e: Event, id: int)
    ensures Trace(log + [e], id) == Trace(log, id) + if e.userdata == id then [e] else []
  {
    TraceAfter(log, [e], e.userdata, id);
  }

  /** The bound on the transmissions of an entry that leaves the queue. */
  lemma DoneAfter(t: seq<Event>, e: Event, ack: bool, max: int)
    requires AllOpen(t) && IsLast(e, |t|, ack, max)
    ensures DoneTrace(t + [e], ack, max)
  {
    assert (t + [e])[..|t + [e]| - 1] == t;
  }

  lemma HasAt(items: seq<Item>, i: nat)
    requires i < |items|
    ensures Has(items, items[i].userdata)
  {
  }

  /** The oldest entry leaves the queue with a last call. */
  lemma PopLog(q: QueueInfo, s: Sys, t: Sys, last: Event)
    requires ItemsInv(q, s) && LogInv(q, s) && s.tx.items != []
    requires last.userdata == s.tx.items[0].userdata
    requires IsLast(last, Transmissions(s.tx.items[0]), q.ack, s.tx.items[0].maxRetry)
    requires t.tx.log == s.tx.log + [last] && t.tx.items == s.tx.items[1..] && t.accepted == s.accepted
    ensures LogInv(q, t)
  {
    hide ItemsInv, IsLast, IdOk, DoneTrace, Transmissions;
    forall id: nat ensures IdOk(q, t.tx.items, t.accepted, id, Trace(t.tx.log, id)) {
      OneMore(s.tx.log, last, id);
      PopId(q, s, last, id, Trace(s.tx.log, id));
    }
  }

  lemma PopId(q: QueueInfo, s: Sys, last: Event, id: nat, t: seq<Event>)
    requires ItemsInv(q, s) && s.tx.items != [] && IdOk(q, s.tx.items, s.accepted, id, t)
    requires last.userdata == s.tx.items[0].userdata
    requires IsLast(last, Transmissions(s.tx.items[0]), q.ack, s.tx.items[0].maxRetry)
    ensures IdOk(q, s.tx.items[1..], s.accepted, id, t + if last.userdata == id then [last] else [])
  {
    hide IsLast, AllOpen, MaxRetry, Consistent, DoneTrace, Transmissions;
    var items, rest := s.tx.items, s.tx.items[1..];
    if id == items[0].userdata {
      assert ItemOf(q, items[0], s.accepted);
      DoneAfter(t, last, q.ack, items[0].maxRetry);
    } else {
      assert t + [] == t;
      if Has(items, id) {
        var k :| 0 <= k < |items| && items[k].userdata == id;
        assert rest[k - 1] == items[k];
        HasAt(rest, k - 1);
      }
    }
  }

  /** A new command takes the place of an entry, which leaves the queue with a last call. */
  lemma ReplaceLog(q: QueueInfo, s: Sys, t: Sys, i: nat, last: Event, e: Item)
    requires ItemsInv(q, s) && LogInv(q, s) && i < |s.tx.items|
    requires last.userdata == s.tx.items[i].userdata
    requires IsLast(last, Transmissions(s.tx.items[i]), q.ack, s.tx.items[i].maxRetry)
    requires t.tx.log == s.tx.log + [last] && t.tx.items == s.tx.items[i := e]
    requires |t.accepted| == |s.accepted| + 1 && s.accepted <= t.accepted
    requires e.userdata == |s.accepted| && Transmissions(e) == 0
    ensures LogInv(q, t)
  {
    hide ItemsInv, IsLast, IdOk, DoneTrace, Transmissions;
    forall id: nat ensures IdOk(q, t.tx.items, t.accepted, id, Trace(t.tx.log, id)) {
      OneMore(s.tx.log, last, id);
      ReplaceId(q, s, t.accepted, i, last, e, id, Trace(s.tx.log, id));
    }
  }

  lemma ReplaceId(q: QueueInfo, s: Sys, accepted: seq<Request>, i: nat, last: Event, e: Item, id: nat, t: seq<Event>)
    requires ItemsInv(q, s) && i < |s.tx.items| && IdOk(q, s.tx.items, s.accepted, id, t)
    requires last.userdata == s.tx.items[i].userdata
    requires IsLast(last, Transmissions(s.tx.items[i]), q.ack, s.tx.items[i].maxRetry)
    requires |accepted| == |s.accepted| + 1 && s.accepted <= accepted
    requires e.userdata == |s.accepted| && Transmissions(e) == 0
    ensures IdOk(q, s.tx.items[i := e], accepted, id, t + if last.userdata == id then [last] else [])
  {
    hide IsLast, MaxRetry, Consistent, DoneTrace, Transmissions;
    var items, items' := s.tx.items, s.tx.items[i := e];
    assert ItemOf(q, items[i], s.accepted);
    if id == items[i].userdata {
      DoneAfter(t, last, q.ack, items[i].maxRetry);
    } else {
      assert t + [] == t;
      HasAt(items', i);
      if Has(items, id) {
        var k :| 0 <= k < |items| && items[k].userdata == id;
        assert items'[k] == items[k];
        HasAt(items', k);
      }
      FreshUser(q, s, |s.accepted|);
    }
  }

  lemma FreshUser(q: QueueInfo, s: Sys, id: nat)
    requires ItemsInv(q, s) && id >= |s.accepted|
    ensures !Has(s.tx.items, id)
  {
  }

  /** A new command is appended. */
  lemma AppendLog(q: QueueInfo, s: Sys, t: Sys, e: Item)
    requires ItemsInv(q, s) && LogInv(q, s) && t.tx.log == s.tx.log && t.tx.items == s.tx.items + [e]
    requires |t.accepted| == |s.accepted| + 1 && s.accepted <= t.accepted
    requires e.userdata == |s.accepted| && Transmissions(e) == 0
    ensures LogInv(q, t)
  {
    hide MaxRetry, DoneTrace, Transmissions, ItemsInv;
    var items, items' := s.tx.items, t.tx.items;
    HasAt(items', |items|);
    FreshUser(q, s, |s.accepted|);
    forall id: nat ensures IdOk(q, items', t.accepted, id, Trace(t.tx.log, id)) {
      assert IdOk(q, items, s.accepted, id, Trace(s.tx.log, id));
      if Has(items, id) {
        var k :| 0 <= k < |items| && items[k].userdata == id;
        assert items'[k] == items[k];
        HasAt(items', k);
      }
    }
  }

  /** The oldest entry stays, after a call if it was transmitted. */
  lemma StayLog(q: QueueInfo, s: Sys, t: Sys, sent: bool)
    requires ItemsInv(q, s) && LogInv(q, s) && s.tx.items != [] && |t.tx.items| == |s.tx.items|
    requires t.tx.items == s.tx.items[0 := t.tx.items[0]] && SameCommand(s.tx.items[0], t.tx.items[0])
    requires t.accepted == s.accepted
    requires t.tx.log == s.tx.log + if sent then [Event(s.tx.items[0].userdata, Packed, 0, false)] else []
    requires Transmissions(t.tx.items[0]) == Transmissions(s.tx.items[0]) + if sent then 1 else 0
    ensures LogInv(q, t)
  {
    hide ItemsInv, IdOk, DoneTrace, Transmissions, SameCommand;
    var e := Event(s.tx.items[0].userdata, Packed, 0, false);
    assert s.tx.log + [] == s.tx.log;
    forall id: nat ensures IdOk(q, t.tx.items, t.accepted, id, Trace(t.tx.log, id)) {
      OneMore(s.tx.log, e, id);
      assert Trace(s.tx.log, id) + [] == Trace(s.tx.log, id);
      StayId(q, s, t.tx.items, sent, id, Trace(s.tx.log, id));
    }
  }

  lemma StayId(q: QueueInfo, s: Sys, items': seq<Item>, sent: bool, id: nat, t: seq<Event>)
    requires ItemsInv(q, s) && s.tx.items != [] && |items'| == |s.tx.items| && IdOk(q, s.tx.items, s.accepted, id, t)
    requires items' == s.tx.items[0 := items'[0]] && SameCommand(s.tx.items[0], items'[0])
    requires Transmissions(items'[0]) == Transmissions(s.tx.items[0]) + if sent then 1 else 0
    ensures IdOk(q, items', s.accepted, id,
      t + if sent && s.tx.items[0].userdata == id then [Event(id, Packed, 0, false)] else [])
  {
    hide MaxRetry, Consistent, DoneTrace, Transmissions;
    var items := s.tx.items;
    assert t + [] == t;
    if Has(items, id) {
      var k :| 0 <= k < |items| && items[k].userdata == id;
      HasAt(items', k);
    }
  }

  lemma SendLog(q: QueueInfo, s: Sys, request: Request)
    requires ItemsInv(q, s) && LogInv(q, s)
    ensures LogInv(q, Next(q, s, Send(request)))
  {
    hide LogInv, MaxRetry;
    var t := Next(q, s, Send(request));
    if !s.stopped {
      NewItemIs(q, request, |s.accepted|);
      match (if q.overwrite then Replaceable(s.tx.items, request.id) else None) {
        case Some(i) =>
          ReplaceLog(q, s, t, i, Event(s.tx.items[i].userdata, Canceled, 0, true), NewItem(q, request, |s.accepted|));
        case None =>
          AppendLog(q, s, t, NewItem(q, request, |s.accepted|));
      }
    }
  }

  /** What one look at a queue does to its log, to its oldest entry and to how often that one was
      transmitted. */
  lemma CheckCalls(q: QueueInfo, tx: Tx, now: nat, ok: bool)
    requires Consistent(q, tx) && tx.items != []
    ensures var p, e := CheckOnce(q, tx, now, ok), tx.items[0];
      if p.again then
        && p.tx.log != [] && p.tx.log == tx.log + [p.tx.log[|p.tx.log| - 1]]
        && var last := p.tx.log[|p.tx.log| - 1];
        last.userdata == e.userdata && IsLast(last, Transmissions(e), q.ack, e.maxRetry)
      else
        && p.tx.items != []
        && var sent := p.frame.Some? && ok;
        && p.tx.log == tx.log + (if sent then [Event(e.userdata, Packed, 0, false)] else [])
        && Transmissions(p.tx.items[0]) == Transmissions(e) + if sent then 1 else 0
  {
    hide Remaining;
  }

  lemma CheckLog(q: QueueInfo, s: Sys, now: nat, ok: bool)
    requires ItemsInv(q, s) && LogInv(q, s)
    ensures LogInv(q, Next(q, s, Check(now, ok)))
  {
    hide LogInv, CheckOnce, Consistent, IsLast, Transmissions, SameCommand, ItemOf;
    var t := Next(q, s, Check(now, ok));
    if s.tx.items == [] {
      CheckNothing(q, s.tx, now, ok);
      assert t == s;
    } else {
      CheckEntries(q, s.tx, now, ok);
      CheckCalls(q, s.tx, now, ok);
      var p := CheckOnce(q, s.tx, now, ok);
      if p.again {
        PopLog(q, s, t, p.tx.log[|p.tx.log| - 1]);
      } else {
        StayLog(q, s, t, p.frame.Some? && ok);
      }
    }
  }

  lemma AckLog(q: QueueInfo, s: Sys)
    requires ItemsInv(q, s) && LogInv(q, s)
    ensures LogInv(q, Next(q, s, AckArrives))
  {
    hide LogInv;
    var t := Next(q, s, AckArrives);
    if s.acks != [] && !s.stopped && RecvAck(s.tx, s.acks[0]) != s.tx {
      PopLog(q, s, t, Event(s.tx.items[0].userdata, AckReceived, 0, true));
    } else {
      SameLog(q, s, t);
    }
  }

  lemma SameLog(q: QueueInfo, s: Sys, t: Sys)
    requires LogInv(q, s) && t.tx == s.tx && t.accepted == s.accepted
    ensures LogInv(q, t)
  {
  }

  /** The calls for the cancelled entries, of which each has its own user data. */
  lemma {:induction false} TraceOfItems(items: seq<Item>, id: int)
    requires DistinctUsers(items)
    ensures !Has(items, id) ==> Trace(CancelItems(items), id) == []
    ensures forall i :: 0 <= i < |items| && items[i].userdata == id ==>
      Trace(CancelItems(items), id) == [Event(id, Canceled, 0, true)]
  {
    if items != [] {
      var n := |items| - 1;
      var init := items[..n];
      TraceOfItems(init, id);
      assert CancelItems(items)[..n] == CancelItems(init);
      assert CancelItems(items)[n] == Event(items[n].userdata, Canceled, 0, true);
      forall i | 0 <= i < n ensures init[i] == items[i] {
      }
      if Has(init, id) {
        var i :| 0 <= i < n && init[i].userdata == id;
        HasAt(items, i);
      }
      if items[n].userdata == id {
        HasAt(items, n);
      }
    }
  }

  lemma StopLog(q: QueueInfo, s: Sys)
    requires ItemsInv(q, s) && LogInv(q, s)
    ensures LogInv(q, Next(q, s, StopQueue))
  {
    hide ItemsInv, IdOk;
    var t := Next(q, s, StopQueue);
    forall id: nat ensures IdOk(q, [], s.accepted, id, Trace(t.tx.log, id)) {
      TraceAppend(s.tx.log, CancelItems(s.tx.items), id);
      StopId(q, s, id, Trace(s.tx.log, id));
    }
  }

  lemma StopId(q: QueueInfo, s: Sys, id: nat, t: seq<Event>)
    requires ItemsInv(q, s) && IdOk(q, s.tx.items, s.accepted, id, t)
    ensures IdOk(q, [], s.accepted, id, t + Trace(CancelItems(s.tx.items), id))
  {
    hide MaxRetry, DoneTrace;
    var items := s.tx.items;
    TraceOfItems(items, id);
    if Has(items, id) {
      var i :| 0 <= i < |items| && items[i].userdata == id;
      assert ItemOf(q, items[i], s.accepted) && Consistent(q, s.tx);
      DoneAfter(t, Event(id, Canceled, 0, true), q.ack, items[i].maxRetry);
    } else {
      assert t + [] == t;
    }
  }

  lemma StepKeepsLog(q: QueueInfo, s: Sys, step: Step<Request>)
    requires ItemsInv(q, s) && LogInv(q, s)
    ensures LogInv(q, Next(q, s, step))
  {
    hide ItemsInv, LogInv;
    match step
    case Send(request) => SendLog(q, s, request);
    case Check(now, ok) => CheckLog(q, s, now, ok);
    case StopQueue => StopLog(q, s);
    case AckArrives => AckLog(q, s);
    case _ => SameLog(q, s, Next(q, s, step));
  }

  lemma {:induction false} RunKeepsLog(q: QueueInfo, s: Sys, steps: seq<Step<Request>>)
    requires ItemsInv(q, s) && LogInv(q, s)
    ensures ItemsInv(q, RunFrom(q, s, steps)) && LogInv(q, RunFrom(q, s, steps))
    decreases |steps|
  {
    hide LogInv, ItemsInv, Next;
    if steps != [] {
      StepKeepsItems(q, s, steps[0]);
      StepKeepsLog(q, s, steps[0]);
      RunKeepsLog(q, Next(q, s, steps[0]), steps[1..]);
    }
  }

  lemma RunLog(q: QueueInfo, steps: seq<Step<Request>>)
    ensures ItemsInv(q, Run(q, steps)) && LogInv(q, Run(q, steps))
  {
    InitOk(q);
    RunKeepsLog(q, INIT, steps);
  }

  lemma LogAt(q: QueueInfo, s: Sys, id: nat)
    requires LogInv(q, s)
    ensures IdOk(q, s.tx.items, s.accepted, id, Trace(s.tx.log, id))
  {
  }

  /** How many calls of a trace report a transmission. */
  function CountPacked(t: seq<Event>): nat {
    if t == [] then 0 else CountPacked(t[..|t| - 1]) + if t[|t| - 1].status == Packed then 1 else 0
  }

  lemma {:induction false} CountOpen(t: seq<Event>)
    requires AllOpen(t)
    ensures CountPacked(t) == |t|
  {
    if t != [] {
      CountOpen(t[..|t| - 1]);
    }
  }

  /** In every run of every queue, only the last call for a command says that it is done, and by the
      end of the stop each accepted command got exactly one such call. */
  lemma DoneOnce(q: QueueInfo, steps: seq<Step<Request>>, id: nat)
    ensures var s := Run(q, steps);
      var t := Trace(s.tx.log, id);
      && (forall i :: 0 <= i < |t| - 1 ==> !t[i].done)
      && (t != [] && t[|t| - 1].done <==> id < |s.accepted| && !Has(s.tx.items, id))
      && (id < |s.accepted| && s.stopped ==> t != [] && t[|t| - 1].done)
  {
    hide ItemsInv, LogInv, MaxRetry, Run;
    RunLog(q, steps);
    var s := Run(q, steps);
    var t := Trace(s.tx.log, id);
    LogAt(q, s, id);
    if s.stopped {
      StoppedNothing(q, s);
    }
    if id >= |s.accepted| {
      FreshUser(q, s, id);
    } else if !Has(s.tx.items, id) {
      assert DoneTrace(t, q.ack, MaxRetry(q, s.accepted[id]));
      assert t == t[..|t| - 1] + [t[|t| - 1]];
    } else {
      var i :| 0 <= i < |s.tx.items| && s.tx.items[i].userdata == id;
      assert AllOpen(t);
    }
  }

  /** In every run, a command with a positive limit of retries is transmitted at most once more than
      that, and it is given up only after exactly so many transmissions. Without acknowledgements
      each command is transmitted at most once. */
  lemma TransmissionBound(q: QueueInfo, steps: seq<Step<Request>>, id: nat)
    requires id < |Run(q, steps).accepted|
    ensures var s := Run(q, steps);
      var t, max := Trace(s.tx.log, id), MaxRetry(q, s.accepted[id]);
      && (max > 0 ==> CountPacked(t) <= max + 1)
      && (!q.ack ==> CountPacked(t) <= 1)
      && (t != [] && t[|t| - 1].status == Timeout ==> max > 0 && CountPacked(t) == max + 1)
      && (t != [] && t[|t| - 1].status == AckReceived ==> CountPacked(t) > 0)
  {
    hide ItemsInv, LogInv, IdOk, MaxRetry;
    RunLog(q, steps);
    assert IdOk(q, Run(q, steps).tx.items, Run(q, steps).accepted, id, Trace(Run(q, steps).tx.log, id)) by {
      LogAt(q, Run(q, steps), id);
    }
    BoundOf(q, Run(q, steps), id, Trace(Run(q, steps).tx.log, id));
  }

  /** The same in numbers. A command whose description asks to retry is given up only after 0x80000000
      transmissions. Any other is transmitted at most once more than the limit of its queue says if that
      is positive, and given up then; otherwise it is never given up. */
  lemma RetriesInNumbers(q: QueueInfo, steps: seq<Step<Request>>, id: nat)
    requires id < |Run(q, steps).accepted|
    ensures var s := Run(q, steps);
      var t, retry := Trace(s.tx.log, id), s.accepted[id].retry;
      var timeout := t != [] && t[|t| - 1].status == Timeout;
      && (retry ==> CountPacked(t) <= 0x8000_0000 && (timeout ==> CountPacked(t) == 0x8000_0000))
      && (!retry && q.defaultMaxRetry > 0 ==>
        CountPacked(t) <= q.defaultMaxRetry + 1 && (timeout ==> CountPacked(t) == q.defaultMaxRetry + 1))
      && (!retry && q.defaultMaxRetry <= 0 ==> !timeout)
  {
    hide CountPacked;
    TransmissionBound(q, steps, id);
  }

  lemma BoundOf(q: QueueInfo, s: Sys, id: nat, t: seq<Event>)
    requires ItemsInv(q, s) && IdOk(q, s.tx.items, s.accepted, id, t) && id < |s.accepted|
    ensures var max := MaxRetry(q, s.accepted[id]);
      && (max > 0 ==> CountPacked(t) <= max + 1)
      && (!q.ack ==> CountPacked(t) <= 1)
      && (t != [] && t[|t| - 1].status == Timeout ==> max > 0 && CountPacked(t) == max + 1)
      && (t != [] && t[|t| - 1].status == AckReceived ==> CountPacked(t) > 0)
  {
    hide MaxRetry, Distinct, DistinctIds, DistinctUsers;
    if Has(s.tx.items, id) {
      var i :| 0 <= i < |s.tx.items| && s.tx.items[i].userdata == id;
      assert ItemOf(q, s.tx.items[i], s.accepted);
      CountOpen(t);
      TransmissionsBound(q, s.tx, i);
    } else {
      CountOpen(t[..|t| - 1]);
    }
  }

  lemma TransmissionsBound(q: QueueInfo, tx: Tx, i: nat)
    requires Consistent(q, tx) && i < |tx.items|
    ensures var e := tx.items[i];
      (e.maxRetry > 0 ==> Transmissions(e) <= e.maxRetry + 1) && (!q.ack ==> Transmissions(e) == 0)
  {
  }

  // ----- How often frames are sent -----

  /** The times of the looks that put a frame on the link. */
  function SendTimes(q: QueueInfo, s: Sys, steps: seq<Step<Request>>): seq<nat>
    decreases |steps|
  {
    if steps == [] then []
    else
      var t := Next(q, s, steps[0]);
      (if steps[0].Check? && |t.data| > |s.data| then [steps[0].now] else []) + SendTimes(q, t, steps[1..])
  }

  /** The minimum delay is counted from the last transmission. */
  ghost predicate Paced(tx: Tx, last: Option<nat>, clock: nat) {
    last.Some? ==> last.value <= clock && tx.lastSentTs == last.value
  }

  lemma PacedStep(q: QueueInfo, s: Sys, step: Step<Request>, last: Option<nat>, clock: nat)
    requires q.maxTxRateMs > 0 && Paced(s.tx, last, clock) && (step.Check? ==> clock <= step.now)
    ensures var t := Next(q, s, step);
      var sent := step.Check? && |t.data| > |s.data|;
      && (sent && last.Some? ==> step.now > last.value + 1000 * q.maxTxRateMs)
      && Paced(t.tx, if sent then Some(step.now) else last, if step.Check? then step.now else clock)
  {
  }

  lemma {:induction false} PacedRun(q: QueueInfo, s: Sys, steps: seq<Step<Request>>, last: Option<nat>, clock: nat)
    requires q.maxTxRateMs > 0 && Clock(steps, clock) && Paced(s.tx, last, clock)
    ensures var times := SendTimes(q, s, steps);
      && (last.Some? && times != [] ==> times[0] > last.value + 1000 * q.maxTxRateMs)
      && Spaced(times, 1000 * q.maxTxRateMs + 1)
    decreases |steps|
  {
    hide Next, Paced;
    if steps != [] {
      var step, t := steps[0], Next(q, s, steps[0]);
      PacedStep(q, s, step, last, clock);
      var sent := step.Check? && |t.data| > |s.data|;
      PacedRun(q, t, steps[1..], if sent then Some(step.now) else last, if step.Check? then step.now else clock);
    }
  }

  /** In every run of a queue with a minimum delay whose times do not go back, more than this delay passes
      between any two frames in a row, retries or not. */
  lemma OneFramePerDelay(q: QueueInfo, steps: seq<Step<Request>>)
    requires q.maxTxRateMs > 0 && Clock(steps, 0)
    ensures var times := SendTimes(q, INIT, steps);
      && Spaced(times, 1000 * q.maxTxRateMs + 1)
      && (times != [] ==> times[|times| - 1] - times[0] >= (|times| - 1) * (1000 * q.maxTxRateMs + 1))
  {
    PacedRun(q, INIT, steps, None, 0);
    var times := SendTimes(q, INIT, steps);
    if times != [] {
      SpacedFew(times, 1000 * q.maxTxRateMs + 1);
    }
  }
}
