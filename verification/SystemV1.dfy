/** Runs of one queue of version 1: a sender, a receiver, and two links that may lose and
    duplicate frames but keep their order. */
module SystemV1 {
  import opened Bytes
  import opened Commands
  import opened QueueV1
  import opened Links

  /** A frame on its way. The receiver sees the frame only; `place` says which of the commands
      transmitted it carries. */
  datatype Flight = Flight(frame: Frame, place: nat)

  /** The state of the receiver for the queue, and the commands given to the application so far. */
  datatype Rx = Rx(recvSeq: byte, delivered: seq<seq<byte>>)

  /** `accepted` holds all the commands ever accepted from the application, oldest first; `order` is
      the history of the commands transmitted, each at its first transmission, and `got` that of
      the frames processed by the receiver, by their places in `order`. */
  datatype Sys = Sys(tx: Tx, stopped: bool, rx: Rx, data: seq<Flight>, acks: seq<byte>,
                     accepted: seq<Request>, order: seq<int>, got: seq<nat>)

  const INIT := Sys(NEW_TX, false, Rx(0xFF, []), [], [], [], [], [])

  /** A data frame reaches the receiver, which processes it if its number is to be processed. */
  function Receive(rx: Rx, f: Frame): Rx {
    if !ShouldProcess(rx.recvSeq, f.num) then rx
    else Rx(f.num, rx.delivered + if HeaderOk(f.payload) then [f.payload] else [])
  }

  /** The commands transmitted, after the oldest entry of the queue was transmitted. */
  function OrderAfter(s: Sys): seq<int>
    requires s.tx.items != []
  {
    if Untouched(s.tx.items[0]) then s.order + [s.tx.items[0].userdata] else s.order
  }

  /** One step of the system. The k-th accepted command gets k as its user data, which the queue
      only hands back. After the stop nothing is accepted and acknowledgements are refused. */
  function Next(q: QueueInfo, s: Sys, step: Step<Request>): Sys {
    match step
    case Send(request) =>
      if s.stopped then s
      else s.(tx := Add(q, s.tx, request, |s.accepted|), accepted := s.accepted + [request])
    case Check(now, ok) =>
      var p := CheckOnce(q, s.tx, now, ok);
      if p.frame == None || !ok || s.tx.items == [] then s.(tx := p.tx)
      else
        var order := OrderAfter(s);
        s.(tx := p.tx, order := order,
           data := s.data + [Flight(p.frame.value, if order == [] then 0 else |order| - 1)])
    case StopQueue =>
      s.(tx := Stop(s.tx), stopped := true)
    case DataArrives =>
      if s.data == [] then s
      else
        var f := s.data[0];
        s.(rx := Receive(s.rx, f.frame), data := s.data[1..],
           acks := if q.ack then s.acks + [f.frame.num] else s.acks,
           got := if ShouldProcess(s.rx.recvSeq, f.frame.num) then s.got + [f.place] else s.got)
    case AckArrives =>
      if s.acks == [] then s
      else s.(acks := s.acks[1..], tx := if s.stopped then s.tx else RecvAck(s.tx, s.acks[0]))
    case LoseData(i) => if i < |s.data| then s.(data := Lose(s.data, i)) else s
    case LoseAck(i) => if i < |s.acks| then s.(acks := Lose(s.acks, i)) else s
    case DuplicateData(i) => if i < |s.data| then s.(data := Duplicate(s.data, i)) else s
    case DuplicateAck(i) => if i < |s.acks| then s.(acks := Duplicate(s.acks, i)) else s
  }

  // ----- What the queue keeps -----

  ghost predicate Distinct(order: seq<int>) {
    forall i, j :: 0 <= i < j < |order| ==> order[i] != order[j]
  }

  ghost predicate DistinctUsers(items: seq<Item>) {
    forall i, j :: 0 <= i < j < |items| ==> items[i].userdata != items[j].userdata
  }

  /** An entry is what became of the accepted command that its user data names. */
  ghost predicate ItemOf(q: QueueInfo, e: Item, accepted: seq<Request>) {
    && 0 <= e.userdata < |accepted|
    && var request := accepted[e.userdata];
    e.cmd == request.cmd && e.id == request.id && e.maxRetry == MaxRetry(q, request)
  }

  /** The entries and the commands transmitted: the oldest entry, and only that one, may have been
      transmitted, and then it was so last; the others are not among the commands transmitted. */
  ghost predicate ItemsInv(q: QueueInfo, s: Sys) {
    && Consistent(q, s.tx)
    && (s.stopped ==> s.tx.items == [])
    && (forall i :: 0 <= i < |s.tx.items| ==> ItemOf(q, s.tx.items[i], s.accepted))
    && DistinctUsers(s.tx.items)
    && (!q.ack && q.overwrite ==> DistinctIds(s.tx.items))
    && (forall k :: 0 <= k < |s.order| ==> 0 <= s.order[k] < |s.accepted|)
    && Distinct(s.order)
    && (forall i :: 0 <= i < |s.tx.items| && Untouched(s.tx.items[i]) ==> s.tx.items[i].userdata !in s.order)
    && (s.tx.items != [] && !Untouched(s.tx.items[0]) ==>
      s.order != [] && s.order[|s.order| - 1] == s.tx.items[0].userdata)
  }

  lemma SendItems(q: QueueInfo, s: Sys, request: Request)
    requires ItemsInv(q, s)
    ensures ItemsInv(q, Next(q, s, Send(request)))
  {
    hide MaxRetry, Pending, Put;
    if !s.stopped {
      AddKeeps(q, s.tx, request, |s.accepted|);
      if !q.ack && q.overwrite {
        OverwriteRefinesMap(q, s.tx, request, |s.accepted|);
      }
    }
  }

  /** An entry whose flags, counters and times may have changed. */
  predicate SameCommand(e: Item, e': Item) {
    e'.userdata == e.userdata && e'.cmd == e.cmd && e'.id == e.id && e'.maxRetry == e.maxRetry
  }

  /** What one look at a queue does to its entries: it pops the oldest one, after sending it on a
      queue that is not acknowledged or after its last retry, or changes only that one. */
  lemma CheckEntries(q: QueueInfo, tx: Tx, now: nat, ok: bool)
    requires Consistent(q, tx) && tx.items != []
    ensures var p, e := CheckOnce(q, tx, now, ok), tx.items[0];
      if p.again then p.tx.items == tx.items[1..] && ((p.frame.Some? && ok) || (p.frame == None && !Untouched(e)))
      else p.tx.items != [] && p.tx.items == tx.items[0 := p.tx.items[0]] && SameCommand(e, p.tx.items[0])
    ensures var p, e := CheckOnce(q, tx, now, ok), tx.items[0];
      !p.again ==> if p.frame.Some? && ok then !Untouched(p.tx.items[0]) else Untouched(e) == Untouched(p.tx.items[0])
  {
    hide Remaining;
    assert tx.items[0 := tx.items[0]] == tx.items;
  }

  lemma CheckItems(q: QueueInfo, s: Sys, now: nat, ok: bool)
    requires ItemsInv(q, s)
    ensures ItemsInv(q, Next(q, s, Check(now, ok)))
  {
    hide CheckOnce, Consistent, MaxRetry, Untouched;
    CheckOnceKeeps(q, s.tx, now, ok);
    if s.tx.items == [] {
      CheckNothing(q, s.tx, now, ok);
    } else {
      CheckEntries(q, s.tx, now, ok);
      if CheckOnce(q, s.tx, now, ok).again {
        OthersUntouched(q, s.tx);
      }
    }
  }

  lemma OthersUntouched(q: QueueInfo, tx: Tx)
    requires Consistent(q, tx)
    ensures forall i :: 0 < i < |tx.items| ==> Untouched(tx.items[i])
  {
  }

  lemma StepKeepsItems(q: QueueInfo, s: Sys, step: Step<Request>)
    requires ItemsInv(q, s)
    ensures ItemsInv(q, Next(q, s, step))
  {
    hide MaxRetry, CheckOnce, Add;
    match step
    case Send(request) => SendItems(q, s, request);
    case Check(now, ok) => CheckItems(q, s, now, ok);
    case AckArrives => if s.acks != [] && !s.stopped { RecvAckKeeps(q, s.tx, s.acks[0]); }
    case _ =>
  }

  // ----- What the link and the receiver keep -----

  /** The bytes of the commands at the given places of the history of transmissions. */
  function BytesAt(accepted: seq<Request>, order: seq<int>, places: seq<nat>): (r: seq<seq<byte>>)
    requires forall k :: 0 <= k < |order| ==> 0 <= order[k] < |accepted|
    requires forall k :: 0 <= k < |places| ==> places[k] < |order|
    ensures |r| == |places|
  {
    seq(|places|, k requires 0 <= k < |places| => accepted[order[places[k]]].cmd)
  }

  ghost predicate Increasing(places: seq<nat>) {
    forall i, j :: 0 <= i < j < |places| ==> places[i] < places[j]
  }

  /** Frames on the link are in the order of the first transmissions, and those of the same command
      are the same. */
  ghost predicate InOrder(data: seq<Flight>, accepted: seq<Request>, order: seq<int>)
    requires forall k :: 0 <= k < |order| ==> 0 <= order[k] < |accepted|
  {
    && (forall i :: 0 <= i < |data| ==> data[i].place < |order| && data[i].frame.payload == accepted[order[data[i].place]].cmd)
    && (forall i, j :: 0 <= i < j < |data| ==> data[i].place <= data[j].place)
    && (forall i, j :: 0 <= i < j < |data| && data[i].place == data[j].place ==> data[i].frame.num == data[j].frame.num)
  }

  /** What the receiver processed last is not after what is on the link, and has its number if it is
      the same command. */
  ghost predicate Behind(s: Sys) {
    && (forall k :: 0 <= k < |s.got| ==> s.got[k] < |s.order|)
    && Increasing(s.got)
    && (s.got != [] ==>
      var last := s.got[|s.got| - 1];
      forall i :: 0 <= i < |s.data| ==>
        last <= s.data[i].place && (s.data[i].place == last ==> s.data[i].frame.num == s.rx.recvSeq))
  }

  /** While the oldest entry may be transmitted again, its frames carry the number of the queue. */
  ghost predicate Renumbers(s: Sys) {
    s.tx.items != [] && !Untouched(s.tx.items[0]) ==>
      && (forall i :: 0 <= i < |s.data| && s.data[i].place == |s.order| - 1 ==> s.data[i].frame.num == s.tx.num)
      && (s.got != [] && s.got[|s.got| - 1] == |s.order| - 1 ==> s.rx.recvSeq == s.tx.num)
  }

  ghost predicate SysInv(q: QueueInfo, s: Sys) {
    && ItemsInv(q, s) && InOrder(s.data, s.accepted, s.order) && Behind(s) && Renumbers(s)
    && s.rx.delivered == Deliverable(BytesAt(s.accepted, s.order, s.got))
  }

  lemma SendLink(q: QueueInfo, s: Sys, request: Request)
    requires SysInv(q, s)
    ensures SysInv(q, Next(q, s, Send(request)))
  {
    hide Deliverable, ItemOf, Distinct, DistinctUsers;
    StepKeepsItems(q, s, Send(request));
    var t := Next(q, s, Send(request));
    if !s.stopped {
      assert BytesAt(t.accepted, t.order, t.got) == BytesAt(s.accepted, s.order, s.got);
    }
  }

  /** What one look at a queue does to the oldest entry and to the number. */
  lemma CheckShape(q: QueueInfo, tx: Tx, now: nat, ok: bool)
    requires Consistent(q, tx) && tx.items != []
    ensures var p, e := CheckOnce(q, tx, now, ok), tx.items[0];
      p.frame == None || !ok ==>
        p.tx.items == [] || Untouched(p.tx.items[0]) || (!Untouched(e) && p.tx.num == tx.num)
    ensures var p, e := CheckOnce(q, tx, now, ok), tx.items[0];
      p.frame.Some? && ok ==>
        && p.frame.value.payload == e.cmd && (!Untouched(e) ==> p.frame.value.num == tx.num)
        && p.tx.num == p.frame.value.num
  {
    hide Remaining;
  }

  /** A look that sends nothing. */
  lemma LookLink(s: Sys, t: Sys)
    requires Renumbers(s)
    requires t.data == s.data && t.rx == s.rx && t.got == s.got && t.order == s.order
    requires t.tx.items == [] || Untouched(t.tx.items[0])
      || (s.tx.items != [] && !Untouched(s.tx.items[0]) && t.tx.num == s.tx.num)
    ensures Renumbers(t)
  {
  }

  /** A transmission puts a frame at the end of the link: of a new command with a new number, or of
      the last one with the same number. */
  lemma TransmissionLink(s: Sys, t: Sys, f: Frame)
    requires (forall k :: 0 <= k < |s.order| ==> 0 <= s.order[k] < |s.accepted|)
    requires InOrder(s.data, s.accepted, s.order) && Behind(s) && Renumbers(s)
    requires s.tx.items != [] && 0 <= s.tx.items[0].userdata < |s.accepted|
    requires var e := s.tx.items[0];
      && s.accepted[e.userdata].cmd == f.payload && t.tx.num == f.num
      && (!Untouched(e) ==> f.num == s.tx.num && s.order != [] && s.order[|s.order| - 1] == e.userdata)
    requires t.order == OrderAfter(s) && t.data == s.data + [Flight(f, |t.order| - 1)]
    requires t.accepted == s.accepted && t.rx == s.rx && t.got == s.got
    ensures InOrder(t.data, t.accepted, t.order) && Behind(t) && Renumbers(t)
  {
    hide Increasing;
    assert forall k :: 0 <= k < |s.order| ==> t.order[k] == s.order[k];
    assert t.order[|t.order| - 1] == s.tx.items[0].userdata;
  }

  lemma CheckLink(q: QueueInfo, s: Sys, now: nat, ok: bool)
    requires SysInv(q, s)
    ensures SysInv(q, Next(q, s, Check(now, ok)))
  {
    hide Deliverable, Distinct, DistinctUsers, DistinctIds, CheckOnce, Renumbers, Behind, InOrder, MaxRetry, Consistent;
    StepKeepsItems(q, s, Check(now, ok));
    var t := Next(q, s, Check(now, ok));
    var p := CheckOnce(q, s.tx, now, ok);
    if s.tx.items == [] {
      CheckNothing(q, s.tx, now, ok);
      LookLink(s, t);
    } else {
      CheckShape(q, s.tx, now, ok);
      if p.frame == None || !ok {
        LookLink(s, t);
        SameBehind(s, t);
      } else {
        assert ItemOf(q, s.tx.items[0], s.accepted);
        TransmissionLink(s, t, p.frame.value);
        SamePlaces(s, t);
      }
    }
  }

  lemma CheckNothing(q: QueueInfo, tx: Tx, now: nat, ok: bool)
    requires tx.items == []
    ensures CheckOnce(q, tx, now, ok) == Pass(tx, None, None, false)
  {
  }

  lemma SameBehind(s: Sys, t: Sys)
    requires Behind(s) && t == s.(tx := t.tx)
    ensures Behind(t)
  {
  }

  /** A longer history of transmissions has the same bytes at the places it had. */
  lemma SamePlaces(s: Sys, t: Sys)
    requires (forall k :: 0 <= k < |s.order| ==> 0 <= s.order[k] < |s.accepted|)
    requires (forall k :: 0 <= k < |t.order| ==> 0 <= t.order[k] < |t.accepted|)
    requires Behind(s) && |s.order| <= |t.order| && t.order[..|s.order|] == s.order
    requires t.accepted == s.accepted && t.got == s.got
    ensures forall k :: 0 <= k < |t.got| ==> t.got[k] < |t.order|
    ensures BytesAt(t.accepted, t.order, t.got) == BytesAt(s.accepted, s.order, s.got)
  {
    forall k | 0 <= k < |s.order| ensures t.order[k] == s.order[k] {
      assert t.order[..|s.order|][k] == s.order[k];
    }
  }

  /** A link that holds frames of another one in the same order, each any number of times. */
  lemma Remapped(s: Sys, t: Sys, from: seq<nat>)
    requires (forall k :: 0 <= k < |s.order| ==> 0 <= s.order[k] < |s.accepted|)
    requires InOrder(s.data, s.accepted, s.order) && Behind(s) && Renumbers(s)
    requires t == s.(data := t.data, acks := t.acks) && |from| == |t.data|
    requires forall i :: 0 <= i < |from| ==> from[i] < |s.data| && t.data[i] == s.data[from[i]]
    requires forall i, j :: 0 <= i < j < |from| ==> from[i] <= from[j]
    ensures InOrder(t.data, t.accepted, t.order) && Behind(t) && Renumbers(t)
  {
  }

  /** The receiver takes the first frame off the link. */
  lemma ReceiverLink(s: Sys, t: Sys)
    requires (forall k :: 0 <= k < |s.order| ==> 0 <= s.order[k] < |s.accepted|)
    requires InOrder(s.data, s.accepted, s.order) && Behind(s) && Renumbers(s) && s.data != []
    requires var f := s.data[0];
      if ShouldProcess(s.rx.recvSeq, f.frame.num) then t.got == s.got + [f.place] && t.rx.recvSeq == f.frame.num
      else t.got == s.got && t.rx == s.rx
    requires t == s.(data := s.data[1..], acks := t.acks, rx := t.rx, got := t.got)
    ensures InOrder(t.data, t.accepted, t.order) && Behind(t) && Renumbers(t)
  {
  }

  lemma DataLink(q: QueueInfo, s: Sys)
    requires SysInv(q, s)
    ensures SysInv(q, Next(q, s, DataArrives))
  {
    hide Deliverable, ItemsInv, Renumbers, ShouldProcess;
    StepKeepsItems(q, s, DataArrives);
    var t := Next(q, s, DataArrives);
    ItemsOrder(q, s);
    if s.data != [] {
      ReceiverLink(s, t);
      if ShouldProcess(s.rx.recvSeq, s.data[0].frame.num) {
        var f := s.data[0];
        var before := BytesAt(s.accepted, s.order, s.got);
        assert BytesAt(s.accepted, s.order, t.got) == before + [f.frame.payload];
        DeliverableAppend(before, [f.frame.payload]);
        DeliverableOne(f.frame.payload);
      }
    }
  }

  lemma DeliverableOne(c: seq<byte>)
    ensures Deliverable([c]) == if HeaderOk(c) then [c] else []
  {
  }

  lemma ItemsOrder(q: QueueInfo, s: Sys)
    requires ItemsInv(q, s)
    ensures forall k :: 0 <= k < |s.order| ==> 0 <= s.order[k] < |s.accepted|
    ensures Distinct(s.order)
  {
  }

  lemma AckLink(q: QueueInfo, s: Sys)
    requires SysInv(q, s)
    ensures SysInv(q, Next(q, s, AckArrives))
  {
    hide Deliverable;
    StepKeepsItems(q, s, AckArrives);
  }

  lemma MisbehavingLink(q: QueueInfo, s: Sys, step: Step<Request>)
    requires SysInv(q, s) && (step.LoseData? || step.LoseAck? || step.DuplicateData? || step.DuplicateAck?)
    ensures SysInv(q, Next(q, s, step))
  {
    hide Deliverable, ItemsInv, InOrder, Behind, Renumbers, CheckOnce, RecvAck;
    ItemsOrder(q, s);
    StepKeepsItems(q, s, step);
    var t := Next(q, s, step);
    var from := seq(|t.data|, (k: nat) =>
      if step.LoseData? && k >= step.i then k + 1 else if step.DuplicateData? && k > step.i then k - 1 else k);
    Remapped(s, t, from);
    SamePlaces(s, t);
  }

  lemma StopLink(q: QueueInfo, s: Sys)
    requires SysInv(q, s)
    ensures SysInv(q, Next(q, s, StopQueue))
  {
    hide Deliverable, ItemsInv, InOrder;
    ItemsOrder(q, s);
    StepKeepsItems(q, s, StopQueue);
    StoppedNothing(q, Next(q, s, StopQueue));
  }

  lemma StoppedNothing(q: QueueInfo, s: Sys)
    requires ItemsInv(q, s) && s.stopped
    ensures s.tx.items == []
  {
  }

  /** Every step of every kind keeps the invariant. */
  lemma StepKeepsInv(q: QueueInfo, s: Sys, step: Step<Request>)
    requires SysInv(q, s)
    ensures SysInv(q, Next(q, s, step))
  {
    hide SysInv, Next;
    match step
    case Send(request) => SendLink(q, s, request);
    case Check(now, ok) => CheckLink(q, s, now, ok);
    case DataArrives => DataLink(q, s);
    case AckArrives => AckLink(q, s);
    case StopQueue => StopLink(q, s);
    case _ => MisbehavingLink(q, s, step);
  }

  // ----- Runs -----

  /** The state after the given steps. */
  function RunFrom(q: QueueInfo, s: Sys, steps: seq<Step<Request>>): Sys
    decreases |steps|
  {
    if steps == [] then s else RunFrom(q, Next(q, s, steps[0]), steps[1..])
  }

  function Run(q: QueueInfo, steps: seq<Step<Request>>): Sys {
    RunFrom(q, INIT, steps)
  }

  lemma InitOk(q: QueueInfo)
    ensures SysInv(q, INIT) && Sequential(INIT)
  {
    assert BytesAt(INIT.accepted, INIT.order, INIT.got) == [];
  }

  lemma {:induction false} RunKeepsInv(q: QueueInfo, s: Sys, steps: seq<Step<Request>>)
    requires SysInv(q, s)
    ensures SysInv(q, RunFrom(q, s, steps))
    decreases |steps|
  {
    hide SysInv, Next;
    if steps != [] {
      StepKeepsInv(q, s, steps[0]);
      RunKeepsInv(q, Next(q, s, steps[0]), steps[1..]);
    }
  }

  /** In every run, with any numbers of retries, losses, duplications and wraps of the sequence
      numbers, the commands delivered are the deliverable ones of a subsequence of the commands
      transmitted, in the order of their first transmissions. No command is transmitted for the
      first time twice, so none is delivered twice. */
  lemma AtMostOnceInOrder(q: QueueInfo, steps: seq<Step<Request>>)
    ensures var s := Run(q, steps);
      && (forall k :: 0 <= k < |s.order| ==> 0 <= s.order[k] < |s.accepted|) && Distinct(s.order)
      && (forall k :: 0 <= k < |s.got| ==> s.got[k] < |s.order|) && Increasing(s.got)
      && s.rx.delivered == Deliverable(BytesAt(s.accepted, s.order, s.got))
  {
    InitOk(q);
    RunKeepsInv(q, INIT, steps);
  }

  /** In every run, only the oldest entry of an acknowledged queue ever waits for an
      acknowledgement, and then it carries the number of the queue; and a queue that overwrites and
      is not acknowledged never holds two commands with the same identifier. */
  lemma OnlyOldestWaits(q: QueueInfo, steps: seq<Step<Request>>, i: nat)
    requires i < |Run(q, steps).tx.items|
    ensures var tx := Run(q, steps).tx;
      && (tx.items[i].waitingAck ==> q.ack && i == 0 && tx.items[i].num == tx.num)
      && (!q.ack && q.overwrite ==> DistinctIds(tx.items))
  {
    InitOk(q);
    RunKeepsInv(q, INIT, steps);
    assert Consistent(q, Run(q, steps).tx);
  }

  // ----- Queues that do not overwrite -----

  /** Entries, and before them the commands transmitted, are in the order in which they were accepted. */
  ghost predicate Sequential(s: Sys) {
    && (forall i, j :: 0 <= i < j < |s.tx.items| ==> s.tx.items[i].userdata < s.tx.items[j].userdata)
    && (forall k, m :: 0 <= k < m < |s.order| ==> s.order[k] < s.order[m])
    && (forall k, i :: 0 <= k < |s.order| && 0 <= i < |s.tx.items| ==> s.order[k] <= s.tx.items[i].userdata)
  }

  lemma CheckSequential(q: QueueInfo, s: Sys, now: nat, ok: bool)
    requires ItemsInv(q, s) && Sequential(s) && s.tx.items != []
    ensures Sequential(Next(q, s, Check(now, ok)))
  {
    hide CheckOnce, Consistent, ItemOf, Distinct, DistinctUsers, DistinctIds;
    CheckEntries(q, s.tx, now, ok);
    var t := Next(q, s, Check(now, ok));
    assert t.tx.items != [] ==> t.tx.items == s.tx.items[1..] || t.tx.items == s.tx.items[0 := t.tx.items[0]];
    assert Untouched(s.tx.items[0]) ==> s.tx.items[0].userdata !in s.order;
  }

  lemma StepKeepsSequential(q: QueueInfo, s: Sys, step: Step<Request>)
    requires !q.overwrite && ItemsInv(q, s) && Sequential(s)
    ensures Sequential(Next(q, s, step))
  {
    match step
    case Send(request) => SendSequential(q, s, request);
    case Check(now, ok) =>
      if s.tx.items == [] {
        CheckNothing(q, s.tx, now, ok);
      } else {
        CheckSequential(q, s, now, ok);
      }
    case _ => RestSequential(q, s, step);
  }

  lemma SendSequential(q: QueueInfo, s: Sys, request: Request)
    requires !q.overwrite && ItemsInv(q, s) && Sequential(s)
    ensures Sequential(Next(q, s, Send(request)))
  {
    hide Add, Consistent, MaxRetry, Untouched, Distinct, DistinctUsers, DistinctIds;
    AddAppends(q, s.tx, request, |s.accepted|);
  }

  lemma RestSequential(q: QueueInfo, s: Sys, step: Step<Request>)
    requires Sequential(s) && !step.Send? && !step.Check?
    ensures Sequential(Next(q, s, step))
  {
  }

  lemma AddAppends(q: QueueInfo, tx: Tx, request: Request, userdata: int)
    requires !q.overwrite
    ensures Add(q, tx, request, userdata) == tx.(items := tx.items + [NewItem(q, request, userdata)])
    ensures NewItem(q, request, userdata).userdata == userdata
  {
  }

  lemma {:induction false} RunKeepsSequential(q: QueueInfo, s: Sys, steps: seq<Step<Request>>)
    requires !q.overwrite && SysInv(q, s) && Sequential(s)
    ensures Sequential(RunFrom(q, s, steps))
    decreases |steps|
  {
    hide Sequential, Next, InOrder, Behind, Renumbers, ItemsInv;
    if steps != [] {
      StepKeepsInv(q, s, steps[0]);
      StepKeepsSequential(q, s, steps[0]);
      RunKeepsSequential(q, Next(q, s, steps[0]), steps[1..]);
    }
  }

  /** Without overwriting, the commands delivered are the deliverable ones of a subsequence of the
      accepted commands: their places among these increase. */
  lemma SubsequenceOfAccepted(q: QueueInfo, steps: seq<Step<Request>>)
    requires !q.overwrite
    ensures var s := Run(q, steps);
      && (forall k :: 0 <= k < |s.order| ==> 0 <= s.order[k] < |s.accepted|)
      && (forall k :: 0 <= k < |s.got| ==> s.got[k] < |s.order|)
      && (forall j, k :: 0 <= j < k < |s.got| ==> s.order[s.got[j]] < s.order[s.got[k]])
      && s.rx.delivered == Deliverable(BytesAt(s.accepted, s.order, s.got))
  {
    AtMostOnceInOrder(q, steps);
    InitOk(q);
    RunKeepsSequential(q, INIT, steps);
  }
}
