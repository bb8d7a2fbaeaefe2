/** The transmit queue of version 1 of the command interface as a value: one command a frame, a
    bounded number of retries, and overwriting of pending commands. The class
    `TxQueueV1.TxQueue` is proved to do the same in place. */
module QueueV1 {
  import opened Bytes
  import opened Commands

  /** A command to send: its full identifier, its bytes, and whether its description asks to retry
      on a timeout. */
  datatype Request = Request(id: u32, cmd: Cmd, retry: bool)

  const INT32_MAX: nat := 0x7FFF_FFFF

  /** An entry of the queue. */
  datatype Item = Item(id: u32, cmd: Cmd, userdata: int, num: byte, waitingAck: bool, retryCount: nat,
                       maxRetry: int, sentTs: nat)

  /** A data frame, with its 8-bit sequence number. */
  datatype Frame = Frame(num: byte, payload: seq<byte>)

  datatype Tx = Tx(items: seq<Item>, num: byte, lastSentTs: nat, log: seq<Event>)

  /** A new queue: the first frame gets number 0. */
  const NEW_TX := Tx([], 0xFF, 0, [])

  function NextNum(n: byte): byte {
    if n == 0xFF then 0 else n + 1
  }

  function MaxRetry(q: QueueInfo, request: Request): int {
    if request.retry then INT32_MAX else q.defaultMaxRetry
  }

  function NewItem(q: QueueInfo, request: Request, userdata: int): Item {
    Item(request.id, request.cmd, userdata, 0, false, 0, MaxRetry(q, request), 0)
  }

  // ----- What holds of a queue -----

  /** An entry that was not transmitted yet. */
  predicate Untouched(e: Item) {
    !e.waitingAck && e.retryCount == 0
  }

  /** Only the oldest entry of an acknowledged queue has ever been transmitted, and then it carries
      the number of the queue; its retries do not go beyond their limit. */
  ghost predicate Consistent(q: QueueInfo, tx: Tx) {
    && (forall i :: 0 <= i < |tx.items| && (i > 0 || !q.ack) ==> Untouched(tx.items[i]))
    && (tx.items != [] && !Untouched(tx.items[0]) ==> tx.items[0].num == tx.num)
    && (forall i :: 0 <= i < |tx.items| ==> tx.items[i].maxRetry > 0 ==> tx.items[i].retryCount <= tx.items[i].maxRetry)
  }

  // ----- Adding and overwriting -----

  /** The first entry with the given identifier that does not wait for an acknowledgement. */
  function Replaceable(items: seq<Item>, id: u32): (r: Option<nat>)
    ensures r.Some? ==>
      && r.value < |items| && items[r.value].id == id && !items[r.value].waitingAck
      && forall k :: 0 <= k < r.value ==> items[k].id != id || items[k].waitingAck
    ensures r == None ==> forall k :: 0 <= k < |items| ==> items[k].id != id || items[k].waitingAck
  {
    ReplaceableFrom(items, id, 0)
  }

  function ReplaceableFrom(items: seq<Item>, id: u32, k: nat): (r: Option<nat>)
    requires k <= |items|
    ensures r.Some? ==>
      && k <= r.value < |items| && items[r.value].id == id && !items[r.value].waitingAck
      && forall i :: k <= i < r.value ==> items[i].id != id || items[i].waitingAck
    ensures r == None ==> forall i :: k <= i < |items| ==> items[i].id != id || items[i].waitingAck
    decreases |items| - k
  {
    if k == |items| then None
    else if !items[k].waitingAck && items[k].id == id then Some(k)
    else ReplaceableFrom(items, id, k + 1)
  }

  /** Adds a command. A queue that overwrites puts it in the place of the pending command with the
      same identifier, if there is one, and cancels that one. */
  function Add(q: QueueInfo, tx: Tx, request: Request, userdata: int): Tx {
    match (if q.overwrite then Replaceable(tx.items, request.id) else None)
    case Some(i) =>
      tx.(items := tx.items[i := NewItem(q, request, userdata)],
          log := tx.log + [Event(tx.items[i].userdata, Canceled, 0, true)])
    case None =>
      tx.(items := tx.items + [NewItem(q, request, userdata)])
  }

  lemma AddKeeps(q: QueueInfo, tx: Tx, request: Request, userdata: int)
    requires Consistent(q, tx)
    ensures Consistent(q, Add(q, tx, request, userdata))
  {
  }

  /** The reference for a queue that overwrites: values in the order of the first insertion of
      their keys. */
  datatype OrderedMap = OrderedMap(order: seq<u32>, value: map<u32, (Cmd, int)>)

  function Put(m: OrderedMap, id: u32, v: (Cmd, int)): OrderedMap {
    OrderedMap(if id in m.value then m.order else m.order + [id], m.value[id := v])
  }

  function DropOldest(m: OrderedMap): OrderedMap
    requires m.order != []
  {
    OrderedMap(m.order[1..], m.value - {m.order[0]})
  }

  ghost predicate DistinctIds(items: seq<Item>) {
    forall i, j :: 0 <= i < j < |items| ==> items[i].id != items[j].id
  }

  function Ids(items: seq<Item>): (r: seq<u32>)
    ensures |r| == |items|
  {
    seq(|items|, i requires 0 <= i < |items| => items[i].id)
  }

  /** The place of the first entry with an identifier. */
  function PlaceOf(items: seq<Item>, id: u32): (i: nat)
    requires id in Ids(items)
    ensures i < |items| && items[i].id == id
  {
    if items[0].id == id then 0
    else
      assert Ids(items) == [items[0].id] + Ids(items[1..]);
      1 + PlaceOf(items[1..], id)
  }

  /** The pending entries as an ordered map. */
  function Pending(items: seq<Item>): OrderedMap {
    OrderedMap(Ids(items), map id | id in Ids(items) :: var e := items[PlaceOf(items, id)]; (e.cmd, e.userdata))
  }

  /** In a queue with distinct identifiers, the map has the value of each entry and no other. */
  lemma PendingAt(items: seq<Item>)
    requires DistinctIds(items)
    ensures forall i :: 0 <= i < |items| ==>
      items[i].id in Pending(items).value && Pending(items).value[items[i].id] == (items[i].cmd, items[i].userdata)
    ensures forall id :: id in Pending(items).value ==> exists i :: 0 <= i < |items| && items[i].id == id
  {
    forall i | 0 <= i < |items| ensures items[i].id in Ids(items) && PlaceOf(items, items[i].id) == i {
      assert Ids(items)[i] == items[i].id;
    }
  }

  lemma SameMap(m: OrderedMap, items: seq<Item>)
    requires DistinctIds(items) && m.order == Ids(items)
    requires forall i :: 0 <= i < |items| ==>
      items[i].id in m.value && m.value[items[i].id] == (items[i].cmd, items[i].userdata)
    requires forall id :: id in m.value ==> exists i :: 0 <= i < |items| && items[i].id == id
    ensures Pending(items) == m
  {
    PendingAt(items);
    assert Pending(items).value == m.value;
  }

  /** A queue that overwrites and is not acknowledged never holds two commands with the same
      identifier, and adding to it is putting into the ordered map: a newer command takes the place
      of the older one, which alone is cancelled, and all the others keep value and order. */
  lemma OverwriteRefinesMap(q: QueueInfo, tx: Tx, request: Request, userdata: int)
    requires !q.ack && q.overwrite && Consistent(q, tx) && DistinctIds(tx.items)
    ensures var t := Add(q, tx, request, userdata);
      && DistinctIds(t.items)
      && Pending(t.items) == Put(Pending(tx.items), request.id, (request.cmd, userdata))
    ensures var t, m := Add(q, tx, request, userdata), Pending(tx.items);
      t.log == tx.log + if request.id in m.value then [Event(m.value[request.id].1, Canceled, 0, true)] else []
  {
    hide Pending, NewItem;
    PendingAt(tx.items);
    var e := NewItem(q, request, userdata);
    assert e.id == request.id && e.cmd == request.cmd && e.userdata == userdata by { NewItemIs(q, request, userdata); }
    match Replaceable(tx.items, request.id) {
      case Some(i) => ReplacePuts(tx.items, i, e);
      case None => AppendPuts(tx.items, e);
    }
  }

  lemma NewItemIs(q: QueueInfo, request: Request, userdata: int)
    ensures var e := NewItem(q, request, userdata);
      e.id == request.id && e.cmd == request.cmd && e.userdata == userdata && Untouched(e)
  {
  }

  lemma ReplacePuts(items: seq<Item>, i: nat, e: Item)
    requires DistinctIds(items) && i < |items| && items[i].id == e.id
    ensures DistinctIds(items[i := e])
    ensures Pending(items[i := e]) == Put(Pending(items), e.id, (e.cmd, e.userdata))
  {
    hide Pending;
    var t, m' := items[i := e], Put(Pending(items), e.id, (e.cmd, e.userdata));
    PendingAt(items);
    PendingOrder(items);
    assert Ids(t) == Ids(items);
    forall id | id in m'.value ensures exists k :: 0 <= k < |t| && t[k].id == id {
      assert id in Pending(items).value;
      var k :| 0 <= k < |items| && items[k].id == id;
      assert t[k].id == id;
    }
    SameMap(m', t);
  }

  lemma AppendPuts(items: seq<Item>, e: Item)
    requires DistinctIds(items) && forall k :: 0 <= k < |items| ==> items[k].id != e.id
    ensures DistinctIds(items + [e])
    ensures Pending(items + [e]) == Put(Pending(items), e.id, (e.cmd, e.userdata))
  {
    hide Pending;
    var t, m' := items + [e], Put(Pending(items), e.id, (e.cmd, e.userdata));
    PendingAt(items);
    PendingOrder(items);
    assert Ids(t) == Ids(items) + [e.id];
    forall id | id in m'.value ensures exists k :: 0 <= k < |t| && t[k].id == id {
      if id == e.id {
        assert t[|items|].id == id;
      } else {
        var k :| 0 <= k < |items| && items[k].id == id;
        assert t[k].id == id;
      }
    }
    SameMap(m', t);
  }

  lemma PendingOrder(items: seq<Item>)
    ensures Pending(items).order == Ids(items)
  {
  }

  /** Removing the oldest entry removes the oldest key. */
  lemma PopRefinesMap(items: seq<Item>)
    requires items != [] && DistinctIds(items)
    ensures DistinctIds(items[1..]) && Pending(items[1..]) == DropOldest(Pending(items))
  {
    hide Pending;
    var rest, m := items[1..], Pending(items);
    PendingAt(items);
    PendingOrder(items);
    var m' := DropOldest(m);
    forall id | id in m'.value ensures exists i :: 0 <= i < |rest| && rest[i].id == id {
      var i :| 0 <= i < |items| && items[i].id == id;
      assert rest[i - 1].id == id;
    }
    SameMap(m', rest);
  }

  // ----- Transmitting -----

  /** Whether a delay that began at `start` is still running. */
  predicate Running(delayMs: int, start: nat, now: nat) {
    start <= now && now - start <= delayMs * 1000
  }

  /** The oldest entry when its acknowledgement is no longer waited for. */
  function Retried(e: Item): Item {
    if e.waitingAck then e.(waitingAck := false, retryCount := e.retryCount + 1, sentTs := 0) else e
  }

  /** Looks at a queue once: waits for the acknowledgement of the oldest command, gives it up, or
      transmits it. The number does not change for a retry. While the minimum delay between two
      frames is running, the deadline is the part of it that is over. */
  function CheckOnce(q: QueueInfo, tx: Tx, now: nat, ok: bool): Pass<Tx, Frame>
  {
    if tx.items == [] then Pass(tx, None, None, false) else
    var e := tx.items[0];
    var left := Remaining(q.ackTimeoutMs, e.sentTs, now);
    if e.waitingAck && left > 0 then Pass(tx, None, Some(left), false)
    else if e.waitingAck && e.maxRetry > 0 && e.retryCount >= e.maxRetry then
      Pass(tx.(items := tx.items[1..], log := tx.log + [Event(e.userdata, Timeout, 0, true)]), None, None, true)
    else
      var e1 := Retried(e);
      if q.maxTxRateMs > 0 && Running(q.maxTxRateMs, tx.lastSentTs, now) then
        Pass(tx.(items := tx.items[0 := e1]), None, Some((now - tx.lastSentTs) / 1000), false)
      else
        Transmit(q, tx, e1, now, ok)
  }

  /** Gives the oldest command, `e`, to the transport. */
  function Transmit(q: QueueInfo, tx: Tx, e: Item, now: nat, ok: bool): Pass<Tx, Frame>
    requires tx.items != []
  {
    var num := if e.retryCount == 0 then NextNum(tx.num) else tx.num;
    var frame := Some(Frame(num, e.cmd));
    var log := tx.log + [Event(e.userdata, Packed, 0, !q.ack)];
    if !ok then Pass(tx.(items := tx.items[0 := e], num := num), frame, None, false)
    else if q.ack then
      var e' := e.(num := num, waitingAck := true, sentTs := now);
      Pass(Tx(tx.items[0 := e'], num, now, log), frame, if q.ackTimeoutMs > 0 then Some(q.ackTimeoutMs) else None, false)
    else
      Pass(Tx(tx.items[1..], num, now, log), frame, None, true)
  }

  /** Looking at a queue keeps it consistent, and pops an entry each time that it starts over. */
  lemma CheckOnceKeeps(q: QueueInfo, tx: Tx, now: nat, ok: bool)
    requires Consistent(q, tx)
    ensures var p := CheckOnce(q, tx, now, ok);
      Consistent(q, p.tx) && (p.again ==> tx.items != [] && p.tx.items == tx.items[1..])
  {
  }

  /** Looks at a queue again and again; it always comes to an end. `takes` says which of the frames
      given to the transport, counted from the start of time, it takes. */
  function CheckAll(q: QueueInfo, tx: Tx, now: nat, takes: nat -> bool, tries: nat): Checked<Tx, Frame>
    decreases |tx.items|
  {
    var p := CheckOnce(q, tx, now, takes(tries));
    var tries' := if p.frame.Some? then tries + 1 else tries;
    var sent := if p.frame.Some? && takes(tries) then [p.frame.value] else [];
    if !p.again then Checked(p.tx, sent, tries', p.deadline)
    else
      var next := CheckAll(q, p.tx, now, takes, tries');
      next.(sent := sent + next.sent)
  }

  /** The deadline of a command that waits for its acknowledgement is exact: while `e` milliseconds are
      less than it, another look does nothing but count down; when they are over, the command is given
      up or transmitted again, unless the minimum delay between frames is running. */
  lemma DeadlineIsExact(q: QueueInfo, tx: Tx, now: nat, e: nat, ok: bool)
    requires tx.items != [] && tx.items[0].waitingAck && Remaining(q.ackTimeoutMs, tx.items[0].sentTs, now) > 0
    ensures var d, p := Remaining(q.ackTimeoutMs, tx.items[0].sentTs, now), CheckOnce(q, tx, now + 1000 * e, ok);
      && (e < d ==> p == Pass(tx, None, Some(d - e), false))
      && (e >= d ==> p.frame.Some? || p.again || (q.maxTxRateMs > 0 && Running(q.maxTxRateMs, tx.lastSentTs, now + 1000 * e)))
  {
    hide Remaining;
    RemainingIsExact(q.ackTimeoutMs, tx.items[0].sentTs, now, e);
  }

  /** After an acknowledged transmission the deadline is the acknowledgement timeout. */
  lemma SentDeadline(q: QueueInfo, tx: Tx, now: nat, e: nat, ok: bool)
    requires tx.items != [] && q.ack && CheckOnce(q, tx, now, true).frame.Some? && q.ackTimeoutMs > 0
    ensures var p := CheckOnce(q, tx, now, true);
      && p.deadline == Some(q.ackTimeoutMs) && !p.again && p.tx.items != []
      && (e < q.ackTimeoutMs ==>
        CheckOnce(q, p.tx, now + 1000 * e, ok) == Pass(p.tx, None, Some(q.ackTimeoutMs - e), false))
  {
    RemainingAtStart(q.ackTimeoutMs, now);
    DeadlineIsExact(q, CheckOnce(q, tx, now, true).tx, now, e, ok);
  }

  /** The deadline of a queue that waits for the minimum delay is the time that is over: in the first
      millisecond it is 0, for which no timer is set, and else, when it is over, the queue may transmit if
      and only if at least about half of the delay had been over before. */
  lemma RateDeadline(q: QueueInfo, tx: Tx, now: nat)
    requires tx.items != [] && Untouched(tx.items[0]) && q.maxTxRateMs > 0 && Running(q.maxTxRateMs, tx.lastSentTs, now)
    ensures var p := CheckOnce(q, tx, now, true);
      && p.tx == tx && p.frame == None && p.deadline.Some?
      && (p.deadline.value == 0 <==> now - tx.lastSentTs < 1000)
      && (CheckOnce(q, tx, now + 1000 * p.deadline.value, true).frame.Some? <==>
        (now - tx.lastSentTs) + 1000 * ((now - tx.lastSentTs) / 1000) > 1000 * q.maxTxRateMs)
  {
    assert Retried(tx.items[0]) == tx.items[0] && tx.items[0 := tx.items[0]] == tx.items;
  }

  // ----- Acknowledgements and stopping -----

  /** An acknowledgement arrives; it counts only when it is for the oldest command, which then
      leaves the queue. */
  function RecvAck(tx: Tx, num: byte): Tx {
    if tx.items == [] || !tx.items[0].waitingAck || tx.items[0].num != num then tx
    else tx.(items := tx.items[1..], log := tx.log + [Event(tx.items[0].userdata, AckReceived, 0, true)])
  }

  lemma RecvAckKeeps(q: QueueInfo, tx: Tx, num: byte)
    requires Consistent(q, tx)
    ensures Consistent(q, RecvAck(tx, num))
  {
  }

  function CancelItems(items: seq<Item>): (r: seq<Event>)
    ensures |r| == |items|
  {
    seq(|items|, i requires 0 <= i < |items| => Event(items[i].userdata, Canceled, 0, true))
  }

  /** Stopping a queue cancels its entries. */
  function Stop(tx: Tx): Tx {
    tx.(items := [], log := tx.log + CancelItems(tx.items))
  }

  // ----- The receiver -----

  /** The test that the receiver makes on an 8-bit sequence number. */
  predicate ShouldProcess(prev: byte, num: byte) {
    num as int - prev as int > 0 || num as int - prev as int < -10
  }

  /** The number after `k` more frames were numbered. */
  function Advanced(num: byte, k: nat): byte {
    ((num as int + k) % 256) as byte
  }

  lemma Mod256(a: int, d: int, m: int)
    requires a == 256 * d + m && 0 <= m < 256
    ensures a % 256 == m
  {
  }

  /** When exactly a frame is processed whose number is `k` after that of the last one processed,
      the ones between having been lost or refused by the transport. */
  lemma ProcessedAfterSkips(num: byte, k: nat)
    ensures ShouldProcess(num, Advanced(num, k)) <==>
      k % 256 != 0 && (num as int + k % 256 < 256 || k % 256 < 246)
  {
    var d, m, n := k / 256, k % 256, num as int;
    if n + m < 256 {
      Mod256(n + k, d, n + m);
    } else {
      Mod256(n + k, d + 1, n + m - 256);
    }
  }
}
