/** The transmit queues of version 1 of the command interface, in place, over circular buffers, and
    its reception. Every method is proved to do what `QueueV1` and `SystemV1` say. */
module TxQueueV1 {
  import opened Bytes
  import opened Commands
  import opened RingBuffer
  import opened QueueV1
  import opened TransportLayer

  /** The frames of a queue, with its identifier. */
  function FramesOf(id: byte, frames: seq<Frame>): (r: seq<(byte, Frame)>)
    ensures |r| == |frames|
  {
    seq(|frames|, i requires 0 <= i < |frames| => (id, frames[i]))
  }

  class TxQueue {
    const info: QueueInfo
    const ring: Ring<Item>
    var num: byte
    var lastSentTs: nat
    /** The status callbacks made so far. */
    var log: seq<Event>

    ghost predicate Valid()
      reads this, ring
    {
      ring.Valid()
    }

    /** The queue as a value. */
    ghost function View(): Tx
      requires Valid()
      reads this, ring, ring.entries
    {
      Tx(ring.Contents(), num, lastSentTs, log)
    }

    constructor (info: QueueInfo)
      ensures Valid() && this.info == info && View() == NEW_TX && Consistent(info, View())
      ensures fresh(ring) && fresh(ring.entries)
    {
      this.info := info;
      ring := new Ring<Item>();
      num, lastSentTs, log := 0xFF, 0, [];
    }

    /** Replaces the first pending command with the same identifier that does not wait for an
        acknowledgement, and cancels it. */
    method Replace(request: Request, userdata: int) returns (found: bool)
      requires Valid()
      modifies `log, ring.entries
      ensures Valid() && found == Replaceable(old(View()).items, request.id).Some?
      ensures View() == if found then QueueV1.Add(info.(overwrite := true), old(View()), request, userdata) else old(View())
    {
      hide Ring.Contents, MaxRetry;
      ghost var items := ring.Contents();
      var pos := ring.head;
      for i := 0 to ring.count
        invariant i < ring.count ==> pos == ring.Wrap(ring.head + i, ring.entries.Length)
        invariant Replaceable(items, request.id) == ReplaceableFrom(items, request.id, i)
      {
        assert ring.entries[pos] == items[i];
        if !ring.entries[pos].waitingAck && ring.entries[pos].id == request.id {
          log := log + [Event(ring.entries[pos].userdata, Canceled, 0, true)];
          SameLimit(info, request, userdata);
          ring.Replace(pos, NewItem(info, request, userdata), i);
          return true;
        }
        pos := pos + 1;
        if pos >= ring.entries.Length {
          pos := 0;
        }
      }
      return false;
    }

    method Add(request: Request, userdata: int)
      requires Valid()
      modifies `log, ring, ring.entries
      ensures Valid() && View() == QueueV1.Add(info, old(View()), request, userdata)
      ensures ring.entries == old(ring.entries) || fresh(ring.entries)
    {
      hide MaxRetry;
      SameLimit(info, request, userdata);
      if info.overwrite {
        var found := Replace(request, userdata);
        if found {
          return;
        }
      }
      ring.Add(NewItem(info, request, userdata));
    }

    /** Notifies and pops the oldest command. */
    method PopNotified(status: SendStatus)
      requires Valid() && ring.count > 0
      modifies `log, ring`head, ring`count
      ensures Valid() && ring.entries == old(ring.entries)
      ensures View() == var tx := old(View());
        tx.(items := tx.items[1..], log := tx.log + [Event(tx.items[0].userdata, status, 0, true)])
    {
      hide Ring.Contents;
      var entry := ring.entries[ring.head];
      assert entry == ring.Contents()[0];
      log := log + [Event(entry.userdata, status, 0, true)];
      ring.Pop();
    }

    /** Changes the oldest entry. */
    method SetOldest(e: Item)
      requires Valid() && ring.count > 0
      modifies ring.entries
      ensures Valid() && View() == old(View()).(items := old(View()).items[0 := e])
    {
      hide Ring.Contents;
      ring.Replace(ring.head, e, 0);
    }

    /** Gives the oldest command, `e`, to the transport. */
    method Send(net: Transport<(byte, Frame)>, now: nat, e: Item) returns (deadline: Option<int>, again: bool)
      requires Valid() && ring.count > 0 && View().items[0] == e
      modifies this, ring`head, ring`count, ring.entries, net
      ensures Valid() && ring.entries == old(ring.entries)
      ensures var p := Transmit(info, old(View()), e, now, net.takes(old(net.tries)));
        && View() == p.tx && deadline == p.deadline && again == p.again
        && net.tries == old(net.tries) + 1
        && net.sent == old(net.sent) + (if net.takes(old(net.tries)) then [(info.id, p.frame.value)] else [])
    {
      hide Ring.Contents;
      ghost var items := View().items;
      assert items[0 := e] == items;
      deadline, again := None, false;
      if e.retryCount == 0 {
        num := NextNum(num);
      }
      var ok := net.SendData((info.id, Frame(num, e.cmd)));
      if !ok {
        return;
      }
      lastSentTs := now;
      if info.ack {
        log := log + [Event(e.userdata, Packed, 0, false)];
        SetOldest(e.(num := num, waitingAck := true, sentTs := now));
        if info.ackTimeoutMs > 0 {
          deadline := Some(info.ackTimeoutMs);
        }
      } else {
        PopNotified(Packed);
        again := true;
      }
    }

    /** Looks at the queue once: waits, gives the oldest command up, or transmits it. */
    method CheckPass(net: Transport<(byte, Frame)>, now: nat) returns (deadline: Option<int>, again: bool)
      requires Valid()
      modifies this, ring`head, ring`count, ring.entries, net
      ensures Valid() && ring.entries == old(ring.entries)
      ensures var p := CheckOnce(info, old(View()), now, net.takes(old(net.tries)));
        && View() == p.tx && deadline == p.deadline && again == p.again
        && net.tries == old(net.tries) + (if p.frame.Some? then 1 else 0)
        && net.sent == old(net.sent) +
          (if p.frame.Some? && net.takes(old(net.tries)) then [(info.id, p.frame.value)] else [])
    {
      hide Ring.Contents, Transmit, Remaining;
      deadline, again := None, false;
      if ring.count == 0 {
        return;
      }
      ghost var tx := View();
      var entry := ring.entries[ring.head];
      assert entry == tx.items[0] && tx.items[0 := entry] == tx.items;
      if entry.waitingAck {
        var left := Remaining(info.ackTimeoutMs, entry.sentTs, now);
        if left > 0 {
          return Some(left), false;
        }
        if entry.maxRetry > 0 && entry.retryCount >= entry.maxRetry {
          PopNotified(Timeout);
          return None, true;
        }
        entry := entry.(waitingAck := false, retryCount := entry.retryCount + 1, sentTs := 0);
        SetOldest(entry);
      }
      assert View() == tx.(items := tx.items[0 := entry]);
      if info.maxTxRateMs > 0 && Running(info.maxTxRateMs, lastSentTs, now) {
        return Some((now - lastSentTs) / 1000), false;
      }
      TransmitSame(info, tx, entry, now, net.takes(net.tries));
      deadline, again := Send(net, now, entry);
    }

    /** Looks at the queue until there is nothing to do at once, and returns the shorter of the
        delay given and its own. */
    method CheckTxQueue(net: Transport<(byte, Frame)>, now: nat, nextMs: int) returns (nextMs': int)
      requires Valid()
      modifies this, ring`head, ring`count, ring.entries, net
      ensures Valid() && ring.entries == old(ring.entries)
      ensures var c := CheckAll(info, old(View()), now, net.takes, old(net.tries));
        && View() == c.tx && net.tries == c.tries && net.sent == old(net.sent) + FramesOf(info.id, c.sent)
        && nextMs' == Sooner(nextMs, c.deadline)
    {
      hide CheckOnce, CheckAll, FramesOf, TxQueue.View;
      ghost var sent: seq<Frame> := [];
      ghost var all := CheckAll(info, View(), now, net.takes, net.tries);
      FramesAppend(info.id, sent, sent);
      Prepended(sent, sent, all);
      var again := true;
      var deadline := None;
      while again
        invariant Valid() && ring.entries == old(ring.entries)
        invariant net.sent == old(net.sent) + FramesOf(info.id, sent)
        invariant again ==> all == Prepend(sent, CheckAll(info, View(), now, net.takes, net.tries))
        invariant !again ==> all == Checked(View(), sent, net.tries, deadline)
        decreases again, |View().items|
      {
        ghost var before, tries := View(), net.tries;
        CheckAllStep(info, before, now, net.takes, tries);
        deadline, again := CheckPass(net, now);
        ghost var p := CheckOnce(info, before, now, net.takes(tries));
        ghost var more := if p.frame.Some? && net.takes(tries) then [p.frame.value] else [];
        FramesAppend(info.id, sent, more);
        if again {
          Prepended(sent, more, CheckAll(info, View(), now, net.takes, net.tries));
        }
        sent := sent + more;
      }
      nextMs' := Sooner(nextMs, deadline);
    }

    /** An acknowledgement for this queue arrives. */
    method RecvAck(ackNum: byte)
      requires Valid()
      modifies this, ring`head, ring`count
      ensures Valid() && View() == QueueV1.RecvAck(old(View()), ackNum) && ring.entries == old(ring.entries)
    {
      hide Ring.Contents;
      if ring.count == 0 {
        return;
      }
      var entry := ring.entries[ring.head];
      assert entry == View().items[0];
      if !entry.waitingAck || entry.num != ackNum {
        return;
      }
      PopNotified(AckReceived);
    }

    /** Cancels every entry. */
    method Stop()
      requires Valid()
      modifies `log, ring`head, ring`tail, ring`count
      ensures Valid() && View() == QueueV1.Stop(old(View())) && ring.entries == old(ring.entries)
    {
      ghost var items := ring.Contents();
      var pos := ring.head;
      for i := 0 to ring.count
        invariant Valid() && ring.Contents() == items
        invariant i < ring.count ==> pos == ring.Wrap(ring.head + i, ring.entries.Length)
        invariant log == old(log) + CancelItems(items)[..i]
      {
        assert ring.entries[pos] == items[i];
        log := log + [Event(ring.entries[pos].userdata, Canceled, 0, true)];
        assert CancelItems(items)[..i + 1] == CancelItems(items)[..i] + [CancelItems(items)[i]];
        pos := pos + 1;
        if pos >= ring.entries.Length {
          pos := 0;
        }
      }
      assert CancelItems(items)[..ring.count] == CancelItems(items);
      ring.Clear();
    }
  }

  lemma SameLimit(q: QueueInfo, request: Request, userdata: int)
    ensures NewItem(q.(overwrite := true), request, userdata) == NewItem(q, request, userdata)
  {
  }

  /** What is sent does not depend on the oldest entry before its flags were changed. */
  lemma TransmitSame(q: QueueInfo, tx: Tx, e: Item, now: nat, ok: bool)
    requires tx.items != []
    ensures Transmit(q, tx.(items := tx.items[0 := e]), e, now, ok) == Transmit(q, tx, e, now, ok)
    ensures Transmit(q, tx, e, now, ok).frame.Some?
  {
    var num := if e.retryCount == 0 then NextNum(tx.num) else tx.num;
    var e' := e.(num := num, waitingAck := true, sentTs := now);
    assert tx.items[0 := e][1..] == tx.items[1..];
    assert tx.items[0 := e][0 := e] == tx.items[0 := e];
    assert tx.items[0 := e][0 := e'] == tx.items[0 := e'];
  }

  // ----- The checking loop -----

  lemma CheckAllStep(q: QueueInfo, tx: Tx, now: nat, takes: nat -> bool, tries: nat)
    ensures var p := CheckOnce(q, tx, now, takes(tries));
      var tries' := if p.frame.Some? then tries + 1 else tries;
      var sent := if p.frame.Some? && takes(tries) then [p.frame.value] else [];
      && (p.again ==> |p.tx.items| < |tx.items|)
      && CheckAll(q, tx, now, takes, tries) ==
        if p.again then Prepend(sent, CheckAll(q, p.tx, now, takes, tries')) else Checked(p.tx, sent, tries', p.deadline)
  {
  }

  lemma FramesAppend(id: byte, a: seq<Frame>, b: seq<Frame>)
    ensures FramesOf(id, a + b) == FramesOf(id, a) + FramesOf(id, b)
    ensures FramesOf(id, []) == []
    ensures |b| == 1 ==> FramesOf(id, b) == [(id, b[0])]
  {
  }

  // ----- Reception -----

  /** The reception state of every queue identifier, and the commands given to the application with
      the queue that they came from. */
  class Receiver {
    const net: Transport<(byte, Frame)>
    /** Added to the identifier of a queue to get that of its acknowledgements. */
    const ackoff: byte
    const recvSeq: array<byte>
    /** Whether the transport is still there: not after the stop. */
    var open: bool
    var nextAckSeq: byte
    var received: seq<(byte, seq<byte>)>

    constructor (net: Transport<(byte, Frame)>, ackoff: byte)
      ensures this.net == net && this.ackoff == ackoff && open && nextAckSeq == 0
      ensures fresh(recvSeq) && recvSeq.Length == 256 && received == []
      ensures forall id :: 0 <= id < 256 ==> recvSeq[id] == 0xFF
    {
      this.net, this.ackoff := net, ackoff;
      open, nextAckSeq, received := true, 0, [];
      recvSeq := new byte[256](_ => 0xFF);
    }

    /** From then on nothing is processed. */
    method Stop()
      modifies `open
      ensures !open
    {
      open := false;
    }

    /** Acknowledges a data frame, whatever becomes of it. */
    method SendAck(id: byte, num: byte)
      modifies `nextAckSeq, net
      ensures nextAckSeq == NextNum(old(nextAckSeq)) && net.tries == old(net.tries) + 1
      ensures net.sent == old(net.sent) +
        if net.takes(old(net.tries)) then [AckOf(id, ackoff, old(nextAckSeq), num)] else []
    {
      var ok := net.SendData(AckOf(id, ackoff, nextAckSeq, num));
      nextAckSeq := NextNum(nextAckSeq);
    }

    /** A data frame arrives: nothing happens after the stop; otherwise it is acknowledged on a queue
        with acknowledgements, and what happens for its identifier is what `SystemV1.Receive` says,
        while nothing changes for the others. */
    method RecvDataFrame(ack: bool, id: byte, num: byte, payload: seq<byte>) returns (res: Errno)
      requires recvSeq.Length == 256
      modifies recvSeq, `received, `nextAckSeq, net
      ensures !open ==>
        && res == EPipe && recvSeq[..] == old(recvSeq[..]) && received == old(received)
        && nextAckSeq == old(nextAckSeq) && net.sent == old(net.sent) && net.tries == old(net.tries)
      ensures open ==>
        && nextAckSeq == (if ack then NextNum(old(nextAckSeq)) else old(nextAckSeq))
        && net.tries == old(net.tries) + (if ack then 1 else 0)
        && net.sent == old(net.sent) +
          if ack && net.takes(old(net.tries)) then [AckOf(id, ackoff, old(nextAckSeq), num)] else []
      ensures open ==>
        var process := ShouldProcess(old(recvSeq[id]), num);
        && recvSeq[..] == old(recvSeq[..])[id as int := if process then num else old(recvSeq[id])]
        && received == old(received) + (if process && HeaderOk(payload) then [(id, payload)] else [])
        && res == if process && !HeaderOk(payload) then EInval else Success
    {
      if !open {
        return EPipe;
      }
      if ack {
        SendAck(id, num);
      }
      var diff := num as int - recvSeq[id] as int;
      res := Success;
      if diff > 0 || diff < -10 {
        recvSeq[id] := num;
        if HeaderOk(payload) {
          received := received + [(id, payload)];
        } else {
          res := EInval;
        }
      }
    }
  }

  /** The acknowledgement of the frame `num` of the queue `id`: its payload is that number. */
  function AckOf(id: byte, ackoff: byte, ackSeq: byte, num: byte): (byte, Frame) {
    (((id as int + ackoff as int) % 256) as byte, Frame(ackSeq, [num]))
  }
}
