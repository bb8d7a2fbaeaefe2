/** The transmit queues of version 2 of the command interface, in place, over circular buffers, and
    its reception. Every method is proved to do what `QueueV2`, `PackV2` and `SystemV2` say. */
module TxQueueV2 {
  import opened Bytes
  import opened Commands
  import opened RingBuffer
  import opened PackV2
  import opened StopAndWait
  import opened QueueV2
  import opened TransportLayer

  datatype PackInfo = PackInfo(buf: seq<byte>, cmdCount: nat, num: u16, waitingAck: bool, sentTs: nat, sentCount: nat)

  datatype LastPack = LastPack(num: u16, sentCount: nat, ackCount: nat)

  class TxQueue {
    const info: QueueInfo
    const ring: Ring<Entry>
    var num: u16
    /** The current pack. */
    var pack: PackInfo
    /** The last pack acknowledged. */
    var lastPack: LastPack
    /** The status callbacks made so far. */
    var log: seq<Event>

    ghost predicate Valid()
      reads this, ring
    {
      ring.Valid()
    }

    /** The queue as a value. */
    ghost function View(): Tx
      requires Valid()
      reads this, ring, ring.entries
    {
      Tx(ring.Contents(), num,
         pack.buf, pack.cmdCount, pack.num, pack.waitingAck, pack.sentTs, pack.sentCount,
         lastPack.num, lastPack.sentCount, lastPack.ackCount, log)
    }

    /** The queue is empty, as after a stop, or it is consistent. */
    ghost predicate Ready()
      reads this, ring, ring.entries
    {
      Valid() && (View().entries == [] || Consistent(info, View()))
    }

    constructor (info: QueueInfo)
      ensures Valid() && this.info == info && View() == NEW_TX && Consistent(info, View())
      ensures fresh(ring) && fresh(ring.entries)
    {
      this.info := info;
      ring := new Ring<Entry>();
      num := 0xFFFF;
      pack := PackInfo([], 0, 0, false, 0, 0);
      lastPack := LastPack(0xFFFF, 0, 0);
      log := [];
      new;
      assert Cmds([])[..0] == [];
    }

    method Add(cmd: Cmd, userdata: int)
      requires Valid()
      modifies ring, ring.entries
      ensures Valid() && View() == QueueV2.Add(old(View()), Entry(cmd, userdata))
      ensures ring.entries == old(ring.entries) || fresh(ring.entries)
    {
      ring.Add(Entry(cmd, userdata));
    }

    /** Packs as many of the pending commands as possible. */
    method PackCmds()
      requires Valid() && pack.cmdCount == 0
      modifies `pack
      ensures Valid() && View() == QueueV2.PackCmds(old(View()))
    {
      hide Encode, PackCount, Ring.Contents;
      ghost var cmds, buf0 := Cmds(ring.Contents()), pack.buf;
      PackingStart(cmds, buf0);
      var packLen: nat := 0;
      var i := ring.head;
      while i != ring.tail
        invariant Valid() && pack.cmdCount <= ring.count
        invariant pack == old(pack).(buf := pack.buf, cmdCount := pack.cmdCount)
        invariant i == ring.Wrap(ring.head + pack.cmdCount, ring.entries.Length)
        invariant pack.buf == buf0 + Encode(cmds[..pack.cmdCount])
        invariant PackCount(cmds, 0) == pack.cmdCount + PackCount(cmds[pack.cmdCount..], packLen)
        decreases ring.count - pack.cmdCount
      {
        var cmdData: seq<byte> := ring.entries[i].cmd;
        assert ring.entries[i] == ring.Contents()[pack.cmdCount];
        PackingTurn(cmds, pack.cmdCount, packLen, buf0);
        packLen := packLen + |cmdData| + 2;
        if packLen > PACK_MAX {
          break;
        }
        ring.NextIsNext(i, pack.cmdCount);
        pack := pack.(buf := pack.buf + LittleEndian(|cmdData|, 2) + cmdData, cmdCount := pack.cmdCount + 1);
        i := ring.Next(i, ring.entries.Length);
      }
      PackingEnd(cmds, pack.cmdCount, packLen);
    }

    /** Makes a new pack with the next sequence number if there is none. */
    method NextPack()
      requires Valid()
      modifies this
      ensures Valid()
      ensures View() == var tx := old(View());
        if tx.cmdCount == 0 then QueueV2.PackCmds(tx.(num := NextSeq(tx.num))) else tx
    {
      hide QueueV2.PackCmds;
      if pack.cmdCount == 0 {
        num := NextSeq(num);
        PackCmds();
      }
    }

    /** Whether to wait for an acknowledgement; when its delay is over it is no longer waited for. */
    method AwaitAck(now: nat) returns (left: int)
      requires Valid()
      modifies `pack
      ensures Valid() && left == (if old(pack.waitingAck) then Remaining(info.ackTimeoutMs, old(pack.sentTs), now) else 0)
      ensures View() == if left <= 0 && old(pack.waitingAck) then old(View()).(waitingAck := false, sentTs := 0) else old(View())
    {
      left := 0;
      if pack.waitingAck {
        left := Remaining(info.ackTimeoutMs, pack.sentTs, now);
        if left <= 0 {
          pack := pack.(waitingAck := false, sentTs := 0);
        }
      }
    }

    /** Notifies each command of the pack that was sent. */
    method NotifyPacked()
      requires Valid() && pack.cmdCount <= ring.count
      modifies `log
      ensures Valid() && View() == var tx := old(View());
        tx.(log := tx.log + PackedEvents(tx.entries, tx.cmdCount, !info.ack))
    {
      hide Ring.Contents, PackedEvents;
      ghost var entries := ring.Contents();
      PackedEventsStart(entries, !info.ack);
      ghost var k: nat := 0;
      var i := ring.head;
      var end := if pack.cmdCount == 0 then ring.head else ring.Wrap(ring.head + pack.cmdCount, ring.entries.Length);
      while i != end
        invariant k <= pack.cmdCount && (pack.cmdCount == 0 ==> k == 0 && i == ring.head)
        invariant pack.cmdCount > 0 ==> i == ring.Wrap(ring.head + k, ring.entries.Length)
        invariant Valid() && log == old(log) + PackedEvents(entries, k, !info.ack)
        decreases pack.cmdCount - k
      {
        assert ring.entries[i] == entries[k];
        PackedEventsStep(entries, k, !info.ack);
        ring.NextIsNext(i, k);
        log := log + [Event(ring.entries[i].userdata, Packed, 0, !info.ack)];
        i := ring.Next(i, ring.entries.Length);
        k := k + 1;
      }
    }

    /** The transport has taken a pack that is to be acknowledged. */
    method SentWithAck(now: nat)
      requires Valid()
      modifies this
      ensures Valid() && View() == var tx := old(View());
        tx.(packNum := tx.num, waitingAck := true, sentTs := now, sentCount := tx.sentCount + 1)
    {
      pack := pack.(num := num, waitingAck := true, sentTs := now, sentCount := pack.sentCount + 1);
    }

    /** The transport has taken a pack that is not acknowledged: its commands leave the queue. */
    method SentNoAck()
      requires Valid() && pack.cmdCount <= ring.count
      modifies this, ring`head, ring`count
      ensures Valid() && ring.entries == old(ring.entries)
      ensures View() == var tx := old(View());
        tx.(entries := tx.entries[tx.cmdCount..], buf := [], cmdCount := 0)
    {
      hide Ring.Contents, Ring.Wrap;
      ring.PopMany(pack.cmdCount);
      pack := pack.(buf := [], cmdCount := 0);
    }

    /** Looks at the queue once: waits, or transmits the current pack. */
    method CheckPass(net: Transport<Packet>, now: nat) returns (deadline: Option<int>, again: bool)
      requires Ready()
      modifies this, ring`head, ring`count, net
      ensures Valid() && ring.entries == old(ring.entries)
      ensures var p := CheckOnce(info, old(View()), now, net.takes(old(net.tries)));
        && View() == p.tx && deadline == p.deadline && again == p.again
        && net.tries == old(net.tries) + (if p.frame.Some? then 1 else 0)
        && net.sent == old(net.sent) +
          (if p.frame.Some? && net.takes(old(net.tries)) then [QueuePacket(info, p.frame.value)] else [])
    {
      hide QueueV2.PackCmds, Remaining, Encode, PackedEvents;
      deadline, again := None, false;
      if ring.count == 0 {
        return;
      }
      var left := AwaitAck(now);
      if left > 0 {
        return Some(left), false;
      }
      NextPack();
      var ok := net.SendData(QueuePacket(info, Frame(num, pack.buf)));
      if !ok {
        return;
      }
      NotifyPacked();
      if info.ack {
        SentWithAck(now);
        if info.ackTimeoutMs > 0 {
          deadline := Some(info.ackTimeoutMs);
        }
      } else {
        SentNoAck();
        again := true;
      }
    }

    /** Looks at the queue until there is nothing to do at once, and returns the shorter of the
        delay given and its own. */
    method CheckTxQueue(net: Transport<Packet>, now: nat, nextMs: int) returns (nextMs': int)
      requires Ready() && Ends(info, View())
      modifies this, ring`head, ring`count, net
      ensures Ready() && ring.entries == old(ring.entries)
      ensures var c := CheckAll(info, old(View()), now, net.takes, old(net.tries));
        && View() == c.tx && net.tries == c.tries && net.sent == old(net.sent) + Packets(info, c.sent)
        && nextMs' == Sooner(nextMs, c.deadline)
    {
      hide CheckOnce, Consistent, CheckAll, Packets, TxQueue.View;
      ghost var sent: seq<Frame> := [];
      ghost var all := CheckAll(info, View(), now, net.takes, net.tries);
      PacketsAppend(info, sent, sent);
      Prepended(sent, sent, all);
      var again := true;
      var deadline := None;
      while again
        invariant Ready() && ring.entries == old(ring.entries)
        invariant net.sent == old(net.sent) + Packets(info, sent)
        invariant again ==>
          Ends(info, View()) && all == Prepend(sent, CheckAll(info, View(), now, net.takes, net.tries))
        invariant !again ==> all == Checked(View(), sent, net.tries, deadline)
        decreases again, |View().entries|
      {
        ghost var before, tries := View(), net.tries;
        ReadyAfter(info, before, now, net.takes(tries));
        CheckAllStep(info, before, now, net.takes, tries);
        deadline, again := CheckPass(net, now);
        ghost var p := CheckOnce(info, before, now, net.takes(tries));
        ghost var more := if p.frame.Some? && net.takes(tries) then [p.frame.value] else [];
        PacketsAppend(info, sent, more);
        if again {
          Prepended(sent, more, CheckAll(info, View(), now, net.takes, net.tries));
        }
        sent := sent + more;
      }
      nextMs' := Sooner(nextMs, deadline);
    }

    /** Notifies and pops the `n` oldest commands. */
    method PopAcked(n: nat)
      requires Valid() && n <= ring.count
      modifies `log, ring`head, ring`count
      ensures Valid() && ring.entries == old(ring.entries)
      ensures View() == var tx := old(View());
        tx.(entries := tx.entries[n..], log := tx.log + AckEvents(tx.entries, n, 0))
    {
      hide Ring.Contents, AckEvents;
      ghost var entries, log0 := ring.Contents(), log;
      AckEventsStart(entries, 0);
      for k := 0 to n
        invariant Valid() && ring.entries == old(ring.entries) && ring.Contents() == entries[k..]
        invariant log == log0 + AckEvents(entries, k, 0)
      {
        var entry := ring.entries[ring.head];
        DropOne(entries, k);
        AckEventsStep(entries, k, 0);
        assert entry == ring.Contents()[0];
        ring.Pop();
        log := log + [Event(entry.userdata, AckReceived, 0, true)];
      }
    }

    /** An acknowledgement for this queue arrives. */
    method RecvAck(ackNum: u16)
      requires Ready()
      modifies this, ring`head, ring`count
      ensures Valid() && View() == QueueV2.RecvAck(info, old(View()), ackNum) && ring.entries == old(ring.entries)
    {
      hide Encode, AckEvents;
      if ackNum == lastPack.num {
        lastPack := lastPack.(ackCount := lastPack.ackCount + 1);
        return;
      } else if ackNum != num {
        return;
      }
      if !pack.waitingAck || ring.count == 0 {
        return;
      }
      PopAcked(pack.cmdCount);
      lastPack := LastPack(num, pack.sentCount, 1);
      pack := pack.(buf := [], cmdCount := 0, sentCount := 0);
    }

    /** Cancels every entry. */
    method Stop()
      requires Valid()
      modifies `log, ring`head, ring`tail, ring`count
      ensures Valid() && View() == QueueV2.Stop(old(View())) && ring.entries == old(ring.entries)
    {
      ghost var entries := ring.Contents();
      var pos := ring.head;
      for i := 0 to ring.count
        invariant Valid() && ring.Contents() == entries
        invariant i < ring.count ==> pos == ring.Wrap(ring.head + i, ring.entries.Length)
        invariant log == old(log) + CancelEvents(entries)[..i]
      {
        assert ring.entries[pos] == entries[i];
        log := log + [Event(ring.entries[pos].userdata, Canceled, 0, true)];
        assert CancelEvents(entries)[..i + 1] == CancelEvents(entries)[..i] + [CancelEvents(entries)[i]];
        pos := pos + 1;
        if pos >= ring.entries.Length {
          pos := 0;
        }
      }
      assert CancelEvents(entries)[..ring.count] == CancelEvents(entries);
      ring.Clear();
    }
  }

  // ----- The packing loop -----

  lemma PackingStart(cmds: seq<Cmd>, buf: seq<byte>)
    ensures buf + Encode(cmds[..0]) == buf && cmds[0..] == cmds
  {
  }

  /** One turn of the loop: it ends, or takes the next command. */
  lemma PackingTurn(cmds: seq<Cmd>, k: nat, packLen: nat, buf: seq<byte>)
    requires k < |cmds|
    ensures packLen + |cmds[k]| + 2 > PACK_MAX ==> PackCount(cmds[k..], packLen) == 0
    ensures packLen + |cmds[k]| + 2 <= PACK_MAX ==>
      PackCount(cmds[k..], packLen) == 1 + PackCount(cmds[k + 1..], packLen + |cmds[k]| + 2)
    ensures buf + Encode(cmds[..k + 1]) == buf + Encode(cmds[..k]) + LittleEndian(|cmds[k]|, 2) + cmds[k]
  {
    assert cmds[k..][1..] == cmds[k + 1..];
    assert cmds[..k + 1] == cmds[..k] + [cmds[k]];
    EncodeAppend(cmds[..k], [cmds[k]]);
    assert Encode([cmds[k]]) == LittleEndian(|cmds[k]|, 2) + cmds[k];
  }

  lemma PackingEnd(cmds: seq<Cmd>, k: nat, packLen: nat)
    requires k <= |cmds|
    ensures k == |cmds| ==> PackCount(cmds[k..], packLen) == 0
  {
  }

  lemma {:induction false} EncodeAppend(a: seq<seq<byte>>, b: seq<seq<byte>>)
    ensures Encode(a + b) == Encode(a) + Encode(b)
  {
    if a == [] {
      assert a + b == b;
    } else {
      assert (a + b)[1..] == a[1..] + b;
      EncodeAppend(a[1..], b);
    }
  }

  lemma PackedEventsStart(entries: seq<Entry>, done: bool)
    ensures PackedEvents(entries, 0, done) == []
  {
  }

  lemma PackedEventsStep(entries: seq<Entry>, k: nat, done: bool)
    requires k < |entries|
    ensures PackedEvents(entries, k + 1, done) == PackedEvents(entries, k, done) + [Event(entries[k].userdata, Packed, 0, done)]
  {
  }

  // ----- The checking loop -----

  lemma CheckAllStep(q: QueueInfo, tx: Tx, now: nat, takes: nat -> bool, tries: nat)
    requires (tx.entries == [] || Consistent(q, tx)) && Ends(q, tx)
    ensures var p := CheckOnce(q, tx, now, takes(tries));
      var tries' := if p.frame.Some? then tries + 1 else tries;
      var sent := if p.frame.Some? && takes(tries) then [p.frame.value] else [];
      && (p.tx.entries == [] || Consistent(q, p.tx)) && (p.again ==> Ends(q, p.tx))
      && CheckAll(q, tx, now, takes, tries) ==
        if p.again then Prepend(sent, CheckAll(q, p.tx, now, takes, tries')) else Checked(p.tx, sent, tries', p.deadline)
  {
    hide Consistent, CheckOnce, Ends;
    ReadyAfter(q, tx, now, takes(tries));
  }

  // ----- Reception -----

  /** The reception state of every queue identifier, and the commands given to the application with
      the queue that they came from. */
  class Receiver {
    const net: Transport<Packet>
    /** Added to the identifier of a queue to get that of its acknowledgements. */
    const ackoff: byte
    const recvSeq: array<u16>
    /** Whether the transport is still there: not after the stop. */
    var open: bool
    var nextAckSeq: u16
    var received: seq<(byte, seq<byte>)>

    constructor (net: Transport<Packet>, ackoff: byte)
      ensures this.net == net && this.ackoff == ackoff && open && nextAckSeq == 0
      ensures fresh(recvSeq) && recvSeq.Length == 256 && received == []
      ensures forall id :: 0 <= id < 256 ==> recvSeq[id] == 0xFFFF
    {
      this.net, this.ackoff := net, ackoff;
      open, nextAckSeq, received := true, 0, [];
      recvSeq := new u16[256](_ => 0xFFFF);
    }

    /** From then on nothing is processed. */
    method Stop()
      modifies `open
      ensures !open
    {
      open := false;
    }

    /** Unpacks each command of a payload and gives it to the application. */
    method UnpackCmds(id: byte, payload: seq<byte>) returns (res: Errno)
      modifies `received
      ensures received == old(received) + Tagged(id, Unpack(payload).delivered) && res == Unpack(payload).res
    {
      hide UnpackLoop, Tagged;
      TaggedAppend(id, [], []);
      if payload == [] {
        return EInval;
      }
      res := Success;
      var data := payload;
      ghost var all := UnpackLoop(data, res);
      ghost var done: seq<seq<byte>> := [];
      LoopTurn(data, res, done);
      while |data| >= 2
        invariant received == old(received) + Tagged(id, done)
        invariant all == After(done, UnpackLoop(data, res))
        decreases |data|
      {
        LoopTurn(data, res, done);
        var cmdSize := FromLittleEndian(data[..2]);
        data := data[2..];
        if cmdSize > |data| {
          return EProto;
        }
        var cmd := data[..cmdSize];
        data := data[cmdSize..];
        TaggedAppend(id, done, [cmd]);
        TaggedOne(id, cmd);
        if HeaderOk(cmd) {
          received := received + [(id, cmd)];
          res := Success;
          done := done + [cmd];
        } else {
          res := EInval;
        }
      }
      LoopTurn(data, res, done);
    }

    /** Acknowledges a data frame, whatever becomes of it. */
    method SendAck(id: byte, num: u16)
      modifies `nextAckSeq, net
      ensures nextAckSeq == NextSeq(old(nextAckSeq)) && net.tries == old(net.tries) + 1
      ensures net.sent == old(net.sent) +
        if net.takes(old(net.tries)) then [AckPacket(id, ackoff, old(nextAckSeq), num)] else []
    {
      var ok := net.SendData(AckPacket(id, ackoff, nextAckSeq, num));
      nextAckSeq := NextSeq(nextAckSeq);
    }

    /** A data frame arrives: nothing happens after the stop; otherwise it is acknowledged on an
        acknowledged queue, and what happens for its identifier is what `SystemV2.Receive` says, while
        nothing changes for the others. */
    method RecvDataFrame(dataType: DataType, id: byte, num: u16, payload: seq<byte>) returns (res: Errno)
      requires recvSeq.Length == 256 && dataType != Ack
      modifies recvSeq, `received, `nextAckSeq, net
      ensures !open ==>
        && res == EPipe && recvSeq[..] == old(recvSeq[..]) && received == old(received)
        && nextAckSeq == old(nextAckSeq) && net.sent == old(net.sent) && net.tries == old(net.tries)
      ensures open ==>
        && nextAckSeq == (if dataType == WithAck then NextSeq(old(nextAckSeq)) else old(nextAckSeq))
        && net.tries == old(net.tries) + (if dataType == WithAck then 1 else 0)
        && net.sent == old(net.sent) +
          if dataType == WithAck && net.takes(old(net.tries)) then [AckPacket(id, ackoff, old(nextAckSeq), num)] else []
      ensures open ==>
        var process := ShouldProcess(old(recvSeq[id]), num);
        && recvSeq[..] == old(recvSeq[..])[id as int := if process then num else old(recvSeq[id])]
        && received == old(received) + (if process then Tagged(id, Unpack(payload).delivered) else [])
        && res == if process then Unpack(payload).res else Success
    {
      hide Unpack, Tagged, AckPacket;
      if !open {
        return EPipe;
      }
      if dataType == WithAck {
        SendAck(id, num);
      }
      var diff := num - recvSeq[id];
      if diff > 0 || diff < -10 {
        recvSeq[id] := num;
        res := UnpackCmds(id, payload);
      } else {
        res := Success;
      }
    }
  }

  /** A result with commands delivered before. */
  ghost function After(done: seq<seq<byte>>, u: Unpacked): Unpacked {
    u.(delivered := done + u.delivered)
  }

  lemma LoopTurn(data: seq<byte>, res: Errno, done: seq<seq<byte>>)
    ensures After([], UnpackLoop(data, res)) == UnpackLoop(data, res)
    ensures |data| < 2 ==> After(done, UnpackLoop(data, res)) == Unpacked(done, res)
    ensures |data| >= 2 ==>
      var size := FromLittleEndian(data[..2]);
      var rest := data[2..];
      && (size > |rest| ==> After(done, UnpackLoop(data, res)) == Unpacked(done, EProto))
      && (size <= |rest| ==>
        var cmd := rest[..size];
        After(done, UnpackLoop(data, res)) ==
          After(if HeaderOk(cmd) then done + [cmd] else done, UnpackLoop(rest[size..], if HeaderOk(cmd) then Success else EInval)))
  {
    if |data| >= 2 {
      var size := FromLittleEndian(data[..2]);
      if size <= |data| - 2 {
        var cmd := data[2..][..size];
        assert data[2..2 + size] == cmd && data[2 + size..] == data[2..][size..];
        var next := UnpackLoop(data[2 + size..], if HeaderOk(cmd) then Success else EInval);
        assert done + ([cmd] + next.delivered) == (done + [cmd]) + next.delivered;
        assert done + ([] + next.delivered) == done + next.delivered;
      }
    }
  }
}
