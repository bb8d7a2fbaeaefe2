/** The transmit queues of version 3 of the command interface, in place, over circular buffers.
    Every method is proved to do what `QueueV3` and `PackV3` say. */
module TxQueueV3 {
  import opened Bytes
  import opened Commands
  import opened RingBuffer
  import opened PackV3
  import opened StopAndWait
  import opened QueueV3
  import opened TransportLayer

  datatype PackInfo = PackInfo(buf: seq<byte>, cmdCount: nat, rem: nat, num: u16,
                               waitingAck: bool, sentTs: nat, sentCount: nat)

  datatype LastPack = LastPack(num: u16, sentCount: nat, ackCount: nat, rem: nat)

  class TxQueue {
    const info: QueueInfo
    const ring: Ring<Entry>
    var num: u16
    var lastSentTs: nat
    /** The current pack. */
    var pack: PackInfo
    /** The last pack acknowledged. */
    var lastPack: LastPack
    /** The status callbacks made so far. */
    var log: seq<Event>

    ghost predicate Valid()
      reads this, ring
    {
      ring.Valid()
    }

    /** The queue as a value. */
    ghost function View(): Tx
      requires Valid()
      reads this, ring, ring.entries
    {
      Tx(ring.Contents(), num, lastSentTs,
         pack.buf, pack.cmdCount, pack.rem, pack.num, pack.waitingAck, pack.sentTs, pack.sentCount,
         lastPack.num, lastPack.sentCount, lastPack.ackCount, lastPack.rem, log)
    }

    /** The queue is empty, as after a stop, or it is consistent. */
    ghost predicate Ready()
      reads this, ring, ring.entries
    {
      Valid() && (View().entries == [] || Consistent(info, View()))
    }

    constructor (info: QueueInfo)
      ensures Valid() && this.info == info && View() == NEW_TX && Consistent(info, View())
      ensures fresh(ring) && fresh(ring.entries)
    {
      this.info := info;
      ring := new Ring<Entry>();
      num, lastSentTs := 0xFFFF, 0;
      pack := PackInfo([], 0, 0, 0, false, 0, 0);
      lastPack := LastPack(0xFFFF, 0, 0, 0);
      log := [];
    }

    method Add(cmd: Cmd, userdata: int)
      requires Valid()
      modifies ring, ring.entries
      ensures Valid() && View() == QueueV3.Add(old(View()), Entry(cmd, userdata))
      ensures ring.entries == old(ring.entries) || fresh(ring.entries)
    {
      ring.Add(Entry(cmd, userdata));
    }

    /** Packs one command after `packLen` bytes: as much of it as the queue may put in the pack.
        Returns the new length, and whether the packing goes on. */
    method PackEntry(entry: Entry, packLen: nat) returns (packLen': nat, more: bool)
      requires Valid() && pack.rem == 0 && packLen <= PACK_MAX
      requires pack.cmdCount == 0 ==> lastPack.rem <= |entry.cmd| && packLen == 0
      modifies `pack, `log
      ensures Valid() && Turn(View(), packLen', more) == PackTurn(info, old(View()), entry, packLen)
    {
      hide WriteVarint, Ring.Contents;
      var cmdData: seq<byte> := entry.cmd;
      var size := [];
      packLen' := packLen;
      if pack.cmdCount == 0 && lastPack.rem != 0 {
        cmdData := cmdData[|cmdData| - lastPack.rem..];
      } else {
        size := WriteVarint(|cmdData|);
        packLen' := packLen' + |size|;
        if packLen' > PACK_MAX {
          return packLen', false;
        }
      }
      packLen' := packLen' + |cmdData|;
      if packLen' > PACK_MAX && !info.ack {
        pack := pack.(buf := pack.buf + size);
        return packLen', false;
      }
      var cut := if packLen' > PACK_MAX then packLen' - PACK_MAX else 0;
      var status := if cut > 0 then PartiallyPacked else Packed;
      PutPacked(size + cmdData[..|cmdData| - cut], cut, Event(entry.userdata, status, num, !info.ack && status == Packed));
      more := cut == 0;
    }

    /** Appends the bytes of one command to the pack, and notifies it. */
    method PutPacked(bytes: seq<byte>, rem: nat, event: Event)
      requires Valid()
      modifies `pack, `log
      ensures Valid() && View() == var tx := old(View());
        tx.(buf := tx.buf + bytes, cmdCount := tx.cmdCount + 1, rem := rem, log := tx.log + [event])
    {
      pack := pack.(buf := pack.buf + bytes, cmdCount := pack.cmdCount + 1, rem := rem);
      log := log + [event];
    }

    /** Packs as many of the pending commands as possible, cutting the last one on an acknowledged
        queue, and notifies them. */
    method PackCmds()
      requires Valid() && pack.cmdCount == 0 && pack.rem == 0
      requires ValidRem(Cmds(View().entries), lastPack.rem) && (!info.ack ==> lastPack.rem == 0)
      modifies `pack, `log
      ensures Valid() && View() == QueueV3.PackCmds(info, old(View()))
    {
      hide QueueV3.PackCmds, PackTurn, Packing, PackEvents;
      ghost var tx0 := View();
      PackingStart(info, tx0);
      var packLen: nat := 0;
      var i := ring.head;
      while i != ring.tail
        invariant Valid() && pack.cmdCount <= ring.count
        invariant i == ring.Wrap(ring.head + pack.cmdCount, ring.entries.Length)
        invariant Packing(info, tx0, View(), packLen)
        decreases ring.count - pack.cmdCount
      {
        var entry := ring.entries[i];
        assert entry == View().entries[pack.cmdCount];
        PackingTurn(info, tx0, View(), packLen);
        var more;
        packLen, more := PackEntry(entry, packLen);
        if !more {
          return;
        }
        ring.NextIsNext(i, pack.cmdCount - 1);
        i := ring.Next(i, ring.entries.Length);
      }
      PackingEnd(info, tx0, View(), packLen);
    }

    /** Whether to wait for an acknowledgement; when its delay is over it is no longer waited for. */
    method AwaitAck(now: nat) returns (left: int)
      requires Valid()
      modifies `pack
      ensures Valid() && left == (if old(pack.waitingAck) then Remaining(info.ackTimeoutMs, old(pack.sentTs), now) else 0)
      ensures View() == if left <= 0 && old(pack.waitingAck) then old(View()).(waitingAck := false, sentTs := 0) else old(View())
    {
      left := 0;
      if pack.waitingAck {
        left := Remaining(info.ackTimeoutMs, pack.sentTs, now);
        if left <= 0 {
          pack := pack.(waitingAck := false, sentTs := 0);
        }
      }
    }

    /** Makes a new pack with the next sequence number if there is none. */
    method NextPack()
      requires Valid() && Consistent(info, View())
      modifies this
      ensures Valid()
      ensures View() == var tx := old(View());
        if tx.cmdCount == 0 then QueueV3.PackCmds(info, tx.(num := NextSeq(tx.num))) else tx
    {
      hide QueueV3.PackCmds;
      if pack.cmdCount == 0 {
        num := NextSeq(num);
        PackCmds();
      }
    }

    /** The transport has taken a pack that is to be acknowledged. */
    method SentWithAck(now: nat)
      requires Valid()
      modifies this
      ensures Valid()
      ensures View() == var tx := old(View());
        tx.(lastSentTs := now, packNum := tx.num, waitingAck := true, sentTs := now, sentCount := tx.sentCount + 1)
    {
      pack := pack.(num := num, waitingAck := true, sentTs := now, sentCount := pack.sentCount + 1);
      lastSentTs := now;
    }

    /** The transport has taken a pack that is not acknowledged: its commands leave the queue. */
    method SentNoAck(now: nat)
      requires Valid() && pack.cmdCount <= ring.count
      modifies this, ring`head, ring`count
      ensures Valid() && ring.entries == old(ring.entries)
      ensures View() == var tx := old(View());
        tx.(lastSentTs := now, entries := tx.entries[tx.cmdCount..], buf := [], cmdCount := 0)
    {
      hide Ring.Contents, Ring.Wrap;
      ghost var tx := View();
      ring.PopMany(pack.cmdCount);
      pack := pack.(buf := [], cmdCount := 0);
      lastSentTs := now;
      assert ring.Contents() == tx.entries[tx.cmdCount..];
    }

    /** Looks at the queue once: waits, or transmits the current pack. */
    method CheckPass(net: Transport<Packet>, now: nat) returns (deadline: Option<int>, again: bool)
      requires Ready()
      modifies this, ring`head, ring`count, net
      ensures Valid() && ring.entries == old(ring.entries)
      ensures var p := CheckOnce(info, old(View()), now, net.takes(old(net.tries)));
        && View() == p.tx && deadline == p.deadline && again == p.again
        && net.tries == old(net.tries) + (if p.frame.Some? then 1 else 0)
        && net.sent == old(net.sent) +
          (if p.frame.Some? && net.takes(old(net.tries)) then [QueuePacket(info, p.frame.value)] else [])
    {
      hide QueueV3.PackCmds, Remaining, Encode;
      deadline, again := None, false;
      if ring.count == 0 {
        return;
      }
      var left := AwaitAck(now);
      if left > 0 {
        return Some(left), false;
      }
      if info.maxTxRateMs > 0 {
        left := Remaining(info.maxTxRateMs, lastSentTs, now);
        if left > 0 {
          return Some(left), false;
        }
      }
      NextPack();
      var ok := net.SendData(QueuePacket(info, Frame(num, pack.buf)));
      if !ok {
        return;
      }
      if info.ack {
        SentWithAck(now);
        if info.ackTimeoutMs > 0 {
          deadline := Some(info.ackTimeoutMs);
        }
      } else {
        SentNoAck(now);
        again := true;
      }
    }

    /** Looks at the queue until there is nothing to do at once, and returns the shorter of the
        delay given and its own. */
    method CheckTxQueue(net: Transport<Packet>, now: nat, nextMs: int) returns (nextMs': int)
      requires Ready() && Ends(info, View())
      modifies this, ring`head, ring`count, net
      ensures Ready() && ring.entries == old(ring.entries)
      ensures var c := CheckAll(info, old(View()), now, net.takes, old(net.tries));
        && View() == c.tx && net.tries == c.tries && net.sent == old(net.sent) + Packets(info, c.sent)
        && nextMs' == Sooner(nextMs, c.deadline)
    {
      hide CheckOnce, Consistent, CheckAll, CheckMeasure, Packets;
      ghost var sent: seq<Frame> := [];
      ghost var all := CheckAll(info, View(), now, net.takes, net.tries);
      PacketsAppend(info, sent, sent);
      var again := true;
      var deadline := None;
      while again
        invariant Ready() && ring.entries == old(ring.entries)
        invariant net.sent == old(net.sent) + Packets(info, sent)
        invariant again ==>
          Ends(info, View()) && all == Prepend(sent, CheckAll(info, View(), now, net.takes, net.tries))
        invariant !again ==> all == Checked(View(), sent, net.tries, deadline)
        decreases again, CheckMeasure(info, View(), now).0, CheckMeasure(info, View(), now).1
      {
        ghost var before, tries := View(), net.tries;
        ReadyAfter(info, before, now, net.takes(tries));
        CheckAllStep(info, before, now, net.takes, tries);
        deadline, again := CheckPass(net, now);
        ghost var p := CheckOnce(info, before, now, net.takes(tries));
        ghost var more := if p.frame.Some? && net.takes(tries) then [p.frame.value] else [];
        PacketsAppend(info, sent, more);
        Prepended(sent, more, CheckAll(info, before, now, net.takes, tries));
        if again {
          Prepended(sent, more, CheckAll(info, View(), now, net.takes, net.tries));
        }
        sent := sent + more;
      }
      nextMs' := Sooner(nextMs, deadline);
    }

    /** Notifies and pops the `n` oldest commands. */
    method PopAcked(n: nat, ackNum: u16)
      requires Valid() && n <= ring.count
      modifies `log, ring`head, ring`count
      ensures Valid() && ring.entries == old(ring.entries)
      ensures View() == var tx := old(View());
        tx.(entries := tx.entries[n..], log := tx.log + AckEvents(tx.entries, n, ackNum))
    {
      hide Ring.Contents, AckEvents;
      ghost var entries, log0 := ring.Contents(), log;
      AckEventsStart(entries, ackNum);
      for k := 0 to n
        invariant Valid() && ring.entries == old(ring.entries) && ring.Contents() == entries[k..]
        invariant log == log0 + AckEvents(entries, k, ackNum)
      {
        var entry := ring.entries[ring.head];
        DropOne(entries, k);
        AckEventsStep(entries, k, ackNum);
        assert entry == ring.Contents()[0];
        ring.Pop();
        log := log + [Event(entry.userdata, AckReceived, ackNum, true)];
      }
    }

    /** The current pack is acknowledged. */
    method PackAcked()
      requires Valid()
      modifies this
      ensures Valid()
      ensures View() == var tx := old(View());
        tx.(lastNum := tx.num, lastSentCount := tx.sentCount, lastAckCount := 1, lastRem := tx.rem,
            buf := [], cmdCount := 0, sentCount := 0, rem := 0)
    {
      lastPack := LastPack(num, pack.sentCount, 1, pack.rem);
      pack := pack.(buf := [], cmdCount := 0, sentCount := 0, rem := 0);
    }

    /** An acknowledgement for this queue arrives. */
    method RecvAck(ackNum: u16)
      requires Ready()
      modifies this, ring`head, ring`count
      ensures Valid() && View() == QueueV3.RecvAck(info, old(View()), ackNum) && ring.entries == old(ring.entries)
    {
      hide Encode;
      if ackNum == lastPack.num {
        lastPack := lastPack.(ackCount := lastPack.ackCount + 1);
        return;
      } else if ackNum != num {
        return;
      }
      if !pack.waitingAck || ring.count == 0 {
        return;
      }
      PopAcked(if pack.rem == 0 then pack.cmdCount else pack.cmdCount - 1, ackNum);
      PackAcked();
    }

    /** Cancels every entry. */
    method Stop()
      requires Valid()
      modifies `log, ring`head, ring`tail, ring`count
      ensures Valid() && View() == QueueV3.Stop(old(View())) && ring.entries == old(ring.entries)
    {
      ghost var entries := ring.Contents();
      var pos := ring.head;
      for i := 0 to ring.count
        invariant Valid() && ring.Contents() == entries
        invariant i < ring.count ==> pos == ring.Wrap(ring.head + i, ring.entries.Length)
        invariant log == old(log) + CancelEvents(entries)[..i]
      {
        assert ring.entries[pos] == entries[i];
        log := log + [Event(ring.entries[pos].userdata, Canceled, 0, true)];
        assert CancelEvents(entries)[..i + 1] == CancelEvents(entries)[..i] + [CancelEvents(entries)[i]];
        pos := pos + 1;
        if pos >= ring.entries.Length {
          pos := 0;
        }
      }
      assert CancelEvents(entries)[..ring.count] == CancelEvents(entries);
      ring.Clear();
    }
  }

  // ----- The checking loop -----

  lemma CheckAllStep(q: QueueInfo, tx: Tx, now: nat, takes: nat -> bool, tries: nat)
    requires (tx.entries == [] || Consistent(q, tx)) && Ends(q, tx)
    ensures var p := CheckOnce(q, tx, now, takes(tries));
      var tries' := if p.frame.Some? then tries + 1 else tries;
      var sent := if p.frame.Some? && takes(tries) then [p.frame.value] else [];
      && (p.tx.entries == [] || Consistent(q, p.tx)) && (p.again ==> Ends(q, p.tx))
      && CheckAll(q, tx, now, takes, tries) ==
        if p.again then Prepend(sent, CheckAll(q, p.tx, now, takes, tries')) else Checked(p.tx, sent, tries', p.deadline)
  {
    hide Consistent, CheckOnce, Ends;
    ReadyAfter(q, tx, now, takes(tries));
  }

  // ----- The packing loop, turn by turn -----

  /** The queue, the length of the pack and whether to go on, after a turn of the loop. */
  datatype Turn = Turn(tx: Tx, packLen: nat, more: bool)

  function PackTurn(q: QueueInfo, tx: Tx, e: Entry, packLen: nat): Turn
    requires tx.rem == 0 && packLen <= PACK_MAX
    requires tx.cmdCount == 0 ==> tx.lastRem <= |e.cmd| && packLen == 0
  {
    var follows := tx.cmdCount == 0 && tx.lastRem != 0;
    var size := if follows then [] else WriteVarint(|e.cmd|);
    var data := if follows then e.cmd[|e.cmd| - tx.lastRem..] else e.cmd;
    var len := packLen + |size| + |data|;
    if packLen + |size| > PACK_MAX then Turn(tx, packLen + |size|, false)
    else if len > PACK_MAX && !q.ack then Turn(tx.(buf := tx.buf + size), len, false)
    else
      var rem := if len > PACK_MAX then len - PACK_MAX else 0;
      var status := if rem > 0 then PartiallyPacked else Packed;
      Turn(tx.(buf := tx.buf + (size + data[..|data| - rem]), cmdCount := tx.cmdCount + 1, rem := rem,
               log := tx.log + [Event(e.userdata, status, tx.num, !q.ack && status == Packed)]),
           len, rem == 0)
  }

  /** What remains to be packed when `k` commands are in the pack, which has `packLen` bytes. */
  function Rest(cmds: seq<Cmd>, k: nat, packLen: nat, lastRem: nat, ack: bool): (r: PackResult)
    requires k <= |cmds| && ValidRem(cmds, lastRem)
    ensures k > 0 && r.count == 0 ==> r.rem == 0
  {
    if k == 0 then Pack(cmds, lastRem, ack) else PackFrom(cmds[k..], packLen, ack)
  }

  /** In the middle of packing `tx0`: what is done and what remains make the pack. */
  ghost predicate Packing(q: QueueInfo, tx0: Tx, tx: Tx, packLen: nat)
    requires ValidRem(Cmds(tx0.entries), tx0.lastRem) && (!q.ack ==> tx0.lastRem == 0)
  {
    && tx.cmdCount <= |tx0.entries| && tx.rem == 0 && packLen <= PACK_MAX
    && (tx.cmdCount == 0 ==> packLen == 0)
    && var all := Pack(Cmds(tx0.entries), tx0.lastRem, q.ack);
    && var r := Rest(Cmds(tx0.entries), tx.cmdCount, packLen, tx0.lastRem, q.ack);
    && tx.buf + r.data == tx0.buf + all.data && tx.cmdCount + r.count == all.count && r.rem == all.rem
    && tx == tx0.(buf := tx.buf, cmdCount := tx.cmdCount,
                  log := tx0.log + PackEvents(tx0.entries, tx.cmdCount, all.count, all.rem, tx0.num, q.ack))
  }

  lemma PackingStart(q: QueueInfo, tx: Tx)
    requires ValidRem(Cmds(tx.entries), tx.lastRem) && (!q.ack ==> tx.lastRem == 0)
    requires tx.cmdCount == 0 && tx.rem == 0
    ensures Packing(q, tx, tx, 0)
  {
  }

  lemma PackingEnd(q: QueueInfo, tx0: Tx, tx: Tx, packLen: nat)
    requires ValidRem(Cmds(tx0.entries), tx0.lastRem) && (!q.ack ==> tx0.lastRem == 0)
    requires Packing(q, tx0, tx, packLen) && tx.cmdCount == |tx0.entries|
    ensures tx == PackCmds(q, tx0)
  {
  }

  /** One turn keeps the loop on its way, or ends it with the pack. */
  lemma PackingTurn(q: QueueInfo, tx0: Tx, tx: Tx, packLen: nat)
    requires ValidRem(Cmds(tx0.entries), tx0.lastRem) && (!q.ack ==> tx0.lastRem == 0)
    requires Packing(q, tx0, tx, packLen) && tx.cmdCount < |tx0.entries|
    ensures tx.rem == 0 && packLen <= PACK_MAX
    ensures tx.cmdCount == 0 ==> tx.lastRem <= |tx0.entries[tx.cmdCount].cmd| && packLen == 0
    ensures var t := PackTurn(q, tx, tx0.entries[tx.cmdCount], packLen);
      && (t.more ==> t.tx.cmdCount == tx.cmdCount + 1 && Packing(q, tx0, t.tx, t.packLen))
      && (!t.more ==> t.tx == PackCmds(q, tx0))
  {
    hide Pack, PackFrom, WriteVarint, PackEvents, Rest, QueueV3.PackCmds;
    var cmds, k := Cmds(tx0.entries), tx.cmdCount;
    assert cmds[k] == tx0.entries[k].cmd;
    RestStep(cmds, k, packLen, tx0.lastRem, q.ack);
    if PackTurn(q, tx, tx0.entries[k], packLen).more {
      PackingTurnGoes(q, tx0, tx, packLen);
    } else {
      PackingTurnStops(q, tx0, tx, packLen);
    }
  }

  /** What a turn adds to the pack, and what remains after it, as lengths and bytes. */
  ghost predicate TurnRest(cmds: seq<Cmd>, k: nat, packLen: nat, lastRem: nat, ack: bool)
    requires k < |cmds| && ValidRem(cmds, lastRem) && (!ack ==> lastRem == 0) && (k == 0 ==> packLen == 0)
  {
    var r := Rest(cmds, k, packLen, lastRem, ack);
    var follows := k == 0 && lastRem != 0;
    var size := if follows then [] else WriteVarint(|cmds[k]|);
    var data := if follows then cmds[k][|cmds[k]| - lastRem..] else cmds[k];
    var len := packLen + |size| + |data|;
    if packLen + |size| > PACK_MAX then r == PackResult([], 0, 0)
    else if len > PACK_MAX && !ack then r == PackResult(size, 0, 0)
    else if len > PACK_MAX then
      len - PACK_MAX <= |data| && r == PackResult(size + data[..|data| - (len - PACK_MAX)], 1, len - PACK_MAX)
    else
      var r' := Rest(cmds, k + 1, len, lastRem, ack);
      r == PackResult(size + data + r'.data, r'.count + 1, r'.rem)
  }

  lemma PackingTurnGoes(q: QueueInfo, tx0: Tx, tx: Tx, packLen: nat)
    requires ValidRem(Cmds(tx0.entries), tx0.lastRem) && (!q.ack ==> tx0.lastRem == 0)
    requires Packing(q, tx0, tx, packLen) && tx.cmdCount < |tx0.entries|
    requires TurnRest(Cmds(tx0.entries), tx.cmdCount, packLen, tx0.lastRem, q.ack)
    requires PackTurn(q, tx, tx0.entries[tx.cmdCount], packLen).more
    ensures var t := PackTurn(q, tx, tx0.entries[tx.cmdCount], packLen);
      t.tx.cmdCount == tx.cmdCount + 1 && Packing(q, tx0, t.tx, t.packLen)
  {
    hide Pack, PackFrom, WriteVarint, PackEvents, Rest;
    var cmds, k := Cmds(tx0.entries), tx.cmdCount;
    var all := Pack(cmds, tx0.lastRem, q.ack);
    var follows := k == 0 && tx0.lastRem != 0;
    var size := if follows then [] else WriteVarint(|cmds[k]|);
    var data := if follows then cmds[k][|cmds[k]| - tx0.lastRem..] else cmds[k];
    var t := PackTurn(q, tx, tx0.entries[k], packLen);
    var next := Rest(cmds, k + 1, t.packLen, tx0.lastRem, q.ack);
    PackEventsStep(tx0.entries, k + 1, all.count, all.rem, tx0.num, q.ack);
    assert data[..|data|] == data;
    Associative(tx.buf, size + data, next.data);
  }

  lemma PackingTurnStops(q: QueueInfo, tx0: Tx, tx: Tx, packLen: nat)
    requires ValidRem(Cmds(tx0.entries), tx0.lastRem) && (!q.ack ==> tx0.lastRem == 0)
    requires Packing(q, tx0, tx, packLen) && tx.cmdCount < |tx0.entries|
    requires TurnRest(Cmds(tx0.entries), tx.cmdCount, packLen, tx0.lastRem, q.ack)
    requires !PackTurn(q, tx, tx0.entries[tx.cmdCount], packLen).more
    ensures PackTurn(q, tx, tx0.entries[tx.cmdCount], packLen).tx == PackCmds(q, tx0)
  {
    hide Pack, PackFrom, WriteVarint, PackEvents, Rest;
    var all := Pack(Cmds(tx0.entries), tx0.lastRem, q.ack);
    var t := PackTurn(q, tx, tx0.entries[tx.cmdCount], packLen);
    assert tx.buf + [] == tx.buf;
    if t.tx.cmdCount == tx.cmdCount + 1 {
      PackEventsStep(tx0.entries, tx.cmdCount + 1, all.count, all.rem, tx0.num, q.ack);
    }
  }

  lemma Associative(a: seq<byte>, b: seq<byte>, c: seq<byte>)
    ensures (a + b) + c == a + (b + c)
  {
  }

  lemma PackEventsStep(entries: seq<Entry>, k: nat, count: nat, rem: nat, num: u16, ack: bool)
    requires 0 < k <= count && k <= |entries|
    ensures var status := if k == count && rem > 0 then PartiallyPacked else Packed;
      PackEvents(entries, k, count, rem, num, ack)
      == PackEvents(entries, k - 1, count, rem, num, ack)
         + [Event(entries[k - 1].userdata, status, num, !ack && status == Packed)]
  {
  }

  /** One turn of the loop, on what remains. */
  lemma RestStep(cmds: seq<Cmd>, k: nat, packLen: nat, lastRem: nat, ack: bool)
    requires k < |cmds| && ValidRem(cmds, lastRem) && (!ack ==> lastRem == 0)
    requires packLen <= PACK_MAX && (k == 0 ==> packLen == 0)
    ensures TurnRest(cmds, k, packLen, lastRem, ack)
  {
    hide WriteVarint;
    var rest := cmds[k..];
    assert rest[0] == cmds[k] && rest[1..] == cmds[k + 1..];
    if k == 0 {
      assert rest == cmds;
      if lastRem > 0 {
        RestStepFollows(cmds, lastRem, ack);
      }
    }
  }

  lemma RestStepFollows(cmds: seq<Cmd>, lastRem: nat, ack: bool)
    requires cmds != [] && 0 < lastRem && ValidRem(cmds, lastRem) && ack
    ensures TurnRest(cmds, 0, 0, lastRem, ack)
  {
    hide WriteVarint, PackFrom, Pack, Rest;
    PackFollows(cmds, lastRem);
    RestOfFirst(cmds[0], lastRem, Rest(cmds, 1, lastRem, lastRem, true).data);
  }

  lemma RestOfFirst(c: Cmd, lastRem: nat, more: seq<byte>)
    requires 0 < lastRem <= |c|
    ensures var data := c[|c| - lastRem..];
      && |data| == lastRem
      && (lastRem > PACK_MAX ==> [] + data[..|data| - (lastRem - PACK_MAX)] == data[..PACK_MAX])
      && [] + data + more == data + more
  {
  }

  /** The pack that begins with the rest of a command. */
  lemma PackFollows(cmds: seq<Cmd>, lastRem: nat)
    requires cmds != [] && 0 < lastRem && ValidRem(cmds, lastRem)
    ensures var data := cmds[0][|cmds[0]| - lastRem..];
      Rest(cmds, 0, 0, lastRem, true) ==
        if lastRem > PACK_MAX then PackResult(data[..PACK_MAX], 1, lastRem - PACK_MAX)
        else
          var r := Rest(cmds, 1, lastRem, lastRem, true);
          PackResult(data + r.data, r.count + 1, r.rem)
  {
    hide WriteVarint, PackFrom;
  }
}
