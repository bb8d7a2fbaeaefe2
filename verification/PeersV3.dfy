/** Two interfaces of version 3 with all their queues, over one link in each direction: every
    acknowledged queue of each of them behaves as if it had links of its own. */
module PeersV3 {
  import opened Bytes
  import opened Commands
  import opened PackV3
  import opened Links
  import opened StopAndWait
  import opened QueueV3
  import opened TransportLayer
  import opened SystemV3
  import opened TxQueueV3
  import opened InterfaceV3

  // ----- What a link carries for one queue -----

  /** The values that `f` gives for the elements of a sequence, in order. */
  function Select<T, U>(s: seq<T>, f: T -> Option<U>): seq<U> {
    if s == [] then []
    else
      Select(s[..|s| - 1], f) + match f(s[|s| - 1]) case Some(u) => [u] case None => []
  }

  lemma {:induction false} SelectAppend<T, U>(a: seq<T>, b: seq<T>, f: T -> Option<U>)
    ensures Select(a + b, f) == Select(a, f) + Select(b, f)
  {
    if b == [] {
      assert a + b == a;
    } else {
      SelectAppend(a, b[..|b| - 1], f);
      assert (a + b)[..|a + b| - 1] == a + b[..|b| - 1];
    }
  }

  lemma SelectOne<T, U>(x: T, f: T -> Option<U>)
    ensures Select([x], f) == match f(x) case Some(u) => [u] case None => []
  {
    assert [x][..0] == [];
  }

  lemma SplitAt<T>(s: seq<T>, i: nat)
    requires i < |s|
    ensures s == s[..i] + ([s[i]] + s[i + 1..])
  {
  }

  /** The parts of a selection before and after one element. */
  lemma SelectAround<T, U>(s: seq<T>, i: nat, f: T -> Option<U>)
    requires i < |s|
    ensures Select(s, f) == Select(s[..i], f) + ((match f(s[i]) case Some(u) => [u] case None => []) + Select(s[i + 1..], f))
  {
    hide Select;
    SplitAt(s, i);
    SelectAppend(s[..i], [s[i]] + s[i + 1..], f);
    SelectAppend([s[i]], s[i + 1..], f);
    SelectOne(s[i], f);
  }

  lemma LoseAt<U>(a: seq<U>, u: U, b: seq<U>)
    ensures Lose(a + ([u] + b), |a|) == a + b
  {
  }

  lemma DuplicateAt<U>(a: seq<U>, u: U, b: seq<U>)
    ensures Duplicate(a + ([u] + b), |a|) == a + ([u] + ([u] + b))
  {
  }

  /** A link that loses a frame loses it for its own queue only, and likewise when it duplicates one. */
  lemma SelectLose<T, U>(s: seq<T>, i: nat, f: T -> Option<U>)
    requires i < |s|
    ensures var r, j := Select(s, f), |Select(s[..i], f)|;
      Select(Lose(s, i), f) == if f(s[i]).Some? && j < |r| then Lose(r, j) else r
    ensures f(s[i]).Some? ==> |Select(s[..i], f)| < |Select(s, f)|
  {
    hide Select;
    SelectAround(s, i, f);
    SelectAppend(s[..i], s[i + 1..], f);
    var a, b := Select(s[..i], f), Select(s[i + 1..], f);
    match f(s[i])
    case Some(u) => LoseAt(a, u, b);
    case None => assert [] + b == b;
  }

  lemma SelectDuplicate<T, U>(s: seq<T>, i: nat, f: T -> Option<U>)
    requires i < |s|
    ensures var r, j := Select(s, f), |Select(s[..i], f)|;
      Select(Duplicate(s, i), f) == if f(s[i]).Some? && j < |r| then Duplicate(r, j) else r
    ensures f(s[i]).Some? ==> |Select(s[..i], f)| < |Select(s, f)|
  {
    hide Select;
    SelectAround(s, i, f);
    SplitAt(s, i);
    var x, rest := s[i], s[i + 1..];
    DuplicateAt(s[..i], x, rest);
    SelectAppend(s[..i], [x] + ([x] + rest), f);
    SelectAppend([x], [x] + rest, f);
    SelectAppend([x], rest, f);
    SelectOne(x, f);
    var a, b := Select(s[..i], f), Select(rest, f);
    match f(x)
    case Some(u) => DuplicateAt(a, u, b);
    case None => assert [] + b == b;
  }

  lemma SelectFirst<T, U>(s: seq<T>, f: T -> Option<U>)
    requires s != []
    ensures Select(s, f) == (match f(s[0]) case Some(u) => [u] case None => []) + Select(s[1..], f)
  {
    SelectAround(s, 0, f);
    assert s[..0] == [];
  }

  /** The frame of a data packet of the queue `id`. */
  function DataFrame(id: byte): Packet -> Option<Frame> {
    (p: Packet) => if p.dataType != Ack && p.id == id then Some(p.frame) else None
  }

  /** The number in an acknowledgement with the identifier `id`. */
  function AckNum(id: byte): Packet -> Option<u16> {
    (p: Packet) =>
      if p.dataType == Ack && p.id == id && |p.frame.payload| >= 2 then
        FromLittleEndianRoundTrip(p.frame.payload[..2]);
        Some(FromLittleEndian(p.frame.payload[..2]) as u16)
      else None
  }

  /** The command received from the queue `id`. */
  function CommandOf(id: byte): ((byte, seq<byte>)) -> Option<seq<byte>> {
    (c: (byte, seq<byte>)) => if c.0 == id then Some(c.1) else None
  }

  lemma {:induction false} SelectTagged(id: byte, from: byte, cmds: seq<seq<byte>>)
    ensures Select(Tagged(from, cmds), CommandOf(id)) == if from == id then cmds else []
  {
    if cmds != [] {
      SelectTagged(id, from, cmds[..|cmds| - 1]);
      assert Tagged(from, cmds)[..|cmds| - 1] == Tagged(from, cmds[..|cmds| - 1]);
    }
  }

  lemma {:induction false} SelectPackets(id: byte, ackId: byte, q: QueueInfo, frames: seq<Frame>)
    ensures Select(Packets(q, frames), DataFrame(id)) == if q.id == id then frames else []
    ensures Select(Packets(q, frames), AckNum(ackId)) == []
  {
    if frames != [] {
      var init := frames[..|frames| - 1];
      SelectPackets(id, ackId, q, init);
      assert Packets(q, frames)[..|frames| - 1] == Packets(q, init);
    }
  }

  // ----- The two interfaces -----

  /** One interface: its queues, whether its transport is there, the reception state of each
      identifier, the commands received, and the number of its next acknowledgement. For each
      queue, the commands ever accepted and the number of those reported as acknowledged. */
  datatype Peer = Peer(txs: seq<Tx>, open: bool, recvSeq: seq<u16>, partial: seq<Option<Partial>>,
                       received: seq<(byte, seq<byte>)>, nextAckSeq: u16,
                       accepted: seq<seq<Cmd>>, acked: seq<nat>)

  /** An interface and the other one, with the packets that it sent and those sent to it. */
  datatype World = World(near: Peer, far: Peer, out: seq<Packet>, back: seq<Packet>)

  /** The queues of the two interfaces, and what is added to the identifier of a queue to get that of
      its acknowledgements. */
  datatype Settings = Settings(near: seq<QueueInfo>, far: seq<QueueInfo>, ackoff: byte)

  function Swap(w: World): World {
    World(w.far, w.near, w.back, w.out)
  }

  function SwapSettings(c: Settings): Settings {
    Settings(c.far, c.near, c.ackoff)
  }

  /** The identifiers of the queues of an interface are different, and none is the identifier of an
      acknowledgement that the same interface sends. */
  predicate Separated(c: Settings) {
    && Distinct(c.near)
    && (forall i :: 0 <= i < |c.near| ==> c.near[i].id as int + c.ackoff as int < 256)
    && (forall i, j :: 0 <= i < |c.near| && 0 <= j < |c.far| ==>
      c.near[i].id as int != c.far[j].id as int + c.ackoff as int)
  }

  predicate Good(c: Settings) {
    Separated(c) && Separated(SwapSettings(c))
  }

  /** The identifier of the acknowledgements of a queue. */
  function AckId(q: QueueInfo, ackoff: byte): byte
    requires q.id as int + ackoff as int < 256
  {
    (q.id as int + ackoff as int) as byte
  }

  /** What is sent is a data packet of one of the queues `from`, or the acknowledgement of one of
      the queues `to` of the other side. */
  ghost predicate Proper(from: seq<QueueInfo>, to: seq<QueueInfo>, ackoff: byte, p: Packet) {
    if p.dataType == Ack then
      && |p.frame.payload| == 2
      && exists j :: 0 <= j < |to| && to[j].ack && p.id as int == to[j].id as int + ackoff as int
    else
      exists i :: 0 <= i < |from| && p == QueuePacket(from[i], p.frame)
  }

  // ----- What an interface does -----

  /** Looks at all the queues: the new state and the packets sent. */
  ghost function Look(qs: seq<QueueInfo>, p: Peer, now: nat, takes: nat -> bool, tries: nat): (Peer, seq<Packet>)
    requires AllReady(qs, p.txs)
  {
    var r := CheckUpTo(qs, p.txs, now, takes, tries, |qs|);
    (p.(txs := r.txs), r.sent)
  }

  /** Adds a command to a queue. */
  function Accept(p: Peer, i: nat, cmd: Cmd): Peer
    requires i < |p.txs| == |p.accepted|
  {
    p.(txs := p.txs[i := Add(p.txs[i], Entry(cmd, |p.accepted[i]|))], accepted := p.accepted[i := p.accepted[i] + [cmd]])
  }

  /** Stops. */
  function Stopped(p: Peer): Peer {
    p.(txs := StoppedAll(p.txs), open := false)
  }

  /** An acknowledgement packet goes to its queue. */
  ghost function TakeAck(qs: seq<QueueInfo>, ackoff: byte, p: Peer, x: Packet): Peer
    requires AllReady(qs, p.txs) && |p.acked| == |qs| && |p.recvSeq| == 256
  {
    var txs := AckedViews(qs, p.txs, x.id as int - ackoff as int, x.frame.payload);
    p.(txs := txs, recvSeq := p.recvSeq[x.id as int := x.frame.num],
       acked := seq(|qs|, i requires 0 <= i < |qs| =>
         p.acked[i] + if |txs[i].entries| <= |p.txs[i].entries| then |p.txs[i].entries| - |txs[i].entries| else 0))
  }

  /** A data packet arrives: the new state and the acknowledgement, if the transport takes it. */
  function TakeData(ackoff: byte, p: Peer, x: Packet, takesAck: bool): (Peer, seq<Packet>)
    requires |p.recvSeq| == 256 && |p.partial| == 256
  {
    var process, ack, id := ShouldProcess(p.recvSeq[x.id], x.frame.num), x.dataType == WithAck, x.id as int;
    var u := Unpack(x.frame.payload, p.partial[id], ack);
    var p' := p.(nextAckSeq := if ack then NextSeq(p.nextAckSeq) else p.nextAckSeq);
    (if process then
      p'.(recvSeq := p.recvSeq[id := x.frame.num], partial := p.partial[id := u.partial],
          received := p.received + Tagged(x.id, u.delivered))
     else p',
     if ack && takesAck then [AckPacket(x.id, ackoff, p.nextAckSeq, x.frame.num)] else [])
  }

  /** What the near interface or its link does. `takes` says which frames given to the transport, of
      which there were `tries` before, it takes. */
  datatype Action =
    | Submit(i: nat, cmd: Cmd, now: nat, takes: nat -> bool, tries: nat)
    | Timer(now: nat, takes: nat -> bool, tries: nat)
    | PacketArrives(now: nat, takes: nat -> bool, tries: nat)
    | StopAll
    | LosePacket(i: nat)
    | DuplicatePacket(i: nat)

  /** What an action of the near interface demands: a queue that exists, and, like the class, a command
      that an unacknowledged queue without a minimum delay can send. */
  predicate Allowed(c: Settings, action: Action) {
    match action
    case Submit(i, cmd, _, _, _) => i < |c.near| && (c.near[i].ack || c.near[i].maxTxRateMs > 0 || FitsAlone(cmd))
    case _ => true
  }

  ghost predicate PeerOk(qs: seq<QueueInfo>, p: Peer) {
    && AllReady(qs, p.txs) && |p.accepted| == |p.acked| == |qs| && |p.recvSeq| == |p.partial| == 256
    && (p.open ==> forall i :: 0 <= i < |qs| ==> Consistent(qs[i], p.txs[i]))
    && (!p.open ==> forall i :: 0 <= i < |qs| ==> p.txs[i].entries == [])
  }

  predicate Distinct(qs: seq<QueueInfo>) {
    forall i, j :: 0 <= i < j < |qs| ==> qs[i].id != qs[j].id
  }

  /** Looking at all the queues looks at each of them once, with some of the frames that the transport
      takes, and what it sends for a queue is what that look sends. */
  lemma {:induction false} LookAtOne(qs: seq<QueueInfo>, txs: seq<Tx>, now: nat, takes: nat -> bool, tries: nat, k: nat,
                                     i: nat, ackId: byte) returns (t: nat)
    requires AllReady(qs, txs) && Distinct(qs) && k <= |qs| && i < |qs|
    ensures var r := CheckUpTo(qs, txs, now, takes, tries, k);
      && Select(r.sent, AckNum(ackId)) == []
      && r.txs[i] == (if i < k then CheckAll(qs[i], txs[i], now, takes, t).tx else txs[i])
      && Select(r.sent, DataFrame(qs[i].id)) == if i < k then CheckAll(qs[i], txs[i], now, takes, t).sent else []
  {
    hide CheckUpTo, CheckAll, Consistent, Ends, DataFrame, AckNum, Select;
    if k == 0 {
      CheckUpToStart(qs, txs, now, takes, tries);
      SelectNone(DataFrame(qs[i].id));
      SelectNone(AckNum(ackId));
      t := 0;
    } else {
      t := LookAtOne(qs, txs, now, takes, tries, k - 1, i, ackId);
      CheckUpToStep(qs, txs, now, takes, tries, k);
      var r := CheckUpTo(qs, txs, now, takes, tries, k - 1);
      var c := CheckAll(qs[k - 1], txs[k - 1], now, takes, r.tries);
      SelectAppend(r.sent, Packets(qs[k - 1], c.sent), DataFrame(qs[i].id));
      SelectAppend(r.sent, Packets(qs[k - 1], c.sent), AckNum(ackId));
      SelectPackets(qs[i].id, ackId, qs[k - 1], c.sent);
      if i == k - 1 {
        t := r.tries;
      }
    }
  }

  lemma SelectNone<T, U>(f: T -> Option<U>)
    ensures Select([], f) == []
  {
  }

  /** Looking at all the queues keeps them ready. */
  lemma LookOk(qs: seq<QueueInfo>, p: Peer, now: nat, takes: nat -> bool, tries: nat)
    requires Distinct(qs) && PeerOk(qs, p)
    ensures PeerOk(qs, Look(qs, p, now, takes, tries).0)
  {
    hide CheckUpTo, CheckAll, Consistent, Ends, Select;
    var r := CheckUpTo(qs, p.txs, now, takes, tries, |qs|);
    forall i | 0 <= i < |qs|
      ensures (r.txs[i].entries == [] || Consistent(qs[i], r.txs[i])) && Ends(qs[i], r.txs[i])
      ensures Consistent(qs[i], p.txs[i]) ==> Consistent(qs[i], r.txs[i])
      ensures p.txs[i].entries == [] ==> r.txs[i].entries == []
    {
      var t := LookAtOne(qs, p.txs, now, takes, tries, |qs|, i, 0);
      CheckedReady(qs[i], p.txs[i], now, takes, t);
      CheckedEmpty(qs[i], p.txs[i], now, takes, t);
    }
  }

  lemma CheckedEmpty(q: QueueInfo, tx: Tx, now: nat, takes: nat -> bool, tries: nat)
    requires (tx.entries == [] || Consistent(q, tx)) && Ends(q, tx)
    ensures tx.entries == [] ==> CheckAll(q, tx, now, takes, tries) == Checked(tx, [], tries, None)
  {
  }

  lemma AcceptOk(c: Settings, p: Peer, i: nat, cmd: Cmd)
    requires PeerOk(c.near, p) && p.open && i < |c.near|
    requires c.near[i].ack || c.near[i].maxTxRateMs > 0 || FitsAlone(cmd)
    ensures PeerOk(c.near, Accept(p, i, cmd))
  {
    hide Consistent, FitsAlone;
    AddKeeps(c.near[i], p.txs[i], Entry(cmd, |p.accepted[i]|));
  }

  lemma TakeAckOk(qs: seq<QueueInfo>, ackoff: byte, p: Peer, x: Packet)
    requires PeerOk(qs, p)
    ensures PeerOk(qs, TakeAck(qs, ackoff, p, x))
  {
    hide Consistent, Ends;
    var txs := AckedViews(qs, p.txs, x.id as int - ackoff as int, x.frame.payload);
    match FindQueue(qs, x.id as int - ackoff as int)
    case Some(k) =>
      if |x.frame.payload| >= 2 {
        FromLittleEndianRoundTrip(x.frame.payload[..2]);
        var num := FromLittleEndian(x.frame.payload[..2]);
        AckedReady(qs[k], p.txs[k], num);
        AckedEmpty(qs[k], p.txs[k], num);
      }
    case None =>
  }

  lemma AckedEmpty(q: QueueInfo, tx: Tx, num: u16)
    requires tx.entries == [] || Consistent(q, tx)
    ensures tx.entries == [] ==> RecvAck(q, tx, num).entries == []
  {
  }

  lemma StoppedOk(qs: seq<QueueInfo>, p: Peer)
    requires PeerOk(qs, p)
    ensures PeerOk(qs, Stopped(p))
  {
    hide Consistent;
  }

  // ----- One queue and its part of the links -----

  ghost predicate WorldOk(c: Settings, w: World) {
    && Good(c) && PeerOk(c.near, w.near) && PeerOk(c.far, w.far)
    && (forall p <- w.out :: Proper(c.near, c.far, c.ackoff, p))
    && (forall p <- w.back :: Proper(c.far, c.near, c.ackoff, p))
  }

  /** The `k`-th queue of the near interface with what concerns it: the reception state of its
      identifier on the other side, its data packets and its acknowledgements. */
  ghost function Flow(c: Settings, w: World, k: nat): Sys
    requires WorldOk(c, w) && k < |c.near|
  {
    var id := c.near[k].id;
    Sys(w.near.txs[k], !w.near.open,
        Rx(w.far.recvSeq[id], w.far.partial[id], Select(w.far.received, CommandOf(id))),
        Select(w.out, DataFrame(id)), Select(w.back, AckNum(AckId(c.near[k], c.ackoff))),
        w.near.accepted[k], w.near.acked[k])
  }

  /** Every acknowledged queue of the near interface satisfies the invariant of a queue alone. */
  ghost predicate FlowsOk(c: Settings, w: World)
    requires WorldOk(c, w)
  {
    forall k :: 0 <= k < |c.near| && c.near[k].ack ==> SysInv(Flow(c, w, k))
  }

  ghost predicate WorldInv(c: Settings, w: World) {
    && WorldOk(c, w) && WorldOk(SwapSettings(c), Swap(w))
    && FlowsOk(c, w) && FlowsOk(SwapSettings(c), Swap(w))
  }

  lemma SwapOk(c: Settings, w: World)
    ensures WorldOk(c, w) ==> WorldOk(SwapSettings(c), Swap(w))
    ensures WorldInv(c, w) ==> WorldInv(SwapSettings(c), Swap(w))
  {
    hide SysInv, Proper, PeerOk;
  }

  // ----- Looking -----

  ghost function Looked(c: Settings, w: World, now: nat, takes: nat -> bool, tries: nat): World
    requires WorldOk(c, w)
  {
    var (p, sent) := Look(c.near, w.near, now, takes, tries);
    w.(near := p, out := w.out + sent)
  }

  lemma {:induction false} LookSendsProper(qs: seq<QueueInfo>, to: seq<QueueInfo>, ackoff: byte,
                                           txs: seq<Tx>, now: nat, takes: nat -> bool, tries: nat, k: nat)
    requires AllReady(qs, txs) && k <= |qs|
    ensures forall p <- CheckUpTo(qs, txs, now, takes, tries, k).sent :: Proper(qs, to, ackoff, p)
  {
    hide CheckUpTo, CheckAll, Consistent, Ends;
    if k == 0 {
      CheckUpToStart(qs, txs, now, takes, tries);
    } else {
      LookSendsProper(qs, to, ackoff, txs, now, takes, tries, k - 1);
      CheckUpToStep(qs, txs, now, takes, tries, k);
      var r := CheckUpTo(qs, txs, now, takes, tries, k - 1);
      var c := CheckAll(qs[k - 1], txs[k - 1], now, takes, r.tries);
      forall p <- Packets(qs[k - 1], c.sent) ensures Proper(qs, to, ackoff, p) {
        assert p == QueuePacket(qs[k - 1], p.frame);
      }
    }
  }

  lemma AckedOnce(q: QueueInfo, tx: Tx, now: nat, takes: nat -> bool, tries: nat)
    requires q.ack && (tx.entries == [] || Consistent(q, tx))
    ensures var p, a := CheckOnce(q, tx, now, takes(tries)), CheckAll(q, tx, now, takes, tries);
      a.tx == p.tx && a.sent == if p.frame.Some? && takes(tries) then [p.frame.value] else []
  {
    hide Consistent;
  }

  /** For one acknowledged queue, looking at all of them is one look. */
  lemma LookFlow(c: Settings, w: World, now: nat, takes: nat -> bool, tries: nat, k: nat)
    requires WorldOk(c, w) && WorldOk(c, Looked(c, w, now, takes, tries)) && k < |c.near| && c.near[k].ack
    requires SysInv(Flow(c, w, k))
    ensures SysInv(Flow(c, Looked(c, w, now, takes, tries), k))
  {
    hide SysInv, CheckUpTo, CheckAll, CheckOnce, Consistent, Ends, Select, DataFrame, AckNum, CommandOf, Proper;
    var q, s, id := c.near[k], Flow(c, w, k), c.near[k].id;
    var t := LookAtOne(c.near, w.near.txs, now, takes, tries, |c.near|, k, 0);
    AckedOnce(q, w.near.txs[k], now, takes, t);
    SelectAppend(w.out, Look(c.near, w.near, now, takes, tries).1, DataFrame(id));
    StepKeepsInv(q, s, Check(now, takes(t)));
    assert Flow(c, Looked(c, w, now, takes, tries), k) == Next(q, s, Check(now, takes(t)));
  }

  /** It does not concern the queues of the other side. */
  lemma LookFarFlow(c: Settings, w: World, now: nat, takes: nat -> bool, tries: nat, k: nat)
    requires WorldOk(SwapSettings(c), Swap(w)) && WorldOk(c, w)
    requires WorldOk(SwapSettings(c), Swap(Looked(c, w, now, takes, tries))) && k < |c.far|
    ensures Flow(SwapSettings(c), Swap(Looked(c, w, now, takes, tries)), k) == Flow(SwapSettings(c), Swap(w), k)
  {
    hide SysInv, CheckUpTo, CheckAll, Consistent, Ends, Select, DataFrame, AckNum, CommandOf, Proper;
    var ackId := AckId(c.far[k], c.ackoff);
    if |c.near| > 0 {
      var t := LookAtOne(c.near, w.near.txs, now, takes, tries, |c.near|, 0, ackId);
    } else {
      CheckUpToStart(c.near, w.near.txs, now, takes, tries);
      SelectNone(AckNum(ackId));
    }
    SelectAppend(w.out, Look(c.near, w.near, now, takes, tries).1, AckNum(ackId));
  }

  lemma LookKeeps(c: Settings, w: World, now: nat, takes: nat -> bool, tries: nat)
    requires WorldInv(c, w)
    ensures WorldInv(c, Looked(c, w, now, takes, tries))
  {
    hide SysInv, CheckUpTo, Proper, Look, Flow, PeerOk, Separated;
    var w' := Looked(c, w, now, takes, tries);
    LookWorldOk(c, w, now, takes, tries);
    SwapOk(c, w');
    forall k | 0 <= k < |c.near| && c.near[k].ack ensures SysInv(Flow(c, w', k)) {
      LookFlow(c, w, now, takes, tries, k);
    }
    forall k | 0 <= k < |c.far| && c.far[k].ack ensures SysInv(Flow(SwapSettings(c), Swap(w'), k)) {
      LookFarFlow(c, w, now, takes, tries, k);
    }
  }

  lemma LookWorldOk(c: Settings, w: World, now: nat, takes: nat -> bool, tries: nat)
    requires WorldOk(c, w)
    ensures WorldOk(c, Looked(c, w, now, takes, tries))
  {
    hide Proper, PeerOk, CheckUpTo;
    LookOk(c.near, w.near, now, takes, tries);
    PeerReady(c.near, w.near);
    LookSendsProper(c.near, c.far, c.ackoff, w.near.txs, now, takes, tries, |c.near|);
  }

  lemma PeerReady(qs: seq<QueueInfo>, p: Peer)
    requires PeerOk(qs, p)
    ensures AllReady(qs, p.txs)
  {
  }

  // ----- Adding and stopping -----

  ghost function Accepted(w: World, i: nat, cmd: Cmd): World
    requires i < |w.near.txs| == |w.near.accepted|
  {
    w.(near := Accept(w.near, i, cmd))
  }

  lemma AcceptKeeps(c: Settings, w: World, i: nat, cmd: Cmd)
    requires WorldInv(c, w) && w.near.open && i < |c.near|
    requires c.near[i].ack || c.near[i].maxTxRateMs > 0 || FitsAlone(cmd)
    ensures i < |w.near.txs| == |w.near.accepted| && WorldInv(c, Accepted(w, i, cmd))
  {
    hide SysInv, Proper, Separated, Select, DataFrame, AckNum, CommandOf, FitsAlone, Consistent, Ends;
    AcceptOk(c, w.near, i, cmd);
    var w' := Accepted(w, i, cmd);
    SwapOk(c, w');
    forall k | 0 <= k < |c.near| && c.near[k].ack ensures SysInv(Flow(c, w', k)) {
      if k == i {
        StepKeepsInv(c.near[k], Flow(c, w, k), Send(cmd));
        assert Flow(c, w', k) == Next(c.near[k], Flow(c, w, k), Send(cmd));
      } else {
        assert Flow(c, w', k) == Flow(c, w, k);
      }
    }
    forall k | 0 <= k < |c.far| && c.far[k].ack ensures SysInv(Flow(SwapSettings(c), Swap(w'), k)) {
      assert Flow(SwapSettings(c), Swap(w'), k) == Flow(SwapSettings(c), Swap(w), k);
    }
  }

  ghost function Halted(w: World): World {
    w.(near := Stopped(w.near))
  }

  lemma StopKeeps(c: Settings, w: World)
    requires WorldInv(c, w)
    ensures WorldInv(c, Halted(w))
  {
    hide SysInv, Proper, Separated, Select, DataFrame, AckNum, CommandOf, Consistent, Ends;
    StoppedOk(c.near, w.near);
    var w' := Halted(w);
    SwapOk(c, w');
    forall k | 0 <= k < |c.near| && c.near[k].ack ensures SysInv(Flow(c, w', k)) {
      StepKeepsInv(c.near[k], Flow(c, w, k), StopQueue);
      assert Flow(c, w', k) == Next(c.near[k], Flow(c, w, k), StopQueue);
    }
    forall k | 0 <= k < |c.far| && c.far[k].ack ensures SysInv(Flow(SwapSettings(c), Swap(w'), k)) {
      assert Flow(SwapSettings(c), Swap(w'), k) == Flow(SwapSettings(c), Swap(w), k);
    }
  }

  // ----- The links -----

  lemma LinkWorldOk(c: Settings, w: World, out: seq<Packet>)
    requires WorldOk(c, w) && forall p <- out :: p in w.out
    ensures WorldOk(c, w.(out := out)) && WorldOk(SwapSettings(c), Swap(w.(out := out)))
  {
    hide Proper, PeerOk;
    SwapOk(c, w.(out := out));
  }

  lemma LosePacketKeeps(c: Settings, w: World, i: nat)
    requires WorldInv(c, w) && i < |w.out|
    ensures WorldInv(c, w.(out := Lose(w.out, i)))
  {
    hide SysInv, Proper, Separated, Select, DataFrame, AckNum, CommandOf, PeerOk, Next;
    var w' := w.(out := Lose(w.out, i));
    LinkWorldOk(c, w, w'.out);
    forall k | 0 <= k < |c.near| && c.near[k].ack ensures SysInv(Flow(c, w', k)) {
      LoseFlow(c, w, i, k);
    }
    forall k | 0 <= k < |c.far| && c.far[k].ack ensures SysInv(Flow(SwapSettings(c), Swap(w'), k)) {
      LoseFarFlow(c, w, i, k);
    }
  }

  lemma LoseFlow(c: Settings, w: World, i: nat, k: nat)
    requires WorldOk(c, w) && i < |w.out| && WorldOk(c, w.(out := Lose(w.out, i)))
    requires k < |c.near| && c.near[k].ack && SysInv(Flow(c, w, k))
    ensures SysInv(Flow(c, w.(out := Lose(w.out, i)), k))
  {
    hide SysInv, Proper, Separated, Select, DataFrame, AckNum, CommandOf, PeerOk;
    var f := DataFrame(c.near[k].id);
    SelectLose(w.out, i, f);
    var step: Step<Cmd> := LoseData(|Select(w.out[..i], f)|);
    StepKeepsInv(c.near[k], Flow(c, w, k), step);
  }

  lemma LoseFarFlow(c: Settings, w: World, i: nat, k: nat)
    requires WorldOk(SwapSettings(c), Swap(w)) && i < |w.out| && WorldOk(SwapSettings(c), Swap(w.(out := Lose(w.out, i))))
    requires k < |c.far| && c.far[k].ack && SysInv(Flow(SwapSettings(c), Swap(w), k))
    ensures SysInv(Flow(SwapSettings(c), Swap(w.(out := Lose(w.out, i))), k))
  {
    hide SysInv, Proper, Select, DataFrame, AckNum, CommandOf, PeerOk;
    var f := AckNum(AckId(c.far[k], c.ackoff));
    SelectLose(w.out, i, f);
    var step: Step<Cmd> := LoseAck(|Select(w.out[..i], f)|);
    StepKeepsInv(c.far[k], Flow(SwapSettings(c), Swap(w), k), step);
  }

  lemma DuplicatePacketKeeps(c: Settings, w: World, i: nat)
    requires WorldInv(c, w) && i < |w.out|
    ensures WorldInv(c, w.(out := Duplicate(w.out, i)))
  {
    hide SysInv, Proper, Separated, Select, DataFrame, AckNum, CommandOf, PeerOk, Next;
    var w' := w.(out := Duplicate(w.out, i));
    LinkWorldOk(c, w, w'.out);
    forall k | 0 <= k < |c.near| && c.near[k].ack ensures SysInv(Flow(c, w', k)) {
      DuplicateFlow(c, w, i, k);
    }
    forall k | 0 <= k < |c.far| && c.far[k].ack ensures SysInv(Flow(SwapSettings(c), Swap(w'), k)) {
      DuplicateFarFlow(c, w, i, k);
    }
  }

  lemma DuplicateFlow(c: Settings, w: World, i: nat, k: nat)
    requires WorldOk(c, w) && i < |w.out| && WorldOk(c, w.(out := Duplicate(w.out, i)))
    requires k < |c.near| && c.near[k].ack && SysInv(Flow(c, w, k))
    ensures SysInv(Flow(c, w.(out := Duplicate(w.out, i)), k))
  {
    hide SysInv, Proper, Separated, Select, DataFrame, AckNum, CommandOf, PeerOk;
    var f := DataFrame(c.near[k].id);
    SelectDuplicate(w.out, i, f);
    var step: Step<Cmd> := DuplicateData(|Select(w.out[..i], f)|);
    StepKeepsInv(c.near[k], Flow(c, w, k), step);
  }

  lemma DuplicateFarFlow(c: Settings, w: World, i: nat, k: nat)
    requires WorldOk(SwapSettings(c), Swap(w)) && i < |w.out| && WorldOk(SwapSettings(c), Swap(w.(out := Duplicate(w.out, i))))
    requires k < |c.far| && c.far[k].ack && SysInv(Flow(SwapSettings(c), Swap(w), k))
    ensures SysInv(Flow(SwapSettings(c), Swap(w.(out := Duplicate(w.out, i))), k))
  {
    hide SysInv, Proper, Select, DataFrame, AckNum, CommandOf, PeerOk;
    var f := AckNum(AckId(c.far[k], c.ackoff));
    SelectDuplicate(w.out, i, f);
    var step: Step<Cmd> := DuplicateAck(|Select(w.out[..i], f)|);
    StepKeepsInv(c.far[k], Flow(SwapSettings(c), Swap(w), k), step);
  }

  // ----- Packets that arrive -----

  lemma BackWorldOk(c: Settings, w: World, near: Peer, out: seq<Packet>)
    requires WorldOk(c, w) && w.back != [] && PeerOk(c.near, near)
    requires forall p <- out :: Proper(c.near, c.far, c.ackoff, p)
    ensures var w' := World(near, w.far, w.out + out, w.back[1..]);
      WorldOk(c, w') && WorldOk(SwapSettings(c), Swap(w'))
  {
    hide Proper, PeerOk;
    SwapOk(c, World(near, w.far, w.out + out, w.back[1..]));
  }

  ghost function Dropped(w: World): World
    requires w.back != []
  {
    w.(back := w.back[1..])
  }

  /** After the stop a packet that arrives is refused: for the queue of a data packet it is lost. */
  lemma DropKeeps(c: Settings, w: World)
    requires WorldInv(c, w) && w.back != [] && !w.near.open
    ensures WorldInv(c, Dropped(w))
  {
    hide SysInv, Proper, Separated, Select, DataFrame, AckNum, CommandOf, PeerOk, Next;
    var w' := Dropped(w);
    assert w.out + [] == w.out;
    BackWorldOk(c, w, w.near, []);
    forall k | 0 <= k < |c.near| && c.near[k].ack ensures SysInv(Flow(c, w', k)) {
      DropFlow(c, w, k);
    }
    forall k | 0 <= k < |c.far| && c.far[k].ack ensures SysInv(Flow(SwapSettings(c), Swap(w'), k)) {
      DropFarFlow(c, w, k);
    }
  }

  lemma DropFlow(c: Settings, w: World, k: nat)
    requires WorldOk(c, w) && w.back != [] && WorldOk(c, Dropped(w)) && !w.near.open
    requires k < |c.near| && c.near[k].ack && SysInv(Flow(c, w, k))
    ensures SysInv(Flow(c, Dropped(w), k))
  {
    hide SysInv, Proper, Select, DataFrame, AckNum, CommandOf, PeerOk;
    var s, f := Flow(c, w, k), AckNum(AckId(c.near[k], c.ackoff));
    SelectFirst(w.back, f);
    if f(w.back[0]).Some? {
      StepKeepsInv(c.near[k], s, AckArrives);
      assert Flow(c, Dropped(w), k) == Next(c.near[k], s, AckArrives);
    } else {
      assert Flow(c, Dropped(w), k) == s;
    }
  }

  lemma DropFarFlow(c: Settings, w: World, k: nat)
    requires WorldOk(SwapSettings(c), Swap(w)) && w.back != [] && WorldOk(SwapSettings(c), Swap(Dropped(w)))
    requires k < |c.far| && c.far[k].ack && SysInv(Flow(SwapSettings(c), Swap(w), k))
    ensures SysInv(Flow(SwapSettings(c), Swap(Dropped(w)), k))
  {
    hide SysInv, Proper, Separated, Select, DataFrame, AckNum, CommandOf, PeerOk;
    var s := Flow(SwapSettings(c), Swap(w), k);
    SelectFirst(w.back, DataFrame(c.far[k].id));
    StepKeepsInv(c.far[k], s, LoseData(0));
    assert s.data != [] ==> Lose(s.data, 0) == s.data[1..];
  }

  ghost function AckTaken(c: Settings, w: World): World
    requires WorldOk(c, w) && w.back != []
  {
    World(TakeAck(c.near, c.ackoff, w.near, w.back[0]), w.far, w.out, w.back[1..])
  }

  /** An acknowledgement concerns one queue, and the number stored under its identifier none of those
      of the other side. */
  lemma AckTakenKeeps(c: Settings, w: World)
    requires WorldInv(c, w) && w.back != [] && w.near.open && w.back[0].dataType == Ack
    ensures WorldInv(c, AckTaken(c, w))
  {
    hide SysInv, Proper, Separated, Select, DataFrame, AckNum, CommandOf, PeerOk, Next, TakeAck, Flow;
    var w' := AckTaken(c, w);
    assert w.out + [] == w.out;
    TakeAckOk(c.near, c.ackoff, w.near, w.back[0]);
    BackWorldOk(c, w, w'.near, []);
    forall k | 0 <= k < |c.near| && c.near[k].ack ensures SysInv(Flow(c, w', k)) {
      AckTakenFlow(c, w, k);
    }
    forall k | 0 <= k < |c.far| && c.far[k].ack ensures SysInv(Flow(SwapSettings(c), Swap(w'), k)) {
      AckTakenFarFlow(c, w, k);
    }
  }

  /** The queue that an acknowledgement belongs to. */
  lemma AckQueue(c: Settings, w: World, x: Packet) returns (j: nat)
    requires WorldOk(c, w) && x in w.back && x.dataType == Ack
    ensures j < |c.near| && c.near[j].ack && x.id as int == c.near[j].id as int + c.ackoff as int
    ensures FindQueue(c.near, x.id as int - c.ackoff as int) == Some(j)
    ensures |x.frame.payload| == 2
  {
    hide PeerOk;
    j :| 0 <= j < |c.near| && c.near[j].ack && x.id as int == c.near[j].id as int + c.ackoff as int;
  }

  lemma AckTakenFlow(c: Settings, w: World, k: nat)
    requires WorldOk(c, w) && w.back != [] && WorldOk(c, AckTaken(c, w)) && w.near.open && w.back[0].dataType == Ack
    requires k < |c.near| && c.near[k].ack && SysInv(Flow(c, w, k))
    ensures SysInv(Flow(c, AckTaken(c, w), k))
  {
    hide SysInv, Proper, Select, CommandOf, Consistent, Ends, RecvAck;
    var x, s := w.back[0], Flow(c, w, k);
    var j := AckQueue(c, w, x);
    SelectFirst(w.back, AckNum(AckId(c.near[k], c.ackoff)));
    if j == k {
      StepKeepsInv(c.near[k], s, AckArrives);
      assert x.frame.payload[..2] == x.frame.payload;
      assert Flow(c, AckTaken(c, w), k) == Next(c.near[k], s, AckArrives);
    } else {
      assert Flow(c, AckTaken(c, w), k) == s;
    }
  }

  lemma AckTakenFarFlow(c: Settings, w: World, k: nat)
    requires WorldOk(c, w) && WorldOk(SwapSettings(c), Swap(w)) && w.back != [] && w.back[0].dataType == Ack
    requires WorldOk(SwapSettings(c), Swap(AckTaken(c, w)))
    requires k < |c.far| && c.far[k].ack
    ensures Flow(SwapSettings(c), Swap(AckTaken(c, w)), k) == Flow(SwapSettings(c), Swap(w), k)
  {
    hide SysInv, Proper, Select, CommandOf, Consistent, Ends, RecvAck, AckedViews;
    var j := AckQueue(c, w, w.back[0]);
    SelectFirst(w.back, DataFrame(c.far[k].id));
  }

  ghost function DataTaken(c: Settings, w: World, takesAck: bool): World
    requires WorldOk(c, w) && w.back != []
  {
    var (p, sent) := TakeData(c.ackoff, w.near, w.back[0], takesAck);
    World(p, w.far, w.out + sent, w.back[1..])
  }

  /** The queue that a data packet belongs to. */
  lemma DataQueue(c: Settings, w: World, x: Packet) returns (j: nat)
    requires WorldOk(c, w) && x in w.back && x.dataType != Ack
    ensures j < |c.far| && x == QueuePacket(c.far[j], x.frame)
  {
    hide PeerOk;
    j :| 0 <= j < |c.far| && x == QueuePacket(c.far[j], x.frame);
  }

  lemma TakeDataOk(c: Settings, w: World, takesAck: bool)
    requires WorldOk(c, w) && w.back != [] && w.back[0].dataType != Ack
    ensures var (p, sent) := TakeData(c.ackoff, w.near, w.back[0], takesAck);
      && PeerOk(c.near, p) && p.txs == w.near.txs && p.open == w.near.open
      && p.accepted == w.near.accepted && p.acked == w.near.acked
      && forall x <- sent :: Proper(c.near, c.far, c.ackoff, x)
  {
    hide Consistent, Ends, Unpack;
    var j := DataQueue(c, w, w.back[0]);
  }

  /** A data packet concerns one queue of the other side; so does its acknowledgement. */
  lemma DataTakenKeeps(c: Settings, w: World, takesAck: bool)
    requires WorldInv(c, w) && w.back != [] && w.back[0].dataType != Ack
    ensures WorldInv(c, DataTaken(c, w, takesAck))
  {
    hide SysInv, Proper, Separated, Select, DataFrame, AckNum, CommandOf, Consistent, AllReady, Next, TakeData, Flow;
    var w' := DataTaken(c, w, takesAck);
    TakeDataOk(c, w, takesAck);
    var (p, sent) := TakeData(c.ackoff, w.near, w.back[0], takesAck);
    BackWorldOk(c, w, p, sent);
    forall k | 0 <= k < |c.near| && c.near[k].ack ensures SysInv(Flow(c, w', k)) {
      DataTakenFlow(c, w, takesAck, k);
    }
    forall k | 0 <= k < |c.far| && c.far[k].ack ensures SysInv(Flow(SwapSettings(c), Swap(w'), k)) {
      DataTakenFarFlow(c, w, takesAck, k);
    }
  }

  lemma DataTakenFlow(c: Settings, w: World, takesAck: bool, k: nat)
    requires WorldOk(c, w) && w.back != [] && WorldOk(c, DataTaken(c, w, takesAck)) && w.back[0].dataType != Ack
    requires k < |c.near|
    ensures Flow(c, DataTaken(c, w, takesAck), k) == Flow(c, w, k)
  {
    hide Proper, Select, CommandOf, Consistent, AllReady, Unpack;
    var (p, sent) := TakeData(c.ackoff, w.near, w.back[0], takesAck);
    var f := DataFrame(c.near[k].id);
    SelectFirst(w.back, AckNum(AckId(c.near[k], c.ackoff)));
    SelectAppend(w.out, sent, f);
    SelectNone(f);
    if sent != [] {
      SelectOne(sent[0], f);
    }
  }

  lemma DataTakenFarFlow(c: Settings, w: World, takesAck: bool, k: nat)
    requires WorldOk(c, w) && WorldOk(SwapSettings(c), Swap(w)) && w.back != [] && w.back[0].dataType != Ack
    requires WorldOk(SwapSettings(c), Swap(DataTaken(c, w, takesAck)))
    requires k < |c.far| && c.far[k].ack && SysInv(Flow(SwapSettings(c), Swap(w), k))
    ensures SysInv(Flow(SwapSettings(c), Swap(DataTaken(c, w, takesAck)), k))
  {
    hide SysInv, Proper, Select, Unpack, Consistent, Ends;
    var x, s := w.back[0], Flow(SwapSettings(c), Swap(w), k);
    var t := Flow(SwapSettings(c), Swap(DataTaken(c, w, takesAck)), k);
    var j := DataQueue(c, w, x);
    var (p, sent) := TakeData(c.ackoff, w.near, x, takesAck);
    var ackId := AckId(c.far[k], c.ackoff);
    SelectFirst(w.back, DataFrame(c.far[k].id));
    SelectAppend(w.out, sent, AckNum(ackId));
    SelectNone(AckNum(ackId));
    if sent != [] {
      SelectOne(sent[0], AckNum(ackId));
    }
    SelectReceived(w.near, p, x, c.ackoff, takesAck, c.far[k].id);
    if j == k {
      StepKeepsInv(c.far[k], s, DataArrives);
      var s' := Next(c.far[k], s, DataArrives);
      if takesAck {
        AckNumOfAck(c.far[k].id, c.ackoff, w.near.nextAckSeq, x.frame.num);
        assert t == s';
      } else {
        StepKeepsInv(c.far[k], s', LoseAck(|s.acks|));
        assert t == Next(c.far[k], s', LoseAck(|s.acks|));
      }
    } else {
      assert t == s;
    }
  }

  lemma SelectReceived(near: Peer, p: Peer, x: Packet, ackoff: byte, takesAck: bool, id: byte)
    requires |near.recvSeq| == |near.partial| == 256 && p == TakeData(ackoff, near, x, takesAck).0
    ensures Select(p.received, CommandOf(id)) == Select(near.received, CommandOf(id)) +
      if ShouldProcess(near.recvSeq[x.id], x.frame.num) && x.id == id
      then Unpack(x.frame.payload, near.partial[x.id], x.dataType == WithAck).delivered else []
  {
    hide Select, Tagged, Unpack, CommandOf;
    var u := Unpack(x.frame.payload, near.partial[x.id], x.dataType == WithAck);
    SelectAppend(near.received, Tagged(x.id, u.delivered), CommandOf(id));
    SelectTagged(id, x.id, u.delivered);
  }

  /** An acknowledgement carries the number that it acknowledges. */
  lemma AckNumOfAck(id: byte, ackoff: byte, ackSeq: u16, num: u16)
    requires id as int + ackoff as int < 256
    ensures AckNum((id as int + ackoff as int) as byte)(AckPacket(id, ackoff, ackSeq, num)) == Some(num)
  {
    assert Pow256(2) == 256 * Pow256(1) && Pow256(1) == 256 * Pow256(0);
    LittleEndianRoundTrip(num, 2);
    var p := AckPacket(id, ackoff, ackSeq, num);
    assert p.frame.payload[..2] == p.frame.payload;
  }

  // ----- Runs -----

  /** What an action of the near interface, or of the link from it, makes of the two. */
  ghost function Act(c: Settings, w: World, action: Action): (r: World)
    requires WorldInv(c, w) && Allowed(c, action)
    ensures WorldInv(c, r)
  {
    match action
    case Submit(i, cmd, now, takes, tries) =>
      if !w.near.open then w
      else
        AcceptKeeps(c, w, i, cmd);
        LookKeeps(c, Accepted(w, i, cmd), now, takes, tries);
        Looked(c, Accepted(w, i, cmd), now, takes, tries)
    case Timer(now, takes, tries) =>
      LookKeeps(c, w, now, takes, tries);
      Looked(c, w, now, takes, tries)
    case PacketArrives(now, takes, tries) =>
      if w.back == [] then w
      else if !w.near.open then
        DropKeeps(c, w);
        Dropped(w)
      else if w.back[0].dataType == Ack then
        AckTakenKeeps(c, w);
        LookKeeps(c, AckTaken(c, w), now, takes, tries);
        Looked(c, AckTaken(c, w), now, takes, tries)
      else
        DataTakenKeeps(c, w, takes(tries));
        DataTaken(c, w, takes(tries))
    case StopAll =>
      StopKeeps(c, w);
      Halted(w)
    case LosePacket(i) =>
      if i < |w.out| then
        LosePacketKeeps(c, w, i);
        w.(out := Lose(w.out, i))
      else w
    case DuplicatePacket(i) =>
      if i < |w.out| then
        DuplicatePacketKeeps(c, w, i);
        w.(out := Duplicate(w.out, i))
      else w
  }

  /** An action of one of the two sides. */
  datatype Turn = Turn(near: bool, action: Action)

  ghost predicate TurnAllowed(c: Settings, turn: Turn) {
    Allowed(if turn.near then c else SwapSettings(c), turn.action)
  }

  ghost function Take(c: Settings, w: World, turn: Turn): (r: World)
    requires WorldInv(c, w) && TurnAllowed(c, turn)
    ensures WorldInv(c, r)
  {
    SwapOk(c, w);
    if turn.near then Act(c, w, turn.action)
    else
      var r := Act(SwapSettings(c), Swap(w), turn.action);
      SwapOk(SwapSettings(c), r);
      Swap(r)
  }

  /** A new interface. */
  function NewPeer(count: nat): Peer {
    Peer(seq(count, _ => NEW_TX), true, seq(256, _ => 0xFFFF), seq(256, _ => None), [], 0,
         seq(count, _ => []), seq(count, _ => 0))
  }

  function Start(c: Settings): World {
    World(NewPeer(|c.near|), NewPeer(|c.far|), [], [])
  }

  lemma StartFlows(c: Settings)
    requires WorldOk(c, Start(c))
    ensures FlowsOk(c, Start(c))
  {
    hide SysInv;
    InitOk();
    forall k | 0 <= k < |c.near| && c.near[k].ack ensures SysInv(Flow(c, Start(c), k)) {
      assert Flow(c, Start(c), k) == INIT;
    }
  }

  lemma StartOk(c: Settings)
    requires Good(c)
    ensures WorldInv(c, Start(c))
  {
    assert Cmds(NEW_TX.entries)[..0] == [];
    StartFlows(c);
    SwapOk(c, Start(c));
    assert Swap(Start(c)) == Start(SwapSettings(c));
    StartFlows(SwapSettings(c));
  }

  /** The state after the given turns from the start. */
  ghost function RunBoth(c: Settings, turns: seq<Turn>): (w: World)
    requires Good(c) && forall t <- turns :: TurnAllowed(c, t)
    ensures WorldInv(c, w)
  {
    if turns == [] then
      StartOk(c);
      Start(c)
    else
      Take(c, RunBoth(c, turns[..|turns| - 1]), turns[|turns| - 1])
  }

  /** The commands that the far interface received from a queue of the near one. */
  ghost predicate DeliveredInOrder(q: QueueInfo, near: Peer, far: Peer, k: nat)
    requires k < |near.accepted| == |near.acked| == |near.txs|
  {
    var received, accepted := Select(far.received, CommandOf(q.id)), near.accepted[k];
    && (exists n :: near.acked[k] <= n <= |accepted| && received == Deliverable(accepted[..n]))
    && (near.open && near.txs[k].entries == [] ==> received == Deliverable(accepted))
  }

  lemma FlowDelivers(c: Settings, w: World, k: nat)
    requires WorldOk(c, w) && FlowsOk(c, w) && k < |c.near| && c.near[k].ack
    ensures DeliveredInOrder(c.near[k], w.near, w.far, k)
  {
    hide Inv, PackOk, Select;
    var s := Flow(c, w, k);
    assert AtPoint(s.rx, s.accepted, ReceiverPoint(s).0, ReceiverPoint(s).1);
    if !s.stopped && s.tx.entries == [] {
      assert s.accepted[..s.acked] == s.accepted;
    }
  }

  /** End to end: two interfaces with any number of queues, whose packets and acknowledgements share
      one link in each direction, with any losses, duplications and refusals, at any times. For each
      acknowledged queue of both, the commands that the other side received from it are exactly the
      deliverable ones of a prefix of those accepted, in order and each once. The prefix includes
      every command reported as acknowledged, and it is everything when the queue is empty without
      having been stopped. */
  lemma EndToEnd(c: Settings, turns: seq<Turn>)
    requires Good(c) && forall t <- turns :: TurnAllowed(c, t)
    ensures var w := RunBoth(c, turns);
      && |w.near.accepted| == |w.near.acked| == |w.near.txs| == |c.near|
      && |w.far.accepted| == |w.far.acked| == |w.far.txs| == |c.far|
      && (forall k :: 0 <= k < |c.near| && c.near[k].ack ==> DeliveredInOrder(c.near[k], w.near, w.far, k))
      && (forall k :: 0 <= k < |c.far| && c.far[k].ack ==> DeliveredInOrder(c.far[k], w.far, w.near, k))
  {
    hide SysInv, Proper, DeliveredInOrder;
    var w := RunBoth(c, turns);
    forall k | 0 <= k < |c.near| && c.near[k].ack ensures DeliveredInOrder(c.near[k], w.near, w.far, k) {
      FlowDelivers(c, w, k);
    }
    forall k | 0 <= k < |c.far| && c.far[k].ack ensures DeliveredInOrder(c.far[k], w.far, w.near, k) {
      FlowDelivers(SwapSettings(c), Swap(w), k);
    }
  }

  // ----- The identifiers -----

  /** The least identifier of a command frame. */
  const CMD_MIN: byte := 10

  /** The queues of a controller and of a device, and their offset. */
  const CONTROLLER_QUEUES := [QueueInfo(10, false, -1, 0, -1, true), QueueInfo(11, true, 150, 0, 5, false)]
  const DEVICE_QUEUES := [
    QueueInfo(126, true, 150, 0, -1, false), QueueInfo(127, false, -1, 5, -1, true),
    QueueInfo(D2C_CMD_LOWPRIO, true, 150, 0, -1, false)]
  const ACKOFF: byte := 128

  /** The identifiers in use are good ones, and those of frames that the callback hands on. */
  lemma IdentifiersInUse()
    ensures Good(Settings(CONTROLLER_QUEUES, DEVICE_QUEUES, ACKOFF))
    ensures forall q <- CONTROLLER_QUEUES + DEVICE_QUEUES :: CMD_MIN <= q.id && AckId.requires(q, ACKOFF)
  {
    assert |CONTROLLER_QUEUES| == 2 && |DEVICE_QUEUES| == 3;
  }

  /** Which queue a controller takes for each kind of commands. */
  lemma ChosenByController(kind: BufferType, i: nat)
    ensures Chosen(CONTROLLER_QUEUES, kind, i) <==>
      (kind == NonAck && i == 0) || ((kind == Acknowledged || kind == HighPrio) && i == 1)
    ensures CONTROLLER_QUEUES[0].id == 10 && CONTROLLER_QUEUES[1].id == 11
  {
    assert |CONTROLLER_QUEUES| == 2;
  }

  /** Which queue a device takes for each kind of commands. */
  lemma ChosenByDevice(kind: BufferType, i: nat)
    ensures Chosen(DEVICE_QUEUES, kind, i) <==>
      ((kind == Acknowledged || kind == HighPrio) && i == 0) || (kind == NonAck && i == 1) || (kind == LowPrio && i == 2)
    ensures DEVICE_QUEUES[0].id == 126 && DEVICE_QUEUES[1].id == 127 && DEVICE_QUEUES[2].id == 125
  {
    assert |DEVICE_QUEUES| == 3;
  }

  /** Why the identifiers of data and of acknowledgements must differ: after an acknowledgement with
      the identifier of a queue of the other side, the next data packet of that queue is
      acknowledged in any case, but given to the application only if its number is to be processed
      after that of the acknowledgement, whatever came from the queue before. */
  lemma SharedIdentifier(qs: seq<QueueInfo>, ackoff: byte, p: Peer, a: Packet, d: Packet)
    requires PeerOk(qs, p) && a.dataType == Ack && d.dataType == WithAck && d.id == a.id
    ensures var p1 := TakeAck(qs, ackoff, p, a);
      var (p2, sent) := TakeData(ackoff, p1, d, true);
      && sent == [AckPacket(d.id, ackoff, p.nextAckSeq, d.frame.num)]
      && (!ShouldProcess(a.frame.num, d.frame.num) ==> p2.received == p.received && p2.partial == p.partial)
      && (ShouldProcess(a.frame.num, d.frame.num) ==>
        && p2.recvSeq[d.id] == d.frame.num
        && p2.received == p.received + Tagged(d.id, Unpack(d.frame.payload, p.partial[d.id], true).delivered))
  {
    hide Unpack, Tagged, AckedViews, AllReady;
  }

  // ----- The class -----

  /** The interface object has the state `p`. */
  ghost predicate HasState(itf: CmdItf3, p: Peer)
    reads itf, itf.recvSeq, itf.partial
    reads itf.queues, set q <- itf.queues :: q.ring, set q <- itf.queues :: q.ring.entries
  {
    && itf.Valid() && PeerOk(itf.Infos(), p) && itf.Views() == p.txs && itf.open == p.open
    && itf.recvSeq[..] == p.recvSeq && itf.partial[..] == p.partial
    && itf.received == p.received && itf.nextAckSeq == p.nextAckSeq
  }

  /** The timer fires: the object looks at its queues. */
  method TimerFires(itf: CmdItf3, now: nat, ghost p: Peer)
    requires HasState(itf, p) && Distinct(itf.Infos())
    modifies itf`timer, itf.queues, set q <- itf.queues :: q.ring, itf.net
    ensures var (p', sent) := Look(itf.Infos(), p, now, itf.net.takes, old(itf.net.tries));
      HasState(itf, p') && itf.net.sent == old(itf.net.sent) + sent
  {
    hide CheckUpTo, PeerOk, CmdItf3.Valid, AllReady;
    PeerReady(itf.Infos(), p);
    LookOk(itf.Infos(), p, now, itf.net.takes, itf.net.tries);
    itf.CheckTxQueues(now);
  }

  /** The `i`-th queue is the first one for a kind of commands. */
  predicate Chosen(qs: seq<QueueInfo>, kind: BufferType, i: nat) {
    i < |qs| && Suits(kind, qs[i]) && forall k :: 0 <= k < i ==> !Suits(kind, qs[k])
  }

  /** The application sends a command, with the number of those accepted by its queue as user data: it
      is added to the first queue for its kind, and all the queues are looked at. */
  method SendCmd(itf: CmdItf3, cmd: Cmd, kind: BufferType, userdata: int, now: nat, ghost p: Peer)
    returns (res: Errno, ghost i: nat)
    requires HasState(itf, p) && Distinct(itf.Infos())
    requires forall q <- itf.queues :: Suits(kind, q.info) && !q.info.ack && q.info.maxTxRateMs <= 0 ==> FitsAlone(cmd)
    requires forall k :: 0 <= k < |p.accepted| && Chosen(itf.Infos(), kind, k) ==> userdata == |p.accepted[k]|
    modifies itf`timer, itf.net, itf.queues, set q <- itf.queues :: q.ring, set q <- itf.queues :: q.ring.entries
    ensures res != Success ==> HasState(itf, p) && itf.net.sent == old(itf.net.sent)
    ensures res == Success <==> p.open && exists q <- itf.queues :: Suits(kind, q.info)
    ensures res == Success ==>
      && Chosen(itf.Infos(), kind, i) && (itf.Infos()[i].ack <==> kind != NonAck)
      && i < |p.txs| == |p.accepted| && AllReady(itf.Infos(), Accept(p, i, cmd).txs)
      && var (p', sent) := Look(itf.Infos(), Accept(p, i, cmd), now, itf.net.takes, old(itf.net.tries));
      HasState(itf, p') && itf.net.sent == old(itf.net.sent) + sent
  {
    hide CheckUpTo, PeerOk, CmdItf3.Valid, AllReady, FitsAlone, Add, Suits, TxQueue.Valid, TxQueue.View, CmdItf3.IsSent, Look;
    PeerSizes(itf.Infos(), p);
    ghost var qs, tries, sent0 := itf.Infos(), itf.net.tries, itf.net.sent;
    res := itf.Send(cmd, kind, userdata, now);
    itf.ValidQueues();
    i := 0;
    if res == Success {
      i :| 0 <= i < |itf.queues| && Suits(kind, itf.queues[i].info)
        && (forall k :: 0 <= k < i ==> !Suits(kind, itf.queues[k].info))
        && itf.IsSent(i, Entry(cmd, userdata), p.txs, now, tries, sent0);
      assert Chosen(qs, kind, i);
      SuitsGuarantee(kind, qs[i]);
      AcceptFits(qs, p, i, cmd, now, itf.net.takes, tries);
      SentState(itf, p, i, cmd, now, tries, sent0);
    }
  }

  lemma SentState(itf: CmdItf3, p: Peer, i: nat, cmd: Cmd, now: nat, tries: nat, sent0: seq<Packet>)
    requires itf.Valid() && i < |p.accepted| == |p.txs| && p.open && itf.open
    requires forall k :: 0 <= k < |itf.queues| ==> itf.queues[k].Valid()
    requires itf.IsSent(i, Entry(cmd, |p.accepted[i]|), p.txs, now, tries, sent0)
    requires itf.recvSeq[..] == p.recvSeq && itf.partial[..] == p.partial
    requires itf.received == p.received && itf.nextAckSeq == p.nextAckSeq
    ensures AllReady(itf.Infos(), Accept(p, i, cmd).txs)
    ensures var (p', sent) := Look(itf.Infos(), Accept(p, i, cmd), now, itf.net.takes, tries);
      itf.net.sent == sent0 + sent && (PeerOk(itf.Infos(), p') ==> HasState(itf, p'))
  {
    hide CheckUpTo, PeerOk, CmdItf3.Valid, AllReady, TxQueue.Valid, TxQueue.View;
  }

  lemma AcceptFits(qs: seq<QueueInfo>, p: Peer, i: nat, cmd: Cmd, now: nat, takes: nat -> bool, tries: nat)
    requires PeerOk(qs, p) && p.open && i < |qs| && Distinct(qs)
    requires qs[i].ack || qs[i].maxTxRateMs > 0 || FitsAlone(cmd)
    ensures |p.txs| == |p.accepted| == |qs| && PeerOk(qs, Accept(p, i, cmd))
    ensures AllReady(qs, Accept(p, i, cmd).txs) && PeerOk(qs, Look(qs, Accept(p, i, cmd), now, takes, tries).0)
  {
    hide FitsAlone, Consistent, CheckUpTo;
    AcceptOk(Settings(qs, qs, 0), p, i, cmd);
    LookOk(qs, Accept(p, i, cmd), now, takes, tries);
  }

  /** The callback of the transport: the frames of commands are handed on to the object. */
  method RecvFrame(itf: CmdItf3, x: Packet, now: nat, ghost p: Peer)
    requires HasState(itf, p) && Distinct(itf.Infos())
    modifies itf.recvSeq, itf.partial, itf`received, itf`nextAckSeq, itf`timer, itf.net
    modifies itf.queues, set q <- itf.queues :: q.ring
    ensures x.id < 10 || !p.open ==> HasState(itf, p) && itf.net.sent == old(itf.net.sent)
    ensures x.id >= 10 && p.open && x.dataType == Ack ==>
      var p1 := TakeAck(itf.Infos(), itf.ackoff, p, x);
      && AllReady(itf.Infos(), p1.txs)
      && var (p', sent) := Look(itf.Infos(), p1, now, itf.net.takes, old(itf.net.tries));
      HasState(itf, p') && itf.net.sent == old(itf.net.sent) + sent
    ensures x.id >= 10 && p.open && x.dataType != Ack ==>
      var (p', sent) := TakeData(itf.ackoff, p, x, itf.net.takes(old(itf.net.tries)));
      HasState(itf, p') && itf.net.sent == old(itf.net.sent) + sent
  {
    hide CheckUpTo, PeerOk, CmdItf3.Valid, AllReady, AckedViews, Unpack, Tagged;
    if x.id < CMD_MIN {
      return;
    }
    PeerSizes(itf.Infos(), p);
    if p.open {
      if x.dataType == Ack {
        TakeAckOk(itf.Infos(), itf.ackoff, p, x);
        PeerReady(itf.Infos(), TakeAck(itf.Infos(), itf.ackoff, p, x));
        LookOk(itf.Infos(), TakeAck(itf.Infos(), itf.ackoff, p, x), now, itf.net.takes, itf.net.tries);
      } else {
        TakeDataState(itf.Infos(), itf.ackoff, p, x, itf.net.takes(itf.net.tries));
      }
    }
    var res := itf.RecvData(x.dataType, x.id, x.frame.num, x.frame.payload, now);
  }

  lemma PeerSizes(qs: seq<QueueInfo>, p: Peer)
    requires PeerOk(qs, p)
    ensures AllReady(qs, p.txs) && |p.accepted| == |p.acked| == |qs| && |p.recvSeq| == |p.partial| == 256
  {
  }

  lemma TakeDataState(qs: seq<QueueInfo>, ackoff: byte, p: Peer, x: Packet, takesAck: bool)
    requires PeerOk(qs, p)
    ensures var p' := TakeData(ackoff, p, x, takesAck).0;
      PeerOk(qs, p') && p'.txs == p.txs && p'.open == p.open
  {
    hide Unpack, AllReady;
  }

  /** The application stops the object. */
  method StopItf(itf: CmdItf3, ghost p: Peer)
    requires HasState(itf, p)
    modifies itf`open, itf.queues, set q <- itf.queues :: q.ring
    ensures HasState(itf, Stopped(p))
  {
    hide PeerOk, CmdItf3.Valid;
    StoppedOk(itf.Infos(), p);
    itf.StopAll();
  }
}
