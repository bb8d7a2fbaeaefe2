/** Runs of a queue of version 3 that is not acknowledged: what is delivered when frames are lost,
    duplicated and refused, and what a command too large for a pack does to it. */
module UnackedV3 {
  import opened Bytes
  import opened Commands
  import opened PackV3
  import opened Links
  import opened StopAndWait
  import opened OneWay
  import opened QueueV3

  /** A queue, the receiver of its frames and the link. `accepted` holds all the commands ever
      accepted from the application, oldest first, and `popped` counts those that left the queue. */
  datatype Sys = Sys(tx: Tx, stopped: bool, recvSeq: u16, delivered: seq<seq<byte>>, data: seq<Frame>,
                     accepted: seq<Cmd>, popped: nat)

  const INIT := Sys(NEW_TX, false, 0xFFFF, [], [], [], 0)

  /** The commands that the receiver delivers from a payload; it keeps no part of a command. */
  function Delivers(payload: seq<byte>): seq<seq<byte>> {
    Unpack(payload, None, false).delivered
  }

  /** One step of the system; there are no acknowledgements. */
  function Next(q: QueueInfo, s: Sys, step: Step<Cmd>): Sys
    requires s.tx.entries == [] || Consistent(q, s.tx)
  {
    match step
    case Send(cmd) =>
      if s.stopped then s
      else s.(tx := Add(s.tx, Entry(cmd, |s.accepted|)), accepted := s.accepted + [cmd])
    case Check(now, ok) =>
      var p := CheckOnce(q, s.tx, now, ok);
      s.(tx := p.tx, data := if p.frame.Some? && ok then s.data + [p.frame.value] else s.data,
         popped := s.popped + if |p.tx.entries| <= |s.tx.entries| then |s.tx.entries| - |p.tx.entries| else 0)
    case StopQueue =>
      s.(tx := Stop(s.tx), stopped := true)
    case DataArrives =>
      if s.data == [] then s
      else
        var f, rest := s.data[0], s.data[1..];
        if !ShouldProcess(s.recvSeq, f.num) then s.(data := rest)
        else s.(recvSeq := f.num, delivered := s.delivered + Delivers(f.payload), data := rest)
    case LoseData(i) => if i < |s.data| then s.(data := Lose(s.data, i)) else s
    case DuplicateData(i) => if i < |s.data| then s.(data := Duplicate(s.data, i)) else s
    case _ => s
  }

  // ----- A command too large for a pack -----

  /** The bytes that refused looks leave in a pack: the size of the oldest command, again and again. */
  function Sizes(size: seq<byte>, k: nat): (r: seq<byte>)
    ensures |r| == k * |size|
  {
    if k == 0 then []
    else
      var r := Sizes(size, k - 1);
      assert k * |size| == (k - 1) * |size| + |size|;
      r + size
  }

  lemma {:induction false} SizesFirst(size: seq<byte>, k: nat)
    ensures Sizes(size, k + 1) == size + Sizes(size, k)
  {
    if k > 0 {
      SizesFirst(size, k - 1);
    } else {
      assert [] + size == size + [];
    }
  }

  /** What the receiver makes of a size that is sent `k + 1` times: the first one is the size of a
      command, and the others are taken for the command itself as soon as they are long enough. */
  lemma SizesDeliver(c: Cmd, k: nat)
    requires !FitsAlone(c)
    ensures var size := WriteVarint(|c|);
      && (Delivers(Sizes(size, k + 1)) == [] <==> k * |size| < |c|)
      && (k * |size| >= |c| ==> Delivers(Sizes(size, k + 1))[0] == Sizes(size, k)[..|c|])
  {
    var size := WriteVarint(|c|);
    var rest := Sizes(size, k);
    SizesFirst(size, k);
    VarintRoundTrip(|c|, rest);
    assert (size + rest)[|size|..] == rest;
    assert Delivers(size + rest) == Continue(rest, |c|, [], None, false).delivered;
    assert [] + rest[..if |c| <= |rest| then |c| else 0] == rest[..if |c| <= |rest| then |c| else 0];
  }

  // ----- What every queue keeps -----

  /** The commands that did not leave the queue. */
  function Pending(s: Sys): seq<Cmd>
    requires s.popped <= |s.accepted|
  {
    s.accepted[s.popped..]
  }

  /** The entries of the queue are the pending commands, until the queue is stopped. */
  ghost predicate EntriesOk(s: Sys) {
    && s.popped <= |s.accepted|
    && |s.tx.entries| == |s.accepted| - s.popped
    && forall i :: 0 <= i < |s.tx.entries| ==> s.tx.entries[i] == Entry(s.accepted[s.popped + i], s.popped + i)
  }

  /** The pack of a queue whose oldest command is too large. */
  ghost predicate Stuffed(pending: seq<Cmd>, buf: seq<byte>, k: nat) {
    pending != [] && !FitsAlone(pending[0]) && buf == Sizes(WriteVarint(|pending[0]|), k)
  }

  /** A pack with sizes only, and the same pack with one more of them. */
  ghost predicate OneMore(pending: seq<Cmd>, buf: seq<byte>, made: seq<byte>) {
    exists k: nat :: Stuffed(pending, buf, k) && Stuffed(pending, made, k + 1)
  }

  /** The current pack delivers the commands counted in it; one without commands is empty or has
      only sizes. */
  ghost predicate PackOk(pending: seq<Cmd>, tx: Tx) {
    && tx.cmdCount <= |pending|
    && (tx.cmdCount > 0 ==> Delivers(tx.buf) == Deliverable(pending[..tx.cmdCount]))
    && (tx.cmdCount == 0 && tx.buf != [] ==> exists k: nat :: Stuffed(pending, tx.buf, k))
  }

  ghost predicate QueueInv(q: QueueInfo, s: Sys) {
    && (s.stopped ==> s.tx.entries == [] && s.popped <= |s.accepted|)
    && (!s.stopped ==> Consistent(q, s.tx) && EntriesOk(s) && PackOk(Pending(s), s.tx))
  }

  lemma PendingCmds(s: Sys)
    requires EntriesOk(s)
    ensures Cmds(s.tx.entries) == Pending(s)
  {
  }

  /** The pack that a transmission sends: the current one, or a new one. */
  function Made(q: QueueInfo, tx: Tx): (r: Tx)
    requires Consistent(q, tx)
  {
    if tx.cmdCount == 0 then PackCmds(q, tx) else tx
  }

  /** Packing gives a pack that delivers its commands, or adds one more size. */
  lemma MadeOk(q: QueueInfo, pending: seq<Cmd>, tx: Tx)
    requires !q.ack && Consistent(q, tx) && PackOk(pending, tx) && Cmds(tx.entries) == pending && pending != []
    ensures var made := Made(q, tx);
      && PackOk(pending, made)
      && (made.cmdCount > 0 <==> tx.cmdCount > 0 || FitsAlone(pending[0]))
      && (made.cmdCount == 0 ==> OneMore(pending, tx.buf, made.buf))
  {
    if tx.cmdCount == 0 {
      var made := Made(q, tx);
      NoAckPackSize(pending, 0);
      if made.cmdCount > 0 {
        NothingBefore(pending, tx);
        var p := PackFrom(pending, 0, false);
        assert made.buf == p.data by { assert [] + p.data == p.data; }
        NoAckPackUnpack(pending, 0, true, Success);
        assert p.data != [];
      } else {
        var k := OneMoreSize(pending, tx);
        assert Stuffed(pending, made.buf, k + 1);
      }
    }
  }

  lemma NothingBefore(pending: seq<Cmd>, tx: Tx)
    requires PackOk(pending, tx) && tx.cmdCount == 0 && pending != [] && FitsAlone(pending[0])
    ensures tx.buf == []
  {
  }

  lemma OneMoreSize(pending: seq<Cmd>, tx: Tx) returns (k: nat)
    requires PackOk(pending, tx) && tx.cmdCount == 0 && pending != [] && !FitsAlone(pending[0])
    ensures Stuffed(pending, tx.buf, k)
    ensures PackFrom(pending, 0, false).count == 0
      && Stuffed(pending, tx.buf + PackFrom(pending, 0, false).data, k + 1)
  {
    if tx.buf == [] {
      assert Stuffed(pending, tx.buf, 0);
      k := 0;
    } else {
      k :| Stuffed(pending, tx.buf, k);
    }
  }

  /** What one look at a queue does to its entries, its pack and its numbers. */
  lemma CheckShape(q: QueueInfo, tx: Tx, now: nat, ok: bool)
    requires !q.ack && Consistent(q, tx) && tx.entries != []
    ensures var p, made := CheckOnce(q, tx, now, ok), Made(q, tx);
      && Consistent(q, p.tx)
      && made.entries == tx.entries && made.cmdCount <= |tx.entries|
      && (p.frame == None ==>
        p.tx.entries == tx.entries && p.tx.buf == tx.buf && p.tx.cmdCount == tx.cmdCount && p.tx.num == tx.num)
      && (p.frame.Some? ==>
        && p.frame.value == Frame(if tx.cmdCount == 0 then NextSeq(tx.num) else tx.num, made.buf)
        && p.tx.num == p.frame.value.num
        && (if ok then p.tx.entries == tx.entries[made.cmdCount..] && p.tx.buf == [] && p.tx.cmdCount == 0
            else p.tx.entries == tx.entries && p.tx.buf == made.buf && p.tx.cmdCount == made.cmdCount))
  {
    hide Pack, Remaining;
    CheckOnceKeeps(q, tx, now, ok);
  }

  /** The transport takes a frame that carries no command and is as long as the oldest one with its
      size. */
  predicate TakesForeign(q: QueueInfo, tx: Tx, now: nat, ok: bool)
    requires tx.entries == [] || Consistent(q, tx)
  {
    var p := CheckOnce(q, tx, now, ok);
    && p.frame.Some? && ok && |p.tx.entries| == |tx.entries| && tx.entries != []
    && |p.frame.value.payload| >= |WriteVarint(|tx.entries[0].cmd|)| + |tx.entries[0].cmd|
  }

  /** The pack of a queue whose oldest command is too large delivers nothing, or what it never got. */
  lemma StuffedDelivers(pending: seq<Cmd>, buf: seq<byte>, made: seq<byte>)
    requires pending != [] && OneMore(pending, buf, made)
    ensures Delivers(made) == [] <==> |made| < |WriteVarint(|pending[0]|)| + |pending[0]|
  {
    hide Delivers, FitsAlone;
    var k: nat :| Stuffed(pending, buf, k) && Stuffed(pending, made, k + 1);
    var size := WriteVarint(|pending[0]|);
    hide WriteVarint;
    SizesDeliver(pending[0], k);
    SizesFirst(size, k);
    assert |Sizes(size, k)| == k * |size|;
  }

  /** What a frame delivers is what left the queue with it, if and only if the frame is not one of
      sizes that is long enough to be taken for a command. */
  lemma FrameDelivers(q: QueueInfo, tx: Tx, pending: seq<Cmd>, now: nat)
    requires !q.ack && Consistent(q, tx) && PackOk(pending, tx) && Cmds(tx.entries) == pending && pending != []
    requires CheckOnce(q, tx, now, true).frame.Some?
    ensures var p := CheckOnce(q, tx, now, true);
      && |p.tx.entries| <= |tx.entries|
      && (Delivers(p.frame.value.payload) == Deliverable(pending[..|tx.entries| - |p.tx.entries|])
          <==> !TakesForeign(q, tx, now, true))
  {
    hide Consistent, CheckOnce, PackCmds, Delivers, PackOk, OneMore, Made, WriteVarint, Deliverable, FitsAlone;
    var made := Made(q, tx);
    CheckShape(q, tx, now, true);
    MadeOk(q, pending, tx);
    assert pending[0] == tx.entries[0].cmd;
    if made.cmdCount == 0 {
      StuffedDelivers(pending, tx.buf, made.buf);
      NoneDeliverable(pending);
    } else {
      PackDelivers(pending, made);
    }
  }

  lemma NoneDeliverable(pending: seq<Cmd>)
    ensures pending[..0] == [] && Deliverable([]) == []
  {
  }

  lemma PackDelivers(pending: seq<Cmd>, tx: Tx)
    requires PackOk(pending, tx) && tx.cmdCount > 0
    ensures tx.cmdCount <= |pending| && Delivers(tx.buf) == Deliverable(pending[..tx.cmdCount])
  {
  }

  lemma SendQueue(q: QueueInfo, s: Sys, cmd: Cmd)
    requires !q.ack && QueueInv(q, s) && Next.requires(q, s, Send(cmd))
    ensures QueueInv(q, Next(q, s, Send(cmd)))
  {
    hide Consistent, Delivers, Sizes, FitsAlone;
    if !s.stopped {
      AddKeeps(q, s.tx, Entry(cmd, |s.accepted|));
      assert Pending(Next(q, s, Send(cmd))) == Pending(s) + [cmd];
      PackOkAppend(Pending(s), cmd, s.tx, Next(q, s, Send(cmd)).tx);
    }
  }

  lemma PackOkAppend(pending: seq<Cmd>, cmd: Cmd, tx: Tx, t: Tx)
    requires PackOk(pending, tx) && t.buf == tx.buf && t.cmdCount == tx.cmdCount
    ensures PackOk(pending + [cmd], t)
  {
    hide Delivers, Sizes, FitsAlone;
    assert (pending + [cmd])[..tx.cmdCount] == pending[..tx.cmdCount];
    if tx.cmdCount == 0 && tx.buf != [] {
      var k: nat :| Stuffed(pending, tx.buf, k);
      assert Stuffed(pending + [cmd], t.buf, k);
    }
  }

  lemma SamePack(pending: seq<Cmd>, tx: Tx, t: Tx)
    requires PackOk(pending, tx) && t.buf == tx.buf && t.cmdCount == tx.cmdCount
    ensures PackOk(pending, t)
  {
  }

  lemma CheckPack(q: QueueInfo, tx: Tx, pending: seq<Cmd>, now: nat, ok: bool)
    requires !q.ack && Consistent(q, tx) && PackOk(pending, tx) && Cmds(tx.entries) == pending && pending != []
    ensures var t := CheckOnce(q, tx, now, ok).tx;
      |t.entries| <= |tx.entries| && PackOk(pending[|tx.entries| - |t.entries|..], t)
  {
    hide Consistent, PackOk, CheckOnce, PackCmds, OneMore, FitsAlone;
    var p, made := CheckOnce(q, tx, now, ok), Made(q, tx);
    CheckShape(q, tx, now, ok);
    MadeOk(q, pending, tx);
    if p.frame == None {
      SamePack(pending, tx, p.tx);
    } else if !ok {
      SamePack(pending, made, p.tx);
    } else {
      NoPack(pending[made.cmdCount..], p.tx);
    }
  }

  lemma PoppedEntries(s: Sys, t: Sys, n: nat)
    requires EntriesOk(s) && n <= |s.tx.entries|
    requires t.tx.entries == s.tx.entries[n..] && t.popped == s.popped + n && t.accepted == s.accepted
    ensures EntriesOk(t) && Pending(t) == Pending(s)[n..]
  {
  }

  lemma CheckQueue(q: QueueInfo, s: Sys, now: nat, ok: bool)
    requires !q.ack && QueueInv(q, s) && Next.requires(q, s, Check(now, ok))
    ensures QueueInv(q, Next(q, s, Check(now, ok)))
  {
    hide Consistent, PackOk, CheckOnce, Made, EntriesOk, Pending, Delivers, FitsAlone, Cmds;
    if s.tx.entries == [] {
      EmptyOnce(q, s.tx, now, ok);
    } else {
      SomePending(s);
      CheckShape(q, s.tx, now, ok);
      CheckPack(q, s.tx, Pending(s), now, ok);
      var t := Next(q, s, Check(now, ok));
      PoppedEntries(s, t, |s.tx.entries| - |t.tx.entries|);
    }
  }

  lemma SomePending(s: Sys)
    requires EntriesOk(s) && s.tx.entries != []
    ensures s.popped <= |s.accepted| && Cmds(s.tx.entries) == Pending(s) && Pending(s) != []
  {
    PendingCmds(s);
  }

  lemma NoPack(pending: seq<Cmd>, tx: Tx)
    requires tx.cmdCount == 0 && tx.buf == []
    ensures PackOk(pending, tx)
  {
  }

  lemma EmptyOnce(q: QueueInfo, tx: Tx, now: nat, ok: bool)
    requires tx.entries == []
    ensures CheckOnce(q, tx, now, ok) == Pass(tx, None, None, false)
  {
  }

  /** Every step keeps what holds of the queue. */
  lemma StepKeepsQueue(q: QueueInfo, s: Sys, step: Step<Cmd>)
    requires !q.ack && QueueInv(q, s)
    ensures Next.requires(q, s, step) && QueueInv(q, Next(q, s, step))
  {
    hide Consistent, CheckOnce, PackOk, Delivers;
    match step
    case Send(cmd) => SendQueue(q, s, cmd);
    case Check(now, ok) => CheckQueue(q, s, now, ok);
    case _ =>
  }

  // ----- What is delivered -----

  /** A history explains a state: its transmissions carried the commands that left the queue. */
  ghost predicate Explained(s: Sys, h: History) {
    && s.popped <= |s.accepted| && Flatten(h.sent) == s.accepted[..s.popped]
    && Explains(h, Delivers, s.data, s.recvSeq, s.delivered)
  }

  /** Nothing was lost so far, and the number of the queue is that of its next transmission if a pack
      is ready, else of its last one. */
  ghost predicate NothingLost(s: Sys, h: History) {
    && Unbroken(h)
    && (forall c <- s.accepted :: FitsAlone(c))
    && s.tx.num == (if s.tx.cmdCount > 0 then |h.sent| % 0x1_0000 else (|h.sent| - 1) % 0x1_0000) as u16
  }

  /** A transmission that the transport takes, with the first `n` of the pending commands. */
  lemma TakenExplained(s: Sys, h: History, t: Sys, f: Frame, n: nat)
    requires Explained(s, h) && n <= |s.accepted| - s.popped
    requires Delivers(f.payload) == Deliverable(Pending(s)[..n])
    requires t.recvSeq == s.recvSeq && t.delivered == s.delivered && t.data == s.data + [f]
    requires t.accepted == s.accepted && t.popped == s.popped + n
    ensures Explained(t, Transmit(h, Sent(f, Pending(s)[..n])))
  {
    hide Explains, Delivers, Deliverable;
    var x := Sent(f, Pending(s)[..n]);
    TransmitExplained(h, Delivers, s.data, s.recvSeq, s.delivered, x);
    FlattenAppend(h.sent, x);
    assert s.accepted[..s.popped + n] == s.accepted[..s.popped] + Pending(s)[..n];
  }

  lemma CheckExplained(q: QueueInfo, s: Sys, h: History, now: nat, ok: bool) returns (h': History)
    requires !q.ack && QueueInv(q, s) && Explained(s, h) && Next.requires(q, s, Check(now, ok))
    requires !TakesForeign(q, s.tx, now, ok)
    ensures Explained(Next(q, s, Check(now, ok)), h')
    ensures NothingLost(s, h) ==> NothingLost(Next(q, s, Check(now, ok)), h')
  {
    hide CheckOnce, Consistent, Explained, Unbroken, FitsAlone, Deliverable, Delivers, TakesForeign, PackOk, OneMore, Made;
    h' := h;
    if s.tx.entries == [] {
      EmptyOnce(q, s.tx, now, ok);
      SameExplained(s, h, Next(q, s, Check(now, ok)));
    } else {
      var t, p, n := Next(q, s, Check(now, ok)), CheckOnce(q, s.tx, now, ok), Made(q, s.tx).cmdCount;
      PendingCmds(s);
      CheckShape(q, s.tx, now, ok);
      if p.frame.Some? && ok {
        FrameDelivers(q, s.tx, Pending(s), now);
        TakenExplained(s, h, t, p.frame.value, n);
        h' := Transmit(h, Sent(p.frame.value, Pending(s)[..n]));
      } else {
        SameExplained(s, h, t);
      }
      if NothingLost(s, h) {
        CheckLosesNothing(q, s, h, now, ok, h');
      }
    }
  }

  lemma SameExplained(s: Sys, h: History, t: Sys)
    requires Explained(s, h)
    requires t == s.(tx := t.tx)
    ensures Explained(t, h)
  {
  }

  /** A look at a queue gives the next number to the next frame, also after a refusal. */
  lemma CheckLosesNothing(q: QueueInfo, s: Sys, h: History, now: nat, ok: bool, h': History)
    requires !q.ack && QueueInv(q, s) && NothingLost(s, h) && s.tx.entries != []
    requires var p := CheckOnce(q, s.tx, now, ok);
      if p.frame.Some? && ok then exists cmds :: h' == Transmit(h, Sent(p.frame.value, cmds)) else h' == h
    ensures NothingLost(Next(q, s, Check(now, ok)), h')
  {
    hide CheckOnce, Consistent, Unbroken, FitsAlone, PackOk, OneMore, Made;
    PendingCmds(s);
    CheckShape(q, s.tx, now, ok);
    MadeOk(q, Pending(s), s.tx);
    assert Pending(s)[0] == s.accepted[s.popped];
    var p := CheckOnce(q, s.tx, now, ok);
    if p.frame.Some? && ok {
      var cmds :| h' == Transmit(h, Sent(p.frame.value, cmds));
      TransmitUnbroken(h, Sent(p.frame.value, cmds));
    }
  }

  /** A frame that arrives moves the receiver as the history says. */
  lemma ArriveStep(q: QueueInfo, s: Sys, h: History) returns (h': History)
    requires Explained(s, h) && s.data != [] && Next.requires(q, s, DataArrives)
    ensures Explained(Next(q, s, DataArrives), h')
    ensures NothingLost(s, h) ==> NothingLost(Next(q, s, DataArrives), h')
  {
    hide Consistent, Delivers, Deliverable, Flatten, Unbroken, Ordered;
    ArriveExplained(h, Delivers, s.data, s.recvSeq, s.delivered);
    h' := Arrive(h, ShouldProcess(s.recvSeq, s.data[0].num));
    if Unbroken(h) {
      ArriveUnbroken(h);
    }
  }

  lemma LinkStepExplained(q: QueueInfo, s: Sys, h: History, step: Step<Cmd>) returns (h': History)
    requires step.LoseData? || step.DuplicateData?
    requires Explained(s, h) && Next.requires(q, s, step)
    ensures Explained(Next(q, s, step), h')
    ensures NothingLost(s, h) && !step.LoseData? ==> NothingLost(Next(q, s, step), h')
  {
    hide Consistent, Explains, Unbroken, Flatten;
    h' := h;
    if step.i < |s.data| {
      ExplainsLink(h, Delivers, s.data, s.recvSeq, s.delivered);
      if step.LoseData? {
        LoseExplained(h, Delivers, s.data, s.recvSeq, s.delivered, step.i);
        h' := h.(onLink := Lose(h.onLink, step.i));
      } else {
        DuplicateExplained(h, Delivers, s.data, s.recvSeq, s.delivered, step.i);
        h' := h.(onLink := Duplicate(h.onLink, step.i));
        if Unbroken(h) {
          DuplicateUnbroken(h, step.i);
        }
      }
    }
  }

  lemma OtherStepExplained(q: QueueInfo, s: Sys, h: History, step: Step<Cmd>)
    requires QueueInv(q, s) && Explained(s, h) && Next.requires(q, s, step)
    requires step.Send? || step.StopQueue? || step.AckArrives? || step.LoseAck? || step.DuplicateAck?
    ensures Explained(Next(q, s, step), h)
    ensures NothingLost(s, h) && (step.Send? ==> FitsAlone(step.cmd)) ==> NothingLost(Next(q, s, step), h)
  {
    hide Explains, Unbroken, Consistent, PackOk, FitsAlone, Flatten;
    var t := Next(q, s, step);
    assert t.accepted[..t.popped] == s.accepted[..s.popped];
  }

  /** Every step that does not transmit a frame without commands that looks like one keeps a state
      explained, and nothing is lost unless a frame is. */
  lemma StepExplained(q: QueueInfo, s: Sys, h: History, step: Step<Cmd>) returns (h': History)
    requires !q.ack && QueueInv(q, s) && Explained(s, h) && Next.requires(q, s, step)
    requires step.Check? ==> !TakesForeign(q, s.tx, step.now, step.ok)
    ensures Explained(Next(q, s, step), h')
    ensures NothingLost(s, h) && !step.LoseData? && (step.Send? ==> FitsAlone(step.cmd))
      ==> NothingLost(Next(q, s, step), h')
  {
    hide QueueInv, CheckOnce, Explained, NothingLost, Consistent, FitsAlone, TakesForeign;
    match step
    case Check(now, ok) => h' := CheckExplained(q, s, h, now, ok);
    case DataArrives =>
      if s.data == [] {
        h' := h;
      } else {
        h' := ArriveStep(q, s, h);
      }
    case LoseData(i) => h' := LinkStepExplained(q, s, h, step);
    case DuplicateData(i) => h' := LinkStepExplained(q, s, h, step);
    case _ =>
      OtherStepExplained(q, s, h, step);
      h' := h;
  }

  // ----- Runs -----

  /** The state after the given steps. */
  function RunFrom(q: QueueInfo, s: Sys, steps: seq<Step<Cmd>>): (t: Sys)
    requires !q.ack && QueueInv(q, s)
    ensures QueueInv(q, t)
    decreases |steps|
  {
    if steps == [] then s
    else
      StepKeepsQueue(q, s, steps[0]);
      RunFrom(q, Next(q, s, steps[0]), steps[1..])
  }

  /** No frame of the run is one of sizes that is long enough to be taken for a command. */
  ghost predicate Harmless(q: QueueInfo, s: Sys, steps: seq<Step<Cmd>>)
    requires !q.ack && QueueInv(q, s)
    decreases |steps|
  {
    steps == [] ||
    (StepKeepsQueue(q, s, steps[0]);
     && (steps[0].Check? ==> !TakesForeign(q, s.tx, steps[0].now, steps[0].ok))
     && Harmless(q, Next(q, s, steps[0]), steps[1..]))
  }

  lemma {:induction false} RunExplained(q: QueueInfo, s: Sys, h: History, steps: seq<Step<Cmd>>)
    returns (h': History)
    requires !q.ack && QueueInv(q, s) && Explained(s, h) && Harmless(q, s, steps)
    ensures Explained(RunFrom(q, s, steps), h')
    ensures NothingLost(s, h) && (forall x <- steps :: !x.LoseData? && (x.Send? ==> FitsAlone(x.cmd)))
      ==> NothingLost(RunFrom(q, s, steps), h')
    decreases |steps|
  {
    hide QueueInv, Next, Explained, NothingLost, FitsAlone, TakesForeign;
    h' := h;
    if steps != [] {
      StepKeepsQueue(q, s, steps[0]);
      h' := StepExplained(q, s, h, steps[0]);
      h' := RunExplained(q, Next(q, s, steps[0]), h', steps[1..]);
    }
  }

  lemma StartOk(q: QueueInfo)
    ensures QueueInv(q, INIT) && Explained(INIT, NO_HISTORY) && NothingLost(INIT, NO_HISTORY)
  {
    assert INIT.accepted[..0] == [];
    assert Pick([], []) == [] && Frames([], []) == [];
    assert Ahead(NO_HISTORY) == [-1, 0];
    assert Cmds([])[..0] == [];
  }

  /** The state after the given steps from the start. */
  function Run(q: QueueInfo, steps: seq<Step<Cmd>>): (s: Sys)
    requires !q.ack
    ensures QueueInv(q, s)
  {
    StartOk(q);
    RunFrom(q, INIT, steps)
  }

  /** In every run of a queue that is not acknowledged, whatever is lost, duplicated or refused, and
      across any number of wraps of the sequence numbers, the commands delivered are a subsequence
      of those that left the queue: they can be divided into packs of which some were delivered, in
      order and each once. The only exception is a frame of sizes that is as long as a command. */
  lemma AtMostOnceInOrder(q: QueueInfo, steps: seq<Step<Cmd>>)
    requires !q.ack && QueueInv(q, INIT) && Harmless(q, INIT, steps)
    ensures var s := Run(q, steps);
      s.popped <= |s.accepted| && AtMostOnce(s.accepted[..s.popped], s.delivered)
  {
    StartOk(q);
    var h := RunExplained(q, INIT, NO_HISTORY, steps);
    var s := Run(q, steps);
    ExplainedIsAtMostOnce(h, Delivers, s.data, s.recvSeq, s.delivered);
  }

  /** A look at a queue whose oldest command fits in a pack takes no frame of sizes. */
  lemma FittingIsHarmless(q: QueueInfo, s: Sys, now: nat, ok: bool)
    requires !q.ack && QueueInv(q, s) && forall c <- s.accepted :: FitsAlone(c)
    ensures Next.requires(q, s, Check(now, ok)) && !TakesForeign(q, s.tx, now, ok)
  {
    hide Consistent, PackOk, CheckOnce, Made, Delivers, FitsAlone, Cmds;
    if s.tx.entries != [] {
      SomePending(s);
      assert Pending(s)[0] == s.accepted[s.popped];
      CheckShape(q, s.tx, now, ok);
      MadeOk(q, Pending(s), s.tx);
    }
  }

  lemma {:induction false} FittingRunIsHarmless(q: QueueInfo, s: Sys, steps: seq<Step<Cmd>>)
    requires !q.ack && QueueInv(q, s)
    requires (forall c <- s.accepted :: FitsAlone(c)) && forall x <- steps :: x.Send? ==> FitsAlone(x.cmd)
    ensures Harmless(q, s, steps)
    decreases |steps|
  {
    hide QueueInv, TakesForeign, FitsAlone, Consistent, CheckOnce;
    if steps != [] {
      StepKeepsQueue(q, s, steps[0]);
      if steps[0].Check? {
        FittingIsHarmless(q, s, steps[0].now, steps[0].ok);
      }
      FittingRunIsHarmless(q, Next(q, s, steps[0]), steps[1..]);
    }
  }

  /** Only the link loses commands that fit in a pack: in a run in which it lost no frame, and has
      none left, everything that left the queue was delivered. */
  lemma OnlyLossesLose(q: QueueInfo, steps: seq<Step<Cmd>>)
    requires !q.ack && (forall x <- steps :: !x.LoseData? && (x.Send? ==> FitsAlone(x.cmd)))
    requires Run(q, steps).data == []
    ensures var s := Run(q, steps);
      s.popped <= |s.accepted| && s.delivered == Deliverable(s.accepted[..s.popped])
  {
    StartOk(q);
    FittingRunIsHarmless(q, INIT, steps);
    var h := RunExplained(q, INIT, NO_HISTORY, steps);
    var s := Run(q, steps);
    UnbrokenDelivers(h, Delivers, s.data, s.recvSeq, s.delivered);
  }

  // ----- How often frames are sent -----

  /** The times of the looks that put a frame on the link. */
  function SendTimes(q: QueueInfo, s: Sys, steps: seq<Step<Cmd>>): seq<nat>
    requires !q.ack && QueueInv(q, s)
    decreases |steps|
  {
    if steps == [] then []
    else
      StepKeepsQueue(q, s, steps[0]);
      var t := Next(q, s, steps[0]);
      (if steps[0].Check? && |t.data| > |s.data| then [steps[0].now] else []) + SendTimes(q, t, steps[1..])
  }

  /** The minimum delay is counted from the last transmission. */
  ghost predicate Paced(tx: Tx, last: Option<nat>, clock: nat) {
    last.Some? ==> last.value <= clock && tx.lastSentTs == last.value
  }

  lemma PacedStep(q: QueueInfo, s: Sys, step: Step<Cmd>, last: Option<nat>, clock: nat)
    requires !q.ack && QueueInv(q, s) && Next.requires(q, s, step) && Paced(s.tx, last, clock)
    requires step.Check? ==> clock <= step.now
    ensures var t := Next(q, s, step);
      var sent := step.Check? && |t.data| > |s.data|;
      && (sent && last.Some? ==> step.now >= last.value + 1000 * q.maxTxRateMs)
      && Paced(t.tx, if sent then Some(step.now) else last, if step.Check? then step.now else clock)
  {
    hide PackOk, EntriesOk, Consistent, Pack, PackEvents, Delivers;
  }

  lemma {:induction false} PacedRun(q: QueueInfo, s: Sys, steps: seq<Step<Cmd>>, last: Option<nat>, clock: nat)
    requires !q.ack && QueueInv(q, s) && Clock(steps, clock) && Paced(s.tx, last, clock)
    ensures var times := SendTimes(q, s, steps);
      && (last.Some? && times != [] ==> times[0] >= last.value + 1000 * q.maxTxRateMs)
      && Spaced(times, 1000 * q.maxTxRateMs)
    decreases |steps|
  {
    hide QueueInv, Next, Paced;
    if steps != [] {
      StepKeepsQueue(q, s, steps[0]);
      var step, t := steps[0], Next(q, s, steps[0]);
      PacedStep(q, s, step, last, clock);
      var sent := step.Check? && |t.data| > |s.data|;
      PacedRun(q, t, steps[1..], if sent then Some(step.now) else last, if step.Check? then step.now else clock);
    }
  }

  /** In every run whose times do not go back, at least the minimum delay passes between any two frames in
      a row, so there are few of them in any time. */
  lemma OneFramePerDelay(q: QueueInfo, steps: seq<Step<Cmd>>)
    requires !q.ack && Clock(steps, 0)
    ensures QueueInv(q, INIT)
    ensures var times := SendTimes(q, INIT, steps);
      && Spaced(times, 1000 * q.maxTxRateMs)
      && (times != [] ==> times[|times| - 1] - times[0] >= (|times| - 1) * (1000 * q.maxTxRateMs))
  {
    StartOk(q);
    PacedRun(q, INIT, steps, None, 0);
    var times := SendTimes(q, INIT, steps);
    if times != [] {
      SpacedFew(times, 1000 * q.maxTxRateMs);
    }
  }

  // ----- The run that delivers what was never sent -----

  /** A queue with one command too large for a pack after `j` refused looks. */
  ghost predicate Refused(s: Sys, c: Cmd, j: nat) {
    && !s.stopped && s.accepted == [c] && s.popped == 0 && s.data == [] && s.recvSeq == 0xFFFF && s.delivered == []
    && s.tx == NEW_TX.(entries := [Entry(c, 0)], buf := Sizes(WriteVarint(|c|), j), log := s.tx.log,
                       num := ((j - 1) % 0x1_0000) as u16)
  }

  /** A time at which no delay that began at the start is running. */
  function Later(q: QueueInfo): nat {
    if q.maxTxRateMs > 0 then q.maxTxRateMs * 1000 + 1 else 0
  }

  lemma RefusedOnce(q: QueueInfo, s: Sys, c: Cmd, j: nat)
    requires !q.ack && QueueInv(q, s) && Refused(s, c, j) && !FitsAlone(c)
    ensures Next.requires(q, s, Check(Later(q), false)) && Refused(Next(q, s, Check(Later(q), false)), c, j + 1)
  {
    assert Cmds(s.tx.entries) == [c];
    assert Pack([c], 0, false) == PackResult(WriteVarint(|c|), 0, 0);
  }

  lemma TakenOnce(q: QueueInfo, s: Sys, c: Cmd, k: nat)
    requires !q.ack && QueueInv(q, s) && Refused(s, c, k) && !FitsAlone(c) && k % 0x1_0000 == 0
    ensures Next.requires(q, s, Check(Later(q), true))
    ensures var t := Next(q, s, Check(Later(q), true));
      && QueueInv(q, t) && t.popped == 0 && t.recvSeq == 0xFFFF && t.delivered == []
      && t.data == [Frame(0, Sizes(WriteVarint(|c|), k + 1))]
  {
    hide Delivers;
    StepKeepsQueue(q, s, Check(Later(q), true));
    assert Cmds(s.tx.entries) == [c];
    assert Pack([c], 0, false) == PackResult(WriteVarint(|c|), 0, 0);
  }

  lemma TakenAtLast(q: QueueInfo, s: Sys, c: Cmd, k: nat)
    requires !q.ack && QueueInv(q, s) && Refused(s, c, k) && !FitsAlone(c)
    requires k % 0x1_0000 == 0 && k * |WriteVarint(|c|)| >= |c|
    ensures Next.requires(q, s, Check(Later(q), true))
    ensures var t := Next(q, s, Check(Later(q), true));
      && QueueInv(q, t) && t.popped == 0
      && Next(q, t, DataArrives).popped == 0
      && Next(q, t, DataArrives).delivered != []
  {
    hide Delivers, QueueInv, Refused, FitsAlone, WriteVarint, Sizes;
    TakenOnce(q, s, c, k);
    var t := Next(q, s, Check(Later(q), true));
    hide CheckOnce;
    SizesDeliver(c, k);
    assert t.data[0] == Frame(0, Sizes(WriteVarint(|c|), k + 1));
  }

  /** The rest of the run, from any number of refused looks up to `k`. */
  lemma {:induction false} Refusals(q: QueueInfo, s: Sys, c: Cmd, j: nat, k: nat) returns (steps: seq<Step<Cmd>>)
    requires !q.ack && QueueInv(q, s) && Refused(s, c, j) && !FitsAlone(c) && j <= k
    requires k % 0x1_0000 == 0 && k * |WriteVarint(|c|)| >= |c|
    ensures forall x <- steps :: !x.Send?
    ensures var t := RunFrom(q, s, steps); t.popped == 0 && t.delivered != []
    decreases k - j
  {
    hide QueueInv, Next, Refused, FitsAlone;
    var look: Step<Cmd> := Check(Later(q), j == k);
    StepKeepsQueue(q, s, look);
    if j == k {
      TakenAtLast(q, s, c, k);
      steps := [look, DataArrives];
      var t := Next(q, s, look);
      StepKeepsQueue(q, t, DataArrives);
      assert steps[1..] == [DataArrives] && steps[1..][1..] == [];
      assert RunFrom(q, t, steps[1..]) == Next(q, t, DataArrives);
    } else {
      RefusedOnce(q, s, c, j);
      var rest := Refusals(q, Next(q, s, look), c, j + 1, k);
      steps := [look] + rest;
      assert steps[1..] == rest;
    }
  }

  /** For a command of any size, what its queue delivers is a subsequence of what left the queue in
      all runs with that command, if and only if the command fits in a pack. A larger one stays in
      the queue while its size, added again by each refused transmission, becomes a command that
      was never sent. */
  lemma AtMostOnceIffFits(q: QueueInfo, c: Cmd)
    requires !q.ack
    ensures FitsAlone(c) <==>
      forall steps: seq<Step<Cmd>> :: (forall x <- steps :: x.Send? ==> x.cmd == c) ==>
        var s := Run(q, steps); s.popped <= |s.accepted| && AtMostOnce(s.accepted[..s.popped], s.delivered)
  {
    hide FitsAlone, AtMostOnce;
    StartOk(q);
    if FitsAlone(c) {
      forall steps: seq<Step<Cmd>> | forall x <- steps :: x.Send? ==> x.cmd == c
        ensures var s := Run(q, steps); s.popped <= |s.accepted| && AtMostOnce(s.accepted[..s.popped], s.delivered)
      {
        FittingRunIsHarmless(q, INIT, steps);
        AtMostOnceInOrder(q, steps);
      }
    } else {
      var steps := ForeignCommand(q, c);
      var s := Run(q, steps);
      if AtMostOnce(s.accepted[..s.popped], s.delivered) {
        AtMostNothing(s.delivered);
      }
    }
  }

  lemma ForeignCommand(q: QueueInfo, c: Cmd) returns (steps: seq<Step<Cmd>>)
    requires !q.ack && !FitsAlone(c)
    ensures forall x <- steps :: x.Send? ==> x.cmd == c
    ensures var s := Run(q, steps); s.popped == 0 && s.delivered != []
  {
    StartOk(q);
    StepKeepsQueue(q, INIT, Send(c));
    var s := Next(q, INIT, Send(c));
    assert Refused(s, c, 0);
    var k := 0x1_0000 * |c|;
    Enough(|c|, |WriteVarint(|c|)|);
    var rest := Refusals(q, s, c, 0, k);
    steps := [Send(c)] + rest;
    assert steps[1..] == rest;
  }

  lemma Enough(n: nat, size: nat)
    requires size >= 1
    ensures 0x1_0000 * n * size >= n
  {
  }
}
