/** What an acknowledgement says in version 1, and what it does not: the 8-bit sequence numbers are
    counted without wrapping, on the links and at both ends, and compared. */
module CountsV1 {
  import opened Bytes
  import opened Commands
  import opened Links
  import opened QueueV1
  import opened SystemV1

  /** The sequence number that has the count `n`; the first one has the count 1. */
  function Num(n: nat): byte {
    Advanced(0xFF, n)
  }

  /** A system with the counts of its numbers: `used` of the last one used by the queue; `counts`, for
      each command transmitted, of that which it got; `inAcks` of those that the acknowledgements on
      the link answer; `heard` of the last frame that arrived, and `before` of the last one that was
      processed before that frame arrived for the first time. The first frame has no one before it. */
  datatype Counted = Counted(s: Sys, used: nat, counts: seq<nat>, inAcks: seq<nat>, heard: nat, before: nat)

  const INIT_COUNTED := Counted(INIT, 0, [], [], 0, 0)

  /** The count of the last frame that was processed. */
  function Seen(c: Counted): nat
    requires forall k :: 0 <= k < |c.s.got| ==> c.s.got[k] < |c.counts|
  {
    if c.s.got == [] then 0 else c.counts[c.s.got[|c.s.got| - 1]]
  }

  /** Whether a look at the queue uses a new number. */
  predicate Numbers(q: QueueInfo, s: Sys, step: Step<Request>) {
    step.Check? && s.tx.items != [] && Untouched(s.tx.items[0]) && CheckOnce(q, s.tx, step.now, step.ok).frame.Some?
  }

  /** The system makes a step, and the counts follow it. */
  function NextCounted(q: QueueInfo, c: Counted, step: Step<Request>): Counted
    requires Shaped(c)
  {
    var s, t := c.s, Next(q, c.s, step);
    match step
    case Check(now, ok) =>
      if !Numbers(q, s, step) then c.(s := t)
      else c.(s := t, used := c.used + 1, counts := if ok then c.counts + [c.used + 1] else c.counts)
    case DataArrives =>
      if s.data == [] then c
      else
        var k := c.counts[s.data[0].place];
        c.(s := t, inAcks := if q.ack then c.inAcks + [k] else c.inAcks,
           before := if k == c.heard then c.before else Seen(c), heard := k)
    case AckArrives => c.(s := t, inAcks := if s.acks == [] then c.inAcks else c.inAcks[1..])
    case LoseAck(i) => c.(s := t, inAcks := if i < |s.acks| then Lose(c.inAcks, i) else c.inAcks)
    case DuplicateAck(i) => c.(s := t, inAcks := if i < |s.acks| then Duplicate(c.inAcks, i) else c.inAcks)
    case _ => c.(s := t)
  }

  ghost predicate Shaped(c: Counted) {
    && |c.counts| == |c.s.order| && |c.inAcks| == |c.s.acks|
    && (forall i :: 0 <= i < |c.s.data| ==> c.s.data[i].place < |c.counts|)
    && (forall k :: 0 <= k < |c.s.got| ==> c.s.got[k] < |c.counts|)
  }

  /** The numbers are those of the counts. */
  ghost predicate Matches(c: Counted)
    requires Shaped(c)
  {
    && c.s.tx.num == Num(c.used) && c.s.rx.recvSeq == Num(Seen(c))
    && (forall i :: 0 <= i < |c.s.data| ==> c.s.data[i].frame.num == Num(c.counts[c.s.data[i].place]))
    && (forall i :: 0 <= i < |c.s.acks| ==> c.s.acks[i] == Num(c.inAcks[i]))
  }

  /** Each command got a later number than the one before it; what is on the link is not before what
      arrived, and acknowledgements are not after it. */
  ghost predicate Counting(c: Counted)
    requires Shaped(c)
  {
    && (forall j, k :: 0 <= j < k < |c.counts| ==> c.counts[j] < c.counts[k])
    && (forall k :: 0 <= k < |c.counts| ==> 0 < c.counts[k] <= c.used)
    && (forall i :: 0 <= i < |c.s.data| ==> c.heard <= c.counts[c.s.data[i].place])
    && (forall i :: 0 <= i < |c.inAcks| ==> 0 < c.inAcks[i] <= c.heard)
    && c.heard <= c.used
    && (c.s.tx.items != [] && !Untouched(c.s.tx.items[0]) ==> c.counts != [] && c.counts[|c.counts| - 1] == c.used)
  }

  /** The frame that arrived last was processed if and only if its number was to be processed after the
      one before it. */
  ghost predicate Judged(c: Counted)
    requires Shaped(c)
  {
    if c.heard == 0 then Seen(c) == 0
    else
      && c.before < c.heard
      && Seen(c) == if ShouldProcess(Num(c.before), Num(c.heard)) then c.heard else c.before
  }

  ghost predicate CountInv(q: QueueInfo, c: Counted) {
    SysInv(q, c.s) && Shaped(c) && Matches(c) && Counting(c) && Judged(c)
  }

  lemma NextNumIs(n: nat)
    ensures NextNum(Num(n)) == Num(n + 1)
  {
    NextOfAdvanced(0xFF, n);
  }

  /** What a look at the queue, which used a new number or not, does to the number, to what was
      transmitted and to the link. */
  ghost predicate Looked(s: Sys, t: Sys, numbered: bool, ok: bool) {
    && t.tx.num == (if numbered then NextNum(s.tx.num) else s.tx.num)
    && (t.tx.items != [] && !Untouched(t.tx.items[0]) ==>
      if numbered then ok else s.tx.items != [] && !Untouched(s.tx.items[0]))
    && t.rx == s.rx && t.got == s.got && t.acks == s.acks
    && (if numbered && ok then |t.order| == |s.order| + 1 && t.order[..|s.order|] == s.order else t.order == s.order)
    && (t.data == s.data
      || (&& ok && |t.data| == |s.data| + 1 && t.data[..|s.data|] == s.data
          && t.data[|s.data|].place == |t.order| - 1 && t.data[|s.data|].frame.num == t.tx.num
          && (numbered || (s.order != [] && s.tx.items != [] && !Untouched(s.tx.items[0])))))
  }

  lemma CheckNumbers(q: QueueInfo, s: Sys, step: Step<Request>)
    requires SysInv(q, s) && step.Check?
    ensures Looked(s, Next(q, s, step), Numbers(q, s, step), step.ok)
  {
    hide Remaining, InOrder, Behind, Renumbers, Deliverable, BytesAt, Distinct, DistinctUsers, DistinctIds, MaxRetry;
  }

  lemma LookShape(c: Counted, d: Counted, numbered: bool, ok: bool)
    requires Shaped(c) && Looked(c.s, d.s, numbered, ok)
    requires d == Counted(d.s, if numbered then c.used + 1 else c.used,
                          if numbered && ok then c.counts + [c.used + 1] else c.counts, c.inAcks, c.heard, c.before)
    ensures Shaped(d) && Seen(d) == Seen(c)
    ensures forall i :: 0 <= i < |c.s.data| ==> d.s.data[i] == c.s.data[i]
    ensures forall k :: 0 <= k < |c.counts| ==> d.counts[k] == c.counts[k]
    ensures |d.s.data| <= |c.s.data| + 1
    ensures |d.s.data| == |c.s.data| + 1 && Counting(c) ==>
      d.s.data[|c.s.data|].frame.num == d.s.tx.num && d.counts[d.s.data[|c.s.data|].place] == d.used
  {
    hide NextNum;
    var n := |c.s.data|;
    forall i | 0 <= i < n ensures d.s.data[i] == c.s.data[i] {
      assert d.s.data == c.s.data || d.s.data[..n][i] == c.s.data[i];
    }
  }

  lemma LookCounts(c: Counted, d: Counted, numbered: bool, ok: bool)
    requires Shaped(c) && Looked(c.s, d.s, numbered, ok) && Matches(c) && Counting(c) && Judged(c)
    requires d == Counted(d.s, if numbered then c.used + 1 else c.used,
                          if numbered && ok then c.counts + [c.used + 1] else c.counts, c.inAcks, c.heard, c.before)
    ensures Shaped(d) && Matches(d) && Counting(d) && Judged(d)
  {
    hide Num, ShouldProcess, Untouched, Seen, NextNum;
    LookShape(c, d, numbered, ok);
    NextNumIs(c.used);
    assert Judged(d) by { hide Matches, Counting; }
    assert Matches(d) by { hide Judged; }
    assert Counting(d) by { hide Matches, Judged; }
  }

  lemma CheckCounts(q: QueueInfo, c: Counted, step: Step<Request>)
    requires CountInv(q, c) && step.Check?
    ensures CountInv(q, NextCounted(q, c, step))
  {
    hide SysInv, Next, Looked, Numbers, Matches, Counting, Judged;
    StepKeepsInv(q, c.s, step);
    CheckNumbers(q, c.s, step);
    LookCounts(c, NextCounted(q, c, step), Numbers(q, c.s, step), step.ok);
  }

  /** The arrival of a frame, as the counts see it. */
  ghost predicate Arrives(c: Counted, d: Counted)
    requires Shaped(c) && c.s.data != []
  {
    var f, k := c.s.data[0], c.counts[c.s.data[0].place];
    var process := ShouldProcess(c.s.rx.recvSeq, f.frame.num);
    && d.used == c.used && d.counts == c.counts && d.heard == k && d.before == (if k == c.heard then c.before else Seen(c))
    && d.s.tx == c.s.tx && d.s.order == c.s.order && d.s.data == c.s.data[1..]
    && ((d.s.acks == c.s.acks && d.inAcks == c.inAcks) || (d.s.acks == c.s.acks + [f.frame.num] && d.inAcks == c.inAcks + [k]))
    && d.s.got == (if process then c.s.got + [f.place] else c.s.got)
    && d.s.rx.recvSeq == if process then f.frame.num else c.s.rx.recvSeq
  }

  lemma ArrivalShape(c: Counted, d: Counted)
    requires Shaped(c) && c.s.data != [] && Arrives(c, d)
    ensures Shaped(d)
    ensures Seen(d) == if ShouldProcess(c.s.rx.recvSeq, c.s.data[0].frame.num) then d.heard else Seen(c)
  {
    hide ShouldProcess;
  }

  lemma ArrivalMatches(c: Counted, d: Counted)
    requires Shaped(c) && Matches(c) && c.s.data != [] && Arrives(c, d)
    ensures Shaped(d) && Matches(d)
  {
    hide ShouldProcess, Num;
    ArrivalShape(c, d);
  }

  lemma ArrivalCounts(c: Counted, d: Counted)
    requires Shaped(c) && Counting(c) && c.s.data != [] && Arrives(c, d)
    requires forall i, j :: 0 <= i < j < |c.s.data| ==> c.s.data[i].place <= c.s.data[j].place
    ensures Shaped(d) && Counting(d)
  {
    hide ShouldProcess, Untouched, Seen;
    ArrivalShape(c, d);
    var p := c.s.data[0].place;
    forall i | 0 <= i < |d.s.data| ensures d.heard <= d.counts[d.s.data[i].place] {
      assert d.s.data[i] == c.s.data[i + 1] && p <= c.s.data[i + 1].place;
      assert p < d.s.data[i].place ==> c.counts[p] < c.counts[d.s.data[i].place];
    }
  }

  lemma ArrivalJudged(c: Counted, d: Counted)
    requires Shaped(c) && Matches(c) && Counting(c) && Judged(c) && c.s.data != [] && Arrives(c, d)
    ensures Shaped(d) && Judged(d)
  {
    hide Num, Untouched, Seen;
    ArrivalShape(c, d);
  }

  lemma DataCounts(q: QueueInfo, c: Counted)
    requires CountInv(q, c)
    ensures CountInv(q, NextCounted(q, c, DataArrives))
  {
    hide SysInv, Num, Matches, Counting, Judged, ShouldProcess;
    StepKeepsInv(q, c.s, DataArrives);
    if c.s.data != [] {
      var d := NextCounted(q, c, DataArrives);
      PlacesInOrder(q, c.s);
      ArrivalMatches(c, d);
      ArrivalCounts(c, d);
      ArrivalJudged(c, d);
    }
  }

  lemma AckCounts(q: QueueInfo, c: Counted)
    requires CountInv(q, c)
    ensures CountInv(q, NextCounted(q, c, AckArrives))
  {
    hide SysInv, Num, ShouldProcess;
    StepKeepsInv(q, c.s, AckArrives);
    OldestIsLast(q, c.s);
  }

  lemma PlacesInOrder(q: QueueInfo, s: Sys)
    requires SysInv(q, s)
    ensures forall i, j :: 0 <= i < j < |s.data| ==> s.data[i].place <= s.data[j].place
  {
  }

  /** Only the oldest entry was ever transmitted. */
  lemma OldestIsLast(q: QueueInfo, s: Sys)
    requires SysInv(q, s)
    ensures forall i :: 0 < i < |s.tx.items| ==> Untouched(s.tx.items[i])
    ensures s.tx.items != [] && !Untouched(s.tx.items[0]) ==>
      s.order != [] && s.order[|s.order| - 1] == s.tx.items[0].userdata
    ensures Distinct(s.order) && Increasing(s.got) && forall k :: 0 <= k < |s.got| ==> s.got[k] < |s.order|
  {
    assert Consistent(q, s.tx);
  }

  lemma SendCounts(q: QueueInfo, c: Counted, request: Request)
    requires CountInv(q, c)
    ensures CountInv(q, NextCounted(q, c, Send(request)))
  {
    hide SysInv, Num, ShouldProcess, Add;
    StepKeepsInv(q, c.s, Send(request));
    if !c.s.stopped {
      SendTouches(q, c.s.tx, request, |c.s.accepted|);
      assert Seen(NextCounted(q, c, Send(request))) == Seen(c);
    }
  }

  /** A data link that holds no other frames than before. */
  lemma FramesKept(c: Counted, d: Counted)
    requires Shaped(c) && Matches(c) && Counting(c) && Judged(c) && d == c.(s := c.s.(data := d.s.data))
    requires forall f <- d.s.data :: f in c.s.data
    ensures Shaped(d) && Matches(d) && Counting(d) && Judged(d)
  {
    hide Num, ShouldProcess, Untouched;
    forall i | 0 <= i < |d.s.data| ensures exists j :: 0 <= j < |c.s.data| && d.s.data[i] == c.s.data[j] {
      assert d.s.data[i] in c.s.data;
    }
  }

  lemma DataLinkCounts(q: QueueInfo, c: Counted, step: Step<Request>)
    requires CountInv(q, c) && (step.LoseData? || step.DuplicateData?)
    ensures CountInv(q, NextCounted(q, c, step))
  {
    hide SysInv, Matches, Counting, Judged;
    StepKeepsInv(q, c.s, step);
    FramesKept(c, NextCounted(q, c, step));
  }

  lemma AckLinkCounts(q: QueueInfo, c: Counted, step: Step<Request>)
    requires CountInv(q, c) && (step.LoseAck? || step.DuplicateAck?)
    ensures CountInv(q, NextCounted(q, c, step))
  {
    hide SysInv, Num, ShouldProcess;
    StepKeepsInv(q, c.s, step);
    var d := NextCounted(q, c, step);
    assert d == c.(s := c.s.(acks := d.s.acks), inAcks := d.inAcks);
    assert Shaped(d) && Seen(d) == Seen(c);
  }

  lemma StopCounts(q: QueueInfo, c: Counted)
    requires CountInv(q, c)
    ensures CountInv(q, NextCounted(q, c, StopQueue))
  {
    hide SysInv, Num, ShouldProcess;
    StepKeepsInv(q, c.s, StopQueue);
    assert Seen(NextCounted(q, c, StopQueue)) == Seen(c);
  }

  lemma SendTouches(q: QueueInfo, tx: Tx, request: Request, userdata: int)
    ensures var t := Add(q, tx, request, userdata);
      && t.num == tx.num
      && (t.items != [] && !Untouched(t.items[0]) ==> tx.items != [] && !Untouched(tx.items[0]))
  {
  }

  /** Every step keeps the numbers those of the counts. */
  lemma StepKeepsCounts(q: QueueInfo, c: Counted, step: Step<Request>)
    requires CountInv(q, c)
    ensures CountInv(q, NextCounted(q, c, step))
  {
    hide CountInv, Next, Numbers;
    match step
    case Check(now, ok) => CheckCounts(q, c, step);
    case DataArrives => DataCounts(q, c);
    case AckArrives => AckCounts(q, c);
    case Send(request) => SendCounts(q, c, request);
    case StopQueue => StopCounts(q, c);
    case _ =>
      if step.LoseData? || step.DuplicateData? {
        DataLinkCounts(q, c, step);
      } else {
        AckLinkCounts(q, c, step);
      }
  }

  // ----- Runs -----

  lemma InitCounts(q: QueueInfo)
    ensures CountInv(q, INIT_COUNTED)
  {
    InitOk(q);
    Mod256(255, 0, 255);
  }

  /** The state after the given steps, with its counts. */
  function RunCounted(q: QueueInfo, c: Counted, steps: seq<Step<Request>>): (d: Counted)
    requires CountInv(q, c)
    ensures CountInv(q, d)
    decreases |steps|
  {
    if steps == [] then c
    else
      StepKeepsCounts(q, c, steps[0]);
      RunCounted(q, NextCounted(q, c, steps[0]), steps[1..])
  }

  /** The state with its counts after the given steps from the start. */
  function CountedRun(q: QueueInfo, steps: seq<Step<Request>>): (c: Counted)
    ensures CountInv(q, c)
  {
    InitCounts(q);
    RunCounted(q, INIT_COUNTED, steps)
  }

  lemma NextIsNext(q: QueueInfo, c: Counted, step: Step<Request>)
    requires Shaped(c)
    ensures NextCounted(q, c, step).s == Next(q, c.s, step)
  {
  }

  /** The counts only watch the system. */
  lemma {:induction false} RunIsRun(q: QueueInfo, c: Counted, steps: seq<Step<Request>>)
    requires CountInv(q, c)
    ensures RunCounted(q, c, steps).s == RunFrom(q, c.s, steps)
    decreases |steps|
  {
    hide CountInv, NextCounted, Next;
    if steps != [] {
      StepKeepsCounts(q, c, steps[0]);
      assert Shaped(c) by { IsShaped(q, c); }
      NextIsNext(q, c, steps[0]);
      RunIsRun(q, NextCounted(q, c, steps[0]), steps[1..]);
    }
  }

  lemma IsShaped(q: QueueInfo, c: Counted)
    requires CountInv(q, c)
    ensures Shaped(c)
  {
  }

  /** The receiver has processed a frame of a command. */
  ghost predicate Processed(s: Sys, id: int) {
    exists k :: 0 <= k < |s.got| && s.got[k] < |s.order| && s.order[s.got[k]] == id
  }

  lemma SameNum(a: nat, b: nat)
    ensures Num(a) == Num(b) <==> (b - a) % 256 == 0
  {
    SameRest(a, b);
    if a % 256 == b % 256 {
      assert b - a == 256 * (b / 256 - a / 256) + 0;
      Mod256(b - a, b / 256 - a / 256, 0);
    } else if (b - a) % 256 == 0 {
      Mod256(b, a / 256 + (b - a) / 256, a % 256);
    }
  }

  lemma SameRest(a: nat, b: nat)
    ensures Num(a) == Num(b) <==> a % 256 == b % 256
  {
    var x, y := a / 256, b / 256;
    if a % 256 == 0 {
      Mod256(255 + a, x, 255);
    } else {
      Mod256(255 + a, x + 1, a % 256 - 1);
    }
    if b % 256 == 0 {
      Mod256(255 + b, y, 255);
    } else {
      Mod256(255 + b, y + 1, b % 256 - 1);
    }
  }

  lemma NumAfter(a: nat, b: nat)
    requires a <= b
    ensures Num(b) == Advanced(Num(a), b - a)
  {
    var n := Num(a) as int;
    var x, y := (255 + a) / 256, (n + (b - a)) / 256;
    assert 255 + a == 256 * x + n;
    Mod256(255 + b, x + y, (n + (b - a)) % 256);
  }

  /** The command that was transmitted last was processed if and only if the last frame processed has
      its count. */
  lemma ProcessedIffSeen(q: QueueInfo, c: Counted)
    requires CountInv(q, c) && c.s.tx.items != [] && !Untouched(c.s.tx.items[0])
    ensures Processed(c.s, c.s.tx.items[0].userdata) <==> Seen(c) == c.used
  {
    hide SysInv, Num, ShouldProcess;
    OldestIsLast(q, c.s);
    var s, last := c.s, |c.counts| - 1;
    if Seen(c) == c.used {
      assert s.got[|s.got| - 1] == last;
    }
    if Processed(s, s.tx.items[0].userdata) {
      var k :| 0 <= k < |s.got| && s.got[k] < |s.order| && s.order[s.got[k]] == s.tx.items[0].userdata;
      assert s.got[k] == last;
    }
  }

  /** The theorem below in one state. */
  lemma AckTaken(q: QueueInfo, c: Counted)
    requires CountInv(q, c)
    requires !c.s.stopped && c.s.acks != [] && c.s.tx.items != [] && c.s.tx.items[0].waitingAck
    requires c.s.tx.items[0].num == c.s.acks[0]
    ensures var e := c.s.tx.items[0];
      Processed(c.s, e.userdata) <==> c.heard == c.used && ShouldProcess(Num(c.before), Num(c.used))
    ensures |c.inAcks| == |c.s.acks| && 0 < c.inAcks[0] <= c.used && (c.used - c.inAcks[0]) % 256 == 0
    ensures c.inAcks[0] == c.used ==> c.heard == c.used
    ensures c.heard == c.used ==>
      && c.before < c.used
      && var n := (c.used - c.before) % 256;
      (ShouldProcess(Num(c.before), Num(c.used)) <==> n != 0 && (Num(c.before) as int + n < 256 || n < 246))
  {
    hide SysInv, Num, ShouldProcess, Processed;
    ProcessedIffSeen(q, c);
    OldestCarriesNum(q, c.s);
    SameNum(c.inAcks[0], c.used);
    if c.heard == c.used {
      NumAfter(c.before, c.used);
      ProcessedAfterSkips(Num(c.before), c.used - c.before);
    }
  }

  /** In every run, when an acknowledgement is taken for that of the oldest command: that command has
      been processed by the receiver if and only if a frame of it has arrived and its number, when the
      first one did, was to be processed, that is, the numbers used since the last frame processed
      before it did not come back to about where they were. The first holds if the acknowledgement
      answers it; otherwise it answers a frame a multiple of 256 numbers before. */
  lemma AckedIffProcessed(q: QueueInfo, steps: seq<Step<Request>>)
    requires var s := Run(q, steps);
      !s.stopped && s.acks != [] && s.tx.items != [] && s.tx.items[0].waitingAck && s.tx.items[0].num == s.acks[0]
    ensures var c := CountedRun(q, steps);
      && c.s == Run(q, steps)
      && var e := c.s.tx.items[0];
      && Next(q, c.s, AckArrives).tx.log == c.s.tx.log + [Event(e.userdata, AckReceived, 0, true)]
      && (Processed(c.s, e.userdata) <==> c.heard == c.used && ShouldProcess(Num(c.before), Num(c.used)))
    ensures var c := CountedRun(q, steps);
      && c.s == Run(q, steps) && |c.inAcks| == |c.s.acks|
      && 0 < c.inAcks[0] <= c.used && (c.used - c.inAcks[0]) % 256 == 0
      && (c.inAcks[0] == c.used ==> c.heard == c.used)
    ensures var c := CountedRun(q, steps);
      c.heard == c.used ==>
        && c.before < c.used
        && var n := (c.used - c.before) % 256;
        (ShouldProcess(Num(c.before), Num(c.used)) <==> n != 0 && (Num(c.before) as int + n < 256 || n < 246))
  {
    hide CountInv, RunCounted, Run, Num, ShouldProcess, Processed;
    InitCounts(q);
    RunIsRun(q, INIT_COUNTED, steps);
    assert Run(q, steps) == RunFrom(q, INIT, steps) by { RunIs(q, steps); }
    AckTaken(q, CountedRun(q, steps));
  }

  lemma RunIs(q: QueueInfo, steps: seq<Step<Request>>)
    ensures Run(q, steps) == RunFrom(q, INIT, steps)
  {
  }

  lemma OldestCarriesNum(q: QueueInfo, s: Sys)
    requires SysInv(q, s)
    ensures s.tx.items != [] && !Untouched(s.tx.items[0]) ==> s.tx.items[0].num == s.tx.num
  {
    assert Consistent(q, s.tx);
  }

  // ----- When acknowledged commands have been delivered -----

  /** Fewer than 246 numbers were used since the last frame processed, and no acknowledgement on the link
      is 256 numbers old. */
  ghost predicate Near(c: Counted)
    requires Shaped(c)
  {
    c.used - Seen(c) < 246 && forall i :: 0 <= i < |c.inAcks| ==> c.used - c.inAcks[i] < 256
  }

  /** This holds before every step of a run. */
  ghost predicate NearRun(q: QueueInfo, c: Counted, steps: seq<Step<Request>>)
    requires CountInv(q, c)
    decreases |steps|
  {
    steps == [] ||
    (Near(c) && (StepKeepsCounts(q, c, steps[0]); NearRun(q, NextCounted(q, c, steps[0]), steps[1..])))
  }

  ghost predicate NearFromStart(q: QueueInfo, steps: seq<Step<Request>>) {
    InitCounts(q);
    NearRun(q, INIT_COUNTED, steps)
  }

  /** Every frame that arrived was processed, and every command reported as acknowledged. */
  ghost predicate AllProcessed(c: Counted)
    requires Shaped(c)
  {
    && Seen(c) == c.heard
    && forall e <- c.s.tx.log :: e.status == AckReceived ==> Processed(c.s, e.userdata)
  }

  lemma LogGrows(q: QueueInfo, s: Sys, step: Step<Request>, e: Event)
    requires e in Next(q, s, step).tx.log && e.status == AckReceived && e !in s.tx.log
    ensures step.AckArrives? && !s.stopped && s.acks != [] && s.tx.items != []
      && s.tx.items[0].waitingAck && s.tx.items[0].num == s.acks[0] && e.userdata == s.tx.items[0].userdata
  {
    hide Remaining;
  }

  lemma StaysProcessed(q: QueueInfo, s: Sys, step: Step<Request>, id: int)
    requires SysInv(q, s) && Processed(s, id)
    ensures Processed(Next(q, s, step), id)
  {
    var t := Next(q, s, step);
    var k :| 0 <= k < |s.got| && s.got[k] < |s.order| && s.order[s.got[k]] == id;
    assert |s.got| <= |t.got| && t.got[k] == s.got[k] && |s.order| <= |t.order| && t.order[s.got[k]] == id by {
      hide CheckOnce, Add, RecvAck, SysInv, Receive;
    }
  }

  lemma NearArrival(q: QueueInfo, c: Counted)
    requires CountInv(q, c) && Near(c) && Seen(c) == c.heard
    ensures CountInv(q, NextCounted(q, c, DataArrives))
    ensures Seen(NextCounted(q, c, DataArrives)) == NextCounted(q, c, DataArrives).heard
  {
    hide SysInv, Num, ShouldProcess;
    StepKeepsCounts(q, c, DataArrives);
    if c.s.data != [] {
      var d := NextCounted(q, c, DataArrives);
      if d.heard != c.heard {
        NumAfter(d.before, d.heard);
        ProcessedAfterSkips(Num(d.before), d.heard - d.before);
      }
    }
  }

  lemma SeenStays(q: QueueInfo, c: Counted, step: Step<Request>)
    requires CountInv(q, c) && !step.DataArrives?
    ensures CountInv(q, NextCounted(q, c, step))
    ensures Seen(NextCounted(q, c, step)) == Seen(c) && NextCounted(q, c, step).heard == c.heard
  {
    hide SysInv, Num, ShouldProcess, Matches, Counting, Judged;
    StepKeepsCounts(q, c, step);
  }

  lemma NearStep(q: QueueInfo, c: Counted, step: Step<Request>)
    requires CountInv(q, c) && Near(c) && AllProcessed(c)
    ensures CountInv(q, NextCounted(q, c, step)) && AllProcessed(NextCounted(q, c, step))
  {
    hide SysInv, Num, ShouldProcess, Processed, Next, Untouched;
    var d := NextCounted(q, c, step);
    NextIsNext(q, c, step);
    if step.DataArrives? {
      NearArrival(q, c);
    } else {
      SeenStays(q, c, step);
    }
    forall e <- d.s.tx.log | e.status == AckReceived ensures Processed(d.s, e.userdata) {
      if e !in c.s.tx.log {
        LogGrows(q, c.s, step, e);
        WaitingTouched(c.s.tx.items[0]);
        OldestCarriesNum(q, c.s);
        SameNum(c.inAcks[0], c.used);
        ProcessedIffSeen(q, c);
      }
      StaysProcessed(q, c.s, step, e.userdata);
    }
  }

  lemma WaitingTouched(e: Item)
    ensures e.waitingAck ==> !Untouched(e)
  {
  }

  lemma {:induction false} NearRunProcesses(q: QueueInfo, c: Counted, steps: seq<Step<Request>>)
    requires CountInv(q, c) && AllProcessed(c) && NearRun(q, c, steps)
    ensures AllProcessed(RunCounted(q, c, steps))
    decreases |steps|
  {
    hide CountInv, NextCounted, AllProcessed, Near;
    if steps != [] {
      IsShaped(q, c);
      NearStep(q, c, steps[0]);
      NearRunProcesses(q, NextCounted(q, c, steps[0]), steps[1..]);
    }
  }

  /** In every run in which always fewer than 246 numbers were used since the last frame processed and no
      acknowledgement is 256 numbers old, every command reported as acknowledged has been processed. */
  lemma AckedAreProcessed(q: QueueInfo, steps: seq<Step<Request>>)
    requires NearFromStart(q, steps)
    ensures var s := Run(q, steps);
      forall e <- s.tx.log :: e.status == AckReceived ==> Processed(s, e.userdata)
  {
    InitCounts(q);
    NearRunProcesses(q, INIT_COUNTED, steps);
    RunIsRun(q, INIT_COUNTED, steps);
  }

  // ----- Refused commands -----

  /** The steps of looking at a queue `k` times while the transport refuses every frame. */
  function Refusals(now: nat, k: nat): (r: seq<Step<Request>>)
    ensures |r| == k
  {
    if k == 0 then [] else [Check(now, false)] + Refusals(now, k - 1)
  }

  /** Each refusal of a command that was not transmitted yet uses up a sequence number. */
  lemma {:induction false} RefusalsAdvance(q: QueueInfo, s: Sys, now: nat, k: nat, rest: seq<Step<Request>>)
    requires q.maxTxRateMs <= 0 && s.tx.items != [] && Untouched(s.tx.items[0])
    ensures RunFrom(q, s, Refusals(now, k) + rest) == RunFrom(q, s.(tx := s.tx.(num := Advanced(s.tx.num, k))), rest)
    decreases k
  {
    if k == 0 {
      assert Refusals(now, 0) + rest == rest;
    } else {
      var steps := Refusals(now, k) + rest;
      assert steps[0] == Check(now, false) && steps[1..] == Refusals(now, k - 1) + rest;
      var t := Next(q, s, Check(now, false));
      assert s.tx.items[0 := s.tx.items[0]] == s.tx.items;
      assert t == s.(tx := s.tx.(num := NextNum(s.tx.num)));
      AdvancedStep(s.tx.num, k);
      RefusalsAdvance(q, t, now, k - 1, rest);
    }
  }

  lemma AdvancedStep(num: byte, k: nat)
    requires k > 0
    ensures Advanced(NextNum(num), k - 1) == Advanced(num, k)
  {
    if num == 0xFF {
      var d, m := (k - 1) / 256, (k - 1) % 256;
      Mod256(255 + k, d + 1, m);
    }
  }

  /** A command is sent over links that lose nothing after the transport has refused it `k` times. It
      is always reported as acknowledged; but the receiver, whatever it processed last, gives it to
      its application if and only if the number that it got at last is to be processed. */
  lemma AckedAfterRefusals(q: QueueInfo, s: Sys, now: nat, k: nat)
    requires q.ack && q.maxTxRateMs <= 0 && !s.stopped && s.tx.items != [] && Untouched(s.tx.items[0])
    requires s.data == [] && s.acks == [] && HeaderOk(s.tx.items[0].cmd)
    ensures var t := RunFrom(q, s, Refusals(now, k) + [Check(now, true), DataArrives, AckArrives]);
      && t.tx.items == s.tx.items[1..] && t.accepted == s.accepted && t.data == []
      && t.tx.log == s.tx.log + [Event(s.tx.items[0].userdata, Packed, 0, false),
                                 Event(s.tx.items[0].userdata, AckReceived, 0, true)]
      && t.rx.delivered == s.rx.delivered +
        if ShouldProcess(s.rx.recvSeq, Advanced(s.tx.num, k + 1)) then [s.tx.items[0].cmd] else []
  {
    hide ShouldProcess, Advanced, Next;
    RefusalsAdvance(q, s, now, k, [Check(now, true), DataArrives, AckArrives]);
    var s0 := s.(tx := s.tx.(num := Advanced(s.tx.num, k)));
    ThreeSteps(q, s0, Check(now, true), DataArrives, AckArrives);
    SentAndAcked(q, s0, now);
    NextOfAdvanced(s.tx.num, k);
  }

  /** A command is sent and acknowledged. */
  lemma SentAndAcked(q: QueueInfo, s: Sys, now: nat)
    requires q.ack && q.maxTxRateMs <= 0 && !s.stopped && s.tx.items != [] && Untouched(s.tx.items[0])
    requires s.data == [] && s.acks == [] && HeaderOk(s.tx.items[0].cmd)
    ensures var t := Next(q, Next(q, Next(q, s, Check(now, true)), DataArrives), AckArrives);
      && t.tx.items == s.tx.items[1..] && t.accepted == s.accepted && t.data == []
      && t.tx.log == s.tx.log + [Event(s.tx.items[0].userdata, Packed, 0, false),
                                 Event(s.tx.items[0].userdata, AckReceived, 0, true)]
      && t.rx.delivered == s.rx.delivered +
        if ShouldProcess(s.rx.recvSeq, NextNum(s.tx.num)) then [s.tx.items[0].cmd] else []
  {
    hide ShouldProcess, NextNum;
    var e, num := s.tx.items[0], NextNum(s.tx.num);
    var s1 := Next(q, s, Check(now, true));
    assert s1.data == [Flight(Frame(num, e.cmd), |s.order|)];
    var s2 := Next(q, s1, DataArrives);
    assert s2.acks == [num] && s2.tx == s1.tx;
    assert s.rx.delivered + [] == s.rx.delivered;
  }

  lemma NextOfAdvanced(num: byte, k: nat)
    ensures NextNum(Advanced(num, k)) == Advanced(num, k + 1)
  {
    var d, m := (num as int + k) / 256, (num as int + k) % 256;
    if m == 255 {
      Mod256(num as int + k + 1, d + 1, 0);
    } else {
      Mod256(num as int + k + 1, d, m + 1);
    }
  }

  lemma ThreeSteps(q: QueueInfo, s: Sys, a: Step<Request>, b: Step<Request>, c: Step<Request>)
    ensures RunFrom(q, s, [a, b, c]) == Next(q, Next(q, Next(q, s, a), b), c)
  {
    hide Next;
    var s1 := Next(q, s, a);
    assert [a, b, c][1..] == [b, c] && [b, c][1..] == [c] && [c][1..] == [];
    assert RunFrom(q, s, [a, b, c]) == RunFrom(q, s1, [b, c]);
    assert RunFrom(q, s1, [b, c]) == RunFrom(q, Next(q, s1, b), [c]);
    assert RunFrom(q, Next(q, s1, b), [c]) == RunFrom(q, Next(q, Next(q, s1, b), c), []);
  }

  // ----- Runs in which an acknowledged command is not delivered -----

  /** The first command is acknowledged, with the acknowledgement duplicated or not, and then the second
      one accepted. */
  lemma FirstAcked(q: QueueInfo, r0: Request, r1: Request, s: Sys, twice: bool)
    requires s.tx.items == [NewItem(q, r0, 0).(waitingAck := true)] && s.tx.num == 0 && !s.stopped && s.acks == [0]
    requires s.accepted == [r0] && s.tx.log == [Event(0, Packed, 0, false)] && s.data == []
    ensures var t := Next(q, Next(q, if twice then Next(q, s, DuplicateAck(0)) else s, AckArrives), Send(r1));
      && !t.stopped && t.tx.items == [NewItem(q, r1, 1)] && t.tx.num == 0 && t.rx == s.rx
      && t.data == [] && t.acks == (if twice then [0] else []) && t.accepted == [r0, r1]
      && t.tx.log == [Event(0, Packed, 0, false), Event(0, AckReceived, 0, true)]
  {
    hide Add, MaxRetry;
    var s4 := if twice then Next(q, s, DuplicateAck(0)) else s;
    assert s4.acks == if twice then [0, 0] else [0];
    var s5 := Next(q, s4, AckArrives);
    assert s5.tx.items == [];
    AddToEmpty(q, s5.tx, r1, 1);
  }

  lemma FirstCommand(q: QueueInfo, r0: Request, r1: Request, twice: bool) returns (steps: seq<Step<Request>>, s: Sys)
    requires q.ack && q.maxTxRateMs <= 0 && HeaderOk(r0.cmd)
    ensures s == Run(q, steps) && !s.stopped && s.tx.items == [NewItem(q, r1, 1)] && s.tx.num == 0 && s.rx == Rx(0, [r0.cmd])
    ensures s.data == [] && s.acks == (if twice then [0] else []) && s.accepted == [r0, r1]
    ensures s.tx.log == [Event(0, Packed, 0, false), Event(0, AckReceived, 0, true)]
  {
    hide Next, NewItem;
    FirstArrives(q, r0);
    var s1 := Next(q, INIT, Send(r0));
    var s2 := Next(q, s1, Check(0, true));
    var s3 := Next(q, s2, DataArrives);
    FirstAcked(q, r0, r1, s3, twice);
    var s4 := if twice then Next(q, s3, DuplicateAck(0)) else s3;
    var s5 := Next(q, s4, AckArrives);
    s := Next(q, s5, Send(r1));
    var last := [AckArrives] + ([Send(r1)] + []);
    var middle := if twice then [DuplicateAck(0)] else [];
    steps := [Send(r0)] + ([Check(0, true)] + ([DataArrives] + (middle + last)));
    Unroll(q, INIT, Send(r0), [Check(0, true)] + ([DataArrives] + (middle + last)));
    Unroll(q, s1, Check(0, true), [DataArrives] + (middle + last));
    Unroll(q, s2, DataArrives, middle + last);
    if twice {
      Unroll(q, s3, DuplicateAck(0), last);
    } else {
      assert middle + last == last;
    }
    Unroll(q, s4, AckArrives, [Send(r1)] + []);
    Unroll(q, s5, Send(r1), []);
  }

  lemma AddToEmpty(q: QueueInfo, tx: Tx, request: Request, userdata: int)
    requires tx.items == []
    ensures Add(q, tx, request, userdata) == tx.(items := [NewItem(q, request, userdata)])
  {
  }

  lemma FirstArrives(q: QueueInfo, r0: Request)
    requires q.ack && q.maxTxRateMs <= 0 && HeaderOk(r0.cmd)
    ensures var s := Next(q, Next(q, Next(q, INIT, Send(r0)), Check(0, true)), DataArrives);
      && s.tx.items == [NewItem(q, r0, 0).(waitingAck := true)] && s.tx.num == 0 && s.rx == Rx(0, [r0.cmd])
      && s.data == [] && s.acks == [0] && s.accepted == [r0] && !s.stopped
      && s.tx.log == [Event(0, Packed, 0, false)]
  {
    hide MaxRetry;
    var s1 := Next(q, INIT, Send(r0));
    assert s1.tx.items == [NewItem(q, r0, 0)] && s1.accepted == [r0];
    var s2 := Next(q, s1, Check(0, true));
    assert s2.data == [Flight(Frame(0, r0.cmd), 0)] && s2.tx.num == 0;
  }

  lemma Unroll(q: QueueInfo, s: Sys, step: Step<Request>, rest: seq<Step<Request>>)
    ensures RunFrom(q, s, [step] + rest) == RunFrom(q, Next(q, s, step), rest)
    ensures RunFrom(q, s, []) == s
  {
    hide Next;
    assert ([step] + rest)[1..] == rest;
  }

  lemma {:induction false} RunFromAppend(q: QueueInfo, s: Sys, a: seq<Step<Request>>, b: seq<Step<Request>>)
    ensures RunFrom(q, s, a + b) == RunFrom(q, RunFrom(q, s, a), b)
    decreases |a|
  {
    hide Next;
    if a == [] {
      assert a + b == b;
    } else {
      assert (a + b)[1..] == a[1..] + b;
      RunFromAppend(q, Next(q, s, a[0]), a[1..], b);
    }
  }

  /** A run over links that lose nothing, in which the transport refuses the second of two commands 255
      times: both are reported as acknowledged, and the second one is not delivered. */
  lemma LostAfterRefusals(q: QueueInfo, r0: Request, r1: Request) returns (steps: seq<Step<Request>>)
    requires q.ack && q.maxTxRateMs <= 0 && HeaderOk(r0.cmd) && HeaderOk(r1.cmd)
    ensures var s := Run(q, steps);
      && s.accepted == [r0, r1] && s.tx.items == [] && s.data == []
      && Event(0, AckReceived, 0, true) in s.tx.log && Event(1, AckReceived, 0, true) in s.tx.log
      && s.rx.delivered == [r0.cmd]
  {
    hide Next, ShouldProcess;
    var steps0, s := FirstCommand(q, r0, r1, false);
    var more := Refusals(0, 255) + [Check(0, true), DataArrives, AckArrives];
    AckedAfterRefusals(q, s, 0, 255);
    ProcessedAfterSkips(0, 256);
    steps := steps0 + more;
    RunFromAppend(q, INIT, steps0, more);
  }

  /** A run in which an old acknowledgement is taken for that of a command whose only frame was lost: the
      command is reported as acknowledged, and no frame of it is left. */
  lemma LostToOldAck(q: QueueInfo, r0: Request, r1: Request) returns (steps: seq<Step<Request>>)
    requires q.ack && q.maxTxRateMs <= 0 && HeaderOk(r0.cmd) && HeaderOk(r1.cmd)
    ensures var s := Run(q, steps);
      && s.accepted == [r0, r1] && s.tx.items == [] && s.data == []
      && Event(0, AckReceived, 0, true) in s.tx.log && Event(1, AckReceived, 0, true) in s.tx.log
      && s.rx.delivered == [r0.cmd]
  {
    hide MaxRetry;
    var steps0, s := FirstCommand(q, r0, r1, true);
    var e := NewItem(q, r1, 1);
    var last := [Check(0, true), LoseData(0), AckArrives];
    steps := steps0 + (Refusals(0, 255) + last);
    RunFromAppend(q, INIT, steps0, Refusals(0, 255) + last);
    RefusalsAdvance(q, s, 0, 255, last);
    Mod256(255, 0, 255);
    var s0 := s.(tx := s.tx.(num := Advanced(0, 255)));
    var s1 := Next(q, s0, Check(0, true));
    assert s1.tx.items == [e.(num := 0, waitingAck := true, sentTs := 0)] && |s1.data| == 1 && s1.acks == [0];
    var s2 := Next(q, s1, LoseData(0));
    assert s2.data == [] && s2.tx == s1.tx && s2.acks == [0];
    var s3 := Next(q, s2, AckArrives);
    assert s3.tx.items == [];
    ThreeSteps(q, s0, Check(0, true), LoseData(0), AckArrives);
  }
}
