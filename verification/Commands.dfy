/** What the three versions of the command interface share: commands, queue entries and settings,
    and the status callbacks. */
module Commands {
  import opened Bytes

  /** An encoded command; its length is sent as a 32-bit integer. */
  type Cmd = c: seq<byte> | |c| < 0x1_0000_0000 witness []

  /** The header of a command has four bytes; a shorter command is not given to the application. */
  function HeaderOk(c: seq<byte>): bool {
    |c| >= 4
  }

  function Deliverable(cmds: seq<seq<byte>>): (r: seq<seq<byte>>) {
    if cmds == [] then []
    else (if HeaderOk(cmds[0]) then [cmds[0]] else []) + Deliverable(cmds[1..])
  }

  lemma {:induction false} DeliverableAppend(a: seq<seq<byte>>, b: seq<seq<byte>>)
    ensures Deliverable(a + b) == Deliverable(a) + Deliverable(b)
  {
    if a == [] {
      assert a + b == b;
    } else {
      assert (a + b)[1..] == a[1..] + b;
      DeliverableAppend(a[1..], b);
    }
  }

  /** A command with the user data that its status callback gets. */
  datatype Entry = Entry(cmd: Cmd, userdata: int)

  datatype SendStatus = PartiallyPacked | Packed | AckReceived | Timeout | Canceled

  /** One call of a command's status callback. */
  datatype Event = Event(userdata: int, status: SendStatus, num: u16, done: bool)

  /** Settings of a queue: whether it is acknowledged, and its two delays in milliseconds. The number
      of retries and the overwriting are for version 1 only: the others retry forever and keep
      every command. */
  datatype QueueInfo = QueueInfo(id: byte, ack: bool, ackTimeoutMs: int, maxTxRateMs: int,
                                 defaultMaxRetry: int, overwrite: bool)

  function Cmds(entries: seq<Entry>): (r: seq<Cmd>)
    ensures |r| == |entries|
  {
    seq(|entries|, i requires 0 <= i < |entries| => entries[i].cmd)
  }

  lemma CmdsAppend(a: seq<Entry>, b: seq<Entry>)
    ensures Cmds(a + b) == Cmds(a) + Cmds(b)
  {
  }

  /** How long, in milliseconds, is left of a delay that began at `start`; times in microseconds. */
  function Remaining(delayMs: int, start: nat, now: nat): int {
    if start <= now && now - start <= delayMs * 1000 then delayMs - (now - start) / 1000 else 0
  }

  /** What is left of a delay is exactly how long it still runs: it is running after `e` more
      milliseconds if and only if `e` is less than that, and then `e` less is left. */
  lemma RemainingIsExact(delayMs: int, start: nat, now: nat, e: nat)
    requires Remaining(delayMs, start, now) > 0
    ensures var left := Remaining(delayMs, start, now);
      Remaining(delayMs, start, now + 1000 * e) == if e < left then left - e else 0
    ensures start <= now && now - start < 1000 * delayMs
  {
    assert (now + 1000 * e - start) / 1000 == (now - start) / 1000 + e;
  }

  /** A delay that begins now is all left. */
  lemma RemainingAtStart(delayMs: int, now: nat)
    ensures Remaining(delayMs, now, now) == if delayMs > 0 then delayMs else 0
  {
  }

  /** The commands of one payload, with the queue that they came from. */
  function Tagged(id: byte, cmds: seq<seq<byte>>): (r: seq<(byte, seq<byte>)>)
    ensures |r| == |cmds|
  {
    seq(|cmds|, i requires 0 <= i < |cmds| => (id, cmds[i]))
  }

  lemma TaggedAppend(id: byte, a: seq<seq<byte>>, b: seq<seq<byte>>)
    ensures Tagged(id, a + b) == Tagged(id, a) + Tagged(id, b)
    ensures Tagged(id, []) == []
  {
  }

  lemma TaggedOne(id: byte, cmd: seq<byte>)
    ensures Tagged(id, [cmd]) == [(id, cmd)] && Tagged(id, []) == []
  {
  }

  // ----- Looking at a queue -----

  /** The result of looking at a queue once: its new value, the frame given to the transport, if any,
      the delay after which to look again, and whether to start over at once. */
  datatype Pass<Q, F> = Pass(tx: Q, frame: Option<F>, deadline: Option<int>, again: bool)

  /** The result of looking at a queue until there is nothing to do at once: the frames that the
      transport took, the number of frames it was given so far, and the delay to wait. */
  datatype Checked<Q, F> = Checked(tx: Q, sent: seq<F>, tries: nat, deadline: Option<int>)

  /** A result with frames sent before. */
  ghost function Prepend<Q, F>(sent: seq<F>, c: Checked<Q, F>): Checked<Q, F> {
    c.(sent := sent + c.sent)
  }

  lemma Prepended<Q, F>(a: seq<F>, b: seq<F>, c: Checked<Q, F>)
    ensures Prepend(a, Prepend(b, c)) == Prepend(a + b, c)
    ensures Prepend([], c) == c
    ensures a + [] == a
  {
    assert a + (b + c.sent) == (a + b) + c.sent;
    assert [] + c.sent == c.sent;
  }

  // ----- Status callbacks -----

  function AckEvents(entries: seq<Entry>, n: nat, num: u16): (r: seq<Event>)
    requires n <= |entries|
    ensures |r| == n
  {
    seq(n, i requires 0 <= i < n => Event(entries[i].userdata, AckReceived, num, true))
  }

  function CancelEvents(entries: seq<Entry>): (r: seq<Event>)
    ensures |r| == |entries|
  {
    seq(|entries|, i requires 0 <= i < |entries| => Event(entries[i].userdata, Canceled, 0, true))
  }

  lemma DropOne(entries: seq<Entry>, k: nat)
    requires k < |entries|
    ensures entries[k..][1..] == entries[k + 1..] && entries[k..][0] == entries[k]
  {
  }

  lemma AckEventsStart(entries: seq<Entry>, num: u16)
    ensures AckEvents(entries, 0, num) == [] && entries[0..] == entries
  {
  }

  lemma AckEventsStep(entries: seq<Entry>, k: nat, num: u16)
    requires k < |entries|
    ensures AckEvents(entries, k + 1, num) == AckEvents(entries, k, num) + [Event(entries[k].userdata, AckReceived, num, true)]
  {
  }

  /** The calls made for the command with user data `id`, in order. */
  function Trace(log: seq<Event>, id: int): (r: seq<Event>)
    ensures forall e <- r :: e in log && e.userdata == id
  {
    if log == [] then []
    else
      var last := log[|log| - 1];
      Trace(log[..|log| - 1], id) + (if last.userdata == id then [last] else [])
  }

  lemma {:induction false} TraceAppend(a: seq<Event>, b: seq<Event>, id: int)
    ensures Trace(a + b, id) == Trace(a, id) + Trace(b, id)
  {
    if b == [] {
      assert a + b == a;
    } else {
      var init, last := b[..|b| - 1], if b[|b| - 1].userdata == id then [b[|b| - 1]] else [];
      assert (a + b)[..|a + b| - 1] == a + init;
      TraceAppend(a, init, id);
      assert Trace(a + b, id) == (Trace(a, id) + Trace(init, id)) + last;
    }
  }

  /** Events of consecutive commands starting at `base`. */
  ghost predicate Consecutive(evs: seq<Event>, base: int) {
    forall i :: 0 <= i < |evs| ==> evs[i].userdata == base + i
  }

  lemma {:induction false} TraceOfConsecutive(evs: seq<Event>, base: int, id: int)
    requires Consecutive(evs, base)
    ensures Trace(evs, id) == if base <= id < base + |evs| then [evs[id - base]] else []
  {
    if evs != [] {
      TraceOfConsecutive(evs[..|evs| - 1], base, id);
    }
  }

  lemma TraceAfter(log: seq<Event>, evs: seq<Event>, base: int, id: int)
    requires Consecutive(evs, base)
    ensures Trace(log + evs, id) == Trace(log, id) + if base <= id < base + |evs| then [evs[id - base]] else []
  {
    TraceAppend(log, evs, id);
    TraceOfConsecutive(evs, base, id);
  }
}
