/** Packs of commands sent without acknowledgements over a link that may lose and duplicate frames
    but keeps their order: what the receiver makes of them. Versions 2 and 3 of the command
    interface, which unpack differently, both rely on it. */
module OneWay {
  import opened Bytes
  import opened Commands
  import opened Links
  import opened StopAndWait

  /** A transmitted frame with the commands that left the queue in it. */
  datatype Sent = Sent(frame: Frame, cmds: seq<Cmd>)

  /** The history of a queue: all its transmissions, the places among them of the frames on the
      link, and the places of the frames processed by the receiver. */
  datatype History = History(sent: seq<Sent>, onLink: seq<nat>, got: seq<nat>)

  const NO_HISTORY := History([], [], [])

  /** All the commands of some transmissions. */
  function Flatten(sent: seq<Sent>): seq<Cmd> {
    if sent == [] then [] else Flatten(sent[..|sent| - 1]) + sent[|sent| - 1].cmds
  }

  /** Places that grow and are those of transmissions. */
  predicate Increasing(places: seq<nat>, count: nat) {
    && (forall i :: 0 <= i < |places| ==> places[i] < count)
    && forall i, j :: 0 <= i < j < |places| ==> places[i] < places[j]
  }

  function Pick(sent: seq<Sent>, places: seq<nat>): (r: seq<Sent>)
    requires forall i :: 0 <= i < |places| ==> places[i] < |sent|
    ensures |r| == |places|
  {
    seq(|places|, i requires 0 <= i < |places| => sent[places[i]])
  }

  /** The frames on the link. */
  function Frames(sent: seq<Sent>, places: seq<nat>): (r: seq<Frame>)
    requires forall i :: 0 <= i < |places| ==> places[i] < |sent|
    ensures |r| == |places|
  {
    seq(|places|, i requires 0 <= i < |places| => sent[places[i]].frame)
  }

  /** The number that the receiver has to have: that of the last frame it processed. */
  function LastNum(h: History): u16
    requires forall i :: 0 <= i < |h.got| ==> h.got[i] < |h.sent|
  {
    if h.got == [] then 0xFFFF else h.sent[h.got[|h.got| - 1]].frame.num
  }

  /** Places of `count` transmissions that never go back, none before `from`. */
  ghost predicate InOrder(places: seq<nat>, from: nat, count: nat) {
    && (forall i :: 0 <= i < |places| ==> from <= places[i] < count)
    && forall i, j :: 0 <= i < j < |places| ==> places[i] <= places[j]
  }

  lemma LinkInOrder(places: seq<nat>, from: nat, count: nat, i: nat)
    requires InOrder(places, from, count) && i < |places|
    ensures InOrder(Lose(places, i), from, count) && InOrder(Duplicate(places, i), from, count)
    ensures InOrder(places[1..], places[0], count)
  {
  }

  /** The frames on the link are in the order of their transmission, and none is older than the last
      one processed. */
  ghost predicate Ordered(h: History) {
    && Increasing(h.got, |h.sent|)
    && InOrder(h.onLink, if h.got == [] then 0 else h.got[|h.got| - 1], |h.sent|)
  }

  /** A history explains what a link carries, and the number and the commands that its receiver has.
      `unpack` gives the commands that the receiver delivers from a payload. */
  ghost predicate Explains(h: History, unpack: seq<byte> -> seq<seq<byte>>,
                           data: seq<Frame>, recvSeq: u16, delivered: seq<seq<byte>>) {
    && Ordered(h)
    && (forall i :: 0 <= i < |h.sent| ==> unpack(h.sent[i].frame.payload) == Deliverable(h.sent[i].cmds))
    && data == Frames(h.sent, h.onLink) && recvSeq == LastNum(h)
    && delivered == Deliverable(Flatten(Pick(h.sent, h.got)))
  }

  /** What is delivered is a subsequence: `commands` can be divided into packs, some of which are
      delivered, whole, in order and each once. */
  ghost predicate AtMostOnce(commands: seq<Cmd>, delivered: seq<seq<byte>>) {
    exists sent, got :: Increasing(got, |sent|)
      && Flatten(sent) == commands && delivered == Deliverable(Flatten(Pick(sent, got)))
  }

  lemma ExplainedIsAtMostOnce(h: History, unpack: seq<byte> -> seq<seq<byte>>,
                              data: seq<Frame>, recvSeq: u16, delivered: seq<seq<byte>>)
    requires Explains(h, unpack, data, recvSeq, delivered)
    ensures AtMostOnce(Flatten(h.sent), delivered)
  {
  }

  lemma ExplainsLink(h: History, unpack: seq<byte> -> seq<seq<byte>>,
                     data: seq<Frame>, recvSeq: u16, delivered: seq<seq<byte>>)
    requires Explains(h, unpack, data, recvSeq, delivered)
    ensures |h.onLink| == |data|
  {
  }

  lemma FlattenAppend(sent: seq<Sent>, x: Sent)
    ensures Flatten(sent + [x]) == Flatten(sent) + x.cmds
  {
    assert (sent + [x])[..|sent|] == sent;
  }

  /** Transmissions that carried nothing deliver nothing. */
  lemma {:induction false} NothingCarried(sent: seq<Sent>, got: seq<nat>)
    requires Increasing(got, |sent|) && Flatten(sent) == []
    ensures Flatten(Pick(sent, got)) == []
  {
    if got != [] {
      var last, init := got[|got| - 1], got[..|got| - 1];
      NothingAt(sent, last);
      NothingCarried(sent, init);
      assert Pick(sent, got)[..|got| - 1] == Pick(sent, init);
    }
  }

  lemma {:induction false} NothingAt(sent: seq<Sent>, i: nat)
    requires i < |sent| && Flatten(sent) == []
    ensures sent[i].cmds == []
  {
    if i < |sent| - 1 {
      NothingAt(sent[..|sent| - 1], i);
    }
  }

  lemma AtMostNothing(delivered: seq<seq<byte>>)
    requires AtMostOnce([], delivered)
    ensures delivered == []
  {
    var sent, got :| Increasing(got, |sent|) && Flatten(sent) == [] && delivered == Deliverable(Flatten(Pick(sent, got)));
    NothingCarried(sent, got);
  }

  // ----- The steps of a link -----

  /** The transport takes a frame. */
  function Transmit(h: History, x: Sent): History {
    History(h.sent + [x], h.onLink + [|h.sent|], h.got)
  }

  /** A frame that is processed, or not, reaches the receiver. */
  function Arrive(h: History, process: bool): History
    requires h.onLink != []
  {
    History(h.sent, h.onLink[1..], if process then h.got + [h.onLink[0]] else h.got)
  }

  lemma TransmitExplained(h: History, unpack: seq<byte> -> seq<seq<byte>>,
                          data: seq<Frame>, recvSeq: u16, delivered: seq<seq<byte>>, x: Sent)
    requires Explains(h, unpack, data, recvSeq, delivered)
    requires unpack(x.frame.payload) == Deliverable(x.cmds)
    ensures Explains(Transmit(h, x), unpack, data + [x.frame], recvSeq, delivered)
  {
    var t := Transmit(h, x);
    assert Pick(t.sent, t.got) == Pick(h.sent, h.got);
    assert Frames(t.sent, t.onLink) == data + [x.frame];
  }

  /** A frame that is processed was transmitted after all those processed before. */
  lemma ArriveOrdered(h: History, process: bool)
    requires Ordered(h) && h.onLink != []
    requires process == ShouldProcess(LastNum(h), h.sent[h.onLink[0]].frame.num)
    ensures Ordered(Arrive(h, process))
  {
    LinkInOrder(h.onLink, if h.got == [] then 0 else h.got[|h.got| - 1], |h.sent|, 0);
  }

  /** What the processing of a frame adds. */
  lemma GotOne(h: History)
    requires Ordered(h) && h.onLink != []
    ensures var x, t := h.sent[h.onLink[0]], Arrive(h, true);
      && Increasing(h.got, |h.sent|) && (forall i :: 0 <= i < |t.got| ==> t.got[i] < |h.sent|)
      && Deliverable(Flatten(Pick(h.sent, t.got))) == Deliverable(Flatten(Pick(h.sent, h.got))) + Deliverable(x.cmds)
      && LastNum(t) == x.frame.num
  {
    var x, t := h.sent[h.onLink[0]], Arrive(h, true);
    assert Pick(t.sent, t.got) == Pick(h.sent, h.got) + [x];
    FlattenAppend(Pick(h.sent, h.got), x);
    DeliverableAppend(Flatten(Pick(h.sent, h.got)), x.cmds);
  }

  /** Whatever the numbers, a frame that arrives is processed only if it was transmitted after all
      those processed, so no command is delivered twice or out of order. */
  lemma ArriveExplained(h: History, unpack: seq<byte> -> seq<seq<byte>>,
                        data: seq<Frame>, recvSeq: u16, delivered: seq<seq<byte>>)
    requires Explains(h, unpack, data, recvSeq, delivered) && data != []
    ensures var f := data[0];
      if ShouldProcess(recvSeq, f.num)
      then Explains(Arrive(h, true), unpack, data[1..], f.num, delivered + unpack(f.payload))
      else Explains(Arrive(h, false), unpack, data[1..], recvSeq, delivered)
  {
    hide Deliverable, Flatten, InOrder, Increasing;
    var process := ShouldProcess(recvSeq, data[0].num);
    var t := Arrive(h, process);
    ArriveOrdered(h, process);
    OrderedBounds(h);
    OrderedBounds(t);
    assert Frames(t.sent, t.onLink) == data[1..];
    GotOne(h);
  }

  lemma OrderedBounds(h: History)
    requires Ordered(h)
    ensures forall i :: 0 <= i < |h.onLink| ==> h.onLink[i] < |h.sent|
    ensures forall i :: 0 <= i < |h.got| ==> h.got[i] < |h.sent|
  {
  }

  lemma LoseExplained(h: History, unpack: seq<byte> -> seq<seq<byte>>,
                      data: seq<Frame>, recvSeq: u16, delivered: seq<seq<byte>>, i: nat)
    requires Explains(h, unpack, data, recvSeq, delivered) && i < |data|
    ensures Explains(h.(onLink := Lose(h.onLink, i)), unpack, Lose(data, i), recvSeq, delivered)
  {
    hide Deliverable, Flatten, InOrder, Increasing, Pick;
    LinkInOrder(h.onLink, if h.got == [] then 0 else h.got[|h.got| - 1], |h.sent|, i);
    OrderedBounds(h);
    OrderedBounds(h.(onLink := Lose(h.onLink, i)));
    assert Frames(h.sent, Lose(h.onLink, i)) == Lose(data, i);
  }

  lemma DuplicateExplained(h: History, unpack: seq<byte> -> seq<seq<byte>>,
                           data: seq<Frame>, recvSeq: u16, delivered: seq<seq<byte>>, i: nat)
    requires Explains(h, unpack, data, recvSeq, delivered) && i < |data|
    ensures Explains(h.(onLink := Duplicate(h.onLink, i)), unpack, Duplicate(data, i), recvSeq, delivered)
  {
    hide Deliverable, Flatten, InOrder, Increasing, Pick;
    LinkInOrder(h.onLink, if h.got == [] then 0 else h.got[|h.got| - 1], |h.sent|, i);
    OrderedBounds(h);
    OrderedBounds(h.(onLink := Duplicate(h.onLink, i)));
    assert Frames(h.sent, Duplicate(h.onLink, i)) == Duplicate(data, i);
  }

  // ----- A link that loses nothing -----

  /** Each place is that of the frame before or of the next one. */
  predicate Gapless(places: seq<int>) {
    forall i :: 0 <= i < |places| - 1 ==> places[i] <= places[i + 1] <= places[i] + 1
  }

  /** The places from the last frame processed to the next one to be transmitted. */
  function Ahead(h: History): seq<int> {
    [|h.got| - 1] + h.onLink + [|h.sent|]
  }

  /** Every frame so far was processed or is on the link, and the frames have successive numbers. */
  ghost predicate Unbroken(h: History) {
    && (forall i :: 0 <= i < |h.sent| ==> h.sent[i].frame.num == (i % 0x1_0000) as u16)
    && (forall i :: 0 <= i < |h.got| ==> h.got[i] == i)
    && Gapless(Ahead(h))
  }

  lemma TransmitUnbroken(h: History, x: Sent)
    requires Unbroken(h) && x.frame.num == (|h.sent| % 0x1_0000) as u16
    ensures Unbroken(Transmit(h, x))
  {
    var a, t := Ahead(h), Ahead(Transmit(h, x));
    assert t == a + [|h.sent| + 1];
    assert a[|a| - 1] == |h.sent|;
  }

  lemma DuplicateUnbroken(h: History, i: nat)
    requires Unbroken(h) && i < |h.onLink|
    ensures Unbroken(h.(onLink := Duplicate(h.onLink, i)))
  {
    var a, t := Ahead(h), Ahead(h.(onLink := Duplicate(h.onLink, i)));
    assert forall k :: 0 <= k <= i + 1 ==> t[k] == a[k];
    assert forall k :: i + 2 <= k < |t| ==> t[k] == a[k - 1];
  }

  /** The next frame is processed, also when the numbers wrap, and a repeated one is not. */
  lemma ArriveUnbroken(h: History)
    requires Unbroken(h) && Ordered(h) && h.onLink != []
    ensures var process := ShouldProcess(LastNum(h), h.sent[h.onLink[0]].frame.num);
      && (process <==> h.onLink[0] == |h.got|)
      && Unbroken(Arrive(h, process))
  {
    var a := Ahead(h);
    assert a[0] == |h.got| - 1 && a[1] == h.onLink[0];
    var process := ShouldProcess(LastNum(h), h.sent[h.onLink[0]].frame.num);
    var t := Ahead(Arrive(h, process));
    assert t[1..] == a[2..] && t[0] == a[1];
    assert forall k :: 0 <= k < |t| ==> t[k] == a[k + 1];
  }

  /** When nothing was lost and nothing is on the link, everything transmitted was delivered. */
  lemma UnbrokenDelivers(h: History, unpack: seq<byte> -> seq<seq<byte>>,
                         data: seq<Frame>, recvSeq: u16, delivered: seq<seq<byte>>)
    requires Explains(h, unpack, data, recvSeq, delivered) && Unbroken(h) && data == []
    ensures delivered == Deliverable(Flatten(h.sent))
  {
    var a := Ahead(h);
    assert a == [|h.got| - 1, |h.sent|];
    assert a[0] <= a[1] <= a[0] + 1;
    assert Pick(h.sent, h.got) == h.sent;
  }
}
