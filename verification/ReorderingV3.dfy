/** What happens to an acknowledged queue of version 3 when a link does not keep the order of frames:
    a run in which a command is delivered twice. */
module ReorderingV3 {
  import opened Bytes
  import opened Commands
  import opened Links
  import opened PackV3
  import opened StopAndWait
  import opened QueueV3
  import opened SystemV3

  /** The steps of a system whose data link may also let the first frame fall behind all others. */
  datatype Move = Ordinary(step: Step<Cmd>) | FallBehind

  ghost predicate Ready(q: QueueInfo, s: Sys) {
    Consistent(q, s.tx) || (s.stopped && s.tx.entries == [])
  }

  function NextMove(q: QueueInfo, s: Sys, move: Move): Sys
    requires s.tx.entries == [] || Consistent(q, s.tx)
  {
    match move
    case Ordinary(step) => Next(q, s, step)
    case FallBehind => if s.data == [] then s else s.(data := s.data[1..] + [s.data[0]])
  }

  lemma ReadyAfterMove(q: QueueInfo, s: Sys, move: Move)
    requires Ready(q, s)
    ensures NextMove.requires(q, s, move) && Ready(q, NextMove(q, s, move))
  {
    hide Consistent, CheckOnce, RecvAck;
    if Consistent(q, s.tx) {
      match move {
        case Ordinary(Send(cmd)) => AddKeeps(q, s.tx, Entry(cmd, |s.accepted|));
        case Ordinary(Check(now, ok)) => CheckOnceKeeps(q, s.tx, now, ok);
        case Ordinary(AckArrives) => if s.acks != [] { RecvAckKeeps(q, s.tx, s.acks[0]); }
        case _ =>
      }
    }
    StoppedStays(q, s, move);
  }

  lemma StoppedStays(q: QueueInfo, s: Sys, move: Move)
    requires NextMove.requires(q, s, move)
    ensures move.Ordinary? && move.step.StopQueue? ==> NextMove(q, s, move).stopped && NextMove(q, s, move).tx.entries == []
    ensures s.stopped && s.tx.entries == [] ==> NextMove(q, s, move).stopped && NextMove(q, s, move).tx.entries == []
  {
  }

  /** The state after the given moves. */
  function RunMoves(q: QueueInfo, s: Sys, moves: seq<Move>): (t: Sys)
    requires Ready(q, s)
    ensures Ready(q, t)
    decreases |moves|
  {
    if moves == [] then s
    else
      ReadyAfterMove(q, s, moves[0]);
      RunMoves(q, NextMove(q, s, moves[0]), moves[1..])
  }

  lemma {:induction false} RunAppend(q: QueueInfo, s: Sys, a: seq<Move>, b: seq<Move>)
    requires Ready(q, s)
    ensures RunMoves(q, s, a + b) == RunMoves(q, RunMoves(q, s, a), b)
    decreases |a|
  {
    hide Ready, NextMove;
    if a == [] {
      assert a + b == b;
    } else {
      ReadyAfterMove(q, s, a[0]);
      assert (a + b)[1..] == a[1..] + b;
      RunAppend(q, NextMove(q, s, a[0]), a[1..], b);
    }
  }

  lemma RunOne(q: QueueInfo, s: Sys, move: Move, rest: seq<Move>)
    requires Ready(q, s)
    ensures NextMove.requires(q, s, move) && Ready(q, NextMove(q, s, move))
    ensures RunMoves(q, s, [move] + rest) == RunMoves(q, NextMove(q, s, move), rest)
  {
    hide Ready, NextMove;
    ReadyAfterMove(q, s, move);
    assert ([move] + rest)[1..] == rest;
  }

  /** A whole command with its size. */
  function Whole(c: Cmd): seq<byte> {
    WriteVarint(|c|) + c
  }

  lemma WholePack(c: Cmd)
    requires FitsAlone(c) && HeaderOk(c)
    ensures Pack([c], 0, true) == PackResult(Whole(c), 1, 0)
    ensures Unpack(Whole(c), None, true) == Unpacked([c], None, Success)
  {
    hide WriteVarint, UnpackLoop;
    assert PackFrom([], |Whole(c)|, true) == PackResult([], 0, 0);
    assert [c][1..] == [] && WriteVarint(|c|) + c + [] == Whole(c);
    LoopTakesWhole(c, [], true, true, Success);
    LoopEnds(Success);
  }

  /** Nothing is under way but the frames `held`, and everything accepted was delivered. */
  ghost predicate Idle(s: Sys, held: seq<Frame>, now: nat, q: QueueInfo) {
    && !s.stopped && s.tx.entries == [] && s.tx.cmdCount == 0 && s.tx.buf == [] && s.tx.rem == 0 && s.tx.lastRem == 0
    && s.tx.num == s.tx.lastNum == s.rx.recvSeq && s.rx.partial == None
    && s.data == held && s.acks == []
    && Remaining(q.ackTimeoutMs, s.tx.sentTs, now) <= 0 && Remaining(q.maxTxRateMs, s.tx.lastSentTs, now) <= 0
  }

  /** More than both delays of a queue. */
  function Pause(q: QueueInfo): nat {
    1 + (if q.ackTimeoutMs > 0 then 1000 * q.ackTimeoutMs else 0) + (if q.maxTxRateMs > 0 then 1000 * q.maxTxRateMs else 0)
  }

  lemma PauseIsOver(q: QueueInfo, now: nat)
    ensures Remaining(q.ackTimeoutMs, now, now + Pause(q)) <= 0 && Remaining(q.maxTxRateMs, now, now + Pause(q)) <= 0
  {
  }

  /** The sender's part of a round: a command is accepted and sent. */
  lemma RoundSends(q: QueueInfo, s: Sys, held: seq<Frame>, c: Cmd, now: nat)
    requires q.ack && Idle(s, held, now, q) && Ready(q, s) && FitsAlone(c) && HeaderOk(c)
    ensures Next.requires(q, s, Send(c)) && Next.requires(q, Next(q, s, Send(c)), Check(now, true))
    ensures var t := Next(q, Next(q, s, Send(c)), Check(now, true));
      && t.data == held + [Frame(NextSeq(s.tx.num), Whole(c))] && t.acks == [] && t.rx == s.rx && !t.stopped
      && t.accepted == s.accepted + [c] && |t.tx.entries| == 1 && t.tx.cmdCount == 1 && t.tx.rem == 0
      && t.tx.num == NextSeq(s.tx.num) && t.tx.lastNum == s.tx.lastNum
      && t.tx.waitingAck && t.tx.sentTs == t.tx.lastSentTs == now
  {
    hide Pack, Encode, ValidCut, Remaining;
    AddKeeps(q, s.tx, Entry(c, |s.accepted|));
    var s1 := Next(q, s, Send(c));
    assert Cmds(s1.tx.entries) == [c];
    WholePack(c);
    assert [] + Whole(c) == Whole(c);
  }

  /** The rest of a round: the frame arrives, and its acknowledgement. */
  lemma RoundArrives(q: QueueInfo, s: Sys, held: seq<Frame>, c: Cmd, now: nat)
    requires q.ack && Ready(q, s) && !s.stopped && FitsAlone(c) && HeaderOk(c)
    requires s.data == [Frame(s.tx.num, Whole(c))] + held && s.acks == []
    requires s.rx.recvSeq == s.tx.lastNum && s.tx.num == NextSeq(s.tx.lastNum) && s.rx.partial == None
    requires |s.tx.entries| == 1 && s.tx.cmdCount == 1 && s.tx.rem == 0
    requires s.tx.waitingAck && s.tx.sentTs == s.tx.lastSentTs == now
    ensures Next.requires(q, s, DataArrives) && Next.requires(q, Next(q, s, DataArrives), AckArrives)
    ensures var t := Next(q, Next(q, s, DataArrives), AckArrives);
      && Idle(t, held, now + Pause(q), q) && t.tx.num == s.tx.num && t.accepted == s.accepted
      && t.rx.delivered == s.rx.delivered + [c]
  {
    hide Unpack, Encode, ValidCut, Remaining, Pause;
    WholePack(c);
    PauseIsOver(q, now);
  }

  /** A round with a frame held on the link, which falls behind the frame of the round. */
  lemma Round(q: QueueInfo, s: Sys, late: Frame, c: Cmd, now: nat) returns (moves: seq<Move>, t: Sys)
    requires q.ack && Idle(s, [late], now, q) && Ready(q, s) && FitsAlone(c) && HeaderOk(c)
    ensures t == RunMoves(q, s, moves) && Idle(t, [late], now + Pause(q), q)
    ensures t.tx.num == NextSeq(s.tx.num) && t.accepted == s.accepted + [c] && t.rx.delivered == s.rx.delivered + [c]
  {
    hide Idle, Ready, Consistent, CheckOnce, RecvAck, Receive;
    RoundSends(q, s, [late], c, now);
    var s1 := Next(q, s, Send(c));
    var s2 := Next(q, s1, Check(now, true));
    IdleNums(q, s, [late], now);
    var rest2 := [FallBehind] + ([Ordinary(DataArrives)] + ([Ordinary(AckArrives)] + []));
    RunOne(q, s, Ordinary(Send(c)), [Ordinary(Check(now, true))] + rest2);
    RunOne(q, s1, Ordinary(Check(now, true)), rest2);
    RunOne(q, s2, FallBehind, [Ordinary(DataArrives)] + ([Ordinary(AckArrives)] + []));
    var s3 := NextMove(q, s2, FallBehind);
    assert s3.data == [Frame(s3.tx.num, Whole(c))] + [late];
    RoundArrives(q, s3, [late], c, now);
    var s4 := Next(q, s3, DataArrives);
    RunOne(q, s3, Ordinary(DataArrives), [Ordinary(AckArrives)] + []);
    RunOne(q, s4, Ordinary(AckArrives), []);
    moves := [Ordinary(Send(c))] + ([Ordinary(Check(now, true))] + rest2);
    t := Next(q, s4, AckArrives);
  }

  lemma IdleNums(q: QueueInfo, s: Sys, held: seq<Frame>, now: nat)
    requires Idle(s, held, now, q)
    ensures s.tx.num == s.tx.lastNum == s.rx.recvSeq && s.rx.partial == None && s.data == held && s.acks == [] && !s.stopped
  {
  }

  /** The first round, in which the link duplicates the frame and keeps the copy. */
  lemma FirstRound(q: QueueInfo, c: Cmd) returns (moves: seq<Move>, t: Sys)
    requires q.ack && FitsAlone(c) && HeaderOk(c)
    ensures Ready(q, INIT) && t == RunMoves(q, INIT, moves) && Idle(t, [Frame(0, Whole(c))], 2 * Pause(q), q)
    ensures t.tx.num == 0 && t.accepted == [c] && t.rx.delivered == [c]
  {
    hide CheckOnce, RecvAck, Receive, Whole, Pause;
    var now := Pause(q);
    PauseIsOver(q, 0);
    assert Consistent(q, NEW_TX);
    assert Idle(INIT, [], now, q);
    RoundSends(q, INIT, [], c, now);
    var s1 := Next(q, INIT, Send(c));
    var s2 := Next(q, s1, Check(now, true));
    var f := Frame(0, Whole(c));
    var rest2 := [Ordinary(DuplicateData(0))] + ([Ordinary(DataArrives)] + ([Ordinary(AckArrives)] + []));
    RunOne(q, INIT, Ordinary(Send(c)), [Ordinary(Check(now, true))] + rest2);
    RunOne(q, s1, Ordinary(Check(now, true)), rest2);
    RunOne(q, s2, Ordinary(DuplicateData(0)), [Ordinary(DataArrives)] + ([Ordinary(AckArrives)] + []));
    var s3 := Next(q, s2, DuplicateData(0));
    assert s2.data == [f] && s3.data == [f] + [f];
    RoundArrives(q, s3, [f], c, now);
    var s4 := Next(q, s3, DataArrives);
    RunOne(q, s3, Ordinary(DataArrives), [Ordinary(AckArrives)] + []);
    RunOne(q, s4, Ordinary(AckArrives), []);
    moves := [Ordinary(Send(c))] + ([Ordinary(Check(now, true))] + rest2);
    t := Next(q, s4, AckArrives);
    assert now + Pause(q) == 2 * Pause(q);
  }

  /** A command any number of times. */
  function Times(c: Cmd, n: nat): (r: seq<seq<byte>>)
    ensures |r| == n
  {
    seq(n, _ => c)
  }

  /** More rounds, during which the copy stays behind. */
  lemma {:induction false} Rounds(q: QueueInfo, c: Cmd, n: nat) returns (moves: seq<Move>, t: Sys)
    requires q.ack && FitsAlone(c) && HeaderOk(c) && n < 0xFFFF
    ensures Ready(q, INIT) && t == RunMoves(q, INIT, moves) && Idle(t, [Frame(0, Whole(c))], (n + 2) * Pause(q), q)
    ensures t.tx.num == n && t.accepted == Times(c, n + 1) && t.rx.delivered == Times(c, n + 1)
  {
    hide Idle, Ready, Whole, Pause;
    if n == 0 {
      moves, t := FirstRound(q, c);
    } else {
      var moves0, s := Rounds(q, c, n - 1);
      assert Times(c, n) + [c] == Times(c, n + 1);
      var now := (n + 1) * Pause(q);
      assert now + Pause(q) == (n + 2) * Pause(q);
      var more;
      more, t := Round(q, s, Frame(0, Whole(c)), c, now);
      RunAppend(q, INIT, moves0, more);
      moves := moves0 + more;
    }
  }

  /** A run with one late frame in which a command is delivered twice: with twelve commands accepted,
      thirteen are given to the application. */
  lemma DeliveredTwice(q: QueueInfo, c: Cmd) returns (moves: seq<Move>)
    requires q.ack && FitsAlone(c) && HeaderOk(c)
    ensures Ready(q, INIT)
    ensures var s := RunMoves(q, INIT, moves);
      s.accepted == Times(c, 12) && s.rx.delivered == Times(c, 13)
  {
    hide Ready, Whole;
    var moves0, s := Rounds(q, c, 11);
    IdleNums(q, s, [Frame(0, Whole(c))], 13 * Pause(q));
    RunOne(q, s, Ordinary(DataArrives), []);
    WholePack(c);
    assert Times(c, 12) + [c] == Times(c, 13);
    RunAppend(q, INIT, moves0, [Ordinary(DataArrives)] + []);
    moves := moves0 + ([Ordinary(DataArrives)] + []);
  }
}
