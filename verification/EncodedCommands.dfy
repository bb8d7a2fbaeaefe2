/** Commands that are encoded from their arguments at one end and decoded at the other: what the
    theorems about delivery say of them. */
module EncodedCommands {
  import opened Bytes
  import opened Commands
  import opened Codec
  import opened Links
  import opened QueueV1
  import V1 = SystemV1
  import V2 = SystemV2
  import V3 = SystemV3
  import P = PeersV3

  /** A command that the encoder made of the arguments of some description. */
  ghost predicate IsEncoded(c: seq<byte>) {
    exists d: Desc, vs: seq<Value> :: (forall v <- vs :: v.Valid()) && c == EncodeCmd(d, vs)
  }

  /** The receiver reads the identifiers of the project, the class and the command: one byte, one byte
      and two. It can do so if and only if the bytes begin with those of some description. */
  lemma HeaderIffIdentifiers(c: seq<byte>)
    ensures HeaderOk(c) <==> exists d: Desc :: Header(d) <= c
  {
    if HeaderOk(c) {
      FromLittleEndianRoundTrip(c[2..4]);
      assert Pow256(2) == 0x1_0000;
      var d := Desc(c[0], c[1], FromLittleEndian(c[2..4]), []);
      assert c[..4] == Header(d);
      assert Header(d) <= c;
    }
  }

  /** Every encoded command is given to the application as it is, also one without arguments. */
  lemma EncodedIsDeliverable(d: Desc, vs: seq<Value>)
    requires forall v <- vs :: v.Valid()
    ensures Deliverable([EncodeCmd(d, vs)]) == [EncodeCmd(d, vs)]
  {
    var c := EncodeCmd(d, vs);
    assert Header(d) <= c;
    assert [c][1..] == [];
  }

  lemma EncodedHasHeader(c: seq<byte>)
    requires IsEncoded(c)
    ensures HeaderOk(c)
  {
    var d: Desc, vs: seq<Value> :| (forall v <- vs :: v.Valid()) && c == EncodeCmd(d, vs);
    EncodedIsDeliverable(d, vs);
    assert [c][1..] == [];
  }

  lemma {:induction false} AllDeliverable(cmds: seq<seq<byte>>)
    requires forall c <- cmds :: IsEncoded(c)
    ensures Deliverable(cmds) == cmds
  {
    hide IsEncoded, HeaderOk;
    if cmds != [] {
      EncodedHasHeader(cmds[0]);
      AllDeliverable(cmds[1..]);
      assert cmds == [cmds[0]] + cmds[1..];
    }
  }

  lemma PrefixDeliverable(cmds: seq<Cmd>, n: nat)
    requires n <= |cmds| && forall c <- cmds :: IsEncoded(c)
    ensures Deliverable(cmds[..n]) == cmds[..n]
  {
    hide IsEncoded;
    AllDeliverable(cmds[..n]);
  }

  /** Whether what is delivered is a prefix of what was accepted that has at least `least` commands. */
  ghost predicate IsPrefix(delivered: seq<seq<byte>>, accepted: seq<Cmd>, least: nat) {
    exists n :: least <= n <= |accepted| && delivered == accepted[..n]
  }

  /** In every run of an acknowledged queue of version 3 whose accepted commands are encoded ones, what
      is delivered is exactly a prefix of them, with all that were acknowledged. */
  lemma DeliveredV3(q: QueueInfo, steps: seq<Step<Cmd>>)
    requires q.ack && forall c <- V3.Run(q, steps).accepted :: IsEncoded(c)
    ensures var s := V3.Run(q, steps); IsPrefix(s.rx.delivered, s.accepted, s.acked)
  {
    hide IsEncoded;
    V3.ExactlyOnceInOrder(q, steps);
    var s := V3.Run(q, steps);
    var n :| s.acked <= n <= |s.accepted| && s.rx.delivered == Deliverable(s.accepted[..n]);
    PrefixDeliverable(s.accepted, n);
  }

  /** The same for version 2. */
  lemma DeliveredV2(q: QueueInfo, steps: seq<Step<Cmd>>)
    requires q.ack && forall c <- V2.Run(q, steps).accepted :: IsEncoded(c)
    ensures var s := V2.Run(q, steps); IsPrefix(s.rx.delivered, s.accepted, s.popped)
  {
    hide IsEncoded;
    V2.ExactlyOnceInOrder(q, steps);
    var s := V2.Run(q, steps);
    var n :| s.popped <= n <= |s.accepted| && s.rx.delivered == Deliverable(s.accepted[..n]);
    PrefixDeliverable(s.accepted, n);
  }

  /** In every run of version 1 whose accepted commands are encoded ones, what is delivered is exactly
      what the frames processed by the receiver carried. */
  lemma DeliveredV1(q: QueueInfo, steps: seq<Step<Request>>)
    requires forall r <- V1.Run(q, steps).accepted :: IsEncoded(r.cmd)
    ensures var s := V1.Run(q, steps);
      && (forall k :: 0 <= k < |s.order| ==> 0 <= s.order[k] < |s.accepted|)
      && (forall k :: 0 <= k < |s.got| ==> s.got[k] < |s.order|)
      && |s.rx.delivered| == |s.got|
      && forall k :: 0 <= k < |s.got| ==> s.rx.delivered[k] == s.accepted[s.order[s.got[k]]].cmd
  {
    hide IsEncoded;
    V1.AtMostOnceInOrder(q, steps);
    var s := V1.Run(q, steps);
    AllDeliverable(V1.BytesAt(s.accepted, s.order, s.got));
  }

  /** End to end between two interfaces of version 3: what was received from an acknowledged queue is a
      prefix of what it accepted, and the arguments that were given at one side are those decoded at the
      other. */
  lemma ArgumentsArrive(c: P.Settings, turns: seq<P.Turn>, k: nat)
    requires P.Good(c) && (forall t <- turns :: P.TurnAllowed(c, t))
    requires k < |c.near| && c.near[k].ack
    requires var w := P.RunBoth(c, turns);
      k < |w.near.accepted| == |w.near.acked| && forall cmd <- w.near.accepted[k] :: IsEncoded(cmd)
    ensures var w := P.RunBoth(c, turns);
      IsPrefix(P.Select(w.far.received, P.CommandOf(c.near[k].id)), w.near.accepted[k], w.near.acked[k])
    ensures var w := P.RunBoth(c, turns);
      var received := P.Select(w.far.received, P.CommandOf(c.near[k].id));
      && |received| <= |w.near.accepted[k]|
      && forall i, d, vs :: 0 <= i < |received| && IsCommand(w.near.accepted[k][i], d, vs) ==>
        DecodeCmd(d, received[i]) == Some(Normals(vs))
  {
    hide IsEncoded, P.Select, P.CommandOf, DecodeCmd, IsCommand;
    P.EndToEnd(c, turns);
    var w := P.RunBoth(c, turns);
    assert P.DeliveredInOrder(c.near[k], w.near, w.far, k);
    var received := P.Select(w.far.received, P.CommandOf(c.near[k].id));
    var n :| w.near.acked[k] <= n <= |w.near.accepted[k]| && received == Deliverable(w.near.accepted[k][..n]);
    PrefixDeliverable(w.near.accepted[k], n);
    forall i, d, vs | 0 <= i < |received| && IsCommand(w.near.accepted[k][i], d, vs)
      ensures DecodeCmd(d, received[i]) == Some(Normals(vs))
    {
      CommandDecodes(received[i], d, vs);
    }
  }

  /** The command with the given description and arguments. */
  ghost predicate IsCommand(c: seq<byte>, d: Desc, vs: seq<Value>) {
    (forall v <- vs :: v.Valid()) && Types(vs) == d.args && c == EncodeCmd(d, vs)
  }

  lemma CommandDecodes(c: seq<byte>, d: Desc, vs: seq<Value>)
    requires IsCommand(c, d, vs)
    ensures DecodeCmd(d, c) == Some(Normals(vs))
  {
    hide DecodeCmd, EncodeCmd;
    CmdRoundTrip(d, vs, []);
    assert EncodeCmd(d, vs) + [] == EncodeCmd(d, vs);
  }
}
