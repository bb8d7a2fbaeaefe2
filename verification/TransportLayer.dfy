/** The transport below the command interfaces, and the packets that it carries. */
module TransportLayer {
  import opened Bytes
  import opened StopAndWait
  import opened Commands

  datatype DataType = Unknown | Ack | NoAck | LowLatency | WithAck

  /** A frame with its type and the identifier of its queue. */
  datatype Packet = Packet(dataType: DataType, id: byte, frame: Frame)

  /** The packet with a frame of a queue. */
  function QueuePacket(q: QueueInfo, f: Frame): Packet {
    Packet(if q.ack then WithAck else NoAck, q.id, f)
  }

  /** The acknowledgement of the frame `num` of the queue `id`. */
  function AckPacket(id: byte, ackoff: byte, ackSeq: u16, num: u16): Packet {
    Packet(Ack, ((id as int + ackoff as int) % 256) as byte, Frame(ackSeq, LittleEndian(num, 2)))
  }

  /** The transport below: it takes a frame or refuses it. */
  class Transport<P> {
    /** Which frames, counted from the start, are taken. */
    const takes: nat -> bool
    var tries: nat
    var sent: seq<P>

    constructor (takes: nat -> bool)
      ensures this.takes == takes && tries == 0 && sent == []
    {
      this.takes := takes;
      tries, sent := 0, [];
    }

    method SendData(p: P) returns (ok: bool)
      modifies this
      ensures ok == takes(old(tries)) && tries == old(tries) + 1
      ensures sent == if ok then old(sent) + [p] else old(sent)
    {
      ok := takes(tries);
      tries := tries + 1;
      if ok {
        sent := sent + [p];
      }
    }
  }

  /** The frames of a queue, as packets. */
  function Packets(q: QueueInfo, frames: seq<Frame>): (r: seq<Packet>)
    ensures |r| == |frames|
  {
    seq(|frames|, i requires 0 <= i < |frames| => QueuePacket(q, frames[i]))
  }

  lemma PacketsAppend(q: QueueInfo, a: seq<Frame>, b: seq<Frame>)
    ensures Packets(q, a + b) == Packets(q, a) + Packets(q, b)
    ensures Packets(q, []) == []
    ensures |b| == 1 ==> Packets(q, b) == [QueuePacket(q, b[0])]
  {
  }

  /** The shorter of a delay and a new one; a negative delay is none. */
  function Sooner(next: int, deadline: Option<int>): int {
    match deadline
    case None => next
    case Some(d) => if next < 0 || d < next then d else next
  }
}
