/** Packing and cutting of commands in version 3 of the command interface, and the
    reassembly done by the receiver. */
module PackV3 {
  import opened Bytes
  import opened Commands

  /** Maximum size of a pack. */
  const PACK_MAX: nat := 1000

  /** The result of filling a pack: its bytes, how many commands are in it, entirely or not,
      and how many bytes of the last one are left for the next pack. */
  datatype PackResult = PackResult(data: seq<byte>, count: nat, rem: nat)

  /** Whether `rem` can be the number of bytes of the oldest command still to be sent;
      0 means that it was not cut. */
  predicate ValidRem(cmds: seq<Cmd>, rem: nat) {
    rem > 0 ==> cmds != [] && rem <= |cmds[0]|
  }

  /** The loop of the packing function for commands that start in this pack; `used` bytes of
      the pack are taken. Only an acknowledged queue may cut a command; on the others the
      size of a command that does not fit stays at the end of the pack. */
  function PackFrom(cmds: seq<Cmd>, used: nat, ack: bool): (r: PackResult)
    ensures r.count == 0 ==> r.rem == 0
    decreases |cmds|
  {
    if cmds == [] then PackResult([], 0, 0) else
    var size := WriteVarint(|cmds[0]|);
    if used + |size| > PACK_MAX then PackResult([], 0, 0) else
    var len := used + |size| + |cmds[0]|;
    if len > PACK_MAX then
      if !ack then PackResult(size, 0, 0)
      else
        var rem := len - PACK_MAX;
        PackResult(size + cmds[0][..|cmds[0]| - rem], 1, rem)
    else
      var r := PackFrom(cmds[1..], len, ack);
      PackResult(size + cmds[0] + r.data, r.count + 1, r.rem)
  }

  /** A whole pack: first what is left of a command cut by the last acknowledged pack. */
  function Pack(cmds: seq<Cmd>, lastRem: nat, ack: bool): PackResult
    requires ValidRem(cmds, lastRem)
  {
    if lastRem == 0 then PackFrom(cmds, 0, ack)
    else
      var left := cmds[0][|cmds[0]| - lastRem..];
      if lastRem > PACK_MAX then
        if !ack then PackResult([], 0, 0) else PackResult(left[..PACK_MAX], 1, lastRem - PACK_MAX)
      else
        var r := PackFrom(cmds[1..], lastRem, ack);
        PackResult(left + r.data, r.count + 1, r.rem)
  }

  // ----- The byte stream: the reference that packs are compared with -----

  /** The bytes of a command with its size before it: those that are left when the receiver
      misses `rem` bytes (0: the command was not begun), less the last `cut` bytes. */
  function Part(c: Cmd, rem: nat, cut: nat): (r: seq<byte>)
    requires rem <= |c| && cut <= |c| && (rem > 0 ==> cut < rem)
    ensures r != []
  {
    if rem > 0 then c[|c| - rem..|c| - cut] else WriteVarint(|c|) + c[..|c| - cut]
  }

  /** All the bytes still to be acknowledged: every command with its size before it, less what
      the receiver has of the first one. */
  function Stream(cmds: seq<Cmd>, rem: nat): (r: seq<byte>)
    requires ValidRem(cmds, rem)
    decreases |cmds|
  {
    if cmds == [] then [] else Part(cmds[0], rem, 0) + Stream(cmds[1..], 0)
  }

  /** Whether a pack of all of `cmds` can start with the last `rem` bytes of the first and leave
      out the last `cut` bytes of the last. */
  predicate ValidCut(cmds: seq<Cmd>, rem: nat, cut: nat) {
    && cmds != [] && ValidRem(cmds, rem)
    && cut <= |cmds[|cmds| - 1]|
    && (|cmds| == 1 && rem > 0 ==> cut < rem)
  }

  /** The bytes of `cmds` from the point `rem` on, less the last `cut` bytes. */
  function Encode(cmds: seq<Cmd>, rem: nat, cut: nat): (r: seq<byte>)
    requires ValidCut(cmds, rem, cut)
    ensures r != []
    decreases |cmds|
  {
    if |cmds| == 1 then Part(cmds[0], rem, cut)
    else Part(cmds[0], rem, 0) + Encode(cmds[1..], 0, cut)
  }

  /** How many commands are completed by a pack of `count` commands that leaves out `rem` bytes. */
  function Completed(count: nat, rem: nat): nat
    requires count > 0
  {
    if rem == 0 then count else count - 1
  }

  /** The bytes of a pack followed by those that it leaves are the bytes that there were. */
  lemma {:induction false} EncodeThenRest(cmds: seq<Cmd>, count: nat, rem: nat, cut: nat)
    requires 0 < count <= |cmds| && ValidRem(cmds, rem) && ValidCut(cmds[..count], rem, cut)
    ensures ValidRem(cmds[Completed(count, cut)..], cut)
    ensures Stream(cmds, rem) == Encode(cmds[..count], rem, cut) + Stream(cmds[Completed(count, cut)..], cut)
    decreases |cmds|
  {
    hide Part;
    if count == 1 {
      EncodeOneThenRest(cmds, rem, cut);
    } else {
      var rest := cmds[1..];
      assert cmds[..count][1..] == rest[..count - 1];
      assert rest[Completed(count - 1, cut)..] == cmds[Completed(count, cut)..];
      EncodeThenRest(rest, count - 1, 0, cut);
      var first, head, left := Part(cmds[0], rem, 0), Encode(rest[..count - 1], 0, cut), Stream(cmds[Completed(count, cut)..], cut);
      assert Encode(cmds[..count], rem, cut) == first + head;
      assert first + (head + left) == (first + head) + left;
    }
  }

  lemma EncodeOneThenRest(cmds: seq<Cmd>, rem: nat, cut: nat)
    requires cmds != [] && ValidRem(cmds, rem) && ValidCut(cmds[..1], rem, cut)
    ensures Stream(cmds, rem) == Encode(cmds[..1], rem, cut) + Stream(cmds[Completed(1, cut)..], cut)
  {
    hide Part;
    var c, tail := cmds[0], Stream(cmds[1..], 0);
    assert Encode(cmds[..1], rem, cut) == Part(c, rem, cut);
    assert Stream(cmds, rem) == Part(c, rem, 0) + tail;
    PartSplit(c, rem, cut);
    if cut > 0 {
      assert cmds[0..] == cmds;
      assert Stream(cmds, cut) == Part(c, cut, 0) + tail;
      assert (Part(c, rem, cut) + Part(c, cut, 0)) + tail == Part(c, rem, cut) + (Part(c, cut, 0) + tail);
    } else {
      assert Part(c, rem, 0) + [] == Part(c, rem, 0);
    }
  }

  lemma PartSplit(c: Cmd, rem: nat, cut: nat)
    requires rem <= |c| && cut <= |c| && (rem > 0 ==> cut < rem)
    ensures Part(c, rem, 0) == Part(c, rem, cut) + (if cut > 0 then Part(c, cut, 0) else [])
  {
    assert c == c[..|c| - cut] + c[|c| - cut..];
  }

  /** What is known of a pack that fills `used` bytes up to at most 1000. */
  ghost predicate Fills(p: PackResult, cmds: seq<Cmd>, rem: nat, used: nat)
    requires ValidRem(cmds, rem)
  {
    && p.count <= |cmds| && used + |p.data| <= PACK_MAX
    && (p.rem > 0 ==> used + |p.data| == PACK_MAX && p.count > 0)
    && (p.count == 0 ==> p.data == [] && p.rem == 0)
    && (p.count > 0 ==> ValidCut(cmds[..p.count], rem, p.rem) && p.data == Encode(cmds[..p.count], rem, p.rem))
    && (used + |p.data| < PACK_MAX - 4 ==> p.count == |cmds| && p.rem == 0)
  }

  /** Putting the rest of the first command before a pack of the following ones. */
  lemma FillsCons(r: PackResult, cmds: seq<Cmd>, rem: nat, used: nat)
    requires cmds != [] && ValidRem(cmds, rem)
    requires Fills(r, cmds[1..], 0, used + |Part(cmds[0], rem, 0)|)
    ensures Fills(PackResult(Part(cmds[0], rem, 0) + r.data, r.count + 1, r.rem), cmds, rem, used)
  {
    var taken := cmds[..r.count + 1];
    if r.count == 0 {
      assert taken == [cmds[0]];
    } else {
      assert taken[1..] == cmds[1..][..r.count];
    }
  }

  lemma {:induction false} PackFromFills(cmds: seq<Cmd>, used: nat)
    requires used <= PACK_MAX
    ensures Fills(PackFrom(cmds, used, true), cmds, 0, used)
    decreases |cmds|
  {
    if cmds != [] {
      var c := cmds[0];
      var size := WriteVarint(|c|);
      var len := used + |size| + |c|;
      assert Part(c, 0, 0) == size + c;
      if used + |size| <= PACK_MAX < len {
        assert cmds[..1] == [c];
      } else if len <= PACK_MAX {
        PackFromFills(cmds[1..], len);
        FillsCons(PackFrom(cmds[1..], len, true), cmds, 0, used);
      }
    }
  }

  /** Every pack of an acknowledged queue is the encoding of its commands from the point where
      the last pack stopped. It is not empty, has at most 1000 bytes, cuts a command only when
      it is full, and, when it has fewer than 996 bytes, holds every queued command to its end. */
  lemma PackEncodes(cmds: seq<Cmd>, lastRem: nat)
    requires cmds != [] && ValidRem(cmds, lastRem)
    ensures var p := Pack(cmds, lastRem, true);
      && 0 < p.count <= |cmds| && 0 < |p.data| <= 1000
      && ValidCut(cmds[..p.count], lastRem, p.rem)
      && p.data == Encode(cmds[..p.count], lastRem, p.rem)
      && (p.rem > 0 ==> |p.data| == 1000)
      && (|p.data| < 996 ==> p.count == |cmds| && p.rem == 0)
  {
    if lastRem == 0 {
      PackFromFills(cmds, 0);
    } else if lastRem > PACK_MAX {
      assert cmds[..1] == [cmds[0]];
    } else {
      PackFromFills(cmds[1..], lastRem);
      FillsCons(PackFrom(cmds[1..], lastRem, true), cmds, lastRem, 0);
    }
  }

  /** What is left after a pack: the commands that it does not complete, and how many bytes of
      the first of them. */
  function After(cmds: seq<Cmd>, lastRem: nat): (r: (seq<Cmd>, nat))
    requires cmds != [] && ValidRem(cmds, lastRem)
    ensures ValidRem(r.0, r.1) && |r.0| <= |cmds|
  {
    PackEncodes(cmds, lastRem);
    var p := Pack(cmds, lastRem, true);
    (cmds[Completed(p.count, p.rem)..], p.rem)
  }

  /** Conservation: a pack followed by the stream that remains is the stream there was. */
  lemma PackConserves(cmds: seq<Cmd>, lastRem: nat)
    requires cmds != [] && ValidRem(cmds, lastRem)
    ensures var (rest, rem) := After(cmds, lastRem);
      Stream(cmds, lastRem) == Pack(cmds, lastRem, true).data + Stream(rest, rem)
  {
    var p := Pack(cmds, lastRem, true);
    PackEncodes(cmds, lastRem);
    EncodeThenRest(cmds, p.count, lastRem, p.rem);
  }

  // ----- The receiver -----

  /** A command received in part: the size announced and the bytes received, which are kept in a
      buffer of that capacity. */
  datatype Piece = Piece(size: nat, got: seq<byte>)
  type Partial = p: Piece | |p.got| <= p.size witness Piece(0, [])

  datatype Unpacked = Unpacked(delivered: seq<seq<byte>>, partial: Option<Partial>, res: Errno)

  /** The loop of the unpacking function. `partial` is the command kept from the last pack, for
      the first turn only; on a queue that is not acknowledged it is neither used nor changed.
      `res` is the result of the last operation before the loop. */
  function UnpackLoop(data: seq<byte>, first: bool, partial: Option<Partial>, ack: bool, res: Errno): Unpacked
    decreases |data|, if first then 2 else 0
  {
    if data == [] then Unpacked([], partial, res)
    else if ack && first && partial.Some? then
      Continue(data, partial.value.size, partial.value.got, None, ack)
    else
      match ReadVarint(data)
      case None => Unpacked([], partial, EInval)
      case Some((size, len)) => Continue(data[len..], size, [], partial, ack)
  }

  /** The part of the loop body after the size is known: `data` starts with the bytes of the command. */
  function Continue(data: seq<byte>, size: nat, got: seq<byte>, partial: Option<Partial>, ack: bool): Unpacked
    requires |got| <= size
    decreases |data|, 1
  {
    if size - |got| > |data| then
      if !ack then Unpacked([], partial, EProto)
      else Unpacked([], Some(Piece(size, got + data)), Success)
    else
      var n := size - |got|;
      var cmd := got + data[..n];
      var next := UnpackLoop(data[n..], false, partial, ack, if HeaderOk(cmd) then Success else EInval);
      next.(delivered := (if HeaderOk(cmd) then [cmd] else []) + next.delivered)
  }

  /** Unpacks a payload; an empty one is refused. */
  function Unpack(data: seq<byte>, partial: Option<Partial>, ack: bool): Unpacked
  {
    if data == [] then Unpacked([], partial, EInval)
    else UnpackLoop(data, true, partial, ack, Success)
  }

  /** What the receiver keeps of a command of which `rem` bytes are missing; 0 means that the
      command was not begun. */
  function PartialOf(cmds: seq<Cmd>, rem: nat): (r: Option<Partial>)
    requires ValidRem(cmds, rem)
  {
    if rem == 0 then None else Some(Piece(|cmds[0]|, cmds[0][..|cmds[0]| - rem]))
  }

  /** The loop on bytes that start with a whole command with its size: the command is completed,
      and the loop goes on with what follows. */
  lemma LoopTakesWhole(c: Cmd, rest: seq<byte>, first: bool, ack: bool, res: Errno)
    ensures var next := UnpackLoop(rest, false, None, ack, if HeaderOk(c) then Success else EInval);
      UnpackLoop(WriteVarint(|c|) + c + rest, first, None, ack, res)
      == next.(delivered := (if HeaderOk(c) then [c] else []) + next.delivered)
  {
    var size := WriteVarint(|c|);
    var data := size + c + rest;
    assert data == size + (c + rest);
    VarintRoundTrip(|c|, c + rest);
    assert data[|size|..] == c + rest;
    assert [] + (c + rest)[..|c|] == c && (c + rest)[|c|..] == rest;
    assert UnpackLoop(data, first, None, ack, res) == Continue(c + rest, |c|, [], None, ack);
  }

  /** The same for bytes that start with the last `rem` bytes of a command kept from before. */
  lemma LoopTakesRest(c: Cmd, rem: nat, rest: seq<byte>, res: Errno)
    requires 0 < rem <= |c|
    ensures var next := UnpackLoop(rest, false, None, true, if HeaderOk(c) then Success else EInval);
      UnpackLoop(c[|c| - rem..] + rest, true, PartialOf([c], rem), true, res)
      == next.(delivered := (if HeaderOk(c) then [c] else []) + next.delivered)
  {
    var data, got := c[|c| - rem..] + rest, c[..|c| - rem];
    assert data[..rem] == c[|c| - rem..] && data[rem..] == rest;
    assert got + data[..rem] == c;
    assert UnpackLoop(data, true, PartialOf([c], rem), true, res) == Continue(data, |c|, got, None, true);
  }

  lemma LoopTakesFirst(c: Cmd, rem: nat, rest: seq<byte>, first: bool, res: Errno)
    requires rem <= |c| && (rem > 0 ==> first)
    ensures var next := UnpackLoop(rest, false, None, true, if HeaderOk(c) then Success else EInval);
      UnpackLoop(Part(c, rem, 0) + rest, first, PartialOf([c], rem), true, res)
      == next.(delivered := (if HeaderOk(c) then [c] else []) + next.delivered)
  {
    hide UnpackLoop;
    if rem > 0 {
      LoopTakesRest(c, rem, rest, res);
      assert Part(c, rem, 0) == c[|c| - rem..];
    } else {
      LoopTakesWhole(c, rest, first, true, res);
      assert Part(c, rem, 0) == WriteVarint(|c|) + c;
    }
  }

  /** The loop on the bytes of a command that is cut: it is kept. */
  lemma LoopKeepsCut(c: Cmd, rem: nat, cut: nat, first: bool, res: Errno)
    requires rem <= |c| && (rem > 0 ==> first)
    requires 0 < cut <= |c| && (rem > 0 ==> cut < rem)
    ensures UnpackLoop(Part(c, rem, cut), first, PartialOf([c], rem), true, res)
      == Unpacked([], PartialOf([c], cut), Success)
  {
    if rem > 0 {
      LoopKeepsMore(c, rem, cut, res);
    } else {
      LoopKeepsStart(c, cut, first, res);
    }
  }

  lemma LoopKeepsStart(c: Cmd, cut: nat, first: bool, res: Errno)
    requires 0 < cut <= |c|
    ensures UnpackLoop(Part(c, 0, cut), first, None, true, res) == Unpacked([], PartialOf([c], cut), Success)
  {
    var size, body, data := WriteVarint(|c|), c[..|c| - cut], Part(c, 0, cut);
    VarintRoundTrip(|c|, body);
    assert data[|size|..] == body && [] + body == body;
    assert UnpackLoop(data, first, None, true, res) == Continue(body, |c|, [], None, true);
  }

  lemma LoopKeepsMore(c: Cmd, rem: nat, cut: nat, res: Errno)
    requires 0 < cut < rem <= |c|
    ensures UnpackLoop(Part(c, rem, cut), true, PartialOf([c], rem), true, res)
      == Unpacked([], PartialOf([c], cut), Success)
  {
    var got, data := c[..|c| - rem], Part(c, rem, cut);
    assert got + data == c[..|c| - cut];
    assert UnpackLoop(data, true, PartialOf([c], rem), true, res) == Continue(data, |c|, got, None, true);
  }

  lemma LoopEnds(res: Errno)
    ensures UnpackLoop([], false, None, true, res) == Unpacked([], None, res)
  {
  }

  /** What unpacking an encoding of `cmds` that leaves out `cut` bytes has to return. */
  ghost predicate IsUnpacked(u: Unpacked, cmds: seq<Cmd>, cut: nat)
    requires cmds != [] && cut <= |cmds[|cmds| - 1]|
  {
    var n := Completed(|cmds|, cut);
    && u.delivered == Deliverable(cmds[..n])
    && u.partial == PartialOf(cmds[n..], cut)
    && ((forall c <- cmds :: HeaderOk(c)) ==> u.res == Success)
  }

  lemma IsUnpackedOne(u: Unpacked, c: Cmd, cut: nat)
    requires cut <= |c|
    requires cut > 0 ==> u == Unpacked([], PartialOf([c], cut), Success)
    requires cut == 0 ==> u == Unpacked(if HeaderOk(c) then [c] else [], None, if HeaderOk(c) then Success else EInval)
    ensures IsUnpacked(u, [c], cut)
  {
    if cut > 0 {
      assert [c][..0] == [] && [c][0..] == [c];
    } else {
      assert [c][..1] == [c];
    }
  }

  lemma IsUnpackedCons(u: Unpacked, cmds: seq<Cmd>, cut: nat)
    requires |cmds| > 1 && cut <= |cmds[|cmds| - 1]|
    requires IsUnpacked(u, cmds[1..], cut)
    ensures IsUnpacked(u.(delivered := (if HeaderOk(cmds[0]) then [cmds[0]] else []) + u.delivered), cmds, cut)
  {
    var c, rest, n := cmds[0], cmds[1..], Completed(|cmds|, cut);
    assert cmds[..n] == [c] + rest[..n - 1] && cmds[n..] == rest[n - 1..];
    DeliverableAppend([c], rest[..n - 1]);
  }

  lemma {:induction false} UnpackLoopEncoded(cmds: seq<Cmd>, rem: nat, cut: nat, first: bool, res: Errno)
    requires ValidCut(cmds, rem, cut) && (rem > 0 ==> first)
    ensures IsUnpacked(UnpackLoop(Encode(cmds, rem, cut), first, PartialOf(cmds, rem), true, res), cmds, cut)
    decreases |cmds|
  {
    hide UnpackLoop;
    var c := cmds[0];
    assert PartialOf(cmds, rem) == PartialOf([c], rem);
    if |cmds| == 1 {
      assert cmds == [c];
      if cut > 0 {
        LoopKeepsCut(c, rem, cut, first, res);
      } else {
        LoopTakesFirst(c, rem, [], first, res);
        LoopEnds(if HeaderOk(c) then Success else EInval);
        assert Part(c, rem, 0) + [] == Part(c, rem, 0);
      }
      IsUnpackedOne(UnpackLoop(Part(c, rem, cut), first, PartialOf([c], rem), true, res), c, cut);
    } else {
      var rest := Encode(cmds[1..], 0, cut);
      var res' := if HeaderOk(c) then Success else EInval;
      LoopTakesFirst(c, rem, rest, first, res);
      UnpackLoopEncoded(cmds[1..], 0, cut, false, res');
      IsUnpackedCons(UnpackLoop(rest, false, None, true, res'), cmds, cut);
    }
  }

  /** Unpacking the encoding of commands from the point where the last pack stopped, with the
      partial command of that point, delivers exactly the commands that the pack completes and
      keeps the partial command of the point where this pack stops. */
  lemma UnpackEncoded(cmds: seq<Cmd>, rem: nat, cut: nat)
    requires ValidCut(cmds, rem, cut)
    ensures IsUnpacked(Unpack(Encode(cmds, rem, cut), PartialOf(cmds, rem), true), cmds, cut)
  {
    UnpackLoopEncoded(cmds, rem, cut, true, Success);
  }

  /** A pack followed by its unpacking: the receiver gets the completed commands, and what it
      keeps is exactly the size of the cut command less the bytes that are left to send. */
  lemma PackThenUnpack(cmds: seq<Cmd>, lastRem: nat)
    requires cmds != [] && ValidRem(cmds, lastRem)
    ensures var (rest, rem) := After(cmds, lastRem);
      var u := Unpack(Pack(cmds, lastRem, true).data, PartialOf(cmds, lastRem), true);
      && cmds == cmds[..|cmds| - |rest|] + rest
      && u.delivered == Deliverable(cmds[..|cmds| - |rest|])
      && u.partial == PartialOf(rest, rem)
      && (rem > 0 ==> |u.partial.value.got| == u.partial.value.size - rem)
  {
    hide Encode, Unpack, Deliverable;
    var p := Pack(cmds, lastRem, true);
    PackEncodes(cmds, lastRem);
    var taken, n := cmds[..p.count], Completed(p.count, p.rem);
    UnpackEncoded(taken, lastRem, p.rem);
    assert PartialOf(taken, lastRem) == PartialOf(cmds, lastRem);
    assert taken[..n] == cmds[..n];
    if p.rem > 0 {
      assert taken[n..][0] == cmds[n..][0];
    }
  }

  // ----- Draining a queue -----

  /** The successive packs that carry a queue of commands. */
  function AllPacks(cmds: seq<Cmd>, rem: nat): seq<seq<byte>>
    requires ValidRem(cmds, rem)
    decreases |Stream(cmds, rem)|
  {
    if cmds == [] then []
    else
      PackConserves(cmds, rem);
      PackEncodes(cmds, rem);
      var (rest, rem') := After(cmds, rem);
      [Pack(cmds, rem, true).data] + AllPacks(rest, rem')
  }

  /** Unpacks payloads one after the other. */
  function UnpackAll(packs: seq<seq<byte>>, partial: Option<Partial>): Unpacked
  {
    if packs == [] then Unpacked([], partial, Success)
    else
      var u := Unpack(packs[0], partial, true);
      var next := UnpackAll(packs[1..], u.partial);
      next.(delivered := u.delivered + next.delivered)
  }

  function Concat(packs: seq<seq<byte>>): seq<byte> {
    if packs == [] then [] else packs[0] + Concat(packs[1..])
  }

  /** Cutting any list of commands of any lengths into packs and unpacking the packs in order
      gives the list back, with nothing left over; the packs are the byte stream of the list. */
  lemma {:induction false} CutAndReassemble(cmds: seq<Cmd>, rem: nat)
    requires ValidRem(cmds, rem)
    ensures var u := UnpackAll(AllPacks(cmds, rem), PartialOf(cmds, rem));
      u.delivered == Deliverable(cmds) && u.partial == None
    ensures Concat(AllPacks(cmds, rem)) == Stream(cmds, rem)
    decreases |Stream(cmds, rem)|
  {
    if cmds != [] {
      PackConserves(cmds, rem);
      PackEncodes(cmds, rem);
      PackThenUnpack(cmds, rem);
      var (rest, rem') := After(cmds, rem);
      var packs := AllPacks(cmds, rem);
      assert packs[1..] == AllPacks(rest, rem');
      CutAndReassemble(rest, rem');
      DeliverableAppend(cmds[..|cmds| - |rest|], rest);
    }
  }

  /** Every pack but the last has at least 996 bytes, which bounds the number of packs. */
  lemma {:induction false} PackCount(cmds: seq<Cmd>, rem: nat)
    requires ValidRem(cmds, rem)
    ensures var n := |AllPacks(cmds, rem)|;
      n > 0 ==> (n - 1) * 996 < |Stream(cmds, rem)|
    ensures |Stream(cmds, rem)| <= |AllPacks(cmds, rem)| * 1000
    decreases |Stream(cmds, rem)|
  {
    if cmds != [] {
      PackConserves(cmds, rem);
      PackEncodes(cmds, rem);
      var (rest, rem') := After(cmds, rem);
      PackCount(rest, rem');
      var p := Pack(cmds, rem, true);
      if |p.data| < 996 {
        assert rest == [];
      }
    }
  }

  // ----- Queues that are not acknowledged -----

  /** Whether a command, with its size, fits in an empty pack. */
  predicate FitsAlone(c: Cmd) {
    |WriteVarint(|c|)| + |c| <= PACK_MAX
  }

  /** A command fits if it has at most 998 bytes, since its size then takes at most two. */
  lemma FitsUpTo998(c: Cmd)
    ensures FitsAlone(c) <==> |c| <= 998
  {
  }

  /** Whether a pack ends with the size of a command that did not fit. */
  predicate Dangles(cmds: seq<Cmd>, used: nat)
    decreases |cmds|
  {
    && cmds != []
    && used + |WriteVarint(|cmds[0]|)| <= PACK_MAX
    && (used + |WriteVarint(|cmds[0]|)| + |cmds[0]| > PACK_MAX
        || Dangles(cmds[1..], used + |WriteVarint(|cmds[0]|)| + |cmds[0]|))
  }

  lemma LoopRefusesSize(n: u32, first: bool, res: Errno)
    requires n > 0
    ensures UnpackLoop(WriteVarint(n), first, None, false, res) == Unpacked([], None, EProto)
  {
    VarintRoundTrip(n, []);
    assert WriteVarint(n) + [] == WriteVarint(n);
    assert WriteVarint(n)[|WriteVarint(n)|..] == [];
  }

  lemma {:induction false} NoAckPackSize(cmds: seq<Cmd>, used: nat)
    requires used <= PACK_MAX
    ensures var p := PackFrom(cmds, used, false);
      p.count <= |cmds| && p.rem == 0 && used + |p.data| <= 1000
    ensures used == 0 && cmds != [] ==> (PackFrom(cmds, used, false).count > 0 <==> FitsAlone(cmds[0]))
    decreases |cmds|
  {
    if cmds != [] {
      var len := used + |WriteVarint(|cmds[0]|)| + |cmds[0]|;
      if len <= PACK_MAX {
        NoAckPackSize(cmds[1..], len);
      }
    }
  }

  /** The receiver of a pack that is not acknowledged gets exactly the commands counted in the
      pack. Its result is the protocol error when the pack ends with a dangling size. */
  lemma {:induction false} NoAckPackUnpack(cmds: seq<Cmd>, used: nat, first: bool, res: Errno)
    requires used <= PACK_MAX
    ensures PackFrom(cmds, used, false).count <= |cmds|
    ensures var p := PackFrom(cmds, used, false);
      var u := UnpackLoop(p.data, first, None, false, res);
      && u.delivered == Deliverable(cmds[..p.count]) && u.partial == None
      && (Dangles(cmds, used) ==> u.res == EProto)
      && (!Dangles(cmds, used) && res != EProto ==> u.res != EProto)
      && (!Dangles(cmds, used) && res == Success && (forall c <- cmds :: HeaderOk(c)) ==> u.res == Success)
    decreases |cmds|
  {
    hide UnpackLoop;
    NoAckPackSize(cmds, used);
    if cmds == [] || used + |WriteVarint(|cmds[0]|)| > PACK_MAX {
      NoAckLoopEnds(first, res);
    } else if used + |WriteVarint(|cmds[0]|)| + |cmds[0]| > PACK_MAX {
      LoopRefusesSize(|cmds[0]|, first, res);
    } else {
      var c := cmds[0];
      var len := used + |WriteVarint(|c|)| + |c|;
      var r := PackFrom(cmds[1..], len, false);
      var res' := if HeaderOk(c) then Success else EInval;
      LoopTakesWhole(c, r.data, first, false, res);
      NoAckPackUnpack(cmds[1..], len, false, res');
      assert cmds[..r.count + 1] == [c] + cmds[1..][..r.count];
      DeliverableAppend([c], cmds[1..][..r.count]);
    }
  }

  lemma NoAckLoopEnds(first: bool, res: Errno)
    ensures UnpackLoop([], first, None, false, res) == Unpacked([], None, res)
  {
  }
}
