/** Packing of whole commands in version 2 of the command interface, and their unpacking. */
module PackV2 {
  import opened Bytes
  import opened Commands

  /** Maximum size of a pack. */
  const PACK_MAX: nat := 1400

  /** The bytes of commands, each with the 16 low bits of its size before it. */
  function Encode(cmds: seq<seq<byte>>): seq<byte> {
    if cmds == [] then [] else LittleEndian(|cmds[0]|, 2) + cmds[0] + Encode(cmds[1..])
  }

  /** How many commands the packing loop takes when `used` bytes of the pack are taken. */
  function PackCount(cmds: seq<Cmd>, used: nat): (n: nat)
    ensures n <= |cmds|
  {
    if cmds == [] || used + |cmds[0]| + 2 > PACK_MAX then 0
    else 1 + PackCount(cmds[1..], used + |cmds[0]| + 2)
  }

  /** Whether a command, with its size, fits in an empty pack. */
  predicate FitsAlone(c: Cmd) {
    |c| + 2 <= PACK_MAX
  }

  lemma FitsUpTo1398(c: Cmd)
    ensures FitsAlone(c) <==> |c| <= 1398
  {
  }

  /** A pack has the longest prefix of the commands that fits in it. */
  lemma {:induction false} PackIsLongest(cmds: seq<Cmd>, used: nat)
    requires used <= PACK_MAX
    ensures var n := PackCount(cmds, used);
      && used + |Encode(cmds[..n])| <= 1400
      && (n < |cmds| ==> used + |Encode(cmds[..n + 1])| > 1400)
      && (forall i :: 0 <= i < n ==> FitsAlone(cmds[i]))
    ensures used == 0 && cmds != [] ==> (PackCount(cmds, used) > 0 <==> FitsAlone(cmds[0]))
  {
    if cmds != [] {
      assert cmds[..1][1..] == [];
      var used' := used + |cmds[0]| + 2;
      if used' <= PACK_MAX {
        var n := PackCount(cmds[1..], used');
        PackIsLongest(cmds[1..], used');
        assert cmds[..n + 1][1..] == cmds[1..][..n];
        forall i | 0 <= i < n + 1 ensures FitsAlone(cmds[i]) {
          assert i > 0 ==> cmds[i] == cmds[1..][i - 1];
        }
        if n + 1 < |cmds| {
          assert cmds[..n + 2][1..] == cmds[1..][..n + 1];
        }
      }
    }
  }

  datatype Unpacked = Unpacked(delivered: seq<seq<byte>>, res: Errno)

  /** The unpacking loop; `res` is the result of the last command before it. One byte alone is left
      over in silence. */
  function UnpackLoop(data: seq<byte>, res: Errno): Unpacked
    decreases |data|
  {
    if |data| < 2 then Unpacked([], res)
    else
      var size := FromLittleEndian(data[..2]);
      if 2 + size > |data| then Unpacked([], EProto)
      else
        var cmd := data[2..2 + size];
        var next := UnpackLoop(data[2 + size..], if HeaderOk(cmd) then Success else EInval);
        next.(delivered := (if HeaderOk(cmd) then [cmd] else []) + next.delivered)
  }

  /** Unpacks a payload; an empty one is refused. */
  function Unpack(data: seq<byte>): Unpacked {
    if data == [] then Unpacked([], EInval) else UnpackLoop(data, Success)
  }

  lemma LoopTakesOne(c: seq<byte>, rest: seq<byte>, res: Errno)
    requires |c| < 0x1_0000
    ensures var next := UnpackLoop(rest, if HeaderOk(c) then Success else EInval);
      UnpackLoop(LittleEndian(|c|, 2) + c + rest, res)
      == next.(delivered := (if HeaderOk(c) then [c] else []) + next.delivered)
  {
    var data := LittleEndian(|c|, 2) + c + rest;
    assert data[..2] == LittleEndian(|c|, 2);
    assert Pow256(2) == 256 * Pow256(1) && Pow256(1) == 256 * Pow256(0);
    LittleEndianRoundTrip(|c|, 2);
    assert data[2..2 + |c|] == c && data[2 + |c|..] == rest;
  }

  /** Unpacking an encoding gives the commands back, except those without a header; the result is
      that of the last one. */
  lemma {:induction false} UnpackEncoded(cmds: seq<seq<byte>>, res: Errno)
    requires forall c <- cmds :: |c| < 0x1_0000
    ensures UnpackLoop(Encode(cmds), res) == Unpacked(Deliverable(cmds),
      if cmds == [] then res else if HeaderOk(cmds[|cmds| - 1]) then Success else EInval)
  {
    hide UnpackLoop;
    if cmds != [] {
      UnpackEncoded(cmds[1..], if HeaderOk(cmds[0]) then Success else EInval);
      LoopTakesOne(cmds[0], Encode(cmds[1..]), res);
    } else {
      LoopEnds(res);
    }
  }

  lemma LoopEnds(res: Errno)
    ensures UnpackLoop([], res) == Unpacked([], res)
  {
  }

  /** A payload that was cut short delivers a prefix of its commands and nothing else. */
  lemma {:induction false} TruncatedPack(cmds: seq<seq<byte>>, len: nat, res: Errno) returns (n: nat)
    requires (forall c <- cmds :: |c| < 0x1_0000) && len <= |Encode(cmds)|
    ensures n <= |cmds| && UnpackLoop(Encode(cmds)[..len], res).delivered == Deliverable(cmds[..n])
    ensures |Encode(cmds[..n])| <= len && (n < |cmds| ==> len < |Encode(cmds[..n + 1])|)
  {
    n := 0;
    if cmds != [] {
      var c := cmds[0];
      var data := Encode(cmds)[..len];
      var whole := 2 + |c|;
      assert cmds[..1][1..] == [];
      if len < whole {
        if len >= 2 {
          assert data[..2] == LittleEndian(|c|, 2);
          assert Pow256(2) == 256 * Pow256(1) && Pow256(1) == 256 * Pow256(0);
          LittleEndianRoundTrip(|c|, 2);
        }
      } else {
        var rest := Encode(cmds[1..]);
        assert data == LittleEndian(|c|, 2) + c + rest[..len - whole];
        LoopTakesOne(c, rest[..len - whole], res);
        var m := TruncatedPack(cmds[1..], len - whole, if HeaderOk(c) then Success else EInval);
        n := m + 1;
        assert cmds[..n][1..] == cmds[1..][..m];
        if n < |cmds| {
          assert cmds[..n + 1][1..] == cmds[1..][..m + 1];
        }
      }
    }
  }
}
