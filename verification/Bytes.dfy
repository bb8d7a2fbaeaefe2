/** Bytes, fixed-width integers and the variable-length integers of the wire format. */
module Bytes {

  newtype byte = b: int | 0 <= b < 0x100
  type u16 = n: int | 0 <= n < 0x1_0000
  type u32 = n: int | 0 <= n < 0x1_0000_0000

  datatype Option<+T> = None | Some(value: T)

  /** Outcome codes of the modelled functions; the names are those of errno. */
  datatype Errno = Success | EInval | EProto | ENoEnt | EExist | EPipe

  /** The successor of a 16-bit sequence number, which wraps. */
  function NextSeq(n: u16): u16 {
    if n == 0xFFFF then 0 else n + 1
  }

  function Pow256(n: nat): (r: nat)
    ensures r >= 1
  {
    if n == 0 then 1 else 256 * Pow256(n - 1)
  }

  /** The `n` low bytes of `v`, least significant first. */
  function LittleEndian(v: nat, n: nat): (r: seq<byte>)
    ensures |r| == n
  {
    if n == 0 then [] else [(v % 256) as byte] + LittleEndian(v / 256, n - 1)
  }

  function FromLittleEndian(bs: seq<byte>): nat {
    if bs == [] then 0 else bs[0] as nat + 256 * FromLittleEndian(bs[1..])
  }

  lemma {:induction false} LittleEndianRoundTrip(v: nat, n: nat)
    requires v < Pow256(n)
    ensures FromLittleEndian(LittleEndian(v, n)) == v
  {
    if n > 0 {
      LittleEndianRoundTrip(v / 256, n - 1);
      assert LittleEndian(v, n)[1..] == LittleEndian(v / 256, n - 1);
    }
  }

  lemma {:induction false} FromLittleEndianRoundTrip(bs: seq<byte>)
    ensures FromLittleEndian(bs) < Pow256(|bs|)
    ensures LittleEndian(FromLittleEndian(bs), |bs|) == bs
  {
    if bs != [] {
      FromLittleEndianRoundTrip(bs[1..]);
      var rest := FromLittleEndian(bs[1..]);
      assert (bs[0] as nat + 256 * rest) / 256 == rest && (bs[0] as nat + 256 * rest) % 256 == bs[0] as nat;
    }
  }

  // The same in so many words, for the sizes in use.

  lemma TwoBytes(n: u16)
    ensures LittleEndian(n, 2) == [(n % 256) as byte, (n / 256) as byte]
  {
    assert LittleEndian(n / 256, 1) == [(n / 256 % 256) as byte] + LittleEndian(n / 256 / 256, 0);
  }

  lemma FourBytes(n: u32)
    ensures LittleEndian(n, 4) ==
      [(n % 256) as byte, (n / 0x100 % 256) as byte, (n / 0x1_0000 % 256) as byte, (n / 0x100_0000 % 256) as byte]
  {
    assert n / 256 / 256 == n / 0x1_0000 && n / 256 / 256 / 256 == n / 0x100_0000;
    assert LittleEndian(n / 256 / 256 / 256, 1) ==
      [(n / 256 / 256 / 256 % 256) as byte] + LittleEndian(n / 256 / 256 / 256 / 256, 0);
    assert LittleEndian(n / 256 / 256, 2) == [(n / 256 / 256 % 256) as byte] + LittleEndian(n / 256 / 256 / 256, 1);
  }

  lemma EightBytes(n: nat)
    ensures LittleEndian(n, 8) ==
      [(n % 256) as byte, (n / 0x100 % 256) as byte, (n / 0x1_0000 % 256) as byte, (n / 0x100_0000 % 256) as byte,
       (n / 0x1_0000_0000 % 256) as byte, (n / 0x100_0000_0000 % 256) as byte,
       (n / 0x1_0000_0000_0000 % 256) as byte, (n / 0x100_0000_0000_0000 % 256) as byte]
  {
    OneByte(n, 8);
    OneByte(n / 0x100, 7);
    assert n / 0x100 / 256 == n / 0x1_0000;
    OneByte(n / 0x1_0000, 6);
    assert n / 0x1_0000 / 256 == n / 0x100_0000;
    OneByte(n / 0x100_0000, 5);
    assert n / 0x100_0000 / 256 == n / 0x1_0000_0000;
    OneByte(n / 0x1_0000_0000, 4);
    assert n / 0x1_0000_0000 / 256 == n / 0x100_0000_0000;
    OneByte(n / 0x100_0000_0000, 3);
    assert n / 0x100_0000_0000 / 256 == n / 0x1_0000_0000_0000;
    OneByte(n / 0x1_0000_0000_0000, 2);
    assert n / 0x1_0000_0000_0000 / 256 == n / 0x100_0000_0000_0000;
    OneByte(n / 0x100_0000_0000_0000, 1);
  }

  lemma OneByte(n: nat, k: nat)
    requires k > 0
    ensures LittleEndian(n, k) == [(n % 256) as byte] + LittleEndian(n / 256, k - 1)
    ensures LittleEndian(n / 256, 0) == []
  {
  }

  lemma FromFourBytes(b: seq<byte>)
    requires |b| == 4
    ensures FromLittleEndian(b) == b[0] as nat + 0x100 * b[1] as nat + 0x1_0000 * b[2] as nat + 0x100_0000 * b[3] as nat
  {
    assert b[1..][1..] == b[2..] && b[2..][1..] == b[3..];
    assert FromLittleEndian(b[3..]) == b[3] as nat + 256 * FromLittleEndian(b[3..][1..]);
    assert FromLittleEndian(b[2..]) == b[2] as nat + 256 * FromLittleEndian(b[3..]);
  }

  /** A variable-length unsigned integer: 7 bits a byte, least significant group first,
      the top bit of a byte says that another byte follows. */
  function WriteVarint(n: nat): (r: seq<byte>)
    ensures |r| >= 1
    ensures n < 0x80 ==> |r| == 1
    ensures n < 0x4000 ==> |r| <= 2
    ensures n < 0x20_0000 ==> |r| <= 3
    ensures n < 0x1000_0000 ==> |r| <= 4
    ensures n < 0x8_0000_0000 ==> |r| <= 5
  {
    if n < 0x80 then [n as byte] else [(0x80 + n % 0x80) as byte] + WriteVarint(n / 0x80)
  }

  /** The bytes of a 32-bit value: from one to five, each with 7 bits. */
  lemma VarintBytes(n: u32)
    ensures n < 0x80 ==> WriteVarint(n) == [n as byte]
    ensures 0x80 <= n < 0x4000 ==> WriteVarint(n) == [Group(n), (n / 0x80) as byte]
    ensures 0x4000 <= n < 0x20_0000 ==> WriteVarint(n) == [Group(n), Group(n / 0x80), (n / 0x4000) as byte]
    ensures 0x20_0000 <= n < 0x1000_0000 ==>
      WriteVarint(n) == [Group(n), Group(n / 0x80), Group(n / 0x4000), (n / 0x20_0000) as byte]
    ensures 0x1000_0000 <= n ==>
      WriteVarint(n) == [Group(n), Group(n / 0x80), Group(n / 0x4000), Group(n / 0x20_0000), (n / 0x1000_0000) as byte]
  {
    var a, b, c, d := n / 0x80, n / 0x4000, n / 0x20_0000, n / 0x1000_0000;
    assert a / 0x80 == b && b / 0x80 == c && c / 0x80 == d;
    WriteGroup(n);
    WriteGroup(a);
    WriteGroup(b);
    WriteGroup(c);
    WriteGroup(d);
  }

  /** A byte with the low 7 bits of a number, and the bit that says that another one follows. */
  function Group(n: nat): byte {
    (128 + n % 128) as byte
  }

  lemma WriteGroup(n: nat)
    ensures WriteVarint(n) == if n < 128 then [n as byte] else [Group(n)] + WriteVarint(n / 128)
  {
  }

  /** Reads the groups of a variable-length integer after `k` groups: the value of the groups
      read and how many bytes they took. At most five bytes are read in all. */
  function ReadGroups(data: seq<byte>, k: nat): (r: Option<(nat, nat)>)
    ensures r.Some? ==> 1 <= r.value.1 <= |data| && k + r.value.1 <= 5
    decreases |data|
  {
    if data == [] || k >= 5 then None
    else if data[0] < 0x80 then Some((data[0] as nat, 1))
    else
      match ReadGroups(data[1..], k + 1)
      case None => None
      case Some((v, len)) => Some((data[0] as nat - 0x80 + 0x80 * v, len + 1))
  }

  /** Reads a 32-bit variable-length integer: its value and its length in bytes. */
  function ReadVarint(data: seq<byte>): (r: Option<(nat, nat)>)
    ensures r.Some? ==> 1 <= r.value.1 <= |data| && r.value.1 <= 5 && r.value.0 < 0x1_0000_0000
  {
    match ReadGroups(data, 0)
    case None => None
    case Some((v, len)) => if v < 0x1_0000_0000 then Some((v, len)) else None
  }

  lemma {:induction false} ReadGroupsOfWritten(n: nat, rest: seq<byte>, k: nat)
    requires k + |WriteVarint(n)| <= 5
    ensures ReadGroups(WriteVarint(n) + rest, k) == Some((n, |WriteVarint(n)|))
    decreases n
  {
    var w := WriteVarint(n) + rest;
    if n >= 0x80 {
      assert w[1..] == WriteVarint(n / 0x80) + rest;
      ReadGroupsOfWritten(n / 0x80, rest, k + 1);
    }
  }

  /** Whatever follows it, a written 32-bit value is read back with its exact length. */
  lemma VarintRoundTrip(n: u32, rest: seq<byte>)
    ensures ReadVarint(WriteVarint(n) + rest) == Some((n as nat, |WriteVarint(n)|))
  {
    ReadGroupsOfWritten(n, rest, 0);
  }

  /** No proper prefix of a written value reads as a value: a truncated size is an error. */
  lemma {:induction false} TruncatedGroups(n: nat, len: nat, k: nat)
    requires len < |WriteVarint(n)|
    ensures ReadGroups(WriteVarint(n)[..len], k) == None
    decreases n
  {
    if len > 0 && k < 5 {
      var w := WriteVarint(n);
      assert w[..len][1..] == w[1..][..len - 1];
      assert w[1..] == WriteVarint(n / 0x80);
      TruncatedGroups(n / 0x80, len - 1, k + 1);
    }
  }
}
