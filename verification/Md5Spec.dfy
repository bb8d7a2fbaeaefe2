/** The MD5 message digest as RFC 1321 defines it: padding (sections 3.1 and 3.2), registers
    (section 3.3), the 64 operations on a block (section 3.4) and the output (section 3.5). */
module Md5Spec {
  import opened Bytes

  /** The four registers, in the order in which the next operation takes them. */
  datatype Regs = Regs(a: u32, b: u32, c: u32, d: u32)

  const IV := Regs(0x67452301, 0xefcdab89, 0x98badcfe, 0x10325476)

  // ----- The functions of section 3.4 -----

  function F(x: bv32, y: bv32, z: bv32): bv32 { (x & y) | (!x & z) }

  function G(x: bv32, y: bv32, z: bv32): bv32 { (x & z) | (y & !z) }

  function H(x: bv32, y: bv32, z: bv32): bv32 { x ^ y ^ z }

  function I(x: bv32, y: bv32, z: bv32): bv32 { y ^ (x | !z) }

  /** The function of the round of operation `n`. */
  function RoundFunction(n: nat, x: u32, y: u32, z: u32): u32 {
    var (u, v, w) := (x as bv32, y as bv32, z as bv32);
    (if n < 16 then F(u, v, w) else if n < 32 then G(u, v, w) else if n < 48 then H(u, v, w) else I(u, v, w)) as u32
  }

  /** The word of the block that operation `n` uses. */
  function WordIndex(n: nat): (k: nat)
    ensures k < 16
  {
    if n < 16 then n else if n < 32 then (1 + 5 * n) % 16 else if n < 48 then (5 + 3 * n) % 16 else (7 * n) % 16
  }

  /** The rotation of operation `n`. */
  function Rotation(n: nat): (s: nat)
    ensures 4 <= s <= 23
  {
    var k := n % 4;
    if n < 16 then (if k == 0 then 7 else if k == 1 then 12 else if k == 2 then 17 else 22)
    else if n < 32 then (if k == 0 then 5 else if k == 1 then 9 else if k == 2 then 14 else 20)
    else if n < 48 then (if k == 0 then 4 else if k == 1 then 11 else if k == 2 then 16 else 23)
    else (if k == 0 then 6 else if k == 1 then 10 else if k == 2 then 15 else 21)
  }

  /** The constant of operation `n`: the integer part of 2 to the 32 times the absolute value of
      sin(n + 1). */
  function T(n: nat): u32 {
    if n < 16 then T1(n) else if n < 32 then T2(n - 16) else if n < 48 then T3(n - 32) else T4(n - 48)
  }

  function T1(n: nat): u32 {
    match n
    case 0 => 0xd76aa478 case 1 => 0xe8c7b756 case 2 => 0x242070db case 3 => 0xc1bdceee
    case 4 => 0xf57c0faf case 5 => 0x4787c62a case 6 => 0xa8304613 case 7 => 0xfd469501
    case 8 => 0x698098d8 case 9 => 0x8b44f7af case 10 => 0xffff5bb1 case 11 => 0x895cd7be
    case 12 => 0x6b901122 case 13 => 0xfd987193 case 14 => 0xa679438e case _ => 0x49b40821
  }

  function T2(n: nat): u32 {
    match n
    case 0 => 0xf61e2562 case 1 => 0xc040b340 case 2 => 0x265e5a51 case 3 => 0xe9b6c7aa
    case 4 => 0xd62f105d case 5 => 0x02441453 case 6 => 0xd8a1e681 case 7 => 0xe7d3fbc8
    case 8 => 0x21e1cde6 case 9 => 0xc33707d6 case 10 => 0xf4d50d87 case 11 => 0x455a14ed
    case 12 => 0xa9e3e905 case 13 => 0xfcefa3f8 case 14 => 0x676f02d9 case _ => 0x8d2a4c8a
  }

  function T3(n: nat): u32 {
    match n
    case 0 => 0xfffa3942 case 1 => 0x8771f681 case 2 => 0x6d9d6122 case 3 => 0xfde5380c
    case 4 => 0xa4beea44 case 5 => 0x4bdecfa9 case 6 => 0xf6bb4b60 case 7 => 0xbebfbc70
    case 8 => 0x289b7ec6 case 9 => 0xeaa127fa case 10 => 0xd4ef3085 case 11 => 0x04881d05
    case 12 => 0xd9d4d039 case 13 => 0xe6db99e5 case 14 => 0x1fa27cf8 case _ => 0xc4ac5665
  }

  function T4(n: nat): u32 {
    match n
    case 0 => 0xf4292244 case 1 => 0x432aff97 case 2 => 0xab9423a7 case 3 => 0xfc93a039
    case 4 => 0x655b59c3 case 5 => 0x8f0ccc92 case 6 => 0xffeff47d case 7 => 0x85845dd1
    case 8 => 0x6fa87e4f case 9 => 0xfe2ce6e0 case 10 => 0xa3014314 case 11 => 0x4e0811a1
    case 12 => 0xf7537e82 case 13 => 0xbd3af235 case 14 => 0x2ad7d2bb case _ => 0xeb86d391
  }

  function RotateLeft(x: u32, s: nat): u32
    requires s <= 32
  {
    (((x as bv32) << s) | ((x as bv32) >> (32 - s))) as u32
  }

  /** Addition of words, modulo 2 to the 32. */
  function Plus(x: u32, y: u32): u32 {
    (x + y) % 0x1_0000_0000
  }

  /** Operation `n` on the words `x` of a block: it changes the first register, and the next
      operation takes the registers turned by one place. */
  function Operation(n: nat, r: Regs, x: seq<u32>): Regs
    requires |x| == 16
  {
    var sum := Plus(Plus(Plus(r.a, RoundFunction(n, r.b, r.c, r.d)), x[WordIndex(n)]), T(n));
    Regs(r.d, Plus(r.b, RotateLeft(sum, Rotation(n))), r.b, r.c)
  }

  /** The registers after the first `n` operations. */
  function Operations(n: nat, r: Regs, x: seq<u32>): Regs
    requires |x| == 16
  {
    if n == 0 then r else Operation(n - 1, Operations(n - 1, r, x), x)
  }

  /** Word `i` of a block, low-order byte first. */
  function Word(block: seq<byte>, i: nat): u32
    requires |block| == 64 && i < 16
  {
    FromLittleEndianRoundTrip(block[4 * i..4 * i + 4]);
    assert Pow256(4) == 0x1_0000_0000;
    FromLittleEndian(block[4 * i..4 * i + 4])
  }

  function Words(block: seq<byte>): (x: seq<u32>)
    requires |block| == 64
    ensures |x| == 16
  {
    seq(16, i requires 0 <= i < 16 => Word(block, i))
  }

  /** One block: the 64 operations, then the addition of the registers that there were. */
  function Block(r: Regs, block: seq<byte>): Regs
    requires |block| == 64
  {
    var t := Operations(64, r, Words(block));
    Regs(Plus(t.a, r.a), Plus(t.b, r.b), Plus(t.c, r.c), Plus(t.d, r.d))
  }

  /** The whole blocks of `data`, one after the other. */
  function Blocks(r: Regs, data: seq<byte>): Regs
    decreases |data|
  {
    if |data| < 64 then r else Blocks(Block(r, data[..64]), data[64..])
  }

  /** Zero bytes. */
  function Zeros(n: nat): (r: seq<byte>)
    ensures |r| == n
  {
    seq(n, _ => 0)
  }

  lemma PaddingFills(len: nat)
    ensures (len + 9 + (119 - len % 64) % 64) % 64 == 0
  {
    var blocks, rest := len / 64, len % 64;
    var zeros := if rest <= 55 then 55 - rest else 119 - rest;
    assert (119 - rest) % 64 == zeros;
    assert len + 9 + zeros == 64 * (if rest <= 55 then blocks + 1 else blocks + 2);
  }

  /** A one bit, zero bits up to 8 bytes before the end of a block, and the length in bits modulo
      2 to the 64, low-order byte first. */
  function Padding(len: nat): (r: seq<byte>)
    ensures (len + |r|) % 64 == 0
  {
    PaddingFills(len);
    [0x80] + Zeros((119 - len % 64) % 64) + LittleEndian(8 * len % 0x1_0000_0000_0000_0000, 8)
  }

  function Output(r: Regs): (o: seq<byte>)
    ensures |o| == 16
  {
    LittleEndian(r.a, 4) + LittleEndian(r.b, 4) + LittleEndian(r.c, 4) + LittleEndian(r.d, 4)
  }

  /** The output begins with the low-order byte of register A and ends with the high-order byte of
      register D, as section 3.5 says. */
  lemma OutputRegisters(r: Regs)
    ensures FromLittleEndian(Output(r)[..4]) == r.a && FromLittleEndian(Output(r)[4..8]) == r.b
    ensures FromLittleEndian(Output(r)[8..12]) == r.c && FromLittleEndian(Output(r)[12..]) == r.d
  {
    hide LittleEndian, FromLittleEndian;
    assert Pow256(4) == 0x1_0000_0000;
    LittleEndianRoundTrip(r.a, 4);
    LittleEndianRoundTrip(r.b, 4);
    LittleEndianRoundTrip(r.c, 4);
    LittleEndianRoundTrip(r.d, 4);
    var o := Output(r);
    assert o[..4] == LittleEndian(r.a, 4) && o[4..8] == LittleEndian(r.b, 4);
    assert o[8..12] == LittleEndian(r.c, 4) && o[12..] == LittleEndian(r.d, 4);
  }

  /** The digest of a message. */
  function Digest(message: seq<byte>): (o: seq<byte>)
    ensures |o| == 16
  {
    Output(Blocks(IV, message + Padding(|message|)))
  }

  lemma {:induction false} BlocksAppend(r: Regs, a: seq<byte>, b: seq<byte>)
    requires |a| % 64 == 0
    ensures Blocks(r, a + b) == Blocks(Blocks(r, a), b)
    decreases |a|
  {
    hide Block;
    if a == [] {
      assert a + b == b;
    } else {
      assert (a + b)[..64] == a[..64] && (a + b)[64..] == a[64..] + b;
      BlocksAppend(Block(r, a[..64]), a[64..], b);
    }
  }
}
