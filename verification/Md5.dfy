/** The streaming MD5 of the controller library: a context that is updated piece by piece. */
module Md5 {
  import opened Bytes
  import S = Md5Spec

  // ----- The basic functions, rewritten to save an operation -----

  function F(x: bv32, y: bv32, z: bv32): bv32 { z ^ (x & (y ^ z)) }

  function G(x: bv32, y: bv32, z: bv32): bv32 { y ^ (z & (x ^ y)) }

  function H(x: bv32, y: bv32, z: bv32): bv32 { (x ^ y) ^ z }

  function H2(x: bv32, y: bv32, z: bv32): bv32 { x ^ (y ^ z) }

  function I(x: bv32, y: bv32, z: bv32): bv32 { y ^ (x | !z) }

  // They are the functions of section 3.4 of RFC 1321.

  lemma BitsOfF(x: bv32, y: bv32, z: bv32)
    ensures z ^ (x & (y ^ z)) == (x & y) | (!x & z)
  {
  }

  lemma BitsOfG(x: bv32, y: bv32, z: bv32)
    ensures y ^ (z & (x ^ y)) == (x & z) | (y & !z)
  {
  }

  lemma BitsOfH2(x: bv32, y: bv32, z: bv32)
    ensures x ^ (y ^ z) == x ^ y ^ z
  {
  }

  lemma SameF(x: bv32, y: bv32, z: bv32)
    ensures F(x, y, z) == S.F(x, y, z)
  {
    BitsOfF(x, y, z);
  }

  lemma SameG(x: bv32, y: bv32, z: bv32)
    ensures G(x, y, z) == S.G(x, y, z)
  {
    BitsOfG(x, y, z);
  }

  lemma SameH2(x: bv32, y: bv32, z: bv32)
    ensures H2(x, y, z) == S.H(x, y, z)
  {
    BitsOfH2(x, y, z);
  }

  lemma SameHI(x: bv32, y: bv32, z: bv32)
    ensures H(x, y, z) == S.H(x, y, z) && I(x, y, z) == S.I(x, y, z)
  {
  }

  /** Rotation to the left. */
  function Rotate(x: u32, s: nat): u32
    requires 0 < s < 32
  {
    (((x as bv32) << s) | (((x as bv32) & 0xffffffff) >> (32 - s))) as u32
  }

  lemma RotateSame(x: u32, s: nat)
    requires 0 < s < 32
    ensures Rotate(x, s) == S.RotateLeft(x, s)
  {
    NoMask(x as bv32);
  }

  /** The new value of `a`, where `f` is the value of the basic function. */
  function Step(f: u32, a: u32, b: u32, x: u32, t: u32, s: nat): u32
    requires 0 < s < 32
  {
    S.Plus(Rotate(S.Plus(a, S.Plus(S.Plus(f, x), t)), s), b)
  }

  /** A step is an operation of the specification, whatever the order of its sum. */
  lemma StepIsOperation(n: nat, f: u32, r: S.Regs, x: seq<u32>)
    requires |x| == 16 && f == S.RoundFunction(n, r.b, r.c, r.d)
    ensures S.Operation(n, r, x) ==
      S.Regs(r.d, Step(f, r.a, r.b, x[S.WordIndex(n)], S.T(n), S.Rotation(n)), r.b, r.c)
  {
    hide S.RoundFunction, S.T, S.Rotation, S.WordIndex, S.RotateLeft, Rotate, S.Plus;
    var w, t, s := x[S.WordIndex(n)], S.T(n), S.Rotation(n);
    var sum := S.Plus(S.Plus(S.Plus(r.a, f), w), t);
    SumOrder(r.a, f, w, t);
    RotateSame(sum, s);
    Commutes(r.b, S.RotateLeft(sum, s));
  }

  /** A basic function on words. */
  function On(f: (bv32, bv32, bv32) -> bv32, x: u32, y: u32, z: u32): u32 {
    f(x as bv32, y as bv32, z as bv32) as u32
  }

  /** The basic function that step `n` uses, on words. */
  function Basic(n: nat, x: u32, y: u32, z: u32): u32 {
    if n < 16 then On(F, x, y, z) else if n < 32 then On(G, x, y, z)
    else if n < 48 then (if n % 2 == 0 then On(H, x, y, z) else On(H2, x, y, z))
    else On(I, x, y, z)
  }

  /** Four steps, on each register in turn, are four operations of the specification, after which
      the registers are in the first order again. */
  lemma FourSteps(n: nat, r: S.Regs, x: seq<u32>, a: u32, b: u32, c: u32, d: u32)
    requires |x| == 16 && S.Regs(a, b, c, d) == S.Operations(n, r, x)
    ensures
      var a' := Step(Basic(n, b, c, d), a, b, x[S.WordIndex(n)], S.T(n), S.Rotation(n));
      var d' := Step(Basic(n + 1, a', b, c), d, a', x[S.WordIndex(n + 1)], S.T(n + 1), S.Rotation(n + 1));
      var c' := Step(Basic(n + 2, d', a', b), c, d', x[S.WordIndex(n + 2)], S.T(n + 2), S.Rotation(n + 2));
      var b' := Step(Basic(n + 3, c', d', a'), b, c', x[S.WordIndex(n + 3)], S.T(n + 3), S.Rotation(n + 3));
      S.Operations(n + 4, r, x) == S.Regs(a', b', c', d')
  {
    hide Step, S.Operation, S.T, S.Rotation, S.WordIndex, Basic, S.RoundFunction;
    OneStep(n, r, x, S.Regs(a, b, c, d));
    OneStep(n + 1, r, x, S.Operations(n + 1, r, x));
    OneStep(n + 2, r, x, S.Operations(n + 2, r, x));
    OneStep(n + 3, r, x, S.Operations(n + 3, r, x));
  }

  lemma SameBasic(n: nat, x: u32, y: u32, z: u32)
    ensures Basic(n, x, y, z) == S.RoundFunction(n, x, y, z)
  {
    hide F, G, H, H2, I, S.F, S.G, S.H, S.I;
    var u, v, w := x as bv32, y as bv32, z as bv32;
    if n < 16 {
      SameF(u, v, w);
    } else if n < 32 {
      SameG(u, v, w);
    } else if n < 48 && n % 2 == 1 {
      SameH2(u, v, w);
    } else {
      SameHI(u, v, w);
    }
  }

  lemma OneStep(n: nat, r: S.Regs, x: seq<u32>, t: S.Regs)
    requires |x| == 16 && t == S.Operations(n, r, x)
    ensures S.Operations(n + 1, r, x) ==
      S.Regs(t.d, Step(Basic(n, t.b, t.c, t.d), t.a, t.b, x[S.WordIndex(n)], S.T(n), S.Rotation(n)), t.b, t.c)
  {
    hide Step, S.Operation, S.T, S.Rotation, S.WordIndex, Basic, S.RoundFunction;
    SameBasic(n, t.b, t.c, t.d);
    StepIsOperation(n, Basic(n, t.b, t.c, t.d), t, x);
  }

  lemma SumOrder(a: u32, f: u32, x: u32, t: u32)
    ensures S.Plus(a, S.Plus(S.Plus(f, x), t)) == S.Plus(S.Plus(S.Plus(a, f), x), t)
  {
    hide S.Plus;
    Associates(a, S.Plus(f, x), t);
    Associates(a, f, x);
  }

  lemma Associates(x: u32, y: u32, z: u32)
    ensures S.Plus(x, S.Plus(y, z)) == S.Plus(S.Plus(x, y), z)
  {
    Reduced(x + y, z);
    Reduced(y + z, x);
  }

  lemma Reduced(p: nat, q: nat)
    ensures (p % 0x1_0000_0000 + q) % 0x1_0000_0000 == (p + q) % 0x1_0000_0000
  {
  }

  lemma NoMask(x: bv32)
    ensures x & 0xffffffff == x
  {
  }

  lemma Commutes(x: u32, y: u32)
    ensures S.Plus(x, y) == S.Plus(y, x)
  {
  }

  method Round1(ghost r: S.Regs, a0: u32, b0: u32, c0: u32, d0: u32, x: seq<u32>) returns (a: u32, b: u32, c: u32, d: u32)
    requires |x| == 16 && S.Regs(a0, b0, c0, d0) == S.Operations(0, r, x)
    ensures S.Regs(a, b, c, d) == S.Operations(16, r, x)
  {
    hide Step, On, S.Operations;
    a, b, c, d := a0, b0, c0, d0;
    FourSteps(0, r, x, a, b, c, d);
    a := Step(On(F, b, c, d), a, b, x[0], 0xd76aa478, 7);
    d := Step(On(F, a, b, c), d, a, x[1], 0xe8c7b756, 12);
    c := Step(On(F, d, a, b), c, d, x[2], 0x242070db, 17);
    b := Step(On(F, c, d, a), b, c, x[3], 0xc1bdceee, 22);
    FourSteps(4, r, x, a, b, c, d);
    a := Step(On(F, b, c, d), a, b, x[4], 0xf57c0faf, 7);
    d := Step(On(F, a, b, c), d, a, x[5], 0x4787c62a, 12);
    c := Step(On(F, d, a, b), c, d, x[6], 0xa8304613, 17);
    b := Step(On(F, c, d, a), b, c, x[7], 0xfd469501, 22);
    FourSteps(8, r, x, a, b, c, d);
    a := Step(On(F, b, c, d), a, b, x[8], 0x698098d8, 7);
    d := Step(On(F, a, b, c), d, a, x[9], 0x8b44f7af, 12);
    c := Step(On(F, d, a, b), c, d, x[10], 0xffff5bb1, 17);
    b := Step(On(F, c, d, a), b, c, x[11], 0x895cd7be, 22);
    FourSteps(12, r, x, a, b, c, d);
    a := Step(On(F, b, c, d), a, b, x[12], 0x6b901122, 7);
    d := Step(On(F, a, b, c), d, a, x[13], 0xfd987193, 12);
    c := Step(On(F, d, a, b), c, d, x[14], 0xa679438e, 17);
    b := Step(On(F, c, d, a), b, c, x[15], 0x49b40821, 22);
  }

  method Round2(ghost r: S.Regs, a0: u32, b0: u32, c0: u32, d0: u32, x: seq<u32>) returns (a: u32, b: u32, c: u32, d: u32)
    requires |x| == 16 && S.Regs(a0, b0, c0, d0) == S.Operations(16, r, x)
    ensures S.Regs(a, b, c, d) == S.Operations(32, r, x)
  {
    hide Step, On, S.Operations;
    a, b, c, d := a0, b0, c0, d0;
    FourSteps(16, r, x, a, b, c, d);
    a := Step(On(G, b, c, d), a, b, x[1], 0xf61e2562, 5);
    d := Step(On(G, a, b, c), d, a, x[6], 0xc040b340, 9);
    c := Step(On(G, d, a, b), c, d, x[11], 0x265e5a51, 14);
    b := Step(On(G, c, d, a), b, c, x[0], 0xe9b6c7aa, 20);
    FourSteps(20, r, x, a, b, c, d);
    a := Step(On(G, b, c, d), a, b, x[5], 0xd62f105d, 5);
    d := Step(On(G, a, b, c), d, a, x[10], 0x02441453, 9);
    c := Step(On(G, d, a, b), c, d, x[15], 0xd8a1e681, 14);
    b := Step(On(G, c, d, a), b, c, x[4], 0xe7d3fbc8, 20);
    FourSteps(24, r, x, a, b, c, d);
    a := Step(On(G, b, c, d), a, b, x[9], 0x21e1cde6, 5);
    d := Step(On(G, a, b, c), d, a, x[14], 0xc33707d6, 9);
    c := Step(On(G, d, a, b), c, d, x[3], 0xf4d50d87, 14);
    b := Step(On(G, c, d, a), b, c, x[8], 0x455a14ed, 20);
    FourSteps(28, r, x, a, b, c, d);
    a := Step(On(G, b, c, d), a, b, x[13], 0xa9e3e905, 5);
    d := Step(On(G, a, b, c), d, a, x[2], 0xfcefa3f8, 9);
    c := Step(On(G, d, a, b), c, d, x[7], 0x676f02d9, 14);
    b := Step(On(G, c, d, a), b, c, x[12], 0x8d2a4c8a, 20);
  }

  method Round3(ghost r: S.Regs, a0: u32, b0: u32, c0: u32, d0: u32, x: seq<u32>) returns (a: u32, b: u32, c: u32, d: u32)
    requires |x| == 16 && S.Regs(a0, b0, c0, d0) == S.Operations(32, r, x)
    ensures S.Regs(a, b, c, d) == S.Operations(48, r, x)
  {
    hide Step, On, S.Operations;
    a, b, c, d := a0, b0, c0, d0;
    FourSteps(32, r, x, a, b, c, d);
    a := Step(On(H, b, c, d), a, b, x[5], 0xfffa3942, 4);
    d := Step(On(H2, a, b, c), d, a, x[8], 0x8771f681, 11);
    c := Step(On(H, d, a, b), c, d, x[11], 0x6d9d6122, 16);
    b := Step(On(H2, c, d, a), b, c, x[14], 0xfde5380c, 23);
    FourSteps(36, r, x, a, b, c, d);
    a := Step(On(H, b, c, d), a, b, x[1], 0xa4beea44, 4);
    d := Step(On(H2, a, b, c), d, a, x[4], 0x4bdecfa9, 11);
    c := Step(On(H, d, a, b), c, d, x[7], 0xf6bb4b60, 16);
    b := Step(On(H2, c, d, a), b, c, x[10], 0xbebfbc70, 23);
    FourSteps(40, r, x, a, b, c, d);
    a := Step(On(H, b, c, d), a, b, x[13], 0x289b7ec6, 4);
    d := Step(On(H2, a, b, c), d, a, x[0], 0xeaa127fa, 11);
    c := Step(On(H, d, a, b), c, d, x[3], 0xd4ef3085, 16);
    b := Step(On(H2, c, d, a), b, c, x[6], 0x04881d05, 23);
    FourSteps(44, r, x, a, b, c, d);
    a := Step(On(H, b, c, d), a, b, x[9], 0xd9d4d039, 4);
    d := Step(On(H2, a, b, c), d, a, x[12], 0xe6db99e5, 11);
    c := Step(On(H, d, a, b), c, d, x[15], 0x1fa27cf8, 16);
    b := Step(On(H2, c, d, a), b, c, x[2], 0xc4ac5665, 23);
  }

  method Round4(ghost r: S.Regs, a0: u32, b0: u32, c0: u32, d0: u32, x: seq<u32>) returns (a: u32, b: u32, c: u32, d: u32)
    requires |x| == 16 && S.Regs(a0, b0, c0, d0) == S.Operations(48, r, x)
    ensures S.Regs(a, b, c, d) == S.Operations(64, r, x)
  {
    hide Step, On, S.Operations;
    a, b, c, d := a0, b0, c0, d0;
    FourSteps(48, r, x, a, b, c, d);
    a := Step(On(I, b, c, d), a, b, x[0], 0xf4292244, 6);
    d := Step(On(I, a, b, c), d, a, x[7], 0x432aff97, 10);
    c := Step(On(I, d, a, b), c, d, x[14], 0xab9423a7, 15);
    b := Step(On(I, c, d, a), b, c, x[5], 0xfc93a039, 21);
    FourSteps(52, r, x, a, b, c, d);
    a := Step(On(I, b, c, d), a, b, x[12], 0x655b59c3, 6);
    d := Step(On(I, a, b, c), d, a, x[3], 0x8f0ccc92, 10);
    c := Step(On(I, d, a, b), c, d, x[10], 0xffeff47d, 15);
    b := Step(On(I, c, d, a), b, c, x[1], 0x85845dd1, 21);
    FourSteps(56, r, x, a, b, c, d);
    a := Step(On(I, b, c, d), a, b, x[8], 0x6fa87e4f, 6);
    d := Step(On(I, a, b, c), d, a, x[15], 0xfe2ce6e0, 10);
    c := Step(On(I, d, a, b), c, d, x[6], 0xa3014314, 15);
    b := Step(On(I, c, d, a), b, c, x[13], 0x4e0811a1, 21);
    FourSteps(60, r, x, a, b, c, d);
    a := Step(On(I, b, c, d), a, b, x[4], 0xf7537e82, 6);
    d := Step(On(I, a, b, c), d, a, x[11], 0xbd3af235, 10);
    c := Step(On(I, d, a, b), c, d, x[2], 0x2ad7d2bb, 15);
    b := Step(On(I, c, d, a), b, c, x[9], 0xeb86d391, 21);
  }

  /** One block: the four rounds, then the addition of the registers that there were. */
  method OneBlock(a0: u32, b0: u32, c0: u32, d0: u32, block: seq<byte>) returns (a: u32, b: u32, c: u32, d: u32)
    requires |block| == 64
    ensures S.Regs(a, b, c, d) == S.Block(S.Regs(a0, b0, c0, d0), block)
  {
    hide S.Words;
    ghost var r := S.Regs(a0, b0, c0, d0);
    var x := S.Words(block);
    a, b, c, d := Round1(r, a0, b0, c0, d0, x);
    a, b, c, d := Round2(r, a, b, c, d, x);
    a, b, c, d := Round3(r, a, b, c, d, x);
    a, b, c, d := Round4(r, a, b, c, d, x);
    a := S.Plus(a, a0);
    b := S.Plus(b, b0);
    c := S.Plus(c, c0);
    d := S.Plus(d, d0);
  }

  // ----- Counting modulo powers of two -----

  /** The two length words hold the length modulo 2 to the 61, the low one 29 bits of it. */
  predicate Counts(lo: nat, hi: nat, len: nat) {
    lo < 0x2000_0000 && hi < 0x1_0000_0000 && lo + 0x2000_0000 * hi == len % 0x2000_0000_0000_0000
  }

  /** The low length word after `size` more bytes. */
  function AddLo(lo: nat, size: nat): u32 {
    (lo + size) % 0x2000_0000
  }

  /** The high length word: the carry of the low one, and the size without its 29 low bits. */
  function AddHi(lo: nat, hi: nat, size: nat): u32 {
    var carried := if AddLo(lo, size) < lo then (hi + 1) % 0x1_0000_0000 else hi;
    (carried + size / 0x2000_0000) % 0x1_0000_0000
  }

  lemma CountsAdd(lo: nat, hi: nat, len: nat, size: nat)
    requires Counts(lo, hi, len)
    ensures Counts(AddLo(lo, size), AddHi(lo, hi, size), len + size)
  {
    var q, r := size / 0x2000_0000, size % 0x2000_0000;
    var carry := if lo + r >= 0x2000_0000 then 1 else 0;
    var lo' := (lo + size) % 0x2000_0000;
    assert lo' == lo + r - 0x2000_0000 * carry by { SplitMod(lo + r, q); }
    assert carry == 1 <==> lo' < lo;
    var hi1 := (hi + carry) % 0x1_0000_0000;
    var hi' := (hi1 + q) % 0x1_0000_0000;
    var turns := (hi + carry + q) / 0x1_0000_0000;
    assert hi' == (hi + carry + q) % 0x1_0000_0000 by { Reduced(hi + carry, q); }
    assert lo' + 0x2000_0000 * hi' + 0x2000_0000_0000_0000 * turns == lo + 0x2000_0000 * hi + size;
    var laps := len / 0x2000_0000_0000_0000;
    UniqueMod(len + size, lo' + 0x2000_0000 * hi', laps + turns);
  }

  lemma SplitMod(r: nat, q: nat)
    requires r < 0x4000_0000
    ensures (r + 0x2000_0000 * q) % 0x2000_0000 == if r >= 0x2000_0000 then r - 0x2000_0000 else r
  {
  }

  lemma UniqueMod(n: nat, r: nat, q: nat)
    requires n == r + 0x2000_0000_0000_0000 * q && r < 0x2000_0000_0000_0000
    ensures n % 0x2000_0000_0000_0000 == r
  {
  }

  lemma CountsPlace(lo: nat, hi: nat, len: nat)
    requires Counts(lo, hi, len)
    ensures lo % 64 == len % 64
    ensures 8 * lo + 0x1_0000_0000 * hi == 8 * len % 0x1_0000_0000_0000_0000
  {
    var laps := len / 0x2000_0000_0000_0000;
    SameMod64(len, lo, 0x80_0000 * hi + 0x80_0000_0000_0000 * laps);
    UniqueMod64Bits(8 * len, 8 * lo + 0x1_0000_0000 * hi, laps);
  }

  lemma SameMod64(n: nat, r: nat, q: nat)
    requires n == r + 64 * q
    ensures n % 64 == r % 64
  {
  }

  lemma UniqueMod64Bits(n: nat, r: nat, q: nat)
    requires n == r + 0x1_0000_0000_0000_0000 * q && r < 0x1_0000_0000_0000_0000
    ensures n % 0x1_0000_0000_0000_0000 == r
  {
  }

  lemma {:induction false} LittleEndianSplit(x: nat, y: nat, n: nat, k: nat)
    requires x < Pow256(n)
    ensures LittleEndian(x + Pow256(n) * y, n + k) == LittleEndian(x, n) + LittleEndian(y, k)
  {
    if n > 0 {
      var p := Pow256(n - 1) * y;
      assert Pow256(n) * y == 256 * p;
      assert (x + 256 * p) % 256 == x % 256 && (x + 256 * p) / 256 == x / 256 + p;
      LittleEndianSplit(x / 256, y, n - 1, k);
    }
  }

  // ----- Splitting a message into blocks -----

  /** The registers after the whole blocks of `m`, and the bytes that follow them. */
  ghost predicate Taken(m: seq<byte>, r: S.Regs, left: seq<byte>) {
    var whole := |m| - |m| % 64;
    r == S.Blocks(S.IV, m[..whole]) && left == m[whole..]
  }

  lemma ModBelow(n: nat, k: nat)
    requires n % 64 + k < 64
    ensures (n + k) % 64 == n % 64 + k
  {
  }

  lemma WholeBlocks(n: nat)
    ensures n - n % 64 >= 0 && (n - n % 64) % 64 == 0 && (n >= 64 ==> n - n % 64 >= 64)
  {
  }

  lemma TakenNothing()
    ensures Taken([], S.IV, [])
  {
  }

  /** Bytes that do not fill a block. */
  lemma TakeMore(m: seq<byte>, r: S.Regs, left: seq<byte>, data: seq<byte>)
    requires Taken(m, r, left) && |left| + |data| < 64
    ensures |m + data| % 64 == |left| + |data| && Taken(m + data, r, left + data)
  {
    hide S.Blocks;
    var whole := |m| - |m| % 64;
    ModBelow(|m|, |data|);
    assert (m + data)[..whole] == m[..whole];
    assert (m + data)[whole..] == m[whole..] + data;
  }

  /** Bytes that fill a block exactly. */
  lemma TakeBlock(m: seq<byte>, r: S.Regs, left: seq<byte>, data: seq<byte>)
    requires Taken(m, r, left) && |left| + |data| == 64
    ensures |m + data| % 64 == 0 && Taken(m + data, S.Blocks(r, left + data), [])
  {
    hide S.Blocks;
    var whole := |m| - |m| % 64;
    S.BlocksAppend(S.IV, m[..whole], left + data);
    assert m + data == m[..whole] + (left + data);
    assert (m + data)[..|m + data|] == m + data;
  }

  /** Whole blocks. */
  lemma TakeBlocks(m: seq<byte>, r: S.Regs, data: seq<byte>)
    requires Taken(m, r, []) && |data| % 64 == 0
    ensures |m + data| % 64 == 0 && Taken(m + data, S.Blocks(r, data), [])
  {
    hide S.Blocks;
    S.BlocksAppend(S.IV, m, data);
    assert m[..|m|] == m && (m + data)[..|m + data|] == m + data;
  }

  // ----- The context -----

  class Context {
    var lo: u32
    var hi: u32
    var a: u32
    var b: u32
    var c: u32
    var d: u32
    const buffer: array<byte>

    ghost function Regs(): S.Regs
      reads `a, `b, `c, `d
    {
      S.Regs(a, b, c, d)
    }

    /** The context has taken in exactly the message `m`: its length modulo 2 to the 61, its whole
        blocks in the registers, and the rest at the start of the buffer. */
    ghost predicate Holds(m: seq<byte>)
      reads this, buffer
    {
      && buffer.Length == 64
      && Counts(lo, hi, |m|)
      && Taken(m, Regs(), buffer[..|m| % 64])
    }

    constructor ()
      ensures buffer.Length == 64 && fresh(buffer)
    {
      buffer := new byte[64](_ => 0);
    }

    /** Starts a new message. */
    method Init()
      requires buffer.Length == 64
      modifies this
      ensures Holds([])
    {
      hide Taken;
      a, b, c, d := 0x67452301, 0xefcdab89, 0x98badcfe, 0x10325476;
      lo, hi := 0, 0;
      TakenNothing();
      assert buffer[..0] == [];
    }

    /** Processes one or more whole blocks. */
    method Body(data: seq<byte>)
      requires |data| > 0 && |data| % 64 == 0
      modifies `a, `b, `c, `d
      ensures Regs() == S.Blocks(old(Regs()), data)
    {
      hide S.Block, S.Words, S.Plus, S.Operations;
      var ptr, size := data, |data|;
      var ra, rb, rc, rd := a, b, c, d;
      ghost var r0 := Regs();
      while true
        invariant size == |ptr| > 0 && size % 64 == 0
        invariant S.Blocks(r0, data) == S.Blocks(S.Regs(ra, rb, rc, rd), ptr)
        decreases size
      {
        ghost var before := S.Regs(ra, rb, rc, rd);
        ra, rb, rc, rd := OneBlock(ra, rb, rc, rd, ptr[..64]);
        assert S.Blocks(before, ptr) == S.Blocks(S.Block(before, ptr[..64]), ptr[64..]);
        ptr := ptr[64..];
        size := size - 64;
        if size == 0 {
          break;
        }
      }
      a, b, c, d := ra, rb, rc, rd;
    }

    /** Fills the buffer up and processes it. */
    method FillBlock(used: nat, data: seq<byte>, ghost m: seq<byte>)
      requires buffer.Length == 64 && used + |data| == 64 && Taken(m, Regs(), buffer[..used])
      modifies `a, `b, `c, `d, buffer
      ensures |m + data| % 64 == 0 && Taken(m + data, Regs(), [])
    {
      hide S.Blocks, Taken;
      TakeBlock(m, Regs(), buffer[..used], data);
      ghost var left := buffer[..used];
      Fill(used, data);
      assert buffer[..] == left + data;
      Body(buffer[..]);
    }

    /** Keeps bytes that do not fill a block. */
    method Keep(used: nat, data: seq<byte>, ghost m: seq<byte>)
      requires buffer.Length == 64 && used + |data| < 64 && Taken(m, Regs(), buffer[..used])
      modifies buffer
      ensures |m + data| % 64 == used + |data| && Taken(m + data, Regs(), buffer[..used + |data|])
    {
      hide S.Blocks, Taken;
      TakeMore(m, Regs(), buffer[..used], data);
      ghost var left := buffer[..used];
      Fill(used, data);
      assert buffer[..used + |data|] == left + data;
    }

    /** Takes in more of the message. */
    method Update(data: seq<byte>, ghost m: seq<byte>)
      requires Holds(m)
      modifies this, buffer
      ensures Holds(m + data)
    {
      hide S.Blocks, Counts, Taken, AddLo, AddHi;
      var savedLo := lo;
      CountsAdd(lo, hi, |m|, |data|);
      CountsPlace(lo, hi, |m|);
      UpdateCounts(|data|);
      var used := savedLo % 64;
      var rest, size := data, |data|;
      ghost var taken := m;
      if used != 0 {
        var available := 64 - used;
        if size < available {
          Keep(used, data, m);
          return;
        }
        FillBlock(used, data[..available], m);
        taken := m + data[..available];
        rest, size := data[available..], size - available;
        assert m + data == taken + rest;
      }
      assert Taken(taken, Regs(), []) && taken + rest == m + data;
      if size >= 64 {
        var whole := size - size % 64;
        WholeBlocks(size);
        TakeBlocks(taken, Regs(), rest[..whole]);
        Body(rest[..whole]);
        assert taken + rest == (taken + rest[..whole]) + rest[whole..];
        taken := taken + rest[..whole];
        rest, size := rest[whole..], size % 64;
      }
      assert buffer[..0] == [];
      Keep(0, rest, taken);
    }

    /** Adds to the two length words. */
    method UpdateCounts(size: nat)
      modifies `lo, `hi
      ensures lo == AddLo(old(lo), size) && hi == AddHi(old(lo), old(hi), size)
    {
      var savedLo := lo;
      lo := (savedLo + size) % 0x2000_0000;
      if lo < savedLo {
        hi := (hi + 1) % 0x1_0000_0000;
      }
      hi := (hi + size / 0x2000_0000) % 0x1_0000_0000;
    }

    /** Copies bytes into the buffer. */
    method Fill(at: nat, data: seq<byte>)
      requires buffer.Length == 64 && at + |data| <= 64
      modifies buffer
      ensures buffer[..] == old(buffer[..at]) + data + old(buffer[at + |data|..])
    {
      forall i | 0 <= i < |data| {
        buffer[at + i] := data[i];
      }
    }

    /** Ends the message and returns its digest; the context is wiped. */
    method Final(ghost m: seq<byte>) returns (result: seq<byte>)
      requires Holds(m)
      modifies this, buffer
      ensures result == S.Digest(m)
      ensures buffer[..] == S.Zeros(64) && lo == hi == a == b == c == d == 0
    {
      hide S.Blocks, S.Zeros, LittleEndian, Taken, S.Padding, Counts;
      FinalBlocks(m);
      TakenAll(m + S.Padding(|m|), Regs());
      result := S.Output(S.Regs(a, b, c, d));
      Fill(0, S.Zeros(64));
      lo, hi, a, b, c, d := 0, 0, 0, 0, 0, 0;
    }

    /** Processes the padding, in one block or in two. */
    method FinalBlocks(ghost m: seq<byte>)
      requires Holds(m)
      modifies this, buffer
      ensures |m + S.Padding(|m|)| % 64 == 0 && Taken(m + S.Padding(|m|), Regs(), [])
    {
      hide S.Blocks, S.Zeros, LittleEndian, Taken, S.Padding, Counts;
      CountsPlace(lo, hi, |m|);
      CountsBound(lo, hi, |m|);
      PaddingIs(|m|, lo, hi);
      var used := lo % 64;
      var available := 64 - (used + 1);
      if available < 8 {
        FillBlock(used, [0x80] + S.Zeros(available), m);
        lo := lo * 8;
        assert buffer[..0] == [];
        ghost var first := [0x80] + S.Zeros(63 - |m| % 64);
        FillBlock(0, [] + S.Zeros(56) + (LittleEndian(lo, 4) + LittleEndian(hi, 4)), m + first);
        assert m + S.Padding(|m|) == (m + first) + ([] + S.Zeros(56) + (LittleEndian(lo, 4) + LittleEndian(hi, 4)));
      } else {
        lo := lo * 8;
        FillBlock(used, [0x80] + S.Zeros(available - 8) + (LittleEndian(lo, 4) + LittleEndian(hi, 4)), m);
      }
    }
  }

  lemma CountsBound(lo: nat, hi: nat, len: nat)
    requires Counts(lo, hi, len)
    ensures lo < 0x2000_0000 && hi < 0x1_0000_0000
  {
  }

  lemma TakenAll(m: seq<byte>, r: S.Regs)
    requires |m| % 64 == 0 && Taken(m, r, [])
    ensures r == S.Blocks(S.IV, m)
  {
    assert m[..|m|] == m;
  }

  /** The padding, in one block or in two, with the length words. */
  lemma PaddingIs(len: nat, lo: nat, hi: nat)
    requires Counts(lo, hi, len)
    ensures var n := len % 64;
      var end := LittleEndian(8 * lo, 4) + LittleEndian(hi, 4);
      && (n < 56 ==> S.Padding(len) == [0x80] + S.Zeros(55 - n) + end)
      && (n >= 56 ==> S.Padding(len) == ([0x80] + S.Zeros(63 - n)) + ([] + S.Zeros(56) + end))
  {
    hide LittleEndian;
    var n := len % 64;
    CountsPlace(lo, hi, len);
    assert Pow256(4) == 0x1_0000_0000;
    LittleEndianSplit(8 * lo, hi, 4, 4);
    if n >= 56 {
      assert S.Zeros(119 - n) == S.Zeros(63 - n) + S.Zeros(56);
    }
  }

  // ----- The digest of a file -----

  /** The result of a read: the bytes, or nothing if it failed. */
  type Read = Option<seq<byte>>

  /** The bytes of the reads up to the end of the file, if no read fails before. The end of the file
      is an empty read, or the end of the list. */
  function FileBytes(results: seq<Read>): (r: Option<seq<byte>>)
  {
    if results == [] then Some([])
    else match results[0]
      case None => None
      case Some(chunk) =>
        if chunk == [] then Some([])
        else match FileBytes(results[1..])
          case None => None
          case Some(rest) => Some(chunk + rest)
  }

  /** Bytes in front of those of a file. */
  function Joined(m: seq<byte>, rest: Read): Read {
    match rest case None => None case Some(r) => Some(m + r)
  }

  lemma FileFrom(results: seq<Read>, i: nat, m: seq<byte>)
    requires i <= |results|
    ensures i == 0 ==> FileBytes(results) == Joined([], FileBytes(results[i..]))
    ensures var f := Joined(m, FileBytes(results[i..]));
      if i == |results| || results[i] == Some([]) then f == Some(m)
      else if results[i] == None then f == None
      else f == Joined(m + results[i].value, FileBytes(results[i + 1..]))
  {
    if i == 0 {
      assert results[0..] == results;
      assert FileBytes(results).Some? ==> [] + FileBytes(results).value == FileBytes(results).value;
    }
    assert m + [] == m;
    if i < |results| && results[i].Some? {
      var chunk, rest := results[i].value, FileBytes(results[i + 1..]);
      assert results[i..][1..] == results[i + 1..];
      if rest.Some? {
        assert m + (chunk + rest.value) == (m + chunk) + rest.value;
      }
    }
  }

  /** The digest of a file read in chunks of any sizes is that of its bytes. */
  method Compute(results: seq<Read>) returns (digest: Read)
    ensures digest == match FileBytes(results) case None => None case Some(m) => Some(S.Digest(m))
  {
    hide S.Digest, FileBytes, Joined, Context.Holds;
    var ctx := new Context();
    ctx.Init();
    ghost var m: seq<byte> := [];
    var i := 0;
    FileFrom(results, 0, m);
    while i < |results| && results[i] != Some([])
      invariant i <= |results| && ctx.Holds(m) && fresh(ctx) && fresh(ctx.buffer)
      invariant FileBytes(results) == Joined(m, FileBytes(results[i..]))
    {
      FileFrom(results, i, m);
      if results[i] == None {
        return None;
      }
      ctx.Update(results[i].value, m);
      m := m + results[i].value;
      i := i + 1;
    }
    FileFrom(results, i, m);
    var d := ctx.Final(m);
    digest := Some(d);
  }
}
