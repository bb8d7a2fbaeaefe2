/** One of the digests that appendix A.5 of RFC 1321 gives, of a message of two blocks whose words are
    all different: the functions, words, rotations, constants, padding and output together. */
module Md5TestSuite {
  import opened Bytes
  import opened Md5Spec

  /** The letters, upper and lower case, and the digits. */
  const MESSAGE: seq<byte> := From(0x41, 26) + From(0x61, 26) + From(0x30, 10)

  /** So many characters, from one on. */
  function From(first: byte, count: nat): (r: seq<byte>)
    requires first as nat + count <= 0x100
    ensures |r| == count
  {
    seq(count, i requires 0 <= i < count => (first as nat + i) as byte)
  }

  // ----- The operations -----

  /** One operation on the known registers `a` to `d`: `f` is the value of its function, `sum` what is
      rotated and `turned` the rotated sum. */
  lemma Op(n: nat, r: Regs, x: seq<u32>, a: u32, b: u32, c: u32, d: u32, f: u32, sum: u32, turned: u32)
    requires |x| == 16 && Operations(n, r, x) == Regs(a, b, c, d)
    requires RoundFunction(n, b, c, d) == f && (a + f + x[WordIndex(n)] + T(n)) % 0x1_0000_0000 == sum
    requires RotateLeft(sum, Rotation(n)) == turned
    ensures Operations(n + 1, r, x) == Regs(d, (b + turned) % 0x1_0000_0000, b, c)
  {
    hide RoundFunction, T, Rotation, WordIndex, RotateLeft, Plus;
    assert Operations(n + 1, r, x) == Operation(n, Regs(a, b, c, d), x);
    SumOfFour(a, f, x[WordIndex(n)], T(n));
    PlusIs(b, turned);
  }

  lemma SumOfFour(a: u32, f: u32, w: u32, t: u32)
    ensures Plus(Plus(Plus(a, f), w), t) == (a + f + w + t) % 0x1_0000_0000
  {
  }

  lemma PlusIs(x: u32, y: u32)
    ensures Plus(x, y) == (x + y) % 0x1_0000_0000
  {
  }

  lemma NoOperations(r: Regs, x: seq<u32>)
    requires |x| == 16
    ensures Operations(0, r, x) == r
  {
  }

  // ----- Block 1 -----

  const START_1 := Regs(0x67452301, 0xefcdab89, 0x98badcfe, 0x10325476)
  const WORDS_1: seq<u32> := [
    0x44434241, 0x48474645, 0x4c4b4a49, 0x504f4e4d, 0x54535251, 0x58575655, 0x62615a59, 0x66656463,
    0x6a696867, 0x6e6d6c6b, 0x7271706f, 0x76757473, 0x7a797877, 0x33323130, 0x37363534, 0x00803938]

  lemma Functions1To16()
    ensures RoundFunction(0, 0xefcdab89, 0x98badcfe, 0x10325476) == 0x98badcfe
    ensures RoundFunction(1, 0xc6c10796, 0xefcdab89, 0x98badcfe) == 0xdefbdbe8
    ensures RoundFunction(2, 0x99a09999, 0xc6c10796, 0xefcdab89) == 0xe6cd2390
    ensures RoundFunction(3, 0x11067980, 0x99a09999, 0xc6c10796) == 0xd7c11f96
    ensures RoundFunction(4, 0x27bce07a, 0x11067980, 0x99a09999) == 0x99047981
    ensures RoundFunction(5, 0xf22e6c4e, 0x27bce07a, 0x11067980) == 0x232c71ca
    ensures RoundFunction(6, 0xb4ac9218, 0xf22e6c4e, 0x27bce07a) == 0xb33c606a
    ensures RoundFunction(7, 0xa95a2fc0, 0xb4ac9218, 0xf22e6c4e) == 0xf22c420e
    ensures RoundFunction(8, 0xa4799506, 0xa95a2fc0, 0xb4ac9218) == 0xb0dc0718
    ensures RoundFunction(9, 0x1eb3e7c1, 0xa4799506, 0xa95a2fc0) == 0xa5798d00
    ensures RoundFunction(10, 0xa6e70cfe, 0x1eb3e7c1, 0xa4799506) == 0x06bb95c0
    ensures RoundFunction(11, 0xca27520b, 0xa6e70cfe, 0x1eb3e7c1) == 0x96b7a5ca
    ensures RoundFunction(12, 0x8a7612ec, 0xca27520b, 0xa6e70cfe) == 0xaea71e1a
    ensures RoundFunction(13, 0x3cbdcd45, 0x8a7612ec, 0xca27520b) == 0xca36124e
    ensures RoundFunction(14, 0xb8dec763, 0x3cbdcd45, 0x8a7612ec) == 0x3abcd5cd
    ensures RoundFunction(15, 0xfa148c8a, 0xb8dec763, 0x3cbdcd45) == 0xbcbdc547
  {
    assert F(0xefcdab89, 0x98badcfe, 0x10325476) == 0x98badcfe;
    assert F(0xc6c10796, 0xefcdab89, 0x98badcfe) == 0xdefbdbe8;
    assert F(0x99a09999, 0xc6c10796, 0xefcdab89) == 0xe6cd2390;
  }

  lemma Rotations1To16()
    ensures RotateLeft(0x1bade6b8, 7) == 0xd6f35c0d
    ensures RotateLeft(0x203d2df9, 12) == 0xd2df9203
    ensures RotateLeft(0xeff3bbb2, 17) == 0x7765dfe7
    ensures RotateLeft(0xd99be85a, 22) == 0x16b666fa
    ensures RotateLeft(0xa994e317, 7) == 0xca718bd4
    ensures RotateLeft(0x5cac27e2, 12) == 0xc27e25ca
    ensures RotateLeft(0xced47a56, 17) == 0xf4ad9da8
    ensures RotateLeft(0x7d951bec, 22) == 0xfb1f6546
    ensures RotateLeft(0x76f474a5, 7) == 0x7a3a52bb
    ensures RotateLeft(0x53d88332, 12) == 0x8833253d
    ensures RotateLeft(0x228691a0, 17) == 0x2340450d
    ensures RotateLeft(0x3b038701, 22) == 0xc04ec0e1
    ensures RotateLeft(0xb3648f74, 7) == 0xb247ba59
    ensures RotateLeft(0xa1e7c20f, 12) == 0x7c20fa1e
    ensures RotateLeft(0xe293a09a, 17) == 0x4135c527
    ensures RotateLeft(0x9168198c, 22) == 0x63245a06
  {
    assert (((0x1bade6b8 as bv32) << 7) | ((0x1bade6b8 as bv32) >> 25)) as int == 0xd6f35c0d;
    assert (((0x203d2df9 as bv32) << 12) | ((0x203d2df9 as bv32) >> 20)) as int == 0xd2df9203;
    assert (((0xeff3bbb2 as bv32) << 17) | ((0xeff3bbb2 as bv32) >> 15)) as int == 0x7765dfe7;
    assert (((0xd99be85a as bv32) << 22) | ((0xd99be85a as bv32) >> 10)) as int == 0x16b666fa;
    assert (((0xa994e317 as bv32) << 7) | ((0xa994e317 as bv32) >> 25)) as int == 0xca718bd4;
    assert (((0x5cac27e2 as bv32) << 12) | ((0x5cac27e2 as bv32) >> 20)) as int == 0xc27e25ca;
    assert (((0xced47a56 as bv32) << 17) | ((0xced47a56 as bv32) >> 15)) as int == 0xf4ad9da8;
    assert (((0x7d951bec as bv32) << 22) | ((0x7d951bec as bv32) >> 10)) as int == 0xfb1f6546;
    assert (((0x76f474a5 as bv32) << 7) | ((0x76f474a5 as bv32) >> 25)) as int == 0x7a3a52bb;
    assert (((0x53d88332 as bv32) << 12) | ((0x53d88332 as bv32) >> 20)) as int == 0x8833253d;
    assert (((0x228691a0 as bv32) << 17) | ((0x228691a0 as bv32) >> 15)) as int == 0x2340450d;
    assert (((0x3b038701 as bv32) << 22) | ((0x3b038701 as bv32) >> 10)) as int == 0xc04ec0e1;
    assert (((0xb3648f74 as bv32) << 7) | ((0xb3648f74 as bv32) >> 25)) as int == 0xb247ba59;
    assert (((0xa1e7c20f as bv32) << 12) | ((0xa1e7c20f as bv32) >> 20)) as int == 0x7c20fa1e;
    assert (((0xe293a09a as bv32) << 17) | ((0xe293a09a as bv32) >> 15)) as int == 0x4135c527;
    assert (((0x9168198c as bv32) << 22) | ((0x9168198c as bv32) >> 10)) as int == 0x63245a06;
  }

  lemma Functions1To32()
    ensures RoundFunction(16, 0x5d38e690, 0xfa148c8a, 0xb8dec763) == 0x5a18ce88
    ensures RoundFunction(17, 0x04b9d52a, 0x5d38e690, 0xfa148c8a) == 0x0538e61a
    ensures RoundFunction(18, 0x783002eb, 0x04b9d52a, 0x5d38e690) == 0x58b113aa
    ensures RoundFunction(19, 0xd3ee3ed1, 0x783002eb, 0x04b9d52a) == 0x78a816c1
    ensures RoundFunction(20, 0x47ae7c81, 0xd3ee3ed1, 0x783002eb) == 0xc3ee3c91
    ensures RoundFunction(21, 0x2d7d8a3f, 0x47ae7c81, 0xd3ee3ed1) == 0x056c4a11
    ensures RoundFunction(22, 0xd1210823, 0x2d7d8a3f, 0x47ae7c81) == 0x69718a3f
    ensures RoundFunction(23, 0x4b534dc3, 0xd1210823, 0x2d7d8a3f) == 0xd9510803
    ensures RoundFunction(24, 0x75292030, 0x4b534dc3, 0xd1210823) == 0x5b7345e0
    ensures RoundFunction(25, 0x9d2a6e33, 0x75292030, 0x4b534dc3) == 0x3d2a6c33
    ensures RoundFunction(26, 0x0e8d2e44, 0x9d2a6e33, 0x75292030) == 0x8c0b6e03
    ensures RoundFunction(27, 0xd473b564, 0x0e8d2e44, 0x9d2a6e33) == 0x96a72464
    ensures RoundFunction(28, 0xf2ff6ea0, 0xd473b564, 0x0e8d2e44) == 0xd2ffbf20
    ensures RoundFunction(29, 0x9b085fa9, 0xf2ff6ea0, 0xd473b564) == 0xb28c5fa0
    ensures RoundFunction(30, 0x4400a9bd, 0x9b085fa9, 0xf2ff6ea0) == 0x490039a9
    ensures RoundFunction(31, 0x5993248f, 0x4400a9bd, 0x9b085fa9) == 0x5d00a49d
  {
  }

  lemma Rotations1To32()
    ensures RotateLeft(0xd53c0774, 5) == 0xa780ee9a
    ensures RotateLeft(0xe0b9bb16, 9) == 0x73762dc1
    ensures RotateLeft(0xef996ef8, 14) == 0x5bbe3be6
    ensures RotateLeft(0x03db073c, 20) == 0x73c03db0
    ensures RotateLeft(0xf72e786d, 5) == 0xe5cf0dbe
    ensures RotateLeft(0xf251d1be, 9) == 0xa3a37de4
    ensures RotateLeft(0x1681e8c9, 14) == 0x7a3245a0
    ensures RotateLeft(0x5d26d29d, 20) == 0x29d5d26d
    ensures RotateLeft(0x19400a70, 5) == 0x28014e03
    ensures RotateLeft(0x08b8b160, 9) == 0x7162c011
    ensures RotateLeft(0x1c83179a, 14) == 0xc5e68720
    ensures RotateLeft(0xbb93c1e8, 20) == 0x1e8bb93c
    ensures RotateLeft(0x4d404788, 5) == 0xa808f109
    ensures RotateLeft(0x0a547c25, 9) == 0xa8f84a14
    ensures RotateLeft(0xeb485649, 14) == 0x15927ad2
    ensures RotateLeft(0x57a3d83e, 20) == 0x83e57a3d
  {
    assert (((0xd53c0774 as bv32) << 5) | ((0xd53c0774 as bv32) >> 27)) as int == 0xa780ee9a;
    assert (((0xe0b9bb16 as bv32) << 9) | ((0xe0b9bb16 as bv32) >> 23)) as int == 0x73762dc1;
    assert (((0xef996ef8 as bv32) << 14) | ((0xef996ef8 as bv32) >> 18)) as int == 0x5bbe3be6;
    assert (((0x03db073c as bv32) << 20) | ((0x03db073c as bv32) >> 12)) as int == 0x73c03db0;
    assert (((0xf72e786d as bv32) << 5) | ((0xf72e786d as bv32) >> 27)) as int == 0xe5cf0dbe;
    assert (((0xf251d1be as bv32) << 9) | ((0xf251d1be as bv32) >> 23)) as int == 0xa3a37de4;
    assert (((0x1681e8c9 as bv32) << 14) | ((0x1681e8c9 as bv32) >> 18)) as int == 0x7a3245a0;
    assert (((0x5d26d29d as bv32) << 20) | ((0x5d26d29d as bv32) >> 12)) as int == 0x29d5d26d;
    assert (((0x19400a70 as bv32) << 5) | ((0x19400a70 as bv32) >> 27)) as int == 0x28014e03;
    assert (((0x08b8b160 as bv32) << 9) | ((0x08b8b160 as bv32) >> 23)) as int == 0x7162c011;
    assert (((0x1c83179a as bv32) << 14) | ((0x1c83179a as bv32) >> 18)) as int == 0xc5e68720;
    assert (((0xbb93c1e8 as bv32) << 20) | ((0xbb93c1e8 as bv32) >> 12)) as int == 0x1e8bb93c;
    assert (((0x4d404788 as bv32) << 5) | ((0x4d404788 as bv32) >> 27)) as int == 0xa808f109;
    assert (((0x0a547c25 as bv32) << 9) | ((0x0a547c25 as bv32) >> 23)) as int == 0xa8f84a14;
    assert (((0xeb485649 as bv32) << 14) | ((0xeb485649 as bv32) >> 18)) as int == 0x15927ad2;
    assert (((0x57a3d83e as bv32) << 20) | ((0x57a3d83e as bv32) >> 12)) as int == 0x83e57a3d;
  }

  lemma Functions1To48()
    ensures RoundFunction(32, 0xdd789ecc, 0x5993248f, 0x4400a9bd) == 0xc0eb13fe
    ensures RoundFunction(33, 0x21c8d2b7, 0xdd789ecc, 0x5993248f) == 0xa52368f4
    ensures RoundFunction(34, 0x1d55a18e, 0x21c8d2b7, 0xdd789ecc) == 0xe1e5edf5
    ensures RoundFunction(35, 0x056ec119, 0x1d55a18e, 0x21c8d2b7) == 0x39f3b220
    ensures RoundFunction(36, 0x1b9504f8, 0x056ec119, 0x1d55a18e) == 0x03ae646f
    ensures RoundFunction(37, 0x436b7fe9, 0x1b9504f8, 0x056ec119) == 0x5d90ba08
    ensures RoundFunction(38, 0x075800c1, 0x436b7fe9, 0x1b9504f8) == 0x5fa67bd0
    ensures RoundFunction(39, 0xf404c2f6, 0x075800c1, 0x436b7fe9) == 0xb037bdde
    ensures RoundFunction(40, 0xcf0341ed, 0xf404c2f6, 0x075800c1) == 0x3c5f83da
    ensures RoundFunction(41, 0x888e7d8a, 0xcf0341ed, 0xf404c2f6) == 0xb389fe91
    ensures RoundFunction(42, 0xbbdaecd8, 0x888e7d8a, 0xcf0341ed) == 0xfc57d0bf
    ensures RoundFunction(43, 0xce620273, 0xbbdaecd8, 0x888e7d8a) == 0xfd369321
    ensures RoundFunction(44, 0x047b9419, 0xce620273, 0xbbdaecd8) == 0x71c37ab2
    ensures RoundFunction(45, 0x2dbee21d, 0x047b9419, 0xce620273) == 0xe7a77477
    ensures RoundFunction(46, 0xe95c3a43, 0x2dbee21d, 0x047b9419) == 0xc0994c47
    ensures RoundFunction(47, 0xee46e961, 0xe95c3a43, 0x2dbee21d) == 0x2aa4313f
  {
  }

  lemma Rotations1To48()
    ensures RotateLeft(0xb445033e, 4) == 0x445033eb
    ensures RotateLeft(0xdaff7199, 11) == 0xfb8cced7
    ensures RotateLeft(0x1f8be819, 16) == 0xe8191f8b
    ensures RotateLeft(0x4c87be2c, 23) == 0x162643df
    ensures RotateLeft(0x127d67af, 4) == 0x27d67af1
    ensures RotateLeft(0x1b187d90, 11) == 0xc3ec80d8
    ensures RotateLeft(0xc235ecac, 16) == 0xecacc235
    ensures RotateLeft(0xfcfdefb5, 23) == 0xdafe7ef7
    ensures RotateLeft(0xdb98b3b9, 4) == 0xb98b3b9d
    ensures RotateLeft(0xe9c6698d, 11) == 0x334c6f4e
    ensures RotateLeft(0x159b1287, 16) == 0x1287159b
    ensures RotateLeft(0x33234c6c, 23) == 0x361991a6
    ensures RotateLeft(0x429434e0, 4) == 0x29434e04
    ensures RotateLeft(0x04d773ab, 11) == 0xbb9d5826
    ensures RotateLeft(0xaf1e04ea, 16) == 0x04eaaf1e
    ensures RotateLeft(0x40176606, 23) == 0x03200bb3
  {
    assert (((0xb445033e as bv32) << 4) | ((0xb445033e as bv32) >> 28)) as int == 0x445033eb;
    assert (((0xdaff7199 as bv32) << 11) | ((0xdaff7199 as bv32) >> 21)) as int == 0xfb8cced7;
    assert (((0x1f8be819 as bv32) << 16) | ((0x1f8be819 as bv32) >> 16)) as int == 0xe8191f8b;
    assert (((0x4c87be2c as bv32) << 23) | ((0x4c87be2c as bv32) >> 9)) as int == 0x162643df;
    assert (((0x127d67af as bv32) << 4) | ((0x127d67af as bv32) >> 28)) as int == 0x27d67af1;
    assert (((0x1b187d90 as bv32) << 11) | ((0x1b187d90 as bv32) >> 21)) as int == 0xc3ec80d8;
    assert (((0xc235ecac as bv32) << 16) | ((0xc235ecac as bv32) >> 16)) as int == 0xecacc235;
    assert (((0xfcfdefb5 as bv32) << 23) | ((0xfcfdefb5 as bv32) >> 9)) as int == 0xdafe7ef7;
    assert (((0xdb98b3b9 as bv32) << 4) | ((0xdb98b3b9 as bv32) >> 28)) as int == 0xb98b3b9d;
    assert (((0xe9c6698d as bv32) << 11) | ((0xe9c6698d as bv32) >> 21)) as int == 0x334c6f4e;
    assert (((0x159b1287 as bv32) << 16) | ((0x159b1287 as bv32) >> 16)) as int == 0x1287159b;
    assert (((0x33234c6c as bv32) << 23) | ((0x33234c6c as bv32) >> 9)) as int == 0x361991a6;
    assert (((0x429434e0 as bv32) << 4) | ((0x429434e0 as bv32) >> 28)) as int == 0x29434e04;
    assert (((0x04d773ab as bv32) << 11) | ((0x04d773ab as bv32) >> 21)) as int == 0xbb9d5826;
    assert (((0xaf1e04ea as bv32) << 16) | ((0xaf1e04ea as bv32) >> 16)) as int == 0x04eaaf1e;
    assert (((0x40176606 as bv32) << 23) | ((0x40176606 as bv32) >> 9)) as int == 0x03200bb3;
  }

  lemma Functions1To64()
    ensures RoundFunction(48, 0xf166f514, 0xee46e961, 0xe95c3a43) == 0x19a11cdd
    ensures RoundFunction(49, 0xe47fd4f3, 0xf166f514, 0xee46e961) == 0x049923eb
    ensures RoundFunction(50, 0xfb887751, 0xe47fd4f3, 0xf166f514) == 0x1be6ab08
    ensures RoundFunction(51, 0xf22aedcc, 0xfb887751, 0xe47fd4f3) == 0x0022989d
    ensures RoundFunction(52, 0x7a13bc5c, 0xf22aedcc, 0xfb887751) == 0x8c5d5132
    ensures RoundFunction(53, 0xa691d430, 0x7a13bc5c, 0xf22aedcc) == 0xd5c66a6f
    ensures RoundFunction(54, 0x528452f2, 0xa691d430, 0x7a13bc5c) == 0x717d87c3
    ensures RoundFunction(55, 0x3fc23df6, 0x528452f2, 0xa691d430) == 0x2d6a6d0d
    ensures RoundFunction(56, 0xefb0e72f, 0x3fc23df6, 0x528452f2) == 0xd039d2d9
    ensures RoundFunction(57, 0x27145703, 0xefb0e72f, 0x3fc23df6) == 0x088d3024
    ensures RoundFunction(58, 0x21a11069, 0x27145703, 0xefb0e72f) == 0x16fb4ffa
    ensures RoundFunction(59, 0x374fbe79, 0x21a11069, 0x27145703) == 0xde4eae94
    ensures RoundFunction(60, 0x49d9a5b4, 0x374fbe79, 0x21a11069) == 0xe89051cf
    ensures RoundFunction(61, 0x1cb80f0a, 0x49d9a5b4, 0x374fbe79) == 0x9561ea3a
    ensures RoundFunction(62, 0xea3d3eb4, 0x1cb80f0a, 0x49d9a5b4) == 0xe28771f5
    ensures RoundFunction(63, 0x10f68731, 0xea3d3eb4, 0x1cb80f0a) == 0x19cac941
  {
  }

  lemma Rotations1To64()
    ensures RotateLeft(0x7fcc637f, 6) == 0xf318dfdf
    ensures RotateLeft(0x9785c228, 10) == 0x1708a25e
    ensures RotateLeft(0xecf7ed44, 15) == 0xf6a2767b
    ensures RotateLeft(0x4674843f, 21) == 0x87e8ce90
    ensures RotateLeft(0x50b1f85f, 6) == 0x2c7e17d4
    ensures RotateLeft(0xb0aafc9f, 10) == 0xabf27ec2
    ensures RotateLeft(0xd609da7b, 15) == 0xed3deb04
    ensures RotateLeft(0x7549cd7f, 21) == 0xafeea939
    ensures RotateLeft(0x50dd8dbf, 6) == 0x37636fd4
    ensures RotateLeft(0x59bea32e, 10) == 0xfa8cb966
    ensures RotateLeft(0x5c202b5d, 15) == 0x15aeae10
    ensures RotateLeft(0x4f39d894, 21) == 0x1289e73b
    ensures RotateLeft(0x5b4b79a5, 6) == 0xd2de6956
    ensures RotateLeft(0xeab3614b, 10) == 0xcd852faa
    ensures RotateLeft(0x90fa4d72, 15) == 0x26b9487d
    ensures RotateLeft(0xbd98aef1, 21) == 0xde37b315
  {
    assert (((0x7fcc637f as bv32) << 6) | ((0x7fcc637f as bv32) >> 26)) as int == 0xf318dfdf;
    assert (((0x9785c228 as bv32) << 10) | ((0x9785c228 as bv32) >> 22)) as int == 0x1708a25e;
    assert (((0xecf7ed44 as bv32) << 15) | ((0xecf7ed44 as bv32) >> 17)) as int == 0xf6a2767b;
    assert (((0x4674843f as bv32) << 21) | ((0x4674843f as bv32) >> 11)) as int == 0x87e8ce90;
    assert (((0x50b1f85f as bv32) << 6) | ((0x50b1f85f as bv32) >> 26)) as int == 0x2c7e17d4;
    assert (((0xb0aafc9f as bv32) << 10) | ((0xb0aafc9f as bv32) >> 22)) as int == 0xabf27ec2;
    assert (((0xd609da7b as bv32) << 15) | ((0xd609da7b as bv32) >> 17)) as int == 0xed3deb04;
    assert (((0x7549cd7f as bv32) << 21) | ((0x7549cd7f as bv32) >> 11)) as int == 0xafeea939;
    assert (((0x50dd8dbf as bv32) << 6) | ((0x50dd8dbf as bv32) >> 26)) as int == 0x37636fd4;
    assert (((0x59bea32e as bv32) << 10) | ((0x59bea32e as bv32) >> 22)) as int == 0xfa8cb966;
    assert (((0x5c202b5d as bv32) << 15) | ((0x5c202b5d as bv32) >> 17)) as int == 0x15aeae10;
    assert (((0x4f39d894 as bv32) << 21) | ((0x4f39d894 as bv32) >> 11)) as int == 0x1289e73b;
    assert (((0x5b4b79a5 as bv32) << 6) | ((0x5b4b79a5 as bv32) >> 26)) as int == 0xd2de6956;
    assert (((0xeab3614b as bv32) << 10) | ((0xeab3614b as bv32) >> 22)) as int == 0xcd852faa;
    assert (((0x90fa4d72 as bv32) << 15) | ((0x90fa4d72 as bv32) >> 17)) as int == 0x26b9487d;
    assert (((0xbd98aef1 as bv32) << 21) | ((0xbd98aef1 as bv32) >> 11)) as int == 0xde37b315;
  }

  lemma Block1To8()
    ensures Operations(8, START_1, WORDS_1) == Regs(0xf22e6c4e, 0xa4799506, 0xa95a2fc0, 0xb4ac9218)
  {
    hide RoundFunction, RotateLeft, Operations;
    Functions1To16();
    Rotations1To16();
    NoOperations(START_1, WORDS_1);
    var r, x := START_1, WORDS_1;
    Op(0, r, x, 0x67452301, 0xefcdab89, 0x98badcfe, 0x10325476, 0x98badcfe, 0x1bade6b8, 0xd6f35c0d);
    Op(1, r, x, 0x10325476, 0xc6c10796, 0xefcdab89, 0x98badcfe, 0xdefbdbe8, 0x203d2df9, 0xd2df9203);
    Op(2, r, x, 0x98badcfe, 0x99a09999, 0xc6c10796, 0xefcdab89, 0xe6cd2390, 0xeff3bbb2, 0x7765dfe7);
    Op(3, r, x, 0xefcdab89, 0x11067980, 0x99a09999, 0xc6c10796, 0xd7c11f96, 0xd99be85a, 0x16b666fa);
    Op(4, r, x, 0xc6c10796, 0x27bce07a, 0x11067980, 0x99a09999, 0x99047981, 0xa994e317, 0xca718bd4);
    Op(5, r, x, 0x99a09999, 0xf22e6c4e, 0x27bce07a, 0x11067980, 0x232c71ca, 0x5cac27e2, 0xc27e25ca);
    Op(6, r, x, 0x11067980, 0xb4ac9218, 0xf22e6c4e, 0x27bce07a, 0xb33c606a, 0xced47a56, 0xf4ad9da8);
    Op(7, r, x, 0x27bce07a, 0xa95a2fc0, 0xb4ac9218, 0xf22e6c4e, 0xf22c420e, 0x7d951bec, 0xfb1f6546);
  }

  lemma Block1To16()
    ensures Operations(16, START_1, WORDS_1) == Regs(0x3cbdcd45, 0x5d38e690, 0xfa148c8a, 0xb8dec763)
  {
    hide RoundFunction, RotateLeft, Operations;
    Functions1To16();
    Rotations1To16();
    Block1To8();
    var r, x := START_1, WORDS_1;
    Op(8, r, x, 0xf22e6c4e, 0xa4799506, 0xa95a2fc0, 0xb4ac9218, 0xb0dc0718, 0x76f474a5, 0x7a3a52bb);
    Op(9, r, x, 0xb4ac9218, 0x1eb3e7c1, 0xa4799506, 0xa95a2fc0, 0xa5798d00, 0x53d88332, 0x8833253d);
    Op(10, r, x, 0xa95a2fc0, 0xa6e70cfe, 0x1eb3e7c1, 0xa4799506, 0x06bb95c0, 0x228691a0, 0x2340450d);
    Op(11, r, x, 0xa4799506, 0xca27520b, 0xa6e70cfe, 0x1eb3e7c1, 0x96b7a5ca, 0x3b038701, 0xc04ec0e1);
    Op(12, r, x, 0x1eb3e7c1, 0x8a7612ec, 0xca27520b, 0xa6e70cfe, 0xaea71e1a, 0xb3648f74, 0xb247ba59);
    Op(13, r, x, 0xa6e70cfe, 0x3cbdcd45, 0x8a7612ec, 0xca27520b, 0xca36124e, 0xa1e7c20f, 0x7c20fa1e);
    Op(14, r, x, 0xca27520b, 0xb8dec763, 0x3cbdcd45, 0x8a7612ec, 0x3abcd5cd, 0xe293a09a, 0x4135c527);
    Op(15, r, x, 0x8a7612ec, 0xfa148c8a, 0xb8dec763, 0x3cbdcd45, 0xbcbdc547, 0x9168198c, 0x63245a06);
  }

  lemma Block1To24()
    ensures Operations(24, START_1, WORDS_1) == Regs(0x2d7d8a3f, 0x75292030, 0x4b534dc3, 0xd1210823)
  {
    hide RoundFunction, RotateLeft, Operations;
    Functions1To32();
    Rotations1To32();
    Block1To16();
    var r, x := START_1, WORDS_1;
    Op(16, r, x, 0x3cbdcd45, 0x5d38e690, 0xfa148c8a, 0xb8dec763, 0x5a18ce88, 0xd53c0774, 0xa780ee9a);
    Op(17, r, x, 0xb8dec763, 0x04b9d52a, 0x5d38e690, 0xfa148c8a, 0x0538e61a, 0xe0b9bb16, 0x73762dc1);
    Op(18, r, x, 0xfa148c8a, 0x783002eb, 0x04b9d52a, 0x5d38e690, 0x58b113aa, 0xef996ef8, 0x5bbe3be6);
    Op(19, r, x, 0x5d38e690, 0xd3ee3ed1, 0x783002eb, 0x04b9d52a, 0x78a816c1, 0x03db073c, 0x73c03db0);
    Op(20, r, x, 0x04b9d52a, 0x47ae7c81, 0xd3ee3ed1, 0x783002eb, 0xc3ee3c91, 0xf72e786d, 0xe5cf0dbe);
    Op(21, r, x, 0x783002eb, 0x2d7d8a3f, 0x47ae7c81, 0xd3ee3ed1, 0x056c4a11, 0xf251d1be, 0xa3a37de4);
    Op(22, r, x, 0xd3ee3ed1, 0xd1210823, 0x2d7d8a3f, 0x47ae7c81, 0x69718a3f, 0x1681e8c9, 0x7a3245a0);
    Op(23, r, x, 0x47ae7c81, 0x4b534dc3, 0xd1210823, 0x2d7d8a3f, 0xd9510803, 0x5d26d29d, 0x29d5d26d);
  }

  lemma Block1To32()
    ensures Operations(32, START_1, WORDS_1) == Regs(0x9b085fa9, 0xdd789ecc, 0x5993248f, 0x4400a9bd)
  {
    hide RoundFunction, RotateLeft, Operations;
    Functions1To32();
    Rotations1To32();
    Block1To24();
    var r, x := START_1, WORDS_1;
    Op(24, r, x, 0x2d7d8a3f, 0x75292030, 0x4b534dc3, 0xd1210823, 0x5b7345e0, 0x19400a70, 0x28014e03);
    Op(25, r, x, 0xd1210823, 0x9d2a6e33, 0x75292030, 0x4b534dc3, 0x3d2a6c33, 0x08b8b160, 0x7162c011);
    Op(26, r, x, 0x4b534dc3, 0x0e8d2e44, 0x9d2a6e33, 0x75292030, 0x8c0b6e03, 0x1c83179a, 0xc5e68720);
    Op(27, r, x, 0x75292030, 0xd473b564, 0x0e8d2e44, 0x9d2a6e33, 0x96a72464, 0xbb93c1e8, 0x1e8bb93c);
    Op(28, r, x, 0x9d2a6e33, 0xf2ff6ea0, 0xd473b564, 0x0e8d2e44, 0xd2ffbf20, 0x4d404788, 0xa808f109);
    Op(29, r, x, 0x0e8d2e44, 0x9b085fa9, 0xf2ff6ea0, 0xd473b564, 0xb28c5fa0, 0x0a547c25, 0xa8f84a14);
    Op(30, r, x, 0xd473b564, 0x4400a9bd, 0x9b085fa9, 0xf2ff6ea0, 0x490039a9, 0xeb485649, 0x15927ad2);
    Op(31, r, x, 0xf2ff6ea0, 0x5993248f, 0x4400a9bd, 0x9b085fa9, 0x5d00a49d, 0x57a3d83e, 0x83e57a3d);
  }

  lemma Block1To40()
    ensures Operations(40, START_1, WORDS_1) == Regs(0x436b7fe9, 0xcf0341ed, 0xf404c2f6, 0x075800c1)
  {
    hide RoundFunction, RotateLeft, Operations;
    Functions1To48();
    Rotations1To48();
    Block1To32();
    var r, x := START_1, WORDS_1;
    Op(32, r, x, 0x9b085fa9, 0xdd789ecc, 0x5993248f, 0x4400a9bd, 0xc0eb13fe, 0xb445033e, 0x445033eb);
    Op(33, r, x, 0x4400a9bd, 0x21c8d2b7, 0xdd789ecc, 0x5993248f, 0xa52368f4, 0xdaff7199, 0xfb8cced7);
    Op(34, r, x, 0x5993248f, 0x1d55a18e, 0x21c8d2b7, 0xdd789ecc, 0xe1e5edf5, 0x1f8be819, 0xe8191f8b);
    Op(35, r, x, 0xdd789ecc, 0x056ec119, 0x1d55a18e, 0x21c8d2b7, 0x39f3b220, 0x4c87be2c, 0x162643df);
    Op(36, r, x, 0x21c8d2b7, 0x1b9504f8, 0x056ec119, 0x1d55a18e, 0x03ae646f, 0x127d67af, 0x27d67af1);
    Op(37, r, x, 0x1d55a18e, 0x436b7fe9, 0x1b9504f8, 0x056ec119, 0x5d90ba08, 0x1b187d90, 0xc3ec80d8);
    Op(38, r, x, 0x056ec119, 0x075800c1, 0x436b7fe9, 0x1b9504f8, 0x5fa67bd0, 0xc235ecac, 0xecacc235);
    Op(39, r, x, 0x1b9504f8, 0xf404c2f6, 0x075800c1, 0x436b7fe9, 0xb037bdde, 0xfcfdefb5, 0xdafe7ef7);
  }

  lemma Block1To48()
    ensures Operations(48, START_1, WORDS_1) == Regs(0x2dbee21d, 0xf166f514, 0xee46e961, 0xe95c3a43)
  {
    hide RoundFunction, RotateLeft, Operations;
    Functions1To48();
    Rotations1To48();
    Block1To40();
    var r, x := START_1, WORDS_1;
    Op(40, r, x, 0x436b7fe9, 0xcf0341ed, 0xf404c2f6, 0x075800c1, 0x3c5f83da, 0xdb98b3b9, 0xb98b3b9d);
    Op(41, r, x, 0x075800c1, 0x888e7d8a, 0xcf0341ed, 0xf404c2f6, 0xb389fe91, 0xe9c6698d, 0x334c6f4e);
    Op(42, r, x, 0xf404c2f6, 0xbbdaecd8, 0x888e7d8a, 0xcf0341ed, 0xfc57d0bf, 0x159b1287, 0x1287159b);
    Op(43, r, x, 0xcf0341ed, 0xce620273, 0xbbdaecd8, 0x888e7d8a, 0xfd369321, 0x33234c6c, 0x361991a6);
    Op(44, r, x, 0x888e7d8a, 0x047b9419, 0xce620273, 0xbbdaecd8, 0x71c37ab2, 0x429434e0, 0x29434e04);
    Op(45, r, x, 0xbbdaecd8, 0x2dbee21d, 0x047b9419, 0xce620273, 0xe7a77477, 0x04d773ab, 0xbb9d5826);
    Op(46, r, x, 0xce620273, 0xe95c3a43, 0x2dbee21d, 0x047b9419, 0xc0994c47, 0xaf1e04ea, 0x04eaaf1e);
    Op(47, r, x, 0x047b9419, 0xee46e961, 0xe95c3a43, 0x2dbee21d, 0x2aa4313f, 0x40176606, 0x03200bb3);
  }

  lemma Block1To56()
    ensures Operations(56, START_1, WORDS_1) == Regs(0xa691d430, 0xefb0e72f, 0x3fc23df6, 0x528452f2)
  {
    hide RoundFunction, RotateLeft, Operations;
    Functions1To64();
    Rotations1To64();
    Block1To48();
    var r, x := START_1, WORDS_1;
    Op(48, r, x, 0x2dbee21d, 0xf166f514, 0xee46e961, 0xe95c3a43, 0x19a11cdd, 0x7fcc637f, 0xf318dfdf);
    Op(49, r, x, 0xe95c3a43, 0xe47fd4f3, 0xf166f514, 0xee46e961, 0x049923eb, 0x9785c228, 0x1708a25e);
    Op(50, r, x, 0xee46e961, 0xfb887751, 0xe47fd4f3, 0xf166f514, 0x1be6ab08, 0xecf7ed44, 0xf6a2767b);
    Op(51, r, x, 0xf166f514, 0xf22aedcc, 0xfb887751, 0xe47fd4f3, 0x0022989d, 0x4674843f, 0x87e8ce90);
    Op(52, r, x, 0xe47fd4f3, 0x7a13bc5c, 0xf22aedcc, 0xfb887751, 0x8c5d5132, 0x50b1f85f, 0x2c7e17d4);
    Op(53, r, x, 0xfb887751, 0xa691d430, 0x7a13bc5c, 0xf22aedcc, 0xd5c66a6f, 0xb0aafc9f, 0xabf27ec2);
    Op(54, r, x, 0xf22aedcc, 0x528452f2, 0xa691d430, 0x7a13bc5c, 0x717d87c3, 0xd609da7b, 0xed3deb04);
    Op(55, r, x, 0x7a13bc5c, 0x3fc23df6, 0x528452f2, 0xa691d430, 0x2d6a6d0d, 0x7549cd7f, 0xafeea939);
  }

  lemma Block1To64()
    ensures Operations(64, START_1, WORDS_1) == Regs(0x1cb80f0a, 0xef2e3a46, 0x10f68731, 0xea3d3eb4)
  {
    hide RoundFunction, RotateLeft, Operations;
    Functions1To64();
    Rotations1To64();
    Block1To56();
    var r, x := START_1, WORDS_1;
    Op(56, r, x, 0xa691d430, 0xefb0e72f, 0x3fc23df6, 0x528452f2, 0xd039d2d9, 0x50dd8dbf, 0x37636fd4);
    Op(57, r, x, 0x528452f2, 0x27145703, 0xefb0e72f, 0x3fc23df6, 0x088d3024, 0x59bea32e, 0xfa8cb966);
    Op(58, r, x, 0x3fc23df6, 0x21a11069, 0x27145703, 0xefb0e72f, 0x16fb4ffa, 0x5c202b5d, 0x15aeae10);
    Op(59, r, x, 0xefb0e72f, 0x374fbe79, 0x21a11069, 0x27145703, 0xde4eae94, 0x4f39d894, 0x1289e73b);
    Op(60, r, x, 0x27145703, 0x49d9a5b4, 0x374fbe79, 0x21a11069, 0xe89051cf, 0x5b4b79a5, 0xd2de6956);
    Op(61, r, x, 0x21a11069, 0x1cb80f0a, 0x49d9a5b4, 0x374fbe79, 0x9561ea3a, 0xeab3614b, 0xcd852faa);
    Op(62, r, x, 0x374fbe79, 0xea3d3eb4, 0x1cb80f0a, 0x49d9a5b4, 0xe28771f5, 0x90fa4d72, 0x26b9487d);
    Op(63, r, x, 0x49d9a5b4, 0x10f68731, 0xea3d3eb4, 0x1cb80f0a, 0x19cac941, 0xbd98aef1, 0xde37b315);
  }

  // ----- Block 2 -----

  const START_2 := Regs(0x83fd320b, 0xdefbe5cf, 0xa9b1642f, 0xfa6f932a)
  const WORDS_2: seq<u32> := [
    0x00000000, 0x00000000, 0x00000000, 0x00000000, 0x00000000, 0x00000000, 0x00000000, 0x00000000,
    0x00000000, 0x00000000, 0x00000000, 0x00000000, 0x00000000, 0x00000000, 0x000001f0, 0x00000000]

  lemma Functions2To16()
    ensures RoundFunction(0, 0xdefbe5cf, 0xa9b1642f, 0xfa6f932a) == 0xa8b5762f
    ensures RoundFunction(1, 0xeda23ed1, 0xdefbe5cf, 0xa9b1642f) == 0xccb364ef
    ensures RoundFunction(2, 0x989939cf, 0xeda23ed1, 0xdefbe5cf) == 0xcee2fcc1
    ensures RoundFunction(3, 0x3c307338, 0x989939cf, 0xeda23ed1) == 0xd9923dc9
    ensures RoundFunction(4, 0xddcf0634, 0x3c307338, 0x989939cf) == 0x1c103bfb
    ensures RoundFunction(5, 0x75144433, 0xddcf0634, 0x3c307338) == 0x5d243738
    ensures RoundFunction(6, 0xc8875807, 0x75144433, 0xddcf0634) == 0x554c4633
    ensures RoundFunction(7, 0xc783cb60, 0xc8875807, 0x75144433) == 0xf0974c13
    ensures RoundFunction(8, 0x99b6b699, 0xc783cb60, 0xc8875807) == 0xc183ca06
    ensures RoundFunction(9, 0xa60a3f69, 0x99b6b699, 0xc783cb60) == 0xc183f609
    ensures RoundFunction(10, 0xaa6630be, 0xa60a3f69, 0x99b6b699) == 0xb392b629
    ensures RoundFunction(11, 0x64db26e9, 0xaa6630be, 0xa60a3f69) == 0xa24239a8
    ensures RoundFunction(12, 0x64cc7c5a, 0x64db26e9, 0xaa6630be) == 0xeeea24ec
    ensures RoundFunction(13, 0xa70737da, 0x64cc7c5a, 0x64db26e9) == 0x64dc347b
    ensures RoundFunction(14, 0x5473f8a7, 0xa70737da, 0x64cc7c5a) == 0x248f34da
    ensures RoundFunction(15, 0x96f6586e, 0x5473f8a7, 0xa70737da) == 0x35737fb6
  {
  }

  lemma Rotations2To16()
    ensures RotateLeft(0x041d4cb2, 7) == 0x0ea65902
    ensures RotateLeft(0xafeaaf6f, 12) == 0xaaf6fafe
    ensures RotateLeft(0x9cb4d1cb, 17) == 0xa3973969
    ensures RotateLeft(0x7a4bf286, 22) == 0xa19e92fc
    ensures RotateLeft(0xff2e8a7b, 7) == 0x97453dff
    ensures RotateLeft(0x3d453731, 12) == 0x537313d4
    ensures RotateLeft(0x39acff7e, 17) == 0xfefc7359
    ensures RotateLeft(0xcbace748, 22) == 0xd232eb39
    ensures RotateLeft(0xa018a711, 7) == 0x0c5388d0
    ensures RotateLeft(0x155045bf, 12) == 0x045bf155
    ensures RotateLeft(0x7b15dd3a, 17) == 0xba74f62b
    ensures RotateLeft(0xc555c7ff, 22) == 0xfff15571
    ensures RotateLeft(0x00847577, 7) == 0x423abb80
    ensures RotateLeft(0x0cdad6cc, 12) == 0xad6cc0cd
    ensures RotateLeft(0x2fe3a141, 17) == 0x42825fc7
    ensures RotateLeft(0xe3f40431, 22) == 0x0c78fd01
  {
    assert (((0x041d4cb2 as bv32) << 7) | ((0x041d4cb2 as bv32) >> 25)) as int == 0x0ea65902;
    assert (((0xafeaaf6f as bv32) << 12) | ((0xafeaaf6f as bv32) >> 20)) as int == 0xaaf6fafe;
    assert (((0x9cb4d1cb as bv32) << 17) | ((0x9cb4d1cb as bv32) >> 15)) as int == 0xa3973969;
    assert (((0x7a4bf286 as bv32) << 22) | ((0x7a4bf286 as bv32) >> 10)) as int == 0xa19e92fc;
    assert (((0xff2e8a7b as bv32) << 7) | ((0xff2e8a7b as bv32) >> 25)) as int == 0x97453dff;
    assert (((0x3d453731 as bv32) << 12) | ((0x3d453731 as bv32) >> 20)) as int == 0x537313d4;
    assert (((0x39acff7e as bv32) << 17) | ((0x39acff7e as bv32) >> 15)) as int == 0xfefc7359;
    assert (((0xcbace748 as bv32) << 22) | ((0xcbace748 as bv32) >> 10)) as int == 0xd232eb39;
    assert (((0xa018a711 as bv32) << 7) | ((0xa018a711 as bv32) >> 25)) as int == 0x0c5388d0;
    assert (((0x155045bf as bv32) << 12) | ((0x155045bf as bv32) >> 20)) as int == 0x045bf155;
    assert (((0x7b15dd3a as bv32) << 17) | ((0x7b15dd3a as bv32) >> 15)) as int == 0xba74f62b;
    assert (((0xc555c7ff as bv32) << 22) | ((0xc555c7ff as bv32) >> 10)) as int == 0xfff15571;
    assert (((0x00847577 as bv32) << 7) | ((0x00847577 as bv32) >> 25)) as int == 0x423abb80;
    assert (((0x0cdad6cc as bv32) << 12) | ((0x0cdad6cc as bv32) >> 20)) as int == 0xad6cc0cd;
    assert (((0x2fe3a141 as bv32) << 17) | ((0x2fe3a141 as bv32) >> 15)) as int == 0x42825fc7;
    assert (((0xe3f40431 as bv32) << 22) | ((0xe3f40431 as bv32) >> 10)) as int == 0x0c78fd01;
  }

  lemma Functions2To32()
    ensures RoundFunction(16, 0xa36f556f, 0x96f6586e, 0x5473f8a7) == 0x82e7506f
    ensures RoundFunction(17, 0xa5050ad3, 0xa36f556f, 0x96f6586e) == 0xa50d0d43
    ensures RoundFunction(18, 0x28776046, 0xa5050ad3, 0xa36f556f) == 0x24674ad6
    ensures RoundFunction(19, 0x27dcd8b4, 0x28776046, 0xa5050ad3) == 0x2d766894
    ensures RoundFunction(20, 0x82b8827c, 0x27dcd8b4, 0x28776046) == 0x07b898f4
    ensures RoundFunction(21, 0xe04f070c, 0x82b8827c, 0x27dcd8b4) == 0xa06c024c
    ensures RoundFunction(22, 0x2f3cd2a2, 0xe04f070c, 0x82b8827c) == 0x627f8720
    ensures RoundFunction(23, 0xc0d22b61, 0x2f3cd2a2, 0xe04f070c) == 0xcf72d3a2
    ensures RoundFunction(24, 0xdf35cb56, 0xc0d22b61, 0x2f3cd2a2) == 0xcff6eb43
    ensures RoundFunction(25, 0x242dd210, 0xdf35cb56, 0xc0d22b61) == 0x1f25c216
    ensures RoundFunction(26, 0x576ace33, 0x242dd210, 0xdf35cb56) == 0x7728da12
    ensures RoundFunction(27, 0x5c295967, 0x576ace33, 0x242dd210) == 0x576b5c23
    ensures RoundFunction(28, 0x2291191a, 0x5c295967, 0x576ace33) == 0x0a011956
    ensures RoundFunction(29, 0x24eba695, 0x2291191a, 0x5c295967) == 0x26b9001d
    ensures RoundFunction(30, 0x4bd0378b, 0x24eba695, 0x2291191a) == 0x06fab78f
    ensures RoundFunction(31, 0x10c42a2f, 0x4bd0378b, 0x24eba695) == 0x4bd0330f
  {
  }

  lemma Rotations2To32()
    ensures RotateLeft(0x200cadab, 5) == 0x0195b564
    ensures RotateLeft(0xb9c1b92a, 9) == 0x83725573
    ensures RotateLeft(0xe1bbfd95, 14) == 0xff65786e
    ensures RotateLeft(0xba9c85ad, 20) == 0x5adba9c8
    ensures RotateLeft(0x82ecb424, 5) == 0x5d968490
    ensures RotateLeft(0xcb2776e5, 9) == 0x4eedcb96
    ensures RotateLeft(0x62fe4655, 14) == 0x919558bf
    ensures RotateLeft(0x39ff51e6, 20) == 0x1e639ff5
    ensures RotateLeft(0xd227c035, 5) == 0x44f806ba
    ensures RotateLeft(0x11999e7e, 9) == 0x333cfc23
    ensures RotateLeft(0x2cd012fa, 14) == 0x04be8b34
    ensures RotateLeft(0x7bfb3c66, 20) == 0xc667bfb3
    ensures RotateLeft(0xd812d46b, 5) == 0x025a8d7b
    ensures RotateLeft(0x7b137248, 9) == 0x26e490f6
    ensures RotateLeft(0xca9313cf, 14) == 0xc4f3f2a4
    ensures RotateLeft(0xfb8b98b3, 20) == 0x8b3fb8b9
  {
    assert (((0x200cadab as bv32) << 5) | ((0x200cadab as bv32) >> 27)) as int == 0x0195b564;
    assert (((0xb9c1b92a as bv32) << 9) | ((0xb9c1b92a as bv32) >> 23)) as int == 0x83725573;
    assert (((0xe1bbfd95 as bv32) << 14) | ((0xe1bbfd95 as bv32) >> 18)) as int == 0xff65786e;
    assert (((0xba9c85ad as bv32) << 20) | ((0xba9c85ad as bv32) >> 12)) as int == 0x5adba9c8;
    assert (((0x82ecb424 as bv32) << 5) | ((0x82ecb424 as bv32) >> 27)) as int == 0x5d968490;
    assert (((0xcb2776e5 as bv32) << 9) | ((0xcb2776e5 as bv32) >> 23)) as int == 0x4eedcb96;
    assert (((0x62fe4655 as bv32) << 14) | ((0x62fe4655 as bv32) >> 18)) as int == 0x919558bf;
    assert (((0x39ff51e6 as bv32) << 20) | ((0x39ff51e6 as bv32) >> 12)) as int == 0x1e639ff5;
    assert (((0xd227c035 as bv32) << 5) | ((0xd227c035 as bv32) >> 27)) as int == 0x44f806ba;
    assert (((0x11999e7e as bv32) << 9) | ((0x11999e7e as bv32) >> 23)) as int == 0x333cfc23;
    assert (((0x2cd012fa as bv32) << 14) | ((0x2cd012fa as bv32) >> 18)) as int == 0x04be8b34;
    assert (((0x7bfb3c66 as bv32) << 20) | ((0x7bfb3c66 as bv32) >> 12)) as int == 0xc667bfb3;
    assert (((0xd812d46b as bv32) << 5) | ((0xd812d46b as bv32) >> 27)) as int == 0x025a8d7b;
    assert (((0x7b137248 as bv32) << 9) | ((0x7b137248 as bv32) >> 23)) as int == 0x26e490f6;
    assert (((0xca9313cf as bv32) << 14) | ((0xca9313cf as bv32) >> 18)) as int == 0xc4f3f2a4;
    assert (((0xfb8b98b3 as bv32) << 20) | ((0xfb8b98b3 as bv32) >> 12)) as int == 0x8b3fb8b9;
  }

  lemma Functions2To48()
    ensures RoundFunction(32, 0x9c03e2e8, 0x10c42a2f, 0x4bd0378b) == 0xc717ff4c
    ensures RoundFunction(33, 0x5be1d526, 0x9c03e2e8, 0x10c42a2f) == 0xd7261de1
    ensures RoundFunction(34, 0x9e414279, 0x5be1d526, 0x9c03e2e8) == 0x59a375b7
    ensures RoundFunction(35, 0x9f4a1a7e, 0x9e414279, 0x5be1d526) == 0x5aea8d21
    ensures RoundFunction(36, 0xa2448453, 0x9f4a1a7e, 0x9e414279) == 0xa34fdc54
    ensures RoundFunction(37, 0xe14e403d, 0xa2448453, 0x9f4a1a7e) == 0xdc40de10
    ensures RoundFunction(38, 0xe8cfd670, 0xe14e403d, 0xa2448453) == 0xabc5121e
    ensures RoundFunction(39, 0x60cc183a, 0xe8cfd670, 0xe14e403d) == 0x694d8e77
    ensures RoundFunction(40, 0xfe314121, 0x60cc183a, 0xe8cfd670) == 0x76328f6b
    ensures RoundFunction(41, 0xfff62809, 0xfe314121, 0x60cc183a) == 0x610b7112
    ensures RoundFunction(42, 0xe37209ac, 0xfff62809, 0xfe314121) == 0xe2b56084
    ensures RoundFunction(43, 0x8cb5221c, 0xe37209ac, 0xfff62809) == 0x903103b9
    ensures RoundFunction(44, 0x7c7e974c, 0x8cb5221c, 0xe37209ac) == 0x13b9bcfc
    ensures RoundFunction(45, 0x54c9eb3a, 0x7c7e974c, 0x8cb5221c) == 0xa4025e6a
    ensures RoundFunction(46, 0xd4d9c6ac, 0x54c9eb3a, 0x7c7e974c) == 0xfc6ebada
    ensures RoundFunction(47, 0x2ec86f72, 0xd4d9c6ac, 0x54c9eb3a) == 0xaed842e4
  {
  }

  lemma Rotations2To48()
    ensures RotateLeft(0xebfddf23, 4) == 0xbfddf23e
    ensures RotateLeft(0xaa684bed, 11) == 0x425f6d53
    ensures RotateLeft(0xd8050108, 16) == 0x0108d805
    ensures RotateLeft(0xf4d3aa05, 23) == 0x02fa69d5
    ensures RotateLeft(0xa3f09bbe, 4) == 0x3f09bbea
    ensures RotateLeft(0xc660f032, 11) == 0x07819633
    ensures RotateLeft(0x41ca77fc, 16) == 0x77fc41ca
    ensures RotateLeft(0xca51cf3a, 23) == 0x9d6528e7
    ensures RotateLeft(0x801c4e6e, 4) == 0x01c4e6e8
    ensures RotateLeft(0x347c6f7c, 11) == 0xe37be1a3
    ensures RotateLeft(0x1870a943, 16) == 0xa9431870
    ensures RotateLeft(0x92ea61df, 23) == 0xefc97530
    ensures RotateLeft(0xed84b53e, 4) == 0xd84b53ee
    ensures RotateLeft(0x6e5001fb, 11) == 0x800fdb72
    ensures RotateLeft(0xa8c659ee, 16) == 0x59eea8c6
    ensures RotateLeft(0xf0033095, 23) == 0x4af80198
  {
    assert (((0xebfddf23 as bv32) << 4) | ((0xebfddf23 as bv32) >> 28)) as int == 0xbfddf23e;
    assert (((0xaa684bed as bv32) << 11) | ((0xaa684bed as bv32) >> 21)) as int == 0x425f6d53;
    assert (((0xd8050108 as bv32) << 16) | ((0xd8050108 as bv32) >> 16)) as int == 0x0108d805;
    assert (((0xf4d3aa05 as bv32) << 23) | ((0xf4d3aa05 as bv32) >> 9)) as int == 0x02fa69d5;
    assert (((0xa3f09bbe as bv32) << 4) | ((0xa3f09bbe as bv32) >> 28)) as int == 0x3f09bbea;
    assert (((0xc660f032 as bv32) << 11) | ((0xc660f032 as bv32) >> 21)) as int == 0x07819633;
    assert (((0x41ca77fc as bv32) << 16) | ((0x41ca77fc as bv32) >> 16)) as int == 0x77fc41ca;
    assert (((0xca51cf3a as bv32) << 23) | ((0xca51cf3a as bv32) >> 9)) as int == 0x9d6528e7;
    assert (((0x801c4e6e as bv32) << 4) | ((0x801c4e6e as bv32) >> 28)) as int == 0x01c4e6e8;
    assert (((0x347c6f7c as bv32) << 11) | ((0x347c6f7c as bv32) >> 21)) as int == 0xe37be1a3;
    assert (((0x1870a943 as bv32) << 16) | ((0x1870a943 as bv32) >> 16)) as int == 0xa9431870;
    assert (((0x92ea61df as bv32) << 23) | ((0x92ea61df as bv32) >> 9)) as int == 0xefc97530;
    assert (((0xed84b53e as bv32) << 4) | ((0xed84b53e as bv32) >> 28)) as int == 0xd84b53ee;
    assert (((0x6e5001fb as bv32) << 11) | ((0x6e5001fb as bv32) >> 21)) as int == 0x800fdb72;
    assert (((0xa8c659ee as bv32) << 16) | ((0xa8c659ee as bv32) >> 16)) as int == 0x59eea8c6;
    assert (((0xf0033095 as bv32) << 23) | ((0xf0033095 as bv32) >> 9)) as int == 0x4af80198;
  }

  lemma Functions2To64()
    ensures RoundFunction(48, 0x79c0710a, 0x2ec86f72, 0xd4d9c6ac) == 0x552e1629
    ensures RoundFunction(49, 0x02095af1, 0x79c0710a, 0x2ec86f72) == 0xaaffabf7
    ensures RoundFunction(50, 0x13d245fd, 0x02095af1, 0x79c0710a) == 0x95f6950c
    ensures RoundFunction(51, 0xa8dcfe26, 0x13d245fd, 0x02095af1) == 0xee2cbad3
    ensures RoundFunction(52, 0x2ba98e3f, 0xa8dcfe26, 0x13d245fd) == 0x47714019
    ensures RoundFunction(53, 0xe126c1aa, 0x2ba98e3f, 0xa8dcfe26) == 0xdc8e4fc4
    ensures RoundFunction(54, 0x96b00fa7, 0xe126c1aa, 0x2ba98e3f) == 0x37d0be4d
    ensures RoundFunction(55, 0x6f287ff5, 0x96b00fa7, 0xe126c1aa) == 0xe9497052
    ensures RoundFunction(56, 0xfb7bcee0, 0x6f287ff5, 0x96b00fa7) == 0x9457810d
    ensures RoundFunction(57, 0x452c1099, 0xfb7bcee0, 0x6f287ff5) == 0x2e845e7b
    ensures RoundFunction(58, 0xca801ba6, 0x452c1099, 0xfb7bcee0) == 0x8ba82b26
    ensures RoundFunction(59, 0xc197ea8e, 0xca801ba6, 0x452c1099) == 0x3157f448
    ensures RoundFunction(60, 0x5ac74608, 0xc197ea8e, 0xca801ba6) == 0xbe680cd7
    ensures RoundFunction(61, 0x14ae42c6, 0x5ac74608, 0xc197ea8e) == 0x642911ff
    ensures RoundFunction(62, 0xa52dae75, 0x14ae42c6, 0x5ac74608) == 0xb193fd31
    ensures RoundFunction(63, 0x826afd76, 0xa52dae75, 0x14ae42c6) == 0x4e56530a
  {
  }

  lemma Rotations2To64()
    ensures RotateLeft(0x9e2123a7, 6) == 0x8848e9e7
    ensures RotateLeft(0xc304723a, 10) == 0x11c8eb0c
    ensures RotateLeft(0x70532a15, 15) == 0x950ab829
    ensures RotateLeft(0x6480cc16, 21) == 0x82cc9019
    ensures RotateLeft(0xaed5f4cd, 6) == 0xb57d336b
    ensures RotateLeft(0x7f6d6253, 10) == 0xb5894dfd
    ensures RotateLeft(0xe09db0f0, 15) == 0xd878704e
    ensures RotateLeft(0x9a775c62, 21) == 0x8c534eeb
    ensures RotateLeft(0xe526c106, 6) == 0x49b041b9
    ensures RotateLeft(0xc3615502, 10) == 0x85540b0d
    ensures RotateLeft(0x9dd1ee2f, 15) == 0xf717cee8
    ensures RotateLeft(0x7adbd4c9, 21) == 0x992f5b7a
    ensures RotateLeft(0xfae79bf2, 6) == 0xb9e6fcbe
    ensures RotateLeft(0xebe41fda, 10) == 0x907f6baf
    ensures RotateLeft(0x9e03ba7a, 15) == 0xdd3d4f01
    ensures RotateLeft(0x94a46ca3, 21) == 0x9472948d
  {
    assert (((0x9e2123a7 as bv32) << 6) | ((0x9e2123a7 as bv32) >> 26)) as int == 0x8848e9e7;
    assert (((0xc304723a as bv32) << 10) | ((0xc304723a as bv32) >> 22)) as int == 0x11c8eb0c;
    assert (((0x70532a15 as bv32) << 15) | ((0x70532a15 as bv32) >> 17)) as int == 0x950ab829;
    assert (((0x6480cc16 as bv32) << 21) | ((0x6480cc16 as bv32) >> 11)) as int == 0x82cc9019;
    assert (((0xaed5f4cd as bv32) << 6) | ((0xaed5f4cd as bv32) >> 26)) as int == 0xb57d336b;
    assert (((0x7f6d6253 as bv32) << 10) | ((0x7f6d6253 as bv32) >> 22)) as int == 0xb5894dfd;
    assert (((0xe09db0f0 as bv32) << 15) | ((0xe09db0f0 as bv32) >> 17)) as int == 0xd878704e;
    assert (((0x9a775c62 as bv32) << 21) | ((0x9a775c62 as bv32) >> 11)) as int == 0x8c534eeb;
    assert (((0xe526c106 as bv32) << 6) | ((0xe526c106 as bv32) >> 26)) as int == 0x49b041b9;
    assert (((0xc3615502 as bv32) << 10) | ((0xc3615502 as bv32) >> 22)) as int == 0x85540b0d;
    assert (((0x9dd1ee2f as bv32) << 15) | ((0x9dd1ee2f as bv32) >> 17)) as int == 0xf717cee8;
    assert (((0x7adbd4c9 as bv32) << 21) | ((0x7adbd4c9 as bv32) >> 11)) as int == 0x992f5b7a;
    assert (((0xfae79bf2 as bv32) << 6) | ((0xfae79bf2 as bv32) >> 26)) as int == 0xb9e6fcbe;
    assert (((0xebe41fda as bv32) << 10) | ((0xebe41fda as bv32) >> 22)) as int == 0x907f6baf;
    assert (((0x9e03ba7a as bv32) << 15) | ((0x9e03ba7a as bv32) >> 17)) as int == 0xdd3d4f01;
    assert (((0x94a46ca3 as bv32) << 21) | ((0x94a46ca3 as bv32) >> 11)) as int == 0x9472948d;
  }

  lemma Block2To8()
    ensures Operations(8, START_2, WORDS_2) == Regs(0x75144433, 0x99b6b699, 0xc783cb60, 0xc8875807)
  {
    hide RoundFunction, RotateLeft, Operations;
    Functions2To16();
    Rotations2To16();
    NoOperations(START_2, WORDS_2);
    var r, x := START_2, WORDS_2;
    Op(0, r, x, 0x83fd320b, 0xdefbe5cf, 0xa9b1642f, 0xfa6f932a, 0xa8b5762f, 0x041d4cb2, 0x0ea65902);
    Op(1, r, x, 0xfa6f932a, 0xeda23ed1, 0xdefbe5cf, 0xa9b1642f, 0xccb364ef, 0xafeaaf6f, 0xaaf6fafe);
    Op(2, r, x, 0xa9b1642f, 0x989939cf, 0xeda23ed1, 0xdefbe5cf, 0xcee2fcc1, 0x9cb4d1cb, 0xa3973969);
    Op(3, r, x, 0xdefbe5cf, 0x3c307338, 0x989939cf, 0xeda23ed1, 0xd9923dc9, 0x7a4bf286, 0xa19e92fc);
    Op(4, r, x, 0xeda23ed1, 0xddcf0634, 0x3c307338, 0x989939cf, 0x1c103bfb, 0xff2e8a7b, 0x97453dff);
    Op(5, r, x, 0x989939cf, 0x75144433, 0xddcf0634, 0x3c307338, 0x5d243738, 0x3d453731, 0x537313d4);
    Op(6, r, x, 0x3c307338, 0xc8875807, 0x75144433, 0xddcf0634, 0x554c4633, 0x39acff7e, 0xfefc7359);
    Op(7, r, x, 0xddcf0634, 0xc783cb60, 0xc8875807, 0x75144433, 0xf0974c13, 0xcbace748, 0xd232eb39);
  }

  lemma Block2To16()
    ensures Operations(16, START_2, WORDS_2) == Regs(0xa70737da, 0xa36f556f, 0x96f6586e, 0x5473f8a7)
  {
    hide RoundFunction, RotateLeft, Operations;
    Functions2To16();
    Rotations2To16();
    Block2To8();
    var r, x := START_2, WORDS_2;
    Op(8, r, x, 0x75144433, 0x99b6b699, 0xc783cb60, 0xc8875807, 0xc183ca06, 0xa018a711, 0x0c5388d0);
    Op(9, r, x, 0xc8875807, 0xa60a3f69, 0x99b6b699, 0xc783cb60, 0xc183f609, 0x155045bf, 0x045bf155);
    Op(10, r, x, 0xc783cb60, 0xaa6630be, 0xa60a3f69, 0x99b6b699, 0xb392b629, 0x7b15dd3a, 0xba74f62b);
    Op(11, r, x, 0x99b6b699, 0x64db26e9, 0xaa6630be, 0xa60a3f69, 0xa24239a8, 0xc555c7ff, 0xfff15571);
    Op(12, r, x, 0xa60a3f69, 0x64cc7c5a, 0x64db26e9, 0xaa6630be, 0xeeea24ec, 0x00847577, 0x423abb80);
    Op(13, r, x, 0xaa6630be, 0xa70737da, 0x64cc7c5a, 0x64db26e9, 0x64dc347b, 0x0cdad6cc, 0xad6cc0cd);
    Op(14, r, x, 0x64db26e9, 0x5473f8a7, 0xa70737da, 0x64cc7c5a, 0x248f34da, 0x2fe3a141, 0x42825fc7);
    Op(15, r, x, 0x64cc7c5a, 0x96f6586e, 0x5473f8a7, 0xa70737da, 0x35737fb6, 0xe3f40431, 0x0c78fd01);
  }

  lemma Block2To24()
    ensures Operations(24, START_2, WORDS_2) == Regs(0xe04f070c, 0xdf35cb56, 0xc0d22b61, 0x2f3cd2a2)
  {
    hide RoundFunction, RotateLeft, Operations;
    Functions2To32();
    Rotations2To32();
    Block2To16();
    var r, x := START_2, WORDS_2;
    Op(16, r, x, 0xa70737da, 0xa36f556f, 0x96f6586e, 0x5473f8a7, 0x82e7506f, 0x200cadab, 0x0195b564);
    Op(17, r, x, 0x5473f8a7, 0xa5050ad3, 0xa36f556f, 0x96f6586e, 0xa50d0d43, 0xb9c1b92a, 0x83725573);
    Op(18, r, x, 0x96f6586e, 0x28776046, 0xa5050ad3, 0xa36f556f, 0x24674ad6, 0xe1bbfd95, 0xff65786e);
    Op(19, r, x, 0xa36f556f, 0x27dcd8b4, 0x28776046, 0xa5050ad3, 0x2d766894, 0xba9c85ad, 0x5adba9c8);
    Op(20, r, x, 0xa5050ad3, 0x82b8827c, 0x27dcd8b4, 0x28776046, 0x07b898f4, 0x82ecb424, 0x5d968490);
    Op(21, r, x, 0x28776046, 0xe04f070c, 0x82b8827c, 0x27dcd8b4, 0xa06c024c, 0xcb2776e5, 0x4eedcb96);
    Op(22, r, x, 0x27dcd8b4, 0x2f3cd2a2, 0xe04f070c, 0x82b8827c, 0x627f8720, 0x62fe4655, 0x919558bf);
    Op(23, r, x, 0x82b8827c, 0xc0d22b61, 0x2f3cd2a2, 0xe04f070c, 0xcf72d3a2, 0x39ff51e6, 0x1e639ff5);
  }

  lemma Block2To32()
    ensures Operations(32, START_2, WORDS_2) == Regs(0x24eba695, 0x9c03e2e8, 0x10c42a2f, 0x4bd0378b)
  {
    hide RoundFunction, RotateLeft, Operations;
    Functions2To32();
    Rotations2To32();
    Block2To24();
    var r, x := START_2, WORDS_2;
    Op(24, r, x, 0xe04f070c, 0xdf35cb56, 0xc0d22b61, 0x2f3cd2a2, 0xcff6eb43, 0xd227c035, 0x44f806ba);
    Op(25, r, x, 0x2f3cd2a2, 0x242dd210, 0xdf35cb56, 0xc0d22b61, 0x1f25c216, 0x11999e7e, 0x333cfc23);
    Op(26, r, x, 0xc0d22b61, 0x576ace33, 0x242dd210, 0xdf35cb56, 0x7728da12, 0x2cd012fa, 0x04be8b34);
    Op(27, r, x, 0xdf35cb56, 0x5c295967, 0x576ace33, 0x242dd210, 0x576b5c23, 0x7bfb3c66, 0xc667bfb3);
    Op(28, r, x, 0x242dd210, 0x2291191a, 0x5c295967, 0x576ace33, 0x0a011956, 0xd812d46b, 0x025a8d7b);
    Op(29, r, x, 0x576ace33, 0x24eba695, 0x2291191a, 0x5c295967, 0x26b9001d, 0x7b137248, 0x26e490f6);
    Op(30, r, x, 0x5c295967, 0x4bd0378b, 0x24eba695, 0x2291191a, 0x06fab78f, 0xca9313cf, 0xc4f3f2a4);
    Op(31, r, x, 0x2291191a, 0x10c42a2f, 0x4bd0378b, 0x24eba695, 0x4bd0330f, 0xfb8b98b3, 0x8b3fb8b9);
  }

  lemma Block2To40()
    ensures Operations(40, START_2, WORDS_2) == Regs(0xe14e403d, 0xfe314121, 0x60cc183a, 0xe8cfd670)
  {
    hide RoundFunction, RotateLeft, Operations;
    Functions2To48();
    Rotations2To48();
    Block2To32();
    var r, x := START_2, WORDS_2;
    Op(32, r, x, 0x24eba695, 0x9c03e2e8, 0x10c42a2f, 0x4bd0378b, 0xc717ff4c, 0xebfddf23, 0xbfddf23e);
    Op(33, r, x, 0x4bd0378b, 0x5be1d526, 0x9c03e2e8, 0x10c42a2f, 0xd7261de1, 0xaa684bed, 0x425f6d53);
    Op(34, r, x, 0x10c42a2f, 0x9e414279, 0x5be1d526, 0x9c03e2e8, 0x59a375b7, 0xd8050108, 0x0108d805);
    Op(35, r, x, 0x9c03e2e8, 0x9f4a1a7e, 0x9e414279, 0x5be1d526, 0x5aea8d21, 0xf4d3aa05, 0x02fa69d5);
    Op(36, r, x, 0x5be1d526, 0xa2448453, 0x9f4a1a7e, 0x9e414279, 0xa34fdc54, 0xa3f09bbe, 0x3f09bbea);
    Op(37, r, x, 0x9e414279, 0xe14e403d, 0xa2448453, 0x9f4a1a7e, 0xdc40de10, 0xc660f032, 0x07819633);
    Op(38, r, x, 0x9f4a1a7e, 0xe8cfd670, 0xe14e403d, 0xa2448453, 0xabc5121e, 0x41ca77fc, 0x77fc41ca);
    Op(39, r, x, 0xa2448453, 0x60cc183a, 0xe8cfd670, 0xe14e403d, 0x694d8e77, 0xca51cf3a, 0x9d6528e7);
  }

  lemma Block2To48()
    ensures Operations(48, START_2, WORDS_2) == Regs(0x54c9eb3a, 0x79c0710a, 0x2ec86f72, 0xd4d9c6ac)
  {
    hide RoundFunction, RotateLeft, Operations;
    Functions2To48();
    Rotations2To48();
    Block2To40();
    var r, x := START_2, WORDS_2;
    Op(40, r, x, 0xe14e403d, 0xfe314121, 0x60cc183a, 0xe8cfd670, 0x76328f6b, 0x801c4e6e, 0x01c4e6e8);
    Op(41, r, x, 0xe8cfd670, 0xfff62809, 0xfe314121, 0x60cc183a, 0x610b7112, 0x347c6f7c, 0xe37be1a3);
    Op(42, r, x, 0x60cc183a, 0xe37209ac, 0xfff62809, 0xfe314121, 0xe2b56084, 0x1870a943, 0xa9431870);
    Op(43, r, x, 0xfe314121, 0x8cb5221c, 0xe37209ac, 0xfff62809, 0x903103b9, 0x92ea61df, 0xefc97530);
    Op(44, r, x, 0xfff62809, 0x7c7e974c, 0x8cb5221c, 0xe37209ac, 0x13b9bcfc, 0xed84b53e, 0xd84b53ee);
    Op(45, r, x, 0xe37209ac, 0x54c9eb3a, 0x7c7e974c, 0x8cb5221c, 0xa4025e6a, 0x6e5001fb, 0x800fdb72);
    Op(46, r, x, 0x8cb5221c, 0xd4d9c6ac, 0x54c9eb3a, 0x7c7e974c, 0xfc6ebada, 0xa8c659ee, 0x59eea8c6);
    Op(47, r, x, 0x7c7e974c, 0x2ec86f72, 0xd4d9c6ac, 0x54c9eb3a, 0xaed842e4, 0xf0033095, 0x4af80198);
  }

  lemma Block2To56()
    ensures Operations(56, START_2, WORDS_2) == Regs(0xe126c1aa, 0xfb7bcee0, 0x6f287ff5, 0x96b00fa7)
  {
    hide RoundFunction, RotateLeft, Operations;
    Functions2To64();
    Rotations2To64();
    Block2To48();
    var r, x := START_2, WORDS_2;
    Op(48, r, x, 0x54c9eb3a, 0x79c0710a, 0x2ec86f72, 0xd4d9c6ac, 0x552e1629, 0x9e2123a7, 0x8848e9e7);
    Op(49, r, x, 0xd4d9c6ac, 0x02095af1, 0x79c0710a, 0x2ec86f72, 0xaaffabf7, 0xc304723a, 0x11c8eb0c);
    Op(50, r, x, 0x2ec86f72, 0x13d245fd, 0x02095af1, 0x79c0710a, 0x95f6950c, 0x70532a15, 0x950ab829);
    Op(51, r, x, 0x79c0710a, 0xa8dcfe26, 0x13d245fd, 0x02095af1, 0xee2cbad3, 0x6480cc16, 0x82cc9019);
    Op(52, r, x, 0x02095af1, 0x2ba98e3f, 0xa8dcfe26, 0x13d245fd, 0x47714019, 0xaed5f4cd, 0xb57d336b);
    Op(53, r, x, 0x13d245fd, 0xe126c1aa, 0x2ba98e3f, 0xa8dcfe26, 0xdc8e4fc4, 0x7f6d6253, 0xb5894dfd);
    Op(54, r, x, 0xa8dcfe26, 0x96b00fa7, 0xe126c1aa, 0x2ba98e3f, 0x37d0be4d, 0xe09db0f0, 0xd878704e);
    Op(55, r, x, 0x2ba98e3f, 0x6f287ff5, 0x96b00fa7, 0xe126c1aa, 0xe9497052, 0x9a775c62, 0x8c534eeb);
  }

  lemma Block2To64()
    ensures Operations(64, START_2, WORDS_2) == Regs(0x14ae42c6, 0x16dd9203, 0x826afd76, 0xa52dae75)
  {
    hide RoundFunction, RotateLeft, Operations;
    Functions2To64();
    Rotations2To64();
    Block2To56();
    var r, x := START_2, WORDS_2;
    Op(56, r, x, 0xe126c1aa, 0xfb7bcee0, 0x6f287ff5, 0x96b00fa7, 0x9457810d, 0xe526c106, 0x49b041b9);
    Op(57, r, x, 0x96b00fa7, 0x452c1099, 0xfb7bcee0, 0x6f287ff5, 0x2e845e7b, 0xc3615502, 0x85540b0d);
    Op(58, r, x, 0x6f287ff5, 0xca801ba6, 0x452c1099, 0xfb7bcee0, 0x8ba82b26, 0x9dd1ee2f, 0xf717cee8);
    Op(59, r, x, 0xfb7bcee0, 0xc197ea8e, 0xca801ba6, 0x452c1099, 0x3157f448, 0x7adbd4c9, 0x992f5b7a);
    Op(60, r, x, 0x452c1099, 0x5ac74608, 0xc197ea8e, 0xca801ba6, 0xbe680cd7, 0xfae79bf2, 0xb9e6fcbe);
    Op(61, r, x, 0xca801ba6, 0x14ae42c6, 0x5ac74608, 0xc197ea8e, 0x642911ff, 0xebe41fda, 0x907f6baf);
    Op(62, r, x, 0xc197ea8e, 0xa52dae75, 0x14ae42c6, 0x5ac74608, 0xb193fd31, 0x9e03ba7a, 0xdd3d4f01);
    Op(63, r, x, 0x5ac74608, 0x826afd76, 0xa52dae75, 0x14ae42c6, 0x4e56530a, 0x94a46ca3, 0x9472948d);
  }

  const END := Regs(0x98ab74d1, 0xf5d977d2, 0x2c1c61a5, 0x9f9d419f)

  predicate IsWord(block: seq<byte>, i: nat, w: u32)
    requires |block| == 64 && i < 16
  {
    w == block[4 * i] as nat + 0x100 * block[4 * i + 1] as nat
      + 0x1_0000 * block[4 * i + 2] as nat + 0x100_0000 * block[4 * i + 3] as nat
  }

  lemma WordIs(block: seq<byte>, i: nat, w: u32)
    requires |block| == 64 && i < 16
    requires IsWord(block, i, w)
    ensures Word(block, i) == w
  {
    FromFourBytes(block[4 * i..4 * i + 4]);
  }

  lemma WordsAre(block: seq<byte>, x: seq<u32>)
    requires |block| == 64 && |x| == 16
    requires forall i :: 0 <= i < 16 ==> IsWord(block, i, x[i])
    ensures Words(block) == x
  {
    hide IsWord;
    forall i | 0 <= i < 16 ensures Words(block)[i] == x[i] {
      WordIs(block, i, x[i]);
    }
  }

  lemma ByteAt(i: nat)
    requires i < 64
    ensures |MESSAGE + [0x80, 0]| == 64
    ensures (MESSAGE + [0x80, 0])[i] as nat ==
      if i < 26 then 0x41 + i else if i < 52 then 0x47 + i else if i < 62 then i - 4 else if i == 62 then 0x80 else 0
  {
  }

  /** The message and the padding bit. */
  lemma FirstBlock(block: seq<byte>)
    requires block == MESSAGE + [0x80, 0]
    ensures |block| == 64 && Words(block) == WORDS_1
  {
    hide Word, Words, From;
    ByteAt(0);
    forall i | 0 <= i < 16 ensures IsWord(block, i, WORDS_1[i]) {
      ByteAt(4 * i);
      ByteAt(4 * i + 1);
      ByteAt(4 * i + 2);
      ByteAt(4 * i + 3);
    }
    WordsAre(block, WORDS_1);
  }

  /** Zeros and the length. */
  lemma SecondBlock(block: seq<byte>)
    requires block == Zeros(56) + [0xf0, 1, 0, 0, 0, 0, 0, 0]
    ensures Words(block) == WORDS_2
  {
    hide Word;
    WordsAre(block, WORDS_2);
  }

  lemma PaddingIs()
    ensures Padding(62) == [0x80] + Zeros(57) + [0xf0, 1, 0, 0, 0, 0, 0, 0]
  {
    hide Zeros, LittleEndian;
    LengthIs();
  }

  lemma LengthIs()
    ensures LittleEndian(496, 8) == [0xf0, 1, 0, 0, 0, 0, 0, 0]
  {
    assert LittleEndian(496, 8) == [(496 % 256) as byte] + LittleEndian(496 / 256, 7);
    assert LittleEndian(1, 7) == [(1 % 256) as byte] + LittleEndian(1 / 256, 6);
    NoBytes(6);
  }

  lemma {:induction false} NoBytes(n: nat)
    ensures LittleEndian(0, n) == Zeros(n)
  {
    if n > 0 {
      NoBytes(n - 1);
      assert Zeros(n) == [0] + Zeros(n - 1);
    }
  }

  lemma OutputIs(r: Regs)
    ensures Output(r) == FourOf(r.a) + FourOf(r.b) + FourOf(r.c) + FourOf(r.d)
  {
    FourBytes(r.a);
    FourBytes(r.b);
    FourBytes(r.c);
    FourBytes(r.d);
  }

  function FourOf(n: u32): seq<byte> {
    [(n % 256) as byte, (n / 0x100 % 256) as byte, (n / 0x1_0000 % 256) as byte, (n / 0x100_0000 % 256) as byte]
  }

  /** The digest of the letters and digits is d174ab98d277d9f5a5611c2c9f419d9f. */
  lemma LettersAndDigits()
    ensures Digest(MESSAGE) == [
      0xd1, 0x74, 0xab, 0x98, 0xd2, 0x77, 0xd9, 0xf5, 0xa5, 0x61, 0x1c, 0x2c, 0x9f, 0x41, 0x9d, 0x9f]
  {
    hide Operations, Words, From, Zeros, Padding;
    var data, block1, block2 := MESSAGE + Padding(62), MESSAGE + [0x80, 0], Zeros(56) + [0xf0, 1, 0, 0, 0, 0, 0, 0];
    PaddingIs();
    FirstBlock(block1);
    SecondBlock(block2);
    assert Zeros(57) == [0] + Zeros(56) by { SplitZeros(); }
    assert data == block1 + block2;
    TwoBlocks(IV, block1, block2);
    Block1To64();
    BlockIs(IV, block1, WORDS_1, Regs(0x1cb80f0a, 0xef2e3a46, 0x10f68731, 0xea3d3eb4), START_2);
    Block2To64();
    BlockIs(START_2, block2, WORDS_2, Regs(0x14ae42c6, 0x16dd9203, 0x826afd76, 0xa52dae75), END);
    hide Blocks, Block, Output;
    OutputBytes();
  }

  lemma BlockIs(r: Regs, block: seq<byte>, x: seq<u32>, t: Regs, r': Regs)
    requires |block| == 64 && |x| == 16 && Words(block) == x && Operations(64, r, x) == t
    requires (t.a + r.a) % 0x1_0000_0000 == r'.a && (t.b + r.b) % 0x1_0000_0000 == r'.b
    requires (t.c + r.c) % 0x1_0000_0000 == r'.c && (t.d + r.d) % 0x1_0000_0000 == r'.d
    ensures Block(r, block) == r'
  {
    hide Operations, Words;
  }

  lemma OutputBytes()
    ensures Output(END) == [
      0xd1, 0x74, 0xab, 0x98, 0xd2, 0x77, 0xd9, 0xf5, 0xa5, 0x61, 0x1c, 0x2c, 0x9f, 0x41, 0x9d, 0x9f]
  {
    OutputIs(END);
    hide Output;
    assert FourOf(END.a) == [0xd1, 0x74, 0xab, 0x98] && FourOf(END.b) == [0xd2, 0x77, 0xd9, 0xf5];
    assert FourOf(END.c) == [0xa5, 0x61, 0x1c, 0x2c] && FourOf(END.d) == [0x9f, 0x41, 0x9d, 0x9f];
  }

  lemma SplitZeros()
    ensures Zeros(57) == [0] + Zeros(56)
  {
  }

  lemma TwoBlocks(r: Regs, a: seq<byte>, b: seq<byte>)
    requires |a| == |b| == 64
    ensures Blocks(r, a + b) == Block(Block(r, a), b)
  {
    hide Block;
    assert (a + b)[..64] == a && (a + b)[64..] == b && b[..64] == b && b[64..] == [];
    assert Blocks(r, a + b) == Blocks(Block(r, a), b);
    assert Blocks(Block(r, a), b) == Blocks(Block(Block(r, a), b), []);
  }
}
