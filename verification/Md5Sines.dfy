/** The constants of MD5 are what RFC 1321 says they are: the integer parts of 2 to the 32 times the
    absolute values of the sines of 1 to 64, in radians. The sine and the cosine of 1 are enclosed
    by the sums of their series, and those of the other numbers follow by the addition formulas. */
module Md5Sines {
  import opened Md5Spec

  function Factorial(n: nat): (r: nat)
    ensures r >= 1
  {
    if n == 0 then 1 else n * Factorial(n - 1)
  }

  /** The sum of the first `k` terms of the series of the sine of 1 if `odd` is 1, of its cosine if
      `odd` is 0. */
  function Sum(odd: nat, k: nat): real {
    if k == 0 then 0.0
    else
      var term := 1.0 / Factorial(2 * (k - 1) + odd) as real;
      if k % 2 == 1 then Sum(odd, k - 1) + term else Sum(odd, k - 1) - term
  }

  /** The sines `s` and cosines `c` of the natural numbers. The terms of the series at 1 get smaller and
      have alternating signs, so their sums are below and above the limit in turn; the other values
      are given by the addition formulas. */
  ghost predicate SineAndCosine(s: nat -> real, c: nat -> real) {
    && s(0) == 0.0 && c(0) == 1.0
    && (forall k: nat :: Sum(1, 2 * k) <= s(1) <= Sum(1, 2 * k + 1))
    && (forall k: nat :: Sum(0, 2 * k) <= c(1) <= Sum(0, 2 * k + 1))
    && (forall n: nat :: s(n + 1) == s(n) * c(1) + c(n) * s(1))
    && (forall n: nat :: c(n + 1) == c(n) * c(1) - s(n) * s(1))
  }

  function Abs(x: real): real {
    if x < 0.0 then -x else x
  }

  /** The integer part of 2 to the 32 times the absolute value of the sine of `n + 1` is `t`. */
  ghost predicate IsSine(s: nat -> real, n: nat, t: int) {
    t as real <= 4294967296.0 * Abs(s(n + 1)) < t as real + 1.0
  }

  // ----- Approximations -----

  /** Sines and cosines are approximated in units of which there are so many in 1. */
  const ONE: int := 1_00000_00000_00000_00000_00000
  const SIN_1: int := 84147_09848_07896_50665_25023
  const COS_1: int := 54030_23058_68139_71740_09366

  /** Approximations of a sine and a cosine, and the greatest error of both. */
  datatype Approx = Approx(sin: int, cos: int, err: int)

  /** The approximation `a` of `x` has at most the error `err`. */
  predicate Near(x: real, a: int, err: int) {
    (a - err) as real <= x * ONE as real <= (a + err) as real
  }

  ghost predicate NearAt(s: nat -> real, c: nat -> real, n: nat, p: Approx) {
    Near(s(n), p.sin, p.err) && Near(c(n), p.cos, p.err)
  }

  /** The approximations after turning those of `p` by 1. */
  predicate Follows(p: Approx, r: Approx) {
    && -ONE <= p.sin <= ONE && -ONE <= p.cos <= ONE && 0 <= p.err && 2 * r.err >= 3 * p.err + 8
    && r.sin * ONE <= p.sin * COS_1 + p.cos * SIN_1 <= (r.sin + 1) * ONE
    && r.cos * ONE <= p.cos * COS_1 - p.sin * SIN_1 <= (r.cos + 1) * ONE
  }

  /** The approximation is good enough to give the constant. */
  predicate Fits(t: int, p: Approx) {
    var a := if p.sin < 0 then -p.sin else p.sin;
    a > p.err && t * ONE <= 0x1_0000_0000 * (a - p.err) && 0x1_0000_0000 * (a + p.err) < (t + 1) * ONE
  }

  lemma Factorials()
    ensures Factorial(0) == 1 && Factorial(1) == 1
    ensures Factorial(2) == 2 && Factorial(3) == 6
    ensures Factorial(4) == 24 && Factorial(5) == 120
    ensures Factorial(6) == 720 && Factorial(7) == 5040
    ensures Factorial(8) == 40320 && Factorial(9) == 362880
    ensures Factorial(10) == 3628800 && Factorial(11) == 39916800
    ensures Factorial(12) == 479001600 && Factorial(13) == 6227020800
    ensures Factorial(14) == 87178291200 && Factorial(15) == 1307674368000
    ensures Factorial(16) == 20922789888000 && Factorial(17) == 355687428096000
    ensures Factorial(18) == 6402373705728000 && Factorial(19) == 121645100408832000
    ensures Factorial(20) == 2432902008176640000 && Factorial(21) == 51090942171709440000
    ensures Factorial(22) == 1124000727777607680000 && Factorial(23) == 25852016738884976640000
    ensures Factorial(24) == 620448401733239439360000 && Factorial(25) == 15511210043330985984000000
    ensures Factorial(26) == 403291461126605635584000000 && Factorial(27) == 10888869450418352160768000000
    ensures Factorial(28) == 304888344611713860501504000000 && Factorial(29) == 8841761993739701954543616000000
  {
  }

  lemma SumsOfSine()
    ensures SIN_1 as real <= Sum(1, 14) * ONE as real && Sum(1, 15) * ONE as real <= SIN_1 as real + 1.0
  {
    Factorials();
    hide Factorial;
    assert Sum(1, 1) == 1.0 / 1.0;
    assert Sum(1, 2) == 5.0 / 6.0;
    assert Sum(1, 3) == 101.0 / 120.0;
    assert Sum(1, 4) == 4241.0 / 5040.0;
    assert Sum(1, 5) == 305353.0 / 362880.0;
    assert Sum(1, 6) == 33588829.0 / 39916800.0;
    assert Sum(1, 7) == 5239857325.0 / 6227020800.0;
    assert Sum(1, 8) == 1100370038249.0 / 1307674368000.0;
    assert Sum(1, 9) == 299300650403729.0 / 355687428096000.0;
    assert Sum(1, 10) == 102360822438075317.0 / 121645100408832000.0;
    assert Sum(1, 11) == 42991545423991633141.0 / 51090942171709440000.0;
    assert Sum(1, 12) == 21753721984539766369345.0 / 25852016738884976640000.0;
    assert Sum(1, 13) == 13052233190723859821607001.0 / 15511210043330985984000000.0;
    assert Sum(1, 14) == 9162667699888149594768114701.0 / 10888869450418352160768000000.0;
    assert Sum(1, 15) == 7440086172309177470951709137213.0 / 8841761993739701954543616000000.0;
    assert ONE as real == 1_00000_00000_00000_00000_00000.0;
  }

  lemma SumsOfCosine()
    ensures COS_1 as real <= Sum(0, 14) * ONE as real && Sum(0, 15) * ONE as real <= COS_1 as real + 1.0
  {
    Factorials();
    hide Factorial;
    assert Sum(0, 1) == 1.0 / 1.0;
    assert Sum(0, 2) == 1.0 / 2.0;
    assert Sum(0, 3) == 13.0 / 24.0;
    assert Sum(0, 4) == 389.0 / 720.0;
    assert Sum(0, 5) == 21785.0 / 40320.0;
    assert Sum(0, 6) == 1960649.0 / 3628800.0;
    assert Sum(0, 7) == 258805669.0 / 479001600.0;
    assert Sum(0, 8) == 47102631757.0 / 87178291200.0;
    assert Sum(0, 9) == 11304631621681.0 / 20922789888000.0;
    assert Sum(0, 10) == 3459217276234385.0 / 6402373705728000.0;
    assert Sum(0, 11) == 1314502564969066301.0 / 2432902008176640000.0;
    assert Sum(0, 12) == 607300185015708631061.0 / 1124000727777607680000.0;
    assert Sum(0, 13) == 335229702128671164345673.0 / 620448401733239439360000.0;
    assert Sum(0, 14) == 217899306383636256824687449.0 / 403291461126605635584000000.0;
    assert Sum(0, 15) == 164731875626029010159463711445.0 / 304888344611713860501504000000.0;
    assert ONE as real == 1_00000_00000_00000_00000_00000.0;
  }

  lemma AtOne(s: nat -> real, c: nat -> real)
    requires SineAndCosine(s, c)
    ensures SIN_1 as real <= s(1) * ONE as real <= SIN_1 as real + 1.0
    ensures COS_1 as real <= c(1) * ONE as real <= COS_1 as real + 1.0
  {
    hide Sum;
    SumsOfSine();
    SumsOfCosine();
    assert Sum(1, 2 * 7) <= s(1) <= Sum(1, 2 * 7 + 1);
    assert Sum(0, 2 * 7) <= c(1) <= Sum(0, 2 * 7 + 1);
  }

  /** A product, kept as it is in sums. */
  function Times(x: real, y: real): real {
    x * y
  }

  /** The error of a product with a factor from `b` to `b + 1`. */
  lemma ProductError(x: real, y: real, a: real, b: real, err: real)
    requires a - err <= x <= a + err && b <= y <= b + 1.0 && 0.0 <= b && 0.0 <= err
    ensures Times(a, b) - Times(err, b + 1.0) - Abs(a) <= Times(x, y) <= Times(a, b) + Times(err, b + 1.0) + Abs(a)
  {
    Scaled(x - a, y, err, b + 1.0);
    UpTo(a, y - b);
    assert x * y == a * b + (x - a) * y + a * (y - b);
  }

  lemma Scaled(d: real, y: real, err: real, most: real)
    requires -err <= d <= err && 0.0 <= y <= most
    ensures -(err * most) <= d * y <= err * most
  {
    assert (err - d) * y >= 0.0 && (err + d) * y >= 0.0 && err * (most - y) >= 0.0;
  }

  lemma UpTo(a: real, t: real)
    requires 0.0 <= t <= 1.0
    ensures -Abs(a) <= a * t <= Abs(a)
  {
    if a >= 0.0 {
      assert 0.0 <= a * t <= a;
    } else {
      assert 0.0 <= -a * t <= -a;
      assert a * t == -(-a * t);
    }
  }

  /** The error of a sum of two such products, all values being in units. */
  lemma SumError(x: real, y: real, u: real, v: real, a: int, b: int, err: int, r: int, err': int)
    requires (a - err) as real <= x <= (a + err) as real && (b - err) as real <= y <= (b + err) as real
    requires COS_1 as real <= v <= COS_1 as real + 1.0 && SIN_1 as real <= u <= SIN_1 as real + 1.0
    requires -ONE <= a <= ONE && -ONE <= b <= ONE && 0 <= err && 2 * err' >= 3 * err + 8
    requires r * ONE <= a * COS_1 + b * SIN_1 <= (r + 1) * ONE
    ensures Times((r - err') as real, ONE as real) <= Times(x, v) + Times(y, u) <= Times((r + err') as real, ONE as real)
  {
    SumBounds(a, b, err, r, err');
    hide Times;
    ProductError(x, v, a as real, COS_1 as real, err as real);
    ProductError(y, u, b as real, SIN_1 as real, err as real);
  }

  lemma SumBounds(a: int, b: int, err: int, r: int, err': int)
    requires 0 <= err && 2 * err' >= 3 * err + 8
    requires r * ONE <= a * COS_1 + b * SIN_1 <= (r + 1) * ONE
    ensures Times((r - err') as real, ONE as real)
      <= Times(a as real, COS_1 as real) + Times(b as real, SIN_1 as real)
        - Times(err as real, COS_1 as real + 1.0) - Times(err as real, SIN_1 as real + 1.0) - 2.0 * ONE as real
    ensures Times((r + err') as real, ONE as real)
      >= Times(a as real, COS_1 as real) + Times(b as real, SIN_1 as real)
        + Times(err as real, COS_1 as real + 1.0) + Times(err as real, SIN_1 as real + 1.0) + 2.0 * ONE as real
  {
    assert 2 * (COS_1 + SIN_1 + 2) <= 3 * ONE;
    assert err * (3 * ONE - 2 * (COS_1 + SIN_1 + 2)) >= 0;
    hide Times;
    Cast(a, COS_1);
    Cast(b, SIN_1);
    Cast(err, COS_1 + 1);
    Cast(err, SIN_1 + 1);
    Cast(r - err', ONE);
    Cast(r + err', ONE);
  }

  lemma Cast(x: int, y: int)
    ensures (x * y) as real == Times(x as real, y as real)
  {
  }

  /** From units of units to units. */
  lemma InUnits(x: real, v: real, y: real, u: real, lo: int, hi: int)
    requires Times(lo as real, ONE as real)
      <= Times(x * ONE as real, v * ONE as real) + Times(y * ONE as real, u * ONE as real)
      <= Times(hi as real, ONE as real)
    ensures lo as real <= (x * v + y * u) * ONE as real <= hi as real
  {
    var one := ONE as real;
    var z := (x * v + y * u) * one;
    assert (x * one) * (v * one) + (y * one) * (u * one) == z * one;
  }

  lemma Formulas(s: nat -> real, c: nat -> real, n: nat)
    requires SineAndCosine(s, c)
    ensures s(n + 1) == s(n) * c(1) + c(n) * s(1) && c(n + 1) == c(n) * c(1) - s(n) * s(1)
  {
    hide Sum;
  }

  lemma SineNear(x: real, y: real, u: real, v: real, z: real, p: Approx, r: Approx)
    requires Near(x, p.sin, p.err) && Near(y, p.cos, p.err) && Follows(p, r) && z == x * v + y * u
    requires SIN_1 as real <= u * ONE as real <= SIN_1 as real + 1.0
    requires COS_1 as real <= v * ONE as real <= COS_1 as real + 1.0
    ensures Near(z, r.sin, r.err)
  {
    hide Times;
    var one := ONE as real;
    SumError(x * one, y * one, u * one, v * one, p.sin, p.cos, p.err, r.sin, r.err);
    InUnits(x, v, y, u, r.sin - r.err, r.sin + r.err);
  }

  lemma CosineNear(x: real, y: real, u: real, v: real, z: real, p: Approx, r: Approx)
    requires Near(x, p.sin, p.err) && Near(y, p.cos, p.err) && Follows(p, r) && z == y * v - x * u
    requires SIN_1 as real <= u * ONE as real <= SIN_1 as real + 1.0
    requires COS_1 as real <= v * ONE as real <= COS_1 as real + 1.0
    ensures Near(z, r.cos, r.err)
  {
    hide Times;
    var one, x' := ONE as real, -x;
    assert x' * one == -(x * one) && x' * u == -(x * u);
    SumError(y * one, x' * one, u * one, v * one, p.cos, -p.sin, p.err, r.cos, r.err);
    InUnits(y, v, x', u, r.cos - r.err, r.cos + r.err);
  }

  /** From the approximations at `n` to those at `n + 1`, and to the constant of operation `n`. */
  lemma Next(s: nat -> real, c: nat -> real, n: nat, p: Approx, r: Approx, t: int)
    requires SineAndCosine(s, c) && NearAt(s, c, n, p) && Follows(p, r) && Fits(t, r)
    ensures NearAt(s, c, n + 1, r) && IsSine(s, n, t)
  {
    hide SineAndCosine, Near, Follows, Fits, IsSine;
    AtOne(s, c);
    Formulas(s, c, n);
    SineNear(s(n), c(n), s(1), c(1), s(n + 1), p, r);
    CosineNear(s(n), c(n), s(1), c(1), c(n + 1), p, r);
    SineFits(s, n, r, t);
  }

  lemma SineFits(s: nat -> real, n: nat, r: Approx, t: int)
    requires Near(s(n + 1), r.sin, r.err) && Fits(t, r)
    ensures IsSine(s, n, t)
  {
  }

  // ----- The approximations of the sines and cosines of 1 to 64 -----

  function A1(n: nat): Approx {
    match n
    case 0 => Approx(84147_09848_07896_50665_25023, 54030_23058_68139_71740_09366, 4)
    case 1 => Approx(90929_74268_25681_69539_60198, -41614_68365_47142_38699_75683, 10)
    case 2 => Approx(14112_00080_59867_22210_07447, -98999_24966_00445_45727_15728, 19)
    case 3 => Approx(-75680_24953_07928_25137_26392, -65364_36208_63611_91463_91681, 33)
    case 4 => Approx(-95892_42746_63138_46889_31544, 28366_21854_63226_26446_66392, 54)
    case 5 => Approx(-27941_54981_98925_87281_15555, 96017_02866_50366_02054_56522, 85)
    case 6 => Approx(65698_65987_18789_09039_69989, 75390_22543_43304_63814_11975, 132)
    case 7 => Approx(98935_82466_23381_77780_81234, -14550_00338_08613_52586_88413, 202)
    case 8 => Approx(41211_84852_41756_56975_62725, -91113_02618_84676_98836_82945, 307)
    case 9 => Approx(-54402_11108_89369_81340_47476, -83907_15290_76452_45225_88638, 465)
    case 10 => Approx(-99999_02065_50703_45705_15648, 442_56979_88050_78574_83550, 702)
    case 11 => Approx(-53657_29180_00434_97166_53742, 84385_39587_32492_10465_39551, 1057)
    case 12 => Approx(42016_70368_26640_92186_89548, 90744_67814_50196_21385_26860, 1590)
    case 13 => Approx(99060_73556_94870_30787_53545, 13673_72182_07833_59424_89289, 2389)
    case 14 => Approx(65028_78401_57116_86582_97401, -75968_79128_58821_27384_81462, 3588)
    case _ => Approx(-28790_33166_65065_29478_44562, -95765_94803_23384_64189_96370, 5386)
  }

  function A2(n: nat): Approx {
    match n
    case 0 => Approx(-96139_74918_79556_85726_16368, -27516_33380_51596_92222_03426, 8083)
    case 1 => Approx(-75098_72467_71676_10375_01560, 66031_67082_44080_14481_60999, 12129)
    case 2 => Approx(14987_72096_62952_32975_42392, 98870_46181_86669_25289_83526, 18198)
    case 3 => Approx(91294_52507_27627_65437_60996, 40808_20618_13391_98606_22678, 27301)
    case 4 => Approx(83665_56385_36056_03186_64804, -54772_92602_24268_42138_42709, 40956)
    case 5 => Approx(-885_13092_90403_87592_16903, -99996_08263_94637_12645_41743, 61438)
    case 6 => Approx(-84622_04041_75170_63524_13260, -53283_30203_33397_55521_57574, 92161)
    case 7 => Approx(-90557_83620_06623_84513_57930, 42417_90073_36996_97593_70508, 1_38246)
    case 8 => Approx(-13235_17500_97773_02890_20051, 99120_28118_63473_59808_32943, 2_07373)
    case 9 => Approx(76255_84504_79602_73751_58229, 64691_93223_28640_34272_13836, 3_11064)
    case 10 => Approx(95637_59284_04503_01343_23400, -29213_88087_33836_19337_14047, 4_66600)
    case 11 => Approx(27090_57883_07869_01998_63429, -96260_58663_13566_60197_54525, 6_99904)
    case 12 => Approx(-66363_38842_12967_50215_11730, -74805_75296_89000_35176_51914, 10_49860)
    case 13 => Approx(-98803_16240_92861_78998_77484, 15425_14498_87584_05071_86620, 15_74794)
    case 14 => Approx(-40403_76453_23065_00604_87708, 91474_23578_04531_27896_24352, 23_62195)
    case _ => Approx(55142_66812_41690_55066_15576, 83422_33605_06510_27221_55260, 35_43297)
  }

  function A3(n: nat): Approx {
    match n
    case 0 => Approx(99991_18601_07267_14572_80836, -1327_67472_23059_47891_52199, 53_14950)
    case 1 => Approx(52908_26861_20023_82083_24868, -84857_02747_84605_18659_99714, 79_72429)
    case 2 => Approx(-42818_26694_96151_00440_67525, -90369_22050_91506_75984_73040, 119_58648)
    case 3 => Approx(-99177_88534_43115_73683_52883, -12796_36896_27404_68102_83281, 179_37976)
    case 4 => Approx(-64353_81333_56999_46068_56698, 76541_40519_45343_35649_10806, 269_06968)
    case 5 => Approx(29636_85787_09385_31739_22961, 95507_36440_47294_85758_65356, 403_60456)
    case 6 => Approx(96379_53862_84087_75326_06641, 26664_29323_59937_25152_68259, 605_40688)
    case 7 => Approx(74511_31604_79348_78698_77090, -66693_80616_52261_84438_40920, 908_11036)
    case 8 => Approx(-15862_26688_04708_98710_33166, -98733_92775_23826_45822_88244, 1362_16558)
    case 9 => Approx(-91652_15479_15633_78589_89883, -39998_53149_88351_29395_47073, 2043_24841)
    case 10 => Approx(-83177_47426_28598_28820_95778, 55511_33015_20625_67704_48787, 3064_87266)
    case 11 => Approx(1770_19251_05413_57780_79536, 99984_33086_47691_22006_90082, 4597_30903)
    case 12 => Approx(85090_35245_34118_42486_23787, 52532_19888_17729_69604_74643, 6895_96359)
    case 13 => Approx(90178_83476_48809_18503_32924, -43217_79448_84778_29495_27758, 10343_94543)
    case 14 => Approx(12357_31227_45224_00406_15296, -99233_54691_50928_71827_97515, 15515_91819)
    case _ => Approx(-76825_46613_23666_79904_49648, -64014_43394_69199_73131_29412, 23273_87733)
  }

  function A4(n: nat): Approx {
    match n
    case 0 => Approx(-95375_26527_59471_81836_04229, 30059_25437_43637_08368_70253, 34910_81604)
    case 1 => Approx(-26237_48537_03928_78591_43939, 96496_60284_92113_27406_89561, 52366_22410)
    case 2 => Approx(67022_91758_43374_73449_43441, 74215_41968_13782_53946_73768, 78549_33619)
    case 3 => Approx(98662_75920_40485_29658_75680, -16299_07807_95705_48100_33292, 1_17824_00433)
    case 4 => Approx(39592_51501_81834_18150_33861, -91828_27862_12118_89119_97252, 1_76736_00654)
    case 5 => Approx(-55878_90488_51616_24581_78704, -82930_98328_63150_14772_78494, 2_65104_00985)
    case 6 => Approx(-99975_51733_58619_83659_86307, 2212_67562_61955_73456_35638, 3_97656_01482)
    case 7 => Approx(-52155_10020_86911_88018_74099, 85322_01077_22584_11396_96801, 5_96484_02227)
    case 8 => Approx(43616_47552_47824_95908_05338, 89986_68269_69193_78650_29996, 8_94726_03345)
    case 9 => Approx(99287_26480_84537_11816_50869, 11918_01354_48819_28543_58440, 13_42089_05022)
    case 10 => Approx(63673_80071_39137_88077_12331, -77108_02229_75845_22938_74341, 20_13133_57537)
    case 11 => Approx(-30481_06211_02216_70562_56487, -95241_29804_15156_29269_38156, 30_19700_36310)
    case 12 => Approx(-96611_77700_08392_94701_82868, -25810_16359_38267_44570_12075, 45_29550_54469)
    case 13 => Approx(-73918_06966_49222_86727_60165, 67350_71623_23586_25288_78323, 67_94325_81708)
    case 14 => Approx(16735_57003_02806_92152_78376, 98589_65815_82549_69743_86347, 101_91488_72566)
    case _ => Approx(92002_60381_96790_68335_15352, 39185_72304_29550_00516_17099, 152_87233_08853)
  }

  /** The approximations for `n`. */
  function At(n: nat): Approx {
    if n == 0 then Approx(0, ONE, 0)
    else if n <= 16 then A1(n - 1) else if n <= 32 then A2(n - 17) else if n <= 48 then A3(n - 33) else A4(n - 49)
  }

  predicate RowOk(n: nat) {
    Follows(At(n), At(n + 1)) && Fits(T(n), At(n + 1))
  }

  lemma Rows1(n: nat)
    requires 0 <= n < 8
    ensures RowOk(n)
  {
  }

  lemma Rows2(n: nat)
    requires 8 <= n < 16
    ensures RowOk(n)
  {
  }

  lemma Rows3(n: nat)
    requires 16 <= n < 24
    ensures RowOk(n)
  {
  }

  lemma Rows4(n: nat)
    requires 24 <= n < 32
    ensures RowOk(n)
  {
  }

  lemma Rows5(n: nat)
    requires 32 <= n < 40
    ensures RowOk(n)
  {
  }

  lemma Rows6(n: nat)
    requires 40 <= n < 48
    ensures RowOk(n)
  {
  }

  lemma Rows7(n: nat)
    requires 48 <= n < 56
    ensures RowOk(n)
  {
  }

  lemma Rows8(n: nat)
    requires 56 <= n < 64
    ensures RowOk(n)
  {
  }

  lemma StartAt(s: nat -> real, c: nat -> real)
    requires SineAndCosine(s, c)
    ensures NearAt(s, c, 0, At(0))
  {
  }

  lemma Rows(n: nat)
    requires n < 64
    ensures RowOk(n)
  {
    hide RowOk;
    if n < 8 { Rows1(n); } else if n < 16 { Rows2(n); } else if n < 24 { Rows3(n); } else if n < 32 { Rows4(n); }
    else if n < 40 { Rows5(n); } else if n < 48 { Rows6(n); } else if n < 56 { Rows7(n); } else { Rows8(n); }
  }

  lemma {:induction false} NearUpTo(s: nat -> real, c: nat -> real, n: nat)
    requires SineAndCosine(s, c) && n <= 64
    ensures NearAt(s, c, n, At(n))
    ensures n > 0 ==> IsSine(s, n - 1, T(n - 1))
  {
    hide SineAndCosine, NearAt, IsSine, Follows, Fits, At, T;
    if n == 0 {
      StartAt(s, c);
    } else {
      NearUpTo(s, c, n - 1);
      Rows(n - 1);
      Next(s, c, n - 1, At(n - 1), At(n), T(n - 1));
    }
  }

  /** All 64 constants are those of RFC 1321, section 3.4. */
  lemma TableOfSines(s: nat -> real, c: nat -> real, n: nat)
    requires SineAndCosine(s, c) && n < 64
    ensures T(n) as real <= 4294967296.0 * Abs(s(n + 1)) < T(n) as real + 1.0
  {
    hide SineAndCosine, NearAt, T;
    NearUpTo(s, c, n + 1);
  }
}
