/** The 16 bit checksum of rlink packets. The source keeps a 256 entry table; here the
    table is shown to be the division of Gf2Poly, and its error detection is derived. */
module RlinkCrc16 {
  import opened Gf2Poly
  import opened Words
  import Checksum

  /** The 256 update words, in the 32 lines of 8 of the source. */
  const ROW0: seq<word> := [    0,  4129,  8258, 12387, 16516, 20645, 24774, 28903]
  const ROW1: seq<word> := [33032, 37161, 41290, 45419, 49548, 53677, 57806, 61935]
  const ROW2: seq<word> := [ 4657,   528, 12915,  8786, 21173, 17044, 29431, 25302]
  const ROW3: seq<word> := [37689, 33560, 45947, 41818, 54205, 50076, 62463, 58334]
  const ROW4: seq<word> := [ 9314, 13379,  1056,  5121, 25830, 29895, 17572, 21637]
  const ROW5: seq<word> := [42346, 46411, 34088, 38153, 58862, 62927, 50604, 54669]
  const ROW6: seq<word> := [13907,  9842,  5649,  1584, 30423, 26358, 22165, 18100]
  const ROW7: seq<word> := [46939, 42874, 38681, 34616, 63455, 59390, 55197, 51132]
  const ROW8: seq<word> := [18628, 22757, 26758, 30887,  2112,  6241, 10242, 14371]
  const ROW9: seq<word> := [51660, 55789, 59790, 63919, 35144, 39273, 43274, 47403]
  const ROW10: seq<word> := [23285, 19156, 31415, 27286,  6769,  2640, 14899, 10770]
  const ROW11: seq<word> := [56317, 52188, 64447, 60318, 39801, 35672, 47931, 43802]
  const ROW12: seq<word> := [27814, 31879, 19684, 23749, 11298, 15363,  3168,  7233]
  const ROW13: seq<word> := [60846, 64911, 52716, 56781, 44330, 48395, 36200, 40265]
  const ROW14: seq<word> := [32407, 28342, 24277, 20212, 15891, 11826,  7761,  3696]
  const ROW15: seq<word> := [65439, 61374, 57309, 53244, 48923, 44858, 40793, 36728]
  const ROW16: seq<word> := [37256, 33193, 45514, 41451, 53516, 49453, 61774, 57711]
  const ROW17: seq<word> := [ 4224,   161, 12482,  8419, 20484, 16421, 28742, 24679]
  const ROW18: seq<word> := [33721, 37784, 41979, 46042, 49981, 54044, 58239, 62302]
  const ROW19: seq<word> := [  689,  4752,  8947, 13010, 16949, 21012, 25207, 29270]
  const ROW20: seq<word> := [46570, 42443, 38312, 34185, 62830, 58703, 54572, 50445]
  const ROW21: seq<word> := [13538,  9411,  5280,  1153, 29798, 25671, 21540, 17413]
  const ROW22: seq<word> := [42971, 47098, 34713, 38840, 59231, 63358, 50973, 55100]
  const ROW23: seq<word> := [ 9939, 14066,  1681,  5808, 26199, 30326, 17941, 22068]
  const ROW24: seq<word> := [55628, 51565, 63758, 59695, 39368, 35305, 47498, 43435]
  const ROW25: seq<word> := [22596, 18533, 30726, 26663,  6336,  2273, 14466, 10403]
  const ROW26: seq<word> := [52093, 56156, 60223, 64286, 35833, 39896, 43963, 48026]
  const ROW27: seq<word> := [19061, 23124, 27191, 31254,  2801,  6864, 10931, 14994]
  const ROW28: seq<word> := [64814, 60687, 56684, 52557, 48554, 44427, 40424, 36297]
  const ROW29: seq<word> := [31782, 27655, 23652, 19525, 15522, 11395,  7392,  3265]
  const ROW30: seq<word> := [61215, 65342, 53085, 57212, 44955, 49082, 36825, 40952]
  const ROW31: seq<word> := [28183, 32310, 20053, 24180, 11923, 16050,  3793,  7920]

  const CRC_ROWS: seq<seq<word>> := [
    ROW0, ROW1, ROW2, ROW3, ROW4, ROW5, ROW6, ROW7,
    ROW8, ROW9, ROW10, ROW11, ROW12, ROW13, ROW14, ROW15,
    ROW16, ROW17, ROW18, ROW19, ROW20, ROW21, ROW22, ROW23,
    ROW24, ROW25, ROW26, ROW27, ROW28, ROW29, ROW30, ROW31
  ]

  lemma {:induction false} RowsShape()
    ensures |CRC_ROWS| == 32 && forall r :: 0 <= r < 32 ==> |CRC_ROWS[r]| == 8
  {
  }

  function CrcTable(): Table {
    RowsShape();
    CRC_ROWS
  }

  type Table = t: seq<seq<word>> | |t| == 32 && forall r :: 0 <= r < 32 ==> |t[r]| == 8
    witness seq(32, _ => [0, 0, 0, 0, 0, 0, 0, 0])

  /** The word for byte i. */
  function At(t: Table, i: byte): word { t[i / 8][i % 8] }

  /** One accumulator step, AddData. */
  function AddData(crc: word, data: byte): word {
    var tmp := Xor8(crc / 256, data);
    Xor16((crc * 256) % 0x1_0000, At(CrcTable(), tmp))
  }

  /** The checksum of a message from a start value. */
  function Crc(crc: word, msg: seq<byte>): word {
    Checksum.Sum(AddData, crc, msg)
  }

  // ------------------------------------------------------------- the table

  /** Adds the generator below its leading term: bits 12, 5 and 0 are inverted. */
  function AddGenerator(w: nat): nat {
    var a := if w % 8192 < 4096 then w + 4096 else w - 4096;
    var b := if a % 64 < 32 then a + 32 else a - 32;
    if b % 2 == 0 then b + 1 else b - 1
  }

  /** The table word of u*x, from the one of u. */
  function TimesX(w: word): nat {
    if w < 0x8000 then 2 * w else AddGenerator(2 * w - 0x1_0000)
  }

  lemma {:induction false} DigitTest12(b: seq<bool>)
    requires |b| == 16
    ensures b[3] <==> Value(b) % 8192 >= 4096
  {
    var hi, lo := b[..4], b[4..];
    assert b == hi + lo;
    ValueAppend(hi, lo);
    Shl12(Value(hi));
    ValueSteps(hi, 3);
    assert hi[..4] == hi;
    Pow2Values();
    Modulo8192(Value(b), Value(hi[..3]), b[3], Value(lo));
  }

  lemma {:induction false} DigitTest5(b: seq<bool>)
    requires |b| == 16
    ensures b[10] <==> Value(b) % 64 >= 32
  {
    var hi, lo := b[..11], b[11..];
    assert b == hi + lo;
    ValueAppend(hi, lo);
    Shl5(Value(hi));
    ValueSteps(hi, 10);
    assert hi[..11] == hi;
    Pow2Values();
    Modulo64(Value(b), Value(hi[..10]), b[10], Value(lo));
  }

  lemma {:induction false} Modulo8192(v: nat, hi: nat, d: bool, lo: int)
    requires v == 8192 * hi + (if d then 4096 else 0) + lo && 0 <= lo < 4096
    ensures d <==> v % 8192 >= 4096
  {
    assert v % 8192 == (if d then 4096 else 0) + lo;
  }

  lemma {:induction false} Modulo64(v: nat, hi: nat, d: bool, lo: int)
    requires v == 64 * hi + (if d then 32 else 0) + lo && 0 <= lo < 32
    ensures d <==> v % 64 >= 32
  {
    assert v % 64 == (if d then 32 else 0) + lo;
  }

  lemma {:induction false} GeneratorFlips(b: seq<bool>)
    requires |b| == 16
    ensures Add(b, GENERATOR[1..]) == b[3 := !b[3]][10 := !b[10]][15 := !b[15]]
  {
  }

  lemma {:induction false} FlipStep12(b: seq<bool>, c: seq<bool>, v: nat, w: nat)
    requires |b| == 16 && c == b[3 := !b[3]] && v == Value(b) && w == Value(c)
    ensures w == (if b[3] then v - 4096 else v + 4096) && (b[3] <==> v % 8192 >= 4096)
  {
    Pow2Values();
    ValueFlip(b, 3);
    DigitTest12(b);
  }

  lemma {:induction false} FlipStep5(b: seq<bool>, c: seq<bool>, v: nat, w: nat)
    requires |b| == 16 && c == b[10 := !b[10]] && v == Value(b) && w == Value(c)
    ensures w == (if b[10] then v - 32 else v + 32) && (b[10] <==> v % 64 >= 32)
  {
    Pow2Values();
    ValueFlip(b, 10);
    DigitTest5(b);
  }

  lemma {:induction false} FlipStep0(b: seq<bool>, c: seq<bool>, v: nat, w: nat)
    requires |b| == 16 && c == b[15 := !b[15]] && v == Value(b) && w == Value(c)
    ensures w == (if b[15] then v - 1 else v + 1) && (b[15] <==> v % 2 == 1)
  {
    ValueFlip(b, 15);
  }

  /** On 16 bits, AddGenerator adds the low terms of the generator. */
  lemma {:induction false} AddGeneratorBits(b: seq<bool>, c: seq<bool>, v: nat, w: nat)
    requires |b| == 16 && c == Add(b, GENERATOR[1..]) && v == Value(b) && w == Value(c)
    ensures w == AddGenerator(v)
  {
    var b1 := b[3 := !b[3]];
    var b2 := b1[10 := !b1[10]];
    var b3 := b2[15 := !b2[15]];
    var v1, v2, v3 := Value(b1), Value(b2), Value(b3);
    FlipStep12(b, b1, v, v1);
    FlipStep5(b1, b2, v1, v2);
    FlipStep0(b2, b3, v2, v3);
    ThreeFlips(v, b[3], v1, b1[10], v2, b2[15]);
    GeneratorFlips(b);
  }

  lemma {:induction false} ThreeFlips(v: nat, x: bool, v1: nat, y: bool, v2: nat, z: bool)
    requires v1 == (if x then v - 4096 else v + 4096) && (x <==> v % 8192 >= 4096)
    requires v2 == (if y then v1 - 32 else v1 + 32) && (y <==> v1 % 64 >= 32)
    requires z <==> v2 % 2 == 1
    ensures AddGenerator(v) == if z then v2 - 1 else v2 + 1
  {
  }

  lemma {:induction false} CancelTop(b: seq<bool>)
    requires |b| == 16
    ensures var e := b[1..] + [false];
            Cancel(b + [false]) == if b[0] then Add(e, GENERATOR[1..]) else e
  {
    var d, e := b + [false], b[1..] + [false];
    assert d[1..] == e;
    if !b[0] {
      CancelNothing(d);
    } else {
      var s := Scale(d[0], GENERATOR);
      forall k | 0 <= k < 16
        ensures Cancel(d)[k] == Add(e, GENERATOR[1..])[k]
      {
        assert AddFront(d, s)[k + 1] == (d[k + 1] != s[k + 1]);
      }
    }
  }

  lemma {:induction false} TopBit(b: seq<bool>)
    requires |b| == 16
    ensures Value(b) == 0x8000 * Digit(b[0]) + Value(b[1..]) && Value(b[1..]) < 0x8000
  {
    assert b == [b[0]] + b[1..];
    ValueCons(b[0], b[1..]);
    Pow2Values();
  }

  lemma {:induction false} ValueDouble(b: seq<bool>)
    ensures Value(b + [false]) == 2 * Value(b)
  {
    assert (b + [false])[..|b|] == b;
  }

  lemma {:induction false} DoubledValue(b: seq<bool>, e: seq<bool>, v: nat)
    requires |b| == 16 && e == b[1..] + [false] && v == Value(b)
    ensures v < 0x1_0000 && (b[0] <==> v >= 0x8000)
    ensures Value(e) == 2 * v - if b[0] then 0x1_0000 else 0
  {
    TopBit(b);
    ValueDouble(b[1..]);
  }

  lemma {:induction false} TimesXCases(v: word, top: bool, u: int, w: int)
    requires top <==> v >= 0x8000
    requires u == 2 * v - if top then 0x1_0000 else 0
    requires w == if top then AddGenerator(u) else u
    ensures w == TimesX(v)
  {
  }

  lemma {:induction false} TimesXBits(b: seq<bool>, c: seq<bool>, e: seq<bool>, v: nat, w: nat)
    requires |b| == 16 && e == b[1..] + [false]
    requires c == if b[0] then Add(e, GENERATOR[1..]) else e
    requires v == Value(b) && w == Value(c)
    ensures v < 0x1_0000 && w == TimesX(v)
  {
    var u := Value(e);
    DoubledValue(b, e, v);
    if b[0] {
      AddGeneratorBits(e, c, u, w);
    }
    TimesXCases(v, b[0], u, w);
  }

  /** even and odd are the table words of 2u and 2u+1, when w is the one of u. */
  ghost predicate Doubles(w: word, even: word, odd: word) {
    even == TimesX(w) && odd == AddGenerator(even)
  }

  /** out holds the 8 words derived from a[k..k+4]. */
  ghost predicate FourDouble(a: seq<word>, k: nat, out: seq<word>)
    requires |a| == |out| == 8 && k <= 4
  {
    && Doubles(a[k], out[0], out[1]) && Doubles(a[k + 1], out[2], out[3])
    && Doubles(a[k + 2], out[4], out[5]) && Doubles(a[k + 3], out[6], out[7])
  }

  ghost predicate RowDoubles(t: Table, r: nat)
    requires r < 16
  {
    FourDouble(t[r], 0, t[2 * r]) && FourDouble(t[r], 4, t[2 * r + 1])
  }

  /** Rows 2r and 2r+1 follow from row r. */
  ghost predicate TableDoubles(t: Table) {
    forall r :: 0 <= r < 16 ==> RowDoubles(t, r)
  }

  lemma {:induction false} HighDoubles(w: word, u: nat, even: word, odd: word)
    requires w >= 0x8000 && u == 2 * w - 0x1_0000 && AddGenerator(u) == even && AddGenerator(even) == odd
    ensures Doubles(w, even, odd)
  {
  }

  lemma {:induction false} Row0Low() ensures FourDouble(ROW0, 0, ROW0) {
    assert Doubles(0, 0, 4129) && Doubles(4129, 8258, 12387);
    assert Doubles(8258, 16516, 20645) && Doubles(12387, 24774, 28903);
  }
  lemma {:induction false} Row0High() ensures FourDouble(ROW0, 4, ROW1) {
    assert Doubles(16516, 33032, 37161) && Doubles(20645, 41290, 45419);
    assert Doubles(24774, 49548, 53677) && Doubles(28903, 57806, 61935);
  }
  lemma {:induction false} Row1Low() ensures FourDouble(ROW1, 0, ROW2) {
    HighDoubles(33032, 528, 4657, 528);
    HighDoubles(37161, 8786, 12915, 8786);
    HighDoubles(41290, 17044, 21173, 17044);
    HighDoubles(45419, 25302, 29431, 25302);
  }
  lemma {:induction false} Row1High() ensures FourDouble(ROW1, 4, ROW3) {
    HighDoubles(49548, 33560, 37689, 33560);
    HighDoubles(53677, 41818, 45947, 41818);
    HighDoubles(57806, 50076, 54205, 50076);
    HighDoubles(61935, 58334, 62463, 58334);
  }
  lemma {:induction false} Row2Low() ensures FourDouble(ROW2, 0, ROW4) {
    assert Doubles(4657, 9314, 13379) && Doubles(528, 1056, 5121);
    assert Doubles(12915, 25830, 29895) && Doubles(8786, 17572, 21637);
  }
  lemma {:induction false} Row2High() ensures FourDouble(ROW2, 4, ROW5) {
    assert Doubles(21173, 42346, 46411) && Doubles(17044, 34088, 38153);
    assert Doubles(29431, 58862, 62927) && Doubles(25302, 50604, 54669);
  }
  lemma {:induction false} Row3Low() ensures FourDouble(ROW3, 0, ROW6) {
    HighDoubles(37689, 9842, 13907, 9842);
    HighDoubles(33560, 1584, 5649, 1584);
    HighDoubles(45947, 26358, 30423, 26358);
    HighDoubles(41818, 18100, 22165, 18100);
  }
  lemma {:induction false} Row3High() ensures FourDouble(ROW3, 4, ROW7) {
    HighDoubles(54205, 42874, 46939, 42874);
    HighDoubles(50076, 34616, 38681, 34616);
    HighDoubles(62463, 59390, 63455, 59390);
    HighDoubles(58334, 51132, 55197, 51132);
  }
  lemma {:induction false} Row4Low() ensures FourDouble(ROW4, 0, ROW8) {
    assert Doubles(9314, 18628, 22757) && Doubles(13379, 26758, 30887);
    assert Doubles(1056, 2112, 6241) && Doubles(5121, 10242, 14371);
  }
  lemma {:induction false} Row4High() ensures FourDouble(ROW4, 4, ROW9) {
    assert Doubles(25830, 51660, 55789) && Doubles(29895, 59790, 63919);
    assert Doubles(17572, 35144, 39273) && Doubles(21637, 43274, 47403);
  }
  lemma {:induction false} Row5Low() ensures FourDouble(ROW5, 0, ROW10) {
    HighDoubles(42346, 19156, 23285, 19156);
    HighDoubles(46411, 27286, 31415, 27286);
    HighDoubles(34088, 2640, 6769, 2640);
    HighDoubles(38153, 10770, 14899, 10770);
  }
  lemma {:induction false} Row5High() ensures FourDouble(ROW5, 4, ROW11) {
    HighDoubles(58862, 52188, 56317, 52188);
    HighDoubles(62927, 60318, 64447, 60318);
    HighDoubles(50604, 35672, 39801, 35672);
    HighDoubles(54669, 43802, 47931, 43802);
  }
  lemma {:induction false} Row6Low() ensures FourDouble(ROW6, 0, ROW12) {
    assert Doubles(13907, 27814, 31879) && Doubles(9842, 19684, 23749);
    assert Doubles(5649, 11298, 15363) && Doubles(1584, 3168, 7233);
  }
  lemma {:induction false} Row6High() ensures FourDouble(ROW6, 4, ROW13) {
    assert Doubles(30423, 60846, 64911) && Doubles(26358, 52716, 56781);
    assert Doubles(22165, 44330, 48395) && Doubles(18100, 36200, 40265);
  }
  lemma {:induction false} Row7Low() ensures FourDouble(ROW7, 0, ROW14) {
    HighDoubles(46939, 28342, 32407, 28342);
    HighDoubles(42874, 20212, 24277, 20212);
    HighDoubles(38681, 11826, 15891, 11826);
    HighDoubles(34616, 3696, 7761, 3696);
  }
  lemma {:induction false} Row7High() ensures FourDouble(ROW7, 4, ROW15) {
    HighDoubles(63455, 61374, 65439, 61374);
    HighDoubles(59390, 53244, 57309, 53244);
    HighDoubles(55197, 44858, 48923, 44858);
    HighDoubles(51132, 36728, 40793, 36728);
  }
  lemma {:induction false} Row8Low() ensures FourDouble(ROW8, 0, ROW16) {
    assert Doubles(18628, 37256, 33193) && Doubles(22757, 45514, 41451);
    assert Doubles(26758, 53516, 49453) && Doubles(30887, 61774, 57711);
  }
  lemma {:induction false} Row8High() ensures FourDouble(ROW8, 4, ROW17) {
    assert Doubles(2112, 4224, 161) && Doubles(6241, 12482, 8419);
    assert Doubles(10242, 20484, 16421) && Doubles(14371, 28742, 24679);
  }
  lemma {:induction false} Row9Low() ensures FourDouble(ROW9, 0, ROW18) {
    HighDoubles(51660, 37784, 33721, 37784);
    HighDoubles(55789, 46042, 41979, 46042);
    HighDoubles(59790, 54044, 49981, 54044);
    HighDoubles(63919, 62302, 58239, 62302);
  }
  lemma {:induction false} Row9High() ensures FourDouble(ROW9, 4, ROW19) {
    HighDoubles(35144, 4752, 689, 4752);
    HighDoubles(39273, 13010, 8947, 13010);
    HighDoubles(43274, 21012, 16949, 21012);
    HighDoubles(47403, 29270, 25207, 29270);
  }
  lemma {:induction false} Row10Low() ensures FourDouble(ROW10, 0, ROW20) {
    assert Doubles(23285, 46570, 42443) && Doubles(19156, 38312, 34185);
    assert Doubles(31415, 62830, 58703) && Doubles(27286, 54572, 50445);
  }
  lemma {:induction false} Row10High() ensures FourDouble(ROW10, 4, ROW21) {
    assert Doubles(6769, 13538, 9411) && Doubles(2640, 5280, 1153);
    assert Doubles(14899, 29798, 25671) && Doubles(10770, 21540, 17413);
  }
  lemma {:induction false} Row11Low() ensures FourDouble(ROW11, 0, ROW22) {
    HighDoubles(56317, 47098, 42971, 47098);
    HighDoubles(52188, 38840, 34713, 38840);
    HighDoubles(64447, 63358, 59231, 63358);
    HighDoubles(60318, 55100, 50973, 55100);
  }
  lemma {:induction false} Row11High() ensures FourDouble(ROW11, 4, ROW23) {
    HighDoubles(39801, 14066, 9939, 14066);
    HighDoubles(35672, 5808, 1681, 5808);
    HighDoubles(47931, 30326, 26199, 30326);
    HighDoubles(43802, 22068, 17941, 22068);
  }
  lemma {:induction false} Row12Low() ensures FourDouble(ROW12, 0, ROW24) {
    assert Doubles(27814, 55628, 51565) && Doubles(31879, 63758, 59695);
    assert Doubles(19684, 39368, 35305) && Doubles(23749, 47498, 43435);
  }
  lemma {:induction false} Row12High() ensures FourDouble(ROW12, 4, ROW25) {
    assert Doubles(11298, 22596, 18533) && Doubles(15363, 30726, 26663);
    assert Doubles(3168, 6336, 2273) && Doubles(7233, 14466, 10403);
  }
  lemma {:induction false} Row13Low() ensures FourDouble(ROW13, 0, ROW26) {
    HighDoubles(60846, 56156, 52093, 56156);
    HighDoubles(64911, 64286, 60223, 64286);
    HighDoubles(52716, 39896, 35833, 39896);
    HighDoubles(56781, 48026, 43963, 48026);
  }
  lemma {:induction false} Row13High() ensures FourDouble(ROW13, 4, ROW27) {
    HighDoubles(44330, 23124, 19061, 23124);
    HighDoubles(48395, 31254, 27191, 31254);
    HighDoubles(36200, 6864, 2801, 6864);
    HighDoubles(40265, 14994, 10931, 14994);
  }
  lemma {:induction false} Row14Low() ensures FourDouble(ROW14, 0, ROW28) {
    assert Doubles(32407, 64814, 60687) && Doubles(28342, 56684, 52557);
    assert Doubles(24277, 48554, 44427) && Doubles(20212, 40424, 36297);
  }
  lemma {:induction false} Row14High() ensures FourDouble(ROW14, 4, ROW29) {
    assert Doubles(15891, 31782, 27655) && Doubles(11826, 23652, 19525);
    assert Doubles(7761, 15522, 11395) && Doubles(3696, 7392, 3265);
  }
  lemma {:induction false} Row15Low() ensures FourDouble(ROW15, 0, ROW30) {
    HighDoubles(65439, 65342, 61215, 65342);
    HighDoubles(61374, 57212, 53085, 57212);
    HighDoubles(57309, 49082, 44955, 49082);
    HighDoubles(53244, 40952, 36825, 40952);
  }
  lemma {:induction false} Row15High() ensures FourDouble(ROW15, 4, ROW31) {
    HighDoubles(48923, 32310, 28183, 32310);
    HighDoubles(44858, 24180, 20053, 24180);
    HighDoubles(40793, 16050, 11923, 16050);
    HighDoubles(36728, 7920, 3793, 7920);
  }

  lemma {:induction false} Row0() ensures RowDoubles(CrcTable(), 0) { Row0Low(); Row0High(); }
  lemma {:induction false} Row1() ensures RowDoubles(CrcTable(), 1) { Row1Low(); Row1High(); }
  lemma {:induction false} Row2() ensures RowDoubles(CrcTable(), 2) { Row2Low(); Row2High(); }
  lemma {:induction false} Row3() ensures RowDoubles(CrcTable(), 3) { Row3Low(); Row3High(); }
  lemma {:induction false} Row4() ensures RowDoubles(CrcTable(), 4) { Row4Low(); Row4High(); }
  lemma {:induction false} Row5() ensures RowDoubles(CrcTable(), 5) { Row5Low(); Row5High(); }
  lemma {:induction false} Row6() ensures RowDoubles(CrcTable(), 6) { Row6Low(); Row6High(); }
  lemma {:induction false} Row7() ensures RowDoubles(CrcTable(), 7) { Row7Low(); Row7High(); }
  lemma {:induction false} Row8() ensures RowDoubles(CrcTable(), 8) { Row8Low(); Row8High(); }
  lemma {:induction false} Row9() ensures RowDoubles(CrcTable(), 9) { Row9Low(); Row9High(); }
  lemma {:induction false} Row10() ensures RowDoubles(CrcTable(), 10) { Row10Low(); Row10High(); }
  lemma {:induction false} Row11() ensures RowDoubles(CrcTable(), 11) { Row11Low(); Row11High(); }
  lemma {:induction false} Row12() ensures RowDoubles(CrcTable(), 12) { Row12Low(); Row12High(); }
  lemma {:induction false} Row13() ensures RowDoubles(CrcTable(), 13) { Row13Low(); Row13High(); }
  lemma {:induction false} Row14() ensures RowDoubles(CrcTable(), 14) { Row14Low(); Row14High(); }
  lemma {:induction false} Row15() ensures RowDoubles(CrcTable(), 15) { Row15Low(); Row15High(); }

  lemma {:induction false} Rows(r: nat)
    requires r < 16
    ensures RowDoubles(CrcTable(), r)
  {
    match r {
      case 0 => Row0();
      case 1 => Row1();
      case 2 => Row2();
      case 3 => Row3();
      case 4 => Row4();
      case 5 => Row5();
      case 6 => Row6();
      case 7 => Row7();
      case 8 => Row8();
      case 9 => Row9();
      case 10 => Row10();
      case 11 => Row11();
      case 12 => Row12();
      case 13 => Row13();
      case 14 => Row14();
      case 15 => Row15();
    }
  }

  lemma {:induction false} CrcTableDoubles()
    ensures TableDoubles(CrcTable())
  {
    forall r | 0 <= r < 16
      ensures RowDoubles(CrcTable(), r)
    {
      Rows(r);
    }
  }

  lemma {:induction false} PairDoubles(a: seq<word>, k: nat, out: seq<word>, j: nat)
    requires |a| == |out| == 8 && k <= 4 && FourDouble(a, k, out) && j < 4
    ensures Doubles(a[k + j], out[2 * j], out[2 * j + 1])
  {
    match j { case 0 => case 1 => case 2 => case 3 => }
  }

  lemma {:induction false} EntryDoubles(t: Table, u: nat)
    requires TableDoubles(t) && u < 128
    ensures Doubles(At(t, u), At(t, 2 * u), At(t, 2 * u + 1))
  {
    var r, j := u / 8, u % 8;
    assert RowDoubles(t, r);
    if j < 4 {
      PairDoubles(t[r], 0, t[2 * r], j);
      Position(2 * u, 2 * r, 2 * j);
      Position(2 * u + 1, 2 * r, 2 * j + 1);
    } else {
      PairDoubles(t[r], 4, t[2 * r + 1], j - 4);
      Position(2 * u, 2 * r + 1, 2 * j - 8);
      Position(2 * u + 1, 2 * r + 1, 2 * j - 7);
    }
  }

  lemma {:induction false} Position(i: nat, r: nat, j: nat)
    requires i == 8 * r + j && j < 8
    ensures i / 8 == r && i % 8 == j
  {
  }

  lemma {:induction false} RemainderOfEven(q: seq<bool>, z: seq<bool>, r: seq<bool>)
    requires |q| == 7 && z == q + Zeros(16) && r == Remainder([false] + z)
    ensures |r| == 16 && Remainder(z + [false]) == Cancel(r + [false])
  {
    CancelNothing([false] + z);
    RemainderPrefix(z, [false]);
  }

  lemma {:induction false} Shapes(q: seq<bool>, z: seq<bool>)
    requires |q| == 7 && z == q + Zeros(16)
    ensures [false] + q + Zeros(16) == [false] + z
    ensures q + [false] + Zeros(16) == z + [false]
    ensures |z| == 23 && q + [true] + Zeros(16) == (z + [false])[7 := true]
  {
  }

  lemma {:induction false} RemainderDoubles(q: seq<bool>, z: seq<bool>, r: seq<bool>, even: seq<bool>)
    requires |q| == 7 && z == q + Zeros(16) && r == Remainder([false] + z)
    requires |r| == 16 && even == Cancel(r + [false])
    ensures Remainder(z + [false]) == even
    ensures Remainder((z + [false])[7 := true]) == Add(even, GENERATOR[1..])
  {
    RemainderOfEven(q, z, r);
    RemainderOfOdd(z + [false], (z + [false])[7 := true]);
  }

  lemma {:induction false} RemainderOfOdd(d: seq<bool>, d': seq<bool>)
    requires |d| == |d'| == 24 && d' == d[7 := true] && !d[7]
    ensures Remainder(d') == Add(Remainder(d), GENERATOR[1..])
  {
    var one := Zeros(7) + [true] + Zeros(16);
    assert d' == Add(d, one);
    RemainderLinear(d, one);
    RemainderOfOne();
  }

  lemma {:induction false} RemainderOfOne()
    ensures Remainder(Zeros(7) + [true] + Zeros(16)) == GENERATOR[1..]
  {
    var g := [true] + Zeros(15);
    assert Zeros(7) + [true] + Zeros(16) == (Zeros(7) + g) + [false];
    RemainderPrefix(Zeros(7) + g, [false]);
    RemainderSkipsZeros(7, g);
    RemainderOfLeadingOne(g);
  }

  lemma {:induction false} RemainderOfLeadingOne(g: seq<bool>)
    requires g == [true] + Zeros(15)
    ensures Remainder(g + [false]) == GENERATOR[1..]
  {
    CancelTop(g);
    assert g[1..] + [false] == Zeros(16);
    assert Add(Zeros(16), GENERATOR[1..]) == GENERATOR[1..];
  }

  /** The words for 2u and 2u+1 are remainders when the word for u is one. */
  lemma {:induction false} TableStep(t: Table, q: seq<bool>, u: nat)
    requires TableDoubles(t) && |q| == 7 && u == Value(q) && u < 128
    requires At(t, u) == Value(Remainder([false] + q + Zeros(16)))
    ensures At(t, 2 * u) == Value(Remainder(q + [false] + Zeros(16)))
    ensures At(t, 2 * u + 1) == Value(Remainder(q + [true] + Zeros(16)))
  {
    EntryDoubles(t, u);
    WordStep(q, Remainder([false] + q + Zeros(16)), At(t, u), At(t, 2 * u), At(t, 2 * u + 1));
  }

  /** The same for the words alone: w of u, and even and odd made from it. */
  lemma {:induction false} WordStep(q: seq<bool>, r: seq<bool>, w: word, even: word, odd: word)
    requires |q| == 7 && r == Remainder([false] + q + Zeros(16))
    requires w == Value(r) && Doubles(w, even, odd)
    ensures even == Value(Remainder(q + [false] + Zeros(16)))
    ensures odd == Value(Remainder(q + [true] + Zeros(16)))
  {
    var c := Cancel(r + [false]);
    var c' := Add(c, GENERATOR[1..]);
    Shapes(q, q + Zeros(16));
    RemainderDoubles(q, q + Zeros(16), r, c);
    CancelTop(r);
    TimesXBits(r, c, r[1..] + [false], w, Value(c));
    AddGeneratorBits(c, c', Value(c), Value(c'));
  }

  lemma {:induction false} WordsAreRemainders(t: Table, p: seq<bool>)
    requires TableDoubles(t) && t[0][0] == 0 && |p| == 8
    ensures Value(p) < 256 && At(t, Value(p)) == Value(Remainder(p + Zeros(16)))
    decreases Value(p)
  {
    Pow2Values();
    if Value(p) == 0 {
      TableOfZero(t, p);
    } else {
      var q := p[..7];
      HalfByte(q);
      WordsAreRemainders(t, [false] + q);
      TableStep(t, q, Value(q));
      LastDigit(t, p, q, Value(q));
    }
  }

  lemma {:induction false} LastDigit(t: Table, p: seq<bool>, q: seq<bool>, u: nat)
    requires |p| == 8 && q == p[..7] && u == Value(q) && u < 128
    requires At(t, 2 * u) == Value(Remainder(q + [false] + Zeros(16)))
    requires At(t, 2 * u + 1) == Value(Remainder(q + [true] + Zeros(16)))
    ensures Value(p) < 256 && At(t, Value(p)) == Value(Remainder(p + Zeros(16)))
  {
    assert p == q + [p[7]];
    assert Value(p) == 2 * u + Digit(p[7]);
    if p[7] {
      assert p == q + [true];
    } else {
      assert p == q + [false];
    }
  }

  lemma {:induction false} HalfByte(q: seq<bool>)
    requires |q| == 7
    ensures Value([false] + q) == Value(q) < 128
  {
    ValueCons(false, q);
    assert Pow2(7) == 128 by { assert Pow2(5) == 32; }
  }

  lemma {:induction false} TableOfZero(t: Table, p: seq<bool>)
    requires t[0][0] == 0 && |p| == 8 && Value(p) == 0
    ensures At(t, 0) == Value(Remainder(p + Zeros(16)))
  {
    ZeroValue(p);
    RemainderSkipsZeros(8, Zeros(16));
    ValueOfZeros(16);
  }

  /** Every table word is the remainder of its index times x^16. */
  lemma {:induction false} TableIsRemainder(i: byte)
    ensures Bits(At(CrcTable(), i), 16) == Remainder(Bits(i, 8) + Zeros(16))
  {
    CrcTableDoubles();
    Pow2Values();
    ValueOfBits(i, 8);
    WordsAreRemainders(CrcTable(), Bits(i, 8));
    BitsOfValue(Remainder(Bits(i, 8) + Zeros(16)));
  }

  // ------------------------------------------------------------- the checksum is the division

  /** The bits of a message in the order in which the division consumes them. */
  function MsgBits(msg: seq<byte>): (b: seq<bool>)
    ensures |b| == 8 * |msg|
  {
    if msg == [] then [] else Bits(msg[0], 8) + MsgBits(msg[1..])
  }

  /** The message times x^16, with the start value added to its leading terms. */
  function Dividend(crc: word, msg: seq<byte>): (d: seq<bool>)
    ensures |d| == 8 * |msg| + 16
  {
    AddFront(MsgBits(msg) + Zeros(16), Bits(crc, 16))
  }

  lemma {:induction false} AddDataBits(c: word, d: byte)
    ensures Bits(AddData(c, d), 16) == Remainder(AddFront(Bits(d, 8) + Zeros(16), Bits(c, 16)))
  {
    var hi, lo := c / 256, c % 256;
    var low, tmp := (c * 256) % 0x1_0000, Xor8(c / 256, d);
    LowByte(c, hi, lo, low);
    WordBytes(c, hi, lo);
    JoinBytes(lo, 0, low);
    BitsOfZero(8);
    TableIsRemainder(tmp);
    StepBits(Bits(d, 8), Bits(c, 16), Bits(hi, 8), Bits(lo, 8), Bits(tmp, 8), Bits(low, 16),
      Bits(At(CrcTable(), tmp), 16), Bits(AddData(c, d), 16));
  }

  lemma {:induction false} LowByte(c: word, hi: nat, lo: nat, low: nat)
    requires hi == c / 256 && lo == c % 256 && low == (c * 256) % 0x1_0000
    ensures low == 256 * lo
  {
    assert c * 256 == 0x1_0000 * hi + 256 * lo;
  }

  /** AddData, bit by bit: c is the register, tmp the table index, word the table entry. */
  lemma {:induction false} StepBits(d: seq<bool>, c: seq<bool>, hi: seq<bool>, lo: seq<bool>, tmp: seq<bool>,
                 low: seq<bool>, word: seq<bool>, next: seq<bool>)
    requires |d| == |hi| == |lo| == 8 && c == hi + lo && tmp == Add(hi, d)
    requires low == lo + Zeros(8) && word == Remainder(tmp + Zeros(16)) && next == Add(low, word)
    ensures next == Remainder(AddFront(d + Zeros(16), c))
  {
    SplitDividend(d, hi, lo, tmp);
  }

  lemma {:induction false} SplitDividend(d: seq<bool>, hi: seq<bool>, lo: seq<bool>, tmp: seq<bool>)
    requires |d| == |hi| == |lo| == 8 && tmp == Add(hi, d)
    ensures Remainder(AddFront(d + Zeros(16), hi + lo))
         == Add(lo + Zeros(8), Remainder(tmp + Zeros(16)))
  {
    var p, q := tmp + Zeros(16), Zeros(8) + (lo + Zeros(8));
    assert AddFront(d + Zeros(16), hi + lo) == Add(p, q);
    RemainderLinear(p, q);
    RemainderSkipsZeros(8, lo + Zeros(8));
    AddCommutes(Remainder(p), lo + Zeros(8));
  }

  lemma {:induction false} AddCommutes(p: seq<bool>, q: seq<bool>)
    requires |p| == |q|
    ensures Add(p, q) == Add(q, p)
  {
  }

  /** The table driven checksum of any message, from any start value, is the remainder of
      the long division. */
  lemma {:induction false} CrcIsRemainder(crc: word, msg: seq<byte>)
    ensures Bits(Crc(crc, msg), 16) == Remainder(Dividend(crc, msg))
    decreases |msg|
  {
    if msg == [] {
      assert Dividend(crc, msg) == Bits(crc, 16);
    } else {
      var next := AddData(crc, msg[0]);
      CrcIsRemainder(next, msg[1..]);
      AddDataBits(crc, msg[0]);
      DivideFirstByte(Bits(msg[0], 8), MsgBits(msg[1..]), Bits(crc, 16), Bits(next, 16));
    }
  }

  lemma {:induction false} DivideFirstByte(first: seq<bool>, rest: seq<bool>, c: seq<bool>, c': seq<bool>)
    requires |first| == 8 && |c| == 16
    requires c' == Remainder(AddFront(first + Zeros(16), c))
    ensures |c'| == 16
    ensures Remainder(AddFront(first + rest + Zeros(16), c)) == Remainder(AddFront(rest + Zeros(16), c'))
  {
    var e := AddFront(first + Zeros(16), c);
    var x, tail := (rest + Zeros(16))[..16], (rest + Zeros(16))[16..];
    RegroupFront(first, rest, c, e, x, tail);
    RemainderPrefix(Add(e, Zeros(8) + x), tail);
    RemainderLinear(e, Zeros(8) + x);
    RemainderSkipsZeros(8, x);
    assert AddFront(rest + Zeros(16), c') == Add(x, c') + tail;
    AddCommutes(x, c');
  }

  lemma {:induction false} RegroupFront(first: seq<bool>, rest: seq<bool>, c: seq<bool>, e: seq<bool>,
                                        x: seq<bool>, tail: seq<bool>)
    requires |first| == 8 && |c| == 16 && e == AddFront(first + Zeros(16), c)
    requires rest + Zeros(16) == x + tail && |x| == 16
    ensures AddFront(first + rest + Zeros(16), c) == Add(e, Zeros(8) + x) + tail
  {
    var l, r := AddFront(first + rest + Zeros(16), c), Add(e, Zeros(8) + x) + tail;
    assert first + rest + Zeros(16) == first + (rest + Zeros(16));
    assert first + (x + tail) == first + x + tail;
    assert e[16..] == Zeros(8);
    forall k | 0 <= k < |l| ensures l[k] == r[k] {
      if k < 16 {
        assert l[k] == ((first + x + tail)[k] != c[k]);
      } else if k < 24 {
        assert l[k] == x[k - 8];
        assert e[k] == e[16..][k - 16];
      }
    }
  }

  // ------------------------------------------------------------- what it detects

  lemma {:induction false} MsgBitsInjective(m: seq<byte>, m': seq<byte>)
    requires |m| == |m'| && MsgBits(m) == MsgBits(m')
    ensures m == m'
    decreases |m|
  {
    if m != [] {
      var b, b' := MsgBits(m), MsgBits(m');
      assert Bits(m[0], 8) == b[..8] && Bits(m'[0], 8) == b'[..8];
      assert MsgBits(m[1..]) == b[8..] && MsgBits(m'[1..]) == b'[8..];
      BytesFromBits(m[0], m'[0]);
      MsgBitsInjective(m[1..], m'[1..]);
      assert m == [m[0]] + m[1..] && m' == [m'[0]] + m'[1..];
    }
  }

  /** Messages with equal checksums differ by a multiple of the generator. */
  lemma {:induction false} EqualCrcs(crc: word, m: seq<byte>, m': seq<byte>)
    requires |m| == |m'| && Crc(crc, m) == Crc(crc, m')
    ensures Remainder(Add(MsgBits(m), MsgBits(m')) + Zeros(16)) == Zeros(16)
  {
    CrcIsRemainder(crc, m);
    CrcIsRemainder(crc, m');
    var d, d' := Dividend(crc, m), Dividend(crc, m');
    RemainderLinear(d, d');
    SumOfDividends(MsgBits(m), MsgBits(m'), Bits(crc, 16));
    AddSelf(Remainder(d));
  }

  lemma {:induction false} AddSelf(p: seq<bool>)
    ensures Add(p, p) == Zeros(|p|)
  {
  }

  lemma {:induction false} SumOfDividends(p: seq<bool>, q: seq<bool>, c: seq<bool>)
    requires |p| == |q| && |c| == 16
    ensures Add(AddFront(p + Zeros(16), c), AddFront(q + Zeros(16), c)) == Add(p, q) + Zeros(16)
  {
  }

  /** Burst errors: two messages that differ only inside 16 consecutive bits have different
      checksums. */
  lemma {:induction false} BurstDetected(crc: word, m: seq<byte>, m': seq<byte>, s: nat)
    requires |m| == |m'| && m != m'
    requires forall k :: 0 <= k < 8 * |m| && !(s <= k < s + 16) ==> MsgBits(m)[k] == MsgBits(m')[k]
    ensures Crc(crc, m) != Crc(crc, m')
  {
    if Crc(crc, m) == Crc(crc, m') {
      EqualCrcs(crc, m, m');
      NoBurst(MsgBits(m), MsgBits(m'), s);
      MsgBitsInjective(m, m');
    }
  }

  lemma {:induction false} NoBurst(p: seq<bool>, q: seq<bool>, s: nat)
    requires |p| == |q| && Remainder(Add(p, q) + Zeros(16)) == Zeros(16)
    requires forall k :: 0 <= k < |p| && !(s <= k < s + 16) ==> p[k] == q[k]
    ensures p == q
  {
    if s < |p| {
      var diff := Add(p, q) + Zeros(16);
      var burst, after := diff[s..s + 16], |p| - s;
      assert diff == Zeros(s) + burst + Zeros(after);
      BurstRemainder(s, burst, after);
      forall k | s <= k < s + 16 && k < |p| ensures p[k] == q[k] {
        assert !Zeros(16)[k - s];
        assert diff[k] == burst[k - s];
      }
    }
  }

  /** In how many places two bit strings differ. */
  function Differences(p: seq<bool>, q: seq<bool>): nat
    requires |p| == |q|
  {
    if p == [] then 0 else Differences(p[1..], q[1..]) + if p[0] != q[0] then 1 else 0
  }

  lemma {:induction false} DifferencesParity(p: seq<bool>, q: seq<bool>)
    requires |p| == |q|
    ensures Parity(Add(p, q)) <==> Differences(p, q) % 2 == 1
    decreases |p|
  {
    if p != [] {
      DifferencesParity(p[1..], q[1..]);
      assert Add(p, q)[1..] == Add(p[1..], q[1..]);
    }
  }

  /** Odd errors: two messages that differ in an odd number of bits have different checksums. */
  lemma {:induction false} OddDetected(crc: word, m: seq<byte>, m': seq<byte>)
    requires |m| == |m'| && Differences(MsgBits(m), MsgBits(m')) % 2 == 1
    ensures Crc(crc, m) != Crc(crc, m')
  {
    if Crc(crc, m) == Crc(crc, m') {
      var sum := Add(MsgBits(m), MsgBits(m'));
      EqualCrcs(crc, m, m');
      RemainderParity(sum + Zeros(16));
      ParityAppend(sum, Zeros(16));
      ParityZeros(16);
      DifferencesParity(MsgBits(m), MsgBits(m'));
    }
  }

  /** m' is m damaged inside 16 consecutive bits from s on, or in an odd number of bits. */
  ghost predicate Damaged(m: seq<byte>, m': seq<byte>, s: nat) {
    && |m| == |m'| && m != m'
    && (|| (forall k :: 0 <= k < 8 * |m| && !(s <= k < s + 16) ==> MsgBits(m)[k] == MsgBits(m')[k])
        || Differences(MsgBits(m), MsgBits(m')) % 2 == 1)
  }

  lemma {:induction false} DamageDetected(crc: word, m: seq<byte>, m': seq<byte>, s: nat)
    requires Damaged(m, m', s)
    ensures Crc(crc, m) != Crc(crc, m')
  {
    if Differences(MsgBits(m), MsgBits(m')) % 2 == 1 {
      OddDetected(crc, m, m');
    } else {
      BurstDetected(crc, m, m', s);
    }
  }

  /** For a fixed message the checksum is injective in the start value, so a single wrong
      byte anywhere is never masked by correct bytes that follow it. */
  lemma {:induction false} StartInjective(c: word, c': word, msg: seq<byte>)
    requires c != c'
    ensures Crc(c, msg) != Crc(c', msg)
  {
    if Crc(c, msg) == Crc(c', msg) {
      CrcIsRemainder(c, msg);
      CrcIsRemainder(c', msg);
      StartsAgree(MsgBits(msg), Bits(c, 16), Bits(c', 16));
      WordsFromBits(c, c');
    }
  }

  lemma {:induction false} StartsAgree(p: seq<bool>, c: seq<bool>, c': seq<bool>)
    requires |c| == |c'| == 16
    requires Remainder(AddFront(p + Zeros(16), c)) == Remainder(AddFront(p + Zeros(16), c'))
    ensures c == c'
  {
    var d, d' := AddFront(p + Zeros(16), c), AddFront(p + Zeros(16), c');
    RemainderLinear(d, d');
    AddSelf(Remainder(d));
    SumOfStarts(p, c, c');
    ShiftsKeepNonzero(Add(c, c'), |p|);
    NoDifference(c, c');
  }

  lemma {:induction false} SumOfStarts(p: seq<bool>, c: seq<bool>, c': seq<bool>)
    requires |c| == |c'| == 16
    ensures Add(AddFront(p + Zeros(16), c), AddFront(p + Zeros(16), c')) == Add(c, c') + Zeros(|p|)
  {
  }

  lemma {:induction false} NoDifference(c: seq<bool>, c': seq<bool>)
    requires |c| == |c'| && Add(c, c') == Zeros(|c|)
    ensures c == c'
  {
    forall k | 0 <= k < |c| ensures c[k] == c'[k] {
      assert !Zeros(|c|)[k];
    }
  }

  // ------------------------------------------------------------- linearity

  /** The table is linear. */
  lemma {:induction false} TableLinear(x: byte, y: byte)
    ensures Bits(At(CrcTable(), Xor8(x, y)), 16) == Add(Bits(At(CrcTable(), x), 16), Bits(At(CrcTable(), y), 16))
  {
    TableIsRemainder(x);
    TableIsRemainder(y);
    TableIsRemainder(Xor8(x, y));
    AddWide(Bits(x, 8), Bits(y, 8));
    RemainderLinear(Bits(x, 8) + Zeros(16), Bits(y, 8) + Zeros(16));
  }

  lemma {:induction false} AddWide(p: seq<bool>, q: seq<bool>)
    requires |p| == |q| == 8
    ensures Add(p, q) + Zeros(16) == Add(p + Zeros(16), q + Zeros(16))
  {
  }

  lemma {:induction false} AddAssociates(p: seq<bool>, q: seq<bool>, r: seq<bool>)
    requires |p| == |q| == |r|
    ensures Add(Add(p, q), r) == Add(p, Add(q, r))
  {
  }

  lemma {:induction false} Xor8Swap(h: byte, b: byte, d: byte)
    ensures Xor8(h, Xor8(b, d)) == Xor8(Xor8(h, b), d)
  {
    AddAssociates(Bits(h, 8), Bits(b, 8), Bits(d, 8));
    BytesFromBits(Xor8(h, Xor8(b, d)), Xor8(Xor8(h, b), d));
  }

  /** An error d in the byte added last changes the checksum by the table word of d. */
  lemma {:induction false} LastByteError(c: word, b: byte, d: byte)
    ensures Bits(AddData(c, Xor8(b, d)), 16) == Add(Bits(AddData(c, b), 16), Bits(At(CrcTable(), d), 16))
  {
    var low: word, tmp := (c * 256) % 0x1_0000, Xor8(c / 256, b);
    Xor8Swap(c / 256, b, d);
    TableLinear(tmp, d);
    AddAssociates(Bits(low, 16), Bits(At(CrcTable(), tmp), 16), Bits(At(CrcTable(), d), 16));
  }
}
