/** Which damage to a packet the checksum notices. A packet is a message and its two checksum
    bytes, the low byte first, so in a packet the checksum stands the wrong way round for the
    division: the guarantees of RlinkCrc16 hold inside the message, and what they become for
    the packet as a whole is shown here. Bits are numbered most significant first in each byte. */
module RlinkCrcErrors {
  import opened Gf2Poly
  import opened Words
  import opened Checksum
  import opened RlinkCrc16

  /** The receiver's test. */
  predicate Passes(crc: word, p: seq<byte>) {
    |p| >= 2 && p[|p| - 2..] == WordBytesOf(Crc(crc, p[..|p| - 2]))
  }

  /** The damage that turns p into q. */
  function Errors(p: seq<byte>, q: seq<byte>): (e: seq<byte>)
    requires |p| == |q|
    ensures |e| == |p|
  {
    seq(|p|, k requires 0 <= k < |p| => Xor8(p[k], q[k]))
  }

  lemma {:induction false} MsgBitsAppend(a: seq<byte>, b: seq<byte>)
    ensures MsgBits(a + b) == MsgBits(a) + MsgBits(b)
    decreases |a|
  {
    if a == [] {
      assert a + b == b;
    } else {
      assert (a + b)[1..] == a[1..] + b;
      MsgBitsAppend(a[1..], b);
    }
  }

  lemma {:induction false} ErrorBits(p: seq<byte>, q: seq<byte>)
    requires |p| == |q|
    ensures MsgBits(Errors(p, q)) == Add(MsgBits(p), MsgBits(q))
    decreases |p|
  {
    hide Bits;
    if p != [] {
      var e := Errors(p, q);
      ErrorBits(p[1..], q[1..]);
      assert e[1..] == Errors(p[1..], q[1..]);
      AddTwo(Bits(p[0], 8), Bits(q[0], 8), Bits(e[0], 8), MsgBits(p[1..]), MsgBits(q[1..]), MsgBits(e[1..]));
    }
  }

  lemma {:induction false} AddTwo(a: seq<bool>, b: seq<bool>, c: seq<bool>, a': seq<bool>, b': seq<bool>, c': seq<bool>)
    requires |a| == |b| && |a'| == |b'| && c == Add(a, b) && c' == Add(a', b')
    ensures c + c' == Add(a + a', b + b')
  {
  }

  // ------------------------------------------------------------- packets as polynomials

  function Message(p: seq<byte>): seq<byte>
    requires |p| >= 2
  {
    p[..|p| - 2]
  }

  /** The packet with its checksum turned round, high byte first. */
  function PolyBits(p: seq<byte>): (b: seq<bool>)
    requires |p| >= 2
    ensures |b| == 8 * |p|
  {
    MsgBits(Message(p)) + (Bits(p[|p| - 1], 8) + Bits(p[|p| - 2], 8))
  }

  lemma {:induction false} EqualIffNoDifference(a: seq<bool>, b: seq<bool>)
    requires |a| == |b| == 16
    ensures Add(a, b) == Zeros(16) <==> a == b
  {
    if Add(a, b) == Zeros(16) {
      NoDifference(a, b);
    } else if a == b {
      AddSelf(a);
    }
  }

  lemma {:induction false} CheckBytes(p: seq<byte>, c: word)
    requires |p| >= 2
    ensures p[|p| - 2..] == WordBytesOf(c) <==> Bits(p[|p| - 1], 8) + Bits(p[|p| - 2], 8) == Bits(c, 16)
  {
    var lo, hi := p[|p| - 2], p[|p| - 1];
    var w: word := 256 * hi as int + lo;
    JoinBytes(hi, lo, w);
    assert w % 256 == lo && w / 256 == hi;
    assert p[|p| - 2..] == WordBytesOf(w);
    if Bits(w, 16) == Bits(c, 16) {
      WordsFromBits(w, c);
    }
    if WordBytesOf(w) == WordBytesOf(c) {
      WordBytesInjective(w, c);
    }
  }

  /** Bits, m of the message and w of the checksum: the packet is a multiple of the generator
      exactly if w is the remainder of the message. */
  lemma {:induction false} MultipleIff(m: seq<bool>, w: seq<bool>, c: seq<bool>)
    requires |w| == |c| == 16
    ensures Remainder(AddFront(m + w, c)) == Zeros(16) <==> w == Remainder(AddFront(m + Zeros(16), c))
  {
    var d, x := AddFront(m + Zeros(16), c), Zeros(|m|) + w;
    assert AddFront(m + w, c) == Add(d, x);
    RemainderLinear(d, x);
    RemainderSkipsZeros(|m|, w);
    EqualIffNoDifference(Remainder(d), w);
  }

  /** A packet passes exactly if it is a multiple of the generator, start value included. */
  lemma {:induction false} PassesIsMultiple(crc: word, p: seq<byte>)
    requires |p| >= 2
    ensures Passes(crc, p) <==> Remainder(AddFront(PolyBits(p), Bits(crc, 16))) == Zeros(16)
  {
    var m, w := MsgBits(Message(p)), Bits(p[|p| - 1], 8) + Bits(p[|p| - 2], 8);
    CrcIsRemainder(crc, Message(p));
    CheckBytes(p, Crc(crc, Message(p)));
    MultipleIff(m, w, Bits(crc, 16));
  }

  lemma {:induction false} PassesFromZero(p: seq<byte>)
    requires |p| >= 2
    ensures Passes(0, p) <==> Remainder(PolyBits(p)) == Zeros(16)
  {
    PassesIsMultiple(0, p);
    BitsOfZero(16);
    AddNothing(PolyBits(p));
  }

  lemma {:induction false} AddNothing(b: seq<bool>)
    requires |b| >= 16
    ensures AddFront(b, Zeros(16)) == b
  {
  }

  // ------------------------------------------------------------- the exact condition

  lemma {:induction false} PolyErrors(p: seq<byte>, q: seq<byte>)
    requires |p| == |q| >= 2
    ensures PolyBits(Errors(p, q)) == Add(PolyBits(p), PolyBits(q))
  {
    hide MsgBits, Bits;
    var n := |p|;
    ErrorBits(Message(p), Message(q));
    assert Message(Errors(p, q)) == Errors(Message(p), Message(q));
    AddParts(MsgBits(Message(p)), MsgBits(Message(q)), Bits(p[n - 1], 8), Bits(q[n - 1], 8), Bits(p[n - 2], 8),
      Bits(q[n - 2], 8));
  }

  lemma {:induction false} AddParts(a: seq<bool>, a': seq<bool>, h: seq<bool>, h': seq<bool>, l: seq<bool>, l': seq<bool>)
    requires |a| == |a'| && |h| == |h'| == |l| == |l'| == 8
    ensures Add(a, a') + (Add(h, h') + Add(l, l')) == Add(a + (h + l), a' + (h' + l'))
  {
  }

  lemma {:induction false} FrontOfSum(a: seq<bool>, b: seq<bool>, c: seq<bool>)
    requires |a| == |b| >= 16 && |c| == 16
    ensures AddFront(b, c) == Add(AddFront(a, c), Add(a, b))
  {
  }

  lemma {:induction false} SumIsZeroIff(a: seq<bool>, b: seq<bool>, c: seq<bool>)
    requires |a| == |b| == |c| == 16 && c == Add(a, b) && a == Zeros(16)
    ensures c == Zeros(16) <==> b == Zeros(16)
  {
    assert c == b;
  }

  /** A damaged packet is accepted exactly if the damage itself is a packet that is accepted
      from start value 0, whatever the packet and the start value. */
  lemma {:induction false} DamageAccepted(crc: word, p: seq<byte>, q: seq<byte>)
    requires |p| == |q| && Passes(crc, p)
    ensures Passes(crc, q) <==> Passes(0, Errors(p, q))
  {
    var e, c := Errors(p, q), Bits(crc, 16);
    var a, b := AddFront(PolyBits(p), c), PolyBits(e);
    PassesIsMultiple(crc, p);
    PassesIsMultiple(crc, q);
    PassesFromZero(e);
    PolyErrors(p, q);
    FrontOfSum(PolyBits(p), PolyBits(q), c);
    RemainderLinear(a, b);
    SumIsZeroIff(Remainder(a), Remainder(b), Remainder(Add(a, b)));
  }

  /** The same with message and checksum taken apart: m' for m, and an error x in the checksum. */
  lemma {:induction false} ChecksumErrors(crc: word, m: seq<byte>, m': seq<byte>, x: word, y: word)
    requires |m| == |m'| && y == Xor16(Crc(crc, m), x)
    ensures Crc(crc, m') == y <==> Crc(0, Errors(m, m')) == x
  {
    var c := Crc(crc, m);
    PacketOf(crc, m, c);
    PacketOf(crc, m', y);
    DamageAccepted(crc, m + WordBytesOf(c), m' + WordBytesOf(y));
    PacketErrors(m, m', c, x, y);
    PacketOf(0, Errors(m, m'), x);
  }

  lemma {:induction false} PacketErrors(m: seq<byte>, m': seq<byte>, c: word, x: word, y: word)
    requires |m| == |m'| && y == Xor16(c, x)
    ensures Errors(m + WordBytesOf(c), m' + WordBytesOf(y)) == Errors(m, m') + WordBytesOf(x)
  {
    WordErrors(c, x, y);
    ErrorsAppend(m, m', WordBytesOf(c), WordBytesOf(y), WordBytesOf(x));
  }

  lemma {:induction false} ErrorsAppend(m: seq<byte>, m': seq<byte>, a: seq<byte>, b: seq<byte>, x: seq<byte>)
    requires |m| == |m'| && |a| == |b| && Errors(a, b) == x
    ensures Errors(m + a, m' + b) == Errors(m, m') + x
  {
  }

  lemma {:induction false} PacketOf(crc: word, m: seq<byte>, c: word)
    ensures Passes(crc, m + WordBytesOf(c)) <==> Crc(crc, m) == c
  {
    var p, r := m + WordBytesOf(c), Crc(crc, m);
    assert p[..|p| - 2] == m && p[|p| - 2..] == WordBytesOf(c);
    if WordBytesOf(c) == WordBytesOf(r) {
      WordBytesInjective(c, r);
    }
  }

  lemma {:induction false} WordErrors(c: word, x: word, y: word)
    requires y == Xor16(c, x)
    ensures Xor8(c % 256, y % 256) == x % 256 && Xor8(c / 256, y / 256) == x / 256
  {
    ByteErrors(c, c / 256, c % 256, x, x / 256, x % 256, y, y / 256, y % 256);
  }

  lemma {:induction false} ByteErrors(c: word, ch: byte, cl: byte, x: word, xh: byte, xl: byte, y: word, yh: byte,
                                      yl: byte)
    requires y == Xor16(c, x) && ch == c / 256 && cl == c % 256 && xh == x / 256 && xl == x % 256
    requires yh == y / 256 && yl == y % 256
    ensures Xor8(cl, yl) == xl && Xor8(ch, yh) == xh
  {
    WordBytes(c, ch, cl);
    WordBytes(x, xh, xl);
    WordBytes(y, yh, yl);
    XorBack(Bits(ch, 8), Bits(xh, 8), Bits(yh, 8), Bits(cl, 8), Bits(xl, 8), Bits(yl, 8));
    BytesFromBits(Xor8(cl, yl), xl);
    BytesFromBits(Xor8(ch, yh), xh);
  }

  lemma {:induction false} XorBack(c: seq<bool>, x: seq<bool>, y: seq<bool>, c': seq<bool>, x': seq<bool>, y': seq<bool>)
    requires |c| == |x| == |y| == |c'| == |x'| == |y'| == 8
    requires y + y' == Add(c + c', x + x')
    ensures Add(c, y) == x && Add(c', y') == x'
  {
    var s, t := y + y', Add(c + c', x + x');
    forall k | 0 <= k < 8
      ensures y[k] == (c[k] != x[k]) && y'[k] == (c'[k] != x'[k])
    {
      assert s[k] == t[k] && s[k + 8] == t[k + 8];
    }
  }

  // ------------------------------------------------------------- odd errors

  lemma {:induction false} PacketBits(p: seq<byte>)
    requires |p| >= 2
    ensures MsgBits(p) == MsgBits(Message(p)) + (Bits(p[|p| - 2], 8) + Bits(p[|p| - 1], 8))
  {
    var last := [p[|p| - 2], p[|p| - 1]];
    assert p == Message(p) + last;
    MsgBitsAppend(Message(p), last);
    assert last[1..] == [p[|p| - 1]] && [p[|p| - 1]][1..] == [];
    assert MsgBits([p[|p| - 1]]) == Bits(p[|p| - 1], 8) + [];
  }

  lemma {:induction false} SameParity(m: seq<bool>, l: seq<bool>, h: seq<bool>)
    ensures Parity(m + (l + h)) == Parity(m + (h + l))
  {
    ParityAppend(m, l + h);
    ParityAppend(m, h + l);
    ParityAppend(l, h);
    ParityAppend(h, l);
  }

  /** Damage to an odd number of bits, in the message, in the checksum or in both, is noticed. */
  lemma {:induction false} OddNoticed(crc: word, p: seq<byte>, q: seq<byte>)
    requires |p| == |q| && Passes(crc, p) && Differences(MsgBits(p), MsgBits(q)) % 2 == 1
    ensures !Passes(crc, q)
  {
    var e := Errors(p, q);
    DamageAccepted(crc, p, q);
    PassesFromZero(e);
    ErrorBits(p, q);
    DifferencesParity(MsgBits(p), MsgBits(q));
    PacketBits(e);
    SameParity(MsgBits(Message(e)), Bits(e[|e| - 2], 8), Bits(e[|e| - 1], 8));
    RemainderParity(PolyBits(e));
    ParityZeros(16);
  }

  // ------------------------------------------------------------- short bursts

  function Coef(q: seq<bool>, k: int): bool {
    0 <= k < |q| && q[k]
  }

  lemma {:induction false} GeneratorTerms(f: bool, k: nat)
    requires k < 17
    ensures Scale(f, GENERATOR)[k] == (f && (k == 0 || k == 4 || k == 11 || k == 16))
  {
  }

  function ProductCoef(q: seq<bool>, k: int): bool {
    (Coef(q, k) != Coef(q, k - 4)) != (Coef(q, k - 11) != Coef(q, k - 16))
  }

  lemma {:induction false} ProductStep(q: seq<bool>, t: seq<bool>, g: seq<bool>, k: nat)
    requires q != [] && |t| == |q| + 15 && |g| == 17 && k < |q| + 16
    requires k < 17 ==> g[k] == (q[0] && (k == 0 || k == 4 || k == 11 || k == 16))
    requires k > 0 ==> t[k - 1] == ProductCoef(q[1..], k - 1)
    ensures AddFront([false] + t, g)[k] == ProductCoef(q, k)
  {
    var q' := q[1..];
    assert Coef(q', k - 1) == (k > 0 && Coef(q, k)) && Coef(q', k - 5) == (k != 4 && Coef(q, k - 4));
    assert Coef(q', k - 12) == (k != 11 && Coef(q, k - 11)) && Coef(q', k - 17) == (k != 16 && Coef(q, k - 16));
  }

  /** A product with the generator, coefficient by coefficient. */
  lemma {:induction false} ProductAt(q: seq<bool>, k: nat)
    requires k < |q| + 16
    ensures TimesGenerator(q)[k] == ProductCoef(q, k)
  {
    if q != [] {
      if k < 17 {
        GeneratorTerms(q[0], k);
      }
      if k > 0 {
        ProductAt(q[1..], k - 1);
      }
      ProductStep(q, TimesGenerator(q[1..]), Scale(q[0], GENERATOR), k);
    }
  }

  /** d repeats its first four coefficients at the places of the generator's terms. */
  ghost predicate Repeats(d: seq<bool>)
    requires |d| == 20
  {
    && (forall j :: 0 <= j < 4 ==> d[4 + j] == d[j] && d[11 + j] == d[j] && d[16 + j] == d[j])
    && !d[8] && !d[9] && !d[10] && !d[15]
  }

  lemma {:induction false} ShortProduct(d: seq<bool>, t: seq<bool>)
    requires |d| == 20 && |t| == 4 && forall k :: 0 <= k < 20 ==> d[k] == ProductCoef(t, k)
    ensures Repeats(d)
  {
    forall j | 0 <= j < 4
      ensures d[4 + j] == d[j] && d[11 + j] == d[j] && d[16 + j] == d[j]
    {
      assert d[j] == t[j];
    }
  }

  /** The multiples of the generator of degree below 20. */
  lemma {:induction false} MultiplesOf20(d: seq<bool>)
    requires |d| == 20 && Remainder(d) == Zeros(16)
    ensures Repeats(d)
  {
    var t := Quotient(d);
    DivisionIdentity(d);
    forall k | 0 <= k < 20
      ensures d[k] == ProductCoef(t, k)
    {
      ProductAt(t, k);
    }
    ShortProduct(d, t);
  }

  lemma {:induction false} LeadingZeros(n: nat, p: seq<bool>)
    requires |p| >= 16
    ensures Remainder(Zeros(n) + p) == Remainder(p)
  {
    if n == 0 {
      assert Zeros(n) + p == p;
    } else {
      CancelNothing(Zeros(n) + p);
      assert (Zeros(n) + p)[1..] == Zeros(n - 1) + p;
      LeadingZeros(n - 1, p);
    }
  }

  ghost predicate Within(e: seq<bool>, s: nat, n: nat) {
    forall k :: 0 <= k < |e| && !(s <= k < s + n) ==> !e[k]
  }

  lemma {:induction false} AllZero(d: seq<bool>)
    requires |d| == 20 && Repeats(d) && !d[0] && !d[1] && !d[2] && !d[3]
    ensures d == Zeros(20)
  {
    forall k | 0 <= k < 20
      ensures !d[k]
    {
      if 4 <= k < 8 { assert !d[k - 4]; }
      if 11 <= k < 15 { assert d[11 + (k - 11)] == d[k - 11]; }
      if 16 <= k { assert d[16 + (k - 16)] == d[k - 16]; }
    }
  }

  /** The burst ends in the high checksum byte: at most three message bits are damaged. */
  lemma {:induction false} BurstToHigh(a: seq<bool>, l: seq<bool>, h: seq<bool>, d: seq<bool>)
    requires 1 <= |a| <= 3 && |l| == |h| == 8 && d == Zeros(4 - |a|) + a + h + l && Remainder(d) == Zeros(16)
    requires forall j :: 4 - |a| <= j < 8 ==> !h[j]
    ensures d == Zeros(20)
  {
    MultiplesOf20(d);
    forall j | 0 <= j < 4
      ensures !d[j]
    {
      assert d[4 + j] == h[j] && d[4 + j] == d[j];
    }
    AllZero(d);
  }

  /** The burst ends in the low checksum byte: the high one, undamaged, is a gap of eight zeros. */
  lemma {:induction false} BurstToLow(a: seq<bool>, l: seq<bool>, d: seq<bool>)
    requires 4 <= |a| <= 11 && |l| == 12 - |a| && d == a + (Zeros(8) + l) && Remainder(d) == Zeros(16)
    ensures d == Zeros(20)
  {
    MultiplesOf20(d);
    assert forall j :: |a| <= j < |a| + 8 ==> !d[j];
    forall j | 0 <= j < 4
      ensures !d[j]
    {
      assert d[4 + j] == d[j] && d[11 + j] == d[j];
    }
    AllZero(d);
  }

  lemma {:induction false} TrailingZeros(d: seq<bool>, n: nat)
    requires |d| >= 16 && Remainder(d + Zeros(n)) == Zeros(16)
    ensures Remainder(d) == Zeros(16)
  {
    RemainderPrefix(d, Zeros(n));
    ShiftsKeepNonzero(Remainder(d), n);
  }

  lemma {:induction false} PartsToHigh(a: seq<bool>, l: seq<bool>, h: seq<bool>)
    requires 1 <= |a| <= 3 && |l| == |h| == 8 && Remainder(a + (h + l)) == Zeros(16)
    requires forall j :: 0 <= j < 8 && j >= 4 - |a| ==> !h[j]
    ensures a == Zeros(|a|) && l == Zeros(8) && h == Zeros(8)
  {
    var z := Zeros(4 - |a|);
    var d := z + a + h + l;
    Regroup4(z, a, h, l, d);
    LeadingZeros(4 - |a|, a + (h + l));
    BurstToHigh(a, l, h, d);
  }

  lemma {:induction false} Regroup4(z: seq<bool>, a: seq<bool>, h: seq<bool>, l: seq<bool>, d: seq<bool>)
    requires d == z + a + h + l
    ensures z + (a + (h + l)) == d
    ensures d == Zeros(|d|) ==> a == Zeros(|a|) && h == Zeros(|h|) && l == Zeros(|l|)
  {
    var i := |z| + |a|;
    assert a == d[|z|..i] && h == d[i..i + |h|] && l == d[i + |h|..];
  }

  lemma {:induction false} PartsToLow(a: seq<bool>, l: seq<bool>, h: seq<bool>)
    requires 4 <= |a| <= 11 && |l| == 8 && h == Zeros(8) && Remainder(a + (h + l)) == Zeros(16)
    requires forall j :: 0 <= j < 8 && j >= 12 - |a| ==> !l[j]
    ensures a == Zeros(|a|) && l == Zeros(8)
  {
    var l', z := l[..12 - |a|], Zeros(|a| - 4);
    var d := a + (Zeros(8) + l');
    assert l == l' + z;
    assert a + (h + l) == d + z;
    TrailingZeros(d, |a| - 4);
    BurstToLow(a, l', d);
    assert a == d[..|a|] && l' == d[|a| + 8..];
  }

  /** A burst over the seam, from bit s of the message on. */
  lemma {:induction false} SeamBurst(m: seq<bool>, l: seq<bool>, h: seq<bool>, s: nat)
    requires |l| == |h| == 8 && s < |m| < s + 12 && Within(m + (l + h), s, 12)
    requires Remainder(m + (h + l)) == Zeros(16)
    ensures m == Zeros(|m|) && l == Zeros(8) && h == Zeros(8)
  {
    var a, w := m[s..], m + (l + h);
    assert forall k :: 0 <= k < s ==> !w[k] && w[k] == m[k];
    assert forall j :: 0 <= j < 8 ==> w[|m| + j] == l[j] && w[|m| + 8 + j] == h[j];
    assert m == Zeros(s) + a;
    Regroup(Zeros(s), a, h + l);
    LeadingZeros(s, a + (h + l));
    if |a| <= 3 {
      PartsToHigh(a, l, h);
    } else {
      assert h == Zeros(8);
      PartsToLow(a, l, h);
    }
  }

  lemma {:induction false} MessageBurst(m: seq<bool>, w: seq<bool>, s: nat)
    requires s + 12 <= |m| && Within(m, s, 12) && w == Zeros(8) + Zeros(8) && Remainder(m + w) == Zeros(16)
    ensures m == Zeros(|m|)
  {
    assert w == Zeros(16) && Add(m, Zeros(|m|)) == m;
    NoBurst(m, Zeros(|m|), s);
  }

  /** Errors inside the message leave the checksum bytes alone, and the other way round. */
  lemma {:induction false} NoShortBurst(m: seq<bool>, l: seq<bool>, h: seq<bool>, s: nat)
    requires |l| == |h| == 8 && Within(m + (l + h), s, 12) && Remainder(m + (h + l)) == Zeros(16)
    ensures m == Zeros(|m|) && l == Zeros(8) && h == Zeros(8)
  {
    var w := m + (l + h);
    assert forall k :: 0 <= k < |m| ==> w[k] == m[k];
    assert forall j :: 0 <= j < 8 ==> w[|m| + j] == l[j] && w[|m| + 8 + j] == h[j];
    if s >= |m| {
      assert m == Zeros(|m|);
      RemainderSkipsZeros(|m|, h + l);
      assert h == (h + l)[..8] && l == (h + l)[8..];
    } else if s + 12 <= |m| {
      assert l == Zeros(8) && h == Zeros(8);
      MessageBurst(m, h + l, s);
    } else {
      SeamBurst(m, l, h, s);
    }
  }

  lemma {:induction false} SameBits(b: seq<bool>, b': seq<bool>, m: seq<bool>, l: seq<bool>, h: seq<bool>, s: nat)
    requires |b| == |b'| && |l| == |h| == 8 && Add(b, b') == m + (l + h) && Remainder(m + (h + l)) == Zeros(16)
    requires forall k :: 0 <= k < |b| && !(s <= k < s + 12) ==> b[k] == b'[k]
    ensures b == b'
  {
    NoShortBurst(m, l, h, s);
    assert m + (l + h) == Zeros(|b|);
    NoDifference(b, b');
  }

  /** Damage confined to 12 consecutive bits anywhere in the packet, checksum and seam
      included, is noticed. */
  lemma {:induction false} BurstOf12Noticed(crc: word, p: seq<byte>, q: seq<byte>, s: nat)
    requires |p| == |q| && p != q && Passes(crc, p)
    requires forall k :: 0 <= k < 8 * |p| && !(s <= k < s + 12) ==> MsgBits(p)[k] == MsgBits(q)[k]
    ensures !Passes(crc, q)
  {
    var e := Errors(p, q);
    DamageAccepted(crc, p, q);
    if Passes(0, e) {
      PassesFromZero(e);
      ErrorBits(p, q);
      PacketBits(e);
      SameBits(MsgBits(p), MsgBits(q), MsgBits(Message(e)), Bits(e[|e| - 2], 8), Bits(e[|e| - 1], 8), s);
      MsgBitsInjective(p, q);
    }
  }

  /** q is p damaged inside 12 consecutive bits from s on, or in an odd number of bits. */
  ghost predicate ShortOrOdd(p: seq<byte>, q: seq<byte>, s: nat)
    requires |p| == |q|
  {
    || (p != q && forall k :: 0 <= k < 8 * |p| && !(s <= k < s + 12) ==> MsgBits(p)[k] == MsgBits(q)[k])
    || Differences(MsgBits(p), MsgBits(q)) % 2 == 1
  }

  lemma {:induction false} ShortOrOddNoticed(crc: word, p: seq<byte>, q: seq<byte>, s: nat)
    requires |p| == |q| && Passes(crc, p)
    ensures ShortOrOdd(p, q, s) ==> !Passes(crc, q)
  {
    if Differences(MsgBits(p), MsgBits(q)) % 2 == 1 {
      OddNoticed(crc, p, q);
    } else if ShortOrOdd(p, q, s) {
      BurstOf12Noticed(crc, p, q, s);
    }
  }

  // ------------------------------------------------------------- what is not noticed

  lemma {:induction false} ZeroBytes(n: nat)
    ensures MsgBits(seq(n, _ => 0 as byte)) == Zeros(8 * n)
  {
    if n > 0 {
      var z := seq(n, _ => 0 as byte);
      assert z[1..] == seq(n - 1, _ => 0 as byte);
      ZeroBytes(n - 1);
      BitsOfZero(8);
    }
  }

  /** Undamaged bytes in front do not matter: damage to the last bytes is accepted in any packet
      or in none. */
  lemma {:induction false} TailDamage(n: nat, e: seq<byte>)
    requires |e| >= 2
    ensures Passes(0, seq(n, _ => 0 as byte) + e) <==> Passes(0, e)
  {
    var z := seq(n, _ => 0 as byte);
    PassesFromZero(z + e);
    PassesFromZero(e);
    PolyTail(n, z, e, z + e);
    LeadingZeros(8 * n, PolyBits(e));
  }

  lemma {:induction false} PolyTail(n: nat, z: seq<byte>, e: seq<byte>, p: seq<byte>)
    requires |e| >= 2 && z == seq(n, _ => 0 as byte) && p == z + e
    ensures PolyBits(p) == Zeros(8 * n) + PolyBits(e)
  {
    assert Message(p) == z + Message(e) && p[|p| - 1] == e[|e| - 1] && p[|p| - 2] == e[|e| - 2];
    MsgBitsAppend(z, Message(e));
    ZeroBytes(n);
    Regroup(Zeros(8 * n), MsgBits(Message(e)), Bits(e[|e| - 1], 8) + Bits(e[|e| - 2], 8));
  }

  lemma {:induction false} Regroup(a: seq<bool>, b: seq<bool>, c: seq<bool>)
    ensures (a + b) + c == a + (b + c)
  {
  }

  lemma {:induction false} AddToZero(d: byte)
    ensures AddData(0, d) == At(CrcTable(), d)
  {
    AddDataBits(0, d);
    TableIsRemainder(d);
    BitsOfZero(16);
    AddNothing(Bits(d, 8) + Zeros(16));
    WordsFromBits(AddData(0, d), At(CrcTable(), d));
  }

  lemma {:induction false} CrcOfOne(d: byte)
    ensures Crc(0, [d]) == At(CrcTable(), d)
  {
    AddToZero(d);
    assert [d][1..] == [];
    assert Crc(AddData(0, d), []) == AddData(0, d);
  }

  lemma {:induction false} XorTwice(b: byte, d: byte)
    ensures Xor8(b, Xor8(b, d)) == d
  {
    assert Add(Bits(b, 8), Add(Bits(b, 8), Bits(d, 8))) == Bits(d, 8);
    BytesFromBits(Xor8(b, Xor8(b, d)), d);
  }

  /** Damage d to the last message byte and x to the checksum, in any packet: for each d exactly
      one x goes unnoticed, the table word of d. */
  lemma {:induction false} SeamError(crc: word, m: seq<byte>, b: byte, d: byte, x: word)
    ensures Crc(crc, m + [Xor8(b, d)]) == Xor16(Crc(crc, m + [b]), x) <==> At(CrcTable(), d) == x
  {
    var c := Crc(crc, m);
    SumAppend(AddData, crc, m, [b]);
    SumAppend(AddData, crc, m, [Xor8(b, d)]);
    CrcOfOne(d);
    OneByteError(c, b, d, x, At(CrcTable(), d));
  }

  lemma {:induction false} OneByteError(c: word, b: byte, d: byte, x: word, t: word)
    requires Crc(0, [d]) == t
    ensures Crc(c, [Xor8(b, d)]) == Xor16(Crc(c, [b]), x) <==> t == x
  {
    ErrorOfOne(b, d, Xor8(b, d));
    ChecksumErrors(c, [b], [Xor8(b, d)], x, Xor16(Crc(c, [b]), x));
  }

  lemma {:induction false} ErrorOfOne(b: byte, d: byte, b': byte)
    requires b' == Xor8(b, d)
    ensures Errors([b], [b']) == [d]
  {
    XorTwice(b, d);
  }

  lemma {:induction false} TableWords()
    ensures At(CrcTable(), 0x01) == 0x1021 && At(CrcTable(), 0x89) == 0xA1
  {
    assert CrcTable()[0][1] == 4129 && CrcTable()[17][1] == 161;
  }

  /** A burst of 16 bits over the last message byte and the low checksum byte. */
  lemma {:induction false} SeamErrorExists(crc: word, m: seq<byte>, b: byte)
    ensures Crc(crc, m + [Xor8(b, 0x89)]) == Xor16(Crc(crc, m + [b]), 0xA1)
  {
    TableWords();
    SeamError(crc, m, b, 0x89, 0xA1);
  }

  const BURST_OF_13: seq<byte> := [0x01, 0x21, 0x10]

  lemma {:induction false} MsgBits3(a: byte, b: byte, c: byte)
    ensures MsgBits([a, b, c]) == Bits(a, 8) + Bits(b, 8) + Bits(c, 8)
  {
    assert [a, b, c] == [a] + [b] + [c];
    MsgBitsAppend([a] + [b], [c]);
    MsgBitsAppend([a], [b]);
    MsgBits1(a);
    MsgBits1(b);
    MsgBits1(c);
  }

  lemma {:induction false} MsgBits1(a: byte)
    ensures MsgBits([a]) == Bits(a, 8)
  {
    assert [a][1..] == [];
    assert Bits(a, 8) + [] == Bits(a, 8);
  }

  lemma {:induction false} BitsOfFirst()
    ensures Bits(0x01, 8) == Zeros(7) + [true]
  {
    BitsOfZero(7);
  }

  lemma {:induction false} BitsOfLast()
    ensures Bits(0x10, 8) == Zeros(3) + [true] + Zeros(4)
  {
    BitsOfZero(3);
    assert Bits(1, 4) == Zeros(3) + [true];
    assert Bits(4, 6) == Zeros(3) + [true] + [false] + [false];
    assert Bits(0x10, 8) == Zeros(3) + [true] + [false] + [false] + [false] + [false];
  }

  lemma {:induction false} Between(b: seq<bool>, m: seq<bool>)
    requires |m| == 8 && b == Zeros(7) + [true] + m + (Zeros(3) + [true] + Zeros(4))
    ensures forall k :: 0 <= k < 24 && !(7 <= k < 20) ==> !b[k]
  {
  }

  lemma {:induction false} BitsOf13()
    ensures forall k :: 0 <= k < 24 && !(7 <= k < 20) ==> !MsgBits(BURST_OF_13)[k]
  {
    BitsOfFirst();
    BitsOfLast();
    MsgBits3(0x01, 0x21, 0x10);
    Between(MsgBits(BURST_OF_13), Bits(0x21, 8));
  }

  lemma {:induction false} PartsOf13()
    ensures BURST_OF_13 == [0x01] + WordBytesOf(0x1021)
  {
  }

  lemma {:induction false} Passes13()
    ensures Passes(0, BURST_OF_13)
  {
    hide Passes, MsgBits;
    TableWords();
    CrcOfOne(0x01);
    PartsOf13();
    PacketOf(0, [0x01], 0x1021);
  }

  /** Twelve bits are the limit: this damage to 13 consecutive bits at the end of a packet of any
      length is never noticed. */
  lemma {:induction false} BurstOf13Missed(crc: word, p: seq<byte>, q: seq<byte>)
    requires |p| == |q| >= 3 && Passes(crc, p)
    requires Errors(p, q) == seq(|p| - 3, _ => 0 as byte) + BURST_OF_13
    ensures Passes(crc, q)
    ensures var s := 8 * |p| - 17;
            forall k :: 0 <= k < 8 * |p| && !(s <= k < s + 13) ==> !MsgBits(Errors(p, q))[k]
  {
    hide Passes, MsgBits, Crc;
    var n := |p| - 3;
    DamageAccepted(crc, p, q);
    TailDamage(n, BURST_OF_13);
    Passes13();
    EndBits13(n, Errors(p, q));
  }

  lemma {:induction false} EndBits13(n: nat, e: seq<byte>)
    requires e == seq(n, _ => 0 as byte) + BURST_OF_13
    ensures forall k :: 0 <= k < 8 * |e| && !(8 * n + 7 <= k < 8 * n + 20) ==> !MsgBits(e)[k]
  {
    MsgBitsAppend(seq(n, _ => 0 as byte), BURST_OF_13);
    ZeroBytes(n);
    BitsOf13();
    EndBits(n, MsgBits(BURST_OF_13), MsgBits(e));
  }

  lemma {:induction false} EndBits(n: nat, b: seq<bool>, e: seq<bool>)
    requires |b| == 24 && e == Zeros(8 * n) + b && forall k :: 0 <= k < 24 && !(7 <= k < 20) ==> !b[k]
    ensures forall k :: 0 <= k < |e| && !(8 * n + 7 <= k < 8 * n + 20) ==> !e[k]
  {
    forall k | 0 <= k < |e| && !(8 * n + 7 <= k < 8 * n + 20)
      ensures !e[k]
    {
      if k >= 8 * n {
        assert e[k] == b[k - 8 * n];
      }
    }
  }

  /** The bits of a packet are those of its message, then those of its checksum bytes. */
  lemma {:induction false} BitsOfParts(p: seq<byte>)
    requires |p| >= 2
    ensures MsgBits(Message(p)) == MsgBits(p)[..8 * |p| - 16]
    ensures MsgBits(p[|p| - 2..]) == MsgBits(p)[8 * |p| - 16..]
  {
    assert p == Message(p) + p[|p| - 2..];
    MsgBitsAppend(Message(p), p[|p| - 2..]);
  }

  ghost predicate SameOutside(b: seq<bool>, b': seq<bool>, s: nat)
    requires |b| == |b'|
  {
    forall k :: 0 <= k < |b| && !(s <= k < s + 16) ==> b[k] == b'[k]
  }

  /** Packets that pass and have the same checksum bytes do not differ by a burst, and packets
      that pass and have the same message are equal. */
  lemma {:induction false} BothPartsDiffer(crc: word, p: seq<byte>, q: seq<byte>, s: nat)
    requires |p| == |q| && p != q && Passes(crc, p) && Passes(crc, q)
    requires SameOutside(MsgBits(Message(p)), MsgBits(Message(q)), s)
    ensures Message(p) != Message(q) && p[|p| - 2..] != q[|p| - 2..]
  {
    SameMessage(crc, p, q);
    if Message(p) != Message(q) {
      ChecksumsDiffer(crc, Message(p), Message(q), s);
    }
  }

  lemma {:induction false} SameMessage(crc: word, p: seq<byte>, q: seq<byte>)
    requires |p| == |q| && Passes(crc, p) && Passes(crc, q)
    ensures Message(p) == Message(q) ==> p == q
  {
    hide Crc, MsgBits;
    assert p == Message(p) + p[|p| - 2..] && q == Message(q) + q[|q| - 2..];
  }

  lemma {:induction false} ChecksumsDiffer(crc: word, m: seq<byte>, m': seq<byte>, s: nat)
    requires |m| == |m'| && m != m' && SameOutside(MsgBits(m), MsgBits(m'), s)
    ensures WordBytesOf(Crc(crc, m)) != WordBytesOf(Crc(crc, m'))
  {
    BurstInMessage(crc, m, m', s);
    if WordBytesOf(Crc(crc, m)) == WordBytesOf(Crc(crc, m')) {
      WordBytesInjective(Crc(crc, m), Crc(crc, m'));
    }
  }

  lemma {:induction false} BurstInMessage(crc: word, m: seq<byte>, m': seq<byte>, s: nat)
    requires |m| == |m'| && m != m' && SameOutside(MsgBits(m), MsgBits(m'), s)
    ensures Crc(crc, m) != Crc(crc, m')
  {
    BurstDetected(crc, m, m', s);
  }

  /** A burst of 16 bits that goes unnoticed lies over the seam, with damage on both sides. So
      the last two message bytes and the checksum bytes decide, whatever the packet. */
  lemma {:induction false} MissedLiesOverSeam(crc: word, p: seq<byte>, q: seq<byte>, s: nat)
    requires |p| == |q| && p != q && Passes(crc, p) && Passes(crc, q)
    requires SameOutside(MsgBits(p), MsgBits(q), s)
    ensures s < 8 * (|p| - 2) < s + 16
    ensures Message(p) != Message(q) && p[|p| - 2..] != q[|p| - 2..]
  {
    BitsOfParts(p);
    BitsOfParts(q);
    WindowParts(MsgBits(p), MsgBits(q), 8 * |p| - 16, s);
    BothPartsDiffer(crc, p, q, s);
    if s >= 8 * |p| - 16 {
      MsgBitsInjective(Message(p), Message(q));
    } else if s + 16 <= 8 * |p| - 16 {
      MsgBitsInjective(p[|p| - 2..], q[|p| - 2..]);
    }
  }

  lemma {:induction false} WindowParts(b: seq<bool>, b': seq<bool>, n: nat, s: nat)
    requires |b| == |b'| >= n && SameOutside(b, b', s)
    ensures SameOutside(b[..n], b'[..n], s)
    ensures s >= n ==> b[..n] == b'[..n]
    ensures s + 16 <= n ==> b[n..] == b'[n..]
  {
  }
}
