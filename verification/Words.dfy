/** Unsigned machine words as bounded integers, and their bits. */
module Words {
  import opened Gf2Poly

  type byte = b: int | 0 <= b < 0x100
  type word = w: int | 0 <= w < 0x1_0000

  function Pow2(n: nat): (p: nat)
    ensures p > 0
  {
    if n == 0 then 1 else 2 * Pow2(n - 1)
  }

  /** The n low bits of v, most significant first. */
  function Bits(v: nat, n: nat): (b: seq<bool>)
    ensures |b| == n
    decreases n
  {
    if n == 0 then [] else Bits(v / 2, n - 1) + [v % 2 == 1]
  }

  function Value(b: seq<bool>): (v: nat)
    ensures v < Pow2(|b|)
  {
    if b == [] then 0 else 2 * Value(b[..|b| - 1]) + if b[|b| - 1] then 1 else 0
  }

  lemma {:induction false} BitsOfValue(b: seq<bool>)
    ensures Bits(Value(b), |b|) == b
  {
    if b != [] {
      BitsOfValue(b[..|b| - 1]);
    }
  }

  lemma {:induction false} ValueOfBits(v: nat, n: nat)
    requires v < Pow2(n)
    ensures Value(Bits(v, n)) == v
    decreases n
  {
    if n > 0 {
      ValueOfBits(v / 2, n - 1);
      assert Bits(v, n)[..n - 1] == Bits(v / 2, n - 1);
    }
  }

  lemma {:induction false} Pow2Values()
    ensures Pow2(5) == 32 && Pow2(8) == 256 && Pow2(12) == 4096
    ensures Pow2(15) == 0x8000 && Pow2(16) == 0x1_0000
  {
    assert Pow2(4) == 16;
    assert Pow2(8) == 256;
    assert Pow2(12) == 4096;
  }

  function Xor8(a: byte, b: byte): (c: byte)
    ensures Bits(c, 8) == Add(Bits(a, 8), Bits(b, 8))
  {
    Pow2Values();
    BitsOfValue(Add(Bits(a, 8), Bits(b, 8)));
    Value(Add(Bits(a, 8), Bits(b, 8)))
  }

  function Xor16(a: word, b: word): (c: word)
    ensures Bits(c, 16) == Add(Bits(a, 16), Bits(b, 16))
  {
    Pow2Values();
    BitsOfValue(Add(Bits(a, 16), Bits(b, 16)));
    Value(Add(Bits(a, 16), Bits(b, 16)))
  }

  lemma {:induction false} BytesFromBits(a: byte, b: byte)
    requires Bits(a, 8) == Bits(b, 8)
    ensures a == b
  {
    Pow2Values();
    ValueOfBits(a, 8);
    ValueOfBits(b, 8);
  }

  lemma {:induction false} WordsFromBits(a: word, b: word)
    requires Bits(a, 16) == Bits(b, 16)
    ensures a == b
  {
    Pow2Values();
    ValueOfBits(a, 16);
    ValueOfBits(b, 16);
  }

  lemma {:induction false} BitsOfZero(n: nat)
    ensures Bits(0, n) == Zeros(n)
  {
    if n > 0 {
      BitsOfZero(n - 1);
      assert Zeros(n) == Zeros(n - 1) + [false];
    }
  }

  lemma {:induction false} ValueCons(x: bool, q: seq<bool>)
    ensures Value([x] + q) == Value(q) + if x then Pow2(|q|) else 0
  {
    if q != [] {
      var q' := q[..|q| - 1];
      ValueCons(x, q');
      assert ([x] + q)[..|q|] == [x] + q';
    }
  }

  lemma {:induction false} ValueFlip(b: seq<bool>, i: nat)
    requires i < |b|
    ensures Value(b[i := !b[i]])
         == if b[i] then Value(b) - Pow2(|b| - 1 - i) else Value(b) + Pow2(|b| - 1 - i)
    decreases |b|
  {
    var c := b[i := !b[i]];
    if i == |b| - 1 {
      assert c[..|b| - 1] == b[..|b| - 1];
    } else {
      ValueFlip(b[..|b| - 1], i);
      assert c[..|b| - 1] == b[..|b| - 1][i := !b[i]];
    }
  }

  lemma {:induction false} ValueOfZeros(n: nat)
    ensures Value(Zeros(n)) == 0
  {
    if n > 0 {
      ValueOfZeros(n - 1);
      assert Zeros(n)[..n - 1] == Zeros(n - 1);
    }
  }

  lemma {:induction false} ZeroValue(b: seq<bool>)
    requires Value(b) == 0
    ensures b == Zeros(|b|)
  {
    if b != [] {
      ZeroValue(b[..|b| - 1]);
    }
  }

  function Digit(b: bool): (d: nat)
    ensures d <= 1
  {
    if b then 1 else 0
  }

  lemma {:induction false} ValueSteps(b: seq<bool>, n: nat)
    requires n < |b|
    ensures Value(b[..n + 1]) == 2 * Value(b[..n]) + Digit(b[n])
  {
    assert b[..n + 1][..n] == b[..n];
  }

  /** v shifted left by n. */
  function Shl(v: nat, n: nat): nat {
    if n == 0 then v else 2 * Shl(v, n - 1)
  }

  lemma {:induction false} ValueAppend(p: seq<bool>, q: seq<bool>)
    ensures Value(p + q) == Shl(Value(p), |q|) + Value(q)
    decreases |q|
  {
    if q == [] {
      assert p + q == p;
    } else {
      var q' := q[..|q| - 1];
      ValueAppend(p, q');
      assert (p + q)[..|p + q| - 1] == p + q';
    }
  }

  lemma {:induction false} Shl5(v: nat)
    ensures Shl(v, 5) == 32 * v
  {
    assert Shl(v, 1) == 2 * v;
    assert Shl(v, 3) == 8 * v;
  }

  lemma {:induction false} Shl12(v: nat)
    ensures Shl(v, 12) == 4096 * v
  {
    Shl8(v);
    assert Shl(v, 10) == 1024 * v;
  }

  lemma {:induction false} Shl8(v: nat)
    ensures Shl(v, 8) == 256 * v
  {
    assert Shl(v, 1) == 2 * v;
    assert Shl(v, 3) == 8 * v;
    assert Shl(v, 5) == 32 * v;
    assert Shl(v, 7) == 128 * v;
  }

  lemma {:induction false} JoinBits(h: seq<bool>, l: seq<bool>, b: seq<bool>, w: nat)
    requires |h| == |l| == 8 && b == h + l && w == 256 * Value(h) + Value(l)
    ensures w == Value(b)
  {
    ValueAppend(h, l);
    Shl8(Value(h));
  }

  lemma {:induction false} BitsFromValue(b: seq<bool>, v: nat, n: nat)
    requires v == Value(b) && n == |b|
    ensures Bits(v, n) == b
  {
    BitsOfValue(b);
  }

  lemma {:induction false} JoinBytes(hi: byte, lo: byte, w: nat)
    requires w == 256 * hi + lo
    ensures Bits(w, 16) == Bits(hi, 8) + Bits(lo, 8)
  {
    Pow2Values();
    ValueOfBits(hi, 8);
    ValueOfBits(lo, 8);
    JoinBits(Bits(hi, 8), Bits(lo, 8), Bits(hi, 8) + Bits(lo, 8), w);
    BitsFromValue(Bits(hi, 8) + Bits(lo, 8), w, 16);
  }

  /** A word's bits are its high byte's and its low byte's. */
  lemma {:induction false} WordBytes(c: word, hi: byte, lo: byte)
    requires hi == c / 256 && lo == c % 256
    ensures Bits(c, 16) == Bits(hi, 8) + Bits(lo, 8)
  {
    JoinBytes(hi, lo, c);
  }
}
