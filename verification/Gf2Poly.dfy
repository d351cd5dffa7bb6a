/** Polynomials over GF(2), highest coefficient first, and long division by the
    generator x^16 + x^12 + x^5 + 1 of ITU-T V.41. Independent of any register or table. */
module Gf2Poly {

  const GENERATOR: seq<bool> := [
    true, false, false, false, true, false, false, false, false,
    false, false, true, false, false, false, false, true]

  function Zeros(n: nat): (p: seq<bool>)
    ensures |p| == n && forall k :: 0 <= k < n ==> !p[k]
  {
    seq(n, _ => false)
  }

  /** Coefficientwise sum. */
  function Add(p: seq<bool>, q: seq<bool>): (r: seq<bool>)
    requires |p| == |q|
    ensures |r| == |p| && forall k :: 0 <= k < |p| ==> r[k] == (p[k] != q[k])
  {
    seq(|p|, k requires 0 <= k < |p| => p[k] != q[k])
  }

  function Scale(f: bool, p: seq<bool>): (r: seq<bool>)
    ensures |r| == |p| && forall k :: 0 <= k < |p| ==> r[k] == (f && p[k])
  {
    seq(|p|, k requires 0 <= k < |p| => f && p[k])
  }

  /** q added to the leading coefficients of p. */
  function AddFront(p: seq<bool>, q: seq<bool>): (r: seq<bool>)
    requires |q| <= |p|
    ensures |r| == |p|
    ensures forall k :: 0 <= k < |q| ==> r[k] == (p[k] != q[k])
    ensures forall k :: |q| <= k < |p| ==> r[k] == p[k]
  {
    Add(p[..|q|], q) + p[|q|..]
  }

  /** One line of the schoolbook division: the leading term is cancelled. */
  function Cancel(d: seq<bool>): (r: seq<bool>)
    requires |d| > 16
    ensures |r| == |d| - 1
  {
    AddFront(d, Scale(d[0], GENERATOR))[1..]
  }

  /** The remainder, of degree below 16. */
  function Remainder(d: seq<bool>): (r: seq<bool>)
    ensures |d| >= 16 ==> |r| == 16
    decreases |d|
  {
    if |d| <= 16 then d else Remainder(Cancel(d))
  }

  function Quotient(d: seq<bool>): (q: seq<bool>)
    ensures |d| >= 16 ==> |q| == |d| - 16
    decreases |d|
  {
    if |d| <= 16 then [] else [d[0]] + Quotient(Cancel(d))
  }

  /** q(x) times the generator. */
  function TimesGenerator(q: seq<bool>): (p: seq<bool>)
    ensures |p| == |q| + 16
  {
    if q == [] then Zeros(16)
    else AddFront([false] + TimesGenerator(q[1..]), Scale(q[0], GENERATOR))
  }

  /** Long division is a division: dividend = quotient * generator + remainder. */
  lemma {:induction false} DivisionIdentity(d: seq<bool>)
    requires |d| >= 16
    ensures d == Add(TimesGenerator(Quotient(d)), Zeros(|d| - 16) + Remainder(d))
    decreases |d|
  {
    if |d| > 16 {
      var c := Cancel(d);
      DivisionIdentity(c);
      assert Quotient(d)[1..] == Quotient(c);
      DivisionLine(d, TimesGenerator(Quotient(c)), Remainder(c));
    }
  }

  /** If the cancelled dividend is t + r, the dividend is the shifted t plus the scaled generator plus r. */
  lemma {:induction false} DivisionLine(d: seq<bool>, t: seq<bool>, r: seq<bool>)
    requires |d| > 16 && |t| == |d| - 1 && |r| == 16
    requires Cancel(d) == Add(t, Zeros(|d| - 17) + r)
    ensures d == Add(AddFront([false] + t, Scale(d[0], GENERATOR)), Zeros(|d| - 16) + r)
  {
    var s := Scale(d[0], GENERATOR);
    var z, z' := Zeros(|d| - 17) + r, Zeros(|d| - 16) + r;
    forall k | 0 <= k < |d|
      ensures d[k] == (AddFront([false] + t, s)[k] != z'[k])
    {
      if k > 0 {
        assert z'[k] == z[k - 1] && Cancel(d)[k - 1] == (t[k - 1] != z[k - 1]);
      }
    }
  }

  /** The value at x = 1: the parity of the number of terms. */
  predicate Parity(p: seq<bool>) {
    p != [] && p[0] != Parity(p[1..])
  }

  lemma {:induction false} ParityAdd(p: seq<bool>, q: seq<bool>)
    requires |p| == |q|
    ensures Parity(Add(p, q)) == (Parity(p) != Parity(q))
    decreases |p|
  {
    if p != [] {
      ParityAdd(p[1..], q[1..]);
      assert Add(p, q)[1..] == Add(p[1..], q[1..]);
    }
  }

  lemma {:induction false} ParityAppend(p: seq<bool>, q: seq<bool>)
    ensures Parity(p + q) == (Parity(p) != Parity(q))
    decreases |p|
  {
    if p == [] {
      assert p + q == q;
    } else {
      ParityAppend(p[1..], q);
      assert (p + q)[1..] == p[1..] + q;
    }
  }

  lemma {:induction false} ParityZeros(n: nat)
    ensures !Parity(Zeros(n))
  {
    if n > 0 {
      assert Zeros(n)[1..] == Zeros(n - 1);
      ParityZeros(n - 1);
    }
  }

  lemma {:induction false} ParityGenerator(f: bool)
    ensures !Parity(Scale(f, GENERATOR))
  {
    ParityZeros(3);
    ParityZeros(6);
    ParityZeros(4);
    assert Scale(f, GENERATOR) == [f] + (Zeros(3) + ([f] + (Zeros(6) + ([f] + (Zeros(4) + [f])))));
    ParityAppend(Zeros(4), [f]);
    ParityAppend([f], Zeros(4) + [f]);
    ParityAppend(Zeros(6), [f] + (Zeros(4) + [f]));
    ParityAppend([f], Zeros(6) + ([f] + (Zeros(4) + [f])));
    ParityAppend(Zeros(3), [f] + (Zeros(6) + ([f] + (Zeros(4) + [f]))));
    ParityAppend([f], Zeros(3) + ([f] + (Zeros(6) + ([f] + (Zeros(4) + [f])))));
  }

  /** x + 1 divides the generator, so the remainder keeps the parity of the dividend. */
  lemma {:induction false} RemainderParity(d: seq<bool>)
    ensures Parity(Remainder(d)) == Parity(d)
    decreases |d|
  {
    if |d| > 16 {
      var s := Scale(d[0], GENERATOR);
      var r := AddFront(d, s);
      RemainderParity(Cancel(d));
      assert r == Add(d[..17], s) + d[17..] && d == d[..17] + d[17..];
      ParityAppend(Add(d[..17], s), d[17..]);
      ParityAppend(d[..17], d[17..]);
      ParityAdd(d[..17], s);
      ParityGenerator(d[0]);
      assert r == [false] + Cancel(d);
    }
  }

  /** The leading part of a dividend can be reduced first. */
  lemma {:induction false} RemainderPrefix(p: seq<bool>, q: seq<bool>)
    requires |p| >= 16
    ensures Remainder(p + q) == Remainder(Remainder(p) + q)
    decreases |p|
  {
    if |p| > 16 {
      assert Cancel(p + q) == Cancel(p) + q;
      RemainderPrefix(Cancel(p), q);
    }
  }

  lemma {:induction false} RemainderSkipsZeros(n: nat, p: seq<bool>)
    requires |p| == 16
    ensures Remainder(Zeros(n) + p) == p
  {
    if n == 0 {
      assert Zeros(n) + p == p;
    } else {
      assert Cancel(Zeros(n) + p) == Zeros(n - 1) + p;
      RemainderSkipsZeros(n - 1, p);
    }
  }

  lemma {:induction false} RemainderLinear(p: seq<bool>, q: seq<bool>)
    requires |p| == |q| >= 16
    ensures Remainder(Add(p, q)) == Add(Remainder(p), Remainder(q))
    decreases |p|
  {
    if |p| > 16 {
      CancelLinear(p, q);
      RemainderLinear(Cancel(p), Cancel(q));
    }
  }

  lemma {:induction false} CancelLinear(p: seq<bool>, q: seq<bool>)
    requires |p| == |q| > 16
    ensures Cancel(Add(p, q)) == Add(Cancel(p), Cancel(q))
  {
  }

  lemma {:induction false} CancelNothing(d: seq<bool>)
    requires |d| > 16 && !d[0]
    ensures Cancel(d) == d[1..]
  {
  }

  /** The constant term of the generator shows in the last coefficient. */
  lemma {:induction false} CancelLast(d: seq<bool>)
    requires |d| == 17
    ensures Cancel(d)[15] == (d[16] != d[0])
  {
  }

  /** Multiplying by x cannot turn a nonzero remainder into zero. */
  lemma {:induction false} ShiftKeepsNonzero(p: seq<bool>)
    requires |p| == 16 && Remainder(p + [false]) == Zeros(16)
    ensures p == Zeros(16)
  {
    var d := p + [false];
    CancelLast(d);
    assert Remainder(d) == Cancel(d);
    assert !p[0];
    CancelNothing(d);
    assert forall k :: 1 <= k < 16 ==> p[k] == d[1..][k - 1];
  }

  lemma {:induction false} ShiftsKeepNonzero(p: seq<bool>, n: nat)
    requires |p| == 16 && Remainder(p + Zeros(n)) == Zeros(16)
    ensures p == Zeros(16)
    decreases n
  {
    if n == 0 {
      assert p + Zeros(0) == p;
    } else {
      assert p + Zeros(n) == (p + [false]) + Zeros(n - 1);
      RemainderPrefix(p + [false], Zeros(n - 1));
      ShiftsKeepNonzero(Remainder(p + [false]), n - 1);
      ShiftKeepsNonzero(p);
    }
  }

  /** A nonzero burst of at most 16 terms, however it is shifted, has a nonzero remainder. */
  lemma {:induction false} BurstRemainder(before: nat, burst: seq<bool>, after: nat)
    requires |burst| == 16
    requires Remainder(Zeros(before) + burst + Zeros(after)) == Zeros(16)
    ensures burst == Zeros(16)
  {
    RemainderPrefix(Zeros(before) + burst, Zeros(after));
    RemainderSkipsZeros(before, burst);
    ShiftsKeepNonzero(burst, after);
  }
}
