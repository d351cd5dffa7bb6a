/** Arithmetic of the controller on machine words: ring indices of 16 bits, and counters of 32
    and 16 bits that stop at their maximum. */
module DeunaWords {

  const WORD := 0x1_0000
  const LONG := 0x1_0000_0000

  type word = w: int | 0 <= w < WORD

  /** inc further in a ring of size entries; the sum is a 16 bit word. */
  function RingIndexNext(index: nat, size: nat, inc: nat): nat {
    var next := (index + inc) % WORD;
    if next >= size then next - size else next
  }

  /** That is addition modulo the ring size exactly as long as the sum fits into the word. */
  lemma {:induction false} RingIndexModulo(index: nat, size: nat, inc: nat)
    requires index < size < WORD && inc <= size
    ensures RingIndexNext(index, size, inc) == (index + inc) % size <==> index + inc < WORD
  {
    var sum := index + inc;
    if sum < WORD {
      assert sum % WORD == sum;
    } else {
      assert sum % WORD == sum - WORD;
    }
    OneTurn(sum, size);
  }

  lemma {:induction false} Quotient(x: int, n: int, q: int, r: int)
    requires 0 <= r < n && x == q * n + r
    ensures x % n == r
  {
    var d := x / n - q;
    assert d * n == r - x % n;
    assert d >= 1 ==> d * n >= n;
    assert d <= -1 ==> d * n <= 0 - n;
  }

  lemma {:induction false} OneTurn(sum: nat, size: nat)
    requires 0 < size && sum < 2 * size
    ensures sum % size == if sum >= size then sum - size else sum
  {
    if sum >= size {
      Quotient(sum, size, 1, sum - size);
    }
  }

  /** A 32 bit counter: the sum wraps around, which shows, and the counter then saturates. */
  function UpdateStat32(stat: nat, inc: nat): (r: nat)
    requires stat < LONG && inc < LONG
    ensures r == if stat + inc < LONG then stat + inc else LONG - 1
  {
    var sum := (stat + inc) % LONG;
    if sum < inc then LONG - 1 else sum
  }

  /** A 16 bit counter held in 32 bits. */
  function UpdateStat16(stat: nat, inc: nat): (r: nat)
    requires stat < LONG && inc < LONG
    ensures r == if stat + inc < WORD then stat + inc else WORD - 1
  {
    var sum := (stat + inc) % LONG;
    if sum < inc || sum > 0xFFFF then 0xFFFF else sum
  }
}
