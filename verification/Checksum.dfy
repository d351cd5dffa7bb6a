/** A running checksum over bytes, for any step function. The packet layers are built over
    an arbitrary one; RlinkCrc16 is the one in use. */
module Checksum {
  import opened Words

  type Adder = (word, byte) -> word

  /** The bytes of msg added one by one to the accumulator. */
  function Sum(add: Adder, crc: word, msg: seq<byte>): word
    decreases |msg|
  {
    if msg == [] then crc else Sum(add, add(crc, msg[0]), msg[1..])
  }

  lemma {:induction false} SumAppend(add: Adder, crc: word, a: seq<byte>, b: seq<byte>)
    ensures Sum(add, crc, a + b) == Sum(add, Sum(add, crc, a), b)
    decreases |a|
  {
    if a == [] {
      assert a + b == b;
    } else {
      assert (a + b)[1..] == a[1..] + b;
      SumAppend(add, add(crc, a[0]), a[1..], b);
    }
  }

  lemma {:induction false} SumWord(add: Adder, crc: word, w: word)
    ensures Sum(add, crc, WordBytesOf(w)) == add(add(crc, w % 256), w / 256)
  {
    var c := add(crc, w % 256);
    assert WordBytesOf(w)[1..] == [w / 256];
    assert [w / 256][1..] == [];
    assert Sum(add, c, [w / 256]) == Sum(add, add(c, w / 256), []);
  }

  /** The low byte goes first. */
  function WordBytesOf(w: word): (b: seq<byte>)
    ensures |b| == 2
  {
    [w % 256, w / 256]
  }

  lemma {:induction false} WordBytesInjective(a: word, b: word)
    requires WordBytesOf(a) == WordBytesOf(b)
    ensures a == b
  {
    assert WordBytesOf(a)[0] == b % 256 && WordBytesOf(a)[1] == b / 256;
  }

  function WordsBytes(ws: seq<word>): (b: seq<byte>)
    ensures |b| == 2 * |ws|
  {
    if ws == [] then [] else WordsBytes(ws[..|ws| - 1]) + WordBytesOf(ws[|ws| - 1])
  }

  function WordAt(p: seq<byte>, i: nat): word
    requires i + 2 <= |p|
  {
    p[i] + 256 * p[i + 1] as int
  }

  function WordsAt(p: seq<byte>, i: nat, n: nat): (ws: seq<word>)
    requires i + 2 * n <= |p|
    ensures |ws| == n
  {
    seq(n, k requires 0 <= k < n => WordAt(p, i + 2 * k))
  }

  lemma {:induction false} SumSlices(add: Adder, crc: word, p: seq<byte>, i: nat, j: nat, k: nat)
    requires i <= j <= k <= |p|
    ensures Sum(add, Sum(add, crc, p[i..j]), p[j..k]) == Sum(add, crc, p[i..k])
  {
    SumAppend(add, crc, p[i..j], p[j..k]);
    assert p[i..j] + p[j..k] == p[i..k];
  }
}
