/** Symbols and escape codes shared by the sending and the receiving packet buffer. */
module RlinkPacketBuf {
  import opened Words

  const SYM_ESC: byte := 0xCA
  const SYM_FILL: byte := 0xD5
  const SYM_XON: byte := 0x11
  const SYM_XOFF: byte := 0x13

  const EC_SOP: byte := 0
  const EC_EOP: byte := 1
  const EC_NAK: byte := 2
  const EC_ATTN: byte := 3
  const EC_XON: byte := 4
  const EC_XOFF: byte := 5
  const EC_FILL: byte := 6
  const EC_ESC: byte := 7
  const EC_CLOBBER: byte := 0xFF

  type ecode = e: byte | e < 8

  /** The byte that follows ESC: prefix 01, the inverted code, the code. */
  function EscData(ec: ecode): byte {
    0x40 + (7 - ec) * 8 + ec
  }

  /** ESC and its code byte. */
  function RawEsc(ec: ecode): seq<byte> {
    [SYM_ESC, EscData(ec)]
  }

  /** The code carried by the byte after ESC, or EC_CLOBBER. */
  function Ecode(c: byte): byte {
    if c / 64 != 1 || 7 - (c / 8) % 8 != c % 8 then EC_CLOBBER else c % 8
  }

  /** Exactly the eight code bytes are recognised. */
  lemma {:induction false} EcodeInverse(c: byte, ec: ecode)
    ensures Ecode(c) == ec <==> c == EscData(ec)
    ensures EscData(ec) != SYM_ESC
  {
    assert EscData(ec) == 0x78 - 7 * ec;
    assert c == 64 * (c / 64) + 8 * ((c / 8) % 8) + c % 8;
  }

  /** Inverting one bit of a code byte never gives another code byte. */
  lemma {:induction false} CodeBitError(c: byte, d: byte, bit: nat)
    requires bit < 8 && Ecode(c) != EC_CLOBBER
    requires d == c + Pow2(bit) || d == c - Pow2(bit)
    ensures Ecode(d) == EC_CLOBBER
  {
    PowersBelow8(bit);
    EcodeInverse(c, c % 8);
    if Ecode(d) != EC_CLOBBER {
      EcodeInverse(d, d % 8);
      Distance(c, c % 8, d, d % 8);
    }
  }

  lemma {:induction false} Distance(c: byte, e: ecode, d: byte, f: ecode)
    requires c == EscData(e) && d == EscData(f)
    ensures d - c == 7 * (e - f)
  {
  }

  lemma {:induction false} PowersBelow8(n: nat)
    requires n < 8
    ensures Pow2(n) in {1, 2, 4, 8, 16, 32, 64, 128}
  {
    match n
    case 0 =>
    case 1 => assert Pow2(0) == 1;
    case 2 => assert Pow2(1) == 2;
    case 3 => assert Pow2(2) == 4;
    case 4 => assert Pow2(3) == 8;
    case 5 => assert Pow2(3) == 8;
    case 6 => assert Pow2(4) == 16;
    case 7 => assert Pow2(5) == 32;
  }
}
