/** The sending packet buffer: payload with checksum, and escaped framing. */
module RlinkPacketBufSnd {
  import opened Words
  import opened RlinkPacketBuf
  import opened Checksum

  // ------------------------------------------------------------- framing

  /** Must payload byte c be escaped, and with which code. */
  function EscapeOf(xon: bool, c: byte): (ec: int)
    ensures ec == -1 || ec == EC_ESC || (xon && (ec == EC_XON || ec == EC_XOFF))
  {
    if c == SYM_ESC then EC_ESC
    else if xon && c == SYM_XON then EC_XON
    else if xon && c == SYM_XOFF then EC_XOFF
    else -1
  }

  function EscapeByte(xon: bool, c: byte): seq<byte> {
    if EscapeOf(xon, c) == -1 then [c] else RawEsc(EscapeOf(xon, c))
  }

  /** The escaped payload. */
  function Body(xon: bool, p: seq<byte>): seq<byte>
    decreases |p|
  {
    if p == [] then [] else EscapeByte(xon, p[0]) + Body(xon, p[1..])
  }

  /** SOP, escaped payload, EOP. */
  function Frame(xon: bool, p: seq<byte>): seq<byte> {
    RawEsc(EC_SOP) + Body(xon, p) + RawEsc(EC_EOP)
  }

  function Count(s: set<byte>, p: seq<byte>): (n: nat)
    ensures n <= |p|
  {
    if p == [] then 0 else Count(s, p[1..]) + if p[0] in s then 1 else 0
  }

  const ESC_ONLY: set<byte> := {SYM_ESC}
  const FLOW: set<byte> := {SYM_XON, SYM_XOFF}

  lemma {:induction false} BodySize(xon: bool, p: seq<byte>)
    ensures |Body(xon, p)| == |p| + Count(ESC_ONLY, p) + if xon then Count(FLOW, p) else 0
    ensures Count(ESC_ONLY, p) + Count(FLOW, p) <= |p|
  {
    if p != [] {
      BodySize(xon, p[1..]);
    }
  }

  /** Raw length, and the bound the source reserves. */
  lemma {:induction false} FrameSize(xon: bool, p: seq<byte>)
    ensures |Frame(xon, p)| == |p| + 4 + Count(ESC_ONLY, p) + if xon then Count(FLOW, p) else 0
    ensures |Frame(xon, p)| <= 2 * |p| + 4
  {
    BodySize(xon, p);
  }

  /** The escaped payload holds no flow control byte when these are escaped, and ESC only
      in front of a data escape code. */
  lemma {:induction false} BodyBytes(xon: bool, p: seq<byte>, k: nat)
    requires k < |Body(xon, p)|
    ensures xon ==> Body(xon, p)[k] !in FLOW
    ensures Body(xon, p)[k] == SYM_ESC ==>
      k + 1 < |Body(xon, p)| && Ecode(Body(xon, p)[k + 1]) in {EC_ESC, EC_XON, EC_XOFF}
  {
    var first := EscapeByte(xon, p[0]);
    if k >= |first| {
      BodyBytes(xon, p[1..], k - |first|);
    } else {
      var ec := EscapeOf(xon, p[0]);
      if ec != -1 {
        EcodeInverse(EscData(ec), ec);
        assert EscData(ec) in {0x47, 0x5C, 0x55};
      }
    }
  }

  /** With flow control escaped no frame contains XON or XOFF. */
  lemma {:induction false} FrameAvoidsFlow(p: seq<byte>, k: nat)
    requires k < |Frame(true, p)|
    ensures Frame(true, p)[k] !in FLOW
  {
    if 2 <= k < 2 + |Body(true, p)| {
      BodyBytes(true, p, k - 2);
    }
  }

  lemma {:induction false} BodyStep(xon: bool, p: seq<byte>, i: nat)
    requires i < |p|
    ensures Body(xon, p[i..]) == EscapeByte(xon, p[i]) + Body(xon, p[i + 1..])
    ensures Count(ESC_ONLY, p[i..]) == Count(ESC_ONLY, p[i + 1..]) + if p[i] == SYM_ESC then 1 else 0
    ensures Count(FLOW, p[i..]) == Count(FLOW, p[i + 1..]) + if p[i] == SYM_XON || p[i] == SYM_XOFF then 1 else 0
  {
    assert p[i..][1..] == p[i + 1..];
  }

  // ------------------------------------------------------------- the buffer

  /** raw is what was there, raw' what is now, and rest what is still to come of body. */
  ghost predicate Remaining(raw: seq<byte>, raw': seq<byte>, body: seq<byte>, rest: seq<byte>) {
    raw' + rest == raw + body
  }

  lemma {:induction false} RemainingStep(raw: seq<byte>, raw': seq<byte>, raw'': seq<byte>, body: seq<byte>,
                      e: seq<byte>, rest: seq<byte>)
    requires Remaining(raw, raw', body, e + rest) && raw'' == raw' + e
    ensures Remaining(raw, raw'', body, rest)
  {
    assert raw' + (e + rest) == raw' + e + rest;
  }

  /** The buffer keeps the checksum with the step function add. */
  class SndBuf {
    var pktBuf: seq<byte>
    var crc: word
    var rawBuf: seq<byte>
    var xonEscape: bool
    var nTxPktByt: nat
    var nTxEsc: nat
    var nTxXEsc: nat
    const add: Adder

    constructor (add: Adder)
      ensures this.add == add
      ensures pktBuf == rawBuf == [] && crc == 0 && !xonEscape && nTxPktByt == nTxEsc == nTxXEsc == 0
    {
      this.add := add;
      pktBuf, rawBuf, crc, xonEscape := [], [], 0, false;
      nTxPktByt, nTxEsc, nTxXEsc := 0, 0, 0;
    }

    method Init()
      modifies `pktBuf, `crc, `rawBuf
      ensures pktBuf == rawBuf == [] && crc == 0
    {
      pktBuf, rawBuf, crc := [], [], 0;
    }

    method SetXonEscape(xon: bool)
      modifies `xonEscape
      ensures xonEscape == xon
    {
      xonEscape := xon;
    }

    /** Appends bytes and keeps the running checksum. */
    method PutByteWithCrc(data: byte)
      modifies `pktBuf, `crc
      ensures pktBuf == old(pktBuf) + [data] && crc == Sum(add, old(crc), [data])
    {
      pktBuf := pktBuf + [data];
      crc := add(crc, data);
    }

    method PutWordWithCrc(data: word)
      modifies `pktBuf, `crc
      ensures pktBuf == old(pktBuf) + WordBytesOf(data) && crc == Sum(add, old(crc), WordBytesOf(data))
    {
      pktBuf := pktBuf + [data % 256];
      pktBuf := pktBuf + [data / 256];
      crc := add(crc, data % 256);
      crc := add(crc, data / 256);
      SumWord(add, old(crc), data);
    }

    method PutBlockWithCrc(data: seq<word>)
      modifies `pktBuf, `crc
      ensures pktBuf == old(pktBuf) + WordsBytes(data) && crc == Sum(add, old(crc), WordsBytes(data))
    {
      var i := 0;
      while i < |data|
        invariant 0 <= i <= |data|
        invariant pktBuf == old(pktBuf) + WordsBytes(data[..i])
        invariant crc == Sum(add, old(crc), WordsBytes(data[..i]))
      {
        assert data[..i + 1][..i] == data[..i];
        SumAppend(add, old(crc), WordsBytes(data[..i]), WordBytesOf(data[i]));
        PutWordWithCrc(data[i]);
        i := i + 1;
      }
      assert data[..|data|] == data;
    }

    /** The checksum goes out low byte first and is not itself summed. */
    method PutCrc()
      modifies `pktBuf
      ensures pktBuf == old(pktBuf) + WordBytesOf(crc)
    {
      pktBuf := pktBuf + [crc % 256];
      pktBuf := pktBuf + [crc / 256];
    }

    method PutRawEsc(ec: ecode)
      modifies `rawBuf
      ensures rawBuf == old(rawBuf) + RawEsc(ec)
    {
      rawBuf := rawBuf + [SYM_ESC];
      rawBuf := rawBuf + [EscData(ec)];
    }

    /** The body of the sending loop: one payload byte, and which escape it took. */
    method PutEscaped(c: byte) returns (esc: nat, xesc: nat)
      modifies `rawBuf
      ensures rawBuf == old(rawBuf) + EscapeByte(xonEscape, c)
      ensures esc == if c == SYM_ESC then 1 else 0
      ensures xesc == if xonEscape && (c == SYM_XON || c == SYM_XOFF) then 1 else 0
    {
      esc, xesc := 0, 0;
      if c == SYM_ESC {
        PutRawEsc(EC_ESC);
        esc := 1;
        return;
      }
      if xonEscape {
        if c == SYM_XON {
          PutRawEsc(EC_XON);
          xesc := 1;
          return;
        }
        if c == SYM_XOFF {
          PutRawEsc(EC_XOFF);
          xesc := 1;
          return;
        }
      }
      rawBuf := rawBuf + [c];
    }

    /** The sending loop, with the counts of both kinds of escape. */
    method PutBody() returns (nesc: nat, nxesc: nat)
      modifies `rawBuf
      ensures rawBuf == old(rawBuf) + Body(xonEscape, pktBuf)
      ensures nesc == Count(ESC_ONLY, pktBuf)
      ensures nxesc == if xonEscape then Count(FLOW, pktBuf) else 0
    {
      nesc, nxesc := 0, 0;
      var i := 0;
      ghost var raw, p, body := rawBuf, pktBuf, Body(xonEscape, pktBuf);
      assert p[0..] == p;
      while i < |pktBuf|
        invariant 0 <= i <= |p|
        invariant Remaining(raw, rawBuf, body, Body(xonEscape, p[i..]))
        invariant nesc + Count(ESC_ONLY, p[i..]) == Count(ESC_ONLY, p)
        invariant nxesc + (if xonEscape then Count(FLOW, p[i..]) else 0)
               == if xonEscape then Count(FLOW, p) else 0
      {
        ghost var raw' := rawBuf;
        BodyStep(xonEscape, p, i);
        var esc, xesc := PutEscaped(pktBuf[i]);
        nesc, nxesc := nesc + esc, nxesc + xesc;
        RemainingStep(raw, raw', rawBuf, body, EscapeByte(xonEscape, p[i]), Body(xonEscape, p[i + 1..]));
        i := i + 1;
      }
    }

    /** Frames the payload; written is what the port reports as written. */
    method SndPacket(written: int) returns (ok: bool)
      modifies `rawBuf, `nTxEsc, `nTxXEsc, `nTxPktByt
      ensures rawBuf == Frame(xonEscape, pktBuf)
      ensures ok <==> written == |rawBuf|
      ensures nTxEsc == old(nTxEsc) + Count(ESC_ONLY, pktBuf)
      ensures nTxXEsc == old(nTxXEsc) + if xonEscape then Count(FLOW, pktBuf) else 0
      ensures nTxPktByt == old(nTxPktByt) + if ok then |pktBuf| else 0
    {
      rawBuf := [];
      PutRawEsc(EC_SOP);
      assert rawBuf == RawEsc(EC_SOP);
      var nesc, nxesc := PutBody();
      PutRawEsc(EC_EOP);
      nTxEsc := nTxEsc + nesc;
      nTxXEsc := nTxXEsc + nxesc;
      ok := written == |rawBuf|;
      if ok {
        nTxPktByt := nTxPktByt + |pktBuf|;
      }
    }
  }
}
