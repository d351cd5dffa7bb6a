/** The NAK code, the one thing the receiver gets by looking ahead in the raw buffer, and so the
    one thing that depends on how the bytes are cut into reads. */
module RlinkNakCode {
  import opened Words
  import opened RlinkPacketBuf
  import opened RlinkPacketBufSnd
  import opened RlinkReceiver
  import opened RlinkFraming

  /** A NAK code is carried by the byte with prefix 10, the inverted code and the code; all other
      bytes give the invalid code. */
  lemma {:induction false} NakCodeBytes(c: byte, nc: byte)
    requires nc < 8
    ensures NakCodeOf(c) == nc <==> c == 0x80 + 8 * (7 - nc) + nc
    ensures NakCodeOf(c) <= 8
  {
    assert c == 64 * (c / 64) + 8 * ((c / 8) % 8) + c % 8;
  }

  /** The bytes that follow byte n in the read that holds it. */
  function RestOfRead(chunks: seq<seq<byte>>, n: nat): seq<byte>
    decreases |chunks|
  {
    if chunks == [] then []
    else if n < |chunks[0]| then chunks[0][n + 1..]
    else RestOfRead(chunks[1..], n - |chunks[0]|)
  }

  lemma {:induction false} RestIsPrefix(chunks: seq<seq<byte>>, n: nat)
    requires n < |Flatten(chunks)|
    ensures RestOfRead(chunks, n) <= Flatten(chunks)[n + 1..]
    decreases |chunks|
  {
    if n >= |chunks[0]| {
      RestIsPrefix(chunks[1..], n - |chunks[0]|);
      assert Flatten(chunks)[n + 1..] == Flatten(chunks[1..])[n - |chunks[0]| + 1..];
    }
  }

  /** The NAK code of the first packet delivered, or of the one being collected. */
  function FirstCode(f: Fed): byte {
    if f.out != [] then f.out[0].nakCode else f.s.nakCode
  }

  /** In a packet that was broken off by a NAK. */
  predicate Naked(s: Rcv) {
    !s.phase.Idle? && s.flags.nak
  }

  /** A second NAK makes the packet an error, so the code stays. */
  lemma {:induction false} CodeStays(s: Rcv, r: seq<byte>)
    requires Naked(s)
    ensures FirstCode(Feed(s, r)) == s.nakCode && (Feed(s, r).out == [] ==> Naked(Feed(s, r).s))
    decreases |r|
  {
    if !Finished(s) && r != [] {
      CodeStays(Step(s, r[0], NakPeek(r[1..])), r[1..]);
    }
  }

  lemma {:induction false} CodeStaysReads(s: Rcv, chunks: seq<seq<byte>>)
    requires Naked(s) && !Finished(s)
    ensures FirstCode(FeedReads(s, chunks)) == s.nakCode
    decreases |chunks|
  {
    if chunks != [] {
      CodeStays(s, chunks[0]);
      if Feed(s, chunks[0]).out == [] {
        CodeStaysReads(Feed(s, chunks[0]).s, chunks[1..]);
      }
    }
  }

  /** Inside a packet, behind ESC, with no NAK so far: the code byte of a NAK is taken here. */
  predicate AtNak(s: Rcv) {
    s.phase.Fill? && s.esc && !s.flags.attn && !s.flags.nak
  }

  /** The read in which the NAK comes: the code is what is seen behind it in this read. */
  lemma {:induction false} ReadOfNak(s: Rcv, pre: seq<byte>, rest: seq<byte>)
    requires !Finished(s) && Run(Blind(s), pre).out == [] && AtNak(Run(Blind(s), pre).s)
    ensures var f := Feed(s, pre + [EscData(EC_NAK)] + rest);
            FirstCode(f) == NakPeek(rest) && (f.out == [] ==> Naked(f.s))
    decreases |pre|
  {
    var r := pre + [EscData(EC_NAK)] + rest;
    if pre == [] {
      EcodeInverse(EscData(EC_NAK), EC_NAK);
      assert r[0] == EscData(EC_NAK) && r[1..] == rest;
      CodeStays(Step(s, r[0], NakPeek(rest)), rest);
    } else {
      var next := Step(s, r[0], NakPeek(r[1..]));
      StepBlind(s, r[0], NakPeek(r[1..]));
      assert r[0] == pre[0] && r[1..] == pre[1..] + [EscData(EC_NAK)] + rest;
      ReadOfNak(next, pre[1..], rest);
    }
  }

  /** The same over reads: those before the one that holds the NAK do not matter, nor do those
      after it. */
  lemma {:induction false} ReadsOfNak(s: Rcv, chunks: seq<seq<byte>>, pre: seq<byte>, rest: seq<byte>)
    requires !Finished(s) && Run(Blind(s), pre).out == [] && AtNak(Run(Blind(s), pre).s)
    requires Flatten(chunks) == pre + [EscData(EC_NAK)] + rest
    ensures FirstCode(FeedReads(s, chunks)) == NakPeek(RestOfRead(chunks, |pre|))
    decreases |chunks|
  {
    var c, n := chunks[0], |pre|;
    var all := pre + [EscData(EC_NAK)] + rest;
    assert c == all[..|c|] && Flatten(chunks[1..]) == all[|c|..];
    if n < |c| {
      assert c == pre + [EscData(EC_NAK)] + c[n + 1..];
      ReadOfNak(s, pre, c[n + 1..]);
      if Feed(s, c).out == [] {
        CodeStaysReads(Feed(s, c).s, chunks[1..]);
      }
    } else {
      assert pre == c + pre[|c|..];
      assert all[|c|..] == pre[|c|..] + [EscData(EC_NAK)] + rest;
      RunAppend(Blind(s), c, pre[|c|..]);
      FeedIsRun(s, c);
      assert |BlindAll(Feed(s, c).out)| == 0;
      ReadsOfNak(Feed(s, c).s, chunks[1..], pre[|c|..], rest);
      assert [] + FeedReads(Feed(s, c).s, chunks[1..]).out == FeedReads(Feed(s, c).s, chunks[1..]).out;
    }
  }

  /** A response broken off by a NAK behind payload p, with the code byte and any payload q after. */
  function NakFrame(xon: bool, p: seq<byte>, code: byte, q: seq<byte>): seq<byte> {
    RawEsc(EC_SOP) + Body(xon, p) + RawEsc(EC_NAK) + (Body(xon, [code] + q) + RawEsc(EC_EOP))
  }

  /** The position of the NAK in it. */
  function NakAt(xon: bool, p: seq<byte>): nat {
    |RawEsc(EC_SOP) + Body(xon, p)| + 1
  }

  lemma {:induction false} CodeIsPlain(xon: bool, code: byte, q: seq<byte>)
    requires NakCodeOf(code) != NC_INVAL
    ensures Body(xon, [code] + q) != [] && Body(xon, [code] + q)[0] == code
  {
    assert ([code] + q)[1..] == q;
  }

  lemma {:induction false} BeforeNak(s: Rcv, xon: bool, p: seq<byte>)
    requires Ready(s)
    ensures var f := Run(s, RawEsc(EC_SOP) + Body(xon, p) + [SYM_ESC]);
            f.out == [] && AtNak(f.s)
  {
    var half := s.(phase := Fill, flags := s.flags.(sop := true), pkt := p);
    RunStart(s, xon, p);
    RunOne(half, SYM_ESC);
    RunOut(half.(esc := true));
    ChainQuiet(s, RawEsc(EC_SOP) + Body(xon, p), [SYM_ESC], half, Fed([], half.(esc := true)));
  }

  /** A response broken off by a NAK, in any reads, is delivered with the NAK index right; its NAK
      code is the one sent exactly if the read that holds the NAK holds at least two bytes more,
      and otherwise it is the invalid code. */
  lemma {:induction false} NakCodeNeedsTwoMoreBytes(s: Rcv, xon: bool, p: seq<byte>, code: byte, q: seq<byte>,
                                                    chunks: seq<seq<byte>>)
    requires Ready(s) && NakCodeOf(code) != NC_INVAL
    requires Flatten(chunks) == NakFrame(xon, p, code, q)
    ensures var out := FeedReads(s, chunks).out;
            && |out| == 1
            && Blind(out[0]) == Rcv(Done, false, RESPONSE.(nak := true), p + ([code] + q), |p|, 0, s.drop)
            && out[0].nakCode == if |RestOfRead(chunks, NakAt(xon, p))| >= 2 then NakCodeOf(code) else NC_INVAL
  {
    var pre := RawEsc(EC_SOP) + Body(xon, p) + [SYM_ESC];
    var rest := Body(xon, [code] + q) + RawEsc(EC_EOP);
    assert NakFrame(xon, p, code, q) == pre + [EscData(EC_NAK)] + rest;
    assert Blind(s) == s;
    BeforeNak(s, xon, p);
    ReadsOfNak(s, chunks, pre, rest);
    NakIndexed(s, xon, p, [code] + q);
    ReadsDeliver(s, chunks, NakFrame(xon, p, code, q), Run(s, NakFrame(xon, p, code, q)).out);
    assert |BlindAll(FeedReads(s, chunks).out)| == 1;
    RestIsPrefix(chunks, |pre|);
    assert Flatten(chunks)[|pre| + 1..] == rest;
    CodeIsPlain(xon, code, q);
    assert rest[0] == code;
  }
}
