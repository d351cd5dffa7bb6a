/** Sender and receiver together: framed payloads come back, and a frame is a
    synchronising word of the receiver. */
module RlinkFraming {
  import opened Words
  import opened RlinkPacketBuf
  import opened RlinkPacketBufSnd
  import opened RlinkReceiver

  /** Idle or Fill without a pending escape: a byte is taken as it is. */
  predicate Plain(s: Rcv) {
    !Finished(s) && !s.esc
  }

  predicate EscFree(r: seq<byte>) {
    forall k :: 0 <= k < |r| ==> r[k] != SYM_ESC
  }

  // ------------------------------------------------------------- pieces of a frame

  lemma {:induction false} Chain(s: Rcv, a: seq<byte>, b: seq<byte>, f: Fed, g: Fed)
    requires Run(s, a) == f && Run(f.s, b) == g
    ensures Run(s, a + b) == Fed(f.out + g.out, g.s)
  {
    RunAppend(s, a, b);
  }

  lemma {:induction false} ChainQuiet(s: Rcv, a: seq<byte>, b: seq<byte>, s': Rcv, g: Fed)
    requires Run(s, a) == Fed([], s') && Run(s', b) == g
    ensures Run(s, a + b) == g
  {
    Chain(s, a, b, Fed([], s'), g);
    assert [] + g.out == g.out;
  }

  lemma {:induction false} RunJunk(s: Rcv, junk: seq<byte>)
    requires Plain(s) && s.phase.Idle? && EscFree(junk)
    ensures Run(s, junk) == Fed([], s.(drop := s.drop + junk))
    decreases |junk|
  {
    if junk == [] {
      assert s.drop + junk == s.drop;
    } else {
      RunJunk(s.(drop := s.drop + [junk[0]]), junk[1..]);
      assert s.drop + [junk[0]] + junk[1..] == s.drop + junk;
    }
  }

  /** ESC and a code byte take two steps. */
  lemma {:induction false} RunEscape(s: Rcv, ec: ecode)
    requires Plain(s)
    ensures Run(s, RawEsc(ec)) == Run(Step(s.(esc := true), EscData(ec), 0), [])
  {
    assert RawEsc(ec)[1..] == [EscData(ec)];
    assert [EscData(ec)][1..] == [];
    assert Run(s.(esc := true), [EscData(ec)]) == Run(Step(s.(esc := true), EscData(ec), 0), []);
  }

  lemma {:induction false} RunPayloadByte(s: Rcv, xon: bool, c: byte)
    requires Plain(s) && s.phase.Fill?
    ensures Run(s, EscapeByte(xon, c)) == Fed([], s.(pkt := s.pkt + [c]))
  {
    var ec := EscapeOf(xon, c);
    if ec == -1 {
      assert [c][1..] == [];
      assert Step(s, c, 0) == s.(pkt := s.pkt + [c]);
      assert Run(Step(s, c, 0), []) == Fed([], Step(s, c, 0));
    } else {
      RunEscape(s, ec);
      EcodeInverse(EscData(ec), ec);
      assert Run(Step(s.(esc := true), EscData(ec), 0), []) == Fed([], s.(pkt := s.pkt + [c]));
    }
  }

  lemma {:induction false} RunDroppedByte(s: Rcv, xon: bool, c: byte)
    requires Plain(s) && s.phase.Idle?
    ensures Run(s, EscapeByte(xon, c)) == Fed([], s.(drop := s.drop + EscapeByte(xon, c)))
  {
    var ec := EscapeOf(xon, c);
    if ec == -1 {
      RunJunk(s, [c]);
    } else {
      RunEscape(s, ec);
      EcodeInverse(EscData(ec), ec);
      assert Run(Step(s.(esc := true), EscData(ec), 0), []) == Fed([], s.(drop := s.drop + RawEsc(ec)));
    }
  }

  lemma {:induction false} RunPayload(s: Rcv, xon: bool, p: seq<byte>)
    requires Plain(s) && s.phase.Fill?
    ensures Run(s, Body(xon, p)) == Fed([], s.(pkt := s.pkt + p))
    decreases |p|
  {
    if p == [] {
      assert s.pkt + p == s.pkt;
    } else {
      var s' := s.(pkt := s.pkt + [p[0]]);
      RunPayloadByte(s, xon, p[0]);
      RunPayload(s', xon, p[1..]);
      assert s'.pkt + p[1..] == s.pkt + p;
      ChainQuiet(s, EscapeByte(xon, p[0]), Body(xon, p[1..]), s', Fed([], s.(pkt := s.pkt + p)));
    }
  }

  lemma {:induction false} RunDropped(s: Rcv, xon: bool, p: seq<byte>)
    requires Plain(s) && s.phase.Idle?
    ensures Run(s, Body(xon, p)) == Fed([], s.(drop := s.drop + Body(xon, p)))
    decreases |p|
  {
    hide Run;
    if p == [] {
      RunOut(s);
      assert s.drop + Body(xon, p) == s.drop;
    } else {
      var e := EscapeByte(xon, p[0]);
      var s' := s.(drop := s.drop + e);
      RunDroppedByte(s, xon, p[0]);
      RunDropped(s', xon, p[1..]);
      assert s'.drop + Body(xon, p[1..]) == s.drop + (e + Body(xon, p[1..]));
      ChainQuiet(s, e, Body(xon, p[1..]), s', Fed([], s.(drop := s.drop + Body(xon, p))));
    }
  }

  // ------------------------------------------------------------- round trip

  /** Idle with nothing collected; bytes may have been dropped. */
  predicate Ready(s: Rcv) {
    s == START.(drop := s.drop)
  }

  /** What is delivered for a good response frame. */
  function Good(p: seq<byte>, drop: seq<byte>): Rcv {
    Rcv(Done, false, RESPONSE, p, -1, 0, drop)
  }

  lemma {:induction false} RunSop(s: Rcv)
    requires Plain(s) && s.phase.Idle?
    ensures Run(s, RawEsc(EC_SOP)) == Fed([], s.(phase := Fill, flags := s.flags.(sop := true)))
  {
    EcodeInverse(EscData(EC_SOP), EC_SOP);
    RunEscape(s, EC_SOP);
  }

  lemma {:induction false} RunEop(s: Rcv)
    requires Plain(s) && s.phase.Fill?
    ensures Run(s, RawEsc(EC_EOP)) == Fed([s.(phase := Done, flags := s.flags.(eop := true))], START)
  {
    var done := s.(phase := Done, flags := s.flags.(eop := true));
    EcodeInverse(EscData(EC_EOP), EC_EOP);
    RunEscape(s, EC_EOP);
    assert Run(START, []) == Fed([], START);
    assert Run(done, []) == Prepend(done, Run(START, []));
  }

  lemma {:induction false} RunStart(s: Rcv, xon: bool, p: seq<byte>)
    requires Ready(s)
    ensures Run(s, RawEsc(EC_SOP) + Body(xon, p))
      == Fed([], s.(phase := Fill, flags := s.flags.(sop := true), pkt := p))
  {
    var fill := s.(phase := Fill, flags := s.flags.(sop := true));
    RunSop(s);
    RunPayload(fill, xon, p);
    assert [] + p == p;
    ChainQuiet(s, RawEsc(EC_SOP), Body(xon, p), fill, Fed([], fill.(pkt := p)));
  }

  lemma {:induction false} RunEnd(s: Rcv, xon: bool, p: seq<byte>)
    requires Plain(s) && s.phase.Fill?
    ensures Run(s, Body(xon, p) + RawEsc(EC_EOP))
      == Fed([s.(phase := Done, flags := s.flags.(eop := true), pkt := s.pkt + p)], START)
  {
    var full := s.(pkt := s.pkt + p);
    RunPayload(s, xon, p);
    RunEop(full);
    ChainQuiet(s, Body(xon, p), RawEsc(EC_EOP), full,
      Fed([full.(phase := Done, flags := s.flags.(eop := true))], START));
  }

  lemma {:induction false} FrameReceived(s: Rcv, xon: bool, p: seq<byte>)
    requires Ready(s)
    ensures Run(s, Frame(xon, p)) == Fed([Good(p, s.drop)], START)
  {
    var full := s.(phase := Fill, flags := s.flags.(sop := true), pkt := p);
    RunStart(s, xon, p);
    RunEop(full);
    ChainQuiet(s, RawEsc(EC_SOP) + Body(xon, p), RawEsc(EC_EOP), full, Fed([Good(p, s.drop)], START));
  }

  datatype Item = Item(junk: seq<byte>, payload: seq<byte>)

  /** Frames with noise in front of each. */
  function Wire(xon: bool, items: seq<Item>): seq<byte> {
    if items == [] then [] else items[0].junk + Frame(xon, items[0].payload) + Wire(xon, items[1..])
  }

  predicate NoStrayEscapes(items: seq<Item>) {
    forall k :: 0 <= k < |items| ==> EscFree(items[k].junk)
  }

  /** One good packet for each item, in order, with the noise in front of it as dropped bytes. */
  function Deliveries(drop: seq<byte>, items: seq<Item>): (out: seq<Rcv>)
    ensures |out| == |items|
  {
    seq(|items|, k requires 0 <= k < |items| =>
      Good(items[k].payload, (if k == 0 then drop else []) + items[k].junk))
  }

  lemma {:induction false} FirstDelivery(drop: seq<byte>, items: seq<Item>)
    requires items != []
    ensures Deliveries(drop, items)
      == [Good(items[0].payload, drop + items[0].junk)] + Deliveries([], items[1..])
  {
  }

  /** Exactly the payloads sent are delivered, in order, and exactly the noise is dropped. */
  lemma {:induction false} RoundTrip(s: Rcv, xon: bool, items: seq<Item>)
    requires Ready(s) && NoStrayEscapes(items)
    ensures |Run(s, Wire(xon, items)).out| == |items|
    ensures Run(s, Wire(xon, items)) == Fed(Deliveries(s.drop, items), if items == [] then s else START)
    decreases |items|
  {
    if items != [] {
      var s' := s.(drop := s.drop + items[0].junk);
      var frame := Frame(xon, items[0].payload);
      var good := Good(items[0].payload, s'.drop);
      RunJunk(s, items[0].junk);
      FrameReceived(s', xon, items[0].payload);
      ChainQuiet(s, items[0].junk, frame, s', Fed([good], START));
      RoundTrip(START, xon, items[1..]);
      FirstDelivery(s.drop, items);
      Chain(s, items[0].junk + frame, Wire(xon, items[1..]), Fed([good], START),
        Run(START, Wire(xon, items[1..])));
    }
  }

  // ------------------------------------------------------------- synchronisation

  /** Holds in every state the receiver reaches: nothing is collected while it is Idle. */
  predicate WellFormed(s: Rcv) {
    s.phase.Idle? ==> s == START.(esc := s.esc, drop := s.drop)
  }

  lemma {:induction false} RunWellFormed(s: Rcv, r: seq<byte>)
    requires WellFormed(s)
    ensures WellFormed(Run(s, r).s)
    decreases Measure(s, r)
  {
    if Finished(s) {
      RunWellFormed(Accept(s), r);
    } else if r != [] {
      RunWellFormed(Step(s, r[0], 0), r[1..]);
    }
  }

  lemma {:induction false} RunTwo(s: Rcv, a: byte, b: byte)
    ensures Run(s, [a, b]) == Behind(Run(s, [a]).out, Run(Run(s, [a]).s, [b]))
  {
    assert [a] + [b] == [a, b];
    RunAppend(s, [a], [b]);
  }

  lemma {:induction false} RunOne(s: Rcv, c: byte)
    requires !Finished(s)
    ensures Run(s, [c]) == Run(Step(s, c, 0), [])
  {
    assert [c][1..] == [];
  }

  /** A SOP read anywhere but at rest ends what was going on. */
  lemma {:induction false} SopResets(s: Rcv)
    requires WellFormed(s) && !Finished(s) && !(s.phase.Idle? && !s.esc)
    ensures Ready(Run(s, RawEsc(EC_SOP)).s)
  {
    var sop := EscData(EC_SOP);
    EcodeInverse(sop, EC_SOP);
    var s1 := Step(s, SYM_ESC, 0);
    RunTwo(s, SYM_ESC, sop);
    RunOne(s, SYM_ESC);
    RunOut(s1);
    var s2 := Run(s1, []).s;
    RunOne(s2, sop);
    RunOut(Step(s2, sop, 0));
  }

  lemma {:induction false} RestDropped(s: Rcv, xon: bool, p: seq<byte>)
    requires Ready(s)
    ensures Ready(Run(s, Body(xon, p) + RawEsc(EC_EOP)).s)
  {
    var s' := s.(drop := s.drop + Body(xon, p));
    RunDropped(s, xon, p);
    RunEscape(s', EC_EOP);
    EcodeInverse(EscData(EC_EOP), EC_EOP);
    RunOut(Step(s'.(esc := true), EscData(EC_EOP), 0));
    ChainQuiet(s, Body(xon, p), RawEsc(EC_EOP), s', Run(s', RawEsc(EC_EOP)));
  }

  /** One frame, from any state at all, leaves the receiver idle, with no pending escape. */
  lemma {:induction false} FrameSynchronises(s: Rcv, xon: bool, p: seq<byte>)
    requires WellFormed(s)
    ensures Ready(Run(s, Frame(xon, p)).s)
    decreases Finished(s)
  {
    if Finished(s) {
      FrameSynchronises(Accept(s), xon, p);
    } else if s.phase.Idle? && !s.esc {
      FrameReceived(s, xon, p);
    } else {
      var tail := Body(xon, p) + RawEsc(EC_EOP);
      SopResets(s);
      RestDropped(Run(s, RawEsc(EC_SOP)).s, xon, p);
      RunAppend(s, RawEsc(EC_SOP), tail);
      assert RawEsc(EC_SOP) + tail == Frame(xon, p);
    }
  }

  /** After arbitrary bytes at most one frame is lost: all later ones are delivered exactly. */
  lemma {:induction false} Resynchronised(s: Rcv, noise: seq<byte>, xon: bool, p: seq<byte>, items: seq<Item>)
    requires WellFormed(s) && NoStrayEscapes(items)
    ensures
      var first := Run(s, noise + Frame(xon, p));
      && Run(s, noise + Frame(xon, p) + Wire(xon, items)).out
           == first.out + Deliveries(first.s.drop, items)
      && Ready(Run(s, noise + Frame(xon, p) + Wire(xon, items)).s)
  {
    var before := Run(s, noise).s;
    var first := Run(s, noise + Frame(xon, p));
    RunWellFormed(s, noise);
    FrameSynchronises(before, xon, p);
    RunAppend(s, noise, Frame(xon, p));
    RoundTrip(first.s, xon, items);
    RunAppend(s, noise + Frame(xon, p), Wire(xon, items));
  }

  predicate IntactResponse(e: Rcv, p: seq<byte>) {
    PacketState(e) == Response && e.flags == RESPONSE && e.pkt == p && e.nakIndex == -1
  }

  /** From position n on, out holds exactly the items. */
  ghost predicate EndsWith(out: seq<Rcv>, n: nat, items: seq<Item>) {
    && |out| == n + |items|
    && (forall k :: 0 <= k < |items| ==> IntactResponse(out[n + k], items[k].payload))
    && (forall k :: 1 <= k < |items| ==> out[n + k].drop == items[k].junk)
  }

  lemma {:induction false} TailIntact(out: seq<Rcv>, lost: seq<Rcv>, drop: seq<byte>, items: seq<Item>)
    requires BlindAll(out) == lost + Deliveries(drop, items)
    ensures EndsWith(out, |lost|, items)
  {
    var b := BlindAll(out);
    assert |b| == |out|;
    forall k | 0 <= k < |items|
      ensures IntactResponse(out[|lost| + k], items[k].payload)
      ensures k > 0 ==> out[|lost| + k].drop == items[k].junk
    {
      assert b[|lost| + k] == Deliveries(drop, items)[k];
      assert [] + items[k].junk == items[k].junk;
    }
  }

  lemma {:induction false} ReadsDeliver(s: Rcv, chunks: seq<seq<byte>>, raw: seq<byte>, out: seq<Rcv>)
    requires !Finished(s) && Blind(s) == s
    requires Flatten(chunks) == raw && out == Run(s, raw).out
    ensures BlindAll(FeedReads(s, chunks).out) == out
  {
    ReadsDoNotMatter(s, chunks);
  }

  /** The same for a receiver that gets the bytes in any reads. */
  lemma {:induction false} ResynchronisedReads(s: Rcv, noise: seq<byte>, xon: bool, p: seq<byte>, items: seq<Item>,
                                               chunks: seq<seq<byte>>)
    returns (out: seq<Rcv>, n: nat)
    requires WellFormed(s) && !Finished(s) && Blind(s) == s && NoStrayEscapes(items)
    requires Flatten(chunks) == noise + Frame(xon, p) + Wire(xon, items)
    ensures out == FeedReads(s, chunks).out && EndsWith(out, n, items)
  {
    out := FeedReads(s, chunks).out;
    var first := Run(s, noise + Frame(xon, p));
    Resynchronised(s, noise, xon, p, items);
    ReadsDeliver(s, chunks, noise + Frame(xon, p) + Wire(xon, items), first.out + Deliveries(first.s.drop, items));
    TailIntact(out, first.out, first.s.drop, items);
    n := |first.out|;
  }

  // ------------------------------------------------------------- notifies

  /** An attention notify as the device sends it. */
  function NotifyFrame(xon: bool, p: seq<byte>): seq<byte> {
    RawEsc(EC_ATTN) + Body(xon, p) + RawEsc(EC_EOP)
  }

  /** What is delivered for a notify frame. */
  function Note(p: seq<byte>, drop: seq<byte>): Rcv {
    Rcv(Done, false, NO_FLAGS.(attn := true, eop := true), p, -1, 0, drop)
  }

  lemma {:induction false} NotifyReceived(s: Rcv, xon: bool, p: seq<byte>)
    requires Ready(s)
    ensures Run(s, NotifyFrame(xon, p)) == Fed([Note(p, s.drop)], START)
  {
    var fill := s.(phase := Fill, flags := s.flags.(attn := true));
    EcodeInverse(EscData(EC_ATTN), EC_ATTN);
    RunEscape(s, EC_ATTN);
    RunOut(fill);
    RunEnd(fill, xon, p);
    assert [] + p == p;
    ChainQuiet(s, RawEsc(EC_ATTN), Body(xon, p) + RawEsc(EC_EOP), fill, Fed([Note(p, s.drop)], START));
    assert RawEsc(EC_ATTN) + (Body(xon, p) + RawEsc(EC_EOP)) == NotifyFrame(xon, p);
  }

  // ------------------------------------------------------------- kinds of packets

  /** A packet that is complete is a response or a notify by the code it started with, whatever else was
      seen in it, a NAK included; any error makes it a broken one. */
  lemma {:induction false} PacketKinds(s: Rcv)
    ensures PacketState(s).Response? <==> s.phase == Done && s.flags.sop
    ensures PacketState(s).Attention? <==> s.phase == Done && !s.flags.sop
    ensures PacketState(s).Broken? <==> s.phase == Error
    ensures Finished(s) <==> !PacketState(s).Pending?
  {
  }

  // ------------------------------------------------------------- every code byte

  /** What each byte after an ESC does inside a packet: 0x71 ends it; four bytes stand for XON, XOFF,
      FILL and ESC; 0x6A is a NAK, an error in a notify and after another NAK; the codes that start
      a packet are frame errors, and all other bytes clobbered. */
  lemma {:induction false} CodesInPacket(s: Rcv, c: byte, peek: byte)
    requires s.phase.Fill? && s.esc
    ensures var t, next := s.(esc := false), Step(s, c, peek);
            if c == 0x71 then next == t.(phase := Done, flags := s.flags.(eop := true))
            else if c == 0x5C then next == t.(pkt := s.pkt + [0x11])
            else if c == 0x55 then next == t.(pkt := s.pkt + [0x13])
            else if c == 0x4E then next == t.(pkt := s.pkt + [0xD5])
            else if c == 0x47 then next == t.(pkt := s.pkt + [0xCA])
            else if c == 0x6A && !s.flags.attn && !s.flags.nak then
              next == t.(flags := s.flags.(nak := true), nakIndex := |s.pkt|, nakCode := peek)
            else if c in {0x6A, 0x78, 0x63} then next == t.(phase := Error, flags := s.flags.(frame := true))
            else next == t.(phase := Error, flags := s.flags.(clobber := true))
  {
    CodeBytes(c);
  }

  /** Outside a packet 0x78 starts a response and 0x63 a notify; all other bytes are dropped with
      their ESC. */
  lemma {:induction false} CodesOutside(s: Rcv, c: byte, peek: byte)
    requires s.phase.Idle? && s.esc
    ensures var t, next := s.(esc := false), Step(s, c, peek);
            if c == 0x78 then next == t.(phase := Fill, flags := s.flags.(sop := true))
            else if c == 0x63 then next == t.(phase := Fill, flags := s.flags.(attn := true))
            else next == t.(drop := s.drop + [0xCA, c])
  {
    CodeBytes(c);
  }

  lemma {:induction false} CodeBytes(c: byte)
    ensures Ecode(c) ==
      if c == 0x78 then EC_SOP else if c == 0x71 then EC_EOP else if c == 0x6A then EC_NAK
      else if c == 0x63 then EC_ATTN else if c == 0x5C then EC_XON else if c == 0x55 then EC_XOFF
      else if c == 0x4E then EC_FILL else if c == 0x47 then EC_ESC else EC_CLOBBER
  {
    if Ecode(c) != EC_CLOBBER {
      EcodeInverse(c, c % 8);
    }
  }

  // ------------------------------------------------------------- NAK inside a frame

  lemma {:induction false} RunNak(s: Rcv)
    requires Plain(s) && s.phase.Fill? && !s.flags.attn && !s.flags.nak
    ensures Run(s, RawEsc(EC_NAK)) == Fed([], s.(flags := s.flags.(nak := true), nakIndex := |s.pkt|, nakCode := 0))
  {
    EcodeInverse(EscData(EC_NAK), EC_NAK);
    RunEscape(s, EC_NAK);
  }

  /** A response broken off by a NAK: the index tells after how many payload bytes. */
  lemma {:induction false} NakIndexed(s: Rcv, xon: bool, p: seq<byte>, q: seq<byte>)
    requires Ready(s)
    ensures Run(s, RawEsc(EC_SOP) + Body(xon, p) + RawEsc(EC_NAK) + (Body(xon, q) + RawEsc(EC_EOP)))
      == Fed([Rcv(Done, false, RESPONSE.(nak := true), p + q, |p|, 0, s.drop)], START)
  {
    var half := s.(phase := Fill, flags := s.flags.(sop := true), pkt := p);
    var nak := half.(flags := half.flags.(nak := true), nakIndex := |p|, nakCode := 0);
    var start, rest := RawEsc(EC_SOP) + Body(xon, p), Body(xon, q) + RawEsc(EC_EOP);
    RunStart(s, xon, p);
    RunNak(half);
    ChainQuiet(s, start, RawEsc(EC_NAK), half, Fed([], nak));
    RunEnd(nak, xon, q);
    ChainQuiet(s, start + RawEsc(EC_NAK), rest, nak, Run(nak, rest));
  }
}
