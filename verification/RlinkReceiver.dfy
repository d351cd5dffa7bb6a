/** The receive automaton, one raw byte per step, and what holds over whole byte streams:
    it does not matter how a stream is cut into reads, a framed payload comes back, and any
    frame brings the receiver back into step whatever happened before. */
module RlinkReceiver {
  import opened Words
  import opened RlinkPacketBuf

  // ------------------------------------------------------------- state

  datatype Phase = Idle | Fill | Done | Error

  datatype Flags = Flags(sop: bool, eop: bool, nak: bool, attn: bool,
                         tout: bool, io: bool, frame: bool, clobber: bool)

  const NO_FLAGS := Flags(false, false, false, false, false, false, false, false)
  const RESPONSE := NO_FLAGS.(sop := true, eop := true)

  datatype Rcv = Rcv(phase: Phase, esc: bool, flags: Flags, pkt: seq<byte>,
                     nakIndex: int, nakCode: byte, drop: seq<byte>)

  const START := Rcv(Idle, false, NO_FLAGS, [], -1, 0, [])

  datatype PktState = Pending | Response | Attention | Broken

  function PacketState(s: Rcv): PktState {
    if s.phase.Idle? || s.phase.Fill? then Pending
    else if s.phase.Done? then if s.flags.sop then Response else Attention
    else Broken
  }

  predicate Finished(s: Rcv) {
    s.phase.Done? || s.phase.Error?
  }

  /** Everything but a pending escape is forgotten. */
  function Accept(s: Rcv): Rcv {
    START.(esc := s.esc)
  }

  // ------------------------------------------------------------- one byte

  const NC_INVAL: byte := 8

  function NakCodeOf(c: byte): byte {
    if c / 64 == 2 && 7 - (c / 8) % 8 == c % 8 then c % 8 else NC_INVAL
  }

  /** What the receiver records as NAK code, rest being the bytes of the current read that
      follow the NAK: it looks only when at least two of them are there. */
  function NakPeek(rest: seq<byte>): byte {
    if |rest| >= 2 then NakCodeOf(rest[0]) else NC_INVAL
  }

  function PlainStep(s: Rcv, c: byte): Rcv {
    if c == SYM_ESC then s.(esc := true)
    else if s.phase.Idle? then s.(drop := s.drop + [c])
    else s.(pkt := s.pkt + [c])
  }

  function IdleCode(s: Rcv, c: byte): Rcv {
    var ec := Ecode(c);
    if ec == EC_SOP then s.(phase := Fill, flags := s.flags.(sop := true))
    else if ec == EC_ATTN then s.(phase := Fill, flags := s.flags.(attn := true))
    else s.(drop := s.drop + [SYM_ESC, c])
  }

  /** The symbol a data escape stands for. */
  function Unescaped(ec: byte): byte {
    if ec == EC_XON then SYM_XON
    else if ec == EC_XOFF then SYM_XOFF
    else if ec == EC_FILL then SYM_FILL
    else SYM_ESC
  }

  function FillCode(s: Rcv, c: byte, peek: byte): Rcv {
    var ec := Ecode(c);
    if ec == EC_EOP then s.(phase := Done, flags := s.flags.(eop := true))
    else if ec == EC_NAK then
      if s.flags.attn || s.flags.nak then s.(phase := Error, flags := s.flags.(frame := true))
      else s.(flags := s.flags.(nak := true), nakIndex := |s.pkt|, nakCode := peek)
    else if EC_XON <= ec <= EC_ESC then s.(pkt := s.pkt + [Unescaped(ec)])
    else if ec == EC_CLOBBER then s.(phase := Error, flags := s.flags.(clobber := true))
    else s.(phase := Error, flags := s.flags.(frame := true))
  }

  function Step(s: Rcv, c: byte, peek: byte): Rcv
    requires !Finished(s)
  {
    if !s.esc then PlainStep(s, c)
    else if s.phase.Idle? then IdleCode(s.(esc := false), c)
    else FillCode(s.(esc := false), c, peek)
  }

  // ------------------------------------------------------------- one read

  /** What is delivered while bytes are processed, and the state afterwards. */
  datatype Fed = Fed(out: seq<Rcv>, s: Rcv)

  function Prepend(e: Rcv, f: Fed): Fed {
    Fed([e] + f.out, f.s)
  }

  function Measure(s: Rcv, r: seq<byte>): nat {
    2 * |r| + if Finished(s) then 1 else 0
  }

  /** The bytes r of one read, a packet being accepted as soon as it is complete or broken. */
  function Feed(s: Rcv, r: seq<byte>): (f: Fed)
    ensures !Finished(f.s)
    decreases Measure(s, r)
  {
    if Finished(s) then Prepend(s, Feed(Accept(s), r))
    else if r == [] then Fed([], s)
    else Feed(Step(s, r[0], NakPeek(r[1..])), r[1..])
  }

  datatype Scanned = Scanned(s: Rcv, rest: seq<byte>)

  /** The bytes r processed up to the end of a packet: where it stops, and what is left. */
  function Scan(s: Rcv, r: seq<byte>): (t: Scanned)
    ensures Finished(t.s) || t.rest == []
    ensures Measure(t.s, t.rest) <= Measure(s, r)
    decreases |r|
  {
    if Finished(s) || r == [] then Scanned(s, r)
    else Scan(Step(s, r[0], NakPeek(r[1..])), r[1..])
  }

  /** Accepting packets as they come is scanning, delivering and going on with the rest. */
  lemma {:induction false} FeedScan(s: Rcv, r: seq<byte>)
    ensures var t := Scan(s, r);
            Feed(s, r) == if Finished(t.s) then Prepend(t.s, Feed(Accept(t.s), t.rest)) else Fed([], t.s)
    decreases |r|
  {
    if !Finished(s) && r != [] {
      FeedScan(Step(s, r[0], NakPeek(r[1..])), r[1..]);
    }
  }

  /** A sequence of reads. */
  function FeedReads(s: Rcv, chunks: seq<seq<byte>>): Fed
    decreases |chunks|
  {
    if chunks == [] then Fed([], s)
    else
      var f := Feed(s, chunks[0]);
      Behind(f.out, FeedReads(f.s, chunks[1..]))
  }

  function Behind(out: seq<Rcv>, f: Fed): Fed {
    Fed(out + f.out, f.s)
  }

  // ------------------------------------------------------------- the reference automaton

  /** The byte-at-a-time automaton: it never looks ahead and keeps no NAK code. */
  function Run(s: Rcv, r: seq<byte>): (f: Fed)
    ensures !Finished(f.s)
    decreases Measure(s, r)
  {
    if Finished(s) then Prepend(s, Run(Accept(s), r))
    else if r == [] then Fed([], s)
    else Run(Step(s, r[0], 0), r[1..])
  }

  function Blind(s: Rcv): Rcv {
    s.(nakCode := 0)
  }

  function BlindAll(out: seq<Rcv>): (b: seq<Rcv>)
    ensures |b| == |out| && forall k :: 0 <= k < |out| ==> b[k] == Blind(out[k])
  {
    seq(|out|, k requires 0 <= k < |out| => Blind(out[k]))
  }

  function BlindFed(f: Fed): Fed {
    Fed(BlindAll(f.out), Blind(f.s))
  }

  lemma {:induction false} StepBlind(s: Rcv, c: byte, peek: byte)
    requires !Finished(s)
    ensures Blind(Step(s, c, peek)) == Step(Blind(s), c, 0)
  {
  }

  lemma {:induction false} FeedIsRun(s: Rcv, r: seq<byte>)
    ensures BlindFed(Feed(s, r)) == Run(Blind(s), r)
    decreases Measure(s, r)
  {
    if Finished(s) {
      FeedIsRun(Accept(s), r);
      var f := Feed(Accept(s), r);
      assert Blind(Accept(s)) == Accept(Blind(s));
      assert BlindAll([s] + f.out) == [Blind(s)] + BlindAll(f.out);
    } else if r != [] {
      var next := Step(s, r[0], NakPeek(r[1..]));
      StepBlind(s, r[0], NakPeek(r[1..]));
      FeedIsRun(next, r[1..]);
    }
  }

  lemma {:induction false} RunOut(s: Rcv)
    ensures Run(s, []) == if Finished(s) then Fed([s], Accept(s)) else Fed([], s)
  {
    assert Run(Accept(s), []) == Fed([], Accept(s));
  }

  lemma {:induction false} RunAppend(s: Rcv, a: seq<byte>, b: seq<byte>)
    ensures Run(s, a + b) == Behind(Run(s, a).out, Run(Run(s, a).s, b))
    decreases Measure(s, a)
  {
    if Finished(s) {
      RunAppend(Accept(s), a, b);
      var f, g := Run(Accept(s), a), Run(Run(Accept(s), a).s, b);
      assert [s] + (f.out + g.out) == ([s] + f.out) + g.out;
    } else if a == [] {
      assert a + b == b;
    } else {
      assert (a + b)[1..] == a[1..] + b;
      RunAppend(Step(s, a[0], 0), a[1..], b);
    }
  }

  function Flatten(chunks: seq<seq<byte>>): seq<byte> {
    if chunks == [] then [] else chunks[0] + Flatten(chunks[1..])
  }

  /** However a byte stream is cut into reads, the packets delivered, their flags, payload
      and NAK index and the bytes dropped are those of the byte-at-a-time automaton. */
  lemma {:induction false} ReadsDoNotMatter(s: Rcv, chunks: seq<seq<byte>>)
    requires !Finished(s)
    ensures BlindFed(FeedReads(s, chunks)) == Run(Blind(s), Flatten(chunks))
    decreases |chunks|
  {
    hide Run, Feed;
    if chunks == [] {
      RunOut(Blind(s));
    } else {
      var f := Feed(s, chunks[0]);
      var g := FeedReads(f.s, chunks[1..]);
      FeedIsRun(s, chunks[0]);
      ReadsDoNotMatter(f.s, chunks[1..]);
      RunAppend(Blind(s), chunks[0], Flatten(chunks[1..]));
      assert BlindAll(f.out + g.out) == BlindAll(f.out) + BlindAll(g.out);
    }
  }
}
