/** The stack as a whole: a framed response behind notifies and noise, in any reads, is found by
    the wait and decoded to what the device answered; and which damage to a response is noticed. */
module RlinkExchange {
  import opened Words
  import opened Checksum
  import opened RlinkPacketBufSnd
  import opened RlinkReceiver
  import opened RlinkFraming
  import opened RlinkInput
  import opened RlinkWaiting
  import opened RlinkCommand
  import opened RlinkDecoding
  import RlinkConnect
  import RlinkCrc16
  import RlinkCrcErrors

  // ------------------------------------------------------------- notifies in front

  /** Notify frames with noise in front of each. */
  function NotifyWire(xon: bool, items: seq<Item>): seq<byte> {
    if items == [] then []
    else items[0].junk + NotifyFrame(xon, items[0].payload) + NotifyWire(xon, items[1..])
  }

  /** The packets delivered are notifies with these payloads. */
  ghost predicate AreNotes(out: seq<Rcv>, items: seq<Item>) {
    && |out| == |items|
    && forall k :: 0 <= k < |items| ==> PacketState(out[k]).Attention? && out[k].pkt == items[k].payload
  }

  lemma {:induction false} NotesReceived(s: Rcv, xon: bool, items: seq<Item>)
    requires Ready(s) && NoStrayEscapes(items)
    ensures AreNotes(Run(s, NotifyWire(xon, items)).out, items) && Ready(Run(s, NotifyWire(xon, items)).s)
    decreases |items|
  {
    if items != [] {
      var junk, frame := items[0].junk, NotifyFrame(xon, items[0].payload);
      var s' := s.(drop := s.drop + junk);
      var note := Note(items[0].payload, s'.drop);
      var rest := Run(START, NotifyWire(xon, items[1..]));
      RunJunk(s, junk);
      NotifyReceived(s', xon, items[0].payload);
      ChainQuiet(s, junk, frame, s', Fed([note], START));
      NotesReceived(START, xon, items[1..]);
      Chain(s, junk + frame, NotifyWire(xon, items[1..]), Fed([note], START), rest);
      forall k | 0 <= k < |items|
        ensures PacketState(([note] + rest.out)[k]).Attention? && ([note] + rest.out)[k].pkt == items[k].payload
      {
        if k > 0 {
          assert items[k] == items[1..][k - 1];
        }
      }
    }
  }

  /** The attention bits in the payloads of notify frames. */
  function Noticed(add: Adder, items: seq<Item>): set<nat> {
    if items == [] then {} else NotifyOf(add, items[0].payload) + Noticed(add, items[1..])
  }

  lemma {:induction false} NotesNoticed(add: Adder, out: seq<Rcv>, items: seq<Item>)
    requires AreNotes(out, items)
    ensures Notifies(add, out) == Noticed(add, items) && FirstResponse(out) == |out|
    decreases |out|
  {
    if out != [] {
      assert PacketState(out[0]).Attention?;
      forall k | 0 <= k < |items[1..]|
        ensures PacketState(out[1..][k]).Attention? && out[1..][k].pkt == items[1..][k].payload
      {
        assert out[1..][k] == out[k + 1] && items[1..][k] == items[k + 1];
      }
      NotesNoticed(add, out[1..], items[1..]);
    }
  }

  /** What a device sends: notifies and noise, then the response. */
  function DeviceSends(xon: bool, items: seq<Item>, junk: seq<byte>, p: seq<byte>): seq<byte> {
    NotifyWire(xon, items) + (junk + Frame(xon, p))
  }

  lemma {:induction false} DeviceHeard(s: Rcv, xon: bool, items: seq<Item>, junk: seq<byte>, p: seq<byte>)
    requires Ready(s) && NoStrayEscapes(items) && EscFree(junk)
    ensures var out := Run(s, DeviceSends(xon, items, junk, p)).out;
            |out| == |items| + 1 && AreNotes(out[..|items|], items) && IntactResponse(out[|items|], p)
  {
    var f := Run(s, NotifyWire(xon, items));
    var s' := f.s.(drop := f.s.drop + junk);
    var good := RlinkFraming.Good(p, s'.drop);
    NotesReceived(s, xon, items);
    RunJunk(f.s, junk);
    FrameReceived(s', xon, p);
    ChainQuiet(f.s, junk, Frame(xon, p), s', Fed([good], START));
    Chain(s, NotifyWire(xon, items), junk + Frame(xon, p), f, Fed([good], START));
    assert (f.out + [good])[..|items|] == f.out;
  }

  lemma {:induction false} UnblindNotes(out: seq<Rcv>, b: seq<Rcv>, items: seq<Item>, p: seq<byte>)
    requires b == BlindAll(out) && |b| == |items| + 1
    requires AreNotes(b[..|items|], items) && IntactResponse(b[|items|], p)
    ensures AreNotes(out[..|items|], items) && IntactResponse(out[|items|], p)
  {
    forall k | 0 <= k < |items|
      ensures PacketState(out[..|items|][k]).Attention? && out[..|items|][k].pkt == items[k].payload
    {
      assert b[..|items|][k] == Blind(out[k]);
    }
  }

  lemma {:induction false} NoneFails(input: seq<PortRead>)
    requires AllGood(input)
    ensures FirstFailed(input) == |input| && input[..|input|] == input
    decreases |input|
  {
    if input != [] {
      NoneFails(input[1..]);
    }
  }

  /** A response frame behind notifies and noise is found, however all is cut into reads, and
      exactly the bits of these notifies are noted. */
  lemma {:induction false} FrameFound(add: Adder, s: Rcv, input: seq<PortRead>, timeout: int, noti: set<nat>,
                                      xon: bool, items: seq<Item>, junk: seq<byte>, p: seq<byte>)
    requires Ready(s) && AllGood(input) && NoStrayEscapes(items) && EscFree(junk)
    requires Flatten(DataOf(input)) == DeviceSends(xon, items, junk, p)
    ensures var w := Wait(add, s, input, timeout, noti);
            w.ok && IntactResponse(w.s, p) && w.noti == noti + Noticed(add, items)
  {
    var f := FeedReads(s, DataOf(input));
    var raw := DeviceSends(xon, items, junk, p);
    NoneFails(input);
    DeviceHeard(s, xon, items, junk, p);
    assert Blind(s) == s;
    ReadsDeliver(s, DataOf(input), raw, Run(s, raw).out);
    UnblindNotes(f.out, Run(s, raw).out, items, p);
    var n := |items|;
    assert f.out == f.out[..n] + f.out[n..];
    NotesNoticed(add, f.out[..n], items);
    ResponseBehind(f.out[..n], f.out[n..]);
    assert PacketState(f.out[n..][0]).Response?;
    WaitIs(add, s, input, timeout, noti);
  }

  // ------------------------------------------------------------- the round trip

  /** Round trip of the whole exchange, for the list as Exec sends it: whatever notifies and noise
      come first, the flow control setting and the reads, the list ends up with the device's
      answers and the notifies are noted. */
  lemma {:induction false} ExchangeRoundTrip(add: Adder, s: Rcv, input: seq<PortRead>, timeout: int, noti: set<nat>,
                                             xon: bool, items: seq<Item>, junk: seq<byte>,
                                             cmds: seq<Command>, seqs: seq<byte>, answers: seq<Answer>, abort: nat)
    requires Ready(s) && AllGood(input) && NoStrayEscapes(items) && EscFree(junk)
    requires cmds != [] && |seqs| == 8 && forall k :: 0 <= k < |cmds| ==> KnownCode(cmds[k])
    requires var sent := RlinkConnect.SentList(cmds, seqs);
             && AllFit(sent, answers) && FirstAbort(sent, answers, abort)
             && Flatten(DataOf(input))
                  == DeviceSends(xon, items, junk, Responses(AnswerEncoder(add), sent, answers, 0, 0))
    ensures var sent := RlinkConnect.SentList(cmds, seqs);
            var w := Wait(add, s, input, timeout, noti);
            var r := DecodeFrom(PacketDecoder(add, w.s.pkt, w.s.nakIndex), sent, 0, -1, 0, 0);
            w.ok && Recovered(r, sent, answers, abort) && w.noti == noti + Noticed(add, items)
  {
    var sent := RlinkConnect.SentList(cmds, seqs);
    var p := Responses(AnswerEncoder(add), sent, answers, 0, 0);
    RlinkConnect.SentListShape(cmds, seqs);
    FrameFound(add, s, input, timeout, noti, xon, items, junk, p);
    ListRoundTrip(add, sent, answers, abort, []);
    assert p + [] == p;
  }

  // ------------------------------------------------------------- damaged responses

  /** The response at i, checksum included. */
  function ResponseAt(p: seq<byte>, cmd: Command, i: nat): seq<byte>
    requires SizeSet(cmd) && i + cmd.rcvSize <= |p|
  {
    p[i..i + cmd.rcvSize]
  }

  /** A response is accepted only with the checksum of its body. */
  lemma {:induction false} AcceptedChecksum(add: Adder, p: seq<byte>, cmd: Command, i: nat, crc: word)
    requires SizeSet(cmd) && i + cmd.rcvSize <= |p|
    requires DecodeBody(add, p, cmd, i, crc).outcome.Fine?
    ensures var e := i + cmd.rcvSize - 2; p[e..e + 2] == WordBytesOf(Sum(add, crc, p[i..e]))
  {
  }

  lemma {:induction false} Slices(p: seq<byte>, i: nat, e: nat, b: seq<byte>)
    requires i <= e <= |p| - 2 && p[e..e + 2] == b
    ensures p[i..e + 2] == p[i..e] + b
  {
  }

  lemma {:induction false} AcceptedPasses(p: seq<byte>, cmd: Command, i: nat, crc: word)
    requires SizeSet(cmd) && i + cmd.rcvSize <= |p|
    requires DecodeBody(RlinkCrc16.AddData, p, cmd, i, crc).outcome.Fine?
    ensures RlinkCrcErrors.Passes(crc, ResponseAt(p, cmd, i))
  {
    AcceptedChecksum(RlinkCrc16.AddData, p, cmd, i, crc);
    var e := i + cmd.rcvSize - 2;
    var c := Sum(RlinkCrc16.AddData, crc, p[i..e]);
    Slices(p, i, e, WordBytesOf(c));
    RlinkCrcErrors.PacketOf(crc, p[i..e], c);
  }

  /** Damage to an accepted response and its checksum goes unnoticed only if the damage is itself
      a packet that passes from start value 0; so it is noticed when it lies inside 12 consecutive
      bits or hits an odd number of bits. */
  lemma {:induction false} DamageNoticed(p: seq<byte>, p': seq<byte>, cmd: Command, i: nat, crc: word, s: nat)
    requires |p| == |p'| && SizeSet(cmd) && i + cmd.rcvSize <= |p|
    requires DecodeBody(RlinkCrc16.AddData, p, cmd, i, crc).outcome.Fine?
    requires DecodeBody(RlinkCrc16.AddData, p', cmd, i, crc).outcome.Fine?
    ensures var r, r' := ResponseAt(p, cmd, i), ResponseAt(p', cmd, i);
            && RlinkCrcErrors.Passes(0, RlinkCrcErrors.Errors(r, r'))
            && !RlinkCrcErrors.ShortOrOdd(r, r', s)
  {
    hide DecodeBody, RlinkCrcErrors.Passes, RlinkCrcErrors.ShortOrOdd;
    var r, r' := ResponseAt(p, cmd, i), ResponseAt(p', cmd, i);
    AcceptedPasses(p, cmd, i, crc);
    AcceptedPasses(p', cmd, i, crc);
    RlinkCrcErrors.DamageAccepted(crc, r, r');
    RlinkCrcErrors.ShortOrOddNoticed(crc, r, r', s);
  }

  /** Damage to the summed bytes alone is noticed when it lies inside 16 consecutive bits or hits
      an odd number of bits. */
  lemma {:induction false} BodyDamageNoticed(p: seq<byte>, p': seq<byte>, cmd: Command, i: nat, crc: word, s: nat)
    requires |p| == |p'| && SizeSet(cmd) && i + cmd.rcvSize <= |p|
    requires var e := i + cmd.rcvSize - 2;
             p'[e..e + 2] == p[e..e + 2] && RlinkCrc16.Damaged(p[i..e], p'[i..e], s)
    requires DecodeBody(RlinkCrc16.AddData, p, cmd, i, crc).outcome.Fine?
    ensures !DecodeBody(RlinkCrc16.AddData, p', cmd, i, crc).outcome.Fine?
  {
    hide Sum, RlinkCrc16.Damaged;
    var e := i + cmd.rcvSize - 2;
    RlinkCrc16.DamageDetected(crc, p[i..e], p'[i..e], s);
    AcceptedChecksum(RlinkCrc16.AddData, p, cmd, i, crc);
    if DecodeBody(RlinkCrc16.AddData, p', cmd, i, crc).outcome.Fine? {
      AcceptedChecksum(RlinkCrc16.AddData, p', cmd, i, crc);
      WordBytesInjective(Sum(RlinkCrc16.AddData, crc, p[i..e]), Sum(RlinkCrc16.AddData, crc, p'[i..e]));
    }
  }
}
