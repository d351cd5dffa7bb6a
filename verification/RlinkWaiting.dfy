/** What waiting for a response comes to, over any reads: whether one is found, which one, what
    is noted on the way, and what is left of a packet when the wait fails. */
module RlinkWaiting {
  import opened Words
  import opened Checksum
  import opened RlinkPacketBuf
  import RlinkPacketBufSnd
  import opened RlinkReceiver
  import opened RlinkFraming
  import opened RlinkInput
  import opened RlinkCommand
  import opened RlinkDecoding

  /** The data of a sequence of reads. */
  function DataOf(input: seq<PortRead>): (d: seq<seq<byte>>)
    ensures |d| == |input|
  {
    seq(|input|, k requires 0 <= k < |input| => input[k].data)
  }

  /** A read that delivers bytes. */
  predicate Good(r: PortRead) {
    r.irc > 0 && r.data != []
  }

  /** The first read that fails, or the number of reads. */
  function FirstFailed(input: seq<PortRead>): (k: nat)
    ensures k <= |input|
  {
    if input == [] || input[0].irc <= 0 then 0 else 1 + FirstFailed(input[1..])
  }

  ghost predicate AllGood(input: seq<PortRead>) {
    forall k :: 0 <= k < |input| ==> Good(input[k])
  }

  /** All reads deliver bytes or fail. */
  ghost predicate Reads(input: seq<PortRead>) {
    forall k :: 0 <= k < |input| ==> input[k].irc > 0 ==> input[k].data != []
  }

  /** The position of the first response among the packets delivered, or their number. */
  function FirstResponse(out: seq<Rcv>): (n: nat)
    ensures n <= |out|
    ensures n < |out| ==> PacketState(out[n]).Response?
  {
    if out == [] || PacketState(out[0]).Response? then 0 else 1 + FirstResponse(out[1..])
  }

  lemma {:induction false} NoneBefore(out: seq<Rcv>, k: nat)
    requires k < FirstResponse(out)
    ensures !PacketState(out[k]).Response?
  {
    if k > 0 {
      NoneBefore(out[1..], k - 1);
    }
  }

  lemma {:induction false} ResponseBehind(out: seq<Rcv>, more: seq<Rcv>)
    ensures FirstResponse(out + more)
      == if FirstResponse(out) < |out| then FirstResponse(out) else |out| + FirstResponse(more)
    decreases |out|
  {
    if out == [] {
      assert out + more == more;
    } else {
      assert (out + more)[1..] == out[1..] + more;
      ResponseBehind(out[1..], more);
    }
  }

  lemma {:induction false} NotifiesAppend(add: Adder, a: seq<Rcv>, b: seq<Rcv>)
    ensures Notifies(add, a + b) == Notifies(add, a) + Notifies(add, b)
    decreases |a|
  {
    if a == [] {
      assert a + b == b;
    } else {
      assert (a + b)[1..] == a[1..] + b;
      NotifiesAppend(add, a[1..], b);
    }
  }

  // ------------------------------------------------------------- one read

  /** One read: the loop stops at the first response among the packets in it, having noted the
      notifies before; without one it takes the whole read. */
  lemma {:induction false} SortStops(add: Adder, s: Rcv, r: seq<byte>, noti: set<nat>)
    requires !Finished(s) || r != []
    ensures var f := Feed(s, r);
            var n := FirstResponse(f.out);
            var w := Sort(add, true, s, r, noti);
            if n < |f.out| then w.s == f.out[n] && w.noti == noti + Notifies(add, f.out[..n])
            else w == Sorted(f.s, [], noti + Notifies(add, f.out))
    decreases Measure(s, r)
  {
    if r == [] {
      assert noti + {} == noti;
    } else {
      var t := Scan(s, r);
      FeedScan(s, r);
      TurnOf(add, true, s, r, noti);
      if Finished(t.s) && !PacketState(t.s).Response? {
        hide Feed, Notifies, FirstResponse, Sort;
        var more := if PacketState(t.s).Attention? then NotifyOf(add, t.s.pkt) else {};
        assert noti + {} == noti;
        SortStops(add, Accept(t.s), t.rest, noti + more);
        OneMore(add, t.s, Feed(Accept(t.s), t.rest).out, more, noti);
      } else {
        assert ([t.s] + Feed(Accept(t.s), t.rest).out)[..0] == [] && noti + {} == noti;
      }
    }
  }

  /** A packet that is no response, in front of others. */
  lemma {:induction false} OneMore(add: Adder, e: Rcv, out: seq<Rcv>, more: set<nat>, noti: set<nat>)
    requires !PacketState(e).Response? && more == if PacketState(e).Attention? then NotifyOf(add, e.pkt) else {}
    ensures var n := FirstResponse(out);
            && FirstResponse([e] + out) == n + 1
            && noti + Notifies(add, ([e] + out)[..n + 1]) == noti + more + Notifies(add, out[..n])
            && noti + Notifies(add, [e] + out) == noti + more + Notifies(add, out)
  {
    var n := FirstResponse(out);
    assert ([e] + out)[1..] == out;
    assert ([e] + out)[..n + 1] == [e] + out[..n] && ([e] + out[..n])[1..] == out[..n];
  }

  // ------------------------------------------------------------- the wait

  /** The outcome of a wait in terms of the packets f in the reads before the first failed one. */
  ghost predicate WaitsFor(add: Adder, f: Fed, input: seq<PortRead>, timeout: int, noti: set<nat>, w: Waited) {
    var k, n := FirstFailed(input), FirstResponse(f.out);
    && (w.ok <==> n < |f.out|)
    && (w.ok ==> w.s == f.out[n] && w.noti == noti + Notifies(add, f.out[..n]))
    && (!w.ok ==>
         && w.rest == [] && w.noti == noti + Notifies(add, f.out)
         && w.s == if k == |input| then Accept(f.s) else ReadFailed(f.s, input[k].irc, timeout))
  }

  lemma {:induction false} WaitGoesOn(add: Adder, f: Fed, g: Fed, input: seq<PortRead>, timeout: int,
                                      noti: set<nat>, w: Waited)
    requires input != [] && input[0].irc > 0 && FirstResponse(f.out) == |f.out|
    requires WaitsFor(add, g, input[1..], timeout, noti + Notifies(add, f.out), w)
    ensures WaitsFor(add, Behind(f.out, g), input, timeout, noti, w)
  {
    hide Notifies, FirstResponse;
    ResponseBehind(f.out, g.out);
    NotifiesAppend(add, f.out, g.out);
    var n := FirstResponse(g.out);
    NotifiesAppend(add, f.out, g.out[..n]);
    assert (f.out + g.out)[..|f.out| + n] == f.out + g.out[..n];
    assert noti + (Notifies(add, f.out) + Notifies(add, g.out)) == noti + Notifies(add, f.out) + Notifies(add, g.out);
    assert noti + (Notifies(add, f.out) + Notifies(add, g.out[..n])) == noti + Notifies(add, f.out) + Notifies(add,
      g.out[..n]);
  }

  lemma {:induction false} WaitStopsHere(add: Adder, f: Fed, g: Fed, input: seq<PortRead>, timeout: int,
                                         noti: set<nat>, w: Waited)
    requires FirstResponse(f.out) < |f.out| && w.ok
    requires var n := FirstResponse(f.out); w.s == f.out[n] && w.noti == noti + Notifies(add, f.out[..n])
    ensures WaitsFor(add, Behind(f.out, g), input, timeout, noti, w)
  {
    ResponseBehind(f.out, g.out);
    var n := FirstResponse(f.out);
    assert (f.out + g.out)[..n] == f.out[..n];
  }

  /** Waiting succeeds exactly if a response is delivered before a read fails or the time is up;
      it stops at the first one, with the notifies before it noted. Otherwise all notifies are
      noted, and the receiver is as the reads before the failure left it, with the flag of the
      failure set, or, when the time was up without a failed read, it has forgotten a packet
      that was not complete. */
  lemma {:induction false} WaitIs(add: Adder, s: Rcv, input: seq<PortRead>, timeout: int, noti: set<nat>)
    requires !Finished(s) && Reads(input)
    ensures WaitsFor(add, FeedReads(s, DataOf(input[..FirstFailed(input)])), input, timeout, noti,
                     Wait(add, s, input, timeout, noti))
    decreases |input|
  {
    assert noti + {} == noti;
    var k := FirstFailed(input);
    var chunks := DataOf(input[..k]);
    if input != [] && input[0].irc > 0 {
      var f := Feed(s, input[0].data);
      SortStops(add, s, input[0].data, noti);
      var chunks' := DataOf(input[1..][..k - 1]);
      assert chunks[0] == input[0].data && chunks[1..] == chunks';
      var g := FeedReads(f.s, chunks');
      var w := Wait(add, s, input, timeout, noti);
      if FirstResponse(f.out) < |f.out| {
        WaitStopsHere(add, f, g, input, timeout, noti, w);
      } else {
        WaitIs(add, f.s, input[1..], timeout, noti + Notifies(add, f.out));
        WaitGoesOn(add, f, g, input, timeout, noti, w);
      }
    } else {
      assert chunks == [];
    }
  }

  // ------------------------------------------------------------- failed waits

  /** A failed wait: the partial packet is gone exactly if no read failed or there was none. */
  lemma {:induction false} PartialPacketKept(add: Adder, s: Rcv, input: seq<PortRead>, timeout: int, noti: set<nat>)
    requires !Finished(s) && Reads(input) && !Wait(add, s, input, timeout, noti).ok
    ensures var w := Wait(add, s, input, timeout, noti);
            var k := FirstFailed(input);
            var f := FeedReads(s, DataOf(input[..k]));
            && (k == |input| ==> w.s.pkt == [])
            && (k < |input| ==> w.s.pkt == f.s.pkt && w.s.nakIndex == f.s.nakIndex)
            && (k < |input| ==> if input[k].irc == timeout then w.s.flags.tout else w.s.flags.io)
  {
    WaitIs(add, s, input, timeout, noti);
  }

  lemma {:induction false} NothingDecodes(add: Adder, cmds: seq<Command>, nak: int)
    requires cmds != [] && Sized(cmds)
    ensures !DecodeFrom(PacketDecoder(add, [], nak), cmds, 0, -1, 0, 0).ok
  {
    assert SizeSet(cmds[0]);
    DecodeOne(PacketDecoder(add, [], nak), cmds, 0, 0, 0, PacketDecoder(add, [], nak)(cmds[0], 0, 0));
  }

  /** The wait result is ignored: after a failed wait a list is reported as completed exactly if a
      read failed and the bytes collected until then, although no packet ended, begin with the
      responses of a device to the list; and then the list has just these answers. */
  lemma {:induction false} CompletesUnanswered(add: Adder, s: Rcv, input: seq<PortRead>, timeout: int, noti: set<nat>,
                                               cmds: seq<Command>)
    requires !Finished(s) && Reads(input) && cmds != [] && Sized(cmds)
    requires !Wait(add, s, input, timeout, noti).ok
    ensures var w := Wait(add, s, input, timeout, noti);
            var k := FirstFailed(input);
            var f := FeedReads(s, DataOf(input[..k]));
            var r := DecodeFrom(PacketDecoder(add, w.s.pkt, w.s.nakIndex), cmds, 0, -1, 0, 0);
            && (r.ok <==> k < |input| && exists answers, abort :: Holds(add, f.s.pkt, f.s.nakIndex, cmds, answers, abort))
            && forall answers, abort :: r.ok && Holds(add, f.s.pkt, f.s.nakIndex, cmds, answers, abort) ==>
                 Recovered(r, cmds, answers, abort)
  {
    var f := FeedReads(s, DataOf(input[..FirstFailed(input)]));
    PartialPacketKept(add, s, input, timeout, noti);
    if FirstFailed(input) == |input| {
      NothingDecodes(add, cmds, Wait(add, s, input, timeout, noti).s.nakIndex);
    } else {
      DecodesIff(add, f.s.pkt, f.s.nakIndex, cmds);
    }
  }

  lemma {:induction false} FirstFailedAt(input: seq<PortRead>, k: nat)
    requires k < |input| && input[k].irc <= 0 && forall j :: 0 <= j < k ==> input[j].irc > 0
    ensures FirstFailed(input) == k
    decreases k
  {
    if k > 0 {
      FirstFailedAt(input[1..], k - 1);
    }
  }

  /** It does happen, for every list: a response whose end of packet is missing, in any reads, and
      then a timeout or an IO error, gives a completed list with all the answers. */
  lemma {:induction false} UnansweredCompletes(add: Adder, s: Rcv, input: seq<PortRead>, bad: PortRead, timeout: int,
                                               noti: set<nat>, xon: bool, cmds: seq<Command>, answers: seq<Answer>,
                                                 abort: nat)
    requires Ready(s) && AllGood(input) && bad.irc <= 0
    requires Sized(cmds) && AllFit(cmds, answers) && FirstAbort(cmds, answers, abort)
    requires Flatten(DataOf(input)) == RawEsc(EC_SOP) + RlinkPacketBufSnd.Body(xon, Responses(AnswerEncoder(add),
      cmds, answers, 0, 0))
    ensures var w := Wait(add, s, input + [bad], timeout, noti);
            !w.ok
              && Recovered(DecodeFrom(PacketDecoder(add, w.s.pkt, w.s.nakIndex), cmds, 0, -1, 0, 0), cmds, answers, abort)
  {
    var p := Responses(AnswerEncoder(add), cmds, answers, 0, 0);
    var f := FeedReads(s, DataOf(input));
    FirstFailedAt(input + [bad], |input|);
    assert (input + [bad])[..|input|] == input;
    RunStart(s, xon, p);
    assert Blind(s) == s;
    ReadsDoNotMatter(s, DataOf(input));
    assert |BlindAll(f.out)| == 0 && Blind(f.s).pkt == p && Blind(f.s).nakIndex == -1;
    WaitIs(add, s, input + [bad], timeout, noti);
    ListRoundTrip(add, cmds, answers, abort, []);
    assert p + [] == p;
  }
}
