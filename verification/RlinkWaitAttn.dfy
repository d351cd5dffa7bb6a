/** What waiting for an attention notify comes to, over any byte stream cut into any reads: which
    notify ends it, and whether the receiver is quiet afterwards. */
module RlinkWaitAttn {
  import opened Words
  import opened Checksum
  import opened RlinkPacketBuf
  import opened RlinkPacketBufSnd
  import opened RlinkReceiver
  import opened RlinkFraming
  import opened RlinkInput
  import opened RlinkWaiting

  /** The last byte of a completes a packet, the first one that carries attention bits. */
  ghost predicate EndsNotice(add: Adder, s: Rcv, a: seq<byte>) {
    var out := Run(s, a).out;
    && a != [] && out != [] && Run(s, a[..|a| - 1]).out == out[..|out| - 1]
    && Notifies(add, out[..|out| - 1]) == {} && Notifies(add, out) != {}
  }

  lemma {:induction false} BlindNotifies(add: Adder, out: seq<Rcv>)
    ensures Notifies(add, BlindAll(out)) == Notifies(add, out)
    decreases |out|
  {
    if out != [] {
      assert BlindAll(out)[1..] == BlindAll(out[1..]);
      BlindNotifies(add, out[1..]);
    }
  }

  // ------------------------------------------------------------- one read

  /** The last byte of a completes the packet e, the only one. */
  ghost predicate Completes(s: Rcv, a: seq<byte>, e: Rcv) {
    a != [] && Run(s, a) == Fed([e], Accept(e)) && Run(s, a[..|a| - 1]).out == []
  }

  lemma {:induction false} CompletesAtOnce(s: Rcv, c: byte)
    requires !Finished(s) && Finished(Step(s, c, 0))
    ensures Completes(s, [c], Step(s, c, 0))
  {
    RunOne(s, c);
    RunOut(Step(s, c, 0));
    assert [c][..0] == [];
  }

  lemma {:induction false} CompletesLater(s: Rcv, c: byte, a: seq<byte>, e: Rcv)
    requires !Finished(s) && Completes(Step(s, c, 0), a, e)
    ensures Completes(s, [c] + a, e)
  {
    assert ([c] + a)[..|[c] + a| - 1] == [c] + a[..|a| - 1];
    assert ([c] + a)[1..] == a && ([c] + a[..|a| - 1])[1..] == a[..|a| - 1];
  }

  /** Scanning stops at the byte that completes a packet. */
  lemma {:induction false} ScanIsRun(s: Rcv, r: seq<byte>) returns (seen: seq<byte>)
    requires !Finished(s)
    ensures var t := Scan(s, r);
            && r == seen + t.rest
            && (if Finished(t.s) then Completes(Blind(s), seen, Blind(t.s))
                else t.rest == [] && Run(Blind(s), seen) == Fed([], Blind(t.s)))
    decreases |r|
  {
    if r == [] {
      seen := [];
      assert Run(Blind(s), []) == Fed([], Blind(s));
    } else {
      var next := Step(s, r[0], NakPeek(r[1..]));
      StepBlind(s, r[0], NakPeek(r[1..]));
      if Finished(next) {
        seen := [r[0]];
        CompletesAtOnce(Blind(s), r[0]);
      } else {
        var later := ScanIsRun(next, r[1..]);
        seen := [r[0]] + later;
        assert seen[1..] == later;
        if Finished(Scan(s, r).s) {
          CompletesLater(Blind(s), r[0], later, Blind(Scan(s, r).s));
        }
      }
    }
  }

  /** Bytes without a notify that carries bits in front of others. */
  lemma {:induction false} NoticeBehind(add: Adder, s: Rcv, a: seq<byte>, b: seq<byte>)
    requires Notifies(add, Run(s, a).out) == {}
    ensures Notifies(add, Run(s, a + b).out) == Notifies(add, Run(Run(s, a).s, b).out)
    ensures Run(s, a + b).s == Run(Run(s, a).s, b).s
    ensures EndsNotice(add, Run(s, a).s, b) ==> EndsNotice(add, s, a + b)
  {
    hide Run, Notifies;
    var f := Run(s, a);
    var g := Run(f.s, b);
    RunAppend(s, a, b);
    NotifiesAppend(add, f.out, g.out);
    if EndsNotice(add, f.s, b) {
      var b', out' := b[..|b| - 1], g.out[..|g.out| - 1];
      assert (a + b)[..|a + b| - 1] == a + b';
      assert (f.out + g.out)[..|f.out + g.out| - 1] == f.out + out';
      RunAppend(s, a, b');
      NotifiesAppend(add, f.out, out');
    }
  }

  /** One packet. */
  lemma {:induction false} OnePacket(add: Adder, s: Rcv, a: seq<byte>, e: Rcv)
    requires Completes(s, a, e)
    ensures Notifies(add, Run(s, a).out) == PacketBits(add, e)
    ensures PacketBits(add, e) != {} ==> EndsNotice(add, s, a)
  {
    assert [e][1..] == [] && [e][..0] == [];
  }

  /** What looking through the bytes r comes to, those in front of the rest being seen. */
  ghost predicate LooksAs(add: Adder, s: Rcv, r: seq<byte>, seen: seq<byte>, w: Looked) {
    && !Finished(w.s) && r == seen + w.rest
    && w.noti == Notifies(add, Run(Blind(s), seen).out) && Blind(w.s) == Run(Blind(s), seen).s
    && (if w.found then EndsNotice(add, Blind(s), seen) && Blind(w.s) == w.s else w.rest == [] && w.noti == {})
  }

  /** The loop stops right behind the first packet that carries bits, if there is one. */
  lemma {:induction false} LookStops(add: Adder, s: Rcv, r: seq<byte>) returns (seen: seq<byte>)
    requires !Finished(s)
    ensures LooksAs(add, s, r, seen, Look(add, true, s, r, {}))
    decreases |r|
  {
    seen := [];
    if r == [] {
      assert Run(Blind(s), []) == Fed([], Blind(s));
    } else {
      var t := Scan(s, r);
      seen := ScanIsRun(s, r);
      if Finished(t.s) {
        OnePacket(add, Blind(s), seen, Blind(t.s));
        SameBits(add, t.s);
        if PacketBits(add, t.s) == {} {
          var later := LookStops(add, Accept(t.s), t.rest);
          LookFurther(add, s, seen, t, later, Look(add, true, Accept(t.s), t.rest, {}));
          seen := seen + later;
        }
      }
    }
  }

  lemma {:induction false} SameBits(add: Adder, e: Rcv)
    ensures PacketBits(add, Blind(e)) == PacketBits(add, e) == {} + PacketBits(add, e)
    ensures Accept(Blind(e)) == Accept(e) == Blind(Accept(e))
  {
  }

  lemma {:induction false} LookFurther(add: Adder, s: Rcv, first: seq<byte>, t: Scanned, later: seq<byte>, w: Looked)
    requires Run(Blind(s), first).s == Blind(Accept(t.s)) && Notifies(add, Run(Blind(s), first).out) == {}
    requires LooksAs(add, Accept(t.s), t.rest, later, w)
    ensures LooksAs(add, s, first + t.rest, first + later, w)
  {
    hide Run, Notifies;
    NoticeBehind(add, Blind(s), first, later);
    assert first + t.rest == first + later + w.rest;
  }

  // ------------------------------------------------------------- the wait

  /** All bytes of the first k reads. */
  function Stream(input: seq<PortRead>, k: nat): seq<byte>
    requires k <= |input|
  {
    Flatten(DataOf(input[..k]))
  }

  lemma {:induction false} StreamFirst(input: seq<PortRead>, k: nat)
    requires 0 < k <= |input|
    ensures Stream(input, k) == input[0].data + Stream(input[1..], k - 1)
  {
    assert DataOf(input[..k])[1..] == DataOf(input[1..][..k - 1]);
  }

  /** The wait stopped within read k, having seen the bytes in front of the rest. */
  ghost predicate StopsIn(add: Adder, s: Rcv, input: seq<PortRead>, w: NotifyWait, k: nat, seen: seq<byte>) {
    && k < |input| && |w.rest| < |input[k].data| && Stream(input, k + 1) == seen + w.rest
    && EndsNotice(add, s, seen) && w.noti == Notifies(add, Run(s, seen).out) && Blind(w.s) == Run(s, seen).s
  }

  ghost predicate Stops(add: Adder, s: Rcv, input: seq<PortRead>, w: NotifyWait) {
    exists k: nat, seen :: StopsIn(add, s, input, w, k, seen)
  }

  lemma {:induction false} StopsLater(add: Adder, s: Rcv, input: seq<PortRead>, w: NotifyWait, k: nat, seen: seq<byte>)
    requires input != [] && Notifies(add, Run(s, input[0].data).out) == {}
    requires StopsIn(add, Run(s, input[0].data).s, input[1..], w, k, seen)
    ensures StopsIn(add, s, input, w, k + 1, input[0].data + seen)
  {
    StreamFirst(input, k + 2);
    NoticeBehind(add, s, input[0].data, seen);
    assert input[0].data + (seen + w.rest) == input[0].data + seen + w.rest;
  }

  /** A notify is found exactly if one with bits is complete in the reads; then the wait ends
      right behind the first one, with the rest of that read left over. Else the time is up,
      nothing is left over and a packet begun is kept. */
  ghost predicate FoundFirst(add: Adder, s: Rcv, input: seq<PortRead>, w: NotifyWait) {
    var f := Run(s, Stream(input, |input|));
    && !Finished(w.s) && (w.rc == 1 <==> Notifies(add, f.out) != {})
    && (w.rc == 1 ==> Stops(add, s, input, w))
    && (w.rc != 1 ==> w.rc == -1 && w.rest == [] && w.noti == {} && Blind(w.s) == f.s)
  }

  /** For reads that all deliver. */
  lemma {:induction false} WaitStops(add: Adder, s: Rcv, input: seq<PortRead>, timeout: int)
    requires AllGood(input) && !Finished(s) && timeout <= 0
    ensures FoundFirst(add, Blind(s), input, WaitNotify(add, true, s, input, timeout, {}))
    decreases |input|
  {
    if input == [] {
      assert Run(Blind(s), []) == Fed([], Blind(s));
    } else {
      var seen := LookStops(add, s, input[0].data);
      var l := Look(add, true, s, input[0].data, {});
      assert RlinkWaiting.Good(input[0]);
      if l.found {
        StopsFirst(add, s, input, l, seen);
      } else {
        GoodRest(input);
        WaitStops(add, l.s, input[1..], timeout);
        assert seen + l.rest == seen;
        GoesOn(add, Blind(s), input, Blind(l.s), WaitNotify(add, true, l.s, input[1..], timeout, {}));
      }
    }
  }

  lemma {:induction false} GoodRest(input: seq<PortRead>)
    requires AllGood(input) && input != []
    ensures AllGood(input[1..])
  {
    forall k | 0 <= k < |input[1..]|
      ensures RlinkWaiting.Good(input[1..][k])
    {
      assert input[1..][k] == input[k + 1];
    }
  }

  /** Nothing in the first read. */
  lemma {:induction false} GoesOn(add: Adder, s: Rcv, input: seq<PortRead>, next: Rcv, w: NotifyWait)
    requires input != [] && Notifies(add, Run(s, input[0].data).out) == {} && Run(s, input[0].data).s == next
    requires FoundFirst(add, next, input[1..], w)
    ensures FoundFirst(add, s, input, w)
  {
    hide Run, Notifies, Stream;
    StreamFirst(input, |input|);
    NoticeBehind(add, s, input[0].data, Stream(input[1..], |input| - 1));
    if w.rc == 1 {
      StopsOn(add, s, input, w);
    }
  }

  lemma {:induction false} StopsOn(add: Adder, s: Rcv, input: seq<PortRead>, w: NotifyWait)
    requires input != [] && Notifies(add, Run(s, input[0].data).out) == {}
    requires Stops(add, Run(s, input[0].data).s, input[1..], w)
    ensures Stops(add, s, input, w)
  {
    var k: nat, seen :| StopsIn(add, Run(s, input[0].data).s, input[1..], w, k, seen);
    StopsLater(add, s, input, w, k, seen);
  }

  /** A notify found in the first read. */
  lemma {:induction false} StopsFirst(add: Adder, s: Rcv, input: seq<PortRead>, l: Looked, seen: seq<byte>)
    requires input != [] && LooksAs(add, s, input[0].data, seen, l) && l.found
    ensures FoundFirst(add, Blind(s), input, NotifyWait(1, l.s, l.rest, l.noti))
  {
    var rest := Stream(input[1..], |input| - 1);
    StreamFirst(input, 1);
    assert input[0].data + [] == input[0].data;
    assert StopsIn(add, Blind(s), input, NotifyWait(1, l.s, l.rest, l.noti), 0, seen);
    StreamFirst(input, |input|);
    MoreNotices(add, Blind(s), seen, l.rest + rest);
    assert seen + (l.rest + rest) == input[0].data + rest;
  }

  lemma {:induction false} MoreNotices(add: Adder, s: Rcv, a: seq<byte>, b: seq<byte>)
    ensures Notifies(add, Run(s, a).out) <= Notifies(add, Run(s, a + b).out)
  {
    RunAppend(s, a, b);
    NotifiesAppend(add, Run(s, a).out, Run(Run(s, a).s, b).out);
  }

  // ------------------------------------------------------------- what is left over

  /** The first notify with bits ends at one place of a stream only. */
  lemma {:induction false} OneEnd(add: Adder, s: Rcv, a: seq<byte>, x: seq<byte>, b: seq<byte>, y: seq<byte>)
    requires EndsNotice(add, s, a) && EndsNotice(add, s, b) && a + x == b + y
    ensures a == b && x == y
  {
    NotBefore(add, s, a, x, b, y);
    NotBefore(add, s, b, y, a, x);
    assert a == (a + x)[..|a|] && b == (b + y)[..|b|];
    assert x == (a + x)[|a|..] && y == (b + y)[|b|..];
  }

  lemma {:induction false} NotBefore(add: Adder, s: Rcv, a: seq<byte>, x: seq<byte>, b: seq<byte>, y: seq<byte>)
    requires EndsNotice(add, s, a) && EndsNotice(add, s, b) && a + x == b + y
    ensures |a| >= |b|
  {
    if |a| < |b| {
      assert b == (a + x)[..|b|];
      assert b[..|b| - 1] == a + b[|a|..|b| - 1];
      MoreNotices(add, s, a, b[|a|..|b| - 1]);
    }
  }

  /** All bytes of reads k to n. */
  lemma {:induction false} StreamParts(input: seq<PortRead>, k: nat, n: nat) returns (more: seq<byte>)
    requires k <= n <= |input|
    ensures Stream(input, n) == Stream(input, k) + more
    ensures k < n ==> |input[n - 1].data| <= |more|
    decreases k
  {
    if k == 0 {
      more := Stream(input, n);
      assert [] + more == more;
      if n > 0 {
        LastRead(input, n);
      }
    } else {
      more := StreamParts(input[1..], k - 1, n - 1);
      StreamFirst(input, k);
      StreamFirst(input, n);
      assert input[0].data + (Stream(input[1..], k - 1) + more) == input[0].data + Stream(input[1..], k - 1) + more;
    }
  }

  lemma {:induction false} LastRead(input: seq<PortRead>, n: nat)
    requires 0 < n <= |input|
    ensures |input[n - 1].data| <= |Stream(input, n)|
    decreases n
  {
    StreamFirst(input, n);
    if n > 1 {
      LastRead(input[1..], n - 1);
    }
  }

  /** After a notify was found nothing is left over exactly if a read ends with it: with the
      first notify that carries bits. */
  lemma {:induction false} QuietIffEndsRead(add: Adder, s: Rcv, input: seq<PortRead>, timeout: int)
    requires AllGood(input) && !Finished(s) && timeout <= 0
    requires WaitNotify(add, true, s, input, timeout, {}).rc == 1
    ensures WaitNotify(add, true, s, input, timeout, {}).rest == []
       <==> exists k: nat :: k <= |input| && EndsNotice(add, Blind(s), Stream(input, k))
  {
    var w := WaitNotify(add, true, s, input, timeout, {});
    WaitStops(add, s, input, timeout);
    var j: nat, seen :| StopsIn(add, Blind(s), input, w, j, seen);
    if w.rest == [] {
      assert Stream(input, j + 1) == seen;
      assert EndsNotice(add, Blind(s), Stream(input, j + 1));
    }
    forall k: nat | k <= |input| && EndsNotice(add, Blind(s), Stream(input, k))
      ensures w.rest == []
    {
      EndsThere(add, Blind(s), input, w, j, seen, k);
    }
  }

  lemma {:induction false} EndsThere(add: Adder, s: Rcv, input: seq<PortRead>, w: NotifyWait, j: nat, seen: seq<byte>,
                                     k: nat)
    requires StopsIn(add, s, input, w, j, seen) && k <= |input| && EndsNotice(add, s, Stream(input, k))
    ensures w.rest == []
  {
    if k <= j {
      var more := StreamParts(input, k, j + 1);
      OneEnd(add, s, seen, w.rest, Stream(input, k), more);
    } else {
      var more := StreamParts(input, j + 1, k);
      assert seen + (w.rest + more) == Stream(input, k) + [];
      OneEnd(add, s, seen, w.rest + more, Stream(input, k), []);
    }
  }

  // ------------------------------------------------------------- notify frames

  lemma {:induction false} NotifyEnds(add: Adder, s: Rcv, junk: seq<byte>, xon: bool, p: seq<byte>)
    requires Ready(s) && EscFree(junk) && NotifyOf(add, p) != {}
    ensures var a := junk + NotifyFrame(xon, p);
            EndsNotice(add, s, a) && Run(s, a).s == START && Notifies(add, Run(s, a).out) == NotifyOf(add, p)
  {
    var s' := s.(drop := s.drop + junk);
    var note := Note(p, s'.drop);
    var a := junk + NotifyFrame(xon, p);
    RunJunk(s, junk);
    NotifyReceived(s', xon, p);
    ChainQuiet(s, junk, NotifyFrame(xon, p), s', Fed([note], START));
    NotifyBegun(s', xon, p);
    var begun := RawEsc(EC_ATTN) + Body(xon, p) + [SYM_ESC];
    ChainQuiet(s, junk, begun, s', Run(s', begun));
    assert a[..|a| - 1] == junk + begun;
    OnePacket(add, s, a, note);
  }

  lemma {:induction false} NotifyBegun(s: Rcv, xon: bool, p: seq<byte>)
    requires Ready(s)
    ensures Run(s, RawEsc(EC_ATTN) + Body(xon, p) + [SYM_ESC]).out == []
  {
    var fill := s.(phase := Fill, flags := s.flags.(attn := true));
    var full := fill.(pkt := fill.pkt + p);
    EcodeInverse(EscData(EC_ATTN), EC_ATTN);
    RunEscape(s, EC_ATTN);
    RunOut(fill);
    RunPayload(fill, xon, p);
    RunOne(full, SYM_ESC);
    RunOut(full.(esc := true));
    ChainQuiet(s, RawEsc(EC_ATTN), Body(xon, p), fill, Fed([], full));
    ChainQuiet(s, RawEsc(EC_ATTN) + Body(xon, p), [SYM_ESC], full, Run(full, [SYM_ESC]));
  }

  lemma {:induction false} LooksBehind(add: Adder, s: Rcv, a: seq<byte>, more: seq<byte>)
    requires !Finished(s) && Blind(s) == s && EndsNotice(add, s, a)
    ensures Look(add, true, s, a + more, {}) == Looked(true, Run(s, a).s, more, Notifies(add, Run(s, a).out))
  {
    var w := Look(add, true, s, a + more, {});
    var seen := LookStops(add, s, a + more);
    MoreNotices(add, s, a, more);
    assert w.rest == [] ==> seen + w.rest == seen;
    OneEnd(add, s, a, more, seen, w.rest);
  }

  /** A notify frame and more in one read: the notify is found, and more is left over. */
  lemma {:induction false} MoreIsLeft(add: Adder, s: Rcv, junk: seq<byte>, xon: bool, p: seq<byte>, more: seq<byte>,
                                      timeout: int)
    requires Ready(s) && EscFree(junk) && NotifyOf(add, p) != {} && timeout <= 0
    ensures var r := junk + NotifyFrame(xon, p) + more;
            WaitNotify(add, true, s, [PortRead(|r|, r)], timeout, {})
              == NotifyWait(1, START, more, NotifyOf(add, p))
  {
    var a := junk + NotifyFrame(xon, p);
    NotifyEnds(add, s, junk, xon, p);
    LooksBehind(add, s, a, more);
    FoundAtOnce(add, s, a + more, timeout);
  }

  lemma {:induction false} FoundAtOnce(add: Adder, s: Rcv, r: seq<byte>, timeout: int)
    requires r != [] && timeout <= 0 && Look(add, true, s, r, {}).found
    ensures var w := Look(add, true, s, r, {});
            WaitNotify(add, true, s, [PortRead(|r|, r)], timeout, {}) == NotifyWait(1, w.s, w.rest, w.noti)
  {
  }

  // ------------------------------------------------------------- the other outcomes

  /** The first read that times out or fails, or the number of reads. */
  function FirstStop(input: seq<PortRead>, timeout: int): (k: nat)
    ensures k <= |input|
  {
    if input == [] || input[0].irc == timeout || input[0].irc == -2 then 0 else 1 + FirstStop(input[1..], timeout)
  }

  /** Without a notify the return code is -2 exactly if a read fails before any times out and before the
      time is up, and else -1; the end of the file is neither. */
  lemma {:induction false} ReturnCode(add: Adder, quits: bool, s: Rcv, input: seq<PortRead>, timeout: int,
                                      noti: set<nat>)
    ensures var rc, k := WaitNotify(add, quits, s, input, timeout, noti).rc, FirstStop(input, timeout);
            rc == 1 || rc == if k < |input| && input[k].irc != timeout then -2 else -1
    decreases |input|
  {
    if input != [] && input[0].irc != timeout && input[0].irc != -2 {
      var s' := if input[0].irc <= 0 then ReadFailed(s, input[0].irc, timeout) else s;
      var w := Look(add, quits, s', input[0].data, noti);
      ReturnCode(add, quits, w.s, input[1..], timeout, w.noti);
    }
  }

  /** While the server is active the loop drains the read, notes all notifies and finds none. */
  lemma {:induction false} ActiveDrains(add: Adder, s: Rcv, r: seq<byte>, noti: set<nat>)
    ensures var d := Sort(add, false, s, r, noti);
            Look(add, false, s, r, noti) == Looked(false, d.s, d.rest, d.noti)
    decreases Measure(s, r)
  {
    if r != [] {
      var t := Scan(s, r);
      TurnOf(add, false, s, r, noti);
      LookTurnOf(add, false, s, r, noti);
      if !PacketState(t.s).Pending? {
        assert noti + {} == noti;
        ActiveDrains(add, Accept(t.s), t.rest, noti + PacketBits(add, t.s));
      }
    }
  }
}
