/** How the connection sorts received packets: what it waits for, what it notes, what it drops. */
module RlinkInput {
  import opened Words
  import opened Checksum
  import opened RlinkReceiver

  /** The numbers of the bits that are set, bit 0 being the lowest. */
  function BitSet(w: word): set<nat> {
    set k: nat | k < 16 && BitIn(w, k)
  }

  predicate BitIn(w: word, k: nat)
    requires k < 16
  {
    Bits(w, 16)[15 - k]
  }

  /** The attention bits a notify packet carries; none if it is too short or its checksum is wrong. */
  function NotifyOf(add: Adder, pkt: seq<byte>): set<nat> {
    if |pkt| < 4 || pkt[2..4] != WordBytesOf(Sum(add, 0, pkt[..2])) then {} else BitSet(WordAt(pkt, 0))
  }

  lemma {:induction false} BitsAt(v: nat, n: nat, k: nat)
    requires k < n
    ensures Bits(v, n)[n - 1 - k] == ((v / Pow2(k)) % 2 == 1)
    decreases n
  {
    if k > 0 {
      BitsAt(v / 2, n - 1, k - 1);
      assert Bits(v, n)[n - 1 - k] == Bits(v / 2, n - 1)[n - 1 - k];
      Halves(v, Pow2(k - 1));
    }
  }

  lemma {:induction false} Halves(v: nat, p: nat)
    requires p > 0
    ensures v / 2 / p == v / (2 * p)
  {
    var q := v / (2 * p);
    var r := v - 2 * p * q;
    assert v / 2 == p * q + r / 2 && r / 2 < p;
    Divide(v / 2, p, q, r / 2);
  }

  lemma {:induction false} Divide(x: int, p: int, q: int, r: int)
    requires 0 <= r < p && x == p * q + r
    ensures x / p == q
  {
    var d := x / p - q;
    assert p * d == r - x % p;
    assert d >= 1 ==> p * d >= p;
    assert d <= -1 ==> p * d <= 0 - p;
  }

  /** A notify of the word w with its checksum behind it carries just the bits of w, bit k being that
      of weight 2 to the k, whatever follows; with another checksum, or too short, it carries none. */
  lemma {:induction false} NotifyCarries(add: Adder, w: word, sum: seq<byte>, more: seq<byte>, k: nat)
    requires |sum| == 2
    ensures k in NotifyOf(add, WordBytesOf(w) + sum + more)
       <==> k < 16 && (w / Pow2(k)) % 2 == 1 && sum == WordBytesOf(Sum(add, 0, WordBytesOf(w)))
    ensures forall pkt :: |pkt| < 4 ==> NotifyOf(add, pkt) == {}
  {
    var pkt := WordBytesOf(w) + sum + more;
    assert pkt[..2] == WordBytesOf(w) && pkt[2..4] == sum;
    assert WordAt(pkt, 0) == w;
    if k < 16 {
      BitsAt(w, 16, k);
    }
  }

  /** Receiver, bytes left over and attention bits noted. */
  datatype Sorted = Sorted(s: Rcv, rest: seq<byte>, noti: set<nat>)

  /** The processing loop: notifies are noted, broken packets dropped, and a response ends it
      unless it is unsolicited and dropped, too. */
  function Sort(add: Adder, keep: bool, s: Rcv, r: seq<byte>, noti: set<nat>): Sorted
    decreases Measure(s, r)
  {
    if r == [] then Sorted(s, r, noti)
    else
      var t := Scan(s, r);
      if PacketState(t.s).Pending? || (keep && PacketState(t.s).Response?) then Sorted(t.s, t.rest, noti)
      else
        var more := if PacketState(t.s).Attention? then NotifyOf(add, t.s.pkt) else {};
        Sort(add, keep, Accept(t.s), t.rest, noti + more)
  }

  /** One turn of the loop. */
  lemma {:induction false} TurnOf(add: Adder, keep: bool, s: Rcv, r: seq<byte>, noti: set<nat>)
    requires r != []
    ensures var t := Scan(s, r);
            Sort(add, keep, s, r, noti) ==
              match PacketState(t.s)
              case Pending => Sorted(t.s, t.rest, noti)
              case Attention => Sort(add, keep, Accept(t.s), t.rest, noti + NotifyOf(add, t.s.pkt))
              case Response =>
                if keep then Sorted(t.s, t.rest, noti) else Sort(add, keep, Accept(t.s), t.rest, noti)
              case Broken => Sort(add, keep, Accept(t.s), t.rest, noti)
  {
    assert noti + {} == noti;
  }

  /** The attention bits of all notify packets among those delivered. */
  function Notifies(add: Adder, out: seq<Rcv>): set<nat> {
    if out == [] then {}
    else (if PacketState(out[0]).Attention? then NotifyOf(add, out[0].pkt) else {}) + Notifies(add, out[1..])
  }

  /** Draining processes a read as the accept loop of the automaton does, and notes exactly the
      notifies in it; at the end nothing is left and the receiver is idle or filling. */
  lemma {:induction false} DrainIsFeed(add: Adder, s: Rcv, r: seq<byte>, noti: set<nat>)
    requires !Finished(s) || r != []
    ensures var d := Sort(add, false, s, r, noti);
            && d.s == Feed(s, r).s && d.rest == [] && !Finished(d.s)
            && d.noti == noti + Notifies(add, Feed(s, r).out)
    decreases Measure(s, r)
  {
    if r != [] {
      var t := Scan(s, r);
      FeedScan(s, r);
      if Finished(t.s) {
        var more := if PacketState(t.s).Attention? then NotifyOf(add, t.s.pkt) else {};
        var f := Feed(Accept(t.s), t.rest);
        DrainIsFeed(add, Accept(t.s), t.rest, noti + more);
        assert ([t.s] + f.out)[1..] == f.out;
      }
    }
  }

  /** Waiting for a response, accepting it and draining the rest is draining it all: nothing is
      skipped and no notify is lost on either side of the response. */
  lemma {:induction false} ResponseThenDrain(add: Adder, s: Rcv, r: seq<byte>, noti: set<nat>)
    ensures var w := Sort(add, true, s, r, noti);
            PacketState(w.s).Response? && r != [] ==>
              Sort(add, false, s, r, noti) == Sort(add, false, Accept(w.s), w.rest, w.noti)
    decreases Measure(s, r)
  {
    if r != [] {
      var t := Scan(s, r);
      if PacketState(t.s).Attention? || PacketState(t.s).Broken? {
        var more := if PacketState(t.s).Attention? then NotifyOf(add, t.s.pkt) else {};
        ResponseThenDrain(add, Accept(t.s), t.rest, noti + more);
      } else {
        assert noti + {} == noti;
      }
    }
  }

  /** One port read: a positive byte count and the bytes, or a code. */
  datatype PortRead = PortRead(irc: int, data: seq<byte>)

  ghost predicate ValidRead(r: PortRead, max: nat) {
    |r.data| == (if r.irc > 0 then r.irc else 0) <= max
  }

  /** The flags set by a failed read. */
  function ReadFailed(s: Rcv, irc: int, timeout: int): Rcv {
    s.(flags := if irc == timeout then s.flags.(tout := true) else s.flags.(io := true))
  }

  /** The outcome of waiting for a response. */
  datatype Waited = Waited(ok: bool, s: Rcv, rest: seq<byte>, noti: set<nat>)

  /** Reads until a response is complete; a failed read ends it, and so does the end of the
      reads, which stands for the time being up. */
  function Wait(add: Adder, s: Rcv, input: seq<PortRead>, timeout: int, noti: set<nat>): Waited
    decreases |input|
  {
    if input == [] then Waited(false, Accept(s), [], noti)
    else if input[0].irc <= 0 then Waited(false, ReadFailed(s, input[0].irc, timeout), [], noti)
    else
      var w := Sort(add, true, s, input[0].data, noti);
      if PacketState(w.s).Response? then Waited(true, w.s, w.rest, w.noti)
      else Wait(add, w.s, input[1..], timeout, w.noti)
  }

  /** One more read. */
  lemma {:induction false} WaitStep(add: Adder, s: Rcv, input: seq<PortRead>, k: nat, timeout: int, noti: set<nat>)
    requires k < |input|
    ensures Wait(add, s, input[k..], timeout, noti) ==
      if input[k].irc <= 0 then Waited(false, ReadFailed(s, input[k].irc, timeout), [], noti)
      else
        var w := Sort(add, true, s, input[k].data, noti);
        if PacketState(w.s).Response? then Waited(true, w.s, w.rest, w.noti)
        else Wait(add, w.s, input[k + 1..], timeout, w.noti)
  {
    assert input[k..][0] == input[k] && input[k..][1..] == input[k + 1..];
  }

  /** No more reads. */
  lemma {:induction false} WaitEnds(add: Adder, s: Rcv, timeout: int, noti: set<nat>)
    ensures Wait(add, s, [], timeout, noti) == Waited(false, Accept(s), [], noti)
  {
  }

  // ------------------------------------------------------------- waiting for a notify

  /** The attention bits a packet carries. */
  function PacketBits(add: Adder, e: Rcv): set<nat> {
    if PacketState(e).Attention? then NotifyOf(add, e.pkt) else {}
  }

  /** Whether a notify with bits was found, and what Sorted has. */
  datatype Looked = Looked(found: bool, s: Rcv, rest: seq<byte>, noti: set<nat>)

  /** The processing loop of the wait for a notify: all packets are dropped, and, if it is to
      quit, the first notify with bits ends it. */
  function Look(add: Adder, quits: bool, s: Rcv, r: seq<byte>, noti: set<nat>): Looked
    decreases Measure(s, r)
  {
    if r == [] then Looked(false, s, r, noti)
    else
      var t := Scan(s, r);
      if PacketState(t.s).Pending? then Looked(false, t.s, t.rest, noti)
      else
        var all := noti + PacketBits(add, t.s);
        if quits && PacketState(t.s).Attention? && all != {} then Looked(true, Accept(t.s), t.rest, all)
        else Look(add, quits, Accept(t.s), t.rest, all)
  }

  /** One turn of the loop. */
  lemma {:induction false} LookTurnOf(add: Adder, quits: bool, s: Rcv, r: seq<byte>, noti: set<nat>)
    requires r != []
    ensures var t := Scan(s, r);
            var all := noti + PacketBits(add, t.s);
            Look(add, quits, s, r, noti) ==
              if PacketState(t.s).Pending? then Looked(false, t.s, t.rest, noti)
              else if quits && PacketState(t.s).Attention? && all != {} then Looked(true, Accept(t.s), t.rest, all)
              else Look(add, quits, Accept(t.s), t.rest, all)
  {
  }

  const PORT_ERR := -2

  /** The outcome of waiting for a notify: the return code, and what Looked has. */
  datatype NotifyWait = NotifyWait(rc: int, s: Rcv, rest: seq<byte>, noti: set<nat>)

  /** Reads until a notify with bits is found, a read times out or fails, or the time is up; the
      end of the file is no reason to stop. */
  function WaitNotify(add: Adder, quits: bool, s: Rcv, input: seq<PortRead>, timeout: int, noti: set<nat>): NotifyWait
    decreases |input|
  {
    if input == [] then NotifyWait(-1, s, [], noti)
    else
      var irc := input[0].irc;
      var s' := if irc <= 0 then ReadFailed(s, irc, timeout) else s;
      if irc == timeout || irc == PORT_ERR then NotifyWait(if irc == timeout then -1 else -2, s', [], noti)
      else
        var w := Look(add, quits, s', input[0].data, noti);
        if w.found then NotifyWait(1, w.s, w.rest, w.noti)
        else WaitNotify(add, quits, w.s, input[1..], timeout, w.noti)
  }

  /** One more read. */
  lemma {:induction false} WaitNotifyStep(add: Adder, quits: bool, s: Rcv, input: seq<PortRead>, k: nat,
                                          timeout: int, noti: set<nat>)
    requires k < |input|
    ensures WaitNotify(add, quits, s, input[k..], timeout, noti) ==
      var irc := input[k].irc;
      var s' := if irc <= 0 then ReadFailed(s, irc, timeout) else s;
      if irc == timeout || irc == PORT_ERR then NotifyWait(if irc == timeout then -1 else -2, s', [], noti)
      else
        var w := Look(add, quits, s', input[k].data, noti);
        if w.found then NotifyWait(1, w.s, w.rest, w.noti)
        else WaitNotify(add, quits, w.s, input[k + 1..], timeout, w.noti)
  {
    assert input[k..][0] == input[k] && input[k..][1..] == input[k + 1..];
  }

  /** No more reads. */
  lemma {:induction false} WaitNotifyEnds(add: Adder, quits: bool, s: Rcv, timeout: int, noti: set<nat>)
    ensures WaitNotify(add, quits, s, [], timeout, noti) == NotifyWait(-1, s, [], noti)
  {
  }
}
