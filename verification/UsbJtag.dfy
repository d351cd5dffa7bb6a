/** The USB-JTAG firmware: bytes from the host drive the JTAG pins, bytes read back go through
    a ring buffer of 256 bytes into packets to the host. */
module UsbJtag {
  import opened Words

  /** What happens at the pins. */
  datatype Effect = SetState(d: byte) | SetGetState(d: byte) | ShiftOut(d: byte) | ShiftInOut(d: byte)

  /** What is read back by the last effect, which may depend on all that happened before. */
  type Target = seq<Effect> -> byte

  /** The interpreter: bytes left to shift, whether they are write only, the effects so far and
      the bytes read back so far. */
  datatype Jtag = Jtag(clockBytes: nat, writeOnly: bool, effects: seq<Effect>, out: seq<byte>)

  const IDLE := Jtag(0, true, [], [])

  function Effects(s: Jtag, e: Effect): Jtag {
    s.(effects := s.effects + [e])
  }

  function ReadsBack(target: Target, s: Jtag, e: Effect): Jtag {
    s.(effects := s.effects + [e], out := s.out + [target(s.effects + [e])])
  }

  /** One byte from the host, in byte shift mode or in bit banging mode. */
  function ByteStep(target: Target, s: Jtag, d: byte): Jtag {
    if s.clockBytes > 0 then
      var s' := s.(clockBytes := s.clockBytes - 1);
      if s.writeOnly then Effects(s', ShiftOut(d)) else ReadsBack(target, s', ShiftInOut(d))
    else
      var s' := s.(writeOnly := (d / 64) % 2 == 0);
      if d >= 128 then s'.(clockBytes := d % 64)
      else if s'.writeOnly then Effects(s', SetState(d))
      else ReadsBack(target, s', SetGetState(d))
  }

  function Interpret(target: Target, s: Jtag, bytes: seq<byte>): Jtag
    decreases |bytes|
  {
    if bytes == [] then s else Interpret(target, ByteStep(target, s, bytes[0]), bytes[1..])
  }

  lemma {:induction false} InterpretAppend(target: Target, s: Jtag, a: seq<byte>, b: seq<byte>)
    ensures Interpret(target, s, a + b) == Interpret(target, Interpret(target, s, a), b)
    decreases |a|
  {
    if a == [] {
      assert a + b == b;
    } else {
      assert (a + b)[1..] == a[1..] + b;
      InterpretAppend(target, ByteStep(target, s, a[0]), a[1..], b);
    }
  }

  /** At most one byte is read back for each byte from the host. */
  lemma {:induction false} OutGrows(target: Target, s: Jtag, bytes: seq<byte>)
    ensures s.out <= Interpret(target, s, bytes).out
    ensures |Interpret(target, s, bytes).out| <= |s.out| + |bytes|
    decreases |bytes|
  {
    if bytes != [] {
      var s' := ByteStep(target, s, bytes[0]);
      assert s.out <= s'.out;
      OutGrows(target, s', bytes[1..]);
    }
  }

  /** That is reached: bytes that ask for the pins in bit banging mode all give one back. */
  lemma {:induction false} AllReadBack(target: Target, s: Jtag, bytes: seq<byte>)
    requires s.clockBytes == 0 && forall k :: 0 <= k < |bytes| ==> 64 <= bytes[k] < 128
    ensures |Interpret(target, s, bytes).out| == |s.out| + |bytes|
    decreases |bytes|
  {
    if bytes != [] {
      assert (bytes[0] / 64) % 2 == 1;
      AllReadBack(target, ByteStep(target, s, bytes[0]), bytes[1..]);
    }
  }

  /** From s to t the bytes were shifted, one by one and in order, each read back or none. */
  ghost predicate Shifted(target: Target, s: Jtag, bytes: seq<byte>, t: Jtag) {
    && t.clockBytes == 0 && t.writeOnly == s.writeOnly
    && |t.effects| == |s.effects| + |bytes| && s.effects <= t.effects && s.out <= t.out
    && |t.out| == |s.out| + (if s.writeOnly then 0 else |bytes|)
    && forall k :: 0 <= k < |bytes| ==>
         var n := |s.effects| + k;
         if s.writeOnly then t.effects[n] == ShiftOut(bytes[k])
         else t.effects[n] == ShiftInOut(bytes[k]) && t.out[|s.out| + k] == target(t.effects[..n + 1])
  }

  lemma {:induction false} AllShifted(target: Target, s: Jtag, bytes: seq<byte>)
    requires s.clockBytes == |bytes|
    ensures Shifted(target, s, bytes, Interpret(target, s, bytes))
    decreases |bytes|
  {
    if bytes != [] {
      var s' := ByteStep(target, s, bytes[0]);
      var t := Interpret(target, s, bytes);
      AllShifted(target, s', bytes[1..]);
      assert s'.effects == t.effects[..|s'.effects|];
      forall k | 0 <= k < |bytes|
        ensures var n := |s.effects| + k;
                if s.writeOnly then t.effects[n] == ShiftOut(bytes[k])
                else t.effects[n] == ShiftInOut(bytes[k]) && t.out[|s.out| + k] == target(t.effects[..n + 1])
      {
        if k > 0 {
          assert bytes[k] == bytes[1..][k - 1];
        }
      }
    }
  }

  /** A byte from 128 on announces as many bytes to be shifted as its low six bits say, read back from
      192 on; just these are shifted, and the next byte is a command again. */
  lemma {:induction false} ShiftCommand(target: Target, s: Jtag, read: bool, bytes: seq<byte>)
    requires s.clockBytes == 0 && |bytes| < 64
    ensures var command := (if read then 192 else 128) + |bytes|;
            Shifted(target, s.(writeOnly := !read), bytes, Interpret(target, s, [command] + bytes))
  {
    var command: byte := (if read then 192 else 128) + |bytes|;
    assert ([command] + bytes)[1..] == bytes;
    assert command % 64 == |bytes| && (command / 64) % 2 == if read then 1 else 0;
    AllShifted(target, ByteStep(target, s, command), bytes);
  }

  /** A byte below 128 sets the pins; from 64 on they are read back, too. */
  lemma {:induction false} PinCommand(target: Target, s: Jtag, d: byte)
    requires s.clockBytes == 0 && d < 128
    ensures Interpret(target, s, [d]) ==
      if d < 64 then s.(writeOnly := true, effects := s.effects + [SetState(d)])
      else
        var effects := s.effects + [SetGetState(d)];
        s.(writeOnly := false, effects := effects, out := s.out + [target(effects)])
  {
    assert (d / 64) % 2 == if d < 64 then 0 else 1;
    assert [d][1..] == [];
    assert Interpret(target, s, [d]) == Interpret(target, ByteStep(target, s, d), []);
  }

  const LEN := 256
  const HEADER: seq<byte> := [0x31, 0x60]

  function Concat(packets: seq<seq<byte>>): seq<byte> {
    if packets == [] then [] else Concat(packets[..|packets| - 1]) + packets[|packets| - 1]
  }

  ghost predicate ShortPackets(sent: seq<seq<byte>>) {
    forall k :: 0 <= k < |sent| ==> |sent[k]| <= 62
  }

  /** n bytes of the ring from position first on. */
  function RingOf(buf: seq<byte>, first: nat, n: nat): (r: seq<byte>)
    requires |buf| == LEN && n <= LEN
    ensures |r| == n
  {
    seq(n, k requires 0 <= k < n => buf[(first + k) % LEN])
  }

  lemma {:induction false} Wrap(a: nat, n: nat, k: nat)
    ensures ((a + n) % LEN + k) % LEN == (a + n + k) % LEN
  {
  }

  lemma {:induction false} RingDrop(buf: seq<byte>, first: nat, p: nat, n: nat)
    requires |buf| == LEN && n <= p <= LEN
    ensures RingOf(buf, first, p) == RingOf(buf, first, n) + RingOf(buf, (first + n) % LEN, p - n)
  {
    forall k | n <= k < p
      ensures RingOf(buf, first, p)[k] == RingOf(buf, (first + n) % LEN, p - n)[k - n]
    {
      Wrap(first, n, k - n);
    }
  }

  /** The places of the ring up to LEN further on are not written. */
  lemma {:induction false} Elsewhere(first: nat, k: nat, p: nat)
    requires k < p < k + LEN
    ensures (first + k) % LEN != (first + p) % LEN
  {
  }

  lemma {:induction false} RingAppend(buf: seq<byte>, first: byte, p: nat, d: byte)
    requires |buf| == LEN && p < LEN
    ensures RingOf(buf[(first + p) % LEN := d], first, p + 1) == RingOf(buf, first, p) + [d]
  {
    var after := RingOf(buf[(first + p) % LEN := d], first, p + 1);
    forall k | 0 <= k < p
      ensures after[k] == RingOf(buf, first, p)[k]
    {
      Elsewhere(first, k, p);
    }
  }

  /** The count wraps around at a multiple of the size of the ring. */
  lemma {:induction false} NextFree(first: byte, p: nat)
    ensures ((first + p) % LEN + 1) % LEN == (first + (p + 1) % 0x1_0000) % LEN
  {
    var q := (p + 1) / 0x1_0000;
    ModuloTurns(first + p + 1, 256 * q);
    ModuloTurns(first + p + 1, (first + p) / LEN);
  }

  /** A full ring is next written where its oldest byte is. */
  lemma {:induction false} FullRing(first: byte)
    ensures (first + LEN) % LEN == first
  {
    ModuloTurns(first + LEN, 1);
  }

  lemma {:induction false} ModuloTurns(x: int, q: nat)
    ensures (x - LEN * q) % LEN == x % LEN
  {
  }

  /** packet is nothing, or what went out: the header and the payload noted last. */
  ghost predicate SentAs(before: seq<seq<byte>>, sent: seq<seq<byte>>, packet: seq<byte>) {
    if packet == [] then sent == before
    else exists payload :: packet == HEADER + payload && |payload| <= 62 && sent == before + [payload]
  }

  lemma {:induction false} Regroup(a: seq<byte>, b: seq<byte>, c: seq<byte>, bc: seq<byte>)
    requires bc == b + c
    ensures (a + b) + c == a + bc
  {
  }

  function Max(a: int, b: int): int {
    if a < b then b else a
  }

  class Firmware {
    const target: Target
    const outBuffer: array<byte>
    var firstData: byte
    var firstFree: byte
    var pending: nat
    var clockBytes: byte
    var writeOnly: bool
    var tick: bool
    var effects: seq<Effect>
    var sent: seq<seq<byte>>
    ghost var received: seq<byte>
    ghost var readBack: seq<byte>
    ghost var peak: int

    /** The bytes waiting in the ring, oldest first. */
    ghost function Ring(): (r: seq<byte>)
      requires outBuffer.Length == LEN && pending <= LEN
      reads `pending, `firstData, outBuffer
      ensures |r| == pending
    {
      RingOf(outBuffer[..], firstData, pending)
    }

    /** How many bytes were read back and not sent. */
    ghost function Waiting(): int
      reads `readBack, `sent
    {
      |readBack| - |Concat(sent)|
    }

    /** The ring indices agree with the count; and as long as never more bytes were waiting than
        the ring has room for, it holds just those. */
    ghost predicate RingOk()
      reads `pending, `firstData, `firstFree, `readBack, `peak, `sent, outBuffer
    {
      && outBuffer.Length == LEN && firstFree == (firstData + pending) % LEN && peak >= Waiting()
      && (peak <= LEN ==> pending == Waiting() && readBack == Concat(sent) + Ring())
    }

    /** The same while a payload was taken from the ring and is not among those sent yet. */
    ghost predicate TakenOk(payload: seq<byte>)
      reads `pending, `firstData, `firstFree, `readBack, `peak, `sent, outBuffer
    {
      && outBuffer.Length == LEN && firstFree == (firstData + pending) % LEN && peak >= Waiting()
      && (peak <= LEN ==> pending + |payload| == Waiting() && readBack == Concat(sent) + (payload + Ring()))
    }

    /** The state in the interpreter's terms: what was read back, and shifting bytes announced as
        shifted but not shifted yet. */
    ghost function Now(shifting: nat): Jtag
      reads `clockBytes, `writeOnly, `effects, `readBack
    {
      Jtag(clockBytes + shifting, writeOnly, effects, readBack)
    }

    /** The firmware is where the interpreter is after all bytes received: the same mode, the same
        effects at the pins, and the same bytes read back, which, unless the ring ever overflowed,
        are those sent and those in the ring. */
    ghost predicate Valid()
      reads `pending, `firstData, `firstFree, `clockBytes, `writeOnly, `effects, `sent, `received, `readBack,
            `peak, outBuffer
    {
      RingOk() && Now(0) == Interpret(target, IDLE, received) && ShortPackets(sent)
    }

    constructor (target: Target)
      ensures Valid() && received == [] && sent == [] && peak == 0 && this.target == target
    {
      this.target := target;
      outBuffer := new byte[LEN];
      firstData, firstFree, pending := 0, 0, 0;
      clockBytes, writeOnly, tick := 0, true, false;
      effects, sent, received, readBack, peak := [], [], [], [], 0;
    }

    /** A byte goes into the ring, over the oldest one if the ring is full. The count is a word. */
    method OutputByte(d: byte)
      requires outBuffer.Length == LEN && firstFree == (firstData + pending) % LEN
      modifies `firstFree, `pending, outBuffer
      ensures firstFree == (firstData + pending) % LEN && pending == (old(pending) + 1) % 0x1_0000
      ensures old(pending) < LEN ==> Ring() == old(Ring()) + [d]
      ensures old(pending) == LEN ==> outBuffer[..] == old(outBuffer[..])[firstData as int := d]
    {
      NextFree(firstData, pending);
      if pending < LEN {
        RingAppend(outBuffer[..], firstData, pending, d);
      } else if pending == LEN {
        FullRing(firstData);
      }
      ghost var buf := outBuffer[..];
      outBuffer[firstFree] := d;
      assert outBuffer[..] == buf[firstFree as int := d];
      firstFree := (firstFree + 1) % LEN;
      pending := (pending + 1) % 0x1_0000;
    }

    /** A byte is read back. */
    method ReadBack(e: Effect)
      requires RingOk()
      modifies `firstFree, `pending, `effects, `readBack, `peak, outBuffer
      ensures RingOk() && Now(0) == ReadsBack(target, old(Now(0)), e) && peak == Max(old(peak), Waiting())
    {
      effects := effects + [e];
      ghost var d, before := target(effects), Concat(sent);
      ghost var fits := peak <= LEN && pending < LEN;
      ghost var ring := if fits then Ring() else [];
      OutputByte(target(effects));
      readBack := readBack + [d];
      peak := Max(peak, Waiting());
      if fits {
        Regroup(before, ring, [d], ring + [d]);
      }
    }

    /** A command byte, in bit banging mode. */
    method Command(d: byte)
      requires RingOk() && clockBytes == 0
      modifies `clockBytes, `writeOnly, `firstFree, `pending, `effects, `readBack, `peak, outBuffer
      ensures RingOk() && Now(0) == ByteStep(target, old(Now(0)), d) && peak == Max(old(peak), Waiting())
    {
      writeOnly := (d / 64) % 2 == 0;
      if d >= 128 {
        clockBytes := d % 64;
      } else if writeOnly {
        effects := effects + [SetState(d)];
      } else {
        ReadBack(SetGetState(d));
      }
    }

    /** The burst loop: m bytes, already counted off, are shifted one after the other. */
    method ShiftBurst(bytes: seq<byte>)
      requires RingOk()
      modifies `firstFree, `pending, `effects, `readBack, `peak, outBuffer
      ensures RingOk() && peak == Max(old(peak), Waiting()) && old(Waiting()) <= Waiting()
      ensures Now(0) == Interpret(target, old(Now(|bytes|)), bytes)
    {
      var j := 0;
      assert bytes[0..] == bytes;
      while j < |bytes|
        invariant j <= |bytes| && RingOk() && peak == Max(old(peak), Waiting()) && old(Waiting()) <= Waiting()
        invariant Interpret(target, Now(|bytes| - j), bytes[j..]) == Interpret(target, old(Now(|bytes|)), bytes)
      {
        ghost var before := Now(|bytes| - j);
        assert bytes[j..][0] == bytes[j] && bytes[j..][1..] == bytes[j + 1..];
        if writeOnly {
          effects := effects + [ShiftOut(bytes[j])];
        } else {
          ReadBack(ShiftInOut(bytes[j]));
        }
        assert Now(|bytes| - j - 1) == ByteStep(target, before, bytes[j]);
        j := j + 1;
      }
    }

    /** As many bytes as are announced and there are shifted in one burst. */
    method Burst(bytes: seq<byte>) returns (m: nat)
      requires RingOk() && clockBytes > 0 && bytes != []
      modifies `clockBytes, `firstFree, `pending, `effects, `readBack, `peak, outBuffer
      ensures 0 < m <= |bytes| && RingOk() && peak == Max(old(peak), Waiting()) && old(Waiting()) <= Waiting()
      ensures Interpret(target, Now(0), bytes[m..]) == Interpret(target, old(Now(0)), bytes)
    {
      m := |bytes|;
      if clockBytes < m { m := clockBytes; }
      ghost var before := Now(0);
      clockBytes := clockBytes - m;
      assert Now(m) == before;
      ShiftBurst(bytes[..m]);
      InterpretAppend(target, before, bytes[..m], bytes[m..]);
      assert bytes[..m] + bytes[m..] == bytes;
    }

    /** The packet loop: bursts and commands by turns. */
    method Process(packet: seq<byte>)
      requires RingOk()
      modifies `clockBytes, `writeOnly, `firstFree, `pending, `effects, `readBack, `peak, outBuffer
      ensures RingOk() && peak == Max(old(peak), Waiting())
      ensures Now(0) == Interpret(target, old(Now(0)), packet)
    {
      var i := 0;
      ghost var total := Interpret(target, Now(0), packet);
      assert packet[0..] == packet;
      while i < |packet|
        invariant i <= |packet| && RingOk() && peak == Max(old(peak), Waiting()) && old(Waiting()) <= Waiting()
        invariant Interpret(target, Now(0), packet[i..]) == total
      {
        if clockBytes > 0 {
          var m := Burst(packet[i..]);
          assert packet[i..][m..] == packet[i + m..];
          i := i + m;
        } else {
          assert packet[i..][0] == packet[i] && packet[i..][1..] == packet[i + 1..];
          Command(packet[i]);
          i := i + 1;
        }
      }
      assert packet[i..] == [];
    }

    /** A packet from the host, taken only when fewer than 193 bytes wait. The ring overflows exactly
        if those waiting and those the packet reads back are more than 256; a packet of at most 64
        bytes never makes it overflow. */
    method Receive(packet: seq<byte>) returns (taken: bool)
      requires Valid()
      modifies `clockBytes, `writeOnly, `firstFree, `pending, `effects, `received, `readBack, `peak, outBuffer
      ensures Valid() && taken == (old(pending) < LEN - 0x3F)
      ensures received == old(received) + if taken then packet else []
      ensures readBack == if taken then Interpret(target, old(Now(0)), packet).out else old(readBack)
      ensures old(peak) <= LEN ==> (peak <= LEN <==> old(Waiting()) + |readBack| - |old(readBack)| <= LEN)
      ensures old(peak) <= LEN && |packet| <= 64 ==> peak <= LEN
    {
      if pending >= LEN - 0x3F {
        return false;
      }
      InterpretAppend(target, IDLE, received, packet);
      OutGrows(target, Now(0), packet);
      Process(packet);
      received := received + packet;
      return true;
    }

    /** The next n bytes are taken from the ring. */
    method TakeRing(n: nat) returns (payload: seq<byte>)
      requires RingOk() && n <= pending
      modifies `firstData, `pending
      ensures |payload| == n && TakenOk(payload)
    {
      payload := [];
      ghost var buf := outBuffer[..];
      while |payload| < n
        invariant |payload| <= n && (n <= LEN ==> payload == RingOf(buf, firstData, |payload|))
      {
        payload := payload + [outBuffer[(firstData + |payload|) % LEN]];
      }
      if pending <= LEN {
        RingDrop(buf, firstData, pending, n);
      }
      Wrap(firstData, n, pending - n);
      firstData := (firstData + n) % LEN;
      pending := pending - n;
    }

    /** A payload taken from the ring is on its way. */
    method Take(payload: seq<byte>)
      requires TakenOk(payload)
      modifies `sent
      ensures RingOk() && sent == old(sent) + [payload]
    {
      ghost var before := Concat(sent);
      sent := sent + [payload];
      assert sent[..|sent| - 1] == old(sent);
      if peak <= LEN {
        Regroup(before, payload, Ring(), payload + Ring());
      }
    }

    /** The next packet's worth of the ring goes out. */
    method SendPending() returns (payload: seq<byte>)
      requires RingOk() && pending > 0
      modifies `firstData, `pending, `sent
      ensures RingOk() && 0 < |payload| <= 62 && sent == old(sent) + [payload]
    {
      var n := if pending > 0x3E then 0x3E else pending;
      payload := TakeRing(n);
      Take(payload);
    }

    /** The header alone, to keep the host going. */
    method SendKeepalive()
      requires RingOk()
      modifies `sent
      ensures RingOk() && sent == old(sent) + [[]]
    {
      if peak <= LEN {
        assert [] + Ring() == Ring();
      }
      Take([]);
    }

    method SendPacket() returns (packet: seq<byte>)
      requires RingOk()
      modifies `firstData, `pending, `tick, `sent
      ensures RingOk() && SentAs(old(sent), sent, packet)
      ensures old(pending) > 0 ==> |packet| > 2 && tick
      ensures old(pending) == 0 ==> packet == (if old(tick) then HEADER else []) && !tick
    {
      if pending > 0 {
        var payload := SendPending();
        tick := true;
        return HEADER + payload;
      }
      if tick {
        SendKeepalive();
        tick := false;
        assert sent == old(sent) + [[]];
        return HEADER + [];
      }
      return [];
    }

    /** The timer runs out, about every 10 ms, or was set off by the packet sent last. */
    method TimerTick()
      requires Valid()
      modifies `tick
      ensures Valid() && tick && received == old(received) && sent == old(sent)
    {
      tick := true;
    }

    /** A packet to the host when it is ready: two header bytes and at most 62 from the ring, or,
        when nothing waits, the header alone, once for each tick of the timer. */
    method Send(ready: bool) returns (packet: seq<byte>)
      requires Valid()
      modifies `firstData, `pending, `tick, `sent
      ensures Valid() && received == old(received) && SentAs(old(sent), sent, packet) && |packet| <= 64
      ensures ready && old(pending) > 0 ==> |packet| > 2 && tick
      ensures ready && old(pending) == 0 ==> packet == (if old(tick) then HEADER else []) && !tick
      ensures !ready ==> packet == [] && tick == old(tick)
      ensures packet != [] ==> packet[..2] == [0x31, 0x60]
    {
      packet := [];
      if ready {
        packet := SendPacket();
      }
    }
  }
}
