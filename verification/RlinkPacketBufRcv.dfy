/** The receiving packet buffer: scanning loops over a raw buffer that is refilled by reads
    of any size. Its methods are proved against the automaton of RlinkReceiver. */
module RlinkPacketBufRcv {
  import opened Words
  import opened RlinkPacketBuf
  import opened RlinkReceiver
  import opened Checksum

  const RAW_SIZE := 4096

  /** What a port read returns when the time is up; other codes that are not positive are errors. */
  const PORT_TOUT := -1

  lemma {:induction false} ScanAt(raw: seq<byte>, i: nat, size: nat, s: Rcv)
    requires i < size <= |raw| && !Finished(s)
    ensures Scan(s, raw[i..size])
      == Scan(Step(s, raw[i], NakPeek(raw[i + 1..size])), raw[i + 1..size])
  {
    assert raw[i..size][0] == raw[i] && raw[i..size][1..] == raw[i + 1..size];
  }

  class RcvBuf {
    const rawBuf: array<byte>
    var rawBufSize: nat
    var rawBufDone: nat
    var rcvState: Phase
    var nDone: nat
    var escSeen: bool
    var nakIndex: int
    var nakCode: byte
    var dropData: seq<byte>
    var pktBuf: seq<byte>
    var flags: Flags
    var crc: word
    const add: Adder

    ghost predicate Valid()
      reads this
    {
      rawBuf.Length == RAW_SIZE && rawBufDone <= rawBufSize <= RAW_SIZE
    }

    /** The state of the automaton. */
    function State(): Rcv
      reads this
    {
      Rcv(rcvState, escSeen, flags, pktBuf, nakIndex, nakCode, dropData)
    }

    /** The bytes read but not processed. */
    ghost function Raw(): seq<byte>
      requires Valid()
      reads this, rawBuf
    {
      rawBuf[rawBufDone..rawBufSize]
    }

    /** What processing the rest of the read will give; processing leaves it as it is. */
    ghost function Outcome(): Scanned
      requires Valid()
      reads this, rawBuf
    {
      Scan(State(), Raw())
    }

    constructor (add: Adder)
      ensures Valid() && fresh(rawBuf) && State() == START && Raw() == [] && nDone == 0 && crc == 0
      ensures this.add == add
    {
      this.add := add;
      rawBuf := new byte[RAW_SIZE];
      rawBufSize, rawBufDone := 0, 0;
      rcvState, escSeen, flags, pktBuf, nakIndex, nakCode, dropData := Idle, false, NO_FLAGS, [], -1, 0, [];
      nDone, crc := 0, 0;
    }

    /** One port read: irc is what the port returned, data the bytes it delivered. A timeout
        of zero polls, and then running out of time is not an error. Unprocessed bytes are never
        overwritten: the call is refused while there are any. */
    method ReadData(irc: int, data: seq<byte>, poll: bool) returns (refused: bool, r: int)
      requires Valid() && |data| == (if irc > 0 then irc else 0) <= RAW_SIZE
      modifies this, rawBuf
      ensures Valid() && nDone == old(nDone) && crc == old(crc)
      ensures refused <==> old(Raw()) != []
      ensures refused ==> State() == old(State()) && Raw() == old(Raw())
      ensures !refused ==>
        && Raw() == data && r == (if poll && irc == PORT_TOUT then 0 else irc)
        && State() == old(State()).(flags :=
             if irc > 0 || (poll && irc == PORT_TOUT) then old(flags)
             else if irc == PORT_TOUT then old(flags).(tout := true)
             else old(flags).(io := true))
    {
      if rawBufDone != rawBufSize {
        return true, 0;
      }
      refused := false;
      rawBufDone, rawBufSize := 0, 0;
      forall i | 0 <= i < |data| { rawBuf[i] := data[i]; }
      if poll && irc == PORT_TOUT {
        return false, 0;
      }
      if irc <= 0 {
        if irc == PORT_TOUT {
          flags := flags.(tout := true);
        } else {
          flags := flags.(io := true);
        }
      } else {
        rawBufSize := irc;
      }
      return false, irc;
    }

    /** Processes bytes until the read is used up or a packet is complete or broken. */
    method ProcessData() returns (any: bool)
      requires Valid()
      modifies `rawBufDone, `rcvState, `escSeen, `nakIndex, `nakCode, `dropData, `pktBuf, `flags
      ensures Valid() && any == (old(Raw()) != [])
      ensures State() == old(Outcome()).s && Raw() == old(Outcome()).rest
    {
      if rawBufDone == rawBufSize {
        return false;
      }
      any := true;
      while rawBufDone < rawBufSize
        invariant Valid() && Outcome() == old(Outcome())
        decreases rawBufSize - rawBufDone
      {
        match rcvState {
          case Idle => ProcessDataIdle();
          case Fill => ProcessDataFill();
          case _ => return;
        }
      }
    }

    method GetEcode() returns (ec: byte)
      requires Valid() && escSeen && Raw() != []
      modifies `escSeen, `rawBufDone
      ensures Valid() && !escSeen && rawBufDone == old(rawBufDone) + 1
      ensures ec == Ecode(rawBuf[old(rawBufDone)])
    {
      escSeen := false;
      var c := rawBuf[rawBufDone];
      rawBufDone := rawBufDone + 1;
      ec := Ecode(c);
    }

    /** The inner loop outside a packet: plain bytes up to and including the next ESC. */
    method DropToEscape()
      requires Valid() && rcvState.Idle? && !escSeen
      modifies `rawBufDone, `escSeen, `dropData
      ensures Valid() && Outcome() == old(Outcome())
      ensures rawBufDone >= old(rawBufDone)
      ensures rawBufDone == rawBufSize || rawBufDone > old(rawBufDone)
    {
      hide Scan;
      var pi := rawBufDone;
      ghost var raw := rawBuf[..];
      while pi < rawBufSize
        invariant rawBufDone <= pi <= rawBufSize && rawBufDone == old(rawBufDone) && !escSeen
        invariant Scan(State(), raw[pi..rawBufSize]) == old(Outcome())
      {
        var c := rawBuf[pi];
        ghost var s := State();
        ScanAt(raw, pi, rawBufSize, s);
        pi := pi + 1;
        if c == SYM_ESC {
          escSeen := true;
          assert State() == PlainStep(s, c);
          break;
        }
        dropData := dropData + [c];
        assert State() == PlainStep(s, c);
      }
      rawBufDone := pi;
      assert Raw() == raw[pi..rawBufSize];
    }

    /** The inner loop inside a packet. */
    method CollectToEscape()
      requires Valid() && rcvState.Fill? && !escSeen
      modifies `rawBufDone, `escSeen, `pktBuf
      ensures Valid() && Outcome() == old(Outcome())
      ensures rawBufDone >= old(rawBufDone)
      ensures rawBufDone == rawBufSize || rawBufDone > old(rawBufDone)
    {
      hide Scan;
      var pi := rawBufDone;
      ghost var raw := rawBuf[..];
      while pi < rawBufSize
        invariant rawBufDone <= pi <= rawBufSize && rawBufDone == old(rawBufDone) && !escSeen
        invariant Scan(State(), raw[pi..rawBufSize]) == old(Outcome())
      {
        var c := rawBuf[pi];
        ghost var s := State();
        ScanAt(raw, pi, rawBufSize, s);
        pi := pi + 1;
        if c == SYM_ESC {
          escSeen := true;
          assert State() == PlainStep(s, c);
          break;
        }
        pktBuf := pktBuf + [c];
        assert State() == PlainStep(s, c);
      }
      rawBufDone := pi;
      assert Raw() == raw[pi..rawBufSize];
    }

    /** Acts on the code after an ESC outside a packet; true when a packet starts. */
    method ProcessIdleCode() returns (started: bool)
      requires Valid() && rcvState.Idle? && escSeen && Raw() != []
      modifies `rawBufDone, `rcvState, `escSeen, `dropData, `flags
      ensures Valid() && !escSeen && Outcome() == old(Outcome()) && rawBufDone == old(rawBufDone) + 1
      ensures if started then rcvState.Fill? else rcvState.Idle?
    {
      ScanAt(rawBuf[..], rawBufDone, rawBufSize, State());
      var ec := GetEcode();
      started := true;
      if ec == EC_SOP {
        flags := flags.(sop := true);
        rcvState := Fill;
      } else if ec == EC_ATTN {
        flags := flags.(attn := true);
        rcvState := Fill;
      } else {
        dropData := dropData + [SYM_ESC, rawBuf[rawBufDone - 1]];
        started := false;
      }
    }

    /** Outside a packet: everything up to a SOP or ATTN is dropped. */
    method ProcessDataIdle()
      requires Valid() && rcvState.Idle? && Raw() != []
      modifies `rawBufDone, `rcvState, `escSeen, `dropData, `flags
      ensures Valid() && Outcome() == old(Outcome()) && rawBufDone > old(rawBufDone)
      ensures rawBufDone == rawBufSize || rcvState.Fill?
    {
      while rawBufDone < rawBufSize
        invariant Valid() && rcvState.Idle? && Outcome() == old(Outcome())
        invariant rawBufDone >= old(rawBufDone)
        invariant rawBufDone == old(rawBufDone) ==> rawBufDone < rawBufSize
        decreases rawBufSize - rawBufDone
      {
        if escSeen {
          var started := ProcessIdleCode();
          if started {
            return;
          }
        }
        DropToEscape();
      }
    }

    /** Acts on the code after an ESC inside a packet; true when the packet ends here. */
    method ProcessFillCode() returns (ended: bool)
      requires Valid() && rcvState.Fill? && escSeen && Raw() != []
      modifies `rawBufDone, `rcvState, `escSeen, `nakIndex, `nakCode, `pktBuf, `flags
      ensures Valid() && !escSeen && Outcome() == old(Outcome()) && rawBufDone == old(rawBufDone) + 1
      ensures if ended then Finished(State()) else rcvState.Fill?
    {
      ScanAt(rawBuf[..], rawBufDone, rawBufSize, State());
      var ec := GetEcode();
      ended := false;
      if ec == EC_EOP {
        flags := flags.(eop := true);
        rcvState := Done;
        return true;
      } else if ec == EC_NAK {
        if flags.attn || flags.nak {
          flags := flags.(frame := true);
          rcvState := Error;
          return true;
        }
        flags := flags.(nak := true);
        nakIndex := |pktBuf|;
        nakCode := NC_INVAL;
        if rawBufDone + 1 < rawBufSize {
          assert Raw()[0] == rawBuf[rawBufDone];
          nakCode := NakCodeOf(rawBuf[rawBufDone]);
        }
      } else if EC_XON <= ec <= EC_ESC {
        pktBuf := pktBuf + [Unescaped(ec)];
      } else if ec == EC_CLOBBER {
        flags := flags.(clobber := true);
        rcvState := Error;
        return true;
      } else {
        flags := flags.(frame := true);
        rcvState := Error;
        return true;
      }
    }

    /** Inside a packet: data bytes are collected, commas acted upon. */
    method ProcessDataFill()
      requires Valid() && rcvState.Fill? && Raw() != []
      modifies `rawBufDone, `rcvState, `escSeen, `nakIndex, `nakCode, `pktBuf, `flags
      ensures Valid() && Outcome() == old(Outcome()) && rawBufDone > old(rawBufDone)
      ensures rawBufDone == rawBufSize || Finished(State())
    {
      while rawBufDone < rawBufSize
        invariant Valid() && rcvState.Fill? && Outcome() == old(Outcome())
        invariant rawBufDone >= old(rawBufDone)
        invariant rawBufDone == old(rawBufDone) ==> rawBufDone < rawBufSize
        decreases rawBufSize - rawBufDone
      {
        if escSeen {
          var ended := ProcessFillCode();
          if ended {
            return;
          }
        }
        CollectToEscape();
      }
    }

    /** Forgets the packet; a pending escape and the unprocessed bytes stay. */
    method AcceptPacket()
      requires Valid()
      modifies `pktBuf, `crc, `flags, `rcvState, `nDone, `nakIndex, `nakCode, `dropData
      ensures Valid() && State() == Accept(old(State())) && Raw() == old(Raw()) && nDone == 0 && crc == 0
      ensures escSeen == old(escSeen) && rcvState.Idle? && pktBuf == [] && dropData == [] && nakIndex == -1
    {
      pktBuf, crc, flags, rcvState, nDone, nakIndex, nakCode, dropData := [], 0, NO_FLAGS, Idle, 0, -1, 0, [];
    }

    method FlushRaw()
      requires Valid()
      modifies `rawBufSize, `rawBufDone, `escSeen
      ensures Valid() && Raw() == [] && State() == old(State()).(esc := false)
    {
      rawBufSize, rawBufDone, escSeen := 0, 0, false;
    }

    // ----------------------------------------------------------- taking the payload

    /** Is the next payload byte the one at which a NAK came. */
    predicate CheckNak()
      reads this
    {
      nakIndex >= 0 && nDone == nakIndex
    }

    predicate CheckSize(n: nat)
      requires nDone <= |pktBuf|
      reads this
    {
      |pktBuf| - nDone >= n
    }

    method GetByteWithCrc() returns (data: byte)
      requires nDone < |pktBuf|
      modifies `nDone, `crc
      ensures nDone == old(nDone) + 1 && data == pktBuf[old(nDone)]
      ensures crc == Sum(add, old(crc), pktBuf[old(nDone)..nDone])
    {
      data := pktBuf[nDone];
      nDone := nDone + 1;
      crc := add(crc, data);
      assert pktBuf[old(nDone)..nDone] == [data];
      assert Sum(add, old(crc), [data]) == crc;
    }

    method GetWordWithCrc() returns (data: word)
      requires nDone + 2 <= |pktBuf|
      modifies `nDone, `crc
      ensures nDone == old(nDone) + 2 && data == WordAt(pktBuf, old(nDone))
      ensures crc == Sum(add, old(crc), pktBuf[old(nDone)..nDone])
    {
      var datl := pktBuf[nDone];
      nDone := nDone + 1;
      var dath := pktBuf[nDone];
      nDone := nDone + 1;
      crc := add(crc, datl);
      crc := add(crc, dath);
      data := 256 * dath as int + datl;
      assert pktBuf[old(nDone)..nDone] == WordBytesOf(data);
      SumWord(add, old(crc), data);
    }

    method GetBlockWithCrc(count: nat) returns (data: seq<word>)
      requires nDone + 2 * count <= |pktBuf|
      modifies `nDone, `crc
      ensures nDone == old(nDone) + 2 * count && data == WordsAt(pktBuf, old(nDone), count)
      ensures crc == Sum(add, old(crc), pktBuf[old(nDone)..nDone])
    {
      data := [];
      assert pktBuf[old(nDone)..nDone] == [];
      while |data| < count
        invariant |data| <= count && nDone == old(nDone) + 2 * |data|
        invariant data == WordsAt(pktBuf, old(nDone), |data|)
        invariant crc == Sum(add, old(crc), pktBuf[old(nDone)..nDone])
      {
        ghost var done := nDone;
        var w := GetWordWithCrc();
        data := data + [w];
        SumSlices(add, old(crc), pktBuf, old(nDone), done, nDone);
      }
    }

    /** Compares the running checksum with the next two bytes, which are not summed. */
    method CheckCrc() returns (ok: bool)
      requires nDone + 2 <= |pktBuf|
      modifies `nDone
      ensures nDone == old(nDone) + 2
      ensures ok <==> pktBuf[old(nDone)..nDone] == WordBytesOf(crc)
    {
      var datl := pktBuf[nDone];
      nDone := nDone + 1;
      var dath := pktBuf[nDone];
      nDone := nDone + 1;
      ok := 256 * dath as int + datl == crc;
      assert pktBuf[old(nDone)..nDone] == [datl, dath];
    }
  }
}
