/** The connection: encoding a command list into a request packet, decoding the response into
    the list, and sorting responses, attention notifies and junk out of the input. */
module RlinkConnect {
  import opened Words
  import opened Checksum
  import opened RlinkCommand
  import opened RlinkDecoding
  import opened RlinkPacketBufSnd
  import opened RlinkPacketBufRcv
  import opened RlinkReceiver
  import opened RlinkInput

  datatype Executed = Completed | SendFailed | Thrown | Incomplete | Refused

  /** What waiting for an attention notify gives: a return code and the bits, or an exception. */
  datatype Attended = NotAllowed | NotReady | Pattern(rc: int, apat: set<nat>)

  // ------------------------------------------------------------- which lists are sent

  /** A command that was not set up or has no code, and an attention harvest by a thread other
      than that of the active server. */
  predicate Refusable(cmd: Command, noAttn: bool) {
    !cmd.flags.init || !KnownCode(cmd) || (noAttn && Code(cmd) == CMD_ATTN)
  }

  function FirstRefused(cmds: seq<Command>, noAttn: bool, k: nat): (n: nat)
    requires k <= |cmds|
    ensures k <= n <= |cmds|
    decreases |cmds| - k
  {
    if k == |cmds| || Refusable(cmds[k], noAttn) then k else FirstRefused(cmds, noAttn, k + 1)
  }

  predicate Admitted(cmds: seq<Command>, noAttn: bool) {
    forall k :: 0 <= k < |cmds| ==> !Refusable(cmds[k], noAttn)
  }

  /** The list with its first n commands reset. */
  function ClearedTo(cmds: seq<Command>, n: nat): (r: seq<Command>)
    ensures |r| == |cmds|
  {
    seq(|cmds|, k requires 0 <= k < |cmds| => if k < n then Cleared(cmds[k]) else cmds[k])
  }

  /** FirstRefused finds the first command refused. */
  lemma {:induction false} RefusedFirst(cmds: seq<Command>, noAttn: bool, k: nat)
    requires k <= |cmds|
    ensures var n := FirstRefused(cmds, noAttn, k);
            && (forall j :: k <= j < n ==> !Refusable(cmds[j], noAttn))
            && (n < |cmds| ==> Refusable(cmds[n], noAttn))
    decreases |cmds| - k
  {
    if k < |cmds| && !Refusable(cmds[k], noAttn) {
      RefusedFirst(cmds, noAttn, k + 1);
    }
  }

  lemma {:induction false} AdmittedShape(cmds: seq<Command>, noAttn: bool)
    requires Admitted(cmds, noAttn)
    ensures FirstRefused(cmds, noAttn, 0) == |cmds| && ClearedTo(cmds, |cmds|) == ClearedAll(cmds)
    ensures forall k :: 0 <= k < |cmds| ==> KnownCode(cmds[k])
  {
    RefusedFirst(cmds, noAttn, 0);
  }

  /** A list, reset before, as it stands when its request is sent, and the request. */
  function SentList(cmds: seq<Command>, seqs: seq<byte>): (r: seq<Command>)
    requires cmds != [] && |seqs| == 8
    ensures |r| == |cmds|
  {
    MarkEnds(Number(cmds, seqs, 0).cmds)
  }

  function RequestBytes(add: Adder, cmds: seq<Command>, seqs: seq<byte>): seq<byte>
    requires |seqs| == 8
  {
    Requests(RequestCoder(add), Number(cmds, seqs, 0).cmds, 0, 0)
  }

  /** What a command holds when its request is sent: its number in the upper bits of the request, the
      response size, and the flags init, as it was, and send, with those of the packet's ends. */
  lemma {:induction false} SentHolds(cmds: seq<Command>, seqs: seq<byte>, k: nat)
    requires k < |cmds| && |seqs| == 8 && KnownCode(cmds[k])
    ensures var cmd, c := cmds[k], SentList(ClearedAll(cmds), seqs)[k];
            var code := cmd.request % 8;
            && c.request == 8 * ((seqs[code] as int + SameCode(ClearedAll(cmds), 0, k)) % 32) + code
            && c.address == cmd.address && c.data == cmd.data && c.blk == cmd.blk
            && c.blockDone == cmd.blockDone && c.status == cmd.status && SizeSet(c)
            && c.flags == RlinkCommand.Flags.Flags(cmd.flags.init, true, false, false, k == 0, k == |cmds| - 1,
                                                   false, false)
  {
    var l := ClearedAll(cmds);
    var code, n := cmds[k].request % 8, SameCode(l, 0, k);
    NumberAt(l, seqs, 0, k);
    NumberedShape(l, seqs, k);
    ByteOfSum(seqs[code] + n);
  }

  /** What a list holds that was reset up to command n. */
  lemma {:induction false} ClearedHolds(cmds: seq<Command>, n: nat, k: nat)
    requires k < |cmds|
    ensures var init := cmds[k].flags.init;
            ClearedTo(cmds, n)[k] ==
              if k < n then
                cmds[k].(flags := RlinkCommand.Flags.Flags(init, false, false, false, false, false, false, false))
              else cmds[k]
  {
  }

  lemma {:induction false} SentListShape(cmds: seq<Command>, seqs: seq<byte>)
    requires cmds != [] && |seqs| == 8 && forall k :: 0 <= k < |cmds| ==> KnownCode(cmds[k])
    ensures Sized(SentList(cmds, seqs))
    ensures forall k :: 0 <= k < |cmds| ==> KnownCode(SentList(cmds, seqs)[k])
  {
    var n := Number(cmds, seqs, 0).cmds;
    forall k | 0 <= k < |cmds|
      ensures SizeSet(MarkEnds(n)[k]) && KnownCode(MarkEnds(n)[k])
    {
      NumberedShape(cmds, seqs, k);
      assert MarkEnds(n)[k].request == n[k].request && MarkEnds(n)[k].rcvSize == n[k].rcvSize
          && MarkEnds(n)[k].blk == n[k].blk;
    }
  }

  ghost predicate ValidReads(input: seq<PortRead>) {
    forall k :: 0 <= k < |input| ==> ValidRead(input[k], RAW_SIZE)
  }

  /** The commands from position k on are as they were sent. */
  ghost predicate SentFrom(cmds: seq<Command>, k: nat) {
    forall j :: k <= j < |cmds| ==> SizeSet(cmds[j]) && KnownCode(cmds[j])
  }

  // ------------------------------------------------------------- starting the server

  const RLCNTL: word := 0xFFFF
  const RLCNTL_AN_ENA: word := 0x8000

  /** A command as it is set up, without a block. */
  function SetUp(code: nat, address: word, data: word): Command
    requires code <= CMD_INIT
  {
    var flags := RlinkCommand.Flags.Flags(true, false, false, false, false, false, false, false);
    Command(code, address, data, [], 0, 0, flags, 0)
  }

  /** Starting the server harvests the attention pattern, unless it is resumed, and enables notifies. */
  function StartList(resume: bool): (r: seq<Command>)
    ensures r != []
  {
    (if resume then [] else [SetUp(CMD_ATTN, 0, 0)]) + [SetUp(CMD_WREG, RLCNTL, RLCNTL_AN_ENA)]
  }

  /** The list holds an attention harvest, if the server is not resumed, and a write of 0x8000 to the
      register 0xFFFF. */
  lemma {:induction false} StartListIs(resume: bool)
    ensures var l := StartList(resume);
            var w := l[|l| - 1];
            && |l| == (if resume then 1 else 2) && (!resume ==> l[0].request == 5)
            && w.request == 2 && w.address == 0xFFFF && w.data == 0x8000
            && forall k :: 0 <= k < |l| ==> l[k].flags.init
  {
  }

  lemma {:induction false} StartListAdmitted(resume: bool)
    ensures Admitted(StartList(resume), false) && ClearedAll(StartList(resume)) == StartList(resume)
  {
    forall k | 0 <= k < |StartList(resume)|
      ensures !Refusable(StartList(resume)[k], false) && Cleared(StartList(resume)[k]) == StartList(resume)[k]
    {
    }
  }

  class Connect {
    const add: Adder
    const snd: SndBuf
    const rcv: RcvBuf
    var cmds: seq<Command>
    var laboIndex: int
    var seqNumber: seq<byte>
    var portOpen: bool
    var serverActive: bool
    var attnNotiPatt: set<nat>
    var signalled: set<nat>

    /** The bits noted: in the connection, or, while the server is active, handed to it. */
    ghost function Noted(): set<nat>
      reads `serverActive, `attnNotiPatt, `signalled
    {
      if serverActive then signalled else attnNotiPatt
    }

    /** Bits are noted in one place only. */
    twostate predicate OtherKept()
      reads `serverActive, `attnNotiPatt, `signalled
    {
      if serverActive then attnNotiPatt == old(attnNotiPatt) else signalled == old(signalled)
    }

    constructor (add: Adder)
      ensures Valid() && fresh(snd) && fresh(rcv) && fresh(rcv.rawBuf) && this.add == add
      ensures cmds == [] && laboIndex == -1 && seqNumber == [0, 0, 0, 0, 0, 0, 0, 0]
      ensures attnNotiPatt == signalled == {} && !portOpen && !serverActive
      ensures Quiet()
    {
      this.add := add;
      snd := new SndBuf(add);
      rcv := new RcvBuf(add);
      cmds, laboIndex, seqNumber := [], -1, [0, 0, 0, 0, 0, 0, 0, 0];
      portOpen, serverActive, attnNotiPatt, signalled := false, false, {}, {};
    }

    ghost predicate Valid()
      reads this, rcv
    {
      && snd.add == add && rcv.add == add && rcv.Valid() && |seqNumber| == 8
      && rcv.nDone <= |rcv.pktBuf|
    }

    // ----------------------------------------------------------- encoding

    method PutHead(cmd: Command)
      requires snd.add == add
      modifies snd`pktBuf, snd`crc
      ensures snd.pktBuf == old(snd.pktBuf) + RequestHead(cmd)
      ensures snd.crc == Sum(add, old(snd.crc), RequestHead(cmd))
    {
      var code := Code(cmd);
      ghost var crc0 := snd.crc;
      ghost var addr, third := WordBytesOf(cmd.address), [];
      snd.PutByteWithCrc(cmd.request);
      if code == CMD_LABO || code == CMD_ATTN {
        return;
      }
      snd.PutWordWithCrc(cmd.address);
      SumAppend(add, crc0, [cmd.request], addr);
      if code == CMD_RBLK || code == CMD_WBLK {
        snd.PutWordWithCrc(|cmd.blk|);
        third := WordBytesOf(|cmd.blk|);
      } else if code == CMD_WREG || code == CMD_INIT {
        snd.PutWordWithCrc(cmd.data);
        third := WordBytesOf(cmd.data);
      }
      SumAppend(add, crc0, [cmd.request] + addr, third);
    }

    /** One request: head, checksum, and for wblk the data and a second checksum. */
    method PutRequest(cmd: Command)
      requires snd.add == add
      modifies snd`pktBuf, snd`crc
      ensures snd.pktBuf == old(snd.pktBuf) + Request(add, old(snd.crc), cmd).bytes
      ensures snd.crc == Request(add, old(snd.crc), cmd).crc
    {
      ghost var pkt0 := snd.pktBuf;
      ghost var head := WithCrc(add, snd.crc, RequestHead(cmd));
      PutHead(cmd);
      snd.PutCrc();
      assert snd.pktBuf == pkt0 + head.bytes;
      if Code(cmd) == CMD_WBLK {
        ghost var data := WithCrc(add, snd.crc, WordsBytes(cmd.blk));
        snd.PutBlockWithCrc(cmd.blk);
        snd.PutCrc();
        assert snd.pktBuf == pkt0 + head.bytes + data.bytes;
        assert pkt0 + head.bytes + data.bytes == pkt0 + (head.bytes + data.bytes);
      }
    }

    /** Encodes one command and numbers it. */
    method EncodeCommand(k: nat)
      requires Valid() && k < |cmds|
      modifies this`cmds, this`seqNumber, snd`pktBuf, snd`crc
      ensures Valid() && Numbered(cmds, seqNumber) == NumberOne(old(cmds), old(seqNumber), k)
      ensures var cmd := old(cmds)[k];
              && SizeSet(cmds[k]) && cmds[k] == cmd.(request := cmds[k].request, rcvSize := cmds[k].rcvSize,
                   flags := cmd.flags.(pktBeg := false, pktEnd := false, send := true))
      ensures snd.pktBuf == old(snd.pktBuf) + Request(add, old(snd.crc), cmds[k]).bytes
      ensures snd.crc == Request(add, old(snd.crc), cmds[k]).crc
    {
      var cmd := cmds[k];
      var code := Code(cmd);
      var snum := seqNumber[code];
      SeqNumberKeepsCode(cmd.request, snum);
      cmd := cmd.(request := WithSeqNumber(cmd.request, snum));
      seqNumber := seqNumber[code := (snum as int + 1) % 256];
      cmd := cmd.(flags := cmd.flags.(pktBeg := false, pktEnd := false, send := true));
      cmd := cmd.(rcvSize := ResponseSize(code, |cmd.blk|));
      cmds := cmds[k := cmd];
      PutRequest(cmd);
    }

    /** Encodes the list as the payload of one packet. */
    method EncodeRequest()
      requires Valid() && cmds != [] && forall k :: 0 <= k < |cmds| ==> KnownCode(cmds[k])
      modifies this`cmds, this`seqNumber, snd`pktBuf, snd`crc, snd`rawBuf
      ensures Valid()
      ensures cmds == SentList(old(cmds), old(seqNumber))
      ensures seqNumber == Number(old(cmds), old(seqNumber), 0).seqs
      ensures snd.pktBuf == RequestBytes(add, old(cmds), old(seqNumber))
    {
      snd.Init();
      ghost var n := Number(cmds, seqNumber, 0);
      ghost var total, rest := Requests(RequestCoder(add), n.cmds, 0, 0), Requests(RequestCoder(add), n.cmds, 0, 0);
      var k := 0;
      while k < |cmds|
        modifies this`cmds, this`seqNumber, snd`pktBuf, snd`crc
        invariant Valid() && k <= |cmds| == |n.cmds|
        invariant Number(cmds, seqNumber, k) == n
        invariant rest == Requests(RequestCoder(add), n.cmds, k, snd.crc) && Remaining([], snd.pktBuf, total, rest)
      {
        ghost var pkt, crc := snd.pktBuf, snd.crc;
        ghost var next := NumberOne(cmds, seqNumber, k);
        NumberKeeps(next.cmds, next.seqs, k + 1, k);
        EncodeCommand(k);
        ghost var first := Request(add, crc, n.cmds[k]);
        rest := Requests(RequestCoder(add), n.cmds, k + 1, first.crc);
        RemainingStep([], pkt, snd.pktBuf, total, first.bytes, rest);
        k := k + 1;
      }
      assert [] + total == total;
      cmds := MarkEnds(cmds);
    }
  
    // ----------------------------------------------------------- decoding

    /** The rest of a rblk response up to the status; false if the block length is wrong. */
    method TakeBlock(cmd: Command, ghost i: nat, ghost crc0: word) returns (ok: bool, c: Command)
      requires Valid() && i + 8 + 2 * |cmd.blk| <= |rcv.pktBuf|
      requires rcv.nDone == i + 1 && rcv.crc == Sum(add, crc0, rcv.pktBuf[i..i + 1])
      modifies rcv`nDone, rcv`crc
      ensures Valid()
      ensures ok == (WordAt(rcv.pktBuf, i + 1) == |cmd.blk|)
      ensures ok ==>
        && rcv.nDone == i + 5 + 2 * |cmd.blk|
        && rcv.crc == Sum(add, crc0, rcv.pktBuf[i..rcv.nDone])
        && c == cmd.(blk := WordsAt(rcv.pktBuf, i + 3, |cmd.blk|),
                     blockDone := WordAt(rcv.pktBuf, i + 3 + 2 * |cmd.blk|))
    {
      ghost var p, n := rcv.pktBuf, |cmd.blk|;
      ok, c := true, cmd;
      var count := rcv.GetWordWithCrc();
      if count != |cmd.blk| {
        return false, cmd;
      }
      SumSlices(add, crc0, p, i, i + 1, i + 3);
      assert rcv.crc == Sum(add, crc0, p[i..i + 3]);
      var blk := rcv.GetBlockWithCrc(|cmd.blk|);
      SumSlices(add, crc0, p, i, i + 3, i + 3 + 2 * n);
      assert rcv.crc == Sum(add, crc0, p[i..i + 3 + 2 * n]);
      var done := rcv.GetWordWithCrc();
      SumSlices(add, crc0, p, i, i + 3 + 2 * n, i + 5 + 2 * n);
      c := cmd.(blk := blk, blockDone := done);
    }

    /** The data of the other responses: a word, a byte or nothing. */
    method TakeWord(code: nat, ghost i: nat, ghost crc0: word) returns (data: word)
      requires Valid() && code <= CMD_INIT && code != CMD_RBLK && i + ResponseSize(code, 0) <= |rcv.pktBuf|
      requires rcv.nDone == i + 1 && rcv.crc == Sum(add, crc0, rcv.pktBuf[i..i + 1])
      modifies rcv`nDone, rcv`crc
      ensures Valid()
      ensures rcv.nDone == i + ResponseSize(code, 0) - 3
      ensures rcv.crc == Sum(add, crc0, rcv.pktBuf[i..rcv.nDone])
      ensures code == CMD_LABO ==> data == rcv.pktBuf[i + 1]
      ensures code in {CMD_RREG, CMD_ATTN, CMD_WBLK} ==> data == WordAt(rcv.pktBuf, i + 1)
    {
      ghost var p := rcv.pktBuf;
      data := 0;
      if code == CMD_RREG || code == CMD_ATTN || code == CMD_WBLK {
        data := rcv.GetWordWithCrc();
        SumSlices(add, crc0, p, i, i + 1, i + 3);
      } else if code == CMD_LABO {
        data := rcv.GetByteWithCrc();
        SumSlices(add, crc0, p, i, i + 1, i + 2);
      }
    }

    /** The data part of a response, by command code; false if a block length is wrong. */
    method TakeData(cmd: Command, ghost i: nat, ghost crc0: word) returns (ok: bool, c: Command)
      requires Valid() && KnownCode(cmd) && SizeSet(cmd) && i + cmd.rcvSize <= |rcv.pktBuf|
      requires rcv.nDone == i + 1 && rcv.crc == Sum(add, crc0, rcv.pktBuf[i..i + 1])
      modifies rcv`nDone, rcv`crc
      ensures Valid()
      ensures ok <==> (Code(cmd) == CMD_RBLK ==> WordAt(rcv.pktBuf, i + 1) == |cmd.blk|)
      ensures ok ==>
        && rcv.nDone == i + cmd.rcvSize - 3
        && rcv.crc == Sum(add, crc0, rcv.pktBuf[i..rcv.nDone])
        && c.(status := rcv.pktBuf[rcv.nDone]) == Answered(cmd, AnswerAt(cmd, rcv.pktBuf, i))
        && Entered(c.(status := rcv.pktBuf[rcv.nDone]), cmd, AnswerAt(cmd, rcv.pktBuf, i)) && c.flags == cmd.flags
    {
      var code := Code(cmd);
      ok, c := true, cmd;
      if code == CMD_RBLK {
        ok, c := TakeBlock(cmd, i, crc0);
      } else {
        var data := TakeWord(code, i, crc0);
        if code == CMD_RREG || code == CMD_ATTN || code == CMD_LABO {
          c := cmd.(data := data);
        } else if code == CMD_WBLK {
          c := cmd.(blockDone := data);
        }
      }
    }

    /** Status byte and checksum, which end at position e; c0 is the command so far. */
    method TakeStatus(c0: Command, ghost i: nat, ghost e: nat, ghost crc0: word) returns (fine: bool, c: Command)
      requires Valid() && i + 3 <= e == rcv.nDone + 3 <= |rcv.pktBuf|
      requires rcv.crc == Sum(add, crc0, rcv.pktBuf[i..e - 3])
      modifies rcv`nDone, rcv`crc
      ensures Valid() && rcv.nDone == e && rcv.crc == Sum(add, crc0, rcv.pktBuf[i..e - 2])
      ensures fine <==> rcv.pktBuf[e - 2..e] == WordBytesOf(rcv.crc)
      ensures var c1 := c0.(status := rcv.pktBuf[e - 3]); c == if fine then DecodeDone(c1) else DecodeFailed(c1)
    {
      ghost var p := rcv.pktBuf;
      var status := rcv.GetByteWithCrc();
      SumSlices(add, crc0, p, i, e - 3, e - 2);
      c := c0.(status := status);
      fine := rcv.CheckCrc();
      c := if fine then DecodeDone(c) else DecodeFailed(c);
    }

    /** The response to a command, all bytes of which are there. */
    method DecodeRest(cmd: Command) returns (fine: bool, c: Command)
      requires Valid() && KnownCode(cmd) && SizeSet(cmd) && rcv.nDone + cmd.rcvSize <= |rcv.pktBuf|
      modifies rcv`nDone, rcv`crc
      ensures Valid()
      ensures var d := DecodeBody(add, rcv.pktBuf, cmd, old(rcv.nDone), old(rcv.crc));
              c == d.cmd && fine == d.outcome.Fine? && (fine ==> rcv.nDone == d.at && rcv.crc == d.crc)
    {
      hide Answered, AnswerAt, Entered;
      ghost var i, crc0 := rcv.nDone, rcv.crc;
      var request := rcv.GetByteWithCrc();
      if request != cmd.request {
        return false, DecodeFailed(cmd);
      }
      var ok;
      ok, c := TakeData(cmd, i, crc0);
      if !ok {
        return false, DecodeFailed(cmd);
      }
      fine, c := TakeStatus(c, i, i + cmd.rcvSize, crc0);
    }

    /** One pass of the decoding loop for a command that is not skipped. */
    method DecodeCommand(k: nat) returns (fine: bool)
      requires Valid() && k < |cmds| && KnownCode(cmds[k]) && SizeSet(cmds[k])
      modifies this`cmds, rcv`nDone, rcv`crc
      ensures Valid()
      ensures var d := Decode(add, rcv.pktBuf, rcv.nakIndex, old(cmds)[k], old(rcv.nDone), old(rcv.crc));
              && cmds == old(cmds)[k := d.cmd]
              && fine == d.outcome.Fine?
              && (fine ==> rcv.nDone == d.at && rcv.crc == d.crc)
    {
      var cmd := cmds[k];
      if rcv.CheckNak() {
        cmds := cmds[k := NakSeen(cmd)];
        return false;
      }
      if !rcv.CheckSize(cmd.rcvSize) {
        cmds := cmds[k := DecodeFailed(cmd)];
        return false;
      }
      var c;
      fine, c := DecodeRest(cmd);
      cmds := cmds[k := c];
    }

    /** One pass of the decoding loop; false if decoding ends here. */
    method DecodeNext(k: nat) returns (fine: bool)
      requires Valid() && k < |cmds| && SentFrom(cmds, k) && laboIndex >= -1
      modifies this`cmds, this`laboIndex, rcv`nDone, rcv`crc
      ensures Valid() && laboIndex >= -1 && |cmds| == |old(cmds)| && SentFrom(cmds, k + 1)
      ensures var dec := PacketDecoder(add, rcv.pktBuf, rcv.nakIndex);
              DecodeFrom(dec, old(cmds), k, old(laboIndex), old(rcv.nDone), old(rcv.crc)) ==
                if fine then DecodeFrom(dec, cmds, k + 1, laboIndex, rcv.nDone, rcv.crc)
                else ListResult(cmds, laboIndex, false, old(rcv.nDone), old(rcv.crc))
    {
      ghost var dec := PacketDecoder(add, rcv.pktBuf, rcv.nakIndex);
      if laboIndex >= 0 {
        cmds := cmds[k := Skipped(cmds[k])];
        return true;
      }
      ghost var d := Decode(add, rcv.pktBuf, rcv.nakIndex, cmds[k], rcv.nDone, rcv.crc);
      DecodeOne(dec, cmds, k, rcv.nDone, rcv.crc, d);
      fine := DecodeCommand(k);
      if fine {
        laboIndex := LaboAfter(cmds[k], k);
      }
    }

    /** Decodes the response packet into the list; the number of commands handled, or -1. */
    method DecodeResponse() returns (ncmd: int)
      requires Valid() && Sized(cmds) && laboIndex == -1 && forall k :: 0 <= k < |cmds| ==> KnownCode(cmds[k])
      modifies this`cmds, this`laboIndex, rcv`nDone, rcv`crc
      ensures Valid()
      ensures var r := DecodeFrom(PacketDecoder(add, rcv.pktBuf, rcv.nakIndex), old(cmds), 0, -1,
                                  old(rcv.nDone), old(rcv.crc));
              && cmds == r.cmds && laboIndex == r.labo
              && ncmd == if r.ok then |cmds| else -1
    {
      ghost var dec := PacketDecoder(add, rcv.pktBuf, rcv.nakIndex);
      ghost var r := DecodeFrom(dec, cmds, 0, -1, rcv.nDone, rcv.crc);
      hide SentFrom, DecodeFrom;
      ncmd := 0;
      var k := 0;
      while k < |cmds|
        invariant Valid() && k <= |cmds| == |r.cmds| && ncmd == k && laboIndex >= -1
        invariant SentFrom(cmds, k)
        invariant DecodeFrom(dec, cmds, k, laboIndex, rcv.nDone, rcv.crc) == r
      {
        var fine := DecodeNext(k);
        if !fine {
          return -1;
        }
        ncmd := ncmd + 1;
        k := k + 1;
      }
      DecodeEnds(dec, cmds, laboIndex, rcv.nDone, rcv.crc);
    }

    // ----------------------------------------------------------- input

    /** Nothing of the current packet was taken yet. */
    ghost predicate Fresh()
      reads this, rcv
    {
      Valid() && rcv.nDone == 0 && rcv.crc == 0
    }

    /** Between calls: the receiver is idle or filling. */
    ghost predicate AtRest()
      reads this, rcv, rcv.rawBuf
    {
      Fresh() && !Finished(rcv.State())
    }

    /** And every byte read is processed, so that the next read is allowed. */
    ghost predicate Quiet()
      reads this, rcv, rcv.rawBuf
    {
      AtRest() && rcv.Raw() == []
    }

    /** The receiver as it was, and nothing noted. */
    twostate predicate InputKept()
      requires old(rcv.Valid()) && rcv.Valid()
      reads this, rcv, rcv.rawBuf
    {
      rcv.State() == old(rcv.State()) && rcv.Raw() == old(rcv.Raw()) && Noted() == old(Noted())
    }

    /** Notes the bits of an attention notify packet, if it is valid, and accepts it. */
    method ProcessAttnNotify()
      requires Fresh()
      modifies rcv, this`attnNotiPatt, this`signalled
      ensures OtherKept()
      ensures Fresh() && rcv.State() == Accept(old(rcv.State())) && rcv.Raw() == old(rcv.Raw())
      ensures Noted() == old(Noted()) + NotifyOf(add, old(rcv.pktBuf))
    {
      ghost var p := rcv.pktBuf;
      var ok, apat := DecodeAttnNotify();
      rcv.AcceptPacket();
      if ok && apat != 0 {
        if serverActive {
          signalled := signalled + BitSet(apat);
        } else {
          attnNotiPatt := attnNotiPatt + BitSet(apat);
        }
      } else if ok {
        NoBits();
      }
    }

    method DecodeAttnNotify() returns (ok: bool, apat: word)
      requires Fresh()
      modifies rcv`nDone, rcv`crc
      ensures Valid()
      ensures (if ok then BitSet(apat) else {}) == NotifyOf(add, rcv.pktBuf)
    {
      apat := 0;
      if !rcv.CheckSize(2 + 2) {
        return false, 0;
      }
      apat := rcv.GetWordWithCrc();
      ghost var p := rcv.pktBuf;
      assert p[0..2] == p[..2];
      ok := rcv.CheckCrc();
    }
  
    /** One turn of the processing loop; done when it is left, with a response to be kept or not. */
    method SortTurn(keep: bool) returns (done: bool)
      requires Fresh() && (rcv.Raw() != [] || !Finished(rcv.State()))
      modifies rcv, this`attnNotiPatt, this`signalled
      ensures OtherKept()
      ensures Fresh()
      ensures old(Sort(add, keep, rcv.State(), rcv.Raw(), Noted())) ==
        if done then Sorted(rcv.State(), rcv.Raw(), Noted())
        else Sort(add, keep, rcv.State(), rcv.Raw(), Noted())
      ensures !done ==> !Finished(rcv.State()) && Measure(rcv.State(), rcv.Raw()) < old(Measure(rcv.State(), rcv.Raw()))
      ensures done && Finished(rcv.State()) ==> keep && PacketState(rcv.State()).Response?
      ensures done && !Finished(rcv.State()) ==> rcv.Raw() == []
    {
      ghost var s, r := rcv.State(), rcv.Raw();
      var any := rcv.ProcessData();
      if !any {
        return true;
      }
      TurnOf(add, keep, s, r, Noted());
      var state := PacketState(rcv.State());
      done := state.Pending? || (keep && state.Response?);
      if !done {
        Drop(state.Attention?);
      }
    }

    /** The processing loop of both callers: stops at the end of the read or, if it is to be
        kept, at a response; true then. */
    method SortInput(keep: bool) returns (response: bool)
      requires Fresh() && (rcv.Raw() != [] || !Finished(rcv.State()))
      modifies rcv, this`attnNotiPatt, this`signalled
      ensures OtherKept()
      ensures Fresh()
      ensures Sorted(rcv.State(), rcv.Raw(), Noted())
           == old(Sort(add, keep, rcv.State(), rcv.Raw(), Noted()))
      ensures if response then PacketState(rcv.State()).Response? && keep
              else rcv.Raw() == [] && !Finished(rcv.State())
    {
      ghost var total := Sort(add, keep, rcv.State(), rcv.Raw(), Noted());
      var done := false;
      while !done
        invariant Fresh() && OtherKept()
        invariant !done ==> rcv.Raw() != [] || !Finished(rcv.State())
        invariant total == if done then Sorted(rcv.State(), rcv.Raw(), Noted())
                           else Sort(add, keep, rcv.State(), rcv.Raw(), Noted())
        invariant done && Finished(rcv.State()) ==> keep && PacketState(rcv.State()).Response?
        invariant done && !Finished(rcv.State()) ==> rcv.Raw() == []
        decreases !done, Measure(rcv.State(), rcv.Raw())
      {
        done := SortTurn(keep);
      }
      response := Finished(rcv.State());
    }

    /** Accepts a packet, noting it first if it is a notify. */
    method Drop(notify: bool)
      requires Fresh()
      modifies rcv, this`attnNotiPatt, this`signalled
      ensures OtherKept()
      ensures Fresh() && rcv.State() == Accept(old(rcv.State())) && rcv.Raw() == old(rcv.Raw())
      ensures Noted() == old(Noted()) + if notify then NotifyOf(add, old(rcv.pktBuf)) else {}
    {
      if notify {
        ProcessAttnNotify();
      } else {
        rcv.AcceptPacket();
      }
    }
  
    /** Called when input arrives outside an exchange, which only the server thread may do; irc and
        data are what the port read gave. */
    method HandleUnsolicitedData(inside: bool, irc: int, data: seq<byte>) returns (refused: bool)
      requires AtRest() && ValidRead(PortRead(irc, data), RAW_SIZE)
      modifies rcv, rcv.rawBuf, this`attnNotiPatt, this`signalled
      ensures OtherKept() && AtRest()
      ensures refused == (!inside || !portOpen || old(rcv.Raw()) != [])
      ensures refused ==> InputKept()
      ensures !refused ==> Quiet()
      ensures !refused && irc > 0 ==>
        Sorted(rcv.State(), [], Noted()) == old(Sort(add, false, rcv.State(), data, Noted()))
      ensures !refused && irc <= 0 ==>
        && Noted() == old(Noted())
        && rcv.State() == (if irc == PORT_TOUT then old(rcv.State()) else ReadFailed(old(rcv.State()), irc, PORT_TOUT))
    {
      if !inside || !portOpen {
        return true;
      }
      var thrown, r := rcv.ReadData(irc, data, true);
      if thrown {
        return true;
      }
      refused := false;
      if r == 0 {
        return;
      }
      var response := SortInput(false);
    }

    /** One read of the wait for a response, and its packets up to the response. */
    method ReadTurn(read: PortRead) returns (thrown: bool, response: bool)
      requires AtRest() && ValidRead(read, RAW_SIZE)
      modifies rcv, rcv.rawBuf, this`attnNotiPatt, this`signalled
      ensures OtherKept() && Fresh() && thrown == (old(rcv.Raw()) != [])
      ensures thrown ==> InputKept()
      ensures !thrown && read.irc <= 0 ==>
        && Quiet() && !response && rcv.State() == ReadFailed(old(rcv.State()), read.irc, PORT_TOUT)
        && Noted() == old(Noted())
      ensures !thrown && read.irc > 0 ==>
        && Sorted(rcv.State(), rcv.Raw(), Noted()) == old(Sort(add, true, rcv.State(), read.data, Noted()))
        && if response then PacketState(rcv.State()).Response? else Quiet() && !PacketState(rcv.State()).Response?
    {
      response := false;
      var irc;
      thrown, irc := rcv.ReadData(read.irc, read.data, false);
      if !thrown && irc > 0 {
        response := SortInput(true);
      }
    }

    /** The next read of the wait, whose outcome is total; done when it is over. */
    method ReadNext(input: seq<PortRead>, k: nat, ghost total: Waited) returns (thrown: bool, done: bool, ok: bool)
      requires AtRest() && k < |input| && ValidRead(input[k], RAW_SIZE)
      requires Wait(add, rcv.State(), input[k..], PORT_TOUT, Noted()) == total
      modifies rcv, rcv.rawBuf, this`attnNotiPatt, this`signalled
      ensures OtherKept() && Fresh() && thrown == (old(rcv.Raw()) != []) && (thrown ==> done && InputKept())
      ensures !thrown && done ==> Waited(ok, rcv.State(), rcv.Raw(), Noted()) == total
      ensures !thrown && done && ok ==> PacketState(rcv.State()).Response?
      ensures !thrown && !(done && ok) ==> Quiet()
      ensures !done ==> Wait(add, rcv.State(), input[k + 1..], PORT_TOUT, Noted()) == total
    {
      WaitStep(add, rcv.State(), input, k, PORT_TOUT, Noted());
      thrown, ok := ReadTurn(input[k]);
      done := thrown || ok || input[k].irc <= 0;
    }

    /** Waits for a response; input is what the port reads give until the time is up. The first
        read is refused while bytes of the last one are unprocessed. */
    method ReadResponse(input: seq<PortRead>) returns (thrown: bool, ok: bool)
      requires AtRest() && (rcv.Raw() != [] ==> input != []) && ValidReads(input)
      modifies rcv, rcv.rawBuf, this`attnNotiPatt, this`signalled
      ensures OtherKept() && Fresh() && thrown == (old(rcv.Raw()) != [])
      ensures thrown ==> InputKept()
      ensures !thrown ==>
        && Waited(ok, rcv.State(), rcv.Raw(), Noted()) == old(Wait(add, rcv.State(), input, PORT_TOUT, Noted()))
        && if ok then PacketState(rcv.State()).Response? else Quiet()
    {
      hide Wait;
      ghost var total := Wait(add, rcv.State(), input, PORT_TOUT, Noted());
      var k := 0;
      assert input[0..] == input;
      while k < |input|
        invariant k <= |input| && AtRest() && OtherKept()
        invariant if k == 0 then InputKept() else old(rcv.Raw()) == rcv.Raw() == []
        invariant Wait(add, rcv.State(), input[k..], PORT_TOUT, Noted()) == total
      {
        var done;
        thrown, done, ok := ReadNext(input, k, total);
        if done {
          return;
        }
        k := k + 1;
      }
      assert input[k..] == [];
      WaitEnds(add, rcv.State(), PORT_TOUT, Noted());
      rcv.AcceptPacket();
      return false, false;
    }

    // ----------------------------------------------------------- waiting for a notify

    /** One turn of the loop; done when it is left, with a notify found or not. */
    method LookTurn() returns (done: bool, found: bool)
      requires AtRest() && attnNotiPatt == {}
      modifies rcv, this`attnNotiPatt, this`signalled
      ensures OtherKept() && AtRest()
      ensures old(Look(add, !serverActive, rcv.State(), rcv.Raw(), Noted())) ==
        if done then Looked(found, rcv.State(), rcv.Raw(), Noted())
        else Look(add, !serverActive, rcv.State(), rcv.Raw(), Noted())
      ensures !done ==> Measure(rcv.State(), rcv.Raw()) < old(Measure(rcv.State(), rcv.Raw()))
      ensures if found then done && !serverActive else attnNotiPatt == {} && (done ==> rcv.Raw() == [])
    {
      ghost var s, r := rcv.State(), rcv.Raw();
      var any := rcv.ProcessData();
      if !any {
        return true, false;
      }
      LookTurnOf(add, !serverActive, s, r, Noted());
      var state := PacketState(rcv.State());
      if state.Pending? {
        return true, false;
      }
      Drop(state.Attention?);
      found := state.Attention? && attnNotiPatt != {};
      done := found;
    }

    method LookInput() returns (found: bool)
      requires AtRest() && attnNotiPatt == {}
      modifies rcv, this`attnNotiPatt, this`signalled
      ensures OtherKept() && AtRest()
      ensures Looked(found, rcv.State(), rcv.Raw(), Noted())
           == old(Look(add, !serverActive, rcv.State(), rcv.Raw(), Noted()))
      ensures if found then !serverActive else attnNotiPatt == {} && rcv.Raw() == []
    {
      ghost var total := Look(add, !serverActive, rcv.State(), rcv.Raw(), Noted());
      var done;
      done, found := LookTurn();
      while !done
        invariant AtRest() && OtherKept()
        invariant total == if done then Looked(found, rcv.State(), rcv.Raw(), Noted())
                           else Look(add, !serverActive, rcv.State(), rcv.Raw(), Noted())
        invariant if found then done && !serverActive else attnNotiPatt == {} && (done ==> rcv.Raw() == [])
        decreases !done, Measure(rcv.State(), rcv.Raw())
      {
        done, found := LookTurn();
      }
    }

    /** One read of the wait for a notify, and its packets up to the one found. The return code, or
        zero to go on. */
    method NotifyTurn(read: PortRead) returns (thrown: bool, rc: int)
      requires AtRest() && attnNotiPatt == {} && ValidRead(read, RAW_SIZE)
      modifies rcv, rcv.rawBuf, this`attnNotiPatt, this`signalled
      ensures OtherKept() && AtRest() && thrown == (!portOpen || old(rcv.Raw()) != [])
      ensures thrown ==> InputKept() && attnNotiPatt == {}
      ensures !thrown ==>
        var irc := read.irc;
        var s' := old(if irc <= 0 then ReadFailed(rcv.State(), irc, PORT_TOUT) else rcv.State());
        if irc == PORT_TOUT || irc == PORT_ERR then
          && rc == (if irc == PORT_TOUT then -1 else -2) && rcv.State() == s' && Noted() == old(Noted())
        else
          && 0 <= rc <= 1
          && Looked(rc == 1, rcv.State(), rcv.Raw(), Noted()) == Look(add, !serverActive, s', read.data, old(Noted()))
      ensures !thrown ==> if rc == 1 then !serverActive else attnNotiPatt == {} && Quiet()
    {
      thrown, rc := !portOpen, 0;
      if thrown {
        return;
      }
      var irc;
      thrown, irc := rcv.ReadData(read.irc, read.data, false);
      if thrown {
        return;
      }
      if irc == PORT_TOUT {
        return false, -1;
      }
      if irc == PORT_ERR {
        return false, -2;
      }
      var found := LookInput();
      rc := if found then 1 else 0;
    }

    /** The next read of the wait, whose outcome is total; the return code, or zero to go on. */
    method NotifyNext(input: seq<PortRead>, k: nat, ghost total: NotifyWait) returns (thrown: bool, rc: int)
      requires AtRest() && attnNotiPatt == {} && k < |input| && ValidRead(input[k], RAW_SIZE)
      requires WaitNotify(add, !serverActive, rcv.State(), input[k..], PORT_TOUT, Noted()) == total
      modifies rcv, rcv.rawBuf, this`attnNotiPatt, this`signalled
      ensures OtherKept() && AtRest() && thrown == (!portOpen || old(rcv.Raw()) != [])
      ensures thrown ==> InputKept() && attnNotiPatt == {}
      ensures !thrown && rc != 0 ==> NotifyWait(rc, rcv.State(), rcv.Raw(), Noted()) == total
      ensures !thrown ==> if rc == 1 then !serverActive else attnNotiPatt == {} && Quiet()
      ensures !thrown && rc == 0 ==>
        WaitNotify(add, !serverActive, rcv.State(), input[k + 1..], PORT_TOUT, Noted()) == total
    {
      WaitNotifyStep(add, !serverActive, rcv.State(), input, k, PORT_TOUT, Noted());
      thrown, rc := NotifyTurn(input[k]);
    }

    /** Waits for a notify; input is what the port reads give until the time is up, with at least
        one read. */
    method WaitForNotify(input: seq<PortRead>) returns (thrown: bool, rc: int)
      requires AtRest() && attnNotiPatt == {} && input != [] && ValidReads(input)
      modifies rcv, rcv.rawBuf, this`attnNotiPatt, this`signalled
      ensures OtherKept() && AtRest() && thrown == (!portOpen || old(rcv.Raw()) != [])
      ensures thrown ==> InputKept() && attnNotiPatt == {}
      ensures !thrown ==>
        && NotifyWait(rc, rcv.State(), rcv.Raw(), Noted())
             == old(WaitNotify(add, !serverActive, rcv.State(), input, PORT_TOUT, Noted()))
        && if rc == 1 then !serverActive else attnNotiPatt == {} && Quiet()
    {
      hide WaitNotify;
      ghost var total := WaitNotify(add, !serverActive, rcv.State(), input, PORT_TOUT, Noted());
      var k := 0;
      assert input[0..] == input;
      while k < |input|
        invariant k <= |input| && AtRest() && OtherKept() && attnNotiPatt == {}
        invariant if k == 0 then InputKept() else portOpen && old(rcv.Raw()) == rcv.Raw() == []
        invariant WaitNotify(add, !serverActive, rcv.State(), input[k..], PORT_TOUT, Noted()) == total
      {
        thrown, rc := NotifyNext(input, k, total);
        if thrown || rc != 0 {
          return;
        }
        k := k + 1;
      }
      assert input[k..] == [];
      WaitNotifyEnds(add, !serverActive, rcv.State(), PORT_TOUT, Noted());
      return false, -1;
    }

    /** Gives the bits noted before, or waits for a notify with bits, and takes them. A caller other
        than the server thread of an active server is not allowed; the first read is refused
        while bytes of the last one are unprocessed, as they are after a notify that did not end
        its read. */
    method WaitAttn(outside: bool, wait: bool, input: seq<PortRead>) returns (res: Attended)
      requires AtRest() && (wait ==> input != [])
      requires ValidReads(input)
      modifies rcv, rcv.rawBuf, this`attnNotiPatt, this`signalled
      ensures AtRest()
      ensures
        if outside && serverActive then res == NotAllowed && InputKept() && attnNotiPatt == old(attnNotiPatt)
        else if old(attnNotiPatt) != {} || !wait then
          && res == Pattern(0, old(attnNotiPatt)) && attnNotiPatt == {} && signalled == old(signalled)
          && rcv.State() == old(rcv.State()) && rcv.Raw() == old(rcv.Raw())
        else if !portOpen || old(rcv.Raw()) != [] then res == NotReady && InputKept() && attnNotiPatt == {}
        else
          var w := old(WaitNotify(add, !serverActive, rcv.State(), input, PORT_TOUT, Noted()));
          && res == Pattern(w.rc, if w.rc == 1 then w.noti else {}) && attnNotiPatt == {}
          && signalled == (if serverActive then w.noti else old(signalled))
          && rcv.State() == w.s && rcv.Raw() == w.rest && (w.rc != 1 ==> Quiet())
    {
      if outside && serverActive {
        return NotAllowed;
      }
      if attnNotiPatt != {} {
        res := Pattern(0, attnNotiPatt);
        attnNotiPatt := {};
        return;
      }
      if !wait {
        return Pattern(0, {});
      }
      var thrown, rc := WaitForNotify(input);
      if thrown {
        return NotReady;
      }
      res := Pattern(rc, if rc == 1 then attnNotiPatt else {});
      attnNotiPatt := {};
    }

    // ----------------------------------------------------------- exchange

    /** Accepts the response and drains the rest of the read. */
    method AcceptResponse()
      requires Valid()
      modifies rcv, this`attnNotiPatt, this`signalled
      ensures OtherKept()
      ensures Quiet()
      ensures Sorted(rcv.State(), [], Noted())
           == old(Sort(add, false, Accept(rcv.State()), rcv.Raw(), Noted()))
    {
      rcv.AcceptPacket();
      var response := SortInput(false);
    }

    /** Checks the list and resets it before it is sent; false if a command is refused, those
        before it being reset. */
    method ClearList(outside: bool) returns (ok: bool)
      modifies this`cmds, this`laboIndex
      ensures laboIndex == -1 && ok == Admitted(old(cmds), outside && serverActive)
      ensures cmds == ClearedTo(old(cmds), FirstRefused(old(cmds), outside && serverActive, 0))
    {
      laboIndex := -1;
      ghost var noAttn := outside && serverActive;
      ghost var n := FirstRefused(cmds, noAttn, 0);
      var k := 0;
      while k < |cmds|
        invariant k <= n <= |cmds| == |old(cmds)| && laboIndex == -1
        invariant FirstRefused(old(cmds), noAttn, k) == n
        invariant cmds == ClearedTo(old(cmds), k)
      {
        if Refusable(cmds[k], outside && serverActive) {
          return false;
        }
        cmds := cmds[k := Cleared(cmds[k])];
        k := k + 1;
      }
      RefusedFirst(old(cmds), noAttn, 0);
      return true;
    }

    /** The outcome of an exchange of the list sent: the port takes the whole request or not; the
        wait, of which a failure is not acted upon; decoding whatever was collected; and, when
        all of the list was decoded, the rest of the read. */
    twostate predicate Exchanged(sent: seq<Command>, written: int, input: seq<PortRead>, res: Executed)
      requires old(rcv.Valid())
      reads this, rcv, rcv.rawBuf, snd
    {
      var w := old(Wait(add, rcv.State(), input, PORT_TOUT, Noted()));
      var r := DecodeFrom(PacketDecoder(add, w.s.pkt, w.s.nakIndex), sent, 0, -1, 0, 0);
      if written != |snd.rawBuf| then res == SendFailed && cmds == sent && AtRest() && InputKept()
      else if old(rcv.Raw()) != [] then res == Thrown && cmds == sent && AtRest() && InputKept()
      else
        && cmds == r.cmds && laboIndex == r.labo
        && res == (if r.ok then Completed else Incomplete)
        && (r.ok ==> Quiet() && Sorted(rcv.State(), [], Noted())
                     == Sort(add, false, Accept(w.s), w.rest, w.noti))
    }

    /** Sends the encoded request, waits and decodes. As in the source a failed wait is not
        acted upon: decoding is tried on whatever was collected. */
    method Exchange(written: int, input: seq<PortRead>) returns (res: Executed)
      requires AtRest() && (rcv.Raw() != [] ==> input != []) && Sized(cmds) && laboIndex == -1
      requires forall k :: 0 <= k < |cmds| ==> KnownCode(cmds[k])
      requires ValidReads(input)
      modifies this`cmds, this`laboIndex, this`attnNotiPatt, this`signalled, snd, rcv, rcv.rawBuf
      ensures OtherKept()
      ensures Valid() && snd.rawBuf == Frame(old(snd.xonEscape), old(snd.pktBuf))
      ensures Exchanged(old(cmds), written, input, res)
    {
      hide Wait, Sort, DecodeFrom;
      var sent := snd.SndPacket(written);
      if !sent {
        return SendFailed;
      }
      ghost var w := Wait(add, rcv.State(), input, PORT_TOUT, Noted());
      var thrown, ok := ReadResponse(input);
      if thrown {
        return Thrown;
      }
      assert w.s.pkt == rcv.pktBuf && w.s.nakIndex == rcv.nakIndex;
      var ncmd := DecodeResponse();
      if ncmd != |cmds| {
        return Incomplete;
      }
      assert rcv.State() == w.s && rcv.Raw() == w.rest && Noted() == w.noti;
      AcceptResponse();
      return Completed;
    }

    /** Encodes and exchanges a list that was reset. */
    method ExecPart(written: int, input: seq<PortRead>) returns (res: Executed)
      requires AtRest() && (rcv.Raw() != [] ==> input != [])
      requires cmds != [] && laboIndex == -1 && forall k :: 0 <= k < |cmds| ==> KnownCode(cmds[k])
      requires ValidReads(input)
      modifies this`cmds, this`laboIndex, this`seqNumber, this`attnNotiPatt, this`signalled, snd, rcv, rcv.rawBuf
      ensures OtherKept()
      ensures Valid() && snd.rawBuf == Frame(old(snd.xonEscape), RequestBytes(add, old(cmds), old(seqNumber)))
      ensures seqNumber == Number(old(cmds), old(seqNumber), 0).seqs
      ensures Exchanged(SentList(old(cmds), old(seqNumber)), written, input, res)
    {
      hide Wait, Sort, DecodeFrom, SentList;
      SentListShape(cmds, seqNumber);
      EncodeRequest();
      res := Exchange(written, input);
    }

    /** One exchange. written is what the port reports for the request, input what it reads
        afterwards; outside tells that the caller is not the server thread. */
    method Exec(outside: bool, written: int, input: seq<PortRead>) returns (res: Executed)
      requires AtRest() && (rcv.Raw() != [] ==> input != []) && ValidReads(input)
      modifies this`cmds, this`laboIndex, this`seqNumber, this`attnNotiPatt, this`signalled, snd, rcv, rcv.rawBuf
      ensures OtherKept()
      ensures Valid()
      ensures res == Refused <==>
        || old(cmds) == [] || !portOpen
        || exists k :: 0 <= k < |old(cmds)| && (!old(cmds)[k].flags.init || old(cmds)[k].request % 8 == 7
                                               || (outside && serverActive && old(cmds)[k].request % 8 == CMD_ATTN))
      ensures res == Refused ==>
        && AtRest() && seqNumber == old(seqNumber) && InputKept()
        && cmds == if portOpen then ClearedTo(old(cmds), FirstRefused(old(cmds), outside
          && serverActive, 0)) else old(cmds)
      ensures res != Refused ==>
        && snd.rawBuf == Frame(old(snd.xonEscape), RequestBytes(add, ClearedAll(old(cmds)), old(seqNumber)))
        && seqNumber == Number(ClearedAll(old(cmds)), old(seqNumber), 0).seqs
        && Exchanged(SentList(ClearedAll(old(cmds)), old(seqNumber)), written, input, res)
    {
      hide Wait, Sort, DecodeFrom, SentList, FirstRefused;
      if cmds == [] || !portOpen {
        assert ClearedTo(cmds, 0) == cmds;
        return Refused;
      }
      ghost var noAttn := outside && serverActive;
      var ok := ClearList(outside);
      if !ok {
        return Refused;
      }
      AdmittedShape(old(cmds), noAttn);
      res := ExecPart(written, input);
    }

    /** What the start of the server does here: an exchange, and only after it the server is active.
        So the notifies that arrive with the response are noted in the connection, and the
        server is not told. */
    method StartOrResume(resume: bool, written: int, input: seq<PortRead>) returns (started: bool)
      requires AtRest() && (rcv.Raw() != [] ==> input != []) && ValidReads(input)
      modifies this`cmds, this`laboIndex, this`seqNumber, this`attnNotiPatt, this`signalled, this`serverActive
      modifies snd, rcv, rcv.rawBuf
      ensures Valid() && signalled == old(signalled) && serverActive == (old(serverActive) || started)
      ensures old(serverActive) || !portOpen ==> !started && InputKept() && cmds == old(cmds)
      ensures !old(serverActive) && portOpen ==>
        var sent := SentList(StartList(resume), old(seqNumber));
        var w := old(Wait(add, rcv.State(), input, PORT_TOUT, attnNotiPatt));
        var r := DecodeFrom(PacketDecoder(add, w.s.pkt, w.s.nakIndex), sent, 0, -1, 0, 0);
        && snd.rawBuf == Frame(old(snd.xonEscape), RequestBytes(add, StartList(resume), old(seqNumber)))
        && started == (written == |snd.rawBuf| && old(rcv.Raw()) == [] && r.ok)
        && (started ==> Quiet() && cmds == r.cmds && Sorted(rcv.State(), [], attnNotiPatt)
                        == Sort(add, false, Accept(w.s), w.rest, w.noti))
    {
      hide Wait, Sort, DecodeFrom, SentList, FirstRefused;
      if serverActive || !portOpen {
        return false;
      }
      StartListAdmitted(resume);
      cmds := StartList(resume);
      var res := Exec(true, written, input);
      if res != Completed {
        return false;
      }
      serverActive := true;
      return true;
    }
  }

  lemma {:induction false} NoBits()
    ensures BitSet(0) == {}
  {
    BitsOfZero(16);
  }
}
