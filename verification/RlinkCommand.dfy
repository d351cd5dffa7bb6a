/** Commands, the layout of requests and responses, and decoding as functions. */
module RlinkCommand {
  import opened Words
  import opened Checksum

  const CMD_RREG := 0
  const CMD_RBLK := 1
  const CMD_WREG := 2
  const CMD_WBLK := 3
  const CMD_LABO := 4
  const CMD_ATTN := 5
  const CMD_INIT := 6

  /** Block sizes are limited when a command is set up. */
  type block = b: seq<word> | |b| < 0x1_0000

  datatype Flags = Flags(init: bool, send: bool, done: bool, labo: bool, pktBeg: bool, pktEnd: bool,
                         errNak: bool, errDec: bool)

  /** The low three bits of the request are the command code, the others the sequence number. */
  datatype Command = Command(request: byte, address: word, data: word, blk: block,
                             blockDone: word, status: byte, flags: Flags, rcvSize: nat)

  function Code(cmd: Command): nat {
    cmd.request % 8
  }

  /** What SetCommand admits. */
  predicate KnownCode(cmd: Command) {
    Code(cmd) <= CMD_INIT
  }

  /** What Exec resets before a list is sent. */
  function Cleared(cmd: Command): Command {
    cmd.(flags := cmd.flags.(send := false, done := false, labo := false, pktBeg := false, pktEnd := false,
                             errNak := false, errDec := false))
  }

  function ClearedAll(cmds: seq<Command>): (r: seq<Command>)
    ensures |r| == |cmds|
  {
    seq(|cmds|, k requires 0 <= k < |cmds| => Cleared(cmds[k]))
  }

  // ------------------------------------------------------------- request

  /** The sequence number is stored shifted by three in a byte. */
  function WithSeqNumber(request: byte, snum: byte): byte {
    8 * (snum % 32) + request % 8
  }

  lemma {:induction false} SeqNumberKeepsCode(request: byte, snum: byte)
    ensures WithSeqNumber(request, snum) % 8 == request % 8
    ensures WithSeqNumber(request, snum) / 8 == snum % 32
  {
  }

  lemma {:induction false} Modulo32(x: int, q: int, r: int)
    requires x == 32 * q + r && 0 <= r < 32
    ensures x % 32 == r
  {
  }

  lemma {:induction false} ByteOfSum(x: nat)
    ensures (x % 256) % 32 == x % 32
  {
    var hi, lo := x / 256, x % 256;
    Modulo32(x, 8 * hi + lo / 32, lo % 32);
  }

  lemma {:induction false} SameModulo(x: nat, n: nat)
    ensures (x + n) % 32 == x % 32 <==> n % 32 == 0
  {
    var a, b, r, s := x / 32, n / 32, x % 32, n % 32;
    if r + s < 32 {
      Modulo32(x + n, a + b, r + s);
    } else {
      Modulo32(x + n, a + b + 1, r + s - 32);
    }
  }

  lemma {:induction false} SameRequest(request: byte, a: byte, b: byte)
    ensures WithSeqNumber(request, a) == WithSeqNumber(request, b) <==> a % 32 == b % 32
  {
  }

  /** Two uses of a command code can be told apart unless a multiple of 32 lies between them. */
  lemma {:induction false} SeqNumberRepeats(request: byte, snum: nat, uses: nat)
    ensures WithSeqNumber(request, (snum + uses) % 256) == WithSeqNumber(request, snum % 256)
       <==> uses % 32 == 0
  {
    ByteOfSum(snum + uses);
    ByteOfSum(snum);
    SameRequest(request, (snum + uses) % 256, snum % 256);
    SameModulo(snum, uses);
  }

  /** The size of the response to a command, fixed when the request is encoded. */
  function ResponseSize(code: nat, blocksize: nat): nat {
    if code == CMD_RREG || code == CMD_ATTN then 1 + 2 + 1 + 2
    else if code == CMD_RBLK then 1 + 2 + 2 * blocksize + 2 + 1 + 2
    else if code == CMD_WBLK then 1 + 2 + 1 + 2
    else if code == CMD_LABO then 1 + 1 + 1 + 2
    else 1 + 1 + 2
  }

  predicate SizeSet(cmd: Command) {
    cmd.rcvSize == ResponseSize(Code(cmd), |cmd.blk|)
  }

  /** The command as it stands after its request was encoded. */
  function Sent(cmd: Command, snum: byte): Command {
    cmd.(request := WithSeqNumber(cmd.request, snum),
         rcvSize := ResponseSize(Code(cmd), |cmd.blk|),
         flags := cmd.flags.(pktBeg := false, pktEnd := false, send := true))
  }

  /** A request in its parts: what precedes the first checksum, and for wblk the data
      that precedes a second one. */
  function RequestHead(cmd: Command): seq<byte> {
    var code := Code(cmd);
    [cmd.request]
    + (if code == CMD_LABO || code == CMD_ATTN then [] else WordBytesOf(cmd.address))
    + (if code == CMD_RBLK || code == CMD_WBLK then WordBytesOf(|cmd.blk|)
       else if code == CMD_WREG || code == CMD_INIT then WordBytesOf(cmd.data)
       else [])
  }

  /** Bytes and the checksum after them. */
  datatype Coded = Coded(bytes: seq<byte>, crc: word)

  /** part followed by the running checksum, which is not itself summed. */
  function WithCrc(add: Adder, crc: word, part: seq<byte>): Coded {
    var c := Sum(add, crc, part);
    Coded(part + WordBytesOf(c), c)
  }

  function Request(add: Adder, crc: word, cmd: Command): Coded {
    var head := WithCrc(add, crc, RequestHead(cmd));
    if Code(cmd) != CMD_WBLK then head
    else
      var data := WithCrc(add, head.crc, WordsBytes(cmd.blk));
      Coded(head.bytes + data.bytes, data.crc)
  }

  /** The bytes of a request in front of its first checksum, by command code. */
  lemma {:induction false} RequestLayout(cmd: Command)
    ensures var code, a := cmd.request % 8, cmd.address;
            var lo, hi, n := a % 256, a / 256, |cmd.blk|;
            RequestHead(cmd) ==
              if code == 4 || code == 5 then [cmd.request]
              else if code == 1 || code == 3 then [cmd.request, lo, hi, n % 256, n / 256]
              else if code == 2 || code == 6 then [cmd.request, lo, hi, cmd.data % 256, cmd.data / 256]
              else [cmd.request, lo, hi]
  {
  }

  /** Encodes a request, the checksum running. */
  type RequestEncoder = (Command, word) -> Coded

  function RequestCoder(add: Adder): RequestEncoder {
    (cmd: Command, crc: word) => Request(add, crc, cmd)
  }

  /** The requests of the commands from k on. */
  function Requests(enc: RequestEncoder, cmds: seq<Command>, k: nat, crc: word): seq<byte>
    requires k <= |cmds|
    decreases |cmds| - k
  {
    if k == |cmds| then []
    else
      var first := enc(cmds[k], crc);
      first.bytes + Requests(enc, cmds, k + 1, first.crc)
  }

  datatype Numbered = Numbered(cmds: seq<Command>, seqs: seq<byte>)

  function NumberOne(cmds: seq<Command>, seqs: seq<byte>, k: nat): (n: Numbered)
    requires k < |cmds| && |seqs| == 8
    ensures |n.cmds| == |cmds| && |n.seqs| == 8
  {
    var code := Code(cmds[k]);
    Numbered(cmds[k := Sent(cmds[k], seqs[code])], seqs[code := (seqs[code] as int + 1) % 256])
  }

  /** Numbers the commands from k on, one counter per command code. */
  function Number(cmds: seq<Command>, seqs: seq<byte>, k: nat): (n: Numbered)
    requires k <= |cmds| && |seqs| == 8
    ensures |n.cmds| == |cmds| && |n.seqs| == 8
    decreases |cmds| - k
  {
    if k == |cmds| then Numbered(cmds, seqs)
    else
      var n := NumberOne(cmds, seqs, k);
      Number(n.cmds, n.seqs, k + 1)
  }

  /** Commands before k are left alone. */
  lemma {:induction false} NumberKeeps(cmds: seq<Command>, seqs: seq<byte>, k: nat, j: nat)
    requires j < k <= |cmds| && |seqs| == 8
    ensures Number(cmds, seqs, k).cmds[j] == cmds[j]
    decreases |cmds| - k
  {
    if k < |cmds| {
      var n := NumberOne(cmds, seqs, k);
      NumberKeeps(n.cmds, n.seqs, k + 1, j);
    }
  }

  /** How many of the commands k..j have the code of command j. */
  function SameCode(cmds: seq<Command>, k: nat, j: nat): nat
    requires k <= j < |cmds|
    decreases j - k
  {
    if k == j then 0 else SameCode(cmds, k + 1, j) + if Code(cmds[k]) == Code(cmds[j]) then 1 else 0
  }

  lemma {:induction false} SameCodeFrame(cmds: seq<Command>, cmds': seq<Command>, k: nat, j: nat)
    requires k <= j < |cmds| == |cmds'| && forall i :: k <= i <= j ==> cmds'[i] == cmds[i]
    ensures SameCode(cmds, k, j) == SameCode(cmds', k, j)
    decreases j - k
  {
    if k < j {
      SameCodeFrame(cmds, cmds', k + 1, j);
    }
  }

  /** Command j gets the counter of its code, advanced by the earlier commands of that code. */
  lemma {:induction false} NumberAt(cmds: seq<Command>, seqs: seq<byte>, k: nat, j: nat)
    requires k <= j < |cmds| && |seqs| == 8
    ensures Number(cmds, seqs, k).cmds[j]
         == Sent(cmds[j], (seqs[Code(cmds[j])] as int + SameCode(cmds, k, j)) % 256)
    decreases |cmds| - k
  {
    hide Sent;
    var n := NumberOne(cmds, seqs, k);
    if k == j {
      NumberKeeps(n.cmds, n.seqs, k + 1, k);
      assert SameCode(cmds, k, j) == 0;
    } else {
      NumberAt(n.cmds, n.seqs, k + 1, j);
      SameCodeFrame(cmds, n.cmds, k + 1, j);
      CounterStep(cmds, seqs, k, j);
    }
  }

  /** How many of the commands from k on have a code. */
  function CountOf(cmds: seq<Command>, code: nat, k: nat): nat
    requires k <= |cmds|
    decreases |cmds| - k
  {
    if k == |cmds| then 0 else CountOf(cmds, code, k + 1) + if cmds[k].request % 8 == code then 1 else 0
  }

  lemma {:induction false} CountFrame(cmds: seq<Command>, cmds': seq<Command>, code: nat, k: nat)
    requires k <= |cmds| == |cmds'| && forall i :: k <= i < |cmds| ==> cmds'[i] == cmds[i]
    ensures CountOf(cmds, code, k) == CountOf(cmds', code, k)
    decreases |cmds| - k
  {
    if k < |cmds| {
      CountFrame(cmds, cmds', code, k + 1);
    }
  }

  /** Afterwards each counter is advanced by the number of commands of its code. */
  lemma {:induction false} CountersAdvance(cmds: seq<Command>, seqs: seq<byte>, k: nat, code: nat)
    requires k <= |cmds| && |seqs| == 8 && code < 8
    ensures Number(cmds, seqs, k).seqs[code] == (seqs[code] as int + CountOf(cmds, code, k)) % 256
    decreases |cmds| - k
  {
    if k < |cmds| {
      var n := NumberOne(cmds, seqs, k);
      CountersAdvance(n.cmds, n.seqs, k + 1, code);
      CountFrame(cmds, n.cmds, code, k + 1);
      Advance(seqs[code], CountOf(cmds, code, k + 1));
    }
  }

  /** Numbering command k advances the counter of j when their codes agree. */
  lemma {:induction false} CounterStep(cmds: seq<Command>, seqs: seq<byte>, k: nat, j: nat)
    requires k < j < |cmds| && |seqs| == 8
    ensures var code := Code(cmds[j]);
            (NumberOne(cmds, seqs, k).seqs[code] as int + SameCode(cmds, k + 1, j)) % 256
              == (seqs[code] as int + SameCode(cmds, k, j)) % 256
  {
    Advance(seqs[Code(cmds[j])], SameCode(cmds, k + 1, j));
  }

  lemma {:induction false} Advance(a: int, n: int)
    ensures ((a + 1) % 256 + n) % 256 == (a + (n + 1)) % 256
  {
  }

  /** Every numbered command has its response size set and keeps its code. */
  lemma {:induction false} NumberedShape(cmds: seq<Command>, seqs: seq<byte>, j: nat)
    requires j < |cmds| && |seqs| == 8 && KnownCode(cmds[j])
    ensures SizeSet(Number(cmds, seqs, 0).cmds[j]) && KnownCode(Number(cmds, seqs, 0).cmds[j])
  {
    NumberAt(cmds, seqs, 0, j);
    SeqNumberKeepsCode(cmds[j].request, (seqs[Code(cmds[j])] as int + SameCode(cmds, 0, j)) % 256);
  }

  /** The first and the last command of a packet are marked. */
  function MarkEnds(cmds: seq<Command>): (r: seq<Command>)
    requires cmds != []
    ensures |r| == |cmds|
  {
    var last := |cmds| - 1;
    var r := cmds[0 := cmds[0].(flags := cmds[0].flags.(pktBeg := true))];
    r[last := r[last].(flags := r[last].flags.(pktEnd := true))]
  }

  // ------------------------------------------------------------- response

  /** What the device answers to a command. */
  datatype Answer = Answer(data: word, blk: block, done: word, status: byte)

  /** An answer fits a command: as many block words as asked for, one byte for a labo. */
  predicate Fits(cmd: Command, a: Answer) {
    (Code(cmd) == CMD_RBLK ==> |a.blk| == |cmd.blk|) && (Code(cmd) == CMD_LABO ==> a.data < 0x100)
  }

  function AnswerData(code: nat, a: Answer): seq<byte> {
    if code == CMD_RREG || code == CMD_ATTN then WordBytesOf(a.data)
    else if code == CMD_RBLK then WordBytesOf(|a.blk|) + WordsBytes(a.blk) + WordBytesOf(a.done)
    else if code == CMD_WBLK then WordBytesOf(a.done)
    else if code == CMD_LABO then [a.data % 256]
    else []
  }

  function AnswerBytes(cmd: Command, a: Answer): (b: seq<byte>)
    ensures Fits(cmd, a) ==> |b| + 2 == ResponseSize(Code(cmd), |cmd.blk|)
  {
    [cmd.request] + AnswerData(Code(cmd), a) + [a.status]
  }

  /** The bytes of a response in front of its checksum, by command code; a block stands, low bytes first,
      between its length and the done count. */
  lemma {:induction false} ResponseLayout(cmd: Command, a: Answer)
    ensures var code, b, n := cmd.request % 8, AnswerBytes(cmd, a), |a.blk|;
            if code == 0 || code == 5 then b == [cmd.request, a.data % 256, a.data / 256, a.status]
            else if code == 1 then
              && |b| == 2 * n + 6 && b[..3] == [cmd.request, n % 256, n / 256] && b[3..3 + 2 * n] == WordsBytes(a.blk)
              && b[3 + 2 * n..] == [a.done % 256, a.done / 256, a.status]
            else if code == 3 then b == [cmd.request, a.done % 256, a.done / 256, a.status]
            else if code == 4 then b == [cmd.request, a.data % 256, a.status]
            else b == [cmd.request, a.status]
  {
    if Code(cmd) == CMD_RBLK {
      hide WordsBytes;
      var n := |a.blk|;
      Parts([cmd.request] + WordBytesOf(n), WordsBytes(a.blk), WordBytesOf(a.done) + [a.status], AnswerBytes(cmd, a));
    }
  }

  lemma {:induction false} Parts(a: seq<byte>, b: seq<byte>, c: seq<byte>, abc: seq<byte>)
    requires abc == a + b + c
    ensures |abc| == |a| + |b| + |c|
    ensures abc[..|a|] == a && abc[|a|..|a| + |b|] == b && abc[|a| + |b|..] == c
  {
  }

  /** Does this answer abort the rest of the list. */
  predicate Aborts(cmd: Command, a: Answer) {
    Code(cmd) == CMD_LABO && a.data != 0
  }

  /** Encodes an answer, the checksum running. */
  type Encoder = (Command, Answer, word) -> Coded

  /** Answer bytes and checksum. */
  function AnswerEncoder(add: Adder): Encoder {
    (cmd: Command, a: Answer, crc: word) => WithCrc(add, crc, AnswerBytes(cmd, a))
  }

  /** The device's payload for the commands from k on: nothing follows an active labo. */
  function Responses(enc: Encoder, cmds: seq<Command>, answers: seq<Answer>, k: nat, crc: word): seq<byte>
    requires |answers| == |cmds| >= k
    decreases |cmds| - k
  {
    if k == |cmds| then []
    else
      var first := enc(cmds[k], answers[k], crc);
      if Aborts(cmds[k], answers[k]) then first.bytes
      else first.bytes + Responses(enc, cmds, answers, k + 1, first.crc)
  }

  /** The command with the answer entered. */
  function Answered(cmd: Command, a: Answer): Command {
    var code := Code(cmd);
    var c := cmd.(status := a.status);
    if code == CMD_RREG || code == CMD_ATTN || code == CMD_LABO then c.(data := a.data)
    else if code == CMD_RBLK then c.(blk := a.blk, blockDone := a.done)
    else if code == CMD_WBLK then c.(blockDone := a.done)
    else c
  }

  /** What an answered command holds: the data of rreg, attn and labo, the block and the done count of
      rblk, the done count of wblk, and every status; all else but the flags is as it was. */
  predicate Entered(c: Command, cmd: Command, a: Answer) {
    var code := cmd.request % 8;
    && c.request == cmd.request && c.address == cmd.address && c.rcvSize == cmd.rcvSize && c.status == a.status
    && c.data == (if code in {CMD_RREG, CMD_ATTN, CMD_LABO} then a.data else cmd.data)
    && c.blk == (if code == CMD_RBLK then a.blk else cmd.blk)
    && c.blockDone == (if code in {CMD_RBLK, CMD_WBLK} then a.done else cmd.blockDone)
  }

  /** Answered and marked as done. */
  predicate DoneWith(c: Command, cmd: Command, a: Answer) {
    Entered(c, cmd, a) && c.flags == cmd.flags.(done := true)
  }

  /** Marked as skipped behind an active labo, and otherwise as it was. */
  predicate SkippedAs(c: Command, cmd: Command) {
    c == cmd.(flags := cmd.flags.(done := true, labo := true))
  }

  /** Marked as failed, without or with what was received entered. */
  predicate FailedAs(c: Command, cmd: Command, a: Answer, received: bool) {
    && c.flags == cmd.flags.(errDec := true)
    && if received then Entered(c, cmd, a) else c == cmd.(flags := c.flags)
  }

  // ------------------------------------------------------------- decoding one response

  datatype Outcome = Fine | Nak | Missing | Mismatch | Length | BadCrc

  /** An outcome, the command after it, and, if it is Fine, position and checksum. */
  datatype Decoded = Decoded(outcome: Outcome, cmd: Command, at: nat, crc: word)

  /** The answer read from p at i; size bytes are there. */
  function AnswerAt(cmd: Command, p: seq<byte>, i: nat): Answer
    requires i + ResponseSize(Code(cmd), |cmd.blk|) <= |p|
  {
    var code, n := Code(cmd), |cmd.blk|;
    var status := p[i + ResponseSize(code, n) - 3];
    if code == CMD_RREG || code == CMD_ATTN then Answer(WordAt(p, i + 1), [], 0, status)
    else if code == CMD_RBLK then Answer(0, WordsAt(p, i + 3, n), WordAt(p, i + 3 + 2 * n), status)
    else if code == CMD_WBLK then Answer(0, [], WordAt(p, i + 1), status)
    else if code == CMD_LABO then Answer(p[i + 1], [], 0, status)
    else Answer(0, [], 0, status)
  }

  function NakSeen(cmd: Command): Command {
    cmd.(flags := cmd.flags.(errNak := true))
  }

  function DecodeFailed(cmd: Command): Command {
    cmd.(flags := cmd.flags.(errDec := true))
  }

  function DecodeDone(cmd: Command): Command {
    cmd.(flags := cmd.flags.(done := true))
  }

  /** Decodes the response at position i of payload p, all of which is there. */
  function DecodeBody(add: Adder, p: seq<byte>, cmd: Command, i: nat, crc: word): Decoded
    requires SizeSet(cmd) && i + cmd.rcvSize <= |p|
  {
    if p[i] != cmd.request then Decoded(Mismatch, DecodeFailed(cmd), i, crc)
    else if Code(cmd) == CMD_RBLK && WordAt(p, i + 1) != |cmd.blk|
    then Decoded(Length, DecodeFailed(cmd), i, crc)
    else
      var end := i + cmd.rcvSize - 2;
      var c := Answered(cmd, AnswerAt(cmd, p, i));
      var crc' := Sum(add, crc, p[i..end]);
      if p[end..end + 2] != WordBytesOf(crc') then Decoded(BadCrc, DecodeFailed(c), i, crc)
      else Decoded(Fine, DecodeDone(c), i + cmd.rcvSize, crc')
  }

  /** Decodes the response at position i of payload p, nak being the NAK index. */
  function Decode(add: Adder, p: seq<byte>, nak: int, cmd: Command, i: nat, crc: word): Decoded
    requires i <= |p| && SizeSet(cmd)
  {
    if nak >= 0 && i == nak then Decoded(Nak, NakSeen(cmd), i, crc)
    else if |p| - i < cmd.rcvSize then Decoded(Missing, DecodeFailed(cmd), i, crc)
    else DecodeBody(add, p, cmd, i, crc)
  }
}
