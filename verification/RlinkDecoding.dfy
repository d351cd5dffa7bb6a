/** Decoding a response packet against a whole command list: what it does on every payload,
    and that it recovers what the device answered. */
module RlinkDecoding {
  import opened Words
  import opened Checksum
  import opened RlinkCommand

  /** The list after decoding; ok tells whether all commands were handled, at and crc how far
      the payload was read and the running checksum there. */
  datatype ListResult = ListResult(cmds: seq<Command>, labo: int, ok: bool, at: nat, crc: word)

  /** Response sizes are those set when the request was encoded. */
  ghost predicate Sized(cmds: seq<Command>) {
    forall k :: 0 <= k < |cmds| ==> SizeSet(cmds[k])
  }

  function Skipped(cmd: Command): Command {
    cmd.(flags := cmd.flags.(done := true, labo := true))
  }

  function LaboAfter(cmd: Command, k: nat): int {
    if Code(cmd) == CMD_LABO && cmd.data != 0 then k else -1
  }

  /** Decodes the response to a command at a position, the checksum running. */
  type Decoder = (Command, nat, word) -> Decoded

  /** The decoder for payload p with NAK index nak. */
  function PacketDecoder(add: Adder, p: seq<byte>, nak: int): Decoder {
    (cmd: Command, i: nat, crc: word) =>
      if i <= |p| && SizeSet(cmd) then Decode(add, p, nak, cmd, i, crc) else Decoded(Missing, cmd, i, crc)
  }

  function DecodeFrom(dec: Decoder, cmds: seq<Command>, k: nat, labo: int, at: nat, crc: word): (r: ListResult)
    requires k <= |cmds|
    ensures |r.cmds| == |cmds|
    decreases |cmds| - k
  {
    if k == |cmds| then ListResult(cmds, labo, true, at, crc)
    else if labo >= 0 then DecodeFrom(dec, cmds[k := Skipped(cmds[k])], k + 1, labo, at, crc)
    else
      var d := dec(cmds[k], at, crc);
      var cmds' := cmds[k := d.cmd];
      if d.outcome.Fine? then DecodeFrom(dec, cmds', k + 1, LaboAfter(d.cmd, k), d.at, d.crc)
      else ListResult(cmds', labo, false, at, crc)
  }

  /** DecodeFrom, at the end of the list. */
  lemma {:induction false} DecodeEnds(dec: Decoder, cmds: seq<Command>, labo: int, at: nat, crc: word)
    ensures DecodeFrom(dec, cmds, |cmds|, labo, at, crc) == ListResult(cmds, labo, true, at, crc)
  {
  }

  /** DecodeFrom, one command on. */
  lemma {:induction false} DecodeOne(dec: Decoder, cmds: seq<Command>, k: nat, at: nat, crc: word, d: Decoded)
    requires k < |cmds| && dec(cmds[k], at, crc) == d
    ensures DecodeFrom(dec, cmds, k, -1, at, crc)
      == if d.outcome.Fine? then DecodeFrom(dec, cmds[k := d.cmd], k + 1, LaboAfter(d.cmd, k), d.at, d.crc)
         else ListResult(cmds[k := d.cmd], -1, false, at, crc)
  {
  }

  // ------------------------------------------------------------- round trip

  lemma {:induction false} WordsBytesAt(ws: seq<word>, k: nat)
    requires k < |ws|
    ensures WordsBytes(ws)[2 * k] == ws[k] % 256 && WordsBytes(ws)[2 * k + 1] == ws[k] / 256
  {
    if k < |ws| - 1 {
      WordsBytesAt(ws[..|ws| - 1], k);
    }
  }

  lemma {:induction false} WordBack(p: seq<byte>, i: nat, w: word)
    requires i + 2 <= |p| && p[i] == w % 256 && p[i + 1] == w / 256
    ensures WordAt(p, i) == w
  {
  }

  lemma {:induction false} WordsBack(p: seq<byte>, i: nat, ws: seq<word>)
    requires i + 2 * |ws| <= |p| && p[i..i + 2 * |ws|] == WordsBytes(ws)
    ensures WordsAt(p, i, |ws|) == ws
  {
    forall k | 0 <= k < |ws|
      ensures WordAt(p, i + 2 * k) == ws[k]
    {
      WordsBytesAt(ws, k);
      var b := p[i..i + 2 * |ws|];
      assert p[i + 2 * k] == b[2 * k] && p[i + 2 * k + 1] == b[2 * k + 1];
      WordBack(p, i + 2 * k, ws[k]);
    }
  }

  lemma {:induction false} AnswerBack(cmd: Command, a: Answer, p: seq<byte>, i: nat, size: nat)
    requires Fits(cmd, a) && size == ResponseSize(Code(cmd), |cmd.blk|) && i + size <= |p|
    requires p[i..i + size - 2] == AnswerBytes(cmd, a)
    ensures p[i] == cmd.request
    ensures Code(cmd) == CMD_RBLK ==> WordAt(p, i + 1) == |cmd.blk|
    ensures Answered(cmd, AnswerAt(cmd, p, i)) == Answered(cmd, a)
  {
    var b := AnswerBytes(cmd, a);
    var n := |cmd.blk|;
    assert forall j :: 0 <= j < |b| ==> p[i + j] == b[j];
    assert p[i] == b[0];
    assert p[i + size - 3] == b[|b| - 1] == a.status;
    if Code(cmd) == CMD_RREG || Code(cmd) == CMD_ATTN {
      WordBack(p, i + 1, a.data);
    } else if Code(cmd) == CMD_RBLK {
      RblkBack(p, i, b, cmd.request, a);
    } else if Code(cmd) == CMD_WBLK {
      WordBack(p, i + 1, a.done);
    } else if Code(cmd) == CMD_LABO {
      assert p[i + 1] == b[1];
    }
  }

  lemma {:induction false} RblkBack(p: seq<byte>, i: nat, b: seq<byte>, request: byte, a: Answer)
    requires b == [request] + (WordBytesOf(|a.blk|) + WordsBytes(a.blk) + WordBytesOf(a.done)) + [a.status]
    requires i + |b| <= |p| && p[i..i + |b|] == b
    ensures WordAt(p, i + 1) == |a.blk|
    ensures WordsAt(p, i + 3, |a.blk|) == a.blk && WordAt(p, i + 3 + 2 * |a.blk|) == a.done
  {
    var n := |a.blk|;
    assert forall j :: 0 <= j < |b| ==> p[i + j] == b[j];
    WordBack(p, i + 1, n);
    assert p[i + 3..i + 3 + 2 * n] == b[3..3 + 2 * n] == WordsBytes(a.blk);
    WordsBack(p, i + 3, a.blk);
    var e := 3 + 2 * n;
    assert b[e] == a.done % 256 && b[e + 1] == a.done / 256;
    WordBack(p, i + e, a.done);
  }

  function Completed(cmd: Command, a: Answer): Command {
    var c := Answered(cmd, a);
    c.(flags := c.flags.(done := true))
  }

  lemma {:induction false} DecodeParts(add: Adder, p: seq<byte>, nak: int, cmd: Command, a: Answer, i: nat, e: nat,
                                       crc: word, crc': word)
    requires Fits(cmd, a) && SizeSet(cmd) && e == i + cmd.rcvSize <= |p| && nak != i
    requires p[i..e - 2] == AnswerBytes(cmd, a) && p[e - 2..e] == WordBytesOf(crc')
    requires crc' == Sum(add, crc, AnswerBytes(cmd, a))
    ensures Decode(add, p, nak, cmd, i, crc) == Decoded(Fine, Completed(cmd, a), e, crc')
  {
    AnswerBack(cmd, a, p, i, cmd.rcvSize);
  }

  lemma {:induction false} SplitAt(p: seq<byte>, i: nat, a: seq<byte>, b: seq<byte>)
    requires i + |a| + |b| <= |p| && p[i..i + |a| + |b|] == a + b
    ensures p[i..i + |a|] == a && p[i + |a|..i + |a| + |b|] == b
  {
    assert p[i..i + |a|] == p[i..i + |a| + |b|][..|a|] && p[i + |a|..i + |a| + |b|] == p[i..i + |a| + |b|][|a|..];
  }

  /** One response is decoded to what was answered. */
  lemma {:induction false} DecodeBack(add: Adder, p: seq<byte>, nak: int, cmd: Command, a: Answer, i: nat, crc: word,
                                      resp: Coded)
    requires Fits(cmd, a) && SizeSet(cmd)
    requires resp == WithCrc(add, crc, AnswerBytes(cmd, a))
    requires i + |resp.bytes| <= |p| && p[i..i + |resp.bytes|] == resp.bytes && nak != i
    ensures Decode(add, p, nak, cmd, i, crc) == Decoded(Fine, Completed(cmd, a), i + cmd.rcvSize, resp.crc)
    ensures |resp.bytes| == cmd.rcvSize && DoneWith(Completed(cmd, a), cmd, a)
  {
    SplitAt(p, i, AnswerBytes(cmd, a), WordBytesOf(resp.crc));
    DecodeParts(add, p, nak, cmd, a, i, i + cmd.rcvSize, crc, resp.crc);
  }

  // ------------------------------------------------------------- the list round trip

  ghost predicate AllFit(cmds: seq<Command>, answers: seq<Answer>) {
    |cmds| == |answers| && forall k :: 0 <= k < |cmds| ==> Fits(cmds[k], answers[k])
  }

  /** abort is the position of the first answer that aborts the list, or the list's length. */
  ghost predicate FirstAbort(cmds: seq<Command>, answers: seq<Answer>, abort: nat)
    requires |cmds| == |answers|
  {
    && abort <= |cmds|
    && (abort < |cmds| ==> cmds[abort].request % 8 == 4 && answers[abort].data != 0)
    && forall k :: 0 <= k < abort ==> !(cmds[k].request % 8 == 4 && answers[k].data != 0)
  }

  /** The list while it is decoded: answered before k. */
  function AnsweredBelow(cmds: seq<Command>, answers: seq<Answer>, k: nat): (r: seq<Command>)
    requires |answers| == |cmds|
    ensures |r| == |cmds|
  {
    seq(|cmds|, j requires 0 <= j < |cmds| => if j < k then Completed(cmds[j], answers[j]) else cmds[j])
  }

  function SkippedFrom(cmds: seq<Command>, k: nat): (r: seq<Command>)
    ensures |r| == |cmds|
  {
    seq(|cmds|, j requires 0 <= j < |cmds| => if j < k then cmds[j] else Skipped(cmds[j]))
  }

  /** The list in the end: answered up to and including the abort, skipped behind it. */
  function ListAnswered(cmds: seq<Command>, answers: seq<Answer>, abort: nat): (r: seq<Command>)
    requires |answers| == |cmds|
    ensures |r| == |cmds|
  {
    SkippedFrom(AnsweredBelow(cmds, answers, abort + 1), abort + 1)
  }

  /** Behind an active labo nothing more is read. */
  lemma {:induction false} SkipRest(dec: Decoder, cmds: seq<Command>, k: nat, labo: int, at: nat, crc: word)
    requires k <= |cmds| && labo >= 0
    ensures DecodeFrom(dec, cmds, k, labo, at, crc) == ListResult(SkippedFrom(cmds, k), labo, true, at, crc)
    decreases |cmds| - k
  {
    if k == |cmds| {
      assert SkippedFrom(cmds, k) == cmds;
    } else {
      var cmds' := cmds[k := Skipped(cmds[k])];
      SkipRest(dec, cmds', k + 1, labo, at, crc);
      assert SkippedFrom(cmds', k + 1) == SkippedFrom(cmds, k);
    }
  }

  lemma {:induction false} AnswerNext(cmds: seq<Command>, answers: seq<Answer>, k: nat)
    requires |answers| == |cmds| && k < |cmds|
    ensures AnsweredBelow(cmds, answers, k)[k] == cmds[k]
    ensures AnsweredBelow(cmds, answers, k)[k := Completed(cmds[k], answers[k])] == AnsweredBelow(cmds, answers, k + 1)
    ensures LaboAfter(Completed(cmds[k], answers[k]), k) == if Aborts(cmds[k], answers[k]) then k else -1
  {
  }

  predicate HasAt(p: seq<byte>, at: nat, s: seq<byte>) {
    at + |s| <= |p| && p[at..at + |s|] == s
  }

  lemma {:induction false} Slices(p: seq<byte>, at: nat, a: seq<byte>, b: seq<byte>)
    requires HasAt(p, at, a + b)
    ensures HasAt(p, at, a) && HasAt(p, at + |a|, b)
  {
    var s := p[at..at + |a + b|];
    assert p[at..at + |a|] == s[..|a|] && p[at + |a|..at + |a| + |b|] == s[|a|..];
  }

  /** The response sizes of the first n commands. */
  function StartOf(cmds: seq<Command>, n: nat): nat
    requires n <= |cmds|
  {
    if n == 0 then 0 else StartOf(cmds, n - 1) + cmds[n - 1].rcvSize
  }

  /** The device's checksum after n responses. */
  function CrcAfter(enc: Encoder, cmds: seq<Command>, answers: seq<Answer>, n: nat): word
    requires n <= |cmds| == |answers|
  {
    if n == 0 then 0 else enc(cmds[n - 1], answers[n - 1], CrcAfter(enc, cmds, answers, n - 1)).crc
  }

  function Piece(enc: Encoder, cmds: seq<Command>, answers: seq<Answer>, j: nat): Coded
    requires j < |cmds| == |answers|
  {
    enc(cmds[j], answers[j], CrcAfter(enc, cmds, answers, j))
  }

  ghost predicate EncodedSizes(enc: Encoder, cmds: seq<Command>, answers: seq<Answer>)
    requires |cmds| == |answers|
  {
    forall j, crc :: 0 <= j < |cmds| ==> |enc(cmds[j], answers[j], crc).bytes| == cmds[j].rcvSize
  }

  /** What is left of the responses behind the first n. */
  function ResponsesFrom(enc: Encoder, cmds: seq<Command>, answers: seq<Answer>, n: nat): seq<byte>
    requires n <= |cmds| == |answers|
  {
    Responses(enc, cmds, answers, n, CrcAfter(enc, cmds, answers, n))
  }

  /** They are the next response and, unless that aborts the list, the rest. */
  lemma {:induction false} ResponsesStep(enc: Encoder, cmds: seq<Command>, answers: seq<Answer>, k: nat)
    requires k < |cmds| == |answers|
    ensures ResponsesFrom(enc, cmds, answers, k) == Piece(enc, cmds, answers, k).bytes
      + if Aborts(cmds[k], answers[k]) then [] else ResponsesFrom(enc, cmds, answers, k + 1)
  {
  }

  /** The responses from the k-th on stand where the sizes of those before put them. */
  ghost predicate Stand(enc: Encoder, cmds: seq<Command>, answers: seq<Answer>, p: seq<byte>, k: nat) {
    k <= |cmds| == |answers| && HasAt(p, StartOf(cmds, k), ResponsesFrom(enc, cmds, answers, k))
  }

  lemma {:induction false} NextResponses(enc: Encoder, cmds: seq<Command>, answers: seq<Answer>, p: seq<byte>, k: nat)
    requires k < |cmds| && Stand(enc, cmds, answers, p, k)
    requires |Piece(enc, cmds, answers, k).bytes| == cmds[k].rcvSize
    ensures HasAt(p, StartOf(cmds, k), Piece(enc, cmds, answers, k).bytes)
    ensures !Aborts(cmds[k], answers[k]) ==> Stand(enc, cmds, answers, p, k + 1)
  {
    var first := Piece(enc, cmds, answers, k).bytes;
    var rest := if Aborts(cmds[k], answers[k]) then [] else ResponsesFrom(enc, cmds, answers, k + 1);
    ResponsesStep(enc, cmds, answers, k);
    Slices(p, StartOf(cmds, k), first, rest);
  }

  lemma {:induction false} StandsUpTo(enc: Encoder, cmds: seq<Command>, answers: seq<Answer>, p: seq<byte>, j: nat)
    requires j <= |cmds| == |answers| && EncodedSizes(enc, cmds, answers)
    requires forall k :: 0 <= k < j ==> !Aborts(cmds[k], answers[k])
    requires Stand(enc, cmds, answers, p, 0)
    ensures Stand(enc, cmds, answers, p, j)
    decreases j
  {
    if j > 0 {
      StandsUpTo(enc, cmds, answers, p, j - 1);
      NextResponses(enc, cmds, answers, p, j - 1);
    }
  }

  /** Response j stands where the sizes of those before it put it. */
  lemma {:induction false} PieceAt(enc: Encoder, cmds: seq<Command>, answers: seq<Answer>, abort: nat,
                                   p: seq<byte>, j: nat)
    requires |cmds| == |answers| && EncodedSizes(enc, cmds, answers) && FirstAbort(cmds, answers, abort)
    requires j <= abort && j < |cmds|
    requires HasAt(p, 0, Responses(enc, cmds, answers, 0, 0))
    ensures HasAt(p, StartOf(cmds, j), Piece(enc, cmds, answers, j).bytes)
  {
    StandsUpTo(enc, cmds, answers, p, j);
    NextResponses(enc, cmds, answers, p, j);
  }

  /** Command j is decoded to its answer. */
  ghost predicate StepBack(dec: Decoder, enc: Encoder, cmds: seq<Command>, answers: seq<Answer>, j: nat)
    requires j < |cmds| == |answers|
  {
    dec(cmds[j], StartOf(cmds, j), CrcAfter(enc, cmds, answers, j))
      == Decoded(Fine, Completed(cmds[j], answers[j]), StartOf(cmds, j + 1), CrcAfter(enc, cmds, answers, j + 1))
  }

  lemma {:induction false} StepDecoded(add: Adder, p: seq<byte>, nak: int, cmds: seq<Command>, answers: seq<Answer>,
                                       j: nat)
    requires Sized(cmds) && AllFit(cmds, answers) && j < |cmds| && nak != StartOf(cmds, j)
    requires HasAt(p, StartOf(cmds, j), Piece(AnswerEncoder(add), cmds, answers, j).bytes)
    ensures StepBack(PacketDecoder(add, p, nak), AnswerEncoder(add), cmds, answers, j)
  {
    DecodeBack(add, p, nak, cmds[j], answers[j], StartOf(cmds, j), CrcAfter(AnswerEncoder(add), cmds, answers, j),
      Piece(AnswerEncoder(add), cmds, answers, j));
  }

  function UpTo(cmds: seq<Command>, abort: nat): nat {
    if abort < |cmds| then abort + 1 else |cmds|
  }

  lemma {:induction false} ListStep(dec: Decoder, cmds: seq<Command>, answers: seq<Answer>, k: nat,
                                    at: nat, crc: word, at': nat, crc': word)
    requires |cmds| == |answers| && k < |cmds|
    requires dec(cmds[k], at, crc) == Decoded(Fine, Completed(cmds[k], answers[k]), at', crc')
    ensures DecodeFrom(dec, AnsweredBelow(cmds, answers, k), k, -1, at, crc)
         == DecodeFrom(dec, AnsweredBelow(cmds, answers, k + 1), k + 1,
              if Aborts(cmds[k], answers[k]) then k else -1, at', crc')
  {
    AnswerNext(cmds, answers, k);
  }

  /** If every command up to the abort is decoded to its answer, the list is. */
  lemma {:induction false} ListBack(dec: Decoder, enc: Encoder, cmds: seq<Command>, answers: seq<Answer>, abort: nat)
    requires |cmds| == |answers| && FirstAbort(cmds, answers, abort)
    requires forall j :: 0 <= j < UpTo(cmds, abort) ==> StepBack(dec, enc, cmds, answers, j)
    ensures DecodeFrom(dec, cmds, 0, -1, 0, 0)
      == ListResult(ListAnswered(cmds, answers, abort), if abort < |cmds| then abort else -1, true,
           StartOf(cmds, UpTo(cmds, abort)), CrcAfter(enc, cmds, answers, UpTo(cmds, abort)))
  {
    hide DecodeFrom;
    var all := DecodeFrom(dec, cmds, 0, -1, 0, 0);
    var k, at, crc, cmds' := 0, 0, 0, AnsweredBelow(cmds, answers, 0);
    assert cmds' == cmds;
    while k < abort
      invariant k <= abort && at == StartOf(cmds, k) && crc == CrcAfter(enc, cmds, answers, k)
      invariant cmds' == AnsweredBelow(cmds, answers, k) && all == DecodeFrom(dec, cmds', k, -1, at, crc)
    {
      assert StepBack(dec, enc, cmds, answers, k) && !Aborts(cmds[k], answers[k]);
      var at', crc' := StartOf(cmds, k + 1), CrcAfter(enc, cmds, answers, k + 1);
      ListStep(dec, cmds, answers, k, at, crc, at', crc');
      k, at, crc, cmds' := k + 1, at', crc', AnsweredBelow(cmds, answers, k + 1);
    }
    if abort < |cmds| {
      assert StepBack(dec, enc, cmds, answers, k) && Aborts(cmds[k], answers[k]);
      var at', crc' := StartOf(cmds, k + 1), CrcAfter(enc, cmds, answers, k + 1);
      ListStep(dec, cmds, answers, k, at, crc, at', crc');
      SkipRest(dec, AnsweredBelow(cmds, answers, k + 1), k + 1, k, at', crc');
    } else {
      DecodeEnds(dec, cmds', -1, at, crc);
      assert ListAnswered(cmds, answers, k) == AnsweredBelow(cmds, answers, k);
    }
  }

  lemma {:induction false} AnswersSized(add: Adder, cmds: seq<Command>, answers: seq<Answer>)
    requires Sized(cmds) && AllFit(cmds, answers)
    ensures EncodedSizes(AnswerEncoder(add), cmds, answers)
  {
    forall j, crc | 0 <= j < |cmds|
      ensures |AnswerEncoder(add)(cmds[j], answers[j], crc).bytes| == cmds[j].rcvSize
    {
      assert Fits(cmds[j], answers[j]) && SizeSet(cmds[j]);
    }
  }

  /** Every command up to the abort has its answer, the others are marked skipped, and exactly
      the response sizes set by the requests were consumed. */
  ghost predicate Recovered(r: ListResult, cmds: seq<Command>, answers: seq<Answer>, abort: nat)
    requires |cmds| == |answers|
  {
    && r.ok && |r.cmds| == |cmds|
    && (forall j :: 0 <= j < UpTo(cmds, abort) ==> DoneWith(r.cmds[j], cmds[j], answers[j]))
    && (forall j :: UpTo(cmds, abort) <= j < |cmds| ==> SkippedAs(r.cmds[j], cmds[j]))
    && r.labo == (if abort < |cmds| then abort else -1)
    && r.at == StartOf(cmds, UpTo(cmds, abort))
  }

  lemma {:induction false} AnsweredHold(cmds: seq<Command>, answers: seq<Answer>, abort: nat)
    requires |cmds| == |answers| && abort <= |cmds|
    ensures var r := ListAnswered(cmds, answers, abort);
            && (forall j :: 0 <= j < UpTo(cmds, abort) ==> DoneWith(r[j], cmds[j], answers[j]))
            && (forall j :: UpTo(cmds, abort) <= j < |cmds| ==> SkippedAs(r[j], cmds[j]))
  {
  }

  /** The payload begins with the device's responses to the list, and no NAK came where one of
      them begins. */
  ghost predicate Holds(add: Adder, p: seq<byte>, nak: int, cmds: seq<Command>, answers: seq<Answer>, abort: nat) {
    && AllFit(cmds, answers) && FirstAbort(cmds, answers, abort)
    && Responses(AnswerEncoder(add), cmds, answers, 0, 0) <= p
    && forall j :: 0 <= j < UpTo(cmds, abort) ==> nak != StartOf(cmds, j)
  }

  /** Such a payload is decoded to the answers. */
  lemma {:induction false} HeldDecodes(add: Adder, p: seq<byte>, nak: int, cmds: seq<Command>, answers: seq<Answer>,
                                       abort: nat)
    requires Sized(cmds) && Holds(add, p, nak, cmds, answers, abort)
    ensures Recovered(DecodeFrom(PacketDecoder(add, p, nak), cmds, 0, -1, 0, 0), cmds, answers, abort)
  {
    var enc := AnswerEncoder(add);
    AnswersSized(add, cmds, answers);
    forall j | 0 <= j < UpTo(cmds, abort)
      ensures StepBack(PacketDecoder(add, p, nak), enc, cmds, answers, j)
    {
      PieceAt(enc, cmds, answers, abort, p, j);
      StepDecoded(add, p, nak, cmds, answers, j);
    }
    ListBack(PacketDecoder(add, p, nak), enc, cmds, answers, abort);
    AnsweredHold(cmds, answers, abort);
  }

  /** Every request byte, data word, block, done count and status comes back; the commands
      behind an active labo are marked; exactly the response sizes are consumed. */
  lemma {:induction false} ListRoundTrip(add: Adder, cmds: seq<Command>, answers: seq<Answer>, abort: nat,
                                         extra: seq<byte>)
    requires Sized(cmds) && AllFit(cmds, answers) && FirstAbort(cmds, answers, abort)
    ensures var p := Responses(AnswerEncoder(add), cmds, answers, 0, 0) + extra;
            var r := DecodeFrom(PacketDecoder(add, p, -1), cmds, 0, -1, 0, 0);
            Recovered(r, cmds, answers, abort)
  {
    var p := Responses(AnswerEncoder(add), cmds, answers, 0, 0) + extra;
    HeldDecodes(add, p, -1, cmds, answers, abort);
  }

  // ------------------------------------------------------------- every payload

  /** The checksum running into command k's response. */
  function CrcOf(add: Adder, p: seq<byte>, cmds: seq<Command>, k: nat): word
    requires k <= |cmds|
  {
    if k == 0 then 0
    else
      var start, end := StartOf(cmds, k - 1), StartOf(cmds, k) - 2;
      if start <= end <= |p| then Sum(add, CrcOf(add, p, cmds, k - 1), p[start..end]) else 0
  }

  /** Command k was checked: its response lies inside the payload, begins with its request
      byte and not with a NAK, and ends with the checksum over all responses up to it. */
  ghost predicate Checked(add: Adder, p: seq<byte>, nak: int, cmds: seq<Command>, k: nat)
    requires k < |cmds|
  {
    var start, end := StartOf(cmds, k), StartOf(cmds, k + 1);
    && end <= |p| && start < end - 2 && start != nak
    && p[start] == cmds[k].request
    && p[end - 2..end] == WordBytesOf(CrcOf(add, p, cmds, k + 1))
    && SizeSet(cmds[k]) && (Code(cmds[k]) == CMD_RBLK ==> WordAt(p, start + 1) == |cmds[k].blk|)
  }

  /** c is what becomes of command cmd when decoding its response at i fails: by a NAK, or by an error,
      and then with what was received entered exactly if the whole response is there and has its
      request byte and block length, so that only its checksum is wrong. */
  ghost predicate FailedAt(add: Adder, p: seq<byte>, nak: int, cmd: Command, i: nat, crc: word, c: Command)
    requires SizeSet(cmd)
  {
    if i == nak then c == cmd.(flags := cmd.flags.(errNak := true))
    else if i + cmd.rcvSize > |p| then FailedAs(c, cmd, Answer(0, [], 0, 0), false)
    else
      var end := i + cmd.rcvSize - 2;
      var fits := p[i] == cmd.request && (cmd.request % 8 == CMD_RBLK ==> WordAt(p, i + 1) == |cmd.blk|);
      && FailedAs(c, cmd, AnswerAt(cmd, p, i), fits)
      && (fits ==> p[end..end + 2] != WordBytesOf(Sum(add, crc, p[i..end])))
  }

  /** What one decoding does in every case. */
  ghost predicate StepCases(add: Adder, p: seq<byte>, nak: int, cmd: Command, i: nat, crc: word, d: Decoded)
    requires i <= |p| && SizeSet(cmd)
  {
    if !d.outcome.Fine? then FailedAt(add, p, nak, cmd, i, crc, d.cmd)
    else
      && d.at == i + cmd.rcvSize <= |p| && cmd.rcvSize >= 4 && i != nak
      && DoneWith(d.cmd, cmd, AnswerAt(cmd, p, i))
      && (Code(cmd) == CMD_RBLK ==> WordAt(p, i + 1) == |cmd.blk|)
      && p[i] == cmd.request && d.crc == Sum(add, crc, p[i..d.at - 2])
      && p[d.at - 2..d.at] == WordBytesOf(d.crc)
  }

  ghost predicate Sound(dec: Decoder, add: Adder, p: seq<byte>, nak: int) {
    forall cmd, i: nat, crc :: i <= |p| && SizeSet(cmd) ==> StepCases(add, p, nak, cmd, i, crc, dec(cmd, i, crc))
  }

  lemma {:induction false} DecodeCases(add: Adder, p: seq<byte>, nak: int, cmd: Command, i: nat, crc: word)
    requires i <= |p| && SizeSet(cmd)
    ensures StepCases(add, p, nak, cmd, i, crc, Decode(add, p, nak, cmd, i, crc))
  {
  }

  lemma {:induction false} DecoderSound(add: Adder, p: seq<byte>, nak: int)
    ensures Sound(PacketDecoder(add, p, nak), add, p, nak)
  {
    forall cmd: Command, i: nat, crc: word | i <= |p| && SizeSet(cmd)
      ensures StepCases(add, p, nak, cmd, i, crc, PacketDecoder(add, p, nak)(cmd, i, crc))
    {
      DecodeCases(add, p, nak, cmd, i, crc);
    }
  }

  /** Command j was read as c: checked, done, with exactly what stands in its response entered, and
      an active labo exactly if it is the one noted. */
  ghost predicate ReadAs(add: Adder, p: seq<byte>, nak: int, cmds: seq<Command>, j: nat, c: Command, labo: int)
    requires j < |cmds|
  {
    && Checked(add, p, nak, cmds, j) && DoneWith(c, cmds[j], AnswerAt(cmds[j], p, StartOf(cmds, j)))
    && (c.request % 8 == 4 && c.data != 0 <==> j == labo)
  }

  /** The list after decoding, m commands having been read successfully: these are done and
      checked, and only the last of them can be an active labo; then either all are handled,
      or command m alone failed and the rest is untouched. */
  ghost predicate Partition(add: Adder, p: seq<byte>, nak: int, cmds: seq<Command>, r: ListResult, m: nat) {
    && |r.cmds| == |cmds| >= m
    && (forall j :: 0 <= j < m ==> ReadAs(add, p, nak, cmds, j, r.cmds[j], r.labo))
    && (if r.ok
        then
          || (r.labo == -1 && m == |cmds|)
          || (0 <= r.labo == m - 1 && forall j :: m <= j < |cmds| ==> SkippedAs(r.cmds[j], cmds[j]))
        else
          && r.labo == -1 && m < |cmds| && SizeSet(cmds[m])
          && FailedAt(add, p, nak, cmds[m], StartOf(cmds, m), CrcOf(add, p, cmds, m), r.cmds[m])
          && r.cmds[m + 1..] == cmds[m + 1..])
  }

  lemma {:induction false} CheckedNext(add: Adder, p: seq<byte>, nak: int, cmds: seq<Command>, m: nat, at: nat,
                                       crc: word, d: Decoded)
    requires m < |cmds| && at == StartOf(cmds, m) <= |p| && crc == CrcOf(add, p, cmds, m) && SizeSet(cmds[m])
    requires d.outcome.Fine? && StepCases(add, p, nak, cmds[m], at, crc, d)
    ensures Checked(add, p, nak, cmds, m) && d.at == StartOf(cmds, m + 1) <= |p| && d.crc == CrcOf(add, p, cmds, m + 1)
    ensures ReadAs(add, p, nak, cmds, m, d.cmd, LaboAfter(d.cmd, m))
  {
  }

  lemma {:induction false} StepFails(add: Adder, p: seq<byte>, nak: int, cmd: Command, at: nat, crc: word, d: Decoded)
    requires at <= |p| && SizeSet(cmd) && !d.outcome.Fine? && StepCases(add, p, nak, cmd, at, crc, d)
    ensures FailedAt(add, p, nak, cmd, at, crc, d.cmd)
  {
  }

  /** The list while m commands were read successfully and none was an active labo. */
  ghost predicate Progress(add: Adder, p: seq<byte>, nak: int, cmds: seq<Command>, cmds': seq<Command>, m: nat) {
    && m <= |cmds| == |cmds'|
    && (forall j :: 0 <= j < m ==> ReadAs(add, p, nak, cmds, j, cmds'[j], -1))
    && (forall j :: m <= j < |cmds| ==> cmds'[j] == cmds[j])
  }

  lemma {:induction false} ProgressNext(add: Adder, p: seq<byte>, nak: int, cmds: seq<Command>,
                                        cmds': seq<Command>, m: nat, c: Command)
    requires m < |cmds| && Progress(add, p, nak, cmds, cmds', m) && ReadAs(add, p, nak, cmds, m, c, -1)
    ensures Progress(add, p, nak, cmds, cmds'[m := c], m + 1)
  {
    var r := cmds'[m := c];
    forall j | 0 <= j < m + 1
      ensures ReadAs(add, p, nak, cmds, j, r[j], -1)
    {
      if j < m {
        assert r[j] == cmds'[j];
      }
    }
  }

  lemma {:induction false} EndsFailed(add: Adder, p: seq<byte>, nak: int, cmds: seq<Command>, cmds': seq<Command>, m: nat,
                                      c: Command, at: nat, crc: word)
    requires m < |cmds| && Progress(add, p, nak, cmds, cmds', m) && SizeSet(cmds[m])
    requires FailedAt(add, p, nak, cmds[m], StartOf(cmds, m), CrcOf(add, p, cmds, m), c)
    ensures Partition(add, p, nak, cmds, ListResult(cmds'[m := c], -1, false, at, crc), m)
  {
    var r := cmds'[m := c];
    assert r[m + 1..] == cmds[m + 1..] && r[m] == c;
    forall j | 0 <= j < m
      ensures ReadAs(add, p, nak, cmds, j, r[j], -1)
    {
      assert r[j] == cmds'[j];
    }
  }

  /** A command that is no active labo is read the same whichever labo is noted later. */
  lemma {:induction false} ReadBefore(add: Adder, p: seq<byte>, nak: int, cmds: seq<Command>, j: nat, c: Command,
                                      labo: int)
    requires j < |cmds| && j < labo && ReadAs(add, p, nak, cmds, j, c, -1)
    ensures ReadAs(add, p, nak, cmds, j, c, labo)
  {
  }

  lemma {:induction false} EndsAborted(add: Adder, p: seq<byte>, nak: int, cmds: seq<Command>, cmds': seq<Command>,
                                       m: nat,
                                       c: Command, at: nat, crc: word)
    requires m < |cmds| && Progress(add, p, nak, cmds, cmds', m) && ReadAs(add, p, nak, cmds, m, c, m)
    ensures Partition(add, p, nak, cmds, ListResult(SkippedFrom(cmds'[m := c], m + 1), m, true, at, crc), m + 1)
  {
    var r := SkippedFrom(cmds'[m := c], m + 1);
    assert r[m] == c;
    forall j | m + 1 <= j < |cmds|
      ensures SkippedAs(r[j], cmds[j])
    {
      assert cmds'[j] == cmds[j];
    }
    forall j | 0 <= j < m + 1
      ensures ReadAs(add, p, nak, cmds, j, r[j], m)
    {
      if j < m {
        assert r[j] == cmds'[j];
        ReadBefore(add, p, nak, cmds, j, cmds'[j], m);
      }
    }
  }

  lemma {:induction false} AbortsAt(dec: Decoder, cmds: seq<Command>, m: nat, at: nat, crc: word, d: Decoded)
    requires m < |cmds| && d == dec(cmds[m], at, crc) && d.outcome.Fine? && LaboAfter(d.cmd, m) == m
    ensures DecodeFrom(dec, cmds, m, -1, at, crc)
         == ListResult(SkippedFrom(cmds[m := d.cmd], m + 1), m, true, d.at, d.crc)
  {
    SkipRest(dec, cmds[m := d.cmd], m + 1, m, d.at, d.crc);
  }

  /** Decoding any payload against any list. */
  lemma {:induction false} EveryPayload(dec: Decoder, add: Adder, p: seq<byte>, nak: int,
                                        cmds: seq<Command>) returns (m: nat)
    requires Sound(dec, add, p, nak) && Sized(cmds)
    ensures Partition(add, p, nak, cmds, DecodeFrom(dec, cmds, 0, -1, 0, 0), m)
  {
    hide DecodeFrom, StepCases, FailedAt, ReadAs, Partition;
    var r := DecodeFrom(dec, cmds, 0, -1, 0, 0);
    var at, crc, cmds' := 0, 0, cmds;
    m := 0;
    while m < |cmds|
      invariant Progress(add, p, nak, cmds, cmds', m)
      invariant at == StartOf(cmds, m) <= |p| && crc == CrcOf(add, p, cmds, m)
      invariant r == DecodeFrom(dec, cmds', m, -1, at, crc)
    {
      assert SizeSet(cmds[m]) && cmds'[m] == cmds[m];
      var d := dec(cmds[m], at, crc);
      DecodeOne(dec, cmds', m, at, crc, d);
      if !d.outcome.Fine? {
        StepFails(add, p, nak, cmds[m], at, crc, d);
        EndsFailed(add, p, nak, cmds, cmds', m, d.cmd, at, crc);
        return;
      }
      CheckedNext(add, p, nak, cmds, m, at, crc, d);
      if LaboAfter(d.cmd, m) == m {
        AbortsAt(dec, cmds', m, at, crc, d);
        EndsAborted(add, p, nak, cmds, cmds', m, d.cmd, d.at, d.crc);
        return m + 1;
      }
      ProgressNext(add, p, nak, cmds, cmds', m, d.cmd);
      cmds' := cmds'[m := d.cmd];
      m, at, crc := m + 1, d.at, d.crc;
    }
    DecodeEnds(dec, cmds', -1, at, crc);
    EndsWhole(add, p, nak, cmds, cmds', at, crc);
  }

  lemma {:induction false} EndsWhole(add: Adder, p: seq<byte>, nak: int, cmds: seq<Command>, cmds': seq<Command>, at: nat,
                                     crc: word)
    requires Progress(add, p, nak, cmds, cmds', |cmds|)
    ensures Partition(add, p, nak, cmds, ListResult(cmds', -1, true, at, crc), |cmds|)
  {
  }

  /** DecodeResponse on every payload, NAK index and list. */
  lemma {:induction false} ResponsePartition(add: Adder, p: seq<byte>, nak: int, cmds: seq<Command>) returns (m: nat)
    requires Sized(cmds)
    ensures Partition(add, p, nak, cmds, DecodeFrom(PacketDecoder(add, p, nak), cmds, 0, -1, 0, 0), m)
  {
    DecoderSound(add, p, nak);
    m := EveryPayload(PacketDecoder(add, p, nak), add, p, nak, cmds);
  }

  // ------------------------------------------------------------- what decodes

  lemma {:induction false} WordRead(p: seq<byte>, i: nat)
    requires i + 2 <= |p|
    ensures WordBytesOf(WordAt(p, i)) == p[i..i + 2]
  {
    var w: int := WordAt(p, i);
    assert w % 256 == p[i] && w / 256 == p[i + 1];
  }

  lemma {:induction false} WordsRead(p: seq<byte>, i: nat, n: nat)
    requires i + 2 * n <= |p|
    ensures WordsBytes(WordsAt(p, i, n)) == p[i..i + 2 * n]
  {
    if n > 0 {
      WordsRead(p, i, n - 1);
      WordRead(p, i + 2 * n - 2);
      assert WordsAt(p, i, n)[..n - 1] == WordsAt(p, i, n - 1);
      assert p[i..i + 2 * n] == p[i..i + 2 * n - 2] + p[i + 2 * n - 2..i + 2 * n];
    }
  }

  lemma {:induction false} BlockRead(p: seq<byte>, i: nat, n: nat)
    requires i + 5 + 2 * n <= |p| && WordAt(p, i + 1) == n
    ensures WordBytesOf(n) + WordsBytes(WordsAt(p, i + 3, n)) + WordBytesOf(WordAt(p, i + 3 + 2 * n))
         == p[i + 1..i + 5 + 2 * n]
  {
    WordRead(p, i + 1);
    WordsRead(p, i + 3, n);
    WordRead(p, i + 3 + 2 * n);
    assert p[i + 1..i + 5 + 2 * n] == p[i + 1..i + 3] + p[i + 3..i + 3 + 2 * n] + p[i + 3 + 2 * n..i + 5 + 2 * n];
  }

  lemma {:induction false} DataRead(p: seq<byte>, cmd: Command, i: nat)
    requires SizeSet(cmd) && i + cmd.rcvSize <= |p|
    requires Code(cmd) == CMD_RBLK ==> WordAt(p, i + 1) == |cmd.blk|
    ensures AnswerData(Code(cmd), AnswerAt(cmd, p, i)) == p[i + 1..i + cmd.rcvSize - 3]
  {
    if Code(cmd) == CMD_RBLK {
      BlockRead(p, i, |cmd.blk|);
    } else if Code(cmd) == CMD_RREG || Code(cmd) == CMD_ATTN || Code(cmd) == CMD_WBLK {
      WordRead(p, i + 1);
    }
  }

  lemma {:induction false} BodyParts(p: seq<byte>, i: nat, e: nat)
    requires i < e < |p|
    ensures p[i..e + 1] == [p[i]] + p[i + 1..e] + [p[e]]
  {
  }

  /** The bytes of a response are those of the answer read from it. */
  lemma {:induction false} BodyRead(p: seq<byte>, cmd: Command, i: nat)
    requires SizeSet(cmd) && i + cmd.rcvSize <= |p| && p[i] == cmd.request
    requires Code(cmd) == CMD_RBLK ==> WordAt(p, i + 1) == |cmd.blk|
    ensures Fits(cmd, AnswerAt(cmd, p, i))
    ensures AnswerBytes(cmd, AnswerAt(cmd, p, i)) == p[i..i + cmd.rcvSize - 2]
  {
    DataRead(p, cmd, i);
    BodyParts(p, i, i + cmd.rcvSize - 3);
  }

  /** What the first m responses answer; the other answers do not matter. */
  function AnswersIn(cmds: seq<Command>, p: seq<byte>, m: nat): (a: seq<Answer>)
    ensures |a| == |cmds|
  {
    seq(|cmds|, j requires 0 <= j < |cmds| =>
      if j < m && StartOf(cmds, j) + ResponseSize(Code(cmds[j]), |cmds[j].blk|) <= |p|
      then AnswerAt(cmds[j], p, StartOf(cmds, j))
      else Answer(0, cmds[j].blk, 0, 0))
  }

  /** Response j is what the device would send for the answer read from it. */
  ghost predicate Sends(add: Adder, p: seq<byte>, cmds: seq<Command>, answers: seq<Answer>, j: nat)
    requires j < |cmds| == |answers|
  {
    && StartOf(cmds, j) <= StartOf(cmds, j + 1) <= |p|
    && Piece(AnswerEncoder(add), cmds, answers, j).bytes == p[StartOf(cmds, j)..StartOf(cmds, j + 1)]
  }

  lemma {:induction false} ResponseRead(add: Adder, p: seq<byte>, cmd: Command, i: nat, e: nat, crc: word, crc': word)
    requires SizeSet(cmd) && e == i + cmd.rcvSize <= |p| && p[i] == cmd.request
    requires Code(cmd) == CMD_RBLK ==> WordAt(p, i + 1) == |cmd.blk|
    requires crc' == Sum(add, crc, p[i..e - 2]) && p[e - 2..e] == WordBytesOf(crc')
    ensures WithCrc(add, crc, AnswerBytes(cmd, AnswerAt(cmd, p, i))) == Coded(p[i..e], crc')
  {
    BodyRead(p, cmd, i);
    JoinSlices(p, i, e - 2, e, p[i..e - 2], p[e - 2..e], p[i..e - 2] + p[e - 2..e]);
  }

  lemma {:induction false} JoinSlices(p: seq<byte>, i: nat, j: nat, e: nat, a: seq<byte>, b: seq<byte>, ab: seq<byte>)
    requires i <= j <= e <= |p| && a == p[i..j] && b == p[j..e] && ab == a + b
    ensures ab == p[i..e]
  {
  }

  lemma {:induction false} PieceRead(add: Adder, p: seq<byte>, nak: int, cmds: seq<Command>, answers: seq<Answer>, j: nat)
    requires j < |cmds| == |answers| && Checked(add, p, nak, cmds, j)
    requires answers[j] == AnswerAt(cmds[j], p, StartOf(cmds, j))
    requires CrcAfter(AnswerEncoder(add), cmds, answers, j) == CrcOf(add, p, cmds, j)
    ensures Sends(add, p, cmds, answers, j)
    ensures CrcAfter(AnswerEncoder(add), cmds, answers, j + 1) == CrcOf(add, p, cmds, j + 1)
  {
    hide WithCrc, AnswerBytes, AnswerAt, Sum;
    ResponseRead(add, p, cmds[j], StartOf(cmds, j), StartOf(cmds, j + 1), CrcOf(add, p, cmds, j),
      CrcOf(add, p, cmds, j + 1));
  }

  /** Response j was checked, and answers[j] is what it answers, aborting the list if j is labo. */
  ghost predicate Right(add: Adder, p: seq<byte>, nak: int, cmds: seq<Command>, answers: seq<Answer>, j: nat, labo: int) {
    && j < |cmds| == |answers| && Checked(add, p, nak, cmds, j)
    && answers[j] == AnswerAt(cmds[j], p, StartOf(cmds, j))
    && Fits(cmds[j], answers[j]) && (Aborts(cmds[j], answers[j]) <==> j == labo)
  }

  /** crcs tells the device's checksum after each response. */
  ghost predicate CrcStep(enc: Encoder, cmds: seq<Command>, answers: seq<Answer>, crcs: nat -> word, j: nat) {
    j < |cmds| == |answers| && enc(cmds[j], answers[j], crcs(j)).crc == crcs(j + 1)
  }

  lemma {:induction false} CrcSteps(enc: Encoder, cmds: seq<Command>, answers: seq<Answer>, crcs: nat -> word, m: nat)
    requires m <= |cmds| == |answers| && crcs(0) == 0
    requires forall j: nat :: j < m ==> CrcStep(enc, cmds, answers, crcs, j)
    ensures CrcAfter(enc, cmds, answers, m) == crcs(m)
    decreases m
  {
    if m > 0 {
      CrcSteps(enc, cmds, answers, crcs, m - 1);
      assert CrcStep(enc, cmds, answers, crcs, m - 1);
    }
  }

  /** The checksums running into the responses in the payload. */
  function PayloadCrcs(add: Adder, p: seq<byte>, cmds: seq<Command>): nat -> word {
    (k: nat) => if k <= |cmds| then CrcOf(add, p, cmds, k) else 0
  }

  lemma {:induction false} CrcRight(add: Adder, p: seq<byte>, nak: int, cmds: seq<Command>, answers: seq<Answer>, j: nat,
                                    labo: int)
    requires Right(add, p, nak, cmds, answers, j, labo)
    ensures CrcStep(AnswerEncoder(add), cmds, answers, PayloadCrcs(add, p, cmds), j)
  {
    ResponseRead(add, p, cmds[j], StartOf(cmds, j), StartOf(cmds, j + 1), CrcOf(add, p, cmds, j),
      CrcOf(add, p, cmds, j + 1));
  }

  /** All responses up to m are right. */
  ghost predicate AllRight(add: Adder, p: seq<byte>, nak: int, cmds: seq<Command>, answers: seq<Answer>, m: nat,
                           labo: int) {
    m <= |cmds| == |answers| && forall j: nat :: j < m ==> Right(add, p, nak, cmds, answers, j, labo)
  }

  lemma {:induction false} CrcsAgree(add: Adder, p: seq<byte>, nak: int, cmds: seq<Command>, answers: seq<Answer>, m: nat,
                                     labo: int, k: nat)
    requires AllRight(add, p, nak, cmds, answers, m, labo) && k <= m
    ensures CrcAfter(AnswerEncoder(add), cmds, answers, k) == CrcOf(add, p, cmds, k)
  {
    var crcs := PayloadCrcs(add, p, cmds);
    forall j: nat | j < k
      ensures CrcStep(AnswerEncoder(add), cmds, answers, crcs, j)
    {
      CrcRight(add, p, nak, cmds, answers, j, labo);
    }
    CrcSteps(AnswerEncoder(add), cmds, answers, crcs, k);
  }

  /** The responses from k on are what stands in the payload up to e. */
  ghost predicate ReadsTo(add: Adder, p: seq<byte>, cmds: seq<Command>, answers: seq<Answer>, k: nat, e: nat) {
    && k <= |cmds| == |answers| && StartOf(cmds, k) <= e <= |p|
    && ResponsesFrom(AnswerEncoder(add), cmds, answers, k) == p[StartOf(cmds, k)..e]
  }

  lemma {:induction false} OneRead(add: Adder, p: seq<byte>, cmds: seq<Command>, answers: seq<Answer>, k: nat, e: nat)
    requires k < |cmds| == |answers| && Sends(add, p, cmds, answers, k)
    requires if Aborts(cmds[k], answers[k]) then e == StartOf(cmds, k + 1) else ReadsTo(add, p, cmds, answers, k + 1, e)
    ensures ReadsTo(add, p, cmds, answers, k, e)
  {
    var enc := AnswerEncoder(add);
    ResponsesStep(enc, cmds, answers, k);
    JoinSlices(p, StartOf(cmds, k), StartOf(cmds, k + 1), e, Piece(enc, cmds, answers, k).bytes,
      if Aborts(cmds[k], answers[k]) then [] else ResponsesFrom(enc, cmds, answers, k + 1),
      ResponsesFrom(enc, cmds, answers, k));
  }

  lemma {:induction false} RightReads(add: Adder, p: seq<byte>, nak: int, cmds: seq<Command>, answers: seq<Answer>,
                                      m: nat, labo: int, k: nat, e: nat)
    requires AllRight(add, p, nak, cmds, answers, m, labo) && k < m
    requires if k == labo then e == StartOf(cmds, k + 1) else ReadsTo(add, p, cmds, answers, k + 1, e)
    ensures ReadsTo(add, p, cmds, answers, k, e)
  {
    CrcsAgree(add, p, nak, cmds, answers, m, labo, k);
    assert Right(add, p, nak, cmds, answers, k, labo);
    PieceRead(add, p, nak, cmds, answers, k);
    OneRead(add, p, cmds, answers, k, e);
  }

  /** What holds at n and goes on from each place to the one before holds at 0. */
  lemma {:induction false} Descend(holds: nat -> bool, n: nat)
    requires holds(n) && forall k: nat :: k < n && holds(k + 1) ==> holds(k)
    ensures holds(0)
  {
    if n > 0 {
      Descend(holds, n - 1);
    }
  }

  lemma {:induction false} ReadsDown(add: Adder, p: seq<byte>, nak: int, cmds: seq<Command>, answers: seq<Answer>,
                                     m: nat, labo: int, top: nat, e: nat)
    requires AllRight(add, p, nak, cmds, answers, m, labo) && top <= m && (labo < 0 || top == labo)
    requires ReadsTo(add, p, cmds, answers, top, e)
    ensures ReadsTo(add, p, cmds, answers, 0, e)
  {
    hide ReadsTo, AllRight;
    var stands := (k: nat) => ReadsTo(add, p, cmds, answers, k, e);
    forall k: nat | k < top && stands(k + 1)
      ensures stands(k)
    {
      RightReads(add, p, nak, cmds, answers, m, labo, k, e);
    }
    Descend(stands, top);
  }

  /** The responses up to the one that ends the list stand in the payload. */
  lemma {:induction false} ResponsesRead(add: Adder, p: seq<byte>, nak: int, cmds: seq<Command>, answers: seq<Answer>,
                                         m: nat, labo: int, e: nat)
    requires AllRight(add, p, nak, cmds, answers, m, labo) && e == StartOf(cmds, m) <= |p|
    requires if labo < 0 then m == |cmds| else labo == m - 1
    ensures ReadsTo(add, p, cmds, answers, 0, e)
  {
    if labo >= 0 {
      RightReads(add, p, nak, cmds, answers, m, labo, labo, e);
      ReadsDown(add, p, nak, cmds, answers, m, labo, labo, e);
    } else {
      ReadsDown(add, p, nak, cmds, answers, m, labo, m, e);
    }
  }

  lemma {:induction false} AnswerRight(add: Adder, p: seq<byte>, nak: int, cmds: seq<Command>, m: nat, j: nat, c: Command,
                                       labo: int)
    requires j < m <= |cmds| && ReadAs(add, p, nak, cmds, j, c, labo)
    ensures Right(add, p, nak, cmds, AnswersIn(cmds, p, m), j, labo)
  {
    BodyRead(p, cmds[j], StartOf(cmds, j));
  }

  /** A list is decoded only from the responses of a device to it. */
  lemma {:induction false} DecodedHolds(add: Adder, p: seq<byte>, nak: int, cmds: seq<Command>)
      returns (answers: seq<Answer>, abort: nat)
    requires Sized(cmds) && DecodeFrom(PacketDecoder(add, p, nak), cmds, 0, -1, 0, 0).ok
    ensures Holds(add, p, nak, cmds, answers, abort)
  {
    var r := DecodeFrom(PacketDecoder(add, p, nak), cmds, 0, -1, 0, 0);
    var m := ResponsePartition(add, p, nak, cmds);
    answers, abort := AnswersIn(cmds, p, m), if r.labo < 0 then |cmds| else r.labo;
    PartitionHolds(add, p, nak, cmds, r, m, answers, abort);
  }

  lemma {:induction false} PartitionHolds(add: Adder, p: seq<byte>, nak: int, cmds: seq<Command>, r: ListResult, m: nat,
                                          answers: seq<Answer>, abort: nat)
    requires Partition(add, p, nak, cmds, r, m) && r.ok
    requires answers == AnswersIn(cmds, p, m) && abort == if r.labo < 0 then |cmds| else r.labo
    ensures Holds(add, p, nak, cmds, answers, abort)
  {
    forall j: nat | j < m
      ensures Right(add, p, nak, cmds, answers, j, r.labo)
    {
      AnswerRight(add, p, nak, cmds, m, j, r.cmds[j], r.labo);
    }
    if m > 0 {
      assert Right(add, p, nak, cmds, answers, m - 1, r.labo);
    }
    ResponsesRead(add, p, nak, cmds, answers, m, r.labo, StartOf(cmds, m));
    RightHolds(add, p, nak, cmds, answers, m, r.labo, abort);
  }

  lemma {:induction false} RightHolds(add: Adder, p: seq<byte>, nak: int, cmds: seq<Command>, answers: seq<Answer>,
                                      m: nat, labo: int, abort: nat)
    requires m <= |cmds| && (if labo < 0 then abort == m == |cmds| else abort == labo == m - 1)
    requires answers == AnswersIn(cmds, p, m) && AllRight(add, p, nak, cmds, answers, m, labo)
    requires ReadsTo(add, p, cmds, answers, 0, StartOf(cmds, m))
    ensures Holds(add, p, nak, cmds, answers, abort)
  {
    forall j | 0 <= j < |cmds|
      ensures Fits(cmds[j], answers[j])
    {
      assert j < m ==> Right(add, p, nak, cmds, answers, j, labo);
    }
    assert p[0..StartOf(cmds, m)] <= p;
    forall j | 0 <= j < m
      ensures nak != StartOf(cmds, j) && (Aborts(cmds[j], answers[j]) <==> j == labo)
    {
      assert Right(add, p, nak, cmds, answers, j, labo);
    }
  }

  /** What decodes: a list is handled as a whole exactly if the payload begins with the responses
      of a device to it, up to the first that aborts it, with no NAK where one of them begins; and
      then the list ends up with just these answers. */
  lemma {:induction false} DecodesIff(add: Adder, p: seq<byte>, nak: int, cmds: seq<Command>)
    requires Sized(cmds)
    ensures var r := DecodeFrom(PacketDecoder(add, p, nak), cmds, 0, -1, 0, 0);
            && (r.ok <==> exists answers, abort :: Holds(add, p, nak, cmds, answers, abort))
            && forall answers, abort :: Holds(add, p, nak, cmds, answers, abort) ==> Recovered(r, cmds, answers, abort)
  {
    var r := DecodeFrom(PacketDecoder(add, p, nak), cmds, 0, -1, 0, 0);
    if r.ok {
      var answers, abort := DecodedHolds(add, p, nak, cmds);
    }
    forall answers, abort | Holds(add, p, nak, cmds, answers, abort)
      ensures Recovered(r, cmds, answers, abort)
    {
      HeldDecodes(add, p, nak, cmds, answers, abort);
    }
  }
}
