/** The device's view of a request packet: parsing it, checksums included, gives back what
    was to be sent. */
module RlinkRequests {
  import opened Words
  import opened Checksum
  import opened RlinkCommand
  import opened RlinkDecoding

  /** What a request tells the device. */
  datatype Order = Order(request: byte, address: word, value: word, data: seq<word>)

  function OrderOf(cmd: Command): Order {
    var code := Code(cmd);
    Order(cmd.request,
          if code == CMD_LABO || code == CMD_ATTN then 0 else cmd.address,
          if code == CMD_RBLK || code == CMD_WBLK then |cmd.blk|
          else if code == CMD_WREG || code == CMD_INIT then cmd.data else 0,
          if code == CMD_WBLK then cmd.blk else [])
  }

  function HeadSize(code: nat): nat {
    if code == CMD_LABO || code == CMD_ATTN then 1 else if code == CMD_RREG then 3 else 5
  }

  /** Do n bytes at i carry the right checksum behind them. */
  predicate PartOk(add: Adder, p: seq<byte>, i: nat, n: nat, crc: word) {
    i + n + 2 <= |p| && p[i + n..i + n + 2] == WordBytesOf(Sum(add, crc, p[i..i + n]))
  }

  datatype Parsed = Bad | Parsed(order: Order, at: nat, crc: word)

  function ParseHead(add: Adder, p: seq<byte>, i: nat, crc: word): Parsed {
    if i >= |p| then Bad
    else
      var code := p[i] % 8;
      var n := HeadSize(code);
      if code > CMD_INIT || !PartOk(add, p, i, n, crc) then Bad
      else
        Parsed(Order(p[i], if n > 1 then WordAt(p, i + 1) else 0, if n > 3 then WordAt(p, i + 3) else 0, []),
               i + n + 2, Sum(add, crc, p[i..i + n]))
  }

  function ParseOne(add: Adder, p: seq<byte>, i: nat, crc: word): Parsed {
    var h := ParseHead(add, p, i, crc);
    if h == Bad || h.order.request % 8 != CMD_WBLK then h
    else
      var n := 2 * h.order.value;
      if !PartOk(add, p, h.at, n, h.crc) then Bad
      else
        Parsed(h.order.(data := WordsAt(p, h.at, h.order.value)), h.at + n + 2, Sum(add, h.crc, p[h.at..h.at + n]))
  }

  lemma {:induction false} PartBack(add: Adder, p: seq<byte>, i: nat, crc: word, part: seq<byte>, c: Coded)
    requires c == WithCrc(add, crc, part) && HasAt(p, i, c.bytes)
    ensures PartOk(add, p, i, |part|, crc) && p[i..i + |part|] == part && c.crc == Sum(add, crc, part)
  {
    Slices(p, i, part, WordBytesOf(c.crc));
  }

  lemma {:induction false} HeadBack(add: Adder, p: seq<byte>, i: nat, crc: word, cmd: Command)
    requires KnownCode(cmd) && HasAt(p, i, WithCrc(add, crc, RequestHead(cmd)).bytes)
    ensures ParseHead(add, p, i, crc)
      == Parsed(OrderOf(cmd).(data := []), i + HeadSize(Code(cmd)) + 2, WithCrc(add, crc, RequestHead(cmd)).crc)
    ensures |RequestHead(cmd)| == HeadSize(Code(cmd))
  {
    var head := RequestHead(cmd);
    PartBack(add, p, i, crc, head, WithCrc(add, crc, head));
    HeadBytes(p, i, cmd, head);
  }

  lemma {:induction false} HeadBytes(p: seq<byte>, i: nat, cmd: Command, head: seq<byte>)
    requires KnownCode(cmd) && head == RequestHead(cmd) && HasAt(p, i, head)
    ensures |head| == HeadSize(Code(cmd)) && p[i] == cmd.request
    ensures |head| > 1 ==> WordAt(p, i + 1) == cmd.address
    ensures |head| > 3 ==> WordAt(p, i + 3) == OrderOf(cmd).value
  {
    assert forall k :: 0 <= k < |head| ==> p[i + k] == head[k];
    assert p[i] == head[0];
    if |head| > 1 {
      assert p[i + 1] == head[1] && p[i + 2] == head[2];
      WordBack(p, i + 1, cmd.address);
    }
    if |head| > 3 {
      assert p[i + 3] == head[3] && p[i + 4] == head[4];
      WordBack(p, i + 3, OrderOf(cmd).value);
    }
  }

  /** The data part of a wblk request, behind its head. */
  lemma {:induction false} DataBack(add: Adder, p: seq<byte>, at: nat, crc: word, blk: block, data: Coded)
    requires data == WithCrc(add, crc, WordsBytes(blk)) && HasAt(p, at, data.bytes)
    ensures PartOk(add, p, at, 2 * |blk|, crc) && WordsAt(p, at, |blk|) == blk
    ensures |data.bytes| == 2 * |blk| + 2 && data.crc == Sum(add, crc, p[at..at + 2 * |blk|])
  {
    PartBack(add, p, at, crc, WordsBytes(blk), data);
    WordsBack(p, at, blk);
  }

  /** One request is parsed to the command it was made of. */
  lemma {:induction false} RequestBack(add: Adder, p: seq<byte>, i: nat, crc: word, cmd: Command)
    requires KnownCode(cmd) && HasAt(p, i, Request(add, crc, cmd).bytes)
    ensures ParseOne(add, p, i, crc)
      == Parsed(OrderOf(cmd), i + |Request(add, crc, cmd).bytes|, Request(add, crc, cmd).crc)
  {
    hide WordsBytes, Sum;
    var head := WithCrc(add, crc, RequestHead(cmd));
    if Code(cmd) != CMD_WBLK {
      HeadBack(add, p, i, crc, cmd);
    } else {
      var data := WithCrc(add, head.crc, WordsBytes(cmd.blk));
      Slices(p, i, head.bytes, data.bytes);
      HeadBack(add, p, i, crc, cmd);
      assert |head.bytes| == 7;
      DataBack(add, p, i + 7, head.crc, cmd.blk, data);
    }
  }

  type Parser = (nat, word) -> Parsed

  function RequestParser(add: Adder, p: seq<byte>): Parser {
    (i: nat, crc: word) => ParseOne(add, p, i, crc)
  }

  /** The device takes orders as long as they are good, up to position n. */
  function ParseAll(parse: Parser, n: nat, i: nat, crc: word): seq<Order>
    decreases n - i
  {
    if i >= n then []
    else
      var r := parse(i, crc);
      if r == Bad || r.at <= i then [] else [r.order] + ParseAll(parse, n, r.at, r.crc)
  }

  function Orders(cmds: seq<Command>, k: nat): seq<Order>
    requires k <= |cmds|
    decreases |cmds| - k
  {
    if k == |cmds| then [] else [OrderOf(cmds[k])] + Orders(cmds, k + 1)
  }

  lemma {:induction false} NotEmpty(add: Adder, crc: word, cmd: Command)
    ensures |Request(add, crc, cmd).bytes| > 0
  {
  }

  lemma {:induction false} FirstOf(p: seq<byte>, i: nat, first: seq<byte>, rest: seq<byte>)
    requires i <= |p| && p[i..] == first + rest
    ensures HasAt(p, i, first) && i + |first| <= |p| && p[i + |first|..] == rest
  {
    assert |p| == i + |first| + |rest|;
    assert p[i..i + |first|] == p[i..][..|first|];
    assert p[i + |first|..] == p[i..][|first|..];
  }

  /** The first request of the rest is parsed, and the rest goes on behind it. */
  lemma {:induction false} FirstParsed(add: Adder, p: seq<byte>, cmds: seq<Command>, k: nat, i: nat, crc: word)
      returns (r: Parsed)
    requires k < |cmds| && KnownCode(cmds[k]) && i <= |p| && p[i..] == Requests(RequestCoder(add), cmds, k, crc)
    ensures r == RequestParser(add, p)(i, crc) && r.Parsed? && r.order == OrderOf(cmds[k]) && i < r.at <= |p|
    ensures p[r.at..] == Requests(RequestCoder(add), cmds, k + 1, r.crc)
  {
    var first := Request(add, crc, cmds[k]);
    FirstOf(p, i, first.bytes, Requests(RequestCoder(add), cmds, k + 1, first.crc));
    NotEmpty(add, crc, cmds[k]);
    RequestBack(add, p, i, crc, cmds[k]);
    r := Parsed(OrderOf(cmds[k]), i + |first.bytes|, first.crc);
  }

  lemma {:induction false} OrderFirst(parse: Parser, n: nat, i: nat, crc: word, r: Parsed)
    requires i < n && r == parse(i, crc) && r.Parsed? && r.at > i
    ensures ParseAll(parse, n, i, crc) == [r.order] + ParseAll(parse, n, r.at, r.crc)
  {
  }

  /** The parser undoes the encoder, request by request. */
  ghost predicate Undoes(parse: Parser, enc: RequestEncoder, p: seq<byte>, cmds: seq<Command>) {
    forall k: nat, i: nat, crc: word :: k < |cmds| && i <= |p| && p[i..] == Requests(enc, cmds, k, crc) ==>
      FirstTaken(parse, enc, p, cmds, k, i, crc)
  }

  ghost predicate FirstTaken(parse: Parser, enc: RequestEncoder, p: seq<byte>, cmds: seq<Command>, k: nat, i: nat,
                             crc: word)
    requires k < |cmds|
  {
    var r := parse(i, crc);
    r.Parsed? && r.order == OrderOf(cmds[k]) && i < r.at <= |p| && p[r.at..] == Requests(enc, cmds, k + 1, r.crc)
  }

  lemma {:induction false} OrdersTaken(parse: Parser, enc: RequestEncoder, p: seq<byte>, cmds: seq<Command>,
                                       k: nat, i: nat, crc: word)
    requires Undoes(parse, enc, p, cmds) && k <= |cmds|
    requires i <= |p| && p[i..] == Requests(enc, cmds, k, crc)
    ensures ParseAll(parse, |p|, i, crc) == Orders(cmds, k)
    decreases |cmds| - k
  {
    if k < |cmds| {
      assert FirstTaken(parse, enc, p, cmds, k, i, crc);
      var r := parse(i, crc);
      OrderFirst(parse, |p|, i, crc, r);
      OrdersTaken(parse, enc, p, cmds, k + 1, r.at, r.crc);
    }
  }

  /** The device gets exactly the list: codes, sequence numbers, addresses, values and data. */
  lemma {:induction false} RequestsRoundTrip(add: Adder, cmds: seq<Command>)
    requires forall j :: 0 <= j < |cmds| ==> KnownCode(cmds[j])
    ensures var p := Requests(RequestCoder(add), cmds, 0, 0);
            ParseAll(RequestParser(add, p), |p|, 0, 0) == Orders(cmds, 0)
  {
    var enc, p := RequestCoder(add), Requests(RequestCoder(add), cmds, 0, 0);
    var parse := RequestParser(add, p);
    forall k: nat, i: nat, crc: word | k < |cmds| && i <= |p| && p[i..] == Requests(enc, cmds, k, crc)
      ensures FirstTaken(parse, enc, p, cmds, k, i, crc)
    {
      var r := FirstParsed(add, p, cmds, k, i, crc);
    }
    assert p[0..] == p;
    OrdersTaken(parse, enc, p, cmds, 0, 0, 0);
  }
}
