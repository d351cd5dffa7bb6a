/** The controller object. Its methods change the state in place, keep it consistent, and give
    their callers what the predicates at the end of DeunaControl say; that each is a step of the
    runs considered there is said by the equation with the step's function. */
module DeunaController {
  import opened DeunaControl
  import DeunaWords

  class Controller {
    var c: Control
    var tx: Tx
    var rx: Rx
    var timer: Timer
    var actions: seq<Action>
    var macs: maclist
    var counts: Counts

    ghost function State(): Deuna
      reads this
    {
      Deuna(c, tx, rx, timer, actions, macs, counts)
    }

    ghost predicate Valid()
      reads this
    {
      Consistent(State())
    }

    constructor (delua: bool, limit: nat)
      ensures Valid() && State() == Initial(delua, limit)
      ensures c.port == PortReady && c.delua == delua && !c.running && !c.pcbbValid && !c.ringValid
      ensures rx.limit == limit && rx.queue == [] && actions == [] && timer == Closed
      ensures macs == [0x08002B000000, 0xFFFFFFFFFFFF]
    {
      c := Control(PortReady, delua, false, false, false, false, false, false);
      tx, rx := Tx(TxIdle, 0, 0, NO_DSC, NO_DSC), Rx(RxIdle, 0, 0, NO_DSC, NO_DSC, [], limit);
      timer, actions, macs := Closed, [], [MAC_DEFAULT, MAC_BROADCAST];
      counts := Counts(0, 0, 0, 0, 0, 0, 0, [], []);
    }

    method StartTx(cur: Dsc)
      modifies this
      ensures State() == StartTxRing(old(State()), cur)
    {
      if tx.state != TxIdle {
        return;
      }
      tx := tx.(cur := cur);
      if tx.curPC.own {
        tx := tx.(state := TxBusy);
        actions := actions + [TxHandler];
      }
    }

    method StopTx()
      modifies this
      ensures State() == StopTxRing(old(State()))
    {
      tx := tx.(state := TxIdle);
    }

    method StartRx(cur: Dsc)
      modifies this
      ensures State() == StartRxRing(old(State()), cur)
    {
      if rx.state != RxIdle {
        return;
      }
      rx := rx.(cur := cur);
      if rx.queue != [] && rx.cur.own {
        rx := rx.(state := RxBusy);
        actions := actions + [RxHandler];
      }
    }

    method StopRx()
      modifies this
      ensures State() == StopRxRing(old(State()))
    {
      if rx.state == RxPoll {
        timer := Cancel(timer);
      }
      rx := rx.(state := RxIdle);
    }

    method ResetAll()
      requires Valid()
      modifies this
      ensures Valid() && IsReset(old(State()), State())
      ensures State() == Reset(old(State()))
    {
      ResetResets(State());
      c := c.(running := false);
      StopTx();
      StopRx();
      c := c.(pcbbValid := false, ringValid := false);
      tx, rx := tx.(size := 0, index := 0), rx.(size := 0, index := 0);
      macs := [MAC_DEFAULT, macs[1]];
      c := c.(pcto := false, port := PortReady);
    }

    method Run(run: bool, rd: Reads)
      requires Valid() && (run ==> c.ringValid)
      modifies this
      ensures Valid() && IsRun(old(State()), State(), run, rd)
      ensures State() == SetRunning(old(State()), run, rd)
    {
      RunRuns(State(), run, rd);
      if c.running == run {
        return;
      }
      if run {
        if timer == Closed {
          timer := Open;
        }
        c := c.(running := true, port := PortRun);
        tx, rx := tx.(index := 0), rx.(index := 0);
        StartTx(rd.tx);
        StartRx(rd.rx);
      } else {
        c := c.(running := false);
        StopTx();
        StopRx();
        c := c.(port := PortReady);
      }
    }

    method ExecGetcmd(f: Function) returns (ok: bool)
      requires Valid()
      modifies this
      ensures Valid() && IsFunction(old(State()), State(), f, ok)
      ensures Done(State(), ok) == Execute(old(State()), f)
    {
      FunctionWorks(State(), f);
      if !c.pcbbValid {
        c := c.(pcto := true);
        return false;
      }
      match f
      case WriteRing(valid, txSize, rxSize) =>
        if !valid || txSize <= 1 || rxSize <= 1 {
          return false;
        }
        c := c.(ringValid := true);
        tx, rx := tx.(size := txSize), rx.(size := rxSize);
        return true;
      case WriteAddress(mac) =>
        if mac % 2 == 1 {
          return false;
        }
        macs := macs[0 := mac];
        return true;
      case WriteMulticast(valid, list) =>
        ok := WriteList(valid, list);
      case WriteMode(valid, promiscuous) =>
        if valid {
          c := c.(promiscuous := promiscuous);
        }
        return valid;
      case Func(result) =>
        return result;
    }

    /** The multicast list is cleared first; an address without the multicast bit leaves it so. */
    method WriteList(valid: bool, list: seq<nat>) returns (ok: bool)
      requires c.pcbbValid
      modifies this
      ensures Done(State(), ok) == Execute(old(State()), WriteMulticast(valid, list))
    {
      if !valid || |list| > DIM_MCAST {
        return false;
      }
      macs := macs[..2];
      var i := 0;
      while i < |list|
        invariant i <= |list| && forall k :: 0 <= k < i ==> list[k] % 2 == 1
      {
        if list[i] % 2 == 0 {
          return false;
        }
        i := i + 1;
      }
      macs := macs[..2] + list;
      return true;
    }

    method PollDemand()
      modifies this
      ensures State() == OnPdmd(old(State())).d
    {
      if c.running {
        if rx.state == RxPoll {
          timer := Cancel(timer);
          rx := rx.(state := RxIdle);
        }
        StartTx(tx.curPC);
        StartRx(rx.curPC);
      }
    }

    method DoCommand(cmd: Command, rd: Reads) returns (status: Status)
      requires Valid()
      modifies this
      ensures Valid()
      ensures Answered(State(), status) == OnCommand(old(State()), cmd, rd)
    {
      CommandInv(State(), cmd, rd);
      CommandKeepsFrames(State(), cmd, rd);
      match cmd
      case Noop =>
        return NotWritten;
      case GetPcbb =>
        c := c.(pcbbValid := true);
        return DNI;
      case GetCmd(f) =>
        var ok := ExecGetcmd(f);
        return if ok then DNI else PCEI;
      case SelfTest =>
        ResetAll();
        return NotWritten;
      case Start =>
        if c.port == PortRun {
          return DNI;
        }
        if c.port == PortReady && c.ringValid {
          Run(true, rd);
          return DNI;
        }
        return PCEI;
      case Boot =>
        return PCEI;
      case Pdmd =>
        PollDemand();
        return DNI;
      case Halt =>
        if c.delua {
          Run(false, rd);
          c := c.(port := PortHalted);
        }
        return DNI;
      case Stop =>
        if c.port == PortRun {
          Run(false, rd);
        }
        return PCEI;
      case Reserved =>
        return DNI;
    }

    method AttnHandler(pc: Reads, rset: bool, brst: bool, cmd: Command, rd: Reads) returns (status: Status)
      requires Valid()
      modifies this
      ensures Valid() && IsAttention(old(State()), State(), pc, rset, brst, cmd, rd, status)
      ensures Answered(State(), status) == Attention(old(State()), pc, rset, brst, cmd, rd)
    {
      hide OnCommand, Reset, IsAttention, IsReset;
      AttentionAnswers(State(), pc, rset, brst, cmd, rd);
      if c.pcbbValid && c.running {
        tx, rx := tx.(curPC := pc.tx), rx.(curPC := pc.rx);
      }
      c := c.(pcto := false);
      if rset || brst {
        ResetAll();
        return Written(rset, false);
      }
      status := DoCommand(cmd, rd);
    }

    method TxRingHandler(next: Dsc) returns (irc: nat)
      requires Valid() && TxHandler in actions
      modifies this
      ensures Valid() && IsTxTurn(old(State()), State(), next, irc)
      ensures Handled(State(), irc) == TxRun(old(State()), next)
    {
      TxTurn(State(), next);
      tx := tx.(state := TxIdle);
      if !c.running || !tx.cur.own {
        return 0;
      }
      tx := tx.(index := DeunaWords.RingIndexNext(tx.index, tx.size, 1));
      tx := tx.(cur := next);
      if !tx.cur.own {
        return 0;
      }
      tx := tx.(state := TxBusy);
      return 1;
    }

    method RxRingHandler(next: Dsc) returns (irc: nat)
      requires Valid() && RxHandler in actions
      modifies this
      ensures Valid() && IsRxTurn(old(State()), State(), next, irc)
      ensures Handled(State(), irc) == RxRun(old(State()), next)
    {
      RxTurn(State(), next);
      rx := rx.(state := RxIdle);
      if !c.running || !rx.cur.own || rx.queue == [] {
        return 0;
      }
      var frame := rx.queue[0];
      rx := rx.(queue := rx.queue[1..]);
      counts := counts.(taken := counts.taken + [frame]);
      rx := rx.(index := DeunaWords.RingIndexNext(rx.index, rx.size, 1));
      rx := rx.(cur := next);
      if rx.queue == [] {
        return 0;
      }
      if !rx.cur.own {
        rx := rx.(state := RxPoll);
        timer := Armed;
        return 0;
      }
      rx := rx.(state := RxBusy);
      return 1;
    }

    /** The server's action turn, seen from here: foreign actions just return irc. */
    method CallFirstAction(next: Dsc, irc: nat)
      requires Valid()
      modifies this
      ensures Valid() && IsTurn(old(State()), State(), next, irc)
      ensures State() == CallAction(old(State()), next, irc)
    {
      ActionTurn(State(), next, irc);
      ActionInv(State(), next, irc);
      HandlerKeepsFrames(State(), next, irc);
      if actions == [] {
        return;
      }
      var first, r := actions[0], irc;
      match first {
        case TxHandler => r := TxRingHandler(next);
        case RxHandler => r := RxRingHandler(next);
        case Other(_) =>
      }
      actions := actions[1..] + if r > 0 then [first] else [];
    }

    method RxPollHandler(count: nat, cur: Dsc)
      requires Valid()
      modifies this
      ensures Valid() && IsPollTurn(old(State()), State(), count, cur)
      ensures State() == OnTimer(old(State()), count, cur)
    {
      PollTurn(State(), count, cur);
      var n := 0;
      if timer == Armed {
        n := count;
      }
      if n > 0 {
        timer := Open;
      }
      if !c.running || rx.state != RxPoll || n == 0 {
        return;
      }
      rx := rx.(state := RxIdle);
      StartRx(cur);
    }

    method Filter(mac: nat) returns (i: int)
      ensures i == MacFilter(macs, mac)
    {
      var k := 0;
      while k < |macs|
        invariant k <= |macs| && forall j :: 0 <= j < k ==> macs[j] != mac
      {
        if macs[k] == mac {
          FilterIs(macs, mac, k);
          return k;
        }
        k := k + 1;
      }
      FilterIs(macs, mac, k);
      return -1;
    }

    method RcvCallback(f: Frame, lost: bool, cur: Dsc)
      requires Valid()
      modifies this
      ensures Valid() && IsReception(old(State()), State(), f, lost, cur)
      ensures State() == Receive(old(State()), f, lost, cur)
    {
      Reception(State(), f, lost, cur);
      counts := counts.(seen := counts.seen + 1);
      if !c.running {
        counts := counts.(notRunning := counts.notRunning + 1);
        return;
      }
      if c.typeFilter {
        if f.etype != ETYPE_IP && f.etype != ETYPE_ARP {
          counts := counts.(typeDrop := counts.typeDrop + 1);
          return;
        }
      }
      if lost {
        counts := counts.(loss := counts.loss + 1);
        return;
      }
      var i := Filter(f.mac);
      if i < 0 && !c.promiscuous {
        counts := CountFilterDrop(counts, i);
        return;
      }
      QueueFrame(f, cur);
    }

    method QueueFrame(f: Frame, cur: Dsc)
      modifies this
      ensures State() == Enqueue(old(State()), f, cur)
    {
      if |rx.queue| >= rx.limit {
        counts := counts.(queueDrop := counts.queueDrop + 1);
        return;
      }
      rx := rx.(queue := rx.queue + [f]);
      counts := counts.(accepted := counts.accepted + [f]);
      if tx.state == TxIdle {
        StartRx(cur);
      }
    }
  }

  lemma {:induction false} FilterIs(macs: seq<nat>, mac: nat, k: nat)
    requires k <= |macs| && (k < |macs| ==> macs[k] == mac)
    requires forall j :: 0 <= j < k ==> macs[j] != mac
    ensures MacFilter(macs, mac) == if k < |macs| then k else -1
  {
  }
}
