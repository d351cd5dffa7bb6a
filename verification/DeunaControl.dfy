/** The DEUNA controller: port commands, ring states, handlers queued as server actions, poll
    timer and receive queue, as one state and the functions of its operations. */
module DeunaControl {
  import opened DeunaWords

  datatype Port = PortReset | PortReady | PortRun | PortHalted

  datatype TxState = TxIdle | TxBusy
  datatype RxState = RxIdle | RxBusy | RxPoll

  /** What the controller looks at in a ring descriptor. */
  datatype Dsc = Dsc(len: nat, own: bool)

  datatype Frame = Frame(id: nat, etype: nat, mac: nat)

  /** Entries of the server's action list. */
  datatype Action = TxHandler | RxHandler | Other(id: nat)

  datatype Timer = Closed | Open | Armed

  datatype Control = Control(port: Port, delua: bool, pcto: bool, pcbbValid: bool, ringValid: bool,
                             running: bool, promiscuous: bool, typeFilter: bool)

  datatype Tx = Tx(state: TxState, size: nat, index: nat, cur: Dsc, curPC: Dsc)

  datatype Rx = Rx(state: RxState, size: nat, index: nat, cur: Dsc, curPC: Dsc, queue: seq<Frame>, limit: nat)

  const MAC_DEFAULT := 0x08002B000000
  const MAC_BROADCAST := 0xFFFFFFFFFFFF
  const DIM_MCAST := 10

  /** Own address, broadcast, and the multicast addresses in use. */
  type maclist = m: seq<nat> | 2 <= |m| <= 2 + DIM_MCAST witness [MAC_DEFAULT, MAC_BROADCAST]

  /** Statistics of the receive side; accepted and taken are the frames queued and dequeued. */
  datatype Counts = Counts(seen: nat, notRunning: nat, typeDrop: nat, loss: nat, multicastDrop: nat,
                           unicastDrop: nat, queueDrop: nat, accepted: seq<Frame>, taken: seq<Frame>)

  datatype Deuna = Deuna(c: Control, tx: Tx, rx: Rx, timer: Timer, actions: seq<Action>, macs: maclist, counts: Counts)

  const NO_DSC := Dsc(0, false)

  function Initial(delua: bool, limit: nat): Deuna {
    Deuna(Control(PortReady, delua, false, false, false, false, false, false),
          Tx(TxIdle, 0, 0, NO_DSC, NO_DSC), Rx(RxIdle, 0, 0, NO_DSC, NO_DSC, [], limit),
          Closed, [], [MAC_DEFAULT, MAC_BROADCAST], Counts(0, 0, 0, 0, 0, 0, 0, [], []))
  }

  // ------------------------------------------------------------- ring start and stop

  /** With descriptor cur read; whether frames are pending is taken from the descriptor that the
      last attention read, curPC. */
  function StartTxRing(d: Deuna, cur: Dsc): Deuna {
    if d.tx.state != TxIdle then d
    else if d.tx.curPC.own then
      d.(tx := d.tx.(cur := cur, state := TxBusy), actions := d.actions + [TxHandler])
    else d.(tx := d.tx.(cur := cur))
  }

  function StopTxRing(d: Deuna): Deuna {
    d.(tx := d.tx.(state := TxIdle))
  }

  function StartRxRing(d: Deuna, cur: Dsc): Deuna {
    if d.rx.state != RxIdle then d
    else if d.rx.queue != [] && cur.own then
      d.(rx := d.rx.(cur := cur, state := RxBusy), actions := d.actions + [RxHandler])
    else d.(rx := d.rx.(cur := cur))
  }

  function Cancel(t: Timer): Timer {
    if t == Armed then Open else t
  }

  function StopRxRing(d: Deuna): Deuna {
    d.(rx := d.rx.(state := RxIdle), timer := if d.rx.state == RxPoll then Cancel(d.timer) else d.timer)
  }

  // ------------------------------------------------------------- port commands

  function Reset(d: Deuna): Deuna {
    var s := StopRxRing(StopTxRing(d));
    s.(c := s.c.(running := false, pcbbValid := false, ringValid := false, pcto := false, port := PortReady),
       tx := s.tx.(size := 0, index := 0), rx := s.rx.(size := 0, index := 0),
       macs := [MAC_DEFAULT, d.macs[1]])
  }

  /** The descriptors read when the rings are started. */
  datatype Reads = Reads(tx: Dsc, rx: Dsc)

  function SetRunning(d: Deuna, run: bool, rd: Reads): Deuna {
    if d.c.running == run then d
    else if run then
      var s := d.(timer := if d.timer == Closed then Open else d.timer,
                  c := d.c.(running := true, port := PortRun), tx := d.tx.(index := 0), rx := d.rx.(index := 0));
      StartRxRing(StartTxRing(s, rd.tx), rd.rx)
    else
      var s := StopRxRing(StopTxRing(d.(c := d.c.(running := false))));
      s.(c := s.c.(port := PortReady))
  }

  /** Functions of the GETCMD command that change the state; Func covers the others, which
      succeed or fail. */
  datatype Function =
    | WriteRing(valid: bool, txSize: word, rxSize: word)
    | WriteAddress(mac: nat)
    | WriteMulticast(valid: bool, macs: seq<nat>)
    | WriteMode(valid: bool, promiscuous: bool)
    | Func(ok: bool)

  datatype Done = Done(d: Deuna, ok: bool)

  function Execute(d: Deuna, f: Function): Done {
    if !d.c.pcbbValid then Done(d.(c := d.c.(pcto := true)), false)
    else
      match f
      case WriteRing(valid, txSize, rxSize) =>
        if valid && txSize > 1 && rxSize > 1
        then Done(d.(c := d.c.(ringValid := true), tx := d.tx.(size := txSize), rx := d.rx.(size := rxSize)), true)
        else Done(d, false)
      case WriteAddress(mac) =>
        if mac % 2 == 1 then Done(d, false) else Done(d.(macs := d.macs[0 := mac]), true)
      case WriteMulticast(valid, macs) =>
        if !valid || |macs| > DIM_MCAST then Done(d, false)
        else if exists k :: 0 <= k < |macs| && macs[k] % 2 == 0 then Done(d.(macs := d.macs[..2]), false)
        else Done(d.(macs := d.macs[..2] + macs), true)
      case WriteMode(valid, promiscuous) =>
        if valid then Done(d.(c := d.c.(promiscuous := promiscuous)), true) else Done(d, false)
      case Func(ok) => Done(d, ok)
  }

  datatype Command = Noop | GetPcbb | GetCmd(f: Function) | SelfTest | Start | Boot | Pdmd | Halt | Stop | Reserved

  /** What is written to the status register: nothing, or flags. */
  datatype Status = NotWritten | Written(dni: bool, pcei: bool)

  const DNI := Written(true, false)
  const PCEI := Written(false, true)

  datatype Answered = Answered(d: Deuna, status: Status)

  function OnStart(d: Deuna, rd: Reads): Answered {
    if d.c.port == PortRun then Answered(d, DNI)
    else if d.c.port == PortReady && d.c.ringValid then Answered(SetRunning(d, true, rd), DNI)
    else Answered(d, PCEI)
  }

  /** Poll demand: a receive poll ends, and the idle rings are looked at with the descriptors of
      this attention. */
  function OnPdmd(d: Deuna): Answered {
    if !d.c.running then Answered(d, DNI)
    else
      var s := if d.rx.state == RxPoll then d.(rx := d.rx.(state := RxIdle), timer := Cancel(d.timer)) else d;
      Answered(StartRxRing(StartTxRing(s, s.tx.curPC), s.rx.curPC), DNI)
  }

  /** One port command. */
  function OnCommand(d: Deuna, cmd: Command, rd: Reads): Answered {
    match cmd
    case Noop => Answered(d, NotWritten)
    case GetPcbb => Answered(d.(c := d.c.(pcbbValid := true)), DNI)
    case GetCmd(f) => var r := Execute(d, f); Answered(r.d, if r.ok then DNI else PCEI)
    case SelfTest => Answered(Reset(d), NotWritten)
    case Start => OnStart(d, rd)
    case Boot => Answered(d, PCEI)
    case Pdmd => OnPdmd(d)
    case Halt =>
      if d.c.delua then
        var s := SetRunning(d, false, rd);
        Answered(s.(c := s.c.(port := PortHalted)), DNI)
      else Answered(d, DNI)
    case Stop => Answered(if d.c.port == PortRun then SetRunning(d, false, rd) else d, PCEI)
    case Reserved => Answered(d, DNI)
  }

  /** Descriptors come with the attention while running. */
  function Attended(d: Deuna, pc: Reads): Deuna {
    var s := d.(c := d.c.(pcto := false));
    if d.c.pcbbValid && d.c.running then s.(tx := s.tx.(curPC := pc.tx), rx := s.rx.(curPC := pc.rx)) else s
  }

  /** The attention handler: resets go first. */
  function Attention(d: Deuna, pc: Reads, rset: bool, brst: bool, cmd: Command, rd: Reads): Answered {
    var t := Attended(d, pc);
    if rset || brst then Answered(Reset(t), Written(rset, false)) else OnCommand(t, cmd, rd)
  }

  // ------------------------------------------------------------- handlers

  /** A handler's new state and result; a positive result keeps it in the action list. */
  datatype Handled = Handled(d: Deuna, irc: nat)

  /** cur is the next descriptor, read after this one was given back. */
  function TxRun(d: Deuna, cur: Dsc): Handled {
    var s := StopTxRing(d);
    if !d.c.running || !d.tx.cur.own then Handled(s, 0)
    else
      var t := s.(tx := s.tx.(index := RingIndexNext(s.tx.index, s.tx.size, 1), cur := cur));
      if cur.own then Handled(t.(tx := t.tx.(state := TxBusy)), 1) else Handled(t, 0)
  }

  function RxRun(d: Deuna, cur: Dsc): Handled {
    var s := d.(rx := d.rx.(state := RxIdle));
    if !d.c.running || !d.rx.cur.own || d.rx.queue == [] then Handled(s, 0)
    else
      var t := s.(rx := s.rx.(index := RingIndexNext(s.rx.index, s.rx.size, 1), cur := cur, queue := s.rx.queue[1..]),
                  counts := s.counts.(taken := s.counts.taken + [s.rx.queue[0]]));
      if t.rx.queue == [] then Handled(t, 0)
      else if cur.own then Handled(t.(rx := t.rx.(state := RxBusy)), 1)
      else Handled(t.(rx := t.rx.(state := RxPoll), timer := Armed), 0)
  }

  /** The server calls the first action and keeps it at the end or drops it. */
  function CallAction(d: Deuna, cur: Dsc, irc: nat): Deuna {
    if d.actions == [] then d
    else
      var h := match d.actions[0]
               case TxHandler => TxRun(d, cur)
               case RxHandler => RxRun(d, cur)
               case Other(_) => Handled(d, irc);
      h.d.(actions := d.actions[1..] + if h.irc > 0 then [d.actions[0]] else [])
  }

  /** The poll timer: count is what reading it gives, positive only when it was armed. */
  function OnTimer(d: Deuna, count: nat, cur: Dsc): Deuna {
    var n := if d.timer == Armed then count else 0;
    var s := d.(timer := if n > 0 then Open else d.timer);
    if !d.c.running || d.rx.state != RxPoll || n == 0 then s
    else StartRxRing(s.(rx := s.rx.(state := RxIdle)), cur)
  }

  // ------------------------------------------------------------- reception

  /** The position of the first matching address, or -1. */
  function MacFilter(macs: seq<nat>, mac: nat): (i: int)
    ensures -1 <= i < |macs|
    ensures i >= 0 ==> macs[i] == mac && forall k :: 0 <= k < i ==> macs[k] != mac
    ensures i == -1 ==> mac !in macs
  {
    if macs == [] then -1
    else if macs[0] == mac then 0
    else
      var i := MacFilter(macs[1..], mac);
      if i < 0 then -1 else i + 1
  }

  const ETYPE_IP := 0x0800
  const ETYPE_ARP := 0x0806

  /** The drop is counted by bit 0 of i, the result of the filter. */
  function CountFilterDrop(n: Counts, i: int): Counts {
    if i % 2 == 1 then n.(multicastDrop := n.multicastDrop + 1) else n.(unicastDrop := n.unicastDrop + 1)
  }

  /** The end of the queue, if there is room, and the receive ring is started unless the transmit
      ring is at work. */
  function Enqueue(d: Deuna, f: Frame, cur: Dsc): Deuna {
    if |d.rx.queue| >= d.rx.limit then d.(counts := d.counts.(queueDrop := d.counts.queueDrop + 1))
    else
      var s := d.(rx := d.rx.(queue := d.rx.queue + [f]), counts := d.counts.(accepted := d.counts.accepted + [f]));
      if s.tx.state == TxIdle then StartRxRing(s, cur) else s
  }

  /** A frame arrives; lost is a simulated loss. Every frame is counted once, dropped for one
      reason or queued. */
  function Receive(d: Deuna, f: Frame, lost: bool, cur: Dsc): Deuna {
    var n := d.counts.(seen := d.counts.seen + 1);
    if !d.c.running then d.(counts := n.(notRunning := n.notRunning + 1))
    else if d.c.typeFilter && f.etype != ETYPE_IP && f.etype != ETYPE_ARP then
      d.(counts := n.(typeDrop := n.typeDrop + 1))
    else if lost then d.(counts := n.(loss := n.loss + 1))
    else
      var i := MacFilter(d.macs, f.mac);
      if i < 0 && !d.c.promiscuous then
        d.(counts := CountFilterDrop(n, i))
      else Enqueue(d.(counts := n), f, cur)
  }

  /** The frames that are queued. */
  predicate Accepts(d: Deuna, f: Frame, lost: bool) {
    && d.c.running && (d.c.typeFilter ==> f.etype == ETYPE_IP || f.etype == ETYPE_ARP) && !lost
    && (f.mac in d.macs || d.c.promiscuous) && |d.rx.queue| < d.rx.limit
  }

  /** All drops counted, whatever the reason. */
  function Drops(n: Counts): nat {
    n.notRunning + n.typeDrop + n.loss + n.multicastDrop + n.unicastDrop + n.queueDrop
  }

  // ------------------------------------------------------------- runs

  datatype Event =
    | Attn(pc: Reads, rset: bool, brst: bool, cmd: Command, rd: Reads)
    | Act(cur: Dsc, irc: nat)
    | Tick(count: nat, cur: Dsc)
    | Arrive(f: Frame, lost: bool, cur: Dsc)
    | Queue(id: nat)

  /** Attention handler, actions, poll handlers and reception all run in the server thread, one
      after the other; each is one step. */
  function Step(d: Deuna, e: Event): Deuna {
    match e
    case Attn(pc, rset, brst, cmd, rd) => Attention(d, pc, rset, brst, cmd, rd).d
    case Act(cur, irc) => CallAction(d, cur, irc)
    case Tick(count, cur) => OnTimer(d, count, cur)
    case Arrive(f, lost, cur) => Receive(d, f, lost, cur)
    case Queue(id) => d.(actions := d.actions + [Other(id)])
  }

  function Run(d: Deuna, events: seq<Event>): Deuna
    decreases |events|
  {
    if events == [] then d else Run(Step(d, events[0]), events[1..])
  }

  // ------------------------------------------------------------- the invariant

  /** Running is the state RUN; it needs valid rings, and these a port control block. */
  predicate PortInv(d: Deuna) {
    && (d.c.running <==> d.c.port == PortRun)
    && (d.c.running ==> d.c.ringValid && d.timer != Closed)
    && (d.c.ringValid ==> d.c.pcbbValid && 2 <= d.tx.size < WORD && 2 <= d.rx.size < WORD)
  }

  /** A ring at work has its handler queued, a polling ring its timer armed; both need running.
      The receive ring works or polls only with frames queued, and works with a descriptor. */
  predicate RingInv(d: Deuna) {
    && (d.tx.state == TxBusy ==> d.c.running && TxHandler in d.actions)
    && (d.rx.state == RxBusy ==> d.c.running && RxHandler in d.actions && d.rx.cur.own)
    && (d.rx.state == RxPoll ==> d.c.running && d.timer == Armed && !d.rx.cur.own)
    && (d.rx.state != RxIdle ==> d.rx.queue != [])
  }

  predicate Inv(d: Deuna) {
    PortInv(d) && RingInv(d)
  }

  lemma {:induction false} StartRingsInv(d: Deuna, tx: Dsc, rx: Dsc)
    requires Inv(d) && d.c.running
    ensures Inv(StartTxRing(d, tx)) && StartTxRing(d, tx).c == d.c
    ensures Inv(StartRxRing(d, rx)) && StartRxRing(d, rx).c == d.c
  {
  }

  lemma {:induction false} ResetInv(d: Deuna)
    requires Inv(d)
    ensures Inv(Reset(d))
  {
  }

  lemma {:induction false} SetRunningInv(d: Deuna, run: bool, rd: Reads)
    requires Inv(d) && (run ==> d.c.ringValid)
    ensures Inv(SetRunning(d, run, rd)) && SetRunning(d, run, rd).c.running == run
    ensures SetRunning(d, run, rd).c.ringValid == d.c.ringValid
  {
    if run && !d.c.running {
      var s := d.(timer := if d.timer == Closed then Open else d.timer,
                  c := d.c.(running := true, port := PortRun), tx := d.tx.(index := 0), rx := d.rx.(index := 0));
      StartRingsInv(s, rd.tx, rd.rx);
      StartRingsInv(StartTxRing(s, rd.tx), rd.tx, rd.rx);
    }
  }

  lemma {:induction false} ExecuteInv(d: Deuna, f: Function)
    requires Inv(d)
    ensures Inv(Execute(d, f).d)
  {
  }

  lemma {:induction false} SameRings(d: Deuna, s: Deuna)
    requires Inv(d) && !d.c.running && s == d.(c := s.c)
    requires !s.c.running && s.c.port != PortRun && s.c.ringValid == d.c.ringValid && s.c.pcbbValid == d.c.pcbbValid
    ensures Inv(s)
  {
  }

  lemma {:induction false} HaltInv(d: Deuna, rd: Reads)
    requires Inv(d)
    ensures Inv(OnCommand(d, Halt, rd).d)
  {
    SetRunningInv(d, false, rd);
    var s := SetRunning(d, false, rd);
    SameRings(s, s.(c := s.c.(port := PortHalted)));
  }

  lemma {:induction false} StartInv(d: Deuna, rd: Reads)
    requires Inv(d)
    ensures Inv(OnStart(d, rd).d)
  {
    if d.c.ringValid {
      SetRunningInv(d, true, rd);
    }
  }

  lemma {:induction false} CommandInv(d: Deuna, cmd: Command, rd: Reads)
    requires Inv(d)
    ensures Inv(OnCommand(d, cmd, rd).d)
  {
    match cmd {
      case Noop =>
      case GetPcbb =>
      case GetCmd(f) => ExecuteInv(d, f);
      case SelfTest => ResetInv(d);
      case Start => StartInv(d, rd);
      case Boot =>
      case Pdmd => PdmdInv(d);
      case Halt => HaltInv(d, rd);
      case Stop => SetRunningInv(d, false, rd);
      case Reserved =>
    }
  }

  lemma {:induction false} PdmdInv(d: Deuna)
    requires Inv(d)
    ensures Inv(OnPdmd(d).d)
  {
    if d.c.running {
      var s := if d.rx.state == RxPoll then d.(rx := d.rx.(state := RxIdle), timer := Cancel(d.timer)) else d;
      StartRingsInv(s, s.tx.curPC, s.rx.curPC);
      StartRingsInv(StartTxRing(s, s.tx.curPC), s.tx.curPC, s.rx.curPC);
    }
  }

  lemma {:induction false} ActionInv(d: Deuna, cur: Dsc, irc: nat)
    requires Inv(d)
    ensures Inv(CallAction(d, cur, irc))
  {
  }

  lemma {:induction false} TimerInv(d: Deuna, count: nat, cur: Dsc)
    requires Inv(d)
    ensures Inv(OnTimer(d, count, cur))
  {
  }

  lemma {:induction false} ReceiveInv(d: Deuna, f: Frame, lost: bool, cur: Dsc)
    requires Inv(d)
    ensures Inv(Receive(d, f, lost, cur))
  {
  }

  lemma {:induction false} StepInv(d: Deuna, e: Event)
    requires Inv(d)
    ensures Inv(Step(d, e))
  {
    match e {
      case Attn(pc, rset, brst, cmd, rd) =>
        ResetInv(Attended(d, pc));
        CommandInv(Attended(d, pc), cmd, rd);
      case Act(cur, irc) => ActionInv(d, cur, irc);
      case Tick(count, cur) => TimerInv(d, count, cur);
      case Arrive(f, lost, cur) => ReceiveInv(d, f, lost, cur);
      case Queue(id) =>
    }
  }

  /** Over all interleavings of commands, actions, timer and reception: running iff in state RUN;
      a ring that is not idle runs, and running rings are valid, with at least two entries each;
      a busy ring has its handler queued; a polling ring has its timer armed. */
  lemma {:induction false} Reachable(d: Deuna, events: seq<Event>)
    requires Inv(d)
    ensures Inv(Run(d, events))
    decreases |events|
  {
    if events != [] {
      StepInv(d, events[0]);
      Reachable(Step(d, events[0]), events[1..]);
    }
  }

  lemma {:induction false} InitialInv(delua: bool, limit: nat, events: seq<Event>)
    ensures Inv(Run(Initial(delua, limit), events))
  {
    Reachable(Initial(delua, limit), events);
  }

  /** A receive handler that finds the ring busy finds an owned descriptor, too: only a handler
      left over from an earlier start can find none. */
  lemma {:induction false} RxBusyOwned(delua: bool, limit: nat, events: seq<Event>)
    ensures var d := Run(Initial(delua, limit), events);
            d.rx.state == RxBusy ==> d.rx.cur.own && d.rx.queue != []
  {
    InitialInv(delua, limit, events);
  }

  /** START is executed and starts the rings. */
  predicate Starts(d: Deuna, e: Event) {
    e.Attn? && !e.rset && !e.brst && e.cmd == Start && d.c.port == PortReady && d.c.ringValid
  }

  /** The transmit ring, however, becomes busy without an owned descriptor in exactly one way: by a
      START that finds descriptor 0 not owned while the one left from an earlier attention was. */
  lemma {:induction false} TxBusyUnowned(d: Deuna, e: Event)
    requires Inv(d) && (d.tx.state == TxBusy ==> d.tx.cur.own)
    ensures var s := Step(d, e);
            (s.tx.state == TxBusy && !s.tx.cur.own) <==> (Starts(d, e) && d.tx.curPC.own && !e.rd.tx.own)
  {
    match e {
      case Attn(pc, rset, brst, cmd, rd) =>
        if !rset && !brst {
          CommandUnowned(Attended(d, pc), cmd, rd);
        }
      case Act(cur, irc) =>
      case Tick(count, cur) =>
      case Arrive(f, lost, cur) =>
      case Queue(id) =>
    }
  }

  lemma {:induction false} CommandUnowned(d: Deuna, cmd: Command, rd: Reads)
    requires Inv(d) && (d.tx.state == TxBusy ==> d.tx.cur.own)
    ensures var s := OnCommand(d, cmd, rd).d;
            (s.tx.state == TxBusy && !s.tx.cur.own) <==>
              (cmd == Start && d.c.port == PortReady && d.c.ringValid && d.tx.curPC.own && !rd.tx.own)
  {
    match cmd {
      case Noop =>
      case GetPcbb =>
      case GetCmd(f) => assert Execute(d, f).d.tx.state == d.tx.state && Execute(d, f).d.tx.cur == d.tx.cur;
      case SelfTest =>
      case Start =>
      case Boot =>
      case Pdmd =>
      case Halt =>
      case Stop =>
      case Reserved =>
    }
  }

  /** It happens: an attention for STOP finds an owned descriptor, and the next START does not. */
  lemma {:induction false} TxBusyUnownedRun(none: Reads, seen: Reads, now: Reads)
    requires !none.tx.own && !none.rx.own && seen.tx.own && !now.tx.own
    ensures var events := [Attn(none, false, false, GetPcbb, none),
                           Attn(none, false, false, GetCmd(WriteRing(true, 2, 2)), none),
                           Attn(none, false, false, Start, none),
                           Attn(seen, false, false, Stop, none),
                           Attn(none, false, false, Start, now)];
            var d := Run(Initial(false, 10), events);
            d.tx.state == TxBusy && !d.tx.cur.own
  {
    var e0, e1 := Attn(none, false, false, GetPcbb, none), Attn(none, false, false, GetCmd(WriteRing(true, 2, 2)), none);
    var e2, e3 := Attn(none, false, false, Start, none), Attn(seen, false, false, Stop, none);
    var e4 := Attn(none, false, false, Start, now);
    var d2 := RingsSet(none);
    RunTwice(Initial(false, 10), e0, e1, [e2, e3, e4]);
    var d3 := Step(d2, e2);
    assert d3.c.running && d3.c.pcbbValid && d3.c.ringValid;
    RunTwice(d2, e2, e3, [e4]);
    var d4 := Step(d3, e3);
    assert d4.c.port == PortReady && d4.c.ringValid && d4.tx.curPC.own && d4.tx.state == TxIdle;
    assert [e4][1..] == [];
    assert Run(d4, [e4]) == Run(Step(d4, e4), []);
  }

  lemma {:induction false} RunTwice(d: Deuna, e: Event, e': Event, rest: seq<Event>)
    ensures Run(d, [e, e'] + rest) == Run(Step(Step(d, e), e'), rest)
  {
    assert ([e, e'] + rest)[1..] == [e'] + rest && ([e'] + rest)[1..] == rest;
  }

  /** The initial controller after GETPCBB and a ring format. */
  function RingsSet(pc: Reads): Deuna {
    Step(Step(Initial(false, 10), Attn(pc, false, false, GetPcbb, pc)),
         Attn(pc, false, false, GetCmd(WriteRing(true, 2, 2)), pc))
  }

  /** The ring indices are inside the rings as long as no ring format cuts a running ring shorter. */
  predicate IndexInv(d: Deuna) {
    d.c.running ==> d.tx.index < d.tx.size && d.rx.index < d.rx.size
  }

  /** A ring format accepted while running, with a ring not reaching beyond its index. */
  predicate Cuts(d: Deuna, f: Function) {
    && d.c.running && f.WriteRing? && f.valid && f.txSize > 1 && f.rxSize > 1
    && (f.txSize <= d.tx.index || f.rxSize <= d.rx.index)
  }

  predicate CutsRing(d: Deuna, e: Event) {
    e.Attn? && !e.rset && !e.brst && e.cmd.GetCmd? && Cuts(d, e.cmd.f)
  }

  lemma {:induction false} NextInside(index: nat, size: nat)
    requires index < size < WORD
    ensures RingIndexNext(index, size, 1) < size
  {
    RingIndexModulo(index, size, 1);
  }

  lemma {:induction false} IndexKeptIff(d: Deuna, e: Event)
    requires Inv(d) && IndexInv(d)
    ensures IndexInv(Step(d, e)) <==> !CutsRing(d, e)
  {
    if d.c.running {
      NextInside(d.tx.index, d.tx.size);
      NextInside(d.rx.index, d.rx.size);
    }
    match e {
      case Attn(pc, rset, brst, cmd, rd) =>
        if !rset && !brst {
          CommandIndex(Attended(d, pc), cmd, rd);
        }
      case Act(cur, irc) =>
      case Tick(count, cur) =>
      case Arrive(f, lost, cur) =>
      case Queue(id) =>
    }
  }

  lemma {:induction false} CommandIndex(d: Deuna, cmd: Command, rd: Reads)
    requires Inv(d) && IndexInv(d)
    ensures IndexInv(OnCommand(d, cmd, rd).d) <==> !(cmd.GetCmd? && Cuts(d, cmd.f))
  {
    match cmd {
      case Noop =>
      case GetPcbb =>
      case GetCmd(f) => FunctionIndex(d, f);
      case SelfTest =>
      case Start =>
      case Boot =>
      case Pdmd => PdmdIndex(d);
      case Halt => assert !OnCommand(d, Halt, rd).d.c.running || OnCommand(d, Halt, rd).d == d;
      case Stop =>
      case Reserved =>
    }
  }

  lemma {:induction false} PdmdIndex(d: Deuna)
    requires IndexInv(d)
    ensures IndexInv(OnPdmd(d).d)
  {
  }

  lemma {:induction false} FunctionIndex(d: Deuna, f: Function)
    requires Inv(d) && IndexInv(d)
    ensures IndexInv(Execute(d, f).d) <==> !Cuts(d, f)
  {
    match f {
      case WriteRing(_, _, _) =>
      case WriteAddress(_) =>
      case WriteMulticast(_, _) =>
      case WriteMode(_, _) =>
      case Func(_) =>
    }
  }

  // ------------------------------------------------------------- after a reset

  /** No attention writes a valid ring format. */
  ghost predicate NoFormat(events: seq<Event>) {
    forall k :: 0 <= k < |events| && events[k].Attn? ==>
      !(events[k].cmd.GetCmd? && events[k].cmd.f.WriteRing? && events[k].cmd.f.valid)
  }

  /** Stopped and without ring format. */
  predicate Down(d: Deuna) {
    !d.c.running && !d.c.ringValid && d.tx.state == TxIdle && d.rx.state == RxIdle
  }

  lemma {:induction false} StepDown(d: Deuna, e: Event)
    requires Down(d) && NoFormat([e])
    ensures var s := Step(d, e);
            Down(s) && s.rx.queue == d.rx.queue && s.counts.accepted == d.counts.accepted
              && s.counts.taken == d.counts.taken
  {
    assert [e][0] == e;
    match e {
      case Attn(pc, rset, brst, cmd, rd) =>
        if !rset && !brst {
          CommandDown(Attended(d, pc), cmd, rd);
        }
      case Act(cur, irc) =>
      case Tick(count, cur) =>
      case Arrive(f, lost, cur) =>
      case Queue(id) =>
    }
  }

  lemma {:induction false} CommandDown(d: Deuna, cmd: Command, rd: Reads)
    requires Down(d) && !(cmd.GetCmd? && cmd.f.WriteRing? && cmd.f.valid)
    ensures var s := OnCommand(d, cmd, rd).d; Down(s) && s.rx.queue == d.rx.queue && s.counts == d.counts
  {
  }

  /** From a reset on, until a ring format is written, nothing makes the controller run: handlers
      left in the action list find nothing to do, no frame is accepted and none is taken. */
  lemma {:induction false} QuietAfterReset(d: Deuna, events: seq<Event>)
    requires Down(d) && NoFormat(events)
    ensures var s := Run(d, events);
            Down(s) && s.rx.queue == d.rx.queue && s.counts.accepted == d.counts.accepted
              && s.counts.taken == d.counts.taken
    decreases |events|
  {
    if events != [] {
      assert [events[0]][0] == events[0];
      StepDown(d, events[0]);
      assert forall k :: 0 <= k < |events[1..]| ==> events[1..][k] == events[k + 1];
      QuietAfterReset(Step(d, events[0]), events[1..]);
    }
  }

  /** A reset begins such a time. */
  lemma {:induction false} ResetIsQuiet(d: Deuna, pc: Reads, rset: bool, brst: bool, cmd: Command, rd: Reads,
                                        events: seq<Event>)
    requires (rset || brst) && NoFormat(events)
    ensures var s := Run(d, [Attn(pc, rset, brst, cmd, rd)] + events);
            Down(s) && s.rx.queue == d.rx.queue && s.counts.accepted == d.counts.accepted
              && s.counts.taken == d.counts.taken
  {
    var e := Attn(pc, rset, brst, cmd, rd);
    assert ([e] + events)[1..] == events;
    QuietAfterReset(Step(d, e), events);
  }

  // ------------------------------------------------------------- stalled reception

  /** Running with frames queued, but the receive ring idle: nothing is under way to deliver them. */
  predicate Stalled(d: Deuna) {
    d.c.running && d.rx.state == RxIdle && d.rx.queue != []
  }

  /** What makes reception stall: a frame accepted by the idle ring while the transmit ring is busy
      or without a free descriptor; a poll that expires without one; a receive handler left over
      from an earlier start, called during a poll; a start with frames queued and no descriptor; a
      poll demand during a poll without one. */
  predicate Stalls(d: Deuna, e: Event) {
    match e
    case Arrive(f, lost, cur) => Accepts(d, f, lost) && d.rx.state == RxIdle && (d.tx.state != TxIdle || !cur.own)
    case Tick(count, cur) => d.rx.state == RxPoll && count > 0 && !cur.own
    case Act(_, _) => d.rx.state == RxPoll && d.actions != [] && d.actions[0] == RxHandler
    case Attn(pc, _, _, cmd, rd) =>
      || (Starts(d, e) && d.rx.queue != [] && !rd.rx.own)
      || (Demands(d, e) && d.rx.state == RxPoll && !pc.rx.own)
    case Queue(_) => false
  }

  /** A poll demand while running. */
  predicate Demands(d: Deuna, e: Event) {
    e.Attn? && !e.rset && !e.brst && e.cmd == Pdmd && d.c.running
  }

  /** What ends it: a frame accepted while the transmit ring idles and a descriptor is free, a poll
      demand that finds one, a left-over handler with one at hand and frames left behind it or none,
      a stop, a halt or a reset. */
  predicate Resumes(d: Deuna, e: Event) {
    match e
    case Arrive(f, lost, cur) => Accepts(d, f, lost) && d.tx.state == TxIdle && cur.own
    case Tick(_, _) => false
    case Act(next, _) => d.actions != [] && d.actions[0] == RxHandler && d.rx.cur.own
    case Attn(pc, rset, brst, cmd, _) => (Demands(d, e) && pc.rx.own) || !RunsAfter(d.c, rset || brst, cmd)
    case Queue(_) => false
  }

  lemma {:induction false} CommandStalls(d: Deuna, cmd: Command, rd: Reads)
    requires Inv(d)
    ensures var s := OnCommand(d, cmd, rd).d;
            Stalled(s) <==>
              if cmd == Pdmd && d.c.running then
                d.rx.state != RxBusy && d.rx.queue != [] && !d.rx.curPC.own
              else if cmd == Start && !d.c.running then
                d.c.port == PortReady && d.c.ringValid && d.rx.queue != [] && !rd.rx.own
              else Stalled(d) && RunsAfter(d.c, false, cmd)
  {
    match cmd {
      case Noop =>
      case GetPcbb =>
      case GetCmd(f) => FunctionStalls(d, f);
      case SelfTest =>
      case Start =>
      case Boot =>
      case Pdmd =>
      case Halt =>
      case Stop =>
      case Reserved =>
    }
  }

  lemma {:induction false} FunctionStalls(d: Deuna, f: Function)
    ensures Stalled(Execute(d, f).d) <==> Stalled(d)
  {
  }

  lemma {:induction false} AttentionStalls(d: Deuna, e: Event)
    requires Inv(d) && e.Attn?
    ensures Stalled(Step(d, e)) <==> if Stalled(d) then !Resumes(d, e) else Stalls(d, e)
  {
    if !e.rset && !e.brst {
      CommandStalls(Attended(d, e.pc), e.cmd, e.rd);
    }
  }

  /** When reception stalls and when it resumes, over all events: exactly in the cases above. In
      particular neither the end of the transmit ring's work nor a descriptor given back by the
      driver, which is no event for the controller, resumes it. */
  lemma {:induction false} StalledIff(d: Deuna, e: Event)
    requires Inv(d)
    ensures Stalled(Step(d, e)) <==> if Stalled(d) then !Resumes(d, e) else Stalls(d, e)
  {
    match e {
      case Attn(pc, rset, brst, cmd, rd) => AttentionStalls(d, e);
      case Act(cur, irc) =>
      case Tick(count, cur) =>
      case Arrive(f, lost, cur) =>
      case Queue(id) =>
    }
  }

  /** It happens even with a free descriptor: a frame that comes while the transmit ring works waits
      on after that work is done, with no handler queued. */
  lemma {:induction false} FrameStranded(d: Deuna, f: Frame, rx: Dsc, next: Dsc)
    requires d.tx.state == TxBusy && d.tx.cur.own && d.actions == [TxHandler] && d.rx.state == RxIdle
    requires Accepts(d, f, false) && !next.own
    ensures var s := Run(d, [Arrive(f, false, rx), Act(next, 0)]);
            Stalled(s) && s.tx.state == TxIdle && s.actions == []
  {
    var e, e' := Arrive(f, false, rx), Act(next, 0);
    var s := Step(d, e);
    assert s.rx.queue == d.rx.queue + [f] && s.actions == [TxHandler] && s.tx == d.tx && s.rx.state == RxIdle;
    assert [e, e'] + [] == [e, e'];
    RunTwice(d, e, e', []);
  }

  /** Such a state is reached by a start and a poll demand that finds a frame to transmit. */
  lemma {:induction false} TransmitRun(none: Reads, tx: Reads)
    requires !none.tx.own && !none.rx.own && tx.tx.own
    ensures var d := Run(Initial(false, 10), [Attn(none, false, false, GetPcbb, none),
                           Attn(none, false, false, GetCmd(WriteRing(true, 2, 2)), none),
                           Attn(none, false, false, Start, none), Attn(tx, false, false, Pdmd, none)]);
            && d.tx.state == TxBusy && d.tx.cur.own && d.actions == [TxHandler] && d.rx.state == RxIdle
            && forall f: Frame :: f.mac == MAC_BROADCAST ==> Accepts(d, f, false)
  {
    var e0, e1 := Attn(none, false, false, GetPcbb, none), Attn(none, false, false, GetCmd(WriteRing(true, 2, 2)), none);
    var e2, e3 := Attn(none, false, false, Start, none), Attn(tx, false, false, Pdmd, none);
    var d2 := RingsSet(none);
    RunTwice(Initial(false, 10), e0, e1, [e2, e3]);
    assert [e2, e3] + [] == [e2, e3];
    RunTwice(d2, e2, e3, []);
    var d3 := Step(d2, e2);
    assert d3.c.running && d3.c.pcbbValid && d3.actions == [] && d3.macs == [MAC_DEFAULT, MAC_BROADCAST];
  }

  /** A poll that expires ends polling: the ring works if a descriptor has become free, and else
      it is idle with frames queued, no handler more and the timer not armed. */
  lemma {:induction false} PollsOnce(d: Deuna, count: nat, cur: Dsc)
    requires Inv(d) && d.rx.state == RxPoll && count > 0
    ensures var s := OnTimer(d, count, cur);
            && s.timer == Open && s.rx.queue == d.rx.queue != []
            && (if cur.own then s.rx.state == RxBusy && s.actions == d.actions + [RxHandler]
                else Stalled(s) && s.actions == d.actions)
  {
  }

  // ------------------------------------------------------------- answers to commands

  /** Does the controller run after an attention. */
  predicate RunsAfter(c: Control, reset: bool, cmd: Command) {
    if reset || cmd == SelfTest || cmd == Stop then false
    else if cmd == Start then c.running || (c.port == PortReady && c.ringValid)
    else c.running && !(cmd == Halt && c.delua)
  }

  lemma {:induction false} AttentionRuns(d: Deuna, pc: Reads, rset: bool, brst: bool, cmd: Command, rd: Reads)
    requires Inv(d)
    ensures Attention(d, pc, rset, brst, cmd, rd).d.c.running == RunsAfter(d.c, rset || brst, cmd)
  {
  }

  /** Every command is answered by done or by error, not both, but NOOP, which the hardware
      answers, and SELFTST, whose done flag is never written. */
  lemma {:induction false} Completion(d: Deuna, cmd: Command, rd: Reads)
    ensures var a := OnCommand(d, cmd, rd).status;
            if cmd.Noop? || cmd.SelfTest? then a == NotWritten else a == DNI || a == PCEI
  {
  }

  /** START is answered by done exactly when the controller runs afterwards; STOP ends in not
      running and is answered by error even so. */
  lemma {:induction false} StartStopAnswers(d: Deuna, rd: Reads)
    requires Inv(d)
    ensures var a := OnCommand(d, Start, rd); a.status == DNI <==> a.d.c.running
    ensures var a := OnCommand(d, Stop, rd); a.status == PCEI && !a.d.c.running
  {
    if d.c.ringValid {
      SetRunningInv(d, true, rd);
    }
    SetRunningInv(d, false, rd);
  }

  /** The answer to an attention: nothing for NOOP and SELFTST, reset done, error, or done. */
  function AnswerTo(d: Deuna, rset: bool, brst: bool, cmd: Command): Status {
    if rset || brst then Written(rset, false)
    else if cmd == Noop || cmd == SelfTest then NotWritten
    else if cmd == Boot || cmd == Stop || (cmd == Start && !RunsAfter(d.c, false, Start))
         || (cmd.GetCmd? && !Execute(d, cmd.f).ok) then PCEI
    else DNI
  }

  /** What START makes of the first transmit descriptor: it is taken over, but whether a frame is
      pending is decided by the descriptor left from the last attention while running. */
  lemma {:induction false} StartNotices(d: Deuna, rd: Reads)
    requires Inv(d) && !d.c.running && d.c.ringValid
    ensures var s := SetRunning(d, true, rd);
            (s.tx.state == TxBusy <==> d.tx.curPC.own) && s.tx.cur == rd.tx && s.tx.index == 0
  {
  }

  /** So a frame handed over before the first START waits: after a port control block, a ring
      format and START the ring is idle, though its first descriptor is owned. */
  lemma {:induction false} StartMissesFrame(pc: Reads, len: nat, rx: Dsc)
    ensures var events := [Attn(pc, false, false, GetPcbb, pc),
                           Attn(pc, false, false, GetCmd(WriteRing(true, 2, 2)), pc),
                           Attn(pc, false, false, Start, Reads(Dsc(len, true), rx))];
            var d := Run(Initial(false, 10), events);
            d.c.running && d.tx.cur.own && d.tx.state == TxIdle && d.actions == []
  {
    var d0 := Initial(false, 10);
    var e0, e1 := Attn(pc, false, false, GetPcbb, pc), Attn(pc, false, false, GetCmd(WriteRing(true, 2, 2)), pc);
    var e2 := Attn(pc, false, false, Start, Reads(Dsc(len, true), rx));
    var d1 := Step(d0, e0);
    var d2 := Step(d1, e1);
    assert d2.c.ringValid && !d2.c.running && d2.tx.curPC == NO_DSC && d2.rx.queue == [];
    var d3 := Step(d2, e2);
    assert [e0, e1, e2][1..] == [e1, e2] && [e1, e2][1..] == [e2] && [e2][1..] == [];
    assert Run(d2, [e2]) == Run(d3, []) == d3;
    assert Run(d1, [e1, e2]) == Run(d2, [e2]);
  }

  /** PDMD has no such gap: test and descriptor are the same. */
  lemma {:induction false} PdmdNotices(d: Deuna)
    requires Inv(d) && d.c.running && d.tx.state == TxIdle
    ensures OnPdmd(d).d.tx.state == TxBusy <==> d.tx.curPC.own
    ensures OnPdmd(d).d.tx.cur == d.tx.curPC
  {
  }

  // ------------------------------------------------------------- conservation of frames

  /** Every frame seen is dropped for one counted reason, taken, or in the queue; the queue holds
      the accepted frames not taken yet, in order, and keeps its limit. */
  ghost predicate FramesInv(d: Deuna) {
    var n := d.counts;
    && n.seen == Drops(n) + |n.accepted|
    && n.accepted == n.taken + d.rx.queue
    && |d.rx.queue| <= d.rx.limit
    && n.unicastDrop == 0
  }

  lemma {:induction false} StartsKeepFrames(d: Deuna, rd: Reads, run: bool)
    ensures var s := SetRunning(d, run, rd); s.counts == d.counts && s.rx.queue == d.rx.queue && s.rx.limit == d.rx.limit
    ensures var s := StartRxRing(StartTxRing(d, rd.tx), rd.rx);
            s.counts == d.counts && s.rx.queue == d.rx.queue && s.rx.limit == d.rx.limit
  {
  }

  lemma {:induction false} CommandKeepsFrames(d: Deuna, cmd: Command, rd: Reads)
    ensures var s := OnCommand(d, cmd, rd).d; s.counts == d.counts && s.rx.queue == d.rx.queue && s.rx.limit == d.rx.limit
  {
    StartsKeepFrames(d, rd, true);
    StartsKeepFrames(d, rd, false);
    if cmd.Pdmd? && d.c.running {
      var s := if d.rx.state == RxPoll then d.(rx := d.rx.(state := RxIdle), timer := Cancel(d.timer)) else d;
      StartsKeepFrames(s, Reads(s.tx.curPC, s.rx.curPC), true);
    }
  }

  lemma {:induction false} HandlerKeepsFrames(d: Deuna, cur: Dsc, irc: nat)
    requires FramesInv(d)
    ensures FramesInv(CallAction(d, cur, irc)) && CallAction(d, cur, irc).rx.limit == d.rx.limit
  {
    if d.rx.queue != [] {
      var q := d.rx.queue;
      assert d.counts.taken + q == d.counts.taken + [q[0]] + q[1..];
    }
  }

  lemma {:induction false} ReceiveKeepsFrames(d: Deuna, f: Frame, lost: bool, cur: Dsc)
    requires FramesInv(d)
    ensures FramesInv(Receive(d, f, lost, cur)) && Receive(d, f, lost, cur).rx.limit == d.rx.limit
  {
    assert d.counts.taken + d.rx.queue + [f] == d.counts.taken + (d.rx.queue + [f]);
  }

  lemma {:induction false} StepKeepsFrames(d: Deuna, e: Event)
    requires FramesInv(d)
    ensures FramesInv(Step(d, e)) && Step(d, e).rx.limit == d.rx.limit
  {
    match e {
      case Attn(pc, rset, brst, cmd, rd) =>
        CommandKeepsFrames(Attended(d, pc), cmd, rd);
      case Act(cur, irc) => HandlerKeepsFrames(d, cur, irc);
      case Tick(count, cur) =>
      case Arrive(f, lost, cur) => ReceiveKeepsFrames(d, f, lost, cur);
      case Queue(id) =>
    }
  }

  /** A frame the filter drops is counted as multicast, whatever its address: the counter of
      unicast drops stays zero over all interleavings. */
  lemma {:induction false} UnicastDropsNotCounted(delua: bool, limit: nat, events: seq<Event>, f: Frame, cur: Dsc)
    ensures var d := Run(Initial(delua, limit), events);
            && d.counts.unicastDrop == 0
            && (d.c.running && !d.c.promiscuous && f.mac !in d.macs && f.etype == ETYPE_IP ==>
                  Receive(d, f, false, cur).counts.multicastDrop == d.counts.multicastDrop + 1)
  {
    FramesConserved(delua, limit, events);
  }

  /** Over all interleavings no frame is lost uncounted, duplicated or reordered. */
  lemma {:induction false} FramesConserved(delua: bool, limit: nat, events: seq<Event>)
    ensures FramesInv(Run(Initial(delua, limit), events))
    ensures Run(Initial(delua, limit), events).rx.limit == limit
  {
    RunKeepsFrames(Initial(delua, limit), events);
  }

  lemma {:induction false} RunKeepsFrames(d: Deuna, events: seq<Event>)
    requires FramesInv(d)
    ensures FramesInv(Run(d, events)) && Run(d, events).rx.limit == d.rx.limit
    decreases |events|
  {
    if events != [] {
      StepKeepsFrames(d, events[0]);
      RunKeepsFrames(Step(d, events[0]), events[1..]);
    }
  }

  // ------------------------------------------------------------- what each operation is for

  /** What holds between the operations. */
  ghost predicate Consistent(d: Deuna) {
    Inv(d) && FramesInv(d)
  }

  /** A reset stops everything, makes START impossible, and leaves frames and handlers alone. */
  ghost predicate IsReset(d: Deuna, s: Deuna) {
    && s.c == d.c.(running := false, pcbbValid := false, ringValid := false, pcto := false, port := PortReady)
    && s.tx == d.tx.(state := TxIdle, size := 0, index := 0)
    && s.rx == d.rx.(state := RxIdle, size := 0, index := 0)
    && s.counts == d.counts && s.actions == d.actions
    && s.timer == (if d.rx.state == RxPoll && d.timer == Armed then Open else d.timer)
    && |s.macs| == 2 && s.macs[0] == 0x08002B000000 && s.macs[1] == d.macs[1]
  }

  lemma {:induction false} ResetResets(d: Deuna)
    requires Consistent(d)
    ensures Consistent(Reset(d)) && IsReset(d, Reset(d))
  {
    ResetInv(d);
  }

  /** Started rings are at slot 0, with a handler more for each ring that has something to do;
      stopped rings are idle. Frames stay where they are. */
  ghost predicate IsRun(d: Deuna, s: Deuna, run: bool, rd: Reads) {
    && s.counts == d.counts && s.macs == d.macs
    && (run && !d.c.running ==>
         var sends, takes := d.tx.curPC.own, d.rx.queue != [] && rd.rx.own;
         && s.c == d.c.(running := true, port := PortRun)
         && s.tx == d.tx.(index := 0, cur := rd.tx, state := if sends then TxBusy else TxIdle)
         && s.rx == d.rx.(index := 0, cur := rd.rx, state := if takes then RxBusy else RxIdle)
         && s.actions == d.actions + (if sends then [TxHandler] else []) + (if takes then [RxHandler] else [])
         && s.timer == (if d.timer == Closed then Open else d.timer))
    && (!run && d.c.running ==>
         && s.c == d.c.(running := false, port := PortReady)
         && s.tx == d.tx.(state := TxIdle) && s.rx == d.rx.(state := RxIdle) && s.actions == d.actions
         && s.timer == (if d.rx.state == RxPoll && d.timer == Armed then Open else d.timer))
    && (run == d.c.running ==> s == d)
  }

  lemma {:induction false} RunRuns(d: Deuna, run: bool, rd: Reads)
    requires Consistent(d) && (run ==> d.c.ringValid)
    ensures Consistent(SetRunning(d, run, rd)) && IsRun(d, SetRunning(d, run, rd), run, rd)
  {
    SetRunningInv(d, run, rd);
    StartsKeepFrames(d, rd, run);
  }

  /** A function succeeds, with what it writes in force and all else as it was, or changes nothing but
      a failed multicast list; without a port control block it fails with a timeout noted. */
  ghost predicate IsFunction(d: Deuna, s: Deuna, f: Function, ok: bool) {
    && (!d.c.pcbbValid ==> !ok && s == d.(c := d.c.(pcto := true)))
    && (d.c.pcbbValid && f.WriteRing? ==>
         && (ok <==> f.valid && f.txSize >= 2 && f.rxSize >= 2)
         && s == if ok then d.(c := d.c.(ringValid := true), tx := d.tx.(size := f.txSize), rx := d.rx.(size := f.rxSize))
                 else d)
    && (d.c.pcbbValid && f.WriteAddress? ==>
         && (ok <==> f.mac % 2 == 0)
         && (if ok then s == d.(macs := s.macs) && s.macs == [f.mac] + d.macs[1..] else s == d))
    && (d.c.pcbbValid && f.WriteMode? ==>
         && (ok <==> f.valid)
         && s == d.(c := d.c.(promiscuous := if ok then f.promiscuous else d.c.promiscuous)))
    && (d.c.pcbbValid && f.Func? ==> s == d && ok == f.ok)
    && (d.c.pcbbValid && f.WriteMulticast? ==>
         && (ok <==> f.valid && |f.macs| <= 10 && forall k :: 0 <= k < |f.macs| ==> f.macs[k] % 2 == 1)
         && s == d.(macs := s.macs)
         && s.macs == if ok then d.macs[..2] + f.macs
                      else if f.valid && |f.macs| <= 10 then d.macs[..2] else d.macs)
  }

  lemma {:induction false} FunctionWorks(d: Deuna, f: Function)
    requires Consistent(d)
    ensures Consistent(Execute(d, f).d) && IsFunction(d, Execute(d, f).d, f, Execute(d, f).ok)
  {
    CommandInv(d, GetCmd(f), Reads(NO_DSC, NO_DSC));
    CommandKeepsFrames(d, GetCmd(f), Reads(NO_DSC, NO_DSC));
  }

  /** A poll demand looks at the idle rings, a polling one counting as idle, with the descriptors of
      the attention: a ring works from then on if it worked before or has something to do. */
  ghost predicate IsDemand(d: Deuna, s: Deuna) {
    var sends := d.tx.state == TxIdle && d.tx.curPC.own;
    var takes := d.rx.state != RxBusy && d.rx.queue != [] && d.rx.curPC.own;
    && s.c == d.c && s.macs == d.macs && s.counts == d.counts
    && s.tx == (if d.tx.state == TxBusy then d.tx
                else d.tx.(cur := d.tx.curPC, state := if sends then TxBusy else TxIdle))
    && s.rx == (if d.rx.state == RxBusy then d.rx
                else d.rx.(cur := d.rx.curPC, state := if takes then RxBusy else RxIdle))
    && s.actions == d.actions + (if sends then [TxHandler] else []) + (if takes then [RxHandler] else [])
    && s.timer == (if d.rx.state == RxPoll then Open else d.timer)
  }

  /** A HALT stops a running controller as STOP does, and leaves the port in the halted state. */
  ghost predicate IsHalt(d: Deuna, s: Deuna, rd: Reads) {
    && s.c.port == PortHalted
    && IsRun(d, s.(c := s.c.(port := if d.c.running then PortReady else d.c.port)), false, rd)
  }

  /** What each command does. */
  ghost predicate IsCommand(d: Deuna, s: Deuna, cmd: Command, rd: Reads, status: Status) {
    match cmd
    case Noop => s == d
    case GetPcbb => s == d.(c := d.c.(pcbbValid := true))
    case GetCmd(f) => IsFunction(d, s, f, status == DNI)
    case SelfTest => IsReset(d, s)
    case Start => if d.c.port == PortReady && d.c.ringValid then IsRun(d, s, true, rd) else s == d
    case Boot => s == d
    case Pdmd => if d.c.running then IsDemand(d, s) else s == d
    case Halt => if d.c.delua then IsHalt(d, s, rd) else s == d
    case Stop => if d.c.running then IsRun(d, s, false, rd) else s == d
    case Reserved => s == d
  }

  /** An attention clears the timeout, takes over the descriptors read with it while running, resets or
      does its command, and is answered. */
  ghost predicate IsAttention(d: Deuna, s: Deuna, pc: Reads, rset: bool, brst: bool, cmd: Command, rd: Reads,
                              status: Status) {
    var t := d.(c := d.c.(pcto := false), tx := d.tx.(curPC := if d.c.running then pc.tx else d.tx.curPC),
                rx := d.rx.(curPC := if d.c.running then pc.rx else d.rx.curPC));
    && (if rset || brst then IsReset(t, s) else IsCommand(t, s, cmd, rd, status))
    && status == AnswerTo(d, rset, brst, cmd) && s.c.running == RunsAfter(d.c, rset || brst, cmd)
  }

  lemma {:induction false} AttentionAnswers(d: Deuna, pc: Reads, rset: bool, brst: bool, cmd: Command, rd: Reads)
    requires Consistent(d)
    ensures var a := Attention(d, pc, rset, brst, cmd, rd);
            Consistent(a.d) && IsAttention(d, a.d, pc, rset, brst, cmd, rd, a.status)
  {
    hide OnCommand, Reset, IsCommand, IsReset, RunsAfter;
    var t := Attended(d, pc);
    StepInv(d, Attn(pc, rset, brst, cmd, rd));
    StepKeepsFrames(d, Attn(pc, rset, brst, cmd, rd));
    AttentionRuns(d, pc, rset, brst, cmd, rd);
    ResetResets(t);
    if !rset && !brst {
      CommandAnswers(d, t, cmd, rd);
      CommandWorks(t, cmd, rd);
    }
  }

  lemma {:induction false} DemandWorks(d: Deuna)
    requires Consistent(d)
    ensures if d.c.running then IsDemand(d, OnPdmd(d).d) else OnPdmd(d).d == d
  {
  }

  lemma {:induction false} HaltWorks(d: Deuna, rd: Reads)
    requires Consistent(d) && d.c.delua
    ensures IsHalt(d, OnCommand(d, Halt, rd).d, rd)
  {
    RunRuns(d, false, rd);
  }

  lemma {:induction false} StopWorks(d: Deuna, rd: Reads)
    requires Consistent(d)
    ensures d.c.port == PortRun <==> d.c.running
    ensures d.c.running ==> IsRun(d, SetRunning(d, false, rd), false, rd)
  {
    RunRuns(d, false, rd);
  }

  lemma {:induction false} CommandWorks(d: Deuna, cmd: Command, rd: Reads)
    requires Consistent(d)
    ensures var a := OnCommand(d, cmd, rd); IsCommand(d, a.d, cmd, rd, a.status)
  {
    hide SetRunning, Execute, Reset, IsRun, IsFunction, IsReset, IsHalt, IsDemand, OnPdmd, Inv, FramesInv;
    match cmd {
      case Noop =>
      case GetPcbb =>
      case GetCmd(f) => FunctionWorks(d, f);
      case SelfTest => ResetResets(d);
      case Start =>
        if d.c.port == PortReady && d.c.ringValid {
          RunRuns(d, true, rd);
        }
      case Boot =>
      case Pdmd =>
        DemandWorks(d);
      case Halt =>
        if d.c.delua {
          HaltWorks(d, rd);
        }
      case Stop => StopWorks(d, rd);
      case Reserved =>
    }
  }

  lemma {:induction false} CommandAnswers(d: Deuna, t: Deuna, cmd: Command, rd: Reads)
    requires Inv(t) && t.c == d.c.(pcto := false)
    ensures OnCommand(t, cmd, rd).status == AnswerTo(d, false, false, cmd)
  {
    match cmd {
      case Noop =>
      case GetPcbb =>
      case GetCmd(f) => assert Execute(t, f).ok == Execute(d, f).ok;
      case SelfTest =>
      case Start =>
      case Boot =>
      case Pdmd =>
      case Halt =>
      case Stop =>
      case Reserved =>
    }
  }

  // ------------------------------------------------------------- the dead end

  predicate Halted(d: Deuna) {
    d.c.port == PortHalted && !d.c.running && d.tx.state == TxIdle && d.rx.state == RxIdle
  }

  /** What gets the controller out of the halted state. */
  predicate Resets(e: Event) {
    e.Attn? && (e.rset || e.brst || e.cmd == SelfTest)
  }

  /** A HALT of a DELUA, whatever it did before, is answered by done and ends in the halted state. */
  lemma {:induction false} HaltHalts(d: Deuna, pc: Reads, rd: Reads)
    requires Inv(d) && d.c.delua
    ensures var a := Attention(d, pc, false, false, Halt, rd); Halted(a.d) && a.status == Written(true, false)
  {
  }

  /** That is a dead end: over all events only a reset or a SELFTST leaves it, for the ready state. */
  lemma {:induction false} HaltedIff(d: Deuna, e: Event)
    requires Inv(d) && Halted(d)
    ensures Halted(Step(d, e)) <==> !Resets(e)
    ensures Resets(e) ==> Step(d, e).c.port == PortReady
  {
    if e.Attn? && !e.rset && !e.brst {
      HaltedCommand(Attended(d, e.pc), e.cmd, e.rd);
    }
  }

  lemma {:induction false} HaltedCommand(d: Deuna, cmd: Command, rd: Reads)
    requires Halted(d)
    ensures if cmd == SelfTest then OnCommand(d, cmd, rd).d.c.port == PortReady else Halted(OnCommand(d, cmd, rd).d)
  {
  }

  /** So without these a halted controller stays halted and answers every START by an error. */
  lemma {:induction false} DeadEnd(d: Deuna, events: seq<Event>, pc: Reads, rd: Reads)
    requires Inv(d) && Halted(d) && forall k :: 0 <= k < |events| ==> !Resets(events[k])
    ensures var s := Run(d, events);
            Halted(s) && Attention(s, pc, false, false, Start, rd).status == Written(false, true)
    decreases |events|
  {
    if events != [] {
      StepInv(d, events[0]);
      HaltedIff(d, events[0]);
      assert forall k :: 0 <= k < |events[1..]| ==> events[1..][k] == events[k + 1];
      DeadEnd(Step(d, events[0]), events[1..], pc, rd);
    }
  }

  // ------------------------------------------------------------- what each handler is for

  /** A transmit handler handles the current descriptor if it is owned, and goes on, keeping its
      place in the action list, exactly if the next one is owned. */
  ghost predicate IsTxTurn(d: Deuna, s: Deuna, next: Dsc, irc: nat) {
    var sends := d.c.running && d.tx.cur.own;
    && (irc > 0 <==> sends && next.own) && s.tx.state == (if irc > 0 then TxBusy else TxIdle)
    && (if sends then s.tx.cur == next && (d.tx.index < d.tx.size ==> s.tx.index == (d.tx.index + 1) % d.tx.size)
        else s.tx.cur == d.tx.cur && s.tx.index == d.tx.index)
    && s == d.(tx := s.tx) && s.tx.size == d.tx.size && s.tx.curPC == d.tx.curPC
  }

  lemma {:induction false} TxTurn(d: Deuna, next: Dsc)
    requires Consistent(d) && TxHandler in d.actions
    ensures Consistent(TxRun(d, next).d) && IsTxTurn(d, TxRun(d, next).d, next, TxRun(d, next).irc)
  {
    if d.c.running && d.tx.index < d.tx.size {
      RingIndexModulo(d.tx.index, d.tx.size, 1);
    }
  }

  /** A receive handler takes the frame queued first, if there is one and the descriptor is owned;
      then the ring works on, polls or idles, for frames and a descriptor, frames only, or none. */
  ghost predicate IsRxTurn(d: Deuna, s: Deuna, next: Dsc, irc: nat) {
    var takes := d.c.running && d.rx.cur.own && d.rx.queue != [];
    && (if takes then
          && s.rx.queue == d.rx.queue[1..] && s.counts == d.counts.(taken := d.counts.taken + d.rx.queue[..1])
          && s.rx.cur == next
        else s.rx == d.rx.(state := RxIdle) && s.counts == d.counts)
    && s.rx.state == (if !takes || |d.rx.queue| == 1 then RxIdle else if next.own then RxBusy else RxPoll)
    && (irc > 0 <==> s.rx.state == RxBusy) && s.timer == (if s.rx.state == RxPoll then Armed else d.timer)
    && (takes && d.rx.index < d.rx.size ==> s.rx.index == (d.rx.index + 1) % d.rx.size)
    && s.rx.size == d.rx.size && s.rx.limit == d.rx.limit && s.rx.curPC == d.rx.curPC
    && s == d.(rx := s.rx, counts := s.counts, timer := s.timer)
  }

  lemma {:induction false} RxTurn(d: Deuna, next: Dsc)
    requires Consistent(d) && RxHandler in d.actions
    ensures Consistent(RxRun(d, next).d) && IsRxTurn(d, RxRun(d, next).d, next, RxRun(d, next).irc)
  {
    if d.c.running && d.rx.index < d.rx.size {
      RingIndexModulo(d.rx.index, d.rx.size, 1);
    }
    if d.rx.queue != [] {
      var q := d.rx.queue;
      assert d.counts.taken + q == d.counts.taken + [q[0]] + q[1..];
    }
  }

  /** An expired poll ends polling, with a handler queued exactly if a descriptor has become free;
      otherwise nothing changes. */
  ghost predicate IsPollTurn(d: Deuna, s: Deuna, count: nat, cur: Dsc) {
    var due := d.rx.state == RxPoll && count > 0;
    && s.rx == (if due then d.rx.(cur := cur, state := if cur.own then RxBusy else RxIdle) else d.rx)
    && s.actions == d.actions + (if due && cur.own then [RxHandler] else [])
    && s.timer == (if d.timer == Armed && count > 0 then Open else d.timer)
    && s == d.(rx := s.rx, actions := s.actions, timer := s.timer)
  }

  lemma {:induction false} PollTurn(d: Deuna, count: nat, cur: Dsc)
    requires Consistent(d)
    ensures Consistent(OnTimer(d, count, cur)) && IsPollTurn(d, OnTimer(d, count, cur), count, cur)
  {
    TimerInv(d, count, cur);
  }

  /** A frame is seen, and either queued last or counted as dropped, once, for the first reason that
      applies; a frame queued while both rings idle starts the receive ring if a descriptor is free. */
  ghost predicate IsReception(d: Deuna, s: Deuna, f: Frame, lost: bool, cur: Dsc) {
    var up := d.c.running;
    var typed := up && (d.c.typeFilter ==> f.etype == 0x0800 || f.etype == 0x0806);
    var passes := typed && !lost && (f.mac in d.macs || d.c.promiscuous);
    var queued := passes && |d.rx.queue| < d.rx.limit;
    var looks := queued && d.tx.state == TxIdle && d.rx.state == RxIdle;
    && s.counts.seen == d.counts.seen + 1
    && s.counts.notRunning == d.counts.notRunning + (if up then 0 else 1)
    && s.counts.typeDrop == d.counts.typeDrop + (if up && !typed then 1 else 0)
    && s.counts.loss == d.counts.loss + (if typed && lost then 1 else 0)
    && s.counts.multicastDrop == d.counts.multicastDrop + (if typed && !lost && !passes then 1 else 0)
    && s.counts.unicastDrop == d.counts.unicastDrop
    && s.counts.queueDrop == d.counts.queueDrop + (if passes && !queued then 1 else 0)
    && s.counts.accepted == d.counts.accepted + (if queued then [f] else []) && s.counts.taken == d.counts.taken
    && s.rx == d.rx.(queue := d.rx.queue + (if queued then [f] else []), cur := if looks then cur else d.rx.cur,
                     state := if looks && cur.own then RxBusy else d.rx.state)
    && s.actions == d.actions + (if looks && cur.own then [RxHandler] else [])
    && s == d.(rx := s.rx, actions := s.actions, counts := s.counts)
  }

  lemma {:induction false} Reception(d: Deuna, f: Frame, lost: bool, cur: Dsc)
    requires Consistent(d)
    ensures Consistent(Receive(d, f, lost, cur)) && IsReception(d, Receive(d, f, lost, cur), f, lost, cur)
  {
    ReceiveInv(d, f, lost, cur);
    ReceiveKeepsFrames(d, f, lost, cur);
  }

  /** The first action is called, and, behind the others, stays in the list exactly if it asks to. */
  ghost predicate IsTurn(d: Deuna, s: Deuna, next: Dsc, irc: nat) {
    if d.actions == [] then s == d
    else
      var t := s.(actions := d.actions);
      var stays := match d.actions[0]
                   case TxHandler => d.c.running && d.tx.cur.own && next.own
                   case RxHandler => d.c.running && d.rx.cur.own && |d.rx.queue| > 1 && next.own
                   case Other(_) => irc > 0;
      && s.actions == d.actions[1..] + (if stays then [d.actions[0]] else [])
      && match d.actions[0]
         case TxHandler => IsTxTurn(d, t, next, if stays then 1 else 0)
         case RxHandler => IsRxTurn(d, t, next, if stays then 1 else 0)
         case Other(_) => t == d
  }

  lemma {:induction false} ActionTurn(d: Deuna, next: Dsc, irc: nat)
    requires Consistent(d)
    ensures IsTurn(d, CallAction(d, next, irc), next, irc)
  {
    if TxHandler in d.actions {
      TxTurn(d, next);
    }
    if RxHandler in d.actions {
      RxTurn(d, next);
    }
  }
}
