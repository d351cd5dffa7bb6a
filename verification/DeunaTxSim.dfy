/** The transmit side of the controller of DeunaControl makes the moves of the ring of DeunaTxRing:
    every event of the controller is a sequence of ring moves, so what is proved for the runs of the
    ring, order and ownership, holds for the controller. */
module DeunaTxSim {
  import opened DeunaControl
  import opened DeunaWords
  import R = DeunaTxRing

  /** A descriptor as the ring sees it: the length stands for the frame. */
  function SlotOf(d: Dsc): R.Slot {
    R.Slot(d.own, d.len)
  }

  /** The transmit handlers in the action list. */
  function Handlers(actions: seq<Action>): nat {
    if actions == [] then 0 else Handlers(actions[..|actions| - 1]) + if actions[|actions| - 1] == TxHandler then 1 else 0
  }

  lemma {:induction false} HandlersAppend(a: seq<Action>, b: seq<Action>)
    ensures Handlers(a + b) == Handlers(a) + Handlers(b)
    decreases |b|
  {
    if b == [] {
      assert a + b == a;
    } else {
      assert (a + b)[..|a + b| - 1] == a + b[..|b| - 1];
      HandlersAppend(a, b[..|b| - 1]);
    }
  }

  lemma {:induction false} HandlersOne(x: Action)
    ensures Handlers([x]) == if x == TxHandler then 1 else 0
  {
    assert [x][..0] == [];
  }

  lemma {:induction false} HandlersFirst(actions: seq<Action>)
    requires actions != []
    ensures Handlers(actions) == Handlers(actions[1..]) + if actions[0] == TxHandler then 1 else 0
  {
    assert actions == [actions[0]] + actions[1..];
    HandlersAppend([actions[0]], actions[1..]);
    HandlersOne(actions[0]);
  }

  /** The controller at rest between two events, and the ring. */
  ghost predicate Simulates(d: Deuna, r: R.Ring) {
    && r.phase == R.Quiet && r.running == d.c.running && r.busy == (d.tx.state == TxBusy)
    && r.queued == Handlers(d.actions) && r.cur == SlotOf(d.tx.cur)
    && (d.c.running ==> r.index == d.tx.index)
    && (d.c.ringValid ==> |r.mem| == d.tx.size)
  }

  /** The moves lead from the first of the rings to the last. */
  ghost predicate Moves(rings: seq<R.Ring>, moves: seq<R.Move>) {
    && |rings| == |moves| + 1
    && forall k :: 0 <= k < |moves| ==> R.Next(rings[k], rings[k + 1], moves[k])
  }

  lemma {:induction false} MovesInv(rings: seq<R.Ring>, moves: seq<R.Move>, k: nat)
    requires Moves(rings, moves) && R.Inv(rings[0]) && k < |rings|
    ensures R.Inv(rings[k])
    decreases k
  {
    if k > 0 {
      MovesInv(rings, moves, k - 1);
      R.NextInv(rings[k - 1], rings[k], moves[k - 1]);
    }
  }

  /** A ring format is written. */
  predicate Formats(d: Deuna, e: Event) {
    && e.Attn? && !e.rset && !e.brst && e.cmd.GetCmd? && e.cmd.f.WriteRing? && d.c.pcbbValid
    && e.cmd.f.valid && e.cmd.f.txSize > 1 && e.cmd.f.rxSize > 1
  }

  /** The descriptors an event reads are those in memory, and no ring format is written while
      running. */
  ghost predicate FromMemory(d: Deuna, r: R.Ring, e: Event) {
    match e
    case Attn(pc, _, _, cmd, rd) =>
      && (d.c.running ==> r.index < |r.mem| && SlotOf(pc.tx) == r.mem[r.index])
      && (Starts(d, e) ==> |r.mem| > 0 && SlotOf(rd.tx) == r.mem[0])
      && (Formats(d, e) ==> !d.c.running)
    case Act(next, _) =>
      d.actions != [] && d.actions[0] == TxHandler && d.c.running && d.tx.cur.own ==>
        var i := RingIndexNext(r.index, |r.mem|, 1); i < |r.mem| && i != r.index && SlotOf(next) == r.mem[i]
    case _ => true
  }

  // ------------------------------------------------------------- attentions

  /** What an attention leaves alone on the transmit side. */
  predicate SameTx(d: Deuna, s: Deuna) {
    && s.tx.state == d.tx.state && s.tx.cur == d.tx.cur && s.tx.index == d.tx.index
    && s.c.running == d.c.running && (s.c.ringValid ==> d.c.ringValid && s.tx.size == d.tx.size)
    && Handlers(s.actions) == Handlers(d.actions)
  }

  lemma {:induction false} RxStarts(d: Deuna, cur: Dsc)
    ensures SameTx(d, StartRxRing(d, cur))
  {
    HandlersAppend(d.actions, [RxHandler]);
    HandlersOne(RxHandler);
  }

  /** The ring after an attention for a stop, a start, a poll demand, or anything else. */
  function Attending(d: Deuna, r: R.Ring): R.Ring
    requires d.c.running ==> r.index < |r.mem|
  {
    if d.c.running then r.(phase := R.Attending(r.mem[r.index])) else r
  }

  lemma {:induction false} StartsRing(d: Deuna, r: R.Ring, rd: Reads)
      returns (r': R.Ring)
    requires Simulates(d, r) && Inv(d) && !d.c.running && d.c.ringValid && d.c.port == PortReady
    requires SlotOf(rd.tx) == r.mem[0]
    ensures R.Start(r, r', d.tx.curPC.own) && Simulates(SetRunning(d, true, rd), r')
  {
    var s := d.(timer := if d.timer == Closed then Open else d.timer,
                c := d.c.(running := true, port := PortRun), tx := d.tx.(index := 0), rx := d.rx.(index := 0));
    var t := StartTxRing(s, rd.tx);
    HandlersAppend(d.actions, [TxHandler]);
    HandlersOne(TxHandler);
    RxStarts(t, rd.rx);
    r' := r.(running := true, index := 0, cur := r.mem[0], busy := d.tx.curPC.own,
             queued := r.queued + (if d.tx.curPC.own then 1 else 0),
             given := seq(|r.mem|, j requires 0 <= j < |r.mem| => R.Owned(r.mem, j)), sent := []);
  }

  lemma {:induction false} DemandsRing(d: Deuna, r: R.Ring)
      returns (r': R.Ring)
    requires Simulates(d, r) && d.c.running && r.index < |r.mem| && SlotOf(d.tx.curPC) == r.mem[r.index]
    ensures R.Demand(Attending(d, r), r', true) && Simulates(OnPdmd(d).d, r')
  {
    hide Handlers;
    var s := if d.rx.state == RxPoll then d.(rx := d.rx.(state := RxIdle), timer := Cancel(d.timer)) else d;
    var t := StartTxRing(s, s.tx.curPC);
    HandlersAppend(d.actions, [TxHandler]);
    HandlersOne(TxHandler);
    RxStarts(t, s.rx.curPC);
    r' := if r.busy then r
          else r.(cur := r.mem[r.index], busy := r.mem[r.index].own,
                  queued := r.queued + if r.mem[r.index].own then 1 else 0);
  }

  /** Commands that leave the transmit side as it is. */
  predicate Neutral(d: Deuna, cmd: Command) {
    match cmd
    case Start => d.c.running || d.c.port != PortReady || !d.c.ringValid
    case Pdmd => !d.c.running
    case Stop => !d.c.running
    case Halt => !d.c.running || !d.c.delua
    case GetCmd(f) => !(d.c.pcbbValid && f.WriteRing? && f.valid && f.txSize > 1 && f.rxSize > 1)
    case SelfTest => false
    case _ => true
  }

  lemma {:induction false} NeutralKeeps(d: Deuna, cmd: Command, rd: Reads)
    requires Inv(d) && Neutral(d, cmd)
    ensures SameTx(d, OnCommand(d, cmd, rd).d)
  {
    match cmd {
      case Noop =>
      case GetPcbb =>
      case GetCmd(f) => FunctionKeeps(d, f);
      case SelfTest =>
      case Start =>
      case Boot =>
      case Pdmd =>
      case Halt =>
      case Stop =>
      case Reserved =>
    }
  }

  lemma {:induction false} FunctionKeeps(d: Deuna, f: Function)
    requires Neutral(d, GetCmd(f))
    ensures SameTx(d, Execute(d, f).d)
  {
  }

  /** Commands and resets after which the controller does not run. */
  predicate Ends(d: Deuna, reset: bool, cmd: Command) {
    reset || cmd == SelfTest || (d.c.running && (cmd == Stop || (cmd == Halt && d.c.delua)))
  }

  lemma {:induction false} EndsStopped(d: Deuna, pc: Reads, rset: bool, brst: bool, cmd: Command, rd: Reads)
    requires Inv(d) && Ends(d, rset || brst, cmd)
    ensures var s := Attention(d, pc, rset, brst, cmd, rd).d;
            && !s.c.running && s.tx.state == TxIdle && s.tx.cur == d.tx.cur && s.actions == d.actions
            && (s.c.ringValid ==> d.c.ringValid && s.tx.size == d.tx.size)
  {
  }

  // ------------------------------------------------------------- events

  lemma {:induction false} One(a: R.Ring, b: R.Ring, m: R.Move)
    requires R.Next(a, b, m)
    ensures Moves([a, b], [m])
  {
  }

  lemma {:induction false} Two(a: R.Ring, b: R.Ring, c: R.Ring, m: R.Move, n: R.Move)
    requires R.Next(a, b, m) && R.Next(b, c, n)
    ensures Moves([a, b, c], [m, n])
  {
  }

  lemma {:induction false} Three(a: R.Ring, b: R.Ring, c: R.Ring, d: R.Ring, m: R.Move, n: R.Move, o: R.Move)
    requires R.Next(a, b, m) && R.Next(b, c, n) && R.Next(c, d, o)
    ensures Moves([a, b, c, d], [m, n, o])
  {
  }

  /** A transmit handler: it quits, or writes back and advances. */
  lemma {:induction false} HandlerMoves(d: Deuna, r: R.Ring, next: Dsc, irc: nat)
      returns (rings: seq<R.Ring>, moves: seq<R.Move>)
    requires Inv(d) && R.Inv(r) && Simulates(d, r) && FromMemory(d, r, Act(next, irc))
    requires d.actions != [] && d.actions[0] == TxHandler
    ensures Moves(rings, moves) && rings[0] == r && Simulates(CallAction(d, next, irc), rings[|rings| - 1])
  {
    HandlersFirst(d.actions);
    HandlersAppend(d.actions[1..], [TxHandler]);
    HandlersOne(TxHandler);
    assert d.actions[1..] + [] == d.actions[1..];
    if d.c.running && d.tx.cur.own {
      var i := RingIndexNext(r.index, |r.mem|, 1);
      var r1 := r.(busy := false, mem := r.mem[r.index := R.Slot(false, r.cur.frame)], cur := r.cur.(own := false),
                   sent := r.sent + [R.Sent(r.index, r.cur.frame)], phase := R.Returned);
      var r2 := r1.(index := i, cur := r1.mem[i], phase := R.Quiet, busy := r1.mem[i].own,
                    queued := if r1.mem[i].own then r1.queued else r1.queued - 1);
      Two(r, r1, r2, R.WriteMove, R.AdvanceMove);
      rings, moves := [r, r1, r2], [R.WriteMove, R.AdvanceMove];
    } else {
      var r1 := r.(busy := false, queued := r.queued - 1);
      One(r, r1, R.QuitMove);
      rings, moves := [r, r1], [R.QuitMove];
    }
  }

  lemma {:induction false} OtherActions(d: Deuna, next: Dsc, irc: nat)
    requires d.actions == [] || d.actions[0] != TxHandler
    ensures SameTx(d, CallAction(d, next, irc))
  {
    hide Handlers;
    if d.actions != [] {
      HandlersFirst(d.actions);
      HandlersAppend(d.actions[1..], [d.actions[0]]);
      HandlersOne(d.actions[0]);
      assert d.actions[1..] + [] == d.actions[1..];
    }
  }

  lemma {:induction false} QueueKeeps(d: Deuna, id: nat)
    ensures SameTx(d, Step(d, Queue(id)))
  {
    HandlersAppend(d.actions, [Other(id)]);
    HandlersOne(Other(id));
  }

  lemma {:induction false} ReceiveKeeps(d: Deuna, f: Frame, lost: bool, cur: Dsc)
    ensures SameTx(d, Receive(d, f, lost, cur))
  {
    HandlersAppend(d.actions, [RxHandler]);
    HandlersOne(RxHandler);
  }

  lemma {:induction false} TimerKeeps(d: Deuna, count: nat, cur: Dsc)
    ensures SameTx(d, OnTimer(d, count, cur))
  {
    HandlersAppend(d.actions, [RxHandler]);
    HandlersOne(RxHandler);
  }

  lemma {:induction false} EndMoves(d: Deuna, r: R.Ring, e: Event)
      returns (rings: seq<R.Ring>, moves: seq<R.Move>)
    requires Inv(d) && Simulates(d, r) && e.Attn? && FromMemory(d, r, e) && Ends(d, e.rset || e.brst, e.cmd)
    ensures Moves(rings, moves) && rings[0] == r && Simulates(Step(d, e), rings[|rings| - 1])
  {
    EndsStopped(d, e.pc, e.rset, e.brst, e.cmd, e.rd);
    var r1, r2 := Attending(d, r), r.(running := false, busy := false);
    if d.c.running {
      Three(r, r1, r, r2, R.AttendMove, R.DemandMove(false), R.StopMove);
      rings, moves := [r, r1, r, r2], [R.AttendMove, R.DemandMove(false), R.StopMove];
    } else {
      One(r, r2, R.StopMove);
      rings, moves := [r, r2], [R.StopMove];
    }
  }

  lemma {:induction false} FormatMoves(d: Deuna, r: R.Ring, e: Event, mem: seq<R.Slot>)
      returns (rings: seq<R.Ring>, moves: seq<R.Move>)
    requires Inv(d) && Simulates(d, r) && Formats(d, e) && !d.c.running && |mem| == e.cmd.f.txSize
    ensures Moves(rings, moves) && rings[0] == r && Simulates(Step(d, e), rings[|rings| - 1])
  {
    var r2 := r.(mem := mem, given := seq(|mem|, j requires 0 <= j < |mem| => R.Owned(mem, j)), sent := []);
    One(r, r2, R.FormatMove(mem));
    rings, moves := [r, r2], [R.FormatMove(mem)];
  }

  lemma {:induction false} NeutralMoves(d: Deuna, r: R.Ring, e: Event)
      returns (rings: seq<R.Ring>, moves: seq<R.Move>)
    requires Inv(d) && Simulates(d, r) && e.Attn? && !e.rset && !e.brst && FromMemory(d, r, e)
    requires Neutral(Attended(d, e.pc), e.cmd)
    ensures Moves(rings, moves) && rings[0] == r && Simulates(Step(d, e), rings[|rings| - 1])
  {
    NeutralKeeps(Attended(d, e.pc), e.cmd, e.rd);
    if d.c.running {
      Two(r, Attending(d, r), r, R.AttendMove, R.DemandMove(false));
      rings, moves := [r, Attending(d, r), r], [R.AttendMove, R.DemandMove(false)];
    } else {
      rings, moves := [r], [];
    }
  }

  lemma {:induction false} AttentionMoves(d: Deuna, r: R.Ring, e: Event, mem: seq<R.Slot>)
      returns (rings: seq<R.Ring>, moves: seq<R.Move>)
    requires Inv(d) && Simulates(d, r) && e.Attn? && FromMemory(d, r, e)
    requires Formats(d, e) ==> |mem| == e.cmd.f.txSize
    ensures Moves(rings, moves) && rings[0] == r && Simulates(Step(d, e), rings[|rings| - 1])
  {
    var t := Attended(d, e.pc);
    if Ends(d, e.rset || e.brst, e.cmd) {
      rings, moves := EndMoves(d, r, e);
    } else if Starts(d, e) {
      var r2 := StartsRing(t, r, e.rd);
      One(r, r2, R.StartMove(t.tx.curPC.own));
      rings, moves := [r, r2], [R.StartMove(t.tx.curPC.own)];
    } else if Demands(d, e) {
      var r1 := Attending(d, r);
      var r2 := DemandsRing(t, r);
      Two(r, r1, r2, R.AttendMove, R.DemandMove(true));
      rings, moves := [r, r1, r2], [R.AttendMove, R.DemandMove(true)];
    } else if Formats(d, e) {
      rings, moves := FormatMoves(d, r, e, mem);
    } else {
      rings, moves := NeutralMoves(d, r, e);
    }
  }

  /** Every event of the controller, if it reads the memory of the ring, is a sequence of ring
      moves, mem being what a new ring format finds; the ring keeps its invariant, order and
      ownership included. */
  lemma {:induction false} EventMoves(d: Deuna, r: R.Ring, e: Event, mem: seq<R.Slot>)
      returns (rings: seq<R.Ring>, moves: seq<R.Move>)
    requires Inv(d) && R.Inv(r) && Simulates(d, r) && FromMemory(d, r, e)
    requires Formats(d, e) ==> |mem| == e.cmd.f.txSize
    ensures Moves(rings, moves) && rings[0] == r && Simulates(Step(d, e), rings[|rings| - 1])
    ensures forall k :: 0 <= k < |rings| ==> R.Inv(rings[k])
  {
    match e {
      case Attn(_, _, _, _, _) => rings, moves := AttentionMoves(d, r, e, mem);
      case Act(next, irc) =>
        if d.actions != [] && d.actions[0] == TxHandler {
          rings, moves := HandlerMoves(d, r, next, irc);
        } else {
          OtherActions(d, next, irc);
          rings, moves := [r], [];
        }
      case Tick(count, cur) =>
        TimerKeeps(d, count, cur);
        rings, moves := [r], [];
      case Arrive(f, lost, cur) =>
        ReceiveKeeps(d, f, lost, cur);
        rings, moves := [r], [];
      case Queue(id) =>
        QueueKeeps(d, id);
        rings, moves := [r], [];
    }
    forall k | 0 <= k < |rings|
      ensures R.Inv(rings[k])
    {
      MovesInv(rings, moves, k);
    }
  }
}
