/** The transmit ring shared with the host driver: a descriptor belongs to the controller while
    its OWN bit is set. Driver and controller make their memory accesses in any order. */
module DeunaTxRing {
  import opened DeunaWords
  import opened Transitions

  /** A descriptor: its OWN bit and the frame it describes. */
  datatype Slot = Slot(own: bool, frame: nat)

  /** The server thread is at rest, has read the current descriptor with an attention, or has
      given a descriptor back and is about to read the next one. */
  datatype Phase = Quiet | Attending(pc: Slot) | Returned

  /** A frame sent from a slot. */
  datatype Sent = Sent(slot: nat, frame: nat)

  /** queued counts the transmit handlers in the action list; given and sent are what was handed
      over in each slot and what was handled since START. */
  datatype Ring = Ring(running: bool, busy: bool, queued: nat, index: nat, cur: Slot, mem: seq<Slot>,
                       phase: Phase, given: seq<seq<nat>>, sent: seq<Sent>)

  function Owned(mem: seq<Slot>, j: nat): seq<nat>
    requires j < |mem|
  {
    if mem[j].own then [mem[j].frame] else []
  }

  // ------------------------------------------------------------- steps

  /** The driver hands over a frame in any slot that is its own. */
  predicate Give(r: Ring, r': Ring, j: nat, frame: nat) {
    && j < |r.mem| && !r.mem[j].own && |r.given| == |r.mem|
    && r' == r.(mem := r.mem[j := Slot(true, frame)], given := r.given[j := r.given[j] + [frame]])
  }

  /** Another ring format, while not running. */
  predicate Configure(r: Ring, r': Ring, mem: seq<Slot>) {
    && !r.running && r.phase == Quiet && 2 <= |mem| < WORD
    && r' == r.(mem := mem, given := seq(|mem|, j requires 0 <= j < |mem| => Owned(mem, j)), sent := [])
  }

  /** START: slot 0 is read; stale is what the descriptor left from before says. */
  predicate Start(r: Ring, r': Ring, stale: bool) {
    && !r.running && r.phase == Quiet && 2 <= |r.mem| < WORD
    && r' == r.(running := true, index := 0, cur := r.mem[0], busy := stale,
                queued := r.queued + (if stale then 1 else 0),
                given := seq(|r.mem|, j requires 0 <= j < |r.mem| => Owned(r.mem, j)), sent := [])
  }

  predicate Stop(r: Ring, r': Ring) {
    r.phase == Quiet && r' == r.(running := false, busy := false)
  }

  /** An attention while running reads the current descriptor ... */
  predicate Attend(r: Ring, r': Ring) {
    r.running && r.phase == Quiet && r.index < |r.mem| && r' == r.(phase := Attending(r.mem[r.index]))
  }

  /** ... which a poll demand uses, and other commands do not. */
  predicate Demand(r: Ring, r': Ring, pdmd: bool) {
    && r.phase.Attending?
    && var s := r.(phase := Quiet);
       r' == if !pdmd || r.busy then s
             else s.(cur := r.phase.pc, busy := r.phase.pc.own, queued := r.queued + if r.phase.pc.own then 1 else 0)
  }

  /** A queued handler with nothing to do is dropped. */
  predicate Quit(r: Ring, r': Ring) {
    && r.queued > 0 && r.phase == Quiet && (!r.running || !r.cur.own)
    && r' == r.(busy := false, queued := r.queued - 1)
  }

  /** A handler sends the frame and gives the descriptor back: it writes slot index. */
  predicate WriteBack(r: Ring, r': Ring) {
    && r.queued > 0 && r.phase == Quiet && r.running && r.cur.own && r.index < |r.mem|
    && r' == r.(busy := false, mem := r.mem[r.index := Slot(false, r.cur.frame)], cur := r.cur.(own := false),
                sent := r.sent + [Sent(r.index, r.cur.frame)], phase := Returned)
  }

  /** It reads the next descriptor and goes on or is dropped. */
  predicate Advance(r: Ring, r': Ring) {
    && r.phase == Returned && r.queued > 0 && RingIndexNext(r.index, |r.mem|, 1) < |r.mem|
    && var i := RingIndexNext(r.index, |r.mem|, 1);
       r' == r.(index := i, cur := r.mem[i], phase := Quiet, busy := r.mem[i].own,
                queued := if r.mem[i].own then r.queued else r.queued - 1)
  }

  datatype Move = DriverMove(j: nat, frame: nat) | FormatMove(mem: seq<Slot>) | StartMove(stale: bool) | StopMove
    | AttendMove | DemandMove(pdmd: bool) | QuitMove | WriteMove | AdvanceMove

  predicate Next(r: Ring, r': Ring, m: Move) {
    match m
    case DriverMove(j, frame) => Give(r, r', j, frame)
    case FormatMove(mem) => Configure(r, r', mem)
    case StartMove(stale) => Start(r, r', stale)
    case StopMove => Stop(r, r')
    case AttendMove => Attend(r, r')
    case DemandMove(pdmd) => Demand(r, r', pdmd)
    case QuitMove => Quit(r, r')
    case WriteMove => WriteBack(r, r')
    case AdvanceMove => Advance(r, r')
  }

  ghost predicate Init(r: Ring) {
    !r.running && !r.busy && r.queued == 0 && r.phase == Quiet && r.mem == [] && r.given == [] && r.sent == []
  }

  ghost predicate Run(rings: seq<Ring>, moves: seq<Move>) {
    IsRun(Init, Next, rings, moves)
  }

  // ------------------------------------------------------------- the invariant

  /** The frames sent from slot j, in order. */
  function SentFrom(sent: seq<Sent>, j: nat): seq<nat> {
    if sent == [] then []
    else SentFrom(sent[..|sent| - 1], j) + if sent[|sent| - 1].slot == j then [sent[|sent| - 1].frame] else []
  }

  lemma {:induction false} SentFromNext(sent: seq<Sent>, x: Sent, j: nat)
    ensures SentFrom(sent + [x], j) == SentFrom(sent, j) + if x.slot == j then [x.frame] else []
  {
    assert (sent + [x])[..|sent|] == sent;
  }

  /** Slots are handled in ring order from 0 on. */
  ghost predicate InOrder(sent: seq<Sent>, n: nat)
    requires n > 0
  {
    forall k :: 0 <= k < |sent| ==> sent[k].slot == k % n
  }

  /** What was handed over in each slot is what was sent from it, then the frame it still holds. */
  ghost predicate OnceEach(mem: seq<Slot>, given: seq<seq<nat>>, sent: seq<Sent>) {
    && |given| == |mem|
    && forall j :: 0 <= j < |mem| ==> given[j] == SentFrom(sent, j) + Owned(mem, j)
  }

  /** The controller's copy of the current descriptor, if owned, is the one in memory. */
  ghost predicate Faithful(r: Ring)
    requires |r.mem| >= 2
  {
    && r.index < |r.mem|
    && (r.cur.own ==> r.mem[r.index] == r.cur)
    && (r.phase.Attending? && r.phase.pc.own ==> r.mem[r.index] == r.phase.pc)
    && r.index == (if r.phase == Returned then |r.sent| - 1 else |r.sent|) % |r.mem|
    && (r.phase == Returned ==> !r.cur.own && r.queued > 0 && r.sent != [])
  }

  ghost predicate Inv(r: Ring) {
    && |r.given| == |r.mem|
    && (r.running ==> 2 <= |r.mem| < WORD && Faithful(r) && InOrder(r.sent, |r.mem|) && OnceEach(r.mem, r.given, r.sent))
    && (!r.running ==> r.phase == Quiet)
    && (r.busy ==> r.running && r.queued > 0)
  }

  lemma {:induction false} NextIndex(k: nat, n: nat)
    requires 2 <= n < WORD
    ensures RingIndexNext(k % n, n, 1) == (k + 1) % n < n
  {
    var m := k % n;
    StepModulo(k, n, m, k / n);
    RingIndexModulo(m, n, 1);
  }

  lemma {:induction false} StepModulo(k: nat, n: nat, m: nat, q: nat)
    requires n > 0 && k == n * q + m
    ensures (k + 1) % n == (m + 1) % n
  {
    Shift(m + 1, n, q);
    assert n * q + (m + 1) == k + 1;
  }

  lemma {:induction false} Shift(a: nat, n: nat, q: nat)
    requires n > 0
    ensures (n * q + a) % n == a % n
  {
    var p, b := a / n, (n * q + a) / n;
    assert a == n * p + a % n && n * q + a == n * b + (n * q + a) % n;
    assert n * (b - q - p) == a % n - (n * q + a) % n by {
      assert n * (b - q - p) == n * b - n * q - n * p;
    }
    SmallMultiple(n, b - q - p, a % n - (n * q + a) % n);
  }

  /** A multiple of n between -n and n is 0. */
  lemma {:induction false} SmallMultiple(n: int, x: int, y: int)
    requires n > 0 && n * x == y && -n < y < n
    ensures x == 0
  {
    Times(n, x);
  }

  lemma {:induction false} Times(n: int, x: int)
    requires n > 0
    ensures (x >= 1 ==> n * x >= n) && (x <= -1 ==> n * x <= -n)
  {
    if x >= 1 {
      assert n * x >= n * 1;
    } else if x <= -1 {
      assert n * x <= n * -1;
    }
  }

  lemma {:induction false} GiveInv(r: Ring, r': Ring, j: nat, frame: nat)
    requires Inv(r) && Give(r, r', j, frame)
    ensures Inv(r')
  {
    if r.running {
      forall i | 0 <= i < |r'.mem|
        ensures r'.given[i] == SentFrom(r'.sent, i) + Owned(r'.mem, i)
      {
        assert r.given[i] == SentFrom(r.sent, i) + Owned(r.mem, i);
        if i == j {
          assert SentFrom(r.sent, i) + [] + [frame] == SentFrom(r.sent, i) + [frame];
        }
      }
    }
  }

  lemma {:induction false} StartInv(r: Ring, r': Ring, stale: bool)
    requires Inv(r) && Start(r, r', stale)
    ensures Inv(r')
  {
    forall j | 0 <= j < |r'.mem|
      ensures r'.given[j] == SentFrom([], j) + Owned(r'.mem, j)
    {
    }
    assert 0 % |r.mem| == 0;
  }

  lemma {:induction false} WriteBackInv(r: Ring, r': Ring)
    requires Inv(r) && WriteBack(r, r')
    ensures Inv(r')
  {
    var x := Sent(r.index, r.cur.frame);
    forall j | 0 <= j < |r'.mem|
      ensures r'.given[j] == SentFrom(r'.sent, j) + Owned(r'.mem, j)
    {
      assert r.given[j] == SentFrom(r.sent, j) + Owned(r.mem, j);
      SentFromNext(r.sent, x, j);
    }
  }

  lemma {:induction false} AdvanceInv(r: Ring, r': Ring)
    requires Inv(r) && Advance(r, r')
    ensures Inv(r')
  {
    NextIndex(|r.sent| - 1, |r.mem|);
  }

  lemma {:induction false} NextInv(r: Ring, r': Ring, m: Move)
    requires Inv(r) && Next(r, r', m)
    ensures Inv(r')
  {
    match m {
      case DriverMove(j, frame) => GiveInv(r, r', j, frame);
      case FormatMove(mem) =>
      case StartMove(stale) => StartInv(r, r', stale);
      case StopMove =>
      case AttendMove =>
      case DemandMove(pdmd) =>
      case QuitMove =>
      case WriteMove => WriteBackInv(r, r');
      case AdvanceMove => AdvanceInv(r, r');
    }
  }

  lemma {:induction false} InvInductive()
    ensures Inductive(Init, Next, Inv)
  {
    forall r, r', m | Inv(r) && Next(r, r', m)
      ensures Inv(r')
    {
      NextInv(r, r', m);
    }
  }

  lemma {:induction false} RunInv(rings: seq<Ring>, moves: seq<Move>, k: nat)
    requires Run(rings, moves) && k < |rings|
    ensures Inv(rings[k])
  {
    InvInductive();
    InvariantHolds(Init, Next, Inv, rings, moves, k);
  }

  // ------------------------------------------------------------- ownership, order, exactly once

  /** In every run, with any number of handlers left in the action list by earlier stops: from
      START on the slots 0, 1, 2, ... of the ring are handled in turn, and the frames handed over
      in a slot are those sent from it, each once and in order, then the one still waiting. */
  lemma {:induction false} TransmitOrder(rings: seq<Ring>, moves: seq<Move>, k: nat)
    requires Run(rings, moves) && k < |rings| && rings[k].running
    ensures var r := rings[k];
            |r.mem| > 0 && InOrder(r.sent, |r.mem|) && OnceEach(r.mem, r.given, r.sent)
  {
    RunInv(rings, moves, k);
  }

  /** The controller writes a descriptor only while its OWN bit is set in memory. */
  lemma {:induction false} WritesOnlyOwned(rings: seq<Ring>, moves: seq<Move>, k: nat, j: nat)
    requires Run(rings, moves) && k < |moves| && j < |rings[k].mem|
    requires !moves[k].DriverMove? && !moves[k].FormatMove?
    requires |rings[k + 1].mem| == |rings[k].mem| && rings[k + 1].mem[j] != rings[k].mem[j]
    ensures moves[k].WriteMove? && rings[k].mem[j].own && !rings[k + 1].mem[j].own && j == rings[k].index
  {
    RunInv(rings, moves, k);
    assert Next(rings[k], rings[k + 1], moves[k]);
  }
}
