/** The server thread and the threads that use it, step by step: who holds the connection lock,
    what is pending, and the wakeup event. Every interleaving of the steps is a run. */
module RlinkServerWakeup {
  import opened Transitions

  /** Where a client thread is. Each constructor is a point between two atomic steps. */
  datatype Client =
    | Free
    // QueueAction
    | QueueWait | QueueLocked | QueuePushed | QueueSignal | QueueEnd
    // AddPollHandler and RemovePollHandler
    | PollWait | PollLocked | PollEdited | PollSignal | PollEnd
    // SignalAttnNotify, called while the lock is held
    | NotifyWait | NotifyLocked | NotifySet | NotifyEnd
    // Stop, without the lock
    | StopChecked | StopSet | StopJoin
    // StartOrResume
    | StartWait | StartLocked | StartUnstopped | StartSpawned | StartEnd

  /** Where the server thread is. Polling, with no timeout or with an infinite one, renews the
      poll arrays before the call and is repeated if they have to be renewed after it. */
  datatype Server =
    | Off | Top | CheckAttn | CheckActn
    | RenewNow | PollNow | PolledNow | RenewForever | PollForever | PolledForever
    | Calls | InputWait | InputRun | InputNotify | InputNotified
    | AttnTest | AttnCheck | AttnWait | AttnMerge | AttnNext
    | AttnHdlWait | AttnRun | AttnNotify | AttnNotified
    | ActnTest | ActnWait | ActnRun | ActnNotify | ActnNotified | Exited

  datatype Lock = Unlocked | ByServer | ByClient(t: nat)

  /** active: the thread object is joinable; stop: a stop is pending; update: the poll arrays are
      to be renewed; actions, noti and patt: what is pending; event: the counter of the wakeup
      event. */
  datatype Shared = Shared(server: Server, lock: Lock, active: bool, stop: bool, update: bool,
                           actions: nat, noti: bool, patt: bool, event: nat)

  datatype State = State(clients: seq<Client>, m: Shared)

  ghost predicate Init(s: State) {
    && s.m == Shared(Off, Unlocked, false, false, false, 0, false, false, 0)
    && forall t :: 0 <= t < |s.clients| ==> s.clients[t] == Free
  }

  // ------------------------------------------------------------- client steps

  /** Taking the lock, for which the operations wait. */
  predicate LockStep(t: nat, c: Client, m: Shared, c': Client, m': Shared) {
    && m.lock == Unlocked && m' == m.(lock := ByClient(t))
    && match c
       case QueueWait => c' == QueueLocked
       case PollWait => c' == PollLocked
       case NotifyWait => c' == NotifyLocked
       case StartWait => c' == StartLocked
       case _ => false
  }

  predicate QueueStep(c: Client, m: Shared, c': Client, m': Shared) {
    match c
    case Free => c' == QueueWait && m' == m
    case QueueLocked => c' == QueuePushed && m' == m.(actions := m.actions + 1)
    case QueuePushed => c' == (if m.active then QueueSignal else QueueEnd) && m' == m
    case QueueSignal => c' == QueueEnd && m' == m.(event := m.event + 1)
    case QueueEnd => c' == Free && m' == m.(lock := Unlocked)
    case _ => false
  }

  /** A registration is edited: like an action it is signalled if the server is active. */
  predicate PollStep(c: Client, m: Shared, c': Client, m': Shared) {
    match c
    case Free => c' == PollWait && m' == m
    case PollLocked => c' == PollEdited && m' == m.(update := true)
    case PollEdited => c' == (if m.active then PollSignal else PollEnd) && m' == m
    case PollSignal => c' == PollEnd && m' == m.(event := m.event + 1)
    case PollEnd => c' == Free && m' == m.(lock := Unlocked)
    case _ => false
  }

  predicate NotifyStep(c: Client, m: Shared, c': Client, m': Shared) {
    match c
    case Free => c' == NotifyWait && m' == m
    case NotifyLocked => c' == NotifySet && m' == m.(noti := true)
    case NotifySet => c' == NotifyEnd && m' == m.(event := m.event + 1)
    case NotifyEnd => c' == Free && m' == m.(lock := Unlocked)
    case _ => false
  }

  /** Stop does nothing if the server is not active, else it requests the stop, wakes the server
      and joins it. */
  predicate StopStep(c: Client, m: Shared, c': Client, m': Shared) {
    match c
    case Free => m.active && c' == StopChecked && m' == m
    case StopChecked => c' == StopSet && m' == m.(stop := true)
    case StopSet => c' == StopJoin && m' == m.(event := m.event + 1)
    case StopJoin => m.server == Exited && c' == Free && m' == m.(server := Off, active := false)
    case _ => false
  }

  /** Start and Resume: check, lock, clear a stop, create the thread, which renews the poll arrays
      first, unlock. The new thread may run before the thread object is assigned; creating a
      second thread aborts the program. */
  predicate StartStep(c: Client, m: Shared, c': Client, m': Shared) {
    match c
    case Free => !m.active && c' == StartWait && m' == m
    case StartLocked => c' == StartUnstopped && m' == m.(stop := false)
    case StartUnstopped => !m.active && c' == StartSpawned && m' == m.(server := Top, update := true)
    case StartSpawned => c' == StartEnd && m' == m.(active := true)
    case StartEnd => c' == Free && m' == m.(lock := Unlocked)
    case _ => false
  }

  predicate ClientStep(t: nat, c: Client, m: Shared, c': Client, m': Shared) {
    || LockStep(t, c, m, c', m') || QueueStep(c, m, c', m') || PollStep(c, m, c', m') || NotifyStep(c, m, c', m')
    || StopStep(c, m, c', m') || StartStep(c, m, c', m')
  }

  // ------------------------------------------------------------- server steps

  /** The event loop: stop test, choice of the timeout by two tests, and poll, where other input
      may end the waiting, too. */
  predicate LoopStep(m: Shared, m': Shared) {
    match m.server
    case Top => m' == m.(server := if m.stop then Exited else CheckAttn)
    case CheckAttn => m' == m.(server := if m.noti || m.patt then RenewNow else CheckActn)
    case CheckActn => m' == m.(server := if m.actions > 0 then RenewNow else RenewForever)
    case _ => false
  }

  predicate DoPollStep(m: Shared, m': Shared, input: bool) {
    match m.server
    case RenewNow => m' == m.(update := false, server := PollNow)
    case PollNow => m' == m.(server := PolledNow)
    case PolledNow => m' == m.(server := if m.update then RenewNow else Calls)
    case RenewForever => m' == m.(update := false, server := PollForever)
    case PollForever => (m.event > 0 || input) && m' == m.(server := PolledForever)
    case PolledForever => m' == m.(server := if m.update then RenewForever else Calls)
    case _ => false
  }

  /** The poll handlers: one reads the wakeup event, which resets it; another takes input from
      the port under the lock, where notifies may come in; others queue actions and edit
      registrations. They are called in any order, or not at all when the registrations changed. */
  predicate CallStep(m: Shared, m': Shared, edit: bool, queued: nat) {
    match m.server
    case Calls =>
      || m' == m.(event := 0) || m' == m.(server := InputWait) || m' == m.(server := AttnTest)
      || (m.lock == Unlocked && m' == m.(actions := m.actions + queued, update := m.update || edit))
    case _ => false
  }

  predicate InputStep(m: Shared, m': Shared) {
    match m.server
    case InputWait => m.lock == Unlocked && m' == m.(lock := ByServer, server := InputRun)
    case InputRun => m' == m.(lock := Unlocked, server := Calls) || m' == m.(noti := true, server := InputNotify)
    case InputNotify => m' == m.(event := m.event + 1, server := InputNotified)
    case InputNotified => m' == m.(server := InputRun)
    case _ => false
  }

  /** The attention turn: notifies join the pattern under the lock; then the lock is taken anew
      for each handler, which may queue actions, edit registrations and have notifies come in; at
      the end any pattern may be left. */
  predicate AttnStep(m: Shared, m': Shared, left: bool) {
    match m.server
    case AttnTest => m' == m.(server := if m.noti || m.patt then AttnCheck else ActnTest)
    case AttnCheck => m' == m.(server := if m.noti then AttnWait else AttnNext)
    case AttnWait => m.lock == Unlocked && m' == m.(lock := ByServer, server := AttnMerge)
    case AttnMerge => m' == m.(noti := false, patt := true, lock := Unlocked, server := AttnNext)
    case AttnNext => m' == m.(server := AttnHdlWait) || m' == m.(patt := left, server := ActnTest)
    case _ => false
  }

  predicate HandlerStep(m: Shared, m': Shared, edit: bool, queued: nat) {
    match m.server
    case AttnHdlWait => m.lock == Unlocked && m' == m.(lock := ByServer, server := AttnRun)
    case AttnRun =>
      || m' == m.(actions := m.actions + queued, update := m.update || edit, lock := Unlocked, server := AttnNext)
      || m' == m.(noti := true, server := AttnNotify)
    case AttnNotify => m' == m.(event := m.event + 1, server := AttnNotified)
    case AttnNotified => m' == m.(server := AttnRun)
    case _ => false
  }

  /** The action turn: the first action is called; it is requeued or dropped, and may queue others
      and edit registrations. */
  predicate ActnStep(m: Shared, m': Shared, keep: bool, edit: bool, queued: nat) {
    match m.server
    case ActnTest => m' == m.(server := if m.actions > 0 then ActnWait else Top)
    case ActnWait => m.lock == Unlocked && m' == m.(lock := ByServer, server := ActnRun)
    case ActnRun =>
      || (m.actions > 0
          && m' == m.(actions := m.actions + queued - (if keep then 0 else 1), update := m.update || edit,
                      lock := Unlocked, server := Top))
      || m' == m.(noti := true, server := ActnNotify)
    case ActnNotify => m' == m.(event := m.event + 1, server := ActnNotified)
    case ActnNotified => m' == m.(server := ActnRun)
    case _ => false
  }

  predicate ServerStep(m: Shared, m': Shared, b: bool, edit: bool, n: nat) {
    || LoopStep(m, m') || DoPollStep(m, m', b) || CallStep(m, m', edit, n) || InputStep(m, m')
    || AttnStep(m, m', b) || HandlerStep(m, m', edit, n) || ActnStep(m, m', b, edit, n)
  }

  // ------------------------------------------------------------- runs

  /** Thread t or the server makes a step. */
  datatype Move = Move(t: nat, c: Client) | ServerMove(b: bool, edit: bool, n: nat)

  predicate Next(s: State, s': State, move: Move) {
    match move
    case Move(t, c) =>
      t < |s.clients| && s'.clients == s.clients[t := c] && ClientStep(t, s.clients[t], s.m, c, s'.m)
    case ServerMove(b, edit, n) =>
      s'.clients == s.clients && ServerStep(s.m, s'.m, b, edit, n)
  }

  /** Any interleaving from a state without threads at work. */
  ghost predicate Run(states: seq<State>, moves: seq<Move>) {
    IsRun(Init, Next, states, moves)
  }

  // ------------------------------------------------------------- the invariant

  predicate HoldsLock(c: Client) {
    || c.QueueLocked? || c.QueuePushed? || c.QueueSignal? || c.QueueEnd?
    || c.PollLocked? || c.PollEdited? || c.PollSignal? || c.PollEnd?
    || c.NotifyLocked? || c.NotifySet? || c.NotifyEnd?
    || c.StartLocked? || c.StartUnstopped? || c.StartSpawned? || c.StartEnd?
  }

  predicate ServerHolds(v: Server) {
    || v.InputRun? || v.InputNotify? || v.InputNotified?
    || v.AttnMerge? || v.AttnRun? || v.AttnNotify? || v.AttnNotified?
    || v.ActnRun? || v.ActnNotify? || v.ActnNotified?
  }

  /** Some thread is at a point. */
  ghost predicate Someone(clients: seq<Client>, c: Client) {
    exists t :: 0 <= t < |clients| && clients[t] == c
  }

  /** Which threads are at the points that matter. */
  datatype Signals = Signals(stop: bool, noti: bool, pushed: bool, signal: bool, spawned: bool,
                             edited: bool, pollSignal: bool)

  ghost function SignalsOf(clients: seq<Client>): Signals {
    Signals(Someone(clients, StopSet), Someone(clients, NotifySet), Someone(clients, QueuePushed),
            Someone(clients, QueueSignal), Someone(clients, StartSpawned),
            Someone(clients, PollEdited), Someone(clients, PollSignal))
  }

  /** The lock is held by who thinks so. */
  ghost predicate LockInv(s: State) {
    && (forall t :: 0 <= t < |s.clients| ==> (HoldsLock(s.clients[t]) <==> s.m.lock == ByClient(t)))
    && (ServerHolds(s.m.server) <==> s.m.lock == ByServer)
  }

  /** A server that runs is active, or its creator still holds the lock. */
  predicate ActiveInv(m: Shared, g: Signals) {
    (m.server != Off ==> m.active || g.spawned) && (g.spawned ==> !m.active)
  }

  /** About to wait forever, waiting, or just back. */
  predicate Forever(v: Server) {
    v.RenewForever? || v.PollForever? || v.PolledForever?
  }

  /** What became pending after the server looked for it comes with an event, or one is about to
      be signalled. */
  predicate EventInv(m: Shared, g: Signals) {
    && (m.stop && (m.server.CheckAttn? || m.server.CheckActn? || Forever(m.server)) ==> m.event > 0 || g.stop)
    && (m.noti && (m.server.CheckActn? || Forever(m.server)) ==> m.event > 0 || g.noti)
    && (m.actions > 0 && Forever(m.server) ==> m.event > 0 || g.pushed || g.signal)
    && (m.update && m.server.PollForever? ==> m.event > 0 || g.edited || g.pollSignal)
    && (m.patt ==> !m.server.CheckActn? && !Forever(m.server))
  }

  ghost predicate Inv(s: State) {
    LockInv(s) && ActiveInv(s.m, SignalsOf(s.clients)) && EventInv(s.m, SignalsOf(s.clients))
  }

  // ------------------------------------------------------------- it is inductive

  lemma {:induction false} InitInv(s: State)
    requires Init(s)
    ensures Inv(s)
  {
  }

  lemma {:induction false} SomeoneAfter(clients: seq<Client>, t: nat, c: Client, d: Client)
    requires t < |clients|
    ensures Someone(clients[t := c], d) ==> Someone(clients, d) || c == d
    ensures Someone(clients, d) && clients[t] != d ==> Someone(clients[t := c], d)
    ensures c == d ==> Someone(clients[t := c], d)
  {
    var clients' := clients[t := c];
    if u :| 0 <= u < |clients'| && clients'[u] == d {
      assert u == t || clients[u] == d;
    }
    if u :| 0 <= u < |clients| && clients[u] == d {
      assert u == t || clients'[u] == d;
    }
    assert clients'[t] == c;
  }

  /** Moving a thread from one point to another changes only who is at these two points. */
  predicate Moved(g: Signals, g': Signals, c: Client, c': Client) {
    && (g.stop && c != StopSet ==> g'.stop) && (c' == StopSet ==> g'.stop)
    && (g.noti && c != NotifySet ==> g'.noti) && (c' == NotifySet ==> g'.noti)
    && (g.pushed && c != QueuePushed ==> g'.pushed) && (c' == QueuePushed ==> g'.pushed)
    && (g.signal && c != QueueSignal ==> g'.signal) && (c' == QueueSignal ==> g'.signal)
    && (g.edited && c != PollEdited ==> g'.edited) && (c' == PollEdited ==> g'.edited)
    && (g.pollSignal && c != PollSignal ==> g'.pollSignal) && (c' == PollSignal ==> g'.pollSignal)
    && (g.spawned && c != StartSpawned ==> g'.spawned) && (c' == StartSpawned ==> g'.spawned)
    && (g'.spawned ==> g.spawned || c' == StartSpawned)
  }

  lemma {:induction false} ClientMoved(clients: seq<Client>, t: nat, c': Client)
    requires t < |clients|
    ensures Moved(SignalsOf(clients), SignalsOf(clients[t := c']), clients[t], c')
  {
    SomeoneAfter(clients, t, c', StopSet);
    SomeoneAfter(clients, t, c', NotifySet);
    SomeoneAfter(clients, t, c', QueuePushed);
    SomeoneAfter(clients, t, c', QueueSignal);
    SomeoneAfter(clients, t, c', StartSpawned);
    SomeoneAfter(clients, t, c', PollEdited);
    SomeoneAfter(clients, t, c', PollSignal);
  }

  /** What a step does to the lock. */
  predicate LockMoves(t: nat, c: Client, m: Shared, c': Client, m': Shared) {
    && m'.lock == (if HoldsLock(c') then ByClient(t) else if HoldsLock(c) then Unlocked else m.lock)
    && (HoldsLock(c') && !HoldsLock(c) ==> m.lock == Unlocked)
    && (ServerHolds(m.server) <==> ServerHolds(m'.server))
  }

  lemma {:induction false} LockLocks(t: nat, c: Client, m: Shared, c': Client, m': Shared)
    requires LockStep(t, c, m, c', m') && (HoldsLock(c) <==> m.lock == ByClient(t))
    requires ServerHolds(m.server) <==> m.lock == ByServer
    ensures LockMoves(t, c, m, c', m')
  {
    match c {
      case QueueWait =>
      case PollWait =>
      case NotifyWait =>
      case StartWait =>
    }
  }

  lemma {:induction false} QueueLocks(t: nat, c: Client, m: Shared, c': Client, m': Shared)
    requires QueueStep(c, m, c', m') && (HoldsLock(c) <==> m.lock == ByClient(t))
    requires ServerHolds(m.server) <==> m.lock == ByServer
    ensures LockMoves(t, c, m, c', m')
  {
    match c {
      case Free =>
      case QueueLocked =>
      case QueuePushed =>
      case QueueSignal =>
      case QueueEnd =>
    }
  }

  lemma {:induction false} PollLocks(t: nat, c: Client, m: Shared, c': Client, m': Shared)
    requires PollStep(c, m, c', m') && (HoldsLock(c) <==> m.lock == ByClient(t))
    requires ServerHolds(m.server) <==> m.lock == ByServer
    ensures LockMoves(t, c, m, c', m')
  {
    match c {
      case Free =>
      case PollLocked =>
      case PollEdited =>
      case PollSignal =>
      case PollEnd =>
    }
  }

  lemma {:induction false} NotifyLocks(t: nat, c: Client, m: Shared, c': Client, m': Shared)
    requires NotifyStep(c, m, c', m') && (HoldsLock(c) <==> m.lock == ByClient(t))
    requires ServerHolds(m.server) <==> m.lock == ByServer
    ensures LockMoves(t, c, m, c', m')
  {
    match c {
      case Free =>
      case NotifyLocked =>
      case NotifySet =>
      case NotifyEnd =>
    }
  }

  lemma {:induction false} StopLocks(t: nat, c: Client, m: Shared, c': Client, m': Shared)
    requires StopStep(c, m, c', m') && (HoldsLock(c) <==> m.lock == ByClient(t))
    requires ServerHolds(m.server) <==> m.lock == ByServer
    ensures LockMoves(t, c, m, c', m')
  {
    match c {
      case Free =>
      case StopChecked =>
      case StopSet =>
      case StopJoin =>
    }
  }

  lemma {:induction false} StartLocks(t: nat, c: Client, m: Shared, c': Client, m': Shared)
    requires StartStep(c, m, c', m') && (HoldsLock(c) <==> m.lock == ByClient(t))
    requires ServerHolds(m.server) <==> m.lock == ByServer
    ensures LockMoves(t, c, m, c', m')
  {
    match c {
      case Free =>
      case StartLocked =>
      case StartUnstopped =>
      case StartSpawned =>
      case StartEnd =>
    }
  }

  lemma {:induction false} ClientLocks(t: nat, c: Client, m: Shared, c': Client, m': Shared)
    requires ClientStep(t, c, m, c', m') && (HoldsLock(c) <==> m.lock == ByClient(t))
    requires ServerHolds(m.server) <==> m.lock == ByServer
    ensures LockMoves(t, c, m, c', m')
  {
    if LockStep(t, c, m, c', m') { LockLocks(t, c, m, c', m'); }
    else if QueueStep(c, m, c', m') { QueueLocks(t, c, m, c', m'); }
    else if PollStep(c, m, c', m') { PollLocks(t, c, m, c', m'); }
    else if NotifyStep(c, m, c', m') { NotifyLocks(t, c, m, c', m'); }
    else if StopStep(c, m, c', m') { StopLocks(t, c, m, c', m'); }
    else { StartLocks(t, c, m, c', m'); }
  }

  lemma {:induction false} LockInvKept(s: State, s': State, t: nat, c: Client)
    requires LockInv(s) && t < |s.clients| && s'.clients == s.clients[t := c]
    requires LockMoves(t, s.clients[t], s.m, c, s'.m)
    ensures LockInv(s')
  {
    forall u | 0 <= u < |s'.clients|
      ensures HoldsLock(s'.clients[u]) <==> s'.m.lock == ByClient(u)
    {
      assert u != t ==> s'.clients[u] == s.clients[u];
    }
  }

  /** Only the holder of the lock can be creating a server. */
  lemma {:induction false} OneCreator(s: State, t: nat)
    requires LockInv(s) && t < |s.clients| && HoldsLock(s.clients[t])
    ensures SignalsOf(s.clients).spawned ==> s.clients[t] == StartSpawned
  {
  }

  lemma {:induction false} LockKeeps(t: nat, c: Client, m: Shared, c': Client, m': Shared, g: Signals, g': Signals)
    requires LockStep(t, c, m, c', m') && Moved(g, g', c, c') && ActiveInv(m, g) && EventInv(m, g)
    requires HoldsLock(c) && g.spawned ==> c == StartSpawned
    requires HoldsLock(c') && g'.spawned ==> c' == StartSpawned
    ensures ActiveInv(m', g') && EventInv(m', g')
  {
    match c {
      case QueueWait =>
      case PollWait =>
      case NotifyWait =>
      case StartWait =>
    }
  }

  lemma {:induction false} QueueKeeps(t: nat, c: Client, m: Shared, c': Client, m': Shared, g: Signals, g': Signals)
    requires QueueStep(c, m, c', m') && Moved(g, g', c, c') && ActiveInv(m, g) && EventInv(m, g)
    requires HoldsLock(c) && g.spawned ==> c == StartSpawned
    requires HoldsLock(c') && g'.spawned ==> c' == StartSpawned
    ensures ActiveInv(m', g') && EventInv(m', g')
  {
    match c {
      case Free =>
      case QueueLocked =>
      case QueuePushed =>
      case QueueSignal =>
      case QueueEnd =>
    }
  }

  lemma {:induction false} PollKeeps(t: nat, c: Client, m: Shared, c': Client, m': Shared, g: Signals, g': Signals)
    requires PollStep(c, m, c', m') && Moved(g, g', c, c') && ActiveInv(m, g) && EventInv(m, g)
    requires HoldsLock(c) && g.spawned ==> c == StartSpawned
    requires HoldsLock(c') && g'.spawned ==> c' == StartSpawned
    ensures ActiveInv(m', g') && EventInv(m', g')
  {
    match c {
      case Free =>
      case PollLocked =>
      case PollEdited =>
      case PollSignal =>
      case PollEnd =>
    }
  }

  lemma {:induction false} NotifyKeeps(t: nat, c: Client, m: Shared, c': Client, m': Shared, g: Signals, g': Signals)
    requires NotifyStep(c, m, c', m') && Moved(g, g', c, c') && ActiveInv(m, g) && EventInv(m, g)
    requires HoldsLock(c) && g.spawned ==> c == StartSpawned
    requires HoldsLock(c') && g'.spawned ==> c' == StartSpawned
    ensures ActiveInv(m', g') && EventInv(m', g')
  {
    match c {
      case Free =>
      case NotifyLocked =>
      case NotifySet =>
      case NotifyEnd =>
    }
  }

  lemma {:induction false} StopKeeps(t: nat, c: Client, m: Shared, c': Client, m': Shared, g: Signals, g': Signals)
    requires StopStep(c, m, c', m') && Moved(g, g', c, c') && ActiveInv(m, g) && EventInv(m, g)
    requires HoldsLock(c) && g.spawned ==> c == StartSpawned
    requires HoldsLock(c') && g'.spawned ==> c' == StartSpawned
    ensures ActiveInv(m', g') && EventInv(m', g')
  {
    match c {
      case Free =>
      case StopChecked =>
      case StopSet =>
      case StopJoin =>
    }
  }

  lemma {:induction false} StartKeeps(t: nat, c: Client, m: Shared, c': Client, m': Shared, g: Signals, g': Signals)
    requires StartStep(c, m, c', m') && Moved(g, g', c, c') && ActiveInv(m, g) && EventInv(m, g)
    requires HoldsLock(c) && g.spawned ==> c == StartSpawned
    requires HoldsLock(c') && g'.spawned ==> c' == StartSpawned
    ensures ActiveInv(m', g') && EventInv(m', g')
  {
    match c {
      case Free =>
      case StartLocked =>
      case StartUnstopped =>
      case StartSpawned =>
      case StartEnd =>
    }
  }

  lemma {:induction false} ClientKeeps(t: nat, c: Client, m: Shared, c': Client, m': Shared, g: Signals, g': Signals)
    requires ClientStep(t, c, m, c', m') && Moved(g, g', c, c') && ActiveInv(m, g) && EventInv(m, g)
    requires HoldsLock(c) && g.spawned ==> c == StartSpawned
    requires HoldsLock(c') && g'.spawned ==> c' == StartSpawned
    ensures ActiveInv(m', g') && EventInv(m', g')
  {
    if LockStep(t, c, m, c', m') { LockKeeps(t, c, m, c', m', g, g'); }
    else if QueueStep(c, m, c', m') { QueueKeeps(t, c, m, c', m', g, g'); }
    else if PollStep(c, m, c', m') { PollKeeps(t, c, m, c', m', g, g'); }
    else if NotifyStep(c, m, c', m') { NotifyKeeps(t, c, m, c', m', g, g'); }
    else if StopStep(c, m, c', m') { StopKeeps(t, c, m, c', m', g, g'); }
    else { StartKeeps(t, c, m, c', m', g, g'); }
  }

  /** What a step of the server keeps, whatever the clients do. */
  predicate Kept(m: Shared, g: Signals) {
    ActiveInv(m, g) && EventInv(m, g) && (ServerHolds(m.server) <==> m.lock == ByServer)
  }

  predicate SameClientLock(m: Shared, m': Shared) {
    m'.lock == m.lock || (!m.lock.ByClient? && !m'.lock.ByClient?)
  }

  lemma {:induction false} LoopKeeps(m: Shared, m': Shared, g: Signals)
    requires LoopStep(m, m') && Kept(m, g)
    ensures Kept(m', g) && SameClientLock(m, m')
  {
    match m.server {
      case Top =>
      case CheckAttn =>
      case CheckActn =>
    }
  }

  lemma {:induction false} DoPollKeeps(m: Shared, m': Shared, b: bool, g: Signals)
    requires DoPollStep(m, m', b) && Kept(m, g)
    ensures Kept(m', g) && SameClientLock(m, m')
  {
    match m.server {
      case RenewNow =>
      case PollNow =>
      case PolledNow =>
      case RenewForever =>
      case PollForever =>
      case PolledForever =>
    }
  }

  lemma {:induction false} CallKeeps(m: Shared, m': Shared, edit: bool, n: nat, g: Signals)
    requires CallStep(m, m', edit, n) && Kept(m, g)
    ensures Kept(m', g) && SameClientLock(m, m')
  {
    match m.server {
      case Calls =>
    }
  }

  lemma {:induction false} InputKeeps(m: Shared, m': Shared, g: Signals)
    requires InputStep(m, m') && Kept(m, g)
    ensures Kept(m', g) && SameClientLock(m, m')
  {
    match m.server {
      case InputWait =>
      case InputRun =>
      case InputNotify =>
      case InputNotified =>
    }
  }

  lemma {:induction false} AttnKeeps(m: Shared, m': Shared, b: bool, g: Signals)
    requires AttnStep(m, m', b) && Kept(m, g)
    ensures Kept(m', g) && SameClientLock(m, m')
  {
    match m.server {
      case AttnTest =>
      case AttnCheck =>
      case AttnWait =>
      case AttnMerge =>
      case AttnNext =>
    }
  }

  lemma {:induction false} HandlerKeeps(m: Shared, m': Shared, edit: bool, n: nat, g: Signals)
    requires HandlerStep(m, m', edit, n) && Kept(m, g)
    ensures Kept(m', g) && SameClientLock(m, m')
  {
    match m.server {
      case AttnHdlWait =>
      case AttnRun =>
      case AttnNotify =>
      case AttnNotified =>
    }
  }

  lemma {:induction false} ActnKeeps(m: Shared, m': Shared, b: bool, edit: bool, n: nat, g: Signals)
    requires ActnStep(m, m', b, edit, n) && Kept(m, g)
    ensures Kept(m', g) && SameClientLock(m, m')
  {
    match m.server {
      case ActnTest =>
      case ActnWait =>
      case ActnRun =>
      case ActnNotify =>
      case ActnNotified =>
    }
  }

  lemma {:induction false} ServerKeeps(m: Shared, m': Shared, b: bool, edit: bool, n: nat, g: Signals)
    requires ServerStep(m, m', b, edit, n) && Kept(m, g)
    ensures Kept(m', g) && SameClientLock(m, m')
  {
    if LoopStep(m, m') { LoopKeeps(m, m', g); }
    else if DoPollStep(m, m', b) { DoPollKeeps(m, m', b, g); }
    else if CallStep(m, m', edit, n) { CallKeeps(m, m', edit, n, g); }
    else if InputStep(m, m') { InputKeeps(m, m', g); }
    else if AttnStep(m, m', b) { AttnKeeps(m, m', b, g); }
    else if HandlerStep(m, m', edit, n) { HandlerKeeps(m, m', edit, n, g); }
    else { ActnKeeps(m, m', b, edit, n, g); }
  }

  /** Every step of every thread keeps the invariant. */
  lemma {:induction false} NextInv(s: State, s': State, move: Move)
    requires Inv(s) && Next(s, s', move)
    ensures Inv(s')
  {
    match move {
      case Move(t, c) =>
        ClientMoved(s.clients, t, c);
        ClientLocks(t, s.clients[t], s.m, c, s'.m);
        LockInvKept(s, s', t, c);
        if HoldsLock(s.clients[t]) { OneCreator(s, t); }
        if HoldsLock(c) { OneCreator(s', t); }
        ClientKeeps(t, s.clients[t], s.m, c, s'.m, SignalsOf(s.clients), SignalsOf(s'.clients));
      case ServerMove(b, edit, n) =>
        ServerKeeps(s.m, s'.m, b, edit, n, SignalsOf(s.clients));
    }
  }

  lemma {:induction false} InvInductive()
    ensures Inductive(Init, Next, Inv)
  {
    forall s | Init(s)
      ensures Inv(s)
    {
      InitInv(s);
    }
    forall s, s', m | Inv(s) && Next(s, s', m)
      ensures Inv(s')
    {
      NextInv(s, s', m);
    }
  }

  lemma {:induction false} RunInv(states: seq<State>, moves: seq<Move>, k: nat)
    requires Run(states, moves) && k < |states|
    ensures Inv(states[k])
  {
    InvInductive();
    InvariantHolds(Init, Next, Inv, states, moves, k);
  }

  // ------------------------------------------------------------- no lost wakeup

  /** In every interleaving: if the server waits forever while a stop, a notify, an action or a
      changed registration is pending, then the event is signalled, so that the poll returns, or
      a thread that published just this is on its way to signal it. An attention pattern is never
      pending then. */
  lemma {:induction false} NoLostWakeup(states: seq<State>, moves: seq<Move>, k: nat)
    requires Run(states, moves) && k < |states| && states[k].m.server == PollForever
    ensures var m, clients := states[k].m, states[k].clients;
            && (m.stop ==> m.event > 0 || Someone(clients, StopSet))
            && (m.noti ==> m.event > 0 || Someone(clients, NotifySet))
            && (m.actions > 0 ==> m.event > 0 || Someone(clients, QueuePushed) || Someone(clients, QueueSignal))
            && (m.update ==> m.event > 0 || Someone(clients, PollEdited) || Someone(clients, PollSignal))
            && !m.patt
  {
    RunInv(states, moves, k);
  }

  /** Such a thread does signal: while the server waits it is active, so the test before the
      signal succeeds. */
  lemma {:induction false} PublisherSignals(states: seq<State>, moves: seq<Move>, k: nat, t: nat)
    requires Run(states, moves) && k < |states| && t < |states[k].clients|
    requires states[k].m.server == PollForever
    requires states[k].clients[t] == QueuePushed || states[k].clients[t] == PollEdited
    ensures states[k].m.active
    ensures if states[k].clients[t] == QueuePushed then QueueStep(QueuePushed, states[k].m, QueueSignal, states[k].m)
            else PollStep(PollEdited, states[k].m, PollSignal, states[k].m)
  {
    RunInv(states, moves, k);
    OneCreator(states[k], t);
  }

  /** The lock is exclusive: two threads, or a thread and the server, never hold it together. */
  lemma {:induction false} LockExclusive(states: seq<State>, moves: seq<Move>, k: nat, t: nat, u: nat)
    requires Run(states, moves) && k < |states| && t < |states[k].clients| && u < |states[k].clients|
    requires HoldsLock(states[k].clients[t])
    ensures HoldsLock(states[k].clients[u]) ==> t == u
    ensures !ServerHolds(states[k].m.server)
  {
    RunInv(states, moves, k);
  }

  // ------------------------------------------------------------- what is pending stays pending

  /** A client never takes away what is pending, but that a start clears a stop; it publishes a stop and
      an edit, and signals what it published; and as long as it holds the lock after publishing an
      action or a notify, that is pending. */
  predicate ClientGives(c: Client, m: Shared, c': Client, m': Shared) {
    && m'.actions >= m.actions && (m.noti ==> m'.noti) && m'.patt == m.patt && (m.update ==> m'.update)
    && m'.event >= m.event && (m.stop ==> m'.stop || c == StartLocked)
    && (c'.StopSet? ==> m'.stop) && (c'.PollEdited? ==> m'.update) && (c'.StartUnstopped? ==> !m'.stop)
    && (c.StopSet? || c.NotifySet? || c.QueueSignal? || c.PollSignal? ==> m'.event > m.event)
    && (HasPublished(c, m) ==> HasPublished(c', m'))
  }

  predicate HasPublished(c: Client, m: Shared) {
    && (c.QueuePushed? || c.QueueSignal? || c.QueueEnd? ==> m.actions > 0)
    && (c.NotifySet? || c.NotifyEnd? ==> m.noti)
  }

  lemma {:induction false} LockGives(t: nat, c: Client, m: Shared, c': Client, m': Shared)
    requires LockStep(t, c, m, c', m')
    ensures ClientGives(c, m, c', m')
  {
    match c {
      case QueueWait =>
      case PollWait =>
      case NotifyWait =>
      case StartWait =>
    }
  }

  lemma {:induction false} QueueGives(c: Client, m: Shared, c': Client, m': Shared)
    requires QueueStep(c, m, c', m')
    ensures ClientGives(c, m, c', m')
  {
    match c {
      case Free =>
      case QueueLocked =>
      case QueuePushed =>
      case QueueSignal =>
      case QueueEnd =>
    }
  }

  lemma {:induction false} PollGives(c: Client, m: Shared, c': Client, m': Shared)
    requires PollStep(c, m, c', m')
    ensures ClientGives(c, m, c', m')
  {
    match c {
      case Free =>
      case PollLocked =>
      case PollEdited =>
      case PollSignal =>
      case PollEnd =>
    }
  }

  lemma {:induction false} NotifyGives(c: Client, m: Shared, c': Client, m': Shared)
    requires NotifyStep(c, m, c', m')
    ensures ClientGives(c, m, c', m')
  {
    match c {
      case Free =>
      case NotifyLocked =>
      case NotifySet =>
      case NotifyEnd =>
    }
  }

  lemma {:induction false} StopGives(c: Client, m: Shared, c': Client, m': Shared)
    requires StopStep(c, m, c', m')
    ensures ClientGives(c, m, c', m')
  {
    match c {
      case Free =>
      case StopChecked =>
      case StopSet =>
      case StopJoin =>
    }
  }

  lemma {:induction false} StartGives(c: Client, m: Shared, c': Client, m': Shared)
    requires StartStep(c, m, c', m')
    ensures ClientGives(c, m, c', m')
  {
    match c {
      case Free =>
      case StartLocked =>
      case StartUnstopped =>
      case StartSpawned =>
      case StartEnd =>
    }
  }

  lemma {:induction false} StepGives(t: nat, c: Client, m: Shared, c': Client, m': Shared)
    requires ClientStep(t, c, m, c', m')
    ensures ClientGives(c, m, c', m')
  {
    hide LockStep, QueueStep, PollStep, NotifyStep, StopStep, StartStep, ClientGives;
    if LockStep(t, c, m, c', m') { LockGives(t, c, m, c', m'); }
    else if QueueStep(c, m, c', m') { QueueGives(c, m, c', m'); }
    else if PollStep(c, m, c', m') { PollGives(c, m, c', m'); }
    else if NotifyStep(c, m, c', m') { NotifyGives(c, m, c', m'); }
    else if StopStep(c, m, c', m') { StopGives(c, m, c', m'); }
    else { StartGives(c, m, c', m'); }
  }

  /** The server takes away a notify only into the pattern, the pattern only at the end of a turn, one
      action only after calling it, an update only by renewing the poll arrays, the event only by
      reading it, and a stop never. */
  predicate ServerTakes(m: Shared, m': Shared) {
    && (m.noti && !m'.noti ==> m.server.AttnMerge? && m'.patt)
    && (m.patt && !m'.patt ==> m.server.AttnNext?)
    && (m'.actions < m.actions ==> m.server.ActnRun? && m'.actions == m.actions - 1)
    && (m.update && !m'.update ==> m.server.RenewNow? || m.server.RenewForever?)
    && (m'.event < m.event ==> m.server.Calls? && m'.event == 0)
    && m'.stop == m.stop && m'.active == m.active
  }

  lemma {:induction false} LoopTakes(m: Shared, m': Shared)
    requires LoopStep(m, m')
    ensures ServerTakes(m, m')
  {
    match m.server {
      case Top =>
      case CheckAttn =>
      case CheckActn =>
    }
  }

  lemma {:induction false} DoPollTakes(m: Shared, m': Shared, b: bool)
    requires DoPollStep(m, m', b)
    ensures ServerTakes(m, m')
  {
    match m.server {
      case RenewNow =>
      case PollNow =>
      case PolledNow =>
      case RenewForever =>
      case PollForever =>
      case PolledForever =>
    }
  }

  lemma {:induction false} CallTakes(m: Shared, m': Shared, edit: bool, n: nat)
    requires CallStep(m, m', edit, n)
    ensures ServerTakes(m, m')
  {
    match m.server {
      case Calls =>
    }
  }

  lemma {:induction false} InputTakes(m: Shared, m': Shared)
    requires InputStep(m, m')
    ensures ServerTakes(m, m')
  {
    match m.server {
      case InputWait =>
      case InputRun =>
      case InputNotify =>
      case InputNotified =>
    }
  }

  lemma {:induction false} AttnTakes(m: Shared, m': Shared, b: bool)
    requires AttnStep(m, m', b)
    ensures ServerTakes(m, m')
  {
    match m.server {
      case AttnTest =>
      case AttnCheck =>
      case AttnWait =>
      case AttnMerge =>
      case AttnNext =>
    }
  }

  lemma {:induction false} HandlerTakes(m: Shared, m': Shared, edit: bool, n: nat)
    requires HandlerStep(m, m', edit, n)
    ensures ServerTakes(m, m')
  {
    match m.server {
      case AttnHdlWait =>
      case AttnRun =>
      case AttnNotify =>
      case AttnNotified =>
    }
  }

  lemma {:induction false} ActnTakes(m: Shared, m': Shared, b: bool, edit: bool, n: nat)
    requires ActnStep(m, m', b, edit, n)
    ensures ServerTakes(m, m')
  {
    match m.server {
      case ActnTest =>
      case ActnWait =>
      case ActnRun =>
      case ActnNotify =>
      case ActnNotified =>
    }
  }

  lemma {:induction false} StepTakes(m: Shared, m': Shared, b: bool, edit: bool, n: nat)
    requires ServerStep(m, m', b, edit, n)
    ensures ServerTakes(m, m')
  {
    hide LoopStep, DoPollStep, CallStep, InputStep, AttnStep, HandlerStep, ActnStep, ServerTakes;
    if LoopStep(m, m') { LoopTakes(m, m'); }
    else if DoPollStep(m, m', b) { DoPollTakes(m, m', b); }
    else if CallStep(m, m', edit, n) { CallTakes(m, m', edit, n); }
    else if InputStep(m, m') { InputTakes(m, m'); }
    else if AttnStep(m, m', b) { AttnTakes(m, m', b); }
    else if HandlerStep(m, m', edit, n) { HandlerTakes(m, m', edit, n); }
    else { ActnTakes(m, m', b, edit, n); }
  }

  ghost predicate Published(s: State) {
    forall t :: 0 <= t < |s.clients| ==> HasPublished(s.clients[t], s.m)
  }

  lemma {:induction false} PublishedNext(s: State, s': State, move: Move)
    requires Inv(s) && Published(s) && Next(s, s', move)
    ensures Published(s')
  {
    hide ClientStep, ServerStep, EventInv, ActiveInv;
    match move {
      case Move(t, c) =>
        StepGives(t, s.clients[t], s.m, c, s'.m);
        forall u | 0 <= u < |s'.clients|
          ensures HasPublished(s'.clients[u], s'.m)
        {
          assert u != t ==> s'.clients[u] == s.clients[u];
        }
      case ServerMove(b, edit, n) =>
        StepTakes(s.m, s'.m, b, edit, n);
        forall u | 0 <= u < |s'.clients|
          ensures HasPublished(s'.clients[u], s'.m)
        {
          assert HasPublished(s.clients[u], s.m);
        }
    }
  }

  ghost predicate PublishedInv(s: State) {
    Inv(s) && Published(s)
  }

  /** In every interleaving: as long as the thread that queues an action or signals a notify holds the
      lock after publishing it, it is still pending. */
  lemma {:induction false} PendingWhileHeld(states: seq<State>, moves: seq<Move>, k: nat, t: nat)
    requires Run(states, moves) && k < |states| && t < |states[k].clients|
    ensures HasPublished(states[k].clients[t], states[k].m)
  {
    forall s | Init(s)
      ensures PublishedInv(s)
    {
      InitInv(s);
    }
    forall s, s', m | PublishedInv(s) && Next(s, s', m)
      ensures PublishedInv(s')
    {
      NextInv(s, s', m);
      PublishedNext(s, s', m);
    }
    InvariantHolds(Init, Next, PublishedInv, states, moves, k);
  }
}
