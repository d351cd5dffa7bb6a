/** The poll loop: registered handlers, the arrays handed to poll, and the calls made. */
module ReventLoop {

  /** A registration; handlers are identified by a number. */
  datatype Dsc = Dsc(handler: nat, fd: int, events: int)

  datatype PollFd = PollFd(fd: int, events: int, revents: int)

  datatype Loop = Loop(dsc: seq<Dsc>, fds: seq<PollFd>, hdls: seq<nat>, update: bool)

  /** What handlers and other threads do to the registrations. */
  datatype Edit = Add(dsc: Dsc) | Remove(fd: int, events: int) | RemoveAll(fd: int)

  predicate Matches(d: Dsc, fd: int, events: int) {
    d.fd == fd && d.events == events
  }

  predicate Registered(dsc: seq<Dsc>, fd: int, events: int) {
    exists k :: 0 <= k < |dsc| && Matches(dsc[k], fd, events)
  }

  /** No two registrations are for the same descriptor and events. */
  ghost predicate Unique(dsc: seq<Dsc>) {
    forall j, k :: 0 <= j < k < |dsc| ==> !Matches(dsc[j], dsc[k].fd, dsc[k].events)
  }

  function Without(dsc: seq<Dsc>, fd: int): seq<Dsc> {
    if dsc == [] then []
    else (if dsc[0].fd == fd then [] else [dsc[0]]) + Without(dsc[1..], fd)
  }

  /** Exactly the registrations for other descriptors remain. */
  lemma {:induction false} WithoutKeeps(dsc: seq<Dsc>, fd: int, d: Dsc)
    ensures d in Without(dsc, fd) <==> d in dsc && d.fd != fd
  {
    if dsc != [] {
      WithoutKeeps(dsc[1..], fd, d);
      assert d in dsc <==> d == dsc[0] || d in dsc[1..];
    }
  }

  /** Where a registration is, or the number of registrations. */
  function Find(dsc: seq<Dsc>, fd: int, events: int): (i: nat)
    ensures i <= |dsc|
    ensures i < |dsc| ==> Matches(dsc[i], fd, events)
    ensures forall k :: 0 <= k < i ==> !Matches(dsc[k], fd, events)
  {
    if dsc == [] || Matches(dsc[0], fd, events) then 0 else 1 + Find(dsc[1..], fd, events)
  }

  /** A duplicate registration is refused by an exception and leaves all as it was. */
  function Apply(l: Loop, e: Edit): (l': Loop)
    ensures l'.fds == l.fds && l'.hdls == l.hdls
  {
    match e
    case Add(d) =>
      if Registered(l.dsc, d.fd, d.events) then l else l.(dsc := l.dsc + [d], update := true)
    case Remove(fd, events) =>
      var i := Find(l.dsc, fd, events);
      if i == |l.dsc| then l else l.(dsc := l.dsc[..i] + l.dsc[i + 1..], update := true)
    case RemoveAll(fd) =>
      if Without(l.dsc, fd) == l.dsc then l else l.(dsc := Without(l.dsc, fd), update := true)
  }

  function ApplyAll(l: Loop, edits: seq<Edit>): (l': Loop)
    ensures l'.fds == l.fds && l'.hdls == l.hdls
    decreases |edits|
  {
    if edits == [] then l else ApplyAll(Apply(l, edits[0]), edits[1..])
  }

  /** The arrays handed to poll show the registrations. */
  ghost predicate Mirror(l: Loop) {
    && |l.fds| == |l.hdls| == |l.dsc|
    && forall k :: 0 <= k < |l.dsc| ==> Dsc(l.hdls[k], l.fds[k].fd, l.fds[k].events) == l.dsc[k]
  }

  ghost predicate Valid(l: Loop) {
    Unique(l.dsc) && |l.fds| == |l.hdls| && (!l.update ==> Mirror(l))
  }

  // ------------------------------------------------------------- registrations

  lemma {:induction false} WithoutUnique(dsc: seq<Dsc>, fd: int)
    requires Unique(dsc)
    ensures Unique(Without(dsc, fd))
  {
    if dsc != [] {
      WithoutUnique(dsc[1..], fd);
      var r := Without(dsc[1..], fd);
      forall k | 0 <= k < |r|
        ensures !Matches(dsc[0], r[k].fd, r[k].events)
      {
        WithoutKeeps(dsc[1..], fd, r[k]);
        assert r[k] in dsc[1..];
      }
    }
  }

  /** Every edit, by handlers or other threads, keeps registrations unique and the arrays exact
      or marked for renewal. */
  lemma {:induction false} ApplyValid(l: Loop, e: Edit)
    requires Valid(l)
    ensures Valid(Apply(l, e))
    ensures l.update ==> Apply(l, e).update
    ensures Apply(l, e).update || Apply(l, e) == l
  {
    match e {
      case Add(d) =>
        if !Registered(l.dsc, d.fd, d.events) {
          forall k | 0 <= k < |l.dsc|
            ensures !Matches(l.dsc[k], d.fd, d.events)
          {
          }
        }
      case Remove(fd, events) =>
      case RemoveAll(fd) => WithoutUnique(l.dsc, fd);
    }
  }

  lemma {:induction false} ApplyAllValid(l: Loop, edits: seq<Edit>)
    requires Valid(l)
    ensures Valid(ApplyAll(l, edits))
    ensures l.update ==> ApplyAll(l, edits).update
    ensures ApplyAll(l, edits).update || ApplyAll(l, edits) == l
    decreases |edits|
  {
    if edits != [] {
      ApplyValid(l, edits[0]);
      ApplyAllValid(Apply(l, edits[0]), edits[1..]);
    }
  }

  // ------------------------------------------------------------- polling

  function Refresh(l: Loop): Loop {
    if !l.update then l
    else
      Loop(l.dsc, seq(|l.dsc|, k requires 0 <= k < |l.dsc| => PollFd(l.dsc[k].fd, l.dsc[k].events, 0)),
           seq(|l.dsc|, k requires 0 <= k < |l.dsc| => l.dsc[k].handler), false)
  }

  /** One poll system call: its result, the events it reports, and the edits other threads make
      while it is under way. */
  datatype Turn = Turn(irc: int, interrupted: bool, revents: seq<int>, edits: seq<Edit>)

  function SetRevents(fds: seq<PollFd>, revents: seq<int>): (r: seq<PollFd>)
    ensures |r| == |fds|
  {
    seq(|fds|, k requires 0 <= k < |fds| =>
      if k < |revents| then fds[k].(revents := revents[k]) else fds[k])
  }

  datatype Polled = Polled(l: Loop, irc: int, failed: bool)

  /** DoPoll: renews the arrays when needed and repeats the call if they got out of date during
      it; turns is what the system calls do, and no turn left means it still waits. */
  function Poll(l: Loop, turns: seq<Turn>): Polled
    decreases |turns|
  {
    var f := Refresh(l);
    if f.fds == [] || turns == [] then Polled(f, 0, false)
    else
      var t := turns[0];
      var p := ApplyAll(f.(fds := SetRevents(f.fds, t.revents)), t.edits);
      if t.irc < 0 then Polled(p, 0, !t.interrupted)
      else if p.update then Poll(p, turns[1..])
      else Polled(p, t.irc, false)
  }

  lemma {:induction false} RefreshValid(l: Loop)
    requires Valid(l)
    ensures Valid(Refresh(l)) && Mirror(Refresh(l)) && !Refresh(l).update && Refresh(l).dsc == l.dsc
    ensures if l.update then forall k :: 0 <= k < |l.dsc| ==> Refresh(l).fds[k].revents == 0 else Refresh(l) == l
  {
  }

  lemma {:induction false} SetReventsValid(l: Loop, revents: seq<int>)
    requires Valid(l)
    ensures Valid(l.(fds := SetRevents(l.fds, revents)))
  {
  }

  /** When poll reports events, the arrays show the registrations of this very moment. */
  lemma {:induction false} PollCurrent(l: Loop, turns: seq<Turn>)
    requires Valid(l)
    ensures var p := Poll(l, turns);
            Valid(p.l) && (p.irc > 0 ==> Mirror(p.l) && !p.l.update)
    decreases |turns|
  {
    var f := Refresh(l);
    RefreshValid(l);
    if f.fds != [] && turns != [] {
      var s := f.(fds := SetRevents(f.fds, turns[0].revents));
      SetReventsValid(f, turns[0].revents);
      ApplyAllValid(s, turns[0].edits);
      PollCurrent(ApplyAll(s, turns[0].edits), turns[1..]);
    }
  }

  /** What a poll gives, turn m being the one that ended it: without registrations, or as long as it
      still waits, nothing; else the count of that turn, or a failure unless the call was only
      interrupted, and the events are those this turn reported. A turn that an update repeats is
      not the last, and gives nothing. */
  ghost predicate EndedBy(p: Polled, turns: seq<Turn>, m: nat) {
    && m <= |turns| && (forall j :: 0 <= j < m ==> turns[j].irc >= 0)
    && if p.l.fds == [] || m == |turns| then p.irc == 0 && !p.failed
       else
         && p.irc == (if turns[m].irc < 0 then 0 else turns[m].irc)
         && p.failed == (turns[m].irc < 0 && !turns[m].interrupted)
         && (turns[m].irc >= 0 ==> !p.l.update)
         && Reports(p.l, turns[m].revents)
  }

  /** The events in the array are those reported. */
  ghost predicate Reports(l: Loop, revents: seq<int>) {
    forall k :: 0 <= k < |l.fds| && k < |revents| ==> l.fds[k].revents == revents[k]
  }

  lemma {:induction false} PollEnds(l: Loop, turns: seq<Turn>) returns (m: nat)
    ensures EndedBy(Poll(l, turns), turns, m)
    decreases |turns|
  {
    m := 0;
    var f := Refresh(l);
    if f.fds != [] && turns != [] {
      var t := turns[0];
      var p := ApplyAll(f.(fds := SetRevents(f.fds, t.revents)), t.edits);
      if t.irc >= 0 && p.update {
        var n := PollEnds(p, turns[1..]);
        m := n + 1;
        assert forall j :: 0 < j < m ==> turns[j] == turns[1..][j - 1];
        assert m < |turns| ==> turns[m] == turns[1..][n];
      }
    }
  }

  // ------------------------------------------------------------- calling

  /** What a handler call does: edits, and a negative result to be removed; before are the edits
      other threads make between the test for an update and the call. */
  datatype Call = Call(before: seq<Edit>, edits: seq<Edit>, irc: int)

  const NO_CALL := Call([], [], 0)

  /** A call that was made, and the registrations when the update was tested for and when the
      call was made. */
  datatype Made = Made(called: Dsc, tested: seq<Dsc>, dsc: seq<Dsc>)

  ghost predicate WasRegistered(m: Made) {
    m.called in m.dsc
  }

  datatype Called = Called(l: Loop, made: seq<Made>)

  function AfterCall(l: Loop, i: nat, c: Call): Loop
    requires i < |l.fds|
  {
    var l' := ApplyAll(ApplyAll(l, c.before), c.edits);
    if c.irc < 0 then Apply(l', Remove(l.fds[i].fd, l.fds[i].events)) else l'
  }

  function MadeAt(l: Loop, i: nat, c: Call): Made
    requires i < |l.fds| == |l.hdls|
  {
    Made(Dsc(l.hdls[i], l.fds[i].fd, l.fds[i].events), l.dsc, ApplyAll(l, c.before).dsc)
  }

  /** DoCall from entry i on; the n-th call made behaves like calls[n], or does nothing. */
  function CallFrom(l: Loop, i: nat, calls: seq<Call>): Called
    requires i <= |l.fds| == |l.hdls|
    decreases |l.fds| - i
  {
    if i == |l.fds| || l.update then Called(l, [])
    else if l.fds[i].revents == 0 then CallFrom(l, i + 1, calls)
    else
      var c := if calls == [] then NO_CALL else calls[0];
      var l' := AfterCall(l, i, c);
      var rest := CallFrom(l', i + 1, if calls == [] then [] else calls[1..]);
      Called(rest.l, [MadeAt(l, i, c)] + rest.made)
  }

  /** Whatever handlers and other threads do to the registrations, each handler called was registered
      when the update was tested for, for the descriptor and events it is called with; and it is
      registered when it is called, if nothing came in between. */
  lemma {:induction false} CallsRegistered(l: Loop, i: nat, calls: seq<Call>)
    requires Valid(l) && i <= |l.fds|
    ensures Valid(CallFrom(l, i, calls).l)
    ensures forall m :: m in CallFrom(l, i, calls).made ==> m.called in m.tested
    ensures (forall k :: 0 <= k < |calls| ==> calls[k].before == []) ==>
      forall m :: m in CallFrom(l, i, calls).made ==> WasRegistered(m)
    decreases |l.fds| - i
  {
    if i < |l.fds| && !l.update {
      if l.fds[i].revents == 0 {
        CallsRegistered(l, i + 1, calls);
      } else {
        var c := if calls == [] then NO_CALL else calls[0];
        ApplyAllValid(l, c.before);
        ApplyAllValid(ApplyAll(l, c.before), c.edits);
        ApplyValid(ApplyAll(ApplyAll(l, c.before), c.edits), Remove(l.fds[i].fd, l.fds[i].events));
        CallsRegistered(AfterCall(l, i, c), i + 1, if calls == [] then [] else calls[1..]);
        assert l.dsc[i] == Dsc(l.hdls[i], l.fds[i].fd, l.fds[i].events);
      }
    }
  }

  /** Does this edit take registrations for these descriptor and events away. */
  predicate Removes(e: Edit, d: Dsc) {
    e == Remove(d.fd, d.events) || e == RemoveAll(d.fd)
  }

  /** Is d registered after the edits, when before them some registration for its descriptor and
      events was there or not (some), and d itself was or not (own): a removal takes it away, and
      the first addition after that brings back whoever is added. */
  predicate After(some: bool, own: bool, edits: seq<Edit>, d: Dsc)
    decreases |edits|
  {
    if edits == [] then own
    else if Removes(edits[0], d) then After(false, false, edits[1..], d)
    else if edits[0].Add? && Matches(edits[0].dsc, d.fd, d.events) && !some then
      After(true, edits[0].dsc == d, edits[1..], d)
    else After(some, own, edits[1..], d)
  }

  lemma {:induction false} RemovedAt(dsc: seq<Dsc>, i: nat, d: Dsc)
    requires Unique(dsc) && i < |dsc|
    ensures d in dsc[..i] + dsc[i + 1..] <==> d in dsc && d != dsc[i]
    ensures dsc[i].fd == d.fd && dsc[i].events == d.events ==> !Registered(dsc[..i] + dsc[i + 1..], d.fd, d.events)
    ensures !Matches(dsc[i], d.fd, d.events) ==>
      (Registered(dsc[..i] + dsc[i + 1..], d.fd, d.events) <==> Registered(dsc, d.fd, d.events))
  {
    var r := dsc[..i] + dsc[i + 1..];
    forall j | 0 <= j < |dsc| && j != i
      ensures r[if j < i then j else j - 1] == dsc[j] && !Matches(dsc[j], dsc[i].fd, dsc[i].events)
    {
      assert j < i ==> !Matches(dsc[j], dsc[i].fd, dsc[i].events);
      assert i < j ==> !Matches(dsc[i], dsc[j].fd, dsc[j].events);
    }
    forall k | 0 <= k < |r|
      ensures r[k] == dsc[if k < i then k else k + 1]
    {
    }
  }

  lemma {:induction false} RegisteredWithout(dsc: seq<Dsc>, fd: int, d: Dsc)
    ensures Registered(Without(dsc, fd), d.fd, d.events) <==> Registered(dsc, d.fd, d.events) && d.fd != fd
  {
    var r := Without(dsc, fd);
    if Registered(r, d.fd, d.events) {
      var k :| 0 <= k < |r| && Matches(r[k], d.fd, d.events);
      WithoutKeeps(dsc, fd, r[k]);
      var j :| 0 <= j < |dsc| && dsc[j] == r[k];
      assert Matches(dsc[j], d.fd, d.events);
    }
    if Registered(dsc, d.fd, d.events) && d.fd != fd {
      var j :| 0 <= j < |dsc| && Matches(dsc[j], d.fd, d.events);
      WithoutKeeps(dsc, fd, dsc[j]);
      var k :| 0 <= k < |r| && r[k] == dsc[j];
      assert Matches(r[k], d.fd, d.events);
    }
  }

  /** What one edit does to a registration. */
  lemma {:induction false} EditStep(l: Loop, e: Edit, d: Dsc)
    requires Unique(l.dsc)
    ensures var l' := Apply(l, e);
            var some, own := Registered(l.dsc, d.fd, d.events), d in l.dsc;
            if Removes(e, d) then !Registered(l'.dsc, d.fd, d.events) && d !in l'.dsc
            else if e.Add? && Matches(e.dsc, d.fd, d.events) && !some then
              Registered(l'.dsc, d.fd, d.events) && (d in l'.dsc <==> e.dsc == d)
            else (Registered(l'.dsc, d.fd, d.events) <==> some) && (d in l'.dsc <==> own)
  {
    match e {
      case Add(x) => AddStep(l, x, d);
      case Remove(fd, events) =>
        var i := Find(l.dsc, fd, events);
        if i < |l.dsc| {
          RemovedAt(l.dsc, i, d);
        }
        OwnIsSome(l.dsc, d);
      case RemoveAll(fd) =>
        WithoutKeeps(l.dsc, fd, d);
        RegisteredWithout(l.dsc, fd, d);
    }
  }

  lemma {:induction false} OwnIsSome(dsc: seq<Dsc>, d: Dsc)
    ensures d in dsc ==> Registered(dsc, d.fd, d.events)
  {
    if d in dsc {
      var k :| 0 <= k < |dsc| && dsc[k] == d;
      assert Matches(dsc[k], d.fd, d.events);
    }
  }

  lemma {:induction false} AddStep(l: Loop, x: Dsc, d: Dsc)
    ensures var l' := Apply(l, Add(x));
            var some := Registered(l.dsc, d.fd, d.events);
            if Matches(x, d.fd, d.events) && !some then
              Registered(l'.dsc, d.fd, d.events) && (d in l'.dsc <==> x == d)
            else (Registered(l'.dsc, d.fd, d.events) <==> some) && (d in l'.dsc <==> d in l.dsc)
  {
    var r := l.dsc + [x];
    assert r[|l.dsc|] == x;
    assert forall k :: 0 <= k < |l.dsc| ==> r[k] == l.dsc[k];
    OwnIsSome(l.dsc, d);
  }

  lemma {:induction false} EditsAfter(l: Loop, edits: seq<Edit>, d: Dsc)
    requires Valid(l)
    ensures d in ApplyAll(l, edits).dsc <==> After(Registered(l.dsc, d.fd, d.events), d in l.dsc, edits, d)
    decreases |edits|
  {
    if edits != [] {
      EditStep(l, edits[0], d);
      ApplyValid(l, edits[0]);
      EditsAfter(Apply(l, edits[0]), edits[1..], d);
    }
  }

  function CallAt(calls: seq<Call>, k: nat): Call {
    if k < |calls| then calls[k] else NO_CALL
  }

  /** The race that is left, for every call made: the handler is not registered when it is called
      exactly if other threads removed it between the test and the call and did not register it
      again, first of all, after that. */
  lemma {:induction false} RemovalRace(l: Loop, i: nat, calls: seq<Call>, k: nat)
    requires Valid(l) && i <= |l.fds| && k < |CallFrom(l, i, calls).made|
    ensures var m := CallFrom(l, i, calls).made[k];
            WasRegistered(m) <==> After(true, true, CallAt(calls, k).before, m.called)
    decreases |l.fds| - i
  {
    if l.fds[i].revents == 0 {
      RemovalRace(l, i + 1, calls, k);
    } else {
      var c := CallAt(calls, 0);
      var rest := if calls == [] then [] else calls[1..];
      if k == 0 {
        assert l.dsc[i] == Dsc(l.hdls[i], l.fds[i].fd, l.fds[i].events);
        OwnIsSome(l.dsc, l.dsc[i]);
        EditsAfter(l, c.before, l.dsc[i]);
      } else {
        CallValid(l, i, c);
        RemovalRace(AfterCall(l, i, c), i + 1, rest, k - 1);
        assert CallAt(rest, k - 1) == CallAt(calls, k);
      }
    }
  }

  lemma {:induction false} CallValid(l: Loop, i: nat, c: Call)
    requires Valid(l) && i < |l.fds|
    ensures Valid(AfterCall(l, i, c))
  {
    ApplyAllValid(l, c.before);
    ApplyAllValid(ApplyAll(l, c.before), c.edits);
    ApplyValid(ApplyAll(ApplyAll(l, c.before), c.edits), Remove(l.fds[i].fd, l.fds[i].events));
  }

  /** The registrations with reported events from i on. */
  function ReadyFrom(l: Loop, i: nat): seq<Dsc>
    requires i <= |l.fds| == |l.dsc|
    decreases |l.fds| - i
  {
    if i == |l.fds| then []
    else (if l.fds[i].revents != 0 then [l.dsc[i]] else []) + ReadyFrom(l, i + 1)
  }

  /** The registrations for which events are reported, in order. */
  function Reported(dsc: seq<Dsc>, revents: seq<int>): seq<Dsc>
    requires |dsc| == |revents|
  {
    if dsc == [] then []
    else Reported(dsc[..|dsc| - 1], revents[..|dsc| - 1]) + if revents[|dsc| - 1] != 0 then [dsc[|dsc| - 1]] else []
  }

  lemma {:induction false} ReadyBefore(l: Loop, i: nat, revents: seq<int>)
    requires i <= |l.fds| == |l.dsc| == |revents| && Reports(l, revents)
    ensures Reported(l.dsc, revents) == Reported(l.dsc[..i], revents[..i]) + ReadyFrom(l, i)
    decreases |l.fds| - i
  {
    if i == |l.fds| {
      assert l.dsc[..i] == l.dsc && revents[..i] == revents;
    } else {
      ReadyBefore(l, i + 1, revents);
      assert l.dsc[..i + 1][..i] == l.dsc[..i] && revents[..i + 1][..i] == revents[..i];
    }
  }

  /** The state after a call for registration d. */
  function AfterCallOf(l: Loop, d: Dsc, c: Call): Loop {
    var l' := ApplyAll(l, c.before + c.edits);
    if c.irc < 0 then Apply(l', Remove(d.fd, d.events)) else l'
  }

  lemma {:induction false} ApplyBoth(l: Loop, a: seq<Edit>, b: seq<Edit>)
    ensures ApplyAll(l, a + b) == ApplyAll(ApplyAll(l, a), b)
    decreases |a|
  {
    if a == [] {
      assert a + b == b;
    } else {
      assert (a + b)[1..] == a[1..] + b;
      ApplyBoth(Apply(l, a[0]), a[1..], b);
    }
  }

  /** A handler with a negative result is no longer registered for what it was called for. */
  lemma {:induction false} NegativeRemoves(l: Loop, d: Dsc, c: Call)
    requires Valid(l) && c.irc < 0
    ensures !Registered(AfterCallOf(l, d, c).dsc, d.fd, d.events)
  {
    ApplyAllValid(l, c.before + c.edits);
    EditStep(ApplyAll(l, c.before + c.edits), Remove(d.fd, d.events), d);
  }

  /** The calls made, whatever they do to the registrations: those with reported events, in order, up
      to and including the first one that leaves an update due. */
  ghost predicate CalledInOrder(l: Loop, ready: seq<Dsc>, calls: seq<Call>, c: Called) {
    && |c.made| <= |ready|
    && (forall k :: 0 <= k < |c.made| ==> c.made[k].called == ready[k] && c.made[k].tested == l.dsc)
    && (forall k :: 0 <= k < |c.made| - 1 ==> AfterCallOf(l, ready[k], CallAt(calls, k)) == l)
    && (|c.made| < |ready| ==> c.l.update)
    && c.l == if c.made == [] then l else AfterCallOf(l, ready[|c.made| - 1], CallAt(calls, |c.made| - 1))
  }

  lemma {:induction false} CallsInOrder(l: Loop, i: nat, calls: seq<Call>)
    requires Valid(l) && !l.update && i <= |l.fds|
    ensures CalledInOrder(l, ReadyFrom(l, i), calls, CallFrom(l, i, calls))
    decreases |l.fds| - i
  {
    if i < |l.fds| {
      if l.fds[i].revents == 0 {
        CallsInOrder(l, i + 1, calls);
        assert [] + ReadyFrom(l, i + 1) == ReadyFrom(l, i + 1);
      } else {
        var c := CallAt(calls, 0);
        var rest := if calls == [] then [] else calls[1..];
        CallIs(l, i, c);
        if AfterCall(l, i, c).update {
          assert CallFrom(AfterCall(l, i, c), i + 1, rest) == Called(AfterCall(l, i, c), []);
        } else {
          CallsInOrder(l, i + 1, rest);
          OrderedNext(l, l.dsc[i], ReadyFrom(l, i + 1), calls, rest, CallFrom(l, i + 1, rest), MadeAt(l, i, c));
        }
      }
    }
  }

  lemma {:induction false} CallIs(l: Loop, i: nat, c: Call)
    requires Valid(l) && !l.update && i < |l.fds|
    ensures AfterCall(l, i, c) == AfterCallOf(l, l.dsc[i], c)
    ensures AfterCall(l, i, c).update || AfterCall(l, i, c) == l
    ensures MadeAt(l, i, c).called == l.dsc[i] && MadeAt(l, i, c).tested == l.dsc
  {
    ApplyBoth(l, c.before, c.edits);
    ApplyAllValid(l, c.before);
    ApplyAllValid(ApplyAll(l, c.before), c.edits);
    ApplyValid(ApplyAll(ApplyAll(l, c.before), c.edits), Remove(l.fds[i].fd, l.fds[i].events));
    assert l.dsc[i] == Dsc(l.hdls[i], l.fds[i].fd, l.fds[i].events);
  }

  lemma {:induction false} OrderedNext(l: Loop, d: Dsc, ready: seq<Dsc>, calls: seq<Call>, rest: seq<Call>, c: Called,
                                       m: Made)
    requires CalledInOrder(l, ready, rest, c) && rest == (if calls == [] then [] else calls[1..])
    requires AfterCallOf(l, d, CallAt(calls, 0)) == l && m.called == d && m.tested == l.dsc
    ensures CalledInOrder(l, [d] + ready, calls, Called(c.l, [m] + c.made))
  {
    assert forall k: nat :: CallAt(calls, k + 1) == CallAt(rest, k);
    forall k | 0 <= k < |c.made| + 1
      ensures ([m] + c.made)[k].called == ([d] + ready)[k] && ([m] + c.made)[k].tested == l.dsc
      ensures k < |c.made| ==> AfterCallOf(l, ([d] + ready)[k], CallAt(calls, k)) == l
    {
      if k > 0 {
        assert CallAt(calls, k) == CallAt(rest, k - 1);
      }
    }
  }

  /** A poll that gives a positive count, and the calls after it: exactly the handlers whose events the
      last turn reported are called, in order, as long as they leave the registrations alone. */
  lemma {:induction false} ReportedCalled(l: Loop, turns: seq<Turn>, calls: seq<Call>) returns (m: nat)
    requires Valid(l) && Poll(l, turns).irc > 0
    ensures var p := Poll(l, turns);
            && m < |turns| && p.irc == turns[m].irc && Mirror(p.l)
            && (|turns[m].revents| == |p.l.dsc| ==>
                  CalledInOrder(p.l, Reported(p.l.dsc, turns[m].revents), calls, CallFrom(p.l, 0, calls)))
  {
    var p := Poll(l, turns);
    PollCurrent(l, turns);
    m := PollEnds(l, turns);
    if |turns[m].revents| == |p.l.dsc| {
      ReadyBefore(p.l, 0, turns[m].revents);
      assert [] + ReadyFrom(p.l, 0) == ReadyFrom(p.l, 0);
      CallsInOrder(p.l, 0, calls);
    }
  }

  lemma {:induction false} NothingDone(l: Loop, d: Dsc, c: Call)
    requires c.before == [] && c.edits == [] && c.irc >= 0
    ensures AfterCallOf(l, d, c) == l
  {
    assert c.before + c.edits == [];
  }

  /** Handlers that leave the registrations alone are called for every reported event, in order. */
  lemma {:induction false} AllReadyCalled(l: Loop, i: nat, calls: seq<Call>)
    requires Valid(l) && !l.update && i <= |l.fds|
    requires forall k :: 0 <= k < |calls| ==> calls[k].before == [] && calls[k].edits == [] && calls[k].irc >= 0
    ensures var c := CallFrom(l, i, calls);
            && c.l == l && |c.made| == |ReadyFrom(l, i)|
            && forall k :: 0 <= k < |c.made| ==> c.made[k].called == ReadyFrom(l, i)[k]
  {
    hide CallFrom, ReadyFrom, AfterCallOf;
    var c, ready := CallFrom(l, i, calls), ReadyFrom(l, i);
    CallsInOrder(l, i, calls);
    if c.made != [] {
      NothingDone(l, ready[|c.made| - 1], CallAt(calls, |c.made| - 1));
    }
  }

  // ------------------------------------------------------------- the loop object

  class EventLoop {
    var pollDsc: seq<Dsc>
    var pollFd: seq<PollFd>
    var pollHdl: seq<nat>
    var updatePoll: bool
    ghost var made: seq<Made>

    ghost function State(): Loop
      reads this
    {
      Loop(pollDsc, pollFd, pollHdl, updatePoll)
    }

    constructor ()
      ensures Valid(State()) && pollDsc == [] && made == []
    {
      pollDsc, pollFd, pollHdl, updatePoll, made := [], [], [], false, [];
    }

    /** Registers a handler; false stands for the exception on a duplicate. */
    method AddPollHandler(handler: nat, fd: int, events: int) returns (ok: bool)
      modifies `pollDsc, `updatePoll
      ensures State() == Apply(old(State()), Add(Dsc(handler, fd, events)))
      ensures ok <==> !Registered(old(pollDsc), fd, events)
      ensures pollDsc == old(pollDsc) + (if ok then [Dsc(handler, fd, events)] else [])
      ensures updatePoll == (old(updatePoll) || ok)
    {
      var i := 0;
      while i < |pollDsc|
        invariant i <= |pollDsc| && State() == old(State())
        invariant forall k :: 0 <= k < i ==> !Matches(pollDsc[k], fd, events)
      {
        if pollDsc[i].fd == fd && pollDsc[i].events == events {
          assert Matches(pollDsc[i], fd, events);
          return false;
        }
        i := i + 1;
      }
      pollDsc := pollDsc + [Dsc(handler, fd, events)];
      updatePoll := true;
      return true;
    }

    /** Removes a registration; false if there is none. */
    method RemovePollHandler(fd: int, events: int) returns (ok: bool)
      modifies `pollDsc, `updatePoll
      ensures State() == Apply(old(State()), Remove(fd, events))
      ensures ok <==> Registered(old(pollDsc), fd, events)
      ensures updatePoll == (old(updatePoll) || ok)
      ensures if ok then exists i :: Erased(old(pollDsc), i, fd, events, pollDsc) else pollDsc == old(pollDsc)
    {
      var i := 0;
      while i < |pollDsc|
        invariant i <= |pollDsc| && State() == old(State())
        invariant forall k :: 0 <= k < i ==> !Matches(pollDsc[k], fd, events)
      {
        if pollDsc[i].fd == fd && pollDsc[i].events == events {
          FindIs(pollDsc, fd, events, i);
          pollDsc := pollDsc[..i] + pollDsc[i + 1..];
          updatePoll := true;
          assert Erased(old(pollDsc), i, fd, events, pollDsc);
          return true;
        }
        i := i + 1;
      }
      FindIs(pollDsc, fd, events, i);
      return false;
    }

    method TestPollHandler(fd: int, events: int) returns (found: bool)
      ensures found <==> Registered(pollDsc, fd, events)
    {
      var i := 0;
      while i < |pollDsc|
        invariant i <= |pollDsc|
        invariant forall k :: 0 <= k < i ==> !Matches(pollDsc[k], fd, events)
      {
        if pollDsc[i].fd == fd && pollDsc[i].events == events {
          assert Matches(pollDsc[i], fd, events);
          return true;
        }
        i := i + 1;
      }
      return false;
    }

    /** Removes all registrations of a descriptor, re-probing an index after erasing there. */
    method RemoveDescriptor(fd: int)
      modifies `pollDsc, `updatePoll
      ensures State() == Apply(old(State()), RemoveAll(fd))
      ensures pollDsc == Without(old(pollDsc), fd) && updatePoll == (old(updatePoll) || |pollDsc| < |old(pollDsc)|)
    {
      var i := 0;
      ghost var total, all := Without(pollDsc, fd), |pollDsc|;
      assert pollDsc[0..] == pollDsc;
      while i < |pollDsc|
        invariant Erasing(pollDsc, i, fd, total) && |pollDsc| <= all
        invariant |pollDsc| == all ==> pollDsc == old(pollDsc)
        invariant updatePoll == (old(updatePoll) || |pollDsc| < all)
        decreases |pollDsc| - i
      {
        if pollDsc[i].fd == fd {
          EraseHere(pollDsc, i, fd, total);
          pollDsc := pollDsc[..i] + pollDsc[i + 1..];
          updatePoll := true;
        } else {
          EraseNext(pollDsc, i, fd, total);
          i := i + 1;
        }
      }
      ErasedAll(pollDsc, i, fd, total);
      RemovedAll(old(State()), fd, pollDsc, updatePoll);
    }

    /** An edit made by a handler or another thread. */
    method Perform(e: Edit)
      modifies `pollDsc, `updatePoll
      ensures State() == Apply(old(State()), e)
    {
      match e
      case Add(d) =>
        var _ := AddPollHandler(d.handler, d.fd, d.events);
      case Remove(fd, events) =>
        var _ := RemovePollHandler(fd, events);
      case RemoveAll(fd) =>
        RemoveDescriptor(fd);
    }

    method PerformAll(edits: seq<Edit>)
      modifies `pollDsc, `updatePoll
      ensures State() == ApplyAll(old(State()), edits)
    {
      var i := 0;
      while i < |edits|
        invariant i <= |edits| && ApplyAll(State(), edits[i..]) == ApplyAll(old(State()), edits)
        invariant pollFd == old(pollFd) && pollHdl == old(pollHdl)
      {
        assert edits[i..][1..] == edits[i + 1..];
        Perform(edits[i]);
        i := i + 1;
      }
    }

    /** Brings the arrays up to date if they are not. */
    method Renew()
      modifies `pollFd, `pollHdl, `updatePoll
      ensures State() == Refresh(old(State()))
    {
      if updatePoll {
        pollFd := seq(|pollDsc|, k requires 0 <= k < |pollDsc| reads this => PollFd(pollDsc[k].fd, pollDsc[k].events, 0));
        pollHdl := seq(|pollDsc|, k requires 0 <= k < |pollDsc| reads this => pollDsc[k].handler);
        updatePoll := false;
      }
    }

    /** Waits for events; turns is what the system calls do, and how often they are made. */
    method DoPoll(turns: seq<Turn>) returns (irc: int, failed: bool)
      modifies `pollDsc, `pollFd, `pollHdl, `updatePoll
      ensures Polled(State(), irc, failed) == Poll(old(State()), turns)
    {
      var i := 0;
      while true
        invariant i <= |turns| && Poll(State(), turns[i..]) == Poll(old(State()), turns)
        decreases |turns| - i
      {
        Renew();
        if |pollFd| == 0 || i == |turns| {
          return 0, false;
        }
        var t := turns[i];
        assert turns[i..][0] == t && turns[i..][1..] == turns[i + 1..];
        pollFd := SetRevents(pollFd, t.revents);
        PerformAll(t.edits);
        if t.irc < 0 {
          return 0, !t.interrupted;
        }
        if !updatePoll {
          return t.irc, false;
        }
        i := i + 1;
      }
    }

    /** The effect of one handler call: its edits, and its removal if it asks for that. */
    method CallHandler(i: nat, c: Call)
      requires i < |pollFd|
      modifies `pollDsc, `updatePoll
      ensures State() == AfterCall(old(State()), i, c.(before := []))
    {
      PerformAll(c.edits);
      if c.irc < 0 {
        var _ := RemovePollHandler(pollFd[i].fd, pollFd[i].events);
      }
    }

    /** Calls the handlers with reported events; calls says what each call does. */
    method DoCall(calls: seq<Call>)
      requires |pollFd| == |pollHdl|
      modifies `pollDsc, `updatePoll, `made
      ensures var c := CallFrom(old(State()), 0, calls);
              State() == c.l && made == old(made) + c.made
    {
      var i, n := 0, 0;
      ghost var all, before := CallFrom(State(), 0, calls), made;
      assert calls[0..] == calls;
      while i < |pollFd|
        invariant i <= |pollFd| == |pollHdl| && n <= |calls|
        invariant Calling(CallFrom(State(), i, calls[n..]), made, all, before)
      {
        if updatePoll {
          break;
        }
        if pollFd[i].revents != 0 {
          ghost var l, rest, made0 := State(), calls[n..], made;
          var c := if n < |calls| then calls[n] else NO_CALL;
          ghost var called, tested := Dsc(pollHdl[i], pollFd[i].fd, pollFd[i].events), pollDsc;
          PerformAll(c.before);
          made := made + [Made(called, tested, pollDsc)];
          CallHandler(i, c);
          n := if n < |calls| then n + 1 else n;
          assert calls[n..] == if rest == [] then [] else rest[1..];
          CallingStep(l, i, rest, made0, all, before);
        }
        i := i + 1;
      }
    }
  }

  /** Entry i is the one to be removed, and it alone is gone. */
  ghost predicate Erased(dsc: seq<Dsc>, i: nat, fd: int, events: int, dsc': seq<Dsc>) {
    i < |dsc| && dsc[i].fd == fd && dsc[i].events == events && dsc' == dsc[..i] + dsc[i + 1..]
  }

  /** What is still to come, behind the calls made, is all there is to be. */
  ghost predicate Calling(rest: Called, made: seq<Made>, all: Called, before: seq<Made>) {
    rest.l == all.l && made + rest.made == before + all.made
  }

  lemma {:induction false} CallingStep(l: Loop, i: nat, calls: seq<Call>, made: seq<Made>, all: Called, before: seq<Made>)
    requires i < |l.fds| == |l.hdls| && !l.update && l.fds[i].revents != 0
    requires Calling(CallFrom(l, i, calls), made, all, before)
    ensures var c := if calls == [] then NO_CALL else calls[0];
            var m := MadeAt(l, i, c);
            Calling(CallFrom(AfterCall(l, i, c), i + 1, if calls == [] then [] else calls[1..]), made + [m], all, before)
  {
    var c := if calls == [] then NO_CALL else calls[0];
    var m := MadeAt(l, i, c);
    var rest := CallFrom(AfterCall(l, i, c), i + 1, if calls == [] then [] else calls[1..]);
    assert made + ([m] + rest.made) == made + [m] + rest.made;
  }

  lemma {:induction false} ErasedAll(dsc: seq<Dsc>, i: nat, fd: int, total: seq<Dsc>)
    requires i == |dsc| && Erasing(dsc, i, fd, total)
    ensures dsc == total
  {
    assert dsc[i..] == [] && dsc[..i] == dsc;
  }

  lemma {:induction false} RemovedAll(l: Loop, fd: int, dsc: seq<Dsc>, update: bool)
    requires dsc == Without(l.dsc, fd) && (|dsc| == |l.dsc| ==> dsc == l.dsc)
    requires update == (l.update || |dsc| < |l.dsc|) && |dsc| <= |l.dsc|
    ensures l.(dsc := dsc, update := update) == Apply(l, RemoveAll(fd))
  {
  }

  /** The entries before i stay, those from i on are still to be looked at. */
  ghost predicate Erasing(dsc: seq<Dsc>, i: nat, fd: int, total: seq<Dsc>) {
    i <= |dsc| && dsc[..i] + Without(dsc[i..], fd) == total
  }

  lemma {:induction false} EraseHere(dsc: seq<Dsc>, i: nat, fd: int, total: seq<Dsc>)
    requires i < |dsc| && dsc[i].fd == fd && Erasing(dsc, i, fd, total)
    ensures Erasing(dsc[..i] + dsc[i + 1..], i, fd, total)
  {
    var erased := dsc[..i] + dsc[i + 1..];
    assert dsc[i..][1..] == dsc[i + 1..];
    assert Without(dsc[i..], fd) == Without(dsc[i + 1..], fd);
    assert erased[..i] == dsc[..i] && erased[i..] == dsc[i + 1..];
  }

  lemma {:induction false} EraseNext(dsc: seq<Dsc>, i: nat, fd: int, total: seq<Dsc>)
    requires i < |dsc| && dsc[i].fd != fd && Erasing(dsc, i, fd, total)
    ensures Erasing(dsc, i + 1, fd, total)
  {
    var x, w := dsc[i], Without(dsc[i + 1..], fd);
    assert dsc[i..][0] == x && dsc[i..][1..] == dsc[i + 1..];
    assert dsc[..i + 1] == dsc[..i] + [x];
    assert dsc[..i] + ([x] + w) == dsc[..i] + [x] + w;
  }

  lemma {:induction false} FindIs(dsc: seq<Dsc>, fd: int, events: int, i: nat)
    requires i <= |dsc| && (i < |dsc| ==> Matches(dsc[i], fd, events))
    requires forall k :: 0 <= k < i ==> !Matches(dsc[k], fd, events)
    ensures Find(dsc, fd, events) == i
  {
  }
}
