/** Attention handling and the action list of the server thread. Attention patterns and
    handler masks are sets of bit numbers. */
module RlinkServerAttn {

  type pattern = set<nat>

  // ------------------------------------------------------------- one handler turn

  /** Is handler i called in a turn with this pattern. */
  predicate Runs(patt: pattern, masks: seq<pattern>, i: nat)
    requires i < |masks|
  {
    patt * masks[i] != {}
  }

  /** The handlers called among the first k, each once, in order of registration. */
  function Callees(patt: pattern, masks: seq<pattern>, k: nat): seq<nat>
    requires k <= |masks|
  {
    if k == 0 then [] else Callees(patt, masks, k - 1) + if Runs(patt, masks, k - 1) then [k - 1] else []
  }

  /** How many of the handlers called had a notify come in. */
  function Signalled(called: seq<nat>, signals: seq<pattern>): nat {
    if called == [] then 0
    else
      var i := called[|called| - 1];
      Signalled(called[..|called| - 1], signals) + if i < |signals| && signals[i] != {} then 1 else 0
  }

  lemma {:induction false} SignalledNext(called: seq<nat>, signals: seq<pattern>, i: nat)
    requires i < |signals|
    ensures Signalled(called + [i], signals) == Signalled(called, signals) + if signals[i] != {} then 1 else 0
  {
    assert (called + [i])[..|called|] == called;
  }

  ghost predicate Rising(s: seq<nat>, n: nat) {
    (forall i, j :: 0 <= i < j < |s| ==> s[i] < s[j]) && forall i :: 0 <= i < |s| ==> s[i] < n
  }

  lemma {:induction false} CalleesRun(patt: pattern, masks: seq<pattern>, k: nat, i: nat)
    requires k <= |masks|
    ensures Rising(Callees(patt, masks, k), k)
    ensures i in Callees(patt, masks, k) <==> i < k && Runs(patt, masks, i)
  {
    if k > 0 {
      CalleesRun(patt, masks, k - 1, i);
    }
  }

  /** The bits carried over to the next turn after the first k handlers; harvests[i] is what
      handler i got by its destructive harvest if it was called. The source takes the matching
      bits out again, which it marks as a patch; patched tells whether that is done. */
  function Carried(patched: bool, patt: pattern, masks: seq<pattern>, harvests: seq<pattern>, k: nat): pattern
    requires k <= |masks| == |harvests|
  {
    if k == 0 then {}
    else
      var h := Carried(patched, patt, masks, harvests, k - 1);
      if !Runs(patt, masks, k - 1) then h
      else h + (harvests[k - 1] - masks[k - 1]) - if patched then patt * masks[k - 1] else {}
  }

  /** The bits handled by the first k handlers. */
  function Handled(patt: pattern, masks: seq<pattern>, k: nat): pattern
    requires k <= |masks|
  {
    if k == 0 then {} else Handled(patt, masks, k - 1) + patt * masks[k - 1]
  }

  /** The bits nobody handles; if there are any, a default harvest is made. */
  function Unhandled(patt: pattern, masks: seq<pattern>): pattern {
    patt - Handled(patt, masks, |masks|)
  }

  /** The pattern after the turn. */
  function NextPattern(patched: bool, patt: pattern, masks: seq<pattern>, harvests: seq<pattern>,
                       default: pattern): pattern
    requires |masks| == |harvests|
  {
    var left := Unhandled(patt, masks);
    Carried(patched, patt, masks, harvests, |masks|) + if left != {} then default - left else {}
  }

  lemma {:induction false} TurnBegins(patt: pattern, masks: seq<pattern>, harvests: seq<pattern>, signals: seq<pattern>)
    requires |masks| == |harvests|
    ensures Carried(true, patt, masks, harvests, 0) == {} == Handled(patt, masks, 0)
    ensures Callees(patt, masks, 0) == [] && Signalled([], signals) == 0
  {
  }

  /** One handler more. */
  lemma {:induction false} TurnNext(patt: pattern, masks: seq<pattern>, harvests: seq<pattern>, i: nat)
    requires i < |masks| == |harvests|
    ensures var hmatch := patt * masks[i];
            var carried, handled := Carried(true, patt, masks, harvests, i), Handled(patt, masks, i);
            && Carried(true, patt, masks, harvests, i + 1)
                 == (if hmatch == {} then carried else carried + (harvests[i] - masks[i]) - hmatch)
            && Handled(patt, masks, i + 1) == (if hmatch == {} then handled else handled + hmatch)
            && Callees(patt, masks, i + 1) == Callees(patt, masks, i) + if hmatch == {} then [] else [i]
  {
    var callees := Callees(patt, masks, i);
    assert callees + [] == callees;
  }

  // ------------------------------------------------------------- no attention is lost

  /** Handler i gets to know of bit b harvested at position j: b is kept for the next turn, or
      i ran with that harvest or after it. */
  ghost predicate Served(patt: pattern, masks: seq<pattern>, next: pattern, j: nat, b: nat, i: nat)
    requires i < |masks|
  {
    b in next || (i >= j && Runs(patt, masks, i))
  }

  /** No bit returned by any harvest of the turn is lost for any handler that waits for it; the
      default harvest comes last. */
  ghost predicate NothingLost(patched: bool, patt: pattern, masks: seq<pattern>, harvests: seq<pattern>, default: pattern)
    requires |masks| == |harvests|
  {
    var next := NextPattern(patched, patt, masks, harvests, default);
    && (forall i, j, b ::
          (0 <= i < |masks| && 0 <= j < |masks| && Runs(patt, masks, j) && b in harvests[j] && b in masks[i])
          ==> Served(patt, masks, next, j, b, i))
    && (Unhandled(patt, masks) != {} ==>
          forall i, b :: 0 <= i < |masks| && b in default && b in masks[i] ==>
            Served(patt, masks, next, |masks|, b, i))
  }

  ghost predicate Disjoint(masks: seq<pattern>) {
    forall i, j :: 0 <= i < j < |masks| ==> masks[i] * masks[j] == {}
  }

  lemma {:induction false} OneMask(masks: seq<pattern>, i: nat, j: nat, b: nat)
    requires Disjoint(masks) && i < |masks| && j < |masks| && b in masks[i]
    ensures b in masks[j] ==> i == j
  {
    if b in masks[j] {
      assert b in masks[i] * masks[j] && b in masks[j] * masks[i];
    }
  }

  /** A carried bit stays, unless a later handler that is called takes it. */
  lemma {:induction false} CarriedStays(patched: bool, patt: pattern, masks: seq<pattern>, harvests: seq<pattern>,
                                        m: nat, n: nat, b: nat)
    requires m <= n <= |masks| == |harvests| && b in Carried(patched, patt, masks, harvests, m)
    ensures b in Carried(patched, patt, masks, harvests, n)
         || exists k :: m <= k < n && b in masks[k] && Runs(patt, masks, k)
    decreases n - m
  {
    if m < n {
      CarriedStays(patched, patt, masks, harvests, m, n - 1, b);
      if b in Carried(patched, patt, masks, harvests, n - 1) && b !in Carried(patched, patt, masks, harvests, n) {
        assert b in masks[n - 1] && Runs(patt, masks, n - 1);
      }
    }
  }

  lemma {:induction false} HandledHas(patt: pattern, masks: seq<pattern>, k: nat, i: nat, b: nat)
    requires i < k <= |masks| && b in patt && b in masks[i]
    ensures b in Handled(patt, masks, k)
  {
    if i < k - 1 {
      HandledHas(patt, masks, k - 1, i, b);
    }
  }

  /** With disjoint masks nothing is lost, whatever the pattern and the harvests. */
  lemma {:induction false} DisjointKeepsAll(patched: bool, patt: pattern, masks: seq<pattern>,
                                            harvests: seq<pattern>, default: pattern)
    requires |masks| == |harvests| && Disjoint(masks)
    ensures NothingLost(patched, patt, masks, harvests, default)
  {
    var next := NextPattern(patched, patt, masks, harvests, default);
    forall i, j, b | 0 <= i < |masks| && 0 <= j < |masks| && Runs(patt, masks, j) && b in harvests[j] && b in masks[i]
      ensures Served(patt, masks, next, j, b, i)
    {
      if i == j {
      } else {
        OneMask(masks, i, j, b);
        assert b in Carried(patched, patt, masks, harvests, j + 1);
        CarriedStays(patched, patt, masks, harvests, j + 1, |masks|, b);
        if b !in next {
          var k :| j + 1 <= k < |masks| && b in masks[k] && Runs(patt, masks, k);
          OneMask(masks, i, k, b);
        }
      }
    }
    if Unhandled(patt, masks) != {} {
      forall i, b | 0 <= i < |masks| && b in default && b in masks[i]
        ensures b in next
      {
        if b in Unhandled(patt, masks) {
          HandledHas(patt, masks, |masks|, i, b);
        }
      }
    }
  }

  /** With overlapping masks there is a pattern and a harvest that loses a bit: the later of two
      handlers sharing it harvests it again after the earlier one has run. */
  lemma {:induction false} OverlapLoses(patched: bool, masks: seq<pattern>, i: nat, j: nat, b: nat)
      returns (patt: pattern, harvests: seq<pattern>)
    requires i < j < |masks| && b in masks[i] && b in masks[j]
    ensures |harvests| == |masks| && !NothingLost(patched, patt, masks, harvests, {})
  {
    patt := {b};
    harvests := seq(|masks|, k => if k == j then {b} else {});
    NothingCarried(patched, masks, j, b, |masks|);
    var next := NextPattern(patched, patt, masks, harvests, {});
    HandledHas(patt, masks, |masks|, i, b);
    assert b in patt * masks[j];
    assert b in harvests[j] && b !in next;
    assert !Served(patt, masks, next, j, b, i);
  }

  lemma {:induction false} NothingCarried(patched: bool, masks: seq<pattern>, j: nat, b: nat, k: nat)
    requires k <= |masks| && j < |masks| && b in masks[j]
    ensures Carried(patched, {b}, masks, seq(|masks|, n => if n == j then {b} else {}), k) == {}
  {
    if k > 0 {
      NothingCarried(patched, masks, j, b, k - 1);
    }
  }

  /** The patch alone loses a bit when between two handlers for it another one gets it, too: the
      later of the two takes it away from the earlier. */
  lemma {:induction false} PatchLoses(masks: seq<pattern>, i: nat, j: nat, k: nat, a: nat, b: nat)
      returns (patt: pattern, harvests: seq<pattern>)
    requires i < j < k < |masks| && b in masks[i] && b in masks[k] && b !in masks[j] && a in masks[j]
    ensures |harvests| == |masks|
    ensures NothingLost(false, patt, masks, harvests, {}) && !NothingLost(true, patt, masks, harvests, {})
  {
    patt := {a, b};
    harvests := seq(|masks|, n => if n == j then {b} else {});
    assert a in patt * masks[j] && b in patt * masks[i] && b in patt * masks[k];
    OneHarvest(false, patt, masks, j, b, |masks|);
    OneHarvest(true, patt, masks, j, b, |masks|);
    HandledHas(patt, masks, |masks|, i, b);
    HandledHas(patt, masks, |masks|, j, a);
    var next := NextPattern(true, patt, masks, harvests, {});
    assert b in harvests[j] && b !in next && !Served(patt, masks, next, j, b, i);
  }

  /** Where a bit harvested only by handler j is: carried, unless the patch takes it out. */
  lemma {:induction false} OneHarvest(patched: bool, patt: pattern, masks: seq<pattern>, j: nat, b: nat, n: nat)
    requires n <= |masks| && j < |masks| && b in patt && b !in masks[j] && Runs(patt, masks, j)
    ensures var c := Carried(patched, patt, masks, seq(|masks|, m => if m == j then {b} else {}), n);
            b in c <==> j < n && (patched ==> forall k :: j < k < n ==> b !in masks[k])
  {
    if n > 0 {
      OneHarvest(patched, patt, masks, j, b, n - 1);
      if b in masks[n - 1] {
        assert b in patt * masks[n - 1];
      }
    }
  }

  /** Exactly the disjoint handler sets never lose an attention, with the patch or without it. */
  lemma {:induction false} LosesNothingIffDisjoint(patched: bool, masks: seq<pattern>)
    ensures Disjoint(masks) <==>
      forall patt, harvests, default :: |harvests| == |masks| ==> NothingLost(patched, patt, masks, harvests, default)
  {
    if Disjoint(masks) {
      forall patt: pattern, harvests: seq<pattern>, default: pattern | |harvests| == |masks|
        ensures NothingLost(patched, patt, masks, harvests, default)
      {
        DisjointKeepsAll(patched, patt, masks, harvests, default);
      }
    } else {
      var i, j :| 0 <= i < j < |masks| && masks[i] * masks[j] != {};
      var b :| b in masks[i] * masks[j];
      var patt, harvests := OverlapLoses(patched, masks, i, j, b);
      assert !NothingLost(patched, patt, masks, harvests, {});
    }
  }

  /** Nothing is made up: the next pattern holds harvested bits only. */
  lemma {:induction false} CarriedWasHarvested(patched: bool, patt: pattern, masks: seq<pattern>,
                                               harvests: seq<pattern>, k: nat, b: nat)
      returns (j: nat)
    requires k <= |masks| == |harvests| && b in Carried(patched, patt, masks, harvests, k)
    ensures j < k && Runs(patt, masks, j) && b in harvests[j]
  {
    if b in Carried(patched, patt, masks, harvests, k - 1) {
      j := CarriedWasHarvested(patched, patt, masks, harvests, k - 1, b);
    } else {
      j := k - 1;
    }
  }

  /** Bit b was harvested by handler j for others and stayed: with the patch no handler behind it
      that waits for b was called for b. */
  ghost predicate KeptFrom(patched: bool, patt: pattern, masks: seq<pattern>, harvests: seq<pattern>, j: nat, n: nat,
                           b: nat)
    requires j < n <= |masks| == |harvests|
  {
    && (exists a :: a in patt && a in masks[j]) && b in harvests[j] && b !in masks[j]
    && (patched ==> forall k :: j < k < n ==> !(b in patt && b in masks[k]))
  }

  ghost predicate Keeps(patched: bool, patt: pattern, masks: seq<pattern>, harvests: seq<pattern>, n: nat, b: nat)
    requires n <= |masks| == |harvests|
  {
    exists j :: 0 <= j < n && KeptFrom(patched, patt, masks, harvests, j, n, b)
  }

  lemma {:induction false} CarriedIff(patched: bool, patt: pattern, masks: seq<pattern>, harvests: seq<pattern>, n: nat,
                                      b: nat)
    requires n <= |masks| == |harvests|
    ensures b in Carried(patched, patt, masks, harvests, n) <==> Keeps(patched, patt, masks, harvests, n, b)
  {
    if n > 0 {
      CarriedIff(patched, patt, masks, harvests, n - 1, b);
      RunsIff(patt, masks, n - 1);
      KeptOn(patched, patt, masks, harvests, n - 1, n, b);
    }
  }

  lemma {:induction false} RunsIff(patt: pattern, masks: seq<pattern>, i: nat)
    requires i < |masks|
    ensures Runs(patt, masks, i) <==> exists a :: a in patt && a in masks[i]
  {
    forall a
      ensures a in patt && a in masks[i] <==> a in patt * masks[i]
    {
    }
  }

  /** The same with one handler more. */
  lemma {:induction false} KeptOn(patched: bool, patt: pattern, masks: seq<pattern>, harvests: seq<pattern>, m: nat,
                                  n: nat, b: nat)
    requires m + 1 == n <= |masks| == |harvests|
    ensures Keeps(patched, patt, masks, harvests, n, b) <==>
      || KeptFrom(patched, patt, masks, harvests, m, n, b)
      || (Keeps(patched, patt, masks, harvests, m, b) && (patched ==> !(b in patt && b in masks[m])))
  {
    forall j | 0 <= j < m
      ensures KeptFrom(patched, patt, masks, harvests, j, n, b) <==>
        KeptFrom(patched, patt, masks, harvests, j, m, b) && (patched ==> !(b in patt && b in masks[m]))
    {
    }
  }

  lemma {:induction false} HandledIff(patt: pattern, masks: seq<pattern>, n: nat, b: nat)
    requires n <= |masks|
    ensures b in Handled(patt, masks, n) <==> b in patt && exists i :: 0 <= i < n && b in masks[i]
  {
    if n > 0 {
      HandledIff(patt, masks, n - 1, b);
    }
  }

  /** Exactly what the next turn starts with: the bits that some handler harvested for others and
      that stayed, and, if the pattern has a bit in no mask, what the default harvest gives beyond
      such bits. */
  lemma {:induction false} NextPatternIff(patched: bool, patt: pattern, masks: seq<pattern>, harvests: seq<pattern>,
                                          default: pattern, b: nat)
    requires |masks| == |harvests|
    ensures b in NextPattern(patched, patt, masks, harvests, default) <==>
      || Keeps(patched, patt, masks, harvests, |masks|, b)
      || ((exists a :: a in patt && InNone(masks, a)) && b in default && !(b in patt && InNone(masks, b)))
  {
    CarriedIff(patched, patt, masks, harvests, |masks|, b);
    forall a
      ensures a in Unhandled(patt, masks) <==> a in patt && InNone(masks, a)
    {
      HandledIff(patt, masks, |masks|, a);
    }
    if a :| a in patt && InNone(masks, a) {
      assert a in Unhandled(patt, masks);
    }
    if Unhandled(patt, masks) != {} {
      var a :| a in Unhandled(patt, masks);
      assert a in patt && InNone(masks, a);
    }
  }

  ghost predicate InNone(masks: seq<pattern>, b: nat) {
    forall i :: 0 <= i < |masks| ==> b !in masks[i]
  }

  // ------------------------------------------------------------- the action list

  /** Calls the first action. A positive result puts it back at the end, behind those queued
      meanwhile; otherwise it is dropped. */
  function AfterAction(list: seq<nat>, irc: int, queued: seq<nat>): seq<nat> {
    if list == [] then queued
    else (list + queued)[1..] + if irc > 0 then [list[0]] else []
  }

  /** The outcome of an action call and what gets queued before the next one. */
  datatype Outcome = Outcome(irc: int, queued: seq<nat>)

  function AfterActions(list: seq<nat>, outcomes: seq<Outcome>): seq<nat>
    decreases |outcomes|
  {
    if outcomes == [] then list
    else AfterActions(AfterAction(list, outcomes[0].irc, outcomes[0].queued), outcomes[1..])
  }

  /** Round robin: whatever the actions return and queue, the actions waiting keep their order,
      and the one at position k is called after exactly k others. */
  lemma {:induction false} ServedInOrder(list: seq<nat>, outcomes: seq<Outcome>)
    requires |outcomes| <= |list|
    ensures |AfterActions(list, outcomes)| >= |list| - |outcomes|
    ensures forall k :: |outcomes| <= k < |list| ==> AfterActions(list, outcomes)[k - |outcomes|] == list[k]
    decreases |outcomes|
  {
    if outcomes != [] {
      var next := AfterAction(list, outcomes[0].irc, outcomes[0].queued);
      var rest := outcomes[1..];
      ServedInOrder(next, rest);
      forall k | |outcomes| <= k < |list|
        ensures AfterActions(list, outcomes)[k - |outcomes|] == list[k]
      {
        assert AfterActions(next, rest)[k - 1 - |rest|] == next[k - 1];
      }
    }
  }

  /** An action with a positive result stays in the list, and is called again after exactly the
      others that waited and those queued meanwhile. */
  lemma {:induction false} ComesBack(list: seq<nat>, first: Outcome, later: seq<Outcome>)
    requires list != [] && first.irc > 0 && |later| == |list| - 1 + |first.queued|
    ensures var l := AfterActions(list, [first] + later);
            l != [] && l[0] == list[0]
    ensures multiset(AfterActions(list, [first])) == multiset(list) + multiset(first.queued)
  {
    var next := AfterAction(list, first.irc, first.queued);
    assert ([first] + later)[1..] == later && [first][1..] == [];
    assert next == list[1..] + first.queued + [list[0]];
    ServedInOrder(next, later);
    assert AfterActions(next, later)[|later| - |later|] == next[|later|] == list[0];
    assert list == [list[0]] + list[1..];
    assert AfterActions(list, [first]) == AfterActions(next, []) == next;
  }

  /** After any other result there is one entry less of it. */
  lemma {:induction false} GoesAway(list: seq<nat>, first: Outcome)
    requires list != [] && first.irc <= 0
    ensures multiset(AfterActions(list, [first])) == multiset(list) + multiset(first.queued) - multiset{list[0]}
    ensures AfterActions(list, [first]) == list[1..] + first.queued
  {
    assert [first][1..] == [];
    assert AfterAction(list, first.irc, first.queued) == list[1..] + first.queued;
    assert AfterActions(list, [first]) == AfterActions(list[1..] + first.queued, []);
    assert list == [list[0]] + list[1..];
  }

  // ------------------------------------------------------------- the server object

  datatype AttnId = AttnId(mask: pattern, data: nat)

  function MasksOf(dsc: seq<AttnId>): (m: seq<pattern>)
    ensures |m| == |dsc|
  {
    seq(|dsc|, k requires 0 <= k < |dsc| => dsc[k].mask)
  }

  class Server {
    var attnPatt: pattern
    var attnNotiPatt: pattern
    var attnDsc: seq<AttnId>
    var actnList: seq<nat>
    var wakeups: nat

    constructor ()
      ensures attnPatt == attnNotiPatt == {} && attnDsc == [] && actnList == [] && wakeups == 0
    {
      attnPatt, attnNotiPatt, attnDsc, actnList, wakeups := {}, {}, [], [], 0;
    }

    ghost function Masks(): (m: seq<pattern>)
      reads `attnDsc
      ensures |m| == |attnDsc|
    {
      MasksOf(attnDsc)
    }

    ghost predicate Distinct()
      reads this
    {
      forall i, j :: 0 <= i < j < |attnDsc| ==> attnDsc[i] != attnDsc[j]
    }

    /** Registers a handler; an empty mask and a duplicate are refused. */
    method AddAttnHandler(mask: pattern, data: nat) returns (ok: bool)
      requires Distinct()
      modifies `attnDsc
      ensures Distinct()
      ensures ok <==> mask != {} && AttnId(mask, data) !in old(attnDsc)
      ensures attnDsc == old(attnDsc) + if ok then [AttnId(mask, data)] else []
    {
      if mask == {} {
        return false;
      }
      var i := 0;
      while i < |attnDsc|
        invariant i <= |attnDsc| && AttnId(mask, data) !in attnDsc[..i]
      {
        if attnDsc[i] == AttnId(mask, data) {
          return false;
        }
        i := i + 1;
      }
      attnDsc := attnDsc + [AttnId(mask, data)];
      return true;
    }

    /** The server is woken up unless it queues the action itself. */
    method QueueAction(outside: bool, action: nat)
      modifies `actnList, `wakeups
      ensures actnList == old(actnList) + [action] && wakeups == old(wakeups) + if outside then 1 else 0
    {
      actnList := actnList + [action];
      if outside {
        wakeups := wakeups + 1;
      }
    }

    /** The bits are noted and the server is woken up, even if they were noted before. */
    method SignalAttnNotify(apat: pattern)
      modifies `attnNotiPatt, `wakeups
      ensures attnNotiPatt == old(attnNotiPatt) + apat && wakeups == old(wakeups) + 1
    {
      attnNotiPatt := attnNotiPatt + apat;
      wakeups := wakeups + 1;
    }

    /** One turn: pending notifies join the pattern, the handlers of its bits are called in
        order of registration, and what they harvest for others is kept. harvests says what
        each handler gets, signals which notifies arrive while it runs;
        these wake the server up again. */
    method CallAttnHandler(harvests: seq<pattern>, signals: seq<pattern>, default: pattern) returns (called: seq<nat>)
      requires |harvests| == |signals| == |attnDsc|
      modifies `attnPatt, `attnNotiPatt, `wakeups
      ensures var patt := old(attnPatt + attnNotiPatt);
              && attnPatt == NextPattern(true, patt, Masks(), harvests, default)
              && called == Callees(patt, Masks(), |attnDsc|)
              && wakeups == old(wakeups) + Signalled(called, signals)
              && (forall b :: b in attnNotiPatt <==> exists i :: i in called && 0 <= i < |signals| && b in signals[i])
    {
      hide Carried, Handled, Callees, Signalled, Runs;
      if attnNotiPatt != {} {
        attnPatt := attnPatt + attnNotiPatt;
        attnNotiPatt := {};
      }
      ghost var patt, masks := attnPatt, Masks();
      assert patt == old(attnPatt + attnNotiPatt);
      var hnext, hdone: pattern := {}, {};
      called := [];
      var i := 0;
      TurnBegins(patt, masks, harvests, signals);
      while i < |attnDsc|
        invariant i <= |attnDsc| && attnPatt == patt
        invariant wakeups == old(wakeups) + Signalled(called, signals)
        invariant hnext == Carried(true, patt, masks, harvests, i) && hdone == Handled(patt, masks, i)
        invariant called == Callees(patt, masks, i)
        invariant forall b :: b in attnNotiPatt <==> exists k :: k in called && 0 <= k < |signals| && b in signals[k]
      {
        var hmatch := attnPatt * attnDsc[i].mask;
        TurnNext(patt, masks, harvests, i);
        if hmatch != {} {
          ghost var called0, noti0 := called, attnNotiPatt;
          SignalledNext(called, signals, i);
          called := called + [i];
          if signals[i] != {} {
            SignalAttnNotify(signals[i]);
          }
          assert attnNotiPatt == noti0 + signals[i];
          NotiGrows(called0, i, signals, noti0, attnNotiPatt);
          var hnew := harvests[i] - attnDsc[i].mask;
          hnext := hnext + hnew;
          hnext := hnext - hmatch;
          hdone := hdone + hmatch;
        }
        i := i + 1;
      }
      attnPatt := attnPatt - hdone;
      ghost var carried := hnext;
      assert carried == Carried(true, patt, masks, harvests, |masks|);
      assert attnPatt == Unhandled(patt, masks);
      if attnPatt != {} {
        hnext := hnext + (default - attnPatt);
      } else {
        assert carried + {} == carried;
      }
      assert hnext == NextPattern(true, patt, masks, harvests, default);
      attnPatt := hnext;
    }

    /** irc is what the action returns, queued what it and others queue meanwhile. */
    method CallActnHandler(irc: int, queued: seq<nat>)
      modifies `actnList, `wakeups
      ensures actnList == AfterAction(old(actnList), irc, queued) && wakeups == old(wakeups)
      ensures old(actnList) == [] ==> actnList == queued
      ensures old(actnList) != [] ==>
        actnList == old(actnList[1..]) + queued + if irc > 0 then [old(actnList[0])] else []
    {
      var pending := actnList != [];
      var i := 0;
      while i < |queued|
        invariant i <= |queued| && actnList == old(actnList) + queued[..i] && wakeups == old(wakeups)
      {
        QueueAction(false, queued[i]);
        i := i + 1;
      }
      assert queued[..i] == queued;
      if !pending {
        return;
      }
      if irc > 0 {
        actnList := actnList[1..] + [actnList[0]];
      } else {
        actnList := actnList[1..];
      }
    }
  }

  lemma {:induction false} NotiGrows(called: seq<nat>, i: nat, signals: seq<pattern>, noti: pattern, noti': pattern)
    requires i < |signals| && noti' == noti + signals[i]
    requires forall b :: b in noti <==> exists k :: k in called && 0 <= k < |signals| && b in signals[k]
    ensures forall b :: b in noti' <==> exists k :: k in called + [i] && 0 <= k < |signals| && b in signals[k]
  {
    forall b | b in noti'
      ensures exists k :: k in called + [i] && 0 <= k < |signals| && b in signals[k]
    {
      if b in signals[i] {
        assert i in called + [i];
      } else {
        var k :| k in called && 0 <= k < |signals| && b in signals[k];
        assert k in called + [i];
      }
    }
    forall b, k | k in called + [i] && 0 <= k < |signals| && b in signals[k]
      ensures b in noti'
    {
      if k != i {
        assert k in called;
      }
    }
  }
}
