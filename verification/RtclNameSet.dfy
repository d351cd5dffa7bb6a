/** Name sets with abbreviation: a '|' separated list is split into a sorted set, and a query
    matches a name it abbreviates uniquely. */
module RtclNameSet {

  // ------------------------------------------------------------- order

  /** Lexicographic order, as of string comparison. */
  predicate Less(a: string, b: string)
    decreases |a|
  {
    if b == "" then false
    else if a == "" then true
    else a[0] < b[0] || (a[0] == b[0] && Less(a[1..], b[1..]))
  }

  lemma {:induction false} LessIrreflexive(a: string)
    ensures !Less(a, a)
    decreases |a|
  {
    if a != "" {
      LessIrreflexive(a[1..]);
    }
  }

  lemma {:induction false} LessTotal(a: string, b: string)
    ensures Less(a, b) || Less(b, a) || a == b
    decreases |a|
  {
    if a != "" && b != "" && a[0] == b[0] {
      LessTotal(a[1..], b[1..]);
      assert a == [a[0]] + a[1..] && b == [b[0]] + b[1..];
    }
  }

  lemma {:induction false} LessTransitive(a: string, b: string, c: string)
    requires Less(a, b) && Less(b, c)
    ensures Less(a, c)
    decreases |a|
  {
    if a != "" && a[0] == b[0] == c[0] {
      LessTransitive(a[1..], b[1..], c[1..]);
    }
  }

  /** A string is not above its continuations. */
  lemma {:induction false} PrefixNotAbove(q: string, e: string)
    requires q <= e
    ensures !Less(e, q)
    decreases |q|
  {
    if q != "" {
      PrefixNotAbove(q[1..], e[1..]);
    }
  }

  /** Whatever lies between a string and one of its continuations continues it, too. */
  lemma {:induction false} PrefixInterval(q: string, a: string, b: string)
    requires !Less(a, q) && Less(a, b) && q <= b
    ensures q <= a
    decreases |q|
  {
    if q != "" {
      assert a != "" && a[0] == q[0] == b[0];
      PrefixInterval(q[1..], a[1..], b[1..]);
      assert q == [q[0]] + q[1..] && a == [a[0]] + a[1..];
    }
  }

  ghost predicate Sorted(names: seq<string>) {
    forall j, k :: 0 <= j < k < |names| ==> Less(names[j], names[k])
  }

  // ------------------------------------------------------------- lookup

  /** The position of the first name not below q. */
  method LowerBound(names: seq<string>, q: string) returns (i: nat)
    requires Sorted(names)
    ensures i <= |names|
    ensures forall k :: 0 <= k < i ==> Less(names[k], q)
    ensures forall k :: i <= k < |names| ==> !Less(names[k], q)
  {
    i := 0;
    var hi := |names|;
    while i < hi
      invariant i <= hi <= |names|
      invariant forall k :: 0 <= k < i ==> Less(names[k], q)
      invariant forall k :: hi <= k < |names| ==> !Less(names[k], q)
    {
      var mid := (i + hi) / 2;
      if Less(names[mid], q) {
        forall k | 0 <= k < mid ensures Less(names[k], q) {
          LessTransitive(names[k], names[mid], q);
        }
        i := mid + 1;
      } else {
        forall k | mid < k < |names| ensures !Less(names[k], q) {
          if Less(names[k], q) {
            LessTransitive(names[mid], names[k], q);
          }
        }
        hi := mid;
      }
    }
  }

  /** Does q abbreviate name k. */
  predicate Abbreviates(names: seq<string>, q: string, k: nat)
    requires k < |names|
  {
    q <= names[k]
  }

  ghost predicate OnlyOne(names: seq<string>, q: string, k: nat) {
    && k < |names| && Abbreviates(names, q, k)
    && forall j :: 0 <= j < |names| && j != k ==> !Abbreviates(names, q, j)
  }

  ghost predicate Several(names: seq<string>, q: string) {
    exists j, k :: 0 <= j < k < |names| && Abbreviates(names, q, j) && Abbreviates(names, q, k)
  }

  ghost predicate NoName(names: seq<string>, q: string) {
    forall k :: 0 <= k < |names| ==> !Abbreviates(names, q, k)
  }

  lemma {:induction false} SortedAt(names: seq<string>, i: nat, k: nat)
    requires Sorted(names) && i <= k < |names|
    ensures i == k || Less(names[i], names[k])
  {
  }

  /** The names a query abbreviates follow each other from the lower bound on. */
  lemma {:induction false} Contiguous(names: seq<string>, q: string, i: nat)
    requires Sorted(names) && i <= |names|
    requires forall k :: 0 <= k < i ==> Less(names[k], q)
    requires forall k :: i <= k < |names| ==> !Less(names[k], q)
    ensures forall k :: 0 <= k < i ==> !Abbreviates(names, q, k)
    ensures forall j, k :: i <= j < k < |names| && Abbreviates(names, q, k) ==> Abbreviates(names, q, j)
    ensures q in names ==> i < |names| && names[i] == q
  {
    forall k | 0 <= k < i ensures !Abbreviates(names, q, k) {
      if q <= names[k] { PrefixNotAbove(q, names[k]); }
    }
    forall j, k | i <= j < k < |names| && Abbreviates(names, q, k) ensures Abbreviates(names, q, j) {
      PrefixInterval(q, names[j], names[k]);
    }
    if q in names {
      var k :| 0 <= k < |names| && names[k] == q;
      LessIrreflexive(q);
      SortedAt(names, i, k);
      if i < k { assert false; }
    }
  }

  /** The lookup by the sorted set is the lookup by a scan of all names: 1 if the query is a name
      or abbreviates just one, 0 if it abbreviates several, -1 if none. */
  method CheckMatch(names: seq<string>, q: string) returns (irc: int, rval: string)
    requires Sorted(names)
    ensures irc == 1 <==> q in names || exists k :: OnlyOne(names, q, k)
    ensures irc == 0 <==> q !in names && Several(names, q)
    ensures irc == -1 <==> NoName(names, q)
    ensures irc == 1 ==> rval in names && q <= rval && (q in names ==> rval == q)
    ensures irc != 1 ==> rval == ""
  {
    rval := "";
    var i := LowerBound(names, q);
    Contiguous(names, q, i);
    if i == |names| || !(q <= names[i]) {
      MissIsNone(names, q, i);
      return -1, "";
    }
    assert Abbreviates(names, q, i);
    if q != names[i] {
      if i + 1 < |names| && q <= names[i + 1] {
        assert Abbreviates(names, q, i + 1);
        return 0, "";
      }
      NextDecides(names, q, i);
    }
    if q in names {
      PrefixOfItself(q);
    }
    return 1, names[i];
  }

  lemma {:induction false} PrefixOfItself(q: string)
    ensures q <= q
  {
  }

  lemma {:induction false} MissIsNone(names: seq<string>, q: string, i: nat)
    requires i <= |names| && (i == |names| || !Abbreviates(names, q, i))
    requires forall k :: 0 <= k < i ==> !Abbreviates(names, q, k)
    requires forall j, k :: i <= j < k < |names| && Abbreviates(names, q, k) ==> Abbreviates(names, q, j)
    ensures NoName(names, q) && !Several(names, q) && q !in names && !exists k :: OnlyOne(names, q, k)
  {
    forall k | 0 <= k < |names| ensures !Abbreviates(names, q, k) {
      if k > i && Abbreviates(names, q, k) { assert false; }
    }
    if q in names {
      var k :| 0 <= k < |names| && names[k] == q;
      assert Abbreviates(names, q, k);
    }
  }

  lemma {:induction false} NextDecides(names: seq<string>, q: string, i: nat)
    requires i < |names| && Abbreviates(names, q, i)
    requires i + 1 < |names| ==> !Abbreviates(names, q, i + 1)
    requires forall k :: 0 <= k < i ==> !Abbreviates(names, q, k)
    requires forall j, k :: i <= j < k < |names| && Abbreviates(names, q, k) ==> Abbreviates(names, q, j)
    ensures OnlyOne(names, q, i) && !Several(names, q)
  {
    forall k | 0 <= k < |names| && k != i ensures !Abbreviates(names, q, k) {
      if k > i + 1 && Abbreviates(names, q, k) { assert false; }
    }
  }

  // ------------------------------------------------------------- construction

  /** The parts of a list between the bars. */
  function Parts(list: string): (p: seq<string>)
    ensures |p| > 0
    decreases |list|
  {
    var n := FirstBar(list, 0);
    if n == |list| then [list] else [list[..n]] + Parts(list[n + 1..])
  }

  function FirstBar(list: string, i: nat): (n: nat)
    requires i <= |list|
    ensures i <= n <= |list|
    decreases |list| - i
  {
    if i == |list| || list[i] == '|' then i else FirstBar(list, i + 1)
  }

  lemma {:induction false} FirstBarFound(list: string, i: nat)
    requires i <= |list|
    ensures var n := FirstBar(list, i);
            (n < |list| ==> list[n] == '|') && forall k :: i <= k < n ==> list[k] != '|'
    decreases |list| - i
  {
    if i < |list| && list[i] != '|' {
      FirstBarFound(list, i + 1);
    }
  }

  /** The names put into the set: empty parts are left out, except the last one. */
  function Names(list: string): seq<string>
    decreases |list|
  {
    var n := FirstBar(list, 0);
    if n == |list| then [list]
    else (if n == 0 then [] else [list[..n]]) + Names(list[n + 1..])
  }

  /** The bars are where the parts meet: joining the parts gives the list back. */
  function Join(parts: seq<string>): string
    requires parts != []
  {
    if |parts| == 1 then parts[0] else parts[0] + "|" + Join(parts[1..])
  }

  lemma {:induction false} JoinParts(list: string)
    ensures Join(Parts(list)) == list
    ensures forall k :: 0 <= k < |Parts(list)| ==> '|' !in Parts(list)[k]
    decreases |list|
  {
    hide FirstBar;
    var n := FirstBar(list, 0);
    FirstBarFound(list, 0);
    if n < |list| {
      JoinParts(list[n + 1..]);
      assert Parts(list)[1..] == Parts(list[n + 1..]);
      assert list == list[..n] + "|" + list[n + 1..];
    }
  }

  /** x is part k of p, and taken: it is not empty or it is the last. */
  predicate PartAt(p: seq<string>, x: string, k: nat) {
    k < |p| && p[k] == x && (x != "" || k == |p| - 1)
  }

  /** x is taken from the parts p. */
  ghost predicate Taken(p: seq<string>, x: string) {
    exists k: nat :: PartAt(p, x, k)
  }

  /** Names are the parts without the empty ones before the last. */
  lemma {:induction false} NamesAreParts(list: string, x: string)
    ensures x in Names(list) <==> Taken(Parts(list), x)
    decreases |list|
  {
    var n := FirstBar(list, 0);
    if n == |list| {
      OnePart(list, x);
      assert Names(list) == [list] && Parts(list) == [list];
    } else {
      var first, rest := list[..n], list[n + 1..];
      NamesAreParts(rest, x);
      PartsNext(first, Parts(rest), x);
      NamesNext(first, Names(rest), x);
      assert Names(list) == (if first == "" then [] else [first]) + Names(rest);
      assert Parts(list) == [first] + Parts(rest);
    }
  }

  lemma {:induction false} OnePart(list: string, x: string)
    ensures x in [list] <==> Taken([list], x)
  {
    if x == list {
      assert PartAt([list], x, 0);
    }
  }

  lemma {:induction false} NamesNext(first: string, rest: seq<string>, x: string)
    ensures x in (if first == "" then [] else [first]) + rest <==> (x == first && x != "") || x in rest
  {
  }

  lemma {:induction false} PartsNext(first: string, rest: seq<string>, x: string)
    requires rest != []
    ensures Taken([first] + rest, x) <==> (x == first && x != "") || Taken(rest, x)
  {
    var p := [first] + rest;
    if Taken(rest, x) {
      var k: nat :| PartAt(rest, x, k);
      assert PartAt(p, x, k + 1);
    }
    if x == first && x != "" {
      assert PartAt(p, x, 0);
    }
    if Taken(p, x) {
      var k: nat :| PartAt(p, x, k);
      assert k > 0 ==> PartAt(rest, x, k - 1);
    }
  }

  function Insert(names: seq<string>, i: nat, x: string): seq<string>
    requires i <= |names|
  {
    names[..i] + [x] + names[i..]
  }

  lemma {:induction false} InsertSorted(names: seq<string>, i: nat, x: string)
    requires Sorted(names) && i <= |names| && (i == |names| || names[i] != x)
    requires forall k :: 0 <= k < i ==> Less(names[k], x)
    requires forall k :: i <= k < |names| ==> !Less(names[k], x)
    ensures Sorted(Insert(names, i, x)) && x !in names
    ensures forall y :: y in Insert(names, i, x) <==> y == x || y in names
  {
    LessIrreflexive(x);
    forall k | i <= k < |names| ensures Less(x, names[k]) {
      if k == i {
        LessTotal(x, names[i]);
      } else {
        LessTotal(x, names[i]);
        LessTransitive(x, names[i], names[k]);
      }
    }
    forall k | 0 <= k < |names| ensures names[k] != x {
      LessIrreflexive(names[k]);
    }
    forall y ensures y in Insert(names, i, x) <==> y == x || y in names {
      assert names == names[..i] + names[i..];
    }
  }

  datatype Result = Ok(names: seq<string>) | Duplicate(name: string)

  ghost predicate NoRepeat(names: seq<string>) {
    forall j, k :: 0 <= j < k < |names| ==> names[j] != names[k]
  }

  ghost predicate Same(names: seq<string>, before: seq<string>) {
    forall x :: x in names <==> x in before
  }

  /** The sorted set of the names met so far, each of them once. */
  ghost predicate SetOf(names: seq<string>, before: seq<string>) {
    Sorted(names) && NoRepeat(before) && Same(names, before)
  }

  /** One name goes into the set, unless it is there. */
  method AddName(names: seq<string>, ghost before: seq<string>, x: string) returns (r: Result)
    requires SetOf(names, before)
    ensures r.Ok? <==> x !in before
    ensures r.Ok? ==> SetOf(r.names, before + [x])
  {
    var i := LowerBound(names, x);
    Contiguous(names, x, i);
    if i < |names| && names[i] == x {
      return Duplicate(x);
    }
    InsertSorted(names, i, x);
    return Ok(Insert(names, i, x));
  }

  /** The list from i on, unfolded at its first bar. */
  lemma {:induction false} NamesFrom(list: string, i: nat, n: nat)
    requires i <= |list| && n == FirstBar(list, i)
    ensures Names(list[i..]) ==
      if n == |list| then [list[i..n]]
      else (if n == i then [] else [list[i..n]]) + Names(list[n + 1..])
  {
    FirstBarShift(list, i);
    assert list[i..][..n - i] == list[i..n] && list[i..|list|] == list[i..];
    if n < |list| {
      assert list[i..][n - i + 1..] == list[n + 1..];
    }
  }

  lemma {:induction false} RepeatFound(before: seq<string>, x: string, rest: seq<string>)
    requires x in before
    ensures !NoRepeat(before + ([x] + rest))
  {
    var k :| 0 <= k < |before| && before[k] == x;
    var all := before + ([x] + rest);
    assert all[k] == all[|before|];
  }

  lemma {:induction false} RegroupNext(before: seq<string>, x: string, rest: seq<string>, all: seq<string>)
    requires before + ([x] + rest) == all
    ensures (before + [x]) + rest == all
  {
  }

  /** Splits the list into a sorted set; a name that occurs twice is refused. */
  method Build(list: string) returns (r: Result)
    ensures r.Ok? <==> NoRepeat(Names(list))
    ensures r.Ok? ==> Sorted(r.names) && Same(r.names, Names(list))
  {
    hide Names, FirstBar;
    var names: seq<string> := [];
    var ibeg := 0;
    ghost var all := Names(list);
    ghost var before, todo := [], all;
    assert list[0..] == list;
    while true
      invariant ibeg <= |list| && SetOf(names, before)
      invariant todo == Names(list[ibeg..]) && before + todo == all
      decreases |list| - ibeg
    {
      var iend := FirstBar(list, ibeg);
      NamesFrom(list, ibeg, iend);
      var last := iend == |list|;
      ghost var rest := if last then [] else Names(list[iend + 1..]);
      if last || iend > ibeg {
        var name := list[ibeg..iend];
        assert todo == [name] + rest;
        r := AddName(names, before, name);
        if r.Duplicate? {
          RepeatFound(before, name, rest);
          return;
        }
        RegroupNext(before, name, rest, all);
        names, before := r.names, before + [name];
      } else {
        assert todo == [] + rest == rest;
      }
      todo := rest;
      assert before + todo == all;
      if last {
        assert before == all;
        return Ok(names);
      }
      ibeg := iend + 1;
    }
  }

  lemma {:induction false} FirstBarShift(list: string, i: nat)
    requires i <= |list|
    ensures FirstBar(list[i..], 0) == FirstBar(list, i) - i
  {
    var n, m := FirstBar(list, i), FirstBar(list[i..], 0);
    FirstBarFound(list, i);
    FirstBarFound(list[i..], 0);
    assert forall k :: 0 <= k < |list| - i ==> list[i..][k] == list[i + k];
    if m < n - i {
      assert false;
    } else if m > n - i {
      assert false;
    }
  }
}
