/** dump.rs `sort_by_inheritance`: parents before children, in as many passes as it takes. */
module InheritanceSort {
  import opened Words
  import opened Text
  import opened ByteOrder

  /** `NSObject`. */
  const NSOBJECT: Bytes := [0x4E, 0x53, 0x4F, 0x62, 0x6A, 0x65, 0x63, 0x74]

  /** A class; `id` stands for everything but its name and superclass. */
  datatype ObjcClass = ObjcClass(name: Str, superclass: Option<Str>, id: nat)

  function NameOf(c: ObjcClass): Bytes { c.name }

  predicate Has(classes: seq<ObjcClass>, name: Str) {
    exists c :: c in classes && c.name == name
  }

  // ----- the passes -----

  /** `super_ok`. */
  predicate Placeable(c: ObjcClass, out: seq<ObjcClass>, remaining: seq<ObjcClass>) {
    match c.superclass
    case None => true
    case Some(s) => s == NSOBJECT || Has(out, s) || !Has(remaining, s)
  }

  datatype Progress = Progress(out: seq<ObjcClass>, remaining: seq<ObjcClass>)

  /** One pass over `remaining` from index `i`: what is placeable moves to `out` at once. */
  function Sweep(out: seq<ObjcClass>, remaining: seq<ObjcClass>, i: nat): (p: Progress)
    requires i <= |remaining|
    ensures |p.remaining| <= |remaining|
    ensures multiset(p.out) + multiset(p.remaining) == multiset(out) + multiset(remaining)
    decreases |remaining| - i
  {
    if i == |remaining| then Progress(out, remaining)
    else if Placeable(remaining[i], out, remaining) then
      RemoveKeeps(remaining, i);
      Sweep(out + [remaining[i]], remaining[..i] + remaining[i + 1..], i)
    else Sweep(out, remaining, i + 1)
  }

  lemma RemoveKeeps(s: seq<ObjcClass>, i: nat)
    requires i < |s|
    ensures multiset(s) == multiset{s[i]} + multiset(s[..i] + s[i + 1..])
  {
    assert s == s[..i] + [s[i]] + s[i + 1..];
  }

  /** Passes until nothing is left or a pass moves nothing. */
  function Rounds(out: seq<ObjcClass>, remaining: seq<ObjcClass>): (p: Progress)
    ensures multiset(p.out) + multiset(p.remaining) == multiset(out) + multiset(remaining)
    decreases |remaining|
  {
    if remaining == [] then Progress(out, remaining)
    else
      var p := Sweep(out, remaining, 0);
      if |p.remaining| == |remaining| then p else Rounds(p.out, p.remaining)
  }

  /** The sorted classes, and after them the remainder no pass could place. */
  function Sorted(classes: seq<ObjcClass>): Progress {
    Rounds([], StableSort(classes, NameOf))
  }

  function Result(classes: seq<ObjcClass>): seq<ObjcClass> {
    Sorted(classes).out + Sorted(classes).remaining
  }

  /** A pass that removes nothing changes nothing. */
  lemma {:induction false} SweepStuck(out: seq<ObjcClass>, remaining: seq<ObjcClass>, i: nat)
    requires i <= |remaining|
    ensures var p := Sweep(out, remaining, i); |p.remaining| == |remaining| ==>
      p == Progress(out, remaining) && forall k :: i <= k < |remaining| ==> !Placeable(remaining[k], out, remaining)
    decreases |remaining| - i
  {
    hide Placeable;
    if i < |remaining| && !Placeable(remaining[i], out, remaining) {
      SweepStuck(out, remaining, i + 1);
    }
  }

  method HasName(classes: seq<ObjcClass>, name: Str) returns (found: bool)
    ensures found == Has(classes, name)
  {
    for i := 0 to |classes|
      invariant forall j :: 0 <= j < i ==> classes[j].name != name
    {
      if classes[i].name == name {
        return true;
      }
    }
    return false;
  }

  method SuperOk(c: ObjcClass, out: seq<ObjcClass>, remaining: seq<ObjcClass>) returns (ok: bool)
    ensures ok == Placeable(c, out, remaining)
  {
    hide Has;
    match c.superclass {
      case None => return true;
      case Some(s) =>
        if s == NSOBJECT {
          return true;
        }
        var placed := HasName(out, s);
        if placed {
          return true;
        }
        var waiting := HasName(remaining, s);
        return !waiting;
    }
  }

  method SortByInheritance(classes: seq<ObjcClass>) returns (out: seq<ObjcClass>)
    ensures out == Result(classes)
  {
    hide StableSort, Placeable, Sweep;
    var remaining := StableSort(classes, NameOf);
    out := [];
    ghost var all := Sorted(classes);
    while remaining != []
      invariant Rounds(out, remaining) == all
      decreases |remaining|
    {
      ghost var pass, before := Sweep(out, remaining, 0), remaining;
      var progressed, i := false, 0;
      while i < |remaining|
        invariant 0 <= i <= |remaining| <= |before|
        invariant Sweep(out, remaining, i) == pass
        invariant progressed <==> |remaining| < |before|
        decreases |remaining| - i
      {
        SweepStep(out, remaining, i);
        var superOk := SuperOk(remaining[i], out, remaining);
        if superOk {
          out := out + [remaining[i]];
          remaining := remaining[..i] + remaining[i + 1..];
          progressed := true;
        } else {
          i := i + 1;
        }
      }
      SweepEnd(out, remaining);
      if !progressed {
        out := out + remaining;
        return;
      }
    }
    assert out + [] == out;
  }

  lemma SweepStep(out: seq<ObjcClass>, remaining: seq<ObjcClass>, i: nat)
    requires i < |remaining|
    ensures Sweep(out, remaining, i) ==
      if Placeable(remaining[i], out, remaining)
      then Sweep(out + [remaining[i]], remaining[..i] + remaining[i + 1..], i)
      else Sweep(out, remaining, i + 1)
  {
    hide Placeable;
  }

  lemma SweepEnd(out: seq<ObjcClass>, remaining: seq<ObjcClass>)
    ensures Sweep(out, remaining, |remaining|) == Progress(out, remaining)
  {
  }

  // ----- what the result is -----

  /** Nothing is lost or invented, whatever the input. */
  lemma ResultIsPermutation(classes: seq<ObjcClass>)
    ensures multiset(Result(classes)) == multiset(classes)
  {
    hide Rounds, StableSort;
  }

  /** Every superclass present, `NSObject` apart, stands before its subclass. */
  predicate ParentsFirst(q: seq<ObjcClass>) {
    forall i :: 0 <= i < |q| ==> ParentBefore(q, i, q)
  }

  predicate ParentBefore(q: seq<ObjcClass>, i: nat, all: seq<ObjcClass>)
    requires i < |q|
  {
    match q[i].superclass
    case None => true
    case Some(s) => s == NSOBJECT || !Has(all, s) || Has(q[..i], s)
  }

  /** What has been placed is in order, seen from all the classes. */
  predicate PlacedInOrder(p: Progress) {
    forall i :: 0 <= i < |p.out| ==> ParentBefore(p.out, i, p.out + p.remaining)
  }

  lemma HasIsBag(a: seq<ObjcClass>, b: seq<ObjcClass>, name: Str)
    requires multiset(a) == multiset(b)
    ensures Has(a, name) <==> Has(b, name)
  {
    forall c ensures c in a <==> c in b {
      assert c in multiset(a) <==> c in multiset(b);
    }
  }

  lemma {:induction false} SweepKeepsOrder(out: seq<ObjcClass>, remaining: seq<ObjcClass>, i: nat)
    requires i <= |remaining| && PlacedInOrder(Progress(out, remaining))
    ensures PlacedInOrder(Sweep(out, remaining, i))
    decreases |remaining| - i
  {
    hide Has;
    if i < |remaining| {
      SweepStep(out, remaining, i);
      if Placeable(remaining[i], out, remaining) {
        PlaceOne(out, remaining, i);
        SweepKeepsOrder(out + [remaining[i]], remaining[..i] + remaining[i + 1..], i);
      } else {
        SweepKeepsOrder(out, remaining, i + 1);
      }
    } else {
      SweepEnd(out, remaining);
    }
  }

  lemma HasSplit(a: seq<ObjcClass>, b: seq<ObjcClass>, name: Str)
    ensures Has(a + b, name) <==> Has(a, name) || Has(b, name)
  {
    forall c ensures c in a + b <==> c in a || c in b {
    }
  }

  lemma PlaceOne(out: seq<ObjcClass>, remaining: seq<ObjcClass>, i: nat)
    requires i < |remaining| && PlacedInOrder(Progress(out, remaining)) && Placeable(remaining[i], out, remaining)
    ensures PlacedInOrder(Progress(out + [remaining[i]], remaining[..i] + remaining[i + 1..]))
  {
    hide Has;
    var out', rest := out + [remaining[i]], remaining[..i] + remaining[i + 1..];
    RemoveKeeps(remaining, i);
    assert multiset(out' + rest) == multiset(out + remaining);
    forall k | 0 <= k < |out'| ensures ParentBefore(out', k, out' + rest) {
      if k < |out| {
        assert out'[..k] == out[..k] && out'[k] == out[k];
        assert ParentBefore(out, k, out + remaining);
      } else {
        assert out'[..k] == out;
      }
      if out'[k].superclass.Some? {
        var s := out'[k].superclass.value;
        HasIsBag(out' + rest, out + remaining, s);
        HasSplit(out, remaining, s);
      }
    }
  }

  /** A class no pass can place has a superclass among the unplaced and none among the placed. */
  predicate Stuck(p: Progress) {
    forall c :: c in p.remaining ==> !Placeable(c, p.out, p.remaining)
  }

  lemma {:induction false} RoundsFacts(out: seq<ObjcClass>, remaining: seq<ObjcClass>)
    requires PlacedInOrder(Progress(out, remaining))
    ensures PlacedInOrder(Rounds(out, remaining)) && Stuck(Rounds(out, remaining))
    decreases |remaining|
  {
    hide Sweep, Placeable, ParentBefore;
    if remaining != [] {
      SweepKeepsOrder(out, remaining, 0);
      SweepStuck(out, remaining, 0);
      var p := Sweep(out, remaining, 0);
      if |p.remaining| < |remaining| {
        RoundsFacts(p.out, p.remaining);
      } else {
        assert forall c :: c in remaining ==> exists k :: 0 <= k < |remaining| && remaining[k] == c;
      }
    }
  }

  lemma SortedFacts(classes: seq<ObjcClass>)
    ensures PlacedInOrder(Sorted(classes)) && Stuck(Sorted(classes))
    ensures multiset(Sorted(classes).out + Sorted(classes).remaining) == multiset(classes)
  {
    hide Rounds, StableSort, Stuck;
    RoundsFacts([], StableSort(classes, NameOf));
  }

  /**
   * If any order of the classes puts every present superclass first, none is left over: the unplaced
   * class that comes first in that order would have had its superclass placed.
   */
  lemma OrderableLeavesNothing(classes: seq<ObjcClass>, q: seq<ObjcClass>)
    requires multiset(q) == multiset(classes) && ParentsFirst(q)
    ensures Sorted(classes).remaining == []
  {
    hide Sorted, Has;
    SortedFacts(classes);
    var p := Sorted(classes);
    if p.remaining != [] {
      var c := p.remaining[0];
      assert c in multiset(p.out + p.remaining);
      assert c in q;
      var waiting := set d | d in p.remaining;
      var i := FirstWithin(q, waiting, c);
      ParentOfFirst(p, q, i);
    }
  }

  lemma {:induction false} FirstWithin(q: seq<ObjcClass>, s: set<ObjcClass>, c: ObjcClass) returns (i: nat)
    requires c in q && c in s
    ensures i < |q| && q[i] in s && forall k :: 0 <= k < i ==> q[k] !in s
  {
    i := 0;
    while q[i] !in s
      invariant i < |q| && c in q[i..]
      invariant forall k :: 0 <= k < i ==> q[k] !in s
      decreases |q| - i
    {
      i := i + 1;
    }
  }

  lemma ParentOfFirst(p: Progress, q: seq<ObjcClass>, i: nat)
    requires multiset(q) == multiset(p.out + p.remaining) && ParentsFirst(q)
    requires i < |q| && forall k :: 0 <= k < i ==> q[k] !in p.remaining
    ensures Placeable(q[i], p.out, p.remaining)
  {
    hide Has;
    assert ParentBefore(q, i, q);
    if q[i].superclass.Some? {
      var s := q[i].superclass.value;
      HasIsBag(q, p.out + p.remaining, s);
      HasSplit(p.out, p.remaining, s);
      if Has(q[..i], s) {
        PlacedBefore(p, q, i, s);
      }
    }
  }

  lemma PlacedBefore(p: Progress, q: seq<ObjcClass>, i: nat, s: Str)
    requires multiset(q) == multiset(p.out + p.remaining)
    requires i < |q| && Has(q[..i], s) && forall k :: 0 <= k < i ==> q[k] !in p.remaining
    ensures Has(p.out, s)
  {
    var d :| d in q[..i] && d.name == s;
    assert d in multiset(p.out + p.remaining);
  }

  /** The result has parents first exactly when some order of the classes has. */
  lemma ParentsFirstIfPossible(classes: seq<ObjcClass>)
    ensures ParentsFirst(Result(classes)) <==> exists q :: multiset(q) == multiset(classes) && ParentsFirst(q)
    ensures ParentsFirst(Result(classes)) <==> Sorted(classes).remaining == []
  {
    hide Sorted, ParentBefore, Stuck;
    ResultIsPermutation(classes);
    SortedFacts(classes);
    if q :| multiset(q) == multiset(classes) && ParentsFirst(q) {
      OrderableLeavesNothing(classes, q);
    }
    if Sorted(classes).remaining == [] {
      assert Result(classes) == Sorted(classes).out;
    }
  }

  // ----- blocked classes -----

  /**
   * Classes that wait for each other: each has a present superclass name, not `NSObject`, and every class of
   * that name is among them.
   */
  ghost predicate Blocked(s: set<ObjcClass>, classes: seq<ObjcClass>) {
    s != {} && forall c :: c in s ==>
      && c in classes && c.superclass.Some? && c.superclass.value != NSOBJECT && Has(classes, c.superclass.value)
      && forall d :: d in classes && d.name == c.superclass.value ==> d in s
  }

  ghost predicate HasBlocked(classes: seq<ObjcClass>) {
    exists s: set<ObjcClass> :: Blocked(s, classes)
  }

  lemma InBag(a: seq<ObjcClass>, b: seq<ObjcClass>, c: ObjcClass)
    requires multiset(a) == multiset(b)
    ensures c in a <==> c in b
  {
    assert c in multiset(a) <==> c in multiset(b);
  }

  lemma RemainderIsBlocked(classes: seq<ObjcClass>, p: Progress)
    requires multiset(p.out + p.remaining) == multiset(classes) && Stuck(p) && p.remaining != []
    ensures HasBlocked(classes)
  {
    hide Has, Placeable;
    var s := set c | c in p.remaining;
    assert p.remaining[0] in s;
    forall c | c in s
      ensures c in classes && c.superclass.Some? && c.superclass.value != NSOBJECT && Has(classes, c.superclass.value)
      ensures forall d :: d in classes && d.name == c.superclass.value ==> d in s
    {
      InBag(p.out + p.remaining, classes, c);
      WaitsForRemaining(classes, p, c);
    }
    assert Blocked(s, classes);
  }

  lemma WaitsForRemaining(classes: seq<ObjcClass>, p: Progress, c: ObjcClass)
    requires multiset(p.out + p.remaining) == multiset(classes) && Stuck(p) && c in p.remaining
    ensures c.superclass.Some? && c.superclass.value != NSOBJECT && Has(classes, c.superclass.value)
    ensures forall d :: d in classes && d.name == c.superclass.value ==> d in p.remaining
  {
    assert !Placeable(c, p.out, p.remaining);
    var name := c.superclass.value;
    HasIsBag(p.out + p.remaining, classes, name);
    HasSplit(p.out, p.remaining, name);
    forall d | d in classes && d.name == name ensures d in p.remaining {
      InBag(p.out + p.remaining, classes, d);
    }
  }

  /** In no order can the first of the blocked classes have its superclass before it. */
  lemma BlockedCannotBeOrdered(classes: seq<ObjcClass>, s: set<ObjcClass>, q: seq<ObjcClass>)
    requires Blocked(s, classes) && multiset(q) == multiset(classes)
    ensures !ParentsFirst(q)
  {
    hide Has;
    var c :| c in s;
    InBag(q, classes, c);
    var i := FirstWithin(q, s, c);
    var name := q[i].superclass.value;
    HasIsBag(q, classes, name);
    if Has(q[..i], name) {
      var j := IndexOf(q[..i], name);
      InBag(q, classes, q[j]);
    }
    assert !ParentBefore(q, i, q);
  }

  /**
   * For every list, duplicate names included: the result has parents first, and the fallback is not needed,
   * exactly when no classes block each other.
   */
  lemma ParentsFirstIffUnblocked(classes: seq<ObjcClass>)
    ensures ParentsFirst(Result(classes)) <==> !HasBlocked(classes)
    ensures Sorted(classes).remaining == [] <==> !HasBlocked(classes)
  {
    hide Sorted, ParentsFirst, Stuck, PlacedInOrder;
    ParentsFirstIfPossible(classes);
    SortedFacts(classes);
    ResultIsPermutation(classes);
    if Sorted(classes).remaining != [] {
      RemainderIsBlocked(classes, Sorted(classes));
    }
    if s :| Blocked(s, classes) {
      BlockedCannotBeOrdered(classes, s, Result(classes));
    }
  }

  /** Two classes that name each other as superclass: both are left to the fallback. */
  lemma MutualParents(a: Str, b: Str)
    requires a != b && a != NSOBJECT && b != NSOBJECT
    ensures var classes := [ObjcClass(a, Some(b), 0), ObjcClass(b, Some(a), 1)];
      !ParentsFirst(Result(classes)) && Sorted(classes).remaining != []
  {
    hide Sorted, Result, ParentsFirst, ValidUtf8;
    var x, y := ObjcClass(a, Some(b), 0), ObjcClass(b, Some(a), 1);
    var classes := [x, y];
    assert x in classes && y in classes;
    assert forall c :: c in classes ==> c == x || c == y;
    assert Has(classes, a) && Has(classes, b);
    hide Has;
    assert Blocked({x, y}, classes);
    hide Blocked;
    ParentsFirstIffUnblocked(classes);
  }

  // ----- cycles -----

  /** The index after `k` going round `n` places. */
  function After(k: nat, n: nat): (r: nat)
    requires k < n
    ensures r < n
  {
    if k + 1 == n then 0 else k + 1
  }

  /** Each class names the next as its superclass, the last one the first. */
  predicate Cycle(cycle: seq<ObjcClass>) {
    cycle != [] && forall k :: 0 <= k < |cycle| ==>
      cycle[k].superclass == Some(cycle[After(k, |cycle|)].name) && cycle[k].superclass.value != NSOBJECT
  }

  ghost predicate HasCycle(classes: seq<ObjcClass>) {
    exists cycle :: Cycle(cycle) && forall c :: c in cycle ==> c in classes
  }

  /** Some index of the remainder holds the superclass of the class at `i`. */
  lemma ParentIndex(p: Progress, i: nat) returns (k: nat)
    requires Stuck(p) && i < |p.remaining|
    ensures k < |p.remaining| && Link(p, i, k)
  {
    StuckHasParent(p, i);
    k := IndexOf(p.remaining, p.remaining[i].superclass.value);
  }

  lemma StuckHasParent(p: Progress, i: nat)
    requires Stuck(p) && i < |p.remaining|
    ensures p.remaining[i].superclass.Some?
    ensures p.remaining[i].superclass.value != NSOBJECT && Has(p.remaining, p.remaining[i].superclass.value)
  {
    hide Has;
    assert !Placeable(p.remaining[i], p.out, p.remaining);
  }

  lemma IndexOf(classes: seq<ObjcClass>, name: Str) returns (k: nat)
    requires Has(classes, name)
    ensures k < |classes| && classes[k].name == name
  {
    var c :| c in classes && c.name == name;
    k :| 0 <= k < |classes| && classes[k] == c;
  }

  predicate Link(p: Progress, i: nat, k: nat)
    requires i < |p.remaining| && k < |p.remaining|
  {
    p.remaining[i].superclass == Some(p.remaining[k].name) && p.remaining[k].name != NSOBJECT
  }

  predicate Follows(p: Progress, path: seq<nat>) {
    && (forall k :: 0 <= k < |path| ==> path[k] < |p.remaining|)
    && forall k :: 1 <= k < |path| ==> Link(p, path[k - 1], path[k])
  }

  /** Following superclasses through the remainder never ends. */
  lemma {:induction false} LongPath(p: Progress, n: nat) returns (path: seq<nat>)
    requires Stuck(p) && p.remaining != []
    ensures |path| == n + 1 && Follows(p, path)
  {
    hide Stuck, Link;
    path := [0];
    while |path| < n + 1
      invariant 1 <= |path| <= n + 1 && Follows(p, path)
    {
      var k := ParentIndex(p, path[|path| - 1]);
      path := path + [k];
    }
  }

  /** Pigeonhole: `n + 1` indices below `n` repeat. */
  lemma {:induction false} Repeats(path: seq<nat>, n: nat) returns (i: nat, j: nat)
    requires |path| == n + 1 && forall k :: 0 <= k < |path| ==> path[k] < n
    ensures i < j < |path| && path[i] == path[j]
    decreases n
  {
    var last := path[n];
    if k :| 0 <= k < n && path[k] == last {
      return k, n;
    }
    // no other entry is `last`: rename n - 1 to it and drop the end
    var shorter := seq(n, k requires 0 <= k < n => if path[k] == n - 1 then last else path[k]);
    i, j := Repeats(shorter, n - 1);
  }

  /** The classes on the path from `i` up to but not including `j`. */
  function Between(p: Progress, path: seq<nat>, i: nat, j: nat): (r: seq<ObjcClass>)
    requires Follows(p, path) && i < j < |path|
    ensures |r| == j - i
  {
    seq(j - i, k requires 0 <= k < j - i => p.remaining[path[i + k]])
  }

  lemma BetweenLinks(p: Progress, path: seq<nat>, i: nat, j: nat, k: nat)
    requires Follows(p, path) && i < j < |path| && path[i] == path[j] && k < j - i
    ensures var cycle := Between(p, path, i, j);
      && cycle[k].superclass == Some(cycle[After(k, |cycle|)].name)
      && cycle[k].superclass.value != NSOBJECT && cycle[k] in p.remaining
  {
    var at := i + k + 1;
    assert Link(p, path[at - 1], path[at]);
  }

  /** Between two visits to the same class, a path closes a cycle. */
  lemma PathCloses(p: Progress, path: seq<nat>, i: nat, j: nat)
    requires Follows(p, path) && i < j < |path| && path[i] == path[j]
    ensures HasCycle(p.remaining)
  {
    hide Between, Follows, After;
    var cycle := Between(p, path, i, j);
    forall k | 0 <= k < |cycle|
      ensures cycle[k].superclass == Some(cycle[After(k, |cycle|)].name) && cycle[k].superclass.value != NSOBJECT
      ensures cycle[k] in p.remaining
    {
      BetweenLinks(p, path, i, j, k);
    }
    assert Cycle(cycle);
    hide Cycle;
  }

  /** A remainder is left over only when it contains a superclass cycle. */
  lemma RemainderHasCycle(classes: seq<ObjcClass>)
    ensures Sorted(classes).remaining != [] ==> HasCycle(Sorted(classes).remaining)
  {
    hide Sorted, PlacedInOrder, Stuck, HasCycle;
    SortedFacts(classes);
    var p := Sorted(classes);
    if p.remaining != [] {
      var path := LongPath(p, |p.remaining|);
      var i, j := Repeats(path, |p.remaining|);
      PathCloses(p, path, i, j);
    }
  }

  /** With no cycle among the classes, every present superclass comes before its subclasses. */
  lemma AcyclicSorts(classes: seq<ObjcClass>)
    requires !HasCycle(classes)
    ensures ParentsFirst(Result(classes))
  {
    hide Sorted, ParentsFirst, Cycle;
    RemainderHasCycle(classes);
    ParentsFirstIfPossible(classes);
    ResultIsPermutation(classes);
    var p := Sorted(classes);
    if p.remaining != [] {
      var cycle :| Cycle(cycle) && forall c :: c in cycle ==> c in p.remaining;
      forall c | c in cycle ensures c in classes {
        assert c in Result(classes);
        assert c in multiset(Result(classes));
      }
    }
  }

  /** In an order with parents first, the classes of a cycle would stand ever further forward. */
  lemma {:induction false} CycleDescends(q: seq<ObjcClass>, cycle: seq<ObjcClass>, k: nat, at: nat)
    requires ParentsFirst(q) && Distinct(q, NameOf)
    requires Cycle(cycle) && forall c :: c in cycle ==> c in q
    requires k < |cycle| && at < |q| && q[at] == cycle[k]
    ensures false
    decreases at
  {
    var next := cycle[After(k, |cycle|)];
    assert ParentBefore(q, at, q);
    assert next in q;
    var d :| d in q[..at] && d.name == next.name;
    var j :| 0 <= j < at && q[j] == d;
    var i :| 0 <= i < |q| && q[i] == next;
    assert NameOf(q[i]) == NameOf(q[j]);
    CycleDescends(q, cycle, After(k, |cycle|), j);
  }

  /** For classes with distinct names, the result has parents first exactly when there is no cycle. */
  lemma DistinctSortsIffAcyclic(classes: seq<ObjcClass>)
    requires Distinct(classes, NameOf)
    ensures ParentsFirst(Result(classes)) <==> !HasCycle(classes)
  {
    hide ParentsFirst, Result, Cycle;
    if !HasCycle(classes) {
      AcyclicSorts(classes);
    } else if ParentsFirst(Result(classes)) {
      var cycle :| Cycle(cycle) && forall c :: c in cycle ==> c in classes;
      ResultIsPermutation(classes);
      var q := Result(classes);
      DistinctIsBag(classes, q);
      forall c | c in cycle ensures c in q {
        assert c in multiset(classes);
      }
      CycleNotEmpty(cycle);
      assert cycle[0] in cycle;
      var at :| 0 <= at < |q| && q[at] == cycle[0];
      CycleDescends(q, cycle, 0, at);
    }
  }

  lemma CycleNotEmpty(cycle: seq<ObjcClass>)
    requires Cycle(cycle)
    ensures |cycle| > 0
  {
  }

  /** Distinctness of names survives reordering. */
  lemma {:induction false} DistinctIsBag(a: seq<ObjcClass>, b: seq<ObjcClass>)
    requires multiset(a) == multiset(b) && Distinct(a, NameOf)
    ensures Distinct(b, NameOf)
  {
    forall i, j | 0 <= i < j < |b| ensures NameOf(b[i]) != NameOf(b[j]) {
      assert b[i] in multiset(a) && b[j] in multiset(a);
      if NameOf(b[i]) == NameOf(b[j]) {
        assert b[i] == b[j];
        TwoCopies(b, i, j);
        OneCopy(a, b[i]);
      }
    }
  }

  lemma TwoCopies(b: seq<ObjcClass>, i: nat, j: nat)
    requires i < j < |b| && b[i] == b[j]
    ensures multiset(b)[b[i]] >= 2
  {
    assert b == b[..i] + [b[i]] + b[i + 1..j] + [b[j]] + b[j + 1..];
  }

  lemma {:induction false} OneCopy(a: seq<ObjcClass>, c: ObjcClass)
    requires Distinct(a, NameOf)
    ensures multiset(a)[c] <= 1
  {
    if a != [] {
      assert a == [a[0]] + a[1..];
      OneCopy(a[1..], c);
      if a[0] == c {
        assert c !in a[1..];
      }
    }
  }
}
