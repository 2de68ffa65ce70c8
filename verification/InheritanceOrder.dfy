/** The order of `sort_by_inheritance` beyond parents first: by name, and who may stand behind a larger name. */
module InheritanceOrder {
  import opened Words
  import opened Text
  import opened ByteOrder
  import opened InheritanceSort

  /** The class has a superclass that is present and not `NSObject`: it may have to wait. */
  predicate Waits(c: ObjcClass, all: seq<ObjcClass>) {
    c.superclass.Some? && c.superclass.value != NSOBJECT && Has(all, c.superclass.value)
  }

  /** Every class of the name of `c`'s superclass among the first `n` of `q` has a name no smaller than `c`'s. */
  predicate OnlyLaterParents(c: ObjcClass, q: seq<ObjcClass>, n: nat)
    requires n <= |q|
  {
    forall p :: 0 <= p < n && Some(q[p].name) == c.superclass ==> Leq(c.name, q[p].name)
  }

  /** `c` may stand behind the class at `a`: its name is no smaller, or it waits for a superclass not yet passed. */
  predicate MayFollow(c: ObjcClass, q: seq<ObjcClass>, a: nat, all: seq<ObjcClass>)
    requires a < |q|
  {
    Less(c.name, q[a].name) ==> Waits(c, all) && OnlyLaterParents(c, q, a)
  }

  predicate FollowsAll(c: ObjcClass, q: seq<ObjcClass>, n: nat, all: seq<ObjcClass>)
    requires n <= |q|
  {
    forall a :: 0 <= a < n ==> MayFollow(c, q, a, all)
  }

  /** A class stands behind a larger name only while it waits. */
  predicate OrderedByName(q: seq<ObjcClass>, all: seq<ObjcClass>) {
    forall b :: 0 <= b < |q| ==> FollowsAll(q[b], q, b, all)
  }

  // ----- what a pass keeps -----

  /** A class this pass has visited and left: only classes placed since then can be its parents. */
  predicate Left(c: ObjcClass, out: seq<ObjcClass>, upTo: Option<Str>, all: seq<ObjcClass>) {
    && Waits(c, all)
    && OnlyLaterParents(c, out, |out|)
    && (upTo.Some? ==> forall p :: 0 <= p < |out| && Some(out[p].name) == c.superclass ==> Leq(out[p].name, upTo.value))
  }

  function NextName(remaining: seq<ObjcClass>, i: nat): Option<Str> {
    if i < |remaining| then Some(remaining[i].name) else None
  }

  predicate InPass(out: seq<ObjcClass>, remaining: seq<ObjcClass>, i: nat, all: seq<ObjcClass>)
    requires i <= |remaining|
  {
    && BetweenPasses(out, remaining, all)
    && forall k :: 0 <= k < i ==> Left(remaining[k], out, NextName(remaining, i), all)
  }

  /** What holds between passes. */
  predicate BetweenPasses(out: seq<ObjcClass>, remaining: seq<ObjcClass>, all: seq<ObjcClass>) {
    && multiset(out + remaining) == multiset(all)
    && SortedBy(remaining, NameOf)
    && OrderedByName(out, all)
    && forall k :: 0 <= k < |remaining| ==> FollowsAll(remaining[k], out, |out|, all)
  }

  lemma SortedWithout(s: seq<ObjcClass>, i: nat)
    requires SortedBy(s, NameOf) && i < |s|
    ensures SortedBy(s[..i] + s[i + 1..], NameOf)
  {
    var r := s[..i] + s[i + 1..];
    forall j, k | 0 <= j < k < |r| ensures Leq(NameOf(r[j]), NameOf(r[k])) {
      var j', k' := if j < i then j else j + 1, if k < i then k else k + 1;
      assert r[j] == s[j'] && r[k] == s[k'];
    }
  }

  lemma LongerPrefix(c: ObjcClass, q: seq<ObjcClass>, r: seq<ObjcClass>, n: nat, all: seq<ObjcClass>)
    requires n <= |q|
    ensures FollowsAll(c, q, n, all) <==> FollowsAll(c, q + r, n, all)
    ensures OnlyLaterParents(c, q, n) <==> OnlyLaterParents(c, q + r, n)
  {
    hide Leq, Waits;
    forall a | 0 <= a < n ensures MayFollow(c, q, a, all) <==> MayFollow(c, q + r, a, all) {
      assert (q + r)[a] == q[a];
      assert forall p :: 0 <= p < a ==> (q + r)[p] == q[p];
    }
    assert forall p :: 0 <= p < n ==> (q + r)[p] == q[p];
  }

  lemma OrderExtends(out: seq<ObjcClass>, x: ObjcClass, all: seq<ObjcClass>)
    requires OrderedByName(out, all) && FollowsAll(x, out, |out|, all)
    ensures OrderedByName(out + [x], all)
  {
    hide FollowsAll;
    var q := out + [x];
    forall b | 0 <= b < |q| ensures FollowsAll(q[b], q, b, all) {
      LongerPrefix(q[b], out, [x], b, all);
      assert b < |out| ==> q[b] == out[b];
    }
  }

  /** A class left before `x` in this pass may follow `x`. */
  lemma LeftFollows(c: ObjcClass, out: seq<ObjcClass>, x: ObjcClass, upTo: Option<Str>, all: seq<ObjcClass>)
    requires Left(c, out, upTo, all) && FollowsAll(c, out, |out|, all)
    ensures FollowsAll(c, out + [x], |out| + 1, all)
  {
    hide Leq, Waits;
    LongerPrefix(c, out, [x], |out|, all);
    var q := out + [x];
    forall a | 0 <= a < |q| ensures MayFollow(c, q, a, all) {
      if a < |out| {
        assert FollowsAll(c, q, |out|, all);
      }
    }
  }

  /** A class whose name is no smaller than `x` may follow `x`. */
  lemma LaterFollows(c: ObjcClass, out: seq<ObjcClass>, x: ObjcClass, all: seq<ObjcClass>)
    requires FollowsAll(c, out, |out|, all) && Leq(x.name, c.name)
    ensures FollowsAll(c, out + [x], |out| + 1, all)
  {
    LongerPrefix(c, out, [x], |out|, all);
    var q := out + [x];
    forall a | 0 <= a < |q| ensures MayFollow(c, q, a, all) {
      if a < |out| {
        assert FollowsAll(c, q, |out|, all);
      } else if Leq(c.name, x.name) {
        LeqAntisymmetric(c.name, x.name);
      }
    }
  }

  /** A class left before `x` stays left when `x` is placed and the pass moves on to a name no smaller. */
  lemma LeftStays(c: ObjcClass, out: seq<ObjcClass>, x: ObjcClass, upTo: Option<Str>, all: seq<ObjcClass>)
    requires Left(c, out, Some(x.name), all) && Leq(c.name, x.name) && (upTo.Some? ==> Leq(x.name, upTo.value))
    ensures Left(c, out + [x], upTo, all)
  {
    var q := out + [x];
    forall p | 0 <= p < |q| && Some(q[p].name) == c.superclass
      ensures Leq(c.name, q[p].name) && (upTo.Some? ==> Leq(q[p].name, upTo.value))
    {
      if p < |out| {
        assert q[p] == out[p];
        if upTo.Some? {
          LeqTransitive(q[p].name, x.name, upTo.value);
        }
      }
    }
  }

  lemma Moved(out: seq<ObjcClass>, remaining: seq<ObjcClass>, i: nat)
    requires i < |remaining|
    ensures multiset((out + [remaining[i]]) + (remaining[..i] + remaining[i + 1..])) == multiset(out + remaining)
  {
    RemoveKeeps(remaining, i);
  }

  lemma PlacedInPass(out: seq<ObjcClass>, remaining: seq<ObjcClass>, i: nat, all: seq<ObjcClass>)
    requires i < |remaining| && InPass(out, remaining, i, all)
    ensures InPass(out + [remaining[i]], remaining[..i] + remaining[i + 1..], i, all)
  {
    hide FollowsAll, OrderedByName, Left, Leq;
    var x, rest := remaining[i], remaining[..i] + remaining[i + 1..];
    Moved(out, remaining, i);
    SortedWithout(remaining, i);
    OrderExtends(out, x, all);
    forall k | 0 <= k < |rest| ensures FollowsAll(rest[k], out + [x], |out + [x]|, all) {
      if k < i {
        assert rest[k] == remaining[k];
        LeftFollows(rest[k], out, x, NextName(remaining, i), all);
      } else {
        assert rest[k] == remaining[k + 1];
        assert Leq(NameOf(remaining[i]), NameOf(remaining[k + 1]));
        LaterFollows(rest[k], out, x, all);
      }
    }
    forall k | 0 <= k < i ensures Left(rest[k], out + [x], NextName(rest, i), all) {
      assert rest[k] == remaining[k];
      assert Leq(NameOf(remaining[k]), NameOf(remaining[i]));
      if i < |rest| {
        assert rest[i] == remaining[i + 1];
        assert Leq(NameOf(remaining[i]), NameOf(remaining[i + 1]));
      }
      LeftStays(rest[k], out, x, NextName(rest, i), all);
    }
  }

  lemma NotPlacedWaits(c: ObjcClass, out: seq<ObjcClass>, remaining: seq<ObjcClass>, all: seq<ObjcClass>)
    requires multiset(out + remaining) == multiset(all) && !Placeable(c, out, remaining)
    ensures Waits(c, all) && !Has(out, c.superclass.value)
  {
    hide Has;
    HasSplit(out, remaining, c.superclass.value);
    HasIsBag(out + remaining, all, c.superclass.value);
  }

  lemma LeftInPass(out: seq<ObjcClass>, remaining: seq<ObjcClass>, i: nat, all: seq<ObjcClass>)
    requires i < |remaining| && InPass(out, remaining, i, all) && !Placeable(remaining[i], out, remaining)
    ensures InPass(out, remaining, i + 1, all)
  {
    hide FollowsAll, OrderedByName, Waits, Leq;
    NotPlacedWaits(remaining[i], out, remaining, all);
    forall k | 0 <= k < i + 1 ensures Left(remaining[k], out, NextName(remaining, i + 1), all) {
      if k < i {
        forall p | 0 <= p < |out| && Some(out[p].name) == remaining[k].superclass && i + 1 < |remaining|
          ensures Leq(out[p].name, remaining[i + 1].name)
        {
          assert Leq(NameOf(remaining[i]), NameOf(remaining[i + 1]));
          LeqTransitive(out[p].name, remaining[i].name, remaining[i + 1].name);
        }
      } else {
        forall p | 0 <= p < |out| ensures Some(out[p].name) != remaining[k].superclass {
          assert out[p] in out;
        }
      }
    }
  }

  // ----- where each class comes from -----

  /** These two of one name keep their input order: neither waits, or both wait for one name that is not their own. */
  predicate KeepOrder(c: ObjcClass, d: ObjcClass, all: seq<ObjcClass>) {
    c.name == d.name &&
    ((!Waits(c, all) && !Waits(d, all)) || (c.superclass == d.superclass && c.superclass != Some(c.name)))
  }

  /** `f` gives each class of `q` its own index in `all`. */
  predicate Positions(q: seq<ObjcClass>, f: seq<nat>, all: seq<ObjcClass>) {
    && |f| == |q| == |all|
    && (forall j :: 0 <= j < |f| ==> f[j] < |all| && q[j] == all[f[j]])
    && forall j, l :: 0 <= j < l < |f| ==> f[j] != f[l]
  }

  /** Classes that keep their order, and classes of one name from index `n` on, stand in input order. */
  predicate OrderKept(q: seq<ObjcClass>, f: seq<nat>, n: nat, all: seq<ObjcClass>)
    requires |f| == |q|
  {
    forall j, l :: 0 <= j < l < |f| && (KeepOrder(q[j], q[l], all) || (n <= j && q[j].name == q[l].name)) ==> f[j] < f[l]
  }

  predicate Tracked(out: seq<ObjcClass>, remaining: seq<ObjcClass>, f: seq<nat>, all: seq<ObjcClass>) {
    Positions(out + remaining, f, all) && OrderKept(out + remaining, f, |out|, all)
  }

  /** The index before index `o + i` has moved to `o`. */
  function Source(o: nat, i: nat, j: nat): nat {
    if j == o then o + i else if o < j <= o + i then j - 1 else j
  }

  /** A class left in this pass is not one of those that keep their order with the class now placed. */
  lemma LeftDiffers(out: seq<ObjcClass>, remaining: seq<ObjcClass>, i: nat, k: nat, all: seq<ObjcClass>)
    requires k < i < |remaining| && InPass(out, remaining, i, all) && Placeable(remaining[i], out, remaining)
    ensures !KeepOrder(remaining[i], remaining[k], all)
  {
    hide FollowsAll, OrderedByName, Has;
    var x, c := remaining[i], remaining[k];
    assert Left(c, out, Some(x.name), all);
    if x.name == c.name && x.superclass == c.superclass {
      HasSplit(out, remaining, c.superclass.value);
      HasIsBag(out + remaining, all, c.superclass.value);
      var p := IndexOf(out, c.superclass.value);
      LeqAntisymmetric(c.name, out[p].name);
    }
  }

  /** Placing the class at `i` moves it in front of the ones left before it. */
  lemma MovedFrom(out: seq<ObjcClass>, remaining: seq<ObjcClass>, i: nat, j: nat)
    requires i < |remaining| && j < |out| + |remaining|
    ensures ((out + [remaining[i]]) + (remaining[..i] + remaining[i + 1..]))[j] == (out + remaining)[Source(|out|, i, j)]
  {
  }

  lemma PlacedTracked(out: seq<ObjcClass>, remaining: seq<ObjcClass>, i: nat, f: seq<nat>, all: seq<ObjcClass>)
    returns (g: seq<nat>)
    requires i < |remaining| && InPass(out, remaining, i, all) && Placeable(remaining[i], out, remaining)
    requires Tracked(out, remaining, f, all)
    ensures Tracked(out + [remaining[i]], remaining[..i] + remaining[i + 1..], g, all)
  {
    forall k | 0 <= k < i ensures !KeepOrder(remaining[i], remaining[k], all) {
      LeftDiffers(out, remaining, i, k, all);
    }
    hide InPass, Placeable, KeepOrder;
    g := MoveTracked(out, remaining, i, f, all);
  }

  lemma MoveTracked(out: seq<ObjcClass>, remaining: seq<ObjcClass>, i: nat, f: seq<nat>, all: seq<ObjcClass>)
    returns (g: seq<nat>)
    requires i < |remaining| && Tracked(out, remaining, f, all)
    requires forall k :: 0 <= k < i ==> !KeepOrder(remaining[i], remaining[k], all)
    ensures Tracked(out + [remaining[i]], remaining[..i] + remaining[i + 1..], g, all)
  {
    hide KeepOrder, OrderKept;
    var o, q := |out|, out + remaining;
    var r := (out + [remaining[i]]) + (remaining[..i] + remaining[i + 1..]);
    g := seq(|f|, j requires 0 <= j < |f| => f[Source(o, i, j)]);
    forall j | 0 <= j < |f| ensures r[j] == q[Source(o, i, j)] {
      MovedFrom(out, remaining, i, j);
    }
    forall p | o <= p < o + i ensures !KeepOrder(q[o + i], q[p], all) {
      assert q[p] == remaining[p - o] && q[o + i] == remaining[i];
    }
    MoveKeepsOrder(q, r, f, g, o, i, all);
  }

  lemma MoveKeepsOrder(q: seq<ObjcClass>, r: seq<ObjcClass>, f: seq<nat>, g: seq<nat>, o: nat, i: nat, all: seq<ObjcClass>)
    requires |f| == |q| == |r| == |g| && o + i < |q| && OrderKept(q, f, o, all)
    requires forall j :: 0 <= j < |f| ==> r[j] == q[Source(o, i, j)] && g[j] == f[Source(o, i, j)]
    requires forall p :: o <= p < o + i ==> !KeepOrder(q[o + i], q[p], all)
    ensures OrderKept(r, g, o + 1, all)
  {
    hide KeepOrder;
    forall j, l | 0 <= j < l < |g| && (KeepOrder(r[j], r[l], all) || (o + 1 <= j && r[j].name == r[l].name))
      ensures g[j] < g[l]
    {
      if j != o || l > o + i {
        assert Source(o, i, j) < Source(o, i, l);
      }
    }
  }

  // ----- over a run -----

  lemma {:induction false} SweepOrders(out: seq<ObjcClass>, remaining: seq<ObjcClass>, i: nat, f: seq<nat>,
                                       all: seq<ObjcClass>)
    returns (g: seq<nat>)
    requires i <= |remaining| && InPass(out, remaining, i, all) && Tracked(out, remaining, f, all)
    ensures var p := Sweep(out, remaining, i);
      BetweenPasses(p.out, p.remaining, all) && Tracked(p.out, p.remaining, g, all)
    decreases |remaining| - i
  {
    hide InPass, BetweenPasses, Placeable, Sweep, Tracked;
    if i == |remaining| {
      SweepEnd(out, remaining);
      PassOver(out, remaining, all);
      g := f;
    } else {
      SweepStep(out, remaining, i);
      if Placeable(remaining[i], out, remaining) {
        PlacedInPass(out, remaining, i, all);
        g := PlacedTracked(out, remaining, i, f, all);
        g := SweepOrders(out + [remaining[i]], remaining[..i] + remaining[i + 1..], i, g, all);
      } else {
        LeftInPass(out, remaining, i, all);
        g := SweepOrders(out, remaining, i + 1, f, all);
      }
    }
  }

  lemma PassOver(out: seq<ObjcClass>, remaining: seq<ObjcClass>, all: seq<ObjcClass>)
    requires InPass(out, remaining, |remaining|, all)
    ensures BetweenPasses(out, remaining, all)
  {
  }

  lemma PassStarts(out: seq<ObjcClass>, remaining: seq<ObjcClass>, all: seq<ObjcClass>)
    requires BetweenPasses(out, remaining, all)
    ensures InPass(out, remaining, 0, all)
  {
  }

  lemma {:induction false} RoundsOrder(out: seq<ObjcClass>, remaining: seq<ObjcClass>, f: seq<nat>, all: seq<ObjcClass>)
    returns (g: seq<nat>)
    requires BetweenPasses(out, remaining, all) && Tracked(out, remaining, f, all)
    ensures var p := Rounds(out, remaining);
      BetweenPasses(p.out, p.remaining, all) && Tracked(p.out, p.remaining, g, all)
    decreases |remaining|
  {
    hide BetweenPasses, Sweep, InPass, Tracked;
    g := f;
    if remaining != [] {
      var p := Sweep(out, remaining, 0);
      PassStarts(out, remaining, all);
      g := SweepOrders(out, remaining, 0, f, all);
      if |p.remaining| < |remaining| {
        g := RoundsOrder(p.out, p.remaining, g, all);
      }
    }
  }

  lemma SortedOrders(classes: seq<ObjcClass>) returns (f: seq<nat>)
    ensures var p := Sorted(classes);
      BetweenPasses(p.out, p.remaining, classes) && Tracked(p.out, p.remaining, f, classes)
  {
    hide Rounds, StableSort;
    var s := StableSort(classes, NameOf);
    SortFacts(classes, NameOf);
    assert [] + s == s;
    f := SortPositions(classes, NameOf);
    f := RoundsOrder([], s, f, classes);
  }

  // ----- the result -----

  /**
   * In the result a class stands behind a class of a larger name only if it has a present superclass other than
   * `NSObject`, and every class of that superclass in front of the larger name has itself no smaller name than it:
   * it was passed over before they were placed.
   */
  lemma NamesInOrder(classes: seq<ObjcClass>, a: nat, b: nat)
    requires a < b < |InheritanceSort.Result(classes)|
    ensures var q := InheritanceSort.Result(classes); Less(q[b].name, q[a].name) ==>
      && q[b].superclass.Some? && !Spells(q[b].superclass.value, "NSObject")
      && Has(classes, q[b].superclass.value)
      && forall p :: 0 <= p < a && q[p].name == q[b].superclass.value ==> Leq(q[b].name, q[p].name)
  {
    hide Sorted, Has, Leq;
    var f := SortedOrders(classes);
    var out, rest := Sorted(classes).out, Sorted(classes).remaining;
    var q := out + rest;
    if b < |out| {
      assert FollowsAll(out[b], out, b, classes);
      LongerPrefix(out[b], out, rest, b, classes);
      assert q[b] == out[b];
      assert MayFollow(q[b], q, a, classes);
    } else if a < |out| {
      assert q[b] == rest[b - |out|];
      assert FollowsAll(rest[b - |out|], out, |out|, classes);
      LongerPrefix(q[b], out, rest, |out|, classes);
      assert MayFollow(q[b], q, a, classes);
    } else {
      assert q[a] == rest[a - |out|] && q[b] == rest[b - |out|];
      assert Leq(NameOf(q[a]), NameOf(q[b]));
      NotLess(q[a].name, q[b].name);
    }
  }

  /**
   * Where the classes of the result stood in the input: classes of one name keep their input order when neither has
   * a present superclass other than `NSObject`, when both name the same superclass and not themselves, and when both
   * are left to the fallback. The fallback is sorted by name.
   */
  lemma InputOrderKept(classes: seq<ObjcClass>) returns (f: seq<nat>)
    ensures var q, n := InheritanceSort.Result(classes), |Sorted(classes).out|;
      && |f| == |q| == |classes|
      && (forall j :: 0 <= j < |f| ==> f[j] < |classes| && q[j] == classes[f[j]])
      && (forall j, l :: 0 <= j < l < |f| ==> f[j] != f[l])
      && (forall j, l :: 0 <= j < l < |f| && KeepOrder(q[j], q[l], classes) ==> f[j] < f[l])
      && forall j, l :: n <= j < l < |f| ==> Leq(q[j].name, q[l].name) && (q[j].name == q[l].name ==> f[j] < f[l])
  {
    hide Sorted, Leq, KeepOrder;
    f := SortedOrders(classes);
    var out, rest := Sorted(classes).out, Sorted(classes).remaining;
    var q := out + rest;
    forall j, l | |out| <= j < l < |q| ensures Leq(q[j].name, q[l].name) {
      assert Leq(NameOf(rest[j - |out|]), NameOf(rest[l - |out|]));
    }
  }

  lemma NotLess(x: Bytes, y: Bytes)
    requires Leq(x, y)
    ensures !Less(y, x)
  {
    if Leq(y, x) {
      LeqAntisymmetric(x, y);
    }
  }
}
