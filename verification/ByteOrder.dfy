/** The order of Rust strings, the stable sort by name, and the key order of a `BTreeMap`. */
module ByteOrder {
  import opened Words

  /** `a <= b` for `String`: bytewise lexicographic. */
  predicate Leq(a: Bytes, b: Bytes) {
    a == [] || (b != [] && (a[0] < b[0] || (a[0] == b[0] && Leq(a[1..], b[1..]))))
  }

  predicate Less(a: Bytes, b: Bytes) { Leq(a, b) && a != b }

  lemma {:induction false} LeqTotal(a: Bytes, b: Bytes)
    ensures Leq(a, b) || Leq(b, a)
  {
    if a != [] && b != [] {
      LeqTotal(a[1..], b[1..]);
    }
  }

  lemma {:induction false} LeqAntisymmetric(a: Bytes, b: Bytes)
    requires Leq(a, b) && Leq(b, a)
    ensures a == b
  {
    if a != [] && b != [] {
      LeqAntisymmetric(a[1..], b[1..]);
      assert a == [a[0]] + a[1..] && b == [b[0]] + b[1..];
    }
  }

  lemma {:induction false} LeqTransitive(a: Bytes, b: Bytes, c: Bytes)
    requires Leq(a, b) && Leq(b, c)
    ensures Leq(a, c)
  {
    if a != [] && a[0] == b[0] == c[0] {
      LeqTransitive(a[1..], b[1..], c[1..]);
    }
  }

  /** One byte string is no larger than another when it is a prefix of it, or smaller at the first difference. */
  lemma {:induction false} LeqIsLexicographic(a: Bytes, b: Bytes)
    ensures Leq(a, b) <==>
      a <= b || exists k: nat :: k < |a| && k < |b| && a[..k] == b[..k] && a[k] < b[k]
  {
    if a != [] && b != [] {
      var s, t := a[1..], b[1..];
      LeqIsLexicographic(s, t);
      assert a <= b ==> a[0] == b[0];
      if a[0] < b[0] {
        assert a[..0] == b[..0];
      } else if a[0] == b[0] {
        assert a <= b <==> s <= t by {
          assert a == [a[0]] + s && b == [b[0]] + t;
        }
        if k: nat :| k < |s| && k < |t| && s[..k] == t[..k] && s[k] < t[k] {
          assert a[..k + 1] == [a[0]] + s[..k] && b[..k + 1] == [b[0]] + t[..k];
          assert a[k + 1] < b[k + 1];
        }
        if k: nat :| k < |a| && k < |b| && a[..k] == b[..k] && a[k] < b[k] {
          assert k > 0;
          assert s[..k - 1] == a[..k][1..] && t[..k - 1] == b[..k][1..];
          assert s[k - 1] < t[k - 1];
        }
      } else {
        assert forall k: nat :: 0 < k < |a| && k < |b| ==> a[..k][0] == a[0] && b[..k][0] == b[0];
      }
    }
  }

  // ----- `sort_by(|a, b| a.name.cmp(&b.name))` -----

  predicate SortedBy<T>(s: seq<T>, key: T -> Bytes) {
    forall i, j :: 0 <= i < j < |s| ==> Leq(key(s[i]), key(s[j]))
  }

  /** The elements of `s` whose key is `k`, in order. */
  function WithKey<T>(s: seq<T>, key: T -> Bytes, k: Bytes): seq<T> {
    if s == [] then [] else (if key(s[0]) == k then [s[0]] else []) + WithKey(s[1..], key, k)
  }

  function Insert<T>(x: T, s: seq<T>, key: T -> Bytes): (r: seq<T>)
    ensures multiset(r) == multiset{x} + multiset(s)
  {
    if s == [] || Leq(key(x), key(s[0])) then [x] + s
    else
      assert s == [s[0]] + s[1..];
      [s[0]] + Insert(x, s[1..], key)
  }

  /** The library's stable sort: `SortFacts` says what is used of it. */
  function StableSort<T>(s: seq<T>, key: T -> Bytes): (r: seq<T>)
    ensures multiset(r) == multiset(s)
  {
    if s == [] then []
    else
      assert s == [s[0]] + s[1..];
      Insert(s[0], StableSort(s[1..], key), key)
  }

  lemma {:induction false} InsertSorted<T>(x: T, s: seq<T>, key: T -> Bytes)
    requires SortedBy(s, key)
    ensures SortedBy(Insert(x, s, key), key)
  {
    if s != [] {
      if Leq(key(x), key(s[0])) {
        forall j | 0 <= j < |s| ensures Leq(key(x), key(s[j])) {
          if j > 0 {
            LeqTransitive(key(x), key(s[0]), key(s[j]));
          }
        }
      } else {
        LeqTotal(key(x), key(s[0]));
        InsertSorted(x, s[1..], key);
        var t := Insert(x, s[1..], key);
        forall j | 0 <= j < |t| ensures Leq(key(s[0]), key(t[j])) {
          assert t[j] in multiset(t);
          assert t[j] == x || t[j] in s[1..];
        }
      }
    }
  }

  lemma WithKeyCons<T>(x: T, s: seq<T>, key: T -> Bytes, k: Bytes)
    ensures WithKey([x] + s, key, k) == (if key(x) == k then [x] else []) + WithKey(s, key, k)
  {
    assert ([x] + s)[1..] == s;
  }

  lemma InsertStep<T>(x: T, s: seq<T>, key: T -> Bytes)
    requires s != [] && !Leq(key(x), key(s[0]))
    ensures Insert(x, s, key) == [s[0]] + Insert(x, s[1..], key)
    ensures key(x) != key(s[0])
  {
    LeqTotal(key(x), key(x));
  }

  lemma {:induction false} InsertStable<T>(x: T, s: seq<T>, key: T -> Bytes, k: Bytes)
    ensures WithKey(Insert(x, s, key), key, k) == (if key(x) == k then [x] else []) + WithKey(s, key, k)
  {
    hide WithKey;
    if s == [] || Leq(key(x), key(s[0])) {
      WithKeyCons(x, s, key, k);
    } else {
      InsertStep(x, s, key);
      hide Insert, Leq;
      var t := Insert(x, s[1..], key);
      WithKeyCons(s[0], t, key, k);
      WithKeyCons(s[0], s[1..], key, k);
      assert s == [s[0]] + s[1..];
      InsertStable(x, s[1..], key, k);
    }
  }

  /** Sorted, and elements with the same key keep their order. */
  lemma {:induction false} SortFacts<T>(s: seq<T>, key: T -> Bytes)
    ensures SortedBy(StableSort(s, key), key)
    ensures forall k :: WithKey(StableSort(s, key), key, k) == WithKey(s, key, k)
  {
    if s != [] {
      var t := StableSort(s[1..], key);
      SortFacts(s[1..], key);
      InsertSorted(s[0], t, key);
      forall k ensures WithKey(StableSort(s, key), key, k) == WithKey(s, key, k) {
        InsertStable(s[0], t, key, k);
      }
    }
  }

  /** `r` is `s` in another order, given index by index, with elements of equal keys in the order they had. */
  predicate StablyFrom<T(==)>(r: seq<T>, s: seq<T>, key: T -> Bytes, f: seq<nat>) {
    && |f| == |r| == |s|
    && (forall j :: 0 <= j < |f| ==> f[j] < |s| && r[j] == s[f[j]])
    && (forall j, l :: 0 <= j < l < |f| ==> f[j] != f[l])
    && forall j, l :: 0 <= j < l < |f| && key(r[j]) == key(r[l]) ==> f[j] < f[l]
  }

  /** `x` goes in at `p`, behind elements of other keys only. */
  predicate PlaceFor<T>(x: T, t: seq<T>, key: T -> Bytes, p: nat) {
    p <= |t| && forall j :: 0 <= j < p ==> key(t[j]) != key(x)
  }

  function Placed<T>(x: T, t: seq<T>, p: nat): (r: seq<T>)
    requires p <= |t|
    ensures |r| == |t| + 1
  {
    t[..p] + [x] + t[p..]
  }

  lemma {:induction false} InsertPlace<T>(x: T, s: seq<T>, key: T -> Bytes) returns (p: nat)
    ensures PlaceFor(x, s, key, p) && Insert(x, s, key) == Placed(x, s, p)
  {
    if s == [] || Leq(key(x), key(s[0])) {
      p := 0;
    } else {
      InsertStep(x, s, key);
      p := InsertPlace(x, s[1..], key);
      hide Insert, Leq;
      assert forall j :: 0 < j < p + 1 ==> s[j] == s[1..][j - 1];
      p := p + 1;
    }
  }

  /** An index past the element put in at `p`, seen without it. */
  function Without(p: nat, j: nat): nat
    requires j != p
  {
    if j < p then j else j - 1
  }

  lemma PlacedAt<T>(x: T, t: seq<T>, p: nat, j: nat)
    requires p <= |t| && j <= |t|
    ensures Placed(x, t, p)[j] == if j == p then x else t[Without(p, j)]
  {
  }

  /** `x` in front of `s`, and at `p` in `t`: the places of the others move up by one. */
  lemma PositionsWith<T>(x: T, s: seq<T>, t: seq<T>, key: T -> Bytes, g: seq<nat>, p: nat) returns (f: seq<nat>)
    requires StablyFrom(t, s, key, g) && PlaceFor(x, t, key, p)
    ensures StablyFrom(Placed(x, t, p), [x] + s, key, f)
  {
    hide Placed;
    var r, n := Placed(x, t, p), |t| + 1;
    f := seq(n, j requires 0 <= j < n => if j == p then 0 else g[Without(p, j)] + 1);
    forall j | 0 <= j < n ensures f[j] < n && r[j] == ([x] + s)[f[j]] && (j != p ==> r[j] == t[Without(p, j)]) {
      PlacedAt(x, t, p, j);
    }
    forall j, l | 0 <= j < l < n ensures f[j] != f[l] && (key(r[j]) == key(r[l]) ==> f[j] < f[l]) {
      if l == p {
        assert key(t[j]) != key(x);
      } else if j != p {
        assert Without(p, j) < Without(p, l);
      }
    }
  }

  /** Where each element of the sorted sequence stood. */
  lemma {:induction false} SortPositions<T>(s: seq<T>, key: T -> Bytes) returns (f: seq<nat>)
    ensures StablyFrom(StableSort(s, key), s, key, f)
  {
    f := [];
    if s != [] {
      SortStep(s, key);
      hide StableSort, Insert, StablyFrom, PlaceFor, Placed;
      f := SortPositions(s[1..], key);
      var t := StableSort(s[1..], key);
      var p := InsertPlace(s[0], t, key);
      f := PositionsWith(s[0], s[1..], t, key, f, p);
      assert [s[0]] + s[1..] == s;
    }
  }

  lemma SortStep<T>(s: seq<T>, key: T -> Bytes)
    requires s != []
    ensures StableSort(s, key) == Insert(s[0], StableSort(s[1..], key), key)
  {
  }

  predicate Distinct<T>(s: seq<T>, key: T -> Bytes) {
    forall i, j :: 0 <= i < j < |s| ==> key(s[i]) != key(s[j])
  }

  lemma {:induction false} WithKeyFinds<T>(s: seq<T>, key: T -> Bytes, i: nat)
    requires i < |s|
    ensures |WithKey(s, key, key(s[i]))| >= 1
    ensures (exists j :: 0 <= j < |s| && j != i && key(s[j]) == key(s[i])) ==> |WithKey(s, key, key(s[i]))| >= 2
  {
    if i > 0 {
      WithKeyFinds(s[1..], key, i - 1);
      assert s[1..][i - 1] == s[i];
      if j :| 0 <= j < |s| && j != i && key(s[j]) == key(s[i]) {
        if j > 0 {
          assert key(s[1..][j - 1]) == key(s[i]);
        }
      }
    } else if j :| 0 <= j < |s| && j != i && key(s[j]) == key(s[i]) {
      assert s[1..][j - 1] == s[j];
      WithKeyFinds(s[1..], key, j - 1);
    }
  }

  lemma {:induction false} DistinctHasOne<T>(s: seq<T>, key: T -> Bytes, k: Bytes)
    requires Distinct(s, key)
    ensures |WithKey(s, key, k)| <= 1
    ensures (forall x :: x in s ==> key(x) != k) ==> WithKey(s, key, k) == []
  {
    if s != [] {
      assert forall i, j :: 0 <= i < j < |s[1..]| ==> s[1..][i] == s[i + 1] && s[1..][j] == s[j + 1];
      DistinctHasOne(s[1..], key, k);
    }
  }

  /** Sorting elements with different names gives strictly increasing names. */
  lemma SortDistinct<T>(s: seq<T>, key: T -> Bytes)
    requires Distinct(s, key)
    ensures var r := StableSort(s, key); forall i, j :: 0 <= i < j < |r| ==> Less(key(r[i]), key(r[j]))
  {
    var r := StableSort(s, key);
    SortFacts(s, key);
    forall i, j | 0 <= i < j < |r| ensures key(r[i]) != key(r[j]) {
      if key(r[i]) == key(r[j]) {
        WithKeyFinds(r, key, i);
        DistinctHasOne(s, key, key(r[i]));
        assert false;
      }
    }
  }

  // ----- iterating a `BTreeMap` -----

  predicate Ascending(s: seq<Bytes>) {
    forall i, j :: 0 <= i < j < |s| ==> Less(s[i], s[j])
  }

  predicate IsLeast(k: Bytes, s: set<Bytes>) {
    k in s && forall x :: x in s ==> Leq(k, x)
  }

  lemma {:induction false} LeastExists(s: set<Bytes>)
    requires s != {}
    ensures exists k :: IsLeast(k, s)
  {
    var x :| x in s;
    LeqTotal(x, x);
    if s == {x} {
      assert IsLeast(x, s);
    } else {
      LeastExists(s - {x});
      var k :| IsLeast(k, s - {x});
      LeqTotal(x, k);
      if Leq(k, x) {
        assert IsLeast(k, s);
      } else {
        forall y | y in s ensures Leq(x, y) {
          if y != x {
            LeqTransitive(x, k, y);
          }
        }
        assert IsLeast(x, s);
      }
    }
  }

  lemma LeastUnique(s: set<Bytes>)
    ensures forall k, l :: IsLeast(k, s) && IsLeast(l, s) ==> k == l
  {
    forall k, l | IsLeast(k, s) && IsLeast(l, s) ensures k == l {
      LeqAntisymmetric(k, l);
    }
  }

  /** The least key in front of the others, in order, is all the keys in order. */
  lemma LeastFirst(k: Bytes, s: set<Bytes>, rest: seq<Bytes>)
    requires IsLeast(k, s) && Ascending(rest) && |rest| == |s| - 1
    requires forall x :: x in rest <==> x in s && x != k
    ensures Ascending([k] + rest) && |[k] + rest| == |s|
    ensures forall x :: x in [k] + rest <==> x in s
  {
    hide Leq;
    var r := [k] + rest;
    forall i, j | 0 <= i < j < |r| ensures Less(r[i], r[j]) {
      assert r[j] == rest[j - 1] && r[j] in rest;
    }
  }

  /** The keys in the order a `BTreeMap` yields them. */
  function SortedKeys(s: set<Bytes>): (r: seq<Bytes>)
    ensures forall k :: k in r <==> k in s
    ensures Ascending(r)
    ensures |r| == |s|
  {
    if s == {} then []
    else
      LeastExists(s);
      LeastUnique(s);
      var k :| IsLeast(k, s);
      var rest := SortedKeys(s - {k});
      LeastFirst(k, s, rest);
      [k] + rest
  }
}
