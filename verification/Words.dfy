/** Machine words, bytes and little-endian fields, as the Rust code sees them on a 64-bit target. */
module Words {
  const TWO_32: int := 0x1_0000_0000
  const TWO_63: int := 0x8000_0000_0000_0000
  const TWO_64: int := 0x1_0000_0000_0000_0000

  type u8 = x: int | 0 <= x < 0x100
  type u16 = x: int | 0 <= x < 0x1_0000
  type u32 = x: int | 0 <= x < TWO_32
  type u64 = x: int | 0 <= x < TWO_64
  type i64 = x: int | -TWO_63 <= x < TWO_63

  type Bytes = seq<u8>

  /** A Rust slice: never longer than `isize::MAX` bytes. */
  type Slice = s: Bytes | |s| < TWO_63 witness []

  datatype Option<+T> = None | Some(value: T)
  datatype Result<+T, +E> = Ok(value: T) | Err(error: E)

  /** `u64 as i64`. */
  function AsI64(x: u64): (r: i64)
    ensures (r - x) % TWO_64 == 0
  {
    if x < TWO_63 then x else x - TWO_64
  }

  /** `u64::wrapping_add`. */
  function WrappingAdd(x: u64, y: u64): (r: u64)
    ensures (x + y - r) % TWO_64 == 0
  {
    (x + y) % TWO_64
  }

  lemma WrapTwice(x: u64, a: u64, b: u64)
    requires a + b < TWO_64
    ensures WrappingAdd(WrappingAdd(x, a), b) == WrappingAdd(x, a + b)
  {
  }

  /** `u64::saturating_add`. */
  function SaturatingAdd(x: u64, y: u64): u64 {
    if x + y < TWO_64 then x + y else TWO_64 - 1
  }

  function Lookup<K, V>(m: map<K, V>, key: K): Option<V> {
    if key in m then Some(m[key]) else None
  }

  /** What a cursor at `off` still has in front of it; nothing once it is past the end. */
  function Tail(data: Bytes, off: nat): Bytes {
    if off <= |data| then data[off..] else []
  }

  function Pow2(n: nat): (p: nat)
    ensures p > 0
  {
    if n == 0 then 1 else 2 * Pow2(n - 1)
  }

  /** Bitwise OR of two unsigned words. */
  function Or(x: nat, y: nat): nat {
    if x == 0 && y == 0 then 0
    else (if x % 2 == 1 || y % 2 == 1 then 1 else 0) + 2 * Or(x / 2, y / 2)
  }

  /** `(x as u64) << s`: the bits shifted out at the top are lost. */
  function Shl64(x: nat, s: nat): u64 {
    if s == 0 then x % TWO_64 else 2 * Shl64(x, s - 1) % TWO_64
  }

  // ----- windows of the data -----

  predicate At(data: Bytes, off: nat, w: Bytes) {
    off + |w| <= |data| && data[off..off + |w|] == w
  }

  lemma AtSplits(data: Bytes, off: nat, v: Bytes, w: Bytes)
    ensures At(data, off, v + w) <==> At(data, off, v) && At(data, off + |v|, w)
  {
    if At(data, off, v + w) {
      assert data[off..off + |v|] == (v + w)[..|v|] == v;
      assert data[off + |v|..off + |v| + |w|] == (v + w)[|v|..] == w;
    }
    if At(data, off, v) && At(data, off + |v|, w) {
      assert data[off..off + |v + w|] == data[off..off + |v|] + data[off + |v|..off + |v| + |w|];
    }
  }

  lemma AtTail(data: Bytes, off: nat, w: Bytes)
    requires At(data, off, w)
    ensures Tail(data, off) == data[off..] == w + data[off + |w|..]
  {
  }

  lemma SliceOfSlice(s: Bytes, lo: nat, hi: nat, x: nat, y: nat)
    requires lo <= hi <= |s| && x <= y <= hi - lo
    ensures s[lo..hi][x..y] == s[lo + x..lo + y]
  {
    var t := s[lo..hi][x..y];
    forall i | 0 <= i < |t| ensures t[i] == s[lo + x..lo + y][i] {
      assert t[i] == s[lo..hi][x + i];
    }
  }

  lemma TailOfTail(s: Bytes, lo: nat, x: nat)
    requires lo + x <= |s|
    ensures s[lo..][x..] == s[lo + x..]
  {
  }

  lemma SliceOfTail(s: Bytes, lo: nat, x: nat, y: nat)
    requires lo <= |s| && x <= y <= |s| - lo
    ensures s[lo..][x..y] == s[lo + x..lo + y]
  {
    assert s[lo..] == s[lo..|s|];
    SliceOfSlice(s, lo, |s|, x, y);
  }

  // ----- little-endian fields -----

  function U16At(d: Bytes, o: nat): u16
    requires o + 2 <= |d|
  {
    d[o] as int + 0x100 * d[o + 1] as int
  }

  function U32At(d: Bytes, o: nat): u32
    requires o + 4 <= |d|
  {
    U16At(d, o) as int + 0x1_0000 * U16At(d, o + 2) as int
  }

  function U64At(d: Bytes, o: nat): u64
    requires o + 8 <= |d|
  {
    U32At(d, o) as int + TWO_32 * U32At(d, o + 4) as int
  }

  /** The first byte of a field counts least. */
  lemma LittleEndian(d: Bytes, o: nat)
    requires o + 8 <= |d|
    ensures U16At(d, o) == d[o] as int + 0x100 * d[o + 1] as int
    ensures U32At(d, o) == d[o] as int + 0x100 * d[o + 1] as int + 0x1_0000 * d[o + 2] as int + 0x100_0000 * d[o + 3] as int
    ensures U64At(d, o)
         == d[o] as int + 0x100 * d[o + 1] as int + 0x1_0000 * d[o + 2] as int + 0x100_0000 * d[o + 3] as int
            + 0x1_0000_0000 * (d[o + 4] as int + 0x100 * d[o + 5] as int + 0x1_0000 * d[o + 6] as int
                               + 0x100_0000 * d[o + 7] as int)
  {
  }

  function Le16(v: u16): (s: Bytes)
    ensures |s| == 2 && U16At(s, 0) == v
  {
    [v % 0x100, v / 0x100]
  }

  function Le32(v: u32): (s: Bytes)
    ensures |s| == 4 && U32At(s, 0) == v
  {
    Le16(v % 0x1_0000) + Le16(v / 0x1_0000)
  }

  function Le64(v: u64): (s: Bytes)
    ensures |s| == 8 && U64At(s, 0) == v
  {
    Le32(v % TWO_32) + Le32(v / TWO_32)
  }

  /** A field read through a window of the data is the field of that window. */
  lemma FieldInWindow(d: Bytes, o: nat, w: Bytes, k: nat)
    requires At(d, o, w)
    ensures k + 2 <= |w| ==> U16At(d, o + k) == U16At(w, k)
    ensures k + 4 <= |w| ==> U32At(d, o + k) == U32At(w, k)
    ensures k + 8 <= |w| ==> U64At(d, o + k) == U64At(w, k)
  {
    assert forall i {:trigger d[i]} :: o <= i < o + |w| ==> d[i] == w[i - o] by {
      forall i | o <= i < o + |w| ensures d[i] == w[i - o] {
        assert d[i] == d[o..o + |w|][i - o];
      }
    }
  }

  lemma U16InWindow(d: Bytes, o: nat, w: Bytes, k: nat)
    requires At(d, o, w) && k + 2 <= |w|
    ensures U16At(d, o + k) == U16At(w, k)
  {
    FieldInWindow(d, o, w, k);
  }

  lemma U32InWindow(d: Bytes, o: nat, w: Bytes, k: nat)
    requires At(d, o, w) && k + 4 <= |w|
    ensures U32At(d, o + k) == U32At(w, k)
  {
    FieldInWindow(d, o, w, k);
  }

  /** Equal words are equal byte for byte. */
  lemma SameQuarters(a: Bytes, b: Bytes, o: nat)
    requires o + 4 <= |a| && o + 4 <= |b| && U32At(a, o) == U32At(b, o)
    ensures a[o..o + 4] == b[o..o + 4]
  {
    assert U16At(a, o) == U16At(b, o) && U16At(a, o + 2) == U16At(b, o + 2);
  }

  // ----- powers of two -----

  lemma {:induction false} Pow2Add(m: nat, n: nat)
    ensures Pow2(m + n) == Pow2(m) * Pow2(n)
  {
    if m > 0 {
      Pow2Add(m - 1, n);
    }
  }

  lemma {:induction false} Pow2Monotone(m: nat, n: nat)
    requires m <= n
    ensures Pow2(m) <= Pow2(n)
  {
    if m < n {
      Pow2Monotone(m, n - 1);
    }
  }

  lemma Pow2Double(n: nat)
    ensures Pow2(n + 1) == 2 * Pow2(n)
  {
  }

  lemma Pow2Small()
    ensures Pow2(2) == 4 && Pow2(4) == 0x10 && Pow2(6) == 0x40 && Pow2(8) == 0x100
  {
    assert Pow2(2) == 4;
    Pow2Add(2, 2);
    Pow2Add(4, 2);
    Pow2Add(4, 4);
  }

  lemma Pow2Is64()
    ensures Pow2(63) == TWO_63 && Pow2(64) == TWO_64
  {
    hide Pow2;
    Pow2Small();
    Pow2Double(63);
    Pow2Add(8, 8);
    Pow2Add(16, 16);
    Pow2Add(32, 32);
  }

  lemma MulMonotone(a: nat, b: nat, c: nat)
    requires a <= b
    ensures a * c <= b * c
  {
  }

  lemma MulSwap(a: nat, b: nat, c: nat)
    ensures a * (b * c) == b * (a * c)
  {
  }

  lemma MulDivMod(q: nat, m: nat)
    requires m > 0
    ensures (q * m) % m == 0 && (q * m) / m == q
  {
    ModUnique(q * m, q, m, 0);
  }

  lemma {:induction false} ModUnique(x: nat, q: nat, m: nat, r: nat)
    requires x == q * m + r && r < m
    ensures x % m == r && x / m == q
  {
    var d := x / m - q;
    assert m * d + x % m == r by {
      assert x == (x / m) * m + x % m;
      assert (x / m) * m == d * m + q * m;
    }
    if d >= 1 {
      assert false;
    } else if d <= -1 {
      assert false;
    }
  }

  /** OR-ing words that share no bit adds them. */
  lemma {:induction false} OrDisjoint(x: nat, y: nat, s: nat)
    requires x < Pow2(s) && y % Pow2(s) == 0
    ensures Or(x, y) == x + y
    decreases s
  {
    if s == 0 {
      OrZero(y);
    } else {
      var h := Pow2(s - 1);
      var q := y / Pow2(s);
      assert y == q * Pow2(s) == 2 * (q * h);
      assert y / 2 == q * h && y % 2 == 0;
      MulDivMod(q, h);
      OrDisjoint(x / 2, y / 2, s - 1);
    }
  }

  lemma {:induction false} OrZero(y: nat)
    ensures Or(0, y) == y
  {
    if y > 0 {
      OrZero(y / 2);
    }
  }

  lemma {:induction false} Shl64Product(x: nat, s: nat)
    ensures Shl64(x, s) == x * Pow2(s) % TWO_64
  {
    if s > 0 {
      Shl64Product(x, s - 1);
      Pow2Double(s - 1);
      ShiftOnce(x, Pow2(s - 1));
    }
  }

  lemma ShiftOnce(x: nat, p: nat)
    ensures 2 * (x * p % TWO_64) % TWO_64 == x * (2 * p) % TWO_64
  {
    DoubleMod(x * p);
    assert x * (2 * p) == 2 * (x * p);
  }

  lemma DoubleMod(a: nat)
    ensures 2 * (a % TWO_64) % TWO_64 == 2 * a % TWO_64
  {
    var q, r := a / TWO_64, a % TWO_64;
    assert 2 * a == 2 * q * TWO_64 + 2 * r;
    if r < TWO_63 {
      ModUnique(2 * a, 2 * q, TWO_64, 2 * r);
    } else {
      ModUnique(2 * a, 2 * q + 1, TWO_64, 2 * r - TWO_64);
      ModUnique(2 * r, 1, TWO_64, 2 * r - TWO_64);
    }
  }

  /** Shifting left leaves a multiple of the power, with only the low bits of `x` surviving. */
  lemma Shl64Value(x: nat, s: nat)
    requires s <= 64
    ensures Shl64(x, s) == (x % Pow2(64 - s)) * Pow2(s)
    ensures Shl64(x, s) % Pow2(s) == 0
  {
    Shl64Product(x, s);
    Pow2Add(64 - s, s);
    Pow2Is64();
    ScaleMod(x, Pow2(64 - s), Pow2(s));
    MulDivMod(x % Pow2(64 - s), Pow2(s));
  }

  lemma ScaleMod(x: nat, m: nat, p: nat)
    requires m > 0 && p > 0
    ensures m * p > 0 && (x * p) % (m * p) == (x % m) * p
  {
    var q, r := x / m, x % m;
    assert x * p == q * (m * p) + r * p by {
      assert x == q * m + r;
      assert (q * m + r) * p == (q * m) * p + r * p;
      assert (q * m) * p == q * (m * p);
    }
    ScaleBelow(r, m, p);
    ModUnique(x * p, q, m * p, r * p);
  }

  lemma AddScaleMod(x: nat, g: nat, m: nat, p: nat)
    requires m > 0 && x < p
    ensures m * p > 0 && x + (g % m) * p < m * p
    ensures (x + g * p) % (m * p) == x + (g % m) * p
  {
    ScaleMod(g, m, p);
    ScaleBelow(g % m, m, p);
    var n, r := m * p, (g % m) * p;
    var q := (g * p) / n;
    assert g * p == q * n + r;
    ModUnique(x + g * p, q, n, x + r);
  }

  lemma ScaleBelow(r: nat, m: nat, p: nat)
    requires r < m
    ensures r * p + p <= m * p
  {
    MulMonotone(r + 1, m, p);
    assert (r + 1) * p == r * p + p;
  }

  /** OR-ing a shifted group above an accumulator adds it, modulo 2^64. */
  lemma OrShifted(x: nat, g: nat, w: nat)
    requires x < Pow2(w) && w < 64
    ensures x < TWO_64
    ensures Or(x, Shl64(g, w)) == (x + g * Pow2(w)) % TWO_64
  {
    Pow2Is64();
    Pow2Monotone(w, 64);
    Shl64Value(g, w);
    OrDisjoint(x, Shl64(g, w), w);
    Pow2Add(64 - w, w);
    AddScaleMod(x, g, Pow2(64 - w), Pow2(w));
  }
}
