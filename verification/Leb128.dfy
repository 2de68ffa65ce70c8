/** The three LEB128 readers of `macho_core` (DWARF 5, section 7.6) and what they decode. */
module Leb128 {
  import opened Words
  import opened MachoError

  // ----- what a LEB128 number means -----

  /** How many bytes with the continuation bit set lead `s`. */
  function Run(s: Bytes): (n: nat)
    ensures n <= |s|
    ensures forall i :: 0 <= i < n ==> s[i] >= 0x80
    ensures n < |s| ==> s[n] < 0x80
  {
    if s != [] && s[0] >= 0x80 then 1 + Run(s[1..]) else 0
  }

  /** The number spelled by the low seven bits of every byte, least significant group first. */
  function Sum7(s: Bytes): nat {
    if s == [] then 0 else s[0] % 0x80 + 0x80 * Sum7(s[1..])
  }

  /** The same number with the last group read as a signed seven-bit value. */
  function SignedSum7(s: Bytes): int {
    if s == [] then 0
    else if |s| == 1 then (if s[0] % 0x80 < 0x40 then s[0] % 0x80 else s[0] % 0x80 - 0x80)
    else s[0] % 0x80 + 0x80 * SignedSum7(s[1..])
  }

  datatype Decoded<+T> = Decoded(value: T, len: nat)

  /** A LEB128 number is its bytes up to the first one without a continuation bit, ten at most. */
  function DecodeUleb(s: Bytes): (r: Result<Decoded<u64>, Error>)
    ensures r.Ok? ==> 1 <= r.value.len <= 10 && r.value.len <= |s|
  {
    var n := Run(s);
    if n >= 10 then Err(Truncated("uleb128 overflow"))
    else if n == |s| then Err(Truncated("uleb128"))
    else Ok(Decoded(Sum7(s[..n + 1]) % TWO_64, n + 1))
  }

  function DecodeSleb(s: Bytes): (r: Result<Decoded<i64>, Error>)
    ensures r.Ok? ==> 1 <= r.value.len <= 10 && r.value.len <= |s|
  {
    var n := Run(s);
    if n >= 10 then Err(Truncated("sleb128 overflow"))
    else if n == |s| then Err(Truncated("sleb128"))
    else Ok(Decoded(AsI64(SignedSum7(s[..n + 1]) % TWO_64), n + 1))
  }

  // ----- canonical encoders -----

  function EncodeUleb(v: nat): (s: Bytes)
    ensures s != []
  {
    if v < 0x80 then [v] else [v % 0x80 + 0x80] + EncodeUleb(v / 0x80)
  }

  function EncodeSleb(v: int): (s: Bytes)
    ensures s != []
    decreases if v < 0 then -v else v
  {
    if -0x40 <= v < 0x40 then [v % 0x80] else [v % 0x80 + 0x80] + EncodeSleb(v / 0x80)
  }

  // ----- lemmas about groups of seven bits -----

  lemma {:induction false} RunSplits(s: Bytes, k: nat)
    requires k <= |s|
    requires forall i :: 0 <= i < k ==> s[i] >= 0x80
    ensures Run(s) == k + Run(s[k..])
  {
    if k == 0 {
      assert s[0..] == s;
    } else {
      RunSplits(s[1..], k - 1);
      assert s[1..][k - 1..] == s[k..];
    }
  }

  lemma Pow2Seven(n: nat)
    ensures Pow2(7 * (n + 1)) == 0x80 * Pow2(7 * n)
  {
    Pow2Add(7, 7 * n);
    assert Pow2(7) == 0x80;
  }

  lemma {:induction false} Sum7Append(s: Bytes, b: u8)
    ensures Sum7(s + [b]) == Sum7(s) + (b % 0x80) * Pow2(7 * |s|)
    ensures Sum7(s) < Pow2(7 * |s|)
  {
    if s == [] {
      assert s + [b] == [b];
      assert [b][1..] == [];
    } else {
      var t := s[1..];
      Sum7Append(t, b);
      assert (s + [b])[1..] == t + [b];
      Pow2Seven(|t|);
      MulSwap(0x80, b % 0x80, Pow2(7 * |t|));
    }
  }

  lemma Sum7Fits(s: Bytes)
    requires |s| <= 9
    ensures Sum7(s) < TWO_64 && Sum7(s) % TWO_64 == Sum7(s)
  {
    Sum7Append(s, 0);
    Pow2Is64();
    Pow2Monotone(7 * |s|, 64);
  }

  /** ORing in group `k` extends the sum by it, modulo 2^64. */
  lemma OrGroup(s: Bytes, k: nat)
    requires k < |s| && k <= 9
    ensures Sum7(s[..k]) < TWO_64
    ensures Or(Sum7(s[..k]), Shl64(s[k] % 0x80, 7 * k)) == Sum7(s[..k + 1]) % TWO_64
    ensures k < 9 ==> Or(Sum7(s[..k]), Shl64(s[k] % 0x80, 7 * k)) == Sum7(s[..k + 1]) < TWO_64
  {
    Sum7Append(s[..k], s[k]);
    OrShifted(Sum7(s[..k]), s[k] % 0x80, 7 * k);
    assert s[..k + 1] == s[..k] + [s[k]];
    if k < 9 {
      Sum7Fits(s[..k + 1]);
    }
  }

  /** The signed reading drops 2^(7n) when bit 6 of the last group is set. */
  lemma {:induction false} SignedSum7Value(s: Bytes)
    requires s != []
    ensures SignedSum7(s) == Sum7(s) - (if s[|s| - 1] % 0x80 < 0x40 then 0 else Pow2(7 * |s|))
  {
    Pow2Seven(|s| - 1);
    if |s| > 1 {
      SignedSum7Value(s[1..]);
    } else {
      assert s[1..] == [];
    }
  }

  /** The three ways a number at the front of `s` can end, seen from the byte at `k`. */
  lemma NumberEnds(s: Bytes, k: nat)
    requires k <= Run(s) && k <= 9
    ensures k == |s| ==> DecodeUleb(s) == Err(Truncated("uleb128"))
    ensures k == |s| ==> DecodeSleb(s) == Err(Truncated("sleb128"))
    ensures k < |s| && s[k] >= 0x80 ==> k < Run(s)
    ensures k < |s| && s[k] < 0x80 ==> DecodeUleb(s) == Ok(Decoded(Sum7(s[..k + 1]) % TWO_64, k + 1))
    ensures k < |s| && s[k] < 0x80 ==> DecodeSleb(s) == Ok(Decoded(AsI64(SignedSum7(s[..k + 1]) % TWO_64), k + 1))
    ensures k < |s| && s[k] >= 0x80 && k == 9 ==> DecodeUleb(s) == Err(Truncated("uleb128 overflow"))
    ensures k < |s| && s[k] >= 0x80 && k == 9 ==> DecodeSleb(s) == Err(Truncated("sleb128 overflow"))
  {
    hide Run, Sum7, SignedSum7, AsI64;
  }

  lemma NoGroups(s: Bytes)
    ensures Sum7(s[..0]) == 0
  {
  }

  // ----- the readers -----

  /** dyld.rs `read_uleb128`: `next` is where `*off` ends up. */
  method ReadUleb128(data: Bytes, off: nat) returns (r: Result<u64, Error>, next: nat)
    ensures match DecodeUleb(Tail(data, off))
            case Ok(d) => r == Ok(d.value) && next == off + d.len <= |data|
            case Err(e) => r == Err(e)
  {
    hide Sum7, Or, Shl64, Run;
    var result: u64, shift := 0, 0;
    next := off;
    ghost var s := Tail(data, off);
    NoGroups(s);
    while true
      invariant off <= next && (next == off || next <= |data|)
      invariant shift == 7 * (next - off) <= 63
      invariant next - off <= Run(s)
      invariant result == Sum7(s[..next - off])
      decreases 64 - shift
    {
      ghost var k := next - off;
      if next >= |data| {
        NumberEnds(s, k);
        return Err(Truncated("uleb128")), next;
      }
      var b := data[next];
      assert b == s[k];
      next := next + 1;
      OrGroup(s, k);
      NumberEnds(s, k);
      result := Or(result, Shl64(b % 0x80, shift));
      if b < 0x80 {
        break;
      }
      shift := shift + 7;
      if shift > 63 {
        return Err(Truncated("uleb128 overflow")), next;
      }
    }
    r := Ok(result);
  }

  /** dyld.rs `read_sleb128`; `result` holds the bit pattern of the `i64`. */
  method ReadSleb128(data: Bytes, off: nat) returns (r: Result<i64, Error>, next: nat)
    ensures match DecodeSleb(Tail(data, off))
            case Ok(d) => r == Ok(d.value) && next == off + d.len <= |data|
            case Err(e) => r == Err(e)
  {
    hide Sum7, SignedSum7, Or, Shl64, Run, AsI64;
    var result: u64, shift, b: u8 := 0, 0, 0;
    next := off;
    ghost var s := Tail(data, off);
    NoGroups(s);
    while true
      invariant off <= next && (next == off || next <= |data|)
      invariant shift == 7 * (next - off) <= 63
      invariant next - off <= Run(s)
      invariant result == Sum7(s[..next - off])
      decreases 64 - shift
    {
      ghost var k := next - off;
      if next >= |data| {
        NumberEnds(s, k);
        return Err(Truncated("sleb128")), next;
      }
      b := data[next];
      assert b == s[k];
      next := next + 1;
      OrGroup(s, k);
      NumberEnds(s, k);
      result := Or(result, Shl64(b % 0x80, shift));
      shift := shift + 7;
      if b < 0x80 {
        break;
      }
      if shift > 63 {
        return Err(Truncated("sleb128 overflow")), next;
      }
    }
    SignExtends(s[..next - off]);
    if shift < 64 && b % 0x80 >= 0x40 {
      result := Or(result, Shl64(TWO_64 - 1, shift));
    }
    r := Ok(AsI64(result));
  }

  /** The bit pattern `u` once its sign has been copied into the bits from `shift` up. */
  function FillSign(u: u64, shift: nat, negative: bool): nat {
    if shift < 64 && negative then Or(u, Shl64(TWO_64 - 1, shift)) else u
  }

  /** Filling the bits above the last group gives the signed sum; ten groups already fill the word. */
  lemma SignExtends(s: Bytes)
    requires 1 <= |s| <= 10
    ensures SignedSum7(s) % TWO_64 == FillSign(Sum7(s) % TWO_64, 7 * |s|, s[|s| - 1] % 0x80 >= 0x40)
  {
    var w := 7 * |s|;
    SignedSum7Value(s);
    if s[|s| - 1] % 0x80 >= 0x40 {
      if w < 64 {
        Sum7Append(s, 0);
        FillAbove(Sum7(s), w);
      } else {
        Pow2Is70();
        SameRemainder(SignedSum7(s), 64, TWO_64);
      }
    } else if w < 64 {
      Sum7Fits(s);
    }
  }

  lemma Pow2Is70()
    ensures Pow2(70) == 64 * TWO_64
  {
    Pow2Is64();
    Pow2Small();
    Pow2Add(64, 6);
  }

  lemma FillAbove(x: nat, w: nat)
    requires x < Pow2(w) && w < 64
    ensures x < TWO_64 && x % TWO_64 == x
    ensures Or(x, Shl64(TWO_64 - 1, w)) == (x - Pow2(w)) % TWO_64
  {
    OrShifted(x, TWO_64 - 1, w);
    assert x + (TWO_64 - 1) * Pow2(w) == (x - Pow2(w)) + Pow2(w) * TWO_64;
    SameRemainder(x - Pow2(w), Pow2(w), TWO_64);
  }

  lemma SameRemainder(x: int, q: nat, m: nat)
    requires m > 0
    ensures (x + q * m) % m == x % m
  {
    var k := (x + q * m) / m - x / m - q;
    assert k * m + (x + q * m) % m == x % m;
    if k != 0 {
      assert false;
    }
  }

  /** What the other decoder makes of a slice: the same numbers, but it names one failure differently. */
  function DecodeUlebSlice(s: Bytes): (r: Result<Decoded<u64>, Error>)
    ensures r.Ok? <==> DecodeUleb(s).Ok?
    ensures r.Ok? ==> r == DecodeUleb(s)
    ensures r.Err? ==> (r == DecodeUleb(s) <==> !(|s| == 10 && Run(s) == 10))
  {
    if DecodeUleb(s).Ok? then DecodeUleb(s)
    else Err(Truncated(if Run(s) <= 10 && Run(s) == |s| then "uleb128" else "uleb128 overflow"))
  }

  /** file.rs `read_uleb128`: the decoder over a slice, returning how much it used. */
  method ReadUlebSlice(data: Bytes) returns (r: Result<Decoded<u64>, Error>)
    ensures r == DecodeUlebSlice(data)
  {
    hide Sum7, Or, Shl64, Run;
    var result: u64, shift := 0, 0;
    NoGroups(data);
    for i := 0 to |data|
      invariant shift == 7 * i && i <= 10
      invariant i <= Run(data)
      invariant i <= 9 ==> result == Sum7(data[..i])
    {
      if shift >= 64 {
        return Err(Truncated("uleb128 overflow"));
      }
      var b := data[i];
      OrGroup(data, i);
      NumberEnds(data, i);
      result := Or(result, Shl64(b % 0x80, shift));
      if b < 0x80 {
        return Ok(Decoded(result, i + 1));
      }
      shift := shift + 7;
    }
    return Err(Truncated("uleb128"));
  }

  // ----- round trips -----

  lemma RunStep(b: u8, s: Bytes)
    ensures Run([b] + s) == if b >= 0x80 then 1 + Run(s) else 0
  {
    assert ([b] + s)[1..] == s;
  }

  lemma {:induction false} EncodeUlebRun(v: nat, tail: Bytes)
    ensures Run(EncodeUleb(v) + tail) == |EncodeUleb(v)| - 1
  {
    hide Run;
    if v < 0x80 {
      RunStep(v, tail);
    } else {
      EncodeUlebRun(v / 0x80, tail);
      RunStep(v % 0x80 + 0x80, EncodeUleb(v / 0x80) + tail);
      assert EncodeUleb(v) + tail == [v % 0x80 + 0x80] + (EncodeUleb(v / 0x80) + tail);
    }
  }

  lemma GroupOf(v: int)
    ensures (v % 0x80 + 0x80) % 0x80 == v % 0x80 && v == v % 0x80 + 0x80 * (v / 0x80)
  {
  }

  lemma {:induction false} EncodeUlebSum(v: nat)
    ensures Sum7(EncodeUleb(v)) == v
  {
    GroupOf(v);
    if v < 0x80 {
      assert [v][1..] == [];
    } else {
      EncodeUlebSum(v / 0x80);
      assert EncodeUleb(v)[1..] == EncodeUleb(v / 0x80);
    }
  }

  lemma {:induction false} EncodeUlebLength(v: nat, n: nat)
    requires v < Pow2(7 * n) && n > 0
    ensures |EncodeUleb(v)| <= n
  {
    if v >= 0x80 {
      Pow2Seven(n - 1);
      EncodeUlebLength(v / 0x80, n - 1);
    }
  }

  lemma AsI64Of(v: i64)
    ensures AsI64(v % TWO_64) == v
  {
  }

  /** Ten groups hold every 64-bit number. */
  lemma TenGroups()
    ensures TWO_64 <= Pow2(7 * 10)
  {
    Pow2Is64();
    Pow2Monotone(64, 70);
  }

  /** Decoding inverts the canonical encoding of every `u64` and stops right behind it. */
  lemma UlebRoundTrip(v: u64, tail: Bytes)
    ensures DecodeUleb(EncodeUleb(v) + tail) == Ok(Decoded(v, |EncodeUleb(v)|))
    ensures |EncodeUleb(v)| <= 10
  {
    hide EncodeUleb, Sum7, Run, Pow2;
    var s := EncodeUleb(v);
    EncodeUlebRun(v, tail);
    EncodeUlebSum(v);
    TenGroups();
    EncodeUlebLength(v, 10);
    assert (s + tail)[..|s|] == s;
  }

  lemma {:induction false} EncodeSlebRun(v: int, tail: Bytes)
    ensures Run(EncodeSleb(v) + tail) == |EncodeSleb(v)| - 1
    decreases if v < 0 then -v else v
  {
    hide Run;
    if -0x40 <= v < 0x40 {
      RunStep(v % 0x80, tail);
    } else {
      EncodeSlebRun(v / 0x80, tail);
      RunStep(v % 0x80 + 0x80, EncodeSleb(v / 0x80) + tail);
      assert EncodeSleb(v) + tail == [v % 0x80 + 0x80] + (EncodeSleb(v / 0x80) + tail);
    }
  }

  lemma {:induction false} EncodeSlebSum(v: int)
    ensures SignedSum7(EncodeSleb(v)) == v
    decreases if v < 0 then -v else v
  {
    GroupOf(v);
    if !(-0x40 <= v < 0x40) {
      EncodeSlebSum(v / 0x80);
      assert EncodeSleb(v)[1..] == EncodeSleb(v / 0x80);
    }
  }

  lemma {:induction false} EncodeSlebLength(v: int, n: nat)
    requires -(Pow2(7 * n) as int) <= 2 * v < Pow2(7 * n) && n > 0
    ensures |EncodeSleb(v)| <= n
    decreases n
  {
    Pow2Seven(n - 1);
    if !(-0x40 <= v < 0x40) {
      if n > 1 {
        assert Pow2(7 * (n - 1)) == 2 * Pow2(7 * (n - 1) - 1);
        EncodeSlebLength(v / 0x80, n - 1);
      }
    }
  }

  /** The same for every `i64`, both ten-byte extremes included. */
  lemma SlebRoundTrip(v: i64, tail: Bytes)
    ensures DecodeSleb(EncodeSleb(v) + tail) == Ok(Decoded(v, |EncodeSleb(v)|))
    ensures |EncodeSleb(v)| <= 10
  {
    hide EncodeSleb, SignedSum7, Run, Pow2, AsI64;
    AsI64Of(v);
    var s := EncodeSleb(v);
    EncodeSlebRun(v, tail);
    EncodeSlebSum(v);
    TenGroups();
    EncodeSlebLength(v, 10);
    assert (s + tail)[..|s|] == s;
  }

  /** What decoding reads, it reads from its own bytes: later bytes never matter. */
  lemma DecodeUlebLocal(s: Bytes, tail: Bytes)
    requires DecodeUleb(s).Ok?
    ensures 1 <= DecodeUleb(s).value.len <= 10 && DecodeUleb(s).value.len <= |s|
    ensures DecodeUleb(s + tail) == DecodeUleb(s)
  {
    var n := Run(s);
    RunSplits(s + tail, n);
    assert (s + tail)[n..][0] == s[n];
    assert (s + tail)[..n + 1] == s[..n + 1];
  }
}
