/** zip_write.rs `crc32`: the bitwise CRC of section 4.4.7 of PKWARE APPNOTE and section 8 of RFC 1952. */
module Crc32 {
  const ZERO: bv32 := 0
  const ONES: bv32 := 0xffff_ffff

  type Octets = seq<bv8>

  function Xor(a: bv32, b: bv32): bv32 { a ^ b }

  function Half(crc: bv32): bv32 { crc >> 1 }

  function LowBit(crc: bv32): bv32 { crc & 1 }

  /** The polynomial under a mask that is all ones for bit 1 and 0 for bit 0. */
  function Feedback(bit: bv32): bv32 { 0xedb8_8320 & (!bit + 1) }

  /** One bit through the shift register. */
  function Shift(crc: bv32): bv32 {
    Xor(Half(crc), Feedback(LowBit(crc)))
  }

  function Shifts(crc: bv32, n: nat): bv32
    decreases n
  {
    if n == 0 then crc else Shifts(Shift(crc), n - 1)
  }

  function Widen(b: bv8): bv32 { b as bv32 }

  /** The register after a string, least significant bit of each byte first. */
  function Register(crc: bv32, data: Octets): bv32
    decreases |data|
  {
    if data == [] then crc else Register(Shifts(Xor(crc, Widen(data[0])), 8), data[1..])
  }

  function Complement(crc: bv32): bv32 { !crc }

  function Crc(data: Octets): bv32 {
    Complement(Register(ONES, data))
  }

  method Crc32(data: Octets) returns (r: bv32)
    ensures r == Crc(data)
  {
    hide Xor, Half, LowBit, Feedback, Shift, Complement, Widen;
    var crc := ONES;
    assert data[0..] == data;
    for i := 0 to |data|
      invariant Register(crc, data[i..]) == Register(ONES, data)
    {
      crc := Xor(crc, Widen(data[i]));
      ghost var fed := crc;
      for j := 0 to 8
        invariant Shifts(crc, 8 - j) == Shifts(fed, 8)
      {
        ShiftIs(crc);
        crc := Xor(Half(crc), Feedback(LowBit(crc)));
      }
      assert data[i..][1..] == data[i + 1..];
    }
    r := Complement(crc);
  }

  lemma ShiftIs(crc: bv32)
    ensures Shift(crc) == Xor(Half(crc), Feedback(LowBit(crc)))
  {
  }

  // ----- exclusive or -----

  lemma XorAssociates(a: bv32, b: bv32, c: bv32)
    ensures Xor(Xor(a, b), c) == Xor(a, Xor(b, c))
  {
  }

  lemma XorCommutes(a: bv32, b: bv32)
    ensures Xor(a, b) == Xor(b, a)
  {
  }

  lemma XorZero(a: bv32)
    ensures Xor(a, ZERO) == a && Xor(ZERO, a) == a && Xor(a, a) == ZERO
  {
  }

  lemma XorSwap(a: bv32, b: bv32, c: bv32, d: bv32)
    ensures Xor(Xor(a, b), Xor(c, d)) == Xor(Xor(a, c), Xor(b, d))
  {
    hide Xor;
    XorAssociates(a, b, Xor(c, d));
    XorAssociates(b, c, d);
    XorCommutes(b, c);
    XorAssociates(c, b, d);
    XorAssociates(a, c, Xor(b, d));
  }

  lemma HalfLinear(a: bv32, b: bv32)
    ensures Half(Xor(a, b)) == Xor(Half(a), Half(b))
  {
  }

  lemma LowBitLinear(a: bv32, b: bv32)
    ensures LowBit(a) == 0 || LowBit(a) == 1
    ensures LowBit(Xor(a, b)) == Xor(LowBit(a), LowBit(b))
  {
  }

  lemma FeedbackLinear(x: bv32, y: bv32)
    requires x <= 1 && y <= 1
    ensures Feedback(Xor(x, y)) == Xor(Feedback(x), Feedback(y))
  {
  }

  // ----- the register is linear and loses nothing -----

  lemma ShiftLinear(a: bv32, b: bv32)
    ensures Shift(Xor(a, b)) == Xor(Shift(a), Shift(b))
  {
    hide Xor, Half, LowBit, Feedback;
    HalfLinear(a, b);
    LowBitLinear(a, b);
    LowBitLinear(b, a);
    FeedbackLinear(LowBit(a), LowBit(b));
    XorSwap(Half(a), Half(b), Feedback(LowBit(a)), Feedback(LowBit(b)));
  }

  /** Only 0 shifts to 0: bit 31 of the result is the bit shifted out. */
  lemma ShiftKeepsNonzero(a: bv32)
    ensures Shift(a) == ZERO <==> a == ZERO
  {
  }

  lemma {:induction false} ShiftsLinear(a: bv32, b: bv32, n: nat)
    ensures Shifts(Xor(a, b), n) == Xor(Shifts(a, n), Shifts(b, n))
    decreases n
  {
    hide Xor, Shift;
    if n > 0 {
      ShiftLinear(a, b);
      ShiftsLinear(Shift(a), Shift(b), n - 1);
    }
  }

  lemma {:induction false} ShiftsKeepNonzero(a: bv32, n: nat)
    ensures Shifts(a, n) == ZERO <==> a == ZERO
    decreases n
  {
    hide Shift;
    if n > 0 {
      ShiftsKeepNonzero(Shift(a), n - 1);
      ShiftKeepsNonzero(a);
    }
  }

  // ----- the CRC as a function of the message bits -----

  /** The low `n` bits of a word, least significant first, and what is left above them. */
  function Bits(w: bv32, n: nat): (bits: seq<bool>)
    ensures |bits| == n
    decreases n
  {
    if n == 0 then [] else [LowBit(w) == 1] + Bits(Half(w), n - 1)
  }

  function Above(w: bv32, n: nat): bv32
    decreases n
  {
    if n == 0 then w else Above(Half(w), n - 1)
  }

  function MessageBits(data: Octets): (bits: seq<bool>)
    ensures |bits| == 8 * |data|
  {
    if data == [] then [] else Bits(Widen(data[0]), 8) + MessageBits(data[1..])
  }

  function BitWord(b: bool): bv32 { if b then 1 else 0 }

  /** The serial definition: each message bit enters at the low end just before a shift. */
  function Feed(crc: bv32, bits: seq<bool>): bv32
    decreases |bits|
  {
    if bits == [] then crc else Feed(Shift(Xor(crc, BitWord(bits[0]))), bits[1..])
  }

  lemma HalfOfBit(b: bool)
    ensures Half(BitWord(b)) == ZERO && LowBit(BitWord(b)) == BitWord(b)
  {
  }

  lemma BitOfWord(w: bv32)
    ensures LowBit(w) == BitWord(LowBit(w) == 1)
  {
    LowBitLinear(w, w);
  }

  /** A whole word XORed in before a shift is its low bit entering now and the rest one step later. */
  lemma OneBitEnters(crc: bv32, w: bv32)
    ensures Shift(Xor(crc, w)) == Xor(Shift(Xor(crc, LowBit(w))), Half(w))
  {
    hide Xor, Half, LowBit, Feedback, BitWord;
    var b := LowBit(w) == 1;
    BitOfWord(w);
    HalfOfBit(b);
    ShiftIs(Xor(crc, w));
    ShiftIs(Xor(crc, BitWord(b)));
    HalfLinear(crc, w);
    HalfLinear(crc, BitWord(b));
    LowBitLinear(crc, w);
    LowBitLinear(crc, BitWord(b));
    XorZero(Half(crc));
    var f := Feedback(Xor(LowBit(crc), BitWord(b)));
    XorAssociates(Half(crc), Half(w), f);
    XorCommutes(Half(w), f);
    XorAssociates(Half(crc), f, Half(w));
  }

  lemma {:induction false} WordEnters(crc: bv32, w: bv32, n: nat)
    ensures Shifts(Xor(crc, w), n) == Xor(Feed(crc, Bits(w, n)), Above(w, n))
    decreases n
  {
    hide Xor, Half, LowBit, Shift, BitWord;
    if n > 0 {
      OneBitEnters(crc, w);
      BitOfWord(w);
      var bits := Bits(w, n);
      assert bits[1..] == Bits(Half(w), n - 1);
      WordEnters(Shift(Xor(crc, LowBit(w))), Half(w), n - 1);
    }
  }

  lemma {:induction false} AboveAbove(w: bv32, m: nat, n: nat)
    ensures Above(Above(w, m), n) == Above(w, m + n)
    decreases m
  {
    hide Half;
    if m > 0 {
      AboveAbove(Half(w), m - 1, n);
    }
  }

  lemma FourHalves(w: bv32)
    ensures Half(Half(Half(Half(w)))) == w >> 4
  {
  }

  lemma Above4(w: bv32)
    ensures Above(w, 4) == w >> 4
  {
    hide Half;
    FourHalves(w);
    assert Above(w, 4) == Above(Half(w), 3) == Above(Half(Half(w)), 2) == Above(Half(Half(Half(w))), 1);
  }

  lemma Shift44(w: bv32)
    ensures w >> 4 >> 4 == w >> 8
  {
  }

  lemma ByteFits(b: bv8)
    ensures Widen(b) >> 8 == ZERO
  {
  }

  lemma ByteHasNothingAbove(b: bv8)
    ensures Above(Widen(b), 8) == ZERO
  {
    hide Widen, Above;
    var w := Widen(b);
    AboveAbove(w, 4, 4);
    Above4(w);
    Above4(w >> 4);
    Shift44(w);
    ByteFits(b);
  }

  lemma {:induction false} FeedConcat(crc: bv32, x: seq<bool>, y: seq<bool>)
    ensures Feed(crc, x + y) == Feed(Feed(crc, x), y)
    decreases |x|
  {
    hide Xor, Shift, BitWord;
    if x == [] {
      assert x + y == y;
    } else {
      assert (x + y)[1..] == x[1..] + y;
      FeedConcat(Shift(Xor(crc, BitWord(x[0]))), x[1..], y);
    }
  }

  /** The byte-at-a-time register is the bit-serial one. */
  lemma {:induction false} RegisterIsSerial(crc: bv32, data: Octets)
    ensures Register(crc, data) == Feed(crc, MessageBits(data))
    decreases |data|
  {
    hide Xor, Shift, BitWord, Shifts, Widen, Bits, Above;
    if data != [] {
      var w := Widen(data[0]);
      WordEnters(crc, w, 8);
      ByteHasNothingAbove(data[0]);
      XorZero(Feed(crc, Bits(w, 8)));
      RegisterIsSerial(Shifts(Xor(crc, w), 8), data[1..]);
      FeedConcat(crc, Bits(w, 8), MessageBits(data[1..]));
    }
  }

  // ----- linearity over whole messages -----

  function Diff(x: seq<bool>, y: seq<bool>): (d: seq<bool>)
    requires |x| == |y|
    ensures |d| == |x|
  {
    seq(|x|, i requires 0 <= i < |x| => x[i] != y[i])
  }

  lemma BitWordLinear(p: bool, q: bool)
    ensures Xor(BitWord(p), BitWord(q)) == BitWord(p != q)
  {
  }

  /** Feeding two messages and comparing is feeding their difference. */
  lemma {:induction false} FeedLinear(a: bv32, b: bv32, x: seq<bool>, y: seq<bool>)
    requires |x| == |y|
    ensures Xor(Feed(a, x), Feed(b, y)) == Feed(Xor(a, b), Diff(x, y))
    decreases |x|
  {
    hide Xor, Shift, BitWord;
    if x != [] {
      var p, q := BitWord(x[0]), BitWord(y[0]);
      ShiftLinear(Xor(a, p), Xor(b, q));
      XorSwap(a, p, b, q);
      BitWordLinear(x[0], y[0]);
      assert Diff(x, y)[1..] == Diff(x[1..], y[1..]);
      FeedLinear(Shift(Xor(a, p)), Shift(Xor(b, q)), x[1..], y[1..]);
    }
  }

  function XorOctets(a: Octets, b: Octets): (r: Octets)
    requires |a| == |b|
    ensures |r| == |a|
  {
    if a == [] then [] else [a[0] ^ b[0]] + XorOctets(a[1..], b[1..])
  }

  lemma WidenLinear(a: bv8, b: bv8)
    ensures Widen(a ^ b) == Xor(Widen(a), Widen(b))
  {
  }

  lemma {:induction false} RegisterLinear(u: bv32, v: bv32, a: Octets, b: Octets)
    requires |a| == |b|
    ensures Xor(Register(u, a), Register(v, b)) == Register(Xor(u, v), XorOctets(a, b))
    decreases |a|
  {
    hide Xor, Widen, Shifts;
    if a != [] {
      var p, q := Widen(a[0]), Widen(b[0]);
      WidenLinear(a[0], b[0]);
      ShiftsLinear(Xor(u, p), Xor(v, q), 8);
      XorSwap(u, p, v, q);
      RegisterLinear(Shifts(Xor(u, p), 8), Shifts(Xor(v, q), 8), a[1..], b[1..]);
    }
  }

  lemma ComplementIs(a: bv32)
    ensures Complement(a) == Xor(a, ONES)
  {
  }

  /** `crc32(a) ^ crc32(b) ^ crc32(c) == crc32(a ^ b ^ c)` for messages of one length. */
  lemma CrcAffine(a: Octets, b: Octets, c: Octets)
    requires |a| == |b| == |c|
    ensures Xor(Xor(Crc(a), Crc(b)), Crc(c)) == Crc(XorOctets(XorOctets(a, b), c))
  {
    hide Xor, Register, XorOctets, Complement;
    var ra, rb, rc := Register(ONES, a), Register(ONES, b), Register(ONES, c);
    RegisterLinear(ONES, ONES, a, b);
    XorZero(ONES);
    RegisterLinear(ZERO, ONES, XorOctets(a, b), c);
    ComplementIs(ra);
    ComplementIs(rb);
    ComplementIs(rc);
    ComplementIs(Xor(Xor(ra, rb), rc));
    XorSwap(ra, ONES, rb, ONES);
    XorZero(Xor(ra, rb));
    XorAssociates(Xor(ra, rb), rc, ONES);
  }

  // ----- bursts -----

  lemma Above8(w: bv32)
    ensures Above(w, 8) == w >> 8
  {
    hide Above;
    AboveAbove(w, 4, 4);
    Above4(w);
    Above4(w >> 4);
    Shift44(w);
  }

  lemma Above3(w: bv32)
    ensures Above(w, 3) == Half(Half(Half(w)))
  {
    hide Half;
    assert Above(w, 3) == Above(Half(w), 2) == Above(Half(Half(w)), 1);
  }

  lemma Above16(w: bv32)
    ensures Above(w, 16) == w >> 16
  {
    hide Above;
    Above8(w);
    Above8(w >> 8);
    AboveAbove(w, 8, 8);
    assert w >> 8 >> 8 == w >> 16;
  }

  lemma Above24(w: bv32)
    ensures Above(w, 24) == w >> 24
  {
    hide Above;
    Above16(w);
    Above8(w >> 16);
    AboveAbove(w, 16, 8);
    assert w >> 16 >> 8 == w >> 24;
  }

  lemma Above28(w: bv32)
    ensures Above(w, 28) == w >> 28
  {
    hide Above;
    Above24(w);
    Above4(w >> 24);
    AboveAbove(w, 24, 4);
    assert w >> 24 >> 4 == w >> 28;
  }

  lemma ThreeHalves(w: bv32)
    ensures Half(Half(Half(w >> 28))) == w >> 31
  {
  }

  lemma Above31(w: bv32)
    ensures Above(w, 31) == w >> 31
  {
    hide Above, Half;
    Above28(w);
    Above3(w >> 28);
    AboveAbove(w, 28, 3);
    ThreeHalves(w);
  }

  lemma HalfZero()
    ensures Half(ZERO) == ZERO
  {
  }

  lemma {:induction false} AboveZero(n: nat)
    ensures Above(ZERO, n) == ZERO
    decreases n
  {
    hide Half;
    HalfZero();
    if n > 0 {
      AboveZero(n - 1);
    }
  }

  /** A word with nothing above its low 31 bits has its top bit clear. */
  lemma TopClear(w: bv32, n: nat)
    requires n <= 31 && Above(w, n) == ZERO
    ensures w >> 31 == ZERO
  {
    hide Above;
    AboveAbove(w, n, 31 - n);
    AboveZero(31 - n);
    Above31(w);
  }

  /** The bit shifted out comes back as the top bit. */
  lemma TopBitIsFeedback(x: bv32)
    ensures Shift(x) >> 31 == LowBit(x)
    ensures LowBit(x) == ZERO ==> Shift(x) == Half(x)
  {
  }

  /** `n` further bits can only bring the register to zero from a value below 2^n. */
  lemma {:induction false} DrainsFromLowBits(r: bv32, bits: seq<bool>)
    requires |bits| <= 31 && Feed(r, bits) == ZERO
    ensures Above(r, |bits|) == ZERO
    decreases |bits|
  {
    hide Xor, Shift, BitWord, Half, LowBit;
    if bits != [] {
      var w := BitWord(bits[0]);
      var x := Xor(r, w);
      DrainsFromLowBits(Shift(x), bits[1..]);
      TopClear(Shift(x), |bits| - 1);
      TopBitIsFeedback(x);
      HalfLinear(r, w);
      HalfOfBit(bits[0]);
      XorZero(Half(r));
    }
  }

  lemma FirstBitFeedsBack()
    ensures Shift(BitWord(true)) >> 31 != ZERO
    ensures Shift(BitWord(false)) == ZERO
  {
  }

  /** At most 32 bits, not all zero, leave a trace in a zero register. */
  lemma {:induction false} BurstShows(bits: seq<bool>)
    requires |bits| <= 32 && true in bits
    ensures Feed(ZERO, bits) != ZERO
    decreases |bits|
  {
    hide Xor, Shift, BitWord;
    FirstBitFeedsBack();
    XorZero(BitWord(bits[0]));
    if bits[0] {
      if Feed(ZERO, bits) == ZERO {
        DrainsFromLowBits(Shift(BitWord(true)), bits[1..]);
        TopClear(Shift(BitWord(true)), |bits| - 1);
      }
    } else {
      BurstShows(bits[1..]);
    }
  }

  /** Zero bits neither create nor destroy a trace. */
  lemma {:induction false} ZerosKeep(r: bv32, bits: seq<bool>)
    requires true !in bits
    ensures Feed(r, bits) == ZERO <==> r == ZERO
    decreases |bits|
  {
    hide Xor, Shift;
    if bits != [] {
      assert bits[0] in bits;
      assert BitWord(bits[0]) == ZERO;
      XorZero(r);
      ShiftKeepsNonzero(r);
      ZerosKeep(Shift(r), bits[1..]);
    }
  }

  lemma LowAndHalf(v: bv32, w: bv32)
    requires LowBit(v) == LowBit(w) && Half(v) == Half(w)
    ensures v == w
  {
  }

  lemma {:induction false} BitsInjective(v: bv32, w: bv32, n: nat)
    requires Bits(v, n) == Bits(w, n) && Above(v, n) == Above(w, n)
    ensures v == w
    decreases n
  {
    hide Half, LowBit;
    if n > 0 {
      assert Bits(v, n)[1..] == Bits(w, n)[1..];
      assert Bits(v, n)[0] == Bits(w, n)[0];
      BitOfWord(v);
      BitOfWord(w);
      BitsInjective(Half(v), Half(w), n - 1);
      LowAndHalf(v, w);
    }
  }

  lemma WidenInjective(a: bv8, b: bv8)
    requires Widen(a) == Widen(b)
    ensures a == b
  {
  }

  lemma {:induction false} MessageBitsInjective(a: Octets, b: Octets)
    requires |a| == |b| && MessageBits(a) == MessageBits(b)
    ensures a == b
    decreases |a|
  {
    hide Widen, Bits, Above;
    if a != [] {
      var v, w := Widen(a[0]), Widen(b[0]);
      assert MessageBits(a)[..8] == Bits(v, 8) && MessageBits(b)[..8] == Bits(w, 8);
      assert MessageBits(a)[8..] == MessageBits(a[1..]) && MessageBits(b)[8..] == MessageBits(b[1..]);
      ByteHasNothingAbove(a[0]);
      ByteHasNothingAbove(b[0]);
      BitsInjective(v, w, 8);
      WidenInjective(a[0], b[0]);
      MessageBitsInjective(a[1..], b[1..]);
    }
  }

  /** The messages agree on every bit outside the 32 from bit `i` on. */
  predicate AgreeOutside(a: Octets, b: Octets, i: nat)
    requires |a| == |b|
  {
    forall j :: 0 <= j < 8 * |a| && !(i <= j < i + 32) ==> MessageBits(a)[j] == MessageBits(b)[j]
  }

  /** Two different messages whose differences lie within 32 consecutive bits have different CRCs. */
  lemma BurstDetected(a: Octets, b: Octets, i: nat)
    requires |a| == |b| && a != b && AgreeOutside(a, b, i)
    ensures Crc(a) != Crc(b)
  {
    hide Feed, Register, MessageBits, Xor, Complement;
    var x, y := MessageBits(a), MessageBits(b);
    var d := Diff(x, y);
    var lo := if i < |d| then i else |d|;
    var hi := if i + 32 < |d| then i + 32 else |d|;
    RegisterIsSerial(ONES, a);
    RegisterIsSerial(ONES, b);
    FeedLinear(ONES, ONES, x, y);
    XorZero(ONES);
    assert d == d[..lo] + (d[lo..hi] + d[hi..]);
    FeedConcat(ZERO, d[..lo], d[lo..hi] + d[hi..]);
    FeedConcat(Feed(ZERO, d[..lo]), d[lo..hi], d[hi..]);
    ZerosKeep(ZERO, d[..lo]);
    if true !in d[lo..hi] {
      assert forall j :: 0 <= j < |d| ==> !d[j];
      assert forall j :: 0 <= j < |x| ==> d[j] == (x[j] != y[j]);
      assert x == y;
      MessageBitsInjective(a, b);
    }
    BurstShows(d[lo..hi]);
    ZerosKeep(Feed(ZERO, d[lo..hi]), d[hi..]);
    XorZero(Register(ONES, a));
    ComplementInjective(Register(ONES, a), Register(ONES, b));
  }

  lemma ComplementInjective(a: bv32, b: bv32)
    ensures Complement(a) == Complement(b) ==> a == b
  {
  }

  lemma {:induction false} MessageBitAt(a: Octets, b: Octets, j: nat)
    requires |a| == |b| && j < 8 * |a| && a[j / 8] == b[j / 8]
    ensures MessageBits(a)[j] == MessageBits(b)[j]
    decreases |a|
  {
    hide Widen, Bits;
    if j >= 8 {
      MessageBitAt(a[1..], b[1..], j - 8);
    }
  }

  /** In particular, corruption confined to four consecutive bytes never goes unnoticed. */
  lemma FourBytesDetected(a: Octets, b: Octets, k: nat)
    requires |a| == |b| && a != b
    requires forall j :: 0 <= j < |a| && !(k <= j < k + 4) ==> a[j] == b[j]
    ensures Crc(a) != Crc(b)
  {
    forall j | 0 <= j < 8 * |a| && !(8 * k <= j < 8 * k + 32) ensures MessageBits(a)[j] == MessageBits(b)[j] {
      MessageBitAt(a, b, j);
    }
    BurstDetected(a, b, 8 * k);
  }

  // ----- the polynomial -----

  /** A set low bit brings in the reflected polynomial 0xedb88320. */
  lemma ShiftByLowBit(crc: bv32)
    ensures Shift(crc) == if crc & 1 == 0 then crc >> 1 else (crc >> 1) ^ 0xedb8_8320
  {
  }

  function EightShifts(crc: bv32): bv32 {
    Shift(Shift(Shift(Shift(Shift(Shift(Shift(Shift(crc))))))))
  }

  lemma EightAreShifts(crc: bv32)
    ensures Shifts(crc, 8) == EightShifts(crc)
  {
    hide Shift;
    var half := Shift(Shift(Shift(Shift(crc))));
    assert Shifts(crc, 8) == Shifts(half, 4);
    assert Shifts(half, 4) == Shift(Shift(Shift(Shift(half))));
  }

  lemma OctetEnters(crc: bv32, b: bv8, rest: Octets, next: bv32)
    requires EightShifts(Xor(crc, Widen(b))) == next
    ensures Register(crc, [b] + rest) == Register(next, rest)
  {
    hide Shift, EightShifts;
    EightAreShifts(Xor(crc, Widen(b)));
    assert ([b] + rest)[1..] == rest;
  }

  /** The published check value: the CRC of the nine digits `123456789`. */
  lemma CheckValue()
    ensures Crc([0x31, 0x32, 0x33, 0x34, 0x35, 0x36, 0x37, 0x38, 0x39]) == 0xcbf4_3926
  {
    var d9: Octets := [0x39] + [];
    var d8: Octets := [0x38] + d9;
    var d7: Octets := [0x37] + d8;
    var d6: Octets := [0x36] + d7;
    var d5: Octets := [0x35] + d6;
    var d4: Octets := [0x34] + d5;
    var d3: Octets := [0x33] + d4;
    var d2: Octets := [0x32] + d3;
    var d1: Octets := [0x31] + d2;
    assert [0x31, 0x32, 0x33, 0x34, 0x35, 0x36, 0x37, 0x38, 0x39] == d1;
    hide Register;
    OctetEnters(0xffff_ffff, 0x31, d2, 0x7c23_1048);
    OctetEnters(0x7c23_1048, 0x32, d3, 0xb0ac_bb32);
    OctetEnters(0xb0ac_bb32, 0x33, d4, 0x77b7_9c2d);
    OctetEnters(0x77b7_9c2d, 0x34, d5, 0x641c_1f5c);
    OctetEnters(0x641c_1f5c, 0x35, d6, 0x340a_c5e3);
    OctetEnters(0x340a_c5e3, 0x36, d7, 0xf68d_2c9e);
    OctetEnters(0xf68d_2c9e, 0x37, d8, 0xaffc_9660);
    OctetEnters(0xaffc_9660, 0x38, d9, 0x651f_2550);
    OctetEnters(0x651f_2550, 0x39, [], 0x340b_c6d9);
    assert Register(0x340b_c6d9, []) == 0x340b_c6d9 by {
      NothingEnters(0x340b_c6d9);
    }
  }

  lemma NothingEnters(crc: bv32)
    ensures Register(crc, []) == crc
  {
  }
}
