/** What the chained-fixup walk guarantees: safety, the chain round trip, and lookup as patch-then-read. */
module FixupProofs {
  import opened Words
  import opened MachoError
  import opened Text
  import opened LoadCommands
  import opened AddressMap
  import opened ChainedFixups

  // ----- the pointer formats -----

  /** How many bytes one unit of `next` leads on. */
  function Gap(format: u16): nat {
    if format == 1 || format == 9 || format == 12 then 8 else 4
  }

  /** How many values `next` can have: 11 bits in the arm64e formats, 12 in the others. */
  function NextValues(format: u16): nat {
    if Authenticates(format) then 0x800 else 0x1000
  }

  /** `DYLD_CHAINED_PTR_ARM64E`, `_KERNEL`, `_USERLAND` and `_USERLAND24`. */
  predicate Authenticates(format: u16) {
    format == 1 || format == 7 || format == 9 || format == 12
  }

  /** `DYLD_CHAINED_PTR_64` and `_64_OFFSET`. */
  predicate Plain(format: u16) {
    format == 2 || format == 6
  }

  lemma FormatTable(format: u16)
    ensures PointerStride(format) == Gap(format) && NextLimit(format) == NextValues(format)
    ensures IsArm64e(format) == Authenticates(format) && IsGeneric64(format) == Plain(format)
  {
  }

  /**
   * One step of a chain, in bytes: bits 51 and up of the word at `off` hold `next`. Zero ends the chain; else the
   * next word stands that many gaps further on. A chain that leaves the file ends there.
   */
  lemma ChainLaw(image: Image, off: u64, format: u16)
    ensures off + 8 > |image.data| ==> Walk(image, off, format) == []
    ensures off + 8 <= |image.data| ==>
      var w := U64At(image.data, off);
      var next := w / 0x8_0000_0000_0000 % NextValues(format);
      var target := DecodePtr(w, format, image);
      var here := if target.Some? then [(off, target.value)] else [];
      && off + next * Gap(format) < 0x1_0000_0000_0000_0000
      && Walk(image, off, format) == here + (if next == 0 then [] else Walk(image, off + next * Gap(format), format))
  {
    hide U64At, DecodePtr;
    FormatTable(format);
  }

  /** A format none of the six says nothing about its words. */
  lemma {:induction false} UnknownFormat(image: Image, off: u64, format: u16)
    requires !Authenticates(format) && !Plain(format)
    ensures Walk(image, off, format) == []
    decreases if off + 8 > |image.data| then 0 else |image.data| - off
  {
    hide U64At;
    ChainLaw(image, off, format);
    if off + 8 <= |image.data| {
      var next := U64At(image.data, off) / 0x8_0000_0000_0000 % NextValues(format);
      if next != 0 {
        UnknownFormat(image, off + next * Gap(format), format);
      }
    }
  }

  // ----- safety of every walk -----

  predicate OnChain(image: Image, start: u64, format: u16, k: u64) {
    start <= k && k + 8 <= |image.data| && (k - start) % Gap(format) == 0
  }

  /** Where the chain behind start `s` of a page begins. */
  function Head(seg: SegmentStarts, page: nat, s: u16): u64 {
    (seg.segmentOffset + page * seg.pageSize + s) % 0x1_0000_0000_0000_0000
  }

  /** A walk only meets whole words of the file, at multiples of the gap behind its start. */
  lemma {:induction false} WalkSafe(image: Image, off: u64, format: u16, e: Entry)
    requires e in Walk(image, off, format)
    ensures OnChain(image, off, format, e.0)
    decreases if off + 8 > |image.data| then 0 else |image.data| - off
  {
    hide OnChain, NextSlot, NextDelta, U64At;
    var next := WalkStep(image, off, format, e);
    hide Walk;
    if e.0 == off {
      ChainStartsHere(image, off, format);
    } else {
      WalkSafe(image, next, format, e);
      ChainExtends(image, off, format, U64At(image.data, off), e.0);
    }
  }

  /** A slot met is the first word's or is met walking from the next one. */
  lemma WalkStep(image: Image, off: u64, format: u16, e: Entry) returns (next: u64)
    requires e in Walk(image, off, format)
    ensures off + 8 <= |image.data|
    ensures e.0 != off ==>
      && NextDelta(U64At(image.data, off), format) != 0 && off < next == NextSlot(off, U64At(image.data, off), format)
      && e in Walk(image, next, format)
  {
    hide DecodePtr, NextDelta, NextSlot, U64At;
    next := NextSlot(off, U64At(image.data, off), format);
  }

  lemma ChainStartsHere(image: Image, off: u64, format: u16)
    requires off + 8 <= |image.data|
    ensures OnChain(image, off, format, off)
  {
  }

  lemma ChainExtends(image: Image, off: u64, format: u16, raw: u64, k: u64)
    requires off + 8 <= |image.data| && NextSlot(off, raw, format) < TWO_64
    requires OnChain(image, NextSlot(off, raw, format), format, k)
    ensures OnChain(image, off, format, k)
  {
    hide NextDelta;
    FormatTable(format);
    var next := NextDelta(raw, format);
    StrideShifts(k - (off + next * PointerStride(format)), next, PointerStride(format));
  }

  predicate AscendingFrom(lo: nat, w: seq<Entry>)
    decreases |w|
  {
    w == [] || (lo <= w[0].0 && AscendingFrom(w[0].0 as int + 1, w[1..]))
  }

  /** It only goes up, so it never meets a word twice. */
  lemma {:induction false} WalkAscends(image: Image, off: u64, format: u16)
    ensures AscendingFrom(off, Walk(image, off, format))
    decreases if off + 8 > |image.data| then 0 else |image.data| - off
  {
    hide DecodePtr, NextDelta, NextSlot, U64At;
    if off + 8 <= |image.data| {
      var raw := U64At(image.data, off);
      if NextDelta(raw, format) != 0 {
        var rest := Walk(image, NextSlot(off, raw, format), format);
        WalkAscends(image, NextSlot(off, raw, format), format);
        var w := Walk(image, off, format);
        assert w == rest || w[1..] == rest;
      }
    }
  }

  lemma StrideShifts(d: nat, next: nat, stride: nat)
    requires stride > 0 && d % stride == 0
    ensures (d + next * stride) % stride == 0
  {
    var q := d / stride;
    assert d + next * stride == (q + next) * stride;
    MulDivMod(q + next, stride);
  }

  lemma HeadIs(seg: SegmentStarts, page: nat, s: u16)
    ensures ChainStart(seg, page, s) == Head(seg, page, s)
  {
  }

  /** `k` lies on the chain of some start of some page of some segment of the payload. */
  ghost predicate FromPayload(image: Image, payload: Bytes, startsOff: nat, k: u64) {
    exists index: nat, page: nat, s: u16 ::
      startsOff + 4 + index * 4 + 4 <= |payload| && SegmentInfo(payload, startsOff, index).Some?
      && var seg := SegmentInfo(payload, startsOff, index).value;
         page < seg.pageCount && s in PageStarts(payload, seg.pagesOff, page)
         && OnChain(image, Head(seg, page, s), seg.format, k)
  }

  lemma {:induction false} WalkAllSafe(image: Image, seg: SegmentStarts, page: nat, starts: seq<u16>, e: Entry)
    requires e in WalkAll(image, seg, page, starts)
    ensures exists s :: s in starts && OnChain(image, Head(seg, page, s), seg.format, e.0)
  {
    HeadIs(seg, page, starts[0]);
    hide Walk, Head, ChainStart, OnChain;
    var first := Walk(image, Head(seg, page, starts[0]), seg.format);
    if e in first {
      WalkSafe(image, Head(seg, page, starts[0]), seg.format, e);
    } else {
      WalkAllSafe(image, seg, page, starts[1..], e);
      var s :| s in starts[1..] && OnChain(image, Head(seg, page, s), seg.format, e.0);
      assert s in starts;
    }
  }

  lemma {:induction false} WalkPagesSafe(image: Image, payload: Bytes, seg: SegmentStarts, page: nat, e: Entry)
    requires page <= seg.pageCount && seg.pagesOff + seg.pageCount * 2 <= |payload|
    requires e in WalkPages(image, payload, seg, page)
    ensures exists p: nat, s: u16 :: p < seg.pageCount && s in PageStarts(payload, seg.pagesOff, p)
              && OnChain(image, Head(seg, p, s), seg.format, e.0)
    decreases seg.pageCount - page
  {
    hide WalkAll, PageStarts, Head, OnChain;
    if e in WalkAll(image, seg, page, PageStarts(payload, seg.pagesOff, page)) {
      WalkAllSafe(image, seg, page, PageStarts(payload, seg.pagesOff, page), e);
    } else {
      WalkPagesSafe(image, payload, seg, page + 1, e);
    }
  }

  lemma SegmentInfoFits(payload: Bytes, startsOff: nat, index: nat)
    requires startsOff + 4 + index * 4 + 4 <= |payload| && SegmentInfo(payload, startsOff, index).Some?
    ensures var seg := SegmentInfo(payload, startsOff, index).value; seg.pagesOff + seg.pageCount * 2 <= |payload|
  {
  }

  lemma {:induction false} WalkSegmentsSafe(image: Image, payload: Bytes, startsOff: nat, index: nat, count: nat, e: Entry)
    requires e in WalkSegments(image, payload, startsOff, index, count)
    ensures FromPayload(image, payload, startsOff, e.0) && e.0 + 8 <= |image.data|
    decreases count - index
  {
    hide WalkPages, PageStarts, Head, SegmentInfo;
    var seg := SegmentInfo(payload, startsOff, index);
    if seg.Some? {
      SegmentInfoFits(payload, startsOff, index);
    }
    if seg.Some? && e in WalkPages(image, payload, seg.value, 0) {
      WalkPagesSafe(image, payload, seg.value, 0, e);
    } else {
      WalkSegmentsSafe(image, payload, startsOff, index + 1, count, e);
    }
  }

  /** Inserting entries leaves under each key the last one inserted there. */
  lemma {:induction false} RecordKeys(m: FixupMap, entries: seq<Entry>, k: u64)
    ensures k in Record(m, entries) <==> k in m || exists i :: 0 <= i < |entries| && entries[i].0 == k
    ensures forall i :: 0 <= i < |entries| && entries[i].0 == k && (forall j :: i < j < |entries| ==> entries[j].0 != k)
              ==> Record(m, entries)[k] == entries[i].1
    ensures k in m && (forall i :: 0 <= i < |entries| ==> entries[i].0 != k) ==> Record(m, entries)[k] == m[k]
    decreases |entries|
  {
    if entries != [] {
      RecordKeys(m[entries[0].0 := entries[0].1], entries[1..], k);
      assert forall i :: 0 <= i < |entries[1..]| ==> entries[1..][i] == entries[i + 1];
      assert forall i :: 1 <= i < |entries| ==> entries[i] == entries[1..][i - 1];
    }
  }

  /** Every recorded key of every payload is a whole word of the file on one of the payload's chains. */
  lemma RecordedKeysSafe(file: MachoFile, payload: Bytes, base: u64, k: u64)
    requires ImageBase(file) == Ok(base)
    requires Entries(file, payload).Ok? && k in Record(map[], Entries(file, payload).value)
    ensures var h := HeaderOf(payload).value;
      FromPayload(ImageOf(file, payload, h, base), payload, h.startsOff, k) && k + 8 <= |file.data|
  {
    hide Record, WalkSegments, Imports, ImageBase, FromPayload;
    var entries := Entries(file, payload).value;
    RecordKeys(map[], entries, k);
    var i :| 0 <= i < |entries| && entries[i].0 == k;
    var h := HeaderOf(payload).value;
    WalkSegmentsSafe(ImageOf(file, payload, h, base), payload, h.startsOff, 0, U32At(payload, h.startsOff), entries[i]);
  }

  // ----- chains that can be written -----

  /** What a pointer says, and what stands in the bits no reader looks at. */
  datatype Content =
    | ToRebase(va: u64, unused: nat)
    | ToBind(ordinal: u32, addend: i64, unused: nat)
    | Auth(low: nat, bind: bool)

  datatype Slot = Slot(off: u64, content: Content)

  /** The value an unpacked target must have for the walk to report `va`: formats 1 and 2 hold no offset. */
  function Unslid(va: u64, format: u16, base: u64): u64 {
    if format == 1 || format == 2 then va else (va - base) % 0x1_0000_0000_0000_0000
  }

  predicate Packable(c: Content, format: u16, base: u64) {
    match c
    case ToRebase(va, unused) =>
      var low := Unslid(va, format, base) % 0x100_0000_0000_0000;
      if Plain(format) then low < 0x10_0000_0000 && unused < 0x80
      else Authenticates(format) && low < 0x800_0000_0000 && unused == 0
    case ToBind(ordinal, addend, unused) =>
      if Plain(format) then ordinal < 0x100_0000 && 0 <= addend < 0x100 && unused < 0x8_0000
      else Authenticates(format) && ordinal < 0x1_0000 && addend == 0 && unused < 0x8_0000_0000
    case Auth(low, _) => Authenticates(format) && low < 0x8_0000_0000_0000
  }

  /** The chained pointer for a content whose successor is `next` gaps away. */
  function PackWord(c: Content, format: u16, base: u64, next: nat): (w: nat)
    requires Packable(c, format, base) && next < NextValues(format)
  {
    next * 0x8_0000_0000_0000 +
    match c
    case ToRebase(va, unused) =>
      var u := Unslid(va, format, base);
      var low, high8 := u % 0x100_0000_0000_0000, u / 0x100_0000_0000_0000;
      if Plain(format) then low + high8 * 0x10_0000_0000 + unused * 0x1000_0000_0000
      else low + high8 * 0x800_0000_0000
    case ToBind(ordinal, addend, unused) =>
      if Plain(format) then ordinal + addend * 0x100_0000 + unused * 0x1_0000_0000 + 0x8000_0000_0000_0000
      else ordinal + unused * 0x1_0000 + 0x4000_0000_0000_0000
    case Auth(low, bind) => low + (if bind then 0x4000_0000_0000_0000 else 0) + 0x8000_0000_0000_0000
  }

  /** What the index should say about the slot; nothing for an authenticated one. */
  function TargetOf(c: Content, image: Image): Option<FixupTarget> {
    match c
    case ToRebase(va, _) => Some(Rebase(va))
    case ToBind(ordinal, addend, _) =>
      Some(Bind(ordinal, addend, if ordinal < |image.imports| then image.imports[ordinal] else None))
    case Auth(_, _) => None
  }

  /** Reading a field of `n` values above `m` values of lower bits. */
  lemma Field(low: nat, m: nat, f: nat, n: nat, high: nat, x: nat)
    requires low < m && f < n && x == low + m * (f + n * high)
    ensures x % m == low && x / m == f + n * high && x / m % n == f && x / m / n == high
  {
    ModUnique(x, f + n * high, m, low);
    ModUnique(f + n * high, high, n, f);
  }

  lemma RebaseWord(u: u64, width: nat, unused: nat, pad: nat, next: nat, limit: nat)
    requires (width == BIT_36 && pad == 0x80 && limit == 0x1000) || (width == BIT_43 && pad == 1 && limit == 0x800)
    requires u % BIT_56 < width && next < limit && unused < pad
    ensures var w := next * BIT_51 + (u % BIT_56 + u / BIT_56 * width + unused * (0x100 * width));
      && w < limit * BIT_51 && w / BIT_51 % limit == next
      && Unpacked(w, width) == u
  {
    var low, high8 := u % BIT_56, u / BIT_56;
    var w := next * BIT_51 + (low + high8 * width + unused * (0x100 * width));
    Field(low, width, high8, 0x100, unused + pad * next, w);
    Field(low + high8 * width + unused * (0x100 * width), BIT_51, next, limit, 0, w);
  }

  function Unpacked(w: nat, width: nat): nat
    requires width > 0
  {
    w / width % 0x100 * BIT_56 + w % width
  }

  /** The generic 64-bit formats: 36 target bits, then the high byte. */
  lemma RebaseDecodes64(va: u64, unused: nat, format: u16, image: Image, next: nat)
    requires Plain(format) && Packable(ToRebase(va, unused), format, image.base) && next < 0x1000
    ensures var w := PackWord(ToRebase(va, unused), format, image.base, next);
      w < TWO_64 && NextDelta(w, format) == next && DecodePtr(w, format, image) == Some(Rebase(va))
  {
    hide Unpack, WrappingAdd;
    SlideBack(va, image.base);
    RebaseWord(Unslid(va, format, image.base), BIT_36, unused, 0x80, next, 0x1000);
    TopBitClear(PackWord(ToRebase(va, unused), format, image.base, next), BIT_63);
  }

  /** The arm64e formats: 43 target bits, then the high byte. */
  lemma RebaseDecodesArm(va: u64, format: u16, image: Image, next: nat)
    requires Authenticates(format) && Packable(ToRebase(va, 0), format, image.base) && next < 0x800
    ensures var w := PackWord(ToRebase(va, 0), format, image.base, next);
      w < TWO_64 && NextDelta(w, format) == next && DecodePtr(w, format, image) == Some(Rebase(va))
  {
    hide Unpack, WrappingAdd;
    SlideBack(va, image.base);
    RebaseWord(Unslid(va, format, image.base), BIT_43, 0, 1, next, 0x800);
    TopBitClear(PackWord(ToRebase(va, 0), format, image.base, next), BIT_62);
    TopBitClear(PackWord(ToRebase(va, 0), format, image.base, next), BIT_63);
  }

  lemma TopBitClear(w: nat, bit: nat)
    requires w < bit
    ensures w / bit % 2 == 0
  {
    assert w / bit == 0;
  }

  lemma SlideBack(va: u64, base: u64)
    ensures WrappingAdd(base, (va - base) % TWO_64) == va
  {
  }

  lemma BindDecodes(ordinal: u32, addend: i64, unused: nat, format: u16, image: Image, next: nat)
    requires Packable(ToBind(ordinal, addend, unused), format, image.base) && next < NextValues(format)
    ensures var w := PackWord(ToBind(ordinal, addend, unused), format, image.base, next);
      && w < TWO_64 && NextDelta(w, format) == next
      && DecodePtr(w, format, image) == TargetOf(ToBind(ordinal, addend, unused), image)
  {
    var w := PackWord(ToBind(ordinal, addend, unused), format, image.base, next);
    if Plain(format) {
      Field(ordinal, BIT_24, addend, 0x100, unused + 0x8_0000 * next + 0x8000_0000, w);
      Field(ordinal + addend * BIT_24 + unused * TWO_32, BIT_51, next, 0x1000, 1, w);
      assert w / BIT_63 == 1;
    } else {
      Field(ordinal, 0x1_0000, 0, 1, unused + 0x8_0000_0000 * next + 0x4000_0000_0000, w);
      Field(ordinal + unused * 0x1_0000, BIT_51, next, 0x800, 1, w);
      assert w / BIT_62 == 1 && w / BIT_63 == 0;
    }
  }

  lemma AuthDecodes(low: nat, bind: bool, format: u16, image: Image, next: nat)
    requires Packable(Auth(low, bind), format, image.base) && next < NextValues(format)
    ensures var w := PackWord(Auth(low, bind), format, image.base, next);
      w < TWO_64 && NextDelta(w, format) == next && DecodePtr(w, format, image) == None
  {
    var w := PackWord(Auth(low, bind), format, image.base, next);
    Field(low, BIT_51, next, 0x800, (if bind then 1 else 0) + 2, w);
    assert w / BIT_63 == 1;
  }

  /** Decoding inverts packing, for every content that has a packed form. */
  lemma WordRoundTrip(c: Content, format: u16, image: Image, next: nat)
    requires Packable(c, format, image.base) && next < NextValues(format)
    ensures var w := PackWord(c, format, image.base, next);
      w < TWO_64 && NextDelta(w, format) == next && DecodePtr(w, format, image) == TargetOf(c, image)
  {
    match c {
      case ToRebase(va, unused) =>
        if Plain(format) {
          RebaseDecodes64(va, unused, format, image, next);
        } else {
          RebaseDecodesArm(va, format, image, next);
        }
      case ToBind(ordinal, addend, unused) => BindDecodes(ordinal, addend, unused, format, image, next);
      case Auth(low, bind) => AuthDecodes(low, bind, format, image, next);
    }
  }

  /** The address whose unpacked form has these low bits and this high byte. */
  function Slid(low: nat, high8: nat, format: u16, base: u64): u64
    requires low < 0x100_0000_0000_0000 && high8 < 0x100
  {
    var u := high8 * 0x100_0000_0000_0000 + low;
    if format == 1 || format == 2 then u else (base + u) % 0x1_0000_0000_0000_0000
  }

  lemma SlidIs(low: nat, high8: nat, format: u16, base: u64)
    requires low < BIT_56 && high8 < 0x100
    ensures Unslid(Slid(low, high8, format, base), format, base) == high8 * BIT_56 + low
  {
    SlideOn(high8 * BIT_56 + low, base);
  }

  lemma HighAndLow(low: nat, high8: nat)
    requires low < BIT_56
    ensures (high8 * BIT_56 + low) % BIT_56 == low && (high8 * BIT_56 + low) / BIT_56 == high8
  {
    ModUnique(high8 * BIT_56 + low, high8, BIT_56, low);
  }

  /** Some content and `next` pack to `w`. */
  ghost predicate IsPacked(w: u64, format: u16, base: u64) {
    exists c: Content, next: nat ::
      Packable(c, format, base) && next < NextValues(format) && PackWord(c, format, base, next) == w
  }

  lemma PlainRebase(w: u64, format: u16, base: u64)
    requires Plain(format) && w < 0x8000_0000_0000_0000
    ensures IsPacked(w, format, base)
  {
    var low, q := w % BIT_36, w / BIT_36;
    var high8, r := q % 0x100, q / 0x100;
    SlidIs(low, high8, format, base);
    HighAndLow(low, high8);
    assert PackWord(ToRebase(Slid(low, high8, format, base), r % 0x80), format, base, r / 0x80) == w;
  }

  lemma PlainBind(w: u64, format: u16, base: u64)
    requires Plain(format) && w >= 0x8000_0000_0000_0000
    ensures IsPacked(w, format, base)
  {
    var ordinal, q := w % BIT_24, w / BIT_24;
    var addend, r := q % 0x100, q / 0x100;
    var unused, t := r % 0x8_0000, r / 0x8_0000;
    assert PackWord(ToBind(ordinal, addend, unused), format, base, t - 0x1000) == w;
  }

  lemma ArmRebase(w: u64, format: u16, base: u64)
    requires Authenticates(format) && w < 0x4000_0000_0000_0000
    ensures IsPacked(w, format, base)
  {
    var low, q := w % BIT_43, w / BIT_43;
    SlidIs(low, q % 0x100, format, base);
    HighAndLow(low, q % 0x100);
    assert PackWord(ToRebase(Slid(low, q % 0x100, format, base), 0), format, base, q / 0x100) == w;
  }

  lemma ArmBind(w: u64, format: u16, base: u64)
    requires Authenticates(format) && 0x4000_0000_0000_0000 <= w < 0x8000_0000_0000_0000
    ensures IsPacked(w, format, base)
  {
    var ordinal, q := w % 0x1_0000, w / 0x1_0000;
    var unused, r := q % 0x8_0000_0000, q / 0x8_0000_0000;
    assert PackWord(ToBind(ordinal, 0, unused), format, base, r - 0x800) == w;
  }

  lemma ArmAuth(w: u64, format: u16, base: u64)
    requires Authenticates(format) && w >= 0x8000_0000_0000_0000
    ensures IsPacked(w, format, base)
  {
    var low, q := w % BIT_51, w / BIT_51;
    var bind := q >= 0x1800;
    assert PackWord(Auth(low, bind), format, base, q - (if bind then 0x1800 else 0x1000)) == w;
  }

  /** Every word is the packed form of some content and some `next`, so the round trip covers all words. */
  lemma EveryWordIsPacked(w: u64, format: u16, base: u64)
    requires Plain(format) || Authenticates(format)
    ensures exists c: Content, next: nat ::
      Packable(c, format, base) && next < NextValues(format) && PackWord(c, format, base, next) == w
  {
    hide Packable, PackWord;
    if Plain(format) {
      if w < 0x8000_0000_0000_0000 {
        PlainRebase(w, format, base);
      } else {
        PlainBind(w, format, base);
      }
    } else if w < 0x4000_0000_0000_0000 {
      ArmRebase(w, format, base);
    } else if w < 0x8000_0000_0000_0000 {
      ArmBind(w, format, base);
    } else {
      ArmAuth(w, format, base);
    }
  }

  lemma SlideOn(u: u64, base: u64)
    ensures ((base + u) % TWO_64 - base) % TWO_64 == u
  {
  }

  // ----- the chain round trip -----

  /** How many gaps lead from the first slot to the second; 0 ends the chain. */
  function NextOf(slots: seq<Slot>, format: u16): int
    requires slots != []
  {
    if |slots| == 1 then 0 else (slots[1].off - slots[0].off) / Gap(format)
  }

  /** Distances are positive multiples of the gap that fit the `next` field, and every content packs. */
  predicate Chainable(slots: seq<Slot>, format: u16, base: u64)
    decreases |slots|
  {
    slots == [] ||
    (&& Packable(slots[0].content, format, base)
     && 0 <= NextOf(slots, format) < NextValues(format)
     && (|slots| > 1 ==>
          slots[0].off < slots[1].off && (slots[1].off - slots[0].off) % Gap(format) == 0)
     && Chainable(slots[1..], format, base))
  }

  /** The words of the chain stand in the file. */
  predicate ChainLaid(data: Bytes, slots: seq<Slot>, format: u16, base: u64)
    requires Chainable(slots, format, base)
    decreases |slots|
  {
    slots == [] ||
    (&& slots[0].off + 8 <= |data|
     && U64At(data, slots[0].off) == PackWord(slots[0].content, format, base, NextOf(slots, format))
     && ChainLaid(data, slots[1..], format, base))
  }

  /** The slots the index should hold: all but the authenticated ones. */
  function Recorded(slots: seq<Slot>, image: Image): seq<Entry> {
    if slots == [] then []
    else
      var target := TargetOf(slots[0].content, image);
      (if target.Some? then [(slots[0].off, target.value)] else []) + Recorded(slots[1..], image)
  }

  /** Walking from the first slot recovers exactly the chain's offsets and targets. */
  lemma {:induction false} ChainRoundTrip(image: Image, slots: seq<Slot>, format: u16)
    requires slots != [] && Chainable(slots, format, image.base)
    requires ChainLaid(image.data, slots, format, image.base)
    ensures Walk(image, slots[0].off, format) == Recorded(slots, image)
    decreases |slots|
  {
    hide PackWord, DecodePtr, NextDelta, U64At, TargetOf, Packable;
    WordRoundTrip(slots[0].content, format, image, NextOf(slots, format));
    FormatTable(format);
    if |slots| > 1 {
      assert NextSlot(slots[0].off, U64At(image.data, slots[0].off), format) == slots[1].off;
      ChainRoundTrip(image, slots[1..], format);
    } else {
      assert Recorded(slots[1..], image) == [];
    }
  }

  // ----- overwriting words of the image -----

  function Overwrite(data: Bytes, off: nat, w: u64): (r: Bytes)
    requires off + 8 <= |data|
    ensures |r| == |data|
  {
    data[..off] + Le64(w) + data[off + 8..]
  }

  lemma OverwriteReads(data: Bytes, off: nat, w: u64, k: nat)
    requires off + 8 <= |data| && k + 8 <= |data|
    ensures U64At(Overwrite(data, off, w), off) == w
    ensures k + 8 <= off || off + 8 <= k ==> U64At(Overwrite(data, off, w), k) == U64At(data, k)
  {
    hide U64At, Le64;
    var r := Overwrite(data, off, w);
    assert At(r, off, Le64(w));
    FieldInWindow(r, off, Le64(w), 0);
    if k + 8 <= off || off + 8 <= k {
      assert r[k..k + 8] == data[k..k + 8];
      FieldInWindow(r, k, data[k..k + 8], 0);
      FieldInWindow(data, k, data[k..k + 8], 0);
    }
  }

  /** Slots far enough apart that their words do not overlap, all of them inside the file. */
  predicate WellSpaced(slots: seq<Slot>, size: nat)
    decreases |slots|
  {
    slots == [] ||
    (slots[0].off + 8 <= size && (|slots| > 1 ==> slots[0].off + 8 <= slots[1].off) && WellSpaced(slots[1..], size))
  }

  /** Writing a chain into an image, first slot last. */
  function PackChain(data: Bytes, slots: seq<Slot>, format: u16, base: u64): (r: Bytes)
    requires Chainable(slots, format, base) && WellSpaced(slots, |data|)
    ensures |r| == |data|
    decreases |slots|
  {
    if slots == [] then data
    else
      var w := PackWord(slots[0].content, format, base, NextOf(slots, format));
      WordRoundTrip(slots[0].content, format, Image([], base, []), NextOf(slots, format));
      Overwrite(PackChain(data, slots[1..], format, base), slots[0].off, w)
  }

  /** Overwriting a word below every slot leaves the chain in place. */
  lemma {:induction false} ChainStays(data: Bytes, off: nat, w: u64, slots: seq<Slot>, format: u16, base: u64)
    requires Chainable(slots, format, base) && ChainLaid(data, slots, format, base) && WellSpaced(slots, |data|)
    requires off + 8 <= |data| && (slots != [] ==> off + 8 <= slots[0].off)
    ensures ChainLaid(Overwrite(data, off, w), slots, format, base)
    decreases |slots|
  {
    hide U64At, PackWord, Packable;
    if slots != [] {
      OverwriteReads(data, off, w, slots[0].off);
      ChainStays(data, off, w, slots[1..], format, base);
    }
  }

  lemma {:induction false} PackedChainLaid(data: Bytes, slots: seq<Slot>, format: u16, base: u64)
    requires Chainable(slots, format, base) && WellSpaced(slots, |data|)
    ensures ChainLaid(PackChain(data, slots, format, base), slots, format, base)
    decreases |slots|
  {
    hide U64At, PackWord, Packable, Overwrite;
    if slots != [] {
      var rest := PackChain(data, slots[1..], format, base);
      var w := PackWord(slots[0].content, format, base, NextOf(slots, format));
      WordRoundTrip(slots[0].content, format, Image([], base, []), NextOf(slots, format));
      PackedChainLaid(data, slots[1..], format, base);
      ChainStays(rest, slots[0].off, w, slots[1..], format, base);
      OverwriteReads(rest, slots[0].off, w, slots[0].off);
    }
  }

  /** Packing targets into any image and walking it gives those offsets with those targets. */
  lemma PackThenWalk(image: Image, slots: seq<Slot>, format: u16)
    requires slots != [] && Chainable(slots, format, image.base) && WellSpaced(slots, |image.data|)
    ensures var packed := image.(data := PackChain(image.data, slots, format, image.base));
      Walk(packed, slots[0].off, format) == Recorded(slots, image)
  {
    hide Walk, PackChain, ChainLaid, WellSpaced, Chainable;
    var packed := image.(data := PackChain(image.data, slots, format, image.base));
    PackedChainLaid(image.data, slots, format, image.base);
    ChainRoundTrip(packed, slots, format);
    RecordedIgnoresData(slots, image, packed);
  }

  lemma {:induction false} RecordedIgnoresData(slots: seq<Slot>, image: Image, packed: Image)
    requires image.imports == packed.imports
    ensures Recorded(slots, image) == Recorded(slots, packed)
  {
    if slots != [] {
      RecordedIgnoresData(slots[1..], image, packed);
    }
  }

  // ----- the whole index -----

  /** A chain together with its pointer format. */
  datatype Chain = Chain(slots: seq<Slot>, format: u16)

  predicate Stands(c: Chain, image: Image) {
    c.slots != [] && Chainable(c.slots, c.format, image.base) && ChainLaid(image.data, c.slots, c.format, image.base)
  }

  function AllRecorded(chains: seq<Chain>, image: Image): seq<Entry> {
    if chains == [] then [] else Recorded(chains[0].slots, image) + AllRecorded(chains[1..], image)
  }

  /** The starts listed for a page are the heads of the given chains, one for one. */
  predicate HeadsOf(starts: seq<u16>, seg: SegmentStarts, page: nat, chains: seq<Chain>) {
    |starts| == |chains| &&
    forall i :: 0 <= i < |starts| ==>
      chains[i].slots != [] && chains[i].format == seg.format && chains[i].slots[0].off == Head(seg, page, starts[i])
  }

  /** A page's starts, single or multiple, recover all the chains of the page, in order. */
  lemma {:induction false} PageRoundTrip(image: Image, seg: SegmentStarts, page: nat, starts: seq<u16>, chains: seq<Chain>)
    requires HeadsOf(starts, seg, page, chains)
    requires forall c :: c in chains ==> Stands(c, image)
    ensures WalkAll(image, seg, page, starts) == AllRecorded(chains, image)
  {
    if starts != [] {
      HeadIs(seg, page, starts[0]);
      hide Walk, Recorded, Head, ChainStart;
      assert Stands(chains[0], image);
      ChainRoundTrip(image, chains[0].slots, chains[0].format);
      PageRoundTrip(image, seg, page, starts[1..], chains[1..]);
    }
  }

  // ----- lookup as patch-then-read -----

  /** `ChainedFixups::resolve_vaddr`. */
  function ResolveVaddr(fixups: FixupMap, file: MachoFile, vaddr: u64): Result<Option<u64>, Error> {
    match Offset(file, vaddr)
    case Err(e) => Err(e)
    case Ok(off) =>
      if off in fixups then Ok(if fixups[off].Rebase? then Some(fixups[off].va) else None)
      else
        match ReadU64(file, vaddr)
        case Err(e) => Err(e)
        case Ok(v) => Ok(Some(v))
  }

  predicate InBounds(fixups: FixupMap, data: Bytes) {
    forall k :: k in fixups ==> k + 8 <= |data|
  }

  predicate SlotsApart(fixups: FixupMap) {
    forall j, k :: j in fixups && k in fixups && j < k ==> j + 8 <= k
  }

  /** The image with the Rebase slots among `order` overwritten, one after the other. */
  function Patch(data: Bytes, fixups: FixupMap, order: seq<u64>): (r: Bytes)
    requires InBounds(fixups, data) && forall k :: k in order ==> k in fixups
    ensures |r| == |data|
    decreases |order|
  {
    if order == [] then data
    else
      var k, rest := order[0], Patch(data, fixups, order[1..]);
      if fixups[k].Rebase? then Overwrite(rest, k, fixups[k].va) else rest
  }

  /** The eight bytes at `off` meet no Rebase slot. */
  predicate ClearOf(fixups: FixupMap, off: nat) {
    forall k :: k in fixups && fixups[k].Rebase? ==> off + 8 <= k || k + 8 <= off
  }

  lemma {:induction false} PatchReads(data: Bytes, fixups: FixupMap, order: seq<u64>, off: u64)
    requires InBounds(fixups, data) && SlotsApart(fixups) && off + 8 <= |data|
    requires forall k :: k in order ==> k in fixups
    ensures ClearOf(fixups, off) ==> U64At(Patch(data, fixups, order), off) == U64At(data, off)
    ensures off in order && fixups[off].Rebase? ==> U64At(Patch(data, fixups, order), off) == fixups[off].va
    decreases |order|
  {
    hide U64At, Overwrite;
    if order != [] {
      var k, rest := order[0], Patch(data, fixups, order[1..]);
      PatchReads(data, fixups, order[1..], off);
      assert k in order;
      if fixups[k].Rebase? {
        OverwriteReads(rest, k, fixups[k].va, off);
        if off in order && off != k {
          assert off in order[1..];
        }
      }
    }
  }

  /**
   * Looking an address up in the index is reading the patched image at its offset: for a Rebase slot,
   * and for any other address clear of the Rebase slots. A Bind slot gives no value.
   */
  lemma ResolveIsPatchThenRead(fixups: FixupMap, file: MachoFile, order: seq<u64>, vaddr: u64)
    requires InBounds(fixups, file.data) && SlotsApart(fixups)
    requires forall k :: k in order <==> k in fixups
    requires Offset(file, vaddr).Ok?
    ensures var off := Offset(file, vaddr).value;
      if off in fixups && fixups[off].Bind? then ResolveVaddr(fixups, file, vaddr) == Ok(None)
      else off in fixups || ClearOf(fixups, off) ==>
        ResolveVaddr(fixups, file, vaddr)
        == if off + 8 <= |file.data| then Ok(Some(U64At(Patch(file.data, fixups, order), off)))
           else Err(Truncated("vaddr read"))
  {
    hide U64At, Patch, Offset, ClearOf;
    var off := Offset(file, vaddr).value;
    if off + 8 <= |file.data| {
      PatchReads(file.data, fixups, order, off);
    }
  }

  /** The same slots of the same kinds, with any targets. */
  predicate Retargets(g: FixupMap, fixups: FixupMap) {
    g.Keys == fixups.Keys && forall k :: k in fixups ==> (g[k].Rebase? <==> fixups[k].Rebase?)
  }

  /** Whatever the slots hold, looking up `vaddr` reads the patched image. */
  ghost predicate LookupReadsPatched(fixups: FixupMap, file: MachoFile, order: seq<u64>, vaddr: u64)
    requires Offset(file, vaddr).Ok? && Offset(file, vaddr).value + 8 <= |file.data|
    requires InBounds(fixups, file.data) && forall k :: k in order <==> k in fixups
  {
    forall g :: Retargets(g, fixups) ==>
      ResolveVaddr(g, file, vaddr) == Ok(Some(U64At(Patch(file.data, g, order), Offset(file, vaddr).value)))
  }

  /** A read that straddles a Rebase slot sees the unpatched bytes, and some target would show the difference. */
  lemma StraddlingReadDiffers(fixups: FixupMap, data: Bytes, order: seq<u64>, off: u64, k: u64) returns (g: FixupMap)
    requires InBounds(fixups, data) && SlotsApart(fixups) && off + 8 <= |data|
    requires forall x :: x in order <==> x in fixups
    requires k in fixups && fixups[k].Rebase? && off < k + 8 && k < off + 8
    ensures Retargets(g, fixups) && InBounds(g, data)
    ensures U64At(Patch(data, g, order), off) != U64At(data, off)
  {
    hide U64At, Le64, Patch;
    var at := if off < k then k else off;
    var fill := if data[at] == 0 then TWO_64 - 1 else 0;
    g := fixups[k := Rebase(fill)];
    var r := Patch(data, g, order);
    PatchReads(data, g, order, k);
    AllBytesAlike(r, k, at - k);
    if U64At(r, off) == U64At(data, off) {
      SameWordSameBytes(r, data, off, at - off);
    }
  }

  lemma AllBytesAlike(d: Bytes, o: nat, i: nat)
    requires o + 8 <= |d| && i < 8
    ensures U64At(d, o) == 0 ==> d[o + i] == 0
    ensures U64At(d, o) == TWO_64 - 1 ==> d[o + i] == 0xff
  {
  }

  lemma SameHalves(a: Bytes, b: Bytes, o: nat)
    requires o + 8 <= |a| && o + 8 <= |b| && U64At(a, o) == U64At(b, o)
    ensures U32At(a, o) == U32At(b, o) && U32At(a, o + 4) == U32At(b, o + 4)
  {
    hide U32At;
  }

  lemma SameWordSameBytes(a: Bytes, b: Bytes, o: nat, i: nat)
    requires o + 8 <= |a| && o + 8 <= |b| && i < 8 && U64At(a, o) == U64At(b, o)
    ensures a[o + i] == b[o + i]
  {
    hide U32At, U64At;
    SameHalves(a, b, o);
    SameQuarters(a, b, o);
    SameQuarters(a, b, o + 4);
    if i < 4 {
      assert a[o + i] == a[o..o + 4][i];
      assert b[o + i] == b[o..o + 4][i];
    } else {
      assert a[o + i] == a[o + 4..o + 8][i - 4];
      assert b[o + i] == b[o + 4..o + 8][i - 4];
    }
  }

  /**
   * An address whose eight bytes lie in the file resolves, whatever the targets, to what the patched image
   * holds there exactly when it is a Rebase slot or its bytes are clear of every Rebase slot and no Bind slot.
   */
  lemma ResolvesExactlyWhenClear(fixups: FixupMap, file: MachoFile, order: seq<u64>, vaddr: u64)
    requires InBounds(fixups, file.data) && SlotsApart(fixups)
    requires forall k :: k in order <==> k in fixups
    requires Offset(file, vaddr).Ok? && Offset(file, vaddr).value + 8 <= |file.data|
    ensures var off := Offset(file, vaddr).value;
      LookupReadsPatched(fixups, file, order, vaddr) <==> if off in fixups then fixups[off].Rebase? else ClearOf(fixups, off)
  {
    hide U64At, Patch, Offset, Segments;
    var off := Offset(file, vaddr).value;
    if (if off in fixups then fixups[off].Rebase? else ClearOf(fixups, off)) {
      forall g | Retargets(g, fixups)
        ensures ResolveVaddr(g, file, vaddr) == Ok(Some(U64At(Patch(file.data, g, order), off)))
      {
        ResolveIsPatchThenRead(g, file, order, vaddr);
      }
    } else if off in fixups {
      assert Retargets(fixups, fixups);
      assert ResolveVaddr(fixups, file, vaddr) == Ok(None);
    } else {
      var k :| k in fixups && fixups[k].Rebase? && off < k + 8 && k < off + 8;
      var g := StraddlingReadDiffers(fixups, file.data, order, off, k);
      assert ResolveVaddr(g, file, vaddr) == Ok(Some(U64At(file.data, off)));
    }
  }
}
