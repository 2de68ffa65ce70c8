/** chained.rs: linked lists threaded through the pointers they describe, and the index made of them. */
module ChainedFixups {
  import opened Words
  import opened MachoError
  import opened Text
  import opened LoadCommands
  import opened CommandLookup
  import opened AddressMap

  const START_NONE := 0xffff
  const START_MULTI := 0x8000
  const PTR_ARM64E := 1
  const PTR_64 := 2
  const PTR_64_OFFSET := 6
  const PTR_ARM64E_KERNEL := 7
  const PTR_ARM64E_USERLAND := 9
  const PTR_ARM64E_USERLAND24 := 12
  const IMPORT := 1
  const IMPORT_ADDEND := 2
  const IMPORT_ADDEND64 := 3

  const BIT_24 := 0x100_0000
  const BIT_36 := 0x10_0000_0000
  const BIT_43 := 0x800_0000_0000
  const BIT_51 := 0x8_0000_0000_0000
  const BIT_56 := 0x100_0000_0000_0000
  const BIT_62 := 0x4000_0000_0000_0000
  const BIT_63 := 0x8000_0000_0000_0000

  datatype FixupTarget =
    | Rebase(va: u64)
    | Bind(ordinal: u32, addend: i64, name: Option<Str>)

  type FixupMap = map<u64, FixupTarget>

  /** Everything a walk reads besides the payload. */
  datatype Image = Image(data: Slice, base: u64, imports: seq<Option<Str>>)

  // ----- one pointer -----

  predicate IsArm64e(format: u16) {
    format == PTR_ARM64E || format == PTR_ARM64E_USERLAND || format == PTR_ARM64E_USERLAND24 || format == PTR_ARM64E_KERNEL
  }

  predicate IsGeneric64(format: u16) {
    format == PTR_64 || format == PTR_64_OFFSET
  }

  function PointerStride(format: u16): nat {
    if format == PTR_ARM64E || format == PTR_ARM64E_USERLAND || format == PTR_ARM64E_USERLAND24 then 8 else 4
  }

  /** The largest value of the `next` field. */
  function NextLimit(format: u16): nat {
    if IsArm64e(format) then 0x800 else 0x1000
  }

  function NextDelta(raw: u64, format: u16): nat {
    raw / BIT_51 % NextLimit(format)
  }

  function ImportName(imports: seq<Option<Str>>, ordinal: nat): Option<Str> {
    if ordinal < |imports| then imports[ordinal] else None
  }

  /** `(high8 << 56) | target`. */
  function Unpack(high8: nat, target: nat): (r: u64)
    requires high8 < 0x100 && target < BIT_56
    ensures r == high8 * BIT_56 + target
  {
    UnpackValue(high8, target);
    Or(target, Shl64(high8, 56))
  }

  lemma UnpackValue(high8: nat, target: nat)
    requires high8 < 0x100 && target < BIT_56
    ensures Or(target, Shl64(high8, 56)) == high8 * BIT_56 + target < TWO_64
  {
    hide Or, Shl64;
    Bit56();
    OrShifted(target, high8, 56);
    assert high8 * BIT_56 + target < TWO_64;
  }

  lemma Bit56()
    ensures Pow2(56) == BIT_56
  {
    Pow2Is64();
    Pow2Small();
    Pow2Add(56, 8);
  }

  function DecodePtr(raw: u64, format: u16, image: Image): Option<FixupTarget> {
    if IsGeneric64(format) then
      if raw / BIT_63 % 2 != 0 then
        var ordinal := raw % BIT_24;
        Some(Bind(ordinal, raw / BIT_24 % 0x100, ImportName(image.imports, ordinal)))
      else
        var unpacked := Unpack(raw / BIT_36 % 0x100, raw % BIT_36);
        Some(Rebase(if format == PTR_64 then unpacked else WrappingAdd(image.base, unpacked)))
    else if IsArm64e(format) then
      if raw / BIT_63 % 2 != 0 then None
      else if raw / BIT_62 % 2 != 0 then
        var ordinal := raw % 0x1_0000;
        Some(Bind(ordinal, 0, ImportName(image.imports, ordinal)))
      else
        var unpacked := Unpack(raw / BIT_43 % 0x100, raw % BIT_43);
        Some(Rebase(if format == PTR_ARM64E then unpacked else WrappingAdd(image.base, unpacked)))
    else None
  }

  // ----- one chain -----

  type Entry = (u64, FixupTarget)

  /** Where the pointer at `off` says the next one is. */
  function NextSlot(off: u64, raw: u64, format: u16): (r: nat)
    ensures NextDelta(raw, format) != 0 ==> off < r
    ensures r <= off + 0x8000
  {
    off + NextDelta(raw, format) * PointerStride(format)
  }

  /** The slots met from `off` on, in order; the walk ends at a zero `next` or outside the file. */
  function Walk(image: Image, off: u64, format: u16): seq<Entry>
    decreases if off + 8 > |image.data| then 0 else |image.data| - off
  {
    if off + 8 > |image.data| then []
    else
      var raw := U64At(image.data, off);
      var target := DecodePtr(raw, format, image);
      (if target.Some? then [(off, target.value)] else [])
      + (if NextDelta(raw, format) == 0 then [] else Walk(image, NextSlot(off, raw, format), format))
  }

  /** Inserting entries one after the other; a later one at the same offset replaces the earlier. */
  function Record(m: FixupMap, entries: seq<Entry>): FixupMap
    decreases |entries|
  {
    if entries == [] then m else Record(m[entries[0].0 := entries[0].1], entries[1..])
  }

  lemma {:induction false} RecordConcat(m: FixupMap, a: seq<Entry>, b: seq<Entry>)
    ensures Record(m, a + b) == Record(Record(m, a), b)
    decreases |a|
  {
    if a == [] {
      assert a + b == b;
    } else {
      assert (a + b)[1..] == a[1..] + b;
      RecordConcat(m[a[0].0 := a[0].1], a[1..], b);
    }
  }

  /** The inner loop: the chain that starts at `start`. */
  method WalkChain(image: Image, start: u64, format: u16, m0: FixupMap) returns (m: FixupMap)
    ensures m == Record(m0, Walk(image, start, format))
  {
    hide DecodePtr, NextDelta, NextSlot, U64At, Walk, Record;
    var chainOff: u64 := start;
    m := m0;
    while true
      invariant Record(m, Walk(image, chainOff, format)) == Record(m0, Walk(image, start, format))
      decreases if chainOff + 8 > |image.data| then 0 else 1 + |image.data| - chainOff
    {
      WalkOne(image, chainOff, format, m);
      if chainOff + 8 > |image.data| {
        break;
      }
      var raw := U64At(image.data, chainOff);
      var target := DecodePtr(raw, format, image);
      if target.Some? {
        m := m[chainOff := target.value];
      }
      var next := NextDelta(raw, format);
      if next == 0 {
        break;
      }
      chainOff := NextSlot(chainOff, raw, format);
    }
  }

  /** One turn of that loop. */
  lemma WalkOne(image: Image, off: u64, format: u16, m: FixupMap)
    ensures off + 8 > |image.data| ==> Record(m, Walk(image, off, format)) == m
    ensures off + 8 <= |image.data| ==>
      var raw := U64At(image.data, off);
      var target := DecodePtr(raw, format, image);
      var m' := if target.Some? then m[off := target.value] else m;
      && NextSlot(off, raw, format) < TWO_64
      && Record(m, Walk(image, off, format))
         == if NextDelta(raw, format) == 0 then m' else Record(m', Walk(image, NextSlot(off, raw, format), format))
  {
    hide DecodePtr, NextDelta, NextSlot, U64At;
    if off + 8 <= |image.data| {
      var raw := U64At(image.data, off);
      var target := DecodePtr(raw, format, image);
      var here := if target.Some? then [(off, target.value)] else [];
      var rest := if NextDelta(raw, format) == 0 then [] else Walk(image, NextSlot(off, raw, format), format);
      assert Walk(image, off, format) == here + rest;
      hide Walk;
      RecordConcat(m, here, rest);
    }
  }

  // ----- where chains start -----

  /** The overflow list at `index`: starts up to the one flagged last, or the end of the payload. */
  function OverflowStarts(payload: Bytes, pagesOff: nat, index: nat): seq<u16>
    decreases |payload| - index
  {
    if pagesOff + index * 2 + 2 > |payload| then []
    else
      var s := U16At(payload, pagesOff + index * 2);
      [s % START_MULTI] + (if s >= START_MULTI then [] else OverflowStarts(payload, pagesOff, index + 1))
  }

  function PageStarts(payload: Bytes, pagesOff: nat, page: nat): seq<u16>
    requires pagesOff + page * 2 + 2 <= |payload|
  {
    var start := U16At(payload, pagesOff + page * 2);
    if start == START_NONE then []
    else if start >= START_MULTI then OverflowStarts(payload, pagesOff, start % START_MULTI)
    else [start]
  }

  /** `dyld_chained_starts_in_segment`. */
  datatype SegmentStarts = SegmentStarts(pageSize: u16, format: u16, segmentOffset: u64, pagesOff: nat, pageCount: u16)

  /** The starts of segment `index`; nothing when it has none or does not fit the payload. */
  function SegmentInfo(payload: Bytes, startsOff: nat, index: nat): Option<SegmentStarts>
    requires startsOff + 4 + index * 4 + 4 <= |payload|
  {
    var infoOff := U32At(payload, startsOff + 4 + index * 4);
    var abs := startsOff + infoOff;
    if infoOff == 0 || abs + 22 > |payload| then None
    else
      var pageCount := U16At(payload, abs + 20);
      if abs + 22 + pageCount * 2 > |payload| then None
      else Some(SegmentStarts(U16At(payload, abs + 4), U16At(payload, abs + 6), U64At(payload, abs + 8), abs + 22, pageCount))
  }

  function ChainStart(seg: SegmentStarts, page: nat, s: u16): u64 {
    (seg.segmentOffset + page * seg.pageSize + s) % TWO_64
  }

  /** The chains of one page, one walk after the other. */
  function WalkAll(image: Image, seg: SegmentStarts, page: nat, starts: seq<u16>): seq<Entry> {
    if starts == [] then []
    else Walk(image, ChainStart(seg, page, starts[0]), seg.format) + WalkAll(image, seg, page, starts[1..])
  }

  /** The pages of a segment from `page` on. */
  function WalkPages(image: Image, payload: Bytes, seg: SegmentStarts, page: nat): seq<Entry>
    requires page <= seg.pageCount && seg.pagesOff + seg.pageCount * 2 <= |payload|
    decreases seg.pageCount - page
  {
    if page == seg.pageCount then []
    else WalkAll(image, seg, page, PageStarts(payload, seg.pagesOff, page)) + WalkPages(image, payload, seg, page + 1)
  }

  /** The segments from `index` on; a truncated offset table ends the list. */
  function WalkSegments(image: Image, payload: Bytes, startsOff: nat, index: nat, count: nat): seq<Entry>
    decreases count - index
  {
    if index >= count || startsOff + 4 + index * 4 + 4 > |payload| then []
    else
      var seg := SegmentInfo(payload, startsOff, index);
      (if seg.None? then [] else WalkPages(image, payload, seg.value, 0))
      + WalkSegments(image, payload, startsOff, index + 1, count)
  }

  // ----- the imports table -----

  function ImportEntrySize(format: u32): nat {
    if format == IMPORT then 4 else if format == IMPORT_ADDEND then 8 else if format == IMPORT_ADDEND64 then 16 else 0
  }

  function ImportAt(payload: Bytes, importsOff: nat, symbolsOff: nat, format: u32, i: nat): Option<Str> {
    var size := ImportEntrySize(format);
    var off := importsOff + i * size;
    if size == 0 || off + size > |payload| then None
    else CStrAt(payload, symbolsOff + (if size == 16 then U64At(payload, off) / TWO_32 else U32At(payload, off) / 0x200))
  }

  function Imports(payload: Bytes, importsOff: nat, symbolsOff: nat, count: nat, format: u32): seq<Option<Str>> {
    seq(count, i requires 0 <= i < count => ImportAt(payload, importsOff, symbolsOff, format, i))
  }

  method ParseImports(payload: Bytes, importsOff: nat, symbolsOff: nat, count: nat, format: u32)
    returns (names: seq<Option<Str>>)
    ensures names == Imports(payload, importsOff, symbolsOff, count, format)
  {
    hide CStrAt, U64At, U32At;
    var entrySize := ImportEntrySize(format);
    if entrySize == 0 {
      return seq(count, i => None);
    }
    names := [];
    for i := 0 to count
      invariant |names| == i
      invariant forall j :: 0 <= j < i ==> names[j] == ImportAt(payload, importsOff, symbolsOff, format, j)
    {
      var off := importsOff + i * entrySize;
      if off + entrySize > |payload| {
        names := names + [None];
        continue;
      }
      var nameOffset := if entrySize == 16 then U64At(payload, off) / TWO_32 else U32At(payload, off) / 0x200;
      names := names + [CStrAt(payload, symbolsOff + nameOffset)];
    }
  }

  // ----- `parse_chained_fixups` -----

  /** The header fields the parser uses. */
  datatype Header = Header(startsOff: u32, importsOff: u32, symbolsOff: u32, importsCount: u32, importsFormat: u32)

  function HeaderOf(payload: Bytes): Result<Header, Error> {
    if |payload| < 28 then Err(Truncated("chained fixups header"))
    else if U32At(payload, 0) != 0 then Err(Truncated("unsupported chained fixups version"))
    else Ok(Header(U32At(payload, 4), U32At(payload, 8), U32At(payload, 12), U32At(payload, 16), U32At(payload, 20)))
  }

  function ImageOf(file: MachoFile, payload: Bytes, h: Header, base: u64): Image {
    Image(file.data, base, Imports(payload, h.importsOff, h.symbolsOff, h.importsCount, h.importsFormat))
  }

  /** Every slot the parser meets, in the order it records them. */
  function Entries(file: MachoFile, payload: Bytes): Result<seq<Entry>, Error> {
    match HeaderOf(payload)
    case Err(e) => Err(e)
    case Ok(h) =>
      match ImageBase(file)
      case Err(e) => Err(e)
      case Ok(base) =>
        if h.startsOff + 4 > |payload| then Err(Truncated("chained starts"))
        else Ok(WalkSegments(ImageOf(file, payload, h, base), payload, h.startsOff, 0, U32At(payload, h.startsOff)))
  }

  /** The finished index. */
  function Index(file: MachoFile, payload: Bytes): Result<FixupMap, Error> {
    match Entries(file, payload)
    case Err(e) => Err(e)
    case Ok(entries) => Ok(Record(map[], entries))
  }

  method CollectStarts(payload: Bytes, pagesOff: nat, page: nat) returns (chainStarts: seq<u16>)
    requires pagesOff + page * 2 + 2 <= |payload|
    ensures chainStarts == PageStarts(payload, pagesOff, page)
  {
    hide U16At;
    var start := U16At(payload, pagesOff + page * 2);
    if start == START_NONE {
      return [];
    }
    if start >= START_MULTI {
      chainStarts := CollectOverflow(payload, pagesOff, start % START_MULTI);
    } else {
      chainStarts := [start];
    }
  }

  lemma OverflowStep(payload: Bytes, pagesOff: nat, index: nat)
    ensures OverflowStarts(payload, pagesOff, index) ==
      if pagesOff + index * 2 + 2 > |payload| then []
      else
        var s := U16At(payload, pagesOff + index * 2);
        if s >= START_MULTI then [s % START_MULTI]
        else [s % START_MULTI] + OverflowStarts(payload, pagesOff, index + 1)
  {
  }

  /** Word `index` of the table at `pagesOff`. */
  predicate InTable(payload: Bytes, pagesOff: nat, index: nat) {
    pagesOff + index * 2 + 2 <= |payload|
  }

  /** Start `s` is that word without its top bit, which is set on no word that has another behind it. */
  predicate ReadsStart(payload: Bytes, pagesOff: nat, index: nat, s: u16, another: bool) {
    && InTable(payload, pagesOff, index)
    && s == U16At(payload, pagesOff + index * 2) % START_MULTI
    && (another ==> U16At(payload, pagesOff + index * 2) < START_MULTI)
  }

  /**
   * The starts read from `index` on: no word but the last is flagged, and the list ends with a flagged word or
   * where the payload does.
   */
  predicate IsOverflowList(payload: Bytes, pagesOff: nat, index: nat, r: seq<u16>) {
    && (forall j :: 0 <= j < |r| ==> ReadsStart(payload, pagesOff, index + j, r[j], j < |r| - 1))
    && (InTable(payload, pagesOff, index + |r|) ==>
         r != [] && U16At(payload, pagesOff + (index + |r| - 1) * 2) >= START_MULTI)
  }

  lemma {:induction false} OverflowExact(payload: Bytes, pagesOff: nat, index: nat)
    ensures IsOverflowList(payload, pagesOff, index, OverflowStarts(payload, pagesOff, index))
    decreases |payload| - index
  {
    hide U16At, OverflowStarts, ReadsStart;
    OverflowStep(payload, pagesOff, index);
    if InTable(payload, pagesOff, index) {
      var s := U16At(payload, pagesOff + index * 2);
      StartIsWord(payload, pagesOff, index);
      if s < START_MULTI {
        OverflowExact(payload, pagesOff, index + 1);
        var rest, r := OverflowStarts(payload, pagesOff, index + 1), OverflowStarts(payload, pagesOff, index);
        forall j | 0 <= j < |r| ensures ReadsStart(payload, pagesOff, index + j, r[j], j < |r| - 1) {
          if j > 0 {
            assert ReadsStart(payload, pagesOff, index + 1 + (j - 1), rest[j - 1], j - 1 < |rest| - 1);
          }
        }
      }
    }
  }

  lemma StartIsWord(payload: Bytes, pagesOff: nat, index: nat)
    requires InTable(payload, pagesOff, index)
    ensures var w := U16At(payload, pagesOff + index * 2);
      ReadsStart(payload, pagesOff, index, w % START_MULTI, w < START_MULTI)
      && ReadsStart(payload, pagesOff, index, w % START_MULTI, false)
  {
  }

  /** The loop of a multi-start page. */
  method CollectOverflow(payload: Bytes, pagesOff: nat, first: nat) returns (chainStarts: seq<u16>)
    ensures chainStarts == OverflowStarts(payload, pagesOff, first)
    ensures IsOverflowList(payload, pagesOff, first, chainStarts)
  {
    OverflowExact(payload, pagesOff, first);
    hide U16At, OverflowStarts, IsOverflowList;
    var index: nat := first;
    chainStarts := [];
    ghost var all := OverflowStarts(payload, pagesOff, first);
    assert [] + all == all;
    while true
      invariant chainStarts + OverflowStarts(payload, pagesOff, index) == all
      decreases |payload| - index
    {
      OverflowStep(payload, pagesOff, index);
      if pagesOff + index * 2 + 2 > |payload| {
        assert chainStarts + [] == chainStarts;
        return;
      }
      var s := U16At(payload, pagesOff + index * 2);
      ghost var rest := OverflowStarts(payload, pagesOff, index + 1);
      assert chainStarts + ([s % START_MULTI] + rest) == (chainStarts + [s % START_MULTI]) + rest;
      chainStarts := chainStarts + [s % START_MULTI];
      if s >= START_MULTI {
        return;
      }
      index := index + 1;
    }
  }

  method WalkPage(image: Image, payload: Bytes, seg: SegmentStarts, page: nat, m0: FixupMap) returns (m: FixupMap)
    requires page < seg.pageCount && seg.pagesOff + seg.pageCount * 2 <= |payload|
    ensures m == Record(m0, WalkAll(image, seg, page, PageStarts(payload, seg.pagesOff, page)))
  {
    hide Walk, PageStarts, ChainStart;
    m := m0;
    var starts := CollectStarts(payload, seg.pagesOff, page);
    ghost var all := Record(m0, WalkAll(image, seg, page, starts));
    assert starts[0..] == starts;
    for i := 0 to |starts|
      invariant all == Record(m, WalkAll(image, seg, page, starts[i..]))
    {
      var chainOff := ChainStart(seg, page, starts[i]);
      RecordConcat(m, Walk(image, chainOff, seg.format), WalkAll(image, seg, page, starts[i + 1..]));
      assert starts[i..][1..] == starts[i + 1..];
      m := WalkChain(image, chainOff, seg.format, m);
    }
  }

  method ParseChainedFixups(file: MachoFile, payload: Bytes) returns (r: Result<FixupMap, Error>)
    ensures r == Index(file, payload)
  {
    hide ImageBase, Imports, WalkAll, PageStarts, Record, SegmentInfo;
    var header := HeaderOf(payload);
    if header.Err? {
      return Err(header.error);
    }
    var h := header.value;
    var base := PreferredLoadAddress(file);
    if base.Err? {
      return Err(base.error);
    }
    var names := ParseImports(payload, h.importsOff, h.symbolsOff, h.importsCount, h.importsFormat);
    var image := Image(file.data, base.value, names);
    if h.startsOff + 4 > |payload| {
      return Err(Truncated("chained starts"));
    }
    var segCount := U32At(payload, h.startsOff);
    var m := WalkStarts(image, payload, h.startsOff, segCount);
    return Ok(m);
  }

  /** The segment loop and, inside it, the page loop. */
  method WalkStarts(image: Image, payload: Bytes, startsOff: nat, segCount: nat) returns (m: FixupMap)
    ensures m == Record(map[], WalkSegments(image, payload, startsOff, 0, segCount))
  {
    hide WalkAll, PageStarts, U16At, U32At;
    m := map[];
    ghost var all := Record(map[], WalkSegments(image, payload, startsOff, 0, segCount));
    for index := 0 to segCount
      invariant all == Record(m, WalkSegments(image, payload, startsOff, index, segCount))
    {
      if startsOff + 4 + index * 4 + 4 > |payload| {
        break;
      }
      ghost var rest := WalkSegments(image, payload, startsOff, index + 1, segCount);
      var info := SegmentInfo(payload, startsOff, index);
      if info.None? {
        assert [] + rest == rest;
        continue;
      }
      RecordConcat(m, WalkPages(image, payload, info.value, 0), rest);
      m := WalkSegment(image, payload, info.value, m);
    }
  }

  method WalkSegment(image: Image, payload: Bytes, seg: SegmentStarts, m0: FixupMap) returns (m: FixupMap)
    requires seg.pagesOff + seg.pageCount * 2 <= |payload|
    ensures m == Record(m0, WalkPages(image, payload, seg, 0))
  {
    hide WalkAll, PageStarts, U16At;
    m := m0;
    ghost var all := Record(m0, WalkPages(image, payload, seg, 0));
    for page := 0 to seg.pageCount
      invariant all == Record(m, WalkPages(image, payload, seg, page))
    {
      RecordConcat(m, WalkAll(image, seg, page, PageStarts(payload, seg.pagesOff, page)), WalkPages(image, payload, seg, page + 1));
      m := WalkPage(image, payload, seg, page, m);
    }
  }

  // ----- `chained_fixups` -----

  /** The index of an image; an image without the command has none, but must have a readable base. */
  function IndexOf(file: MachoFile): Result<FixupMap, Error> {
    match PayloadOf(file, LC_DYLD_CHAINED_FIXUPS)
    case Err(e) => Err(e)
    case Ok(Some(payload)) => Index(file, payload)
    case Ok(None) =>
      match ImageBase(file)
      case Err(e) => Err(e)
      case Ok(_) => Ok(map[])
  }

  method Load(file: MachoFile) returns (r: Result<FixupMap, Error>)
    ensures r == IndexOf(file)
  {
    hide PayloadOf, Index, ImageBase, IsPreferred;
    var payload := FindPayload(file, LC_DYLD_CHAINED_FIXUPS);
    match payload {
      case Err(e) => return Err(e);
      case Ok(Some(data)) => r := ParseChainedFixups(file, data);
      case Ok(None) =>
        var base := PreferredLoadAddress(file);
        if base.Err? {
          return Err(base.error);
        }
        return Ok(map[]);
    }
  }
}
