/** Chained-fixup payloads laid out byte by byte: the parser's index of an image is what they describe. */
module FixupPayload {
  import opened Words
  import opened MachoError
  import opened Text
  import opened LoadCommands
  import opened CommandLookup
  import opened AddressMap
  import opened ChainedFixups
  import opened FixupProofs
  import opened Packed
  import opened Layouts

  // ----- the starts of a page -----

  datatype Listing =
    | NoStarts
    | OneStart(start: u16)
    | ManyStarts(index: nat, starts: seq<u16>)

  predicate SmallStarts(starts: seq<u16>) {
    forall i :: 0 <= i < |starts| ==> starts[i] < 0x8000
  }

  predicate GoodListing(l: Listing) {
    match l
    case NoStarts => true
    case OneStart(start) => start < 0x8000
    case ManyStarts(index, starts) => index < 0x7fff && starts != [] && SmallStarts(starts)
  }

  function PageWord(l: Listing): u16
    requires GoodListing(l)
  {
    match l
    case NoStarts => 0xffff
    case OneStart(start) => start
    case ManyStarts(index, _) => 0x8000 + index
  }

  /** The overflow words of a page: its starts, the last one flagged. */
  function OverflowWords(starts: seq<u16>): seq<u16>
    requires SmallStarts(starts)
  {
    if starts == [] then []
    else
      var word: u16 := if |starts| == 1 then starts[0] + 0x8000 else starts[0];
      [word] + OverflowWords(starts[1..])
  }

  function StartsOf(l: Listing): seq<u16> {
    match l
    case NoStarts => []
    case OneStart(start) => [start]
    case ManyStarts(_, starts) => starts
  }

  function Halves(words: seq<u16>): Bytes {
    if words == [] then [] else Le16(words[0]) + Halves(words[1..])
  }

  /** The page's word stands in the page table, its overflow words behind the index that word names. */
  predicate ListingLaid(payload: Bytes, pagesOff: nat, page: nat, l: Listing) {
    && GoodListing(l)
    && At(payload, pagesOff + page * 2, Le16(PageWord(l)))
    && (l.ManyStarts? ==> At(payload, pagesOff + l.index * 2, Halves(OverflowWords(l.starts))))
  }

  lemma {:induction false} OverflowRead(payload: Bytes, pagesOff: nat, index: nat, starts: seq<u16>)
    requires starts != [] && SmallStarts(starts)
    requires At(payload, pagesOff + index * 2, Halves(OverflowWords(starts)))
    ensures OverflowStarts(payload, pagesOff, index) == starts
    decreases |starts|
  {
    hide U16At, Le16, At, OverflowStarts;
    var words, off := OverflowWords(starts), pagesOff + index * 2;
    AtSplits(payload, off, Le16(words[0]), Halves(words[1..]));
    EncodedReads(payload, off, Half(words[0]));
    OverflowStep(payload, pagesOff, index);
    if |starts| > 1 {
      assert words[1..] == OverflowWords(starts[1..]);
      OverflowRead(payload, pagesOff, index + 1, starts[1..]);
    }
  }

  /** The parser reads back the listed starts. */
  lemma ListingRead(payload: Bytes, pagesOff: nat, page: nat, l: Listing)
    requires pagesOff + page * 2 + 2 <= |payload| && ListingLaid(payload, pagesOff, page, l)
    ensures PageStarts(payload, pagesOff, page) == StartsOf(l)
  {
    hide U16At, Le16, At, OverflowStarts, OverflowWords, Halves;
    EncodedReads(payload, pagesOff + page * 2, Half(PageWord(l)));
    if l.ManyStarts? {
      OverflowRead(payload, pagesOff, l.index, l.starts);
    }
  }

  // ----- the imports -----

  datatype Import = Import(ordinal: nat, weak: bool, nameOffset: nat, addend: nat, name: Str)

  predicate GoodImport(i: Import, format: u32) {
    && NulFree(i.name)
    && match format
       case 1 => i.ordinal < 0x100 && i.nameOffset < 0x80_0000
       case 2 => i.ordinal < 0x100 && i.nameOffset < 0x80_0000 && i.addend < TWO_32
       case 3 => i.ordinal < 0x1_0000 && i.nameOffset < TWO_32 && i.addend < TWO_64
       case _ => false
  }

  function NarrowImport(i: Import): u32
    requires i.ordinal < 0x100 && i.nameOffset < 0x80_0000
  {
    i.ordinal + (if i.weak then 0x100 else 0) + i.nameOffset * 0x200
  }

  function WideImport(i: Import): u64
    requires i.ordinal < 0x1_0000 && i.nameOffset < TWO_32
  {
    i.ordinal + (if i.weak then 0x1_0000 else 0) + i.nameOffset * TWO_32
  }

  function ImportFields(i: Import, format: u32): seq<Field>
    requires GoodImport(i, format)
  {
    if format == 1 then [Word(NarrowImport(i))]
    else if format == 2 then [Word(NarrowImport(i)), Word(i.addend)]
    else [Long(WideImport(i)), Long(i.addend)]
  }

  /** The size of an import record. */
  function RecordSize(format: u32): nat {
    if format == 1 then 4 else if format == 2 then 8 else if format == 3 then 16 else 0
  }

  predicate ImportLaid(payload: Bytes, h: Header, k: nat, i: Import) {
    && GoodImport(i, h.importsFormat)
    && At(payload, h.importsOff + k * RecordSize(h.importsFormat), Struct(ImportFields(i, h.importsFormat)))
    && At(payload, h.symbolsOff + i.nameOffset, i.name + [0])
  }

  predicate ImportsLaid(payload: Bytes, h: Header, imports: seq<Import>) {
    |imports| == h.importsCount && forall k :: 0 <= k < |imports| ==> ImportLaid(payload, h, k, imports[k])
  }

  function NamesOf(imports: seq<Import>): seq<Option<Str>> {
    seq(|imports|, k requires 0 <= k < |imports| => Some(imports[k].name))
  }

  lemma NameOffsetFields(i: Import)
    ensures i.ordinal < 0x100 && i.nameOffset < 0x80_0000 ==> NarrowImport(i) / 0x200 == i.nameOffset
    ensures i.ordinal < 0x1_0000 && i.nameOffset < TWO_32 ==> WideImport(i) / TWO_32 == i.nameOffset
  {
  }

  lemma CStrStands(data: Bytes, off: nat, name: Str)
    requires NulFree(name) && At(data, off, name + [0])
    ensures CStrAt(data, off) == Some(name)
  {
    hide NulAt, ValidUtf8;
    var rest := data[off..];
    assert rest == name + [0] + data[off + |name| + 1..];
    assert rest[..|name|] == name;
    NulAtIs(rest, |name|);
  }

  /** The first field of an import holds its name offset. */
  lemma NameOffsetRead(payload: Bytes, off: nat, i: Import, format: u32)
    requires GoodImport(i, format) && At(payload, off, Struct(ImportFields(i, format)))
    ensures off + RecordSize(format) <= |payload|
    ensures i.nameOffset
         == if format == 3 then U64At(payload, off) / TWO_32 else U32At(payload, off) / 0x200
  {
    hide U32At, U64At, At, Struct, NarrowImport, WideImport, ValidUtf8;
    var fields := ImportFields(i, format);
    NameOffsetFields(i);
    FieldReads(payload, off, fields, 0);
    StructFits(payload, off, fields);
  }

  lemma ImportRead(payload: Bytes, h: Header, k: nat, i: Import)
    requires ImportLaid(payload, h, k, i)
    ensures ImportAt(payload, h.importsOff, h.symbolsOff, h.importsFormat, k) == Some(i.name)
  {
    hide U32At, U64At, CStrAt, At, Struct, ImportFields, ValidUtf8;
    NameOffsetRead(payload, h.importsOff + k * RecordSize(h.importsFormat), i, h.importsFormat);
    CStrStands(payload, h.symbolsOff + i.nameOffset, i.name);
  }

  lemma ImportsRead(payload: Bytes, h: Header, imports: seq<Import>)
    requires ImportsLaid(payload, h, imports)
    ensures Imports(payload, h.importsOff, h.symbolsOff, h.importsCount, h.importsFormat) == NamesOf(imports)
  {
    hide ImportAt, ImportLaid;
    forall k | 0 <= k < |imports|
      ensures ImportAt(payload, h.importsOff, h.symbolsOff, h.importsFormat, k) == Some(imports[k].name)
    {
      ImportRead(payload, h, k, imports[k]);
    }
  }

  /** An import whose record leaves the payload has no name, and none has one in another format. */
  lemma NamelessImports(payload: Bytes, importsOff: nat, symbolsOff: nat, count: nat, format: u32, k: nat)
    requires k < count && (RecordSize(format) == 0 || importsOff + (k + 1) * RecordSize(format) > |payload|)
    ensures Imports(payload, importsOff, symbolsOff, count, format)[k] == None
  {
    hide CStrAt, U32At, U64At;
    var size := RecordSize(format);
    assert importsOff + (k + 1) * size == importsOff + k * size + size;
    assert ImportEntrySize(format) == size;
  }

  // ----- segments -----

  /** A page: how its starts are listed, and the chains behind them. */
  datatype Page = Page(listing: Listing, chains: seq<Chain>)

  /** A segment's starts record, the two of its fields the parser ignores, and its pages. */
  datatype Part = Part(starts: SegmentStarts, size: u32, maxPointer: u32, pages: seq<Page>)

  predicate PagesLaid(payload: Bytes, part: Part) {
    && |part.pages| == part.starts.pageCount
    && part.starts.pagesOff + part.starts.pageCount * 2 <= |payload|
    && forall p :: 0 <= p < |part.pages| ==>
         && ListingLaid(payload, part.starts.pagesOff, p, part.pages[p].listing)
         && HeadsOf(StartsOf(part.pages[p].listing), part.starts, p, part.pages[p].chains)
  }

  /** A zero in the offset table, or the offset of the starts record with the page table behind it. */
  predicate PartLaid(payload: Bytes, startsOff: nat, index: nat, part: Option<Part>) {
    match part
    case None => At(payload, startsOff + 4 + index * 4, Le32(0))
    case Some(p) =>
      && p.starts.pagesOff >= startsOff + 23
      && p.starts.pagesOff - 22 - startsOff < TWO_32
      && At(payload, startsOff + 4 + index * 4, Le32(p.starts.pagesOff - 22 - startsOff))
      && At(payload, p.starts.pagesOff - 22, Struct(StartsFields(p.size, p.starts, p.maxPointer)))
      && PagesLaid(payload, p)
  }

  datatype Plan = Plan(header: Header, symbolsFormat: u32, imports: seq<Import>, parts: seq<Option<Part>>)

  function HeaderFields(p: Plan): seq<Field> {
    var h := p.header;
    [Word(0), Word(h.startsOff), Word(h.importsOff), Word(h.symbolsOff), Word(h.importsCount), Word(h.importsFormat),
     Word(p.symbolsFormat)]
  }

  /** The payload spells the plan: header, imports, segment count, offset table, starts records and page tables. */
  predicate PayloadLaid(payload: Bytes, plan: Plan) {
    && At(payload, 0, Struct(HeaderFields(plan)))
    && ImportsLaid(payload, plan.header, plan.imports)
    && |plan.parts| < TWO_32
    && At(payload, plan.header.startsOff, Le32(|plan.parts|))
    && forall i :: 0 <= i < |plan.parts| ==> PartLaid(payload, plan.header.startsOff, i, plan.parts[i])
  }

  function ChainsOf(pages: seq<Page>): seq<Chain> {
    if pages == [] then [] else pages[0].chains + ChainsOf(pages[1..])
  }

  /** All the chains of the plan, in the order of its segments, pages and starts. */
  function AllChains(parts: seq<Option<Part>>): seq<Chain> {
    if parts == [] then []
    else (if parts[0].None? then [] else ChainsOf(parts[0].value.pages)) + AllChains(parts[1..])
  }

  lemma {:induction false} RecordedConcat(a: seq<Chain>, b: seq<Chain>, image: Image)
    ensures AllRecorded(a + b, image) == AllRecorded(a, image) + AllRecorded(b, image)
  {
    hide Recorded;
    if a == [] {
      assert a + b == b;
    } else {
      assert (a + b)[0] == a[0] && (a + b)[1..] == a[1..] + b;
      RecordedConcat(a[1..], b, image);
    }
  }

  lemma {:induction false} PagesRoundTrip(image: Image, payload: Bytes, part: Part, page: nat)
    requires page <= part.starts.pageCount && PagesLaid(payload, part)
    requires forall c :: c in ChainsOf(part.pages[page..]) ==> Stands(c, image)
    ensures WalkPages(image, payload, part.starts, page) == AllRecorded(ChainsOf(part.pages[page..]), image)
    decreases part.starts.pageCount - page
  {
    hide WalkAll, PageStarts, AllRecorded, HeadsOf, Stands, ListingLaid, StartsOf;
    if page < part.starts.pageCount {
      var p, rest := part.pages[page], ChainsOf(part.pages[page + 1..]);
      assert part.pages[page..][0] == p && part.pages[page..][1..] == part.pages[page + 1..];
      assert ChainsOf(part.pages[page..]) == p.chains + rest;
      ListingRead(payload, part.starts.pagesOff, page, p.listing);
      PageRoundTrip(image, part.starts, page, StartsOf(p.listing), p.chains);
      PagesRoundTrip(image, payload, part, page + 1);
      RecordedConcat(p.chains, rest, image);
    } else {
      NoChains(image);
    }
  }

  lemma NoChains(image: Image)
    ensures AllRecorded([], image) == []
  {
  }

  lemma PartRead(payload: Bytes, startsOff: nat, index: nat, part: Option<Part>)
    requires PartLaid(payload, startsOff, index, part)
    ensures startsOff + 4 + index * 4 + 4 <= |payload|
    ensures SegmentInfo(payload, startsOff, index) == if part.None? then None else Some(part.value.starts)
  {
    hide U32At, Le32, Struct, At, SegmentInfo, PagesLaid;
    var slot := startsOff + 4 + index * 4;
    match part {
      case None =>
        EncodedReads(payload, slot, Word(0));
        NoInfo(payload, startsOff, index);
      case Some(p) =>
        EncodedReads(payload, slot, Word(p.starts.pagesOff - 22 - startsOff));
        PageTableFits(payload, p);
        StartsLayout(payload, startsOff, index, p.size, p.starts, p.maxPointer);
    }
  }

  lemma PageTableFits(payload: Bytes, part: Part)
    requires PagesLaid(payload, part)
    ensures part.starts.pagesOff + part.starts.pageCount * 2 <= |payload|
  {
  }

  lemma NoInfo(payload: Bytes, startsOff: nat, index: nat)
    requires startsOff + 4 + index * 4 + 4 <= |payload| && U32At(payload, startsOff + 4 + index * 4) == 0
    ensures SegmentInfo(payload, startsOff, index) == None
  {
  }

  lemma {:induction false} PartsRoundTrip(image: Image, payload: Bytes, startsOff: nat, parts: seq<Option<Part>>, index: nat)
    requires index <= |parts|
    requires forall i :: 0 <= i < |parts| ==> PartLaid(payload, startsOff, i, parts[i])
    requires forall c :: c in AllChains(parts[index..]) ==> Stands(c, image)
    ensures WalkSegments(image, payload, startsOff, index, |parts|) == AllRecorded(AllChains(parts[index..]), image)
    decreases |parts| - index
  {
    hide WalkPages, SegmentInfo, AllRecorded, Stands, ChainsOf;
    if index < |parts| {
      var part, rest := parts[index], AllChains(parts[index + 1..]);
      assert parts[index..][0] == part && parts[index..][1..] == parts[index + 1..];
      PartRead(payload, startsOff, index, part);
      if part.Some? {
        var pages := part.value.pages;
        assert pages[0..] == pages;
        PagesRoundTrip(image, payload, part.value, 0);
        RecordedConcat(ChainsOf(pages), rest, image);
      } else {
        RecordedConcat([], rest, image);
        NoChains(image);
      }
      PartsRoundTrip(image, payload, startsOff, parts, index + 1);
    } else {
      NoChains(image);
    }
  }

  lemma HeaderRead(payload: Bytes, plan: Plan)
    requires At(payload, 0, Struct(HeaderFields(plan)))
    ensures HeaderOf(payload) == Ok(plan.header)
  {
    hide U32At, Struct, At, Start;
    var f := HeaderFields(plan);
    HeaderStarts(plan);
    forall k | 0 <= k < 7 ensures Reads(payload, Start(f, k), f[k]) {
      FieldReads(payload, 0, f, k);
    }
    assert Reads(payload, 0, f[0]) && Reads(payload, 4, f[1]) && Reads(payload, 8, f[2]) && Reads(payload, 12, f[3]);
    assert Reads(payload, 16, f[4]) && Reads(payload, 20, f[5]) && Reads(payload, 24, f[6]);
  }

  lemma HeaderStarts(plan: Plan)
    ensures forall k :: 0 <= k < 7 ==> Start(HeaderFields(plan), k) == 4 * k
  {
    var f := HeaderFields(plan);
    forall k | 0 <= k < 7 ensures Start(f, k) == 4 * k {
      WordStarts(f, k);
    }
  }

  // ----- the whole index -----

  /** The image the plan is about. */
  function PlannedImage(file: MachoFile, base: u64, plan: Plan): Image {
    Image(file.data, base, NamesOf(plan.imports))
  }

  /** The payload spells the plan, and the plan's chains stand in the file. */
  predicate Described(file: MachoFile, payload: Bytes, base: u64, plan: Plan) {
    && ImageBase(file) == Ok(base)
    && PayloadLaid(payload, plan)
    && forall c :: c in AllChains(plan.parts) ==> Stands(c, PlannedImage(file, base, plan))
  }

  /** The parser's index of an image is made of exactly the slots of the plan, with the plan's targets and names. */
  lemma IndexRoundTrip(file: MachoFile, payload: Bytes, base: u64, plan: Plan)
    requires Described(file, payload, base, plan)
    ensures Index(file, payload) == Ok(Record(map[], AllRecorded(AllChains(plan.parts), PlannedImage(file, base, plan))))
  {
    hide Record, AllRecorded, AllChains, ImageBase, HeaderOf, Imports, ImportsLaid, PartLaid, Stands, WalkSegments,
      NamesOf, U32At, At, Struct, Le32;
    var image, h := PlannedImage(file, base, plan), plan.header;
    HeaderRead(payload, plan);
    ImportsRead(payload, h, plan.imports);
    EncodedReads(payload, h.startsOff, Word(|plan.parts|));
    assert plan.parts[0..] == plan.parts;
    PartsRoundTrip(image, payload, h.startsOff, plan.parts, 0);
  }

  /**
   * The same for an image of sound commands whose first chained-fixups command names a payload in the file that spells
   * the plan.
   */
  lemma ImageRoundTrip(file: MachoFile, bodies: seq<Bytes>, i: nat, base: u64, plan: Plan)
    requires WholeImage(file, bodies) && i < |bodies| && NoneOfKind(bodies, i, 0x8000_0034)
    requires OfKind(bodies[i], 0x8000_0034) && |bodies[i]| >= 16
    requires U32At(bodies[i], 8) + U32At(bodies[i], 12) <= |file.data|
    requires Described(file, file.data[U32At(bodies[i], 8)..U32At(bodies[i], 8) + U32At(bodies[i], 12)], base, plan)
    ensures IndexOf(file) == Ok(Record(map[], AllRecorded(AllChains(plan.parts), PlannedImage(file, base, plan))))
  {
    hide WholeImage, PayloadOf, U32At, OfKind, NoneOfKind, Described, Index, Record, AllRecorded, AllChains;
    PayloadInImage(file, bodies, 0x8000_0034, i);
    IndexRoundTrip(file, file.data[U32At(bodies[i], 8)..U32At(bodies[i], 8) + U32At(bodies[i], 12)], base, plan);
  }

  // ----- what the parser refuses or skips -----

  /** The payload is refused for a short header, another version, an unreadable segment, or starts outside it. */
  lemma IndexErrors(file: MachoFile, payload: Bytes)
    ensures var r := Index(file, payload);
      if |payload| < 28 then r == Err(Truncated("chained fixups header"))
      else if U32At(payload, 0) != 0 then r == Err(Truncated("unsupported chained fixups version"))
      else if ImageBase(file).Err? then r == Err(ImageBase(file).error)
      else if U32At(payload, 4) + 4 > |payload| then r == Err(Truncated("chained starts"))
      else r.Ok?
  {
    hide U32At, ImageBase, Imports, WalkSegments, Record;
  }

  /**
   * A segment adds nothing when its table entry is zero or its starts record or page table leaves the payload;
   * an entry outside the payload ends the list of segments.
   */
  lemma SegmentsSkipped(image: Image, payload: Bytes, startsOff: nat, index: nat, count: nat)
    requires index < count
    ensures var slot := startsOff + 4 + 4 * index; var rest := WalkSegments(image, payload, startsOff, index + 1, count);
      if slot + 4 > |payload| then WalkSegments(image, payload, startsOff, index, count) == []
      else
        var at := startsOff + U32At(payload, slot);
        at == startsOff || at + 22 > |payload| || at + 22 + 2 * U16At(payload, at + 20) > |payload| ==>
          WalkSegments(image, payload, startsOff, index, count) == rest
  {
    hide U32At, U16At, WalkPages;
    var rest := WalkSegments(image, payload, startsOff, index + 1, count);
    assert [] + rest == rest;
  }

  // ----- lookups in the parser's own index -----

  function SlotsOf(chains: seq<Chain>): seq<Slot> {
    if chains == [] then [] else chains[0].slots + SlotsOf(chains[1..])
  }

  /** All slots of the chains, of one chain or of different ones, are at least eight bytes apart. */
  predicate Spaced(chains: seq<Chain>) {
    forall s, t :: s in SlotsOf(chains) && t in SlotsOf(chains) && s.off < t.off ==> s.off + 8 <= t.off
  }

  lemma {:induction false} RecordedFromSlots(slots: seq<Slot>, image: Image, e: Entry)
    requires e in Recorded(slots, image)
    ensures exists s :: s in slots && s.off == e.0
  {
    hide TargetOf;
    if !(e in Recorded(slots[1..], image)) {
      assert slots[0] in slots && slots[0].off == e.0;
    } else {
      RecordedFromSlots(slots[1..], image, e);
      var s :| s in slots[1..] && s.off == e.0;
      assert s in slots;
    }
  }

  lemma {:induction false} AllRecordedFromSlots(chains: seq<Chain>, image: Image, e: Entry)
    requires e in AllRecorded(chains, image)
    ensures exists s :: s in SlotsOf(chains) && s.off == e.0
  {
    hide Recorded;
    if e in Recorded(chains[0].slots, image) {
      RecordedFromSlots(chains[0].slots, image, e);
    } else {
      AllRecordedFromSlots(chains[1..], image, e);
    }
  }

  /** The parser's index of any payload stays inside the file, and that of spaced chains never overlaps. */
  lemma IndexIsSafe(file: MachoFile, payload: Bytes, base: u64, plan: Plan)
    requires Described(file, payload, base, plan) && Spaced(AllChains(plan.parts))
    ensures Index(file, payload).Ok?
    ensures InBounds(Index(file, payload).value, file.data) && SlotsApart(Index(file, payload).value)
  {
    hide Record, AllRecorded, AllChains, SlotsOf, Stands, PayloadLaid, ImageBase, Entries;
    IndexRoundTrip(file, payload, base, plan);
    var m, chains, image := Index(file, payload).value, AllChains(plan.parts), PlannedImage(file, base, plan);
    forall k | k in m ensures k + 8 <= |file.data| && exists s :: s in SlotsOf(chains) && s.off == k {
      RecordedKeysSafe(file, payload, base, k);
      RecordKeys(map[], AllRecorded(chains, image), k);
      var i :| 0 <= i < |AllRecorded(chains, image)| && AllRecorded(chains, image)[i].0 == k;
      AllRecordedFromSlots(chains, image, AllRecorded(chains, image)[i]);
    }
  }

  /**
   * End to end: for the index parsed from a payload of spaced chains, an address whose eight bytes lie in the
   * file resolves, whatever the slots hold, to what the patched file holds there exactly when it is a Rebase
   * slot or its bytes are clear of every Rebase slot and no Bind slot.
   */
  lemma ParsedIndexResolves(file: MachoFile, payload: Bytes, base: u64, plan: Plan, order: seq<u64>, vaddr: u64)
    requires Described(file, payload, base, plan) && Spaced(AllChains(plan.parts))
    requires Offset(file, vaddr).Ok? && Offset(file, vaddr).value + 8 <= |file.data|
    requires Index(file, payload).Ok? && forall k :: k in order <==> k in Index(file, payload).value
    ensures InBounds(Index(file, payload).value, file.data)
    ensures var off, m := Offset(file, vaddr).value, Index(file, payload).value;
      LookupReadsPatched(m, file, order, vaddr) <==> if off in m then m[off].Rebase? else ClearOf(m, off)
  {
    hide Index, Described, Spaced, InBounds, SlotsApart, ClearOf, LookupReadsPatched, Offset;
    IndexIsSafe(file, payload, base, plan);
    ResolvesExactlyWhenClear(Index(file, payload).value, file, order, vaddr);
  }
}
