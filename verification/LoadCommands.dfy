/** file.rs: the three nested iterators over load commands, segments and sections. */
module LoadCommands {
  import opened Words
  import opened MachoError
  import opened Text

  const MACH_HEADER_SIZE := 32
  const LOAD_COMMAND_SIZE := 8
  const SEGMENT_COMMAND_SIZE := 72
  const SECTION_SIZE := 80
  const LC_SEGMENT_64 := 0x19

  /** A load command with its whole body, header included. */
  datatype Command = Command(cmd: u32, body: Bytes)

  datatype Segment = Segment(segname: Bytes, vmaddr: u64, vmsize: u64, fileoff: u64, filesize: u64, nsects: u32)

  datatype Section = Section(sectname: Bytes, segname: Bytes, addr: u64, size: u64, offset: u32, flags: u32,
                             reserved1: u32, reserved2: u32)

  /** The parts of a thin image the iterators look at. */
  datatype MachoFile = MachoFile(data: Slice, ncmds: u32, sizeofcmds: u32)

  function SegmentAt(body: Bytes): Segment
    requires |body| >= SEGMENT_COMMAND_SIZE
  {
    Segment(body[8..24], U64At(body, 24), U64At(body, 32), U64At(body, 40), U64At(body, 48), U32At(body, 64))
  }

  function SectionAt(s: Bytes): Section
    requires |s| >= SECTION_SIZE
  {
    Section(s[..16], s[16..32], U64At(s, 32), U64At(s, 40), U32At(s, 48), U32At(s, 64), U32At(s, 68), U32At(s, 72))
  }

  /** `cstr16`. */
  function FixedName(name: Bytes): Str {
    OrEmpty(name[..NulAt(name)])
  }

  /** The field holds `name`, filled up with NULs or with anything behind one NUL. */
  predicate FieldHolds(field: Bytes, name: Bytes) {
    |name| <= |field| && field[..|name|] == name && 0 !in name && (|name| == |field| || field[|name|] == 0)
  }

  /** A field is read as the UTF-8 text it holds; one that holds none is read as nothing. */
  lemma FixedNameExact(field: Bytes, name: Str)
    ensures FieldHolds(field, name) ==> FixedName(field) == name
    ensures FixedName(field) == name && name != [] ==> FieldHolds(field, name)
  {
    hide ValidUtf8;
    if FieldHolds(field, name) {
      NulAtIs(field, |name|);
    }
  }

  /** A name in its field of a load command. */
  function Padded(name: Bytes): (field: Bytes)
    requires |name| <= 16
    ensures |field| == 16
  {
    name + seq(16 - |name|, i => 0)
  }

  /** A section is found under the names its two 16-byte fields spell. */
  lemma NamedWhenSpelled(s: Section, seg: Str, sect: Str, x: Str, y: Str)
    requires |seg| <= 16 && |sect| <= 16 && 0 !in seg && 0 !in sect
    requires s.segname == Padded(seg) && s.sectname == Padded(sect)
    ensures Named(s, x, y) <==> x == seg && y == sect
  {
    hide ValidUtf8, NulAt, FixedName;
    FixedNameExact(s.segname, seg);
    FixedNameExact(s.sectname, sect);
  }

  // ----- the items each iterator has yet to yield -----

  type CommandItem = Result<Command, Error>
  type SegmentItem = Result<(Segment, Bytes), Error>
  type SectionItem = Result<(Section, Segment), Error>

  function CommandItems(data: Bytes, off: nat, n: nat): (items: seq<CommandItem>)
    ensures |items| == n
    decreases n
  {
    if n == 0 then []
    else if off + LOAD_COMMAND_SIZE > |data| then [Err(Truncated("load_command"))] + CommandItems(data, off, n - 1)
    else
      var size := U32At(data, off + 4);
      if size < LOAD_COMMAND_SIZE || off + size > |data| then [Err(InvalidLoadCommand)] + CommandItems(data, off, n - 1)
      else [Ok(Command(U32At(data, off), data[off..off + size]))] + CommandItems(data, off + size, n - 1)
  }

  function SegmentItems(items: seq<CommandItem>): seq<SegmentItem> {
    if items == [] then []
    else
      match items[0]
      case Err(e) => [Err(e)] + SegmentItems(items[1..])
      case Ok(c) =>
        if c.cmd != LC_SEGMENT_64 then SegmentItems(items[1..])
        else [if |c.body| < SEGMENT_COMMAND_SIZE then Err(Truncated("segment_command_64"))
              else Ok((SegmentAt(c.body), c.body))] + SegmentItems(items[1..])
  }

  function SectionsIn(bytes: Bytes, n: nat): (sects: seq<Section>)
    requires |bytes| == n * SECTION_SIZE
    ensures |sects| == n
  {
    if n == 0 then [] else [SectionAt(bytes)] + SectionsIn(bytes[SECTION_SIZE..], n - 1)
  }

  function Paired(sects: seq<Section>, seg: Segment): (items: seq<SectionItem>)
    ensures |items| == |sects|
  {
    if sects == [] then [] else [Ok((sects[0], seg))] + Paired(sects[1..], seg)
  }

  function SectionsOf(seg: Segment, body: Bytes): seq<SectionItem> {
    var need := SEGMENT_COMMAND_SIZE + seg.nsects * SECTION_SIZE;
    if |body| < need then [Err(Truncated("sections"))]
    else Paired(SectionsIn(body[SEGMENT_COMMAND_SIZE..need], seg.nsects), seg)
  }

  function SectionItems(items: seq<SegmentItem>): seq<SectionItem> {
    if items == [] then []
    else
      match items[0]
      case Err(e) => [Err(e)] + SectionItems(items[1..])
      case Ok((seg, body)) => SectionsOf(seg, body) + SectionItems(items[1..])
  }

  lemma SectionItemsStep(items: seq<SegmentItem>)
    ensures SectionItems(items) ==
      if items == [] then []
      else if items[0].Err? then [Err(items[0].error)] + SectionItems(items[1..])
      else SectionsOf(items[0].value.0, items[0].value.1) + SectionItems(items[1..])
  {
  }

  /** One `next()`: the first pending item is handed out and the others stay pending. */
  ghost predicate Yields<T(!new)>(before: seq<T>, item: Option<T>, after: seq<T>) {
    if before == [] then item.None? && after == [] else item == Some(before[0]) && after == before[1..]
  }

  lemma PairedStep(sects: seq<Section>, i: nat, seg: Segment)
    requires i < |sects|
    ensures Paired(sects[i..], seg) == [Ok((sects[i], seg))] + Paired(sects[i + 1..], seg)
    ensures i + 1 == |sects| ==> Paired(sects[i + 1..], seg) == []
  {
    assert sects[i..][1..] == sects[i + 1..];
  }

  // ----- the iterators -----

  class LoadCommandIter {
    const data: Bytes
    var remaining: nat
    var offset: nat

    ghost function Pending(): seq<CommandItem>
      reads this
    {
      CommandItems(data, offset, remaining)
    }

    constructor (data: Bytes, ncmds: u32)
      ensures Pending() == CommandItems(data, 0, ncmds)
    {
      this.data := data;
      remaining, offset := ncmds, 0;
    }

    method Next() returns (item: Option<CommandItem>)
      modifies this
      ensures Yields(old(Pending()), item, Pending())
    {
      if remaining == 0 {
        return None;
      }
      remaining := remaining - 1;
      if offset + LOAD_COMMAND_SIZE > |data| {
        return Some(Err(Truncated("load_command")));
      }
      var size := U32At(data, offset + 4);
      if size < LOAD_COMMAND_SIZE || offset + size > |data| {
        return Some(Err(InvalidLoadCommand));
      }
      var body := data[offset..offset + size];
      item := Some(Ok(Command(U32At(data, offset), body)));
      offset := offset + size;
    }
  }

  class SegmentIter {
    const inner: LoadCommandIter

    ghost function Pending(): seq<SegmentItem>
      reads this, inner
    {
      SegmentItems(inner.Pending())
    }

    constructor (inner: LoadCommandIter)
      ensures this.inner == inner
    {
      this.inner := inner;
    }

    method Next() returns (item: Option<SegmentItem>)
      modifies inner
      ensures Yields(old(Pending()), item, Pending())
    {
      while true
        invariant Pending() == old(Pending())
        decreases |inner.Pending()|
      {
        var next := inner.Next();
        match next {
          case None => return None;
          case Some(Err(e)) => return Some(Err(e));
          case Some(Ok(c)) =>
            if c.cmd == LC_SEGMENT_64 {
              if |c.body| < SEGMENT_COMMAND_SIZE {
                return Some(Err(Truncated("segment_command_64")));
              }
              return Some(Ok((SegmentAt(c.body), c.body)));
            }
        }
      }
    }
  }

  class SectionIter {
    const segments: SegmentIter
    var currentSects: seq<Section>
    var sectIndex: nat
    var segment: Option<Segment>

    ghost predicate Valid()
      reads this
    {
      sectIndex <= |currentSects| && (sectIndex < |currentSects| ==> segment.Some?)
    }

    ghost function Pending(): seq<SectionItem>
      reads this, segments, segments.inner
    {
      Current() + SectionItems(segments.Pending())
    }

    /** What is left of the segment being listed. */
    ghost function Current(): (items: seq<SectionItem>)
      reads this
      ensures sectIndex >= |currentSects| ==> items == []
    {
      if sectIndex >= |currentSects| || segment.None? then [] else Paired(currentSects[sectIndex..], segment.value)
    }

    constructor (segments: SegmentIter)
      ensures Valid() && this.segments == segments
      ensures Pending() == SectionItems(segments.Pending())
    {
      this.segments := segments;
      currentSects, sectIndex, segment := [], 0, None;
    }

    /** Makes `seg` the current segment; its sections become the list unless the body is too short. */
    method Enter(seg: Segment, body: Bytes) returns (ok: bool)
      requires sectIndex == |currentSects|
      modifies `currentSects, `sectIndex, `segment
      ensures Valid()
      ensures if ok then Current() == SectionsOf(seg, body)
              else Current() == [] && SectionsOf(seg, body) == [Err(Truncated("sections"))]
    {
      hide SectionsIn;
      segment := Some(seg);
      var need := SEGMENT_COMMAND_SIZE + seg.nsects * SECTION_SIZE;
      if |body| < need {
        return false;
      }
      currentSects := SectionsIn(body[SEGMENT_COMMAND_SIZE..need], seg.nsects);
      sectIndex := 0;
      assert currentSects[0..] == currentSects;
      return true;
    }

    /** The next section of the current segment. */
    method Take() returns (item: SectionItem)
      requires Valid() && sectIndex < |currentSects|
      modifies `sectIndex
      ensures Valid() && old(Current()) == [item] + Current()
    {
      hide Paired;
      var s := currentSects[sectIndex];
      PairedStep(currentSects, sectIndex, segment.value);
      sectIndex := sectIndex + 1;
      item := Ok((s, segment.value));
    }

    method Next() returns (item: Option<SectionItem>)
      requires Valid()
      modifies this, segments.inner
      ensures Valid() && Yields(old(Pending()), item, Pending())
    {
      hide SegmentIter.Pending, SectionIter.Current, SectionsOf, SectionItems;
      ghost var all := Pending();
      while true
        invariant Valid() && Pending() == all
        decreases |segments.Pending()|
      {
        if sectIndex < |currentSects| {
          ghost var later := SectionItems(segments.Pending());
          var s := Take();
          assert all == [s] + (Current() + later);
          return Some(s);
        }
        SectionItemsStep(segments.Pending());
        assert all == [] + SectionItems(segments.Pending());
        var next := segments.Next();
        match next {
          case None => return None;
          case Some(Err(e)) => return Some(Err(e));
          case Some(Ok((seg, body))) =>
            var ok := Enter(seg, body);
            if !ok {
              return Some(Err(Truncated("sections")));
            }
        }
      }
    }
  }

  // ----- `load_commands`, `segments`, `sections`, `find_section` -----

  function CommandArea(file: MachoFile): Result<Bytes, Error> {
    var end := MACH_HEADER_SIZE + file.sizeofcmds;
    if end > |file.data| then Err(Truncated("load commands")) else Ok(file.data[MACH_HEADER_SIZE..end])
  }

  /** What `segments()?` goes on to yield. */
  function Segments(file: MachoFile): Result<seq<SegmentItem>, Error> {
    match CommandArea(file)
    case Err(e) => Err(e)
    case Ok(area) => Ok(SegmentItems(CommandItems(area, 0, file.ncmds)))
  }

  function Sections(file: MachoFile): Result<seq<SectionItem>, Error> {
    match Segments(file)
    case Err(e) => Err(e)
    case Ok(items) => Ok(SectionItems(items))
  }

  method OpenSegments(file: MachoFile) returns (r: Result<SegmentIter, Error>)
    ensures Segments(file).Err? ==> r == Err(Segments(file).error)
    ensures Segments(file).Ok? ==>
      r.Ok? && fresh(r.value) && fresh(r.value.inner) && r.value.Pending() == Segments(file).value
  {
    var area := CommandArea(file);
    if area.Err? {
      return Err(area.error);
    }
    var commands := new LoadCommandIter(area.value, file.ncmds);
    var segments := new SegmentIter(commands);
    return Ok(segments);
  }

  method OpenSections(file: MachoFile) returns (r: Result<SectionIter, Error>)
    ensures Sections(file).Err? ==> r == Err(Sections(file).error)
    ensures Sections(file).Ok? ==>
      && r.Ok? && fresh(r.value) && fresh(r.value.segments) && fresh(r.value.segments.inner)
      && r.value.Valid() && r.value.Pending() == Sections(file).value
  {
    var segments := OpenSegments(file);
    if segments.Err? {
      return Err(segments.error);
    }
    var sections := new SectionIter(segments.value);
    return Ok(sections);
  }

  predicate Named(s: Section, seg: Bytes, sect: Bytes) {
    FixedName(s.segname) == seg && FixedName(s.sectname) == sect
  }

  predicate Passed(item: SectionItem, seg: Bytes, sect: Bytes) {
    item.Ok? && !Named(item.value.0, seg, sect)
  }

  /** Item `i` is the first that is an error or a section of that name. */
  predicate FirstHit(items: seq<SectionItem>, i: nat, seg: Bytes, sect: Bytes) {
    i < |items| && !Passed(items[i], seg, sect) && forall j :: 0 <= j < i ==> Passed(items[j], seg, sect)
  }

  /** The first section of that name, unless an error comes first. */
  function FindIn(items: seq<SectionItem>, seg: Bytes, sect: Bytes): (r: Result<Option<Section>, Error>)
    ensures r == Ok(None) <==> forall i :: 0 <= i < |items| ==> Passed(items[i], seg, sect)
    ensures r != Ok(None) ==>
      exists i: nat :: FirstHit(items, i, seg, sect)
        && r == if items[i].Err? then Err(items[i].error) else Ok(Some(items[i].value.0))
  {
    if items == [] then Ok(None)
    else if Passed(items[0], seg, sect) then
      var r := FindIn(items[1..], seg, sect);
      HitShifts(items, seg, sect);
      r
    else
      assert FirstHit(items, 0, seg, sect);
      match items[0]
      case Err(e) => Err(e)
      case Ok((s, _)) => Ok(Some(s))
  }

  lemma HitShifts(items: seq<SectionItem>, seg: Bytes, sect: Bytes)
    requires items != [] && Passed(items[0], seg, sect)
    ensures forall i: nat :: FirstHit(items[1..], i, seg, sect) ==> FirstHit(items, i + 1, seg, sect)
  {
    hide Passed;
    assert forall i :: 0 <= i < |items| - 1 ==> items[1..][i] == items[i + 1];
    forall i: nat | FirstHit(items[1..], i, seg, sect) ensures FirstHit(items, i + 1, seg, sect) {
      forall j | 0 <= j < i + 1 ensures Passed(items[j], seg, sect) {
        if j > 0 {
          assert items[j] == items[1..][j - 1];
        }
      }
    }
  }

  function Found(file: MachoFile, seg: Bytes, sect: Bytes): Result<Option<Section>, Error> {
    match Sections(file)
    case Err(e) => Err(e)
    case Ok(items) => FindIn(items, seg, sect)
  }

  method FindSection(file: MachoFile, seg: Bytes, sect: Bytes) returns (r: Result<Option<Section>, Error>)
    ensures r == Found(file, seg, sect)
  {
    hide SectionIter.Pending, Sections, FixedName;
    var sections := OpenSections(file);
    if sections.Err? {
      return Err(sections.error);
    }
    var iter := sections.value;
    while true
      invariant iter.Valid() && fresh(iter) && fresh(iter.segments) && fresh(iter.segments.inner)
      invariant FindIn(iter.Pending(), seg, sect) == FindIn(Sections(file).value, seg, sect)
      decreases |iter.Pending()|
    {
      var next := iter.Next();
      match next {
        case None => return Ok(None);
        case Some(Err(e)) => return Err(e);
        case Some(Ok((s, _))) =>
          if Named(s, seg, sect) {
            return Ok(Some(s));
          }
      }
    }
  }

  // ----- tiling -----

  function Bodies(items: seq<CommandItem>): Bytes {
    if items == [] then [] else (if items[0].Ok? then items[0].value.body else []) + Bodies(items[1..])
  }

  lemma BodyHeader(data: Bytes, off: nat)
    requires off + 8 <= |data| && 8 <= U32At(data, off + 4) <= |data| - off
    ensures var b := data[off..off + U32At(data, off + 4)]; CommandBody(b) && U32At(b, 0) == U32At(data, off)
  {
    hide U32At;
    var b := data[off..off + U32At(data, off + 4)];
    FieldInWindow(data, off, b, 0);
    FieldInWindow(data, off, b, 4);
  }

  /** The command bodies tile a prefix of what is left of the area. */
  lemma {:induction false} CommandsTile(data: Bytes, off: nat, n: nat)
    requires off <= |data|
    ensures At(data, off, Bodies(CommandItems(data, off, n)))
    decreases n
  {
    hide U32At;
    if n > 0 {
      var items := CommandItems(data, off, n);
      if items[0].Err? {
        CommandsTile(data, off, n - 1);
        assert Bodies(items) == Bodies(items[1..]);
      } else {
        var body := items[0].value.body;
        CommandsTile(data, off + |body|, n - 1);
        AtSplits(data, off, body, Bodies(items[1..]));
        assert Bodies(items) == body + Bodies(items[1..]);
      }
    }
  }

  predicate GoodItem(item: CommandItem) {
    item.Ok? ==> CommandBody(item.value.body) && item.value.cmd == U32At(item.value.body, 0)
  }

  /** Each body says its own size and command. */
  lemma {:induction false} CommandsWellFormed(data: Bytes, off: nat, n: nat, i: nat)
    requires i < n
    ensures GoodItem(CommandItems(data, off, n)[i])
    decreases n
  {
    hide U32At, CommandBody;
    if CommandItems(data, off, n)[0].Err? {
      if i > 0 {
        CommandsWellFormed(data, off, n - 1, i - 1);
      }
    } else {
      BodyHeader(data, off);
      if i > 0 {
        CommandsWellFormed(data, off + U32At(data, off + 4), n - 1, i - 1);
      }
    }
  }

  /** After the first error there is only that error. */
  lemma {:induction false} ErrorsLast(data: Bytes, off: nat, n: nat, i: nat, j: nat)
    requires i <= j < n && CommandItems(data, off, n)[i].Err?
    ensures CommandItems(data, off, n)[j] == CommandItems(data, off, n)[i]
    decreases n
  {
    hide U32At;
    if CommandItems(data, off, n)[0].Err? {
      SameErrorForever(data, off, n);
    } else {
      ErrorsLast(data, off + U32At(data, off + 4), n - 1, i - 1, j - 1);
    }
  }

  lemma {:induction false} SameErrorForever(data: Bytes, off: nat, n: nat)
    requires n > 0 && CommandItems(data, off, n)[0].Err?
    ensures forall i :: 0 <= i < n ==> CommandItems(data, off, n)[i] == CommandItems(data, off, n)[0]
    decreases n
  {
    if n > 1 {
      SameErrorForever(data, off, n - 1);
    }
  }

  // ----- a command area laid out from command bodies -----

  predicate CommandBody(b: Bytes) {
    8 <= |b| < TWO_32 && U32At(b, 4) == |b|
  }

  /** A segment command carries all the sections it announces. */
  predicate CompleteBody(b: Bytes) {
    CommandBody(b) &&
    (U32At(b, 0) == 0x19 ==> |b| >= 72 && |b| >= 72 + U32At(b, 64) * 80)
  }

  function Flat(bodies: seq<Bytes>): Bytes {
    if bodies == [] then [] else bodies[0] + Flat(bodies[1..])
  }

  /** The `i`-th section record of a segment body. */
  function SectionRecord(b: Bytes, i: nat): Section
    requires 72 + (i + 1) * 80 <= |b|
  {
    SectionAt(b[72 + i * 80..72 + (i + 1) * 80])
  }

  function OwnSections(b: Bytes): seq<SectionItem>
    requires CompleteBody(b)
  {
    if U32At(b, 0) != 0x19 then []
    else seq(U32At(b, 64), i requires 0 <= i < U32At(b, 64) => Ok((SectionRecord(b, i), SegmentAt(b))))
  }

  /** Every section of every segment command, in order, each with its own segment. */
  function AllSections(bodies: seq<Bytes>): seq<SectionItem>
    requires forall b :: b in bodies ==> CompleteBody(b)
  {
    if bodies == [] then [] else OwnSections(bodies[0]) + AllSections(bodies[1..])
  }

  lemma {:induction false} SectionsInRecords(bytes: Bytes, n: nat, i: nat)
    requires |bytes| == n * SECTION_SIZE && i < n
    ensures SectionsIn(bytes, n)[i] == SectionAt(bytes[i * SECTION_SIZE..(i + 1) * SECTION_SIZE])
  {
    hide SectionAt;
    if i == 0 {
      FieldsOfPrefix(bytes);
    } else {
      SectionsInRecords(bytes[SECTION_SIZE..], n - 1, i - 1);
      SliceOfTail(bytes, SECTION_SIZE, (i - 1) * SECTION_SIZE, i * SECTION_SIZE);
    }
  }

  lemma FieldsOfPrefix(bytes: Bytes)
    requires |bytes| >= SECTION_SIZE
    ensures SectionAt(bytes) == SectionAt(bytes[..SECTION_SIZE])
  {
    var w := bytes[..SECTION_SIZE];
    assert w[..16] == bytes[..16] && w[16..32] == bytes[16..32];
  }

  lemma {:induction false} PairedAt(sects: seq<Section>, seg: Segment, i: nat)
    requires i < |sects|
    ensures Paired(sects, seg)[i] == Ok((sects[i], seg))
  {
    if i > 0 {
      PairedAt(sects[1..], seg, i - 1);
    }
  }

  lemma OwnSectionsYielded(b: Bytes)
    requires CompleteBody(b) && U32At(b, 0) == LC_SEGMENT_64
    ensures SectionsOf(SegmentAt(b), b) == OwnSections(b)
  {
    hide SegmentAt, SectionAt, U32At, SectionsIn, Paired;
    SegmentFault(b);
    var seg := SegmentAt(b);
    var bytes := b[SEGMENT_COMMAND_SIZE..SEGMENT_COMMAND_SIZE + seg.nsects * SECTION_SIZE];
    var sects := SectionsIn(bytes, seg.nsects);
    forall i | 0 <= i < seg.nsects ensures Paired(sects, seg)[i] == OwnSections(b)[i] {
      PairedAt(sects, seg, i);
      SectionsInRecords(bytes, seg.nsects, i);
      SliceOfSlice(b, SEGMENT_COMMAND_SIZE, SEGMENT_COMMAND_SIZE + seg.nsects * SECTION_SIZE,
                   i * SECTION_SIZE, (i + 1) * SECTION_SIZE);
    }
  }

  lemma FirstBody(data: Bytes, off: nat, b: Bytes, n: nat)
    requires CommandBody(b) && At(data, off, b)
    ensures CommandItems(data, off, n + 1) == [Ok(Command(U32At(b, 0), b))] + CommandItems(data, off + |b|, n)
  {
    hide U32At, CommandItems;
    FieldInWindow(data, off, b, 0);
    FieldInWindow(data, off, b, 4);
    assert data[off..off + |b|] == b;
    GoodCommand(data, off, n + 1);
  }

  lemma GoodCommand(data: Bytes, off: nat, n: nat)
    requires n > 0 && off + LOAD_COMMAND_SIZE <= |data|
    requires LOAD_COMMAND_SIZE <= U32At(data, off + 4) <= |data| - off
    ensures var size := U32At(data, off + 4);
      CommandItems(data, off, n)
      == [Ok(Command(U32At(data, off), data[off..off + size]))] + CommandItems(data, off + size, n - 1)
  {
    hide U32At;
  }

  /** Well-formed bodies come back one by one; the remaining items are read from what follows them. */
  lemma {:induction false} BodiesYielded(data: Bytes, off: nat, bodies: seq<Bytes>, n: nat)
    requires forall b :: b in bodies ==> CompleteBody(b)
    requires At(data, off, Flat(bodies)) && |bodies| <= n
    ensures SectionItems(SegmentItems(CommandItems(data, off, n)))
         == AllSections(bodies) + SectionItems(SegmentItems(CommandItems(data, off + |Flat(bodies)|, n - |bodies|)))
    decreases |bodies|
  {
    hide OwnSections, SegmentAt, U32At, SectionItems, SegmentItems, CommandItems, CompleteBody, At;
    if bodies != [] {
      var b, rest := bodies[0], Flat(bodies[1..]);
      assert CompleteBody(b);
      CompleteIsBody(b);
      var next := off + |b|;
      AtSplits(data, off, b, rest);
      FirstBody(data, off, b, n - 1);
      OneBody(b, CommandItems(data, next, n - 1));
      BodiesYielded(data, next, bodies[1..], n - 1);
    }
  }

  lemma CompleteIsBody(b: Bytes)
    requires CompleteBody(b)
    ensures CommandBody(b)
  {
  }

  lemma OneBody(b: Bytes, rest: seq<CommandItem>)
    requires CompleteBody(b)
    ensures SectionItems(SegmentItems([Ok(Command(U32At(b, 0), b))] + rest))
         == OwnSections(b) + SectionItems(SegmentItems(rest))
  {
    var items := [Ok(Command(U32At(b, 0), b))] + rest;
    assert items[1..] == rest;
    if U32At(b, 0) == LC_SEGMENT_64 {
      OwnSectionsYielded(b);
      var s := SegmentItems(items);
      assert s == [Ok((SegmentAt(b), b))] + SegmentItems(rest);
      assert s[1..] == SegmentItems(rest);
    }
  }

  /** The error the command at `off` brings, if it is malformed: its header, its size, or its sections do not fit. */
  function Fault(area: Bytes, off: nat): Option<Error> {
    if off + 8 > |area| then Some(Truncated("load_command"))
    else
      var size := U32At(area, off + 4);
      if size < 8 || off + size > |area| then Some(InvalidLoadCommand)
      else if U32At(area, off) != 0x19 then None
      else if size < 72 then Some(Truncated("segment_command_64"))
      else if size < 72 + U32At(area, off + 64) * 80 then Some(Truncated("sections"))
      else None
  }

  /** A malformed command yields its error first. */
  lemma FaultFirst(area: Bytes, off: nat, n: nat)
    requires n > 0 && Fault(area, off).Some?
    ensures var items := SectionItems(SegmentItems(CommandItems(area, off, n)));
      items != [] && items[0] == Err(Fault(area, off).value)
  {
    hide U32At, SegmentAt;
    var items := CommandItems(area, off, n);
    if items[0].Ok? {
      var body := items[0].value.body;
      assert U32At(area, off) == LC_SEGMENT_64;
      SegmentFault(body);
      if |body| >= SEGMENT_COMMAND_SIZE {
        FieldInWindow(area, off, body, 64);
      }
    }
  }

  lemma SegmentFault(body: Bytes)
    ensures |body| >= SEGMENT_COMMAND_SIZE ==> SegmentAt(body).nsects == U32At(body, 64)
  {
  }

  /** The load commands stand behind the 32-byte header, in the part of the file the header sets aside for them. */
  predicate Begins(file: MachoFile, bodies: seq<Bytes>) {
    && 32 + file.sizeofcmds <= |file.data|
    && |Flat(bodies)| <= file.sizeofcmds && At(file.data, 32, Flat(bodies))
  }

  lemma AreaBegins(file: MachoFile, bodies: seq<Bytes>)
    requires Begins(file, bodies)
    ensures CommandArea(file) == Ok(file.data[32..32 + file.sizeofcmds])
    ensures At(file.data[32..32 + file.sizeofcmds], 0, Flat(bodies))
  {
    hide Flat;
    SliceOfSlice(file.data, 32, 32 + file.sizeofcmds, 0, |Flat(bodies)|);
  }

  /** A header that sets aside more than the file has is the error of every iteration. */
  lemma CommandsOutside(file: MachoFile)
    requires 32 + file.sizeofcmds > |file.data|
    ensures Segments(file) == Err(Truncated("load commands")) && Sections(file) == Err(Truncated("load commands"))
  {
  }

  /** A command of its own size, and of at least 72 bytes if it is a segment. */
  predicate SoundBody(b: Bytes) {
    CommandBody(b) && (U32At(b, 0) == 0x19 ==> |b| >= 72)
  }

  /** The load commands of the image are these, all sound. */
  predicate WholeImage(file: MachoFile, bodies: seq<Bytes>)
    ensures WholeImage(file, bodies) ==> forall b :: b in bodies ==> SoundBody(b)
  {
    (forall b :: b in bodies ==> SoundBody(b)) && Begins(file, bodies) && |bodies| == file.ncmds
  }

  /** The segments of the segment commands, in order, each with its whole body. */
  function AllSegments(bodies: seq<Bytes>): seq<SegmentItem>
    requires forall b :: b in bodies ==> SoundBody(b)
  {
    if bodies == [] then []
    else
      assert SoundBody(bodies[0]);
      (if U32At(bodies[0], 0) == 0x19 then [Ok((SegmentAt(bodies[0]), bodies[0]))] else []) + AllSegments(bodies[1..])
  }

  lemma OneSegment(b: Bytes, rest: seq<CommandItem>)
    requires SoundBody(b)
    ensures SegmentItems([Ok(Command(U32At(b, 0), b))] + rest)
         == (if U32At(b, 0) == 0x19 then [Ok((SegmentAt(b), b))] else []) + SegmentItems(rest)
  {
    hide SegmentAt, U32At;
    var items := [Ok(Command(U32At(b, 0), b))] + rest;
    assert items[1..] == rest && [] + SegmentItems(rest) == SegmentItems(rest);
  }

  lemma {:induction false} SegmentsYielded(data: Bytes, off: nat, bodies: seq<Bytes>, n: nat)
    requires forall b :: b in bodies ==> SoundBody(b)
    requires At(data, off, Flat(bodies)) && |bodies| <= n
    ensures SegmentItems(CommandItems(data, off, n))
         == AllSegments(bodies) + SegmentItems(CommandItems(data, off + |Flat(bodies)|, n - |bodies|))
    decreases |bodies|
  {
    hide SegmentAt, U32At, SegmentItems, CommandItems, SoundBody, At;
    if bodies != [] {
      var b, rest := bodies[0], Flat(bodies[1..]);
      assert SoundBody(b);
      SoundIsBody(b);
      var next := off + |b|;
      AtSplits(data, off, b, rest);
      FirstBody(data, off, b, n - 1);
      OneSegment(b, CommandItems(data, next, n - 1));
      SegmentsYielded(data, next, bodies[1..], n - 1);
    }
  }

  lemma SoundIsBody(b: Bytes)
    requires SoundBody(b)
    ensures CommandBody(b)
  {
  }

  /** Iterating the segments of an image of sound commands yields exactly them. */
  lemma SegmentsOfWholeImage(file: MachoFile, bodies: seq<Bytes>)
    requires WholeImage(file, bodies)
    ensures Segments(file) == Ok(AllSegments(bodies))
  {
    hide SoundBody, AllSegments, CommandArea, At, Flat, SegmentItems, CommandItems;
    var area := file.data[32..32 + file.sizeofcmds];
    AreaBegins(file, bodies);
    SegmentsYielded(area, 0, bodies, file.ncmds);
    NoSegments(area, |Flat(bodies)|);
    assert AllSegments(bodies) + [] == AllSegments(bodies);
  }

  lemma NoSegments(area: Bytes, off: nat)
    ensures SegmentItems(CommandItems(area, off, 0)) == []
  {
  }

  /**
   * Iterating the sections of an image yields exactly the sections of the segment commands before its first
   * malformed command, and then the error that command brings.
   */
  lemma SectionsOfImage(file: MachoFile, bodies: seq<Bytes>)
    requires forall b :: b in bodies ==> CompleteBody(b)
    requires Begins(file, bodies) && |bodies| < file.ncmds
    requires Fault(file.data[32..32 + file.sizeofcmds], |Flat(bodies)|).Some?
    ensures Sections(file).Ok?
    ensures AllSections(bodies) + [Err(Fault(file.data[32..32 + file.sizeofcmds], |Flat(bodies)|).value)]
         <= Sections(file).value
  {
    hide CompleteBody, AllSections, CommandArea, At, Flat, SectionItems, SegmentItems, CommandItems, Fault, Sections;
    var area := file.data[32..32 + file.sizeofcmds];
    AreaBegins(file, bodies);
    SectionsAre(file);
    BodiesYielded(area, 0, bodies, file.ncmds);
    FaultFirst(area, |Flat(bodies)|, file.ncmds - |bodies|);
  }

  /** A command that is not malformed is a complete body: every image splits at its first malformed command. */
  lemma FaultlessIsComplete(area: Bytes, off: nat)
    requires Fault(area, off).None?
    ensures off + U32At(area, off + 4) <= |area| && CompleteBody(area[off..off + U32At(area, off + 4)])
  {
    hide U32At, SegmentAt;
    var body := area[off..off + U32At(area, off + 4)];
    BodyHeader(area, off);
    SegmentFault(body);
    if |body| >= SEGMENT_COMMAND_SIZE {
      FieldInWindow(area, off, body, 64);
    }
  }

  /** With nothing malformed, it yields exactly all of them. */
  lemma SectionsOfWholeImage(file: MachoFile, bodies: seq<Bytes>)
    requires forall b :: b in bodies ==> CompleteBody(b)
    requires Begins(file, bodies) && |bodies| == file.ncmds
    ensures Sections(file) == Ok(AllSections(bodies))
  {
    hide CompleteBody, AllSections, CommandArea, At, Flat, SectionItems, SegmentItems, CommandItems, Sections;
    var area := file.data[32..32 + file.sizeofcmds];
    AreaBegins(file, bodies);
    SectionsAre(file);
    BodiesYielded(area, 0, bodies, file.ncmds);
    NoItems(area, |Flat(bodies)|);
    assert AllSections(bodies) + [] == AllSections(bodies);
  }

  lemma SectionsAre(file: MachoFile)
    requires CommandArea(file).Ok?
    ensures Sections(file) == Ok(SectionItems(SegmentItems(CommandItems(CommandArea(file).value, 0, file.ncmds))))
  {
    hide CommandArea, SectionItems, SegmentItems, CommandItems;
  }

  lemma NoItems(area: Bytes, off: nat)
    ensures SectionItems(SegmentItems(CommandItems(area, off, 0))) == []
  {
  }
}
