/** file.rs: virtual addresses, file offsets, and the function-starts table. */
module AddressMap {
  import opened Words
  import opened MachoError
  import opened Leb128
  import opened Text
  import opened LoadCommands
  import opened CommandLookup

  /** `__TEXT`. */
  const TEXT: Bytes := [0x5F, 0x5F, 0x54, 0x45, 0x58, 0x54]

  // ----- `vaddr_to_offset` -----

  predicate Maps(seg: Segment, vaddr: u64) {
    seg.filesize != 0 && seg.vmaddr <= vaddr < SaturatingAdd(seg.vmaddr, seg.filesize)
  }

  function OffsetIn(seg: Segment, vaddr: u64): u64
    requires seg.vmaddr <= vaddr
  {
    WrappingAdd(seg.fileoff, vaddr - seg.vmaddr)
  }

  predicate Skipped(item: SegmentItem, vaddr: u64) {
    item.Ok? && !Maps(item.value.0, vaddr)
  }

  /** What an item that is not skipped decides. */
  function Decision(item: SegmentItem, vaddr: u64): Result<u64, Error>
    requires !Skipped(item, vaddr)
  {
    match item
    case Err(e) => Err(e)
    case Ok((seg, _)) => Ok(OffsetIn(seg, vaddr))
  }

  /** The first segment that maps the address decides, unless an error comes first. */
  function Locate(items: seq<SegmentItem>, vaddr: u64): (r: Result<u64, Error>)
    ensures r == Err(VaddrNotMapped(vaddr)) <== forall i :: 0 <= i < |items| ==> Skipped(items[i], vaddr)
    ensures (exists i :: 0 <= i < |items| && !Skipped(items[i], vaddr)) ==>
      exists i :: 0 <= i < |items| && !Skipped(items[i], vaddr) && (forall j :: 0 <= j < i ==> Skipped(items[j], vaddr))
        && r == Decision(items[i], vaddr)
  {
    if items == [] then Err(VaddrNotMapped(vaddr))
    else
      match items[0]
      case Err(e) => Err(e)
      case Ok((seg, _)) => if Maps(seg, vaddr) then Ok(OffsetIn(seg, vaddr)) else Locate(items[1..], vaddr)
  }

  function Offset(file: MachoFile, vaddr: u64): Result<u64, Error> {
    match Segments(file)
    case Err(e) => Err(e)
    case Ok(items) => Locate(items, vaddr)
  }

  method VaddrToOffset(file: MachoFile, vaddr: u64) returns (r: Result<u64, Error>)
    ensures r == Offset(file, vaddr)
  {
    hide SegmentIter.Pending, Segments;
    var segments := OpenSegments(file);
    if segments.Err? {
      return Err(segments.error);
    }
    var iter := segments.value;
    while true
      invariant fresh(iter) && fresh(iter.inner)
      invariant Locate(iter.Pending(), vaddr) == Offset(file, vaddr)
      decreases |iter.Pending()|
    {
      var next := iter.Next();
      match next {
        case None => return Err(VaddrNotMapped(vaddr));
        case Some(Err(e)) => return Err(e);
        case Some(Ok((seg, _))) =>
          if seg.filesize != 0 {
            if vaddr >= seg.vmaddr && vaddr < SaturatingAdd(seg.vmaddr, seg.filesize) {
              return Ok(WrappingAdd(seg.fileoff, vaddr - seg.vmaddr));
            }
          }
      }
    }
  }

  /** The segment has file content at `vaddr`; its end saturates at the highest address. */
  predicate Covers(seg: Segment, vaddr: u64) {
    && seg.filesize != 0 && seg.vmaddr <= vaddr
    && vaddr < seg.vmaddr + seg.filesize && vaddr < 0xFFFF_FFFF_FFFF_FFFF
  }

  /** As far behind the segment's file offset as `vaddr` lies behind its address. */
  function FilePlace(seg: Segment, vaddr: u64): u64
    requires seg.vmaddr <= vaddr
  {
    (seg.fileoff + (vaddr - seg.vmaddr)) % 0x1_0000_0000_0000_0000
  }

  /** The items before `i` are segments that do not cover the address. */
  predicate NoneBefore(items: seq<SegmentItem>, i: nat, vaddr: u64)
    requires i <= |items|
  {
    forall j :: 0 <= j < i ==> items[j].Ok? && !Covers(items[j].value.0, vaddr)
  }

  /**
   * The first error or covering segment decides: the offset lies as far behind the segment's file offset as the
   * address behind the segment's own, modulo 2^64. An address nothing covers is not mapped.
   */
  lemma LocateExact(items: seq<SegmentItem>, vaddr: u64, i: nat)
    requires i <= |items| && NoneBefore(items, i, vaddr)
    ensures i == |items| ==> Locate(items, vaddr) == Err(VaddrNotMapped(vaddr))
    ensures i < |items| && items[i].Err? ==> Locate(items, vaddr) == Err(items[i].error)
    ensures i < |items| && items[i].Ok? && Covers(items[i].value.0, vaddr) ==>
      Locate(items, vaddr) == Ok(FilePlace(items[i].value.0, vaddr))
  {
    LocateSkips(items, vaddr, i);
    hide Locate, NoneBefore, FilePlace;
    assert i < |items| ==> items[i..][0] == items[i];
    LocateStep(items[i..], vaddr);
  }

  lemma LocateSkips(items: seq<SegmentItem>, vaddr: u64, i: nat)
    requires i <= |items| && NoneBefore(items, i, vaddr)
    ensures Locate(items, vaddr) == Locate(items[i..], vaddr)
  {
    hide Locate, Covers;
    var n := i;
    while n > 0
      invariant 0 <= n <= i && Locate(items[n..], vaddr) == Locate(items[i..], vaddr)
    {
      n := n - 1;
      LocateStep(items[n..], vaddr);
      assert items[n..][0] == items[n] && items[n..][1..] == items[n + 1..];
    }
    assert items[0..] == items;
  }

  lemma LocateStep(items: seq<SegmentItem>, vaddr: u64)
    ensures items == [] ==> Locate(items, vaddr) == Err(VaddrNotMapped(vaddr))
    ensures items != [] && items[0].Err? ==> Locate(items, vaddr) == Err(items[0].error)
    ensures items != [] && items[0].Ok? ==>
      var seg := items[0].value.0;
      Locate(items, vaddr)
      == if Covers(seg, vaddr) then Ok(FilePlace(seg, vaddr)) else Locate(items[1..], vaddr)
  {
    if items != [] && items[0].Ok? && Covers(items[0].value.0, vaddr) {
      assert OffsetIn(items[0].value.0, vaddr) == FilePlace(items[0].value.0, vaddr);
      hide OffsetIn, FilePlace;
    }
  }

  /** In an image of sound commands the first segment command covering an address gives its offset. */
  lemma OffsetInImage(file: MachoFile, bodies: seq<Bytes>, vaddr: u64, i: nat)
    requires WholeImage(file, bodies)
    requires i <= |AllSegments(bodies)| && NoneBefore(AllSegments(bodies), i, vaddr)
    requires i < |AllSegments(bodies)| ==> AllSegments(bodies)[i].Ok? && Covers(AllSegments(bodies)[i].value.0, vaddr)
    ensures i == |AllSegments(bodies)| ==> Offset(file, vaddr) == Err(VaddrNotMapped(vaddr))
    ensures i < |AllSegments(bodies)| ==>
      Offset(file, vaddr) == Ok(FilePlace(AllSegments(bodies)[i].value.0, vaddr))
  {
    hide Segments, AllSegments, WholeImage, Locate, NoneBefore, FilePlace;
    SegmentsOfWholeImage(file, bodies);
    LocateExact(AllSegments(bodies), vaddr, i);
  }

  /** `read_u64_vaddr`: the eight bytes at the offset, little-endian. */
  function ReadU64(file: MachoFile, vaddr: u64): Result<u64, Error> {
    match Offset(file, vaddr)
    case Err(e) => Err(e)
    case Ok(off) => if off + 8 <= |file.data| then Ok(U64At(file.data, off)) else Err(Truncated("vaddr read"))
  }

  // ----- `preferred_load_address` -----

  /** `__TEXT`'s address, else the first with file content, else 0. */
  function Preferred(items: seq<SegmentItem>, first: Option<u64>): Result<u64, Error> {
    if items == [] then Ok(if first.Some? then first.value else 0)
    else
      match items[0]
      case Err(e) => Err(e)
      case Ok((seg, _)) =>
        if FixedName(seg.segname) == TEXT then Ok(seg.vmaddr)
        else Preferred(items[1..], if first.None? && seg.filesize > 0 then Some(seg.vmaddr) else first)
  }

  function ImageBase(file: MachoFile): Result<u64, Error> {
    match Segments(file)
    case Err(e) => Err(e)
    case Ok(items) => Preferred(items, None)
  }

  /** The name field spells `__TEXT`. */
  predicate IsText(seg: Segment) {
    |seg.segname| >= 6 && Spells(seg.segname[..6], "__TEXT") && (|seg.segname| == 6 || seg.segname[6] == 0)
  }

  lemma TextNamed(seg: Segment)
    ensures FixedName(seg.segname) == TEXT <==> IsText(seg)
  {
    hide FixedName, ValidUtf8;
    AsciiIsUtf8(TEXT);
    FixedNameExact(seg.segname, TEXT);
    if |seg.segname| >= 6 {
      TextSpelled(seg.segname[..6]);
    }
  }

  lemma TextSpelled(b: Bytes)
    ensures Spells(b, "__TEXT") <==> b == TEXT
  {
  }

  /** An error, or a segment called `__TEXT`. */
  predicate Stops(item: SegmentItem) {
    item.Err? || IsText(item.value.0)
  }

  predicate HasContent(item: SegmentItem) {
    item.Ok? && item.value.0.filesize > 0
  }

  predicate FirstStop(items: seq<SegmentItem>, i: nat) {
    i < |items| && Stops(items[i]) && forall j :: 0 <= j < i ==> !Stops(items[j])
  }

  predicate FirstContent(items: seq<SegmentItem>, i: nat) {
    i < |items| && HasContent(items[i]) && forall j :: 0 <= j < i ==> !HasContent(items[j])
  }

  predicate NoStop(items: seq<SegmentItem>) {
    forall j :: 0 <= j < |items| ==> !Stops(items[j])
  }

  predicate NoContent(items: seq<SegmentItem>) {
    forall j :: 0 <= j < |items| ==> !HasContent(items[j])
  }

  /** The first error or `__TEXT` decides; without one, the first segment with file content; without that, 0. */
  ghost predicate IsPreferred(items: seq<SegmentItem>, r: Result<u64, Error>) {
    && (forall i: nat :: FirstStop(items, i) ==> r == StopResult(items[i]))
    && (NoStop(items) ==> forall i: nat :: FirstContent(items, i) ==> r == Ok(items[i].value.0.vmaddr))
    && (NoStop(items) && NoContent(items) ==> r == Ok(0))
  }

  function StopResult(item: SegmentItem): Result<u64, Error> {
    match item
    case Err(e) => Err(e)
    case Ok((seg, _)) => Ok(seg.vmaddr)
  }

  lemma {:induction false} PreferredAtStop(items: seq<SegmentItem>, first: Option<u64>, i: nat)
    requires FirstStop(items, i)
    ensures Preferred(items, first) == StopResult(items[i])
    decreases |items|
  {
    hide FixedName, IsText;
    if items[0].Ok? {
      TextNamed(items[0].value.0);
    }
    if i > 0 {
      assert !Stops(items[0]);
      PreferredAtStop(items[1..], if first.None? && HasContent(items[0]) then Some(items[0].value.0.vmaddr) else first, i - 1);
    }
  }

  lemma {:induction false} PreferredGiven(items: seq<SegmentItem>, vmaddr: u64)
    requires NoStop(items)
    ensures Preferred(items, Some(vmaddr)) == Ok(vmaddr)
  {
    hide FixedName, IsText;
    if items != [] {
      assert !Stops(items[0]);
      TextNamed(items[0].value.0);
      PreferredGiven(items[1..], vmaddr);
    }
  }

  lemma {:induction false} PreferredAtContent(items: seq<SegmentItem>, i: nat)
    requires NoStop(items) && FirstContent(items, i)
    ensures Preferred(items, None) == Ok(items[i].value.0.vmaddr)
    decreases |items|
  {
    hide FixedName, IsText;
    assert !Stops(items[0]);
    TextNamed(items[0].value.0);
    if i == 0 {
      PreferredGiven(items[1..], items[0].value.0.vmaddr);
    } else {
      PreferredAtContent(items[1..], i - 1);
    }
  }

  lemma {:induction false} PreferredEmpty(items: seq<SegmentItem>)
    requires NoStop(items) && NoContent(items)
    ensures Preferred(items, None) == Ok(0)
  {
    hide FixedName, IsText;
    if items != [] {
      TextNamed(items[0].value.0);
      assert !Stops(items[0]) && !HasContent(items[0]);
      PreferredEmpty(items[1..]);
    }
  }

  lemma PreferredExact(items: seq<SegmentItem>)
    ensures IsPreferred(items, Preferred(items, None))
  {
    hide Preferred, NoStop, NoContent, FixedName;
    forall i: nat | FirstStop(items, i) ensures Preferred(items, None) == StopResult(items[i]) {
      PreferredAtStop(items, None, i);
    }
    forall i: nat | NoStop(items) && FirstContent(items, i) ensures Preferred(items, None) == Ok(items[i].value.0.vmaddr) {
      PreferredAtContent(items, i);
    }
    if NoStop(items) && NoContent(items) {
      PreferredEmpty(items);
    }
  }

  method PreferredLoadAddress(file: MachoFile) returns (r: Result<u64, Error>)
    ensures r == ImageBase(file)
    ensures Segments(file).Ok? ==> IsPreferred(Segments(file).value, r)
  {
    if Segments(file).Ok? {
      PreferredExact(Segments(file).value);
    }
    hide SegmentIter.Pending, Segments, FixedName, IsPreferred;
    var segments := OpenSegments(file);
    if segments.Err? {
      return Err(segments.error);
    }
    var iter, first: Option<u64> := segments.value, None;
    while true
      invariant fresh(iter) && fresh(iter.inner)
      invariant Preferred(iter.Pending(), first) == ImageBase(file)
      decreases |iter.Pending()|
    {
      var next := iter.Next();
      match next {
        case None => return Ok(if first.Some? then first.value else 0);
        case Some(Err(e)) => return Err(e);
        case Some(Ok((seg, _))) =>
          if FixedName(seg.segname) == TEXT {
            return Ok(seg.vmaddr);
          }
          if first.None? && seg.filesize > 0 {
            first := Some(seg.vmaddr);
          }
      }
    }
  }

  // ----- `function_starts` -----

  /** The file offset of the first `__TEXT`; errors are passed over and the default is 0. */
  function TextBase(items: seq<SegmentItem>): u64 {
    if items == [] then 0
    else if items[0].Ok? && FixedName(items[0].value.0.segname) == TEXT then items[0].value.0.fileoff
    else TextBase(items[1..])
  }

  predicate IsTextItem(item: SegmentItem) {
    item.Ok? && IsText(item.value.0)
  }

  /** The first good item called `__TEXT` gives the base; errors before it do not matter, and without it the base is 0. */
  lemma TextBaseExact(items: seq<SegmentItem>, i: nat)
    requires i <= |items| && forall j :: 0 <= j < i ==> !IsTextItem(items[j])
    ensures i == |items| ==> TextBase(items) == 0
    ensures i < |items| && IsTextItem(items[i]) ==> TextBase(items) == items[i].value.0.fileoff
  {
    hide TextBase, IsTextItem;
    var n := i;
    TextBaseStep(items[i..]);
    while n > 0
      invariant 0 <= n <= i && TextBase(items[n..]) == TextBase(items[i..])
    {
      n := n - 1;
      TextBaseStep(items[n..]);
      assert items[n..][0] == items[n] && items[n..][1..] == items[n + 1..];
    }
    assert items[0..] == items;
  }

  lemma TextBaseStep(items: seq<SegmentItem>)
    ensures TextBase(items)
         == if items == [] then 0 else if IsTextItem(items[0]) then items[0].value.0.fileoff else TextBase(items[1..])
  {
    hide FixedName, IsText;
    if items != [] && items[0].Ok? {
      TextNamed(items[0].value.0);
    }
  }

  function Prefixed(out: seq<u64>, r: Result<seq<u64>, Error>): Result<seq<u64>, Error> {
    match r
    case Err(e) => Err(e)
    case Ok(rest) => Ok(out + rest)
  }

  /** Running totals of the deltas up to the first zero or the end of the table. */
  function Starts(s: Bytes, addr: u64): Result<seq<u64>, Error>
    decreases |s|
  {
    if s == [] then Ok([])
    else
      match DecodeUlebSlice(s)
      case Err(e) => Err(e)
      case Ok(delta) =>
        if delta.value == 0 then Ok([])
        else
          var next := SaturatingAdd(addr, delta.value);
          Prefixed([next], Starts(Tail(s, delta.len), next))
  }

  function TextBaseOf(file: MachoFile): Result<u64, Error> {
    match Segments(file)
    case Err(e) => Err(e)
    case Ok(items) => Ok(TextBase(items))
  }

  function FunctionStartsOf(file: MachoFile, table: Bytes): Result<seq<u64>, Error> {
    match TextBaseOf(file)
    case Err(e) => Err(e)
    case Ok(base) => Starts(table, base)
  }

  method FindTextBase(file: MachoFile) returns (r: Result<u64, Error>)
    ensures r == TextBaseOf(file)
  {
    hide SegmentIter.Pending, Segments, FixedName;
    var segments := OpenSegments(file);
    if segments.Err? {
      return Err(segments.error);
    }
    var iter := segments.value;
    while true
      invariant fresh(iter) && fresh(iter.inner)
      invariant TextBase(iter.Pending()) == TextBase(Segments(file).value)
      decreases |iter.Pending()|
    {
      var next := iter.Next();
      if next.None? {
        return Ok(0);
      }
      if next.value.Ok? && FixedName(next.value.value.0.segname) == TEXT {
        return Ok(next.value.value.0.fileoff);
      }
    }
  }

  function FunctionStartsIn(file: MachoFile): Result<seq<u64>, Error> {
    match PayloadOf(file, LC_FUNCTION_STARTS)
    case Err(e) => Err(e)
    case Ok(None) => Ok([])
    case Ok(Some(table)) => FunctionStartsOf(file, table)
  }

  method FunctionStarts(file: MachoFile) returns (r: Result<seq<u64>, Error>)
    ensures r == FunctionStartsIn(file)
  {
    hide PayloadOf, FunctionStartsOf;
    var table := FindPayload(file, LC_FUNCTION_STARTS);
    match table {
      case Err(e) => return Err(e);
      case Ok(None) => return Ok([]);
      case Ok(Some(data)) => r := DecodeStarts(file, data);
    }
  }

  /** `table` is the payload of `LC_FUNCTION_STARTS`. */
  method DecodeStarts(file: MachoFile, table: Bytes) returns (r: Result<seq<u64>, Error>)
    ensures r == FunctionStartsOf(file, table)
  {
    hide DecodeUlebSlice, Segments, Starts, SaturatingAdd;
    var base := FindTextBase(file);
    if base.Err? {
      return Err(base.error);
    }
    var out: seq<u64>, addr: u64, i := [], base.value, 0;
    ghost var all := Starts(table, addr);
    assert table[0..] == table;
    assert all.Ok? ==> [] + all.value == all.value;
    while i < |table|
      invariant 0 <= i <= |table|
      invariant all == Prefixed(out, Starts(table[i..], addr))
      decreases |table| - i
    {
      StartsStep(table[i..], addr);
      var delta := ReadUlebSlice(table[i..]);
      if delta.Err? {
        return Err(delta.error);
      }
      assert Tail(table[i..], delta.value.len) == table[i + delta.value.len..];
      i := i + delta.value.len;
      if delta.value.value == 0 && out == [] && i >= |table| {
        assert out + [] == out;
        return Ok(out);
      }
      if delta.value.value == 0 {
        assert out + [] == out;
        return Ok(out);
      }
      addr := SaturatingAdd(addr, delta.value.value);
      ghost var rest := Starts(table[i..], addr);
      assert rest.Ok? ==> out + ([addr] + rest.value) == (out + [addr]) + rest.value;
      out := out + [addr];
    }
    StartsEnd(addr);
    assert table[i..] == [] && out + [] == out;
    r := Ok(out);
  }

  lemma StartsEnd(addr: u64)
    ensures Starts([], addr) == Ok([])
  {
  }

  lemma StartsStep(s: Bytes, addr: u64)
    requires s != []
    ensures DecodeUlebSlice(s).Err? ==> Starts(s, addr) == Err(DecodeUlebSlice(s).error)
    ensures DecodeUlebSlice(s).Ok? ==>
      var delta := DecodeUlebSlice(s).value;
      && 1 <= delta.len <= |s|
      && (delta.value == 0 ==> Starts(s, addr) == Ok([]))
      && (delta.value != 0 ==>
           var next := SaturatingAdd(addr, delta.value);
           Starts(s, addr) == Prefixed([next], Starts(Tail(s, delta.len), next)))
  {
    hide SaturatingAdd, DecodeUlebSlice;
    if DecodeUleb(s).Ok? {
      DecodeUlebLocal(s, []);
    }
  }

  /** One delta in front of the others: the next start, held at the highest address; a zero ends the table. */
  lemma StartsLaw(delta: u64, rest: Bytes, addr: u64)
    ensures var next := if addr + delta > 0xFFFF_FFFF_FFFF_FFFF then 0xFFFF_FFFF_FFFF_FFFF else addr + delta;
      Starts(EncodeUleb(delta) + rest, addr) == if delta == 0 then Ok([]) else Prefixed([next], Starts(rest, next))
  {
    hide DecodeUleb, EncodeUleb, DecodeUlebSlice, Starts;
    var s := EncodeUleb(delta) + rest;
    UlebRoundTrip(delta, rest);
    StartsStep(s, addr);
    assert Tail(s, |EncodeUleb(delta)|) == rest;
  }

  /** A table whose next delta cannot be decoded is refused with the decoder's error. */
  lemma BrokenTable(s: Bytes, addr: u64)
    requires s != [] && DecodeUlebSlice(s).Err?
    ensures Starts(s, addr) == Err(DecodeUlebSlice(s).error)
  {
    hide DecodeUlebSlice;
    StartsStep(s, addr);
  }

  // ----- the table of a list of starts -----

  predicate IncreasingFrom(base: u64, starts: seq<u64>)
    decreases starts
  {
    starts == [] || (base < starts[0] && IncreasingFrom(starts[0], starts[1..]))
  }

  function DeltaTable(starts: seq<u64>, base: u64): Bytes
    requires IncreasingFrom(base, starts)
    decreases starts
  {
    if starts == [] then [] else EncodeUleb(starts[0] - base) + DeltaTable(starts[1..], starts[0])
  }

  /** Decoding a delta table gives the starts back; a zero byte ends the table, whatever pads it. */
  lemma {:induction false} StartsRoundTrip(starts: seq<u64>, base: u64, padding: Bytes)
    requires IncreasingFrom(base, starts)
    requires padding == [] || padding[0] == 0
    ensures Starts(DeltaTable(starts, base) + padding, base) == Ok(starts)
    decreases starts
  {
    hide DecodeUleb, EncodeUleb, DecodeUlebSlice, Starts;
    var s := DeltaTable(starts, base) + padding;
    if s == [] {
      StartsEnd(base);
    } else {
      StartsStep(s, base);
    }
    if starts == [] {
      assert s == padding;
      if s != [] {
        ZeroByte(s);
      }
    } else {
      var code, rest := EncodeUleb(starts[0] - base), DeltaTable(starts[1..], starts[0]) + padding;
      assert s == code + rest;
      UlebRoundTrip(starts[0] - base, rest);
      assert Tail(s, |code|) == rest;
      StartsRoundTrip(starts[1..], starts[0], padding);
      assert [starts[0]] + starts[1..] == starts;
    }
  }

  lemma ZeroByte(s: Bytes)
    requires s != [] && s[0] == 0
    ensures DecodeUleb(s) == Ok(Decoded(0, 1))
  {
    UlebRoundTrip(0, s[1..]);
    assert s == [0] + s[1..];
  }

  /**
   * End to end: an image of sound commands whose first function-starts command names the delta table of a list, counted
   * from the file offset of its first `__TEXT`, has that list as its function starts.
   */
  lemma FunctionStartsRoundTrip(file: MachoFile, bodies: seq<Bytes>, i: nat, starts: seq<u64>, base: u64, padding: Bytes)
    requires WholeImage(file, bodies) && i < |bodies| && NoneOfKind(bodies, i, 0x26)
    requires OfKind(bodies[i], 0x26) && |bodies[i]| >= 16
    requires base == TextBase(AllSegments(bodies))
    requires IncreasingFrom(base, starts) && (padding == [] || padding[0] == 0)
    requires U32At(bodies[i], 12) == |DeltaTable(starts, base) + padding|
    requires At(file.data, U32At(bodies[i], 8), DeltaTable(starts, base) + padding)
    ensures FunctionStartsIn(file) == Ok(starts)
  {
    hide WholeImage, PayloadOf, U32At, OfKind, NoneOfKind, Segments, AllSegments, TextBase, Starts, DeltaTable;
    PayloadInImage(file, bodies, 0x26, i);
    SegmentsOfWholeImage(file, bodies);
    StartsRoundTrip(starts, base, padding);
  }

  /** Without that command there are none. */
  lemma NoFunctionStarts(file: MachoFile, bodies: seq<Bytes>)
    requires WholeImage(file, bodies) && NoneOfKind(bodies, |bodies|, 0x26)
    ensures FunctionStartsIn(file) == Ok([])
  {
    hide WholeImage, BodyOf, NoneOfKind, FunctionStartsOf;
    FirstCommandFound(file, bodies, 0x26, 16, |bodies|);
  }
}
