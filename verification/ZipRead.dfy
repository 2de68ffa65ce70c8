/** zip.rs: the reader, which knows nothing of the writer but the format. */
module ZipRead {
  import opened Words
  import opened Text
  import opened ZipFormat

  datatype ZipEntry = ZipEntry(name: Str, compression: u16, compressedSize: u32, uncompressedSize: u32,
                               localHeaderOffset: u32)

  datatype ZipArchive = ZipArchive(data: Bytes, entries: seq<ZipEntry>)

  /** Raw DEFLATE is foreign code: a partial function on byte strings. */
  type Inflater = Bytes -> Option<Bytes>

  /** The highest position at or below `i`, but not below `start`, where the end signature stands. */
  function EocdFrom(data: Bytes, start: nat, i: nat): (r: Option<nat>)
    requires start <= i && i + 22 <= |data|
    ensures r.Some? ==> start <= r.value <= i && U32At(data, r.value) == EOCD_SIG
                        && forall j :: r.value < j <= i ==> U32At(data, j) != EOCD_SIG
    ensures r.None? ==> forall j :: start <= j <= i ==> U32At(data, j) != EOCD_SIG
    decreases i
  {
    if U32At(data, i) == EOCD_SIG then Some(i)
    else if i == start then None
    else EocdFrom(data, start, i - 1)
  }

  /** The end record within the last 22 + 65535 bytes. */
  function Eocd(data: Bytes): Result<nat, Error> {
    if |data| < 22 then Err(InvalidZip("file too small"))
    else
      var found := EocdFrom(data, ScanStart(data), |data| - 22);
      if found.None? then Err(InvalidZip("EOCD not found")) else Ok(found.value)
  }

  /** `data.len().saturating_sub(22 + 65535)`. */
  function ScanStart(data: Bytes): nat {
    if |data| <= 22 + 65535 then 0 else |data| - (22 + 65535)
  }

  method FindEocd(data: Bytes) returns (r: Result<nat, Error>)
    ensures r == Eocd(data)
  {
    hide U32At;
    if |data| < 22 {
      return Err(InvalidZip("file too small"));
    }
    var start := ScanStart(data);
    var i: nat := |data| - 22;
    while true
      invariant start <= i && i + 22 <= |data|
      invariant EocdFrom(data, start, i) == EocdFrom(data, start, |data| - 22)
      decreases i
    {
      if U32At(data, i) == EOCD_SIG {
        return Ok(i);
      }
      if i == start {
        break;
      }
      i := i - 1;
    }
    return Err(InvalidZip("EOCD not found"));
  }

  /** One central header and where the next one starts. */
  datatype Central = Central(entry: ZipEntry, next: nat)

  function ReadCentral(data: Bytes, off: nat): Result<Central, Error> {
    if off + 46 > |data| then Err(InvalidZip("truncated central directory"))
    else if U32At(data, off) != CDFH_SIG then Err(InvalidZip("bad central directory signature"))
    else
      var nameEnd := off + 46 + U16At(data, off + 28);
      if nameEnd > |data| then Err(InvalidZip("truncated filename"))
      else
        LossyIsStr(data[off + 46..nameEnd]);
        var entry := ZipEntry(Lossy(data[off + 46..nameEnd]), U16At(data, off + 10), U32At(data, off + 20),
                              U32At(data, off + 24), U32At(data, off + 42));
        Ok(Central(entry, nameEnd + U16At(data, off + 30) + U16At(data, off + 32)))
  }

  function ReadCentrals(data: Bytes, off: nat, n: nat): Result<seq<ZipEntry>, Error>
    decreases n
  {
    if n == 0 then Ok([])
    else
      match ReadCentral(data, off)
      case Err(e) => Err(e)
      case Ok(record) =>
        match ReadCentrals(data, record.next, n - 1)
        case Err(e) => Err(e)
        case Ok(rest) => Ok([record.entry] + rest)
  }

  function OpenResult(data: Bytes): Result<ZipArchive, Error> {
    match Eocd(data)
    case Err(e) => Err(e)
    case Ok(eocd) =>
      EocdInside(data);
      match ReadCentrals(data, U32At(data, eocd + 16), U16At(data, eocd + 10))
      case Err(e) => Err(e)
      case Ok(entries) => Ok(ZipArchive(data, entries))
  }

  lemma EocdInside(data: Bytes)
    requires Eocd(data).Ok?
    ensures Eocd(data).value + 22 <= |data|
  {
  }

  method Open(data: Bytes) returns (r: Result<ZipArchive, Error>)
    ensures r == OpenResult(data)
  {
    hide Eocd, ReadCentral, U32At, U16At;
    var eocd := FindEocd(data);
    if eocd.Err? {
      return Err(eocd.error);
    }
    EocdInside(data);
    var off: nat, cdEntries := U32At(data, eocd.value + 16), U16At(data, eocd.value + 10);
    var entries: seq<ZipEntry> := [];
    ghost var all := ReadCentrals(data, off, cdEntries);
    assert all.Ok? ==> [] + all.value == all.value;
    for i := 0 to cdEntries
      invariant all.Err? <==> ReadCentrals(data, off, cdEntries - i).Err?
      invariant all.Err? ==> all == ReadCentrals(data, off, cdEntries - i)
      invariant all.Ok? ==> all.value == entries + ReadCentrals(data, off, cdEntries - i).value
    {
      var record := ReadCentral(data, off);
      if record.Err? {
        return Err(record.error);
      }
      entries := entries + [record.value.entry];
      off := record.value.next;
    }
    assert ReadCentrals(data, off, 0) == Ok([]);
    assert entries + [] == entries;
    assert all == Ok(entries);
    r := Ok(ZipArchive(data, entries));
  }

  /** `ZipArchive::read`. */
  function Read(zip: ZipArchive, entry: ZipEntry, inflate: Inflater): Result<Bytes, Error> {
    var lfh := entry.localHeaderOffset;
    if lfh + 30 > |zip.data| then Err(InvalidZip("truncated local file header"))
    else if U32At(zip.data, lfh) != LFH_SIG then Err(InvalidZip("bad local file header signature"))
    else
      var dataStart := lfh + 30 + U16At(zip.data, lfh + 26) + U16At(zip.data, lfh + 28);
      var dataEnd := dataStart + entry.compressedSize;
      if dataEnd > |zip.data| then Err(InvalidZip("truncated compressed data"))
      else
        var compressed := zip.data[dataStart..dataEnd];
        if entry.compression == 0 then Ok(compressed)
        else if entry.compression == 8 then
          match inflate(compressed)
          case Some(v) => Ok(v)
          case None => Err(InflateFailed)
        else Err(UnsupportedCompression(entry.compression))
  }

  // ----- the writer's records, read back -----

  /** The entry a stored file gets when its local header stands at `off`. */
  function EntryFor(f: File, off: u32): ZipEntry
    requires Fits(f)
  {
    ZipEntry(f.name, 0, |f.data|, |f.data|, off)
  }

  lemma CentralFields(f: File, off: u32)
    requires Fits(f)
    ensures var h := CentralHeader(f, off);
      && U32At(h, 0) == CDFH_SIG && U16At(h, 10) == 0 && U32At(h, 20) == |f.data| && U32At(h, 24) == |f.data|
      && U16At(h, 28) == |f.name| && U16At(h, 30) == 0 && U16At(h, 32) == 0 && U32At(h, 42) == off
  {
    hide Le16, Le32, U16At, U32At, CrcOf, CentralSizes;
    var h := CentralHeader(f, off);
    var versions := Le16(20) + Le16(20) + Le16(0);
    var stamp := Le16(0) + Le16(0) + Le32(CrcOf(f.data));
    var attributes := Le16(0) + Le16(0) + Le32(0);
    var tail := attributes + Le32(off);
    var sizes := CentralSizes(f) + tail;
    assert At(h, 0, Le32(CDFH_SIG) + (versions + (Le16(0) + (stamp + sizes))));
    AtSplits(h, 0, Le32(CDFH_SIG), versions + (Le16(0) + (stamp + sizes)));
    AtSplits(h, 4, versions, Le16(0) + (stamp + sizes));
    AtSplits(h, 10, Le16(0), stamp + sizes);
    AtSplits(h, 12, stamp, sizes);
    AtSplits(h, 20, CentralSizes(f), tail);
    AtSplits(h, 34, attributes, Le32(off));
    FieldInWindow(h, 0, Le32(CDFH_SIG), 0);
    FieldInWindow(h, 10, Le16(0), 0);
    FieldInWindow(h, 42, Le32(off), 0);
    SizeFields(h, f);
  }

  lemma SizeFields(h: Bytes, f: File)
    requires Fits(f) && At(h, 20, CentralSizes(f))
    ensures U32At(h, 20) == |f.data| && U32At(h, 24) == |f.data|
    ensures U16At(h, 28) == |f.name| && U16At(h, 30) == 0 && U16At(h, 32) == 0
  {
    hide Le16, Le32, U16At, U32At;
    var size, lengths := Le32(|f.data|), Le16(0) + Le16(0);
    AtSplits(h, 20, size, size + (Le16(|f.name|) + lengths));
    AtSplits(h, 24, size, Le16(|f.name|) + lengths);
    AtSplits(h, 28, Le16(|f.name|), lengths);
    AtSplits(h, 30, Le16(0), Le16(0));
    FieldInWindow(h, 20, size, 0);
    FieldInWindow(h, 24, size, 0);
    FieldInWindow(h, 28, Le16(|f.name|), 0);
    FieldInWindow(h, 30, Le16(0), 0);
    FieldInWindow(h, 32, Le16(0), 0);
  }

  lemma LocalFields(f: File)
    requires Fits(f)
    ensures var h := LocalHeader(f);
      U32At(h, 0) == LFH_SIG && U16At(h, 26) == |f.name| && U16At(h, 28) == 0
  {
    hide Le16, Le32, U16At, U32At, LocalMiddle;
    var h := LocalHeader(f);
    var lengths := Le16(|f.name|) + Le16(0);
    assert At(h, 0, Le32(LFH_SIG) + (LocalMiddle(f) + lengths));
    AtSplits(h, 0, Le32(LFH_SIG), LocalMiddle(f) + lengths);
    AtSplits(h, 4, LocalMiddle(f), lengths);
    AtSplits(h, 26, Le16(|f.name|), Le16(0));
    FieldInWindow(h, 0, Le32(LFH_SIG), 0);
    FieldInWindow(h, 26, Le16(|f.name|), 0);
    FieldInWindow(h, 28, Le16(0), 0);
  }

  lemma EndFields(count: u16, size: u32, start: u32)
    ensures var h := EndRecord(count, size, start);
      U32At(h, 0) == EOCD_SIG && U16At(h, 10) == count && U32At(h, 16) == start
  {
    hide Le16, Le32, U16At, U32At;
    var h := EndRecord(count, size, start);
    var disks := Le16(0) + Le16(0) + Le16(count);
    var last := Le32(start) + Le16(0);
    assert At(h, 0, Le32(EOCD_SIG) + (disks + (Le16(count) + (Le32(size) + last))));
    AtSplits(h, 0, Le32(EOCD_SIG), disks + (Le16(count) + (Le32(size) + last)));
    AtSplits(h, 4, disks, Le16(count) + (Le32(size) + last));
    AtSplits(h, 10, Le16(count), Le32(size) + last);
    AtSplits(h, 12, Le32(size), last);
    AtSplits(h, 16, Le32(start), Le16(0));
    FieldInWindow(h, 0, Le32(EOCD_SIG), 0);
    FieldInWindow(h, 10, Le16(count), 0);
    FieldInWindow(h, 16, Le32(start), 0);
  }

  /** A central header reads back as its entry, and the cursor lands behind the name. */
  lemma CentralRoundTrip(data: Bytes, at: nat, f: File, off: u32)
    requires Fits(f) && At(data, at, CentralHeader(f, off) + f.name)
    ensures ReadCentral(data, at) == Ok(Central(EntryFor(f, off), at + 46 + |f.name|))
  {
    hide CentralHeader, U16At, U32At, Lossy, ValidUtf8;
    var h := CentralHeader(f, off);
    AtSplits(data, at, h, f.name);
    CentralFields(f, off);
    U32InWindow(data, at, h, 0);
    U16InWindow(data, at, h, 10);
    U32InWindow(data, at, h, 20);
    U32InWindow(data, at, h, 24);
    U16InWindow(data, at, h, 28);
    U16InWindow(data, at, h, 30);
    U16InWindow(data, at, h, 32);
    U32InWindow(data, at, h, 42);
    LossyIsStr(f.name);
  }

  /** A stored file's entry reads back as the file's data. */
  lemma LocalRoundTrip(zip: ZipArchive, f: File, off: u32, inflate: Inflater)
    requires Fits(f) && At(zip.data, off, Local(f))
    ensures Read(zip, EntryFor(f, off), inflate) == Ok(f.data)
  {
    hide LocalHeader, U16At, U32At;
    var h := LocalHeader(f);
    AtSplits(zip.data, off, h, f.name + f.data);
    AtSplits(zip.data, off + 30, f.name, f.data);
    LocalFields(f);
    U32InWindow(zip.data, off, h, 0);
    U16InWindow(zip.data, off, h, 26);
    U16InWindow(zip.data, off, h, 28);
  }
}
