/** Archives by the records of the format (PKWARE APPNOTE, sections 4.3.7, 4.3.12 and 4.3.16), whoever wrote them. */
module ZipLayout {
  import opened Words
  import opened Text
  import opened Packed
  import opened ZipFormat
  import opened ZipRead
  import Crc32

  // ----- the end record -----

  datatype End = End(disk: u16, startDisk: u16, countHere: u16, count: u16, size: u32, offset: u32, comment: Bytes)

  function EndFields(e: End): seq<Field>
    requires |e.comment| <= 0xffff
  {
    [Word(0x0605_4b50), Half(e.disk), Half(e.startDisk), Half(e.countHere), Half(e.count), Word(e.size), Word(e.offset),
     Half(|e.comment|), Raw(e.comment)]
  }

  lemma EndLayout(data: Bytes, at: nat, e: End)
    requires |e.comment| <= 0xffff && At(data, at, Struct(EndFields(e)))
    ensures at + 22 + |e.comment| <= |data| && U32At(data, at) == 0x0605_4b50
    ensures U16At(data, at + 10) == e.count && U32At(data, at + 16) == e.offset
  {
    hide U16At, U32At, Struct, At, Encode;
    var f := EndFields(e);
    FirstField(f);
    hide Start;
    NextField(f, 0);
    NextField(f, 1);
    NextField(f, 2);
    NextField(f, 3);
    NextField(f, 4);
    NextField(f, 5);
    NextField(f, 6);
    NextField(f, 7);
    NextField(f, 8);
    StructFits(data, at, f);
    FieldReads(data, at, f, 0);
    FieldReads(data, at, f, 4);
    FieldReads(data, at, f, 6);
  }

  /** No end signature stands behind `at` where a record of 22 bytes would still fit. */
  predicate LastSignature(data: Bytes, at: nat) {
    forall j :: at < j && j + 22 <= |data| ==> U32At(data, j) != 0x0605_4b50
  }

  /** The scan finds the last signature that leaves room for a record and at most 65535 bytes of comment behind it. */
  lemma EocdExact(data: Bytes, at: nat)
    ensures at + 22 <= |data| <= at + 65557 && U32At(data, at) == 0x0605_4b50 && LastSignature(data, at) ==>
      Eocd(data) == Ok(at)
    ensures |data| < 22 ==> Eocd(data) == Err(InvalidZip("file too small"))
    ensures |data| >= 22 && (forall j: nat :: j + 22 <= |data| <= j + 65557 ==> U32At(data, j) != 0x0605_4b50) ==>
      Eocd(data) == Err(InvalidZip("EOCD not found"))
  {
    hide U32At;
  }

  // ----- the central directory -----

  datatype CentralRecord = CentralRecord(madeBy: u16, needed: u16, flags: u16, compression: u16, time: u16, date: u16,
                                         crc: u32, compressedSize: u32, uncompressedSize: u32, disk: u16,
                                         internal: u16, external: u32, offset: u32,
                                         name: Bytes, extra: Bytes, comment: Bytes)

  predicate GoodRecord(r: CentralRecord) {
    |r.name| <= 0xffff && |r.extra| <= 0xffff && |r.comment| <= 0xffff
  }

  function RecordFields(r: CentralRecord): seq<Field>
    requires GoodRecord(r)
  {
    [Word(0x0201_4b50), Half(r.madeBy), Half(r.needed), Half(r.flags), Half(r.compression), Half(r.time), Half(r.date),
     Word(r.crc), Word(r.compressedSize), Word(r.uncompressedSize), Half(|r.name|), Half(|r.extra|), Half(|r.comment|),
     Half(r.disk), Half(r.internal), Word(r.external), Word(r.offset), Raw(r.name), Raw(r.extra), Raw(r.comment)]
  }

  /** The entry listed for a record: names that are not UTF-8 are repaired. */
  function EntryOf(r: CentralRecord): ZipEntry {
    LossyIsStr(r.name);
    ZipEntry(Lossy(r.name), r.compression, r.compressedSize, r.uncompressedSize, r.offset)
  }

  lemma RecordOffsets(r: CentralRecord)
    requires GoodRecord(r)
    ensures var f := RecordFields(r);
      && Start(f, 0) == 0 && Start(f, 4) == 10 && Start(f, 8) == 20 && Start(f, 9) == 24 && Start(f, 10) == 28
      && Start(f, 11) == 30 && Start(f, 12) == 32 && Start(f, 16) == 42 && Start(f, 17) == 46
      && Start(f, 20) == 46 + |r.name| + |r.extra| + |r.comment|
  {
    hide Start, Encode;
    FrontOffsets(r);
    BackOffsets(r);
  }

  lemma FrontOffsets(r: CentralRecord)
    requires GoodRecord(r)
    ensures var f := RecordFields(r);
      Start(f, 0) == 0 && Start(f, 4) == 10 && Start(f, 8) == 20 && Start(f, 9) == 24 && Start(f, 10) == 28
  {
    var f := RecordFields(r);
    FirstField(f);
    hide Start, Encode;
    NextField(f, 0);
    NextField(f, 1);
    NextField(f, 2);
    NextField(f, 3);
    NextField(f, 4);
    NextField(f, 5);
    NextField(f, 6);
    NextField(f, 7);
    NextField(f, 8);
    NextField(f, 9);
  }

  lemma BackOffsets(r: CentralRecord)
    requires GoodRecord(r) && Start(RecordFields(r), 10) == 28
    ensures var f := RecordFields(r);
      && Start(f, 11) == 30 && Start(f, 12) == 32 && Start(f, 16) == 42 && Start(f, 17) == 46
      && Start(f, 20) == 46 + |r.name| + |r.extra| + |r.comment|
  {
    hide Start, Encode;
    var f := RecordFields(r);
    NextField(f, 10);
    NextField(f, 11);
    NextField(f, 12);
    NextField(f, 13);
    NextField(f, 14);
    NextField(f, 15);
    NextField(f, 16);
    NextField(f, 17);
    NextField(f, 18);
    NextField(f, 19);
  }

  /** A central header with any fields is read as its entry; the next one is looked for behind name, extra and comment. */
  lemma CentralLayout(data: Bytes, at: nat, r: CentralRecord)
    requires GoodRecord(r) && At(data, at, Struct(RecordFields(r)))
    ensures ReadCentral(data, at) == Ok(Central(EntryOf(r), at + 46 + |r.name| + |r.extra| + |r.comment|))
  {
    hide U16At, U32At, Struct, Start, At, Encode, Lossy, ValidUtf8;
    var f := RecordFields(r);
    RecordOffsets(r);
    StructFits(data, at, f);
    FieldReads(data, at, f, 0);
    FieldReads(data, at, f, 4);
    FieldReads(data, at, f, 8);
    FieldReads(data, at, f, 9);
    FieldReads(data, at, f, 10);
    FieldReads(data, at, f, 11);
    FieldReads(data, at, f, 12);
    FieldReads(data, at, f, 16);
    FieldReads(data, at, f, 17);
  }

  /** What stops the directory walk: no room for a header, another signature, or a name that leaves the data. */
  lemma CentralRefused(data: Bytes, at: nat)
    ensures at + 46 > |data| ==> ReadCentral(data, at) == Err(InvalidZip("truncated central directory"))
    ensures at + 46 <= |data| && U32At(data, at) != 0x0201_4b50 ==>
      ReadCentral(data, at) == Err(InvalidZip("bad central directory signature"))
    ensures at + 46 <= |data| && U32At(data, at) == 0x0201_4b50 && at + 46 + U16At(data, at + 28) > |data| ==>
      ReadCentral(data, at) == Err(InvalidZip("truncated filename"))
  {
    hide U16At, U32At, Lossy, ValidUtf8;
  }

  predicate GoodRecords(records: seq<CentralRecord>) {
    forall r :: r in records ==> GoodRecord(r)
  }

  function Directory(records: seq<CentralRecord>): Bytes
    requires GoodRecords(records)
  {
    if records == [] then [] else Struct(RecordFields(records[0])) + Directory(records[1..])
  }

  function EntriesOf(records: seq<CentralRecord>): (entries: seq<ZipEntry>)
    ensures |entries| == |records|
    ensures forall i :: 0 <= i < |records| ==> entries[i] == EntryOf(records[i])
  {
    seq(|records|, i requires 0 <= i < |records| => EntryOf(records[i]))
  }

  lemma {:induction false} DirectoryRead(data: Bytes, at: nat, records: seq<CentralRecord>)
    requires GoodRecords(records) && At(data, at, Directory(records))
    ensures ReadCentrals(data, at, |records|) == Ok(EntriesOf(records))
    decreases |records|
  {
    hide ReadCentral, RecordFields, Struct, EntryOf, GoodRecord, At;
    if records != [] {
      var r, rest := records[0], records[1..];
      AtSplits(data, at, Struct(RecordFields(r)), Directory(rest));
      CentralLayout(data, at, r);
      RecordSize(r);
      DirectoryRead(data, at + |Struct(RecordFields(r))|, rest);
      assert EntriesOf(records) == [EntryOf(r)] + EntriesOf(rest);
    }
  }

  lemma RecordSize(r: CentralRecord)
    requires GoodRecord(r)
    ensures |Struct(RecordFields(r))| == 46 + |r.name| + |r.extra| + |r.comment|
  {
    hide Struct, Start, Encode;
    RecordOffsets(r);
    StructSize(RecordFields(r));
  }

  // ----- local parts -----

  datatype LocalRecord = LocalRecord(needed: u16, flags: u16, compression: u16, time: u16, date: u16, crc: u32,
                                     compressedSize: u32, uncompressedSize: u32,
                                     name: Bytes, extra: Bytes, content: Bytes)

  function PartFields(r: LocalRecord): seq<Field>
    requires |r.name| <= 0xffff && |r.extra| <= 0xffff
  {
    [Word(0x0403_4b50), Half(r.needed), Half(r.flags), Half(r.compression), Half(r.time), Half(r.date), Word(r.crc),
     Word(r.compressedSize), Word(r.uncompressedSize), Half(|r.name|), Half(|r.extra|), Raw(r.name), Raw(r.extra),
     Raw(r.content)]
  }

  lemma PartOffsets(r: LocalRecord)
    requires |r.name| <= 0xffff && |r.extra| <= 0xffff
    ensures var f := PartFields(r);
      && Start(f, 0) == 0 && Start(f, 9) == 26 && Start(f, 10) == 28
      && Start(f, 13) == 30 + |r.name| + |r.extra| && Start(f, 14) == 30 + |r.name| + |r.extra| + |r.content|
  {
    var f := PartFields(r);
    FirstField(f);
    hide Start, Encode;
    NextField(f, 0);
    NextField(f, 1);
    NextField(f, 2);
    NextField(f, 3);
    NextField(f, 4);
    NextField(f, 5);
    NextField(f, 6);
    NextField(f, 7);
    NextField(f, 8);
    NextField(f, 9);
    NextField(f, 10);
    NextField(f, 11);
    NextField(f, 12);
    NextField(f, 13);
  }

  /** What an entry's content stands for: itself, or what it inflates to. */
  function Expanded(compression: u16, content: Bytes, inflate: Inflater): Result<Bytes, Error> {
    if compression == 0 then Ok(content)
    else if compression != 8 then Err(UnsupportedCompression(compression))
    else if inflate(content).Some? then Ok(inflate(content).value)
    else Err(InflateFailed)
  }

  /** An entry is read from the content behind the name and extra bytes of its local part, by the entry's own method. */
  lemma LocalLayout(zip: ZipArchive, entry: ZipEntry, r: LocalRecord, inflate: Inflater)
    requires |r.name| <= 0xffff && |r.extra| <= 0xffff && |r.content| == entry.compressedSize
    requires At(zip.data, entry.localHeaderOffset, Struct(PartFields(r)))
    ensures Read(zip, entry, inflate) == Expanded(entry.compression, r.content, inflate)
  {
    hide U16At, U32At, Struct, Start, At, Encode, ValidUtf8;
    var f, at := PartFields(r), entry.localHeaderOffset;
    PartOffsets(r);
    StructFits(zip.data, at, f);
    FieldReads(zip.data, at, f, 0);
    FieldReads(zip.data, at, f, 9);
    FieldReads(zip.data, at, f, 10);
    FieldReads(zip.data, at, f, 13);
  }

  /** What is refused: no room for a local header, another signature, or content that leaves the data. */
  lemma ReadRefused(zip: ZipArchive, entry: ZipEntry, inflate: Inflater)
    ensures var at, d, r := entry.localHeaderOffset, zip.data, Read(zip, entry, inflate);
      if at + 30 > |d| then r == Err(InvalidZip("truncated local file header"))
      else if U32At(d, at) != 0x0403_4b50 then r == Err(InvalidZip("bad local file header signature"))
      else at + 30 + U16At(d, at + 26) + U16At(d, at + 28) + entry.compressedSize > |d| ==>
        r == Err(InvalidZip("truncated compressed data"))
  {
    hide U16At, U32At, ValidUtf8;
  }

  // ----- whole archives -----

  /** The archive's records: its directory where the end record says, and that record the last in the window. */
  predicate Archive(data: Bytes, records: seq<CentralRecord>, e: End, at: nat) {
    && GoodRecords(records) && |records| == e.count && At(data, e.offset, Directory(records))
    && |e.comment| <= 0xffff && At(data, at, Struct(EndFields(e)))
    && |data| <= at + 65557 && LastSignature(data, at)
  }

  /** Opening lists the entries of exactly the central headers, in order, with any extra fields and comments. */
  lemma ArchiveListed(data: Bytes, records: seq<CentralRecord>, e: End, at: nat)
    requires Archive(data, records, e, at)
    ensures OpenResult(data) == Ok(ZipArchive(data, EntriesOf(records)))
  {
    hide U16At, U32At, EndFields, Directory, Struct, Eocd, ReadCentrals, LastSignature, EntriesOf;
    EndLayout(data, at, e);
    EocdExact(data, at);
    DirectoryRead(data, e.offset, records);
  }

  /** The entries of an archive read as what their local parts hold, wherever those stand. */
  lemma ArchiveReads(data: Bytes, records: seq<CentralRecord>, e: End, at: nat, i: nat, part: LocalRecord, inflate: Inflater)
    requires Archive(data, records, e, at) && i < |records|
    requires |part.name| <= 0xffff && |part.extra| <= 0xffff && |part.content| == records[i].compressedSize
    requires At(data, records[i].offset, Struct(PartFields(part)))
    ensures OpenResult(data).Ok?
    ensures var zip := OpenResult(data).value;
      && |zip.entries| == |records| && zip.entries[i].name == Lossy(records[i].name)
      && Read(zip, zip.entries[i], inflate) == Expanded(records[i].compression, part.content, inflate)
  {
    hide OpenResult, Archive, Read, Struct, PartFields, Expanded, Lossy, ValidUtf8;
    ArchiveListed(data, records, e, at);
    LocalLayout(OpenResult(data).value, EntriesOf(records)[i], part, inflate);
  }

  /** The end record at the very end of the data, its comment included, is in the window. */
  lemma CommentedArchive(prefix: Bytes, records: seq<CentralRecord>, e: End)
    requires |e.comment| <= 0xffff
    ensures var data := prefix + Struct(EndFields(e));
      && |data| == |prefix| + 22 + |e.comment| <= |prefix| + 65557
      && At(data, |prefix|, Struct(EndFields(e)))
  {
    hide Struct, Encode, EndFields;
    EndSize(e);
  }

  lemma EndSize(e: End)
    requires |e.comment| <= 0xffff
    ensures |Struct(EndFields(e))| == 22 + |e.comment|
  {
    hide Struct, Encode;
    var f := EndFields(e);
    StructSize(f);
    FirstField(f);
    hide Start;
    NextField(f, 0);
    NextField(f, 1);
    NextField(f, 2);
    NextField(f, 3);
    NextField(f, 4);
    NextField(f, 5);
    NextField(f, 6);
    NextField(f, 7);
    NextField(f, 8);
  }

  // ----- the repository's own writer -----

  lemma {:induction false} StructConcat(a: seq<Field>, b: seq<Field>)
    ensures Struct(a + b) == Struct(a) + Struct(b)
  {
    hide Encode;
    if a == [] {
      assert a + b == b;
    } else {
      assert (a + b)[0] == a[0] && (a + b)[1..] == a[1..] + b;
      StructConcat(a[1..], b);
    }
  }

  lemma StructOne(f: Field)
    ensures Struct([f]) == Encode(f)
  {
    assert Encode(f) + [] == Encode(f);
  }

  lemma StructThree(f: Field, g: Field, h: Field)
    ensures Struct([f, g, h]) == Encode(f) + Encode(g) + Encode(h)
  {
    hide Encode;
    StructOne(f);
    StructOne(g);
    StructOne(h);
    hide Struct;
    assert [f, g, h] == ([f] + [g]) + [h];
    StructConcat([f] + [g], [h]);
    StructConcat([f], [g]);
  }

  /** The end record of a directory: this disk, both counts, its size and its offset, no comment. */
  lemma EndWritten(count: u16, size: u32, start: u32)
    ensures EndRecord(count, size, start) == Struct(EndFields(End(0, 0, count, count, size, start, [])))
  {
    hide Le16, Le32;
    var f := EndFields(End(0, 0, count, count, size, start, []));
    var disks, last := [Half(0), Half(0), Half(count)], [Word(start), Half(0), Raw([])];
    assert f == [Word(0x0605_4b50)] + (disks + ([Half(count)] + ([Word(size)] + last)));
    StructThree(Half(0), Half(0), Half(count));
    StructThree(Word(start), Half(0), Raw([]));
    StructOne(Word(0x0605_4b50));
    StructOne(Half(count));
    StructOne(Word(size));
    hide Struct;
    StructConcat([Word(size)], last);
    StructConcat([Half(count)], [Word(size)] + last);
    StructConcat(disks, [Half(count)] + ([Word(size)] + last));
    StructConcat([Word(0x0605_4b50)], disks + ([Half(count)] + ([Word(size)] + last)));
    assert Le32(start) + Le16(0) + [] == Le32(start) + Le16(0);
  }

  /** The central header of a stored file: version 2.0, method 0, no flags, times or attributes, nothing but the name. */
  function RecordFor(f: File, off: u32): CentralRecord
    requires Fits(f)
  {
    CentralRecord(20, 20, 0, 0, 0, 0, CrcOf(f.data), |f.data|, |f.data|, 0, 0, 0, off, f.name, [], [])
  }

  lemma SizesWritten(f: File)
    requires Fits(f)
    ensures CentralSizes(f) == Struct([Word(|f.data|), Word(|f.data|), Half(|f.name|), Half(0), Half(0)])
  {
    hide Le16, Le32;
    var size, name := Word(|f.data|), Half(|f.name|);
    assert [size, size, name, Half(0), Half(0)] == [size] + ([size] + [name, Half(0), Half(0)]);
    StructOne(size);
    StructThree(name, Half(0), Half(0));
    hide Struct;
    StructConcat([size], [name, Half(0), Half(0)]);
    StructConcat([size], [size] + [name, Half(0), Half(0)]);
    assert Le16(|f.name|) + Le16(0) + Le16(0) == Le16(|f.name|) + (Le16(0) + Le16(0));
  }

  lemma CentralTail(off: u32, name: Bytes)
    ensures Struct([Word(off), Raw(name), Raw([]), Raw([])]) == Le32(off) + name
  {
    hide Le32;
    StructOne(Word(off));
    StructThree(Raw(name), Raw([]), Raw([]));
    hide Struct;
    assert [Word(off), Raw(name), Raw([]), Raw([])] == [Word(off)] + [Raw(name), Raw([]), Raw([])];
    StructConcat([Word(off)], [Raw(name), Raw([]), Raw([])]);
    assert name + [] + [] == name;
  }

  lemma CentralWritten(f: File, off: u32)
    requires Fits(f)
    ensures GoodRecord(RecordFor(f, off))
    ensures CentralHeader(f, off) + f.name == Struct(RecordFields(RecordFor(f, off)))
  {
    hide Le16, Le32, CrcOf, CentralSizes;
    var crc := CrcOf(f.data);
    var versions, stamp := [Half(20), Half(20), Half(0)], [Half(0), Half(0), Word(crc)];
    var attributes := [Half(0), Half(0), Word(0)];
    var sizes := [Word(|f.data|), Word(|f.data|), Half(|f.name|), Half(0), Half(0)];
    var last := [Word(off), Raw(f.name), Raw([]), Raw([])];
    assert RecordFields(RecordFor(f, off))
        == [Word(0x0201_4b50)] + (versions + ([Half(0)] + (stamp + (sizes + (attributes + last)))));
    StructOne(Word(0x0201_4b50));
    StructOne(Half(0));
    StructThree(Half(20), Half(20), Half(0));
    StructThree(Half(0), Half(0), Word(crc));
    StructThree(Half(0), Half(0), Word(0));
    SizesWritten(f);
    CentralTail(off, f.name);
    hide Struct;
    StructConcat(attributes, last);
    StructConcat(sizes, attributes + last);
    StructConcat(stamp, sizes + (attributes + last));
    StructConcat([Half(0)], stamp + (sizes + (attributes + last)));
    StructConcat(versions, [Half(0)] + (stamp + (sizes + (attributes + last))));
    StructConcat([Word(0x0201_4b50)], versions + ([Half(0)] + (stamp + (sizes + (attributes + last)))));
    NameBehind(Le32(0x0201_4b50), Le16(20) + Le16(20) + Le16(0), Le16(0), Le16(0) + Le16(0) + Le32(crc), CentralSizes(f),
               Le16(0) + Le16(0) + Le32(0), Le32(off), f.name);
  }

  lemma NameBehind(a: Bytes, b: Bytes, c: Bytes, d: Bytes, e: Bytes, g: Bytes, h: Bytes, name: Bytes)
    ensures (a + (b + (c + (d + (e + (g + h)))))) + name == a + (b + (c + (d + (e + (g + (h + name))))))
  {
  }

  /** The local part of a stored file. */
  function PartFor(f: File): LocalRecord
    requires Fits(f)
  {
    LocalRecord(20, 0, 0, 0, 0, CrcOf(f.data), |f.data|, |f.data|, f.name, [], f.data)
  }

  lemma MiddleWritten(f: File)
    requires Fits(f)
    ensures var size := Word(|f.data|);
      LocalMiddle(f) == Struct([Half(20), Half(0), Half(0), Half(0), Half(0), Word(CrcOf(f.data)), size, size])
  {
    hide Le16, Le32, CrcOf;
    var size, crc := Word(|f.data|), Word(CrcOf(f.data));
    var a, b := [Half(20), Half(0), Half(0)], [Half(0), Half(0), crc];
    assert [Half(20), Half(0), Half(0), Half(0), Half(0), crc, size, size] == ((a + b) + [size]) + [size];
    StructThree(Half(20), Half(0), Half(0));
    StructThree(Half(0), Half(0), crc);
    StructOne(size);
    hide Struct;
    StructConcat(a, b);
    StructConcat(a + b, [size]);
    StructConcat((a + b) + [size], [size]);
    Regroup(Le16(20) + Le16(0) + Le16(0), Le16(0), Le16(0), Encode(crc));
  }

  lemma Regroup(x: Bytes, d: Bytes, e: Bytes, g: Bytes)
    ensures x + (d + e + g) == x + d + e + g
  {
  }

  lemma LocalWritten(f: File)
    requires Fits(f)
    ensures Local(f) == Struct(PartFields(PartFor(f)))
  {
    hide Le16, Le32, CrcOf, LocalMiddle;
    var size := Word(|f.data|);
    var middle := [Half(20), Half(0), Half(0), Half(0), Half(0), Word(CrcOf(f.data)), size, size];
    var lengths, last := [Half(|f.name|)] + [Half(0)], [Raw(f.name), Raw([]), Raw(f.data)];
    assert PartFields(PartFor(f)) == [Word(0x0403_4b50)] + (middle + (lengths + last));
    MiddleWritten(f);
    StructOne(Word(0x0403_4b50));
    StructOne(Half(|f.name|));
    StructOne(Half(0));
    StructThree(Raw(f.name), Raw([]), Raw(f.data));
    hide Struct;
    StructConcat([Half(|f.name|)], [Half(0)]);
    StructConcat(lengths, last);
    StructConcat(middle, lengths + last);
    StructConcat([Word(0x0403_4b50)], middle + (lengths + last));
    PartsBehind(Le32(0x0403_4b50), LocalMiddle(f), Le16(|f.name|) + Le16(0), f.name, f.data);
  }

  lemma PartsBehind(a: Bytes, b: Bytes, c: Bytes, name: Bytes, data: Bytes)
    ensures (a + (b + c)) + (name + data) == a + (b + (c + (name + [] + data)))
  {
  }

  /** The checksum in the headers is the CRC-32 of the file's bytes. */
  lemma ChecksumWritten(data: Bytes, octets: seq<bv8>)
    requires |octets| == |data| && forall i :: 0 <= i < |data| ==> octets[i] as int == data[i]
    ensures CrcOf(data) == Crc32.Crc(octets) as int
  {
    hide Crc32.Crc;
    assert octets == seq(|data|, i requires 0 <= i < |data| => data[i] as bv8);
  }

  /** The archive is the local parts, the directory and an end record that gives its length and where it starts. */
  lemma EndOfStored(files: seq<File>)
    requires AllFit(files) && |files| <= 0xffff && |Locals(files)| + |Centrals(files, 0)| < TWO_32
    ensures StoredZip(files)
         == Locals(files) + (Centrals(files, 0)
            + Struct(EndFields(End(0, 0, |files|, |files|, |Centrals(files, 0)|, |Locals(files)|, []))))
  {
    hide Locals, Centrals, Struct, EndRecord, AllFit;
    EndWritten(|files|, |Centrals(files, 0)|, |Locals(files)|);
  }
}
