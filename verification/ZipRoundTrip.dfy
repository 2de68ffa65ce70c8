/** Reading back what the writer wrote. */
module ZipRoundTrip {
  import opened Words
  import opened Text
  import opened ZipFormat
  import opened ZipRead

  /** The entries of an archive whose first local header stands at `at`. */
  function EntriesFor(files: seq<File>, at: nat): (entries: seq<ZipEntry>)
    requires AllFit(files) && at + |Locals(files)| < TWO_32
    ensures |entries| == |files|
    decreases |files|
  {
    if files == [] then [] else [EntryFor(files[0], at)] + EntriesFor(files[1..], at + |Local(files[0])|)
  }

  /** Walking the central directory finds every entry, in order, with its back-patched offset. */
  lemma {:induction false} CentralsRoundTrip(data: Bytes, off: nat, files: seq<File>, at: nat)
    requires AllFit(files) && at + |Locals(files)| < TWO_32
    requires At(data, off, Centrals(files, at))
    ensures ReadCentrals(data, off, |files|) == Ok(EntriesFor(files, at))
    decreases |files|
  {
    hide CentralHeader, Local, ReadCentral, EntryFor, Fits, At, ValidUtf8;
    if files != [] {
      var f, next := files[0], at + |Local(files[0])|;
      var h, rest := CentralHeader(f, at % TWO_32), Centrals(files[1..], next);
      assert h + (f.name + rest) == (h + f.name) + rest;
      AtSplits(data, off, h + f.name, rest);
      CentralRoundTrip(data, off, f, at);
      CentralsRoundTrip(data, off + 46 + |f.name|, files[1..], next);
    }
  }

  /** Each of those entries reads back as its own file's data. */
  lemma {:induction false} LocalsRoundTrip(zip: ZipArchive, files: seq<File>, at: nat, inflate: Inflater, i: nat)
    requires AllFit(files) && at + |Locals(files)| < TWO_32 && i < |files|
    requires At(zip.data, at, Locals(files))
    ensures EntriesFor(files, at)[i].name == files[i].name
    ensures Read(zip, EntriesFor(files, at)[i], inflate) == Ok(files[i].data)
    decreases |files|
  {
    hide Local, Fits, Read;
    AtSplits(zip.data, at, Local(files[0]), Locals(files[1..]));
    if i == 0 {
      LocalRoundTrip(zip, files[0], at, inflate);
    } else {
      LocalsRoundTrip(zip, files[1..], at + |Local(files[0])|, inflate, i - 1);
    }
  }

  /** The three parts of the archive stand where its end record and offsets say. */
  lemma PartsStand(files: seq<File>)
    requires AllFit(files) && |files| <= 0xffff
    ensures var zip, l, c := StoredZip(files), Locals(files), Centrals(files, 0);
      && At(zip, 0, l) && At(zip, |l|, c) && |zip| == |l| + |c| + 22
      && U32At(zip, |l| + |c|) == EOCD_SIG && U16At(zip, |l| + |c| + 10) == |files|
      && U32At(zip, |l| + |c| + 16) == |l| % TWO_32
  {
    hide Locals, Centrals, EndRecord, U16At, U32At, Fits;
    var zip, l, c := StoredZip(files), Locals(files), Centrals(files, 0);
    var size, start := SaturatingSub((|l| + |c|) % TWO_32, |l| % TWO_32), |l| % TWO_32;
    var e := EndRecord(|files|, size, start);
    assert At(zip, 0, l + (c + e));
    AtSplits(zip, 0, l, c + e);
    AtSplits(zip, |l|, c, e);
    EndFields(|files|, size, start);
    U32InWindow(zip, |l| + |c|, e, 0);
    U16InWindow(zip, |l| + |c|, e, 10);
    U32InWindow(zip, |l| + |c|, e, 16);
  }

  /** The backwards scan stops at once: without a comment the end record is the last 22 bytes. */
  lemma EndFound(files: seq<File>)
    requires AllFit(files) && |files| <= 0xffff
    ensures Eocd(StoredZip(files)) == Ok(|Locals(files)| + |Centrals(files, 0)|)
  {
    hide Locals, Centrals, StoredZip, U32At, U16At, Fits;
    PartsStand(files);
  }

  /** Opening a stored archive succeeds and lists exactly its files. */
  lemma ArchiveOpens(files: seq<File>)
    requires AllFit(files) && |files| <= 0xffff && |Locals(files)| < TWO_32
    ensures OpenResult(StoredZip(files)) == Ok(ZipArchive(StoredZip(files), EntriesFor(files, 0)))
  {
    hide Locals, Centrals, StoredZip, U32At, U16At, Fits, Eocd, EntriesFor, ReadCentrals;
    PartsStand(files);
    EndFound(files);
    CentralsRoundTrip(StoredZip(files), |Locals(files)|, files, 0);
  }

  /** The `i`-th entry of the opened archive has the `i`-th file's name and reads as its data. */
  lemma ZipRoundTrip(files: seq<File>, inflate: Inflater, i: nat)
    requires AllFit(files) && |files| <= 0xffff && |Locals(files)| < TWO_32
    requires i < |files|
    ensures OpenResult(StoredZip(files)).Ok?
    ensures var zip := OpenResult(StoredZip(files)).value;
      && |zip.entries| == |files| && zip.entries[i].name == files[i].name
      && Read(zip, zip.entries[i], inflate) == Ok(files[i].data)
  {
    hide Locals, Centrals, StoredZip, U32At, U16At, Fits, Read, Eocd, EntriesFor, ReadCentrals, OpenResult;
    ArchiveOpens(files);
    PartsStand(files);
    LocalsRoundTrip(OpenResult(StoredZip(files)).value, files, 0, inflate, i);
  }

  /**
   * The size bound is needed. The end record only keeps the directory offset modulo 2^32, so an archive
   * of at least one file opens only if a central header happens to stand where that remainder points.
   */
  lemma TruncatedOffsetFails(files: seq<File>)
    requires AllFit(files) && 0 < |files| <= 0xffff
    ensures var zip, start := StoredZip(files), |Locals(files)| % TWO_32;
      start + 46 <= |zip|
      && (U32At(zip, start) != 0x0201_4b50 ==> OpenResult(zip) == Err(InvalidZip("bad central directory signature")))
  {
    hide Centrals, StoredZip, U32At, U16At, Fits, Eocd, Locals;
    PartsStand(files);
    EndFound(files);
    CentralsNotEmpty(files);
    var start := |Locals(files)| % TWO_32;
    if U32At(StoredZip(files), start) != CDFH_SIG {
      FirstRecordFails(StoredZip(files), start, |files|);
    }
  }

  lemma CentralsNotEmpty(files: seq<File>)
    requires AllFit(files) && files != []
    ensures |Centrals(files, 0)| >= 46
  {
    hide CentralHeader, Fits;
  }

  lemma FirstRecordFails(data: Bytes, start: nat, n: nat)
    requires n > 0 && start + 46 <= |data| && U32At(data, start) != CDFH_SIG
    ensures ReadCentrals(data, start, n) == Err(InvalidZip("bad central directory signature"))
  {
    hide U32At, U16At;
  }

  /** When the local part is a positive multiple of 2^32 the remainder points at a local header: opening fails. */
  lemma WholeWrapFails(files: seq<File>)
    requires AllFit(files) && 0 < |files| <= 0xffff && |Locals(files)| % TWO_32 == 0
    ensures OpenResult(StoredZip(files)) == Err(InvalidZip("bad central directory signature"))
  {
    hide Centrals, StoredZip, U32At, U16At, Fits, Eocd, LocalHeader;
    var zip := StoredZip(files);
    PartsStand(files);
    var f, h := files[0], LocalHeader(files[0]);
    AtSplits(zip, 0, Local(f), Locals(files[1..]));
    AtSplits(zip, 0, h, f.name + f.data);
    LocalFields(f);
    U32InWindow(zip, 0, h, 0);
    TruncatedOffsetFails(files);
  }
}
