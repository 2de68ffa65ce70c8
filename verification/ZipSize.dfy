/** How large an archive may be: the names and data lengths that survive a round trip whatever the bytes are. */
module ZipSize {
  import opened Words
  import opened Text
  import Crc32
  import opened ZipFormat
  import opened ZipWrite
  import opened ZipRead
  import opened ZipRoundTrip

  /** The same number of files, with names and data of the same lengths. */
  predicate SameShape(a: seq<File>, b: seq<File>) {
    |a| == |b| && forall i :: 0 <= i < |a| ==> |a[i].name| == |b[i].name| && |a[i].data| == |b[i].data|
  }

  /** Nothing in a stored archive needs inflating. */
  const NO_INFLATER: Inflater := (_: Bytes) => None

  /** Opening the archive of the files lists their names in order, and each entry reads as its file's data. */
  ghost predicate RoundTrips(files: seq<File>)
    requires AllFit(files) && |files| <= 0xffff
  {
    match OpenResult(StoredZip(files))
    case Err(_) => false
    case Ok(zip) =>
      && |zip.entries| == |files|
      && forall i :: 0 <= i < |files| ==>
           zip.entries[i].name == files[i].name && Read(zip, zip.entries[i], NO_INFLATER) == Ok(files[i].data)
  }

  lemma {:induction false} ShapeFits(a: seq<File>, b: seq<File>)
    requires SameShape(a, b) && AllFit(a)
    ensures AllFit(b) && |Locals(a)| == |Locals(b)|
  {
    forall f | f in b ensures Fits(f) {
      var i :| 0 <= i < |b| && b[i] == f;
      assert a[i] in a;
    }
    if a != [] {
      ShapeFits(a[1..], b[1..]);
    }
  }

  lemma SmallRoundTrips(files: seq<File>)
    requires AllFit(files) && |files| <= 0xffff && |Locals(files)| < TWO_32
    ensures RoundTrips(files)
  {
    hide Locals, StoredZip, OpenResult, Read, EntriesFor, Fits;
    ArchiveOpens(files);
    forall i | 0 <= i < |files|
      ensures var zip := OpenResult(StoredZip(files)).value;
        zip.entries[i].name == files[i].name && Read(zip, zip.entries[i], NO_INFLATER) == Ok(files[i].data)
    {
      ZipRoundTrip.ZipRoundTrip(files, NO_INFLATER, i);
    }
  }

  // ----- two contents of one shape that differ in every byte -----

  function Repeat(b: u8, n: nat): (s: Bytes)
    ensures |s| == n
  {
    seq(n, i => b)
  }

  lemma {:induction false} AsciiIsStr(b: u8, n: nat)
    requires b < 0x80
    ensures ValidUtf8(Repeat(b, n))
    decreases n
  {
    if n > 0 {
      AsciiIsStr(b, n - 1);
      ValidPrepend([b], Repeat(b, n - 1));
      assert Repeat(b, n) == [b] + Repeat(b, n - 1);
    }
  }

  /** Files of the shape of `files`, every name byte `letter` and every data byte `fill`. */
  function Filled(files: seq<File>, letter: u8, fill: u8): (r: seq<File>)
    requires letter < 0x80
    ensures SameShape(files, r)
  {
    if files == [] then []
    else
      AsciiIsStr(letter, |files[0].name|);
      [File(Repeat(letter, |files[0].name|), Repeat(fill, |files[0].data|))] + Filled(files[1..], letter, fill)
  }

  /** A file of each of the two contents. */
  predicate Opposite(f0: File, f1: File) {
    && Fits(f0) && Fits(f1) && |f0.name| == |f1.name| && |f0.data| == |f1.data|
    && f0.name == Repeat(0x61, |f0.name|) && f0.data == Repeat(0, |f0.data|)
    && f1.name == Repeat(0x62, |f1.name|) && f1.data == Repeat(1, |f1.data|)
  }

  /** The archive's local part when names are all `a` and data all 0, and when names are all `b` and data all 1. */
  function Low(files: seq<File>): Bytes
    requires AllFit(files)
  {
    ShapeFits(files, Filled(files, 0x61, 0));
    Locals(Filled(files, 0x61, 0))
  }

  function High(files: seq<File>): Bytes
    requires AllFit(files)
  {
    ShapeFits(files, Filled(files, 0x62, 1));
    Locals(Filled(files, 0x62, 1))
  }

  lemma FilledFirst(files: seq<File>, letter: u8, fill: u8)
    requires AllFit(files) && files != [] && letter < 0x80
    ensures AllFit(files[1..]) && AllFit(Filled(files, letter, fill)) && AllFit(Filled(files[1..], letter, fill))
    ensures var f := Filled(files, letter, fill)[0];
      && Fits(f) && f.name == Repeat(letter, |files[0].name|) && f.data == Repeat(fill, |files[0].data|)
      && Locals(Filled(files, letter, fill)) == Local(f) + Locals(Filled(files[1..], letter, fill))
  {
    hide Local, ValidUtf8, Repeat;
    assert files[0] in files;
    var a := Filled(files, letter, fill);
    assert a[1..] == Filled(files[1..], letter, fill);
    assert Fits(files[0]);
    ShapeFits(files, a);
    ShapeFits(files[1..], a[1..]);
  }

  /** The two local parts of a list are those of its first file and of the rest. */
  lemma FirstPart(files: seq<File>)
    requires AllFit(files) && files != []
    ensures AllFit(files[1..])
    ensures var f0, f1 := Filled(files, 0x61, 0)[0], Filled(files, 0x62, 1)[0];
      && Opposite(f0, f1)
      && Low(files) == Local(f0) + Low(files[1..]) && High(files) == Local(f1) + High(files[1..])
  {
    hide Local, Locals, Fits, AllFit, Filled, Repeat, ValidUtf8;
    FilledFirst(files, 0x61, 0);
    FilledFirst(files, 0x62, 1);
  }

  /** Behind the header the two local parts of a file differ at every byte. */
  lemma ContentDiffers(f0: File, f1: File, p: nat)
    requires Opposite(f0, f1) && 30 <= p < |Local(f0)|
    ensures |Local(f1)| == |Local(f0)| && Local(f0)[p] != Local(f1)[p]
  {
    hide LocalHeader, ValidUtf8;
    assert Local(f0)[p] == (f0.name + f0.data)[p - 30];
    assert Local(f1)[p] == (f1.name + f1.data)[p - 30];
  }

  // ----- the bytes of a local header -----

  lemma HeaderStands(f: File)
    requires Fits(f)
    ensures var h := LocalHeader(f);
      && At(h, 0, Le32(LFH_SIG)) && At(h, 4, Le16(20)) && At(h, 6, Le16(0)) && At(h, 8, Le16(0)) && At(h, 10, Le16(0))
      && At(h, 12, Le16(0)) && At(h, 14, Le32(CrcOf(f.data))) && At(h, 18, Le32(|f.data|)) && At(h, 22, Le32(|f.data|))
      && At(h, 26, Le16(|f.name|)) && At(h, 28, Le16(0))
  {
    hide Le16, Le32, CrcOf;
    var h, crc, size := LocalHeader(f), Le32(CrcOf(f.data)), Le32(|f.data|);
    var lengths := Le16(|f.name|) + Le16(0);
    var sized := crc + (size + size);
    var dated := Le16(0) + (Le16(0) + sized);
    var middle := Le16(20) + (Le16(0) + (Le16(0) + dated));
    assert LocalMiddle(f) == middle;
    assert At(h, 0, Le32(LFH_SIG) + (middle + lengths));
    hide LocalMiddle, LocalHeader, At;
    AtSplits(h, 0, Le32(LFH_SIG), middle + lengths);
    AtSplits(h, 4, middle, lengths);
    AtSplits(h, 4, Le16(20), Le16(0) + (Le16(0) + dated));
    AtSplits(h, 6, Le16(0), Le16(0) + dated);
    AtSplits(h, 8, Le16(0), dated);
    AtSplits(h, 10, Le16(0), Le16(0) + sized);
    AtSplits(h, 12, Le16(0), sized);
    AtSplits(h, 14, crc, size + size);
    AtSplits(h, 18, size, size);
    AtSplits(h, 26, Le16(|f.name|), Le16(0));
  }

  lemma TwoAt(h: Bytes, o: nat, x: u8, y: u8)
    requires At(h, o, [x, y])
    ensures h[o] == x && h[o + 1] == y
  {
    assert h[o] == h[o..o + 2][0] && h[o + 1] == h[o..o + 2][1];
  }

  lemma FourAt(h: Bytes, o: nat, x: u8, y: u8, z: u8, w: u8)
    requires At(h, o, [x, y, z, w])
    ensures h[o] == x && h[o + 1] == y && h[o + 2] == z && h[o + 3] == w
  {
    AtSplits(h, o, [x, y], [z, w]);
    assert [x, y] + [z, w] == [x, y, z, w];
    TwoAt(h, o, x, y);
    TwoAt(h, o + 2, z, w);
  }

  lemma SmallWords(v: u8)
    ensures Le16(v) == [v, 0] && Le32(v) == [v, 0, 0, 0]
  {
  }

  lemma SignatureBytes()
    ensures Le32(LFH_SIG) == [0x50, 0x4b, 3, 4]
  {
  }

  /** The constant bytes in front of the CRC, and the zeros at the end. */
  lemma HeaderEnds(f: File)
    requires Fits(f)
    ensures var h := LocalHeader(f);
      && h[0] == 0x50 && h[1] == 0x4b && h[2] == 3 && h[3] == 4 && h[4] == 0x14 && h[5] == h[6] == h[7] == h[8] == 0
      && h[9] == h[10] == h[11] == h[12] == h[13] == 0 && h[28] == 0 && h[29] == 0
  {
    HeaderStands(f);
    SignatureBytes();
    SmallWords(20);
    SmallWords(0);
    hide LocalHeader, At, Le16, Le32, Fits;
    var h := LocalHeader(f);
    FourAt(h, 0, 0x50, 0x4b, 3, 4);
    TwoAt(h, 4, 20, 0);
    TwoAt(h, 6, 0, 0);
    TwoAt(h, 8, 0, 0);
    TwoAt(h, 10, 0, 0);
    TwoAt(h, 12, 0, 0);
    TwoAt(h, 28, 0, 0);
  }

  /** The size and length fields of a file with less than 256 bytes each. */
  lemma ShortFields(f: File)
    requires Fits(f) && |f.data| < 0x100 && |f.name| < 0x100
    ensures var h := LocalHeader(f);
      && h[18] == |f.data| && h[19] == h[20] == h[21] == 0 && h[22] == |f.data| && h[23] == h[24] == h[25] == 0
      && h[26] == |f.name| && h[27] == 0
  {
    HeaderStands(f);
    SmallWords(|f.data|);
    SmallWords(|f.name|);
    hide LocalHeader, At, Le16, Le32, Fits;
    var h := LocalHeader(f);
    FourAt(h, 18, |f.data|, 0, 0, 0);
    FourAt(h, 22, |f.data|, 0, 0, 0);
    TwoAt(h, 26, |f.name|, 0);
  }

  /** The CRC field, as a word. */
  lemma CrcField(f: File)
    requires Fits(f)
    ensures U32At(LocalHeader(f), 14) == CrcOf(f.data)
  {
    HeaderStands(f);
    hide LocalHeader, Le32, U32At, CrcOf;
    FieldInWindow(LocalHeader(f), 14, Le32(CrcOf(f.data)), 0);
  }

  // ----- CRCs of short contents -----

  /** At most four bytes, all of them different, give different CRCs. */
  lemma ShortCrcsDiffer(n: nat)
    requires 0 < n <= 4
    ensures CrcOf(Repeat(0, n)) != CrcOf(Repeat(1, n))
  {
    hide Crc32.Crc;
    var a: Crc32.Octets := seq(n, i => 0);
    var b: Crc32.Octets := seq(n, i => 1);
    OctetsOf(0, n);
    OctetsOf(1, n);
    assert a[0] != b[0];
    Crc32.FourBytesDetected(a, b, 0);
    WordsDiffer(Crc32.Crc(a), Crc32.Crc(b));
  }

  lemma WordsDiffer(x: bv32, y: bv32)
    ensures x as int == y as int ==> x == y
  {
    assert (x as int) as bv32 == x && (y as int) as bv32 == y;
  }

  lemma OctetsOf(b: u8, n: nat)
    requires b < 0x80
    ensures CrcOf(Repeat(b, n)) == Crc32.Crc(seq(n, i => b as bv8)) as int
  {
    var s := Repeat(b, n);
    assert seq(|s|, i requires 0 <= i < |s| => s[i] as bv8) == seq(n, i => b as bv8);
  }

  /** The second byte of the CRC of two zero bytes. */
  lemma CrcOfTwoZeros()
    ensures CrcOf(Repeat(0, 2)) == 0x41d9_12ff
  {
    hide Crc32.Crc;
    OctetsOf(0, 2);
    TwoZeros();
    var z: Crc32.Octets := [0, 0];
    assert seq(2, i => 0 as bv8) == z;
  }

  lemma TwoZeros()
    ensures Crc32.Crc([0, 0]) == 0x41d9_12ff
  {
    hide Crc32.Shifts, Crc32.Xor;
    EightShifts(0xffff_ffff, 0x2dfd_1072);
    EightShifts(0x2dfd_1072, 0xbe26_ed00);
    Crc32.XorZero(0xffff_ffff);
    Crc32.XorZero(0x2dfd_1072);
    assert Crc32.Widen(0) == 0;
    var z: Crc32.Octets := [0, 0];
    assert z[1..] == [0] && z[1..][1..] == [];
  }

  lemma EightShifts(c: bv32, d: bv32)
    requires (c == 0xffff_ffff && d == 0x2dfd_1072) || (c == 0x2dfd_1072 && d == 0xbe26_ed00)
    ensures Crc32.Shifts(c, 8) == d
  {
    Crc32.EightAreShifts(c);
  }

  lemma CrcOfNothing()
    ensures CrcOf(Repeat(0, 0)) == 0
  {
    OctetsOf(0, 0);
    var z: Crc32.Octets := [];
    assert seq(0, i => 0 as bv8) == z;
    assert Crc32.Crc(z) == 0;
  }

  // ----- a central header cannot stand inside local parts of both contents -----

  /** The bytes of the central signature at `s`. */
  predicate LooksCentral(d: Bytes, s: nat) {
    s + 4 <= |d| && d[s] == 0x50 && d[s + 1] == 0x4b && d[s + 2] == 1 && d[s + 3] == 2
  }

  /** The CRC field cannot be the signature for both contents. */
  lemma NotTheCrc(f0: File, f1: File)
    requires Fits(f0) && Fits(f1) && |f0.data| == |f1.data| <= 4
    requires f0.data == Repeat(0, |f0.data|) && f1.data == Repeat(1, |f1.data|)
    ensures !(LooksCentral(LocalHeader(f0), 14) && LooksCentral(LocalHeader(f1), 14))
  {
    CrcField(f0);
    CrcField(f1);
    if |f0.data| == 0 {
      CrcOfNothing();
    } else {
      ShortCrcsDiffer(|f0.data|);
    }
    hide LocalHeader, CrcOf, Fits;
    CentralWord(LocalHeader(f0), 14);
    CentralWord(LocalHeader(f1), 14);
  }

  lemma CentralWord(d: Bytes, s: nat)
    requires s + 4 <= |d|
    ensures LooksCentral(d, s) ==> U32At(d, s) == CDFH_SIG
  {
  }

  /** One byte later it would take two bytes of data, and their CRC does not fit. */
  lemma NotBehindTheCrc(f0: File)
    requires Fits(f0) && f0.data == Repeat(0, |f0.data|) && |f0.data| < 0x100 && |f0.name| < 0x100
    ensures !LooksCentral(LocalHeader(f0), 15)
  {
    ShortFields(f0);
    CrcField(f0);
    CrcOfTwoZeros();
    SecondByte(LocalHeader(f0), 14);
    hide LocalHeader, CrcOf, Fits, U32At;
  }

  /** The size and length fields of a short file are too small. */
  lemma NotTheSizes(f0: File, s: nat)
    requires Fits(f0) && |f0.data| < 0x100 && |f0.name| < 0x100 && 16 <= s <= 26
    ensures !LooksCentral(LocalHeader(f0), s)
  {
    ShortFields(f0);
    hide LocalHeader, Fits;
  }

  /** Headers of files whose content ends before `s + 20`. */
  lemma NotInShortFile(f0: File, f1: File, s: nat)
    requires Fits(f0) && Fits(f1) && 14 <= s <= 26 && |f0.name| + |f0.data| <= s - 10 && |f1.data| == |f0.data|
    requires f0.data == Repeat(0, |f0.data|) && f1.data == Repeat(1, |f1.data|)
    ensures !(LooksCentral(LocalHeader(f0), s) && LooksCentral(LocalHeader(f1), s))
  {
    hide LocalHeader, Fits, LooksCentral;
    if s == 14 {
      NotTheCrc(f0, f1);
    } else if s == 15 {
      NotBehindTheCrc(f0);
    } else {
      NotTheSizes(f0, s);
    }
  }

  lemma SecondByte(d: Bytes, o: nat)
    requires o + 4 <= |d|
    ensures U32At(d, o) == 0x41d9_12ff ==> d[o + 1] == 0x12
  {
    assert U32At(d, o) == 0x41d9_12ff ==> U16At(d, o) == 0x12ff;
  }

  lemma ByteIn(d: Bytes, w: Bytes, i: nat)
    requires At(d, 0, w) && i < |w|
    ensures i < |d| && d[i] == w[i]
  {
    assert d[0..|w|][i] == d[i];
  }

  lemma ContentShows(f0: File, f1: File, a: Bytes, b: Bytes, p: nat)
    requires Opposite(f0, f1) && At(a, 0, Local(f0)) && At(b, 0, Local(f1)) && 30 <= p < |Local(f0)|
    ensures p < |a| && p < |b| && a[p] != b[p]
  {
    hide Local, Repeat;
    ContentDiffers(f0, f1, p);
    ByteIn(a, Local(f0), p);
    ByteIn(b, Local(f1), p);
  }

  lemma HeaderShows(f: File, d: Bytes)
    requires Fits(f) && At(d, 0, Local(f))
    ensures |d| >= 30 && d[..30] == LocalHeader(f)
  {
    hide LocalHeader;
    AtSplits(d, 0, LocalHeader(f), f.name + f.data);
  }

  lemma FrontHasNone(f: File, s: nat)
    requires Fits(f) && s < 14
    ensures !LooksCentral(LocalHeader(f), s)
  {
    HeaderEnds(f);
    hide LocalHeader, Fits;
  }

  lemma CentralInside(d: Bytes, n: nat, s: nat)
    requires s + 4 <= n <= |d|
    ensures LooksCentral(d, s) ==> LooksCentral(d[..n], s)
  {
  }

  lemma ZeroIsNone(d: Bytes, s: nat)
    requires s + 1 < |d| && (d[s] == 0 || d[s + 1] == 0)
    ensures !LooksCentral(d, s)
  {
  }

  /** Among the first 14 bytes of a header, and from the last byte of its name length on, nothing looks central. */
  lemma NotAtTheEnds(f: File, d: Bytes, s: nat)
    requires Fits(f) && At(d, 0, Local(f)) && (s < 14 || 27 <= s < 30) && s + 1 < |d|
    ensures !LooksCentral(d, s)
  {
    HeaderShows(f, d);
    hide LocalHeader, At, Local, Fits, LooksCentral;
    if s < 14 {
      FrontHasNone(f, s);
      CentralInside(d, 30, s);
    } else {
      HeaderEnds(f);
      var i := if s == 27 then 28 else s;
      assert d[i] == d[..30][i] == 0;
      ZeroIsNone(d, s);
    }
  }

  lemma NotInTheMiddle(f0: File, f1: File, a: Bytes, b: Bytes, s: nat)
    requires Opposite(f0, f1) && At(a, 0, Local(f0)) && At(b, 0, Local(f1)) && 14 <= s <= 26
    requires |f0.name| + |f0.data| <= s - 10
    ensures !(LooksCentral(a, s) && LooksCentral(b, s))
  {
    hide LocalHeader, At, Local, Repeat;
    HeaderShows(f0, a);
    HeaderShows(f1, b);
    assert forall i :: 0 <= i < 30 ==> a[i] == a[..30][i] && b[i] == b[..30][i];
    NotInShortFile(f0, f1, s);
  }

  /** In the first file: its header has other bytes there, or its contents differ. */
  lemma NotInFirstFile(f0: File, f1: File, a: Bytes, b: Bytes, s: nat)
    requires Opposite(f0, f1) && At(a, 0, Local(f0)) && At(b, 0, Local(f1))
    requires s < |Local(f0)| && s + 20 < |a| && s + 20 < |b|
    ensures !(LooksCentral(a, s) && LooksCentral(b, s) && a[s + 20] == b[s + 20])
  {
    LocalSize(f0);
    hide Local, At, Opposite;
    if s >= 30 {
      ContentShows(f0, f1, a, b, s);
    } else if s < 14 || s >= 27 {
      OppositeFits(f0, f1);
      NotAtTheEnds(f0, a, s);
    } else if s + 20 < |Local(f0)| {
      ContentShows(f0, f1, a, b, s + 20);
    } else {
      NotInTheMiddle(f0, f1, a, b, s);
    }
  }

  lemma LocalSize(f: File)
    requires Fits(f)
    ensures |Local(f)| == 30 + |f.name| + |f.data|
  {
  }

  lemma OppositeFits(f0: File, f1: File)
    requires Opposite(f0, f1)
    ensures Fits(f0)
  {
  }

  lemma {:induction false} NoFalseHeader(files: seq<File>, s: nat)
    requires AllFit(files) && |Low(files)| == |High(files)| && s + 20 < |Low(files)|
    ensures !(LooksCentral(Low(files), s) && LooksCentral(High(files), s) && Low(files)[s + 20] == High(files)[s + 20])
    decreases |files|
  {
    hide Local, Low, High, Filled, LocalHeader, Fits, ValidUtf8, AllFit, Repeat;
    NothingLow();
    FirstPart(files);
    var f0, f1, a, b := Filled(files, 0x61, 0)[0], Filled(files, 0x62, 1)[0], Low(files), High(files);
    LocalSize(f0);
    LocalSize(f1);
    var n := |Local(f0)|;
    if s < n {
      AtFront(a, Local(f0), Low(files[1..]));
      AtFront(b, Local(f1), High(files[1..]));
      NotInFirstFile(f0, f1, a, b, s);
    } else {
      BehindFront(a, Local(f0), Low(files[1..]), s);
      BehindFront(b, Local(f1), High(files[1..]), s);
      NoFalseHeader(files[1..], s - n);
    }
  }

  lemma AtFront(d: Bytes, w: Bytes, rest: Bytes)
    requires d == w + rest
    ensures At(d, 0, w)
  {
  }

  lemma BehindFront(d: Bytes, w: Bytes, rest: Bytes, s: nat)
    requires d == w + rest && |w| <= s && s + 20 < |d|
    ensures LooksCentral(d, s) <==> LooksCentral(rest, s - |w|)
    ensures d[s + 20] == rest[s - |w| + 20]
  {
  }

  lemma NothingLow()
    ensures Low([]) == []
  {
  }

  // ----- the limit -----

  /** A round trip needs a central header at the truncated offset, announcing the first file's size. */
  lemma FirstEntry(files: seq<File>)
    requires AllFit(files) && 0 < |files| <= 0xffff && RoundTrips(files)
    ensures var zip, start := StoredZip(files), |Locals(files)| % TWO_32;
      start + 46 <= |zip| && U32At(zip, start) == CDFH_SIG && U32At(zip, start + 20) == |files[0].data|
  {
    hide StoredZip, Locals, Centrals, U32At, U16At, Fits, Lossy, ValidUtf8, Eocd;
    PartsStand(files);
    EndFound(files);
    TruncatedOffsetFails(files);
  }

  lemma SignatureShows(zip: Bytes, l: Bytes, start: nat)
    requires At(zip, 0, l) && start + 24 <= |l|
    requires U32At(zip, start) == CDFH_SIG
    ensures LooksCentral(l, start) && U32At(l, start + 20) == U32At(zip, start + 20)
  {
    var sig: Bytes := [0x50, 0x4b, 1, 2];
    FieldInWindow(zip, 0, l, start);
    FieldInWindow(zip, 0, l, start + 20);
    assert U32At(sig, 0) == CDFH_SIG;
    hide U32At;
    SliceOfSlice(l, start, start + 4, 0, 4);
    var w := l[start..start + 4];
    FieldInWindow(l, start, w, 0);
    SameQuarters(w, sig, 0);
    assert w == w[0..4] && sig == sig[0..4];
    assert l[start] == w[0] && l[start + 1] == w[1] && l[start + 2] == w[2] && l[start + 3] == w[3];
  }

  /** Of the two contents one does not survive when the local part reaches 4 GiB. */
  lemma LargeFails(files: seq<File>)
    requires AllFit(files) && |files| <= 0xffff && |Locals(files)| >= TWO_32
    ensures exists g :: SameShape(files, g) && AllFit(g) && |g| <= 0xffff && !RoundTrips(g)
  {
    hide RoundTrips, Locals, StoredZip, Filled, Fits, Centrals, U32At;
    var g0, g1 := Filled(files, 0x61, 0), Filled(files, 0x62, 1);
    ShapeFits(files, g0);
    ShapeFits(files, g1);
    NotEmpty(files);
    if RoundTrips(g0) && RoundTrips(g1) {
      var start := |Locals(files)| % TWO_32;
      assert start + TWO_32 <= |Locals(files)|;
      FirstEntry(g0);
      FirstEntry(g1);
      PartsStand(g0);
      PartsStand(g1);
      SignatureShows(StoredZip(g0), Locals(g0), start);
      SignatureShows(StoredZip(g1), Locals(g1), start);
      SameQuarters(Locals(g0), Locals(g1), start + 20);
      assert Locals(g0)[start + 20] == Locals(g0)[start + 20..start + 24][0];
      assert Locals(g1)[start + 20] == Locals(g1)[start + 20..start + 24][0];
      NoFalseHeader(files, start);
    }
  }

  lemma NotEmpty(files: seq<File>)
    requires AllFit(files) && |Locals(files)| > 0
    ensures files != []
  {
  }

  /**
   * The names and data lengths of an archive decide: it round-trips for every content of those lengths
   * exactly when its local part stays below 4 GiB.
   */
  lemma RoundTripsIffSmall(files: seq<File>)
    requires AllFit(files) && |files| <= 0xffff
    ensures (forall g :: SameShape(files, g) ==> AllFit(g) && RoundTrips(g)) <==> |Locals(files)| < TWO_32
  {
    hide RoundTrips, Locals;
    if |Locals(files)| < TWO_32 {
      forall g | SameShape(files, g) ensures AllFit(g) && RoundTrips(g) {
        ShapeFits(files, g);
        SmallRoundTrips(g);
      }
    } else {
      LargeFails(files);
    }
  }

  /** Two empty-named files of zeros whose local parts add up to 4 GiB: the archive does not open. */
  lemma FourGibibytesFail()
    ensures var files := [File([], Repeat(0, 0x8000_0000)), File([], Repeat(0, 0x7fff_ffc4))];
      && AllFit(files) && |Locals(files)| == TWO_32
      && OpenResult(StoredZip(files)) == Err(InvalidZip("bad central directory signature"))
  {
    hide LocalHeader, StoredZip, OpenResult;
    var files := [File([], Repeat(0, 0x8000_0000)), File([], Repeat(0, 0x7fff_ffc4))];
    assert files[1..][1..] == [];
    WholeWrapFails(files);
  }
}
