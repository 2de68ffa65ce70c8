/** The stored-ZIP layout both sides of `ipa_vfs` use (PKWARE APPNOTE, sections 4.3.7, 4.3.12 and 4.3.16). */
module ZipFormat {
  import opened Words
  import opened Text
  import Crc32

  datatype Error =
    | InvalidZip(what: string)
    | UnsupportedCompression(compression: u16)
    | InflateFailed
    | MissingPayloadApp

  const LFH_SIG: u32 := 0x0403_4b50
  const CDFH_SIG: u32 := 0x0201_4b50
  const EOCD_SIG: u32 := 0x0605_4b50

  /** One file to archive. */
  datatype File = File(name: Str, data: Bytes)

  function CrcOf(data: Bytes): u32 {
    Crc32.Crc(seq(|data|, i requires 0 <= i < |data| => data[i] as bv8)) as int
  }

  predicate Fits(f: File) {
    |f.name| <= 0xffff && |f.data| < TWO_32
  }

  // ----- local headers -----

  /** Version, flags, method, time and date, CRC, and both sizes. */
  function LocalMiddle(f: File): (s: Bytes)
    requires Fits(f)
    ensures |s| == 22
  {
    Le16(20) + Le16(0) + Le16(0) + Le16(0) + Le16(0) + Le32(CrcOf(f.data)) + Le32(|f.data|) + Le32(|f.data|)
  }

  function LocalHeader(f: File): (s: Bytes)
    requires Fits(f)
    ensures |s| == 30
  {
    Le32(LFH_SIG) + (LocalMiddle(f) + (Le16(|f.name|) + Le16(0)))
  }

  function Local(f: File): Bytes
    requires Fits(f)
  {
    LocalHeader(f) + (f.name + f.data)
  }

  predicate AllFit(files: seq<File>) {
    forall f :: f in files ==> Fits(f)
  }

  function Locals(files: seq<File>): Bytes
    requires AllFit(files)
  {
    if files == [] then [] else Local(files[0]) + Locals(files[1..])
  }

  // ----- central directory -----

  function CentralSizes(f: File): (s: Bytes)
    requires Fits(f)
    ensures |s| == 14
  {
    Le32(|f.data|) + (Le32(|f.data|) + (Le16(|f.name|) + (Le16(0) + Le16(0))))
  }

  /** A central header for a file whose local header stands at `off`. */
  function CentralHeader(f: File, off: u32): (s: Bytes)
    requires Fits(f)
    ensures |s| == 46
  {
    Le32(CDFH_SIG) + ((Le16(20) + Le16(20) + Le16(0)) + (Le16(0) + ((Le16(0) + Le16(0) + Le32(CrcOf(f.data)))
    + (CentralSizes(f) + ((Le16(0) + Le16(0) + Le32(0)) + Le32(off))))))
  }

  /** The headers of `files`, the first of whose local headers stands at `at`. */
  function Centrals(files: seq<File>, at: nat): Bytes
    requires AllFit(files)
    decreases |files|
  {
    if files == [] then []
    else CentralHeader(files[0], at % TWO_32) + (files[0].name + Centrals(files[1..], at + |Local(files[0])|))
  }

  /** Entry count, directory size and offset, in an end record without a comment. */
  function EndRecord(count: u16, size: u32, start: u32): (s: Bytes)
    ensures |s| == 22
  {
    Le32(EOCD_SIG) + ((Le16(0) + Le16(0) + Le16(count)) + (Le16(count) + (Le32(size) + (Le32(start) + Le16(0)))))
  }

  function SaturatingSub(x: u32, y: u32): u32 {
    if y <= x then x - y else 0
  }

  /** The whole archive, with every length and offset cast to 32 bits as the writer does. */
  function StoredZip(files: seq<File>): Bytes
    requires AllFit(files) && |files| <= 0xffff
  {
    var locals := Locals(files);
    var centrals := Centrals(files, 0);
    var start := |locals| % TWO_32;
    locals + (centrals + EndRecord(|files|, SaturatingSub((|locals| + |centrals|) % TWO_32, start), start))
  }
}
