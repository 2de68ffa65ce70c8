/** types.rs: the C structs of the file formats, field by field, against the offsets the parsers read at. */
module Layouts {
  import opened Words
  import opened Text
  import opened Packed
  import opened LoadCommands
  import opened CommandLookup
  import opened ChainedFixups
  import opened SymbolIndex

  // ----- segments and sections -----

  function SegmentFields(s: Segment, cmdsize: u32, maxprot: u32, initprot: u32, flags: u32): seq<Field> {
    [Word(LC_SEGMENT_64), Word(cmdsize), Raw(s.segname), Long(s.vmaddr), Long(s.vmsize), Long(s.fileoff),
     Long(s.filesize), Word(maxprot), Word(initprot), Word(s.nsects), Word(flags)]
  }

  lemma SegmentOffsets(f: seq<Field>)
    requires |f| == 11 && f[0].Word? && f[1].Word? && f[2].Raw? && |f[2].bytes| == 16
    requires f[3].Long? && f[4].Long? && f[5].Long? && f[6].Long? && f[7].Word? && f[8].Word? && f[9].Word? && f[10].Word?
    ensures Start(f, 0) == 0 && Start(f, 1) == 4 && Start(f, 2) == 8 && Start(f, 3) == 24 && Start(f, 4) == 32
    ensures Start(f, 5) == 40 && Start(f, 6) == 48 && Start(f, 9) == 64 && Start(f, 11) == SEGMENT_COMMAND_SIZE
  {
    FirstField(f);
    hide Start;
    NextField(f, 0);
    NextField(f, 1);
    NextField(f, 2);
    NextField(f, 3);
    NextField(f, 4);
    NextField(f, 5);
    NextField(f, 6);
    NextField(f, 7);
    NextField(f, 8);
    NextField(f, 9);
    NextField(f, 10);
  }

  /** A `segment_command_64` at the front of a command body is read as that segment. */
  lemma SegmentLayout(body: Bytes, s: Segment, cmdsize: u32, maxprot: u32, initprot: u32, flags: u32)
    requires |s.segname| == 16 && |body| >= SEGMENT_COMMAND_SIZE
    requires At(body, 0, Struct(SegmentFields(s, cmdsize, maxprot, initprot, flags)))
    ensures U32At(body, 0) == LC_SEGMENT_64 && U32At(body, 4) == cmdsize && SegmentAt(body) == s
  {
    hide U32At, U64At, Struct, Start, At, Encode;
    var f := SegmentFields(s, cmdsize, maxprot, initprot, flags);
    SegmentOffsets(f);
    forall i | 0 <= i < |f| ensures Reads(body, Start(f, i), f[i]) {
      FieldReads(body, 0, f, i);
    }
    assert Reads(body, 0, f[0]) && Reads(body, 4, f[1]) && Reads(body, 8, f[2]) && Reads(body, 24, f[3]);
    assert Reads(body, 32, f[4]) && Reads(body, 40, f[5]) && Reads(body, 48, f[6]) && Reads(body, 64, f[9]);
  }

  function SectionFields(s: Section, align: u32, reloff: u32, nreloc: u32, reserved3: u32): seq<Field> {
    [Raw(s.sectname), Raw(s.segname), Long(s.addr), Long(s.size), Word(s.offset), Word(align), Word(reloff),
     Word(nreloc), Word(s.flags), Word(s.reserved1), Word(s.reserved2), Word(reserved3)]
  }

  lemma SectionOffsets(f: seq<Field>)
    requires |f| == 12 && f[0].Raw? && |f[0].bytes| == 16 && f[1].Raw? && |f[1].bytes| == 16 && f[2].Long? && f[3].Long?
    requires f[4].Word? && f[5].Word? && f[6].Word? && f[7].Word? && f[8].Word? && f[9].Word? && f[10].Word? && f[11].Word?
    ensures Start(f, 0) == 0 && Start(f, 1) == 16 && Start(f, 2) == 32 && Start(f, 3) == 40 && Start(f, 4) == 48
    ensures Start(f, 8) == 64 && Start(f, 9) == 68 && Start(f, 10) == 72 && Start(f, 12) == SECTION_SIZE
  {
    FirstField(f);
    hide Start;
    NextField(f, 0);
    NextField(f, 1);
    NextField(f, 2);
    NextField(f, 3);
    NextField(f, 4);
    NextField(f, 5);
    NextField(f, 6);
    NextField(f, 7);
    NextField(f, 8);
    NextField(f, 9);
    NextField(f, 10);
    NextField(f, 11);
  }

  /** A `section_64` is read as that section. */
  lemma SectionLayout(data: Bytes, s: Section, align: u32, reloff: u32, nreloc: u32, reserved3: u32)
    requires |s.sectname| == 16 && |s.segname| == 16 && |data| >= SECTION_SIZE
    requires At(data, 0, Struct(SectionFields(s, align, reloff, nreloc, reserved3)))
    ensures SectionAt(data) == s
  {
    hide U32At, U64At, Struct, Start, At, Encode;
    var f := SectionFields(s, align, reloff, nreloc, reserved3);
    SectionOffsets(f);
    forall i | 0 <= i < |f| ensures Reads(data, Start(f, i), f[i]) {
      FieldReads(data, 0, f, i);
    }
    assert Reads(data, 0, f[0]) && Reads(data, 16, f[1]) && Reads(data, 32, f[2]) && Reads(data, 40, f[3]);
    assert Reads(data, 48, f[4]) && Reads(data, 64, f[8]) && Reads(data, 68, f[9]) && Reads(data, 72, f[10]);
  }

  // ----- commands with a fixed body -----

  function AllWords(ws: seq<u32>): (f: seq<Field>)
    ensures |f| == |ws| && forall i :: 0 <= i < |f| ==> f[i] == Word(ws[i])
  {
    seq(|ws|, i requires 0 <= i < |ws| => Word(ws[i]))
  }

  lemma WordAt(body: Bytes, ws: seq<u32>, i: nat)
    requires i < |ws| && At(body, 0, Struct(AllWords(ws)))
    ensures 4 * i + 4 <= |body| && U32At(body, 4 * i) == ws[i]
  {
    hide U32At, Struct, At, Encode;
    FieldReads(body, 0, AllWords(ws), i);
    WordStarts(AllWords(ws), i);
  }

  /** A `symtab_command` is read as the places of the symbol and string tables. */
  lemma SymtabLayout(body: Bytes, cmdsize: u32, s: Symtab)
    requires At(body, 0, Struct(AllWords([2, cmdsize, s.symoff, s.nsyms, s.stroff, s.strsize])))
    ensures OfKind(body, LC_SYMTAB) && |body| >= 24 && SymtabAt(body) == s
  {
    hide U32At, Struct, At;
    var ws := [2, cmdsize, s.symoff, s.nsyms, s.stroff, s.strsize];
    WordAt(body, ws, 0);
    WordAt(body, ws, 2);
    WordAt(body, ws, 3);
    WordAt(body, ws, 4);
    WordAt(body, ws, 5);
  }

  /** A `dysymtab_command`: twelve words about symbols and tables stand before the indirect table's place, four behind. */
  lemma DysymtabLayout(body: Bytes, cmdsize: u32, front: seq<u32>, d: Dysymtab, back: seq<u32>)
    requires |front| == 12 && |back| == 4
    requires At(body, 0, Struct(AllWords([0xb, cmdsize] + front + [d.indirectsymoff, d.nindirectsyms] + back)))
    ensures OfKind(body, LC_DYSYMTAB) && |body| >= 80 && DysymtabAt(body) == d
  {
    hide U32At, Struct, At;
    var ws := [0xb, cmdsize] + front + [d.indirectsymoff, d.nindirectsyms] + back;
    WordAt(body, ws, 0);
    WordAt(body, ws, 14);
    WordAt(body, ws, 15);
    WordAt(body, ws, 19);
  }

  /** A `linkedit_data_command` is read as the place of its payload. */
  lemma LinkeditLayout(body: Bytes, cmd: u32, cmdsize: u32, r: Linkedit)
    requires At(body, 0, Struct(AllWords([cmd, cmdsize, r.dataoff, r.datasize])))
    ensures OfKind(body, cmd) && |body| >= 16 && LinkeditAt(body) == r
  {
    hide U32At, Struct, At;
    var ws := [cmd, cmdsize, r.dataoff, r.datasize];
    WordAt(body, ws, 0);
    WordAt(body, ws, 2);
    WordAt(body, ws, 3);
  }

  // ----- symbol table entries -----

  function NlistFields(strx: u32, nType: u8, sect: u8, desc: u16, value: u64): seq<Field> {
    [Word(strx), Byte(nType), Byte(sect), Half(desc), Long(value)]
  }

  /** `N_STAB` bits set, or the type bits `N_UNDF`. */
  predicate Ignored(nType: u8) {
    nType >= 0x20 || nType % 0x10 < 2
  }

  /** An `nlist_64` entry names its value, unless it is a stab, undefined, unnamed, not UTF-8, or a temporary label. */
  lemma NlistLayout(syms: Bytes, strings: Bytes, i: nat, strx: u32, nType: u8, sect: u8, desc: u16, value: u64)
    requires (i + 1) * NLIST_SIZE <= |syms|
    requires At(syms, i * NLIST_SIZE, Struct(NlistFields(strx, nType, sect, desc, value)))
    ensures var name := CStrAt(strings, strx);
      Survivor(syms, strings, i)
      == if Ignored(nType) || name.None? || name.value == [] || LTMP <= name.value then None else Some((value, name.value))
  {
    hide U32At, U64At, CStrAt, Struct, At, Encode, ValidUtf8;
    var f, at := NlistFields(strx, nType, sect, desc, value), i * NLIST_SIZE;
    FirstField(f);
    hide Start;
    NextField(f, 0);
    NextField(f, 1);
    NextField(f, 2);
    NextField(f, 3);
    FieldReads(syms, at, f, 0);
    FieldReads(syms, at, f, 1);
    FieldReads(syms, at, f, 4);
  }

  // ----- chained-fixup segment starts -----

  function StartsFields(size: u32, seg: SegmentStarts, maxPointer: u32): seq<Field> {
    [Word(size), Half(seg.pageSize), Half(seg.format), Long(seg.segmentOffset), Word(maxPointer), Half(seg.pageCount)]
  }

  /** A `dyld_chained_starts_in_segment` behind a non-zero entry of the offset table is read as those starts. */
  lemma StartsLayout(payload: Bytes, startsOff: nat, index: nat, size: u32, seg: SegmentStarts, maxPointer: u32)
    requires startsOff + 4 + index * 4 + 4 <= |payload| && U32At(payload, startsOff + 4 + index * 4) != 0
    requires seg.pagesOff == startsOff + U32At(payload, startsOff + 4 + index * 4) + 22
    requires seg.pagesOff + seg.pageCount * 2 <= |payload|
    requires At(payload, seg.pagesOff - 22, Struct(StartsFields(size, seg, maxPointer)))
    ensures SegmentInfo(payload, startsOff, index) == Some(seg)
  {
    hide U16At, U32At, U64At, Struct, At;
    var f, abs := StartsFields(size, seg, maxPointer), seg.pagesOff - 22;
    FirstField(f);
    hide Start;
    NextField(f, 0);
    NextField(f, 1);
    NextField(f, 2);
    NextField(f, 3);
    NextField(f, 4);
    FieldReads(payload, abs, f, 1);
    FieldReads(payload, abs, f, 2);
    FieldReads(payload, abs, f, 3);
    FieldReads(payload, abs, f, 5);
  }
}
