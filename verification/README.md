# A verified model of the binary-format interpreters

The repository reads Mach-O images and IPA archives with small interpreters written as loops over
byte cursors. This project models seven of them in Dafny and proves what they compute:

- **LEB128, export trie, bind opcodes** (`crates/macho_core/src/dyld.rs`): `Leb128`, `Text`, `ExportTrie`, `BindOps`.
- **Load-command iterators, command lookup and address maps** (`crates/macho_core/src/file.rs`): `LoadCommands`,
  `CommandLookup`, `AddressMap`.
- **Chained fixups** (`crates/macho_core/src/chained.rs`): `ChainedFixups` (the parser), `FixupProofs` (what its walks
  and lookups guarantee), `FixupPayload` (payloads spelled byte by byte).
- **ZIP writer, reader and IPA file map** (`crates/ipa_vfs/src`): `Crc32`, `ZipFormat`, `ZipWrite`, `ZipRead`,
  `ZipLayout` (archives by the records of the format, whoever wrote them), `ZipRoundTrip`, `ZipSize`, `Vfs`,
  `VfsRoundTrip`.
- **Inheritance sort** (`crates/apple_metadata/src/dump.rs`): `InheritanceSort` (parents first), `InheritanceOrder` (by
  name, and in input order).
- **Class-name patterns** (`crates/apple_re_cli/src/class_dump.rs`): `PatternMatch`.
- **Type encodings and symbol names** (`crates/apple_metadata/src`): `TypeEncoding`, `SymbolIndex`,
  `SymbolLayout` (which address gets which candidate).

`Words`, `MachoError` and `ByteOrder` hold what they share: fixed-width integers, little-endian fields, the
errors, and the byte order with its stable sort. `Packed` has C structs without padding; `Layouts` checks the fixed
offsets the parsers read at against the declarations of the structs.

## How to read it

Each parser loop is a `method` with the loop of the source, proved equal to a function on byte sequences (the
`Decode…`, `…Walk`, `Exec`, `Walk`, `Starts`, `OneType` families). The theorems are lemmas about those functions,
most of them against an independent definition: an encoder, a flattening, a declarative language, a map, an
order. The encoders the repository does not have (LEB128, assembled bind programs, laid-out tries, packed
fixup chains, delta tables) exist only as such definitions.

Conventions:

- Integers wrap as in a release build of a 64-bit target; widths are subset types (`u8` to `u64`, `i64`), and
  every wrapping, saturating or truncating operation is written out. Data slices are shorter than 2^63 bytes.
- A `&mut usize` cursor or `&mut Vec` becomes an in-parameter and an out-parameter. Structs whose methods update
  their fields (`LoadCommandIter`, `SegmentIter`, `SectionIter`, `IpaVfs`) are classes.
- A Rust `str` is a byte sequence that is well-formed UTF-8 (`Text.Str`); `from_utf8` and `from_utf8_lossy`
  are modelled, not assumed away.
- `BTreeMap` is a `map` whose keys are listed in byte order (`ByteOrder.SortedKeys`), `sort_by` is a stable sort
  (`ByteOrder.SortFacts` states the only facts used), and `str::contains` is its definition.
- Raw DEFLATE is a parameter, any partial function on byte strings.
- Where a theorem describes a layout it writes offsets, sizes, signatures, format numbers and field widths out as
  numbers, not as the parsers' own constants.

## What needs a condition

- The export-trie parser drops nodes more than 64 edges below the root without an error. It returns the whole
  trie exactly when no named terminal lies that deep (`ExportTrie.WholeTrieParsed`); `ExportTrie.DepthLimit`
  shows both sides on chains of single edges.
- The two ULEB128 decoders accept the same inputs with the same results, but name one failure differently: a
  slice of exactly ten continuation bytes (`Leb128.DecodeUlebSlice`).
- The inheritance sort leaves a child before its parent exactly when some classes block each other: each has a
  present superclass name, and every class of that name is among them (`InheritanceSort.ParentsFirstIffUnblocked`,
  duplicate names included). Two classes that name each other are such a case (`InheritanceSort.MutualParents`).
- Looking an address up in the fixup index is reading the patched image, whatever the slots hold, exactly for
  Rebase slots and for words clear of every Rebase slot (`FixupProofs.ResolvesExactlyWhenClear`).
- Archives of given name and data lengths survive a round trip, whatever their bytes, exactly when the local
  part stays below 4 GiB (`ZipSize.RoundTripsIffSmall`, read without an inflater, as nothing is compressed): the
  end record keeps the directory offset modulo 2^32.
  `ZipSize.FourGibibytesFail` names two files that cannot be reopened.
- Directory-like keys (ending in `/`) survive in the map and in the archive but not a reopening
  (`VfsRoundTrip.PackThenOpen`, `VfsRoundTrip.RepackIdentical`).

## Model

| member | source | states |
|---|---|---|
| `Leb128.ReadUleb128` | crates/macho_core/src/dyld.rs:69-88 | the loop of ORs and shifts returns the sum of the 7-bit groups up to the first byte without a continuation bit, modulo 2^64, and stops right behind it; ten continuation bytes or a missing end are told apart as errors |
| `Leb128.ReadSleb128` | crates/macho_core/src/dyld.rs:90-113 | the same for the signed sum, its last group read as signed |
| `Leb128.SignExtends` | crates/macho_core/src/dyld.rs:109-111 | filling the bits above the last group is exactly the two's-complement pattern of the signed sum, also when ten groups overflow the word |
| `Leb128.ReadUlebSlice` | crates/macho_core/src/file.rs:818-832 | the second decoder, with its own loop and overflow test, computes `DecodeUlebSlice` |
| `Leb128.DecodeUlebSlice` | crates/macho_core/src/file.rs:818-832 | the two decoders succeed on the same inputs with the same value and length; their errors differ exactly on ten continuation bytes and nothing else |
| `Leb128.UlebRoundTrip` | crates/macho_core/src/dyld.rs:69-88 | decoding the canonical encoding of any `u64`, whatever follows, gives it back with its length, at most ten bytes |
| `Leb128.SlebRoundTrip` | crates/macho_core/src/dyld.rs:90-113 | the same for any `i64`, both ten-byte extremes included |
| `Leb128.DecodeUlebLocal` | crates/macho_core/src/dyld.rs:69-88 | a successful decode uses 1 to 10 bytes and does not depend on the bytes behind them |
| `Text.ReadCString` | crates/macho_core/src/dyld.rs:115-128 | the string up to the NUL or the end (empty if not UTF-8), the cursor behind the NUL if there is one |
| `Text.CStringRoundTrip` | crates/macho_core/src/dyld.rs:115-128 | a NUL-free string and its terminator read back as that string, whatever follows |
| `Text.LossyIsStr` | crates/ipa_vfs/src/zip.rs:58 | lossy decoding always yields UTF-8 and leaves UTF-8 unchanged |
| `Text.Utf8Exact` | crates/apple_metadata/src/symbols.rs:135-139 | bytes are accepted as a `str` exactly when they are the encodings of Unicode scalar values, one behind the other |
| `Text.LossyReplaces` | crates/ipa_vfs/src/zip.rs:58 | where no character stands in front, the longest unfinished character, or else one byte, becomes one U+FFFD |
| `Text.LossyKeeps` | crates/ipa_vfs/src/zip.rs:58 | an encoded character in front of any bytes is kept as it is |
| `ExportTrie.ParseExportNode` | crates/macho_core/src/dyld.rs:130-186 | on every blob, cyclic ones included, it terminates and pushes exactly what the recursive walk over offsets meets, parents before children, up to the first error |
| `ExportTrie.ReadHeader` | crates/macho_core/src/dyld.rs:140-172 | the terminal of a node and where its child count stands, with the wrapping end-of-terminal arithmetic |
| `ExportTrie.ReadTerminal` | crates/macho_core/src/dyld.rs:147-160 | flags, address, re-export ordinal and name, or resolver, as the flags select |
| `ExportTrie.ParseExportsTrie` | crates/macho_core/src/dyld.rs:189-197 | the walk from offset 0, sorted stably by name; an empty blob has no exports |
| `ExportTrie.TerminalRoundTrip` | crates/macho_core/src/dyld.rs:147-170 | every kind of terminal, its flag word built from kind, weak, re-export (8), resolver (16) and any higher bits, reads back with all its fields, whatever follows |
| `ExportTrie.NodeFlattens` | crates/macho_core/src/dyld.rs:130-186 | walking from a laid-out node, at any place of the blob and with shared children, pushes exactly its flattening and raises no error |
| `ExportTrie.TrieRoundTrip` | crates/macho_core/src/dyld.rs:130-197 | parsing the blob of any trie, with or without padding behind its terminals, gives one entry for each named terminal down to 64 edges, sorted by name |
| `ExportTrie.FlattenMisses` | crates/macho_core/src/dyld.rs:137-139 | what the depth limit leaves out is exactly the entries below it: nothing else is lost or repeated |
| `ExportTrie.WholeTrieParsed` | crates/macho_core/src/dyld.rs:130-197 | the parser returns all exports of the trie if and only if no named terminal lies more than 64 edges down |
| `ExportTrie.DepthLimit` | crates/macho_core/src/dyld.rs:137-139 | the one export of a laid-out chain of `k + 1` edges comes back if `k < 64`; with more edges the result is empty and no error is raised |
| `ExportTrie.NodeLimits` | crates/macho_core/src/dyld.rs:137-145 | a node past the end of the blob or more than 64 edges down adds nothing; a terminal that reaches past the end, or a size that cannot be read, is the error; a node without room for its child count has no children |
| `ExportTrie.ExportNamesDistinct` | crates/macho_core/src/dyld.rs:176-197 | when sibling edges are non-empty and prefix-free the names come out strictly increasing |
| `BindOps.ReadOp` | crates/macho_core/src/dyld.rs:210-309 | the opcode byte and its operands, in the order the interpreter reads them |
| `BindOps.Execute` | crates/macho_core/src/dyld.rs:214-309 | every instruction's effect on the seven registers and on the record list |
| `BindOps.BindTimes` | crates/macho_core/src/dyld.rs:288-304 | the counted bind emits `count` records with offsets advancing by 8 and the skip, modulo 2^64 |
| `BindOps.ParseBindOps` | crates/macho_core/src/dyld.rs:199-312 | the interpreter returns the records of the program's meaning, or the first failed operand read |
| `BindOps.OpRoundTrip` | crates/macho_core/src/dyld.rs:210-309 | fetching inverts the encoding of every instruction, whatever follows it |
| `BindOps.ExecAssembled` | crates/macho_core/src/dyld.rs:199-312 | running an assembled instruction list from any registers emits its records and goes on with what follows it |
| `BindOps.InterchangeableAnywhere` | crates/macho_core/src/dyld.rs:199-312 | instruction lists with the same effect can be swapped anywhere in a program, before any tail, without changing records or errors |
| `BindOps.TimesIsRepetition` | crates/macho_core/src/dyld.rs:260-304 | `ULEB_TIMES_SKIPPING_ULEB(n, skip)` equals `n` times `DO_BIND_ADD_ADDR_ULEB(skip)` in every register state |
| `BindOps.BindThenAdd` | crates/macho_core/src/dyld.rs:244-274 | `DO_BIND; ADD_ADDR_ULEB(d)` equals `DO_BIND_ADD_ADDR_ULEB(d)` |
| `BindOps.ScaledIsAddAddr` | crates/macho_core/src/dyld.rs:260-287 | `IMM_SCALED(k)` equals `DO_BIND_ADD_ADDR_ULEB(8k)`, wrap-around included |
| `BindOps.OffsetsAdvance` | crates/macho_core/src/dyld.rs:244-287 | from any registers at offset `o`, the bind behind a `DO_BIND` is at `o + 8`, behind `ADD_ADDR(d)` at `o + d`, behind `DO_BIND_ADD_ADDR(d)` at `o + 8 + d`, behind `IMM_SCALED(k)` at `o + 8 + 8k`, all modulo 2^64 |
| `BindOps.TimesAdvance` | crates/macho_core/src/dyld.rs:288-304 | record `i` of the counted bind is at `o + i * (8 + skip)` modulo 2^64, there are `n` of them, and the register ends `n` steps on |
| `BindOps.SpecialOrdinals` | crates/macho_core/src/dyld.rs:222-229 | the special immediate is the ordinal between -15 and 0 with the same low four bits |
| `BindOps.BareBind` | crates/macho_core/src/dyld.rs:202-208 | a bind before anything is set emits zeros, an empty symbol and type 1 |
| `BindOps.MissingOperand` | crates/macho_core/src/dyld.rs:210-304 | a program cut off behind any opcode with operands fails with the error of the operand it misses, whatever it emitted before |
| `BindOps.StopIgnoresTheRest` | crates/macho_core/src/dyld.rs:210-310 | nothing behind `DONE` (or behind an unknown opcode) changes the result |
| `BindOps.RecordsRoundTrip` | crates/macho_core/src/dyld.rs:199-312 | the canonical program of any record list with 4-bit segment, flags and type parses back to that list, for every `i64` ordinal and addend and every `u64` offset, with any bytes behind its `DONE` |
| `LoadCommands.LoadCommandIter.Next` | crates/macho_core/src/file.rs:703-726 | hands out the next item of the command list and leaves the others pending, errors as items |
| `LoadCommands.SegmentIter.Next` | crates/macho_core/src/file.rs:732-752 | the same for the segment commands among them, passing over the others |
| `LoadCommands.SectionIter.Next` | crates/macho_core/src/file.rs:761-792 | the same for the sections, through its current-segment state |
| `LoadCommands.SectionIter.Enter` | crates/macho_core/src/file.rs:775-789 | a segment becomes the current one: its sections are exactly what stays to be yielded, or the body is too short |
| `LoadCommands.SectionIter.Take` | crates/macho_core/src/file.rs:766-770 | the next section of the current segment is handed out and the others stay |
| `LoadCommands.OpenSections` | crates/macho_core/src/file.rs:263-291 | a fresh section iterator has all sections of the image pending |
| `LoadCommands.FindSection` | crates/macho_core/src/file.rs:293-301 | the first section with both names, unless an error comes first |
| `LoadCommands.FindIn` | crates/macho_core/src/file.rs:293-301 | the section found is named so and all before it are good and named otherwise; none is found exactly when no item is an error or named so |
| `LoadCommands.FixedNameExact` | crates/macho_core/src/types.rs:440-443 | a fixed-size name field is read as the UTF-8 text it holds up to its first NUL, and as nothing if it holds none |
| `LoadCommands.NamedWhenSpelled` | crates/macho_core/src/file.rs:293-301 | a section whose two 16-byte fields hold these names, filled up with NULs, is found under exactly these names |
| `LoadCommands.CommandsTile` | crates/macho_core/src/file.rs:703-726 | the bodies yielded stand one behind the other in the command area, at most `ncmds` of them |
| `LoadCommands.CommandsWellFormed` | crates/macho_core/src/file.rs:710-725 | every body yielded is as long as it says and carries the command it is yielded with |
| `LoadCommands.ErrorsLast` | crates/macho_core/src/file.rs:710-721 | after the first error the iterator only repeats it |
| `LoadCommands.BodiesYielded` | crates/macho_core/src/file.rs:703-792 | for well-formed commands the three nested iterators yield the sections of each segment command in order, each with its own segment, then whatever follows |
| `LoadCommands.SectionsOfImage` | crates/macho_core/src/file.rs:263-291 | iterating the sections of an image yields exactly the sections before its first malformed command, then the error that command brings: short header, bad size, short segment command, or sections that do not fit |
| `LoadCommands.FaultlessIsComplete` | crates/macho_core/src/file.rs:706-792 | a command that brings no error is a complete body, so every image splits at its first malformed command |
| `LoadCommands.SectionsOfWholeImage` | crates/macho_core/src/file.rs:263-291 | with no malformed command it yields exactly all of them |
| `LoadCommands.SegmentsOfWholeImage` | crates/macho_core/src/file.rs:263-282 | iterating the segments of an image of sound commands behind its 32-byte header yields the segment of each segment command, in order, with its whole body |
| `LoadCommands.CommandsOutside` | crates/macho_core/src/file.rs:263-270 | a header that sets aside more than the file has is the error of every iteration |
| `CommandLookup.FindCmd` | crates/macho_core/src/file.rs:682-694 | the loop over load commands finds the first of a kind, or the first error |
| `CommandLookup.FirstCommandFound` | crates/macho_core/src/file.rs:682-694 | in an image of sound commands the body found is that of the first command of the kind; a body too short for its fixed fields is an error, no such command is none |
| `CommandLookup.PayloadInImage` | crates/macho_core/src/file.rs:519-527 | the payload of a linkedit command is the part of the file it names; one that leaves the file is an error |
| `AddressMap.VaddrToOffset` | crates/macho_core/src/file.rs:648-660 | the loop over segments decides as `Locate` does |
| `AddressMap.Locate` | crates/macho_core/src/file.rs:648-660 | the first segment with file content whose range holds the address gives the offset; an error before it is returned; no such segment means not mapped |
| `AddressMap.LocateExact` | crates/macho_core/src/file.rs:648-660 | the first error or the first segment with `filesize != 0` and `vmaddr <= vaddr < min(vmaddr + filesize, 2^64 - 1)` decides; the offset is `fileoff + (vaddr - vmaddr)` modulo 2^64 |
| `AddressMap.OffsetInImage` | crates/macho_core/src/file.rs:648-660 | the same for the segment commands of an image of sound commands, laid out one behind the other |
| `AddressMap.PreferredLoadAddress` | crates/macho_core/src/chained.rs:75-87 | the loop over segments computes the image base, which is the preferred one of the image |
| `AddressMap.PreferredExact` | crates/macho_core/src/chained.rs:75-87 | the first error or `__TEXT` decides; without either, the first segment with file content; without that, 0 |
| `AddressMap.FindTextBase` | crates/macho_core/src/file.rs:546-552 | the file offset of the first `__TEXT`, passing over errors, else 0 |
| `AddressMap.TextBaseExact` | crates/macho_core/src/file.rs:546-552 | the first good segment whose name field spells `__TEXT` gives its `fileoff`, errors before it do not matter, and without one the base is 0 |
| `AddressMap.FunctionStarts` | crates/macho_core/src/file.rs:541-570 | the whole lookup: none without the command, else running saturating totals of the deltas of its payload up to the first zero |
| `AddressMap.StartsRoundTrip` | crates/macho_core/src/file.rs:541-570 | decoding the delta table of any strictly increasing list above the base gives the list back; zero padding behind it does not matter |
| `AddressMap.StartsLaw` | crates/macho_core/src/file.rs:554-570 | one delta in front of any table adds one start, held at `u64::MAX`; a zero ends the table |
| `AddressMap.BrokenTable` | crates/macho_core/src/file.rs:557-558 | a table with an unreadable delta is refused with the decoder's error |
| `AddressMap.FunctionStartsRoundTrip` | crates/macho_core/src/file.rs:541-570 | end to end: an image whose first function-starts command names the delta table of a list has that list as its function starts |
| `AddressMap.NoFunctionStarts` | crates/macho_core/src/file.rs:541-544 | an image without that command has none, and that is no error |
| `ChainedFixups.ParseChainedFixups` | crates/macho_core/src/chained.rs:109-220 | the index is all slots of all chains of all pages of all segments, inserted in order, or the header error |
| `ChainedFixups.Load` | crates/macho_core/src/chained.rs:90-99 | the index of an image: that of its payload, or an empty one without the command |
| `ChainedFixups.WalkStarts` | crates/macho_core/src/chained.rs:140-214 | the segment loop, ended by a truncated offset table |
| `ChainedFixups.WalkSegment` | crates/macho_core/src/chained.rs:163-213 | the page loop records the chains of every page in order |
| `ChainedFixups.WalkPage` | crates/macho_core/src/chained.rs:165-212 | one page records its chains one after the other |
| `ChainedFixups.CollectOverflow` | crates/macho_core/src/chained.rs:175-190 | the multi-start loop terminates and collects the starts from the index on: no word but the last is flagged, and the list ends with a flagged word or with the payload |
| `ChainedFixups.WalkChain` | crates/macho_core/src/chained.rs:196-211 | the chain loop terminates on every image because the offset grows, and records the slots it meets |
| `ChainedFixups.ParseImports` | crates/macho_core/src/chained.rs:222-263 | one name or gap for each import, in every format |
| `ChainedFixups.Unpack` | crates/macho_core/src/chained.rs:325-327 | shifting and ORing the high byte over the target adds it at bit 56 without overlap |
| `FixupProofs.WalkSafe` | crates/macho_core/src/chained.rs:196-211 | every slot met lies wholly inside the file at a multiple of the stride behind its chain's start |
| `FixupProofs.WalkAscends` | crates/macho_core/src/chained.rs:196-211 | a walk only goes up and meets no word twice |
| `FixupProofs.RecordKeys` | crates/macho_core/src/chained.rs:201-205 | the index holds exactly the offsets met, under each the last target met there |
| `FixupProofs.RecordedKeysSafe` | crates/macho_core/src/chained.rs:109-220 | for every payload, each key of the index is a whole word of the file on a chain of some listed page start |
| `FixupProofs.WordRoundTrip` | crates/macho_core/src/chained.rs:289-368 | in every pointer format, packing a target and a `next` into a word and decoding it gives both back; authenticated words decode to nothing but keep their `next` |
| `FixupProofs.EveryWordIsPacked` | crates/macho_core/src/chained.rs:306-368 | every 64-bit word of a known format is the packed form of some content, so the round trip decides all words, unused bits included |
| `FixupProofs.ChainLaw` | crates/macho_core/src/chained.rs:196-211 | one step in bytes: with `next` in the 11 bits (formats 1, 7, 9, 12) or 12 bits from bit 51 on, the chain goes on at `off + 8 * next` in formats 1, 9 and 12 and at `off + 4 * next` in the others; 0, or an offset outside the file, ends it |
| `FixupProofs.UnknownFormat` | crates/macho_core/src/chained.rs:306-368 | chains of any other format record nothing |
| `FixupProofs.ChainRoundTrip` | crates/macho_core/src/chained.rs:195-212 | walking a chain from its first slot recovers exactly its offsets and targets, stepping over authenticated words |
| `FixupProofs.PackThenWalk` | crates/macho_core/src/chained.rs:195-212 | packing any chain of slots at least eight bytes apart into any image and walking it gives the chain back |
| `FixupProofs.PageRoundTrip` | crates/macho_core/src/chained.rs:163-212 | the starts of a page, single or multiple, recover all its chains in order |
| `FixupProofs.ResolveIsPatchThenRead` | crates/macho_core/src/chained.rs:53-62 | a lookup returns what the image with all Rebase slots overwritten holds at the address's offset, for Rebase slots and words clear of them; a Bind slot gives no value |
| `FixupProofs.ResolvesExactlyWhenClear` | crates/macho_core/src/chained.rs:53-62 | an address resolves to the patched word whatever the slots' targets if and only if it is a Rebase slot, or no slot and clear of every Rebase slot |
| `FixupProofs.StraddlingReadDiffers` | crates/macho_core/src/chained.rs:53-62 | for every read that straddles a Rebase slot some target makes lookup and patched image disagree |
| `FixupPayload.ListingRead` | crates/macho_core/src/chained.rs:165-193 | a page without starts (0xffff), with one, or with several behind `0x8000 + index`, the last one flagged, is read as exactly those starts |
| `FixupPayload.ImportsRead` | crates/macho_core/src/chained.rs:222-263 | import records of each of the three formats, bit-packed with ordinal and weak flag, are read as the names they point at |
| `FixupPayload.IndexRoundTrip` | crates/macho_core/src/chained.rs:109-220 | for every payload spelled from a plan (header, imports, segment offsets, starts records, page and overflow words) whose chains stand in an image, the parser's index is made of exactly the plan's slots, targets and names |
| `FixupPayload.ImageRoundTrip` | crates/macho_core/src/chained.rs:90-220 | the same from the image on: its first chained-fixups command names the payload |
| `FixupPayload.IndexErrors` | crates/macho_core/src/chained.rs:109-136 | the payload is refused exactly for a header below 28 bytes, a version other than 0, an unreadable segment, or starts outside the payload, in this order |
| `FixupPayload.SegmentsSkipped` | crates/macho_core/src/chained.rs:140-161 | a segment with a zero entry, or whose record or page table leaves the payload, adds nothing; a truncated offset table ends the list |
| `FixupPayload.NamelessImports` | crates/macho_core/src/chained.rs:230-241 | imports of an unknown format, and records outside the payload, have no name |
| `FixupPayload.IndexIsSafe` | crates/macho_core/src/chained.rs:109-220 | the index parsed from spaced chains has all its slots inside the file and eight bytes apart |
| `FixupPayload.ParsedIndexResolves` | crates/macho_core/src/chained.rs:53-220 | end to end, for the parser's own index of spaced chains: an address resolves to the patched word whatever the targets if and only if it is a Rebase slot, or no slot and clear of every Rebase slot |
| `Packed.FieldReads` | crates/macho_core/src/types.rs:150-242 | a packed struct standing in the data reads back field by field at its running offsets |
| `Layouts.SegmentLayout` | crates/macho_core/src/types.rs:150-162 | a segment command laid out in declaration order is read as that segment |
| `Layouts.SectionLayout` | crates/macho_core/src/types.rs:166-179 | a section record laid out in declaration order is read as that section |
| `Layouts.NlistLayout` | crates/apple_metadata/src/symbols.rs:49-65 | an `nlist_64` laid out in declaration order names its value, unless it is a stab, undefined, unnamed, not UTF-8, or a temporary label |
| `Layouts.SymtabLayout` | crates/macho_core/src/types.rs:183-190 | a `symtab_command` laid out in declaration order is read as its four table places |
| `Layouts.DysymtabLayout` | crates/macho_core/src/types.rs:194-215 | a `dysymtab_command` is read as the place of its indirect table, the fifteenth and sixteenth words |
| `Layouts.LinkeditLayout` | crates/macho_core/src/types.rs:306-311 | a `linkedit_data_command` is read as the place of its payload |
| `Layouts.StartsLayout` | crates/macho_core/src/chained.rs:145-161 | the starts record of a segment, laid out field by field behind its offset, is read as those starts |
| `Crc32.Crc32` | crates/ipa_vfs/src/zip_write.rs:85-95 | the nested loops compute the byte-wise shift register with initial and final complement |
| `Crc32.RegisterIsSerial` | crates/ipa_vfs/src/zip_write.rs:85-95 | the byte-wise register is the bit-serial one fed the message bit by bit |
| `Crc32.RegisterLinear` | crates/ipa_vfs/src/zip_write.rs:85-95 | the register is linear over XOR in its state and its message |
| `Crc32.CrcAffine` | crates/ipa_vfs/src/zip_write.rs:85-95 | `crc32(a) ^ crc32(b) ^ crc32(c)` is `crc32(a ^ b ^ c)` for messages of one length |
| `Crc32.BurstDetected` | crates/ipa_vfs/src/zip_write.rs:85-95 | different messages of one length whose differences lie within 32 consecutive bits have different CRCs |
| `Crc32.FourBytesDetected` | crates/ipa_vfs/src/zip_write.rs:85-95 | in particular when they lie within four consecutive bytes |
| `Crc32.ShiftByLowBit` | crates/ipa_vfs/src/zip_write.rs:89-92 | a set low bit brings in the reflected polynomial 0xedb88320, a clear one nothing |
| `Crc32.CheckValue` | crates/ipa_vfs/src/zip_write.rs:116-118 | the CRC of `123456789` is 0xcbf43926 |
| `ZipWrite.WriteLocal` | crates/ipa_vfs/src/zip_write.rs:26-38 | appends the local header (APPNOTE section 4.3.7), the name and the data, changing nothing before them |
| `ZipWrite.WriteCentral` | crates/ipa_vfs/src/zip_write.rs:43-60 | appends the central header (APPNOTE section 4.3.12) with the recorded local offset, and the name |
| `ZipWrite.WriteEnd` | crates/ipa_vfs/src/zip_write.rs:64-71 | appends the end record (APPNOTE section 4.3.16) |
| `ZipWrite.WriteLocals` | crates/ipa_vfs/src/zip_write.rs:21-39 | the first loop writes the local parts one behind the other and records where each starts, modulo 2^32, or refuses an entry that is too large |
| `ZipWrite.WriteCentrals` | crates/ipa_vfs/src/zip_write.rs:42-61 | the second loop appends the central headers, each with its own recorded offset |
| `ZipWrite.WriteStoredZip` | crates/ipa_vfs/src/zip_write.rs:13-74 | the bytes are the local parts, the central headers each pointing at its own local part modulo 2^32, and the end record; too many or too large entries are refused |
| `ZipLayout.LocalWritten` | crates/ipa_vfs/src/zip_write.rs:26-38 | the local part written is the record of APPNOTE section 4.3.7: version 20, method 0, no flags or times, the CRC, both sizes, the name, no extra bytes, the data |
| `ZipLayout.CentralWritten` | crates/ipa_vfs/src/zip_write.rs:43-60 | the central header written is that of section 4.3.12 with the same fields, no comment or attributes, and the local offset |
| `ZipLayout.EndWritten` | crates/ipa_vfs/src/zip_write.rs:64-71 | the end record written is that of section 4.3.16 for one disk, with both counts, the directory's size and offset and no comment |
| `ZipLayout.EndOfStored` | crates/ipa_vfs/src/zip_write.rs:62-71 | below 4 GiB the size and the offset it gives are those of the directory |
| `ZipLayout.ChecksumWritten` | crates/ipa_vfs/src/zip_write.rs:25-33 | the checksum is the CRC-32 of the file's bytes |
| `ZipRead.FindEocd` | crates/ipa_vfs/src/zip.rs:116-133 | the backwards scan stops where `EocdFrom` says, or reports that nothing was found |
| `ZipRead.EocdFrom` | crates/ipa_vfs/src/zip.rs:116-133 | the position found is the last end signature in the scanned window; none is found exactly when the window has none |
| `ZipLayout.EocdExact` | crates/ipa_vfs/src/zip.rs:116-133 | the last signature 0x06054b50 with at least 22 and at most 22 + 65535 bytes from it to the end is found, whatever comment follows the record; none in that window, or fewer than 22 bytes, are errors |
| `ZipRead.Open` | crates/ipa_vfs/src/zip.rs:32-70 | walks the announced number of central headers from the announced offset, up to the first malformed one |
| `ZipLayout.CentralLayout` | crates/ipa_vfs/src/zip.rs:40-66 | a central header with any fields, name, extra bytes and comment is read as its entry, and the next one is looked for behind all three |
| `ZipLayout.CentralRefused` | crates/ipa_vfs/src/zip.rs:40-57 | a header that does not fit, another signature, and a name that leaves the data are told apart as errors |
| `ZipLayout.ArchiveListed` | crates/ipa_vfs/src/zip.rs:32-70 | an archive by any writer, with a directory of such headers anywhere and an end record with a comment, opens to exactly the entries of its headers, in order |
| `ZipLayout.LocalLayout` | crates/ipa_vfs/src/zip.rs:76-98 | an entry is read from the content behind the name and extra bytes of its local part: itself for method 0, inflated for method 8, an error for any other |
| `ZipLayout.ReadRefused` | crates/ipa_vfs/src/zip.rs:77-90 | a local header that does not fit, another signature, and content that leaves the data are told apart as errors |
| `ZipLayout.ArchiveReads` | crates/ipa_vfs/src/zip.rs:32-98 | end to end for such archives: entry `i` has the `i`-th name and reads as what its local part holds |
| `ZipRead.CentralRoundTrip` | crates/ipa_vfs/src/zip.rs:38-67 | a written central header reads back as its entry and the cursor lands behind its name |
| `ZipRead.LocalRoundTrip` | crates/ipa_vfs/src/zip.rs:76-98 | the entry of a written local part reads back as the file's data |
| `ZipRoundTrip.ArchiveOpens` | crates/ipa_vfs/src/zip.rs:32-70 | opening a written archive below 4 GiB lists exactly its files, in order, each at its own local offset |
| `ZipRoundTrip.ZipRoundTrip` | crates/ipa_vfs/src/zip.rs:32-98 | entry `i` of the opened archive has the `i`-th name and reads as the `i`-th data |
| `ZipRoundTrip.TruncatedOffsetFails` | crates/ipa_vfs/src/zip_write.rs:41 | a non-empty archive of any size opens only if a central header stands at the directory offset modulo 2^32 |
| `ZipRoundTrip.WholeWrapFails` | crates/ipa_vfs/src/zip_write.rs:41 | it never opens when the local part is a positive multiple of 2^32 |
| `ZipSize.RoundTripsIffSmall` | crates/ipa_vfs/src/zip_write.rs:13-74 | archives of given name and data lengths round-trip for every content if and only if their local part is below 2^32 bytes |
| `ZipSize.FourGibibytesFail` | crates/ipa_vfs/src/zip_write.rs:41 | two files of zeros whose local parts add up to 2^32 make an archive that does not open |
| `Vfs.IpaVfs.Open` | crates/ipa_vfs/src/bundle.rs:26-39 | the files of the archive without directory entries, the last of equal names winning, and the app prefix; or the first error |
| `Vfs.CollectExact` | crates/ipa_vfs/src/bundle.rs:28-35 | for any archive: the first unreadable file is the error, else each path holds what its last entry reads as |
| `Vfs.IpaVfs.Insert` | crates/ipa_vfs/src/bundle.rs:54-56 | the map with that path set, the prefix untouched |
| `Vfs.IpaVfs.Remove` | crates/ipa_vfs/src/bundle.rs:59-61 | the map without that path, and what it held |
| `Vfs.IpaVfs.ToBytes` | crates/ipa_vfs/src/bundle.rs:64-71 | the stored archive of the map's files in key order |
| `Vfs.FilesOfExact` | crates/ipa_vfs/src/bundle.rs:64-71 | the files packed are those of the map, each once, names ascending in byte order |
| `Vfs.FindAppPrefix` | crates/ipa_vfs/src/bundle.rs:132-143 | the prefix of the first key, in order, inside an app directory |
| `Vfs.AppOfExact` | crates/ipa_vfs/src/bundle.rs:134-139 | a path yields a prefix if and only if it lies under `Payload/<app>/` for a slash-free name ending in `.app`, and then that one |
| `Vfs.PathSpelling` | crates/ipa_vfs/src/bundle.rs:30-139 | directories end in `/`, app names in `.app`, and apps lie in `Payload/` |
| `VfsRoundTrip.PackThenOpen` | crates/ipa_vfs/src/bundle.rs:26-71 | packing a map and opening the archive gives the map back without its directory keys, with the app directory of its first file inside one as prefix; it fails, with `MissingPayloadApp`, exactly when no remaining key lies in an app directory |
| `VfsRoundTrip.RepackIdentical` | crates/ipa_vfs/src/bundle.rs:26-71 | repacking what was reopened gives the same bytes if and only if no key is a directory |
| `VfsRoundTrip.Perform` | crates/ipa_vfs/src/bundle.rs:54-61 | a run of `insert` and `remove` calls leaves the map the edits describe |
| `VfsRoundTrip.LastEditWins` | crates/ipa_vfs/src/bundle.rs:54-61 | after any run of edits a path holds what its last edit says, else what it held before |
| `VfsRoundTrip.EditPackOpen` | crates/ipa_vfs/src/bundle.rs:26-71 | every run of edits, packed and reopened, shows under each file path what the last edit left there |
| `InheritanceSort.SortByInheritance` | crates/apple_metadata/src/dump.rs:206-237 | the nested loops with removal in place terminate and return the passes' result, remainder last |
| `InheritanceSort.SuperOk` | crates/apple_metadata/src/dump.rs:215-223 | placeable means no superclass, `NSObject`, one already placed, or one not waiting |
| `InheritanceSort.ResultIsPermutation` | crates/apple_metadata/src/dump.rs:206-237 | the result is a permutation of the input, cycles or not |
| `InheritanceSort.ParentsFirstIfPossible` | crates/apple_metadata/src/dump.rs:206-237 | the result puts every present superclass before its subclasses if and only if some order of the classes does, and if and only if the fallback was not needed |
| `InheritanceSort.ParentsFirstIffUnblocked` | crates/apple_metadata/src/dump.rs:206-237 | for every list, duplicate names included, parents come first and no fallback is needed if and only if no classes block each other |
| `InheritanceSort.MutualParents` | crates/apple_metadata/src/dump.rs:231-234 | two classes naming each other as superclass are left to the fallback, one before its parent |
| `InheritanceOrder.NamesInOrder` | crates/apple_metadata/src/dump.rs:206-237 | a class stands behind one of a larger name only if it has a present superclass other than `NSObject`, and every class of that superclass in front of the larger name has itself no smaller name |
| `InheritanceOrder.InputOrderKept` | crates/apple_metadata/src/dump.rs:208-237 | every class of the result has its own index in the input; classes of one name keep their input order when neither waits for a superclass, when both name the same one and not themselves, and when both are left to the fallback; the fallback is sorted by name |
| `ByteOrder.LeqIsLexicographic` | crates/apple_metadata/src/dump.rs:208 | names are compared byte by byte: a prefix first, else the smaller byte at the first difference |
| `ByteOrder.SortPositions` | crates/apple_metadata/src/dump.rs:208 | the sort gives each element its own place, with elements of equal names in the order they had |
| `InheritanceSort.RemainderHasCycle` | crates/apple_metadata/src/dump.rs:231-234 | the fallback is taken only with a superclass cycle among the classes it appends |
| `InheritanceSort.AcyclicSorts` | crates/apple_metadata/src/dump.rs:206-237 | without a superclass cycle every present superclass comes first |
| `InheritanceSort.DistinctSortsIffAcyclic` | crates/apple_metadata/src/dump.rs:206-237 | for distinct names the result has parents first if and only if there is no cycle |
| `PatternMatch.MatchFrom` | crates/apple_re_cli/src/class_dump.rs:423-464 | the backtracking matcher is true exactly when a prefix of the text (all of it if anchored) is in the pattern's language |
| `PatternMatch.TryEach` | crates/apple_re_cli/src/class_dump.rs:434-443 | the loop behind `.*` tries every split of the rest of the text |
| `PatternMatch.MatchGlobRegex` | crates/apple_re_cli/src/class_dump.rs:396-421 | true exactly when some substring, starting at 0 for `^` and ending at the end for `$`, is in the language |
| `PatternMatch.WrittenPattern` | crates/apple_re_cli/src/class_dump.rs:396-464 | a pattern written from literals, `.` and `.*`, with or without anchors, matches exactly when some substring, placed as the anchors say, is in the language of these tokens |
| `PatternMatch.PlainIsContains` | crates/apple_re_cli/src/class_dump.rs:389-391 | for a pattern without metacharacters, matching is being contained |
| `PatternMatch.RunMatchesAll` | crates/apple_re_cli/src/class_dump.rs:385-387 | `.*` and `^.*$` match every text |
| `PatternMatch.IsMatch` | crates/apple_re_cli/src/class_dump.rs:382-394 | shortcuts and general matcher decide one declarative relation on every pattern and text |
| `TypeEncoding.ParseOneType` | crates/apple_metadata/src/encode.rs:168-248 | the cursor parser cuts one type off the front of what is left |
| `TypeEncoding.OneType` | crates/apple_metadata/src/encode.rs:168-248 | it makes progress on every non-empty input and reports nothing exactly when only qualifiers are left |
| `TypeEncoding.TakeThroughClose` | crates/apple_metadata/src/encode.rs:216-233 | the depth-counting loop stops at the bracket closing the first one, or at the end |
| `TypeEncoding.SkipNumbers` | crates/apple_metadata/src/encode.rs:250-254 | passes over all leading digits and nothing else |
| `TypeEncoding.SplitMethodTypes` | crates/apple_metadata/src/encode.rs:72-87 | return type, then argument types until nothing or an empty type is left |
| `TypeEncoding.ReparsesWhole` | crates/apple_metadata/src/encode.rs:168-248 | for every input, what the parser reports parses again to itself, whole |
| `TypeEncoding.TypeRoundTrip` | crates/apple_metadata/src/encode.rs:168-248 | a written type is cut off exactly in front of whatever is no part of it, without its leading qualifiers: any one-character type, objects, class names, blocks, pointers, flat arrays, balanced structs and unions, bitfields |
| `TypeEncoding.UnterminatedTypes` | crates/apple_metadata/src/encode.rs:168-215 | an unterminated class name or array takes all that is left, and qualifiers alone are no type |
| `TypeEncoding.UnterminatedAggregate` | crates/apple_metadata/src/encode.rs:216-233 | so does a struct or union whose bracket is never closed |
| `TypeEncoding.SplitRoundTrip` | crates/apple_metadata/src/encode.rs:72-87 | splitting inverts writing any list of types, with or without digits behind each, as long as each type ends where the next thing begins |
| `SymbolIndex.SelectSymbols` | crates/apple_metadata/src/symbols.rs:49-82 | the selection loop over the symbol table fills the map from the entries that survive its filters |
| `SymbolIndex.SelectionPriority` | crates/apple_metadata/src/symbols.rs:49-82 | it leaves each address its first strong name (`_`, `-[`, `+[`), else its first name |
| `SymbolLayout.SymbolsExact` | crates/apple_metadata/src/symbols.rs:49-65 | the first pass has, in table order, the candidate of every 16-byte entry that is no stab and not undefined and whose UTF-8 name is neither empty nor starts with `ltmp`, at its value, and no other |
| `SymbolLayout.StrongNames` | crates/apple_metadata/src/symbols.rs:68-74 | the preferred names are those starting with `_`, `-[` or `+[` |
| `SymbolLayout.CStrExact` | crates/apple_metadata/src/symbols.rs:135-139 | the name at an offset is what stands there up to the NUL or the end, if it is UTF-8 |
| `SymbolIndex.LaterPassFills` | crates/apple_metadata/src/symbols.rs:196 | an `or_insert` pass only fills free addresses, the earliest candidate first |
| `SymbolIndex.IndexSectionStubs` | crates/apple_metadata/src/symbols.rs:159-197 | the stubs of one section, up to the end of the indirect table |
| `SymbolIndex.IndexSymbolStubs` | crates/apple_metadata/src/symbols.rs:141-200 | the stubs of all stub sections in order, or the first section error |
| `SymbolLayout.StubMembership` | crates/apple_metadata/src/symbols.rs:158-197 | `(a, name)` is a candidate of a stub section exactly when, for some `i < size / stub_size`, the little-endian word at byte `4 * (reserved1 + i)` of the indirect table is an index below 2^31 and `nsyms`, the first word of that 16-byte symbol names the non-empty `name`, and `a` is `addr + i * stub_size` modulo 2^64 |
| `SymbolLayout.StubsExact` | crates/apple_metadata/src/symbols.rs:158-197 | and the candidates come in the order of `i`, one for each stub so named |
| `SymbolLayout.StubPassExact` | crates/apple_metadata/src/symbols.rs:148-200 | the pass over an image: the error of looking up the dynamic symbol table, nothing without one or with an indirect table that leaves the file, else the stubs of all sections, else the error of an unreadable one |
| `SymbolLayout.StubsInSectionOrder` | crates/apple_metadata/src/symbols.rs:157 | stubs of later sections come behind those of earlier ones |
| `SymbolIndex.IndexCStrings` | crates/apple_metadata/src/symbols.rs:202-220 | the scan inserts the runs between NULs in order |
| `SymbolIndex.RunsExact` | crates/apple_metadata/src/symbols.rs:202-220 | those runs are exactly the maximal NUL-free stretches that are UTF-8, each at its own address |
| `SymbolIndex.IndexStringSections` | crates/apple_metadata/src/symbols.rs:88-101 | the listed sections in order, one outside the file passed over, or the first section error |
| `SymbolLayout.StringSectionNames` | crates/apple_metadata/src/symbols.rs:89-95 | the five sections searched, by name and in order |
| `SymbolLayout.StringsExact` | crates/apple_metadata/src/symbols.rs:88-101 | the candidates are the runs of each listed section that is found and lies in the file; the pass fails exactly when looking one of them up fails |
| `SymbolLayout.StringsInListOrder` | crates/apple_metadata/src/symbols.rs:88-101 | strings of later sections come behind those of earlier ones |
| `SymbolLayout.TablesInFile` | crates/apple_metadata/src/symbols.rs:35-47 | a symbol table outside the file is the error, then a string table outside it; without the command there are no symbols and no stubs |
| `SymbolLayout.PassesInOrder` | crates/apple_metadata/src/symbols.rs:49-101 | an address is named by its first strong symbol, without one by its first symbol, then stub, then string, and by nothing exactly when it has no candidate |
| `SymbolIndex.FromMacho` | crates/apple_metadata/src/symbols.rs:32-105 | for every address the final name is its first strong symbol, else its first symbol, else its first stub, else the string starting there in the earliest section; tables outside the file are errors |

## Left out

- Inflating: `decompress_to_vec` and its zlib fallback are foreign code; the inflater is a parameter and only the stored method is proved to round-trip (`ZipLayout.LocalLayout` says what method 8 hands to it).
- Alignment: zerocopy reads of load commands, segments and sections also fail on misaligned data; the model reads the fields wherever they stand.
- 32-bit targets and debug builds: `usize` is 64 bits and overflow wraps instead of panicking.
- ZipRoundTrip.ZipRoundTrip: bounded to local parts below 4 GiB, because the writer truncates offsets to 32 bits. Above that some content of the same lengths always fails (`ZipSize.RoundTripsIffSmall`); which contents happen to survive is left open.
- FixupProofs.WordRoundTrip: authenticated arm64e words have no target and arm64e binds have 16-bit ordinals, because the code supports no more; `segment_offset` is taken as a file offset, as the code takes it.
- BindOps.RecordsRoundTrip: only what precedes the first `DONE`, where the parser stops, also in a lazy-bind table.
- TypeEncoding.TypeRoundTrip: arrays with `]` in their body are excluded, because `[` stops at the first `]`; a bitfield in front of digits is, because `b` absorbs them.
- TypeEncoding.TakeThroughClose: the bracket depth is unbounded; the code counts in 32 bits.
- PatternMatch.IsMatch: characters are single units, as on ASCII; the code slices UTF-8 text at byte positions and panics inside a multi-byte character.
- Choosing the image: thin and fat headers, the lookups of other single load commands, `slice_linkedit`, `binds` and `imports`.
- `Vfs.IpaVfs`: `bundle`, `main_executable_path` and property lists; `files`, `app_prefix` and `get` only return fields. The prefix is not recomputed by `insert` or `remove`, in the code as in the model.
- `SymbolTable::resolve_nearest` and the other lookups, `humanize` and the `format_*` functions, names and type tables, `codesign.rs`, `diff.rs`, `refs.rs`, `archive.rs`, `objc.rs` and the command line: table lookups, string building and bounds checks.
- `ObjcClass`: everything but name and superclass is one opaque number.
