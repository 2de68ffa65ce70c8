/** symbols.rs: the address-to-name map, filled in three passes of falling priority. */
module SymbolIndex {
  import opened Words
  import opened MachoError
  import opened Text
  import opened LoadCommands
  import opened CommandLookup

  const NLIST_SIZE := 16
  const S_SYMBOL_STUBS := 8
  /** `ltmp`. */
  const LTMP: Bytes := [0x6C, 0x74, 0x6D, 0x70]

  type NameMap = map<u64, Str>
  type Candidate = (u64, Str)

  /** `__TEXT`. */
  const SEG_TEXT: Bytes := [0x5F, 0x5F, 0x54, 0x45, 0x58, 0x54]
  /** `__DATA`. */
  const SEG_DATA: Bytes := [0x5F, 0x5F, 0x44, 0x41, 0x54, 0x41]
  /** `__cstring`. */
  const CSTRING: Bytes := [0x5F, 0x5F, 0x63, 0x73, 0x74, 0x72, 0x69, 0x6E, 0x67]
  /** `__objc_methname`. */
  const METHNAME: Bytes := [0x5F, 0x5F, 0x6F, 0x62, 0x6A, 0x63, 0x5F, 0x6D, 0x65, 0x74, 0x68, 0x6E, 0x61, 0x6D, 0x65]
  /** `__objc_classname`. */
  const CLASSNAME: Bytes := [0x5F, 0x5F, 0x6F, 0x62, 0x6A, 0x63, 0x5F, 0x63, 0x6C, 0x61, 0x73, 0x73, 0x6E, 0x61, 0x6D, 0x65]
  /** `__objc_methtype`. */
  const METHTYPE: Bytes := [0x5F, 0x5F, 0x6F, 0x62, 0x6A, 0x63, 0x5F, 0x6D, 0x65, 0x74, 0x68, 0x74, 0x79, 0x70, 0x65]
  /** `__cfstring`. */
  const CFSTRING: Bytes := [0x5F, 0x5F, 0x63, 0x66, 0x73, 0x74, 0x72, 0x69, 0x6E, 0x67]

  /** The sections whose strings are indexed, in this order: section and segment name. */
  function StringSections(): seq<(Bytes, Bytes)> {
    [(CSTRING, SEG_TEXT), (METHNAME, SEG_TEXT), (CLASSNAME, SEG_TEXT), (METHTYPE, SEG_TEXT), (CFSTRING, SEG_DATA)]
  }

  function OrElse(a: Option<Str>, b: Option<Str>): Option<Str> {
    if a.Some? then a else b
  }

  // ----- first pass: the symbol table -----

  /** A name starting with `_`, `-[` or `+[`. */
  predicate Strong(name: Bytes) {
    [0x5F] <= name || [0x2D, 0x5B] <= name || [0x2B, 0x5B] <= name
  }

  /** The `i`-th entry, unless it is a stab, undefined, unnamed or a temporary label. */
  function Survivor(syms: Bytes, strings: Bytes, i: nat): Option<Candidate>
    requires (i + 1) * NLIST_SIZE <= |syms|
  {
    var at := i * NLIST_SIZE;
    var nType := syms[at + 4];
    if nType / 0x20 != 0 || nType / 2 % 8 == 0 then None
    else
      match CStrAt(strings, U32At(syms, at))
      case None => None
      case Some(name) => if name == [] || LTMP <= name then None else Some((U64At(syms, at + 8), name))
  }

  function Survivors(syms: Bytes, strings: Bytes, i: nat, n: nat): seq<Candidate>
    requires i <= n && n * NLIST_SIZE <= |syms|
    decreases n - i
  {
    if i == n then []
    else
      var c := Survivor(syms, strings, i);
      (if c.Some? then [c.value] else []) + Survivors(syms, strings, i + 1, n)
  }

  /** One entry into the map: a strong name replaces a weak one, a new address is added. */
  function Select(m: NameMap, c: Candidate): NameMap {
    if c.0 in m then (if !Strong(m[c.0]) && Strong(c.1) then m[c.0 := c.1] else m) else m[c.0 := c.1]
  }

  function SelectAll(m: NameMap, cands: seq<Candidate>): NameMap
    decreases |cands|
  {
    if cands == [] then m else SelectAll(Select(m, cands[0]), cands[1..])
  }

  /** The first candidate at `addr`, and the first strong one. */
  function First(cands: seq<Candidate>, addr: u64): (r: Option<Str>)
    ensures r == None <==> forall i :: 0 <= i < |cands| ==> cands[i].0 != addr
    ensures r.Some? ==> exists i :: 0 <= i < |cands| && cands[i] == (addr, r.value)
                                    && forall j :: 0 <= j < i ==> cands[j].0 != addr
  {
    if cands == [] then None
    else if cands[0].0 == addr then Some(cands[0].1)
    else
      var r := First(cands[1..], addr);
      assert forall i :: 0 <= i < |cands[1..]| ==> cands[1..][i] == cands[i + 1];
      assert forall i :: 1 <= i < |cands| ==> cands[i] == cands[1..][i - 1];
      r
  }

  function FirstStrong(cands: seq<Candidate>, addr: u64): (r: Option<Str>)
    ensures r == None <==> forall i :: 0 <= i < |cands| ==> !StrongAt(cands[i], addr)
    ensures r.Some? ==> exists i :: 0 <= i < |cands| && cands[i] == (addr, r.value) && Strong(r.value)
                                    && forall j :: 0 <= j < i ==> !StrongAt(cands[j], addr)
  {
    if cands == [] then None
    else if StrongAt(cands[0], addr) then Some(cands[0].1)
    else
      var r := FirstStrong(cands[1..], addr);
      assert forall i :: 0 <= i < |cands[1..]| ==> cands[1..][i] == cands[i + 1];
      assert forall i :: 1 <= i < |cands| ==> cands[i] == cands[1..][i - 1];
      r
  }

  predicate StrongAt(c: Candidate, addr: u64) {
    c.0 == addr && Strong(c.1)
  }

  /** The selection loop leaves the first strong name of an address, else its first name. */
  lemma {:induction false} SelectionPriority(m: NameMap, cands: seq<Candidate>, addr: u64)
    ensures Lookup(SelectAll(m, cands), addr) ==
      if addr in m then (if Strong(m[addr]) then Some(m[addr]) else OrElse(FirstStrong(cands, addr), Some(m[addr])))
      else OrElse(FirstStrong(cands, addr), First(cands, addr))
    decreases |cands|
  {
    hide Strong;
    if cands != [] {
      SelectionPriority(Select(m, cands[0]), cands[1..], addr);
    }
  }

  /** The loop over the symbol table in `from_macho`. */
  method SelectSymbols(syms: Bytes, strings: Bytes, n: nat) returns (m: NameMap)
    requires n * NLIST_SIZE <= |syms|
    ensures m == SelectAll(map[], Survivors(syms, strings, 0, n))
  {
    assert ValidUtf8([]);
    hide CStrAt, U32At, U64At, ValidUtf8;
    m := map[];
    for i := 0 to n
      invariant SelectAll(map[], Survivors(syms, strings, 0, n)) == SelectAll(m, Survivors(syms, strings, i, n))
    {
      var start := i * NLIST_SIZE;
      SurvivorAdded(m, syms, strings, i, n);
      var nType := syms[start + 4];
      if nType / 0x20 != 0 {
        continue;
      }
      if nType / 2 % 8 == 0 {
        continue;
      }
      var found := CStrAt(strings, U32At(syms, start));
      var name: Str := if found.Some? then found.value else [];
      if name == [] || LTMP <= name {
        continue;
      }
      var value := U64At(syms, start + 8);
      if value in m {
        if !Strong(m[value]) && Strong(name) {
          m := m[value := name];
        }
      } else {
        m := m[value := name];
      }
    }
  }

  lemma SurvivorAdded(m: NameMap, syms: Bytes, strings: Bytes, i: nat, n: nat)
    requires i < n && n * NLIST_SIZE <= |syms|
    ensures var c, rest := Survivor(syms, strings, i), Survivors(syms, strings, i + 1, n);
      SelectAll(m, Survivors(syms, strings, i, n)) == SelectAll(if c.None? then m else Select(m, c.value), rest)
  {
    hide Survivor, Select;
    var rest := Survivors(syms, strings, i + 1, n);
    if Survivor(syms, strings, i).Some? {
      assert ([Survivor(syms, strings, i).value] + rest)[1..] == rest;
    } else {
      assert [] + rest == rest;
    }
  }

  // ----- later passes: `entry(..).or_insert_with(..)` -----

  function OrInsert(m: NameMap, c: Candidate): NameMap {
    if c.0 in m then m else m[c.0 := c.1]
  }

  function OrInsertAll(m: NameMap, cands: seq<Candidate>): NameMap
    decreases |cands|
  {
    if cands == [] then m else OrInsertAll(OrInsert(m, cands[0]), cands[1..])
  }

  function Filled(m: NameMap, cands: Result<seq<Candidate>, Error>): Result<NameMap, Error> {
    match cands
    case Err(e) => Err(e)
    case Ok(c) => Ok(OrInsertAll(m, c))
  }

  /** A later pass only fills addresses that are still free, the earliest candidate first. */
  lemma {:induction false} LaterPassFills(m: NameMap, cands: seq<Candidate>, addr: u64)
    ensures Lookup(OrInsertAll(m, cands), addr) == OrElse(Lookup(m, addr), First(cands, addr))
    decreases |cands|
  {
    if cands != [] {
      LaterPassFills(OrInsert(m, cands[0]), cands[1..], addr);
    }
  }

  lemma NothingToInsert()
    ensures forall m: NameMap :: OrInsertAll(m, []) == m
  {
  }

  lemma {:induction false} OrInsertConcat(m: NameMap, a: seq<Candidate>, b: seq<Candidate>)
    ensures OrInsertAll(m, a + b) == OrInsertAll(OrInsertAll(m, a), b)
    decreases |a|
  {
    if a == [] {
      assert a + b == b;
    } else {
      assert (a + b)[1..] == a[1..] + b;
      OrInsertConcat(OrInsert(m, a[0]), a[1..], b);
    }
  }

  // ----- second pass: symbol stubs -----

  /** The tables a stub is named through. */
  datatype StubTables = StubTables(indirect: Bytes, indirectCount: nat, syms: Bytes, nsyms: nat, strings: Bytes)

  predicate GoodTables(t: StubTables) {
    |t.indirect| == t.indirectCount * 4 && |t.syms| == t.nsyms * NLIST_SIZE
  }

  /** The `i`-th stub of a section, if its indirect symbol is a named one. */
  function Stub(t: StubTables, sect: Section, i: nat): Option<Candidate>
    requires GoodTables(t) && sect.reserved1 + i < t.indirectCount
  {
    var index := U32At(t.indirect, (sect.reserved1 + i) * 4);
    if index >= 0x8000_0000 || index >= t.nsyms then None
    else
      match CStrAt(t.strings, U32At(t.syms, index * NLIST_SIZE))
      case None => None
      case Some(name) => if name == [] then None else Some(((sect.addr + i * sect.reserved2) % TWO_64, name))
  }

  /** The stubs from `i` on; the list ends where the indirect table does. */
  function Stubs(t: StubTables, sect: Section, i: nat, count: nat): seq<Candidate>
    requires GoodTables(t)
    decreases count - i
  {
    if i >= count || sect.reserved1 + i >= t.indirectCount then []
    else
      var c := Stub(t, sect, i);
      (if c.Some? then [c.value] else []) + Stubs(t, sect, i + 1, count)
  }

  function SectionStubs(t: StubTables, sect: Section): seq<Candidate>
    requires GoodTables(t)
  {
    if sect.flags % 0x100 != S_SYMBOL_STUBS || sect.reserved2 == 0 || sect.size == 0 then []
    else Stubs(t, sect, 0, sect.size / sect.reserved2)
  }

  /** The stubs of all sections in order, up to the first section that cannot be read. */
  function AllStubs(t: StubTables, items: seq<SectionItem>): Result<seq<Candidate>, Error>
    requires GoodTables(t)
  {
    if items == [] then Ok([])
    else
      match items[0]
      case Err(e) => Err(e)
      case Ok((sect, _)) =>
        match AllStubs(t, items[1..])
        case Err(e) => Err(e)
        case Ok(rest) => Ok(SectionStubs(t, sect) + rest)
  }

  /** The stub candidates of an image; none without an indirect symbol table inside the file. */
  function StubCandidates(file: MachoFile, syms: Bytes, nsyms: nat, strings: Bytes): Result<seq<Candidate>, Error>
    requires |syms| == nsyms * NLIST_SIZE
  {
    match DysymtabOf(file)
    case Err(e) => Err(e)
    case Ok(None) => Ok([])
    case Ok(Some(dysymtab)) =>
      var off, n := dysymtab.indirectsymoff, dysymtab.nindirectsyms;
      if off + n * 4 > |file.data| then Ok([])
      else
        match Sections(file)
        case Err(e) => Err(e)
        case Ok(items) => AllStubs(StubTables(file.data[off..off + n * 4], n, syms, nsyms, strings), items)
  }

  method IndexSectionStubs(t: StubTables, sect: Section, m0: NameMap) returns (m: NameMap)
    requires GoodTables(t)
    ensures m == OrInsertAll(m0, SectionStubs(t, sect))
  {
    hide CStrAt, U32At;
    m := m0;
    if sect.flags % 0x100 != S_SYMBOL_STUBS {
      return;
    }
    var stubSize := sect.reserved2;
    if stubSize == 0 || sect.size == 0 {
      return;
    }
    var count := sect.size / stubSize;
    ghost var all := OrInsertAll(m0, Stubs(t, sect, 0, count));
    for i := 0 to count
      invariant all == OrInsertAll(m, Stubs(t, sect, i, count))
    {
      var slot := sect.reserved1 + i;
      if slot >= t.indirectCount {
        break;
      }
      var c := Stub(t, sect, i);
      OrInsertConcat(m, if c.Some? then [c.value] else [], Stubs(t, sect, i + 1, count));
      if c.Some? {
        m := OrInsert(m, c.value);
      }
    }
  }

  /** `index_symbol_stubs`. */
  method IndexSymbolStubs(file: MachoFile, syms: Bytes, nsyms: nat, strings: Bytes, m0: NameMap)
    returns (r: Result<NameMap, Error>)
    requires |syms| == nsyms * NLIST_SIZE
    ensures r == Filled(m0, StubCandidates(file, syms, nsyms, strings))
  {
    hide SectionIter.Pending, Sections, SectionStubs, DysymtabOf;
    var dysymtab := FindDysymtab(file);
    if dysymtab.Err? {
      return Err(dysymtab.error);
    }
    if dysymtab.value.None? {
      return Ok(m0);
    }
    var off, n := dysymtab.value.value.indirectsymoff, dysymtab.value.value.nindirectsyms;
    if off + n * 4 > |file.data| {
      return Ok(m0);
    }
    var t := StubTables(file.data[off..off + n * 4], n, syms, nsyms, strings);
    var sections := OpenSections(file);
    if sections.Err? {
      return Err(sections.error);
    }
    var iter, m := sections.value, m0;
    ghost var all := AllStubs(t, Sections(file).value);
    while true
      invariant iter.Valid() && fresh(iter) && fresh(iter.segments) && fresh(iter.segments.inner)
      invariant all.Err? ==> all == AllStubs(t, iter.Pending())
      invariant all.Ok? ==> AllStubs(t, iter.Pending()).Ok?
      invariant all.Ok? ==> OrInsertAll(m0, all.value) == OrInsertAll(m, AllStubs(t, iter.Pending()).value)
      decreases |iter.Pending()|
    {
      ghost var pending := iter.Pending();
      var next := iter.Next();
      match next {
        case None => return Ok(m);
        case Some(Err(e)) => return Err(e);
        case Some(Ok((sect, _))) =>
          ghost var rest := AllStubs(t, iter.Pending());
          if rest.Ok? {
            OrInsertConcat(m, SectionStubs(t, sect), rest.value);
          }
          m := IndexSectionStubs(t, sect, m);
      }
    }
  }

  // ----- third pass: C strings -----

  /** The non-empty stretches between NULs from `i` on, with the addresses they start at. */
  function Runs(base: u64, data: Bytes, i: nat): seq<Candidate>
    requires i <= |data|
    decreases |data| - i, 0
  {
    if i == |data| then []
    else if data[i] == 0 then Runs(base, data, i + 1)
    else
      var end := i + NulAt(data[i..]);
      assert NulAt(data[i..]) > 0;
      RunHere(base, data, i, end) + RunsFrom(base, data, end + 1)
  }

  /** The runs a scan at cursor `i` has still to see; the cursor may stand one past the end. */
  function RunsFrom(base: u64, data: Bytes, i: nat): seq<Candidate>
    decreases if i <= |data| then |data| - i else 0, 1
  {
    if i <= |data| then Runs(base, data, i) else []
  }

  function RunHere(base: u64, data: Bytes, start: nat, end: nat): seq<Candidate>
    requires start <= end <= |data|
  {
    if ValidUtf8(data[start..end]) then [((base + start) % TWO_64, data[start..end])] else []
  }

  lemma RunsStep(base: u64, data: Bytes, start: nat, end: nat)
    requires start < end <= |data| && data[start] != 0 && NulFree(data[start..end]) && (end == |data| || data[end] == 0)
    ensures Runs(base, data, start) == RunHere(base, data, start, end) + RunsFrom(base, data, end + 1)
  {
    hide ValidUtf8, NulAt, NulFree, RunHere, RunsFrom;
    assert NulAt(data[start..]) == end - start by {
      assert data[start..][..end - start] == data[start..end];
      NulAtIs(data[start..], end - start);
    }
  }

  lemma LongerRun(data: Bytes, start: nat, i: nat)
    requires start <= i < |data| && data[i] != 0 && NulFree(data[start..i])
    ensures NulFree(data[start..i + 1])
  {
    assert data[start..i + 1] == data[start..i] + [data[i]];
  }

  lemma RunAdded(m: NameMap, base: u64, data: Bytes, start: nat, end: nat)
    requires start < end <= |data| && data[start] != 0 && NulFree(data[start..end]) && (end == |data| || data[end] == 0)
    ensures OrInsertAll(m, RunsFrom(base, data, start))
         == OrInsertAll(OrInsertAll(m, RunHere(base, data, start, end)), RunsFrom(base, data, end + 1))
  {
    RunsStep(base, data, start, end);
    hide Runs, RunHere, OrInsertAll, ValidUtf8, NulAt, NulFree;
    OrInsertConcat(m, RunHere(base, data, start, end), RunsFrom(base, data, end + 1));
  }

  lemma RunHereAdded(m: NameMap, base: u64, data: Bytes, start: nat, end: nat)
    requires start <= end <= |data|
    ensures OrInsertAll(m, RunHere(base, data, start, end))
         == if ValidUtf8(data[start..end]) then OrInsert(m, ((base + start) % TWO_64, data[start..end])) else m
  {
    hide ValidUtf8;
  }

  /** `index_cstrings`. */
  method IndexCStrings(m0: NameMap, base: u64, data: Bytes) returns (m: NameMap)
    ensures m == OrInsertAll(m0, Runs(base, data, 0))
  {
    NothingToInsert();
    hide ValidUtf8, NulAt, RunHere, OrInsert, OrInsertAll, NulFree;
    m := m0;
    var i := 0;
    while i < |data|
      invariant 0 <= i
      invariant OrInsertAll(m0, Runs(base, data, 0)) == OrInsertAll(m, RunsFrom(base, data, i))
      decreases |data| - i
    {
      if data[i] == 0 {
        i := i + 1;
        continue;
      }
      var start := i;
      NoRunYet(data, start);
      while i < |data| && data[i] != 0
        invariant start <= i <= |data| && NulFree(data[start..i])
      {
        LongerRun(data, start, i);
        i := i + 1;
      }
      RunAdded(m, base, data, start, i);
      RunHereAdded(m, base, data, start, i);
      var s := data[start..i];
      if ValidUtf8(s) {
        if s != [] {
          m := OrInsert(m, ((base + start) % TWO_64, s));
        }
      }
      i := i + 1;
    }
  }

  lemma NoRunYet(data: Bytes, start: nat)
    requires start <= |data|
    ensures NulFree(data[start..start])
  {
  }

  /** A maximal stretch without NULs. */
  predicate IsRun(data: Bytes, start: nat, end: nat) {
    && start < end <= |data| && NulFree(data[start..end])
    && (start == 0 || data[start - 1] == 0) && (end == |data| || data[end] == 0)
  }

  /** `c` is the run between these two positions, UTF-8 and at its own address. */
  predicate NamesRun(base: u64, data: Bytes, start: nat, end: nat, c: Candidate) {
    IsRun(data, start, end) && ValidUtf8(data[start..end]) && c == ((base + start) % TWO_64, data[start..end])
  }

  ghost predicate NamesRunFrom(base: u64, data: Bytes, i: nat, c: Candidate) {
    exists start: nat, end: nat :: i <= start && NamesRun(base, data, start, end, c)
  }

  /** The candidates are the maximal runs that are UTF-8, each at its own address. */
  lemma {:induction false} RunsExact(base: u64, data: Bytes, i: nat, c: Candidate)
    requires i <= |data| && (i == 0 || data[i - 1] == 0)
    ensures c in Runs(base, data, i) <==> NamesRunFrom(base, data, i, c)
    decreases |data| - i
  {
    hide ValidUtf8, NulAt, NulFree, NamesRunFrom, RunHere, IsRun, Runs;
    if i == |data| {
      NoRunAtEnd(base, data, c);
    } else if data[i] == 0 {
      NoRunAtNul(base, data, i, c);
      RunsExact(base, data, i + 1, c);
    } else {
      var end := i + NulAt(data[i..]);
      RunEnd(data, i);
      RunsStep(base, data, i, end);
      RunThenRest(base, data, i, end, c);
      if end < |data| {
        RunsExact(base, data, end + 1, c);
      }
    }
  }

  lemma RunEnd(data: Bytes, i: nat)
    requires i < |data| && data[i] != 0 && (i == 0 || data[i - 1] == 0)
    ensures var end := i + NulAt(data[i..]);
            IsRun(data, i, end) && i < end <= |data| && NulFree(data[i..end]) && (end == |data| || data[end] == 0)
  {
    var n := NulAt(data[i..]);
    assert data[i..][..n] == data[i..i + n];
  }

  lemma NoRunAtEnd(base: u64, data: Bytes, c: Candidate)
    ensures Runs(base, data, |data|) == [] && !NamesRunFrom(base, data, |data|, c)
  {
  }

  lemma NoRunAtNul(base: u64, data: Bytes, i: nat, c: Candidate)
    requires i < |data| && data[i] == 0
    ensures Runs(base, data, i) == Runs(base, data, i + 1)
    ensures NamesRunFrom(base, data, i, c) <==> NamesRunFrom(base, data, i + 1, c)
  {
    hide ValidUtf8;
    forall start: nat, end: nat | i <= start && NamesRun(base, data, start, end, c) ensures i + 1 <= start {
      assert data[start..end][0] == data[start];
    }
  }

  lemma RunThenRest(base: u64, data: Bytes, i: nat, end: nat, c: Candidate)
    requires IsRun(data, i, end)
    ensures NamesRunFrom(base, data, i, c)
       <==> c in RunHere(base, data, i, end) || (end < |data| && NamesRunFrom(base, data, end + 1, c))
  {
    hide ValidUtf8, NulFree;
    assert c in RunHere(base, data, i, end) <==> NamesRun(base, data, i, end, c);
    hide RunHere;
    forall s: nat, e: nat | i <= s && NamesRun(base, data, s, e, c) ensures (s == i && e == end) || end + 1 <= s < |data| {
      RunsDisjoint(data, i, end, s, e);
    }
  }

  lemma RunsDisjoint(data: Bytes, i: nat, end: nat, s: nat, e: nat)
    requires IsRun(data, i, end) && IsRun(data, s, e) && i <= s
    ensures (s == i && e == end) || end + 1 <= s < |data|
  {
    assert forall k :: i <= k < end ==> data[k] == data[i..end][k - i] != 0;
    assert forall k :: s <= k < e ==> data[k] == data[s..e][k - s] != 0;
  }

  /** `section_data`: none when the section does not lie inside the file. */
  function SectionData(file: MachoFile, sect: Section): Option<Bytes> {
    if sect.offset + sect.size <= |file.data| then Some(file.data[sect.offset..sect.offset + sect.size]) else None
  }

  /** The strings of the first section of that name, when it lies inside the file. */
  function RunsOf(file: MachoFile, found: Option<Section>): seq<Candidate> {
    if found.None? || SectionData(file, found.value).None? then []
    else Runs(found.value.addr, SectionData(file, found.value).value, 0)
  }

  function StringCandidates(file: MachoFile, names: seq<(Bytes, Bytes)>): Result<seq<Candidate>, Error> {
    if names == [] then Ok([])
    else
      match Found(file, names[0].1, names[0].0)
      case Err(e) => Err(e)
      case Ok(found) =>
        match StringCandidates(file, names[1..])
        case Err(e) => Err(e)
        case Ok(rest) => Ok(RunsOf(file, found) + rest)
  }

  /** The last loop of `from_macho`. */
  method IndexStringSections(file: MachoFile, names: seq<(Bytes, Bytes)>, m0: NameMap) returns (r: Result<NameMap, Error>)
    ensures r == Filled(m0, StringCandidates(file, names))
  {
    hide Found, Runs, ValidUtf8;
    var m := m0;
    ghost var all := StringCandidates(file, names);
    for i := 0 to |names|
      invariant all.Err? ==> all == StringCandidates(file, names[i..])
      invariant all.Ok? ==> StringCandidates(file, names[i..]).Ok?
      invariant all.Ok? ==> OrInsertAll(m0, all.value) == OrInsertAll(m, StringCandidates(file, names[i..]).value)
    {
      assert names[i..][1..] == names[i + 1..];
      var found := FindSection(file, names[i].1, names[i].0);
      if found.Err? {
        return Err(found.error);
      }
      if all.Ok? {
        OrInsertConcat(m, RunsOf(file, found.value), StringCandidates(file, names[i + 1..]).value);
      }
      if found.value.Some? {
        var sect := found.value.value;
        var data := SectionData(file, sect);
        if data.Some? {
          m := IndexCStrings(m, sect.addr, data.value);
        }
      }
    }
    return Ok(m);
  }

  // ----- the three passes together -----

  /** Where a table of the file lies, `what` when it does not fit. */
  function Window(file: MachoFile, off: nat, size: nat, what: string): Result<Bytes, Error> {
    if off + size <= |file.data| then Ok(file.data[off..off + size]) else Err(Truncated(what))
  }

  datatype Passes = Passes(symbols: seq<Candidate>, stubs: seq<Candidate>, strings: seq<Candidate>)

  /** The candidates of the three passes, or the first error on the way. */
  function PassesOf(file: MachoFile): Result<Passes, Error> {
    match SymbolPasses(file)
    case Err(e) => Err(e)
    case Ok(p) =>
      match StringCandidates(file, StringSections())
      case Err(e) => Err(e)
      case Ok(strings) => Ok(p.(strings := strings))
  }

  function SymbolPasses(file: MachoFile): Result<Passes, Error> {
    match SymtabOf(file)
    case Err(e) => Err(e)
    case Ok(None) => Ok(Passes([], [], []))
    case Ok(Some(st)) => TablePasses(file, st)
  }

  /** The part behind `if let Some(st)`. */
  function TablePasses(file: MachoFile, st: Symtab): Result<Passes, Error> {
    match Window(file, st.symoff, st.nsyms * NLIST_SIZE, "symtab")
    case Err(e) => Err(e)
    case Ok(syms) =>
      match Window(file, st.stroff, st.strsize, "strtab")
      case Err(e) => Err(e)
      case Ok(strings) =>
        match StubCandidates(file, syms, st.nsyms, strings)
        case Err(e) => Err(e)
        case Ok(stubs) => Ok(Passes(Survivors(syms, strings, 0, st.nsyms), stubs, []))
  }

  /** The name an address ends up with: its first strong symbol, else its first symbol, first stub, first string. */
  function NameOf(p: Passes, addr: u64): Option<Str> {
    OrElse(OrElse(FirstStrong(p.symbols, addr), First(p.symbols, addr)),
           OrElse(First(p.stubs, addr), First(p.strings, addr)))
  }

  lemma PassesPriority(p: Passes, addr: u64)
    ensures Lookup(OrInsertAll(OrInsertAll(SelectAll(map[], p.symbols), p.stubs), p.strings), addr) == NameOf(p, addr)
  {
    hide Strong, First, FirstStrong, SelectAll, OrInsertAll;
    var m := SelectAll(map[], p.symbols);
    SelectionPriority(map[], p.symbols, addr);
    LaterPassFills(m, p.stubs, addr);
    LaterPassFills(OrInsertAll(m, p.stubs), p.strings, addr);
  }

  /** The part of `from_macho` behind `if let Some(st)`: symbols, then stubs. */
  method NameSymbols(file: MachoFile, st: Symtab) returns (r: Result<NameMap, Error>)
    ensures r.Err? ==> TablePasses(file, st) == Err(r.error)
    ensures r.Ok? ==> TablePasses(file, st).Ok?
    ensures r.Ok? ==> var p := TablePasses(file, st).value; r.value == OrInsertAll(SelectAll(map[], p.symbols), p.stubs)
  {
    hide StubCandidates, Survivors, SelectAll, OrInsertAll, ValidUtf8;
    var syms := Window(file, st.symoff, st.nsyms * NLIST_SIZE, "symtab");
    if syms.Err? {
      return Err(syms.error);
    }
    var strings := Window(file, st.stroff, st.strsize, "strtab");
    if strings.Err? {
      return Err(strings.error);
    }
    var m := SelectSymbols(syms.value, strings.value, st.nsyms);
    r := IndexSymbolStubs(file, syms.value, st.nsyms, strings.value, m);
  }

  lemma NoSymbols()
    ensures OrInsertAll(SelectAll(map[], []), []) == map[]
  {
  }

  /** `SymbolTable::from_macho`. */
  method FromMacho(file: MachoFile) returns (r: Result<NameMap, Error>)
    ensures r.Ok? == PassesOf(file).Ok?
    ensures r.Err? ==> PassesOf(file) == Err(r.error)
    ensures r.Ok? ==> forall addr: u64 :: Lookup(r.value, addr) == NameOf(PassesOf(file).value, addr)
  {
    NoSymbols();
    var m: NameMap := map[];
    hide SymtabOf, TablePasses, StringCandidates, SelectAll, OrInsertAll, NameOf, StringSections, ValidUtf8, Lookup;
    var symtab := FindSymtab(file);
    if symtab.Err? {
      return Err(symtab.error);
    }
    if symtab.value.Some? {
      r := NameSymbols(file, symtab.value.value);
      if r.Err? {
        return;
      }
      m := r.value;
    }
    r := IndexStringSections(file, StringSections(), m);
    if r.Ok? {
      forall addr: u64 ensures Lookup(r.value, addr) == NameOf(PassesOf(file).value, addr) {
        PassesPriority(PassesOf(file).value, addr);
      }
    }
  }
}
