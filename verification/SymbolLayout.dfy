/** symbols.rs: which address gets which candidate name, over laid-out tables and in plain arithmetic. */
module SymbolLayout {
  import opened Words
  import opened MachoError
  import opened Text
  import opened LoadCommands
  import opened CommandLookup
  import opened SymbolIndex

  /** `name` stands at `off`, up to its NUL or the end of the data, and is UTF-8. */
  predicate StringAt(data: Bytes, off: nat, name: Bytes) {
    && off + |name| <= |data| && data[off..off + |name|] == name && 0 !in name && ValidUtf8(name)
    && (off + |name| == |data| || data[off + |name|] == 0)
  }

  lemma CStrExact(data: Bytes, off: nat, name: Bytes)
    ensures StringAt(data, off, name) <==> CStrAt(data, off) == Some(name)
  {
    hide ValidUtf8;
    if off <= |data| {
      var rest := data[off..];
      var n := NulAt(rest);
      assert rest[..n] == data[off..off + n];
      if StringAt(data, off, name) {
        assert rest[..|name|] == name;
        NulAtIs(rest, |name|);
      }
    }
  }

  /** Candidates in the order of the positions that give them. */
  predicate InOrderOf(cands: seq<Candidate>, at: seq<nat>) {
    |at| == |cands| && forall j, k :: 0 <= j < k < |at| ==> at[j] < at[k]
  }

  lemma OrderGrows(c: Candidate, rest: seq<Candidate>, i: nat, at: seq<nat>)
    requires InOrderOf(rest, at) && forall j :: 0 <= j < |at| ==> i < at[j]
    ensures InOrderOf([c] + rest, [i] + at)
  {
  }

  // ----- symbols -----

  /** The names preferred at an address. */
  lemma StrongNames(name: Bytes)
    ensures Strong(name) <==> (|name| >= 1 && Spells(name[..1], "_"))
                              || (|name| >= 2 && (Spells(name[..2], "-[") || Spells(name[..2], "+[")))
  {
  }

  predicate StartsWithLtmp(name: Bytes) {
    |name| >= 4 && Spells(name[..4], "ltmp")
  }

  /** Entry `i` of a symbol table of 16-byte entries defines `c.1` at `c.0`: no stab, not undefined, a lasting name. */
  predicate SymbolAt(syms: Bytes, strings: Bytes, i: nat, c: Candidate) {
    && 16 * i + 16 <= |syms|
    && syms[16 * i + 4] < 0x20 && syms[16 * i + 4] % 0x10 >= 2
    && StringAt(strings, U32At(syms, 16 * i), c.1) && c.1 != [] && !StartsWithLtmp(c.1)
    && c.0 == U64At(syms, 16 * i + 8)
  }

  lemma SurvivorExact(syms: Bytes, strings: Bytes, i: nat, c: Candidate)
    requires (i + 1) * 16 <= |syms|
    ensures Survivor(syms, strings, i) == Some(c) <==> SymbolAt(syms, strings, i, c)
  {
    hide StringAt, CStrAt, U32At, U64At, ValidUtf8;
    CStrExact(strings, U32At(syms, 16 * i), c.1);
    assert LTMP <= c.1 <==> StartsWithLtmp(c.1);
    assert i * NLIST_SIZE == 16 * i;
  }

  /** Candidate `j` is what entry `at[j]` defines. */
  predicate SymbolsFrom(syms: Bytes, strings: Bytes, i: nat, n: nat, cands: seq<Candidate>, at: seq<nat>) {
    |at| == |cands| && forall j :: 0 <= j < |at| ==> i <= at[j] < n && SymbolAt(syms, strings, at[j], cands[j])
  }

  /** Every entry from `i` to `n` that defines a symbol is among them. */
  ghost predicate AllSymbolsIn(syms: Bytes, strings: Bytes, i: nat, n: nat, at: seq<nat>) {
    forall k, c :: i <= k < n && SymbolAt(syms, strings, k, c) ==> k in at
  }

  /** `cands` are the symbols defined by the entries from `i` to `n`, in table order, and `at` says by which. */
  ghost predicate SymbolsListed(syms: Bytes, strings: Bytes, i: nat, n: nat, cands: seq<Candidate>, at: seq<nat>) {
    InOrderOf(cands, at) && SymbolsFrom(syms, strings, i, n, cands, at) && AllSymbolsIn(syms, strings, i, n, at)
  }

  lemma SymbolsFromGrows(syms: Bytes, strings: Bytes, i: nat, n: nat, c: Candidate, rest: seq<Candidate>, at: seq<nat>)
    requires i < n && SymbolsFrom(syms, strings, i + 1, n, rest, at) && SymbolAt(syms, strings, i, c)
    ensures SymbolsFrom(syms, strings, i, n, [c] + rest, [i] + at)
    ensures forall j :: 0 <= j < |at| ==> i < at[j]
  {
    hide SymbolAt;
  }

  lemma AllSymbolsGrow(syms: Bytes, strings: Bytes, i: nat, n: nat, at: seq<nat>)
    requires AllSymbolsIn(syms, strings, i + 1, n, at)
    ensures AllSymbolsIn(syms, strings, i, n, [i] + at)
    ensures (forall c :: !SymbolAt(syms, strings, i, c)) ==> AllSymbolsIn(syms, strings, i, n, at)
  {
    hide SymbolAt;
    forall k, c | i <= k < n && SymbolAt(syms, strings, k, c) ensures k in [i] + at {
      assert k > i ==> k in at;
    }
  }

  lemma SymbolsGrow(syms: Bytes, strings: Bytes, i: nat, n: nat, s: Option<Candidate>, rest: seq<Candidate>, at: seq<nat>)
    requires i < n && SymbolsListed(syms, strings, i + 1, n, rest, at)
    requires forall c :: SymbolAt(syms, strings, i, c) <==> s == Some(c)
    ensures s.Some? ==> SymbolsListed(syms, strings, i, n, [s.value] + rest, [i] + at)
    ensures s.None? ==> SymbolsListed(syms, strings, i, n, rest, at)
  {
    AllSymbolsGrow(syms, strings, i, n, at);
    hide SymbolAt, InOrderOf, AllSymbolsIn;
    if s.Some? {
      SymbolsFromGrows(syms, strings, i, n, s.value, rest, at);
      OrderGrows(s.value, rest, i, at);
    }
  }

  lemma SymbolsStep(syms: Bytes, strings: Bytes, i: nat, n: nat, rest: seq<Candidate>, at: seq<nat>)
    requires i < n && n * 16 <= |syms| && SymbolsListed(syms, strings, i + 1, n, rest, at)
    ensures var s := Survivor(syms, strings, i);
      && (s.Some? ==> SymbolsListed(syms, strings, i, n, [s.value] + rest, [i] + at))
      && (s.None? ==> SymbolsListed(syms, strings, i, n, rest, at))
  {
    hide SymbolAt, Survivor, SymbolsListed;
    forall c ensures SymbolAt(syms, strings, i, c) <==> Survivor(syms, strings, i) == Some(c) {
      SurvivorExact(syms, strings, i, c);
    }
    SymbolsGrow(syms, strings, i, n, Survivor(syms, strings, i), rest, at);
  }

  /** The first pass has the candidate of every entry that defines a symbol, in table order, and no other. */
  lemma {:induction false} SymbolsExact(syms: Bytes, strings: Bytes, i: nat, n: nat) returns (at: seq<nat>)
    requires i <= n && n * 16 <= |syms|
    ensures SymbolsListed(syms, strings, i, n, Survivors(syms, strings, i, n), at)
    decreases n - i
  {
    hide SymbolAt, Survivor;
    at := [];
    if i < n {
      at := SymbolsExact(syms, strings, i + 1, n);
      hide SymbolsListed;
      SymbolsStep(syms, strings, i, n, Survivors(syms, strings, i + 1, n), at);
      if Survivor(syms, strings, i).Some? {
        at := [i] + at;
      } else {
        assert [] + Survivors(syms, strings, i + 1, n) == Survivors(syms, strings, i + 1, n);
      }
    }
  }

  // ----- stubs -----

  /**
   * Stub `i` of a section stands at `i` stub sizes behind its start. It is named by the entry of the indirect
   * table `reserved1` places further on: the index of a symbol, whose name is the first word of its 16 bytes.
   */
  predicate StubAt(t: StubTables, sect: Section, i: nat, c: Candidate)
    requires sect.reserved2 > 0
  {
    var slot := 4 * (sect.reserved1 + i);
    && i < sect.size / sect.reserved2 && slot + 4 <= |t.indirect|
    && var index := U32At(t.indirect, slot);
    && index < 0x8000_0000 && index < t.nsyms && 16 * index + 16 <= |t.syms|
    && StringAt(t.strings, U32At(t.syms, 16 * index), c.1) && c.1 != []
    && c.0 == (sect.addr + i * sect.reserved2) % 0x1_0000_0000_0000_0000
  }

  lemma StubExact(t: StubTables, sect: Section, i: nat, c: Candidate)
    requires GoodTables(t) && sect.reserved2 > 0 && i < sect.size / sect.reserved2
    requires sect.reserved1 + i < t.indirectCount
    ensures Stub(t, sect, i) == Some(c) <==> StubAt(t, sect, i, c)
  {
    hide StringAt, CStrAt, U32At, ValidUtf8;
    var index := U32At(t.indirect, 4 * (sect.reserved1 + i));
    if index < t.nsyms {
      assert 16 * index + 16 <= 16 * t.nsyms == |t.syms|;
      CStrExact(t.strings, U32At(t.syms, 16 * index), c.1);
      assert index * NLIST_SIZE == 16 * index;
    }
    assert (sect.reserved1 + i) * 4 == 4 * (sect.reserved1 + i);
  }

  /** Candidate `j` is what stub `at[j]` is called, and where. */
  predicate StubsFromHere(t: StubTables, sect: Section, i: nat, cands: seq<Candidate>, at: seq<nat>)
    requires sect.reserved2 > 0
  {
    |at| == |cands| && forall j :: 0 <= j < |at| ==> i <= at[j] && StubAt(t, sect, at[j], cands[j])
  }

  /** Every named stub from `i` on is among them. */
  ghost predicate AllStubsIn(t: StubTables, sect: Section, i: nat, at: seq<nat>)
    requires sect.reserved2 > 0
  {
    forall k, c :: i <= k && StubAt(t, sect, k, c) ==> k in at
  }

  /** `cands` are the named stubs from `i` on, in order, and `at` says which. */
  ghost predicate StubsListed(t: StubTables, sect: Section, i: nat, cands: seq<Candidate>, at: seq<nat>)
    requires sect.reserved2 > 0
  {
    InOrderOf(cands, at) && StubsFromHere(t, sect, i, cands, at) && AllStubsIn(t, sect, i, at)
  }

  lemma StubsFromGrows(t: StubTables, sect: Section, i: nat, c: Candidate, rest: seq<Candidate>, at: seq<nat>)
    requires sect.reserved2 > 0 && StubsFromHere(t, sect, i + 1, rest, at) && StubAt(t, sect, i, c)
    ensures StubsFromHere(t, sect, i, [c] + rest, [i] + at)
    ensures forall j :: 0 <= j < |at| ==> i < at[j]
  {
    hide StubAt;
  }

  lemma AllStubsGrow(t: StubTables, sect: Section, i: nat, at: seq<nat>)
    requires sect.reserved2 > 0 && AllStubsIn(t, sect, i + 1, at)
    ensures AllStubsIn(t, sect, i, [i] + at)
    ensures (forall c :: !StubAt(t, sect, i, c)) ==> AllStubsIn(t, sect, i, at)
  {
    hide StubAt;
    forall k, c | i <= k && StubAt(t, sect, k, c) ensures k in [i] + at {
      assert k > i ==> k in at;
    }
  }

  lemma StubsGrow(t: StubTables, sect: Section, i: nat, s: Option<Candidate>, rest: seq<Candidate>, at: seq<nat>)
    requires sect.reserved2 > 0 && StubsListed(t, sect, i + 1, rest, at)
    requires forall c :: StubAt(t, sect, i, c) <==> s == Some(c)
    ensures s.Some? ==> StubsListed(t, sect, i, [s.value] + rest, [i] + at)
    ensures s.None? ==> StubsListed(t, sect, i, rest, at)
  {
    AllStubsGrow(t, sect, i, at);
    hide StubAt, InOrderOf, AllStubsIn;
    if s.Some? {
      StubsFromGrows(t, sect, i, s.value, rest, at);
      OrderGrows(s.value, rest, i, at);
    }
  }

  lemma StubsStep(t: StubTables, sect: Section, i: nat, rest: seq<Candidate>, at: seq<nat>)
    requires GoodTables(t) && sect.reserved2 > 0 && i < sect.size / sect.reserved2
    requires sect.reserved1 + i < t.indirectCount && StubsListed(t, sect, i + 1, rest, at)
    ensures var s := Stub(t, sect, i);
      && (s.Some? ==> StubsListed(t, sect, i, [s.value] + rest, [i] + at))
      && (s.None? ==> StubsListed(t, sect, i, rest, at))
  {
    hide StubAt, Stub, StubsListed;
    forall c ensures StubAt(t, sect, i, c) <==> Stub(t, sect, i) == Some(c) {
      StubExact(t, sect, i, c);
    }
    StubsGrow(t, sect, i, Stub(t, sect, i), rest, at);
  }

  lemma StubsOver(t: StubTables, sect: Section, i: nat)
    requires GoodTables(t) && sect.reserved2 > 0
    requires i >= sect.size / sect.reserved2 || sect.reserved1 + i >= t.indirectCount
    ensures StubsListed(t, sect, i, [], [])
  {
    hide StringAt;
  }

  lemma {:induction false} StubsFrom(t: StubTables, sect: Section, i: nat, count: nat) returns (at: seq<nat>)
    requires GoodTables(t) && sect.reserved2 > 0 && count == sect.size / sect.reserved2
    ensures StubsListed(t, sect, i, Stubs(t, sect, i, count), at)
    decreases count - i
  {
    hide StubAt, Stub, StubsListed;
    at := [];
    if i < count && sect.reserved1 + i < t.indirectCount {
      at := StubsFrom(t, sect, i + 1, count);
      StubsStep(t, sect, i, Stubs(t, sect, i + 1, count), at);
      if Stub(t, sect, i).Some? {
        at := [i] + at;
      } else {
        assert [] + Stubs(t, sect, i + 1, count) == Stubs(t, sect, i + 1, count);
      }
    } else {
      StubsOver(t, sect, i);
    }
  }

  /** The section holds stubs: type 8 in the low byte of its flags, and stubs of some size. */
  predicate HoldsStubs(sect: Section) {
    sect.flags % 0x100 == 8 && sect.reserved2 != 0
  }

  /** The candidates of a section are its named stubs, each at its own address, in the order of the stubs. */
  lemma StubsExact(t: StubTables, sect: Section) returns (at: seq<nat>)
    requires GoodTables(t)
    ensures !HoldsStubs(sect) ==> SectionStubs(t, sect) == []
    ensures HoldsStubs(sect) ==> StubsListed(t, sect, 0, SectionStubs(t, sect), at)
  {
    hide StubsListed;
    at := [];
    if HoldsStubs(sect) {
      at := StubsFrom(t, sect, 0, sect.size / sect.reserved2);
    }
  }

  /** An entry that gives a candidate gives one candidate. */
  lemma OneCandidate(t: StubTables, sect: Section, k: nat, c: Candidate, d: Candidate)
    requires GoodTables(t) && sect.reserved2 > 0 && StubAt(t, sect, k, c) && StubAt(t, sect, k, d)
    ensures c == d
  {
    hide Stub;
    StubExact(t, sect, k, c);
    StubExact(t, sect, k, d);
  }

  ghost predicate IsStub(t: StubTables, sect: Section, c: Candidate) {
    HoldsStubs(sect) && exists i :: StubAt(t, sect, i, c)
  }

  /** A name is a candidate for an address exactly when a stub of the section stands there under that name. */
  lemma StubMembership(t: StubTables, sect: Section, c: Candidate)
    requires GoodTables(t)
    ensures c in SectionStubs(t, sect) <==> IsStub(t, sect, c)
  {
    var at := StubsExact(t, sect);
    hide StubAt, SectionStubs;
    if HoldsStubs(sect) {
      if k :| StubAt(t, sect, k, c) {
        var j :| 0 <= j < |at| && at[j] == k;
        OneCandidate(t, sect, k, c, SectionStubs(t, sect)[j]);
      }
    }
  }

  /** The sections of an image are searched in order; one that cannot be read is the error of the whole pass. */
  lemma {:induction false} AllStubsExact(t: StubTables, items: seq<SectionItem>, c: Candidate)
    requires GoodTables(t)
    ensures AllStubs(t, items).Ok? <==> forall k :: 0 <= k < |items| ==> items[k].Ok?
    ensures AllStubs(t, items).Ok? ==>
      (c in AllStubs(t, items).value <==> exists k :: 0 <= k < |items| && IsStub(t, items[k].value.0, c))
  {
    hide IsStub, SectionStubs;
    if items != [] {
      AllStubsExact(t, items[1..], c);
      assert forall k :: 0 < k < |items| ==> items[k] == items[1..][k - 1];
      assert forall k :: 0 <= k < |items| - 1 ==> items[1..][k] == items[k + 1];
      if items[0].Ok? {
        StubMembership(t, items[0].value.0, c);
      }
    }
  }

  lemma AllStubsStep(t: StubTables, items: seq<SectionItem>)
    requires GoodTables(t) && items != [] && items[0].Ok? && AllStubs(t, items[1..]).Ok?
    ensures AllStubs(t, items) == Ok(SectionStubs(t, items[0].value.0) + AllStubs(t, items[1..]).value)
  {
    hide SectionStubs;
  }

  /** The candidates of later sections stand behind those of earlier ones. */
  lemma {:induction false} StubsInSectionOrder(t: StubTables, a: seq<SectionItem>, b: seq<SectionItem>)
    requires GoodTables(t) && AllStubs(t, a).Ok? && AllStubs(t, b).Ok?
    ensures AllStubs(t, a + b) == Ok(AllStubs(t, a).value + AllStubs(t, b).value)
  {
    hide SectionStubs;
    if a == [] {
      assert a + b == b && [] + AllStubs(t, b).value == AllStubs(t, b).value;
    } else {
      assert (a + b)[0] == a[0] && (a + b)[1..] == a[1..] + b;
      StubsInSectionOrder(t, a[1..], b);
      AllStubsStep(t, a);
      AllStubsStep(t, a + b);
      assert forall x, y, z: seq<Candidate> :: x + (y + z) == (x + y) + z;
    }
  }

  /**
   * The second pass over an image: the error of looking up the dynamic symbol table; nothing without one, or with an
   * indirect table that leaves the file; else the error of the first unreadable section; else the stubs named through
   * the 4-byte words there.
   */
  lemma StubPassExact(file: MachoFile, syms: Bytes, nsyms: nat, strings: Bytes, c: Candidate)
    requires |syms| == 16 * nsyms
    ensures var r, dysymtab := StubCandidates(file, syms, nsyms, strings), DysymtabOf(file);
      if dysymtab.Err? then r == Err(dysymtab.error)
      else if dysymtab.value.None? then r == Ok([])
      else
        var off, n := dysymtab.value.value.indirectsymoff, dysymtab.value.value.nindirectsyms;
        if off + 4 * n > |file.data| then r == Ok([])
        else if Sections(file).Err? then r == Err(Sections(file).error)
        else
          var t, items := StubTables(file.data[off..off + 4 * n], n, syms, nsyms, strings), Sections(file).value;
          && (r.Ok? <==> forall k :: 0 <= k < |items| ==> items[k].Ok?)
          && (r.Ok? ==> (c in r.value <==> exists k :: 0 <= k < |items| && IsStub(t, items[k].value.0, c)))
  {
    hide AllStubs, IsStub, Sections, DysymtabOf;
    var dysymtab := DysymtabOf(file);
    if dysymtab.Ok? && dysymtab.value.Some? {
      var off, n := dysymtab.value.value.indirectsymoff, dysymtab.value.value.nindirectsyms;
      if off + 4 * n <= |file.data| && Sections(file).Ok? {
        var t := StubTables(file.data[off..off + 4 * n], n, syms, nsyms, strings);
        AllStubsExact(t, Sections(file).value, c);
        assert off + n * 4 == off + 4 * n;
      }
    }
  }

  // ----- strings -----

  lemma NamesSpelled()
    ensures Spells(CSTRING, "__cstring") && Spells(METHNAME, "__objc_methname") && Spells(CLASSNAME, "__objc_classname")
    ensures Spells(METHTYPE, "__objc_methtype") && Spells(CFSTRING, "__cfstring")
    ensures Spells(SEG_TEXT, "__TEXT") && Spells(SEG_DATA, "__DATA")
  {
  }

  /** The sections searched for strings, in order. */
  lemma StringSectionNames()
    ensures var s := StringSections();
      && |s| == 5
      && Spells(s[0].0, "__cstring") && Spells(s[0].1, "__TEXT")
      && Spells(s[1].0, "__objc_methname") && Spells(s[1].1, "__TEXT")
      && Spells(s[2].0, "__objc_classname") && Spells(s[2].1, "__TEXT")
      && Spells(s[3].0, "__objc_methtype") && Spells(s[3].1, "__TEXT")
      && Spells(s[4].0, "__cfstring") && Spells(s[4].1, "__DATA")
  {
    NamesSpelled();
    hide Spells;
  }

  /** `c` is a run of the bytes the section occupies in the file, at its own address. */
  ghost predicate IsStringOf(file: MachoFile, sect: Section, c: Candidate) {
    && sect.offset + sect.size <= |file.data|
    && NamesRunFrom(sect.addr, file.data[sect.offset..sect.offset + sect.size], 0, c)
  }

  lemma StringsOfSection(file: MachoFile, sect: Section, c: Candidate)
    ensures c in RunsOf(file, Some(sect)) <==> IsStringOf(file, sect, c)
  {
    hide NamesRunFrom, Runs;
    if sect.offset + sect.size <= |file.data| {
      RunsExact(sect.addr, file.data[sect.offset..sect.offset + sect.size], 0, c);
    }
  }

  ghost predicate IsStringUnder(file: MachoFile, seg: Bytes, sect: Bytes, c: Candidate) {
    var f := Found(file, seg, sect);
    f.Ok? && f.value.Some? && IsStringOf(file, f.value.value, c)
  }

  /** The strings of the third pass: the runs of each listed section that is found and lies inside the file. */
  lemma {:induction false} StringsExact(file: MachoFile, names: seq<(Bytes, Bytes)>, c: Candidate)
    ensures StringCandidates(file, names).Ok? <==>
      forall k :: 0 <= k < |names| ==> Found(file, names[k].1, names[k].0).Ok?
    ensures StringCandidates(file, names).Ok? ==>
      (c in StringCandidates(file, names).value <==>
       exists k :: 0 <= k < |names| && IsStringUnder(file, names[k].1, names[k].0, c))
  {
    hide Found, RunsOf, IsStringOf, ValidUtf8;
    if names != [] {
      var rest := names[1..];
      StringsExact(file, rest, c);
      assert forall k :: 0 < k < |names| ==> names[k] == rest[k - 1];
      assert forall k :: 0 <= k < |rest| ==> rest[k] == names[k + 1];
      var f := Found(file, names[0].1, names[0].0);
      if f.Ok? {
        NoneFound(file);
        if f.value.Some? {
          StringsOfSection(file, f.value.value, c);
        }
      }
    }
  }

  lemma NoneFound(file: MachoFile)
    ensures RunsOf(file, None) == []
  {
  }

  /** The strings of later sections stand behind those of earlier ones. */
  lemma {:induction false} StringsInListOrder(file: MachoFile, a: seq<(Bytes, Bytes)>, b: seq<(Bytes, Bytes)>)
    requires StringCandidates(file, a).Ok? && StringCandidates(file, b).Ok?
    ensures StringCandidates(file, a + b) == Ok(StringCandidates(file, a).value + StringCandidates(file, b).value)
  {
    hide Found, RunsOf, ValidUtf8;
    if a == [] {
      assert a + b == b && [] + StringCandidates(file, b).value == StringCandidates(file, b).value;
    } else {
      assert (a + b)[0] == a[0] && (a + b)[1..] == a[1..] + b;
      StringsInListOrder(file, a[1..], b);
      var x := RunsOf(file, Found(file, a[0].1, a[0].0).value);
      var y, z := StringCandidates(file, a[1..]).value, StringCandidates(file, b).value;
      assert x + (y + z) == (x + y) + z;
    }
  }

  // ----- the three passes -----

  /** The symbol and string tables must lie in the file, the symbol table first; without them there are only strings. */
  lemma TablesInFile(file: MachoFile)
    ensures var r := PassesOf(file);
      match SymtabOf(file)
      case Err(e) => r == Err(e)
      case Ok(None) => r.Ok? ==> r.value.symbols == [] && r.value.stubs == []
      case Ok(Some(st)) =>
        && (st.symoff + 16 * st.nsyms > |file.data| ==> r == Err(Truncated("symtab")))
        && (st.symoff + 16 * st.nsyms <= |file.data| && st.stroff + st.strsize > |file.data| ==>
             r == Err(Truncated("strtab")))
  {
    hide SymtabOf, StubCandidates, Survivors, StringCandidates, StringSections, ValidUtf8;
  }

  predicate IsFirst(cands: seq<Candidate>, i: nat, addr: u64) {
    i < |cands| && cands[i].0 == addr && forall j :: 0 <= j < i ==> cands[j].0 != addr
  }

  predicate IsFirstStrong(cands: seq<Candidate>, i: nat, addr: u64) {
    i < |cands| && StrongAt(cands[i], addr) && forall j :: 0 <= j < i ==> !StrongAt(cands[j], addr)
  }

  predicate Empty(cands: seq<Candidate>, addr: u64) {
    forall j :: 0 <= j < |cands| ==> cands[j].0 != addr
  }

  /** The passes in their order: a strong symbol, any symbol, a stub, a string, and of each kind the first. */
  lemma PassesInOrder(p: Passes, addr: u64, i: nat)
    ensures IsFirstStrong(p.symbols, i, addr) ==> NameOf(p, addr) == Some(p.symbols[i].1)
    ensures IsFirst(p.symbols, i, addr) && (forall j :: 0 <= j < |p.symbols| ==> !StrongAt(p.symbols[j], addr)) ==>
      NameOf(p, addr) == Some(p.symbols[i].1)
    ensures IsFirst(p.stubs, i, addr) && Empty(p.symbols, addr) ==> NameOf(p, addr) == Some(p.stubs[i].1)
    ensures IsFirst(p.strings, i, addr) && Empty(p.symbols, addr) && Empty(p.stubs, addr) ==>
      NameOf(p, addr) == Some(p.strings[i].1)
    ensures NameOf(p, addr).None? <==> Empty(p.symbols, addr) && Empty(p.stubs, addr) && Empty(p.strings, addr)
  {
    hide Strong, First, FirstStrong;
    FirstIs(p.symbols, addr, i);
    FirstIs(p.stubs, addr, i);
    FirstIs(p.strings, addr, i);
  }

  lemma FirstIs(cands: seq<Candidate>, addr: u64, i: nat)
    ensures IsFirst(cands, i, addr) ==> First(cands, addr) == Some(cands[i].1)
    ensures IsFirstStrong(cands, i, addr) ==> FirstStrong(cands, addr) == Some(cands[i].1)
    ensures First(cands, addr).None? <==> Empty(cands, addr)
    ensures FirstStrong(cands, addr).None? <==> forall j :: 0 <= j < |cands| ==> !StrongAt(cands[j], addr)
    ensures First(cands, addr).None? ==> FirstStrong(cands, addr).None?
  {
    FirstIsFirst(cands, addr, i);
    FirstIsStrong(cands, addr, i);
    NoneStrong(cands, addr);
    hide First, FirstStrong, IsFirst, IsFirstStrong, StrongAt;
  }

  lemma FirstIsFirst(cands: seq<Candidate>, addr: u64, i: nat)
    ensures IsFirst(cands, i, addr) ==> First(cands, addr) == Some(cands[i].1)
    ensures First(cands, addr).None? <==> Empty(cands, addr)
  {
    hide Strong;
  }

  lemma FirstIsStrong(cands: seq<Candidate>, addr: u64, i: nat)
    ensures IsFirstStrong(cands, i, addr) ==> FirstStrong(cands, addr) == Some(cands[i].1)
    ensures FirstStrong(cands, addr).None? <==> forall j :: 0 <= j < |cands| ==> !StrongAt(cands[j], addr)
  {
    hide Strong;
  }

  lemma NoneStrong(cands: seq<Candidate>, addr: u64)
    ensures Empty(cands, addr) ==> forall j :: 0 <= j < |cands| ==> !StrongAt(cands[j], addr)
  {
    hide Strong;
  }
}
