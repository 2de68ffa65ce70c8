/** zip_write.rs `write_stored_zip`: local parts, then a central directory pointing back at them. */
module ZipWrite {
  import opened Words
  import opened Text
  import opened ZipFormat

  /** What the writer returns for every input. */
  function WriteResult(files: seq<File>): Result<Bytes, Error> {
    if |files| > 0xffff then Err(InvalidZip("too many entries"))
    else if !AllFit(files) then Err(InvalidZip("entry too large"))
    else Ok(StoredZip(files))
  }

  lemma {:induction false} LocalsConcat(a: seq<File>, b: seq<File>)
    requires AllFit(a + b)
    ensures AllFit(a) && AllFit(b) && Locals(a + b) == Locals(a) + Locals(b)
  {
    hide Local, Fits;
    FitParts(a, b);
    if a == [] {
      assert a + b == b;
    } else {
      assert (a + b)[1..] == a[1..] + b;
      LocalsConcat(a[1..], b);
    }
  }

  lemma FitsMeans(f: File)
    ensures Fits(f) <==> |f.name| <= 0xffff && |f.data| <= 0xffff_ffff
  {
  }

  lemma FitParts(a: seq<File>, b: seq<File>)
    requires AllFit(a + b)
    ensures AllFit(a) && AllFit(b)
  {
    hide Fits;
    assert forall f :: f in a ==> f in a + b;
    assert forall f :: f in b ==> f in a + b;
  }

  lemma Reassociate(a: Bytes, b: Bytes, c: Bytes, d: Bytes)
    ensures a + (b + (c + d)) == (a + (b + c)) + d
  {
  }

  lemma CentralsStep(files: seq<File>, at: nat)
    requires AllFit(files) && files != []
    ensures AllFit(files[1..])
    ensures Centrals(files, at)
         == CentralHeader(files[0], at % TWO_32) + (files[0].name + Centrals(files[1..], at + |Local(files[0])|))
  {
    hide Local, CentralHeader, Fits;
  }

  lemma {:induction false} CentralsConcat(a: seq<File>, b: seq<File>, at: nat)
    requires AllFit(a + b)
    ensures AllFit(a) && AllFit(b)
    ensures Centrals(a + b, at) == Centrals(a, at) + Centrals(b, at + |Locals(a)|)
    decreases |a|
  {
    hide Local, CentralHeader, Fits, Centrals, ValidUtf8;
    FitParts(a, b);
    if a == [] {
      assert a + b == b;
      NoCentrals(at);
    } else {
      var next := at + |Local(a[0])|;
      assert (a + b)[0] == a[0] && (a + b)[1..] == a[1..] + b;
      CentralsStep(a + b, at);
      CentralsStep(a, at);
      CentralsConcat(a[1..], b, next);
      Reassociate(CentralHeader(a[0], at % TWO_32), a[0].name, Centrals(a[1..], next), Centrals(b, at + |Locals(a)|));
    }
  }

  lemma NoCentrals(at: nat)
    ensures Centrals([], at) == [] && Locals([]) == []
  {
  }

  lemma OneMore(files: seq<File>, i: nat)
    requires i < |files| && AllFit(files[..i]) && Fits(files[i])
    ensures files[..i + 1] == files[..i] + [files[i]] && AllFit(files[..i + 1])
    ensures Locals(files[..i + 1]) == Locals(files[..i]) + Local(files[i])
    ensures Centrals(files[..i + 1], 0)
         == Centrals(files[..i], 0) + (CentralHeader(files[i], |Locals(files[..i])| % TWO_32) + files[i].name)
  {
    hide Local, CentralHeader, Fits;
    var a, b := files[..i], [files[i]];
    assert files[..i + 1] == a + b;
    assert b[1..] == [];
    LocalsConcat(a, b);
    CentralsConcat(a, b, 0);
    assert Locals(b) == Local(files[i]) + [];
    assert Centrals([], |Locals(a)| + |Local(files[i])|) == [];
    assert files[i].name + [] == files[i].name;
  }

  method WriteLocal(out: Bytes, f: File) returns (grown: Bytes)
    requires Fits(f)
    ensures grown == out + Local(f)
  {
    hide Le16, Le32, CrcOf;
    grown := out;
    grown := grown + Le32(LFH_SIG);
    ghost var middle := grown;
    grown := grown + Le16(20);
    grown := grown + Le16(0);
    grown := grown + Le16(0);
    grown := grown + Le16(0);
    grown := grown + Le16(0);
    grown := grown + Le32(CrcOf(f.data));
    grown := grown + Le32(|f.data|);
    grown := grown + Le32(|f.data|);
    assert grown == middle + LocalMiddle(f);
    hide LocalMiddle;
    grown := grown + Le16(|f.name|);
    grown := grown + Le16(0);
    assert grown == out + LocalHeader(f);
    hide LocalHeader;
    grown := grown + f.name;
    grown := grown + f.data;
  }

  method WriteCentral(out: Bytes, f: File, offset: u32) returns (grown: Bytes)
    requires Fits(f)
    ensures grown == out + (CentralHeader(f, offset) + f.name)
  {
    hide Le16, Le32, CrcOf;
    ghost var versions := Le16(20) + Le16(20) + Le16(0);
    ghost var stamp := Le16(0) + Le16(0) + Le32(CrcOf(f.data));
    ghost var attributes := Le16(0) + Le16(0) + Le32(0);
    grown := out;
    grown := grown + Le32(CDFH_SIG);
    grown := grown + Le16(20);
    grown := grown + Le16(20);
    grown := grown + Le16(0);
    assert grown == out + Le32(CDFH_SIG) + versions;
    grown := grown + Le16(0);
    ghost var front := grown;
    grown := grown + Le16(0);
    grown := grown + Le16(0);
    grown := grown + Le32(CrcOf(f.data));
    assert grown == front + stamp;
    ghost var stamped := grown;
    grown := grown + Le32(|f.data|);
    grown := grown + Le32(|f.data|);
    grown := grown + Le16(|f.name|);
    grown := grown + Le16(0);
    grown := grown + Le16(0);
    assert grown == stamped + CentralSizes(f);
    hide CentralSizes;
    ghost var sized := grown;
    grown := grown + Le16(0);
    grown := grown + Le16(0);
    grown := grown + Le32(0);
    assert grown == sized + attributes;
    grown := grown + Le32(offset);
    assert grown == out + CentralHeader(f, offset);
    hide CentralHeader;
    grown := grown + f.name;
  }

  method WriteEnd(out: Bytes, count: u16, size: u32, start: u32) returns (grown: Bytes)
    ensures grown == out + EndRecord(count, size, start)
  {
    hide Le16, Le32;
    grown := out;
    grown := grown + Le32(EOCD_SIG);
    grown := grown + Le16(0);
    grown := grown + Le16(0);
    grown := grown + Le16(count);
    ghost var disks := Le16(0) + Le16(0) + Le16(count);
    assert grown == out + Le32(EOCD_SIG) + disks;
    grown := grown + Le16(count);
    grown := grown + Le32(size);
    grown := grown + Le32(start);
    grown := grown + Le16(0);
    ghost var tail := disks + (Le16(count) + (Le32(size) + (Le32(start) + Le16(0))));
    assert grown == out + (Le32(EOCD_SIG) + tail);
  }

  /** Each offset is where its file's local part starts, modulo 2^32. */
  predicate OffsetsOf(files: seq<File>, offsets: seq<u32>) {
    |offsets| == |files|
    && forall k :: 0 <= k < |files| ==> AllFit(files[..k]) && offsets[k] == |Locals(files[..k])| % TWO_32
  }

  lemma OffsetAdded(files: seq<File>, i: nat, offsets: seq<u32>)
    requires i < |files| && AllFit(files[..i]) && OffsetsOf(files[..i], offsets)
    ensures OffsetsOf(files[..i + 1], offsets + [|Locals(files[..i])| % TWO_32])
  {
    hide Locals, AllFit;
    var before, after, grown := files[..i], files[..i + 1], offsets + [|Locals(files[..i])| % TWO_32];
    forall k | 0 <= k < |after| ensures AllFit(after[..k]) && grown[k] == |Locals(after[..k])| % TWO_32 {
      if k < i {
        assert after[..k] == before[..k];
      } else {
        assert after[..k] == before;
      }
    }
  }

  lemma OneTooLarge(files: seq<File>, i: nat)
    requires i < |files| && !Fits(files[i])
    ensures !AllFit(files)
  {
    assert files[i] in files;
  }

  /** The first loop: the local parts, and the offset of each. */
  method WriteLocals(files: seq<File>) returns (r: Result<(Bytes, seq<u32>), Error>)
    ensures r.Err? ==> !AllFit(files) && r == Err(InvalidZip("entry too large"))
    ensures r.Ok? ==> AllFit(files) && r.value.0 == Locals(files) && OffsetsOf(files, r.value.1)
  {
    hide Local, Locals, Fits, AllFit, OffsetsOf, ValidUtf8;
    var out: Bytes, offsets: seq<u32> := [], [];
    NothingYet(files);
    for i := 0 to |files|
      invariant AllFit(files[..i]) && out == Locals(files[..i]) && OffsetsOf(files[..i], offsets)
    {
      var f := files[i];
      FitsMeans(f);
      if |f.name| > 0xffff || |f.data| > 0xffff_ffff {
        OneTooLarge(files, i);
        return Err(InvalidZip("entry too large"));
      }
      OffsetAdded(files, i, offsets);
      offsets := offsets + [|out| % TWO_32];
      OneMore(files, i);
      out := WriteLocal(out, f);
    }
    assert files[..|files|] == files;
    assert AllFit(files) && out == Locals(files) && OffsetsOf(files, offsets);
    r := Ok((out, offsets));
  }

  lemma NothingYet(files: seq<File>)
    ensures AllFit(files[..0]) && Locals(files[..0]) == [] && OffsetsOf(files[..0], [])
  {
  }

  /** The second loop: the central headers, each with its recorded offset. */
  method WriteCentrals(locals: Bytes, files: seq<File>, offsets: seq<u32>) returns (out: Bytes)
    requires AllFit(files) && OffsetsOf(files, offsets)
    ensures out == locals + Centrals(files, 0)
  {
    hide Local, Locals, Centrals, CentralHeader, Fits, ValidUtf8;
    out := locals;
    NoCentrals(0);
    assert files[..0] == [] && locals + [] == locals;
    for i := 0 to |files|
      invariant AllFit(files[..i]) && out == locals + Centrals(files[..i], 0)
    {
      assert files[i] in files;
      OneMore(files, i);
      out := WriteCentral(out, files[i], offsets[i]);
    }
    assert files[..|files|] == files;
  }

  method WriteStoredZip(files: seq<File>) returns (r: Result<Bytes, Error>)
    ensures r == WriteResult(files)
  {
    hide Locals, Centrals, EndRecord, AllFit, OffsetsOf;
    if |files| > 0xffff {
      return Err(InvalidZip("too many entries"));
    }
    var locals := WriteLocals(files);
    if locals.Err? {
      return Err(locals.error);
    }
    var out := WriteCentrals(locals.value.0, files, locals.value.1);
    var cdStart := |locals.value.0| % TWO_32;
    var cdSize := SaturatingSub(|out| % TWO_32, cdStart);
    out := WriteEnd(out, |files|, cdSize, cdStart);
    assert out == Locals(files) + (Centrals(files, 0) + EndRecord(|files|, cdSize, cdStart));
    r := Ok(out);
  }
}
