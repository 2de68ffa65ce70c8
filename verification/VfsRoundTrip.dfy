/** Editing an IPA, packing it, and opening the result again. */
module VfsRoundTrip {
  import opened Words
  import opened Text
  import opened ByteOrder
  import opened ZipFormat
  import opened ZipWrite
  import opened ZipRead
  import opened ZipRoundTrip
  import opened Vfs

  /** The map without the keys that look like directories. */
  function Kept(m: Files): Files {
    map k | k in m && !IsDirectory(k) :: m[k]
  }

  /** Small enough for the format: counts, lengths, and all local offsets. */
  predicate Packs(m: Files) {
    |m| <= 0xffff && AllFit(FilesOf(m)) && |Locals(FilesOf(m))| < TWO_32
  }

  /** Inserting files in order, directories skipped. */
  function Inserted(files: seq<File>, m: Files): Files
    decreases |files|
  {
    if files == [] then m
    else Inserted(files[1..], if IsDirectory(files[0].name) then m else m[files[0].name := files[0].data])
  }

  lemma {:induction false} CollectsInserted(zip: ZipArchive, files: seq<File>, at: nat, inflate: Inflater, m: Files)
    requires AllFit(files) && at + |Locals(files)| < TWO_32
    requires At(zip.data, at, Locals(files))
    ensures Collect(zip, EntriesFor(files, at), inflate, m) == Ok(Inserted(files, m))
    decreases |files|
  {
    hide Local, Fits, Read, IsDirectory;
    if files != [] {
      var f, next := files[0], at + |Local(files[0])|;
      AtSplits(zip.data, at, Local(f), Locals(files[1..]));
      LocalRoundTrip(zip, f, at, inflate);
      assert EntriesFor(files, at)[1..] == EntriesFor(files[1..], next);
      CollectsInserted(zip, files[1..], next, inflate, if IsDirectory(f.name) then m else m[f.name := f.data]);
    }
  }

  lemma {:induction false} InsertedListing(m: Files, keys: seq<Str>, m0: Files, x: Str)
    requires forall k :: k in keys ==> k in m
    ensures Lookup(Inserted(Listing(m, keys), m0), x)
         == if x in keys && !IsDirectory(x) then Some(m[x]) else Lookup(m0, x)
    decreases |keys|
  {
    hide IsDirectory;
    if keys != [] {
      var k := keys[0];
      assert Listing(m, keys)[1..] == Listing(m, keys[1..]);
      InsertedListing(m, keys[1..], if IsDirectory(k) then m0 else m0[k := m[k]], x);
      assert x in keys <==> x == k || x in keys[1..];
    }
  }

  lemma SameLookups(a: Files, b: Files)
    requires forall x :: Lookup(a, x) == Lookup(b, x)
    ensures a == b
  {
    assert forall x :: x in a ==> Lookup(a, x) == Some(a[x]);
    assert forall x :: x in b ==> Lookup(b, x) == Some(b[x]);
    assert forall x :: x in a <==> x in b;
    assert a.Keys == b.Keys;
  }

  lemma ReopensToKept(m: Files)
    ensures Inserted(FilesOf(m), map[]) == Kept(m)
  {
    hide IsDirectory, Inserted, SortedKeys, ValidUtf8;
    var r := Inserted(FilesOf(m), map[]);
    forall x ensures Lookup(r, x) == Lookup(Kept(m), x) {
      InsertedListing(m, KeysOf(m), map[], x);
    }
    hide Kept, FilesOf, Lookup;
    SameLookups(r, Kept(m));
  }

  /** Whether some file of the map lies inside an app directory. */
  ghost predicate HasApp(m: Files) {
    exists k, app :: k in m && !IsDirectory(k) && LiesUnder(k, app)
  }

  /** The first file of the map, in byte order, that lies inside an app directory. */
  ghost predicate IsFirstInApp(m: Files, k: Str) {
    k in m && !IsDirectory(k) && IsAppPath(k) && forall j :: j in m && !IsDirectory(j) && IsAppPath(j) ==> Leq(k, j)
  }

  /** `prefix` is the app directory of that file. */
  ghost predicate IsAppPrefix(m: Files, prefix: Bytes) {
    exists k: Str, app: Bytes :: IsFirstInApp(m, k) && LiesUnder(k, app) && prefix == PAYLOAD + app + [SLASH]
  }

  lemma FirstAppOfKept(m: Files)
    ensures var r := FirstApp(SortedKeys(Kept(m).Keys));
      if HasApp(m) then r.Ok? && IsAppPrefix(m, r.value) else r == Err(MissingPayloadApp)
  {
    hide AppOf, LiesUnder, IsDirectory, Leq, FirstApp, IsAppPrefix;
    var keys := SortedKeys(Kept(m).Keys);
    if FirstApp(keys).Ok? {
      var i :| 0 <= i < |keys| && IsAppPath(keys[i]) && FirstApp(keys) == Ok(AppOf(keys[i]).value)
            && forall j :: 0 <= j < i ==> !IsAppPath(keys[j]);
      assert keys[i] in keys && keys[i] in Kept(m);
      FirstKeyIsFirst(m, keys, i);
    }
    if HasApp(m) {
      var k, app :| k in m && !IsDirectory(k) && LiesUnder(k, app);
      AppOfExact(k, app);
      assert k in keys;
    }
  }

  lemma FirstKeyIsFirst(m: Files, keys: seq<Bytes>, i: nat)
    requires Ascending(keys) && i < |keys| && IsAppPath(keys[i]) && keys[i] in m && !IsDirectory(keys[i])
    requires forall j :: 0 <= j < i ==> !IsAppPath(keys[j])
    requires forall k :: k in m && !IsDirectory(k) ==> k in keys
    ensures IsAppPrefix(m, AppOf(keys[i]).value) && HasApp(m)
  {
    hide AppOf, LiesUnder, IsDirectory, Leq;
    var k := keys[i];
    LeqItself(k);
    forall j | j in m && !IsDirectory(j) && IsAppPath(j) ensures Leq(k, j) {
      assert j in keys;
    }
    AppOfExact(k, []);
    var app :| LiesUnder(k, app);
    AppOfExact(k, app);
    assert IsFirstInApp(m, k);
  }

  lemma LeqItself(k: Bytes)
    ensures Leq(k, k)
  {
    LeqTotal(k, k);
  }

  /**
   * Packing a map and opening the archive gives the map back without its directory keys, and as prefix the
   * app directory of its first file inside one. It fails exactly when no remaining key lies in an app
   * directory, and then with `MissingPayloadApp`.
   */
  lemma PackThenOpen(m: Files, inflate: Inflater)
    requires Packs(m)
    ensures WriteResult(FilesOf(m)).Ok?
    ensures var r := OpenVfs(WriteResult(FilesOf(m)).value, inflate);
      if HasApp(m) then
        r.Ok? && r.value.files == Kept(m) && IsAppPrefix(m, r.value.appPrefix)
      else r == Err(MissingPayloadApp)
  {
    hide Kept, Collect, Locals, StoredZip, FirstApp, SortedKeys, FilesOf, HasApp, OpenResult, AllFit, IsAppPrefix, ValidUtf8;
    var files := FilesOf(m);
    ArchiveOpens(files);
    PartsStand(files);
    var zip := ZipArchive(StoredZip(files), EntriesFor(files, 0));
    CollectsInserted(zip, files, 0, inflate, map[]);
    ReopensToKept(m);
    FirstAppOfKept(m);
  }

  /** Repacking what was reopened gives the same bytes exactly when no key is a directory. */
  lemma RepackIdentical(m: Files)
    requires WriteResult(FilesOf(m)).Ok?
    ensures WriteResult(FilesOf(Kept(m))) == WriteResult(FilesOf(m)) <==> forall k :: k in m ==> !IsDirectory(k)
  {
    hide WriteResult, FilesOf, U16At, IsDirectory, Kept, ValidUtf8;
    KeptSize(m);
    ArchiveCounts(FilesOf(m));
    ArchiveCounts(FilesOf(Kept(m)));
  }

  lemma KeptSize(m: Files)
    ensures if exists k :: k in m && IsDirectory(k) then |Kept(m)| < |m| else Kept(m) == m
  {
    hide IsDirectory, ValidUtf8;
    if k :| k in m && IsDirectory(k) {
      KeptSmaller(m, k);
    }
  }

  /** The end record, the last 22 bytes of an archive, says how many files it holds. */
  lemma ArchiveCounts(files: seq<File>)
    ensures WriteResult(files).Ok? ==>
      var zip := WriteResult(files).value; |zip| >= 22 && U16At(zip, |zip| - 12) == |files|
  {
    hide Locals, StoredZip, AllFit, U16At, U32At, Centrals, At, ValidUtf8;
    if WriteResult(files).Ok? {
      PartsStand(files);
    }
  }

  lemma KeptSmaller(m: Files, k: Str)
    requires k in m && IsDirectory(k)
    ensures |Kept(m)| < |m|
  {
    assert Kept(m).Keys <= m.Keys - {k};
    SubsetSize(Kept(m).Keys, m.Keys - {k});
    assert |m.Keys - {k}| == |m.Keys| - 1;
  }

  lemma {:induction false} SubsetSize(a: set<Bytes>, b: set<Bytes>)
    requires a <= b
    ensures |a| <= |b|
  {
    if a != {} {
      var x :| x in a;
      SubsetSize(a - {x}, b - {x});
    }
  }

  // ----- runs of edits -----

  datatype Edit = Insert(path: Str, data: Bytes) | Remove(path: Str)

  function Step(m: Files, e: Edit): Files {
    match e
    case Insert(path, data) => m[path := data]
    case Remove(path) => m - {path}
  }

  function Run(m: Files, edits: seq<Edit>): Files
    decreases |edits|
  {
    if edits == [] then m else Run(Step(m, edits[0]), edits[1..])
  }

  /** Making the edits one call at a time. */
  method Perform(vfs: IpaVfs, edits: seq<Edit>)
    modifies vfs`files
    ensures vfs.files == Run(old(vfs.files), edits)
  {
    ghost var m := vfs.files;
    assert edits[0..] == edits;
    for i := 0 to |edits|
      invariant Run(vfs.files, edits[i..]) == Run(m, edits)
    {
      assert edits[i..][1..] == edits[i + 1..];
      match edits[i] {
        case Insert(path, data) => vfs.Insert(path, data);
        case Remove(path) => var _ := vfs.Remove(path);
      }
    }
  }

  /** What a path holds after the edits: what its last edit says, else what it held before. */
  function LastEdit(m: Files, edits: seq<Edit>, path: Str): Option<Bytes>
    decreases |edits|
  {
    if edits == [] then Lookup(m, path)
    else if edits[|edits| - 1].path == path then
      match edits[|edits| - 1]
      case Insert(_, data) => Some(data)
      case Remove(_) => None
    else LastEdit(m, edits[..|edits| - 1], path)
  }

  lemma {:induction false} RunAppend(m: Files, edits: seq<Edit>, e: Edit)
    ensures Run(m, edits + [e]) == Step(Run(m, edits), e)
    decreases |edits|
  {
    if edits == [] {
      assert [] + [e] == [e];
      assert Run(m, [e]) == Run(Step(m, e), []);
    } else {
      assert (edits + [e])[1..] == edits[1..] + [e];
      RunAppend(Step(m, edits[0]), edits[1..], e);
    }
  }

  lemma {:induction false} LastEditWins(m: Files, edits: seq<Edit>, path: Str)
    ensures Lookup(Run(m, edits), path) == LastEdit(m, edits, path)
    decreases |edits|
  {
    if edits != [] {
      var before, e := edits[..|edits| - 1], edits[|edits| - 1];
      assert edits == before + [e];
      RunAppend(m, before, e);
      LastEditWins(m, before, path);
    }
  }

  /** Every run of edits, packed and reopened, shows under each file path what the last edit left there. */
  lemma EditPackOpen(m: Files, edits: seq<Edit>, inflate: Inflater, path: Str)
    requires Packs(Run(m, edits)) && HasApp(Run(m, edits)) && !IsDirectory(path)
    ensures WriteResult(FilesOf(Run(m, edits))).Ok?
    ensures var r := OpenVfs(WriteResult(FilesOf(Run(m, edits))).value, inflate);
      r.Ok? && Lookup(r.value.files, path) == LastEdit(m, edits, path)
  {
    hide OpenVfs, WriteResult, FilesOf, Packs, HasApp, Run, LastEdit, IsDirectory;
    PackThenOpen(Run(m, edits), inflate);
    LastEditWins(m, edits, path);
  }
}
