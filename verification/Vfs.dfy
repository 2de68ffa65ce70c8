/** bundle.rs: the in-memory IPA, a sorted map of paths that is packed to and unpacked from a ZIP. */
module Vfs {
  import opened Words
  import opened Text
  import opened ByteOrder
  import opened ZipFormat
  import opened ZipWrite
  import opened ZipRead
  import opened ZipRoundTrip

  const SLASH: u8 := 0x2F
  /** `Payload/`. */
  const PAYLOAD: Bytes := [0x50, 0x61, 0x79, 0x6C, 0x6F, 0x61, 0x64, 0x2F]
  /** `.app`. */
  const APP: Bytes := [0x2E, 0x61, 0x70, 0x70]

  type Files = map<Str, Bytes>

  predicate EndsWith(s: Bytes, suffix: Bytes) {
    |s| >= |suffix| && s[|s| - |suffix|..] == suffix
  }

  predicate IsDirectory(name: Bytes) {
    EndsWith(name, [SLASH])
  }

  /** The names the tests on paths look for. */
  lemma PathSpelling(path: Bytes)
    ensures IsDirectory(path) <==> path != [] && Spells(path[|path| - 1..], "/")
    ensures EndsWith(path, APP) <==> |path| >= 4 && Spells(path[|path| - 4..], ".app")
    ensures PAYLOAD <= path <==> |path| >= 8 && Spells(path[..8], "Payload/")
    ensures Spells([SLASH], "/")
  {
  }

  // ----- the map as a list of files -----

  function Listing(m: Files, keys: seq<Str>): (files: seq<File>)
    requires forall k :: k in keys ==> k in m
    ensures |files| == |keys|
  {
    if keys == [] then []
    else
      [File(keys[0], m[keys[0]])] + Listing(m, keys[1..])
  }

  /** The map's entries in key order, as `BTreeMap::iter` yields them. */
  function FilesOf(m: Files): (files: seq<File>)
    ensures |files| == |m|
  {
    Listing(m, KeysOf(m))
  }

  /** The files of the map, each once, names ascending in byte order. */
  lemma FilesOfExact(m: Files)
    ensures var files := FilesOf(m);
      && (forall i :: 0 <= i < |files| ==> files[i].name in m && files[i].data == m[files[i].name])
      && (forall k :: k in m ==> File(k, m[k]) in files)
      && forall i, j :: 0 <= i < j < |files| ==> Less(files[i].name, files[j].name)
  {
    hide SortedKeys, KeysOf, Leq, ValidUtf8;
    var keys, files := KeysOf(m), FilesOf(m);
    forall i | 0 <= i < |files| ensures files[i] == File(keys[i], m[keys[i]]) {
      ListingAt(m, keys, i);
    }
    forall k | k in m ensures File(k, m[k]) in files {
      var i :| 0 <= i < |keys| && keys[i] == k;
      assert files[i] == File(k, m[k]);
    }
  }

  lemma {:induction false} ListingAt(m: Files, keys: seq<Str>, i: nat)
    requires (forall k :: k in keys ==> k in m) && i < |keys|
    ensures Listing(m, keys)[i] == File(keys[i], m[keys[i]])
  {
    if i > 0 {
      ListingAt(m, keys[1..], i - 1);
    }
  }

  function KeysOf(m: Files): (keys: seq<Str>)
    ensures forall k :: k in keys <==> k in m
    ensures Ascending(keys) && |keys| == |m|
  {
    AsStrs(SortedKeys(m.Keys))
  }

  function AsStrs(s: seq<Bytes>): (r: seq<Str>)
    requires forall k: Bytes :: k in s ==> ValidUtf8(k)
    ensures r == s
  {
    if s == [] then []
    else
      var k: Bytes := s[0];
      assert k in s;
      [k] + AsStrs(s[1..])
  }

  // ----- the app prefix -----

  /** Where the first slash of `s` is; its length if there is none. */
  function SlashAt(s: Bytes): (n: nat)
    ensures n <= |s| && SLASH !in s[..n]
    ensures n < |s| ==> s[n] == SLASH
  {
    if s == [] || s[0] == SLASH then 0
    else
      var n := 1 + SlashAt(s[1..]);
      assert s[..n] == [s[0]] + s[1..][..n - 1];
      n
  }

  /** The prefix a path names: `Payload/<app>/` when its second component ends in `.app`. */
  function AppOf(path: Bytes): Option<Bytes> {
    if !(PAYLOAD <= path) then None
    else
      var rest := path[|PAYLOAD|..];
      var n := SlashAt(rest);
      if n < |rest| && EndsWith(rest[..n], APP) then Some(PAYLOAD + rest[..n] + [SLASH]) else None
  }

  /** `path` lies under `Payload/<app>/`. */
  predicate LiesUnder(path: Bytes, app: Bytes) {
    SLASH !in app && EndsWith(app, APP) && PAYLOAD + app + [SLASH] <= path
  }

  lemma {:induction false} SlashAtIs(s: Bytes, n: nat)
    requires n < |s| && SLASH !in s[..n] && s[n] == SLASH
    ensures SlashAt(s) == n
  {
    if n > 0 {
      assert s[0] in s[..n];
      assert s[1..][..n - 1] == s[..n][1..];
      SlashAtIs(s[1..], n - 1);
    }
  }

  /** The computed prefix is the one app directory the path lies under, if there is one. */
  lemma AppOfExact(path: Bytes, app: Bytes)
    ensures LiesUnder(path, app) <==> AppOf(path) == Some(PAYLOAD + app + [SLASH]) && SLASH !in app && EndsWith(app, APP)
    ensures AppOf(path).Some? ==> exists a :: LiesUnder(path, a)
  {
    hide EndsWith, SlashAt;
    if LiesUnder(path, app) {
      assert path[..|PAYLOAD|] == (PAYLOAD + app + [SLASH])[..|PAYLOAD|] == PAYLOAD;
    }
    if PAYLOAD <= path {
      var rest := path[|PAYLOAD|..];
      var n := SlashAt(rest);
      assert path == PAYLOAD + rest;
      if LiesUnder(path, app) {
        assert path[..|PAYLOAD| + |app| + 1] == PAYLOAD + app + [SLASH];
        assert rest[..|app|] == path[|PAYLOAD|..|PAYLOAD| + |app|] == app;
        assert rest[|app|] == path[|PAYLOAD| + |app|] == SLASH;
        SlashAtIs(rest, |app|);
      }
      if AppOf(path).Some? {
        var a := rest[..n];
        assert rest[..n + 1] == a + [SLASH];
        assert path[..|PAYLOAD| + n + 1] == PAYLOAD + rest[..n + 1] == PAYLOAD + a + [SLASH];
        assert LiesUnder(path, a);
        if AppOf(path) == Some(PAYLOAD + app + [SLASH]) {
          assert (PAYLOAD + a + [SLASH])[|PAYLOAD|..|PAYLOAD| + |app|] == app;
          assert a == app;
        }
      }
    }
  }

  predicate IsAppPath(path: Bytes) { AppOf(path).Some? }

  /** The prefix of the first app path among the keys in order. */
  function FirstApp(keys: seq<Bytes>): (r: Result<Bytes, Error>)
    ensures r == Err(MissingPayloadApp) <==> forall k :: k in keys ==> !IsAppPath(k)
    ensures r.Err? ==> r == Err(MissingPayloadApp)
    ensures r.Ok? ==> exists i :: 0 <= i < |keys| && IsAppPath(keys[i]) && r == Ok(AppOf(keys[i]).value)
                               && forall j :: 0 <= j < i ==> !IsAppPath(keys[j])
  {
    if keys == [] then Err(MissingPayloadApp)
    else if IsAppPath(keys[0]) then Ok(AppOf(keys[0]).value)
    else FirstApp(keys[1..])
  }

  method FindAppPrefix(files: Files) returns (r: Result<Bytes, Error>)
    ensures r == FirstApp(SortedKeys(files.Keys))
  {
    hide SortedKeys, AppOf;
    var keys := SortedKeys(files.Keys);
    assert keys[0..] == keys;
    for i := 0 to |keys|
      invariant FirstApp(keys[i..]) == FirstApp(keys)
    {
      assert keys[i..][1..] == keys[i + 1..];
      var app := AppOf(keys[i]);
      if app.Some? {
        return Ok(app.value);
      }
    }
    return Err(MissingPayloadApp);
  }

  // ----- opening -----

  /** Reading the entries in order into a map, directories skipped, up to the first error. */
  function Collect(zip: ZipArchive, entries: seq<ZipEntry>, inflate: Inflater, m: Files): Result<Files, Error>
    decreases |entries|
  {
    if entries == [] then Ok(m)
    else if IsDirectory(entries[0].name) then Collect(zip, entries[1..], inflate, m)
    else
      match Read(zip, entries[0], inflate)
      case Err(e) => Err(e)
      case Ok(data) => Collect(zip, entries[1..], inflate, m[entries[0].name := data])
  }

  /** Entry `i` is a file, and the last one called `x`. */
  predicate LastNamed(entries: seq<ZipEntry>, i: nat, x: Str) {
    && i < |entries| && !IsDirectory(entries[i].name) && entries[i].name == x
    && forall j :: i < j < |entries| ==> entries[j].name != x
  }

  /** Entry `i` is the first file that cannot be read. */
  predicate FirstUnreadable(zip: ZipArchive, entries: seq<ZipEntry>, inflate: Inflater, i: nat) {
    && i < |entries| && !IsDirectory(entries[i].name) && Read(zip, entries[i], inflate).Err?
    && forall j :: 0 <= j < i && !IsDirectory(entries[j].name) ==> Read(zip, entries[j], inflate).Ok?
  }

  /**
   * What any archive unpacks to: the first unreadable file is the error; else each path holds what its last entry
   * reads as, and what no entry names stays as it was.
   */
  lemma {:induction false} CollectExact(zip: ZipArchive, entries: seq<ZipEntry>, inflate: Inflater, m: Files, i: nat, x: Str)
    ensures var r := Collect(zip, entries, inflate, m);
      && (FirstUnreadable(zip, entries, inflate, i) ==> r == Err(Read(zip, entries[i], inflate).error))
      && (r.Err? ==> exists j :: 0 <= j < |entries| && !IsDirectory(entries[j].name) && Read(zip, entries[j], inflate).Err?)
      && (r.Ok? && LastNamed(entries, i, x) ==> x in r.value && Read(zip, entries[i], inflate) == Ok(r.value[x]))
      && (r.Ok? && (forall j :: 0 <= j < |entries| ==> IsDirectory(entries[j].name) || entries[j].name != x) ==>
           Lookup(r.value, x) == Lookup(m, x))
    decreases |entries|
  {
    hide Read, IsDirectory, ValidUtf8;
    if entries != [] {
      var rest := entries[1..];
      assert forall j :: 0 <= j < |rest| ==> rest[j] == entries[j + 1];
      assert forall j :: 0 < j < |entries| ==> entries[j] == rest[j - 1];
      var k := if i == 0 then 0 else i - 1;
      if IsDirectory(entries[0].name) {
        CollectExact(zip, rest, inflate, m, k, x);
      } else if Read(zip, entries[0], inflate).Ok? {
        CollectExact(zip, rest, inflate, m[entries[0].name := Read(zip, entries[0], inflate).value], k, x);
      }
    }
  }

  datatype Opened = Opened(files: Files, appPrefix: Bytes)

  function OpenVfs(bytes: Bytes, inflate: Inflater): Result<Opened, Error> {
    match OpenResult(bytes)
    case Err(e) => Err(e)
    case Ok(zip) =>
      match Collect(zip, zip.entries, inflate, map[])
      case Err(e) => Err(e)
      case Ok(files) =>
        match FirstApp(SortedKeys(files.Keys))
        case Err(e) => Err(e)
        case Ok(prefix) => Ok(Opened(files, prefix))
  }

  class IpaVfs {
    var files: Files
    var appPrefix: Bytes

    constructor (files: Files, appPrefix: Bytes)
      ensures this.files == files && this.appPrefix == appPrefix
    {
      this.files, this.appPrefix := files, appPrefix;
    }

    static method Open(bytes: Bytes, inflate: Inflater) returns (r: Result<IpaVfs, Error>)
      ensures OpenVfs(bytes, inflate).Err? ==> r == Err(OpenVfs(bytes, inflate).error)
      ensures OpenVfs(bytes, inflate).Ok? ==>
        r.Ok? && fresh(r.value) && Opened(r.value.files, r.value.appPrefix) == OpenVfs(bytes, inflate).value
    {
      hide OpenResult, Read, SortedKeys, FirstApp;
      var zip := ZipRead.Open(bytes);
      if zip.Err? {
        return Err(zip.error);
      }
      var entries, m: Files := zip.value.entries, map[];
      ghost var all := Collect(zip.value, entries, inflate, map[]);
      assert entries[0..] == entries;
      for i := 0 to |entries|
        invariant Collect(zip.value, entries[i..], inflate, m) == all
      {
        var entry := entries[i];
        assert entries[i..][1..] == entries[i + 1..];
        if IsDirectory(entry.name) {
          continue;
        }
        var data := Read(zip.value, entry, inflate);
        if data.Err? {
          return Err(data.error);
        }
        m := m[entry.name := data.value];
      }
      var prefix := FindAppPrefix(m);
      if prefix.Err? {
        return Err(prefix.error);
      }
      var vfs := new IpaVfs(m, prefix.value);
      return Ok(vfs);
    }

    method Insert(path: Str, data: Bytes)
      modifies `files
      ensures files == old(files)[path := data]
    {
      files := files[path := data];
    }

    method Remove(path: Str) returns (previous: Option<Bytes>)
      modifies `files
      ensures files == old(files) - {path}
      ensures previous == if path in old(files) then Some(old(files)[path]) else None
    {
      previous := if path in files then Some(files[path]) else None;
      files := files - {path};
    }

    method ToBytes() returns (r: Result<Bytes, Error>)
      ensures r == WriteResult(FilesOf(files))
    {
      r := WriteStoredZip(FilesOf(files));
    }
  }
}
