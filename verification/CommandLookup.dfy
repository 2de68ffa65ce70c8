/** file.rs: finding a single load command, and the part of the file a `linkedit_data_command` points at. */
module CommandLookup {
  import opened Words
  import opened MachoError
  import opened LoadCommands

  const LC_SYMTAB := 0x2
  const LC_DYSYMTAB := 0xb
  const LC_FUNCTION_STARTS := 0x26
  const LC_DYLD_CHAINED_FIXUPS := 0x8000_0034

  datatype Symtab = Symtab(symoff: u32, nsyms: u32, stroff: u32, strsize: u32)
  datatype Dysymtab = Dysymtab(indirectsymoff: u32, nindirectsyms: u32)
  datatype Linkedit = Linkedit(dataoff: u32, datasize: u32)

  // ----- `find_cmd` -----

  /** The body of the first command of that kind, which must hold the fixed fields, unless an error comes first. */
  function FindBody(items: seq<CommandItem>, cmd: u32, size: nat): (r: Result<Option<Bytes>, Error>)
    ensures r.Ok? && r.value.Some? ==> |r.value.value| >= size
  {
    if items == [] then Ok(None)
    else
      match items[0]
      case Err(e) => Err(e)
      case Ok(c) =>
        if c.cmd != cmd then FindBody(items[1..], cmd, size)
        else if |c.body| < size then Err(Truncated("load command body"))
        else Ok(Some(c.body))
  }

  function Commands(file: MachoFile): Result<seq<CommandItem>, Error> {
    match CommandArea(file)
    case Err(e) => Err(e)
    case Ok(area) => Ok(CommandItems(area, 0, file.ncmds))
  }

  function BodyOf(file: MachoFile, cmd: u32, size: nat): (r: Result<Option<Bytes>, Error>)
    ensures r.Ok? && r.value.Some? ==> |r.value.value| >= size
  {
    match Commands(file)
    case Err(e) => Err(e)
    case Ok(items) => FindBody(items, cmd, size)
  }

  method FindCmd(file: MachoFile, cmd: u32, size: nat) returns (r: Result<Option<Bytes>, Error>)
    ensures r == BodyOf(file, cmd, size)
  {
    hide LoadCommandIter.Pending, CommandItems;
    var area := CommandArea(file);
    if area.Err? {
      return Err(area.error);
    }
    var iter := new LoadCommandIter(area.value, file.ncmds);
    while true
      invariant fresh(iter) && FindBody(iter.Pending(), cmd, size) == BodyOf(file, cmd, size)
      decreases |iter.Pending()|
    {
      var next := iter.Next();
      match next {
        case None => return Ok(None);
        case Some(Err(e)) => return Err(e);
        case Some(Ok(c)) =>
          if c.cmd == cmd {
            if |c.body| < size {
              return Err(Truncated("load command body"));
            }
            return Ok(Some(c.body));
          }
      }
    }
  }

  // ----- the commands looked up -----

  function SymtabAt(body: Bytes): Symtab
    requires |body| >= 24
  {
    Symtab(U32At(body, 8), U32At(body, 12), U32At(body, 16), U32At(body, 20))
  }

  function DysymtabAt(body: Bytes): Dysymtab
    requires |body| >= 80
  {
    Dysymtab(U32At(body, 56), U32At(body, 60))
  }

  function LinkeditAt(body: Bytes): Linkedit
    requires |body| >= 16
  {
    Linkedit(U32At(body, 8), U32At(body, 12))
  }

  /** `symtab`. */
  function SymtabOf(file: MachoFile): Result<Option<Symtab>, Error> {
    match BodyOf(file, LC_SYMTAB, 24)
    case Err(e) => Err(e)
    case Ok(body) => Ok(if body.Some? then Some(SymtabAt(body.value)) else None)
  }

  /** `dysymtab`. */
  function DysymtabOf(file: MachoFile): Result<Option<Dysymtab>, Error> {
    match BodyOf(file, LC_DYSYMTAB, 80)
    case Err(e) => Err(e)
    case Ok(body) => Ok(if body.Some? then Some(DysymtabAt(body.value)) else None)
  }

  /** `linkedit_payload` of the command of that kind, if there is one. */
  function PayloadOf(file: MachoFile, cmd: u32): Result<Option<Bytes>, Error> {
    match BodyOf(file, cmd, 16)
    case Err(e) => Err(e)
    case Ok(None) => Ok(None)
    case Ok(Some(body)) =>
      var r := LinkeditAt(body);
      if r.dataoff + r.datasize > |file.data| then Err(Truncated("linkedit payload"))
      else Ok(Some(file.data[r.dataoff..r.dataoff + r.datasize]))
  }

  method FindSymtab(file: MachoFile) returns (r: Result<Option<Symtab>, Error>)
    ensures r == SymtabOf(file)
  {
    hide BodyOf, SymtabAt;
    var body := FindCmd(file, LC_SYMTAB, 24);
    match body {
      case Err(e) => r := Err(e);
      case Ok(None) => r := Ok(None);
      case Ok(Some(b)) => r := Ok(Some(SymtabAt(b)));
    }
  }

  method FindDysymtab(file: MachoFile) returns (r: Result<Option<Dysymtab>, Error>)
    ensures r == DysymtabOf(file)
  {
    hide BodyOf, DysymtabAt;
    var body := FindCmd(file, LC_DYSYMTAB, 80);
    match body {
      case Err(e) => r := Err(e);
      case Ok(None) => r := Ok(None);
      case Ok(Some(b)) => r := Ok(Some(DysymtabAt(b)));
    }
  }

  method FindPayload(file: MachoFile, cmd: u32) returns (r: Result<Option<Bytes>, Error>)
    ensures r == PayloadOf(file, cmd)
  {
    hide BodyOf, U32At;
    var body := FindCmd(file, cmd, 16);
    match body {
      case Err(e) => return Err(e);
      case Ok(None) => return Ok(None);
      case Ok(Some(b)) =>
        var lc := LinkeditAt(b);
        if lc.dataoff + lc.datasize > |file.data| {
          return Err(Truncated("linkedit payload"));
        }
        return Ok(Some(file.data[lc.dataoff..lc.dataoff + lc.datasize]));
    }
  }

  // ----- what is found in an image -----

  /** The commands of the bodies. */
  function AllCommands(bodies: seq<Bytes>): seq<CommandItem>
    requires forall b :: b in bodies ==> SoundBody(b)
  {
    if bodies == [] then []
    else
      assert SoundBody(bodies[0]);
      [Ok(Command(U32At(bodies[0], 0), bodies[0]))] + AllCommands(bodies[1..])
  }

  lemma {:induction false} CommandsYielded(data: Bytes, off: nat, bodies: seq<Bytes>)
    requires forall b :: b in bodies ==> SoundBody(b)
    requires At(data, off, Flat(bodies))
    ensures CommandItems(data, off, |bodies|) == AllCommands(bodies)
    decreases |bodies|
  {
    hide U32At, CommandItems, SoundBody, At;
    if bodies != [] {
      var b, rest := bodies[0], Flat(bodies[1..]);
      assert SoundBody(b);
      SoundIsBody(b);
      AtSplits(data, off, b, rest);
      FirstBody(data, off, b, |bodies| - 1);
      CommandsYielded(data, off + |b|, bodies[1..]);
    } else {
      NoCommands(data, off);
    }
  }

  lemma NoCommands(data: Bytes, off: nat)
    ensures CommandItems(data, off, 0) == []
  {
  }

  predicate OfKind(b: Bytes, cmd: u32) {
    |b| >= 4 && U32At(b, 0) == cmd
  }

  /** No command before `i` is of that kind. */
  predicate NoneOfKind(bodies: seq<Bytes>, i: nat, cmd: u32)
    requires i <= |bodies|
  {
    forall j :: 0 <= j < i ==> !OfKind(bodies[j], cmd)
  }

  lemma {:induction false} FirstInCommands(bodies: seq<Bytes>, i: nat, cmd: u32, size: nat)
    requires forall b :: b in bodies ==> SoundBody(b)
    requires i <= |bodies| && NoneOfKind(bodies, i, cmd)
    ensures i == |bodies| ==> FindBody(AllCommands(bodies), cmd, size) == Ok(None)
    ensures i < |bodies| && OfKind(bodies[i], cmd) ==>
      FindBody(AllCommands(bodies), cmd, size)
      == if |bodies[i]| < size then Err(Truncated("load command body")) else Ok(Some(bodies[i]))
    decreases i
  {
    hide U32At;
    if bodies != [] {
      assert SoundBody(bodies[0]);
      if i > 0 {
        assert !OfKind(bodies[0], cmd);
        assert forall j :: 0 <= j < i - 1 ==> bodies[1..][j] == bodies[j + 1];
        FirstInCommands(bodies[1..], i - 1, cmd, size);
      }
    }
  }

  /** In an image of sound commands the first of a kind is found, and must hold its fixed fields; none is no error. */
  lemma FirstCommandFound(file: MachoFile, bodies: seq<Bytes>, cmd: u32, size: nat, i: nat)
    requires WholeImage(file, bodies) && i <= |bodies| && NoneOfKind(bodies, i, cmd)
    ensures i == |bodies| ==> BodyOf(file, cmd, size) == Ok(None)
    ensures i < |bodies| && OfKind(bodies[i], cmd) ==>
      BodyOf(file, cmd, size)
      == if |bodies[i]| < size then Err(Truncated("load command body")) else Ok(Some(bodies[i]))
  {
    hide SoundBody, CommandItems, FindBody, U32At, NoneOfKind, CommandArea, Flat, At;
    var area := file.data[32..32 + file.sizeofcmds];
    AreaBegins(file, bodies);
    CommandsYielded(area, 0, bodies);
    FirstInCommands(bodies, i, cmd, size);
  }

  /** The payload is the part of the file its command names; one that leaves the file is an error. */
  lemma PayloadInImage(file: MachoFile, bodies: seq<Bytes>, cmd: u32, i: nat)
    requires WholeImage(file, bodies) && i < |bodies| && NoneOfKind(bodies, i, cmd)
    requires OfKind(bodies[i], cmd) && |bodies[i]| >= 16
    ensures var off, size := U32At(bodies[i], 8), U32At(bodies[i], 12);
      PayloadOf(file, cmd)
      == if off + size > |file.data| then Err(Truncated("linkedit payload")) else Ok(Some(file.data[off..off + size]))
  {
    hide WholeImage, BodyOf, U32At, OfKind, NoneOfKind;
    FirstCommandFound(file, bodies, cmd, 16, i);
  }
}
