/** dyld.rs: the export trie, a graph of byte offsets flattened into a sorted list of names. */
module ExportTrie {
  import opened Words
  import opened MachoError
  import opened Leb128
  import opened Text
  import opened ByteOrder

  const MAX_DEPTH := 64

  datatype ExportEntry = ExportEntry(name: Str, flags: u64, address: u64, other: u64, importName: Option<Str>)

  function NameOf(e: ExportEntry): Bytes { e.name }

  predicate IsReexport(flags: u64) { flags / 0x08 % 2 == 1 }
  predicate HasResolver(flags: u64) { flags / 0x10 % 2 == 1 }

  // ----- what the walk over offsets does -----

  /** What a (partial) walk pushed, and the error that stopped it. */
  datatype Walk = Walk(entries: seq<ExportEntry>, error: Option<Error>)

  function Failed(e: Error): Walk { Walk([], Some(e)) }

  /** The terminal payload at the front of `s`, read as an entry called `name`. */
  function DecodeTerminal(s: Bytes, name: Str): Result<ExportEntry, Error> {
    match DecodeUleb(s)
    case Err(e) => Err(e)
    case Ok(flags) =>
      var s1 := s[flags.len..];
      match DecodeUleb(s1)
      case Err(e) => Err(e)
      case Ok(first) =>
        var s2 := s1[first.len..];
        if IsReexport(flags.value) then
          match DecodeCString(s2)
          case Err(e) => Err(e)
          case Ok(target) => Ok(ExportEntry(name, flags.value, 0, first.value, Some(target.value)))
        else if HasResolver(flags.value) then
          match DecodeUleb(s2)
          case Err(e) => Err(e)
          case Ok(resolver) => Ok(ExportEntry(name, flags.value, first.value, resolver.value, None))
        else Ok(ExportEntry(name, flags.value, first.value, 0, None))
  }

  /** The front of a node: what it exports itself, and where its child count stands. */
  datatype Header = Header(own: seq<ExportEntry>, children: nat)

  function DecodeHeader(data: Bytes, nodeOff: nat, prefix: Str): Result<Header, Error>
    requires nodeOff <= |data|
  {
    match DecodeUleb(data[nodeOff..])
    case Err(e) => Err(e)
    case Ok(size) =>
      var off := nodeOff + size.len;
      var terminalEnd := (off + size.value) % TWO_64;
      if size.value == 0 then Ok(Header([], off))
      else if terminalEnd > |data| then Err(Truncated("export terminal"))
      else
        match DecodeTerminal(data[off..], prefix)
        case Err(e) => Err(e)
        case Ok(entry) => Ok(Header(if prefix == [] then [] else [entry], terminalEnd))
  }

  function NodeWalk(data: Bytes, nodeOff: nat, prefix: Str, depth: nat): Walk
    decreases if depth > MAX_DEPTH then 0 else MAX_DEPTH + 1 - depth, 1000
  {
    if depth > MAX_DEPTH || nodeOff >= |data| then Walk([], None)
    else
      match DecodeHeader(data, nodeOff, prefix)
      case Err(e) => Failed(e)
      case Ok(header) =>
        var w := ChildrenAt(data, header.children, prefix, depth);
        Walk(header.own + w.entries, w.error)
  }

  function ChildrenAt(data: Bytes, off: nat, prefix: Str, depth: nat): Walk
    requires depth <= MAX_DEPTH
    decreases MAX_DEPTH + 1 - depth, 999
  {
    if off >= |data| then Walk([], None) else EdgesWalk(data, off + 1, data[off], prefix, depth)
  }

  function EdgesWalk(data: Bytes, off: nat, count: nat, prefix: Str, depth: nat): Walk
    requires depth <= MAX_DEPTH && count <= 255
    decreases MAX_DEPTH + 1 - depth, count
  {
    if count == 0 then Walk([], None)
    else
      match DecodeCString(Tail(data, off))
      case Err(e) => Failed(e)
      case Ok(edge) =>
        match DecodeUleb(Tail(data, off + edge.len))
        case Err(e) => Failed(e)
        case Ok(child) =>
          ValidConcat(prefix, edge.value);
          var w := NodeWalk(data, child.value, prefix + edge.value, depth + 1);
          if w.error.Some? then w
          else
            var v := EdgesWalk(data, off + edge.len + child.len, count - 1, prefix, depth);
            Walk(w.entries + v.entries, v.error)
  }

  function ExportsTrie(data: Bytes): Result<seq<ExportEntry>, Error> {
    if data == [] then Ok([])
    else
      var w := NodeWalk(data, 0, [], 0);
      match w.error
      case Some(e) => Err(e)
      case None => Ok(StableSort(w.entries, NameOf))
  }

  // ----- the parser -----

  /** The vector and the error after a walk that started with `out` in the vector. */
  function Onto(out: seq<ExportEntry>, w: Walk): Walk {
    Walk(out + w.entries, w.error)
  }

  /** `out` is the caller's vector on entry, `pushed` the same vector on return. */
  method ParseExportNode(data: Slice, nodeOff: nat, prefix: Str, out: seq<ExportEntry>, depth: nat)
    returns (error: Option<Error>, pushed: seq<ExportEntry>)
    ensures Walk(pushed, error) == Onto(out, NodeWalk(data, nodeOff, prefix, depth))
    decreases if depth > MAX_DEPTH then 0 else MAX_DEPTH + 1 - depth
  {
    hide DecodeUleb, DecodeCString, DecodeHeader, NodeWalk, EdgesWalk, Onto, ValidUtf8, Tail;
    pushed := out;
    NodeStep(data, nodeOff, prefix, depth, out);
    if depth > MAX_DEPTH || nodeOff >= |data| {
      return None, pushed;
    }
    var header := ReadHeader(data, nodeOff, prefix);
    if header.Err? {
      return Some(header.error), pushed;
    }
    pushed := pushed + header.value.own;
    var off := header.value.children;
    if off >= |data| {
      return None, pushed;
    }
    var childCount := data[off];
    off := off + 1;
    ghost var all := Onto(pushed, EdgesWalk(data, off, childCount, prefix, depth));
    for i := 0 to childCount
      invariant 0 <= off
      invariant Onto(pushed, EdgesWalk(data, off, childCount - i, prefix, depth)) == all
    {
      EdgeStep(data, off, childCount - i, prefix, depth, pushed);
      var edge, afterEdge := ReadCString(data, off);
      if edge.Err? {
        return Some(edge.error), pushed;
      }
      var child, afterChild := ReadUleb128(data, afterEdge);
      if child.Err? {
        return Some(child.error), pushed;
      }
      off := afterChild;
      var failed, grown := ParseExportNode(data, child.value, prefix + edge.value, pushed, depth + 1);
      pushed := grown;
      if failed.Some? {
        return failed, pushed;
      }
    }
    NoEdgesLeft(data, off, prefix, depth, pushed);
    error := None;
  }

  lemma NoEdgesLeft(data: Bytes, off: nat, prefix: Str, depth: nat, out: seq<ExportEntry>)
    requires depth <= MAX_DEPTH
    ensures Onto(out, EdgesWalk(data, off, 0, prefix, depth)) == Walk(out, None)
  {
    assert out + [] == out;
  }

  /** What stands before the child loop, by what each step returned. */
  lemma NodeStep(data: Bytes, nodeOff: nat, prefix: Str, depth: nat, out: seq<ExportEntry>)
    ensures var all := Onto(out, NodeWalk(data, nodeOff, prefix, depth));
      if depth > MAX_DEPTH || nodeOff >= |data| then all == Walk(out, None)
      else
        match DecodeHeader(data, nodeOff, prefix)
        case Err(e) => all == Walk(out, Some(e))
        case Ok(header) =>
          var off, own := header.children, out + header.own;
          all == if off >= |data| then Walk(own, None) else Onto(own, EdgesWalk(data, off + 1, data[off], prefix, depth))
  {
    hide DecodeHeader, EdgesWalk, ValidUtf8;
    assert out + [] == out;
    if depth <= MAX_DEPTH && nodeOff < |data| && DecodeHeader(data, nodeOff, prefix).Ok? {
      var header := DecodeHeader(data, nodeOff, prefix).value;
      var w := ChildrenAt(data, header.children, prefix, depth);
      assert out + (header.own + w.entries) == (out + header.own) + w.entries;
      assert (out + header.own) + [] == out + header.own;
    }
  }

  /** One round of the child loop, by what each of its reads returned. */
  lemma EdgeStep(data: Bytes, off: nat, count: nat, prefix: Str, depth: nat, out: seq<ExportEntry>)
    requires depth <= MAX_DEPTH && 0 < count <= 255
    ensures var all := Onto(out, EdgesWalk(data, off, count, prefix, depth));
      match DecodeCString(Tail(data, off))
      case Err(e) => all == Walk(out, Some(e))
      case Ok(edge) =>
        match DecodeUleb(Tail(data, off + edge.len))
        case Err(e) => all == Walk(out, Some(e))
        case Ok(child) =>
          && ValidUtf8(prefix + edge.value)
          && var w := Onto(out, NodeWalk(data, child.value, prefix + edge.value, depth + 1));
             all == if w.error.Some? then w
                    else Onto(w.entries, EdgesWalk(data, off + edge.len + child.len, count - 1, prefix, depth))
  {
    hide DecodeUleb, DecodeCString, NodeWalk, Tail;
    assert out + [] == out;
    match DecodeCString(Tail(data, off)) {
      case Err(_) =>
      case Ok(edge) =>
        ValidConcat(prefix, edge.value);
        hide ValidUtf8;
        match DecodeUleb(Tail(data, off + edge.len)) {
          case Err(_) =>
          case Ok(child) =>
            var w := NodeWalk(data, child.value, prefix + edge.value, depth + 1);
            var v := EdgesWalk(data, off + edge.len + child.len, count - 1, prefix, depth);
            hide EdgesWalk;
            assert out + (w.entries + v.entries) == (out + w.entries) + v.entries;
        }
    }
  }

  /** Up to the child count. */
  method ReadHeader(data: Slice, nodeOff: nat, prefix: Str) returns (r: Result<Header, Error>)
    requires nodeOff < |data|
    ensures r == DecodeHeader(data, nodeOff, prefix)
  {
    hide DecodeUleb, DecodeTerminal, ValidUtf8;
    var size, off := ReadUleb128(data, nodeOff);
    if size.Err? {
      return Err(size.error);
    }
    var own := [];
    var terminalEnd := (off + size.value) % TWO_64;
    if size.value > 0 {
      if terminalEnd > |data| {
        return Err(Truncated("export terminal"));
      }
      var entry := ReadTerminal(data, off, prefix);
      if entry.Err? {
        return Err(entry.error);
      }
      if prefix != [] {
        own := [entry.value];
      }
      off := terminalEnd;
    }
    r := Ok(Header(own, off));
  }

  /** The flags, address, re-export and resolver fields inside a terminal. */
  method ReadTerminal(data: Slice, off: nat, name: Str) returns (r: Result<ExportEntry, Error>)
    requires off <= |data|
    ensures r == DecodeTerminal(data[off..], name)
  {
    hide DecodeUleb, DecodeCString, ValidUtf8;
    var flags, t := ReadUleb128(data, off);
    if flags.Err? {
      return Err(flags.error);
    }
    var address, other, importName: Option<Str> := 0, 0, None;
    assert data[off..][t - off..] == data[t..];
    var first, t1 := ReadUleb128(data, t);
    if first.Err? {
      return Err(first.error);
    }
    assert data[off..][t - off..][t1 - t..] == data[t1..];
    if IsReexport(flags.value) {
      other := first.value;
      var target, t2 := ReadCString(data, t1);
      if target.Err? {
        return Err(target.error);
      }
      importName := Some(target.value);
    } else {
      address := first.value;
      if HasResolver(flags.value) {
        var resolver, t2 := ReadUleb128(data, t1);
        if resolver.Err? {
          return Err(resolver.error);
        }
        other := resolver.value;
      }
    }
    r := Ok(ExportEntry(name, flags.value, address, other, importName));
  }

  method ParseExportsTrie(data: Slice) returns (r: Result<seq<ExportEntry>, Error>)
    ensures r == ExportsTrie(data)
  {
    hide NodeWalk, StableSort;
    if data == [] {
      return Ok([]);
    }
    assert [] + NodeWalk(data, 0, [], 0).entries == NodeWalk(data, 0, [], 0).entries;
    var error, out := ParseExportNode(data, 0, [], [], 0);
    if error.Some? {
      return Err(error.value);
    }
    return Ok(StableSort(out, NameOf));
  }

  // ----- the tries that can be laid out in a blob -----

  type Kind = n: nat | n < 4
  type HighBits = n: nat | n < 0x800_0000_0000_0000

  /** What the flag word says besides re-export and resolver: the kind, a weak definition, bits of no meaning here. */
  datatype Attrs = Attrs(kind: Kind, weak: bool, high: HighBits)

  datatype Terminal =
    | Regular(attrs: Attrs, address: u64)
    | Resolver(attrs: Attrs, address: u64, resolver: u64)
    | Reexport(attrs: Attrs, resolved: bool, ordinal: u64, target: Str)

  /** Bits 0 and 1 are the kind, 4 is weak, 8 a re-export, 16 a resolver. */
  function FlagWord(a: Attrs, reexport: bool, resolver: bool): u64 {
    a.kind + (if a.weak then 4 else 0) + (if reexport then 8 else 0) + (if resolver then 16 else 0) + 32 * a.high
  }

  function Flags(t: Terminal): u64 {
    match t
    case Regular(a, _) => FlagWord(a, false, false)
    case Resolver(a, _, _) => FlagWord(a, false, true)
    case Reexport(a, resolved, _, _) => FlagWord(a, true, resolved)
  }

  lemma FlagBits(a: Attrs, reexport: bool, resolver: bool)
    ensures IsReexport(FlagWord(a, reexport, resolver)) == reexport
    ensures HasResolver(FlagWord(a, reexport, resolver)) == resolver
  {
    var w := FlagWord(a, reexport, resolver);
    var low := a.kind + (if a.weak then 4 else 0);
    assert w / 8 == (if reexport then 1 else 0) + 2 * ((if resolver then 1 else 0) + 2 * a.high) by {
      ModUnique(w, (if reexport then 1 else 0) + 2 * ((if resolver then 1 else 0) + 2 * a.high), 8, low);
    }
    assert w / 16 == (if resolver then 1 else 0) + 2 * a.high by {
      ModUnique(w, (if resolver then 1 else 0) + 2 * a.high, 16, low + (if reexport then 8 else 0));
    }
  }

  /** A terminal in its space: the announced size may exceed what its fields take. */
  datatype Stored = Stored(terminal: Terminal, padding: Bytes)

  datatype Trie = Node(at: nat, stored: Option<Stored>, edges: seq<Edge>)
  datatype Edge = Edge(name: Str, child: Trie)

  predicate GoodTerminal(t: Terminal) {
    t.Reexport? ==> NulFree(t.target)
  }

  function TerminalBytes(t: Terminal): Bytes {
    match t
    case Regular(_, address) => EncodeUleb(Flags(t)) + EncodeUleb(address)
    case Resolver(_, address, resolver) => EncodeUleb(Flags(t)) + EncodeUleb(address) + EncodeUleb(resolver)
    case Reexport(_, _, ordinal, target) => EncodeUleb(Flags(t)) + EncodeUleb(ordinal) + (target + [0])
  }

  function EntryOf(name: Str, t: Terminal): ExportEntry {
    match t
    case Regular(_, address) => ExportEntry(name, Flags(t), address, 0, None)
    case Resolver(_, address, resolver) => ExportEntry(name, Flags(t), address, resolver, None)
    case Reexport(_, _, ordinal, target) => ExportEntry(name, Flags(t), 0, ordinal, Some(target))
  }

  function StoredBytes(s: Stored): Bytes {
    TerminalBytes(s.terminal) + s.padding
  }

  function SizedTerminal(t: Option<Stored>): Bytes {
    match t
    case None => EncodeUleb(0)
    case Some(s) => EncodeUleb(|StoredBytes(s)|) + StoredBytes(s)
  }

  /** What a node exports itself; the empty name is no export. */
  function Own(t: Option<Stored>, name: Str): seq<ExportEntry> {
    if t.Some? && name != [] then [EntryOf(name, t.value.terminal)] else []
  }

  function EdgesBytes(edges: seq<Edge>): Bytes {
    if edges == [] then [] else edges[0].name + [0] + EncodeUleb(edges[0].child.at) + EdgesBytes(edges[1..])
  }

  /**
   * Every node's bytes stand at its offset. Nodes may come in any order, overlap other data,
   * and be shared: two edges may lead to the same offset.
   */
  predicate LaidOut(data: Bytes, t: Trie)
    decreases t, 0
  {
    && (t.stored.Some? ==> GoodTerminal(t.stored.value.terminal))
    && |t.edges| <= 255
    && At(data, t.at, SizedTerminal(t.stored) + [|t.edges|] + EdgesBytes(t.edges))
    && EdgesLaidOut(data, t.edges)
  }

  predicate EdgesLaidOut(data: Bytes, edges: seq<Edge>)
    decreases edges
  {
    edges == [] || (NulFree(edges[0].name) && LaidOut(data, edges[0].child) && EdgesLaidOut(data, edges[1..]))
  }

  // ----- the flattening of a trie -----

  /** One entry for every named terminal fewer than `levels` edges below `t`, parents first. */
  function Flatten(t: Trie, prefix: Str, levels: nat): seq<ExportEntry>
    decreases t, 0
  {
    if levels == 0 then []
    else Own(t.stored, prefix) + FlattenEdges(t.edges, prefix, levels - 1)
  }

  function FlattenEdges(edges: seq<Edge>, prefix: Str, levels: nat): seq<ExportEntry>
    decreases edges
  {
    if edges == [] then []
    else
      ValidConcat(prefix, edges[0].name);
      Flatten(edges[0].child, prefix + edges[0].name, levels) + FlattenEdges(edges[1..], prefix, levels)
  }

  function Height(t: Trie): nat
    decreases t, 0
  {
    HeightOfEdges(t.edges)
  }

  function HeightOfEdges(edges: seq<Edge>): nat
    decreases edges
  {
    if edges == [] then 0
    else if 1 + Height(edges[0].child) > HeightOfEdges(edges[1..]) then 1 + Height(edges[0].child)
    else HeightOfEdges(edges[1..])
  }

  lemma UlebAt(data: Bytes, off: nat, v: u64)
    requires At(data, off, EncodeUleb(v))
    ensures DecodeUleb(Tail(data, off)) == DecodeUleb(data[off..]) == Ok(Decoded(v, |EncodeUleb(v)|))
  {
    AtTail(data, off, EncodeUleb(v));
    UlebRoundTrip(v, data[off + |EncodeUleb(v)|..]);
  }

  lemma CStringAt(data: Bytes, off: nat, name: Str)
    requires NulFree(name) && At(data, off, name + [0])
    ensures DecodeCString(Tail(data, off)) == DecodeCString(data[off..]) == Ok(Decoded(name, |name| + 1))
  {
    AtTail(data, off, name + [0]);
    CStringRoundTrip(name, data[off + |name| + 1..]);
  }

  lemma AtInside(data: Bytes, off: nat, w: Bytes)
    requires At(data, off, w)
    ensures off + |w| <= |data|
  {
  }

  /** The two numbers every terminal starts with, and where its third field stands. */
  lemma TerminalFront(data: Bytes, off: nat, flags: u64, first: u64, last: Bytes)
    requires At(data, off, EncodeUleb(flags) + (EncodeUleb(first) + last))
    ensures var f, a := EncodeUleb(flags), EncodeUleb(first); var end := off + |f| + |a|;
      && end <= |data| && At(data, end, last)
      && DecodeUleb(data[off..]) == Ok(Decoded(flags, |f|))
      && DecodeUleb(data[off..][|f|..]) == Ok(Decoded(first, |a|))
      && data[off..][|f|..][|a|..] == data[end..]
  {
    hide DecodeUleb, EncodeUleb, Tail, At;
    var f, a := EncodeUleb(flags), EncodeUleb(first);
    AtSplits(data, off, f, a + last);
    AtSplits(data, off + |f|, a, last);
    AtInside(data, off, f);
    AtInside(data, off + |f|, a);
    UlebAt(data, off, flags);
    UlebAt(data, off + |f|, first);
    TailOfTail(data, off, |f|);
    TailOfTail(data, off + |f|, |a|);
  }

  lemma TerminalRoundTrip(data: Bytes, off: nat, t: Terminal, name: Str)
    requires GoodTerminal(t) && At(data, off, TerminalBytes(t))
    ensures DecodeTerminal(data[off..], name) == Ok(EntryOf(name, t))
  {
    hide DecodeUleb, DecodeCString, EncodeUleb, ValidUtf8, Tail, At, FlagWord, IsReexport, HasResolver;
    var flags := Flags(t);
    var f := |EncodeUleb(flags)|;
    FlagBits(t.attrs, t.Reexport?, if t.Reexport? then t.resolved else t.Resolver?);
    match t {
      case Regular(_, address) =>
        assert TerminalBytes(t) == EncodeUleb(flags) + (EncodeUleb(address) + []);
        TerminalFront(data, off, flags, address, []);
      case Resolver(_, address, r) =>
        assert TerminalBytes(t) == EncodeUleb(flags) + (EncodeUleb(address) + EncodeUleb(r));
        TerminalFront(data, off, flags, address, EncodeUleb(r));
        UlebAt(data, off + f + |EncodeUleb(address)|, r);
      case Reexport(_, _, ordinal, n) =>
        assert TerminalBytes(t) == EncodeUleb(flags) + (EncodeUleb(ordinal) + (n + [0]));
        TerminalFront(data, off, flags, ordinal, n + [0]);
        CStringAt(data, off + f + |EncodeUleb(ordinal)|, n);
    }
  }

  lemma HeaderRoundTrip(data: Slice, at: nat, stored: Option<Stored>, prefix: Str)
    requires stored.Some? ==> GoodTerminal(stored.value.terminal)
    requires At(data, at, SizedTerminal(stored))
    ensures DecodeHeader(data, at, prefix) == Ok(Header(Own(stored, prefix), at + |SizedTerminal(stored)|))
  {
    hide DecodeUleb, DecodeTerminal, EncodeUleb, TerminalBytes, ValidUtf8, At;
    AtInside(data, at, SizedTerminal(stored));
    match stored {
      case None =>
        UlebAt(data, at, 0);
      case Some(s) =>
        var size, payload := |StoredBytes(s)|, at + |EncodeUleb(|StoredBytes(s)|)|;
        TerminalNotEmpty(s.terminal);
        AtSplits(data, at, EncodeUleb(size), StoredBytes(s));
        AtSplits(data, payload, TerminalBytes(s.terminal), s.padding);
        UlebAt(data, at, size);
        TerminalRoundTrip(data, payload, s.terminal, prefix);
    }
  }

  /** Walking from a laid-out node pushes exactly its flattening and raises no error. */
  lemma {:induction false} NodeFlattens(data: Slice, t: Trie, prefix: Str, depth: nat)
    requires LaidOut(data, t) && depth <= 65
    ensures NodeWalk(data, t.at, prefix, depth) == Walk(Flatten(t, prefix, 65 - depth), None)
    decreases t, 0
  {
    hide DecodeHeader, SizedTerminal, EdgesWalk, EdgesBytes, FlattenEdges, EdgesLaidOut, ValidUtf8;
    if depth <= MAX_DEPTH {
      var head, edges := SizedTerminal(t.stored), EdgesBytes(t.edges);
      assert head + [|t.edges|] + edges == head + ([|t.edges|] + edges);
      AtSplits(data, t.at, head, [|t.edges|] + edges);
      AtSplits(data, t.at + |head|, [|t.edges|], edges);
      var off := t.at + |head|;
      assert data[off] == data[off..off + 1][0] == |t.edges|;
      HeaderRoundTrip(data, t.at, t.stored, prefix);
      EdgesFlatten(data, t.edges, off + 1, prefix, depth);
    }
  }

  lemma LaidOutInside(data: Bytes, t: Trie)
    requires LaidOut(data, t)
    ensures t.at < |data|
  {
  }

  lemma TerminalNotEmpty(p: Terminal)
    ensures TerminalBytes(p) != []
  {
    assert |EncodeUleb(Flags(p))| > 0;
  }

  lemma {:induction false} EdgesFlatten(data: Slice, edges: seq<Edge>, off: nat, prefix: Str, depth: nat)
    requires At(data, off, EdgesBytes(edges)) && EdgesLaidOut(data, edges)
    requires depth <= MAX_DEPTH && |edges| <= 255
    ensures EdgesWalk(data, off, |edges|, prefix, depth)
         == Walk(FlattenEdges(edges, prefix, MAX_DEPTH - depth), None)
    decreases edges
  {
    hide DecodeUleb, DecodeCString, EncodeUleb, NodeWalk, Flatten, LaidOut, At, Tail, ValidUtf8;
    if edges != [] {
      var name, child := edges[0].name, edges[0].child;
      var tag, link, rest := name + [0], EncodeUleb(child.at), EdgesBytes(edges[1..]);
      assert EdgesBytes(edges) == tag + (link + rest);
      AtSplits(data, off, tag, link + rest);
      AtSplits(data, off + |tag|, link, rest);
      CStringAt(data, off, name);
      LaidOutInside(data, child);
      UlebAt(data, off + |tag|, child.at);
      ValidConcat(prefix, name);
      NodeFlattens(data, child, prefix + name, depth + 1);
      EdgesFlatten(data, edges[1..], off + |tag| + |link|, prefix, depth);
    }
  }

  /**
   * Parsing the blob of a trie rooted at offset 0 gives its flattening down to 64 edges, sorted by name.
   */
  lemma TrieRoundTrip(data: Slice, t: Trie)
    requires t.at == 0 && LaidOut(data, t)
    ensures ExportsTrie(data) == Ok(StableSort(Flatten(t, [], 65), NameOf))
  {
    LaidOutInside(data, t);
    hide NodeWalk, Flatten, LaidOut, StableSort;
    NodeFlattens(data, t, [], 0);
  }

  // ----- how deep the flattening reaches -----

  /** The entries `levels` edges or more below `t`. */
  function Deeper(t: Trie, prefix: Str, levels: nat): seq<ExportEntry>
    decreases t, 0
  {
    if levels == 0 then Flatten(t, prefix, Height(t) + 1) else DeeperEdges(t.edges, prefix, levels - 1)
  }

  function DeeperEdges(edges: seq<Edge>, prefix: Str, levels: nat): seq<ExportEntry>
    decreases edges
  {
    if edges == [] then []
    else
      ValidConcat(prefix, edges[0].name);
      Deeper(edges[0].child, prefix + edges[0].name, levels) + DeeperEdges(edges[1..], prefix, levels)
  }

  /** Raising the bound beyond the height adds nothing. */
  lemma {:induction false} FlattenSaturates(t: Trie, prefix: Str, levels: nat)
    requires levels > Height(t)
    ensures Flatten(t, prefix, levels) == Flatten(t, prefix, Height(t) + 1)
    decreases t, 0
  {
    EdgesSaturate(t.edges, prefix, levels - 1, Height(t));
  }

  lemma {:induction false} EdgesSaturate(edges: seq<Edge>, prefix: Str, m: nat, n: nat)
    requires m >= HeightOfEdges(edges) && n >= HeightOfEdges(edges)
    ensures FlattenEdges(edges, prefix, m) == FlattenEdges(edges, prefix, n)
    decreases edges
  {
    if edges != [] {
      ValidConcat(prefix, edges[0].name);
      FlattenSaturates(edges[0].child, prefix + edges[0].name, m);
      FlattenSaturates(edges[0].child, prefix + edges[0].name, n);
      EdgesSaturate(edges[1..], prefix, m, n);
    }
  }

  /** The bounded flattening loses exactly the deeper entries and nothing else. */
  lemma {:induction false} FlattenMisses(t: Trie, prefix: Str, levels: nat)
    ensures multiset(Flatten(t, prefix, Height(t) + 1))
         == multiset(Flatten(t, prefix, levels)) + multiset(Deeper(t, prefix, levels))
    decreases t, 0
  {
    hide FlattenEdges, DeeperEdges, HeightOfEdges, Own, ValidUtf8;
    if levels > 0 {
      EdgesMiss(t.edges, prefix, levels - 1, Height(t));
    }
  }

  lemma NoEdges(prefix: Str, levels: nat)
    ensures FlattenEdges([], prefix, levels) == [] && DeeperEdges([], prefix, levels) == []
  {
  }

  lemma EdgesUnfold(edges: seq<Edge>, prefix: Str, levels: nat)
    requires edges != [] && ValidUtf8(prefix + edges[0].name)
    ensures var child, name := edges[0].child, prefix + edges[0].name;
      && multiset(FlattenEdges(edges, prefix, levels))
         == multiset(Flatten(child, name, levels)) + multiset(FlattenEdges(edges[1..], prefix, levels))
      && multiset(DeeperEdges(edges, prefix, levels))
         == multiset(Deeper(child, name, levels)) + multiset(DeeperEdges(edges[1..], prefix, levels))
  {
    hide Flatten, Deeper, ValidUtf8;
  }

  lemma {:induction false} EdgesMiss(edges: seq<Edge>, prefix: Str, levels: nat, n: nat)
    requires n >= HeightOfEdges(edges)
    ensures multiset(FlattenEdges(edges, prefix, n))
         == multiset(FlattenEdges(edges, prefix, levels)) + multiset(DeeperEdges(edges, prefix, levels))
    decreases edges
  {
    hide Flatten, Deeper, Height, ValidUtf8, FlattenEdges, DeeperEdges;
    if edges == [] {
      NoEdges(prefix, levels);
      NoEdges(prefix, n);
    } else {
      ValidConcat(prefix, edges[0].name);
      FlattenMisses(edges[0].child, prefix + edges[0].name, levels);
      FlattenSaturates(edges[0].child, prefix + edges[0].name, n);
      EdgesMiss(edges[1..], prefix, levels, n);
      EdgesUnfold(edges, prefix, levels);
      EdgesUnfold(edges, prefix, n);
    }
  }

  /** The parser sees the whole trie exactly when no named terminal lies more than 64 edges down. */
  lemma WholeTrieParsed(data: Slice, t: Trie)
    requires t.at == 0 && LaidOut(data, t)
    ensures ExportsTrie(data).Ok?
    ensures multiset(ExportsTrie(data).value) == multiset(Flatten(t, [], Height(t) + 1))
       <==> Deeper(t, [], 65) == []
    ensures Height(t) <= 64 ==>
      ExportsTrie(data).value == StableSort(Flatten(t, [], Height(t) + 1), NameOf)
  {
    hide ExportsTrie, LaidOut, Flatten, Deeper, StableSort;
    TrieRoundTrip(data, t);
    FlattenMisses(t, [], MAX_DEPTH + 1);
    var kept, lost := Flatten(t, [], MAX_DEPTH + 1), Deeper(t, [], MAX_DEPTH + 1);
    if lost != [] {
      assert multiset(lost)[lost[0]] > 0;
      assert multiset(kept) != multiset(kept) + multiset(lost);
    }
    if Height(t) <= MAX_DEPTH {
      FlattenSaturates(t, [], MAX_DEPTH + 1);
    }
  }

  /**
   * Offsets no trie uses: a node past the end or more than 64 edges down adds nothing, a terminal that reaches past
   * the end is an error, and a node without room for its child count has no children.
   */
  lemma NodeLimits(data: Bytes, at: nat, prefix: Str, depth: nat)
    ensures depth > 64 || at >= |data| ==> NodeWalk(data, at, prefix, depth) == Walk([], None)
    ensures depth <= 64 && at < |data| && DecodeUleb(data[at..]).Err? ==>
      NodeWalk(data, at, prefix, depth) == Walk([], Some(DecodeUleb(data[at..]).error))
    ensures depth <= 64 && at < |data| && DecodeUleb(data[at..]).Ok? ==>
      var size := DecodeUleb(data[at..]).value;
      && (size.value > 0 && (at + size.len + size.value) % 0x1_0000_0000_0000_0000 > |data| ==>
           NodeWalk(data, at, prefix, depth) == Walk([], Some(Truncated("export terminal"))))
      && (size.value == 0 && at + size.len >= |data| ==> NodeWalk(data, at, prefix, depth) == Walk([], None))
  {
    hide DecodeUleb, DecodeTerminal, EdgesWalk, ValidUtf8;
  }

  // ----- chains of single edges, to show both sides of the depth limit -----

  /** `k` edges called `a` from a node at `at` to an exported leaf, six bytes a node. */
  function ChainTrie(at: nat, k: nat): (t: Trie)
    ensures t.at == at
    decreases k
  {
    if k == 0 then Node(at, Some(Stored(Regular(Attrs(0, false, 0), 0), [])), [])
    else Node(at, None, [Edge(A, ChainTrie(at + 6, k - 1))])
  }

  const A: Str := [0x61]

  function LinkBytes(next: nat): Bytes {
    [0, 1] + (A + [0] + EncodeUleb(next))
  }

  function ChainBytes(at: nat, k: nat): Bytes
    decreases k
  {
    if k == 0 then [2, 0, 0, 0] else LinkBytes(at + 6) + ChainBytes(at + 6, k - 1)
  }

  /** A chain of `k + 1` edges, its root at offset 0 and the other nodes from offset 128 on. */
  function DeepTrie(k: nat): Trie {
    Node(0, None, [Edge(A, ChainTrie(128, k))])
  }

  function DeepBlob(k: nat): Bytes {
    LinkBytes(128) + (Zeros(122) + ChainBytes(128, k))
  }

  function Zeros(n: nat): (s: Bytes)
    ensures |s| == n
  {
    seq(n, i => 0)
  }

  lemma LinkSize(next: nat)
    requires 128 <= next < 16384
    ensures |LinkBytes(next)| == 6
  {
    assert EncodeUleb(next / 0x80) == [next / 0x80];
    assert EncodeUleb(next) == [next % 0x80 + 0x80] + [next / 0x80];
  }

  lemma LinkLaid(data: Bytes, at: nat, child: Trie)
    requires At(data, at, LinkBytes(child.at)) && LaidOut(data, child)
    ensures LaidOut(data, Node(at, None, [Edge(A, child)]))
  {
    hide LaidOut, At;
    var edges := [Edge(A, child)];
    assert edges[1..] == [];
    assert EdgesBytes(edges) == A + [0] + EncodeUleb(child.at) + [];
    assert SizedTerminal(None) == [0];
    assert LinkBytes(child.at) == SizedTerminal(None) + [1] + EdgesBytes(edges);
    NodeLaid(data, Node(at, None, edges));
  }

  lemma NodeLaid(data: Bytes, t: Trie)
    requires t.stored.Some? ==> GoodTerminal(t.stored.value.terminal)
    requires |t.edges| <= 255 && EdgesLaidOut(data, t.edges)
    requires At(data, t.at, SizedTerminal(t.stored) + [|t.edges|] + EdgesBytes(t.edges))
    ensures LaidOut(data, t)
  {
  }

  lemma {:induction false} ChainLaid(data: Bytes, at: nat, k: nat)
    requires 122 <= at && at + 6 * k + 6 < 16384 && At(data, at, ChainBytes(at, k))
    ensures LaidOut(data, ChainTrie(at, k))
    decreases k
  {
    hide At, LaidOut, LinkBytes;
    if k == 0 {
      var leaf := ChainTrie(at, 0);
      assert EncodeUleb(0) == [0];
      assert StoredBytes(leaf.stored.value) == [0, 0];
      assert EncodeUleb(2) == [2];
      assert SizedTerminal(leaf.stored) + [0] + [] == [2, 0, 0, 0];
      NodeLaid(data, leaf);
    } else {
      LinkSize(at + 6);
      AtSplits(data, at, LinkBytes(at + 6), ChainBytes(at + 6, k - 1));
      ChainLaid(data, at + 6, k - 1);
      LinkLaid(data, at, ChainTrie(at + 6, k - 1));
    }
  }

  lemma {:induction false} ChainExports(at: nat, k: nat, prefix: Str, levels: nat)
    requires prefix != []
    ensures |Flatten(ChainTrie(at, k), prefix, levels)| == if levels > k then 1 else 0
    decreases k
  {
    hide ValidUtf8;
    if k > 0 && levels > 0 {
      ValidConcat(prefix, A);
      var edges := ChainTrie(at, k).edges;
      assert edges[1..] == [];
      ChainExports(at + 6, k - 1, prefix + A, levels - 1);
      assert FlattenEdges(edges, prefix, levels - 1) == Flatten(ChainTrie(at + 6, k - 1), prefix + A, levels - 1) + [];
    }
  }

  lemma {:induction false} ChainHeight(at: nat, k: nat)
    ensures Height(ChainTrie(at, k)) == k
    decreases k
  {
    if k > 0 {
      var edges := ChainTrie(at, k).edges;
      ChainHeight(at + 6, k - 1);
      assert HeightOfEdges(edges[1..]) == 0;
      assert HeightOfEdges(edges) == 1 + Height(edges[0].child);
    }
  }

  lemma DeepHeight(k: nat)
    ensures Height(DeepTrie(k)) == k + 1
  {
    var edges := DeepTrie(k).edges;
    ChainHeight(128, k);
    assert HeightOfEdges(edges[1..]) == 0;
    assert HeightOfEdges(edges) == 1 + Height(edges[0].child);
  }

  lemma DeepFlattens(k: nat, levels: nat)
    requires levels > 0
    ensures |Flatten(DeepTrie(k), [], levels)| == if levels > k + 1 then 1 else 0
  {
    hide ChainTrie, Height;
    var edges := DeepTrie(k).edges;
    assert edges[1..] == [] && [] + A == A;
    ChainExports(128, k, A, levels - 1);
    assert FlattenEdges(edges, [], levels - 1) == Flatten(ChainTrie(128, k), A, levels - 1) + [];
  }

  lemma DeepExports(k: nat, levels: nat)
    requires levels > 0
    ensures |Flatten(DeepTrie(k), [], levels)| == if levels > k + 1 then 1 else 0
    ensures |Deeper(DeepTrie(k), [], levels)| == if levels > k + 1 then 0 else 1
  {
    hide Deeper, Flatten, DeepTrie, Height;
    var t := DeepTrie(k);
    DeepHeight(k);
    DeepFlattens(k, levels);
    DeepFlattens(k, k + 2);
    FlattenMisses(t, [], levels);
    SizesAdd(Flatten(t, [], k + 2), Flatten(t, [], levels), Deeper(t, [], levels));
  }

  lemma SizesAdd<T>(whole: seq<T>, a: seq<T>, b: seq<T>)
    requires multiset(whole) == multiset(a) + multiset(b)
    ensures |whole| == |a| + |b|
  {
    assert |multiset(whole)| == |multiset(a)| + |multiset(b)|;
  }

  /** A chain of `k + 1` edges is laid out in its blob; its one export is returned if `k < 64`, else nothing is. */
  lemma DepthLimit(k: nat)
    requires k <= 2000
    ensures LaidOut(DeepBlob(k), DeepTrie(k)) && ExportsTrie(DeepBlob(k)).Ok?
    ensures |ExportsTrie(DeepBlob(k)).value| == if k < 64 then 1 else 0
    ensures Deeper(DeepTrie(k), [], 65) == [] <==> k < 64
  {
    hide At, LaidOut, LinkBytes, ChainBytes, ExportsTrie, StableSort, Flatten, Deeper;
    var data := DeepBlob(k);
    LinkSize(128);
    ChainSize(128, k);
    WholeAt(data);
    AtSplits(data, 0, LinkBytes(128), Zeros(122) + ChainBytes(128, k));
    AtSplits(data, 6, Zeros(122), ChainBytes(128, k));
    ChainLaid(data, 128, k);
    LinkLaid(data, 0, ChainTrie(128, k));
    TrieRoundTrip(data, DeepTrie(k));
    DeepExports(k, MAX_DEPTH + 1);
    SizesAdd(ExportsTrie(data).value, Flatten(DeepTrie(k), [], MAX_DEPTH + 1), []);
  }

  lemma {:induction false} ChainSize(at: nat, k: nat)
    requires 122 <= at && at + 6 * k + 6 < 16384
    ensures |ChainBytes(at, k)| == 6 * k + 4
    decreases k
  {
    hide LinkBytes;
    if k > 0 {
      LinkSize(at + 6);
      ChainSize(at + 6, k - 1);
    }
  }

  lemma WholeAt(data: Bytes)
    ensures At(data, 0, data)
  {
  }

  // ----- distinct names -----

  /** Sibling edges are non-empty and none is a prefix of another, all the way down. */
  predicate PrefixFree(t: Trie)
    decreases t, 0
  {
    EdgesPrefixFree(t.edges)
  }

  predicate EdgesPrefixFree(edges: seq<Edge>)
    decreases edges
  {
    edges == [] ||
    (edges[0].name != [] && PrefixFree(edges[0].child) && EdgesPrefixFree(edges[1..])
     && forall e :: e in edges[1..] ==> !(edges[0].name <= e.name) && !(e.name <= edges[0].name))
  }

  lemma {:induction false} NamesExtend(t: Trie, prefix: Str, levels: nat)
    ensures forall e :: e in Flatten(t, prefix, levels) ==> prefix <= e.name
    decreases t, 0
  {
    if levels > 0 {
      EdgeNamesExtend(t.edges, prefix, levels - 1);
      forall e | e in FlattenEdges(t.edges, prefix, levels - 1) ensures prefix <= e.name {
        var d :| d in t.edges && prefix + d.name <= e.name;
        assert e.name[..|prefix|] == (prefix + d.name)[..|prefix|] == prefix;
      }
    }
  }

  lemma {:induction false} EdgeNamesExtend(edges: seq<Edge>, prefix: Str, levels: nat)
    ensures forall e :: e in FlattenEdges(edges, prefix, levels) ==> exists d :: d in edges && prefix + d.name <= e.name
    decreases edges
  {
    if edges != [] {
      ValidConcat(prefix, edges[0].name);
      NamesExtend(edges[0].child, prefix + edges[0].name, levels);
      EdgeNamesExtend(edges[1..], prefix, levels);
      forall e | e in FlattenEdges(edges, prefix, levels) ensures exists d :: d in edges && prefix + d.name <= e.name {
        if e in Flatten(edges[0].child, prefix + edges[0].name, levels) {
          assert edges[0] in edges;
        } else {
          var d :| d in edges[1..] && prefix + d.name <= e.name;
          assert d in edges;
        }
      }
    }
  }

  lemma {:induction false} FlattenDistinct(t: Trie, prefix: Str, levels: nat)
    requires PrefixFree(t)
    ensures Distinct(Flatten(t, prefix, levels), NameOf)
    decreases t, 0
  {
    if levels > 0 {
      EdgesDistinct(t.edges, prefix, levels - 1);
      EdgeNamesExtend(t.edges, prefix, levels - 1);
      var below := FlattenEdges(t.edges, prefix, levels - 1);
      forall e | e in below ensures e.name != prefix {
        var d :| d in t.edges && prefix + d.name <= e.name;
        EdgeNotEmpty(t.edges, d);
      }
    }
  }

  lemma {:induction false} EdgeNotEmpty(edges: seq<Edge>, d: Edge)
    requires EdgesPrefixFree(edges) && d in edges
    ensures d.name != []
  {
    if d != edges[0] {
      EdgeNotEmpty(edges[1..], d);
    }
  }

  lemma {:induction false} EdgesDistinct(edges: seq<Edge>, prefix: Str, levels: nat)
    requires EdgesPrefixFree(edges)
    ensures Distinct(FlattenEdges(edges, prefix, levels), NameOf)
    decreases edges
  {
    if edges != [] {
      var first := edges[0].name;
      ValidConcat(prefix, first);
      var head := Flatten(edges[0].child, prefix + first, levels);
      var rest := FlattenEdges(edges[1..], prefix, levels);
      FlattenDistinct(edges[0].child, prefix + first, levels);
      NamesExtend(edges[0].child, prefix + first, levels);
      EdgesDistinct(edges[1..], prefix, levels);
      EdgeNamesExtend(edges[1..], prefix, levels);
      forall x, y | x in head && y in rest ensures x.name != y.name {
        var d :| d in edges[1..] && prefix + d.name <= y.name;
        if x.name == y.name {
          OnePrefixesOther(prefix, first, d.name, x.name);
        }
      }
      assert FlattenEdges(edges, prefix, levels) == head + rest;
    }
  }

  lemma OnePrefixesOther(p: Bytes, a: Bytes, b: Bytes, name: Bytes)
    requires p + a <= name && p + b <= name
    ensures a <= b || b <= a
  {
    assert a == name[|p|..][..|a|] && b == name[|p|..][..|b|] by {
      assert name[..|p| + |a|] == p + a && name[..|p| + |b|] == p + b;
    }
  }

  /** A prefix-free trie comes out with strictly increasing, hence pairwise distinct, names. */
  lemma ExportNamesDistinct(data: Slice, t: Trie)
    requires t.at == 0 && LaidOut(data, t) && PrefixFree(t)
    ensures ExportsTrie(data).Ok?
    ensures var r := ExportsTrie(data).value; forall i, j :: 0 <= i < j < |r| ==> Less(r[i].name, r[j].name)
  {
    hide ExportsTrie, LaidOut, PrefixFree, Flatten, StableSort, Leq;
    TrieRoundTrip(data, t);
    FlattenDistinct(t, [], MAX_DEPTH + 1);
    SortDistinct(Flatten(t, [], MAX_DEPTH + 1), NameOf);
  }
}
