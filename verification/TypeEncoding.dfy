/** encode.rs: cutting an Objective-C method encoding into its types. */
module TypeEncoding {

  predicate IsQualifier(c: char) {
    c == 'r' || c == 'n' || c == 'N' || c == 'o' || c == 'O' || c == 'R' || c == 'V' || c == 'A' || c == 'j'
  }

  predicate IsDigit(c: char) { '0' <= c <= '9' }

  /** How many qualifiers, and how many digits, lead `s`. */
  function Qualifiers(s: string): (n: nat)
    ensures n <= |s|
  {
    if s != "" && IsQualifier(s[0]) then 1 + Qualifiers(s[1..]) else 0
  }

  function Digits(s: string): (n: nat)
    ensures n <= |s|
  {
    if s != "" && IsDigit(s[0]) then 1 + Digits(s[1..]) else 0
  }

  /** How far it is through the first `c`; the whole of `s` if there is none. */
  function Through(s: string, c: char): (n: nat)
    ensures n <= |s|
  {
    if s == "" then 0 else if s[0] == c then 1 else 1 + Through(s[1..], c)
  }

  function CloserOf(open: char): char {
    if open == '{' then '}' else ')'
  }

  /** How far it is through the bracket that closes `depth` open ones; all of `s` if none does. */
  function ThroughClose(s: string, open: char, depth: nat): (n: nat)
    requires depth > 0
    ensures n <= |s|
    decreases |s|
  {
    if s == "" then 0
    else if s[0] == open then 1 + ThroughClose(s[1..], open, depth + 1)
    else if s[0] == CloserOf(open) then (if depth == 1 then 1 else 1 + ThroughClose(s[1..], open, depth - 1))
    else 1 + ThroughClose(s[1..], open, depth)
  }

  // ----- one type -----

  /** A parsed type and what the iterator has left. */
  datatype Parsed = Parsed(t: string, rest: string)

  function Cut(s: string, n: nat): Parsed
    requires n <= |s|
  {
    Parsed(s[..n], s[n..])
  }

  /** How long the type at the front of `s` is, unless it is a pointer. */
  function PlainLen(s: string): (n: nat)
    requires s != ""
    ensures 0 < n <= |s|
  {
    if s[0] == '@' then
      if |s| > 1 && s[1] == '"' then 2 + Through(s[2..], '"')
      else if |s| > 1 && s[1] == '?' then 2
      else 1
    else if s[0] == '[' then 1 + Through(s[1..], ']')
    else if s[0] == '{' || s[0] == '(' then 1 + ThroughClose(s[1..], s[0], 1)
    else if s[0] == 'b' then 1 + Digits(s[1..])
    else 1
  }

  /** `parse_one_type` behind the qualifiers. */
  function BareType(s: string): (p: Parsed)
    requires s != "" && !IsQualifier(s[0])
    ensures |p.rest| < |s| && p.t != "" && p.t[0] == s[0]
    decreases |s|, 0
  {
    if s[0] == '^' then
      var inner := OneType(s[1..]);
      Parsed("^" + inner.t, inner.rest)
    else Cut(s, PlainLen(s))
  }

  /** `parse_one_type`. */
  function OneType(s: string): (p: Parsed)
    ensures |p.rest| <= |s| && (s != "" ==> |p.rest| < |s|)
    ensures p.t == "" <==> Qualifiers(s) == |s|
    decreases |s|, 1
  {
    var u := s[Qualifiers(s)..];
    QualifiersEnd(s);
    if u == "" then Parsed("", "") else BareType(u)
  }

  lemma {:induction false} QualifiersEnd(s: string)
    ensures Qualifiers(s) < |s| ==> !IsQualifier(s[Qualifiers(s)])
  {
    if s != "" && IsQualifier(s[0]) {
      QualifiersEnd(s[1..]);
    }
  }

  // ----- the parser over a cursor -----

  method SkipQualifiers(s: string, pos: nat) returns (next: nat)
    requires pos <= |s|
    ensures next == pos + Qualifiers(s[pos..])
  {
    next := pos;
    while next < |s| && IsQualifier(s[next])
      invariant pos <= next <= |s| && next + Qualifiers(s[next..]) == pos + Qualifiers(s[pos..])
    {
      assert s[next..][1..] == s[next + 1..];
      next := next + 1;
    }
  }

  method SkipNumbers(s: string, pos: nat) returns (next: nat)
    requires pos <= |s|
    ensures next == pos + Digits(s[pos..])
  {
    next := pos;
    while next < |s| && IsDigit(s[next])
      invariant pos <= next <= |s| && next + Digits(s[next..]) == pos + Digits(s[pos..])
    {
      assert s[next..][1..] == s[next + 1..];
      next := next + 1;
    }
  }

  /** Pushing characters up to and including the first `c`. */
  method TakeThrough(s: string, pos: nat, c: char) returns (t: string, next: nat)
    requires pos <= |s|
    ensures next == pos + Through(s[pos..], c) && t == s[pos..next]
  {
    t, next := "", pos;
    while next < |s|
      invariant pos <= next <= |s| && t == s[pos..next]
      invariant next + Through(s[next..], c) == pos + Through(s[pos..], c)
    {
      assert s[next..][1..] == s[next + 1..];
      t, next := t + [s[next]], next + 1;
      if s[next - 1] == c {
        break;
      }
    }
  }

  method TakeThroughClose(s: string, pos: nat, open: char) returns (t: string, next: nat)
    requires pos <= |s|
    ensures next == pos + ThroughClose(s[pos..], open, 1) && t == s[pos..next]
  {
    var depth := 1;
    t, next := "", pos;
    while next < |s|
      invariant pos <= next <= |s| && t == s[pos..next] && depth > 0
      invariant next + ThroughClose(s[next..], open, depth) == pos + ThroughClose(s[pos..], open, 1)
    {
      var ch := s[next];
      assert s[next..][1..] == s[next + 1..];
      t, next := t + [ch], next + 1;
      if ch == open {
        depth := depth + 1;
      } else if ch == CloserOf(open) {
        if depth == 1 {
          break;
        }
        depth := depth - 1;
      }
    }
  }

  lemma CutAt(s: string, at: nat, end: nat)
    requires at <= end <= |s|
    ensures Cut(s[at..], end - at) == Parsed(s[at..end], s[end..])
  {
    assert s[at..][..end - at] == s[at..end] && s[at..][end - at..] == s[end..];
  }

  lemma TailTail(s: string, at: nat, n: nat)
    requires at + n <= |s|
    ensures s[at..][n..] == s[at + n..]
  {
  }

  method ParseOneType(s: string, pos: nat) returns (t: string, next: nat)
    requires pos <= |s|
    ensures pos <= next <= |s| && OneType(s[pos..]) == Parsed(t, s[next..])
    decreases |s| - pos, 1
  {
    hide BareType, Qualifiers;
    var at := SkipQualifiers(s, pos);
    TailTail(s, pos, at - pos);
    if at == |s| {
      return "", at;
    }
    QualifiersEnd(s[pos..]);
    t, next := ParseBareType(s, at);
  }

  /** The `match` on the first character that is no qualifier. */
  method ParseBareType(s: string, at: nat) returns (t: string, next: nat)
    requires at < |s| && !IsQualifier(s[at])
    ensures at <= next <= |s| && BareType(s[at..]) == Parsed(t, s[next..])
    decreases |s| - at, 0
  {
    hide OneType, PlainLen, Cut;
    TailTail(s, at, 1);
    if s[at] == '^' {
      t, next := ParseOneType(s, at + 1);
      t := "^" + t;
    } else {
      t, next := ParsePlain(s, at);
      CutAt(s, at, next);
    }
  }

  method ParsePlain(s: string, at: nat) returns (t: string, next: nat)
    requires at < |s|
    ensures next == at + PlainLen(s[at..]) && t == s[at..next]
  {
    hide Through, ThroughClose, Digits;
    TailTail(s, at, 1);
    match s[at] {
      case '@' =>
        t, next := ParseObject(s, at);
      case '[' =>
        t, next := TakeThrough(s, at + 1, ']');
        t := "[" + t;
      case '{' | '(' =>
        t, next := TakeThroughClose(s, at + 1, s[at]);
        t := [s[at]] + t;
      case 'b' =>
        next := SkipNumbers(s, at + 1);
        t := s[at..next];
      case _ =>
        t, next := [s[at]], at + 1;
    }
  }

  /** `@`, `@"Class"` and `@?`. */
  method ParseObject(s: string, at: nat) returns (t: string, next: nat)
    requires at < |s| && s[at] == '@'
    ensures next == at + PlainLen(s[at..]) && t == s[at..next]
  {
    hide Through;
    t, next := "@", at + 1;
    if next < |s| && s[next] == '"' {
      TailTail(s, at, 2);
      t, next := TakeThrough(s, at + 2, '"');
      t := "@\"" + t;
    } else if next < |s| && s[next] == '?' {
      t, next := t + "?", next + 1;
    }
  }

  // ----- `split_method_types` -----

  function Args(s: string): seq<string>
    decreases |s|
  {
    if s == "" then []
    else
      var p := OneType(s);
      if p.t == "" then [] else [p.t] + Args(p.rest[Digits(p.rest)..])
  }

  /** The return type and the argument types. */
  function Split(types: string): (string, seq<string>) {
    var p := OneType(types);
    (p.t, Args(p.rest[Digits(p.rest)..]))
  }

  lemma NoArgs()
    ensures Args("") == []
  {
  }

  lemma ArgsStep(s: string)
    requires s != ""
    ensures var p := OneType(s); Args(s) == if p.t == "" then [] else [p.t] + Args(p.rest[Digits(p.rest)..])
  {
    hide OneType, Digits;
  }

  method SplitMethodTypes(types: string) returns (ret: string, args: seq<string>)
    ensures (ret, args) == Split(types)
  {
    hide OneType, Digits, Args;
    var pos := 0;
    assert types[0..] == types;
    ret, pos := ParseOneType(types, pos);
    TailTail(types, pos, Digits(types[pos..]));
    pos := SkipNumbers(types, pos);
    args := [];
    ghost var all := Args(types[pos..]);
    while pos < |types|
      invariant pos <= |types| && all == args + Args(types[pos..])
      decreases |types| - pos
    {
      ArgsStep(types[pos..]);
      var t, next := ParseOneType(types, pos);
      if t == "" {
        assert args + [] == args;
        return;
      }
      TailTail(types, next, Digits(types[next..]));
      ghost var rest := Args(types[next + Digits(types[next..])..]);
      assert args + ([t] + rest) == (args + [t]) + rest;
      args := args + [t];
      pos := SkipNumbers(types, next);
    }
    NoArgs();
    assert types[pos..] == "" && args + [] == args;
  }

  // ----- parsing a parsed type again -----

  lemma {:induction false} ThroughStable(s: string, c: char)
    ensures Through(s[..Through(s, c)], c) == Through(s, c)
  {
    if s != "" && s[0] != c {
      var n := Through(s, c);
      assert s[..n][1..] == s[1..][..n - 1];
      ThroughStable(s[1..], c);
    }
  }

  lemma {:induction false} ThroughCloseStable(s: string, open: char, depth: nat)
    requires depth > 0
    ensures ThroughClose(s[..ThroughClose(s, open, depth)], open, depth) == ThroughClose(s, open, depth)
    decreases |s|
  {
    var n := ThroughClose(s, open, depth);
    if n > 1 {
      assert s[..n][1..] == s[1..][..n - 1];
      ThroughCloseStable(s[1..], open,
        if s[0] == open then depth + 1 else if s[0] == CloserOf(open) then depth - 1 else depth);
    }
  }

  lemma {:induction false} DigitsStable(s: string)
    ensures Digits(s[..Digits(s)]) == Digits(s)
  {
    var n := Digits(s);
    if n > 0 {
      assert s[..n][1..] == s[1..][..n - 1];
      DigitsStable(s[1..]);
    }
  }

  lemma PlainLenStable(s: string)
    requires s != ""
    ensures PlainLen(s[..PlainLen(s)]) == PlainLen(s)
  {
    hide Through, ThroughClose, Digits;
    var n := PlainLen(s);
    var t := s[..n];
    if s[0] == '@' {
      if |s| > 1 && s[1] == '"' {
        assert t[2..] == s[2..][..n - 2];
        ThroughStable(s[2..], '"');
      }
    } else {
      assert t[1..] == s[1..][..n - 1];
      ThroughStable(s[1..], ']');
      ThroughCloseStable(s[1..], s[0], 1);
      DigitsStable(s[1..]);
    }
  }

  /** A type that has been parsed once parses to itself, whole. */
  lemma {:induction false} ReparsesWhole(s: string)
    ensures OneType(OneType(s).t) == Parsed(OneType(s).t, "")
    decreases |s|
  {
    hide PlainLen;
    QualifiersEnd(s);
    var u := s[Qualifiers(s)..];
    if u != "" {
      var t := BareType(u).t;
      assert OneType(s) == BareType(u);
      assert Qualifiers(t) == 0 && t[0..] == t;
      if u[0] == '^' {
        ReparsesWhole(u[1..]);
        assert t == "^" + OneType(u[1..]).t;
        assert t[1..] == OneType(u[1..]).t;
      } else {
        PlainLenStable(u);
        assert t == u[..PlainLen(u)] && t[..|t|] == t && t[|t|..] == "";
      }
    }
  }

  // ----- encodings that can be written -----

  datatype Encoding =
    | Scalar(c: char)
    | Object
    | Instance(name: string)
    | Block
    | Pointer(qualifiers: string, to: Encoding)
    | FlatArray(body: string)
    | Aggregate(open: char, body: string)
    | BitField(width: string)

  /** Only `const`, `in`, `inout`, `out`, `bycopy`, `byref`, `oneway`, `_Atomic` and complex marks. */
  predicate AllQualifiers(s: string) {
    forall c :: c in s ==> c in "rnNoORVAj"
  }

  predicate AllDigits(s: string) {
    forall c :: c in s ==> c in "0123456789"
  }

  function Count(s: string, c: char): nat {
    if s == "" then 0 else (if s[0] == c then 1 else 0) + Count(s[1..], c)
  }

  /** As many closing as opening brackets, and never more closing ones in a prefix. */
  predicate Balanced(s: string, open: char) {
    var close := if open == '{' then '}' else ')';
    && Count(s, open) == Count(s, close)
    && forall k :: 0 <= k <= |s| ==> Count(s[..k], close) <= Count(s[..k], open)
  }

  /** Any character that starts nothing longer: neither qualifier nor digit, and none of `@[{(^b`. */
  predicate IsScalar(c: char) {
    c !in "rnNoORVAj" && c !in "0123456789" && c !in "@[{(^b"
  }

  predicate WellFormed(e: Encoding) {
    match e
    case Scalar(c) => IsScalar(c)
    case Object => true
    case Instance(name) => '"' !in name
    case Block => true
    case Pointer(qualifiers, to) => AllQualifiers(qualifiers) && WellFormed(to)
    case FlatArray(body) => ']' !in body
    case Aggregate(open, body) => (open == '{' || open == '(') && Balanced(body, open)
    case BitField(width) => AllDigits(width)
  }

  /** What stands behind the type is no part of it. */
  predicate Ends(e: Encoding, tail: string) {
    match e
    case Object => tail == "" || tail[0] !in "\"?"
    case BitField(_) => tail == "" || tail[0] !in "0123456789"
    case Pointer(_, to) => Ends(to, tail)
    case _ => true
  }

  /** The encoding as the compiler writes it, and as the parser reports it. */
  function Written(e: Encoding): string {
    match e
    case Scalar(c) => [c]
    case Object => "@"
    case Instance(name) => "@\"" + (name + "\"")
    case Block => "@?"
    case Pointer(qualifiers, to) => "^" + (qualifiers + Written(to))
    case FlatArray(body) => "[" + (body + "]")
    case Aggregate(open, body) => [open] + (body + (if open == '{' then "}" else ")"))
    case BitField(width) => "b" + width
  }

  function Reported(e: Encoding): string {
    match e
    case Pointer(_, to) => "^" + Reported(to)
    case _ => Written(e)
  }

  lemma {:induction false} ThroughFinds(s: string, c: char, tail: string)
    requires c !in s
    ensures Through(s + [c] + tail, c) == |s| + 1
  {
    var w := s + [c] + tail;
    if s != "" {
      assert s[0] in s && w[0] == s[0];
      assert w[1..] == s[1..] + [c] + tail;
      ThroughFinds(s[1..], c, tail);
    }
  }

  /** `depth` brackets are open; the prefixes of `s` never close the last of them, and `s` ends with one open. */
  predicate StaysOpen(s: string, open: char, depth: nat) {
    && depth + Count(s, open) == 1 + Count(s, CloserOf(open))
    && forall k :: 0 <= k <= |s| ==> Count(s[..k], CloserOf(open)) < depth + Count(s[..k], open)
  }

  lemma StaysOpenStep(s: string, open: char, depth: nat)
    requires s != "" && StaysOpen(s, open, depth) && (open == '{' || open == '(')
    ensures depth > 0
    ensures s[0] == CloserOf(open) ==> depth > 1
    ensures StaysOpen(s[1..], open, if s[0] == open then depth + 1 else if s[0] == CloserOf(open) then depth - 1 else depth)
  {
    assert s[..0] == "" && s[..1][1..] == "";
    assert Count(s[..1], CloserOf(open)) < depth + Count(s[..1], open);
    forall k | 0 <= k <= |s[1..]|
      ensures Count(s[..k + 1], open) == (if s[0] == open then 1 else 0) + Count(s[1..][..k], open)
      ensures Count(s[..k + 1], CloserOf(open))
           == (if s[0] == CloserOf(open) then 1 else 0) + Count(s[1..][..k], CloserOf(open))
    {
      assert s[..k + 1][1..] == s[1..][..k];
    }
  }

  lemma {:induction false} ThroughCloseFinds(s: string, open: char, depth: nat, tail: string)
    requires StaysOpen(s, open, depth) && (open == '{' || open == '(')
    ensures depth > 0
    ensures ThroughClose(s + [CloserOf(open)] + tail, open, depth) == |s| + 1
    decreases |s|
  {
    var w := s + [CloserOf(open)] + tail;
    if s == "" {
      assert s[..0] == "";
      assert w[0] == CloserOf(open);
    } else {
      StaysOpenStep(s, open, depth);
      assert w[0] == s[0] && w[1..] == s[1..] + [CloserOf(open)] + tail;
      ThroughCloseFinds(s[1..], open,
        if s[0] == open then depth + 1 else if s[0] == CloserOf(open) then depth - 1 else depth, tail);
    }
  }

  lemma {:induction false} QualifiersCounted(q: string, s: string)
    requires AllQualifiers(q) && (s == "" || !IsQualifier(s[0]))
    ensures Qualifiers(q + s) == |q|
  {
    if q == "" {
      assert q + s == s;
    } else {
      assert q[0] in q;
      assert (q + s)[1..] == q[1..] + s;
      QualifiersCounted(q[1..], s);
    }
  }

  lemma WrittenStart(e: Encoding)
    requires WellFormed(e)
    ensures Written(e) != "" && !IsQualifier(Written(e)[0]) && !IsDigit(Written(e)[0])
  {
  }

  /** A written type is cut off exactly in front of what is no part of it, its leading qualifiers dropped. */
  lemma {:induction false} TypeRoundTrip(qualifiers: string, e: Encoding, tail: string)
    requires AllQualifiers(qualifiers) && WellFormed(e) && Ends(e, tail)
    ensures OneType(qualifiers + Written(e) + tail) == Parsed(Reported(e), tail)
    decreases e
  {
    hide PlainLen, BareType, Balanced;
    var w := Written(e) + tail;
    WrittenStart(e);
    assert qualifiers + Written(e) + tail == qualifiers + w;
    assert w[0] == Written(e)[0];
    QualifiersCounted(qualifiers, w);
    assert (qualifiers + w)[|qualifiers|..] == w;
    BareRoundTrip(e, tail);
  }

  lemma {:induction false} BareRoundTrip(e: Encoding, tail: string)
    requires WellFormed(e) && Ends(e, tail)
    ensures var w := Written(e) + tail; !IsQualifier(w[0]) && BareType(w) == Parsed(Reported(e), tail)
    decreases e, 0
  {
    hide PlainLen, Balanced;
    var w := Written(e) + tail;
    WrittenStart(e);
    assert w[0] == Written(e)[0];
    match e {
      case Pointer(qualifiers, to) =>
        assert w[1..] == qualifiers + Written(to) + tail;
        TypeRoundTrip(qualifiers, to, tail);
      case _ =>
        PlainRoundTrip(e, tail);
        assert w[..|Written(e)|] == Written(e) && w[|Written(e)|..] == tail;
    }
  }

  lemma PlainRoundTrip(e: Encoding, tail: string)
    requires WellFormed(e) && !e.Pointer? && Ends(e, tail)
    ensures Written(e) != "" && PlainLen(Written(e) + tail) == |Written(e)|
    ensures Written(e)[0] != '^'
  {
    if e.Aggregate? {
      AggregateRoundTrip(e.open, e.body, tail);
    } else if e.Instance? || e.FlatArray? {
      DelimitedRoundTrip(e, tail);
    } else {
      SimpleRoundTrip(e, tail);
    }
  }

  lemma SimpleRoundTrip(e: Encoding, tail: string)
    requires WellFormed(e) && Ends(e, tail) && (e.Scalar? || e.Object? || e.Block? || e.BitField?)
    ensures Written(e) != "" && PlainLen(Written(e) + tail) == |Written(e)|
    ensures Written(e)[0] != '^'
  {
    hide Through, ThroughClose, Digits;
    var w := Written(e) + tail;
    match e {
      case Scalar(c) =>
        assert w[0] == c;
      case Object =>
        assert tail != "" ==> w[1] == tail[0];
      case Block =>
        assert w[0] == '@' && w[1] == '?';
      case BitField(width) =>
        assert w[0] == 'b' && w[1..] == width + tail;
        DigitsCounted(width, tail);
    }
  }

  lemma DelimitedRoundTrip(e: Encoding, tail: string)
    requires WellFormed(e) && (e.Instance? || e.FlatArray?)
    ensures Written(e) != "" && PlainLen(Written(e) + tail) == |Written(e)|
    ensures Written(e)[0] != '^'
  {
    hide Through, ThroughClose, Digits;
    var w := Written(e) + tail;
    match e {
      case Instance(name) =>
        assert w[0] == '@' && w[1] == '"' && w[2..] == name + ['"'] + tail;
        ThroughFinds(name, '"', tail);
      case FlatArray(body) =>
        assert w[0] == '[' && w[1..] == body + [']'] + tail;
        ThroughFinds(body, ']', tail);
    }
  }

  lemma AggregateRoundTrip(open: char, body: string, tail: string)
    requires (open == '{' || open == '(') && Balanced(body, open)
    ensures var e := Aggregate(open, body);
      Written(e) != "" && PlainLen(Written(e) + tail) == |Written(e)| && Written(e)[0] != '^'
  {
    hide Through, ThroughClose, Digits;
    var w := Written(Aggregate(open, body)) + tail;
    assert w[0] == open && w[1..] == body + [CloserOf(open)] + tail;
    ThroughCloseFinds(body, open, 1, tail);
  }

  /** A type whose length is all there is. */
  lemma TakesAll(s: string)
    requires s != "" && !IsQualifier(s[0]) && s[0] != '^' && PlainLen(s) == |s|
    ensures OneType(s) == Parsed(s, "")
  {
    hide PlainLen;
    assert s[0..] == s && s[..|s|] == s && s[|s|..] == "";
  }

  /** An unterminated class name or array takes everything there is, and qualifiers alone are no type. */
  lemma UnterminatedTypes(s: string)
    ensures '"' !in s ==> OneType("@\"" + s) == Parsed("@\"" + s, "")
    ensures ']' !in s ==> OneType("[" + s) == Parsed("[" + s, "")
    ensures AllQualifiers(s) ==> OneType(s) == Parsed("", "")
  {
    hide Through, OneType;
    var name, flat := "@\"" + s, "[" + s;
    assert name[2..] == s && flat[1..] == s;
    if '"' !in s {
      ThroughMisses(s, '"');
      TakesAll(name);
    }
    if ']' !in s {
      ThroughMisses(s, ']');
      TakesAll(flat);
    }
    if AllQualifiers(s) {
      OnlyQualifiers(s);
    }
  }

  lemma OnlyQualifiers(s: string)
    requires AllQualifiers(s)
    ensures OneType(s) == Parsed("", "")
  {
    QualifiersCounted(s, "");
    assert s + "" == s;
  }

  /** So does an aggregate whose bracket is never closed. */
  lemma UnterminatedAggregate(s: string, open: char)
    requires (open == '{' || open == '(') && NeverCloses(s, open)
    ensures OneType([open] + s) == Parsed([open] + s, "")
  {
    hide ThroughClose, OneType;
    var group := [open] + s;
    assert group[1..] == s;
    ThroughCloseMisses(s, open, 1);
    TakesAll(group);
  }

  /** No prefix of `s` has more closing than opening brackets: the bracket in front of it stays open. */
  predicate NeverCloses(s: string, open: char) {
    var close := if open == '{' then '}' else ')';
    forall k :: 0 <= k <= |s| ==> Count(s[..k], close) <= Count(s[..k], open)
  }

  lemma {:induction false} ThroughMisses(s: string, c: char)
    requires c !in s
    ensures Through(s, c) == |s|
  {
    if s != "" {
      ThroughMisses(s[1..], c);
    }
  }

  /** The prefixes of `s` leave at least one of `depth` brackets open. */
  predicate NeverDone(s: string, open: char, depth: nat) {
    forall k :: 0 <= k <= |s| ==> Count(s[..k], CloserOf(open)) < depth + Count(s[..k], open)
  }

  lemma {:induction false} ThroughCloseMisses(s: string, open: char, depth: nat)
    requires NeverDone(s, open, depth) && (open == '{' || open == '(')
    ensures depth > 0
    ensures ThroughClose(s, open, depth) == |s|
    decreases |s|
  {
    assert s[..0] == "";
    assert Count(s[..0], CloserOf(open)) < depth + Count(s[..0], open);
    if s != "" {
      NeverDoneStep(s, open, depth);
      ThroughCloseMisses(s[1..], open,
        if s[0] == open then depth + 1 else if s[0] == CloserOf(open) then depth - 1 else depth);
    }
  }

  lemma NeverDoneStep(s: string, open: char, depth: nat)
    requires s != "" && NeverDone(s, open, depth) && (open == '{' || open == '(')
    ensures s[0] == CloserOf(open) ==> depth > 1
    ensures depth > 0
    ensures NeverDone(s[1..], open, if s[0] == open then depth + 1 else if s[0] == CloserOf(open) then depth - 1 else depth)
  {
    assert s[..0] == "" && s[..1][1..] == "";
    assert Count(s[..0], CloserOf(open)) < depth + Count(s[..0], open);
    assert Count(s[..1], CloserOf(open)) < depth + Count(s[..1], open);
    forall k | 0 <= k <= |s[1..]|
      ensures Count(s[..k + 1], open) == (if s[0] == open then 1 else 0) + Count(s[1..][..k], open)
      ensures Count(s[..k + 1], CloserOf(open))
           == (if s[0] == CloserOf(open) then 1 else 0) + Count(s[1..][..k], CloserOf(open))
    {
      assert s[..k + 1][1..] == s[1..][..k];
    }
  }

  // ----- whole method encodings -----

  /** A type with its qualifiers, and the frame or stack offset behind it, if there is one. */
  datatype Item = Item(qualifiers: string, encoding: Encoding, offset: string)

  predicate GoodItem(i: Item) {
    AllQualifiers(i.qualifiers) && WellFormed(i.encoding) && AllDigits(i.offset)
  }

  /** Every type ends where it should: an offset behind it, or what it is written in front of, is no part of it. */
  predicate GoodItems(items: seq<Item>) {
    items == [] ||
    (GoodItem(items[0]) && Ends(items[0].encoding, items[0].offset + Signature(items[1..])) && GoodItems(items[1..]))
  }

  function Signature(items: seq<Item>): string {
    if items == [] then ""
    else items[0].qualifiers + Written(items[0].encoding) + (items[0].offset + Signature(items[1..]))
  }

  function ReportedAll(items: seq<Item>): seq<string> {
    if items == [] then [] else [Reported(items[0].encoding)] + ReportedAll(items[1..])
  }

  lemma {:induction false} DigitsCounted(d: string, s: string)
    requires AllDigits(d) && (s == "" || !IsDigit(s[0]))
    ensures Digits(d + s) == |d|
  {
    if d == "" {
      assert d + s == s;
    } else {
      assert d[0] in d;
      assert (d + s)[1..] == d[1..] + s;
      DigitsCounted(d[1..], s);
    }
  }

  lemma SignatureStart(items: seq<Item>)
    requires GoodItems(items)
    ensures items != [] ==> Signature(items) != ""
    ensures items == [] || !IsDigit(Signature(items)[0])
  {
    if items != [] {
      assert GoodItem(items[0]);
      WrittenStart(items[0].encoding);
      if items[0].qualifiers != "" {
        assert items[0].qualifiers[0] in items[0].qualifiers;
        assert Signature(items)[0] == items[0].qualifiers[0];
      } else {
        assert Signature(items)[0] == Written(items[0].encoding)[0];
      }
    }
  }

  /** Parsing the first item of a signature leaves the other items' signature behind its offset. */
  lemma FirstItem(items: seq<Item>)
    requires items != [] && GoodItems(items)
    ensures var p := OneType(Signature(items));
      p.t == Reported(items[0].encoding) && p.t != "" && p.rest[Digits(p.rest)..] == Signature(items[1..])
  {
    hide OneType, Written, WellFormed;
    var i, rest := items[0], Signature(items[1..]);
    assert GoodItem(i);
    SignatureStart(items[1..]);
    TypeRoundTrip(i.qualifiers, i.encoding, i.offset + rest);
    DigitsCounted(i.offset, rest);
    assert (i.offset + rest)[|i.offset|..] == rest;
    ReportedNotEmpty(i.encoding);
  }

  lemma ReportedNotEmpty(e: Encoding)
    ensures Reported(e) != ""
  {
  }

  lemma {:induction false} ArgsRoundTrip(items: seq<Item>)
    requires GoodItems(items)
    ensures Args(Signature(items)) == ReportedAll(items)
  {
    hide OneType, GoodItem, Written, Reported;
    SignatureStart(items);
    if items != [] {
      FirstItem(items);
      ArgsRoundTrip(items[1..]);
    }
  }

  /** Splitting a method encoding inverts writing its types one after the other. */
  lemma SplitRoundTrip(items: seq<Item>)
    requires items != [] && GoodItems(items)
    ensures Split(Signature(items)) == (Reported(items[0].encoding), ReportedAll(items[1..]))
  {
    hide OneType, GoodItem, Signature, Reported, Args, Ends;
    FirstItem(items);
    ArgsRoundTrip(items[1..]);
  }
}
