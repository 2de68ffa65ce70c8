/** Rust strings as UTF-8 byte sequences (Unicode, Table 3-7), and the NUL-terminated strings of the file formats. */
module Text {
  import opened Words
  import opened MachoError
  import opened Leb128

  predicate IsCont(b: u8) { 0x80 <= b <= 0xBF }

  /** What the second byte of a multi-byte sequence starting with `b` may be. */
  predicate IsSecond(b: u8, c: u8) {
    if b == 0xE0 then 0xA0 <= c <= 0xBF
    else if b == 0xED then 0x80 <= c <= 0x9F
    else if b == 0xF0 then 0x90 <= c <= 0xBF
    else if b == 0xF4 then 0x80 <= c <= 0x8F
    else IsCont(c)
  }

  /** How many bytes a sequence starting with `b` has; 0 when no sequence starts so. */
  function Width(b: u8): (w: nat)
    ensures w <= 4
  {
    if b < 0x80 then 1
    else if 0xC2 <= b <= 0xDF then 2
    else if 0xE0 <= b <= 0xEF then 3
    else if 0xF0 <= b <= 0xF4 then 4
    else 0
  }

  /** How many bytes at the front of `s` still fit the sequence its first byte starts. */
  function Fitting(s: Bytes): (n: nat)
    requires s != []
    ensures n <= |s| && n <= Width(s[0])
  {
    var w := Width(s[0]);
    if w <= 1 then w
    else if |s| < 2 || !IsSecond(s[0], s[1]) then 1
    else if w == 2 then 2
    else if |s| < 3 || !IsCont(s[2]) then 2
    else if w == 3 then 3
    else if |s| < 4 || !IsCont(s[3]) then 3
    else 4
  }

  /** The length of the well-formed character at the front of `s`, 0 if there is none. */
  function CharLen(s: Bytes): (n: nat)
    requires s != []
    ensures n <= |s|
  {
    if Fitting(s) == Width(s[0]) then Fitting(s) else 0
  }

  predicate ValidUtf8(s: Bytes)
    decreases |s|
  {
    s == [] || (CharLen(s) > 0 && ValidUtf8(s[CharLen(s)..]))
  }

  /** A Rust `str`. */
  type Str = s: Bytes | ValidUtf8(s) witness []

  /** `String::from_utf8_lossy`: every maximal ill-formed part becomes U+FFFD. */
  function Lossy(s: Bytes): (r: Bytes)
    decreases |s|
  {
    if s == [] then []
    else if CharLen(s) > 0 then s[..CharLen(s)] + Lossy(s[CharLen(s)..])
    else [0xEF, 0xBF, 0xBD] + Lossy(s[if Fitting(s) == 0 then 1 else Fitting(s)..])
  }

  lemma {:induction false} LossyIsStr(s: Bytes)
    ensures ValidUtf8(Lossy(s))
    ensures ValidUtf8(s) ==> Lossy(s) == s
    decreases |s|
  {
    hide CharLen, Fitting, ValidUtf8;
    if s == [] {
      EmptyIsValid();
    } else {
      ValidStep(s);
      var n := CharLen(s);
      if n > 0 {
        LossyIsStr(s[n..]);
        CharLenLocal(s, []);
        ValidPrepend(s[..n], Lossy(s[n..]));
        assert s == s[..n] + s[n..];
      } else {
        var rest := s[if Fitting(s) == 0 then 1 else Fitting(s)..];
        LossyIsStr(rest);
        ReplacementIsOne();
        ValidPrepend([0xEF, 0xBF, 0xBD], Lossy(rest));
      }
    }
  }

  lemma EmptyIsValid()
    ensures ValidUtf8([])
  {
  }

  lemma ValidStep(s: Bytes)
    requires s != []
    ensures ValidUtf8(s) <==> CharLen(s) > 0 && ValidUtf8(s[CharLen(s)..])
  {
    hide CharLen;
  }

  lemma ReplacementIsOne()
    ensures CharLen([0xEF, 0xBF, 0xBD]) == 3
  {
  }

  /** A character is recognised from its own bytes. */
  lemma CharLenLocal(s: Bytes, t: Bytes)
    requires s != [] && CharLen(s) > 0
    ensures CharLen(s + t) == CharLen(s)
    ensures CharLen(s[..CharLen(s)]) == CharLen(s)
  {
    assert forall i :: 0 <= i < |s| ==> (s + t)[i] == s[i];
  }

  lemma ValidPrepend(c: Bytes, s: Bytes)
    requires c != [] && CharLen(c) == |c| && ValidUtf8(s)
    ensures ValidUtf8(c + s)
  {
    CharLenLocal(c, s);
    assert (c + s)[|c|..] == s;
  }

  lemma {:induction false} ValidConcat(s: Bytes, t: Bytes)
    requires ValidUtf8(s) && ValidUtf8(t)
    ensures ValidUtf8(s + t)
    decreases |s|
  {
    hide CharLen, ValidUtf8;
    if s == [] {
      assert s + t == t;
    } else {
      ValidStep(s);
      ValidStep(s + t);
      var n := CharLen(s);
      ValidConcat(s[n..], t);
      CharLenLocal(s, t);
      assert (s + t)[n..] == s[n..] + t;
    }
  }

  // ----- what is UTF-8 -----

  /** A Unicode scalar value: no surrogate. */
  predicate Scalar(c: nat) {
    c <= 0x10FFFF && !(0xD800 <= c <= 0xDFFF)
  }

  /** Its encoding, six bits to a continuation byte. */
  function EncodeScalar(c: nat): (s: Bytes)
    requires Scalar(c)
    ensures s != []
  {
    if c < 0x80 then [c]
    else if c < 0x800 then [0xC0 + c / 0x40, 0x80 + c % 0x40]
    else if c < 0x1_0000 then [0xE0 + c / 0x1000, 0x80 + c / 0x40 % 0x40, 0x80 + c % 0x40]
    else [0xF0 + c / 0x4_0000, 0x80 + c / 0x1000 % 0x40, 0x80 + c / 0x40 % 0x40, 0x80 + c % 0x40]
  }

  predicate Scalars(cs: seq<nat>) {
    forall c :: c in cs ==> Scalar(c)
  }

  function EncodeAll(cs: seq<nat>): Bytes
    requires Scalars(cs)
  {
    if cs == [] then [] else EncodeScalar(cs[0]) + EncodeAll(cs[1..])
  }

  lemma EncodedThree(c: nat)
    requires Scalar(c) && 0x800 <= c < 0x1_0000
    ensures CharLen(EncodeScalar(c)) == |EncodeScalar(c)|
  {
  }

  lemma EncodedFour(c: nat)
    requires Scalar(c) && 0x1_0000 <= c
    ensures CharLen(EncodeScalar(c)) == |EncodeScalar(c)|
  {
  }

  lemma EncodedShort(c: nat)
    requires Scalar(c) && c < 0x800
    ensures CharLen(EncodeScalar(c)) == |EncodeScalar(c)|
  {
  }

  lemma EncodedIsChar(c: nat)
    requires Scalar(c)
    ensures CharLen(EncodeScalar(c)) == |EncodeScalar(c)|
  {
    hide EncodeScalar, CharLen, Scalar;
    if c < 0x800 {
      EncodedShort(c);
    } else if c < 0x1_0000 {
      EncodedThree(c);
    } else {
      EncodedFour(c);
    }
  }

  lemma TwoDigits(x: nat, y: nat)
    requires y < 0x40
    ensures (x * 0x40 + y) / 0x40 == x && (x * 0x40 + y) % 0x40 == y
  {
  }

  lemma CharOfTwo(s: Bytes) returns (c: nat)
    requires s != [] && CharLen(s) == 2
    ensures Scalar(c) && EncodeScalar(c) == s[..2]
  {
    var x: int, y: int := s[0], s[1];
    c := (x - 0xC0) * 0x40 + (y - 0x80);
  }

  lemma CharOfThree(s: Bytes) returns (c: nat)
    requires s != [] && CharLen(s) == 3
    ensures Scalar(c) && EncodeScalar(c) == s[..3]
  {
    var x: int, y: int, z: int := s[0], s[1], s[2];
    var upper := (x - 0xE0) * 0x40 + (y - 0x80);
    c := upper * 0x40 + (z - 0x80);
    TwoDigits(x - 0xE0, y - 0x80);
    TwoDigits(upper, z - 0x80);
    assert c / 0x1000 == c / 0x40 / 0x40;
  }

  lemma CharOfFour(s: Bytes) returns (c: nat)
    requires s != [] && CharLen(s) == 4
    ensures Scalar(c) && EncodeScalar(c) == s[..4]
  {
    var x: int, y: int, z: int, w: int := s[0], s[1], s[2], s[3];
    var top := (x - 0xF0) * 0x40 + (y - 0x80);
    var upper := top * 0x40 + (z - 0x80);
    c := upper * 0x40 + (w - 0x80);
    TwoDigits(x - 0xF0, y - 0x80);
    TwoDigits(top, z - 0x80);
    TwoDigits(upper, w - 0x80);
    assert c / 0x1000 == c / 0x40 / 0x40 == top;
    assert c / 0x4_0000 == c / 0x1000 / 0x40;
  }

  lemma CharIsEncoded(s: Bytes) returns (c: nat)
    requires s != [] && CharLen(s) > 0
    ensures Scalar(c) && EncodeScalar(c) == s[..CharLen(s)]
  {
    if CharLen(s) == 1 {
      c := s[0];
    } else {
      hide EncodeScalar, Scalar;
      CharLenAtMost(s);
      if CharLen(s) == 2 {
        c := CharOfTwo(s);
      } else if CharLen(s) == 3 {
        c := CharOfThree(s);
      } else {
        c := CharOfFour(s);
      }
    }
  }

  lemma CharLenAtMost(s: Bytes)
    requires s != []
    ensures CharLen(s) <= 4
  {
  }

  lemma {:induction false} EncodedIsValid(cs: seq<nat>)
    requires Scalars(cs)
    ensures ValidUtf8(EncodeAll(cs))
  {
    if cs != [] {
      EncodedIsChar(cs[0]);
      EncodedIsValid(cs[1..]);
      ValidPrepend(EncodeScalar(cs[0]), EncodeAll(cs[1..]));
    }
  }

  lemma EncodeCons(c: nat, cs: seq<nat>)
    requires Scalar(c) && Scalars(cs)
    ensures Scalars([c] + cs) && EncodeAll([c] + cs) == EncodeScalar(c) + EncodeAll(cs)
  {
    hide Scalar, EncodeScalar;
    assert ([c] + cs)[1..] == cs;
  }

  lemma FirstScalar(s: Bytes) returns (c: nat, rest: Bytes)
    requires ValidUtf8(s) && s != []
    ensures Scalar(c) && s == EncodeScalar(c) + rest && ValidUtf8(rest) && |rest| < |s|
  {
    ValidStep(s);
    hide ValidUtf8, CharLen, EncodeScalar, Scalar;
    c := CharIsEncoded(s);
    rest := s[CharLen(s)..];
  }

  lemma {:induction false} ValidIsEncoded(s: Bytes) returns (cs: seq<nat>)
    requires ValidUtf8(s)
    ensures Scalars(cs) && EncodeAll(cs) == s
    decreases |s|
  {
    cs := [];
    if s != [] {
      var c, rest := FirstScalar(s);
      hide ValidUtf8, EncodeScalar, Scalar, Scalars, EncodeAll;
      cs := ValidIsEncoded(rest);
      EncodeCons(c, cs);
      cs := [c] + cs;
    }
  }

  /** Bytes are taken for UTF-8 exactly when they encode Unicode scalar values. */
  lemma Utf8Exact(s: Bytes)
    ensures ValidUtf8(s) <==> exists cs :: Scalars(cs) && EncodeAll(cs) == s
  {
    hide ValidUtf8, EncodeAll;
    if ValidUtf8(s) {
      var cs := ValidIsEncoded(s);
    }
    if cs :| Scalars(cs) && EncodeAll(cs) == s {
      EncodedIsValid(cs);
    }
  }

  // ----- how bytes that are not UTF-8 are repaired -----

  /** `p` is the front of a scalar value's encoding of which more must follow. */
  ghost predicate Unfinished(p: Bytes) {
    p != [] && exists c: nat :: Scalar(c) && p < EncodeScalar(c)
  }

  /** No scalar value's encoding stands at the front of `s`. */
  ghost predicate IllFormed(s: Bytes) {
    forall c: nat :: Scalar(c) ==> !(EncodeScalar(c) <= s)
  }

  /** The least bytes that complete a sequence of `w` bytes of which these are the first. */
  function Completed(p: Bytes, w: nat): Bytes
    requires 0 < |p| <= w
  {
    var lowest: u8 := if p[0] == 0xE0 then 0xA0 else if p[0] == 0xF0 then 0x90 else 0x80;
    p + seq(w - |p|, i requires 0 <= i < w - |p| => if |p| + i == 1 then lowest else 0x80)
  }

  lemma FrontCompletes(s: Bytes, m: nat)
    requires s != [] && CharLen(s) == 0 && 0 < m <= Fitting(s)
    ensures Unfinished(s[..m])
  {
    var w := Width(s[0]);
    var t := Completed(s[..m], w);
    assert forall i :: 0 <= i < m ==> t[i] == s[i];
    assert CharLen(t) == w;
    var c := CharIsEncoded(t);
    assert t[..w] == t;
    assert s[..m] < t;
  }

  lemma FrontFits(s: Bytes, m: nat, c: nat)
    requires s != [] && 0 < m <= |s| && Scalar(c) && s[..m] < EncodeScalar(c)
    ensures m <= Fitting(s)
  {
    var e := EncodeScalar(c);
    EncodedIsChar(c);
    hide EncodeScalar, Scalar;
    forall i | 0 <= i < m ensures s[i] == e[i] {
      assert s[..m][i] == e[i];
    }
  }

  /** An encoded character in front of any bytes is kept. */
  lemma LossyKeeps(c: nat, rest: Bytes)
    requires Scalar(c)
    ensures Lossy(EncodeScalar(c) + rest) == EncodeScalar(c) + Lossy(rest)
  {
    var e := EncodeScalar(c);
    EncodedIsChar(c);
    hide CharLen, EncodeScalar;
    CharLenLocal(e, rest);
    assert (e + rest)[..|e|] == e && (e + rest)[|e|..] == rest;
  }

  lemma NoCharInFront(s: Bytes)
    requires s != []
    ensures IllFormed(s) ==> CharLen(s) == 0
  {
    if CharLen(s) > 0 {
      var c := CharIsEncoded(s);
      assert EncodeScalar(c) <= s;
    }
  }

  /**
   * Bytes with no character in front: the longest unfinished character, or else one byte, is replaced by one
   * U+FFFD.
   */
  lemma LossyReplaces(s: Bytes, n: nat)
    requires s != [] && IllFormed(s) && 0 < n <= |s|
    requires if Unfinished(s[..1]) then Unfinished(s[..n]) && (n == |s| || !Unfinished(s[..n + 1])) else n == 1
    ensures Lossy(s) == [0xEF, 0xBF, 0xBD] + Lossy(s[n..])
  {
    hide Fitting, EncodeScalar, Scalar;
    NoCharInFront(s);
    if Unfinished(s[..n]) {
      var c: nat :| Scalar(c) && s[..n] < EncodeScalar(c);
      FrontFits(s, n, c);
    }
    if n < |s| && n < Fitting(s) {
      FrontCompletes(s, n + 1);
    }
    if 0 < Fitting(s) {
      FrontCompletes(s, 1);
    }
  }

  // ----- ASCII -----

  /** The bytes of an ASCII text. */
  predicate Spells(b: Bytes, s: string) {
    |b| == |s| && forall i :: 0 <= i < |s| ==> b[i] == s[i] as int
  }

  lemma {:induction false} AsciiIsUtf8(b: Bytes)
    requires forall i :: 0 <= i < |b| ==> b[i] < 0x80
    ensures ValidUtf8(b)
  {
    if b != [] {
      AsciiIsUtf8(b[1..]);
    }
  }

  // ----- NUL-terminated strings -----

  predicate NulFree(s: Bytes) { 0 !in s }

  /** Where the first NUL of `s` is; its length if there is none. */
  function NulAt(s: Bytes): (n: nat)
    ensures n <= |s| && NulFree(s[..n])
    ensures n < |s| ==> s[n] == 0
  {
    if s == [] || s[0] == 0 then 0
    else
      var n := 1 + NulAt(s[1..]);
      assert s[..n] == [s[0]] + s[1..][..n - 1];
      n
  }

  lemma {:induction false} NulAtIs(s: Bytes, n: nat)
    requires n <= |s| && NulFree(s[..n])
    requires n < |s| ==> s[n] == 0
    ensures NulAt(s) == n
  {
    if n > 0 {
      assert s[0] == s[..n][0];
      assert s[1..][..n - 1] == s[..n][1..];
      NulAtIs(s[1..], n - 1);
    }
  }

  /** `from_utf8(..).unwrap_or("")`. */
  function OrEmpty(s: Bytes): Str {
    if ValidUtf8(s) then s else []
  }

  /** The string up to the NUL or the end, and how far the cursor moves. */
  function DecodeCString(s: Bytes): (r: Result<Decoded<Str>, Error>)
    ensures r.Ok? ==> 1 <= r.value.len <= |s|
  {
    if s == [] then Err(Truncated("cstring"))
    else
      var n := NulAt(s);
      Ok(Decoded(OrEmpty(s[..n]), if n < |s| then n + 1 else n))
  }

  /** dyld.rs `read_cstring`. */
  method ReadCString(data: Bytes, off: nat) returns (r: Result<Str, Error>, next: nat)
    ensures match DecodeCString(Tail(data, off))
            case Ok(d) => r == Ok(d.value) && next == off + d.len <= |data|
            case Err(e) => r == Err(e)
  {
    next := off;
    if next >= |data| {
      return Err(Truncated("cstring")), next;
    }
    var start := next;
    while next < |data| && data[next] != 0
      invariant start <= next <= |data|
      invariant 0 !in data[start..next]
    {
      next := next + 1;
    }
    ghost var s := data[start..];
    assert s[..next - start] == data[start..next];
    NulAtIs(s, next - start);
    r := Ok(OrEmpty(data[start..next]));
    if next < |data| {
      next := next + 1;
    }
  }

  /** The bytes of a string and its terminator read back as that string, whatever follows. */
  lemma CStringRoundTrip(name: Str, tail: Bytes)
    requires NulFree(name)
    ensures DecodeCString(name + [0] + tail) == Ok(Decoded(name, |name| + 1))
  {
    var s := name + [0] + tail;
    assert s[..|name|] == name;
    NulAtIs(s, |name|);
  }

  /** chained.rs `read_cstr` and symbols.rs `cstr_at`: the string at `off`, if it is UTF-8. */
  function CStrAt(data: Bytes, off: nat): Option<Str> {
    if off > |data| then None
    else
      var rest := data[off..];
      if ValidUtf8(rest[..NulAt(rest)]) then Some(rest[..NulAt(rest)]) else None
  }
}
