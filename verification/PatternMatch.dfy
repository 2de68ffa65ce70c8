/** class_dump.rs `SimpleRe`: a backtracking matcher for literals, `.` and `.*`, on ASCII text. */
module PatternMatch {

  // ----- the language of a pattern -----

  datatype Token = Literal(c: char) | AnyChar | AnyRun

  /** Reading a pattern left to right, `.*` before `.`. */
  function Tokens(pat: string): seq<Token> {
    if pat == "" then []
    else if |pat| >= 2 && pat[0] == '.' && pat[1] == '*' then [AnyRun] + Tokens(pat[2..])
    else [if pat[0] == '.' then AnyChar else Literal(pat[0])] + Tokens(pat[1..])
  }

  /** `s` is the concatenation of one string for each token. */
  ghost predicate InLanguage(tokens: seq<Token>, s: string)
    decreases |tokens|
  {
    if tokens == [] then s == ""
    else exists k :: 0 <= k <= |s| && TokenMatches(tokens[0], s[..k]) && InLanguage(tokens[1..], s[k..])
  }

  predicate TokenMatches(t: Token, s: string) {
    match t
    case Literal(c) => s == [c]
    case AnyChar => |s| == 1
    case AnyRun => true
  }

  /** Some prefix of `text` is in the language; all of it when the pattern is anchored at the end. */
  ghost predicate MatchesHere(tokens: seq<Token>, text: string, mustEnd: bool) {
    exists e :: 0 <= e <= |text| && (mustEnd ==> e == |text|) && InLanguage(tokens, text[..e])
  }

  lemma MatchIntro(tokens: seq<Token>, text: string, mustEnd: bool, e: nat)
    requires e <= |text| && (mustEnd ==> e == |text|) && InLanguage(tokens, text[..e])
    ensures MatchesHere(tokens, text, mustEnd)
  {
  }

  /** A match starts with some string for the first token and goes on with a match of the others. */
  lemma MatchSplits(t: Token, rest: seq<Token>, text: string, mustEnd: bool)
    ensures MatchesHere([t] + rest, text, mustEnd) <==>
      exists k :: 0 <= k <= |text| && TokenMatches(t, text[..k]) && MatchesHere(rest, text[k..], mustEnd)
  {
    hide TokenMatches;
    var tokens := [t] + rest;
    assert tokens[1..] == rest;
    if MatchesHere(tokens, text, mustEnd) {
      var e :| 0 <= e <= |text| && (mustEnd ==> e == |text|) && InLanguage(tokens, text[..e]);
      var s := text[..e];
      var k :| 0 <= k <= |s| && TokenMatches(tokens[0], s[..k]) && InLanguage(tokens[1..], s[k..]);
      assert s[..k] == text[..k] && s[k..] == text[k..][..e - k];
      MatchIntro(rest, text[k..], mustEnd, e - k);
    }
    if k :| 0 <= k <= |text| && TokenMatches(t, text[..k]) && MatchesHere(rest, text[k..], mustEnd) {
      var d :| 0 <= d <= |text[k..]| && (mustEnd ==> d == |text[k..]|) && InLanguage(rest, text[k..][..d]);
      var s := text[..k + d];
      assert s[..k] == text[..k] && s[k..] == text[k..][..d];
      assert InLanguage(tokens, s);
      MatchIntro(tokens, text, mustEnd, k + d);
    }
  }

  /** No tokens match the empty string only. */
  lemma NoTokens(text: string, mustEnd: bool)
    ensures MatchesHere([], text, mustEnd) <==> (mustEnd ==> text == "")
  {
    if mustEnd ==> text == "" {
      assert text[..0] == "";
      MatchIntro([], text, mustEnd, 0);
    }
  }

  /** One character must be there and fit; the match goes on behind it. */
  lemma OneChar(t: Token, rest: seq<Token>, text: string, mustEnd: bool)
    requires !t.AnyRun?
    ensures MatchesHere([t] + rest, text, mustEnd) <==>
      text != "" && (t == AnyChar || t == Literal(text[0])) && MatchesHere(rest, text[1..], mustEnd)
  {
    hide MatchesHere;
    MatchSplits(t, rest, text, mustEnd);
    if text != "" && (t == AnyChar || t == Literal(text[0])) && MatchesHere(rest, text[1..], mustEnd) {
      assert text[..1] == [text[0]];
      assert TokenMatches(t, text[..1]);
    }
  }

  /** A run may take any number of characters. */
  lemma AnyNumber(rest: seq<Token>, text: string, mustEnd: bool)
    ensures MatchesHere([AnyRun] + rest, text, mustEnd) <==>
      exists k :: 0 <= k <= |text| && MatchesHere(rest, text[k..], mustEnd)
  {
    hide MatchesHere;
    MatchSplits(AnyRun, rest, text, mustEnd);
    if k :| 0 <= k <= |text| && MatchesHere(rest, text[k..], mustEnd) {
      assert TokenMatches(AnyRun, text[..k]);
    }
  }

  /** A run at the end of the pattern matches whatever is left. */
  lemma LastRun(text: string, mustEnd: bool)
    ensures MatchesHere([AnyRun], text, mustEnd)
  {
    hide MatchesHere;
    AnyNumber([], text, mustEnd);
    NoTokens(text[|text|..], mustEnd);
    assert [AnyRun] + [] == [AnyRun];
    assert text[|text|..] == "";
    assert 0 <= |text| <= |text|;
  }

  // ----- the matcher -----

  method MatchFrom(pat: string, text: string, mustEnd: bool) returns (r: bool)
    ensures r <==> MatchesHere(Tokens(pat), text, mustEnd)
    decreases |pat|, 0
  {
    hide MatchesHere;
    var pi, ti := 0, 0;
    assert pat[0..] == pat && text[0..] == text;
    while pi < |pat|
      invariant 0 <= pi <= |pat| && 0 <= ti <= |text|
      invariant MatchesHere(Tokens(pat), text, mustEnd) <==> MatchesHere(Tokens(pat[pi..]), text[ti..], mustEnd)
      decreases |pat| - pi
    {
      ghost var p, t := pat[pi..], text[ti..];
      assert Tokens(p) ==
        if |p| >= 2 && p[0] == '.' && p[1] == '*' then [AnyRun] + Tokens(pat[pi + 2..])
        else [if p[0] == '.' then AnyChar else Literal(p[0])] + Tokens(pat[pi + 1..]);
      if pi + 1 < |pat| && pat[pi] == '.' && pat[pi + 1] == '*' {
        pi := pi + 2;
        if pi == |pat| {
          assert Tokens(pat[pi..]) == [];
          assert Tokens(p) == [AnyRun];
          LastRun(t, mustEnd);
          return true;
        }
        AnyNumber(Tokens(pat[pi..]), t, mustEnd);
        r := TryEach(pat[pi..], text, ti, mustEnd);
        return;
      }
      if pat[pi] == '.' {
        OneChar(AnyChar, Tokens(pat[pi + 1..]), t, mustEnd);
        if ti >= |text| {
          return false;
        }
        assert t[1..] == text[ti + 1..];
        pi, ti := pi + 1, ti + 1;
        continue;
      }
      OneChar(Literal(pat[pi]), Tokens(pat[pi + 1..]), t, mustEnd);
      if ti >= |text| || pat[pi] != text[ti] {
        return false;
      }
      assert t[1..] == text[ti + 1..];
      pi, ti := pi + 1, ti + 1;
    }
    assert pat[pi..] == "";
    NoTokens(text[ti..], mustEnd);
    if mustEnd {
      r := ti == |text|;
    } else {
      r := true;
    }
  }

  /** The loop behind `.*`: the rest of the pattern is tried at every position from `from` on. */
  method TryEach(pat: string, text: string, from: nat, mustEnd: bool) returns (r: bool)
    requires from <= |text|
    ensures r <==> exists k :: 0 <= k <= |text[from..]| && MatchesHere(Tokens(pat), text[from..][k..], mustEnd)
    decreases |pat|, 1
  {
    hide MatchesHere;
    var ti := from;
    while ti <= |text|
      invariant from <= ti <= |text|
      invariant forall k :: 0 <= k < ti - from ==> !MatchesHere(Tokens(pat), text[from..][k..], mustEnd)
      decreases |text| - ti
    {
      assert text[from..][ti - from..] == text[ti..];
      var found := MatchFrom(pat, text[ti..], mustEnd);
      if found {
        return true;
      }
      if ti == |text| {
        break;
      }
      ti := ti + 1;
    }
    return false;
  }

  // ----- anchors -----

  predicate AnchoredStart(pat: string) { pat != "" && pat[0] == '^' }

  predicate AnchoredEnd(pat: string) { pat != "" && pat[|pat| - 1] == '$' }

  /** The pattern without its anchors. */
  function Core(pat: string): string {
    var p := if AnchoredStart(pat) then pat[1..] else pat;
    if AnchoredEnd(pat) then p[..|p| - 1] else p
  }

  /**
   * A substring of the text is in the pattern's language; it starts at 0 if the pattern starts with `^`
   * and ends at the end if the pattern ends with `$`.
   */
  ghost predicate Matches(pat: string, text: string) {
    exists b, e :: 0 <= b <= e <= |text| && (AnchoredStart(pat) ==> b == 0) && (AnchoredEnd(pat) ==> e == |text|)
      && InLanguage(Tokens(Core(pat)), text[b..e])
  }

  lemma MatchesFromSomewhere(pat: string, text: string)
    ensures Matches(pat, text) <==>
      exists b :: 0 <= b <= |text| && (AnchoredStart(pat) ==> b == 0)
        && MatchesHere(Tokens(Core(pat)), text[b..], AnchoredEnd(pat))
  {
    hide InLanguage, Tokens, Core, AnchoredStart, AnchoredEnd;
    var tokens := Tokens(Core(pat));
    if Matches(pat, text) {
      var b, e :| 0 <= b <= e <= |text| && (AnchoredStart(pat) ==> b == 0) && (AnchoredEnd(pat) ==> e == |text|)
        && InLanguage(tokens, text[b..e]);
      assert text[b..][..e - b] == text[b..e];
      MatchIntro(tokens, text[b..], AnchoredEnd(pat), e - b);
    }
    if b :| 0 <= b <= |text| && (AnchoredStart(pat) ==> b == 0) && MatchesHere(tokens, text[b..], AnchoredEnd(pat)) {
      var d :| 0 <= d <= |text[b..]| && (AnchoredEnd(pat) ==> d == |text[b..]|) && InLanguage(tokens, text[b..][..d]);
      assert text[b..][..d] == text[b..b + d];
    }
  }

  method MatchGlobRegex(pat: string, text: string) returns (r: bool)
    ensures r <==> Matches(pat, text)
  {
    hide MatchesHere, Matches, Tokens;
    MatchesFromSomewhere(pat, text);
    var anchoredStart := pat != "" && pat[0] == '^';
    var anchoredEnd := pat != "" && pat[|pat| - 1] == '$';
    var p := pat;
    if anchoredStart {
      p := p[1..];
    }
    if anchoredEnd {
      p := p[..|p| - 1];
    }
    var candidates := if anchoredStart then [text] else seq(|text| + 1, i requires 0 <= i <= |text| => text[i..]);
    assert text[0..] == text;
    for i := 0 to |candidates|
      invariant forall b :: 0 <= b < i ==> !MatchesHere(Tokens(p), candidates[b], anchoredEnd)
    {
      var found := MatchFrom(p, candidates[i], anchoredEnd);
      if found {
        assert MatchesHere(Tokens(Core(pat)), text[i..], AnchoredEnd(pat));
        return true;
      }
      if anchoredStart {
        break;
      }
    }
    forall b | 0 <= b <= |text| && (anchoredStart ==> b == 0)
      ensures !MatchesHere(Tokens(p), text[b..], anchoredEnd)
    {
      assert candidates[b] == text[b..];
    }
    return false;
  }

  // ----- patterns written from their tokens -----

  /** What a pattern can spell: no literal dot, and no star behind a single dot. */
  predicate Writable(ts: seq<Token>) {
    && (forall i :: 0 <= i < |ts| ==> ts[i] != Literal('.'))
    && forall i :: 0 <= i < |ts| - 1 ==> !(ts[i] == AnyChar && ts[i + 1] == Literal('*'))
  }

  function Spelled(ts: seq<Token>): string {
    if ts == [] then ""
    else
      (match ts[0]
       case Literal(c) => [c]
       case AnyChar => "."
       case AnyRun => ".*")
      + Spelled(ts[1..])
  }

  lemma {:induction false} SpelledReads(ts: seq<Token>)
    requires Writable(ts)
    ensures Tokens(Spelled(ts)) == ts
  {
    if ts != [] {
      var rest := Spelled(ts[1..]);
      SpelledReads(ts[1..]);
      assert ts == [ts[0]] + ts[1..];
      match ts[0] {
        case Literal(c) =>
          assert Spelled(ts)[0] == c && Spelled(ts)[1..] == rest;
        case AnyChar =>
          assert Spelled(ts)[0] == '.' && Spelled(ts)[1..] == rest;
          SpelledStart(ts[1..]);
        case AnyRun =>
          assert Spelled(ts)[0] == '.' && Spelled(ts)[1] == '*' && Spelled(ts)[2..] == rest;
      }
    }
  }

  lemma SpelledStart(ts: seq<Token>)
    ensures ts == [] ==> Spelled(ts) == ""
    ensures ts != [] && ts[0] != Literal('*') ==> Spelled(ts) != "" && Spelled(ts)[0] != '*'
  {
  }

  /** What a pattern written from tokens and anchors matches. */
  lemma WrittenPattern(ts: seq<Token>, start: bool, end: bool, text: string)
    requires Writable(ts)
    requires !start ==> Spelled(ts) == "" || Spelled(ts)[0] != '^'
    requires !end ==> Spelled(ts) == "" || Spelled(ts)[|Spelled(ts)| - 1] != '$'
    ensures Matches((if start then "^" else "") + Spelled(ts) + (if end then "$" else ""), text)
       <==> exists b, e :: 0 <= b <= e <= |text| && (start ==> b == 0) && (end ==> e == |text|)
                           && InLanguage(ts, text[b..e])
  {
    hide InLanguage, Spelled, Tokens, Core, AnchoredStart, AnchoredEnd;
    SpelledReads(ts);
    AnchorsRead(Spelled(ts), start, end);
  }

  lemma AnchorsRead(s: string, start: bool, end: bool)
    requires !start ==> s == "" || s[0] != '^'
    requires !end ==> s == "" || s[|s| - 1] != '$'
    ensures var pat := (if start then "^" else "") + s + (if end then "$" else "");
      AnchoredStart(pat) == start && AnchoredEnd(pat) == end && Core(pat) == s
  {
    var pat := (if start then "^" else "") + s + (if end then "$" else "");
    assert AnchoredStart(pat) == start && AnchoredEnd(pat) == end;
    assert Core(pat) == s;
  }

  // ----- the shortcuts -----

  predicate StandsAt(text: string, s: string, b: nat) {
    b + |s| <= |text| && text[b..b + |s|] == s
  }

  /** `text.contains(s)`. */
  predicate Contains(text: string, s: string) {
    exists b :: 0 <= b <= |text| && StandsAt(text, s, b)
  }

  /** A pattern with none of the four metacharacters is its own only word. */
  predicate IsPlain(pat: string) {
    '.' !in pat && '*' !in pat && '^' !in pat && '$' !in pat
  }

  lemma {:induction false} PlainLanguage(pat: string, s: string)
    requires '.' !in pat
    ensures InLanguage(Tokens(pat), s) <==> s == pat
  {
    if pat != "" {
      assert pat[0] in pat;
      var tokens, rest := Tokens(pat), Tokens(pat[1..]);
      assert tokens[1..] == rest && tokens[0] == Literal(pat[0]);
      if InLanguage(tokens, s) {
        var k :| 0 <= k <= |s| && TokenMatches(tokens[0], s[..k]) && InLanguage(tokens[1..], s[k..]);
        PlainLanguage(pat[1..], s[k..]);
        assert s == s[..k] + s[k..] == [pat[0]] + pat[1..] == pat;
      }
      if s == pat {
        PlainLanguage(pat[1..], s[1..]);
        assert s[..1] == [pat[0]];
        assert TokenMatches(tokens[0], s[..1]);
      }
    }
  }

  lemma PlainHasNoAnchors(pat: string)
    requires IsPlain(pat)
    ensures !AnchoredStart(pat) && !AnchoredEnd(pat) && Core(pat) == pat
  {
    assert pat != "" ==> pat[0] in pat && pat[|pat| - 1] in pat;
  }

  lemma DotIsNotPlain(pat: string)
    requires IsPlain(pat)
    ensures '.' !in pat
  {
  }

  /** For a plain pattern, matching is being contained. */
  lemma PlainIsContains(pat: string, text: string)
    requires IsPlain(pat)
    ensures Matches(pat, text) <==> Contains(text, pat)
  {
    PlainHasNoAnchors(pat);
    DotIsNotPlain(pat);
    hide InLanguage, Tokens, Core, AnchoredStart, AnchoredEnd, IsPlain, Matches, Contains, StandsAt;
    if Contains(text, pat) {
      var b := Position(text, pat);
      PlainLanguage(pat, text[b..b + |pat|]);
      MatchesAt(pat, text, b, b + |pat|);
    }
    if Matches(pat, text) {
      var b, e := Delimited(pat, text);
      PlainLanguage(pat, text[b..e]);
      ContainsAt(text, pat, b, e);
    }
  }

  lemma Position(text: string, s: string) returns (b: nat)
    requires Contains(text, s)
    ensures b + |s| <= |text| && text[b..b + |s|] == s
  {
    b :| 0 <= b <= |text| && StandsAt(text, s, b);
  }

  lemma ContainsAt(text: string, s: string, b: nat, e: nat)
    requires b <= e <= |text| && text[b..e] == s
    ensures Contains(text, s)
  {
    assert StandsAt(text, s, b);
  }

  lemma MatchesAt(pat: string, text: string, b: nat, e: nat)
    requires b <= e <= |text| && !AnchoredStart(pat) && !AnchoredEnd(pat) && InLanguage(Tokens(Core(pat)), text[b..e])
    ensures Matches(pat, text)
  {
    hide InLanguage, Tokens, Core, AnchoredStart, AnchoredEnd;
  }

  lemma Delimited(pat: string, text: string) returns (b: nat, e: nat)
    requires Matches(pat, text)
    ensures b <= e <= |text| && InLanguage(Tokens(Core(pat)), text[b..e])
  {
    hide InLanguage, Tokens, Core, AnchoredStart, AnchoredEnd;
    b, e :| 0 <= b <= e <= |text| && (AnchoredStart(pat) ==> b == 0) && (AnchoredEnd(pat) ==> e == |text|)
      && InLanguage(Tokens(Core(pat)), text[b..e]);
  }

  /** `.*`, anchored at both ends or not at all, matches every text. */
  lemma RunMatchesAll(pat: string, text: string)
    requires pat == ".*" || pat == "^.*$"
    ensures Matches(pat, text)
  {
    hide MatchesHere, Matches;
    assert Core(pat) == ".*";
    assert ".*"[2..] == "";
    assert Tokens(".*") == [AnyRun] + Tokens(".*"[2..]) == [AnyRun];
    LastRun(text[0..], AnchoredEnd(pat));
    MatchesFromSomewhere(pat, text);
  }

  /** The shortcuts and the general matcher decide the same relation, on every pattern and text. */
  method IsMatch(pat: string, text: string) returns (r: bool)
    ensures r <==> Matches(pat, text)
  {
    if pat == ".*" || pat == "^.*$" {
      RunMatchesAll(pat, text);
      return true;
    }
    if '.' !in pat && '*' !in pat && '^' !in pat && '$' !in pat {
      PlainIsContains(pat, text);
      return Contains(text, pat);
    }
    r := MatchGlobRegex(pat, text);
  }
}
