/** The wildcard matcher of lib/curl_fnmatch.c on patterns without bracket
    expressions: the backtracking loop decides membership in the language the
    pattern denotes. */
module GlobMatcher {
  import opened CText

  datatype Verdict = Match | NoMatch | Fail

  datatype Token = Star | AnyPrintable | Literal(c: char) | BadEscape | Bracket

  /** The pattern's tokens.  An escape is usable only before a printable byte. */
  function Tokens(p: string): seq<Token> {
    if p == [] then []
    else if p[0] == '*' then [Star] + Tokens(p[1..])
    else if p[0] == '?' then [AnyPrintable] + Tokens(p[1..])
    else if p[0] == '\\' then
      if |p| > 1 && IsPrint(p[1]) then [Literal(p[1])] + Tokens(p[2..]) else [BadEscape]
    else if p[0] == '[' then [Bracket]
    else [Literal(p[0])] + Tokens(p[1..])
  }

  // ----- the language of a pattern

  predicate Fits(t: Token, piece: string) {
    match t
    case Star => true
    case AnyPrintable => |piece| == 1 && IsPrint(piece[0])
    case Literal(c) => piece == [c]
    case BadEscape => false
    case Bracket => false
  }

  function Flatten(pieces: seq<string>): string {
    if pieces == [] then [] else pieces[0] + Flatten(pieces[1..])
  }

  predicate Splits(ts: seq<Token>, pieces: seq<string>, s: string) {
    |pieces| == |ts| && Flatten(pieces) == s && forall i :: 0 <= i < |ts| ==> Fits(ts[i], pieces[i])
  }

  /** `s` is made of one fitting piece for each token, in order. */
  ghost predicate InLanguage(ts: seq<Token>, s: string) {
    exists pieces :: Splits(ts, pieces, s)
  }

  /** Before any star, a non-printable byte meets "?" or a bad escape is reached. */
  ghost predicate CannotDeal(ts: seq<Token>, s: string) {
    exists k: nat :: FailsAt(ts, s, k)
  }

  predicate FailsAt(ts: seq<Token>, s: string, k: nat) {
    && k < |ts| && k <= |s|
    && (forall i :: 0 <= i < k ==> !ts[i].Star? && Fits(ts[i], [s[i]]))
    && (ts[k].BadEscape? || (ts[k].AnyPrintable? && k < |s| && !IsPrint(s[k])))
  }

  // ----- how the language decomposes

  lemma ConsSplits(t: Token, ts: seq<Token>, piece: string, s: string)
    requires Fits(t, piece) && InLanguage(ts, s)
    ensures InLanguage([t] + ts, piece + s)
  {
    var pieces :| Splits(ts, pieces, s);
    assert ([piece] + pieces)[1..] == pieces;
    assert Splits([t] + ts, [piece] + pieces, piece + s);
  }

  lemma HeadSplits(t: Token, ts: seq<Token>, s: string) returns (piece: string)
    requires InLanguage([t] + ts, s)
    ensures piece <= s && Fits(t, piece) && InLanguage(ts, s[|piece|..])
  {
    var pieces :| Splits([t] + ts, pieces, s);
    piece := pieces[0];
    assert s == piece + Flatten(pieces[1..]);
    assert s[|piece|..] == Flatten(pieces[1..]);
    assert ([t] + ts)[1..] == ts;
    assert Splits(ts, pieces[1..], s[|piece|..]);
  }

  lemma EmptyPattern(s: string)
    ensures InLanguage([], s) <==> s == []
  {
    if s == [] {
      assert Splits([], [], s);
    }
  }

  lemma OneByte(t: Token, ts: seq<Token>, s: string)
    requires t.AnyPrintable? || t.Literal?
    ensures InLanguage([t] + ts, s) <==> s != [] && Fits(t, [s[0]]) && InLanguage(ts, s[1..])
  {
    if InLanguage([t] + ts, s) {
      var piece := HeadSplits(t, ts, s);
      assert piece == [s[0]];
    }
    if s != [] && Fits(t, [s[0]]) && InLanguage(ts, s[1..]) {
      ConsSplits(t, ts, [s[0]], s[1..]);
      assert [s[0]] + s[1..] == s;
    }
  }

  lemma NoPiece(t: Token, ts: seq<Token>, s: string)
    requires t.BadEscape? || t.Bracket?
    ensures !InLanguage([t] + ts, s)
  {
    if InLanguage([t] + ts, s) {
      var piece := HeadSplits(t, ts, s);
    }
  }

  lemma StarEats(ts: seq<Token>, piece: string, s: string)
    requires piece <= s && InLanguage(ts, s[|piece|..])
    ensures InLanguage([Star] + ts, s)
  {
    ConsSplits(Star, ts, piece, s[|piece|..]);
    assert piece + s[|piece|..] == s;
  }

  /** A star is either done or eats one more byte. */
  lemma StarUnrolls(ts: seq<Token>, s: string)
    ensures InLanguage([Star] + ts, s) <==> InLanguage(ts, s) || (s != [] && InLanguage([Star] + ts, s[1..]))
  {
    if InLanguage([Star] + ts, s) {
      var piece := HeadSplits(Star, ts, s);
      if piece == [] {
        assert s[0..] == s;
      } else {
        assert s[1..][|piece| - 1..] == s[|piece|..];
        StarEats(ts, piece[1..], s[1..]);
      }
    }
    if InLanguage(ts, s) {
      assert s[0..] == s;
      StarEats(ts, [], s);
    }
    if s != [] && InLanguage([Star] + ts, s[1..]) {
      var piece := HeadSplits(Star, ts, s[1..]);
      assert s[1..][|piece|..] == s[|piece| + 1..];
      StarEats(ts, [s[0]] + piece, s);
    }
  }

  lemma StarMatchesAll(s: string)
    ensures InLanguage([Star], s)
  {
    EmptyPattern([]);
    ConsSplits(Star, [], s, []);
    assert s + [] == s && [Star] + [] == [Star];
  }

  /** Two stars in a row denote what one does. */
  lemma {:induction false} StarsCollapse(ts: seq<Token>, s: string)
    ensures InLanguage([Star] + ([Star] + ts), s) <==> InLanguage([Star] + ts, s)
    decreases |s|
  {
    StarUnrolls([Star] + ts, s);
    StarUnrolls(ts, s);
    if s != [] {
      StarsCollapse(ts, s[1..]);
    }
  }

  lemma FailsOnByte(t: Token, ts: seq<Token>, s: string)
    requires s != [] && !t.Star? && Fits(t, [s[0]])
    ensures CannotDeal([t] + ts, s) <==> CannotDeal(ts, s[1..])
  {
    var all := [t] + ts;
    assert all[1..] == ts;
    if CannotDeal(all, s) {
      var k: nat :| FailsAt(all, s, k);
      assert all[0] == t;
      assert k > 0;
      assert FailsAt(ts, s[1..], k - 1) by {
        forall i | 0 <= i < k - 1 ensures !ts[i].Star? && Fits(ts[i], [s[1..][i]]) {
          assert all[i + 1] == ts[i] && s[1..][i] == s[i + 1];
        }
      }
    }
    if CannotDeal(ts, s[1..]) {
      var k: nat :| FailsAt(ts, s[1..], k);
      assert all[k + 1] == ts[k];
      assert FailsAt(all, s, k + 1) by {
        forall i | 0 <= i < k + 1 ensures !all[i].Star? && Fits(all[i], [s[i]]) {
          if i > 0 {
            assert all[i] == ts[i - 1] && s[1..][i - 1] == s[i];
          }
        }
      }
    }
  }

  lemma NoFailAt0(t: Token, ts: seq<Token>, s: string)
    requires t.Star? || (t.AnyPrintable? && s == []) || (t.Literal? && (s == [] || s[0] != t.c))
    ensures !CannotDeal([t] + ts, s)
  {
    assert ([t] + ts)[0] == t;
  }

  lemma FailsHere(t: Token, ts: seq<Token>, s: string)
    requires t.BadEscape? || (t.AnyPrintable? && s != [] && !IsPrint(s[0]))
    ensures CannotDeal([t] + ts, s)
  {
    assert FailsAt([t] + ts, s, 0);
  }

  lemma NoFailWhenEmpty(s: string)
    ensures !CannotDeal([], s)
  {
  }

  // ----- the matcher

  predicate BracketFree(p: string) {
    Bracket !in Tokens(p)
  }

  /** The verdict is the one for these tokens and this text. */
  ghost predicate Decides(rc: Verdict, ts: seq<Token>, s: string) {
    (rc == Match <==> InLanguage(ts, s)) && (rc == Fail <==> CannotDeal(ts, s))
  }

  /** Both ask the same question. */
  ghost predicate SameVerdict(ts: seq<Token>, s: string, ts': seq<Token>, s': string) {
    (InLanguage(ts, s) <==> InLanguage(ts', s')) && (CannotDeal(ts, s) <==> CannotDeal(ts', s'))
  }

  /** The star case of loop(): stars collapse, the rest of the pattern is tried
      here, and unless that decides the matter the star takes a byte. */
  method AtStar(pattern: string, at: nat, text: string, s: nat) returns (done: bool, rc: Verdict, p: nat)
    requires NoNul(pattern) && NoNul(text) && at < |pattern| && s <= |text|
    requires pattern[at] == '*' && BracketFree(pattern[at..])
    ensures at <= p < |pattern| && BracketFree(pattern[p..])
    ensures done ==> Decides(rc, Tokens(pattern[at..]), text[s..])
    ensures !done ==> s < |text| && SameVerdict(Tokens(pattern[at..]), text[s..], Tokens(pattern[p..]), text[s + 1..])
    decreases |pattern|, 0
  {
    ghost var ss := text[s..];
    p := CollapseStars(pattern, at, ss);
    ghost var ps := pattern[p..];
    NoFailAt0(Star, Tokens(ps[1..]), ss);
    StarUnrolls(Tokens(ps[1..]), ss);
    assert ps[1..] == pattern[p + 1..];
    if s == |text| && p + 1 == |pattern| {
      EmptyPattern(ss);
      return true, Match, p;
    }
    rc := Loop(pattern[p + 1..], text[s..]);
    if rc == Match {
      return true, Match, p;
    }
    if s == |text| {
      return true, NoMatch, p;
    }
    NoFailAt0(Star, Tokens(ps[1..]), ss[1..]);
    assert ss[1..] == text[s + 1..];
    done := false;
  }

  /** A literal consumes its byte, or nothing matches. */
  lemma AtLiteral(c: char, rest: seq<Token>, text: string)
    ensures text != [] && text[0] == c ==>
            && (InLanguage([Literal(c)] + rest, text) <==> InLanguage(rest, text[1..]))
            && (CannotDeal([Literal(c)] + rest, text) <==> CannotDeal(rest, text[1..]))
    ensures text == [] || text[0] != c ==> !InLanguage([Literal(c)] + rest, text) && !CannotDeal([Literal(c)] + rest, text)
  {
    OneByte(Literal(c), rest, text);
    if text != [] && text[0] == c {
      FailsOnByte(Literal(c), rest, text);
    } else {
      NoFailAt0(Literal(c), rest, text);
    }
  }

  /** The question mark: one printable byte. */
  method AtAny(pattern: string, p: nat, text: string, s: nat) returns (done: bool, rc: Verdict)
    requires p < |pattern| && s <= |text| && pattern[p] == '?' && BracketFree(pattern[p..])
    ensures BracketFree(pattern[p + 1..])
    ensures done ==> Decides(rc, Tokens(pattern[p..]), text[s..])
    ensures !done ==> s < |text| && SameVerdict(Tokens(pattern[p..]), text[s..], Tokens(pattern[p + 1..]), text[s + 1..])
  {
    ghost var rest, ss := Tokens(pattern[p + 1..]), text[s..];
    TokensAt(pattern, p);
    OneByte(AnyPrintable, rest, ss);
    if s < |text| && IsPrint(text[s]) {
      FailsOnByte(AnyPrintable, rest, ss);
      assert ss[1..] == text[s + 1..];
      return false, NoMatch;
    } else if s == |text| {
      NoFailAt0(AnyPrintable, rest, ss);
      return true, NoMatch;
    } else {
      FailsHere(AnyPrintable, rest, ss);
      return true, Fail;
    }
  }

  /** A byte of the pattern that stands for itself, here or behind a backslash. */
  method AtByte(c: char, ghost rest: seq<Token>, text: string, s: nat) returns (done: bool)
    requires s <= |text|
    ensures done ==> Decides(NoMatch, [Literal(c)] + rest, text[s..])
    ensures !done ==> s < |text| && SameVerdict([Literal(c)] + rest, text[s..], rest, text[s + 1..])
  {
    ghost var ss := text[s..];
    AtLiteral(c, rest, ss);
    done := !(s < |text| && c == text[s]);
    assert s < |text| ==> ss[1..] == text[s + 1..];
  }

  /** The tokens from one byte of the pattern on. */
  lemma TokensAt(pattern: string, p: nat)
    requires p < |pattern| && pattern[p] != '*' && pattern[p] != '\\'
    ensures var t := if pattern[p] == '?' then AnyPrintable else Literal(pattern[p]);
            BracketFree(pattern[p..]) ==> Tokens(pattern[p..]) == [t] + Tokens(pattern[p + 1..]) && BracketFree(pattern[p + 1..])
  {
    assert pattern[p..][1..] == pattern[p + 1..];
  }

  /** The tokens from a backslash on. */
  lemma EscapeAt(pattern: string, p: nat)
    requires 0 < p <= |pattern| && pattern[p - 1] == '\\' && BracketFree(pattern[p - 1..])
    ensures if p < |pattern| && IsPrint(pattern[p])
            then Tokens(pattern[p - 1..]) == [Literal(pattern[p])] + Tokens(pattern[p + 1..]) && BracketFree(pattern[p + 1..])
            else Tokens(pattern[p - 1..]) == [BadEscape]
  {
    if p < |pattern| {
      assert pattern[p - 1..][2..] == pattern[p + 1..];
    }
  }

  /** Behind a backslash. */
  method AtEscape(pattern: string, p: nat, text: string, s: nat) returns (done: bool, rc: Verdict)
    requires 0 < p <= |pattern| && s <= |text| && pattern[p - 1] == '\\' && BracketFree(pattern[p - 1..])
    ensures done ==> Decides(rc, Tokens(pattern[p - 1..]), text[s..])
    ensures !done ==> s < |text| && p < |pattern| && BracketFree(pattern[p + 1..])
    ensures !done ==> SameVerdict(Tokens(pattern[p - 1..]), text[s..], Tokens(pattern[p + 1..]), text[s + 1..])
  {
    EscapeAt(pattern, p);
    if p < |pattern| && IsPrint(pattern[p]) {
      done := AtByte(pattern[p], Tokens(pattern[p + 1..]), text, s);
      rc := NoMatch;
    } else {
      NoPiece(BadEscape, [], text[s..]);
      FailsHere(BadEscape, [], text[s..]);
      assert [BadEscape] + [] == [BadEscape];
      return true, Fail;
    }
  }

  /** The pattern that is left: a backslash read counts until its byte is. */
  function Left(pattern: string, p: nat, backslash: bool): string
    requires p <= |pattern| && (backslash ==> p > 0)
  {
    if backslash then pattern[p - 1..] else pattern[p..]
  }

  predicate InPattern(pattern: string, p: nat, backslash: bool) {
    p <= |pattern| && (backslash ==> p > 0 && pattern[p - 1] == '\\') && BracketFree(Left(pattern, p, backslash))
  }

  /** One turn of the loop. */
  method Turn(pattern: string, text: string, p: nat, s: nat, backslash: bool)
    returns (done: bool, rc: Verdict, p': nat, s': nat, backslash': bool)
    requires NoNul(pattern) && NoNul(text) && InPattern(pattern, p, backslash) && s <= |text|
    ensures done ==> Decides(rc, Tokens(Left(pattern, p, backslash)), text[s..])
    ensures !done ==> InPattern(pattern, p', backslash') && s <= s' <= |text| && p <= p' && (p == p' ==> s < s')
    ensures !done ==> SameVerdict(Tokens(Left(pattern, p, backslash)), text[s..],
                                  Tokens(Left(pattern, p', backslash')), text[s'..])
    decreases |pattern|, 1
  {
    done, rc, p', s', backslash' := false, NoMatch, p + 1, s + 1, false;
    if backslash {
      done, rc := AtEscape(pattern, p, text, s);
    } else if p < |pattern| && pattern[p] == '*' {
      done, rc, p' := AtStar(pattern, p, text, s);
    } else if p < |pattern| && pattern[p] == '?' {
      done, rc := AtAny(pattern, p, text, s);
    } else if p == |pattern| {
      EmptyPattern(text[s..]);
      NoFailWhenEmpty(text[s..]);
      done, rc := true, if s == |text| then Match else NoMatch;
    } else if pattern[p] == '\\' {
      s', backslash' := s, true;
    } else {
      TokensAt(pattern, p);
      done := AtByte(pattern[p], Tokens(pattern[p + 1..]), text, s);
    }
  }

  /** loop(): pattern and string are C strings, so reading one past the last
      byte sees the terminator. */
  method Loop(pattern: string, text: string) returns (rc: Verdict)
    requires NoNul(pattern) && NoNul(text) && BracketFree(pattern)
    ensures rc == Match <==> InLanguage(Tokens(pattern), text)
    ensures rc == Fail <==> CannotDeal(Tokens(pattern), text)
    decreases |pattern|, 2
  {
    var p: nat, s: nat, backslash, done := 0, 0, false, false;
    rc := NoMatch;
    while !done
      invariant InPattern(pattern, p, backslash) && s <= |text|
      invariant if done then Decides(rc, Tokens(pattern), text)
                else SameVerdict(Tokens(pattern), text, Tokens(Left(pattern, p, backslash)), text[s..])
      decreases !done, |pattern| - p, |text| - s
    {
      var p', s', backslash';
      done, rc, p', s', backslash' := Turn(pattern, text, p, s, backslash);
      if !done {
        p, s, backslash := p', s', backslash';
      }
    }
  }

  /** "eliminate multiple stars": moves to the last of a run of stars. */
  method CollapseStars(pattern: string, start: nat, ghost rest: string) returns (p: nat)
    requires start < |pattern| && pattern[start] == '*' && BracketFree(pattern[start..])
    ensures start <= p < |pattern| && pattern[p] == '*' && BracketFree(pattern[p..])
    ensures p + 1 < |pattern| ==> pattern[p + 1] != '*'
    ensures InLanguage(Tokens(pattern[p..]), rest) <==> InLanguage(Tokens(pattern[start..]), rest)
    ensures CannotDeal(Tokens(pattern[p..]), rest) <==> CannotDeal(Tokens(pattern[start..]), rest)
  {
    p := start;
    while p + 1 < |pattern| && pattern[p + 1] == '*'
      invariant start <= p < |pattern| && pattern[p] == '*' && BracketFree(pattern[p..])
      invariant InLanguage(Tokens(pattern[p..]), rest) <==> InLanguage(Tokens(pattern[start..]), rest)
      invariant CannotDeal(Tokens(pattern[p..]), rest) <==> CannotDeal(Tokens(pattern[start..]), rest)
    {
      ghost var two := pattern[p..];
      assert two[1..] == pattern[p + 1..] && two[1..][1..] == two[2..];
      StarsCollapse(Tokens(two[2..]), rest);
      NoFailAt0(Star, Tokens(two[1..]), rest);
      NoFailAt0(Star, Tokens(two[2..]), rest);
      p := p + 1;
    }
  }

  /** Curl_fnmatch(): a missing pattern or string fails. */
  method Fnmatch(pattern: Option<string>, text: Option<string>) returns (rc: Verdict)
    requires pattern.Some? ==> NoNul(pattern.value) && BracketFree(pattern.value)
    requires text.Some? ==> NoNul(text.value)
    ensures rc == Match <==> pattern.Some? && text.Some? && InLanguage(Tokens(pattern.value), text.value)
    ensures rc == Fail <==> pattern.None? || text.None? || CannotDeal(Tokens(pattern.value), text.value)
  {
    if pattern.None? || text.None? {
      return Fail;
    }
    rc := Loop(pattern.value, text.value);
  }

  // ----- the language, character by character

  /** Does the pattern denote the text? */
  predicate Matches(p: string, s: string)
    decreases |p|, |s|
  {
    if p == "" then s == ""
    else if p[0] == '*' then Matches(p[1..], s) || (s != "" && Matches(p, s[1..]))
    else if p[0] == '?' then s != "" && ' ' <= s[0] <= '~' && Matches(p[1..], s[1..])
    else if p[0] == '\\' then |p| > 1 && ' ' <= p[1] <= '~' && s != "" && s[0] == p[1] && Matches(p[2..], s[1..])
    else p[0] != '[' && s != "" && s[0] == p[0] && Matches(p[1..], s[1..])
  }

  /** Is a byte or an escape met, before any star, that cannot be dealt with? */
  predicate Hopeless(p: string, s: string) {
    if p == "" || p[0] == '*' || p[0] == '[' then false
    else if p[0] == '?' then s != "" && (!(' ' <= s[0] <= '~') || Hopeless(p[1..], s[1..]))
    else if p[0] == '\\' then
      !(|p| > 1 && ' ' <= p[1] <= '~') || (s != "" && s[0] == p[1] && Hopeless(p[2..], s[1..]))
    else s != "" && s[0] == p[0] && Hopeless(p[1..], s[1..])
  }

  /** Splitting the text over the tokens says the same. */
  lemma {:induction false} LanguageIsMatches(p: string, s: string)
    ensures InLanguage(Tokens(p), s) <==> Matches(p, s)
    decreases |p|, |s|
  {
    if p == "" {
      EmptyPattern(s);
    } else if p[0] == '*' {
      StarUnrolls(Tokens(p[1..]), s);
      LanguageIsMatches(p[1..], s);
      if s != "" {
        LanguageIsMatches(p, s[1..]);
      }
    } else if p[0] == '?' {
      OneByte(AnyPrintable, Tokens(p[1..]), s);
      if s != "" {
        LanguageIsMatches(p[1..], s[1..]);
      }
    } else if p[0] == '\\' {
      EscapeIsMatches(p, s);
      if s != "" && |p| > 1 {
        LanguageIsMatches(p[2..], s[1..]);
      }
    } else if p[0] == '[' {
      assert [Bracket] + [] == [Bracket];
      NoPiece(Bracket, [], s);
    } else {
      OneByte(Literal(p[0]), Tokens(p[1..]), s);
      if s != "" {
        LanguageIsMatches(p[1..], s[1..]);
      }
    }
  }

  lemma EscapeIsMatches(p: string, s: string)
    requires p != "" && p[0] == '\\'
    ensures InLanguage(Tokens(p), s) <==>
            |p| > 1 && ' ' <= p[1] <= '~' && s != "" && s[0] == p[1] && InLanguage(Tokens(p[2..]), s[1..])
  {
    if |p| > 1 && IsPrint(p[1]) {
      OneByte(Literal(p[1]), Tokens(p[2..]), s);
    } else {
      assert [BadEscape] + [] == [BadEscape];
      NoPiece(BadEscape, [], s);
    }
  }

  lemma {:induction false} CannotDealIsHopeless(p: string, s: string)
    requires BracketFree(p)
    ensures CannotDeal(Tokens(p), s) <==> Hopeless(p, s)
    decreases |p|
  {
    if p == "" {
      NoFailWhenEmpty(s);
    } else if p[0] == '*' {
      NoFailAt0(Star, Tokens(p[1..]), s);
    } else if p[0] == '?' {
      AtAnyFails(Tokens(p[1..]), s);
      if s != "" {
        CannotDealIsHopeless(p[1..], s[1..]);
      }
    } else if p[0] == '\\' && !(|p| > 1 && IsPrint(p[1])) {
      assert [BadEscape] + [] == [BadEscape];
      FailsHere(BadEscape, [], s);
    } else {
      var k := if p[0] == '\\' then 2 else 1;
      AtLiteral(p[k - 1], Tokens(p[k..]), s);
      if s != "" {
        CannotDealIsHopeless(p[k..], s[1..]);
      }
    }
  }

  lemma AtAnyFails(rest: seq<Token>, s: string)
    ensures CannotDeal([AnyPrintable] + rest, s) <==> s != "" && (!IsPrint(s[0]) || CannotDeal(rest, s[1..]))
  {
    if s == "" {
      NoFailAt0(AnyPrintable, rest, s);
    } else if IsPrint(s[0]) {
      FailsOnByte(AnyPrintable, rest, s);
    } else {
      FailsHere(AnyPrintable, rest, s);
    }
  }

  /** Curl_fnmatch() on two strings: the three verdicts, character by character. */
  method FnmatchStrings(pattern: string, text: string) returns (rc: Verdict)
    requires NoNul(pattern) && NoNul(text) && BracketFree(pattern)
    ensures rc == Match <==> Matches(pattern, text)
    ensures rc == Fail <==> Hopeless(pattern, text)
  {
    LanguageIsMatches(pattern, text);
    CannotDealIsHopeless(pattern, text);
    rc := Fnmatch(Some(pattern), Some(text));
  }
}
