/** Dot-segment removal of lib/dotdot.c: the two-buffer loop computes the
    algorithm of section 5.2.4 of RFC 3986. */
module DotDot {
  import opened CText

  // ----- the algorithm of RFC 3986, section 5.2.4

  /** Bytes before the next '/' (or all of them). */
  function UntilSlash(s: string): (r: string)
    ensures r <= s && '/' !in r
    ensures |r| < |s| ==> s[|r|] == '/'
  {
    if s == [] || s[0] == '/' then [] else [s[0]] + UntilSlash(s[1..])
  }

  /** The first path segment with its initial "/", if any. */
  function FirstSegment(s: string): (r: string)
    requires s != []
    ensures r != [] && r <= s
  {
    [s[0]] + UntilSlash(s[1..])
  }

  /** Removes the last segment and the "/" before it. */
  function DropLast(out: string): (r: string)
    ensures |r| <= |out| && r <= out
    ensures out != [] ==> |r| < |out|
  {
    if out == [] then []
    else if out[|out| - 1] == '/' then out[..|out| - 1]
    else DropLast(out[..|out| - 1])
  }

  /** Which of the steps 2A to 2E applies. */
  datatype Case = Strip(n: nat) | SlashDotEnd | Parent | ParentEnd | OnlyDots | Segment

  function CaseOf(input: string): (k: Case)
    ensures k.Strip? ==> 2 <= k.n <= |input|
    ensures k.Parent? ==> 4 <= |input|
    ensures k.SlashDotEnd? ==> |input| == 2
    ensures k.ParentEnd? ==> |input| == 3
  {
    if "./" <= input then Strip(2)
    else if "../" <= input then Strip(3)
    else if "/./" <= input then Strip(2)
    else if input == "/." then SlashDotEnd
    else if "/../" <= input then Parent
    else if input == "/.." then ParentEnd
    else if input == "." || input == ".." then OnlyDots
    else Segment
  }

  /** The input and output buffers after the step. */
  function RemoveStep(input: string, out: string): (r: (string, string))
    requires input != []
    ensures |r.0| < |input|
  {
    match CaseOf(input)
    case Strip(n) => (input[n..], out)
    case SlashDotEnd => ("/", out)
    case Parent => (input[3..], DropLast(out))
    case ParentEnd => ("/", DropLast(out))
    case OnlyDots => ([], out)
    case Segment => (input[|FirstSegment(input)|..], out + FirstSegment(input))
  }

  function RemoveDots(input: string, out: string): string
    decreases |input|
  {
    if input == [] then out
    else
      var (rest, moved) := RemoveStep(input, out);
      RemoveDots(rest, moved)
  }

  function PathOf(input: string): (r: string)
    ensures r <= input && '?' !in r
    ensures |r| < |input| ==> input[|r|] == '?'
  {
    if input == [] || input[0] == '?' then [] else [input[0]] + PathOf(input[1..])
  }

  function QueryOf(input: string): string {
    input[|PathOf(input)|..]
  }

  /** Path and query are the input again. */
  lemma PathAndQuery(input: string)
    ensures input == PathOf(input) + QueryOf(input)
    ensures QueryOf(input) == [] || QueryOf(input)[0] == '?'
  {
    var k := |PathOf(input)|;
    assert input == input[..k] + input[k..];
  }

  /** A path without '?', and what follows it, are found. */
  lemma PathIsFound(path: string, rest: string)
    requires '?' !in path && (rest == [] || rest[0] == '?')
    ensures PathOf(path + rest) == path && QueryOf(path + rest) == rest
  {
    var input := path + rest;
    assert input[..|path|] == path && input[|path|..] == rest;
    PathEnds(input, |path|);
  }

  function Dedotted(input: string): string {
    RemoveDots(PathOf(input), []) + QueryOf(input)
  }

  // ----- the C function

  /** strncmp(text, mem + at, |text|) == 0, for a text without NUL. */
  predicate At(mem: string, at: nat, text: string) {
    at + |text| <= |mem| && mem[at..at + |text|] == text
  }

  lemma CharAt(mem: string, at: nat, text: string, j: int)
    requires At(mem, at, text)
    ensures 0 <= j < |text| ==> mem[at + j] == text[j]
  {
    assert 0 <= j < |text| ==> mem[at..at + |text|][j] == mem[at + j];
  }

  /** No NUL lies before the terminator. */
  lemma BeforeNul(mem: string, at: nat, end: nat, j: int)
    requires at <= end <= |mem| && NoNul(mem[at..end])
    ensures at <= j < end ==> mem[j] != NUL
  {
    assert at <= j < end ==> mem[at..end][j - at] == mem[j];
  }

  /** A text without NUL ends before the terminator. */
  lemma EndsBefore(mem: string, at: nat, end: nat, text: string)
    requires at <= end < |mem| && mem[end] == NUL && NoNul(text) && At(mem, at, text)
    ensures at + |text| <= end
  {
    CharAt(mem, at, text, end - at);
  }

  /** What a prefix test on the clone says about the remaining input. */
  lemma AtMeansPrefix(mem: string, at: nat, end: nat, text: string)
    requires at <= end < |mem| && mem[end] == NUL && NoNul(mem[at..end]) && NoNul(text)
    ensures At(mem, at, text) <==> text <= mem[at..end]
    ensures At(mem, at, text + [NUL]) <==> mem[at..end] == text
  {
    var rest := mem[at..end];
    if text <= rest {
      assert mem[at..at + |text|] == text;
    }
    if At(mem, at, text) {
      EndsBefore(mem, at, end, text);
      assert rest[..|text|] == mem[at..at + |text|];
    }
    if At(mem, at, text + [NUL]) {
      assert mem[at..at + |text|] == (text + [NUL])[..|text|] == text;
      EndsBefore(mem, at, end, text);
      CharAt(mem, at, text + [NUL], |text|);
      BeforeNul(mem, at, end, at + |text|);
      assert at + |text| == end;
    }
    if rest == text {
      assert mem[at..at + |text| + 1] == text + [NUL];
    }
  }

  /** Walks `outptr` back over the last segment. */
  method RemoveLast(out: array<char>, outptr: nat) returns (p: nat)
    requires outptr < out.Length
    modifies out
    ensures p <= outptr && out[..p] == DropLast(old(out[..outptr]))
    ensures out[p] == NUL
  {
    p := outptr;
    ghost var text := out[..outptr];
    assert text[..p] == text;
    while p > 0
      invariant p <= outptr && out[..outptr] == text
      invariant DropLast(text[..p]) == DropLast(text)
    {
      p := p - 1;
      assert text[..p + 1][..p] == text[..p];
      if out[p] == '/' {
        break;
      }
    }
    assert out[..p] == text[..p];
    out[p] := NUL;
  }

  lemma {:induction false} UntilSlashEnds(s: string, k: nat)
    requires k <= |s| && (forall i :: 0 <= i < k ==> s[i] != '/') && (k < |s| ==> s[k] == '/')
    ensures UntilSlash(s) == s[..k]
  {
    if k > 0 {
      UntilSlashEnds(s[1..], k - 1);
      assert [s[0]] + s[1..][..k - 1] == s[..k];
    }
  }

  /** Copies one segment: its first byte, then up to the next '/' or NUL. */
  method MoveSegment(clone: array<char>, c: nat, ghost end: nat, out: array<char>, o: nat)
    returns (c': nat, o': nat)
    requires clone != out && c < end < clone.Length && clone[end] == NUL && NoNul(clone[c..end])
    requires o + (end - c) < out.Length
    modifies out
    ensures c < c' <= end && o' == o + (c' - c)
    ensures clone[c..c'] == FirstSegment(clone[c..end])
    ensures out[..o'] == old(out[..o]) + clone[c..c']
    ensures out[o'] == NUL
  {
    out[o] := clone[c];
    c', o' := c + 1, o + 1;
    while clone[c'] != NUL && clone[c'] != '/'
      invariant c < c' <= end && o' == o + (c' - c)
      invariant out[..o'] == old(out[..o]) + clone[c..c']
      invariant forall i :: c + 1 <= i < c' ==> clone[i] != '/'
      decreases end - c'
    {
      out[o'] := clone[c'];
      c', o' := c' + 1, o' + 1;
    }
    ghost var tail := clone[c..end][1..];
    assert c' < end ==> clone[c'] == clone[c..end][c' - c] != NUL;
    UntilSlashEnds(tail, c' - c - 1);
    out[o'] := NUL;
  }

  /** "/." and "/..": the dots are overwritten so that "/" remains. */
  method LeaveSlash(clone: array<char>, c: nat, ghost end: nat, dots: nat) returns (c': nat)
    requires 0 < dots && c + dots + 1 == end < clone.Length && clone[end] == NUL
    modifies clone
    ensures c' == c + dots && clone[c'..end] == "/" && clone[end] == NUL
  {
    clone[c + dots] := '/';
    c' := c + dots;
  }

  /** The chain of comparisons that opens each round. */
  method Classify(clone: array<char>, c: nat, ghost end: nat) returns (k: Case)
    requires c < end < clone.Length && clone[end] == NUL && NoNul(clone[c..end])
    ensures k == CaseOf(clone[c..end])
  {
    var mem := clone[..];
    Tests(mem, c, end);
    assert mem[c..end] == clone[c..end];
    k := if At(mem, c, "./") then Strip(2)
         else if At(mem, c, "../") then Strip(3)
         else if At(mem, c, "/./") then Strip(2)
         else if At(mem, c, "/." + [NUL]) then SlashDotEnd
         else if At(mem, c, "/../") then Parent
         else if At(mem, c, "/.." + [NUL]) then ParentEnd
         else if At(mem, c, "." + [NUL]) || At(mem, c, ".." + [NUL]) then OnlyDots
         else Segment;
  }

  /** Something was written, or the rest of the path will be. */
  predicate Live(moved: nat, next: char) {
    moved > 0 || next == '/'
  }

  /** What is left of a path from a slash on starts with a slash again. */
  lemma SlashStays(input: string)
    requires input != []
    ensures var k := CaseOf(input);
            && (k.Strip? && input[0] == '/' ==> k.n < |input| && input[k.n] == '/')
            && (k.Parent? ==> input[3] == '/')
            && (k.OnlyDots? ==> input[0] != '/')
  {
    if "/./" <= input {
      assert input[2] == "/./"[2];
    }
    if "/../" <= input {
      assert input[3] == "/../"[3];
    }
  }

  /** Steps A, B and D: only the input moves on. */
  method SkipDots(clone: array<char>, c: nat, ghost end: nat, k: Case) returns (c': nat, ghost end': nat)
    requires c < end < clone.Length && clone[end] == NUL && NoNul(clone[c..end])
    requires k == CaseOf(clone[c..end]) && (k.Strip? || k.SlashDotEnd? || k.OnlyDots?)
    modifies clone
    ensures c <= c' <= end' <= end && clone[end'] == NUL && end' - c' < end - c
    ensures clone[c'..end'] == RemoveStep(old(clone[c..end]), []).0
    ensures old(clone[c]) == '/' ==> clone[c'] == '/'
  {
    c', end' := c, end;
    ghost var rest := clone[c..end];
    SlashStays(rest);
    assert rest[0] == clone[c];
    if k.Strip? {
      c' := c + k.n;
      assert k.n < |rest| ==> rest[k.n] == clone[c'];
    } else if k.SlashDotEnd? {
      c' := LeaveSlash(clone, c, end, 1);
    } else {
      clone[c] := NUL;
      end' := c;
    }
  }

  /** Step C up to the output buffer: what remains starts with a slash. */
  method SkipParent(clone: array<char>, c: nat, ghost end: nat, k: Case) returns (c': nat)
    requires c < end < clone.Length && clone[end] == NUL && NoNul(clone[c..end])
    requires k == CaseOf(clone[c..end]) && (k.Parent? || k.ParentEnd?)
    modifies clone
    ensures c < c' < end && clone[end] == NUL && clone[c'] == '/'
    ensures clone[c'..end] == RemoveStep(old(clone[c..end]), []).0
  {
    ghost var rest := clone[c..end];
    SlashStays(rest);
    if k.Parent? {
      c' := c + 3;
      assert rest[3] == clone[c'];
    } else {
      c' := LeaveSlash(clone, c, end, 2);
      assert clone[c'] == clone[c'..end][0];
    }
  }

  /** What remains holds no NUL either. */
  lemma StepNoNul(input: string, out: string)
    requires input != [] && NoNul(input)
    ensures NoNul(RemoveStep(input, out).0)
  {
  }

  /** One round of the do-while loop. Whatever it writes it terminates. */
  method Round(clone: array<char>, c: nat, ghost end: nat, out: array<char>, o: nat)
    returns (c': nat, ghost end': nat, o': nat, ghost wrote: bool)
    requires clone != out && c < end < clone.Length && clone[end] == NUL && NoNul(clone[c..end])
    requires o + (end - c) < out.Length
    modifies clone, out
    ensures c <= c' <= end' <= end && clone[end'] == NUL && NoNul(clone[c'..end'])
    ensures o' + (end' - c') <= o + (end - c) && end' - c' < end - c
    ensures (clone[c'..end'], out[..o']) == RemoveStep(old(clone[c..end]), old(out[..o]))
    ensures if wrote then out[o'] == NUL else o' == o && out[..] == old(out[..])
    ensures wrote || Live(o, old(clone[c])) ==> Live(o', clone[c'])
  {
    c', end', o', wrote := c, end, o, false;
    ghost var rest := clone[c..end];
    StepNoNul(rest, out[..o]);
    var k := Classify(clone, c, end);
    if k.Segment? {
      c', o' := MoveSegment(clone, c, end, out, o);
      wrote := true;
      assert clone[c'..end] == rest[|FirstSegment(rest)|..];
    } else if k.Parent? || k.ParentEnd? {
      c' := SkipParent(clone, c, end, k);
      o' := RemoveLast(out, o);
      wrote := true;
    } else {
      c', end' := SkipDots(clone, c, end, k);
    }
  }

  /** All the comparisons of one round at once. */
  lemma Tests(mem: string, at: nat, end: nat)
    requires at <= end < |mem| && mem[end] == NUL && NoNul(mem[at..end])
    ensures var rest := mem[at..end];
            && (At(mem, at, "./") <==> "./" <= rest)
            && (At(mem, at, "../") <==> "../" <= rest)
            && (At(mem, at, "/./") <==> "/./" <= rest)
            && (At(mem, at, "/." + [NUL]) <==> rest == "/.")
            && (At(mem, at, "/../") <==> "/../" <= rest)
            && (At(mem, at, "/.." + [NUL]) <==> rest == "/..")
            && (At(mem, at, "." + [NUL]) <==> rest == ".")
            && (At(mem, at, ".." + [NUL]) <==> rest == "..")
  {
    AtMeansPrefix(mem, at, end, "./");
    AtMeansPrefix(mem, at, end, "../");
    AtMeansPrefix(mem, at, end, "/./");
    AtMeansPrefix(mem, at, end, "/.");
    AtMeansPrefix(mem, at, end, "/../");
    AtMeansPrefix(mem, at, end, "/..");
    AtMeansPrefix(mem, at, end, ".");
    AtMeansPrefix(mem, at, end, "..");
  }

  method StrChr(s: string, c: char) returns (at: Option<nat>)
    ensures at.Some? ==> at.value < |s| && s[at.value] == c && c !in s[..at.value]
    ensures at.None? ==> c !in s
  {
    var i := 0;
    while i < |s|
      invariant 0 <= i <= |s| && c !in s[..i]
    {
      if s[i] == c {
        return Some(i);
      }
      i := i + 1;
    }
    at := None;
  }

  lemma {:induction false} PathEnds(input: string, n: nat)
    requires n <= |input| && '?' !in input[..n] && (n < |input| ==> input[n] == '?')
    ensures PathOf(input) == input[..n]
  {
    if n > 0 {
      assert input[0] != '?' by { assert input[0] in input[..n]; }
      assert input[1..][..n - 1] == input[..n][1..];
      PathEnds(input[1..], n - 1);
      assert [input[0]] + input[..n][1..] == input[..n];
    }
  }

  lemma RemoveTurn(input: string, out: string)
    requires input != []
    ensures RemoveDots(input, out) == RemoveDots(RemoveStep(input, out).0, RemoveStep(input, out).1)
  {
  }

  /** The do-while loop over a clone that holds a nonempty path. */
  method RemoveAll(clone: array<char>, ghost pathEnd: nat, out: array<char>) returns (o: nat)
    requires clone != out && 0 < pathEnd < clone.Length && pathEnd < out.Length
    requires clone[pathEnd] == NUL && NoNul(clone[0..pathEnd])
    modifies clone, out
    ensures o <= pathEnd
    ensures out[..o] == RemoveDots(old(clone[0..pathEnd]), [])
    ensures if o > 0 then out[o] == NUL else out[..] == old(out[..])
  {
    var c: nat := 0;
    ghost var end: nat := pathEnd;
    o := 0;
    ghost var goal := RemoveDots(clone[0..pathEnd], []);
    assert out[..0] == [];
    while true
      invariant 0 <= c < end <= pathEnd && clone[end] == NUL && NoNul(clone[c..end])
      invariant 0 <= o && o + (end - c) <= pathEnd
      invariant RemoveDots(clone[c..end], out[..o]) == goal
      invariant out[..] == old(out[..]) || Live(o, clone[c])
      invariant o == 0 || out[o] == NUL
      decreases end - c
    {
      ghost var input, moved := clone[c..end], out[..o];
      RemoveTurn(input, moved);
      ghost var wrote;
      c, end, o, wrote := Round(clone, c, end, out, o);
      assert clone[c..end] == RemoveStep(input, moved).0 && out[..o] == RemoveStep(input, moved).1;
      assert clone[..][c..end] == clone[c..end];
      BeforeNul(clone[..], c, end, c);
      if clone[c] == NUL {
        break;
      }
    }
  }

  /** Curl_dedotdotify(): `len` is how much of the output was written. It is
      terminated unless it is empty; RemoveAll writes nothing then. */
  method Dedotdotify(input: string) returns (out: array<char>, len: nat)
    requires NoNul(input) && PathOf(input) != []
    ensures out.Length == |input| + 1 && len <= |input|
    ensures out[..len] == Dedotted(input) && (len > 0 ==> out[len] == NUL)
    ensures '?' !in input ==> out[..len] == RemoveDots(input, [])
    ensures forall k :: 0 <= k < |input| && input[k] == '?' && '?' !in input[..k] ==>
              out[..len] == RemoveDots(input[..k], []) + input[k..]
  {
    var inlen := |input|;
    out := new char[inlen + 1];
    var clone := new char[inlen + 1](i requires 0 <= i <= inlen => if i < inlen then input[i] else NUL);
    assert clone[..inlen] == input;
    var query := StrChr(input, '?');
    ghost var end := if query.Some? then query.value else inlen;
    PathEnds(input, end);
    if query.Some? {
      clone[query.value] := NUL;
    }
    assert clone[0..end] == PathOf(input);
    len := RemoveAll(clone, end, out);
    if query.Some? {
      len := AppendQuery(input, query.value, out, len);
    } else {
      assert QueryOf(input) == [];
    }
    assert input[..inlen] == input;
    forall k | 0 <= k < inlen && input[k] == '?' && '?' !in input[..k]
      ensures out[..len] == RemoveDots(input[..k], []) + input[k..]
    {
      PathEnds(input, k);
    }
  }

  /** For the path "." not even the terminator is written. */
  method DotIsNotWritten(out: array<char>)
    requires out.Length == 2
    modifies out
    ensures out[..] == old(out[..])
  {
    var clone := new char[2](i => if i == 0 then '.' else NUL);
    assert clone[0..1] == ".";
    assert RemoveStep(".", []) == ([], []);
    var o := RemoveAll(clone, 1, out);
    assert o == 0;
  }

  /** memcpy() of the query, taken from the original input. */
  method AppendQuery(input: string, oindex: nat, out: array<char>, outptr: nat) returns (len: nat)
    requires outptr <= oindex <= |input| < out.Length
    modifies out
    ensures len == outptr + (|input| - oindex)
    ensures out[..len] == old(out[..outptr]) + input[oindex..] && out[len] == NUL
  {
    forall i | 0 <= i < |input| - oindex {
      out[outptr + i] := input[oindex + i];
    }
    len := outptr + (|input| - oindex);
    out[len] := NUL;
  }
}
