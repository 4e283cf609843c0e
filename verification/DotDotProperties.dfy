/** What dot-segment removal achieves: a normal form, reached by evaluating the
    segments on a stack, and left alone by a second application. */
module DotDotProperties {
  import opened CText
  import opened DotDot

  /** The '/'-separated segments of a path. */
  function Split(s: string): (r: seq<string>)
    ensures r != []
  {
    var first := UntilSlash(s);
    if |first| == |s| then [s] else [first] + Split(s[|first| + 1..])
  }

  predicate IsDots(segment: string) {
    segment == "." || segment == ".."
  }

  /** No complete segment is "." or "..". */
  predicate Normal(s: string) {
    forall i :: 0 <= i < |Split(s)| ==> !IsDots(Split(s)[i])
  }

  lemma {:induction false} UntilSlashWhole(s: string)
    requires '/' !in s
    ensures UntilSlash(s) == s
  {
    if s != [] {
      UntilSlashWhole(s[1..]);
    }
  }

  lemma {:induction false} UntilSlashSkips(x: string, rest: string)
    requires '/' !in x
    ensures UntilSlash(x + ['/'] + rest) == x
  {
    var s := x + ['/'] + rest;
    if x != [] {
      assert s[1..] == x[1..] + ['/'] + rest;
      UntilSlashSkips(x[1..], rest);
    }
  }

  lemma SplitHead(x: string, rest: string)
    requires '/' !in x
    ensures Split(x + ['/'] + rest) == [x] + Split(rest)
  {
    UntilSlashSkips(x, rest);
    assert (x + ['/'] + rest)[|x| + 1..] == rest;
  }

  lemma SplitOne(x: string)
    requires '/' !in x
    ensures Split(x) == [x]
  {
    UntilSlashWhole(x);
  }

  /** Every text is one segment, or a segment and more after a '/'. */
  lemma Decompose(s: string) returns (x: string, more: bool, rest: string)
    ensures '/' !in x && s == (if more then x + ['/'] + rest else x)
    ensures x == UntilSlash(s)
    ensures more ==> |rest| < |s| && Split(s) == [x] + Split(rest)
    ensures !more ==> Split(s) == [x]
  {
    x := UntilSlash(s);
    more := |x| < |s|;
    rest := if more then s[|x| + 1..] else [];
    if more {
      assert s == x + ['/'] + rest;
    }
  }

  lemma Reassociate(x: string, rest: string, y: string)
    ensures x + ['/'] + rest + ['/'] + y == x + ['/'] + (rest + ['/'] + y)
  {
  }

  lemma {:induction false} SplitAppend(s: string, y: string)
    requires '/' !in y
    ensures Split(s + ['/'] + y) == Split(s) + [y]
    decreases |s|
  {
    var x, more, rest := Decompose(s);
    if more {
      SplitAppend(rest, y);
      Reassociate(x, rest, y);
      SplitHead(x, rest + ['/'] + y);
      assert [x] + (Split(rest) + [y]) == [x] + Split(rest) + [y];
    } else {
      SplitHead(s, y);
      SplitOne(y);
    }
  }

  lemma {:induction false} DropLastOf(s: string, y: string)
    requires '/' !in y
    ensures DropLast(s + ['/'] + y) == s
  {
    var all := s + ['/'] + y;
    if y == [] {
      assert all[..|all| - 1] == s;
    } else {
      assert all[|all| - 1] == y[|y| - 1] && y[|y| - 1] in y;
      assert all[..|all| - 1] == s + ['/'] + y[..|y| - 1];
      DropLastOf(s, y[..|y| - 1]);
    }
  }

  lemma {:induction false} DropLastBare(s: string)
    requires '/' !in s
    ensures DropLast(s) == []
  {
    if s != [] {
      assert s[|s| - 1] in s;
      DropLastBare(s[..|s| - 1]);
    }
  }

  /** The same text seen from its end. */
  lemma {:induction false} LastSegment(s: string) returns (before: string, more: bool, y: string)
    ensures '/' !in y && s == (if more then before + ['/'] + y else y)
    decreases |s|
  {
    if s == [] {
      before, more, y := [], false, [];
    } else if s[|s| - 1] == '/' {
      before, more, y := s[..|s| - 1], true, [];
    } else {
      before, more, y := LastSegment(s[..|s| - 1]);
      y := y + [s[|s| - 1]];
    }
  }

  lemma DropLastNormal(out: string)
    requires Normal(out)
    ensures Normal(DropLast(out))
  {
    var before, more, y := LastSegment(out);
    if more {
      DropLastOf(before, y);
      SplitAppend(before, y);
      forall i | 0 <= i < |Split(before)| ensures !IsDots(Split(before)[i]) {
        assert Split(out)[i] == Split(before)[i];
      }
    } else {
      DropLastBare(out);
      SplitOne([]);
    }
  }

  /** The input starts with '/', or nothing was output yet. */
  predicate Joint(input: string, out: string) {
    input == [] || input[0] == '/' || out == []
  }

  lemma AppendNormal(out: string, x: string)
    requires '/' !in x && !IsDots(x) && Normal(out)
    ensures Normal(out + ['/'] + x)
  {
    SplitAppend(out, x);
  }

  /** A segment that follows a '/' is appended as one more segment. */
  lemma SlashSegmentMoved(input: string, out: string)
    requires input != [] && input[0] == '/' && CaseOf(input).Segment? && Normal(out)
    ensures Normal(out + FirstSegment(input))
  {
    var x := UntilSlash(input[1..]);
    if IsDots(UntilSlash(input[1..])) {
      DotsAfterSlash(input);
    }
    AppendNormal(out, x);
    assert out + ['/'] + x == out + FirstSegment(input);
  }

  lemma BareSegmentMoved(input: string)
    requires input != [] && input[0] != '/' && CaseOf(input).Segment?
    ensures Normal(FirstSegment(input))
  {
    if IsDots(FirstSegment(input)) {
      DotsAtStart(input);
    }
    SplitOne(FirstSegment(input));
  }

  lemma AfterFirstSegment(input: string)
    requires input != []
    ensures var rest := input[|FirstSegment(input)|..]; rest == [] || rest[0] == '/'
  {
    var x := UntilSlash(input[1..]);
    assert |x| < |input[1..]| ==> input[1..][|x|] == input[|x| + 1];
  }

  /** What is moved is never a dot segment. */
  lemma SegmentMoved(input: string, out: string)
    requires input != [] && CaseOf(input).Segment? && Joint(input, out) && Normal(out)
    ensures Normal(out + FirstSegment(input))
    ensures Joint(input[|FirstSegment(input)|..], out + FirstSegment(input))
  {
    AfterFirstSegment(input);
    if input[0] == '/' {
      SlashSegmentMoved(input, out);
    } else {
      BareSegmentMoved(input);
      assert out + FirstSegment(input) == FirstSegment(input);
    }
  }

  /** Dots behind a slash are no ordinary segment. */
  lemma DotsAfterSlash(input: string)
    requires input != [] && input[0] == '/' && IsDots(UntilSlash(input[1..]))
    ensures !CaseOf(input).Segment?
  {
    if UntilSlash(input[1..]) == "." {
      assert input[..2] == "/.";
      assert |input| > 2 ==> input[..3] == "/./";
    } else {
      assert input[..3] == "/..";
      assert |input| > 3 ==> input[..4] == "/../";
    }
  }

  lemma DotsAtStart(input: string)
    requires input != [] && input[0] != '/' && IsDots(FirstSegment(input))
    ensures !CaseOf(input).Segment?
  {
    if FirstSegment(input) == "." {
      assert |input| > 1 ==> input[..2] == "./";
    } else {
      assert input[1..][..1] == ".";
      assert |input| > 2 ==> input[..3] == "../";
    }
  }

  /** No step brings a dot segment into the output. */
  lemma StepNormal(input: string, out: string)
    requires input != [] && Joint(input, out) && Normal(out)
    ensures var (rest, moved) := RemoveStep(input, out); Joint(rest, moved) && Normal(moved)
  {
    if CaseOf(input).Segment? {
      SegmentMoved(input, out);
    } else if CaseOf(input).Parent? || CaseOf(input).ParentEnd? {
      DropLastNormal(out);
    }
  }

  lemma {:induction false} RemoveDotsNormal(input: string, out: string)
    requires Joint(input, out) && Normal(out)
    ensures Normal(RemoveDots(input, out))
    decreases |input|
  {
    if input != [] {
      StepNormal(input, out);
      var (rest, moved) := RemoveStep(input, out);
      RemoveDotsNormal(rest, moved);
    }
  }

  /** The result has no "." or ".." segment, whatever the path. */
  lemma ResultIsNormal(path: string)
    ensures Normal(RemoveDots(path, []))
  {
    SplitOne([]);
    RemoveDotsNormal(path, []);
  }

  // ----- a second application changes nothing

  /** No complete segment of the input that is still to be read is a dot
      segment; a leading '/' only separates. */
  predicate Clean(input: string) {
    Normal(Body(input))
  }

  lemma CleanMeansSegment(input: string)
    requires input != [] && Clean(input)
    ensures CaseOf(input).Segment?
  {
    var body := if input[0] == '/' then input[1..] else input;
    var x, more, rest := Decompose(body);
    assert Split(body)[0] == x && !IsDots(x);
    if !CaseOf(input).Segment? {
      DotCases(input, body);
    }
  }

  lemma DotCases(input: string, body: string)
    requires input != [] && !CaseOf(input).Segment?
    requires body == if input[0] == '/' then input[1..] else input
    ensures IsDots(UntilSlash(body))
  {
    if "./" <= body {
      assert body == "." + ['/'] + body[2..];
      UntilSlashSkips(".", body[2..]);
    } else if "../" <= body {
      assert body == ".." + ['/'] + body[3..];
      UntilSlashSkips("..", body[3..]);
    } else {
      assert body == "." || body == "..";
      UntilSlashWhole(body);
    }
  }

  /** The text whose segments `Clean` looks at. */
  function Body(input: string): string {
    if input != [] && input[0] == '/' then input[1..] else input
  }

  lemma FirstSegmentOfBody(input: string)
    requires input != []
    ensures FirstSegment(input) == (if input[0] == '/' then ['/'] else []) + UntilSlash(Body(input))
  {
  }

  lemma NormalTail(x: string, tail: string)
    requires '/' !in x && Normal(x + ['/'] + tail)
    ensures Normal(tail)
  {
    SplitHead(x, tail);
    forall i | 0 <= i < |Split(tail)| ensures !IsDots(Split(tail)[i]) {
      assert Split(x + ['/'] + tail)[i + 1] == Split(tail)[i];
    }
  }

  lemma LeadAndBody(input: string)
    requires input != []
    ensures input == (if input[0] == '/' then ['/'] else []) + Body(input)
  {
  }

  /** What is left after the first segment, seen from the body. */
  lemma RestOfBody(input: string) returns (x: string, more: bool, tail: string)
    requires input != []
    ensures '/' !in x && Body(input) == (if more then x + ['/'] + tail else x)
    ensures input[|FirstSegment(input)|..] == if more then ['/'] + tail else []
  {
    FirstSegmentOfBody(input);
    x, more, tail := Decompose(Body(input));
    LeadAndBody(input);
    BehindTwo(input, if input[0] == '/' then ['/'] else [], Body(input), x, more, tail);
  }

  lemma BehindTwo(whole: string, lead: string, body: string, x: string, more: bool, tail: string)
    requires whole == lead + body && body == if more then x + ['/'] + tail else x
    ensures whole[|lead + x|..] == if more then ['/'] + tail else []
  {
    var k := |lead + x|;
    assert whole[k..] == body[|x|..];
  }

  lemma CleanRest(input: string)
    requires input != [] && Clean(input)
    ensures Clean(input[|FirstSegment(input)|..])
  {
    var x, more, tail := RestOfBody(input);
    if more {
      NormalTail(x, tail);
      assert Body(['/'] + tail) == tail;
    } else {
      SplitOne([]);
    }
  }

  lemma CleanStep(input: string, out: string)
    requires input != [] && Clean(input)
    ensures var (rest, moved) := RemoveStep(input, out);
            Clean(rest) && moved + rest == out + input
  {
    CleanMeansSegment(input);
    SegmentStep(input, out);
    CleanRest(input);
  }

  lemma SegmentStep(input: string, out: string)
    requires input != [] && CaseOf(input).Segment?
    ensures var segment := FirstSegment(input);
            RemoveStep(input, out) == (input[|segment|..], out + segment) && out + segment + input[|segment|..] == out + input
  {
    var segment := FirstSegment(input);
    assert input == segment + input[|segment|..];
  }

  lemma {:induction false} CleanIsKept(input: string, out: string)
    requires Clean(input)
    ensures RemoveDots(input, out) == out + input
    decreases |input|
  {
    if input == [] {
      assert out + input == out;
    } else {
      CleanStep(input, out);
      var (rest, moved) := RemoveStep(input, out);
      CleanIsKept(rest, moved);
    }
  }

  lemma NormalIsClean(s: string)
    requires Normal(s)
    ensures Clean(s)
  {
    if s != [] && s[0] == '/' {
      assert s == [] + ['/'] + s[1..];
      SplitHead([], s[1..]);
      forall i | 0 <= i < |Split(s[1..])| ensures !IsDots(Split(s[1..])[i]) {
        assert Split(s)[i + 1] == Split(s[1..])[i];
      }
    }
  }

  predicate NoQuery(s: string) {
    forall i :: 0 <= i < |s| ==> s[i] != '?'
  }

  lemma {:induction false} RemoveDotsNoQuery(input: string, out: string)
    requires NoQuery(input) && NoQuery(out)
    ensures NoQuery(RemoveDots(input, out))
    decreases |input|
  {
    if input != [] {
      var (rest, moved) := RemoveStep(input, out);
      RemoveDotsNoQuery(rest, moved);
    }
  }

  lemma {:induction false} PathNoQuery(input: string)
    ensures NoQuery(PathOf(input))
  {
    if input != [] && input[0] != '?' {
      PathNoQuery(input[1..]);
    }
  }

  /** The path of a result is the cleaned path, its query the original query. */
  lemma ResultParts(input: string)
    ensures PathOf(Dedotted(input)) == RemoveDots(PathOf(input), [])
    ensures QueryOf(Dedotted(input)) == QueryOf(input)
  {
    var path := RemoveDots(PathOf(input), []);
    PathNoQuery(input);
    RemoveDotsNoQuery(PathOf(input), []);
    var result := path + QueryOf(input);
    assert result[..|path|] == path;
    PathEnds(result, |path|);
  }

  /** A path is cleaned, and a query behind it kept verbatim. */
  lemma QueryIsKept(path: string, query: string)
    requires '?' !in path
    ensures Dedotted(path + (['?'] + query)) == RemoveDots(path, []) + (['?'] + query)
    ensures Dedotted(path) == RemoveDots(path, [])
  {
    RestIsKept(path, ['?'] + query);
    RestIsKept(path, []);
    assert path + [] == path;
  }

  lemma RestIsKept(path: string, rest: string)
    requires '?' !in path && (rest == [] || rest[0] == '?')
    ensures Dedotted(path + rest) == RemoveDots(path, []) + rest
    ensures rest == [] ==> RemoveDots(path, []) + rest == RemoveDots(path, [])
  {
    PathIsFound(path, rest);
  }

  /** Applying the function twice equals applying it once, query included. */
  lemma Idempotent(input: string)
    ensures Dedotted(Dedotted(input)) == Dedotted(input)
  {
    ResultParts(input);
    var path := RemoveDots(PathOf(input), []);
    ResultIsNormal(PathOf(input));
    NormalIsClean(path);
    CleanIsKept(path, []);
    assert [] + path == path;
  }

  // ----- evaluation on a stack of segments

  function Join(stack: seq<string>): string {
    if stack == [] then [] else Join(stack[..|stack| - 1]) + ['/'] + stack[|stack| - 1]
  }

  function Pop(stack: seq<string>): seq<string> {
    if stack == [] then [] else stack[..|stack| - 1]
  }

  /** "." keeps the stack, ".." pops it, anything else is pushed; a final dot
      segment leaves an empty segment, so that the path ends in "/". */
  function Eval(segments: seq<string>, stack: seq<string>): seq<string> {
    if segments == [] then stack
    else
      var s, last := segments[0], |segments| == 1;
      var next := Move(s, stack);
      Eval(segments[1..], if last && IsDots(s) then next + [""] else next)
  }

  predicate NoSlashes(stack: seq<string>) {
    forall i :: 0 <= i < |stack| ==> '/' !in stack[i]
  }

  lemma JoinPush(stack: seq<string>, s: string)
    ensures Join(stack + [s]) == Join(stack) + ['/'] + s
  {
    assert (stack + [s])[..|stack|] == stack;
  }

  /** What one segment does to the stack. */
  function Move(x: string, stack: seq<string>): seq<string> {
    if x == "." then stack else if x == ".." then Pop(stack) else stack + [x]
  }

  lemma StartsWithSlash(input: string)
    requires input != [] && input[0] == '/'
    ensures !("./" <= input) && !("../" <= input)
  {
    assert "./"[0] == '.' && "../"[0] == '.';
  }

  lemma DotSlashStep(rest: string, out: string)
    ensures RemoveStep(['/'] + "." + ['/'] + rest, out) == (['/'] + rest, out)
    ensures RemoveStep(['/'] + ".." + ['/'] + rest, out) == (['/'] + rest, DropLast(out))
  {
    var one := ['/'] + "." + ['/'] + rest;
    StartsWithSlash(one);
    assert one[..3] == "/./" && one[2..] == ['/'] + rest;
    var two := ['/'] + ".." + ['/'] + rest;
    StartsWithSlash(two);
    assert two[..4] == "/../" && two[3..] == ['/'] + rest;
    assert two[2] == '.' && "/./"[2] == '/';
    assert CaseOf(two).Parent?;
  }

  lemma PushStep(x: string, rest: string, out: string)
    requires '/' !in x && !IsDots(x)
    ensures RemoveStep(['/'] + x + ['/'] + rest, out) == (['/'] + rest, out + ['/'] + x)
  {
    var input := ['/'] + x + ['/'] + rest;
    assert input[1..] == x + ['/'] + rest;
    UntilSlashSkips(x, rest);
    NotDots(input, x);
    var segment := FirstSegment(input);
    assert segment == ['/'] + x;
    assert input[|segment|..] == ['/'] + rest;
    assert out + segment == out + ['/'] + x;
  }

  lemma JoinPopBehind(base: string, stack: seq<string>)
    requires '/' !in base && NoSlashes(stack)
    ensures DropLast(base + Join(stack)) == if stack == [] then "" else base + Join(Pop(stack))
  {
    if stack == [] {
      DropLastBare(base);
      assert base + Join(stack) == base;
    } else {
      var y := stack[|stack| - 1];
      DropLastOf(base + Join(Pop(stack)), y);
      Associate(base, Join(Pop(stack)), ['/'], y);
    }
  }

  /** What a segment leaves of the text under the stack: ".." takes it once the
      stack is empty. */
  function Under(x: string, base: string, stack: seq<string>): string {
    if x == ".." && stack == [] then "" else base
  }

  lemma MovePops(base: string, stack: seq<string>)
    requires '/' !in base && NoSlashes(stack)
    ensures DropLast(base + Join(stack)) == Under("..", base, stack) + Join(Move("..", stack))
  {
    JoinPopBehind(base, stack);
    assert stack == [] ==> Under("..", base, stack) + Join(Move("..", stack)) == "";
  }

  lemma MovePushes(x: string, base: string, stack: seq<string>)
    requires !IsDots(x)
    ensures base + Join(stack) + ['/'] + x == Under(x, base, stack) + Join(Move(x, stack))
  {
    JoinPush(stack, x);
    Associate(base, Join(stack), ['/'], x);
  }

  lemma Associate(a: string, b: string, c: string, d: string)
    ensures a + (b + c + d) == a + b + c + d
  {
  }

  /** One segment behind a slash: a step of the algorithm is a move of the stack
      machine. */
  lemma StepIsMove(x: string, rest: string, base: string, stack: seq<string>)
    requires '/' !in x && '/' !in base && NoSlashes(stack)
    ensures RemoveStep(['/'] + x + ['/'] + rest, base + Join(stack)) == (['/'] + rest, Under(x, base, stack) + Join(Move(x, stack)))
  {
    if IsDots(x) {
      DotSlashStep(rest, base + Join(stack));
      MovePops(base, stack);
    } else {
      PushStep(x, rest, base + Join(stack));
      MovePushes(x, base, stack);
    }
  }

  lemma NotDots(input: string, x: string)
    requires input != [] && input[0] == '/' && UntilSlash(input[1..]) == x && !IsDots(x)
    ensures CaseOf(input).Segment?
  {
    if !CaseOf(input).Segment? {
      DotCases(input, input[1..]);
    }
  }

  lemma LastPush(x: string, out: string)
    requires '/' !in x && !IsDots(x)
    ensures RemoveDots(['/'] + x, out) == out + ['/'] + x
  {
    var input := ['/'] + x;
    assert input[1..] == x;
    UntilSlashWhole(x);
    NotDots(input, x);
    assert FirstSegment(input) == input;
    assert input[|input|..] == [];
    assert out + input == out + ['/'] + x;
    assert RemoveStep(input, out) == ([], out + input);
  }

  lemma LastDots(out: string)
    ensures RemoveDots("/.", out) == out + ['/'] + ""
    ensures RemoveDots("/..", out) == DropLast(out) + ['/'] + ""
  {
    RemoveSlash(out);
    RemoveSlash(DropLast(out));
    StartsWithSlash("/.");
    StartsWithSlash("/..");
    assert "/.."[2] == '.' && "/./"[2] == '/';
    assert CaseOf("/.").SlashDotEnd? && CaseOf("/..").ParentEnd?;
  }

  lemma LastMove(x: string, base: string, stack: seq<string>)
    requires '/' !in x && '/' !in base && NoSlashes(stack)
    ensures RemoveDots(['/'] + x, base + Join(stack)) == Under(x, base, stack) + Join(Eval([x], stack))
  {
    assert [x][1..] == [];
    if IsDots(x) {
      assert ['/'] + x == if x == "." then "/." else "/..";
      LastDots(base + Join(stack));
      MovePops(base, stack);
      JoinPush(Move(x, stack), "");
      Associate(Under(x, base, stack), Join(Move(x, stack)), ['/'], "");
    } else {
      LastPush(x, base + Join(stack));
      MovePushes(x, base, stack);
    }
  }

  lemma RemoveSlash(out: string)
    ensures RemoveDots("/", out) == out + ['/'] + ""
  {
    assert "/"[1..] == "";
    assert FirstSegment("/") == "/";
    assert CaseOf("/").Segment?;
    assert "/"[|FirstSegment("/")|..] == "";
  }

  /** Some ".." meets an empty stack. */
  predicate Escapes(segments: seq<string>, stack: seq<string>) {
    segments != [] && ((segments[0] == ".." && stack == []) || Escapes(segments[1..], Move(segments[0], stack)))
  }

  function Kept(segments: seq<string>, base: string, stack: seq<string>): string {
    if Escapes(segments, stack) then "" else base
  }

  lemma {:induction false} EvalAgrees(text: string, base: string, stack: seq<string>)
    requires '/' !in base && NoSlashes(stack)
    ensures RemoveDots(['/'] + text, base + Join(stack)) == Kept(Split(text), base, stack) + Join(Eval(Split(text), stack))
    decreases |text|
  {
    var x, more, rest := Decompose(text);
    if more {
      EvalTurn(text, x, rest, base, stack);
      EvalAgrees(rest, Under(x, base, stack), Move(x, stack));
    } else {
      LastMove(x, base, stack);
      assert [x][1..] == [] && text == x;
      assert Escapes([x], stack) <==> x == ".." && stack == [];
    }
  }

  lemma RemoveTo(input: string, out: string, rest: string, moved: string)
    requires input != [] && RemoveStep(input, out) == (rest, moved)
    ensures RemoveDots(input, out) == RemoveDots(rest, moved)
  {
  }

  /** One segment more on either side. */
  lemma EvalTurn(text: string, x: string, rest: string, base: string, stack: seq<string>)
    requires '/' !in base && NoSlashes(stack) && '/' !in x && text == x + ['/'] + rest && Split(text) == [x] + Split(rest)
    ensures NoSlashes(Move(x, stack)) && '/' !in Under(x, base, stack)
    ensures RemoveDots(['/'] + text, base + Join(stack)) == RemoveDots(['/'] + rest, Under(x, base, stack) + Join(Move(x, stack)))
    ensures Eval(Split(text), stack) == Eval(Split(rest), Move(x, stack))
    ensures Kept(Split(text), base, stack) == Kept(Split(rest), Under(x, base, stack), Move(x, stack))
  {
    Slashed(x, rest);
    OneTurn(x, rest, base, stack);
    EvalHead(x, Split(rest), stack);
    KeptHead(x, Split(rest), base, stack);
  }

  lemma Slashed(x: string, rest: string)
    ensures ['/'] + (x + ['/'] + rest) == ['/'] + x + ['/'] + rest
  {
  }

  lemma OneTurn(x: string, rest: string, base: string, stack: seq<string>)
    requires '/' !in base && NoSlashes(stack) && '/' !in x
    ensures NoSlashes(Move(x, stack)) && '/' !in Under(x, base, stack)
    ensures RemoveDots(['/'] + x + ['/'] + rest, base + Join(stack)) ==
            RemoveDots(['/'] + rest, Under(x, base, stack) + Join(Move(x, stack)))
  {
    StepIsMove(x, rest, base, stack);
    RemoveTo(['/'] + x + ['/'] + rest, base + Join(stack), ['/'] + rest, Under(x, base, stack) + Join(Move(x, stack)));
  }

  lemma KeptHead(x: string, more: seq<string>, base: string, stack: seq<string>)
    ensures Kept([x] + more, base, stack) == Kept(more, Under(x, base, stack), Move(x, stack))
  {
    assert ([x] + more)[1..] == more;
  }

  lemma EvalHead(x: string, more: seq<string>, stack: seq<string>)
    requires more != []
    ensures Eval([x] + more, stack) == Eval(more, Move(x, stack))
  {
    assert ([x] + more)[1..] == more;
  }

  /** An absolute path is evaluated on a stack of its segments, and the result
      is absolute again. */
  lemma AbsolutePaths(path: string)
    requires path != [] && path[0] == '/'
    ensures RemoveDots(path, []) == Join(Eval(Split(path[1..]), []))
    ensures RemoveDots(path, []) != [] && RemoveDots(path, [])[0] == '/'
  {
    assert path == ['/'] + path[1..];
    EvalAgrees(path[1..], "", []);
    assert "" + Join([]) == "";
    assert "" + Join(Eval(Split(path[1..]), [])) == Join(Eval(Split(path[1..]), []));
    var segments := Split(path[1..]);
    EvalNonempty(segments, []);
    JoinStarts(Eval(segments, []));
  }

  lemma {:induction false} EvalNonempty(segments: seq<string>, stack: seq<string>)
    requires segments != []
    ensures Eval(segments, stack) != []
  {
    if |segments| > 1 {
      var s := segments[0];
      EvalNonempty(segments[1..], Move(s, stack));
    } else {
      assert segments[1..] == [];
    }
  }

  lemma {:induction false} JoinStarts(stack: seq<string>)
    requires stack != []
    ensures Join(stack) != [] && Join(stack)[0] == '/'
  {
    if |stack| > 1 {
      JoinStarts(stack[..|stack| - 1]);
    }
  }

  // ----- every path

  /** What the segments of a path denote: leading dot segments are dropped, the
      first other segment is kept unless some ".." behind it escapes, and the rest
      is evaluated on a stack. */
  function Denoted(segments: seq<string>): string
    requires segments != []
  {
    var first, rest := segments[0], segments[1..];
    if rest == [] then (if IsDots(first) then "" else first)
    else if IsDots(first) then Denoted(rest)
    else Kept(rest, first, []) + Join(Eval(rest, []))
  }

  lemma OnlySegment(x: string)
    requires '/' !in x
    ensures RemoveDots(x, []) == if IsDots(x) then "" else x
  {
    if x == "." || x == ".." {
      assert x[0] == '.' && "./"[1] == '/' && "/."[0] == '/';
      assert |x| == 2 ==> x[1] == '.';
    } else if x != "" {
      SegmentOnly(x);
      assert FirstSegment(x) == x;
      assert x[|x|..] == "" && [] + x == x;
      assert RemoveStep(x, []) == ("", x);
    }
  }

  lemma SegmentOnly(x: string)
    requires x != "" && '/' !in x && !IsDots(x)
    ensures CaseOf(x).Segment? && UntilSlash(x[1..]) == x[1..] && [x[0]] + x[1..] == x
  {
    UntilSlashWhole(x);
    UntilSlashWhole(x[1..]);
    assert x[0] in x;
    if !CaseOf(x).Segment? {
      DotCases(x, x);
    }
  }

  lemma BareSegment(input: string, x: string, rest: string)
    requires x != "" && '/' !in x && !IsDots(x) && input == x + ['/'] + rest
    ensures CaseOf(input).Segment? && FirstSegment(input) == x
  {
    assert x[0] in x && input[1..] == x[1..] + ['/'] + rest;
    UntilSlashSkips(x[1..], rest);
    UntilSlashSkips(x, rest);
    if !CaseOf(input).Segment? {
      DotCases(input, input);
    }
    assert [x[0]] + x[1..] == x;
  }

  /** The first step moves an ordinary first segment to the output. */
  lemma FirstMoved(x: string, rest: string)
    requires '/' !in x && !IsDots(x)
    ensures RemoveDots(x + ['/'] + rest, []) == RemoveDots(['/'] + rest, x)
  {
    var input := x + ['/'] + rest;
    if x == "" {
      assert input == ['/'] + rest;
    } else {
      BareSegment(input, x, rest);
      CutFront(x, rest);
      RemoveTo(input, [], ['/'] + rest, x);
    }
  }

  lemma CutFront(x: string, rest: string)
    ensures (x + ['/'] + rest)[|x|..] == ['/'] + rest && [] + x == x
  {
  }

  /** Every path, absolute or not, becomes what its segments denote. */
  lemma {:induction false} EveryPath(path: string)
    ensures RemoveDots(path, []) == Denoted(Split(path))
    decreases |path|
  {
    var x, more, rest := Decompose(path);
    if !more {
      OnlySegment(x);
    } else if IsDots(x) {
      DotsHead(x, rest);
      EveryPath(rest);
      assert ([x] + Split(rest))[1..] == Split(rest);
    } else {
      FirstMoved(x, rest);
      EvalAgrees(rest, x, []);
      assert x + Join([]) == x;
      assert ([x] + Split(rest))[1..] == Split(rest);
    }
  }

  // ----- when nothing is written

  /** Every segment is "." or "..", and the last one may be empty. */
  predicate DotSegmentsOnly(path: string) {
    forall i :: 0 <= i < |Split(path)| ==> IsDots(Split(path)[i]) || (i == |Split(path)| - 1 && Split(path)[i] == "")
  }

  /** Once there is output, or a slash to come, there is output in the end. */
  lemma {:induction false} SomeOutput(input: string, out: string)
    requires out != [] || (input != [] && input[0] == '/')
    ensures RemoveDots(input, out) != []
    decreases |input|
  {
    if input != [] {
      SlashStays(input);
      var (rest, moved) := RemoveStep(input, out);
      SomeOutput(rest, moved);
    }
  }

  lemma OrdinaryHead(path: string)
    requires path != [] && !IsDots(UntilSlash(path))
    ensures RemoveDots(path, []) != []
  {
    if path[0] == '/' {
      SomeOutput(path, []);
    } else {
      if !CaseOf(path).Segment? {
        DotCases(path, path);
      }
      SomeOutput(path[|FirstSegment(path)|..], FirstSegment(path));
      assert [] + FirstSegment(path) == FirstSegment(path);
    }
  }

  lemma DotsHead(x: string, rest: string)
    requires IsDots(x)
    ensures RemoveDots(x + ['/'] + rest, []) == RemoveDots(rest, [])
  {
    var path := x + ['/'] + rest;
    if x == "." {
      assert path[..2] == "./" && path[2..] == rest;
    } else {
      assert path[..3] == "../" && path[3..] == rest && path[1] == '.';
      assert RemoveStep(path, []) == (rest, []);
    }
  }

  /** The result is empty, and then not even terminated, exactly when the path
      consists of dot segments only. */
  lemma {:induction false} EmptyExactly(path: string)
    ensures RemoveDots(path, []) == [] <==> DotSegmentsOnly(path)
    decreases |path|
  {
    var x, more, rest := Decompose(path);
    OneMoreSegment(path, x, more, rest);
    if path != [] && !IsDots(x) {
      OrdinaryHead(path);
    } else if more {
      DotsHead(x, rest);
      EmptyExactly(rest);
    }
  }

  lemma OneMoreSegment(path: string, x: string, more: bool, rest: string)
    requires Split(path) == [x] + if more then Split(rest) else []
    ensures DotSegmentsOnly(path) <==> if more then IsDots(x) && DotSegmentsOnly(rest) else IsDots(x) || x == ""
  {
    assert Split(path)[0] == x;
    assert more ==> forall i :: 0 <= i < |Split(rest)| ==> Split(rest)[i] == Split(path)[i + 1];
  }
}
