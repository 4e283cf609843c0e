/** A receiver of form posts: it cuts a body at its delimiters, and takes each part
    for header lines up to an empty one, and content. It knows the texts of RFC 2046
    and RFC 2183 by their letters and shares no text with the sender. */
module FormReadBack {
  import opened CText
  import opened FormModel
  import opened FormPost

  /** What one file or text of a field is sent with. */
  datatype Entry = Entry(fileName: Option<string>, contentType: Option<string>, headers: seq<string>, content: string)

  /** A field with one content, or with several files. */
  datatype Part = Single(name: string, entry: Entry) | Group(name: string, entries: seq<Entry>)

  // ----- lines and quoted texts

  /** Header lines and what follows the empty line behind them. */
  datatype Entity = Entity(lines: seq<string>, content: string)

  function ReadEntity(text: string): Option<Entity>
    decreases |text|
  {
    var k := FindFirst(text, "\r\n");
    if k.None? then None
    else if k.value == 0 then Some(Entity([], text[2..]))
    else
      var rest := ReadEntity(text[k.value + 2..]);
      if rest.None? then None else Some(Entity([text[..k.value]] + rest.value.lines, rest.value.content))
  }

  /** A text up to the next quote, and what is behind that; a backslash stands for
      the character behind it. */
  function ReadQuoted(text: string): Option<(string, string)> {
    if text == "" || text == "\\" then None
    else if text[0] == '"' then Some(("", text[1..]))
    else if text[0] == '\\' then Put(text[1], ReadQuoted(text[2..]))
    else Put(text[0], ReadQuoted(text[1..]))
  }

  function Put(c: char, r: Option<(string, string)>): Option<(string, string)> {
    if r.None? then None else Some(([c] + r.value.0, r.value.1))
  }

  const FIELD_START := "Content-Disposition: form-data; name=\""
  const FILE_START := "Content-Disposition: attachment; filename=\""
  const NAME_START := "; filename=\""
  const TYPE_START := "Content-Type: "
  const MIXED_START := "Content-Type: multipart/mixed; boundary="

  /** Field name and file name. */
  function ReadDisposition(line: string): Option<(string, Option<string>)> {
    if !(FIELD_START <= line) then None
    else
      var name := ReadQuoted(line[|FIELD_START|..]);
      if name.None? then None
      else if name.value.1 == "" then Some((name.value.0, None))
      else
        var file := ReadFileName(NAME_START, name.value.1);
        if file.None? then None else Some((name.value.0, file))
  }

  /** A line that starts like this and ends with the quote of a file name. */
  function ReadFileName(start: string, line: string): Option<string> {
    if !(start <= line) then None
    else
      var file := ReadQuoted(line[|start|..]);
      if file.Some? && file.value.1 == "" then Some(file.value.0) else None
  }

  /** A content type, and the other lines. */
  function ReadType(lines: seq<string>): (Option<string>, seq<string>) {
    if lines != [] && TYPE_START <= lines[0] then (Some(lines[0][|TYPE_START|..]), lines[1..]) else (None, lines)
  }

  // ----- entities of several parts

  /** The texts between the delimiters, if there is nothing in front of the first
      one and just this behind the last one. */
  function ReadTexts(text: string, boundary: string, last: string): Option<seq<string>> {
    Between(Split("\r\n" + text, "\r\n--" + boundary), last)
  }

  function Between(pieces: seq<string>, last: string): (r: Option<seq<string>>)
    ensures r.Some? ==> |r.value| == |pieces| - 2
  {
    if |pieces| < 2 || pieces[0] != "" || pieces[|pieces| - 1] != last then None
    else Stripped(pieces[1..|pieces| - 1])
  }

  /** Each without the CRLF it starts with. */
  function Stripped(pieces: seq<string>): (r: Option<seq<string>>)
    ensures r.Some? ==> |r.value| == |pieces|
  {
    if pieces == [] then Some([])
    else
      var rest := Stripped(pieces[1..]);
      if rest.None? || !("\r\n" <= pieces[0]) then None else Some([pieces[0][2..]] + rest.value)
  }

  function ReadFile(text: string): Option<Entry> {
    FileOf(ReadEntity(text))
  }

  function FileOf(e: Option<Entity>): Option<Entry> {
    if e.None? || e.value.lines == [] then None
    else
      var name := ReadFileName(FILE_START, e.value.lines[0]);
      if name.None? then None
      else
        var rest := ReadType(e.value.lines[1..]);
        Some(Entry(name, rest.0, rest.1, e.value.content))
  }

  function ReadFiles(texts: seq<string>): (r: Option<seq<Entry>>)
    ensures r.Some? ==> |r.value| == |texts|
  {
    if texts == [] then Some([])
    else
      var first, rest := ReadFile(texts[0]), ReadFiles(texts[1..]);
      if first.None? || rest.None? then None else Some([first.value] + rest.value)
  }

  /** One part of a form post. */
  function ReadPart(text: string): Option<Part> {
    PartOf(ReadEntity(text))
  }

  function PartOf(e: Option<Entity>): Option<Part> {
    if e.None? || e.value.lines == [] then None
    else
      var d := ReadDisposition(e.value.lines[0]);
      if d.None? then None
      else ReadRest(d.value.0, d.value.1, e.value.lines[1..], e.value.content)
  }

  function ReadRest(name: string, fileName: Option<string>, lines: seq<string>, content: string): Option<Part> {
    if lines != [] && MIXED_START <= lines[0] then
      var texts := ReadTexts(content, lines[0][|MIXED_START|..], "--");
      if |lines| > 1 || fileName.Some? || texts.None? then None
      else
        var files := ReadFiles(texts.value);
        if files.None? then None else Some(Group(name, files.value))
    else
      var rest := ReadType(lines);
      Some(Single(name, Entry(fileName, rest.0, rest.1, content)))
  }

  function ReadParts(texts: seq<string>): (r: Option<seq<Part>>)
    ensures r.Some? ==> |r.value| == |texts|
  {
    if texts == [] then Some([])
    else
      var first, rest := ReadPart(texts[0]), ReadParts(texts[1..]);
      if first.None? || rest.None? then None else Some([first.value] + rest.value)
  }

  /** The body of a form post. */
  function ReadBody(boundary: string, body: string): Option<seq<Part>> {
    var texts := ReadTexts(body, boundary, "--\r\n");
    if texts.None? then None else ReadParts(texts.value)
  }

  /** The boundary a header line tells. */
  function ReadBoundary(header: string): Option<string> {
    var k := FindFirst(header, "; boundary=");
    if k.None? || |header| < k.value + 13 || header[|header| - 2..] != "\r\n" then None
    else Some(header[k.value + 11..|header| - 2])
  }

  // ----- texts of one line

  predicate OneLine(s: string) {
    forall i :: 0 <= i < |s| - 1 ==> !(s[i] == '\r' && s[i + 1] == '\n')
  }

  lemma OneLineIs(s: string)
    ensures OneLine(s) <==> !Contains(s, "\r\n")
  {
    if !OneLine(s) {
      var i :| 0 <= i < |s| - 1 && s[i] == '\r' && s[i + 1] == '\n';
      assert OccursAt(s, "\r\n", i);
    }
    if Contains(s, "\r\n") {
      var k :| 0 <= k <= |s| && OccursAt(s, "\r\n", k);
      assert s[k..k + 2][0] == '\r' && s[k..k + 2][1] == '\n';
    }
  }

  lemma OneLineJoin(a: string, b: string)
    requires b == "" || b[0] != '\n' || a == "" || a[|a| - 1] != '\r'
    ensures OneLine(a + b) <==> OneLine(a) && OneLine(b)
  {
    var s := a + b;
    if OneLine(s) {
      forall i | 0 <= i < |a| - 1 ensures !(a[i] == '\r' && a[i + 1] == '\n') {
        assert s[i] == a[i] && s[i + 1] == a[i + 1];
      }
      forall i | 0 <= i < |b| - 1 ensures !(b[i] == '\r' && b[i + 1] == '\n') {
        assert s[|a| + i] == b[i] && s[|a| + i + 1] == b[i + 1];
      }
    }
  }

  predicate AllLines(lines: seq<string>) {
    forall i :: 0 <= i < |lines| ==> lines[i] != "" && OneLine(lines[i])
  }

  /** The lines as they are sent, each with its CRLF. */
  function Printed(lines: seq<string>, content: string): string {
    if lines == [] then "\r\n" + content else lines[0] + "\r\n" + Printed(lines[1..], content)
  }

  lemma FoundInside(a: string, rest: string, d: string)
    requires d != "" && Contains(a, d)
    ensures FindFirst(a + rest, d).Some? && FindFirst(a + rest, d).value + |d| <= |a|
  {
    var k :| 0 <= k <= |a| && OccursAt(a, d, k);
    SliceInFront(a, rest, k, |d|);
    if FindFirst(a + rest, d).None? || k < FindFirst(a + rest, d).value {
      FirstIsFirst(a + rest, d, k);
    }
  }

  lemma SliceInFront(a: string, rest: string, k: nat, n: nat)
    requires k + n <= |a|
    ensures (a + rest)[k..k + n] == a[k..k + n]
  {
  }

  lemma FrontBack(a: string, d: string, rest: string)
    ensures (a + d + rest)[..|a|] == a && (a + d + rest)[|a| + |d|..] == rest
    ensures forall k :: 0 <= k <= |a| ==> (a + d + rest)[..k] == a[..k]
  {
  }

  /** The first line read is what is in front of the first CRLF. */
  lemma FirstLine(a: string, rest: string)
    requires a != "" && a[0] != '\r'
    ensures var e := ReadEntity(a + "\r\n" + rest);
            && (e.Some? ==> e.value.lines != [] && e.value.lines[0] <= a)
            && (OneLine(a) ==> e == match ReadEntity(rest)
                                    case None => None
                                    case Some(r) => Some(Entity([a] + r.lines, r.content)))
  {
    var text := a + "\r\n" + rest;
    var k := FindFirst(text, "\r\n");
    FrontBack(a, "\r\n", rest);
    OneLineIs(a);
    if OneLine(a) {
      FoundAtEdge(a, "\r\n", rest);
    } else {
      FoundInside(a, "\r\n" + rest, "\r\n");
      assert a + ("\r\n" + rest) == text;
    }
  }

  /** Lines of which these are prefixes are read if and only if the lines are whole,
      not empty, and contain no CRLF. */
  lemma {:induction false} LinesBack(actual: seq<string>, full: seq<string>, content: string)
    requires |actual| == |full| && forall i :: 0 <= i < |full| ==> actual[i] <= full[i]
    ensures var e := ReadEntity(Printed(actual, content));
            && (e.Some? && e.value.lines == full ==> actual == full && AllLines(full))
            && (AllLines(actual) ==> e == Some(Entity(actual, content)))
    decreases |actual|
  {
    if actual == [] {
      assert FindFirst("\r\n" + content, "\r\n") == Some(0) by {
        assert ("\r\n" + content)[..2] == "\r\n";
      }
    } else {
      var a, rest := actual[0], Printed(actual[1..], content);
      LinesBack(actual[1..], full[1..], content);
      FirstOf(a, full[0], rest);
      OneMoreLine(actual, full, content, ReadEntity(rest), ReadEntity(Printed(actual, content)));
    }
  }

  /** One line in front of others. */
  lemma FirstOf(a: string, whole: string, rest: string)
    requires a <= whole
    ensures var e, r := ReadEntity(a + "\r\n" + rest), ReadEntity(rest);
            if a != "" && OneLine(a) then e == if r.None? then None else Some(Entity([a] + r.value.lines, r.value.content))
            else e.Some? && e.value.lines != [] ==> e.value.lines[0] != whole
  {
    var text := a + "\r\n" + rest;
    FrontBack(a, "\r\n", rest);
    OneLineIs(a);
    if OneLine(a) {
      FoundAtEdge(a, "\r\n", rest);
    } else {
      FoundInside(a, "\r\n" + rest, "\r\n");
      assert a + ("\r\n" + rest) == text;
    }
  }

  lemma OneMoreLine(actual: seq<string>, full: seq<string>, content: string, r: Option<Entity>, e: Option<Entity>)
    requires |actual| == |full| > 0 && actual[0] <= full[0]
    requires AllLines(actual[1..]) ==> r == Some(Entity(actual[1..], content))
    requires r.Some? && r.value.lines == full[1..] ==> actual[1..] == full[1..] && AllLines(full[1..])
    requires if actual[0] != "" && OneLine(actual[0]) then e == (if r.None? then None else Some(Entity([actual[0]] + r.value.lines, r.value.content)))
             else e.Some? && e.value.lines != [] ==> e.value.lines[0] != full[0]
    ensures e.Some? && e.value.lines == full ==> actual == full && AllLines(full)
    ensures AllLines(actual) ==> e == Some(Entity(actual, content))
  {
    assert actual == [actual[0]] + actual[1..] && full == [full[0]] + full[1..];
    AllLinesStep(actual);
    AllLinesStep(full);
    if e.Some? && e.value.lines == full {
      assert e.value.lines[0] == full[0];
      assert full[1..] == r.value.lines;
    }
  }

  lemma AllLinesStep(lines: seq<string>)
    requires lines != []
    ensures AllLines(lines) <==> lines[0] != "" && OneLine(lines[0]) && AllLines(lines[1..])
  {
    assert forall i :: 1 <= i < |lines| ==> lines[i] == lines[1..][i - 1];
  }

  // ----- quoted texts

  /** More text behind what is read changes nothing. */
  lemma {:induction false} QuotedIsStable(text: string, more: string)
    requires ReadQuoted(text).Some?
    ensures ReadQuoted(text + more) == Some((ReadQuoted(text).value.0, ReadQuoted(text).value.1 + more))
    decreases |text|
  {
    if text[0] == '"' {
      assert (text + more)[1..] == text[1..] + more;
    } else if text[0] == '\\' {
      QuotedIsStable(text[2..], more);
      assert (text + more)[2..] == text[2..] + more;
    } else {
      QuotedIsStable(text[1..], more);
      assert (text + more)[1..] == text[1..] + more;
    }
  }

  /** What the sender escapes is read back, whatever it is. */
  lemma {:induction false} EscapedIsRead(name: string, rest: string)
    ensures ReadQuoted(Escaped(name) + "\"" + rest) == Some((name, rest))
    decreases |name|
  {
    var text := Escaped(name) + "\"" + rest;
    if name == "" {
      assert text[1..] == rest;
    } else {
      EscapedIsRead(name[1..], rest);
      EscapedFirst(name, rest);
      assert [name[0]] + name[1..] == name;
    }
  }

  lemma EscapedFirst(name: string, rest: string)
    requires name != ""
    ensures var text, more, c := Escaped(name) + "\"" + rest, Escaped(name[1..]) + "\"" + rest, name[0];
            if c == '\\' || c == '"' then text != "\\" && text[0] == '\\' && text[1] == c && text[2..] == more
            else text[0] == c && text[1..] == more
  {
    assert Escaped(name) == EscapedChar(name[0]) + Escaped(name[1..]);
  }

  predicate Plain(name: string) {
    forall i :: 0 <= i < |name| ==> name[i] != '"' && name[i] != '\\'
  }

  /** A text the sender does not escape is read back exactly if it has nothing to
      escape. */
  lemma {:induction false} PlainExactly(name: string, rest: string)
    ensures var r := ReadQuoted(name + "\"" + rest);
            if Plain(name) then r == Some((name, rest)) else r.None? || r.value.0 != name
    decreases |name|
  {
    var text := name + "\"" + rest;
    if name == "" {
      assert text[1..] == rest;
    } else if name[0] == '\\' {
      assert name[0..] == name;
      Lags(name, 0, 0, rest);
    } else if name[0] != '"' {
      PlainExactly(name[1..], rest);
      assert text[1..] == name[1..] + "\"" + rest;
      PlainStep(name);
    }
  }

  lemma PlainStep(name: string)
    requires name != "" && name[0] != '"' && name[0] != '\\'
    ensures Plain(name) <==> Plain(name[1..])
    ensures [name[0]] + name[1..] == name
  {
    assert forall i :: 1 <= i < |name| ==> name[i] == name[1..][i - 1];
  }

  /** Behind by backslashes, or about to be, the reader never catches up. */
  lemma {:induction false} Lags(name: string, i: nat, j: nat, rest: string)
    requires i <= j <= |name| && i < |name| && name[i] == '\\' && forall k :: i <= k < j ==> name[k] == '\\'
    ensures var r := ReadQuoted(name[j..] + "\"" + rest); r.None? || r.value.0 != name[i..]
    decreases |name| - j
  {
    var text := name[j..] + "\"" + rest;
    assert name[i..][0] == '\\';
    if j < |name| && name[j] == '\\' {
      if j + 1 < |name| && name[j + 1] == '\\' {
        Lags(name, i + 1, j + 2, rest);
        assert text[2..] == name[j + 2..] + "\"" + rest;
        assert name[i..] == ['\\'] + name[i + 1..];
      } else {
        assert text[1] != '\\';
      }
    }
  }

  // ----- dispositions

  lemma Starting(start: string, more: string)
    ensures start <= start + more && (start + more)[|start|..] == more
  {
  }

  /** A file name is read back from its whole line and from no less of it. */
  lemma FileNameExactly(start: string, name: string, line: string, missing: string)
    requires line + missing == start + Escaped(name) + "\""
    ensures ReadFileName(start, line) == Some(name) <==> missing == ""
  {
    var whole := Escaped(name) + "\"";
    EscapedIsRead(name, "");
    assert whole + "" == whole && start + whole == start + Escaped(name) + "\"";
    Starting(start, whole);
    if missing == "" {
      assert line == start + whole;
    } else if start <= line {
      var text := line[|start|..];
      assert text + missing == whole by {
        assert (line + missing)[|start|..] == text + missing;
      }
      if ReadQuoted(text).Some? {
        QuotedIsStable(text, missing);
        assert false;
      }
    }
  }

  /** A disposition as it is sent. */
  function Whole(name: string, fileName: Option<string>): string {
    FIELD_START + (name + "\"" + NamePart(fileName))
  }

  function NamePart(fileName: Option<string>): string {
    if fileName.Some? then NAME_START + Escaped(fileName.value) + "\"" else ""
  }

  /** Field name and file name are read back from the whole line and from no less
      of it, and only if the field name has nothing to escape. */
  lemma DispositionExactly(name: string, fileName: Option<string>, line: string, missing: string)
    requires line + missing == Whole(name, fileName)
    ensures ReadDisposition(line) == Some((name, fileName)) <==> missing == "" && Plain(name)
  {
    Starting(FIELD_START, name + "\"" + NamePart(fileName));
    if FIELD_START <= line {
      var text := line[|FIELD_START|..];
      Starting(FIELD_START, text);
      assert text + missing == name + "\"" + NamePart(fileName) by {
        assert (line + missing)[|FIELD_START|..] == text + missing;
      }
      NameExactly(name, fileName, text, missing);
      var r := ReadQuoted(text);
      if fileName.Some? && r.Some? && r.value.0 == name {
        FileNameExactly(NAME_START, fileName.value, r.value.1, missing);
      }
    }
  }

  lemma NameExactly(name: string, fileName: Option<string>, text: string, missing: string)
    requires text + missing == name + "\"" + NamePart(fileName)
    ensures var r := ReadQuoted(text);
            missing == "" && Plain(name) ==> r == Some((name, NamePart(fileName)))
    ensures var r := ReadQuoted(text);
            r.Some? && r.value.0 == name ==>
              && Plain(name) && r.value.1 + missing == NamePart(fileName)
  {
    PlainExactly(name, NamePart(fileName));
    if missing == "" {
      assert text == name + "\"" + NamePart(fileName);
    }
    if ReadQuoted(text).Some? {
      QuotedIsStable(text, missing);
    }
  }
}
