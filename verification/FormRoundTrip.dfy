/** The way there and back: what a receiver reads from a form post is what the
    caller gave, exactly when names, types and headers can be told apart. */
module FormRoundTrip {
  import opened CText
  import opened FormModel
  import opened FormPost
  import opened FormReadBack

  // ----- what the caller gave

  function GivenName(post: Post): string
    requires PostOk(post)
  {
    if post.nameLength == 0 then CStr(post.name) else post.name[..post.nameLength]
  }

  /** A path without its directories. */
  function Base(path: string): string {
    if path == "" || path[|path| - 1] == '/' || path[|path| - 1] == '\\' then ""
    else Base(path[..|path| - 1]) + [path[|path| - 1]]
  }

  function GivenFileName(item: Item): string {
    if item.showFileName.Some? then item.showFileName.value else Base(CStr(item.contents))
  }

  predicate ReadsStdin(post: Post, item: Item) {
    (post.fileName || post.readFile) && CStr(item.contents) == "-"
  }

  function GivenContent(world: World, post: Post, item: Item, stdin: string): string
    requires PostOk(post)
  {
    if post.fileName || post.readFile then
      var path := CStr(item.contents);
      if path == "-" then stdin
      else if world.files(path).Regular? then world.files(path).bytes
      else ""
    else if post.useBuffer then
      if post.bufferLength == 0 then CStr(post.buffer) else post.buffer[..post.bufferLength]
    else if post.useCallback then post.user
    else if post.contentsLength == 0 then CStr(post.first.contents)
    else post.first.contents[..post.contentsLength]
  }

  function GivenEntry(world: World, post: Post, item: Item, named: bool, stdin: string): Entry
    requires PostOk(post)
  {
    Entry(if named then Some(GivenFileName(item)) else None, item.contentType, item.headers, GivenContent(world, post, item, stdin))
  }

  /** The first item that is the standard input gets all of it. */
  function GivenEntries(world: World, post: Post, items: seq<Item>, stdin: string): (entries: seq<Entry>)
    requires PostOk(post)
    ensures |entries| == |items|
    decreases |items|
  {
    if items == [] then []
    else [GivenEntry(world, post, items[0], true, stdin)]
         + GivenEntries(world, post, items[1..], if ReadsStdin(post, items[0]) then "" else stdin)
  }

  function GivenPart(world: World, post: Post, stdin: string): Part
    requires PostOk(post)
  {
    if post.more == [] then
      var named := post.fileName || ((post.useBuffer || post.useCallback) && post.first.showFileName.Some?);
      Single(GivenName(post), GivenEntry(world, post, post.first, named, stdin))
    else Group(GivenName(post), GivenEntries(world, post, [post.first] + post.more, stdin))
  }

  predicate AnyReadsStdin(post: Post, items: seq<Item>) {
    exists i :: 0 <= i < |items| && ReadsStdin(post, items[i])
  }

  function GivenParts(world: World, posts: seq<Post>, stdin: string): (parts: seq<Part>)
    requires PostsOk(posts)
    ensures |parts| == |posts|
    decreases |posts|
  {
    if posts == [] then []
    else [GivenPart(world, posts[0], stdin)]
         + GivenParts(world, posts[1..], if AnyReadsStdin(posts[0], [posts[0].first] + posts[0].more) then "" else stdin)
  }

  // ----- what can be told apart

  predicate HeaderOk(header: string) {
    header != "" && OneLine(header) && |header| <= 4093
  }

  /** No CRLF where a line goes on, no text too long for the buffer of 4096, no
      empty header, and no header in place of a content type. */
  predicate EntryOk(e: Entry) {
    && (e.fileName.Some? ==> OneLine(e.fileName.value) && |Escaped(e.fileName.value)| <= 4082)
    && (e.contentType.Some? ==> OneLine(e.contentType.value) && |e.contentType.value| <= 4079)
    && (forall i :: 0 <= i < |e.headers| ==> HeaderOk(e.headers[i]))
    && (e.contentType.None? && e.headers != [] ==> !("Content-Type: " <= e.headers[0]))
  }

  predicate EntriesOk(entries: seq<Entry>) {
    forall i :: 0 <= i < |entries| ==> EntryOk(entries[i])
  }

  /** The field name is sent as it is. */
  predicate NameOk(name: string) {
    OneLine(name) && forall i :: 0 <= i < |name| ==> name[i] != '"' && name[i] != '\\'
  }

  /** The content type of a single entry is not the one files are sent under. */
  predicate NotMixed(e: Entry) {
    e.contentType.Some? ==> !("multipart/mixed; boundary=" <= e.contentType.value)
  }

  /** No text contains the delimiter. */
  predicate NoneContains(texts: seq<string>, boundary: string) {
    forall i :: 0 <= i < |texts| ==> !Contains(texts[i], "\r\n--" + boundary)
  }

  /** k is the number of the boundary that files of one field are sent with. */
  predicate PartOk(world: World, post: Post, k: nat, stdin: string)
    requires PostOk(post) && PartText(world, post, k, stdin).Ok?
  {
    match GivenPart(world, post, stdin)
    case Single(name, entry) => NameOk(name) && EntryOk(entry) && NotMixed(entry)
    case Group(name, entries) =>
      && NameOk(name) && EntriesOk(entries)
      && NoneContains(ItemTexts(world, post, Items(post), stdin).value, Boundary(world, k))
  }

  predicate AllPartsOk(world: World, posts: seq<Post>, k: nat, stdin: string)
    requires PostsOk(posts) && PartTexts(world, posts, k, stdin).Ok?
    decreases |posts|
  {
    posts == []
    || (PartOk(world, posts[0], k, stdin)
        && AllPartsOk(world, posts[1..], BoundaryAfter(posts[0], k), StdinAfterAll(posts[0], Items(posts[0]), stdin)))
  }

  // ----- the lines of a part

  function Cut(line: string): (r: string)
    ensures r <= line && (r == line <==> |line| <= 4093)
  {
    if |line| <= 4093 then line else line[..4093]
  }

  function Cuts(lines: seq<string>): (r: seq<string>)
    ensures |r| == |lines| && forall i :: 0 <= i < |lines| ==> r[i] == Cut(lines[i])
  {
    if lines == [] then [] else [Cut(lines[0])] + Cuts(lines[1..])
  }

  function Tail(lines: seq<string>): string {
    if lines == [] then "" else "\r\n" + lines[0] + Tail(lines[1..])
  }

  function TypeLines(contentType: Option<string>): seq<string> {
    if contentType.Some? then ["Content-Type: " + contentType.value] else []
  }

  function ExtraLines(contentType: Option<string>, headers: seq<string>): seq<string> {
    TypeLines(contentType) + headers
  }

  lemma {:induction false} PrintedIs(first: string, lines: seq<string>, content: string)
    ensures Printed([first] + lines, content) == first + Tail(lines) + "\r\n\r\n" + content
    decreases |lines|
  {
    assert ([first] + lines)[1..] == lines;
    if lines == [] {
      JoinBlank(first, content);
      assert first + Tail(lines) == first;
    } else {
      PrintedIs(lines[0], lines[1..], content);
      assert [lines[0]] + lines[1..] == lines;
      JoinLine(first, lines[0], Tail(lines[1..]), content);
    }
  }

  lemma JoinBlank(first: string, content: string)
    ensures first + "\r\n" + ("\r\n" + content) == first + "\r\n\r\n" + content
  {
    assert "\r\n" + "\r\n" == "\r\n\r\n";
    assert first + "\r\n" + ("\r\n" + content) == first + ("\r\n" + "\r\n") + content;
  }

  lemma JoinLine(first: string, line: string, tail: string, content: string)
    ensures first + "\r\n" + (line + tail + "\r\n\r\n" + content) == first + ("\r\n" + line + tail) + "\r\n\r\n" + content
  {
  }

  lemma {:induction false} TailAppend(a: seq<string>, b: seq<string>)
    ensures Tail(a + b) == Tail(a) + Tail(b)
    decreases |a|
  {
    if a == [] {
      assert a + b == b && Tail(a) + Tail(b) == Tail(b);
    } else {
      TailAppend(a[1..], b);
      assert (a + b)[1..] == a[1..] + b;
      Regroup("\r\n" + a[0], Tail(a[1..]), Tail(b));
    }
  }

  /** A line that is added behind a CRLF is cut behind 4095 bytes. */
  lemma LineBehindCrLf(line: string)
    requires NoNul(line)
    ensures Line("\r\n" + line) == "\r\n" + Cut(line)
  {
    var text := "\r\n" + line;
    assert Fit(text) == "\r\n" + Cut(line);
    assert NoNul(Fit(text));
    CStrWhole(Fit(text));
  }

  lemma {:induction false} HeaderLinesAre(headers: seq<string>)
    requires forall i :: 0 <= i < |headers| ==> NoNul(headers[i])
    ensures HeaderLines(headers) == Tail(Cuts(headers))
    decreases |headers|
  {
    if headers != [] {
      LineBehindCrLf(headers[0]);
      HeaderLinesAre(headers[1..]);
      assert Cuts(headers)[1..] == Cuts(headers[1..]);
    }
  }

  lemma TypeTextIs(item: Item)
    requires ItemOk(item)
    ensures TypeText(item) == Tail(Cuts(TypeLines(item.contentType)))
  {
    if item.contentType.Some? {
      var line := "Content-Type: " + item.contentType.value;
      assert "\r\nContent-Type: " == "\r\n" + "Content-Type: ";
      assert "\r\nContent-Type: " + item.contentType.value == "\r\n" + line;
      LineBehindCrLf(line);
      assert Cuts([line])[1..] == [];
      assert "\r\n" + Cut(line) + "" == "\r\n" + Cut(line);
    }
  }

  lemma CutsAppend(a: seq<string>, b: seq<string>)
    ensures Cuts(a + b) == Cuts(a) + Cuts(b)
  {
  }

  lemma ExtraText(item: Item)
    requires ItemOk(item)
    ensures TypeText(item) + HeaderLines(item.headers) == Tail(Cuts(ExtraLines(item.contentType, item.headers)))
  {
    TypeTextIs(item);
    HeaderLinesAre(item.headers);
    CutsAppend(TypeLines(item.contentType), item.headers);
    TailAppend(Cuts(TypeLines(item.contentType)), Cuts(item.headers));
  }

  // ----- file names

  lemma {:induction false} BaseIs(path: string)
    ensures path[AfterSlash(path)..] == Base(path)
    decreases |path|
  {
    if path != "" && !IsSlash(path[|path| - 1]) {
      var front := path[..|path| - 1];
      BaseIs(front);
      assert path[AfterSlash(path)..] == front[AfterSlash(front)..] + [path[|path| - 1]];
    }
  }

  lemma {:induction false} EscapedNoNul(name: string)
    requires NoNul(name)
    ensures NoNul(Escaped(name))
    decreases |name|
  {
    if name != "" {
      EscapedNoNul(name[1..]);
    }
  }

  lemma {:induction false} EscapedOneLine(name: string)
    ensures OneLine(Escaped(name)) <==> OneLine(name)
    ensures name != "" ==> Escaped(name) != "" && (Escaped(name)[0] == '\n' <==> name[0] == '\n')
    decreases |name|
  {
    if name != "" {
      EscapedOneLine(name[1..]);
      HeadOneLine(EscapedChar(name[0]), Escaped(name[1..]));
      HeadOneLine([name[0]], name[1..]);
      assert [name[0]] + name[1..] == name;
    }
  }

  lemma HeadOneLine(head: string, rest: string)
    requires |head| == 1 || (|head| == 2 && head[0] == '\\')
    ensures OneLine(head + rest) <==> OneLine(rest) && !(head[|head| - 1] == '\r' && rest != "" && rest[0] == '\n')
  {
    var s := head + rest;
    if OneLine(s) {
      forall i | 0 <= i < |rest| - 1 ensures !(rest[i] == '\r' && rest[i + 1] == '\n') {
        assert s[|head| + i] == rest[i] && s[|head| + i + 1] == rest[i + 1];
      }
      if rest != "" {
        assert s[|head| - 1] == head[|head| - 1] && s[|head| - 1 + 1] == rest[0];
      }
    }
  }

  lemma GivenNameNoNul(item: Item)
    requires ItemOk(item)
    ensures NoNul(GivenFileName(item))
  {
    var path := CStr(item.contents);
    CStrNoNul(item.contents);
    BaseIs(path);
    assert NoNul(path[AfterSlash(path)..]);
  }

  /** The text of a file name, cut if it is long. */
  lemma FileNameIs(item: Item)
    requires ItemOk(item)
    ensures var whole := NAME_START + Escaped(GivenFileName(item)) + "\"";
            FileNameText(item) <= whole && (FileNameText(item) == whole <==> |Escaped(GivenFileName(item))| <= 4082)
  {
    var name := GivenFileName(item);
    var whole := NAME_START + Escaped(name) + "\"";
    BaseIs(CStr(item.contents));
    GivenNameNoNul(item);
    EscapedNoNul(name);
    assert NoNul(Fit(whole));
    CStrWhole(Fit(whole));
  }

  // ----- what is read from the lines

  lemma ExtraExactly(lines: seq<string>, contentType: Option<string>, headers: seq<string>)
    ensures ReadType(lines) == (contentType, headers) <==>
            && lines == ExtraLines(contentType, headers)
            && (contentType.None? && headers != [] ==> !("Content-Type: " <= headers[0]))
  {
    if contentType.None? {
      assert ExtraLines(contentType, headers) == headers;
    } else {
      var line := "Content-Type: " + contentType.value;
      Starting(TYPE_START, contentType.value);
      assert ExtraLines(contentType, headers)[1..] == headers && ExtraLines(contentType, headers)[0] == line;
      if lines != [] && TYPE_START <= lines[0] {
        Starting(TYPE_START, lines[0][|TYPE_START|..]);
        assert lines == [lines[0]] + lines[1..];
        assert TYPE_START + lines[0][|TYPE_START|..] == lines[0];
      }
    }
  }

  /** The lines of the entry come whole and can be read. */
  lemma ExtraOk(contentType: Option<string>, headers: seq<string>)
    ensures var extra := ExtraLines(contentType, headers);
            Cuts(extra) == extra && AllLines(extra) <==>
            && (contentType.Some? ==> OneLine(contentType.value) && |contentType.value| <= 4079)
            && (forall i :: 0 <= i < |headers| ==> HeaderOk(headers[i]))
  {
    var extra := ExtraLines(contentType, headers);
    CutsWhole(extra);
    if contentType.None? {
      assert extra == headers;
    } else {
      OneLineJoin("Content-Type: ", contentType.value);
      assert extra[1..] == headers;
      assert forall i :: 1 <= i < |extra| ==> extra[i] == headers[i - 1];
      assert forall i :: 0 <= i < |headers| ==> headers[i] == extra[i + 1];
    }
  }

  lemma CutsWhole(lines: seq<string>)
    ensures Cuts(lines) == lines <==> forall i :: 0 <= i < |lines| ==> |lines[i]| <= 4093
  {
    if Cuts(lines) == lines {
      forall i | 0 <= i < |lines| ensures |lines[i]| <= 4093 {
        assert Cuts(lines)[i] == Cut(lines[i]);
      }
    }
  }

  /** An entity whose first line may be cut, too. */
  function Sent(first: string, contentType: Option<string>, headers: seq<string>, content: string): string {
    Printed([first] + Cuts(ExtraLines(contentType, headers)), content)
  }

  /** The text of an entity gives its lines if and only if they are whole and each
      is a line; the first line read is never more than the first line sent. */
  lemma SentExactly(first: string, whole: string, contentType: Option<string>, headers: seq<string>, content: string)
    requires first <= whole && first != "" && first[0] == 'C'
    ensures var e := ReadEntity(Sent(first, contentType, headers, content));
            var extra := ExtraLines(contentType, headers);
            && (e.Some? ==> e.value.lines != [] && e.value.lines[0] <= first)
            && (e.Some? && e.value.lines == [whole] + extra ==>
                first == whole && OneLine(whole) && Cuts(extra) == extra && AllLines(extra))
            && (first == whole && OneLine(whole) && Cuts(extra) == extra && AllLines(extra) ==>
                e == Some(Entity([whole] + extra, content)))
  {
    var extra := ExtraLines(contentType, headers);
    var actual, full := [first] + Cuts(extra), [whole] + extra;
    LinesBack(actual, full, content);
    FirstLine(first, Printed(actual[1..], content));
    AllLinesStep(full);
    assert full[1..] == extra && actual[1..] == Cuts(extra);
  }

  // ----- one file of several

  lemma ContentIs(world: World, post: Post, item: Item, stdin: string)
    requires PostOk(post) && ContentText(world, post, item, stdin).Ok?
    ensures ContentText(world, post, item, stdin).value == GivenContent(world, post, item, stdin)
  {
  }

  lemma ItemJoin(front: string, disposition: string, contentType: string, headers: string, blank: string, content: string)
    ensures front + (disposition + contentType + headers + blank + content) ==
            front + disposition + (contentType + headers) + blank + content
  {
  }

  /** An item behind a text of its first line. */
  lemma ItemIsSent(world: World, post: Post, item: Item, stdin: string, multi: bool, front: string)
    requires PostOk(post) && ItemOk(item) && ItemText(world, post, item, stdin, multi).Ok?
    ensures front + ItemText(world, post, item, stdin, multi).value ==
            Sent(front + Disposition(post, item, multi), item.contentType, item.headers, GivenContent(world, post, item, stdin))
  {
    var content := GivenContent(world, post, item, stdin);
    ContentIs(world, post, item, stdin);
    ExtraText(item);
    BlankIs();
    PrintedIs(front + Disposition(post, item, multi), Cuts(ExtraLines(item.contentType, item.headers)), content);
    ItemJoin(front, Disposition(post, item, multi), TypeText(item), HeaderLines(item.headers), Line(CRLF + CRLF), content);
  }

  lemma BlankIs()
    ensures Line(CRLF + CRLF) == "\r\n\r\n"
  {
    assert CRLF + CRLF == "\r\n\r\n";
    LineIs("\r\n\r\n");
  }

  lemma StartOneLine(start: string, name: string)
    requires OneLine(start) && start != "" && start[|start| - 1] == '"'
    ensures OneLine(start + Escaped(name) + "\"") <==> OneLine(name)
  {
    EscapedOneLine(name);
    OneLineJoin(start, Escaped(name));
    OneLineJoin(start + Escaped(name), "\"");
  }

  lemma FileOneLine(name: string)
    ensures OneLine(FILE_START + Escaped(name) + "\"") <==> OneLine(name)
  {
    StartOneLine(FILE_START, name);
  }

  lemma NameOneLine(name: string)
    ensures OneLine(NAME_START + Escaped(name) + "\"") <==> OneLine(name)
  {
    StartOneLine(NAME_START, name);
  }

  lemma FieldOneLine(rest: string)
    ensures OneLine(FIELD_START + rest) <==> OneLine(rest)
  {
    OneLineJoin(FIELD_START, rest);
  }

  /** One file of several is read back if and only if its entry can be told apart. */
  lemma FileReadsBack(world: World, post: Post, item: Item, stdin: string)
    requires PostOk(post) && ItemOk(item) && ItemText(world, post, item, stdin, true).Ok?
    ensures var entry := GivenEntry(world, post, item, true, stdin);
            ReadFile(ItemText(world, post, item, stdin, true).value) == Some(entry) <==> EntryOk(entry)
  {
    var text := ItemText(world, post, item, stdin, true).value;
    var first := Disposition(post, item, true);
    ItemIsSent(world, post, item, stdin, true, "");
    NothingInFront(text, first);
    FirstOfFile(post, item);
    SentFile(first, GivenFileName(item), GivenEntry(world, post, item, true, stdin));
  }

  lemma NothingInFront(a: string, b: string)
    ensures "" + a == a && "" + b == b
  {
  }

  lemma SentFile(first: string, name: string, entry: Entry)
    requires first != "" && first[0] == 'C' && entry.fileName == Some(name)
    requires var whole := FILE_START + Escaped(name) + "\""; first <= whole && (first == whole <==> |Escaped(name)| <= 4082)
    ensures ReadFile(Sent(first, entry.contentType, entry.headers, entry.content)) == Some(entry) <==> EntryOk(entry)
  {
    var whole := FILE_START + Escaped(name) + "\"";
    SentExactly(first, whole, entry.contentType, entry.headers, entry.content);
    ExtraOk(entry.contentType, entry.headers);
    FileOneLine(name);
    FileFromLines(ReadEntity(Sent(first, entry.contentType, entry.headers, entry.content)), whole, entry);
  }

  lemma FirstOfFile(post: Post, item: Item)
    requires ItemOk(item)
    ensures var first, whole := Disposition(post, item, true), FILE_START + Escaped(GivenFileName(item)) + "\"";
            && first != "" && first[0] == 'C'
            && first <= whole && (first == whole <==> |Escaped(GivenFileName(item))| <= 4082)
  {
    FileNameIs(item);
    FileStarts();
    BehindStart(ATTACHMENT, NAME_START, Escaped(GivenFileName(item)), "\"", FileNameText(item));
  }

  lemma FileStarts()
    ensures FILE_START == ATTACHMENT + NAME_START && ATTACHMENT != "" && ATTACHMENT[0] == 'C'
  {
  }

  lemma BehindStart(a: string, b: string, c: string, d: string, text: string)
    requires text <= b + c + d
    ensures a + text <= a + b + c + d && (a + text == a + b + c + d <==> text == b + c + d)
  {
    PrefixBehind(a, text, b + c + d);
    Joined3(a, b, c, d);
  }

  lemma Joined3(a: string, b: string, c: string, d: string)
    ensures a + b + c + d == a + (b + c + d)
  {
  }

  lemma PrefixBehind(a: string, b: string, c: string)
    requires b <= c
    ensures a + b <= a + c && (a + b == a + c <==> b == c)
  {
    if a + b == a + c {
      assert |b| == |c|;
    }
  }

  /** What ReadFile() makes of the lines. */
  lemma FileFromLines(e: Option<Entity>, whole: string, entry: Entry)
    requires entry.fileName.Some? && whole == FILE_START + Escaped(entry.fileName.value) + "\""
    requires e.Some? ==> e.value.lines != [] && e.value.lines[0] <= whole
    ensures FileOf(e) == Some(entry) <==>
            && e == Some(Entity([whole] + ExtraLines(entry.contentType, entry.headers), entry.content))
            && (entry.contentType.None? && entry.headers != [] ==> !("Content-Type: " <= entry.headers[0]))
  {
    if e.Some? {
      var lines := e.value.lines;
      var extra := ExtraLines(entry.contentType, entry.headers);
      var missing := whole[|lines[0]|..];
      assert lines[0] + missing == whole;
      FileNameExactly(FILE_START, entry.fileName.value, lines[0], missing);
      ExtraExactly(lines[1..], entry.contentType, entry.headers);
      FirstAndRest(lines, whole, missing, extra);
    }
  }

  lemma FirstAndRest(lines: seq<string>, whole: string, missing: string, rest: seq<string>)
    requires lines != [] && lines[0] + missing == whole
    ensures lines == [whole] + rest <==> missing == "" && lines[1..] == rest
  {
    assert lines == [lines[0]] + lines[1..];
    assert ([whole] + rest)[1..] == rest && ([whole] + rest)[0] == whole;
    assert missing == "" ==> lines[0] == whole;
    assert lines[0] == whole ==> |missing| == 0;
  }

  // ----- a field with one content

  lemma MixedOrNot(contentType: string)
    ensures MIXED_START <= "Content-Type: " + contentType <==> "multipart/mixed; boundary=" <= contentType
  {
    assert MIXED_START == "Content-Type: " + "multipart/mixed; boundary=";
    PrefixAlike("Content-Type: ", "multipart/mixed; boundary=", contentType);
  }

  lemma PrefixAlike(a: string, b: string, c: string)
    ensures a + b <= a + c <==> b <= c
  {
    if a + b <= a + c {
      forall i | 0 <= i < |b| ensures b[i] == c[i] {
        assert (a + b)[|a| + i] == b[i] && (a + c)[|a| + i] == c[i];
      }
    }
  }

  lemma MixedIsType(line: string)
    requires MIXED_START <= line
    ensures "Content-Type: " <= line
  {
    assert MIXED_START == "Content-Type: " + "multipart/mixed; boundary=";
    assert line[..|MIXED_START|] == MIXED_START;
  }

  lemma NotMixedLines(contentType: Option<string>, headers: seq<string>)
    requires contentType.None? && headers != [] ==> !("Content-Type: " <= headers[0])
    ensures var lines := ExtraLines(contentType, headers);
            lines != [] && MIXED_START <= lines[0] <==> contentType.Some? && "multipart/mixed; boundary=" <= contentType.value
  {
    var lines := ExtraLines(contentType, headers);
    if contentType.Some? {
      MixedOrNot(contentType.value);
      assert lines[0] == "Content-Type: " + contentType.value;
    } else if headers != [] && MIXED_START <= headers[0] {
      MixedIsType(headers[0]);
    }
  }

  lemma RestSingle(name: string, fileName: Option<string>, lines: seq<string>, content: string, part: string, entry: Entry)
    ensures ReadRest(name, fileName, lines, content) == Some(Single(part, entry)) <==>
            && name == part && fileName == entry.fileName && content == entry.content
            && lines == ExtraLines(entry.contentType, entry.headers)
            && (entry.contentType.None? && entry.headers != [] ==> !("Content-Type: " <= entry.headers[0])) && NotMixed(entry)
  {
    ExtraExactly(lines, entry.contentType, entry.headers);
    if entry.contentType.None? && entry.headers != [] ==> !("Content-Type: " <= entry.headers[0]) {
      NotMixedLines(entry.contentType, entry.headers);
    }
  }

  /** What ReadPart() makes of the lines. */
  lemma SingleFromLines(e: Option<Entity>, name: string, entry: Entry)
    requires e.Some? ==> e.value.lines != [] && e.value.lines[0] <= Whole(name, entry.fileName)
    ensures PartOf(e) == Some(Single(name, entry)) <==>
            && e == Some(Entity([Whole(name, entry.fileName)] + ExtraLines(entry.contentType, entry.headers), entry.content))
            && (entry.contentType.None? && entry.headers != [] ==> !("Content-Type: " <= entry.headers[0]))
            && Plain(name) && NotMixed(entry)
  {
    if e.Some? {
      var lines, whole := e.value.lines, Whole(name, entry.fileName);
      var missing := whole[|lines[0]|..];
      assert lines[0] + missing == whole;
      DispositionExactly(name, entry.fileName, lines[0], missing);
      FirstAndRest(lines, whole, missing, ExtraLines(entry.contentType, entry.headers));
      var d := ReadDisposition(lines[0]);
      if d.Some? {
        RestSingle(d.value.0, d.value.1, lines[1..], e.value.content, name, entry);
      }
    }
  }

  lemma WholeOneLine(name: string, fileName: Option<string>)
    ensures OneLine(Whole(name, fileName)) <==> OneLine(name) && (fileName.Some? ==> OneLine(fileName.value))
  {
    FieldOneLine(name + "\"" + NamePart(fileName));
    OneLineJoin(name + "\"", NamePart(fileName));
    OneLineJoin(name, "\"");
    if fileName.Some? {
      NameOneLine(fileName.value);
    }
  }

  lemma SentSingle(first: string, name: string, entry: Entry)
    requires first != "" && first[0] == 'C' && first <= Whole(name, entry.fileName)
    requires first == Whole(name, entry.fileName) <==> (entry.fileName.Some? ==> |Escaped(entry.fileName.value)| <= 4082)
    ensures ReadPart(Sent(first, entry.contentType, entry.headers, entry.content)) == Some(Single(name, entry)) <==>
            NameOk(name) && EntryOk(entry) && NotMixed(entry)
  {
    SentExactly(first, Whole(name, entry.fileName), entry.contentType, entry.headers, entry.content);
    ExtraOk(entry.contentType, entry.headers);
    WholeOneLine(name, entry.fileName);
    SingleFromLines(ReadEntity(Sent(first, entry.contentType, entry.headers, entry.content)), name, entry);
  }

  lemma HeadIs(post: Post)
    requires PostOk(post)
    ensures FieldHead(post) == FIELD_START + (GivenName(post) + "\"")
    ensures FieldHead(post) != "" && FieldHead(post)[0] == 'C' && FieldHead(post) == Whole(GivenName(post), None)
  {
    assert FIELD == FIELD_START;
    assert FIELD + GivenName(post) + "\"" == FIELD + (GivenName(post) + "\"");
    assert GivenName(post) + "\"" + "" == GivenName(post) + "\"";
  }

  lemma FirstOfSingle(post: Post, fileName: Option<string>)
    requires PostOk(post)
    requires var named := post.fileName || ((post.useBuffer || post.useCallback) && post.first.showFileName.Some?);
             fileName == if named then Some(GivenFileName(post.first)) else None
    ensures var first, whole := FieldHead(post) + Disposition(post, post.first, false), Whole(GivenName(post), fileName);
            && first != "" && first[0] == 'C' && first <= whole
            && (first == whole <==> (fileName.Some? ==> |Escaped(fileName.value)| <= 4082))
  {
    HeadIs(post);
    FileNameIs(post.first);
    PrefixBehind(FieldHead(post), Disposition(post, post.first, false), NamePart(fileName));
    HeadAndName(FIELD_START, GivenName(post) + "\"", NamePart(fileName));
  }

  lemma HeadAndName(a: string, b: string, c: string)
    ensures a + b + c == a + (b + c)
  {
  }

  /** A field with one content is read back if and only if its name, its file name,
      its type and its headers can be told apart. */
  lemma SingleReadsBack(world: World, post: Post, k: nat, stdin: string)
    requires PostOk(post) && post.more == [] && PartText(world, post, k, stdin).Ok?
    ensures ReadPart(PartText(world, post, k, stdin).value) == Some(GivenPart(world, post, stdin)) <==> PartOk(world, post, k, stdin)
  {
    var part := GivenPart(world, post, stdin);
    ItemIsSent(world, post, post.first, stdin, false, FieldHead(post));
    FirstOfSingle(post, part.entry.fileName);
    SentSingle(FieldHead(post) + Disposition(post, post.first, false), part.name, part.entry);
  }

  // ----- a field with several files

  lemma {:induction false} FilesReadBack(world: World, post: Post, items: seq<Item>, stdin: string)
    requires PostOk(post) && (forall i :: 0 <= i < |items| ==> ItemOk(items[i])) && ItemTexts(world, post, items, stdin).Ok?
    ensures var texts, entries := ItemTexts(world, post, items, stdin).value, GivenEntries(world, post, items, stdin);
            |texts| == |items| && (ReadFiles(texts) == Some(entries) <==> EntriesOk(entries))
    decreases |items|
  {
    if items != [] {
      var rest := StdinAfter(post, items[0], stdin);
      FileReadsBack(world, post, items[0], stdin);
      FilesReadBack(world, post, items[1..], rest);
      EntriesStep(ItemTexts(world, post, items, stdin).value, GivenEntries(world, post, items, stdin));
    }
  }

  lemma EntriesStep(texts: seq<string>, entries: seq<Entry>)
    requires texts != [] && entries != []
    ensures ReadFiles(texts) == Some(entries) <==> ReadFile(texts[0]) == Some(entries[0]) && ReadFiles(texts[1..]) == Some(entries[1..])
    ensures EntriesOk(entries) <==> EntryOk(entries[0]) && EntriesOk(entries[1..])
  {
    assert entries == [entries[0]] + entries[1..];
    assert forall i :: 1 <= i < |entries| ==> entries[i] == entries[1..][i - 1];
  }

  lemma {:induction false} StrippedBack(texts: seq<string>, pieces: seq<string>)
    requires |pieces| == |texts| && forall i :: 0 <= i < |texts| ==> pieces[i] == "\r\n" + texts[i]
    ensures Stripped(pieces) == Some(texts)
    decreases |texts|
  {
    if texts != [] {
      StrippedBack(texts[1..], pieces[1..]);
      assert pieces[0][2..] == texts[0];
      assert [texts[0]] + texts[1..] == texts;
    }
  }

  /** Splitting gives no fewer pieces than were joined, and more if the delimiter
      occurs in one. */
  lemma {:induction false} ManyPieces(pieces: seq<string>, d: string)
    requires pieces != [] && HeadOnce(d)
    ensures |Split(Join(pieces, d), d)| >= |pieces| + if AllFree(pieces, d) then 0 else 1
    decreases |Join(pieces, d)|
  {
    if !Contains(pieces[0], d) {
      FreeStep(pieces, d);
      if |pieces| > 1 {
        SplitAtEdge(pieces, d);
        ManyPieces(pieces[1..], d);
      }
    } else {
      var fewer := SplitInside(pieces, d);
      ManyPieces(fewer, d);
    }
  }

  lemma FreeStep(pieces: seq<string>, d: string)
    requires pieces != []
    ensures AllFree(pieces, d) <==> !Contains(pieces[0], d) && AllFree(pieces[1..], d)
  {
    assert forall i :: 1 <= i < |pieces| ==> pieces[i] == pieces[1..][i - 1];
  }

  lemma SplitAtEdge(pieces: seq<string>, d: string)
    requires |pieces| > 1 && HeadOnce(d) && !Contains(pieces[0], d)
    ensures |Split(Join(pieces, d), d)| == 1 + |Split(Join(pieces[1..], d), d)| && |Join(pieces[1..], d)| < |Join(pieces, d)|
  {
    FoundAtEdge(pieces[0], d, Join(pieces[1..], d));
    FrontBack(pieces[0], d, Join(pieces[1..], d));
  }

  lemma SplitInside(pieces: seq<string>, d: string) returns (fewer: seq<string>)
    requires pieces != [] && d != "" && Contains(pieces[0], d)
    ensures |fewer| == |pieces| && |Split(Join(pieces, d), d)| == 1 + |Split(Join(fewer, d), d)| && |Join(fewer, d)| < |Join(pieces, d)|
  {
    var k := CutInside(pieces, d);
    fewer := [pieces[0][k + |d|..]] + pieces[1..];
  }

  lemma CutInside(pieces: seq<string>, d: string) returns (k: nat)
    requires pieces != [] && d != "" && Contains(pieces[0], d)
    ensures k + |d| <= |pieces[0]| && FindFirst(Join(pieces, d), d) == Some(k)
    ensures Join(pieces, d)[k + |d|..] == Join([pieces[0][k + |d|..]] + pieces[1..], d)
  {
    var a, more := pieces[0], if |pieces| == 1 then "" else d + Join(pieces[1..], d);
    assert Join(pieces, d) == a + more;
    FoundInside(a, more, d);
    k := FindFirst(a + more, d).value;
    var fewer := [a[k + |d|..]] + pieces[1..];
    assert fewer[1..] == pieces[1..] && fewer[0] == a[k + |d|..];
    DropInside(a, more, k + |d|);
    Regroup(a[k + |d|..], d, if |pieces| == 1 then "" else Join(pieces[1..], d));
  }

  lemma DropInside(a: string, more: string, k: nat)
    requires k <= |a|
    ensures (a + more)[k..] == a[k..] + more && (more == "" ==> a[k..] + more == a[k..])
  {
  }

  lemma BetweenBack(texts: seq<string>, last: string)
    ensures Between([""] + Pieces(texts, last), last) == Some(texts)
  {
    var pieces := [""] + Pieces(texts, last);
    var middle := pieces[1..|pieces| - 1];
    assert forall i :: 0 <= i < |texts| ==> middle[i] == pieces[i + 1];
    StrippedBack(texts, middle);
  }

  lemma CutBack(pieces: seq<string>, d: string)
    requires pieces != [] && HeadOnce(d)
    ensures if AllFree(pieces, d) then Split(Join(pieces, d), d) == pieces else |Split(Join(pieces, d), d)| > |pieces|
  {
    ManyPieces(pieces, d);
    if AllFree(pieces, d) {
      SplitOfJoin(pieces, d);
    }
  }

  lemma FreePieces(texts: seq<string>, boundary: string, last: string)
    requires forall i :: 0 <= i < |boundary| ==> boundary[i] == '-' || IsAlnum(boundary[i])
    requires |last| < |Delimiter(boundary)| && forall i :: 0 <= i < |texts| ==> Starts(texts[i])
    ensures HeadOnce(Delimiter(boundary))
    ensures AllFree([""] + Pieces(texts, last), Delimiter(boundary)) <==> NoneContains(texts, boundary)
  {
    BoundaryHeadOnce(boundary);
    PiecesFree("", texts, last, boundary);
  }

  /** A receiver gets the texts of an entity if and only if none of them contains
      the delimiter; else not even their number is right. */
  lemma TextsBack(text: string, texts: seq<string>, boundary: string, last: string)
    requires forall i :: 0 <= i < |boundary| ==> boundary[i] == '-' || IsAlnum(boundary[i])
    requires |last| < |Delimiter(boundary)| && forall i :: 0 <= i < |texts| ==> Starts(texts[i])
    requires "\r\n" + text == Join([""] + Pieces(texts, last), Delimiter(boundary))
    ensures var r := ReadTexts(text, boundary, last);
            if NoneContains(texts, boundary) then r == Some(texts) else r.None? || |r.value| != |texts|
  {
    var pieces := [""] + Pieces(texts, last);
    FreePieces(texts, boundary, last);
    CutBack(pieces, Delimiter(boundary));
    BetweenBack(texts, last);
    assert |pieces| == |texts| + 2;
  }

  /** What stands between the header of such a field and its end. */
  lemma MixedIsSent(head: string, texts: seq<string>, boundary: string) returns (content: string)
    requires texts != []
    ensures Mixed(head + (MIXED + boundary + CRLF), texts, boundary) == Printed([head] + [MIXED_START + boundary], content)
    ensures "\r\n" + content == Join([""] + Pieces(texts, "--"), Delimiter(boundary))
  {
    content := InnerIs(texts, boundary);
    PrintedIs(head, [MIXED_START + boundary], content);
    MixedStarts();
    MixedJoin(head, MIXED_START, boundary, Delimited(texts, boundary), "\r\n--" + boundary + "--", content);
    OneTail(MIXED_START + boundary);
  }

  lemma MixedStarts()
    ensures MIXED == "\r\n" + MIXED_START
  {
  }

  lemma OneTail(line: string)
    ensures Tail([line]) == "\r\n" + line + ""
  {
    assert [line][1..] == [];
  }

  lemma InnerIs(texts: seq<string>, boundary: string) returns (content: string)
    requires texts != []
    ensures Delimited(texts, boundary) + ("\r\n--" + boundary + "--") == "\r\n" + content == Join([""] + Pieces(texts, "--"), Delimiter(boundary))
  {
    DelimitedIsJoin("", texts, boundary, "--");
    InnerStarts(texts, boundary);
    content := (Delimited(texts, boundary) + ("\r\n--" + boundary + "--"))[2..];
    NothingInFront(Delimited(texts, boundary), "");
  }

  lemma InnerStarts(texts: seq<string>, boundary: string)
    requires texts != []
    ensures var inner := Delimited(texts, boundary) + ("\r\n--" + boundary + "--");
            |inner| >= 2 && inner == "\r\n" + inner[2..]
  {
    assert Opening(true, boundary)[0] == '\r' && Opening(true, boundary)[1] == '\n';
  }

  lemma MixedJoin(head: string, start: string, boundary: string, delimited: string, closing: string, content: string)
    requires delimited + closing == "\r\n" + content
    ensures head + ("\r\n" + start + boundary + "\r\n") + delimited + closing ==
            head + ("\r\n" + (start + boundary) + "") + "\r\n\r\n" + content
  {
    assert "\r\n" + "\r\n" == "\r\n\r\n";
    assert head + ("\r\n" + start + boundary + "\r\n") + delimited + closing
        == head + ("\r\n" + (start + boundary) + "") + "\r\n" + (delimited + closing);
    assert head + ("\r\n" + (start + boundary) + "") + "\r\n" + ("\r\n" + content)
        == head + ("\r\n" + (start + boundary) + "") + ("\r\n" + "\r\n") + content;
  }

  lemma MixedLine(boundary: string)
    requires forall i :: 0 <= i < |boundary| ==> boundary[i] == '-' || IsAlnum(boundary[i])
    ensures var line := MIXED_START + boundary;
            line != "" && OneLine(line) && MIXED_START <= line && line[|MIXED_START|..] == boundary
  {
    OneLineJoin(MIXED_START, boundary);
    Starting(MIXED_START, boundary);
  }

  /** The header of such a field has two lines. */
  lemma GroupLines(whole: string, line: string, content: string)
    requires whole != "" && whole[0] == 'C' && line != "" && OneLine(line)
    ensures var e := ReadEntity(Printed([whole] + [line], content));
            && (e.Some? ==> e.value.lines != [] && e.value.lines[0] <= whole)
            && (if OneLine(whole) then e == Some(Entity([whole, line], content)) else e.Some? ==> e.value.lines[0] != whole)
  {
    var lines := [whole] + [line];
    assert lines == [whole, line] && lines[1..] == [line];
    LinesBack(lines, lines, content);
    FirstLine(whole, Printed([line], content));
    FirstOf(whole, whole, Printed([line], content));
  }

  lemma RestGroup(name: string, boundary: string, content: string, texts: seq<string>, entries: seq<Entry>)
    requires |texts| == |entries| && (ReadFiles(texts) == Some(entries) <==> EntriesOk(entries))
    requires var r := ReadTexts(content, boundary, "--");
             if NoneContains(texts, boundary) then r == Some(texts) else r.None? || |r.value| != |texts|
    ensures ReadRest(name, None, [MIXED_START + boundary], content) == Some(Group(name, entries)) <==>
            EntriesOk(entries) && NoneContains(texts, boundary)
  {
    Starting(MIXED_START, boundary);
  }

  lemma GroupFromLines(name: string, boundary: string, content: string, texts: seq<string>, entries: seq<Entry>)
    requires forall i :: 0 <= i < |boundary| ==> boundary[i] == '-' || IsAlnum(boundary[i])
    requires |texts| == |entries| && (ReadFiles(texts) == Some(entries) <==> EntriesOk(entries))
    requires var r := ReadTexts(content, boundary, "--");
             if NoneContains(texts, boundary) then r == Some(texts) else r.None? || |r.value| != |texts|
    ensures ReadPart(Printed([Whole(name, None)] + [MIXED_START + boundary], content)) == Some(Group(name, entries)) <==>
            NameOk(name) && EntriesOk(entries) && NoneContains(texts, boundary)
  {
    var whole, line := Whole(name, None), MIXED_START + boundary;
    var e := ReadEntity(Printed([whole] + [line], content));
    MixedLine(boundary);
    GroupLines(whole, line, content);
    WholeOneLine(name, None);
    RestGroup(name, boundary, content, texts, entries);
    if e.Some? {
      var missing := whole[|e.value.lines[0]|..];
      assert e.value.lines[0] + missing == whole;
      DispositionExactly(name, None, e.value.lines[0], missing);
      assert missing == "" ==> e.value.lines[0] == whole;
      assert OneLine(whole) ==> missing == "" && e.value.lines[1..] == [line];
    }
  }

  /** A field with several files is read back if and only if its name and each file
      can be told apart and no file contains the delimiter. */
  lemma GroupReadsBack(world: World, post: Post, k: nat, stdin: string)
    requires PostOk(post) && post.more != [] && PartText(world, post, k, stdin).Ok?
    ensures ReadPart(PartText(world, post, k, stdin).value) == Some(GivenPart(world, post, stdin)) <==> PartOk(world, post, k, stdin)
  {
    var texts, boundary := ItemTexts(world, post, Items(post), stdin).value, Boundary(world, k);
    var entries := GivenEntries(world, post, Items(post), stdin);
    FilesReadBack(world, post, Items(post), stdin);
    ItemsStart(world, post, Items(post), stdin);
    HeadIs(post);
    var content := MixedIsSent(FieldHead(post), texts, boundary);
    TextsBack(content, texts, boundary, "--");
    GroupFromLines(GivenName(post), boundary, content, texts, entries);
  }

  // ----- the whole post

  lemma {:induction false} StdinTaken(post: Post, items: seq<Item>, stdin: string)
    ensures StdinAfterAll(post, items, stdin) == if AnyReadsStdin(post, items) then "" else stdin
    decreases |items|
  {
    if items != [] {
      StdinTaken(post, items[1..], StdinAfter(post, items[0], stdin));
      assert AnyReadsStdin(post, items) <==> ReadsStdin(post, items[0]) || AnyReadsStdin(post, items[1..]) by {
        assert forall i :: 1 <= i < |items| ==> items[i] == items[1..][i - 1];
        assert forall i :: 0 <= i < |items[1..]| ==> items[1..][i] == items[i + 1];
      }
    }
  }

  lemma {:induction false} PartsReadBack(world: World, posts: seq<Post>, k: nat, stdin: string)
    requires PostsOk(posts) && PartTexts(world, posts, k, stdin).Ok?
    ensures var texts := PartTexts(world, posts, k, stdin).value;
            |texts| == |posts|
            && (ReadParts(texts) == Some(GivenParts(world, posts, stdin)) <==> AllPartsOk(world, posts, k, stdin))
    decreases |posts|
  {
    if posts != [] {
      var post := posts[0];
      if post.more == [] {
        SingleReadsBack(world, post, k, stdin);
      } else {
        GroupReadsBack(world, post, k, stdin);
      }
      StdinTaken(post, Items(post), stdin);
      PartsReadBack(world, posts[1..], BoundaryAfter(post, k), StdinAfterAll(post, Items(post), stdin));
      PartsStep(PartTexts(world, posts, k, stdin).value, GivenParts(world, posts, stdin));
    }
  }

  lemma PartsStep(texts: seq<string>, parts: seq<Part>)
    requires texts != [] && parts != []
    ensures ReadParts(texts) == Some(parts) <==> ReadPart(texts[0]) == Some(parts[0]) && ReadParts(texts[1..]) == Some(parts[1..])
  {
    assert parts == [parts[0]] + parts[1..];
  }

  /** A receiver that knows the boundary reads from the body exactly the fields the
      caller gave, in order, if and only if the delimiter occurs in no part and in
      each field name, type and headers can be told apart. */
  lemma PostReadsBack(world: World, posts: seq<Post>, stdin: string)
    requires PostsOk(posts) && posts != [] && PartTexts(world, posts, 1, stdin).Ok?
    ensures var texts, boundary := PartTexts(world, posts, 1, stdin).value, Boundary(world, 0);
            ReadBody(boundary, Body(texts, boundary)) == Some(GivenParts(world, posts, stdin)) <==>
            NoneContains(texts, boundary) && AllPartsOk(world, posts, 1, stdin)
  {
    var texts, boundary := PartTexts(world, posts, 1, stdin).value, Boundary(world, 0);
    PartsStart(world, posts, 1, stdin);
    PartsReadBack(world, posts, 1, stdin);
    BodyIsJoin(texts, boundary);
    TextsBack(Body(texts, boundary), texts, boundary, "--\r\n");
  }

  // ----- errors

  /** What is wrong with the first of these items that is a file and cannot be
      sent. */
  function FirstError(world: World, post: Post, items: seq<Item>): Option<Error>
    decreases |items|
  {
    if items == [] then None
    else
      var path := CStr(items[0].contents);
      if !(post.fileName || post.readFile) || path == "-" || world.files(path).Regular? then FirstError(world, post, items[1..])
      else if world.files(path).Missing? then Some(ReadError)
      else Some(BadFunctionArgument)
  }

  function FirstErrorOfAll(world: World, posts: seq<Post>): Option<Error> {
    if posts == [] then None
    else
      var error := FirstError(world, posts[0], [posts[0].first] + posts[0].more);
      if error.Some? then error else FirstErrorOfAll(world, posts[1..])
  }

  lemma {:induction false} ItemErrors(world: World, post: Post, items: seq<Item>, stdin: string)
    requires PostOk(post)
    ensures var r := ItemTexts(world, post, items, stdin);
            match FirstError(world, post, items)
            case None => r.Ok?
            case Some(e) => r == Err(e)
    decreases |items|
  {
    if items != [] {
      ItemErrors(world, post, items[1..], StdinAfter(post, items[0], stdin));
    }
  }

  lemma OneItemError(world: World, post: Post, stdin: string)
    requires PostOk(post)
    ensures var r := ContentText(world, post, post.first, stdin);
            match FirstError(world, post, [post.first])
            case None => r.Ok?
            case Some(e) => r == Err(e)
  {
    assert [post.first][1..] == [];
  }

  /** A post fails exactly if one of its files cannot be read, and with the error of
      the first one. */
  lemma {:induction false} ErrorsExactly(world: World, posts: seq<Post>, k: nat, stdin: string)
    requires PostsOk(posts)
    ensures var r := PartTexts(world, posts, k, stdin);
            match FirstErrorOfAll(world, posts)
            case None => r.Ok?
            case Some(e) => r == Err(e)
    decreases |posts|
  {
    if posts != [] {
      var post := posts[0];
      if post.more == [] {
        OneItemError(world, post, stdin);
        assert [post.first] + post.more == [post.first];
      } else {
        ItemErrors(world, post, Items(post), stdin);
      }
      ErrorsExactly(world, posts[1..], BoundaryAfter(post, k), StdinAfterAll(post, Items(post), stdin));
    }
  }

  // ----- the header line

  const DEFAULT_TYPE := "Content-Type: multipart/form-data"

  lemma HeaderWhole(start: string, world: World, k: nat)
    requires NoNul(start) && |start| <= 4042
    ensures Line(start + "; boundary=" + Boundary(world, k) + CRLF) == start + "; boundary=" + Boundary(world, k) + "\r\n"
  {
    LineIs(start + "; boundary=" + Boundary(world, k) + CRLF);
  }

  lemma BoundaryAtEdge(start: string, boundary: string)
    requires !Contains(start, "; boundary=")
    ensures ReadBoundary(start + "; boundary=" + boundary + "\r\n") == Some(boundary)
  {
    var header := start + "; boundary=" + boundary + "\r\n";
    Joined3(start, "; boundary=", boundary, "\r\n");
    Regroup(start + "; boundary=", boundary, "\r\n");
    assert HeadOnce("; boundary=");
    FoundAtEdge(start, "; boundary=", boundary + "\r\n");
    assert header[|start| + 11..|header| - 2] == boundary;
    assert header[|header| - 2..] == "\r\n";
  }

  lemma BoundaryInside(start: string, boundary: string)
    requires Contains(start, "; boundary=")
    ensures ReadBoundary(start + "; boundary=" + boundary + "\r\n") != Some(boundary)
  {
    var header := start + "; boundary=" + boundary + "\r\n";
    Joined3(start, "; boundary=", boundary, "\r\n");
    FoundInside(start, "; boundary=" + boundary + "\r\n", "; boundary=");
    var k := FindFirst(header, "; boundary=").value;
    assert |header[k + 11..|header| - 2]| > |boundary|;
  }

  lemma NoBoundaryYet()
    ensures !Contains(DEFAULT_TYPE, "; boundary=")
  {
    forall k | 0 <= k <= |DEFAULT_TYPE| ensures !OccursAt(DEFAULT_TYPE, "; boundary=", k) {
      if k + 11 <= |DEFAULT_TYPE| {
        assert DEFAULT_TYPE[k] != ';';
        assert DEFAULT_TYPE[k..k + 11][0] == DEFAULT_TYPE[k];
      }
    }
  }

  /** The header line tells the boundary if and only if a content type of the
      caller's own does not tell one. */
  lemma HeaderReadsBack(contentType: Option<string>, world: World, k: nat)
    requires contentType.Some? ==> NoNul(contentType.value) && |contentType.value| <= 4042
    ensures var start := if contentType.Some? then contentType.value else "Content-Type: multipart/form-data";
            && HeaderLine(contentType, Boundary(world, k)) == start + "; boundary=" + Boundary(world, k) + "\r\n"
            && (ReadBoundary(HeaderLine(contentType, Boundary(world, k))) == Some(Boundary(world, k)) <==>
                (contentType.Some? ==> !Contains(contentType.value, "; boundary=")))
  {
    var start := if contentType.Some? then contentType.value else DEFAULT_TYPE;
    HeaderWhole(start, world, k);
    NoBoundaryYet();
    if Contains(start, "; boundary=") {
      BoundaryInside(start, Boundary(world, k));
    } else {
      BoundaryAtEdge(start, Boundary(world, k));
    }
  }

  // ----- boundaries

  function Digit(c: char): nat {
    if '0' <= c <= '9' then c as int - '0' as int
    else if 'a' <= c <= 'f' then c as int - 'a' as int + 10
    else 0
  }

  /** The number a text of hexadecimal digits denotes. */
  function Value(text: string): nat {
    if text == "" then 0 else 16 * Value(text[..|text| - 1]) + Digit(text[|text| - 1])
  }

  function Power(digits: nat): nat {
    if digits == 0 then 1 else 16 * Power(digits - 1)
  }

  lemma {:induction false} HexReadsBack(n: nat, digits: nat)
    requires n < Power(digits)
    ensures Value(Hex(n, digits)) == n
    decreases digits
  {
    if digits > 0 {
      HexReadsBack(n / 16, digits - 1);
      var s := Hex(n, digits);
      assert s[..|s| - 1] == Hex(n / 16, digits - 1);
      assert Digit(HexDigit(n % 16)) == n % 16;
    }
  }

  /** A boundary is 24 dashes and the digits of two random numbers of 32 bits. */
  lemma BoundaryTells(world: World, k: nat)
    requires world.random(2 * k) < 0x1_0000_0000 && world.random(2 * k + 1) < 0x1_0000_0000
    ensures var b := Boundary(world, k);
            && b[..24] == "------------------------"
            && Value(b[24..32]) == world.random(2 * k) && Value(b[32..]) == world.random(2 * k + 1)
  {
    var b := Boundary(world, k);
    assert Power(8) == 0x1_0000_0000;
    HexReadsBack(world.random(2 * k), 8);
    HexReadsBack(world.random(2 * k + 1), 8);
    assert b[24..32] == Hex(world.random(2 * k), 8);
    assert b[32..] == Hex(world.random(2 * k + 1), 8);
  }
}
