/** Multipart form posts as lib/formdata.c sees them: the posts, the chunk list
    they are compiled into, and the text of the body (section 5.1.1 of RFC 2046)
    that the list stands for. A char is one byte. */
module FormModel {
  import opened CText

  /** CURLcode, as far as Curl_getformdata() sets it beside CURLE_OK. */
  datatype Error = ReadError | BadFunctionArgument

  datatype Result<+T> = Ok(value: T) | Err(error: Error)

  /** What stat() and fopen() say of a path. */
  datatype FileState = Missing | Directory | Regular(bytes: string)

  /** The files there are, and the random numbers the boundaries are made of. */
  datatype World = World(files: string -> FileState, random: nat -> nat)

  /** The members of struct curl_httppost that differ between the files of one
      field. `contents` is memory; a C string in it ends at the first NUL. */
  datatype Item = Item(contents: string, contentType: Option<string>, headers: seq<string>, showFileName: Option<string>)

  /** struct curl_httppost: one field, with `first` and the `more` chain behind
      it. `user` is what the read callback delivers for userp. */
  datatype Post = Post(
    name: string, nameLength: nat, first: Item, more: seq<Item>, contentsLength: nat,
    buffer: string, bufferLength: nat, user: string,
    fileName: bool, readFile: bool, useBuffer: bool, useCallback: bool)

  /** Strings are C strings, and a given length stays within its memory. */
  predicate PostOk(post: Post) {
    && post.nameLength <= |post.name| && post.bufferLength <= |post.buffer|
    && (post.contentsLength <= |post.first.contents| || post.useCallback)
    && ItemOk(post.first) && forall i :: 0 <= i < |post.more| ==> ItemOk(post.more[i])
  }

  predicate ItemOk(item: Item) {
    && (item.contentType.Some? ==> NoNul(item.contentType.value))
    && (item.showFileName.Some? ==> NoNul(item.showFileName.value))
    && forall i :: 0 <= i < |item.headers| ==> NoNul(item.headers[i])
  }

  // ----- chunks

  /** struct FormData. A callback chunk carries what the callback will deliver
      and the length announced for it. */
  datatype Chunk = Data(text: string) | Content(text: string) | Callback(user: string, length: nat) | File(name: string)

  predicate IsStream(c: Chunk) {
    c.Callback? || c.File?
  }

  function Delivers(world: World, c: Chunk): string {
    match c
    case Data(text) => text
    case Content(text) => text
    case Callback(user, _) => user
    case File(name) => if world.files(name).Regular? then world.files(name).bytes else ""
  }

  /** What AddFormData() adds to the size of the post. */
  function Announces(world: World, c: Chunk): nat {
    if c.Callback? then c.length else |Delivers(world, c)|
  }

  function Flat(world: World, list: seq<Chunk>): string
    decreases |list|
  {
    if list == [] then "" else Delivers(world, list[0]) + Flat(world, list[1..])
  }

  function Size(world: World, list: seq<Chunk>): nat
    decreases |list|
  {
    if list == [] then 0 else Announces(world, list[0]) + Size(world, list[1..])
  }

  /** What the callbacks announce beyond what they deliver. */
  function Excess(list: seq<Chunk>): int {
    if list == [] then 0
    else (if list[0].Callback? then list[0].length - |list[0].user| else 0) + Excess(list[1..])
  }

  /** Every file of the list can be read. */
  predicate Openable(world: World, list: seq<Chunk>)
    decreases |list|
  {
    list == [] || ((list[0].File? ==> world.files(list[0].name).Regular?) && Openable(world, list[1..]))
  }

  /** Reading the list from a point where `some` says whether text has come since
      the last stream: None when a stream follows a stream with no text between,
      else whether text has come since the last stream at the end. */
  function Feed(some: bool, list: seq<Chunk>): Option<bool>
    decreases |list|
  {
    if list == [] then Some(some)
    else if !IsStream(list[0]) then Feed(some || list[0].text != "", list[1..])
    else if some then Feed(false, list[1..])
    else None
  }

  /** What the reader relies on: every stream stands between texts. */
  predicate WellShaped(list: seq<Chunk>) {
    Feed(false, list) == Some(true)
  }

  lemma {:induction false} FlatAppend(world: World, a: seq<Chunk>, b: seq<Chunk>)
    ensures Flat(world, a + b) == Flat(world, a) + Flat(world, b)
    decreases |a|
  {
    if a == [] {
      assert a + b == b;
      assert "" + Flat(world, b) == Flat(world, b);
    } else {
      FlatAppend(world, a[1..], b);
      assert (a + b)[1..] == a[1..] + b;
      Regroup(Delivers(world, a[0]), Flat(world, a[1..]), Flat(world, b));
    }
  }

  lemma {:induction false} SizeAppend(world: World, a: seq<Chunk>, b: seq<Chunk>)
    ensures Size(world, a + b) == Size(world, a) + Size(world, b)
    ensures Excess(a + b) == Excess(a) + Excess(b)
    ensures Openable(world, a + b) <==> Openable(world, a) && Openable(world, b)
    decreases |a|
  {
    if a == [] {
      assert a + b == b;
    } else {
      SizeAppend(world, a[1..], b);
      assert (a + b)[1..] == a[1..] + b;
    }
  }

  lemma Regroup<T>(a: seq<T>, b: seq<T>, c: seq<T>)
    ensures a + (b + c) == a + b + c
  {
  }

  lemma Regroup4<T>(a: seq<T>, b: seq<T>, c: seq<T>, d: seq<T>)
    ensures a + (b + c + d) == a + b + c + d
  {
  }

  lemma {:induction false} FeedAppend(some: bool, a: seq<Chunk>, b: seq<Chunk>)
    ensures Feed(some, a + b) == if Feed(some, a).Some? then Feed(Feed(some, a).value, b) else None
    decreases |a|
  {
    if a == [] {
      assert a + b == b;
    } else {
      assert (a + b)[1..] == a[1..] + b;
      FeedAppend(some || (!IsStream(a[0]) && a[0].text != ""), a[1..], b);
      FeedAppend(false, a[1..], b);
    }
  }

  lemma {:induction false} FeedMore(list: seq<Chunk>)
    requires Feed(false, list).Some?
    ensures Feed(true, list).Some?
    ensures Feed(false, list) == Some(true) ==> Feed(true, list) == Some(true)
    decreases |list|
  {
    if list != [] && !IsStream(list[0]) && list[0].text == "" {
      FeedMore(list[1..]);
    }
  }

  /** The announced size is the length of the body exactly when the callbacks
      deliver, in all, what they announce. */
  lemma {:induction false} SizeIsLength(world: World, list: seq<Chunk>)
    ensures Size(world, list) == |Flat(world, list)| + Excess(list)
    decreases |list|
  {
    if list != [] {
      SizeIsLength(world, list[1..]);
    }
  }

  // ----- text

  const CRLF := "\r\n"

  /** What vsnprintf() into char[4096] leaves of a text. */
  function Fit(text: string): string {
    if |text| <= 4095 then text else text[..4095]
  }

  /** A pointer with a length, where zero means a C string. */
  function Pointed(mem: string, length: nat): string
    requires length <= |mem|
  {
    if length == 0 then CStr(mem) else mem[..length]
  }

  function HexDigit(d: nat): char
    requires d < 16
  {
    if d < 10 then '0' + d as char else 'a' + (d - 10) as char
  }

  /** %08x */
  function Hex(n: nat, digits: nat): (s: string)
    ensures |s| == digits && forall i :: 0 <= i < digits ==> IsAlnum(s[i])
  {
    if digits == 0 then "" else Hex(n / 16, digits - 1) + [HexDigit(n % 16)]
  }

  /** formboundary(): the k-th boundary made. */
  function Boundary(world: World, k: nat): (b: string)
    ensures |b| == 40 && forall i :: 0 <= i < 40 ==> b[i] == '-' || IsAlnum(b[i])
  {
    "------------------------" + Hex(world.random(2 * k), 8) + Hex(world.random(2 * k + 1), 8)
  }

  predicate IsSlash(c: char) {
    c == '/' || c == '\\'
  }

  /** The position behind the last slash or backslash. */
  function AfterSlash(path: string): (k: nat)
    ensures k <= |path| && (k == 0 || IsSlash(path[k - 1]))
    ensures forall i :: k <= i < |path| ==> !IsSlash(path[i])
  {
    if path == "" || IsSlash(path[|path| - 1]) then |path| else AfterSlash(path[..|path| - 1])
  }

  function Escaped(name: string): string {
    if name == "" then "" else EscapedChar(name[0]) + Escaped(name[1..])
  }

  function EscapedChar(c: char): string {
    if c == '\\' || c == '"' then ['\\', c] else [c]
  }

  /** What AddFormDataf() adds for a formatted text. */
  function Line(text: string): string {
    CStr(Fit(text))
  }

  lemma NoNulJoin(a: string, b: string)
    requires NoNul(a) && NoNul(b)
    ensures NoNul(a + b)
  {
  }

  lemma LineIs(text: string)
    requires NoNul(text) && |text| <= 4095
    ensures Line(text) == text
  {
    CStrWhole(text);
  }

  function FileNameText(item: Item): string {
    var path := CStr(item.contents);
    var name := if item.showFileName.Some? then item.showFileName.value else path[AfterSlash(path)..];
    Line("; filename=\"" + Escaped(name) + "\"")
  }

  function HeaderLines(headers: seq<string>): string {
    if headers == [] then "" else Line(CRLF + headers[0]) + HeaderLines(headers[1..])
  }

  predicate FromFile(post: Post) {
    post.fileName || post.readFile
  }

  predicate FromStdin(post: Post, item: Item) {
    FromFile(post) && CStr(item.contents) == "-"
  }

  /** The contents of one item, and what they leave of the standard input. */
  function ContentText(world: World, post: Post, item: Item, stdin: string): Result<string>
    requires PostOk(post)
  {
    if FromStdin(post, item) then Ok(stdin)
    else if FromFile(post) then
      match world.files(CStr(item.contents))
      case Missing => Err(ReadError)
      case Directory => Err(BadFunctionArgument)
      case Regular(bytes) => Ok(bytes)
    else if post.useBuffer then Ok(Pointed(post.buffer, post.bufferLength))
    else if post.useCallback then Ok(post.user)
    else Ok(Pointed(post.first.contents, post.contentsLength))
  }

  function StdinAfter(post: Post, item: Item, stdin: string): string {
    if FromStdin(post, item) then "" else stdin
  }

  /** A part of its own (`multi` false), or one of several files of a field. */
  function ItemText(world: World, post: Post, item: Item, stdin: string, multi: bool): Result<string>
    requires PostOk(post)
  {
    var content := ContentText(world, post, item, stdin);
    if content.Err? then content else Ok(ItemHead(post, item, multi) + Line(CRLF + CRLF) + content.value)
  }

  function ItemHead(post: Post, item: Item, multi: bool): string {
    Disposition(post, item, multi) + TypeText(item) + HeaderLines(item.headers)
  }

  const DISPOSITION := "Content-Disposition: "

  const ATTACHMENT := DISPOSITION + "attachment"

  /** The disposition of one file of several, or just the file name, if the field
      gets one. */
  function Disposition(post: Post, item: Item, multi: bool): string {
    if multi then ATTACHMENT + FileNameText(item)
    else if post.fileName || ((post.useBuffer || post.useCallback) && post.first.showFileName.Some?) then FileNameText(post.first)
    else ""
  }

  function TypeText(item: Item): string {
    if item.contentType.Some? then Line("\r\nContent-Type: " + item.contentType.value) else ""
  }

  function ItemTexts(world: World, post: Post, items: seq<Item>, stdin: string): Result<seq<string>>
    requires PostOk(post)
    decreases |items|
  {
    if items == [] then Ok([])
    else
      var one := ItemText(world, post, items[0], stdin, true);
      if one.Err? then Err(one.error)
      else
        var rest := ItemTexts(world, post, items[1..], StdinAfter(post, items[0], stdin));
        if rest.Err? then rest else Ok([one.value] + rest.value)
  }

  function StdinAfterAll(post: Post, items: seq<Item>, stdin: string): string
    decreases |items|
  {
    if items == [] then stdin else StdinAfterAll(post, items[1..], StdinAfter(post, items[0], stdin))
  }

  /** Texts, each behind a delimiter line. */
  function Delimited(texts: seq<string>, boundary: string): string {
    if texts == [] then "" else Opening(true, boundary) + texts[0] + Delimited(texts[1..], boundary)
  }

  /** The delimiter line before one file of several. */
  function Opening(multi: bool, boundary: string): string {
    if multi then "\r\n--" + boundary + CRLF else ""
  }

  /** The files of one field as a multipart/mixed entity behind its header. */
  function Mixed(head: string, texts: seq<string>, boundary: string): string {
    head + Delimited(texts, boundary) + ("\r\n--" + boundary + "--")
  }

  /** Texts found so far, with what the rest gives. */
  function Behind(done: seq<string>, rest: Result<seq<string>>): Result<seq<string>> {
    if rest.Err? then rest else Ok(done + rest.value)
  }

  function Items(post: Post): seq<Item> {
    [post.first] + post.more
  }

  const FIELD := DISPOSITION + "form-data; name=\""

  const MIXED := "\r\nContent-Type: " + "multipart/mixed; boundary="

  function FieldHead(post: Post): string
    requires PostOk(post)
  {
    FIELD + Pointed(post.name, post.nameLength) + "\""
  }

  function MixedHead(post: Post, boundary: string): string
    requires PostOk(post)
  {
    FieldHead(post) + (MIXED + boundary + CRLF)
  }

  /** One part of the post; k is the number of the boundary a part of several
      files uses. */
  function PartText(world: World, post: Post, k: nat, stdin: string): Result<string>
    requires PostOk(post)
  {
    if post.more == [] then
      var text := ItemText(world, post, post.first, stdin, false);
      if text.Err? then text else Ok(FieldHead(post) + text.value)
    else
      var texts := ItemTexts(world, post, Items(post), stdin);
      if texts.Err? then Err(texts.error)
      else Ok(Mixed(MixedHead(post, Boundary(world, k)), texts.value, Boundary(world, k)))
  }

  function BoundaryAfter(post: Post, k: nat): nat {
    if post.more == [] then k else k + 1
  }

  predicate PostsOk(posts: seq<Post>) {
    forall i :: 0 <= i < |posts| ==> PostOk(posts[i])
  }

  /** The parts of the post in field order, or the first error. */
  function PartTexts(world: World, posts: seq<Post>, k: nat, stdin: string): Result<seq<string>>
    requires PostsOk(posts)
    decreases |posts|
  {
    if posts == [] then Ok([])
    else
      var one := PartText(world, posts[0], k, stdin);
      if one.Err? then Err(one.error)
      else
        var rest := PartTexts(world, posts[1..], BoundaryAfter(posts[0], k), StdinAfterAll(posts[0], Items(posts[0]), stdin));
        if rest.Err? then rest else Ok([one.value] + rest.value)
  }

  /** Parts behind delimiters, the first delimiter without its CRLF. */
  function Opened(parts: seq<string>, boundary: string): string {
    if parts == [] then "" else "--" + boundary + CRLF + parts[0] + Delimited(parts[1..], boundary)
  }

  /** The body of a multipart entity, with its closing delimiter. */
  function Body(parts: seq<string>, boundary: string): string {
    Opened(parts, boundary) + ("\r\n--" + boundary + "--\r\n")
  }

  function HeaderText(contentType: Option<string>, boundary: string): string {
    (if contentType.Some? then contentType.value else "Content-Type: multipart/form-data") + "; boundary=" + boundary + CRLF
  }

  /** The header line Curl_formpostheader() returns. */
  function HeaderLine(contentType: Option<string>, boundary: string): string {
    Line(HeaderText(contentType, boundary))
  }

  // ----- what callbacks promise

  predicate FromCallback(post: Post) {
    !FromFile(post) && !post.useBuffer && post.useCallback
  }

  /** What the callback announces beyond what it delivers. */
  function ItemExcess(post: Post): int {
    if FromCallback(post) then post.contentsLength - |post.user| else 0
  }

  function PostExcess(post: Post): int {
    (1 + |post.more|) * ItemExcess(post)
  }

  function PostsExcess(posts: seq<Post>): int {
    if posts == [] then 0 else PostExcess(posts[0]) + PostsExcess(posts[1..])
  }
}
