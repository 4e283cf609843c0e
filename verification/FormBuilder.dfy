/** Curl_getformdata() of lib/formdata.c: posts are compiled into a chunk list and
    an announced size. Each step reports, as ghost `added`, the chunks it put at
    the end of the list. */
module FormBuilder {
  import opened CText
  import opened FormModel

  datatype FormType = FORM_DATA | FORM_CONTENT | FORM_CALLBACK | FORM_FILE

  /** The chunks are this text, every stream among them follows some text, every
      file can be read, and callbacks announce this much more than they deliver. */
  ghost predicate Makes(world: World, added: seq<Chunk>, text: string, excess: int) {
    Flat(world, added) == text && Feed(false, added).Some? && Excess(added) == excess && Openable(world, added)
  }

  lemma MakesNothing(world: World)
    ensures Makes(world, [], "", 0) && Size(world, []) == 0
  {
  }

  lemma MakesOne(world: World, c: Chunk)
    requires !IsStream(c)
    ensures Makes(world, [c], c.text, 0) && Size(world, [c]) == |c.text|
    ensures Feed(false, [c]) == Some(c.text != "")
  {
    assert [c][1..] == [];
  }

  lemma MakesJoined(world: World, a: seq<Chunk>, ta: string, ea: int, b: seq<Chunk>, tb: string, eb: int)
    requires Makes(world, a, ta, ea) && Makes(world, b, tb, eb)
    ensures Makes(world, a + b, ta + tb, ea + eb) && Size(world, a + b) == Size(world, a) + Size(world, b)
    ensures Feed(false, b) == Some(true) ==> Feed(false, a + b) == Some(true)
  {
    FlatAppend(world, a, b);
    SizeAppend(world, a, b);
    FeedAppend(false, a, b);
    FeedMore(b);
  }

  lemma MakesSame(world: World, added: seq<Chunk>, ta: string, tb: string, excess: int)
    requires Makes(world, added, ta, excess) && ta == tb
    ensures Makes(world, added, tb, excess)
  {
  }

  class Builder {
    const world: World
    /** The list from firstform to form, and the size so far. */
    var form: seq<Chunk>
    var size: nat
    /** What is left on the standard input; boundaries made so far. */
    var stdin: string
    var made: nat

    constructor (world: World, stdin: string)
      ensures this.world == world && form == [] && size == 0 && this.stdin == stdin && made == 0
    {
      this.world, form, size, this.stdin, made := world, [], 0, stdin, 0;
    }

    /** AddFormData(): `line` is the memory pointed to, the name of a file, or what
        a callback will deliver. Only a file that cannot be sized is an error. */
    method AddFormData(formType: FormType, line: string, length: nat, counted: bool) returns (error: Option<Error>, ghost c: Chunk)
      requires length <= |line| || formType.FORM_CALLBACK? || formType.FORM_FILE?
      modifies this`form, this`size
      ensures form == old(form) + [c]
      ensures c == match formType
                   case FORM_DATA => Data(Pointed(line, length))
                   case FORM_CONTENT => Content(Pointed(line, length))
                   case FORM_CALLBACK => Callback(line, length)
                   case FORM_FILE => File(line)
      ensures error == if formType.FORM_FILE? && counted && line != "-" && !world.files(line).Regular?
                       then Some(BadFunctionArgument) else None
      ensures error.None? && line != "-" ==> size == old(size) + if counted then Announces(world, c) else 0
      ensures !formType.FORM_FILE? ==> size == old(size) + if counted then Announces(world, c) else 0
    {
      var newform: Chunk;
      var newlength := length;
      match formType {
        case FORM_DATA =>
          newform := Data(Pointed(line, length));
          newlength := |newform.text|;
        case FORM_CONTENT =>
          newform := Content(Pointed(line, length));
          newlength := |newform.text|;
        case FORM_CALLBACK =>
          newform := Callback(line, length);
        case FORM_FILE =>
          newform := File(line);
      }
      form := form + [newform];
      c := newform;
      if counted {
        if !formType.FORM_FILE? {
          size := size + newlength;
        } else if line != "-" {
          match world.files(line) {
            case Regular(bytes) =>
              size := size + |bytes|;
            case _ =>
              return Some(BadFunctionArgument), c;
          }
        }
      }
      error := None;
    }

    /** AddFormDataf() */
    method AddFormDataf(text: string) returns (ghost added: seq<Chunk>)
      modifies this`form, this`size
      ensures added == [Data(Line(text))] && form == old(form) + added && size == old(size) + Size(world, added)
      ensures Makes(world, added, Line(text), 0) && Feed(false, added) == Some(Line(text) != "")
    {
      var s := Fit(text);
      var error, c := AddFormData(FORM_DATA, s, 0, true);
      added := [c];
      MakesOne(world, c);
    }

    /** formboundary() */
    method FormBoundary() returns (boundary: string)
      modifies this`made
      ensures boundary == Boundary(world, old(made)) && made == old(made) + 1
    {
      boundary := Boundary(world, made);
      made := made + 1;
    }

    /** formdata_add_filename() */
    method AddFileName(item: Item) returns (ghost added: seq<Chunk>)
      modifies this`form, this`size
      ensures form == old(form) + added && size == old(size) + Size(world, added)
      ensures Makes(world, added, FileNameText(item), 0)
    {
      var name;
      if item.showFileName.Some? {
        name := item.showFileName.value;
      } else {
        name := StripPath(CStr(item.contents));
      }
      var escaped := Escape(name);
      added := AddFormDataf("; filename=\"" + escaped + "\"");
    }

    /** The extra headers of an item. */
    method AddHeaders(headers: seq<string>) returns (ghost added: seq<Chunk>)
      modifies this`form, this`size
      ensures form == old(form) + added && size == old(size) + Size(world, added)
      ensures Makes(world, added, HeaderLines(headers), 0)
    {
      added := [];
      ghost var text := "";
      MakesNothing(world);
      var i := 0;
      while i < |headers|
        invariant 0 <= i <= |headers|
        invariant form == old(form) + added && size == old(size) + Size(world, added)
        invariant Makes(world, added, text, 0) && text == HeaderLines(headers[..i])
      {
        var more := AddFormDataf(CRLF + headers[i]);
        MakesJoined(world, added, text, 0, more, Line(CRLF + headers[i]), 0);
        HeaderLinesStep(headers, i);
        Regroup(old(form), added, more);
        added, text := added + more, text + Line(CRLF + headers[i]);
        i := i + 1;
      }
      assert headers[..i] == headers;
    }

    /** The contents of one item: a file is only named, the standard input is read
        here, and a callback is left to the reader. */
    method AddContents(post: Post, item: Item) returns (error: Option<Error>, ghost added: seq<Chunk>)
      requires PostOk(post)
      modifies this`form, this`size, this`stdin
      ensures form == old(form) + added
      ensures var r := ContentText(world, post, item, old(stdin));
              if r.Err? then error == Some(r.error)
              else error.None? && Flat(world, added) == r.value && stdin == StdinAfter(post, item, old(stdin))
      ensures error.None? ==> Feed(true, added).Some? && size == old(size) + Size(world, added)
      ensures error.None? ==> Excess(added) == ItemExcess(post) && Openable(world, added)
    {
      ghost var c;
      var name := CStr(item.contents);
      if post.fileName || post.readFile {
        if name == "-" {
          added := AddStdin();
          FeedMore(added);
          error := None;
        } else if world.files(name).Missing? {
          error, added := Some(ReadError), [];
        } else {
          error, c := AddFormData(FORM_FILE, name, 0, true);
          added := [c];
        }
      } else {
        if post.useBuffer {
          error, c := AddFormData(FORM_CONTENT, post.buffer, post.bufferLength, true);
        } else if post.useCallback {
          error, c := AddFormData(FORM_CALLBACK, post.user, post.contentsLength, true);
        } else {
          error, c := AddFormData(FORM_CONTENT, post.first.contents, post.contentsLength, true);
        }
        added := [c];
      }
      if |added| == 1 {
        OneChunk(world, added);
      }
    }

    /** fread() of the standard input in blocks of 512. */
    method AddStdin() returns (ghost added: seq<Chunk>)
      modifies this`form, this`size, this`stdin
      ensures form == old(form) + added && size == old(size) + Size(world, added)
      ensures Makes(world, added, old(stdin), 0) && stdin == ""
    {
      added := [];
      ghost var text := "";
      MakesNothing(world);
      while stdin != ""
        invariant form == old(form) + added && size == old(size) + Size(world, added)
        invariant Makes(world, added, text, 0) && old(stdin) == text + stdin
        decreases |stdin|
      {
        var nread := if |stdin| < 512 then |stdin| else 512;
        var buffer := stdin[..nread];
        var error, c := AddFormData(FORM_CONTENT, buffer, nread, true);
        TakeBlock(text, stdin, nread);
        MakesOne(world, c);
        MakesJoined(world, added, text, 0, [c], buffer, 0);
        Regroup(old(form), added, [c]);
        added, text, stdin := added + [c], text + buffer, stdin[nread..];
      }
      assert text + "" == text;
    }

    /** One round of the file loop: the head of the item, the empty line, and the
        contents. */
    method AddItem(post: Post, item: Item, multi: bool, boundary: string) returns (error: Option<Error>, ghost added: seq<Chunk>)
      requires PostOk(post) && (!multi ==> item == post.first)
      requires multi ==> NoNul(boundary) && |boundary| == 40
      modifies this`form, this`size, this`stdin
      ensures form == old(form) + added
      ensures var r := ItemText(world, post, item, old(stdin), multi);
              if r.Err? then error == Some(r.error)
              else error.None? && Makes(world, added, Opening(multi, boundary) + r.value, ItemExcess(post))
      ensures error.None? ==> size == old(size) + Size(world, added) && stdin == StdinAfter(post, item, old(stdin))
    {
      ghost var head := AddItemHead(post, item, multi, boundary);
      BlankLine();
      ghost var blank := AddFormDataf(CRLF + CRLF);
      ghost var contents;
      error, contents := AddContents(post, item);
      added := head + blank + contents;
      Regroup4(old(form), head, blank, contents);
      if error.None? {
        ItemMakes(world, head, blank, contents, Opening(multi, boundary), ItemHead(post, item, multi), ItemExcess(post));
      }
    }

    /** The disposition, file name, type and extra headers of an item. */
    method AddItemHead(post: Post, item: Item, multi: bool, boundary: string) returns (ghost added: seq<Chunk>)
      requires !multi ==> item == post.first
      requires multi ==> NoNul(boundary) && |boundary| == 40
      modifies this`form, this`size
      ensures form == old(form) + added && size == old(size) + Size(world, added)
      ensures Makes(world, added, Opening(multi, boundary) + ItemHead(post, item, multi), 0)
    {
      ghost var a := AddDisposition(post, item, multi, boundary);
      ghost var b := AddType(item);
      ghost var c := AddHeaders(item.headers);
      added := a + b + c;
      Regroup4(old(form), a, b, c);
      HeadMakes(world, a, b, c, Opening(multi, boundary), post, item, multi);
    }

    method AddDisposition(post: Post, item: Item, multi: bool, boundary: string) returns (ghost added: seq<Chunk>)
      requires !multi ==> item == post.first
      requires multi ==> NoNul(boundary) && |boundary| == 40
      modifies this`form, this`size
      ensures form == old(form) + added && size == old(size) + Size(world, added)
      ensures Makes(world, added, Opening(multi, boundary) + Disposition(post, item, multi), 0)
    {
      if multi {
        added := AddAttachment(item, boundary);
      } else {
        added := AddOwnName(post, item);
        NoOpening(world, added, Disposition(post, item, multi), boundary);
      }
    }

    method AddAttachment(item: Item, boundary: string) returns (ghost added: seq<Chunk>)
      requires NoNul(boundary) && |boundary| == 40
      modifies this`form, this`size
      ensures form == old(form) + added && size == old(size) + Size(world, added)
      ensures Makes(world, added, Opening(true, boundary) + (ATTACHMENT + FileNameText(item)), 0)
    {
      ghost var a := AddFormDataf("\r\n--" + boundary + "\r\n" + ATTACHMENT);
      ghost var b := AddFileName(item);
      Regroup(old(form), a, b);
      AttachmentMakes(world, a, b, boundary, item);
      added := a + b;
    }

    method AddOwnName(post: Post, item: Item) returns (ghost added: seq<Chunk>)
      modifies this`form, this`size
      ensures form == old(form) + added && size == old(size) + Size(world, added)
      ensures Makes(world, added, Disposition(post, item, false), 0)
    {
      added := [];
      MakesNothing(world);
      if post.fileName || post.useBuffer || post.useCallback {
        if post.first.showFileName.Some? || post.fileName {
          added := AddFileName(post.first);
        }
      }
    }

    method AddType(item: Item) returns (ghost added: seq<Chunk>)
      modifies this`form, this`size
      ensures form == old(form) + added && size == old(size) + Size(world, added)
      ensures Makes(world, added, TypeText(item), 0)
    {
      added := [];
      MakesNothing(world);
      if item.contentType.Some? {
        added := AddFormDataf("\r\nContent-Type: " + item.contentType.value);
      }
    }

    /** The file loop for a field of several files. */
    method AddItems(post: Post, boundary: string) returns (error: Option<Error>, ghost added: seq<Chunk>)
      requires PostOk(post) && NoNul(boundary) && |boundary| == 40
      modifies this`form, this`size, this`stdin
      ensures form == old(form) + added
      ensures var r := ItemTexts(world, post, Items(post), old(stdin));
              if r.Err? then error == Some(r.error)
              else error.None? && Makes(world, added, Delimited(r.value, boundary), PostExcess(post))
      ensures error.None? ==> size == old(size) + Size(world, added) && stdin == StdinAfterAll(post, Items(post), old(stdin))
    {
      var files := Items(post);
      ghost var total, left := ItemTexts(world, post, files, stdin), StdinAfterAll(post, files, stdin);
      ghost var done: seq<string> := [];
      added, error := [], None;
      MakesNothing(world);
      BehindNothing(total, []);
      assert files[0..] == files;
      var i := 0;
      while i < |files|
        invariant 0 <= i <= |files| && error.None?
        invariant form == old(form) + added && size == old(size) + Size(world, added)
        invariant ItemsSoFar(post, files, boundary, i, added, done, total, left)
      {
        ghost var more;
        error, more, done := AddNextItem(post, files, boundary, i, added, done, total, left);
        Regroup(old(form), added, more);
        added := added + more;
        if error.Some? {
          return;
        }
        i := i + 1;
      }
      BehindNothing(total, done);
    }

    /** The chunks of the first i files, and what the rest will add to them. */
    ghost predicate ItemsSoFar(post: Post, files: seq<Item>, boundary: string, i: nat, added: seq<Chunk>,
                               done: seq<string>, total: Result<seq<string>>, left: string)
      requires PostOk(post) && i <= |files|
      reads this
    {
      && Makes(world, added, Delimited(done, boundary), i * ItemExcess(post))
      && total == Behind(done, ItemTexts(world, post, files[i..], stdin))
      && left == StdinAfterAll(post, files[i..], stdin)
    }

    method AddNextItem(post: Post, files: seq<Item>, boundary: string, i: nat, ghost added: seq<Chunk>,
                       ghost done: seq<string>, ghost total: Result<seq<string>>, ghost left: string)
      returns (error: Option<Error>, ghost more: seq<Chunk>, ghost now: seq<string>)
      requires PostOk(post) && i < |files| && NoNul(boundary) && |boundary| == 40
      requires ItemsSoFar(post, files, boundary, i, added, done, total, left)
      modifies this`form, this`size, this`stdin
      ensures form == old(form) + more
      ensures error.Some? ==> total == Err(error.value)
      ensures error.None? ==> ItemsSoFar(post, files, boundary, i + 1, added + more, now, total, left)
      ensures error.None? ==> size == old(size) + Size(world, more) && Size(world, added + more) == Size(world, added) + Size(world, more)
    {
      ItemsStep(world, post, files, i, stdin, done, total, left);
      ghost var r := ItemText(world, post, files[i], stdin, true);
      error, more := AddItem(post, files[i], true, boundary);
      now := done;
      if error.None? {
        DelimitedMakes(world, added, done, more, r.value, boundary, i, ItemExcess(post));
        now := done + [r.value];
      }
    }

    /** One round of the field loop, behind the CRLF that separates it from the
        round before. */
    method AddPost(post: Post, boundary: string) returns (error: Option<Error>, ghost added: seq<Chunk>)
      requires PostOk(post) && NoNul(boundary) && |boundary| == 40
      modifies this
      ensures form == old(form) + added
      ensures var r := PartText(world, post, old(made), old(stdin));
              if r.Err? then error == Some(r.error)
              else error.None? && Makes(world, added, "--" + boundary + CRLF + r.value, PostExcess(post))
      ensures error.None? ==>
              && size == old(size) + Size(world, added) && Size(world, added) > 0
              && made == BoundaryAfter(post, old(made)) && stdin == StdinAfterAll(post, Items(post), old(stdin))
    {
      ghost var head := AddFieldHead(post, boundary);
      ghost var body;
      if post.more == [] {
        error, body := AddOwnPart(post, head, "--" + boundary + CRLF);
      } else {
        error, body := AddMixedPart(post, head, "--" + boundary + CRLF);
      }
      Regroup(old(form), head, body);
      added := head + body;
    }

    /** The rest of a part with one item, behind `head`. */
    method AddOwnPart(post: Post, ghost head: seq<Chunk>, ghost opening: string) returns (error: Option<Error>, ghost body: seq<Chunk>)
      requires PostOk(post) && post.more == [] && Makes(world, head, opening + FieldHead(post), 0)
      modifies this`form, this`size, this`stdin
      ensures form == old(form) + body
      ensures var r := ItemText(world, post, post.first, old(stdin), false);
              if r.Err? then error == Some(r.error)
              else error.None? && Makes(world, head + body, opening + (FieldHead(post) + r.value), PostExcess(post))
      ensures error.None? ==>
              && size == old(size) + Size(world, body) && Size(world, head + body) == Size(world, head) + Size(world, body)
              && stdin == StdinAfterAll(post, Items(post), old(stdin))
    {
      ghost var r := ItemText(world, post, post.first, stdin, false);
      assert Items(post) == [post.first] && [post.first][1..] == [];
      error, body := AddItem(post, post.first, false, "");
      if error.None? {
        OwnPartMakes(world, head, body, opening, FieldHead(post), r.value, PostExcess(post));
      }
    }

    /** The rest of a part with several files. */
    method AddMixedPart(post: Post, ghost head: seq<Chunk>, ghost opening: string) returns (error: Option<Error>, ghost body: seq<Chunk>)
      requires PostOk(post) && post.more != [] && Makes(world, head, opening + FieldHead(post), 0)
      modifies this
      ensures form == old(form) + body
      ensures var r, f := ItemTexts(world, post, Items(post), old(stdin)), Boundary(world, old(made));
              if r.Err? then error == Some(r.error)
              else error.None? && Makes(world, head + body, opening + Mixed(MixedHead(post, f), r.value, f), PostExcess(post))
      ensures error.None? ==>
              && size == old(size) + Size(world, body) && Size(world, head + body) == Size(world, head) + Size(world, body)
              && made == old(made) + 1 && stdin == StdinAfterAll(post, Items(post), old(stdin))
    {
      ghost var r := ItemTexts(world, post, Items(post), stdin);
      ghost var f := Boundary(world, made);
      error, body := AddMixed(post);
      if error.None? {
        MixedPartMakes(world, head, body, opening, post, f, r.value, PostExcess(post));
      }
    }

    /** The delimiter line, and the disposition with the name of the field. */
    method AddFieldHead(post: Post, boundary: string) returns (ghost added: seq<Chunk>)
      requires PostOk(post) && NoNul(boundary) && |boundary| == 40
      modifies this`form, this`size
      ensures form == old(form) + added && size == old(size) + Size(world, added) && Size(world, added) > 0
      ensures Makes(world, added, "--" + boundary + CRLF + FieldHead(post), 0)
    {
      DelimiterLine(boundary);
      ghost var a := AddFormDataf("--" + boundary + CRLF);
      ghost var b := AddFieldName(post);
      MakesJoined(world, a, "--" + boundary + CRLF, 0, b, FieldHead(post), 0);
      Regroup(old(form), a, b);
      added := a + b;
    }

    method AddFieldName(post: Post) returns (ghost added: seq<Chunk>)
      requires PostOk(post)
      modifies this`form, this`size
      ensures form == old(form) + added && size == old(size) + Size(world, added)
      ensures Makes(world, added, FieldHead(post), 0)
    {
      FieldLine();
      QuoteLine();
      added := AddEnclosed(FIELD, post, "\"");
    }

    /** The name of a field, which may hold any bytes, between two texts. */
    method AddEnclosed(before: string, post: Post, after: string) returns (ghost added: seq<Chunk>)
      requires PostOk(post) && Line(before) == before && Line(after) == after
      modifies this`form, this`size
      ensures form == old(form) + added && size == old(size) + Size(world, added)
      ensures Makes(world, added, before + Pointed(post.name, post.nameLength) + after, 0)
    {
      ghost var a := AddFormDataf(before);
      ghost var error, c := AddFormData(FORM_DATA, post.name, post.nameLength, true);
      MakesOne(world, c);
      ghost var d := AddFormDataf(after);
      JoinThree(world, a, [c], d, before, Pointed(post.name, post.nameLength), after, 0);
      Regroup4(old(form), a, [c], d);
      added := a + [c] + d;
    }

    /** The files of a field of several, between their own boundaries. */
    method AddMixed(post: Post) returns (error: Option<Error>, ghost added: seq<Chunk>)
      requires PostOk(post) && post.more != []
      modifies this
      ensures form == old(form) + added
      ensures var r, f := ItemTexts(world, post, Items(post), old(stdin)), Boundary(world, old(made));
              if r.Err? then error == Some(r.error)
              else error.None? && Makes(world, added, MIXED + f + CRLF + Delimited(r.value, f) + ("\r\n--" + f + "--"), PostExcess(post))
      ensures error.None? ==>
              && size == old(size) + Size(world, added)
              && made == old(made) + 1 && stdin == StdinAfterAll(post, Items(post), old(stdin))
    {
      var fileBoundary := FormBoundary();
      MixedLines(fileBoundary);
      ghost var a := AddFormDataf(MIXED + fileBoundary + CRLF);
      ghost var b;
      error, b := AddItems(post, fileBoundary);
      if error.Some? {
        Regroup(old(form), a, b);
        return error, a + b;
      }
      ghost var c := AddFormDataf("\r\n--" + fileBoundary + "--");
      Regroup4(old(form), a, b, c);
      JoinThree(world, a, b, c, MIXED + fileBoundary + CRLF, Delimited(ItemTexts(world, post, Items(post), old(stdin)).value, fileBoundary),
                "\r\n--" + fileBoundary + "--", PostExcess(post));
      added := a + b + c;
    }

    /** The answer to a post: the first error of its parts; or else chunks that
        deliver its body and can be read, and the announced size of that body. */
    ghost predicate Answers(posts: seq<Post>, k: nat, input: string, boundary: string,
                            error: Option<Error>, sent: seq<Chunk>, size: nat)
      requires PostsOk(posts)
    {
      match PartTexts(world, posts, k, input)
      case Err(e) => error == Some(e)
      case Ok(parts) =>
        && error.None? && parts != [] && Flat(world, sent) == Body(parts, boundary)
        && WellShaped(sent) && Openable(world, sent)
        && size == Size(world, sent) == |Body(parts, boundary)| + PostsExcess(posts)
    }

    /** Curl_getformdata(): the first chunk is the header line and not counted. On
        an error there is no list. */
    method GetFormData(posts: seq<Post>, contentType: Option<string>) returns (error: Option<Error>, finalForm: seq<Chunk>, sizep: nat)
      requires PostsOk(posts) && form == [] && size == 0 && made == 0
      modifies this
      ensures posts == [] ==> error.None? && finalForm == []
      ensures posts != [] ==>
        if error.Some? then finalForm == [] && Answers(posts, 1, old(stdin), Boundary(world, 0), error, [], 0)
        else
          && finalForm != [] && finalForm[0] == Data(HeaderLine(contentType, Boundary(world, 0)))
          && Answers(posts, 1, old(stdin), Boundary(world, 0), error, finalForm[1..], sizep)
    {
      if posts == [] {
        return None, [], 0;
      }
      var boundary := FormBoundary();
      ghost var first := AddHeaderLine(contentType, boundary);
      ghost var sent;
      error, sent := AddBody(posts, boundary);
      if error.Some? {
        return error, [], 0;
      }
      HeadAndTail(form, first, sent);
      finalForm, sizep := form, size;
    }

    /** The first line of the output, which the size leaves out. */
    method AddHeaderLine(contentType: Option<string>, boundary: string) returns (ghost first: Chunk)
      modifies this`form, this`size
      ensures first == Data(HeaderLine(contentType, boundary)) && form == old(form) + [first] && size == old(size)
    {
      ghost var error;
      error, first := AddFormData(FORM_DATA, Fit(HeaderText(contentType, boundary)), 0, false);
    }

    /** All fields and the closing delimiter. */
    method AddBody(posts: seq<Post>, boundary: string) returns (error: Option<Error>, ghost sent: seq<Chunk>)
      requires PostsOk(posts) && posts != [] && size == 0 && NoNul(boundary) && |boundary| == 40
      modifies this
      ensures form == old(form) + sent
      ensures Answers(posts, old(made), old(stdin), boundary, error, sent, size)
    {
      ghost var parts;
      error, sent, parts := AddPosts(posts, boundary);
      if error.Some? {
        return;
      }
      ghost var closing := AddFormDataf("\r\n--" + boundary + "--\r\n");
      BodyMakes(world, sent, closing, parts, boundary, PostsExcess(posts));
      SizeIsLength(world, sent + closing);
      Regroup(old(form), sent, closing);
      sent := sent + closing;
    }

    /** The field loop. */
    method AddPosts(posts: seq<Post>, boundary: string) returns (error: Option<Error>, ghost sent: seq<Chunk>, ghost parts: seq<string>)
      requires PostsOk(posts) && posts != [] && size == 0 && NoNul(boundary) && |boundary| == 40
      modifies this
      ensures form == old(form) + sent
      ensures var r := PartTexts(world, posts, old(made), old(stdin));
              if r.Err? then error == Some(r.error)
              else error.None? && parts == r.value && parts != [] && Makes(world, sent, Opened(parts, boundary), PostsExcess(posts))
      ensures error.None? ==> size == Size(world, sent)
    {
      ghost var total, excess := PartTexts(world, posts, made, stdin), PostsExcess(posts);
      sent, parts, error := [], [], None;
      MakesNothing(world);
      BehindNothing(total, []);
      assert posts[0..] == posts;
      var i := 0;
      while i < |posts|
        invariant 0 <= i <= |posts| && error.None?
        invariant form == old(form) + sent && size == Size(world, sent)
        invariant PostsSoFar(posts, boundary, i, sent, parts, total, excess)
      {
        ghost var more;
        error, more, parts := AddNextPost(posts, boundary, i, sent, parts, total, excess);
        Regroup(old(form), sent, more);
        sent := sent + more;
        if error.Some? {
          return;
        }
        i := i + 1;
      }
      BehindNothing(total, parts);
      PostsDone(posts, boundary, i, sent, parts, total, excess);
    }

    /** When all fields are done there is nothing the rest could add. */
    lemma PostsDone(posts: seq<Post>, boundary: string, i: nat, sent: seq<Chunk>,
                    parts: seq<string>, total: Result<seq<string>>, excess: int)
      requires PostsOk(posts) && posts != [] && i == |posts| && PostsSoFar(posts, boundary, i, sent, parts, total, excess)
      ensures total == Behind(parts, Ok([])) && parts != [] && Makes(world, sent, Opened(parts, boundary), excess)
    {
      assert posts[i..] == [];
    }

    /** The chunks of the first i fields, and what the rest will add to them. */
    ghost predicate PostsSoFar(posts: seq<Post>, boundary: string, i: nat, sent: seq<Chunk>,
                               parts: seq<string>, total: Result<seq<string>>, excess: int)
      requires PostsOk(posts) && i <= |posts|
      reads this
    {
      && Makes(world, sent, Opened(parts, boundary), excess - PostsExcess(posts[i..]))
      && (Size(world, sent) > 0 <==> i > 0) && |parts| == i
      && total == Behind(parts, PartTexts(world, posts[i..], made, stdin))
    }

    /** The CRLF between fields, which the first field does not get. */
    method AddSeparator(ghost later: bool) returns (ghost added: seq<Chunk>)
      requires size != 0 <==> later
      modifies this`form, this`size
      ensures form == old(form) + added && size == old(size) + Size(world, added)
      ensures Makes(world, added, if later then CRLF else "", 0)
    {
      added := [];
      MakesNothing(world);
      if size != 0 {
        SeparatorLine();
        added := AddFormDataf(CRLF);
      }
    }

    method AddNextPost(posts: seq<Post>, boundary: string, i: nat, ghost sent: seq<Chunk>,
                       ghost parts: seq<string>, ghost total: Result<seq<string>>, ghost excess: int)
      returns (error: Option<Error>, ghost more: seq<Chunk>, ghost now: seq<string>)
      requires PostsOk(posts) && i < |posts| && NoNul(boundary) && |boundary| == 40
      requires PostsSoFar(posts, boundary, i, sent, parts, total, excess) && size == Size(world, sent)
      modifies this
      ensures form == old(form) + more
      ensures error.Some? ==> total == Err(error.value)
      ensures error.None? ==> PostsSoFar(posts, boundary, i + 1, sent + more, now, total, excess)
      ensures error.None? ==> size == Size(world, sent + more)
    {
      PostsStep(world, posts, i, made, stdin, parts, total);
      ghost var r := PartText(world, posts[i], made, stdin);
      ghost var separator := AddSeparator(parts != []);
      ghost var part;
      error, part := AddPost(posts[i], boundary);
      Regroup(old(form), separator, part);
      more, now := separator + part, parts;
      if error.None? {
        OpenedMakes(world, sent, parts, separator, part, r.value, boundary, excess - PostsExcess(posts[i..]), PostExcess(posts[i]));
        now := parts + [r.value];
      }
    }
  }

  // ----- the text of joined pieces

  lemma HeadAndTail(list: seq<Chunk>, first: Chunk, rest: seq<Chunk>)
    requires list == [] + [first] + rest
    ensures list != [] && list[0] == first && list[1..] == rest
  {
  }

  lemma OneChunk(world: World, added: seq<Chunk>)
    requires |added| == 1
    ensures Flat(world, added) == Delivers(world, added[0]) && Size(world, added) == Announces(world, added[0])
    ensures Excess(added) == if added[0].Callback? then added[0].length - |added[0].user| else 0
    ensures Feed(true, added).Some?
    ensures Openable(world, added) <==> added[0].File? ==> world.files(added[0].name).Regular?
  {
    assert added[1..] == [];
  }

  lemma BlankLine()
    ensures Line(CRLF + CRLF) == CRLF + CRLF
  {
    LineIs(CRLF + CRLF);
  }

  lemma NoOpening(world: World, added: seq<Chunk>, text: string, boundary: string)
    requires Makes(world, added, text, 0)
    ensures Makes(world, added, Opening(false, boundary) + text, 0)
  {
    assert "" + text == text;
  }

  lemma AttachmentMakes(world: World, a: seq<Chunk>, b: seq<Chunk>, boundary: string, item: Item)
    requires NoNul(boundary) && |boundary| == 40
    requires Makes(world, a, Line("\r\n--" + boundary + "\r\n" + ATTACHMENT), 0)
    requires Makes(world, b, FileNameText(item), 0)
    ensures Makes(world, a + b, Opening(true, boundary) + (ATTACHMENT + FileNameText(item)), 0)
    ensures Size(world, a + b) == Size(world, a) + Size(world, b)
  {
    var o := Opening(true, boundary);
    AttachmentLine(boundary);
    MakesJoined(world, a, o + ATTACHMENT, 0, b, FileNameText(item), 0);
    Regroup(o, ATTACHMENT, FileNameText(item));
    MakesSame(world, a + b, o + ATTACHMENT + FileNameText(item), o + (ATTACHMENT + FileNameText(item)), 0);
  }

  lemma AttachmentLine(boundary: string)
    requires NoNul(boundary) && |boundary| == 40
    ensures Line("\r\n--" + boundary + "\r\n" + ATTACHMENT) == Opening(true, boundary) + ATTACHMENT
  {
    FixedTexts();
    Enclosed("\r\n--", boundary, "\r\n");
    NoNulJoin("\r\n--" + boundary + "\r\n", ATTACHMENT);
    LineIs("\r\n--" + boundary + "\r\n" + ATTACHMENT);
  }

  lemma Enclosed(before: string, boundary: string, after: string)
    requires NoNul(before) && NoNul(boundary) && NoNul(after)
    ensures NoNul(before + boundary + after)
  {
  }

  /** The fixed texts hold no NUL. */
  lemma FixedTexts()
    ensures NoNul(FIELD) && NoNul(MIXED) && NoNul(ATTACHMENT)
    ensures |FIELD| <= 100 && |MIXED| <= 100 && |ATTACHMENT| <= 100
  {
    ShortTexts();
    NoNulJoin(DISPOSITION, "form-data; name=\"");
    NoNulJoin("\r\nContent-Type: ", "multipart/mixed; boundary=");
    NoNulJoin(DISPOSITION, "attachment");
  }

  lemma ShortTexts()
    ensures NoNul(DISPOSITION) && NoNul("form-data; name=\"") && NoNul("attachment")
    ensures NoNul("\r\nContent-Type: ") && NoNul("multipart/mixed; boundary=")
  {
  }

  lemma HeadMakes(world: World, a: seq<Chunk>, b: seq<Chunk>, c: seq<Chunk>, opening: string, post: Post, item: Item, multi: bool)
    requires Makes(world, a, opening + Disposition(post, item, multi), 0)
    requires Makes(world, b, TypeText(item), 0) && Makes(world, c, HeaderLines(item.headers), 0)
    ensures Makes(world, a + b + c, opening + ItemHead(post, item, multi), 0)
    ensures Size(world, a + b + c) == Size(world, a) + Size(world, b) + Size(world, c)
  {
    ThreeMake(world, a, b, c, opening, Disposition(post, item, multi), TypeText(item), HeaderLines(item.headers));
  }

  lemma ThreeMake(world: World, a: seq<Chunk>, b: seq<Chunk>, c: seq<Chunk>, opening: string, d: string, t: string, h: string)
    requires Makes(world, a, opening + d, 0) && Makes(world, b, t, 0) && Makes(world, c, h, 0)
    ensures Makes(world, a + b + c, opening + (d + t + h), 0)
    ensures Size(world, a + b + c) == Size(world, a) + Size(world, b) + Size(world, c)
  {
    MakesJoined(world, a, opening + d, 0, b, t, 0);
    MakesJoined(world, a + b, opening + d + t, 0, c, h, 0);
    Regroup4(opening, d, t, h);
    MakesSame(world, a + b + c, opening + d + t + h, opening + (d + t + h), 0);
  }

  lemma ItemMakes(world: World, head: seq<Chunk>, blank: seq<Chunk>, contents: seq<Chunk>, opening: string, text: string, excess: int)
    requires Makes(world, head, opening + text, 0) && Makes(world, blank, CRLF + CRLF, 0) && Feed(false, blank) == Some(true)
    requires Feed(true, contents).Some? && Excess(contents) == excess && Openable(world, contents)
    ensures Makes(world, head + blank + contents, opening + (text + (CRLF + CRLF) + Flat(world, contents)), excess)
    ensures Size(world, head + blank + contents) == Size(world, head) + Size(world, blank) + Size(world, contents)
  {
    MakesJoined(world, head, opening + text, 0, blank, CRLF + CRLF, 0);
    FlatAppend(world, head + blank, contents);
    SizeAppend(world, head + blank, contents);
    FeedAppend(false, head + blank, contents);
    Regroup4(opening, text, CRLF + CRLF, Flat(world, contents));
  }

  lemma JoinThree(world: World, a: seq<Chunk>, b: seq<Chunk>, c: seq<Chunk>, ta: string, tb: string, tc: string, excess: int)
    requires Makes(world, a, ta, 0) && Makes(world, b, tb, excess) && Makes(world, c, tc, 0)
    ensures Makes(world, a + b + c, ta + tb + tc, excess)
    ensures Size(world, a + b + c) == Size(world, a) + Size(world, b) + Size(world, c)
  {
    MakesJoined(world, a, ta, 0, b, tb, excess);
    MakesJoined(world, a + b, ta + tb, excess, c, tc, 0);
  }

  lemma DelimiterLine(boundary: string)
    requires NoNul(boundary) && |boundary| == 40
    ensures Line("--" + boundary + CRLF) == "--" + boundary + CRLF
  {
    Enclosed("--", boundary, CRLF);
    LineIs("--" + boundary + CRLF);
  }

  lemma FieldLine()
    ensures Line(FIELD) == FIELD
  {
    FixedTexts();
    LineIs(FIELD);
  }

  lemma QuoteLine()
    ensures Line("\"") == "\""
  {
    LineIs("\"");
  }

  lemma MixedLines(boundary: string)
    requires NoNul(boundary) && |boundary| == 40
    ensures Line(MIXED + boundary + CRLF) == MIXED + boundary + CRLF
    ensures Line("\r\n--" + boundary + "--") == "\r\n--" + boundary + "--"
  {
    FixedTexts();
    Enclosed(MIXED, boundary, CRLF);
    LineIs(MIXED + boundary + CRLF);
    Enclosed("\r\n--", boundary, "--");
    LineIs("\r\n--" + boundary + "--");
  }

  lemma OwnPartMakes(world: World, head: seq<Chunk>, body: seq<Chunk>, o: string, field: string, text: string, excess: int)
    requires Makes(world, head, o + field, 0) && Makes(world, body, "" + text, excess)
    ensures Makes(world, head + body, o + (field + text), excess) && Size(world, head + body) == Size(world, head) + Size(world, body)
  {
    MakesJoined(world, head, o + field, 0, body, "" + text, excess);
    assert "" + text == text;
    Regroup(o, field, text);
  }

  lemma MixedPartMakes(world: World, head: seq<Chunk>, body: seq<Chunk>, o: string, post: Post, f: string, texts: seq<string>, excess: int)
    requires PostOk(post)
    requires Makes(world, head, o + FieldHead(post), 0)
    requires Makes(world, body, MIXED + f + CRLF + Delimited(texts, f) + ("\r\n--" + f + "--"), excess)
    ensures Makes(world, head + body, o + Mixed(MixedHead(post, f), texts, f), excess)
    ensures Size(world, head + body) == Size(world, head) + Size(world, body)
  {
    SixMake(world, head, body, o, FieldHead(post), MIXED + f + CRLF, Delimited(texts, f), "\r\n--" + f + "--", excess);
  }

  lemma SixMake(world: World, head: seq<Chunk>, body: seq<Chunk>, o: string, a: string, b: string, c: string, d: string, excess: int)
    requires Makes(world, head, o + a, 0) && Makes(world, body, b + c + d, excess)
    ensures Makes(world, head + body, o + (a + b + c + d), excess)
    ensures Size(world, head + body) == Size(world, head) + Size(world, body)
  {
    MakesJoined(world, head, o + a, 0, body, b + c + d, excess);
    Regroup4(a, b, c, d);
    Regroup(o, a, b + c + d);
    MakesSame(world, head + body, o + a + (b + c + d), o + (a + b + c + d), excess);
  }

  lemma SeparatorLine()
    ensures Line(CRLF) == CRLF
  {
    LineIs(CRLF);
  }

  lemma PostsStep(world: World, posts: seq<Post>, i: nat, k: nat, stdin: string, parts: seq<string>, total: Result<seq<string>>)
    requires PostsOk(posts) && i < |posts|
    requires total == Behind(parts, PartTexts(world, posts[i..], k, stdin))
    ensures var post := posts[i];
            var one := PartText(world, post, k, stdin);
            var rest := PartTexts(world, posts[i + 1..], BoundaryAfter(post, k), StdinAfterAll(post, Items(post), stdin));
            && (one.Err? ==> total == Err(one.error))
            && (one.Ok? ==> total == Behind(parts + [one.value], rest))
    ensures PostsExcess(posts[i..]) == PostExcess(posts[i]) + PostsExcess(posts[i + 1..])
  {
    assert posts[i..][1..] == posts[i + 1..];
    var post := posts[i];
    var one := PartText(world, post, k, stdin);
    var rest := PartTexts(world, posts[i + 1..], BoundaryAfter(post, k), StdinAfterAll(post, Items(post), stdin));
    if one.Ok? && rest.Ok? {
      assert parts + ([one.value] + rest.value) == parts + [one.value] + rest.value;
    }
  }

  lemma OpenedMakes(world: World, sent: seq<Chunk>, parts: seq<string>, separator: seq<Chunk>, part: seq<Chunk>,
                    text: string, boundary: string, before: int, excess: int)
    requires Makes(world, sent, Opened(parts, boundary), before)
    requires Makes(world, separator, if parts != [] then CRLF else "", 0)
    requires Makes(world, part, "--" + boundary + CRLF + text, excess)
    ensures Makes(world, sent + (separator + part), Opened(parts + [text], boundary), before + excess)
    ensures Size(world, sent + (separator + part)) == Size(world, sent) + Size(world, separator) + Size(world, part)
  {
    var gap := if parts != [] then CRLF else "";
    MakesJoined(world, separator, gap, 0, part, "--" + boundary + CRLF + text, excess);
    MakesJoined(world, sent, Opened(parts, boundary), before, separator + part, gap + ("--" + boundary + CRLF + text), excess);
    OpenedSnoc(parts, text, boundary);
    MakesSame(world, sent + (separator + part), Opened(parts, boundary) + (gap + ("--" + boundary + CRLF + text)),
              Opened(parts + [text], boundary), before + excess);
  }

  lemma OpenedSnoc(parts: seq<string>, text: string, boundary: string)
    ensures Opened(parts, boundary) + ((if parts != [] then CRLF else "") + ("--" + boundary + CRLF + text)) ==
            Opened(parts + [text], boundary)
  {
    var first := "--" + boundary + CRLF;
    if parts == [] {
      assert (parts + [text])[1..] == [];
      NoText(first + text);
    } else {
      assert (parts + [text])[1..] == parts[1..] + [text];
      DelimitedSnoc(parts[1..], text, boundary);
      AfterCrLf(boundary, text);
      Regroup(first + parts[0], Delimited(parts[1..], boundary), Opening(true, boundary) + text);
    }
  }

  lemma TakeBlock(text: string, rest: string, n: nat)
    requires n <= |rest|
    ensures text + rest == text + rest[..n] + rest[n..] && rest[..n][..n] == rest[..n]
  {
  }

  lemma NoText(text: string)
    ensures "" + ("" + text) == text && text + "" == text
  {
  }

  lemma AfterCrLf(boundary: string, text: string)
    ensures CRLF + ("--" + boundary + CRLF + text) == Opening(true, boundary) + text
  {
    assert "\r\n--" == CRLF + "--";
  }

  lemma BodyMakes(world: World, sent: seq<Chunk>, closing: seq<Chunk>, parts: seq<string>, boundary: string, excess: int)
    requires Makes(world, sent, Opened(parts, boundary), excess) && parts != []
    requires NoNul(boundary) && |boundary| == 40
    requires closing == [Data(Line("\r\n--" + boundary + "--\r\n"))]
    ensures Makes(world, sent + closing, Body(parts, boundary), excess) && WellShaped(sent + closing)
    ensures Size(world, sent + closing) == Size(world, sent) + Size(world, closing)
  {
    ClosingLine(boundary);
    MakesOne(world, closing[0]);
    MakesJoined(world, sent, Opened(parts, boundary), excess, closing, "\r\n--" + boundary + "--\r\n", 0);
  }

  lemma ClosingLine(boundary: string)
    requires NoNul(boundary) && |boundary| == 40
    ensures Line("\r\n--" + boundary + "--\r\n") == "\r\n--" + boundary + "--\r\n"
    ensures "\r\n--" + boundary + "--\r\n" != ""
  {
    Enclosed("\r\n--", boundary, "--\r\n");
    LineIs("\r\n--" + boundary + "--\r\n");
    assert |"\r\n--" + boundary + "--\r\n"| == 48;
  }

  lemma ItemsStep(world: World, post: Post, files: seq<Item>, i: nat, stdin: string,
                  done: seq<string>, total: Result<seq<string>>, left: string)
    requires PostOk(post) && i < |files|
    requires total == Behind(done, ItemTexts(world, post, files[i..], stdin))
    requires left == StdinAfterAll(post, files[i..], stdin)
    ensures var one, after := ItemText(world, post, files[i], stdin, true), StdinAfter(post, files[i], stdin);
            && (one.Err? ==> total == Err(one.error))
            && (one.Ok? ==> total == Behind(done + [one.value], ItemTexts(world, post, files[i + 1..], after)))
            && left == StdinAfterAll(post, files[i + 1..], after)
  {
    assert files[i..][1..] == files[i + 1..];
    var one := ItemText(world, post, files[i], stdin, true);
    var rest := ItemTexts(world, post, files[i + 1..], StdinAfter(post, files[i], stdin));
    if one.Ok? && rest.Ok? {
      assert done + ([one.value] + rest.value) == done + [one.value] + rest.value;
    }
  }

  lemma DelimitedMakes(world: World, added: seq<Chunk>, done: seq<string>, more: seq<Chunk>, text: string, boundary: string, i: nat, excess: int)
    requires Makes(world, added, Delimited(done, boundary), i * excess)
    requires Makes(world, more, Opening(true, boundary) + text, excess)
    ensures Makes(world, added + more, Delimited(done + [text], boundary), (i + 1) * excess)
    ensures Size(world, added + more) == Size(world, added) + Size(world, more)
  {
    MakesJoined(world, added, Delimited(done, boundary), i * excess, more, Opening(true, boundary) + text, excess);
    DelimitedSnoc(done, text, boundary);
    assert i * excess + excess == (i + 1) * excess;
    MakesSame(world, added + more, Delimited(done, boundary) + (Opening(true, boundary) + text), Delimited(done + [text], boundary), (i + 1) * excess);
  }

  lemma {:induction false} DelimitedSnoc(texts: seq<string>, text: string, boundary: string)
    ensures Delimited(texts, boundary) + (Opening(true, boundary) + text) == Delimited(texts + [text], boundary)
  {
    var o := Opening(true, boundary);
    if texts == [] {
      assert (texts + [text])[1..] == [];
      assert o + text + "" == o + text && "" + (o + text) == o + text;
    } else {
      DelimitedSnoc(texts[1..], text, boundary);
      assert (texts + [text])[1..] == texts[1..] + [text];
      Regroup(o + texts[0], Delimited(texts[1..], boundary), o + text);
    }
  }

  lemma HeaderLinesStep(headers: seq<string>, i: nat)
    requires i < |headers|
    ensures HeaderLines(headers[..i + 1]) == HeaderLines(headers[..i]) + Line(CRLF + headers[i])
  {
    assert headers[..i + 1] == headers[..i] + [headers[i]];
    HeaderLinesSnoc(headers[..i], headers[i]);
  }

  lemma {:induction false} HeaderLinesSnoc(headers: seq<string>, last: string)
    ensures HeaderLines(headers + [last]) == HeaderLines(headers) + Line(CRLF + last)
  {
    if headers == [] {
      assert [last][1..] == [];
      assert headers + [last] == [last];
    } else {
      HeaderLinesSnoc(headers[1..], last);
      assert (headers + [last])[1..] == headers[1..] + [last];
      Regroup(Line(CRLF + headers[0]), HeaderLines(headers[1..]), Line(CRLF + last));
    }
  }

  lemma EscapedStep(name: string, i: nat, before: string, all: string)
    requires i < |name| && all == before + Escaped(name[i..])
    ensures all == before + EscapedChar(name[i]) + Escaped(name[i + 1..])
    ensures before + ['\\', name[i]] == before + ['\\'] + [name[i]]
  {
    assert name[i..][1..] == name[i + 1..];
    Regroup(before, EscapedChar(name[i]), Escaped(name[i + 1..]));
  }

  lemma BehindNothing(r: Result<seq<string>>, done: seq<string>)
    ensures Behind([], r) == r && Behind(done, Ok([])) == Ok(done)
  {
    assert r.Ok? ==> [] + r.value == r.value;
    assert done + [] == done;
  }

  /** strippath() with Curl_basename(): the later of the last slash and the last
      backslash decides. */
  method StripPath(path: string) returns (name: string)
    ensures name == path[AfterSlash(path)..]
  {
    var s1 := StrRChr(path, '/');
    var s2 := StrRChr(path, '\\');
    var start;
    if s1.Some? && s2.Some? {
      start := (if s1.value > s2.value then s1.value else s2.value) + 1;
    } else if s1.Some? {
      start := s1.value + 1;
    } else if s2.Some? {
      start := s2.value + 1;
    } else {
      start := 0;
    }
    name := path[start..];
  }

  method StrRChr(s: string, c: char) returns (k: Option<nat>)
    ensures k.None? ==> forall i :: 0 <= i < |s| ==> s[i] != c
    ensures k.Some? ==> k.value < |s| && s[k.value] == c && forall i :: k.value < i < |s| ==> s[i] != c
  {
    var i := |s|;
    while i > 0
      invariant 0 <= i <= |s| && forall j :: i <= j < |s| ==> s[j] != c
    {
      i := i - 1;
      if s[i] == c {
        return Some(i);
      }
    }
    k := None;
  }

  /** The escaping loop of formdata_add_filename(). */
  method Escape(filename: string) returns (escaped: string)
    ensures escaped == Escaped(filename)
  {
    escaped := "";
    ghost var all := Escaped(filename);
    var i := 0;
    while i < |filename|
      invariant 0 <= i <= |filename|
      invariant all == escaped + Escaped(filename[i..])
    {
      EscapedStep(filename, i, escaped, all);
      if filename[i] == '\\' || filename[i] == '"' {
        escaped := escaped + ['\\'];
      }
      escaped := escaped + [filename[i]];
      i := i + 1;
    }
  }
}
