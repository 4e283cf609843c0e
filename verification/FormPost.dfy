/** A form post from end to end, and back: what the reader delivers is the
    multipart body, and splitting that body at its delimiters gives the parts
    again (section 5.1.1 of RFC 2046). */
module FormPost {
  import opened CText
  import opened FormModel
  import opened FormBuilder
  import opened FormReader

  /** The list is built, its header line taken off, and the rest read through a
      buffer, any amount at a time, until the reader returns 0. */
  method Deliver(world: World, stdin: string, posts: seq<Post>, contentType: Option<string>, buffer: array<char>)
    returns (error: Option<Error>, header: string, body: string, size: nat)
    requires PostsOk(posts) && posts != [] && buffer.Length > 0
    modifies buffer
    ensures match PartTexts(world, posts, 1, stdin)
            case Err(e) => error == Some(e)
            case Ok(parts) =>
              && error.None? && header == HeaderLine(contentType, Boundary(world, 0))
              && body == Body(parts, Boundary(world, 0))
              && size == |body| + PostsExcess(posts)
  {
    header, body, size := "", "", 0;
    var builder := new Builder(world, stdin);
    var list;
    error, list, size := builder.GetFormData(posts, contentType);
    if error.Some? {
      return;
    }
    var form := new Form(world, list);
    var line := form.PostHeader();
    header := line.value;
    body := ReadAll(form, buffer);
  }

  /** Whatever sizes the reads have, they add up to what there was to deliver,
      as long as no callback gives a signal. */
  method ReadAll(form: Form, buffer: array<char>) returns (all: string)
    requires form.Valid() && Openable(form.world, form.data) && buffer.Length > 0
    modifies form, buffer
    ensures all == old(form.Remaining())
  {
    all := "";
    ghost var rest := form.Remaining();
    var got := 1;
    while got != 0
      invariant form.Valid() && Openable(form.world, form.data)
      invariant rest == form.Remaining() && old(form.Remaining()) == all + rest
      invariant got == 0 ==> rest == ""
      decreases |rest|, got
    {
      var wanted :| 0 < wanted <= buffer.Length;
      got := form.Read(buffer, wanted, None);
      Regroup(all, buffer[..got], form.Remaining());
      all := all + buffer[..got];
      rest := form.Remaining();
    }
    assert all + "" == all;
  }

  // ----- splitting at a delimiter

  /** Where d occurs first. */
  function FindFirst(text: string, d: string): (k: Option<nat>)
    ensures k.Some? ==> OccursAt(text, d, k.value)
  {
    if |text| < |d| then None
    else if text[..|d|] == d then Some(0)
    else if text == "" then None
    else
      var r := FindFirst(text[1..], d);
      if r.None? then None
      else
        assert text[1..][r.value..r.value + |d|] == text[r.value + 1..r.value + 1 + |d|];
        Some(r.value + 1)
  }

  function Split(text: string, d: string): (pieces: seq<string>)
    requires d != ""
    ensures pieces != []
    decreases |text|
  {
    var k := FindFirst(text, d);
    if k.None? then [text] else [text[..k.value]] + Split(text[k.value + |d|..], d)
  }

  function Join(pieces: seq<string>, d: string): string
    requires pieces != []
  {
    if |pieces| == 1 then pieces[0] else pieces[0] + d + Join(pieces[1..], d)
  }

  /** None of these texts contains d. */
  predicate AllFree(texts: seq<string>, d: string) {
    forall i :: 0 <= i < |texts| ==> !Contains(texts[i], d)
  }

  /** The delimiter starts with a character it does not contain otherwise. */
  predicate HeadOnce(d: string) {
    d != "" && forall i :: 0 < i < |d| ==> d[i] != d[0]
  }

  lemma {:induction false} FirstIsFirst(text: string, d: string, i: nat)
    requires d != "" && (FindFirst(text, d).None? || i < FindFirst(text, d).value)
    ensures !OccursAt(text, d, i)
    decreases |text|
  {
    if i + |d| <= |text| && i > 0 {
      FirstIsFirst(text[1..], d, i - 1);
      assert text[1..][i - 1..i - 1 + |d|] == text[i..i + |d|];
    }
  }

  lemma SliceOfPrefix(text: string, k: nat, j: nat, n: nat)
    requires j + n <= k <= |text|
    ensures text[..k][j..j + n] == text[j..j + n]
  {
  }

  lemma NoneInFront(text: string, d: string, n: nat)
    requires d != "" && n <= |text| && (FindFirst(text, d).Some? ==> n <= FindFirst(text, d).value)
    ensures !Contains(text[..n], d)
  {
    forall j | 0 <= j <= n ensures !OccursAt(text[..n], d, j) {
      if j + |d| <= n {
        FirstIsFirst(text, d, j);
        SliceOfPrefix(text, n, j, |d|);
      }
    }
  }

  /** No piece contains the delimiter it was split at. */
  lemma {:induction false} PiecesAreFree(text: string, d: string, i: nat)
    requires d != "" && i < |Split(text, d)|
    ensures !Contains(Split(text, d)[i], d)
    decreases |text|
  {
    var k := FindFirst(text, d);
    if i == 0 {
      NoneInFront(text, d, if k.None? then |text| else k.value);
      assert text[..|text|] == text;
    } else {
      PiecesAreFree(text[k.value + |d|..], d, i - 1);
    }
  }

  /** A delimiter behind a piece without it is found right there: none can lie
      across the edge, because only its head is its head. */
  lemma {:induction false} FoundAtEdge(piece: string, d: string, rest: string)
    requires HeadOnce(d) && !Contains(piece, d)
    ensures FindFirst(piece + d + rest, d) == Some(|piece|)
    decreases |piece|
  {
    var text := piece + d + rest;
    if piece == "" {
      assert text[..|d|] == d;
    } else {
      NotAtHead(piece, d, rest);
      assert text[1..] == piece[1..] + d + rest;
      TailIsFree(piece, d);
      FoundAtEdge(piece[1..], d, rest);
    }
  }

  lemma NotAtHead(piece: string, d: string, rest: string)
    requires HeadOnce(d) && !Contains(piece, d) && piece != ""
    ensures (piece + d + rest)[..|d|] != d
  {
    var text := piece + d + rest;
    if |piece| >= |d| {
      assert !OccursAt(piece, d, 0);
      assert text[..|d|] == piece[0..0 + |d|];
    } else {
      assert text[..|d|][|piece|] == d[0];
    }
  }

  lemma TailIsFree(piece: string, d: string)
    requires !Contains(piece, d) && piece != ""
    ensures !Contains(piece[1..], d)
  {
    forall k | 0 <= k <= |piece[1..]| ensures !OccursAt(piece[1..], d, k) {
      assert !OccursAt(piece, d, k + 1);
      assert k + |d| <= |piece[1..]| ==> piece[1..][k..k + |d|] == piece[k + 1..k + 1 + |d|];
    }
  }

  lemma {:induction false} NotFound(text: string, d: string)
    requires d != "" && !Contains(text, d)
    ensures FindFirst(text, d).None?
    decreases |text|
  {
    if |text| >= |d| {
      assert !OccursAt(text, d, 0);
      assert text[0..0 + |d|] == text[..|d|];
      TailIsFree(text, d);
      NotFound(text[1..], d);
    }
  }

  lemma {:induction false} SplitOfJoin(pieces: seq<string>, d: string)
    requires pieces != [] && HeadOnce(d) && AllFree(pieces, d)
    ensures Split(Join(pieces, d), d) == pieces
    decreases |pieces|
  {
    if |pieces| == 1 {
      NotFound(pieces[0], d);
    } else {
      var text, rest := Join(pieces, d), Join(pieces[1..], d);
      FoundAtEdge(pieces[0], d, rest);
      assert text[..|pieces[0]|] == pieces[0] && text[|pieces[0]| + |d|..] == rest;
      SplitOfJoin(pieces[1..], d);
      assert pieces == [pieces[0]] + pieces[1..];
    }
  }

  /** Splitting undoes joining exactly when no piece contains the delimiter. */
  lemma SplitUndoesJoin(pieces: seq<string>, d: string)
    requires pieces != [] && HeadOnce(d)
    ensures Split(Join(pieces, d), d) == pieces <==> AllFree(pieces, d)
  {
    if AllFree(pieces, d) {
      SplitOfJoin(pieces, d);
    } else if Split(Join(pieces, d), d) == pieces {
      forall i | 0 <= i < |pieces| ensures !Contains(pieces[i], d) {
        PiecesAreFree(Join(pieces, d), d, i);
      }
    }
  }

  // ----- multipart bodies

  /** The delimiter of a multipart entity, with the CRLF that belongs to it. */
  function Delimiter(boundary: string): string {
    "\r\n--" + boundary
  }

  /** What stands between the delimiters: the CRLF that ends the delimiter line and
      a part, and at last what closes the last delimiter. */
  function Pieces(texts: seq<string>, last: string): (pieces: seq<string>)
    ensures |pieces| == |texts| + 1 && pieces[|texts|] == last
    ensures forall i :: 0 <= i < |texts| ==> pieces[i] == CRLF + texts[i]
  {
    if texts == [] then [last] else [CRLF + texts[0]] + Pieces(texts[1..], last)
  }

  lemma BoundaryHeadOnce(boundary: string)
    requires forall i :: 0 <= i < |boundary| ==> boundary[i] == '-' || IsAlnum(boundary[i])
    ensures HeadOnce(Delimiter(boundary))
  {
  }

  lemma {:induction false} DelimitedIsJoin(head: string, texts: seq<string>, boundary: string, last: string)
    ensures head + Delimited(texts, boundary) + (Delimiter(boundary) + last) ==
            Join([head] + Pieces(texts, last), Delimiter(boundary))
    decreases |texts|
  {
    var d := Delimiter(boundary);
    var pieces := [head] + Pieces(texts, last);
    assert pieces[1..] == Pieces(texts, last);
    if texts == [] {
      assert Join(pieces, d) == head + d + last;
      assert head + "" + (d + last) == head + d + last;
    } else {
      DelimitedIsJoin(CRLF + texts[0], texts[1..], boundary, last);
      var inner := Delimited(texts[1..], boundary);
      JoinStep(head, d, CRLF, texts[0], inner, d + last);
    }
  }

  lemma JoinStep(head: string, d: string, crlf: string, text: string, inner: string, tail: string)
    ensures head + (d + crlf + text + inner) + tail == head + d + (crlf + text + inner + tail)
  {
  }

  /** The delimiter may begin neither in the CRLF in front of a part nor in the
      text that closes the entity. */
  lemma OccursBehindCrLf(text: string, boundary: string)
    requires text != "" && text[0] != '-'
    ensures Contains(CRLF + text, Delimiter(boundary)) <==> Contains(text, Delimiter(boundary))
  {
    var d := Delimiter(boundary);
    var whole := CRLF + text;
    if Contains(text, d) {
      var k :| 0 <= k <= |text| && OccursAt(text, d, k);
      assert whole[k + 2..k + 2 + |d|] == d;
      assert OccursAt(whole, d, k + 2);
    }
    if Contains(whole, d) {
      var k :| 0 <= k <= |whole| && OccursAt(whole, d, k);
      assert whole[k] == d[0] && whole[k + 2] == d[2];
      assert k != 0 && k != 1;
      assert text[k - 2..k - 2 + |d|] == whole[k..k + |d|];
      assert OccursAt(text, d, k - 2);
    }
  }

  /** Nothing but the parts, and the head in front of them, can contain the
      delimiter. */
  lemma PiecesFree(head: string, texts: seq<string>, last: string, boundary: string)
    requires forall i :: 0 <= i < |texts| ==> Starts(texts[i])
    requires |last| < |Delimiter(boundary)|
    ensures AllFree([head] + Pieces(texts, last), Delimiter(boundary)) <==>
            !Contains(head, Delimiter(boundary)) && AllFree(texts, Delimiter(boundary))
  {
    var d, pieces := Delimiter(boundary), [head] + Pieces(texts, last);
    forall i | 0 <= i < |texts| ensures Contains(pieces[i + 1], d) <==> Contains(texts[i], d) {
      assert pieces[i + 1] == CRLF + texts[i];
      OccursBehindCrLf(texts[i], boundary);
    }
    FreeAlike(s => Contains(s, d), pieces, texts);
    assert !Contains(last, d);
  }

  lemma FreeAlike(has: string -> bool, pieces: seq<string>, texts: seq<string>)
    requires |pieces| == |texts| + 2 && forall i :: 0 <= i < |texts| ==> (has(pieces[i + 1]) <==> has(texts[i]))
    ensures (forall i :: 0 <= i < |pieces| ==> !has(pieces[i])) <==>
            !has(pieces[0]) && !has(pieces[|texts| + 1]) && forall i :: 0 <= i < |texts| ==> !has(texts[i])
  {
    assert forall i :: 1 <= i <= |texts| ==> (has(pieces[i]) <==> has(texts[i - 1]));
  }

  /** Every part begins with its Content-Disposition. */
  predicate Starts(text: string) {
    text != "" && text[0] == 'C'
  }

  lemma {:induction false} PartsStart(world: World, posts: seq<Post>, k: nat, stdin: string)
    requires PostsOk(posts) && PartTexts(world, posts, k, stdin).Ok?
    ensures forall i :: 0 <= i < |PartTexts(world, posts, k, stdin).value| ==> Starts(PartTexts(world, posts, k, stdin).value[i])
    decreases |posts|
  {
    if posts != [] {
      var post := posts[0];
      HeadStarts(post);
      assert Starts(PartText(world, post, k, stdin).value);
      PartsStart(world, posts[1..], BoundaryAfter(post, k), StdinAfterAll(post, Items(post), stdin));
    }
  }

  lemma HeadStarts(post: Post)
    requires PostOk(post)
    ensures Starts(FieldHead(post))
  {
  }

  lemma {:induction false} ItemsStart(world: World, post: Post, items: seq<Item>, stdin: string)
    requires PostOk(post) && ItemTexts(world, post, items, stdin).Ok?
    ensures forall i :: 0 <= i < |ItemTexts(world, post, items, stdin).value| ==> Starts(ItemTexts(world, post, items, stdin).value[i])
    decreases |items|
  {
    if items != [] {
      ItemStarts(world, post, items[0], stdin);
      ItemsStart(world, post, items[1..], StdinAfter(post, items[0], stdin));
    }
  }

  lemma ItemStarts(world: World, post: Post, item: Item, stdin: string)
    requires PostOk(post) && ItemText(world, post, item, stdin, true).Ok?
    ensures Starts(ItemText(world, post, item, stdin, true).value)
  {
    assert Starts(ATTACHMENT);
  }

  lemma BodyIsJoin(parts: seq<string>, boundary: string)
    requires parts != []
    ensures CRLF + Body(parts, boundary) == Join([""] + Pieces(parts, "--\r\n"), Delimiter(boundary))
  {
    var closing := "\r\n--" + boundary + "--\r\n";
    var inner := Delimited(parts[1..], boundary);
    assert CRLF + Opened(parts, boundary) == Delimited(parts, boundary) by {
      OpeningStep("--", boundary, CRLF, parts[0], inner);
      assert CRLF + "--" == "\r\n--";
    }
    Regroup(CRLF, Opened(parts, boundary), closing);
    assert "" + Delimited(parts, boundary) == Delimited(parts, boundary);
    DelimitedIsJoin("", parts, boundary, "--\r\n");
  }

  lemma OpeningStep(dashes: string, boundary: string, crlf: string, text: string, inner: string)
    ensures crlf + (dashes + boundary + crlf + text + inner) == crlf + dashes + boundary + crlf + text + inner
  {
  }

  /** Splitting the body of a post (with the CRLF that precedes its first
      delimiter) gives exactly its parts, in field order, if and only if the
      delimiter occurs in none of them. */
  lemma PostParsesBack(world: World, posts: seq<Post>, stdin: string)
    requires PostsOk(posts) && posts != [] && PartTexts(world, posts, 1, stdin).Ok?
    ensures var parts, boundary := PartTexts(world, posts, 1, stdin).value, Boundary(world, 0);
            Split(CRLF + Body(parts, boundary), Delimiter(boundary)) == [""] + Pieces(parts, "--\r\n") <==>
            AllFree(parts, Delimiter(boundary))
  {
    var parts, boundary := PartTexts(world, posts, 1, stdin).value, Boundary(world, 0);
    var d, pieces := Delimiter(boundary), [""] + Pieces(parts, "--\r\n");
    PartsStart(world, posts, 1, stdin);
    BodyIsJoin(parts, boundary);
    BoundaryHeadOnce(boundary);
    SplitUndoesJoin(pieces, d);
    PiecesFree("", parts, "--\r\n", boundary);
  }

  /** The same holds of the files inside a part that has several: splitting it at
      its own delimiter gives its header and the files, if and only if that
      delimiter occurs in none of these. */
  lemma MixedParsesBack(world: World, post: Post, k: nat, stdin: string)
    requires PostOk(post) && post.more != [] && PartText(world, post, k, stdin).Ok?
    ensures var texts, boundary := ItemTexts(world, post, Items(post), stdin).value, Boundary(world, k);
            var head, d := MixedHead(post, boundary), Delimiter(boundary);
            Split(PartText(world, post, k, stdin).value, d) == [head] + Pieces(texts, "--") <==>
            !Contains(head, d) && AllFree(texts, d)
  {
    var texts, boundary := ItemTexts(world, post, Items(post), stdin).value, Boundary(world, k);
    var head, d := MixedHead(post, boundary), Delimiter(boundary);
    ItemsStart(world, post, Items(post), stdin);
    MixedIsJoin(head, texts, boundary);
    BoundaryHeadOnce(boundary);
    SplitUndoesJoin([head] + Pieces(texts, "--"), d);
    PiecesFree(head, texts, "--", boundary);
  }

  lemma MixedIsJoin(head: string, texts: seq<string>, boundary: string)
    ensures Mixed(head, texts, boundary) == Join([head] + Pieces(texts, "--"), Delimiter(boundary))
  {
    DelimitedIsJoin(head, texts, boundary, "--");
  }
}
