/** The LIST round trip: parsing a printed listing lists its entries. */
module FtpListListing {
  import opened CText
  import opened FtpListModel
  import opened FtpListRoundTrip
  import opened FtpListTheorems
  import opened FtpListLinks

  /** The state after "name -> ". */
  function AfterArrow(p: Parser, e: Entry): (q: Parser)
    requires p.file.Some?
    ensures q.file.Some?
  {
    Reset(SetData(p, Data(p) + Spaces(e.gaps.name) + e.name + [NUL] + "-> ").(
            offs := p.offs.(filename := |Data(p)| + e.gaps.name)), Arrow4)
  }

  lemma ReadNameAndArrow(conf: Config, p: Parser, e: Entry)
    requires SoFar(conf, e, p, 7) && WellFormed(e) && e.fileType == Symlink
    ensures Fold(conf, p, Spaces(e.gaps.name) + e.name + " -> ") == AfterArrow(p, e)
  {
    ReadLinkName(conf, p, e.gaps.name, e.name);
    var q := SetData(p, Data(p) + Spaces(e.gaps.name) + e.name).(
      mode := LinkName, itemOffset := |Data(p)| + e.gaps.name, itemLength := |e.name|);
    ReadArrow(conf, q);
    FoldThen(conf, p, Spaces(e.gaps.name) + e.name, q, " -> ", AfterArrow(p, e));
  }

  lemma ReadLink(conf: Config, p: Parser, e: Entry)
    requires SoFar(conf, e, p, 7) && WellFormed(e) && e.fileType == Symlink
    ensures var q := AfterArrow(p, e);
            Closed(conf, p, RecordOf(p, Data(q) + TargetStored(e), q.offs.(target := |Data(q)|)),
                   Fold(conf, p, NamePart(e)))
  {
    ReadNameAndArrow(conf, p, e);
    var q := AfterArrow(p, e);
    var q1 := TargetThenEol(conf, q, e);
    var named := Spaces(e.gaps.name) + e.name;
    FoldThen(conf, p, named + " -> ", q, e.target + Eol(e), q1);
    assert named + " -> " + (e.target + Eol(e)) == NamePart(e);
  }

  lemma TargetThenEol(conf: Config, p: Parser, e: Entry) returns (q: Parser)
    requires Reading(p) && p.mode.Arrow4? && WellFormed(e) && e.fileType == Symlink
    ensures q == Fold(conf, p, e.target + Eol(e))
    ensures Closed(conf, p, RecordOf(p, Data(p) + TargetStored(e), p.offs.(target := |Data(p)|)), q)
  {
    StartTarget(conf, p, e.target);
    var p1 := SetData(p, Data(p) + e.target).(
      mode := TargetText, itemOffset := |Data(p)|, itemLength := |e.target|);
    EndTarget(conf, p1, e, Data(p));
    q := Fold(conf, p1, Eol(e));
    FoldThen(conf, p, e.target, p1, Eol(e), q);
  }

  /** The record shows the entry's values, and passes the filter exactly when
      the entry does. */
  predicate Shows(conf: Config, e: Entry, r: Record)
    requires WellFormed(e)
  {
    ViewOf(r) == Expected(conf, e) && (Wanted(conf, r) <==> Listed(conf, e))
  }

  lemma FinishedShows(conf: Config, e: Entry, r: Record)
    requires WellFormed(e) && AttrsSoFar(conf, e, r.attrs, 7) && FieldsSoFar(e, r.data, r.offs, 7)
    requires Held(r.data, r.offs.filename, e.name)
    requires e.fileType == Symlink ==> r.offs.target > 0 && Held(r.data, r.offs.target, TargetRead(e))
    ensures Shows(conf, e, r)
  {
    HeldReads(r.data, r.offs.filename, e.name);
    HeldReads(r.data, 1, PermText(e.perms));
    HeldReads(r.data, r.offs.user, e.user);
    HeldReads(r.data, r.offs.group, e.group);
    HeldReads(r.data, r.offs.time, e.TimeText());
    if e.fileType == Symlink {
      HeldReads(r.data, r.offs.target, TargetRead(e));
    }
  }

  lemma EndStored(text: string, e: Entry)
    ensures text + EolStored(e) == text + [NUL] + if e.crlf then ['\n'] else []
  {
  }

  lemma ReadPlainRest(conf: Config, p: Parser, e: Entry) returns (r: Record)
    requires SoFar(conf, e, p, 7) && WellFormed(e) && e.fileType != Symlink
    ensures Shows(conf, e, r) && Closed(conf, p, r, Fold(conf, p, NamePart(e)))
  {
    ReadName(conf, p, e);
    var text := Data(p) + Spaces(e.gaps.name) + e.name;
    var offs := p.offs.(filename := |Data(p)| + e.gaps.name);
    var more := if e.crlf then ['\n'] else [];
    FieldsAfter(e, Data(p), e.gaps.name, e.name, p.offs, 7);
    EndStored(text, e);
    FieldsGrow(e, text + [NUL], more, offs, 7);
    HeldGrows(text + [NUL], more, offs.filename, e.name);
    r := RecordOf(p, text + EolStored(e), offs);
    FinishedShows(conf, e, r);
  }

  lemma LinkFieldsHeld(conf: Config, p: Parser, e: Entry)
    requires SoFar(conf, e, p, 7) && WellFormed(e) && e.fileType == Symlink
    ensures var q := AfterArrow(p, e);
            var data := Data(q) + TargetStored(e);
            && FieldsSoFar(e, data, p.offs, 7)
            && Held(data, q.offs.filename, e.name)
            && Held(data, |Data(q)|, TargetRead(e))
  {
    FieldsAfter(e, Data(p), e.gaps.name, e.name, p.offs, 7);
    var named := Data(p) + Spaces(e.gaps.name) + e.name + [NUL];
    var more := "-> " + TargetStored(e);
    var data := named + "-> " + TargetStored(e);
    assert data == named + more;
    FieldsGrow(e, named, more, p.offs, 7);
    HeldGrows(named, more, |Data(p)| + e.gaps.name, e.name);
    HeldInTail(named + "-> ", TargetRead(e), if e.crlf then ['\r', '\n'] else []);
    assert data == named + "-> " + (TargetRead(e) + [NUL] + if e.crlf then ['\r', '\n'] else []);
  }

  lemma HeldInTail(before: string, text: string, tail: string)
    requires NoNul(text)
    ensures Held(before + (text + [NUL] + tail), |before|, text)
  {
    var data := before + (text + [NUL] + tail);
    assert data[|before|..|before| + |text|] == text;
  }

  lemma ReadLinkRest(conf: Config, p: Parser, e: Entry) returns (r: Record)
    requires SoFar(conf, e, p, 7) && WellFormed(e) && e.fileType == Symlink
    ensures Shows(conf, e, r) && Closed(conf, p, r, Fold(conf, p, NamePart(e)))
  {
    ReadLink(conf, p, e);
    LinkFieldsHeld(conf, p, e);
    var q := AfterArrow(p, e);
    r := RecordOf(p, Data(q) + TargetStored(e), q.offs.(target := |Data(q)|));
    FinishedShows(conf, e, r);
  }

  /** Do strtol() and curlx_strtoofft() read this entry's numbers as specified? */
  predicate ReadsNumbers(conf: Config, e: Entry) {
    conf.readLong(Decimal(e.links)) == StrTol(Decimal(e.links), conf.longMax) &&
    conf.readOff(Decimal(e.size)) == StrTol(Decimal(e.size), conf.offMax)
  }

  /** The fields from here on bring the parser to the name. */
  predicate AtName(conf: Config, e: Entry, p: Parser, q: Parser, text: string) {
    SoFar(conf, e, q, 7) && q.files == p.files && Fold(conf, p, text) == Fold(conf, q, NamePart(e))
  }

  // Fields are peeled off one lemma at a time, so that each proof sees one field.

  lemma FromClock(conf: Config, p: Parser, e: Entry) returns (q: Parser)
    requires SoFar(conf, e, p, 6) && Printable(e)
    ensures AtName(conf, e, p, q, TimePart(e))
  {
    ReadClock(conf, p, e);
    var p1 := Fold(conf, p, Field(e.gaps.part1, e.TimeText()));
    q := p1;
    FoldThen(conf, p, Field(e.gaps.part1, e.TimeText()), p1, NamePart(e), Fold(conf, q, NamePart(e)));
  }

  lemma FromSize(conf: Config, p: Parser, e: Entry) returns (q: Parser)
    requires SoFar(conf, e, p, 5) && Printable(e) && ReadsNumbers(conf, e)
    ensures AtName(conf, e, p, q, SizePart(e))
  {
    ReadSize(conf, p, e);
    var p1 := Fold(conf, p, Field(e.gaps.size, Decimal(e.size)));
    q := FromClock(conf, p1, e);
    FoldThen(conf, p, Field(e.gaps.size, Decimal(e.size)), p1, TimePart(e), Fold(conf, q, NamePart(e)));
  }

  lemma FromGroup(conf: Config, p: Parser, e: Entry) returns (q: Parser)
    requires SoFar(conf, e, p, 4) && Printable(e) && ReadsNumbers(conf, e)
    ensures AtName(conf, e, p, q, GroupPart(e))
  {
    ReadGroup(conf, p, e);
    var p1 := Fold(conf, p, Field(e.gaps.group, e.group));
    q := FromSize(conf, p1, e);
    FoldThen(conf, p, Field(e.gaps.group, e.group), p1, SizePart(e), Fold(conf, q, NamePart(e)));
  }

  lemma FromUser(conf: Config, p: Parser, e: Entry) returns (q: Parser)
    requires SoFar(conf, e, p, 3) && Printable(e) && ReadsNumbers(conf, e)
    ensures AtName(conf, e, p, q, UserPart(e))
  {
    ReadUser(conf, p, e);
    var p1 := Fold(conf, p, Field(e.gaps.user, e.user));
    q := FromGroup(conf, p1, e);
    FoldThen(conf, p, Field(e.gaps.user, e.user), p1, GroupPart(e), Fold(conf, q, NamePart(e)));
  }

  lemma FromLinks(conf: Config, p: Parser, e: Entry) returns (q: Parser)
    requires SoFar(conf, e, p, 2) && Printable(e) && ReadsNumbers(conf, e)
    ensures AtName(conf, e, p, q, LinksPart(e))
  {
    ReadLinks(conf, p, e);
    var p1 := Fold(conf, p, Field(e.gaps.links, Decimal(e.links)));
    q := FromUser(conf, p1, e);
    FoldThen(conf, p, Field(e.gaps.links, Decimal(e.links)), p1, UserPart(e), Fold(conf, q, NamePart(e)));
  }

  lemma FromHead(conf: Config, p: Parser, e: Entry) returns (q: Parser)
    requires LineStart(p) && Printable(e) && ReadsNumbers(conf, e)
    ensures AtName(conf, e, p, q, Line(e))
  {
    ReadHead(conf, p, e);
    var p1 := Fold(conf, p, Head(e));
    q := FromLinks(conf, p1, e);
    FoldThen(conf, p, Head(e), p1, LinksPart(e), Fold(conf, q, NamePart(e)));
  }

  /** One printed line, read from a line start, yields one record (or none if
      the filter rejects the entry), and the parser is at a line start again. */
  lemma ReadLine(conf: Config, p: Parser, e: Entry) returns (r: Record)
    requires LineStart(p) && WellFormed(e) && ReadsNumbers(conf, e)
    ensures Shows(conf, e, r) && Closed(conf, p, r, Fold(conf, p, Line(e)))
  {
    var q := FromHead(conf, p, e);
    if e.fileType == Symlink {
      r := ReadLinkRest(conf, q, e);
    } else {
      r := ReadPlainRest(conf, q, e);
    }
    SameFiles(conf, p, q, r, Fold(conf, q, NamePart(e)));
  }

  // ----- whole listings

  function Views(rs: seq<Record>): (vs: seq<View>)
    ensures |vs| == |rs|
  {
    seq(|rs|, i requires 0 <= i < |rs| => ViewOf(rs[i]))
  }

  predicate AllWellFormed(entries: seq<Entry>) {
    entries == [] || (WellFormed(entries[0]) && AllWellFormed(entries[1..]))
  }

  predicate AllReadable(conf: Config, entries: seq<Entry>) {
    entries == [] || (ReadsNumbers(conf, entries[0]) && AllReadable(conf, entries[1..]))
  }

  lemma {:induction false} StandardReads(conf: Config, entries: seq<Entry>)
    requires conf == StandardConfig(conf.keep, conf.longMax, conf.offMax, conf.staleErange)
    ensures AllReadable(conf, entries)
    decreases |entries|
  {
    if entries != [] {
      StandardReads(conf, entries[1..]);
    }
  }

  function ExpectedViews(conf: Config, entries: seq<Entry>): seq<View>
    requires AllWellFormed(entries)
  {
    if entries == [] then [] else ExpectedView(conf, entries[0]) + ExpectedViews(conf, entries[1..])
  }

  function ExpectedView(conf: Config, e: Entry): seq<View>
    requires WellFormed(e)
  {
    if Listed(conf, e) then [Expected(conf, e)] else []
  }

  lemma ViewsAppend(rs: seq<Record>, more: seq<Record>)
    ensures Views(rs + more) == Views(rs) + Views(more)
  {
  }

  lemma ReadEntry(conf: Config, p: Parser, e: Entry) returns (q: Parser)
    requires LineStart(p) && WellFormed(e) && ReadsNumbers(conf, e)
    ensures q == Fold(conf, p, Line(e)) && LineStart(q)
    ensures Views(q.files) == Views(p.files) + ExpectedView(conf, e)
  {
    var r := ReadLine(conf, p, e);
    q := Fold(conf, p, Line(e));
    if Wanted(conf, r) {
      ViewsAppend(p.files, [r]);
      assert Views([r]) == [ViewOf(r)];
    } else {
      assert Views(p.files) + [] == Views(p.files);
    }
  }

  lemma Compose(conf: Config, p: Parser, a: string, p1: Parser, v: seq<View>, b: string, q: Parser, w: seq<View>)
    requires Fold(conf, p, a) == p1 && Views(p1.files) == Views(p.files) + v
    requires Fold(conf, p1, b) == q && Views(q.files) == Views(p1.files) + w
    ensures Fold(conf, p, a + b) == q && Views(q.files) == Views(p.files) + (v + w)
  {
    FoldThen(conf, p, a, p1, b, q);
  }

  lemma {:induction false} ReadListing(conf: Config, p: Parser, entries: seq<Entry>)
    requires LineStart(p) && AllWellFormed(entries) && AllReadable(conf, entries)
    ensures var q := Fold(conf, p, Listing(entries));
            LineStart(q) && Views(q.files) == Views(p.files) + ExpectedViews(conf, entries)
    decreases |entries|
  {
    if entries == [] {
      assert Views(p.files) + [] == Views(p.files);
    } else {
      var p1 := ReadEntry(conf, p, entries[0]);
      ReadListing(conf, p1, entries[1..]);
      Compose(conf, p, Line(entries[0]), p1, ExpectedView(conf, entries[0]),
              Listing(entries[1..]), Fold(conf, p1, Listing(entries[1..])), ExpectedViews(conf, entries[1..]));
    }
  }

  // ----- the first line

  lemma FirstByteIsReread(conf: Config, c: char)
    requires !IsDigit(c) && c != 't'
    ensures Step(conf, START, c) == Step(conf, START.(os := OsUnix, mode := TypeChar), c)
  {
    assert [] + [c] == [c];
  }

  /** Without a "total" line the first line is read as an entry. */
  lemma FirstLineIsAnEntry(conf: Config, entries: seq<Entry>)
    requires entries != []
    ensures Fold(conf, START, Listing(entries)) == Fold(conf, START.(os := OsUnix, mode := TypeChar), Listing(entries))
  {
    var text := Listing(entries);
    assert text[0] == TypeLetter(entries[0].fileType);
    FirstByteIsReread(conf, text[0]);
  }

  predicate InTotal(p: Parser, text: string) {
    p == START.(os := OsUnix, mode := TotalReading, file := Some(FileInfo(NO_ATTRS, text)), itemLength := |text|)
  }

  lemma {:induction false} ReadTotalText(conf: Config, p: Parser, before: string, text: string)
    requires InTotal(p, before) && NoEol(text)
    ensures InTotal(Fold(conf, p, text), before + text)
    decreases |text|
  {
    if text == [] {
      assert before + text == before;
    } else {
      StepIsDispatch(conf, p, text[0]);
      ReadTotalText(conf, Step(conf, p, text[0]), before + [text[0]], text[1..]);
      assert before + [text[0]] + text[1..] == before + text;
    }
  }

  lemma StartTotal(conf: Config)
    ensures InTotal(Step(conf, START, 't'), "t")
  {
  }

  lemma TotalIsOk(gap: nat, total: nat)
    ensures TotalLineOk("total " + Spaces(gap) + Decimal(total) + [NUL])
  {
    var data := "total " + Spaces(gap) + Decimal(total) + [NUL];
    var digits := 6 + gap;
    assert forall k :: 6 <= k < digits ==> data[k] == ' ';
    assert IsDigit(data[digits]) by { assert data[digits] == Decimal(total)[0]; }
    assert SkipSpaces(data, 6) == digits;
    var end := |data| - 1;
    assert forall k :: digits <= k < end ==> data[k] == Decimal(total)[k - digits];
    var r := SkipDigits(data, digits);
    assert data[end] == NUL;
    assert r == end by {
      assert forall k :: digits <= k < end ==> IsDigit(data[k]);
    }
  }

  lemma EndTotal(conf: Config, p: Parser, text: string)
    requires InTotal(p, text) && TotalLineOk(text + [NUL])
    ensures LineStart(Step(conf, p, '\n')) && Step(conf, p, '\n').files == []
    ensures InTotal(Step(conf, p, '\r'), text)
  {
    StepIsDispatch(conf, p, '\n');
    StepIsDispatch(conf, p, '\r');
    NulLast(text, '\n');
    assert (text + ['\r'])[..|text|] == text;
  }

  lemma ReadTotalLine(conf: Config, gap: nat, total: nat, crlf: bool)
    ensures var q := Fold(conf, START, TotalLine(gap, total, crlf));
            LineStart(q) && q.files == []
  {
    var text := "total " + Spaces(gap) + Decimal(total);
    StartTotal(conf);
    var p := Step(conf, START, 't');
    ReadTotalText(conf, p, "t", text[1..]);
    assert "t" + text[1..] == text;
    var p1 := Fold(conf, p, text[1..]);
    TotalIsOk(gap, total);
    EndTotal(conf, p1, text);
    OneThen(conf, START, 't', p, text[1..], p1);
    if crlf {
      var p2 := Step(conf, p1, '\r');
      EndTotal(conf, p2, text);
      FoldOne(conf, p2, '\n');
      OneThen(conf, p1, '\r', p2, ['\n'], Step(conf, p2, '\n'));
      FoldThen(conf, START, text, p1, ['\r', '\n'], Step(conf, p2, '\n'));
    } else {
      ThenOne(conf, START, text, p1, '\n', Step(conf, p1, '\n'));
    }
  }

  // ----- main results

  datatype Total = NoTotal | WithTotal(gap: nat, total: nat, crlf: bool)

  function Printed(total: Total, entries: seq<Entry>): string {
    (if total.WithTotal? then TotalLine(total.gap, total.total, total.crlf) else []) + Listing(entries)
  }

  /** Any printed listing, with or without its "total" line, is parsed without
      error into exactly the entries the filter accepts, in order. */
  lemma RoundTrip(keep: string -> bool, longMax: nat, offMax: nat, staleErange: bool,
                  total: Total, entries: seq<Entry>)
    requires AllWellFormed(entries)
    ensures var conf := StandardConfig(keep, longMax, offMax, staleErange);
            var q := Fold(conf, START, Printed(total, entries));
            q.error == Ok && Views(q.files) == ExpectedViews(conf, entries)
  {
    var conf := StandardConfig(keep, longMax, offMax, staleErange);
    StandardReads(conf, entries);
    if total.WithTotal? {
      var line := TotalLine(total.gap, total.total, total.crlf);
      ReadTotalLine(conf, total.gap, total.total, total.crlf);
      var p := Fold(conf, START, line);
      ReadListing(conf, p, entries);
      FoldThen(conf, START, line, p, Listing(entries), Fold(conf, p, Listing(entries)));
    } else if entries != [] {
      assert Printed(total, entries) == Listing(entries);
      FirstLineIsAnEntry(conf, entries);
      ReadListing(conf, START.(os := OsUnix, mode := TypeChar), entries);
      assert Views([]) + ExpectedViews(conf, entries) == ExpectedViews(conf, entries);
    }
  }
}
