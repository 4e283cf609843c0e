/** Windows NT listings: a printer for their lines, and what the parser makes of
    any listing it prints. What a size text means is said without the parser. */
module FtpListNt {
  import opened CText
  import opened FtpListModel
  import opened FtpListRoundTrip
  import opened FtpListListing

  /** A line as the server prints it; `size` is "<DIR>" or a number. Each field is
      followed by one space and, before the next one, by a gap of more. */
  datatype NtEntry = NtEntry(
    date: string, timeGap: nat, time: string, sizeGap: nat, size: string, nameGap: nat, name: string, crlf: bool)

  predicate InDate(c: char) {
    '0' <= c <= '9' || c == '-'
  }

  predicate InTime(c: char) {
    '0' <= c <= '9' || c == ':' || c == 'A' || c == 'P' || c == 'M'
  }

  predicate Printable(e: NtEntry) {
    && |e.date| == 8 && (forall i :: 0 <= i < 8 ==> InDate(e.date[i]))
    && e.time != "" && (forall i :: 0 <= i < |e.time| ==> InTime(e.time[i]))
    && Word(e.size) && NameFits(e)
  }

  predicate NameFits(e: NtEntry) {
    e.name != "" && e.name[0] != ' ' && NoEol(e.name) && NoNul(e.name)
  }

  /** Date and time as they stand in the line. */
  function Stamp(e: NtEntry): string {
    e.date + [' '] + Spaces(e.timeGap) + e.time
  }

  function NtEol(e: NtEntry): string {
    if e.crlf then ['\r', '\n'] else ['\n']
  }

  function NameAndEol(e: NtEntry): string {
    Spaces(e.nameGap) + e.name + NtEol(e)
  }

  function NtLine(e: NtEntry): string {
    Stamp(e) + [' '] + (Spaces(e.sizeGap) + e.size + [' '] + NameAndEol(e))
  }

  function NtListing(entries: seq<NtEntry>): string {
    if entries == [] then "" else NtLine(entries[0]) + NtListing(entries[1..])
  }

  // ----- what a size text means

  /** White space, a sign or none, and digits: the number they denote. */
  ghost predicate IsNumber(text: string, v: int) {
    exists space, sign, digits :: Composed(text, space, sign, digits, v)
  }

  predicate Composed(text: string, space: string, sign: string, digits: string, v: int) {
    && text == space + sign + digits
    && (forall i :: 0 <= i < |space| ==> IsSpace(space[i]))
    && (sign == "" || sign == "+" || sign == "-")
    && digits != "" && AllDigits(digits)
    && v == (if sign == "-" then 0 - DecimalValue(digits) else DecimalValue(digits) as int)
  }

  /** The number is one the type can hold; the largest and the smallest are taken
      for an overflow when errno was left at ERANGE. */
  predicate Holds(v: int, max: nat, staleErange: bool) {
    -1 - max <= v <= max && (staleErange ==> -1 - max < v < max)
  }

  ghost predicate IsSize(text: string, v: int, max: nat, staleErange: bool) {
    IsNumber(text, v) && Holds(v, max, staleErange)
  }

  /** Type and size of an entry; none for a text that is an error. */
  ghost function Meaning(text: string, max: nat, staleErange: bool): Option<(FileType, int)> {
    if text == "<DIR>" then Some((Directory, 0))
    else if v :| IsSize(text, v, max, staleErange) then Some((RegularFile, v))
    else None
  }

  lemma Laid(space: string, sign: string, digits: string)
    ensures var text, i, j := space + sign + digits, |space|, |space| + |sign|;
            && text[i..j] == sign && text[j..] == digits && (|sign| == 1 ==> text[i] == sign[0])
            && (forall k :: 0 <= k < i ==> text[k] == space[k])
            && (digits != "" ==> text[j] == digits[0])
            && forall k :: j <= k < |text| ==> text[k] == digits[k - j]
  {
  }

  lemma SkipsAll(text: string, i: nat, j: nat)
    requires i <= j < |text|
    requires (forall k :: 0 <= k < i ==> IsSpace(text[k])) && !IsSpace(text[i]) && forall k :: j <= k < |text| ==> IsDigit(text[k])
    ensures SkipSpaces(text, 0) == i && SkipDigits(text, j) == |text|
  {
  }

  lemma Skipped(text: string, space: string, sign: string, digits: string, v: int)
    requires Composed(text, space, sign, digits, v)
    ensures var i, j := |space|, |space| + |sign|;
            && i <= j < |text| && (j == i || j == i + 1) && (j == i + 1 ==> text[i] == sign[0]) && (j == i ==> IsDigit(text[i]))
            && SkipSpaces(text, 0) == i && SkipDigits(text, j) == |text| && text[j..|text|] == digits
  {
    Laid(space, sign, digits);
    assert IsDigit(digits[0]);
    SkipsAll(text, |space|, |space| + |sign|);
  }

  lemma ComposedIsRead(text: string, space: string, sign: string, digits: string, v: int, max: nat)
    requires Composed(text, space, sign, digits, v)
    ensures StrTol(text, max) == Number(Clamp(v, max), true, Clamp(v, max) != v)
  {
    Skipped(text, space, sign, digits, v);
  }

  lemma Cut3(text: string, i: nat, j: nat)
    requires i <= j <= |text|
    ensures text == text[..i] + text[i..j] + text[j..] && text[j..|text|] == text[j..]
    ensures j == i ==> text[i..j] == ""
    ensures j == i + 1 ==> text[i..j] == [text[i]]
    ensures (forall k :: j <= k < |text| ==> IsDigit(text[k])) ==> AllDigits(text[j..])
  {
  }

  lemma ReadIsComposed(text: string, max: nat) returns (v: int)
    requires text != "" && StrTol(text, max).atEnd
    ensures IsNumber(text, v)
  {
    var i := SkipSpaces(text, 0);
    var j := if i < |text| && (text[i] == '-' || text[i] == '+') then i + 1 else i;
    assert SkipDigits(text, j) == |text|;
    Cut3(text, i, j);
    var digits := text[j..];
    v := if text[i..j] == "-" then 0 - DecimalValue(digits) else DecimalValue(digits);
    assert Composed(text, text[..i], text[i..j], digits, v);
  }

  /** A text denotes one number at most. */
  lemma OneNumber(text: string, v: int, w: int)
    requires IsNumber(text, v) && IsNumber(text, w)
    ensures v == w
  {
    var max := (if v < 0 then -v else v) + (if w < 0 then -w else w);
    var space, sign, digits :| Composed(text, space, sign, digits, v);
    ComposedIsRead(text, space, sign, digits, v, max);
    var space', sign', digits' :| Composed(text, space', sign', digits', w);
    ComposedIsRead(text, space', sign', digits', w, max);
  }

  /** The parser's reading of a size text is its meaning. */
  lemma SizeIsMeaning(conf: Config, attrs: Attrs, text: string)
    requires conf == StandardConfig(conf.keep, conf.longMax, conf.offMax, conf.staleErange) && text != ""
    ensures NtSizeAttrs(conf, attrs, text) ==
            match Meaning(text, conf.offMax, conf.staleErange)
            case None => None
            case Some(m) => Some(attrs.(fileType := m.0, size := m.1, knownSize := true))
  {
    if text != "<DIR>" {
      var n := StrTol(text, conf.offMax);
      if n.atEnd {
        var v := ReadIsComposed(text, conf.offMax);
        var space, sign, digits :| Composed(text, space, sign, digits, v);
        ComposedIsRead(text, space, sign, digits, v, conf.offMax);
        if w :| IsSize(text, w, conf.offMax, conf.staleErange) {
          OneNumber(text, v, w);
        }
        if Holds(v, conf.offMax, conf.staleErange) {
          assert IsSize(text, v, conf.offMax, conf.staleErange);
          var m := Meaning(text, conf.offMax, conf.staleErange).value;
          OneNumber(text, v, m.1);
        }
      } else if v :| IsSize(text, v, conf.offMax, conf.staleErange) {
        var space, sign, digits :| Composed(text, space, sign, digits, v);
        ComposedIsRead(text, space, sign, digits, v, conf.offMax);
      }
    }
  }

  // ----- reading one line

  /** A state of the NT dialect with an entry being assembled. */
  predicate InEntry(p: Parser) {
    p.error == Ok && p.os == OsWinNt && p.file.Some? && !p.mode.TotalInit?
  }

  /** Between two lines; the offsets of fields this dialect lacks are zero. */
  predicate NtStart(p: Parser) {
    && p.error == Ok && p.os == OsWinNt && p.mode.NtDate? && p.file.None?
    && p.offs.user == 0 && p.offs.group == 0 && p.offs.perm == 0
  }

  lemma StepIs(conf: Config, p: Parser, c: char)
    requires InEntry(p)
    ensures Step(conf, p, c) == Dispatch(conf, SetData(p, Data(p) + [c]), c)
  {
  }

  /** Bytes that only make the item longer. */
  predicate Longer(mode: Mode, length: nat, c: char) {
    match mode
    case NtDate => length < 8 && InDate(c)
    case NtTimePre => c == ' '
    case NtTime => InTime(c)
    case NtSizeText => c != ' '
    case NtNameText => !IsEol(c)
    case _ => false
  }

  function Lengthened(p: Parser, text: string): Parser
    requires p.file.Some?
  {
    SetData(p, Data(p) + text).(itemLength := p.itemLength + |text|)
  }

  lemma OneLonger(conf: Config, p: Parser, c: char)
    requires InEntry(p) && Longer(p.mode, p.itemLength, c)
    ensures Step(conf, p, c) == Lengthened(p, [c])
  {
    StepIs(conf, p, c);
  }

  lemma LengthenedTwice(p: Parser, c: char, rest: string)
    requires p.file.Some?
    ensures Lengthened(Lengthened(p, [c]), rest) == Lengthened(p, [c] + rest)
  {
    assert Data(p) + [c] + rest == Data(p) + ([c] + rest);
  }

  lemma {:induction false} AllLonger(conf: Config, p: Parser, text: string)
    requires InEntry(p) && forall i :: 0 <= i < |text| ==> Longer(p.mode, p.itemLength + i, text[i])
    ensures Fold(conf, p, text) == Lengthened(p, text)
    decreases |text|
  {
    if text == "" {
      assert Data(p) + text == Data(p);
    } else {
      var c, rest := text[0], text[1..];
      OneLonger(conf, p, c);
      AllLonger(conf, Lengthened(p, [c]), rest);
      LengthenedTwice(p, c, rest);
      assert [c] + rest == text;
    }
  }

  lemma OneSpace(conf: Config, p: Parser)
    requires InEntry(p) && (p.mode.NtSizePre? || p.mode.NtNamePre?)
    ensures Step(conf, p, ' ') == SetData(p, Data(p) + [' '])
  {
    StepIs(conf, p, ' ');
  }

  lemma SpacesFromOne(data: string, n: nat)
    requires n > 0
    ensures [' '] + Spaces(n - 1) == Spaces(n) && data + [' '] + Spaces(n - 1) == data + Spaces(n)
  {
  }

  /** Spaces in front of the size and the name. */
  lemma {:induction false} Gap(conf: Config, p: Parser, n: nat)
    requires InEntry(p) && (p.mode.NtSizePre? || p.mode.NtNamePre?)
    ensures Fold(conf, p, Spaces(n)) == SetData(p, Data(p) + Spaces(n))
    decreases n
  {
    if n == 0 {
      assert Data(p) + Spaces(n) == Data(p);
    } else {
      var q := SetData(p, Data(p) + [' ']);
      OneSpace(conf, p);
      Gap(conf, q, n - 1);
      SpacesFromOne(Data(p), n);
      OneThen(conf, p, ' ', q, Spaces(n - 1), SetData(p, Data(p) + Spaces(n)));
    }
  }

  /** A gap and then a word or a name. */
  lemma Item(conf: Config, p: Parser, gap: nat, text: string)
    requires InEntry(p) && (p.mode.NtSizePre? || p.mode.NtNamePre?) && text != "" && text[0] != ' '
    requires forall i :: 1 <= i < |text| ==> if p.mode.NtSizePre? then text[i] != ' ' else !IsEol(text[i])
    ensures Fold(conf, p, Spaces(gap) + text) == Behind(p, gap, text)
  {
    Gap(conf, p, gap);
    var q := SetData(p, Data(p) + Spaces(gap));
    ItemText(conf, q, text);
    FoldThen(conf, p, Spaces(gap), q, text, Behind(p, gap, text));
  }

  lemma ItemText(conf: Config, p: Parser, text: string)
    requires InEntry(p) && (p.mode.NtSizePre? || p.mode.NtNamePre?) && text != "" && text[0] != ' '
    requires forall i :: 1 <= i < |text| ==> if p.mode.NtSizePre? then text[i] != ' ' else !IsEol(text[i])
    ensures Fold(conf, p, text) == Begun(p, text)
  {
    var first, rest := Begun(p, [text[0]]), text[1..];
    ItemBegins(conf, p, text[0]);
    AllLonger(conf, first, rest);
    BegunLonger(p, text[0], rest);
    OneThen(conf, p, text[0], first, rest, Begun(p, [text[0]] + rest));
    HeadBack("", text);
  }

  lemma ItemBegins(conf: Config, p: Parser, c: char)
    requires InEntry(p) && (p.mode.NtSizePre? || p.mode.NtNamePre?) && c != ' '
    ensures Step(conf, p, c) == Begun(p, [c])
  {
    StepIs(conf, p, c);
  }

  lemma BegunLonger(p: Parser, c: char, rest: string)
    requires p.file.Some?
    ensures Lengthened(Begun(p, [c]), rest) == Begun(p, [c] + rest)
  {
    assert Data(p) + [c] + rest == Data(p) + ([c] + rest);
  }

  /** The state behind an item that starts here. */
  function Begun(p: Parser, text: string): Parser
    requires p.file.Some?
  {
    SetData(p, Data(p) + text).(
      mode := if p.mode.NtSizePre? then NtSizeText else NtNameText, itemOffset := |Data(p)|, itemLength := |text|)
  }

  /** The state at the end of an item. */
  function Behind(p: Parser, gap: nat, text: string): Parser
    requires p.file.Some?
  {
    SetData(p, Data(p) + Spaces(gap) + text).(
      mode := if p.mode.NtSizePre? then NtSizeText else NtNameText,
      itemOffset := |Data(p)| + gap, itemLength := |text|)
  }

  /** The state behind date and time: they are one text from the start on. */
  function Stamped(p: Parser, e: NtEntry): Parser {
    p.(file := Some(FileInfo(NO_ATTRS, Stamp(e) + [NUL])), offs := p.offs.(time := 0),
       mode := NtSizePre, itemOffset := 0, itemLength := 0)
  }

  function Dated(p: Parser, text: string, mode: Mode): Parser {
    p.(file := Some(FileInfo(NO_ATTRS, text)), mode := mode, itemOffset := 0, itemLength := |text|)
  }

  lemma ReadDate(conf: Config, p: Parser, date: string)
    requires NtStart(p) && |date| == 8 && forall i :: 0 <= i < 8 ==> InDate(date[i])
    ensures Fold(conf, p, date + [' ']) == Dated(p, date + [' '], NtTimePre)
  {
    var first := Dated(p, [date[0]], NtDate);
    assert Step(conf, p, date[0]) == first;
    AllLonger(conf, first, date[1..]);
    assert [date[0]] + date[1..] == date;
    OneThen(conf, p, date[0], first, date[1..], Dated(p, date, NtDate));
    StepIs(conf, Dated(p, date, NtDate), ' ');
    ThenOne(conf, p, date, Dated(p, date, NtDate), ' ', Dated(p, date + [' '], NtTimePre));
  }

  /** The gap in front of the time, and the time. */
  lemma ReadTime(conf: Config, p: Parser, before: string, gap: nat, time: string)
    requires p.error == Ok && p.os == OsWinNt && time != "" && forall i :: 0 <= i < |time| ==> InTime(time[i])
    ensures Fold(conf, Dated(p, before, NtTimePre), Spaces(gap) + time) == Dated(p, before + Spaces(gap) + time, NtTime)
  {
    var a, b := Dated(p, before, NtTimePre), Dated(p, before + Spaces(gap), NtTimePre);
    AllLonger(conf, a, Spaces(gap));
    DatedLonger(p, before, NtTimePre, Spaces(gap));
    ReadClock(conf, p, before + Spaces(gap), time);
    FoldThen(conf, a, Spaces(gap), b, time, Dated(p, before + Spaces(gap) + time, NtTime));
  }

  lemma DatedLonger(p: Parser, text: string, mode: Mode, more: string)
    ensures Lengthened(Dated(p, text, mode), more) == Dated(p, text + more, mode)
  {
  }

  lemma ReadClock(conf: Config, p: Parser, before: string, time: string)
    requires p.error == Ok && p.os == OsWinNt && time != "" && forall i :: 0 <= i < |time| ==> InTime(time[i])
    ensures Fold(conf, Dated(p, before, NtTimePre), time) == Dated(p, before + time, NtTime)
  {
    var b, c := Dated(p, before, NtTimePre), Dated(p, before + [time[0]], NtTime);
    ClockBegins(conf, p, before, time[0]);
    AllLonger(conf, c, time[1..]);
    DatedLonger(p, before + [time[0]], NtTime, time[1..]);
    HeadBack(before, time);
    OneThen(conf, b, time[0], c, time[1..], Dated(p, before + time, NtTime));
  }

  lemma ClockBegins(conf: Config, p: Parser, before: string, c: char)
    requires p.error == Ok && p.os == OsWinNt && InTime(c)
    ensures Step(conf, Dated(p, before, NtTimePre), c) == Dated(p, before + [c], NtTime)
  {
    StepIs(conf, Dated(p, before, NtTimePre), c);
  }

  lemma HeadBack(before: string, text: string)
    requires text != ""
    ensures before + [text[0]] + text[1..] == before + text && [text[0]] + text[1..] == text
  {
  }

  lemma ReadStamp(conf: Config, p: Parser, e: NtEntry)
    requires NtStart(p) && Printable(e)
    ensures Fold(conf, p, Stamp(e) + [' ']) == Stamped(p, e)
  {
    var day, clock := e.date + [' '], Spaces(e.timeGap) + e.time;
    ReadDate(conf, p, e.date);
    ReadTime(conf, p, day, e.timeGap, e.time);
    var q := Dated(p, Stamp(e), NtTime);
    StampJoins(e);
    FoldThen(conf, p, day, Dated(p, day, NtTimePre), clock, q);
    EndStamp(conf, p, e);
    ThenOne(conf, p, Stamp(e), q, ' ', Stamped(p, e));
  }

  lemma StampJoins(e: NtEntry)
    ensures e.date + [' '] + (Spaces(e.timeGap) + e.time) == Stamp(e) == e.date + [' '] + Spaces(e.timeGap) + e.time
  {
  }

  lemma EndStamp(conf: Config, p: Parser, e: NtEntry)
    requires p.error == Ok && p.os == OsWinNt
    ensures Step(conf, Dated(p, Stamp(e), NtTime), ' ') == Stamped(p, e)
  {
    StepIs(conf, Dated(p, Stamp(e), NtTime), ' ');
    NulLast(Stamp(e), ' ');
  }

  /** The size and the space behind it. */
  lemma ReadSize(conf: Config, p: Parser, e: NtEntry)
    requires InEntry(p) && p.mode.NtSizePre? && Word(e.size)
    ensures var q := Fold(conf, p, Spaces(e.sizeGap) + e.size + [' ']);
            match NtSizeAttrs(conf, p.file.value.attrs, e.size)
            case None => q.error != Ok
            case Some(attrs) => q == Sized(p, e, attrs)
  {
    Item(conf, p, e.sizeGap, e.size);
    var q := Behind(p, e.sizeGap, e.size);
    EndSize(conf, p, e);
    ThenOne(conf, p, Spaces(e.sizeGap) + e.size, q, ' ', Step(conf, q, ' '));
  }

  lemma EndSize(conf: Config, p: Parser, e: NtEntry)
    requires InEntry(p) && p.mode.NtSizePre? && Word(e.size)
    ensures var q := Step(conf, Behind(p, e.sizeGap, e.size), ' ');
            match NtSizeAttrs(conf, p.file.value.attrs, e.size)
            case None => q.error != Ok
            case Some(attrs) => q == Sized(p, e, attrs)
  {
    var q := Behind(p, e.sizeGap, e.size);
    StepIs(conf, q, ' ');
    JustHeld(Data(p), e.sizeGap, e.size);
    SizeEnds(conf, SetData(q, Data(q) + [' ']), Data(q), e.size);
  }

  /** The space behind a size becomes its terminator. */
  lemma SizeEnds(conf: Config, p: Parser, data: string, text: string)
    requires p.file.Some? && p.mode.NtSizeText? && Data(p) == data + [' '] && p.itemOffset + p.itemLength == |data|
    requires CStrAt(data + [NUL], p.itemOffset) == text
    ensures Dispatch(conf, p, ' ') ==
            match NtSizeAttrs(conf, p.file.value.attrs, text)
            case None => Fail(p)
            case Some(attrs) => SetAttrs(SetData(p, data + [NUL]), attrs).(itemLength := 0, mode := NtNamePre)
  {
    NulLast(data, ' ');
  }

  /** The state behind the size. */
  function Sized(p: Parser, e: NtEntry, attrs: Attrs): Parser
    requires p.file.Some?
  {
    p.(file := Some(FileInfo(attrs, Data(p) + Spaces(e.sizeGap) + e.size + [NUL])),
       mode := NtNamePre, itemOffset := |Data(p)| + e.sizeGap, itemLength := 0)
  }

  /** The record of a line, behind what was stored before the name. */
  function NtRecord(p: Parser, e: NtEntry): Record
    requires p.file.Some?
  {
    Record(p.file.value.attrs, Data(p) + Spaces(e.nameGap) + e.name + [NUL] + (if e.crlf then ['\n'] else []),
           p.offs.(filename := |Data(p)| + e.nameGap))
  }

  predicate Ended(conf: Config, p: Parser, r: Record, q: Parser) {
    && q.error == Ok && q.os == OsWinNt && q.mode.NtDate? && q.file.None?
    && q.offs == r.offs && q.files == if Wanted(conf, r) then p.files + [r] else p.files
  }

  lemma EndLf(conf: Config, p: Parser)
    requires InEntry(p) && p.mode.NtNameText?
    ensures Ended(conf, p, Record(p.file.value.attrs, Data(p) + [NUL], p.offs.(filename := p.itemOffset)), Step(conf, p, '\n'))
  {
    StepIs(conf, p, '\n');
    NulLast(Data(p), '\n');
  }

  lemma EndCr(conf: Config, p: Parser)
    requires InEntry(p) && p.mode.NtNameText?
    ensures Step(conf, p, '\r') == SetData(p, Data(p) + [NUL]).(mode := NtNameCr, itemLength := p.itemLength + 1)
  {
    StepIs(conf, p, '\r');
    NulLast(Data(p), '\r');
  }

  lemma EndCrLf(conf: Config, p: Parser)
    requires InEntry(p) && p.mode.NtNameCr?
    ensures Ended(conf, p, Record(p.file.value.attrs, Data(p) + ['\n'], p.offs.(filename := p.itemOffset)), Step(conf, p, '\n'))
  {
    StepIs(conf, p, '\n');
  }

  lemma ReadEol(conf: Config, p: Parser, e: NtEntry)
    requires InEntry(p) && p.mode.NtNameText?
    ensures Ended(conf, p, Record(p.file.value.attrs, Data(p) + [NUL] + (if e.crlf then ['\n'] else []),
                                  p.offs.(filename := p.itemOffset)), Fold(conf, p, NtEol(e)))
  {
    if e.crlf {
      EndCr(conf, p);
      var q := SetData(p, Data(p) + [NUL]).(mode := NtNameCr, itemLength := p.itemLength + 1);
      EndCrLf(conf, q);
      FoldOne(conf, q, '\n');
      OneThen(conf, p, '\r', q, ['\n'], Step(conf, q, '\n'));
    } else {
      EndLf(conf, p);
      FoldOne(conf, p, '\n');
      assert Data(p) + [NUL] + [] == Data(p) + [NUL];
    }
  }

  lemma ReadName(conf: Config, p: Parser, e: NtEntry)
    requires InEntry(p) && p.mode.NtNamePre? && NameFits(e)
    ensures Ended(conf, p, NtRecord(p, e), Fold(conf, p, NameAndEol(e)))
  {
    Item(conf, p, e.nameGap, e.name);
    var q := Behind(p, e.nameGap, e.name);
    ReadEol(conf, q, e);
    FoldThen(conf, p, Spaces(e.nameGap) + e.name, q, NtEol(e), Fold(conf, q, NtEol(e)));
  }

  // ----- what the record shows

  function NtView(e: NtEntry, m: (FileType, int)): View {
    View(m.0, 0, None, None, None, None, Some(m.1), Stamp(e), e.name, None)
  }

  lemma StampHeld(e: NtEntry, more: string)
    requires Printable(e)
    ensures Held(Stamp(e) + [NUL] + more, 0, Stamp(e))
  {
    var data := Stamp(e) + [NUL] + more;
    assert data[0..|Stamp(e)|] == Stamp(e);
    assert NoNul(e.date) && NoNul(Spaces(e.timeGap)) && NoNul(e.time);
  }

  lemma RecordShows(p: Parser, e: NtEntry, attrs: Attrs, m: (FileType, int))
    requires NtStart(p) && Printable(e) && (m.0 == Directory || m.0 == RegularFile)
    requires attrs == NO_ATTRS.(fileType := m.0, size := m.1, knownSize := true)
    ensures var r := NtRecord(Sized(Stamped(p, e), e, attrs), e);
            ViewOf(r) == NtView(e, m) && r.Name() == e.name
            && r.offs.user == 0 && r.offs.group == 0 && r.offs.perm == 0 && r.attrs.fileType != Symlink
  {
    var eol := if e.crlf then ['\n'] else [];
    var stored := Stamp(e) + [NUL] + Spaces(e.sizeGap) + e.size + [NUL];
    var r := NtRecord(Sized(Stamped(p, e), e, attrs), e);
    StampShows(e, Spaces(e.sizeGap) + e.size + [NUL] + Spaces(e.nameGap) + e.name + [NUL] + eol, r.data);
    NameShows(stored, e.nameGap, e.name, eol, r.data);
  }

  lemma StampShows(e: NtEntry, more: string, data: string)
    requires Printable(e)
    requires data == Stamp(e) + [NUL] + Spaces(e.sizeGap) + e.size + [NUL] + Spaces(e.nameGap) + e.name + [NUL] + (if e.crlf then ['\n'] else [])
    requires more == Spaces(e.sizeGap) + e.size + [NUL] + Spaces(e.nameGap) + e.name + [NUL] + (if e.crlf then ['\n'] else [])
    ensures CStrAt(data, 0) == Stamp(e)
  {
    Seven(Stamp(e) + [NUL], Spaces(e.sizeGap), e.size, [NUL], Spaces(e.nameGap), e.name, [NUL], if e.crlf then ['\n'] else []);
    StampHeld(e, more);
    HeldReads(data, 0, Stamp(e));
  }

  lemma Seven(a: string, b: string, c: string, d: string, f: string, g: string, h: string, i: string)
    ensures a + b + c + d + f + g + h + i == a + (b + c + d + f + g + h + i)
  {
  }

  lemma NameShows(stored: string, gap: nat, name: string, eol: string, data: string)
    requires NoNul(name) && data == stored + Spaces(gap) + name + [NUL] + eol
    ensures CStrAt(data, |stored| + gap) == name
  {
    JustHeld(stored, gap, name);
    HeldGrows(stored + Spaces(gap) + name + [NUL], eol, |stored| + gap, name);
    HeldReads(data, |stored| + gap, name);
  }

  /** One printed line: an error when the size means nothing, else one record (or
      none if the filter rejects it) and a line start again. */
  lemma ReadLine(conf: Config, p: Parser, e: NtEntry)
    requires NtStart(p) && Printable(e)
    requires conf == StandardConfig(conf.keep, conf.longMax, conf.offMax, conf.staleErange)
    ensures var q := Fold(conf, p, NtLine(e));
            match Meaning(e.size, conf.offMax, conf.staleErange)
            case None => q.error != Ok
            case Some(m) => NtStart(q) && Views(q.files) == Views(p.files) + (if conf.keep(e.name) then [NtView(e, m)] else [])
  {
    SizeIsMeaning(conf, NO_ATTRS, e.size);
    var a := Stamped(p, e);
    var sizePart := Spaces(e.sizeGap) + e.size + [' '];
    ReadStamp(conf, p, e);
    ReadSize(conf, a, e);
    var b := Fold(conf, a, sizePart);
    FoldAppend(conf, a, sizePart, NameAndEol(e));
    FoldThen(conf, p, Stamp(e) + [' '], a, sizePart + NameAndEol(e), Fold(conf, b, NameAndEol(e)));
    match Meaning(e.size, conf.offMax, conf.staleErange) {
      case None =>
        ErrorIsSticky(conf, b, NameAndEol(e));
      case Some(m) =>
        var attrs := NO_ATTRS.(fileType := m.0, size := m.1, knownSize := true);
        ReadName(conf, b, e);
        RecordShows(p, e, attrs, m);
        Listed(conf, p, NtRecord(b, e), Fold(conf, b, NameAndEol(e)));
    }
  }

  lemma Listed(conf: Config, p: Parser, r: Record, q: Parser)
    requires Ended(conf, p, r, q) && r.attrs.fileType != Symlink
    ensures Views(q.files) == Views(p.files) + (if conf.keep(r.Name()) then [ViewOf(r)] else [])
  {
    ViewsAppend(p.files, [r]);
    assert Views([r]) == [ViewOf(r)];
    assert Views(p.files) + [] == Views(p.files);
  }

  // ----- whole listings

  /** The listing starts with a digit, which tells the dialect. */
  predicate AllPrintable(entries: seq<NtEntry>) {
    && (entries != [] ==> '0' <= (if |entries[0].date| > 0 then entries[0].date[0] else ' ') <= '9')
    && forall i :: 0 <= i < |entries| ==> Printable(entries[i])
  }

  /** Every size text means something. */
  ghost predicate AllMean(entries: seq<NtEntry>, max: nat, staleErange: bool) {
    forall i :: 0 <= i < |entries| ==> Meaning(entries[i].size, max, staleErange).Some?
  }

  /** The entries the filter wants, in order. */
  ghost function NtViews(conf: Config, entries: seq<NtEntry>): seq<View>
    requires AllMean(entries, conf.offMax, conf.staleErange)
  {
    if entries == [] then []
    else
      (if conf.keep(entries[0].name) then [NtView(entries[0], Meaning(entries[0].size, conf.offMax, conf.staleErange).value)] else [])
      + NtViews(conf, entries[1..])
  }

  lemma {:induction false} ReadLines(conf: Config, p: Parser, entries: seq<NtEntry>)
    requires NtStart(p) && forall i :: 0 <= i < |entries| ==> Printable(entries[i])
    requires conf == StandardConfig(conf.keep, conf.longMax, conf.offMax, conf.staleErange)
    ensures var q := Fold(conf, p, NtListing(entries));
            if AllMean(entries, conf.offMax, conf.staleErange) then q.error == Ok && Views(q.files) == Views(p.files) + NtViews(conf, entries)
            else q.error != Ok
    decreases |entries|
  {
    if entries == [] {
      assert Views(p.files) + [] == Views(p.files);
    } else {
      var e, more := entries[0], entries[1..];
      var q := Fold(conf, p, NtLine(e));
      ReadLine(conf, p, e);
      FoldThen(conf, p, NtLine(e), q, NtListing(more), Fold(conf, q, NtListing(more)));
      MeansFromHead(entries, conf.offMax, conf.staleErange);
      if Meaning(e.size, conf.offMax, conf.staleErange).None? {
        ErrorIsSticky(conf, q, NtListing(more));
      } else {
        ReadLines(conf, q, more);
        if AllMean(more, conf.offMax, conf.staleErange) {
          OneMore(Views(p.files), if conf.keep(e.name) then [NtView(e, Meaning(e.size, conf.offMax, conf.staleErange).value)] else [],
                  NtViews(conf, more));
        }
      }
    }
  }

  lemma OneMore(a: seq<View>, b: seq<View>, c: seq<View>)
    ensures a + b + c == a + (b + c)
  {
  }

  lemma MeansFromHead(entries: seq<NtEntry>, max: nat, staleErange: bool)
    requires entries != []
    ensures AllMean(entries, max, staleErange) <==>
            Meaning(entries[0].size, max, staleErange).Some? && AllMean(entries[1..], max, staleErange)
  {
    assert forall i :: 1 <= i < |entries| ==> entries[i] == entries[1..][i - 1];
  }

  lemma FirstDigit(conf: Config, text: string)
    requires text != "" && '0' <= text[0] <= '9'
    ensures Fold(conf, START, text) == Fold(conf, START.(os := OsWinNt, mode := NtDate), text)
  {
  }

  /** Any printed NT listing parses without error if and only if each size text is
      "<DIR>" or a number the type holds, and then into exactly the wanted entries,
      in order: directories of size zero and files of the printed size, with date
      and time as printed and the name. */
  lemma EveryNtListing(keep: string -> bool, longMax: nat, offMax: nat, staleErange: bool, entries: seq<NtEntry>)
    requires AllPrintable(entries)
    ensures var conf := StandardConfig(keep, longMax, offMax, staleErange);
            var q := Fold(conf, START, NtListing(entries));
            if AllMean(entries, offMax, staleErange) then q.error == Ok && Views(q.files) == NtViews(conf, entries)
            else q.error != Ok
  {
    var conf := StandardConfig(keep, longMax, offMax, staleErange);
    if entries != [] {
      FirstDigit(conf, NtListing(entries));
      ReadLines(conf, START.(os := OsWinNt, mode := NtDate), entries);
      assert Views([]) + (if AllMean(entries, offMax, staleErange) then NtViews(conf, entries) else []) ==
             if AllMean(entries, offMax, staleErange) then NtViews(conf, entries) else [];
    }
  }
}
