/** A printer for UNIX-style LIST lines and the proof that parsing what it
    prints gives the entries back, in order. */
module FtpListRoundTrip {
  import opened CText
  import opened FtpListModel

  /** Extra spaces in front of each field, as column-aligned listings have. */
  datatype Gaps = Gaps(links: nat, user: nat, group: nat, size: nat, part1: nat, part2: nat, part3: nat, name: nat)

  /** Read, write, execute and the extra bit (set-uid, set-gid or sticky). */
  datatype Triad = Triad(r: bool, w: bool, x: bool, extra: bool)

  datatype Perms = Perms(user: Triad, group: Triad, other: Triad)

  datatype Entry = Entry(
    fileType: FileType, perms: Perms, links: nat, user: string, group: string, size: nat,
    part1: string, part2: string, part3: string, name: string, target: string,
    gaps: Gaps, crlf: bool)
  {
    function TimeText(): string {
      part1 + [' '] + Spaces(gaps.part2) + part2 + [' '] + Spaces(gaps.part3) + part3
    }
  }

  predicate NoEol(s: string) {
    forall i :: 0 <= i < |s| ==> !IsEol(s[i])
  }

  predicate Word(s: string) {
    s != [] && NoNul(s) && ' ' !in s
  }

  predicate TimeWord(s: string, colon: bool) {
    s != [] && IsAlnum(s[0]) && forall i :: 0 <= i < |s| ==> IsAlnum(s[i]) || s[i] == '.' || (colon && s[i] == ':')
  }

  /** How many bytes of " -> " the text starts with. */
  function ArrowPrefix(s: string): (k: nat)
    ensures k <= 4 && k <= |s|
  {
    if s == "" || s[0] != ' ' then 0
    else if |s| == 1 || s[1] != '-' then 1
    else if |s| == 2 || s[2] != '>' then 2
    else if |s| == 3 || s[3] != ' ' then 3
    else 4
  }

  /** Each space starts an attempt at " -> ", which takes with it the first byte
      that differs. No attempt succeeds in this name, or is under way at its end. */
  predicate ArrowFree(name: string)
    decreases |name|
  {
    name == "" || (var k := ArrowPrefix(name); k < 4 && k < |name| && ArrowFree(name[k + 1..]))
  }

  /** Entries that can be printed. */
  predicate Printable(e: Entry) {
    && Word(e.user) && Word(e.group)
    && TimeWord(e.part1, false) && TimeWord(e.part2, false) && TimeWord(e.part3, true)
    && e.name != [] && e.name[0] != ' ' && NoEol(e.name) && NoNul(e.name)
    && (e.fileType == Symlink ==>
          e.target != [] && NoEol(e.target) && NoNul(e.target))
  }

  /** Entries the format can express. */
  predicate WellFormed(e: Entry) {
    Printable(e) && (e.fileType == Symlink ==> ArrowFree(e.name))
  }

  // ----- the printer

  function TypeLetter(t: FileType): char {
    match t
    case RegularFile => '-'
    case Directory => 'd'
    case Symlink => 'l'
    case NamedPipe => 'p'
    case Socket => 's'
    case CharDevice => 'c'
    case BlockDevice => 'b'
    case Door => 'D'
  }

  function FlagChar(set_: bool, letter: char): char {
    if set_ then letter else '-'
  }

  function ExecChar(exec: bool, extra: bool, both: char, special: char): char {
    if exec then (if extra then both else 'x') else (if extra then special else '-')
  }

  function TriadText(t: Triad, both: char, special: char): string {
    [FlagChar(t.r, 'r'), FlagChar(t.w, 'w'), ExecChar(t.x, t.extra, both, special)]
  }

  function PermText(p: Perms): string {
    TriadText(p.user, 's', 'S') + TriadText(p.group, 's', 'S') + TriadText(p.other, 't', 'T')
  }

  /** The permission number: three octal digits, and the extra bits above. */
  function Octal(p: Perms): nat {
    TriadValue(p.user) * 0x40 + TriadValue(p.group) * 0x8 + TriadValue(p.other)
    + (if p.user.extra then 0x800 else 0) + (if p.group.extra then 0x400 else 0) + (if p.other.extra then 0x200 else 0)
  }

  function TriadValue(t: Triad): nat {
    (if t.r then 4 else 0) + (if t.w then 2 else 0) + (if t.x then 1 else 0)
  }

  function Field(gap: nat, text: string): string {
    Spaces(gap) + text + [' ']
  }

  function Eol(e: Entry): string {
    if e.crlf then ['\r', '\n'] else ['\n']
  }

  function NamePart(e: Entry): string {
    Spaces(e.gaps.name) + e.name + (if e.fileType == Symlink then " -> " + (e.target + Eol(e)) else Eol(e))
  }

  function TimePart(e: Entry): string {
    Field(e.gaps.part1, e.TimeText()) + NamePart(e)
  }

  function SizePart(e: Entry): string {
    Field(e.gaps.size, Decimal(e.size)) + TimePart(e)
  }

  function GroupPart(e: Entry): string {
    Field(e.gaps.group, e.group) + SizePart(e)
  }

  function UserPart(e: Entry): string {
    Field(e.gaps.user, e.user) + GroupPart(e)
  }

  function LinksPart(e: Entry): string {
    Field(e.gaps.links, Decimal(e.links)) + UserPart(e)
  }

  function Head(e: Entry): string {
    [TypeLetter(e.fileType)] + PermText(e.perms) + [' ']
  }

  function Line(e: Entry): string {
    Head(e) + LinksPart(e)
  }

  function Listing(entries: seq<Entry>): string {
    if entries == [] then [] else Line(entries[0]) + Listing(entries[1..])
  }

  function TotalLine(gap: nat, total: nat, crlf: bool): string {
    "total " + Spaces(gap) + Decimal(total) + (if crlf then ['\r', '\n'] else ['\n'])
  }

  // ----- what a record shows

  datatype View = View(
    fileType: FileType, perm: nat, permText: Option<string>, links: Option<int>, user: Option<string>, group: Option<string>,
    size: Option<int>, time: string, name: string, target: Option<string>)

  function ViewOf(r: Record): View {
    View(r.attrs.fileType, r.attrs.perm, r.Perm(),
         if r.attrs.knownLinks then Some(r.attrs.hardlinks) else None,
         r.User(), r.Group(),
         if r.attrs.knownSize then Some(r.attrs.size) else None,
         r.Time(), r.Name(), if r.attrs.fileType == Symlink then r.Target() else None)
  }

  /** The target a record ends up with: a CR costs it its last byte. */
  function TargetRead(e: Entry): string
    requires WellFormed(e) && e.fileType == Symlink
  {
    if e.crlf then e.target[..|e.target| - 1] else e.target
  }

  function Known(n: nat, max: nat): Option<int> {
    if n < max then Some(n) else None
  }

  function Expected(conf: Config, e: Entry): View
    requires WellFormed(e)
  {
    View(e.fileType, Octal(e.perms), Some(PermText(e.perms)), Known(e.links, conf.longMax), Some(e.user), Some(e.group),
         Known(e.size, conf.offMax), e.TimeText(), e.name, if e.fileType == Symlink then Some(TargetRead(e)) else None)
  }

  predicate Listed(conf: Config, e: Entry)
    requires WellFormed(e)
  {
    conf.keep(e.name) && !(e.fileType == Symlink && conf.strstr(TargetRead(e), " -> "))
  }

  // ----- permissions

  lemma TriadReadsBack(t: Triad, both: char, special: char, unit: nat, extra: nat)
    requires (both == 's' && special == 'S') || (both == 't' && special == 'T')
    ensures |TriadText(t, both, special)| == 3
    ensures forall c :: c in TriadText(t, both, special) ==> InSet("rwx-tTsS", c)
    ensures var s := TriadText(t, both, special);
            TriadBits(s[0], s[1], s[2], both, special, unit, extra)
            == Some(TriadValue(t) * unit + (if t.extra then extra else 0))
  {
  }

  lemma NineCharacters(u: string, g: string, o: string, rest: string)
    requires |u| == 3 && |g| == 3 && |o| == 3
    ensures PermissionBits(u + g + o + rest) ==
            Plus(Plus(TriadBits(u[0], u[1], u[2], 's', 'S', 0x40, 0x800),
                      TriadBits(g[0], g[1], g[2], 's', 'S', 0x8, 0x400)),
                 TriadBits(o[0], o[1], o[2], 't', 'T', 0x1, 0x200))
    ensures forall i :: 0 <= i < 9 ==> (u + g + o)[i] in u || (u + g + o)[i] in g || (u + g + o)[i] in o
  {
    var s := u + g + o + rest;
    assert s[0] == u[0] && s[1] == u[1] && s[2] == u[2];
    assert s[3] == g[0] && s[4] == g[1] && s[5] == g[2];
    assert s[6] == o[0] && s[7] == o[1] && s[8] == o[2];
  }

  lemma PermTextReadsBack(p: Perms, rest: string)
    ensures PermissionBits(PermText(p) + rest) == Some(Octal(p))
  {
    var u, g, o := TriadText(p.user, 's', 'S'), TriadText(p.group, 's', 'S'), TriadText(p.other, 't', 'T');
    TriadReadsBack(p.user, 's', 'S', 0x40, 0x800);
    TriadReadsBack(p.group, 's', 'S', 0x8, 0x400);
    TriadReadsBack(p.other, 't', 'T', 0x1, 0x200);
    NineCharacters(u, g, o, rest);
    assert PermText(p) == u + g + o;
  }

  lemma TriadOfLetters(r: char, w: char, x: char, both: char, special: char, unit: nat, extra: nat) returns (t: Triad)
    requires (both == 's' && special == 'S') || (both == 't' && special == 'T')
    requires TriadBits(r, w, x, both, special, unit, extra).Some?
    ensures TriadText(t, both, special) == [r, w, x]
  {
    t := Triad(r == 'r', w == 'w', x == 'x' || x == both, x == both || x == special);
  }

  /** A permission field is understood exactly when it is one that ls prints. */
  lemma PermissionsExactly(s: string, n: nat)
    ensures PermissionBits(s) == Some(n) <==> |s| >= 9 && exists p :: PermText(p) == s[..9] && Octal(p) == n
  {
    if PermissionBits(s).Some? {
      var u := TriadOfLetters(s[0], s[1], s[2], 's', 'S', 0x40, 0x800);
      var g := TriadOfLetters(s[3], s[4], s[5], 's', 'S', 0x8, 0x400);
      var o := TriadOfLetters(s[6], s[7], s[8], 't', 'T', 0x1, 0x200);
      assert PermText(Perms(u, g, o)) == s[..9];
      PermTextReadsBack(Perms(u, g, o), s[9..]);
      assert s == s[..9] + s[9..];
    }
    if |s| >= 9 {
      forall p | PermText(p) == s[..9] ensures PermissionBits(s) == Some(Octal(p)) {
        PermTextReadsBack(p, s[9..]);
        assert s == s[..9] + s[9..];
      }
    }
  }

  lemma PermTextAllowed(p: Perms)
    ensures |PermText(p)| == 9
    ensures NoNul(PermText(p)) && forall i :: 0 <= i < 9 ==> InSet("rwx-tTsS", PermText(p)[i])
  {
    var u, g, o := TriadText(p.user, 's', 'S'), TriadText(p.group, 's', 'S'), TriadText(p.other, 't', 'T');
    TriadReadsBack(p.user, 's', 'S', 0x40, 0x800);
    TriadReadsBack(p.group, 's', 'S', 0x8, 0x400);
    TriadReadsBack(p.other, 't', 'T', 0x1, 0x200);
    NineCharacters(u, g, o, "");
    assert PermText(p) == u + g + o;
  }

  // ----- reading one field

  /** A UNIX-dialect state with an entry being assembled. */
  predicate Reading(p: Parser) {
    p.error == Ok && p.os == OsUnix && p.file.Some? && !p.mode.TotalInit?
  }

  function Data(p: Parser): string
    requires p.file.Some?
  {
    p.file.value.data
  }

  lemma StepIsDispatch(conf: Config, p: Parser, c: char)
    requires Reading(p)
    ensures Step(conf, p, c) == Dispatch(conf, SetData(p, Data(p) + [c]), c)
  {
  }

  lemma FoldOne(conf: Config, p: Parser, c: char)
    ensures Fold(conf, p, [c]) == Step(conf, p, c)
  {
    assert [c][1..] == "";
  }

  /** Bytes that leave the mode unchanged and make the item one byte longer. */
  predicate Stays(mode: Mode, c: char) {
    match mode
    case LinksNumber => IsDigit(c)
    case UserName => c != ' '
    case GroupName => c != ' '
    case SizeNumber => IsDigit(c)
    case TimePart1 => IsAlnum(c) || c == '.'
    case TimePre2 => c == ' '
    case TimePart2 => IsAlnum(c) || c == '.'
    case TimePre3 => c == ' '
    case TimePart3 => IsAlnum(c) || c == '.' || c == ':'
    case NameText => !IsEol(c)
    case LinkName => c != ' ' && !IsEol(c)
    case TargetText => !IsEol(c)
    case _ => false
  }

  lemma StayOnce(conf: Config, p: Parser, c: char)
    requires Reading(p) && Stays(p.mode, c)
    ensures Step(conf, p, c) == SetData(p, Data(p) + [c]).(itemLength := p.itemLength + 1)
  {
    StepIsDispatch(conf, p, c);
  }

  lemma {:induction false} StayLong(conf: Config, p: Parser, text: string)
    requires Reading(p) && forall i :: 0 <= i < |text| ==> Stays(p.mode, text[i])
    ensures Fold(conf, p, text) == SetData(p, Data(p) + text).(itemLength := p.itemLength + |text|)
    decreases |text|
  {
    if text == [] {
      assert Data(p) + text == Data(p);
    } else {
      StayOnce(conf, p, text[0]);
      StayLong(conf, Step(conf, p, text[0]), text[1..]);
      assert Data(p) + [text[0]] + text[1..] == Data(p) + text;
    }
  }

  predicate IsPre(mode: Mode) {
    mode.LinksPre? || mode.UserPre? || mode.GroupPre? || mode.SizePre? || mode.TimePre1? || mode.NamePre? || mode.LinkPre?
  }

  function ItemMode(mode: Mode): Mode {
    match mode
    case LinksPre => LinksNumber
    case UserPre => UserName
    case GroupPre => GroupName
    case SizePre => SizeNumber
    case TimePre1 => TimePart1
    case NamePre => NameText
    case _ => LinkName
  }

  predicate Starts(mode: Mode, c: char) {
    c != ' ' && (mode.LinksPre? || mode.SizePre? ==> IsDigit(c)) && (mode.TimePre1? ==> IsAlnum(c))
  }

  lemma SkipOnce(conf: Config, p: Parser)
    requires Reading(p) && IsPre(p.mode)
    ensures Step(conf, p, ' ') == SetData(p, Data(p) + [' '])
  {
    StepIsDispatch(conf, p, ' ');
  }

  lemma {:induction false} SkipGap(conf: Config, p: Parser, n: nat)
    requires Reading(p) && IsPre(p.mode)
    ensures Fold(conf, p, Spaces(n)) == SetData(p, Data(p) + Spaces(n))
    decreases n
  {
    if n == 0 {
      assert Data(p) + Spaces(n) == Data(p);
    } else {
      SkipOnce(conf, p);
      assert Spaces(n)[1..] == Spaces(n - 1);
      SkipGap(conf, Step(conf, p, ' '), n - 1);
      assert Data(p) + [' '] + Spaces(n - 1) == Data(p) + Spaces(n);
    }
  }

  lemma StartOnce(conf: Config, p: Parser, c: char)
    requires Reading(p) && IsPre(p.mode) && Starts(p.mode, c)
    ensures Step(conf, p, c) ==
            SetData(p, Data(p) + [c]).(mode := ItemMode(p.mode), itemOffset := |Data(p)|, itemLength := 1)
  {
    StepIsDispatch(conf, p, c);
  }

  /** A gap and then an item: the item's place in the buffer is recorded. */
  lemma ReadItem(conf: Config, p: Parser, gap: nat, text: string)
    requires Reading(p) && IsPre(p.mode) && text != [] && Starts(p.mode, text[0])
    requires forall i :: 1 <= i < |text| ==> Stays(ItemMode(p.mode), text[i])
    ensures Fold(conf, p, Spaces(gap) + text) ==
            SetData(p, Data(p) + Spaces(gap) + text).(
              mode := ItemMode(p.mode), itemOffset := |Data(p)| + gap, itemLength := |text|)
  {
    SkipGap(conf, p, gap);
    FoldAppend(conf, p, Spaces(gap), text);
    var q := SetData(p, Data(p) + Spaces(gap));
    StartOnce(conf, q, text[0]);
    StayLong(conf, Step(conf, q, text[0]), text[1..]);
    assert Data(q) + [text[0]] + text[1..] == Data(q) + text;
  }
  // ----- fields that stay readable in the buffer

  /** `text` lies at `offset`, followed by its terminator. */
  predicate Held(data: string, offset: nat, text: string) {
    offset + |text| < |data| && data[offset..offset + |text|] == text && data[offset + |text|] == NUL && NoNul(text)
  }

  lemma HeldReads(data: string, offset: nat, text: string)
    requires Held(data, offset, text)
    ensures CStrAt(data, offset) == text
  {
    assert data[offset..] == text + [NUL] + data[offset + |text| + 1..];
    CStrStops(text, data[offset + |text| + 1..]);
  }

  lemma HeldGrows(data: string, more: string, offset: nat, text: string)
    requires Held(data, offset, text)
    ensures Held(data + more, offset, text)
  {
    assert (data + more)[offset..offset + |text|] == text;
  }

  lemma NulLast(data: string, c: char)
    ensures PutNul(data + [c], |data|) == data + [NUL]
  {
  }

  lemma JustHeld(data: string, gap: nat, text: string)
    requires NoNul(text)
    ensures Held(data + Spaces(gap) + text + [NUL], |data| + gap, text)
    ensures CStrAt(data + Spaces(gap) + text + [NUL], |data| + gap) == text
  {
    var all := data + Spaces(gap) + text + [NUL];
    assert all[|data| + gap..|data| + gap + |text|] == text;
    HeldReads(all, |data| + gap, text);
  }

  /** Two texts in a row. */
  lemma FoldThen(conf: Config, p: Parser, a: string, q: Parser, b: string, r: Parser)
    requires Fold(conf, p, a) == q && Fold(conf, q, b) == r
    ensures Fold(conf, p, a + b) == r
  {
    FoldAppend(conf, p, a, b);
  }

  lemma OneThen(conf: Config, p: Parser, c: char, q: Parser, b: string, r: Parser)
    requires Step(conf, p, c) == q && Fold(conf, q, b) == r
    ensures Fold(conf, p, [c] + b) == r
  {
    FoldOne(conf, p, c);
    FoldAppend(conf, p, [c], b);
  }

  lemma ThenOne(conf: Config, p: Parser, a: string, q: Parser, c: char, r: Parser)
    requires Fold(conf, p, a) == q && Step(conf, q, c) == r
    ensures Fold(conf, p, a + [c]) == r
  {
    FoldOne(conf, q, c);
    FoldAppend(conf, p, a, [c]);
  }

  /** What the space after a number, a user or a group does. */
  function AfterField(conf: Config, p: Parser, data: string, text: string): Parser
    requires p.file.Some?
  {
    var q := SetData(p, data + [NUL]);
    var attrs := p.file.value.attrs;
    match p.mode
    case LinksNumber => Reset(SetAttrs(q, WithLinks(attrs, conf.readLong(text), conf.longMax)), UserPre)
    case UserName => Reset(q.(offs := p.offs.(user := p.itemOffset)), GroupPre)
    case GroupName => Reset(q.(offs := p.offs.(group := p.itemOffset)), SizePre)
    case _ => Reset(SetAttrs(q, WithSize(attrs, conf.readOff(text), conf.offMax)), TimePre1)
  }

  lemma EndField(conf: Config, p: Parser, text: string)
    requires Reading(p) && (p.mode.LinksNumber? || p.mode.UserName? || p.mode.GroupName? || p.mode.SizeNumber?)
    requires p.itemOffset + p.itemLength == |Data(p)| && CStrAt(Data(p) + [NUL], p.itemOffset) == text
    ensures Step(conf, p, ' ') == AfterField(conf, p, Data(p), text)
  {
    StepIsDispatch(conf, p, ' ');
    NulLast(Data(p), ' ');
  }

  /** A gap, an item and the space after it: the space becomes the terminator. */
  lemma ReadField(conf: Config, p: Parser, gap: nat, text: string)
    requires Reading(p) && (p.mode.LinksPre? || p.mode.UserPre? || p.mode.GroupPre? || p.mode.SizePre?)
    requires text != [] && NoNul(text) && Starts(p.mode, text[0])
    requires forall i :: 1 <= i < |text| ==> Stays(ItemMode(p.mode), text[i])
    ensures Fold(conf, p, Field(gap, text)) ==
            AfterField(conf, p.(mode := ItemMode(p.mode), itemOffset := |Data(p)| + gap),
                       Data(p) + Spaces(gap) + text, text)
  {
    ReadItem(conf, p, gap, text);
    JustHeld(Data(p), gap, text);
    var q := SetData(p, Data(p) + Spaces(gap) + text).(
      mode := ItemMode(p.mode), itemOffset := |Data(p)| + gap, itemLength := |text|);
    EndField(conf, q, text);
    ThenOne(conf, p, Spaces(gap) + text, q, ' ', AfterField(conf, q, Data(q), text));
  }

  // The first byte after a part of the time, and the first byte of the next.
  lemma TurnPart(conf: Config, p: Parser, c: char)
    requires Reading(p)
    requires ((p.mode.TimePart1? || p.mode.TimePart2?) && c == ' ') || ((p.mode.TimePre2? || p.mode.TimePre3?) && IsAlnum(c))
    ensures Step(conf, p, c) ==
            SetData(p, Data(p) + [c]).(
              itemLength := p.itemLength + 1,
              mode := match p.mode
                      case TimePart1 => TimePre2
                      case TimePre2 => TimePart2
                      case TimePart2 => TimePre3
                      case _ => TimePart3)
  {
    StepIsDispatch(conf, p, c);
  }

  /** A state inside the time text, `text` further on. */
  function Along(p: Parser, text: string, mode: Mode): (q: Parser)
    requires p.file.Some?
    ensures q.file.Some?
  {
    SetData(p, Data(p) + text).(itemLength := p.itemLength + |text|, mode := mode)
  }

  lemma NextWord(conf: Config, p: Parser, part: string)
    requires Reading(p) && (p.mode.TimePre2? || p.mode.TimePre3?) && TimeWord(part, p.mode.TimePre3?)
    ensures Fold(conf, p, part) == Along(p, part, if p.mode.TimePre2? then TimePart2 else TimePart3)
  {
    TurnPart(conf, p, part[0]);
    var p1 := Step(conf, p, part[0]);
    StayLong(conf, p1, part[1..]);
    assert Data(p) + [part[0]] + part[1..] == Data(p) + part;
    assert part == [part[0]] + part[1..];
  }

  lemma NextGap(conf: Config, p: Parser, gap: nat)
    requires Reading(p) && (p.mode.TimePart1? || p.mode.TimePart2?)
    ensures Fold(conf, p, [' '] + Spaces(gap)) ==
            Along(p, [' '] + Spaces(gap), if p.mode.TimePart1? then TimePre2 else TimePre3)
  {
    TurnPart(conf, p, ' ');
    var p1 := Step(conf, p, ' ');
    StayLong(conf, p1, Spaces(gap));
    assert Data(p) + [' '] + Spaces(gap) == Data(p) + ([' '] + Spaces(gap));
    OneThen(conf, p, ' ', p1, Spaces(gap), Fold(conf, p1, Spaces(gap)));
  }

  lemma AlongTwice(p: Parser, a: string, m1: Mode, b: string, m2: Mode)
    requires p.file.Some?
    ensures Along(Along(p, a, m1), b, m2) == Along(p, a + b, m2)
  {
    assert Data(p) + a + b == Data(p) + (a + b);
  }

  lemma NextPart(conf: Config, p: Parser, gap: nat, part: string)
    requires Reading(p) && (p.mode.TimePart1? || p.mode.TimePart2?) && TimeWord(part, p.mode.TimePart2?)
    ensures Fold(conf, p, [' '] + Spaces(gap) + part) ==
            Along(p, [' '] + Spaces(gap) + part, if p.mode.TimePart1? then TimePart2 else TimePart3)
  {
    NextGap(conf, p, gap);
    var p1 := Along(p, [' '] + Spaces(gap), if p.mode.TimePart1? then TimePre2 else TimePre3);
    NextWord(conf, p1, part);
    AlongTwice(p, [' '] + Spaces(gap), p1.mode, part, if p.mode.TimePart1? then TimePart2 else TimePart3);
    FoldThen(conf, p, [' '] + Spaces(gap), p1, part, Fold(conf, p1, part));
  }

  lemma TimeParts(conf: Config, p: Parser, e: Entry)
    requires Reading(p) && p.mode.TimePart1? && Printable(e)
    ensures var rest := [' '] + Spaces(e.gaps.part2) + e.part2 + ([' '] + Spaces(e.gaps.part3) + e.part3);
            Fold(conf, p, rest) == Along(p, rest, TimePart3)
  {
    var two := [' '] + Spaces(e.gaps.part2) + e.part2;
    var three := [' '] + Spaces(e.gaps.part3) + e.part3;
    NextPart(conf, p, e.gaps.part2, e.part2);
    var p2 := Along(p, two, TimePart2);
    NextPart(conf, p2, e.gaps.part3, e.part3);
    AlongTwice(p, two, TimePart2, three, TimePart3);
    FoldThen(conf, p, two, p2, three, Along(p2, three, TimePart3));
  }

  lemma EndTime(conf: Config, p: Parser)
    requires Reading(p) && p.mode.TimePart3? && p.itemOffset + p.itemLength == |Data(p)|
    ensures Step(conf, p, ' ') ==
            SetData(p, Data(p) + [NUL]).(
              offs := p.offs.(time := p.itemOffset), itemLength := p.itemLength + 1,
              mode := if p.file.value.attrs.fileType == Symlink then LinkPre else NamePre)
  {
    StepIsDispatch(conf, p, ' ');
    NulLast(Data(p), ' ');
  }

  function TimeRead(p: Parser, e: Entry): Parser
    requires p.file.Some?
  {
    SetData(p, Data(p) + Spaces(e.gaps.part1) + e.TimeText()).(
      mode := TimePart3, itemOffset := |Data(p)| + e.gaps.part1, itemLength := |e.TimeText()|)
  }

  lemma Regrouped(data: string, spaces: string, part: string, rest: string)
    ensures data + spaces + part + rest == data + spaces + (part + rest)
    ensures spaces + part + rest == spaces + (part + rest)
  {
  }

  /** The three parts of the time text, read as one item. */
  lemma ReadTime(conf: Config, p: Parser, e: Entry)
    requires Reading(p) && p.mode.TimePre1? && Printable(e)
    ensures Fold(conf, p, Spaces(e.gaps.part1) + e.TimeText()) == TimeRead(p, e)
  {
    var one := Spaces(e.gaps.part1) + e.part1;
    var rest := [' '] + Spaces(e.gaps.part2) + e.part2 + ([' '] + Spaces(e.gaps.part3) + e.part3);
    ReadItem(conf, p, e.gaps.part1, e.part1);
    var p1 := SetData(p, Data(p) + Spaces(e.gaps.part1) + e.part1).(
      mode := TimePart1, itemOffset := |Data(p)| + e.gaps.part1, itemLength := |e.part1|);
    TimeParts(conf, p1, e);
    assert e.part1 + rest == e.TimeText();
    Regrouped(Data(p), Spaces(e.gaps.part1), e.part1, rest);
    FoldThen(conf, p, one, p1, rest, Along(p1, rest, TimePart3));
  }
}
