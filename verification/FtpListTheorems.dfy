/** Whole lines and whole listings: what the parser makes of printed entries. */
module FtpListTheorems {
  import opened CText
  import opened FtpListModel
  import opened FtpListRoundTrip

  /** Between two lines: no entry under way, or an empty one after "total". */
  predicate LineStart(p: Parser) {
    p.error == Ok && p.os == OsUnix && p.mode.TypeChar? && (p.file.Some? ==> p.file.value == FileInfo(NO_ATTRS, []))
  }

  /** The mode in which the k-th field of the entry is awaited. */
  function ModeAt(e: Entry, k: nat): Mode {
    if k <= 2 then LinksPre
    else if k == 3 then UserPre
    else if k == 4 then GroupPre
    else if k == 5 then SizePre
    else if k == 6 then TimePre1
    else if e.fileType == Symlink then LinkPre else NamePre
  }

  predicate AttrsSoFar(conf: Config, e: Entry, attrs: Attrs, k: nat) {
    && attrs.fileType == e.fileType && attrs.perm == Octal(e.perms)
    && (if k < 3 then !attrs.knownLinks
        else (if attrs.knownLinks then Some(attrs.hardlinks) else None) == Known(e.links, conf.longMax))
    && (if k < 6 then !attrs.knownSize
        else (if attrs.knownSize then Some(attrs.size) else None) == Known(e.size, conf.offMax))
  }

  predicate FieldsSoFar(e: Entry, data: string, offs: Offsets, k: nat) {
    && |data| >= 11 && offs.perm == 1 && Held(data, 1, PermText(e.perms))
    && (k >= 4 ==> offs.user > 0 && Held(data, offs.user, e.user))
    && (k >= 5 ==> offs.group > 0 && Held(data, offs.group, e.group))
    && (k >= 7 ==> Held(data, offs.time, e.TimeText()))
  }

  predicate SoFar(conf: Config, e: Entry, p: Parser, k: nat) {
    && Reading(p) && p.mode == ModeAt(e, k)
    && AttrsSoFar(conf, e, p.file.value.attrs, k)
    && FieldsSoFar(e, Data(p), p.offs, k)
  }

  lemma FieldsGrow(e: Entry, data: string, more: string, offs: Offsets, k: nat)
    requires FieldsSoFar(e, data, offs, k)
    ensures FieldsSoFar(e, data + more, offs, k)
  {
    HeldGrows(data, more, 1, PermText(e.perms));
    if k >= 4 {
      HeldGrows(data, more, offs.user, e.user);
    }
    if k >= 5 {
      HeldGrows(data, more, offs.group, e.group);
    }
    if k >= 7 {
      HeldGrows(data, more, offs.time, e.TimeText());
    }
  }

  lemma Behind(data: string, spaces: string, text: string, end: string)
    ensures data + spaces + text + end == data + (spaces + text + end)
  {
  }

  lemma FieldsAfter(e: Entry, data: string, gap: nat, text: string, offs: Offsets, k: nat)
    requires FieldsSoFar(e, data, offs, k) && NoNul(text)
    ensures FieldsSoFar(e, data + Spaces(gap) + text + [NUL], offs, k)
    ensures Held(data + Spaces(gap) + text + [NUL], |data| + gap, text)
  {
    Behind(data, Spaces(gap), text, [NUL]);
    FieldsGrow(e, data, Spaces(gap) + text + [NUL], offs, k);
    JustHeld(data, gap, text);
  }

  // ----- type and permissions

  lemma ReadType(conf: Config, p: Parser, e: Entry)
    requires LineStart(p)
    ensures Step(conf, p, TypeLetter(e.fileType)) ==
            p.(file := Some(FileInfo(NO_ATTRS.(fileType := e.fileType), [TypeLetter(e.fileType)])),
               mode := Permission, itemLength := 0, itemOffset := 1)
  {
    assert [] + [TypeLetter(e.fileType)] == [TypeLetter(e.fileType)];
  }

  lemma {:induction false} ReadPermLetters(conf: Config, p: Parser, text: string)
    requires Reading(p) && p.mode.Permission? && p.itemLength + |text| <= 9
    requires forall i :: 0 <= i < |text| ==> InSet("rwx-tTsS", text[i])
    ensures Fold(conf, p, text) == SetData(p, Data(p) + text).(itemLength := p.itemLength + |text|)
    decreases |text|
  {
    if text == [] {
      assert Data(p) + text == Data(p);
    } else {
      StepIsDispatch(conf, p, text[0]);
      ReadPermLetters(conf, Step(conf, p, text[0]), text[1..]);
      assert Data(p) + [text[0]] + text[1..] == Data(p) + text;
    }
  }

  lemma EndPermissions(conf: Config, p: Parser, e: Entry)
    requires Reading(p) && p.mode.Permission? && p.itemLength == 9 && p.itemOffset == 1
    requires Data(p) == [TypeLetter(e.fileType)] + PermText(e.perms)
    ensures var q := SetData(p, Data(p) + [NUL]);
            Step(conf, p, ' ') ==
            SetAttrs(q, p.file.value.attrs.(knownPerm := true, perm := Octal(e.perms))).(
              offs := p.offs.(perm := 1), itemLength := 0, mode := LinksPre)
  {
    PermTextAllowed(e.perms);
    StepIsDispatch(conf, p, ' ');
    NulLast(Data(p), ' ');
    PermTextReadsBack(e.perms, [NUL]);
    assert (Data(p) + [NUL])[1..] == PermText(e.perms) + [NUL];
  }

  lemma ReadHead(conf: Config, p: Parser, e: Entry)
    requires LineStart(p)
    ensures var q := Fold(conf, p, Head(e));
            SoFar(conf, e, q, 2) && q.files == p.files
  {
    PermTextAllowed(e.perms);
    ReadType(conf, p, e);
    var p1 := Step(conf, p, TypeLetter(e.fileType));
    ReadPermLetters(conf, p1, PermText(e.perms));
    var p2 := SetData(p1, Data(p1) + PermText(e.perms)).(itemLength := 9);
    OneThen(conf, p, TypeLetter(e.fileType), p1, PermText(e.perms), p2);
    EndPermissions(conf, p2, e);
    ThenOne(conf, p, [TypeLetter(e.fileType)] + PermText(e.perms), p2, ' ', Step(conf, p2, ' '));
    JustHeld([TypeLetter(e.fileType)], 0, PermText(e.perms));
    assert [TypeLetter(e.fileType)] + Spaces(0) + PermText(e.perms) + [NUL] == Data(p2) + [NUL];
  }

  // ----- the fields

  /** A printed number is read back unless it reaches the largest value. */
  lemma NumberKnown(attrs: Attrs, n: nat, max: nat)
    ensures var a := WithLinks(attrs, StrTol(Decimal(n), max), max);
            if n < max then a == attrs.(knownLinks := true, hardlinks := n) else a == attrs
    ensures var a := WithSize(attrs, StrTol(Decimal(n), max), max);
            if n < max then a == attrs.(knownSize := true, size := n) else a == attrs
  {
    DecimalReadsBack(n);
    StrTolOfDigits(Decimal(n), max);
  }

  lemma ReadLinks(conf: Config, p: Parser, e: Entry)
    requires SoFar(conf, e, p, 2)
    requires conf.readLong(Decimal(e.links)) == StrTol(Decimal(e.links), conf.longMax)
    ensures var q := Fold(conf, p, Field(e.gaps.links, Decimal(e.links)));
            SoFar(conf, e, q, 3) && q.files == p.files
  {
    var text := Decimal(e.links);
    ReadField(conf, p, e.gaps.links, text);
    FieldsAfter(e, Data(p), e.gaps.links, text, p.offs, 2);
    NumberKnown(p.file.value.attrs, e.links, conf.longMax);
  }

  /** The state after a field: the item behind the gap is closed. */
  function FieldEnd(conf: Config, p: Parser, gap: nat, text: string): Parser
    requires p.file.Some?
  {
    AfterField(conf, p.(mode := ItemMode(p.mode), itemOffset := |Data(p)| + gap), Data(p) + Spaces(gap) + text, text)
  }

  lemma UserRead(conf: Config, p: Parser, e: Entry, q: Parser)
    requires SoFar(conf, e, p, 3) && Word(e.user) && q == FieldEnd(conf, p, e.gaps.user, e.user)
    ensures SoFar(conf, e, q, 4) && q.files == p.files
  {
    FieldsAfter(e, Data(p), e.gaps.user, e.user, p.offs, 3);
  }

  lemma GroupRead(conf: Config, p: Parser, e: Entry, q: Parser)
    requires SoFar(conf, e, p, 4) && Word(e.group) && q == FieldEnd(conf, p, e.gaps.group, e.group)
    ensures SoFar(conf, e, q, 5) && q.files == p.files
  {
    FieldsAfter(e, Data(p), e.gaps.group, e.group, p.offs, 4);
  }

  lemma ReadUser(conf: Config, p: Parser, e: Entry)
    requires SoFar(conf, e, p, 3) && Word(e.user)
    ensures var q := Fold(conf, p, Field(e.gaps.user, e.user));
            SoFar(conf, e, q, 4) && q.files == p.files
  {
    ReadField(conf, p, e.gaps.user, e.user);
    UserRead(conf, p, e, Fold(conf, p, Field(e.gaps.user, e.user)));
  }

  lemma ReadGroup(conf: Config, p: Parser, e: Entry)
    requires SoFar(conf, e, p, 4) && Word(e.group)
    ensures var q := Fold(conf, p, Field(e.gaps.group, e.group));
            SoFar(conf, e, q, 5) && q.files == p.files
  {
    ReadField(conf, p, e.gaps.group, e.group);
    GroupRead(conf, p, e, Fold(conf, p, Field(e.gaps.group, e.group)));
  }

  lemma ReadSize(conf: Config, p: Parser, e: Entry)
    requires SoFar(conf, e, p, 5)
    requires conf.readOff(Decimal(e.size)) == StrTol(Decimal(e.size), conf.offMax)
    ensures var q := Fold(conf, p, Field(e.gaps.size, Decimal(e.size)));
            SoFar(conf, e, q, 6) && q.files == p.files
  {
    NumberKnown(p.file.value.attrs, e.size, conf.offMax);
    ReadSizeAs(conf, p, e, Decimal(e.size));
  }

  lemma ReadSizeAs(conf: Config, p: Parser, e: Entry, text: string)
    requires SoFar(conf, e, p, 5) && text != [] && AllDigits(text)
    requires WithSize(p.file.value.attrs, conf.readOff(text), conf.offMax) ==
             if e.size < conf.offMax then p.file.value.attrs.(knownSize := true, size := e.size) else p.file.value.attrs
    ensures var q := Fold(conf, p, Field(e.gaps.size, text)); SoFar(conf, e, q, 6) && q.files == p.files
  {
    ReadField(conf, p, e.gaps.size, text);
    FieldsAfter(e, Data(p), e.gaps.size, text, p.offs, 5);
  }

  lemma TimeTextNoNul(e: Entry)
    requires Printable(e)
    ensures NoNul(e.TimeText())
  {
  }

  lemma ReadClock(conf: Config, p: Parser, e: Entry)
    requires SoFar(conf, e, p, 6) && Printable(e)
    ensures var q := Fold(conf, p, Field(e.gaps.part1, e.TimeText()));
            SoFar(conf, e, q, 7) && q.files == p.files
  {
    ReadTime(conf, p, e);
    EndTime(conf, TimeRead(p, e));
    ThenOne(conf, p, Spaces(e.gaps.part1) + e.TimeText(), TimeRead(p, e), ' ', Step(conf, TimeRead(p, e), ' '));
    TimeTextNoNul(e);
    FieldsAfter(e, Data(p), e.gaps.part1, e.TimeText(), p.offs, 6);
  }
  // ----- the name and the end of the line

  /** The line is over: the entry became record `r`, kept if it is wanted. */
  predicate Closed(conf: Config, p: Parser, r: Record, q: Parser) {
    LineStart(q) && q.files == if Wanted(conf, r) then p.files + [r] else p.files
  }

  function RecordOf(p: Parser, data: string, offs: Offsets): Record
    requires p.file.Some?
  {
    Record(p.file.value.attrs, data, offs)
  }

  /** Bytes stored for a line end, after its first one was overwritten by NUL. */
  function EolStored(e: Entry): string {
    if e.crlf then [NUL, '\n'] else [NUL]
  }

  lemma EndNameLf(conf: Config, p: Parser)
    requires Reading(p) && p.mode.NameText? && p.itemOffset + p.itemLength == |Data(p)|
    ensures Closed(conf, p, RecordOf(p, Data(p) + [NUL], p.offs.(filename := p.itemOffset)), Step(conf, p, '\n'))
  {
    StepIsDispatch(conf, p, '\n');
    NulLast(Data(p), '\n');
  }

  lemma EndNameCr(conf: Config, p: Parser)
    requires Reading(p) && p.mode.NameText?
    ensures Step(conf, p, '\r') == SetData(p, Data(p) + ['\r']).(mode := NameCr)
  {
    StepIsDispatch(conf, p, '\r');
  }

  lemma EndNameCrLf(conf: Config, p: Parser)
    requires Reading(p) && p.mode.NameCr? && p.itemOffset + p.itemLength + 1 == |Data(p)|
    ensures var text := Data(p)[..|Data(p)| - 1];
            Closed(conf, p, RecordOf(p, text + [NUL, '\n'], p.offs.(filename := p.itemOffset)), Step(conf, p, '\n'))
  {
    StepIsDispatch(conf, p, '\n');
    assert PutNul(Data(p) + ['\n'], |Data(p)| - 1) == Data(p)[..|Data(p)| - 1] + [NUL, '\n'];
  }

  lemma EndName(conf: Config, p: Parser, e: Entry)
    requires Reading(p) && p.mode.NameText? && p.itemOffset + p.itemLength == |Data(p)|
    ensures Closed(conf, p, RecordOf(p, Data(p) + EolStored(e), p.offs.(filename := p.itemOffset)),
                   Fold(conf, p, Eol(e)))
  {
    if e.crlf {
      EndNameCr(conf, p);
      var q := SetData(p, Data(p) + ['\r']).(mode := NameCr);
      assert Data(q)[..|Data(q)| - 1] == Data(p);
      EndNameCrLf(conf, q);
      FoldOne(conf, q, '\n');
      OneThen(conf, p, '\r', q, ['\n'], Step(conf, q, '\n'));
    } else {
      EndNameLf(conf, p);
      FoldOne(conf, p, '\n');
    }
  }

  /** Reading a name that is not a link's, up to the end of the line. */
  lemma ReadName(conf: Config, p: Parser, e: Entry)
    requires SoFar(conf, e, p, 7) && WellFormed(e) && e.fileType != Symlink
    ensures var off := |Data(p)| + e.gaps.name;
            Closed(conf, p,
                   RecordOf(p, Data(p) + Spaces(e.gaps.name) + e.name + EolStored(e), p.offs.(filename := off)),
                   Fold(conf, p, NamePart(e)))
  {
    var q := NamedAt(p, e);
    var r := RecordOf(p, Data(p) + Spaces(e.gaps.name) + e.name + EolStored(e), p.offs.(filename := |Data(p)| + e.gaps.name));
    ReadItem(conf, p, e.gaps.name, e.name);
    EndName(conf, q, e);
    NamedRecord(p, e);
    SameFiles(conf, p, q, r, Fold(conf, q, Eol(e)));
    FoldThen(conf, p, Spaces(e.gaps.name) + e.name, q, Eol(e), Fold(conf, q, Eol(e)));
  }

  /** The state at the end of a name. */
  function NamedAt(p: Parser, e: Entry): (q: Parser)
    requires p.file.Some?
    ensures q.file.Some? && q.files == p.files
  {
    SetData(p, Data(p) + Spaces(e.gaps.name) + e.name).(
      mode := NameText, itemOffset := |Data(p)| + e.gaps.name, itemLength := |e.name|)
  }

  lemma NamedRecord(p: Parser, e: Entry)
    requires p.file.Some?
    ensures var q := NamedAt(p, e);
            RecordOf(q, Data(q) + EolStored(e), q.offs.(filename := q.itemOffset)) ==
            RecordOf(p, Data(p) + Spaces(e.gaps.name) + e.name + EolStored(e), p.offs.(filename := |Data(p)| + e.gaps.name))
  {
  }

  lemma SameFiles(conf: Config, p: Parser, q: Parser, r: Record, end: Parser)
    requires q.files == p.files && Closed(conf, q, r, end)
    ensures Closed(conf, p, r, end)
  {
  }

  // ----- links

  lemma ArrowStep(conf: Config, p: Parser, c: char)
    requires Reading(p)
    requires (p.mode.LinkName? && c == ' ') || (p.mode.Arrow1? && c == '-') || (p.mode.Arrow2? && c == '>')
    ensures Step(conf, p, c) ==
            SetData(p, Data(p) + [c]).(
              itemLength := p.itemLength + 1,
              mode := if p.mode.LinkName? then Arrow1 else if p.mode.Arrow1? then Arrow2 else Arrow3)
  {
    StepIsDispatch(conf, p, c);
  }

  lemma ArrowEnd(conf: Config, p: Parser, name: string)
    requires Reading(p) && p.mode.Arrow3? && Data(p) == name + " ->" && p.itemOffset + p.itemLength == |Data(p)|
    ensures Step(conf, p, ' ') ==
            Reset(SetData(p, name + [NUL] + "-> ").(offs := p.offs.(filename := p.itemOffset)), Arrow4)
  {
    StepIsDispatch(conf, p, ' ');
    assert PutNul(Data(p) + [' '], |name|) == name + [NUL] + "-> ";
  }

  lemma ReadArrow(conf: Config, p: Parser)
    requires Reading(p) && p.mode.LinkName? && p.itemOffset + p.itemLength == |Data(p)|
    ensures Fold(conf, p, " -> ") ==
            Reset(SetData(p, Data(p) + [NUL] + "-> ").(offs := p.offs.(filename := p.itemOffset)), Arrow4)
  {
    ArrowStep(conf, p, ' ');
    var p1 := SetData(p, Data(p) + [' ']).(itemLength := p.itemLength + 1, mode := Arrow1);
    ArrowStep(conf, p1, '-');
    var p2 := SetData(p1, Data(p1) + ['-']).(itemLength := p1.itemLength + 1, mode := Arrow2);
    ArrowStep(conf, p2, '>');
    var p3 := SetData(p2, Data(p2) + ['>']).(itemLength := p2.itemLength + 1, mode := Arrow3);
    assert Data(p3) == Data(p) + " ->";
    ArrowEnd(conf, p3, Data(p));
    FourSteps(conf, p, ' ', '-', '>', ' ');
  }

  lemma FourSteps(conf: Config, p: Parser, a: char, b: char, c: char, d: char)
    ensures Fold(conf, p, [a, b, c, d]) == Step(conf, Step(conf, Step(conf, Step(conf, p, a), b), c), d)
  {
    var p1 := Step(conf, p, a);
    var p2 := Step(conf, p1, b);
    var p3 := Step(conf, p2, c);
    FoldOne(conf, p3, d);
    OneThen(conf, p2, c, p3, [d], Step(conf, p3, d));
    OneThen(conf, p1, b, p2, [c] + [d], Step(conf, p3, d));
    OneThen(conf, p, a, p1, [b] + ([c] + [d]), Step(conf, p3, d));
    assert [a] + ([b] + ([c] + [d])) == [a, b, c, d];
  }

  lemma StartTarget(conf: Config, p: Parser, target: string)
    requires Reading(p) && p.mode.Arrow4? && target != [] && NoEol(target)
    ensures Fold(conf, p, target) ==
            SetData(p, Data(p) + target).(mode := TargetText, itemOffset := |Data(p)|, itemLength := |target|)
  {
    StepIsDispatch(conf, p, target[0]);
    var p1 := Step(conf, p, target[0]);
    StayLong(conf, p1, target[1..]);
    assert Data(p) + [target[0]] + target[1..] == Data(p) + target;
  }

  lemma EndTargetLf(conf: Config, p: Parser)
    requires Reading(p) && p.mode.TargetText? && p.itemOffset + p.itemLength == |Data(p)|
    ensures Closed(conf, p, RecordOf(p, Data(p) + [NUL], p.offs.(target := p.itemOffset)), Step(conf, p, '\n'))
  {
    StepIsDispatch(conf, p, '\n');
    NulLast(Data(p), '\n');
  }

  lemma EndTargetCr(conf: Config, p: Parser)
    requires Reading(p) && p.mode.TargetText?
    ensures Step(conf, p, '\r') == SetData(p, Data(p) + ['\r']).(mode := TargetCr)
  {
    StepIsDispatch(conf, p, '\r');
  }

  lemma EndTargetCrLf(conf: Config, p: Parser)
    requires Reading(p) && p.mode.TargetCr? && p.itemOffset + p.itemLength + 1 == |Data(p)| && 1 <= p.itemLength
    ensures var text := Data(p)[..|Data(p)| - 2];
            Closed(conf, p, RecordOf(p, text + [NUL] + [Data(p)[|Data(p)| - 1], '\n'], p.offs.(target := p.itemOffset)),
                   Step(conf, p, '\n'))
  {
    StepIsDispatch(conf, p, '\n');
    assert PutNul(Data(p) + ['\n'], |Data(p)| - 2)
        == Data(p)[..|Data(p)| - 2] + [NUL] + [Data(p)[|Data(p)| - 1], '\n'];
  }

  /** What follows the bytes before the target: a CR costs it its last byte. */
  function TargetStored(e: Entry): string
    requires WellFormed(e) && e.fileType == Symlink
  {
    TargetRead(e) + [NUL] + (if e.crlf then ['\r', '\n'] else [])
  }

  lemma EndTarget(conf: Config, p: Parser, e: Entry, before: string)
    requires Reading(p) && p.mode.TargetText? && WellFormed(e) && e.fileType == Symlink
    requires Data(p) == before + e.target && p.itemOffset == |before| && p.itemLength == |e.target|
    ensures Closed(conf, p, RecordOf(p, before + TargetStored(e), p.offs.(target := |before|)), Fold(conf, p, Eol(e)))
  {
    if e.crlf {
      EndTargetCr(conf, p);
      var q := SetData(p, Data(p) + ['\r']).(mode := TargetCr);
      assert Data(q)[..|Data(q)| - 2] == before + TargetRead(e);
      EndTargetCrLf(conf, q);
      assert before + TargetRead(e) + [NUL] + ['\r', '\n'] == before + TargetStored(e);
      FoldOne(conf, q, '\n');
      OneThen(conf, p, '\r', q, ['\n'], Step(conf, q, '\n'));
    } else {
      EndTargetLf(conf, p);
      assert Data(p) + [NUL] == before + TargetStored(e);
      FoldOne(conf, p, '\n');
    }
  }
}
