/** The parser object of lib/ftplistparser.c: its fields, the growing line
    buffer and Curl_ftp_parselist() itself, proved to refine the step function. */
module FtpListParser {
  import opened CText
  import opened FtpListModel
  import opened FtpListInvariant

  const BUFFER_ALLOCSIZE := 160

  class ListParser {
    const conf: Config
    var os: OsType
    var mode: Mode
    var error: Status
    var fileData: bool        // is an entry being assembled?
    var attrs: Attrs          // its attributes so far
    var bData: array<char>    // its buffer (b_size is bData.Length)
    var bUsed: nat
    var itemLength: nat
    var itemOffset: nat
    var offs: Offsets
    var files: seq<Record>    // wc->filelist

    ghost predicate BufferOk()
      reads this, bData
    {
      bUsed <= bData.Length &&
      (fileData ==> bUsed + 1 < bData.Length && bData.Length % BUFFER_ALLOCSIZE == 0)
    }

    ghost function Abs(): Parser
      reads this, bData
      requires BufferOk()
    {
      Parser(os, mode, error, if fileData then Some(FileInfo(attrs, bData[..bUsed])) else None,
             itemLength, itemOffset, offs, files)
    }

    ghost predicate Valid()
      reads this, bData
    {
      BufferOk() && Inv(Abs())
    }

    /** The state in which the switch statement runs: `c` was just stored. */
    ghost predicate Stored(c: char)
      reads this, bData
    {
      && BufferOk() && fileData && bUsed > 0 && error == Ok
      && bData[bUsed - 1] == c
      && ItemOk(mode, itemOffset, itemLength, bData[..bUsed - 1])
    }

    constructor (conf: Config)
      ensures Valid() && Abs() == START && this.conf == conf && fresh(bData)
    {
      this.conf := conf;
      os, mode, error := OsUnknown, TotalInit, Ok;
      fileData, attrs, bData, bUsed := false, NO_ATTRS, new char[0], 0;
      itemLength, itemOffset, offs, files := 0, 0, NO_OFFSETS, [];
    }

    /** Stores the byte, allocating or enlarging the buffer when needed. */
    method Store(c: char)
      requires BufferOk()
      modifies this, bData
      ensures BufferOk() && fileData && bUsed > 0 && bData[bUsed - 1] == c
      ensures Abs() == Receive(old(Abs()), c)
      ensures bData == old(bData) || fresh(bData)
    {
      if !fileData {
        fileData, attrs := true, NO_ATTRS;
        bData, bUsed := new char[BUFFER_ALLOCSIZE], 0;
        itemOffset, itemLength := 0, 0;
      }
      ghost var held := if old(fileData) then old(bData[..bUsed]) else [];
      assert bData[..bUsed] == held;
      bData[bUsed] := c;
      bUsed := bUsed + 1;
      assert bData[..bUsed] == held + [c];
      Enlarge();
      assert bData[..bUsed][bUsed - 1] == c;
      assert !old(fileData) ==> bData[..bUsed] == [c];
    }

    method Enlarge()
      requires bUsed < bData.Length && bData.Length % BUFFER_ALLOCSIZE == 0
      modifies this`bData
      ensures bUsed + 1 < bData.Length && bData.Length % BUFFER_ALLOCSIZE == 0
      ensures bData[..bUsed] == old(bData[..bUsed])
      ensures bData == old(bData) || fresh(bData)
    {
      if bUsed >= bData.Length - 1 {
        var tmp := new char[bData.Length + BUFFER_ALLOCSIZE];
        forall i | 0 <= i < bData.Length {
          tmp[i] := bData[i];
        }
        assert tmp[..bUsed] == bData[..bUsed];
        bData := tmp;
      }
    }

    method PutNulAt(k: nat)
      requires BufferOk() && fileData && k < bUsed
      modifies bData
      ensures BufferOk() && Abs() == Terminate(old(Abs()), k)
    {
      bData[k] := NUL;
      assert bData[..bUsed] == PutNul(old(bData[..bUsed]), k);
    }

    /** Terminates the item and returns it as a C string. */
    method EndText() returns (text: string)
      requires BufferOk() && fileData && itemOffset + itemLength < bUsed
      modifies bData
      ensures BufferOk() && Abs() == Terminate(old(Abs()), itemOffset + itemLength)
      ensures text == CStrAt(Abs().file.value.data, itemOffset)
    {
      PutNulAt(itemOffset + itemLength);
      text := CStrAt(bData[..bUsed], itemOffset);
    }

    method FailLine()
      requires BufferOk()
      modifies this
      ensures BufferOk() && Abs() == Fail(old(Abs()))
      ensures bData == old(bData)
    {
      fileData := false;
      error := BadFileList;
    }

    method InsertEntry()
      requires BufferOk() && fileData
      modifies this
      ensures BufferOk() && Abs() == Insert(conf, old(Abs()))
      ensures bData == old(bData)
    {
      var r := Record(attrs, bData[..bUsed], offs);
      if conf.keep(r.Name()) {
        var discard := attrs.fileType == Symlink && offs.target != 0
                       && conf.strstr(CStrAt(bData[..bUsed], offs.target), " -> ");
        if !discard {
          files := files + [r];
        }
      }
      fileData := false;
    }

    /** strncmp("total ", ...) and the two scanning loops after it. */
    method TotalLineIsGood() returns (ok: bool)
      requires BufferOk()
      ensures ok == TotalLineOk(bData[..bUsed])
    {
      var line := bData[..bUsed];
      if |line| < 6 || line[..6] != "total " {
        return false;
      }
      var end := 6;
      while end < |line| && IsSpace(line[end])
        invariant 6 <= end <= |line| && SkipSpaces(line, end) == SkipSpaces(line, 6)
      {
        end := end + 1;
      }
      assert SkipSpaces(line, end) == end;
      ghost var start := end;
      while end < |line| && IsDigit(line[end])
        invariant 6 <= end <= |line| && SkipDigits(line, end) == SkipDigits(line, start)
      {
        end := end + 1;
      }
      ok := end < |line| && line[end] == NUL;
    }

    method StepTotal(c: char)
      requires Stored(c) && (mode.TotalReading? || (mode.TotalInit? && c == 't'))
      modifies this, bData
      ensures BufferOk() && bData == old(bData) && Abs() == TotalStep(old(Abs()), c)
    {
      if mode.TotalInit? {
        mode, itemLength := TotalReading, itemLength + 1;
        return;
      }
      if c == '\r' {
        bUsed := bUsed - 1;
        assert bData[..bUsed] == old(bData[..bUsed])[..old(bUsed) - 1];
      } else if c == '\n' {
        PutNulAt(itemLength);
        var ok := TotalLineIsGood();
        if ok {
          mode, bUsed, itemLength := TypeChar, 0, itemLength + 1;
        } else {
          FailLine();
        }
      } else {
        itemLength := itemLength + 1;
      }
    }

    method StepType(c: char)
      requires Stored(c) && mode.TypeChar?
      modifies this
      ensures BufferOk() && bData == old(bData) && Abs() == TypeStep(old(Abs()), c)
    {
      match FileTypeOf(c)
      case None => FailLine();
      case Some(t) =>
        attrs := attrs.(fileType := t);
        mode, itemLength, itemOffset := Permission, 0, 1;
    }

    method StepPermission(c: char)
      requires Stored(c) && mode.Permission?
      modifies this, bData
      ensures BufferOk() && bData == old(bData) && Abs() == PermissionStep(old(Abs()), c)
    {
      if itemLength + 1 <= 9 {
        if InSet("rwx-tTsS", c) {
          itemLength := itemLength + 1;
        } else {
          FailLine();
        }
      } else {
        EndPermission(c);
      }
    }

    /** The byte behind the nine permission characters. */
    method EndPermission(c: char)
      requires Stored(c) && mode.Permission? && itemLength + 1 > 9
      modifies this, bData
      ensures BufferOk() && bData == old(bData) && Abs() == PermissionStep(old(Abs()), c)
    {
      if c != ' ' {
        FailLine();
      } else {
        PutNulAt(10);
        TakePermission();
      }
    }

    /** The stored permission characters, terminated, as a number. */
    method TakePermission()
      requires BufferOk() && fileData && mode.Permission? && itemOffset <= bUsed
      modifies this
      ensures BufferOk() && bData == old(bData)
      ensures Abs() == (var p := old(Abs());
                        match PermissionBits(p.file.value.data[p.itemOffset..])
                        case None => Fail(p)
                        case Some(bits) =>
                          SetAttrs(p, p.file.value.attrs.(knownPerm := true, perm := bits)).(
                            offs := p.offs.(perm := p.itemOffset), itemLength := 0, mode := LinksPre))
    {
      match PermissionBits(bData[..bUsed][itemOffset..])
      case None => FailLine();
      case Some(bits) =>
        attrs := attrs.(knownPerm := true, perm := bits);
        offs := offs.(perm := itemOffset);
        itemLength, mode := 0, LinksPre;
    }

    method StartItem(m: Mode)
      requires BufferOk() && fileData && bUsed > 0
      modifies this
      ensures BufferOk() && bData == old(bData) && Abs() == Begin(old(Abs()), m)
    {
      itemOffset, itemLength, mode := bUsed - 1, 1, m;
    }

    method FinishNumberLinks()
      requires BufferOk() && fileData && itemOffset + itemLength < bUsed
      modifies this, bData
      ensures BufferOk() && bData == old(bData) && Abs() == EndLinks(conf, old(Abs()))
    {
      var text := EndText();
      attrs := WithLinks(attrs, conf.readLong(text), conf.longMax);
      itemLength, itemOffset, mode := 0, 0, UserPre;
    }

    method StepLinks(c: char)
      requires Stored(c) && (mode.LinksPre? || mode.LinksNumber?)
      modifies this, bData
      ensures BufferOk() && bData == old(bData) && Abs() == LinksStep(conf, old(Abs()), c)
    {
      if mode.LinksPre? {
        if c != ' ' {
          if IsDigit(c) {
            StartItem(LinksNumber);
          } else {
            FailLine();
          }
        }
      } else if c == ' ' {
        FinishNumberLinks();
      } else if !IsDigit(c) {
        FailLine();
      } else {
        itemLength := itemLength + 1;
      }
    }

    method StepUser(c: char)
      requires Stored(c) && (mode.UserPre? || mode.UserName?)
      modifies this, bData
      ensures BufferOk() && bData == old(bData) && Abs() == UserStep(old(Abs()), c)
    {
      if mode.UserPre? {
        if c != ' ' {
          StartItem(UserName);
        }
      } else if c == ' ' {
        PutNulAt(itemOffset + itemLength);
        offs := offs.(user := itemOffset);
        itemLength, itemOffset, mode := 0, 0, GroupPre;
      } else {
        itemLength := itemLength + 1;
      }
    }

    method StepGroup(c: char)
      requires Stored(c) && (mode.GroupPre? || mode.GroupName?)
      modifies this, bData
      ensures BufferOk() && bData == old(bData) && Abs() == GroupStep(old(Abs()), c)
    {
      if mode.GroupPre? {
        if c != ' ' {
          StartItem(GroupName);
        }
      } else if c == ' ' {
        PutNulAt(itemOffset + itemLength);
        offs := offs.(group := itemOffset);
        itemLength, itemOffset, mode := 0, 0, SizePre;
      } else {
        itemLength := itemLength + 1;
      }
    }

    method FinishNumberSize()
      requires BufferOk() && fileData && itemOffset + itemLength < bUsed
      modifies this, bData
      ensures BufferOk() && bData == old(bData) && Abs() == EndSize(conf, old(Abs()))
    {
      var text := EndText();
      attrs := WithSize(attrs, conf.readOff(text), conf.offMax);
      itemLength, itemOffset, mode := 0, 0, TimePre1;
    }

    method StepSize(c: char)
      requires Stored(c) && (mode.SizePre? || mode.SizeNumber?)
      modifies this, bData
      ensures BufferOk() && bData == old(bData) && Abs() == SizeStep(conf, old(Abs()), c)
    {
      if mode.SizePre? {
        if c != ' ' {
          if IsDigit(c) {
            StartItem(SizeNumber);
          } else {
            FailLine();
          }
        }
      } else if c == ' ' {
        FinishNumberSize();
      } else if !IsDigit(c) {
        FailLine();
      } else {
        itemLength := itemLength + 1;
      }
    }

    /** One byte inside a part of the time text. */
    method TimePart(c: char, colon: bool, next: Mode)
      requires BufferOk()
      modifies this
      ensures BufferOk() && bData == old(bData)
      ensures Abs() == (var p := old(Abs());
                        var more := p.(itemLength := p.itemLength + 1);
                        if c == ' ' then SetMode(more, next)
                        else if IsAlnum(c) || c == '.' || (colon && c == ':') then more
                        else Fail(p))
    {
      if c == ' ' {
        itemLength, mode := itemLength + 1, next;
      } else if !IsAlnum(c) && c != '.' && !(colon && c == ':') {
        FailLine();
      } else {
        itemLength := itemLength + 1;
      }
    }

    /** One byte between two parts of the time text. */
    method TimeGap(c: char, next: Mode)
      requires BufferOk()
      modifies this
      ensures BufferOk() && bData == old(bData)
      ensures Abs() == (var p := old(Abs());
                        var more := p.(itemLength := p.itemLength + 1);
                        if c == ' ' then more else if IsAlnum(c) then SetMode(more, next) else Fail(p))
    {
      if c == ' ' {
        itemLength := itemLength + 1;
      } else if IsAlnum(c) {
        itemLength, mode := itemLength + 1, next;
      } else {
        FailLine();
      }
    }

    method StepTime(c: char)
      requires Stored(c) && Stage(mode) == 6
      modifies this, bData
      ensures BufferOk() && bData == old(bData) && Abs() == TimeStep(old(Abs()), c)
    {
      match mode
      case TimePre1 =>
        if c != ' ' {
          if IsAlnum(c) {
            StartItem(TimePart1);
          } else {
            FailLine();
          }
        }
      case TimePart1 => TimePart(c, false, TimePre2);
      case TimePre2 => TimeGap(c, TimePart2);
      case TimePart2 => TimePart(c, false, TimePre3);
      case TimePre3 => TimeGap(c, TimePart3);
      case TimePart3 =>
        if c == ' ' {
          PutNulAt(itemOffset + itemLength);
          itemLength, offs := itemLength + 1, offs.(time := itemOffset);
          mode := if attrs.fileType == Symlink then LinkPre else NamePre;
        } else {
          TimePart(c, true, NamePre);
        }
    }

    method FinishFile(k: nat)
      requires BufferOk() && fileData && k < bUsed
      modifies this, bData
      ensures BufferOk() && bData == old(bData) && Abs() == FinishName(conf, old(Abs()), k)
    {
      PutNulAt(k);
      offs, mode := offs.(filename := itemOffset), TypeChar;
      InsertEntry();
    }

    method FinishLink(k: nat)
      requires BufferOk() && fileData && k < bUsed
      modifies this, bData
      ensures BufferOk() && bData == old(bData) && Abs() == FinishTarget(conf, old(Abs()), k)
    {
      PutNulAt(k);
      offs, mode := offs.(target := itemOffset), TypeChar;
      InsertEntry();
    }

    method StepName(c: char)
      requires Stored(c) && Stage(mode) == 7
      modifies this, bData
      ensures BufferOk() && bData == old(bData) && Abs() == NameStep(conf, old(Abs()), c)
    {
      match mode
      case NamePre =>
        if c != ' ' {
          StartItem(NameText);
        }
      case NameText =>
        NameByte(c);
      case NameCr =>
        if c == '\n' {
          FinishFile(itemOffset + itemLength);
        } else {
          FailLine();
        }
    }

    /** A byte of the name, or the end of the line. */
    method NameByte(c: char)
      requires Stored(c) && mode.NameText?
      modifies this, bData
      ensures BufferOk() && bData == old(bData) && Abs() == NameStep(conf, old(Abs()), c)
    {
      if c == '\r' {
        mode := NameCr;
      } else {
        itemLength := itemLength + 1;
        assert Abs() == old(Abs()).(itemLength := old(itemLength) + 1);
        if c == '\n' {
          FinishFile(itemOffset + itemLength - 1);
        }
      }
    }

    /** One byte of " -> ": the expected one advances, a line end fails, and
        anything else falls back to the name. */
    method ArrowByte(c: char, expected: char, next: Mode)
      requires BufferOk()
      modifies this
      ensures BufferOk() && bData == old(bData)
      ensures Abs() == (var p := old(Abs());
                        var more := p.(itemLength := p.itemLength + 1);
                        if c == expected then SetMode(more, next)
                        else if IsEol(c) then Fail(p) else SetMode(more, LinkName))
    {
      if c == expected {
        itemLength, mode := itemLength + 1, next;
      } else if c == '\r' || c == '\n' {
        FailLine();
      } else {
        itemLength, mode := itemLength + 1, LinkName;
      }
    }

    method StepLinkName(c: char)
      requires Stored(c) && Stage(mode) == 8
      modifies this, bData
      ensures BufferOk() && bData == old(bData) && Abs() == LinkStep(conf, old(Abs()), c)
    {
      match mode
      case LinkPre =>
        if c != ' ' {
          StartItem(LinkName);
        }
      case LinkName => ArrowByte(c, ' ', Arrow1);
      case Arrow1 => ArrowByte(c, '-', Arrow2);
      case Arrow2 => ArrowByte(c, '>', Arrow3);
      case Arrow3 =>
        if c == ' ' {
          PutNulAt(itemOffset + itemLength - 3);
          offs := offs.(filename := itemOffset);
          itemLength, itemOffset, mode := 0, 0, Arrow4;
        } else {
          ArrowByte(c, ' ', Arrow4);
        }
    }

    method InTarget(c: char)
      requires Stored(c) && mode.TargetText?
      modifies this, bData
      ensures BufferOk() && bData == old(bData) && Abs() == TargetTextStep(conf, old(Abs()), c)
    {
      if c == '\r' {
        mode := TargetCr;
      } else {
        itemLength := itemLength + 1;
        if c == '\n' {
          FinishLink(itemOffset + itemLength - 1);
        }
      }
    }

    method StepTarget(c: char)
      requires Stored(c) && Stage(mode) == 9
      modifies this, bData
      ensures BufferOk() && bData == old(bData) && Abs() == LinkStep(conf, old(Abs()), c)
    {
      match mode
      case Arrow4 =>
        if c != '\r' && c != '\n' {
          StartItem(TargetText);
        } else {
          FailLine();
        }
      case TargetText => InTarget(c);
      case TargetCr =>
        if c == '\n' {
          FinishLink(itemOffset + itemLength - 1);
        } else {
          FailLine();
        }
    }

    method StepNtTime(c: char)
      requires Stored(c) && Stage(mode) == 20
      modifies this, bData
      ensures BufferOk() && bData == old(bData) && Abs() == NtTimeStep(old(Abs()), c)
    {
      match mode
      case NtDate =>
        if itemLength + 1 < 9 {
          if InSet("0123456789-", c) {
            itemLength := itemLength + 1;
          } else {
            FailLine();
          }
        } else if itemLength + 1 == 9 && c == ' ' {
          itemLength, mode := itemLength + 1, NtTimePre;
        } else {
          FailLine();
        }
      case NtTimePre =>
        itemLength := itemLength + 1;
        if !IsSpace(c) {
          mode := NtTime;
        }
      case NtTime =>
        if c == ' ' {
          offs := offs.(time := itemOffset);
          PutNulAt(itemOffset + itemLength);
          mode, itemLength := NtSizePre, 0;
        } else if InSet("APM0123456789:", c) {
          itemLength := itemLength + 1;
        } else {
          FailLine();
        }
    }

    method StepNtSize(c: char)
      requires Stored(c) && Stage(mode) == 21
      modifies this, bData
      ensures BufferOk() && bData == old(bData) && Abs() == NtSizeStep(conf, old(Abs()), c)
    {
      if mode.NtSizePre? {
        if c != ' ' {
          StartItem(NtSizeText);
        }
      } else if c == ' ' {
        var text := EndText();
        TakeNtSize(text);
      } else {
        itemLength := itemLength + 1;
      }
    }

    /** "<DIR>" or a size. */
    method TakeNtSize(text: string)
      requires BufferOk() && fileData
      modifies this
      ensures BufferOk() && bData == old(bData)
      ensures Abs() == (var p := old(Abs());
                        match NtSizeAttrs(conf, p.file.value.attrs, text)
                        case None => Fail(p)
                        case Some(known) => SetAttrs(p, known).(itemLength := 0, mode := NtNamePre))
    {
      match NtSizeAttrs(conf, attrs, text)
      case None => FailLine();
      case Some(known) =>
        attrs := known;
        itemLength, mode := 0, NtNamePre;
    }

    method EndNtName()
      requires BufferOk() && fileData
      modifies this
      ensures BufferOk() && bData == old(bData)
      ensures Abs() == (var p := old(Abs());
                        Insert(conf, p.(offs := p.offs.(filename := p.itemOffset))).(mode := NtDate))
    {
      offs := offs.(filename := itemOffset);
      InsertEntry();
      mode := NtDate;
    }

    method InNtName(c: char)
      requires Stored(c) && mode.NtNameText?
      modifies this, bData
      ensures BufferOk() && bData == old(bData) && Abs() == NtNameTextStep(conf, old(Abs()), c)
    {
      itemLength := itemLength + 1;
      if c == '\r' {
        PutNulAt(bUsed - 1);
        mode := NtNameCr;
      } else if c == '\n' {
        PutNulAt(bUsed - 1);
        EndNtName();
      }
    }

    method StepNtName(c: char)
      requires Stored(c) && Stage(mode) == 22
      modifies this, bData
      ensures BufferOk() && bData == old(bData) && Abs() == NtNameStep(conf, old(Abs()), c)
    {
      match mode
      case NtNamePre =>
        if c != ' ' {
          StartItem(NtNameText);
        }
      case NtNameText => InNtName(c);
      case NtNameCr =>
        if c == '\n' {
          EndNtName();
        } else {
          FailLine();
        }
    }

    /** The switch statement of the byte loop. */
    method SwitchOnState(c: char)
      requires Stored(c) && !Rereads(Abs(), c)
      modifies this, bData
      ensures BufferOk() && bData == old(bData) && Abs() == Dispatch(conf, old(Abs()), c)
    {
      match mode
      case TotalInit => StepTotal(c);
      case TotalReading => StepTotal(c);
      case TypeChar => StepType(c);
      case Permission => StepPermission(c);
      case LinksPre => StepLinks(c);
      case LinksNumber => StepLinks(c);
      case UserPre => StepUser(c);
      case UserName => StepUser(c);
      case GroupPre => StepGroup(c);
      case GroupName => StepGroup(c);
      case SizePre => StepSize(c);
      case SizeNumber => StepSize(c);
      case TimePre1 => StepTime(c);
      case TimePart1 => StepTime(c);
      case TimePre2 => StepTime(c);
      case TimePart2 => StepTime(c);
      case TimePre3 => StepTime(c);
      case TimePart3 => StepTime(c);
      case NamePre => StepName(c);
      case NameText => StepName(c);
      case NameCr => StepName(c);
      case LinkPre => StepLinkName(c);
      case LinkName => StepLinkName(c);
      case Arrow1 => StepLinkName(c);
      case Arrow2 => StepLinkName(c);
      case Arrow3 => StepLinkName(c);
      case Arrow4 => StepTarget(c);
      case TargetText => StepTarget(c);
      case TargetCr => StepTarget(c);
      case NtDate => StepNtTime(c);
      case NtTimePre => StepNtTime(c);
      case NtTime => StepNtTime(c);
      case NtSizePre => StepNtSize(c);
      case NtSizeText => StepNtSize(c);
      case NtNamePre => StepNtName(c);
      case NtNameText => StepNtName(c);
      case NtNameCr => StepNtName(c);
    }

    /** The loop body for one byte; `again` asks for the byte to be read again,
        which happens once, when the first line is not a "total" line. */
    method TakeByte(c: char) returns (again: bool)
      requires Valid() && error == Ok && os != OsUnknown
      modifies this, bData
      ensures Valid() && os != OsUnknown && (bData == old(bData) || fresh(bData))
      ensures again ==> error == Ok && old(mode).TotalInit? && !mode.TotalInit?
      ensures again ==> Step(conf, Abs(), c) == Step(conf, old(Abs()), c)
      ensures !again ==> Abs() == Step(conf, old(Abs()), c)
    {
      ghost var q, data := StepPlan(conf, Abs(), c);
      Store(c);
      ButLast(bData[..], bUsed, data, c);
      if mode.TotalInit? && c != 't' {
        again, mode, bUsed := true, TypeChar, 0;
        assert Abs() == Restarted(q);
      } else {
        again := false;
        SwitchOnState(c);
      }
    }

    lemma ButLast(all: string, used: nat, data: string, c: char)
      requires used <= |all| && all[..used] == data + [c]
      ensures used > 0 && all[..used - 1] == data
    {
      assert all[..used][..used - 1] == all[..used - 1];
    }

    /** A first byte that is a digit means Windows NT. */
    method GuessDialect(buffer: string)
      requires Valid() && error == Ok
      modifies this`os, this`mode
      ensures Valid() && (buffer != [] ==> os != OsUnknown)
      ensures Fold(conf, Abs(), buffer) == Fold(conf, old(Abs()), buffer)
    {
      if os.OsUnknown? && |buffer| > 0 {
        os := if IsDigit(buffer[0]) then OsWinNt else OsUnix;
        mode := if IsDigit(buffer[0]) then NtDate else TotalInit;
      }
    }

    /** One turn of the byte loop, index arithmetic included. */
    method Turn(buffer: string, i: nat, ghost goal: Parser) returns (next: nat)
      requires Valid() && error == Ok && i < |buffer| && os != OsUnknown
      requires Fold(conf, Abs(), buffer[i..]) == goal
      modifies this, bData
      ensures Valid() && os != OsUnknown && (bData == old(bData) || fresh(bData))
      ensures i <= next <= i + 1 && (next == i ==> error == Ok && old(mode).TotalInit? && !mode.TotalInit?)
      ensures Fold(conf, Abs(), buffer[next..]) == goal
    {
      ghost var rest := buffer[i..];
      assert rest[0] == buffer[i] && rest[1..] == buffer[i + 1..];
      var again := TakeByte(buffer[i]);
      var at := if again then i - 1 else i;
      next := at + 1;
    }

    /** Curl_ftp_parselist(): consumes one network chunk, whatever its size. */
    method ParseList(buffer: string) returns (consumed: nat)
      requires Valid()
      modifies this, bData
      ensures Valid() && (bData == old(bData) || fresh(bData))
      ensures consumed == |buffer|
      ensures Abs() == Fold(conf, old(Abs()), buffer)
    {
      consumed := |buffer|;
      ghost var goal := Fold(conf, Abs(), buffer);
      if error != Ok {
        ErrorIsSticky(conf, Abs(), buffer);
        return;
      }
      GuessDialect(buffer);
      var i := 0;
      assert buffer[0..] == buffer;
      while i < |buffer|
        invariant 0 <= i <= |buffer| && Valid() && error == Ok && (i < |buffer| ==> os != OsUnknown)
        invariant bData == old(bData) || fresh(bData)
        invariant Fold(conf, Abs(), buffer[i..]) == goal
        decreases |buffer| - i, mode.TotalInit?
      {
        i := Turn(buffer, i, goal);
        if error != Ok {
          ErrorIsSticky(conf, Abs(), buffer[i..]);
          return;
        }
      }
    }
  }
}
