/** What every reachable state of the LIST parser keeps: where the item being
    scanned lies in the buffer, which stored offsets already denote
    NUL-terminated strings, and what a record in the result list guarantees. */
module FtpListInvariant {
  import opened CText
  import opened FtpListModel

  /** A NUL lies at or after `offset`, inside the used bytes. */
  predicate Terminated(data: string, offset: nat)
    decreases |data| - offset
  {
    offset < |data| && (data[offset] == NUL || Terminated(data, offset + 1))
  }

  lemma {:induction false} TerminatedMeans(data: string, offset: nat)
    ensures Terminated(data, offset) <==> exists k :: offset <= k < |data| && data[k] == NUL
    decreases |data| - offset
  {
    if offset < |data| {
      TerminatedMeans(data, offset + 1);
    }
  }

  /** How many of the fields of a line are complete in this mode. */
  function Stage(mode: Mode): nat {
    match mode
    case TotalInit => 0
    case TotalReading => 0
    case TypeChar => 0
    case Permission => 1
    case LinksPre => 2
    case LinksNumber => 2
    case UserPre => 3
    case UserName => 3
    case GroupPre => 4
    case GroupName => 4
    case SizePre => 5
    case SizeNumber => 5
    case TimePre1 => 6
    case TimePart1 => 6
    case TimePre2 => 6
    case TimePart2 => 6
    case TimePre3 => 6
    case TimePart3 => 6
    case NamePre => 7
    case NameText => 7
    case NameCr => 7
    case LinkPre => 8
    case LinkName => 8
    case Arrow1 => 8
    case Arrow2 => 8
    case Arrow3 => 8
    case Arrow4 => 9
    case TargetText => 9
    case TargetCr => 9
    case NtDate => 20
    case NtTimePre => 20
    case NtTime => 20
    case NtSizePre => 21
    case NtSizeText => 21
    case NtNamePre => 22
    case NtNameText => 22
    case NtNameCr => 22
  }

  /** Where the item being scanned lies among the `|data|` used bytes. */
  ghost predicate ItemOk(mode: Mode, offset: nat, length: nat, data: string) {
    match mode
    case TotalInit => offset == 0 && length == 0 && data == []
    case TotalReading => offset == 0 && 1 <= length == |data|
    case TypeChar => data == []
    case Permission => offset == 1 && |data| == 1 + length && length <= 9
    case LinksNumber => 1 <= length && offset + length == |data|
    case UserName => 1 <= offset && 1 <= length && offset + length == |data|
    case GroupName => 1 <= offset && 1 <= length && offset + length == |data|
    case SizeNumber => 1 <= length && offset + length == |data|
    case TimePart1 => 1 <= length && offset + length == |data|
    case TimePre2 => 2 <= length && offset + length == |data|
    case TimePart2 => 3 <= length && offset + length == |data|
    case TimePre3 => 4 <= length && offset + length == |data|
    case TimePart3 => 5 <= length && offset + length == |data|
    case NameText => 1 <= length && offset + length == |data|
    case NameCr => 1 <= length && offset + length + 1 == |data|
    case LinkName => 1 <= length && offset + length == |data|
    case Arrow1 => 2 <= length && offset + length == |data|
    case Arrow2 => 3 <= length && offset + length == |data|
    case Arrow3 => 4 <= length && offset + length == |data|
    case TargetText => 1 <= offset && 1 <= length && offset + length == |data|
    case TargetCr => 1 <= offset && 1 <= length && offset + length + 1 == |data|
    case NtDate => offset == 0 && length == |data|
    case NtTimePre => offset == 0 && 9 <= length == |data|
    case NtTime => offset == 0 && 10 <= length == |data|
    case NtSizeText => 1 <= length && offset + length == |data|
    case NtNameText => 1 <= length && offset + length == |data|
    case NtNameCr => Terminated(data, offset)
    case _ => true
  }

  /** Which offsets already denote strings, by stage. */
  ghost predicate FieldsOk(stage: nat, attrs: Attrs, offs: Offsets, data: string) {
    if stage < 20 then
      && (2 <= stage ==> |data| >= 11 && offs.perm == 1 && Terminated(data, 1))
      && (4 <= stage ==> offs.user > 0 && Terminated(data, offs.user))
      && (5 <= stage ==> offs.group > 0 && Terminated(data, offs.group))
      && (7 <= stage ==> Terminated(data, offs.time))
      && (stage == 7 ==> attrs.fileType != Symlink)
      && (8 <= stage ==> attrs.fileType == Symlink)
      && (9 <= stage ==> Terminated(data, offs.filename))
    else
      && attrs.fileType != Symlink
      && offs.user == 0 && offs.group == 0 && offs.perm == 0
      && (21 <= stage ==> Terminated(data, offs.time))
  }

  ghost predicate RecordOk(os: OsType, r: Record) {
    && Terminated(r.data, r.offs.filename)
    && Terminated(r.data, r.offs.time)
    && (os == OsUnix ==>
          && r.offs.user > 0 && Terminated(r.data, r.offs.user)
          && r.offs.group > 0 && Terminated(r.data, r.offs.group)
          && r.offs.perm == 1 && Terminated(r.data, 1))
    && (os == OsWinNt ==> r.offs.user == 0 && r.offs.group == 0 && r.offs.perm == 0)
    && (r.attrs.fileType == Symlink ==> r.offs.target > 0 && Terminated(r.data, r.offs.target))
  }

  ghost predicate EntryOk(p: Parser, attrs: Attrs, data: string) {
    ItemOk(p.mode, p.itemOffset, p.itemLength, data) && FieldsOk(Stage(p.mode), attrs, p.offs, data)
  }

  ghost predicate RecordsOk(p: Parser) {
    forall i :: 0 <= i < |p.files| ==> RecordOk(p.os, p.files[i])
  }

  ghost predicate OsOk(p: Parser) {
    match p.os
    case OsUnknown => p.mode.TotalInit? && p.file.None? && p.files == [] && p.error == Ok && p.offs == NO_OFFSETS
    case OsUnix => Stage(p.mode) < 20
    case OsWinNt => Stage(p.mode) >= 20 && p.offs.user == 0 && p.offs.group == 0 && p.offs.perm == 0
  }

  ghost predicate Inv(p: Parser) {
    && OsOk(p)
    && RecordsOk(p)
    && (p.error != Ok ==> p.file.None?)
    && (p.file.None? && p.error == Ok ==> p.mode.TotalInit? || p.mode.TypeChar? || p.mode.NtDate?)
    && (p.file.Some? ==> EntryOk(p, p.file.value.attrs, p.file.value.data))
  }

  /** A known-dialect state whose buffer just got `c` on top of `data`. */
  ghost predicate Received(p: Parser, data: string, c: char) {
    && p.error == Ok && p.os != OsUnknown && OsOk(p) && RecordsOk(p)
    && p.file.Some? && p.file.value.data == data + [c]
    && EntryOk(p, p.file.value.attrs, data)
  }

  lemma TerminatedGrows(a: string, b: string, offset: nat)
    requires Terminated(a, offset) && a <= b
    ensures Terminated(b, offset)
  {
    TerminatedMeans(a, offset);
    TerminatedMeans(b, offset);
    var k :| offset <= k < |a| && a[k] == NUL;
    assert b[k] == NUL;
  }

  lemma FieldsGrow(stage: nat, attrs: Attrs, offs: Offsets, data: string, c: char)
    requires FieldsOk(stage, attrs, offs, data)
    ensures FieldsOk(stage, attrs, offs, data + [c])
  {
    forall k: nat | Terminated(data, k) ensures Terminated(data + [c], k) {
      TerminatedGrows(data, data + [c], k);
    }
  }

  /** Storing the byte and then a NUL at `k` keeps the finished fields and
      terminates the item at `offset`. */
  lemma NulEnds(stage: nat, attrs: Attrs, offs: Offsets, data: string, c: char, offset: nat, k: int)
    requires FieldsOk(stage, attrs, offs, data) && offset <= k <= |data|
    ensures FieldsOk(stage, attrs, offs, PutNul(data + [c], k))
    ensures Terminated(PutNul(data + [c], k), offset)
  {
    var after := PutNul(data + [c], k);
    forall j: nat | Terminated(data, j) || j <= k ensures Terminated(after, j) {
      TerminatedMeans(data, j);
      TerminatedMeans(after, j);
      if Terminated(data, j) {
        var i :| j <= i < |data| && data[i] == NUL;
        assert after[i] == NUL;
      } else {
        assert after[k] == NUL;
      }
    }
  }

  lemma TotalKeeps(p: Parser, data: string, c: char)
    requires Received(p, data, c) && (p.mode.TotalReading? || (p.mode.TotalInit? && c == 't'))
    ensures Inv(TotalStep(p, c))
  {
  }

  lemma TypeKeeps(p: Parser, data: string, c: char)
    requires Received(p, data, c) && p.mode.TypeChar?
    ensures Inv(TypeStep(p, c))
  {
  }

  lemma PermissionKeeps(p: Parser, data: string, c: char)
    requires Received(p, data, c) && p.mode.Permission?
    ensures Inv(PermissionStep(p, c))
  {
    if |data| == 10 {
      NulEnds(1, p.file.value.attrs, p.offs, data, c, 1, 10);
    }
  }

  lemma LinksKeeps(conf: Config, p: Parser, data: string, c: char)
    requires Received(p, data, c) && (p.mode.LinksPre? || p.mode.LinksNumber?)
    ensures Inv(LinksStep(conf, p, c))
  {
    if p.mode.LinksNumber? && c == ' ' {
      NulEnds(2, p.file.value.attrs, p.offs, data, c, p.itemOffset, |data|);
    } else {
      FieldsGrow(2, p.file.value.attrs, p.offs, data, c);
    }
  }

  lemma UserKeeps(p: Parser, data: string, c: char)
    requires Received(p, data, c) && (p.mode.UserPre? || p.mode.UserName?)
    ensures Inv(UserStep(p, c))
  {
    if p.mode.UserName? && c == ' ' {
      NulEnds(3, p.file.value.attrs, p.offs, data, c, p.itemOffset, |data|);
    } else {
      FieldsGrow(3, p.file.value.attrs, p.offs, data, c);
    }
  }

  lemma GroupKeeps(p: Parser, data: string, c: char)
    requires Received(p, data, c) && (p.mode.GroupPre? || p.mode.GroupName?)
    ensures Inv(GroupStep(p, c))
  {
    if p.mode.GroupName? && c == ' ' {
      NulEnds(4, p.file.value.attrs, p.offs, data, c, p.itemOffset, |data|);
    } else {
      FieldsGrow(4, p.file.value.attrs, p.offs, data, c);
    }
  }

  lemma SizeKeeps(conf: Config, p: Parser, data: string, c: char)
    requires Received(p, data, c) && (p.mode.SizePre? || p.mode.SizeNumber?)
    ensures Inv(SizeStep(conf, p, c))
  {
    if p.mode.SizeNumber? && c == ' ' {
      NulEnds(5, p.file.value.attrs, p.offs, data, c, p.itemOffset, |data|);
    } else {
      FieldsGrow(5, p.file.value.attrs, p.offs, data, c);
    }
  }

  lemma TimeKeeps1(p: Parser, data: string, c: char)
    requires Received(p, data, c) && (p.mode.TimePre1? || p.mode.TimePart1?)
    ensures Inv(TimeStep(p, c))
  {
    FieldsGrow(6, p.file.value.attrs, p.offs, data, c);
  }

  lemma TimeKeeps2(p: Parser, data: string, c: char)
    requires Received(p, data, c) && (p.mode.TimePre2? || p.mode.TimePart2?)
    ensures Inv(TimeStep(p, c))
  {
    FieldsGrow(6, p.file.value.attrs, p.offs, data, c);
  }

  lemma TimeKeeps3(p: Parser, data: string, c: char)
    requires Received(p, data, c) && (p.mode.TimePre3? || p.mode.TimePart3?)
    ensures Inv(TimeStep(p, c))
  {
    if p.mode.TimePart3? && c == ' ' {
      NulEnds(6, p.file.value.attrs, p.offs, data, c, p.itemOffset, |data|);
    } else {
      FieldsGrow(6, p.file.value.attrs, p.offs, data, c);
    }
  }

  /** ftp_pl_insert_finfo() on a finished entry leaves a line-start state. */
  lemma InsertKeeps(conf: Config, p: Parser)
    requires p.file.Some? && p.error == Ok && p.os != OsUnknown && OsOk(p) && RecordsOk(p)
    requires RecordOk(p.os, Record(p.file.value.attrs, p.file.value.data, p.offs))
    ensures var q := Insert(conf, p);
            RecordsOk(q) && q == p.(file := None, files := q.files)
  {
  }

  lemma NameStartKeeps(conf: Config, p: Parser, data: string, c: char)
    requires Received(p, data, c) && (p.mode.NamePre? || (p.mode.NameText? && c != '\n'))
    ensures Inv(NameStep(conf, p, c))
  {
    FieldsGrow(7, p.file.value.attrs, p.offs, data, c);
  }

  lemma NameEndKeeps(conf: Config, p: Parser, data: string, c: char)
    requires Received(p, data, c) && (p.mode.NameCr? || (p.mode.NameText? && c == '\n'))
    ensures Inv(NameStep(conf, p, c))
  {
    var k := p.itemOffset + p.itemLength;
    NulEnds(7, p.file.value.attrs, p.offs, data, c, p.itemOffset, k);
    var done := NameDone(p);
    assert RecordOk(p.os, Record(done.file.value.attrs, done.file.value.data, done.offs));
    InsertKeeps(conf, done);
    NameEndIs(conf, p, c);
  }

  /** The entry at the end of its name, before it is inserted. */
  function NameDone(p: Parser): (q: Parser)
    requires p.file.Some?
    ensures q.file.Some?
  {
    var more := if p.mode.NameText? then p.(itemLength := p.itemLength + 1) else p;
    Terminate(more, p.itemOffset + p.itemLength).(offs := p.offs.(filename := p.itemOffset), mode := TypeChar)
  }

  lemma NameEndIs(conf: Config, p: Parser, c: char)
    requires p.file.Some? && p.file.value.data != [] && (p.mode.NameCr? || (p.mode.NameText? && c == '\n'))
    ensures NameStep(conf, p, c) == if c == '\n' then Insert(conf, NameDone(p)) else Fail(p)
  {
  }

  lemma LinkNameKeeps(conf: Config, p: Parser, data: string, c: char)
    requires Received(p, data, c) && (p.mode.LinkPre? || p.mode.LinkName? || p.mode.Arrow1?)
    ensures Inv(LinkStep(conf, p, c))
  {
    FieldsGrow(8, p.file.value.attrs, p.offs, data, c);
  }

  lemma ArrowKeeps(conf: Config, p: Parser, data: string, c: char)
    requires Received(p, data, c) && (p.mode.Arrow2? || p.mode.Arrow3?)
    ensures Inv(LinkStep(conf, p, c))
  {
    if p.mode.Arrow3? && c == ' ' {
      NulEnds(8, p.file.value.attrs, p.offs, data, c, p.itemOffset, p.itemOffset + p.itemLength - 3);
    } else {
      FieldsGrow(8, p.file.value.attrs, p.offs, data, c);
    }
  }

  lemma TargetStartKeeps(conf: Config, p: Parser, data: string, c: char)
    requires Received(p, data, c) && (p.mode.Arrow4? || (p.mode.TargetText? && c != '\n'))
    ensures Inv(LinkStep(conf, p, c))
  {
    FieldsGrow(9, p.file.value.attrs, p.offs, data, c);
  }

  lemma TargetEndKeeps(conf: Config, p: Parser, data: string, c: char)
    requires Received(p, data, c) && (p.mode.TargetCr? || (p.mode.TargetText? && c == '\n'))
    ensures Inv(LinkStep(conf, p, c))
  {
    if c != '\n' {
      assert LinkStep(conf, p, c) == Fail(p);
    } else {
      var text := p.mode.TargetText?;
      var more := if text then p.(itemLength := p.itemLength + 1) else p;
      var k := if text then p.itemOffset + p.itemLength else p.itemOffset + p.itemLength - 1;
      FinishedTargetKeeps(conf, p, more, data, k);
      TargetEnds(conf, p, more, k);
    }
  }

  lemma TargetEnds(conf: Config, p: Parser, more: Parser, k: nat)
    requires p.file.Some? && p.file.value.data != [] && (p.mode.TargetText? || p.mode.TargetCr?)
    requires more == if p.mode.TargetText? then p.(itemLength := p.itemLength + 1) else p
    requires k == if p.mode.TargetText? then p.itemOffset + p.itemLength else p.itemOffset + p.itemLength - 1
    ensures LinkStep(conf, p, '\n') == FinishTarget(conf, more, k)
  {
  }

  lemma FinishedTargetKeeps(conf: Config, p: Parser, more: Parser, data: string, k: nat)
    requires Received(p, data, '\n') && (p.mode.TargetCr? || p.mode.TargetText?)
    requires more == p || more == p.(itemLength := p.itemLength + 1)
    requires k == if p.mode.TargetText? then p.itemOffset + p.itemLength else p.itemOffset + p.itemLength - 1
    ensures Inv(FinishTarget(conf, more, k))
  {
    NulEnds(9, p.file.value.attrs, p.offs, data, '\n', p.itemOffset, k);
    var done := Terminate(more, k).(offs := p.offs.(target := p.itemOffset), mode := TypeChar);
    assert RecordOk(p.os, Record(done.file.value.attrs, done.file.value.data, done.offs));
    InsertKeeps(conf, done);
  }

  lemma NtTimeKeeps(p: Parser, data: string, c: char)
    requires Received(p, data, c) && Stage(p.mode) == 20
    ensures Inv(NtTimeStep(p, c))
  {
    if p.mode.NtTime? && c == ' ' {
      NulEnds(20, p.file.value.attrs, p.offs, data, c, 0, |data|);
    } else {
      FieldsGrow(20, p.file.value.attrs, p.offs, data, c);
    }
  }

  lemma NtSizeKeeps(conf: Config, p: Parser, data: string, c: char)
    requires Received(p, data, c) && (p.mode.NtSizePre? || p.mode.NtSizeText?)
    ensures Inv(NtSizeStep(conf, p, c))
  {
    if p.mode.NtSizeText? && c == ' ' {
      NtSizeEndKeeps(conf, p, data);
    } else {
      FieldsGrow(21, p.file.value.attrs, p.offs, data, c);
    }
  }

  lemma NtSizeEndKeeps(conf: Config, p: Parser, data: string)
    requires Received(p, data, ' ') && p.mode.NtSizeText?
    ensures Inv(NtSizeStep(conf, p, ' '))
  {
    NulEnds(21, p.file.value.attrs, p.offs, data, ' ', p.itemOffset, |data|);
  }

  lemma NtNameStartKeeps(conf: Config, p: Parser, data: string, c: char)
    requires Received(p, data, c) && (p.mode.NtNamePre? || (p.mode.NtNameText? && c != '\n'))
    ensures Inv(NtNameStep(conf, p, c))
  {
    if p.mode.NtNameText? && c == '\r' {
      NulEnds(22, p.file.value.attrs, p.offs, data, c, p.itemOffset, |data|);
    } else {
      FieldsGrow(22, p.file.value.attrs, p.offs, data, c);
    }
  }

  lemma NtNameEndKeeps(conf: Config, p: Parser, data: string, c: char)
    requires Received(p, data, c) && (p.mode.NtNameCr? || (p.mode.NtNameText? && c == '\n'))
    ensures Inv(NtNameStep(conf, p, c))
  {
    if p.mode.NtNameCr? {
      FieldsGrow(22, p.file.value.attrs, p.offs, data, c);
      TerminatedGrows(data, data + [c], p.itemOffset);
      InsertKeeps(conf, p.(offs := p.offs.(filename := p.itemOffset)));
    } else {
      NtNameLfKeeps(conf, p, data);
    }
  }

  lemma NtNameLfKeeps(conf: Config, p: Parser, data: string)
    requires Received(p, data, '\n') && p.mode.NtNameText?
    ensures Inv(NtNameStep(conf, p, '\n'))
  {
    NtNameDoneOk(p, data, '\n');
    InsertKeeps(conf, NtNameDone(p, |data|));
    NtNameLfIs(conf, p, |data|);
  }

  lemma NtNameDoneOk(p: Parser, data: string, c: char)
    requires Received(p, data, c) && p.mode.NtNameText?
    ensures var done := NtNameDone(p, |data|);
            RecordOk(p.os, Record(done.file.value.attrs, done.file.value.data, done.offs))
  {
    NulEnds(22, p.file.value.attrs, p.offs, data, c, p.itemOffset, |data|);
  }

  function NtNameDone(p: Parser, k: int): (q: Parser)
    requires p.file.Some?
    ensures q.file.Some?
  {
    Terminate(p.(itemLength := p.itemLength + 1), k).(offs := p.offs.(filename := p.itemOffset))
  }

  lemma NtNameLfIs(conf: Config, p: Parser, k: nat)
    requires p.file.Some? && |p.file.value.data| == k + 1 && p.mode.NtNameText?
    ensures NtNameStep(conf, p, '\n') == Insert(conf, NtNameDone(p, k)).(mode := NtDate)
  {
  }

  lemma DispatchKeeps(conf: Config, p: Parser, data: string, c: char)
    requires Received(p, data, c) && !Rereads(p, c)
    ensures Inv(Dispatch(conf, p, c))
  {
    match p.mode
    case TotalInit => TotalKeeps(p, data, c);
    case TotalReading => TotalKeeps(p, data, c);
    case TypeChar => TypeKeeps(p, data, c);
    case Permission => PermissionKeeps(p, data, c);
    case LinksPre => LinksKeeps(conf, p, data, c);
    case LinksNumber => LinksKeeps(conf, p, data, c);
    case UserPre => UserKeeps(p, data, c);
    case UserName => UserKeeps(p, data, c);
    case GroupPre => GroupKeeps(p, data, c);
    case GroupName => GroupKeeps(p, data, c);
    case SizePre => SizeKeeps(conf, p, data, c);
    case SizeNumber => SizeKeeps(conf, p, data, c);
    case TimePre1 => TimeKeeps1(p, data, c);
    case TimePart1 => TimeKeeps1(p, data, c);
    case TimePre2 => TimeKeeps2(p, data, c);
    case TimePart2 => TimeKeeps2(p, data, c);
    case TimePre3 => TimeKeeps3(p, data, c);
    case TimePart3 => TimeKeeps3(p, data, c);
    case NamePre => NameStartKeeps(conf, p, data, c);
    case NameText => if c == '\n' { NameEndKeeps(conf, p, data, c); } else { NameStartKeeps(conf, p, data, c); }
    case NameCr => NameEndKeeps(conf, p, data, c);
    case LinkPre => LinkNameKeeps(conf, p, data, c);
    case LinkName => LinkNameKeeps(conf, p, data, c);
    case Arrow1 => LinkNameKeeps(conf, p, data, c);
    case Arrow2 => ArrowKeeps(conf, p, data, c);
    case Arrow3 => ArrowKeeps(conf, p, data, c);
    case Arrow4 => TargetStartKeeps(conf, p, data, c);
    case TargetText => if c == '\n' { TargetEndKeeps(conf, p, data, c); } else { TargetStartKeeps(conf, p, data, c); }
    case TargetCr => TargetEndKeeps(conf, p, data, c);
    case NtSizePre => NtSizeKeeps(conf, p, data, c);
    case NtSizeText => NtSizeKeeps(conf, p, data, c);
    case NtNamePre => NtNameStartKeeps(conf, p, data, c);
    case NtNameText => if c == '\n' { NtNameEndKeeps(conf, p, data, c); } else { NtNameStartKeeps(conf, p, data, c); }
    case NtNameCr => NtNameEndKeeps(conf, p, data, c);
    case _ => NtTimeKeeps(p, data, c);
  }

  /** The dialect never changes once it is known. */
  lemma OsKept(conf: Config, p: Parser, data: string, c: char)
    requires Received(p, data, c)
    ensures Dispatch(conf, p, c).os == p.os
  {
  }

  /** What the byte handler starts from: the state after storing the byte. */
  lemma ReceiveGivesReceived(p: Parser, c: char) returns (q: Parser, data: string)
    requires Inv(p) && p.error == Ok
    ensures q == Receive(DetectOs(p, c), c) && Received(q, data, c)
  {
    q := Receive(DetectOs(p, c), c);
    data := if p.file.Some? then p.file.value.data else [];
  }

  /** Every byte, in either dialect, keeps the invariant. */
  lemma StepKeepsInv(conf: Config, p: Parser, c: char)
    requires Inv(p)
    ensures Inv(Step(conf, p, c))
  {
    if p.error == Ok {
      var q, data := ReceiveGivesReceived(p, c);
      if Rereads(q, c) {
        DispatchKeeps(conf, Receive(SetData(q, []).(mode := TypeChar), c), [], c);
      } else {
        DispatchKeeps(conf, q, data, c);
      }
    }
  }

  /** The state in which the first byte is read again. */
  function Restarted(q: Parser): Parser
    requires q.file.Some?
  {
    SetData(q, []).(mode := TypeChar)
  }

  /** What a step amounts to once the byte is stored. */
  lemma StepPlan(conf: Config, p: Parser, c: char) returns (q: Parser, data: string)
    requires Inv(p) && p.error == Ok && p.os != OsUnknown
    ensures q == Receive(p, c) && Received(q, data, c)
    ensures Rereads(q, c) ==>
              p.mode.TotalInit? && Inv(Restarted(q)) && Step(conf, Restarted(q), c) == Step(conf, p, c)
    ensures !Rereads(q, c) ==>
              Dispatch(conf, q, c) == Step(conf, p, c) && Inv(Step(conf, p, c)) && Step(conf, p, c).os == p.os
  {
    q, data := ReceiveGivesReceived(p, c);
    StepKeepsInv(conf, p, c);
    OsKept(conf, q, data, c);
  }

  lemma {:induction false} FoldKeepsInv(conf: Config, p: Parser, text: string)
    requires Inv(p)
    ensures Inv(Fold(conf, p, text))
    decreases |text|
  {
    if text != [] {
      StepKeepsInv(conf, p, text[0]);
      FoldKeepsInv(conf, Step(conf, p, text[0]), text[1..]);
    }
  }

  /** Whatever the server sends, every listed record's strings end inside the
      record's own buffer. */
  lemma EveryRecordIsWellFormed(conf: Config, text: string, i: nat)
    ensures Inv(Fold(conf, START, text))
    ensures i < |Fold(conf, START, text).files| ==>
              RecordOk(Fold(conf, START, text).os, Fold(conf, START, text).files[i])
  {
    FoldKeepsInv(conf, START, text);
  }
}
