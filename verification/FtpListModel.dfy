/** The FTP LIST response parser of lib/ftplistparser.c as a step function: one
    parser state, one received byte, the next parser state.  The two nested
    `main`/`sub` unions of the C struct are flattened into one `Mode`. */
module FtpListModel {
  import opened CText

  datatype FileType =
    | RegularFile | Directory | Symlink | NamedPipe
    | Socket | CharDevice | BlockDevice | Door

  datatype OsType = OsUnknown | OsUnix | OsWinNt

  datatype Status = Ok | BadFileList

  datatype Mode =
    // UNIX dialect
    | TotalInit | TotalReading
    | TypeChar
    | Permission
    | LinksPre | LinksNumber
    | UserPre | UserName
    | GroupPre | GroupName
    | SizePre | SizeNumber
    | TimePre1 | TimePart1 | TimePre2 | TimePart2 | TimePre3 | TimePart3
    | NamePre | NameText | NameCr
    | LinkPre | LinkName | Arrow1 | Arrow2 | Arrow3 | Arrow4 | TargetText | TargetCr
    // Windows NT dialect
    | NtDate
    | NtTimePre | NtTime
    | NtSizePre | NtSizeText
    | NtNamePre | NtNameText | NtNameCr

  datatype Offsets = Offsets(filename: nat, user: nat, group: nat, time: nat, perm: nat, target: nat)

  datatype Attrs = Attrs(
    fileType: FileType, perm: nat, hardlinks: int, size: int,
    knownPerm: bool, knownLinks: bool, knownSize: bool)

  /** The file entry being assembled: `data` holds the used bytes of its buffer. */
  datatype FileInfo = FileInfo(attrs: Attrs, data: string)

  /** A finished entry: the string fields are offsets into its own buffer. */
  datatype Record = Record(attrs: Attrs, data: string, offs: Offsets) {
    function Name(): string { CStrAt(data, offs.filename) }
    function Time(): string { CStrAt(data, offs.time) }
    function User(): Option<string> { Text(offs.user) }
    function Group(): Option<string> { Text(offs.group) }
    function Perm(): Option<string> { Text(offs.perm) }
    function Target(): Option<string> { Text(offs.target) }

    // Offset zero stands for a NULL pointer.
    function Text(offset: nat): Option<string> {
      if offset == 0 then None else Some(CStrAt(data, offset))
    }
  }

  datatype Parser = Parser(
    os: OsType, mode: Mode, error: Status, file: Option<FileInfo>,
    itemLength: nat, itemOffset: nat, offs: Offsets, files: seq<Record>)

  /** What the parser takes from outside: the name filter, strstr() as a test,
      strtol() and curlx_strtoofft() in base 10, the largest values they return,
      and whether errno already holds ERANGE when the second returns such a value. */
  datatype Config = Config(
    keep: string -> bool, strstr: (string, string) -> bool,
    readLong: string -> Number, longMax: nat,
    readOff: string -> Number, offMax: nat,
    staleErange: bool)

  function StandardConfig(keep: string -> bool, longMax: nat, offMax: nat, staleErange: bool): Config {
    Config(keep, (s, part) => Contains(s, part), s => StrTol(s, longMax), longMax, s => StrTol(s, offMax), offMax, staleErange)
  }

  const NO_ATTRS := Attrs(RegularFile, 0, 0, 0, false, false, false)
  const NO_OFFSETS := Offsets(0, 0, 0, 0, 0, 0)
  const START := Parser(OsUnknown, TotalInit, Ok, None, 0, 0, NO_OFFSETS, [])

  // ----- permissions

  function Flag(c: char, letter: char, bit: nat): Option<nat> {
    if c == letter then Some(bit) else if c == '-' then Some(0) else None
  }

  function ExecFlag(c: char, both: char, special: char, exec: nat, extra: nat): Option<nat> {
    if c == 'x' then Some(exec)
    else if c == both then Some(exec + extra)
    else if c == special then Some(extra)
    else if c == '-' then Some(0)
    else None
  }

  function Plus(a: Option<nat>, b: Option<nat>): Option<nat> {
    if a.Some? && b.Some? then Some(a.value + b.value) else None
  }

  function TriadBits(r: char, w: char, x: char, both: char, special: char, unit: nat, extra: nat): Option<nat> {
    Plus(Plus(Flag(r, 'r', 4 * unit), Flag(w, 'w', 2 * unit)), ExecFlag(x, both, special, unit, extra))
  }

  /** ftp_pl_get_permission(); None is FTP_LP_MALFORMATED_PERM. */
  function PermissionBits(s: string): Option<nat> {
    if |s| < 9 then None
    else
      Plus(Plus(TriadBits(s[0], s[1], s[2], 's', 'S', 0x40, 0x800),
                TriadBits(s[3], s[4], s[5], 's', 'S', 0x8, 0x400)),
           TriadBits(s[6], s[7], s[8], 't', 'T', 0x1, 0x200))
  }

  function FileTypeOf(c: char): Option<FileType> {
    match c
    case '-' => Some(RegularFile)
    case 'd' => Some(Directory)
    case 'l' => Some(Symlink)
    case 'p' => Some(NamedPipe)
    case 's' => Some(Socket)
    case 'c' => Some(CharDevice)
    case 'b' => Some(BlockDevice)
    case 'D' => Some(Door)
    case _ => None
  }

  // ----- parts of a step

  /** strchr() finds the terminator too, so NUL passes every character test. */
  predicate InSet(set_: string, c: char) {
    c in set_ || c == NUL
  }

  function PutNul(data: string, k: int): (r: string)
    ensures |r| == |data|
  {
    if 0 <= k < |data| then data[k := NUL] else data
  }

  function Fail(p: Parser): Parser {
    p.(file := None, error := BadFileList)
  }

  function SetMode(p: Parser, mode: Mode): Parser {
    p.(mode := mode)
  }

  function Reset(p: Parser, mode: Mode): Parser {
    p.(mode := mode, itemLength := 0, itemOffset := 0)
  }

  /** The item starts with the byte just stored. */
  function Begin(p: Parser, mode: Mode): Parser
    requires p.file.Some? && p.file.value.data != []
  {
    p.(mode := mode, itemOffset := |p.file.value.data| - 1, itemLength := 1)
  }

  function Terminate(p: Parser, k: int): (q: Parser)
    requires p.file.Some?
    ensures q.file.Some?
  {
    p.(file := Some(p.file.value.(data := PutNul(p.file.value.data, k))))
  }

  function SetAttrs(p: Parser, attrs: Attrs): (q: Parser)
    requires p.file.Some?
    ensures q.file.Some?
  {
    p.(file := Some(p.file.value.(attrs := attrs)))
  }

  function SetData(p: Parser, data: string): (q: Parser)
    requires p.file.Some?
    ensures q.file.Some?
  {
    p.(file := Some(p.file.value.(data := data)))
  }

  predicate Wanted(conf: Config, r: Record) {
    conf.keep(r.Name()) &&
    !(r.attrs.fileType == Symlink && r.offs.target != 0 && conf.strstr(CStrAt(r.data, r.offs.target), " -> "))
  }

  /** ftp_pl_insert_finfo(): append the entry if it passes the filter. */
  function Insert(conf: Config, p: Parser): Parser
    requires p.file.Some?
  {
    var r := Record(p.file.value.attrs, p.file.value.data, p.offs);
    p.(file := None, files := if Wanted(conf, r) then p.files + [r] else p.files)
  }

  /** Allocates the entry when there is none, and stores the byte. */
  function Receive(p: Parser, c: char): (q: Parser)
    ensures q.file.Some? && q.file.value.data != []
  {
    if p.file.Some? then SetData(p, p.file.value.data + [c])
    else p.(file := Some(FileInfo(NO_ATTRS, [c])), itemOffset := 0, itemLength := 0)
  }

  /** The dialect is guessed from the first byte ever received. */
  function DetectOs(p: Parser, c: char): Parser {
    if p.os != OsUnknown then p
    else if IsDigit(c) then p.(os := OsWinNt, mode := NtDate)
    else p.(os := OsUnix)
  }

  // ----- UNIX dialect

  predicate TotalLineOk(data: string) {
    |data| >= 6 && data[..6] == "total " &&
    var end := SkipDigits(data, SkipSpaces(data, 6));
    end < |data| && data[end] == NUL
  }

  function TotalStep(p: Parser, c: char): Parser
    requires p.file.Some? && p.file.value.data != []
  {
    var data := p.file.value.data;
    if p.mode.TotalInit? then p.(mode := TotalReading, itemLength := p.itemLength + 1)
    else if c == '\r' then SetData(p, data[..|data| - 1])
    else if c == '\n' then
      if TotalLineOk(PutNul(data, p.itemLength)) then
        SetData(p, []).(mode := TypeChar, itemLength := p.itemLength + 1)
      else Fail(p)
    else p.(itemLength := p.itemLength + 1)
  }

  function TypeStep(p: Parser, c: char): Parser
    requires p.file.Some?
  {
    match FileTypeOf(c)
    case None => Fail(p)
    case Some(t) =>
      SetAttrs(p, p.file.value.attrs.(fileType := t)).(mode := Permission, itemLength := 0, itemOffset := 1)
  }

  function PermissionStep(p: Parser, c: char): Parser
    requires p.file.Some?
  {
    var length := p.itemLength + 1;
    if length <= 9 then
      if InSet("rwx-tTsS", c) then p.(itemLength := length) else Fail(p)
    else if length == 10 then
      if c != ' ' then Fail(p)
      else
        var q := Terminate(p, 10);
        var data := q.file.value.data;
        match (if p.itemOffset <= |data| then PermissionBits(data[p.itemOffset..]) else None)
        case None => Fail(p)
        case Some(bits) =>
          SetAttrs(q, q.file.value.attrs.(knownPerm := true, perm := bits))
          .(offs := p.offs.(perm := p.itemOffset), itemLength := 0, mode := LinksPre)
    else p.(itemLength := length)
  }

  predicate Exact(n: Number, max: nat) {
    n.atEnd && n.value != max && n.value != -1 - max
  }

  /** The attributes after the number of links (or the size) was read. */
  function WithLinks(attrs: Attrs, n: Number, max: nat): Attrs {
    if Exact(n, max) then attrs.(knownLinks := true, hardlinks := n.value) else attrs
  }

  function WithSize(attrs: Attrs, n: Number, max: nat): Attrs {
    if Exact(n, max) then attrs.(knownSize := true, size := n.value) else attrs
  }

  function EndLinks(conf: Config, p: Parser): Parser
    requires p.file.Some?
  {
    var q := Terminate(p, p.itemOffset + p.itemLength);
    var text := CStrAt(q.file.value.data, p.itemOffset);
    Reset(SetAttrs(q, WithLinks(q.file.value.attrs, conf.readLong(text), conf.longMax)), UserPre)
  }

  function LinksStep(conf: Config, p: Parser, c: char): Parser
    requires p.file.Some? && p.file.value.data != []
  {
    if p.mode.LinksPre? then
      if c == ' ' then p
      else if IsDigit(c) then Begin(p, LinksNumber)
      else Fail(p)
    else if c == ' ' then
      EndLinks(conf, p)
    else if IsDigit(c) then p.(itemLength := p.itemLength + 1)
    else Fail(p)
  }

  function UserStep(p: Parser, c: char): Parser
    requires p.file.Some? && p.file.value.data != []
  {
    if p.mode.UserPre? then
      if c == ' ' then p else Begin(p, UserName)
    else if c == ' ' then
      Reset(Terminate(p, p.itemOffset + p.itemLength).(offs := p.offs.(user := p.itemOffset)), GroupPre)
    else p.(itemLength := p.itemLength + 1)
  }

  function GroupStep(p: Parser, c: char): Parser
    requires p.file.Some? && p.file.value.data != []
  {
    if p.mode.GroupPre? then
      if c == ' ' then p else Begin(p, GroupName)
    else if c == ' ' then
      Reset(Terminate(p, p.itemOffset + p.itemLength).(offs := p.offs.(group := p.itemOffset)), SizePre)
    else p.(itemLength := p.itemLength + 1)
  }

  function EndSize(conf: Config, p: Parser): Parser
    requires p.file.Some?
  {
    var q := Terminate(p, p.itemOffset + p.itemLength);
    var text := CStrAt(q.file.value.data, p.itemOffset);
    Reset(SetAttrs(q, WithSize(q.file.value.attrs, conf.readOff(text), conf.offMax)), TimePre1)
  }

  function SizeStep(conf: Config, p: Parser, c: char): Parser
    requires p.file.Some? && p.file.value.data != []
  {
    if p.mode.SizePre? then
      if c == ' ' then p
      else if IsDigit(c) then Begin(p, SizeNumber)
      else Fail(p)
    else if c == ' ' then
      EndSize(conf, p)
    else if IsDigit(c) then p.(itemLength := p.itemLength + 1)
    else Fail(p)
  }

  function TimeStep(p: Parser, c: char): Parser
    requires p.file.Some? && p.file.value.data != []
  {
    var more := p.(itemLength := p.itemLength + 1);
    match p.mode
    case TimePre1 =>
      if c == ' ' then p else if IsAlnum(c) then Begin(p, TimePart1) else Fail(p)
    case TimePart1 =>
      if c == ' ' then SetMode(more, TimePre2) else if IsAlnum(c) || c == '.' then more else Fail(p)
    case TimePre2 =>
      if c == ' ' then more else if IsAlnum(c) then SetMode(more, TimePart2) else Fail(p)
    case TimePart2 =>
      if c == ' ' then SetMode(more, TimePre3) else if IsAlnum(c) || c == '.' then more else Fail(p)
    case TimePre3 =>
      if c == ' ' then more else if IsAlnum(c) then SetMode(more, TimePart3) else Fail(p)
    case _ =>
      if c == ' ' then
        Terminate(more, p.itemOffset + p.itemLength).(
          offs := p.offs.(time := p.itemOffset),
          mode := if p.file.value.attrs.fileType == Symlink then LinkPre else NamePre)
      else if IsAlnum(c) || c == '.' || c == ':' then more
      else Fail(p)
  }

  function FinishName(conf: Config, p: Parser, k: int): Parser
    requires p.file.Some?
  {
    Insert(conf, Terminate(p, k).(offs := p.offs.(filename := p.itemOffset), mode := TypeChar))
  }

  function NameStep(conf: Config, p: Parser, c: char): Parser
    requires p.file.Some? && p.file.value.data != []
  {
    match p.mode
    case NamePre =>
      if c == ' ' then p else Begin(p, NameText)
    case NameText =>
      if c == '\r' then SetMode(p, NameCr)
      else if c == '\n' then FinishName(conf, p.(itemLength := p.itemLength + 1), p.itemOffset + p.itemLength)
      else p.(itemLength := p.itemLength + 1)
    case _ =>
      if c == '\n' then FinishName(conf, p, p.itemOffset + p.itemLength) else Fail(p)
  }

  predicate IsEol(c: char) {
    c == '\r' || c == '\n'
  }

  function FinishTarget(conf: Config, p: Parser, k: int): Parser
    requires p.file.Some?
  {
    Insert(conf, Terminate(p, k).(offs := p.offs.(target := p.itemOffset), mode := TypeChar))
  }

  function TargetTextStep(conf: Config, p: Parser, c: char): Parser
    requires p.file.Some? && p.file.value.data != []
  {
    var more := p.(itemLength := p.itemLength + 1);
    if c == '\r' then SetMode(p, TargetCr)
    else if c == '\n' then FinishTarget(conf, more, p.itemOffset + p.itemLength)
    else more
  }

  function LinkStep(conf: Config, p: Parser, c: char): Parser
    requires p.file.Some? && p.file.value.data != []
  {
    var more := p.(itemLength := p.itemLength + 1);
    match p.mode
    case LinkPre =>
      if c == ' ' then p else Begin(p, LinkName)
    case LinkName =>
      if c == ' ' then SetMode(more, Arrow1) else if IsEol(c) then Fail(p) else more
    case Arrow1 =>
      if c == '-' then SetMode(more, Arrow2) else if IsEol(c) then Fail(p) else SetMode(more, LinkName)
    case Arrow2 =>
      if c == '>' then SetMode(more, Arrow3) else if IsEol(c) then Fail(p) else SetMode(more, LinkName)
    case Arrow3 =>
      if c == ' ' then
        Reset(Terminate(p, p.itemOffset + p.itemLength - 3).(offs := p.offs.(filename := p.itemOffset)), Arrow4)
      else if IsEol(c) then Fail(p)
      else SetMode(more, LinkName)
    case Arrow4 =>
      if IsEol(c) then Fail(p) else Begin(p, TargetText)
    case TargetText =>
      TargetTextStep(conf, p, c)
    case _ =>
      // the byte before the CR is overwritten, not the CR
      if c == '\n' then FinishTarget(conf, p, p.itemOffset + p.itemLength - 1) else Fail(p)
  }

  // ----- Windows NT dialect

  function NtTimeStep(p: Parser, c: char): Parser
    requires p.file.Some? && p.file.value.data != []
  {
    var more := p.(itemLength := p.itemLength + 1);
    match p.mode
    case NtDate =>
      if more.itemLength < 9 then (if InSet("0123456789-", c) then more else Fail(p))
      else if more.itemLength == 9 && c == ' ' then SetMode(more, NtTimePre)
      else Fail(p)
    case NtTimePre =>
      if IsSpace(c) then more else SetMode(more, NtTime)
    case _ =>
      if c == ' ' then
        Terminate(p, p.itemOffset + p.itemLength).(
          offs := p.offs.(time := p.itemOffset), mode := NtSizePre, itemLength := 0)
      else if InSet("APM0123456789:", c) then more
      else Fail(p)
  }

  /** "<DIR>" or a size; None when the text is not a usable number. */
  function NtSizeAttrs(conf: Config, attrs: Attrs, text: string): Option<Attrs> {
    if text == "<DIR>" then Some(attrs.(fileType := Directory, size := 0, knownSize := true))
    else
      var n := conf.readOff(text);
      var extreme := n.value == conf.offMax || n.value == -1 - conf.offMax;
      if !n.atEnd || (extreme && (n.overflow || conf.staleErange)) then None
      else Some(attrs.(fileType := RegularFile, size := n.value, knownSize := true))
  }

  function NtSizeStep(conf: Config, p: Parser, c: char): Parser
    requires p.file.Some? && p.file.value.data != []
  {
    if p.mode.NtSizePre? then
      if c == ' ' then p else Begin(p, NtSizeText)
    else if c == ' ' then
      var q := Terminate(p, p.itemOffset + p.itemLength);
      match NtSizeAttrs(conf, q.file.value.attrs, CStrAt(q.file.value.data, p.itemOffset))
      case None => Fail(p)
      case Some(attrs) => SetAttrs(q, attrs).(itemLength := 0, mode := NtNamePre)
    else p.(itemLength := p.itemLength + 1)
  }

  function NtNameTextStep(conf: Config, p: Parser, c: char): Parser
    requires p.file.Some? && p.file.value.data != []
  {
    var last := |p.file.value.data| - 1;
    var more := p.(itemLength := p.itemLength + 1);
    if c == '\r' then SetMode(Terminate(more, last), NtNameCr)
    else if c == '\n' then
      Insert(conf, Terminate(more, last).(offs := p.offs.(filename := p.itemOffset))).(mode := NtDate)
    else more
  }

  function NtNameStep(conf: Config, p: Parser, c: char): Parser
    requires p.file.Some? && p.file.value.data != []
  {
    match p.mode
    case NtNamePre =>
      if c == ' ' then p else Begin(p, NtNameText)
    case NtNameText =>
      NtNameTextStep(conf, p, c)
    case _ =>
      if c == '\n' then Insert(conf, p.(offs := p.offs.(filename := p.itemOffset))).(mode := NtDate)
      else Fail(p)
  }

  // ----- the step function

  function Dispatch(conf: Config, p: Parser, c: char): Parser
    requires p.file.Some? && p.file.value.data != []
  {
    match p.mode
    case TotalInit => TotalStep(p, c)
    case TotalReading => TotalStep(p, c)
    case TypeChar => TypeStep(p, c)
    case Permission => PermissionStep(p, c)
    case LinksPre => LinksStep(conf, p, c)
    case LinksNumber => LinksStep(conf, p, c)
    case UserPre => UserStep(p, c)
    case UserName => UserStep(p, c)
    case GroupPre => GroupStep(p, c)
    case GroupName => GroupStep(p, c)
    case SizePre => SizeStep(conf, p, c)
    case SizeNumber => SizeStep(conf, p, c)
    case TimePre1 => TimeStep(p, c)
    case TimePart1 => TimeStep(p, c)
    case TimePre2 => TimeStep(p, c)
    case TimePart2 => TimeStep(p, c)
    case TimePre3 => TimeStep(p, c)
    case TimePart3 => TimeStep(p, c)
    case NamePre => NameStep(conf, p, c)
    case NameText => NameStep(conf, p, c)
    case NameCr => NameStep(conf, p, c)
    case NtDate => NtTimeStep(p, c)
    case NtTimePre => NtTimeStep(p, c)
    case NtTime => NtTimeStep(p, c)
    case NtSizePre => NtSizeStep(conf, p, c)
    case NtSizeText => NtSizeStep(conf, p, c)
    case NtNamePre => NtNameStep(conf, p, c)
    case NtNameText => NtNameStep(conf, p, c)
    case NtNameCr => NtNameStep(conf, p, c)
    case _ => LinkStep(conf, p, c)
  }

  /** A line that does not start with 't' is read again from its first byte. */
  predicate Rereads(p: Parser, c: char) {
    p.mode.TotalInit? && c != 't'
  }

  /** One received byte; after an error every further byte is ignored. */
  function Step(conf: Config, p: Parser, c: char): Parser {
    if p.error != Ok then p
    else
      var q := Receive(DetectOs(p, c), c);
      if Rereads(q, c) then
        Dispatch(conf, Receive(SetData(q, []).(mode := TypeChar), c), c)
      else Dispatch(conf, q, c)
  }

  function Fold(conf: Config, p: Parser, text: string): Parser
    decreases |text|
  {
    if text == [] then p else Fold(conf, Step(conf, p, text[0]), text[1..])
  }

  function FoldCalls(conf: Config, p: Parser, calls: seq<string>): Parser
    decreases |calls|
  {
    if calls == [] then p else FoldCalls(conf, Fold(conf, p, calls[0]), calls[1..])
  }

  function Concat(calls: seq<string>): string {
    if calls == [] then [] else calls[0] + Concat(calls[1..])
  }

  lemma {:induction false} FoldAppend(conf: Config, p: Parser, a: string, b: string)
    ensures Fold(conf, p, a + b) == Fold(conf, Fold(conf, p, a), b)
    decreases |a|
  {
    if a == [] {
      assert a + b == b;
    } else {
      assert (a + b)[1..] == a[1..] + b;
      FoldAppend(conf, Step(conf, p, a[0]), a[1..], b);
    }
  }

  /** However the stream is cut into calls, the parser ends in the same state. */
  lemma {:induction false} ChunkingInvariance(conf: Config, p: Parser, calls: seq<string>)
    ensures FoldCalls(conf, p, calls) == Fold(conf, p, Concat(calls))
    decreases |calls|
  {
    if calls != [] {
      FoldAppend(conf, p, calls[0], Concat(calls[1..]));
      ChunkingInvariance(conf, Fold(conf, p, calls[0]), calls[1..]);
    }
  }

  /** An error is sticky: no later byte changes the state. */
  lemma {:induction false} ErrorIsSticky(conf: Config, p: Parser, text: string)
    requires p.error != Ok
    ensures Fold(conf, p, text) == p
    decreases |text|
  {
    if text != [] {
      ErrorIsSticky(conf, p, text[1..]);
    }
  }
}
