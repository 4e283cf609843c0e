/** Lines of any content: which ones are errors. Fields are any texts without
    spaces here, and what each may contain is said by its characters. */
module FtpListErrors {
  import opened CText
  import opened FtpListModel
  import opened FtpListRoundTrip
  import opened FtpListTheorems
  import Listing = FtpListListing
  import Nt = FtpListNt

  // ----- UNIX lines

  /** A field with the spaces in front of it. */
  datatype Gapped = Gapped(gap: nat, word: string)

  /** A line up to its name: type letter, nine bytes of permissions and what is
      behind them, then links, user, group, size and the three words of the time. */
  datatype RawHead = RawHead(letter: char, perms: string, behind: char, fields: seq<Gapped>)

  predicate Digit(c: char) {
    '0' <= c <= '9'
  }

  predicate LetterOrDigit(c: char) {
    '0' <= c <= '9' || 'A' <= c <= 'Z' || 'a' <= c <= 'z'
  }

  /** What may stand first in the k-th field, and what further on. */
  predicate FirstOk(k: nat, c: char) {
    if k == 0 || k == 3 then Digit(c)
    else if k <= 2 then true
    else LetterOrDigit(c)
  }

  predicate LaterOk(k: nat, c: char) {
    if k == 0 || k == 3 then Digit(c)
    else if k <= 2 then true
    else LetterOrDigit(c) || c == '.' || (k == 6 && c == ':')
  }

  predicate WordOk(k: nat, word: string) {
    word != "" && FirstOk(k, word[0]) && forall i :: 1 <= i < |word| ==> LaterOk(k, word[i])
  }

  predicate PermsOk(perms: string) {
    && |perms| == 9
    && (perms[0] == 'r' || perms[0] == '-') && (perms[1] == 'w' || perms[1] == '-')
    && (perms[2] == 'x' || perms[2] == 's' || perms[2] == 'S' || perms[2] == '-')
    && (perms[3] == 'r' || perms[3] == '-') && (perms[4] == 'w' || perms[4] == '-')
    && (perms[5] == 'x' || perms[5] == 's' || perms[5] == 'S' || perms[5] == '-')
    && (perms[6] == 'r' || perms[6] == '-') && (perms[7] == 'w' || perms[7] == '-')
    && (perms[8] == 'x' || perms[8] == 't' || perms[8] == 'T' || perms[8] == '-')
  }

  predicate LetterOk(c: char) {
    c == '-' || c == 'd' || c == 'l' || c == 'p' || c == 's' || c == 'c' || c == 'b' || c == 'D'
  }

  predicate HeadOk(h: RawHead) {
    LetterOk(h.letter) && PermsOk(h.perms) && h.behind == ' ' && FieldsOk(h.fields, 0)
  }

  predicate FieldsOk(fields: seq<Gapped>, k: nat) {
    forall i :: 0 <= i < |fields| ==> WordOk(k + i, fields[i].word)
  }

  /** No field is empty or contains a space. */
  predicate IsRaw(h: RawHead) {
    |h.perms| == 9 && |h.fields| == 7 && AllWords(h.fields)
  }

  predicate AllWords(fields: seq<Gapped>) {
    forall i :: 0 <= i < |fields| ==> NoSpace(fields[i].word)
  }

  predicate NoSpace(word: string) {
    word != "" && forall i :: 0 <= i < |word| ==> word[i] != ' '
  }

  function FieldText(f: Gapped): string {
    Spaces(f.gap) + f.word + [' ']
  }

  function FieldsText(fields: seq<Gapped>): string {
    if fields == [] then "" else FieldText(fields[0]) + FieldsText(fields[1..])
  }

  function HeadText(h: RawHead): string {
    [h.letter] + (h.perms + [h.behind] + FieldsText(h.fields))
  }

  /** Where the parser is, and the type it has read. */
  predicate At(p: Parser, mode: Mode, t: FileType) {
    Reading(p) && p.mode == mode && p.file.value.attrs.fileType == t
  }

  /** In front of the k-th field, and inside it. */
  function Before(k: nat, t: FileType): Mode {
    if k == 0 then LinksPre
    else if k == 1 then UserPre
    else if k == 2 then GroupPre
    else if k == 3 then SizePre
    else if k == 4 then TimePre1
    else if k == 5 then TimePre2
    else if k == 6 then TimePre3
    else if t == Symlink then LinkPre
    else NamePre
  }

  function Inside(k: nat): Mode
    requires k < 7
  {
    if k == 0 then LinksNumber
    else if k == 1 then UserName
    else if k == 2 then GroupName
    else if k == 3 then SizeNumber
    else if k == 4 then TimePart1
    else if k == 5 then TimePart2
    else TimePart3
  }

  lemma SpaceBefore(conf: Config, p: Parser, k: nat, t: FileType)
    requires k < 7 && At(p, Before(k, t), t)
    ensures At(Step(conf, p, ' '), Before(k, t), t)
  {
    StepIsDispatch(conf, p, ' ');
  }

  lemma FirstOfWord(conf: Config, p: Parser, k: nat, t: FileType, c: char)
    requires k < 7 && At(p, Before(k, t), t) && c != ' '
    ensures if FirstOk(k, c) then At(Step(conf, p, c), Inside(k), t) else Step(conf, p, c).error != Ok
  {
    StepIsDispatch(conf, p, c);
  }

  lemma LaterInWord(conf: Config, p: Parser, k: nat, t: FileType, c: char)
    requires k < 7 && At(p, Inside(k), t) && c != ' '
    ensures if LaterOk(k, c) then At(Step(conf, p, c), Inside(k), t) else Step(conf, p, c).error != Ok
  {
    StepIsDispatch(conf, p, c);
  }

  lemma SpaceBehind(conf: Config, p: Parser, k: nat, t: FileType)
    requires k < 7 && At(p, Inside(k), t)
    ensures At(Step(conf, p, ' '), Before(k + 1, t), t)
  {
    StepIsDispatch(conf, p, ' ');
  }

  lemma {:induction false} GapBefore(conf: Config, p: Parser, k: nat, t: FileType, n: nat)
    requires k < 7 && At(p, Before(k, t), t)
    ensures At(Fold(conf, p, Spaces(n)), Before(k, t), t)
    decreases n
  {
    if n > 0 {
      SpaceBefore(conf, p, k, t);
      GapBefore(conf, Step(conf, p, ' '), k, t, n - 1);
      assert Spaces(n)[1..] == Spaces(n - 1);
    }
  }

  lemma {:induction false} RestOfWord(conf: Config, p: Parser, k: nat, t: FileType, text: string)
    requires k < 7 && At(p, Inside(k), t) && forall i :: 0 <= i < |text| ==> text[i] != ' '
    ensures var q := Fold(conf, p, text);
            if forall i :: 0 <= i < |text| ==> LaterOk(k, text[i]) then At(q, Inside(k), t) else q.error != Ok
    decreases |text|
  {
    if text != "" {
      LaterInWord(conf, p, k, t, text[0]);
      var q := Step(conf, p, text[0]);
      assert (forall i :: 0 <= i < |text| ==> LaterOk(k, text[i])) <==>
             LaterOk(k, text[0]) && forall i :: 0 <= i < |text[1..]| ==> LaterOk(k, text[1..][i]) by {
        assert forall i :: 1 <= i < |text| ==> text[i] == text[1..][i - 1];
      }
      if LaterOk(k, text[0]) {
        RestOfWord(conf, q, k, t, text[1..]);
      } else {
        ErrorIsSticky(conf, q, text[1..]);
      }
    }
  }

  lemma WholeWord(conf: Config, p: Parser, k: nat, t: FileType, word: string)
    requires k < 7 && At(p, Before(k, t), t) && NoSpace(word)
    ensures var q := Fold(conf, p, word); if WordOk(k, word) then At(q, Inside(k), t) else q.error != Ok
  {
    FirstOfWord(conf, p, k, t, word[0]);
    var q, rest := Step(conf, p, word[0]), word[1..];
    assert (forall i :: 1 <= i < |word| ==> LaterOk(k, word[i])) <==> forall i :: 0 <= i < |rest| ==> LaterOk(k, rest[i]) by {
      assert forall i :: 1 <= i < |word| ==> word[i] == rest[i - 1];
      assert forall i :: 0 <= i < |rest| ==> rest[i] == word[i + 1];
    }
    if FirstOk(k, word[0]) {
      RestOfWord(conf, q, k, t, rest);
    } else {
      ErrorIsSticky(conf, q, rest);
    }
  }

  /** One field: an error exactly if a character of it does not belong there. */
  lemma FieldExactly(conf: Config, p: Parser, k: nat, t: FileType, f: Gapped)
    requires k < 7 && At(p, Before(k, t), t) && NoSpace(f.word)
    ensures var q := Fold(conf, p, FieldText(f));
            if WordOk(k, f.word) then At(q, Before(k + 1, t), t) else q.error != Ok
  {
    GapBefore(conf, p, k, t, f.gap);
    var a := Fold(conf, p, Spaces(f.gap));
    WholeWord(conf, a, k, t, f.word);
    var b := Fold(conf, a, f.word);
    FoldAppend(conf, p, Spaces(f.gap), f.word);
    FoldAppend(conf, p, Spaces(f.gap) + f.word, [' ']);
    FoldOne(conf, b, ' ');
    if WordOk(k, f.word) {
      SpaceBehind(conf, b, k, t);
    } else {
      ErrorIsSticky(conf, b, [' ']);
    }
  }

  lemma FieldThen(conf: Config, p: Parser, k: nat, t: FileType, f: Gapped, rest: string) returns (q: Parser)
    requires k < 7 && At(p, Before(k, t), t) && NoSpace(f.word)
    ensures Fold(conf, p, FieldText(f) + rest) == Fold(conf, q, rest)
    ensures if WordOk(k, f.word) then At(q, Before(k + 1, t), t) else q.error != Ok
  {
    FieldExactly(conf, p, k, t, f);
    q := Fold(conf, p, FieldText(f));
    FoldAppend(conf, p, FieldText(f), rest);
  }

  lemma {:induction false} FieldsExactly(conf: Config, p: Parser, k: nat, t: FileType, fields: seq<Gapped>)
    requires k + |fields| == 7 && At(p, Before(k, t), t) && AllWords(fields)
    ensures var q := Fold(conf, p, FieldsText(fields));
            if FieldsOk(fields, k) then At(q, Before(7, t), t) else q.error != Ok
    decreases |fields|
  {
    if fields != [] {
      var more := fields[1..];
      var q := FieldThen(conf, p, k, t, fields[0], FieldsText(more));
      FieldsFromHead(fields, k);
      if WordOk(k, fields[0].word) {
        FieldsExactly(conf, q, k + 1, t, more);
      } else {
        ErrorIsSticky(conf, q, FieldsText(more));
      }
    }
  }

  lemma FieldsFromHead(fields: seq<Gapped>, k: nat)
    requires fields != []
    ensures FieldsOk(fields, k) <==> WordOk(k, fields[0].word) && FieldsOk(fields[1..], k + 1)
    ensures AllWords(fields) ==> AllWords(fields[1..])
  {
    assert forall i :: 1 <= i < |fields| ==> fields[i] == fields[1..][i - 1];
    assert forall i :: 0 <= i < |fields[1..]| ==> fields[1..][i] == fields[i + 1];
  }

  // ----- type and permissions

  predicate InPerms(p: Parser, letter: char, text: string) {
    Reading(p) && p.mode.Permission? && p.itemOffset == 1 && p.itemLength == |text| && Data(p) == [letter] + text
  }

  lemma {:induction false} PermLetters(conf: Config, p: Parser, letter: char, done: string, text: string)
    requires InPerms(p, letter, done) && |done| + |text| <= 9
    ensures var q := Fold(conf, p, text);
            if forall i :: 0 <= i < |text| ==> InSet("rwx-tTsS", text[i])
            then InPerms(q, letter, done + text) && q.file.value.attrs.fileType == p.file.value.attrs.fileType
            else q.error != Ok
    decreases |text|
  {
    if text == "" {
      assert done + text == done;
    } else {
      StepIsDispatch(conf, p, text[0]);
      var q := Step(conf, p, text[0]);
      if InSet("rwx-tTsS", text[0]) {
        assert [letter] + done + [text[0]] == [letter] + (done + [text[0]]);
        PermLetters(conf, q, letter, done + [text[0]], text[1..]);
        assert done + [text[0]] + text[1..] == done + text;
      } else {
        ErrorIsSticky(conf, q, text[1..]);
      }
    }
  }

  lemma PermsAreBits(perms: string)
    requires |perms| == 9
    ensures PermissionBits(perms + [NUL]).Some? <==> PermsOk(perms)
    ensures PermsOk(perms) ==> forall i :: 0 <= i < 9 ==> InSet("rwx-tTsS", perms[i])
  {
  }

  lemma BehindPerms(conf: Config, p: Parser, letter: char, perms: string, behind: char, t: FileType)
    requires InPerms(p, letter, perms) && |perms| == 9 && p.file.value.attrs.fileType == t
    ensures var q := Step(conf, p, behind);
            if PermsOk(perms) && behind == ' ' then At(q, LinksPre, t) else q.error != Ok
  {
    StepIsDispatch(conf, p, behind);
    PermsAreBits(perms);
    NulLast(Data(p), behind);
    assert ([letter] + perms + [NUL])[1..] == perms + [NUL];
  }

  lemma PermsExactly(conf: Config, p: Parser, letter: char, perms: string, behind: char, t: FileType)
    requires InPerms(p, letter, "") && |perms| == 9 && p.file.value.attrs.fileType == t
    ensures var q := Fold(conf, p, perms + [behind]);
            if PermsOk(perms) && behind == ' ' then At(q, LinksPre, t) else q.error != Ok
  {
    PermLetters(conf, p, letter, "", perms);
    assert "" + perms == perms;
    var q := Fold(conf, p, perms);
    FoldAppend(conf, p, perms, [behind]);
    FoldOne(conf, q, behind);
    PermsAreBits(perms);
    if forall i :: 0 <= i < 9 ==> InSet("rwx-tTsS", perms[i]) {
      BehindPerms(conf, q, letter, perms, behind, t);
    } else {
      ErrorIsSticky(conf, q, [behind]);
    }
  }

  lemma LetterExactly(conf: Config, p: Parser, c: char)
    requires LineStart(p)
    ensures var q := Step(conf, p, c);
            if LetterOk(c) then InPerms(q, c, "") && (q.file.value.attrs.fileType == Symlink <==> c == 'l') else q.error != Ok
  {
    assert [c] + "" == [c] && "" + [c] == [c];
  }

  /** A line up to its name: an error exactly if something does not belong there. */
  lemma HeadExactly(conf: Config, p: Parser, h: RawHead)
    requires LineStart(p) && IsRaw(h)
    ensures var q := Fold(conf, p, HeadText(h));
            if HeadOk(h) then Reading(q) && q.mode == (if h.letter == 'l' then LinkPre else NamePre) else q.error != Ok
  {
    LetterExactly(conf, p, h.letter);
    var a, rest := Step(conf, p, h.letter), h.perms + [h.behind];
    OneThen(conf, p, h.letter, a, rest + FieldsText(h.fields), Fold(conf, a, rest + FieldsText(h.fields)));
    if LetterOk(h.letter) {
      var t := a.file.value.attrs.fileType;
      PermsExactly(conf, a, h.letter, h.perms, h.behind, t);
      FoldAppend(conf, a, rest, FieldsText(h.fields));
      var b := Fold(conf, a, rest);
      if PermsOk(h.perms) && h.behind == ' ' {
        FieldsExactly(conf, b, 0, t, h.fields);
      } else {
        ErrorIsSticky(conf, b, FieldsText(h.fields));
      }
    } else {
      ErrorIsSticky(conf, a, rest + FieldsText(h.fields));
    }
  }

  // ----- names and targets

  /** A text in front of a line feed: a carriage return may only be its last byte. */
  predicate TextOk(text: string) {
    forall i :: 0 <= i < |text| - 1 ==> text[i] != '\r'
  }

  /** Inside a name or a target, behind a carriage return in it, and between two
      lines. */
  predicate InText(p: Parser) {
    (Reading(p) && (p.mode.NameText? || p.mode.TargetText?)) || (Nt.InEntry(p) && p.mode.NtNameText?)
  }

  predicate BehindReturn(p: Parser) {
    (Reading(p) && (p.mode.NameCr? || p.mode.TargetCr?)) || (Nt.InEntry(p) && p.mode.NtNameCr?)
  }

  predicate Between(p: Parser, os: OsType) {
    if os == OsUnix then LineStart(p) else NtBetween(p)
  }

  lemma StepOfEither(conf: Config, p: Parser, c: char)
    requires Reading(p) || Nt.InEntry(p)
    ensures Step(conf, p, c) == Dispatch(conf, SetData(p, Data(p) + [c]), c)
  {
    if Reading(p) {
      StepIsDispatch(conf, p, c);
    } else {
      Nt.StepIs(conf, p, c);
    }
  }

  lemma StepInText(conf: Config, p: Parser, c: char)
    requires InText(p)
    ensures var q := Step(conf, p, c);
            && q.os == p.os
            && (c == '\r' ==> BehindReturn(q)) && (c == '\n' ==> Between(q, p.os)) && (c != '\r' && c != '\n' ==> InText(q))
  {
    StepOfEither(conf, p, c);
  }

  lemma StepBehindReturn(conf: Config, p: Parser, c: char)
    requires BehindReturn(p)
    ensures var q := Step(conf, p, c); if c == '\n' then Between(q, p.os) else q.error != Ok
  {
    StepOfEither(conf, p, c);
  }

  /** A name or a target: an error exactly if it has a carriage return that is not
      in front of the line feed. */
  lemma {:induction false} TextExactly(conf: Config, p: Parser, text: string)
    requires InText(p) && forall i :: 0 <= i < |text| ==> text[i] != '\n'
    ensures var q := Fold(conf, p, text + ['\n']); if TextOk(text) then Between(q, p.os) else q.error != Ok
    decreases |text|
  {
    if text == "" {
      StepInText(conf, p, '\n');
      FoldOne(conf, p, '\n');
      assert text + ['\n'] == ['\n'];
    } else {
      var c, rest := text[0], text[1..];
      StepInText(conf, p, c);
      var q := Step(conf, p, c);
      assert text + ['\n'] == [c] + (rest + ['\n']);
      OneThen(conf, p, c, q, rest + ['\n'], Fold(conf, q, rest + ['\n']));
      TextFromHead(text);
      if c == '\r' {
        BehindCr(conf, q, rest);
      } else {
        TextExactly(conf, q, rest);
      }
    }
  }

  lemma TextFromHead(text: string)
    requires text != ""
    ensures TextOk(text) <==> (text[0] == '\r' ==> |text| == 1) && TextOk(text[1..])
  {
    assert forall i :: 1 <= i < |text| ==> text[i] == text[1..][i - 1];
    assert forall i :: 0 <= i < |text[1..]| ==> text[1..][i] == text[i + 1];
  }

  lemma BehindCr(conf: Config, p: Parser, rest: string)
    requires BehindReturn(p) && forall i :: 0 <= i < |rest| ==> rest[i] != '\n'
    ensures var q := Fold(conf, p, rest + ['\n']); if rest == "" then Between(q, p.os) else q.error != Ok
  {
    var c := (rest + ['\n'])[0];
    StepBehindReturn(conf, p, c);
    var q := Step(conf, p, c);
    if rest == "" {
      FoldOne(conf, p, '\n');
      assert rest + ['\n'] == ['\n'];
    } else {
      assert rest + ['\n'] == [c] + (rest[1..] + ['\n']);
      ErrorIsSticky(conf, q, rest[1..] + ['\n']);
      OneThen(conf, p, c, q, rest[1..] + ['\n'], q);
    }
  }

  // ----- links

  /** What is behind the arrow, when k of its four bytes have been seen: a byte that
      differs starts it over, and a carriage return ends the search. */
  function BehindArrow(k: nat, text: string): Option<string>
    requires k < 4
    decreases |text|
  {
    if text == "" then None
    else if text[0] == " -> "[k] then (if k == 3 then Some(text[1..]) else BehindArrow(k + 1, text[1..]))
    else if text[0] == '\r' then None
    else BehindArrow(0, text[1..])
  }

  /** The rest of a link's line behind the first byte of its name: an arrow, and a
      target that does not start with a carriage return. */
  predicate LinkOk(text: string) {
    var target := BehindArrow(0, text);
    target.Some? && TargetOk(target.value)
  }

  predicate TargetOk(target: string) {
    target != "" && target[0] != '\r' && TextOk(target[1..])
  }

  predicate Seen(p: Parser, k: nat) {
    && Reading(p)
    && (if k == 0 then p.mode.LinkName?
        else if k == 1 then p.mode.Arrow1?
        else if k == 2 then p.mode.Arrow2?
        else if k == 3 then p.mode.Arrow3?
        else p.mode.Arrow4?)
  }

  lemma StepInLink(conf: Config, p: Parser, k: nat, c: char)
    requires k < 4 && Seen(p, k)
    ensures var q := Step(conf, p, c);
            if c == " -> "[k] then Seen(q, k + 1) else if c == '\r' || c == '\n' then q.error != Ok else Seen(q, 0)
  {
    StepIsDispatch(conf, p, c);
  }

  lemma TargetExactly(conf: Config, p: Parser, target: string)
    requires Seen(p, 4) && forall i :: 0 <= i < |target| ==> target[i] != '\n'
    ensures var q := Fold(conf, p, target + ['\n']); if TargetOk(target) then LineStart(q) else q.error != Ok
  {
    var c, rest := (target + ['\n'])[0], if target == "" then "" else target[1..] + ['\n'];
    assert target + ['\n'] == [c] + rest;
    StepIsDispatch(conf, p, c);
    var q := Step(conf, p, c);
    OneThen(conf, p, c, q, rest, Fold(conf, q, rest));
    if c == '\r' || c == '\n' {
      ErrorIsSticky(conf, q, rest);
    } else {
      TextExactly(conf, q, target[1..]);
    }
  }

  lemma {:induction false} LinkExactly(conf: Config, p: Parser, k: nat, text: string)
    requires k < 4 && Seen(p, k) && forall i :: 0 <= i < |text| ==> text[i] != '\n'
    ensures var q, target := Fold(conf, p, text + ['\n']), BehindArrow(k, text);
            if target.Some? && TargetOk(target.value) then LineStart(q) else q.error != Ok
    decreases |text|
  {
    if text == "" {
      StepInLink(conf, p, k, '\n');
      FoldOne(conf, p, '\n');
      assert text + ['\n'] == ['\n'];
    } else {
      var c, rest := text[0], text[1..];
      StepInLink(conf, p, k, c);
      var q := Step(conf, p, c);
      assert text + ['\n'] == [c] + (rest + ['\n']);
      OneThen(conf, p, c, q, rest + ['\n'], Fold(conf, q, rest + ['\n']));
      if c == " -> "[k] {
        if k == 3 {
          TargetExactly(conf, q, rest);
        } else {
          LinkExactly(conf, q, k + 1, rest);
        }
      } else if c == '\r' {
        ErrorIsSticky(conf, q, rest + ['\n']);
      } else {
        LinkExactly(conf, q, 0, rest);
      }
    }
  }

  // ----- lines

  /** A whole line; `first` is the first byte of its name. */
  datatype RawLine = RawLine(head: RawHead, gap: nat, first: char, more: string)

  predicate LineIsRaw(l: RawLine) {
    IsRaw(l.head) && l.first != ' ' && forall i :: 0 <= i < |l.more| ==> l.more[i] != '\n'
  }

  predicate LineOk(l: RawLine) {
    HeadOk(l.head) && if l.head.letter == 'l' then LinkOk(l.more) else TextOk(l.more)
  }

  function NameAndEnd(l: RawLine): string {
    Spaces(l.gap) + [l.first] + (l.more + ['\n'])
  }

  function LineText(l: RawLine): string {
    HeadText(l.head) + NameAndEnd(l)
  }

  function LinesText(lines: seq<RawLine>): string {
    if lines == [] then "" else LineText(lines[0]) + LinesText(lines[1..])
  }

  lemma NameStarts(conf: Config, p: Parser, gap: nat, first: char)
    requires Reading(p) && (p.mode.NamePre? || p.mode.LinkPre?) && first != ' '
    ensures var q := Fold(conf, p, Spaces(gap) + [first]); Reading(q) && if p.mode.LinkPre? then q.mode.LinkName? else q.mode.NameText?
  {
    SkipGap(conf, p, gap);
    var q := SetData(p, Data(p) + Spaces(gap));
    StepIsDispatch(conf, q, first);
    ThenOne(conf, p, Spaces(gap), q, first, Step(conf, q, first));
  }

  lemma LineExactly(conf: Config, p: Parser, l: RawLine)
    requires LineStart(p) && LineIsRaw(l)
    ensures var q := Fold(conf, p, LineText(l)); if LineOk(l) then LineStart(q) else q.error != Ok
  {
    HeadExactly(conf, p, l.head);
    var a := Fold(conf, p, HeadText(l.head));
    FoldAppend(conf, p, HeadText(l.head), NameAndEnd(l));
    if HeadOk(l.head) {
      RestExactly(conf, a, l);
    } else {
      ErrorIsSticky(conf, a, NameAndEnd(l));
    }
  }

  lemma RestExactly(conf: Config, p: Parser, l: RawLine)
    requires Reading(p) && p.mode == (if l.head.letter == 'l' then LinkPre else NamePre) && LineIsRaw(l)
    ensures var q := Fold(conf, p, NameAndEnd(l));
            if (if l.head.letter == 'l' then LinkOk(l.more) else TextOk(l.more)) then LineStart(q) else q.error != Ok
  {
    NameStarts(conf, p, l.gap, l.first);
    var q := Fold(conf, p, Spaces(l.gap) + [l.first]);
    FoldAppend(conf, p, Spaces(l.gap) + [l.first], l.more + ['\n']);
    if l.head.letter == 'l' {
      LinkExactly(conf, q, 0, l.more);
    } else {
      TextExactly(conf, q, l.more);
    }
  }

  /** Lines of any content, at any point between two lines: the parser goes on if
      and only if each line has the form of the format. */
  lemma {:induction false} LinesExactly(conf: Config, p: Parser, lines: seq<RawLine>)
    requires LineStart(p) && forall i :: 0 <= i < |lines| ==> LineIsRaw(lines[i])
    ensures var q := Fold(conf, p, LinesText(lines));
            if forall i :: 0 <= i < |lines| ==> LineOk(lines[i]) then LineStart(q) else q.error != Ok
    decreases |lines|
  {
    if lines != [] {
      var more := lines[1..];
      LineExactly(conf, p, lines[0]);
      var q := Fold(conf, p, LineText(lines[0]));
      FoldAppend(conf, p, LineText(lines[0]), LinesText(more));
      AllFromHead(lines);
      if LineOk(lines[0]) {
        LinesExactly(conf, q, more);
      } else {
        ErrorIsSticky(conf, q, LinesText(more));
      }
    }
  }

  lemma AllFromHead(lines: seq<RawLine>)
    requires lines != []
    ensures (forall i :: 0 <= i < |lines| ==> LineOk(lines[i])) <==>
            LineOk(lines[0]) && forall i :: 0 <= i < |lines[1..]| ==> LineOk(lines[1..][i])
  {
    assert forall i :: 1 <= i < |lines| ==> lines[i] == lines[1..][i - 1];
    assert forall i :: 0 <= i < |lines[1..]| ==> lines[1..][i] == lines[i + 1];
  }

  /** The same from the first byte on, unless that is a digit or the 't' of a
      "total" line. */
  lemma EveryUnixText(conf: Config, lines: seq<RawLine>)
    requires lines != [] && (forall i :: 0 <= i < |lines| ==> LineIsRaw(lines[i]))
    requires lines[0].head.letter != 't' && !('0' <= lines[0].head.letter <= '9')
    ensures Fold(conf, START, LinesText(lines)).error == Ok <==> forall i :: 0 <= i < |lines| ==> LineOk(lines[i])
  {
    var p, text := START.(os := OsUnix, mode := TypeChar), LinesText(lines);
    assert text[0] == lines[0].head.letter;
    FirstByte(conf, text);
    LinesExactly(conf, p, lines);
  }

  lemma FirstByte(conf: Config, text: string)
    requires text != "" && text[0] != 't' && !('0' <= text[0] <= '9')
    ensures Fold(conf, START, text) == Fold(conf, START.(os := OsUnix, mode := TypeChar), text)
  {
    var c := text[0];
    assert [] + [c] == [c];
  }

  // ----- the first line

  predicate TotalIs(text: string, spaces: string, digits: string) {
    && text == "total " + spaces + digits
    && (forall i :: 0 <= i < |spaces| ==> spaces[i] == ' ' || '\t' <= spaces[i] <= '\r')
    && forall i :: 0 <= i < |digits| ==> Digit(digits[i])
  }

  /** "total ", white space and digits, of which none need be there. */
  ghost predicate IsTotal(text: string) {
    exists spaces, digits :: TotalIs(text, spaces, digits)
  }

  lemma {:induction false} CStrEnds(text: string)
    ensures var s, data := CStr(text), text + [NUL]; |s| <= |text| && data[..|s|] == s && data[|s|] == NUL && NoNul(s)
    decreases |text|
  {
    if text != "" && text[0] != NUL {
      CStrEnds(text[1..]);
    }
  }

  lemma SkipsThem(data: string, i: nat, j: nat)
    requires 6 <= i <= j < |data| && data[j] == NUL
    requires (forall k :: 6 <= k < i ==> data[k] == ' ' || '\t' <= data[k] <= '\r') && forall k :: i <= k < j ==> Digit(data[k])
    ensures SkipSpaces(data, 6) == i && SkipDigits(data, i) == j
  {
  }

  lemma OkIsTotal(text: string)
    requires TotalLineOk(text + [NUL])
    ensures IsTotal(CStr(text))
  {
    var s, data := CStr(text), text + [NUL];
    CStrEnds(text);
    var i := SkipSpaces(data, 6);
    var j := SkipDigits(data, i);
    assert data[..6] == "total ";
    assert forall k :: 0 <= k < 6 ==> data[k] == "total "[k] && data[k] != NUL;
    assert forall k :: 0 <= k < |s| ==> data[k] == s[k] && s[k] != NUL;
    assert j == |s|;
    assert s == "total " + data[6..i] + data[i..j];
    assert TotalIs(s, data[6..i], data[i..j]);
  }

  lemma TotalIsOk(text: string, spaces: string, digits: string)
    requires TotalIs(CStr(text), spaces, digits)
    ensures TotalLineOk(text + [NUL])
  {
    var s, data := CStr(text), text + [NUL];
    CStrEnds(text);
    SplitTotal(s, spaces, digits);
    assert data[..6] == s[..6];
    SkipsThem(data, 6 + |spaces|, |s|);
  }

  lemma TotalTextExactly(text: string)
    ensures TotalLineOk(text + [NUL]) <==> IsTotal(CStr(text))
  {
    if TotalLineOk(text + [NUL]) {
      OkIsTotal(text);
    }
    if IsTotal(CStr(text)) {
      var spaces, digits :| TotalIs(CStr(text), spaces, digits);
      TotalIsOk(text, spaces, digits);
    }
  }

  lemma SplitTotal(s: string, spaces: string, digits: string)
    requires s == "total " + spaces + digits
    ensures |s| == 6 + |spaces| + |digits| && s[..6] == "total "
    ensures forall k :: 6 <= k < 6 + |spaces| ==> s[k] == spaces[k - 6]
    ensures forall k :: 6 + |spaces| <= k < |s| ==> s[k] == digits[k - 6 - |spaces|]
  {
  }

  /** A first line that starts with 't': an error unless it is a total. */
  lemma TotalExactly(conf: Config, text: string)
    requires text != "" && text[0] == 't' && NoEol(text)
    ensures var q := Fold(conf, START, text + ['\n']); if IsTotal(CStr(text)) then LineStart(q) else q.error != Ok
  {
    var p := Step(conf, START, 't');
    Listing.StartTotal(conf);
    Listing.ReadTotalText(conf, p, "t", text[1..]);
    assert "t" + text[1..] == text && ['t'] + text[1..] == text;
    var q := Fold(conf, p, text[1..]);
    OneThen(conf, START, 't', p, text[1..], q);
    TotalTextExactly(text);
    StepIsDispatch(conf, q, '\n');
    NulLast(text, '\n');
    ThenOne(conf, START, text, q, '\n', Step(conf, q, '\n'));
  }

  // ----- Windows NT lines

  /** Eight bytes of any content for the date, and any word for the time. */
  predicate NtIsRaw(e: Nt.NtEntry) {
    && |e.date| == 8 && Word(e.size)
    && e.name != "" && e.name[0] != ' ' && (forall i :: 1 <= i < |e.name| ==> e.name[i] != '\n')
    && e.time != "" && !('\t' <= e.time[0] <= '\r') && forall i :: 0 <= i < |e.time| ==> e.time[i] != ' '
  }

  predicate DateChar(c: char) {
    '0' <= c <= '9' || c == '-' || c == '\0'
  }

  /** The first byte of the time is not looked at. */
  predicate TimeChar(c: char) {
    '0' <= c <= '9' || c == ':' || c == 'A' || c == 'P' || c == 'M' || c == '\0'
  }

  predicate NtHeadOk(e: Nt.NtEntry) {
    (forall i :: 0 <= i < |e.date| ==> DateChar(e.date[i])) && forall i :: 1 <= i < |e.time| ==> TimeChar(e.time[i])
  }

  predicate NtBetween(p: Parser) {
    p.error == Ok && p.os == OsWinNt && p.mode.NtDate? && p.file.None?
  }

  predicate NtAt(p: Parser, mode: Mode) {
    Nt.InEntry(p) && p.mode == mode
  }

  lemma {:induction false} DateRun(conf: Config, p: Parser, text: string)
    requires NtAt(p, NtDate) && p.itemLength + |text| <= 8
    ensures var q := Fold(conf, p, text);
            if forall i :: 0 <= i < |text| ==> DateChar(text[i]) then NtAt(q, NtDate) && q.itemLength == p.itemLength + |text|
            else q.error != Ok
    decreases |text|
  {
    if text != "" {
      Nt.StepIs(conf, p, text[0]);
      var q := Step(conf, p, text[0]);
      AllCharsFromHead(text, DateChar);
      if DateChar(text[0]) {
        DateRun(conf, q, text[1..]);
      } else {
        ErrorIsSticky(conf, q, text[1..]);
      }
    }
  }

  lemma AllCharsFromHead(text: string, ok: char -> bool)
    requires text != ""
    ensures (forall i :: 0 <= i < |text| ==> ok(text[i])) <==> ok(text[0]) && forall i :: 0 <= i < |text[1..]| ==> ok(text[1..][i])
    ensures (forall i :: 1 <= i < |text| ==> ok(text[i])) <==> forall i :: 0 <= i < |text[1..]| ==> ok(text[1..][i])
  {
    assert forall i :: 1 <= i < |text| ==> text[i] == text[1..][i - 1];
    assert forall i :: 0 <= i < |text[1..]| ==> text[1..][i] == text[i + 1];
  }

  lemma DateBegins(conf: Config, p: Parser, c: char)
    requires NtBetween(p)
    ensures var q := Step(conf, p, c); if DateChar(c) then NtAt(q, NtDate) && q.itemLength == 1 else q.error != Ok
  {
  }

  lemma DateExactly(conf: Config, p: Parser, date: string)
    requires NtBetween(p) && |date| == 8
    ensures var q := Fold(conf, p, date + [' ']);
            if forall i :: 0 <= i < |date| ==> DateChar(date[i]) then NtAt(q, NtTimePre) else q.error != Ok
  {
    var q, rest := Step(conf, p, date[0]), date[1..];
    DateBegins(conf, p, date[0]);
    AllCharsFromHead(date, DateChar);
    assert date + [' '] == [date[0]] + (rest + [' ']);
    FoldAppend(conf, q, rest, [' ']);
    OneThen(conf, p, date[0], q, rest + [' '], Fold(conf, q, rest + [' ']));
    if DateChar(date[0]) {
      DateRun(conf, q, rest);
      EndDate(conf, Fold(conf, q, rest));
    } else {
      ErrorIsSticky(conf, q, rest + [' ']);
    }
  }

  lemma EndDate(conf: Config, p: Parser)
    ensures NtAt(p, NtDate) && p.itemLength == 8 ==> NtAt(Fold(conf, p, [' ']), NtTimePre)
    ensures p.error != Ok ==> Fold(conf, p, [' ']).error != Ok
  {
    FoldOne(conf, p, ' ');
    if NtAt(p, NtDate) {
      Nt.StepIs(conf, p, ' ');
    }
  }

  lemma {:induction false} TimeRun(conf: Config, p: Parser, text: string)
    requires NtAt(p, NtTime) && forall i :: 0 <= i < |text| ==> text[i] != ' '
    ensures var q := Fold(conf, p, text);
            if forall i :: 0 <= i < |text| ==> TimeChar(text[i]) then NtAt(q, NtTime) else q.error != Ok
    decreases |text|
  {
    if text != "" {
      Nt.StepIs(conf, p, text[0]);
      var q := Step(conf, p, text[0]);
      AllCharsFromHead(text, TimeChar);
      if TimeChar(text[0]) {
        TimeRun(conf, q, text[1..]);
      } else {
        ErrorIsSticky(conf, q, text[1..]);
      }
    }
  }

  lemma {:induction false} GapBeforeTime(conf: Config, p: Parser, n: nat)
    requires NtAt(p, NtTimePre)
    ensures NtAt(Fold(conf, p, Spaces(n)), NtTimePre)
    decreases n
  {
    if n > 0 {
      Nt.StepIs(conf, p, ' ');
      GapBeforeTime(conf, Step(conf, p, ' '), n - 1);
      assert Spaces(n)[1..] == Spaces(n - 1);
    }
  }

  lemma TimeExactly(conf: Config, p: Parser, time: string)
    requires NtAt(p, NtTimePre) && time != "" && !('\t' <= time[0] <= '\r') && forall i :: 0 <= i < |time| ==> time[i] != ' '
    ensures var q := Fold(conf, p, time + [' ']);
            if forall i :: 1 <= i < |time| ==> TimeChar(time[i]) then NtAt(q, NtSizePre) else q.error != Ok
  {
    Nt.StepIs(conf, p, time[0]);
    var q, rest := Step(conf, p, time[0]), time[1..];
    AllCharsFromHead(time, TimeChar);
    TimeRun(conf, q, rest);
    EndTime(conf, Fold(conf, q, rest));
    assert time + [' '] == [time[0]] + (rest + [' ']);
    FoldAppend(conf, q, rest, [' ']);
    OneThen(conf, p, time[0], q, rest + [' '], Fold(conf, q, rest + [' ']));
  }

  lemma EndTime(conf: Config, p: Parser)
    ensures NtAt(p, NtTime) ==> NtAt(Fold(conf, p, [' ']), NtSizePre)
    ensures p.error != Ok ==> Fold(conf, p, [' ']).error != Ok
  {
    FoldOne(conf, p, ' ');
    if NtAt(p, NtTime) {
      Nt.StepIs(conf, p, ' ');
    }
  }

  lemma NtHeadExactly(conf: Config, p: Parser, e: Nt.NtEntry)
    requires NtBetween(p) && NtIsRaw(e)
    ensures var q := Fold(conf, p, Nt.Stamp(e) + [' ']); if NtHeadOk(e) then NtAt(q, NtSizePre) else q.error != Ok
  {
    var clock := Spaces(e.timeGap) + (e.time + [' ']);
    assert e.date + [' '] + clock == Nt.Stamp(e) + [' '];
    var a := DateThen(conf, p, e.date, clock);
    if a.error == Ok {
      GapAndTime(conf, a, e.timeGap, e.time);
    } else {
      ErrorIsSticky(conf, a, clock);
    }
  }

  lemma GapAndTime(conf: Config, p: Parser, gap: nat, time: string)
    requires NtAt(p, NtTimePre) && time != "" && !('\t' <= time[0] <= '\r') && forall i :: 0 <= i < |time| ==> time[i] != ' '
    ensures var q := Fold(conf, p, Spaces(gap) + (time + [' ']));
            if forall i :: 1 <= i < |time| ==> TimeChar(time[i]) then NtAt(q, NtSizePre) else q.error != Ok
  {
    GapBeforeTime(conf, p, gap);
    FoldAppend(conf, p, Spaces(gap), time + [' ']);
    TimeExactly(conf, Fold(conf, p, Spaces(gap)), time);
  }

  lemma DateThen(conf: Config, p: Parser, date: string, rest: string) returns (q: Parser)
    requires NtBetween(p) && |date| == 8
    ensures Fold(conf, p, date + [' '] + rest) == Fold(conf, q, rest)
    ensures if forall i :: 0 <= i < |date| ==> DateChar(date[i]) then NtAt(q, NtTimePre) else q.error != Ok
  {
    DateExactly(conf, p, date);
    q := Fold(conf, p, date + [' ']);
    FoldAppend(conf, p, date + [' '], rest);
  }

  /** The line behind the first byte of the name, up to its line feed. */
  function NtTail(e: Nt.NtEntry): string
    requires e.name != ""
  {
    e.name[1..] + if e.crlf then "\r" else ""
  }

  lemma NtNameStarts(conf: Config, p: Parser, gap: nat, first: char)
    requires NtAt(p, NtNamePre) && first != ' '
    ensures InText(Fold(conf, p, Spaces(gap) + [first])) && Fold(conf, p, Spaces(gap) + [first]).os == OsWinNt
  {
    Nt.Gap(conf, p, gap);
    var q := SetData(p, Data(p) + Spaces(gap));
    Nt.StepIs(conf, q, first);
    ThenOne(conf, p, Spaces(gap), q, first, Step(conf, q, first));
  }

  lemma NtNameExactly(conf: Config, p: Parser, e: Nt.NtEntry)
    requires NtAt(p, NtNamePre) && NtIsRaw(e)
    ensures var q := Fold(conf, p, Nt.NameAndEol(e)); if TextOk(NtTail(e)) then NtBetween(q) else q.error != Ok
  {
    NtNameStarts(conf, p, e.nameGap, e.name[0]);
    var start := Spaces(e.nameGap) + [e.name[0]];
    NtNameText(e);
    FoldAppend(conf, p, start, NtTail(e) + ['\n']);
    assert forall i :: 0 <= i < |e.name| - 1 ==> e.name[1..][i] == e.name[i + 1];
    TextExactly(conf, Fold(conf, p, start), NtTail(e));
  }

  lemma NtNameText(e: Nt.NtEntry)
    requires e.name != ""
    ensures Nt.NameAndEol(e) == Spaces(e.nameGap) + [e.name[0]] + (NtTail(e) + ['\n'])
  {
    assert [e.name[0]] + e.name[1..] == e.name;
    assert Nt.NtEol(e) == (if e.crlf then "\r" else "") + ['\n'];
  }

  /** An NT line: an error exactly if a byte of date or time does not belong there,
      the size means nothing, or the name has a carriage return inside. */
  lemma NtLineExactly(conf: Config, p: Parser, e: Nt.NtEntry)
    requires NtBetween(p) && NtIsRaw(e)
    requires conf == StandardConfig(conf.keep, conf.longMax, conf.offMax, conf.staleErange)
    ensures var q := Fold(conf, p, Nt.NtLine(e));
            if NtHeadOk(e) && Nt.Meaning(e.size, conf.offMax, conf.staleErange).Some? && TextOk(NtTail(e)) then NtBetween(q)
            else q.error != Ok
  {
    var sizePart := Spaces(e.sizeGap) + e.size + [' '];
    NtHeadExactly(conf, p, e);
    var a := Fold(conf, p, Nt.Stamp(e) + [' ']);
    FoldAppend(conf, p, Nt.Stamp(e) + [' '], sizePart + Nt.NameAndEol(e));
    FoldAppend(conf, a, sizePart, Nt.NameAndEol(e));
    if NtHeadOk(e) {
      NtSizeAndName(conf, a, e, sizePart);
    } else {
      ErrorIsSticky(conf, a, sizePart + Nt.NameAndEol(e));
    }
  }

  lemma NtSizeAndName(conf: Config, p: Parser, e: Nt.NtEntry, sizePart: string)
    requires NtAt(p, NtSizePre) && NtIsRaw(e) && sizePart == Spaces(e.sizeGap) + e.size + [' ']
    requires conf == StandardConfig(conf.keep, conf.longMax, conf.offMax, conf.staleErange)
    ensures var q := Fold(conf, Fold(conf, p, sizePart), Nt.NameAndEol(e));
            if Nt.Meaning(e.size, conf.offMax, conf.staleErange).Some? && TextOk(NtTail(e)) then NtBetween(q) else q.error != Ok
  {
    Nt.ReadSize(conf, p, e);
    Nt.SizeIsMeaning(conf, p.file.value.attrs, e.size);
    var b := Fold(conf, p, sizePart);
    if b.error == Ok {
      NtNameExactly(conf, b, e);
    } else {
      ErrorIsSticky(conf, b, Nt.NameAndEol(e));
    }
  }
}
