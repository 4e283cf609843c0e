/** Symlink names of a LIST response: the parser tries for " -> " at each space,
    without going back when an attempt fails. */
module FtpListLinks {
  import opened CText
  import opened FtpListModel
  import opened FtpListRoundTrip

  /** The modes from the second byte of the name to the target. */
  predicate InLink(mode: Mode) {
    InName(mode) || mode.Arrow4? || mode.TargetText?
  }

  predicate InName(mode: Mode) {
    mode.LinkName? || mode.Arrow1? || mode.Arrow2? || mode.Arrow3?
  }

  function LinkMode(mode: Mode, c: char): Mode {
    match mode
    case LinkName => if c == ' ' then Arrow1 else LinkName
    case Arrow1 => if c == '-' then Arrow2 else LinkName
    case Arrow2 => if c == '>' then Arrow3 else LinkName
    case Arrow3 => if c == ' ' then Arrow4 else LinkName
    case _ => TargetText
  }

  function ModeAfter(mode: Mode, s: string): Mode
    decreases |s|
  {
    if s == "" then mode else ModeAfter(LinkMode(mode, s[0]), s[1..])
  }

  lemma LinkByte(conf: Config, p: Parser, c: char)
    requires Reading(p) && InLink(p.mode) && !IsEol(c)
    ensures var q := Step(conf, p, c);
            && Reading(q) && q.mode == LinkMode(p.mode, c)
            && (InName(q.mode) ==> q == SetData(p, Data(p) + [c]).(mode := q.mode, itemLength := p.itemLength + 1))
  {
    StepIsDispatch(conf, p, c);
  }

  lemma HeadAndTail(data: string, s: string)
    requires s != ""
    ensures data + [s[0]] + s[1..] == data + s
  {
  }

  lemma {:induction false} LinkBytes(conf: Config, p: Parser, s: string)
    requires Reading(p) && InLink(p.mode) && NoEol(s)
    ensures var q := Fold(conf, p, s);
            && Reading(q) && InLink(q.mode) && q.mode == ModeAfter(p.mode, s)
            && (InName(q.mode) ==> q == SetData(p, Data(p) + s).(mode := q.mode, itemLength := p.itemLength + |s|))
    decreases |s|
  {
    if s == "" {
      assert Data(p) + s == Data(p);
    } else {
      LinkByte(conf, p, s[0]);
      LinkBytes(conf, Step(conf, p, s[0]), s[1..]);
      if !InName(LinkMode(p.mode, s[0])) {
        NoWayBack(LinkMode(p.mode, s[0]), s[1..]);
      }
      HeadAndTail(Data(p), s);
    }
  }

  lemma {:induction false} NoWayBack(mode: Mode, s: string)
    requires !InName(mode)
    ensures !InName(ModeAfter(mode, s))
    decreases |s|
  {
    if s != "" {
      NoWayBack(LinkMode(mode, s[0]), s[1..]);
    }
  }

  lemma Turn(mode: Mode, s: string, i: nat)
    requires i < |s|
    ensures ModeAfter(mode, s[i..]) == ModeAfter(LinkMode(mode, s[i]), s[i + 1..])
  {
    assert s[i..][1..] == s[i + 1..];
  }

  /** One attempt, for any scan that goes on byte by byte. */
  lemma Chain(scan: (Mode, string) -> Mode, s: string, k: nat)
    requires k == ArrowPrefix(s) && s != ""
    requires scan(LinkName, s) == scan(LinkMode(LinkName, s[0]), s[1..])
    requires |s| > 1 ==> scan(Arrow1, s[1..]) == scan(LinkMode(Arrow1, s[1]), s[2..])
    requires |s| > 2 ==> scan(Arrow2, s[2..]) == scan(LinkMode(Arrow2, s[2]), s[3..])
    requires |s| > 3 ==> scan(Arrow3, s[3..]) == scan(LinkMode(Arrow3, s[3]), s[4..])
    ensures scan(LinkName, s) ==
            if k < 4 && k < |s| then scan(LinkName, s[k + 1..]) else scan(ArrowMode(k), s[k..])
  {
  }

  function ArrowMode(k: nat): Mode {
    if k == 1 then Arrow1 else if k == 2 then Arrow2 else if k == 3 then Arrow3 else Arrow4
  }

  /** An attempt that fails after k bytes takes k + 1 of them. */
  lemma Turns(s: string, k: nat)
    requires k == ArrowPrefix(s) && s != ""
    ensures ModeAfter(LinkName, s) ==
            if k < 4 && k < |s| then ModeAfter(LinkName, s[k + 1..]) else ModeAfter(ArrowMode(k), s[k..])
  {
    assert s[0..] == s;
    Turn(LinkName, s, 0);
    if |s| > 1 {
      Turn(Arrow1, s, 1);
    }
    if |s| > 2 {
      Turn(Arrow2, s, 2);
    }
    if |s| > 3 {
      Turn(Arrow3, s, 3);
    }
    Chain(ModeAfter, s, k);
  }

  /** The name leaves the parser in the name exactly when it is free of arrows. */
  lemma {:induction false} ScanName(s: string)
    ensures ModeAfter(LinkName, s) == LinkName <==> ArrowFree(s)
    decreases |s|
  {
    if s != "" {
      var k := ArrowPrefix(s);
      Turns(s, k);
      if k == 4 {
        NoWayBack(Arrow4, s[4..]);
      } else if k < |s| {
        ScanName(s[k + 1..]);
      }
    }
  }

  /** Only where a name could go on does " -> " lead to the target. */
  lemma ArrowSeen(mode: Mode, arrow: string)
    requires InLink(mode) && arrow == " -> "
    ensures ModeAfter(mode, arrow) == Arrow4 <==> mode == LinkName
  {
    var m1 := LinkMode(mode, ' ');
    var m2 := LinkMode(m1, '-');
    var m3 := LinkMode(m2, '>');
    assert arrow[0..] == arrow;
    Turn(mode, arrow, 0);
    Turn(m1, arrow, 1);
    Turn(m2, arrow, 2);
    Turn(m3, arrow, 3);
  }

  lemma NameStarts(conf: Config, p: Parser, gap: nat, name: string)
    requires Reading(p) && p.mode.LinkPre? && name != "" && name[0] != ' '
    ensures var q := SetData(p, Data(p) + Spaces(gap) + [name[0]]).(
              mode := LinkName, itemOffset := |Data(p)| + gap, itemLength := 1);
            Fold(conf, p, Spaces(gap) + name) == Fold(conf, q, name[1..])
  {
    ReadItem(conf, p, gap, [name[0]]);
    FoldAppend(conf, p, Spaces(gap) + [name[0]], name[1..]);
    assert Spaces(gap) + [name[0]] + name[1..] == Spaces(gap) + name;
    assert Data(p) + Spaces(gap) + [name[0]] == Data(p) + (Spaces(gap) + [name[0]]);
  }

  /** A name without an arrow is read to its end. */
  lemma ReadLinkName(conf: Config, p: Parser, gap: nat, name: string)
    requires Reading(p) && p.mode.LinkPre? && name != "" && name[0] != ' ' && NoEol(name) && ArrowFree(name)
    ensures Fold(conf, p, Spaces(gap) + name) ==
            SetData(p, Data(p) + Spaces(gap) + name).(
              mode := LinkName, itemOffset := |Data(p)| + gap, itemLength := |name|)
  {
    NameStarts(conf, p, gap, name);
    var q := SetData(p, Data(p) + Spaces(gap) + [name[0]]).(
      mode := LinkName, itemOffset := |Data(p)| + gap, itemLength := 1);
    LinkBytes(conf, q, name[1..]);
    ScanName(name[1..]);
    HeadAndTail(Data(p) + Spaces(gap), name);
  }

  /** The arrow behind a name is taken for the arrow if and only if the name is
      free of arrows: otherwise one was found before, or this one is overlooked. */
  lemma ArrowFoundExactly(conf: Config, p: Parser, gap: nat, name: string)
    requires Reading(p) && p.mode.LinkPre? && name != "" && name[0] != ' ' && NoEol(name)
    ensures Fold(conf, p, Spaces(gap) + name + " -> ").mode.Arrow4? <==> ArrowFree(name)
  {
    NameStarts(conf, p, gap, name);
    var q := SetData(p, Data(p) + Spaces(gap) + [name[0]]).(
      mode := LinkName, itemOffset := |Data(p)| + gap, itemLength := 1);
    LinkBytes(conf, q, name[1..]);
    ScanName(name[1..]);
    var named := Fold(conf, p, Spaces(gap) + name);
    var arrow := " -> ";
    LinkBytes(conf, named, arrow);
    FoldAppend(conf, p, Spaces(gap) + name, arrow);
    ArrowSeen(named.mode, arrow);
  }

  /** Names with spaces are fine as long as no space ends the name or stands
      before a dash. */
  lemma {:induction false} SpacedNamesAreFree(name: string)
    requires forall i :: 0 <= i < |name| && name[i] == ' ' ==> i + 1 < |name| && name[i + 1] != '-'
    ensures ArrowFree(name)
    decreases |name|
  {
    if name != "" {
      var k := ArrowPrefix(name);
      assert k == 0 || (k == 1 && name[0] == ' ');
      SpacedNamesAreFree(name[k + 1..]);
    }
  }

  /** Where the scan of a text finds its first arrow. */
  function FindArrow(s: string): (j: Option<nat>)
    ensures j.Some? ==> j.value + 4 <= |s|
    decreases |s|
  {
    if s == "" then None
    else
      var k := ArrowPrefix(s);
      if k == 4 then Some(0)
      else if k == |s| then None
      else
        var r := FindArrow(s[k + 1..]);
        if r.Some? then Some(r.value + k + 1) else None
  }

  lemma {:induction false} FoundSplits(s: string)
    ensures var j := FindArrow(s); j.Some? ==> s[j.value..j.value + 4] == " -> " && ArrowFree(s[..j.value])
    decreases |s|
  {
    var j := FindArrow(s);
    if j.Some? && ArrowPrefix(s) < 4 {
      var k := ArrowPrefix(s);
      var tail := s[k + 1..];
      FoundSplits(tail);
      var r := FindArrow(tail).value;
      assert tail[r..r + 4] == s[j.value..j.value + 4];
      var name := s[..j.value];
      assert ArrowPrefix(name) == k && name[k + 1..] == tail[..r];
    }
  }

  /** An attempt that ends inside a text does not depend on what follows. */
  lemma PrefixStays(s: string, rest: string)
    requires ArrowPrefix(s) < 4 && ArrowPrefix(s) < |s|
    ensures ArrowPrefix(s + rest) == ArrowPrefix(s)
  {
  }

  /** The arrow behind a name that is free of arrows is the one found. */
  lemma {:induction false} OwnArrow(name: string, rest: string)
    requires ArrowFree(name) && ArrowPrefix(rest) == 4
    ensures FindArrow(name + rest) == Some(|name|)
    decreases |name|
  {
    if name == "" {
      assert name + rest == rest;
    } else {
      var k := ArrowPrefix(name);
      PrefixStays(name, rest);
      OwnArrow(name[k + 1..], rest);
      assert (name + rest)[k + 1..] == name[k + 1..] + rest;
    }
  }

  /** Without an arrow the scan ends in the name; with one that ends the text it
      waits for the target. */
  lemma {:induction false} ScanEnds(s: string)
    ensures FindArrow(s).None? ==> InName(ModeAfter(LinkName, s))
    ensures FindArrow(s).Some? && FindArrow(s).value + 4 == |s| ==> ModeAfter(LinkName, s) == Arrow4
    decreases |s|
  {
    if s != "" {
      var k := ArrowPrefix(s);
      Turns(s, k);
      if k < 4 && k < |s| {
        ScanEnds(s[k + 1..]);
      }
    }
  }

  /** A line that ends in its name, or right behind the arrow, is an error. */
  lemma EolFails(conf: Config, p: Parser, eol: string)
    requires Reading(p) && (InName(p.mode) || p.mode.Arrow4?) && eol != "" && IsEol(eol[0])
    ensures Fold(conf, p, eol).error != Ok
  {
    StepIsDispatch(conf, p, eol[0]);
    ErrorIsSticky(conf, Step(conf, p, eol[0]), eol[1..]);
  }

  /** No arrow with a target behind it: the rest of the line is an error. */
  lemma NoTargetFails(conf: Config, p: Parser, gap: nat, text: string, eol: string)
    requires Reading(p) && p.mode.LinkPre? && text != "" && text[0] != ' ' && NoEol(text)
    requires eol != "" && IsEol(eol[0])
    requires FindArrow(text).None? || FindArrow(text).value + 4 == |text|
    ensures Fold(conf, p, Spaces(gap) + text + eol).error != Ok
  {
    NameStarts(conf, p, gap, text);
    var q := SetData(p, Data(p) + Spaces(gap) + [text[0]]).(
      mode := LinkName, itemOffset := |Data(p)| + gap, itemLength := 1);
    LinkBytes(conf, q, text[1..]);
    assert ArrowPrefix(text) == 0;
    ScanEnds(text[1..]);
    FoldAppend(conf, p, Spaces(gap) + text, eol);
    EolFails(conf, Fold(conf, q, text[1..]), eol);
  }
}
