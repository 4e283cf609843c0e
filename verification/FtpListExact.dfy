/** What becomes of any printed listing, and exactly which listings come back
    whole. A symlink line is taken apart at the first arrow the parser finds, so
    it reads like the line of another entry, or like none. */
module FtpListExact {
  import opened CText
  import opened FtpListModel
  import opened FtpListRoundTrip
  import opened FtpListTheorems
  import opened FtpListLinks
  import opened FtpListListing
  import GlobMatcher

  // ----- what a line reads like

  function Linked(e: Entry): string {
    e.name + " -> " + e.target
  }

  /** The entry a printed line reads like. */
  function Seen(e: Entry): Option<Entry>
    requires Printable(e)
  {
    if e.fileType != Symlink then Some(e)
    else
      var j := FindArrow(Linked(e));
      if j.None? || j.value + 4 == |Linked(e)| then None
      else Some(e.(name := Linked(e)[..j.value], target := Linked(e)[j.value + 4..]))
  }

  lemma NameAndTarget(e: Entry)
    requires Printable(e) && e.fileType == Symlink
    ensures var text := Linked(e); NoEol(text) && NoNul(text) && text[0] != ' '
    ensures NamePart(e) == Spaces(e.gaps.name) + Linked(e) + Eol(e)
  {
  }

  /** The line of the entry seen is the same line. */
  lemma SeenLine(e: Entry)
    requires Printable(e) && Seen(e).Some?
    ensures WellFormed(Seen(e).value) && Line(Seen(e).value) == Line(e)
  {
    if e.fileType == Symlink {
      var s := Seen(e).value;
      NameAndTarget(e);
      FoundSplits(Linked(e));
      assert Linked(s) == Linked(e);
      NameAndTarget(s);
    }
  }

  /** An entry is seen as itself exactly when its name is free of arrows, and
      otherwise under another name, if at all. */
  lemma SeenAsItself(e: Entry)
    requires Printable(e)
    ensures WellFormed(e) ==> Seen(e) == Some(e)
    ensures !WellFormed(e) && Seen(e).Some? ==> Seen(e).value.name != e.name
  {
    if e.fileType == Symlink {
      var text := Linked(e);
      if ArrowFree(e.name) {
        assert e.name + (" -> " + e.target) == text;
        OwnArrow(e.name, " -> " + e.target);
        assert text[..|e.name|] == e.name && text[|e.name| + 4..] == e.target;
      } else if Seen(e).Some? {
        FoundSplits(text);
      }
    }
  }

  lemma UnseenFails(conf: Config, p: Parser, e: Entry)
    requires LineStart(p) && Printable(e) && ReadsNumbers(conf, e) && Seen(e).None?
    ensures Fold(conf, p, Line(e)).error != Ok
  {
    var q := FromHead(conf, p, e);
    NameAndTarget(e);
    NoTargetFails(conf, q, e.gaps.name, Linked(e), Eol(e));
  }

  // ----- what a listing reads like

  predicate AllPrintable(entries: seq<Entry>) {
    entries == [] || (Printable(entries[0]) && AllPrintable(entries[1..]))
  }

  /** Every symlink line has an arrow with a target behind it. */
  predicate AllSeen(entries: seq<Entry>)
    requires AllPrintable(entries)
  {
    entries == [] || (Seen(entries[0]).Some? && AllSeen(entries[1..]))
  }

  function SeenEntries(entries: seq<Entry>): seq<Entry>
    requires AllPrintable(entries) && AllSeen(entries)
  {
    if entries == [] then [] else [Seen(entries[0]).value] + SeenEntries(entries[1..])
  }

  lemma {:induction false} SameListing(entries: seq<Entry>)
    requires AllPrintable(entries) && AllSeen(entries)
    ensures AllWellFormed(SeenEntries(entries)) && Listing(SeenEntries(entries)) == Listing(entries)
    decreases |entries|
  {
    if entries != [] {
      SeenLine(entries[0]);
      SameListing(entries[1..]);
      assert SeenEntries(entries)[1..] == SeenEntries(entries[1..]);
    }
  }

  lemma {:induction false} UnseenListingFails(conf: Config, p: Parser, entries: seq<Entry>)
    requires LineStart(p) && AllPrintable(entries) && AllReadable(conf, entries) && !AllSeen(entries)
    ensures Fold(conf, p, Listing(entries)).error != Ok
    decreases |entries|
  {
    var e, more := entries[0], Listing(entries[1..]);
    FoldAppend(conf, p, Line(e), more);
    if Seen(e).None? {
      UnseenFails(conf, p, e);
      ErrorIsSticky(conf, Fold(conf, p, Line(e)), more);
    } else {
      SeenLine(e);
      var q := ReadEntry(conf, p, Seen(e).value);
      UnseenListingFails(conf, q, entries[1..]);
    }
  }

  lemma UnseenPrintedFails(conf: Config, total: Total, entries: seq<Entry>)
    requires AllPrintable(entries) && AllReadable(conf, entries) && !AllSeen(entries)
    ensures Fold(conf, START, Printed(total, entries)).error != Ok
  {
    if total.WithTotal? {
      var line := TotalLine(total.gap, total.total, total.crlf);
      ReadTotalLine(conf, total.gap, total.total, total.crlf);
      UnseenListingFails(conf, Fold(conf, START, line), entries);
      FoldAppend(conf, START, line, Listing(entries));
    } else {
      assert Printed(total, entries) == Listing(entries);
      FirstLineIsAnEntry(conf, entries);
      UnseenListingFails(conf, START.(os := OsUnix, mode := TypeChar), entries);
    }
  }

  /** Any printed listing parses without error exactly when each symlink line has
      an arrow with a target behind it, and then into the entries its lines read
      like. */
  lemma EveryListing(keep: string -> bool, longMax: nat, offMax: nat, staleErange: bool,
                     total: Total, entries: seq<Entry>)
    requires AllPrintable(entries)
    ensures var conf := StandardConfig(keep, longMax, offMax, staleErange);
            var q := Fold(conf, START, Printed(total, entries));
            if AllSeen(entries) then
              AllWellFormed(SeenEntries(entries)) && q.error == Ok && Views(q.files) == ExpectedViews(conf, SeenEntries(entries))
            else q.error != Ok
  {
    var conf := StandardConfig(keep, longMax, offMax, staleErange);
    if AllSeen(entries) {
      SameListing(entries);
      RoundTrip(keep, longMax, offMax, staleErange, total, SeenEntries(entries));
    } else {
      StandardReads(conf, entries);
      UnseenPrintedFails(conf, total, entries);
    }
  }

  // ----- which listings come back whole

  /** What the entry itself says, line ending aside. */
  function Whole(conf: Config, e: Entry): View {
    View(e.fileType, Octal(e.perms), Some(PermText(e.perms)), Known(e.links, conf.longMax), Some(e.user), Some(e.group),
         Known(e.size, conf.offMax), e.TimeText(), e.name, if e.fileType == Symlink then Some(e.target) else None)
  }

  /** A symlink loses something when its name is not free of arrows, its line ends
      in CR LF, or its target has " -> " in it. */
  predicate Safe(e: Entry) {
    e.fileType == Symlink ==> ArrowFree(e.name) && !e.crlf && !Contains(e.target, " -> ")
  }

  predicate Lossless(entries: seq<Entry>) {
    forall i :: 0 <= i < |entries| ==> Safe(entries[i])
  }

  function WholeViews(conf: Config, entries: seq<Entry>): seq<View> {
    if entries == [] then [] else [Whole(conf, entries[0])] + WholeViews(conf, entries[1..])
  }

  lemma {:induction false} NoMoreThanPrinted(conf: Config, entries: seq<Entry>)
    requires AllWellFormed(entries)
    ensures |ExpectedViews(conf, entries)| <= |entries|
  {
    if entries != [] {
      NoMoreThanPrinted(conf, entries[1..]);
    }
  }

  lemma {:induction false} LosslessIsSeen(entries: seq<Entry>)
    requires AllPrintable(entries) && Lossless(entries)
    ensures AllSeen(entries)
    decreases |entries|
  {
    if entries != [] {
      SeenAsItself(entries[0]);
      assert Safe(entries[0]);
      assert forall i :: 0 <= i < |entries[1..]| ==> entries[1..][i] == entries[i + 1];
      LosslessIsSeen(entries[1..]);
    }
  }

  /** One entry: its line is listed, and shows the entry, exactly when it is safe. */
  lemma ListedWhole(conf: Config, e: Entry)
    requires conf == StandardConfig(conf.keep, conf.longMax, conf.offMax, conf.staleErange)
    requires Printable(e) && Seen(e).Some? && conf.keep(e.name)
    ensures var s := Seen(e).value;
            WellFormed(s) && (Listed(conf, s) && Expected(conf, s) == Whole(conf, e) <==> Safe(e))
  {
    SeenLine(e);
    SeenAsItself(e);
    if e.fileType == Symlink && WellFormed(e) && e.crlf {
      assert |TargetRead(e)| != |e.target|;
    }
  }

  /** Lines that all read like entries show all entries exactly when every entry
      is safe. */
  lemma {:induction false} WholeExactly(conf: Config, entries: seq<Entry>)
    requires conf == StandardConfig(conf.keep, conf.longMax, conf.offMax, conf.staleErange)
    requires AllPrintable(entries) && AllSeen(entries)
    requires forall i :: 0 <= i < |entries| ==> conf.keep(entries[i].name)
    ensures AllWellFormed(SeenEntries(entries))
    ensures ExpectedViews(conf, SeenEntries(entries)) == WholeViews(conf, entries) <==> Lossless(entries)
    ensures |WholeViews(conf, entries)| == |entries| == |SeenEntries(entries)|
    decreases |entries|
  {
    if entries != [] {
      var e, more := entries[0], entries[1..];
      var s := Seen(e).value;
      ListedWhole(conf, e);
      WholeExactly(conf, more);
      LosslessFromHead(entries);
      var seen := SeenEntries(entries);
      assert seen[0] == s && seen[1..] == SeenEntries(more);
      NoMoreThanPrinted(conf, seen[1..]);
      OneMoreView(ExpectedView(conf, s), ExpectedViews(conf, seen[1..]), Whole(conf, e), WholeViews(conf, more));
    }
  }

  lemma LosslessFromHead(entries: seq<Entry>)
    requires entries != []
    ensures Lossless(entries) <==> Safe(entries[0]) && Lossless(entries[1..])
  {
    assert forall i :: 1 <= i < |entries| ==> entries[i] == entries[1..][i - 1];
  }

  lemma OneMoreView(shown: seq<View>, rest: seq<View>, whole: View, wholes: seq<View>)
    requires |shown| <= 1 && |rest| <= |wholes|
    ensures shown + rest == [whole] + wholes <==> shown == [whole] && rest == wholes
  {
    if shown + rest == [whole] + wholes {
      assert |shown| == 1 && (shown + rest)[0] == whole;
      assert rest == (shown + rest)[1..] == ([whole] + wholes)[1..] == wholes;
    }
  }

  /** With pattern "*" and the built-in matcher, a printed listing comes back whole
      if and only if none of its entries loses anything. */
  lemma StarRoundTrip(keep: string -> bool, longMax: nat, offMax: nat, staleErange: bool,
                      total: Total, entries: seq<Entry>)
    requires AllPrintable(entries)
    requires forall name :: keep(name) <==> GlobMatcher.InLanguage(GlobMatcher.Tokens("*"), name)
    ensures var conf := StandardConfig(keep, longMax, offMax, staleErange);
            var q := Fold(conf, START, Printed(total, entries));
            q.error == Ok && Views(q.files) == WholeViews(conf, entries) <==> Lossless(entries)
  {
    var conf := StandardConfig(keep, longMax, offMax, staleErange);
    assert "*"[1..] == "";
    assert GlobMatcher.Tokens("*") == [GlobMatcher.Star];
    forall i | 0 <= i < |entries| ensures conf.keep(entries[i].name) {
      GlobMatcher.StarMatchesAll(entries[i].name);
      assert GlobMatcher.InLanguage(GlobMatcher.Tokens("*"), entries[i].name);
      assert keep(entries[i].name);
    }
    EveryListing(keep, longMax, offMax, staleErange, total, entries);
    if AllSeen(entries) {
      WholeExactly(conf, entries);
    } else if Lossless(entries) {
      LosslessIsSeen(entries);
    }
  }

  // ----- three lines that do not come back whole

  const NO_GAPS := Gaps(0, 0, 0, 0, 0, 0, 0, 0)
  const RWX := Triad(true, true, true, false)

  function LinkTo(name: string, target: string, crlf: bool): Entry {
    Entry(Symlink, Perms(RWX, RWX, RWX), 1, "u", "g", 2, "Jan", "1", "2014", name, target, NO_GAPS, crlf)
  }

  lemma LinkIsPrintable(name: string, target: string, crlf: bool)
    requires name != "" && name[0] != ' ' && NoEol(name) && NoNul(name)
    requires target != "" && NoEol(target) && NoNul(target)
    ensures Printable(LinkTo(name, target, crlf))
  {
  }

  lemma ShortHasNoArrow(s: string, arrow: string)
    requires arrow == " -> " && (|s| < 4 || (|s| == 4 && s[0] == '-'))
    ensures !Contains(s, arrow)
  {
  }

  lemma OneLink(keep: string -> bool, longMax: nat, offMax: nat, staleErange: bool, e: Entry)
    requires WellFormed(e) && e.fileType == Symlink && keep(e.name) && !Contains(TargetRead(e), " -> ")
    ensures var conf := StandardConfig(keep, longMax, offMax, staleErange);
            Views(Fold(conf, START, Listing([e])).files) == [Expected(conf, e)]
  {
    var conf := StandardConfig(keep, longMax, offMax, staleErange);
    assert [e][1..] == [] && AllWellFormed([e]);
    RoundTrip(keep, longMax, offMax, staleErange, NoTotal, [e]);
    assert Printed(NoTotal, [e]) == Listing([e]);
    assert ExpectedViews(conf, [e]) == [Expected(conf, e)];
  }

  /** "... a -> bc" CR LF is listed with the target "b". */
  lemma CrlfLinkLosesAByte(keep: string -> bool, longMax: nat, offMax: nat, staleErange: bool)
    requires keep("a")
    ensures var conf := StandardConfig(keep, longMax, offMax, staleErange);
            var e := LinkTo("a", "bc", true);
            Views(Fold(conf, START, Listing([e])).files) == [Whole(conf, e).(target := Some("b"))]
  {
    var conf := StandardConfig(keep, longMax, offMax, staleErange);
    var e := LinkTo("a", "bc", true);
    LinkIsPrintable("a", "bc", true);
    assert ArrowFree(e.name) && TargetRead(e) == "b";
    ShortHasNoArrow("b", " -> ");
    OneLink(keep, longMax, offMax, staleErange, e);
  }

  /** "... a -> -> t", printed for a link named "a ->", is listed as a link named
      "a" to "-> t". */
  lemma ArrowAtTheEndIsTaken(keep: string -> bool, longMax: nat, offMax: nat, staleErange: bool)
    requires keep("a")
    ensures var conf := StandardConfig(keep, longMax, offMax, staleErange);
            var e := LinkTo("a ->", "t", false);
            Views(Fold(conf, START, Listing([e])).files) == [Whole(conf, LinkTo("a", "-> t", false))]
  {
    TwoWays("a ->", "t", "a", "-> t", " -> ");
    LinkIsPrintable("a ->", "t", false);
    LinkIsPrintable("a", "-> t", false);
    ReadsAs(keep, longMax, offMax, staleErange, LinkTo("a ->", "t", false), LinkTo("a", "-> t", false));
  }

  lemma TwoWays(name: string, target: string, name': string, target': string, arrow: string)
    requires name == "a ->" && target == "t" && name' == "a" && target' == "-> t" && arrow == " -> "
    ensures name + arrow + target == name' + arrow + target'
    ensures ArrowFree(name') && !Contains(target', arrow)
  {
    ShortHasNoArrow(target', arrow);
  }

  /** Links whose names and targets print alike have the same line. */
  lemma SameLink(e: Entry, s: Entry)
    requires e.fileType == Symlink && Printable(e) && Printable(s) && Linked(e) == Linked(s)
    requires s == e.(name := s.name, target := s.target)
    ensures Line(e) == Line(s) && Listing([e]) == Listing([s])
  {
    NameAndTarget(e);
    NameAndTarget(s);
    assert [e][1..] == [] && [s][1..] == [];
  }

  lemma ReadsAs(keep: string -> bool, longMax: nat, offMax: nat, staleErange: bool, e: Entry, s: Entry)
    requires e.fileType == Symlink && Printable(e) && WellFormed(s) && Linked(e) == Linked(s)
    requires s == e.(name := s.name, target := s.target) && !s.crlf
    requires keep(s.name) && !Contains(s.target, " -> ")
    ensures var conf := StandardConfig(keep, longMax, offMax, staleErange);
            Views(Fold(conf, START, Listing([e])).files) == [Whole(conf, s)]
  {
    SameLink(e, s);
    OneLink(keep, longMax, offMax, staleErange, s);
  }

  lemma SpaceAtTheEnd(text: string)
    requires text == "a  -> t"
    ensures FindArrow(text).None?
  {
    assert text[1..][2..] == text[3..] && text[3..][1..] == text[4..] && text[4..][1..] == text[5..];
    assert text[5..][2..] == "";
    assert ArrowPrefix(text[5..]) == 1 && FindArrow(text[5..]).None?;
    assert ArrowPrefix(text[4..]) == 0 && FindArrow(text[4..]).None?;
    assert ArrowPrefix(text[3..]) == 0 && FindArrow(text[3..]).None?;
    assert ArrowPrefix(text[1..]) == 1;
  }

  /** "... a  -> t", printed for a link named "a ", is an error: the second space
      is used up by the attempt the first one started. */
  lemma SpaceAtTheEndIsAnError(keep: string -> bool, longMax: nat, offMax: nat, staleErange: bool)
    ensures var conf := StandardConfig(keep, longMax, offMax, staleErange);
            Fold(conf, START, Listing([LinkTo("a ", "t", false)])).error != Ok
  {
    var e := LinkTo("a ", "t", false);
    SpaceAtTheEnd(Linked(e));
    LinkIsPrintable("a ", "t", false);
    assert [e][1..] == [];
    EveryListing(keep, longMax, offMax, staleErange, NoTotal, [e]);
    assert Printed(NoTotal, [e]) == Listing([e]);
  }
}
