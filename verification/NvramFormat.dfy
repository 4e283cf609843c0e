/** The environment block of lib/libnvram/nvram_env.c as it lies in flash:
    "name=value" strings, each with its NUL, then an empty string. */
module NvramFormat {
  import opened CText

  datatype Entry = Entry(name: string, value: string)

  /** The bytes of one entry. */
  function Text(e: Entry): string {
    e.name + ['='] + e.value + [NUL]
  }

  function Env(entries: seq<Entry>): string {
    if entries == [] then [] else Text(entries[0]) + Env(entries[1..])
  }

  function Nuls(n: nat): (s: string)
    ensures |s| == n && forall i :: 0 <= i < n ==> s[i] == NUL
  {
    seq(n, i => NUL)
  }

  /** Entries and the final NUL fit a block of this length. */
  predicate Fits(entries: seq<Entry>, length: nat) {
    |Env(entries)| + 1 <= length
  }

  function Block(entries: seq<Entry>, length: nat): (s: string)
    requires Fits(entries, length)
    ensures |s| == length && s[length - 1] == NUL
  {
    Env(entries) + Nuls(length - |Env(entries)|)
  }

  /** strchr(): the first c before (or at) the terminator. */
  function Find(s: string, c: char): (k: Option<nat>)
    ensures k.Some? ==> k.value < |s| && s[k.value] == c
  {
    if s == [] then None
    else if s[0] == c then Some(0)
    else if s[0] == NUL then None
    else
      var r := Find(s[1..], c);
      if r.Some? then Some(r.value + 1) else None
  }

  /** What stands at the scan position: no entry, the last one, or one with
      more behind it. */
  datatype Scan = Bad | Last(entry: Entry) | More(entry: Entry, rest: string)

  function ScanEntry(data: string): Scan {
    var q := Find(data, '=');
    if q.None? then Bad
    else
      var value := data[q.value + 1..];
      var z := Find(value, NUL);
      if z.None? then Bad
      else
        var rest := value[z.value + 1..];
        var e := Entry(data[..q.value], value[..z.value]);
        if |rest| <= 1 || rest[0] == NUL then Last(e) else More(e, rest)
  }

  function ParseWith(scan: string -> Scan, data: string, max: nat): (entries: seq<Entry>)
    ensures |entries| <= max
    decreases max
  {
    if max == 0 then []
    else
      match scan(data)
      case Bad => []
      case Last(e) => [e]
      case More(e, rest) => [e] + ParseWith(scan, rest, max - 1)
  }

  /** The entries found in a block, at most `max` of them. */
  function Parse(data: string, max: nat): (entries: seq<Entry>)
    ensures |entries| <= max
  {
    ParseWith(ScanEntry, data, max)
  }

  /** Names and values are C strings. */
  predicate CStrings(entries: seq<Entry>) {
    forall i :: 0 <= i < |entries| ==> NoNul(entries[i].name) && NoNul(entries[i].value)
  }

  predicate NoEquals(name: string) {
    forall i :: 0 <= i < |name| ==> name[i] != '='
  }

  predicate NamesPlain(entries: seq<Entry>) {
    forall i :: 0 <= i < |entries| ==> NoEquals(entries[i].name)
  }

  lemma {:induction false} FindAfter(x: string, c: char, rest: string)
    requires forall i :: 0 <= i < |x| ==> x[i] != c && x[i] != NUL
    ensures Find(x + [c] + rest, c) == Some(|x|)
  {
    var s := x + [c] + rest;
    if x != [] {
      assert s[1..] == x[1..] + [c] + rest;
      FindAfter(x[1..], c, rest);
    }
  }

  /** The entry as it will be read back: split at the first '=' of its text. */
  function Cut(e: Entry): (c: Entry)
    ensures NoEquals(c.name) && Text(c) == Text(e)
    ensures c == e <==> NoEquals(e.name)
    ensures NoNul(e.name) && NoNul(e.value) ==> NoNul(c.name) && NoNul(c.value)
  {
    var k := FirstEquals(e.name);
    if k == |e.name| then e
    else
      var c := Entry(e.name[..k], e.name[k + 1..] + ['='] + e.value);
      assert Text(c) == Text(e);
      assert |c.name| < |e.name|;
      c
  }

  function FirstEquals(name: string): (k: nat)
    ensures k <= |name| && NoEquals(name[..k])
    ensures k < |name| ==> name[k] == '='
  {
    if name == [] || name[0] == '=' then 0
    else
      var k := 1 + FirstEquals(name[1..]);
      assert forall i :: 1 <= i < k ==> name[i] == name[1..][..k - 1][i - 1];
      k
  }

  function Cuts(entries: seq<Entry>): (cuts: seq<Entry>)
    ensures |cuts| == |entries| && forall i :: 0 <= i < |entries| ==> cuts[i] == Cut(entries[i])
  {
    seq(|entries|, i requires 0 <= i < |entries| => Cut(entries[i]))
  }

  lemma ScanText(name: string, value: string, rest: string, data: string)
    requires NoNul(name) && NoEquals(name) && NoNul(value)
    requires data == name + ['='] + (value + [NUL] + rest)
    ensures ScanEntry(data) == (var e := Entry(name, value); if |rest| <= 1 || rest[0] == NUL then Last(e) else More(e, rest))
  {
    FindAfter(name, '=', value + [NUL] + rest);
    var tail := data[|name| + 1..];
    assert tail == value + [NUL] + rest;
    FindAfter(value, NUL, rest);
    assert tail[|value| + 1..] == rest;
    assert data[..|name|] == name && tail[..|value|] == value;
  }

  /** The first entry of a block, whatever follows it. */
  lemma ScanFirst(e: Entry, rest: string)
    requires NoNul(e.name) && NoNul(e.value)
    ensures ScanEntry(Text(e) + rest) == if |rest| <= 1 || rest[0] == NUL then Last(Cut(e)) else More(Cut(e), rest)
  {
    var c := Cut(e);
    assert Text(c) + rest == c.name + ['='] + (c.value + [NUL] + rest);
    ScanText(c.name, c.value, rest, Text(e) + rest);
  }

  /** What is left of the block at its k-th entry. */
  function Suffix(entries: seq<Entry>, pad: nat, k: nat): string
    requires k <= |entries|
  {
    Env(entries[k..]) + Nuls(pad)
  }

  lemma ScanSuffix(entries: seq<Entry>, pad: nat, k: nat)
    requires k < |entries| && CStrings(entries)
    ensures ScanEntry(Suffix(entries, pad, k)) ==
            if k + 1 < |entries| then More(Cut(entries[k]), Suffix(entries, pad, k + 1)) else Last(Cut(entries[k]))
  {
    var rest := Suffix(entries, pad, k + 1);
    assert entries[k..][1..] == entries[k + 1..];
    assert Suffix(entries, pad, k) == Text(entries[k]) + rest;
    ScanFirst(entries[k], rest);
    if k + 1 < |entries| {
      var t := Text(entries[k + 1]);
      assert t[0] != NUL && t <= rest;
    } else {
      assert rest == Nuls(pad);
    }
  }

  /** The scan finds `found` and stands at the last of the positions. */
  ghost predicate Walked(scan: string -> Scan, at: seq<string>, found: seq<Entry>) {
    && |at| == |found| + 1
    && forall k {:trigger found[k]} :: 0 <= k < |found| ==> scan(at[k]) == More(found[k], at[k + 1])
  }

  lemma {:induction false} ParseWalks(scan: string -> Scan, at: seq<string>, found: seq<Entry>, max: nat)
    requires |found| <= max && Walked(scan, at, found)
    ensures ParseWith(scan, at[0], max) == found + ParseWith(scan, at[|found|], max - |found|)
    decreases |found|
  {
    if found != [] {
      assert scan(at[0]) == More(found[0], at[1]);
      assert forall k {:trigger found[1..][k]} :: 0 <= k < |found| - 1 ==> found[1..][k] == found[k + 1];
      ParseWalks(scan, at[1..], found[1..], max - 1);
      assert found == [found[0]] + found[1..];
    }
  }

  lemma WalkEnds(scan: string -> Scan, at: seq<string>, found: seq<Entry>, max: nat)
    requires |found| <= max && Walked(scan, at, found)
    ensures |found| == max ==> ParseWith(scan, at[0], max) == found
    ensures |found| < max && scan(at[|found|]).Bad? ==> ParseWith(scan, at[0], max) == found
    ensures |found| < max && scan(at[|found|]).Last? ==>
            ParseWith(scan, at[0], max) == found + [scan(at[|found|]).entry]
  {
    ParseWalks(scan, at, found, max);
  }

  /** The scan at the k-th position finds the k-th entry and goes on to the next. */
  ghost predicate StepsOn(scan: string -> Scan, at: seq<string>, found: seq<Entry>, k: nat)
    requires |at| == |found| && k < |found|
  {
    scan(at[k]) == if k + 1 < |found| then More(found[k], at[k + 1]) else Last(found[k])
  }

  lemma {:induction false} StepsParse(scan: string -> Scan, at: seq<string>, found: seq<Entry>, max: nat)
    requires 0 < |found| <= max && |at| == |found|
    requires forall k: nat :: k < |found| ==> StepsOn(scan, at, found, k)
    ensures ParseWith(scan, at[0], max) == found
  {
    var n := |found| - 1;
    forall k {:trigger found[..n][k]} | 0 <= k < n
      ensures scan(at[k]) == More(found[..n][k], at[k + 1])
    {
      assert StepsOn(scan, at, found, k);
    }
    assert Walked(scan, at, found[..n]);
    assert StepsOn(scan, at, found, n);
    WalkEnds(scan, at, found[..n], max);
    assert found == found[..n] + [found[n]];
  }

  lemma BlockSteps(entries: seq<Entry>, pad: nat) returns (at: seq<string>, cuts: seq<Entry>)
    requires entries != [] && CStrings(entries)
    ensures |at| == |entries| && cuts == Cuts(entries) && at[0] == Env(entries) + Nuls(pad)
    ensures forall k: nat :: k < |entries| ==> StepsOn(ScanEntry, at, cuts, k)
  {
    at := seq(|entries|, k requires 0 <= k < |entries| => Suffix(entries, pad, k));
    cuts := Cuts(entries);
    forall k: nat | k < |entries|
      ensures StepsOn(ScanEntry, at, cuts, k)
    {
      ScanSuffix(entries, pad, k);
    }
    assert entries[0..] == entries;
  }

  /** Parsing a written block gives every entry back, split at the first '=' of
      its text. */
  lemma ParseOfBlock(entries: seq<Entry>, max: nat, length: nat)
    requires |entries| <= max && CStrings(entries) && Fits(entries, length)
    ensures Parse(Block(entries, length), max) == Cuts(entries)
  {
    if entries == [] {
      EmptyBlock(max, length);
    } else {
      var at, cuts := BlockSteps(entries, length - |Env(entries)|);
      StepsParse(ScanEntry, at, cuts, max);
    }
  }

  lemma EmptyBlock(max: nat, length: nat)
    requires length > 0
    ensures Parse(Block([], length), max) == []
  {
    assert Block([], length) == Nuls(length);
  }

  /** So the block reproduces the entries exactly when no name contains '='. */
  lemma PersistsExactly(entries: seq<Entry>, max: nat, length: nat)
    requires |entries| <= max && CStrings(entries) && Fits(entries, length)
    ensures Parse(Block(entries, length), max) == entries <==> NamesPlain(entries)
  {
    ParseOfBlock(entries, max, length);
    var cuts := Cuts(entries);
    assert NamesPlain(entries) <==> forall i :: 0 <= i < |entries| ==> cuts[i] == entries[i];
  }

  /** What was read back once is read back unchanged ever after. */
  lemma CutsAreStable(entries: seq<Entry>)
    ensures NamesPlain(Cuts(entries)) && Cuts(Cuts(entries)) == Cuts(entries)
    ensures CStrings(entries) ==> CStrings(Cuts(entries))
    ensures Env(Cuts(entries)) == Env(entries)
  {
    SameText(entries);
  }

  lemma {:induction false} SameText(entries: seq<Entry>)
    ensures Env(Cuts(entries)) == Env(entries)
  {
    if entries != [] {
      SameText(entries[1..]);
      assert Cuts(entries)[1..] == Cuts(entries[1..]);
    }
  }

  // ----- lookups

  /** The value of the first entry with this name. */
  function Lookup(entries: seq<Entry>, name: string): Option<string> {
    if entries == [] then None
    else if entries[0].name == name then Some(entries[0].value)
    else Lookup(entries[1..], name)
  }

  /** The position of the first entry with this name, or the length. */
  function IndexOf(entries: seq<Entry>, name: string): (k: nat)
    ensures k <= |entries| && (k < |entries| ==> entries[k].name == name)
    ensures forall i :: 0 <= i < k ==> entries[i].name != name
  {
    if entries == [] || entries[0].name == name then 0 else 1 + IndexOf(entries[1..], name)
  }

  /** nvram_bufset() on the list of entries. */
  function Updated(entries: seq<Entry>, name: string, value: string): seq<Entry> {
    var k := IndexOf(entries, name);
    if k < |entries| then entries[k := Entry(name, value)] else entries + [Entry(name, value)]
  }

  lemma {:induction false} LookupAt(entries: seq<Entry>, name: string)
    ensures var k := IndexOf(entries, name);
            Lookup(entries, name) == if k < |entries| then Some(entries[k].value) else None
  {
    if entries != [] && entries[0].name != name {
      LookupAt(entries[1..], name);
    }
  }

  /** The block byte by byte: an entry starts behind those in front of it, with its
      name, "=", its value and a NUL; the next one starts right behind. */
  lemma BlockHolds(front: seq<Entry>, e: Entry, back: seq<Entry>, length: nat)
    requires Fits(front + [e] + back, length)
    ensures var block, at := Block(front + [e] + back, length), |Env(front)|;
            var eq := at + |e.name|;
            var end := eq + 1 + |e.value|;
            && end < length && block[at..eq] == e.name && block[eq] == '='
            && block[eq + 1..end] == e.value && block[end] == '\0'
            && |Env(front + [e])| == end + 1
  {
    EnvThree(front, e, back);
    var all := front + [e] + back;
    var zeros := Nuls(length - |Env(all)|);
    Behind(Env(front), Text(e), Env(back), zeros);
    TextLiesAt(Env(front), e, Env(back) + zeros, Block(all, length));
  }

  lemma Behind(a: string, b: string, c: string, d: string)
    ensures a + b + c + d == a + b + (c + d)
  {
  }

  lemma TextLiesAt(before: string, e: Entry, rest: string, whole: string)
    requires whole == before + Text(e) + rest
    ensures var eq := |before| + |e.name|;
            var end := eq + 1 + |e.value|;
            && end < |whole| && whole[|before|..eq] == e.name && whole[eq] == '='
            && whole[eq + 1..end] == e.value && whole[end] == '\0'
  {
  }

  lemma {:induction false} EnvConcat(a: seq<Entry>, b: seq<Entry>)
    ensures Env(a + b) == Env(a) + Env(b)
    decreases |a|
  {
    if a == [] {
      assert a + b == b;
    } else {
      assert (a + b)[1..] == a[1..] + b;
      EnvConcat(a[1..], b);
      assert Text(a[0]) + (Env(a[1..]) + Env(b)) == Text(a[0]) + Env(a[1..]) + Env(b);
    }
  }

  lemma EnvOne(e: Entry)
    ensures Env([e]) == Text(e)
  {
    assert [e][1..] == [];
    assert Text(e) + [] == Text(e);
  }

  lemma EnvThree(a: seq<Entry>, e: Entry, b: seq<Entry>)
    ensures Env(a + [e]) == Env(a) + Text(e) && Env(a + [e] + b) == Env(a) + Text(e) + Env(b)
  {
    EnvOne(e);
    EnvConcat(a, [e]);
    EnvConcat(a + [e], b);
  }

  lemma ZerosBehind(entries: seq<Entry>, length: nat, i: nat)
    requires Fits(entries, length) && |Env(entries)| <= i < length
    ensures Block(entries, length)[i] == '\0'
  {
  }
}
