/** The decoder of lib/base64.c, which strings it accepts, and that it inverts
    the encoder. */
module Base64Decode {
  import opened CText
  import opened Base64

  // ----- decoding

  function PadCount(s: string): (n: nat)
    ensures n <= |s|
  {
    if s == [] then 0 else (if s[0] == '=' then 1 else 0) + PadCount(s[1..])
  }

  /** Each character is in the alphabet or is '='. */
  predicate Readable(s: string) {
    forall i :: 0 <= i < |s| ==> s[i] == '=' || ValueOf(s[i]) < 64
  }

  function Sextet(c: char): (v: nat)
    requires c == '=' || ValueOf(c) < 64
    ensures v < 64
  {
    if c == '=' then 0 else ValueOf(c)
  }

  /** The three bytes of a 24-bit group. */
  function BytesOf(x: nat): seq<byte> {
    [x / 0x10000 % 0x100, x / 0x100 % 0x100, x % 0x100]
  }

  function Number24(s: string): nat
    requires |s| == 4 && Readable(s)
  {
    ((Sextet(s[0]) * 64 + Sextet(s[1])) * 64 + Sextet(s[2])) * 64 + Sextet(s[3])
  }

  /** One group of four characters; None when a character is not in the alphabet. */
  function DecodeGroup(s: string): Option<seq<byte>> {
    if |s| == 4 && Readable(s) && PadCount(s) <= 2 then Some(BytesOf(Number24(s))[..3 - PadCount(s)]) else None
  }

  function Joined<U>(a: Option<seq<U>>, b: Option<seq<U>>): Option<seq<U>> {
    if a.Some? && b.Some? then Some(a.value + b.value) else None
  }

  /** The images of the consecutive groups of four, unless one has none. */
  function InFours<T, U>(f: seq<T> -> Option<seq<U>>, s: seq<T>): Option<seq<U>>
    decreases |s|
  {
    if s == [] then Some([])
    else if |s| < 4 then None
    else Joined(f(s[..4]), InFours(f, s[4..]))
  }

  function DecodeGroups(src: string): Option<seq<byte>> {
    InFours(DecodeGroup, src)
  }

  function FirstPad(s: string): (k: nat)
    ensures k <= |s| && (k < |s| ==> s[k] == '=')
    ensures forall i :: 0 <= i < k ==> s[i] != '='
  {
    if s == [] || s[0] == '=' then 0 else 1 + FirstPad(s[1..])
  }

  /** The number of '=' counted, at most two, from the first one on. */
  function Padding(s: string): (n: nat)
    ensures n <= 2 && FirstPad(s) + n <= |s|
  {
    var k := FirstPad(s);
    if k == |s| then 0 else if k + 1 < |s| && s[k + 1] == '=' then 2 else 1
  }

  predicate LengthOk(src: string) {
    src != [] && |src| % 4 == 0 && FirstPad(src) + Padding(src) == |src|
  }

  function Decode(src: string): Option<seq<byte>> {
    if LengthOk(src) then DecodeGroups(src) else None
  }

  // ----- the C functions

  /** The table search of decodeQuantum(). */
  method FindInTable(c: char) returns (v: nat)
    requires c != NUL
    ensures v == ValueOf(c)
  {
    v := 0;
    while v < 64 && Table64(v) != c
      invariant 0 <= v <= 64 && forall w :: 0 <= w < v ==> Table64(w) != c
    {
      v := v + 1;
    }
  }

  function Prefix24(s: string): nat
    requires |s| <= 4 && Readable(s)
  {
    if s == [] then 0 else 64 * Prefix24(s[..|s| - 1]) + Sextet(s[|s| - 1])
  }

  lemma PrefixIsNumber(s: string)
    requires |s| == 4 && Readable(s)
    ensures Prefix24(s) == Number24(s)
  {
    var a, b, c := s[..3], s[..2], s[..1];
    assert a[..2] == b && b[..1] == c && c[..0] == [];
    assert Prefix24(c) == Sextet(s[0]);
    assert Prefix24(b) == 64 * Prefix24(c) + Sextet(s[1]);
    assert Prefix24(a) == 64 * Prefix24(b) + Sextet(s[2]);
  }

  lemma {:induction false} PadCountAppend(s: string, c: char)
    ensures PadCount(s + [c]) == PadCount(s) + (if c == '=' then 1 else 0)
  {
    if s == [] {
      assert [c][1..] == [];
    } else {
      assert (s + [c])[1..] == s[1..] + [c];
      PadCountAppend(s[1..], c);
    }
  }

  /** The accumulating loop of decodeQuantum(): 24 bits and the padding count. */
  method Accumulate(src: string) returns (ok: bool, x: nat, padding: nat)
    requires |src| == 4 && NoNul(src)
    ensures ok <==> Readable(src)
    ensures ok ==> x == Number24(src) && padding == PadCount(src)
  {
    padding, x := 0, 0;
    var i := 0;
    while i < 4
      invariant 0 <= i <= 4 && Readable(src[..i])
      invariant x == Prefix24(src[..i]) && padding == PadCount(src[..i])
    {
      assert src[..i + 1] == src[..i] + [src[i]];
      PadCountAppend(src[..i], src[i]);
      if src[i] == '=' {
        x, padding := 64 * x, padding + 1;
      } else {
        var v := FindInTable(src[i]);
        if v == 64 {
          return false, x, padding;
        }
        x := 64 * x + v;
      }
      assert src[..i + 1][..i] == src[..i];
      i := i + 1;
    }
    assert src[..4] == src;
    PrefixIsNumber(src);
    ok := true;
  }

  /** decodeQuantum(): zero means failure, and nothing was written. */
  method DecodeQuantum(dest: array<byte>, pos: nat, src: string) returns (n: nat)
    requires |src| == 4 && NoNul(src) && PadCount(src) <= 2 && pos + 3 - PadCount(src) <= dest.Length
    modifies dest
    ensures n == 0 <==> DecodeGroup(src).None?
    ensures n > 0 ==> pos + n <= dest.Length && n == 3 - PadCount(src) && dest[..pos + n] == old(dest[..pos]) + DecodeGroup(src).value
  {
    var ok, x, padding := Accumulate(src);
    if !ok {
      return 0;
    }
    if padding < 1 {
      dest[pos + 2] := x % 0x100;
    }
    if padding < 2 {
      dest[pos + 1] := x / 0x100 % 0x100;
    }
    dest[pos] := x / 0x10000 % 0x100;
    n := 3 - padding;
  }

  lemma {:induction false} PadsAreLast(src: string)
    requires src != [] && |src| % 4 == 0 && FirstPad(src) + Padding(src) == |src|
    ensures forall i :: 0 <= i < |src| - Padding(src) ==> src[i] != '='
    ensures forall i :: |src| - Padding(src) <= i < |src| ==> src[i] == '='
  {
  }

  lemma {:induction false} NoPads(s: string)
    requires forall i :: 0 <= i < |s| ==> s[i] != '='
    ensures PadCount(s) == 0
  {
    if s != [] {
      NoPads(s[1..]);
    }
  }

  lemma PadsOfGroup(src: string, i: nat)
    requires LengthOk(src) && 4 * i < |src|
    ensures PadCount(src[4 * i..4 * i + 4]) == if 4 * i + 4 == |src| then Padding(src) else 0
  {
    PadsAreLast(src);
    var g := src[4 * i..4 * i + 4];
    if 4 * i + 4 < |src| {
      assert |src| - Padding(src) >= 4 * i + 4;
      NoPads(g);
    } else {
      PadsOfLast(g, Padding(src));
    }
  }

  lemma PadsOfLast(g: string, padding: nat)
    requires |g| == 4 && padding <= 2
    requires forall k :: 0 <= k < 4 - padding ==> g[k] != '='
    requires forall k :: 4 - padding <= k < 4 ==> g[k] == '='
    ensures PadCount(g) == padding
  {
    assert PadCount(g[4..]) == 0;
    assert g[1..][1..] == g[2..] && g[2..][1..] == g[3..] && g[3..][1..] == g[4..];
    assert PadCount(g[3..]) == (if g[3] == '=' then 1 else 0);
    assert PadCount(g[2..]) == (if g[2] == '=' then 1 else 0) + PadCount(g[3..]);
    assert PadCount(g[1..]) == PadCount(g[2..]);
  }

  lemma JoinedAssociates<U>(a: Option<seq<U>>, b: Option<seq<U>>, c: Option<seq<U>>)
    ensures Joined(a, Joined(b, c)) == Joined(Joined(a, b), c)
    ensures Joined(Some([]), a) == a && Joined(a, Some([])) == a
  {
    if a.Some? && b.Some? && c.Some? {
      assert a.value + (b.value + c.value) == a.value + b.value + c.value;
    }
    if a.Some? {
      assert [] + a.value == a.value && a.value + [] == a.value;
    }
  }

  lemma {:induction false} InFoursConcat<T, U>(f: seq<T> -> Option<seq<U>>, m: nat, a: seq<T>, b: seq<T>)
    requires Multiple(|a|, m, 4)
    ensures InFours(f, a + b) == Joined(InFours(f, a), InFours(f, b))
    decreases m
  {
    if m == 0 {
      assert a + b == b;
      JoinedAssociates(InFours(f, b), InFours(f, b), InFours(f, b));
    } else {
      assert (a + b)[..4] == a[..4] && (a + b)[4..] == a[4..] + b;
      InFoursConcat(f, m - 1, a[4..], b);
      JoinedAssociates(f(a[..4]), InFours(f, a[4..]), InFours(f, b));
    }
  }

  lemma OneFour<T, U>(f: seq<T> -> Option<seq<U>>, g: seq<T>)
    requires |g| == 4
    ensures InFours(f, g) == f(g)
  {
    assert g[..4] == g && g[4..] == [];
    JoinedAssociates(f(g), f(g), f(g));
  }

  /** One more group of four. */
  lemma DecodeStep(src: string, i: nat)
    requires 4 * i + 4 <= |src|
    ensures DecodeGroups(src[..4 * i + 4]) == Joined(DecodeGroups(src[..4 * i]), DecodeGroup(src[4 * i..4 * i + 4]))
  {
    var a, g := src[..4 * i], src[4 * i..4 * i + 4];
    MultipleIs(i);
    InFoursConcat(DecodeGroup, i, a, g);
    OneFour(DecodeGroup, g);
    assert src[..4 * i + 4] == a + g;
  }

  /** A failing group makes the whole string fail. */
  lemma OneBadGroup(src: string, i: nat, q: nat)
    requires |src| == 4 * q && i < q && DecodeGroup(src[4 * i..4 * i + 4]).None?
    ensures DecodeGroups(src).None?
  {
    DecodeStep(src, i);
    MultipleIs(i + 1);
    InFoursConcat(DecodeGroup, i + 1, src[..4 * i + 4], src[4 * i + 4..]);
    assert src == src[..4 * i + 4] + src[4 * i + 4..];
  }

  /** Finds the first '=' and counts at most two of them. */
  method CountPadding(src: string) returns (length: nat, padding: nat)
    ensures length == FirstPad(src) && padding == Padding(src)
  {
    length := 0;
    while length < |src| && src[length] != '='
      invariant 0 <= length <= |src| && forall i :: 0 <= i < length ==> src[i] != '='
    {
      length := length + 1;
    }
    PadIsFirst(src, length);
    padding := 0;
    if length < |src| {
      padding := 1;
      if length + 1 < |src| && src[length + 1] == '=' {
        padding := 2;
      }
    }
  }

  /** The first n groups decode to these bytes. */
  ghost predicate Decoded(src: string, n: nat, bytes: seq<byte>) {
    4 * n <= |src| && DecodeGroups(src[..4 * n]) == Some(bytes)
  }

  lemma NothingDecoded(src: string, bytes: seq<byte>)
    requires bytes == []
    ensures Decoded(src, 0, bytes)
  {
  }

  lemma AllDecoded(src: string, n: nat, bytes: seq<byte>)
    requires |src| == 4 * n && Decoded(src, n, bytes)
    ensures DecodeGroups(src) == Some(bytes)
  {
    assert src[..4 * n] == src;
  }

  /** Decodes the quantums into a buffer of the computed size. */
  method DecodeQuantums(src: string, numQuantums: nat, padding: nat, newstr: array<byte>)
    returns (ok: bool, pos: nat)
    requires NoNul(src) && LengthOk(src) && |src| == 4 * numQuantums && padding == Padding(src)
    requires newstr.Length == 3 * numQuantums - padding + 1
    modifies newstr
    ensures ok <==> DecodeGroups(src).Some?
    ensures ok ==> pos == newstr.Length - 1 && DecodeGroups(src) == Some(newstr[..pos])
  {
    pos := 0;
    var i := 0;
    ghost var bytes := newstr[..0];
    NothingDecoded(src, bytes);
    while i < numQuantums
      invariant 0 <= i <= numQuantums && pos == (if i == numQuantums then 3 * i - padding else 3 * i)
      invariant bytes == newstr[..pos] && Decoded(src, i, bytes)
    {
      var n := NextQuantum(src, newstr, pos, i, numQuantums, padding);
      if n == 0 {
        OneBadGroup(src, i, numQuantums);
        return false, 0;
      }
      pos, i := pos + n, i + 1;
      bytes := newstr[..pos];
    }
    AllDecoded(src, numQuantums, bytes);
    ok := true;
  }

  /** Curl_base64_decode(): the buffer holds the result and one more byte. */
  method Base64Decode(src: string) returns (r: Option<array<byte>>)
    requires NoNul(src)
    ensures r.None? <==> Decode(src).None?
    ensures r.Some? ==> var a := r.value;
                        a.Length > 0 && a[..a.Length - 1] == Decode(src).value && a[a.Length - 1] == 0
  {
    var srclen := |src|;
    if srclen == 0 || srclen % 4 != 0 {
      return None;
    }
    var length, padding := CountPadding(src);
    if length + padding != srclen {
      return None;
    }
    var numQuantums := srclen / 4;
    var newstr := new byte[numQuantums * 3 - padding + 1];
    var ok, pos := DecodeQuantums(src, numQuantums, padding, newstr);
    if !ok {
      return None;
    }
    newstr[pos] := 0;
    r := Some(newstr);
  }

  lemma {:induction false} PadIsFirst(src: string, k: nat)
    requires k <= |src| && (k < |src| ==> src[k] == '=') && forall i :: 0 <= i < k ==> src[i] != '='
    ensures FirstPad(src) == k
  {
  }

  lemma DecodedMore(src: string, i: nat, bytes: seq<byte>, more: seq<byte>)
    requires 4 * i + 4 <= |src| && Decoded(src, i, bytes) && DecodeGroup(src[4 * i..4 * i + 4]).Some?
    requires more == bytes + DecodeGroup(src[4 * i..4 * i + 4]).value
    ensures Decoded(src, i + 1, more)
  {
    DecodeStep(src, i);
  }

  /** One turn of the decoding loop. */
  method NextQuantum(src: string, newstr: array<byte>, pos: nat, i: nat, ghost q: nat, padding: nat) returns (n: nat)
    requires NoNul(src) && LengthOk(src) && |src| == 4 * q && i < q && padding == Padding(src)
    requires pos == 3 * i && newstr.Length == 3 * q - padding + 1
    requires Decoded(src, i, newstr[..pos])
    modifies newstr
    ensures n == 0 <==> DecodeGroup(src[4 * i..4 * i + 4]).None?
    ensures n > 0 ==> n == (if i + 1 == q then 3 - padding else 3) && pos + n < newstr.Length
    ensures n > 0 ==> Decoded(src, i + 1, newstr[..pos + n])
  {
    ghost var bytes := newstr[..pos];
    PadsOfGroup(src, i);
    n := DecodeQuantum(newstr, pos, src[4 * i..4 * i + 4]);
    if n > 0 {
      DecodedMore(src, i, bytes, newstr[..pos + n]);
    }
  }

  // ----- which strings are accepted

  /** Alphabet characters, then at most two '='. */
  predicate Padded(src: string, pads: nat) {
    && pads <= 2 && pads <= |src| && InAlphabet(src[..|src| - pads])
    && forall i :: |src| - pads <= i < |src| ==> src[i] == '='
  }

  lemma {:induction false} ReadableGroups(src: string)
    requires |src| % 4 == 0
    ensures DecodeGroups(src).Some? ==> Readable(src)
    decreases |src|
  {
    if src != [] {
      ReadableGroups(src[4..]);
      if DecodeGroups(src).Some? {
        assert src == src[..4] + src[4..];
      }
    }
  }

  lemma {:induction false} GroupsDecode(src: string, n: nat)
    requires |src| % 4 == 0 && 4 * n <= |src| && LengthOk(src) && Readable(src)
    ensures DecodeGroups(src[..4 * n]).Some?
    decreases n
  {
    if n > 0 {
      GroupsDecode(src, n - 1);
      DecodeStep(src, n - 1);
      PadsOfGroup(src, n - 1);
    }
  }

  lemma PaddedShape(src: string, pads: nat)
    requires Padded(src, pads) && src != [] && |src| % 4 == 0
    ensures LengthOk(src) && Readable(src)
  {
    var k := |src| - pads;
    forall i | 0 <= i < k ensures src[i] != '=' {
      assert src[..k][i] == src[i];
      assert ValueOf(src[i]) < 64;
    }
    PadIsFirst(src, k);
    forall i | 0 <= i < |src| ensures src[i] == '=' || ValueOf(src[i]) < 64 {
      if i < k {
        assert src[..k][i] == src[i];
      }
    }
  }

  /** The decoder accepts exactly the nonempty strings of whole groups that are
      alphabet characters followed by at most two '='. */
  lemma AcceptsExactly(src: string)
    ensures Decode(src).Some? <==> src != [] && |src| % 4 == 0 && exists pads: nat :: Padded(src, pads)
  {
    if Decode(src).Some? {
      ReadableGroups(src);
      PadsAreLast(src);
      assert Padded(src, Padding(src));
    }
    if src != [] && |src| % 4 == 0 && exists pads: nat :: Padded(src, pads) {
      var pads: nat :| Padded(src, pads);
      PaddedShape(src, pads);
      GroupsDecode(src, |src| / 4);
      assert src[..4 * (|src| / 4)] == src;
    }
  }

  // ----- decoding inverts encoding

  lemma TableInverts(v: nat)
    requires v < 64
    ensures ValueOf(Table64(v)) == v
  {
  }

  lemma BytesAreDigits(a: byte, b: byte, c: byte)
    ensures BytesOf((a * 256 + b) * 256 + c) == [a, b, c]
  {
  }

  lemma QuadPads(s: string, pads: nat)
    requires |s| == 4 && pads <= 2
    requires forall k :: 0 <= k < 4 ==> (s[k] == '=' <==> 4 - pads <= k)
    ensures PadCount(s) == pads
  {
    PadsOfLast(s, pads);
  }

  lemma GroupRoundTrip(g: seq<byte>)
    requires 1 <= |g| <= 3
    ensures DecodeGroup(EncodeGroup(g)) == Some(g)
  {
    var a: byte, b: byte, c: byte := g[0], if |g| > 1 then g[1] else 0, if |g| > 2 then g[2] else 0;
    var x := Sextets(a, b, c);
    var s := EncodeGroup(g);
    TableInverts(x.0);
    TableInverts(x.1);
    TableInverts(x.2);
    TableInverts(x.3);
    QuadPads(s, 3 - |g|);
    SextetsOfShort(g);
    assert Number24(s) == ((x.0 * 64 + x.1) * 64 + x.2) * 64 + x.3;
    BytesAreDigits(a, b, c);
    assert [a, b, c][..|g|] == g;
  }

  lemma SextetsOfShort(g: seq<byte>)
    requires 1 <= |g| <= 3
    ensures var x := Sextets(g[0], if |g| > 1 then g[1] else 0, if |g| > 2 then g[2] else 0);
            (|g| < 3 ==> x.3 == 0) && (|g| < 2 ==> x.2 == 0)
  {
  }

  lemma {:induction false} GroupsRoundTrip(data: seq<byte>)
    requires data != []
    ensures DecodeGroups(Encode(data)) == Some(data)
    decreases |data|
  {
    if |data| <= 3 {
      GroupRoundTrip(data);
      var s := EncodeGroup(data);
      assert Encode(data) == s;
      OneFour(DecodeGroup, s);
    } else {
      GroupRoundTrip(data[..3]);
      GroupsRoundTrip(data[3..]);
      var s := EncodeGroup(data[..3]);
      var all := Encode(data);
      assert all == s + Encode(data[3..]);
      assert all[..4] == s && all[4..] == Encode(data[3..]);
      assert data[..3] + data[3..] == data;
    }
  }

  /** Only the last group has '=', and only at its end. */
  lemma {:induction false} EncodedShape(data: seq<byte>)
    requires data != []
    ensures var s := Encode(data); s != [] && |s| % 4 == 0 && exists pads: nat :: Padded(s, pads)
    decreases |data|
  {
    var s := Encode(data);
    if |data| <= 3 {
      GroupShape(data);
      assert s == EncodeGroup(data);
    } else {
      EncodedShape(data[3..]);
      GroupShape(data[..3]);
      PaddedAfter(EncodeGroup(data[..3]), Encode(data[3..]));
    }
  }

  lemma PaddedAfter(head: string, tail: string)
    requires |head| == 4 && Padded(head, 0) && tail != [] && |tail| % 4 == 0 && exists pads: nat :: Padded(tail, pads)
    ensures |head + tail| % 4 == 0 && exists pads: nat :: Padded(head + tail, pads)
  {
    var pads: nat :| Padded(tail, pads);
    var s := head + tail;
    assert head[..4] == head;
    assert s[..|s| - pads] == head + tail[..|tail| - pads];
    assert Padded(s, pads);
  }

  lemma GroupShape(g: seq<byte>)
    requires 1 <= |g| <= 3
    ensures |EncodeGroup(g)| == 4 && Padded(EncodeGroup(g), 3 - |g|)
  {
    var x := Sextets(g[0], if |g| > 1 then g[1] else 0, if |g| > 2 then g[2] else 0);
    TableInverts(x.0);
    TableInverts(x.1);
    TableInverts(x.2);
    TableInverts(x.3);
  }

  /** Every byte string but the empty one comes back from its encoding. */
  lemma RoundTrip(data: seq<byte>)
    ensures Decode(Encode(data)) == Some(data) <==> data != []
  {
    if data != [] {
      GroupsRoundTrip(data);
      EncodedShape(data);
      AcceptsExactly(Encode(data));
    }
  }

  /** Four characters hold three bytes, and with one or two "=" in the end the
      first two or one of them, whatever the unused bits are. */
  lemma QuadHolds(s: string, a: nat, b: nat, c: nat, d: nat, pads: nat)
    requires a < 64 && b < 64 && c < 64 && d < 64 && pads <= 2 && (pads > 0 ==> d == 0) && (pads > 1 ==> c == 0)
    requires s == [Table64(a), Table64(b), if pads > 1 then '=' else Table64(c), if pads > 0 then '=' else Table64(d)]
    ensures Decode(s) == Some([4 * a + b / 16, b % 16 * 16 + c / 4, c % 4 * 64 + d][..3 - pads])
  {
    PadsOfLast(s, pads);
    OneFour(DecodeGroup, s);
    QuadNumber(a, b, c, d);
    assert FirstPad(s) == 4 - pads by {
      PadIsFirst(s, 4 - pads);
    }
    assert Number24(s) == ((a * 64 + b) * 64 + c) * 64 + d;
  }

  lemma QuadNumber(a: nat, b: nat, c: nat, d: nat)
    requires a < 64 && b < 64 && c < 64 && d < 64
    ensures BytesOf(((a * 64 + b) * 64 + c) * 64 + d) == [4 * a + b / 16, b % 16 * 16 + c / 4, c % 4 * 64 + d]
  {
    var x := ((a * 64 + b) * 64 + c) * 64 + d;
    var p, q, r := 4 * a + b / 16, b % 16 * 16 + c / 4, c % 4 * 64 + d;
    assert x == (p * 256 + q) * 256 + r;
    BytesOfThree(p, q, r);
  }

  lemma BytesOfThree(p: nat, q: nat, r: nat)
    requires p < 256 && q < 256 && r < 256
    ensures BytesOf((p * 256 + q) * 256 + r) == [p, q, r]
  {
  }
}
