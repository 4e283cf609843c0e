/** Percent encoding and decoding of lib/escape.c (sections 2.1 and 2.3 of
    RFC 3986), with the buffer arithmetic of the two functions. */
module PercentEncoding {
  import opened CText

  const PERCENT: byte := 37

  // ----- characters

  /** Letters, digits, '-', '.', '_' and '~'. */
  predicate IsUnreserved(b: byte) {
    48 <= b <= 57 || 97 <= b <= 122 || 65 <= b <= 90 || b == 45 || b == 46 || b == 95 || b == 126
  }

  /** The digits printed by %02X. */
  function UpperHex(v: nat): (b: byte)
    requires v < 16
  {
    if v < 10 then 48 + v else 55 + v
  }

  predicate IsXDigit(b: byte) {
    48 <= b <= 57 || 65 <= b <= 70 || 97 <= b <= 102
  }

  predicate IsUpperXDigit(b: byte) {
    48 <= b <= 57 || 65 <= b <= 70
  }

  function HexValue(b: byte): (v: nat)
    requires IsXDigit(b)
    ensures v < 16
  {
    if b <= 57 then b - 48 else if b <= 70 then b - 55 else b - 87
  }

  // ----- specification

  function EscapeByte(b: byte): seq<byte> {
    if IsUnreserved(b) then [b] else [PERCENT, UpperHex(b / 16), UpperHex(b % 16)]
  }

  function Escape(data: seq<byte>): seq<byte> {
    if data == [] then [] else EscapeByte(data[0]) + Escape(data[1..])
  }

  predicate StartsTriple(s: seq<byte>) {
    |s| > 2 && s[0] == PERCENT && IsXDigit(s[1]) && IsXDigit(s[2])
  }

  function TripleValue(s: seq<byte>): byte
    requires StartsTriple(s)
  {
    16 * HexValue(s[1]) + HexValue(s[2])
  }

  /** A "%" that is not followed by two hexadecimal digits stands for itself. */
  function Unescape(s: seq<byte>): seq<byte>
    decreases |s|
  {
    if s == [] then []
    else if StartsTriple(s) then [TripleValue(s)] + Unescape(s[3..])
    else [s[0]] + Unescape(s[1..])
  }

  predicate HasControl(data: seq<byte>) {
    exists i :: 0 <= i < |data| && data[i] < 0x20
  }

  // ----- the C functions

  lemma {:induction false} EscapeConcat(a: seq<byte>, b: seq<byte>)
    ensures Escape(a + b) == Escape(a) + Escape(b)
    decreases |a|
  {
    if a == [] {
      assert a + b == b;
    } else {
      assert (a + b)[1..] == a[1..] + b;
      EscapeConcat(a[1..], b);
    }
  }

  lemma EscapeNext(data: seq<byte>, i: nat)
    requires i < |data|
    ensures Escape(data[..i + 1]) == Escape(data[..i]) + EscapeByte(data[i])
  {
    assert data[..i + 1] == data[..i] + [data[i]];
    EscapeConcat(data[..i], [data[i]]);
    assert [data[i]][1..] == [];
  }

  /** realloc(): a larger block that starts with the old bytes. */
  method Realloc(ns: array<byte>, alloc: nat) returns (bigger: array<byte>)
    requires ns.Length <= alloc
    ensures fresh(bigger) && bigger.Length == alloc && bigger[..ns.Length] == ns[..]
  {
    bigger := new byte[alloc](i requires 0 <= i < alloc reads ns => if i < ns.Length then ns[i] else 0);
  }

  /** curl_easy_escape(): when the size estimate outgrows the block, doubling
      the block once is always enough. */
  method EasyEscape(mem: seq<byte>, inlength: nat) returns (ns: array<byte>, len: nat)
    requires inlength <= |mem| && (inlength == 0 ==> 0 in mem)
    ensures len < ns.Length && ns[len] == 0
    ensures ns[..len] == Escape(InputBytes(mem, inlength))
  {
    var text := InputBytes(mem, inlength);
    var alloc := |text| + 1;
    var newlen := alloc;
    ns := new byte[alloc];
    var strindex := 0;
    var i := 0;
    ghost var escaped := Escape(text[..0]);
    while i < |text|
      invariant 0 <= i <= |text| && ns.Length == alloc && fresh(ns)
      invariant newlen == strindex + (|text| - i) + 1 && |text| + 1 <= newlen <= alloc
      invariant ns[..strindex] == escaped == Escape(text[..i])
    {
      EscapeNext(text, i);
      var in_ := text[i];
      if IsUnreserved(in_) {
        ns[strindex] := in_;
        strindex := strindex + 1;
      } else {
        newlen := newlen + 2;
        if newlen > alloc {
          alloc := alloc * 2;
          ns := Realloc(ns, alloc);
          assert ns[..strindex] == escaped;
        }
        PutTriple(ns, strindex, in_);
        strindex := strindex + 3;
      }
      escaped := escaped + EscapeByte(in_);
      i := i + 1;
    }
    assert text[..i] == text;
    ns[strindex] := 0;
    len := strindex;
  }

  /** snprintf() of "%XX" and the terminator. */
  method PutTriple(ns: array<byte>, at: nat, b: byte)
    requires at + 3 < ns.Length && !IsUnreserved(b)
    modifies ns
    ensures ns[..at + 3] == old(ns[..at]) + EscapeByte(b)
  {
    ns[at], ns[at + 1], ns[at + 2], ns[at + 3] := PERCENT, UpperHex(b / 16), UpperHex(b % 16), 0;
  }

  datatype UrlCode = UrlOk | UrlMalformat

  lemma ControlGrows(a: seq<byte>, b: byte)
    ensures HasControl(a + [b]) <==> HasControl(a) || b < 0x20
  {
    if HasControl(a) {
      var i :| 0 <= i < |a| && a[i] < 0x20;
      assert (a + [b])[i] < 0x20;
    }
    if b < 0x20 {
      assert (a + [b])[|a|] < 0x20;
    }
  }

  lemma ControlStays(a: seq<byte>, b: seq<byte>)
    requires HasControl(a)
    ensures HasControl(a + b)
  {
    var i :| 0 <= i < |a| && a[i] < 0x20;
    assert (a + b)[i] < 0x20;
  }

  /** Curl_urldecode(): the output never outgrows the input's length plus one. */
  method UrlDecode(mem: seq<byte>, length: nat, rejectCtrl: bool)
    returns (code: UrlCode, ns: array<byte>, olen: nat)
    requires length <= |mem| && (length == 0 ==> 0 in mem)
    ensures code == UrlMalformat <==> rejectCtrl && HasControl(Unescape(InputBytes(mem, length)))
    ensures ns.Length == |InputBytes(mem, length)| + 1
    ensures code == UrlOk ==> olen < ns.Length && ns[olen] == 0
    ensures code == UrlOk ==> ns[..olen] == Unescape(InputBytes(mem, length))
  {
    var text := InputBytes(mem, length);
    ns := new byte[|text| + 1];
    olen := 0;
    var at := 0;
    assert text[0..] == text;
    while at < |text|
      invariant 0 <= at <= |text| && olen <= at
      invariant Unescape(text) == ns[..olen] + Unescape(text[at..])
      invariant rejectCtrl ==> !HasControl(ns[..olen])
    {
      ghost var done, rest := ns[..olen], text[at..];
      var in_ := text[at];
      var step := 1;
      if in_ == PERCENT && |text| - at > 2 && IsXDigit(text[at + 1]) && IsXDigit(text[at + 2]) {
        in_ := 16 * HexValue(text[at + 1]) + HexValue(text[at + 2]);
        step := 3;
      }
      UnescapeTurn(done, rest, in_, step);
      assert rest[step..] == text[at + step..];
      ControlGrows(done, in_);
      if rejectCtrl && in_ < 0x20 {
        ControlStays(done + [in_], Unescape(rest[step..]));
        return UrlMalformat, ns, 0;
      }
      ns[olen] := in_;
      assert ns[..olen + 1] == done + [in_];
      at, olen := at + step, olen + 1;
    }
    assert text[at..] == [] && ns[..olen] + [] == ns[..olen];
    ns[olen] := 0;
    code := UrlOk;
  }

  lemma UnescapeTurn(done: seq<byte>, rest: seq<byte>, b: byte, step: nat)
    requires rest != [] && step <= |rest|
    requires if StartsTriple(rest) then b == TripleValue(rest) && step == 3 else b == rest[0] && step == 1
    ensures done + Unescape(rest) == done + [b] + Unescape(rest[step..])
  {
    MovedOver(done, b, Unescape(rest[step..]), Unescape(rest));
  }

  lemma MovedOver(done: seq<byte>, b: byte, rest: seq<byte>, all: seq<byte>)
    requires all == [b] + rest
    ensures done + all == done + [b] + rest
  {
  }

  // ----- properties

  lemma HexDigitReadsBack(v: nat)
    requires v < 16
    ensures IsUpperXDigit(UpperHex(v)) && IsXDigit(UpperHex(v)) && HexValue(UpperHex(v)) == v
  {
  }

  lemma EscapedByteReadsBack(b: byte, rest: seq<byte>)
    ensures Unescape(EscapeByte(b) + rest) == [b] + Unescape(rest)
  {
    var s := EscapeByte(b) + rest;
    if IsUnreserved(b) {
      assert s[1..] == rest;
    } else {
      HexDigitReadsBack(b / 16);
      HexDigitReadsBack(b % 16);
      assert s[3..] == rest;
    }
  }

  /** Decoding inverts encoding for every byte string, NUL bytes included. */
  lemma {:induction false} RoundTrip(data: seq<byte>)
    ensures Unescape(Escape(data)) == data
    decreases |data|
  {
    if data != [] {
      EscapedByteReadsBack(data[0], Escape(data[1..]));
      RoundTrip(data[1..]);
    }
  }

  /** Unreserved bytes, and upper-case triples for bytes that are not unreserved. */
  predicate Canonical(s: seq<byte>)
    decreases |s|
  {
    if s == [] then true
    else if IsUnreserved(s[0]) then Canonical(s[1..])
    else
      StartsTriple(s) && IsUpperXDigit(s[1]) && IsUpperXDigit(s[2]) &&
      !IsUnreserved(TripleValue(s)) && Canonical(s[3..])
  }

  lemma {:induction false} EscapeIsCanonical(data: seq<byte>)
    ensures Canonical(Escape(data))
    decreases |data|
  {
    if data != [] {
      EscapeIsCanonical(data[1..]);
      var s := Escape(data);
      var b := data[0];
      if IsUnreserved(b) {
        assert s[1..] == Escape(data[1..]);
      } else {
        HexDigitReadsBack(b / 16);
        HexDigitReadsBack(b % 16);
        assert s[3..] == Escape(data[1..]);
      }
    }
  }

  lemma TripleIsEscape(s: seq<byte>)
    requires StartsTriple(s) && IsUpperXDigit(s[1]) && IsUpperXDigit(s[2]) && !IsUnreserved(TripleValue(s))
    ensures EscapeByte(TripleValue(s)) == s[..3]
  {
    var v := TripleValue(s);
    assert v / 16 == HexValue(s[1]) && v % 16 == HexValue(s[2]);
    assert UpperHex(HexValue(s[1])) == s[1] && UpperHex(HexValue(s[2])) == s[2];
  }

  lemma {:induction false} CanonicalReencodes(s: seq<byte>)
    requires Canonical(s)
    ensures Escape(Unescape(s)) == s
    decreases |s|
  {
    if s != [] {
      if IsUnreserved(s[0]) {
        CanonicalReencodes(s[1..]);
        assert Unescape(s) == [s[0]] + Unescape(s[1..]);
        assert [s[0]] + s[1..] == s;
      } else {
        TripleIsEscape(s);
        CanonicalReencodes(s[3..]);
        assert s[..3] + s[3..] == s;
      }
    }
  }

  /** The canonical strings are exactly the encoder's output, and exactly the
      strings that survive decoding and encoding. */
  lemma CanonicalExactly(s: seq<byte>)
    ensures Canonical(s) <==> Escape(Unescape(s)) == s
    ensures Canonical(s) <==> exists data: seq<byte> :: Escape(data) == s
  {
    if Canonical(s) {
      CanonicalReencodes(s);
    }
    if exists data: seq<byte> :: Escape(data) == s {
      var data: seq<byte> :| Escape(data) == s;
      EscapeIsCanonical(data);
    }
  }

  // ----- the characters, written out

  /** Unreserved are the letters, the digits and four marks. */
  lemma UnreservedExactly(c: char)
    requires c < 256 as char
    ensures IsUnreserved(c as int) <==>
            'A' <= c <= 'Z' || 'a' <= c <= 'z' || '0' <= c <= '9' || c in "-._~"
  {
    var marks := "-._~";
    assert marks[0] == '-' && marks[1] == '.' && marks[2] == '_' && marks[3] == '~';
  }

  /** The hexadecimal digit of a value, in either case. */
  function HexDigit(v: nat, upper: bool): byte
    requires v < 16
  {
    if v < 10 then '0' as int + v else (if upper then 'A' as int else 'a' as int) + v - 10
  }

  /** A "%" with two hexadecimal digits of either case stands for their value. */
  lemma TripleIsValue(hi: nat, lo: nat, hiUpper: bool, loUpper: bool, rest: seq<byte>)
    requires hi < 16 && lo < 16
    ensures Unescape(['%' as int, HexDigit(hi, hiUpper), HexDigit(lo, loUpper)] + rest) == [16 * hi + lo] + Unescape(rest)
  {
    var s: seq<byte> := ['%' as int, HexDigit(hi, hiUpper), HexDigit(lo, loUpper)] + rest;
    assert s[3..] == rest && StartsTriple(s) && TripleValue(s) == 16 * hi + lo;
  }

  /** Any other byte stands for itself, and so does a "%" without two digits. */
  lemma OtherIsItself(b: byte, rest: seq<byte>)
    requires b == '%' as int ==> |rest| < 2 || !IsHexDigit(rest[0]) || !IsHexDigit(rest[1])
    ensures Unescape([b] + rest) == [b] + Unescape(rest)
  {
    var s := [b] + rest;
    assert s[1..] == rest;
    if |rest| >= 2 {
      HexDigitsAre(rest[0]);
      HexDigitsAre(rest[1]);
    }
  }

  lemma HexDigitsAre(b: byte)
    ensures IsXDigit(b) <==> IsHexDigit(b)
  {
    if IsXDigit(b) {
      assert b == HexDigit(HexValue(b), b <= 70);
    }
  }

  predicate IsHexDigit(b: byte) {
    exists v, upper :: 0 <= v < 16 && b == HexDigit(v, upper)
  }
}
