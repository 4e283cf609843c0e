/** C text conventions shared by the models: NUL-terminated strings, the "C"
    locale character classes, and decimal numbers as strtol() reads them. */
module CText {

  datatype Option<+T> = None | Some(value: T)

  type byte = x: int | 0 <= x < 256

  const NUL: char := '\0'

  predicate IsSpace(c: char) {
    c == ' ' || '\t' <= c <= '\r'
  }

  predicate IsDigit(c: char) {
    '0' <= c <= '9'
  }

  predicate IsAlnum(c: char) {
    IsDigit(c) || 'a' <= c <= 'z' || 'A' <= c <= 'Z'
  }

  predicate IsPrint(c: char) {
    ' ' <= c <= '~'
  }

  predicate AllDigits(s: string) {
    forall i :: 0 <= i < |s| ==> IsDigit(s[i])
  }

  predicate NoNul(s: string) {
    forall i :: 0 <= i < |s| ==> s[i] != NUL
  }

  /** What a C string function sees in `mem`: the bytes before the first NUL. */
  function CStr(mem: string): string {
    if mem == [] || mem[0] == NUL then [] else [mem[0]] + CStr(mem[1..])
  }

  function CStrAt(mem: string, offset: nat): string {
    if offset <= |mem| then CStr(mem[offset..]) else []
  }

  lemma {:induction false} CStrStops(s: string, rest: string)
    requires NoNul(s)
    ensures CStr(s + [NUL] + rest) == s
  {
    var mem := s + [NUL] + rest;
    if s == [] {
    } else {
      assert mem[1..] == s[1..] + [NUL] + rest;
      CStrStops(s[1..], rest);
    }
  }

  lemma {:induction false} CStrWhole(s: string)
    requires NoNul(s)
    ensures CStr(s) == s
  {
    if s != [] {
      CStrWhole(s[1..]);
    }
  }

  lemma {:induction false} CStrNoNul(mem: string)
    ensures NoNul(CStr(mem)) && |CStr(mem)| <= |mem|
  {
    if mem != [] && mem[0] != NUL {
      CStrNoNul(mem[1..]);
    }
  }

  function UntilZero(mem: seq<byte>): seq<byte> {
    if mem == [] || mem[0] == 0 then [] else [mem[0]] + UntilZero(mem[1..])
  }

  /** The bytes a (pointer, length) pair designates where length zero means a
      NUL-terminated string. */
  function InputBytes(mem: seq<byte>, length: nat): seq<byte>
    requires length <= |mem| && (length == 0 ==> 0 in mem)
  {
    if length == 0 then UntilZero(mem) else mem[..length]
  }

  /** With length zero the bytes in front of the first zero count, else as many as
      the length says. */
  lemma {:induction false} InputIs(s: seq<byte>, rest: seq<byte>, length: nat)
    requires 0 !in s && length <= |s|
    ensures InputBytes(s + [0] + rest, length) == if length == 0 then s else s[..length]
  {
    var mem := s + [0] + rest;
    assert mem[|s|] == 0;
    if length > 0 {
      assert mem[..length] == s[..length];
    } else if s != [] {
      InputIs(s[1..], rest, 0);
      assert mem[1..] == s[1..] + [0] + rest;
    }
  }

  predicate OccursAt(s: string, part: string, k: int) {
    0 <= k <= |s| - |part| && s[k..k + |part|] == part
  }

  /** The substring test of strstr(). */
  predicate Contains(s: string, part: string) {
    exists k :: 0 <= k <= |s| && OccursAt(s, part, k)
  }

  // ----- decimal numbers

  function DigitChar(d: nat): char
    requires d < 10
  {
    "0123456789"[d]
  }

  function DigitValue(c: char): nat
    requires IsDigit(c)
  {
    c as int - '0' as int
  }

  function DecimalValue(s: string): nat
    requires AllDigits(s)
  {
    if s == [] then 0 else 10 * DecimalValue(s[..|s| - 1]) + DigitValue(s[|s| - 1])
  }

  function Decimal(n: nat): (s: string)
    ensures s != [] && AllDigits(s)
  {
    if n < 10 then [DigitChar(n)] else Decimal(n / 10) + [DigitChar(n % 10)]
  }

  lemma {:induction false} DecimalReadsBack(n: nat)
    ensures DecimalValue(Decimal(n)) == n
  {
    var s := Decimal(n);
    if n >= 10 {
      assert s[..|s| - 1] == Decimal(n / 10);
      DecimalReadsBack(n / 10);
    } else {
      assert s[..0] == "";
      assert DigitValue(DigitChar(n)) == n;
    }
  }

  function SkipSpaces(s: string, i: nat): (r: nat)
    requires i <= |s|
    ensures i <= r <= |s|
    ensures r < |s| ==> !IsSpace(s[r])
    ensures forall k :: i <= k < r ==> IsSpace(s[k])
    decreases |s| - i
  {
    if i < |s| && IsSpace(s[i]) then SkipSpaces(s, i + 1) else i
  }

  function SkipDigits(s: string, i: nat): (r: nat)
    requires i <= |s|
    ensures i <= r <= |s|
    ensures r < |s| ==> !IsDigit(s[r])
    ensures forall k :: i <= k < r ==> IsDigit(s[k])
    decreases |s| - i
  {
    if i < |s| && IsDigit(s[i]) then SkipDigits(s, i + 1) else i
  }

  /** Result of strtol(text, &end, 10): the saturated value, whether `end`
      reached the terminator, and whether ERANGE was raised. */
  datatype Number = Number(value: int, atEnd: bool, overflow: bool)

  function Clamp(v: int, max: nat): int {
    var lowest := -1 - max;
    if v > max then max else if v < lowest then lowest else v
  }

  function StrTol(s: string, max: nat): Number {
    var i := SkipSpaces(s, 0);
    var negative := i < |s| && s[i] == '-';
    var j := if i < |s| && (s[i] == '-' || s[i] == '+') then i + 1 else i;
    var k := SkipDigits(s, j);
    if k == j then Number(0, s == [], false)
    else
      var v: int := DecimalValue(s[j..k]);
      var w: int := if negative then -v else v;
      Number(Clamp(w, max), k == |s|, Clamp(w, max) != w)
  }

  lemma StrTolOfDigits(s: string, max: nat)
    requires s != [] && AllDigits(s)
    ensures StrTol(s, max) ==
            Number(Clamp(DecimalValue(s), max), true, DecimalValue(s) > max)
  {
    assert SkipSpaces(s, 0) == 0;
    var k := SkipDigits(s, 0);
    assert k == |s|;
    assert s[0..k] == s;
  }

  // ----- runs of spaces

  function Spaces(n: nat): (s: string)
    ensures |s| == n
    ensures forall i :: 0 <= i < n ==> s[i] == ' '
  {
    seq(n, i => ' ')
  }
}
