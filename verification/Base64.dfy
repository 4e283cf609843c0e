/** The Base64 encoder and decoder of lib/base64.c (section 4 of RFC 4648). */
module Base64 {
  import opened CText

  // ----- the alphabet

  /** Entry v of the 64-character table: A-Z, a-z, 0-9, '+', '/'. */
  function Table64(v: nat): (c: char)
    requires v < 64
    ensures c != '=' && c != NUL
  {
    if v < 26 then ('A' as int + v) as char
    else if v < 52 then ('a' as int + v - 26) as char
    else if v < 62 then ('0' as int + v - 52) as char
    else if v == 62 then '+'
    else '/'
  }

  /** The value of an alphabet character; 64 for any other character. */
  function ValueOf(c: char): (v: nat)
    ensures v <= 64 && (v < 64 ==> Table64(v) == c)
    ensures forall w :: 0 <= w < 64 && Table64(w) == c ==> w == v
  {
    if 'A' <= c <= 'Z' then c as int - 'A' as int
    else if 'a' <= c <= 'z' then c as int - 'a' as int + 26
    else if '0' <= c <= '9' then c as int - '0' as int + 52
    else if c == '+' then 62
    else if c == '/' then 63
    else 64
  }

  predicate InAlphabet(s: string) {
    forall i :: 0 <= i < |s| ==> ValueOf(s[i]) < 64
  }

  // ----- encoding

  /** The four sextets of three bytes, by the shifts and masks of the source. */
  function Sextets(a: byte, b: byte, c: byte): (s: (nat, nat, nat, nat))
    ensures s.0 < 64 && s.1 < 64 && s.2 < 64 && s.3 < 64
    ensures ((s.0 * 64 + s.1) * 64 + s.2) * 64 + s.3 == (a * 256 + b) * 256 + c
  {
    (a / 4, a % 4 * 16 + b / 16, b % 16 * 4 + c / 64, c % 64)
  }

  /** One group of one to three bytes, padded with '='. */
  function EncodeGroup(g: seq<byte>): string {
    if |g| == 0 || |g| > 3 then []
    else
      var x := Sextets(g[0], if |g| > 1 then g[1] else 0, if |g| > 2 then g[2] else 0);
      [Table64(x.0), Table64(x.1), if |g| > 1 then Table64(x.2) else '=', if |g| > 2 then Table64(x.3) else '=']
  }

  /** The images of the consecutive groups of n elements, the last one shorter. */
  function Grouped<T, U>(n: nat, f: seq<T> -> seq<U>, data: seq<T>): seq<U>
    requires n > 0
    decreases |data|
  {
    if data == [] then []
    else if |data| <= n then f(data)
    else f(data[..n]) + Grouped(n, f, data[n..])
  }

  function Encode(data: seq<byte>): string {
    Grouped(3, EncodeGroup, data)
  }

  /** The inner loop of the encoder: takes up to three bytes, zero-filled. */
  method TakeGroup(indata: seq<byte>, at: nat) returns (ibuf: array<byte>, inputparts: nat)
    requires at < |indata|
    ensures fresh(ibuf) && ibuf.Length == 3
    ensures inputparts == (if |indata| - at < 3 then |indata| - at else 3)
    ensures forall k :: 0 <= k < 3 ==> ibuf[k] == if k < inputparts then indata[at + k] else 0
  {
    ibuf := new byte[3];
    inputparts := 0;
    var i := 0;
    while i < 3
      invariant 0 <= i <= 3
      invariant inputparts == (if |indata| - at < i then |indata| - at else i)
      invariant forall k :: 0 <= k < i ==> ibuf[k] == if k < inputparts then indata[at + k] else 0
    {
      if at + i < |indata| {
        inputparts := inputparts + 1;
        ibuf[i] := indata[at + i];
      } else {
        ibuf[i] := 0;
      }
      i := i + 1;
    }
  }

  /** snprintf() of four characters and the terminator. */
  method PutQuad(output: array<char>, at: nat, quad: string)
    requires |quad| == 4 && at + 5 <= output.Length
    modifies output
    ensures output[..at + 4] == old(output[..at]) + quad && output[at + 4] == NUL
  {
    output[at], output[at + 1], output[at + 2], output[at + 3], output[at + 4] :=
      quad[0], quad[1], quad[2], quad[3], NUL;
  }

  function Least(a: nat, b: nat): nat {
    if a < b then a else b
  }

  /** Room for one more group and a terminator in the allocation. */
  lemma RoomForGroup(n: nat, q: nat)
    requires 3 * q < n
    ensures 4 * q + 5 <= n * 4 / 3 + 4
  {
  }

  /** length == m * n, by repeated subtraction. */
  predicate Multiple(length: int, m: nat, n: nat) {
    if m == 0 then length == 0 else length >= n && Multiple(length - n, m - 1, n)
  }

  lemma {:induction false} MultipleIs(q: nat)
    ensures Multiple(3 * q, q, 3) && Multiple(4 * q, q, 4)
  {
    if q > 0 {
      MultipleIs(q - 1);
    }
  }

  /** Whole groups do not depend on what follows. */
  lemma {:induction false} GroupedConcat<T, U>(n: nat, f: seq<T> -> seq<U>, m: nat, a: seq<T>, b: seq<T>)
    requires n > 0 && Multiple(|a|, m, n)
    ensures Grouped(n, f, a + b) == Grouped(n, f, a) + Grouped(n, f, b)
    decreases m
  {
    if m == 0 {
      assert a + b == b;
    } else if b == [] {
      assert a + b == a;
    } else {
      assert (a + b)[..n] == a[..n] && (a + b)[n..] == a[n..] + b;
      GroupedConcat(n, f, m - 1, a[n..], b);
      assert m == 1 ==> a[..n] == a;
      assert m > 1 ==> |a| > n;
    }
  }

  lemma EncodeAppends(data: seq<byte>, q: nat)
    requires 3 * q < |data|
    ensures var k, end := 3 * q, Least(3 * q + 3, |data|);
            Encode(data[..end]) == Encode(data[..k]) + EncodeGroup(data[k..end])
  {
    var k, end := 3 * q, Least(3 * q + 3, |data|);
    MultipleIs(q);
    GroupedConcat(3, EncodeGroup, q, data[..k], data[k..end]);
    assert data[..end] == data[..k] + data[k..end];
  }

  lemma {:induction false} GroupedLength<T, U>(f: seq<T> -> seq<U>, data: seq<T>, q: nat)
    requires 3 * q - 3 < |data| <= 3 * q
    requires forall g: seq<T> :: 1 <= |g| <= 3 ==> |f(g)| == 4
    ensures |Grouped(3, f, data)| == 4 * q
    decreases q
  {
    if |data| > 3 {
      GroupedLength(f, data[3..], q - 1);
    }
  }

  lemma EncodedLength(data: seq<byte>)
    ensures |Encode(data)| == (|data| + 2) / 3 * 4
  {
    GroupedLength(EncodeGroup, data, (|data| + 2) / 3);
  }

  /** The four characters printed for the bytes taken by the inner loop. */
  method Quad(ibuf: array<byte>, inputparts: nat, ghost group: seq<byte>) returns (quad: string)
    requires ibuf.Length == 3 && 1 <= inputparts <= 3 && |group| == inputparts
    requires forall k :: 0 <= k < 3 ==> ibuf[k] == if k < inputparts then group[k] else 0
    ensures quad == EncodeGroup(group)
  {
    var x := Sextets(ibuf[0], ibuf[1], ibuf[2]);
    quad := [Table64(x.0), Table64(x.1), if inputparts > 1 then Table64(x.2) else '=',
             if inputparts > 2 then Table64(x.3) else '='];
  }

  /** One turn of the encoding loop. */
  method NextQuad(indata: seq<byte>, at: nat, output: array<char>, o: nat, ghost q: nat) returns (end: nat)
    requires at == 3 * q < |indata| && o == 4 * q && o + 5 <= output.Length
    requires output[..o] == Encode(indata[..at])
    modifies output
    ensures end == Least(3 * q + 3, |indata|)
    ensures output[..o + 4] == Encode(indata[..end])
  {
    var ibuf, inputparts := TakeGroup(indata, at);
    end := at + inputparts;
    var quad := Quad(ibuf, inputparts, indata[at..end]);
    EncodeAppends(indata, q);
    PutQuad(output, o, quad);
  }

  /** Curl_base64_encode(); the allocation of insize * 4 / 3 + 4 always suffices. */
  method Base64Encode(mem: seq<byte>, insize: nat) returns (base64data: array<char>, outlen: nat)
    requires insize <= |mem| && (insize == 0 ==> 0 in mem)
    ensures base64data.Length == |InputBytes(mem, insize)| * 4 / 3 + 4
    ensures outlen < base64data.Length && base64data[outlen] == NUL
    ensures base64data[..outlen] == Encode(InputBytes(mem, insize))
  {
    var indata := InputBytes(mem, insize);
    base64data := new char[|indata| * 4 / 3 + 4];
    var at, output := 0, 0;
    ghost var q := 0;
    while at < |indata|
      invariant at == Least(3 * q, |indata|) && output == 4 * q < base64data.Length
      invariant base64data[..output] == Encode(indata[..at])
      decreases |indata| - at
    {
      RoomForGroup(|indata|, q);
      at := NextQuad(indata, at, base64data, output, q);
      output, q := output + 4, q + 1;
    }
    base64data[output] := NUL;
    outlen := output;
    assert indata[..at] == indata;
  }

  /** Terminator included, the result fills the allocation exactly when the
      length is one more than a multiple of three. */
  lemma AllocationIsTight(data: seq<byte>)
    ensures |Encode(data)| + 1 <= |data| * 4 / 3 + 4
    ensures |Encode(data)| + 1 == |data| * 4 / 3 + 4 <==> |data| % 3 == 1
  {
    EncodedLength(data);
    LengthsCompared(|data|);
  }

  lemma LengthsCompared(n: nat)
    ensures (n + 2) / 3 * 4 + 1 <= n * 4 / 3 + 4
    ensures (n + 2) / 3 * 4 + 1 == n * 4 / 3 + 4 <==> n % 3 == 1
  {
    var k, r := n / 3, n % 3;
    assert n == 3 * k + r;
    assert n * 4 / 3 == 4 * k + r * 4 / 3;
    assert (n + 2) / 3 == k + (r + 2) / 3;
  }

  // ----- the encoding, written out

  /** Eight characters of the table. */
  function Row(k: nat): (s: string)
    requires k < 8
    ensures |s| == 8
  {
    var v := 8 * k;
    [Table64(v), Table64(v + 1), Table64(v + 2), Table64(v + 3), Table64(v + 4), Table64(v + 5), Table64(v + 6), Table64(v + 7)]
  }

  /** The table is the alphabet of section 4 of RFC 4648. */
  lemma TableIsAlphabet()
    ensures Row(0) == "ABCDEFGH" && Row(1) == "IJKLMNOP" && Row(2) == "QRSTUVWX" && Row(3) == "YZabcdef"
    ensures Row(4) == "ghijklmn" && Row(5) == "opqrstuv" && Row(6) == "wxyz0123" && Row(7) == "456789+/"
  {
  }

  /** The test vectors of section 10 of RFC 4648 for one group. */
  lemma RfcVectors()
    ensures Encode([]) == ""
    ensures Encode([0x66]) == "Zg=="
    ensures Encode([0x66, 0x6f]) == "Zm8="
    ensures Encode([0x66, 0x6f, 0x6f]) == "Zm9v"
  {
  }

  /** Longer data is encoded three bytes at a time. */
  lemma EncodeThree(a: byte, b: byte, c: byte, rest: seq<byte>)
    requires rest != []
    ensures Encode([a, b, c] + rest) == Encode([a, b, c]) + Encode(rest)
  {
    var data := [a, b, c] + rest;
    assert data[..3] == [a, b, c] && data[3..] == rest;
  }
}
