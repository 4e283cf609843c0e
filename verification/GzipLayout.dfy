/** The gzip header written out byte by byte as section 2.3 of RFC 1952 lays it
    out, with its flag values and lengths as numbers, and what the check and the
    reader of lib/content_encoding.c make of it. */
module GzipLayout {
  import opened CText
  import opened GzipHeader

  /** The optional fields of a header. `six` are the modification time, the extra
      flags and the operating system; `ascii` is flag bit 0. */
  datatype Fields = Fields(
    ascii: bool, six: seq<byte>, extra: Option<seq<byte>>, name: Option<seq<byte>>, comment: Option<seq<byte>>,
    crc: Option<(byte, byte)>)

  predicate ZeroFree(s: seq<byte>) {
    forall i :: 0 <= i < |s| ==> s[i] != 0
  }

  predicate Writable(f: Fields) {
    && |f.six| == 6
    && (f.extra.Some? ==> |f.extra.value| < 65536)
    && (f.name.Some? ==> ZeroFree(f.name.value))
    && (f.comment.Some? ==> ZeroFree(f.comment.value))
  }

  function FlagByte(f: Fields): byte {
    (if f.ascii then 1 else 0) + (if f.crc.Some? then 2 else 0) + (if f.extra.Some? then 4 else 0)
    + (if f.name.Some? then 8 else 0) + (if f.comment.Some? then 16 else 0)
  }

  function Start(f: Fields): seq<byte> {
    [31, 139, 8, FlagByte(f)] + f.six
  }

  function ExtraBytes(f: Fields): seq<byte>
    requires Writable(f)
  {
    if f.extra.Some? then [|f.extra.value| % 256, |f.extra.value| / 256] + f.extra.value else []
  }

  function Ended(field: Option<seq<byte>>): seq<byte> {
    if field.Some? then field.value + [0] else []
  }

  function CrcBytes(f: Fields): seq<byte> {
    if f.crc.Some? then [f.crc.value.0, f.crc.value.1] else []
  }

  /** The header as a writer puts it out. */
  function Written(f: Fields): seq<byte>
    requires Writable(f)
  {
    Start(f) + ExtraBytes(f) + Ended(f.name) + Ended(f.comment) + CrcBytes(f)
  }

  function PartsOf(f: Fields): Parts
    requires Writable(f)
  {
    Parts(Start(f), ExtraBytes(f), Ended(f.name), Ended(f.comment), CrcBytes(f))
  }

  /** The flag byte is read bit by bit. */
  lemma BitsAreRead(a: bool, c: bool, e: bool, n: bool, m: bool, flags: byte)
    requires flags == (if a then 1 else 0) + (if c then 2 else 0) + (if e then 4 else 0) + (if n then 8 else 0) + (if m then 16 else 0)
    ensures !Reserved(flags) && (HeadCrc(flags) <==> c) && (ExtraField(flags) <==> e) && (OrigName(flags) <==> n) && (Comment(flags) <==> m)
  {
  }

  lemma EndedIsTerminated(field: Option<seq<byte>>)
    requires field.Some? ==> ZeroFree(field.value)
    ensures ZeroTerminated(field.Some?, Ended(field))
  {
  }

  lemma LengthIsRead(length: nat)
    requires length < 65536
    ensures length / 256 < 256 && Length16(length % 256, length / 256) == length
  {
  }

  lemma WrittenIsWellFormed(f: Fields)
    requires Writable(f)
    ensures WellFormed(PartsOf(f)) && PartsOf(f).Bytes() == Written(f)
  {
    BitsAreRead(f.ascii, f.crc.Some?, f.extra.Some?, f.name.Some?, f.comment.Some?, FlagByte(f));
    EndedIsTerminated(f.name);
    EndedIsTerminated(f.comment);
    if f.extra.Some? {
      LengthIsRead(|f.extra.value|);
    }
  }

  /** Whatever follows a written header, the check accepts it with its length. */
  lemma WrittenIsAccepted(f: Fields, tail: seq<byte>)
    requires Writable(f)
    ensures Check(Written(f) + tail) == HeaderOk(|Written(f)|)
  {
    WrittenIsWellFormed(f);
    HeaderIsFound(Written(f) + tail, PartsOf(f));
  }

  /** Any shorter part of it asks for more bytes. */
  lemma PrefixUnderflows(f: Fields, k: nat)
    requires Writable(f) && k < |Written(f)|
    ensures Check(Written(f)[..k]) == Underflow
  {
    var h := Written(f);
    WrittenIsAccepted(f, []);
    assert h[..k] + h[k..] == h == h + [];
    VerdictIsStable(h[..k], h[k..]);
  }

  /** What a header in the sense of the check was written from. */
  function FieldsOf(p: Parts): Fields
    requires WellFormed(p)
  {
    var flags := p.fixed[3];
    Fields(
      flags % 2 == 1, p.fixed[4..],
      if flags / 4 % 2 == 1 then Some(p.extra[2..]) else None,
      if flags / 8 % 2 == 1 then Some(p.name[..|p.name| - 1]) else None,
      if flags / 16 % 2 == 1 then Some(p.comment[..|p.comment| - 1]) else None,
      if flags / 2 % 2 == 1 then Some((p.crc[0], p.crc[1])) else None)
  }

  lemma BitsAddUp(flags: byte)
    requires flags < 32
    ensures flags == flags % 2 + 2 * (flags / 2 % 2) + 4 * (flags / 4 % 2) + 8 * (flags / 8 % 2) + 16 * (flags / 16 % 2)
  {
  }

  lemma EndedAgain(field: seq<byte>)
    requires ZeroTerminated(true, field)
    ensures field == field[..|field| - 1] + [0] && ZeroFree(field[..|field| - 1])
  {
  }

  lemma ExtraAgain(extra: seq<byte>)
    requires |extra| >= 2 && |extra| == 2 + Length16(extra[0], extra[1])
    ensures var n := |extra[2..]|; n < 65536 && n / 256 < 256 && extra == [n % 256, n / 256] + extra[2..]
  {
    assert extra == [extra[0], extra[1]] + extra[2..];
  }

  lemma TwoAgain(two: seq<byte>)
    requires |two| == 2
    ensures two == [two[0], two[1]]
  {
  }

  lemma StartAgain(p: Parts)
    requires WellFormed(p)
    ensures Start(FieldsOf(p)) == p.fixed
  {
    BitsAddUp(p.fixed[3]);
    assert FlagByte(FieldsOf(p)) == p.fixed[3];
  }

  lemma WellFormedIsWritten(p: Parts)
    requires WellFormed(p)
    ensures Writable(FieldsOf(p)) && PartsOf(FieldsOf(p)) == p
  {
    var f := FieldsOf(p);
    StartAgain(p);
    if f.name.Some? {
      EndedAgain(p.name);
    }
    if f.comment.Some? {
      EndedAgain(p.comment);
    }
    if f.extra.Some? {
      ExtraAgain(p.extra);
    }
    if f.crc.Some? {
      TwoAgain(p.crc);
    }
  }

  /** The check accepts with length n exactly when the first n bytes are a header
      somebody could have written. */
  lemma AcceptsWritten(data: seq<byte>, n: nat)
    requires n <= |data|
    ensures Check(data) == HeaderOk(n) <==> exists f: Fields :: Writable(f) && Written(f) == data[..n]
  {
    CheckIsExact(data, n);
    if IsHeader(data[..n]) {
      var p: Parts :| WellFormed(p) && p.Bytes() == data[..n];
      WellFormedIsWritten(p);
      WrittenIsWellFormed(FieldsOf(p));
      assert Written(FieldsOf(p)) == data[..n];
    }
    if f: Fields :| Writable(f) && Written(f) == data[..n] {
      WrittenIsWellFormed(f);
      PartsFormHeader(PartsOf(f), data[..n]);
    }
  }

  /** The check rejects exactly what has ten bytes and does not start with 31, 139
      and 8 and a fourth byte below 32. */
  lemma RejectsExactly(data: seq<byte>)
    ensures Check(data) == Bad <==>
            |data| >= 10 && !(data[0] == 31 && data[1] == 139 && data[2] == 8 && data[3] < 32)
  {
  }

  /** However a stream is cut into chunks, exactly what follows the written header
      is handed over. */
  method FeedWritten(reader: GzipReader, f: Fields, body: seq<byte>, chunks: seq<seq<byte>>)
    returns (ok: bool, out: seq<byte>)
    requires reader.Valid() && reader.received == []
    requires Writable(f) && Concat(chunks) == Written(f) + body
    modifies reader
    ensures ok && out == body
  {
    WrittenIsAccepted(f, body);
    assert (Written(f) + body)[|Written(f)|..] == body;
    ok, out := Feed(reader, chunks);
  }
}
