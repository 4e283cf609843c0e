/** Skipping the gzip header in lib/content_encoding.c (the branch for zlib
    before 1.2.0.4): the header check, and the reader that collects chunks until
    the header is complete. */
module GzipHeader {
  import opened CText

  const GZIP_MAGIC_0: byte := 0x1f
  const GZIP_MAGIC_1: byte := 0x8b
  const Z_DEFLATED: byte := 8

  // The flag bits of the fourth byte; bits 5 to 7 are reserved.
  predicate HeadCrc(flags: byte) { flags / 2 % 2 == 1 }
  predicate ExtraField(flags: byte) { flags / 4 % 2 == 1 }
  predicate OrigName(flags: byte) { flags / 8 % 2 == 1 }
  predicate Comment(flags: byte) { flags / 16 % 2 == 1 }
  predicate Reserved(flags: byte) { flags >= 32 }

  /** The length of the extra field: two bytes, least significant first. */
  function Length16(lo: byte, hi: byte): nat {
    lo as int + 256 * hi as int
  }

  // ----- the format: section 2.3 of RFC 1952

  datatype Parts = Parts(fixed: seq<byte>, extra: seq<byte>, name: seq<byte>, comment: seq<byte>, crc: seq<byte>)
  {
    function Bytes(): seq<byte> {
      fixed + extra + name + comment + crc
    }
  }

  /** A zero-terminated field, or nothing when its flag is clear. */
  predicate ZeroTerminated(present: bool, field: seq<byte>) {
    if present then field != [] && field[|field| - 1] == 0 && forall i :: 0 <= i < |field| - 1 ==> field[i] != 0
    else field == []
  }

  predicate WellFormed(p: Parts) {
    && |p.fixed| == 10
    && p.fixed[0] == GZIP_MAGIC_0 && p.fixed[1] == GZIP_MAGIC_1 && p.fixed[2] == Z_DEFLATED
    && var flags := p.fixed[3];
    && !Reserved(flags)
    && (if ExtraField(flags) then |p.extra| >= 2 && |p.extra| == 2 + Length16(p.extra[0], p.extra[1]) else p.extra == [])
    && ZeroTerminated(OrigName(flags), p.name)
    && ZeroTerminated(Comment(flags), p.comment)
    && |p.crc| == (if HeadCrc(flags) then 2 else 0)
  }

  ghost predicate IsHeader(h: seq<byte>) {
    exists p: Parts :: WellFormed(p) && p.Bytes() == h
  }

  predicate BadStart(data: seq<byte>) {
    |data| >= 10 &&
    (data[0] != GZIP_MAGIC_0 || data[1] != GZIP_MAGIC_1 || data[2] != Z_DEFLATED || Reserved(data[3]))
  }

  // ----- the scan

  datatype Verdict = HeaderOk(length: nat) | Bad | Underflow

  function FindZero(data: seq<byte>, from: nat): (k: nat)
    requires from <= |data|
    ensures from <= k <= |data| && (k < |data| ==> data[k] == 0)
    ensures forall i :: from <= i < k ==> data[i] != 0
    decreases |data| - from
  {
    if from == |data| || data[from] == 0 then from else FindZero(data, from + 1)
  }

  /** Position after the extra field; None when bytes are missing. */
  function AfterExtra(data: seq<byte>, present: bool, at: nat): (r: Option<nat>)
    ensures r.Some? && at <= |data| ==> at <= r.value <= |data|
  {
    if !present then Some(at)
    else if at + 2 > |data| then None
    else
      var length := Length16(data[at], data[at + 1]);
      if at + 2 + length > |data| then None else Some(at + 2 + length)
  }

  function AfterZero(data: seq<byte>, present: bool, at: nat): (r: Option<nat>)
    requires at <= |data|
    ensures r.Some? ==> at <= r.value <= |data|
  {
    if !present then Some(at)
    else
      var k := FindZero(data, at);
      if k == |data| then None else Some(k + 1)
  }

  function HeaderEnd(data: seq<byte>): (r: Option<nat>)
    requires |data| >= 10
    ensures r.Some? ==> 10 <= r.value <= |data|
  {
    var flags := data[3];
    var a := AfterExtra(data, ExtraField(flags), 10);
    if a.None? then None
    else
      var b := AfterZero(data, OrigName(flags), a.value);
      if b.None? then None
      else
        var c := AfterZero(data, Comment(flags), b.value);
        if c.None? then None
        else
          var d := c.value + (if HeadCrc(flags) then 2 else 0);
          if d > |data| then None else Some(d)
  }

  function Check(data: seq<byte>): (v: Verdict)
    ensures v.HeaderOk? ==> v.length <= |data|
  {
    if |data| < 10 then Underflow
    else if BadStart(data) then Bad
    else
      match HeaderEnd(data)
      case None => Underflow
      case Some(n) => HeaderOk(n)
  }

  /** check_gzip_header(), with its two byte loops. */
  method CheckGzipHeader(data: seq<byte>) returns (v: Verdict)
    ensures v == Check(data)
  {
    if |data| < 10 {
      return Underflow;
    }
    if data[0] != GZIP_MAGIC_0 || data[1] != GZIP_MAGIC_1 {
      return Bad;
    }
    var flags := data[3];
    if data[2] != Z_DEFLATED || Reserved(flags) {
      return Bad;
    }
    var at := 10;
    if ExtraField(flags) {
      if |data| - at < 2 {
        return Underflow;
      }
      var extraLength := Length16(data[at], data[at + 1]);
      if |data| - at < extraLength + 2 {
        return Underflow;
      }
      at := at + extraLength + 2;
    }
    if OrigName(flags) {
      at := SkipToZero(data, at);
      if at == |data| {
        return Underflow;
      }
      at := at + 1;
    }
    if Comment(flags) {
      at := SkipToZero(data, at);
      if at == |data| {
        return Underflow;
      }
      at := at + 1;
    }
    if HeadCrc(flags) {
      if |data| - at < 2 {
        return Underflow;
      }
      at := at + 2;
    }
    v := HeaderOk(at);
  }

  method SkipToZero(data: seq<byte>, from: nat) returns (k: nat)
    requires from <= |data|
    ensures k == FindZero(data, from)
  {
    k := from;
    while k < |data| && data[k] != 0
      invariant from <= k <= |data| && FindZero(data, k) == FindZero(data, from)
    {
      k := k + 1;
    }
  }

  // ----- the scan recognises exactly the format

  lemma {:induction false} FirstZero(data: seq<byte>, from: nat, k: nat)
    requires from <= k < |data| && data[k] == 0 && forall i :: from <= i < k ==> data[i] != 0
    ensures FindZero(data, from) == k
    decreases k - from
  {
    if from < k {
      FirstZero(data, from + 1, k);
    }
  }

  lemma FieldAt(data: seq<byte>, present: bool, at: nat, field: seq<byte>)
    requires at + |field| <= |data| && data[at..at + |field|] == field
    requires ZeroTerminated(present, field)
    ensures AfterZero(data, present, at) == Some(at + |field|)
  {
    if present {
      var k := at + |field| - 1;
      forall i | at <= i < k ensures data[i] != 0 {
        assert data[i] == field[i - at];
      }
      assert data[k] == field[|field| - 1];
      FirstZero(data, at, k);
    }
  }

  lemma FieldFound(data: seq<byte>, present: bool, at: nat)
    requires at <= |data| && AfterZero(data, present, at).Some?
    ensures ZeroTerminated(present, data[at..AfterZero(data, present, at).value])
  {
  }

  lemma ExtraAt(data: seq<byte>, present: bool, extra: seq<byte>)
    requires |data| >= 10 + |extra| && data[10..10 + |extra|] == extra
    requires if present then |extra| >= 2 && |extra| == 2 + Length16(extra[0], extra[1]) else extra == []
    ensures AfterExtra(data, present, 10) == Some(10 + |extra|)
  {
    if present {
      assert data[10] == extra[0] && data[11] == extra[1];
    }
  }

  lemma PartsLieInData(data: seq<byte>, p: Parts)
    requires |p.fixed| == 10 && p.Bytes() <= data
    ensures |data| >= |p.Bytes()| && data[..10] == p.fixed
    ensures data[10..10 + |p.extra|] == p.extra
    ensures var b := 10 + |p.extra|; data[b..b + |p.name|] == p.name
    ensures var c := 10 + |p.extra| + |p.name|; data[c..c + |p.comment|] == p.comment
  {
    var tail := data[|p.Bytes()|..];
    assert data == p.fixed + p.extra + p.name + p.comment + p.crc + tail;
  }

  lemma EndIsFound(data: seq<byte>, p: Parts)
    requires |data| >= Length(p) && |p.fixed| == 10 && WellFormed(p) && data[3] == p.fixed[3]
    requires data[10..10 + |p.extra|] == p.extra
    requires var b := 10 + |p.extra|; data[b..b + |p.name|] == p.name
    requires var c := 10 + |p.extra| + |p.name|; data[c..c + |p.comment|] == p.comment
    ensures HeaderEnd(data) == Some(Length(p))
  {
    var flags := data[3];
    var b := 10 + |p.extra|;
    FieldsAt(data, ExtraField(flags), OrigName(flags), Comment(flags), p);
    EndsAt(data, b, b + |p.name|, b + |p.name| + |p.comment|);
  }

  lemma FieldsAt(data: seq<byte>, extra: bool, name: bool, comment: bool, p: Parts)
    requires |data| >= Length(p) && |p.fixed| == 10 && data[10..10 + |p.extra|] == p.extra
    requires var b := 10 + |p.extra|; data[b..b + |p.name|] == p.name
    requires var c := 10 + |p.extra| + |p.name|; data[c..c + |p.comment|] == p.comment
    requires if extra then |p.extra| >= 2 && |p.extra| == 2 + Length16(p.extra[0], p.extra[1]) else p.extra == []
    requires ZeroTerminated(name, p.name) && ZeroTerminated(comment, p.comment)
    ensures var b := 10 + |p.extra|; AfterExtra(data, extra, 10) == Some(b) && AfterZero(data, name, b) == Some(b + |p.name|)
    ensures var c := 10 + |p.extra| + |p.name|; AfterZero(data, comment, c) == Some(c + |p.comment|)
  {
    var b := 10 + |p.extra|;
    ExtraAt(data, extra, p.extra);
    FieldAt(data, name, b, p.name);
    FieldAt(data, comment, b + |p.name|, p.comment);
  }

  function Length(p: Parts): nat {
    |p.fixed| + |p.extra| + |p.name| + |p.comment| + |p.crc|
  }

  /** The position behind each field gives the end of the header. */
  lemma EndsAt(data: seq<byte>, b: nat, c: nat, d: nat)
    requires |data| >= 10 && b <= |data| && c <= |data|
    requires AfterExtra(data, ExtraField(data[3]), 10) == Some(b)
    requires AfterZero(data, OrigName(data[3]), b) == Some(c) && AfterZero(data, Comment(data[3]), c) == Some(d)
    ensures var end := d + (if HeadCrc(data[3]) then 2 else 0);
            HeaderEnd(data) == if end > |data| then None else Some(end)
  {
  }

  /** Completeness: data that starts with a header gets that header's length. */
  lemma HeaderIsFound(data: seq<byte>, p: Parts)
    requires WellFormed(p) && p.Bytes() <= data
    ensures Check(data) == HeaderOk(|p.Bytes()|)
  {
    PartsLieInData(data, p);
    var start := data[..10];
    assert data[0] == start[0] && data[1] == start[1] && data[2] == start[2] && data[3] == start[3];
    EndIsFound(data, p);
  }

  lemma Consecutive(data: seq<byte>, a: nat, b: nat, c: nat, d: nat)
    requires 10 <= a <= b <= c <= d <= |data|
    ensures Parts(data[..10], data[10..a], data[a..b], data[b..c], data[c..d]).Bytes() == data[..d]
  {
    assert data[..10] + data[10..a] == data[..a];
    assert data[..a] + data[a..b] == data[..b];
    assert data[..b] + data[b..c] == data[..c];
    assert data[..c] + data[c..d] == data[..d];
  }

  lemma PartsFormHeader(p: Parts, h: seq<byte>)
    requires WellFormed(p) && p.Bytes() == h
    ensures IsHeader(h)
  {
  }

  /** Soundness: the bytes up to the reported length form a header. */
  lemma FoundIsHeader(data: seq<byte>)
    requires Check(data).HeaderOk?
    ensures IsHeader(data[..Check(data).length])
  {
    var flags := data[3];
    var a := AfterExtra(data, ExtraField(flags), 10).value;
    var b := AfterZero(data, OrigName(flags), a).value;
    var c := AfterZero(data, Comment(flags), b).value;
    var d := Check(data).length;
    FieldFound(data, OrigName(flags), a);
    FieldFound(data, Comment(flags), b);
    Consecutive(data, a, b, c, d);
    var p := Parts(data[..10], data[10..a], data[a..b], data[b..c], data[c..d]);
    assert p.fixed[3] == flags;
    assert p.extra == data[10..a] && (ExtraField(flags) ==> p.extra[0] == data[10] && p.extra[1] == data[11]);
    PartsFormHeader(p, data[..d]);
  }

  /** The check accepts with length n exactly when the first n bytes are a header. */
  lemma CheckIsExact(data: seq<byte>, n: nat)
    requires n <= |data|
    ensures Check(data) == HeaderOk(n) <==> IsHeader(data[..n])
  {
    if Check(data) == HeaderOk(n) {
      FoundIsHeader(data);
    }
    if IsHeader(data[..n]) {
      var p: Parts :| WellFormed(p) && p.Bytes() == data[..n];
      HeaderIsFound(data, p);
    }
  }

  /** A verdict other than "more bytes needed" does not depend on what follows;
      an accepting one needs no more than the header itself. */
  lemma VerdictIsStable(data: seq<byte>, more: seq<byte>)
    ensures Check(data).HeaderOk? ==> Check(data + more) == Check(data)
    ensures Check(data).Bad? ==> Check(data + more) == Bad
    ensures Check(data + more).HeaderOk? && Check(data + more).length <= |data| ==> Check(data) == Check(data + more)
    ensures Check(data + more).Bad? && |data| >= 10 ==> Check(data) == Bad
  {
    var all := data + more;
    if Check(data).HeaderOk? {
      var n := Check(data).length;
      assert all[..n] == data[..n];
      CheckIsExact(data, n);
      CheckIsExact(all, n);
    }
    if Check(all).HeaderOk? && Check(all).length <= |data| {
      var n := Check(all).length;
      assert all[..n] == data[..n];
      CheckIsExact(data, n);
      CheckIsExact(all, n);
    }
  }

  // ----- the chunked reader

  /** The bytes of a stream that inflate() is to see. */
  function Compressed(stream: seq<byte>): seq<byte> {
    match Check(stream)
    case HeaderOk(n) => stream[n..]
    case Bad => []
    case Underflow => []
  }

  datatype ZlibInit = Uninit | Init | HeaderPending | Inflating

  class GzipReader {
    var state: ZlibInit
    var block: array<byte>          // bytes collected while the header is incomplete
    ghost var received: seq<byte>   // everything since the stream began
    ghost var handed: seq<byte>     // everything handed to inflate()

    ghost predicate Valid()
      reads this, block
    {
      && handed == Compressed(received)
      && match state
         case Uninit => received == []
         case Init => received == []
         case HeaderPending => block[..] == received && Check(received).Underflow?
         case Inflating => Check(received).HeaderOk?
    }

    constructor ()
      ensures Valid() && state == Uninit && received == [] && handed == []
    {
      state, block := Uninit, new byte[0];
      received, handed := [], [];
    }

    /** Enlarges the block and copies the new chunk behind the old bytes. */
    method AppendToBlock(str: seq<byte>)
      modifies this`block
      ensures fresh(block) && block[..] == old(block[..]) + str
    {
      var oldblock := block;
      var avail := oldblock.Length + |str|;
      block := new byte[avail](i requires 0 <= i < avail reads oldblock =>
        if i < oldblock.Length then oldblock[i] else str[i - oldblock.Length]);
    }

    /** The header check on the first chunk of a stream. */
    method FirstChunk(str: seq<byte>) returns (ok: bool, out: seq<byte>)
      modifies this`state, this`block
      ensures block == old(block) || fresh(block)
      ensures match Check(str)
              case HeaderOk(hlen) => ok && state == Inflating && out == str[hlen..]
              case Underflow => ok && state == HeaderPending && block[..] == str && out == []
              case Bad => !ok && state == Uninit && out == []
    {
      var nread := |str|;
      ok, out := true, [];
      var v := CheckGzipHeader(str);
      match v {
        case HeaderOk(hlen) =>
          out := str[hlen..];
          state := Inflating;
        case Underflow =>
          block := new byte[nread](i requires 0 <= i < nread => str[i]);
          state := HeaderPending;
        case Bad =>
          ok, state := false, Uninit;
      }
    }

    /** The header check on a chunk that continues an incomplete header. */
    method LaterChunk(str: seq<byte>, ghost before: seq<byte>) returns (ok: bool, out: seq<byte>)
      requires block[..] == before && Check(before).Underflow? && state == HeaderPending
      modifies this`state, this`block
      ensures fresh(block)
      ensures match Check(before + str)
              case HeaderOk(hlen) => ok && state == Inflating && out == (before + str)[hlen..]
              case Underflow => ok && state == HeaderPending && block[..] == before + str && out == []
              case Bad => !ok && state == Uninit && out == []
    {
      var nread := |str|;
      ok, out := true, [];
      var avail := block.Length + nread;
      VerdictIsStable(before, str);
      AppendToBlock(str);
      var v := CheckGzipHeader(block[..]);
      match v {
        case HeaderOk(hlen) =>
          // the pointer into the current chunk lies inside it
          var offset := hlen + nread - avail;
          assert 0 <= offset <= nread;
          out := str[offset..];
          assert (before + str)[hlen..] == out;
          state := Inflating;
        case Underflow =>
        case Bad =>
          ok, state := false, Uninit;
      }
    }

    /** Curl_unencode_gzip_write(): `out` is what this call hands to inflate().
        A bad header ends the stream, and the next call starts a new one. */
    method Write(str: seq<byte>) returns (ok: bool, out: seq<byte>)
      requires Valid()
      modifies this
      ensures Valid() && (block == old(block) || fresh(block))
      ensures ok <==> !Check(old(received) + str).Bad?
      ensures ok ==> received == old(received) + str && handed == old(handed) + out
      ensures !ok ==> state == Uninit && received == [] && out == []
    {
      out := [];
      ok := true;
      ghost var before, all := received, received + str;
      CompressedGrows(before, str);
      NoBytesYet(before, str);
      if state == Uninit {
        state := Init;
      }
      if state == Init {
        assert all == str;
        ok, out := FirstChunk(str);
      } else if state == HeaderPending {
        ok, out := LaterChunk(str, received);
      } else {
        out := str;
        VerdictIsStable(before, str);
      }
      received := if ok then all else [];
      handed := if ok then handed + out else [];
    }
  }

  /** However a stream is cut into chunks, the same compressed bytes come out:
      what is handed over after `a` is continued, not revised, by `b`. */
  lemma CompressedGrows(a: seq<byte>, b: seq<byte>)
    ensures Check(a + b).Bad? || Compressed(a) <= Compressed(a + b)
    ensures Check(a).HeaderOk? ==> Compressed(a + b) == Compressed(a) + b
  {
    VerdictIsStable(a, b);
    if Check(a).HeaderOk? {
      assert (a + b)[Check(a).length..] == a[Check(a).length..] + b;
    }
  }

  /** As long as the header is incomplete nothing has been handed over. */
  lemma NoBytesYet(a: seq<byte>, b: seq<byte>)
    ensures Check(a).Underflow? ==> Compressed(a) == [] && Compressed(a) + Compressed(a + b) == Compressed(a + b)
    ensures a == [] ==> Check(a).Underflow? && a + b == b
  {
  }

  /** Once the header is bad it stays so. */
  lemma {:induction false} BadStays(chunks: seq<seq<byte>>, k: nat)
    requires k <= |chunks| && Check(Concat(chunks[..k])).Bad?
    ensures Check(Concat(chunks)).Bad?
    decreases |chunks| - k
  {
    if k == |chunks| {
      assert chunks[..k] == chunks;
    } else {
      ConcatNext(chunks, k);
      VerdictIsStable(Concat(chunks[..k]), chunks[k]);
      BadStays(chunks, k + 1);
    }
  }

  /** Feeds the chunks of a stream in turn, stopping at the first error. */
  method Feed(reader: GzipReader, chunks: seq<seq<byte>>) returns (ok: bool, out: seq<byte>)
    requires reader.Valid() && reader.received == []
    modifies reader
    ensures ok <==> !Check(Concat(chunks)).Bad?
    ensures ok ==> out == Compressed(Concat(chunks))
  {
    ok, out := true, [];
    var i := 0;
    assert chunks[..0] == [];
    while i < |chunks|
      invariant 0 <= i <= |chunks| && reader.Valid()
      invariant !Check(Concat(chunks[..i])).Bad?
      invariant reader.received == Concat(chunks[..i])
      invariant out == reader.handed
    {
      ConcatNext(chunks, i);
      var part;
      ok, part := reader.Write(chunks[i]);
      if !ok {
        BadStays(chunks, i + 1);
        return;
      }
      out := out + part;
      i := i + 1;
    }
    assert chunks[..i] == chunks;
  }

  function Concat(chunks: seq<seq<byte>>): seq<byte> {
    if chunks == [] then [] else Concat(chunks[..|chunks| - 1]) + chunks[|chunks| - 1]
  }

  lemma ConcatNext(chunks: seq<seq<byte>>, i: nat)
    requires i < |chunks|
    ensures Concat(chunks[..i + 1]) == Concat(chunks[..i]) + chunks[i]
  {
    assert chunks[..i + 1][..i] == chunks[..i];
  }
}
