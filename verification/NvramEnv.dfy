/** The environment cache of lib/libnvram/nvram_env.c in front of one flash
    block: nvram_init, nvram_close, nvram_bufget_mtk, nvram_bufset, nvram_commit,
    nvram_bufget, nvram_get_hertversion, nvram_get and nvram_set, in the build
    without CONFIG_KERNEL_NVRAM and CONFIG_DUAL_IMAGE.
    MAX_CACHE_ENTRY and the block sizes come from nvram.h, which is not part of
    this model, so they are constructor parameters; so is crc32(). */
module NvramEnv {
  import opened CText
  import opened NvramFormat

  /** One cache slot: cache[i].name is NULL, or both strings are set. */
  datatype Slot = Empty | Full(entry: Entry)

  class EnvBlock {
    const maxEntries: nat
    /** Bytes of data in the block: flash_max_len less the size of the crc. */
    const length: nat
    const crcSize: nat
    const crc32: string -> int
    const cache: array<Slot>
    var valid: bool
    var dirty: bool
    var flashCrc: int
    var flashData: string
    /** The entries in the occupied slots. */
    ghost var entries: seq<Entry>

    ghost predicate Valid()
      reads this, cache
    {
      && cache.Length == maxEntries && length > 0
      && CacheHolds(entries)
      && CStrings(entries)
      && FlashOk()
      && (dirty ==> valid)
      && (!valid ==> entries == [])
      && (valid && !dirty ==> Cuts(entries) == Loaded())
    }

    /** The occupied slots are a prefix of the array. */
    ghost predicate CacheHolds(held: seq<Entry>)
      reads cache
    {
      && |held| <= cache.Length
      && (forall i :: 0 <= i < |held| ==> cache[i] == Full(held[i]))
      && (forall i :: |held| <= i < cache.Length ==> cache[i].Empty?)
    }

    /** The block has its length and, when its crc matches, ends in a NUL. */
    ghost predicate FlashOk()
      reads this
    {
      && |flashData| == length && length > 0
      && (crc32(flashData) == flashCrc ==> flashData[length - 1] == NUL)
    }

    /** What nvram_init() would load. */
    ghost function Loaded(): (loaded: seq<Entry>)
      reads this
      ensures |loaded| <= maxEntries
    {
      if crc32(flashData) == flashCrc then Parse(flashData, maxEntries) else []
    }

    /** The entries a reader sees: the cache, or the flash when not loaded. */
    ghost function Current(): seq<Entry>
      reads this
    {
      if valid then entries else Loaded()
    }

    constructor (maxEntries: nat, length: nat, crcSize: nat, crc32: string -> int, flashCrc: int, flashData: string)
      requires |flashData| == length > 0
      requires crc32(flashData) == flashCrc ==> flashData[length - 1] == NUL
      ensures Valid() && !valid && !dirty && fresh(cache)
      ensures this.maxEntries == maxEntries && this.length == length && this.crc32 == crc32
      ensures this.flashData == flashData && this.flashCrc == flashCrc
    {
      this.maxEntries, this.length, this.crcSize, this.crc32 := maxEntries, length, crcSize, crc32;
      this.cache := new Slot[maxEntries](_ => Empty);
      this.valid, this.dirty := false, false;
      this.flashCrc, this.flashData := flashCrc, flashData;
      this.entries := [];
    }

    /** nvram_init(): loading changes what is cached, not what a reader sees. */
    method Init()
      requires Valid()
      modifies this`valid, this`dirty, this`entries, cache
      ensures Valid() && valid
      ensures dirty == old(dirty)
      ensures entries == Current() == old(Current())
    {
      if valid {
        return;
      }
      var data := new char[length](i requires 0 <= i < |flashData| reads this => flashData[i]);
      assert data[..] == flashData;
      if crc32(data[..]) == flashCrc {
        var held := Fill(data);
        entries := held;
      }
      ParsedIsPlain(flashData, maxEntries);
      valid, dirty := true, false;
    }

    /** The parsing loop of nvram_init(), on an empty cache. */
    method Fill(data: array<char>) returns (ghost held: seq<Entry>)
      requires cache.Length == maxEntries && data.Length > 0 && data[data.Length - 1] == NUL
      requires CacheHolds([])
      modifies cache, data
      ensures held == Parse(old(data[..]), maxEntries) && CacheHolds(held)
    {
      var i, p: nat := 0, 0;
      held := [];
      ghost var at := [data[..]];
      while i < maxEntries
        invariant 0 <= i == |held| <= maxEntries && p < data.Length
        invariant Walked(ScanEntry, at, held) && at[0] == old(data[..]) && at[i] == data[p..]
        invariant data[data.Length - 1] == NUL && CacheHolds(held)
      {
        WalkEnds(ScanEntry, at, held, maxEntries);
        var found, next, last := TakeEntry(data, p);
        if found.None? {
          return;
        }
        ghost var left := data[next..];
        cache[i] := Full(found.value);
        assert data[next..] == left;
        held := held + [found.value];
        if last {
          return;
        }
        at := at + [left];
        p := next;
        i := i + 1;
      }
      WalkEnds(ScanEntry, at, held, maxEntries);
    }

    /** nvram_close(): a dirty cache is written first, so the block afterwards
        shows the same entries, split at the first '=' of their text. */
    method Close()
      requires Valid()
      requires dirty ==> Fits(entries, length)
      modifies this, cache
      ensures Valid() && !valid && !dirty
      ensures Current() == if old(valid) then Cuts(old(entries)) else old(Loaded())
    {
      if !valid {
        return;
      }
      if dirty {
        var rc := Commit();
      }
      EmptyCache();
      entries := [];
      valid := false;
    }

    /** nvram_close() frees every name and value. */
    method EmptyCache()
      requires cache.Length == maxEntries
      modifies cache
      ensures CacheHolds([])
    {
      var i := 0;
      while i < maxEntries
        invariant 0 <= i <= maxEntries
        invariant forall k :: 0 <= k < i ==> cache[k].Empty?
      {
        cache[i] := Empty;
        i := i + 1;
      }
    }

    /** cache_idx() */
    method CacheIdx(name: string) returns (idx: int)
      requires Valid()
      ensures idx == if IndexOf(entries, name) < |entries| then IndexOf(entries, name) else -1
    {
      var i := 0;
      while i < maxEntries
        invariant 0 <= i <= |entries|
        invariant forall k :: 0 <= k < i ==> entries[k].name != name
      {
        if cache[i].Empty? {
          return -1;
        }
        if cache[i].entry.name == name {
          return i;
        }
        i := i + 1;
      }
      idx := -1;
    }

    /** nvram_bufget_mtk(): the value of the first entry with this name, or the
        empty string. */
    method BufGet(name: string) returns (value: string)
      requires Valid()
      modifies this`valid, this`dirty, this`entries, cache
      ensures Valid() && valid && dirty == old(dirty)
      ensures Current() == old(Current())
      ensures value == ValueOr(Lookup(old(Current()), name))
    {
      if !valid {
        Init();
      }
      LookupAt(entries, name);
      var idx := CacheIdx(name);
      if idx != -1 {
        value := cache[idx].entry.value;
      } else {
        value := "";
      }
    }

    /** The first free slot, or MAX_CACHE_ENTRY. */
    method FirstEmpty() returns (idx: nat)
      requires Valid()
      ensures idx == |entries|
    {
      idx := 0;
      while idx < maxEntries && cache[idx].Full?
        invariant 0 <= idx <= |entries|
      {
        idx := idx + 1;
      }
    }

    /** nvram_bufset(): stores the value, or changes nothing and returns -1 when
        the name is new and every slot is taken. */
    method BufSet(name: string, value: string) returns (rc: int)
      requires Valid() && NoNul(name) && NoNul(value)
      modifies this`valid, this`dirty, this`entries, cache
      ensures Valid() && valid
      ensures rc == if HasRoom(old(Current()), maxEntries, name) then 0 else -1
      ensures Current() == Stored(old(Current()), maxEntries, name, value)
      ensures dirty == (old(dirty) || rc == 0)
    {
      if !valid {
        Init();
      }
      var idx := CacheIdx(name);
      if idx == -1 {
        idx := FirstEmpty();
        if idx == maxEntries {
          return -1;
        }
      }
      Put(idx, name, value);
      rc := 0;
    }

    method Put(idx: nat, name: string, value: string)
      requires Valid() && valid && NoNul(name) && NoNul(value)
      requires idx == IndexOf(entries, name) < maxEntries
      modifies this`dirty, this`entries, cache
      ensures Valid() && dirty && entries == Updated(old(entries), name, value)
    {
      cache[idx] := Full(Entry(name, value));
      entries := Updated(entries, name, value);
      dirty := true;
    }

    /** nvram_commit(): afterwards the flash holds the current entries, each with
        its NUL and a final one. The caller keeps the entries within the block:
        the length check in the loop never sees an entry that does not fit. */
    method Commit() returns (rc: int)
      requires Valid()
      requires dirty ==> Fits(entries, length)
      modifies this, cache
      ensures Valid() && valid && !dirty && rc == 0
      ensures Current() == old(Current())
      ensures cache[..] == old(cache[..]) || !old(valid)
      ensures old(dirty) ==> flashData == Block(entries, length) && flashCrc == crc32(flashData)
      ensures !old(dirty) ==> flashData == old(flashData) && flashCrc == old(flashCrc)
      ensures Loaded() == Cuts(entries)
    {
      if !valid {
        Init();
      }
      if !dirty {
        return 0;
      }
      var data, written := Serialize();
      if !written {
        return -1;
      }
      WriteFlash(data);
      dirty := false;
      rc := 0;
    }

    method WriteFlash(data: array<char>)
      requires CStrings(entries) && |entries| <= maxEntries && Fits(entries, length)
      requires length > 0 && data[..] == Block(entries, length)
      modifies this`flashCrc, this`flashData
      ensures FlashOk() && flashData == Block(entries, length) && flashCrc == crc32(flashData)
      ensures Loaded() == Cuts(entries)
    {
      flashCrc := crc32(data[..]);
      flashData := data[..];
      ParseOfBlock(entries, maxEntries, length);
    }

    /** The loop of nvram_commit() that lays the entries out in a zeroed buffer. */
    method Serialize() returns (data: array<char>, written: bool)
      requires cache.Length == maxEntries && CacheHolds(entries) && length > 0 && Fits(entries, length)
      ensures fresh(data) && written && data[..] == Block(entries, length)
    {
      data := new char[length](_ => NUL);
      var i, p := 0, 0;
      while i < maxEntries
        invariant 0 <= i <= |entries|
        invariant p == |Env(entries[..i])| && p + 1 <= length
        invariant data[..p] == Env(entries[..i])
        invariant forall k :: p <= k < length ==> data[k] == NUL
      {
        if cache[i].Empty? {
          break;
        }
        EnvGrows(entries, i);
        if p + 2 >= length + crcSize {
          return data, false;
        }
        p := Print(data, p, cache[i].entry);
        i := i + 1;
      }
      assert entries[..i] == entries;
      data[p] := NUL;
      IsBlock(entries, data[..], p);
      written := true;
    }

    /** nvram_bufget(): the version entry is shown with digits of the serial
        number in it. */
    method BufGetShown(name: string) returns (value: string)
      requires Valid() && (name == ROUTE_VER ==> VersionFits(Current()))
      modifies this`valid, this`dirty, this`entries, cache
      ensures Valid() && valid && dirty == old(dirty)
      ensures Current() == old(Current())
      ensures value == Shown(old(Current()), name)
    {
      value := BufGet(name);
      if name == ROUTE_VER {
        var serial := BufGet(ROUTE_SN);
        value := HertVersion(value, serial);
      }
    }

    /** nvram_get(): the cache is written back and loaded again before the
        lookup. */
    method Get(name: string) returns (value: string)
      requires Valid() && (dirty ==> Fits(Current(), length))
      requires name == ROUTE_VER ==> VersionFits(Cuts(Current()))
      modifies this, cache
      ensures Valid() && valid && !dirty
      ensures Current() == Cuts(old(Current()))
      ensures value == Shown(Current(), name)
    {
      ParsedIsPlain(flashData, maxEntries);
      assert old(!valid) ==> Cuts(Loaded()) == Loaded();
      Close();
      Init();
      value := BufGetShown(name);
    }

    /** nvram_set(): stored in the cache and written through to the flash; a set
        that finds no room changes nothing a reader sees. */
    method Set(name: string, value: string) returns (rc: int)
      requires Valid() && NoNul(name) && NoNul(value)
      requires HasRoom(Current(), maxEntries, name) ==> Fits(Updated(Current(), name, value), length)
      modifies this, cache
      ensures Valid() && valid
      ensures rc == if HasRoom(old(Current()), maxEntries, name) then 0 else -1
      ensures Current() == Stored(old(Current()), maxEntries, name, value)
      ensures rc == 0 ==> !dirty && Loaded() == Cuts(Current())
      ensures rc == -1 ==> dirty == old(dirty) && flashData == old(flashData) && flashCrc == old(flashCrc)
    {
      rc := BufSet(name, value);
      if rc == -1 {
        return -1;
      }
      rc := Commit();
    }
  }

  // ----- the version entry

  const ROUTE_VER := "HE_ROUTE_VER"
  const ROUTE_SN := "HE_ROUTE_SN"

  /** The version with characters of the serial number put over its sixth, eighth,
      ninth and tenth; the rest of the static buffer is zero. */
  function RouteVersion(version: string, serial: string): string
    requires |version| < 64
  {
    if |serial| <= 19 then ""
    else CStr((version + Nuls(64 - |version|))[5 := serial[2]][7 := serial[3]][8 := serial[4]][9 := serial[5]])
  }

  /** Version and serial number fit the buffers they are printed into. */
  predicate VersionFits(entries: seq<Entry>) {
    |ValueOr(Lookup(entries, ROUTE_VER))| < 64 && |ValueOr(Lookup(entries, ROUTE_SN))| < 128
  }

  /** What nvram_bufget() shows of an entry. */
  function Shown(entries: seq<Entry>, name: string): string
    requires name == ROUTE_VER ==> VersionFits(entries)
  {
    var value := ValueOr(Lookup(entries, name));
    if name == ROUTE_VER then RouteVersion(value, ValueOr(Lookup(entries, ROUTE_SN))) else value
  }

  /** nvram_get_hertversion() */
  method HertVersion(version: string, serial: string) returns (shown: string)
    requires |version| < 64 && |serial| < 128
    ensures shown == RouteVersion(version, serial)
  {
    var ret := new char[64](i => if 0 <= i < |version| then version[i] else NUL);
    if |serial| <= 19 {
      return "";
    }
    ghost var was := version + Nuls(64 - |version|);
    assert ret[..] == was;
    var ptr, stbid := 5, 2;
    ret[ptr] := serial[stbid];
    ptr, stbid := ptr + 2, stbid + 1;
    ret[ptr] := serial[stbid];
    ptr, stbid := ptr + 1, stbid + 1;
    ret[ptr] := serial[stbid];
    ptr, stbid := ptr + 1, stbid + 1;
    ret[ptr] := serial[stbid];
    assert ret[..] == was[5 := serial[2]][7 := serial[3]][8 := serial[4]][9 := serial[5]];
    shown := CStr(ret[..]);
  }

  /** Without a serial number of twenty characters nothing is shown, and a version
      of less than five is shown as it is. */
  lemma RouteVersionOfShort(version: string, serial: string)
    requires |version| < 64 && NoNul(version)
    ensures |serial| < 20 ==> RouteVersion(version, serial) == ""
    ensures |serial| >= 20 && |version| < 5 ==> RouteVersion(version, serial) == version
  {
    if |serial| >= 20 && |version| < 5 {
      var text := (version + Nuls(64 - |version|))[5 := serial[2]][7 := serial[3]][8 := serial[4]][9 := serial[5]];
      assert text == version + [NUL] + text[|version| + 1..];
      CStrStops(version, text[|version| + 1..]);
    }
  }

  /** A full version keeps its length and everything but four characters. */
  lemma RouteVersionOf(version: string, serial: string)
    requires 10 <= |version| < 64 && NoNul(version) && NoNul(serial) && |serial| > 19
    ensures RouteVersion(version, serial) ==
            version[..5] + [serial[2]] + [version[6]] + serial[3..6] + version[10..]
  {
    var shown := version[..5] + [serial[2]] + [version[6]] + serial[3..6] + version[10..];
    var rest := Nuls(63 - |version|);
    assert Nuls(64 - |version|) == [NUL] + rest;
    assert (version + Nuls(64 - |version|))[5 := serial[2]][7 := serial[3]][8 := serial[4]][9 := serial[5]]
        == shown + [NUL] + rest;
    forall i | 0 <= i < |shown| ensures shown[i] != NUL {
      assert shown[i] == if i == 5 then serial[2] else if 7 <= i < 10 then serial[i - 4] else version[i];
    }
    CStrStops(shown, rest);
  }

  /** strchr() on the rest of a buffer. */
  method StrChr(data: array<char>, p: nat, c: char) returns (q: Option<nat>)
    requires p <= data.Length
    ensures Find(data[p..], c) == if q.Some? then Some(q.value - p) else None
    ensures q.Some? ==> p <= q.value < data.Length
  {
    var i := p;
    while i < data.Length
      invariant p <= i <= data.Length
      invariant Find(data[p..], c) == var r := Find(data[i..], c); if r.Some? then Some(r.value + i - p) else None
    {
      assert data[i..][1..] == data[i + 1..];
      if data[i] == c {
        return Some(i);
      }
      if data[i] == NUL {
        return None;
      }
      i := i + 1;
    }
    q := None;
  }

  /** One turn of the parsing loop: the '=' becomes a NUL in place, and the two
      strings are copied out. */
  method TakeEntry(data: array<char>, p: nat) returns (found: Option<Entry>, next: nat, last: bool)
    requires p < data.Length && data[data.Length - 1] == NUL
    modifies data
    ensures data[data.Length - 1] == NUL
    ensures found.None? ==> ScanEntry(old(data[p..])).Bad?
    ensures found.Some? ==> p < next <= data.Length && data[next..] == old(data[next..])
    ensures found.Some? ==> ScanEntry(old(data[p..])) == if last then Last(found.value) else More(found.value, data[next..])
    ensures found.Some? && !last ==> next < data.Length
  {
    ghost var here := data[p..];
    var name, start := TakeName(data, p);
    if name.None? {
      return None, p, true;
    }
    var value, after := TakeValue(data, start);
    next := after;
    found := Some(Entry(name.value, value));
    last := next + 1 >= data.Length || data[next] == NUL;
    ghost var q := Find(here, '=');
    assert data[next..] == here[q.value + 1..][next - start..];
  }

  /** The bytes up to '=', which is overwritten with a NUL. */
  method TakeName(data: array<char>, p: nat) returns (name: Option<string>, next: nat)
    requires p < data.Length && data[data.Length - 1] == NUL
    modifies data
    ensures data[data.Length - 1] == NUL
    ensures Find(old(data[p..]), '=') == if name.Some? then Some(|name.value|) else None
    ensures name.Some? ==> next == p + |name.value| + 1 < data.Length
    ensures name.Some? ==> name.value == old(data[p..])[..|name.value|] && data[next..] == old(data[p..])[|name.value| + 1..]
  {
    ghost var here := data[p..];
    var q := StrChr(data, p, '=');
    if q.None? {
      return None, p;
    }
    FindStops(here, '=');
    ghost var k := q.value - p;
    data[q.value] := NUL;
    assert data[p..] == here[..k] + [NUL] + here[k + 1..];
    CStrStops(here[..k], here[k + 1..]);
    name, next := Some(CStr(data[p..])), q.value + 1;
  }

  /** The string that starts here, and the position behind its NUL. */
  method TakeValue(data: array<char>, p: nat) returns (value: string, next: nat)
    requires p < data.Length && data[data.Length - 1] == NUL
    ensures Find(data[p..], NUL) == Some(|value|)
    ensures next == p + |value| + 1 <= data.Length && value == data[p..][..|value|]
  {
    ghost var tail := data[p..];
    FindLast(tail);
    FindStops(tail, NUL);
    var z := StrChr(data, p, NUL);
    ghost var m := z.value - p;
    assert tail == tail[..m] + [NUL] + tail[m + 1..];
    CStrStops(tail[..m], tail[m + 1..]);
    value, next := CStr(data[p..]), z.value + 1;
  }

  /** What the commit loop leaves is the block of the entries. */
  lemma IsBlock(entries: seq<Entry>, data: string, p: nat)
    requires p < |data| && data[..p] == Env(entries) && forall k :: p <= k < |data| ==> data[k] == NUL
    ensures Fits(entries, |data|) && data == Block(entries, |data|)
  {
    assert data[p..] == Nuls(|data| - p);
    assert data == data[..p] + data[p..];
  }

  /** snprintf("%s=%s") with its NUL. */
  method Print(data: array<char>, p: nat, e: Entry) returns (next: nat)
    requires p + |Text(e)| <= data.Length
    modifies data
    ensures next == p + |Text(e)| && data[..next] == old(data[..p]) + Text(e)
    ensures forall k :: next <= k < data.Length ==> data[k] == old(data[k])
  {
    var text := Text(e);
    next := p + |text|;
    var i := 0;
    while i < |text|
      invariant 0 <= i <= |text|
      invariant data[..p + i] == old(data[..p]) + text[..i]
      invariant forall k :: next <= k < data.Length ==> data[k] == old(data[k])
    {
      data[p + i] := text[i];
      i := i + 1;
    }
  }

  function ValueOr(value: Option<string>): string {
    if value.Some? then value.value else ""
  }

  /** A set succeeds on a known name, or while a slot is free. */
  predicate HasRoom(entries: seq<Entry>, max: nat, name: string) {
    IndexOf(entries, name) < |entries| || |entries| < max
  }

  function Stored(entries: seq<Entry>, max: nat, name: string, value: string): seq<Entry> {
    if HasRoom(entries, max, name) then Updated(entries, name, value) else entries
  }

  lemma {:induction false} FindStops(s: string, c: char)
    ensures var k := Find(s, c); k.Some? ==> forall i :: 0 <= i < k.value ==> s[i] != c && s[i] != NUL
  {
    if s != [] && s[0] != c && s[0] != NUL {
      FindStops(s[1..], c);
      var k := Find(s, c);
      assert k.Some? ==> forall i :: 1 <= i < k.value ==> s[i] == s[1..][i - 1];
    }
  }

  lemma {:induction false} FindLast(s: string)
    requires s != [] && s[|s| - 1] == NUL
    ensures Find(s, NUL).Some?
  {
    if s[0] != NUL {
      FindLast(s[1..]);
    }
  }

  lemma {:induction false} EnvGrows(entries: seq<Entry>, i: nat)
    requires i < |entries|
    ensures Env(entries[..i + 1]) == Env(entries[..i]) + Text(entries[i])
    ensures |Env(entries[..i + 1])| <= |Env(entries)|
  {
    var more := entries[1..];
    if i > 0 {
      EnvGrows(more, i - 1);
      assert entries[..i + 1][1..] == more[..i] && entries[..i][1..] == more[..i - 1];
    } else {
      assert entries[..1][1..] == [] && entries[..0] == [];
    }
  }

  lemma OneMorePlain(e: Entry, rest: seq<Entry>)
    requires NoNul(e.name) && NoNul(e.value) && NoEquals(e.name) && CStrings(rest) && NamesPlain(rest)
    ensures var all := [e] + rest; CStrings(all) && NamesPlain(all)
  {
  }

  lemma {:induction false} ParseWithIsPlain(scan: string -> Scan, data: string, max: nat)
    requires forall s :: PlainScan(scan(s))
    ensures var p := ParseWith(scan, data, max); CStrings(p) && NamesPlain(p)
    decreases max
  {
    assert PlainScan(scan(data));
    if max > 0 && scan(data).More? {
      ParseWithIsPlain(scan, scan(data).rest, max - 1);
      OneMorePlain(scan(data).entry, ParseWith(scan, scan(data).rest, max - 1));
    }
  }

  predicate PlainScan(s: Scan) {
    !s.Bad? ==> NoNul(s.entry.name) && NoNul(s.entry.value) && NoEquals(s.entry.name)
  }

  /** Entries that come out of a block are C strings with plain names. */
  lemma ParsedIsPlain(data: string, max: nat)
    ensures var p := Parse(data, max); CStrings(p) && NamesPlain(p) && Cuts(p) == p
  {
    forall s ensures PlainScan(ScanEntry(s)) {
      ScanIsPlain(s);
    }
    ParseWithIsPlain(ScanEntry, data, max);
    PlainCuts(Parse(data, max));
  }

  lemma ScanIsPlain(data: string)
    ensures PlainScan(ScanEntry(data))
  {
    FindStops(data, '=');
    var q := Find(data, '=');
    if q.Some? {
      FindStops(data[q.value + 1..], NUL);
    }
  }

  lemma PlainCuts(entries: seq<Entry>)
    ensures NamesPlain(entries) ==> Cuts(entries) == entries
  {
  }

  // ----- what the length check of nvram_commit() is worth

  /** Whether the loop, with `p` bytes written, stays inside the block: it refuses
      when the check fails, and otherwise writes an entry, or the final NUL. */
  predicate StaysInside(entries: seq<Entry>, p: nat, length: nat, crcSize: nat) {
    if entries == [] then p < length
    else if p + 2 >= length + crcSize then true
    else p + |Text(entries[0])| <= length && StaysInside(entries[1..], p + |Text(entries[0])|, length, crcSize)
  }

  /** The check compares with the length of the whole block, crc included, so it
      never fails before something was written past the end: the loop stays
      inside the block exactly when the entries fit. */
  lemma {:induction false} InsideExactly(entries: seq<Entry>, p: nat, length: nat, crcSize: nat)
    requires p <= length && crcSize > 2
    ensures StaysInside(entries, p, length, crcSize) <==> p + |Env(entries)| + 1 <= length
    decreases |entries|
  {
    if entries != [] && p + |Text(entries[0])| <= length {
      InsideExactly(entries[1..], p + |Text(entries[0])|, length, crcSize);
    }
  }

  // ----- runs of nvram_set() and nvram_get()

  datatype Call = SetTo(name: string, value: string) | Read(name: string)

  /** What a call returns. */
  datatype Answer = Code(rc: int) | Value(value: string)

  /** What a call does to the entries a reader sees. */
  function After(entries: seq<Entry>, max: nat, call: Call): seq<Entry> {
    match call
    case SetTo(name, value) => Stored(entries, max, name, value)
    case Read(_) => Cuts(entries)
  }

  /** The call is one for C strings, and nothing it does outgrows its buffer. */
  predicate CallOk(entries: seq<Entry>, max: nat, length: nat, call: Call) {
    match call
    case SetTo(name, value) =>
      NoNul(name) && NoNul(value) && (HasRoom(entries, max, name) ==> Fits(Updated(entries, name, value), length))
    case Read(name) => name == ROUTE_VER ==> VersionFits(Cuts(entries))
  }

  function AnswerTo(entries: seq<Entry>, max: nat, length: nat, call: Call): Answer
    requires CallOk(entries, max, length, call)
  {
    match call
    case SetTo(name, _) => Code(if HasRoom(entries, max, name) then 0 else -1)
    case Read(name) => Value(Shown(Cuts(entries), name))
  }

  function Run(entries: seq<Entry>, max: nat, calls: seq<Call>): seq<Entry>
    decreases |calls|
  {
    if calls == [] then entries else Run(After(entries, max, calls[0]), max, calls[1..])
  }

  predicate RunOk(entries: seq<Entry>, max: nat, length: nat, calls: seq<Call>)
    decreases |calls|
  {
    calls != [] ==> CallOk(entries, max, length, calls[0]) && RunOk(After(entries, max, calls[0]), max, length, calls[1..])
  }

  function Answers(entries: seq<Entry>, max: nat, length: nat, calls: seq<Call>): (answers: seq<Answer>)
    requires RunOk(entries, max, length, calls)
    ensures |answers| == |calls|
    decreases |calls|
  {
    if calls == [] then []
    else [AnswerTo(entries, max, length, calls[0])] + Answers(After(entries, max, calls[0]), max, length, calls[1..])
  }

  /** One call on the block. */
  method DoCall(block: EnvBlock, call: Call) returns (answer: Answer)
    requires block.Valid() && (block.dirty ==> Fits(block.Current(), block.length))
    requires CallOk(block.Current(), block.maxEntries, block.length, call)
    modifies block, block.cache
    ensures block.Valid() && (block.dirty ==> Fits(block.Current(), block.length))
    ensures block.Current() == After(old(block.Current()), block.maxEntries, call)
    ensures answer == AnswerTo(old(block.Current()), block.maxEntries, block.length, call)
  {
    match call
    case SetTo(name, value) =>
      var rc := block.Set(name, value);
      answer := Code(rc);
    case Read(name) =>
      var value := block.Get(name);
      answer := Value(value);
  }

  /** Any run of calls leaves the block showing what the run of the specification
      gives, and every call returns what the specification says. */
  method RunCalls(block: EnvBlock, calls: seq<Call>) returns (answers: seq<Answer>)
    requires block.Valid() && (block.dirty ==> Fits(block.Current(), block.length))
    requires RunOk(block.Current(), block.maxEntries, block.length, calls)
    modifies block, block.cache
    decreases |calls|
    ensures block.Valid() && (block.dirty ==> Fits(block.Current(), block.length))
    ensures block.Current() == Run(old(block.Current()), block.maxEntries, calls)
    ensures answers == Answers(old(block.Current()), block.maxEntries, block.length, calls)
  {
    if calls == [] {
      return [];
    }
    var answer := DoCall(block, calls[0]);
    var rest := RunCalls(block, calls[1..]);
    answers := [answer] + rest;
  }

  /** A set that finds room, any other calls that do not set this name, and a get:
      the get returns the value set. */
  method SetThenGet(block: EnvBlock, name: string, value: string, later: seq<Call>) returns (got: string)
    requires block.Valid() && NamesPlain(block.Current()) && NoEquals(name) && name != ROUTE_VER
    requires HasRoom(block.Current(), block.maxEntries, name) && CallOk(block.Current(), block.maxEntries, block.length, SetTo(name, value))
    requires PlainCalls(later) && forall i :: 0 <= i < |later| && later[i].SetTo? ==> later[i].name != name
    requires RunOk(Stored(block.Current(), block.maxEntries, name, value), block.maxEntries, block.length, later)
    modifies block, block.cache
    ensures block.Valid() && got == value
  {
    LastSetWins(block.Current(), block.maxEntries, block.length, name, value, later);
    var rc := block.Set(name, value);
    var answers := RunCalls(block, later);
    PlainCuts(block.Current());
    got := block.Get(name);
  }

  /** The map a list of entries stands for: the first occurrence of a name counts. */
  function AsMap(entries: seq<Entry>): map<string, string> {
    if entries == [] then map[] else AsMap(entries[1..])[entries[0].name := entries[0].value]
  }

  /** A map with a fixed number of places, some of which duplicates in the flash
      may have used up. */
  datatype Store = Store(values: map<string, string>, used: nat)

  function StoreAfter(store: Store, max: nat, call: Call): Store {
    match call
    case SetTo(name, value) =>
      if name in store.values then store.(values := store.values[name := value])
      else if store.used < max then Store(store.values[name := value], store.used + 1)
      else store
    case Read(_) => store
  }

  function StoreShows(store: Store, name: string): string
    requires name == ROUTE_VER ==> StoreVersionFits(store)
  {
    var value := StoreValue(store, name);
    if name == ROUTE_VER then RouteVersion(value, StoreValue(store, ROUTE_SN)) else value
  }

  function StoreValue(store: Store, name: string): string {
    if name in store.values then store.values[name] else ""
  }

  predicate StoreVersionFits(store: Store) {
    |StoreValue(store, ROUTE_VER)| < 64
  }

  function StoreAnswer(store: Store, max: nat, call: Call): Answer
    requires call == Read(ROUTE_VER) ==> StoreVersionFits(store)
  {
    match call
    case SetTo(name, _) => Code(if name in store.values || store.used < max then 0 else -1)
    case Read(name) => Value(StoreShows(store, name))
  }

  function RunStore(store: Store, max: nat, calls: seq<Call>): Store
    decreases |calls|
  {
    if calls == [] then store else RunStore(StoreAfter(store, max, calls[0]), max, calls[1..])
  }

  /** The version fits its buffer whenever it is read. */
  predicate StoreRunOk(store: Store, max: nat, calls: seq<Call>)
    decreases |calls|
  {
    calls != [] ==>
      (calls[0] == Read(ROUTE_VER) ==> StoreVersionFits(store)) && StoreRunOk(StoreAfter(store, max, calls[0]), max, calls[1..])
  }

  function StoreAnswers(store: Store, max: nat, calls: seq<Call>): seq<Answer>
    requires StoreRunOk(store, max, calls)
    decreases |calls|
  {
    if calls == [] then [] else [StoreAnswer(store, max, calls[0])] + StoreAnswers(StoreAfter(store, max, calls[0]), max, calls[1..])
  }

  predicate PlainCalls(calls: seq<Call>) {
    forall i :: 0 <= i < |calls| && calls[i].SetTo? ==> NoEquals(calls[i].name)
  }

  lemma {:induction false} LookupIsMap(entries: seq<Entry>, name: string)
    ensures Lookup(entries, name) == if name in AsMap(entries) then Some(AsMap(entries)[name]) else None
    ensures name in AsMap(entries) <==> IndexOf(entries, name) < |entries|
  {
    if entries != [] && entries[0].name != name {
      LookupIsMap(entries[1..], name);
    }
  }

  lemma {:induction false} UpdatedIsMap(entries: seq<Entry>, name: string, value: string)
    ensures AsMap(Updated(entries, name, value)) == AsMap(entries)[name := value]
    decreases |entries|
  {
    var after := Updated(entries, name, value);
    if entries == [] {
      assert after == [Entry(name, value)] && after[1..] == [];
    } else if entries[0].name == name {
      assert after[1..] == entries[1..];
    } else {
      UpdatedIsMap(entries[1..], name, value);
      assert after[1..] == Updated(entries[1..], name, value);
    }
  }

  function StoreOf(entries: seq<Entry>): Store {
    Store(AsMap(entries), |entries|)
  }

  lemma CallRefines(entries: seq<Entry>, max: nat, call: Call)
    requires NamesPlain(entries) && (call.SetTo? ==> NoEquals(call.name))
    ensures NamesPlain(After(entries, max, call))
    ensures StoreOf(After(entries, max, call)) == StoreAfter(StoreOf(entries), max, call)
  {
    match call {
      case SetTo(name, value) =>
        LookupIsMap(entries, name);
        UpdatedIsMap(entries, name, value);
      case Read(_) =>
        PlainCuts(entries);
    }
  }

  lemma AnswerRefines(entries: seq<Entry>, max: nat, length: nat, call: Call)
    requires NamesPlain(entries) && CallOk(entries, max, length, call)
    ensures call == Read(ROUTE_VER) ==> StoreVersionFits(StoreOf(entries))
    ensures AnswerTo(entries, max, length, call) == StoreAnswer(StoreOf(entries), max, call)
  {
    PlainCuts(entries);
    LookupIsMap(entries, call.name);
    LookupIsMap(entries, ROUTE_SN);
  }

  /** Every run of sets and gets on plain names behaves as a map with a fixed
      number of places, and answers as one, although each get writes the flash
      and loads it again. */
  lemma {:induction false} RunRefines(entries: seq<Entry>, max: nat, length: nat, calls: seq<Call>)
    requires NamesPlain(entries) && PlainCalls(calls) && RunOk(entries, max, length, calls)
    ensures NamesPlain(Run(entries, max, calls)) && StoreRunOk(StoreOf(entries), max, calls)
    ensures StoreOf(Run(entries, max, calls)) == RunStore(StoreOf(entries), max, calls)
    ensures Answers(entries, max, length, calls) == StoreAnswers(StoreOf(entries), max, calls)
    decreases |calls|
  {
    if calls != [] {
      CallRefines(entries, max, calls[0]);
      AnswerRefines(entries, max, length, calls[0]);
      RunRefines(After(entries, max, calls[0]), max, length, calls[1..]);
    }
  }

  lemma {:induction false} StoreKeeps(store: Store, max: nat, calls: seq<Call>, name: string)
    requires name in store.values
    requires forall i :: 0 <= i < |calls| && calls[i].SetTo? ==> calls[i].name != name
    ensures var later := RunStore(store, max, calls).values; name in later && later[name] == store.values[name]
    decreases |calls|
  {
    if calls != [] {
      StoreKeeps(StoreAfter(store, max, calls[0]), max, calls[1..], name);
    }
  }

  /** The value last set is the value looked up, whatever else is set and got
      between. */
  lemma LastSetWins(entries: seq<Entry>, max: nat, length: nat, name: string, value: string, later: seq<Call>)
    requires NamesPlain(entries) && NoEquals(name) && HasRoom(entries, max, name)
    requires PlainCalls(later) && forall i :: 0 <= i < |later| && later[i].SetTo? ==> later[i].name != name
    requires RunOk(Stored(entries, max, name, value), max, length, later)
    ensures var end := Run(Stored(entries, max, name, value), max, later);
            Lookup(end, name) == Some(value) && NamesPlain(end)
  {
    var first := SetTo(name, value);
    var now := Stored(entries, max, name, value);
    CallRefines(entries, max, first);
    LookupIsMap(entries, name);
    RunRefines(now, max, length, later);
    StoreKeeps(StoreOf(now), max, later, name);
    LookupIsMap(Run(now, max, later), name);
  }

  /** A name with '=' is not found again once the flash has been reloaded. */
  lemma EqualsIsLost(entries: seq<Entry>, name: string)
    requires !NoEquals(name)
    ensures Lookup(Cuts(entries), name) == None
  {
    LookupAt(Cuts(entries), name);
    CutsAreStable(entries);
  }
}
