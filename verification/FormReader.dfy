/** Curl_FormReader() and Curl_formpostheader() of lib/formdata.c: the chunk list
    is streamed through buffers of any size. A file keeps its contents from the
    build to the reading; fread() and the read callback return any positive part
    of what they have left, and nothing only at the end. */
module FormReader {
  import opened CText
  import opened FormModel

  /** struct Form */
  class Form {
    const world: World
    /** The list from form->data on. */
    var data: seq<Chunk>
    var sent: nat
    /** What the open file, or the callback of the chunk at hand, has left. */
    var stream: Option<string>

    /** What was sent of a text is within it, and every stream to come stands
        between texts. */
    ghost predicate Valid()
      reads this
    {
      if data == [] then sent == 0 && stream.None?
      else if IsStream(data[0]) then sent == 0 && WellShaped(data[1..])
      else AtText(false)
    }

    /** The reader stands in a text; `some` says whether it has got any text since
        the last stream. */
    ghost predicate AtText(some: bool)
      reads this
    {
      && data != [] && !IsStream(data[0]) && stream.None?
      && sent <= |data[0].text| && Feed(some || sent < |data[0].text|, data[1..]) == Some(true)
    }

    /** What is still to be delivered. */
    ghost function Remaining(): string
      reads this
    {
      if data == [] then "" else HeadRest() + Flat(world, data[1..])
    }

    ghost function HeadRest(): string
      requires data != []
      reads this
    {
      if !IsStream(data[0]) then (if sent <= |data[0].text| then data[0].text[sent..] else "")
      else if stream.Some? then stream.value
      else Delivers(world, data[0])
    }

    /** Curl_FormInit() */
    constructor (world: World, list: seq<Chunk>)
      ensures this.world == world && data == list && sent == 0 && stream.None?
    {
      this.world, data, sent, stream := world, list, 0, None;
    }

    /** Curl_formpostheader(): the header line is taken off the list, and is not
        part of what the reader delivers. An empty form has none. */
    method PostHeader() returns (header: Option<string>)
      requires data != [] ==> data[0].Data? && WellShaped(data[1..])
      requires sent == 0 && stream.None?
      modifies this
      ensures old(data) == [] ==> header.None? && unchanged(this)
      ensures old(data) != [] ==> header == Some(old(data[0].text)) && data == old(data[1..])
      ensures Valid() && Remaining() == Flat(world, data)
    {
      if data == [] {
        return None;
      }
      header := Some(data[0].text);
      data := data[1..];
      assert data[0].text[0..] == data[0].text;
    }

    /** The file is opened, or the callback starts. */
    method OpenStream() returns (isOpen: bool)
      requires data != [] && IsStream(data[0]) && stream.None?
      modifies this`stream
      ensures isOpen <==> !(data[0].File? && world.files(data[0].name).Missing?)
      ensures isOpen ==> stream == Some(Delivers(world, data[0]))
      ensures !isOpen ==> unchanged(this)
    {
      match data[0] {
        case Callback(user, _) =>
          stream := Some(user);
        case File(name) =>
          match world.files(name) {
            case Missing =>
              return false;
            case Directory =>
              stream := Some("");
            case Regular(bytes) =>
              stream := Some(bytes);
          }
      }
      isOpen := true;
    }

    /** The file at hand is to be opened and is not there. */
    predicate CannotOpen()
      reads this
    {
      data != [] && data[0].File? && stream.None? && world.files(data[0].name).Missing?
    }

    /** The read callback at hand is asked, and answers with a signal. */
    predicate Signals(signal: Option<nat>)
      reads this
    {
      signal.Some? && data != [] && data[0].Callback?
    }

    /** readfromfile(): -1 when the file cannot be opened, 0 at the end. A callback
        that gives a signal, which is a count above the size asked for, has it
        passed on. */
    method ReadFromFile(buffer: array<char>, size: nat, signal: Option<nat>) returns (nread: int)
      requires Valid() && data != [] && IsStream(data[0]) && 0 < size <= buffer.Length
      requires signal.Some? ==> signal.value > size
      modifies this, buffer
      ensures old(Signals(signal)) ==> nread == signal.value && unchanged(this) && unchanged(buffer)
      ensures !old(Signals(signal)) ==> -1 <= nread <= size
      ensures nread == -1 <==> old(CannotOpen())
      ensures nread == -1 ==> unchanged(this)
      ensures nread == 0 ==> AtText(false) && old(Remaining()) == Remaining()
      ensures old(Openable(world, data)) ==> Openable(world, data)
      ensures 0 < nread <= size ==> Valid() && old(Remaining()) == buffer[..nread] + Remaining()
    {
      if data[0].Callback? && signal.Some? {
        return signal.value;
      }
      if stream.None? {
        var isOpen := OpenStream();
        if !isOpen {
          return -1;
        }
      }
      if stream.value == "" {
        stream := None;
        data := data[1..];
        HeadIsWhole();
        return 0;
      }
      nread := TakeSome(buffer, size);
    }

    /** fread() or the callback returns some of what there is. */
    method TakeSome(buffer: array<char>, size: nat) returns (nread: nat)
      requires data != [] && stream.Some? && stream.value != "" && IsStream(data[0]) && 0 < size <= buffer.Length
      modifies this`stream, buffer
      ensures 0 < nread <= size && stream.Some? && old(Remaining()) == buffer[..nread] + Remaining()
    {
      nread :| 0 < nread <= size && nread <= |stream.value|;
      KeepPart(stream.value, nread, Flat(world, data[1..]));
      Copy(buffer, 0, stream.value[..nread]);
      stream := Some(stream.value[nread..]);
      assert buffer[..0] == [];
    }

    /** Curl_FormReader(): what it returns and what remains make up what remained
        before, and it returns 0 exactly when nothing remained. A signal of the
        read callback, above the size asked for, is passed on and changes nothing. */
    method Read(buffer: array<char>, wanted: nat, signal: Option<nat>) returns (got: int)
      requires Valid() && 0 < wanted <= buffer.Length
      requires signal.Some? ==> signal.value > wanted
      modifies this, buffer
      ensures old(Signals(signal)) ==> got == signal.value && unchanged(this) && unchanged(buffer)
      ensures !old(Signals(signal)) ==> -1 <= got <= wanted
      ensures got == -1 <==> old(CannotOpen())
      ensures got == -1 ==> unchanged(this)
      ensures 0 <= got <= wanted ==> Valid() && old(Remaining()) == buffer[..got] + Remaining()
      ensures got == 0 <==> old(Remaining()) == ""
      ensures old(Openable(world, data)) ==> Openable(world, data)
    {
      if data == [] {
        assert buffer[..0] == [];
        return 0;
      }
      SomethingRemains();
      if IsStream(data[0]) {
        got := ReadFromFile(buffer, wanted, signal);
        if got != 0 {
          return;
        }
      }
      assert old(Remaining()) == Remaining();
      got := ReadLines(buffer, wanted);
    }

    /** The loop over texts: at least one byte, and never across a stream. */
    method ReadLines(buffer: array<char>, wanted: nat) returns (got: nat)
      requires AtText(false) && 0 < wanted <= buffer.Length
      modifies this, buffer
      ensures 0 < got <= wanted && Valid() && old(Remaining()) == buffer[..got] + Remaining()
      ensures old(Openable(world, data)) ==> Openable(world, data)
    {
      got := 0;
      ghost var all, read, taken := Remaining(), "", "";
      ghost var rest := all;
      NothingBefore(buffer[..], all);
      var more := true;
      while more
        invariant 0 <= got <= wanted && read == buffer[..got] && rest == Remaining() && all == read + rest
        invariant if more then AtText(got > 0) else got > 0 && Valid()
        invariant old(Openable(world, data)) ==> Openable(world, data)
        decreases |data|, more
      {
        got, more, taken := TakeLine(buffer, got, wanted);
        rest := Remaining();
        Regroup(read, taken, rest);
        read := read + taken;
      }
    }

    /** One round: `more` says whether the loop goes on. */
    method TakeLine(buffer: array<char>, got: nat, wanted: nat) returns (now: nat, more: bool, ghost taken: string)
      requires AtText(got > 0) && got <= wanted <= buffer.Length && wanted > 0
      modifies this, buffer
      ensures got <= now <= wanted && buffer[..now] == old(buffer[..got]) + taken && old(Remaining()) == taken + Remaining()
      ensures if more then AtText(now > 0) && |data| < |old(data)| else now > 0 && Valid()
      ensures data == old(data) || data == old(data)[1..]
    {
      if |data[0].text| - sent > wanted - got {
        taken := FillBuffer(buffer, got, wanted - got);
        return wanted, false, taken;
      }
      now, taken := TakeText(buffer, got);
      more := data != [] && !IsStream(data[0]);
    }

    /** The text at hand does not fit: the buffer is filled. */
    method FillBuffer(buffer: array<char>, got: nat, room: nat) returns (ghost taken: string)
      requires AtText(got > 0) && room < |data[0].text| - sent && got + room <= buffer.Length
      modifies this, buffer
      ensures Valid() && data == old(data) && old(Remaining()) == taken + Remaining()
      ensures buffer[..got + room] == old(buffer[..got]) + taken
    {
      taken := data[0].text[sent..sent + room];
      KeepSlice(data[0].text, sent, room, Flat(world, data[1..]));
      Copy(buffer, got, data[0].text[sent..sent + room]);
      sent := sent + room;
    }

    /** The rest of the text at hand is taken, and the list advances. */
    method TakeText(buffer: array<char>, got: nat) returns (now: nat, ghost taken: string)
      requires AtText(got > 0) && got + (|data[0].text| - sent) <= buffer.Length
      modifies this, buffer
      ensures now == got + (|old(data)[0].text| - old(sent)) && data == old(data)[1..]
      ensures old(Remaining()) == taken + Remaining() && buffer[..now] == old(buffer[..got]) + taken
      ensures if data != [] && !IsStream(data[0]) then AtText(now > 0) else now > 0 && Valid()
    {
      taken := data[0].text[sent..];
      Copy(buffer, got, data[0].text[sent..]);
      now := got + (|data[0].text| - sent);
      sent := 0;
      data := data[1..];
      HeadIsWhole();
    }

    /** At the start of a chunk all of it remains. */
    lemma HeadIsWhole()
      requires sent == 0 && stream.None?
      ensures Remaining() == Flat(world, data)
    {
      if data != [] && !IsStream(data[0]) {
        assert data[0].text[0..] == data[0].text;
      }
    }

    /** A list that is not used up still has something to deliver. */
    lemma SomethingRemains()
      requires Valid() && data != []
      ensures Remaining() != ""
    {
      if IsStream(data[0]) {
        ShapedHasText(world, false, data[1..]);
      } else if sent == |data[0].text| {
        ShapedHasText(world, false, data[1..]);
      }
    }
  }

  lemma {:induction false} ShapedHasText(world: World, some: bool, list: seq<Chunk>)
    requires Feed(some, list) == Some(true) && !some
    ensures Flat(world, list) != ""
    decreases |list|
  {
    if list[0].text == "" {
      ShapedHasText(world, some, list[1..]);
    }
  }

  lemma KeepPart(text: string, n: nat, tail: string)
    requires n <= |text|
    ensures text + tail == text[..n] + (text[n..] + tail)
  {
  }

  lemma KeepSlice(text: string, sent: nat, n: nat, tail: string)
    requires sent + n <= |text|
    ensures text[sent..] + tail == text[sent..sent + n] + (text[sent + n..] + tail)
  {
    KeepPart(text[sent..], n, tail);
    assert text[sent..][..n] == text[sent..sent + n] && text[sent..][n..] == text[sent + n..];
  }

  lemma NothingBefore(buffer: seq<char>, text: string)
    ensures buffer[..0] == "" && text == "" + text
  {
  }

  /** memcpy() into the buffer. */
  method Copy(buffer: array<char>, at: nat, text: string)
    requires at + |text| <= buffer.Length
    modifies buffer
    ensures buffer[..at + |text|] == old(buffer[..at]) + text
  {
    var i := 0;
    while i < |text|
      invariant 0 <= i <= |text|
      invariant buffer[..at + i] == old(buffer[..at]) + text[..i]
    {
      buffer[at + i] := text[i];
      i := i + 1;
    }
  }
}
