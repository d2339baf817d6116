// Cutting written bytes into lines that are sent one by one.
module LineWriters {
  import opened Basics
  import opened Bytes

  // The complete lines of a text, without their newlines, and the unfinished rest.
  datatype Cut = Cut(lines: seq<Data>, rest: Data)

  function Add(c: Cut, byte: u8): Cut {
    if byte == NEWLINE then Cut(c.lines + [c.rest], []) else Cut(c.lines, c.rest + [byte])
  }

  function More(c: Cut, bytes: Data): Cut {
    if bytes == [] then c else Add(More(c, bytes[..|bytes| - 1]), bytes[|bytes| - 1])
  }

  function CutOf(bytes: Data): Cut { More(Cut([], []), bytes) }

  function Ended(lines: seq<Data>): Data {
    if lines == [] then [] else Ended(lines[..|lines| - 1]) + lines[|lines| - 1] + [NEWLINE]
  }

  // Nothing is lost.
  lemma {:induction false} CutRebuilds(bytes: Data)
    ensures Ended(CutOf(bytes).lines) + CutOf(bytes).rest == bytes
  {
    if bytes != [] {
      var before, last := bytes[..|bytes| - 1], bytes[|bytes| - 1];
      CutRebuilds(before);
      AddRebuilds(CutOf(before), last);
      assert before + [last] == bytes;
    }
  }

  lemma AddRebuilds(c: Cut, byte: u8)
    ensures Ended(Add(c, byte).lines) + Add(c, byte).rest == Ended(c.lines) + c.rest + [byte]
  {
    if byte == NEWLINE {
      assert (c.lines + [c.rest])[..|c.lines|] == c.lines;
    } else {
      assert Ended(c.lines) + (c.rest + [byte]) == Ended(c.lines) + c.rest + [byte];
    }
  }

  // No line, and not the rest either, holds a newline.
  ghost predicate Plain(c: Cut) {
    NEWLINE !in c.rest && forall i :: 0 <= i < |c.lines| ==> NEWLINE !in c.lines[i]
  }

  lemma AddPlain(c: Cut, byte: u8)
    requires Plain(c)
    ensures Plain(Add(c, byte))
  {
  }

  lemma {:induction false} CutIsPlain(bytes: Data)
    ensures Plain(CutOf(bytes))
  {
    if bytes != [] {
      CutIsPlain(bytes[..|bytes| - 1]);
      AddPlain(CutOf(bytes[..|bytes| - 1]), bytes[|bytes| - 1]);
    }
  }

  lemma {:induction false} MoreConcat(c: Cut, a: Data, b: Data)
    ensures More(c, a + b) == More(More(c, a), b)
  {
    if b == [] {
      assert a + b == a;
    } else {
      var front := b[..|b| - 1];
      assert (a + b)[..|a + b| - 1] == a + front;
      MoreConcat(c, a, front);
    }
  }

  lemma {:induction false} MorePlain(c: Cut, bytes: Data)
    requires NEWLINE !in bytes
    ensures More(c, bytes) == Cut(c.lines, c.rest + bytes)
  {
    if bytes != [] {
      var front := bytes[..|bytes| - 1];
      assert bytes == front + [bytes[|bytes| - 1]];
      MorePlain(c, front);
      assert c.rest + front + [bytes[|bytes| - 1]] == c.rest + bytes;
    } else {
      assert c.rest + bytes == c.rest;
    }
  }

  lemma {:induction false} LinesGrow(c: Cut, bytes: Data)
    ensures c.lines <= More(c, bytes).lines
  {
    if bytes != [] { LinesGrow(c, bytes[..|bytes| - 1]); }
  }

  function FirstNewline(bytes: Data, from: nat): (r: Option<nat>)
    requires from <= |bytes|
    ensures r.Some? ==> from <= r.value < |bytes| && bytes[r.value] == NEWLINE && NEWLINE !in bytes[from..r.value]
    ensures r.None? ==> NEWLINE !in bytes[from..]
    decreases |bytes| - from
  {
    if from == |bytes| then None
    else if bytes[from] == NEWLINE then Some(from)
    else
      assert bytes[from..] == [bytes[from]] + bytes[from + 1..];
      var r := FirstNewline(bytes, from + 1);
      assert r.Some? ==> bytes[from..r.value] == [bytes[from]] + bytes[from + 1..r.value];
      r
  }

  lemma NoMoreLines(done: Cut, rest: Data)
    requires done.rest == [] && NEWLINE !in rest
    ensures More(done, rest) == Cut(done.lines, rest)
  {
    MorePlain(done, rest);
    assert [] + rest == rest;
  }

  // The line that ends at the next newline of a buffer.
  lemma OneMoreLine(done: Cut, buffer: Data, from: nat, at: nat)
    requires done.rest == [] && from <= at < |buffer| && buffer[at] == NEWLINE && NEWLINE !in buffer[from..at]
    ensures More(done, buffer[from..]) == More(Cut(done.lines + [buffer[from..at]], []), buffer[at + 1..])
  {
    SplitAt(buffer, from, at);
    PlainLine(done, buffer[from..at], buffer[at + 1..]);
  }

  lemma SplitAt(buffer: Data, from: nat, at: nat)
    requires from <= at < |buffer| && buffer[at] == NEWLINE
    ensures buffer[from..] == buffer[from..at] + [NEWLINE] + buffer[at + 1..]
  {
  }

  lemma PlainLine(done: Cut, line: Data, rest: Data)
    requires done.rest == [] && NEWLINE !in line
    ensures More(done, line + [NEWLINE] + rest) == More(Cut(done.lines + [line], []), rest)
  {
    MoreConcat(done, line + [NEWLINE], rest);
    MorePlain(done, line);
    assert (line + [NEWLINE])[..|line|] == line && [] + line == line;
  }

  // A channel takes lines of text while its receiver is there.
  datatype Channel = Channel(sent: seq<Data>, room: nat)

  // A send failed: everything before that line was sent, and it is not text or has no room.
  ghost predicate StoppedAt(text: Data -> bool, lines: seq<Data>, channel: Channel) {
    channel.sent < lines && (channel.room == 0 || !text(lines[|channel.sent|]))
  }

  lemma Refused(text: Data -> bool, channel: Channel, line: Data, rest: Data)
    ensures !text(line) || channel.room == 0 ==>
              StoppedAt(text, More(Cut(channel.sent + [line], []), rest).lines, channel)
  {
    LinesGrow(Cut(channel.sent + [line], []), rest);
  }

  class LineChannelWriter {
    const text: Data -> bool
    var buffer: Data
    var channel: Channel
    ghost var written: Data

    ghost predicate Valid() reads this { Cut(channel.sent, buffer) == CutOf(written) }

    constructor (text: Data -> bool, room: nat)
      ensures Valid() && written == [] && channel == Channel([], room) && this.text == text
    {
      this.text, this.buffer, this.channel := text, [], Channel([], room);
      this.written := [];
    }

    method Send(line: Data) returns (ok: bool)
      modifies this`channel
      ensures ok <==> text(line) && old(channel.room) > 0
      ensures channel == if ok then Channel(old(channel.sent) + [line], old(channel.room) - 1) else old(channel)
    {
      ok := text(line) && channel.room > 0;
      if ok { channel := Channel(channel.sent + [line], channel.room - 1); }
    }

    // Sends the line between two offsets of the buffer.
    method EmitLine(from: nat, at: nat) returns (ok: bool)
      requires from <= at < |buffer| && buffer[at] == NEWLINE && NEWLINE !in buffer[from..at]
      modifies this`channel
      ensures ok ==> More(Cut(channel.sent, []), buffer[at + 1..]) == More(Cut(old(channel.sent), []), buffer[from..])
      ensures !ok ==> StoppedAt(text, More(Cut(old(channel.sent), []), buffer[from..]).lines, channel)
    {
      OneMoreLine(Cut(channel.sent, []), buffer, from, at);
      Refused(text, channel, buffer[from..at], buffer[at + 1..]);
      ok := Send(buffer[from..at]);
    }

    method EmitCompleteLines() returns (ok: bool)
      modifies this`buffer, this`channel
      ensures ok ==> Cut(channel.sent, buffer) == More(Cut(old(channel.sent), []), old(buffer))
      ensures !ok ==> StoppedAt(text, More(Cut(old(channel.sent), []), old(buffer)).lines, channel)
    {
      var consumed: nat := 0;
      ghost var all := More(Cut(channel.sent, []), buffer);
      assert buffer[0..] == buffer;
      var newline := FirstNewline(buffer, consumed);
      while newline.Some?
        invariant consumed <= |buffer| && newline == FirstNewline(buffer, consumed) && buffer == old(buffer)
        invariant all == More(Cut(channel.sent, []), buffer[consumed..])
        decreases |buffer| - consumed
      {
        ok := EmitLine(consumed, newline.value);
        if !ok { return; }
        consumed := newline.value + 1;
        newline := FirstNewline(buffer, consumed);
      }
      NoMoreLines(Cut(channel.sent, []), buffer[consumed..]);
      if consumed > 0 { buffer := buffer[consumed..]; }
      return true;
    }

    method Write(bytes: Data) returns (ok: bool)
      requires Valid()
      modifies this
      ensures written == old(written) + bytes
      ensures ok ==> Valid()
      ensures !ok ==> StoppedAt(text, CutOf(written).lines, channel)
    {
      CutIsPlain(written);
      MoreConcat(Cut([], []), written, bytes);
      MorePlain(Cut(channel.sent, []), buffer);
      assert [] + buffer == buffer;
      MoreConcat(Cut(channel.sent, []), buffer, bytes);
      written := written + bytes;
      buffer := buffer + bytes;
      ok := EmitCompleteLines();
    }

    // However the bytes are chopped into writes, the lines sent are those of the whole text.
    method WriteAll(chunks: seq<Data>) returns (ok: bool)
      requires Valid() && written == []
      modifies this
      ensures ok ==> Cut(channel.sent, buffer) == CutOf(Concat(chunks))
      ensures !ok ==> StoppedAt(text, CutOf(Concat(chunks)).lines, channel)
    {
      var n := 0;
      while n < |chunks|
        invariant 0 <= n <= |chunks| && Valid() && written == Concat(chunks[..n])
      {
        ok := Write(chunks[n]);
        assert chunks[..n + 1][..n] == chunks[..n];
        if !ok {
          StoppedEarlier(text, chunks, n + 1, channel);
          return;
        }
        n := n + 1;
      }
      assert chunks[..n] == chunks;
      return true;
    }
  }

  function Concat(chunks: seq<Data>): Data {
    if chunks == [] then [] else Concat(chunks[..|chunks| - 1]) + chunks[|chunks| - 1]
  }

  // Lines that are complete stay so when more is written.
  lemma {:induction false} StoppedEarlier(text: Data -> bool, chunks: seq<Data>, n: nat, channel: Channel)
    requires n <= |chunks| && StoppedAt(text, CutOf(Concat(chunks[..n])).lines, channel)
    ensures StoppedAt(text, CutOf(Concat(chunks)).lines, channel)
    decreases |chunks| - n
  {
    if n == |chunks| {
      assert chunks[..n] == chunks;
    } else {
      assert chunks[..n + 1][..n] == chunks[..n];
      MoreConcat(Cut([], []), Concat(chunks[..n]), chunks[n]);
      LinesGrow(CutOf(Concat(chunks[..n])), chunks[n]);
      StoppedEarlier(text, chunks, n + 1, channel);
    }
  }

  // The same bytes give the same lines, however they are chopped.
  lemma ChoppingDoesNotMatter(a: seq<Data>, b: seq<Data>)
    requires Concat(a) == Concat(b)
    ensures ManyMore(a) == ManyMore(b) == CutOf(Concat(a))
  {
    ManyMoreIsCut(a);
    ManyMoreIsCut(b);
  }

  // One write after another.
  function ManyMore(chunks: seq<Data>): Cut {
    if chunks == [] then Cut([], []) else More(ManyMore(chunks[..|chunks| - 1]), chunks[|chunks| - 1])
  }

  lemma {:induction false} ManyMoreIsCut(chunks: seq<Data>)
    ensures ManyMore(chunks) == CutOf(Concat(chunks))
  {
    if chunks != [] {
      ManyMoreIsCut(chunks[..|chunks| - 1]);
      MoreConcat(Cut([], []), Concat(chunks[..|chunks| - 1]), chunks[|chunks| - 1]);
    }
  }
}
