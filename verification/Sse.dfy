/** The chunked decoder of an agent's event stream.

    The dialect is the program's own: only a newline ends a line, every trailing carriage return and
    every space after "data:" is dropped, and a last unterminated line or event still counts. */
module Sse {
  import opened Basics
  import opened Text

  newtype byte = x: int | 0 <= x < 256

  type bytes = seq<byte>

  const NEWLINE: byte := 10
  const RETURN: byte := 13
  const SPACE: byte := 32
  const COLON: byte := 58
  const DATA: bytes := [100, 97, 116, 97, 58]

  /** What the payload of one event decodes to. */
  datatype Parsed<E> = Malformed | NotObject | Object(event: E)

  /** The endpoint's limits and the JSON decoder. */
  datatype Settings<!E> = Settings(parse: bytes -> Parsed<E>, maxBytes: nat, maxEvents: nat)

  datatype Failure = MalformedJson | NotAnObject | TooManyEvents | TooManyBytes

  /** A decoder that is still running, or how it stopped; events are what was sent on so far. */
  datatype Decoder<E> =
    | Running(buffered: bytes, dataLines: seq<bytes>, events: seq<E>)
    | Failed(events: seq<E>, failure: Failure)

  function TrimReturns(line: bytes): bytes {
    if line != [] && line[|line| - 1] == RETURN then TrimReturns(line[..|line| - 1]) else line
  }

  function TrimSpaces(line: bytes): bytes {
    if line != [] && line[0] == SPACE then TrimSpaces(line[1..]) else line
  }

  function JoinLines(lines: seq<bytes>): bytes {
    if lines == [] then []
    else if |lines| == 1 then lines[0]
    else lines[0] + [NEWLINE] + JoinLines(lines[1..])
  }

  /** `emit_line`: a blank line closes an event, a data line extends it, other lines do nothing. */
  function EmitLine<E>(s: Settings<E>, d: Decoder<E>, raw: bytes): Decoder<E>
    requires d.Running?
  {
    var line := TrimReturns(raw);
    if line == [] then
      if d.dataLines == [] then d
      else
        match s.parse(JoinLines(d.dataLines))
        case Malformed => Failed(d.events, MalformedJson)
        case NotObject => Failed(d.events, NotAnObject)
        case Object(e) =>
          if |d.events| + 1 > s.maxEvents then Failed(d.events, TooManyEvents)
          else Running(d.buffered, [], d.events + [e])
    else if line[0] == COLON then d
    else if |line| >= 5 && line[..5] == DATA then d.(dataLines := d.dataLines + [TrimSpaces(line[5..])])
    else d
  }

  function EmitAll<E>(s: Settings<E>, d: Decoder<E>, lines: seq<bytes>): Decoder<E>
    decreases lines
  {
    if d.Failed? || lines == [] then d else EmitAll(s, EmitLine(s, d, lines[0]), lines[1..])
  }

  function WithBuffer<E>(d: Decoder<E>, buffered: bytes): Decoder<E> {
    if d.Running? then d.(buffered := buffered) else d
  }

  /** One chunk: its complete lines are emitted, the rest waits. */
  function Feed<E>(s: Settings<E>, d: Decoder<E>, chunk: bytes): Decoder<E> {
    if d.Failed? then d
    else
      var parts := Split(d.buffered + chunk, NEWLINE);
      WithBuffer(EmitAll(s, d, parts[..|parts| - 1]), parts[|parts| - 1])
  }

  /** The end of the stream closes an open line and an open event. */
  function Finish<E>(s: Settings<E>, d: Decoder<E>): Decoder<E> {
    if d.Failed? then d
    else
      var e := if d.buffered != [] then WithBuffer(EmitLine(s, d, d.buffered), []) else d;
      if e.Running? && e.dataLines != [] then EmitLine(s, e, []) else e
  }

  /** The transport delivers chunks until the byte limit is passed. */
  function FeedAll<E>(s: Settings<E>, d: Decoder<E>, received: nat, chunks: seq<bytes>): Decoder<E>
    decreases chunks
  {
    if d.Failed? || chunks == [] then d
    else if received + |chunks[0]| > s.maxBytes then Failed(d.events, TooManyBytes)
    else FeedAll(s, Feed(s, d, chunks[0]), received + |chunks[0]|, chunks[1..])
  }

  const START_LINES: seq<bytes> := []

  function Decode<E>(s: Settings<E>, chunks: seq<bytes>): Decoder<E> {
    Finish(s, FeedAll(s, Running([], START_LINES, []), 0, chunks))
  }

  function Concat(chunks: seq<bytes>): bytes {
    if chunks == [] then [] else chunks[0] + Concat(chunks[1..])
  }

  /** The reference: one pass over the lines of the whole stream, the last one only if not empty, and
      a closing blank line if an event is open. */
  function DecodeWhole<E>(s: Settings<E>, stream: bytes): Decoder<E> {
    var parts := Split(stream, NEWLINE);
    var lines := if parts[|parts| - 1] == [] then parts[..|parts| - 1] else parts;
    var d := EmitAll(s, Running([], START_LINES, []), lines);
    if d.Running? && d.dataLines != [] then EmitLine(s, d, []) else d
  }

  // ---- Chunk invariance ------------------------------------------------------------------------------

  lemma {:induction false} EmitAllConcat<E>(s: Settings<E>, d: Decoder<E>, xs: seq<bytes>, ys: seq<bytes>)
    ensures EmitAll(s, d, xs + ys) == EmitAll(s, EmitAll(s, d, xs), ys)
    decreases xs
  {
    if xs == [] {
      assert xs + ys == ys;
    } else if d.Running? {
      assert (xs + ys)[0] == xs[0] && (xs + ys)[1..] == xs[1..] + ys;
      EmitAllConcat(s, EmitLine(s, d, xs[0]), xs[1..], ys);
    }
  }

  /** Emitting does not look at the buffer. */
  lemma {:induction false} EmitIgnoresBuffer<E>(s: Settings<E>, d: Decoder<E>, buffered: bytes, lines: seq<bytes>)
    ensures EmitAll(s, WithBuffer(d, buffered), lines) == WithBuffer(EmitAll(s, d, lines), buffered)
    decreases lines
  {
    if d.Running? && lines != [] {
      assert EmitLine(s, WithBuffer(d, buffered), lines[0]) == WithBuffer(EmitLine(s, d, lines[0]), buffered);
      EmitIgnoresBuffer(s, EmitLine(s, d, lines[0]), buffered, lines[1..]);
    }
  }

  /** Lines emitted in two rounds, with any buffer between them. */
  lemma EmitTwice<E>(s: Settings<E>, d: Decoder<E>, xs: seq<bytes>, between: bytes, ys: seq<bytes>, last: bytes)
    ensures WithBuffer(EmitAll(s, WithBuffer(EmitAll(s, d, xs), between), ys), last) ==
            WithBuffer(EmitAll(s, d, xs + ys), last)
  {
    EmitAllConcat(s, d, xs, ys);
    EmitIgnoresBuffer(s, EmitAll(s, d, xs), between, ys);
  }

  lemma LastOfConcat<T>(xs: seq<T>, ys: seq<T>)
    requires ys != []
    ensures var whole := xs + ys;
            whole[..|whole| - 1] == xs + ys[..|ys| - 1] && whole[|whole| - 1] == ys[|ys| - 1]
  {
  }

  lemma FailedStays<E>(s: Settings<E>, d: Decoder<E>, xs: seq<bytes>, ys: seq<bytes>)
    requires EmitAll(s, d, xs).Failed?
    ensures EmitAll(s, d, xs + ys) == EmitAll(s, d, xs)
  {
    EmitAllConcat(s, d, xs, ys);
  }

  /** A text known as lines and an open rest. */
  lemma FeedParts<E>(s: Settings<E>, d: Decoder<E>, chunk: bytes, lines: seq<bytes>, rest: seq<bytes>)
    requires d.Running? && rest != [] && Split(d.buffered + chunk, NEWLINE) == lines + rest
    ensures Feed(s, d, chunk) == WithBuffer(EmitAll(s, d, lines + rest[..|rest| - 1]), rest[|rest| - 1])
  {
    LastOfConcat(lines, rest);
  }

  /** Two chunks in a row are as good as one. */
  lemma FeedConcat<E>(s: Settings<E>, d: Decoder<E>, a: bytes, b: bytes)
    ensures Feed(s, Feed(s, d, a), b) == Feed(s, d, a + b)
  {
    if d.Running? {
      var x := d.buffered + a;
      assert d.buffered + (a + b) == x + b;
      var p := Split(x, NEWLINE);
      var lines, last := p[..|p| - 1], p[|p| - 1];
      var q := Split(last + b, NEWLINE);
      SplitConcat(x, b, NEWLINE);
      FeedParts(s, d, a + b, lines, q);
      if EmitAll(s, d, lines).Failed? {
        FailedStays(s, d, lines, q[..|q| - 1]);
      } else {
        FeedParts(s, WithBuffer(EmitAll(s, d, lines), last), b, [], q);
        assert [] + q[..|q| - 1] == q[..|q| - 1] && [] + q == q;
        EmitTwice(s, d, lines, last, q[..|q| - 1], q[|q| - 1]);
      }
    }
  }

  lemma {:induction false} FeedNothing<E>(s: Settings<E>, d: Decoder<E>)
    requires d.Running? ==> NEWLINE !in d.buffered
    ensures Feed(s, d, []) == d
  {
    if d.Running? {
      assert d.buffered + [] == d.buffered;
      SplitPlain(d.buffered, NEWLINE);
      assert [d.buffered][..0] == [];
    }
  }

  lemma {:induction false} FeedLeavesNoNewline<E>(s: Settings<E>, d: Decoder<E>, chunk: bytes)
    requires d.Running? ==> NEWLINE !in d.buffered
    ensures Feed(s, d, chunk).Running? ==> NEWLINE !in Feed(s, d, chunk).buffered
  {
    if d.Running? { SplitParts(d.buffered + chunk, NEWLINE); }
  }

  /** Within the byte limit the chunks come to one feed of their concatenation. */
  lemma {:induction false} FeedAllIsFeed<E>(s: Settings<E>, d: Decoder<E>, received: nat, chunks: seq<bytes>)
    requires received + |Concat(chunks)| <= s.maxBytes
    requires d.Running? ==> NEWLINE !in d.buffered
    ensures FeedAll(s, d, received, chunks) == Feed(s, d, Concat(chunks))
    decreases chunks
  {
    if chunks == [] {
      FeedNothing(s, d);
    } else if d.Running? {
      FeedLeavesNoNewline(s, d, chunks[0]);
      FeedAllIsFeed(s, Feed(s, d, chunks[0]), received + |chunks[0]|, chunks[1..]);
      FeedConcat(s, d, chunks[0], Concat(chunks[1..]));
    }
  }

  /** The whole stream in one chunk is the reference pass. */
  lemma {:induction false} OneChunkIsWhole<E>(s: Settings<E>, stream: bytes)
    ensures Finish(s, Feed(s, Running([], START_LINES, []), stream)) == DecodeWhole(s, stream)
  {
    var start: Decoder<E> := Running([], START_LINES, []);
    assert [] + stream == stream;
    var parts := Split(stream, NEWLINE);
    var lines, last := parts[..|parts| - 1], parts[|parts| - 1];
    var d := EmitAll(s, start, lines);
    EmitKeepsBuffer(s, start, lines);
    if last != [] {
      assert parts == lines + [last];
      EmitAllConcat(s, start, lines, [last]);
      if d.Running? { EmitLast(s, d, last); }
    }
  }

  /** The open line at the end, with or without a buffer. */
  lemma EmitLast<E>(s: Settings<E>, d: Decoder<E>, last: bytes)
    requires d.Running?
    ensures EmitAll(s, d, [last]) == EmitLine(s, d, last)
    ensures EmitLine(s, WithBuffer(d, last), last) == WithBuffer(EmitLine(s, d, last), last)
    ensures EmitLine(s, d, last).Running? ==> EmitLine(s, d, last).buffered == d.buffered
  {
    assert [last][1..] == [];
    assert EmitAll(s, EmitLine(s, d, last), []) == EmitLine(s, d, last);
  }

  lemma {:induction false} EmitKeepsBuffer<E>(s: Settings<E>, d: Decoder<E>, lines: seq<bytes>)
    ensures d.Running? && EmitAll(s, d, lines).Running? ==> EmitAll(s, d, lines).buffered == d.buffered
    decreases lines
  {
    if d.Running? && lines != [] { EmitKeepsBuffer(s, EmitLine(s, d, lines[0]), lines[1..]); }
  }

  /** Chunk invariance. However a stream within the byte limit is cut into chunks, the decoder sends the
      events, and stops with the failure, of one pass over the lines of the whole stream. */
  lemma ChunksDoNotMatter<E>(s: Settings<E>, chunks: seq<bytes>)
    requires |Concat(chunks)| <= s.maxBytes
    ensures Decode(s, chunks) == DecodeWhole(s, Concat(chunks))
  {
    FeedAllIsFeed(s, Running([], START_LINES, []), 0, chunks);
    OneChunkIsWhole(s, Concat(chunks));
  }

  /** A stream over the limit always fails, wherever it is cut. */
  lemma {:induction false} OverLimitFails<E>(s: Settings<E>, d: Decoder<E>, received: nat, chunks: seq<bytes>)
    requires received <= s.maxBytes < received + |Concat(chunks)|
    ensures FeedAll(s, d, received, chunks).Failed?
    decreases chunks
  {
    if d.Running? && received + |chunks[0]| <= s.maxBytes {
      OverLimitFails(s, Feed(s, d, chunks[0]), received + |chunks[0]|, chunks[1..]);
    }
  }

  lemma {:induction false} EmitKeepsCount<E>(s: Settings<E>, d: Decoder<E>, lines: seq<bytes>)
    requires |d.events| <= s.maxEvents
    ensures |EmitAll(s, d, lines).events| <= s.maxEvents && d.events <= EmitAll(s, d, lines).events
    decreases lines
  {
    if d.Running? && lines != [] { EmitKeepsCount(s, EmitLine(s, d, lines[0]), lines[1..]); }
  }

  /** No stream makes the decoder send more events than allowed, whatever its size or chunks. */
  lemma {:induction false} NeverTooManyEvents<E>(s: Settings<E>, d: Decoder<E>, received: nat, chunks: seq<bytes>)
    requires |d.events| <= s.maxEvents
    ensures |Finish(s, FeedAll(s, d, received, chunks)).events| <= s.maxEvents
    decreases chunks
  {
    if d.Running? && chunks != [] && received + |chunks[0]| <= s.maxBytes {
      var parts := Split(d.buffered + chunks[0], NEWLINE);
      EmitKeepsCount(s, d, parts[..|parts| - 1]);
      NeverTooManyEvents(s, Feed(s, d, chunks[0]), received + |chunks[0]|, chunks[1..]);
    }
  }

  /** The lines a decoder sees are cut off one at a time. */
  lemma FeedLine<E>(s: Settings<E>, d: Decoder<E>, line: bytes, rest: bytes)
    requires d.Running? && d.buffered == [] && NEWLINE !in line
    ensures Feed(s, d, line + [NEWLINE] + rest) == Feed(s, EmitLine(s, d, line), rest)
  {
    assert [] + (line + [NEWLINE] + rest) == line + [NEWLINE] + rest;
    SplitFirst(line, rest, NEWLINE);
    var tail := Split(rest, NEWLINE);
    var whole := [line] + tail;
    assert whole[..|whole| - 1] == [line] + tail[..|tail| - 1] && whole[|whole| - 1] == tail[|tail| - 1];
    assert ([line] + tail[..|tail| - 1])[1..] == tail[..|tail| - 1];
    assert EmitAll(s, d, [line] + tail[..|tail| - 1]) == EmitAll(s, EmitLine(s, d, line), tail[..|tail| - 1]);
    assert [] + rest == rest;
  }

  // ---- The code --------------------------------------------------------------------------------------

  /** `buffered.find`: the index of the first newline, or none. */
  method FindNewline(buffered: bytes) returns (index: Option<nat>)
    ensures index.None? ==> NEWLINE !in buffered
    ensures index.Some? ==>
              index.value < |buffered| && buffered[index.value] == NEWLINE && NEWLINE !in buffered[..index.value]
  {
    var i := 0;
    while i < |buffered|
      invariant 0 <= i <= |buffered| && NEWLINE !in buffered[..i]
    {
      if buffered[i] == NEWLINE { return Some(i); }
      i := i + 1;
    }
    return None;
  }

  /** The variables of one agent call. */
  class AgentStream<E> {
    const settings: Settings<E>
    var receivedBytes: nat
    var buffered: bytes
    var dataLines: seq<bytes>
    var events: seq<E>
    var failure: Option<Failure>

    constructor (settings: Settings<E>)
      ensures this.settings == settings && receivedBytes == 0
      ensures Contents() == Running([], START_LINES, [])
    {
      this.settings := settings;
      receivedBytes, buffered, dataLines, events, failure := 0, [], [], [], None;
    }

    ghost function Contents(): Decoder<E>
      reads this
    {
      if failure.Some? then Failed(events, failure.value) else Running(buffered, dataLines, events)
    }

    method EmitLineNow(raw: bytes)
      requires failure.None?
      modifies this`dataLines, this`events, this`failure
      ensures Contents() == EmitLine(settings, old(Contents()), raw)
    {
      var line := TrimReturns(raw);
      if line == [] {
        if dataLines == [] { return; }
        var rawData := JoinLines(dataLines);
        match settings.parse(rawData) {
          case Malformed => failure := Some(MalformedJson);
          case NotObject => failure := Some(NotAnObject);
          case Object(e) =>
            if |events| + 1 > settings.maxEvents {
              failure := Some(TooManyEvents);
            } else {
              dataLines := [];
              events := events + [e];
            }
        }
      } else if line[0] != COLON && |line| >= 5 && line[..5] == DATA {
        dataLines := dataLines + [TrimSpaces(line[5..])];
      }
    }

    method Receive(chunk: bytes)
      requires failure.None? && NEWLINE !in buffered
      modifies this
      ensures old(receivedBytes) + |chunk| > settings.maxBytes ==>
        Contents() == Failed(old(events), TooManyBytes)
      ensures old(receivedBytes) + |chunk| <= settings.maxBytes ==>
        && Contents() == Feed(settings, old(Contents()), chunk)
        && receivedBytes == old(receivedBytes) + |chunk|
      ensures failure.None? ==> NEWLINE !in buffered
    {
      ghost var goal := Feed(settings, Contents(), chunk);
      receivedBytes := receivedBytes + |chunk|;
      if receivedBytes > settings.maxBytes {
        failure := Some(TooManyBytes);
        return;
      }
      FeedFromBuffer(settings, Contents(), chunk);
      buffered := buffered + chunk;
      while true
        invariant failure.None?
        invariant receivedBytes == old(receivedBytes) + |chunk| <= settings.maxBytes
        invariant goal == Feed(settings, WithBuffer(Contents(), []), buffered)
        decreases |buffered|
      {
        var newline := FindNewline(buffered);
        if newline.None? {
          SplitPlain(buffered, NEWLINE);
          assert [] + buffered == buffered && [buffered][..0] == [];
          return;
        }
        TakeLine(newline.value);
        if failure.Some? { return; }
      }
    }

    /** Cuts the first line off the buffer and emits it. */
    method TakeLine(newline: nat)
      requires failure.None? && newline < |buffered| && buffered[newline] == NEWLINE && NEWLINE !in buffered[..newline]
      modifies this`buffered, this`dataLines, this`events, this`failure
      ensures |buffered| < |old(buffered)|
      ensures Feed(settings, WithBuffer(old(Contents()), []), old(buffered)) ==
              if failure.None? then Feed(settings, WithBuffer(Contents(), []), buffered) else Contents()
    {
      var line, rest := buffered[..newline], buffered[newline + 1..];
      assert buffered == line + [NEWLINE] + rest;
      FeedLine(settings, WithBuffer(Contents(), []), line, rest);
      BufferApart(settings, Contents(), line);
      buffered := rest;
      BufferApart(settings, Contents(), line);
      EmitLineNow(line);
    }

    method Close()
      requires failure.None?
      modifies this
      ensures Contents() == Finish(settings, old(Contents()))
    {
      if buffered != [] {
        var line := buffered;
        BufferApart(settings, Contents(), line);
        buffered := [];
        EmitLineNow(line);
      }
      if failure.None? && dataLines != [] {
        EmitLineNow([]);
      }
    }
  }

  /** Buffered bytes count as the beginning of the next chunk. */
  lemma FeedFromBuffer<E>(s: Settings<E>, d: Decoder<E>, chunk: bytes)
    requires d.Running?
    ensures Feed(s, d, chunk) == Feed(s, WithBuffer(d, []), d.buffered + chunk)
  {
    var text := d.buffered + chunk;
    assert [] + text == text;
    var parts := Split(text, NEWLINE);
    EmitIgnoresBuffer(s, d, [], parts[..|parts| - 1]);
  }

  lemma BufferApart<E>(s: Settings<E>, d: Decoder<E>, line: bytes)
    requires d.Running?
    ensures EmitLine(s, WithBuffer(d, []), line) == WithBuffer(EmitLine(s, d, line), [])
  {
  }
}
