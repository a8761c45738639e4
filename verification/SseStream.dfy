/** What an event stream means: the events its lines spell, for every stream and every cut into chunks. */
module SseStream {
  import opened Basics
  import opened Text
  import opened Sse

  // ---- What a line says ------------------------------------------------------------------------------

  /** A data line with its text, a line that closes an event, or any other line. */
  datatype Item = Data(text: bytes) | Blank | Ignored

  /** `core` is the line without the carriage returns it ends in. */
  ghost predicate EndsLine(raw: bytes, core: bytes) {
    && core <= raw && (forall i | |core| <= i < |raw| :: raw[i] == RETURN)
    && (core != [] ==> core[|core| - 1] != RETURN)
  }

  /** `text` is `rest` without the spaces it begins with. */
  ghost predicate BeginsWithSpaces(rest: bytes, text: bytes) {
    && |text| <= |rest| && rest[|rest| - |text|..] == text
    && (forall i | 0 <= i < |rest| - |text| :: rest[i] == SPACE)
    && (text != [] ==> text[0] != SPACE)
  }

  ghost predicate CoreSays(core: bytes, item: Item) {
    match item
    case Blank => core == []
    case Data(text) => DATA <= core && BeginsWithSpaces(core[5..], text)
    case Ignored => core != [] && !(DATA <= core)
  }

  ghost predicate Says(raw: bytes, item: Item) {
    exists core :: EndsLine(raw, core) && CoreSays(core, item)
  }

  lemma {:induction false} TrimReturnsMeans(raw: bytes, core: bytes)
    ensures TrimReturns(raw) == core <==> EndsLine(raw, core)
  {
    if raw != [] && raw[|raw| - 1] == RETURN {
      var shorter := raw[..|raw| - 1];
      TrimReturnsMeans(shorter, core);
      if EndsLine(raw, core) {
        assert |core| < |raw|;
        assert core <= shorter;
      }
    } else if EndsLine(raw, core) {
      assert raw[..|core|] == core;
      assert core == raw;
    }
  }

  lemma {:induction false} TrimSpacesMeans(rest: bytes, text: bytes)
    ensures TrimSpaces(rest) == text <==> BeginsWithSpaces(rest, text)
  {
    if rest != [] && rest[0] == SPACE {
      var shorter := rest[1..];
      TrimSpacesMeans(shorter, text);
      if |text| <= |shorter| { assert shorter[|shorter| - |text|..] == rest[|rest| - |text|..]; }
      if BeginsWithSpaces(shorter, text) {
        forall i | 0 <= i < |rest| - |text| ensures rest[i] == SPACE { if i > 0 { assert rest[i] == shorter[i - 1]; } }
      }
      if BeginsWithSpaces(rest, text) { assert |text| == |rest| ==> rest == text; }
    } else if BeginsWithSpaces(rest, text) {
      assert |text| == |rest|;
    }
  }

  /** Every line says exactly one thing. */
  lemma LineSays(raw: bytes) returns (item: Item)
    ensures Says(raw, item)
    ensures forall other | Says(raw, other) :: other == item
  {
    var core := TrimReturns(raw);
    TrimReturnsMeans(raw, core);
    item := if core == [] then Blank else if DATA <= core then Data(TrimSpaces(core[5..])) else Ignored;
    if DATA <= core { TrimSpacesMeans(core[5..], TrimSpaces(core[5..])); }
    assert CoreSays(core, item);
    forall other | Says(raw, other) ensures other == item {
      var c :| EndsLine(raw, c) && CoreSays(c, other);
      TrimReturnsMeans(raw, c);
      if other.Data? { TrimSpacesMeans(core[5..], other.text); }
    }
  }

  // ---- What the lines of a stream say ----------------------------------------------------------------

  /** The payloads that lines spell after the data lines `open`: data lines joined by newlines, closed by a blank
      line or by the end. */
  function Payloads(open: seq<bytes>, items: seq<Item>): seq<bytes>
    decreases items
  {
    if items == [] then if open == [] then [] else [JoinLines(open)]
    else
      match items[0]
      case Data(text) => Payloads(open + [text], items[1..])
      case Ignored => Payloads(open, items[1..])
      case Blank => (if open == [] then [] else [JoinLines(open)]) + Payloads([], items[1..])
  }

  /** Sends the events of payloads until one does not decode to an object, or is one too many. */
  function Deliver<E>(s: Settings<E>, events: seq<E>, payloads: seq<bytes>): Decoder<E>
    decreases payloads
  {
    if payloads == [] then Running([], [], events)
    else
      match s.parse(payloads[0])
      case Malformed => Failed(events, MalformedJson)
      case NotObject => Failed(events, NotAnObject)
      case Object(e) =>
        if |events| == s.maxEvents then Failed(events, TooManyEvents) else Deliver(s, events + [e], payloads[1..])
  }

  /** The end of a stream closes an open event. */
  function Closed<E>(s: Settings<E>, d: Decoder<E>): Decoder<E> {
    if d.Running? && d.dataLines != [] then EmitLine(s, d, []) else d
  }

  lemma EmitSays<E>(s: Settings<E>, d: Decoder<E>, raw: bytes, item: Item)
    requires d.Running? && Says(raw, item)
    ensures item.Ignored? ==> EmitLine(s, d, raw) == d
    ensures item.Data? ==> EmitLine(s, d, raw) == d.(dataLines := d.dataLines + [item.text])
    ensures item.Blank? ==> EmitLine(s, d, raw) == EmitLine(s, d, [])
  {
    var core :| EndsLine(raw, core) && CoreSays(core, item);
    TrimReturnsMeans(raw, core);
    if item.Data? { TrimSpacesMeans(core[5..], item.text); }
  }

  lemma ClosePayload<E>(s: Settings<E>, d: Decoder<E>, later: seq<bytes>)
    requires d.Running? && d.buffered == [] && d.dataLines != [] && |d.events| <= s.maxEvents
    ensures var e := EmitLine(s, d, []);
            Deliver(s, d.events, [JoinLines(d.dataLines)] + later) ==
            if e.Failed? then e else Deliver(s, e.events, later)
    ensures var e := EmitLine(s, d, []);
            e.Running? ==> e.buffered == [] && e.dataLines == [] && |e.events| <= s.maxEvents
  {
    assert ([JoinLines(d.dataLines)] + later)[1..] == later;
  }

  /** Emitting lines one by one delivers the payloads they spell. */
  lemma {:induction false} EmitDelivers<E>(s: Settings<E>, d: Decoder<E>, lines: seq<bytes>, items: seq<Item>)
    requires d.Running? && d.buffered == [] && |d.events| <= s.maxEvents
    requires |items| == |lines| && forall i | 0 <= i < |lines| :: Says(lines[i], items[i])
    ensures Closed(s, EmitAll(s, d, lines)) == Deliver(s, d.events, Payloads(d.dataLines, items))
    decreases lines
  {
    if lines == [] {
      if d.dataLines != [] {
        ClosePayload(s, d, []);
        assert [JoinLines(d.dataLines)] + [] == [JoinLines(d.dataLines)];
      }
    } else {
      var e := EmitLine(s, d, lines[0]);
      EmitSays(s, d, lines[0], items[0]);
      var rest := items[1..];
      if items[0].Blank? && d.dataLines != [] {
        ClosePayload(s, d, Payloads([], rest));
      } else if items[0].Blank? {
        assert [] + Payloads([], rest) == Payloads([], rest);
      }
      if e.Running? { EmitDelivers(s, e, lines[1..], rest); }
    }
  }

  // ---- Streams ---------------------------------------------------------------------------------------

  /** Lines as bytes, each with its newline. */
  function Terminated(lines: seq<bytes>): bytes {
    if lines == [] then [] else lines[0] + [NEWLINE] + Terminated(lines[1..])
  }

  /** The lines of a stream: terminated ones, and a last one that is not, if it is not empty. */
  function AllLines(lines: seq<bytes>, last: bytes): seq<bytes> {
    if last == [] then lines else lines + [last]
  }

  ghost predicate Spells(lines: seq<bytes>, last: bytes, items: seq<Item>) {
    var all := AllLines(lines, last);
    && (forall i | 0 <= i < |lines| :: NEWLINE !in lines[i]) && NEWLINE !in last
    && |items| == |all| && forall i | 0 <= i < |all| :: Says(all[i], items[i])
  }

  lemma Regroup<T>(a: seq<T>, b: seq<T>, c: seq<T>)
    ensures a + b + c == a + (b + c)
  {
  }

  lemma {:induction false} SplitTerminated(lines: seq<bytes>, last: bytes)
    requires (forall i | 0 <= i < |lines| :: NEWLINE !in lines[i]) && NEWLINE !in last
    ensures Split(Terminated(lines) + last, NEWLINE) == lines + [last]
    decreases lines
  {
    if lines == [] {
      assert Terminated(lines) + last == last && lines + [last] == [last];
      SplitPlain(last, NEWLINE);
    } else {
      var line, others := lines[0], lines[1..];
      SplitTerminated(others, last);
      SplitFirst(line, Terminated(others) + last, NEWLINE);
      Regroup(line + [NEWLINE], Terminated(others), last);
      Regroup([line], others, [last]);
      assert [line] + others == lines;
    }
  }

  /** The meaning of a stream. Whatever lines arrive, the last one terminated or not, and however they are cut
      into chunks within the byte limit, the decoder sends the events of the payloads the lines spell, in
      order, until one is malformed, no object, or one too many. */
  lemma StreamMeans<E>(s: Settings<E>, lines: seq<bytes>, last: bytes, items: seq<Item>, chunks: seq<bytes>)
    requires Spells(lines, last, items)
    requires Concat(chunks) == Terminated(lines) + last && |Concat(chunks)| <= s.maxBytes
    ensures Decode(s, chunks) == Deliver(s, [], Payloads([], items))
  {
    ChunksDoNotMatter(s, chunks);
    SplitTerminated(lines, last);
    var parts := lines + [last];
    assert parts[..|parts| - 1] == lines;
    EmitDelivers(s, Running([], START_LINES, []), AllLines(lines, last), items);
  }

  /** And every stream is such lines. */
  lemma EveryStreamSpells(stream: bytes) returns (lines: seq<bytes>, last: bytes, items: seq<Item>)
    ensures stream == Terminated(lines) + last && Spells(lines, last, items)
  {
    var parts := Split(stream, NEWLINE);
    lines, last := parts[..|parts| - 1], parts[|parts| - 1];
    SplitParts(stream, NEWLINE);
    PartsTerminated(stream);
    items := AllSay(AllLines(lines, last));
  }

  lemma {:induction false} PartsTerminated(stream: bytes)
    ensures var parts := Split(stream, NEWLINE);
            stream == Terminated(parts[..|parts| - 1]) + parts[|parts| - 1]
  {
    if stream != [] {
      var rest := Split(stream[1..], NEWLINE);
      var parts := Split(stream, NEWLINE);
      PartsTerminated(stream[1..]);
      assert stream == [stream[0]] + stream[1..];
      var lines := parts[..|parts| - 1];
      if stream[0] == NEWLINE {
        assert parts == [[]] + rest;
        assert lines[1..] == rest[..|rest| - 1];
      } else if |rest| == 1 {
        assert parts == [[stream[0]] + rest[0]];
      } else {
        assert lines[1..] == rest[..|rest| - 1][1..];
        assert rest[..|rest| - 1][0] == rest[0];
      }
    }
  }

  lemma {:induction false} AllSay(lines: seq<bytes>) returns (items: seq<Item>)
    ensures |items| == |lines| && forall i | 0 <= i < |lines| :: Says(lines[i], items[i])
  {
    items := [];
    if lines != [] {
      var first := LineSays(lines[0]);
      var rest := AllSay(lines[1..]);
      items := [first] + rest;
    }
  }

  // ---- Past the byte limit ---------------------------------------------------------------------------

  /** The payloads that blank lines close; an open event is not among them. */
  function ClosedPayloads(open: seq<bytes>, items: seq<Item>): seq<bytes>
    decreases items
  {
    if items == [] then []
    else
      match items[0]
      case Data(text) => ClosedPayloads(open + [text], items[1..])
      case Ignored => ClosedPayloads(open, items[1..])
      case Blank => (if open == [] then [] else [JoinLines(open)]) + ClosedPayloads([], items[1..])
  }

  function Stopped<E>(d: Decoder<E>, failure: Failure): Decoder<E> {
    if d.Failed? then d else Failed(d.events, failure)
  }

  lemma {:induction false} EmitStops<E>(s: Settings<E>, d: Decoder<E>, lines: seq<bytes>, items: seq<Item>)
    requires d.Running? && d.buffered == [] && |d.events| <= s.maxEvents
    requires |items| == |lines| && forall i | 0 <= i < |lines| :: Says(lines[i], items[i])
    ensures Stopped(EmitAll(s, d, lines), TooManyBytes) ==
            Stopped(Deliver(s, d.events, ClosedPayloads(d.dataLines, items)), TooManyBytes)
    decreases lines
  {
    if lines != [] {
      var e := EmitLine(s, d, lines[0]);
      EmitSays(s, d, lines[0], items[0]);
      var rest := items[1..];
      if items[0].Blank? && d.dataLines != [] {
        ClosePayload(s, d, ClosedPayloads([], rest));
      } else if items[0].Blank? {
        assert [] + ClosedPayloads([], rest) == ClosedPayloads([], rest);
      }
      if e.Running? { EmitStops(s, e, lines[1..], rest); }
    }
  }

  lemma {:induction false} FeedAllStops<E>(s: Settings<E>, d: Decoder<E>, received: nat, chunks: seq<bytes>, over: bytes,
                                           others: seq<bytes>)
    requires received + |Concat(chunks)| <= s.maxBytes < received + |Concat(chunks)| + |over|
    requires d.Running? ==> NEWLINE !in d.buffered
    ensures FeedAll(s, d, received, chunks + [over] + others) == Stopped(Feed(s, d, Concat(chunks)), TooManyBytes)
    decreases chunks
  {
    var all := chunks + [over] + others;
    if chunks == [] {
      assert all[0] == over;
      FeedNothing(s, d);
    } else if d.Running? {
      assert all[0] == chunks[0] && all[1..] == chunks[1..] + [over] + others;
      FeedLeavesNoNewline(s, d, chunks[0]);
      FeedAllStops(s, Feed(s, d, chunks[0]), received + |chunks[0]|, chunks[1..], over, others);
      FeedConcat(s, d, chunks[0], Concat(chunks[1..]));
    }
  }

  lemma StartFed<E>(s: Settings<E>, lines: seq<bytes>, last: bytes)
    requires (forall i | 0 <= i < |lines| :: NEWLINE !in lines[i]) && NEWLINE !in last
    ensures Feed(s, Running([], START_LINES, []), Terminated(lines) + last) ==
            WithBuffer(EmitAll(s, Running([], START_LINES, []), lines), last)
  {
    SplitTerminated(lines, last);
    assert [] + (Terminated(lines) + last) == Terminated(lines) + last;
    assert (lines + [last])[..|lines|] == lines;
  }

  /** A stream that passes the limit with the chunk `over`: the events whose blank line lies in the chunks before
      it are sent, and the call fails, for the size unless an event failed first. */
  lemma OverLimitMeans<E>(s: Settings<E>, lines: seq<bytes>, last: bytes, items: seq<Item>, chunks: seq<bytes>,
                          over: bytes, others: seq<bytes>)
    requires Spells(lines, [], items) && NEWLINE !in last
    requires Concat(chunks) == Terminated(lines) + last
    requires |Concat(chunks)| <= s.maxBytes < |Concat(chunks)| + |over|
    ensures Decode(s, chunks + [over] + others) == Stopped(Deliver(s, [], ClosedPayloads([], items)), TooManyBytes)
  {
    var start: Decoder<E> := Running([], START_LINES, []);
    FeedAllStops(s, start, 0, chunks, over, others);
    StartFed(s, lines, last);
    EmitStops(s, start, lines, items);
  }

  // ---- Printing and reading back ---------------------------------------------------------------------

  lemma {:induction false} JoinSplit(payload: bytes)
    ensures JoinLines(Split(payload, NEWLINE)) == payload
  {
    if payload != [] {
      JoinSplit(payload[1..]);
      var rest := Split(payload[1..], NEWLINE);
      var parts := Split(payload, NEWLINE);
      if payload[0] == NEWLINE {
        assert parts[1..] == rest;
        assert parts[0] + [NEWLINE] + JoinLines(rest) == payload;
      } else {
        assert parts[1..] == rest[1..];
        if |rest| > 1 {
          assert [payload[0]] + (rest[0] + [NEWLINE] + JoinLines(rest[1..]))
              == parts[0] + [NEWLINE] + JoinLines(rest[1..]);
        }
        assert [payload[0]] + payload[1..] == payload;
      }
    }
  }

  /** The texts of the data lines among some lines. */
  function Texts(items: seq<Item>): seq<bytes> {
    if items == [] then [] else (if items[0].Data? then [items[0].text] else []) + Texts(items[1..])
  }

  /** One event as lines: its payload as data lines, other lines anywhere among them, no blank one. */
  predicate PrintsEvent(items: seq<Item>, payload: bytes) {
    Blank !in items && Texts(items) == Split(payload, NEWLINE)
  }

  /** Events one after the other, each closed by a blank line. */
  function Sequence(blocks: seq<seq<Item>>): seq<Item> {
    if blocks == [] then [] else blocks[0] + [Blank] + Sequence(blocks[1..])
  }

  lemma {:induction false} BlockPayload(open: seq<bytes>, items: seq<Item>, rest: seq<Item>)
    requires Blank !in items && open + Texts(items) != []
    ensures Payloads(open, items + [Blank] + rest) == [JoinLines(open + Texts(items))] + Payloads([], rest)
    decreases items
  {
    var all := items + [Blank] + rest;
    if items == [] {
      assert all[1..] == rest && open + [] == open;
    } else {
      assert all[0] == items[0] && all[1..] == items[1..] + [Blank] + rest;
      if items[0].Data? {
        assert open + ([items[0].text] + Texts(items[1..])) == open + [items[0].text] + Texts(items[1..]);
        BlockPayload(open + [items[0].text], items[1..], rest);
      } else {
        assert [] + Texts(items[1..]) == Texts(items[1..]);
        BlockPayload(open, items[1..], rest);
      }
    }
  }

  lemma {:induction false} SequencePayloads(blocks: seq<seq<Item>>, payloads: seq<bytes>)
    requires |blocks| == |payloads| && forall i | 0 <= i < |blocks| :: PrintsEvent(blocks[i], payloads[i])
    ensures Payloads([], Sequence(blocks)) == payloads
    decreases blocks
  {
    if blocks != [] {
      assert [] + Texts(blocks[0]) == Texts(blocks[0]);
      JoinSplit(payloads[0]);
      assert PrintsEvent(blocks[0], payloads[0]);
      BlockPayload([], blocks[0], Sequence(blocks[1..]));
      forall i | 0 <= i < |blocks[1..]| ensures PrintsEvent(blocks[1..][i], payloads[1..][i]) {
        assert PrintsEvent(blocks[i + 1], payloads[i + 1]);
      }
      SequencePayloads(blocks[1..], payloads[1..]);
    }
  }

  function ParsedEvents<E>(s: Settings<E>, payloads: seq<bytes>): seq<E>
    requires forall p | p in payloads :: s.parse(p).Object?
  {
    if payloads == [] then [] else [s.parse(payloads[0]).event] + ParsedEvents(s, payloads[1..])
  }

  lemma {:induction false} DeliverAll<E>(s: Settings<E>, events: seq<E>, payloads: seq<bytes>)
    requires forall p | p in payloads :: s.parse(p).Object?
    requires |events| + |payloads| <= s.maxEvents
    ensures Deliver(s, events, payloads) == Running([], [], events + ParsedEvents(s, payloads))
    decreases payloads
  {
    if payloads == [] {
      assert events + [] == events;
    } else {
      assert payloads[0] in payloads;
      var e := s.parse(payloads[0]).event;
      DeliverAll(s, events + [e], payloads[1..]);
      assert events + [e] + ParsedEvents(s, payloads[1..]) == events + ([e] + ParsedEvents(s, payloads[1..]));
    }
  }

  /** Round trip. Events printed as data lines - with any number of spaces after the colon, any number of carriage
      returns before each newline, and comments and other fields anywhere among them - and cut into any
      chunks are decoded to the same events. */
  lemma PrintedEventsAreRead<E>(s: Settings<E>, payloads: seq<bytes>, blocks: seq<seq<Item>>, lines: seq<bytes>,
                                chunks: seq<bytes>)
    requires forall p | p in payloads :: s.parse(p).Object?
    requires |payloads| <= s.maxEvents
    requires |blocks| == |payloads| && forall i | 0 <= i < |blocks| :: PrintsEvent(blocks[i], payloads[i])
    requires Spells(lines, [], Sequence(blocks))
    requires Concat(chunks) == Terminated(lines) && |Concat(chunks)| <= s.maxBytes
    ensures Decode(s, chunks) == Running([], START_LINES, ParsedEvents(s, payloads))
  {
    assert Terminated(lines) + [] == Terminated(lines);
    StreamMeans(s, lines, [], Sequence(blocks), chunks);
    SequencePayloads(blocks, payloads);
    DeliverAll(s, [], payloads);
    assert [] + ParsedEvents(s, payloads) == ParsedEvents(s, payloads);
  }

  function Repeated(b: byte, n: nat): bytes {
    seq(n, i => b)
  }

  lemma EndedLine(core: bytes, endings: nat, item: Item)
    requires (core != [] ==> core[|core| - 1] != RETURN) && CoreSays(core, item)
    ensures Says(core + Repeated(RETURN, endings), item)
  {
    assert EndsLine(core + Repeated(RETURN, endings), core);
  }

  lemma DataCore(text: bytes, spaces: nat)
    requires text != [] ==> text[0] != SPACE
    ensures CoreSays(DATA + Repeated(SPACE, spaces) + text, Data(text))
  {
    var core := DATA + Repeated(SPACE, spaces) + text;
    var rest := core[5..];
    assert rest == Repeated(SPACE, spaces) + text;
    assert rest[|rest| - |text|..] == text;
  }

  /** How lines are written: a text that trimming leaves alone, after any spaces and before any carriage returns;
      carriage returns alone; and anything else. */
  lemma WrittenLinesSay(text: bytes, spaces: nat, endings: nat)
    ensures (text != [] ==> text[0] != SPACE && text[|text| - 1] != RETURN) ==>
              Says(DATA + Repeated(SPACE, spaces) + text + Repeated(RETURN, endings), Data(text))
    ensures Says(Repeated(RETURN, endings), Blank)
    ensures text != [] && text[|text| - 1] != RETURN && !(DATA <= text) ==>
              Says(text + Repeated(RETURN, endings), Ignored)
  {
    if text != [] ==> text[0] != SPACE && text[|text| - 1] != RETURN {
      DataCore(text, spaces);
      EndedLine(DATA + Repeated(SPACE, spaces) + text, endings, Data(text));
    }
    EndedLine([], endings, Blank);
    assert [] + Repeated(RETURN, endings) == Repeated(RETURN, endings);
    if text != [] && text[|text| - 1] != RETURN && !(DATA <= text) { EndedLine(text, endings, Ignored); }
  }
}
