/** The grammar of a patch: which line lists are hunks, and the two sides of each hunk, read off by position. */
module DiffGrammar {
  import opened Basics
  import opened Diff

  // ---- Lines -----------------------------------------------------------------------------------------

  predicate StartsHeader(line: string) {
    |line| >= 2 && line[..2] == "@@"
  }

  /** Which line of a patch text says what; the empty line is an empty context line. */
  ghost predicate Spells(parse: string -> Option<Range>, line: string, l: PatchLine) {
    match l
    case Header(r) => StartsHeader(line) && parse(line) == Some(r)
    case BadHeader => StartsHeader(line) && parse(line) == None
    case Context(t) => line == " " + t || (line == "" && t == "")
    case Added(t) => line == "+" + t
    case Removed(t) => line == "-" + t
    case NoNewline => line == "\\ No newline at end of file"
    case Junk =>
      && line != "" && !StartsHeader(line) && line != "\\ No newline at end of file"
      && line[0] != ' ' && line[0] != '+' && line[0] != '-'
  }

  lemma ClassifyMeans(parse: string -> Option<Range>, line: string, l: PatchLine)
    ensures Classify(parse, line) == l <==> Spells(parse, line, l)
  {
    if line != "" { assert line == [line[0]] + line[1..]; }
    match l
    case Context(t) => assert (" " + t)[1..] == t;
    case Added(t) => assert ("+" + t)[1..] == t;
    case Removed(t) => assert ("-" + t)[1..] == t;
    case _ =>
  }

  /** A line of the file: kept, put in or taken out. */
  predicate Plain(l: PatchLine) {
    l.Context? || l.Added? || l.Removed?
  }

  // ---- Hunks -----------------------------------------------------------------------------------------

  /** A readable line list: it begins with a header, holds no foreign line and no malformed header, and each
      no-newline marker directly follows a line of the file. */
  ghost predicate Readable(lines: seq<PatchLine>) {
    && (lines != [] ==> lines[0].Header?)
    && forall i | 0 <= i < |lines| ::
         && !lines[i].Junk? && !lines[i].BadHeader?
         && (lines[i].NoNewline? ==> i > 0 && Plain(lines[i - 1]))
  }

  /** The same of a rest, whose first line may be a marker if a line of the file stands before it. */
  ghost predicate ReadableAfter(text: bool, lines: seq<PatchLine>) {
    && (lines != [] && lines[0].NoNewline? ==> text)
    && forall i | 0 <= i < |lines| ::
         && !lines[i].Junk? && !lines[i].BadHeader?
         && (lines[i].NoNewline? && i > 0 ==> Plain(lines[i - 1]))
  }

  /** The number of lines before the next header. */
  function BodyLength(lines: seq<PatchLine>): (n: nat)
    ensures n <= |lines| && (n < |lines| ==> EndsHunk(lines[n]))
    ensures forall i | 0 <= i < n :: !EndsHunk(lines[i])
  {
    if lines == [] || EndsHunk(lines[0]) then 0 else 1 + BodyLength(lines[1..])
  }

  /** The first line of the file as the patch means it: without its newline if a marker follows. */
  function FirstText(lines: seq<PatchLine>): string
    requires lines != [] && Plain(lines[0])
  {
    if |lines| > 1 && lines[1].NoNewline? then lines[0].text else lines[0].text + "\n"
  }

  /** The line is on the side: kept, or put in on the new one and taken out on the old one. */
  predicate On(l: PatchLine, newSide: bool) {
    l.Context? || (if newSide then l.Added? else l.Removed?)
  }

  /** One side of a hunk body: its kept lines with those taken out, or with those put in. */
  function Side(lines: seq<PatchLine>, newSide: bool): seq<string> {
    if lines == [] || EndsHunk(lines[0]) then []
    else (if On(lines[0], newSide) then [FirstText(lines)] else []) + Side(lines[1..], newSide)
  }

  /** The hunks of a readable line list: from header to header. */
  function Hunks(lines: seq<PatchLine>): seq<Hunk>
    requires Readable(lines)
    decreases |lines|
  {
    if lines == [] then []
    else
      var body := lines[1..];
      ReadableRest(lines);
      [Hunk(lines[0].range, Side(body, false), Side(body, true))] + Hunks(body[BodyLength(body)..])
  }

  lemma ReadableRest(lines: seq<PatchLine>)
    requires Readable(lines) && lines != []
    ensures Readable(lines[1..][BodyLength(lines[1..])..])
  {
    var body := lines[1..];
    var n := BodyLength(body);
    var rest := body[n..];
    forall i | 0 <= i < |rest| ensures rest[i] == lines[n + 1 + i] {}
    if rest != [] { assert EndsHunk(rest[0]); }
  }

  // ---- The prover reads exactly this -----------------------------------------------------------------

  /** What the prover has of one side, once it has seen whether a marker follows. */
  function Settled(side: seq<string>, touched: bool, lines: seq<PatchLine>): seq<string> {
    if touched && lines != [] && lines[0].NoNewline? then StripLast(side) else side
  }

  lemma StripLastText(side: seq<string>, text: string)
    ensures StripLast(side + [text + "\n"]) == side + [text]
  {
    var line := text + "\n";
    assert line[..|line| - 1] == text;
    assert (side + [line])[..|side|] == side;
  }

  lemma SettledText(side: seq<string>, lines: seq<PatchLine>)
    requires lines != [] && Plain(lines[0])
    ensures Settled(side + [lines[0].text + "\n"], true, lines[1..]) == side + [FirstText(lines)]
  {
    StripLastText(side, lines[0].text);
  }

  lemma ReadableStep(text: bool, lines: seq<PatchLine>)
    requires lines != []
    ensures ReadableAfter(text, lines) <==>
            && !lines[0].Junk? && !lines[0].BadHeader? && (lines[0].NoNewline? ==> text)
            && ReadableAfter(Plain(lines[0]), lines[1..])
  {
    var rest := lines[1..];
    forall i | 0 <= i < |rest| ensures rest[i] == lines[i + 1] {}
    if ReadableAfter(Plain(lines[0]), rest) {
      forall i | 0 < i < |lines|
        ensures !lines[i].Junk? && !lines[i].BadHeader? && (lines[i].NoNewline? ==> Plain(lines[i - 1]))
      {
        var j := i - 1;
        assert rest[j] == lines[i];
        if j > 0 { assert rest[j - 1] == lines[j]; }
      }
    }
  }

  lemma SideStep(side: seq<string>, touched: bool, lines: seq<PatchLine>, newSide: bool, next: seq<string>)
    requires lines != [] && (Plain(lines[0]) || lines[0].NoNewline?)
    requires next == if On(lines[0], newSide) then side + [lines[0].text + "\n"]
                     else if lines[0].NoNewline? && touched then StripLast(side) else side
    ensures Settled(next, On(lines[0], newSide), lines[1..]) + Side(lines[1..], newSide) ==
            Settled(side, touched, lines) + Side(lines, newSide)
  {
    var rest := Side(lines[1..], newSide);
    if On(lines[0], newSide) {
      SettledText(side, lines);
      assert Side(lines, newSide) == [FirstText(lines)] + rest;
      assert side + ([FirstText(lines)] + rest) == (side + [FirstText(lines)]) + rest;
    } else {
      assert Side(lines, newSide) == [] + rest == rest;
    }
  }

  lemma {:induction false} BodyReads(b: Body, lines: seq<PatchLine>)
    ensures var n := BodyLength(lines);
            && (ReadBody(b, lines).Some? <==> ReadableAfter(!b.previous.NoMark?, lines[..n]))
            && (ReadBody(b, lines).Some? ==>
                  var (body, rest) := ReadBody(b, lines).value;
                  && rest == lines[n..]
                  && body.before ==
                     Settled(b.before, b.previous.ContextMark? || b.previous.RemovedMark?, lines) + Side(lines, false)
                  && body.after ==
                     Settled(b.after, b.previous.ContextMark? || b.previous.AddedMark?, lines) + Side(lines, true))
    decreases lines
  {
    if lines == [] || EndsHunk(lines[0]) {
      assert b.before + [] == b.before && b.after + [] == b.after;
    } else {
      ReadBodyNext(b, lines);
      var body := lines[..BodyLength(lines)];
      ReadableStep(!b.previous.NoMark?, body);
      assert body[1..] == lines[1..][..BodyLength(lines[1..])];
      var next := ReadLine(b, lines[0]);
      if next.Some? {
        BodyReads(next.value, lines[1..]);
        SideStep(b.before, b.previous.ContextMark? || b.previous.RemovedMark?, lines, false, next.value.before);
        SideStep(b.after, b.previous.ContextMark? || b.previous.AddedMark?, lines, true, next.value.after);
      }
    }
  }

  /** The hunks the prover reads, regardless of any file. */
  function ParseHunks(lines: seq<PatchLine>): Option<seq<Hunk>>
    decreases |lines|
  {
    if lines == [] then Some([])
    else if !lines[0].Header? then None
    else
      var read := ReadBody(EMPTY_BODY, lines[1..]);
      if read.None? then None
      else
        var (body, rest) := read.value;
        ReadBodyShortens(EMPTY_BODY, lines[1..]);
        var others := ParseHunks(rest);
        if others.None? then None
        else Some([Hunk(lines[0].range, body.before, body.after)] + others.value)
  }

  lemma ReadableParts(lines: seq<PatchLine>)
    requires lines != [] && lines[0].Header?
    ensures var body := lines[1..];
            var n := BodyLength(body);
            Readable(lines) <==> ReadableAfter(false, body[..n]) && Readable(body[n..])
  {
    var body := lines[1..];
    var n := BodyLength(body);
    var first, rest := body[..n], body[n..];
    forall i | 0 <= i < |body| ensures body[i] == lines[i + 1] {}
    forall i | 0 <= i < |rest| ensures rest[i] == lines[n + 1 + i] {}
    forall i | 0 <= i < n ensures first[i] == lines[i + 1] {}
    if Readable(lines) { ReadableRest(lines); }
    if ReadableAfter(false, first) && Readable(rest) {
      forall i | 0 <= i < |lines|
        ensures !lines[i].Junk? && !lines[i].BadHeader? && (lines[i].NoNewline? ==> i > 0 && Plain(lines[i - 1]))
      {
        if 0 < i <= n {
          var j := i - 1;
          assert first[j] == lines[i];
          if j > 0 { assert first[j - 1] == lines[j]; }
        } else if i > n {
          var j := i - n - 1;
          assert rest[j] == lines[i];
          if j > 0 { assert rest[j - 1] == lines[i - 1]; }
        }
      }
    }
  }

  /** A line list is read exactly when it is readable, and then as its hunks. */
  lemma {:induction false} ParseMeans(lines: seq<PatchLine>)
    ensures ParseHunks(lines).Some? <==> Readable(lines)
    ensures Readable(lines) ==> ParseHunks(lines).value == Hunks(lines)
    decreases |lines|
  {
    if lines != [] && lines[0].Header? {
      var body := lines[1..];
      var n := BodyLength(body);
      ReadableParts(lines);
      BodyReads(EMPTY_BODY, body);
      ParseMeans(body[n..]);
      if Readable(lines) {
        assert [] + Side(body, false) == Side(body, false) && [] + Side(body, true) == Side(body, true);
      }
    }
  }
}
