/** What an accepted patch means, and that accepted patches can be reversed and edits printed. */
module DiffProofs {
  import opened Basics
  import opened Text
  import opened Diff
  import opened DiffGrammar

  // ---- Hunks and gaps, with no mention of the prover -------------------------------------------------

  /** The old sides of the hunks with the gaps around them: gap, hunk, gap, hunk, ..., gap. */
  function WeaveOld(gaps: seq<seq<string>>, hunks: seq<Hunk>): seq<string>
    requires |gaps| == |hunks| + 1
  {
    if hunks == [] then gaps[0] else gaps[0] + hunks[0].before + WeaveOld(gaps[1..], hunks[1..])
  }

  function WeaveNew(gaps: seq<seq<string>>, hunks: seq<Hunk>): seq<string>
    requires |gaps| == |hunks| + 1
  {
    if hunks == [] then gaps[0] else gaps[0] + hunks[0].after + WeaveNew(gaps[1..], hunks[1..])
  }

  predicate Counted(h: Hunk) {
    && |h.before| == h.range.oldCount <= MAX_CONTROLLER_BYTES
    && |h.after| == h.range.newCount <= MAX_CONTROLLER_BYTES
  }

  /** The number a header gives a side: its first line, counted from 1, or the line before an empty side. */
  function StartOf(index: nat, count: nat): nat {
    if count == 0 then index else index + 1
  }

  /** Every header tells the truth: counts are the sides' lengths, and each side starts where the gaps
      and hunks before it put it. */
  predicate Placed(gaps: seq<seq<string>>, hunks: seq<Hunk>, oldPos: nat, newPos: nat)
    requires |gaps| == |hunks| + 1
  {
    hunks == [] ||
    (var h := hunks[0];
     var i, j := oldPos + |gaps[0]|, newPos + |gaps[0]|;
     && Counted(h)
     && h.range.oldStart == StartOf(i, h.range.oldCount) && h.range.newStart == StartOf(j, h.range.newCount)
     && Placed(gaps[1..], hunks[1..], i + |h.before|, j + |h.after|))
  }

  /** The patch explains how `source` became `result`. */
  ghost predicate Explains(gaps: seq<seq<string>>, hunks: seq<Hunk>, source: seq<string>, result: seq<string>) {
    && |gaps| == |hunks| + 1 && hunks != []
    && source == WeaveOld(gaps, hunks) && result == WeaveNew(gaps, hunks)
    && Placed(gaps, hunks, 0, 0)
  }

  lemma CutTwice(s: seq<string>, a: nat, b: nat, c: nat)
    requires a <= b <= c <= |s|
    ensures s[a..] == s[a..b] + s[b..c] + s[c..]
  {
  }

  lemma Associate<T>(a: seq<T>, b: seq<T>, c: seq<T>)
    ensures a + b + c == a + (b + c)
  {
  }

  lemma Regroup<T>(a: seq<T>, b: seq<T>, c: seq<T>, d: seq<T>)
    ensures a + b + c + d == a + (b + c + d)
  {
  }

  /** One more hunk in front. */
  lemma WeaveCons(gap: seq<string>, gaps: seq<seq<string>>, h: Hunk, hunks: seq<Hunk>)
    requires |gaps| == |hunks| + 1
    ensures WeaveOld([gap] + gaps, [h] + hunks) == gap + h.before + WeaveOld(gaps, hunks)
    ensures WeaveNew([gap] + gaps, [h] + hunks) == gap + h.after + WeaveNew(gaps, hunks)
  {
    assert ([gap] + gaps)[1..] == gaps && ([h] + hunks)[1..] == hunks;
  }

  lemma PlacedCons(gap: seq<string>, gaps: seq<seq<string>>, h: Hunk, hunks: seq<Hunk>, oldPos: nat, newPos: nat)
    requires |gaps| == |hunks| + 1
    requires Counted(h) && OldIndex(h.range) == oldPos + |gap| && NewIndex(h.range) == newPos + |gap|
    requires Placed(gaps, hunks, oldPos + |gap| + |h.before|, newPos + |gap| + |h.after|)
    ensures Placed([gap] + gaps, [h] + hunks, oldPos, newPos)
  {
    assert ([gap] + gaps)[1..] == gaps && ([h] + hunks)[1..] == hunks;
  }

  lemma PlacedFirst(gaps: seq<seq<string>>, hunks: seq<Hunk>, oldPos: nat, newPos: nat)
    requires |gaps| == |hunks| + 1 && hunks != [] && Placed(gaps, hunks, oldPos, newPos)
    ensures var h, i, j := hunks[0], oldPos + |gaps[0]|, newPos + |gaps[0]|;
            && Counted(h) && OldIndex(h.range) == i && NewIndex(h.range) == j
            && Placed(gaps[1..], hunks[1..], i + |h.before|, j + |h.after|)
  {
  }

  /** From position `end`, an accepted rest of a patch splits the rest of the file. */
  lemma {:induction false} AcceptedSplits(source: seq<string>, lines: seq<PatchLine>, result: seq<string>, end: nat)
    returns (gaps: seq<seq<string>>, hunks: seq<Hunk>)
    requires end <= |source| && ApplyHunks(source, lines, result, end).Some?
    ensures ParseHunks(lines) == Some(hunks) && |gaps| == |hunks| + 1
    ensures source[end..] == WeaveOld(gaps, hunks)
    ensures ApplyHunks(source, lines, result, end).value == result + WeaveNew(gaps, hunks)
    ensures Placed(gaps, hunks, end, |result|)
    decreases |lines|
  {
    if lines == [] {
      gaps, hunks := [source[end..]], [];
    } else {
      ApplyNext(source, lines, result, end);
      var r := lines[0].range;
      var (body, rest) := ReadBody(EMPTY_BODY, lines[1..]).value;
      ReadBodyShortens(EMPTY_BODY, lines[1..]);
      var gap := source[end..OldIndex(r)];
      gaps, hunks := AcceptedSplits(source, rest, result + gap + body.after, OldIndex(r) + r.oldCount);
      CutTwice(source, end, OldIndex(r), OldIndex(r) + r.oldCount);
      Regroup(result, gap, body.after, WeaveNew(gaps, hunks));
      var h := Hunk(r, body.before, body.after);
      WeaveCons(gap, gaps, h, hunks);
      PlacedCons(gap, gaps, h, hunks, end, |result|);
      gaps, hunks := [gap] + gaps, [h] + hunks;
    }
  }

  /** Conversely, a truthful patch is accepted and rebuilds the file it describes. */
  lemma {:induction false} TruthfulAccepted(
      source: seq<string>, lines: seq<PatchLine>, result: seq<string>, end: nat, gaps: seq<seq<string>>,
      hunks: seq<Hunk>)
    requires end <= |source| && ParseHunks(lines) == Some(hunks) && |gaps| == |hunks| + 1
    requires source[end..] == WeaveOld(gaps, hunks)
    requires Placed(gaps, hunks, end, |result|)
    ensures ApplyHunks(source, lines, result, end) == Some(result + WeaveNew(gaps, hunks))
    decreases |lines|
  {
    if lines != [] {
      ApplyNext(source, lines, result, end);
      var r := lines[0].range;
      var (body, rest) := ReadBody(EMPTY_BODY, lines[1..]).value;
      ReadBodyShortens(EMPTY_BODY, lines[1..]);
      var h, others := hunks[0], hunks[1..];
      assert ParseHunks(rest) == Some(others) && h == Hunk(r, body.before, body.after);
      PlacedFirst(gaps, hunks, end, |result|);
      var tail := WeaveOld(gaps[1..], others);
      var i := OldIndex(r);
      assert source[end..] == gaps[0] + body.before + tail;
      SliceParts(source, end, gaps[0], body.before, tail);
      TruthfulAccepted(source, rest, result + gaps[0] + body.after, i + r.oldCount, gaps[1..], others);
      Regroup(result, gaps[0], body.after, WeaveNew(gaps[1..], others));
    }
  }

  lemma SliceParts(s: seq<string>, end: nat, a: seq<string>, b: seq<string>, c: seq<string>)
    requires end <= |s| && s[end..] == a + b + c
    ensures end + |a| + |b| <= |s|
    ensures s[end..end + |a|] == a && s[end + |a|..end + |a| + |b|] == b && s[end + |a| + |b|..] == c
  {
    var t := s[end..];
    assert t[..|a|] == a && t[|a|..|a| + |b|] == b && t[|a| + |b|..] == c;
    assert s[end..end + |a|] == t[..|a|];
    assert s[end + |a|..end + |a| + |b|] == t[|a|..|a| + |b|];
    assert s[end + |a| + |b|..] == t[|a| + |b|..];
  }

  lemma RebuildSplits(source: seq<string>, lines: seq<PatchLine>, result: seq<string>)
    ensures Rebuild(source, lines) == Some(result) <==>
              ParseHunks(lines).Some? && exists gaps :: Explains(gaps, ParseHunks(lines).value, source, result)
  {
    assert source[0..] == source;
    if Rebuild(source, lines) == Some(result) {
      var gaps, hunks := AcceptedSplits(source, lines, [], 0);
      assert result == [] + WeaveNew(gaps, hunks) == WeaveNew(gaps, hunks);
      assert Explains(gaps, hunks, source, result);
    }
    if ParseHunks(lines).Some? {
      var hunks := ParseHunks(lines).value;
      forall gaps | Explains(gaps, hunks, source, result) ensures Rebuild(source, lines) == Some(result) {
        TruthfulAccepted(source, lines, [], 0, gaps, hunks);
        assert [] + WeaveNew(gaps, hunks) == result;
      }
    }
  }

  /** The rebuilt file, characterised. A patch is accepted with result `result` exactly when its lines are
      readable and its hunks with some gaps make up the source at the old positions and the result at the new
      ones. */
  lemma RebuildMeans(source: seq<string>, lines: seq<PatchLine>, result: seq<string>)
    ensures Rebuild(source, lines) == Some(result) <==>
              Readable(lines) && exists gaps :: Explains(gaps, Hunks(lines), source, result)
  {
    ParseMeans(lines);
    RebuildSplits(source, lines, result);
  }

  lemma Rebuilds(source: seq<string>, lines: seq<PatchLine>, gaps: seq<seq<string>>, result: seq<string>)
    requires Readable(lines) && Explains(gaps, Hunks(lines), source, result)
    ensures Rebuild(source, lines) == Some(result)
  {
    ParseMeans(lines);
    assert source[0..] == source;
    TruthfulAccepted(source, lines, [], 0, gaps, Hunks(lines));
    assert [] + WeaveNew(gaps, Hunks(lines)) == result;
  }

  /** The verdict, characterised: known kind, matching file headers, and a readable patch that explains a result,
      which is empty for a deletion. */
  lemma ProvesMeans(kind: Kind, headersMatch: bool, source: seq<string>, lines: seq<PatchLine>)
    ensures Proves(kind, headersMatch, source, lines) <==>
              && headersMatch && (kind == Add || kind == Delete || kind == Update)
              && Readable(lines)
              && exists gaps, result ::
                   Explains(gaps, Hunks(lines), source, result) && (kind == Delete ==> result == [])
  {
    if Proves(kind, headersMatch, source, lines) {
      RebuildMeans(source, lines, Rebuild(source, lines).value);
    }
    if Readable(lines) {
      forall gaps, result | Explains(gaps, Hunks(lines), source, result)
        ensures Rebuild(source, lines) == Some(result)
      {
        Rebuilds(source, lines, gaps, result);
      }
    }
  }

  /** No line of an accepted patch text is foreign: each is a header that parses, a marker, or a line of the
      file with its sign, the empty line standing for an empty context line. */
  lemma {:induction false} NothingForeign(parse: string -> Option<Range>, kind: Kind, headersMatch: bool,
                                          current: string, texts: seq<string>, i: nat)
    requires Proves(kind, headersMatch, LfLines(current), Tokens(parse, texts)) && i < |texts|
    ensures var line := texts[i];
            if StartsHeader(line) then parse(line).Some?
            else line == "" || line[0] in " +-" || (line == "\\ No newline at end of file" && i > 0)
  {
    var lines := Tokens(parse, texts);
    ProvesMeans(kind, headersMatch, LfLines(current), lines);
    TokenAt(parse, texts, i);
    ClassifyMeans(parse, texts[i], lines[i]);
    var l := lines[i];
    assert !l.Junk? && !l.BadHeader?;
    assert " +-"[0] == ' ' && " +-"[1] == '+' && " +-"[2] == '-';
  }

  lemma {:induction false} TokenAt(parse: string -> Option<Range>, texts: seq<string>, i: nat)
    requires i < |texts|
    ensures Tokens(parse, texts)[i] == Classify(parse, texts[i])
  {
    if i > 0 { TokenAt(parse, texts[1..], i - 1); }
  }

  // ---- Reversal --------------------------------------------------------------------------------------

  function SwapRange(r: Range): Range {
    Range(r.newStart, r.newCount, r.oldStart, r.oldCount)
  }

  function SwapLine(l: PatchLine): PatchLine {
    match l
    case Header(r) => Header(SwapRange(r))
    case Added(t) => Removed(t)
    case Removed(t) => Added(t)
    case _ => l
  }

  /** The patch with + and - exchanged, and both coordinates. */
  function Swap(lines: seq<PatchLine>): (r: seq<PatchLine>)
    ensures |r| == |lines|
  {
    if lines == [] then [] else [SwapLine(lines[0])] + Swap(lines[1..])
  }

  function SwapMark(m: Mark): Mark {
    match m
    case AddedMark => RemovedMark
    case RemovedMark => AddedMark
    case _ => m
  }

  function SwapBody(b: Body): Body {
    Body(b.after, b.before, SwapMark(b.previous))
  }

  function SwapHunks(hunks: seq<Hunk>): (r: seq<Hunk>)
    ensures |r| == |hunks|
  {
    if hunks == [] then []
    else [Hunk(SwapRange(hunks[0].range), hunks[0].after, hunks[0].before)] + SwapHunks(hunks[1..])
  }

  lemma {:induction false} SwapBodyReads(b: Body, lines: seq<PatchLine>)
    ensures ReadBody(b, lines).Some? <==> ReadBody(SwapBody(b), Swap(lines)).Some?
    ensures ReadBody(b, lines).Some? ==>
      var (body, rest) := ReadBody(b, lines).value;
      ReadBody(SwapBody(b), Swap(lines)) == Some((SwapBody(body), Swap(rest)))
    decreases lines
  {
    if lines != [] && !EndsHunk(lines[0]) && ReadLine(b, lines[0]).Some? {
      SwapBodyReads(ReadLine(b, lines[0]).value, lines[1..]);
    }
  }

  lemma {:induction false} SwapParses(lines: seq<PatchLine>)
    requires ParseHunks(lines).Some?
    ensures ParseHunks(Swap(lines)) == Some(SwapHunks(ParseHunks(lines).value))
    decreases |lines|
  {
    if lines != [] {
      SwapBodyReads(EMPTY_BODY, lines[1..]);
      var (body, rest) := ReadBody(EMPTY_BODY, lines[1..]).value;
      ReadBodyShortens(EMPTY_BODY, lines[1..]);
      SwapParses(rest);
      assert Swap(lines)[1..] == Swap(lines[1..]);
      var hunks := ParseHunks(lines).value;
      assert hunks[1..] == ParseHunks(rest).value;
    }
  }

  lemma {:induction false} SwapWeaves(gaps: seq<seq<string>>, hunks: seq<Hunk>, oldPos: nat, newPos: nat)
    requires |gaps| == |hunks| + 1
    ensures WeaveOld(gaps, SwapHunks(hunks)) == WeaveNew(gaps, hunks)
    ensures WeaveNew(gaps, SwapHunks(hunks)) == WeaveOld(gaps, hunks)
    ensures Placed(gaps, hunks, oldPos, newPos) ==> Placed(gaps, SwapHunks(hunks), newPos, oldPos)
    decreases hunks
  {
    if hunks != [] {
      SwapWeaves(gaps[1..], hunks[1..], oldPos + |gaps[0]| + |hunks[0].before|, newPos + |gaps[0]| + |hunks[0].after|);
      assert SwapHunks(hunks)[1..] == SwapHunks(hunks[1..]);
    }
  }

  /** Reversibility: the swapped patch is accepted against the rebuilt lines and rebuilds the original. */
  lemma PatchReverses(source: seq<string>, lines: seq<PatchLine>, result: seq<string>)
    requires Rebuild(source, lines) == Some(result)
    ensures Rebuild(result, Swap(lines)) == Some(source)
    ensures Proves(Update, true, source, lines) && Proves(Update, true, result, Swap(lines))
  {
    RebuildSplits(source, lines, result);
    var hunks := ParseHunks(lines).value;
    var gaps :| Explains(gaps, hunks, source, result);
    SwapParses(lines);
    SwapWeaves(gaps, hunks, 0, 0);
    assert Explains(gaps, SwapHunks(hunks), result, source);
    RebuildSplits(result, Swap(lines), source);
  }

  /** On texts: when the rebuilt lines form a text, the swapped patch proves the way back from it. */
  lemma PatchReversesText(current: string, lines: seq<PatchLine>, result: seq<string>)
    requires Rebuild(LfLines(current), lines) == Some(result) && Canonical(result)
    ensures Rebuild(LfLines(Concat(result)), Swap(lines)) == Some(LfLines(current))
    ensures Concat(LfLines(current)) == current
  {
    PatchReverses(LfLines(current), lines, result);
    LinesOfConcat(result);
    LfLinesOfText(current);
  }

  // ---- Printing --------------------------------------------------------------------------------------

  predicate Terminated(line: string) {
    line != "" && line[|line| - 1] == NEWLINE
  }

  /** One line of an edit: kept, taken out or put in. */
  datatype Piece = Kept(line: string) | TakenOut(line: string) | PutIn(line: string)

  /** Any mix of context, removals and additions. */
  type Edit = seq<Piece>

  function OldSide(e: Edit): seq<string> {
    if e == [] then [] else (if e[0].PutIn? then [] else [e[0].line]) + OldSide(e[1..])
  }

  function NewSide(e: Edit): seq<string> {
    if e == [] then [] else (if e[0].TakenOut? then [] else [e[0].line]) + NewSide(e[1..])
  }

  function PieceLine(p: Piece, text: string): PatchLine {
    match p
    case Kept(_) => Context(text)
    case TakenOut(_) => Removed(text)
    case PutIn(_) => Added(text)
  }

  function PrintPiece(p: Piece): seq<PatchLine> {
    if Terminated(p.line) then [PieceLine(p, p.line[..|p.line| - 1])] else [PieceLine(p, p.line), NoNewline]
  }

  function PrintEdit(e: Edit): seq<PatchLine> {
    if e == [] then [] else PrintPiece(e[0]) + PrintEdit(e[1..])
  }

  function PrintHunks(ranges: seq<Range>, edits: seq<Edit>): seq<PatchLine>
    requires |ranges| == |edits|
  {
    if edits == [] then [] else [Header(ranges[0])] + PrintEdit(edits[0]) + PrintHunks(ranges[1..], edits[1..])
  }

  /** The coordinates that the gaps around the edits give them. */
  function RangesOf(gaps: seq<seq<string>>, edits: seq<Edit>, oldPos: nat, newPos: nat): (ranges: seq<Range>)
    requires |gaps| == |edits| + 1
    ensures |ranges| == |edits|
    decreases edits
  {
    if edits == [] then []
    else
      var before, after := |OldSide(edits[0])|, |NewSide(edits[0])|;
      var i, j := oldPos + |gaps[0]|, newPos + |gaps[0]|;
      [Range(StartOf(i, before), before, StartOf(j, after), after)]
      + RangesOf(gaps[1..], edits[1..], i + before, j + after)
  }

  function HunksOf(ranges: seq<Range>, edits: seq<Edit>): (hunks: seq<Hunk>)
    requires |ranges| == |edits|
    ensures |hunks| == |edits|
  {
    if edits == [] then []
    else [Hunk(ranges[0], OldSide(edits[0]), NewSide(edits[0]))] + HunksOf(ranges[1..], edits[1..])
  }

  function Sides(b: Body, p: Piece, m: Mark): Body {
    Body(if p.PutIn? then b.before else b.before + [p.line], if p.TakenOut? then b.after else b.after + [p.line], m)
  }

  /** A line without its end, and the marker that says so. */
  lemma PieceWithoutEnd(b: Body, p: Piece)
    requires !Terminated(p.line)
    ensures var read := ReadLine(b, PieceLine(p, p.line));
            read.Some? && ReadLine(read.value, NoNewline) == Some(Sides(b, p, NoMark))
  {
    StripLastText(b.before, p.line);
    StripLastText(b.after, p.line);
  }

  lemma PieceWithEnd(b: Body, p: Piece) returns (m: Mark)
    requires Terminated(p.line)
    ensures ReadLine(b, PieceLine(p, p.line[..|p.line| - 1])) == Some(Sides(b, p, m))
  {
    assert p.line[..|p.line| - 1] + [NEWLINE] == p.line;
    m := ReadLine(b, PieceLine(p, p.line[..|p.line| - 1])).value.previous;
  }

  lemma ReadOneLine(b: Body, l: PatchLine, tail: seq<PatchLine>)
    requires !EndsHunk(l) && ReadLine(b, l).Some?
    ensures ReadBody(b, [l] + tail) == ReadBody(ReadLine(b, l).value, tail)
  {
    ReadBodyNext(b, [l] + tail);
    assert ([l] + tail)[1..] == tail;
  }

  lemma {:induction false} ReadPiece(b: Body, p: Piece, tail: seq<PatchLine>) returns (m: Mark)
    ensures ReadBody(b, PrintPiece(p) + tail) == ReadBody(Sides(b, p, m), tail)
  {
    if Terminated(p.line) {
      m := PieceWithEnd(b, p);
      ReadOneLine(b, PieceLine(p, p.line[..|p.line| - 1]), tail);
    } else {
      m := NoMark;
      var l := PieceLine(p, p.line);
      PieceWithoutEnd(b, p);
      Associate([l], [NoNewline], tail);
      assert [l] + [NoNewline] == [l, NoNewline];
      ReadOneLine(b, l, [NoNewline] + tail);
      ReadOneLine(ReadLine(b, l).value, NoNewline, tail);
    }
  }

  /** Reading a printed edit gives its two sides and stops at what follows. */
  lemma {:induction false} ReadEdit(b: Body, e: Edit, rest: seq<PatchLine>) returns (m: Mark)
    ensures ReadBody(b, PrintEdit(e) + rest) == ReadBody(Body(b.before + OldSide(e), b.after + NewSide(e), m), rest)
    decreases e
  {
    if e == [] {
      m := b.previous;
      assert PrintEdit(e) + rest == rest && b.before + [] == b.before && b.after + [] == b.after;
    } else {
      var tail := PrintEdit(e[1..]) + rest;
      Associate(PrintPiece(e[0]), PrintEdit(e[1..]), rest);
      var n := ReadPiece(b, e[0], tail);
      var old1, new1 := if e[0].PutIn? then [] else [e[0].line], if e[0].TakenOut? then [] else [e[0].line];
      assert b.before + [] == b.before && b.after + [] == b.after;
      m := ReadEdit(Body(b.before + old1, b.after + new1, n), e[1..], rest);
      Associate(b.before, old1, OldSide(e[1..]));
      Associate(b.after, new1, NewSide(e[1..]));
    }
  }

  /** Printed hunks are read back. */
  lemma {:induction false} ParsePrinted(ranges: seq<Range>, edits: seq<Edit>)
    requires |ranges| == |edits|
    ensures ParseHunks(PrintHunks(ranges, edits)) == Some(HunksOf(ranges, edits))
    decreases edits
  {
    if edits != [] {
      var rest := PrintHunks(ranges[1..], edits[1..]);
      var body := PrintEdit(edits[0]) + rest;
      Associate([Header(ranges[0])], PrintEdit(edits[0]), rest);
      assert ([Header(ranges[0])] + body)[1..] == body;
      var m := ReadEdit(EMPTY_BODY, edits[0], rest);
      var whole := Body(OldSide(edits[0]), NewSide(edits[0]), m);
      assert [] + OldSide(edits[0]) == OldSide(edits[0]) && [] + NewSide(edits[0]) == NewSide(edits[0]);
      assert ReadBody(whole, rest) == Some((whole, rest));
      ParsePrinted(ranges[1..], edits[1..]);
    }
  }

  predicate Printable(e: Edit) {
    |OldSide(e)| <= MAX_CONTROLLER_BYTES && |NewSide(e)| <= MAX_CONTROLLER_BYTES
  }

  lemma {:induction false} EditsPlaced(gaps: seq<seq<string>>, edits: seq<Edit>, oldPos: nat, newPos: nat)
    requires |gaps| == |edits| + 1 && forall e | e in edits :: Printable(e)
    ensures Placed(gaps, HunksOf(RangesOf(gaps, edits, oldPos, newPos), edits), oldPos, newPos)
    decreases edits
  {
    if edits != [] {
      var ranges := RangesOf(gaps, edits, oldPos, newPos);
      var before, after := |OldSide(edits[0])|, |NewSide(edits[0])|;
      assert edits[0] in edits;
      var i, j := oldPos + |gaps[0]|, newPos + |gaps[0]|;
      EditsPlaced(gaps[1..], edits[1..], i + before, j + after);
      assert ranges[1..] == RangesOf(gaps[1..], edits[1..], i + before, j + after);
      assert HunksOf(ranges, edits)[1..] == HunksOf(ranges[1..], edits[1..]);
    }
  }

  /** Completeness: any list of edits between gaps - each any mix of context, removed and added lines, with
      or without a final newline - printed as hunks, is accepted and rebuilds the file with every edit
      made. */
  lemma PrintedEditsAccepted(gaps: seq<seq<string>>, edits: seq<Edit>)
    requires |gaps| == |edits| + 1 && edits != [] && forall e | e in edits :: Printable(e)
    ensures var ranges := RangesOf(gaps, edits, 0, 0);
            var hunks := HunksOf(ranges, edits);
            Rebuild(WeaveOld(gaps, hunks), PrintHunks(ranges, edits)) == Some(WeaveNew(gaps, hunks))
  {
    var ranges := RangesOf(gaps, edits, 0, 0);
    var hunks := HunksOf(ranges, edits);
    ParsePrinted(ranges, edits);
    EditsPlaced(gaps, edits, 0, 0);
    assert Explains(gaps, hunks, WeaveOld(gaps, hunks), WeaveNew(gaps, hunks));
    RebuildSplits(WeaveOld(gaps, hunks), PrintHunks(ranges, edits), WeaveNew(gaps, hunks));
  }

  function Render(render: Range -> string, l: PatchLine): string {
    match l
    case Header(r) => render(r)
    case Context(t) => " " + t
    case Added(t) => "+" + t
    case Removed(t) => "-" + t
    case NoNewline => NO_NEWLINE_TEXT
    case _ => "?"
  }

  function RenderAll(render: Range -> string, lines: seq<PatchLine>): seq<string> {
    if lines == [] then [] else [Render(render, lines[0])] + RenderAll(render, lines[1..])
  }

  /** The header text of this range is read back as the range. */
  predicate HeaderReads(parse: string -> Option<Range>, render: Range -> string, r: Range) {
    |render(r)| >= 2 && render(r)[..2] == "@@" && parse(render(r)) == Some(r)
  }

  /** Printed patch text is read back as the lines that were printed. */
  lemma {:induction false} RenderedTextReads(
      parse: string -> Option<Range>, render: Range -> string, lines: seq<PatchLine>)
    requires forall l | l in lines ::
      !l.BadHeader? && !l.Junk? && (l.Header? ==> HeaderReads(parse, render, l.range))
    ensures Tokens(parse, RenderAll(render, lines)) == lines
  {
    if lines != [] {
      RenderedLineReads(parse, render, lines[0]);
      RenderedTextReads(parse, render, lines[1..]);
      assert lines == [lines[0]] + lines[1..];
    }
  }

  lemma RenderedLineReads(parse: string -> Option<Range>, render: Range -> string, l: PatchLine)
    requires !l.BadHeader? && !l.Junk? && (l.Header? ==> HeaderReads(parse, render, l.range))
    ensures Classify(parse, Render(render, l)) == l
  {
    match l
    case Header(r) => assert |render(r)| >= 2;
    case Context(t) => assert (" " + t)[0] == ' ' && (" " + t)[1..] == t;
    case Added(t) => assert ("+" + t)[0] == '+' && ("+" + t)[1..] == t;
    case Removed(t) => assert ("-" + t)[0] == '-' && ("-" + t)[1..] == t;
    case NoNewline => assert NO_NEWLINE_TEXT[0] == '\\';
  }
}
