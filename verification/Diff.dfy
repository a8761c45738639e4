/** Proof that a unified diff describes one exact change of one file. */
module Diff {
  import opened Basics
  import opened Text

  const MAX_CONTROLLER_BYTES := 2 * 1024 * 1024

  // ---- Lines of a text -------------------------------------------------------------------------------

  const NEWLINE: char := '\n'

  function WithNewlines(parts: seq<string>): (lines: seq<string>)
    ensures |lines| == |parts|
  {
    if parts == [] then [] else [parts[0] + [NEWLINE]] + WithNewlines(parts[1..])
  }

  /** The lines of a text, each with its newline; a final unterminated line stays without one. */
  function LfLines(text: string): seq<string> {
    var parts := Split(text, NEWLINE);
    WithNewlines(parts[..|parts| - 1]) + (if parts[|parts| - 1] != "" then [parts[|parts| - 1]] else [])
  }

  function Concat(lines: seq<string>): string {
    if lines == [] then "" else lines[0] + Concat(lines[1..])
  }

  /** A line list as a text has it: no empty line, newlines only at ends, missing only at the very end. */
  predicate Canonical(lines: seq<string>) {
    forall i | 0 <= i < |lines| ::
      && lines[i] != ""
      && NEWLINE !in lines[i][..|lines[i]| - 1]
      && (i < |lines| - 1 ==> lines[i][|lines[i]| - 1] == NEWLINE)
  }

  lemma {:induction false} LfLinesUnfold(first: string, rest: string)
    requires NEWLINE !in first
    ensures LfLines(first + [NEWLINE] + rest) == [first + [NEWLINE]] + LfLines(rest)
    ensures LfLines(first) == if first == "" then [] else [first]
  {
    SplitFirst(first, rest, NEWLINE);
    SplitPlain(first, NEWLINE);
    var parts := Split(rest, NEWLINE);
    var whole := [first] + parts;
    assert whole[..|whole| - 1] == [first] + parts[..|parts| - 1];
    assert whole[|whole| - 1] == parts[|parts| - 1];
    assert ([first] + parts[..|parts| - 1])[1..] == parts[..|parts| - 1];
    assert [first][..0] == [];
  }

  /** Cuts a text at its first newline. */
  lemma {:induction false} FirstNewline(text: string) returns (first: string, rest: string)
    requires NEWLINE in text
    ensures text == first + [NEWLINE] + rest && NEWLINE !in first
  {
    if text[0] == NEWLINE {
      first, rest := "", text[1..];
      assert text == "" + [NEWLINE] + text[1..];
    } else {
      assert text == [text[0]] + text[1..];
      first, rest := FirstNewline(text[1..]);
      first := [text[0]] + first;
      assert text == first + [NEWLINE] + rest;
    }
  }

  /** The lines of a text are canonical and concatenate back to it. */
  lemma {:induction false} LfLinesOfText(text: string)
    ensures Canonical(LfLines(text)) && Concat(LfLines(text)) == text
    decreases |text|
  {
    if NEWLINE in text {
      var first, rest := FirstNewline(text);
      LfLinesUnfold(first, rest);
      LfLinesOfText(rest);
      var lines := LfLines(text);
      assert lines[1..] == LfLines(rest);
      forall i | 0 <= i < |lines|
        ensures lines[i] != "" && NEWLINE !in lines[i][..|lines[i]| - 1]
        ensures i < |lines| - 1 ==> lines[i][|lines[i]| - 1] == NEWLINE
      {
        if i == 0 { assert lines[0][..|lines[0]| - 1] == first; } else { assert lines[i] == LfLines(rest)[i - 1]; }
      }
    } else {
      LfLinesUnfold(text, "");
      if text != "" { assert [text][1..] == []; assert text + "" == text; }
    }
  }

  lemma CanonicalTail(lines: seq<string>)
    requires Canonical(lines) && lines != []
    ensures Canonical(lines[1..])
  {
    var rest := lines[1..];
    forall i | 0 <= i < |rest|
      ensures rest[i] != "" && NEWLINE !in rest[i][..|rest[i]| - 1]
      ensures i < |rest| - 1 ==> rest[i][|rest[i]| - 1] == NEWLINE
    {
      assert rest[i] == lines[i + 1];
    }
  }

  /** And a canonical line list is the list of lines of its concatenation. */
  lemma {:induction false} LinesOfConcat(lines: seq<string>)
    requires Canonical(lines)
    ensures LfLines(Concat(lines)) == lines
  {
    if lines == [] {
      LfLinesUnfold("", "");
    } else {
      var line, rest := lines[0], lines[1..];
      var first, last := line[..|line| - 1], line[|line| - 1];
      assert line == first + [last];
      assert lines == [line] + rest;
      if last == NEWLINE {
        CanonicalTail(lines);
        LinesOfConcat(rest);
        LfLinesUnfold(first, Concat(rest));
      } else {
        assert rest == [];
        assert line + "" == line;
        LfLinesUnfold(line, "");
      }
    }
  }

  // ---- Patch lines -----------------------------------------------------------------------------------

  /** The four numbers of a hunk header. */
  datatype Range = Range(oldStart: nat, oldCount: nat, newStart: nat, newCount: nat)

  datatype PatchLine =
    | Header(range: Range)
    | BadHeader
    | Context(text: string)
    | Added(text: string)
    | Removed(text: string)
    | NoNewline
    | Junk

  const NO_NEWLINE_TEXT := "\\ No newline at end of file"

  /** How the prover reads one line of patch text. Matching a header is left to `parse`. */
  function Classify(parse: string -> Option<Range>, line: string): PatchLine {
    if |line| >= 2 && line[..2] == "@@" then
      var range := parse(line); if range.Some? then Header(range.value) else BadHeader
    else if line == NO_NEWLINE_TEXT then NoNewline
    else if line == "" then Context("")
    else if line[0] == ' ' then Context(line[1..])
    else if line[0] == '+' then Added(line[1..])
    else if line[0] == '-' then Removed(line[1..])
    else Junk
  }

  predicate EndsHunk(l: PatchLine) {
    l.Header? || l.BadHeader?
  }

  datatype Mark = NoMark | ContextMark | AddedMark | RemovedMark

  /** The hunk being read: its two sides, and the line a no-newline marker would refer to. */
  datatype Body = Body(before: seq<string>, after: seq<string>, previous: Mark)

  function RemoveNewline(line: string): string {
    if line != "" && line[|line| - 1] == NEWLINE then line[..|line| - 1] else line
  }

  function StripLast(lines: seq<string>): seq<string> {
    if lines == [] then [] else lines[..|lines| - 1] + [RemoveNewline(lines[|lines| - 1])]
  }

  function ReadLine(b: Body, l: PatchLine): Option<Body> {
    match l
    case Context(t) => Some(Body(b.before + [t + [NEWLINE]], b.after + [t + [NEWLINE]], ContextMark))
    case Added(t) => Some(Body(b.before, b.after + [t + [NEWLINE]], AddedMark))
    case Removed(t) => Some(Body(b.before + [t + [NEWLINE]], b.after, RemovedMark))
    case NoNewline =>
      if b.previous.NoMark? then None
      else Some(Body(if b.previous.AddedMark? then b.before else StripLast(b.before),
                     if b.previous.RemovedMark? then b.after else StripLast(b.after), NoMark))
    case _ => None
  }

  /** Reads up to the next header. */
  function ReadBody(b: Body, lines: seq<PatchLine>): Option<(Body, seq<PatchLine>)>
    decreases lines
  {
    if lines == [] || EndsHunk(lines[0]) then Some((b, lines))
    else
      var next := ReadLine(b, lines[0]);
      if next.None? then None else ReadBody(next.value, lines[1..])
  }

  lemma {:induction false} ReadBodyShortens(b: Body, lines: seq<PatchLine>)
    requires ReadBody(b, lines).Some?
    ensures |ReadBody(b, lines).value.1| <= |lines|
    ensures |ReadBody(b, lines).value.0.before| >= |b.before|
    ensures |ReadBody(b, lines).value.0.after| >= |b.after|
    decreases lines
  {
    if lines != [] && !EndsHunk(lines[0]) { ReadBodyShortens(ReadLine(b, lines[0]).value, lines[1..]); }
  }

  /** One hunk: the lines it removes or keeps, and the lines it adds or keeps. */
  datatype Hunk = Hunk(range: Range, before: seq<string>, after: seq<string>)

  /** Index of the first line a side touches; a side without lines names the line before it. */
  function StartIndex(start: nat, count: nat): int {
    if count == 0 then start else start - 1
  }

  function OldIndex(r: Range): int { StartIndex(r.oldStart, r.oldCount) }

  function NewIndex(r: Range): int { StartIndex(r.newStart, r.newCount) }

  /** Checks on a header, where `end` old lines and `built` new lines lie behind. */
  predicate RangeFits(r: Range, end: nat, built: nat, total: nat) {
    && OldIndex(r) >= 0 && NewIndex(r) >= 0
    && OldIndex(r) >= end
    && OldIndex(r) + r.oldCount <= total
    && r.oldCount <= MAX_CONTROLLER_BYTES && r.newCount <= MAX_CONTROLLER_BYTES
    && NewIndex(r) == built + OldIndex(r) - end
  }

  const EMPTY_BODY := Body([], [], NoMark)

  /** The rest of the patch, applied after `result` was rebuilt from the first `end` source lines. */
  function ApplyHunks(source: seq<string>, lines: seq<PatchLine>, result: seq<string>, end: nat): Option<seq<string>>
    requires end <= |source|
    decreases |lines|
  {
    if lines == [] then Some(result + source[end..])
    else if !lines[0].Header? then None
    else
      var r := lines[0].range;
      if !RangeFits(r, end, |result|, |source|) then None
      else
        var read := ReadBody(EMPTY_BODY, lines[1..]);
        if read.None? then None
        else
          var (body, rest) := read.value;
          ReadBodyShortens(EMPTY_BODY, lines[1..]);
          var i := OldIndex(r);
          if |body.before| != r.oldCount || |body.after| != r.newCount || body.before != source[i..i + r.oldCount]
          then None
          else ApplyHunks(source, rest, result + source[end..i] + body.after, i + r.oldCount)
  }

  datatype Kind = Add | Delete | Update | OtherKind

  /** The whole verdict over the lines after the file headers, with the rebuilt file. */
  function Rebuild(source: seq<string>, lines: seq<PatchLine>): Option<seq<string>> {
    if lines == [] then None else ApplyHunks(source, lines, [], 0)
  }

  predicate Proves(kind: Kind, headersMatch: bool, source: seq<string>, lines: seq<PatchLine>) {
    && headersMatch && !kind.OtherKind?
    && Rebuild(source, lines).Some?
    && (kind.Delete? ==> Rebuild(source, lines).value == [])
  }

  /** The lines of a patch as the prover reads them. */
  function Tokens(parse: string -> Option<Range>, lines: seq<string>): (r: seq<PatchLine>)
    ensures |r| == |lines|
  {
    if lines == [] then [] else [Classify(parse, lines[0])] + Tokens(parse, lines[1..])
  }

  /** Reading on from a side that is already too long never gets back to the declared counts. */
  lemma TooLong(b: Body, lines: seq<PatchLine>, r: Range)
    requires |b.before| > r.oldCount || |b.after| > r.newCount
    ensures ReadBody(b, lines).Some? ==>
      |ReadBody(b, lines).value.0.before| != r.oldCount || |ReadBody(b, lines).value.0.after| != r.newCount
  {
    if ReadBody(b, lines).Some? { ReadBodyShortens(b, lines); }
  }

  lemma ReadBodyNext(b: Body, lines: seq<PatchLine>)
    requires lines != [] && !EndsHunk(lines[0])
    ensures ReadLine(b, lines[0]).None? ==> ReadBody(b, lines).None?
    ensures ReadLine(b, lines[0]).Some? ==> ReadBody(b, lines) == ReadBody(ReadLine(b, lines[0]).value, lines[1..])
  {
  }

  /** One body line, put on the sides it belongs to. */
  method ReadOne(line: PatchLine, b: Body) returns (ok: bool, next: Body)
    requires b.previous.ContextMark? || b.previous.RemovedMark? ==> b.before != []
    requires b.previous.ContextMark? || b.previous.AddedMark? ==> b.after != []
    ensures ok == ReadLine(b, line).Some?
    ensures ok ==> next == ReadLine(b, line).value
    ensures next.previous.ContextMark? || next.previous.RemovedMark? ==> next.before != []
    ensures next.previous.ContextMark? || next.previous.AddedMark? ==> next.after != []
  {
    var before, after, previous := b.before, b.after, b.previous;
    next := b;
    if line.NoNewline? {
      if previous.NoMark? { ok := false; return; }
      if !previous.AddedMark? { before := before[..|before| - 1] + [RemoveNewline(before[|before| - 1])]; }
      if !previous.RemovedMark? { after := after[..|after| - 1] + [RemoveNewline(after[|after| - 1])]; }
      previous := NoMark;
    } else if line.Context? || line.Added? || line.Removed? {
      previous := if line.Context? then ContextMark else if line.Added? then AddedMark else RemovedMark;
      var payload := line.text + [NEWLINE];
      if !previous.AddedMark? { before := before + [payload]; }
      if !previous.RemovedMark? { after := after + [payload]; }
    } else {
      ok := false;
      return;
    }
    ok, next := true, Body(before, after, previous);
  }

  /** A hunk body as a header of range `r` wants it. */
  predicate Fits(read: Option<(Body, seq<PatchLine>)>, r: Range) {
    read.Some? && |read.value.0.before| == r.oldCount && |read.value.0.after| == r.newCount
  }

  /** Reads the body of one hunk, from the line after its header. */
  method ReadHunk(lines: seq<PatchLine>, start: nat, r: Range) returns (ok: bool, index: nat, body: Body)
    requires start <= |lines|
    ensures start <= index <= |lines|
    ensures ok == Fits(ReadBody(EMPTY_BODY, lines[start..]), r)
    ensures ok ==> ReadBody(EMPTY_BODY, lines[start..]) == Some((body, lines[index..]))
  {
    body, index := EMPTY_BODY, start;
    while index < |lines| && !EndsHunk(lines[index])
      invariant start <= index <= |lines|
      invariant ReadBody(EMPTY_BODY, lines[start..]) == ReadBody(body, lines[index..])
      invariant body.previous.ContextMark? || body.previous.RemovedMark? ==> body.before != []
      invariant body.previous.ContextMark? || body.previous.AddedMark? ==> body.after != []
    {
      assert lines[index..][0] == lines[index] && lines[index..][1..] == lines[index + 1..];
      ReadBodyNext(body, lines[index..]);
      ok, body := ReadOne(lines[index], body);
      if !ok { return; }
      index := index + 1;
      if |body.before| > r.oldCount || |body.after| > r.newCount {
        TooLong(body, lines[index..], r);
        ok := false;
        return;
      }
    }
    ok := |body.before| == r.oldCount && |body.after| == r.newCount;
  }

  /** One accepted hunk further; a hunk that does not fit refuses the patch. */
  lemma ApplyNext(source: seq<string>, lines: seq<PatchLine>, result: seq<string>, end: nat)
    requires end <= |source| && lines != [] && lines[0].Header?
    ensures var r := lines[0].range;
            var read := ReadBody(EMPTY_BODY, lines[1..]);
            if !RangeFits(r, end, |result|, |source|) || !Fits(read, r)
               || read.value.0.before != source[OldIndex(r)..OldIndex(r) + r.oldCount]
            then ApplyHunks(source, lines, result, end).None?
            else ApplyHunks(source, lines, result, end) ==
                 ApplyHunks(source, read.value.1, result + source[end..OldIndex(r)] + read.value.0.after,
                            OldIndex(r) + r.oldCount)
  {
  }

  /** One hunk: its header, its position, its body against the file. */
  method TakeHunk(source: seq<string>, lines: seq<PatchLine>, index: nat, result: seq<string>, sourceEnd: nat)
    returns (ok: bool, next: nat, longer: seq<string>, end: nat)
    requires index < |lines| && sourceEnd <= |source|
    ensures ok ==> index < next <= |lines| && end <= |source|
    ensures ok ==>
              ApplyHunks(source, lines[index..], result, sourceEnd) == ApplyHunks(source, lines[next..], longer, end)
    ensures !ok ==> ApplyHunks(source, lines[index..], result, sourceEnd).None?
  {
    ok, next, longer, end := false, index, result, sourceEnd;
    ghost var rest := lines[index..];
    assert rest[0] == lines[index] && rest[1..] == lines[index + 1..];
    if !lines[index].Header? { return; }
    ApplyNext(source, rest, result, sourceEnd);
    var r := lines[index].range;
    var oldIndex := OldIndex(r);
    if !RangeFits(r, sourceEnd, |result|, |source|) { return; }
    var body: Body;
    ok, next, body := ReadHunk(lines, index + 1, r);
    if !ok || body.before != source[oldIndex..oldIndex + r.oldCount] { ok := false; return; }
    longer := result + source[sourceEnd..oldIndex] + body.after;
    end := oldIndex + r.oldCount;
  }

  /** The prover: one pass over the patch lines, building both sides of each hunk and the new file. */
  method GitPatchProvesChange(kind: Kind, headersMatch: bool, lines: seq<PatchLine>, current: string)
    returns (proved: bool)
    ensures proved == Proves(kind, headersMatch, LfLines(current), lines)
  {
    if !headersMatch || kind.OtherKind? { return false; }
    var source := LfLines(current);
    var result: seq<string> := [];
    var sourceEnd, index, hunkCount := 0, 0, 0;
    assert lines[0..] == lines;
    while index < |lines|
      invariant 0 <= index <= |lines| && 0 <= sourceEnd <= |source|
      invariant hunkCount > 0 <==> index > 0
      invariant ApplyHunks(source, lines, [], 0) == ApplyHunks(source, lines[index..], result, sourceEnd)
    {
      var ok: bool;
      ok, index, result, sourceEnd := TakeHunk(source, lines, index, result, sourceEnd);
      if !ok { return false; }
      hunkCount := hunkCount + 1;
    }
    assert lines[index..] == [];
    result := result + source[sourceEnd..];
    return hunkCount > 0 && (!kind.Delete? || result == []);
  }
}
