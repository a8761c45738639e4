/** Splitting a sequence at a separator, and stripping white space. */
module Text {
  import opened Basics

  /** `text.split(sep)`: the parts between separators, of which there is always one more. */
  function Split<T(==)>(text: seq<T>, sep: T): (parts: seq<seq<T>>)
    ensures parts != []
  {
    if text == [] then [[]]
    else
      var rest := Split(text[1..], sep);
      if text[0] == sep then [[]] + rest else [[text[0]] + rest[0]] + rest[1..]
  }

  function Occurrences<T(==)>(text: seq<T>, sep: T): nat {
    if text == [] then 0 else (if text[0] == sep then 1 else 0) + Occurrences(text[1..], sep)
  }

  lemma {:induction false} SplitCount<T>(text: seq<T>, sep: T)
    ensures |Split(text, sep)| == 1 + Occurrences(text, sep)
  {
    if text != [] { SplitCount(text[1..], sep); }
  }

  lemma {:induction false} OccurrencesConcat<T>(a: seq<T>, b: seq<T>, sep: T)
    ensures Occurrences(a + b, sep) == Occurrences(a, sep) + Occurrences(b, sep)
  {
    if a == [] {
      assert a + b == b;
    } else {
      assert (a + b)[1..] == a[1..] + b;
      OccurrencesConcat(a[1..], b, sep);
    }
  }

  lemma {:induction false} NoOccurrence<T>(a: seq<T>, sep: T)
    ensures Occurrences(a, sep) == 0 <==> sep !in a
  {
    if a != [] {
      NoOccurrence(a[1..], sep);
      assert a == [a[0]] + a[1..];
    }
  }

  lemma {:induction false} SplitFirst<T>(a: seq<T>, b: seq<T>, sep: T)
    requires sep !in a
    ensures Split(a + [sep] + b, sep) == [a] + Split(b, sep)
  {
    var whole := a + [sep] + b;
    if a == [] {
      assert whole == [sep] + b && whole[1..] == b;
    } else {
      assert whole[1..] == a[1..] + [sep] + b;
      SplitFirst(a[1..], b, sep);
      assert [a[0]] + a[1..] == a;
    }
  }

  lemma {:induction false} SplitPlain<T>(a: seq<T>, sep: T)
    requires sep !in a
    ensures Split(a, sep) == [a]
  {
    if a != [] {
      SplitPlain(a[1..], sep);
      assert [a[0]] + a[1..] == a;
    }
  }

  /** No part of a split holds the separator. */
  lemma {:induction false} SplitParts<T>(text: seq<T>, sep: T)
    ensures forall i | 0 <= i < |Split(text, sep)| :: sep !in Split(text, sep)[i]
  {
    if text != [] { SplitParts(text[1..], sep); }
  }

  lemma PrependToHead<T>(x: T, parts: seq<seq<T>>, more: seq<seq<T>>)
    requires |parts| > 1
    ensures var n := |parts| - 1;
            var whole := parts[..n] + more;
            [[x] + whole[0]] + whole[1..] == ([[x] + parts[0]] + parts[1..])[..n] + more
  {
    var n := |parts| - 1;
    var whole := parts[..n] + more;
    assert whole[1..] == parts[1..n] + more;
    assert ([[x] + parts[0]] + parts[1..])[..n] == [[x] + parts[0]] + parts[1..n];
  }

  /** Text that arrives later only changes the last part. */
  lemma {:induction false} SplitConcat<T>(a: seq<T>, b: seq<T>, sep: T)
    ensures var p := Split(a, sep);
            Split(a + b, sep) == p[..|p| - 1] + Split(p[|p| - 1] + b, sep)
    decreases a
  {
    if a == [] {
      assert a + b == b && [] + b == b;
    } else {
      assert (a + b)[1..] == a[1..] + b;
      SplitConcat(a[1..], b, sep);
      SplitConcatStep(a, b, sep);
    }
  }

  lemma SplitConcatStep<T>(a: seq<T>, b: seq<T>, sep: T)
    requires a != [] && (a + b)[1..] == a[1..] + b
    requires var p := Split(a[1..], sep);
             Split(a[1..] + b, sep) == p[..|p| - 1] + Split(p[|p| - 1] + b, sep)
    ensures var p := Split(a, sep);
            Split(a + b, sep) == p[..|p| - 1] + Split(p[|p| - 1] + b, sep)
  {
    var rest := Split(a[1..], sep);
    var more := Split(rest[|rest| - 1] + b, sep);
    if a[0] == sep {
      PrependPart([], rest, more);
    } else if |rest| == 1 {
      SplitPrepend(a[0], rest[0], b, sep);
      assert Split(a, sep) == [[a[0]] + rest[0]];
      assert rest[..0] + more == more;
    } else {
      PrependToHead(a[0], rest, more);
    }
  }

  lemma PrependPart<T>(part: seq<T>, parts: seq<seq<T>>, more: seq<seq<T>>)
    requires parts != []
    ensures [part] + (parts[..|parts| - 1] + more) == ([part] + parts)[..|parts|] + more
  {
  }

  lemma SplitPrepend<T>(x: T, text: seq<T>, b: seq<T>, sep: T)
    requires x != sep
    ensures var more := Split(text + b, sep);
            Split([x] + text + b, sep) == [[x] + more[0]] + more[1..]
  {
    assert ([x] + text + b)[1..] == text + b;
  }

  function StripLeft(s: string): string {
    if s != "" && IsSpace(s[0]) then StripLeft(s[1..]) else s
  }

  function StripRight(s: string): string {
    if s != "" && IsSpace(s[|s| - 1]) then StripRight(s[..|s| - 1]) else s
  }

  function Strip(s: string): string {
    StripRight(StripLeft(s))
  }

  predicate Stripped(s: string) {
    s != "" ==> !IsSpace(s[0]) && !IsSpace(s[|s| - 1])
  }

  lemma {:induction false} StripLeftDone(s: string)
    ensures StripLeft(s) != "" ==> !IsSpace(StripLeft(s)[0])
  {
    if s != "" && IsSpace(s[0]) { StripLeftDone(s[1..]); }
  }

  lemma {:induction false} StripRightDone(s: string)
    ensures StripRight(s) != "" ==> !IsSpace(StripRight(s)[|StripRight(s)| - 1]) && StripRight(s)[0] == s[0]
    ensures |StripRight(s)| <= |s|
  {
    if s != "" && IsSpace(s[|s| - 1]) { StripRightDone(s[..|s| - 1]); }
  }

  /** Stripping leaves no white space at the ends, and stripped text alone. */
  lemma StripStrips(s: string)
    ensures Stripped(Strip(s))
    ensures Stripped(s) ==> Strip(s) == s
  {
    StripLeftDone(s);
    StripRightDone(StripLeft(s));
  }

  /** The white space of Unicode, with the four separators of ASCII. */
  ghost const WHITE_SPACE: set<int> := {
    0x09, 0x0A, 0x0B, 0x0C, 0x0D, 0x1C, 0x1D, 0x1E, 0x1F, 0x20, 0x85, 0xA0, 0x1680, 0x2000, 0x2001, 0x2002,
    0x2003, 0x2004, 0x2005, 0x2006, 0x2007, 0x2008, 0x2009, 0x200A, 0x2028, 0x2029, 0x202F, 0x205F, 0x3000
  }

  lemma SpacesAre(c: char)
    ensures IsSpace(c) <==> c as int in WHITE_SPACE
  {
  }

  ghost predicate Spaces(s: string) {
    forall i | 0 <= i < |s| :: IsSpace(s[i])
  }

  lemma {:induction false} BlankIsSpaces(s: string)
    ensures Blank(s) <==> Spaces(s)
  {
    if s != "" {
      BlankIsSpaces(s[1..]);
      if Spaces(s[1..]) && IsSpace(s[0]) {
        forall i | 0 <= i < |s| ensures IsSpace(s[i]) { assert i > 0 ==> s[i] == s[1..][i - 1]; }
      }
    }
  }

  lemma {:induction false} StripLeftCut(s: string) returns (before: string)
    ensures Spaces(before) && s == before + StripLeft(s)
  {
    before := "";
    if s != "" && IsSpace(s[0]) {
      var rest := StripLeftCut(s[1..]);
      before := [s[0]] + rest;
    }
  }

  lemma {:induction false} StripRightCut(s: string) returns (after: string)
    ensures Spaces(after) && s == StripRight(s) + after
  {
    after := "";
    if s != "" && IsSpace(s[|s| - 1]) {
      var rest := StripRightCut(s[..|s| - 1]);
      after := rest + [s[|s| - 1]];
      assert s == s[..|s| - 1] + [s[|s| - 1]];
    } else {
      assert s == StripRight(s) + "";
    }
  }

  lemma {:induction false} StripLeftPadded(before: string, core: string)
    requires Spaces(before) && (core != "" ==> !IsSpace(core[0]))
    ensures StripLeft(before + core) == core
  {
    if before == "" {
      assert before + core == core;
    } else {
      assert (before + core)[1..] == before[1..] + core;
      StripLeftPadded(before[1..], core);
    }
  }

  lemma {:induction false} StripRightPadded(core: string, after: string)
    requires Spaces(after) && (core != "" ==> !IsSpace(core[|core| - 1]))
    ensures StripRight(core + after) == core
  {
    if after == "" {
      assert core + after == core;
    } else {
      var s := core + after;
      assert s[..|s| - 1] == core + after[..|after| - 1] && IsSpace(s[|s| - 1]);
      StripRightPadded(core, after[..|after| - 1]);
    }
  }

  lemma {:induction false} StripLeftSpaces(s: string)
    requires Spaces(s)
    ensures StripLeft(s) == ""
  {
    if s != "" { StripLeftSpaces(s[1..]); }
  }

  /** Stripping takes white space, and nothing else, off both ends: the text that is left is the one with no
      white space at its ends that only white space surrounds. */
  lemma StripMeans(s: string, core: string)
    ensures core == Strip(s) <==>
            Stripped(core) && exists before, after :: Spaces(before) && Spaces(after) && s == before + core + after
  {
    if core == Strip(s) {
      StripStrips(s);
      var before := StripLeftCut(s);
      var after := StripRightCut(StripLeft(s));
      assert s == before + core + after;
    }
    if before, after :| Spaces(before) && Spaces(after) && s == before + core + after && Stripped(core) {
      if core == "" {
        assert s == before + after;
        StripLeftSpaces(s);
      } else {
        assert s == before + (core + after);
        StripLeftPadded(before, core + after);
        StripRightPadded(core, after);
      }
    }
  }
}
