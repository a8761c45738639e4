/** The compact JSON text that a value's size counts, as UTF-8 bytes, and what is shown of a value whose text is
    longer than the budget. */
module JsonText {
  import opened Basics
  import opened Budget

  type Bytes = seq<int>

  /** One text after another; refused if either is. */
  function Cat(a: Option<Bytes>, b: Option<Bytes>): Option<Bytes> {
    if a.None? || b.None? then None else Some(a.value + b.value)
  }

  function Length(b: Option<Bytes>): Option<nat> {
    if b.None? then None else Some(|b.value|)
  }

  /** UTF-8, which has no form for surrogates (section 3 of RFC 3629). */
  function Utf8(c: Code): Option<Bytes> {
    if 0xD800 <= c <= 0xDFFF then None
    else if c <= 0x7F then Some([c])
    else if c <= 0x7FF then Some([0xC0 + c / 64, 0x80 + c % 64])
    else if c <= 0xFFFF then Some([0xE0 + c / 4096, 0x80 + c / 64 % 64, 0x80 + c % 64])
    else Some([0xF0 + c / 262144, 0x80 + c / 4096 % 64, 0x80 + c / 64 % 64, 0x80 + c % 64])
  }

  function HexDigit(n: int): int {
    if n < 10 then 0x30 + n else 0x57 + n
  }

  /** A character inside a JSON string: quotation mark, backslash and control characters are escaped (section 7 of
      RFC 8259), five of the controls with a letter. */
  function Written(c: Code): Option<Bytes> {
    match c
    case 0x22 => Some([0x5C, 0x22])
    case 0x5C => Some([0x5C, 0x5C])
    case 0x08 => Some([0x5C, 'b' as int])
    case 0x09 => Some([0x5C, 't' as int])
    case 0x0A => Some([0x5C, 'n' as int])
    case 0x0C => Some([0x5C, 'f' as int])
    case 0x0D => Some([0x5C, 'r' as int])
    case _ =>
      if c <= 0x1F then Some([0x5C, 'u' as int, 0x30, 0x30, HexDigit(c / 16), HexDigit(c % 16)]) else Utf8(c)
  }

  function Inside(s: Text): Option<Bytes> {
    if s == [] then Some([]) else Cat(Inside(s[..|s| - 1]), Written(s[|s| - 1]))
  }

  function Quoted(s: Text): Option<Bytes> {
    Cat(Cat(Some([0x22]), Inside(s)), Some([0x22]))
  }

  /** The members with a comma between any two. */
  function Joined(parts: seq<Option<Bytes>>): Option<Bytes> {
    if parts == [] then Some([])
    else if |parts| == 1 then parts[0]
    else Cat(Cat(Joined(parts[..|parts| - 1]), Some([0x2C])), parts[|parts| - 1])
  }

  function Between(left: int, middle: Option<Bytes>, right: int): Option<Bytes> {
    Cat(Cat(Some([left]), middle), Some([right]))
  }

  /** The text of a value; `atom` gives that of null, booleans and numbers. */
  function TextOf(atom: Option<nat> -> Option<Bytes>, v: Json): Option<Bytes>
    decreases v
  {
    match v
    case Atom(width) => atom(width)
    case Chars(s) => Quoted(s)
    case List(items) =>
      Between('[' as int, Joined(seq(|items|, i requires 0 <= i < |items| => TextOf(atom, items[i]))), ']' as int)
    case Object(entries) =>
      Between('{' as int,
              Joined(seq(|entries|, i requires 0 <= i < |entries| =>
                Cat(Cat(Quoted(entries[i].key), Some([':' as int])), TextOf(atom, entries[i].value)))),
              '}' as int)
  }

  lemma WrittenSize(c: Code)
    ensures Length(Written(c)) == if Surrogate(c) then None else Some(CodeSize(c))
  {
  }

  lemma {:induction false} InsideSize(s: Text)
    ensures Length(Inside(s)) == TextBytes(s)
  {
    if s != [] {
      InsideSize(s[..|s| - 1]);
      WrittenSize(s[|s| - 1]);
    }
  }

  lemma QuotedSize(s: Text)
    ensures Length(Quoted(s)) == TextSize(s)
  {
    InsideSize(s);
  }

  lemma {:induction false} JoinedSize(parts: seq<Option<Bytes>>, sizes: seq<Option<nat>>)
    requires |parts| == |sizes| && forall i | 0 <= i < |parts| :: Length(parts[i]) == sizes[i]
    ensures parts != [] ==> Plus(Length(Joined(parts)), Some(1)) == Total(sizes)
    decreases parts
  {
    if |parts| > 1 {
      var n := |parts| - 1;
      JoinedSize(parts[..n], sizes[..n]);
    } else if |parts| == 1 {
      assert sizes[..0] == [];
    }
  }

  lemma CollectionText(left: int, parts: seq<Option<Bytes>>, right: int, sizes: seq<Option<nat>>)
    requires |parts| == |sizes| && forall i | 0 <= i < |parts| :: Length(parts[i]) == sizes[i]
    ensures Length(Between(left, Joined(parts), right)) == CollectionSize(sizes)
  {
    JoinedSize(parts, sizes);
  }

  /** The size of a value is the length of its text, and refused exactly when the text is. */
  lemma {:induction false} SizeIsLength(atom: Option<nat> -> Option<Bytes>, v: Json)
    requires forall width :: Length(atom(width)) == width
    ensures Length(TextOf(atom, v)) == Size(v)
    decreases v
  {
    match v
    case Atom(width) =>
    case Chars(s) => QuotedSize(s);
    case List(items) =>
      var parts := seq(|items|, i requires 0 <= i < |items| => TextOf(atom, items[i]));
      forall i | 0 <= i < |items| ensures Length(parts[i]) == ItemSizes(items)[i] { SizeIsLength(atom, items[i]); }
      CollectionText('[' as int, parts, ']' as int, ItemSizes(items));
      CollectionSizes(items, []);
      assert TextOf(atom, v) == Between('[' as int, Joined(parts), ']' as int);
    case Object(entries) =>
      var parts := seq(|entries|, i requires 0 <= i < |entries| =>
        Cat(Cat(Quoted(entries[i].key), Some([':' as int])), TextOf(atom, entries[i].value)));
      forall i | 0 <= i < |entries| ensures Length(parts[i]) == EntrySizes(entries)[i] {
        QuotedSize(entries[i].key);
        SizeIsLength(atom, entries[i].value);
      }
      CollectionText('{' as int, parts, '}' as int, EntrySizes(entries));
      CollectionSizes([], entries);
      assert TextOf(atom, v) == Between('{' as int, Joined(parts), '}' as int);
  }

  // ---- What is shown ---------------------------------------------------------------------------------

  function Underscores(n: nat): Text {
    if n == 0 then [] else ['_' as int] + Underscores(n - 1)
  }

  /** The marker's key has the fewest underscores in front for which no entry has it. */
  lemma {:induction false} MarkerKeyMeans(entries: seq<Entry>, key: Text, before: nat) returns (n: nat)
    ensures MarkerKey(entries, Underscores(before) + key) == Underscores(n) + key && before <= n
    ensures !HasKey(entries, Underscores(n) + key)
    ensures forall i | before <= i < n :: HasKey(entries, Underscores(i) + key)
    decreases LongKeys(entries, before + |key|)
  {
    UnderscoresLength(before);
    var here := Underscores(before) + key;
    if HasKey(entries, here) {
      FewerLongKeys(entries, |here|);
      assert ['_' as int] + here == Underscores(before + 1) + key;
      n := MarkerKeyMeans(entries, key, before + 1);
    } else {
      n := before;
    }
  }

  lemma {:induction false} UnderscoresLength(n: nat)
    ensures |Underscores(n)| == n
  {
    if n > 0 { UnderscoresLength(n - 1); }
  }

  ghost predicate IsMarker(e: Entry) {
    && e.value == Chars(Codes("[truncated: overall detail budget]"))
    && exists n :: e.key == Underscores(n) + Codes("__ambient_detail_truncated__")
  }

  /** What is shown of a value over the budget: of a text a beginning and an ellipsis, or nothing; of an object or
      list a beginning and the marker; of anything else the marker. */
  ghost predicate Shortened(v: Json, r: Json) {
    match v
    case Chars(s) =>
      r == Chars([]) || exists k :: 0 < k < |s| && r == Chars(s[..k] + [0x2026])
    case Object(entries) =>
      exists j, marker ::
        0 <= j < |entries| && r == Object(entries[..j] + [marker]) && IsMarker(marker) && !HasKey(entries[..j], marker.key)
    case List(items) =>
      exists j :: 0 <= j < |items| && r == List(items[..j] + [Chars(Codes("[truncated: overall detail budget]"))])
    case Atom(_) => r == Chars(Codes("[truncated: overall detail budget]"))
  }

  /** A value whose text has at most 8192 bytes is shown as it is, any other shortened; and the text of what is
      shown always has at most 8192 bytes. */
  lemma FitValueMeans(atom: Option<nat> -> Option<Bytes>, v: Json)
    requires forall width :: Length(atom(width)) == width
    ensures var shown := FitValue(v);
            && TextOf(atom, shown).Some? && |TextOf(atom, shown).value| <= 8192
            && if TextOf(atom, v).Some? && |TextOf(atom, v).value| <= 8192 then shown == v else Shortened(v, shown)
  {
    SizeIsLength(atom, v);
    SizeIsLength(atom, FitValue(v));
    FitValueFits(v);
    if !Fits(v) { OverBudget(v); }
  }

  lemma OverBudget(v: Json)
    requires !Fits(v)
    ensures Shortened(v, FitValue(v))
  {
    match v
    case Chars(s) => FitTextMeans(s);
    case Object(entries) =>
      var j := CutObjectMeans(entries);
      var kept := entries[..LongestPrefix(entries, |entries|)];
      var n := MarkerKeyMeans(kept, BUDGET_KEY, 0);
      assert Underscores(0) + BUDGET_KEY == BUDGET_KEY;
      assert IsMarker(MarkerFor(entries));
    case List(items) => var j := CutListMeans(items);
    case Atom(_) =>
  }
}
