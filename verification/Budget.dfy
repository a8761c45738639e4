/** The size of JSON text, and cutting a value so that it fits the byte budget. */
module Budget {
  import opened Basics

  const MAX_VALUE_BYTES: nat := 8192

  /** A Unicode code point; lone surrogates can occur and cannot be encoded. */
  type Code = n: int | 0 <= n < 0x11_0000 witness 0

  type Text = seq<Code>

  const ELLIPSIS: Code := 0x2026

  /** JSON values with objects in insertion order. An atom is null, a boolean or a number, with the
      length of its text, or none if the serialiser refuses it. */
  datatype Json =
    | Atom(width: Option<nat>)
    | Chars(text: Text)
    | List(items: seq<Json>)
    | Object(entries: seq<Entry>)

  datatype Entry = Entry(key: Text, value: Json)

  predicate Surrogate(c: Code) {
    0xD800 <= c < 0xE000
  }

  /** Bytes of one code point inside a JSON string that keeps non-ASCII text. */
  function CodeSize(c: Code): nat {
    if c == 0x22 || c == 0x5C || 8 <= c <= 10 || 12 <= c <= 13 then 2
    else if c < 0x20 then 6
    else if c < 0x80 then 1
    else if c < 0x800 then 2
    else if c < 0x1_0000 then 3
    else 4
  }

  /** Refused if any part is. */
  function Plus(a: Option<nat>, b: Option<nat>): Option<nat> {
    if a.None? || b.None? then None else Some(a.value + b.value)
  }

  function TextBytes(s: Text): Option<nat> {
    if s == [] then Some(0)
    else Plus(TextBytes(s[..|s| - 1]), if Surrogate(s[|s| - 1]) then None else Some(CodeSize(s[|s| - 1])))
  }

  function TextSize(s: Text): Option<nat> {
    Plus(TextBytes(s), Some(2))
  }

  /** The members of a collection with a comma after each. */
  function Total(sizes: seq<Option<nat>>): Option<nat> {
    if sizes == [] then Some(0) else Plus(Total(sizes[..|sizes| - 1]), Plus(sizes[|sizes| - 1], Some(1)))
  }

  /** Brackets, the members, and one comma less than members. */
  function CollectionSize(sizes: seq<Option<nat>>): Option<nat> {
    if sizes == [] then Some(2) else Plus(Total(sizes), Some(1))
  }

  function Size(v: Json): Option<nat>
    decreases v
  {
    match v
    case Atom(width) => width
    case Chars(s) => TextSize(s)
    case List(items) => CollectionSize(seq(|items|, i requires 0 <= i < |items| => Size(items[i])))
    case Object(entries) =>
      CollectionSize(seq(|entries|, i requires 0 <= i < |entries| =>
        Plus(Plus(TextSize(entries[i].key), Some(1)), Size(entries[i].value))))
  }

  function EntrySize(e: Entry): Option<nat> {
    Plus(Plus(TextSize(e.key), Some(1)), Size(e.value))
  }

  /** `_json_size`: what cannot be serialised counts as too large. */
  function JsonSize(v: Json): nat {
    if Size(v).Some? then Size(v).value else MAX_VALUE_BYTES + 1
  }

  predicate Fits(v: Json) {
    JsonSize(v) <= MAX_VALUE_BYTES
  }

  // ---- Longer values are larger ---------------------------------------------------------------------------

  /** No larger, and refused only if the other is. */
  predicate AtMost(a: Option<nat>, b: Option<nat>) {
    b.Some? ==> a.Some? && a.value <= b.value
  }

  lemma {:induction false} LongerText(s: Text, j: nat, k: nat)
    requires j <= k <= |s|
    ensures AtMost(TextBytes(s[..j]), TextBytes(s[..k]))
    decreases k
  {
    if j < k {
      assert s[..k][..k - 1] == s[..k - 1];
      LongerText(s, j, k - 1);
    }
  }

  lemma {:induction false} LongerTotal(sizes: seq<Option<nat>>, j: nat, k: nat)
    requires j <= k <= |sizes|
    ensures AtMost(Total(sizes[..j]), Total(sizes[..k]))
    decreases k
  {
    if j < k {
      assert sizes[..k][..k - 1] == sizes[..k - 1];
      LongerTotal(sizes, j, k - 1);
    }
  }

  lemma {:induction false} LongerCollection(sizes: seq<Option<nat>>, j: nat, k: nat)
    requires j <= k <= |sizes|
    ensures AtMost(CollectionSize(sizes[..j]), CollectionSize(sizes[..k]))
  {
    LongerTotal(sizes, j, k);
    if j == 0 && k > 0 {
      LongerTotal(sizes, 1, k);
      assert sizes[..1][..0] == [];
    }
  }

  function ItemSizes(items: seq<Json>): seq<Option<nat>> {
    seq(|items|, i requires 0 <= i < |items| => Size(items[i]))
  }

  function EntrySizes(entries: seq<Entry>): seq<Option<nat>> {
    seq(|entries|, i requires 0 <= i < |entries| => EntrySize(entries[i]))
  }

  lemma CollectionSizes(items: seq<Json>, entries: seq<Entry>)
    ensures Size(List(items)) == CollectionSize(ItemSizes(items))
    ensures Size(Object(entries)) == CollectionSize(EntrySizes(entries))
  {
    assert ItemSizes(items) == seq(|items|, i requires 0 <= i < |items| => Size(items[i]));
    assert EntrySizes(entries) == seq(|entries|, i requires 0 <= i < |entries| =>
        Plus(Plus(TextSize(entries[i].key), Some(1)), Size(entries[i].value)));
  }

  // ---- Cutting a text -----------------------------------------------------------------------------------------

  /** The first k characters and an ellipsis. */
  function Cut(s: Text, k: nat): Json
    requires k <= |s|
  {
    Chars(s[..k] + [ELLIPSIS])
  }

  lemma CutSize(s: Text, k: nat)
    requires k <= |s|
    ensures Size(Cut(s, k)) == Plus(TextBytes(s[..k]), Some(5))
  {
    var cut := s[..k] + [ELLIPSIS];
    assert CodeSize(ELLIPSIS) == 3 && !Surrogate(ELLIPSIS);
    assert cut[..|cut| - 1] == s[..k] && cut[|cut| - 1] == ELLIPSIS;
    assert TextBytes(cut) == Plus(TextBytes(s[..k]), Some(3));
  }

  lemma ShorterCutFits(s: Text, j: nat, k: nat)
    requires j <= k <= |s| && Fits(Cut(s, k))
    ensures Fits(Cut(s, j))
  {
    CutSize(s, j);
    CutSize(s, k);
    LongerText(s, j, k);
  }

  /** The greatest number up to n that qualifies, or zero. */
  function Longest(qualifies: nat -> bool, n: nat): (k: nat)
    ensures k <= n && (k > 0 ==> qualifies(k))
    ensures forall j: nat | k < j <= n :: !qualifies(j)
  {
    if n == 0 || qualifies(n) then n else Longest(qualifies, n - 1)
  }

  /** The longest fitting cut, or zero. */
  function LongestCut(s: Text, n: nat): (k: nat)
    requires n <= |s|
    ensures k <= n && (k > 0 ==> Fits(Cut(s, k)))
    ensures forall j: nat | k < j <= n :: !Fits(Cut(s, j))
  {
    var fits := (j: nat) => j <= |s| && Fits(Cut(s, j));
    assert forall j: nat | j <= n :: fits(j) <==> Fits(Cut(s, j));
    Longest(fits, n)
  }

  function FitText(s: Text): (r: Text)
    ensures Fits(Chars(r))
  {
    if Fits(Chars(s)) then s
    else
      var k := LongestCut(s, |s|);
      if k == 0 then [] else s[..k] + [ELLIPSIS]
  }

  /** `_fit_string_to_budget`: the binary search finds the longest cut because longer cuts are larger. */
  method FitStringToBudget(s: Text) returns (r: Text)
    ensures r == FitText(s)
  {
    if Fits(Chars(s)) { return s; }
    var low, high := 0, |s|;
    while low < high
      invariant 0 <= low <= high <= |s| && (low > 0 ==> Fits(Cut(s, low)))
      invariant forall j | high < j <= |s| :: !Fits(Cut(s, j))
    {
      var midpoint := (low + high + 1) / 2;
      if Fits(Cut(s, midpoint)) {
        low := midpoint;
      } else {
        forall j | midpoint <= j <= high ensures !Fits(Cut(s, j)) {
          if Fits(Cut(s, j)) { ShorterCutFits(s, midpoint, j); }
        }
        high := midpoint - 1;
      }
    }
    return if low > 0 then s[..low] + [ELLIPSIS] else [];
  }

  /** A text over the budget really gets shorter, and no longer beginning of it would have fitted. */
  lemma FitTextMeans(s: Text)
    requires !Fits(Chars(s))
    ensures exists k | 0 <= k < |s| ::
              && FitText(s) == (if k == 0 then [] else s[..k] + [ELLIPSIS])
              && forall j | k < j <= |s| :: !Fits(Cut(s, j))
  {
    CutSize(s, |s|);
    assert s[..|s|] == s;
    var k := LongestCut(s, |s|);
    assert k < |s|;
  }

  // ---- Cutting a collection ------------------------------------------------------------------------------------

  function Codes(s: string): Text {
    seq(|s|, i requires 0 <= i < |s| => s[i] as int)
  }

  const UNDERSCORE: Code := 0x5F

  const BUDGET_MARKER: Text := Codes("[truncated: overall detail budget]")
  const BUDGET_KEY: Text := Codes("__ambient_detail_truncated__")

  predicate Plain(s: Text) {
    forall i | 0 <= i < |s| :: 0x20 <= s[i] < 0x80 && s[i] != 0x22 && s[i] != 0x5C
  }

  lemma {:induction false} PlainBytes(s: Text)
    requires Plain(s)
    ensures TextBytes(s) == Some(|s|)
  {
    if s != [] { PlainBytes(s[..|s| - 1]); }
  }

  lemma MarkersArePlain()
    ensures Plain(BUDGET_MARKER) && |BUDGET_MARKER| == 34
    ensures Plain(BUDGET_KEY) && |BUDGET_KEY| == 28
  {
  }

  predicate HasKey(entries: seq<Entry>, key: Text) {
    exists i | 0 <= i < |entries| :: entries[i].key == key
  }

  /** How many keys have at least this length. */
  function LongKeys(entries: seq<Entry>, n: nat): nat {
    if entries == [] then 0
    else LongKeys(entries[..|entries| - 1], n) + if |entries[|entries| - 1].key| >= n then 1 else 0
  }

  lemma {:induction false} FewerLongKeys(entries: seq<Entry>, n: nat)
    ensures LongKeys(entries, n + 1) <= LongKeys(entries, n) <= |entries|
    ensures (exists i | 0 <= i < |entries| :: |entries[i].key| == n) ==> LongKeys(entries, n + 1) < LongKeys(entries, n)
  {
    if entries != [] {
      var m := |entries| - 1;
      FewerLongKeys(entries[..m], n);
      if i :| 0 <= i < |entries| && |entries[i].key| == n {
        if i < m { assert entries[..m][i] == entries[i]; }
      }
    }
  }

  /** Underscores are put before the marker's key until no entry has it. */
  function MarkerKey(entries: seq<Entry>, key: Text): (r: Text)
    ensures !HasKey(entries, r)
    ensures |r| <= |key| + LongKeys(entries, |key|) && (Plain(key) ==> Plain(r))
    decreases LongKeys(entries, |key|)
  {
    FewerLongKeys(entries, |key|);
    if HasKey(entries, key) then MarkerKey(entries, [UNDERSCORE] + key) else key
  }

  function Marked(entries: seq<Entry>, j: nat, marker: Entry): Json
    requires j <= |entries|
  {
    Object(entries[..j] + [marker])
  }

  function MarkedList(items: seq<Json>, j: nat): Json
    requires j <= |items|
  {
    List(items[..j] + [Chars(BUDGET_MARKER)])
  }

  /** How many entries the first loop takes. */
  function LongestPrefix(entries: seq<Entry>, n: nat): (k: nat)
    requires n <= |entries|
    ensures k <= n && (k > 0 ==> Fits(Object(entries[..k])))
    ensures forall j: nat | k < j <= n :: !Fits(Object(entries[..j]))
  {
    var fits := (j: nat) => j <= |entries| && Fits(Object(entries[..j]));
    assert forall j: nat | j <= n :: fits(j) <==> Fits(Object(entries[..j]));
    Longest(fits, n)
  }

  function LongestListPrefix(items: seq<Json>, n: nat): (k: nat)
    requires n <= |items|
    ensures k <= n && (k > 0 ==> Fits(List(items[..k])))
    ensures forall j: nat | k < j <= n :: !Fits(List(items[..j]))
  {
    var fits := (j: nat) => j <= |items| && Fits(List(items[..j]));
    assert forall j: nat | j <= n :: fits(j) <==> Fits(List(items[..j]));
    Longest(fits, n)
  }

  /** Entries are taken off the end until the rest fits with the marker. */
  function Shrink(entries: seq<Entry>, j: nat, marker: Entry): Json
    requires j <= |entries|
  {
    if Fits(Marked(entries, j, marker)) then Marked(entries, j, marker)
    else if j == 0 then Object([Entry(BUDGET_KEY, Chars(BUDGET_MARKER))])
    else Shrink(entries, j - 1, marker)
  }

  function ShrinkList(items: seq<Json>, j: nat): Json
    requires j <= |items|
  {
    if Fits(MarkedList(items, j)) then MarkedList(items, j)
    else if j == 0 then List([])
    else ShrinkList(items, j - 1)
  }

  function MarkerFor(entries: seq<Entry>): Entry {
    var k := LongestPrefix(entries, |entries|);
    Entry(MarkerKey(entries[..k], BUDGET_KEY), Chars(BUDGET_MARKER))
  }

  /** `_fit_value_to_budget`. */
  function FitValue(v: Json): Json {
    if Fits(v) then v
    else
      match v
      case Chars(s) => Chars(FitText(s))
      case Object(entries) => Shrink(entries, LongestPrefix(entries, |entries|), MarkerFor(entries))
      case List(items) => ShrinkList(items, LongestListPrefix(items, |items|))
      case Atom(_) => Chars(BUDGET_MARKER)
  }

  // ---- Everything fits --------------------------------------------------------------------------------------------

  lemma MarkerTextSize()
    ensures TextSize(BUDGET_MARKER) == Some(36)
  {
    MarkersArePlain();
    PlainBytes(BUDGET_MARKER);
  }

  lemma SmallObjectFits(key: Text)
    requires Plain(key) && |key| <= 4000
    ensures Fits(Object([Entry(key, Chars(BUDGET_MARKER))]))
  {
    var e := Entry(key, Chars(BUDGET_MARKER));
    PlainBytes(key);
    MarkerTextSize();
    CollectionSizes([], [e]);
    assert EntrySizes([e]) == [EntrySize(e)];
    assert [EntrySize(e)][..0] == [];
    assert Total([EntrySize(e)]) == Some(|key| + 40);
  }

  lemma SmallListFits()
    ensures Fits(List([Chars(BUDGET_MARKER)]))
  {
    var m := Chars(BUDGET_MARKER);
    MarkerTextSize();
    CollectionSizes([m], []);
    assert ItemSizes([m]) == [Size(m)];
    assert [Size(m)][..0] == [];
    assert Total([Size(m)]) == Some(37);
  }

  /** An object that fits has few entries. */
  lemma {:induction false} EntriesTakeSpace(sizes: seq<Option<nat>>)
    requires forall i | 0 <= i < |sizes| :: sizes[i].Some? ==> sizes[i].value >= 3
    ensures Total(sizes).Some? ==> Total(sizes).value >= 4 * |sizes|
  {
    if sizes != [] { EntriesTakeSpace(sizes[..|sizes| - 1]); }
  }

  lemma FittingIsShort(entries: seq<Entry>)
    requires Fits(Object(entries))
    ensures |entries| <= 2048
  {
    CollectionSizes([], entries);
    EntriesTakeSpace(EntrySizes(entries));
  }

  /** The marker alone always fits, so the first fallback is never needed. */
  lemma MarkerAloneFits(entries: seq<Entry>)
    ensures Fits(Marked(entries, 0, MarkerFor(entries)))
  {
    var k := LongestPrefix(entries, |entries|);
    if k > 0 { FittingIsShort(entries[..k]); }
    FewerLongKeys(entries[..k], |BUDGET_KEY|);
    MarkersArePlain();
    SmallObjectFits(MarkerKey(entries[..k], BUDGET_KEY));
    assert entries[..0] + [MarkerFor(entries)] == [MarkerFor(entries)];
  }

  lemma {:induction false} ShrinkMeans(entries: seq<Entry>, k: nat, marker: Entry) returns (j: nat)
    requires k <= |entries| && Fits(Marked(entries, 0, marker))
    ensures j <= k && Shrink(entries, k, marker) == Marked(entries, j, marker) && Fits(Marked(entries, j, marker))
    ensures forall i | j < i <= k :: !Fits(Marked(entries, i, marker))
    decreases k
  {
    if Fits(Marked(entries, k, marker)) { j := k; } else { j := ShrinkMeans(entries, k - 1, marker); }
  }

  lemma {:induction false} ShrinkListMeans(items: seq<Json>, k: nat) returns (j: nat)
    requires k <= |items| && Fits(MarkedList(items, 0))
    ensures j <= k && ShrinkList(items, k) == MarkedList(items, j) && Fits(MarkedList(items, j))
    ensures forall i | j < i <= k :: !Fits(MarkedList(items, i))
    decreases k
  {
    if Fits(MarkedList(items, k)) { j := k; } else { j := ShrinkListMeans(items, k - 1); }
  }

  /** Without its last member a collection is smaller. */
  lemma UnmarkedFits(entries: seq<Entry>, j: nat, marker: Entry)
    requires j <= |entries| && Fits(Marked(entries, j, marker))
    ensures Fits(Object(entries[..j]))
  {
    var marked := entries[..j] + [marker];
    CollectionSizes([], marked);
    CollectionSizes([], entries[..j]);
    LongerCollection(EntrySizes(marked), j, j + 1);
    assert EntrySizes(marked)[..j] == EntrySizes(entries[..j]) && EntrySizes(marked)[..j + 1] == EntrySizes(marked);
  }

  lemma UnmarkedListFits(items: seq<Json>, j: nat)
    requires j <= |items| && Fits(MarkedList(items, j))
    ensures Fits(List(items[..j]))
  {
    var marked := items[..j] + [Chars(BUDGET_MARKER)];
    CollectionSizes(marked, []);
    CollectionSizes(items[..j], []);
    LongerCollection(ItemSizes(marked), j, j + 1);
    assert ItemSizes(marked)[..j] == ItemSizes(items[..j]) && ItemSizes(marked)[..j + 1] == ItemSizes(marked);
  }

  lemma NoLongerOneFits(entries: seq<Entry>, marker: Entry, i: nat)
    requires LongestPrefix(entries, |entries|) < i <= |entries|
    ensures !Fits(Marked(entries, i, marker))
  {
    if Fits(Marked(entries, i, marker)) { UnmarkedFits(entries, i, marker); }
  }

  lemma NoLongerListFits(items: seq<Json>, i: nat)
    requires LongestListPrefix(items, |items|) < i <= |items|
    ensures !Fits(MarkedList(items, i))
  {
    if Fits(MarkedList(items, i)) { UnmarkedListFits(items, i); }
  }

  lemma ShorterHasNoKey(entries: seq<Entry>, j: nat, k: nat, key: Text)
    requires j <= k <= |entries| && !HasKey(entries[..k], key)
    ensures !HasKey(entries[..j], key)
  {
    forall i | 0 <= i < j ensures entries[..j][i] == entries[..k][i] {}
  }

  /** An object over the budget keeps a beginning of its entries, in order, and one marker under a key
      that none of them has; and it is the longest beginning that fits with the marker. */
  lemma CutObjectMeans(entries: seq<Entry>) returns (j: nat)
    requires !Fits(Object(entries))
    ensures var marker := MarkerFor(entries);
            && j < |entries| && FitValue(Object(entries)) == Object(entries[..j] + [marker])
            && !HasKey(entries[..j], marker.key)
            && forall i | j < i <= |entries| :: !Fits(Marked(entries, i, marker))
  {
    var k, marker := LongestPrefix(entries, |entries|), MarkerFor(entries);
    assert entries[..|entries|] == entries;
    MarkerAloneFits(entries);
    j := ShrinkMeans(entries, k, marker);
    forall i | k < i <= |entries| ensures !Fits(Marked(entries, i, marker)) { NoLongerOneFits(entries, marker, i); }
    ShorterHasNoKey(entries, j, k, marker.key);
  }

  lemma CutListMeans(items: seq<Json>) returns (j: nat)
    requires !Fits(List(items))
    ensures j < |items| && FitValue(List(items)) == List(items[..j] + [Chars(BUDGET_MARKER)])
    ensures forall i | j < i <= |items| :: !Fits(MarkedList(items, i))
  {
    var k := LongestListPrefix(items, |items|);
    assert items[..|items|] == items;
    SmallListFits();
    assert items[..0] + [Chars(BUDGET_MARKER)] == [Chars(BUDGET_MARKER)];
    j := ShrinkListMeans(items, k);
    forall i | k < i <= |items| ensures !Fits(MarkedList(items, i)) { NoLongerListFits(items, i); }
  }

  /** Whatever comes in, what comes out fits the budget. */
  lemma FitValueFits(v: Json)
    ensures Fits(FitValue(v))
  {
    if !Fits(v) {
      match v {
        case Chars(_) =>
        case Object(entries) =>
          MarkerAloneFits(entries);
          var j := ShrinkMeans(entries, LongestPrefix(entries, |entries|), MarkerFor(entries));
        case List(items) =>
          SmallListFits();
          assert items[..0] + [Chars(BUDGET_MARKER)] == [Chars(BUDGET_MARKER)];
          var j := ShrinkListMeans(items, LongestListPrefix(items, |items|));
        case Atom(_) => MarkerTextSize();
      }
    }
  }

  // ---- The loops ----------------------------------------------------------------------------------------------------

  lemma ShorterObjectFits(entries: seq<Entry>, j: nat, k: nat)
    requires j <= k <= |entries| && Fits(Object(entries[..k]))
    ensures Fits(Object(entries[..j]))
  {
    CollectionSizes([], entries[..j]);
    CollectionSizes([], entries[..k]);
    LongerCollection(EntrySizes(entries), j, k);
    assert EntrySizes(entries)[..j] == EntrySizes(entries[..j]) && EntrySizes(entries)[..k] == EntrySizes(entries[..k]);
  }

  lemma ShorterListFits(items: seq<Json>, j: nat, k: nat)
    requires j <= k <= |items| && Fits(List(items[..k]))
    ensures Fits(List(items[..j]))
  {
    CollectionSizes(items[..j], []);
    CollectionSizes(items[..k], []);
    LongerCollection(ItemSizes(items), j, k);
    assert ItemSizes(items)[..j] == ItemSizes(items[..j]) && ItemSizes(items)[..k] == ItemSizes(items[..k]);
  }

  /** The first loop over an object: entries are taken while the result fits. */
  method TakeEntries(entries: seq<Entry>) returns (result: seq<Entry>)
    ensures result == entries[..LongestPrefix(entries, |entries|)]
  {
    result := [];
    var n := 0;
    ghost var k := LongestPrefix(entries, |entries|);
    while n < |entries|
      invariant 0 <= n <= k && result == entries[..n]
    {
      var candidate := result + [entries[n]];
      assert candidate == entries[..n + 1];
      if !Fits(Object(candidate)) {
        if k > n { ShorterObjectFits(entries, n + 1, k); }
        return;
      }
      result := candidate;
      n := n + 1;
    }
  }

  /** An underscore is put in front of the key until no entry has it. */
  method FreeMarkerKey(taken: seq<Entry>) returns (markerKey: Text)
    ensures markerKey == MarkerKey(taken, BUDGET_KEY)
  {
    markerKey := BUDGET_KEY;
    while HasKey(taken, markerKey)
      invariant MarkerKey(taken, markerKey) == MarkerKey(taken, BUDGET_KEY)
      decreases LongKeys(taken, |markerKey|)
    {
      FewerLongKeys(taken, |markerKey|);
      markerKey := [UNDERSCORE] + markerKey;
    }
  }

  /** The last entries go until the rest fits together with the marker. */
  method DropEntries(entries: seq<Entry>, n: nat, marker: Entry) returns (result: seq<Entry>)
    requires n <= |entries|
    ensures Object(result) == Shrink(entries, n, marker)
  {
    var taken := entries[..n];
    ghost var j: nat := n;
    while !Fits(Object(taken + [marker]))
      invariant j <= n && taken == entries[..j]
      invariant Shrink(entries, j, marker) == Shrink(entries, n, marker)
      decreases |taken|
    {
      if taken == [] { return [Entry(BUDGET_KEY, Chars(BUDGET_MARKER))]; }
      taken := taken[..|taken| - 1];
      j := j - 1;
    }
    return taken + [marker];
  }

  method FitObject(entries: seq<Entry>) returns (result: seq<Entry>)
    ensures Object(result) == Shrink(entries, LongestPrefix(entries, |entries|), MarkerFor(entries))
  {
    var taken := TakeEntries(entries);
    var markerKey := FreeMarkerKey(taken);
    result := DropEntries(entries, |taken|, Entry(markerKey, Chars(BUDGET_MARKER)));
  }

  method FitList(items: seq<Json>) returns (result: seq<Json>)
    ensures List(result) == ShrinkList(items, LongestListPrefix(items, |items|))
  {
    result := [];
    var n := 0;
    ghost var k := LongestListPrefix(items, |items|);
    while n < |items|
      invariant 0 <= n <= k && result == items[..n]
    {
      var candidate := result + [items[n]];
      assert candidate == items[..n + 1];
      if !Fits(List(candidate)) {
        if k > n { ShorterListFits(items, n + 1, k); }
        break;
      }
      result := candidate;
      n := n + 1;
    }
    assert n == k;
    result := result + [Chars(BUDGET_MARKER)];
    ghost var j: nat := n;
    while |result| > 1 && !Fits(List(result))
      invariant j <= |items| && List(result) == MarkedList(items, j) && |result| == j + 1
      invariant ShrinkList(items, j) == ShrinkList(items, k)
    {
      result := result[..|result| - 2] + [Chars(BUDGET_MARKER)];
      j := j - 1;
    }
    if !Fits(List(result)) { result := []; }
  }

  /** `_fit_value_to_budget`. */
  method FitValueToBudget(v: Json) returns (r: Json)
    ensures r == FitValue(v) && Fits(r)
  {
    FitValueFits(v);
    if Fits(v) { return v; }
    match v {
      case Chars(s) =>
        var text := FitStringToBudget(s);
        return Chars(text);
      case Object(entries) =>
        var kept := FitObject(entries);
        return Object(kept);
      case List(items) =>
        var kept := FitList(items);
        return List(kept);
      case Atom(_) => return Chars(BUDGET_MARKER);
    }
  }
}
