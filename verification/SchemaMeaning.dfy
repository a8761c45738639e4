/** What a schema proposal is read as, when it is accepted, and what it writes, in plain terms. */
module SchemaMeaning {
  import opened Basics
  import opened Ontology
  import opened Graph
  import opened SchemaProposals
  import opened SchemaRestore
  import opened Text

  // ---- Reading a proposal ----------------------------------------------------------------------------

  /** The first place whose text, without the white space around it, is `s`; past the end if there is none. */
  ghost function FirstAt(texts: seq<string>, s: string): nat {
    if texts == [] || Strip(texts[0]) == s then 0 else 1 + FirstAt(texts[1..], s)
  }

  /** The trimmed texts, each once, in the order of their first occurrences. */
  ghost predicate TrimsAll(texts: seq<string>, r: seq<string>) {
    && (forall s :: s in r <==> FirstAt(texts, s) < |texts|)
    && (forall i, j | 0 <= i < j < |r| :: FirstAt(texts, r[i]) < FirstAt(texts, r[j]))
  }

  lemma {:induction false} FirstOfLonger(texts: seq<string>, last: string, s: string)
    ensures FirstAt(texts, s) <= |texts|
    ensures FirstAt(texts + [last], s) ==
            if FirstAt(texts, s) < |texts| then FirstAt(texts, s)
            else if s == Strip(last) then |texts| else |texts| + 1
  {
    if texts != [] {
      FirstOfLonger(texts[1..], last, s);
      assert (texts + [last])[1..] == texts[1..] + [last];
    } else {
      assert texts + [last] == [last];
    }
  }

  lemma TrimsAllOneMore(texts: seq<string>, r: seq<string>, last: string)
    requires TrimsAll(texts, r)
    ensures TrimsAll(texts + [last], if Strip(last) in r then r else r + [Strip(last)])
  {
    var longer, q := texts + [last], if Strip(last) in r then r else r + [Strip(last)];
    forall s ensures s in q <==> FirstAt(longer, s) < |longer| { FirstOfLonger(texts, last, s); }
    forall i, j | 0 <= i < j < |q| ensures FirstAt(longer, q[i]) < FirstAt(longer, q[j]) {
      FirstOfLonger(texts, last, q[i]);
      FirstOfLonger(texts, last, q[j]);
      assert q[i] in r;
    }
  }

  lemma TrimsAllLast(texts: seq<string>, before: seq<string>, r: seq<string>)
    requires texts != [] && TrimsAll(texts[..|texts| - 1], before)
    requires var last := Strip(texts[|texts| - 1]); r == if last in before then before else before + [last]
    ensures TrimsAll(texts, r)
  {
    var n := |texts| - 1;
    assert texts[..n] + [texts[n]] == texts;
    TrimsAllOneMore(texts[..n], before, texts[n]);
  }

  lemma {:induction false} StripDistinctMeans(texts: seq<string>)
    ensures TrimsAll(texts, StripDistinct(texts))
  {
    if texts == [] {
      assert StripDistinct(texts) == [];
    } else {
      StripDistinctMeans(texts[..|texts| - 1]);
      TrimsAllLast(texts, StripDistinct(texts[..|texts| - 1]), StripDistinct(texts));
    }
  }

  predicate Given(name: string) {
    !Blank(name)
  }

  /** `n` is the stored form of the proposed entity `e`, and `e` may be proposed. */
  ghost predicate ReadsAs(e: NewEntity, n: NewEntity) {
    && Given(e.id) && n.id == e.id
    && n.name == (if e.name != "" then e.name else e.id)
    && n.description == e.description
    && (forall k | k in e.properties :: Given(k)) && n.properties == e.properties
    && (e.ontologyIri != "" ==> Given(e.ontologyIri))
    && n.ontologyIri == (if e.ontologyIri != "" then Strip(e.ontologyIri) else Strip("urn:ambient:ontology:" + e.id))
    && n.source == (if e.source != "" then e.source else "ambient-context")
    && (forall i | 0 <= i < |e.equivalentTo| :: Given(e.equivalentTo[i])) && TrimsAll(e.equivalentTo, n.equivalentTo)
    && (e.subclassOf.None? ==> n.subclassOf.None?)
    && (e.subclassOf.Some? ==>
          Given(e.subclassOf.value) && n.subclassOf == Some(Strip(e.subclassOf.value)) && n.subclassOf != Some(n.id))
    && n.isAbstract == e.isAbstract
    && e.dataScope == USER_CONTEXT_SCOPE == n.dataScope
  }

  ghost predicate ReuseReadsAs(r: Reuse, n: Reuse) {
    && n == r && Given(r.id)
    && (forall k | k in r.extension :: Given(k))
    && r.dataScope == USER_CONTEXT_SCOPE
  }

  /** Two lists of trimmed texts are one. */
  lemma TrimsAllOnce(texts: seq<string>, q: seq<string>, r: seq<string>)
    requires TrimsAll(texts, q) && TrimsAll(texts, r)
    ensures q == r
  {
    TrimsAllPrefix(texts, q, r, |q|);
    TrimsAllPrefix(texts, r, q, |r|);
  }

  lemma TrimsAllNext(texts: seq<string>, q: seq<string>, r: seq<string>, k: nat)
    requires TrimsAll(texts, q) && TrimsAll(texts, r) && k < |q| && k <= |r| && q[..k] == r[..k]
    ensures k < |r| && q[k] == r[k]
  {
    forall i | 0 <= i < k ensures q[i] == r[i] { assert q[i] == q[..k][i] && r[i] == r[..k][i]; }
    assert q[k] in r;
    var i :| 0 <= i < |r| && r[i] == q[k];
    assert r[k] in q;
    var j :| 0 <= j < |q| && q[j] == r[k];
  }

  lemma {:induction false} TrimsAllPrefix(texts: seq<string>, q: seq<string>, r: seq<string>, n: nat)
    requires TrimsAll(texts, q) && TrimsAll(texts, r) && n <= |q|
    ensures n <= |r| && q[..n] == r[..n]
  {
    if n > 0 {
      var k := n - 1;
      TrimsAllPrefix(texts, q, r, k);
      TrimsAllNext(texts, q, r, k);
      assert q[..n] == q[..k] + [q[k]] && r[..n] == r[..k] + [r[k]];
    }
  }

  /** An entity is read exactly as described, or refused when no description fits. */
  lemma NewMeans(e: NewEntity, n: NewEntity)
    ensures NormalizeNew(e) == Ok(n) <==> ReadsAs(e, n)
  {
    StripDistinctMeans(e.equivalentTo);
    if ReadsAs(e, n) {
      TrimsAllOnce(e.equivalentTo, n.equivalentTo, StripDistinct(e.equivalentTo));
      UrnGiven(e.id);
    }
  }

  lemma UrnGiven(id: string)
    ensures !Blank("urn:ambient:ontology:" + id)
  {
    assert ("urn:ambient:ontology:" + id)[0] == 'u';
  }

  /** A proposal is read entry by entry, in order. */
  lemma ProposalMeans(p: Proposal, n: Proposal)
    ensures Normalize(p) == Ok(n) <==>
            && |n.reused| == |p.reused| && (forall i | 0 <= i < |p.reused| :: ReuseReadsAs(p.reused[i], n.reused[i]))
            && |n.added| == |p.added| && (forall i | 0 <= i < |p.added| :: ReadsAs(p.added[i], n.added[i]))
  {
    AllReuseMeans(p.reused, n.reused);
    AllNewMeans(p.added, n.added);
  }

  lemma {:induction false} AllReuseMeans(rs: seq<Reuse>, ns: seq<Reuse>)
    ensures NormalizeAllReuse(rs) == Ok(ns) <==>
            |ns| == |rs| && forall i | 0 <= i < |rs| :: ReuseReadsAs(rs[i], ns[i])
  {
    if rs != [] && ns != [] {
      AllReuseMeans(rs[1..], ns[1..]);
      assert ns == [ns[0]] + ns[1..];
      if |ns| == |rs| && ReuseReadsAs(rs[0], ns[0])
         && forall i | 0 <= i < |rs[1..]| :: ReuseReadsAs(rs[1..][i], ns[1..][i]) {
        forall i | 0 <= i < |rs| ensures ReuseReadsAs(rs[i], ns[i]) {
          if i > 0 { assert rs[i] == rs[1..][i - 1] && ns[i] == ns[1..][i - 1]; }
        }
      }
    }
  }

  lemma {:induction false} AllNewMeans(es: seq<NewEntity>, ns: seq<NewEntity>)
    ensures NormalizeAllNew(es) == Ok(ns) <==>
            |ns| == |es| && forall i | 0 <= i < |es| :: ReadsAs(es[i], ns[i])
  {
    if es != [] && ns != [] {
      NewMeans(es[0], ns[0]);
      AllNewMeans(es[1..], ns[1..]);
      assert ns == [ns[0]] + ns[1..];
      if |ns| == |es| && ReadsAs(es[0], ns[0]) && forall i | 0 <= i < |es[1..]| :: ReadsAs(es[1..][i], ns[1..][i]) {
        forall i | 0 <= i < |es| ensures ReadsAs(es[i], ns[i]) {
          if i > 0 { assert es[i] == es[1..][i - 1] && ns[i] == ns[1..][i - 1]; }
        }
      }
    }
  }

  // ---- What a commit needs ---------------------------------------------------------------------------

  /** No extension changes a declared type: neither of the row it extends nor of another extension. */
  ghost predicate TypesKept(t: Schemas, reused: seq<Reuse>) {
    && (forall r, k | r in reused && r.id in t && k in r.extension && k in t[r.id].properties ::
          r.extension[k] == t[r.id].properties[k])
    && (forall q, r, k | q in reused && r in reused && q.id == r.id && k in q.extension && k in r.extension ::
          q.extension[k] == r.extension[k])
  }

  /** What may be committed: every parent is registered or proposed, every new id is new, every reused id is
      registered, and no declared property changes its type. */
  ghost predicate Committable(t: Schemas, n: Proposal) {
    && (forall e | e in n.added && e.subclassOf.Some? ::
          e.subclassOf.value in t || exists f :: f in n.added && f.id == e.subclassOf.value)
    && (forall e | e in n.added :: e.id !in t)
    && (forall r | r in n.reused :: r.id in t)
    && TypesKept(t, n.reused)
  }

  /** A reused entity's row with the properties of the extensions, and nothing else. */
  ghost predicate Extended(id: string, prior: Schema, reused: seq<Reuse>, later: Schema) {
    && later == prior.(properties := later.properties)
    && (forall k | k in prior.properties :: k in later.properties && later.properties[k] == prior.properties[k])
    && (forall r, k | r in reused && r.id == id && k in r.extension ::
          k in later.properties && later.properties[k] == r.extension[k])
    && (forall k | k in later.properties ::
          k in prior.properties || exists r :: r in reused && r.id == id && k in r.extension)
  }

  lemma TypesKeptStep(t: Schemas, reused: seq<Reuse>, next: Schemas)
    requires reused != [] && reused[0].id in t
    requires var r := reused[0];
             && (forall k | k in r.extension && k in t[r.id].properties :: r.extension[k] == t[r.id].properties[k])
             && next == t[r.id := t[r.id].(properties := t[r.id].properties + r.extension)]
    ensures TypesKept(t, reused) <==> TypesKept(next, reused[1..])
  {
    var first, rest := reused[0], reused[1..];
    assert forall r :: r in reused <==> r == first || r in rest;
    if TypesKept(t, reused) {
      forall r, k | r in rest && r.id in next && k in r.extension && k in next[r.id].properties
        ensures r.extension[k] == next[r.id].properties[k]
      {
        if r.id == first.id && k in first.extension { assert r in reused && first in reused; }
      }
    }
    if TypesKept(next, rest) {
      forall r, k | r in reused && r.id in t && k in r.extension && k in t[r.id].properties
        ensures r.extension[k] == t[r.id].properties[k]
      {
        if r != first { assert next[r.id].properties[k] == t[r.id].properties[k]; }
      }
      forall q, r, k | q in reused && r in reused && q.id == r.id && k in q.extension && k in r.extension
        ensures q.extension[k] == r.extension[k]
      {
        if q == first && r != first { assert next[r.id].properties[k] == q.extension[k]; }
        if r == first && q != first { assert next[q.id].properties[k] == r.extension[k]; }
      }
    }
  }

  lemma ExtendedStep(id: string, prior: Schema, mid: Schema, later: Schema, reused: seq<Reuse>)
    requires reused != [] && Extended(id, mid, reused[1..], later)
    requires var r := reused[0];
             if id == r.id then
               && mid == prior.(properties := prior.properties + r.extension)
               && forall k | k in r.extension && k in prior.properties :: r.extension[k] == prior.properties[k]
             else mid == prior
    ensures Extended(id, prior, reused, later)
  {
    var first, rest := reused[0], reused[1..];
    assert forall r :: r in reused <==> r == first || r in rest;
  }

  /** The extensions of a proposal: when they are accepted, and what they write. */
  lemma {:induction false} ExtendMeans(t: Schemas, reused: seq<Reuse>)
    ensures ExtendAll(t, reused).Ok? <==> (forall r | r in reused :: r.id in t) && TypesKept(t, reused)
    ensures ExtendAll(t, reused).Ok? ==>
              var u := ExtendAll(t, reused).value;
              u.Keys == t.Keys && forall id | id in t :: Extended(id, t[id], reused, u[id])
    decreases reused
  {
    if reused != [] && reused[0].id in t {
      var r := reused[0];
      assert r in reused;
      if k :| k in r.extension && k in t[r.id].properties && t[r.id].properties[k] != r.extension[k] {
        assert ExtendAll(t, reused) == Err(PropertyTypeChanged);
      } else {
        var next := t[r.id := t[r.id].(properties := t[r.id].properties + r.extension)];
        assert next.Keys == t.Keys;
        ExtendMeans(next, reused[1..]);
        TypesKeptStep(t, reused, next);
        assert ExtendAll(t, reused) == ExtendAll(next, reused[1..]);
        assert forall q :: q in reused <==> q == r || q in reused[1..];
        if ExtendAll(t, reused).Ok? {
          var u := ExtendAll(t, reused).value;
          forall id | id in t ensures Extended(id, t[id], reused, u[id]) {
            ExtendedStep(id, t[id], next[id], u[id], reused);
          }
        }
      }
    } else if reused != [] {
      assert reused[0] in reused;
    }
  }

  // ---- What a commit writes --------------------------------------------------------------------------

  /** The row of a new entity: what was proposed, in the user's ontology and not in the core. */
  ghost predicate Registers(e: NewEntity, now: string, row: Schema) {
    && row.id == e.id && row.name == e.name && row.description == e.description
    && row.properties == e.properties
    && row.ontologyId == ONTOLOGY_ID && row.ontologyIri == e.ontologyIri && row.source == e.source
    && row.equivalentTo == e.equivalentTo && row.subclassOf == e.subclassOf
    && row.isAbstract == e.isAbstract && row.dataScope == e.dataScope
    && !row.isCore && row.createdAt == now
  }

  /** The last entity a proposal has under its id. */
  ghost predicate LastOfId(added: seq<NewEntity>, i: nat) {
    i < |added| && forall j | i < j < |added| :: added[j].id != added[i].id
  }

  lemma {:induction false} InsertMeans(t: Schemas, added: seq<NewEntity>, now: string)
    ensures var u := InsertAll(t, added, now);
            && u.Keys == t.Keys + NewIds(added)
            && (forall id | id in t && id !in NewIds(added) :: u[id] == t[id])
            && (forall i: nat | LastOfId(added, i) :: added[i].id in u && Registers(added[i], now, u[added[i].id]))
    decreases added
  {
    InsertWrites(t, added, now);
    if added != [] {
      var next := t[added[0].id := Row(added[0], now)];
      var rest := added[1..];
      InsertMeans(next, rest, now);
      var u := InsertAll(t, added, now);
      assert forall e :: e in added <==> e == added[0] || e in rest;
      forall i: nat | LastOfId(added, i) ensures added[i].id in u && Registers(added[i], now, u[added[i].id]) {
        if i > 0 {
          assert added[i] == rest[i - 1];
          forall j | i - 1 < j < |rest| ensures rest[j].id != rest[i - 1].id { assert rest[j] == added[j + 1]; }
          assert LastOfId(rest, i - 1);
        } else {
          forall e | e in rest ensures e.id != added[0].id {
            var j :| 0 <= j < |rest| && rest[j] == e;
            assert rest[j] == added[j + 1];
          }
        }
      }
    }
  }

  lemma ParentsMean(t: Schemas, added: seq<NewEntity>)
    ensures ParentsAvailable(t, added) <==>
            forall e | e in added && e.subclassOf.Some? ::
              e.subclassOf.value in t || exists f :: f in added && f.id == e.subclassOf.value
  {
  }

  /** A commit accepts exactly what may be committed. */
  lemma CommitAccepts(t: Schemas, n: Proposal, now: string)
    ensures CommitSchemas(t, n, now).Ok? <==> Committable(t, n)
  {
    ParentsMean(t, n.added);
    ExtendMeans(t, n.reused);
    if e :| e in n.added && e.id in t { assert e.id in NewIds(n.added); }
  }

  /** The table it leaves: each new id holds the last entity proposed under it, each registered row gains the
      properties of its extensions and changes in nothing else, and there are no other rows. */
  lemma CommitWrites(t: Schemas, n: Proposal, now: string)
    requires CommitSchemas(t, n, now).Ok?
    ensures var u := CommitSchemas(t, n, now).value.schemas;
            && (forall id :: id in u <==> id in t || exists e :: e in n.added && e.id == id)
            && (forall id | id in t :: Extended(id, t[id], n.reused, u[id]))
            && (forall i: nat | LastOfId(n.added, i) :: Registers(n.added[i], now, u[n.added[i].id]))
  {
    ExtendMeans(t, n.reused);
    var extended := ExtendAll(t, n.reused).value;
    InsertMeans(extended, n.added, now);
    var u := CommitSchemas(t, n, now).value.schemas;
    forall id | id in t ensures id in u && Extended(id, t[id], n.reused, u[id]) { assert u[id] == extended[id]; }
  }

  /** A creation whose properties are typed is accepted and stores them; only `namespace` may be derived. */
  lemma TypedCreation(h: Host, t: Schemas, s: State, id: string, kind: string, properties: Props)
    requires id != "" && kind != "" && kind in t && Typed(t[kind], properties)
    ensures var done := Step(h, t, s, CreateNode(id, kind, properties));
            && done.Ok? && id in done.value.state.nodes
            && done.value.state.nodes[id].kind == kind
            && forall k | k in properties && k != NAMESPACE ::
                 Get(done.value.state.nodes[id].properties, k) == Some(properties[k])
  {
    CoercionFixpoints(h, t[kind], properties);
  }

  lemma RegisteredTypes(e: NewEntity, n: NewEntity, now: string, row: Schema, properties: Props)
    requires ReadsAs(e, n) && Registers(n, now, row) && !n.isAbstract
    requires forall k | k in properties :: k in n.properties && HasType(n.properties[k], properties[k])
    ensures n.id != "" && Typed(row, properties)
  {
  }

  /** An entity just proposed classifies records: unless it is abstract, a creation whose properties have the
      proposed types is accepted and stored with those properties. */
  lemma NewEntityAccepts(h: Host, t: Schemas, p: Proposal, n: Proposal, now: string, i: nat,
                         s: State, id: string, properties: Props)
    requires Normalize(p) == Ok(n) && CommitSchemas(t, n, now).Ok?
    requires LastOfId(n.added, i) && !n.added[i].isAbstract && id != ""
    requires var e := n.added[i];
             forall k | k in properties :: k in e.properties && HasType(e.properties[k], properties[k])
    ensures var done := Step(h, CommitSchemas(t, n, now).value.schemas, s, CreateNode(id, n.added[i].id, properties));
            && done.Ok? && id in done.value.state.nodes
            && done.value.state.nodes[id].kind == n.added[i].id
            && forall k | k in properties && k != NAMESPACE ::
                 Get(done.value.state.nodes[id].properties, k) == Some(properties[k])
  {
    ProposalMeans(p, n);
    CommitWrites(t, n, now);
    var e, u := n.added[i], CommitSchemas(t, n, now).value.schemas;
    assert e in n.added;
    RegisteredTypes(p.added[i], e, now, u[e.id], properties);
    TypedCreation(h, u, s, id, e.id, properties);
  }

  lemma ExtendedTypes(id: string, prior: Schema, reused: seq<Reuse>, later: Schema, r: Reuse, k: string, v: Value)
    requires Extended(id, prior, reused, later) && Usable(prior)
    requires r in reused && r.id == id && k in r.extension && HasType(r.extension[k], v)
    ensures Typed(later, map[k := v])
  {
  }

  /** A property that a proposal adds to a registered entity can be stored from then on. */
  lemma ExtensionAccepts(h: Host, t: Schemas, n: Proposal, now: string, r: Reuse, k: string, v: Value,
                         s: State, id: string)
    requires CommitSchemas(t, n, now).Ok? && r in n.reused && k in r.extension && HasType(r.extension[k], v)
    requires r.id in t && Usable(t[r.id]) && r.id != "" && id != ""
    ensures Step(h, CommitSchemas(t, n, now).value.schemas, s, CreateNode(id, r.id, map[k := v])).Ok?
  {
    CommitWrites(t, n, now);
    var u := CommitSchemas(t, n, now).value.schemas;
    ExtendedTypes(r.id, t[r.id], n.reused, u[r.id], r, k, v);
    TypedCreation(h, u, s, id, r.id, map[k := v]);
  }
}
