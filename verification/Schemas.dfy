/** Schema proposals: normalisation, preview, commit and conditional restoration. */
module SchemaProposals {
  import opened Basics
  import opened Ontology
  import opened Graph
  import opened Text

  // ---- Proposals -----------------------------------------------------------------------------------

  datatype Reuse = Reuse(id: string, extension: map<string, PropType>, dataScope: string)

  /** A new entity as proposed: empty texts mean "not given". */
  datatype NewEntity = NewEntity(
    id: string,
    name: string,
    description: string,
    properties: map<string, PropType>,
    ontologyIri: string,
    source: string,
    equivalentTo: seq<string>,
    subclassOf: Option<string>,
    isAbstract: bool,
    dataScope: string)

  datatype Proposal = Proposal(reused: seq<Reuse>, added: seq<NewEntity>)

  /** First occurrences of the stripped texts, in order. */
  function StripDistinct(texts: seq<string>): seq<string> {
    if texts == [] then []
    else
      var before := StripDistinct(texts[..|texts| - 1]);
      var last := Strip(texts[|texts| - 1]);
      if last in before then before else before + [last]
  }

  predicate PropertyNamesGiven(p: map<string, PropType>) {
    forall k | k in p :: !Blank(k)
  }

  function NormalizeReuse(r: Reuse): Result<Reuse> {
    if Blank(r.id) || !PropertyNamesGiven(r.extension) then Err(BlankText)
    else if r.dataScope != USER_CONTEXT_SCOPE then Err(NotUserContext)
    else Ok(r)
  }

  function NormalizeNew(e: NewEntity): Result<NewEntity> {
    var parent := if e.subclassOf.Some? then Some(Strip(e.subclassOf.value)) else None;
    var iri := if e.ontologyIri == "" then "urn:ambient:ontology:" + e.id else e.ontologyIri;
    if Blank(e.id) || !PropertyNamesGiven(e.properties) then Err(BlankText)
    else if e.dataScope != USER_CONTEXT_SCOPE then Err(NotUserContext)
    else if e.subclassOf.Some? && Blank(e.subclassOf.value) then Err(BlankText)
    else if parent == Some(e.id) then Err(OwnParent)
    else if Blank(iri) || exists i :: 0 <= i < |e.equivalentTo| && Blank(e.equivalentTo[i]) then Err(BlankText)
    else Ok(e.(name := if e.name == "" then e.id else e.name,
               source := if e.source == "" then "ambient-context" else e.source,
               ontologyIri := Strip(iri),
               equivalentTo := StripDistinct(e.equivalentTo),
               subclassOf := parent))
  }

  function NormalizeAllReuse(rs: seq<Reuse>): Result<seq<Reuse>> {
    if rs == [] then Ok([])
    else
      var first := NormalizeReuse(rs[0]);
      var rest := NormalizeAllReuse(rs[1..]);
      if first.Err? then Err(first.error) else if rest.Err? then rest else Ok([first.value] + rest.value)
  }

  function NormalizeAllNew(es: seq<NewEntity>): Result<seq<NewEntity>> {
    if es == [] then Ok([])
    else
      var first := NormalizeNew(es[0]);
      var rest := NormalizeAllNew(es[1..]);
      if first.Err? then Err(first.error) else if rest.Err? then rest else Ok([first.value] + rest.value)
  }

  function Normalize(p: Proposal): Result<Proposal> {
    var reused := NormalizeAllReuse(p.reused);
    if reused.Err? then Err(reused.error)
    else
      var added := NormalizeAllNew(p.added);
      if added.Err? then Err(added.error) else Ok(Proposal(reused.value, added.value))
  }

  function NewIds(added: seq<NewEntity>): set<string> {
    set e | e in added :: e.id
  }

  function ReusedIds(reused: seq<Reuse>): set<string> {
    set r | r in reused :: r.id
  }

  predicate ParentsAvailable(t: Schemas, added: seq<NewEntity>) {
    forall e | e in added :: e.subclassOf.Some? ==> e.subclassOf.value in t.Keys + NewIds(added)
  }

  /** Adding properties; a declared property keeps its type. */
  function MergeProperties(current: map<string, PropType>, extension: map<string, PropType>)
    : Result<map<string, PropType>>
  {
    if exists k :: k in extension && k in current && current[k] != extension[k] then Err(PropertyTypeChanged)
    else Ok(current + extension)
  }

  function Row(e: NewEntity, now: string): Schema {
    Schema(e.id, e.name, e.description, e.properties, false, ONTOLOGY_ID, e.ontologyIri, e.source,
           e.equivalentTo, e.subclassOf, e.isAbstract, e.dataScope, now)
  }

  function ExtendAll(t: Schemas, reused: seq<Reuse>): Result<Schemas>
    decreases reused
  {
    if reused == [] then Ok(t)
    else
      var r := reused[0];
      if r.id !in t then Err(Unregistered)
      else
        var merged := MergeProperties(t[r.id].properties, r.extension);
        if merged.Err? then Err(merged.error)
        else ExtendAll(t[r.id := t[r.id].(properties := merged.value)], reused[1..])
  }

  /** The upserts of the commit: a second entity under one id overwrites the first. */
  function InsertAll(t: Schemas, added: seq<NewEntity>, now: string): Schemas
    decreases added
  {
    if added == [] then t else InsertAll(t[added[0].id := Row(added[0], now)], added[1..], now)
  }

  // ---- Preview -------------------------------------------------------------------------------------

  /** The overlay of the preview, which refuses an id it has already seen. */
  function OverlayAll(t: Schemas, added: seq<NewEntity>, now: string): Result<Schemas>
    decreases added
  {
    if added == [] then Ok(t)
    else if added[0].id in t then Err(AlreadyExists)
    else OverlayAll(t[added[0].id := Row(added[0], now)], added[1..], now)
  }

  /** The inventory with a proposal laid over it. Inventories do not show creation times; `now` only
      fills that column. */
  function EffectiveSchemas(t: Schemas, proposal: Proposal, now: string): Result<Schemas> {
    var n := Normalize(proposal);
    if n.Err? then Err(n.error)
    else if !ParentsAvailable(t, n.value.added) then Err(MissingParent)
    else
      var extended := ExtendAll(t, n.value.reused);
      if extended.Err? then extended else OverlayAll(extended.value, n.value.added, now)
  }

  // ---- Commit --------------------------------------------------------------------------------------

  type Snapshot = map<string, Option<Schema>>

  datatype SchemaResult = SchemaResult(proposal: Proposal, snapshot: Snapshot, after: Schemas)

  function SnapshotOf(t: Schemas, ids: set<string>): Snapshot {
    map id | id in ids :: if id in t then Some(t[id]) else None
  }

  function Touched(n: Proposal): set<string> {
    ReusedIds(n.reused) + NewIds(n.added)
  }

  datatype SchemaCommit = SchemaCommit(schemas: Schemas, result: SchemaResult)

  function CommitSchemas(t: Schemas, n: Proposal, now: string): Result<SchemaCommit> {
    if !ParentsAvailable(t, n.added) then Err(MissingParent)
    else if exists id :: id in NewIds(n.added) && id in t then Err(AlreadyExists)
    else
      var extended := ExtendAll(t, n.reused);
      if extended.Err? then Err(extended.error)
      else
        var done := InsertAll(extended.value, n.added, now);
        Ok(SchemaCommit(done, SchemaResult(n, SnapshotOf(t, Touched(n)),
                                           map id | id in Touched(n) && id in done :: done[id])))
  }

  predicate DistinctIds(added: seq<NewEntity>) {
    forall i, j | 0 <= i < j < |added| :: added[i].id != added[j].id
  }

  // ---- Preview equals commit -------------------------------------------------------------------------

  lemma {:induction false} ExtendKeepsKeys(t: Schemas, reused: seq<Reuse>)
    requires ExtendAll(t, reused).Ok?
    ensures ExtendAll(t, reused).value.Keys == t.Keys
    decreases reused
  {
    if reused != [] {
      var r := reused[0];
      var next := t[r.id := t[r.id].(properties := MergeProperties(t[r.id].properties, r.extension).value)];
      assert next.Keys == t.Keys;
      ExtendKeepsKeys(next, reused[1..]);
    }
  }

  /** The overlay succeeds exactly when the ids are new and distinct, and then it is the upserts. */
  lemma {:induction false} OverlayIsInsert(t: Schemas, added: seq<NewEntity>, now: string)
    ensures OverlayAll(t, added, now).Ok? <==> DistinctIds(added) && forall e | e in added :: e.id !in t
    ensures OverlayAll(t, added, now).Ok? ==> OverlayAll(t, added, now).value == InsertAll(t, added, now)
    decreases added
  {
    if added != [] {
      var next := t[added[0].id := Row(added[0], now)];
      OverlayIsInsert(next, added[1..], now);
      if added[0].id !in t {
        if DistinctIds(added[1..]) && forall e | e in added[1..] :: e.id !in next {
          forall i, j | 0 <= i < j < |added| ensures added[i].id != added[j].id {
            if i == 0 { assert added[j] == added[1..][j - 1] && added[1..][j - 1] in added[1..]; }
            else { assert added[i] == added[1..][i - 1] && added[j] == added[1..][j - 1]; }
          }
          forall e | e in added ensures e.id !in t {
            if e != added[0] { assert e in added[1..]; }
          }
        }
        if DistinctIds(added) && forall e | e in added :: e.id !in t {
          forall e | e in added[1..] ensures e.id !in next {
            var j :| 0 <= j < |added[1..]| && added[1..][j] == e;
            assert added[j + 1] == e && added[0].id != added[j + 1].id;
          }
        }
      }
    }
  }

  /** Preview equals commit. On one table the preview succeeds exactly when the commit does and the
      proposal names no new id twice, and then it shows the table the commit leaves. */
  lemma PreviewEqualsCommit(t: Schemas, proposal: Proposal, now: string)
    requires Normalize(proposal).Ok?
    ensures var n := Normalize(proposal).value;
            var preview, commit := EffectiveSchemas(t, proposal, now), CommitSchemas(t, n, now);
            && (preview.Ok? <==> commit.Ok? && DistinctIds(n.added))
            && (preview.Ok? ==> preview.value == commit.value.schemas)
  {
    var n := Normalize(proposal).value;
    if ExtendAll(t, n.reused).Ok? {
      ExtendKeepsKeys(t, n.reused);
      OverlayIsInsert(ExtendAll(t, n.reused).value, n.added, now);
      forall e | e in n.added ensures e.id in NewIds(n.added) {}
    }
  }

  lemma NormalizeTwice(e: NewEntity, n: NewEntity)
    requires NormalizeNew(e) == Ok(n)
    ensures NormalizeAllNew([e, e]) == Ok([n, n])
  {
    assert [e][1..] == [] && NormalizeAllNew([]) == Ok([]);
    assert [n] + [] == [n];
    assert NormalizeAllNew([e]) == Ok([n]);
    assert [e, e][1..] == [e];
    assert [n] + [n] == [n, n];
  }

  /** The distinctness condition is real: any acceptable root entity proposed twice commits and has no
      preview. */
  lemma RepeatedIdHasNoPreview(t: Schemas, e: NewEntity, now: string)
    requires NormalizeNew(e).Ok? && e.subclassOf.None? && e.id !in t
    ensures var p := Proposal([], [e, e]);
            && Normalize(p).Ok?
            && CommitSchemas(t, Normalize(p).value, now).Ok?
            && EffectiveSchemas(t, p, now).Err?
  {
    var n := NormalizeNew(e).value;
    NormalizeTwice(e, n);
    assert n.id == e.id && n.subclassOf.None?;
    assert NewIds([n, n]) == {e.id};
    assert [n, n][0].id == [n, n][1].id;
    PreviewEqualsCommit(t, Proposal([], [e, e]), now);
  }
}
