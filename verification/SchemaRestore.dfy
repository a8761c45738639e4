/** Conditional restoration of the schema rows a proposal touched. */
module SchemaRestore {
  import opened Basics
  import opened Ontology
  import opened Graph
  import opened SchemaProposals

  /** The entities a restoration takes away again. */
  function RemovedEntities(snapshot: Snapshot): set<string> {
    set id | id in snapshot && snapshot[id].None?
  }

  function AddedFields(prior: Option<Schema>, after: Schema): set<string> {
    after.properties.Keys - (if prior.Some? then prior.value.properties.Keys else {})
  }

  /** No stored record needs the entity, or one of the fields it was given. */
  predicate Unused(nodes: map<string, Node>, id: string, prior: Option<Schema>, after: Schema) {
    forall n | n in nodes && nodes[n].kind == id ::
      prior.Some? && AddedFields(prior, after) !! nodes[n].properties.Keys
  }

  /** The checks one touched row must pass. */
  predicate MayRestore(t: Schemas, nodes: map<string, Node>, snapshot: Snapshot, after: Schemas, id: string)
    requires id in snapshot && id in after
  {
    && id in t && t[id] == after[id]
    && Unused(nodes, id, snapshot[id], after[id])
    && (snapshot[id].None? ==> forall c | c in t && t[c].subclassOf == Some(id) :: c in RemovedEntities(snapshot))
  }

  function Restored(t: Schemas, snapshot: Snapshot): Schemas {
    (t - RemovedEntities(snapshot)) + map id | id in snapshot && snapshot[id].Some? :: snapshot[id].value
  }

  function Restore(t: Schemas, nodes: map<string, Node>, snapshot: Snapshot, after: Schemas): Result<Schemas>
  {
    if exists id :: id in after && !(id in snapshot && MayRestore(t, nodes, snapshot, after, id)) then Err(Conflict)
    else Ok(Restored(t, snapshot))
  }

  // ---- What a commit records -------------------------------------------------------------------------

  /** A row that only gained properties. */
  predicate Grown(prior: Schema, later: Schema) {
    && later == prior.(properties := later.properties)
    && forall k | k in prior.properties :: k in later.properties && later.properties[k] == prior.properties[k]
  }

  /** Evidence as a commit writes it: the same rows before and after, the old ones only grown. */
  ghost predicate EvidenceOk(snapshot: Snapshot, after: Schemas) {
    && after.Keys == snapshot.Keys
    && forall id | id in snapshot && snapshot[id].Some? :: Grown(snapshot[id].value, after[id])
  }

  lemma {:induction false} ExtendGrows(t: Schemas, reused: seq<Reuse>)
    requires ExtendAll(t, reused).Ok?
    ensures var u := ExtendAll(t, reused).value;
            && u.Keys == t.Keys && ReusedIds(reused) <= t.Keys
            && (forall id | id in t :: Grown(t[id], u[id]))
            && (forall id | id in t && id !in ReusedIds(reused) :: u[id] == t[id])
    decreases reused
  {
    if reused != [] {
      var r := reused[0];
      var next := t[r.id := t[r.id].(properties := MergeProperties(t[r.id].properties, r.extension).value)];
      assert next.Keys == t.Keys;
      ExtendGrows(next, reused[1..]);
      var u := ExtendAll(next, reused[1..]).value;
      forall id | id in t ensures Grown(t[id], u[id]) {
        assert Grown(t[id], next[id]) && Grown(next[id], u[id]);
      }
      forall x ensures x in reused <==> x == r || x in reused[1..] {}
      assert ReusedIds(reused) == {r.id} + ReusedIds(reused[1..]);
    }
  }

  lemma {:induction false} InsertWrites(t: Schemas, added: seq<NewEntity>, now: string)
    ensures var u := InsertAll(t, added, now);
            && u.Keys == t.Keys + NewIds(added)
            && (forall id | id in t && id !in NewIds(added) :: u[id] == t[id])
            && (forall id | id in NewIds(added) :: exists e :: e in added && e.id == id && u[id] == Row(e, now))
    decreases added
  {
    if added != [] {
      var first, rest := added[0], added[1..];
      var next := t[first.id := Row(first, now)];
      InsertWrites(next, rest, now);
      forall x ensures x in added <==> x == first || x in rest {}
      assert NewIds(added) == {first.id} + NewIds(rest);
      var u := InsertAll(next, rest, now);
      forall id | id in NewIds(added) ensures exists e :: e in added && e.id == id && u[id] == Row(e, now) {
        if id in NewIds(rest) {
          var e :| e in rest && e.id == id && u[id] == Row(e, now);
          assert e in added;
        } else {
          assert u[id] == Row(first, now);
        }
      }
    }
  }

  /** What a proposal does to the table: touched rows grow or appear, everything else stays. */
  ghost predicate TableGrows(t: Schemas, n: Proposal, c: SchemaCommit) {
    && c.schemas.Keys == t.Keys + NewIds(n.added)
    && NewIds(n.added) !! t.Keys
    && ReusedIds(n.reused) <= t.Keys
    && (forall id | id in t :: Grown(t[id], c.schemas[id]))
    && (forall id | id in t && id !in ReusedIds(n.reused) :: c.schemas[id] == t[id])
    && c.result.snapshot == SnapshotOf(t, Touched(n))
    && c.result.after == map id | id in Touched(n) :: c.schemas[id]
  }

  lemma CommitGrows(t: Schemas, n: Proposal, now: string)
    requires CommitSchemas(t, n, now).Ok?
    ensures TableGrows(t, n, CommitSchemas(t, n, now).value)
    ensures EvidenceOk(CommitSchemas(t, n, now).value.result.snapshot, CommitSchemas(t, n, now).value.result.after)
  {
    ExtendGrows(t, n.reused);
    InsertWrites(ExtendAll(t, n.reused).value, n.added, now);
    forall id | id in NewIds(n.added) ensures id !in t {}
  }

  // ---- Invariants of table and records ---------------------------------------------------------------

  /** Every record's type is registered and every stored property is declared. */
  ghost predicate Registered(t: Schemas, nodes: map<string, Node>) {
    forall n | n in nodes ::
      nodes[n].kind in t && nodes[n].properties.Keys <= Declared(t[nodes[n].kind]).Keys
  }

  /** Every parent reference resolves. */
  ghost predicate ParentsOk(t: Schemas) {
    forall id | id in t && t[id].subclassOf.Some? :: t[id].subclassOf.value in t
  }

  lemma CommitKeepsTable(t: Schemas, n: Proposal, now: string, nodes: map<string, Node>)
    requires CommitSchemas(t, n, now).Ok?
    requires Registered(t, nodes) && ParentsOk(t)
    ensures var u := CommitSchemas(t, n, now).value.schemas;
            Registered(u, nodes) && ParentsOk(u)
  {
    CommitGrows(t, n, now);
    var u := CommitSchemas(t, n, now).value.schemas;
    ExtendGrows(t, n.reused);
    InsertWrites(ExtendAll(t, n.reused).value, n.added, now);
    forall m | m in nodes ensures nodes[m].properties.Keys <= Declared(u[nodes[m].kind]).Keys {
      assert Grown(t[nodes[m].kind], u[nodes[m].kind]);
    }
    forall id | id in u && u[id].subclassOf.Some? ensures u[id].subclassOf.value in u {
      if id in NewIds(n.added) {
        var e :| e in n.added && u[id] == Row(e, now);
      } else {
        assert Grown(t[id], u[id]);
      }
    }
  }

  /** The proposal declares `namespace`, if at all, as the text it already is. */
  predicate NamespaceSafe(n: Proposal) {
    && (forall r | r in n.reused :: NAMESPACE in r.extension ==> r.extension[NAMESPACE] == PString)
    && (forall e | e in n.added :: NAMESPACE in e.properties ==> e.properties[NAMESPACE] == PString)
  }

  lemma {:induction false} GrownExtends(t: Schemas, u: Schemas)
    requires TextNamespaces(t) && TextNamespaces(u)
    requires forall id | id in t :: id in u && Grown(t[id], u[id])
    ensures Extends(u, t)
  {
    forall id | id in t
      ensures Usable(t[id]) ==> Usable(u[id])
      ensures forall k | k in Declared(t[id]) :: k in Declared(u[id]) && Declared(u[id])[k] == Declared(t[id])[k]
    {
      assert Grown(t[id], u[id]);
    }
  }

  /** Growth alone keeps what every graph satisfies, whatever is declared about `namespace`. */
  lemma {:induction false} GrownKeepsLoose(t: Schemas, u: Schemas, s: State)
    requires forall id | id in t :: id in u && Grown(t[id], u[id])
    requires LooseRows(t, s)
    ensures LooseRows(u, s)
  {
    forall n | n in s.nodes ensures LooseRow(u, s.nodes[n]) {
      assert LooseRow(t, s.nodes[n]) && Grown(t[s.nodes[n].kind], u[s.nodes[n].kind]);
    }
  }

  lemma {:induction false} InsertKeepsText(t: Schemas, added: seq<NewEntity>, now: string)
    requires TextNamespaces(t)
    requires forall e | e in added :: NAMESPACE in e.properties ==> e.properties[NAMESPACE] == PString
    ensures TextNamespaces(InsertAll(t, added, now))
    decreases added
  {
    if added != [] {
      assert added[0] in added;
      InsertKeepsText(t[added[0].id := Row(added[0], now)], added[1..], now);
    }
  }

  /** Every proposal keeps type ids visible and what every graph satisfies. */
  lemma CommitKeepsLoose(t: Schemas, n: Proposal, now: string, c: SchemaCommit, s: State)
    requires CommitSchemas(t, n, now) == Ok(c) && TableOk(t) && LooseRows(t, s)
    requires forall e | e in n.added :: !Blank(e.id)
    ensures TableOk(c.schemas) && LooseRows(c.schemas, s)
  {
    CommitGrows(t, n, now);
    GrownKeepsLoose(t, c.schemas, s);
  }

  /** A proposal that leaves `namespace` text extends the table in the sense well-formed rows rely on. */
  lemma CommitExtends(t: Schemas, n: Proposal, now: string, c: SchemaCommit)
    requires CommitSchemas(t, n, now) == Ok(c) && TextNamespaces(t) && NamespaceSafe(n)
    ensures Extends(c.schemas, t) && TextNamespaces(c.schemas)
  {
    CommitGrows(t, n, now);
    NamespaceStaysText(t, n.reused);
    InsertKeepsText(ExtendAll(t, n.reused).value, n.added, now);
    GrownExtends(t, c.schemas);
  }

  lemma {:induction false} NamespaceStaysText(t: Schemas, reused: seq<Reuse>)
    requires ExtendAll(t, reused).Ok? && TextNamespaces(t)
    requires forall r | r in reused :: NAMESPACE in r.extension ==> r.extension[NAMESPACE] == PString
    ensures TextNamespaces(ExtendAll(t, reused).value)
    decreases reused
  {
    if reused != [] {
      var r := reused[0];
      assert r in reused;
      NamespaceStaysText(
        t[r.id := t[r.id].(properties := MergeProperties(t[r.id].properties, r.extension).value)], reused[1..]);
    }
  }

  lemma {:induction false} RestoreKeepsRegistered(
      t: Schemas, nodes: map<string, Node>, snapshot: Snapshot, after: Schemas)
    requires EvidenceOk(snapshot, after) && Restore(t, nodes, snapshot, after).Ok?
    requires Registered(t, nodes)
    ensures Registered(Restored(t, snapshot), nodes)
  {
    var u := Restored(t, snapshot);
    forall n | n in nodes
      ensures nodes[n].kind in u && nodes[n].properties.Keys <= Declared(u[nodes[n].kind]).Keys
    {
      var id := nodes[n].kind;
      if id in snapshot {
        assert MayRestore(t, nodes, snapshot, after, id);
        assert AddedFields(snapshot[id], after[id]) !! nodes[n].properties.Keys;
      }
    }
  }

  lemma {:induction false} RestoreKeepsParents(
      t: Schemas, nodes: map<string, Node>, snapshot: Snapshot, after: Schemas)
    requires EvidenceOk(snapshot, after) && Restore(t, nodes, snapshot, after).Ok?
    requires ParentsOk(t)
    ensures ParentsOk(Restored(t, snapshot))
  {
    var u := Restored(t, snapshot);
    forall id | id in u && u[id].subclassOf.Some? ensures u[id].subclassOf.value in u {
      var parent := u[id].subclassOf.value;
      if id in snapshot { assert MayRestore(t, nodes, snapshot, after, id); }
      assert id in t && t[id].subclassOf == Some(parent);
      assert parent in after ==> MayRestore(t, nodes, snapshot, after, parent);
    }
  }

  /** Rows stay valid too: what a record holds was declared, with the same type, before the proposal. */
  lemma {:induction false} RestoreKeepsRows(
      t: Schemas, s: State, snapshot: Snapshot, after: Schemas)
    requires EvidenceOk(snapshot, after) && Restore(t, s.nodes, snapshot, after).Ok?
    requires RowsOk(t, s)
    ensures RowsOk(Restored(t, snapshot), s)
  {
    var u := Restored(t, snapshot);
    forall n | n in s.nodes ensures RowOk(u, s.nodes[n]) {
      assert RowOk(t, s.nodes[n]);
      var id := s.nodes[n].kind;
      if id in snapshot {
        assert MayRestore(t, s.nodes, snapshot, after, id);
        assert AddedFields(snapshot[id], after[id]) !! s.nodes[n].properties.Keys;
        assert Grown(u[id], t[id]);
      }
    }
  }

  /** So are the rows of every graph, whatever was declared about `namespace`. */
  lemma {:induction false} RestoreKeepsLoose(
      t: Schemas, s: State, snapshot: Snapshot, after: Schemas)
    requires EvidenceOk(snapshot, after) && Restore(t, s.nodes, snapshot, after).Ok?
    requires LooseRows(t, s)
    ensures LooseRows(Restored(t, snapshot), s)
  {
    var u := Restored(t, snapshot);
    forall n | n in s.nodes ensures LooseRow(u, s.nodes[n]) {
      assert LooseRow(t, s.nodes[n]);
      var id := s.nodes[n].kind;
      if id in snapshot {
        assert MayRestore(t, s.nodes, snapshot, after, id);
        assert AddedFields(snapshot[id], after[id]) !! s.nodes[n].properties.Keys;
        assert Grown(u[id], t[id]);
      }
    }
  }

  /** One row of a restored table. */
  lemma {:induction false} RestoredRow(later: Schemas, snapshot: Snapshot, id: string)
    ensures SchemaOf(Restored(later, snapshot), id) ==
              if id in snapshot then snapshot[id] else SchemaOf(later, id)
  {
    assert id in RemovedEntities(snapshot) <==> id in snapshot && snapshot[id].None?;
  }

  lemma {:induction false} RestoreReverts(t: Schemas, n: Proposal, c: SchemaCommit, later: Schemas)
    requires c.result.snapshot == SnapshotOf(t, Touched(n))
    ensures var u := Restored(later, c.result.snapshot);
            && (forall id | id in Touched(n) :: SchemaOf(u, id) == SchemaOf(t, id))
            && (forall id | id !in Touched(n) :: SchemaOf(u, id) == SchemaOf(later, id))
  {
    var u := Restored(later, c.result.snapshot);
    forall id ensures id in Touched(n) ==> SchemaOf(u, id) == SchemaOf(t, id)
              ensures id !in Touched(n) ==> SchemaOf(u, id) == SchemaOf(later, id) {
      RestoredRow(later, c.result.snapshot, id);
    }
  }

  /** Schema compensation. Restoring the snapshot of a committed proposal, in any later table and over
      any later records, brings every touched row back to what it was before the proposal and leaves
      every other row as it is; types stay registered, properties declared and parents resolvable. */
  lemma SchemaCompensation(
      t: Schemas, n: Proposal, now: string, c: SchemaCommit, later: Schemas, s: State)
    requires CommitSchemas(t, n, now) == Ok(c)
    requires Registered(later, s.nodes) && ParentsOk(later)
    ensures c.result.after.Keys == c.result.snapshot.Keys == Touched(n)
    ensures Restore(later, s.nodes, c.result.snapshot, c.result.after).Ok? ==>
              var u := Restore(later, s.nodes, c.result.snapshot, c.result.after).value;
              && (forall id | id in Touched(n) :: SchemaOf(u, id) == SchemaOf(t, id))
              && (forall id | id !in Touched(n) :: SchemaOf(u, id) == SchemaOf(later, id))
              && Registered(u, s.nodes) && ParentsOk(u)
              && (RowsOk(later, s) ==> RowsOk(u, s)) && (LooseRows(later, s) ==> LooseRows(u, s))
  {
    CommitGrows(t, n, now);
    RestoreReverts(t, n, c, later);
    if Restore(later, s.nodes, c.result.snapshot, c.result.after).Ok? {
      RestoreKeepsRegistered(later, s.nodes, c.result.snapshot, c.result.after);
      RestoreKeepsParents(later, s.nodes, c.result.snapshot, c.result.after);
      if RowsOk(later, s) { RestoreKeepsRows(later, s, c.result.snapshot, c.result.after); }
      if LooseRows(later, s) { RestoreKeepsLoose(later, s, c.result.snapshot, c.result.after); }
    }
  }

  /** A record already stores the system property that a reused type is now declaring itself. */
  predicate NamespaceTaken(nodes: map<string, Node>, n: Proposal, c: SchemaCommit)
    requires c.result.after.Keys == c.result.snapshot.Keys == Touched(n)
  {
    exists m :: m in nodes && nodes[m].kind in Touched(n) && NAMESPACE in nodes[m].properties
      && NAMESPACE in AddedFields(c.result.snapshot[nodes[m].kind], c.result.after[nodes[m].kind])
  }

  lemma {:induction false} ImmediatelyUnused(
      t: Schemas, n: Proposal, c: SchemaCommit, nodes: map<string, Node>, id: string)
    requires TableGrows(t, n, c) && Registered(t, nodes)
    requires c.result.after.Keys == c.result.snapshot.Keys == Touched(n)
    requires id in Touched(n) && !NamespaceTaken(nodes, n, c)
    ensures Unused(nodes, id, c.result.snapshot[id], c.result.after[id])
  {
    forall m | m in nodes && nodes[m].kind == id
      ensures c.result.snapshot[id].Some?
      ensures AddedFields(c.result.snapshot[id], c.result.after[id]) !! nodes[m].properties.Keys
    {
      assert id in t && nodes[m].properties.Keys <= Declared(t[id]).Keys;
    }
  }

  lemma {:induction false} ImmediatelyChildless(t: Schemas, n: Proposal, c: SchemaCommit, id: string)
    requires TableGrows(t, n, c) && ParentsOk(t)
    requires id in Touched(n) && id !in t
    ensures forall child | child in c.schemas && c.schemas[child].subclassOf == Some(id) ::
              child in RemovedEntities(c.result.snapshot)
  {
    forall child | child in c.schemas && c.schemas[child].subclassOf == Some(id)
      ensures child in RemovedEntities(c.result.snapshot)
    {
      if child in t { assert Grown(t[child], c.schemas[child]); }
    }
  }

  lemma {:induction false} ImmediatelyRestorable(
      t: Schemas, n: Proposal, c: SchemaCommit, nodes: map<string, Node>)
    requires TableGrows(t, n, c) && Registered(t, nodes) && ParentsOk(t)
    requires c.result.after.Keys == c.result.snapshot.Keys == Touched(n)
    requires !NamespaceTaken(nodes, n, c)
    ensures Restore(c.schemas, nodes, c.result.snapshot, c.result.after) == Ok(t)
  {
    forall id | id in c.result.after ensures MayRestore(c.schemas, nodes, c.result.snapshot, c.result.after, id) {
      ImmediatelyUnused(t, n, c, nodes, id);
      if id !in t { ImmediatelyChildless(t, n, c, id); }
    }
    RestoreReverts(t, n, c, c.schemas);
    SameTable(Restored(c.schemas, c.result.snapshot), t, c.schemas, Touched(n));
  }

  lemma {:induction false} NamespaceBlocks(
      t: Schemas, n: Proposal, c: SchemaCommit, nodes: map<string, Node>)
    requires c.result.after.Keys == c.result.snapshot.Keys == Touched(n)
    requires NamespaceTaken(nodes, n, c)
    ensures Restore(c.schemas, nodes, c.result.snapshot, c.result.after).Err?
  {
    var snapshot, after := c.result.snapshot, c.result.after;
    var m :| m in nodes && nodes[m].kind in Touched(n) && NAMESPACE in nodes[m].properties
      && NAMESPACE in AddedFields(snapshot[nodes[m].kind], after[nodes[m].kind]);
    assert !Unused(nodes, nodes[m].kind, snapshot[nodes[m].kind], after[nodes[m].kind]);
    assert !MayRestore(c.schemas, nodes, snapshot, after, nodes[m].kind);
  }

  /** Restoring right after the commit gives the old table back, exactly unless a reused type was given
      its own `namespace` while a record of that type already stored the system property. */
  lemma ImmediateRestore(t: Schemas, n: Proposal, now: string, c: SchemaCommit, nodes: map<string, Node>)
    requires CommitSchemas(t, n, now) == Ok(c)
    requires Registered(t, nodes) && ParentsOk(t)
    ensures c.result.after.Keys == c.result.snapshot.Keys == Touched(n)
    ensures var back := Restore(c.schemas, nodes, c.result.snapshot, c.result.after);
            && (back.Ok? <==> !NamespaceTaken(nodes, n, c))
            && (back.Ok? ==> back.value == t)
  {
    CommitGrows(t, n, now);
    assert c.result.after.Keys == c.result.snapshot.Keys == Touched(n);
    if NamespaceTaken(nodes, n, c) {
      NamespaceBlocks(t, n, c, nodes);
    } else {
      ImmediatelyRestorable(t, n, c, nodes);
    }
  }

  /** Declares the system property for one type, as the text it already is. */
  function NamespaceProposal(kind: string): Proposal {
    Proposal([Reuse(kind, map[NAMESPACE := PString], USER_CONTEXT_SCOPE)], [])
  }

  lemma NamespaceProposalCommits(t: Schemas, kind: string, now: string)
    requires kind in t && !Blank(kind) && NAMESPACE !in t[kind].properties
    ensures var p := NamespaceProposal(kind);
            && Normalize(p) == Ok(p) && CommitSchemas(t, p, now).Ok? && Touched(p) == {kind}
            && kind in CommitSchemas(t, p, now).value.schemas
            && CommitSchemas(t, p, now).value.schemas[kind].properties == t[kind].properties[NAMESPACE := PString]
  {
    var reuse := NamespaceProposal(kind).reused[0];
    assert NAMESPACE[0] == 'n' && !Blank(NAMESPACE);
    assert [reuse][1..] == [] && NormalizeAllReuse([reuse][1..]) == Ok([]);
    assert [reuse] + [] == [reuse] && NormalizeAllNew([]) == Ok([]);
    var properties := MergeProperties(t[kind].properties, reuse.extension).value;
    assert properties == t[kind].properties[NAMESPACE := PString];
    var u := t[kind := t[kind].(properties := properties)];
    assert ExtendAll(u, []) == Ok(u) && ExtendAll(t, [reuse]) == Ok(u);
    assert ReusedIds([reuse]) == {kind};
    CommitGrows(t, NamespaceProposal(kind), now);
  }

  lemma NamespaceIsTaken(t: Schemas, n: Proposal, c: SchemaCommit, nodes: map<string, Node>, id: string)
    requires TableGrows(t, n, c) && c.result.after.Keys == c.result.snapshot.Keys == Touched(n)
    requires id in nodes && nodes[id].kind in t && nodes[id].kind in Touched(n) && NAMESPACE in nodes[id].properties
    requires NAMESPACE !in t[nodes[id].kind].properties && NAMESPACE in c.schemas[nodes[id].kind].properties
    ensures NamespaceTaken(nodes, n, c)
  {
  }

  /** A graph of one record that stores a namespace. */
  function OneRecord(id: string, kind: string, text: string): State {
    State(map[id := Node(kind, map[NAMESPACE := Str(text)], Some(Str(text)))], map[])
  }

  lemma OneRecordOk(t: Schemas, kind: string, id: string, text: string)
    requires kind in t && Usable(t[kind]) && NAMESPACE !in t[kind].properties && id != ""
    ensures WellFormed(t, OneRecord(id, kind, text))
  {
    assert RowOk(t, OneRecord(id, kind, text).nodes[id]);
  }

  /** Such a record is easily had: in every table, over one record that stores a namespace, declaring
      `namespace` for its type as the text it already is commits and cannot be restored. */
  lemma NamespaceCanBeTaken(t: Schemas, kind: string, id: string, text: string, now: string)
    requires kind in t && !Blank(kind) && Usable(t[kind]) && NAMESPACE !in t[kind].properties && id != ""
    ensures WellFormed(t, OneRecord(id, kind, text))
    ensures var c := CommitSchemas(t, NamespaceProposal(kind), now);
            && c.Ok? && Normalize(NamespaceProposal(kind)) == Ok(NamespaceProposal(kind))
            && Restore(c.value.schemas, OneRecord(id, kind, text).nodes, c.value.result.snapshot, c.value.result.after).Err?
  {
    OneRecordOk(t, kind, id, text);
    NamespaceProposalCommits(t, kind, now);
    var n := NamespaceProposal(kind);
    CommitGrows(t, n, now);
    var c := CommitSchemas(t, n, now).value;
    BlockedByRecord(t, n, c, OneRecord(id, kind, text).nodes, id);
  }

  lemma BlockedByRecord(t: Schemas, n: Proposal, c: SchemaCommit, nodes: map<string, Node>, id: string)
    requires TableGrows(t, n, c) && c.result.after.Keys == c.result.snapshot.Keys == Touched(n)
    requires id in nodes && nodes[id].kind in t && nodes[id].kind in Touched(n) && NAMESPACE in nodes[id].properties
    requires NAMESPACE !in t[nodes[id].kind].properties && NAMESPACE in c.schemas[nodes[id].kind].properties
    ensures Restore(c.schemas, nodes, c.result.snapshot, c.result.after).Err?
  {
    NamespaceIsTaken(t, n, c, nodes, id);
    NamespaceBlocks(t, n, c, nodes);
  }

  lemma {:induction false} SameTable(u: Schemas, t: Schemas, later: Schemas, touched: set<string>)
    requires forall id | id in touched :: SchemaOf(u, id) == SchemaOf(t, id)
    requires forall id | id !in touched :: SchemaOf(u, id) == SchemaOf(later, id) == SchemaOf(t, id)
    ensures u == t
  {
    forall id ensures id in u <==> id in t { assert SchemaOf(u, id) == SchemaOf(t, id); }
    forall id | id in u ensures u[id] == t[id] { assert SchemaOf(u, id) == SchemaOf(t, id); }
  }
}
