/** The commit loop of the second adapter, over records and links changed in place. */
module Neo4jDatabase {
  import opened Basics
  import opened Ontology
  import opened Graph
  import opened GraphGuard
  import opened Neo4j

  class Neo4jTransaction {
    var records: map<string, ContextRecord>
    var links: set<Link>
    var relations: map<EdgeKey, Props>
    var normalized: seq<Action>
    var reverseActions: seq<Action>

    constructor (s: Neo)
      ensures Working() == s && normalized == [] && reverseActions == []
    {
      records, links, relations := s.records, s.links, s.relations;
      normalized, reverseActions := [], [];
    }

    ghost function Working(): Neo
      reads this
    {
      Neo(records, links, relations)
    }

    twostate predicate Had(new outcome: Result<NeoEffect>, new failure: Option<Error>)
      reads this
    {
      match outcome
      case Err(e) => failure == Some(e)
      case Ok(e) =>
        && failure.None? && Working() == e.state
        && normalized == old(normalized) + [e.normalized]
        && reverseActions == old(reverseActions) + [e.undo]
    }

    method TxGetNode(t: Schemas, id: string) returns (r: Result<Option<Record>>)
      ensures r == ReadRecord(t, Working(), id)
    {
      return ReadRecord(t, Neo(records, links, relations), id);
    }

    /** MERGE the record, drop every old link, MERGE the new one. An entity of another ontology matches
        nothing, and then nothing is written. */
    method TxUpsertNode(t: Schemas, id: string, kind: string, p: Props) returns (ok: bool)
      modifies this`records, this`links
      ensures ok <==> InOntology(t, kind)
      ensures Working() == if ok then UpsertRecord(old(Working()), id, kind, p) else old(Working())
      ensures ok ==> id in records && records[id].entityId == kind && records[id].properties == p
      ensures ok ==> forall l: Link :: l.id == id ==> (l in links <==> l.entity == kind)
      ensures forall l: Link :: l.id != id ==> (l in links <==> l in old(links))
      ensures forall other | other != id :: (other in records <==> other in old(records))
                && (other in records ==> records[other] == old(records)[other])
    {
      if !InOntology(t, kind) { return false; }
      records := records[id := ContextRecord(kind, p, if NAMESPACE in p then p[NAMESPACE] else Str(""))];
      links := set l | l in links && l.id != id;
      links := links + {Link(id, kind)};
      return true;
    }

    /** DETACH DELETE: the record goes with its links and relationships, and nothing else does. */
    method TxDeleteNode(id: string)
      modifies this`records, this`links, this`relations
      ensures Working() == DetachDelete(old(Working()), id)
      ensures forall other :: (other in records <==> other in old(records) && other != id)
                && (other in records ==> records[other] == old(records)[other])
      ensures forall l :: l in links <==> l in old(links) && l.id != id
      ensures forall k :: (k in relations <==> k in old(relations) && !Incident(k, id))
                && (k in relations ==> relations[k] == old(relations)[k])
    {
      relations := map k | k in relations && !Incident(k, id) :: relations[k];
      links := set l | l in links && l.id != id;
      records := records - {id};
    }

    method CreateRecord(h: Host, t: Schemas, a: Action) returns (failure: Option<Error>)
      requires a.CreateNode?
      modifies this
      ensures Had(NeoCreate(h, t, old(Working()), a), failure)
    {
      if Blank(a.id) { return Some(BlankText); }
      if a.kind == "" { return Some(EmptyText); }
      var properties := a.properties;
      if NAMESPACE !in properties && IsAppId(a.id) {
        properties := properties[NAMESPACE := AppNamespace(a.id)];
      }
      var validated := CoerceEntityProperties(h, NeoSchema(t, a.kind), properties);
      if validated.Err? { return Some(validated.error); }
      var prior := TxGetNode(t, a.id);
      if prior.Err? { return Some(prior.error); }
      reverseActions := reverseActions + [UndoWrite(a.id, prior.value)];
      var ok := TxUpsertNode(t, a.id, a.kind, validated.value);
      if !ok { return Some(Unregistered); }
      normalized := normalized + [CreateNode(a.id, a.kind, validated.value)];
      return None;
    }

    method ReplaceRecord(h: Host, t: Schemas, a: Action) returns (failure: Option<Error>)
      requires a.UpdateNode? || a.ReplaceNode?
      modifies this
      ensures Had(NeoReplace(h, t, old(Working()), a), failure)
    {
      if Blank(a.id) { return Some(BlankText); }
      var prior := TxGetNode(t, a.id);
      if prior.Err? { return Some(prior.error); }
      if prior.value.None? { return Some(MissingNode); }
      var record := prior.value.value;
      reverseActions := reverseActions + [ReplaceNode(a.id, Some(record.kind), record.properties)];
      var kind := if a.override.Some? then a.override.value else record.kind;
      var properties := if a.ReplaceNode? then a.properties else record.properties + a.properties;
      var validated := CoerceEntityProperties(h, NeoSchema(t, kind), properties);
      if validated.Err? { return Some(validated.error); }
      var ok := TxUpsertNode(t, a.id, kind, validated.value);
      if !ok { return Some(Unregistered); }
      normalized := normalized + [if a.ReplaceNode? then ReplaceNode(a.id, Some(kind), validated.value)
                                  else UpdateNode(a.id, Some(kind), validated.value)];
      return None;
    }

    method DeleteRecord(t: Schemas, a: Action) returns (failure: Option<Error>)
      requires a.DeleteNode?
      modifies this
      ensures Had(NeoDelete(t, old(Working()), a), failure)
    {
      if Blank(a.id) { return Some(BlankText); }
      var prior := TxGetNode(t, a.id);
      if prior.Err? { return Some(prior.error); }
      if prior.value.None? { return Some(MissingNode); }
      var record := prior.value.value;
      var incident := map k | k in relations && Incident(k, a.id) :: relations[k];
      reverseActions := reverseActions + [RestoreNode(a.id, record.kind, record.properties, incident)];
      TxDeleteNode(a.id);
      normalized := normalized + [a];
      return None;
    }

    method CheckEdge(t: Schemas, key: EdgeKey) returns (ok: bool)
      ensures ok == Restorable(t, Working(), key)
    {
      return Restorable(t, Neo(records, links, relations), key);
    }

    method RestoreRelations(t: Schemas, restored: map<EdgeKey, Props>) returns (failure: Option<Error>)
      modifies this`relations
      ensures failure.Some? <==> (exists k :: k in restored && !Restorable(t, old(Working()), k))
      ensures if failure.Some? then failure == Some(BadEdge) else relations == old(relations) + restored
    {
      var pending := restored.Keys;
      while pending != {}
        invariant pending <= restored.Keys
        invariant forall k | k in restored.Keys - pending :: Restorable(t, old(Working()), k)
        invariant relations == old(relations) + Except(restored, pending)
      {
        var key :| key in pending;
        SameChecks(t, old(Working()), Working(), key);
        var ok := CheckEdge(t, key);
        if !ok { return Some(BadEdge); }
        ExceptShrinks(old(relations), restored, pending, key);
        relations := relations[key := restored[key]];
        pending := pending - {key};
      }
      assert Except(restored, {}) == restored;
      return None;
    }

    method RestoreRecord(h: Host, t: Schemas, a: Action) returns (failure: Option<Error>)
      requires a.RestoreNode?
      modifies this
      ensures Had(NeoRestore(h, t, old(Working()), a), failure)
    {
      if Blank(a.id) || Blank(a.kind) { return Some(BlankText); }
      var prior := TxGetNode(t, a.id);
      if prior.Err? { return Some(prior.error); }
      reverseActions := reverseActions + [UndoWrite(a.id, prior.value)];
      var validated := CoerceEntityProperties(h, NeoSchema(t, a.kind), a.properties);
      if validated.Err? { return Some(validated.error); }
      var ok := TxUpsertNode(t, a.id, a.kind, validated.value);
      if !ok { return Some(Unregistered); }
      failure := RestoreRelations(t, a.edges);
      normalized := normalized + [a];
    }

    method WriteEdge(t: Schemas, a: Action) returns (failure: Option<Error>)
      requires a.CreateEdge? || a.DeleteEdge?
      modifies this
      ensures Had(NeoEdge(t, old(Working()), a), failure)
    {
      if !KeyGiven(a.key) { return Some(BlankText); }
      if a.CreateEdge? {
        var here := Neo(records, links, relations);
        if !Readable(t, here, a.key.source) || !Readable(t, here, a.key.target) { return Some(MissingEndpoint); }
        reverseActions := reverseActions
          + [if a.key in relations then CreateEdge(a.key, relations[a.key]) else DeleteEdge(a.key)];
        relations := relations[a.key := a.properties];
      } else {
        if a.key !in relations { return Some(MissingEdge); }
        reverseActions := reverseActions + [CreateEdge(a.key, relations[a.key])];
        relations := relations - {a.key};
      }
      normalized := normalized + [a];
      return None;
    }

    method Perform(h: Host, t: Schemas, a: Action) returns (failure: Option<Error>)
      modifies this
      ensures Had(NeoStep(h, t, old(Working()), a), failure)
    {
      match a {
        case CreateNode(_, _, _) => failure := CreateRecord(h, t, a);
        case UpdateNode(_, _, _) => failure := ReplaceRecord(h, t, a);
        case ReplaceNode(_, _, _) => failure := ReplaceRecord(h, t, a);
        case DeleteNode(_) => failure := DeleteRecord(t, a);
        case RestoreNode(_, _, _, _) => failure := RestoreRecord(h, t, a);
        case CreateEdge(_, _) => failure := WriteEdge(t, a);
        case DeleteEdge(_) => failure := WriteEdge(t, a);
        case Unsupported(_) => failure := Some(UnsupportedAction);
      }
    }
  }

  function Except(m: map<EdgeKey, Props>, keys: set<EdgeKey>): map<EdgeKey, Props> {
    map k | k in m && k !in keys :: m[k]
  }

  lemma ExceptShrinks(start: map<EdgeKey, Props>, m: map<EdgeKey, Props>, keys: set<EdgeKey>, key: EdgeKey)
    requires key in keys && key in m
    ensures (start + Except(m, keys))[key := m[key]] == start + Except(m, keys - {key})
  {
  }

  /** Reading a record does not look at relationships. */
  lemma SameChecks(t: Schemas, a: Neo, b: Neo, k: EdgeKey)
    requires a.records == b.records && a.links == b.links
    ensures Restorable(t, a, k) <==> Restorable(t, b, k)
  {
    assert EntitiesOf(t, a, k.source) == EntitiesOf(t, b, k.source);
    assert EntitiesOf(t, a, k.target) == EntitiesOf(t, b, k.target);
  }

  function Joined(front: NeoTrace, rest: Result<NeoTrace>): Result<NeoTrace> {
    if rest.Err? then rest
    else Ok(NeoTrace(rest.value.state, front.normalized + rest.value.normalized, rest.value.undo + front.undo))
  }

  lemma JoinedEmpty(s: Neo, rest: Result<NeoTrace>)
    ensures Joined(NeoTrace(s, [], []), rest) == rest
  {
    if rest.Ok? {
      assert [] + rest.value.normalized == rest.value.normalized;
      assert rest.value.undo + [] == rest.value.undo;
    }
  }

  lemma JoinedSnoc(front: NeoTrace, e: NeoEffect, rest: Result<NeoTrace>)
    ensures Joined(front, NeoAfter(e, rest)) ==
            Joined(NeoTrace(e.state, front.normalized + [e.normalized], [e.undo] + front.undo), rest)
  {
    if rest.Ok? {
      assert front.normalized + ([e.normalized] + rest.value.normalized)
          == front.normalized + [e.normalized] + rest.value.normalized;
      assert rest.value.undo + [e.undo] + front.undo == rest.value.undo + ([e.undo] + front.undo);
    }
  }

  /** One action further into a batch. */
  lemma NeoAdvance(
      h: Host, t: Schemas, goal: Result<NeoTrace>, front: NeoTrace, undone: seq<Action>, actions: seq<Action>, i: nat)
    requires i < |actions| && front.undo == Reversed(undone)
    requires goal == Joined(front, NeoRun(h, t, front.state, actions[i..]))
    ensures var outcome := NeoStep(h, t, front.state, actions[i]);
            && (outcome.Err? ==> goal == Err(outcome.error))
            && (outcome.Ok? ==>
                  goal == Joined(NeoTrace(outcome.value.state, front.normalized + [outcome.value.normalized],
                                          Reversed(undone + [outcome.value.undo])),
                                 NeoRun(h, t, outcome.value.state, actions[i + 1..])))
  {
    var outcome := NeoStep(h, t, front.state, actions[i]);
    assert actions[i..][0] == actions[i] && actions[i..][1..] == actions[i + 1..];
    if outcome.Ok? {
      ReversedSnoc(undone, outcome.value.undo);
      JoinedSnoc(front, outcome.value, NeoRun(h, t, outcome.value.state, actions[i + 1..]));
    }
  }

  lemma NeoStart(h: Host, t: Schemas, s: Neo, actions: seq<Action>)
    ensures NeoRun(h, t, s, actions) == Joined(NeoTrace(s, [], Reversed([])), NeoRun(h, t, s, actions[0..]))
  {
    assert actions[0..] == actions;
    JoinedEmpty(s, NeoRun(h, t, s, actions));
  }

  lemma NeoEnd(h: Host, t: Schemas, front: NeoTrace, actions: seq<Action>)
    ensures Joined(front, NeoRun(h, t, front.state, actions[|actions|..])) == Ok(front)
  {
    assert actions[|actions|..] == [];
    assert front.normalized + [] == front.normalized && [] + front.undo == front.undo;
  }

  /** The commit loop: the transaction object ends at what the batch reaches, or reports its failure. */
  method CommitBatch(h: Host, t: Schemas, s: Neo, actions: seq<Action>) returns (r: Result<NeoTrace>)
    ensures r == NeoRun(h, t, s, actions)
  {
    var tx := new Neo4jTransaction(s);
    ghost var goal := NeoRun(h, t, s, actions);
    NeoStart(h, t, s, actions);
    var i := 0;
    while i < |actions|
      invariant 0 <= i <= |actions|
      invariant fresh(tx)
      invariant goal == Joined(NeoTrace(tx.Working(), tx.normalized, Reversed(tx.reverseActions)),
                               NeoRun(h, t, tx.Working(), actions[i..]))
    {
      NeoAdvance(h, t, goal, NeoTrace(tx.Working(), tx.normalized, Reversed(tx.reverseActions)), tx.reverseActions,
                 actions, i);
      var failure := tx.Perform(h, t, actions[i]);
      if failure.Some? { return Err(failure.value); }
      i := i + 1;
    }
    NeoEnd(h, t, NeoTrace(tx.Working(), tx.normalized, Reversed(tx.reverseActions)), actions);
    return Ok(NeoTrace(Neo(tx.records, tx.links, tx.relations), tx.normalized, Reversed(tx.reverseActions)));
  }

  /** A whole call: the evidence check, the loop, and the evidence of what it left. */
  method ApplyActionsAtomic(h: Host, t: Schemas, s: Neo, actions: seq<Action>, expected: Option<Guard>)
    returns (r: Result<NeoCommitted>)
    ensures r == NeoCommit(h, t, s, actions, expected)
  {
    if actions == [] { return Err(EmptyBatch); }
    if expected.Some? {
      var seen := NeoReadGuard(t, s, expected.value);
      if seen.Err? { return Err(BadEvidence); }
      if seen.value != expected.value { return Err(Conflict); }
    }
    var done := CommitBatch(h, t, s, actions);
    if done.Err? { return Err(done.error); }
    var guard := NeoCaptureGuard(t, done.value.state, done.value.normalized);
    if guard.Err? { return Err(guard.error); }
    return Ok(NeoCommitted(done.value.state, BatchResult(done.value.normalized, done.value.undo, guard.value)));
  }
}
