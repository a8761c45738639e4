/** The database itself: tables changed in place, inside transactions that commit or leave no trace. */
module Database {
  import opened Basics
  import opened Ontology
  import opened Graph
  import opened GraphGuard
  import opened GraphPreflight
  import opened SchemaProposals
  import opened SchemaRestore
  import opened Ledger

  /** The working tables of one batch, with its normalised and reverse actions in order of execution. */
  class Transaction {
    var nodes: map<string, Node>
    var edges: map<EdgeKey, Props>
    var normalized: seq<Action>
    var reverseActions: seq<Action>

    constructor (nodes: map<string, Node>, edges: map<EdgeKey, Props>)
      ensures Working() == State(nodes, edges) && normalized == [] && reverseActions == []
    {
      this.nodes, this.edges := nodes, edges;
      normalized, reverseActions := [], [];
    }

    ghost function Working(): State
      reads this
    {
      State(nodes, edges)
    }

    /** The action had the outcome its specification gives it. */
    twostate predicate Had(new outcome: Result<Effect>, new failure: Option<Error>)
      reads this
    {
      match outcome
      case Err(e) => failure == Some(e)
      case Ok(e) =>
        && failure.None? && Working() == e.state
        && normalized == old(normalized) + [e.normalized]
        && reverseActions == old(reverseActions) + [e.undo]
    }

    method RecordReplacement(id: string)
      requires id in nodes
      modifies this`reverseActions
      ensures reverseActions ==
        old(reverseActions) + [ReplaceNode(id, Some(nodes[id].kind), nodes[id].properties)]
    {
      reverseActions := reverseActions + [ReplaceNode(id, Some(nodes[id].kind), nodes[id].properties)];
    }

    method CreateRecord(h: Host, t: Schemas, a: Action) returns (failure: Option<Error>)
      requires a.CreateNode?
      modifies this
      ensures Had(StepCreate(h, t, old(Working()), a), failure)
    {
      if a.id == "" || a.kind == "" { return Some(EmptyText); }
      if a.id in nodes {
        RecordReplacement(a.id);
      } else {
        reverseActions := reverseActions + [DeleteNode(a.id)];
      }
      var validated := CoerceEntityProperties(h, SchemaOf(t, a.kind), a.properties);
      if validated.Err? { return Some(validated.error); }
      var properties := validated.value;
      var namespace := Get(properties, NAMESPACE);
      if (namespace.None? || !Truthy(namespace.value)) && IsAppId(a.id) {
        namespace := Some(AppNamespace(a.id));
        properties := properties[NAMESPACE := namespace.value];
      }
      nodes := nodes[a.id := Node(a.kind, properties, namespace)];
      normalized := normalized + [CreateNode(a.id, a.kind, properties)];
      return None;
    }

    method ReplaceRecord(h: Host, t: Schemas, a: Action) returns (failure: Option<Error>)
      requires a.UpdateNode? || a.ReplaceNode?
      modifies this
      ensures Had(StepReplace(h, t, old(Working()), a), failure)
    {
      if Blank(a.id) { return Some(BlankText); }
      if a.id !in nodes { return Some(MissingNode); }
      RecordReplacement(a.id);
      var kind := if a.override.Some? then a.override.value else nodes[a.id].kind;
      var properties := if a.ReplaceNode? then a.properties else nodes[a.id].properties + a.properties;
      var validated := CoerceEntityProperties(h, SchemaOf(t, kind), properties);
      if validated.Err? { return Some(validated.error); }
      nodes := nodes[a.id := Node(kind, validated.value, Get(validated.value, NAMESPACE))];
      normalized := normalized + [if a.ReplaceNode? then ReplaceNode(a.id, Some(kind), validated.value)
                                  else UpdateNode(a.id, Some(kind), validated.value)];
      return None;
    }

    method DeleteRecord(a: Action) returns (failure: Option<Error>)
      requires a.DeleteNode?
      modifies this
      ensures Had(StepDelete(old(Working()), a), failure)
    {
      if Blank(a.id) { return Some(BlankText); }
      if a.id !in nodes { return Some(MissingNode); }
      var incident := map k | k in edges && Incident(k, a.id) :: edges[k];
      reverseActions := reverseActions
        + [RestoreNode(a.id, nodes[a.id].kind, nodes[a.id].properties, incident)];
      edges := map k | k in edges && !Incident(k, a.id) :: edges[k];
      nodes := nodes - {a.id};
      normalized := normalized + [a];
      return None;
    }

    /** The edges go back one at a time, each after a check of its texts and endpoints. */
    method RestoreEdges(restored: map<EdgeKey, Props>) returns (failure: Option<Error>)
      modifies this`edges
      ensures failure.Some? <==> exists k :: k in restored && !(KeyGiven(k) && EndpointsIn(k, nodes))
      ensures if failure.Some? then failure == Some(BadEdge) else edges == old(edges) + restored
    {
      var pending := restored.Keys;
      while pending != {}
        invariant pending <= restored.Keys
        invariant forall k | k in restored.Keys - pending :: KeyGiven(k) && EndpointsIn(k, nodes)
        invariant edges.Keys == old(edges).Keys + (restored.Keys - pending)
        invariant forall k | k in edges ::
          edges[k] == if k in restored && k !in pending then restored[k] else old(edges)[k]
      {
        var key :| key in pending;
        if !(KeyGiven(key) && EndpointsIn(key, nodes)) { return Some(BadEdge); }
        edges := edges[key := restored[key]];
        pending := pending - {key};
      }
      assert edges == old(edges) + restored;
      return None;
    }

    method RestoreRecord(h: Host, t: Schemas, a: Action) returns (failure: Option<Error>)
      requires a.RestoreNode?
      modifies this
      ensures Had(StepRestore(h, t, old(Working()), a), failure)
    {
      if Blank(a.id) || Blank(a.kind) { return Some(BlankText); }
      if a.id in nodes {
        RecordReplacement(a.id);
      } else {
        reverseActions := reverseActions + [DeleteNode(a.id)];
      }
      var validated := CoerceEntityProperties(h, SchemaOf(t, a.kind), a.properties);
      if validated.Err? { return Some(validated.error); }
      nodes := nodes[a.id := Node(a.kind, validated.value, Get(validated.value, NAMESPACE))];
      failure := RestoreEdges(a.edges);
      normalized := normalized + [a];
    }

    method WriteEdge(a: Action) returns (failure: Option<Error>)
      requires a.CreateEdge? || a.DeleteEdge?
      modifies this
      ensures Had(StepEdge(old(Working()), a), failure)
    {
      if !KeyGiven(a.key) { return Some(BlankText); }
      if a.CreateEdge? {
        if a.key.source !in nodes || a.key.target !in nodes { return Some(MissingEndpoint); }
        reverseActions := reverseActions
          + [if a.key in edges then CreateEdge(a.key, edges[a.key]) else DeleteEdge(a.key)];
        edges := edges[a.key := a.properties];
      } else {
        if a.key !in edges { return Some(MissingEdge); }
        reverseActions := reverseActions + [CreateEdge(a.key, edges[a.key])];
        edges := edges - {a.key};
      }
      normalized := normalized + [a];
      return None;
    }

    method Perform(h: Host, t: Schemas, a: Action) returns (failure: Option<Error>)
      modifies this
      ensures Had(Step(h, t, old(Working()), a), failure)
    {
      match a {
        case CreateNode(_, _, _) => failure := CreateRecord(h, t, a);
        case UpdateNode(_, _, _) => failure := ReplaceRecord(h, t, a);
        case ReplaceNode(_, _, _) => failure := ReplaceRecord(h, t, a);
        case DeleteNode(_) => failure := DeleteRecord(a);
        case RestoreNode(_, _, _, _) => failure := RestoreRecord(h, t, a);
        case CreateEdge(_, _) => failure := WriteEdge(a);
        case DeleteEdge(_) => failure := WriteEdge(a);
        case Unsupported(_) => failure := Some(UnsupportedAction);
      }
    }
  }

  /** One more action of a batch, seen from its start. */
  lemma Advance(
      h: Host, t: Schemas, goal: Result<Trace>, before: Trace, undone: seq<Action>, actions: seq<Action>, i: nat)
    requires i < |actions| && before.undo == Reversed(undone)
    requires goal == After(before, Run(h, t, before.state, actions[i..]))
    ensures var outcome := Step(h, t, before.state, actions[i]);
            && (outcome.Err? ==> goal == Err(outcome.error))
            && (outcome.Ok? ==>
                  goal == After(Trace(outcome.value.state, before.normalized + [outcome.value.normalized],
                                      Reversed(undone + [outcome.value.undo])),
                                Run(h, t, outcome.value.state, actions[i + 1..])))
  {
    var outcome := Step(h, t, before.state, actions[i]);
    assert actions[i..][0] == actions[i] && actions[i..][1..] == actions[i + 1..];
    if outcome.Ok? {
      var e := outcome.value;
      ReversedSnoc(undone, e.undo);
      AfterAssociates(before, Trace(e.state, [e.normalized], [e.undo]), Run(h, t, e.state, actions[i + 1..]));
    }
  }

  lemma BatchStart(h: Host, t: Schemas, s: State, actions: seq<Action>)
    ensures Run(h, t, s, actions) == After(Trace(s, [], Reversed([])), Run(h, t, s, actions[0..]))
  {
    assert actions[0..] == actions;
    AfterEmpty(s, Run(h, t, s, actions));
  }

  lemma BatchEnd(h: Host, t: Schemas, done: Trace, actions: seq<Action>)
    ensures After(done, Run(h, t, done.state, actions[|actions|..])) == Ok(done)
  {
    assert actions[|actions|..] == [];
    assert done.normalized + [] == done.normalized && [] + done.undo == done.undo;
  }

  class GraphDatabase {
    var schemas: Schemas
    var nodes: map<string, Node>
    var edges: map<EdgeKey, Props>
    var effects: map<string, Entry>

    constructor (schemas: Schemas)
      ensures Contents() == Store(schemas, State(map[], map[]), map[])
    {
      this.schemas := schemas;
      nodes, edges, effects := map[], map[], map[];
    }

    ghost function Contents(): Store
      reads this
    {
      Store(schemas, State(nodes, edges), effects)
    }

    /** Runs the batch on working tables. */
    method RunBatch(h: Host, actions: seq<Action>) returns (r: Result<Trace>)
      ensures r == Run(h, schemas, State(nodes, edges), actions)
    {
      var tx := new Transaction(nodes, edges);
      ghost var goal := Run(h, schemas, State(nodes, edges), actions);
      BatchStart(h, schemas, State(nodes, edges), actions);
      var i := 0;
      while i < |actions|
        invariant 0 <= i <= |actions|
        invariant fresh(tx)
        invariant goal == After(Trace(tx.Working(), tx.normalized, Reversed(tx.reverseActions)),
                                Run(h, schemas, tx.Working(), actions[i..]))
      {
        Advance(h, schemas, goal, Trace(tx.Working(), tx.normalized, Reversed(tx.reverseActions)), tx.reverseActions,
                actions, i);
        var failure := tx.Perform(h, schemas, actions[i]);
        if failure.Some? { return Err(failure.value); }
        i := i + 1;
      }
      BatchEnd(h, schemas, Trace(tx.Working(), tx.normalized, Reversed(tx.reverseActions)), actions);
      return Ok(Trace(State(tx.nodes, tx.edges), tx.normalized, Reversed(tx.reverseActions)));
    }

    method ApplyActionsAtomic(h: Host, actions: seq<Action>, key: string, expected: Option<Guard>)
      returns (r: Result<BatchResult>)
      modifies this
      ensures var o := ExecMutate(h, old(Contents()), actions, expected, key);
              && Contents() == o.store
              && (if r.Err? then o.reply == Err(r.error) else o.reply == Ok(Batch(r.value)))
    {
      if actions == [] { return Err(EmptyBatch); }
      if key != "" && key in effects {
        match effects[key] {
          case BatchEntry(a, e, result) =>
            if a != actions || e != expected { return Err(KeyReused); }
            return Ok(result);
          case SchemaEntry(_, _) => return Err(KeyReused);
        }
      }
      if expected.Some? {
        var seen := ReadGuard(State(nodes, edges), expected.value);
        if seen.Err? { return Err(BadEvidence); }
        if seen.value != expected.value { return Err(Conflict); }
      }
      var done := RunBatch(h, actions);
      if done.Err? { return Err(done.error); }
      var guard := CaptureGuard(done.value.state, done.value.normalized);
      if guard.Err? { return Err(guard.error); }
      var result := BatchResult(done.value.normalized, done.value.undo, guard.value);
      nodes, edges := done.value.state.nodes, done.value.state.edges;
      if key != "" {
        effects := effects[key := BatchEntry(actions, expected, result)];
      }
      return Ok(result);
    }

    /** Validates against local tables; the graph itself is only read. */
    method PreflightActions(h: Host, actions: seq<Action>) returns (r: Result<seq<Action>>)
      ensures r == Preflight(h, schemas, State(nodes, edges), actions)
    {
      if actions == [] { return Err(EmptyBatch); }
      ghost var goal := Preflight(h, schemas, State(nodes, edges), actions);
      var normalized: seq<Action> := [];
      var records := map id | id in nodes :: Record(nodes[id].kind, nodes[id].properties);
      var keys := edges.Keys;
      var i := 0;
      assert actions[0..] == actions;
      PrependedEmpty(CheckAll(h, schemas, Preview(records, keys), actions));
      while i < |actions|
        invariant 0 <= i <= |actions|
        invariant goal == Prepended(normalized, CheckAll(h, schemas, Preview(records, keys), actions[i..]))
      {
        var a := actions[i];
        ghost var before := Preview(records, keys);
        assert actions[i..][0] == a && actions[i..][1..] == actions[i + 1..];
        var n := a;
        if a.CreateNode? {
          if a.id == "" || a.kind == "" { return Err(EmptyText); }
          var validated := CoerceEntityProperties(h, SchemaOf(schemas, a.kind), a.properties);
          if validated.Err? { return Err(validated.error); }
          records := records[a.id := Record(a.kind, validated.value)];
          n := CreateNode(a.id, a.kind, validated.value);
        } else if a.UpdateNode? {
          if Blank(a.id) { return Err(BlankText); }
          if a.id !in records { return Err(MissingNode); }
          var kind := records[a.id].kind;
          var validated := CoerceEntityProperties(h, SchemaOf(schemas, kind), records[a.id].properties + a.properties);
          if validated.Err? { return Err(validated.error); }
          records := records[a.id := Record(kind, validated.value)];
          n := UpdateNode(a.id, None, map k | k in a.properties && k in validated.value :: validated.value[k]);
        } else if a.DeleteNode? {
          if Blank(a.id) { return Err(BlankText); }
          if a.id !in records { return Err(MissingNode); }
          records := records - {a.id};
          keys := set k | k in keys && !Incident(k, a.id);
        } else if a.CreateEdge? || a.DeleteEdge? {
          if !KeyGiven(a.key) { return Err(BlankText); }
          if a.CreateEdge? {
            if a.key.source !in records || a.key.target !in records { return Err(MissingEndpoint); }
            keys := keys + {a.key};
          } else {
            if a.key !in keys { return Err(MissingEdge); }
            keys := keys - {a.key};
          }
        } else {
          return Err(UnsupportedAction);
        }
        assert Check(h, schemas, before, a) == Ok(Checked(Preview(records, keys), n));
        PrependedSnoc(normalized, n, CheckAll(h, schemas, Preview(records, keys), actions[i + 1..]));
        normalized := normalized + [n];
        i := i + 1;
      }
      assert actions[i..] == [] && normalized + [] == normalized;
      return Ok(normalized);
    }

    /** Extends the reused rows one by one. */
    method ExtendReused(reused: seq<Reuse>) returns (r: Result<Schemas>)
      ensures r == ExtendAll(schemas, reused)
    {
      var table := schemas;
      var i := 0;
      assert reused[0..] == reused;
      while i < |reused|
        invariant 0 <= i <= |reused|
        invariant ExtendAll(schemas, reused) == ExtendAll(table, reused[i..])
      {
        var item := reused[i];
        assert reused[i..][0] == item && reused[i..][1..] == reused[i + 1..];
        if item.id !in table { return Err(Unregistered); }
        var merged := MergeProperties(table[item.id].properties, item.extension);
        if merged.Err? { return Err(merged.error); }
        table := table[item.id := table[item.id].(properties := merged.value)];
        i := i + 1;
      }
      return Ok(table);
    }

    /** The inventory with an uncommitted proposal laid over it. */
    method EffectiveInventory(proposal: Option<Proposal>, now: string) returns (r: Result<Schemas>)
      ensures r == if proposal.None? then Ok(schemas) else EffectiveSchemas(schemas, proposal.value, now)
    {
      if proposal.None? { return Ok(schemas); }
      var n := Normalize(proposal.value);
      if n.Err? { return Err(n.error); }
      if !ParentsAvailable(schemas, n.value.added) { return Err(MissingParent); }
      var extended := ExtendReused(n.value.reused);
      if extended.Err? { return extended; }
      var table, added := extended.value, n.value.added;
      var i := 0;
      assert added[0..] == added;
      while i < |added|
        invariant 0 <= i <= |added|
        invariant OverlayAll(extended.value, added, now) == OverlayAll(table, added[i..], now)
      {
        assert added[i..][0] == added[i] && added[i..][1..] == added[i + 1..];
        if added[i].id in table { return Err(AlreadyExists); }
        table := table[added[i].id := Row(added[i], now)];
        i := i + 1;
      }
      assert added[i..] == [];
      return Ok(table);
    }

    static method InsertAdded(extended: Schemas, added: seq<NewEntity>, now: string) returns (table: Schemas)
      ensures table == InsertAll(extended, added, now)
    {
      table := extended;
      var i := 0;
      assert added[0..] == added;
      while i < |added|
        invariant 0 <= i <= |added|
        invariant InsertAll(extended, added, now) == InsertAll(table, added[i..], now)
      {
        assert added[i..][0] == added[i] && added[i..][1..] == added[i + 1..];
        table := table[added[i].id := Row(added[i], now)];
        i := i + 1;
      }
      assert added[i..] == [];
    }

    method ApplySchemaProposalAtomic(proposal: Proposal, key: string, now: string)
      returns (r: Result<SchemaResult>)
      modifies this
      ensures var o := ExecPropose(old(Contents()), proposal, key, now);
              && Contents() == o.store
              && (if r.Err? then o.reply == Err(r.error) else o.reply == Ok(Proposed(r.value)))
    {
      var n := Normalize(proposal);
      if n.Err? { return Err(n.error); }
      if !ParentsAvailable(schemas, n.value.added) { return Err(MissingParent); }
      if key != "" && key in effects {
        if !effects[key].SchemaEntry? || effects[key].outcome.proposal != n.value { return Err(KeyReused); }
        if !effects[key].compensated { return Ok(effects[key].outcome); }
      }
      if exists id :: id in NewIds(n.value.added) && id in schemas { return Err(AlreadyExists); }
      var snapshot := SnapshotOf(schemas, Touched(n.value));
      var extended := ExtendReused(n.value.reused);
      if extended.Err? { return Err(extended.error); }
      var table := InsertAdded(extended.value, n.value.added, now);
      var result := SchemaResult(n.value, snapshot, map id | id in Touched(n.value) && id in table :: table[id]);
      schemas := table;
      if key != "" {
        effects := effects[key := SchemaEntry(result, false)];
      }
      return Ok(result);
    }

    /** Checks every touched row before it writes the first one. */
    method RestoreSchemaSnapshot(snapshot: Snapshot, key: string) returns (failure: Option<Error>)
      modifies this
      ensures var o := ExecCompensate(old(Contents()), snapshot, key);
              && Contents() == o.store
              && (if failure.Some? then o.reply == Err(failure.value) else o.reply == Ok(Done))
    {
      if key == "" || key !in effects { return Some(Conflict); }
      if !effects[key].SchemaEntry? || effects[key].outcome.snapshot != snapshot { return Some(Conflict); }
      if effects[key].compensated { return None; }
      var after := effects[key].outcome.after;
      var pending := after.Keys;
      while pending != {}
        invariant pending <= after.Keys
        invariant unchanged(this)
        invariant forall id | id in after.Keys - pending ::
          id in snapshot && MayRestore(schemas, nodes, snapshot, after, id)
      {
        var id :| id in pending;
        if id !in snapshot || !MayRestore(schemas, nodes, snapshot, after, id) { return Some(Conflict); }
        pending := pending - {id};
      }
      ghost var before := schemas;
      var rows := snapshot.Keys;
      while rows != {}
        invariant rows <= snapshot.Keys
        invariant unchanged(this`nodes) && unchanged(this`edges) && unchanged(this`effects)
        invariant forall id ::
          SchemaOf(schemas, id) == (if id in snapshot && id !in rows then snapshot[id] else SchemaOf(before, id))
      {
        var id :| id in rows;
        schemas := if snapshot[id].None? then schemas - {id} else schemas[id := snapshot[id].value];
        rows := rows - {id};
      }
      RestoredBy(before, snapshot, schemas);
      effects := effects[key := SchemaEntry(effects[key].outcome, true)];
      return None;
    }
  }

  function Prepended(front: seq<Action>, rest: Result<seq<Action>>): Result<seq<Action>> {
    if rest.Err? then rest else Ok(front + rest.value)
  }

  lemma PrependedEmpty(rest: Result<seq<Action>>)
    ensures Prepended([], rest) == rest
  {
    if rest.Ok? { assert [] + rest.value == rest.value; }
  }

  lemma PrependedSnoc(front: seq<Action>, x: Action, rest: Result<seq<Action>>)
    ensures Prepended(front, if rest.Err? then rest else Ok([x] + rest.value)) == Prepended(front + [x], rest)
  {
    if rest.Ok? { assert front + ([x] + rest.value) == front + [x] + rest.value; }
  }

  /** Writing the snapshot row by row ends at the restored table. */
  lemma RestoredBy(before: Schemas, snapshot: Snapshot, table: Schemas)
    requires forall id ::
      SchemaOf(table, id) == (if id in snapshot then snapshot[id] else SchemaOf(before, id))
    ensures table == Restored(before, snapshot)
  {
    forall id ensures SchemaOf(table, id) == SchemaOf(Restored(before, snapshot), id) {
      RestoredRow(before, snapshot, id);
    }
    SameTable(table, Restored(before, snapshot), table, {});
  }
}
