/** The second adapter: labelled records, INSTANCE_OF links and relationships instead of rows. */
module Neo4j {
  import opened Basics
  import opened Ontology
  import opened Graph
  import opened GraphReverse
  import opened GraphUndo
  import opened GraphGuard
  import opened GraphCompensation

  datatype ContextRecord = ContextRecord(entityId: string, properties: Props, namespace: Value)

  /** An INSTANCE_OF link. */
  datatype Link = Link(id: string, entity: string)

  datatype Neo = Neo(records: map<string, ContextRecord>, links: set<Link>, relations: map<EdgeKey, Props>)

  datatype NeoEffect = NeoEffect(state: Neo, normalized: Action, undo: Action)

  datatype NeoTrace = NeoTrace(state: Neo, normalized: seq<Action>, undo: seq<Action>)

  predicate InOntology(t: Schemas, entity: string) {
    entity in t && t[entity].ontologyId == ONTOLOGY_ID
  }

  /** The schema lookup of this adapter sees only entities of its own ontology. */
  function NeoSchema(t: Schemas, kind: string): Option<Schema> {
    if InOntology(t, kind) then Some(t[kind]) else None
  }

  function EntitiesOf(t: Schemas, s: Neo, id: string): set<string> {
    set l | l in s.links && l.id == id && InOntology(t, l.entity) :: l.entity
  }

  /** A record as its readers see it: None when absent, an error unless it has exactly one entity. */
  function ReadRecord(t: Schemas, s: Neo, id: string): Result<Option<Record>> {
    if id !in s.records then Ok(None)
    else
      var entities := EntitiesOf(t, s, id);
      if exists e :: e in entities && entities == {e} then
        var e :| e in entities && entities == {e};
        Ok(Some(Record(e, s.records[id].properties)))
      else Err(BadEvidence)
  }

  function IncidentRelations(s: Neo, id: string): map<EdgeKey, Props> {
    map k | k in s.relations && Incident(k, id) :: s.relations[k]
  }

  /** MERGE of the record, removal of its old links, MERGE of the new one. */
  function UpsertRecord(s: Neo, id: string, kind: string, p: Props): Neo {
    s.(records := s.records[id := ContextRecord(kind, p, if NAMESPACE in p then p[NAMESPACE] else Str(""))],
       links := (set l | l in s.links && l.id != id) + {Link(id, kind)})
  }

  function DetachDelete(s: Neo, id: string): Neo {
    Neo(s.records - {id}, set l | l in s.links && l.id != id,
        map k | k in s.relations && !Incident(k, id) :: s.relations[k])
  }

  /** This adapter derives a missing namespace before it validates, and only a missing one. */
  function WithNamespace(id: string, p: Props): Props {
    if NAMESPACE !in p && IsAppId(id) then p[NAMESPACE := AppNamespace(id)] else p
  }

  function UndoWrite(id: string, prior: Option<Record>): Action {
    if prior.Some? then ReplaceNode(id, Some(prior.value.kind), prior.value.properties) else DeleteNode(id)
  }

  function NeoCreate(h: Host, t: Schemas, s: Neo, a: Action): Result<NeoEffect>
    requires a.CreateNode?
  {
    if Blank(a.id) then Err(BlankText)
    else if a.kind == "" then Err(EmptyText)
    else
      var validated := Coerce(h, NeoSchema(t, a.kind), WithNamespace(a.id, a.properties));
      if validated.Err? then Err(validated.error)
      else
        var prior := ReadRecord(t, s, a.id);
        if prior.Err? then Err(prior.error)
        else Ok(NeoEffect(UpsertRecord(s, a.id, a.kind, validated.value),
                          CreateNode(a.id, a.kind, validated.value), UndoWrite(a.id, prior.value)))
  }

  function NeoReplace(h: Host, t: Schemas, s: Neo, a: Action): Result<NeoEffect>
    requires a.UpdateNode? || a.ReplaceNode?
  {
    if Blank(a.id) then Err(BlankText)
    else
      var prior := ReadRecord(t, s, a.id);
      if prior.Err? then Err(prior.error)
      else if prior.value.None? then Err(MissingNode)
      else
        var record := prior.value.value;
        var kind := if a.override.Some? then a.override.value else record.kind;
        var incoming := if a.ReplaceNode? then a.properties else record.properties + a.properties;
        var validated := Coerce(h, NeoSchema(t, kind), incoming);
        if validated.Err? then Err(validated.error)
        else
          var normalized := if a.ReplaceNode? then ReplaceNode(a.id, Some(kind), validated.value)
                            else UpdateNode(a.id, Some(kind), validated.value);
          Ok(NeoEffect(UpsertRecord(s, a.id, kind, validated.value), normalized, UndoWrite(a.id, prior.value)))
  }

  function NeoDelete(t: Schemas, s: Neo, a: Action): Result<NeoEffect>
    requires a.DeleteNode?
  {
    if Blank(a.id) then Err(BlankText)
    else
      var prior := ReadRecord(t, s, a.id);
      if prior.Err? then Err(prior.error)
      else if prior.value.None? then Err(MissingNode)
      else
        var record := prior.value.value;
        Ok(NeoEffect(DetachDelete(s, a.id), a,
                     RestoreNode(a.id, record.kind, record.properties, IncidentRelations(s, a.id))))
  }

  predicate Readable(t: Schemas, s: Neo, id: string) {
    ReadRecord(t, s, id).Ok? && ReadRecord(t, s, id).value.Some?
  }

  /** The checks on one edge of a restoration. */
  predicate Restorable(t: Schemas, s: Neo, k: EdgeKey) {
    KeyGiven(k) && Readable(t, s, k.source) && Readable(t, s, k.target)
  }

  function NeoRestore(h: Host, t: Schemas, s: Neo, a: Action): Result<NeoEffect>
    requires a.RestoreNode?
  {
    if Blank(a.id) || Blank(a.kind) then Err(BlankText)
    else
      var prior := ReadRecord(t, s, a.id);
      if prior.Err? then Err(prior.error)
      else
        var validated := Coerce(h, NeoSchema(t, a.kind), a.properties);
        if validated.Err? then Err(validated.error)
        else
          var next := UpsertRecord(s, a.id, a.kind, validated.value);
          if exists k :: k in a.edges && !Restorable(t, next, k) then Err(BadEdge)
          else Ok(NeoEffect(next.(relations := next.relations + a.edges), a, UndoWrite(a.id, prior.value)))
  }

  function NeoEdge(t: Schemas, s: Neo, a: Action): Result<NeoEffect>
    requires a.CreateEdge? || a.DeleteEdge?
  {
    if !KeyGiven(a.key) then Err(BlankText)
    else if a.CreateEdge? then
      if !(Readable(t, s, a.key.source) && Readable(t, s, a.key.target)) then Err(MissingEndpoint)
      else
        var undo := if a.key in s.relations then CreateEdge(a.key, s.relations[a.key]) else DeleteEdge(a.key);
        Ok(NeoEffect(s.(relations := s.relations[a.key := a.properties]), a, undo))
    else if a.key !in s.relations then Err(MissingEdge)
    else Ok(NeoEffect(s.(relations := s.relations - {a.key}), a, CreateEdge(a.key, s.relations[a.key])))
  }

  function NeoStep(h: Host, t: Schemas, s: Neo, a: Action): Result<NeoEffect> {
    match a
    case CreateNode(_, _, _) => NeoCreate(h, t, s, a)
    case UpdateNode(_, _, _) => NeoReplace(h, t, s, a)
    case ReplaceNode(_, _, _) => NeoReplace(h, t, s, a)
    case DeleteNode(_) => NeoDelete(t, s, a)
    case RestoreNode(_, _, _, _) => NeoRestore(h, t, s, a)
    case CreateEdge(_, _) => NeoEdge(t, s, a)
    case DeleteEdge(_) => NeoEdge(t, s, a)
    case Unsupported(_) => Err(UnsupportedAction)
  }

  function NeoAfter(e: NeoEffect, rest: Result<NeoTrace>): Result<NeoTrace> {
    if rest.Err? then rest
    else Ok(NeoTrace(rest.value.state, [e.normalized] + rest.value.normalized, rest.value.undo + [e.undo]))
  }

  function NeoRun(h: Host, t: Schemas, s: Neo, actions: seq<Action>): Result<NeoTrace>
    decreases actions
  {
    if actions == [] then Ok(NeoTrace(s, [], []))
    else
      var first := NeoStep(h, t, s, actions[0]);
      if first.Err? then Err(first.error)
      else NeoAfter(first.value, NeoRun(h, t, first.value.state, actions[1..]))
  }

  // ---- The namespace column --------------------------------------------------------------------------

  /** Beside each record's properties stands its namespace, empty if it has none. */
  ghost predicate ColumnsMatch(s: Neo) {
    forall id | id in s.records ::
      var r := s.records[id];
      r.namespace == if "namespace" in r.properties then r.properties["namespace"] else Str("")
  }

  lemma StepKeepsColumns(h: Host, t: Schemas, s: Neo, a: Action)
    requires ColumnsMatch(s) && NeoStep(h, t, s, a).Ok?
    ensures ColumnsMatch(NeoStep(h, t, s, a).value.state)
  {
  }

  /** Every batch keeps the column in step with the properties. */
  lemma {:induction false} RunKeepsColumns(h: Host, t: Schemas, s: Neo, actions: seq<Action>)
    requires ColumnsMatch(s) && NeoRun(h, t, s, actions).Ok?
    ensures ColumnsMatch(NeoRun(h, t, s, actions).value.state)
    decreases actions
  {
    if actions != [] {
      StepKeepsColumns(h, t, s, actions[0]);
      RunKeepsColumns(h, t, NeoStep(h, t, s, actions[0]).value.state, actions[1..]);
    }
  }

  // ---- The same abstract graph -----------------------------------------------------------------------

  /** Both stores hold the same records and edges, and every record has exactly one link: to its type. */
  ghost predicate Mirrors(neo: Neo, s: State) {
    && neo.records.Keys == s.nodes.Keys
    && neo.relations == s.edges
    && (forall id | id in s.nodes ::
          && neo.records[id].properties == s.nodes[id].properties
          && neo.records[id].entityId == s.nodes[id].kind)
    && (forall l :: l in neo.links <==> l.id in s.nodes && l.entity == s.nodes[l.id].kind)
  }

  lemma MirroredRecord(t: Schemas, neo: Neo, s: State, id: string)
    requires Mirrors(neo, s) && LooseRows(t, s)
    ensures ReadRecord(t, neo, id) == Ok(ReadNode(s, id))
  {
    if id in s.nodes {
      assert LooseRow(t, s.nodes[id]);
      assert Link(id, s.nodes[id].kind) in neo.links;
      assert EntitiesOf(t, neo, id) == {s.nodes[id].kind};
    }
  }

  lemma {:induction false} UpsertMirrors(neo: Neo, s: State, id: string, n: Node)
    requires Mirrors(neo, s)
    ensures Mirrors(UpsertRecord(neo, id, n.kind, n.properties), s.(nodes := s.nodes[id := n]))
  {
  }

  /** Where the adapters follow different rules: a blank id, which only this adapter refuses at creation,
      and the namespace of an App record. */
  predicate SameRules(h: Host, t: Schemas, a: Action) {
    a.CreateNode? ==> (a.id == "" || !Blank(a.id)) && SameNamespaceRule(h, t, a)
  }

  /** Under a textual `namespace`, a supplied one that comes out empty is replaced by the derived one in the
      row adapter only; under any other, what is derived is text there and of the declared type here. */
  predicate SameNamespaceRule(h: Host, t: Schemas, a: Action)
    requires a.CreateNode?
  {
    if a.kind in t && Declared(t[a.kind])[NAMESPACE] != PString then !Trapped(h, t, a)
    else
      (IsAppId(a.id) && NAMESPACE in a.properties && ToStr(h, a.properties[NAMESPACE]) == "") ==>
        AppNamespace(a.id) == Str("")
  }

  /** Two outcomes agree: both refuse, or both succeed on the same graph with the same reverse. */
  ghost predicate Agrees(n: Result<NeoEffect>, e: Result<Effect>) {
    && (n.Ok? <==> e.Ok?)
    && (n.Ok? ==>
          && Mirrors(n.value.state, e.value.state)
          && n.value.normalized == e.value.normalized
          && n.value.undo == e.value.undo)
  }

  lemma SameSchema(h: Host, t: Schemas, kind: string, p: Props)
    ensures Coerce(h, NeoSchema(t, kind), p).Ok? <==> Coerce(h, SchemaOf(t, kind), p).Ok?
    ensures Coerce(h, NeoSchema(t, kind), p).Ok? ==> Coerce(h, NeoSchema(t, kind), p) == Coerce(h, SchemaOf(t, kind), p)
  {
  }

  /** A text under a missing `namespace` neither helps nor hinders validation. */
  lemma {:induction false} AddedText(h: Host, schema: Schema, p: Props, v: Value)
    requires Declared(schema)[NAMESPACE] == PString && v.Str? && NAMESPACE !in p
    ensures Coerce(h, Some(schema), p[NAMESPACE := v]).Ok? <==> Coerce(h, Some(schema), p).Ok?
    ensures Coerce(h, Some(schema), p).Ok? ==>
      Coerce(h, Some(schema), p[NAMESPACE := v]).value == Coerce(h, Some(schema), p).value[NAMESPACE := v]
  {
    var d, q := Declared(schema), p[NAMESPACE := v];
    assert q.Keys == p.Keys + {NAMESPACE} && NAMESPACE in d;
    forall k | k in p ensures q[k] == p[k] {}
    if Coerce(h, Some(schema), p).Ok? {
      assert Coerce(h, Some(schema), q).value == Coerce(h, Some(schema), p).value[NAMESPACE := v];
    }
  }

  /** Under any other type the derived text may be refused, and is never stored as it is. */
  lemma {:induction false} AddedOther(h: Host, schema: Schema, p: Props, v: Value)
    requires Declared(schema)[NAMESPACE] != PString && v.Str? && NAMESPACE !in p
    ensures Coerce(h, Some(schema), p[NAMESPACE := v]).Ok? ==>
      Coerce(h, Some(schema), p).Ok? && Coerce(h, Some(schema), p[NAMESPACE := v]).value[NAMESPACE] != v
  {
    var d, q := Declared(schema), p[NAMESPACE := v];
    assert q.Keys == p.Keys + {NAMESPACE} && NAMESPACE in d;
    forall k | k in p ensures q[k] == p[k] {}
    if Coerce(h, Some(schema), q).Ok? { CoercionTypes(h, schema, q); }
  }

  /** Deriving before validation or after it comes to the same stored properties, exactly under the
      shared rule. */
  lemma {:induction false} DeriveEarlyOrLate(h: Host, t: Schemas, a: Action)
    requires a.CreateNode?
    ensures var early := Coerce(h, SchemaOf(t, a.kind), WithNamespace(a.id, a.properties));
            var late := Coerce(h, SchemaOf(t, a.kind), a.properties);
            && (early.Ok? ==> late.Ok?)
            && (late.Ok? ==>
                  (early.Ok? && CreatedNode(a.id, a.kind, late.value).properties == early.value
                   <==> SameNamespaceRule(h, t, a)))
  {
    if a.kind in t {
      if Declared(t[a.kind])[NAMESPACE] == PString {
        DeriveText(h, t, a);
      } else {
        DeriveOther(h, t, a);
      }
    }
  }

  lemma {:induction false} DeriveText(h: Host, t: Schemas, a: Action)
    requires a.CreateNode? && a.kind in t && Declared(t[a.kind])[NAMESPACE] == PString
    ensures var early := Coerce(h, SchemaOf(t, a.kind), WithNamespace(a.id, a.properties));
            var late := Coerce(h, SchemaOf(t, a.kind), a.properties);
            && (early.Ok? <==> late.Ok?)
            && (early.Ok? ==>
                  (CreatedNode(a.id, a.kind, late.value).properties == early.value <==> SameNamespaceRule(h, t, a)))
  {
    var late := Coerce(h, SchemaOf(t, a.kind), a.properties);
    if NAMESPACE !in a.properties && IsAppId(a.id) {
      AddedText(h, t[a.kind], a.properties, AppNamespace(a.id));
    } else if late.Ok? && NAMESPACE in a.properties {
      assert late.value[NAMESPACE] == Str(ToStr(h, a.properties[NAMESPACE]));
    }
  }

  lemma {:induction false} DeriveOther(h: Host, t: Schemas, a: Action)
    requires a.CreateNode? && a.kind in t && Declared(t[a.kind])[NAMESPACE] != PString
    ensures var early := Coerce(h, SchemaOf(t, a.kind), WithNamespace(a.id, a.properties));
            var late := Coerce(h, SchemaOf(t, a.kind), a.properties);
            && (early.Ok? ==> late.Ok?)
            && (late.Ok? ==>
                  (early.Ok? && CreatedNode(a.id, a.kind, late.value).properties == early.value
                   <==> !Trapped(h, t, a)))
  {
    var early := Coerce(h, SchemaOf(t, a.kind), WithNamespace(a.id, a.properties));
    var late := Coerce(h, SchemaOf(t, a.kind), a.properties);
    if late.Ok? { CoercionTypes(h, t[a.kind], a.properties); }
    if NAMESPACE !in a.properties && IsAppId(a.id) {
      AddedOther(h, t[a.kind], a.properties, AppNamespace(a.id));
      if late.Ok? && early.Ok? {
        assert CreatedNode(a.id, a.kind, late.value).properties[NAMESPACE] == AppNamespace(a.id);
      }
    } else if late.Ok? && NeedsNamespace(a.id, late.value) {
      assert !Truthy(late.value[NAMESPACE]) && !late.value[NAMESPACE].Str?;
      assert CreatedNode(a.id, a.kind, late.value).properties[NAMESPACE] != late.value[NAMESPACE];
    }
  }

  lemma {:induction false} CreateAgrees(h: Host, t: Schemas, neo: Neo, s: State, a: Action)
    requires LooseRows(t, s) && Mirrors(neo, s) && a.CreateNode? && SameRules(h, t, a)
    ensures Agrees(NeoCreate(h, t, neo, a), StepCreate(h, t, s, a))
  {
    SameSchema(h, t, a.kind, WithNamespace(a.id, a.properties));
    DeriveEarlyOrLate(h, t, a);
    MirroredRecord(t, neo, s, a.id);
    if StepCreate(h, t, s, a).Ok? {
      var late := Coerce(h, SchemaOf(t, a.kind), a.properties).value;
      UpsertMirrors(neo, s, a.id, CreatedNode(a.id, a.kind, late));
    }
  }

  lemma {:induction false} ReplaceAgrees(h: Host, t: Schemas, neo: Neo, s: State, a: Action)
    requires LooseRows(t, s) && Mirrors(neo, s) && (a.UpdateNode? || a.ReplaceNode?)
    ensures Agrees(NeoReplace(h, t, neo, a), StepReplace(h, t, s, a))
  {
    MirroredRecord(t, neo, s, a.id);
    if a.id in s.nodes { WriteAgrees(h, t, neo, s, a); }
  }

  lemma {:induction false} WriteAgrees(h: Host, t: Schemas, neo: Neo, s: State, a: Action)
    requires Mirrors(neo, s) && (a.UpdateNode? || a.ReplaceNode?) && a.id in s.nodes
    requires ReadRecord(t, neo, a.id) == Ok(ReadNode(s, a.id))
    ensures Agrees(NeoReplace(h, t, neo, a), StepReplace(h, t, s, a))
  {
    var kind := if a.override.Some? then a.override.value else s.nodes[a.id].kind;
    var incoming := if a.ReplaceNode? then a.properties else s.nodes[a.id].properties + a.properties;
    SameSchema(h, t, kind, incoming);
    if Coerce(h, SchemaOf(t, kind), incoming).Ok? {
      UpsertMirrors(neo, s, a.id, StoredNode(kind, Coerce(h, SchemaOf(t, kind), incoming).value));
    }
  }

  lemma {:induction false} DeleteAgrees(t: Schemas, neo: Neo, s: State, a: Action)
    requires LooseRows(t, s) && Mirrors(neo, s) && a.DeleteNode?
    ensures Agrees(NeoDelete(t, neo, a), StepDelete(s, a))
  {
    MirroredRecord(t, neo, s, a.id);
  }

  lemma {:induction false} PresentIsReadable(t: Schemas, neo: Neo, s: State)
    requires LooseRows(t, s) && Mirrors(neo, s)
    ensures forall id :: Readable(t, neo, id) <==> id in s.nodes
  {
    forall id ensures Readable(t, neo, id) <==> id in s.nodes { MirroredRecord(t, neo, s, id); }
  }

  lemma {:induction false} WriteKeepsRows(t: Schemas, s: State, id: string, n: Node)
    requires LooseRows(t, s) && id != "" && LooseRow(t, n)
    ensures LooseRows(t, s.(nodes := s.nodes[id := n]))
  {
  }

  /** The edge check of a restoration, at mirrored graphs. */
  lemma {:induction false} EdgeChecksAgree(t: Schemas, neo: Neo, s: State, es: map<EdgeKey, Props>)
    requires LooseRows(t, s) && Mirrors(neo, s)
    ensures (exists k :: k in es && !Restorable(t, neo, k))
       <==> (exists k :: k in es && !(KeyGiven(k) && EndpointsIn(k, s.nodes)))
    ensures Mirrors(neo.(relations := neo.relations + es), s.(edges := s.edges + es))
  {
    PresentIsReadable(t, neo, s);
  }

  lemma {:induction false} RestoreAgrees(h: Host, t: Schemas, neo: Neo, s: State, a: Action)
    requires LooseRows(t, s) && Mirrors(neo, s) && a.RestoreNode?
    ensures Agrees(NeoRestore(h, t, neo, a), StepRestore(h, t, s, a))
  {
    MirroredRecord(t, neo, s, a.id);
    SameSchema(h, t, a.kind, a.properties);
    var validated := Coerce(h, SchemaOf(t, a.kind), a.properties);
    if !Blank(a.id) && !Blank(a.kind) && validated.Ok? {
      var n := StoredNode(a.kind, validated.value);
      UpsertMirrors(neo, s, a.id, n);
      StoredRow(h, t, a.kind, a.properties);
      WriteKeepsRows(t, s, a.id, n);
      EdgeChecksAgree(t, UpsertRecord(neo, a.id, a.kind, validated.value), s.(nodes := s.nodes[a.id := n]), a.edges);
    }
  }

  lemma {:induction false} EdgeAgrees(t: Schemas, neo: Neo, s: State, a: Action)
    requires LooseRows(t, s) && Mirrors(neo, s) && (a.CreateEdge? || a.DeleteEdge?)
    ensures Agrees(NeoEdge(t, neo, a), StepEdge(s, a))
  {
    MirroredRecord(t, neo, s, a.key.source);
    MirroredRecord(t, neo, s, a.key.target);
  }

  lemma {:induction false} StepAgrees(h: Host, t: Schemas, neo: Neo, s: State, a: Action)
    requires LooseGraph(t, s) && Mirrors(neo, s) && SameRules(h, t, a)
    ensures Agrees(NeoStep(h, t, neo, a), Step(h, t, s, a))
  {
    if a.CreateNode? {
      CreateAgrees(h, t, neo, s, a);
    } else if a.UpdateNode? || a.ReplaceNode? {
      ReplaceAgrees(h, t, neo, s, a);
    } else if a.DeleteNode? {
      DeleteAgrees(t, neo, s, a);
    } else if a.RestoreNode? {
      RestoreAgrees(h, t, neo, s, a);
    } else if !a.Unsupported? {
      EdgeAgrees(t, neo, s, a);
    }
  }

  /** Two adapters, one reducer, under every table. From the same abstract graph both succeed or both fail,
      and on success they reach the same records, types, properties and edges, report the same actions and
      the same reverse batch, and every record is linked to exactly one entity. */
  lemma {:induction false} AdaptersAgree(h: Host, t: Schemas, neo: Neo, s: State, actions: seq<Action>)
    requires LooseGraph(t, s) && Mirrors(neo, s)
    requires forall a | a in actions :: SameRules(h, t, a)
    ensures NeoRun(h, t, neo, actions).Ok? <==> Run(h, t, s, actions).Ok?
    ensures NeoRun(h, t, neo, actions).Ok? ==>
      var n, r := NeoRun(h, t, neo, actions).value, Run(h, t, s, actions).value;
      Mirrors(n.state, r.state) && n.normalized == r.normalized && n.undo == r.undo
    decreases actions
  {
    if actions != [] {
      var n, e := NeoStep(h, t, neo, actions[0]), Step(h, t, s, actions[0]);
      StepAgrees(h, t, neo, s, actions[0]);
      if e.Ok? {
        StepKeepsLoose(h, t, s, actions[0]);
        AdaptersAgree(h, t, n.value.state, e.value.state, actions[1..]);
      }
    }
  }

  /** The condition is exact: outside it, a creation the row adapter accepts comes out differently. */
  lemma AdaptersDiffer(h: Host, t: Schemas, neo: Neo, s: State, a: Action)
    requires LooseGraph(t, s) && Mirrors(neo, s)
    requires a.CreateNode? && !SameRules(h, t, a) && StepCreate(h, t, s, a).Ok?
    ensures !Agrees(NeoCreate(h, t, neo, a), StepCreate(h, t, s, a))
  {
    if !Blank(a.id) {
      SameSchema(h, t, a.kind, WithNamespace(a.id, a.properties));
      DeriveEarlyOrLate(h, t, a);
      MirroredRecord(t, neo, s, a.id);
    }
  }

  // ---- Whole calls -----------------------------------------------------------------------------------

  function ReadRelation(s: Neo, k: EdgeKey): Option<Props> {
    if k in s.relations then Some(s.relations[k]) else None
  }

  /** The evidence this adapter's readers give at the places a reference names. */
  function NeoReadGuard(t: Schemas, s: Neo, reference: Guard): Result<Guard> {
    if reference.version != 1 then Err(BadEvidence)
    else if exists id :: id in reference.nodes && ReadRecord(t, s, id).Err? then Err(BadEvidence)
    else if exists text :: text in reference.edges && |Parts(text)| != 3 then Err(BadEvidence)
    else Ok(Guard(1,
                  map id | id in reference.nodes && ReadRecord(t, s, id).Ok? :: ReadRecord(t, s, id).value,
                  map text | text in reference.edges && |Parts(text)| == 3 :: ReadRelation(s, KeyOf(text)),
                  map id | id in reference.incident :: IncidentRelations(s, id)))
  }

  function NeoCaptureGuard(t: Schemas, s: Neo, actions: seq<Action>): Result<Guard> {
    NeoReadGuard(t, s, EmptyGuard(actions))
  }

  datatype NeoCommitted = NeoCommitted(state: Neo, result: BatchResult)

  /** A whole call without the ledger. */
  function NeoCommit(h: Host, t: Schemas, s: Neo, actions: seq<Action>, expected: Option<Guard>): Result<NeoCommitted> {
    if actions == [] then Err(EmptyBatch)
    else if expected.Some? && NeoReadGuard(t, s, expected.value).Err? then Err(BadEvidence)
    else if expected.Some? && NeoReadGuard(t, s, expected.value).value != expected.value then Err(Conflict)
    else
      var done := NeoRun(h, t, s, actions);
      if done.Err? then Err(done.error)
      else
        var guard := NeoCaptureGuard(t, done.value.state, done.value.normalized);
        if guard.Err? then Err(guard.error)
        else Ok(NeoCommitted(done.value.state, BatchResult(done.value.normalized, done.value.undo, guard.value)))
  }

  lemma SameEvidence(t: Schemas, neo: Neo, s: State, reference: Guard)
    requires LooseRows(t, s) && Mirrors(neo, s)
    ensures NeoReadGuard(t, neo, reference) == ReadGuard(s, reference)
  {
    forall id ensures ReadRecord(t, neo, id) == Ok(ReadNode(s, id)) { MirroredRecord(t, neo, s, id); }
    var n, g := NeoReadGuard(t, neo, reference), ReadGuard(s, reference);
    if n.Ok? && g.Ok? {
      assert n.value.nodes == g.value.nodes;
      assert n.value.edges == g.value.edges;
      assert n.value.incident == g.value.incident;
    }
  }

  /** Whole calls agree too: both check the evidence alike, and on success report the same batch, the same
      reverse batch and the same evidence. */
  lemma CommitsAgree(h: Host, t: Schemas, neo: Neo, s: State, actions: seq<Action>, expected: Option<Guard>)
    requires LooseGraph(t, s) && Mirrors(neo, s)
    requires forall a | a in actions :: SameRules(h, t, a)
    ensures var n, c := NeoCommit(h, t, neo, actions, expected), Commit(h, t, s, actions, expected);
            && (n.Ok? <==> c.Ok?)
            && (n.Ok? ==> Mirrors(n.value.state, c.value.state) && n.value.result == c.value.result)
  {
    if expected.Some? { SameEvidence(t, neo, s, expected.value); }
    AdaptersAgree(h, t, neo, s, actions);
    if Run(h, t, s, actions).Ok? {
      var n, r := NeoRun(h, t, neo, actions).value, Run(h, t, s, actions).value;
      RunKeepsLoose(h, t, s, actions);
      SameEvidence(t, n.state, r.state, EmptyGuard(r.normalized));
    }
  }

  /** Guarded compensation carries over. A batch committed through this adapter is reversed through it, in
      any later graph and under any later table, under the same conditions and to the same graph. */
  lemma NeoCompensation(
      h: Host, t: Schemas, neo: Neo, s: State, actions: seq<Action>, c: NeoCommitted,
      later: Schemas, neoLater: Neo, b: State)
    requires TableOk(t) && LooseGraph(t, s) && Mirrors(neo, s)
    requires LooseGraph(later, b) && Mirrors(neoLater, b)
    requires forall a | a in actions :: Public(a) && SameRules(h, t, a)
    requires NeoCommit(h, t, neo, actions, None) == Ok(c)
    ensures Run(h, t, s, actions).Ok?
    ensures var after, r := Run(h, t, s, actions).value.state, RegionOf(c.result.actions);
            var back := NeoCommit(h, later, neoLater, c.result.undo, Some(c.result.guard));
            && (back.Ok? <==>
                  Agree(r, after, b) && OutsidePresent(c.result, b) && PayloadsAccepted(h, later, c.result))
            && (back.Ok? ==>
                  exists final :: Mirrors(back.value.state, final) && BroughtBack(h, later, r, s, b, final))
  {
    CommitsAgree(h, t, neo, s, actions, None);
    var row := Commit(h, t, s, actions, None).value;
    GuardedCompensation(h, t, s, actions, row, later, b);
    UndoHasNoCreation(h, t, s, actions);
    CommitsAgree(h, later, neoLater, b, c.result.undo, Some(c.result.guard));
    NoBlankCreations(h, t, neo, actions);
    if Commit(h, later, b, c.result.undo, Some(c.result.guard)).Ok? {
      var final := Commit(h, later, b, c.result.undo, Some(c.result.guard)).value.state;
      assert BroughtBack(h, later, RegionOf(c.result.actions), s, b, final);
    }
  }

  /** This adapter never commits a creation with a blank id. */
  lemma {:induction false} NoBlankCreations(h: Host, t: Schemas, neo: Neo, actions: seq<Action>)
    requires NeoRun(h, t, neo, actions).Ok?
    ensures forall a | a in actions :: !BlankCreate(a)
    decreases actions
  {
    if actions != [] {
      NoBlankCreations(h, t, NeoStep(h, t, neo, actions[0]).value.state, actions[1..]);
      assert forall a :: a in actions <==> a == actions[0] || a in actions[1..];
    }
  }

  lemma {:induction false} UndoHasNoCreation(h: Host, t: Schemas, s: State, actions: seq<Action>)
    requires Run(h, t, s, actions).Ok?
    ensures forall x | x in Run(h, t, s, actions).value.undo :: !x.CreateNode?
    decreases actions
  {
    if actions != [] {
      var e := Step(h, t, s, actions[0]).value;
      UndoHasNoCreation(h, t, e.state, actions[1..]);
      if IsEdgeAction(actions[0]) { assert StepEdge(s, actions[0]) == Ok(e); }
    }
  }
}
