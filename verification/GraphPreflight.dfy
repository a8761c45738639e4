/** Validation of a batch without writing, compared with what the commit does. */
module GraphPreflight {
  import opened Basics
  import opened Ontology
  import opened Graph
  import opened GraphReverse
  import opened GraphUndo
  import opened GraphGuard
  import opened GraphCompensation

  /** The local tables preflight keeps: it derives no namespace and forgets edge properties. */
  datatype Preview = Preview(nodes: map<string, Record>, edges: set<EdgeKey>)

  datatype Checked = Checked(preview: Preview, normalized: Action)

  function PreviewOf(s: State): Preview {
    Preview(map id | id in s.nodes :: Record(s.nodes[id].kind, s.nodes[id].properties), s.edges.Keys)
  }

  function CheckCreate(h: Host, t: Schemas, p: Preview, a: Action): Result<Checked>
    requires a.CreateNode?
  {
    if a.id == "" || a.kind == "" then Err(EmptyText)
    else
      var validated := Coerce(h, SchemaOf(t, a.kind), a.properties);
      if validated.Err? then Err(validated.error)
      else Ok(Checked(p.(nodes := p.nodes[a.id := Record(a.kind, validated.value)]),
                      CreateNode(a.id, a.kind, validated.value)))
  }

  function CheckUpdate(h: Host, t: Schemas, p: Preview, a: Action): Result<Checked>
    requires a.UpdateNode?
  {
    if Blank(a.id) then Err(BlankText)
    else if a.id !in p.nodes then Err(MissingNode)
    else
      var node := p.nodes[a.id];
      var validated := Coerce(h, SchemaOf(t, node.kind), node.properties + a.properties);
      if validated.Err? then Err(validated.error)
      else Ok(Checked(p.(nodes := p.nodes[a.id := Record(node.kind, validated.value)]),
                      UpdateNode(a.id, None, map k | k in a.properties && k in validated.value :: validated.value[k])))
  }

  function Dropped(p: Preview, id: string): Preview {
    Preview(p.nodes - {id}, set k | k in p.edges && !Incident(k, id))
  }

  function CheckDelete(p: Preview, a: Action): Result<Checked>
    requires a.DeleteNode?
  {
    if Blank(a.id) then Err(BlankText)
    else if a.id !in p.nodes then Err(MissingNode)
    else Ok(Checked(Dropped(p, a.id), a))
  }

  function CheckEdge(p: Preview, a: Action): Result<Checked>
    requires a.CreateEdge? || a.DeleteEdge?
  {
    if !KeyGiven(a.key) then Err(BlankText)
    else if a.CreateEdge? then
      if !(a.key.source in p.nodes && a.key.target in p.nodes) then Err(MissingEndpoint)
      else Ok(Checked(p.(edges := p.edges + {a.key}), a))
    else if a.key !in p.edges then Err(MissingEdge)
    else Ok(Checked(p.(edges := p.edges - {a.key}), a))
  }

  function Check(h: Host, t: Schemas, p: Preview, a: Action): Result<Checked> {
    match a
    case CreateNode(_, _, _) => CheckCreate(h, t, p, a)
    case UpdateNode(_, _, _) => CheckUpdate(h, t, p, a)
    case DeleteNode(_) => CheckDelete(p, a)
    case CreateEdge(_, _) => CheckEdge(p, a)
    case DeleteEdge(_) => CheckEdge(p, a)
    case _ => Err(UnsupportedAction)
  }

  function CheckAll(h: Host, t: Schemas, p: Preview, actions: seq<Action>): Result<seq<Action>>
    decreases actions
  {
    if actions == [] then Ok([])
    else
      var first := Check(h, t, p, actions[0]);
      if first.Err? then Err(first.error)
      else
        var rest := CheckAll(h, t, first.value.preview, actions[1..]);
        if rest.Err? then rest else Ok([first.value.normalized] + rest.value)
  }

  function Preflight(h: Host, t: Schemas, s: State, actions: seq<Action>): Result<seq<Action>> {
    if actions == [] then Err(EmptyBatch) else CheckAll(h, t, PreviewOf(s), actions)
  }

  /** The batches preflight is for: the five public actions, with no type override on an update. */
  predicate Plain(a: Action) {
    a.CreateNode? || (a.UpdateNode? && a.override.None?) || a.DeleteNode? || a.CreateEdge? || a.DeleteEdge?
  }

  /** Merging into a stored record is refused exactly when the incoming part alone is, or when the merge
      keeps a `namespace` the type cannot read. */
  lemma MergeCoercion(h: Host, s: Schema, base: Props, incoming: Props)
    requires LooselyTyped(s, base)
    ensures Coerce(h, Some(s), base + incoming).Ok? <==>
            && Coerce(h, Some(s), incoming).Ok?
            && (NAMESPACE in base && NAMESPACE !in incoming ==>
                  CoerceValue(h, Declared(s)[NAMESPACE], base[NAMESPACE]).Some?)
  {
    var d := Declared(s);
    assert base.Keys <= d.Keys;
    forall k | k in base && k != NAMESPACE ensures CoerceValue(h, d[k], base[k]) == Some(base[k]) {
      assert HasType(d[k], base[k]);
    }
    assert (base + incoming).Keys == base.Keys + incoming.Keys;
    if incoming.Keys <= d.Keys {
      forall k | k in incoming && CoerceValue(h, d[k], incoming[k]).None?
        ensures Coerce(h, Some(s), base + incoming).Err?
      {
        assert (base + incoming)[k] == incoming[k];
      }
      if NAMESPACE in base && NAMESPACE !in incoming {
        assert (base + incoming)[NAMESPACE] == base[NAMESPACE];
      }
    }
  }

  /** Merging what a merge stored for the incoming part stores the same again. */
  lemma MergeTwice(h: Host, s: Schema, base: Props, incoming: Props)
    requires Coerce(h, Some(s), incoming).Ok?
    ensures Coerce(h, Some(s), base + Coerce(h, Some(s), incoming).value) == Coerce(h, Some(s), base + incoming)
  {
    var d := Declared(s);
    var again := Coerce(h, Some(s), incoming).value;
    CoercionTypes(h, s, incoming);
    CoercionIdempotent(h, s, incoming);
    assert (base + again).Keys == (base + incoming).Keys;
    if (base + incoming).Keys <= d.Keys {
      forall k | k in base + incoming
        ensures CoerceValue(h, d[k], (base + again)[k]) == CoerceValue(h, d[k], (base + incoming)[k])
      {
        if k in incoming { SameAgain(h, d[k], incoming[k]); }
      }
      SameCoercions(h, s, base + again, base + incoming);
    }
  }

  lemma SameCoercions(h: Host, s: Schema, p: Props, q: Props)
    requires p.Keys == q.Keys <= Declared(s).Keys
    requires forall k | k in q :: CoerceValue(h, Declared(s)[k], p[k]) == CoerceValue(h, Declared(s)[k], q[k])
    ensures Coerce(h, Some(s), p) == Coerce(h, Some(s), q)
  {
    if Coerce(h, Some(s), p).Ok? && Coerce(h, Some(s), q).Ok? {
      assert Coerce(h, Some(s), p).value == Coerce(h, Some(s), q).value;
    }
    if k :| k in p && CoerceValue(h, Declared(s)[k], p[k]).None? { assert k in q; }
    if k :| k in q && CoerceValue(h, Declared(s)[k], q[k]).None? { assert k in p; }
  }

  lemma SameAgain(h: Host, expected: PropType, v: Value)
    requires CoerceValue(h, expected, v).Some?
    ensures CoerceValue(h, expected, CoerceValue(h, expected, v).value) == CoerceValue(h, expected, v)
  {
  }

  // ---- Where preflight and commit part -------------------------------------------------------------

  /** An update that brings no `namespace` of its own. */
  predicate BlindUpdate(a: Action) {
    a.UpdateNode? && NAMESPACE !in a.properties
  }

  /** The first action on the record is such an update. */
  predicate MeetsBlindUpdate(actions: seq<Action>, id: string)
    decreases actions
  {
    actions != [] && (if OnRecord(actions[0], id) then BlindUpdate(actions[0]) else MeetsBlindUpdate(actions[1..], id))
  }

  /** The batch updates a record right after creating it, with a derived namespace that the type cannot
      read and that the update keeps. */
  predicate Blocked(h: Host, t: Schemas, actions: seq<Action>) {
    exists i | 0 <= i < |actions| ::
      UnreadableCreate(h, t, actions[i]) && MeetsBlindUpdate(actions[i + 1..], actions[i].id)
  }

  predicate Accepts(h: Host, t: Schemas, kind: string, p: Props) {
    Coerce(h, SchemaOf(t, kind), p).Ok?
  }

  /** A record and its preview: of one type, and read in the preview if read at all. */
  ghost predicate TracksRow(h: Host, t: Schemas, r: Record, n: Node) {
    && r.kind == n.kind && n.kind in t
    && LooselyTyped(t[n.kind], r.properties) && LooselyTyped(t[n.kind], n.properties)
    && (Reads(h, t, n) ==> Accepts(h, t, r.kind, r.properties))
  }

  /** Preflight's tables follow the graph a commit would have reached. */
  ghost predicate Tracks(h: Host, t: Schemas, p: Preview, s: State) {
    && p.nodes.Keys == s.nodes.Keys
    && p.edges == s.edges.Keys
    && forall id | id in s.nodes :: TracksRow(h, t, p.nodes[id], s.nodes[id])
  }

  /** The preview reads a record that the graph does not. */
  ghost predicate Hidden(h: Host, t: Schemas, p: Preview, s: State, id: string) {
    && id in s.nodes && id in p.nodes
    && Accepts(h, t, p.nodes[id].kind, p.nodes[id].properties) && !Reads(h, t, s.nodes[id])
  }

  lemma TracksStart(h: Host, t: Schemas, s: State)
    requires LooseRows(t, s)
    ensures Tracks(h, t, PreviewOf(s), s)
    ensures forall id :: !Hidden(h, t, PreviewOf(s), s, id)
  {
    forall id | id in s.nodes ensures LooseRow(t, s.nodes[id]) {}
  }

  /** A record is hidden after an action when it was before, or when the action is its creation. */
  ghost predicate HiddenAfter(h: Host, t: Schemas, p: Preview, s: State, a: Action, q: Preview, u: State) {
    && (forall id | !OnRecord(a, id) :: Hidden(h, t, q, u, id) <==> Hidden(h, t, p, s, id))
    && (IsNodeAction(a) ==> (Hidden(h, t, q, u, a.id) <==> UnreadableCreate(h, t, a)))
  }

  /** Both accept: the tables still track, and the normalised action does what the raw one does. */
  ghost predicate Agreed(h: Host, t: Schemas, p: Preview, s: State, a: Action, c: Checked, e: Effect) {
    && Tracks(h, t, c.preview, e.state)
    && HiddenAfter(h, t, p, s, a, c.preview, e.state)
    && Step(h, t, s, c.normalized).Ok?
    && Step(h, t, s, c.normalized).value.state == e.state
  }

  /** One action: the verdicts differ exactly when a blind update meets a hidden row. */
  ghost predicate Follows(
      h: Host, t: Schemas, p: Preview, s: State, a: Action, c: Result<Checked>, e: Result<Effect>)
  {
    && (e.Ok? <==> c.Ok? && !(BlindUpdate(a) && Hidden(h, t, p, s, a.id)))
    && (e.Ok? ==> Agreed(h, t, p, s, a, c.value, e.value))
  }

  lemma {:induction false} WriteTracks(h: Host, t: Schemas, p: Preview, s: State, id: string, r: Record, n: Node)
    requires Tracks(h, t, p, s) && TracksRow(h, t, r, n)
    ensures var q, u := p.(nodes := p.nodes[id := r]), s.(nodes := s.nodes[id := n]);
            && Tracks(h, t, q, u)
            && forall m :: Hidden(h, t, q, u, m) <==>
                 if m == id then Accepts(h, t, r.kind, r.properties) && !Reads(h, t, n) else Hidden(h, t, p, s, m)
  {
  }

  lemma {:induction false} CreateFollows(h: Host, t: Schemas, p: Preview, s: State, a: Action)
    requires Tracks(h, t, p, s) && a.CreateNode?
    ensures Follows(h, t, p, s, a, CheckCreate(h, t, p, a), StepCreate(h, t, s, a))
  {
    if StepCreate(h, t, s, a).Ok? {
      var validated := Coerce(h, SchemaOf(t, a.kind), a.properties).value;
      var n := CreatedNode(a.id, a.kind, validated);
      CoercionTypes(h, t[a.kind], a.properties);
      CoercionIdempotent(h, t[a.kind], a.properties);
      CreatedRow(h, t, a);
      CreatedReads(h, t, a);
      WriteTracks(h, t, p, s, a.id, Record(a.kind, validated), n);
    }
  }

  /** The stored row of an update is read, and so is its preview. */
  lemma UpdatedRow(h: Host, t: Schemas, kind: string, p: Props)
    requires kind in t && Accepts(h, t, kind, p)
    ensures var q := Coerce(h, SchemaOf(t, kind), p).value;
            LooselyTyped(t[kind], q) && Accepts(h, t, kind, q)
  {
    CoercionTypes(h, t[kind], p);
    CoercionIdempotent(h, t[kind], p);
  }

  /** An update that brings its own `namespace` does not read the old one. */
  lemma {:induction false} MergedAccepts(h: Host, t: Schemas, kind: string, base: Props, incoming: Props)
    requires kind in t && LooselyTyped(t[kind], base)
    ensures Accepts(h, t, kind, base + incoming) <==>
            Accepts(h, t, kind, incoming) && (NAMESPACE !in incoming ==> Accepts(h, t, kind, base))
  {
    var none: Props := map[];
    MergeCoercion(h, t[kind], base, incoming);
    MergeCoercion(h, t[kind], base, none);
    assert base + none == base && Coerce(h, Some(t[kind]), none).Ok?;
  }

  /** The verdicts on an update of one record, in the graph and in the preview. */
  lemma {:induction false} RowVerdicts(h: Host, t: Schemas, r: Record, n: Node, incoming: Props)
    requires TracksRow(h, t, r, n)
    ensures Accepts(h, t, n.kind, n.properties + incoming) <==>
            && Accepts(h, t, n.kind, r.properties + incoming)
            && !(NAMESPACE !in incoming && Accepts(h, t, r.kind, r.properties) && !Reads(h, t, n))
    ensures Accepts(h, t, n.kind, n.properties + incoming) ==> Accepts(h, t, n.kind, incoming)
  {
    MergedAccepts(h, t, n.kind, r.properties, incoming);
    MergedAccepts(h, t, n.kind, n.properties, incoming);
  }

  /** Updating with what the preview kept of the incoming part stores what the raw update stores. */
  lemma {:induction false} RowNormalized(h: Host, t: Schemas, r: Record, n: Node, incoming: Props)
    requires n.kind in t && Accepts(h, t, n.kind, incoming) && Accepts(h, t, n.kind, r.properties + incoming)
    ensures var c := Coerce(h, SchemaOf(t, n.kind), r.properties + incoming).value;
            var kept := map k | k in incoming && k in c :: c[k];
            Coerce(h, SchemaOf(t, n.kind), n.properties + kept) == Coerce(h, SchemaOf(t, n.kind), n.properties + incoming)
  {
    var schema := t[n.kind];
    MergeTwice(h, schema, n.properties, incoming);
    CoercionTypes(h, schema, incoming);
    CoercionTypes(h, schema, r.properties + incoming);
    var c := Coerce(h, SchemaOf(t, n.kind), r.properties + incoming).value;
    assert (map k | k in incoming && k in c :: c[k]) == Coerce(h, Some(schema), incoming).value;
  }

  lemma {:induction false} UpdateFollows(h: Host, t: Schemas, p: Preview, s: State, a: Action)
    requires Tracks(h, t, p, s) && a.UpdateNode? && a.override.None?
    ensures Follows(h, t, p, s, a, CheckUpdate(h, t, p, a), StepReplace(h, t, s, a))
  {
    UpdateVerdict(h, t, p, s, a);
    if StepReplace(h, t, s, a).Ok? {
      UpdateDone(h, t, p, s, a, CheckUpdate(h, t, p, a).value, StepReplace(h, t, s, a).value);
    }
  }

  lemma {:induction false} UpdateVerdict(h: Host, t: Schemas, p: Preview, s: State, a: Action)
    requires Tracks(h, t, p, s) && a.UpdateNode? && a.override.None?
    ensures StepReplace(h, t, s, a).Ok? <==>
            CheckUpdate(h, t, p, a).Ok? && !(BlindUpdate(a) && Hidden(h, t, p, s, a.id))
    ensures StepReplace(h, t, s, a).Ok? ==>
            !Blank(a.id) && a.id in s.nodes && Accepts(h, t, s.nodes[a.id].kind, a.properties)
  {
    if !Blank(a.id) && a.id in s.nodes {
      assert TracksRow(h, t, p.nodes[a.id], s.nodes[a.id]);
      RowVerdicts(h, t, p.nodes[a.id], s.nodes[a.id], a.properties);
    }
  }

  lemma {:induction false} UpdateDone(
      h: Host, t: Schemas, p: Preview, s: State, a: Action, c: Checked, e: Effect)
    requires Tracks(h, t, p, s) && a.UpdateNode? && a.override.None? && !Blank(a.id) && a.id in s.nodes
    requires CheckUpdate(h, t, p, a) == Ok(c) && StepReplace(h, t, s, a) == Ok(e)
    requires Accepts(h, t, s.nodes[a.id].kind, a.properties)
    ensures Agreed(h, t, p, s, a, c, e)
  {
    assert TracksRow(h, t, p.nodes[a.id], s.nodes[a.id]);
    UpdateShape(h, t, p, s, a, c, e);
    UpdateTracks(h, t, p, s, a.id, c.preview.nodes[a.id], p.nodes[a.id].properties + a.properties,
                 e.state.nodes[a.id], s.nodes[a.id].properties + a.properties);
    UpdateNormalized(h, t, p, s, a, c, e);
    assert !UnreadableCreate(h, t, a);
  }

  lemma {:induction false} UpdateShape(
      h: Host, t: Schemas, p: Preview, s: State, a: Action, c: Checked, e: Effect)
    requires a.UpdateNode? && a.override.None? && !Blank(a.id) && a.id in s.nodes && a.id in p.nodes
    requires p.nodes[a.id].kind == s.nodes[a.id].kind
    requires CheckUpdate(h, t, p, a) == Ok(c) && StepReplace(h, t, s, a) == Ok(e)
    ensures a.id in c.preview.nodes && a.id in e.state.nodes
    ensures var r, n, kind := c.preview.nodes[a.id], e.state.nodes[a.id], s.nodes[a.id].kind;
            && c.preview == p.(nodes := p.nodes[a.id := r]) && e.state == s.(nodes := s.nodes[a.id := n])
            && r.kind == kind && n.kind == kind
            && Coerce(h, SchemaOf(t, kind), p.nodes[a.id].properties + a.properties) == Ok(r.properties)
            && Coerce(h, SchemaOf(t, kind), s.nodes[a.id].properties + a.properties) == Ok(n.properties)
  {
  }

  lemma {:induction false} UpdateNormalized(
      h: Host, t: Schemas, p: Preview, s: State, a: Action, c: Checked, e: Effect)
    requires a.UpdateNode? && a.override.None? && !Blank(a.id) && a.id in s.nodes && a.id in p.nodes
    requires p.nodes[a.id].kind == s.nodes[a.id].kind && s.nodes[a.id].kind in t
    requires CheckUpdate(h, t, p, a) == Ok(c) && StepReplace(h, t, s, a) == Ok(e)
    requires Accepts(h, t, s.nodes[a.id].kind, a.properties)
    ensures Step(h, t, s, c.normalized).Ok? && Step(h, t, s, c.normalized).value.state == e.state
  {
    RowNormalized(h, t, p.nodes[a.id], s.nodes[a.id], a.properties);
  }

  /** Both tables store what they read, so nothing is hidden any more. */
  lemma {:induction false} UpdateTracks(
      h: Host, t: Schemas, p: Preview, s: State, id: string, r: Record, rp: Props, n: Node, np: Props)
    requires Tracks(h, t, p, s) && r.kind == n.kind && n.kind in t
    requires Coerce(h, SchemaOf(t, n.kind), rp) == Ok(r.properties) && Coerce(h, SchemaOf(t, n.kind), np) == Ok(n.properties)
    ensures var q, u := p.(nodes := p.nodes[id := r]), s.(nodes := s.nodes[id := n]);
            && Tracks(h, t, q, u) && !Hidden(h, t, q, u, id)
            && forall m | m != id :: Hidden(h, t, q, u, m) <==> Hidden(h, t, p, s, m)
  {
    UpdatedRow(h, t, n.kind, rp);
    UpdatedRow(h, t, n.kind, np);
    WriteTracks(h, t, p, s, id, r, n);
  }

  /** Where the records that are left are the same, they are tracked and hidden alike. */
  lemma KeptTracks(h: Host, t: Schemas, p: Preview, s: State, q: Preview, u: State)
    requires Tracks(h, t, p, s) && q.nodes.Keys == u.nodes.Keys && q.edges == u.edges.Keys
    requires forall m | m in u.nodes :: m in s.nodes && u.nodes[m] == s.nodes[m] && q.nodes[m] == p.nodes[m]
    ensures Tracks(h, t, q, u)
    ensures forall m :: Hidden(h, t, q, u, m) <==> m in u.nodes && Hidden(h, t, p, s, m)
  {
    forall m | m in u.nodes ensures TracksRow(h, t, q.nodes[m], u.nodes[m]) {
      assert TracksRow(h, t, p.nodes[m], s.nodes[m]);
    }
  }

  lemma DeleteFollows(h: Host, t: Schemas, p: Preview, s: State, a: Action, c: Checked, e: Effect)
    requires Tracks(h, t, p, s) && a.DeleteNode?
    requires CheckDelete(p, a) == Ok(c) && StepDelete(s, a) == Ok(e)
    ensures Agreed(h, t, p, s, a, c, e)
  {
    assert c.preview.edges == e.state.edges.Keys;
    KeptTracks(h, t, p, s, c.preview, e.state);
    assert c.normalized == a && !UnreadableCreate(h, t, a);
  }

  lemma EdgeShape(p: Preview, s: State, a: Action, c: Checked, e: Effect)
    requires (a.CreateEdge? || a.DeleteEdge?) && p.edges == s.edges.Keys
    requires CheckEdge(p, a) == Ok(c) && StepEdge(s, a) == Ok(e)
    ensures c.preview.nodes == p.nodes && e.state.nodes == s.nodes && c.preview.edges == e.state.edges.Keys
    ensures c.normalized == a
  {
  }

  lemma EdgeFollows(h: Host, t: Schemas, p: Preview, s: State, a: Action, c: Checked, e: Effect)
    requires Tracks(h, t, p, s) && (a.CreateEdge? || a.DeleteEdge?)
    requires CheckEdge(p, a) == Ok(c) && StepEdge(s, a) == Ok(e)
    ensures Agreed(h, t, p, s, a, c, e)
  {
    EdgeShape(p, s, a, c, e);
    EdgeTracks(h, t, p, s, a, c.preview, e.state);
    StepIsEdge(h, t, s, a);
  }

  lemma StepIsEdge(h: Host, t: Schemas, s: State, a: Action)
    requires a.CreateEdge? || a.DeleteEdge?
    ensures Step(h, t, s, a) == StepEdge(s, a)
  {
  }

  lemma EdgeTracks(h: Host, t: Schemas, p: Preview, s: State, a: Action, q: Preview, u: State)
    requires Tracks(h, t, p, s) && (a.CreateEdge? || a.DeleteEdge?)
    requires q.nodes == p.nodes && u.nodes == s.nodes && q.edges == u.edges.Keys
    ensures Tracks(h, t, q, u) && HiddenAfter(h, t, p, s, a, q, u)
  {
    KeptTracks(h, t, p, s, q, u);
  }

  lemma {:induction false} CheckFollows(h: Host, t: Schemas, p: Preview, s: State, a: Action)
    requires Tracks(h, t, p, s) && Plain(a)
    ensures Follows(h, t, p, s, a, Check(h, t, p, a), Step(h, t, s, a))
  {
    if a.CreateNode? {
      CreateFollows(h, t, p, s, a);
    } else if a.UpdateNode? {
      UpdateFollows(h, t, p, s, a);
    } else if a.DeleteNode? {
      if StepDelete(s, a).Ok? { DeleteFollows(h, t, p, s, a, CheckDelete(p, a).value, StepDelete(s, a).value); }
    } else {
      if StepEdge(s, a).Ok? { EdgeFollows(h, t, p, s, a, CheckEdge(p, a).value, StepEdge(s, a).value); }
    }
  }

  // ---- Whole batches -------------------------------------------------------------------------------

  /** A hidden row is updated blindly before anything else happens to its record. */
  ghost predicate BlockedFrom(h: Host, t: Schemas, p: Preview, s: State, actions: seq<Action>) {
    exists id :: Hidden(h, t, p, s, id) && MeetsBlindUpdate(actions, id)
  }

  lemma BlockedFirst(h: Host, t: Schemas, actions: seq<Action>)
    requires actions != []
    ensures Blocked(h, t, actions) <==>
            || (UnreadableCreate(h, t, actions[0]) && MeetsBlindUpdate(actions[1..], actions[0].id))
            || Blocked(h, t, actions[1..])
  {
    var rest := actions[1..];
    if i :| 1 <= i < |actions| && UnreadableCreate(h, t, actions[i]) && MeetsBlindUpdate(actions[i + 1..], actions[i].id) {
      assert rest[i - 1] == actions[i] && rest[i - 1 + 1..] == actions[i + 1..];
    }
    if i :| 0 <= i < |rest| && UnreadableCreate(h, t, rest[i]) && MeetsBlindUpdate(rest[i + 1..], rest[i].id) {
      assert rest[i] == actions[i + 1] && rest[i + 1..] == actions[i + 1 + 1..];
    }
  }

  lemma {:induction false} BlockedAfterStep(
      h: Host, t: Schemas, p: Preview, s: State, actions: seq<Action>, q: Preview, u: State)
    requires actions != [] && !(BlindUpdate(actions[0]) && Hidden(h, t, p, s, actions[0].id))
    requires HiddenAfter(h, t, p, s, actions[0], q, u)
    ensures BlockedFrom(h, t, p, s, actions) || Blocked(h, t, actions) <==>
            BlockedFrom(h, t, q, u, actions[1..]) || Blocked(h, t, actions[1..])
  {
    var a := actions[0];
    BlockedFirst(h, t, actions);
    if id :| Hidden(h, t, p, s, id) && MeetsBlindUpdate(actions, id) {
      assert !OnRecord(a, id);
      assert Hidden(h, t, q, u, id) && MeetsBlindUpdate(actions[1..], id);
    }
    if UnreadableCreate(h, t, a) && MeetsBlindUpdate(actions[1..], a.id) {
      assert OnRecord(a, a.id) && Hidden(h, t, q, u, a.id);
    }
    if id :| Hidden(h, t, q, u, id) && MeetsBlindUpdate(actions[1..], id) {
      if !OnRecord(a, id) { assert Hidden(h, t, p, s, id) && MeetsBlindUpdate(actions, id); }
    }
  }

  /** Both batches run, to the same graph, naming the same edges. */
  ghost predicate SameEffect(h: Host, t: Schemas, s: State, xs: seq<Action>, ys: seq<Action>) {
    && Run(h, t, s, xs).Ok? && Run(h, t, s, ys).Ok?
    && Run(h, t, s, xs).value.state == Run(h, t, s, ys).value.state
    && TouchedKeys(xs) == TouchedKeys(ys)
    && |xs| == |ys|
  }

  lemma {:induction false} SameEffectCons(
      h: Host, t: Schemas, s: State, next: State, x: Action, y: Action, xs: seq<Action>, ys: seq<Action>)
    requires Step(h, t, s, x).Ok? && Step(h, t, s, x).value.state == next
    requires Step(h, t, s, y).Ok? && Step(h, t, s, y).value.state == next
    requires (IsEdgeAction(x) || IsEdgeAction(y)) ==> x == y
    requires SameEffect(h, t, next, xs, ys)
    ensures SameEffect(h, t, s, [x] + xs, [y] + ys)
  {
    assert ([x] + xs)[1..] == xs && ([y] + ys)[1..] == ys;
    TouchedSplit(x, xs);
    TouchedSplit(y, ys);
  }

  lemma CheckKeepsEdges(h: Host, t: Schemas, p: Preview, a: Action)
    requires Check(h, t, p, a).Ok?
    ensures var n := Check(h, t, p, a).value.normalized;
            (IsEdgeAction(a) || IsEdgeAction(n)) ==> n == a
  {
  }

  lemma {:induction false} CheckAllFollows(h: Host, t: Schemas, p: Preview, s: State, actions: seq<Action>)
    requires Tracks(h, t, p, s)
    requires forall a | a in actions :: Plain(a)
    ensures Run(h, t, s, actions).Ok? <==>
            CheckAll(h, t, p, actions).Ok? && !BlockedFrom(h, t, p, s, actions) && !Blocked(h, t, actions)
    ensures Run(h, t, s, actions).Ok? ==> SameEffect(h, t, s, CheckAll(h, t, p, actions).value, actions)
    decreases actions
  {
    if actions != [] {
      var a := actions[0];
      var c, e := Check(h, t, p, a), Step(h, t, s, a);
      CheckFollows(h, t, p, s, a);
      if BlindUpdate(a) && Hidden(h, t, p, s, a.id) {
        assert OnRecord(a, a.id) && MeetsBlindUpdate(actions, a.id);
      } else if e.Ok? {
        CheckAllFollows(h, t, c.value.preview, e.value.state, actions[1..]);
        BlockedAfterStep(h, t, p, s, actions, c.value.preview, e.value.state);
        var rest := CheckAll(h, t, c.value.preview, actions[1..]);
        if Run(h, t, e.value.state, actions[1..]).Ok? {
          CheckKeepsEdges(h, t, p, a);
          SameEffectCons(h, t, s, e.value.state, c.value.normalized, a, rest.value, actions[1..]);
          assert [a] + actions[1..] == actions;
        }
      }
    }
  }

  /** Preflight and commit, under every table. A batch of plain actions commits exactly when preflight
      accepts it, no edge it names holds the evidence separator, and it does not update a record right
      after creating it with a derived namespace that the type cannot read and the update keeps. Preflight
      looks at neither. Committing the batch preflight normalised leaves the same graph as committing the
      raw one. */
  lemma PreflightAgrees(h: Host, t: Schemas, s: State, actions: seq<Action>)
    requires LooseGraph(t, s)
    requires forall a | a in actions :: Plain(a)
    ensures var checked := Preflight(h, t, s, actions);
            var committed := Commit(h, t, s, actions, None);
            && (committed.Ok? <==>
                  && checked.Ok? && !Blocked(h, t, actions)
                  && forall k | k in TouchedKeys(actions) :: Separable(k))
            && (committed.Ok? ==>
                  && Commit(h, t, s, checked.value, None).Ok?
                  && Commit(h, t, s, checked.value, None).value.state == committed.value.state)
  {
    TracksStart(h, t, s);
    CheckAllFollows(h, t, PreviewOf(s), s, actions);
    if actions != [] && Run(h, t, s, actions).Ok? {
      var checked := Preflight(h, t, s, actions).value;
      RunCaptures(h, t, s, actions);
      RunCaptures(h, t, s, checked);
    }
  }

  /** After a run, capturing evidence depends on the edges the raw batch names. */
  lemma RunCaptures(h: Host, t: Schemas, s: State, actions: seq<Action>)
    requires Run(h, t, s, actions).Ok?
    ensures var done := Run(h, t, s, actions).value;
            CaptureGuard(done.state, done.normalized).Ok? <==> forall k | k in TouchedKeys(actions) :: Separable(k)
  {
    var done := Run(h, t, s, actions).value;
    RegionKept(h, t, s, actions);
    CaptureSucceeds(done.state, done.normalized);
  }

  lemma CheckSingle(h: Host, t: Schemas, p: Preview, a: Action)
    requires Check(h, t, p, a).Ok?
    ensures CheckAll(h, t, p, [a]) == Ok([Check(h, t, p, a).value.normalized])
  {
    assert [a][1..] == [];
    var c := Check(h, t, p, a).value;
    assert CheckAll(h, t, c.preview, [a][1..]) == Ok([]);
    assert [c.normalized] + [] == [c.normalized];
  }

  /** Where the two differ: an edge whose type holds the separator passes preflight and never commits. */
  lemma PreflightMissesSeparator(h: Host, t: Schemas, s: State, id: string)
    requires id in s.nodes && !Blank(id)
    ensures var batch := [CreateEdge(EdgeKey(id, id, ['x', UNIT_SEPARATOR]), map[])];
            Preflight(h, t, s, batch).Ok? && Commit(h, t, s, batch, None).Err?
  {
    var k := EdgeKey(id, id, ['x', UNIT_SEPARATOR]);
    var batch := [CreateEdge(k, map[])];
    assert k.kind[0] == 'x' && !Blank(k.kind);
    CheckSingle(h, t, PreviewOf(s), batch[0]);
    assert batch[0] in batch && k in TouchedKeys(batch);
    if Run(h, t, s, batch).Ok? {
      RunCaptures(h, t, s, batch);
      assert UNIT_SEPARATOR in k.kind by { assert k.kind[1] == UNIT_SEPARATOR; }
    }
  }

  /** And where a derived namespace comes between them: a type that declares `namespace` as an integer, and
      a batch that creates an App record of it and updates the record. */
  lemma PreflightMissesNamespace(h: Host, t: Schemas, kind: string)
    requires kind in t && kind != "" && Usable(t[kind]) && t[kind].properties == map[NAMESPACE := PInteger]
    requires h.parseInt("x").None?
    ensures var start := State(map[], map[]);
            var batch := [CreateNode("app:x", kind, map[]), UpdateNode("app:x", None, map[])];
            Preflight(h, t, start, batch).Ok? && Commit(h, t, start, batch, None).Err?
  {
    var start := State(map[], map[]);
    var x, y := CreateNode("app:x", kind, map[]), UpdateNode("app:x", None, map[]);
    var batch := [x, y];
    PoisonedSteps(h, t, kind, start, x, DeleteNode("app:x"));
    assert batch[1..] == [y] && OnRecord(y, "app:x") && MeetsBlindUpdate(batch[1..], "app:x");
    assert UnreadableCreate(h, t, batch[0]) && Blocked(h, t, batch);
    PreflightAgrees(h, t, start, batch);
    CheckPair(h, t, kind, x, y);
  }

  lemma CheckPair(h: Host, t: Schemas, kind: string, x: Action, y: Action)
    requires kind in t && kind != "" && Usable(t[kind])
    requires x == CreateNode("app:x", kind, map[]) && y == UpdateNode("app:x", None, map[])
    ensures CheckAll(h, t, PreviewOf(State(map[], map[])), [x, y]).Ok?
  {
    CoercionFixpoints(h, t[kind], map[]);
    assert "app:x"[0] == 'a' && !Blank("app:x");
    var c := Check(h, t, PreviewOf(State(map[], map[])), x).value;
    assert c.preview.nodes["app:x"] == Record(kind, map[]);
    var none: Props := map[];
    assert none + none == none;
    CheckSingle(h, t, c.preview, y);
    assert [x, y][1..] == [y];
  }
}
