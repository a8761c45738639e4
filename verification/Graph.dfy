/** Records, relationships and the mutation batch that `apply_actions_atomic` runs over them. */
module Graph {
  import opened Basics
  import opened Ontology

  /** A record row; `namespace` is the indexed column kept beside the properties. */
  datatype Node = Node(kind: string, properties: Props, namespace: Option<Value>)

  datatype EdgeKey = EdgeKey(source: string, target: string, kind: string)

  datatype State = State(nodes: map<string, Node>, edges: map<EdgeKey, Props>)

  /** One entry of a batch. ReplaceNode and RestoreNode are the internal reverse actions. The edges of
      a RestoreNode are upserted one after the other, so the list the program carries is a map here. */
  datatype Action =
    | CreateNode(id: string, kind: string, properties: Props)
    | UpdateNode(id: string, override: Option<string>, properties: Props)
    | ReplaceNode(id: string, override: Option<string>, properties: Props)
    | DeleteNode(id: string)
    | RestoreNode(id: string, kind: string, properties: Props, edges: map<EdgeKey, Props>)
    | CreateEdge(key: EdgeKey, properties: Props)
    | DeleteEdge(key: EdgeKey)
    | Unsupported(name: string)

  /** What one action does: the next state, its normalised form, and the action that undoes it. */
  datatype Effect = Effect(state: State, normalized: Action, undo: Action)

  /** What a batch does; `undo` is already in the order in which it must run. */
  datatype Trace = Trace(state: State, normalized: seq<Action>, undo: seq<Action>)

  function Get(p: Props, key: string): Option<Value> {
    if key in p then Some(p[key]) else None
  }

  /** Python truth of a value. */
  predicate Truthy(v: Value) {
    match v
    case Null => false
    case Bool(b) => b
    case Int(i) => i != 0
    case Num(f) => f != Finite(0.0)
    case Str(s) => s != ""
    case Arr(items) => items != []
    case Obj(fields) => fields != map[]
  }

  predicate IsAppId(id: string) {
    |id| >= 4 && id[..4] == "app:"
  }

  function UpToColon(s: string): string {
    if s == "" || s[0] == ':' then "" else [s[0]] + UpToColon(s[1..])
  }

  /** The second part of `id.split(":")`. */
  function AppNamespace(id: string): Value
    requires IsAppId(id)
  {
    Str(UpToColon(id[4..]))
  }

  predicate NeedsNamespace(id: string, properties: Props) {
    && IsAppId(id)
    && (NAMESPACE in properties ==> !Truthy(properties[NAMESPACE]))
  }

  /** The row a creation writes, once its properties are coerced. */
  function CreatedNode(id: string, kind: string, validated: Props): Node {
    if NeedsNamespace(id, validated)
    then Node(kind, validated[NAMESPACE := AppNamespace(id)], Some(AppNamespace(id)))
    else Node(kind, validated, Get(validated, NAMESPACE))
  }

  function StoredNode(kind: string, validated: Props): Node {
    Node(kind, validated, Get(validated, NAMESPACE))
  }

  function SchemaOf(t: Schemas, kind: string): Option<Schema> {
    if kind in t then Some(t[kind]) else None
  }

  predicate Incident(k: EdgeKey, id: string) {
    k.source == id || k.target == id
  }

  function IncidentEdges(edges: map<EdgeKey, Props>, id: string): map<EdgeKey, Props> {
    map k | k in edges && Incident(k, id) :: edges[k]
  }

  function WithoutNode(s: State, id: string): State {
    State(s.nodes - {id}, map k | k in s.edges && !Incident(k, id) :: s.edges[k])
  }

  predicate KeyGiven(k: EdgeKey) {
    !Blank(k.source) && !Blank(k.target) && !Blank(k.kind)
  }

  predicate EndpointsIn(k: EdgeKey, nodes: map<string, Node>) {
    k.source in nodes && k.target in nodes
  }

  function StepCreate(h: Host, t: Schemas, s: State, a: Action): Result<Effect>
    requires a.CreateNode?
  {
    if a.id == "" || a.kind == "" then Err(EmptyText)
    else
      var validated := Coerce(h, SchemaOf(t, a.kind), a.properties);
      if validated.Err? then Err(validated.error)
      else
        var node := CreatedNode(a.id, a.kind, validated.value);
        var undo := if a.id in s.nodes
                    then ReplaceNode(a.id, Some(s.nodes[a.id].kind), s.nodes[a.id].properties)
                    else DeleteNode(a.id);
        Ok(Effect(s.(nodes := s.nodes[a.id := node]), CreateNode(a.id, a.kind, node.properties), undo))
  }

  function StepReplace(h: Host, t: Schemas, s: State, a: Action): Result<Effect>
    requires a.UpdateNode? || a.ReplaceNode?
  {
    if Blank(a.id) then Err(BlankText)
    else if a.id !in s.nodes then Err(MissingNode)
    else
      var prior := s.nodes[a.id];
      var kind := if a.override.Some? then a.override.value else prior.kind;
      var incoming := if a.ReplaceNode? then a.properties else prior.properties + a.properties;
      var validated := Coerce(h, SchemaOf(t, kind), incoming);
      if validated.Err? then Err(validated.error)
      else
        var normalized := if a.ReplaceNode? then ReplaceNode(a.id, Some(kind), validated.value)
                          else UpdateNode(a.id, Some(kind), validated.value);
        Ok(Effect(s.(nodes := s.nodes[a.id := StoredNode(kind, validated.value)]), normalized,
                  ReplaceNode(a.id, Some(prior.kind), prior.properties)))
  }

  function StepDelete(s: State, a: Action): Result<Effect>
    requires a.DeleteNode?
  {
    if Blank(a.id) then Err(BlankText)
    else if a.id !in s.nodes then Err(MissingNode)
    else
      var prior := s.nodes[a.id];
      Ok(Effect(WithoutNode(s, a.id), a,
                RestoreNode(a.id, prior.kind, prior.properties, IncidentEdges(s.edges, a.id))))
  }

  function StepRestore(h: Host, t: Schemas, s: State, a: Action): Result<Effect>
    requires a.RestoreNode?
  {
    if Blank(a.id) || Blank(a.kind) then Err(BlankText)
    else
      var validated := Coerce(h, SchemaOf(t, a.kind), a.properties);
      if validated.Err? then Err(validated.error)
      else
        var nodes := s.nodes[a.id := StoredNode(a.kind, validated.value)];
        if exists k :: k in a.edges && !(KeyGiven(k) && EndpointsIn(k, nodes)) then Err(BadEdge)
        else
          var undo := if a.id in s.nodes
                      then ReplaceNode(a.id, Some(s.nodes[a.id].kind), s.nodes[a.id].properties)
                      else DeleteNode(a.id);
          Ok(Effect(State(nodes, s.edges + a.edges), a, undo))
  }

  function StepEdge(s: State, a: Action): Result<Effect>
    requires a.CreateEdge? || a.DeleteEdge?
  {
    if !KeyGiven(a.key) then Err(BlankText)
    else if a.CreateEdge? then
      if !EndpointsIn(a.key, s.nodes) then Err(MissingEndpoint)
      else
        var undo := if a.key in s.edges then CreateEdge(a.key, s.edges[a.key]) else DeleteEdge(a.key);
        Ok(Effect(s.(edges := s.edges[a.key := a.properties]), a, undo))
    else if a.key !in s.edges then Err(MissingEdge)
    else Ok(Effect(s.(edges := s.edges - {a.key}), a, CreateEdge(a.key, s.edges[a.key])))
  }

  function Step(h: Host, t: Schemas, s: State, a: Action): Result<Effect> {
    match a
    case CreateNode(_, _, _) => StepCreate(h, t, s, a)
    case UpdateNode(_, _, _) => StepReplace(h, t, s, a)
    case ReplaceNode(_, _, _) => StepReplace(h, t, s, a)
    case DeleteNode(_) => StepDelete(s, a)
    case RestoreNode(_, _, _, _) => StepRestore(h, t, s, a)
    case CreateEdge(_, _) => StepEdge(s, a)
    case DeleteEdge(_) => StepEdge(s, a)
    case Unsupported(_) => Err(UnsupportedAction)
  }

  /** The outcome of a second batch, seen from the start of the first. */
  function After(first: Trace, second: Result<Trace>): Result<Trace> {
    if second.Err? then second
    else Ok(Trace(second.value.state, first.normalized + second.value.normalized, second.value.undo + first.undo))
  }

  /** A whole batch: the first refused action refuses it. */
  function Run(h: Host, t: Schemas, s: State, actions: seq<Action>): Result<Trace>
    decreases actions
  {
    if actions == [] then Ok(Trace(s, [], []))
    else
      var first := Step(h, t, s, actions[0]);
      if first.Err? then Err(first.error)
      else After(Trace(first.value.state, [first.value.normalized], [first.value.undo]),
                 Run(h, t, first.value.state, actions[1..]))
  }

  lemma AfterEmpty(s: State, second: Result<Trace>)
    ensures After(Trace(s, [], []), second) == second
  {
    if second.Ok? {
      assert [] + second.value.normalized == second.value.normalized;
      assert second.value.undo + [] == second.value.undo;
    }
  }

  lemma AfterAssociates(a: Trace, b: Trace, c: Result<Trace>)
    ensures After(a, After(b, c)) == After(Trace(b.state, a.normalized + b.normalized, b.undo + a.undo), c)
  {
    if c.Ok? {
      assert a.normalized + (b.normalized + c.value.normalized) == a.normalized + b.normalized + c.value.normalized;
      assert c.value.undo + b.undo + a.undo == c.value.undo + (b.undo + a.undo);
    }
  }

  /** Running two batches in a row is running their concatenation; undo actions come out reversed. */
  lemma {:induction false} RunConcat(h: Host, t: Schemas, s: State, xs: seq<Action>, ys: seq<Action>)
    requires Run(h, t, s, xs).Ok?
    ensures var first := Run(h, t, s, xs).value;
            Run(h, t, s, xs + ys) == After(first, Run(h, t, first.state, ys))
    decreases xs
  {
    if xs == [] {
      assert xs + ys == ys;
      AfterEmpty(s, Run(h, t, s, ys));
    } else {
      assert (xs + ys)[1..] == xs[1..] + ys && (xs + ys)[0] == xs[0];
      var step := Step(h, t, s, xs[0]).value;
      RunConcat(h, t, step.state, xs[1..], ys);
      var rest := Run(h, t, step.state, xs[1..]).value;
      AfterAssociates(Trace(step.state, [step.normalized], [step.undo]), rest, Run(h, t, rest.state, ys));
    }
  }

  /** What every registered schema table guarantees: type ids are visible text. */
  ghost predicate TableOk(t: Schemas) {
    forall kind | kind in t :: !Blank(kind)
  }

  /** What it does not guarantee: a type may declare `namespace` as something other than text. */
  ghost predicate TextNamespaces(t: Schemas) {
    forall kind | kind in t :: Declared(t[kind])[NAMESPACE] == PString
  }

  /** The later schema table still gives every type its place and every declared property its type. */
  ghost predicate Extends(later: Schemas, t: Schemas) {
    forall kind | kind in t ::
      && kind in later
      && (Usable(t[kind]) ==> Usable(later[kind]))
      && forall k | k in Declared(t[kind]) ::
           k in Declared(later[kind]) && Declared(later[kind])[k] == Declared(t[kind])[k]
  }

  /** A stored row: registered type, well-typed properties, and a column equal to the property. */
  ghost predicate RowOk(t: Schemas, n: Node) {
    n.kind in t && Typed(t[n.kind], n.properties) && n.namespace == Get(n.properties, NAMESPACE)
  }

  ghost predicate RowsOk(t: Schemas, s: State) {
    forall id | id in s.nodes :: id != "" && RowOk(t, s.nodes[id])
  }

  ghost predicate KeysGiven(s: State) {
    forall k | k in s.edges :: KeyGiven(k)
  }

  /** No edge dangles. */
  ghost predicate Closed(s: State) {
    forall k | k in s.edges :: EndpointsIn(k, s.nodes)
  }

  ghost predicate WellFormed(t: Schemas, s: State) {
    RowsOk(t, s) && KeysGiven(s) && Closed(s)
  }

  /** Well typed but for a `namespace` that may be text whatever the type says. */
  ghost predicate LooselyTyped(s: Schema, properties: Props) {
    && Usable(s)
    && forall k | k in properties ::
         && k in Declared(s)
         && (HasType(Declared(s)[k], properties[k]) || (k == NAMESPACE && properties[k].Str?))
  }

  ghost predicate LooseRow(t: Schemas, n: Node) {
    n.kind in t && LooselyTyped(t[n.kind], n.properties) && n.namespace == Get(n.properties, NAMESPACE)
  }

  ghost predicate LooseRows(t: Schemas, s: State) {
    forall id | id in s.nodes :: id != "" && LooseRow(t, s.nodes[id])
  }

  /** The invariant of every graph under every table. */
  ghost predicate LooseGraph(t: Schemas, s: State) {
    LooseRows(t, s) && KeysGiven(s) && Closed(s)
  }

  /** A creation that derives the namespace of an App record whose type declares it as no text. */
  predicate Trapped(h: Host, t: Schemas, a: Action) {
    && a.CreateNode? && a.kind in t && Declared(t[a.kind])[NAMESPACE] != PString
    && var validated := Coerce(h, SchemaOf(t, a.kind), a.properties);
    && validated.Ok? && NeedsNamespace(a.id, validated.value)
  }

  lemma WellFormedIsLoose(t: Schemas, s: State)
    requires WellFormed(t, s)
    ensures LooseGraph(t, s)
  {
    forall id | id in s.nodes ensures LooseRow(t, s.nodes[id]) { assert RowOk(t, s.nodes[id]); }
  }

  /** The row of a creation is valid exactly when the creation is not trapped, and loose in any case. */
  lemma CreatedRow(h: Host, t: Schemas, a: Action)
    requires a.CreateNode? && Coerce(h, SchemaOf(t, a.kind), a.properties).Ok?
    ensures var n := CreatedNode(a.id, a.kind, Coerce(h, SchemaOf(t, a.kind), a.properties).value);
            LooseRow(t, n) && (RowOk(t, n) <==> !Trapped(h, t, a))
  {
    CoercionTypes(h, t[a.kind], a.properties);
    var validated := Coerce(h, SchemaOf(t, a.kind), a.properties).value;
    var n := CreatedNode(a.id, a.kind, validated);
    if NeedsNamespace(a.id, validated) {
      assert NAMESPACE in n.properties && n.properties[NAMESPACE].Str?;
      assert forall k | k in n.properties && k != NAMESPACE :: k in validated && n.properties[k] == validated[k];
    }
  }

  /** Every other write stores a valid row. */
  lemma StoredRow(h: Host, t: Schemas, kind: string, p: Props)
    requires Coerce(h, SchemaOf(t, kind), p).Ok?
    ensures RowOk(t, StoredNode(kind, Coerce(h, SchemaOf(t, kind), p).value))
    ensures LooseRow(t, StoredNode(kind, Coerce(h, SchemaOf(t, kind), p).value))
  {
    CoercionTypes(h, t[kind], p);
  }

  /** The row a record action leaves under its id. */
  function Written(h: Host, t: Schemas, s: State, a: Action): Option<Node> {
    match a
    case CreateNode(id, kind, p) =>
      var c := Coerce(h, SchemaOf(t, kind), p);
      if c.Ok? then Some(CreatedNode(id, kind, c.value)) else None
    case UpdateNode(id, override, p) =>
      if id !in s.nodes then None
      else
        var kind := if override.Some? then override.value else s.nodes[id].kind;
        var c := Coerce(h, SchemaOf(t, kind), s.nodes[id].properties + p);
        if c.Ok? then Some(StoredNode(kind, c.value)) else None
    case ReplaceNode(id, override, p) =>
      if id !in s.nodes then None
      else
        var kind := if override.Some? then override.value else s.nodes[id].kind;
        var c := Coerce(h, SchemaOf(t, kind), p);
        if c.Ok? then Some(StoredNode(kind, c.value)) else None
    case RestoreNode(_, kind, p, _) =>
      var c := Coerce(h, SchemaOf(t, kind), p);
      if c.Ok? then Some(StoredNode(kind, c.value)) else None
    case _ => None
  }

  predicate Writes(a: Action) {
    a.CreateNode? || a.UpdateNode? || a.ReplaceNode? || a.RestoreNode?
  }

  predicate IsNodeAction(a: Action) {
    Writes(a) || a.DeleteNode?
  }

  predicate OnRecord(a: Action, id: string) {
    IsNodeAction(a) && a.id == id
  }

  lemma StepWrites(h: Host, t: Schemas, s: State, a: Action, e: Effect)
    requires Writes(a) && Step(h, t, s, a) == Ok(e)
    ensures a.id != "" && Written(h, t, s, a).Some?
    ensures e.state.nodes == s.nodes[a.id := Written(h, t, s, a).value]
    ensures e.state.edges == if a.RestoreNode? then s.edges + a.edges else s.edges
    ensures a.RestoreNode? ==> forall k | k in a.edges :: KeyGiven(k) && EndpointsIn(k, e.state.nodes)
  {
  }

  lemma WrittenRow(h: Host, t: Schemas, s: State, a: Action)
    requires Writes(a) && Written(h, t, s, a).Some?
    ensures var n := Written(h, t, s, a).value; LooseRow(t, n) && (RowOk(t, n) <==> !Trapped(h, t, a))
  {
    match a
    case CreateNode(_, _, _) => CreatedRow(h, t, a);
    case UpdateNode(id, override, p) =>
      StoredRow(h, t, if override.Some? then override.value else s.nodes[id].kind, s.nodes[id].properties + p);
    case ReplaceNode(id, override, p) =>
      StoredRow(h, t, if override.Some? then override.value else s.nodes[id].kind, p);
    case RestoreNode(_, kind, p, _) => StoredRow(h, t, kind, p);
  }

  /** Every action keeps keys given and edges closed, under every table. */
  lemma {:induction false} StepKeepsEdges(h: Host, t: Schemas, s: State, a: Action, e: Effect)
    requires Step(h, t, s, a) == Ok(e) && KeysGiven(s) && Closed(s)
    ensures KeysGiven(e.state) && Closed(e.state)
  {
    if Writes(a) {
      StepWrites(h, t, s, a, e);
      forall k | k in e.state.edges ensures KeyGiven(k) && EndpointsIn(k, e.state.nodes) {
        if k in s.edges { assert EndpointsIn(k, s.nodes); }
      }
    } else if a.DeleteNode? {
      assert e.state == WithoutNode(s, a.id);
      forall k | k in e.state.edges ensures KeyGiven(k) && EndpointsIn(k, e.state.nodes) {
        assert k in s.edges && EndpointsIn(k, s.nodes);
      }
    } else {
      assert StepEdge(s, a) == Ok(e);
    }
  }

  /** The rows an action leaves alone. */
  lemma {:induction false} StepKeepsOthers(h: Host, t: Schemas, s: State, a: Action, e: Effect)
    requires Step(h, t, s, a) == Ok(e)
    ensures forall id | !OnRecord(a, id) ::
              (id in e.state.nodes <==> id in s.nodes) && (id in s.nodes ==> e.state.nodes[id] == s.nodes[id])
    ensures Writes(a) ==> a.id in e.state.nodes && Written(h, t, s, a) == Some(e.state.nodes[a.id])
    ensures a.DeleteNode? ==> a.id in s.nodes && a.id !in e.state.nodes
  {
    if Writes(a) {
      StepWrites(h, t, s, a, e);
    } else if a.DeleteNode? {
      assert StepDelete(s, a) == Ok(e);
    } else {
      assert StepEdge(s, a) == Ok(e);
    }
  }

  /** Every action keeps the loose invariant, under every table. */
  lemma {:induction false} StepKeepsLoose(h: Host, t: Schemas, s: State, a: Action)
    requires LooseGraph(t, s) && Step(h, t, s, a).Ok?
    ensures LooseGraph(t, Step(h, t, s, a).value.state)
  {
    var e := Step(h, t, s, a).value;
    StepKeepsEdges(h, t, s, a, e);
    StepKeepsOthers(h, t, s, a, e);
    if Writes(a) {
      StepWrites(h, t, s, a, e);
      WrittenRow(h, t, s, a);
    }
    forall id | id in e.state.nodes ensures id != "" && LooseRow(t, e.state.nodes[id]) {
      if !(Writes(a) && id == a.id) { assert id in s.nodes && LooseRow(t, s.nodes[id]); }
    }
  }

  lemma {:induction false} RunKeepsLoose(h: Host, t: Schemas, s: State, actions: seq<Action>)
    requires LooseGraph(t, s) && Run(h, t, s, actions).Ok?
    ensures LooseGraph(t, Run(h, t, s, actions).value.state)
    decreases actions
  {
    if actions != [] {
      StepKeepsLoose(h, t, s, actions[0]);
      RunKeepsLoose(h, t, Step(h, t, s, actions[0]).value.state, actions[1..]);
    }
  }

  /** Under every table, an action keeps a well-formed graph well formed exactly when it is not a trapped
      creation. */
  lemma {:induction false} StepKeepsWellFormed(h: Host, t: Schemas, s: State, a: Action)
    requires WellFormed(t, s) && Step(h, t, s, a).Ok?
    ensures WellFormed(t, Step(h, t, s, a).value.state) <==> !Trapped(h, t, a)
  {
    var e := Step(h, t, s, a).value;
    StepKeepsEdges(h, t, s, a, e);
    StepKeepsOthers(h, t, s, a, e);
    if Writes(a) {
      StepWrites(h, t, s, a, e);
      WrittenRow(h, t, s, a);
    }
    forall id | id in e.state.nodes && !(Writes(a) && id == a.id) ensures id != "" && RowOk(t, e.state.nodes[id]) {
      assert id in s.nodes && RowOk(t, s.nodes[id]);
    }
  }

  /** Some action of the batch is on the record. */
  predicate Touches(actions: seq<Action>, id: string) {
    exists j | 0 <= j < |actions| :: OnRecord(actions[j], id)
  }

  /** A trapped creation is the last action on its record. */
  predicate EndsTrapped(h: Host, t: Schemas, actions: seq<Action>) {
    exists i | 0 <= i < |actions| :: Trapped(h, t, actions[i]) && !Touches(actions[i + 1..], actions[i].id)
  }

  lemma TouchesFirst(actions: seq<Action>, id: string)
    requires actions != []
    ensures Touches(actions, id) <==> OnRecord(actions[0], id) || Touches(actions[1..], id)
  {
    if j :| 1 <= j < |actions| && OnRecord(actions[j], id) { assert OnRecord(actions[1..][j - 1], id); }
  }

  lemma EndsTrappedFirst(h: Host, t: Schemas, actions: seq<Action>)
    requires actions != []
    ensures EndsTrapped(h, t, actions) <==>
            (Trapped(h, t, actions[0]) && !Touches(actions[1..], actions[0].id)) || EndsTrapped(h, t, actions[1..])
  {
    var rest := actions[1..];
    if i :| 1 <= i < |actions| && Trapped(h, t, actions[i]) && !Touches(actions[i + 1..], actions[i].id) {
      assert rest[i - 1] == actions[i] && rest[i - 1 + 1..] == actions[i + 1..];
    }
    if i :| 0 <= i < |rest| && Trapped(h, t, rest[i]) && !Touches(rest[i + 1..], rest[i].id) {
      assert rest[i] == actions[i + 1] && rest[i + 1..] == actions[i + 1 + 1..];
    }
  }

  /** The rows that a batch may find ill typed, all of which it overwrites. */
  ghost predicate IllAreTouched(t: Schemas, s: State, actions: seq<Action>) {
    forall id | id in s.nodes && !RowOk(t, s.nodes[id]) :: Touches(actions, id)
  }

  lemma {:induction false} IllAfterStep(h: Host, t: Schemas, s: State, actions: seq<Action>, e: Effect)
    requires LooseGraph(t, s) && actions != [] && Step(h, t, s, actions[0]) == Ok(e)
    ensures IllAreTouched(t, e.state, actions[1..]) <==>
            IllAreTouched(t, s, actions) && !(Trapped(h, t, actions[0]) && !Touches(actions[1..], actions[0].id))
  {
    var a := actions[0];
    StepKeepsOthers(h, t, s, a, e);
    if Writes(a) { WrittenRow(h, t, s, a); }
    forall id { TouchesFirst(actions, id); }
  }

  lemma {:induction false} RunLeavesWellFormed(h: Host, t: Schemas, s: State, actions: seq<Action>)
    requires LooseGraph(t, s) && Run(h, t, s, actions).Ok?
    ensures RowsOk(t, Run(h, t, s, actions).value.state) <==>
            IllAreTouched(t, s, actions) && !EndsTrapped(h, t, actions)
    decreases actions
  {
    if actions != [] {
      var e := Step(h, t, s, actions[0]).value;
      StepKeepsLoose(h, t, s, actions[0]);
      RunLeavesWellFormed(h, t, e.state, actions[1..]);
      IllAfterStep(h, t, s, actions, e);
      EndsTrappedFirst(h, t, actions);
    }
  }

  /** Under every table, a batch keeps a well-formed graph well formed exactly when no trapped creation is
      the last action on its record. */
  lemma RunKeepsWellFormed(h: Host, t: Schemas, s: State, actions: seq<Action>)
    requires WellFormed(t, s) && Run(h, t, s, actions).Ok?
    ensures WellFormed(t, Run(h, t, s, actions).value.state) <==> !EndsTrapped(h, t, actions)
  {
    WellFormedIsLoose(t, s);
    RunKeepsLoose(h, t, s, actions);
    RunLeavesWellFormed(h, t, s, actions);
  }

  /** Without the textual-namespace rule the invariant is lost: creating an App record of a type that
      declares `namespace` differently stores a well-formed row if and only if the derived namespace
      was not needed. */
  lemma NamespaceRuleIsNeeded(h: Host, t: Schemas, id: string, kind: string, p: Props)
    requires kind in t && Declared(t[kind])[NAMESPACE] != PString
    requires Coerce(h, SchemaOf(t, kind), p).Ok?
    ensures var validated := Coerce(h, SchemaOf(t, kind), p).value;
            RowOk(t, CreatedNode(id, kind, validated)) <==> !NeedsNamespace(id, validated)
  {
    CoercionTypes(h, t[kind], p);
    var validated := Coerce(h, SchemaOf(t, kind), p).value;
    if NeedsNamespace(id, validated) {
      assert NAMESPACE in CreatedNode(id, kind, validated).properties;
    }
  }
}
