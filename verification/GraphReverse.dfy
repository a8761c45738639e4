/** Running the reverse of a batch: under another schema table, and in a graph that shares with the one
    the batch left only the places the batch touched. */
module GraphReverse {
  import opened Basics
  import opened Ontology
  import opened Graph

  // ---- Regions -----------------------------------------------------------------------------------

  /** The part of a graph a batch owns: its records, their incident edges, and its own edges. */
  datatype Region = Region(nodes: set<string>, keys: set<EdgeKey>)

  predicate IsEdgeAction(a: Action) {
    a.CreateEdge? || a.DeleteEdge?
  }

  function TouchedNodes(actions: seq<Action>): set<string> {
    set a | a in actions && IsNodeAction(a) :: a.id
  }

  function TouchedKeys(actions: seq<Action>): set<EdgeKey> {
    set a | a in actions && IsEdgeAction(a) :: a.key
  }

  function RegionOf(actions: seq<Action>): Region {
    Region(TouchedNodes(actions), TouchedKeys(actions))
  }

  predicate Inside(r: Region, k: EdgeKey) {
    k in r.keys || k.source in r.nodes || k.target in r.nodes
  }

  function NodeAt(s: State, id: string): Option<Node> {
    if id in s.nodes then Some(s.nodes[id]) else None
  }

  function ReadEdge(s: State, k: EdgeKey): Option<Props> {
    if k in s.edges then Some(s.edges[k]) else None
  }

  ghost predicate SameEdges(r: Region, a: State, b: State) {
    forall k | Inside(r, k) :: ReadEdge(a, k) == ReadEdge(b, k)
  }

  ghost predicate Agree(r: Region, a: State, b: State) {
    (forall id | id in r.nodes :: NodeAt(a, id) == NodeAt(b, id)) && SameEdges(r, a, b)
  }

  /** The same records exist in the region, whatever they hold, and its edges are the same. */
  ghost predicate SameShape(r: Region, a: State, b: State) {
    (forall id | id in r.nodes :: id in a.nodes <==> id in b.nodes) && SameEdges(r, a, b)
  }

  ghost predicate SameOutside(r: Region, a: State, b: State) {
    && (forall id | id !in r.nodes :: NodeAt(a, id) == NodeAt(b, id))
    && (forall k | !Inside(r, k) :: ReadEdge(a, k) == ReadEdge(b, k))
  }

  lemma AgreeIsSameShape(r: Region, a: State, b: State)
    requires Agree(r, a, b)
    ensures SameShape(r, a, b)
  {
    forall id | id in r.nodes ensures id in a.nodes <==> id in b.nodes { assert NodeAt(a, id) == NodeAt(b, id); }
  }

  lemma SameOutsideTransitive(r: Region, a: State, b: State, c: State)
    requires SameOutside(r, a, b) && SameOutside(r, b, c)
    ensures SameOutside(r, a, c)
  {
    forall id | id !in r.nodes ensures NodeAt(a, id) == NodeAt(c, id) { assert NodeAt(a, id) == NodeAt(b, id); }
    forall k | !Inside(r, k) ensures ReadEdge(a, k) == ReadEdge(c, k) { assert ReadEdge(a, k) == ReadEdge(b, k); }
  }

  lemma SameRows(a: State, b: State)
    requires forall id :: NodeAt(a, id) == NodeAt(b, id)
    ensures a.nodes == b.nodes
  {
    forall id ensures id in a.nodes <==> id in b.nodes
              ensures id in a.nodes ==> a.nodes[id] == b.nodes[id] {
      assert NodeAt(a, id) == NodeAt(b, id);
    }
  }

  lemma SameLinks(a: State, b: State)
    requires forall k :: ReadEdge(a, k) == ReadEdge(b, k)
    ensures a.edges == b.edges
  {
    forall k ensures k in a.edges <==> k in b.edges
             ensures k in a.edges ==> a.edges[k] == b.edges[k] {
      assert ReadEdge(a, k) == ReadEdge(b, k);
    }
  }

  /** The action writes nothing outside the region. */
  predicate StaysIn(r: Region, a: Action) {
    if IsNodeAction(a) then a.id in r.nodes && (a.RestoreNode? ==> forall k | k in a.edges :: Incident(k, a.id))
    else IsEdgeAction(a) && a.key in r.keys
  }

  /** The edges an action writes anew. */
  function Recreated(a: Action): set<EdgeKey> {
    match a
    case CreateEdge(key, _) => {key}
    case RestoreNode(_, _, _, edges) => edges.Keys
    case _ => {}
  }

  /** Endpoints the action needs that lie outside the region. */
  predicate OutsideEndpoints(r: Region, a: Action, s: State) {
    forall k | k in Recreated(a) ::
      (k.source !in r.nodes ==> k.source in s.nodes) && (k.target !in r.nodes ==> k.target in s.nodes)
  }

  lemma OutsideEndpointsStable(r: Region, x: Action, b: State, c: State)
    requires SameOutside(r, b, c)
    ensures OutsideEndpoints(r, x, b) <==> OutsideEndpoints(r, x, c)
  {
    forall id | id !in r.nodes ensures id in b.nodes <==> id in c.nodes {
      assert NodeAt(b, id) == NodeAt(c, id);
    }
  }

  // ---- Reverse actions -----------------------------------------------------------------------------

  /** A creation is refused only for an empty id, while every reverse action demands visible text. */
  predicate BlankCreate(a: Action) {
    a.CreateNode? && Blank(a.id)
  }

  /** How the program itself sends a restoration: the record is absent and the edges are its own. */
  predicate Undoable(s: State, a: Action) {
    a.RestoreNode? ==> a.id !in s.nodes && forall k | k in a.edges :: Incident(k, a.id)
  }

  predicate RunUndoable(h: Host, t: Schemas, s: State, actions: seq<Action>)
    decreases actions
  {
    actions == [] ||
    (&& Undoable(s, actions[0])
     && (Step(h, t, s, actions[0]).Ok? ==> RunUndoable(h, t, Step(h, t, s, actions[0]).value.state, actions[1..])))
  }

  /** What the table makes of a row's own properties. */
  function Reread(h: Host, t: Schemas, row: Option<Node>): Option<Node> {
    if row.None? then None
    else
      var c := Coerce(h, SchemaOf(t, row.value.kind), row.value.properties);
      if c.Ok? then Some(StoredNode(row.value.kind, c.value)) else None
  }

  predicate Reads(h: Host, t: Schemas, n: Node) {
    Coerce(h, SchemaOf(t, n.kind), n.properties).Ok?
  }

  /** The table accepts the row the reverse action carries. */
  predicate PayloadReads(h: Host, t: Schemas, x: Action) {
    match x
    case ReplaceNode(_, override, p) => override.Some? && Coerce(h, SchemaOf(t, override.value), p).Ok?
    case RestoreNode(_, kind, p, _) => Coerce(h, SchemaOf(t, kind), p).Ok?
    case _ => true
  }

  /** The reverse of `x` takes `b1` to `b0`: the region gets the shape it had in `a0` and the record of
      `x` the row it had there, as the later table reads it; nothing else changes. */
  ghost predicate Reversed1(h: Host, later: Schemas, r: Region, a0: State, x: Action, b1: State, b0: State) {
    && SameShape(r, a0, b0)
    && SameOutside(r, b1, b0)
    && forall id :: NodeAt(b0, id) ==
                    if OnRecord(x, id) then Reread(h, later, NodeAt(a0, id)) else NodeAt(b1, id)
  }

  /** One reverse action in another graph and under another table: whether it runs, and to what. */
  ghost predicate ReversesTo(h: Host, later: Schemas, r: Region, a0: State, x: Action, undo: Action, b1: State) {
    var back := Step(h, later, b1, undo);
    && (back.Ok? <==> PayloadReads(h, later, undo) && OutsideEndpoints(r, undo, b1))
    && (back.Ok? ==> Reversed1(h, later, r, a0, x, b1, back.value.state))
    && Undoable(b1, undo) && !undo.CreateNode? && StaysIn(r, undo)
  }

  lemma {:induction false} ReverseWrite(
      h: Host, t: Schemas, later: Schemas, r: Region, a0: State, x: Action, e: Effect, b1: State)
    requires Writes(x) && !x.RestoreNode? && x.id in a0.nodes && !BlankCreate(x)
    requires Step(h, t, a0, x) == Ok(e) && StaysIn(r, x) && SameShape(r, e.state, b1)
    ensures ReversesTo(h, later, r, a0, x, e.undo, b1)
  {
    StepWrites(h, t, a0, x, e);
    assert !Blank(x.id);
    assert e.undo == ReplaceNode(x.id, Some(a0.nodes[x.id].kind), a0.nodes[x.id].properties);
    assert x.id in e.state.nodes && x.id in b1.nodes;
    if PayloadReads(h, later, e.undo) {
      var b0 := Step(h, later, b1, e.undo).value.state;
      assert b0.edges == b1.edges == b1.edges;
      forall id | id in r.nodes ensures id in a0.nodes <==> id in b0.nodes {
        assert id in e.state.nodes <==> id in b1.nodes;
      }
      forall k | Inside(r, k) ensures ReadEdge(a0, k) == ReadEdge(b0, k) {
        assert ReadEdge(e.state, k) == ReadEdge(b1, k);
      }
    }
  }

  lemma {:induction false} WithoutAdded(r: Region, a0: State, a1: State, b1: State, id: string)
    requires Closed(a0) && id !in a0.nodes && id in r.nodes
    requires a1.nodes.Keys == a0.nodes.Keys + {id}
    requires forall k | !Incident(k, id) :: ReadEdge(a1, k) == ReadEdge(a0, k)
    requires SameShape(r, a1, b1)
    ensures SameShape(r, a0, WithoutNode(b1, id)) && SameOutside(r, b1, WithoutNode(b1, id))
    ensures forall n :: NodeAt(WithoutNode(b1, id), n) == if n == id then None else NodeAt(b1, n)
  {
    var b0 := WithoutNode(b1, id);
    forall n | n in r.nodes ensures n in a0.nodes <==> n in b0.nodes {
      assert n in a1.nodes <==> n in b1.nodes;
    }
    forall k | k in a0.edges ensures !Incident(k, id) { assert EndpointsIn(k, a0.nodes); }
    forall k | Inside(r, k) ensures ReadEdge(a0, k) == ReadEdge(b0, k) {
      if !Incident(k, id) { assert ReadEdge(a1, k) == ReadEdge(b1, k); }
    }
  }

  /** The reverse of an addition is a deletion. */
  lemma {:induction false} ReverseAddition(
      h: Host, t: Schemas, later: Schemas, r: Region, a0: State, x: Action, e: Effect, b1: State)
    requires Closed(a0) && (x.CreateNode? || x.RestoreNode?) && x.id !in a0.nodes
    requires Undoable(a0, x) && !BlankCreate(x)
    requires Step(h, t, a0, x) == Ok(e) && StaysIn(r, x) && SameShape(r, e.state, b1)
    ensures ReversesTo(h, later, r, a0, x, e.undo, b1)
  {
    StepWrites(h, t, a0, x, e);
    assert e.undo == DeleteNode(x.id) && !Blank(x.id);
    assert x.id in e.state.nodes && x.id in b1.nodes;
    forall k | !Incident(k, x.id) ensures ReadEdge(e.state, k) == ReadEdge(a0, k) {}
    WithoutAdded(r, a0, e.state, b1, x.id);
    assert Step(h, later, b1, e.undo).value.state == WithoutNode(b1, x.id);
    assert NodeAt(a0, x.id) == None;
  }

  lemma {:induction false} RestoredEdges(r: Region, a0: State, b1: State, id: string)
    requires id in r.nodes && SameShape(r, WithoutNode(a0, id), b1)
    ensures SameEdges(r, a0, State(b1.nodes, b1.edges + IncidentEdges(a0.edges, id)))
    ensures forall k | !Inside(r, k) :: ReadEdge(b1, k) == ReadEdge(State(b1.nodes, b1.edges + IncidentEdges(a0.edges, id)), k)
  {
    var a1, b0 := WithoutNode(a0, id), State(b1.nodes, b1.edges + IncidentEdges(a0.edges, id));
    forall k | Inside(r, k) ensures ReadEdge(a0, k) == ReadEdge(b0, k) {
      assert ReadEdge(a1, k) == ReadEdge(b1, k);
    }
    forall k | !Inside(r, k) ensures ReadEdge(b1, k) == ReadEdge(b0, k) {
      assert !Incident(k, id);
    }
  }

  lemma {:induction false} RestorableEdges(r: Region, a0: State, b1: State, id: string, nodes: map<string, Node>)
    requires KeysGiven(a0) && Closed(a0) && id in a0.nodes && id in r.nodes
    requires SameShape(r, WithoutNode(a0, id), b1) && nodes.Keys == b1.nodes.Keys + {id}
    ensures var es := IncidentEdges(a0.edges, id);
            (forall k | k in es :: KeyGiven(k) && EndpointsIn(k, nodes)) <==>
            (forall k | k in es :: (k.source !in r.nodes ==> k.source in b1.nodes)
                                && (k.target !in r.nodes ==> k.target in b1.nodes))
  {
    var es := IncidentEdges(a0.edges, id);
    forall k | k in es
      ensures KeyGiven(k) && (k.source in r.nodes ==> k.source in nodes) && (k.target in r.nodes ==> k.target in nodes)
    {
      assert k in a0.edges && EndpointsIn(k, a0.nodes);
      forall n | n in r.nodes && n in a0.nodes ensures n in nodes {
        assert n in WithoutNode(a0, id).nodes <==> n in b1.nodes;
      }
    }
  }

  /** What a restoration of the deleted record makes of the later graph. */
  lemma {:induction false} RestoredShape(h: Host, later: Schemas, r: Region, a0: State, id: string, b1: State, b0: State)
    requires id in a0.nodes && id in r.nodes && SameShape(r, WithoutNode(a0, id), b1)
    requires Reread(h, later, Some(a0.nodes[id])).Some?
    requires b0 == State(b1.nodes[id := Reread(h, later, Some(a0.nodes[id])).value],
                         b1.edges + IncidentEdges(a0.edges, id))
    ensures Reversed1(h, later, r, a0, DeleteNode(id), b1, b0)
  {
    RestoredEdges(r, a0, b1, id);
    forall m | m in r.nodes ensures m in a0.nodes <==> m in b0.nodes {
      assert m in WithoutNode(a0, id).nodes <==> m in b1.nodes;
    }
    forall k ensures ReadEdge(b0, k) == ReadEdge(State(b1.nodes, b0.edges), k) {}
    assert NodeAt(a0, id) == Some(a0.nodes[id]);
  }

  /** When a restoration runs, and what it leaves. */
  lemma {:induction false} RestorationRuns(h: Host, t: Schemas, s: State, x: Action, row: Node)
    requires x.RestoreNode? && !Blank(x.id) && !Blank(x.kind)
    requires Reread(h, t, Some(Node(x.kind, x.properties, None))) == Some(row)
    ensures var back := Step(h, t, s, x);
            && (back.Ok? <==> forall k | k in x.edges :: KeyGiven(k) && EndpointsIn(k, s.nodes[x.id := row]))
            && (back.Ok? ==> back.value.state == State(s.nodes[x.id := row], s.edges + x.edges))
  {
  }

  /** The reverse of a deletion is a restoration. */
  lemma {:induction false} ReverseDeletion(
      h: Host, later: Schemas, r: Region, a0: State, x: Action, e: Effect, b1: State)
    requires KeysGiven(a0) && Closed(a0) && x.DeleteNode?
    requires StepDelete(a0, x) == Ok(e) && !Blank(a0.nodes[x.id].kind)
    requires StaysIn(r, x) && SameShape(r, e.state, b1)
    ensures ReversesTo(h, later, r, a0, x, e.undo, b1)
  {
    var n := a0.nodes[x.id];
    assert x.id !in e.state.nodes && x.id !in b1.nodes;
    if PayloadReads(h, later, e.undo) {
      var row := Reread(h, later, Some(n)).value;
      RestorationRuns(h, later, b1, e.undo, row);
      RestorableEdges(r, a0, b1, x.id, b1.nodes[x.id := row]);
      RestoredShape(h, later, r, a0, x.id, b1, State(b1.nodes[x.id := row], b1.edges + e.undo.edges));
    } else {
      assert Step(h, later, b1, e.undo).Err?;
    }
  }

  /** Writing one edge of the region back, or taking it away. */
  lemma {:induction false} LinkShape(r: Region, a0: State, a1: State, b1: State, k: EdgeKey, b0: State)
    requires k in r.keys && a0.nodes == a1.nodes && b0.nodes == b1.nodes && SameShape(r, a1, b1)
    requires forall l | l != k :: ReadEdge(a0, l) == ReadEdge(a1, l) && ReadEdge(b0, l) == ReadEdge(b1, l)
    requires ReadEdge(b0, k) == ReadEdge(a0, k)
    ensures SameShape(r, a0, b0) && SameOutside(r, b1, b0)
    ensures forall id :: NodeAt(b0, id) == NodeAt(b1, id)
  {
    forall l | Inside(r, l) ensures ReadEdge(a0, l) == ReadEdge(b0, l) {
      assert ReadEdge(a1, l) == ReadEdge(b1, l);
    }
  }

  lemma {:induction false} ReverseLink(
      h: Host, t: Schemas, later: Schemas, r: Region, a0: State, x: Action, e: Effect, b1: State)
    requires Closed(a0) && IsEdgeAction(x)
    requires StepEdge(a0, x) == Ok(e) && StaysIn(r, x) && SameShape(r, e.state, b1)
    ensures ReversesTo(h, later, r, a0, x, e.undo, b1)
  {
    assert e.undo.key == x.key && Inside(r, x.key);
    assert ReadEdge(e.state, x.key) == ReadEdge(b1, x.key);
    if e.undo.CreateEdge? {
      assert EndpointsIn(x.key, e.state.nodes);
    }
    assert Step(h, later, b1, e.undo) == StepEdge(b1, e.undo);
    if StepEdge(b1, e.undo).Ok? {
      LinkShape(r, a0, e.state, b1, x.key, StepEdge(b1, e.undo).value.state);
    }
  }

  /** One action. Its reverse, run later in any graph of the same shape and under any table, succeeds
      exactly when the table accepts the row it carries and the endpoints it needs outside the region
      exist. */
  lemma {:induction false} ReverseStep(
      h: Host, t: Schemas, later: Schemas, r: Region, a0: State, x: Action, e: Effect, b1: State)
    requires TableOk(t) && LooseGraph(t, a0) && Undoable(a0, x) && !BlankCreate(x)
    requires Step(h, t, a0, x) == Ok(e) && StaysIn(r, x) && SameShape(r, e.state, b1)
    ensures ReversesTo(h, later, r, a0, x, e.undo, b1)
  {
    if x.DeleteNode? {
      assert StepDelete(a0, x) == Ok(e);
      assert LooseRow(t, a0.nodes[x.id]);
      ReverseDeletion(h, later, r, a0, x, e, b1);
    } else if IsEdgeAction(x) {
      assert StepEdge(a0, x) == Ok(e);
      ReverseLink(h, t, later, r, a0, x, e, b1);
    } else if x.id in a0.nodes {
      ReverseWrite(h, t, later, r, a0, x, e, b1);
    } else {
      ReverseAddition(h, t, later, r, a0, x, e, b1);
    }
  }

  // ---- Reverse batches -----------------------------------------------------------------------------

  lemma {:induction false} RunPrefixFails(h: Host, t: Schemas, s: State, xs: seq<Action>, ys: seq<Action>)
    requires Run(h, t, s, xs).Err?
    ensures Run(h, t, s, xs + ys).Err?
    decreases xs
  {
    assert (xs + ys)[0] == xs[0] && (xs + ys)[1..] == xs[1..] + ys;
    if Step(h, t, s, xs[0]).Ok? {
      RunPrefixFails(h, t, Step(h, t, s, xs[0]).value.state, xs[1..], ys);
    }
  }

  /** A batch with one more action at its end. */
  lemma {:induction false} RunSnoc(h: Host, t: Schemas, s: State, xs: seq<Action>, y: Action)
    ensures Run(h, t, s, xs + [y]).Ok? <==> Run(h, t, s, xs).Ok? && Step(h, t, Run(h, t, s, xs).value.state, y).Ok?
    ensures Run(h, t, s, xs + [y]).Ok? ==>
      Run(h, t, s, xs + [y]).value.state == Step(h, t, Run(h, t, s, xs).value.state, y).value.state
  {
    if Run(h, t, s, xs).Err? {
      RunPrefixFails(h, t, s, xs, [y]);
    } else {
      RunConcat(h, t, s, xs, [y]);
      assert [y][1..] == [];
    }
  }

  lemma {:induction false} RunUndoableSnoc(h: Host, t: Schemas, s: State, xs: seq<Action>, y: Action)
    requires RunUndoable(h, t, s, xs)
    requires Run(h, t, s, xs).Ok? ==> Undoable(Run(h, t, s, xs).value.state, y)
    ensures RunUndoable(h, t, s, xs + [y])
    decreases xs
  {
    if xs == [] {
      assert xs + [y] == [y] && [y][1..] == [];
    } else {
      assert (xs + [y])[0] == xs[0] && (xs + [y])[1..] == xs[1..] + [y];
      if Step(h, t, s, xs[0]).Ok? {
        RunUndoableSnoc(h, t, Step(h, t, s, xs[0]).value.state, xs[1..], y);
      }
    }
  }

  /** The reverse batch takes `b` to `back`. */
  ghost predicate ReversedAll(
      h: Host, later: Schemas, r: Region, a0: State, actions: seq<Action>, b: State, back: State) {
    && SameShape(r, a0, back)
    && SameOutside(r, b, back)
    && forall id :: NodeAt(back, id) ==
                    if Touches(actions, id) then Reread(h, later, NodeAt(a0, id)) else NodeAt(b, id)
  }

  ghost predicate Runnable(h: Host, later: Schemas, r: Region, undo: seq<Action>, b: State) {
    forall x | x in undo :: PayloadReads(h, later, x) && OutsideEndpoints(r, x, b)
  }

  lemma {:induction false} ReversedFirst(
      h: Host, t: Schemas, later: Schemas, r: Region, a0: State, actions: seq<Action>, e: Effect,
      b: State, b1: State, b0: State)
    requires actions != [] && Step(h, t, a0, actions[0]) == Ok(e)
    requires ReversedAll(h, later, r, e.state, actions[1..], b, b1)
    requires Reversed1(h, later, r, a0, actions[0], b1, b0)
    ensures ReversedAll(h, later, r, a0, actions, b, b0)
  {
    SameOutsideTransitive(r, b, b1, b0);
    StepKeepsOthers(h, t, a0, actions[0], e);
    forall id
      ensures NodeAt(b0, id) == if Touches(actions, id) then Reread(h, later, NodeAt(a0, id)) else NodeAt(b, id)
    {
      TouchesFirst(actions, id);
      if !OnRecord(actions[0], id) { assert NodeAt(a0, id) == NodeAt(e.state, id); }
    }
  }

  /** The whole reverse batch, in any graph of the shape the batch left and under any table. */
  lemma {:induction false} ReverseRun(
      h: Host, t: Schemas, later: Schemas, r: Region, a0: State, actions: seq<Action>, b: State)
    requires TableOk(t) && LooseGraph(t, a0) && RunUndoable(h, t, a0, actions) && Run(h, t, a0, actions).Ok?
    requires forall x | x in actions :: StaysIn(r, x) && !BlankCreate(x)
    requires SameShape(r, Run(h, t, a0, actions).value.state, b)
    ensures var undo := Run(h, t, a0, actions).value.undo;
            var back := Run(h, later, b, undo);
            && (back.Ok? <==> Runnable(h, later, r, undo, b))
            && (back.Ok? ==> ReversedAll(h, later, r, a0, actions, b, back.value.state))
            && RunUndoable(h, later, b, undo)
            && forall x | x in undo :: StaysIn(r, x) && !x.CreateNode?
    decreases actions
  {
    if actions == [] {
      assert Run(h, later, b, []).value.state == b;
    } else {
      var e := Step(h, t, a0, actions[0]).value;
      var rest := Run(h, t, e.state, actions[1..]).value;
      StepKeepsLoose(h, t, a0, actions[0]);
      ReverseRun(h, t, later, r, e.state, actions[1..], b);
      var undo := Run(h, t, a0, actions).value.undo;
      assert undo == rest.undo + [e.undo];
      ReverseLast(h, t, later, r, a0, actions, e, rest.undo, b);
    }
  }

  lemma {:induction false} ReverseLast(
      h: Host, t: Schemas, later: Schemas, r: Region, a0: State, actions: seq<Action>, e: Effect,
      undo: seq<Action>, b: State)
    requires TableOk(t) && LooseGraph(t, a0) && actions != [] && Step(h, t, a0, actions[0]) == Ok(e)
    requires Undoable(a0, actions[0]) && StaysIn(r, actions[0]) && !BlankCreate(actions[0])
    requires var back := Run(h, later, b, undo);
             && (back.Ok? <==> Runnable(h, later, r, undo, b))
             && (back.Ok? ==> ReversedAll(h, later, r, e.state, actions[1..], b, back.value.state))
    requires RunUndoable(h, later, b, undo)
    requires forall x | x in undo :: StaysIn(r, x) && !x.CreateNode?
    ensures var back := Run(h, later, b, undo + [e.undo]);
            && (back.Ok? <==> Runnable(h, later, r, undo + [e.undo], b))
            && (back.Ok? ==> ReversedAll(h, later, r, a0, actions, b, back.value.state))
    ensures RunUndoable(h, later, b, undo + [e.undo])
    ensures forall x | x in undo + [e.undo] :: StaysIn(r, x) && !x.CreateNode?
  {
    RunSnoc(h, later, b, undo, e.undo);
    assert forall x :: x in undo + [e.undo] <==> x in undo || x == e.undo;
    if Run(h, later, b, undo).Ok? {
      var b1 := Run(h, later, b, undo).value.state;
      ReverseStep(h, t, later, r, a0, actions[0], e, b1);
      OutsideEndpointsStable(r, e.undo, b, b1);
      if Step(h, later, b1, e.undo).Ok? {
        ReversedFirst(h, t, later, r, a0, actions, e, b, b1, Step(h, later, b1, e.undo).value.state);
      }
    } else {
      UndoStays(h, t, r, a0, actions[0], e);
    }
    RunUndoableSnoc(h, later, b, undo, e.undo);
  }

  lemma {:induction false} UndoStays(h: Host, t: Schemas, r: Region, a0: State, x: Action, e: Effect)
    requires Step(h, t, a0, x) == Ok(e) && StaysIn(r, x)
    ensures StaysIn(r, e.undo) && !e.undo.CreateNode?
  {
  }
}
