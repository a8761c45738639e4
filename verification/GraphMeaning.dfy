/** What one action does to the records and relationships, in terms of the tables alone. */
module GraphMeaning {
  import opened Basics
  import opened Ontology
  import opened Graph
  import opened Text

  /** What properties come to under a registered type: the same keys, all declared, each value as its declared type
      stores it. */
  ghost predicate StoredUnder(h: Host, t: Schemas, kind: string, given: Props, stored: Props) {
    && kind in t
    && t[kind].ontologyId == "ambient-context" && !t[kind].isAbstract && t[kind].dataScope == "user_context"
    && stored.Keys == given.Keys
    && forall k | k in given ::
         if k in t[kind].properties then Stores(h, t[kind].properties[k], given[k], stored[k])
         else k == "namespace" && Stores(h, PString, given[k], stored[k])
  }

  lemma CoerceStores(h: Host, t: Schemas, kind: string, given: Props, stored: Props)
    ensures Coerce(h, SchemaOf(t, kind), given) == Ok(stored) <==> StoredUnder(h, t, kind, given, stored)
  {
    if kind in t { CoercionMeans(h, t[kind], given, stored); }
  }

  ghost predicate Falsy(v: Value) {
    v in {Null, Bool(false), Int(0), Num(Finite(0.0)), Str(""), Arr([]), Obj(map[])}
  }

  /** The text between the first two colons of an App record's id. */
  ghost predicate SecondPart(id: string, part: string) {
    ':' !in part && (id == "app:" + part || exists rest :: id == "app:" + part + ":" + rest)
  }

  lemma {:induction false} UpToColonMeans(s: string, part: string)
    ensures UpToColon(s) == part <==> ':' !in part && (s == part || exists rest :: s == part + ":" + rest)
  {
    if s == "" {
    } else if s[0] == ':' {
      assert s == "" + ":" + s[1..];
      if part != "" && s[0] == part[0] { assert ':' in part; }
    } else {
      assert s == [s[0]] + s[1..];
      if part == "" {
        forall rest ensures s != part + ":" + rest { assert (part + ":" + rest)[0] == ':'; }
      } else {
        var tail := part[1..];
        assert part == [part[0]] + tail;
        UpToColonMeans(s[1..], tail);
        if s[0] == part[0] {
          forall rest ensures s == part + ":" + rest <==> s[1..] == tail + ":" + rest {
            assert part + ":" + rest == [part[0]] + (tail + ":" + rest);
          }
        } else {
          forall rest ensures s != part + ":" + rest { assert (part + ":" + rest)[0] == part[0]; }
        }
      }
    }
  }

  lemma PartMeans(id: string, part: string)
    requires IsAppId(id)
    ensures AppNamespace(id) == Str(part) <==> SecondPart(id, part)
  {
    var s := id[4..];
    assert id == "app:" + s;
    UpToColonMeans(s, part);
    forall rest ensures id == "app:" + part + ":" + rest <==> s == part + ":" + rest {
      assert "app:" + part + ":" + rest == "app:" + (part + ":" + rest);
      assert ("app:" + part + ":" + rest)[4..] == part + ":" + rest;
    }
    assert ("app:" + part)[4..] == part;
  }

  /** The row of a creation: an App record without a namespace gets the second part of its id. */
  ghost predicate Created(id: string, kind: string, stored: Props, n: Node) {
    && n.kind == kind
    && n.namespace == (if "namespace" in n.properties then Some(n.properties["namespace"]) else None)
    && if "app:" <= id && ("namespace" in stored ==> Falsy(stored["namespace"]))
       then exists part :: SecondPart(id, part) && n.properties == stored["namespace" := Str(part)]
       else n.properties == stored
  }

  lemma CreatedMeans(id: string, kind: string, stored: Props, n: Node)
    ensures CreatedNode(id, kind, stored) == n <==> Created(id, kind, stored, n)
  {
    assert IsAppId(id) <==> "app:" <= id;
    assert forall v :: Truthy(v) <==> !Falsy(v);
    if NeedsNamespace(id, stored) {
      forall part ensures AppNamespace(id) == Str(part) <==> SecondPart(id, part) { PartMeans(id, part); }
      assert SecondPart(id, AppNamespace(id).s);
    }
  }

  ghost predicate Plainly(kind: string, stored: Props, n: Node) {
    && n.kind == kind && n.properties == stored
    && n.namespace == (if "namespace" in stored then Some(stored["namespace"]) else None)
  }

  ghost predicate UndoesWrite(s: State, id: string, undo: Action) {
    if id in s.nodes then undo == ReplaceNode(id, Some(s.nodes[id].kind), s.nodes[id].properties)
    else undo == DeleteNode(id)
  }

  ghost predicate Visible(text: string) {
    exists i :: 0 <= i < |text| && !IsSpace(text[i])
  }

  lemma VisibleMeans(text: string)
    ensures Visible(text) <==> !Blank(text)
  {
    BlankIsSpaces(text);
  }

  ghost predicate VisibleKey(k: EdgeKey) {
    Visible(k.source) && Visible(k.target) && Visible(k.kind)
  }

  lemma VisibleKeyMeans(k: EdgeKey)
    ensures VisibleKey(k) <==> KeyGiven(k)
  {
    VisibleMeans(k.source);
    VisibleMeans(k.target);
    VisibleMeans(k.kind);
  }

  // ---- One action ------------------------------------------------------------------------------------

  ghost predicate CreatesTo(s: State, id: string, kind: string, stored: Props, n: Node, e: Effect) {
    && Created(id, kind, stored, n)
    && e.state == s.(nodes := s.nodes[id := n]) && e.normalized == CreateNode(id, kind, n.properties)
  }

  ghost predicate Creates(h: Host, t: Schemas, s: State, id: string, kind: string, given: Props, e: Effect) {
    && id != "" && kind != ""
    && UndoesWrite(s, id, e.undo)
    && exists stored, n :: StoredUnder(h, t, kind, given, stored) && CreatesTo(s, id, kind, stored, n, e)
  }

  /** The properties an update stores: its own values where it has any, and the old ones under the other keys. */
  ghost predicate Updated(prior: Props, given: Props, incoming: Props) {
    && incoming.Keys == prior.Keys + given.Keys
    && forall k | k in incoming :: incoming[k] == if k in given then given[k] else prior[k]
  }

  ghost predicate RewritesTo(s: State, a: Action, kind: string, stored: Props, n: Node, e: Effect)
    requires a.UpdateNode? || a.ReplaceNode?
  {
    && Plainly(kind, stored, n)
    && e.state == s.(nodes := s.nodes[a.id := n])
    && e.normalized == (if a.UpdateNode? then UpdateNode(a.id, Some(kind), stored)
                        else ReplaceNode(a.id, Some(kind), stored))
  }

  /** The properties to be stored: an update's over the old ones, or a replacement's alone. */
  ghost predicate Incoming(prior: Node, a: Action, incoming: Props)
    requires a.UpdateNode? || a.ReplaceNode?
  {
    if a.UpdateNode? then Updated(prior.properties, a.properties, incoming) else incoming == a.properties
  }

  /** The type the record gets: the one given, or its own. */
  ghost function NewKind(prior: Node, a: Action): string
    requires a.UpdateNode? || a.ReplaceNode?
  {
    if a.override == None then prior.kind else a.override.value
  }

  ghost predicate Rewrites(h: Host, t: Schemas, s: State, a: Action, e: Effect)
    requires a.UpdateNode? || a.ReplaceNode?
  {
    && Visible(a.id) && a.id in s.nodes
    && var prior := s.nodes[a.id];
    && e.undo == ReplaceNode(a.id, Some(prior.kind), prior.properties)
    && exists incoming, stored, n ::
         && Incoming(prior, a, incoming) && StoredUnder(h, t, NewKind(prior, a), incoming, stored)
         && RewritesTo(s, a, NewKind(prior, a), stored, n, e)
  }

  /** The edges of one end. */
  ghost predicate EdgesAt(edges: map<EdgeKey, Props>, id: string, here: map<EdgeKey, Props>) {
    && (forall k :: k in here <==> k in edges && (k.source == id || k.target == id))
    && forall k | k in here :: here[k] == edges[k]
  }

  /** A record goes with every edge that has an end at it; all others stay. */
  ghost predicate Deletes(s: State, id: string, e: Effect) {
    && Visible(id) && id in s.nodes
    && (forall n :: n in e.state.nodes <==> n in s.nodes && n != id)
    && (forall n | n in e.state.nodes :: e.state.nodes[n] == s.nodes[n])
    && (forall k :: k in e.state.edges <==> k in s.edges && k.source != id && k.target != id)
    && (forall k | k in e.state.edges :: e.state.edges[k] == s.edges[k])
    && e.normalized == DeleteNode(id)
    && e.undo.RestoreNode? && e.undo.id == id
    && e.undo.kind == s.nodes[id].kind && e.undo.properties == s.nodes[id].properties
    && EdgesAt(s.edges, id, e.undo.edges)
  }

  /** Every edge to be restored has visible parts and both ends, the restored record being one. */
  ghost predicate EndsThere(s: State, a: Action)
    requires a.RestoreNode?
  {
    forall k | k in a.edges ::
      && VisibleKey(k) && (k.source == a.id || k.source in s.nodes) && (k.target == a.id || k.target in s.nodes)
  }

  ghost predicate EdgesAdded(edges: map<EdgeKey, Props>, more: map<EdgeKey, Props>, all: map<EdgeKey, Props>) {
    && (forall k :: k in all <==> k in edges || k in more)
    && forall k | k in all :: all[k] == if k in more then more[k] else edges[k]
  }

  ghost predicate RestoresTo(s: State, a: Action, stored: Props, n: Node, e: Effect)
    requires a.RestoreNode?
  {
    Plainly(a.kind, stored, n) && e.state.nodes == s.nodes[a.id := n]
  }

  /** A restored record comes with edges, each of which needs both ends. */
  ghost predicate Restores(h: Host, t: Schemas, s: State, a: Action, e: Effect)
    requires a.RestoreNode?
  {
    && Visible(a.id) && Visible(a.kind)
    && EndsThere(s, a)
    && e.normalized == a && UndoesWrite(s, a.id, e.undo)
    && EdgesAdded(s.edges, a.edges, e.state.edges)
    && exists stored, n :: StoredUnder(h, t, a.kind, a.properties, stored) && RestoresTo(s, a, stored, n, e)
  }

  ghost predicate Links(s: State, k: EdgeKey, properties: Props, e: Effect) {
    && VisibleKey(k) && k.source in s.nodes && k.target in s.nodes
    && e.state == s.(edges := s.edges[k := properties]) && e.normalized == CreateEdge(k, properties)
    && e.undo == if k in s.edges then CreateEdge(k, s.edges[k]) else DeleteEdge(k)
  }

  ghost predicate Unlinks(s: State, k: EdgeKey, e: Effect) {
    && VisibleKey(k) && k in s.edges
    && e.state.nodes == s.nodes
    && (forall other :: other in e.state.edges <==> other in s.edges && other != k)
    && (forall other | other in e.state.edges :: e.state.edges[other] == s.edges[other])
    && e.normalized == DeleteEdge(k) && e.undo == CreateEdge(k, s.edges[k])
  }

  ghost predicate Does(h: Host, t: Schemas, s: State, a: Action, e: Effect) {
    match a
    case CreateNode(id, kind, properties) => Creates(h, t, s, id, kind, properties, e)
    case UpdateNode(_, _, _) => Rewrites(h, t, s, a, e)
    case ReplaceNode(_, _, _) => Rewrites(h, t, s, a, e)
    case DeleteNode(id) => Deletes(s, id, e)
    case RestoreNode(_, _, _, _) => Restores(h, t, s, a, e)
    case CreateEdge(k, properties) => Links(s, k, properties, e)
    case DeleteEdge(k) => Unlinks(s, k, e)
    case Unsupported(_) => false
  }

  lemma CreateDoes(h: Host, t: Schemas, s: State, a: Action, e: Effect)
    requires a.CreateNode? && Step(h, t, s, a) == Ok(e)
    ensures Does(h, t, s, a, e)
  {
    var stored := Coerce(h, SchemaOf(t, a.kind), a.properties).value;
    CoerceStores(h, t, a.kind, a.properties, stored);
    var n := CreatedNode(a.id, a.kind, stored);
    CreatedMeans(a.id, a.kind, stored, n);
    assert CreatesTo(s, a.id, a.kind, stored, n, e);
  }

  lemma CreateDone(h: Host, t: Schemas, s: State, a: Action, e: Effect)
    requires a.CreateNode? && Does(h, t, s, a, e)
    ensures Step(h, t, s, a) == Ok(e)
  {
    var stored, n :| StoredUnder(h, t, a.kind, a.properties, stored) && CreatesTo(s, a.id, a.kind, stored, n, e);
    CoerceStores(h, t, a.kind, a.properties, stored);
    CreatedMeans(a.id, a.kind, stored, n);
  }

  lemma IncomingIs(prior: Node, a: Action, incoming: Props)
    requires a.UpdateNode? || a.ReplaceNode?
    ensures Incoming(prior, a, incoming) <==>
            incoming == if a.ReplaceNode? then a.properties else prior.properties + a.properties
  {
  }

  lemma RewriteDoes(h: Host, t: Schemas, s: State, a: Action, e: Effect)
    requires (a.UpdateNode? || a.ReplaceNode?) && Step(h, t, s, a) == Ok(e)
    ensures Rewrites(h, t, s, a, e)
  {
    VisibleMeans(a.id);
    var prior := s.nodes[a.id];
    var kind := NewKind(prior, a);
    var incoming := if a.ReplaceNode? then a.properties else prior.properties + a.properties;
    IncomingIs(prior, a, incoming);
    var stored := Coerce(h, SchemaOf(t, kind), incoming).value;
    CoerceStores(h, t, kind, incoming, stored);
    assert RewritesTo(s, a, kind, stored, StoredNode(kind, stored), e);
  }

  lemma RewriteDone(h: Host, t: Schemas, s: State, a: Action, e: Effect)
    requires (a.UpdateNode? || a.ReplaceNode?) && Rewrites(h, t, s, a, e)
    ensures Step(h, t, s, a) == Ok(e)
  {
    VisibleMeans(a.id);
    var prior := s.nodes[a.id];
    var kind := NewKind(prior, a);
    var incoming, stored, n :|
      Incoming(prior, a, incoming) && StoredUnder(h, t, kind, incoming, stored) && RewritesTo(s, a, kind, stored, n, e);
    IncomingIs(prior, a, incoming);
    CoerceStores(h, t, kind, incoming, stored);
    assert n == StoredNode(kind, stored);
  }

  lemma DeleteMeans(s: State, id: string, e: Effect)
    ensures StepDelete(s, DeleteNode(id)) == Ok(e) <==> Deletes(s, id, e)
  {
    VisibleMeans(id);
    if Deletes(s, id, e) {
      assert e.state.nodes == s.nodes - {id};
      assert e.state.edges == WithoutNode(s, id).edges;
      assert e.undo.edges == IncidentEdges(s.edges, id);
    }
  }

  lemma EndsThereMeans(s: State, a: Action, n: Node)
    requires a.RestoreNode?
    ensures EndsThere(s, a) <==> forall k | k in a.edges :: KeyGiven(k) && EndpointsIn(k, s.nodes[a.id := n])
  {
    forall k | k in a.edges ensures VisibleKey(k) <==> KeyGiven(k) { VisibleKeyMeans(k); }
  }

  lemma RestoreDoes(h: Host, t: Schemas, s: State, a: Action, e: Effect)
    requires a.RestoreNode? && Step(h, t, s, a) == Ok(e)
    ensures Restores(h, t, s, a, e)
  {
    VisibleMeans(a.id);
    VisibleMeans(a.kind);
    var stored := Coerce(h, SchemaOf(t, a.kind), a.properties).value;
    CoerceStores(h, t, a.kind, a.properties, stored);
    var n := StoredNode(a.kind, stored);
    EndsThereMeans(s, a, n);
    assert RestoresTo(s, a, stored, n, e);
  }

  lemma RestoreAccepted(h: Host, t: Schemas, s: State, a: Action, stored: Props)
    requires a.RestoreNode? && !Blank(a.id) && !Blank(a.kind) && Coerce(h, SchemaOf(t, a.kind), a.properties) == Ok(stored)
    requires var nodes := s.nodes[a.id := StoredNode(a.kind, stored)];
             forall k | k in a.edges :: KeyGiven(k) && EndpointsIn(k, nodes)
    ensures Step(h, t, s, a).Ok?
    ensures Step(h, t, s, a).value.state == State(s.nodes[a.id := StoredNode(a.kind, stored)], s.edges + a.edges)
    ensures Step(h, t, s, a).value.normalized == a && UndoesWrite(s, a.id, Step(h, t, s, a).value.undo)
  {
  }

  lemma RestoredState(s: State, a: Action, stored: Props, n: Node, e: Effect)
    requires a.RestoreNode? && RestoresTo(s, a, stored, n, e) && EdgesAdded(s.edges, a.edges, e.state.edges)
    ensures e.state == State(s.nodes[a.id := StoredNode(a.kind, stored)], s.edges + a.edges)
  {
    assert n == StoredNode(a.kind, stored);
    assert e.state.edges == s.edges + a.edges;
  }

  lemma RestoreAgrees(h: Host, t: Schemas, s: State, a: Action, e: Effect, stored: Props)
    requires a.RestoreNode? && !Blank(a.id) && !Blank(a.kind) && EndsThere(s, a)
    requires Coerce(h, SchemaOf(t, a.kind), a.properties) == Ok(stored)
    requires e.state == State(s.nodes[a.id := StoredNode(a.kind, stored)], s.edges + a.edges)
    requires e.normalized == a && UndoesWrite(s, a.id, e.undo)
    ensures Step(h, t, s, a) == Ok(e)
  {
    EndsThereMeans(s, a, StoredNode(a.kind, stored));
    RestoreAccepted(h, t, s, a, stored);
  }

  lemma RestoreDone(h: Host, t: Schemas, s: State, a: Action, e: Effect)
    requires a.RestoreNode? && Restores(h, t, s, a, e)
    ensures Step(h, t, s, a) == Ok(e)
  {
    VisibleMeans(a.id);
    VisibleMeans(a.kind);
    var stored, n :| StoredUnder(h, t, a.kind, a.properties, stored) && RestoresTo(s, a, stored, n, e);
    CoerceStores(h, t, a.kind, a.properties, stored);
    RestoredState(s, a, stored, n, e);
    RestoreAgrees(h, t, s, a, e, stored);
  }

  lemma EdgeMeans(h: Host, t: Schemas, s: State, a: Action, e: Effect)
    requires a.CreateEdge? || a.DeleteEdge?
    ensures Step(h, t, s, a) == Ok(e) <==> Does(h, t, s, a, e)
  {
    VisibleKeyMeans(a.key);
    if a.DeleteEdge? && Unlinks(s, a.key, e) { assert e.state.edges == s.edges - {a.key}; }
  }

  /** One action, characterised: it is accepted with an effect exactly when that effect is the one described. */
  lemma StepMeans(h: Host, t: Schemas, s: State, a: Action, e: Effect)
    ensures Step(h, t, s, a) == Ok(e) <==> Does(h, t, s, a, e)
  {
    if Step(h, t, s, a) == Ok(e) {
      if a.CreateNode? { CreateDoes(h, t, s, a, e); }
      if a.UpdateNode? || a.ReplaceNode? { RewriteDoes(h, t, s, a, e); }
      if a.RestoreNode? { RestoreDoes(h, t, s, a, e); }
    }
    if Does(h, t, s, a, e) {
      if a.CreateNode? { CreateDone(h, t, s, a, e); }
      if a.UpdateNode? || a.ReplaceNode? { RewriteDone(h, t, s, a, e); }
      if a.RestoreNode? { RestoreDone(h, t, s, a, e); }
    }
    if a.DeleteNode? { DeleteMeans(s, a.id, e); }
    if a.CreateEdge? || a.DeleteEdge? { EdgeMeans(h, t, s, a, e); }
  }

  // ---- A batch ---------------------------------------------------------------------------------------

  /** Effects one after the other, each from the state the one before it left. */
  ghost predicate Chain(h: Host, t: Schemas, s: State, actions: seq<Action>, es: seq<Effect>, last: State)
    decreases actions
  {
    if actions == [] then es == [] && last == s
    else es != [] && Does(h, t, s, actions[0], es[0]) && Chain(h, t, es[0].state, actions[1..], es[1..], last)
  }

  /** The two lists a batch reports: what each action came to, in order, and what undoes it, in reverse. */
  ghost predicate Reports(es: seq<Effect>, normalized: seq<Action>, undo: seq<Action>) {
    && |es| == |normalized| == |undo|
    && forall i | 0 <= i < |es| :: normalized[i] == es[i].normalized && undo[|es| - 1 - i] == es[i].undo
  }

  lemma ReportsFirst(e: Effect, es: seq<Effect>, normalized: seq<Action>, undo: seq<Action>)
    requires Reports(es, normalized, undo)
    ensures Reports([e] + es, [e.normalized] + normalized, undo + [e.undo])
  {
    var all := [e] + es;
    var forward, back := [e.normalized] + normalized, undo + [e.undo];
    forall i | 0 <= i < |all| ensures forward[i] == all[i].normalized && back[|all| - 1 - i] == all[i].undo {
      if i > 0 {
        assert all[i] == es[i - 1] && forward[i] == normalized[i - 1];
        assert back[|all| - 1 - i] == undo[|es| - 1 - (i - 1)];
      }
    }
  }

  lemma {:induction false} RunChains(h: Host, t: Schemas, s: State, actions: seq<Action>) returns (es: seq<Effect>)
    requires Run(h, t, s, actions).Ok?
    ensures var tr := Run(h, t, s, actions).value;
            Chain(h, t, s, actions, es, tr.state) && Reports(es, tr.normalized, tr.undo)
    decreases actions
  {
    if actions == [] {
      es := [];
    } else {
      var e := Step(h, t, s, actions[0]).value;
      StepMeans(h, t, s, actions[0], e);
      var rest := RunChains(h, t, e.state, actions[1..]);
      var tail := Run(h, t, e.state, actions[1..]).value;
      ReportsFirst(e, rest, tail.normalized, tail.undo);
      es := [e] + rest;
      assert es[1..] == rest;
    }
  }

  lemma {:induction false} ChainRuns(h: Host, t: Schemas, s: State, actions: seq<Action>, es: seq<Effect>, last: State)
    requires Chain(h, t, s, actions, es, last)
    ensures Run(h, t, s, actions).Ok?
    ensures Run(h, t, s, actions).value.state == last
    ensures Reports(es, Run(h, t, s, actions).value.normalized, Run(h, t, s, actions).value.undo)
    decreases actions
  {
    if actions != [] {
      var e, rest := es[0], es[1..];
      StepMeans(h, t, s, actions[0], e);
      ChainRuns(h, t, e.state, actions[1..], rest, last);
      var tail := Run(h, t, e.state, actions[1..]).value;
      ReportsFirst(e, rest, tail.normalized, tail.undo);
      assert [e] + rest == es;
    }
  }

  lemma ReportsOnce(es: seq<Effect>, normalized: seq<Action>, undo: seq<Action>, forward: seq<Action>, back: seq<Action>)
    requires Reports(es, normalized, undo) && Reports(es, forward, back)
    ensures normalized == forward && undo == back
  {
    forall i | 0 <= i < |undo| ensures undo[i] == back[i] {
      var j := |es| - 1 - i;
      assert undo[|es| - 1 - j] == es[j].undo == back[|es| - 1 - j];
    }
  }

  /** A batch, characterised: it commits with a state and two lists exactly when its actions have effects, one
      from the state the other left, that end in this state and report these lists. */
  lemma RunMeans(h: Host, t: Schemas, s: State, actions: seq<Action>, tr: Trace)
    ensures Run(h, t, s, actions) == Ok(tr) <==>
              exists es :: Chain(h, t, s, actions, es, tr.state) && Reports(es, tr.normalized, tr.undo)
  {
    if Run(h, t, s, actions) == Ok(tr) {
      var es := RunChains(h, t, s, actions);
    }
    if es :| Chain(h, t, s, actions, es, tr.state) && Reports(es, tr.normalized, tr.undo) {
      ChainRuns(h, t, s, actions, es, tr.state);
      var done := Run(h, t, s, actions).value;
      ReportsOnce(es, tr.normalized, tr.undo, done.normalized, done.undo);
    }
  }
}
