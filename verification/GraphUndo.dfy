/** A successful batch returns the batch that undoes it, and undoing twice redoes it: when, and to what. */
module GraphUndo {
  import opened Basics
  import opened Ontology
  import opened Graph
  import opened GraphReverse

  /** The five actions callers send, plus an overwrite of an existing record. */
  predicate Public(a: Action) {
    !a.RestoreNode? && !a.Unsupported?
  }

  lemma {:induction false} PublicIsUndoable(h: Host, t: Schemas, s: State, actions: seq<Action>)
    requires forall a | a in actions :: Public(a)
    ensures RunUndoable(h, t, s, actions)
    decreases actions
  {
    if actions != [] {
      assert Public(actions[0]);
      if Step(h, t, s, actions[0]).Ok? {
        PublicIsUndoable(h, t, Step(h, t, s, actions[0]).value.state, actions[1..]);
      }
    }
  }

  /** The region names every record and edge the batch is on. */
  ghost predicate Covers(r: Region, actions: seq<Action>) {
    forall x | x in actions :: (IsNodeAction(x) ==> x.id in r.nodes) && (IsEdgeAction(x) ==> x.key in r.keys)
  }

  lemma {:induction false} UndoableStays(h: Host, t: Schemas, s: State, actions: seq<Action>, r: Region)
    requires RunUndoable(h, t, s, actions) && Run(h, t, s, actions).Ok? && Covers(r, actions)
    ensures forall x | x in actions :: StaysIn(r, x)
    decreases actions
  {
    if actions != [] {
      assert actions[0] in actions;
      UndoableStays(h, t, Step(h, t, s, actions[0]).value.state, actions[1..], r);
      assert forall x :: x in actions <==> x == actions[0] || x in actions[1..];
    }
  }

  // ---- Which reverse batches are read back --------------------------------------------------------

  /** A creation whose derived namespace the type's own declaration of `namespace` cannot read. */
  predicate UnreadableCreate(h: Host, t: Schemas, a: Action) {
    Trapped(h, t, a) && CoerceValue(h, Declared(t[a.kind])[NAMESPACE], AppNamespace(a.id)).None?
  }

  /** A later action of the batch is on the record of an unreadable creation. */
  predicate Poisoned(h: Host, t: Schemas, actions: seq<Action>) {
    exists i | 0 <= i < |actions| ::
      UnreadableCreate(h, t, actions[i]) && Touches(actions[i + 1..], actions[i].id)
  }

  /** The batch is on a record that already holds a row the table cannot read. */
  ghost predicate TouchesUnread(h: Host, t: Schemas, s: State, actions: seq<Action>) {
    exists id | id in s.nodes :: !Reads(h, t, s.nodes[id]) && Touches(actions, id)
  }

  lemma PoisonedFirst(h: Host, t: Schemas, actions: seq<Action>)
    requires actions != []
    ensures Poisoned(h, t, actions) <==>
            (UnreadableCreate(h, t, actions[0]) && Touches(actions[1..], actions[0].id)) || Poisoned(h, t, actions[1..])
  {
    var rest := actions[1..];
    if i :| 1 <= i < |actions| && UnreadableCreate(h, t, actions[i]) && Touches(actions[i + 1..], actions[i].id) {
      assert rest[i - 1] == actions[i] && rest[i - 1 + 1..] == actions[i + 1..];
    }
    if i :| 0 <= i < |rest| && UnreadableCreate(h, t, rest[i]) && Touches(rest[i + 1..], rest[i].id) {
      assert rest[i] == actions[i + 1] && rest[i + 1..] == actions[i + 1 + 1..];
    }
  }

  lemma CreatedReads(h: Host, t: Schemas, a: Action)
    requires a.CreateNode? && Coerce(h, SchemaOf(t, a.kind), a.properties).Ok?
    ensures var n := CreatedNode(a.id, a.kind, Coerce(h, SchemaOf(t, a.kind), a.properties).value);
            Reads(h, t, n) <==> !UnreadableCreate(h, t, a)
  {
    var d := Declared(t[a.kind]);
    var validated := Coerce(h, SchemaOf(t, a.kind), a.properties).value;
    CoercionTypes(h, t[a.kind], a.properties);
    CoercionIdempotent(h, t[a.kind], a.properties);
    if NeedsNamespace(a.id, validated) {
      var p := CreatedNode(a.id, a.kind, validated).properties;
      assert p.Keys == validated.Keys + {NAMESPACE} && p.Keys <= d.Keys;
      assert p[NAMESPACE] == AppNamespace(a.id);
      forall k | k in p && k != NAMESPACE ensures CoerceValue(h, d[k], p[k]).Some? {
        assert HasType(d[k], validated[k]);
      }
    }
  }

  lemma WrittenReads(h: Host, t: Schemas, s: State, a: Action)
    requires Writes(a) && Written(h, t, s, a).Some?
    ensures Reads(h, t, Written(h, t, s, a).value) <==> !UnreadableCreate(h, t, a)
  {
    if a.CreateNode? {
      CreatedReads(h, t, a);
    } else {
      var n := Written(h, t, s, a).value;
      WrittenRow(h, t, s, a);
      CoercionFixpoints(h, t[n.kind], n.properties);
    }
  }

  /** The row a reverse action carries is the row its action found. */
  lemma {:induction false} PayloadIsRow(h: Host, t: Schemas, later: Schemas, s: State, a: Action, e: Effect)
    requires Step(h, t, s, a) == Ok(e)
    ensures PayloadReads(h, later, e.undo) <==>
            !(IsNodeAction(a) && a.id in s.nodes && !Reads(h, later, s.nodes[a.id]))
  {
    if IsNodeAction(a) {
    } else {
      assert StepEdge(s, a) == Ok(e);
    }
  }

  lemma {:induction false} UnreadAfterStep(h: Host, t: Schemas, s: State, actions: seq<Action>, e: Effect)
    requires actions != [] && Step(h, t, s, actions[0]) == Ok(e)
    ensures TouchesUnread(h, t, s, actions) || Poisoned(h, t, actions) <==>
            || !PayloadReads(h, t, e.undo)
            || TouchesUnread(h, t, e.state, actions[1..]) || Poisoned(h, t, actions[1..])
  {
    var a := actions[0];
    PayloadIsRow(h, t, t, s, a, e);
    PoisonedFirst(h, t, actions);
    StepKeepsOthers(h, t, s, a, e);
    if Writes(a) { WrittenReads(h, t, s, a); }
    forall id { TouchesFirst(actions, id); }
  }

  /** The reverse actions all carry readable rows exactly when the batch met no unreadable row, old or of
      its own making. */
  lemma {:induction false} PayloadsRead(h: Host, t: Schemas, s: State, actions: seq<Action>)
    requires Run(h, t, s, actions).Ok?
    ensures (forall x | x in Run(h, t, s, actions).value.undo :: PayloadReads(h, t, x)) <==>
            !TouchesUnread(h, t, s, actions) && !Poisoned(h, t, actions)
    decreases actions
  {
    if actions != [] {
      var e := Step(h, t, s, actions[0]).value;
      var rest := Run(h, t, e.state, actions[1..]).value;
      PayloadsRead(h, t, e.state, actions[1..]);
      UnreadAfterStep(h, t, s, actions, e);
      var undo := Run(h, t, s, actions).value.undo;
      assert undo == rest.undo + [e.undo];
      assert forall x :: x in undo <==> x in rest.undo || x == e.undo;
    }
  }

  // ---- The forward batch leaves the rest of the graph alone ----------------------------------------

  lemma {:induction false} StepFrames(h: Host, t: Schemas, s: State, a: Action, e: Effect, r: Region)
    requires Step(h, t, s, a) == Ok(e) && StaysIn(r, a)
    ensures SameOutside(r, s, e.state)
  {
    StepKeepsOthers(h, t, s, a, e);
    if Writes(a) {
      StepWrites(h, t, s, a, e);
    } else if a.DeleteNode? {
      assert StepDelete(s, a) == Ok(e);
    } else {
      assert StepEdge(s, a) == Ok(e);
    }
  }

  /** The endpoints a reverse action needs were there before its action. */
  lemma {:induction false} UndoHasEndpoints(h: Host, t: Schemas, s: State, a: Action, e: Effect, r: Region)
    requires Step(h, t, s, a) == Ok(e) && Closed(s)
    ensures OutsideEndpoints(r, e.undo, s)
  {
    forall k | k in Recreated(e.undo) ensures EndpointsIn(k, s.nodes) {
      assert k in s.edges;
    }
  }

  lemma {:induction false} RunFrames(h: Host, t: Schemas, s: State, actions: seq<Action>, r: Region)
    requires LooseGraph(t, s) && Run(h, t, s, actions).Ok?
    requires forall x | x in actions :: StaysIn(r, x)
    ensures SameOutside(r, s, Run(h, t, s, actions).value.state)
    ensures forall x | x in Run(h, t, s, actions).value.undo :: OutsideEndpoints(r, x, s)
    decreases actions
  {
    if actions != [] {
      var e := Step(h, t, s, actions[0]).value;
      var rest := Run(h, t, e.state, actions[1..]).value;
      StepKeepsLoose(h, t, s, actions[0]);
      StepFrames(h, t, s, actions[0], e, r);
      UndoHasEndpoints(h, t, s, actions[0], e, r);
      RunFrames(h, t, e.state, actions[1..], r);
      SameOutsideTransitive(r, s, e.state, rest.state);
      forall x | x in rest.undo + [e.undo] ensures OutsideEndpoints(r, x, s) {
        OutsideEndpointsStable(r, x, s, e.state);
      }
    }
  }

  // ---- Undo ----------------------------------------------------------------------------------------

  lemma RereadStored(h: Host, t: Schemas, n: Node)
    requires LooseRow(t, n)
    ensures Reread(h, t, Some(n)) == Some(n) <==> RowOk(t, n)
    ensures Reread(h, t, Some(n)).Some? <==> Reads(h, t, n)
  {
    CoercionFixpoints(h, t[n.kind], n.properties);
  }

  /** `back` is `s` with the rows of the touched records as the table reads them. */
  ghost predicate RereadAt(h: Host, t: Schemas, actions: seq<Action>, s: State, back: State) {
    && back.edges == s.edges
    && forall id :: NodeAt(back, id) == if Touches(actions, id) then Reread(h, t, NodeAt(s, id)) else NodeAt(s, id)
  }

  lemma RereadIsSame(h: Host, t: Schemas, actions: seq<Action>, s: State, back: State)
    requires RereadAt(h, t, actions, s, back) && LooseRows(t, s)
    ensures back == s <==> forall id | id in s.nodes && Touches(actions, id) :: RowOk(t, s.nodes[id])
  {
    forall id | id in s.nodes ensures Reread(h, t, NodeAt(s, id)) == NodeAt(s, id) <==> RowOk(t, s.nodes[id]) {
      RereadStored(h, t, s.nodes[id]);
    }
    if back == s {
      forall id | id in s.nodes && Touches(actions, id) ensures RowOk(t, s.nodes[id]) {
        assert NodeAt(back, id) == NodeAt(s, id);
      }
    }
    if forall id | id in s.nodes && Touches(actions, id) :: RowOk(t, s.nodes[id]) {
      forall id ensures NodeAt(back, id) == NodeAt(s, id) {}
      SameRows(back, s);
    }
  }

  /** The reverse of a batch without blank creations, in the graph the batch left: it runs exactly when
      every row it carries can be read, and leads back to the start but for the reading of those rows. */
  lemma {:induction false} RunUndo(h: Host, t: Schemas, s: State, actions: seq<Action>)
    requires TableOk(t) && LooseGraph(t, s) && RunUndoable(h, t, s, actions)
    requires Run(h, t, s, actions).Ok?
    requires forall a | a in actions :: !BlankCreate(a)
    ensures var done := Run(h, t, s, actions).value;
            var back := Run(h, t, done.state, done.undo);
            && (back.Ok? <==> !TouchesUnread(h, t, s, actions) && !Poisoned(h, t, actions))
            && (back.Ok? ==> RereadAt(h, t, actions, s, back.value.state))
            && RunUndoable(h, t, done.state, done.undo)
            && forall x | x in done.undo :: StaysIn(RegionOf(actions), x) && !x.CreateNode?
  {
    var r := RegionOf(actions);
    var done := Run(h, t, s, actions).value;
    UndoableStays(h, t, s, actions, r);
    RunFrames(h, t, s, actions, r);
    ReverseRun(h, t, t, r, s, actions, done.state);
    PayloadsRead(h, t, s, actions);
    forall x | x in done.undo ensures OutsideEndpoints(r, x, done.state) {
      OutsideEndpointsStable(r, x, s, done.state);
    }
    var back := Run(h, t, done.state, done.undo);
    if back.Ok? { ReversedIsReread(h, t, r, s, actions, done.state, back.value.state); }
  }

  lemma {:induction false} ReversedIsReread(
      h: Host, t: Schemas, r: Region, s: State, actions: seq<Action>, b: State, back: State)
    requires r == RegionOf(actions) && SameOutside(r, s, b) && ReversedAll(h, t, r, s, actions, b, back)
    ensures RereadAt(h, t, actions, s, back)
  {
    forall k ensures ReadEdge(back, k) == ReadEdge(s, k) {
      if !Inside(r, k) { assert ReadEdge(s, k) == ReadEdge(b, k) == ReadEdge(back, k); }
    }
    SameLinks(back, s);
    forall id | !Touches(actions, id) ensures NodeAt(b, id) == NodeAt(s, id) {
      assert id !in r.nodes;
    }
  }

  lemma RunOne(h: Host, t: Schemas, s: State, a: Action, e: Effect)
    requires Step(h, t, s, a) == Ok(e)
    ensures Run(h, t, s, [a]) == Ok(Trace(e.state, [e.normalized], [e.undo]))
  {
    assert [a][1..] == [];
    assert Run(h, t, e.state, []) == Ok(Trace(e.state, [], []));
    assert [e.normalized] + [] == [e.normalized] && [] + [e.undo] == [e.undo];
  }

  /** One action: under every table its reverse restores a well-formed graph. */
  lemma StepUndo(h: Host, t: Schemas, s: State, a: Action, e: Effect)
    requires TableOk(t) && WellFormed(t, s)
    requires Step(h, t, s, a) == Ok(e) && Undoable(s, a) && !BlankCreate(a)
    ensures Step(h, t, e.state, e.undo).Ok? && Step(h, t, e.state, e.undo).value.state == s
  {
    var batch := [a];
    RunOne(h, t, s, a, e);
    var done := Run(h, t, s, batch).value;
    assert [] + [e.undo] == [e.undo];
    WellFormedIsLoose(t, s);
    RunUndo(h, t, s, batch);
    PoisonedFirst(h, t, batch);
    WellFormedReads(h, t, s, batch);
    RereadIsSame(h, t, batch, s, Run(h, t, done.state, done.undo).value.state);
    RunSnoc(h, t, e.state, [], e.undo);
    assert Run(h, t, e.state, []).value.state == e.state;
  }

  lemma WellFormedReads(h: Host, t: Schemas, s: State, actions: seq<Action>)
    requires RowsOk(t, s)
    ensures !TouchesUnread(h, t, s, actions)
  {
    forall id | id in s.nodes ensures Reads(h, t, s.nodes[id]) {
      assert RowOk(t, s.nodes[id]);
      CoercionFixpoints(h, t[s.nodes[id].kind], s.nodes[id].properties);
    }
  }

  predicate BlankReverse(a: Action) {
    (a.DeleteNode? || a.ReplaceNode?) && Blank(a.id)
  }

  /** A reverse action on a blank id is refused in every state, and with it the whole batch. */
  lemma {:induction false} BlankReverseFails(h: Host, t: Schemas, s: State, xs: seq<Action>)
    requires exists x :: x in xs && BlankReverse(x)
    ensures Run(h, t, s, xs).Err?
    decreases xs
  {
    if !BlankReverse(xs[0]) && Step(h, t, s, xs[0]).Ok? {
      BlankReverseFails(h, t, Step(h, t, s, xs[0]).value.state, xs[1..]);
    }
  }

  lemma {:induction false} BlankLeavesBlank(h: Host, t: Schemas, s: State, actions: seq<Action>)
    requires Run(h, t, s, actions).Ok?
    requires exists a :: a in actions && BlankCreate(a)
    ensures exists x :: x in Run(h, t, s, actions).value.undo && BlankReverse(x)
    decreases actions
  {
    var e := Step(h, t, s, actions[0]).value;
    var rest := Run(h, t, e.state, actions[1..]).value;
    if BlankCreate(actions[0]) {
      assert BlankReverse(e.undo) && e.undo in rest.undo + [e.undo];
    } else {
      BlankLeavesBlank(h, t, e.state, actions[1..]);
      var x :| x in rest.undo && BlankReverse(x);
      assert x in rest.undo + [e.undo];
    }
  }

  /** A generated reverse batch is on the records its batch is on. */
  lemma {:induction false} UndoTouches(h: Host, t: Schemas, s: State, actions: seq<Action>, id: string)
    requires Run(h, t, s, actions).Ok?
    ensures Touches(Run(h, t, s, actions).value.undo, id) <==> Touches(actions, id)
    decreases actions
  {
    if actions != [] {
      var e := Step(h, t, s, actions[0]).value;
      var rest := Run(h, t, e.state, actions[1..]).value;
      UndoTouches(h, t, e.state, actions[1..], id);
      TouchesFirst(actions, id);
      UndoSameRecord(h, t, s, actions[0], e, id);
      TouchesSnoc(rest.undo, e.undo, id);
    }
  }

  lemma UndoSameRecord(h: Host, t: Schemas, s: State, a: Action, e: Effect, id: string)
    requires Step(h, t, s, a) == Ok(e)
    ensures OnRecord(e.undo, id) <==> OnRecord(a, id)
  {
    if !IsNodeAction(a) { assert StepEdge(s, a) == Ok(e); }
  }

  lemma TouchesSnoc(xs: seq<Action>, x: Action, id: string)
    ensures Touches(xs + [x], id) <==> Touches(xs, id) || OnRecord(x, id)
  {
    if i :| 0 <= i < |xs| && OnRecord(xs[i], id) { assert OnRecord((xs + [x])[i], id); }
    if OnRecord(x, id) { assert OnRecord((xs + [x])[|xs|], id); }
  }

  /** Redo: the reverse of the reverse leads back to the graph the batch left exactly when that graph is
      well formed. */
  lemma {:induction false} Redo(h: Host, t: Schemas, s: State, actions: seq<Action>)
    requires TableOk(t) && WellFormed(t, s) && RunUndoable(h, t, s, actions) && Run(h, t, s, actions).Ok?
    requires forall a | a in actions :: !BlankCreate(a)
    requires !Poisoned(h, t, actions)
    ensures var done := Run(h, t, s, actions).value;
            var back := Run(h, t, done.state, done.undo);
            && back.Ok? && back.value.state == s
            && (Run(h, t, s, back.value.undo).Ok? && Run(h, t, s, back.value.undo).value.state == done.state
                <==> !EndsTrapped(h, t, actions))
  {
    var done := Run(h, t, s, actions).value;
    WellFormedIsLoose(t, s);
    WellFormedReads(h, t, s, actions);
    RunUndo(h, t, s, actions);
    var back := Run(h, t, done.state, done.undo).value;
    RereadIsSame(h, t, actions, s, back.state);
    RunKeepsLoose(h, t, s, actions);
    RunUndo(h, t, done.state, done.undo);
    forall id { UndoTouches(h, t, s, actions, id); }
    RunLeavesWellFormed(h, t, s, actions);
    RedoneRows(h, t, s, actions, done);
    var redone := Run(h, t, s, back.undo);
    if redone.Ok? { RereadIsSame(h, t, done.undo, done.state, redone.value.state); }
    if !EndsTrapped(h, t, actions) {
      assert RowsOk(t, done.state);
      WellFormedReads(h, t, done.state, done.undo);
      NothingPoisoned(h, t, done.undo);
    }
  }

  lemma NothingPoisoned(h: Host, t: Schemas, actions: seq<Action>)
    requires forall x | x in actions :: !x.CreateNode?
    ensures !Poisoned(h, t, actions)
  {
  }

  /** Rows the batch left alone are as valid as they were. */
  lemma {:induction false} RedoneRows(h: Host, t: Schemas, s: State, actions: seq<Action>, done: Trace)
    requires WellFormed(t, s) && Run(h, t, s, actions) == Ok(done) && RunUndoable(h, t, s, actions)
    requires LooseGraph(t, done.state)
    ensures RowsOk(t, done.state) <==>
            forall id | id in done.state.nodes && Touches(actions, id) :: RowOk(t, done.state.nodes[id])
  {
    var r := RegionOf(actions);
    WellFormedIsLoose(t, s);
    UndoableStays(h, t, s, actions, r);
    RunFrames(h, t, s, actions, r);
    forall id | id in done.state.nodes && !Touches(actions, id) ensures RowOk(t, done.state.nodes[id]) {
      assert id !in r.nodes;
      assert NodeAt(s, id) == NodeAt(done.state, id);
      assert RowOk(t, s.nodes[id]);
    }
  }

  /** Undo and redo, under every table. From a well-formed graph, the returned reverse batch restores the
      graph exactly when no creation in the batch carried a blank id and no later action of the batch is
      on the record of a creation whose derived namespace its type cannot read. The reverse of the reverse
      then leads back to the graph the batch left exactly when no trapped creation is the last action on
      its record. */
  lemma UndoRedo(h: Host, t: Schemas, s: State, actions: seq<Action>)
    requires TableOk(t) && WellFormed(t, s)
    requires forall a | a in actions :: Public(a)
    requires Run(h, t, s, actions).Ok?
    ensures var done := Run(h, t, s, actions).value;
            var back := Run(h, t, done.state, done.undo);
            && (back.Ok? <==> (forall a | a in actions :: !BlankCreate(a)) && !Poisoned(h, t, actions))
            && (back.Ok? ==>
                  && back.value.state == s
                  && (Run(h, t, s, back.value.undo).Ok? && Run(h, t, s, back.value.undo).value.state == done.state
                      <==> !EndsTrapped(h, t, actions)))
  {
    PublicIsUndoable(h, t, s, actions);
    var done := Run(h, t, s, actions).value;
    if exists a :: a in actions && BlankCreate(a) {
      BlankLeavesBlank(h, t, s, actions);
      BlankReverseFails(h, t, done.state, done.undo);
    } else {
      WellFormedIsLoose(t, s);
      RunUndo(h, t, s, actions);
      if !Poisoned(h, t, actions) { Redo(h, t, s, actions); }
    }
  }

  /** The blank-id exception is real: creating a record named by one space cannot be undone. */
  lemma BlankCreateCannotBeUndone(h: Host, t: Schemas, kind: string)
    requires kind in t && kind != "" && Usable(t[kind])
    ensures var done := Run(h, t, State(map[], map[]), [CreateNode(" ", kind, map[])]);
            done.Ok? && Run(h, t, done.value.state, done.value.undo).Err?
  {
    var start := State(map[], map[]);
    var a := CreateNode(" ", kind, map[]);
    CoercionFixpoints(h, t[kind], map[]);
    var e := Step(h, t, start, a).value;
    assert Blank(" ");
    assert [a][1..] == [];
    assert Run(h, t, e.state, []) == Ok(Trace(e.state, [], []));
    var done := Run(h, t, start, [a]).value;
    assert done.undo == [DeleteNode(" ")];
  }

  lemma RunTwo(h: Host, t: Schemas, s: State, x: Action, y: Action, ex: Effect, ey: Effect)
    requires Step(h, t, s, x) == Ok(ex) && Step(h, t, ex.state, y) == Ok(ey)
    ensures Run(h, t, s, [x, y]).Ok? && Run(h, t, s, [x, y]).value.state == ey.state
  {
    assert [x, y][1..] == [y] && [y][1..] == [];
    assert Run(h, t, ey.state, []) == Ok(Trace(ey.state, [], []));
    assert Run(h, t, ex.state, [y]).Ok? && Run(h, t, ex.state, [y]).value.state == ey.state;
  }

  lemma AppIdText(text: string)
    requires ':' !in text
    ensures IsAppId("app:" + text) && AppNamespace("app:" + text) == Str(text)
  {
    assert ("app:" + text)[..4] == "app:" && ("app:" + text)[4..] == text;
    NoColon(text);
  }

  lemma {:induction false} NoColon(s: string)
    requires ':' !in s
    ensures UpToColon(s) == s
  {
    if s != "" { NoColon(s[1..]); }
  }

  lemma PoisonedSteps(h: Host, t: Schemas, kind: string, start: State, x: Action, y: Action)
    requires kind in t && kind != "" && Usable(t[kind]) && t[kind].properties == map[NAMESPACE := PInteger]
    requires start == State(map[], map[]) && x == CreateNode("app:x", kind, map[]) && y == DeleteNode("app:x")
    requires h.parseInt("x").None?
    ensures UnreadableCreate(h, t, x) && Run(h, t, start, [x, y]).Ok?
  {
    CoercionFixpoints(h, t[kind], map[]);
    AppIdText("x");
    assert "app:x"[0] == 'a' && !Blank("app:x");
    var ex := Step(h, t, start, x).value;
    var ey := Step(h, t, ex.state, y).value;
    RunTwo(h, t, start, x, y, ex, ey);
  }

  /** The second exception is real: a type that declares `namespace` as an integer, and a batch that
      creates an App record of it and deletes the record again. */
  lemma PoisonedBatch(h: Host, t: Schemas, kind: string)
    requires TableOk(t) && kind in t && Usable(t[kind]) && t[kind].properties == map[NAMESPACE := PInteger]
    requires h.parseInt("x").None?
    ensures var start := State(map[], map[]);
            var batch := [CreateNode("app:x", kind, map[]), DeleteNode("app:x")];
            var done := Run(h, t, start, batch);
            WellFormed(t, start) && done.Ok? && Run(h, t, done.value.state, done.value.undo).Err?
  {
    var x, y := CreateNode("app:x", kind, map[]), DeleteNode("app:x");
    assert !Blank(kind);
    PoisonedSteps(h, t, kind, State(map[], map[]), x, y);
    assert OnRecord([x, y][1..][0], "app:x");
    UndoRedo(h, t, State(map[], map[]), [x, y]);
  }
}
