/** Reversing a committed batch later, when the graph outside its region may have changed. */
module GraphCompensation {
  import opened Basics
  import opened Ontology
  import opened Graph
  import opened GraphReverse
  import opened GraphUndo
  import opened GraphGuard

  /** Capturing evidence fails exactly when an edge the batch names holds the separator. */
  lemma CaptureSucceeds(s: State, actions: seq<Action>)
    ensures CaptureGuard(s, actions).Ok? <==> forall k | k in TouchedKeys(actions) :: Separable(k)
  {
    forall k | k in TouchedKeys(actions) ensures |Parts(JoinKey(k))| == 3 <==> Separable(k) {
      KeyRoundTrip(k);
    }
    var texts := set k | k in TouchedKeys(actions) :: JoinKey(k);
    forall k | k in TouchedKeys(actions) ensures JoinKey(k) in texts {}
  }

  /** `g` is what a graph shows at the places a batch touched. */
  ghost predicate Shows(actions: seq<Action>, s: State, g: Guard) {
    && g.version == 1
    && g.nodes.Keys == TouchedNodes(actions) == g.incident.Keys
    && g.edges.Keys == (set k | k in TouchedKeys(actions) :: JoinKey(k))
    && (forall id | id in TouchedNodes(actions) :: g.nodes[id] == ReadNode(s, id))
    && (forall id | id in TouchedNodes(actions) :: g.incident[id] == IncidentEdges(s.edges, id))
    && (forall k | k in TouchedKeys(actions) :: Separable(k) && g.edges[JoinKey(k)] == ReadEdge(s, k))
  }

  lemma CaptureShows(s: State, actions: seq<Action>)
    requires CaptureGuard(s, actions).Ok?
    ensures Shows(actions, s, CaptureGuard(s, actions).value)
  {
    CaptureSucceeds(s, actions);
    forall k | k in TouchedKeys(actions) ensures KeyOf(JoinKey(k)) == k {
      KeyRoundTrip(k);
    }
  }

  lemma ReadShows(actions: seq<Action>, a: State, g: Guard, b: State)
    requires Shows(actions, a, g)
    ensures ReadGuard(b, g).Ok? && Shows(actions, b, ReadGuard(b, g).value)
  {
    forall k | k in TouchedKeys(actions) ensures |Parts(JoinKey(k))| == 3 && KeyOf(JoinKey(k)) == k {
      KeyRoundTrip(k);
    }
  }

  lemma {:induction false} IncidentAgree(a: State, b: State, id: string)
    ensures IncidentEdges(a.edges, id) == IncidentEdges(b.edges, id)
        <==> forall k | Incident(k, id) :: ReadEdge(a, k) == ReadEdge(b, k)
  {
    var x, y := IncidentEdges(a.edges, id), IncidentEdges(b.edges, id);
    if x == y {
      forall k | Incident(k, id) ensures ReadEdge(a, k) == ReadEdge(b, k) {
        assert k in x <==> k in a.edges;
        assert k in y <==> k in b.edges;
      }
    }
    if forall k | Incident(k, id) :: ReadEdge(a, k) == ReadEdge(b, k) {
      forall k ensures k in x <==> k in y {
        if Incident(k, id) { assert ReadEdge(a, k) == ReadEdge(b, k); }
      }
      forall k | k in x ensures x[k] == y[k] {
        assert ReadEdge(a, k) == ReadEdge(b, k);
      }
    }
  }

  /** The indexed column of every record is its property. */
  ghost predicate Columns(s: State) {
    forall id | id in s.nodes :: s.nodes[id].namespace == Get(s.nodes[id].properties, NAMESPACE)
  }

  lemma LooseHasColumns(t: Schemas, s: State)
    requires LooseRows(t, s)
    ensures Columns(s)
  {
    forall id | id in s.nodes ensures s.nodes[id].namespace == Get(s.nodes[id].properties, NAMESPACE) {
      assert LooseRow(t, s.nodes[id]);
    }
  }

  lemma {:induction false} AgreementFromGuard(a: State, b: State, actions: seq<Action>, g: Guard)
    requires Columns(a) && Columns(b)
    requires Shows(actions, a, g) && Shows(actions, b, g)
    ensures Agree(RegionOf(actions), a, b)
  {
    var r := RegionOf(actions);
    forall id | id in r.nodes ensures NodeAt(a, id) == NodeAt(b, id) {
      assert g.nodes[id] == ReadNode(a, id) == ReadNode(b, id);
    }
    forall k | Inside(r, k) ensures ReadEdge(a, k) == ReadEdge(b, k) {
      if k in r.keys {
        assert g.edges[JoinKey(k)] == ReadEdge(a, k) == ReadEdge(b, k);
      } else {
        var id := if k.source in r.nodes then k.source else k.target;
        assert g.incident[id] == IncidentEdges(a.edges, id) == IncidentEdges(b.edges, id);
        IncidentAgree(a, b, id);
        assert Incident(k, id);
      }
    }
  }

  lemma {:induction false} GuardFromAgreement(a: State, b: State, actions: seq<Action>, g: Guard, seen: Guard)
    requires Shows(actions, a, g) && Shows(actions, b, seen) && Agree(RegionOf(actions), a, b)
    ensures seen == g
  {
    var r := RegionOf(actions);
    forall id | id in g.nodes ensures seen.nodes[id] == g.nodes[id] && seen.incident[id] == g.incident[id] {
      assert NodeAt(a, id) == NodeAt(b, id);
      forall k | Incident(k, id) ensures ReadEdge(a, k) == ReadEdge(b, k) { assert Inside(r, k); }
      IncidentAgree(a, b, id);
    }
    forall text | text in g.edges ensures seen.edges[text] == g.edges[text] {
      var k :| k in TouchedKeys(actions) && text == JoinKey(k);
      assert Inside(r, k);
    }
    assert seen.nodes == g.nodes;
    assert seen.edges == g.edges;
    assert seen.incident == g.incident;
  }

  /** A later graph shows the captured evidence exactly when it agrees with the committed graph on the
      records the batch touched, their incident edges and the edges the batch named. */
  lemma GuardMeansAgreement(a: State, b: State, actions: seq<Action>)
    requires Columns(a) && Columns(b)
    requires CaptureGuard(a, actions).Ok?
    ensures var g := CaptureGuard(a, actions).value;
            ReadGuard(b, g) == Ok(g) <==> Agree(RegionOf(actions), a, b)
  {
    var g := CaptureGuard(a, actions).value;
    CaptureShows(a, actions);
    ReadShows(actions, a, g, b);
    if ReadGuard(b, g) == Ok(g) {
      AgreementFromGuard(a, b, actions, g);
    }
    if Agree(RegionOf(actions), a, b) {
      GuardFromAgreement(a, b, actions, g, ReadGuard(b, g).value);
    }
  }

  // ---- A batch and its normalised form touch the same places ---------------------------------------

  lemma StepKeepsPlace(h: Host, t: Schemas, s: State, x: Action, e: Effect)
    requires Step(h, t, s, x) == Ok(e)
    ensures IsEdgeAction(x) <==> IsEdgeAction(e.normalized)
    ensures IsEdgeAction(x) ==> e.normalized == x
    ensures IsNodeAction(x) ==> IsNodeAction(e.normalized) && e.normalized.id == x.id
  {
  }

  lemma TouchedSplit(x: Action, xs: seq<Action>)
    ensures TouchedKeys([x] + xs) == (if IsEdgeAction(x) then {x.key} else {}) + TouchedKeys(xs)
    ensures TouchedNodes([x] + xs) == (if IsNodeAction(x) then {x.id} else {}) + TouchedNodes(xs)
  {
    forall a ensures a in [x] + xs <==> a == x || a in xs {}
  }

  lemma {:induction false} RegionKept(h: Host, t: Schemas, s: State, xs: seq<Action>)
    requires Run(h, t, s, xs).Ok?
    ensures RegionOf(Run(h, t, s, xs).value.normalized) == RegionOf(xs)
    decreases xs
  {
    if xs != [] {
      var e := Step(h, t, s, xs[0]).value;
      RegionKept(h, t, e.state, xs[1..]);
      StepKeepsPlace(h, t, s, xs[0], e);
      var rest := Run(h, t, e.state, xs[1..]).value.normalized;
      TouchedSplit(xs[0], xs[1..]);
      TouchedSplit(e.normalized, rest);
      assert [xs[0]] + xs[1..] == xs;
    }
  }

  lemma {:induction false} UndoKeysSeparable(undo: seq<Action>, r: Region)
    requires forall x | x in undo :: StaysIn(r, x)
    requires forall k | k in r.keys :: Separable(k)
    ensures forall k | k in TouchedKeys(undo) :: Separable(k)
  {
  }

  // ---- Guarded compensation ------------------------------------------------------------------------

  /** The endpoints that lie outside the batch and that its re-created edges need. */
  ghost predicate OutsidePresent(result: BatchResult, b: State) {
    forall x | x in result.undo :: OutsideEndpoints(RegionOf(result.actions), x, b)
  }

  /** The table in force accepts every row the reverse batch carries. */
  ghost predicate PayloadsAccepted(h: Host, later: Schemas, result: BatchResult) {
    forall x | x in result.undo :: PayloadReads(h, later, x)
  }

  /** In the region `back` is `s`, its rows as the later table reads them; outside it is `b`. */
  ghost predicate BroughtBack(h: Host, later: Schemas, r: Region, s: State, b: State, back: State) {
    && (forall id | id in r.nodes :: NodeAt(back, id) == Reread(h, later, NodeAt(s, id)))
    && SameEdges(r, s, back)
    && SameOutside(r, b, back)
  }

  /** A call with evidence is the evidence check, the run and the capture. */
  lemma GuardedCommit(h: Host, t: Schemas, b: State, actions: seq<Action>, guard: Guard)
    requires actions != []
    ensures var done := Run(h, t, b, actions);
            var r := Commit(h, t, b, actions, Some(guard));
            && (r.Ok? <==> ReadGuard(b, guard) == Ok(guard) && done.Ok?
                           && CaptureGuard(done.value.state, done.value.normalized).Ok?)
            && (r.Ok? ==> r.value.state == done.value.state)
  {
  }

  /** Past the evidence check, the reverse batch runs exactly when its rows are read and the outside
      endpoints exist, and then its own evidence can be captured. */
  lemma {:induction false} CompensationRuns(
      h: Host, t: Schemas, s: State, actions: seq<Action>, done: Trace, later: Schemas, b: State)
    requires TableOk(t) && LooseGraph(t, s)
    requires forall a | a in actions :: Public(a) && !BlankCreate(a)
    requires Run(h, t, s, actions) == Ok(done) && CaptureGuard(done.state, done.normalized).Ok?
    requires Agree(RegionOf(actions), done.state, b)
    ensures var back := Run(h, later, b, done.undo);
            && (back.Ok? <==> Runnable(h, later, RegionOf(actions), done.undo, b))
            && (back.Ok? ==>
                  && CaptureGuard(back.value.state, back.value.normalized).Ok?
                  && BroughtBack(h, later, RegionOf(actions), s, b, back.value.state))
  {
    var r := RegionOf(actions);
    PublicIsUndoable(h, t, s, actions);
    UndoableStays(h, t, s, actions, r);
    AgreeIsSameShape(r, done.state, b);
    ReverseRun(h, t, later, r, s, actions, b);
    var back := Run(h, later, b, done.undo);
    if back.Ok? {
      RegionKept(h, t, s, actions);
      RegionKept(h, later, b, done.undo);
      CaptureSucceeds(done.state, done.normalized);
      UndoKeysSeparable(done.undo, r);
      CaptureSucceeds(back.value.state, back.value.normalized);
      forall id | id in r.nodes ensures Touches(actions, id) {
        var a :| a in actions && IsNodeAction(a) && a.id == id;
        assert OnRecord(a, id);
      }
    }
  }

  /** Guarded compensation under interference, under every table.

      A batch took the graph from `s` to `c.state`. Later the graph is some `b`, and the schema table some
      `later`. Sending the reverse batch with the batch's evidence succeeds exactly when no creation in the
      batch carried a blank id, the graph still agrees with `c.state` on everything the batch touched, the
      outside endpoints of the edges to re-create exist, and the later table accepts the rows to write
      back. On success the touched region is what it was in `s`, its rows as the later table reads them,
      and nothing outside it differs from `b`. */
  lemma GuardedCompensation(
      h: Host, t: Schemas, s: State, actions: seq<Action>, c: Committed, later: Schemas, b: State)
    requires TableOk(t) && LooseGraph(t, s)
    requires forall a | a in actions :: Public(a)
    requires Commit(h, t, s, actions, None) == Ok(c)
    requires Columns(b)
    ensures var r := RegionOf(c.result.actions);
            var back := Commit(h, later, b, c.result.undo, Some(c.result.guard));
            && (back.Ok? <==>
                  && (forall a | a in actions :: !BlankCreate(a))
                  && Agree(r, c.state, b) && OutsidePresent(c.result, b) && PayloadsAccepted(h, later, c.result))
            && (back.Ok? ==> BroughtBack(h, later, r, s, b, back.value.state))
  {
    var done := Run(h, t, s, actions).value;
    assert done == Trace(c.state, c.result.actions, c.result.undo);
    GuardedCommit(h, later, b, c.result.undo, c.result.guard);
    if exists a :: a in actions && BlankCreate(a) {
      BlankLeavesBlank(h, t, s, actions);
      BlankReverseFails(h, later, b, c.result.undo);
    } else {
      RunKeepsLoose(h, t, s, actions);
      LooseHasColumns(t, c.state);
      RegionKept(h, t, s, actions);
      GuardMeansAgreement(c.state, b, c.result.actions);
      if Agree(RegionOf(actions), c.state, b) {
        CompensationRuns(h, t, s, actions, done, later, b);
      }
    }
  }

  // ---- A table that only grew ----------------------------------------------------------------------

  lemma SameReading(h: Host, t: Schemas, later: Schemas, n: Node)
    requires Extends(later, t) && LooseRow(t, n)
    ensures Reads(h, later, n) <==> Reads(h, t, n)
    ensures Reread(h, later, Some(n)) == Reread(h, t, Some(n))
  {
    var d, l := Declared(t[n.kind]), Declared(later[n.kind]);
    forall k | k in n.properties ensures k in d && k in l && l[k] == d[k] {}
    if Reads(h, t, n) {
      assert Coerce(h, Some(later[n.kind]), n.properties).value == Coerce(h, Some(t[n.kind]), n.properties).value;
    }
  }

  lemma {:induction false} GrowthReads(h: Host, t: Schemas, later: Schemas, s: State, actions: seq<Action>)
    requires Extends(later, t) && LooseGraph(t, s) && Run(h, t, s, actions).Ok?
    ensures forall x | x in Run(h, t, s, actions).value.undo :: PayloadReads(h, later, x) <==> PayloadReads(h, t, x)
    decreases actions
  {
    if actions != [] {
      var a := actions[0];
      var e := Step(h, t, s, a).value;
      StepKeepsLoose(h, t, s, a);
      GrowthReads(h, t, later, e.state, actions[1..]);
      PayloadIsRow(h, t, t, s, a, e);
      PayloadIsRow(h, t, later, s, a, e);
      if IsNodeAction(a) && a.id in s.nodes { SameReading(h, t, later, s.nodes[a.id]); }
    }
  }

  /** When the table has only grown, the rows are read exactly when no later action of the batch was on
      the record of a creation whose derived namespace its type cannot read, and then the touched region is
      what it was in the well-formed `s`. */
  lemma CompensationAfterGrowth(
      h: Host, t: Schemas, s: State, actions: seq<Action>, c: Committed, later: Schemas, b: State)
    requires TableOk(t) && WellFormed(t, s)
    requires forall a | a in actions :: Public(a)
    requires Commit(h, t, s, actions, None) == Ok(c)
    requires Columns(b) && Extends(later, t)
    ensures var r := RegionOf(c.result.actions);
            var back := Commit(h, later, b, c.result.undo, Some(c.result.guard));
            && (back.Ok? <==>
                  && (forall a | a in actions :: !BlankCreate(a)) && !Poisoned(h, t, actions)
                  && Agree(r, c.state, b) && OutsidePresent(c.result, b))
            && (back.Ok? ==> Agree(r, s, back.value.state) && SameOutside(r, b, back.value.state))
  {
    WellFormedIsLoose(t, s);
    GuardedCompensation(h, t, s, actions, c, later, b);
    GrowthReads(h, t, later, s, actions);
    PayloadsRead(h, t, s, actions);
    WellFormedReads(h, t, s, actions);
    forall id | id in s.nodes ensures Reread(h, later, NodeAt(s, id)) == NodeAt(s, id) {
      assert RowOk(t, s.nodes[id]) && LooseRow(t, s.nodes[id]);
      SameReading(h, t, later, s.nodes[id]);
      RereadStored(h, t, s.nodes[id]);
    }
  }

  /** A proposal that declares `namespace` anew between the two calls is enough to refuse the reverse of a
      deletion: the stored text is no longer read. */
  lemma RedeclaredNamespaceRefuses(
      h: Host, t: Schemas, s: State, id: string, c: Committed, later: Schemas, b: State)
    requires TableOk(t) && LooseGraph(t, s) && Columns(b)
    requires Commit(h, t, s, [DeleteNode(id)], None) == Ok(c) && id in s.nodes
    requires s.nodes[id].kind in later && NAMESPACE in s.nodes[id].properties
    requires var kind := s.nodes[id].kind;
             CoerceValue(h, Declared(later[kind])[NAMESPACE], s.nodes[id].properties[NAMESPACE]).None?
    ensures Commit(h, later, b, c.result.undo, Some(c.result.guard)).Err?
  {
    var batch := [DeleteNode(id)];
    if Step(h, t, s, batch[0]).Ok? {
      var e := Step(h, t, s, batch[0]).value;
      RunOne(h, t, s, batch[0], e);
      PayloadIsRow(h, t, later, s, batch[0], e);
      assert e.undo in c.result.undo && !PayloadReads(h, later, e.undo);
      GuardedCompensation(h, t, s, batch, c, later, b);
    }
  }
}
