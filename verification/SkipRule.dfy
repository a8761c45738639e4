/** The skip rule is sound: a query it skips has the same result before and after the mutation. */
module SkipRule {
  import opened Basics
  import opened Ontology
  import Graph
  import opened Queries
  import opened Sorting

  lemma OrdersAreAsymmetric()
    ensures Asymmetric(NodeBefore) && Asymmetric(EdgeBefore)
  {
    forall a, b ensures !(NodeBefore(a, b) && NodeBefore(b, a)) { LessIsAsymmetric(a.id, b.id); }
  }

  lemma {:induction false} KindStaysSorted(nodes: seq<NodeRow>, kind: Option<string>)
    requires Ascending(NodeBefore, nodes)
    ensures Ascending(NodeBefore, NodesOfKind(nodes, kind))
  {
    if nodes != [] {
      var rest := nodes[1..];
      KindStaysSorted(rest, kind);
      OfKind(rest, kind);
      forall n | n in NodesOfKind(rest, kind) ensures NodeBefore(nodes[0], n) {
        var i :| 0 <= i < |rest| && rest[i] == n;
        assert nodes[i + 1] == n;
      }
    }
  }

  lemma {:induction false} ContributionsStaySorted(s: Store, id: string, inc: Include, edges: seq<EdgeRow>)
    requires Ascending(EdgeBefore, edges)
    ensures Ascending(EdgeBefore, Contributions(s, id, inc, edges))
  {
    if edges != [] {
      var rest := edges[1..];
      ContributionsStaySorted(s, id, inc, rest);
      forall e | e in Contributions(s, id, inc, rest) ensures EdgeBefore(edges[0], e) {
        var i :| 0 <= i < |rest| && rest[i] == e;
        assert edges[i + 1] == e;
      }
    }
  }

  /** The records of an untouched type are listed alike. */
  lemma UntouchedKind(s: Store, t: Store, kind: string, mutated: set<string>)
    requires Valid(s) && Valid(t) && Covers(s, t, mutated) && Covers(t, s, mutated) && kind !in mutated
    ensures NodesOfKind(s.nodes, Some(kind)) == NodesOfKind(t.nodes, Some(kind))
  {
    OfKind(s.nodes, Some(kind));
    OfKind(t.nodes, Some(kind));
    KindStaysSorted(s.nodes, Some(kind));
    KindStaysSorted(t.nodes, Some(kind));
    OrdersAreAsymmetric();
    AscendingUnique(NodeBefore, NodesOfKind(s.nodes, Some(kind)), NodesOfKind(t.nodes, Some(kind)));
  }

  /** A record of an untouched type is found in the other store as it was. */
  lemma UntouchedNode(s: Store, t: Store, id: string, mutated: set<string>)
    requires Valid(t) && Covers(s, t, mutated)
    requires FindNode(s.nodes, id).Some? && FindNode(s.nodes, id).value.kind !in mutated
    ensures FindNode(t.nodes, id) == FindNode(s.nodes, id)
  {
  }

  /** An edge that contributes to an untouched include contributes, alike, in the other store. */
  lemma ContributionKept(s: Store, t: Store, n: NodeRow, inc: Include, e: EdgeRow, mutated: set<string>)
    requires Valid(s) && Valid(t) && Covers(s, t, mutated)
    requires n in s.nodes && n.kind !in mutated && inc.target.Some? && inc.target.value !in mutated
    requires e in s.edges && Contributes(s, n.id, inc, e)
    ensures e in t.edges && Contributes(t, n.id, inc, e) && RelationOf(t, n.id, e) == RelationOf(s, n.id, e)
  {
    UntouchedNode(s, t, OtherEnd(e.key, n.id), mutated);
    var target := FindNode(s.nodes, OtherEnd(e.key, n.id)).value;
    forall m | m in s.nodes && (m.id == e.key.source || m.id == e.key.target) ensures m.kind !in mutated {
      assert m == n || m == target;
    }
    assert !EndpointIn(s, e.key, mutated);
  }

  lemma IncludeKept(s: Store, t: Store, n: NodeRow, inc: Include, mutated: set<string>)
    requires Valid(s) && Valid(t) && Covers(s, t, mutated) && Covers(t, s, mutated)
    requires n in s.nodes && n in t.nodes && n.kind !in mutated
    requires inc.target.Some? && inc.target.value !in mutated
    ensures Included(s, n.id, inc, s.edges) == Included(t, n.id, inc, t.edges)
  {
    var a, b := Contributions(s, n.id, inc, s.edges), Contributions(t, n.id, inc, t.edges);
    forall e | e in a ensures e in b && RelationOf(t, n.id, e) == RelationOf(s, n.id, e) {
      ContributionKept(s, t, n, inc, e, mutated);
    }
    forall e | e in b ensures e in a { ContributionKept(t, s, n, inc, e, mutated); }
    ContributionsStaySorted(s, n.id, inc, s.edges);
    ContributionsStaySorted(t, n.id, inc, t.edges);
    OrdersAreAsymmetric();
    AscendingUnique(EdgeBefore, a, b);
    RelationsAgree(s, t, n.id, a);
  }

  lemma {:induction false} RelationsAgree(s: Store, t: Store, id: string, edges: seq<EdgeRow>)
    requires forall e | e in edges :: FindNode(s.nodes, OtherEnd(e.key, id)).Some?
    requires forall e | e in edges :: FindNode(t.nodes, OtherEnd(e.key, id)).Some?
    requires forall e | e in edges :: RelationOf(s, id, e) == RelationOf(t, id, e)
    ensures Relations(s, id, edges) == Relations(t, id, edges)
  {
    if edges != [] {
      assert edges[0] in edges;
      RelationsAgree(s, t, id, edges[1..]);
    }
  }

  lemma {:induction false} AllRelationsKept(s: Store, t: Store, n: NodeRow, includes: seq<Include>, mutated: set<string>)
    requires Valid(s) && Valid(t) && Covers(s, t, mutated) && Covers(t, s, mutated)
    requires n in s.nodes && n in t.nodes && n.kind !in mutated
    requires forall i | 0 <= i < |includes| :: includes[i].target.Some? && includes[i].target.value !in mutated
    ensures AllRelations(s, n.id, includes) == AllRelations(t, n.id, includes)
    decreases includes
  {
    if includes != [] {
      IncludeKept(s, t, n, includes[0], mutated);
      AllRelationsKept(s, t, n, includes[1..], mutated);
    }
  }

  lemma {:induction false} AllResultsKept(s: Store, t: Store, q: Query, nodes: seq<NodeRow>, mutated: set<string>)
    requires Valid(s) && Valid(t) && Covers(s, t, mutated) && Covers(t, s, mutated) && Skippable(q, mutated)
    requires forall n | n in nodes :: n in s.nodes && n in t.nodes && n.kind !in mutated
    ensures AllResults(s, q, nodes) == AllResults(t, q, nodes)
    decreases nodes
  {
    if nodes != [] {
      assert nodes[0] in nodes;
      AllRelationsKept(s, t, nodes[0], q.includes, mutated);
      AllResultsKept(s, t, q, nodes[1..], mutated);
    }
  }

  /** Soundness of skipping. When the types cover the change in both directions - the old and the new type
      of every changed record, an endpoint type of every changed edge - a query that the rule skips
      has the same result on both stores. */
  lemma SkippedQueryIsUnchanged(s: Store, t: Store, q: Query, mutated: set<string>)
    requires Valid(s) && Valid(t) && Covers(s, t, mutated) && Covers(t, s, mutated) && Skippable(q, mutated)
    ensures Execute(s, q) == Execute(t, q)
  {
    UntouchedKind(s, t, q.kind.value, mutated);
    var nodes := NodesOfKind(s.nodes, q.kind);
    OfKind(s.nodes, q.kind);
    OfKind(t.nodes, q.kind);
    AllResultsKept(s, t, q, nodes, mutated);
  }

  /** An endpoint of each changed edge is needed: here the mutated types cover only the changed records,
      and a skipped query loses a relation. */
  lemma EdgesMustBeCovered() returns (s: Store, t: Store, q: Query)
    ensures Valid(s) && Valid(t) && Skippable(q, {"note"})
    ensures forall n :: n in s.nodes <==> n in t.nodes
    ensures Execute(s, q) != Execute(t, q)
  {
    var a, b := NodeRow("a", "task", map[], 2), NodeRow("b", "person", map[], 1);
    var e := EdgeRow(Graph.EdgeKey("a", "b", "owner"), map[], 0);
    s, t := Store([a, b], [e]), Store([a, b], []);
    var inc := Include("owner", Some("person"));
    q := Query(Some("task"), map[], [inc], 1);
    assert NodesOfKind([b], Some("task")) == [];
    assert NodesOfKind(s.nodes, q.kind) == [a];
    assert FindNode(s.nodes[1..], "b") == Some(b);
    assert FindNode(s.nodes, "b") == Some(b);
    assert Contributes(s, "a", inc, e);
    assert Contributions(s, "a", inc, [e]) == [e];
    assert Included(s, "a", inc, [e]) == [RelationOf(s, "a", e)];
    assert AllRelations(s, "a", []) == [] && AllRelations(t, "a", []) == [];
    assert AllRelations(s, "a", [inc]) == [RelationOf(s, "a", e)] + [];
    assert AllRelations(t, "a", [inc]) == [];
    assert AllResults(s, q, [a]) == [ResultOf(s, q, a)];
    assert AllResults(t, q, [a]) == [ResultOf(t, q, a)];
  }
}
