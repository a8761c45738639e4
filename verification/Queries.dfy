/** Graph queries over the record store, and when a query may be skipped after a mutation. */
module Queries {
  import opened Basics
  import opened Ontology
  import Graph
  import opened Sorting

  type EdgeKey = Graph.EdgeKey

  const MAX_RESULTS: nat := 500
  const MAX_INCLUDES: nat := 16
  const MAX_RELATIONS: nat := 200
  const MAX_FILTERS: nat := 64

  /** A record with its creation time; an edge with its place in the table scan. */
  datatype NodeRow = NodeRow(id: string, kind: string, properties: Props, created: int)

  datatype EdgeRow = EdgeRow(key: EdgeKey, properties: Props, position: int)

  /** The tables in the order in which they are read. */
  datatype Store = Store(nodes: seq<NodeRow>, edges: seq<EdgeRow>)

  datatype Include = Include(relation: string, target: Option<string>)

  datatype Query = Query(kind: Option<string>, filter: Props, includes: seq<Include>, limit: nat)

  datatype Record = Record(id: string, kind: string, properties: Props)

  datatype Relation = Relation(edgeKind: string, properties: Props, target: Record)

  datatype Found = Found(record: Record, relations: seq<Relation>)

  // ---- Reading a query ---------------------------------------------------------------------------------

  /** A query object as it arrives; None is an absent member. */
  datatype RawQuery = RawQuery(kind: Option<Value>, filter: Option<Value>, includes: Option<Value>, limit: Option<Value>)

  predicate GivenText(v: Value) {
    v.Str? && v.s != ""
  }

  predicate TextOrNull(fields: Props, key: string) {
    key in fields ==> fields[key].Null? || GivenText(fields[key])
  }

  predicate IncludeOk(v: Value) {
    && v.Obj?
    && "relation" in v.fields && GivenText(v.fields["relation"])
    && TextOrNull(v.fields, "target_type")
  }

  function ReadInclude(v: Value): Include
    requires IncludeOk(v)
  {
    var target := if "target_type" in v.fields && v.fields["target_type"].Str?
                  then Some(v.fields["target_type"].s) else None;
    Include(v.fields["relation"].s, target)
  }

  function ReadIncludes(items: seq<Value>): Result<seq<Include>> {
    if items == [] then Ok([])
    else if !IncludeOk(items[0]) then Err(BadValue)
    else
      var rest := ReadIncludes(items[1..]);
      if rest.Err? then rest else Ok([ReadInclude(items[0])] + rest.value)
  }

  function ReadQuery(raw: RawQuery): Result<Query> {
    var kind := if raw.kind.Some? then raw.kind.value else Null;
    var filter := if raw.filter.Some? then raw.filter.value else Obj(map[]);
    var includes := if raw.includes.Some? then raw.includes.value else Arr([]);
    var limit := if raw.limit.Some? then raw.limit.value else Int(MAX_RESULTS);
    if !kind.Null? && !GivenText(kind) then Err(BadValue)
    else if !filter.Obj? || |filter.fields| > MAX_FILTERS then Err(BadValue)
    else if !includes.Arr? || |includes.items| > MAX_INCLUDES then Err(BadValue)
    else
      var read := ReadIncludes(includes.items);
      if read.Err? then Err(BadValue)
      else if !limit.Int? || !(1 <= limit.i <= MAX_RESULTS) then Err(BadValue)
      else Ok(Query(if kind.Str? then Some(kind.s) else None, filter.fields, read.value, limit.i))
  }

  // ---- Running a query -----------------------------------------------------------------------------------

  function FindNode(nodes: seq<NodeRow>, id: string): (r: Option<NodeRow>)
    ensures r.Some? ==> r.value in nodes && r.value.id == id
    ensures r.None? ==> forall n | n in nodes :: n.id != id
  {
    if nodes == [] then None
    else if nodes[0].id == id then Some(nodes[0])
    else FindNode(nodes[1..], id)
  }

  function Shown(n: NodeRow): Record {
    Record(n.id, n.kind, n.properties)
  }

  function NodesOfKind(nodes: seq<NodeRow>, kind: Option<string>): seq<NodeRow> {
    if nodes == [] then []
    else
      var rest := NodesOfKind(nodes[1..], kind);
      if kind == None || nodes[0].kind == kind.value then [nodes[0]] + rest else rest
  }

  function EdgesOf(edges: seq<EdgeRow>, id: string): seq<EdgeRow> {
    if edges == [] then []
    else
      var rest := EdgesOf(edges[1..], id);
      if Graph.Incident(edges[0].key, id) then [edges[0]] + rest else rest
  }

  /** A filter value that is null is met by a missing property. */
  predicate Passes(properties: Props, filter: Props) {
    forall k | k in filter :: (if k in properties then properties[k] else Null) == filter[k]
  }

  /** The other end of an incident edge; a self-loop leads back to the record. */
  function OtherEnd(key: EdgeKey, id: string): string {
    if key.source == id then key.target else key.source
  }

  predicate Contributes(s: Store, id: string, inc: Include, e: EdgeRow) {
    && Graph.Incident(e.key, id)
    && e.key.kind == inc.relation
    && var target := FindNode(s.nodes, OtherEnd(e.key, id));
    && target.Some?
    && (inc.target.Some? ==> target.value.kind == inc.target.value)
  }

  function RelationOf(s: Store, id: string, e: EdgeRow): Relation
    requires FindNode(s.nodes, OtherEnd(e.key, id)).Some?
  {
    Relation(e.key.kind, e.properties, Shown(FindNode(s.nodes, OtherEnd(e.key, id)).value))
  }

  function Contributions(s: Store, id: string, inc: Include, edges: seq<EdgeRow>): (r: seq<EdgeRow>)
    ensures forall e :: e in r <==> e in edges && Contributes(s, id, inc, e)
  {
    if edges == [] then []
    else
      var rest := Contributions(s, id, inc, edges[1..]);
      if Contributes(s, id, inc, edges[0]) then [edges[0]] + rest else rest
  }

  function Relations(s: Store, id: string, edges: seq<EdgeRow>): (r: seq<Relation>)
    requires forall e | e in edges :: FindNode(s.nodes, OtherEnd(e.key, id)).Some?
    ensures |r| == |edges|
  {
    if edges == [] then [] else [RelationOf(s, id, edges[0])] + Relations(s, id, edges[1..])
  }

  function Included(s: Store, id: string, inc: Include, edges: seq<EdgeRow>): seq<Relation> {
    Relations(s, id, Contributions(s, id, inc, edges))
  }

  /** Every relation the includes ask for, include by include, without a limit. */
  function AllRelations(s: Store, id: string, includes: seq<Include>): seq<Relation> {
    if includes == [] then []
    else
      Included(s, id, includes[0], s.edges) + AllRelations(s, id, includes[1..])
  }

  function Take<T>(xs: seq<T>, n: nat): seq<T> {
    if |xs| <= n then xs else xs[..n]
  }

  function ResultOf(s: Store, q: Query, n: NodeRow): Found {
    Found(Shown(n), Take(AllRelations(s, n.id, q.includes), MAX_RELATIONS))
  }

  /** Every result without a limit. */
  function AllResults(s: Store, q: Query, nodes: seq<NodeRow>): seq<Found> {
    if nodes == [] then []
    else
      var rest := AllResults(s, q, nodes[1..]);
      if Passes(nodes[0].properties, q.filter) then [ResultOf(s, q, nodes[0])] + rest else rest
  }

  /** What a query means: the first results, each with its first relations. */
  function Execute(s: Store, q: Query): seq<Found> {
    Take(AllResults(s, q, NodesOfKind(s.nodes, q.kind)), q.limit)
  }

  // ---- The loops -------------------------------------------------------------------------------------------

  lemma ScanStep(s: Store, id: string, inc: Include, edges: seq<EdgeRow>, i: nat, found: seq<Relation>)
    requires i < |edges|
    ensures var more := if Contributes(s, id, inc, edges[i]) then [RelationOf(s, id, edges[i])] else [];
            found + Included(s, id, inc, edges[i..]) == (found + more) + Included(s, id, inc, edges[i + 1..])
  {
    var rest := edges[i + 1..];
    assert edges[i..] == [edges[i]] + rest && edges[i..][1..] == rest;
  }

  lemma TakePrefix<T>(xs: seq<T>, more: seq<T>, n: nat)
    requires |xs| == n || (|xs| <= n && more == [])
    ensures Take(xs + more, n) == xs
  {
  }

  /** What one incident edge adds. */
  method RelationAlong(s: Store, id: string, inc: Include, e: EdgeRow) returns (relation: Option<Relation>)
    ensures relation.Some? <==> Contributes(s, id, inc, e)
    ensures relation.Some? ==> relation.value == RelationOf(s, id, e)
  {
    if e.key.kind != inc.relation { return None; }
    if e.key.source != id && e.key.target != id { return None; }
    var target := FindNode(s.nodes, OtherEnd(e.key, id));
    if target.None? || (inc.target.Some? && target.value.kind != inc.target.value) { return None; }
    return Some(Relation(e.key.kind, e.properties, Shown(target.value)));
  }

  /** One include: the incident edges are scanned until the record has its limit of relations. */
  method IncludeRelations(s: Store, id: string, inc: Include, incident: seq<EdgeRow>, found: seq<Relation>)
    returns (relations: seq<Relation>)
    requires incident == EdgesOf(s.edges, id) && |found| < MAX_RELATIONS
    ensures relations == Take(found + Included(s, id, inc, s.edges), MAX_RELATIONS)
  {
    ContributionsAreIncident(s, id, inc, s.edges);
    relations := found;
    ghost var goal := found + Included(s, id, inc, incident);
    assert incident[0..] == incident;
    var i := 0;
    while i < |incident|
      invariant 0 <= i <= |incident| && |relations| < MAX_RELATIONS
      invariant relations + Included(s, id, inc, incident[i..]) == goal
    {
      ScanStep(s, id, inc, incident, i, relations);
      var relation := RelationAlong(s, id, inc, incident[i]);
      i := i + 1;
      if relation.Some? {
        relations := relations + [relation.value];
        if |relations| >= MAX_RELATIONS {
          TakePrefix(relations, Included(s, id, inc, incident[i..]), MAX_RELATIONS);
          return;
        }
      } else {
        assert relations + [] == relations;
      }
    }
    TakePrefix(relations, [], MAX_RELATIONS);
  }

  lemma {:induction false} ContributionsAreIncident(s: Store, id: string, inc: Include, edges: seq<EdgeRow>)
    ensures Contributions(s, id, inc, EdgesOf(edges, id)) == Contributions(s, id, inc, edges)
  {
    if edges != [] {
      ContributionsAreIncident(s, id, inc, edges[1..]);
    }
  }

  /** All includes of one record. */
  method RelationsOfNode(s: Store, id: string, includes: seq<Include>) returns (relations: seq<Relation>)
    ensures relations == Take(AllRelations(s, id, includes), MAX_RELATIONS)
  {
    relations := [];
    var incident := EdgesOf(s.edges, id);
    ghost var goal := AllRelations(s, id, includes);
    assert includes[0..] == includes && [] + goal == goal;
    var i := 0;
    while i < |includes|
      invariant 0 <= i <= |includes| && |relations| < MAX_RELATIONS
      invariant relations + AllRelations(s, id, includes[i..]) == goal
    {
      ghost var others := AllRelations(s, id, includes[i + 1..]);
      assert includes[i..][1..] == includes[i + 1..];
      ghost var here := relations + Included(s, id, includes[i], s.edges);
      assert relations + (Included(s, id, includes[i], s.edges) + others) == here + others;
      relations := IncludeRelations(s, id, includes[i], incident, relations);
      TakeMore(here, others, MAX_RELATIONS);
      i := i + 1;
      if |relations| >= MAX_RELATIONS { return; }
    }
    TakePrefix(relations, [], MAX_RELATIONS);
  }

  lemma TakeMore<T>(xs: seq<T>, more: seq<T>, n: nat)
    ensures |Take(xs, n)| == n ==> Take(xs + more, n) == Take(xs, n)
    ensures |Take(xs, n)| < n ==> Take(xs, n) == xs
  {
  }

  /** `execute_graph_query` after validation, with its early breaks. */
  method ExecuteGraphQuery(s: Store, q: Query) returns (results: seq<Found>)
    requires q.limit >= 1
    ensures results == Execute(s, q)
  {
    results := [];
    var rows := NodesOfKind(s.nodes, q.kind);
    ghost var goal := AllResults(s, q, rows);
    assert rows[0..] == rows;
    var i := 0;
    while i < |rows|
      invariant 0 <= i <= |rows| && |results| < q.limit
      invariant results + AllResults(s, q, rows[i..]) == goal
    {
      var row := rows[i];
      ResultsStep(s, q, rows, i, results);
      i := i + 1;
      if Passes(row.properties, q.filter) {
        var relations := RelationsOfNode(s, row.id, q.includes);
        results := results + [Found(Shown(row), relations)];
        if |results| >= q.limit {
          TakePrefix(results, AllResults(s, q, rows[i..]), q.limit);
          return;
        }
      } else {
        assert results + [] == results;
      }
    }
    TakePrefix(results, [], q.limit);
  }

  lemma ResultsStep(s: Store, q: Query, rows: seq<NodeRow>, i: nat, results: seq<Found>)
    requires i < |rows|
    ensures var more := if Passes(rows[i].properties, q.filter) then [ResultOf(s, q, rows[i])] else [];
            results + AllResults(s, q, rows[i..]) == (results + more) + AllResults(s, q, rows[i + 1..])
  {
    assert rows[i..][1..] == rows[i + 1..];
  }

  lemma {:induction false} ReadQueryLimit(raw: RawQuery)
    ensures ReadQuery(raw).Ok? ==>
              1 <= ReadQuery(raw).value.limit <= MAX_RESULTS && |ReadQuery(raw).value.includes| <= MAX_INCLUDES
  {
    if raw.includes.Some? && raw.includes.value.Arr? { ReadIncludesLength(raw.includes.value.items); }
  }

  lemma {:induction false} ReadIncludesLength(items: seq<Value>)
    ensures ReadIncludes(items).Ok? ==> |ReadIncludes(items).value| == |items|
  {
    if items != [] { ReadIncludesLength(items[1..]); }
  }

  /** The sizes a result never passes, and what every result is. */
  lemma {:induction false} ResultsAreBounded(s: Store, q: Query)
    ensures |Execute(s, q)| <= q.limit
    ensures forall f | f in Execute(s, q) :: |f.relations| <= MAX_RELATIONS
    ensures forall f | f in Execute(s, q) :: Passes(f.record.properties, q.filter) &&
              (q.kind.Some? ==> f.record.kind == q.kind.value) && (exists n :: n in s.nodes && f == ResultOf(s, q, n))
  {
    AllResultsFit(s, q, NodesOfKind(s.nodes, q.kind));
    OfKind(s.nodes, q.kind);
  }

  lemma {:induction false} AllResultsFit(s: Store, q: Query, nodes: seq<NodeRow>)
    ensures forall f | f in AllResults(s, q, nodes) :: Passes(f.record.properties, q.filter) &&
              (exists n :: n in nodes && f == ResultOf(s, q, n))
  {
    if nodes != [] {
      AllResultsFit(s, q, nodes[1..]);
    }
  }

  lemma {:induction false} OfKind(nodes: seq<NodeRow>, kind: Option<string>)
    ensures forall n :: n in NodesOfKind(nodes, kind) <==> n in nodes && (kind == None || n.kind == kind.value)
  {
    if nodes != [] { OfKind(nodes[1..], kind); }
  }

  /** And nothing is left out: a record that matches is among the results, unless the limit is reached. */
  lemma ResultsAreComplete(s: Store, q: Query, n: NodeRow)
    requires n in s.nodes && (q.kind.Some? ==> n.kind == q.kind.value) && Passes(n.properties, q.filter)
    ensures ResultOf(s, q, n) in Execute(s, q) || |Execute(s, q)| == q.limit
  {
    OfKind(s.nodes, q.kind);
    AllResultsComplete(s, q, NodesOfKind(s.nodes, q.kind), n);
  }

  lemma {:induction false} AllResultsComplete(s: Store, q: Query, nodes: seq<NodeRow>, n: NodeRow)
    requires n in nodes && Passes(n.properties, q.filter)
    ensures ResultOf(s, q, n) in AllResults(s, q, nodes)
  {
    if n != nodes[0] {
      AllResultsComplete(s, q, nodes[1..], n);
    }
  }

  /** A relation is listed exactly when some include asks for it: an edge of the record, of the relation's
      type, whose other end exists and has the include's type. */
  lemma {:induction false} RelationsMean(s: Store, id: string, includes: seq<Include>, r: Relation)
    ensures r in AllRelations(s, id, includes) <==>
            exists i, e | 0 <= i < |includes| && e in s.edges ::
              Contributes(s, id, includes[i], e) && r == RelationOf(s, id, e)
  {
    if includes != [] {
      var inc, rest := includes[0], includes[1..];
      RelationsMean(s, id, rest, r);
      RelationsOfEdges(s, id, Contributions(s, id, inc, s.edges), r);
      if r in AllRelations(s, id, rest) {
        var i, e :| 0 <= i < |rest| && e in s.edges && Contributes(s, id, rest[i], e) && r == RelationOf(s, id, e);
        assert includes[i + 1] == rest[i];
      }
      if i, e :| 0 <= i < |includes| && e in s.edges && Contributes(s, id, includes[i], e) && r == RelationOf(s, id, e) {
        if i > 0 { assert rest[i - 1] == includes[i]; }
      }
    }
  }

  lemma {:induction false} RelationsOfEdges(s: Store, id: string, edges: seq<EdgeRow>, r: Relation)
    requires forall e | e in edges :: FindNode(s.nodes, OtherEnd(e.key, id)).Some?
    ensures r in Relations(s, id, edges) <==> exists e | e in edges :: r == RelationOf(s, id, e)
  {
    if edges != [] {
      assert edges[0] in edges;
      RelationsOfEdges(s, id, edges[1..], r);
      assert edges == [edges[0]] + edges[1..];
    }
  }

  // ---- When a query may be skipped -----------------------------------------------------------------------

  /** The skip rule of a broadcast; it never applies to an empty set of types. */
  predicate Skippable(q: Query, mutated: set<string>) {
    && q.kind.Some? && q.kind.value !in mutated
    && forall i | 0 <= i < |q.includes| :: q.includes[i].target.Some? && q.includes[i].target.value !in mutated
  }

  predicate CharLess(a: char, b: char) {
    a < b
  }

  /** SQLite compares text character by character. */
  predicate Less(a: string, b: string) {
    Lex(CharLess, a, b)
  }

  lemma {:induction false} LessIsAsymmetric(a: string, b: string)
    ensures !(Less(a, b) && Less(b, a))
  {
    if a != "" && b != "" { LessIsAsymmetric(a[1..], b[1..]); }
  }

  /** Newest first, then by id. */
  predicate NodeBefore(a: NodeRow, b: NodeRow) {
    a.created > b.created || (a.created == b.created && Less(a.id, b.id))
  }

  predicate EdgeBefore(a: EdgeRow, b: EdgeRow) {
    a.position < b.position
  }

  /** Rows come in order, and ids are keys. */
  ghost predicate Valid(s: Store) {
    && Ascending(NodeBefore, s.nodes) && Ascending(EdgeBefore, s.edges)
    && forall m, n | m in s.nodes && n in s.nodes && m.id == n.id :: m == n
  }

  predicate EndpointIn(s: Store, key: EdgeKey, mutated: set<string>) {
    exists n | n in s.nodes :: (n.id == key.source || n.id == key.target) && n.kind in mutated
  }

  /** The types cover a change: the type of every record row, and of an endpoint of every edge row, that
      one store has and the other has not. */
  ghost predicate Covers(s: Store, t: Store, mutated: set<string>) {
    && (forall n | n in s.nodes && n !in t.nodes :: n.kind in mutated)
    && (forall e | e in s.edges && e !in t.edges :: EndpointIn(s, e.key, mutated))
  }
}
