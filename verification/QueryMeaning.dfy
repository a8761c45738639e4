/** What a graph query returns, in terms of the tables alone: which rows, in which order, with which relations. */
module QueryMeaning {
  import opened Basics
  import opened Ontology
  import opened Queries

  // ---- Reading a query -------------------------------------------------------------------------------

  ghost predicate ReadsInclude(v: Value, inc: Include) {
    && v.Obj?
    && inc.relation != "" && "relation" in v.fields && v.fields["relation"] == Str(inc.relation)
    && (inc.target.None? ==> "target_type" !in v.fields || v.fields["target_type"] == Null)
    && (inc.target.Some? ==> && inc.target.value != "" && "target_type" in v.fields
                             && v.fields["target_type"] == Str(inc.target.value))
  }

  /** The query an object stands for: absent members take their defaults, and each limit holds. */
  ghost predicate Reads(raw: RawQuery, q: Query) {
    && (q.kind.None? ==> raw.kind.None? || raw.kind == Some(Null))
    && (q.kind.Some? ==> q.kind.value != "" && raw.kind == Some(Str(q.kind.value)))
    && (if raw.filter.None? then q.filter == map[] else raw.filter == Some(Obj(q.filter))) && |q.filter| <= 64
    && (raw.includes.None? ==> q.includes == [])
    && (raw.includes.Some? ==>
          && raw.includes.value.Arr? && |raw.includes.value.items| == |q.includes| <= 16
          && forall i | 0 <= i < |q.includes| :: ReadsInclude(raw.includes.value.items[i], q.includes[i]))
    && (if raw.limit.None? then q.limit == 500 else raw.limit == Some(Int(q.limit))) && 1 <= q.limit <= 500
  }

  lemma IncludeMeans(v: Value, inc: Include)
    ensures IncludeOk(v) && ReadInclude(v) == inc <==> ReadsInclude(v, inc)
  {
  }

  lemma {:induction false} IncludesMean(items: seq<Value>, incs: seq<Include>)
    ensures ReadIncludes(items) == Ok(incs) <==>
            |items| == |incs| && forall i | 0 <= i < |incs| :: ReadsInclude(items[i], incs[i])
  {
    if items != [] && incs != [] {
      IncludeMeans(items[0], incs[0]);
      IncludesMean(items[1..], incs[1..]);
      assert incs == [incs[0]] + incs[1..];
      if |items| == |incs| && ReadsInclude(items[0], incs[0])
         && forall i | 0 <= i < |incs[1..]| :: ReadsInclude(items[1..][i], incs[1..][i]) {
        forall i | 0 <= i < |incs| ensures ReadsInclude(items[i], incs[i]) {
          if i > 0 { assert items[i] == items[1..][i - 1] && incs[i] == incs[1..][i - 1]; }
        }
      }
    }
  }

  /** A query object is accepted exactly when it stands for a query, and that query is run. */
  lemma ReadQueryMeans(raw: RawQuery, q: Query)
    ensures ReadQuery(raw) == Ok(q) <==> Reads(raw, q)
  {
    var includes := if raw.includes.Some? then raw.includes.value else Arr([]);
    if includes.Arr? { IncludesMean(includes.items, q.includes); }
  }

  // ---- Relations -------------------------------------------------------------------------------------

  ghost predicate UniqueIds(s: Store) {
    forall m, n | m in s.nodes && n in s.nodes && m.id == n.id :: m == n
  }

  ghost predicate SameRecord(n: NodeRow, r: Record) {
    r.id == n.id && r.kind == n.kind && r.properties == n.properties
  }

  /** The edge joins the record to `other`, in either direction. */
  ghost predicate Joins(e: EdgeRow, id: string, other: NodeRow) {
    (e.key.source == id && e.key.target == other.id) || (e.key.target == id && e.key.source == other.id)
  }

  /** The include asks for this edge, and `r` is what it shows: the edge's type and properties and the record
      at the other end. */
  ghost predicate Asks(s: Store, id: string, inc: Include, e: EdgeRow, r: Relation) {
    && e.key.kind == inc.relation == r.edgeKind && r.properties == e.properties
    && exists m :: m in s.nodes && Joins(e, id, m) && SameRecord(m, r.target) &&
                   (inc.target.Some? ==> m.kind == inc.target.value)
  }

  lemma AsksIsContributes(s: Store, id: string, inc: Include, e: EdgeRow, r: Relation)
    requires UniqueIds(s)
    ensures Asks(s, id, inc, e, r) <==> Contributes(s, id, inc, e) && r == RelationOf(s, id, e)
  {
    if Asks(s, id, inc, e, r) {
      var m :| m in s.nodes && Joins(e, id, m) && SameRecord(m, r.target) &&
               (inc.target.Some? ==> m.kind == inc.target.value);
      assert m.id == OtherEnd(e.key, id);
      assert FindNode(s.nodes, m.id) == Some(m);
    }
    if Contributes(s, id, inc, e) && r == RelationOf(s, id, e) {
      var m := FindNode(s.nodes, OtherEnd(e.key, id)).value;
      assert m in s.nodes && Joins(e, id, m) && SameRecord(m, r.target);
    }
  }

  /** A place in the scan for relations: the include first, then the edge. */
  datatype Place = Place(inc: nat, edge: nat)

  ghost predicate Before(a: Place, b: Place) {
    a.inc < b.inc || (a.inc == b.inc && a.edge < b.edge)
  }

  ghost predicate PlacesAscend(at: seq<Place>) {
    forall i, j | 0 <= i < j < |at| :: Before(at[i], at[j])
  }

  ghost predicate AsksAt(s: Store, id: string, includes: seq<Include>, a: Place, r: Relation) {
    a.inc < |includes| && a.edge < |s.edges| && Asks(s, id, includes[a.inc], s.edges[a.edge], r)
  }

  /** The relations of a record are those the includes ask for, include by include and edge by edge; past the
      limit, the first of them. */
  ghost predicate ShowsRelationsAt(s: Store, id: string, includes: seq<Include>, at: seq<Place>, rs: seq<Relation>,
                                   limit: nat)
  {
    && |at| == |rs| <= limit && PlacesAscend(at)
    && (forall i | 0 <= i < |at| :: AsksAt(s, id, includes, at[i], rs[i]))
    && (forall a, r | AsksAt(s, id, includes, a, r) ::
          a in at || (|rs| == limit && forall i | 0 <= i < |at| :: Before(at[i], a)))
  }

  ghost predicate ShowsRelations(s: Store, id: string, includes: seq<Include>, rs: seq<Relation>) {
    exists at :: ShowsRelationsAt(s, id, includes, at, rs, 200)
  }

  /** `ys` shows the kept elements of `xs`, at ascending places, and no kept element is left out. */
  ghost predicate Picks<T(!new), R(!new)>(xs: seq<T>, keep: T -> bool, shows: (T, R) -> bool, ys: seq<R>, at: seq<nat>) {
    && |at| == |ys|
    && (forall i, j | 0 <= i < j < |at| :: at[i] < at[j])
    && (forall i | 0 <= i < |at| :: at[i] < |xs| && keep(xs[at[i]]) && shows(xs[at[i]], ys[i]))
    && (forall a | 0 <= a < |xs| && keep(xs[a]) :: a in at)
  }

  function Moved(at: seq<nat>): (r: seq<nat>)
    ensures |r| == |at| && forall i | 0 <= i < |at| :: r[i] == at[i] + 1
  {
    seq(|at|, i requires 0 <= i < |at| => at[i] + 1)
  }

  lemma MovedHas(at: seq<nat>, a: nat)
    requires a > 0 && a - 1 in at
    ensures a in Moved(at)
  {
    var i :| 0 <= i < |at| && at[i] == a - 1;
    assert Moved(at)[i] == a;
  }

  lemma PickAfter<T(!new), R(!new)>(x: T, xs: seq<T>, keep: T -> bool, shows: (T, R) -> bool, ys: seq<R>, at: seq<nat>)
    requires Picks(xs, keep, shows, ys, at) && !keep(x)
    ensures Picks([x] + xs, keep, shows, ys, Moved(at))
  {
    var all, moved := [x] + xs, Moved(at);
    forall i | 0 <= i < |at| ensures moved[i] < |all| && keep(all[moved[i]]) && shows(all[moved[i]], ys[i]) {
      assert all[moved[i]] == xs[at[i]];
    }
    forall a | 0 <= a < |all| && keep(all[a]) ensures a in moved {
      assert a > 0 && all[a] == xs[a - 1];
      MovedHas(at, a);
    }
  }

  lemma PickFirst<T(!new), R(!new)>(x: T, xs: seq<T>, keep: T -> bool, shows: (T, R) -> bool, y: R, ys: seq<R>, at: seq<nat>)
    requires Picks(xs, keep, shows, ys, at) && keep(x) && shows(x, y)
    ensures Picks([x] + xs, keep, shows, [y] + ys, [0] + Moved(at))
  {
    var all, moved := [x] + xs, Moved(at);
    var more, shown := [0] + moved, [y] + ys;
    forall i | 0 <= i < |more| ensures more[i] < |all| && keep(all[more[i]]) && shows(all[more[i]], shown[i]) {
      if i > 0 { assert all[more[i]] == xs[at[i - 1]] && shown[i] == ys[i - 1]; }
    }
    forall a | 0 <= a < |all| && keep(all[a]) ensures a in more {
      if a > 0 {
        assert all[a] == xs[a - 1];
        MovedHas(at, a);
      }
    }
  }

  lemma PickOneMore<T(!new), R(!new)>(xs: seq<T>, keep: T -> bool, shows: (T, R) -> bool, y: R, ys: seq<R>, at: seq<nat>)
    returns (more: seq<nat>)
    requires xs != [] && Picks(xs[1..], keep, shows, ys, at) && (keep(xs[0]) ==> shows(xs[0], y))
    ensures Picks(xs, keep, shows, if keep(xs[0]) then [y] + ys else ys, more)
  {
    assert [xs[0]] + xs[1..] == xs;
    if keep(xs[0]) {
      PickFirst(xs[0], xs[1..], keep, shows, y, ys, at);
      more := [0] + Moved(at);
    } else {
      PickAfter(xs[0], xs[1..], keep, shows, ys, at);
      more := Moved(at);
    }
  }

  ghost predicate ShowsEdge(s: Store, id: string, inc: Include, e: EdgeRow, r: Relation) {
    Contributes(s, id, inc, e) && r == RelationOf(s, id, e)
  }

  lemma IncludedStep(s: Store, id: string, inc: Include, edges: seq<EdgeRow>)
    requires edges != []
    ensures var later := Included(s, id, inc, edges[1..]);
            Included(s, id, inc, edges) ==
            if Contributes(s, id, inc, edges[0]) then [RelationOf(s, id, edges[0])] + later else later
  {
    var rest := Contributions(s, id, inc, edges[1..]);
    assert ([edges[0]] + rest)[1..] == rest;
  }

  lemma EdgeStep(s: Store, id: string, inc: Include, edges: seq<EdgeRow>, keep: EdgeRow -> bool,
                 shows: (EdgeRow, Relation) -> bool, ys: seq<Relation>, later: seq<nat>)
    returns (at: seq<nat>)
    requires edges != [] && keep(edges[0]) == Contributes(s, id, inc, edges[0])
    requires forall r :: shows(edges[0], r) <==> ShowsEdge(s, id, inc, edges[0], r)
    requires ys == Included(s, id, inc, edges[1..]) && Picks(edges[1..], keep, shows, ys, later)
    ensures Picks(edges, keep, shows, Included(s, id, inc, edges), at)
  {
    IncludedStep(s, id, inc, edges);
    if Contributes(s, id, inc, edges[0]) {
      var r := RelationOf(s, id, edges[0]);
      assert shows(edges[0], r);
      at := PickOneMore(edges, keep, shows, r, ys, later);
    } else {
      PickAfter(edges[0], edges[1..], keep, shows, ys, later);
      assert [edges[0]] + edges[1..] == edges;
      at := Moved(later);
    }
  }

  lemma {:induction false} EdgePlaces(s: Store, id: string, inc: Include, edges: seq<EdgeRow>,
                                      keep: EdgeRow -> bool, shows: (EdgeRow, Relation) -> bool)
    returns (at: seq<nat>)
    requires forall e :: keep(e) <==> Contributes(s, id, inc, e)
    requires forall e, r :: shows(e, r) <==> ShowsEdge(s, id, inc, e, r)
    ensures Picks(edges, keep, shows, Included(s, id, inc, edges), at)
  {
    if edges == [] {
      at := [];
      assert Included(s, id, inc, edges) == [];
    } else {
      var later := EdgePlaces(s, id, inc, edges[1..], keep, shows);
      at := EdgeStep(s, id, inc, edges, keep, shows, Included(s, id, inc, edges[1..]), later);
    }
  }

  /** Places within the first include. */
  function InFirst(places: seq<nat>): (r: seq<Place>)
    ensures |r| == |places| && forall i | 0 <= i < |places| :: r[i] == Place(0, places[i])
  {
    seq(|places|, i requires 0 <= i < |places| => Place(0, places[i]))
  }

  lemma FirstShows(s: Store, id: string, includes: seq<Include>, keep: EdgeRow -> bool,
                   shows: (EdgeRow, Relation) -> bool, rs: seq<Relation>, places: seq<nat>)
    requires UniqueIds(s) && includes != [] && Picks(s.edges, keep, shows, rs, places)
    requires forall e, r :: shows(e, r) <==> ShowsEdge(s, id, includes[0], e, r)
    ensures forall i | 0 <= i < |rs| :: AsksAt(s, id, includes, Place(0, places[i]), rs[i])
  {
    forall i | 0 <= i < |rs| ensures AsksAt(s, id, includes, Place(0, places[i]), rs[i]) {
      assert shows(s.edges[places[i]], rs[i]);
      AsksIsContributes(s, id, includes[0], s.edges[places[i]], rs[i]);
    }
  }

  lemma FirstHas(s: Store, id: string, includes: seq<Include>, keep: EdgeRow -> bool,
                 shows: (EdgeRow, Relation) -> bool, rs: seq<Relation>, places: seq<nat>, a: Place, r: Relation)
    requires UniqueIds(s) && Picks(s.edges, keep, shows, rs, places)
    requires AsksAt(s, id, includes, a, r) && a.inc == 0
    requires forall e :: keep(e) <==> Contributes(s, id, includes[0], e)
    ensures a in InFirst(places)
  {
    AsksIsContributes(s, id, includes[0], s.edges[a.edge], r);
    assert keep(s.edges[a.edge]);
    var i :| 0 <= i < |places| && places[i] == a.edge;
    assert InFirst(places)[i] == a;
  }

  /** The places of the relations of one include, the first of the list. */
  lemma IncludePlaces(s: Store, id: string, includes: seq<Include>) returns (at: seq<Place>)
    requires UniqueIds(s) && includes != []
    ensures IsFirst(s, id, includes, at, Included(s, id, includes[0], s.edges))
  {
    var keep := (e: EdgeRow) => Contributes(s, id, includes[0], e);
    var shows := (e: EdgeRow, r: Relation) => ShowsEdge(s, id, includes[0], e, r);
    var places := EdgePlaces(s, id, includes[0], s.edges, keep, shows);
    var rs := Included(s, id, includes[0], s.edges);
    at := InFirst(places);
    FirstShows(s, id, includes, keep, shows, rs, places);
    forall a, r | AsksAt(s, id, includes, a, r) && a.inc == 0 ensures a in at {
      FirstHas(s, id, includes, keep, shows, rs, places, a, r);
    }
  }

  /** Places past the first include. */
  function Shifted(at: seq<Place>): (r: seq<Place>)
    ensures |r| == |at| && forall i | 0 <= i < |at| :: r[i] == Place(at[i].inc + 1, at[i].edge)
  {
    seq(|at|, i requires 0 <= i < |at| => Place(at[i].inc + 1, at[i].edge))
  }

  lemma ShiftedAsks(s: Store, id: string, includes: seq<Include>, a: Place, r: Relation)
    requires includes != []
    ensures AsksAt(s, id, includes[1..], a, r) <==> AsksAt(s, id, includes, Place(a.inc + 1, a.edge), r)
  {
    if a.inc < |includes[1..]| { assert includes[1..][a.inc] == includes[a.inc + 1]; }
  }

  lemma {:induction false} AllPlaces(s: Store, id: string, includes: seq<Include>) returns (at: seq<Place>)
    requires UniqueIds(s)
    ensures IsAll(s, id, includes, at, AllRelations(s, id, includes))
  {
    if includes == [] {
      at := [];
    } else {
      var first := IncludePlaces(s, id, includes);
      var rest := AllPlaces(s, id, includes[1..]);
      at := first + Shifted(rest);
      PlacesJoin(s, id, includes, first, Included(s, id, includes[0], s.edges), rest, AllRelations(s, id, includes[1..]));
    }
  }

  ghost predicate IsFirst(s: Store, id: string, includes: seq<Include>, first: seq<Place>, rs: seq<Relation>) {
    && |first| == |rs| && PlacesAscend(first)
    && (forall i | 0 <= i < |first| :: first[i].inc == 0 && AsksAt(s, id, includes, first[i], rs[i]))
    && (forall a, r | AsksAt(s, id, includes, a, r) && a.inc == 0 :: a in first)
  }

  /** Every relation, with no limit, and its place. */
  ghost predicate IsAll(s: Store, id: string, includes: seq<Include>, at: seq<Place>, rs: seq<Relation>) {
    && |at| == |rs| && PlacesAscend(at)
    && (forall i | 0 <= i < |at| :: AsksAt(s, id, includes, at[i], rs[i]))
    && (forall a, r | AsksAt(s, id, includes, a, r) :: a in at)
  }

  lemma JoinHas(s: Store, id: string, includes: seq<Include>, rest: seq<Place>, more: seq<Relation>, a: Place, r: Relation)
    requires includes != [] && IsAll(s, id, includes[1..], rest, more)
    requires AsksAt(s, id, includes, a, r) && a.inc > 0
    ensures a in Shifted(rest)
  {
    var b := Place(a.inc - 1, a.edge);
    ShiftedAsks(s, id, includes, b, r);
    var i :| 0 <= i < |rest| && rest[i] == b;
    assert Shifted(rest)[i] == a;
  }

  lemma PlacesJoin(s: Store, id: string, includes: seq<Include>,
                   first: seq<Place>, rs: seq<Relation>, rest: seq<Place>, more: seq<Relation>)
    requires includes != [] && IsFirst(s, id, includes, first, rs) && IsAll(s, id, includes[1..], rest, more)
    ensures IsAll(s, id, includes, first + Shifted(rest), rs + more)
  {
    var later := Shifted(rest);
    var at, n := first + later, |first|;
    forall i | 0 <= i < |rest| ensures AsksAt(s, id, includes, later[i], more[i]) {
      ShiftedAsks(s, id, includes, rest[i], more[i]);
    }
    forall i | 0 <= i < |at| ensures AsksAt(s, id, includes, at[i], (rs + more)[i]) {
      if i >= n { assert at[i] == later[i - n] && (rs + more)[i] == more[i - n]; }
    }
    JoinAscends(first, rest);
    forall a, r | AsksAt(s, id, includes, a, r) ensures a in at {
      if a.inc > 0 { JoinHas(s, id, includes, rest, more, a, r); }
    }
  }

  lemma JoinAscends(first: seq<Place>, rest: seq<Place>)
    requires PlacesAscend(first) && PlacesAscend(rest) && forall i | 0 <= i < |first| :: first[i].inc == 0
    ensures PlacesAscend(first + Shifted(rest))
  {
    var later, n := Shifted(rest), |first|;
    var at := first + later;
    forall i, j | 0 <= i < j < |at| ensures Before(at[i], at[j]) {
      if i >= n { assert Before(rest[i - n], rest[j - n]); }
    }
  }

  lemma TakePlaces(s: Store, id: string, includes: seq<Include>, at: seq<Place>, rs: seq<Relation>, limit: nat)
    requires IsAll(s, id, includes, at, rs)
    ensures ShowsRelationsAt(s, id, includes, Take(at, limit), Take(rs, limit), limit)
  {
    var cut := Take(at, limit);
    forall a, r | AsksAt(s, id, includes, a, r)
      ensures a in cut || (|cut| == limit && forall i | 0 <= i < |cut| :: Before(cut[i], a))
    {
      var i :| 0 <= i < |at| && at[i] == a;
      if i < |cut| { assert cut[i] == a; }
    }
  }

  lemma RelationsShown(s: Store, id: string, includes: seq<Include>)
    requires UniqueIds(s)
    ensures ShowsRelations(s, id, includes, Take(AllRelations(s, id, includes), MAX_RELATIONS))
  {
    var at := AllPlaces(s, id, includes);
    TakePlaces(s, id, includes, at, AllRelations(s, id, includes), MAX_RELATIONS);
  }

  // ---- Results ---------------------------------------------------------------------------------------

  /** The record has exactly this value under the key, or it has no such key and the value is null. */
  ghost predicate HasValue(properties: Props, k: string, v: Value) {
    (k in properties && properties[k] == v) || (k !in properties && v == Null)
  }

  ghost predicate Matches(q: Query, n: NodeRow) {
    && (q.kind.Some? ==> n.kind == q.kind.value)
    && forall k | k in q.filter :: HasValue(n.properties, k, q.filter[k])
  }

  ghost predicate ShowsRow(s: Store, q: Query, n: NodeRow, f: Found) {
    SameRecord(n, f.record) && ShowsRelations(s, n.id, q.includes, f.relations)
  }

  /** The results are the matching rows in the order of the table, each with its relations; past the limit,
      the first of them. */
  ghost predicate ShowsRowsAt(s: Store, q: Query, at: seq<nat>, fs: seq<Found>) {
    && |at| == |fs| <= q.limit
    && (forall i, j | 0 <= i < j < |at| :: at[i] < at[j])
    && (forall i | 0 <= i < |at| ::
          at[i] < |s.nodes| && Matches(q, s.nodes[at[i]]) && ShowsRow(s, q, s.nodes[at[i]], fs[i]))
    && (forall a | 0 <= a < |s.nodes| && Matches(q, s.nodes[a]) ::
          a in at || (|fs| == q.limit && forall i | 0 <= i < |at| :: at[i] < a))
  }

  lemma {:induction false} RowPlaces(s: Store, q: Query, nodes: seq<NodeRow>,
                                     keep: NodeRow -> bool, shows: (NodeRow, Found) -> bool)
    returns (at: seq<nat>)
    requires forall n :: keep(n) <==> Matches(q, n)
    requires forall n, f :: shows(n, f) <==> f == ResultOf(s, q, n)
    ensures Picks(nodes, keep, shows, AllResults(s, q, NodesOfKind(nodes, q.kind)), at)
  {
    if nodes == [] {
      at := [];
    } else {
      var later := RowPlaces(s, q, nodes[1..], keep, shows);
      RowStep(s, q, nodes);
      at := PickOneMore(nodes, keep, shows, ResultOf(s, q, nodes[0]),
                        AllResults(s, q, NodesOfKind(nodes[1..], q.kind)), later);
    }
  }

  lemma RowStep(s: Store, q: Query, nodes: seq<NodeRow>)
    requires nodes != []
    ensures var later := AllResults(s, q, NodesOfKind(nodes[1..], q.kind));
            AllResults(s, q, NodesOfKind(nodes, q.kind)) ==
            if Matches(q, nodes[0]) then [ResultOf(s, q, nodes[0])] + later else later
  {
    var n, rest := nodes[0], NodesOfKind(nodes[1..], q.kind);
    assert Passes(n.properties, q.filter) <==> forall k | k in q.filter :: HasValue(n.properties, k, q.filter[k]);
    assert ([n] + rest)[1..] == rest;
  }

  lemma RowsShown(s: Store, q: Query, keep: NodeRow -> bool, shows: (NodeRow, Found) -> bool,
                  all: seq<Found>, places: seq<nat>)
    requires UniqueIds(s) && Picks(s.nodes, keep, shows, all, places)
    requires forall n :: keep(n) <==> Matches(q, n)
    requires forall n, f :: shows(n, f) <==> f == ResultOf(s, q, n)
    ensures ShowsRowsAt(s, q, Take(places, q.limit), Take(all, q.limit))
  {
    var at, fs := Take(places, q.limit), Take(all, q.limit);
    forall i | 0 <= i < |at| ensures Matches(q, s.nodes[at[i]]) && ShowsRow(s, q, s.nodes[at[i]], fs[i]) {
      assert keep(s.nodes[places[i]]) && shows(s.nodes[places[i]], all[i]);
      RelationsShown(s, s.nodes[at[i]].id, q.includes);
    }
    forall a | 0 <= a < |s.nodes| && Matches(q, s.nodes[a])
      ensures a in at || (|fs| == q.limit && forall i | 0 <= i < |at| :: at[i] < a)
    {
      assert keep(s.nodes[a]);
      var i :| 0 <= i < |places| && places[i] == a;
      if i < |at| { assert at[i] == a; }
    }
  }

  /** What a query returns. */
  lemma ResultsMean(s: Store, q: Query)
    requires UniqueIds(s)
    ensures exists at :: ShowsRowsAt(s, q, at, Execute(s, q))
  {
    var keep := (n: NodeRow) => Matches(q, n);
    var shows := (n: NodeRow, f: Found) => f == ResultOf(s, q, n);
    var places := RowPlaces(s, q, s.nodes, keep, shows);
    RowsShown(s, q, keep, shows, AllResults(s, q, NodesOfKind(s.nodes, q.kind)), places);
    assert ShowsRowsAt(s, q, Take(places, q.limit), Execute(s, q));
  }

  lemma ShownRowsMatch(s: Store, q: Query, at: seq<nat>, fs: seq<Found>, f: Found, k: string)
    requires ShowsRowsAt(s, q, at, fs) && f in fs && k in q.filter
    ensures HasValue(f.record.properties, k, q.filter[k])
  {
    var i :| 0 <= i < |fs| && fs[i] == f;
    assert Matches(q, s.nodes[at[i]]) && ShowsRow(s, q, s.nodes[at[i]], fs[i]);
  }

  lemma MatchingRowsShown(s: Store, q: Query, at: seq<nat>, fs: seq<Found>, n: NodeRow)
    requires ShowsRowsAt(s, q, at, fs) && n in s.nodes && Matches(q, n)
    ensures |fs| == q.limit || exists f :: f in fs && SameRecord(n, f.record)
  {
    var a :| 0 <= a < |s.nodes| && s.nodes[a] == n;
    if a in at {
      var i :| 0 <= i < |at| && at[i] == a;
      assert ShowsRow(s, q, s.nodes[at[i]], fs[i]) && fs[i] in fs;
    }
  }

  /** The filter: every result has each value asked for, and a row of the type that has them all is shown,
      unless the limit is reached. */
  lemma FilterMeans(s: Store, q: Query, n: NodeRow)
    requires UniqueIds(s)
    ensures forall f, k | f in Execute(s, q) && k in q.filter :: HasValue(f.record.properties, k, q.filter[k])
    ensures n in s.nodes && Matches(q, n) ==>
              |Execute(s, q)| == q.limit || exists f :: f in Execute(s, q) && SameRecord(n, f.record)
  {
    ResultsMean(s, q);
    var fs := Execute(s, q);
    var at :| ShowsRowsAt(s, q, at, fs);
    forall f, k | f in fs && k in q.filter ensures HasValue(f.record.properties, k, q.filter[k]) {
      ShownRowsMatch(s, q, at, fs, f, k);
    }
    if n in s.nodes && Matches(q, n) { MatchingRowsShown(s, q, at, fs, n); }
  }
}
