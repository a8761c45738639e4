/** What registering, leaving and one turn of a broadcast do to the manager's tables, in plain terms. */
module SubscriptionMeaning {
  import opened Basics
  import opened Ontology
  import opened Queries
  import opened QueryMeaning
  import opened Subscriptions

  /** A subscription is there under this connection and id. */
  ghost predicate Subscribed(m: Manager, t: Target, id: string, sub: Subscription) {
    t in m.active && id in m.active[t] && m.active[t][id] == sub
  }

  /** Apart from one connection's id, the tables are the same. */
  ghost predicate SameElsewhere(m: Manager, n: Manager, t: Target, id: string) {
    && (forall u, i, sub | (u, i) != (t, id) :: Subscribed(n, u, i, sub) <==> Subscribed(m, u, i, sub))
    && (forall u, i | (u, i) != (t, id) :: (u, i) in n.last <==> (u, i) in m.last)
    && (forall u, i | (u, i) != (t, id) && (u, i) in m.last :: n.last[(u, i)] == m.last[(u, i)])
  }

  /** A registration is accepted exactly for an id of 1 to 200 characters, a readable query, and an id already there
      or fewer than 32 of the connection. */
  lemma RegisterAccepts(m: Manager, s: Store, t: Target, id: string, raw: RawQuery, app: Option<string>)
    ensures Register(m, s, t, id, raw, app).Ok? <==>
            && 1 <= |id| <= 200 && (exists q :: Reads(raw, q))
            && (t in m.active && id !in m.active[t] ==> |m.active[t]| < 32)
  {
    if ReadQuery(raw).Ok? { ReadQueryMeans(raw, ReadQuery(raw).value); }
    forall q | Reads(raw, q) ensures ReadQuery(raw) == Ok(q) { ReadQueryMeans(raw, q); }
  }

  /** It answers with the results of the query, enters both, and changes no other entry. */
  lemma RegisterMeans(m: Manager, s: Store, t: Target, id: string, raw: RawQuery, q: Query, app: Option<string>)
    requires Register(m, s, t, id, raw, app).Ok? && Reads(raw, q) && UniqueIds(s)
    ensures var r := Register(m, s, t, id, raw, app).value;
            && (exists at :: ShowsRowsAt(s, q, at, r.results))
            && Subscribed(r.manager, t, id, Subscription(q, app))
            && (t, id) in r.manager.last && r.manager.last[(t, id)] == r.results
            && SameElsewhere(m, r.manager, t, id)
  {
    ReadQueryMeans(raw, q);
    ResultsMean(s, q);
  }

  /** Leaving takes away the subscription and its result, and nothing else. */
  lemma UnregisterMeans(m: Manager, t: Target, id: string)
    ensures var n := Unregister(m, t, id);
            && (forall sub :: !Subscribed(n, t, id, sub)) && (t, id) !in n.last && SameElsewhere(m, n, t, id)
  {
  }

  /** A disconnect takes away the connection's subscriptions and their results, and nothing else. */
  lemma UnregisterAllMeans(m: Manager, t: Target)
    ensures var n := UnregisterAll(m, t);
            && (forall u, i, sub :: Subscribed(n, u, i, sub) <==> u != t && Subscribed(m, u, i, sub))
            && (forall u, i :: (u, i) in n.last <==> (u, i) in m.last && !(u == t && IsActive(m, t, i)))
            && (forall u, i | (u, i) in n.last :: n.last[(u, i)] == m.last[(u, i)])
  {
  }

  /** The query asks for one type, each include asks for one, and none of them was changed. */
  ghost predicate Untouched(q: Query, mutated: set<string>) {
    && q.kind != None && q.kind.value !in mutated
    && forall inc | inc in q.includes :: inc.target != None && inc.target.value !in mutated
  }

  /** One turn of a broadcast, without change of other entries: an App's subscription that is no longer allowed is taken
      away and told so; a query over untouched types is left alone, if types were named; any other is evaluated, and sent if
      the result is a new one. */
  lemma VisitMeans(m: Manager, s: Store, mutated: set<string>, allowed: Authorizer, item: Item)
    requires UniqueIds(s)
    ensures var n, sent := Visit(m, s, mutated, allowed, item), Messages(m, s, mutated, allowed, item);
            var key := (item.target, item.id);
            && SameElsewhere(m, n, item.target, item.id)
            && if item.subscription.app !in {None, Some("")} && !allowed(item) then
                 (forall sub :: !Subscribed(n, item.target, item.id, sub)) && key !in n.last
                 && sent == [Refused(item.target, item.id)]
               else if mutated != {} && Untouched(item.subscription.query, mutated) then
                 n == m && sent == []
               else
                 && n.active == m.active && key in n.last
                 && (exists at :: ShowsRowsAt(s, item.subscription.query, at, n.last[key]))
                 && sent == if key in m.last && m.last[key] == n.last[key] then []
                            else [Update(item.target, item.id, n.last[key])]
  {
    var q, app := item.subscription.query, item.subscription.app;
    ResultsMean(s, q);
    if item.subscription.app !in {None, Some("")} && !allowed(item) { UnregisterMeans(m, item.target, item.id); }
    assert app !in {None, Some("")} <==> app.Some? && app.value != "";
    assert Untouched(q, mutated) <==> Skippable(q, mutated) by {
      if Skippable(q, mutated) {
        forall inc | inc in q.includes ensures inc.target != None && inc.target.value !in mutated {
          var i :| 0 <= i < |q.includes| && q.includes[i] == inc;
        }
      }
    }
  }
}
