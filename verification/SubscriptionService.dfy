/** The subscription manager object. */
module SubscriptionService {
  import opened Basics
  import opened Ontology
  import opened Queries
  import opened Subscriptions

  class SubscriptionManager {
    var activeSubscriptions: map<Target, map<string, Subscription>>
    var lastResults: map<(Target, string), seq<Found>>

    constructor ()
      ensures Contents() == Manager(map[], map[])
    {
      activeSubscriptions, lastResults := map[], map[];
    }

    ghost function Contents(): Manager
      reads this
    {
      Manager(activeSubscriptions, lastResults)
    }

    method Subscribe(s: Store, target: Target, id: string, raw: RawQuery, app: Option<string>)
      returns (r: Result<seq<Found>>)
      modifies this
      ensures var spec := Register(old(Contents()), s, target, id, raw, app);
              if spec.Ok? then r == Ok(spec.value.results) && Contents() == spec.value.manager
              else r == Err(spec.error) && Contents() == old(Contents())
    {
      if id == "" || |id| > MAX_ID_LENGTH { return Err(BadValue); }
      var query := ReadQuery(raw);
      if query.Err? { return Err(query.error); }
      ReadQueryLimit(raw);
      var results := ExecuteGraphQuery(s, query.value);
      var entered := Enter(target, id, Subscription(query.value, app), results);
      if !entered { return Err(LimitReached); }
      return Ok(results);
    }

    /** Take one of the connection's slots, unless all are taken. */
    method Enter(target: Target, id: string, subscription: Subscription, results: seq<Found>) returns (entered: bool)
      modifies this
      ensures var subs := SubscriptionsOf(old(Contents()), target);
              && (entered <==> id in subs || |subs| < MAX_PER_TARGET)
              && Contents() ==
                 if entered
                 then Manager(old(activeSubscriptions)[target := subs[id := subscription]],
                              old(lastResults)[(target, id) := results])
                 else old(Contents())
    {
      if target !in activeSubscriptions { activeSubscriptions := activeSubscriptions[target := map[]]; }
      var subscriptions := activeSubscriptions[target];
      if id !in subscriptions && |subscriptions| >= MAX_PER_TARGET { return false; }
      activeSubscriptions := activeSubscriptions[target := subscriptions[id := subscription]];
      lastResults := lastResults[(target, id) := results];
      return true;
    }

    method UnregisterOne(target: Target, id: string)
      modifies this
      ensures Contents() == Unregister(old(Contents()), target, id)
    {
      if target in activeSubscriptions {
        activeSubscriptions := activeSubscriptions[target := activeSubscriptions[target] - {id}];
      }
      lastResults := lastResults - {(target, id)};
    }

    /** The connection is gone: its entry is popped, then its results one by one. */
    method UnregisterTarget(target: Target)
      modifies this
      ensures Contents() == UnregisterAll(old(Contents()), target)
    {
      var ids: set<string> := if target in activeSubscriptions then activeSubscriptions[target].Keys else {};
      ghost var all, before := ids, lastResults;
      activeSubscriptions := activeSubscriptions - {target};
      while ids != {}
        invariant ids <= all && activeSubscriptions == old(activeSubscriptions) - {target}
        invariant lastResults == map k | k in before && !(k.0 == target && k.1 in all - ids) :: before[k]
        decreases ids
      {
        var id :| id in ids;
        ids := ids - {id};
        lastResults := lastResults - {(target, id)};
      }
    }

    /** `broadcast_updates` over its snapshot of the subscriptions, in the order of the dictionaries. */
    method BroadcastUpdates(s: Store, mutated: set<string>, allowed: Authorizer, items: seq<Item>)
      returns (messages: seq<Message>)
      requires forall item | item in items :: item.subscription.query.limit >= 1
      modifies this
      ensures Contents() == Pass(old(Contents()), s, mutated, allowed, items)
      ensures messages == PassMessages(old(Contents()), s, mutated, allowed, items)
    {
      messages := [];
      ghost var end := Pass(Contents(), s, mutated, allowed, items);
      ghost var all := PassMessages(Contents(), s, mutated, allowed, items);
      assert items[0..] == items;
      var i := 0;
      while i < |items|
        invariant 0 <= i <= |items|
        invariant Pass(Contents(), s, mutated, allowed, items[i..]) == end
        invariant messages + PassMessages(Contents(), s, mutated, allowed, items[i..]) == all
      {
        ghost var here := Contents();
        assert items[i..][1..] == items[i + 1..];
        var sent := VisitItem(s, mutated, allowed, items[i]);
        ghost var later := PassMessages(Contents(), s, mutated, allowed, items[i + 1..]);
        assert messages + (sent + later) == (messages + sent) + later;
        messages := messages + sent;
        i := i + 1;
      }
    }

    method VisitItem(s: Store, mutated: set<string>, allowed: Authorizer, item: Item) returns (sent: seq<Message>)
      requires item.subscription.query.limit >= 1
      modifies this
      ensures Contents() == Visit(old(Contents()), s, mutated, allowed, item)
      ensures sent == Messages(old(Contents()), s, mutated, allowed, item)
    {
      var app, query := item.subscription.app, item.subscription.query;
      if app.Some? && app.value != "" && !allowed(item) {
        UnregisterOne(item.target, item.id);
        return [Refused(item.target, item.id)];
      }
      if mutated != {} && Skippable(query, mutated) { return []; }
      var results := ExecuteGraphQuery(s, query);
      var key := (item.target, item.id);
      if key in lastResults && lastResults[key] == results { return []; }
      lastResults := lastResults[key := results];
      return [Update(item.target, item.id, results)];
    }
  }
}
