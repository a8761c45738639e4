/** Live graph queries: who subscribes to what, and the last result each subscriber was sent. */
module Subscriptions {
  import opened Basics
  import opened Ontology
  import opened Queries

  const MAX_PER_TARGET: nat := 32
  const MAX_ID_LENGTH: nat := 200

  /** A connection; only its identity matters. */
  type Target = int

  datatype Subscription = Subscription(query: Query, app: Option<string>)

  datatype Manager = Manager(
    active: map<Target, map<string, Subscription>>,
    last: map<(Target, string), seq<Found>>)

  datatype Message = Update(target: Target, id: string, results: seq<Found>) | Refused(target: Target, id: string)

  datatype Registered = Registered(manager: Manager, results: seq<Found>)

  /** An entry of the snapshot that a pass walks through. */
  datatype Item = Item(target: Target, id: string, subscription: Subscription)

  function SubscriptionsOf(m: Manager, target: Target): map<string, Subscription> {
    if target in m.active then m.active[target] else map[]
  }

  predicate IsActive(m: Manager, target: Target, id: string) {
    target in m.active && id in m.active[target]
  }

  /** `register`: the query is validated and run before anything changes. */
  function Register(m: Manager, s: Store, target: Target, id: string, raw: RawQuery, app: Option<string>)
    : Result<Registered>
  {
    if id == "" || |id| > MAX_ID_LENGTH then Err(BadValue)
    else
      var query := ReadQuery(raw);
      if query.Err? then Err(query.error)
      else
        var subs := SubscriptionsOf(m, target);
        if id !in subs && |subs| >= MAX_PER_TARGET then Err(LimitReached)
        else
          var results := Execute(s, query.value);
          Ok(Registered(Manager(m.active[target := subs[id := Subscription(query.value, app)]],
                                m.last[(target, id) := results]), results))
  }

  function Unregister(m: Manager, target: Target, id: string): Manager {
    Manager(if target in m.active then m.active[target := m.active[target] - {id}] else m.active,
            m.last - {(target, id)})
  }

  function UnregisterAll(m: Manager, target: Target): Manager {
    Manager(m.active - {target},
            map k | k in m.last && !(target in m.active && k.0 == target && k.1 in m.active[target]) :: m.last[k])
  }

  /** The grants an App's subscription must still hold; the authorizer is foreign. */
  type Authorizer = Item -> bool

  predicate Refusable(allowed: Authorizer, item: Item) {
    item.subscription.app.Some? && item.subscription.app.value != "" && !allowed(item)
  }

  predicate Skips(mutated: set<string>, item: Item) {
    mutated != {} && Skippable(item.subscription.query, mutated)
  }

  /** One turn of the inner loop of `broadcast_updates`. */
  function Visit(m: Manager, s: Store, mutated: set<string>, allowed: Authorizer, item: Item): Manager {
    if Refusable(allowed, item) then Unregister(m, item.target, item.id)
    else if Skips(mutated, item) then m
    else m.(last := m.last[(item.target, item.id) := Execute(s, item.subscription.query)])
  }

  function Messages(m: Manager, s: Store, mutated: set<string>, allowed: Authorizer, item: Item): seq<Message> {
    if Refusable(allowed, item) then [Refused(item.target, item.id)]
    else if Skips(mutated, item) then []
    else
      var results := Execute(s, item.subscription.query);
      if (item.target, item.id) in m.last && m.last[(item.target, item.id)] == results then []
      else [Update(item.target, item.id, results)]
  }

  /** A pass that nothing interrupts. */
  function Pass(m: Manager, s: Store, mutated: set<string>, allowed: Authorizer, items: seq<Item>): Manager
    decreases items
  {
    if items == [] then m
    else Pass(Visit(m, s, mutated, allowed, items[0]), s, mutated, allowed, items[1..])
  }

  function PassMessages(m: Manager, s: Store, mutated: set<string>, allowed: Authorizer, items: seq<Item>): seq<Message>
    decreases items
  {
    if items == [] then []
    else
      Messages(m, s, mutated, allowed, items[0]) +
      PassMessages(Visit(m, s, mutated, allowed, items[0]), s, mutated, allowed, items[1..])
  }

  // ---- What every operation keeps --------------------------------------------------------------------------

  ghost predicate KeysMatch(m: Manager) {
    forall t, id :: (t, id) in m.last <==> IsActive(m, t, id)
  }

  ghost predicate WithinLimit(m: Manager) {
    forall t | t in m.active :: |m.active[t]| <= MAX_PER_TARGET
  }

  ghost predicate Sound(m: Manager) {
    KeysMatch(m) && WithinLimit(m)
  }

  lemma RegisterKeeps(m: Manager, s: Store, target: Target, id: string, raw: RawQuery, app: Option<string>)
    requires Sound(m)
    ensures Register(m, s, target, id, raw, app).Ok? ==> Sound(Register(m, s, target, id, raw, app).value.manager)
  {
    var r := Register(m, s, target, id, raw, app);
    if r.Ok? {
      var subs, sub := SubscriptionsOf(m, target), Subscription(ReadQuery(raw).value, app);
      EntryFits(subs, id, sub);
      InsertKeeps(m, target, id, sub, r.value.results);
    }
  }

  lemma EntryFits(subs: map<string, Subscription>, id: string, sub: Subscription)
    requires |subs| <= MAX_PER_TARGET && (id !in subs ==> |subs| < MAX_PER_TARGET)
    ensures |subs[id := sub]| <= MAX_PER_TARGET
  {
    if id in subs {
      assert subs[id := sub].Keys == subs.Keys;
      assert |subs[id := sub].Keys| == |subs.Keys|;
    } else {
      assert subs[id := sub].Keys == subs.Keys + {id};
    }
  }

  lemma InsertKeeps(m: Manager, target: Target, id: string, sub: Subscription, results: seq<Found>)
    requires Sound(m) && |SubscriptionsOf(m, target)[id := sub]| <= MAX_PER_TARGET
    ensures Sound(Manager(m.active[target := SubscriptionsOf(m, target)[id := sub]], m.last[(target, id) := results]))
  {
  }

  lemma UnregisterKeeps(m: Manager, target: Target, id: string)
    requires Sound(m)
    ensures Sound(Unregister(m, target, id))
  {
    UnregisterWithinLimit(m, target, id);
  }

  lemma UnregisterWithinLimit(m: Manager, target: Target, id: string)
    requires WithinLimit(m)
    ensures WithinLimit(Unregister(m, target, id))
  {
    if target in m.active {
      var subs := m.active[target];
      assert (subs - {id}).Keys <= subs.Keys;
      SmallerSet((subs - {id}).Keys, subs.Keys);
    }
  }

  lemma {:induction false} SmallerSet<T>(a: set<T>, b: set<T>)
    requires a <= b
    ensures |a| <= |b|
  {
    assert b == a + (b - a);
  }

  /** A visit keeps the two tables aligned exactly when the subscription is refused, skipped or still
      there: a subscriber that leaves while a pass is under way gets a result table entry back. */
  lemma VisitKeepsKeys(m: Manager, s: Store, mutated: set<string>, allowed: Authorizer, item: Item)
    requires KeysMatch(m)
    ensures KeysMatch(Visit(m, s, mutated, allowed, item)) <==>
            Refusable(allowed, item) || Skips(mutated, item) || IsActive(m, item.target, item.id)
  {
    var v := Visit(m, s, mutated, allowed, item);
    if !Refusable(allowed, item) && !Skips(mutated, item) {
      assert (item.target, item.id) in v.last;
      assert IsActive(v, item.target, item.id) <==> IsActive(m, item.target, item.id);
    }
  }

  /** The interleaving above, from an empty manager: the subscriber leaves between snapshot and visit. */
  lemma LeavingMidPassLeaksEntry(s: Store, raw: RawQuery, allowed: Authorizer)
    requires ReadQuery(raw).Ok?
    ensures var r := Register(Manager(map[], map[]), s, 0, "q", raw, None);
            r.Ok? && Sound(r.value.manager) &&
            var item := Item(0, "q", Subscription(ReadQuery(raw).value, None));
            !KeysMatch(Visit(Unregister(r.value.manager, 0, "q"), s, {}, allowed, item))
  {
    var m := Manager(map[], map[]);
    RegisterKeeps(m, s, 0, "q", raw, None);
    var r := Register(m, s, 0, "q", raw, None).value.manager;
    UnregisterKeeps(r, 0, "q");
    VisitKeepsKeys(Unregister(r, 0, "q"), s, {}, allowed, Item(0, "q", Subscription(ReadQuery(raw).value, None)));
  }

  // ---- Freshness -------------------------------------------------------------------------------------------

  ghost predicate Current(m: Manager, s: Store, t: Target, id: string)
    requires IsActive(m, t, id)
  {
    (t, id) in m.last && m.last[(t, id)] == Execute(s, m.active[t][id].query)
  }

  /** And a subscriber that registers anew under its id, between snapshot and visit: the tables stay
      aligned, and it is left with the result of its old query. */
  lemma RegisteringMidPassKeepsOldResult(s: Store, before: RawQuery, after: RawQuery, allowed: Authorizer)
    requires ReadQuery(before).Ok? && ReadQuery(after).Ok?
    ensures var r := Register(Manager(map[], map[]), s, 0, "q", before, None);
            r.Ok? && var again := Register(r.value.manager, s, 0, "q", after, None);
            again.Ok? &&
            var m := Visit(again.value.manager, s, {}, allowed, Item(0, "q", Subscription(ReadQuery(before).value, None)));
            && Sound(m) && IsActive(m, 0, "q")
            && (Current(m, s, 0, "q") <==> Execute(s, ReadQuery(before).value) == Execute(s, ReadQuery(after).value))
  {
    var m := Manager(map[], map[]);
    RegisterKeeps(m, s, 0, "q", before, None);
    var r := Register(m, s, 0, "q", before, None).value.manager;
    RegisterKeeps(r, s, 0, "q", after, None);
    var again := Register(r, s, 0, "q", after, None).value.manager;
    VisitKeepsKeys(again, s, {}, allowed, Item(0, "q", Subscription(ReadQuery(before).value, None)));
  }

  /** Such queries are easily had: one asks for a type that has a record, the other for one that has none. */
  lemma OldResultCanDiffer() returns (s: Store, before: RawQuery, after: RawQuery)
    ensures Valid(s) && ReadQuery(before).Ok? && ReadQuery(after).Ok?
    ensures Execute(s, ReadQuery(before).value) != Execute(s, ReadQuery(after).value)
  {
    var n := NodeRow("a", "note", map[], 0);
    s := Store([n], []);
    before, after := RawQuery(Some(Str("note")), None, None, None), RawQuery(Some(Str("task")), None, None, None);
    assert ReadIncludes([]) == Ok([]);
    var p, q := ReadQuery(before).value, ReadQuery(after).value;
    assert p == Query(Some("note"), map[], [], MAX_RESULTS) && q == Query(Some("task"), map[], [], MAX_RESULTS);
    assert "note"[0] != "task"[0] && [n][1..] == [];
    assert NodesOfKind([], Some("note")) == [] && NodesOfKind([], Some("task")) == [] && AllResults(s, p, []) == [];
    assert NodesOfKind([n], Some("note")) == [n] + [] && NodesOfKind([n], Some("task")) == [];
    assert AllResults(s, p, [n]) == [ResultOf(s, p, n)] + [] && AllResults(s, q, []) == [];
  }

  // ---- What the subscribers hold ---------------------------------------------------------------------------

  /** What each subscriber was last sent. */
  type View = map<(Target, string), seq<Found>>

  /** What the subscribers hold after the messages. */
  function Deliver(view: View, messages: seq<Message>): View
    decreases messages
  {
    if messages == [] then view
    else
      var message := messages[0];
      Deliver(if message.Update? then view[(message.target, message.id) := message.results] else view, messages[1..])
  }

  lemma {:induction false} DeliverConcat(view: View, a: seq<Message>, b: seq<Message>)
    ensures Deliver(view, a + b) == Deliver(Deliver(view, a), b)
    decreases a
  {
    if a == [] {
      assert a + b == b;
    } else {
      assert (a + b)[1..] == a[1..] + b;
      var message := a[0];
      DeliverConcat(if message.Update? then view[(message.target, message.id) := message.results] else view, a[1..], b);
    }
  }

  ghost predicate Mirrors(view: View, m: Manager) {
    forall k | k in m.last :: k in view && view[k] == m.last[k]
  }

  lemma VisitMirrors(view: View, m: Manager, s: Store, mutated: set<string>, allowed: Authorizer, item: Item)
    requires Mirrors(view, m)
    ensures Mirrors(Deliver(view, Messages(m, s, mutated, allowed, item)), Visit(m, s, mutated, allowed, item))
  {
    var messages := Messages(m, s, mutated, allowed, item);
    if messages != [] {
      assert messages[1..] == [];
    }
  }

  /** Sending only changed results is enough: subscribers who hold their last results before a pass hold
      them after it. */
  lemma {:induction false} PassMirrors(
      view: View, m: Manager, s: Store, mutated: set<string>, allowed: Authorizer, items: seq<Item>)
    requires Mirrors(view, m)
    ensures Mirrors(Deliver(view, PassMessages(m, s, mutated, allowed, items)), Pass(m, s, mutated, allowed, items))
    decreases items
  {
    if items != [] {
      VisitMirrors(view, m, s, mutated, allowed, items[0]);
      var messages, v := Messages(m, s, mutated, allowed, items[0]), Visit(m, s, mutated, allowed, items[0]);
      PassMirrors(Deliver(view, messages), v, s, mutated, allowed, items[1..]);
      DeliverConcat(view, messages, PassMessages(v, s, mutated, allowed, items[1..]));
    }
  }
}
