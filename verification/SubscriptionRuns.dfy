/** Runs in which broadcast passes, one visit at a time, interleave with everything else. */
module SubscriptionRuns {
  import opened Basics
  import opened Ontology
  import opened Queries
  import opened SkipRule
  import opened Subscriptions

  type Key = (Target, string)

  /** The manager beside the store. For every live subscription: the query it was last evaluated with, and
      the types committed since, if anything was. */
  datatype World = World(
    manager: Manager,
    store: Store,
    seen: map<Key, Query>,
    since: map<Key, Option<set<string>>>)

  /** A pass is a series of turns. Each send suspends it, and any other event may come before its next turn;
      the item of a turn is what the pass found when it listed the connection's subscriptions. */
  datatype Event =
    | Subscribe(target: Target, id: string, raw: RawQuery, app: Option<string>)
    | Leave(target: Target, id: string)
    | Disconnect(target: Target)
    | Commit(after: Store, touched: set<string>)
    | Turn(mutated: set<string>, allowed: Authorizer, item: Item)

  predicate Live(m: Manager, k: Key) {
    IsActive(m, k.0, k.1)
  }

  function QueryOf(m: Manager, k: Key): Query
    requires Live(m, k)
  {
    m.active[k.0][k.1].query
  }

  function KeyOf(item: Item): Key {
    (item.target, item.id)
  }

  function Without<V>(m: map<Key, V>, target: Target): map<Key, V> {
    map k | k in m && k.0 != target :: m[k]
  }

  predicate Evaluates(e: Event) {
    e.Turn? && !Refusable(e.allowed, e.item) && !Skips(e.mutated, e.item)
  }

  ghost predicate Possible(w: World, e: Event) {
    e.Commit? ==> Valid(e.after) && Covers(w.store, e.after, e.touched) && Covers(e.after, w.store, e.touched)
  }

  function Step(w: World, e: Event): World {
    match e
    case Subscribe(t, id, raw, app) =>
      var r := Register(w.manager, w.store, t, id, raw, app);
      if r.Err? then w
      else World(r.value.manager, w.store, w.seen[(t, id) := ReadQuery(raw).value], w.since[(t, id) := None])
    case Leave(t, id) => World(Unregister(w.manager, t, id), w.store, w.seen - {(t, id)}, w.since - {(t, id)})
    case Disconnect(t) => World(UnregisterAll(w.manager, t), w.store, Without(w.seen, t), Without(w.since, t))
    case Commit(t, touched) =>
      World(w.manager, t, w.seen,
            map k | k in w.since :: Some(touched + if w.since[k].Some? then w.since[k].value else {}))
    case Turn(mutated, allowed, item) =>
      var m, k := Visit(w.manager, w.store, mutated, allowed, item), KeyOf(item);
      if Refusable(allowed, item) then World(m, w.store, w.seen - {k}, w.since - {k})
      else if Skips(mutated, item) || !Live(w.manager, k) then World(m, w.store, w.seen, w.since)
      else World(m, w.store, w.seen[k := item.subscription.query], w.since[k := None])
  }

  ghost predicate PossibleRun(w: World, events: seq<Event>)
    decreases events
  {
    events != [] ==> Possible(w, events[0]) && PossibleRun(Step(w, events[0]), events[1..])
  }

  function After(w: World, events: seq<Event>): World
    decreases events
  {
    if events == [] then w else After(Step(w, events[0]), events[1..])
  }

  // ---- What every run keeps --------------------------------------------------------------------------------

  /** The last result is what the last evaluation gives on the current store, unless a commit touched it. */
  ghost predicate Explained(w: World, k: Key)
    requires k in w.seen && k in w.since
  {
    k in w.manager.last &&
    (w.since[k].None? || Skippable(w.seen[k], w.since[k].value) ==> w.manager.last[k] == Execute(w.store, w.seen[k]))
  }

  ghost predicate Inv(w: World) {
    && Valid(w.store) && WithinLimit(w.manager)
    && (forall k: Key :: k in w.seen <==> Live(w.manager, k))
    && w.since.Keys == w.seen.Keys
    && (forall k | k in w.seen :: Explained(w, k))
  }

  lemma SubscribeKeeps(w: World, t: Target, id: string, raw: RawQuery, app: Option<string>)
    requires Inv(w)
    ensures Inv(Step(w, Subscribe(t, id, raw, app)))
  {
    var r := Register(w.manager, w.store, t, id, raw, app);
    if r.Ok? {
      var query := ReadQuery(raw).value;
      EntryFits(SubscriptionsOf(w.manager, t), id, Subscription(query, app));
      EnteredKeeps(w, t, id, Subscription(query, app));
    }
  }

  lemma EnteredKeeps(w: World, t: Target, id: string, sub: Subscription)
    requires Inv(w) && |SubscriptionsOf(w.manager, t)[id := sub]| <= MAX_PER_TARGET
    ensures var m := Manager(w.manager.active[t := SubscriptionsOf(w.manager, t)[id := sub]],
                             w.manager.last[(t, id) := Execute(w.store, sub.query)]);
            Inv(World(m, w.store, w.seen[(t, id) := sub.query], w.since[(t, id) := None]))
  {
    var m := Manager(w.manager.active[t := SubscriptionsOf(w.manager, t)[id := sub]],
                     w.manager.last[(t, id) := Execute(w.store, sub.query)]);
    var v := World(m, w.store, w.seen[(t, id) := sub.query], w.since[(t, id) := None]);
    forall k: Key ensures k in v.seen <==> Live(m, k) {
      if k != (t, id) { assert Live(m, k) <==> Live(w.manager, k); }
    }
    forall k | k in v.seen ensures Explained(v, k) {
      if k != (t, id) { assert Explained(w, k); }
    }
  }

  lemma LeaveKeeps(w: World, t: Target, id: string, v: World)
    requires Inv(w)
    requires v == World(Unregister(w.manager, t, id), w.store, w.seen - {(t, id)}, w.since - {(t, id)})
    ensures Inv(v)
  {
    UnregisterWithinLimit(w.manager, t, id);
    forall k | k in v.seen ensures Explained(v, k) { assert Explained(w, k); }
  }

  lemma DisconnectKeeps(w: World, t: Target)
    requires Inv(w)
    ensures Inv(Step(w, Disconnect(t)))
  {
    var v := Step(w, Disconnect(t));
    forall k | k in v.seen ensures Explained(v, k) { assert Explained(w, k); }
  }

  lemma CommitKeeps(w: World, t: Store, touched: set<string>)
    requires Inv(w) && Possible(w, Commit(t, touched))
    ensures Inv(Step(w, Commit(t, touched)))
  {
    var v := Step(w, Commit(t, touched));
    forall k | k in v.seen ensures Explained(v, k) {
      assert Explained(w, k);
      if Skippable(v.seen[k], v.since[k].value) {
        SkippedQueryIsUnchanged(w.store, t, w.seen[k], touched);
      }
    }
  }

  lemma TurnKeeps(w: World, e: Event)
    requires Inv(w) && e.Turn?
    ensures Inv(Step(w, e))
  {
    var v, k := Step(w, e), KeyOf(e.item);
    if Refusable(e.allowed, e.item) {
      LeaveKeeps(w, e.item.target, e.item.id, v);
    } else {
      forall other | other in v.seen ensures Explained(v, other) {
        if other != k { assert Explained(w, other); }
      }
    }
  }

  lemma StepKeepsInv(w: World, e: Event)
    requires Inv(w) && Possible(w, e)
    ensures Inv(Step(w, e))
  {
    match e {
      case Subscribe(t, id, raw, app) => SubscribeKeeps(w, t, id, raw, app);
      case Leave(t, id) => LeaveKeeps(w, t, id, Step(w, e));
      case Disconnect(t) => DisconnectKeeps(w, t);
      case Commit(t, touched) => CommitKeeps(w, t, touched);
      case Turn(_, _, _) => TurnKeeps(w, e);
    }
  }

  lemma {:induction false} RunKeepsInv(w: World, events: seq<Event>)
    requires Inv(w) && PossibleRun(w, events)
    ensures Inv(After(w, events))
    decreases events
  {
    if events != [] {
      StepKeepsInv(w, events[0]);
      RunKeepsInv(Step(w, events[0]), events[1..]);
    }
  }

  // ---- Freshness -------------------------------------------------------------------------------------------

  /** Over every run, interleaved passes included: a live subscription that nothing was committed under
      since its last evaluation is current exactly when that evaluation used a query of equal result. It
      did so if the last visit saw the subscription that is still there, or if it was registered after. */
  lemma RunStaysFresh(w: World, events: seq<Event>, k: Key)
    requires Inv(w) && PossibleRun(w, events) && Live(After(w, events).manager, k)
    ensures var u := After(w, events);
            && k in u.seen && k in u.since && |u.manager.active[k.0]| <= MAX_PER_TARGET
            && (u.since[k].None? ==>
                  (Current(u.manager, u.store, k.0, k.1)
                   <==> Execute(u.store, u.seen[k]) == Execute(u.store, QueryOf(u.manager, k))))
            && (u.seen[k] == QueryOf(u.manager, k)
                && (u.since[k].None? || Skippable(u.seen[k], u.since[k].value)) ==>
                  Current(u.manager, u.store, k.0, k.1))
  {
    RunKeepsInv(w, events);
    assert Explained(After(w, events), k);
  }

  ghost predicate NoCommit(events: seq<Event>) {
    forall e | e in events :: !e.Commit?
  }

  /** The subscription is there, unchanged, before, between and after the events. */
  ghost predicate Stays(w: World, events: seq<Event>, k: Key)
    decreases events
  {
    Live(w.manager, k) &&
    (events != [] ==> && Live(Step(w, events[0]).manager, k)
                      && Step(w, events[0]).manager.active[k.0][k.1] == w.manager.active[k.0][k.1]
                      && Stays(Step(w, events[0]), events[1..], k))
  }

  /** Every subscription that stays throughout is visited: it is in every listing of its connection. */
  ghost predicate Complete(w: World, events: seq<Event>, mutated: set<string>) {
    forall k: Key | Stays(w, events, k) ::
      exists e :: e in events && e.Turn? && e.mutated == mutated
                  && e.item == Item(k.0, k.1, w.manager.active[k.0][k.1])
  }

  /** The types passed on cover what was committed since each last evaluation; none means all. */
  ghost predicate CoversCommits(w: World, mutated: set<string>) {
    mutated == {} || forall k | k in w.since && w.since[k].Some? :: w.since[k].value <= mutated
  }

  /** Whoever is still marked at the end was neither registered, replaced nor evaluated meanwhile. */
  lemma {:induction false} MarkedWasLeftAlone(w: World, events: seq<Event>, k: Key)
    requires Inv(w) && PossibleRun(w, events) && NoCommit(events)
    requires k in After(w, events).since && After(w, events).since[k].Some?
    ensures k in w.since && w.since[k] == After(w, events).since[k]
    ensures k in w.seen && k in After(w, events).seen && w.seen[k] == After(w, events).seen[k]
    ensures Stays(w, events, k) && Live(w.manager, k) && Live(After(w, events).manager, k)
    ensures After(w, events).manager.active[k.0][k.1] == w.manager.active[k.0][k.1]
    ensures forall e | e in events && e.Turn? && KeyOf(e.item) == k :: Skips(e.mutated, e.item)
    decreases events
  {
    if events != [] {
      assert events[0] in events;
      StepKeepsInv(w, events[0]);
      MarkedWasLeftAlone(Step(w, events[0]), events[1..], k);
      MarkedStep(w, events[0], k);
      assert forall e :: e in events <==> e == events[0] || e in events[1..];
    } else {
      assert k in w.seen;
    }
  }

  /** The entry under a key is the same in both worlds, and its subscription lives in both. */
  ghost predicate SameEntry(w: World, v: World, k: Key) {
    && k in w.since && k in v.since && w.since[k] == v.since[k]
    && k in w.seen && k in v.seen && w.seen[k] == v.seen[k]
    && Live(w.manager, k) && Live(v.manager, k)
    && v.manager.active[k.0][k.1] == w.manager.active[k.0][k.1]
  }

  lemma MarkedTurn(w: World, e: Event, k: Key)
    requires Inv(w) && e.Turn? && Inv(Step(w, e))
    requires k in Step(w, e).since && Step(w, e).since[k].Some?
    ensures SameEntry(w, Step(w, e), k)
    ensures KeyOf(e.item) == k ==> Skips(e.mutated, e.item)
  {
    assert k in w.seen && k in Step(w, e).seen;
  }

  lemma MarkedOther(w: World, e: Event, k: Key)
    requires Inv(w) && (e.Subscribe? || e.Leave? || e.Disconnect?) && Inv(Step(w, e))
    requires k in Step(w, e).since && Step(w, e).since[k].Some?
    ensures SameEntry(w, Step(w, e), k)
  {
    assert k in w.seen && k in Step(w, e).seen;
    assert Live(w.manager, k) && Live(Step(w, e).manager, k);
  }

  lemma MarkedStep(w: World, e: Event, k: Key)
    requires Inv(w) && !e.Commit? && Inv(Step(w, e))
    requires k in Step(w, e).since && Step(w, e).since[k].Some?
    ensures SameEntry(w, Step(w, e), k)
    ensures e.Turn? && KeyOf(e.item) == k ==> Skips(e.mutated, e.item)
  {
    if e.Turn? { MarkedTurn(w, e, k); } else { MarkedOther(w, e, k); }
  }

  /** A pass among other events. It starts where every subscription was last evaluated with its own query,
      visits every subscription that stays, and no commit comes in between. At its end every live
      subscription is current exactly when its last evaluation used a query of equal result; in
      particular it is, if its last visit saw the subscription that is still there or it was registered
      after that visit. */
  lemma PassRefreshes(w: World, events: seq<Event>, mutated: set<string>, k: Key)
    requires Inv(w) && PossibleRun(w, events) && NoCommit(events)
    requires forall key | key in w.seen :: w.seen[key] == QueryOf(w.manager, key)
    requires Complete(w, events, mutated) && CoversCommits(w, mutated)
    requires Live(After(w, events).manager, k)
    ensures var u := After(w, events);
            && k in u.seen
            && (Current(u.manager, u.store, k.0, k.1)
                <==> Execute(u.store, u.seen[k]) == Execute(u.store, QueryOf(u.manager, k)))
            && (u.seen[k] == QueryOf(u.manager, k) ==> Current(u.manager, u.store, k.0, k.1))
  {
    var u := After(w, events);
    RunKeepsInv(w, events);
    RunStaysFresh(w, events, k);
    if u.since[k].Some? {
      MarkedWasLeftAlone(w, events, k);
      var e :| e in events && e.Turn? && e.mutated == mutated && e.item == Item(k.0, k.1, w.manager.active[k.0][k.1]);
      assert Skips(mutated, e.item) && u.seen[k] == QueryOf(u.manager, k);
      assert Skippable(u.seen[k], u.since[k].value);
    }
  }

  // ---- A pass that nothing interrupts ------------------------------------------------------------------------

  function Turns(mutated: set<string>, allowed: Authorizer, items: seq<Item>): seq<Event> {
    if items == [] then [] else [Turn(mutated, allowed, items[0])] + Turns(mutated, allowed, items[1..])
  }

  /** Every query was last evaluated as it stands. */
  ghost predicate OwnQueries(w: World) {
    forall k | k in w.seen && Live(w.manager, k) :: w.seen[k] == QueryOf(w.manager, k)
  }

  /** What is listed and still there is as it was listed. */
  ghost predicate ListedAsTheyAre(m: Manager, items: seq<Item>) {
    forall item | item in items && Live(m, KeyOf(item)) :: m.active[item.target][item.id] == item.subscription
  }

  lemma OwnTurn(w: World, e: Event, items: seq<Item>)
    requires OwnQueries(w) && ListedAsTheyAre(w.manager, items) && e.Turn? && e.item in items
    ensures OwnQueries(Step(w, e)) && ListedAsTheyAre(Step(w, e).manager, items)
  {
    var v := Step(w, e);
    forall k: Key | Live(v.manager, k)
      ensures Live(w.manager, k) && v.manager.active[k.0][k.1] == w.manager.active[k.0][k.1] {}
  }

  lemma {:induction false} PassIsRun(w: World, mutated: set<string>, allowed: Authorizer, items: seq<Item>)
    requires OwnQueries(w) && ListedAsTheyAre(w.manager, items)
    ensures var u, events := After(w, Turns(mutated, allowed, items)), Turns(mutated, allowed, items);
            && u.manager == Pass(w.manager, w.store, mutated, allowed, items) && u.store == w.store
            && OwnQueries(u) && PossibleRun(w, events) && NoCommit(events)
            && forall item | item in items :: Turn(mutated, allowed, item) in events
    decreases items
  {
    if items != [] {
      var e, rest := Turn(mutated, allowed, items[0]), Turns(mutated, allowed, items[1..]);
      OwnTurn(w, e, items);
      PassIsRun(Step(w, e), mutated, allowed, items[1..]);
      assert Turns(mutated, allowed, items) == [e] + rest && ([e] + rest)[1..] == rest;
      forall item | item in items ensures Turn(mutated, allowed, item) in [e] + rest {
        if item != items[0] { assert item in items[1..]; }
      }
    }
  }

  /** After a pass over a listing of all subscriptions, in any order, every live one holds the result of
      plain re-evaluation. */
  lemma QuietPassRefreshes(w: World, mutated: set<string>, allowed: Authorizer, items: seq<Item>, k: Key)
    requires Inv(w) && OwnQueries(w) && ListedAsTheyAre(w.manager, items) && CoversCommits(w, mutated)
    requires forall key: Key | Live(w.manager, key) :: Item(key.0, key.1, w.manager.active[key.0][key.1]) in items
    requires Live(Pass(w.manager, w.store, mutated, allowed, items), k)
    ensures Current(Pass(w.manager, w.store, mutated, allowed, items), w.store, k.0, k.1)
  {
    var events := Turns(mutated, allowed, items);
    PassIsRun(w, mutated, allowed, items);
    forall key: Key | Stays(w, events, key)
      ensures exists e :: e in events && e.Turn? && e.mutated == mutated
                && e.item == Item(key.0, key.1, w.manager.active[key.0][key.1]) {
      assert Turn(mutated, allowed, Item(key.0, key.1, w.manager.active[key.0][key.1])) in events;
    }
    forall key | key in w.seen ensures w.seen[key] == QueryOf(w.manager, key) { assert Live(w.manager, key); }
    PassRefreshes(w, events, mutated, k);
  }

  // ---- Leaked results --------------------------------------------------------------------------------------

  /** A result without a subscription. */
  ghost predicate Leaked(m: Manager, k: Key) {
    k in m.last && !Live(m, k)
  }

  ghost predicate LeaksAt(w: World, e: Event, k: Key) {
    Evaluates(e) && KeyOf(e.item) == k && !Live(w.manager, k)
  }

  /** Leaving, registering anew, or a refusal takes such a result away; a disconnect does not. */
  ghost predicate Clears(w: World, e: Event, k: Key) {
    match e
    case Subscribe(t, id, raw, app) => (t, id) == k && Register(w.manager, w.store, t, id, raw, app).Ok?
    case Leave(t, id) => (t, id) == k
    case Turn(_, allowed, item) => KeyOf(item) == k && Refusable(allowed, item)
    case _ => false
  }

  lemma TurnLeaks(w: World, e: Event, k: Key)
    requires e.Turn?
    ensures Leaked(Step(w, e).manager, k) <==> LeaksAt(w, e, k) || (Leaked(w.manager, k) && !Clears(w, e, k))
  {
    var m := Visit(w.manager, w.store, e.mutated, e.allowed, e.item);
    assert Step(w, e).manager == m;
    if k != KeyOf(e.item) {
      assert Live(m, k) <==> Live(w.manager, k);
      assert k in m.last <==> k in w.manager.last;
    }
  }

  lemma DisconnectLeaks(m: Manager, t: Target, k: Key)
    ensures Leaked(UnregisterAll(m, t), k) <==> Leaked(m, k)
  {
  }

  lemma StepLeaks(w: World, e: Event, k: Key)
    ensures Leaked(Step(w, e).manager, k) <==> LeaksAt(w, e, k) || (Leaked(w.manager, k) && !Clears(w, e, k))
  {
    match e {
      case Turn(_, _, _) => TurnLeaks(w, e, k);
      case Disconnect(t) => DisconnectLeaks(w.manager, t, k);
      case _ =>
    }
  }

  ghost predicate NeverCleared(w: World, events: seq<Event>, k: Key)
    decreases events
  {
    events != [] ==> !Clears(w, events[0], k) && NeverCleared(Step(w, events[0]), events[1..], k)
  }

  /** Some turn of the run leaks a result under the key, and nothing later takes it away. */
  ghost predicate LeftLeaked(w: World, events: seq<Event>, k: Key)
    decreases events
  {
    && events != []
    && (|| (LeaksAt(w, events[0], k) && NeverCleared(Step(w, events[0]), events[1..], k))
        || LeftLeaked(Step(w, events[0]), events[1..], k))
  }

  lemma {:induction false} RunLeaks(w: World, events: seq<Event>, k: Key)
    requires Inv(w) && PossibleRun(w, events)
    ensures Leaked(After(w, events).manager, k) <==>
            LeftLeaked(w, events, k) || (Leaked(w.manager, k) && NeverCleared(w, events, k))
    decreases events
  {
    if events != [] {
      StepLeaks(w, events[0], k);
      StepKeepsInv(w, events[0]);
      RunLeaks(Step(w, events[0]), events[1..], k);
    }
  }

  ghost predicate NoneLeaked(m: Manager) {
    forall k :: !Leaked(m, k)
  }

  ghost predicate NoneLeftLeaked(w: World, events: seq<Event>) {
    forall k :: !LeftLeaked(w, events, k)
  }

  lemma RunLeaksNone(w: World, events: seq<Event>)
    requires Inv(w) && PossibleRun(w, events) && NoneLeaked(w.manager)
    ensures NoneLeaked(After(w, events).manager) <==> NoneLeftLeaked(w, events)
  {
    forall k ensures Leaked(After(w, events).manager, k) <==> LeftLeaked(w, events, k) { RunLeaks(w, events, k); }
  }

  /** The tables are aligned exactly when no result is leaked. */
  lemma AlignedIsNoneLeaked(w: World)
    requires Inv(w)
    ensures KeysMatch(w.manager) <==> NoneLeaked(w.manager)
  {
    var m := w.manager;
    forall t, id | IsActive(m, t, id) ensures (t, id) in m.last {
      assert Live(m, (t, id)) && (t, id) in w.seen && Explained(w, (t, id));
    }
    if KeysMatch(m) {
      forall k: Key ensures !Leaked(m, k) { assert (k.0, k.1) in m.last <==> IsActive(m, k.0, k.1); }
    } else {
      var t, id :| (t, id) in m.last && !IsActive(m, t, id);
      assert Leaked(m, (t, id));
    }
  }

  /** Over every run the two tables end up aligned exactly when every turn that evaluated a subscription
      already gone was followed by its leaving, registering anew or refusal. */
  lemma KeysMatchAtEnd(w: World, events: seq<Event>)
    requires Inv(w) && KeysMatch(w.manager) && PossibleRun(w, events)
    ensures KeysMatch(After(w, events).manager) <==> NoneLeftLeaked(w, events)
  {
    RunKeepsInv(w, events);
    AlignedIsNoneLeaked(w);
    AlignedIsNoneLeaked(After(w, events));
    RunLeaksNone(w, events);
  }

  // ---- What the subscribers hold ---------------------------------------------------------------------------

  /** What an event sends: a turn its message, a registration its first result. */
  function Sent(w: World, e: Event): seq<Message> {
    match e
    case Subscribe(t, id, raw, app) =>
      var r := Register(w.manager, w.store, t, id, raw, app);
      if r.Ok? then [Update(t, id, r.value.results)] else []
    case Turn(mutated, allowed, item) => Messages(w.manager, w.store, mutated, allowed, item)
    case _ => []
  }

  function AllSent(w: World, events: seq<Event>): seq<Message>
    decreases events
  {
    if events == [] then [] else Sent(w, events[0]) + AllSent(Step(w, events[0]), events[1..])
  }

  lemma StepMirrors(view: View, w: World, e: Event)
    requires Mirrors(view, w.manager)
    ensures Mirrors(Deliver(view, Sent(w, e)), Step(w, e).manager)
  {
    match e {
      case Turn(mutated, allowed, item) => VisitMirrors(view, w.manager, w.store, mutated, allowed, item);
      case Subscribe(t, id, raw, app) =>
        if Sent(w, e) != [] { assert Sent(w, e)[1..] == []; }
      case _ =>
    }
  }

  /** Over every interleaved run each subscriber holds its entry of the result table. */
  lemma {:induction false} RunMirrors(view: View, w: World, events: seq<Event>)
    requires Mirrors(view, w.manager)
    ensures Mirrors(Deliver(view, AllSent(w, events)), After(w, events).manager)
    decreases events
  {
    if events != [] {
      StepMirrors(view, w, events[0]);
      RunMirrors(Deliver(view, Sent(w, events[0])), Step(w, events[0]), events[1..]);
      DeliverConcat(view, Sent(w, events[0]), AllSent(Step(w, events[0]), events[1..]));
    }
  }
}
