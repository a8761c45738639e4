/** What the ledger answers to proposals sent again under a key that already carried one. */
module LedgerReplay {
  import opened Basics
  import opened Ontology
  import opened Graph
  import opened SchemaProposals
  import opened SchemaRestore
  import opened Ledger
  import opened StoreInvariant

  predicate HasSchema(st: Store, key: string) {
    key in st.effects && st.effects[key].SchemaEntry?
  }

  // ---- Other proposals under a used key ------------------------------------------------------------

  /** A key keeps the proposal it first carried, through compensation and renewed application. */
  lemma ProposalStays(h: Host, st: Store, call: Call, key: string)
    requires key != "" && HasSchema(st, key)
    ensures var o := Exec(h, st, call);
            HasSchema(o.store, key) && o.store.effects[key].outcome.proposal == st.effects[key].outcome.proposal
  {
  }

  /** A different proposal under a used key is refused, whether the effect is in force or compensated. */
  lemma {:induction false} OtherProposalRefused(h: Host, st: Store, calls: seq<Call>, key: string, j: nat)
    requires key != "" && HasSchema(st, key)
    requires j < |calls| && calls[j].Propose? && calls[j].key == key
    requires Normalize(calls[j].proposal) != Ok(st.effects[key].outcome.proposal)
    ensures ExecAll(h, st, calls)[j].reply.Err? && !ExecAll(h, st, calls)[j].ran
    decreases calls
  {
    if j > 0 {
      ProposalStays(h, st, calls[0], key);
      OtherProposalRefused(h, Exec(h, st, calls[0]).store, calls[1..], key, j - 1);
    }
  }

  // ---- Replay while in force -----------------------------------------------------------------------

  /** The table still holds what an effect in force added to it. */
  ghost predicate EntryFits(t: Schemas, o: SchemaResult) {
    && (forall id | id in o.snapshot && o.snapshot[id].None? :: id in t)
    && (forall e | e in o.proposal.added :: e.id in o.snapshot && o.snapshot[e.id].None?)
    && (DistinctIds(o.proposal.added) ==>
          forall e | e in o.proposal.added && e.id in t :: t[e.id].subclassOf == e.subclassOf)
  }

  /** No two effects in force both added the same entity. */
  ghost predicate Exclusive(st: Store) {
    forall j, k, id | j != k && InForce(st, j) && InForce(st, k)
      && id in st.effects[j].outcome.snapshot && id in st.effects[k].outcome.snapshot ::
      st.effects[j].outcome.snapshot[id].Some? || st.effects[k].outcome.snapshot[id].Some?
  }

  ghost predicate LedgerFits(st: Store) {
    && StoreOk(st) && Exclusive(st)
    && forall k | InForce(st, k) :: EntryFits(st.schemas, st.effects[k].outcome)
  }

  lemma OneRowPerEntity(added: seq<NewEntity>, e: NewEntity, f: NewEntity)
    requires DistinctIds(added) && e in added && f in added && e.id == f.id
    ensures e == f
  {
    var i, j :| 0 <= i < |added| && added[i] == e && 0 <= j < |added| && added[j] == f;
    assert added[i].id == added[j].id && i == j;
  }

  lemma AddedRows(t: Schemas, n: Proposal, now: string, c: SchemaCommit)
    requires CommitSchemas(t, n, now) == Ok(c) && DistinctIds(n.added)
    ensures forall e | e in n.added && e.id in c.schemas :: c.schemas[e.id].subclassOf == e.subclassOf
  {
    InsertWrites(ExtendAll(t, n.reused).value, n.added, now);
    forall e | e in n.added ensures e.id in c.schemas && c.schemas[e.id].subclassOf == e.subclassOf {
      assert e.id in NewIds(n.added);
      var f :| f in n.added && f.id == e.id && c.schemas[e.id] == Row(f, now);
      OneRowPerEntity(n.added, e, f);
    }
  }

  lemma FreshEntryFits(t: Schemas, n: Proposal, now: string, c: SchemaCommit)
    requires CommitSchemas(t, n, now) == Ok(c)
    ensures EntryFits(c.schemas, c.result)
    ensures forall id | id in c.result.snapshot && c.result.snapshot[id].None? :: id !in t
  {
    CommitGrows(t, n, now);
    assert c.result.proposal == n;
    forall e | e in n.added ensures e.id in NewIds(n.added) && e.id !in t {}
    if DistinctIds(n.added) { AddedRows(t, n, now, c); }
  }

  lemma GrownFits(t: Schemas, u: Schemas, o: SchemaResult)
    requires EntryFits(t, o) && forall id | id in t :: id in u && Grown(t[id], u[id])
    ensures EntryFits(u, o)
  {
    forall e | e in o.proposal.added && e.id in u
      ensures DistinctIds(o.proposal.added) ==> u[e.id].subclassOf == e.subclassOf
    {
      assert e.id in t && Grown(t[e.id], u[e.id]);
    }
  }

  lemma ProposeFits(st: Store, proposal: Proposal, key: string, now: string)
    requires LedgerFits(st)
    ensures LedgerFits(ExecPropose(st, proposal, key, now).store)
  {
    ProposeKeeps(st, proposal, key, now);
    var o := ExecPropose(st, proposal, key, now);
    if o.ran {
      var n := Normalize(proposal).value;
      var c := CommitSchemas(st.schemas, n, now).value;
      CommitGrows(st.schemas, n, now);
      FreshEntryFits(st.schemas, n, now, c);
      forall k | InForce(o.store, k) ensures EntryFits(o.store.schemas, o.store.effects[k].outcome) {
        if k != key || key == "" {
          assert InForce(st, k);
          GrownFits(st.schemas, c.schemas, st.effects[k].outcome);
        }
      }
      NewEntryExclusive(st, o.store, key, c.result);
    }
  }

  lemma NewEntryExclusive(st: Store, u: Store, key: string, fresh1: SchemaResult)
    requires Exclusive(st) && u.effects == Record(st.effects, key, SchemaEntry(fresh1, false))
    requires forall k | InForce(st, k) :: EntryFits(st.schemas, st.effects[k].outcome)
    requires forall id | id in fresh1.snapshot && fresh1.snapshot[id].None? :: id !in st.schemas
    ensures Exclusive(u)
  {
    forall j, k, id | j != k && InForce(u, j) && InForce(u, k)
      && id in u.effects[j].outcome.snapshot && id in u.effects[k].outcome.snapshot
      ensures u.effects[j].outcome.snapshot[id].Some? || u.effects[k].outcome.snapshot[id].Some?
    {
      if key != "" && j == key {
        assert InForce(st, k) && EntryFits(st.schemas, st.effects[k].outcome);
      } else if key != "" && k == key {
        assert InForce(st, j) && EntryFits(st.schemas, st.effects[j].outcome);
      } else {
        assert InForce(st, j) && InForce(st, k);
      }
    }
  }

  lemma CompensateFits(st: Store, snapshot: Snapshot, key: string)
    requires LedgerFits(st)
    ensures LedgerFits(ExecCompensate(st, snapshot, key).store)
  {
    CompensateKeeps(st, snapshot, key);
    var o := ExecCompensate(st, snapshot, key);
    if o.ran {
      assert InForce(st, key);
      var u := o.store.schemas;
      forall k | InForce(o.store, k) ensures EntryFits(u, o.store.effects[k].outcome) {
        assert k != key && InForce(st, k) && o.store.effects[k] == st.effects[k];
        RestoredFits(st, snapshot, key, k);
      }
      forall j | InForce(o.store, j) ensures j != key && InForce(st, j) && o.store.effects[j] == st.effects[j] {}
    }
  }

  /** Restoring one effect takes nothing away from another. */
  lemma RestoredFits(st: Store, snapshot: Snapshot, key: string, k: string)
    requires LedgerFits(st) && InForce(st, key) && InForce(st, k) && k != key
    requires st.effects[key].outcome.snapshot == snapshot
    requires Restore(st.schemas, st.graph.nodes, snapshot, st.effects[key].outcome.after).Ok?
    ensures EntryFits(Restored(st.schemas, snapshot), st.effects[k].outcome)
  {
    var t, u, o, after := st.schemas, Restored(st.schemas, snapshot), st.effects[k].outcome, st.effects[key].outcome.after;
    assert EntryFits(t, o) && EvidenceOk(snapshot, after);
    forall id | id in o.snapshot && o.snapshot[id].None? ensures id in u && u[id].subclassOf == t[id].subclassOf {
      assert id in snapshot ==> snapshot[id].Some?;
      if id in snapshot {
        assert MayRestore(t, st.graph.nodes, snapshot, after, id) && Grown(snapshot[id].value, after[id]);
      }
    }
  }

  lemma SameEffectsFit(st: Store, u: Store)
    requires LedgerFits(st) && StoreOk(u) && u.schemas == st.schemas
    requires forall k | InForce(u, k) :: InForce(st, k) && u.effects[k] == st.effects[k]
    ensures LedgerFits(u)
  {
    forall k | InForce(u, k) ensures EntryFits(u.schemas, u.effects[k].outcome) { assert InForce(st, k); }
  }

  lemma CallFits(h: Host, st: Store, call: Call)
    requires LedgerFits(st)
    ensures LedgerFits(Exec(h, st, call).store)
  {
    match call
    case Mutate(actions, expected, key) => MutateFits(h, st, actions, expected, key);
    case Propose(proposal, key, now) => ProposeFits(st, proposal, key, now);
    case Compensate(snapshot, key) => CompensateFits(st, snapshot, key);
  }

  lemma MutateFits(h: Host, st: Store, actions: seq<Action>, expected: Option<GraphGuard.Guard>, key: string)
    requires LedgerFits(st)
    ensures LedgerFits(ExecMutate(h, st, actions, expected, key).store)
  {
    MutateKeeps(h, st, actions, expected, key);
    SameEffectsFit(st, ExecMutate(h, st, actions, expected, key).store);
  }

  lemma {:induction false} RunFits(h: Host, st: Store, calls: seq<Call>)
    requires LedgerFits(st)
    ensures LedgerFits(Final(h, st, calls))
    decreases calls
  {
    if calls != [] {
      CallFits(h, st, calls[0]);
      RunFits(h, Exec(h, st, calls[0]).store, calls[1..]);
    }
  }

  /** The parents of an effect in force are still there. */
  lemma ParentsStayAvailable(st: Store, key: string)
    requires LedgerFits(st) && InForce(st, key) && DistinctIds(st.effects[key].outcome.proposal.added)
    ensures ParentsAvailable(st.schemas, st.effects[key].outcome.proposal.added)
  {
    var o := st.effects[key].outcome;
    forall e | e in o.proposal.added && e.subclassOf.Some? ensures e.subclassOf.value in st.schemas {
      assert e.id in o.snapshot && e.id in st.schemas;
    }
  }

  /** Replay. After any run of calls, while the effect of a key is in force, sending its proposal again
      changes nothing, and is answered with the recorded result unless the table lacks a parent the
      proposal names; a proposal that names every new entity once never meets that case. */
  lemma InForceReplays(h: Host, st: Store, calls: seq<Call>, key: string, proposal: Proposal, now: string)
    requires LedgerFits(st) && key != "" && InForce(Final(h, st, calls), key)
    requires Normalize(proposal) == Ok(Final(h, st, calls).effects[key].outcome.proposal)
    ensures var last := Final(h, st, calls);
            var n, o := Normalize(proposal).value, Exec(h, last, Propose(proposal, key, now));
            && o.store == last && !o.ran
            && o.reply == (if ParentsAvailable(last.schemas, n.added) then Ok(Proposed(last.effects[key].outcome))
                           else Err(MissingParent))
            && (DistinctIds(n.added) ==> o.reply == Ok(Proposed(last.effects[key].outcome)))
  {
    RunFits(h, st, calls);
    if DistinctIds(Normalize(proposal).value.added) { ParentsStayAvailable(Final(h, st, calls), key); }
  }

  // ---- Without distinct ids ------------------------------------------------------------------------

  /** A root entity `p`, and a proposal that names `x` twice: first below `p`, then as a root. */
  predicate TwiceNamed(p: NewEntity, x: NewEntity, y: NewEntity) {
    && NormalizeNew(p) == Ok(p) && NormalizeNew(x) == Ok(x) && NormalizeNew(y) == Ok(y)
    && p.subclassOf.None? && x.subclassOf == Some(p.id) && y.subclassOf.None? && x.id == y.id && p.id != x.id
  }

  lemma NormalizeOne(p: NewEntity)
    requires NormalizeNew(p) == Ok(p)
    ensures Normalize(Proposal([], [p])) == Ok(Proposal([], [p]))
  {
    assert [p][1..] == [] && NormalizeAllNew([]) == Ok([]) && [p] + [] == [p];
  }

  lemma NormalizePair(x: NewEntity, y: NewEntity)
    requires NormalizeNew(x) == Ok(x) && NormalizeNew(y) == Ok(y)
    ensures Normalize(Proposal([], [x, y])) == Ok(Proposal([], [x, y]))
  {
    NormalizeOne(y);
    assert [x, y][1..] == [y] && NormalizeAllNew([y]) == Ok([y]) && [x] + [y] == [x, y];
  }

  lemma InsertOne(t: Schemas, p: NewEntity, now: string)
    ensures InsertAll(t, [p], now) == t[p.id := Row(p, now)] && NewIds([p]) == {p.id}
  {
    assert [p][1..] == [];
  }

  lemma InsertTwo(t: Schemas, x: NewEntity, y: NewEntity, now: string)
    requires x.id == y.id
    ensures InsertAll(t, [x, y], now) == t[y.id := Row(y, now)] && NewIds([x, y]) == {y.id}
  {
    InsertOne(t[x.id := Row(x, now)], y, now);
    assert [x, y][1..] == [y];
    assert t[x.id := Row(x, now)][y.id := Row(y, now)] == t[y.id := Row(y, now)];
    assert [x, y][1] == y;
  }

  lemma RootCommits(p: NewEntity, now: string)
    requires p.subclassOf.None?
    ensures CommitSchemas(map[], Proposal([], [p]), now) ==
            Ok(SchemaCommit(map[p.id := Row(p, now)],
                            SchemaResult(Proposal([], [p]), map[p.id := None], map[p.id := Row(p, now)])))
  {
    var none: Schemas := map[];
    InsertOne(none, p, now);
    assert ExtendAll(none, []) == Ok(none) && none[p.id := Row(p, now)] == map[p.id := Row(p, now)];
    assert Touched(Proposal([], [p])) == {p.id};
    var r := CommitSchemas(none, Proposal([], [p]), now).value.result;
    assert r.snapshot == map[p.id := None] && r.after == map[p.id := Row(p, now)];
  }

  lemma PairCommits(p: NewEntity, x: NewEntity, y: NewEntity, now: string)
    requires TwiceNamed(p, x, y)
    ensures var c := CommitSchemas(map[p.id := Row(p, now)], Proposal([], [x, y]), now);
            c.Ok? && c.value.schemas == map[p.id := Row(p, now), y.id := Row(y, now)]
  {
    InsertTwo(map[p.id := Row(p, now)], x, y, now);
    assert ParentsAvailable(map[p.id := Row(p, now)], [x, y]);
  }

  lemma RootRestores(p: NewEntity, y: NewEntity, now: string)
    requires p.subclassOf.None? && y.subclassOf.None? && p.id != y.id
    ensures Restore(map[p.id := Row(p, now), y.id := Row(y, now)], map[], map[p.id := None], map[p.id := Row(p, now)])
         == Ok(map[y.id := Row(y, now)])
  {
    var t: Schemas := map[p.id := Row(p, now), y.id := Row(y, now)];
    var snapshot: Snapshot := map[p.id := None];
    assert MayRestore(t, map[], snapshot, map[p.id := Row(p, now)], p.id);
    assert RemovedEntities(snapshot) == {p.id};
    assert Restored(t, snapshot) == map[y.id := Row(y, now)];
  }

  const EMPTY_STORE: Store := Store(map[], State(map[], map[]), map[])

  lemma FirstApplied(h: Host, p: NewEntity, now: string) returns (s1: Store)
    requires NormalizeNew(p) == Ok(p) && p.subclassOf.None?
    ensures s1 == Exec(h, EMPTY_STORE, Propose(Proposal([], [p]), "first", now)).store
    ensures s1.schemas == map[p.id := Row(p, now)] && s1.graph.nodes == map[] && s1.effects.Keys == {"first"}
    ensures s1.effects["first"] ==
            SchemaEntry(SchemaResult(Proposal([], [p]), map[p.id := None], map[p.id := Row(p, now)]), false)
  {
    NormalizeOne(p);
    RootCommits(p, now);
    s1 := Exec(h, EMPTY_STORE, Propose(Proposal([], [p]), "first", now)).store;
  }

  lemma SecondApplied(h: Host, s1: Store, p: NewEntity, x: NewEntity, y: NewEntity, now: string) returns (s2: Store)
    requires TwiceNamed(p, x, y) && s1.schemas == map[p.id := Row(p, now)] && s1.effects.Keys == {"first"}
    ensures s2 == Exec(h, s1, Propose(Proposal([], [x, y]), "second", now)).store
    ensures s2.schemas == map[p.id := Row(p, now), y.id := Row(y, now)] && s2.graph == s1.graph
    ensures s2.effects.Keys == {"first", "second"} && s2.effects["first"] == s1.effects["first"]
    ensures InForce(s2, "second") && s2.effects["second"].outcome.proposal == Proposal([], [x, y])
  {
    NormalizePair(x, y);
    PairCommits(p, x, y, now);
    assert "second" !in s1.effects by { assert "second"[0] != "first"[0]; }
    s2 := Exec(h, s1, Propose(Proposal([], [x, y]), "second", now)).store;
  }

  lemma FirstCompensated(h: Host, s2: Store, p: NewEntity, y: NewEntity, now: string) returns (s3: Store)
    requires p.subclassOf.None? && y.subclassOf.None? && p.id != y.id
    requires s2.schemas == map[p.id := Row(p, now), y.id := Row(y, now)] && s2.graph.nodes == map[]
    requires s2.effects.Keys == {"first", "second"}
    requires s2.effects["first"] ==
             SchemaEntry(SchemaResult(Proposal([], [p]), map[p.id := None], map[p.id := Row(p, now)]), false)
    ensures s3 == Exec(h, s2, Compensate(map[p.id := None], "first")).store
    ensures s3.schemas == map[y.id := Row(y, now)] && s3.effects.Keys == s2.effects.Keys
    ensures s3.effects["second"] == s2.effects["second"]
  {
    RootRestores(p, y, now);
    s3 := Exec(h, s2, Compensate(map[p.id := None], "first")).store;
    assert "second"[0] != "first"[0];
  }

  /** The condition is real: three calls after which an effect is in force and its own proposal, sent
      again, is refused. */
  lemma RepeatedIdLosesReplay(h: Host, p: NewEntity, x: NewEntity, y: NewEntity, now: string)
    requires TwiceNamed(p, x, y)
    ensures var calls := [Propose(Proposal([], [p]), "first", now), Propose(Proposal([], [x, y]), "second", now),
                          Compensate(map[p.id := None], "first")];
            var last := Final(h, EMPTY_STORE, calls);
            && InForce(last, "second")
            && Exec(h, last, Propose(Proposal([], [x, y]), "second", now)).reply == Err(MissingParent)
  {
    var a, b := Propose(Proposal([], [p]), "first", now), Propose(Proposal([], [x, y]), "second", now);
    var c := Compensate(map[p.id := None], "first");
    var s1 := FirstApplied(h, p, now);
    var s2 := SecondApplied(h, s1, p, x, y, now);
    var s3 := FirstCompensated(h, s2, p, y, now);
    NormalizePair(x, y);
    assert [a, b, c][1..] == [b, c] && [b, c][1..] == [c] && [c][1..] == [];
    assert Final(h, s3, []) == s3 && Final(h, s2, [c]) == s3 && Final(h, s1, [b, c]) == s3;
    assert x in [x, y];
  }
}
