/** What every run of calls keeps of the whole store. */
module StoreInvariant {
  import opened Basics
  import opened Ontology
  import opened Graph
  import opened GraphGuard
  import opened SchemaProposals
  import opened SchemaRestore
  import opened Ledger

  /** Recorded schema effects carry evidence as a commit wrote it. */
  ghost predicate LedgerOk(effects: map<string, Entry>) {
    forall k | k in effects && effects[k].SchemaEntry? ::
      EvidenceOk(effects[k].outcome.snapshot, effects[k].outcome.after)
  }

  /** What every store satisfies. */
  ghost predicate StoreOk(st: Store) {
    && TableOk(st.schemas) && ParentsOk(st.schemas)
    && LooseGraph(st.schemas, st.graph)
    && LedgerOk(st.effects)
  }

  lemma RowsAreRegistered(t: Schemas, s: State)
    requires LooseRows(t, s)
    ensures Registered(t, s.nodes)
  {
    forall n | n in s.nodes ensures s.nodes[n].properties.Keys <= Declared(t[s.nodes[n].kind]).Keys {
      assert LooseRow(t, s.nodes[n]);
    }
  }

  lemma {:induction false} NewIdsGiven(es: seq<NewEntity>)
    requires NormalizeAllNew(es).Ok?
    ensures forall e | e in NormalizeAllNew(es).value :: !Blank(e.id)
  {
    if es != [] {
      NewIdsGiven(es[1..]);
    }
  }

  lemma {:induction false} RestoreKeepsTable(t: Schemas, nodes: map<string, Node>, snapshot: Snapshot, after: Schemas)
    requires EvidenceOk(snapshot, after) && Restore(t, nodes, snapshot, after).Ok? && TableOk(t)
    ensures TableOk(Restored(t, snapshot))
  {
    var u := Restored(t, snapshot);
    forall id | id in u ensures id in t {
      if id in snapshot { assert MayRestore(t, nodes, snapshot, after, id); }
    }
  }

  lemma MutateKeeps(h: Host, st: Store, actions: seq<Action>, expected: Option<Guard>, key: string)
    requires StoreOk(st)
    ensures StoreOk(ExecMutate(h, st, actions, expected, key).store)
  {
    if Run(h, st.schemas, st.graph, actions).Ok? {
      RunKeepsLoose(h, st.schemas, st.graph, actions);
    }
  }

  lemma ProposeKeeps(st: Store, proposal: Proposal, key: string, now: string)
    requires StoreOk(st)
    ensures StoreOk(ExecPropose(st, proposal, key, now).store)
  {
    var o := ExecPropose(st, proposal, key, now);
    if o.ran {
      var n := Normalize(proposal).value;
      NewIdsGiven(proposal.added);
      CommitGrows(st.schemas, n, now);
      CommitKeepsLoose(st.schemas, n, now, CommitSchemas(st.schemas, n, now).value, st.graph);
      RowsAreRegistered(st.schemas, st.graph);
      CommitKeepsTable(st.schemas, n, now, st.graph.nodes);
    }
  }

  lemma CompensateKeeps(st: Store, snapshot: Snapshot, key: string)
    requires StoreOk(st)
    ensures StoreOk(ExecCompensate(st, snapshot, key).store)
  {
    if ExecCompensate(st, snapshot, key).ran {
      var after := st.effects[key].outcome.after;
      RestoreKeepsTable(st.schemas, st.graph.nodes, snapshot, after);
      RestoreKeepsParents(st.schemas, st.graph.nodes, snapshot, after);
      RestoreKeepsLoose(st.schemas, st.graph, snapshot, after);
    }
  }

  lemma CallKeeps(h: Host, st: Store, call: Call)
    requires StoreOk(st)
    ensures StoreOk(Exec(h, st, call).store)
  {
    match call
    case Mutate(actions, expected, key) => MutateKeeps(h, st, actions, expected, key);
    case Propose(proposal, key, now) => ProposeKeeps(st, proposal, key, now);
    case Compensate(snapshot, key) => CompensateKeeps(st, snapshot, key);
  }

  /** After any run of graph batches (public or internal), proposals and compensations, under any keys,
      types are registered, properties are declared and well typed but for a derived namespace,
      namespaces match their column, parents resolve, edges have both endpoints, and the ledger's schema
      evidence is sound. */
  lemma {:induction false} EveryRunKeepsStore(h: Host, st: Store, calls: seq<Call>)
    requires StoreOk(st)
    ensures StoreOk(Final(h, st, calls))
    decreases calls
  {
    if calls != [] {
      CallKeeps(h, st, calls[0]);
      EveryRunKeepsStore(h, Exec(h, st, calls[0]).store, calls[1..]);
    }
  }

  // ---- Runs whose proposals leave `namespace` alone ------------------------------------------------

  predicate Polite(call: Call) {
    call.Propose? && Normalize(call.proposal).Ok? ==> NamespaceSafe(Normalize(call.proposal).value)
  }

  ghost predicate Strict(st: Store) {
    StoreOk(st) && TextNamespaces(st.schemas) && WellFormed(st.schemas, st.graph)
  }

  lemma RowsUnderExtension(later: Schemas, t: Schemas, s: State)
    requires Extends(later, t) && RowsOk(t, s)
    ensures RowsOk(later, s)
  {
    forall id | id in s.nodes ensures RowOk(later, s.nodes[id]) {
      assert RowOk(t, s.nodes[id]);
    }
  }

  lemma {:induction false} RestoreKeepsText(t: Schemas, nodes: map<string, Node>, snapshot: Snapshot, after: Schemas)
    requires EvidenceOk(snapshot, after) && Restore(t, nodes, snapshot, after).Ok? && TextNamespaces(t)
    ensures TextNamespaces(Restored(t, snapshot))
  {
    var u := Restored(t, snapshot);
    forall id | id in u ensures Declared(u[id])[NAMESPACE] == PString {
      if id in snapshot {
        assert MayRestore(t, nodes, snapshot, after, id);
        assert Grown(u[id], t[id]);
      }
    }
  }

  lemma TextIsNeverTrapped(h: Host, t: Schemas, actions: seq<Action>)
    requires TextNamespaces(t)
    ensures !EndsTrapped(h, t, actions)
  {
  }

  lemma StrictMutate(h: Host, st: Store, actions: seq<Action>, expected: Option<Guard>, key: string)
    requires Strict(st)
    ensures Strict(ExecMutate(h, st, actions, expected, key).store)
  {
    MutateKeeps(h, st, actions, expected, key);
    if Run(h, st.schemas, st.graph, actions).Ok? {
      TextIsNeverTrapped(h, st.schemas, actions);
      RunKeepsWellFormed(h, st.schemas, st.graph, actions);
    }
  }

  lemma StrictPropose(st: Store, proposal: Proposal, key: string, now: string)
    requires Strict(st) && Polite(Propose(proposal, key, now))
    ensures Strict(ExecPropose(st, proposal, key, now).store)
  {
    ProposeKeeps(st, proposal, key, now);
    var o := ExecPropose(st, proposal, key, now);
    if o.ran {
      var n := Normalize(proposal).value;
      CommitExtends(st.schemas, n, now, CommitSchemas(st.schemas, n, now).value);
      RowsUnderExtension(o.store.schemas, st.schemas, st.graph);
    }
  }

  lemma StrictCompensate(st: Store, snapshot: Snapshot, key: string)
    requires Strict(st)
    ensures Strict(ExecCompensate(st, snapshot, key).store)
  {
    CompensateKeeps(st, snapshot, key);
    if ExecCompensate(st, snapshot, key).ran {
      var after := st.effects[key].outcome.after;
      RestoreKeepsText(st.schemas, st.graph.nodes, snapshot, after);
      RestoreKeepsRows(st.schemas, st.graph, snapshot, after);
    }
  }

  /** When no proposal declares `namespace` as anything but text, every row is well typed throughout. */
  lemma {:induction false} PoliteRunsStayTyped(h: Host, st: Store, calls: seq<Call>)
    requires Strict(st) && forall c | c in calls :: Polite(c)
    ensures Strict(Final(h, st, calls))
    decreases calls
  {
    if calls != [] {
      assert Polite(calls[0]);
      match calls[0] {
        case Mutate(actions, expected, key) => StrictMutate(h, st, actions, expected, key);
        case Propose(proposal, key, now) => StrictPropose(st, proposal, key, now);
        case Compensate(snapshot, key) => StrictCompensate(st, snapshot, key);
      }
      PoliteRunsStayTyped(h, Exec(h, st, calls[0]).store, calls[1..]);
    }
  }
}
