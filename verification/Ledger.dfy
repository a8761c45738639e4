/** The idempotency ledger over graph batches, schema proposals and their compensation. */
module Ledger {
  import opened Basics
  import opened Ontology
  import opened Graph
  import opened GraphGuard
  import opened SchemaProposals
  import opened SchemaRestore

  /** One row of the effect table. The input hash is taken to be injective, so it is the input here. */
  datatype Entry =
    | BatchEntry(actions: seq<Action>, expected: Option<Guard>, result: BatchResult)
    | SchemaEntry(outcome: SchemaResult, compensated: bool)

  /** Everything one database file holds. */
  datatype Store = Store(schemas: Schemas, graph: State, effects: map<string, Entry>)

  datatype Call =
    | Mutate(actions: seq<Action>, expected: Option<Guard>, key: string)
    | Propose(proposal: Proposal, key: string, now: string)
    | Compensate(snapshot: Snapshot, key: string)

  datatype Reply = Batch(batch: BatchResult) | Proposed(schema: SchemaResult) | Done

  /** `ran` says that the call did its work, rather than failing or replaying a recorded answer. */
  datatype Outcome = Outcome(store: Store, reply: Result<Reply>, ran: bool)

  function Refuse(st: Store, error: Error): Outcome {
    Outcome(st, Err(error), false)
  }

  function Record(effects: map<string, Entry>, key: string, entry: Entry): map<string, Entry> {
    if key == "" then effects else effects[key := entry]
  }

  function ExecMutate(h: Host, st: Store, actions: seq<Action>, expected: Option<Guard>, key: string): Outcome {
    if actions == [] then Refuse(st, EmptyBatch)
    else if key != "" && key in st.effects then
      match st.effects[key]
      case BatchEntry(a, e, result) =>
        if a == actions && e == expected then Outcome(st, Ok(Batch(result)), false) else Refuse(st, KeyReused)
      case SchemaEntry(_, _) => Refuse(st, KeyReused)
    else
      var c := Commit(h, st.schemas, st.graph, actions, expected);
      if c.Err? then Refuse(st, c.error)
      else Outcome(
          st.(graph := c.value.state,
              effects := Record(st.effects, key, BatchEntry(actions, expected, c.value.result))),
          Ok(Batch(c.value.result)), true)
  }

  function ExecPropose(st: Store, proposal: Proposal, key: string, now: string): Outcome {
    var n := Normalize(proposal);
    if n.Err? then Refuse(st, n.error)
    else if !ParentsAvailable(st.schemas, n.value.added) then Refuse(st, MissingParent)
    else if key != "" && key in st.effects && !(st.effects[key].SchemaEntry? && st.effects[key].outcome.proposal == n.value)
    then Refuse(st, KeyReused)
    else if key != "" && key in st.effects && !st.effects[key].compensated
    then Outcome(st, Ok(Proposed(st.effects[key].outcome)), false)
    else
      var c := CommitSchemas(st.schemas, n.value, now);
      if c.Err? then Refuse(st, c.error)
      else Outcome(
          st.(schemas := c.value.schemas,
              effects := Record(st.effects, key, SchemaEntry(c.value.result, false))),
          Ok(Proposed(c.value.result)), true)
  }

  function ExecCompensate(st: Store, snapshot: Snapshot, key: string): Outcome {
    if key == "" || key !in st.effects then Refuse(st, Conflict)
    else if !st.effects[key].SchemaEntry? || st.effects[key].outcome.snapshot != snapshot then Refuse(st, Conflict)
    else if st.effects[key].compensated then Outcome(st, Ok(Done), false)
    else
      var restored := Restore(st.schemas, st.graph.nodes, snapshot, st.effects[key].outcome.after);
      if restored.Err? then Refuse(st, restored.error)
      else Outcome(
          st.(schemas := restored.value,
              effects := st.effects[key := SchemaEntry(st.effects[key].outcome, true)]),
          Ok(Done), true)
  }

  function Exec(h: Host, st: Store, call: Call): Outcome {
    match call
    case Mutate(actions, expected, key) => ExecMutate(h, st, actions, expected, key)
    case Propose(proposal, key, now) => ExecPropose(st, proposal, key, now)
    case Compensate(snapshot, key) => ExecCompensate(st, snapshot, key)
  }

  /** The outcomes of a run of calls, one after the other. */
  function ExecAll(h: Host, st: Store, calls: seq<Call>): (outcomes: seq<Outcome>)
    ensures |outcomes| == |calls|
    decreases calls
  {
    if calls == [] then []
    else
      var first := Exec(h, st, calls[0]);
      [first] + ExecAll(h, first.store, calls[1..])
  }

  function Final(h: Host, st: Store, calls: seq<Call>): Store
    decreases calls
  {
    if calls == [] then st else Final(h, Exec(h, st, calls[0]).store, calls[1..])
  }

  /** How often calls under `key` of each kind did their work. */
  datatype Tally = Tally(batches: nat, proposals: nat, compensations: nat)

  function One(call: Call, outcome: Outcome, key: string): Tally {
    if call.key != key || !outcome.ran then Tally(0, 0, 0)
    else match call
      case Mutate(_, _, _) => Tally(1, 0, 0)
      case Propose(_, _, _) => Tally(0, 1, 0)
      case Compensate(_, _) => Tally(0, 0, 1)
  }

  function Count(h: Host, st: Store, calls: seq<Call>, key: string): Tally
    decreases calls
  {
    if calls == [] then Tally(0, 0, 0)
    else
      var first := Exec(h, st, calls[0]);
      var a, b := One(calls[0], first, key), Count(h, first.store, calls[1..], key);
      Tally(a.batches + b.batches, a.proposals + b.proposals, a.compensations + b.compensations)
  }

  /** The key holds a schema effect that is still in force. */
  predicate InForce(st: Store, key: string) {
    key in st.effects && st.effects[key].SchemaEntry? && !st.effects[key].compensated
  }

  predicate HasBatch(st: Store, key: string) {
    key in st.effects && st.effects[key].BatchEntry?
  }

  function Unit(b: bool): int { if b then 1 else 0 }

  /** A call that did not do its work changed nothing at all. */
  lemma OnlyRunningChanges(h: Host, st: Store, call: Call)
    ensures !Exec(h, st, call).ran ==> Exec(h, st, call).store == st
    ensures Exec(h, st, call).ran ==> Exec(h, st, call).reply.Ok?
  {
  }

  /** A recorded batch stays recorded as it is, whatever is called. */
  lemma BatchEntryStays(h: Host, st: Store, call: Call, key: string)
    requires key != "" && HasBatch(st, key)
    ensures var o := Exec(h, st, call);
            HasBatch(o.store, key) && o.store.effects[key] == st.effects[key]
    ensures call.key == key ==> !Exec(h, st, call).ran
  {
  }

  /** One call moves the tally and the ledger together. */
  lemma StepTally(h: Host, st: Store, call: Call, key: string)
    requires key != ""
    ensures var o := Exec(h, st, call);
            var c := One(call, o, key);
            && c.proposals - c.compensations == Unit(InForce(o.store, key)) - Unit(InForce(st, key))
            && c.batches == Unit(HasBatch(o.store, key)) - Unit(HasBatch(st, key))
  {
    if HasBatch(st, key) { BatchEntryStays(h, st, call, key); }
  }

  /** Over a whole run the tally is the difference between the ledgers at its ends. */
  lemma {:induction false} RunTally(h: Host, st: Store, calls: seq<Call>, key: string)
    requires key != ""
    ensures var c := Count(h, st, calls, key);
            && c.proposals - c.compensations == Unit(InForce(Final(h, st, calls), key)) - Unit(InForce(st, key))
            && c.batches == Unit(HasBatch(Final(h, st, calls), key)) - Unit(HasBatch(st, key))
    decreases calls
  {
    if calls != [] {
      StepTally(h, st, calls[0], key);
      RunTally(h, Exec(h, st, calls[0]).store, calls[1..], key);
    }
  }

  /** A successful batch call leaves its own input and answer in the ledger. */
  lemma BatchRecorded(h: Host, st: Store, call: Call)
    requires call.Mutate? && call.key != "" && Exec(h, st, call).reply.Ok?
    ensures var o := Exec(h, st, call);
            && o.reply.value.Batch? && HasBatch(o.store, call.key)
            && o.store.effects[call.key] == BatchEntry(call.actions, call.expected, o.reply.value.batch)
  {
  }

  /** Once recorded, a key answers every equal input with the recorded result and refuses the rest. */
  lemma {:induction false} RecordedAnswers(h: Host, st: Store, calls: seq<Call>, key: string, j: nat)
    requires key != "" && HasBatch(st, key)
    requires j < |calls| && calls[j].Mutate? && calls[j].key == key && calls[j].actions != []
    ensures var e := st.effects[key];
            ExecAll(h, st, calls)[j].reply ==
              if calls[j].actions == e.actions && calls[j].expected == e.expected
              then Ok(Batch(e.result)) else Err(KeyReused)
    decreases calls
  {
    if j > 0 {
      BatchEntryStays(h, st, calls[0], key);
      RecordedAnswers(h, Exec(h, st, calls[0]).store, calls[1..], key, j - 1);
    }
  }

  /** Two successes under one key had the same input and gave the same answer. */
  lemma {:induction false} SameAnswer(h: Host, st: Store, calls: seq<Call>, key: string, i: nat, j: nat)
    requires key != "" && i < j < |calls|
    requires calls[i].Mutate? && calls[i].key == key && ExecAll(h, st, calls)[i].reply.Ok?
    requires calls[j].Mutate? && calls[j].key == key
    ensures ExecAll(h, st, calls)[j].reply.Ok? <==>
              calls[j].actions == calls[i].actions && calls[j].expected == calls[i].expected
    ensures ExecAll(h, st, calls)[j].reply.Ok? ==>
              ExecAll(h, st, calls)[j].reply == ExecAll(h, st, calls)[i].reply
    decreases calls
  {
    var first := Exec(h, st, calls[0]);
    if i == 0 {
      BatchRecorded(h, st, calls[0]);
      assert calls[j] == calls[1..][j - 1];
      assert calls[0].actions != [];
      if calls[j].actions != [] {
        RecordedAnswers(h, first.store, calls[1..], key, j - 1);
      } else {
        EmptyRefused(h, first.store, calls[1..], j - 1);
      }
    } else {
      SameAnswer(h, first.store, calls[1..], key, i - 1, j - 1);
    }
  }

  lemma {:induction false} EmptyRefused(h: Host, st: Store, calls: seq<Call>, j: nat)
    requires j < |calls| && calls[j].Mutate? && calls[j].actions == []
    ensures ExecAll(h, st, calls)[j].reply == Err(EmptyBatch)
    decreases calls
  {
    if j > 0 { EmptyRefused(h, Exec(h, st, calls[0]).store, calls[1..], j - 1); }
  }

  /** Exactly once. In every run of calls from a store that does not know the key, the batch under the
      key is applied at most once, and schema applications minus compensations is 1 while the key holds
      an uncompensated schema effect and 0 otherwise; a key never serves both kinds. */
  lemma ExactlyOnce(h: Host, st: Store, calls: seq<Call>, key: string)
    requires key != "" && key !in st.effects
    ensures var c := Count(h, st, calls, key);
            && c.batches <= 1
            && (c.batches == 1 <==> HasBatch(Final(h, st, calls), key))
            && c.proposals - c.compensations == Unit(InForce(Final(h, st, calls), key))
            && (c.batches == 1 ==> c.proposals == c.compensations == 0)
  {
    RunTally(h, st, calls, key);
    if HasBatch(Final(h, st, calls), key) { BatchExcludesSchema(h, st, calls, key); }
  }

  /** A key that ends up with a batch never carried a schema effect. */
  lemma {:induction false} BatchExcludesSchema(h: Host, st: Store, calls: seq<Call>, key: string)
    requires key != "" && (key in st.effects ==> HasBatch(st, key))
    requires HasBatch(Final(h, st, calls), key)
    ensures Count(h, st, calls, key).proposals == 0 == Count(h, st, calls, key).compensations
    decreases calls
  {
    if calls != [] {
      var o := Exec(h, st, calls[0]);
      if key in o.store.effects && o.store.effects[key].SchemaEntry? {
        SchemaEntryStays(h, o.store, calls[1..], key);
      } else {
        if HasBatch(st, key) { BatchEntryStays(h, st, calls[0], key); }
        BatchExcludesSchema(h, o.store, calls[1..], key);
      }
    }
  }

  lemma {:induction false} SchemaEntryStays(h: Host, st: Store, calls: seq<Call>, key: string)
    requires key != "" && key in st.effects && st.effects[key].SchemaEntry?
    ensures !HasBatch(Final(h, st, calls), key)
    decreases calls
  {
    if calls != [] {
      SchemaEntryStays(h, Exec(h, st, calls[0]).store, calls[1..], key);
    }
  }
}
