/** The committed-state evidence a batch leaves behind, and a whole call that checks such evidence. */
module GraphGuard {
  import opened Basics
  import opened Ontology
  import opened Graph
  import opened GraphReverse
  import opened Text

  // ---- Edge keys as text -------------------------------------------------------------------------

  /** The separator the evidence joins an edge's three texts with. */
  const UNIT_SEPARATOR: char := 31 as char

  function JoinKey(k: EdgeKey): string {
    k.source + [UNIT_SEPARATOR] + k.target + [UNIT_SEPARATOR] + k.kind
  }

  function Parts(text: string): (parts: seq<string>)
    ensures parts != []
  {
    Split(text, UNIT_SEPARATOR)
  }

  predicate Separable(k: EdgeKey) {
    UNIT_SEPARATOR !in k.source && UNIT_SEPARATOR !in k.target && UNIT_SEPARATOR !in k.kind
  }

  function KeyOf(text: string): EdgeKey
    requires |Parts(text)| == 3
  {
    EdgeKey(Parts(text)[0], Parts(text)[1], Parts(text)[2])
  }

  /** An edge key survives its trip through text exactly when no part of it holds the separator. */
  lemma KeyRoundTrip(k: EdgeKey)
    ensures |Parts(JoinKey(k))| == 3 <==> Separable(k)
    ensures Separable(k) ==> KeyOf(JoinKey(k)) == k
  {
    var sep := [UNIT_SEPARATOR];
    SplitCount(JoinKey(k), UNIT_SEPARATOR);
    OccurrencesConcat(k.source + sep + k.target + sep, k.kind, UNIT_SEPARATOR);
    OccurrencesConcat(k.source + sep + k.target, sep, UNIT_SEPARATOR);
    OccurrencesConcat(k.source + sep, k.target, UNIT_SEPARATOR);
    OccurrencesConcat(k.source, sep, UNIT_SEPARATOR);
    assert Occurrences(sep, UNIT_SEPARATOR) == 1;
    NoOccurrence(k.source, UNIT_SEPARATOR);
    NoOccurrence(k.target, UNIT_SEPARATOR);
    NoOccurrence(k.kind, UNIT_SEPARATOR);
    if Separable(k) {
      assert JoinKey(k) == k.source + sep + (k.target + sep + k.kind);
      SplitFirst(k.source, k.target + sep + k.kind, UNIT_SEPARATOR);
      SplitFirst(k.target, k.kind, UNIT_SEPARATOR);
      SplitPlain(k.kind, UNIT_SEPARATOR);
    }
  }

  // ---- Evidence ----------------------------------------------------------------------------------

  /** The semantic part of a record: its type and properties. */
  datatype Record = Record(kind: string, properties: Props)

  /** The evidence of a batch. Incident edges are listed sorted by key, so the list is a map here. */
  datatype Guard = Guard(
    version: int,
    nodes: map<string, Option<Record>>,
    edges: map<string, Option<Props>>,
    incident: map<string, map<EdgeKey, Props>>)

  function ReadNode(s: State, id: string): Option<Record> {
    if id in s.nodes then Some(Record(s.nodes[id].kind, s.nodes[id].properties)) else None
  }

  /** The evidence the graph shows now at the places a reference names. */
  function ReadGuard(s: State, reference: Guard): Result<Guard> {
    if reference.version != 1 then Err(BadEvidence)
    else if exists text :: text in reference.edges && |Parts(text)| != 3 then Err(BadEvidence)
    else Ok(Guard(1,
                  map id | id in reference.nodes :: ReadNode(s, id),
                  map text | text in reference.edges :: ReadEdge(s, KeyOf(text)),
                  map id | id in reference.incident :: IncidentEdges(s.edges, id)))
  }

  /** The places a batch touches, with nothing known about them. */
  function EmptyGuard(actions: seq<Action>): Guard {
    var texts := set k | k in TouchedKeys(actions) :: JoinKey(k);
    Guard(1,
          map id | id in TouchedNodes(actions) :: None,
          map text | text in texts :: None,
          map id | id in TouchedNodes(actions) :: map[])
  }

  function CaptureGuard(s: State, actions: seq<Action>): Result<Guard> {
    ReadGuard(s, EmptyGuard(actions))
  }

  /** What a committed batch reports. */
  datatype BatchResult = BatchResult(actions: seq<Action>, undo: seq<Action>, guard: Guard)

  datatype Committed = Committed(state: State, result: BatchResult)

  /** A whole call without the ledger: evidence check, the batch, evidence capture. */
  function Commit(h: Host, t: Schemas, s: State, actions: seq<Action>, expected: Option<Guard>): Result<Committed> {
    if actions == [] then Err(EmptyBatch)
    else if expected.Some? && ReadGuard(s, expected.value).Err? then Err(BadEvidence)
    else if expected.Some? && ReadGuard(s, expected.value).value != expected.value then Err(Conflict)
    else
      var done := Run(h, t, s, actions);
      if done.Err? then Err(done.error)
      else
        var guard := CaptureGuard(done.value.state, done.value.normalized);
        if guard.Err? then Err(guard.error)
        else Ok(Committed(done.value.state, BatchResult(done.value.normalized, done.value.undo, guard.value)))
  }
}
