/** The client of a subprocess that speaks JSON-RPC 2.0 over its standard streams.

    Tasks interleave only where the program awaits, so every event below is the code between two awaits
    of one task. A call is named by its caller; its request id is drawn later, under the lock. */
module JsonRpc {
  import opened Basics

  datatype Failure =
    | NotRunning
    | NotInitialized
    | Stopped
    | ServerClosed
    | ReaderBroken
    | WriteFailed
    | Oversized
    | MalformedJson
    | NotAnObject
    | WrongVersion
    | BadMethod
    | BothOrNeither

  datatype Answer<V> = Value(value: V) | RpcError(error: V)

  datatype Future<V> = Waiting | Answered(answer: Answer<V>) | Broken(failure: Failure) | Cancelled

  datatype Outcome<V> = Given(answer: Answer<V>) | Failed(failure: Failure) | TimedOut | CallCancelled

  datatype Phase<V> = Checked | Registered | Writing | Sent | Ended(outcome: Outcome<V>)

  datatype Process = Absent | Alive | Exited

  /** The fields of the client, the futures it made, and where each call stands. */
  datatype State<V> = State(
    nextId: nat,
    pending: set<nat>,
    futures: map<nat, Future<V>>,
    error: Option<Failure>,
    process: Process,
    initialized: bool,
    reading: bool,
    stopping: bool,
    calls: map<nat, Phase<V>>,
    ids: map<nat, nat>)

  /** A message's id: missing or null, equal to a number, hashable but no number, or a list or object. */
  datatype MessageId = NoId | Number(n: int) | OtherId | Unhashable

  /** One line of the server's output. A message with a method may need a reply, whose writing may fail. */
  datatype Line<V> =
    | EndOfStream
    | LongLine
    | Undecodable
    | NonObject
    | BadVersion
    | ServerMessage(valid: bool, messageId: MessageId, written: bool)
    | Response(id: MessageId, result: Option<V>, error: Option<V>)

  datatype Event<V> =
    | Open(call: nat, allowUninitialized: bool)
    | Allocate(call: nat)
    | WriteCheck(call: nat)
    | WriteDone(call: nat)
    | WriteBreaks(call: nat)
    | GiveUp(call: nat, timedOut: bool)
    | Resume(call: nat)
    | Deadline(call: nat)
    | NoticeBreaks
    | Receive(line: Line<V>)
    | Exit
    | StopBegins
    | StopEnds
    | Start
    | Initialized

  /** `_fail_transport`: the first failure is kept and given to everyone who waits. */
  function FailTransport<V>(s: State<V>, failure: Failure): (t: State<V>)
    ensures t.nextId == s.nextId && t.ids == s.ids && t.futures.Keys == s.futures.Keys
    ensures t.calls == s.calls
  {
    var first := if s.error.Some? then s.error.value else failure;
    s.(error := Some(first), pending := {},
       futures := map i | i in s.futures ::
         if i in s.pending && s.futures[i].Waiting? then Broken(first) else s.futures[i])
  }

  /** The end of `_read_loop`. */
  function ReaderFails<V>(s: State<V>, failure: Failure): (t: State<V>)
    ensures t.nextId == s.nextId && t.ids == s.ids && t.futures.Keys == s.futures.Keys
    ensures t.calls == s.calls
  {
    if s.stopping then s.(reading := false) else FailTransport(s.(reading := false), failure)
  }

  function ReceiveLine<V>(s: State<V>, line: Line<V>): (t: State<V>)
    ensures t.nextId == s.nextId && t.ids == s.ids && t.futures.Keys == s.futures.Keys
    ensures t.calls == s.calls
  {
    match line
    case EndOfStream => ReaderFails(s, ServerClosed)
    case LongLine => ReaderFails(s, Oversized)
    case Undecodable => ReaderFails(s, MalformedJson)
    case NonObject => ReaderFails(s, NotAnObject)
    case BadVersion => ReaderFails(s, WrongVersion)
    case ServerMessage(valid, id, written) =>
      if !valid then ReaderFails(s, BadMethod)
      else if id.NoId? then s
      else if s.process != Alive then ReaderFails(s, NotRunning)
      else if s.error.Some? then ReaderFails(s, s.error.value)
      else if written then s
      else ReaderFails(FailTransport(s, WriteFailed), WriteFailed)
    case Response(id, result, error) =>
      if id.Unhashable? then ReaderFails(s, ReaderBroken)
      else if !id.Number? || id.n < 0 || id.n !in s.pending then s
      else if result.Some? == error.Some? then ReaderFails(s, BothOrNeither)
      else Settle(s, id.n, if error.Some? then RpcError(error.value) else Value(result.value))
  }

  /** The future leaves the table and, unless it is done, takes the answer. */
  function Settle<V>(s: State<V>, id: nat, answer: Answer<V>): (t: State<V>)
    ensures t.nextId == s.nextId && t.ids == s.ids && t.futures.Keys == s.futures.Keys
    ensures t.calls == s.calls
  {
    var open := id in s.futures && s.futures[id].Waiting?;
    s.(pending := s.pending - {id}, futures := if open then s.futures[id := Answered(answer)] else s.futures)
  }

  /** The call leaves with an outcome; its entry is removed and its future cancelled if still open. */
  function Drop<V>(s: State<V>, call: nat, outcome: Outcome<V>): (t: State<V>)
    requires call in s.ids
    ensures t.nextId == s.nextId && t.ids == s.ids && t.futures.Keys == s.futures.Keys
    ensures t.calls == s.calls[call := Ended(outcome)]
  {
    var id := s.ids[call];
    var open := id in s.pending && id in s.futures && s.futures[id].Waiting?;
    s.(pending := s.pending - {id},
       futures := if open then s.futures[id := Cancelled] else s.futures,
       calls := s.calls[call := Ended(outcome)])
  }

  /** `fut.result()`. */
  function FutureOutcome<V>(f: Future<V>): Outcome<V>
    requires !f.Waiting?
  {
    match f
    case Answered(answer) => Given(answer)
    case Broken(failure) => Failed(failure)
    case Cancelled => CallCancelled
  }

  ghost predicate InPhase<V>(s: State<V>, call: nat, phase: Phase<V>) {
    call in s.calls && s.calls[call] == phase
  }

  /** A call that has its id and still runs. */
  ghost predicate InFlight<V>(s: State<V>, call: nat) {
    call in s.ids && (InPhase(s, call, Registered) || InPhase(s, call, Writing) || InPhase(s, call, Sent))
  }

  predicate Settled<V>(s: State<V>, id: nat) {
    id in s.futures && !s.futures[id].Waiting?
  }

  ghost predicate Possible<V>(s: State<V>, e: Event<V>) {
    match e
    case Open(c, _) => c !in s.calls
    case Allocate(c) => InPhase(s, c, Checked)
    case WriteCheck(c) => InPhase(s, c, Registered) && c in s.ids
    case WriteDone(c) => InPhase(s, c, Writing) && c in s.ids
    case WriteBreaks(c) => InPhase(s, c, Writing) && c in s.ids
    case GiveUp(c, timedOut) => InFlight(s, c) && (timedOut ==> !InPhase(s, c, Sent))
    case Resume(c) => InPhase(s, c, Sent) && c in s.ids && Settled(s, s.ids[c])
    case Deadline(c) => InPhase(s, c, Sent) && c in s.ids
    case NoticeBreaks => true
    case Receive(_) => s.reading
    case Exit => s.process == Alive
    case StopBegins => true
    case StopEnds => s.stopping
    case Start => s.process == Absent
    case Initialized => s.process == Alive && s.error.None?
  }

  function Step<V>(s: State<V>, e: Event<V>): State<V>
    requires Possible(s, e)
  {
    match e
    case Open(c, allowed) =>
      var phase :=
        if s.process != Alive then Ended(Failed(NotRunning))
        else if s.error.Some? then Ended(Failed(s.error.value))
        else if !allowed && !s.initialized then Ended(Failed(NotInitialized))
        else Checked;
      s.(calls := s.calls[c := phase])
    case Allocate(c) =>
      s.(nextId := s.nextId + 1, pending := s.pending + {s.nextId}, futures := s.futures[s.nextId := Waiting],
         calls := s.calls[c := Registered], ids := s.ids[c := s.nextId])
    case WriteCheck(c) =>
      if s.process != Alive then Drop(s, c, Failed(NotRunning))
      else if s.error.Some? then Drop(s, c, Failed(s.error.value))
      else s.(calls := s.calls[c := Writing])
    case WriteDone(c) => s.(calls := s.calls[c := Sent])
    case WriteBreaks(c) => Drop(FailTransport(s, WriteFailed), c, Failed(WriteFailed))
    case GiveUp(c, timedOut) => Drop(s, c, if timedOut then TimedOut else CallCancelled)
    case Resume(c) => s.(calls := s.calls[c := Ended(FutureOutcome(s.futures[s.ids[c]]))])
    case Deadline(c) =>
      var id := s.ids[c];
      if id !in s.pending && Settled(s, id) then Drop(s, c, FutureOutcome(s.futures[id]))
      else Drop(s, c, TimedOut)
    case NoticeBreaks => FailTransport(s, WriteFailed)
    case Receive(line) => ReceiveLine(s, line)
    case Exit => s.(process := Exited)
    case StopBegins => FailTransport(s.(stopping := true, initialized := false), Stopped)
    case StopEnds => s.(reading := false, process := Absent)
    case Start => s.(process := Alive, reading := true, stopping := false, error := None, initialized := false)
    case Initialized => s.(initialized := true)
  }

  function Fresh<V>(): State<V> {
    State(1, {}, map[], None, Absent, false, false, false, map[], map[])
  }

  ghost predicate PossibleRun<V>(s: State<V>, events: seq<Event<V>>)
    decreases events
  {
    events != [] ==> Possible(s, events[0]) && PossibleRun(Step(s, events[0]), events[1..])
  }

  function After<V>(s: State<V>, events: seq<Event<V>>): State<V>
    requires PossibleRun(s, events)
    decreases events
  {
    if events == [] then s else After(Step(s, events[0]), events[1..])
  }

  // ---- What every reachable state keeps ---------------------------------------------------------------

  ghost predicate IdsDrawn<V>(s: State<V>) {
    && (forall c | c in s.ids :: s.ids[c] < s.nextId && s.ids[c] in s.futures && c in s.calls)
    && (forall c, d | c in s.ids && d in s.ids && s.ids[c] == s.ids[d] :: c == d)
    && (forall i | i in s.futures :: i < s.nextId)
  }

  /** The pending table holds exactly the open futures. */
  ghost predicate PendingIsOpen<V>(s: State<V>) {
    forall i :: i in s.pending <==> i in s.futures && s.futures[i].Waiting?
  }

  ghost predicate CallsFit<V>(s: State<V>) {
    && (forall c | c in s.calls && (s.calls[c].Registered? || s.calls[c].Writing? || s.calls[c].Sent?) :: c in s.ids)
    && (forall c | c in s.calls && s.calls[c].Ended? && s.calls[c].outcome.Given? :: c in s.ids)
    && (forall c | c in s.ids && c in s.calls && s.ids[c] in s.futures :: CallFits(s.calls[c], s.futures[s.ids[c]]))
  }

  ghost predicate CallFits<V>(phase: Phase<V>, future: Future<V>) {
    match phase
    case Checked => false
    case Ended(Given(answer)) => future.Answered? && future.answer == answer
    case Ended(_) => !future.Waiting?
    case _ => !future.Cancelled?
  }

  /** After a failure nothing that was written is still waiting. */
  ghost predicate FailedMeansSettled<V>(s: State<V>) {
    s.error.Some? ==>
      (forall c | c in s.ids && (InPhase(s, c, Writing) || InPhase(s, c, Sent)) :: Settled(s, s.ids[c]))
  }

  ghost predicate Inv<V>(s: State<V>) {
    IdsDrawn(s) && PendingIsOpen(s) && CallsFit(s) && FailedMeansSettled(s)
  }

  lemma FailTransportKeeps<V>(s: State<V>, failure: Failure)
    requires Inv(s)
    ensures Inv(FailTransport(s, failure))
    ensures FailTransport(s, failure).pending == {}
  {
  }

  lemma DropKeepsTable<V>(s: State<V>, call: nat, outcome: Outcome<V>)
    requires IdsDrawn(s) && PendingIsOpen(s) && call in s.ids
    ensures IdsDrawn(Drop(s, call, outcome)) && PendingIsOpen(Drop(s, call, outcome))
  {
  }

  lemma DropKeepsCalls<V>(s: State<V>, call: nat, outcome: Outcome<V>)
    requires IdsDrawn(s) && PendingIsOpen(s) && CallsFit(s) && call in s.ids
    requires outcome.Given? ==> s.futures[s.ids[call]] == Answered(outcome.answer)
    ensures CallsFit(Drop(s, call, outcome))
  {
    var t := Drop(s, call, outcome);
    forall c | c in t.ids && c in t.calls && t.ids[c] in t.futures ensures CallFits(t.calls[c], t.futures[t.ids[c]]) {
      if c != call { assert CallFits(s.calls[c], s.futures[s.ids[c]]); }
    }
  }

  lemma DropKeepsSettled<V>(s: State<V>, call: nat, outcome: Outcome<V>)
    requires IdsDrawn(s) && FailedMeansSettled(s) && call in s.ids
    ensures FailedMeansSettled(Drop(s, call, outcome))
  {
    var t := Drop(s, call, outcome);
    if t.error.Some? {
      forall c | c in t.ids && (InPhase(t, c, Writing) || InPhase(t, c, Sent)) ensures Settled(t, t.ids[c]) {
        assert c != call && Settled(s, s.ids[c]);
      }
    }
  }

  lemma DropKeeps<V>(s: State<V>, call: nat, outcome: Outcome<V>)
    requires Inv(s) && call in s.ids
    requires outcome.Given? ==> s.futures[s.ids[call]] == Answered(outcome.answer)
    ensures Inv(Drop(s, call, outcome))
  {
    DropKeepsTable(s, call, outcome);
    DropKeepsCalls(s, call, outcome);
    DropKeepsSettled(s, call, outcome);
  }

  lemma SettleKeeps<V>(s: State<V>, id: nat, answer: Answer<V>)
    requires Inv(s)
    ensures Inv(Settle(s, id, answer))
  {
  }

  lemma ReaderFailsKeeps<V>(s: State<V>, failure: Failure)
    requires Inv(s)
    ensures Inv(ReaderFails(s, failure))
  {
    FailTransportKeeps(s.(reading := false), failure);
  }

  lemma ReceiveKeeps<V>(s: State<V>, line: Line<V>)
    requires Inv(s)
    ensures Inv(ReceiveLine(s, line))
  {
    match line {
      case EndOfStream => ReaderFailsKeeps(s, ServerClosed);
      case LongLine => ReaderFailsKeeps(s, Oversized);
      case Undecodable => ReaderFailsKeeps(s, MalformedJson);
      case NonObject => ReaderFailsKeeps(s, NotAnObject);
      case BadVersion => ReaderFailsKeeps(s, WrongVersion);
      case ServerMessage(valid, id, written) => ServerMessageKeeps(s, valid, id, written);
      case Response(id, result, error) =>
        if id.Unhashable? {
          ReaderFailsKeeps(s, ReaderBroken);
        } else if id.Number? && id.n >= 0 && id.n in s.pending {
          if result.Some? == error.Some? {
            ReaderFailsKeeps(s, BothOrNeither);
          } else {
            SettleKeeps(s, id.n, if error.Some? then RpcError(error.value) else Value(result.value));
          }
        }
    }
  }

  lemma ServerMessageKeeps<V>(s: State<V>, valid: bool, id: MessageId, written: bool)
    requires Inv(s)
    ensures Inv(ReceiveLine(s, ServerMessage(valid, id, written)))
  {
    if !valid {
      ReaderFailsKeeps(s, BadMethod);
    } else if !id.NoId? {
      if s.process != Alive {
        ReaderFailsKeeps(s, NotRunning);
      } else if s.error.Some? {
        ReaderFailsKeeps(s, s.error.value);
      } else if !written {
        FailTransportKeeps(s, WriteFailed);
        ReaderFailsKeeps(FailTransport(s, WriteFailed), WriteFailed);
      }
    }
  }

  lemma OpenKeeps<V>(s: State<V>, call: nat, phase: Phase<V>)
    requires Inv(s) && call !in s.calls && (phase.Ended? ==> phase.outcome.Failed?) && (phase.Checked? || phase.Ended?)
    ensures Inv(s.(calls := s.calls[call := phase]))
  {
  }

  lemma AllocateKeepsTable<V>(s: State<V>, call: nat)
    requires IdsDrawn(s) && PendingIsOpen(s) && call !in s.ids && Possible(s, Allocate(call))
    ensures IdsDrawn(Step(s, Allocate(call))) && PendingIsOpen(Step(s, Allocate(call)))
  {
  }

  lemma AllocateKeepsCalls<V>(s: State<V>, call: nat)
    requires IdsDrawn(s) && CallsFit(s) && call !in s.ids && Possible(s, Allocate(call))
    ensures CallsFit(Step(s, Allocate(call)))
  {
    var t := Step(s, Allocate(call));
    forall c | c in t.ids && c in t.calls && t.ids[c] in t.futures ensures CallFits(t.calls[c], t.futures[t.ids[c]]) {
      if c != call { assert CallFits(s.calls[c], s.futures[s.ids[c]]); }
    }
  }

  lemma AllocateKeepsSettled<V>(s: State<V>, call: nat)
    requires IdsDrawn(s) && FailedMeansSettled(s) && call !in s.ids && Possible(s, Allocate(call))
    ensures FailedMeansSettled(Step(s, Allocate(call)))
  {
    var t := Step(s, Allocate(call));
    if t.error.Some? {
      forall c | c in t.ids && (InPhase(t, c, Writing) || InPhase(t, c, Sent)) ensures Settled(t, t.ids[c]) {
        assert c != call && Settled(s, s.ids[c]);
      }
    }
  }

  lemma AllocateKeeps<V>(s: State<V>, call: nat)
    requires Inv(s) && Possible(s, Allocate(call))
    ensures Inv(Step(s, Allocate(call)))
  {
    assert call !in s.ids;
    AllocateKeepsTable(s, call);
    AllocateKeepsCalls(s, call);
    AllocateKeepsSettled(s, call);
  }

  /** A call that moves on, while its future fits where it goes. */
  lemma MoveKeeps<V>(s: State<V>, call: nat, phase: Phase<V>)
    requires Inv(s) && InFlight(s, call) && CallFits(phase, s.futures[s.ids[call]])
    requires s.error.Some? && (phase.Writing? || phase.Sent?) ==> Settled(s, s.ids[call])
    ensures Inv(s.(calls := s.calls[call := phase]))
  {
  }

  lemma DeadlineKeeps<V>(s: State<V>, call: nat)
    requires Inv(s) && Possible(s, Deadline(call))
    ensures Inv(Step(s, Deadline(call)))
  {
    var id := s.ids[call];
    if id !in s.pending && Settled(s, id) {
      DropKeeps(s, call, FutureOutcome(s.futures[id]));
    } else {
      DropKeeps(s, call, TimedOut);
    }
  }

  lemma WriteCheckKeeps<V>(s: State<V>, call: nat)
    requires Inv(s) && Possible(s, WriteCheck(call))
    ensures Inv(Step(s, WriteCheck(call)))
  {
    if s.process != Alive {
      DropKeeps(s, call, Failed(NotRunning));
    } else if s.error.Some? {
      DropKeeps(s, call, Failed(s.error.value));
    } else {
      MoveKeeps(s, call, Writing);
    }
  }

  lemma WriteBreaksKeeps<V>(s: State<V>, call: nat)
    requires Inv(s) && Possible(s, WriteBreaks(call))
    ensures Inv(Step(s, WriteBreaks(call)))
  {
    FailTransportKeeps(s, WriteFailed);
    DropKeeps(FailTransport(s, WriteFailed), call, Failed(WriteFailed));
  }

  lemma LifecycleKeeps<V>(s: State<V>, e: Event<V>)
    requires Inv(s) && Possible(s, e)
    requires e.Exit? || e.StopEnds? || e.Start? || e.Initialized?
    ensures Inv(Step(s, e))
  {
  }

  lemma StepKeepsInv<V>(s: State<V>, e: Event<V>)
    requires Inv(s) && Possible(s, e)
    ensures Inv(Step(s, e))
  {
    match e {
      case Open(c, _) => OpenKeeps(s, c, Step(s, e).calls[c]);
      case Allocate(c) => AllocateKeeps(s, c);
      case WriteCheck(c) => WriteCheckKeeps(s, c);
      case WriteDone(c) => MoveKeeps(s, c, Sent);
      case WriteBreaks(c) => WriteBreaksKeeps(s, c);
      case GiveUp(c, timedOut) => DropKeeps(s, c, if timedOut then TimedOut else CallCancelled);
      case Resume(c) => MoveKeeps(s, c, Ended(FutureOutcome(s.futures[s.ids[c]])));
      case Deadline(c) => DeadlineKeeps(s, c);
      case NoticeBreaks => FailTransportKeeps(s, WriteFailed);
      case Receive(line) => ReceiveKeeps(s, line);
      case StopBegins => FailTransportKeeps(s.(stopping := true, initialized := false), Stopped);
      case _ => LifecycleKeeps(s, e);
    }
  }

  lemma {:induction false} RunKeepsInv<V>(s: State<V>, events: seq<Event<V>>)
    requires Inv(s) && PossibleRun(s, events)
    ensures Inv(After(s, events))
    decreases events
  {
    if events != [] {
      StepKeepsInv(s, events[0]);
      RunKeepsInv(Step(s, events[0]), events[1..]);
    }
  }

  // ---- Ids -------------------------------------------------------------------------------------------

  ghost predicate IdsGrow<V>(s: State<V>, t: State<V>) {
    && s.nextId <= t.nextId
    && (forall c | c in s.ids :: c in t.ids && t.ids[c] == s.ids[c])
    && (forall c | c in t.ids && c !in s.ids :: t.ids[c] >= s.nextId)
  }

  lemma StepDrawsIds<V>(s: State<V>, e: Event<V>)
    requires Inv(s) && Possible(s, e)
    ensures IdsGrow(s, Step(s, e))
  {
  }

  /** Request ids are never reused, restarts included: a call keeps its id, and a call that draws one
      later draws a greater one than all before it. */
  lemma {:induction false} IdsNeverReused<V>(s: State<V>, events: seq<Event<V>>)
    requires Inv(s) && PossibleRun(s, events)
    ensures IdsGrow(s, After(s, events))
    ensures forall c, d | c in s.ids && d in After(s, events).ids && d !in s.ids ::
              s.ids[c] < After(s, events).ids[d]
    decreases events
  {
    if events != [] {
      StepDrawsIds(s, events[0]);
      StepKeepsInv(s, events[0]);
      IdsNeverReused(Step(s, events[0]), events[1..]);
    }
  }

  // ---- Settling --------------------------------------------------------------------------------------

  /** A well-formed answer to the request with this id. */
  ghost predicate Answers<V>(e: Event<V>, id: nat, answer: Answer<V>) {
    && e.Receive? && e.line.Response? && e.line.id == Number(id)
    && (answer.Value? ==> e.line.result == Some(answer.value) && e.line.error.None?)
    && (answer.RpcError? ==> e.line.error == Some(answer.error) && e.line.result.None?)
  }

  /** The events with which the owner of a request walks away from it. */
  ghost predicate Leaves<V>(s: State<V>, e: Event<V>, id: nat) {
    (e.WriteCheck? || e.GiveUp? || e.Deadline?) && e.call in s.ids && s.ids[e.call] == id
  }

  /** An open future changes only through a message with its id, a transport failure, or its own call;
      and a settled one never changes. */
  ghost predicate SettledRightly<V>(s: State<V>, e: Event<V>, t: State<V>, id: nat)
    requires id in s.futures && id in t.futures
  {
    if s.futures[id].Waiting? then
      match t.futures[id]
      case Waiting => true
      case Answered(answer) => Answers(e, id, answer)
      case Broken(failure) => t.error == Some(failure) && (s.error.Some? ==> s.error == t.error) && t.pending == {}
      case Cancelled => Leaves(s, e, id)
    else t.futures[id] == s.futures[id]
  }

  lemma DropSettles<V>(s: State<V>, call: nat, outcome: Outcome<V>, id: nat)
    requires Inv(s) && call in s.ids && id in s.futures
    ensures Drop(s, call, outcome).futures[id] ==
            if id == s.ids[call] && s.futures[id].Waiting? then Cancelled else s.futures[id]
  {
  }

  lemma FailureSettles<V>(s: State<V>, failure: Failure, id: nat)
    requires Inv(s) && id in s.futures
    ensures var t := FailTransport(s, failure);
            && t.pending == {}
            && (s.error.Some? ==> t.error == s.error)
            && (s.error.None? ==> t.error == Some(failure))
            && t.futures[id] == if s.futures[id].Waiting? then Broken(t.error.value) else s.futures[id]
  {
  }

  lemma ReaderFailureSettles<V>(s: State<V>, failure: Failure, e: Event<V>, id: nat)
    requires Inv(s) && id in s.futures
    ensures SettledRightly(s, e, ReaderFails(s, failure), id)
  {
    FailureSettles(s.(reading := false), failure, id);
  }

  lemma ReceiveSettles<V>(s: State<V>, line: Line<V>, id: nat)
    requires Inv(s) && id in s.futures
    ensures SettledRightly(s, Receive(line), ReceiveLine(s, line), id)
  {
    var e := Receive(line);
    match line {
      case EndOfStream => ReaderFailureSettles(s, ServerClosed, e, id);
      case LongLine => ReaderFailureSettles(s, Oversized, e, id);
      case Undecodable => ReaderFailureSettles(s, MalformedJson, e, id);
      case NonObject => ReaderFailureSettles(s, NotAnObject, e, id);
      case BadVersion => ReaderFailureSettles(s, WrongVersion, e, id);
      case ServerMessage(valid, messageId, written) => ServerMessageSettles(s, valid, messageId, written, id);
      case Response(answered, result, error) =>
        if answered.Unhashable? {
          ReaderFailureSettles(s, ReaderBroken, e, id);
        } else if answered.Number? && answered.n >= 0 && answered.n in s.pending && result.Some? == error.Some? {
          ReaderFailureSettles(s, BothOrNeither, e, id);
        }
    }
  }

  lemma ServerMessageSettles<V>(s: State<V>, valid: bool, messageId: MessageId, written: bool, id: nat)
    requires Inv(s) && id in s.futures
    ensures var e := Receive(ServerMessage(valid, messageId, written));
            SettledRightly(s, e, ReceiveLine(s, e.line), id)
  {
    var e := Receive(ServerMessage(valid, messageId, written));
    ReaderFailureSettles(s, BadMethod, e, id);
  }

  lemma WriteBreaksSettles<V>(s: State<V>, call: nat, id: nat)
    requires Inv(s) && Possible(s, WriteBreaks(call)) && id in s.futures
    ensures SettledRightly(s, WriteBreaks(call), Step(s, WriteBreaks(call)), id)
  {
    FailureSettles(s, WriteFailed, id);
    FailTransportKeeps(s, WriteFailed);
    DropSettles(FailTransport(s, WriteFailed), call, Failed(WriteFailed), id);
  }

  lemma LeavingSettles<V>(s: State<V>, e: Event<V>, id: nat)
    requires Inv(s) && Possible(s, e) && id in s.futures
    requires e.WriteCheck? || e.GiveUp? || e.Deadline?
    ensures SettledRightly(s, e, Step(s, e), id)
  {
    forall outcome ensures Drop(s, e.call, outcome).futures[id] ==
        if id == s.ids[e.call] && s.futures[id].Waiting? then Cancelled else s.futures[id] {
      DropSettles(s, e.call, outcome, id);
    }
  }

  /** Each request settles at most once, and only for one of the four reasons. */
  lemma StepSettles<V>(s: State<V>, e: Event<V>, id: nat)
    requires Inv(s) && Possible(s, e) && id in s.futures
    ensures SettledRightly(s, e, Step(s, e), id)
  {
    match e {
      case Receive(line) => ReceiveSettles(s, line, id);
      case WriteBreaks(c) => WriteBreaksSettles(s, c, id);
      case WriteCheck(_) => LeavingSettles(s, e, id);
      case GiveUp(_, _) => LeavingSettles(s, e, id);
      case Deadline(_) => LeavingSettles(s, e, id);
      case NoticeBreaks => FailureSettles(s, WriteFailed, id);
      case StopBegins => FailureSettles(s.(stopping := true, initialized := false), Stopped, id);
      case _ =>
    }
  }

  /** A well-formed response to an open request is always taken. */
  lemma ResponseIsTaken<V>(s: State<V>, e: Event<V>, id: nat, answer: Answer<V>)
    requires Inv(s) && Possible(s, e) && id in s.pending && Answers(e, id, answer)
    ensures Step(s, e).futures[id] == Answered(answer) && Step(s, e).pending == s.pending - {id}
    ensures Step(s, e).error == s.error && Step(s, e).reading
  {
  }

  lemma {:induction false} SettledStays<V>(s: State<V>, events: seq<Event<V>>, id: nat)
    requires Inv(s) && PossibleRun(s, events) && Settled(s, id)
    ensures id in After(s, events).futures && After(s, events).futures[id] == s.futures[id]
    decreases events
  {
    if events != [] {
      StepKeepsInv(s, events[0]);
      StepSettles(s, events[0], id);
      SettledStays(Step(s, events[0]), events[1..], id);
    }
  }

  /** The i-th event of the run answers a request that is open at that moment. */
  ghost predicate TakenAt<V>(s: State<V>, events: seq<Event<V>>, i: nat, id: nat, answer: Answer<V>)
    requires PossibleRun(s, events)
    decreases events
  {
    i < |events| &&
    if i == 0 then id in s.pending && Answers(events[0], id, answer)
    else TakenAt(Step(s, events[0]), events[1..], i - 1, id, answer)
  }

  lemma AnswerComesFromMessage<V>(s: State<V>, e: Event<V>, id: nat, answer: Answer<V>)
    requires Inv(s) && Possible(s, e) && !Settled(s, id)
    requires id in Step(s, e).futures && Step(s, e).futures[id] == Answered(answer)
    ensures id in s.pending && Answers(e, id, answer)
  {
    if id in s.futures { StepSettles(s, e, id); } else { NewFuturesWait(s, e, id); }
  }

  lemma {:induction false} AnswerWasTaken<V>(s: State<V>, events: seq<Event<V>>, id: nat, answer: Answer<V>)
    returns (i: nat)
    requires Inv(s) && PossibleRun(s, events) && !Settled(s, id)
    requires id in After(s, events).futures && After(s, events).futures[id] == Answered(answer)
    ensures TakenAt(s, events, i, id, answer)
    decreases events
  {
    var t := Step(s, events[0]);
    StepKeepsInv(s, events[0]);
    if Settled(t, id) {
      SettledStays(t, events[1..], id);
      AnswerComesFromMessage(s, events[0], id, answer);
      i := 0;
    } else {
      var j := AnswerWasTaken(t, events[1..], id, answer);
      i := j + 1;
    }
  }

  lemma NewFuturesWait<V>(s: State<V>, e: Event<V>, id: nat)
    requires Inv(s) && Possible(s, e) && id in Step(s, e).futures && id !in s.futures
    ensures Step(s, e).futures[id].Waiting?
  {
  }

  lemma {:induction false} TakenOnce<V>(s: State<V>, events: seq<Event<V>>, i: nat, j: nat, id: nat, a: Answer<V>, b: Answer<V>)
    requires Inv(s) && PossibleRun(s, events)
    requires TakenAt(s, events, i, id, a) && TakenAt(s, events, j, id, b)
    ensures i == j
    decreases events
  {
    StepKeepsInv(s, events[0]);
    if i == 0 < j {
      ResponseIsTaken(s, events[0], id, a);
      NeverTakenAgain(Step(s, events[0]), events[1..], j - 1, id, b);
    } else if j == 0 < i {
      ResponseIsTaken(s, events[0], id, b);
      NeverTakenAgain(Step(s, events[0]), events[1..], i - 1, id, a);
    } else if i > 0 && j > 0 {
      TakenOnce(Step(s, events[0]), events[1..], i - 1, j - 1, id, a, b);
    }
  }

  lemma {:induction false} NeverTakenAgain<V>(s: State<V>, events: seq<Event<V>>, i: nat, id: nat, answer: Answer<V>)
    requires Inv(s) && PossibleRun(s, events) && Settled(s, id)
    ensures !TakenAt(s, events, i, id, answer)
    decreases events
  {
    if i > 0 && i < |events| {
      StepKeepsInv(s, events[0]);
      StepSettles(s, events[0], id);
      NeverTakenAgain(Step(s, events[0]), events[1..], i - 1, id, answer);
    }
  }

  /** Correlation over whole runs of a new client: a call that returned an answer has a request id, and
      exactly one message of the run answered that id while the request was open, with that answer. */
  lemma AnswersAreCorrelated<V>(events: seq<Event<V>>, call: nat, answer: Answer<V>) returns (i: nat)
    requires PossibleRun(Fresh<V>(), events) && InPhase(After(Fresh<V>(), events), call, Ended(Given(answer)))
    ensures call in After(Fresh<V>(), events).ids
    ensures TakenAt(Fresh<V>(), events, i, After(Fresh<V>(), events).ids[call], answer)
    ensures forall j: nat, b |
              TakenAt(Fresh<V>(), events, j, After(Fresh<V>(), events).ids[call], b) :: j == i
  {
    var s := Fresh<V>();
    RunKeepsInv(s, events);
    var id := After(s, events).ids[call];
    i := AnswerWasTaken(s, events, id, answer);
    forall j: nat, b | TakenAt(s, events, j, id, b) ensures j == i {
      TakenOnce(s, events, i, j, id, answer, b);
    }
  }

  // ---- Transport failure -------------------------------------------------------------------------------

  ghost predicate NoStart<V>(events: seq<Event<V>>) {
    forall e | e in events :: !e.Start?
  }

  /** The events that can fail the transport. */
  ghost predicate CanFail<V>(e: Event<V>) {
    e.WriteBreaks? || e.NoticeBreaks? || e.Receive? || e.StopBegins?
  }

  lemma OnlyTheseFail<V>(s: State<V>, e: Event<V>)
    requires Possible(s, e) && !CanFail(e)
    ensures if e.Start? then Step(s, e).error.None? else Step(s, e).error == s.error
  {
  }

  lemma FailureEmptiesTable<V>(s: State<V>, e: Event<V>)
    requires Inv(s) && Possible(s, e) && s.error.None? && Step(s, e).error.Some?
    ensures Step(s, e).pending == {}
    ensures CanFail(e)
  {
    if !CanFail(e) { OnlyTheseFail(s, e); }
  }

  /** The step that first fails the transport gives that failure to every open request. */
  lemma FailureReaches<V>(s: State<V>, e: Event<V>, id: nat)
    requires Inv(s) && Possible(s, e) && s.error.None? && Step(s, e).error.Some? && id in s.pending
    ensures Step(s, e).futures[id] == Broken(Step(s, e).error.value)
  {
    FailureEmptiesTable(s, e);
    StepKeepsInv(s, e);
    StepSettles(s, e, id);
    forall answer | Answers(e, id, answer) ensures false { ResponseIsTaken(s, e, id, answer); }
  }

  /** The call that an event belongs to. */
  ghost predicate Concerns<V>(e: Event<V>, call: nat) {
    match e
    case Open(c, _) => c == call
    case Allocate(c) => c == call
    case WriteCheck(c) => c == call
    case WriteDone(c) => c == call
    case WriteBreaks(c) => c == call
    case GiveUp(c, _) => c == call
    case Resume(c) => c == call
    case Deadline(c) => c == call
    case _ => false
  }

  /** An event of one call leaves the others alone, and other events leave all of them. */
  lemma CallsChange<V>(s: State<V>, e: Event<V>)
    requires Possible(s, e)
    ensures CanFail(e) && !e.WriteBreaks? ==> Step(s, e).calls == s.calls
    ensures e.WriteBreaks? ==> Step(s, e).calls == s.calls[e.call := Ended(Failed(WriteFailed))]
  {
  }

  lemma OthersStay<V>(s: State<V>, e: Event<V>, call: nat)
    requires Possible(s, e) && !Concerns(e, call)
    ensures call in s.calls <==> call in Step(s, e).calls
    ensures call in s.calls ==> Step(s, e).calls[call] == s.calls[call]
  {
    if CanFail(e) { CallsChange(s, e); } else { OtherCallsStay(s, e, call); }
  }

  lemma OtherCallsStay<V>(s: State<V>, e: Event<V>, call: nat)
    requires Possible(s, e) && !Concerns(e, call) && !CanFail(e)
    ensures call in s.calls <==> call in Step(s, e).calls
    ensures call in s.calls ==> Step(s, e).calls[call] == s.calls[call]
  {
    if e.Exit? || e.StopEnds? || e.Start? || e.Initialized? {
    } else {
      OneCallChanges(s, e);
    }
  }

  /** An event of a call changes the phase of that call alone. */
  lemma OneCallChanges<V>(s: State<V>, e: Event<V>)
    requires Possible(s, e) && !CanFail(e) && !e.Exit? && !e.StopEnds? && !e.Start? && !e.Initialized?
    ensures e.call in Step(s, e).calls && Step(s, e).calls == s.calls[e.call := Step(s, e).calls[e.call]]
  {
  }

  lemma EndedCallStays<V>(s: State<V>, e: Event<V>, call: nat)
    requires Possible(s, e) && call in s.calls && s.calls[call].Ended?
    ensures !Concerns(e, call)
  {
  }

  lemma {:induction false} EndedStays<V>(s: State<V>, events: seq<Event<V>>, call: nat)
    requires PossibleRun(s, events) && call in s.calls && s.calls[call].Ended?
    ensures call in After(s, events).calls && After(s, events).calls[call] == s.calls[call]
    decreases events
  {
    if events != [] {
      EndedCallStays(s, events[0], call);
      OthersStay(s, events[0], call);
      EndedStays(Step(s, events[0]), events[1..], call);
    }
  }

  /** The event that ends a call, and the state it meets. */
  datatype Moment<V> = Moment(state: State<V>, event: Event<V>)

  ghost predicate Ends<V>(s: State<V>, e: Event<V>, call: nat)
    requires Possible(s, e)
  {
    Concerns(e, call) && call in Step(s, e).calls && Step(s, e).calls[call].Ended?
  }

  ghost function Ending<V>(s: State<V>, events: seq<Event<V>>, call: nat): (m: Option<Moment<V>>)
    requires PossibleRun(s, events)
    ensures m.Some? ==> Possible(m.value.state, m.value.event) && Ends(m.value.state, m.value.event, call)
    decreases events
  {
    if events == [] then None
    else if Ends(s, events[0], call) then Some(Moment(s, events[0]))
    else Ending(Step(s, events[0]), events[1..], call)
  }

  /** How an event ends a call whose request took `first`, the failure of the transport. A call that has
      not begun to write looks at the process before the recorded failure, and one whose own write breaks
      reports that; only a call that is waiting for its answer looks at its request. */
  function EndedBy<V>(m: Moment<V>, first: Failure): Outcome<V>
    requires m.event.WriteCheck? && m.state.process == Alive ==> m.state.error.Some?
  {
    match m.event
    case WriteCheck(_) => if m.state.process != Alive then Failed(NotRunning) else Failed(m.state.error.value)
    case WriteBreaks(_) => Failed(WriteFailed)
    case GiveUp(_, timedOut) => if timedOut then TimedOut else CallCancelled
    case _ => Failed(first)
  }

  /** The call has its request, which took the failure, and still runs. */
  ghost predicate Struck<V>(s: State<V>, call: nat, first: Failure) {
    Inv(s) && InFlight(s, call) && s.ids[call] in s.futures && s.futures[s.ids[call]] == Broken(first)
  }

  lemma StruckStep<V>(s: State<V>, e: Event<V>, call: nat, first: Failure)
    requires Struck(s, call, first) && Possible(s, e)
    ensures if Ends(s, e, call)
            then (e.WriteCheck? && s.process == Alive ==> s.error.Some?)
              && Step(s, e).calls[call] == Ended(EndedBy(Moment(s, e), first))
            else Struck(Step(s, e), call, first)
  {
    StepKeepsInv(s, e);
    StepSettles(s, e, s.ids[call]);
    StepDrawsIds(s, e);
    if !Concerns(e, call) { OthersStay(s, e, call); }
  }

  /** From the moment its request took the failure, a call still runs or ends in the way of its ending
      event, over every later run. */
  lemma {:induction false} StruckRun<V>(s: State<V>, events: seq<Event<V>>, call: nat, first: Failure)
    requires Struck(s, call, first) && PossibleRun(s, events)
    ensures var m := Ending(s, events, call);
            if m.None? then Struck(After(s, events), call, first)
            else
              && (m.value.event.WriteCheck? && m.value.state.process == Alive ==> m.value.state.error.Some?)
              && InPhase(After(s, events), call, Ended(EndedBy(m.value, first)))
    decreases events
  {
    if events != [] {
      var t := Step(s, events[0]);
      StruckStep(s, events[0], call, first);
      if Ends(s, events[0], call) {
        EndedStays(t, events[1..], call);
      } else {
        StruckRun(t, events[1..], call, first);
      }
    }
  }

  lemma PendingIsInFlight<V>(s: State<V>, call: nat)
    requires Inv(s) && call in s.ids && s.ids[call] in s.pending
    ensures InFlight(s, call)
  {
    assert CallFits(s.calls[call], s.futures[s.ids[call]]);
  }

  /** The failing step itself ends at most the call whose write broke. */
  lemma FailureStrikes<V>(s: State<V>, e: Event<V>, call: nat)
    requires Inv(s) && Possible(s, e) && s.error.None? && Step(s, e).error.Some?
    requires call in s.ids && s.ids[call] in s.pending
    ensures var t := Step(s, e);
            if e == WriteBreaks(call) then InPhase(t, call, Ended(Failed(t.error.value)))
            else Struck(t, call, t.error.value) && t.calls[call] == s.calls[call]
  {
    PendingIsInFlight(s, call);
    FailureReaches(s, e, s.ids[call]);
    FailureEmptiesTable(s, e);
    StepKeepsInv(s, e);
    StepDrawsIds(s, e);
    if e != WriteBreaks(call) { OthersStay(s, e, call); }
  }

  /** The ending that reports the first failure. */
  ghost predicate ReportsFirst<V>(m: Moment<V>, first: Failure) {
    match m.event
    case WriteCheck(_) => if m.state.process != Alive then first == NotRunning else m.state.error == Some(first)
    case WriteBreaks(_) => first == WriteFailed
    case GiveUp(_, _) => false
    case _ => true
  }

  lemma EndedByFirst<V>(m: Moment<V>, first: Failure)
    requires m.event.WriteCheck? && m.state.process == Alive ==> m.state.error.Some?
    ensures EndedBy(m, first) == Failed(first) <==> ReportsFirst(m, first)
  {
  }

  /** When the transport first fails, what becomes of every call with an open request, over every later
      run, restarts included. It still runs, or it ended in the way of its ending event; and it ended with
      the first failure exactly when that event resumes it, meets its deadline, is a write check that finds
      the process alive and this failure recorded, or reports an equal failure of its own. */
  lemma FirstFailureEndsEveryCall<V>(s: State<V>, e: Event<V>, events: seq<Event<V>>, call: nat)
    requires Inv(s) && Possible(s, e) && s.error.None? && Step(s, e).error.Some?
    requires call in s.ids && s.ids[call] in s.pending && PossibleRun(Step(s, e), events)
    ensures var first, t := Step(s, e).error.value, After(Step(s, e), events);
            var m := Ending(Step(s, e), events, call);
            if e == WriteBreaks(call) then InPhase(t, call, Ended(Failed(first)))
            else if m.None? then InFlight(t, call)
            else
              && (m.value.event.WriteCheck? && m.value.state.process == Alive ==> m.value.state.error.Some?)
              && InPhase(t, call, Ended(EndedBy(m.value, first)))
              && (InPhase(t, call, Ended(Failed(first))) <==> ReportsFirst(m.value, first))
  {
    FailureStrikes(s, e, call);
    if e == WriteBreaks(call) {
      EndedStays(Step(s, e), events, call);
    } else {
      StruckRun(Step(s, e), events, call, Step(s, e).error.value);
      var m := Ending(Step(s, e), events, call);
      if m.Some? { EndedByFirst(m.value, Step(s, e).error.value); }
    }
  }

  /** A call that was already waiting for its answer ends with the first failure, unless its own caller
      cancels it. */
  lemma SentCallsGetFirst<V>(s: State<V>, e: Event<V>, events: seq<Event<V>>, call: nat)
    requires Inv(s) && Possible(s, e) && s.error.None? && Step(s, e).error.Some?
    requires InPhase(s, call, Sent) && s.ids[call] in s.pending && PossibleRun(Step(s, e), events)
    ensures var first, t := Step(s, e).error.value, After(Step(s, e), events);
            || InPhase(t, call, Sent)
            || InPhase(t, call, Ended(CallCancelled))
            || InPhase(t, call, Ended(Failed(first)))
  {
    FailureStrikes(s, e, call);
    SentStays(Step(s, e), events, call, Step(s, e).error.value);
  }

  lemma SentStep<V>(s: State<V>, e: Event<V>, call: nat, first: Failure)
    requires Struck(s, call, first) && InPhase(s, call, Sent) && Possible(s, e)
    ensures Ends(s, e, call) ==>
      Step(s, e).calls[call] == Ended(CallCancelled) || Step(s, e).calls[call] == Ended(Failed(first))
    ensures !Ends(s, e, call) ==> Struck(Step(s, e), call, first) && InPhase(Step(s, e), call, Sent)
  {
    StruckStep(s, e, call, first);
    if !Concerns(e, call) { OthersStay(s, e, call); }
  }

  lemma {:induction false} SentStays<V>(s: State<V>, events: seq<Event<V>>, call: nat, first: Failure)
    requires Struck(s, call, first) && InPhase(s, call, Sent) && PossibleRun(s, events)
    ensures var t := After(s, events);
            || InPhase(t, call, Sent)
            || InPhase(t, call, Ended(CallCancelled))
            || InPhase(t, call, Ended(Failed(first)))
    decreases events
  {
    if events != [] {
      SentStep(s, events[0], call, first);
      if Ends(s, events[0], call) {
        EndedStays(Step(s, events[0]), events[1..], call);
      } else {
        SentStays(Step(s, events[0]), events[1..], call, first);
      }
    }
  }

  /** A client that is up, with one call registered and not yet written. */
  function OneRegistered<V>(): State<V> {
    State(2, {1}, map[1 := Waiting], None, Alive, true, true, false, map[0 := Registered], map[0 := 1])
  }

  lemma OneRegisteredIsReached<V>()
    ensures var events: seq<Event<V>> := [Start, Initialized, Open(0, false), Allocate(0)];
            PossibleRun(Fresh<V>(), events) && After(Fresh<V>(), events) == OneRegistered<V>()
  {
    var s1 := Step(Fresh<V>(), Start);
    var s2 := Step(s1, Initialized);
    var s3 := Step(s2, Open(0, false));
    var s4 := Step(s3, Allocate(0));
    assert s4 == OneRegistered<V>();
    RunFour(Fresh<V>(), Start, Initialized, Open(0, false), Allocate(0));
  }

  lemma RunCons<V>(s: State<V>, a: Event<V>, rest: seq<Event<V>>)
    requires Possible(s, a) && PossibleRun(Step(s, a), rest)
    ensures PossibleRun(s, [a] + rest) && After(s, [a] + rest) == After(Step(s, a), rest)
  {
    assert ([a] + rest)[1..] == rest;
  }

  lemma RunFour<V>(s: State<V>, a: Event<V>, b: Event<V>, c: Event<V>, d: Event<V>)
    requires Possible(s, a) && Possible(Step(s, a), b) && Possible(Step(Step(s, a), b), c)
    requires Possible(Step(Step(Step(s, a), b), c), d)
    ensures PossibleRun(s, [a, b, c, d])
    ensures After(s, [a, b, c, d]) == Step(Step(Step(Step(s, a), b), c), d)
  {
    RunThree(Step(s, a), b, c, d);
    RunCons(s, a, [b, c, d]);
    assert [a] + [b, c, d] == [a, b, c, d];
  }

  lemma RunThree<V>(s: State<V>, a: Event<V>, b: Event<V>, c: Event<V>)
    requires Possible(s, a) && Possible(Step(s, a), b) && Possible(Step(Step(s, a), b), c)
    ensures PossibleRun(s, [a, b, c]) && After(s, [a, b, c]) == Step(Step(Step(s, a), b), c)
  {
    var t := Step(Step(s, a), b);
    RunCons(t, c, []);
    RunCons(Step(s, a), b, [c]);
    RunCons(s, a, [b, c]);
    assert [c] + [] == [c] && [b] + [c] == [b, c] && [a] + [b, c] == [a, b, c];
  }

  /** The write check's order is real: the output closes, the process is gone, and the registered call
      ends with "not running" although the recorded failure is the closing. */
  lemma RegisteredCallMissesFirst<V>()
    ensures var events: seq<Event<V>> := [Receive(EndOfStream), Exit, WriteCheck(0)];
            && PossibleRun(OneRegistered<V>(), events)
            && After(OneRegistered<V>(), events).error == Some(ServerClosed)
            && InPhase(After(OneRegistered<V>(), events), 0, Ended(Failed(NotRunning)))
  {
    RunThree(OneRegistered<V>(), Receive(EndOfStream), Exit, WriteCheck(0));
  }

  /** So is a call's own write: while it writes the output closes, and the write breaks. */
  lemma WritingCallMissesFirst<V>()
    ensures var events: seq<Event<V>> := [WriteCheck(0), Receive(EndOfStream), WriteBreaks(0)];
            && PossibleRun(OneRegistered<V>(), events)
            && After(OneRegistered<V>(), events).error == Some(ServerClosed)
            && InPhase(After(OneRegistered<V>(), events), 0, Ended(Failed(WriteFailed)))
  {
    RunThree(OneRegistered<V>(), WriteCheck(0), Receive(EndOfStream), WriteBreaks(0));
  }

  /** Already answered, or already returned. */
  ghost predicate HasAnswer<V>(s: State<V>, call: nat, answer: Answer<V>) {
    && call in s.calls && call in s.ids && s.ids[call] in s.futures
    && (s.calls[call].Writing? || s.calls[call].Sent? || s.calls[call] == Ended(Given(answer)))
    && s.futures[s.ids[call]] == Answered(answer)
  }

  lemma NoNewAnswer<V>(s: State<V>, e: Event<V>, call: nat, answer: Answer<V>)
    requires Inv(s) && Possible(s, e) && s.error.Some? && !e.Start? && HasAnswer(Step(s, e), call, answer)
    ensures HasAnswer(s, call, answer)
  {
    if Concerns(e, call) {
      NoNewAnswerHere(s, e, call, answer);
    } else {
      OthersStay(s, e, call);
      StepDrawsIds(s, e);
      IdsOfOthers(s, e, call);
      StepSettles(s, e, s.ids[call]);
    }
  }

  lemma IdsOfOthers<V>(s: State<V>, e: Event<V>, call: nat)
    requires Possible(s, e) && !Concerns(e, call) && call in Step(s, e).ids
    ensures call in s.ids
  {
  }

  lemma NoNewAnswerHere<V>(s: State<V>, e: Event<V>, call: nat, answer: Answer<V>)
    requires Inv(s) && Possible(s, e) && s.error.Some? && Concerns(e, call) && HasAnswer(Step(s, e), call, answer)
    ensures HasAnswer(s, call, answer)
  {
  }

  lemma ErrorStays<V>(s: State<V>, e: Event<V>)
    requires Possible(s, e) && s.error.Some? && !e.Start?
    ensures Step(s, e).error == s.error
  {
    if !CanFail(e) { OnlyTheseFail(s, e); }
  }

  /** After a transport failure and before a restart no call succeeds that was not answered before:
      neither a new one nor one that had passed its checks and not yet been written. */
  lemma {:induction false} NoSuccessAfterFailure<V>(s: State<V>, events: seq<Event<V>>, call: nat, answer: Answer<V>)
    requires Inv(s) && PossibleRun(s, events) && s.error.Some? && NoStart(events)
    requires InPhase(After(s, events), call, Ended(Given(answer)))
    ensures HasAnswer(s, call, answer)
    ensures After(s, events).error == s.error
    decreases events
  {
    if events != [] {
      assert events[0] in events;
      StepKeepsInv(s, events[0]);
      ErrorStays(s, events[0]);
      NoSuccessAfterFailure(Step(s, events[0]), events[1..], call, answer);
      NoNewAnswer(s, events[0], call, answer);
    }
  }
}
