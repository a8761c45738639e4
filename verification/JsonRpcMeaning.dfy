/** What each event does to the client, in terms of its fields alone. */
module JsonRpcMeaning {
  import opened Basics
  import opened JsonRpc

  // ---- Parts of the state ----------------------------------------------------------------------------

  ghost predicate SameProcess<V>(s: State<V>, t: State<V>) {
    t.process == s.process && t.initialized == s.initialized && t.stopping == s.stopping
  }

  ghost predicate SameRequests<V>(s: State<V>, t: State<V>) {
    t.nextId == s.nextId && t.pending == s.pending && t.futures == s.futures && t.ids == s.ids
  }

  ghost predicate SameCallsBut<V>(s: State<V>, t: State<V>, call: nat) {
    && t.calls.Keys == s.calls.Keys + {call}
    && forall c | c in s.calls && c != call :: t.calls[c] == s.calls[c]
  }

  /** The transport has failed: the first failure is recorded, no request is open any more, and each one that was
      is broken with the recorded failure. */
  ghost predicate Broke<V>(s: State<V>, t: State<V>, failure: Failure) {
    && t.error == (if s.error == None then Some(failure) else s.error)
    && t.nextId == s.nextId && t.ids == s.ids && t.pending == {}
    && t.futures.Keys == s.futures.Keys
    && forall i | i in s.futures :: t.futures[i] == if s.futures[i] == Waiting then Broken(t.error.value) else s.futures[i]
  }

  /** One request is no longer open; if it was, its future has become `f`. */
  ghost predicate Closed<V>(s: State<V>, t: State<V>, id: nat, f: Future<V>) {
    && t.nextId == s.nextId && t.ids == s.ids && t.error == s.error
    && (forall i :: i in t.pending <==> i in s.pending && i != id)
    && t.futures.Keys == s.futures.Keys
    && forall i | i in s.futures :: t.futures[i] == if i == id && s.futures[i] == Waiting then f else s.futures[i]
  }

  // ---- One line of output ----------------------------------------------------------------------------

  /** A request of the server is answered; the answer goes out unless the process is gone, the transport has failed, or
      the write breaks. */
  ghost function ReplyFault<V>(s: State<V>, written: bool): Option<Failure> {
    if s.process == Absent || s.process == Exited then Some(NotRunning)
    else if s.error != None then s.error
    else if written then None
    else Some(WriteFailed)
  }

  /** The failure that a line brings, if it brings one. */
  ghost function Fault<V>(s: State<V>, line: Line<V>): Option<Failure> {
    match line
    case EndOfStream => Some(ServerClosed)
    case LongLine => Some(Oversized)
    case Undecodable => Some(MalformedJson)
    case NonObject => Some(NotAnObject)
    case BadVersion => Some(WrongVersion)
    case ServerMessage(false, _, _) => Some(BadMethod)
    case ServerMessage(true, NoId, _) => None
    case ServerMessage(true, _, written) => ReplyFault(s, written)
    case Response(Unhashable, _, _) => Some(ReaderBroken)
    case Response(Number(n), Some(_), Some(_)) => if n >= 0 && n in s.pending then Some(BothOrNeither) else None
    case Response(Number(n), None, None) => if n >= 0 && n in s.pending then Some(BothOrNeither) else None
    case Response(_, _, _) => None
  }

  /** The answer that a line carries to an open request. */
  ghost function Carried<V>(s: State<V>, line: Line<V>): Option<(nat, Answer<V>)> {
    match line
    case Response(Number(n), Some(v), None) => if n >= 0 && n in s.pending then Some((n, Value(v))) else None
    case Response(Number(n), None, Some(v)) => if n >= 0 && n in s.pending then Some((n, RpcError(v))) else None
    case _ => None
  }

  /** A line that brings a failure ends the reading and, unless the client is stopping or a reply broke, fails the
      transport; one that carries an answer settles its request; any other changes nothing. */
  ghost predicate Reads<V>(s: State<V>, line: Line<V>, t: State<V>) {
    && SameProcess(s, t) && t.calls == s.calls
    && match Fault(s, line)
       case Some(failure) => EndsReading(s, t, failure, BreaksReply(s, line))
       case None =>
         && t.reading == s.reading && t.error == s.error
         && match Carried(s, line)
            case Some((id, answer)) => Closed(s, t, id, Answered(answer))
            case None => SameRequests(s, t)
  }

  /** A reply to the server that could not be written. */
  ghost predicate BreaksReply<V>(s: State<V>, line: Line<V>) {
    line.ServerMessage? && line.valid && line.messageId != NoId && !line.written && s.process == Alive && s.error == None
  }

  ghost predicate EndsReading<V>(s: State<V>, t: State<V>, failure: Failure, broken: bool) {
    && !t.reading
    && if s.stopping && !broken then SameRequests(s, t) && t.error == s.error else Broke(s, t, failure)
  }

  lemma FailureBreaks<V>(s: State<V>, failure: Failure)
    requires Inv(s)
    ensures Broke(s, FailTransport(s, failure), failure)
  {
  }

  lemma ReaderFailureMeans<V>(s: State<V>, failure: Failure)
    requires Inv(s)
    ensures var t := ReaderFails(s, failure);
            SameProcess(s, t) && t.calls == s.calls && EndsReading(s, t, failure, false)
  {
    FailureBreaks(s.(reading := false), failure);
  }

  lemma BrokenTwice<V>(s: State<V>, failure: Failure)
    requires Inv(s)
    ensures var t := ReaderFails(FailTransport(s, failure), failure);
            SameProcess(s, t) && t.calls == s.calls && EndsReading(s, t, failure, true)
  {
    FailureBreaks(s, failure);
    FailTransportKeeps(s, failure);
    ReaderFailureMeans(FailTransport(s, failure), failure);
  }

  lemma ReplyMeans<V>(s: State<V>, id: MessageId, written: bool)
    requires Inv(s) && !id.NoId?
    ensures var line := ServerMessage(true, id, written);
            Reads(s, line, ReceiveLine(s, line))
  {
    var line := ServerMessage(true, id, written);
    assert Fault(s, line) == ReplyFault(s, written);
    if s.process != Alive {
      ReaderFailureMeans(s, NotRunning);
    } else if s.error.Some? {
      ReaderFailureMeans(s, s.error.value);
    } else if !written {
      BrokenTwice(s, WriteFailed);
      assert BreaksReply(s, line);
    }
  }

  lemma ServerMessageMeans<V>(s: State<V>, valid: bool, id: MessageId, written: bool)
    requires Inv(s)
    ensures Reads(s, ServerMessage(valid, id, written), ReceiveLine(s, ServerMessage(valid, id, written)))
  {
    if !valid {
      ReaderFailureMeans(s, BadMethod);
    } else if !id.NoId? {
      ReplyMeans(s, id, written);
    }
  }

  lemma AnswerMeans<V>(s: State<V>, n: int, answer: Answer<V>)
    requires Inv(s) && n >= 0 && n in s.pending
    ensures var line := if answer.RpcError? then Response(Number(n), None, Some(answer.error))
                        else Response(Number(n), Some(answer.value), None);
            Reads(s, line, ReceiveLine(s, line))
  {
  }

  lemma BadResponseMeans<V>(s: State<V>, id: MessageId, result: Option<V>, error: Option<V>)
    requires Inv(s)
    requires id.Unhashable? || (id.Number? && id.n >= 0 && id.n in s.pending && result.Some? == error.Some?)
    ensures Reads(s, Response(id, result, error), ReceiveLine(s, Response(id, result, error)))
  {
    ReaderFailureMeans(s, if id.Unhashable? then ReaderBroken else BothOrNeither);
  }

  lemma ResponseMeans<V>(s: State<V>, id: MessageId, result: Option<V>, error: Option<V>)
    requires Inv(s)
    ensures Reads(s, Response(id, result, error), ReceiveLine(s, Response(id, result, error)))
  {
    if id.Unhashable? || (id.Number? && id.n >= 0 && id.n in s.pending && result.Some? == error.Some?) {
      BadResponseMeans(s, id, result, error);
    } else if id.Number? && id.n >= 0 && id.n in s.pending {
      AnswerMeans(s, id.n, if error.Some? then RpcError(error.value) else Value(result.value));
    }
  }

  /** What one line does. */
  lemma LineMeans<V>(s: State<V>, line: Line<V>)
    requires Inv(s)
    ensures Reads(s, line, ReceiveLine(s, line))
  {
    match line
    case ServerMessage(valid, id, written) => ServerMessageMeans(s, valid, id, written);
    case Response(id, result, error) => ResponseMeans(s, id, result, error);
    case _ => ReaderFailureMeans(s, Fault(s, line).value);
  }

  // ---- One step of a call ----------------------------------------------------------------------------

  /** The outcome that a settled future gives the call which looks at it. */
  ghost predicate Shows<V>(f: Future<V>, outcome: Outcome<V>) {
    match f
    case Waiting => false
    case Answered(answer) => outcome == Given(answer)
    case Broken(failure) => outcome == Failed(failure)
    case Cancelled => outcome == CallCancelled
  }

  /** Why a call is refused before it has an id. */
  ghost function Refusal<V>(s: State<V>, allowUninitialized: bool): Option<Failure> {
    if s.process == Absent || s.process == Exited then Some(NotRunning)
    else if s.error != None then s.error
    else if s.initialized || allowUninitialized then None
    else Some(NotInitialized)
  }

  /** The call has ended with an outcome, and its request is closed. */
  ghost predicate Left<V>(s: State<V>, t: State<V>, call: nat, outcome: Outcome<V>)
    requires call in s.ids
  {
    Closed(s, t, s.ids[call], Cancelled) && call in t.calls && t.calls[call] == Ended(outcome)
  }

  ghost function CallOf<V>(e: Event<V>): Option<nat> {
    match e
    case Open(c, _) => Some(c)
    case Allocate(c) => Some(c)
    case WriteCheck(c) => Some(c)
    case WriteDone(c) => Some(c)
    case WriteBreaks(c) => Some(c)
    case GiveUp(c, _) => Some(c)
    case Resume(c) => Some(c)
    case Deadline(c) => Some(c)
    case _ => None
  }

  ghost predicate CallSteps<V>(s: State<V>, e: Event<V>, call: nat, t: State<V>)
    requires Possible(s, e) && CallOf(e) == Some(call)
  {
    && SameProcess(s, t) && t.reading == s.reading && SameCallsBut(s, t, call)
    && match e
       case Open(_, allowed) =>
         && SameRequests(s, t) && t.error == s.error
         && var refusal := Refusal(s, allowed);
            t.calls[call] == if refusal == None then Checked else Ended(Failed(refusal.value))
       case Allocate(_) =>
         && t.error == s.error && t.nextId == s.nextId + 1
         && t.calls[call] == Registered && t.ids == s.ids[call := s.nextId]
         && t.pending == s.pending + {s.nextId} && t.futures == s.futures[s.nextId := Waiting]
       case WriteCheck(_) =>
         var refusal := Refusal(s, true);
         if refusal == None then SameRequests(s, t) && t.error == s.error && t.calls[call] == Writing
         else Left(s, t, call, Failed(refusal.value))
       case WriteDone(_) => SameRequests(s, t) && t.error == s.error && t.calls[call] == Sent
       case WriteBreaks(_) => Broke(s, t, WriteFailed) && t.calls[call] == Ended(Failed(WriteFailed))
       case GiveUp(_, timedOut) => Left(s, t, call, if timedOut then TimedOut else CallCancelled)
       case Resume(_) =>
         && SameRequests(s, t) && t.error == s.error
         && t.calls[call].Ended? && Shows(s.futures[s.ids[call]], t.calls[call].outcome)
       case Deadline(_) =>
         && s.ids[call] in s.futures && t.calls[call].Ended? && Left(s, t, call, t.calls[call].outcome)
         && if s.futures[s.ids[call]] == Waiting then t.calls[call].outcome == TimedOut
            else Shows(s.futures[s.ids[call]], t.calls[call].outcome)
       case _ => false
  }

  lemma DropLeaves<V>(s: State<V>, call: nat, outcome: Outcome<V>)
    requires Inv(s) && call in s.ids && call in s.calls
    ensures var t := Drop(s, call, outcome);
            && SameProcess(s, t) && t.reading == s.reading && SameCallsBut(s, t, call) && Left(s, t, call, outcome)
  {
  }

  lemma WriteBreaksMeans<V>(s: State<V>, call: nat)
    requires Inv(s) && Possible(s, WriteBreaks(call))
    ensures CallSteps(s, WriteBreaks(call), call, Step(s, WriteBreaks(call)))
  {
    FailTransportKeeps(s, WriteFailed);
    FailureBreaks(s, WriteFailed);
    DropLeaves(FailTransport(s, WriteFailed), call, Failed(WriteFailed));
  }

  lemma DeadlineMeans<V>(s: State<V>, call: nat)
    requires Inv(s) && Possible(s, Deadline(call))
    ensures CallSteps(s, Deadline(call), call, Step(s, Deadline(call)))
  {
    var f := s.futures[s.ids[call]];
    var outcome := if f.Waiting? then TimedOut else FutureOutcome(f);
    DropLeaves(s, call, outcome);
    assert Left(s, Step(s, Deadline(call)), call, outcome);
  }

  lemma WriteCheckMeans<V>(s: State<V>, call: nat)
    requires Inv(s) && Possible(s, WriteCheck(call))
    ensures CallSteps(s, WriteCheck(call), call, Step(s, WriteCheck(call)))
  {
    if s.process != Alive {
      DropLeaves(s, call, Failed(NotRunning));
    } else if s.error.Some? {
      DropLeaves(s, call, Failed(s.error.value));
    }
  }

  lemma GiveUpMeans<V>(s: State<V>, call: nat, timedOut: bool)
    requires Inv(s) && Possible(s, GiveUp(call, timedOut))
    ensures CallSteps(s, GiveUp(call, timedOut), call, Step(s, GiveUp(call, timedOut)))
  {
    DropLeaves(s, call, if timedOut then TimedOut else CallCancelled);
  }

  lemma QuietStepMeans<V>(s: State<V>, e: Event<V>, call: nat)
    requires Inv(s) && Possible(s, e) && CallOf(e) == Some(call)
    requires e.Open? || e.Allocate? || e.WriteDone? || e.Resume?
    ensures CallSteps(s, e, call, Step(s, e))
  {
  }

  lemma CallStepMeans<V>(s: State<V>, e: Event<V>, call: nat)
    requires Inv(s) && Possible(s, e) && CallOf(e) == Some(call)
    ensures CallSteps(s, e, call, Step(s, e))
  {
    if e.WriteCheck? {
      WriteCheckMeans(s, call);
    } else if e.WriteBreaks? {
      WriteBreaksMeans(s, call);
    } else if e.GiveUp? {
      GiveUpMeans(s, call, e.timedOut);
    } else if e.Deadline? {
      DeadlineMeans(s, call);
    } else {
      QuietStepMeans(s, e, call);
    }
  }

  // ---- The life of the process -----------------------------------------------------------------------

  ghost predicate Lives<V>(s: State<V>, e: Event<V>, t: State<V>) {
    && t.calls == s.calls
    && match e
       case NoticeBreaks => Broke(s, t, WriteFailed) && SameProcess(s, t) && t.reading == s.reading
       case StopBegins =>
         Broke(s, t, Stopped) && t.process == s.process && t.stopping && !t.initialized && t.reading == s.reading
       case _ =>
         && SameRequests(s, t)
         && match e
            case Exit => t == s.(process := Exited)
            case StopEnds => t == s.(process := Absent, reading := false)
            case Start =>
              t == s.(process := Alive, reading := true, error := None, initialized := false, stopping := false)
            case Initialized => t == s.(initialized := true)
            case _ => false
  }

  lemma LifeMeans<V>(s: State<V>, e: Event<V>)
    requires Inv(s) && Possible(s, e) && !e.Receive? && CallOf(e) == None
    ensures Lives(s, e, Step(s, e))
  {
    if e.NoticeBreaks? { FailureBreaks(s, WriteFailed); }
    if e.StopBegins? { FailureBreaks(s.(stopping := true, initialized := false), Stopped); }
  }

  /** Every event, characterised: a line, a step of one call, or an event in the life of the process. */
  lemma StepMeans<V>(s: State<V>, e: Event<V>)
    requires Inv(s) && Possible(s, e)
    ensures if e.Receive? then Reads(s, e.line, Step(s, e))
            else if CallOf(e).Some? then CallSteps(s, e, CallOf(e).value, Step(s, e))
            else Lives(s, e, Step(s, e))
  {
    if e.Receive? {
      LineMeans(s, e.line);
    } else if CallOf(e).Some? {
      CallStepMeans(s, e, CallOf(e).value);
    } else {
      LifeMeans(s, e);
    }
  }

  /** A new client has drawn no id, has no process and has seen no failure. */
  lemma FreshMeans<V>(s: State<V>)
    ensures s == Fresh() <==>
            && s.nextId == 1 && s.pending == {} && s.futures == map[] && s.calls == map[] && s.ids == map[]
            && s.error == None && s.process == Absent && !s.initialized && !s.reading && !s.stopping
  {
  }

  // ---- Over runs -------------------------------------------------------------------------------------

  /** The last event of a run that is of a kind, if there is one. */
  ghost function LastOf<V>(events: seq<Event<V>>, kind: Event<V> -> bool): Option<Event<V>> {
    if events == [] then None
    else
      var later := LastOf(events[1..], kind);
      if later.Some? then later else if kind(events[0]) then Some(events[0]) else None
  }

  ghost predicate SetsInitialized<V>(e: Event<V>) {
    e.Initialized? || e.Start? || e.StopBegins?
  }

  ghost predicate SetsStopping<V>(e: Event<V>) {
    e.Start? || e.StopBegins?
  }

  ghost predicate SetsProcess<V>(e: Event<V>) {
    e.Start? || e.StopEnds? || e.Exit?
  }

  lemma FlagsOfStep<V>(s: State<V>, e: Event<V>)
    requires Inv(s) && Possible(s, e)
    ensures Step(s, e).initialized == if SetsInitialized(e) then e.Initialized? else s.initialized
    ensures Step(s, e).stopping == if SetsStopping(e) then e.StopBegins? else s.stopping
    ensures Step(s, e).process ==
            if e.Start? then Alive else if e.StopEnds? then Absent else if e.Exit? then Exited else s.process
  {
    StepMeans(s, e);
  }

  /** Over every run of a new client: it is initialized exactly when its last start, stop or initialization was an
      initialization, stopping exactly when its last start or stop was a stop, and alive exactly when its
      process was last started, not taken away and not gone by itself. */
  lemma {:induction false} FlagsOfRun<V>(s: State<V>, events: seq<Event<V>>)
    requires Inv(s) && PossibleRun(s, events)
    ensures var last := LastOf(events, SetsInitialized);
            After(s, events).initialized == if last.Some? then last.value.Initialized? else s.initialized
    ensures var last := LastOf(events, SetsStopping);
            After(s, events).stopping == if last.Some? then last.value.StopBegins? else s.stopping
    ensures var last := LastOf(events, SetsProcess);
            After(s, events).process ==
            if last.None? then s.process
            else if last.value.Start? then Alive else if last.value.StopEnds? then Absent else Exited
    decreases events
  {
    if events != [] {
      FlagsOfStep(s, events[0]);
      StepKeepsInv(s, events[0]);
      FlagsOfRun(Step(s, events[0]), events[1..]);
      KindOfLast(events[1..]);
    }
  }

  lemma {:induction false} KindOfLast<V>(events: seq<Event<V>>)
    ensures LastOf(events, SetsInitialized).Some? ==> SetsInitialized(LastOf(events, SetsInitialized).value)
    ensures LastOf(events, SetsStopping).Some? ==> SetsStopping(LastOf(events, SetsStopping).value)
    ensures LastOf(events, SetsProcess).Some? ==> SetsProcess(LastOf(events, SetsProcess).value)
  {
    if events != [] { KindOfLast(events[1..]); }
  }
}
