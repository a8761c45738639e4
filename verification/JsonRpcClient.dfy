/** The client object: its fields and the code between two awaits. */
module JsonRpcClient {
  import opened Basics
  import opened JsonRpc

  class StdioJsonRpcClient<V> {
    var nextId: nat
    var pending: set<nat>
    var futures: map<nat, Future<V>>
    var transportError: Option<Failure>
    var process: Process
    var isInitialized: bool
    var reading: bool
    var stopping: bool
    ghost var calls: map<nat, Phase<V>>
    ghost var ids: map<nat, nat>

    constructor ()
      ensures Contents() == Fresh<V>()
    {
      nextId, pending, futures, transportError, process := 1, {}, map[], None, Absent;
      isInitialized, reading, stopping, calls, ids := false, false, false, map[], map[];
    }

    ghost function Contents(): State<V>
      reads this
    {
      State(nextId, pending, futures, transportError, process, isInitialized, reading, stopping, calls, ids)
    }

    /** `_fail_transport`: remember the first failure, clear the table, fail the futures one by one. */
    method FailPending(failure: Failure)
      modifies this`transportError, this`pending, this`futures
      ensures Contents() == FailTransport(old(Contents()), failure)
    {
      var first := if transportError.Some? then transportError.value else failure;
      transportError := Some(first);
      var waiting := pending;
      pending := {};
      while waiting != {}
        invariant waiting <= old(pending) && futures.Keys == old(futures).Keys
        invariant pending == {} && transportError == Some(first)
        invariant forall i | i in futures :: (
                    futures[i] == if i in old(pending) - waiting && old(futures)[i].Waiting? then Broken(first)
                                  else old(futures)[i])
        decreases waiting
      {
        var i :| i in waiting;
        waiting := waiting - {i};
        if i in futures && futures[i].Waiting? { futures := futures[i := Broken(first)]; }
      }
      assert futures == FailTransport(old(Contents()), failure).futures;
    }

    /** One turn of `_read_loop` and, when it fails, its end. */
    method HandleLine(line: Line<V>)
      requires reading
      modifies this
      ensures Contents() == Step(old(Contents()), Receive(line))
    {
      var failure: Option<Failure> := None;
      match line {
        case EndOfStream => failure := Some(ServerClosed);
        case LongLine => failure := Some(Oversized);
        case Undecodable => failure := Some(MalformedJson);
        case NonObject => failure := Some(NotAnObject);
        case BadVersion => failure := Some(WrongVersion);
        case ServerMessage(valid, id, written) =>
          if !valid {
            failure := Some(BadMethod);
          } else if !id.NoId? {
            failure := Reply(written);
          }
        case Response(id, result, error) =>
          failure := HandleResponse(id, result, error);
      }
      if failure.Some? {
        reading := false;
        if !stopping { FailPending(failure.value); }
      }
    }

    /** A message without a method. */
    method HandleResponse(id: MessageId, result: Option<V>, error: Option<V>) returns (failure: Option<Failure>)
      modifies this`pending, this`futures
      ensures failure ==
              if id.Unhashable? then Some(ReaderBroken)
              else if id.Number? && id.n >= 0 && id.n in old(pending) && result.Some? == error.Some? then Some(BothOrNeither)
              else None
      ensures Contents() ==
              if failure.None? then ReceiveLine(old(Contents()), Response(id, result, error)) else old(Contents())
    {
      if id.Unhashable? { return Some(ReaderBroken); }
      if !id.Number? || id.n < 0 || id.n !in pending { return None; }
      if result.Some? == error.Some? { return Some(BothOrNeither); }
      pending := pending - {id.n};
      if id.n in futures && futures[id.n].Waiting? {
        var answer := if error.Some? then RpcError(error.value) else Value(result.value);
        futures := futures[id.n := Answered(answer)];
      }
      return None;
    }

    /** `_write_message` for the reply to a server request. */
    method Reply(written: bool) returns (failure: Option<Failure>)
      modifies this`transportError, this`pending, this`futures
      ensures failure ==
              if process != Alive then Some(NotRunning)
              else if old(transportError).Some? then old(transportError)
              else if written then None else Some(WriteFailed)
      ensures Contents() ==
              if process == Alive && old(transportError).None? && !written
              then FailTransport(old(Contents()), WriteFailed) else old(Contents())
    {
      if process != Alive { return Some(NotRunning); }
      if transportError.Some? { return transportError; }
      if written { return None; }
      FailPending(WriteFailed);
      return Some(WriteFailed);
    }

    /** The checks at the head of `_request`. */
    method BeginRequest(call: nat, allowUninitialized: bool) returns (refused: Option<Failure>)
      requires Possible(Contents(), Open(call, allowUninitialized))
      modifies this`calls
      ensures Contents() == Step(old(Contents()), Open(call, allowUninitialized))
      ensures refused.None? <==> InPhase(Contents(), call, Checked)
      ensures refused.Some? ==> InPhase(Contents(), call, Ended(Failed(refused.value)))
    {
      if process != Alive {
        refused := Some(NotRunning);
      } else if transportError.Some? {
        refused := transportError;
      } else if !allowUninitialized && !isInitialized {
        refused := Some(NotInitialized);
      } else {
        refused := None;
      }
      calls := calls[call := if refused.Some? then Ended(Failed(refused.value)) else Checked];
    }

    /** Draw an id under the lock and enter the table. */
    method RegisterRequest(call: nat) returns (id: nat)
      requires Possible(Contents(), Allocate(call))
      modifies this
      ensures Contents() == Step(old(Contents()), Allocate(call)) && id == old(nextId)
    {
      id := nextId;
      nextId := nextId + 1;
      futures := futures[id := Waiting];
      pending := pending + {id};
      calls, ids := calls[call := Registered], ids[call := id];
    }

    /** Remove the entry and cancel the future if it is still open. */
    method LeaveTable(ghost call: nat, id: nat, outcome: Outcome<V>)
      requires call in ids && ids[call] == id
      modifies this`pending, this`futures, this`calls
      ensures Contents() == Drop(old(Contents()), call, outcome)
    {
      if id in pending && id in futures && futures[id].Waiting? { futures := futures[id := Cancelled]; }
      pending := pending - {id};
      calls := calls[call := Ended(outcome)];
    }

    /** The deadline of a sent call: an answer that came in time still wins. */
    method OnDeadline(ghost call: nat, id: nat) returns (outcome: Outcome<V>)
      requires Inv(Contents()) && Possible(Contents(), Deadline(call)) && ids[call] == id
      modifies this`pending, this`futures, this`calls
      ensures Contents() == Step(old(Contents()), Deadline(call))
      ensures InPhase(Contents(), call, Ended(outcome))
      ensures outcome.Given? <==> old(futures[id].Answered?)
    {
      var wasPending := id in pending;
      if !wasPending && !futures[id].Waiting? {
        outcome := FutureOutcome(futures[id]);
      } else {
        outcome := TimedOut;
      }
      LeaveTable(call, id, outcome);
    }

    /** The first part of `_stop_unlocked`. */
    method BeginStop()
      modifies this
      ensures Contents() == Step(old(Contents()), StopBegins)
    {
      stopping := true;
      isInitialized := false;
      FailPending(Stopped);
    }
  }
}
