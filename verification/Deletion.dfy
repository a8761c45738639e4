/** Deletion of an App: a tombstone rename, a record transaction, and reconciliation after a crash. */
module Deletion {
  import opened Basics

  type Files = map<string, string>
  type Directory = Option<Files>

  datatype Phase =
    | Idle
    | DeletingRecord
    | CommittingDeletion
    | UndoingDeletion
    | RemovingTombstone
    | Deleted
    | NotDeleted
    | Down
    | Reconciling
    | RestoringDirectory
    | CommittingRestore
    | UndoingRestore
    | ReconcileRemoving
    | Reconciled
    | ReconcileFailed

  /** `record` is the committed row. A deletion that is not committed lives only in the phase. */
  datatype World = World(phase: Phase, directory: Directory, tombstone: Directory, record: bool)

  ghost predicate EntryRemoved(a: Directory, b: Directory) {
    a.Some? && exists name :: name in a.value && b == Some(a.value - {name})
  }

  /** One effect of `delete_app` after its own reconciliation. */
  ghost predicate DeletionStep(w: World, v: World) {
    match w.phase
    case Reconciled =>
      || (w.directory.Some? && v == w.(phase := DeletingRecord, tombstone := w.directory, directory := None))
      || v == w.(phase := NotDeleted)
    case DeletingRecord => v == w.(phase := CommittingDeletion) || v == w.(phase := UndoingDeletion)
    case CommittingDeletion =>
      v == w.(phase := RemovingTombstone, record := false) || v == w.(phase := UndoingDeletion)
    case UndoingDeletion =>
      if w.tombstone.Some? && w.directory.None?
      then v == w.(phase := NotDeleted, directory := w.tombstone, tombstone := None)
      else v == w.(phase := NotDeleted)
    case RemovingTombstone =>
      || (v == w.(tombstone := v.tombstone) && EntryRemoved(w.tombstone, v.tombstone))
      || (w.tombstone == Some(map[]) && v == w.(phase := Deleted, tombstone := None))
    case _ => false
  }

  /** One effect of the pass over tombstones that every entry point runs first. */
  ghost predicate ReconcileStep(w: World, v: World) {
    match w.phase
    case Reconciling =>
      if w.tombstone.None? || w.directory.Some? then v == w.(phase := Reconciled)
      else if !w.record then v == w.(phase := ReconcileRemoving)
      else v == w.(phase := RestoringDirectory)
    case RestoringDirectory =>
      || v == w.(phase := CommittingRestore, directory := w.tombstone, tombstone := None)
      || v == w.(phase := ReconcileFailed)
    case CommittingRestore => v == w.(phase := Reconciled) || v == w.(phase := UndoingRestore)
    case UndoingRestore =>
      if w.directory.Some? && w.tombstone.None?
      then v == w.(phase := ReconcileFailed, tombstone := w.directory, directory := None)
      else v == w.(phase := ReconcileFailed)
    case ReconcileRemoving =>
      || (v == w.(tombstone := v.tombstone) && EntryRemoved(w.tombstone, v.tombstone))
      || (w.tombstone == Some(map[]) && v == w.(phase := Reconciled, tombstone := None))
    case _ => false
  }

  predicate AtRest(phase: Phase) {
    phase in {Idle, Down, Deleted, NotDeleted, Reconciled, ReconcileFailed}
  }

  /** An effect, a crash, or the start of the next call, whose first act is to reconcile. */
  ghost predicate Next(w: World, v: World) {
    || DeletionStep(w, v)
    || ReconcileStep(w, v)
    || v == w.(phase := Down)
    || (AtRest(w.phase) && v == w.(phase := Reconciling))
  }

  function Initial(files: Files, record: bool): World {
    World(Idle, Some(files), None, record)
  }

  ghost predicate IsRun(run: seq<World>, files: Files, record: bool) {
    && run != [] && run[0] == Initial(files, record)
    && forall i | 0 <= i < |run| - 1 :: Next(run[i], run[i + 1])
  }

  // ---- What every state looks like -------------------------------------------------------------------

  predicate Intact(w: World, files: Files, record: bool) {
    w.directory == Some(files) && w.tombstone.None? && w.record == record
  }

  /** Renamed, but the record's deletion is not committed: all files are in the tombstone. */
  predicate Renamed(w: World, files: Files, record: bool) {
    w.directory.None? && w.tombstone == Some(files) && w.record == record
  }

  /** The deletion is decided; the tombstone may be half gone. */
  predicate Doomed(w: World) {
    w.directory.None? && w.tombstone.Some? && !w.record
  }

  predicate Gone(w: World) {
    w.directory.None? && w.tombstone.None? && !w.record
  }

  predicate Inv(w: World, files: Files, record: bool) {
    match w.phase
    case Idle => Intact(w, files, record)
    case DeletingRecord => Renamed(w, files, record)
    case CommittingDeletion => Renamed(w, files, record)
    case UndoingDeletion => Renamed(w, files, record)
    case RemovingTombstone => Doomed(w)
    case Deleted => Gone(w)
    case NotDeleted => Intact(w, files, record) || Gone(w)
    case RestoringDirectory => Renamed(w, files, record) && record
    case CommittingRestore => Intact(w, files, record) && record
    case UndoingRestore => Intact(w, files, record) && record
    case ReconcileRemoving => Doomed(w)
    case Reconciled => Intact(w, files, record) || Gone(w)
    case _ => Intact(w, files, record) || Renamed(w, files, record) || Doomed(w) || Gone(w)
  }

  lemma {:induction false} DeletionStepKeepsInv(w: World, v: World, files: Files, record: bool)
    requires Inv(w, files, record) && DeletionStep(w, v)
    ensures Inv(v, files, record)
  {
  }

  lemma {:induction false} ReconcileStepKeepsInv(w: World, v: World, files: Files, record: bool)
    requires Inv(w, files, record) && ReconcileStep(w, v)
    ensures Inv(v, files, record)
  {
  }

  lemma {:induction false} RunKeepsInv(run: seq<World>, files: Files, record: bool, i: nat)
    requires IsRun(run, files, record) && i < |run|
    ensures Inv(run[i], files, record)
  {
    if i > 0 {
      RunKeepsInv(run, files, record, i - 1);
      var w, v := run[i - 1], run[i];
      assert Next(run[i - 1], run[i - 1 + 1]);
      if DeletionStep(w, v) {
        DeletionStepKeepsInv(w, v, files, record);
      } else if ReconcileStep(w, v) {
        ReconcileStepKeepsInv(w, v, files, record);
      }
    }
  }

  /** Atomic deletion. However deletions, failures, crashes and reconciliations were interleaved, after
      a finished reconciliation either the directory is complete with its record and no tombstone, or
      there is no directory, no record and no tombstone. A deletion that reported success is of the
      second kind, and one that did not left no tombstone. */
  lemma AtomicDeletion(run: seq<World>, files: Files, record: bool, i: nat)
    requires IsRun(run, files, record) && i < |run|
    ensures run[i].phase in {Reconciled, NotDeleted} ==> Intact(run[i], files, record) || Gone(run[i])
    ensures run[i].phase == Deleted ==> Gone(run[i])
    ensures run[i].directory.None? || run[i].tombstone.None?
  {
    RunKeepsInv(run, files, record, i);
  }

  /** Files are lost only when the record is: while the App has a committed record, its complete files
      are in the directory or in the tombstone. */
  lemma FilesSurviveWithRecord(run: seq<World>, files: Files, i: nat)
    requires IsRun(run, files, true) && i < |run| && run[i].record
    ensures run[i].directory == Some(files) || run[i].tombstone == Some(files)
  {
    RunKeepsInv(run, files, true, i);
  }

  /** A deleted App stays deleted, whatever runs or crashes afterwards. */
  lemma {:induction false} DeletionIsFinal(run: seq<World>, files: Files, record: bool, i: nat, j: nat)
    requires IsRun(run, files, record) && i <= j < |run| && Gone(run[i]) && AtRest(run[i].phase)
    ensures Gone(run[j]) && (AtRest(run[j].phase) || run[j].phase == Reconciling)
  {
    if i < j {
      DeletionIsFinal(run, files, record, i, j - 1);
      assert Next(run[j - 1], run[j - 1 + 1]);
    }
  }

  // ---- The code --------------------------------------------------------------------------------------

  datatype Ending = Crashed | Raised | Returned(value: bool)

  class Machine {
    var phase: Phase
    var directory: Directory
    var tombstone: Directory
    var record: bool
    ghost const files: Files
    ghost const recorded: bool
    ghost var run: seq<World>

    constructor (files: Files, record: bool)
      ensures Valid() && phase == Idle && this.files == files && recorded == record
    {
      phase, directory, tombstone, this.record := Idle, Some(files), None, record;
      this.files, recorded := files, record;
      run := [Initial(files, record)];
    }

    ghost function Now(): World
      reads this
    {
      World(phase, directory, tombstone, record)
    }

    ghost predicate Valid()
      reads this
    {
      IsRun(run, files, recorded) && run[|run| - 1] == Now()
    }

    ghost method Log()
      requires IsRun(run, files, recorded) && Next(run[|run| - 1], Now())
      modifies this`run
      ensures Valid()
    {
      run := run + [Now()];
    }

    method PowerMayFail() returns (down: bool)
      requires Valid()
      modifies this`phase, this`run
      ensures Valid()
      ensures if down then phase == Down else phase == old(phase)
    {
      down := false;
      if * {
        down := true;
        phase := Down;
        Log();
      }
    }

    /** Removes the tombstone entry by entry, after a commit that settled its fate. */
    method RemoveTombstone(ghost doneWith: Phase) returns (down: bool)
      requires Valid() && tombstone.Some?
      requires (phase == RemovingTombstone && doneWith == Deleted) || (phase == ReconcileRemoving && doneWith == Reconciled)
      modifies this`phase, this`tombstone, this`run
      ensures Valid()
      ensures if down then phase == Down else phase == doneWith && tombstone.None?
    {
      while tombstone.value != map[]
        invariant Valid() && phase == old(phase) && tombstone.Some?
        decreases tombstone.value.Keys
      {
        down := PowerMayFail();
        if down { return; }
        var name :| name in tombstone.value;
        tombstone := Some(tombstone.value - {name});
        Log();
      }
      down := RemoveEmptyTombstone(doneWith);
    }

    method RemoveEmptyTombstone(ghost doneWith: Phase) returns (down: bool)
      requires Valid() && tombstone == Some(map[])
      requires (phase == RemovingTombstone && doneWith == Deleted) || (phase == ReconcileRemoving && doneWith == Reconciled)
      modifies this`phase, this`tombstone, this`run
      ensures Valid()
      ensures if down then phase == Down else phase == doneWith && tombstone.None?
    {
      down := PowerMayFail();
      if down { return; }
      phase := if phase == RemovingTombstone then Deleted else Reconciled;
      tombstone := None;
      Log();
    }

    method ReconcilePendingDeletions() returns (ending: Ending)
      requires Valid() && AtRest(phase)
      modifies this
      ensures Valid()
      ensures ending.Crashed? <==> phase == Down
      ensures ending.Raised? <==> phase == ReconcileFailed
      ensures ending.Returned? ==> phase == Reconciled && tombstone.None?
    {
      phase := Reconciling;
      Log();
      RunKeepsInv(run, files, recorded, |run| - 1);
      var down := PowerMayFail();
      if down { return Crashed; }
      if tombstone.None? || directory.Some? {
        phase := Reconciled;
        Log();
        return Returned(true);
      }
      if !record {
        phase := ReconcileRemoving;
        Log();
        down := RemoveTombstone(Reconciled);
        return if down then Crashed else Returned(true);
      }
      phase := RestoringDirectory;
      Log();
      ending := RestoreDirectory();
    }

    /** The tombstone goes back; a failing commit takes it away again. */
    method RestoreDirectory() returns (ending: Ending)
      requires Valid() && phase == RestoringDirectory
      modifies this
      ensures Valid()
      ensures ending.Crashed? <==> phase == Down
      ensures ending.Raised? <==> phase == ReconcileFailed
      ensures ending.Returned? ==> phase == Reconciled && tombstone.None?
    {
      RunKeepsInv(run, files, recorded, |run| - 1);
      if * { phase := ReconcileFailed; Log(); return Raised; }
      directory, tombstone, phase := tombstone, None, CommittingRestore;
      Log();
      ending := CommitRestore();
    }

    method CommitRestore() returns (ending: Ending)
      requires Valid() && phase == CommittingRestore && tombstone.None?
      modifies this
      ensures Valid()
      ensures ending.Crashed? <==> phase == Down
      ensures ending.Raised? <==> phase == ReconcileFailed
      ensures ending.Returned? ==> phase == Reconciled && tombstone.None?
    {
      var down := PowerMayFail();
      if down { return Crashed; }
      if * {
        phase := UndoingRestore;
        Log();
        down := PowerMayFail();
        if down { return Crashed; }
        tombstone, directory, phase := directory, None, ReconcileFailed;
        Log();
        return Raised;
      }
      phase := Reconciled;
      Log();
      return Returned(true);
    }

    method DeleteApp() returns (ending: Ending)
      requires Valid() && AtRest(phase)
      modifies this
      ensures Valid()
      ensures ending == Returned(true) ==> Gone(Now())
      ensures ending == Returned(false) ==> Intact(Now(), files, recorded) || Gone(Now())
    {
      ending := ReconcilePendingDeletions();
      if !ending.Returned? { return; }
      RunKeepsInv(run, files, recorded, |run| - 1);
      if directory.None? {
        phase := NotDeleted;
        Log();
        return Returned(false);
      }
      var down := PowerMayFail();
      if down { return Crashed; }
      if * { phase := NotDeleted; Log(); return Returned(false); }
      tombstone, directory, phase := directory, None, DeletingRecord;
      Log();
      ending := CommitDeletion();
    }

    /** The record transaction around the rename. */
    method CommitDeletion() returns (ending: Ending)
      requires Valid() && phase == DeletingRecord && tombstone.Some? && directory.None?
      modifies this
      ensures Valid()
      ensures ending == Returned(true) ==> Gone(Now())
      ensures ending != Returned(false)
    {
      var down := PowerMayFail();
      if down { return Crashed; }
      if * {
        ending := UndoRename();
        return;
      }
      phase := CommittingDeletion;
      Log();
      down := PowerMayFail();
      if down { return Crashed; }
      if * {
        ending := UndoRename();
        return;
      }
      phase, record := RemovingTombstone, false;
      Log();
      down := RemoveTombstone(Deleted);
      if down { return Crashed; }
      RunKeepsInv(run, files, recorded, |run| - 1);
      return Returned(true);
    }

    /** The rollback hook of a deletion. */
    method UndoRename() returns (ending: Ending)
      requires Valid() && (phase == DeletingRecord || phase == CommittingDeletion) && tombstone.Some? && directory.None?
      modifies this
      ensures Valid() && (ending.Crashed? || ending.Raised?)
    {
      phase := UndoingDeletion;
      Log();
      var down := PowerMayFail();
      if down { return Crashed; }
      directory, tombstone, phase := tombstone, None, NotDeleted;
      Log();
      return Raised;
    }
  }
}
