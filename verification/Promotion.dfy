/** Promotion of a staged App directory: a journal, two renames, a removal, and recovery after a crash. */
module Promotion {
  import opened Basics

  type Files = map<string, string>

  /** A directory on disk, or its absence. */
  type Directory = Option<Files>

  /** A journal that is still being written can be read back as garbage. */
  datatype Journal = NoJournal | TornJournal | IntactJournal

  /** Where the process stands. */
  datatype Phase =
    | Starting
    | WritingJournal
    | SwappingOut
    | SwappingIn
    | RollingBack
    | DroppingAfterRollback
    | DroppingUnrestored
    | RemovingBackup
    | DroppingJournal
    | Promoted
    | PromotionFailed
    | Down
    | Recovering
    | RestoringLive
    | RecoveryRemoving
    | RecoveryUnlinking
    | Recovered
    | RecoveryFailed

  datatype World = World(phase: Phase, live: Directory, staging: Directory, backup: Directory, journal: Journal)

  /** Before a promotion: the App as it is (or not there yet), and the validated staging directory. */
  function Initial(prior: Directory, staged: Files): World {
    World(Starting, prior, Some(staged), None, NoJournal)
  }

  /** One entry of the directory is gone. */
  ghost predicate EntryRemoved(a: Directory, b: Directory) {
    a.Some? && exists name :: name in a.value && b == Some(a.value - {name})
  }

  ghost predicate PromotionStep(w: World, v: World) {
    match w.phase
    case Starting =>
      if w.live.None?
      then v == w.(phase := Promoted, live := w.staging, staging := None) || v == w.(phase := PromotionFailed)
      else v == w.(phase := WritingJournal, journal := TornJournal)
    case WritingJournal =>
      v == w.(phase := SwappingOut, journal := IntactJournal) || v == w.(phase := PromotionFailed)
    case SwappingOut =>
      || v == w.(phase := SwappingIn, backup := w.live, live := None)
      || v == w.(phase := PromotionFailed)
    case SwappingIn =>
      || v == w.(phase := RemovingBackup, live := w.staging, staging := None)
      || v == w.(phase := RollingBack)
    case RollingBack =>
      || v == w.(phase := DroppingAfterRollback, live := w.backup, backup := None)
      || v == w.(phase := DroppingUnrestored)
    case DroppingAfterRollback =>
      v == w.(phase := PromotionFailed, journal := NoJournal) || v == w.(phase := PromotionFailed)
    case DroppingUnrestored =>
      v == w.(phase := PromotionFailed, journal := NoJournal) || v == w.(phase := PromotionFailed)
    case RemovingBackup =>
      || (v == w.(backup := v.backup) && EntryRemoved(w.backup, v.backup))
      || (w.backup == Some(map[]) && v == w.(phase := DroppingJournal, backup := None))
      || v == w.(phase := Promoted)
    case DroppingJournal =>
      v == w.(phase := Promoted, journal := NoJournal) || v == w.(phase := Promoted)
    case _ => false
  }

  ghost predicate RecoveryStep(w: World, v: World) {
    match w.phase
    case Recovering =>
      if w.journal != IntactJournal then v == w.(phase := Recovered)
      else if w.live.None? && w.backup.Some? then v == w.(phase := RestoringLive)
      else if w.live.Some? && w.backup.Some? && w.staging.None? then v == w.(phase := RecoveryRemoving)
      else if w.live.Some? && w.staging.Some? && w.backup.None? then v == w.(phase := RecoveryUnlinking)
      else v == w.(phase := Recovered)
    case RestoringLive =>
      v == w.(phase := RecoveryUnlinking, live := w.backup, backup := None) || v == w.(phase := RecoveryFailed)
    case RecoveryRemoving =>
      || (v == w.(backup := v.backup) && EntryRemoved(w.backup, v.backup))
      || (w.backup == Some(map[]) && v == w.(phase := RecoveryUnlinking, backup := None))
      || v == w.(phase := RecoveryFailed)
    case RecoveryUnlinking =>
      v == w.(phase := Recovered, journal := NoJournal) || v == w.(phase := RecoveryFailed)
    case _ => false
  }

  /** One atomic effect, a crash at any point, or a restart into the recovery pass. */
  ghost predicate Next(w: World, v: World) {
    || PromotionStep(w, v)
    || RecoveryStep(w, v)
    || v == w.(phase := Down)
    || (w.phase == Down && v == w.(phase := Recovering))
  }

  ghost predicate IsRun(run: seq<World>, prior: Directory, staged: Files) {
    && run != [] && run[0] == Initial(prior, staged)
    && forall i | 0 <= i < |run| - 1 :: Next(run[i], run[i + 1])
  }

  // ---- What every state looks like -------------------------------------------------------------------

  /** Nothing was swapped. */
  predicate Untouched(w: World, prior: Directory, staged: Files) {
    w.live == prior && w.staging == Some(staged) && w.backup.None?
  }

  /** Between the renames: the journal is what remembers the old directory. */
  predicate Between(w: World, prior: Directory, staged: Files) {
    w.live.None? && w.staging == Some(staged) && w.backup == prior && prior.Some? && w.journal == IntactJournal
  }

  /** Between the renames, with nothing left that remembers the old directory. */
  predicate Lost(w: World, prior: Directory, staged: Files) {
    w.live.None? && w.staging == Some(staged) && w.backup == prior && prior.Some? && w.journal == NoJournal
  }

  /** The new directory is live, and at most a part of the old one is left. */
  predicate Swapped(w: World, prior: Directory, staged: Files) {
    && w.live == Some(staged) && w.staging.None?
    && (w.backup.Some? ==> w.journal == IntactJournal)
    && w.journal != TornJournal
  }

  /** Where each phase can be. */
  predicate PhaseFits(w: World, prior: Directory, staged: Files) {
    match w.phase
    case Starting => Untouched(w, prior, staged) && w.journal == NoJournal
    case WritingJournal => Untouched(w, prior, staged) && prior.Some?
    case SwappingOut => Untouched(w, prior, staged) && prior.Some? && w.journal == IntactJournal
    case SwappingIn => Between(w, prior, staged)
    case RollingBack => Between(w, prior, staged)
    case RestoringLive => Between(w, prior, staged)
    case DroppingAfterRollback => Untouched(w, prior, staged) && prior.Some? && w.journal == IntactJournal
    case DroppingUnrestored => Between(w, prior, staged)
    case PromotionFailed => Untouched(w, prior, staged) || Between(w, prior, staged) || Lost(w, prior, staged)
    case RemovingBackup => Swapped(w, prior, staged) && w.backup.Some?
    case DroppingJournal => Swapped(w, prior, staged) && w.backup.None?
    case Promoted => Swapped(w, prior, staged)
    case RecoveryRemoving => Swapped(w, prior, staged) && w.backup.Some?
    case RecoveryUnlinking =>
      (Untouched(w, prior, staged) && prior.Some?) || (Swapped(w, prior, staged) && w.backup.None?)
    case Recovered =>
      || (Untouched(w, prior, staged) && w.journal != IntactJournal)
      || (Swapped(w, prior, staged) && w.backup.None?)
      || Lost(w, prior, staged)
    case _ =>
      || Untouched(w, prior, staged) || Between(w, prior, staged) || Swapped(w, prior, staged)
      || Lost(w, prior, staged)
  }

  /** The states a promotion and its recoveries can be in. */
  predicate Inv(w: World, prior: Directory, staged: Files) {
    && PhaseFits(w, prior, staged)
    && (prior.None? ==> w.journal == NoJournal && w.backup.None?)
  }

  lemma {:induction false} PromotionStepKeepsInv(w: World, v: World, prior: Directory, staged: Files)
    requires Inv(w, prior, staged) && PromotionStep(w, v)
    ensures Inv(v, prior, staged)
  {
  }

  lemma {:induction false} RecoveryStepKeepsInv(w: World, v: World, prior: Directory, staged: Files)
    requires Inv(w, prior, staged) && RecoveryStep(w, v)
    ensures Inv(v, prior, staged)
  {
  }

  lemma {:induction false} RunKeepsInv(run: seq<World>, prior: Directory, staged: Files, i: nat)
    requires IsRun(run, prior, staged) && i < |run|
    ensures Inv(run[i], prior, staged)
  {
    if i > 0 {
      RunKeepsInv(run, prior, staged, i - 1);
      var w, v := run[i - 1], run[i];
      assert Next(run[i - 1], run[i - 1 + 1]);
      if PromotionStep(w, v) {
        PromotionStepKeepsInv(w, v, prior, staged);
      } else if RecoveryStep(w, v) {
        RecoveryStepKeepsInv(w, v, prior, staged);
      }
    }
  }

  /** The rename that should have put the old directory back failed too, and its journal went all the
      same. */
  predicate DropsUnrestored(w: World, v: World) {
    w.phase == DroppingUnrestored && v.phase == PromotionFailed && v.journal == NoJournal
  }

  lemma LostStep(w: World, v: World, prior: Directory, staged: Files)
    requires Inv(w, prior, staged) && Next(w, v)
    ensures Lost(v, prior, staged) <==> Lost(w, prior, staged) || DropsUnrestored(w, v)
  {
  }

  /** The old directory is lost from sight exactly when that happened. */
  lemma {:induction false} LostMeans(run: seq<World>, prior: Directory, staged: Files, i: nat)
    requires IsRun(run, prior, staged) && i < |run|
    ensures Lost(run[i], prior, staged) <==> exists k: nat | k < i :: DropsUnrestored(run[k], run[k + 1])
  {
    if i > 0 {
      LostMeans(run, prior, staged, i - 1);
      RunKeepsInv(run, prior, staged, i - 1);
      assert Next(run[i - 1], run[i - 1 + 1]);
      LostStep(run[i - 1], run[i], prior, staged);
      if k: nat :| k < i - 1 && DropsUnrestored(run[k], run[k + 1]) { assert k < i; }
    }
  }

  /** Crash-safe promotion. However the promotion, its failures, its crashes and the crashes of earlier
      recoveries went, a finished recovery leaves the live directory exactly the old one or exactly the new
      one, leaves no backup, and leaves a readable journal only when the new directory is live and staging
      and backup are both gone - exactly unless both the second rename and its rollback failed and the
      journal was dropped nevertheless. Then the old directory is whole in a backup that nothing names. */
  lemma CrashSafePromotion(run: seq<World>, prior: Directory, staged: Files, i: nat)
    requires IsRun(run, prior, staged) && i < |run| && run[i].phase == Recovered
    ensures var w, lost := run[i], exists k: nat | k < i :: DropsUnrestored(run[k], run[k + 1]);
            && ((w.live == prior || w.live == Some(staged)) && w.backup.None? <==> !lost)
            && (lost ==> Lost(w, prior, staged))
            && (!lost ==>
                  && (w.journal == IntactJournal ==> w.live == Some(staged) && w.staging.None?)
                  && (w.live == prior != Some(staged) ==> w.staging == Some(staged)))
  {
    RunKeepsInv(run, prior, staged, i);
    LostMeans(run, prior, staged, i);
  }

  lemma RunGrows(run: seq<World>, v: World, prior: Directory, staged: Files)
    requires IsRun(run, prior, staged) && Next(run[|run| - 1], v)
    ensures IsRun(run + [v], prior, staged)
  {
    var more := run + [v];
    forall i | 0 <= i < |more| - 1 ensures Next(more[i], more[i + 1]) {
      if i < |run| - 1 { assert Next(run[i], run[i + 1]); }
    }
  }

  /** The exception is real, for every App and every staging directory. */
  lemma DoubleFailureLosesLive(files: Files, staged: Files) returns (run: seq<World>)
    ensures IsRun(run, Some(files), staged) && run != []
    ensures run[|run| - 1].phase == Recovered && run[|run| - 1].live.None?
  {
    var prior := Some(files);
    var w := Initial(prior, staged);
    run := [w];
    w := w.(phase := WritingJournal, journal := TornJournal);
    RunGrows(run, w, prior, staged); run := run + [w];
    w := w.(phase := SwappingOut, journal := IntactJournal);
    RunGrows(run, w, prior, staged); run := run + [w];
    w := w.(phase := SwappingIn, backup := w.live, live := None);
    RunGrows(run, w, prior, staged); run := run + [w];
    w := w.(phase := RollingBack);
    RunGrows(run, w, prior, staged); run := run + [w];
    w := w.(phase := DroppingUnrestored);
    RunGrows(run, w, prior, staged); run := run + [w];
    w := w.(phase := PromotionFailed, journal := NoJournal);
    RunGrows(run, w, prior, staged); run := run + [w];
    w := w.(phase := Down);
    RunGrows(run, w, prior, staged); run := run + [w];
    w := w.(phase := Recovering);
    RunGrows(run, w, prior, staged); run := run + [w];
    w := w.(phase := Recovered);
    RunGrows(run, w, prior, staged); run := run + [w];
  }

  /** Never missing: outside the window between the two renames, and outside first promotions, there is
      always a live directory; inside the window the backup is the complete old one. */
  lemma LiveOrWholeBackup(run: seq<World>, prior: Directory, staged: Files, i: nat)
    requires IsRun(run, prior, staged) && i < |run| && prior.Some?
    ensures run[i].live == prior || run[i].live == Some(staged) || (run[i].live.None? && run[i].backup == prior)
  {
    RunKeepsInv(run, prior, staged, i);
  }

  predicate Resting(phase: Phase) {
    phase in {Recovered, Down, Recovering}
  }

  /** Recovery is idempotent: after a finished recovery, further crashes, restarts and recovery passes
      change nothing on disk. */
  lemma {:induction false} RecoveryIdempotent(run: seq<World>, prior: Directory, staged: Files, i: nat, j: nat)
    requires IsRun(run, prior, staged) && i <= j < |run| && run[i].phase == Recovered
    ensures Resting(run[j].phase) && run[j].(phase := Recovered) == run[i]
  {
    if i < j {
      RecoveryIdempotent(run, prior, staged, i, j - 1);
      RunKeepsInv(run, prior, staged, i);
      assert Next(run[j - 1], run[j - 1 + 1]);
    }
  }

  // ---- The code --------------------------------------------------------------------------------------

  datatype Ending = Crashed | Raised | Returned

  /** The disk and the process working on it. Every effect below is one rename, unlink or removal; the
      undetermined choices are system calls that fail and the power that goes. */
  class Machine {
    var phase: Phase
    var live: Directory
    var staging: Directory
    var backup: Directory
    var journal: Journal
    ghost const prior: Directory
    ghost const staged: Files
    ghost var run: seq<World>

    constructor (live: Directory, staging: Files)
      ensures Valid() && phase == Starting && prior == live && staged == staging
    {
      phase, backup, journal := Starting, None, NoJournal;
      this.live, this.staging := live, Some(staging);
      prior, staged := live, staging;
      run := [Initial(live, staging)];
    }

    ghost function Now(): World
      reads this
    {
      World(phase, live, staging, backup, journal)
    }

    /** The machine's history is a run of the protocol that ends in the present. */
    ghost predicate Valid()
      reads this
    {
      IsRun(run, prior, staged) && run[|run| - 1] == Now()
    }

    ghost method Record()
      requires IsRun(run, prior, staged) && Next(run[|run| - 1], Now())
      modifies this`run
      ensures Valid()
    {
      run := run + [Now()];
    }

    method PowerMayFail() returns (down: bool)
      requires Valid()
      modifies this`phase, this`run
      ensures Valid()
      ensures if down then phase == Down else phase == old(phase)
    {
      if * {
        down := true;
        phase := Down;
        Record();
      } else {
        down := false;
      }
    }

    /** Moves the staging directory into place. */
    method PromoteStagingApp() returns (ending: Ending)
      requires Valid() && phase == Starting
      modifies this
      ensures Valid()
      ensures ending.Crashed? <==> phase == Down
      ensures ending.Raised? <==> phase == PromotionFailed
      ensures ending.Returned? ==> phase == Promoted && live == Some(staged)
    {
      var down := PowerMayFail();
      if down { return Crashed; }
      if live.None? {
        if * { phase := PromotionFailed; Record(); return Raised; }
        live, staging, phase := staging, None, Promoted;
        Record();
        assert live == Some(staged) by { RunKeepsInv(run, prior, staged, |run| - 1); }
        return Returned;
      }
      phase, journal := WritingJournal, TornJournal;
      Record();
      ending := SwapDirectories();
    }

    /** The two renames, once the journal file exists. */
    method SwapDirectories() returns (ending: Ending)
      requires Valid() && phase == WritingJournal
      modifies this
      ensures Valid()
      ensures ending.Crashed? <==> phase == Down
      ensures ending.Raised? <==> phase == PromotionFailed
      ensures ending.Returned? ==> phase == Promoted && live == Some(staged)
    {
      var down := PowerMayFail();
      if down { return Crashed; }
      if * { phase := PromotionFailed; Record(); return Raised; }
      phase, journal := SwappingOut, IntactJournal;
      Record();
      down := PowerMayFail();
      if down { return Crashed; }
      if * { phase := PromotionFailed; Record(); return Raised; }
      backup, live, phase := live, None, SwappingIn;
      Record();
      ending := SwapIn();
    }

    /** The second rename, or its rollback. */
    method SwapIn() returns (ending: Ending)
      requires Valid() && phase == SwappingIn
      modifies this
      ensures Valid()
      ensures ending.Crashed? <==> phase == Down
      ensures ending.Raised? <==> phase == PromotionFailed
      ensures ending.Returned? ==> phase == Promoted && live == Some(staged)
    {
      var down := PowerMayFail();
      if down { return Crashed; }
      if * {
        phase := RollingBack;
        Record();
        ending := RollBack();
        return;
      }
      live, staging, phase := staging, None, RemovingBackup;
      Record();
      ending := FinishPromotion();
    }

    method RollBack() returns (ending: Ending)
      requires Valid() && phase == RollingBack
      modifies this
      ensures Valid()
      ensures (ending.Crashed? && phase == Down) || (ending.Raised? && phase == PromotionFailed)
    {
      var down := PowerMayFail();
      if down { return Crashed; }
      if * {
        live, backup, phase := backup, None, DroppingAfterRollback;
      } else {
        phase := DroppingUnrestored;
      }
      Record();
      down := PowerMayFail();
      if down { return Crashed; }
      phase := PromotionFailed;
      if * { journal := NoJournal; }
      Record();
      return Raised;
    }

    /** Removes the backup one entry at a time, then the journal. */
    method FinishPromotion() returns (ending: Ending)
      requires Valid() && phase == RemovingBackup
      modifies this
      ensures Valid()
      ensures (ending.Crashed? && phase == Down) || (ending.Returned? && phase == Promoted && live == Some(staged))
    {
      RunKeepsInv(run, prior, staged, |run| - 1);
      while backup.value != map[]
        invariant Valid() && phase == RemovingBackup && backup.Some? && live == Some(staged)
        decreases backup.value.Keys
      {
        var down := PowerMayFail();
        if down { return Crashed; }
        if * { phase := Promoted; Record(); return Returned; }
        var name :| name in backup.value;
        backup := Some(backup.value - {name});
        Record();
      }
      var down := PowerMayFail();
      if down { return Crashed; }
      backup, phase := None, DroppingJournal;
      Record();
      ending := DropJournal();
    }

    method DropJournal() returns (ending: Ending)
      requires Valid() && phase == DroppingJournal && live == Some(staged)
      modifies this
      ensures Valid()
      ensures (ending.Crashed? && phase == Down) || (ending.Returned? && phase == Promoted && live == Some(staged))
    {
      var down := PowerMayFail();
      if down { return Crashed; }
      phase := Promoted;
      if * { journal := NoJournal; }
      Record();
      return Returned;
    }

    /** The startup pass over the journal. */
    method RecoverInterruptedPromotions() returns (ending: Ending)
      requires Valid() && phase == Down
      modifies this
      ensures Valid()
      ensures ending.Crashed? <==> phase == Down
      ensures ending.Raised? <==> phase == RecoveryFailed
      ensures ending.Returned? ==> phase == Recovered
      ensures ending.Returned? ==>
        (backup.None? && (live == prior || live == Some(staged)) <==> !Lost(Now(), prior, staged))
    {
      phase := Recovering;
      Record();
      var down := PowerMayFail();
      if down { return Crashed; }
      ending := RecoverByJournal();
      if ending.Returned? {
        CrashSafePromotion(run, prior, staged, |run| - 1);
        LostMeans(run, prior, staged, |run| - 1);
      }
    }

    /** What the journal and the directories call for. */
    method RecoverByJournal() returns (ending: Ending)
      requires Valid() && phase == Recovering
      modifies this
      ensures Valid()
      ensures ending.Crashed? <==> phase == Down
      ensures ending.Raised? <==> phase == RecoveryFailed
      ensures ending.Returned? ==> phase == Recovered
    {
      ending := Returned;
      if journal != IntactJournal {
        phase := Recovered;
        Record();
      } else if live.None? && backup.Some? {
        phase := RestoringLive;
        Record();
        ending := RestoreLive();
      } else if live.Some? && backup.Some? && staging.None? {
        phase := RecoveryRemoving;
        Record();
        ending := FinishRemoval();
      } else if live.Some? && staging.Some? && backup.None? {
        phase := RecoveryUnlinking;
        Record();
        ending := Unlink();
      } else {
        phase := Recovered;
        Record();
      }
    }

    /** The backup becomes live again, then the journal goes. */
    method RestoreLive() returns (ending: Ending)
      requires Valid() && phase == RestoringLive
      modifies this
      ensures Valid()
      ensures ending.Crashed? <==> phase == Down
      ensures ending.Raised? <==> phase == RecoveryFailed
      ensures ending.Returned? ==> phase == Recovered
    {
      var down := PowerMayFail();
      if down { return Crashed; }
      if * { phase := RecoveryFailed; Record(); return Raised; }
      live, backup, phase := backup, None, RecoveryUnlinking;
      Record();
      ending := Unlink();
    }

    method FinishRemoval() returns (ending: Ending)
      requires Valid() && phase == RecoveryRemoving && backup.Some?
      modifies this
      ensures Valid()
      ensures ending.Crashed? <==> phase == Down
      ensures ending.Raised? <==> phase == RecoveryFailed
      ensures ending.Returned? ==> phase == Recovered
    {
      while backup.value != map[]
        invariant Valid() && phase == RecoveryRemoving && backup.Some?
        decreases backup.value.Keys
      {
        var down := PowerMayFail();
        if down { return Crashed; }
        if * { phase := RecoveryFailed; Record(); return Raised; }
        var name :| name in backup.value;
        backup := Some(backup.value - {name});
        Record();
      }
      var down := PowerMayFail();
      if down { return Crashed; }
      backup, phase := None, RecoveryUnlinking;
      Record();
      ending := Unlink();
    }

    method Unlink() returns (ending: Ending)
      requires Valid() && phase == RecoveryUnlinking
      modifies this
      ensures Valid()
      ensures ending.Crashed? <==> phase == Down
      ensures ending.Raised? <==> phase == RecoveryFailed
      ensures ending.Returned? ==> phase == Recovered
    {
      var down := PowerMayFail();
      if down { return Crashed; }
      if * { phase := RecoveryFailed; Record(); return Raised; }
      phase, journal := Recovered, NoJournal;
      Record();
      return Returned;
    }
  }
}
