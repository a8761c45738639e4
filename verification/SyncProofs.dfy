/** When a sync commits, and what syncs do to each other. */
module SyncProofs {
  import opened Basics
  import opened Ontology
  import opened Catalog
  import opened Providers
  import opened Sync

  // ---- Generations count lifecycle events ----------------------------------------------------------------

  predicate SameLifeOrNone(a: Option<Profile>, b: Option<Profile>) {
    (a.Some? <==> b.Some?) && (a.Some? ==> SameLife(a.value, b.value))
  }

  /** The event creates or deletes the profile, changes how it connects, or hands it credentials. */
  predicate Touches(w: World, e: Event, id: string)
    requires Possible(w, e)
  {
    || !SameLifeOrNone(Providers.Find(w.store.profiles, id), Providers.Find(StoreAfter(w, e).profiles, id))
    || (e.EditProfile? && e.profile.id == id && e.withCredentials && Update(w.store, e.profile, true).Ok?)
  }

  function One(b: bool): nat {
    if b then 1 else 0
  }

  lemma CreateCounts(s: Store, p: Profile, id: string)
    requires Create(s, p).Ok?
    ensures var t := Create(s, p).value;
            Generation(t, id) == Generation(s, id) +
              One(!SameLifeOrNone(Providers.Find(s.profiles, id), Providers.Find(t.profiles, id)))
  {
    CreateFind(s, p, id);
  }

  lemma UpdateCounts(s: Store, p: Profile, withCredentials: bool, id: string)
    requires Update(s, p, withCredentials).Ok?
    ensures var t := Update(s, p, withCredentials).value;
            Generation(t, id) == Generation(s, id) +
              One((id == p.id && withCredentials) ||
                  !SameLifeOrNone(Providers.Find(s.profiles, id), Providers.Find(t.profiles, id)))
  {
    UpdateFind(s, p, withCredentials, id);
    TidyIds(p);
  }

  lemma DeleteCounts(s: Store, gone: string, id: string)
    requires Delete(s, gone).Ok?
    ensures var t := Delete(s, gone).value;
            Generation(t, id) == Generation(s, id) +
              One(!SameLifeOrNone(Providers.Find(s.profiles, id), Providers.Find(t.profiles, id)))
  {
    FindWithout(s.profiles, gone, id);
  }

  lemma CommitCounts(s: Store, ticket: Ticket, catalog: seq<Entry>, id: string)
    requires StoreOk(s) && Commit(s, ticket, catalog).Ok?
    ensures var t := Commit(s, ticket, catalog).value;
            Generation(t, id) == Generation(s, id) +
              One(!SameLifeOrNone(Providers.Find(s.profiles, id), Providers.Find(t.profiles, id)))
  {
    var current := Check(s, ticket);
    if current.value.Some? {
      var p := current.value.value;
      UpdateCounts(s, p.(models := Merge(catalog, p.models, false).value), false, id);
    } else {
      CreateCounts(s, NewNative(FreeName(ProfileIds(s.profiles), 1), Merge(catalog, [], true).value), id);
    }
  }

  /** A profile's generation counts exactly its lifecycle events. */
  lemma GenerationCounts(w: World, e: Event, id: string)
    requires StoreOk(w.store) && Possible(w, e)
    ensures Generation(StoreAfter(w, e), id) == Generation(w.store, id) + One(Touches(w, e, id))
  {
    var s := w.store;
    match e {
      case AddProfile(p) => if Create(s, p).Ok? { CreateCounts(s, p, id); }
      case EditProfile(p, c) => if Update(s, p, c).Ok? { UpdateCounts(s, p, c, id); }
      case RemoveProfile(gone) => if Delete(s, gone).Ok? { DeleteCounts(s, gone, id); }
      case CommitSync(n, catalog) =>
        if Commit(s, w.tickets[n], catalog).Ok? { CommitCounts(s, w.tickets[n], catalog, id); }
      case _ =>
    }
  }

  /** No event of the run touches the profile. */
  predicate Undisturbed(w: World, events: seq<Event>, id: string)
    requires PossibleRun(w, events)
    decreases events
  {
    events != [] ==> !Touches(w, events[0], id) && Undisturbed(Step(w, events[0]), events[1..], id)
  }

  lemma {:induction false} RunCounts(w: World, events: seq<Event>, id: string)
    requires StoreOk(w.store) && PossibleRun(w, events)
    ensures Generation(After(w, events).store, id) >= Generation(w.store, id)
    ensures Undisturbed(w, events, id) <==> Generation(After(w, events).store, id) == Generation(w.store, id)
    ensures Undisturbed(w, events, id) ==>
              SameLifeOrNone(Providers.Find(w.store.profiles, id), Providers.Find(After(w, events).store.profiles, id))
    decreases events
  {
    if events != [] {
      GenerationCounts(w, events[0], id);
      StepKeepsStoreOk(w, events[0]);
      RunCounts(Step(w, events[0]), events[1..], id);
    }
  }

  predicate Ends(e: Event, n: nat) {
    (e.CommitSync? || e.AbandonSync?) && e.sync == n
  }

  lemma {:induction false} TicketWaits(w: World, events: seq<Event>, n: nat)
    requires PossibleRun(w, events) && n in w.tickets
    requires forall e | e in events :: !Ends(e, n)
    ensures n in After(w, events).tickets && After(w, events).tickets[n] == w.tickets[n]
    decreases events
  {
    if events != [] {
      assert events[0] in events;
      TicketWaits(Step(w, events[0]), events[1..], n);
    }
  }

  /** The merge of a sync can take no chosen model away, so only the checks can refuse it. */
  lemma CheckedCommits(s: Store, t: Ticket, catalog: seq<Entry>)
    requires StoreOk(s) && Check(s, t).Ok? && Check(s, t).value.Some? && Merge(catalog, [], true).Ok?
    ensures Commit(s, t, catalog).Ok?
  {
    CheckedIsStored(s, t);
    MergeKeepsModels(catalog, Check(s, t).value.value.models, false);
  }

  /** A sync that started with a profile commits exactly when no lifecycle event met the profile since its
      snapshot: not a delete and recreate, nor a disable and enable, whatever else ran in between. */
  lemma CommitsIffUndisturbed(w: World, n: nat, events: seq<Event>, catalog: seq<Entry>)
    requires StoreOk(w.store) && n in w.tickets && Begin(w.store) == Ok(w.tickets[n]) && w.tickets[n].profile.Some?
    requires PossibleRun(w, events) && (forall e | e in events :: !Ends(e, n)) && Merge(catalog, [], true).Ok?
    ensures var end := After(w, events);
            n in end.tickets &&
            (Commit(end.store, end.tickets[n], catalog).Ok? <==> Undisturbed(w, events, w.tickets[n].profile.value.id))
  {
    var p := w.tickets[n].profile.value;
    FirstNativeIsOne(w.store.profiles);
    FindStored(w.store.profiles, p);
    TicketWaits(w, events, n);
    RunCounts(w, events, p.id);
    RunKeepsStoreOk(w, events);
    var end := After(w, events);
    if Undisturbed(w, events, p.id) { CheckedCommits(end.store, end.tickets[n], catalog); }
  }

  // ---- A sync that began without a profile -----------------------------------------------------------------

  predicate IsNative(p: Option<Profile>) {
    p.Some? && p.value.preset == NATIVE
  }

  /** The event is on the life of this profile, which is native before it or after it. */
  predicate TouchesAsNative(w: World, e: Event, id: string)
    requires Possible(w, e)
  {
    && Touches(w, e, id)
    && (IsNative(Providers.Find(w.store.profiles, id)) || IsNative(Providers.Find(StoreAfter(w, e).profiles, id)))
  }

  ghost predicate TouchesNative(w: World, e: Event)
    requires Possible(w, e)
  {
    exists id :: TouchesAsNative(w, e, id)
  }

  /** An event is on the life of one profile at most. */
  lemma OnlySubject(w: World, e: Event, subject: string)
    requires Possible(w, e) && forall id | id != subject :: !Touches(w, e, id)
    ensures TouchesNative(w, e) <==> TouchesAsNative(w, e, subject)
  {
  }

  lemma AddCountsNative(w: World, p: Profile)
    requires Possible(w, AddProfile(p)) && Create(w.store, p).Ok?
    ensures StoreAfter(w, AddProfile(p)).native == w.store.native + One(TouchesNative(w, AddProfile(p)))
  {
    forall id ensures Providers.Find(Create(w.store, p).value.profiles, id) ==
                      if id == p.id then Some(Tidy(p)) else Providers.Find(w.store.profiles, id) {
      CreateFind(w.store, p, id);
    }
    OnlySubject(w, AddProfile(p), p.id);
  }

  lemma EditCountsNative(w: World, p: Profile, withCredentials: bool)
    requires Possible(w, EditProfile(p, withCredentials)) && Update(w.store, p, withCredentials).Ok?
    ensures var e := EditProfile(p, withCredentials);
            StoreAfter(w, e).native == w.store.native + One(TouchesNative(w, e))
  {
    var e := EditProfile(p, withCredentials);
    TidyIds(p);
    forall id ensures Providers.Find(Update(w.store, p, withCredentials).value.profiles, id) ==
                      if id == p.id then Some(Tidy(p)) else Providers.Find(w.store.profiles, id) {
      UpdateFind(w.store, p, withCredentials, id);
    }
    OnlySubject(w, e, p.id);
  }

  lemma RemoveCountsNative(w: World, gone: string)
    requires Possible(w, RemoveProfile(gone)) && Delete(w.store, gone).Ok?
    ensures StoreAfter(w, RemoveProfile(gone)).native == w.store.native + One(TouchesNative(w, RemoveProfile(gone)))
  {
    forall id ensures Providers.Find(Without(w.store.profiles, gone), id) ==
                      if id == gone then None else Providers.Find(w.store.profiles, id) {
      FindWithout(w.store.profiles, gone, id);
    }
    OnlySubject(w, RemoveProfile(gone), gone);
  }

  lemma CommitCountsNative(w: World, n: nat, catalog: seq<Entry>)
    requires StoreOk(w.store) && Possible(w, CommitSync(n, catalog)) && Commit(w.store, w.tickets[n], catalog).Ok?
    ensures var e := CommitSync(n, catalog);
            StoreAfter(w, e).native == w.store.native + One(TouchesNative(w, e))
  {
    if Check(w.store, w.tickets[n]).value.Some? {
      MergeTouchesNothing(w, n, catalog);
    } else {
      NewProfileCounts(w, n, catalog, NewNative(FreeName(ProfileIds(w.store.profiles), 1), Merge(catalog, [], true).value));
    }
  }

  lemma MergeTouchesNothing(w: World, n: nat, catalog: seq<Entry>)
    requires StoreOk(w.store) && n in w.tickets && Commit(w.store, w.tickets[n], catalog).Ok?
    requires Check(w.store, w.tickets[n]).value.Some?
    ensures var e := CommitSync(n, catalog);
            StoreAfter(w, e).native == w.store.native && !TouchesNative(w, e)
  {
    var s, t := w.store, w.tickets[n];
    CheckedIsStored(s, t);
    var before := Check(s, t).value.value;
    var p := before.(models := Merge(catalog, before.models, false).value);
    TidyIds(p);
    forall id ensures !Touches(w, CommitSync(n, catalog), id) { UpdateFind(s, p, false, id); }
  }

  lemma NewProfileCounts(w: World, n: nat, catalog: seq<Entry>, p: Profile)
    requires n in w.tickets && p.preset == NATIVE && Create(w.store, p).Ok?
    requires StoreAfter(w, CommitSync(n, catalog)) == Create(w.store, p).value
    ensures StoreAfter(w, CommitSync(n, catalog)).native == w.store.native + 1 && TouchesNative(w, CommitSync(n, catalog))
  {
    CreateFind(w.store, p, p.id);
    assert TouchesAsNative(w, CommitSync(n, catalog), p.id);
  }

  /** The shared counter counts exactly the lifecycle events of native profiles. */
  lemma NativeCounts(w: World, e: Event)
    requires StoreOk(w.store) && Possible(w, e)
    ensures StoreAfter(w, e).native == w.store.native + One(TouchesNative(w, e))
  {
    match e {
      case AddProfile(p) => if Create(w.store, p).Ok? { AddCountsNative(w, p); }
      case EditProfile(p, c) => if Update(w.store, p, c).Ok? { EditCountsNative(w, p, c); }
      case RemoveProfile(gone) => if Delete(w.store, gone).Ok? { RemoveCountsNative(w, gone); }
      case CommitSync(n, catalog) => if Commit(w.store, w.tickets[n], catalog).Ok? { CommitCountsNative(w, n, catalog); }
      case _ =>
    }
  }

  ghost function NativeEvents(w: World, events: seq<Event>): nat
    requires PossibleRun(w, events)
    decreases events
  {
    if events == [] then 0 else One(TouchesNative(w, events[0])) + NativeEvents(Step(w, events[0]), events[1..])
  }

  /** Native profiles come only with such an event. */
  lemma NoNativeStep(w: World, e: Event)
    requires StoreOk(w.store) && Possible(w, e) && NoNative(w.store.profiles) && !TouchesNative(w, e)
    ensures NoNative(StoreAfter(w, e).profiles)
  {
    StepKeepsStoreOk(w, e);
    forall p | p in StoreAfter(w, e).profiles ensures p.preset != NATIVE {
      FindStored(StoreAfter(w, e).profiles, p);
      assert !TouchesAsNative(w, e, p.id);
    }
  }

  lemma {:induction false} NativeRunCounts(w: World, events: seq<Event>)
    requires StoreOk(w.store) && PossibleRun(w, events)
    ensures After(w, events).store.native == w.store.native + NativeEvents(w, events)
    ensures NoNative(w.store.profiles) && NativeEvents(w, events) == 0 ==> NoNative(After(w, events).store.profiles)
    decreases events
  {
    if events != [] {
      NativeCounts(w, events[0]);
      StepKeepsStoreOk(w, events[0]);
      NativeRunCounts(Step(w, events[0]), events[1..]);
      if NoNative(w.store.profiles) && !TouchesNative(w, events[0]) { NoNativeStep(w, events[0]); }
    }
  }

  /** Without a native profile, a sync that asks for a new one always gets it. */
  lemma NewProfileCommits(s: Store, t: Ticket, catalog: seq<Entry>)
    requires Check(s, t) == Ok(None) && Merge(catalog, [], true).Ok?
    ensures Commit(s, t, catalog).Ok?
  {
    var j := FreeNameIsFree(ProfileIds(s.profiles), 1);
    assert Providers.Find(s.profiles, FreeName(ProfileIds(s.profiles), 1)).None?;
  }

  lemma NoFirstNative(profiles: seq<Profile>)
    requires FirstNative(profiles).None? && !HasNative(profiles)
    ensures NoNative(profiles)
  {
    forall p | p in profiles ensures p.preset != NATIVE {
      var i :| 0 <= i < |profiles| && profiles[i] == p;
    }
  }

  lemma NoNativeHasNone(profiles: seq<Profile>)
    requires NoNative(profiles)
    ensures FirstNative(profiles).None? && !HasNative(profiles)
  {
    FirstNativeIsOne(profiles);
  }

  /** A sync that started without a native profile commits exactly when nothing happened to native profiles
      since its snapshot, or one thing did: one was created, and it is enabled. */
  lemma CommitsIffAtMostOneCreation(w: World, n: nat, events: seq<Event>, catalog: seq<Entry>)
    requires StoreOk(w.store) && n in w.tickets && Begin(w.store) == Ok(w.tickets[n]) && w.tickets[n].profile.None?
    requires PossibleRun(w, events) && (forall e | e in events :: !Ends(e, n)) && Merge(catalog, [], true).Ok?
    ensures var end := After(w, events);
            n in end.tickets &&
            (Commit(end.store, end.tickets[n], catalog).Ok? <==>
              || NativeEvents(w, events) == 0
              || (NativeEvents(w, events) == 1 && FirstNative(end.store.profiles).Some?))
  {
    var end := After(w, events);
    NoFirstNative(w.store.profiles);
    TicketWaits(w, events, n);
    RunKeepsStoreOk(w, events);
    NativeRunCounts(w, events);
    if NativeEvents(w, events) == 0 { NoNativeHasNone(end.store.profiles); }
    if Check(end.store, end.tickets[n]).Ok? {
      if Check(end.store, end.tickets[n]).value.Some? {
        CheckedCommits(end.store, end.tickets[n], catalog);
      } else {
        NewProfileCommits(end.store, end.tickets[n], catalog);
      }
    }
  }

  // ---- Syncs among themselves ----------------------------------------------------------------------------

  predicate SyncOnly(events: seq<Event>) {
    forall e | e in events :: e.BeginSync? || e.CommitSync? || e.AbandonSync?
  }

  predicate NoNative(profiles: seq<Profile>) {
    forall p | p in profiles :: p.preset != NATIVE
  }

  /** The one native profile, enabled. */
  predicate OnlyNative(profiles: seq<Profile>, p: Profile) {
    p in profiles && p.preset == NATIVE && p.enabled && (forall q | q in profiles && q.preset == NATIVE :: q == p)
  }

  /** A ticket of a sync that will find the others' profile. */
  predicate TicketFits(t: Ticket, s: Store, p: Profile, native: nat) {
    if t.profile.None? then t.native == native
    else t.profile.value.id == p.id && SameLife(t.profile.value, p) && t.generation == Generation(s, p.id)
  }

  ghost predicate NoneYet(w: World, native: nat) {
    && NoNative(w.store.profiles) && w.store.native == native
    && (forall n | n in w.tickets :: w.tickets[n].profile.None? && w.tickets[n].native == native)
  }

  ghost predicate OneProfile(w: World, native: nat, p: Profile) {
    && OnlyNative(w.store.profiles, p) && w.store.native == native + 1
    && (forall n | n in w.tickets :: TicketFits(w.tickets[n], w.store, p, native))
  }

  /** Where syncs alone can lead, native being the counter at the start. */
  ghost predicate Shared(w: World, native: nat) {
    StoreOk(w.store) && (NoneYet(w, native) || exists p :: OneProfile(w, native, p))
  }

  lemma NativeOf(s: Store, p: Profile)
    requires StoreOk(s) && OnlyNative(s.profiles, p)
    ensures NativeProfile(s) == Ok(Some(p)) && Providers.Find(s.profiles, p.id) == Some(p)
  {
    FirstNativeIsOne(s.profiles);
    FindStored(s.profiles, p);
  }

  lemma NativeOfNone(s: Store)
    requires NoNative(s.profiles)
    ensures NativeProfile(s) == Ok(None)
  {
    FirstNativeIsOne(s.profiles);
  }

  /** In a shared state every ticket passes its check. */
  lemma SharedChecks(w: World, native: nat, n: nat)
    requires Shared(w, native) && n in w.tickets
    ensures var c := Check(w.store, w.tickets[n]);
            && c.Ok?
            && (if NoNative(w.store.profiles) then c.value.None?
                else c.value.Some? && OnlyNative(w.store.profiles, c.value.value))
  {
    if NoNative(w.store.profiles) {
      NativeOfNone(w.store);
    } else {
      var p :| OneProfile(w, native, p);
      NativeOf(w.store, p);
    }
  }

  /** In a shared state every sync with a usable catalog commits. */
  lemma SharedCommits(w: World, native: nat, n: nat, catalog: seq<Entry>)
    requires Shared(w, native) && n in w.tickets && Merge(catalog, [], true).Ok?
    ensures Commit(w.store, w.tickets[n], catalog).Ok?
  {
    SharedChecks(w, native, n);
    if NoNative(w.store.profiles) {
      var j := FreeNameIsFree(ProfileIds(w.store.profiles), 1);
      var name := FreeName(ProfileIds(w.store.profiles), 1);
      assert Providers.Find(w.store.profiles, name).None?;
    } else {
      CheckedCommits(w.store, w.tickets[n], catalog);
    }
  }

  /** The first commit creates the profile. */
  lemma FirstCommit(s: Store, t: Ticket, catalog: seq<Entry>) returns (p: Profile)
    requires StoreOk(s) && NoNative(s.profiles) && Commit(s, t, catalog).Ok? && Check(s, t) == Ok(None)
    ensures OnlyNative(Commit(s, t, catalog).value.profiles, p) && Commit(s, t, catalog).value.native == s.native + 1
  {
    var made := NewNative(FreeName(ProfileIds(s.profiles), 1), Merge(catalog, [], true).value);
    p := Tidy(made);
    TidyIds(made);
    assert Commit(s, t, catalog).value.profiles == s.profiles + [p];
  }

  /** A later commit gives it more models. */
  lemma LaterCommit(s: Store, t: Ticket, catalog: seq<Entry>) returns (p: Profile)
    requires StoreOk(s) && Check(s, t).Ok? && Check(s, t).value.Some? && Commit(s, t, catalog).Ok?
    requires OnlyNative(s.profiles, Check(s, t).value.value)
    ensures var before := Check(s, t).value.value;
            OnlyNative(Commit(s, t, catalog).value.profiles, p) && p.id == before.id && SameLife(p, before)
    ensures Commit(s, t, catalog).value.native == s.native && Commit(s, t, catalog).value.generations == s.generations
  {
    var before := Check(s, t).value.value;
    CheckedIsStored(s, t);
    var given := before.(models := Merge(catalog, before.models, false).value);
    p := Tidy(given);
    TidyIds(given);
    ReplaceKeepsIds(s.profiles, p);
    CommitKeeps(s, t, catalog);
    UpdateFind(s, given, false, p.id);
    ReplaceKeepsOthers(s.profiles, p, before);
  }

  lemma {:induction false} ReplaceKeepsOthers(profiles: seq<Profile>, p: Profile, before: Profile)
    requires DistinctProfiles(profiles) && before in profiles && p.id == before.id
    ensures p in Replace(profiles, p)
    ensures forall q | q in Replace(profiles, p) && q != p :: q in profiles && q != before
  {
    if profiles[0].id == p.id {
      assert profiles[0] == before;
      assert forall i | 0 < i < |profiles| :: profiles[i].id != profiles[0].id;
    } else {
      ReplaceKeepsOthers(profiles[1..], p, before);
    }
  }

  lemma CommitStaysShared(w: World, native: nat, n: nat, catalog: seq<Entry>)
    requires Shared(w, native) && n in w.tickets && Commit(w.store, w.tickets[n], catalog).Ok?
    ensures Shared(Step(w, CommitSync(n, catalog)), native)
  {
    var e := CommitSync(n, catalog);
    StepKeepsStoreOk(w, e);
    SharedChecks(w, native, n);
    if NoNative(w.store.profiles) {
      var p := FirstCommit(w.store, w.tickets[n], catalog);
      assert OneProfile(Step(w, e), native, p);
    } else {
      var before := Check(w.store, w.tickets[n]).value.value;
      var p := LaterCommit(w.store, w.tickets[n], catalog);
      assert OneProfile(w, native, before);
      assert OneProfile(Step(w, e), native, p);
    }
  }

  lemma BeginStaysShared(w: World, native: nat, n: nat)
    requires Shared(w, native) && n !in w.tickets
    ensures Begin(w.store).Ok? && Shared(Step(w, BeginSync(n)), native)
  {
    if NoNative(w.store.profiles) {
      NativeOfNone(w.store);
    } else {
      var p :| OneProfile(w, native, p);
      NativeOf(w.store, p);
      assert OneProfile(Step(w, BeginSync(n)), native, p);
    }
  }

  lemma StepStaysShared(w: World, native: nat, e: Event)
    requires Shared(w, native) && Possible(w, e) && (e.BeginSync? || e.CommitSync? || e.AbandonSync?)
    ensures Shared(Step(w, e), native)
  {
    match e {
      case BeginSync(n) => BeginStaysShared(w, native, n);
      case CommitSync(n, catalog) =>
        if Commit(w.store, w.tickets[n], catalog).Ok? {
          CommitStaysShared(w, native, n, catalog);
        } else {
          EndStaysShared(w, native, n);
        }
      case AbandonSync(n) => EndStaysShared(w, native, n);
    }
  }

  /** A sync that ends without a commit. */
  lemma EndStaysShared(w: World, native: nat, n: nat)
    requires Shared(w, native)
    ensures Shared(World(w.store, w.tickets - {n}), native)
  {
    if !NoneYet(w, native) {
      var p :| OneProfile(w, native, p);
      assert OneProfile(World(w.store, w.tickets - {n}), native, p);
    }
  }

  lemma {:induction false} RunStaysShared(w: World, native: nat, events: seq<Event>)
    requires Shared(w, native) && PossibleRun(w, events) && SyncOnly(events)
    ensures Shared(After(w, events), native)
    decreases events
  {
    if events != [] {
      assert events[0] in events;
      StepStaysShared(w, native, events[0]);
      RunStaysShared(Step(w, events[0]), native, events[1..]);
    }
  }

  predicate AtMostOneNative(profiles: seq<Profile>) {
    forall p, q | p in profiles && q in profiles && p.preset == NATIVE && q.preset == NATIVE :: p == q
  }

  /** Syncs alone, however they interleave, create at most one native profile, and none of them is
      refused: a new sync can begin, and every sync under way commits a usable catalog. */
  lemma ConcurrentSyncsShareOneProfile(w: World, events: seq<Event>)
    requires StoreOk(w.store) && NoNative(w.store.profiles) && w.tickets == map[]
    requires PossibleRun(w, events) && SyncOnly(events)
    ensures var end := After(w, events);
            && AtMostOneNative(end.store.profiles)
            && DistinctProfiles(end.store.profiles)
            && Begin(end.store).Ok?
            && (forall n, catalog | n in end.tickets && Merge(catalog, [], true).Ok? ::
                  Commit(end.store, end.tickets[n], catalog).Ok?)
  {
    var native := w.store.native;
    RunStaysShared(w, native, events);
    var end := After(w, events);
    forall n, catalog | n in end.tickets && Merge(catalog, [], true).Ok?
      ensures Commit(end.store, end.tickets[n], catalog).Ok? {
      SharedCommits(end, native, n, catalog);
    }
    if NoNative(end.store.profiles) {
      NativeOfNone(end.store);
    } else {
      var p :| OneProfile(end, native, p);
      NativeOf(end.store, p);
    }
  }
}
