/** File compensation hooks of a record transaction, run last in, first out. */
module Rollback {
  import opened Basics

  type Files = map<string, string>

  /** A hook puts back what it saw when it was registered: the tracked files of an existing directory,
      or the absence of a directory that the caller is about to fill. */
  datatype Hook = RestoreFiles(originals: map<string, Option<string>>) | RemoveDirectory

  /** The App directory, if there is one. */
  type Directory = Option<Files>

  function Captured(files: Files, names: set<string>): map<string, Option<string>> {
    map n | n in names :: if n in files then Some(files[n]) else None
  }

  function PutBack(files: Files, originals: map<string, Option<string>>): Files {
    (files - originals.Keys) + map n | n in originals && originals[n].Some? :: originals[n].value
  }

  function RunHook(d: Directory, hook: Hook): Directory {
    match hook
    case RemoveDirectory => None
    case RestoreFiles(originals) => if d.Some? then Some(PutBack(d.value, originals)) else None
  }

  /** What happens inside a transaction, in order. */
  datatype Event =
    | TrackNew                             // the directory is absent: create it, and register its removal
    | Track(names: set<string>)            // capture these files and register their restoration
    | Write(name: string, content: string)
    | Unlink(name: string)

  datatype Progress = Progress(directory: Directory, hooks: seq<Hook>)

  function Perform(p: Progress, e: Event): Progress {
    match e
    case TrackNew => if p.directory.None? then Progress(Some(map[]), p.hooks + [RemoveDirectory]) else p
    case Track(names) =>
      if p.directory.Some? then p.(hooks := p.hooks + [RestoreFiles(Captured(p.directory.value, names))]) else p
    case Write(name, content) =>
      if p.directory.Some? then p.(directory := Some(p.directory.value[name := content])) else p
    case Unlink(name) =>
      if p.directory.Some? then p.(directory := Some(p.directory.value - {name})) else p
  }

  function PerformAll(p: Progress, events: seq<Event>): Progress
    decreases events
  {
    if events == [] then p else PerformAll(Perform(p, events[0]), events[1..])
  }

  /** `rollback_filesystem`: the hooks in reverse order of registration. */
  function RunBack(d: Directory, hooks: seq<Hook>): Directory
    decreases hooks
  {
    if hooks == [] then d else RunBack(RunHook(d, hooks[|hooks| - 1]), hooks[..|hooks| - 1])
  }

  /** A hook that raises is logged, and the next one runs. */
  function RunBackExcept(d: Directory, hooks: seq<Hook>, raised: set<nat>): Directory
    decreases hooks
  {
    if hooks == [] then d
    else
      var last := |hooks| - 1;
      RunBackExcept(if last in raised then d else RunHook(d, hooks[last]), hooks[..last], raised)
  }

  /** In order of registration, which is not what the program does. */
  function RunForward(d: Directory, hooks: seq<Hook>): Directory
    decreases hooks
  {
    if hooks == [] then d else RunForward(RunHook(d, hooks[0]), hooks[1..])
  }

  /** Some hook will take care of this file. */
  predicate Covered(hooks: seq<Hook>, name: string) {
    exists i :: 0 <= i < |hooks| && (hooks[i].RemoveDirectory? || name in hooks[i].originals)
  }

  /** The discipline of the callers: no file is written or unlinked before a hook tracks it, and only a
      missing directory is created. */
  predicate Disciplined(p: Progress, events: seq<Event>)
    decreases events
  {
    events == [] ||
    (&& (match events[0]
         case Write(name, _) => Covered(p.hooks, name)
         case Unlink(name) => Covered(p.hooks, name)
         case _ => true)
     && Disciplined(Perform(p, events[0]), events[1..]))
  }

  lemma {:induction false} RunBackSnoc(d: Directory, hooks: seq<Hook>, h: Hook)
    ensures RunBack(d, hooks + [h]) == RunBack(RunHook(d, h), hooks)
  {
    assert (hooks + [h])[..|hooks + [h]| - 1] == hooks;
  }

  /** Files outside a set of names are the same. */
  predicate SameExcept(a: Files, b: Files, name: string) {
    a - {name} == b - {name}
  }

  /** The hooks forget whatever happened to a file they cover. */
  lemma {:induction false} CoveredIsForgotten(a: Files, b: Files, hooks: seq<Hook>, name: string)
    requires SameExcept(a, b, name) && Covered(hooks, name)
    ensures RunBack(Some(a), hooks) == RunBack(Some(b), hooks)
    decreases hooks
  {
    var last, rest := hooks[|hooks| - 1], hooks[..|hooks| - 1];
    if last.RestoreFiles? {
      var x, y := PutBack(a, last.originals), PutBack(b, last.originals);
      if name in last.originals {
        forall n ensures n in x <==> n in y {
          if n != name { assert n in a - {name} <==> n in b - {name}; }
        }
        forall n | n in x ensures x[n] == y[n] {
          if n != name && n !in last.originals { assert (a - {name})[n] == (b - {name})[n]; }
        }
        assert x == y;
      } else {
        SameAfterHook(a, b, last.originals, name);
        CoveredIsForgotten(x, y, rest, name);
      }
    }
  }

  lemma {:induction false} SameAfterHook(a: Files, b: Files, originals: map<string, Option<string>>, name: string)
    requires SameExcept(a, b, name)
    ensures SameExcept(PutBack(a, originals), PutBack(b, originals), name)
  {
    var x, y := PutBack(a, originals) - {name}, PutBack(b, originals) - {name};
    forall n ensures n in x <==> n in y {
      if n != name { assert n in a - {name} <==> n in b - {name}; }
    }
    forall n | n in x ensures x[n] == y[n] {
      if n !in originals { assert (a - {name})[n] == (b - {name})[n]; }
    }
  }

  lemma PutBackCaptured(files: Files, names: set<string>)
    ensures PutBack(files, Captured(files, names)) == files
  {
  }

  /** Each event leaves the rolled-back state where it was. */
  lemma {:induction false} EventIsUndone(p: Progress, e: Event)
    requires Disciplined(p, [e])
    ensures RunBack(Perform(p, e).directory, Perform(p, e).hooks) == RunBack(p.directory, p.hooks)
  {
    match e
    case TrackNew =>
      if p.directory.None? { RunBackSnoc(Some(map[]), p.hooks, RemoveDirectory); }
    case Track(names) =>
      if p.directory.Some? {
        RunBackSnoc(p.directory, p.hooks, RestoreFiles(Captured(p.directory.value, names)));
        PutBackCaptured(p.directory.value, names);
      }
    case Write(name, content) =>
      if p.directory.Some? {
        assert p.directory.value - {name} == p.directory.value[name := content] - {name};
        CoveredIsForgotten(p.directory.value, p.directory.value[name := content], p.hooks, name);
      }
    case Unlink(name) =>
      if p.directory.Some? {
        assert p.directory.value - {name} == (p.directory.value - {name}) - {name};
        CoveredIsForgotten(p.directory.value, p.directory.value - {name}, p.hooks, name);
      }
  }

  /** Whatever a disciplined transaction did to the directory, running its hooks last in, first out
      gives back the directory it began with. */
  lemma {:induction false} RollbackRestores(p: Progress, events: seq<Event>)
    requires Disciplined(p, events)
    ensures var q := PerformAll(p, events);
            RunBack(q.directory, q.hooks) == RunBack(p.directory, p.hooks)
    decreases events
  {
    if events != [] {
      assert [events[0]][1..] == [];
      EventIsUndone(p, events[0]);
      RollbackRestores(Perform(p, events[0]), events[1..]);
    }
  }

  /** A transaction that starts without hooks and fails at any point leaves the directory unchanged. */
  lemma FailureLeavesDirectory(d: Directory, events: seq<Event>)
    requires Disciplined(Progress(d, []), events)
    ensures var q := PerformAll(Progress(d, []), events);
            RunBack(q.directory, q.hooks) == d
  {
    RollbackRestores(Progress(d, []), events);
  }

  /** Two hooks that saw the same file differently. */
  predicate Conflict(a: Hook, b: Hook) {
    && a.RestoreFiles? && b.RestoreFiles?
    && exists n :: n in a.originals && n in b.originals && a.originals[n] != b.originals[n]
  }

  lemma TwoHooks(d: Directory, a: Hook, b: Hook)
    ensures RunBack(d, [a, b]) == RunHook(RunHook(d, b), a)
    ensures RunForward(d, [a, b]) == RunHook(RunHook(d, a), b)
  {
    RunBackSnoc(d, [a], b);
    RunBackSnoc(RunHook(d, b), [], a);
    assert [a] + [b] == [a, b] && [] + [a] == [a] && [a, b][1..] == [b] && [b][1..] == [];
    var end := RunHook(RunHook(d, a), b);
    assert RunForward(end, []) == end && RunForward(RunHook(d, a), [b]) == end;
  }

  function At(files: Files, name: string): Option<string> {
    if name in files then Some(files[name]) else None
  }

  lemma PutBackAt(files: Files, originals: map<string, Option<string>>, name: string)
    ensures At(PutBack(files, originals), name) == if name in originals then originals[name] else At(files, name)
  {
  }

  lemma SameFiles(a: Files, b: Files)
    requires forall n :: At(a, n) == At(b, n)
    ensures a == b
  {
    forall n ensures n in a <==> n in b
             ensures n in a ==> n in b && a[n] == b[n] { assert At(a, n) == At(b, n); }
  }

  lemma {:induction false} PutBackTwice(files: Files, a: map<string, Option<string>>, b: map<string, Option<string>>)
    ensures PutBack(PutBack(files, a), b) == PutBack(PutBack(files, b), a) <==>
            forall n | n in a && n in b :: a[n] == b[n]
  {
    var x, y := PutBack(PutBack(files, a), b), PutBack(PutBack(files, b), a);
    forall n
      ensures At(x, n) == if n in b then b[n] else if n in a then a[n] else At(files, n)
      ensures At(y, n) == if n in a then a[n] else if n in b then b[n] else At(files, n)
    {
      PutBackAt(files, a, n);
      PutBackAt(files, b, n);
      PutBackAt(PutBack(files, a), b, n);
      PutBackAt(PutBack(files, b), a, n);
    }
    if forall n | n in a && n in b :: a[n] == b[n] {
      SameFiles(x, y);
    } else {
      var n :| n in a && n in b && a[n] != b[n];
      assert At(x, n) != At(y, n);
    }
  }

  /** For which hooks the order matters: two hooks come to the same directory in either order exactly when
      there is none, or no file that they saw differently. */
  lemma OrderMatters(d: Directory, a: Hook, b: Hook)
    ensures RunBack(d, [a, b]) == RunForward(d, [a, b]) <==> d.None? || !Conflict(a, b)
  {
    TwoHooks(d, a, b);
    if d.Some? && a.RestoreFiles? && b.RestoreFiles? { PutBackTwice(d.value, a.originals, b.originals); }
  }

  /** Tracking a file, writing it and tracking it again registers such hooks unless the write changed
      nothing. */
  lemma TrackingTwiceConflicts(files: Files, hooks: seq<Hook>, name: string, content: string)
    ensures var p := PerformAll(Progress(Some(files), hooks), [Track({name}), Write(name, content), Track({name})]);
            && |p.hooks| == |hooks| + 2
            && (Conflict(p.hooks[|hooks|], p.hooks[|hooks| + 1]) <==> !(name in files && files[name] == content))
  {
    var events := [Track({name}), Write(name, content), Track({name})];
    assert events[1..] == [Write(name, content), Track({name})] && events[1..][1..] == [Track({name})];
    assert [Track({name})][1..] == [];
    var a, b := Captured(files, {name}), Captured(files[name := content], {name});
    var p1 := Progress(Some(files), hooks + [RestoreFiles(a)]);
    var p2 := Progress(Some(files[name := content]), p1.hooks);
    var p3 := Progress(p2.directory, p1.hooks + [RestoreFiles(b)]);
    assert PerformAll(p3, []) == p3 && PerformAll(p2, [Track({name})]) == p3 && PerformAll(p1, events[1..]) == p3;
    assert a == map[name := At(files, name)] && b == map[name := Some(content)];
    assert p3.hooks[|hooks|] == RestoreFiles(a) && p3.hooks[|hooks| + 1] == RestoreFiles(b);
    assert name in a && name in b && (a[name] == b[name] <==> At(files, name) == Some(content));
  }

  lemma {:induction false} NothingRaised(d: Directory, hooks: seq<Hook>)
    ensures RunBackExcept(d, hooks, {}) == RunBack(d, hooks)
    decreases hooks
  {
    if hooks != [] { NothingRaised(RunHook(d, hooks[|hooks| - 1]), hooks[..|hooks| - 1]); }
  }

  /** A hook that raises costs its own files and no others: every file that no raising hook saw ends where
      it would have ended. */
  lemma {:induction false} RaisingCostsOwnFiles(a: Files, b: Files, hooks: seq<Hook>, raised: set<nat>, name: string)
    requires forall i | 0 <= i < |hooks| :: hooks[i].RestoreFiles? && (i in raised ==> name !in hooks[i].originals)
    requires At(a, name) == At(b, name)
    ensures var x, y := RunBackExcept(Some(a), hooks, raised), RunBack(Some(b), hooks);
            x.Some? && y.Some? && At(x.value, name) == At(y.value, name)
    decreases hooks
  {
    if hooks != [] {
      var last := |hooks| - 1;
      var originals := hooks[last].originals;
      PutBackAt(a, originals, name);
      PutBackAt(b, originals, name);
      RaisingCostsOwnFiles(if last in raised then a else PutBack(a, originals), PutBack(b, originals),
                           hooks[..last], raised, name);
    }
  }

  function Updated(d: Directory, obsolete: set<string>, js: string, manifest: string): Files {
    ((if d.Some? then d.value else map[]) - obsolete)["controller.js" := js]["manifest.json" := manifest]
  }

  /** One file of a directory; None if it is not there. */
  function FileAt(d: Directory, name: string): Option<string> {
    if d.Some? && name in d.value then Some(d.value[name]) else None
  }

  /** What a successful update leaves: both files as given, no obsolete file, and every other file as it was. */
  lemma UpdatedMeans(d: Directory, obsolete: set<string>, js: string, manifest: string, name: string)
    ensures FileAt(Some(Updated(d, obsolete, js, manifest)), name) ==
            if name == "manifest.json" then Some(manifest) else if name == "controller.js" then Some(js)
            else if name in obsolete then None else FileAt(d, name)
  {
  }

  /** What an event does to each file, and the hook it leaves: one that saw every tracked file as it was, or the
      absence of the directory. */
  lemma PerformMeans(p: Progress, e: Event, name: string)
    ensures var q := Perform(p, e);
            match e
            case Write(n, content) =>
              && q.hooks == p.hooks && q.directory.Some? == p.directory.Some?
              && FileAt(q.directory, name) ==
                 if p.directory.Some? && name == n then Some(content) else FileAt(p.directory, name)
            case Unlink(n) =>
              && q.hooks == p.hooks && q.directory.Some? == p.directory.Some?
              && FileAt(q.directory, name) == if name == n then None else FileAt(p.directory, name)
            case TrackNew =>
              if p.directory.Some? then q == p
              else q.directory == Some(map[]) && q.hooks == p.hooks + [RemoveDirectory]
            case Track(names) =>
              && q.directory == p.directory
              && if p.directory.None? then q.hooks == p.hooks
                 else
                   && |q.hooks| == |p.hooks| + 1 && q.hooks[..|p.hooks|] == p.hooks
                   && var hook := q.hooks[|p.hooks|];
                   && hook.RestoreFiles? && hook.originals.Keys == names
                   && (name in names ==> hook.originals[name] == FileAt(p.directory, name))
  {
  }

  /** The transaction object: hooks pile up and a rollback runs them backwards. */
  class AppRecordTransaction {
    var directory: Directory
    var rollbackActions: seq<Hook>

    constructor (d: Directory)
      ensures directory == d && rollbackActions == []
    {
      directory, rollbackActions := d, [];
    }

    method AddRollback(hook: Hook)
      modifies this`rollbackActions
      ensures rollbackActions == old(rollbackActions) + [hook]
    {
      rollbackActions := rollbackActions + [hook];
    }

    method RollbackFilesystem() returns (raised: set<nat>)
      modifies this`directory
      ensures forall i | i in raised :: i < |rollbackActions|
      ensures directory == RunBackExcept(old(directory), rollbackActions, raised)
      ensures raised == {} ==> directory == RunBack(old(directory), rollbackActions)
    {
      raised := {};
      var i := |rollbackActions|;
      assert rollbackActions[..i] == rollbackActions;
      while i > 0
        invariant 0 <= i <= |rollbackActions|
        invariant forall k | k in raised :: i <= k < |rollbackActions|
        invariant forall more: set<nat> | (forall k | k in more :: k < i) ::
          RunBackExcept(old(directory), rollbackActions, raised + more)
          == RunBackExcept(directory, rollbackActions[..i], raised + more)
      {
        assert rollbackActions[..i][..i - 1] == rollbackActions[..i - 1];
        if * {
          ghost var before := raised;
          raised := raised + {i - 1};
          forall more: set<nat> | forall k | k in more :: k < i - 1
            ensures RunBackExcept(old(directory), rollbackActions, raised + more)
                 == RunBackExcept(directory, rollbackActions[..i - 1], raised + more) {
            assert before + ({i - 1} + more) == raised + more;
          }
        } else {
          match rollbackActions[i - 1] {
            case RemoveDirectory => directory := None;
            case RestoreFiles(originals) =>
              if directory.Some? { directory := Some(PutBack(directory.value, originals)); }
          }
        }
        i := i - 1;
      }
      assert raised + {} == raised;
      if raised == {} { NothingRaised(old(directory), rollbackActions); }
    }

    /** Writes the controller and the manifest of an App. The manifest fails validation when it is None, and
        any write may fail. */
    method CreateOrUpdateApp(js: string, manifest: Option<string>, obsolete: set<string>)
      returns (ok: bool, raised: set<nat>)
      requires rollbackActions == []
      requires "controller.js" !in obsolete && "manifest.json" !in obsolete
      modifies this
      ensures !ok && raised == {} ==> directory == old(directory)
      ensures ok ==> manifest.Some?
      ensures ok ==> directory == Some(Updated(old(directory), obsolete, js, manifest.value))
    {
      var tracked := {"controller.js", "manifest.json"} + obsolete;
      ghost var events: seq<Event> := [];
      if directory.None? {
        directory := Some(map[]);
        AddRollback(RemoveDirectory);
      } else {
        AddRollback(RestoreFiles(Captured(directory.value, tracked)));
      }
      ghost var start := directory.value;
      if manifest.None? {
        Undo(old(directory), start, tracked);
        raised := RollbackFilesystem();
        return false, raised;
      }
      directory := Some(directory.value["controller.js" := js]);
      if * {
        Undo(old(directory), start, tracked);
        raised := RollbackFilesystem();
        return false, raised;
      }
      directory := Some(directory.value - obsolete);
      if * {
        Undo(old(directory), start, tracked);
        raised := RollbackFilesystem();
        return false, raised;
      }
      directory := Some(directory.value["manifest.json" := manifest.value]);
      if * {
        Undo(old(directory), start, tracked);
        raised := RollbackFilesystem();
        return false, raised;
      }
      assert directory.value == Updated(old(directory), obsolete, js, manifest.value);
      return true, {};
    }

    /** The one hook of an update undoes any change to the tracked files. */
    lemma Undo(before: Directory, start: Files, tracked: set<string>)
      requires directory.Some? && directory.value - tracked == start - tracked
      requires rollbackActions ==
        [if before.None? then RemoveDirectory else RestoreFiles(Captured(before.value, tracked))]
      requires before.Some? ==> start == before.value
      ensures RunBack(directory, rollbackActions) == before
    {
      RunBackSnoc(directory, [], rollbackActions[0]);
      assert [] + rollbackActions == rollbackActions;
      if before.Some? {
        var back := PutBack(directory.value, Captured(before.value, tracked));
        forall n ensures n in back <==> n in start {
          if n !in tracked { assert n in directory.value - tracked <==> n in start - tracked; }
        }
        forall n | n in back ensures back[n] == start[n] {
          if n !in tracked { assert (directory.value - tracked)[n] == (start - tracked)[n]; }
        }
        assert back == start;
      }
    }
  }
}
