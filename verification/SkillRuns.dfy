/** Runs of the skill repository in which the operations of different skills, and the clean-up, which takes
    no lock, interleave: each operation takes a snapshot, copies a candidate and then replaces a directory.
    When is a version that was enabled never lost? */
module SkillRuns {
  import opened Prelude
  import opened SkillRepository

  /** What an operation has yet to do under its lock. */
  datatype Work = Enabling(draftId: string, expected: Option<string>) | Disabling | RollingBack(digest: string)
      | Removing(at: Loc)

  datatype Pending = Pending(work: Work, candidate: Option<Package>)

  /** The directories, and the operations under way by the key of their lock. */
  datatype State = State(fs: Files, pending: map<string, Pending>)

  /** An operation begins with its checks and the snapshot. `read` is what it read before the lock. */
  datatype Event =
    | BeginEnable(draftId: string, read: Package, expected: Option<string>)
    | BeginDisable(id: string)
    | BeginRollback(id: string, digest: string)
    | BeginRemove(id: string, read: Package)
    | Copies(key: string)
    | Replaces(key: string)
    | Aborts(key: string)
    | Writes(draftId: string, package: Package)
    | Cleans(id: string, digest: string)

  /** The lock is free and `snapshotEnabled` does not throw. */
  predicate CanBegin(s: State, key: string, validate: Package -> Validation) {
    key !in s.pending && (Enabled(key) in s.fs ==> validate(s.fs[Enabled(key)]).valid)
  }

  function Begin(s: State, key: string, work: Work, validate: Package -> Validation): State {
    if CanBegin(s, key, validate) then State(Snapshot(s.fs, validate, key), s.pending[key := Pending(work, None)])
        else s
  }

  function OnBeginRemove(s: State, id: string, read: Package, validate: Package -> Validation): State {
    var before := MetadataOf(validate(read), id);
    var at := Locate(s.fs, id);
    if at.None? || before.skillId in s.pending then s
    else
      var pending := s.pending[before.skillId := Pending(Removing(at.value), None)];
      var version := History(before.skillId, before.digest);
      if at.value.Draft? || !before.valid || version in s.fs then State(s.fs, pending)
      else if Accepts(validate(s.fs[at.value]), Some(before.digest))
          then State(s.fs[version := s.fs[at.value]], pending)
      else s
  }

  /** What an operation copies. */
  function Source(key: string, work: Work): Option<Loc> {
    match work
    case Enabling(draftId, _) => Some(Draft(draftId))
    case Disabling => Some(Enabled(key))
    case RollingBack(digest) => Some(History(key, digest))
    case Removing(_) => None
  }

  /** The candidate is a copy; that of a draft is validated once more. */
  function OnCopies(s: State, key: string, validate: Package -> Validation): State {
    if key !in s.pending then s
    else
      var work := s.pending[key].work;
      var source := Source(key, work);
      if source.None? || source.value !in s.fs then s
      else if work.Enabling? && !Accepts(validate(s.fs[source.value]), work.expected) then s
      else s.(pending := s.pending[key := Pending(work, Some(s.fs[source.value]))])
  }

  function OnReplaces(s: State, key: string): State {
    if key !in s.pending then s
    else
      var pending, candidate, left := s.pending[key].work, s.pending[key].candidate, s.pending - {key};
      match pending
      case Removing(at) => State(s.fs - {at}, left)
      case Enabling(draftId, _) =>
        if candidate.None? || Draft(draftId) !in s.fs then s
        else State(s.fs[Enabled(key) := candidate.value] - {Draft(draftId)}, left)
      case Disabling =>
        if candidate.None? || Enabled(key) !in s.fs then s
        else State(s.fs[Disabled(key) := candidate.value] - {Enabled(key)}, left)
      case RollingBack(_) =>
        if candidate.None? then s else State(s.fs[Enabled(key) := candidate.value], left)
  }

  function Step(s: State, event: Event, validate: Package -> Validation): State {
    match event
    case BeginEnable(draftId, read, expected) =>
      if Accepts(validate(read), expected) && FindsDraft(s.fs, draftId)
          && Accepts(validate(s.fs[Draft(draftId)]), expected)
      then Begin(s, validate(read).id, Enabling(draftId, expected), validate) else s
    case BeginDisable(id) => if Enabled(id) in s.fs then Begin(s, id, Disabling, validate) else s
    case BeginRollback(id, digest) =>
      if History(id, digest) in s.fs && Accepts(validate(s.fs[History(id, digest)]), Some(digest))
      then Begin(s, id, RollingBack(digest), validate) else s
    case BeginRemove(id, read) => OnBeginRemove(s, id, read, validate)
    case Copies(key) => OnCopies(s, key, validate)
    case Replaces(key) => OnReplaces(s, key)
    case Aborts(key) => s.(pending := s.pending - {key})
    case Writes(draftId, package) => s.(fs := s.fs[Draft(draftId) := package])
    case Cleans(id, digest) => s.(fs := s.fs - {History(id, digest)})
  }

  function Run(s: State, events: seq<Event>, validate: Package -> Validation): State {
    if events == [] then s else Step(Run(s, events[..|events| - 1], validate), events[|events| - 1], validate)
  }

  // ---------- What a step does ----------

  /** The key of the lock an operation waits for. */
  function KeyOf(s: State, event: Event, validate: Package -> Validation): Option<string> {
    match event
    case BeginEnable(_, read, _) => Some(validate(read).id)
    case BeginDisable(id) => Some(id)
    case BeginRollback(id, _) => Some(id)
    case BeginRemove(id, read) => Some(if validate(read).id == "" then id else validate(read).id)
    case _ => None
  }

  /** Operations of one key wait for each other. */
  lemma LockedOut(s: State, event: Event, validate: Package -> Validation)
    requires KeyOf(s, event, validate).Some? && KeyOf(s, event, validate).value in s.pending
    ensures Step(s, event, validate) == s
  {
  }

  /** What a replacement does to every directory: its copy takes the place of what was there, and the source of a
      move goes with it. Without a copy, or once that source is gone, it cannot happen. */
  lemma ReplaceEffect(s: State, key: string, l: Loc)
    requires key in s.pending
    ensures var work, t := s.pending[key].work, OnReplaces(s, key);
            var copy := s.pending[key].candidate;
            var moved: Option<Loc> := match work
                                      case Enabling(draftId, _) => Some(Draft(draftId))
                                      case Disabling => Some(Enabled(key))
                                      case RollingBack(_) => None
                                      case Removing(at) => Some(at);
            var target: Option<Loc> := match work
                                       case Enabling(_, _) => Some(Enabled(key))
                                       case Disabling => Some(Disabled(key))
                                       case RollingBack(_) => Some(Enabled(key))
                                       case Removing(_) => None;
            if target.Some? && (copy.None? || (moved.Some? && moved.value !in s.fs)) then t == s
            else
              && t.pending == s.pending - {key}
              && if Some(l) == moved then l !in t.fs
                 else if Some(l) == target then l in t.fs && t.fs[l] == copy.value
                 else SameAt(s.fs, t.fs, l)
  {
  }

  // ---------- What a run keeps of a version ----------

  /** The skill whose enabled directory the operation is about to replace or remove. */
  function Target(key: string, work: Work): Option<string> {
    if !work.Removing? then Some(key) else if work.at.Enabled? then Some(work.at.id) else None
  }

  /** An operation on the enabled directory of the skill is between its snapshot and its end. */
  ghost predicate Busy(s: State, id: string) {
    exists key :: key in s.pending && Target(key, s.pending[key].work) == Some(id)
  }

  ghost predicate IsEnabled(s: State, id: string, p: Package) { Enabled(id) in s.fs && s.fs[Enabled(id)] == p }

  /** The version is enabled or in the history under its own digest. */
  ghost predicate Kept(s: State, validate: Package -> Validation, id: string, p: Package) {
    IsEnabled(s, id, p) || Stored(s.fs, validate, p)
  }

  /** When the version is to be removed, it is stored already, or what was read before the lock lets it be. */
  ghost predicate RemovesSafely(s: State, id: string, p: Package, read: Package, validate: Package -> Validation) {
    var before := MetadataOf(validate(read), id);
    IsEnabled(s, id, p) ==>
      Stored(s.fs, validate, p) || (before.valid && History(before.skillId, before.digest) !in s.fs)
  }

  /** A clean-up does not take the last place that holds the version while it is not enabled, nor while it
      is being replaced. */
  ghost predicate CleansSafely(s: State, id: string, p: Package, other: string, digest: string,
                               validate: Package -> Validation) {
    digest == validate(p).digest && History(other, digest) in s.fs ==>
      (IsEnabled(s, id, p) && !Busy(s, id)) || exists more :: more != other && History(more, digest) in s.fs
  }

  ghost predicate Careful(s: State, event: Event, id: string, p: Package, validate: Package -> Validation) {
    && (event.BeginRemove? && event.id == id ==> RemovesSafely(s, id, p, event.read, validate))
    && (event.Cleans? ==> CleansSafely(s, id, p, event.id, event.digest, validate))
  }

  /** The version is kept, and it is stored while it is enabled and about to be replaced. */
  ghost predicate Guarded(s: State, validate: Package -> Validation, id: string, p: Package) {
    && HistoryHolds(s.fs, validate) && Kept(s, validate, id, p) && RemovesStates(s)
    && (Busy(s, id) && IsEnabled(s, id, p) ==> Stored(s.fs, validate, p))
  }

  /** `remove` is about what is enabled, disabled or a draft. */
  ghost predicate RemovesStates(s: State) {
    forall key :: key in s.pending && s.pending[key].work.Removing? ==>
      !s.pending[key].work.at.History? && !s.pending[key].work.at.Scratch?
  }

  lemma SnapshotStores(fs: Files, validate: Package -> Validation, id: string)
    requires CollisionFree(validate) && HistoryHolds(fs, validate)
    requires Enabled(id) in fs ==> validate(fs[Enabled(id)]).valid
    ensures HistoryHolds(Snapshot(fs, validate, id), validate)
    ensures Enabled(id) in fs ==> Stored(Snapshot(fs, validate, id), validate, fs[Enabled(id)])
  {
    if Enabled(id) in fs {
      var version := History(id, validate(fs[Enabled(id)]).digest);
      assert version in Snapshot(fs, validate, id);
      assert Snapshot(fs, validate, id)[version] == fs[Enabled(id)];
    }
  }

  lemma MoreIsStored(fs: Files, more: Files, validate: Package -> Validation, p: Package)
    requires Stored(fs, validate, p)
    requires forall l: Loc :: l.History? && l.digest == validate(p).digest && l in fs ==> l in more && more[l] == fs[l]
    ensures Stored(more, validate, p)
  {
    var id :| History(id, validate(p).digest) in fs && fs[History(id, validate(p).digest)] == p;
    assert History(id, validate(p).digest) in more;
  }

  lemma BeginKeepsGuarded(s: State, key: string, work: Work, validate: Package -> Validation, id: string, p: Package)
    requires CollisionFree(validate) && validate(p).valid && Guarded(s, validate, id, p) && !work.Removing?
    ensures Guarded(Begin(s, key, work, validate), validate, id, p)
  {
    if CanBegin(s, key, validate) {
      var t := Begin(s, key, work, validate);
      SnapshotStores(s.fs, validate, key);
      if Stored(s.fs, validate, p) { MoreIsStored(s.fs, t.fs, validate, p); }
      hide CollisionFree, HistoryHolds, Stored;
      assert Enabled(id) in t.fs <==> Enabled(id) in s.fs;
      if Busy(t, id) && key != id {
        assert Busy(s, id);
      }
    }
  }

  lemma BeginRemoveKeepsGuarded(s: State, at: string, read: Package, validate: Package -> Validation, id: string,
                                p: Package)
    requires CollisionFree(validate) && validate(p).valid && Guarded(s, validate, id, p)
    requires at == id ==> RemovesSafely(s, id, p, read, validate)
    ensures Guarded(OnBeginRemove(s, at, read, validate), validate, id, p)
  {
    var t := OnBeginRemove(s, at, read, validate);
    if t != s {
      var before := MetadataOf(validate(read), at);
      var version := History(before.skillId, before.digest);
      if Stored(s.fs, validate, p) { MoreIsStored(s.fs, t.fs, validate, p); }
      if version !in s.fs && version in t.fs && t.fs[version] == p { assert Stored(t.fs, validate, p); }
      if Busy(t, id) && !Busy(s, id) {
        assert t.pending[before.skillId].work == Removing(Enabled(id));
      }
    }
  }

  lemma ReplaceKeepsGuarded(s: State, key: string, validate: Package -> Validation, id: string, p: Package)
    requires Guarded(s, validate, id, p)
    ensures Guarded(OnReplaces(s, key), validate, id, p)
  {
    var t := OnReplaces(s, key);
    if t != s {
      if Target(key, s.pending[key].work) == Some(id) { assert Busy(s, id); }
      if Stored(s.fs, validate, p) { MoreIsStored(s.fs, t.fs, validate, p); }
      if Busy(t, id) { assert Busy(s, id); }
    }
  }

  lemma OtherKeepsGuarded(s: State, event: Event, validate: Package -> Validation, id: string, p: Package)
    requires CollisionFree(validate) && validate(p).valid
    requires Guarded(s, validate, id, p) && Careful(s, event, id, p, validate)
    requires event.Copies? || event.Aborts? || event.Writes? || event.Cleans?
    ensures Guarded(Step(s, event, validate), validate, id, p)
  {
    var t := Step(s, event, validate);
    if Busy(t, id) { assert Busy(s, id); }
    if event.Cleans? && event.digest == validate(p).digest && History(event.id, event.digest) in s.fs {
      if more :| more != event.id && History(more, event.digest) in s.fs {
        assert History(more, event.digest) in t.fs && t.fs[History(more, event.digest)] == p;
      }
    } else if Stored(s.fs, validate, p) {
      MoreIsStored(s.fs, t.fs, validate, p);
    }
  }

  /** Every careful step keeps the version. */
  lemma StepKeepsGuarded(s: State, event: Event, validate: Package -> Validation, id: string, p: Package)
    requires CollisionFree(validate) && validate(p).valid
    requires Guarded(s, validate, id, p) && Careful(s, event, id, p, validate)
    ensures Guarded(Step(s, event, validate), validate, id, p)
  {
    hide Guarded, CollisionFree, Begin, OnBeginRemove, OnReplaces, OnCopies;
    match event {
      case BeginEnable(draftId, read, expected) =>
        BeginKeepsGuarded(s, validate(read).id, Enabling(draftId, expected), validate, id, p);
      case BeginDisable(key) => BeginKeepsGuarded(s, key, Disabling, validate, id, p);
      case BeginRollback(key, digest) => BeginKeepsGuarded(s, key, RollingBack(digest), validate, id, p);
      case BeginRemove(at, read) => BeginRemoveKeepsGuarded(s, at, read, validate, id, p);
      case Replaces(key) => ReplaceKeepsGuarded(s, key, validate, id, p);
      case _ => OtherKeepsGuarded(s, event, validate, id, p);
    }
  }

  /** In every run, in every interleaving: a valid version that is enabled, and stored if it is being replaced
      at that time, stays enabled or in the history under its own digest, as long as no clean-up takes the last
      entry of that digest while the version is not enabled or is being replaced, and every removal of it
      finds it stored or stores it. */
  lemma NoEnabledVersionIsLost(s: State, events: seq<Event>, validate: Package -> Validation, id: string, p: Package)
    requires CollisionFree(validate) && HistoryHolds(s.fs, validate) && RemovesStates(s)
    requires validate(p).valid && IsEnabled(s, id, p) && (Busy(s, id) ==> Stored(s.fs, validate, p))
    requires forall k :: 0 <= k < |events| ==> Careful(Run(s, events[..k], validate), events[k], id, p, validate)
    ensures Kept(Run(s, events, validate), validate, id, p)
  {
    hide CollisionFree, HistoryHolds, Stored, Careful, Run;
    RunKeepsGuarded(s, events, validate, id, p);
  }

  lemma {:induction false} RunKeepsGuarded(
    s: State, events: seq<Event>, validate: Package -> Validation, id: string, p: Package)
    requires CollisionFree(validate) && validate(p).valid && Guarded(s, validate, id, p)
    requires forall k :: 0 <= k < |events| ==> Careful(Run(s, events[..k], validate), events[k], id, p, validate)
    ensures Guarded(Run(s, events, validate), validate, id, p)
    decreases |events|
  {
    hide Guarded, CollisionFree, Step, Careful;
    if events != [] {
      var front := events[..|events| - 1];
      forall k | 0 <= k < |front| ensures Careful(Run(s, front[..k], validate), front[k], id, p, validate) {
        assert front[..k] == events[..k] && front[k] == events[k];
      }
      RunKeepsGuarded(s, front, validate, id, p);
      StepKeepsGuarded(Run(s, front, validate), events[|events| - 1], validate, id, p);
    }
  }

  // ---------- Operations that nothing interrupts ----------

  lemma {:induction false} RunConcat(s: State, a: seq<Event>, b: seq<Event>, validate: Package -> Validation)
    ensures Run(s, a + b, validate) == Run(Run(s, a, validate), b, validate)
    decreases |b|
  {
    hide Step;
    if b == [] {
      assert a + b == a;
    } else {
      assert (a + b)[..|a + b| - 1] == a + b[..|b| - 1];
      RunConcat(s, a, b[..|b| - 1], validate);
    }
  }

  lemma RunOne(s: State, event: Event, validate: Package -> Validation)
    ensures Run(s, [event], validate) == Step(s, event, validate)
  {
    hide Step;
    assert [event][..0] == [];
    assert Run(s, [], validate) == s;
  }

  lemma RunTwo(s: State, a: Event, b: Event, validate: Package -> Validation)
    ensures Run(s, [a, b], validate) == Step(Step(s, a, validate), b, validate)
  {
    hide Step, Run;
    RunConcat(s, [a], [b], validate);
    RunOne(s, a, validate);
    RunOne(Step(s, a, validate), b, validate);
    assert [a] + [b] == [a, b];
  }

  lemma RunThree(s: State, a: Event, b: Event, c: Event, validate: Package -> Validation)
    ensures Run(s, [a, b, c], validate) == Step(Step(Step(s, a, validate), b, validate), c, validate)
  {
    hide Step, Run;
    RunConcat(s, [a, b], [c], validate);
    RunTwo(s, a, b, validate);
    RunOne(Step(Step(s, a, validate), b, validate), c, validate);
    assert [a, b] + [c] == [a, b, c];
  }

  /** Copying and replacing, with the snapshot taken. */
  lemma EnableEnds(fs: Files, key: string, draftId: string, expected: Option<string>, validate: Package -> Validation)
    requires Draft(draftId) in fs && Accepts(validate(fs[Draft(draftId)]), expected)
    ensures var s := State(fs, map[key := Pending(Enabling(draftId, expected), None)]);
            Run(s, [Copies(key), Replaces(key)], validate)
            == State(fs[Enabled(key) := fs[Draft(draftId)]] - {Draft(draftId)}, map[])
  {
    var s := State(fs, map[key := Pending(Enabling(draftId, expected), None)]);
    RunTwo(s, Copies(key), Replaces(key), validate);
    assert s.pending[key := Pending(Enabling(draftId, expected), Some(fs[Draft(draftId)]))] - {key} == map[];
    hide Run;
  }

  lemma DisableEnds(fs: Files, key: string, validate: Package -> Validation)
    requires Enabled(key) in fs
    ensures var s := State(fs, map[key := Pending(Disabling, None)]);
            Run(s, [Copies(key), Replaces(key)], validate)
            == State(fs[Disabled(key) := fs[Enabled(key)]] - {Enabled(key)}, map[])
  {
    var s := State(fs, map[key := Pending(Disabling, None)]);
    RunTwo(s, Copies(key), Replaces(key), validate);
    assert s.pending[key := Pending(Disabling, Some(fs[Enabled(key)]))] - {key} == map[];
    hide Run;
  }

  lemma RollbackEnds(fs: Files, key: string, digest: string, validate: Package -> Validation)
    requires History(key, digest) in fs
    ensures var s := State(fs, map[key := Pending(RollingBack(digest), None)]);
            Run(s, [Copies(key), Replaces(key)], validate)
            == State(fs[Enabled(key) := fs[History(key, digest)]], map[])
  {
    var s := State(fs, map[key := Pending(RollingBack(digest), None)]);
    RunTwo(s, Copies(key), Replaces(key), validate);
    assert s.pending[key := Pending(RollingBack(digest), Some(fs[History(key, digest)]))] - {key} == map[];
    hide Run;
  }

  lemma AbortEnds(fs: Files, key: string, pending: Pending, validate: Package -> Validation)
    ensures Run(State(fs, map[key := pending]), [Aborts(key)], validate) == State(fs, map[])
  {
    RunOne(State(fs, map[key := pending]), Aborts(key), validate);
    assert map[key := pending] - {key} == map[];
  }

  lemma RemoveEnds(fs: Files, key: string, at: Loc, validate: Package -> Validation)
    ensures Run(State(fs, map[key := Pending(Removing(at), None)]), [Replaces(key)], validate)
        == State(fs - {at}, map[])
  {
    RunOne(State(fs, map[key := Pending(Removing(at), None)]), Replaces(key), validate);
    assert map[key := Pending(Removing(at), None)] - {key} == map[];
  }

  /** What an operation makes of the files when nothing interrupts it is what its steps do, one after another. */
  lemma NextIsRun(fs: Files, op: Operation, after: Files, validate: Package -> Validation) returns (events: seq<Event>)
    requires Next(fs, op, after, validate)
    ensures Run(State(fs, map[]), events, validate) == State(after, map[])
  {
    hide Run, Removes;
    var s := State(fs, map[]);
    if after == fs {
      events := [];
      NothingRuns(s, validate);
    } else {
      match op
      case Enable(draftId, read, expected) =>
        var key := validate(read).id;
        var t := Snapshot(fs, validate, key);
        assert Draft(draftId) in t && t[Draft(draftId)] == fs[Draft(draftId)];
        EnableEnds(t, key, draftId, expected, validate);
        events := EndsAs(s, BeginEnable(draftId, read, expected), key, Enabling(draftId, expected), after, validate);
      case Disable(id) =>
        if Enabled(id) in fs {
          var t := Snapshot(fs, validate, id);
          assert Enabled(id) in t && t[Enabled(id)] == fs[Enabled(id)];
          DisableEnds(t, id, validate);
        }
        events := EndsAs(s, BeginDisable(id), id, Disabling, after, validate);
      case Rollback(id, digest) =>
        var t := Snapshot(fs, validate, id);
        assert History(id, digest) in t && t[History(id, digest)] == fs[History(id, digest)];
        RollbackEnds(t, id, digest, validate);
        events := EndsAs(s, BeginRollback(id, digest), id, RollingBack(digest), after, validate);
      case Remove(id, read) => events := RemoveIsRun(fs, id, read, after, validate);
      case WriteDraft(draftId, package) =>
        events := [Writes(draftId, package)];
        RunOne(s, events[0], validate);
      case Cleanup(removed) => events := CleanupIsRun(fs, removed, after, validate);
    }
  }

  lemma NothingRuns(s: State, validate: Package -> Validation)
    ensures Run(s, [], validate) == s
  {
  }

  /** After its snapshot the operation either fails or goes on to the end. */
  lemma EndsAs(s: State, begins: Event, key: string, work: Work, after: Files, validate: Package -> Validation)
    returns (events: seq<Event>)
    requires s.pending == map[] && !work.Removing?
    requires Step(s, begins, validate) == State(Snapshot(s.fs, validate, key), map[key := Pending(work, None)])
    requires after == Snapshot(s.fs, validate, key)
             || Run(Step(s, begins, validate), [Copies(key), Replaces(key)], validate) == State(after, map[])
    ensures Run(s, events, validate) == State(after, map[])
  {
    hide Step, Run;
    RunOne(s, begins, validate);
    if after == Snapshot(s.fs, validate, key) {
      events := [begins] + [Aborts(key)];
      AbortEnds(after, key, Pending(work, None), validate);
      RunConcat(s, [begins], [Aborts(key)], validate);
    } else {
      events := [begins] + [Copies(key), Replaces(key)];
      RunConcat(s, [begins], [Copies(key), Replaces(key)], validate);
    }
  }

  lemma RemoveIsRun(fs: Files, id: string, read: Package, after: Files, validate: Package -> Validation)
    returns (events: seq<Event>)
    requires Locate(fs, id).Some?
    requires Removes(fs, Locate(fs, id).value, MetadataOf(validate(read), id), after, validate)
    ensures Run(State(fs, map[]), events, validate) == State(after, map[])
  {
    hide Run;
    var s, at, before := State(fs, map[]), Locate(fs, id).value, MetadataOf(validate(read), id);
    RunOne(s, BeginRemove(id, read), validate);
    var t := Step(s, BeginRemove(id, read), validate);
    assert t.pending == map[before.skillId := Pending(Removing(at), None)];
    RemoveEnds(t.fs, before.skillId, at, validate);
    RunConcat(s, [BeginRemove(id, read)], [Replaces(before.skillId)], validate);
    events := [BeginRemove(id, read)] + [Replaces(before.skillId)];
  }

  lemma {:induction false} CleanupIsRun(fs: Files, removed: set<(string, string)>, after: Files,
                                        validate: Package -> Validation)
    returns (events: seq<Event>)
    requires after == fs - set pair | pair in removed :: History(pair.0, pair.1)
    ensures Run(State(fs, map[]), events, validate) == State(after, map[])
    decreases removed
  {
    var s := State(fs, map[]);
    if removed == {} {
      events := [];
    } else {
      var pair :| pair in removed;
      var rest := removed - {pair};
      var between := fs - set other | other in rest :: History(other.0, other.1);
      events := CleanupIsRun(fs, rest, between, validate);
      hide Run;
      OneMoreRemoved(fs, removed, pair);
      hide Step;
      RunConcat(s, events, [Cleans(pair.0, pair.1)], validate);
      CleanEnds(between, pair.0, pair.1, validate);
      events := events + [Cleans(pair.0, pair.1)];
    }
  }

  lemma OneMoreRemoved(fs: Files, removed: set<(string, string)>, pair: (string, string))
    requires pair in removed
    ensures (fs - set other | other in removed - {pair} :: History(other.0, other.1)) - {History(pair.0, pair.1)}
            == fs - set other | other in removed :: History(other.0, other.1)
  {
    var rest := set other | other in removed - {pair} :: History(other.0, other.1);
    assert rest + {History(pair.0, pair.1)} == set other | other in removed :: History(other.0, other.1);
  }

  lemma CleanEnds(fs: Files, id: string, digest: string, validate: Package -> Validation)
    ensures Run(State(fs, map[]), [Cleans(id, digest)], validate) == State(fs - {History(id, digest)}, map[])
  {
    hide Run;
    RunOne(State(fs, map[]), Cleans(id, digest), validate);
  }

  // ---------- Runs that lose a version ----------

  /** A clean-up by itself loses a version exactly if it takes its last place while it is not enabled. */
  lemma CleanUpKeepsIff(s: State, validate: Package -> Validation, id: string, p: Package, other: string,
                        digest: string)
    requires CollisionFree(validate) && validate(p).valid && HistoryHolds(s.fs, validate) && Kept(s, validate, id, p)
    ensures Kept(Step(s, Cleans(other, digest), validate), validate, id, p) <==>
              || IsEnabled(s, id, p) || digest != validate(p).digest || History(other, digest) !in s.fs
              || exists more :: more != other && History(more, digest) in s.fs
  {
    var t := Step(s, Cleans(other, digest), validate);
    if Stored(s.fs, validate, p) && (digest != validate(p).digest || History(other, digest) !in s.fs) {
      MoreIsStored(s.fs, t.fs, validate, p);
    } else if more :| more != other && History(more, digest) in s.fs {
      assert !IsEnabled(s, id, p) && digest == validate(p).digest ==>
          History(more, digest) in t.fs && t.fs[History(more, digest)] == p;
    }
  }

  /** A clean-up that lands between the snapshot of `enableDraft` and its replacement loses the version exactly
      if it takes the only place in the history that holds it, and another version replaces it. */
  lemma CleanUpLosesIff(fs: Files, validate: Package -> Validation, q: Package, draftId: string, other: string)
    requires CollisionFree(validate) && HistoryHolds(fs, validate) && FindsDraft(fs, draftId) && fs[Draft(draftId)] == q
    requires validate(q).valid
    requires Enabled(validate(q).id) in fs && validate(fs[Enabled(validate(q).id)]).valid
    ensures var id := validate(q).id;
            var p := fs[Enabled(id)];
            var version := validate(p).digest;
            var events := [BeginEnable(draftId, q, Some(validate(q).digest)), Cleans(other, version)]
                          + [Copies(id), Replaces(id)];
            var t := Run(State(fs, map[]), events, validate);
            && IsEnabled(t, id, q)
            && (Kept(t, validate, id, p) <==>
                  p == q || other != id || exists more :: more != id && History(more, version) in fs)
  {
    var id := validate(q).id;
    var p := fs[Enabled(id)];
    var begins, cleans := BeginEnable(draftId, q, Some(validate(q).digest)), Cleans(other, validate(p).digest);
    var stored := Snapshot(fs, validate, id);
    var left := stored - {History(other, validate(p).digest)};
    var s := State(fs, map[]);
    assert Step(s, begins, validate) == State(stored, map[id :=
                                                          Pending(Enabling(draftId, Some(validate(q).digest)), None)]);
    assert Step(Step(s, begins, validate), cleans, validate).fs == left;
    assert Draft(draftId) in left && left[Draft(draftId)] == q;
    hide Step, Run;
    RunTwo(s, begins, cleans, validate);
    RunConcat(s, [begins, cleans], [Copies(id), Replaces(id)], validate);
    EnableEnds(left, id, draftId, Some(validate(q).digest), validate);
    LeftInHistory(fs, validate, id, other, draftId, q);
  }

  /** Such a run: the version is enabled, its snapshot found it in the history, where an older enabling had
      left it, and after the clean-up and the replacement it is nowhere. */
  lemma CleanUpLosesAVersion(validate: Package -> Validation, p: Package, q: Package, draftId: string)
    requires CollisionFree(validate) && validate(p).valid && validate(q).valid && validate(p).id == validate(q).id
    requires p != q && draftId != validate(p).id
    ensures var id, version := validate(p).id, validate(p).digest;
            var s := State(map[Enabled(id) := p, History(id, version) := p, Draft(draftId) := q], map[]);
            var events := [BeginEnable(draftId, q, Some(validate(q).digest)), Cleans(id, version)]
                          + [Copies(id), Replaces(id)];
            && IsEnabled(s, id, p) && !Busy(s, id) && HistoryHolds(s.fs, validate)
            && !Kept(Run(s, events, validate), validate, id, p)
  {
    var id, version := validate(p).id, validate(p).digest;
    var fs: Files := map[Enabled(id) := p, History(id, version) := p, Draft(draftId) := q];
    hide Run, Kept;
    CleanUpLosesIff(fs, validate, q, draftId, id);
  }

  lemma LeftInHistory(fs: Files, validate: Package -> Validation, id: string, other: string, draftId: string,
                      q: Package)
    requires CollisionFree(validate) && HistoryHolds(fs, validate) && Enabled(id) in fs
        && validate(fs[Enabled(id)]).valid
    ensures var version := validate(fs[Enabled(id)]).digest;
            var left := Snapshot(fs, validate, id) - {History(other, version)};
            Stored(left[Enabled(id) := q] - {Draft(draftId)}, validate, fs[Enabled(id)]) <==>
              other != id || exists more :: more != id && History(more, version) in fs
  {
    var p := fs[Enabled(id)];
    var version := validate(p).digest;
    var after := (Snapshot(fs, validate, id) - {History(other, version)})[Enabled(id) := q] - {Draft(draftId)};
    if other != id {
      assert History(id, version) in after && after[History(id, version)] == p;
    } else if more :| more != id && History(more, version) in fs {
      assert History(more, version) in after && after[History(more, version)] == p;
    }
  }

  /** A removal that read an older version before it got the lock: it finds the older digest in the history,
      takes no snapshot, and loses the version that was enabled in between. */
  lemma StaleRemoveLosesAVersion(validate: Package -> Validation, p: Package, q: Package, draftId: string)
    requires CollisionFree(validate) && validate(p).valid && validate(q).valid && validate(p).id == validate(q).id
    requires p != q && draftId != validate(p).id
    ensures var id := validate(p).id;
            var s := State(map[Enabled(id) := p, Draft(draftId) := q], map[]);
            var t := Run(s, [BeginEnable(draftId, q, Some(validate(q).digest))] + [Copies(id), Replaces(id)], validate);
            var u := Run(t, [BeginRemove(id, p)] + [Replaces(id)], validate);
            && IsEnabled(t, id, q) && !Busy(t, id) && HistoryHolds(t.fs, validate)
            && !Kept(u, validate, id, q)
  {
    var id := validate(p).id;
    var fs: Files := map[Enabled(id) := p, Draft(draftId) := q];
    var s, begins := State(fs, map[]), BeginEnable(draftId, q, Some(validate(q).digest));
    var version := History(id, validate(p).digest);
    var stored: Files := map[Enabled(id) := p, Draft(draftId) := q, version := p];
    assert Snapshot(fs, validate, id) == stored;
    assert Step(s, begins, validate)
           == State(stored, map[id := Pending(Enabling(draftId, Some(validate(q).digest)), None)]);
    var enabled: Files := map[Enabled(id) := q, version := p];
    assert stored[Enabled(id) := q] - {Draft(draftId)} == enabled;
    var t := State(enabled, map[]);
    assert Step(t, BeginRemove(id, p), validate) == State(enabled, map[id := Pending(Removing(Enabled(id)), None)]);
    assert enabled - {Enabled(id)} == map[version := p];
    hide Step, Run;
    RunOne(s, begins, validate);
    EnableEnds(stored, id, draftId, Some(validate(q).digest), validate);
    RunConcat(s, [begins], [Copies(id), Replaces(id)], validate);
    RunOne(t, BeginRemove(id, p), validate);
    RemoveEnds(enabled, id, Enabled(id), validate);
    RunConcat(t, [BeginRemove(id, p)], [Replaces(id)], validate);
  }
}
