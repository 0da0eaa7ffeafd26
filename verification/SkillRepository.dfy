/** The skill repository of apps/electerm-agent/src/app/lib/agent-skill-repository.js: transactions made
    of directory renames with restore paths, and a history addressed by content. Validation of a package
    is a parameter; what an operation read before it got its lock comes in as an argument. */
module SkillRepository {
  import opened Prelude

  /** The files of a package, as one text. */
  type Package = string

  datatype Validation = Validation(valid: bool, digest: string, id: string)

  /** The directories: three states, the history, and the temporary, backup and consumed ones. */
  datatype Loc = Enabled(id: string) | Disabled(id: string) | Draft(id: string) | History(id: string, digest: string)
      | Scratch(n: nat)

  type Files = map<Loc, Package>

  datatype Outcome = Done | NotFound | Invalid | DigestMismatch | CopyFailed | RenameFailed

  // ---------- What the operations do, all at once ----------

  /** The enabled package of `id` is in the history under its digest. */
  function Snapshot(fs: Files, validate: Package -> Validation, id: string): Files {
    if Enabled(id) in fs && History(id, validate(fs[Enabled(id)]).digest) !in fs
    then fs[History(id, validate(fs[Enabled(id)]).digest) := fs[Enabled(id)]] else fs
  }

  /** Only the snapshot of the enabled package, which is valid, was made. */
  ghost predicate Snapshotted(fs: Files, after: Files, validate: Package -> Validation, id: string) {
    after == Snapshot(fs, validate, id) && (Enabled(id) in fs ==> validate(fs[Enabled(id)]).valid)
  }

  function AfterEnable(fs: Files, validate: Package -> Validation, draftId: string, id: string): Files
    requires Draft(draftId) in fs
  {
    Snapshot(fs, validate, id)[Enabled(id) := fs[Draft(draftId)]] - {Draft(draftId)}
  }

  function AfterDisable(fs: Files, validate: Package -> Validation, id: string): Files
    requires Enabled(id) in fs
  {
    Snapshot(fs, validate, id)[Disabled(id) := fs[Enabled(id)]] - {Enabled(id)}
  }

  function AfterRollback(fs: Files, validate: Package -> Validation, id: string, digest: string): Files
    requires History(id, digest) in fs
  {
    Snapshot(fs, validate, id)[Enabled(id) := fs[History(id, digest)]]
  }

  /** What `metadataFor` told `remove` before it got the lock. */
  datatype Metadata = Metadata(skillId: string, valid: bool, digest: string)

  function Locate(fs: Files, id: string): Option<Loc> {
    if Enabled(id) in fs then Some(Enabled(id))
    else if Disabled(id) in fs then Some(Disabled(id))
    else if Draft(id) in fs then Some(Draft(id))
    else None
  }

  /** `locate` finds a draft: nothing enabled or disabled has that id. */
  predicate FindsDraft(fs: Files, id: string) { Locate(fs, id) == Some(Draft(id)) }

  function AfterRemove(fs: Files, at: Loc, before: Metadata): Files
    requires at in fs
  {
    (if !at.Draft? && before.valid && History(before.skillId, before.digest) !in fs
     then fs[History(before.skillId, before.digest) := fs[at]] else fs) - {at}
  }

  /** The requested package may be enabled: valid, and with the digest the caller expects. */
  predicate Accepts(v: Validation, expected: Option<string>) {
    v.valid && (expected.Some? ==> v.digest == expected.value)
  }

  predicate WrongDigest(v: Validation, expected: Option<string>) {
    v.valid && expected.Some? && v.digest != expected.value
  }

  predicate InvalidEnabled(fs: Files, validate: Package -> Validation, id: string) {
    Enabled(id) in fs && !validate(fs[Enabled(id)]).valid
  }

  function Refusal(v: Validation): Outcome {
    if v.valid then DigestMismatch else Invalid
  }

  function MetadataOf(v: Validation, entryId: string): Metadata {
    Metadata(if v.id != "" then v.id else entryId, v.valid, v.digest)
  }

  /** One operation under its lock. `read` is the package that `enableDraft` validated, or `remove` read
      its metadata from, before it got the lock. */
  datatype Operation =
    | Enable(draftId: string, read: Package, expected: Option<string>)
    | Disable(id: string)
    | Rollback(id: string, digest: string)
    | Remove(id: string, read: Package)
    | WriteDraft(draftId: string, package: Package)
    | Cleanup(removed: set<(string, string)>)

  /** What an operation may make of the files. */
  ghost predicate Next(fs: Files, op: Operation, after: Files, validate: Package -> Validation) {
    match op
    case Enable(draftId, read, expected) =>
      var id := validate(read).id;
      || after == fs
      || (&& Accepts(validate(read), expected) && FindsDraft(fs, draftId)
          && Accepts(validate(fs[Draft(draftId)]), expected)
          && Snapshotted(fs, Snapshot(fs, validate, id), validate, id)
          && (after == Snapshot(fs, validate, id) || after == AfterEnable(fs, validate, draftId, id)))
    case Disable(id) =>
      || after == fs || Snapshotted(fs, after, validate, id)
      || (Enabled(id) in fs && validate(fs[Enabled(id)]).valid && after == AfterDisable(fs, validate, id))
    case Rollback(id, digest) =>
      || after == fs
      || (&& History(id, digest) in fs && Accepts(validate(fs[History(id, digest)]), Some(digest))
          && Snapshotted(fs, Snapshot(fs, validate, id), validate, id)
          && (after == Snapshot(fs, validate, id) || after == AfterRollback(fs, validate, id, digest)))
    case Remove(id, read) =>
      after == fs || (Locate(fs, id).Some? && Removes(fs, Locate(fs, id).value, MetadataOf(validate(read), id), after,
                                                      validate))
    case WriteDraft(draftId, package) => after == fs[Draft(draftId) := package]
    case Cleanup(removed) => after == fs - set pair | pair in removed :: History(pair.0, pair.1)
  }

  ghost predicate Removes(fs: Files, at: Loc, before: Metadata, after: Files, validate: Package -> Validation) {
    && at in fs && after == AfterRemove(fs, at, before)
    && (!at.Draft? && before.valid && History(before.skillId, before.digest) !in fs ==>
          Accepts(validate(fs[at]), Some(before.digest)))
  }

  // ---------- What they do, location by location ----------

  predicate SameAt(fs: Files, after: Files, l: Loc) { (l in after <==> l in fs) && (l in fs ==> after[l] == fs[l]) }

  /** The enabled package is in the history under its digest; nothing else there is new, and nothing is gone. */
  ghost predicate Keeps(fs: Files, after: Files, validate: Package -> Validation, id: string) {
    forall i, d ::
      if Enabled(id) in fs && i == id && d == validate(fs[Enabled(id)]).digest && History(i, d) !in fs
      then History(i, d) in after && after[History(i, d)] == fs[Enabled(id)]
      else SameAt(fs, after, History(i, d))
  }

  /** The draft is enabled in place of what was, and is a draft no longer. */
  ghost predicate Enables(fs: Files, after: Files, validate: Package -> Validation, draftId: string, id: string) {
    && Draft(draftId) in fs && Draft(draftId) !in after
    && Enabled(id) in after && after[Enabled(id)] == fs[Draft(draftId)]
    && Keeps(fs, after, validate, id)
    && forall l: Loc :: !l.History? && l != Enabled(id) && l != Draft(draftId) ==> SameAt(fs, after, l)
  }

  /** The enabled package is disabled in place of what was, and stored. */
  ghost predicate Disables(fs: Files, after: Files, validate: Package -> Validation, id: string) {
    && Enabled(id) in fs && Enabled(id) !in after
    && Disabled(id) in after && after[Disabled(id)] == fs[Enabled(id)]
    && Keeps(fs, after, validate, id)
    && forall l: Loc :: !l.History? && l != Enabled(id) && l != Disabled(id) ==> SameAt(fs, after, l)
  }

  /** The stored package is enabled in place of what was, and stays stored. */
  ghost predicate RollsBack(fs: Files, after: Files, validate: Package -> Validation, id: string, digest: string) {
    && History(id, digest) in fs && Enabled(id) in after && after[Enabled(id)] == fs[History(id, digest)]
    && Keeps(fs, after, validate, id)
    && forall l: Loc :: !l.History? && l != Enabled(id) ==> SameAt(fs, after, l)
  }

  /** The enabled package is found before the disabled one, and that before a draft of the same name. */
  predicate IsFirst(fs: Files, id: string, at: Loc) {
    || (at == Enabled(id) && Enabled(id) in fs)
    || (at == Disabled(id) && Enabled(id) !in fs && Disabled(id) in fs)
    || (at == Draft(id) && Enabled(id) !in fs && Disabled(id) !in fs && Draft(id) in fs)
  }

  /** The first is gone; it is stored first under what was read before, unless it is a draft, what was read
      is not valid, or that is stored already. Everything else stays. */
  ghost predicate RemovesFirst(fs: Files, after: Files, id: string, read: Validation) {
    forall at :: IsFirst(fs, id, at) ==>
      && at !in after
      && forall l: Loc :: l != at ==>
           if !at.Draft? && read.valid && l !in fs && l == History(if read.id == "" then id else read.id, read.digest)
           then l in after && after[l] == fs[at]
           else SameAt(fs, after, l)
  }

  lemma LocateIff(fs: Files, id: string)
    ensures forall at :: Locate(fs, id) == Some(at) <==> IsFirst(fs, id, at)
    ensures Locate(fs, id).None? <==> Enabled(id) !in fs && Disabled(id) !in fs && Draft(id) !in fs
  {
  }

  lemma EnablesIff(fs: Files, after: Files, validate: Package -> Validation, draftId: string, id: string)
    requires Draft(draftId) in fs
    ensures after == AfterEnable(fs, validate, draftId, id) <==> Enables(fs, after, validate, draftId, id)
  {
    var mine := AfterEnable(fs, validate, draftId, id);
    if Enables(fs, after, validate, draftId, id) {
      forall l: Loc ensures SameAt(after, mine, l) {
        if l.History? { assert l == History(l.id, l.digest); }
      }
      SameEverywhere(after, mine);
    }
  }

  lemma DisablesIff(fs: Files, after: Files, validate: Package -> Validation, id: string)
    requires Enabled(id) in fs
    ensures after == AfterDisable(fs, validate, id) <==> Disables(fs, after, validate, id)
  {
    var mine := AfterDisable(fs, validate, id);
    if Disables(fs, after, validate, id) {
      forall l: Loc ensures SameAt(after, mine, l) {
        if l.History? { assert l == History(l.id, l.digest); }
      }
      SameEverywhere(after, mine);
    }
  }

  lemma RollsBackIff(fs: Files, after: Files, validate: Package -> Validation, id: string, digest: string)
    requires History(id, digest) in fs
    ensures after == AfterRollback(fs, validate, id, digest) <==> RollsBack(fs, after, validate, id, digest)
  {
    var mine := AfterRollback(fs, validate, id, digest);
    if RollsBack(fs, after, validate, id, digest) {
      forall l: Loc ensures SameAt(after, mine, l) {
        if l.History? { assert l == History(l.id, l.digest); }
      }
      SameEverywhere(after, mine);
    }
  }

  lemma RemovesFirstIff(fs: Files, after: Files, id: string, read: Validation)
    requires Locate(fs, id).Some?
    ensures Locate(fs, id).value in fs
    ensures after == AfterRemove(fs, Locate(fs, id).value, MetadataOf(read, id)) <==> RemovesFirst(fs, after, id, read)
  {
    var at := Locate(fs, id).value;
    var mine := AfterRemove(fs, at, MetadataOf(read, id));
    LocateIff(fs, id);
    if RemovesFirst(fs, after, id, read) {
      assert IsFirst(fs, id, at);
      SameEverywhere(after, mine);
    }
  }

  lemma RemovesFirstEnds(fs: Files, id: string, read: Validation)
    requires Locate(fs, id).Some?
    ensures Locate(fs, id).value in fs
    ensures forall after: Files :: after == AfterRemove(fs, Locate(fs, id).value, MetadataOf(read, id)) <==>
                                   RemovesFirst(fs, after, id, read)
  {
    forall after: Files { RemovesFirstIff(fs, after, id, read); }
  }

  lemma SameEverywhere(a: Files, b: Files)
    ensures (forall l: Loc :: SameAt(a, b, l)) <==> a == b
  {
    if forall l: Loc :: SameAt(a, b, l) {
      assert forall l: Loc :: l in a <==> l in b by {
        forall l: Loc ensures l in a <==> l in b { assert SameAt(a, b, l); }
      }
      assert forall l: Loc :: l in a ==> a[l] == b[l] by {
        forall l: Loc | l in a ensures a[l] == b[l] { assert SameAt(a, b, l); }
      }
    }
  }

  /** What the steps of a move come to: all of them, and those that put everything back. */
  lemma Moves(fs: Files, source: Loc, target: Loc, candidate: Loc, consumed: Loc)
    requires source in fs && candidate !in fs && consumed !in fs && candidate != consumed && source != target
    requires target != candidate && target != consumed
    ensures var hidden := fs[candidate := fs[source]][consumed := fs[source]] - {source};
            && hidden[target := fs[source]] - {candidate} - {consumed} == fs[target := fs[source]] - {source}
            && hidden[source := fs[source]] - {consumed} - {candidate} == fs
            && fs[candidate := fs[source]] - {candidate} == fs
  {
  }

  // ---------- The repository ----------

  /** One rename may fail, and any copies; every other file operation works. */
  class SkillRepository {
    const validate: Package -> Validation
    const failingRename: Option<nat>
    const failingCopies: set<nat>
    var fs: Files
    var renames: nat
    var copies: nat
    var nextScratch: nat

    constructor (validate: Package -> Validation, failingRename: Option<nat>, failingCopies: set<nat>)
      ensures Valid() && fs == map[] && Consistent(fs, validate) && renames == copies == 0
      ensures this.validate == validate && this.failingRename == failingRename && this.failingCopies == failingCopies
    {
      this.validate, this.failingRename, this.failingCopies := validate, failingRename, failingCopies;
      fs, renames, copies, nextScratch := map[], 0, 0, 0;
    }

    ghost predicate Valid()
      reads this
    {
      forall n: nat :: Scratch(n) in fs ==> n < nextScratch
    }

    /** The fault an outcome reports did happen between the two counts. */
    twostate predicate Faulty(outcome: Outcome)
      reads this
    {
      && renames >= old(renames) && copies >= old(copies)
      && (outcome == RenameFailed ==> failingRename.Some? && old(renames) <= failingRename.value < renames)
      && (outcome == CopyFailed ==> exists c :: c in failingCopies && old(copies) <= c < copies)
    }

    method Rename(from: Loc, to: Loc) returns (ok: bool)
      requires from in fs && to !in fs
      modifies this`fs, this`renames
      ensures renames == old(renames) + 1
      ensures ok <==> failingRename != Some(old(renames))
      ensures fs == if ok then old(fs)[to := old(fs)[from]] - {from} else old(fs)
    {
      ok := failingRename != Some(renames);
      renames := renames + 1;
      if ok { fs := fs[to := fs[from]] - {from}; }
    }

    method NewScratch() returns (scratch: Loc)
      requires Valid()
      modifies this`nextScratch
      ensures Valid() && scratch.Scratch? && scratch !in fs && scratch.n == old(nextScratch)
          && nextScratch == old(nextScratch) + 1
    {
      scratch := Scratch(nextScratch);
      nextScratch := nextScratch + 1;
    }

    method CopyToTemp(source: Loc) returns (candidate: Option<Loc>)
      requires Valid() && source in fs
      modifies this
      ensures Valid() && renames == old(renames) && copies == old(copies) + 1
      ensures candidate.None? <==> old(copies) in failingCopies
      ensures candidate.None? ==> fs == old(fs)
      ensures candidate.Some? ==>
                && candidate.value.Scratch? && candidate.value !in old(fs)
                && fs == old(fs)[candidate.value := old(fs)[source]]
    {
      copies := copies + 1;
      if copies - 1 in failingCopies { return None; }
      var scratch := NewScratch();
      fs := fs[scratch := fs[source]];
      candidate := Some(scratch);
    }

    /** Either the candidate is at the target, or nothing has moved. */
    method AtomicReplaceDirectory(candidate: Loc, target: Loc) returns (ok: bool)
      requires Valid() && candidate in fs && candidate.Scratch? && !target.Scratch?
      modifies this
      ensures Valid() && copies == old(copies) && renames >= old(renames)
      ensures ok ==> fs == old(fs)[target := old(fs)[candidate]] - {candidate}
      ensures !ok ==> fs == old(fs) && failingRename.Some? && old(renames) <= failingRename.value < renames
      ensures ok ==> failingRename.None? || !(old(renames) <= failingRename.value < renames)
    {
      ghost var before := fs;
      var backup := NewScratch();
      var hadTarget := target in fs;
      if hadTarget {
        ok := Rename(target, backup);
        if !ok { return; }
      }
      ok := Rename(candidate, target);
      if !ok {
        if hadTarget && backup in fs {
          var restored := Rename(backup, target);
          assert restored;
          assert fs == before;
        }
        return;
      }
      if hadTarget {
        fs := fs - {backup};
      }
      assert fs == before[target := before[candidate]] - {candidate};
    }

    /** Copies a directory into the history unless its digest is there already. */
    method SnapshotDirectory(skillId: string, source: Loc, digest: string) returns (outcome: Outcome)
      requires Valid() && source in fs
      modifies this
      ensures Valid() && Faulty(outcome)
      ensures outcome == Done ==>
                fs == if History(skillId, digest) in old(fs) then old(fs)
                    else old(fs)[History(skillId, digest) := old(fs)[source]]
      ensures outcome != Done ==> fs == old(fs)
      ensures outcome !in {NotFound}
      ensures outcome in {Invalid, DigestMismatch} ==> History(skillId, digest) !in old(fs)
      ensures outcome == Invalid ==> !validate(old(fs)[source]).valid
      ensures outcome == DigestMismatch ==>
                validate(old(fs)[source]).valid && validate(old(fs)[source]).digest != digest
      ensures outcome == Done && History(skillId, digest) !in old(fs) ==>
          Accepts(validate(old(fs)[source]), Some(digest))
    {
      ghost var before := fs;
      var target := History(skillId, digest);
      if target in fs { return Done; }
      var candidate := CopyToTemp(source);
      if candidate.None? { return CopyFailed; }
      var validation := validate(fs[candidate.value]);
      if !Accepts(validation, Some(digest)) {
        fs := fs - {candidate.value};
        assert fs == before;
        return Refusal(validation);
      }
      var ok := Rename(candidate.value, target);
      if !ok {
        fs := fs - {candidate.value};
        assert fs == before;
        return RenameFailed;
      }
      assert fs == before[target := before[source]];
      outcome := Done;
    }

    method SnapshotEnabled(skillId: string) returns (outcome: Outcome)
      requires Valid()
      modifies this
      ensures Valid() && Faulty(outcome)
      ensures outcome == Done ==>
                && fs == Snapshot(old(fs), validate, skillId)
                && (Enabled(skillId) in old(fs) ==> validate(old(fs)[Enabled(skillId)]).valid)
      ensures outcome != Done ==> fs == old(fs)
      ensures outcome in {Done, Invalid, CopyFailed, RenameFailed}
      ensures outcome == Invalid <==> InvalidEnabled(old(fs), validate, skillId)
    {
      if Enabled(skillId) !in fs { return Done; }
      var validation := validate(fs[Enabled(skillId)]);
      if !validation.valid { return Invalid; }
      outcome := SnapshotDirectory(skillId, Enabled(skillId), validation.digest);
    }

    /** `enableDraft`; `read` is the draft's package as it was validated before the lock. */
    method EnableDraft(draftId: string, read: Package, expected: Option<string>) returns (outcome: Outcome)
      requires Valid()
      modifies this
      ensures Valid() && Faulty(outcome)
      ensures Next(old(fs), Enable(draftId, read, expected), fs, validate)
      ensures outcome == Done ==>
                && FindsDraft(old(fs), draftId) && Accepts(validate(old(fs)[Draft(draftId)]), expected)
                && fs == AfterEnable(old(fs), validate, draftId, validate(read).id)
                && Enables(old(fs), fs, validate, draftId, validate(read).id)
                && (expected.Some? ==> validate(fs[Enabled(validate(read).id)]).digest == expected.value)
      ensures outcome != Done ==> fs == old(fs) || Snapshotted(old(fs), fs, validate, validate(read).id)
      ensures outcome == NotFound <==> Accepts(validate(read), expected) && !FindsDraft(old(fs), draftId)
      ensures outcome in {Invalid, DigestMismatch} ==> fs == old(fs)
      ensures outcome == DigestMismatch <==>
                || WrongDigest(validate(read), expected)
                || (Accepts(validate(read), expected) && FindsDraft(old(fs), draftId)
                    && WrongDigest(validate(old(fs)[Draft(draftId)]), expected))
      ensures outcome == Invalid <==>
                || !validate(read).valid
                || (Accepts(validate(read), expected) && FindsDraft(old(fs), draftId)
                    && var draft := validate(old(fs)[Draft(draftId)]);
                    || !draft.valid
                    || (Accepts(draft, expected) && InvalidEnabled(old(fs), validate, validate(read).id)))
    {
      var first := validate(read);
      if !Accepts(first, expected) { return Refusal(first); }
      if !FindsDraft(fs, draftId) { return NotFound; }
      var source := Draft(draftId);
      var validation := validate(fs[source]);
      if !Accepts(validation, expected) { return Refusal(validation); }
      outcome := SnapshotEnabled(first.id);
      if outcome != Done { return; }
      outcome := Move(source, Enabled(first.id), expected);
      EnablesIff(old(fs), fs, validate, draftId, first.id);
    }

    /** The shared core of `enableDraft` and `disable`: a copy takes the target's place while the source
        is hidden, and any failing rename puts everything back. */
    method Move(source: Loc, target: Loc, expected: Option<string>) returns (outcome: Outcome)
      requires Valid() && source in fs && !source.Scratch? && !target.Scratch? && source != target
      requires Accepts(validate(fs[source]), expected)
      modifies this
      ensures Valid() && Faulty(outcome)
      ensures outcome in {Done, CopyFailed, RenameFailed}
      ensures fs == if outcome == Done then old(fs)[target := old(fs)[source]] - {source} else old(fs)
    {
      ghost var before := fs;
      var candidate := CopyToTemp(source);
      if candidate.None? { return CopyFailed; }
      var consumed := NewScratch();
      Moves(before, source, target, candidate.value, consumed);
      var ok := Rename(source, consumed);
      if ok {
        ok := AtomicReplaceDirectory(candidate.value, target);
        if ok {
          fs := fs - {consumed};
          return Done;
        }
        if consumed in fs && source !in fs {
          var restored := Rename(consumed, source);
          assert restored;
        }
      }
      fs := fs - {candidate.value};
      outcome := RenameFailed;
    }

    /** The locked part of `disable`. */
    method Disable(skillId: string) returns (outcome: Outcome)
      requires Valid()
      modifies this
      ensures Valid() && Faulty(outcome)
      ensures Next(old(fs), Operation.Disable(skillId), fs, validate)
      ensures outcome == Done ==>
                && Enabled(skillId) in old(fs) && validate(old(fs)[Enabled(skillId)]).valid
                && fs == AfterDisable(old(fs), validate, skillId) && Disables(old(fs), fs, validate, skillId)
      ensures outcome != Done ==> fs == old(fs) || Snapshotted(old(fs), fs, validate, skillId)
      ensures outcome == NotFound <==> Enabled(skillId) !in old(fs)
      ensures outcome != DigestMismatch
      ensures outcome == Invalid <==> InvalidEnabled(old(fs), validate, skillId)
    {
      if Enabled(skillId) !in fs { return NotFound; }
      outcome := SnapshotEnabled(skillId);
      if outcome != Done { return; }
      outcome := Move(Enabled(skillId), Disabled(skillId), None);
      DisablesIff(old(fs), fs, validate, skillId);
    }

    /** The locked part of `rollback`. */
    method Rollback(skillId: string, digest: string) returns (outcome: Outcome)
      requires Valid()
      modifies this
      ensures Valid() && Faulty(outcome)
      ensures Next(old(fs), Operation.Rollback(skillId, digest), fs, validate)
      ensures outcome == Done ==>
                && History(skillId, digest) in old(fs) && Accepts(validate(old(fs)[History(skillId, digest)]),
                                                                  Some(digest))
                && (Enabled(skillId) in old(fs) ==> validate(old(fs)[Enabled(skillId)]).valid)
                && fs == AfterRollback(old(fs), validate, skillId, digest)
                && RollsBack(old(fs), fs, validate, skillId, digest)
      ensures outcome != Done ==> fs == old(fs) || Snapshotted(old(fs), fs, validate, skillId)
      ensures outcome == NotFound <==> History(skillId, digest) !in old(fs)
      ensures outcome in {Invalid, DigestMismatch} ==> fs == old(fs)
      ensures outcome == DigestMismatch <==>
                && History(skillId, digest) in old(fs)
                && WrongDigest(validate(old(fs)[History(skillId, digest)]), Some(digest))
      ensures outcome == Invalid <==>
                && History(skillId, digest) in old(fs)
                && var stored := validate(old(fs)[History(skillId, digest)]);
                   !stored.valid || (stored.digest == digest && InvalidEnabled(old(fs), validate, skillId))
    {
      var source := History(skillId, digest);
      if source !in fs { return NotFound; }
      var validation := validate(fs[source]);
      if !Accepts(validation, Some(digest)) { return Refusal(validation); }
      outcome := SnapshotEnabled(skillId);
      if outcome != Done { return; }
      outcome := Install(source, Enabled(skillId));
      RollsBackIff(old(fs), fs, validate, skillId, digest);
    }

    /** A copy of the source takes the target's place. */
    method Install(source: Loc, target: Loc) returns (outcome: Outcome)
      requires Valid() && source in fs && !target.Scratch?
      modifies this
      ensures Valid() && Faulty(outcome)
      ensures outcome in {Done, CopyFailed, RenameFailed}
      ensures fs == if outcome == Done then old(fs)[target := old(fs)[source]] else old(fs)
    {
      ghost var before := fs;
      var candidate := CopyToTemp(source);
      if candidate.None? { return CopyFailed; }
      var ok := AtomicReplaceDirectory(candidate.value, target);
      if !ok {
        fs := fs - {candidate.value};
        assert fs == before;
        return RenameFailed;
      }
      assert fs == before[target := before[source]];
      outcome := Done;
    }

    /** `remove`; `read` is the package its metadata came from before the lock. */
    method Remove(id: string, read: Package) returns (outcome: Outcome)
      requires Valid()
      modifies this
      ensures Valid() && Faulty(outcome)
      ensures Next(old(fs), Operation.Remove(id, read), fs, validate)
      ensures outcome == NotFound <==> forall at :: !IsFirst(old(fs), id, at)
      ensures outcome == Done ==> RemovesFirst(old(fs), fs, id, validate(read))
      ensures outcome != Done ==> fs == old(fs)
      ensures outcome in {Invalid, DigestMismatch} ==>
                && validate(read).valid
                && exists at :: IsFirst(old(fs), id, at) && !at.Draft?
                                && var v := validate(old(fs)[at]);
                                if outcome == Invalid then !v.valid else v.valid && v.digest != validate(read).digest
    {
      LocateIff(fs, id);
      if Locate(fs, id).Some? { RemovesFirstEnds(fs, id, validate(read)); }
      var before := MetadataOf(validate(read), id);
      var latest := Locate(fs, id);
      if latest.None? { return NotFound; }
      outcome := Done;
      if !latest.value.Draft? && before.valid {
        outcome := SnapshotDirectory(before.skillId, latest.value, before.digest);
        if outcome != Done { return; }
      }
      fs := fs - {latest.value};
    }

    /** The locked part of `updateDraftFile`: an edited copy takes the place of the draft, or becomes a
        new draft when the package is enabled or disabled. */
    method UpdateDraftFile(id: string, newDraftId: string, edit: Package -> Package) returns (outcome: Outcome)
      requires Valid() && Draft(newDraftId) !in fs
      modifies this
      ensures Valid() && Faulty(outcome)
      ensures outcome == NotFound <==> forall at :: !IsFirst(old(fs), id, at)
      ensures outcome in {Done, NotFound, CopyFailed, RenameFailed}
      ensures outcome == Done ==>
                forall at :: IsFirst(old(fs), id, at) ==>
                  fs == old(fs)[(if at.Draft? then at else Draft(newDraftId)) := edit(old(fs)[at])]
      ensures outcome != Done ==> fs == old(fs)
    {
      LocateIff(fs, id);
      ghost var before := fs;
      var latest := Locate(fs, id);
      if latest.None? { return NotFound; }
      var candidate := CopyToTemp(latest.value);
      if candidate.None? { return CopyFailed; }
      fs := fs[candidate.value := edit(fs[candidate.value])];
      var ok: bool;
      if latest.value.Draft? {
        ok := AtomicReplaceDirectory(candidate.value, latest.value);
      } else {
        ok := Rename(candidate.value, Draft(newDraftId));
      }
      if !ok {
        fs := fs - {candidate.value};
        assert fs == before;
        return RenameFailed;
      }
      assert fs == before[(if latest.value.Draft? then latest.value else Draft(newDraftId)) :=
                          edit(before[latest.value])];
      outcome := Done;
    }

    /** Removes the expired entries of the history that nobody refers to, and nothing else. */
    method CleanupHistory(protected: set<(string, string)>, expired: (string, string) -> bool)
      returns (removed: set<(string, string)>)
      requires Valid()
      modifies this
      ensures Valid()
      ensures forall pair :: pair in removed <==>
                History(pair.0, pair.1) in old(fs) && expired(pair.0, pair.1) && pair !in protected
      ensures fs == old(fs) - set pair | pair in removed :: History(pair.0, pair.1)
    {
      removed := {};
      var left := set l | l in fs && l.History? && expired(l.id, l.digest) :: (l.id, l.digest);
      ghost var all := left;
      forall pair ensures pair in all <==> History(pair.0, pair.1) in fs && expired(pair.0, pair.1) {
        if History(pair.0, pair.1) in fs && expired(pair.0, pair.1) {
          var l := History(pair.0, pair.1);
          assert (l.id, l.digest) in all;
        }
      }
      while left != {}
        invariant Valid() && left <= all
        invariant forall pair :: pair in removed <==> pair in all - left && pair !in protected
        invariant fs == old(fs) - set pair | pair in removed :: History(pair.0, pair.1)
        decreases left
      {
        var pair :| pair in left;
        left := left - {pair};
        if pair !in protected {
          fs := fs - {History(pair.0, pair.1)};
          removed := removed + {pair};
        }
      }
    }
  }

  // ---------- All or nothing ----------

  /** The three states hold the same packages. */
  ghost predicate SameStates(a: Files, b: Files) {
    forall l: Loc :: l.Enabled? || l.Disabled? || l.Draft? ==> (l in a <==> l in b) && (l in a ==> a[l] == b[l])
  }

  /** A failed transaction leaves the states alone; the history may have gained the enabled package. */
  lemma FailureChangesNothing(before: Files, after: Files, validate: Package -> Validation, id: string)
    requires after == before || Snapshotted(before, after, validate, id)
    ensures SameStates(before, after)
    ensures forall l: Loc :: l in before ==> l in after && after[l] == before[l]
    ensures forall l: Loc :: l in after && l !in before ==>
              l == History(id, validate(after[l]).digest) && Enabled(id) in before && after[l] == before[Enabled(id)]
  {
  }

  // ---------- What the history and the states hold ----------

  /** SHA-256 without collisions: valid packages with the same digest are the same. And each has an id. */
  ghost predicate CollisionFree(validate: Package -> Validation) {
    && (forall p: Package :: validate(p).valid ==> validate(p).id != "")
    && forall p: Package, q: Package ::
         validate(p).valid && validate(q).valid && validate(p).digest == validate(q).digest ==> p == q
  }

  /** What lies in the history is valid and has the digest it is stored under. */
  ghost predicate HistoryHolds(fs: Files, validate: Package -> Validation) {
    forall id, digest :: History(id, digest) in fs ==> Accepts(validate(fs[History(id, digest)]), Some(digest))
  }

  /** The package is in the history under its own digest. */
  ghost predicate Stored(fs: Files, validate: Package -> Validation, p: Package) {
    exists id :: History(id, validate(p).digest) in fs && fs[History(id, validate(p).digest)] == p
  }

  /** Every valid enabled package lies under its own id, and the history under its own ids and digests. */
  ghost predicate Consistent(fs: Files, validate: Package -> Validation) {
    && HistoryHolds(fs, validate)
    && (forall id :: Enabled(id) in fs && validate(fs[Enabled(id)]).valid ==> validate(fs[Enabled(id)]).id == id)
    && (forall id, digest :: History(id, digest) in fs ==> validate(fs[History(id, digest)]).id == id)
  }

  /** `enableDraft` finds a package of another id than the one it validated before it got the lock. */
  predicate OtherId(fs: Files, op: Operation, validate: Package -> Validation)
    requires op.Enable?
  {
    FindsDraft(fs, op.draftId) && validate(fs[Draft(op.draftId)]).id != validate(op.read).id
  }

  /** Every operation keeps each package under its own id and each version under its own digest, but for an
      `enableDraft` without a digest that finds a package of another id. */
  lemma NextKeepsConsistent(fs: Files, op: Operation, after: Files, validate: Package -> Validation)
    requires CollisionFree(validate) && Consistent(fs, validate) && Next(fs, op, after, validate)
    requires op.Enable? && op.expected.None? ==> !OtherId(fs, op, validate)
    ensures Consistent(after, validate)
  {
    match op {
      case Enable(draftId, read, expected) =>
        var id := validate(read).id;
        SnapshotIsConsistent(fs, validate, id);
        if after != fs && after != Snapshot(fs, validate, id) {
          assert validate(fs[Draft(draftId)]).id == id;
          hide CollisionFree, Consistent;
          EnabledIsConsistent(Snapshot(fs, validate, id), validate, id, fs[Draft(draftId)], {Draft(draftId)});
        }
      case Disable(id) =>
        SnapshotIsConsistent(fs, validate, id);
        if Enabled(id) in fs && validate(fs[Enabled(id)]).valid {
          PartIsConsistent(Snapshot(fs, validate, id), AfterDisable(fs, validate, id), validate);
        }
        hide CollisionFree, Consistent;
      case Rollback(id, digest) =>
        SnapshotIsConsistent(fs, validate, id);
        if after != fs && after != Snapshot(fs, validate, id) {
          assert validate(fs[History(id, digest)]).id == id;
          hide CollisionFree, Consistent;
          EnabledIsConsistent(Snapshot(fs, validate, id), validate, id, fs[History(id, digest)], {});
        }
      case Remove(id, read) =>
        if after != fs {
          RemoveKeepsConsistent(fs, Locate(fs, id).value, op, after, validate);
        }
      case WriteDraft(draftId, package) => PartIsConsistent(fs, after, validate);
      case Cleanup(removed) => PartIsConsistent(fs, after, validate);
    }
  }

  /** What is enabled or in the history only became less. */
  lemma PartIsConsistent(fs: Files, after: Files, validate: Package -> Validation)
    requires Consistent(fs, validate)
    requires forall l: Loc :: l in after && (l.Enabled? || l.History?) ==> l in fs && after[l] == fs[l]
    ensures Consistent(after, validate)
  {
  }

  lemma SnapshotIsConsistent(fs: Files, validate: Package -> Validation, id: string)
    requires Consistent(fs, validate)
    ensures Snapshotted(fs, Snapshot(fs, validate, id), validate, id) ==>
        Consistent(Snapshot(fs, validate, id), validate)
  {
  }

  lemma EnabledIsConsistent(fs: Files, validate: Package -> Validation, id: string, p: Package, removed: set<Loc>)
    requires Consistent(fs, validate) && validate(p).id == id && removed <= set l | l in fs && l.Draft?
    ensures Consistent(fs[Enabled(id) := p] - removed, validate)
  {
  }

  lemma RemoveKeepsConsistent(fs: Files, at: Loc, op: Operation, after: Files, validate: Package -> Validation)
    requires CollisionFree(validate) && Consistent(fs, validate) && op.Remove?
    requires Removes(fs, at, MetadataOf(validate(op.read), op.id), after, validate)
    ensures Consistent(after, validate)
  {
  }

  /** An `enableDraft` that gets through keeps each package under its own id exactly if the draft still has
      the id it was validated with. */
  lemma EnableKeepsConsistentIff(fs: Files, validate: Package -> Validation, draftId: string, read: Package)
    requires Consistent(fs, validate) && FindsDraft(fs, draftId)
    requires validate(read).valid && validate(fs[Draft(draftId)]).valid
    requires Snapshotted(fs, Snapshot(fs, validate, validate(read).id), validate, validate(read).id)
    ensures Consistent(AfterEnable(fs, validate, draftId, validate(read).id), validate)
            <==> validate(fs[Draft(draftId)]).id == validate(read).id
  {
    var id, draft := validate(read).id, fs[Draft(draftId)];
    var after := AfterEnable(fs, validate, draftId, id);
    assert Enabled(id) in after && after[Enabled(id)] == draft;
    if validate(draft).id == id {
      SnapshotIsConsistent(fs, validate, id);
      assert Draft(draftId) in Snapshot(fs, validate, id);
      EnabledIsConsistent(Snapshot(fs, validate, id), validate, id, draft, {Draft(draftId)});
    }
  }

  /** Without a digest it does not notice: a draft that was rewritten under another id is enabled under
      the former one. */
  lemma RewrittenDraftIsMisplaced(validate: Package -> Validation, p: Package, q: Package, draftId: string)
    requires validate(p).valid && validate(q).valid && validate(p).id != validate(q).id
    ensures var fs := map[Draft(draftId) := q];
            && Consistent(fs, validate)
            && Next(fs, Enable(draftId, p, None), map[Enabled(validate(p).id) := q], validate)
            && !Consistent(map[Enabled(validate(p).id) := q], validate)
  {
    var fs: Files := map[Draft(draftId) := q];
    var after: Files := map[Enabled(validate(p).id) := q];
    assert AfterEnable(fs, validate, draftId, validate(p).id) == after;
    assert Enabled(validate(p).id) in after;
  }

  /** A version that another replaced comes back whole by a rollback to its digest. */
  lemma RollbackRestores(fs: Files, validate: Package -> Validation, draftId: string, id: string)
    requires CollisionFree(validate) && HistoryHolds(fs, validate)
    requires FindsDraft(fs, draftId) && Enabled(id) in fs && validate(fs[Enabled(id)]).valid
    ensures var old_ := fs[Enabled(id)];
            var enabled := AfterEnable(fs, validate, draftId, id);
            && History(id, validate(old_).digest) in enabled
            && Accepts(validate(enabled[History(id, validate(old_).digest)]), Some(validate(old_).digest))
            && AfterRollback(enabled, validate, id, validate(old_).digest)[Enabled(id)] == old_
  {
  }

  /** `remove` keeps the enabled package exactly when it is in the history already, or the package it
      read its metadata from was valid and that digest is not yet in the history. */
  lemma RemoveKeepsIff(fs: Files, validate: Package -> Validation, id: string, read: Package, after: Files)
    requires CollisionFree(validate) && HistoryHolds(fs, validate)
    requires Enabled(id) in fs && validate(fs[Enabled(id)]).valid
    requires Removes(fs, Enabled(id), MetadataOf(validate(read), id), after, validate)
    ensures Stored(after, validate, fs[Enabled(id)]) <==>
              || Stored(fs, validate, fs[Enabled(id)])
              || (validate(read).valid && History(validate(read).id, validate(read).digest) !in fs)
  {
    var p := fs[Enabled(id)];
    if Stored(fs, validate, p) {
      var other :| History(other, validate(p).digest) in fs && fs[History(other, validate(p).digest)] == p;
      assert History(other, validate(p).digest) in after;
    } else if validate(read).valid && History(validate(read).id, validate(read).digest) !in fs {
      assert History(validate(read).id, validate(p).digest) in after;
    }
  }
}
