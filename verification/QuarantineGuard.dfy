/** Exactly when it is careless to open a file for containment. What one row in custody
    needs is kept by every careful step, and also by an open of a path that some other
    restore is writing, even though that open breaks the custody invariant. */
module QuarantineGuard {
  import opened Quarantine
  import opened QuarantineRuns

  /** A copy in flight is under its row's name, and its original is at its path. */
  predicate CopyInStore(s: State, c: Containment) {
    var name := StoredName(c.row, c.rel);
    && (c.phase.Opened? || c.phase.Copying? || c.phase.Copied? ==> c.rel in s.home)
    && (c.phase.Copying? || c.phase.Copied? ==> name in s.store && s.store[name] == c.phase.dst)
  }

  predicate CopiesInStore(s: State) {
    forall k :: k in s.contains ==> CopyInStore(s, s.contains[k])
  }

  /** A restore writes a file that is in no store and at no other path. */
  predicate WritesApart(s: State, r: Restore) {
    r.at.Streaming? ==>
      && r.at.dst in s.data
      && (forall name :: name in s.store ==> s.store[name] != r.at.dst)
      && (forall rel :: rel in s.home && s.home[rel] == r.at.dst ==> rel == r.rel)
  }

  predicate SameTarget(r: Restore, q: Restore) {
    r.at.Streaming? && q.at.Streaming? && r.at.dst == q.at.dst
  }

  /** And no two restores write the same file. */
  predicate TargetsApart(s: State) {
    && (forall k :: k in s.restores ==> WritesApart(s, s.restores[k]))
    && (forall k, l :: k in s.restores && l in s.restores && SameTarget(s.restores[k], s.restores[l]) ==> k == l)
  }

  ghost predicate Sound(s: State) {
    && Allocated(s) && Separate(s) && RowsNamed(s) && Owned(s) && OneAtATime(s) && OpsNamed(s)
    && CopiesInStore(s) && TargetsApart(s)
  }

  /** A restore of the row reads the kept copy, and nobody contains what it writes. */
  predicate GivesBack(s: State, r: Restore, t: Taken) {
    && (r.at.Reopened? || r.at.Streaming? ==> r.rel == t.rel && r.stored in s.store && s.store[r.stored] == r.src)
    && (r.at.Streaming? ==>
          && r.rel in s.home && s.home[r.rel] == r.at.dst && r.at.dst in s.data
          && r.at.done <= |t.bytes| && s.data[r.at.dst] == t.bytes[..r.at.done]
          && forall k :: k in s.contains ==> !BeingContained(s.contains[k], r.rel))
  }

  /** What one row in custody needs. */
  ghost predicate Safe(s: State, row: RowId, t: Taken) {
    && StillKept(s, row, t)
    && forall k :: k in s.restores && s.restores[k].row == row ==> GivesBack(s, s.restores[k], t)
  }

  lemma InvIsSafe(s: State, row: RowId)
    requires Inv(s) && row in s.custody
    ensures Sound(s) && Safe(s, row, s.custody[row])
  {
    hide StoredName;
    assert Sound(s) by { InvIsSound(s); }
    assert Kept(s, row, s.custody[row]);
    forall k | k in s.restores && s.restores[k].row == row
      ensures GivesBack(s, s.restores[k], s.custody[row])
    {
      assert Restoring(s, s.restores[k]);
    }
  }

  lemma InvIsSound(s: State)
    requires Inv(s)
    ensures Sound(s)
  {
    hide StoredName, UsedName, RowsNamed, Owned, OpsNamed;
    forall k | k in s.contains
      ensures CopyInStore(s, s.contains[k])
    {
      assert CopyAt(s, s.contains[k]);
    }
    forall k | k in s.restores
      ensures WritesApart(s, s.restores[k])
    {
      assert Restoring(s, s.restores[k]);
    }
    forall k, l | k in s.restores && l in s.restores && SameTarget(s.restores[k], s.restores[l])
      ensures k == l
    {
      assert Restoring(s, s.restores[k]) && Restoring(s, s.restores[l]);
    }
  }

  // ----------------------------------------------------- every step keeps it

  lemma TenantKeepsPlaces(s: State, step: TenantStep)
    requires Allocated(s) && Separate(s) && CopiesInStore(s) && TargetsApart(s) && !Locked(s, step.rel)
    ensures var s' := TenantApply(s, step);
            Allocated(s') && Separate(s') && CopiesInStore(s') && TargetsApart(s')
  {
    hide StoredName;
  }

  lemma TenantKeepsRows(s: State, step: TenantStep)
    requires RowsNamed(s) && Owned(s) && OneAtATime(s) && OpsNamed(s)
    ensures var s' := TenantApply(s, step);
            RowsNamed(s') && Owned(s') && OneAtATime(s') && OpsNamed(s')
  {
    hide StoredName, UsedName;
  }

  lemma TenantKeepsSound(s: State, step: TenantStep)
    requires Sound(s) && !Locked(s, step.rel)
    ensures Sound(TenantApply(s, step))
  {
    hide TenantApply, Locked;
    hide Allocated, Separate, RowsNamed, Owned, OneAtATime, OpsNamed, CopiesInStore, TargetsApart;
    TenantKeepsPlaces(s, step);
    TenantKeepsRows(s, step);
  }

  lemma TenantKeepsSafe(s: State, step: TenantStep, row: RowId, t: Taken)
    requires Sound(s) && Safe(s, row, t) && !Locked(s, step.rel)
    ensures Safe(TenantApply(s, step), row, t)
  {
    hide StoredName, UsedName, RowsNamed, Owned, OneAtATime, OpsNamed, Separate;
  }

  lemma ContainKeepsSound(s: State, op: nat, step: ContainStep)
    requires Sound(s) && ContainEnabled(s, op, step)
    ensures Sound(ContainApply(s, op, step))
  {
    hide StoredName, UsedName, RowsNamed, Owned, OneAtATime, OpsNamed;
    NamesAreApart();
    ContainKeepsRows(s, op, step);
    ContainKeepsOwned(s, op, step);
    ContainKeepsNames(s, op, step);
    ContainKeepsPlaces(s, op, step);
    ContainKeepsCopiesIn(s, op, step);
    ContainKeepsTargets(s, op, step);
  }

  lemma ContainKeepsPlaces(s: State, op: nat, step: ContainStep)
    requires Allocated(s) && Separate(s) && OneAtATime(s) && CopiesInStore(s) && ContainEnabled(s, op, step)
    ensures var s' := ContainApply(s, op, step);
            Allocated(s') && Separate(s')
  {
    assert op in s.contains ==> CopyInStore(s, s.contains[op]);
    hide StoredName, CopiesInStore, OneAtATime;
  }

  lemma ContainKeepsCopiesIn(s: State, op: nat, step: ContainStep)
    requires OneAtATime(s) && CopiesInStore(s) && ContainEnabled(s, op, step)
    ensures CopiesInStore(ContainApply(s, op, step))
  {
    hide StoredName;
    var s' := ContainApply(s, op, step);
    forall k | k in s'.contains
      ensures CopyInStore(s', s'.contains[k])
    {
      assert k in s.contains ==> CopyInStore(s, s.contains[k]);
    }
  }

  lemma ContainKeepsTargets(s: State, op: nat, step: ContainStep)
    requires Allocated(s) && TargetsApart(s) && ContainEnabled(s, op, step)
    ensures TargetsApart(ContainApply(s, op, step))
  {
    hide StoredName;
  }

  /** No restore of the row is writing this path. */
  predicate Harmless(s: State, op: nat, step: ContainStep, row: RowId)
    requires ContainEnabled(s, op, step)
  {
    step.Open? ==>
      forall k :: k in s.restores && s.restores[k].row == row ==> !BeingRestored(s.restores[k], s.contains[op].rel)
  }

  lemma ContainKeepsKept(s: State, op: nat, step: ContainStep, row: RowId, t: Taken)
    requires Allocated(s) && Separate(s) && Owned(s) && CopiesInStore(s) && NamesApart()
    requires StillKept(s, row, t) && ContainEnabled(s, op, step)
    ensures StillKept(ContainApply(s, op, step), row, t)
  {
    hide StoredName;
    assert op in s.contains ==> Owns(s, s.contains[op]) && CopyInStore(s, s.contains[op]);
  }

  lemma ContainSparesTarget(s: State, op: nat, step: ContainStep, t: Taken, r: Restore)
    requires Allocated(s) && Separate(s) && ContainEnabled(s, op, step) && GivesBack(s, r, t) && r.at.Streaming?
    requires op in s.contains ==> CopyInStore(s, s.contains[op])
    ensures var s' := ContainApply(s, op, step);
            && r.rel in s'.home && s'.home[r.rel] == r.at.dst
            && r.at.dst in s'.data && s'.data[r.at.dst] == s.data[r.at.dst]
  {
    hide StoredName;
    if op in s.contains {
      assert step.RemoveOriginal? ==> BeingContained(s.contains[op], s.contains[op].rel);
    }
  }

  lemma ContainSparesSource(s: State, op: nat, step: ContainStep, row: RowId, r: Restore)
    requires NamesApart() && ContainEnabled(s, op, step) && r.stored == StoredName(row, r.rel) && r.stored in s.store
    requires op in s.contains ==> s.contains[op].row != row || s.contains[op].phase.Removed?
                                  || s.contains[op].phase.Failing?
    ensures var s' := ContainApply(s, op, step);
            r.stored in s'.store && s'.store[r.stored] == s.store[r.stored]
  {
    hide StoredName;
  }

  lemma ContainStartsNothing(s: State, op: nat, step: ContainStep, rel: Rel)
    requires ContainEnabled(s, op, step) && forall k :: k in s.contains ==> !BeingContained(s.contains[k], rel)
    requires step.Open? ==> s.contains[op].rel != rel
    ensures var s' := ContainApply(s, op, step);
            forall k :: k in s'.contains ==> !BeingContained(s'.contains[k], rel)
  {
    hide StoredName;
  }

  lemma ContainKeepsGiving(s: State, op: nat, step: ContainStep, row: RowId, t: Taken, k: nat)
    requires Allocated(s) && Separate(s) && Owned(s) && OpsNamed(s) && CopiesInStore(s) && NamesApart()
    requires StillKept(s, row, t) && ContainEnabled(s, op, step) && Harmless(s, op, step, row)
    requires k in s.restores && s.restores[k].row == row && GivesBack(s, s.restores[k], t)
    ensures GivesBack(ContainApply(s, op, step), s.restores[k], t)
  {
    var r := s.restores[k];
    assert RestoreNamed(s, r);
    assert op in s.contains ==> Owns(s, s.contains[op]) && CopyInStore(s, s.contains[op]);
    assert step.Open? && r.at.Streaming? ==> s.contains[op].rel != r.rel;
    hide OpsNamed, Owned, CopiesInStore, HasName, Harmless, ContainApply, ContainEnabled, NamesApart;
    hide StoredName, Allocated, Separate, CopyInStore;
    if r.at.Reopened? || r.at.Streaming? {
      ContainSparesSource(s, op, step, row, r);
    }
    if r.at.Streaming? {
      ContainSparesTarget(s, op, step, t, r);
      ContainStartsNothing(s, op, step, r.rel);
    }
  }

  lemma ContainKeepsSafe(s: State, op: nat, step: ContainStep, row: RowId, t: Taken)
    requires Sound(s) && Safe(s, row, t) && ContainEnabled(s, op, step) && Harmless(s, op, step, row)
    ensures Safe(ContainApply(s, op, step), row, t)
  {
    NamesAreApart();
    assert ContainApply(s, op, step).restores == s.restores by { ContainSparesRestores(s, op, step); }
    hide ContainApply, ContainEnabled, Harmless, NamesApart, StillKept, GivesBack;
    hide Allocated, Separate, RowsNamed, Owned, OneAtATime, OpsNamed, CopiesInStore, TargetsApart;
    ContainKeepsKept(s, op, step, row, t);
    forall k | k in s.restores && s.restores[k].row == row
      ensures GivesBack(ContainApply(s, op, step), s.restores[k], t)
    {
      ContainKeepsGiving(s, op, step, row, t, k);
    }
  }

  lemma ContainSparesRestores(s: State, op: nat, step: ContainStep)
    requires ContainEnabled(s, op, step)
    ensures ContainApply(s, op, step).restores == s.restores
  {
    hide StoredName, NextPhase, Creates;
  }

  lemma RestoreKeepsPlaces(s: State, op: nat, step: RestoreStep)
    requires Allocated(s) && Separate(s) && TargetsApart(s) && RestoreEnabled(s, op, step)
    ensures var s' := RestoreApply(s, op, step);
            Allocated(s') && Separate(s')
  {
    hide StoredName;
  }

  lemma RestoreKeepsCopiesIn(s: State, op: nat, step: RestoreStep)
    requires Owned(s) && OpsNamed(s) && CopiesInStore(s) && NamesApart() && RestoreEnabled(s, op, step)
    ensures CopiesInStore(RestoreApply(s, op, step))
  {
    hide StoredName;
    forall k | k in s.contains
      ensures CopyInStore(RestoreApply(s, op, step), s.contains[k])
    {
      assert CopyInStore(s, s.contains[k]) && Owns(s, s.contains[k]);
    }
  }

  lemma RestoreKeepsApart(s: State, op: nat, step: RestoreStep, k: nat)
    requires Allocated(s) && Separate(s) && RestoreEnabled(s, op, step)
    requires k in RestoreApply(s, op, step).restores && (k in s.restores ==> WritesApart(s, s.restores[k]))
    ensures WritesApart(RestoreApply(s, op, step), RestoreApply(s, op, step).restores[k])
  {
    hide StoredName;
  }

  lemma RestoreKeepsTargets(s: State, op: nat, step: RestoreStep)
    requires Allocated(s) && Separate(s) && TargetsApart(s) && RestoreEnabled(s, op, step)
    ensures TargetsApart(RestoreApply(s, op, step))
  {
    hide StoredName;
    var s' := RestoreApply(s, op, step);
    forall k | k in s'.restores
      ensures WritesApart(s', s'.restores[k])
    {
      RestoreKeepsApart(s, op, step, k);
    }
    assert forall k :: k in s.restores && s.restores[k].at.Streaming? ==> s.restores[k].at.dst in s.data;
    hide WritesApart, Separate;
  }

  lemma RestoreKeepsSound(s: State, op: nat, step: RestoreStep)
    requires Sound(s) && RestoreEnabled(s, op, step)
    ensures Sound(RestoreApply(s, op, step))
  {
    NamesAreApart();
    hide RestoreApply, RestoreEnabled, NamesApart;
    hide Allocated, Separate, RowsNamed, Owned, OneAtATime, OpsNamed, CopiesInStore, TargetsApart;
    RestoreKeepsRows(s, op, step);
    RestoreKeepsNames(s, op, step);
    RestoreKeepsPlaces(s, op, step);
    RestoreKeepsCopiesIn(s, op, step);
    RestoreKeepsTargets(s, op, step);
  }

  /** A step of a restore of another row. */
  lemma OtherKeepsKept(s: State, op: nat, step: RestoreStep, row: RowId, t: Taken)
    requires Allocated(s) && Separate(s) && OpsNamed(s) && TargetsApart(s) && NamesApart()
    requires StillKept(s, row, t) && RestoreEnabled(s, op, step) && op in s.restores && s.restores[op].row != row
    ensures StillKept(RestoreApply(s, op, step), row, t)
  {
    hide StoredName;
    assert RestoreNamed(s, s.restores[op]) && WritesApart(s, s.restores[op]);
    hide OpsNamed, TargetsApart;
  }

  lemma OtherKeepsGiving(s: State, op: nat, step: RestoreStep, row: RowId, t: Taken, k: nat)
    requires Allocated(s) && Separate(s) && OpsNamed(s) && TargetsApart(s) && NamesApart()
    requires StillKept(s, row, t) && RestoreEnabled(s, op, step) && op in s.restores && s.restores[op].row != row
    requires k in s.restores && s.restores[k].row == row && GivesBack(s, s.restores[k], t)
    ensures GivesBack(RestoreApply(s, op, step), s.restores[k], t)
  {
    hide StoredName;
    assert RestoreNamed(s, s.restores[op]) && RestoreNamed(s, s.restores[k]);
    assert WritesApart(s, s.restores[op]) && !SameTarget(s.restores[op], s.restores[k]);
    hide OpsNamed, TargetsApart, HasName;
  }

  /** A step of a restore of this row, other than its last write. */
  lemma OwnKeepsKept(s: State, op: nat, step: RestoreStep, row: RowId, t: Taken)
    requires Allocated(s) && Separate(s) && OpsNamed(s) && TargetsApart(s) && !step.StreamEnds?
    requires StillKept(s, row, t) && RestoreEnabled(s, op, step)
    requires op in s.restores ==> s.restores[op].row == row
    ensures StillKept(RestoreApply(s, op, step), row, t)
  {
    hide StoredName;
    assert op in s.restores ==> RestoreNamed(s, s.restores[op]) && WritesApart(s, s.restores[op]);
    hide OpsNamed, TargetsApart;
  }

  /** One restore of the row while another one steps. */
  lemma OwnKeepsOther(s: State, op: nat, step: RestoreStep, row: RowId, t: Taken, k: nat)
    requires Allocated(s) && Separate(s) && OpsNamed(s) && TargetsApart(s) && !step.StreamEnds?
    requires StillKept(s, row, t) && RestoreEnabled(s, op, step) && k != op
    requires op in s.restores ==> s.restores[op].row == row
    requires k in s.restores && s.restores[k].row == row && GivesBack(s, s.restores[k], t)
    ensures GivesBack(RestoreApply(s, op, step), s.restores[k], t)
  {
    hide StoredName;
    assert RestoreNamed(s, s.restores[k]);
    if op in s.restores {
      assert RestoreNamed(s, s.restores[op]) && WritesApart(s, s.restores[op]);
      assert !SameTarget(s.restores[op], s.restores[k]);
    }
    hide OpsNamed, TargetsApart, HasName;
  }

  lemma OwnKeepsGiving(s: State, op: nat, step: RestoreStep, row: RowId, t: Taken)
    requires Allocated(s) && Separate(s) && RowsNamed(s) && OpsNamed(s) && CopiesInStore(s) && TargetsApart(s)
    requires StillKept(s, row, t) && RestoreEnabled(s, op, step) && !step.StreamEnds?
    requires step.OpenStored? ==> step.row == row
    requires op in s.restores ==> s.restores[op].row == row && GivesBack(s, s.restores[op], t)
    requires op in RestoreApply(s, op, step).restores
    ensures GivesBack(RestoreApply(s, op, step), RestoreApply(s, op, step).restores[op], t)
  {
    hide StoredName, UsedName;
    if op in s.restores {
      assert RestoreNamed(s, s.restores[op]) && WritesApart(s, s.restores[op]);
      forall k | k in s.contains && BeingContained(s.contains[k], s.contains[k].rel)
        ensures s.contains[k].rel in s.home
      {
        assert CopyInStore(s, s.contains[k]);
      }
      hide OpsNamed, TargetsApart, CopiesInStore, RowsNamed;
    }
  }

  lemma OwnEnds(s: State, op: nat, row: RowId, t: Taken)
    requires StillKept(s, row, t) && RestoreEnabled(s, op, StreamEnds) && OpsNamed(s)
    requires op in s.restores && s.restores[op].row == row && GivesBack(s, s.restores[op], t)
    ensures GivenUp(s, RestoreApply(s, op, StreamEnds), row, t)
  {
    hide StoredName;
    assert RestoreNamed(s, s.restores[op]);
    assert AtPath(RestoreApply(s, op, StreamEnds), t.rel, t.bytes);
  }

  /** A restore changes no other one and stays with its row. */
  lemma RestoreTouches(s: State, op: nat, step: RestoreStep)
    requires RestoreEnabled(s, op, step)
    ensures var s' := RestoreApply(s, op, step);
            && (forall k :: k in s'.restores && k != op ==> k in s.restores && s'.restores[k] == s.restores[k])
            && (op in s.restores <==> !step.OpenStored?)
            && (op in s'.restores && op in s.restores ==> s'.restores[op].row == s.restores[op].row)
            && (step.OpenStored? ==> op in s'.restores && s'.restores[op].row == step.row)
  {
    hide StoredName;
  }

  lemma RestoreKeepsSafe(s: State, op: nat, step: RestoreStep, row: RowId, t: Taken)
    requires Sound(s) && Safe(s, row, t) && RestoreEnabled(s, op, step)
    ensures var s' := RestoreApply(s, op, step);
            Safe(s', row, t) || GivenUp(s, s', row, t)
  {
    NamesAreApart();
    var s' := RestoreApply(s, op, step);
    RestoreTouches(s, op, step);
    hide RestoreApply, RestoreEnabled, NamesApart, StillKept, GivesBack, GivenUp;
    hide Allocated, Separate, RowsNamed, Owned, OneAtATime, OpsNamed, CopiesInStore, TargetsApart;
    if op in s.restores && s.restores[op].row != row {
      OtherKeepsKept(s, op, step, row, t);
      forall k | k in s'.restores && s'.restores[k].row == row
        ensures GivesBack(s', s'.restores[k], t)
      {
        OtherKeepsGiving(s, op, step, row, t, k);
      }
    } else if step.StreamEnds? {
      OwnEnds(s, op, row, t);
    } else {
      OwnKeepsKept(s, op, step, row, t);
      forall k | k in s'.restores && s'.restores[k].row == row
        ensures GivesBack(s', s'.restores[k], t)
      {
        if k == op {
          OwnKeepsGiving(s, op, step, row, t);
        } else {
          OwnKeepsOther(s, op, step, row, t, k);
        }
      }
    }
  }

  lemma DeleteKeepsPlaces(s: State, op: nat, step: DeleteStep)
    requires Allocated(s) && Separate(s) && TargetsApart(s) && DeleteEnabled(s, op, step)
    ensures var s' := DeleteApply(s, op, step);
            Allocated(s') && Separate(s') && TargetsApart(s')
  {
    hide StoredName;
  }

  lemma DeleteKeepsCopiesIn(s: State, op: nat, step: DeleteStep)
    requires Owned(s) && OpsNamed(s) && CopiesInStore(s) && NamesApart()
    requires DeleteEnabled(s, op, step) && CarefulDelete(s, op, step)
    ensures CopiesInStore(DeleteApply(s, op, step))
  {
    hide StoredName;
    forall k | k in s.contains
      ensures CopyInStore(DeleteApply(s, op, step), s.contains[k])
    {
      assert CopyInStore(s, s.contains[k]) && Owns(s, s.contains[k]);
      assert step.Unlink? ==> DeleteNamed(s, s.deletes[op]);
    }
  }

  lemma DeleteKeepsSound(s: State, op: nat, step: DeleteStep)
    requires Sound(s) && DeleteEnabled(s, op, step) && CarefulDelete(s, op, step)
    ensures Sound(DeleteApply(s, op, step))
  {
    NamesAreApart();
    hide DeleteApply, DeleteEnabled, CarefulDelete, NamesApart;
    hide Allocated, Separate, RowsNamed, Owned, OneAtATime, OpsNamed, CopiesInStore, TargetsApart;
    DeleteKeepsRows(s, op, step);
    DeleteKeepsNames(s, op, step);
    DeleteKeepsPlaces(s, op, step);
    DeleteKeepsCopiesIn(s, op, step);
  }

  lemma DeleteKeepsSafe(s: State, op: nat, step: DeleteStep, row: RowId, t: Taken)
    requires Sound(s) && Safe(s, row, t) && DeleteEnabled(s, op, step) && CarefulDelete(s, op, step)
    ensures var s' := DeleteApply(s, op, step);
            Safe(s', row, t) || GivenUp(s, s', row, t)
  {
    hide StoredName, UsedName, Owned, OneAtATime;
    NamesAreApart();
  }

  // ------------------------------------------------------------- whole runs

  lemma StepKeepsSound(s: State, step: Step)
    requires Sound(s) && Enabled(s, step) && Careful(s, step)
    ensures Sound(Apply(s, step))
  {
    hide Sound, TenantApply, ContainApply, RestoreApply, DeleteApply, Locked;
    hide ContainEnabled, RestoreEnabled, DeleteEnabled, CarefulContain, CarefulDelete;
    match step
    case ByTenant(t) => TenantKeepsSound(s, t);
    case InContain(op, c) => ContainKeepsSound(s, op, c);
    case InRestore(op, r) => RestoreKeepsSound(s, op, r);
    case InDelete(op, d) => DeleteKeepsSound(s, op, d);
  }

  lemma StepKeepsSafe(s: State, step: Step, row: RowId, t: Taken)
    requires Sound(s) && Safe(s, row, t) && Enabled(s, step) && Careful(s, step)
    ensures Safe(Apply(s, step), row, t) || GivenUp(s, Apply(s, step), row, t)
  {
    hide Sound, Safe, TenantApply, ContainApply, RestoreApply, DeleteApply, Locked, GivenUp;
    hide ContainEnabled, RestoreEnabled, DeleteEnabled, CarefulDelete;
    match step
    case ByTenant(u) => TenantKeepsSafe(s, u, row, t);
    case InContain(op, c) => ContainKeepsSafe(s, op, c, row, t);
    case InRestore(op, r) => RestoreKeepsSafe(s, op, r, row, t);
    case InDelete(op, d) => DeleteKeepsSafe(s, op, d, row, t);
  }

  lemma {:induction false} SafeAlong(run: seq<State>, i: nat, row: RowId, t: Taken)
    requires i < |run| && Sound(run[0]) && Safe(run[0], row, t)
    requires forall j :: 0 <= j < |run| - 1 ==> CarefulAt(run, j) && !GivenUpAt(run, j, row, t)
    ensures Sound(run[i]) && Safe(run[i], row, t)
  {
    hide Sound, Safe, Apply, Enabled, Careful, GivenUp;
    if i > 0 {
      SafeAlong(run, i - 1, row, t);
      assert CarefulAt(run, i - 1) && !GivenUpAt(run, i - 1, row, t);
      var step :| Enabled(run[i - 1], step) && Careful(run[i - 1], step) && run[i] == Apply(run[i - 1], step);
      StepKeepsSound(run[i - 1], step);
      StepKeepsSafe(run[i - 1], step, row, t);
    }
  }

  /** Whatever is opened, a row loses nothing unless a restore of it writes that path. */
  lemma HarmlessOpenLosesNothing(s: State, k: nat, run: seq<State>, row: RowId)
    requires Inv(s) && ContainEnabled(s, k, Open) && row in s.custody && Harmless(s, k, Open, row)
    ensures !Loses(run, ContainApply(s, k, Open), row, s.custody[row])
  {
    var begun, t := ContainApply(s, k, Open), s.custody[row];
    InvIsSafe(s, row);
    ContainKeepsSound(s, k, Open);
    ContainKeepsSafe(s, k, Open, row, t);
    hide Inv, Sound, CarefulAt, GivenUpAt, ContainApply, ContainEnabled, Harmless;
    if Loses(run, begun, row, t) {
      SafeAlong(run, |run| - 1, row, t);
    }
  }

  /** WHICH OPENS LOSE A FILE, EXACTLY. In every state that keeps the invariant: to open a
      file for containment can lead, by careful steps alone, to the loss of a file in
      custody if and only if a restore of a row in custody is writing that path. */
  lemma OpenLosesIff(s: State, k: nat)
    requires Inv(s) && ContainEnabled(s, k, Open)
    ensures (exists run, row :: row in s.custody && Loses(run, ContainApply(s, k, Open), row, s.custody[row])) <==>
            exists j :: Clash(s, k, j)
  {
    if j :| Clash(s, k, j) {
      var run := CarelessOpenLosesTheFile(s, k, j);
      assert s.restores[j].row in s.custody;
    }
    if run, row :| row in s.custody && Loses(run, ContainApply(s, k, Open), row, s.custody[row]) {
      if Harmless(s, k, Open, row) {
        HarmlessOpenLosesNothing(s, k, run, row);
      } else {
        var j :| j in s.restores && s.restores[j].row == row && BeingRestored(s.restores[j], s.contains[k].rel);
        assert Clash(s, k, j);
      }
    }
  }
}
