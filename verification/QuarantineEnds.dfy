/** What is left when a row is deleted and when a containment fails
    (internal/antivirus/quarantine.go:137-163, 437-455). */
module QuarantineEnds {
  import opened Quarantine
  import opened QuarantineRuns

  /** This file has no name any more, neither in the store nor in the home. */
  predicate Nameless(s: State, i: Inode) {
    && (forall name :: name in s.store ==> s.store[name] != i)
    && (forall rel :: rel in s.home ==> s.home[rel] != i)
  }

  /** Everything but the store, the rows, the operations and the history is as before. */
  predicate SameElsewhere(s: State, s': State) {
    s'.data == s.data && s'.home == s.home && s'.storeDir == s.storeDir && s'.restores == s.restores
  }

  lemma SelectIs(s: State, op: nat, row: RowId)
    requires op !in s.deletes && row in s.rows
    ensures CarefulNext(s, s.(deletes := s.deletes[op := Delete(row, s.rows[row].stored, false)]))
  {
    var step := InDelete(op, Select(row));
    assert Enabled(s, step) && Careful(s, step);
    assert Apply(s, step) == s.(deletes := s.deletes[op := Delete(row, s.rows[row].stored, false)]);
  }

  lemma UnlinkIs(s: State, op: nat)
    requires op in s.deletes && !s.deletes[op].unlinked && s.deletes[op].stored != ""
    ensures var d := s.deletes[op];
            CarefulNext(s, s.(store := s.store - {d.stored}, custody := s.custody - {d.row},
                              deletes := s.deletes[op := d.(unlinked := true)]))
  {
    var step, d := InDelete(op, Unlink), s.deletes[op];
    assert Enabled(s, step) && Careful(s, step);
    assert Apply(s, step) == s.(store := s.store - {d.stored}, custody := s.custody - {d.row},
                                deletes := s.deletes[op := d.(unlinked := true)]);
  }

  lemma DeleteRowIs(s: State, op: nat)
    requires op in s.deletes && s.deletes[op].unlinked
    ensures CarefulNext(s, s.(rows := s.rows - {s.deletes[op].row}, deletes := s.deletes - {op}))
  {
    var step, d := InDelete(op, DeleteRow), s.deletes[op];
    assert Enabled(s, step) && Careful(s, step);
    assert Apply(s, step) == s.(rows := s.rows - {d.row}, deletes := s.deletes - {op});
  }

  /** A run of careful steps from one state to another. */
  ghost predicate Leads(run: seq<State>, a: State, b: State) {
    run != [] && run[0] == a && run[|run| - 1] == b && forall i :: 0 <= i < |run| - 1 ==> CarefulAt(run, i)
  }

  lemma ThreeSteps(a: State, b: State, c: State, d: State)
    requires CarefulNext(a, b) && CarefulNext(b, c) && CarefulNext(c, d)
    ensures Leads([a, b, c, d], a, d)
  {
    hide CarefulNext;
    var run := [a, b, c, d];
    forall i | 0 <= i < 3
      ensures CarefulAt(run, i)
    {
      assert i == 0 || i == 1 || i == 2;
    }
  }

  function Selected(s: State, op: nat, row: RowId): State
    requires row in s.rows
  {
    s.(deletes := s.deletes[op := Delete(row, s.rows[row].stored, false)])
  }

  function Unlinked(s: State, op: nat, row: RowId): State
    requires row in s.rows
  {
    s.(store := s.store - {s.rows[row].stored}, custody := s.custody - {row},
       deletes := s.deletes[op := Delete(row, s.rows[row].stored, true)])
  }

  function Deleted(s: State, row: RowId): State
    requires row in s.rows
  {
    s.(store := s.store - {s.rows[row].stored}, custody := s.custody - {row}, rows := s.rows - {row})
  }

  lemma DeleteSucceeds(s: State, op: nat, row: RowId) returns (run: seq<State>)
    requires row in s.rows && s.rows[row].stored != "" && op !in s.deletes
    ensures Leads(run, s, Deleted(s, row))
  {
    hide CarefulNext;
    var a, b, c := Selected(s, op, row), Unlinked(s, op, row), Deleted(s, row);
    SelectIs(s, op, row);
    assert a.deletes[op] == Delete(row, s.rows[row].stored, false);
    UnlinkIs(a, op);
    assert b == a.(store := a.store - {s.rows[row].stored}, custody := a.custody - {row},
                   deletes := a.deletes[op := a.deletes[op].(unlinked := true)]);
    DeleteRowIs(b, op);
    assert c == b.(rows := b.rows - {row}, deletes := b.deletes - {op});
    run := [s, a, b, c];
    hide Selected, Unlinked, Deleted;
    ThreeSteps(s, a, b, c);
  }

  /** A DELETE DELETES. From any state of a careful run, a row with a stored name that is
      selected, unlinked and deleted leaves no row of that id, no name of it in the store
      and no name of its file anywhere; and every other path, stored file and row is as
      before. */
  lemma DeleteDeletes(s: State, op: nat, row: RowId) returns (run: seq<State>, s': State)
    requires Inv(s) && row in s.rows && s.rows[row].stored != "" && op !in s.deletes
    ensures Leads(run, s, s') && SameElsewhere(s, s') && s'.deletes == s.deletes && s'.contains == s.contains
    ensures var stored := s.rows[row].stored;
            && row !in s'.rows && s'.rows == s.rows - {row}
            && stored !in s'.store && s'.store == s.store - {stored}
            && (stored in s.store ==> Nameless(s', s.store[stored]))
  {
    s' := Deleted(s, row);
    assert Separate(s);
    hide Inv;
    run := DeleteSucceeds(s, op, row);
  }

  /** THERE AND GONE. From any state of a careful run, a file contained and then deleted,
      undisturbed, is neither at its path nor in the store; nothing else has changed. */
  lemma ContainThenDelete(s: State, op: nat, rel: Rel, del: nat) returns (run: seq<State>, s': State)
    requires Inv(s) && s.contains == map[] && (forall r :: r in s.rows ==> s.rows[r].stored != "")
    requires rel in s.home && (forall k :: k in s.restores ==> !BeingRestored(s.restores[k], rel)) && del !in s.deletes
    ensures Leads(run, s, s')
    ensures s'.home == s.home - {rel} && s'.store == s.store && s'.rows == s.rows
    ensures s'.restores == s.restores && s'.deletes == s.deletes && s'.contains == map[]
    ensures Nameless(s', s.nextInode) && s.nextInode in s'.data
  {
    hide Inv, Path, Contained, Deleted, Nameless, BeingRestored, StoredName;
    var there := ContainmentSucceeds(s, op, rel);
    WhatIsContained(s, op, rel);
    WhereItIs(s, op, rel);
    var t, row := Contained(s, op, rel), s.nextRow;
    var gone := DeleteSucceeds(t, del, row);
    s' := Deleted(t, row);
    GoneIs(s, op, rel);
    run := LeadsOn(there, s, t, gone, s');
  }

  lemma LeadsOn(first: seq<State>, a: State, b: State, second: seq<State>, c: State) returns (run: seq<State>)
    requires Path(first, a, b) && Leads(second, b, c)
    ensures Leads(run, a, c)
  {
    hide CarefulNext;
    run := Joined(first, a, b, second);
  }

  /** What is left of a contained file when its row is deleted. */
  lemma GoneIs(s: State, op: nat, rel: Rel)
    requires Inv(s) && rel in s.home && s.home[rel] in s.data && s.nextRow in Contained(s, op, rel).rows
    ensures var s' := Deleted(Contained(s, op, rel), s.nextRow);
            && s'.home == s.home - {rel} && s'.store == s.store && s'.rows == s.rows
            && s'.restores == s.restores && s'.deletes == s.deletes && s'.contains == map[]
            && Nameless(s', s.nextInode) && s.nextInode in s'.data
  {
    hide StoredName, Contained;
    NextNameIsFree(s, rel);
    WhatIsContained(s, op, rel);
    WhereItIs(s, op, rel);
    assert s.nextRow !in s.rows;
  }

  lemma WhereItIs(s: State, op: nat, rel: Rel)
    requires Inv(s) && rel in s.home && s.home[rel] in s.data
    ensures var t := Contained(s, op, rel);
            && t.home == s.home - {rel} && t.contains == map[] && t.deletes == s.deletes && t.restores == s.restores
            && t.store == s.store[StoredName(s.nextRow, rel) := s.nextInode]
            && t.rows == s.rows[s.nextRow := Row(rel, StoredName(s.nextRow, rel), false)]
            && (forall name :: name in s.store ==> s.store[name] != s.nextInode)
            && (forall r :: r in s.home ==> s.home[r] != s.nextInode)
  {
    hide StoredName, RowsNamed, Owned, OneAtATime, OpsNamed, Copies, Custody, Restores, Alone, Separate;
    assert Allocated(s);
  }

  /** A FAILURE TAKES ITS COPY BACK. A containment that fails after its copy was created,
      in any state of a careful run, and drops its row: no row of that id, no name of it in
      the store and no name of the copy is left; the original and everything else is as
      before. */
  lemma FailureLeavesNothing(s: State, k: nat) returns (run: seq<State>, s': State)
    requires Inv(s) && k in s.contains && (s.contains[k].phase.Copying? || s.contains[k].phase.Copied?)
    ensures Leads(run, s, s') && SameElsewhere(s, s') && s'.deletes == s.deletes && s'.contains == s.contains - {k}
    ensures var c := s.contains[k];
            && c.row !in s'.rows && s'.rows == s.rows - {c.row}
            && StoredName(c.row, c.rel) !in s'.store && s'.store == s.store - {StoredName(c.row, c.rel)}
            && Nameless(s', c.phase.dst) && AtPath(s', c.rel, c.phase.want)
  {
    hide StoredName;
    var c := s.contains[k];
    assert CopyAt(s, c) && Separate(s);
    hide Inv;
    var failed := s.(contains := s.contains[k := c.(phase := Failing)], store := s.store - {StoredName(c.row, c.rel)});
    s' := failed.(contains := s.contains - {k}, rows := s.rows - {c.row});
    FailIs(s, k);
    DropIs(failed, k);
    assert failed.contains - {k} == s.contains - {k};
    run := [s, failed, s'];
    hide CarefulNext;
    forall i | 0 <= i < 2
      ensures CarefulAt(run, i)
    {
      assert i == 0 || i == 1;
    }
  }

  lemma FailIs(s: State, k: nat)
    requires k in s.contains && (s.contains[k].phase.Copying? || s.contains[k].phase.Copied?)
    ensures var c := s.contains[k];
            CarefulNext(s, s.(contains := s.contains[k := c.(phase := Failing)],
                              store := s.store - {StoredName(c.row, c.rel)}))
  {
    hide StoredName;
    var step, c := InContain(k, Fails), s.contains[k];
    assert Enabled(s, step) && Careful(s, step);
    assert Apply(s, step) == s.(contains := s.contains[k := c.(phase := Failing)],
                                store := s.store - {StoredName(c.row, c.rel)});
  }

  lemma DropIs(s: State, k: nat)
    requires k in s.contains && s.contains[k].phase.Failing?
    ensures CarefulNext(s, s.(contains := s.contains - {k}, rows := s.rows - {s.contains[k].row}))
  {
    hide StoredName;
    var step, c := InContain(k, DropRow), s.contains[k];
    assert Enabled(s, step) && Careful(s, step);
    assert Apply(s, step) == s.(contains := s.contains - {k}, rows := s.rows - {c.row});
  }

  // -------------------------------------------------------- a restore is final

  /** The row is marked restored, or gone for good. */
  predicate PutBack(s: State, row: RowId) {
    row < s.nextRow && (row in s.rows ==> s.rows[row].restored)
  }

  /** No restore of the row runs that did not run before. */
  predicate NoneBegun(s: State, s': State, row: RowId) {
    forall op :: op in s'.restores && s'.restores[op].row == row ==> op in s.restores && s.restores[op].row == row
  }

  lemma ContainKeepsPutBack(s: State, op: nat, step: ContainStep, row: RowId)
    requires PutBack(s, row) && ContainEnabled(s, op, step)
    ensures PutBack(ContainApply(s, op, step), row) && NoneBegun(s, ContainApply(s, op, step), row)
  {
    hide NextPhase, StoredName, Creates;
  }

  lemma RestoreKeepsPutBack(s: State, op: nat, step: RestoreStep, row: RowId)
    requires PutBack(s, row) && RestoreEnabled(s, op, step)
    ensures PutBack(RestoreApply(s, op, step), row) && NoneBegun(s, RestoreApply(s, op, step), row)
  {
    hide NextProgress, Appears;
  }

  lemma DeleteKeepsPutBack(s: State, op: nat, step: DeleteStep, row: RowId)
    requires PutBack(s, row) && DeleteEnabled(s, op, step)
    ensures PutBack(DeleteApply(s, op, step), row) && NoneBegun(s, DeleteApply(s, op, step), row)
  {
    hide Empties;
  }

  lemma StepKeepsPutBack(s: State, step: Step, row: RowId)
    requires PutBack(s, row) && Enabled(s, step)
    ensures PutBack(Apply(s, step), row) && NoneBegun(s, Apply(s, step), row)
  {
    hide ContainApply, RestoreApply, DeleteApply, ContainEnabled, RestoreEnabled, DeleteEnabled, Locked, PutBack;
    match step
    case ByTenant(t) => TenantKeepsPutBack(s, t, row);
    case InContain(op, c) => ContainKeepsPutBack(s, op, c, row);
    case InRestore(op, r) => RestoreKeepsPutBack(s, op, r, row);
    case InDelete(op, d) => DeleteKeepsPutBack(s, op, d, row);
  }

  lemma TenantKeepsPutBack(s: State, step: TenantStep, row: RowId)
    requires PutBack(s, row)
    ensures PutBack(TenantApply(s, step), row) && NoneBegun(s, TenantApply(s, step), row)
  {}

  /** A FILE IS PUT BACK ONCE. From the moment its row is marked restored no further restore
      of it begins, in any run, even if its copy is still in the store. */
  lemma {:induction false} RestoredOnce(run: seq<State>, i: nat, j: nat, row: RowId)
    requires IsRun(run) && i <= j < |run| && PutBack(run[i], row)
    ensures PutBack(run[j], row) && NoneBegun(run[i], run[j], row)
    decreases j
  {
    hide Apply, Enabled, PutBack;
    if i < j {
      RestoredOnce(run, i, j - 1, row);
      assert StepAt(run, j - 1);
      var step :| Enabled(run[j - 1], step) && run[j] == Apply(run[j - 1], step);
      StepKeepsPutBack(run[j - 1], step, row);
    }
  }
}
