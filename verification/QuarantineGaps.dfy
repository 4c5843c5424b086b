/** Where the code falls short of custody: a row without a stored name, and the path of
    a restore that is not over. */
module QuarantineGaps {
  import opened Decimals
  import opened Quarantine

  /** Deleting a row spares every other row's file exactly when the row has a stored
      name, or there is no store, or there is nothing else in custody. */
  lemma DeleteSparesOthersIff(s: State, op: nat)
    requires Inv(s) && DeleteEnabled(s, op, Unlink)
    ensures (forall r :: r in s.custody && r != s.deletes[op].row ==> Kept(DeleteApply(s, op, Unlink), r, s.custody[r]))
            <==> (s.deletes[op].stored != "" || !s.storeDir || s.custody.Keys <= {s.deletes[op].row})
  {
    var d := s.deletes[op];
    assert DeleteNamed(s, d);
    assert forall r :: r in s.custody ==> Kept(s, r, s.custody[r]);
    hide Inv, StoredName, DeleteApply;
    if d.stored == "" && s.storeDir {
      EmptyingLosesAll(s, op);
    } else {
      forall r | r in s.custody && r != d.row
        ensures Kept(DeleteApply(s, op, Unlink), r, s.custody[r])
      {
        UnlinkSpares(s, op, r);
      }
    }
  }

  lemma EmptyingLosesAll(s: State, op: nat)
    requires DeleteEnabled(s, op, Unlink) && s.deletes[op].stored == "" && s.storeDir
    ensures forall r :: r in s.custody ==> !Kept(DeleteApply(s, op, Unlink), r, s.custody[r])
  {
    hide StoredName;
  }

  lemma UnlinkSpares(s: State, op: nat, r: RowId)
    requires DeleteEnabled(s, op, Unlink) && DeleteNamed(s, s.deletes[op])
    requires r in s.custody && Kept(s, r, s.custody[r]) && r != s.deletes[op].row
    requires s.deletes[op].stored != "" || !s.storeDir
    ensures Kept(DeleteApply(s, op, Unlink), r, s.custody[r])
  {
    NamesAreApart();
    hide StoredName;
  }

  /** A row that a crash left without a stored name can neither be deleted nor
      restored, once the account has a store: no step changes it. */
  ghost predicate Stuck(s: State, row: RowId) {
    && row in s.rows && s.rows[row].stored == "" && s.storeDir && "" !in s.store
    && row < s.nextRow
    && (forall k :: k in s.contains ==> s.contains[k].row != row)
    && (forall k :: k in s.restores ==> s.restores[k].row != row)
    && (forall k :: k in s.deletes && s.deletes[k].row == row ==> s.deletes[k].stored == "" && !s.deletes[k].unlinked)
  }

  lemma StuckStays(s: State, step: Step, row: RowId)
    requires Stuck(s, row) && Enabled(s, step)
    ensures Stuck(Apply(s, step), row)
  {
    hide Stuck, TenantApply, ContainApply, RestoreApply, DeleteApply;
    hide Locked, ContainEnabled, RestoreEnabled, DeleteEnabled;
    match step
    case ByTenant(t) => StuckInTenant(s, t, row);
    case InContain(op, c) => StuckInContain(s, op, c, row);
    case InRestore(op, r) => StuckInRestore(s, op, r, row);
    case InDelete(op, d) => StuckInDelete(s, op, d, row);
  }

  lemma StuckInTenant(s: State, step: TenantStep, row: RowId)
    requires Stuck(s, row)
    ensures Stuck(TenantApply(s, step), row)
  {
    hide StoredName;
  }

  lemma StuckInContain(s: State, op: nat, step: ContainStep, row: RowId)
    requires Stuck(s, row) && ContainEnabled(s, op, step)
    ensures Stuck(ContainApply(s, op, step), row)
  {
    hide Decimal, Base, StoredName;
  }

  lemma StuckInRestore(s: State, op: nat, step: RestoreStep, row: RowId)
    requires Stuck(s, row) && RestoreEnabled(s, op, step)
    ensures Stuck(RestoreApply(s, op, step), row)
  {
    hide Decimal, Base, StoredName;
  }

  lemma StuckInDelete(s: State, op: nat, step: DeleteStep, row: RowId)
    requires Stuck(s, row) && DeleteEnabled(s, op, step)
    ensures Stuck(DeleteApply(s, op, step), row)
  {
    hide Decimal, Base, StoredName;
  }

  lemma StepOf(run: seq<State>, i: nat) returns (step: Step)
    requires IsRun(run) && i + 1 < |run|
    ensures Enabled(run[i], step) && run[i + 1] == Apply(run[i], step)
  {
    hide Apply, Enabled, Start;
    assert StepAt(run, i);
    step :| Enabled(run[i], step) && run[i + 1] == Apply(run[i], step);
  }

  lemma {:induction false} StuckForGood(run: seq<State>, i: nat, j: nat, row: RowId)
    requires IsRun(run) && i <= j < |run| && Stuck(run[i], row)
    ensures Stuck(run[j], row)
  {
    hide Stuck, Apply, Enabled, IsRun;
    if i < j {
      StuckForGood(run, i, j - 1, row);
      var step := StepOf(run, j - 1);
      StuckStays(run[j - 1], step, row);
    }
  }

  /** ONE CRASH STOPS CONTAINMENT. A crash before the row is updated leaves it
      stuck once the account has a store, and from then on nothing in the account
      is contained, on any run, careful or not. */
  lemma CrashBlocksContainment(run: seq<State>, i: nat, j: nat, k: nat, op: nat, rel: Rel)
    requires IsRun(run) && i + 1 <= j < |run| && Inv(run[i])
    requires k in run[i].contains && run[i].storeDir && run[i + 1] == Apply(run[i], InContain(k, ContainDies))
    requires forall d :: d in run[i].deletes ==> run[i].deletes[d].row != run[i].contains[k].row
    ensures !ContainEnabled(run[j], op, Insert(rel))
  {
    var row := run[i].contains[k].row;
    assert Stuck(run[i + 1], row) by {
      hide Decimal, Base, StoredName;
      assert Owns(run[i], run[i].contains[k]);
      forall r | r in run[i].restores
        ensures run[i].restores[r].row != row
      {
        assert RestoreNamed(run[i], run[i].restores[r]);
      }
    }
    StuckForGood(run, i + 1, j, row);
  }

  // Two runs that show both exceptions to care are needed. In both, the file "x"
  // at "a" is contained as row 0.

  const N0: string := StoredName(0, "a")
  const N1: string := StoredName(1, "a")

  /** The file is open. */
  const OPENED: State :=
    State(map[0 := "x", 1 := "y"], map["a" := 0, "b" := 1], map[], false, map[0 := Row("a", "", false)], 1, 2,
          map[0 := Containment(0, "a", Opened(0, "x"))], map[], map[], map[])

  /** Row 0 has its copy. */
  const COPIED: State :=
    State(map[0 := "x", 1 := "y", 2 := "x"], map["a" := 0, "b" := 1], map[N0 := 2], true,
          map[0 := Row("a", "", false)], 1, 3,
          map[0 := Containment(0, "a", Copying(0, "x", 2, 1))], map[], map[], map[])

  const LANDED: State :=
    State(COPIED.data, COPIED.home, COPIED.store, true, COPIED.rows, 1, 3,
          map[0 := Containment(0, "a", Copied(0, "x", 2))], map[], map[], map[])

  /** The original is removed. */
  const TAKEN: State :=
    State(map[0 := "x", 1 := "y", 2 := "x"], map["b" := 1], map[N0 := 2], true,
          map[0 := Row("a", "", false)], 1, 3,
          map[0 := Containment(0, "a", Removed)], map[], map[], map[0 := Taken("a", "x")])

  const HELD: State :=
    State(map[0 := "x", 1 := "y", 2 := "x"], map["b" := 1], map[N0 := 2], true,
          map[0 := Row("a", N0, false)], 1, 3,
          map[], map[], map[], map[0 := Taken("a", "x")])

  /** Row 0 is being restored: its target exists, and is empty. */
  const RESTORING: State :=
    State(map[0 := "x", 1 := "y", 2 := "x", 3 := ""], map["b" := 1, "a" := 3], map[N0 := 2], true,
          map[0 := Row("a", N0, false)], 1, 4,
          map[], map[0 := Restore(0, "a", N0, 2, Streaming(3, 0))], map[], map[0 := Taken("a", "x")])

  /** The empty target is opened for containment as row 1. */
  const REOPENED: State :=
    State(RESTORING.data, RESTORING.home, RESTORING.store, true,
          map[0 := Row("a", N0, false), 1 := Row("a", "", false)], 2, 4,
          map[1 := Containment(1, "a", Opened(3, ""))], RESTORING.restores, map[], RESTORING.custody)

  /** It is copied. */
  const RECOPIED: State :=
    State(map[0 := "x", 1 := "y", 2 := "x", 3 := "", 4 := ""], map["b" := 1, "a" := 3], map[N0 := 2, N1 := 4], true,
          map[0 := Row("a", N0, false), 1 := Row("a", "", false)], 2, 5,
          map[1 := Containment(1, "a", Copying(3, "", 4, 0))],
          map[0 := Restore(0, "a", N0, 2, Streaming(3, 0))], map[], map[0 := Taken("a", "x")])

  const RELANDED: State :=
    State(RECOPIED.data, RECOPIED.home, RECOPIED.store, true, RECOPIED.rows, 2, 5,
          map[1 := Containment(1, "a", Copied(3, "", 4))], RECOPIED.restores, map[], RECOPIED.custody)

  /** The empty target is removed. */
  const RETAKEN: State :=
    State(map[0 := "x", 1 := "y", 2 := "x", 3 := "", 4 := ""], map["b" := 1], map[N0 := 2, N1 := 4], true,
          map[0 := Row("a", N0, false), 1 := Row("a", "", false)], 2, 5,
          map[1 := Containment(1, "a", Removed)],
          map[0 := Restore(0, "a", N0, 2, Streaming(3, 0))], map[], map[0 := Taken("a", "x"), 1 := Taken("a", "")])

  /** Row 1 has taken the empty target away. */
  const SWEPT: State :=
    State(map[0 := "x", 1 := "y", 2 := "x", 3 := "", 4 := ""], map["b" := 1], map[N0 := 2, N1 := 4], true,
          map[0 := Row("a", N0, false), 1 := Row("a", N1, false)], 2, 5,
          map[], map[0 := Restore(0, "a", N0, 2, Streaming(3, 0))], map[],
          map[0 := Taken("a", "x"), 1 := Taken("a", "")])

  /** The bytes are written, onto a file that has no name any more. */
  const WRITTEN: State :=
    State(map[0 := "x", 1 := "y", 2 := "x", 3 := "x", 4 := ""], map["b" := 1], map[N0 := 2, N1 := 4], true,
          SWEPT.rows, 2, 5, map[], map[0 := Restore(0, "a", N0, 2, Streaming(3, 1))], map[], SWEPT.custody)

  const STREAMED: State :=
    State(map[0 := "x", 1 := "y", 2 := "x", 3 := "x", 4 := ""], map["b" := 1], map[N0 := 2, N1 := 4], true,
          map[0 := Row("a", N0, false), 1 := Row("a", N1, false)], 2, 5,
          map[], map[0 := Restore(0, "a", N0, 2, Streamed)], map[], map[1 := Taken("a", "")])

  const RECORDED: State :=
    State(STREAMED.data, STREAMED.home, STREAMED.store, true,
          map[0 := Row("a", N0, true), 1 := Row("a", N1, false)], 2, 5,
          map[], map[0 := Restore(0, "a", N0, 2, Recorded)], map[], STREAMED.custody)

  /** The restore is recorded and the store cleaned. */
  const LOST: State :=
    State(map[0 := "x", 1 := "y", 2 := "x", 3 := "x", 4 := ""], map["b" := 1], map[N1 := 4], true,
          map[0 := Row("a", N0, true), 1 := Row("a", N1, false)], 2, 5,
          map[], map[], map[], map[1 := Taken("a", "")])

  const BEFORE: State := State(map[0 := "x", 1 := "y"], map["a" := 0, "b" := 1], map[], false, map[], 0, 2,
                               map[], map[], map[], map[])

  /** A run from BEFORE to this state, on which nobody has deleted anything. */
  ghost predicate Leads(run: seq<State>, s: State) {
    && run != [] && run[0] == BEFORE && run[|run| - 1] == s
    && (forall i :: 0 <= i < |run| - 1 ==> StepAt(run, i))
    && (forall i :: 0 <= i < |run| ==> run[i].deletes == map[])
  }

  lemma Then(run: seq<State>, s: State, step: Step) returns (longer: seq<State>, s': State)
    requires Leads(run, s) && Enabled(s, step) && !step.InDelete?
    ensures s' == Apply(s, step) && Leads(longer, s')
  {
    hide ContainApply, RestoreApply, TenantApply, Enabled;
    s' := Apply(s, step);
    longer := run + [s'];
    assert Next(s, s');
    assert s'.deletes == s.deletes by { OnlyDeletesDelete(s, step); }
    forall i | 0 <= i < |longer| - 1
      ensures StepAt(longer, i)
    {
      if i < |run| - 1 {
        assert StepAt(run, i);
      }
    }
  }

  lemma OnlyDeletesDelete(s: State, step: Step)
    requires Enabled(s, step) && !step.InDelete?
    ensures Apply(s, step).deletes == s.deletes
  {
    hide StoredName, ContainApply, ContainEnabled;
    match step
    case ByTenant(_) =>
    case InContain(op, c) => ContainDeletesNothing(s, op, c);
    case InRestore(_, _) =>
  }

  lemma ContainDeletesNothing(s: State, op: nat, step: ContainStep)
    requires ContainEnabled(s, op, step)
    ensures ContainApply(s, op, step).deletes == s.deletes
  {
    hide StoredName, NextPhase;
  }

  lemma OpenOneFile() returns (run: seq<State>)
    ensures Leads(run, OPENED)
  {
    hide Decimal, Base, StoredName, RestoreApply, DeleteApply, TenantApply;
    run := [BEFORE];
    assert Leads(run, BEFORE);
    hide Leads;
    var s;
    run, s := Then(run, BEFORE, InContain(0, Insert("a")));
    assert s.contains[0] == Containment(0, "a", Inserted);
    run, s := Then(run, s, InContain(0, Open));
    assert s == OPENED;
  }

  lemma CopyOneFile() returns (run: seq<State>)
    ensures Leads(run, COPIED)
  {
    hide Decimal, Base, StoredName, RestoreApply, DeleteApply, TenantApply, Leads;
    var s;
    run := OpenOneFile();
    run, s := Then(run, OPENED, InContain(0, CreateTarget));
    assert s.contains[0] == Containment(0, "a", Copying(0, "x", 2, 0)) && s.data[0] == "x";
    run, s := Then(run, s, InContain(0, CopyChunk(1)));
    assert "x"[..1] == "x";
    assert s == COPIED;
  }

  lemma LandOneFile() returns (run: seq<State>)
    ensures Leads(run, LANDED)
  {
    hide Decimal, Base, StoredName, RestoreApply, DeleteApply, TenantApply, Leads;
    var s;
    run := CopyOneFile();
    run, s := Then(run, COPIED, InContain(0, CopyEnds));
    assert s == LANDED;
  }

  lemma TakeOneFile() returns (run: seq<State>)
    ensures Leads(run, TAKEN)
  {
    hide Decimal, Base, StoredName, RestoreApply, DeleteApply, TenantApply, Leads;
    var s;
    run := LandOneFile();
    run, s := Then(run, LANDED, InContain(0, RemoveOriginal));
    assert s == TAKEN;
  }

  lemma ContainOneFile() returns (run: seq<State>)
    ensures Leads(run, HELD)
  {
    hide Decimal, Base, StoredName, RestoreApply, DeleteApply, TenantApply, Leads;
    var s;
    run := TakeOneFile();
    run, s := Then(run, TAKEN, InContain(0, UpdateRow));
    assert s == HELD;
  }

  lemma BeginRestore() returns (run: seq<State>)
    ensures Leads(run, RESTORING)
  {
    hide Decimal, Base, StoredName, ContainApply, DeleteApply, TenantApply, Leads;
    var s := HELD;
    run := ContainOneFile();
    run, s := Then(run, s, InRestore(0, OpenStored(0)));
    run, s := Then(run, s, InRestore(0, CreateFile));
    assert s == RESTORING;
  }

  lemma OpenTarget() returns (run: seq<State>)
    ensures Leads(run, REOPENED)
  {
    hide Decimal, Base, StoredName, RestoreApply, DeleteApply, TenantApply, Leads;
    var s := RESTORING;
    run := BeginRestore();
    run, s := Then(run, s, InContain(1, Insert("a")));
    assert s.contains[1] == Containment(1, "a", Inserted) && s.home["a"] == 3 && s.data[3] == "";
    run, s := Then(run, s, InContain(1, Open));
    assert s == REOPENED;
  }

  lemma CopyTarget() returns (run: seq<State>)
    ensures Leads(run, RECOPIED)
  {
    hide Decimal, Base, StoredName, RestoreApply, DeleteApply, TenantApply, Leads;
    NamesAreApart();
    var s;
    run := OpenTarget();
    assert N1 !in REOPENED.store;
    run, s := Then(run, REOPENED, InContain(1, CreateTarget));
    assert s == RECOPIED;
  }

  lemma LandTarget() returns (run: seq<State>)
    ensures Leads(run, RELANDED)
  {
    hide Decimal, Base, StoredName, RestoreApply, DeleteApply, TenantApply, Leads;
    var s;
    run := CopyTarget();
    run, s := Then(run, RECOPIED, InContain(1, CopyEnds));
    assert s == RELANDED;
  }

  lemma TakeTarget() returns (run: seq<State>)
    ensures Leads(run, RETAKEN)
  {
    hide Decimal, Base, StoredName, RestoreApply, DeleteApply, TenantApply, Leads;
    var s;
    run := LandTarget();
    run, s := Then(run, RELANDED, InContain(1, RemoveOriginal));
    assert s == RETAKEN;
  }

  lemma SweepTarget() returns (run: seq<State>)
    ensures Leads(run, SWEPT)
  {
    hide Decimal, Base, StoredName, RestoreApply, DeleteApply, TenantApply, Leads;
    var s;
    run := TakeTarget();
    run, s := Then(run, RETAKEN, InContain(1, UpdateRow));
    assert s == SWEPT;
  }

  lemma StreamOntoNothing() returns (run: seq<State>)
    ensures Leads(run, WRITTEN)
  {
    hide Decimal, Base, StoredName, ContainApply, DeleteApply, TenantApply, Leads;
    var s := SWEPT;
    run := SweepTarget();
    run, s := Then(run, s, InRestore(0, StreamChunk(1)));
    assert "x"[..1] == "x";
    assert s == WRITTEN;
  }

  lemma EndStream() returns (run: seq<State>)
    ensures Leads(run, STREAMED)
  {
    hide Decimal, Base, StoredName, ContainApply, DeleteApply, TenantApply, Leads;
    var s := WRITTEN;
    run := StreamOntoNothing();
    run, s := Then(run, s, InRestore(0, StreamEnds));
    assert s == STREAMED;
  }

  lemma RecordRestore() returns (run: seq<State>)
    ensures Leads(run, RECORDED)
  {
    hide Decimal, Base, StoredName, ContainApply, DeleteApply, TenantApply, Leads;
    var s := STREAMED;
    run := EndStream();
    run, s := Then(run, s, InRestore(0, Record));
    assert s == RECORDED;
  }

  lemma EndRestore() returns (run: seq<State>)
    ensures Leads(run, LOST)
  {
    hide Decimal, Base, StoredName, ContainApply, DeleteApply, TenantApply, Leads;
    NamesAreApart();
    var s := RECORDED;
    run := RecordRestore();
    run, s := Then(run, s, InRestore(0, CleanStore));
    assert s == LOST;
  }

  /** While row 0 is being restored, the path is contained again and the half-made
      target removed. When the restore ends and cleans the store, the bytes "x" are at
      no path and under no stored name, and nobody has deleted anything. */
  lemma ContainingARestoreLosesTheFile() returns (run: seq<State>)
    ensures Start(BEFORE) && AtPath(BEFORE, "a", "x") && Leads(run, LOST)
    ensures forall rel :: !AtPath(LOST, rel, "x")
    ensures forall name :: name in LOST.store ==> LOST.data[LOST.store[name]] != "x"
  {
    hide StoredName, Leads;
    run := EndRestore();
  }

  /** The process dies while containing another file as row 1. To delete row 1 then
      empties the store, and the file of row 0 with it. */
  lemma DeletingAnUnnamedRowLosesAnotherFile() returns (run: seq<State>, s: State)
    ensures Leads(run, s) && 0 in s.custody && 1 in s.rows && DeleteEnabled(s, 0, Select(1))
    ensures var selected := DeleteApply(s, 0, Select(1));
            DeleteEnabled(selected, 0, Unlink) && DeleteApply(selected, 0, Unlink).store == map[]
  {
    hide Decimal, Base, StoredName, RestoreApply, TenantApply, Leads;
    run := ContainOneFile();
    run, s := Then(run, HELD, InContain(1, Insert("b")));
    run, s := Then(run, s, InContain(1, ContainDies));
  }
}
