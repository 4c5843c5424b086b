/** Containment, restore and delete of one account's files, with a crash possible
    after any step (internal/antivirus/quarantine.go, internal/files/safeio_linux.go).

    Each account has its own home and its own store directory, so one account is
    modelled. A file is an inode: a writer goes on writing to it after its name is
    gone. The row of a containment is inserted with an empty stored name, and the
    table's unique key on that name admits one such row at a time
    (migrations/0092_av_quarantine.sql). The tenant writes to and deletes any path,
    except one that a containment has opened and not yet removed, or that a restore
    is still writing. A restore of a row with an empty stored name copies nothing
    and is left out. */
module Quarantine {
  import opened Decimals

  type Rel = string
  type Bytes = string
  type Inode = nat
  type RowId = nat

  // ------------------------------------------------------------ stored names

  function Base(rel: Rel): string {
    if rel == "" || rel[|rel| - 1] == '/' then "" else Base(rel[..|rel| - 1]) + [rel[|rel| - 1]]
  }

  function StoredName(row: RowId, rel: Rel): (name: string)
    ensures name != ""
  {
    Decimal(row) + "_" + Base(rel)
  }

  /** The digits end at the first underscore. */
  lemma {:induction false} SplitAtUnderscore(a: string, x: string, b: string, y: string)
    requires a + "_" + x == b + "_" + y
    requires forall k :: 0 <= k < |a| ==> a[k] != '_'
    requires forall k :: 0 <= k < |b| ==> b[k] != '_'
    ensures a == b && x == y
  {
    var s := a + "_" + x;
    assert s[|a|] == '_' && s[|b|] == '_';
    assert forall k :: 0 <= k < |a| ==> s[k] == a[k];
    assert forall k :: 0 <= k < |b| ==> s[k] == b[k];
    assert |a| == |b|;
    assert a == s[..|a|] == s[..|b|] == b;
    assert x == s[|a| + 1..] == s[|b| + 1..] == y;
  }

  /** Two rows never share a stored name, whatever the paths were. */
  lemma StoredNameInjective(a: RowId, x: Rel, b: RowId, y: Rel)
    ensures StoredName(a, x) == StoredName(b, y) ==> a == b
  {
    if StoredName(a, x) == StoredName(b, y) {
      SplitAtUnderscore(Decimal(a), Base(x), Decimal(b), Base(y));
      DecimalInjective(a, b);
    }
  }

  // ------------------------------------------------------- the state machine

  /** `stored` is "" until the copy has landed and the row is updated. */
  datatype Row = Row(rel: Rel, stored: string, restored: bool)

  /** A containment in flight. `want` is history: the bytes the file held when it
      was opened. */
  datatype Phase =
    | Inserted
    | Opened(src: Inode, want: Bytes)
    | Copying(src: Inode, want: Bytes, dst: Inode, done: nat)
    | Copied(src: Inode, want: Bytes, dst: Inode)
    | Removed
    | Failing

  datatype Containment = Containment(row: RowId, rel: Rel, phase: Phase)

  datatype Progress = Reopened | Streaming(dst: Inode, done: nat) | Streamed | Recorded

  datatype Restore = Restore(row: RowId, rel: Rel, stored: string, src: Inode, at: Progress)

  datatype Delete = Delete(row: RowId, stored: string, unlinked: bool)

  /** What was taken out of the home under a row. */
  datatype Taken = Taken(rel: Rel, bytes: Bytes)

  /** `custody` is history: the rows whose file was taken and neither explicitly
      deleted nor restored since. */
  datatype State = State(
    data: map<Inode, Bytes>, home: map<Rel, Inode>, store: map<string, Inode>, storeDir: bool,
    rows: map<RowId, Row>, nextRow: RowId, nextInode: Inode,
    contains: map<nat, Containment>, restores: map<nat, Restore>, deletes: map<nat, Delete>,
    custody: map<RowId, Taken>)

  datatype TenantStep = Write(rel: Rel, bytes: Bytes) | Erase(rel: Rel)

  /** Each step works on one operation in flight; Dies is a crash of the process,
      or a failed call after which the handler returns and changes nothing more. */
  datatype ContainStep =
    Insert(newRel: Rel) | Open | CreateTarget | CopyChunk(n: nat) | CopyEnds | RemoveOriginal | UpdateRow
    | Fails | DropRow | ContainDies

  datatype RestoreStep =
    OpenStored(row: RowId) | CreateFile | StreamChunk(n: nat) | StreamEnds | Record | CleanStore | RestoreDies

  datatype DeleteStep = Select(row: RowId) | Unlink | DeleteRow | DeleteDies

  datatype Step =
    | ByTenant(tenant: TenantStep)
    | InContain(op: nat, contain: ContainStep)
    | InRestore(op: nat, restore: RestoreStep)
    | InDelete(op: nat, delete: DeleteStep)

  /** A containment has this path open and has not removed it yet. */
  predicate BeingContained(c: Containment, rel: Rel) {
    (c.phase.Opened? || c.phase.Copying? || c.phase.Copied?) && c.rel == rel
  }

  predicate BeingRestored(r: Restore, rel: Rel) {
    r.at.Streaming? && r.rel == rel
  }

  predicate Locked(s: State, rel: Rel) {
    || (exists k :: k in s.contains && BeingContained(s.contains[k], rel))
    || (exists k :: k in s.restores && BeingRestored(s.restores[k], rel))
  }

  // ------------------------------------------------------------ containment

  predicate ContainEnabled(s: State, op: nat, step: ContainStep) {
    if step.Insert? then
      op !in s.contains && forall r :: r in s.rows ==> s.rows[r].stored != ""
    else
      && op in s.contains
      && var c := s.contains[op];
         match step
         case Open => c.phase.Inserted? && c.rel in s.home
         case CreateTarget => c.phase.Opened?
         case CopyChunk(n) => c.phase.Copying? && c.phase.src in s.data
                              && c.phase.done + n <= |s.data[c.phase.src]|
         case CopyEnds => c.phase.Copying? && c.phase.src in s.data && c.phase.done == |s.data[c.phase.src]|
         case RemoveOriginal => c.phase.Copied?
         case UpdateRow => c.phase.Removed?
         case Fails => !c.phase.Removed? && !c.phase.Failing?
         case DropRow => c.phase.Failing?
         case _ => true
  }

  /** The state machine of one containment. O_EXCL: a file that already has the
      stored name is an orphan and is not written over. */
  function NextPhase(s: State, c: Containment, step: ContainStep): Phase {
    match (c.phase, step)
    case (Inserted, Open) =>
      if c.rel !in s.home then Failing
      else Opened(s.home[c.rel], if s.home[c.rel] in s.data then s.data[s.home[c.rel]] else "")
    case (Opened(src, want), CreateTarget) =>
      if StoredName(c.row, c.rel) in s.store then Failing else Copying(src, want, s.nextInode, 0)
    case (Copying(src, want, dst, done), CopyChunk(n)) => Copying(src, want, dst, done + n)
    case (Copying(src, want, dst, _), CopyEnds) => Copied(src, want, dst)
    case (Copied(_, _, _), RemoveOriginal) => Removed
    case _ => Failing
  }

  predicate Creates(s: State, c: Containment, step: ContainStep) {
    step.CreateTarget? && StoredName(c.row, c.rel) !in s.store
  }

  /** What the step does to the files and to the table. A failure after the target
      was created takes the copy back. */
  function ContainApply(s: State, op: nat, step: ContainStep): State
    requires ContainEnabled(s, op, step)
  {
    if step.Insert? then
      s.(rows := s.rows[s.nextRow := Row(step.newRel, "", false)], nextRow := s.nextRow + 1,
         contains := s.contains[op := Containment(s.nextRow, step.newRel, Inserted)])
    else
      var c := s.contains[op];
      var name := StoredName(c.row, c.rel);
      s.(contains := if step.UpdateRow? || step.DropRow? || step.ContainDies? then s.contains - {op}
                     else s.contains[op := c.(phase := NextPhase(s, c, step))],
         data := if Creates(s, c, step) then s.data[s.nextInode := ""]
                 else if step.CopyChunk? then s.data[c.phase.dst := s.data[c.phase.src][..c.phase.done + step.n]]
                 else s.data,
         nextInode := if Creates(s, c, step) then s.nextInode + 1 else s.nextInode,
         store := if Creates(s, c, step) then s.store[name := s.nextInode]
                  else if step.Fails? && (c.phase.Copying? || c.phase.Copied?) then s.store - {name}
                  else s.store,
         storeDir := s.storeDir || step.CreateTarget?,
         home := if step.RemoveOriginal? then s.home - {c.rel} else s.home,
         custody := if step.RemoveOriginal? then s.custody[c.row := Taken(c.rel, c.phase.want)] else s.custody,
         rows := if step.UpdateRow? && c.row in s.rows then s.rows[c.row := s.rows[c.row].(stored := name)]
                 else if step.DropRow? then s.rows - {c.row}
                 else s.rows)
  }

  // ---------------------------------------------------------------- restore

  predicate RestoreEnabled(s: State, op: nat, step: RestoreStep) {
    if step.OpenStored? then
      op !in s.restores && step.row in s.rows && !s.rows[step.row].restored && s.rows[step.row].stored in s.store
    else
      && op in s.restores
      && var r := s.restores[op];
         match step
         case CreateFile => r.at.Reopened?
         case StreamChunk(n) => r.at.Streaming? && r.src in s.data && r.at.done + n <= |s.data[r.src]|
         case StreamEnds => r.at.Streaming? && r.src in s.data && r.at.done == |s.data[r.src]|
         case Record => r.at.Streamed?
         case CleanStore => r.at.Recorded?
         case _ => true
  }

  predicate Appears(s: State, r: Restore, step: RestoreStep) {
    step.CreateFile? && r.rel !in s.home
  }

  function NextProgress(s: State, r: Restore, step: RestoreStep): Progress {
    match (r.at, step)
    case (Reopened, CreateFile) => Streaming(s.nextInode, 0)
    case (Streaming(dst, done), StreamChunk(n)) => Streaming(dst, done + n)
    case (Streaming(_, _), _) => Streamed
    case _ => Recorded
  }

  /** A target that already exists ends the restore: O_EXCL again. */
  function RestoreApply(s: State, op: nat, step: RestoreStep): State
    requires RestoreEnabled(s, op, step)
  {
    if step.OpenStored? then
      var row := s.rows[step.row];
      s.(restores := s.restores[op := Restore(step.row, row.rel, row.stored, s.store[row.stored], Reopened)])
    else
      var r := s.restores[op];
      s.(restores := if step.CleanStore? || step.RestoreDies? || (step.CreateFile? && r.rel in s.home)
                     then s.restores - {op}
                     else s.restores[op := r.(at := NextProgress(s, r, step))],
         data := if Appears(s, r, step) then s.data[s.nextInode := ""]
                 else if step.StreamChunk? then s.data[r.at.dst := s.data[r.src][..r.at.done + step.n]]
                 else s.data,
         nextInode := if Appears(s, r, step) then s.nextInode + 1 else s.nextInode,
         home := if Appears(s, r, step) then s.home[r.rel := s.nextInode] else s.home,
         custody := if step.StreamEnds? then s.custody - {r.row} else s.custody,
         rows := if step.Record? && r.row in s.rows then s.rows[r.row := s.rows[r.row].(restored := true)]
                 else s.rows,
         store := if step.CleanStore? then s.store - {r.stored} else s.store)
  }

  // ----------------------------------------------------------------- delete

  predicate DeleteEnabled(s: State, op: nat, step: DeleteStep) {
    match step
    case Select(row) => op !in s.deletes && row in s.rows
    case Unlink => op in s.deletes && !s.deletes[op].unlinked
    case DeleteRow => op in s.deletes && s.deletes[op].unlinked
    case DeleteDies => op in s.deletes
  }

  /** Removing the empty name under the store removes everything in the store and
      then fails on the directory itself; with no store there is nothing to remove. */
  predicate Empties(s: State, d: Delete, step: DeleteStep) {
    step.Unlink? && d.stored == "" && s.storeDir
  }

  function DeleteApply(s: State, op: nat, step: DeleteStep): State
    requires DeleteEnabled(s, op, step)
  {
    if step.Select? then s.(deletes := s.deletes[op := Delete(step.row, s.rows[step.row].stored, false)])
    else
      var d := s.deletes[op];
      var unlinks := step.Unlink? && d.stored != "";
      s.(store := if Empties(s, d, step) then map[] else if unlinks then s.store - {d.stored} else s.store,
         custody := if unlinks then s.custody - {d.row} else s.custody,
         rows := if step.DeleteRow? then s.rows - {d.row} else s.rows,
         deletes := if step.Unlink? && !Empties(s, d, step) then s.deletes[op := d.(unlinked := true)]
                    else s.deletes - {op})
  }

  // -------------------------------------------------------------------- runs

  /** A new file with these bytes under a path of the home. */
  function NewFile(s: State, rel: Rel, bytes: Bytes): State {
    s.(data := s.data[s.nextInode := bytes], home := s.home[rel := s.nextInode], nextInode := s.nextInode + 1)
  }

  function TenantApply(s: State, step: TenantStep): State {
    match step
    case Write(rel, bytes) => NewFile(s, rel, bytes)
    case Erase(rel) => s.(home := s.home - {rel})
  }

  predicate Enabled(s: State, step: Step) {
    match step
    case ByTenant(t) => !Locked(s, t.rel)
    case InContain(op, c) => ContainEnabled(s, op, c)
    case InRestore(op, r) => RestoreEnabled(s, op, r)
    case InDelete(op, d) => DeleteEnabled(s, op, d)
  }

  function Apply(s: State, step: Step): State
    requires Enabled(s, step)
  {
    match step
    case ByTenant(t) => TenantApply(s, t)
    case InContain(op, c) => ContainApply(s, op, c)
    case InRestore(op, r) => RestoreApply(s, op, r)
    case InDelete(op, d) => DeleteApply(s, op, d)
  }

  /** Containing a path that a restore is still writing breaks custody. */
  predicate CarefulContain(s: State, op: nat, step: ContainStep)
    requires ContainEnabled(s, op, step)
  {
    step.Open? ==> forall k :: k in s.restores ==> !BeingRestored(s.restores[k], s.contains[op].rel)
  }

  /** So does deleting a row whose stored name is still empty. */
  predicate CarefulDelete(s: State, op: nat, step: DeleteStep)
    requires DeleteEnabled(s, op, step)
  {
    step.Unlink? ==> s.deletes[op].stored != ""
  }

  predicate Careful(s: State, step: Step)
    requires Enabled(s, step)
  {
    match step
    case InContain(op, c) => CarefulContain(s, op, c)
    case InDelete(op, d) => CarefulDelete(s, op, d)
    case _ => true
  }

  ghost predicate Next(s: State, s': State) {
    exists step :: Enabled(s, step) && s' == Apply(s, step)
  }

  ghost predicate CarefulNext(s: State, s': State) {
    exists step :: Enabled(s, step) && Careful(s, step) && s' == Apply(s, step)
  }

  predicate Start(s: State) {
    && s.store == map[] && s.rows == map[] && s.contains == map[] && s.restores == map[] && s.deletes == map[]
    && s.custody == map[] && !s.storeDir
    && (forall rel :: rel in s.home ==> s.home[rel] in s.data)
    && (forall i :: i in s.data ==> i < s.nextInode)
  }

  ghost predicate StepAt(run: seq<State>, i: nat)
    requires i + 1 < |run|
  {
    Next(run[i], run[i + 1])
  }

  ghost predicate CarefulAt(run: seq<State>, i: nat)
    requires i + 1 < |run|
  {
    CarefulNext(run[i], run[i + 1])
  }

  ghost predicate IsRun(run: seq<State>) {
    run != [] && Start(run[0]) && forall i :: 0 <= i < |run| - 1 ==> StepAt(run, i)
  }

  ghost predicate IsCarefulRun(run: seq<State>) {
    run != [] && Start(run[0]) && forall i :: 0 <= i < |run| - 1 ==> CarefulAt(run, i)
  }

  // --------------------------------------------------------------- invariant

  predicate Allocated(s: State) {
    && (forall i :: i in s.data ==> i < s.nextInode)
    && (forall rel :: rel in s.home ==> s.home[rel] in s.data)
    && (forall name :: name in s.store ==> s.store[name] in s.data)
    && "" !in s.store
  }

  /** The store and the home share no file, and no file of the store has two names. */
  predicate Separate(s: State) {
    && (forall rel, name :: rel in s.home && name in s.store ==> s.home[rel] != s.store[name])
    && (forall a, b :: a in s.store && b in s.store && s.store[a] == s.store[b] ==> a == b)
  }

  /** The name of a row that has been used. */
  ghost predicate UsedName(name: string, nextRow: RowId) {
    exists r: RowId, rel: Rel :: r < nextRow && name == StoredName(r, rel)
  }

  ghost predicate RowsNamed(s: State) {
    && (forall name :: name in s.store ==> UsedName(name, s.nextRow))
    && (forall r :: r in s.rows ==> r < s.nextRow)
    && (forall r :: r in s.rows && s.rows[r].stored != "" ==> s.rows[r].stored == StoredName(r, s.rows[r].rel))
    && (forall r :: r in s.custody ==> r < s.nextRow)
    && (forall r :: r in s.custody && r in s.rows ==> s.rows[r].rel == s.custody[r].rel)
  }

  /** A containment in flight owns a row without a name. */
  predicate Owns(s: State, c: Containment) {
    && c.row in s.rows && s.rows[c.row].stored == "" && s.rows[c.row].rel == c.rel
    && (c.row in s.custody ==> c.phase.Removed?)
    && (c.phase.Inserted? || c.phase.Opened? ==> StoredName(c.row, c.rel) !in s.store)
  }

  predicate Owned(s: State) {
    forall k :: k in s.contains ==> Owns(s, s.contains[k])
  }

  /** The unique key on the empty stored name admits one containment at a time. */
  predicate OneAtATime(s: State) {
    forall k, l :: k in s.contains && l in s.contains ==> k == l
  }

  /** A restore or a delete in flight carries the stored name of its own row. */
  predicate HasName(s: State, row: RowId, stored: string) {
    && row < s.nextRow
    && (row in s.rows ==> s.rows[row].stored == stored)
  }

  predicate RestoreNamed(s: State, r: Restore) {
    && HasName(s, r.row, r.stored) && r.stored == StoredName(r.row, r.rel)
    && (r.at.Streamed? || r.at.Recorded? ==> r.row !in s.custody)
  }

  ghost predicate DeleteNamed(s: State, d: Delete) {
    && (d.unlinked ==> d.stored != "")
    && (d.stored != "" ==> HasName(s, d.row, d.stored) && exists rel :: d.stored == StoredName(d.row, rel))
  }

  ghost predicate OpsNamed(s: State) {
    && (forall k :: k in s.restores ==> RestoreNamed(s, s.restores[k]))
    && (forall k :: k in s.deletes ==> DeleteNamed(s, s.deletes[k]))
  }

  /** What is being contained is at its path, with a growing copy in the store. */
  predicate CopyAt(s: State, c: Containment) {
    var name := StoredName(c.row, c.rel);
    && (c.phase.Opened? || c.phase.Copying? || c.phase.Copied? ==>
          c.rel in s.home && s.home[c.rel] == c.phase.src && c.phase.src in s.data
          && s.data[c.phase.src] == c.phase.want)
    && (c.phase.Copying? || c.phase.Copied? ==> name in s.store && s.store[name] == c.phase.dst
                                                && c.phase.dst in s.data)
    && (c.phase.Copying? ==> c.phase.done <= |c.phase.want|
                             && s.data[c.phase.dst] == c.phase.want[..c.phase.done])
    && (c.phase.Copied? ==> s.data[c.phase.dst] == c.phase.want)
  }

  predicate Copies(s: State) {
    forall k :: k in s.contains ==> CopyAt(s, s.contains[k])
  }

  predicate Kept(s: State, row: RowId, t: Taken) {
    var name := StoredName(row, t.rel);
    name in s.store && s.store[name] in s.data && s.data[s.store[name]] == t.bytes
  }

  predicate Custody(s: State) {
    forall r :: r in s.custody ==> Kept(s, r, s.custody[r])
  }

  /** A restore in flight reads the kept copy and writes a file of its own. */
  predicate Restoring(s: State, r: Restore) {
    && (r.at.Streaming? ==> r.rel in s.home && s.home[r.rel] == r.at.dst && r.at.dst in s.data
                            && forall rel :: rel in s.home && s.home[rel] == r.at.dst ==> rel == r.rel)
    && ((r.at.Reopened? || r.at.Streaming?) && r.row in s.custody ==>
          r.rel == s.custody[r.row].rel && r.stored in s.store && s.store[r.stored] == r.src)
    && (r.at.Streaming? && r.row in s.custody ==>
          r.at.done <= |s.custody[r.row].bytes| && s.data[r.at.dst] == s.custody[r.row].bytes[..r.at.done])
  }

  predicate Restores(s: State) {
    forall k :: k in s.restores ==> Restoring(s, s.restores[k])
  }

  /** No path is restored twice at a time, or contained while it is restored. */
  predicate Alone(s: State) {
    && (forall k, l :: k in s.restores && l in s.restores && s.restores[l].at.Streaming? ==>
          (BeingRestored(s.restores[k], s.restores[l].rel) ==> k == l))
    && (forall k, l :: k in s.restores && l in s.contains && s.restores[k].at.Streaming?
          ==> !BeingContained(s.contains[l], s.restores[k].rel))
  }

  ghost predicate Inv(s: State) {
    && Allocated(s) && Separate(s) && RowsNamed(s) && Owned(s) && OneAtATime(s) && OpsNamed(s)
    && Copies(s) && Custody(s) && Restores(s) && Alone(s)
  }

  /** Stored names of different rows differ. */
  ghost predicate NamesApart() {
    forall r, x, q, y :: StoredName(r, x) == StoredName(q, y) ==> r == q
  }

  lemma NamesAreApart()
    ensures NamesApart()
  {
    forall r, x, q, y
      ensures StoredName(r, x) == StoredName(q, y) ==> r == q
    {
      StoredNameInjective(r, x, q, y);
    }
  }

  lemma TenantKeepsFiles(s: State, step: TenantStep)
    requires Allocated(s) && Separate(s) && RowsNamed(s) && Owned(s) && OneAtATime(s) && Custody(s)
    requires !Locked(s, step.rel)
    ensures Allocated(TenantApply(s, step)) && Separate(TenantApply(s, step))
    ensures RowsNamed(TenantApply(s, step)) && Owned(TenantApply(s, step)) && OneAtATime(TenantApply(s, step))
    ensures Custody(TenantApply(s, step))
  {
    hide Decimal, Base, StoredName;
  }

  lemma TenantKeepsOps(s: State, step: TenantStep)
    requires Allocated(s) && OpsNamed(s) && Copies(s) && Restores(s) && Alone(s)
    requires !Locked(s, step.rel)
    ensures OpsNamed(TenantApply(s, step)) && Copies(TenantApply(s, step)) && Restores(TenantApply(s, step))
    ensures Alone(TenantApply(s, step))
  {
    hide Decimal, Base, StoredName;
  }

  lemma ContainKeepsFiles(s: State, op: nat, step: ContainStep)
    requires Allocated(s) && Separate(s) && Copies(s)
    requires ContainEnabled(s, op, step)
    ensures Allocated(ContainApply(s, op, step)) && Separate(ContainApply(s, op, step))
  {
    hide Decimal, Base, StoredName;
  }

  lemma NextNameIsFree(s: State, rel: Rel)
    requires RowsNamed(s)
    ensures StoredName(s.nextRow, rel) !in s.store
  {
    hide Decimal, Base, StoredName;
    NamesAreApart();
    var name := StoredName(s.nextRow, rel);
    assert name in s.store ==> UsedName(name, s.nextRow);
  }

  lemma ContainKeepsRows(s: State, op: nat, step: ContainStep)
    requires RowsNamed(s) && Owned(s) && OneAtATime(s)
    requires ContainEnabled(s, op, step)
    ensures RowsNamed(ContainApply(s, op, step)) && OneAtATime(ContainApply(s, op, step))
  {
    hide Decimal, Base, StoredName;
  }

  lemma ContainKeepsOwned(s: State, op: nat, step: ContainStep)
    requires RowsNamed(s) && Owned(s) && OneAtATime(s)
    requires ContainEnabled(s, op, step)
    ensures Owned(ContainApply(s, op, step))
  {
    hide Decimal, Base, StoredName, UsedName;
    if step.Insert? {
      NextNameIsFree(s, step.newRel);
    }
  }

  lemma ContainKeepsNames(s: State, op: nat, step: ContainStep)
    requires RowsNamed(s) && Owned(s) && OpsNamed(s)
    requires ContainEnabled(s, op, step)
    ensures OpsNamed(ContainApply(s, op, step))
  {
    hide Decimal, Base, StoredName;
  }

  lemma ContainKeepsCopies(s: State, op: nat, step: ContainStep)
    requires Allocated(s) && Separate(s) && OneAtATime(s) && Copies(s)
    requires ContainEnabled(s, op, step)
    ensures Copies(ContainApply(s, op, step))
  {
    hide Decimal, Base, StoredName;
  }

  lemma ContainKeepsCustody(s: State, op: nat, step: ContainStep)
    requires Allocated(s) && Separate(s) && Owned(s) && Copies(s) && Custody(s) && NamesApart()
    requires ContainEnabled(s, op, step)
    ensures Custody(ContainApply(s, op, step))
  {
    hide Decimal, Base, StoredName;
  }

  lemma ContainKeepsRestores(s: State, op: nat, step: ContainStep)
    requires Allocated(s) && Separate(s) && Owned(s) && OpsNamed(s) && Copies(s) && Restores(s) && Alone(s)
    requires NamesApart()
    requires ContainEnabled(s, op, step)
    ensures Restores(ContainApply(s, op, step))
  {
    hide Decimal, Base, StoredName;
  }

  lemma ContainKeepsAlone(s: State, op: nat, step: ContainStep)
    requires Alone(s)
    requires ContainEnabled(s, op, step) && CarefulContain(s, op, step)
    ensures Alone(ContainApply(s, op, step))
  {
    hide Decimal, Base, StoredName;
  }

  lemma RestoreKeepsFiles(s: State, op: nat, step: RestoreStep)
    requires Allocated(s) && Separate(s) && Restores(s)
    requires RestoreEnabled(s, op, step)
    ensures Allocated(RestoreApply(s, op, step)) && Separate(RestoreApply(s, op, step))
  {
    hide Decimal, Base, StoredName;
  }

  lemma RestoreKeepsRows(s: State, op: nat, step: RestoreStep)
    requires RowsNamed(s) && Owned(s) && OneAtATime(s) && OpsNamed(s)
    requires RestoreEnabled(s, op, step)
    ensures RowsNamed(RestoreApply(s, op, step)) && Owned(RestoreApply(s, op, step))
    ensures OneAtATime(RestoreApply(s, op, step))
  {
    hide Decimal, Base, StoredName;
  }

  lemma RestoreKeepsNames(s: State, op: nat, step: RestoreStep)
    requires Allocated(s) && RowsNamed(s) && OpsNamed(s)
    requires RestoreEnabled(s, op, step)
    ensures OpsNamed(RestoreApply(s, op, step))
  {
    hide Decimal, Base, StoredName;
  }

  lemma RestoreKeepsCopies(s: State, op: nat, step: RestoreStep)
    requires Allocated(s) && Separate(s) && Owned(s) && OpsNamed(s) && Copies(s) && Restores(s) && Alone(s)
    requires NamesApart()
    requires RestoreEnabled(s, op, step)
    ensures Copies(RestoreApply(s, op, step))
  {
    hide Decimal, Base, StoredName;
  }

  lemma RestoreKeepsCustody(s: State, op: nat, step: RestoreStep)
    requires Allocated(s) && Separate(s) && OpsNamed(s) && Custody(s) && Restores(s) && NamesApart()
    requires RestoreEnabled(s, op, step)
    ensures Custody(RestoreApply(s, op, step))
  {
    hide Decimal, Base, StoredName;
  }

  lemma RestoreKeepsAlone(s: State, op: nat, step: RestoreStep)
    requires Copies(s) && Restores(s) && Alone(s)
    requires RestoreEnabled(s, op, step)
    ensures Alone(RestoreApply(s, op, step))
  {
    hide Decimal, Base, StoredName;
  }

  /** One restore in flight while another one steps. */
  lemma OtherRestore(s: State, op: nat, step: RestoreStep, k: nat)
    requires Allocated(s) && Separate(s) && OpsNamed(s) && Restores(s) && Alone(s) && NamesApart()
    requires RestoreEnabled(s, op, step) && k in s.restores && k != op
    ensures Restoring(RestoreApply(s, op, step), s.restores[k])
  {
    hide Decimal, Base, StoredName;
    assert Restoring(s, s.restores[k]);
  }

  lemma OwnRestore(s: State, op: nat, step: RestoreStep)
    requires Allocated(s) && Separate(s) && RowsNamed(s) && OpsNamed(s) && Custody(s) && Restores(s)
    requires RestoreEnabled(s, op, step) && op in RestoreApply(s, op, step).restores
    ensures Restoring(RestoreApply(s, op, step), RestoreApply(s, op, step).restores[op])
  {
    hide Decimal, Base, StoredName;
  }

  lemma RestoreKeepsRestores(s: State, op: nat, step: RestoreStep)
    requires Allocated(s) && Separate(s) && RowsNamed(s) && OpsNamed(s) && Custody(s) && Restores(s)
    requires Alone(s) && NamesApart()
    requires RestoreEnabled(s, op, step)
    ensures Restores(RestoreApply(s, op, step))
  {
    hide Decimal, Base, StoredName;
    var s' := RestoreApply(s, op, step);
    forall k | k in s'.restores
      ensures Restoring(s', s'.restores[k])
    {
      if k != op {
        OtherRestore(s, op, step, k);
      } else {
        OwnRestore(s, op, step);
      }
    }
  }

  lemma DeleteKeepsFiles(s: State, op: nat, step: DeleteStep)
    requires Allocated(s) && Separate(s) && OpsNamed(s) && Custody(s) && Alone(s) && NamesApart()
    requires DeleteEnabled(s, op, step) && CarefulDelete(s, op, step)
    ensures Allocated(DeleteApply(s, op, step)) && Separate(DeleteApply(s, op, step))
    ensures Custody(DeleteApply(s, op, step)) && Alone(DeleteApply(s, op, step))
  {
    hide Decimal, Base, StoredName;
  }

  lemma DeleteKeepsRows(s: State, op: nat, step: DeleteStep)
    requires RowsNamed(s) && Owned(s) && OneAtATime(s) && OpsNamed(s)
    requires DeleteEnabled(s, op, step) && CarefulDelete(s, op, step)
    ensures RowsNamed(DeleteApply(s, op, step)) && Owned(DeleteApply(s, op, step))
    ensures OneAtATime(DeleteApply(s, op, step))
  {
    hide Decimal, Base, StoredName;
  }

  lemma DeleteKeepsNames(s: State, op: nat, step: DeleteStep)
    requires RowsNamed(s) && OpsNamed(s)
    requires DeleteEnabled(s, op, step) && CarefulDelete(s, op, step)
    ensures OpsNamed(DeleteApply(s, op, step))
  {
    hide Decimal, Base, StoredName;
  }

  lemma DeleteKeepsOps(s: State, op: nat, step: DeleteStep)
    requires Owned(s) && OpsNamed(s) && Copies(s) && Restores(s) && NamesApart()
    requires DeleteEnabled(s, op, step) && CarefulDelete(s, op, step)
    ensures Copies(DeleteApply(s, op, step)) && Restores(DeleteApply(s, op, step))
  {
    hide Decimal, Base, StoredName;
  }

  lemma StepKeepsInv(s: State, step: Step)
    requires Inv(s) && Enabled(s, step) && Careful(s, step)
    ensures Inv(Apply(s, step))
  {
    hide Decimal, Base, StoredName, ContainApply, RestoreApply, DeleteApply, TenantApply;
    hide ContainEnabled, RestoreEnabled, DeleteEnabled, CarefulContain, CarefulDelete, Locked;
    hide Allocated, Separate, RowsNamed, Owned, OneAtATime, OpsNamed, Copies, Custody, Restores, Alone, NamesApart;
    NamesAreApart();
    match step
    case ByTenant(t) =>
      TenantKeepsFiles(s, t);
      TenantKeepsOps(s, t);
    case InContain(op, c) =>
      ContainKeepsFiles(s, op, c);
      ContainKeepsRows(s, op, c);
      ContainKeepsOwned(s, op, c);
      ContainKeepsNames(s, op, c);
      ContainKeepsCopies(s, op, c);
      ContainKeepsCustody(s, op, c);
      ContainKeepsRestores(s, op, c);
      ContainKeepsAlone(s, op, c);
    case InRestore(op, r) =>
      RestoreKeepsFiles(s, op, r);
      RestoreKeepsRows(s, op, r);
      RestoreKeepsNames(s, op, r);
      RestoreKeepsCopies(s, op, r);
      RestoreKeepsCustody(s, op, r);
      RestoreKeepsRestores(s, op, r);
      RestoreKeepsAlone(s, op, r);
    case InDelete(op, d) =>
      DeleteKeepsFiles(s, op, d);
      DeleteKeepsRows(s, op, d);
      DeleteKeepsNames(s, op, d);
      DeleteKeepsOps(s, op, d);
  }

  /** A careful run from any state that keeps the invariant. */
  ghost predicate CarefulFrom(run: seq<State>) {
    run != [] && Inv(run[0]) && forall i :: 0 <= i < |run| - 1 ==> CarefulAt(run, i)
  }

  lemma CarefulStepOf(run: seq<State>, i: nat) returns (step: Step)
    requires CarefulFrom(run) && i + 1 < |run|
    ensures Enabled(run[i], step) && Careful(run[i], step) && run[i + 1] == Apply(run[i], step)
  {
    hide Apply, Enabled, Careful, Inv;
    assert CarefulAt(run, i);
    step :| Enabled(run[i], step) && Careful(run[i], step) && run[i + 1] == Apply(run[i], step);
  }

  lemma {:induction false} InvAlong(run: seq<State>, i: nat)
    requires CarefulFrom(run) && i < |run|
    ensures Inv(run[i])
  {
    hide Inv, Apply, Enabled, Careful, CarefulAt;
    if i > 0 {
      InvAlong(run, i - 1);
      var step := CarefulStepOf(run, i - 1);
      StepKeepsInv(run[i - 1], step);
    }
  }

  lemma CarefulRunIsCarefulFrom(run: seq<State>)
    requires IsCarefulRun(run)
    ensures CarefulFrom(run)
  {
    hide CarefulAt;
  }

  lemma RunInv(run: seq<State>, i: nat)
    requires IsCarefulRun(run) && i < |run|
    ensures Inv(run[i])
  {
    hide CarefulAt, Inv;
    CarefulRunIsCarefulFrom(run);
    InvAlong(run, i);
  }

  // ------------------------------------------------------------ main results

  /** These bytes are a file of the home at this path. */
  predicate AtPath(s: State, rel: Rel, bytes: Bytes) {
    rel in s.home && s.home[rel] in s.data && s.data[s.home[rel]] == bytes
  }

  /** CUSTODY. In every state of every careful run of interleaved containments,
      restores, deletes, tenant writes and crashes: a file taken from the home and
      not given up is in the store, whole, under the name of its row. */
  lemma TakenFileIsInTheStore(run: seq<State>, i: nat, row: RowId)
    requires IsCarefulRun(run) && i < |run| && row in run[i].custody
    ensures Kept(run[i], row, run[i].custody[row])
  {
    RunInv(run, i);
  }

  /** And a file opened for containment is still at its path with the bytes it was
      opened with, while its copy in the store is a prefix of them. */
  lemma OpenedFileIsAtItsPath(run: seq<State>, i: nat, k: nat, rel: Rel)
    requires IsCarefulRun(run) && i < |run| && k in run[i].contains && BeingContained(run[i].contains[k], rel)
    ensures AtPath(run[i], rel, run[i].contains[k].phase.want)
  {
    RunInv(run, i);
    assert CopyAt(run[i], run[i].contains[k]);
  }

  /** The step that ends a containment leaves the bytes at the path or takes them
      into custody: a failure, a crash and a success alike. */
  lemma ContainmentEndsWithTheBytes(s: State, step: Step, k: nat, rel: Rel)
    requires Inv(s) && Enabled(s, step) && Careful(s, step)
    requires k in s.contains && BeingContained(s.contains[k], rel)
    ensures var s' := Apply(s, step);
            var c := s.contains[k];
            || AtPath(s', rel, c.phase.want)
            || (c.row in s'.custody && s'.custody[c.row] == Taken(rel, c.phase.want)
                && Kept(s', c.row, s'.custody[c.row]))
  {
    hide Decimal, Base, StoredName, ContainApply, RestoreApply, DeleteApply, TenantApply;
    hide Separate, RowsNamed, Owned, OneAtATime, OpsNamed, Restores, Alone, NamesApart, Locked;
    StepKeepsInv(s, step);
    assert CopyAt(s, s.contains[k]);
    match step
    case ByTenant(t) => TenantSpares(s, t, k);
    case InContain(op, c) => ContainSpares(s, op, c, k);
    case InRestore(op, r) =>
      NamesAreApart();
      RestoreKeepsCopies(s, op, r);
      OtherOpsSpare(s, op, step, k);
    case InDelete(op, d) => OtherOpsSpare(s, op, step, k);
  }

  lemma TenantSpares(s: State, step: TenantStep, k: nat)
    requires !Locked(s, step.rel) && k in s.contains && BeingContained(s.contains[k], s.contains[k].rel)
    requires Allocated(s) && CopyAt(s, s.contains[k])
    ensures AtPath(TenantApply(s, step), s.contains[k].rel, s.contains[k].phase.want)
  {
    hide StoredName;
  }

  lemma ContainSpares(s: State, op: nat, step: ContainStep, k: nat)
    requires Allocated(s) && Separate(s) && OneAtATime(s) && ContainEnabled(s, op, step)
    requires k in s.contains && BeingContained(s.contains[k], s.contains[k].rel) && CopyAt(s, s.contains[k])
    ensures var s' := ContainApply(s, op, step);
            var c := s.contains[k];
            || AtPath(s', c.rel, c.phase.want)
            || (c.row in s'.custody && s'.custody[c.row] == Taken(c.rel, c.phase.want))
  {
    hide Decimal, Base, StoredName;
    assert step.Insert? || op == k;
  }

  /** Restores and deletes of other rows change no containment. */
  lemma OtherOpsSpare(s: State, op: nat, step: Step, k: nat)
    requires (step.InRestore? || step.InDelete?) && Enabled(s, step)
    requires k in s.contains && BeingContained(s.contains[k], s.contains[k].rel) && CopyAt(s, s.contains[k])
    requires Copies(Apply(s, step))
    ensures AtPath(Apply(s, step), s.contains[k].rel, s.contains[k].phase.want)
  {
    hide Decimal, Base, StoredName;
    var s' := Apply(s, step);
    assert s'.contains == s.contains;
    assert CopyAt(s', s'.contains[k]);
  }

  /** A row's file is given up by an operator's delete of that row, or by a restore
      that has put the bytes back at the path. */
  ghost predicate GivenUp(s: State, s': State, row: RowId, t: Taken) {
    || (exists op :: DeleteEnabled(s, op, Unlink) && s.deletes[op].row == row && s' == DeleteApply(s, op, Unlink))
    || (exists op :: RestoreEnabled(s, op, StreamEnds) && s.restores[op].row == row
                     && s' == RestoreApply(s, op, StreamEnds) && AtPath(s', t.rel, t.bytes))
  }

  ghost predicate GivenUpAt(run: seq<State>, k: nat, row: RowId, t: Taken)
    requires k + 1 < |run|
  {
    GivenUp(run[k], run[k + 1], row, t)
  }

  lemma CustodyEndsOnPurpose(s: State, step: Step, row: RowId)
    requires Inv(s) && Enabled(s, step) && Careful(s, step) && row in s.custody
    ensures var s' := Apply(s, step);
            (row in s'.custody && s'.custody[row] == s.custody[row]) || GivenUp(s, s', row, s.custody[row])
  {
    hide Decimal, Base, StoredName, RestoreApply, Allocated, Separate, RowsNamed, Alone, Copies, GivenUp;
    match step
    case ByTenant(_) =>
    case InContain(op, c) =>
      assert op in s.contains ==> Owns(s, s.contains[op]);
    case InRestore(op, r) => RestoreGivesBack(s, op, r, row);
    case InDelete(op, d) => DeleteGivesUp(s, op, d, row);
  }

  lemma RestoreGivesBack(s: State, op: nat, step: RestoreStep, row: RowId)
    requires OpsNamed(s) && Custody(s) && Restores(s) && RestoreEnabled(s, op, step) && row in s.custody
    ensures var s' := RestoreApply(s, op, step);
            (row in s'.custody && s'.custody[row] == s.custody[row]) || GivenUp(s, s', row, s.custody[row])
  {
    hide Decimal, Base, StoredName;
    if step.StreamEnds? && s.restores[op].row == row {
      assert Restoring(s, s.restores[op]) && Kept(s, row, s.custody[row]) && RestoreNamed(s, s.restores[op]);
      assert AtPath(RestoreApply(s, op, StreamEnds), s.custody[row].rel, s.custody[row].bytes);
    }
  }

  lemma DeleteGivesUp(s: State, op: nat, step: DeleteStep, row: RowId)
    requires DeleteEnabled(s, op, step) && row in s.custody
    ensures var s' := DeleteApply(s, op, step);
            (row in s'.custody && s'.custody[row] == s.custody[row]) || GivenUp(s, s', row, s.custody[row])
  {
    if step.Unlink? && s.deletes[op].row == row {
      assert DeleteApply(s, op, step) == DeleteApply(s, op, Unlink);
    }
  }

  ghost predicate StillKept(s: State, row: RowId, t: Taken) {
    row in s.custody && s.custody[row] == t && Kept(s, row, t)
  }

  lemma KeptInInv(s: State, row: RowId)
    requires Inv(s) && row in s.custody
    ensures StillKept(s, row, s.custody[row])
  {}

  lemma KeptOrGivenUp(run: seq<State>, i: nat, row: RowId, t: Taken)
    requires CarefulFrom(run) && i + 1 < |run| && StillKept(run[i], row, t)
    ensures StillKept(run[i + 1], row, t) || GivenUpAt(run, i, row, t)
  {
    hide Inv, Apply, Enabled, Careful, GivenUp, Kept, CarefulFrom;
    InvAlong(run, i);
    InvAlong(run, i + 1);
    var step := CarefulStepOf(run, i);
    CustodyEndsOnPurpose(run[i], step, row);
    if row in run[i + 1].custody {
      KeptInInv(run[i + 1], row);
    }
  }

  lemma {:induction false} NothingIsLostFrom(run: seq<State>, i: nat, j: nat, row: RowId)
    requires CarefulFrom(run) && i <= j < |run| && row in run[i].custody
    ensures var t := run[i].custody[row];
            StillKept(run[j], row, t) || exists k :: i <= k < j && GivenUpAt(run, k, row, t)
  {
    hide Inv, Kept, GivenUpAt, CarefulFrom;
    var t := run[i].custody[row];
    if i == j {
      InvAlong(run, i);
      KeptInInv(run[i], row);
    } else {
      NothingIsLostFrom(run, i, j - 1, row);
      if StillKept(run[j - 1], row, t) {
        KeptOrGivenUp(run, j - 1, row, t);
      }
    }
  }

  /** NOTHING IS LOST. From the moment a file is taken, at every later point of a
      careful run it is whole in the store, unless before that point it was
      explicitly deleted or restored whole. */
  lemma NothingIsLost(run: seq<State>, i: nat, j: nat, row: RowId)
    requires IsCarefulRun(run) && i <= j < |run| && row in run[i].custody
    ensures var t := run[i].custody[row];
            StillKept(run[j], row, t) || exists k :: i <= k < j && GivenUpAt(run, k, row, t)
  {
    hide CarefulAt, Inv, GivenUpAt, Kept, IsCarefulRun;
    CarefulRunIsCarefulFrom(run);
    NothingIsLostFrom(run, i, j, row);
  }
}
