/** Whole runs of the quarantine machine: how an undisturbed containment and restore go,
    and how an open of a half-restored path loses the file. */
module QuarantineRuns {
  import opened Decimals
  import opened Quarantine

  // -------------------------------------------------------- the way it goes

  /** A careful run from one state to another, on which nobody deletes and nothing
      that was in custody at its start leaves it. */
  ghost predicate Path(run: seq<State>, a: State, b: State) {
    && run != [] && run[0] == a && run[|run| - 1] == b
    && (forall i :: 0 <= i < |run| - 1 ==> CarefulAt(run, i))
    && (forall i :: 0 <= i < |run| ==> Unharmed(a, run[i]))
  }

  predicate Unharmed(a: State, s: State) {
    s.deletes == a.deletes && a.custody.Keys <= s.custody.Keys
  }

  lemma StayingIsAPath(s: State)
    ensures Path([s], s, s)
  {}

  lemma Longer(run: seq<State>, a: State, s: State, s': State) returns (longer: seq<State>)
    requires Path(run, a, s) && CarefulNext(s, s') && Unharmed(a, s')
    ensures Path(longer, a, s')
  {
    hide CarefulNext, Unharmed;
    longer := run + [s'];
    forall i | 0 <= i < |longer| - 1
      ensures CarefulAt(longer, i)
    {
      if i < |run| - 1 {
        assert CarefulAt(run, i);
      }
    }
  }

  lemma Onward(run: seq<State>, a: State, s: State, step: Step) returns (longer: seq<State>, s': State)
    requires Path(run, a, s) && Enabled(s, step) && Careful(s, step) && Unharmed(a, Apply(s, step))
    ensures s' == Apply(s, step) && Path(longer, a, s')
  {
    hide Apply, Enabled, Careful, Unharmed, Path;
    s' := Apply(s, step);
    longer := Longer(run, a, s, s');
  }

  /** A step of a containment harms nothing. */
  lemma Contains(run: seq<State>, a: State, s: State, op: nat, step: ContainStep)
    returns (longer: seq<State>, s': State)
    requires Path(run, a, s) && ContainEnabled(s, op, step) && CarefulContain(s, op, step)
    ensures s' == ContainApply(s, op, step) && Path(longer, a, s')
  {
    PathEnds(run, a, s);
    ContainHarmsNothing(s, op, step);
    assert Unharmed(a, ContainApply(s, op, step));
    hide ContainApply, ContainEnabled, CarefulContain, Path;
    longer, s' := Onward(run, a, s, InContain(op, step));
  }

  lemma ContainHarmsNothing(s: State, op: nat, step: ContainStep)
    requires ContainEnabled(s, op, step)
    ensures Unharmed(s, ContainApply(s, op, step))
  {
    hide StoredName, NextPhase, Creates;
  }

  lemma PathEnds(run: seq<State>, a: State, s: State)
    requires Path(run, a, s)
    ensures Unharmed(a, s)
  {}

  /** A containment that nobody disturbs has opened its file, has copied it, and is over. */
  function OpenedFor(s: State, op: nat, rel: Rel): State
    requires rel in s.home && s.home[rel] in s.data
  {
    s.(rows := s.rows[s.nextRow := Row(rel, "", false)], nextRow := s.nextRow + 1,
       contains := map[op := Containment(s.nextRow, rel, Opened(s.home[rel], s.data[s.home[rel]]))])
  }

  function CopyingFor(s: State, op: nat, c: Containment, done: nat): State
    requires c.phase.Opened? && done <= |c.phase.want|
  {
    s.(data := s.data[s.nextInode := c.phase.want[..done]], nextInode := s.nextInode + 1, storeDir := true,
       store := s.store[StoredName(c.row, c.rel) := s.nextInode],
       contains := map[op := c.(phase := Copying(c.phase.src, c.phase.want, s.nextInode, done))])
  }

  function CopiedFor(s: State, op: nat, c: Containment): State
    requires c.phase.Opened?
  {
    s.(data := s.data[s.nextInode := c.phase.want], nextInode := s.nextInode + 1, storeDir := true,
       store := s.store[StoredName(c.row, c.rel) := s.nextInode],
       contains := map[op := c.(phase := Copied(c.phase.src, c.phase.want, s.nextInode))])
  }

  function ContainedFor(s: State, c: Containment): State
    requires c.phase.Copied? && c.row in s.rows
  {
    s.(home := s.home - {c.rel}, custody := s.custody[c.row := Taken(c.rel, c.phase.want)],
       rows := s.rows[c.row := s.rows[c.row].(stored := StoredName(c.row, c.rel))], contains := map[])
  }

  lemma OpenIs(s: State, k: nat)
    requires ContainEnabled(s, k, Open) && s.home[s.contains[k].rel] in s.data
    ensures var src := s.home[s.contains[k].rel];
            ContainApply(s, k, Open)
            == s.(contains := s.contains[k := s.contains[k].(phase := Opened(src, s.data[src]))])
  {
    hide StoredName;
  }

  lemma InsertSucceeds(s: State, op: nat, rel: Rel) returns (run: seq<State>, t: State)
    requires s.contains == map[] && (forall r :: r in s.rows ==> s.rows[r].stored != "")
    ensures Path(run, s, t) && t == s.(rows := s.rows[s.nextRow := Row(rel, "", false)], nextRow := s.nextRow + 1,
                                       contains := map[op := Containment(s.nextRow, rel, Inserted)])
  {
    hide StoredName;
    StayingIsAPath(s);
    hide Path;
    run, t := Contains([s], s, s, op, Insert(rel));
  }

  lemma OpeningSucceeds(s: State, op: nat, rel: Rel) returns (run: seq<State>)
    requires s.contains == map[] && (forall r :: r in s.rows ==> s.rows[r].stored != "")
    requires rel in s.home && s.home[rel] in s.data
    requires forall k :: k in s.restores ==> !BeingRestored(s.restores[k], rel)
    ensures Path(run, s, OpenedFor(s, op, rel))
  {
    hide Path, StoredName;
    var t;
    run, t := InsertSucceeds(s, op, rel);
    assert t.contains[op] == Containment(s.nextRow, rel, Inserted);
    OpenIs(t, op);
    hide ContainApply;
    run, t := Contains(run, s, t, op, Open);
    assert t == OpenedFor(s, op, rel);
  }

  lemma CreatingSucceeds(before: seq<State>, a: State, s: State, op: nat, c: Containment) returns (run: seq<State>)
    requires Path(before, a, s) && c.phase.Opened? && s.contains == map[op := c]
    requires StoredName(c.row, c.rel) !in s.store
    ensures Path(run, a, CopyingFor(s, op, c, 0))
  {
    hide Decimal, Base, StoredName, RestoreApply, DeleteApply, TenantApply, Path;
    var t;
    run, t := Contains(before, a, s, op, CreateTarget);
    assert t == CopyingFor(s, op, c, 0);
  }

  lemma ChunkIs(s: State, op: nat, c: Containment)
    requires c.phase.Opened? && c.phase.src in s.data && c.phase.src != s.nextInode
    requires s.data[c.phase.src] == c.phase.want
    ensures var t := CopyingFor(s, op, c, 0);
            && ContainEnabled(t, op, CopyChunk(|c.phase.want|))
            && ContainApply(t, op, CopyChunk(|c.phase.want|)) == CopyingFor(s, op, c, |c.phase.want|)
  {
    hide StoredName;
    assert CopyingFor(s, op, c, 0).data[c.phase.src] == c.phase.want;
  }

  lemma ChunkSucceeds(before: seq<State>, a: State, s: State, op: nat, c: Containment) returns (run: seq<State>)
    requires c.phase.Opened? && c.phase.src in s.data && c.phase.src != s.nextInode
    requires s.data[c.phase.src] == c.phase.want
    requires Path(before, a, CopyingFor(s, op, c, 0))
    ensures Path(run, a, CopyingFor(s, op, c, |c.phase.want|))
  {
    ChunkIs(s, op, c);
    hide CopyingFor, ContainEnabled, ContainApply, Path;
    var t;
    run, t := Contains(before, a, CopyingFor(s, op, c, 0), op, CopyChunk(|c.phase.want|));
  }

  lemma CopyEndIs(s: State, op: nat, c: Containment)
    requires c.phase.Opened? && c.phase.src in s.data && c.phase.src != s.nextInode
    requires s.data[c.phase.src] == c.phase.want
    ensures var t := CopyingFor(s, op, c, |c.phase.want|);
            && ContainEnabled(t, op, CopyEnds) && ContainApply(t, op, CopyEnds) == CopiedFor(s, op, c)
  {
    hide StoredName;
    assert c.phase.want[..|c.phase.want|] == c.phase.want;
    assert CopyingFor(s, op, c, |c.phase.want|).data[c.phase.src] == c.phase.want;
  }

  lemma CopyEndSucceeds(before: seq<State>, a: State, s: State, op: nat, c: Containment) returns (run: seq<State>)
    requires c.phase.Opened? && c.phase.src in s.data && c.phase.src != s.nextInode
    requires s.data[c.phase.src] == c.phase.want
    requires Path(before, a, CopyingFor(s, op, c, |c.phase.want|))
    ensures Path(run, a, CopiedFor(s, op, c))
  {
    CopyEndIs(s, op, c);
    hide CopyingFor, CopiedFor, ContainEnabled, ContainApply, Path;
    var t;
    run, t := Contains(before, a, CopyingFor(s, op, c, |c.phase.want|), op, CopyEnds);
  }

  lemma CopySucceeds(before: seq<State>, a: State, s: State, op: nat, c: Containment) returns (run: seq<State>)
    requires Path(before, a, s) && c.phase.Opened? && s.contains == map[op := c]
    requires StoredName(c.row, c.rel) !in s.store
    requires c.phase.src in s.data && c.phase.src != s.nextInode && s.data[c.phase.src] == c.phase.want
    ensures Path(run, a, CopiedFor(s, op, c))
  {
    hide StoredName, Path, CopyingFor, CopiedFor;
    run := CreatingSucceeds(before, a, s, op, c);
    run := ChunkSucceeds(run, a, s, op, c);
    run := CopyEndSucceeds(run, a, s, op, c);
  }

  lemma RemovalSucceeds(before: seq<State>, a: State, s: State, op: nat, c: Containment) returns (run: seq<State>)
    requires Path(before, a, s) && c.phase.Copied? && s.contains == map[op := c] && c.row in s.rows
    ensures Path(run, a, ContainedFor(s, c))
  {
    hide Decimal, Base, StoredName, RestoreApply, DeleteApply, TenantApply, Path;
    var t := s;
    run, t := Contains(before, a, t, op, RemoveOriginal);
    assert t.contains[op].phase == Removed && t.rows == s.rows;
    run, t := Contains(run, a, t, op, UpdateRow);
    assert t == ContainedFor(s, c);
  }

  /** The whole of it. */
  function Contained(s: State, op: nat, rel: Rel): State
    requires rel in s.home && s.home[rel] in s.data
  {
    var begun := OpenedFor(s, op, rel);
    var copied := CopiedFor(begun, op, begun.contains[op]);
    ContainedFor(copied, copied.contains[op])
  }

  lemma ContainmentSucceeds(s: State, op: nat, rel: Rel) returns (run: seq<State>)
    requires Inv(s) && s.contains == map[] && (forall r :: r in s.rows ==> s.rows[r].stored != "")
    requires rel in s.home && forall k :: k in s.restores ==> !BeingRestored(s.restores[k], rel)
    ensures s.home[rel] in s.data && Path(run, s, Contained(s, op, rel))
  {
    hide Decimal, Base, StoredName, Path;
    run := OpeningSucceeds(s, op, rel);
    var begun := OpenedFor(s, op, rel);
    var c := begun.contains[op];
    NextNameIsFree(s, rel);
    hide OneAtATime, OpsNamed, Restores, Alone, Copies, Custody, Owned;
    run := CopySucceeds(run, s, begun, op, c);
    var copied := CopiedFor(begun, op, c);
    run := RemovalSucceeds(run, s, copied, op, copied.contains[op]);
  }

  function StreamingFor(s: State, op: nat, r: Restore, b: Bytes): State {
    NewFile(s, r.rel, b).(restores := s.restores[op := r.(at := Streaming(s.nextInode, |b|))])
  }

  function RestoredFor(s: State, op: nat, r: Restore, b: Bytes): State
    requires r.row in s.rows
  {
    NewFile(s, r.rel, b).(custody := s.custody - {r.row}, rows := s.rows[r.row := s.rows[r.row].(restored := true)],
                          store := s.store - {r.stored}, restores := s.restores - {op})
  }

  lemma TargetAppears(before: seq<State>, a: State, s: State, op: nat, row: RowId)
    returns (run: seq<State>, r: Restore)
    requires Path(before, a, s) && op !in s.restores && row in s.rows && !s.rows[row].restored
    requires s.rows[row].stored in s.store && s.rows[row].rel !in s.home
    ensures r == Restore(row, s.rows[row].rel, s.rows[row].stored, s.store[s.rows[row].stored], Reopened)
    ensures Path(run, a, StreamingFor(s, op, r, []))
  {
    PathEnds(before, a, s);
    hide Decimal, Base, StoredName, ContainApply, DeleteApply, TenantApply, Path;
    r := Restore(row, s.rows[row].rel, s.rows[row].stored, s.store[s.rows[row].stored], Reopened);
    var t;
    run, t := Onward(before, a, s, InRestore(op, OpenStored(row)));
    assert t.restores[op] == r;
    run, t := Onward(run, a, t, InRestore(op, CreateFile));
    assert t == StreamingFor(s, op, r, []);
  }

  /** A restore writes what is missing, */
  lemma WritesTheRest(t: State, j: nat, b: Bytes) returns (s: State)
    requires j in t.restores && t.restores[j].at.Streaming?
    requires var r := t.restores[j];
             r.src in t.data && t.data[r.src] == b && r.at.done <= |b| && r.src != r.at.dst
    ensures CarefulNext(t, s)
    ensures var r := t.restores[j];
            s == t.(data := t.data[r.at.dst := b], restores := t.restores[j := r.(at := Streaming(r.at.dst, |b|))])
  {
    hide StoredName, ContainApply, ContainEnabled, DeleteApply, DeleteEnabled, TenantApply, Locked;
    var step := StreamChunk(|b| - t.restores[j].at.done);
    s := RestoreApply(t, j, step);
    assert b[..|b|] == b;
    assert s == Apply(t, InRestore(j, step));
  }

  /** comes to the end of its source, */
  lemma EndsStreaming(t: State, j: nat) returns (s: State)
    requires j in t.restores && t.restores[j].at.Streaming?
    requires var r := t.restores[j];
             r.src in t.data && |t.data[r.src]| == r.at.done
    ensures CarefulNext(t, s)
    ensures var r := t.restores[j];
            s == t.(restores := t.restores[j := r.(at := Streamed)], custody := t.custody - {r.row})
  {
    hide StoredName, ContainApply, ContainEnabled, DeleteApply, DeleteEnabled, TenantApply, Locked;
    s := RestoreApply(t, j, StreamEnds);
    assert s == Apply(t, InRestore(j, StreamEnds));
  }

  /** is recorded and cleans the store. */
  lemma RecordsAndCleans(t: State, j: nat) returns (recorded: State, s: State)
    requires j in t.restores && t.restores[j].at.Streamed?
    ensures CarefulNext(t, recorded) && recorded.(restores := t.restores, rows := t.rows) == t
    ensures CarefulNext(recorded, s)
    ensures var r := t.restores[j];
            s == t.(restores := t.restores - {j}, store := t.store - {r.stored},
                    rows := if r.row in t.rows then t.rows[r.row := t.rows[r.row].(restored := true)] else t.rows)
  {
    hide StoredName;
    recorded := RestoreApply(t, j, Record);
    assert recorded == Apply(t, InRestore(j, Record));
    assert recorded.restores[j] == t.restores[j].(at := Recorded);
    s := RestoreApply(recorded, j, CleanStore);
    assert s == Apply(recorded, InRestore(j, CleanStore));
  }

  lemma EndIs(s: State, op: nat, r: Restore, b: Bytes, written: State, streamed: State, end: State)
    requires r.row in s.rows && op !in s.restores
    requires var t := StreamingFor(s, op, r, []);
             written == t.(data := t.data[s.nextInode := b],
                           restores := t.restores[op := r.(at := Streaming(s.nextInode, |b|))])
    requires streamed == written.(restores := written.restores[op := r.(at := Streamed)],
                                  custody := written.custody - {r.row})
    requires end == streamed.(restores := streamed.restores - {op}, store := streamed.store - {r.stored},
                              rows := streamed.rows[r.row := streamed.rows[r.row].(restored := true)])
    ensures end == RestoredFor(s, op, r, b)
  {
    assert s.data[s.nextInode := []][s.nextInode := b] == s.data[s.nextInode := b];
    assert end.restores == s.restores - {op};
  }

  lemma RestoreEnds(before: seq<State>, a: State, s: State, op: nat, r: Restore, b: Bytes) returns (run: seq<State>)
    requires Path(before, a, StreamingFor(s, op, r, [])) && r.row !in a.custody
    requires r.row in s.rows && op !in s.restores
    requires r.src in s.data && s.data[r.src] == b && s.nextInode !in s.data
    ensures Path(run, a, RestoredFor(s, op, r, b))
  {
    var t := StreamingFor(s, op, r, []);
    PathEnds(before, a, t);
    assert t.restores[op] == r.(at := Streaming(s.nextInode, 0)) && t.data[r.src] == b;
    hide Path, CarefulNext, StoredName;
    var written := WritesTheRest(t, op, b);
    assert written.restores[op] == r.(at := Streaming(s.nextInode, |b|)) && written.data[r.src] == b;
    var streamed := EndsStreaming(written, op);
    assert streamed.restores[op] == r.(at := Streamed);
    var recorded, end := RecordsAndCleans(streamed, op);
    EndIs(s, op, r, b, written, streamed, end);
    hide StreamingFor, RestoredFor;
    assert Unharmed(a, written) && Unharmed(a, streamed) && Unharmed(a, recorded) && Unharmed(a, end);
    hide Unharmed;
    run := Longer(before, a, t, written);
    run := Longer(run, a, written, streamed);
    run := Longer(run, a, streamed, recorded);
    run := Longer(run, a, recorded, end);
  }

  lemma WhatIsContained(s: State, op: nat, rel: Rel)
    requires Inv(s) && rel in s.home && s.home[rel] in s.data
    ensures var t, row := Contained(s, op, rel), s.nextRow;
            && row in t.rows && t.rows[row] == Row(rel, StoredName(row, rel), false) && rel !in t.home
            && StoredName(row, rel) in t.store && t.store[StoredName(row, rel)] == s.nextInode
            && t.nextInode !in t.data && s.nextInode in t.data && t.data[s.nextInode] == s.data[s.home[rel]]
            && t.restores == s.restores
  {
    hide Decimal, Base, StoredName, RowsNamed, Owned, OneAtATime, OpsNamed, Copies, Custody, Restores, Alone, Separate;
  }

  lemma WhatIsRestored(s: State, op: nat, rel: Rel, k: nat)
    requires rel in s.home && s.home[rel] in s.data && StoredName(s.nextRow, rel) !in s.store
    requires k !in s.restores && s.nextRow !in s.rows && s.nextRow !in s.custody
    ensures var t, row, b := Contained(s, op, rel), s.nextRow, s.data[s.home[rel]];
            var s' := RestoredFor(t, k, Restore(row, rel, StoredName(row, rel), s.nextInode, Reopened), b);
            && AtPath(s', rel, b) && s'.home - {rel} == s.home - {rel} && s'.store == s.store && s'.custody == s.custody
            && row in s'.rows && s'.rows - {row} == s.rows && s'.rows[row] == Row(rel, StoredName(row, rel), true)
  {
    hide StoredName;
  }

  /** THERE AND BACK. From any state of a careful run, a file contained and then
      restored, undisturbed, is at its path with the same bytes; no other path, no
      other stored file and no other row has changed, and nothing else
      has entered or left custody. */
  lemma ContainThenRestore(s: State, op: nat, rel: Rel) returns (run: seq<State>, s': State)
    requires Inv(s) && s.contains == map[] && (forall r :: r in s.rows ==> s.rows[r].stored != "")
    requires rel in s.home && (forall k :: k in s.restores ==> !BeingRestored(s.restores[k], rel)) && op !in s.restores
    ensures Path(run, s, s') && s.home[rel] in s.data && AtPath(s', rel, s.data[s.home[rel]])
    ensures s'.home - {rel} == s.home - {rel} && s'.store == s.store && s'.custody == s.custody
    ensures s.nextRow in s'.rows && s'.rows - {s.nextRow} == s.rows
    ensures s'.rows[s.nextRow] == Row(rel, StoredName(s.nextRow, rel), true)
  {
    hide Decimal, Base, StoredName, Path;
    run := ContainmentSucceeds(s, op, rel);
    NextNameIsFree(s, rel);
    WhatIsContained(s, op, rel);
    assert s.nextRow !in s.rows && s.nextRow !in s.custody;
    WhatIsRestored(s, op, rel, op);
    var t, b := Contained(s, op, rel), s.data[s.home[rel]];
    hide Inv, Contained, RestoredFor, StreamingFor;
    var r;
    run, r := TargetAppears(run, s, t, op, s.nextRow);
    run := RestoreEnds(run, s, t, op, r, b);
    s' := RestoredFor(t, op, r, b);
  }

  // ------------------------------------------------------- the careless step

  /** A run that loses this row's file: it ends without it, and at no step was the
      file deleted or put back whole. */
  ghost predicate Loses(run: seq<State>, begun: State, row: RowId, t: Taken) {
    && run != [] && run[0] == begun && (forall i :: 0 <= i < |run| - 1 ==> CarefulAt(run, i))
    && !StillKept(run[|run| - 1], row, t)
    && (forall i :: 0 <= i < |run| - 1 ==> !GivenUpAt(run, i, row, t))
  }

  /** A half-made target is about to be opened: the restore `j` of a row in custody is
      writing it, and the containment `k` has not opened it yet. */
  predicate Clash(s: State, k: nat, j: nat) {
    && k in s.contains && s.contains[k].phase.Inserted? && s.contains[k].rel in s.home
    && j in s.restores && BeingRestored(s.restores[j], s.contains[k].rel) && s.restores[j].row in s.custody
  }

  /** What the invariant says of the two files involved. */
  lemma ClashIs(s: State, k: nat, j: nat)
    requires Inv(s) && Clash(s, k, j)
    ensures var c, r := s.contains[k], s.restores[j];
            var t := s.custody[r.row];
            && s.contains == map[k := c] && c.row in s.rows && StoredName(c.row, c.rel) !in s.store && c.row != r.row
            && t.rel == c.rel && r.stored == StoredName(r.row, t.rel)
            && r.stored in s.store && s.store[r.stored] == r.src
            && s.home[c.rel] == r.at.dst && r.src in s.data && s.data[r.src] == t.bytes
            && r.at.done <= |t.bytes| && r.at.dst in s.data && s.data[r.at.dst] == t.bytes[..r.at.done]
            && r.src != r.at.dst && s.nextInode !in s.data
  {
    hide Decimal, Base, StoredName, UsedName, RowsNamed, Copies, Alone;
    var c, r := s.contains[k], s.restores[j];
    assert Restoring(s, r) && RestoreNamed(s, r) && Owns(s, c);
    assert Kept(s, r.row, s.custody[r.row]);
    forall l
      ensures l in s.contains <==> l in map[k := c]
    {}
  }

  /** The state in which the file has been opened. */
  function Begun(s: State, k: nat): State
    requires ContainEnabled(s, k, Open) && s.home[s.contains[k].rel] in s.data
  {
    var src := s.home[s.contains[k].rel];
    s.(contains := map[k := s.contains[k].(phase := Opened(src, s.data[src]))])
  }

  lemma BegunIs(s: State, k: nat)
    requires ContainEnabled(s, k, Open) && s.home[s.contains[k].rel] in s.data
    requires s.contains == map[k := s.contains[k]]
    ensures ContainApply(s, k, Open) == Begun(s, k)
  {
    OpenIs(s, k);
    hide StoredName, ContainApply;
    var c := Begun(s, k).contains[k];
    assert s.contains[k := c] == map[k := c];
  }

  /** What a containment has done when it is over. */
  lemma WhatIsTaken(s: State, op: nat, c: Containment)
    requires c.phase.Opened? && c.row in s.rows
    ensures var copied := CopiedFor(s, op, c);
            var t := ContainedFor(copied, copied.contains[op]);
            && t.home == s.home - {c.rel} && t.restores == s.restores && t.rows.Keys == s.rows.Keys
            && t.custody == s.custody[c.row := Taken(c.rel, c.phase.want)]
            && t.data == s.data[s.nextInode := c.phase.want]
            && t.store == s.store[StoredName(c.row, c.rel) := s.nextInode]
            && copied.contains[op].phase.Copied? && copied.contains == map[op := copied.contains[op]]
            && copied.contains[op].row == c.row && copied.rows == s.rows
  {
    hide StoredName;
    var copied := CopiedFor(s, op, c);
    var t := ContainedFor(copied, copied.contains[op]);
    forall r
      ensures r in t.rows <==> r in s.rows
    {}
  }

  /** The containment goes on to its end and takes the half-made target. */
  lemma TargetIsTaken(s: State, k: nat, j: nat) returns (run: seq<State>, t: State)
    requires Inv(s) && Clash(s, k, j)
    ensures s.home[s.contains[k].rel] in s.data && Path(run, Begun(s, k), t)
    ensures var c, b := s.contains[k], s.data[s.home[s.contains[k].rel]];
            && t.home == s.home - {c.rel} && t.restores == s.restores && t.rows.Keys == s.rows.Keys
            && t.custody == s.custody[c.row := Taken(c.rel, b)]
            && t.data == s.data[s.nextInode := b] && t.store == s.store[StoredName(c.row, c.rel) := s.nextInode]
  {
    ClashIs(s, k, j);
    hide Inv, StoredName, Clash;
    var begun := Begun(s, k);
    var c := begun.contains[k];
    StayingIsAPath(begun);
    WhatIsTaken(begun, k, c);
    var copied := CopiedFor(begun, k, c);
    t := ContainedFor(copied, copied.contains[k]);
    hide Path, CopiedFor, ContainedFor;
    run := CopySucceeds([begun], begun, begun, k, c);
    run := RemovalSucceeds(run, begun, copied, k, copied.contains[k]);
  }

  /** The restore goes on to its end: it writes onto a file without a name, is recorded
      and cleans the store. */
  lemma RestoreEndsInVain(t: State, j: nat, b: Bytes) returns (run: seq<State>)
    requires j in t.restores && t.restores[j].at.Streaming?
    requires var r := t.restores[j];
             r.src in t.data && t.data[r.src] == b && r.at.done <= |b| && r.src != r.at.dst
    ensures |run| == 5 && run[0] == t && forall i :: 0 <= i < 4 ==> CarefulAt(run, i)
    ensures forall i :: 0 <= i < 5 ==> run[i].home == t.home && run[i].deletes == t.deletes
    ensures run[4].custody == t.custody - {t.restores[j].row} && run[4].store == t.store - {t.restores[j].stored}
  {
    var written := WritesTheRest(t, j, b);
    var streamed := EndsStreaming(written, j);
    var recorded, s := RecordsAndCleans(streamed, j);
    hide CarefulNext;
    run := [t, written, streamed, recorded, s];
    forall i | 0 <= i < 4
      ensures CarefulAt(run, i)
    {
      assert i == 0 || i == 1 || i == 2 || i == 3;
    }
  }

  /** Where nobody deletes, and a row is in custody or its path is empty, its file has
      not been given up. */
  lemma NotGivenUp(s: State, s': State, row: RowId, t: Taken)
    requires s'.deletes == s.deletes && (row in s'.custody || t.rel !in s'.home)
    ensures !GivenUp(s, s', row, t)
  {
    hide StoredName;
    forall op | DeleteEnabled(s, op, Unlink)
      ensures s' != DeleteApply(s, op, Unlink)
    {
      assert DeleteApply(s, op, Unlink).deletes != s.deletes by {
        UnlinkShows(s, op);
      }
    }
  }

  lemma UnlinkShows(s: State, op: nat)
    requires DeleteEnabled(s, op, Unlink)
    ensures DeleteApply(s, op, Unlink).deletes != s.deletes
  {
    var after := DeleteApply(s, op, Unlink).deletes;
    assert op !in after || after[op].unlinked;
  }

  /** CARELESS OPENS LOSE. In every state that keeps the invariant: when a containment
      opens the path that a restore of a row in custody is still writing, some careful
      continuation without a delete leaves that row's bytes neither at the path nor in
      the store under the row's name. */
  lemma CarelessOpenLosesTheFile(s: State, k: nat, j: nat) returns (run: seq<State>)
    requires Inv(s) && Clash(s, k, j) && ContainEnabled(s, k, Open)
    ensures var row := s.restores[j].row;
            var t := s.custody[row];
            && Loses(run, ContainApply(s, k, Open), row, t)
            && t.rel !in run[|run| - 1].home && StoredName(row, t.rel) !in run[|run| - 1].store
  {
    var c, r := s.contains[k], s.restores[j];
    var t := s.custody[r.row];
    ClashIs(s, k, j);
    BegunIs(s, k);
    NamesAreApart();
    var taking, taken := TargetIsTaken(s, k, j);
    hide Inv, Decimal, Base, StoredName, Clash, ContainApply, CarefulAt;
    var vain := RestoreEndsInVain(taken, j, t.bytes);
    run := Joined(taking, Begun(s, k), taken, vain);
    forall i | 0 <= i < |run|
      ensures run[i].deletes == s.deletes && (r.row in run[i].custody || t.rel !in run[i].home)
    {
      if i < |taking| {
        assert Unharmed(Begun(s, k), taking[i]) && run[i] == taking[i];
      } else {
        assert run[i] == vain[i - (|taking| - 1)];
      }
    }
    NothingGivenUp(run, s, r.row, t);
  }

  lemma NothingGivenUp(run: seq<State>, s: State, row: RowId, t: Taken)
    requires forall i :: 0 <= i < |run| ==>
               run[i].deletes == s.deletes && (row in run[i].custody || t.rel !in run[i].home)
    ensures forall i :: 0 <= i < |run| - 1 ==> !GivenUpAt(run, i, row, t)
  {
    hide GivenUp;
    forall i | 0 <= i < |run| - 1
      ensures !GivenUpAt(run, i, row, t)
    {
      NotGivenUp(run[i], run[i + 1], row, t);
    }
  }

  /** Two runs, the second from where the first ends. */
  lemma Joined(first: seq<State>, a: State, b: State, second: seq<State>) returns (run: seq<State>)
    requires Path(first, a, b)
    requires second != [] && second[0] == b && forall i :: 0 <= i < |second| - 1 ==> CarefulAt(second, i)
    ensures |run| == |first| + |second| - 1 && run[0] == a && run[|run| - 1] == second[|second| - 1]
    ensures forall i :: 0 <= i < |first| ==> run[i] == first[i]
    ensures forall i :: 0 <= i < |second| ==> run[|first| - 1 + i] == second[i]
    ensures forall i :: 0 <= i < |run| - 1 ==> CarefulAt(run, i)
  {
    hide CarefulNext, Unharmed;
    run := first + second[1..];
    forall i | 0 <= i < |run| - 1
      ensures CarefulAt(run, i)
    {
      if i < |first| - 1 {
        assert CarefulAt(first, i);
      } else {
        assert CarefulAt(second, i - (|first| - 1));
      }
    }
  }
}
