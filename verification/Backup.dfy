/** Backup and restore of an application's tree, with a rollback
    (internal/appbackup/appbackup.go).

    tar, systemctl, the health probe and every file-system call may fail; each
    failure and what it leaves behind is a parameter. A tree maps paths to contents;
    a missing directory is an empty tree. */
module Backup {
  import opened Wrappers

  const PRE_RESTORE := "pre-restore.tar.gz"
  const MAX_SIZE := 21474836480

  type Tree = map<string, string>

  /** The contents of a file in the backup directory: a whole archive, or the
      remains of a tar that failed. */
  datatype Blob = Tar(root: Tree, extra: Tree) | Remains(bytes: string)

  datatype Archive = Archive(path: string, digest: nat)

  /** `extra` is the unit file and the environment file. */
  datatype State = State(root: Tree, extra: Tree, running: bool, files: map<string, Blob>)

  datatype Clearing = Cleared | Stuck(left: Tree)

  datatype Unpacking = Unpacked | Broke(root: Tree, extra: Tree)

  /** How each call of a restore turns out. */
  datatype RestoreCalls = RestoreCalls(
    valid: bool, stopped: bool, runsOn: bool, rollback: Option<string>,
    clear: Clearing, unpack: Unpacking, started: bool, answered: bool,
    undoClear: Clearing, undoUnpack: Unpacking, undoStarted: bool, removed: bool)

  datatype Outcome = Invalid | Corrupt | NotStopped | NoRollback | SwapFailed | StartFailed | Restored

  // ------------------------------------------------------------- the steps

  predicate Verified(s: State, archive: Archive, digest: Blob -> nat) {
    archive.path in s.files && digest(s.files[archive.path]) == archive.digest
  }

  function Cleaned(s: State, c: Clearing): State {
    s.(root := if c.Cleared? then map[] else c.left)
  }

  predicate Unpacks(blob: Blob, u: Unpacking) {
    blob.Tar? && u.Unpacked?
  }

  /** tar writes its members over whatever is there. */
  function UnpackedOver(s: State, blob: Blob, u: Unpacking): State {
    if Unpacks(blob, u) then s.(root := s.root + blob.root, extra := s.extra + blob.extra)
    else if u.Broke? then s.(root := u.root, extra := u.extra)
    else s
  }

  /** The copy of the tree that is about to be replaced. */
  function WithRollback(s: State, failed: Option<string>): State {
    s.(files := s.files[PRE_RESTORE := if failed.Some? then Remains(failed.value) else Tar(s.root, map[])])
  }

  predicate Swaps(s: State, blob: Blob, w: RestoreCalls) {
    w.clear.Cleared? && Unpacks(blob, w.unpack)
  }

  function SwappedIn(s: State, blob: Blob, w: RestoreCalls): State {
    if w.clear.Stuck? then Cleaned(s, w.clear) else UnpackedOver(Cleaned(s, w.clear), blob, w.unpack)
  }

  /** A failed clear is ignored; the application is started only if the copy came back. */
  function Undone(s: State, rollback: Blob, w: RestoreCalls): State {
    var back := UnpackedOver(Cleaned(s, w.undoClear), rollback, w.undoUnpack);
    if Unpacks(rollback, w.undoUnpack) then back.(running := s.running || w.undoStarted) else back
  }

  predicate Answers(w: RestoreCalls, port: nat) {
    w.started && (port > 0 ==> w.answered)
  }

  function OutcomeOf(s: State, archive: Archive, digest: Blob -> nat, port: nat, w: RestoreCalls): Outcome {
    if !w.valid then Invalid
    else if !Verified(s, archive, digest) then Corrupt
    else if !w.stopped then NotStopped
    else if w.rollback.Some? then NoRollback
    else if !Swaps(s, Source(s, archive), w) then SwapFailed
    else if !Answers(w, port) then StartFailed
    else Restored
  }

  /** The archive as it is when tar reads it: a path equal to the rollback's would by
      then hold the rollback. */
  function Source(s: State, archive: Archive): Blob {
    if archive.path == PRE_RESTORE then Tar(s.root, map[])
    else if archive.path in s.files then s.files[archive.path] else Remains("")
  }

  function RestoreOf(s: State, archive: Archive, digest: Blob -> nat, port: nat, w: RestoreCalls): State {
    var copied := WithRollback(s.(running := false), w.rollback);
    var swapped := SwappedIn(copied, Source(s, archive), w);
    match OutcomeOf(s, archive, digest, port, w)
    case Invalid => s
    case Corrupt => s
    case NotStopped => s.(running := w.runsOn)
    case NoRollback => copied
    case SwapFailed => Undone(swapped, copied.files[PRE_RESTORE], w)
    case StartFailed => Undone(swapped.(running := w.started), copied.files[PRE_RESTORE], w)
    case Restored =>
      swapped.(running := true, files := if w.removed then swapped.files - {PRE_RESTORE} else swapped.files)
  }

  // ------------------------------------------------------------- in place

  class Application {
    var root: Tree
    var extra: Tree
    var running: bool
    var files: map<string, Blob>

    ghost function Value(): State
      reads this
    {
      State(root, extra, running, files)
    }

    method Unpack(path: string, u: Unpacking) returns (ok: bool)
      requires path in files
      modifies this`root, this`extra
      ensures ok == Unpacks(files[path], u)
      ensures Value() == UnpackedOver(old(Value()), files[path], u)
    {
      var blob := files[path];
      if u.Broke? {
        root, extra := u.root, u.extra;
        return false;
      }
      if blob.Remains? {
        return false;
      }
      root, extra := root + blob.root, extra + blob.extra;
      return true;
    }

    method RemoveAll(c: Clearing) returns (ok: bool)
      modifies this`root
      ensures ok == c.Cleared? && Value() == Cleaned(old(Value()), c)
    {
      root := if c.Cleared? then map[] else c.left;
      ok := c.Cleared?;
    }

    method TakeRollback(failed: Option<string>) returns (ok: bool)
      modifies this`files
      ensures ok == failed.None? && Value() == WithRollback(old(Value()), failed)
    {
      files := files[PRE_RESTORE := if failed.Some? then Remains(failed.value) else Tar(root, map[])];
      ok := failed.None?;
    }

    method SwapIn(path: string, w: RestoreCalls) returns (ok: bool)
      requires path in files
      modifies this`root, this`extra
      ensures ok == Swaps(old(Value()), files[path], w)
      ensures Value() == SwappedIn(old(Value()), files[path], w)
    {
      ok := RemoveAll(w.clear);
      if !ok {
        return;
      }
      ok := Unpack(path, w.unpack);
    }

    method Undo(w: RestoreCalls)
      requires PRE_RESTORE in files
      modifies this`root, this`extra, this`running
      ensures Value() == Undone(old(Value()), files[PRE_RESTORE], w)
    {
      var cleared := RemoveAll(w.undoClear);
      var back := Unpack(PRE_RESTORE, w.undoUnpack);
      if !back {
        return;
      }
      running := running || w.undoStarted;
    }

    method StartAndProbe(port: nat, w: RestoreCalls) returns (ok: bool)
      modifies this`running
      ensures ok == Answers(w, port) && running == w.started
    {
      running := w.started;
      if !w.started {
        return false;
      }
      if port == 0 {
        return true;
      }
      ok := w.answered;
    }

    method Restore(archive: Archive, digest: Blob -> nat, port: nat, w: RestoreCalls) returns (outcome: Outcome)
      modifies this
      ensures outcome == OutcomeOf(old(Value()), archive, digest, port, w)
      ensures Value() == RestoreOf(old(Value()), archive, digest, port, w)
    {
      if !w.valid {
        return Invalid;
      }
      if archive.path !in files || digest(files[archive.path]) != archive.digest {
        return Corrupt;
      }
      if !w.stopped {
        running := w.runsOn;
        return NotStopped;
      }
      running := false;
      var copied := TakeRollback(w.rollback);
      if !copied {
        return NoRollback;
      }
      var swapped := SwapIn(archive.path, w);
      if !swapped {
        Undo(w);
        return SwapFailed;
      }
      var answered := StartAndProbe(port, w);
      if !answered {
        Undo(w);
        return StartFailed;
      }
      if w.removed {
        files := files - {PRE_RESTORE};
      }
      return Restored;
    }
  }

  // ------------------------------------------------------------ main results

  /** The tree as it was before the call is at the root, or whole in the rollback copy. */
  predicate Survives(s: State, tree: Tree) {
    s.root == tree || (PRE_RESTORE in s.files && s.files[PRE_RESTORE] == Tar(tree, map[]))
  }

  /** THE DIGEST STANDS BEFORE EVERYTHING. A restore is without effect however its calls
      turn out if and only if its target is invalid or the digest does not match, and
      those are the two answers that say so. */
  lemma MismatchChangesNothing(s: State, archive: Archive, digest: Blob -> nat, port: nat, valid: bool)
    ensures (forall w: RestoreCalls :: w.valid == valid ==> RestoreOf(s, archive, digest, port, w) == s)
            <==> !valid || !Verified(s, archive, digest)
    ensures forall w: RestoreCalls :: w.valid == valid ==>
              (OutcomeOf(s, archive, digest, port, w) in {Invalid, Corrupt} <==>
               !valid || !Verified(s, archive, digest))
  {
    if valid && Verified(s, archive, digest) {
      var w := RestoreCalls(valid, false, !s.running, None, Cleared, Unpacked, false, false, Cleared, Unpacked, false,
                            false);
      assert RestoreOf(s, archive, digest, port, w).running != s.running;
    }
  }

  /** SUCCESS MEANS THE ARCHIVE. The root is exactly the archived tree, with nothing
      of the old one left, and the application runs, and answered if it has a port. */
  lemma SuccessIsTheArchive(s: State, archive: Archive, digest: Blob -> nat, port: nat, w: RestoreCalls)
    requires OutcomeOf(s, archive, digest, port, w) == Restored && archive.path != PRE_RESTORE
    ensures var s' := RestoreOf(s, archive, digest, port, w);
            && archive.path in s.files && s.files[archive.path].Tar?
            && digest(s.files[archive.path]) == archive.digest
            && s'.root == s.files[archive.path].root && s'.extra == s.extra + s.files[archive.path].extra
            && s'.running && (port > 0 ==> w.answered)
  {
    var blob := s.files[archive.path];
    assert map[] + blob.root == blob.root;
  }

  /** THE ROLLBACK COPY UNDER ITS OWN NAME is written over before it is read, so to restore it
      is to restore the tree of now. */
  lemma RollbackRestoresNothing(s: State, archive: Archive, digest: Blob -> nat, port: nat, w: RestoreCalls)
    requires OutcomeOf(s, archive, digest, port, w) == Restored && archive.path == PRE_RESTORE
    ensures RestoreOf(s, archive, digest, port, w).root == s.root
  {
    assert map[] + s.root == s.root;
  }

  /** FAILURE GIVES BACK THE TREE. When the clear and the unpack of the undo succeed,
      the root is exactly the tree from before the restore. */
  lemma FailureGivesBackTheTree(s: State, archive: Archive, digest: Blob -> nat, port: nat, w: RestoreCalls)
    requires OutcomeOf(s, archive, digest, port, w) != Restored
    requires w.undoClear.Cleared? && w.undoUnpack.Unpacked?
    ensures RestoreOf(s, archive, digest, port, w).root == s.root
  {
    assert map[] + s.root == s.root;
  }

  /** NO EXIT LOSES IT. Whatever fails, on every exit but success the tree from before
      is at the root or in the rollback copy. */
  lemma TreeSurvivesFailure(s: State, archive: Archive, digest: Blob -> nat, port: nat, w: RestoreCalls)
    requires OutcomeOf(s, archive, digest, port, w) != Restored
    ensures Survives(RestoreOf(s, archive, digest, port, w), s.root)
  {
    assert map[] + s.root == s.root;
  }

  /** The one failure after which nothing starts the application again although
      nothing was replaced: the rollback copy could not be written. */
  lemma NoRollbackLeavesItDown(s: State, archive: Archive, digest: Blob -> nat, port: nat, w: RestoreCalls)
    ensures OutcomeOf(s, archive, digest, port, w) == NoRollback ==>
              var s' := RestoreOf(s, archive, digest, port, w); !s'.running && s'.root == s.root && s'.extra == s.extra
    ensures OutcomeOf(s, archive, digest, port, w) in {SwapFailed, StartFailed} && w.undoUnpack.Unpacked? ==>
              (w.undoStarted ==> RestoreOf(s, archive, digest, port, w).running)
  {}

  /** WHEN IT STAYS DOWN, EXACTLY. A failed restore of a running application leaves it
      down if and only if it went down in a stop that failed, or the rollback copy could
      not be written, or the archive did not start it and the undo failed to unpack the
      copy or to start it. */
  lemma FailedRestoreLeavesItDownIff(s: State, archive: Archive, digest: Blob -> nat, port: nat, w: RestoreCalls)
    requires s.running && OutcomeOf(s, archive, digest, port, w) != Restored
    ensures var outcome := OutcomeOf(s, archive, digest, port, w);
            !RestoreOf(s, archive, digest, port, w).running <==>
            || (outcome == NotStopped && !w.runsOn)
            || outcome == NoRollback
            || ((outcome == SwapFailed || (outcome == StartFailed && !w.started))
                && (w.undoUnpack.Broke? || !w.undoStarted))
  {}

  /** The unit and environment files are outside the rollback copy: after a failed
      restore they are the archive's, exactly when the archive changed one of them. */
  lemma ExtraIsNotRolledBack(s: State, archive: Archive, digest: Blob -> nat, port: nat, w: RestoreCalls)
    requires OutcomeOf(s, archive, digest, port, w) == StartFailed
    requires archive.path != PRE_RESTORE && w.undoClear.Cleared? && w.undoUnpack.Unpacked?
    ensures var s' := RestoreOf(s, archive, digest, port, w);
            s'.extra == s.extra <==>
            forall p :: p in s.files[archive.path].extra ==>
              p in s.extra && s.extra[p] == s.files[archive.path].extra[p]
  {
    var s' := RestoreOf(s, archive, digest, port, w);
    var added := s.files[archive.path].extra;
    assert s'.extra == s.extra + added + map[];
    if forall p :: p in added ==> p in s.extra && s.extra[p] == added[p] {
      forall p ensures p in s'.extra <==> p in s.extra {}
      forall p | p in s.extra ensures s'.extra[p] == s.extra[p] {}
    }
    if s'.extra == s.extra {
      forall p | p in added ensures p in s.extra && s.extra[p] == added[p] {
        assert p in s'.extra && s'.extra[p] == added[p];
      }
    }
  }

  // ------------------------------------------------------- many restores

  datatype Call = Call(archive: Archive, w: RestoreCalls)

  function AfterCalls(s: State, calls: seq<Call>, digest: Blob -> nat, port: nat): State {
    if calls == [] then s
    else
      var last := calls[|calls| - 1];
      RestoreOf(AfterCalls(s, calls[..|calls| - 1], digest, port), last.archive, digest, port, last.w)
  }

  predicate UndoWorks(call: Call) {
    call.w.undoClear.Cleared? && call.w.undoUnpack.Unpacked? && call.archive.path != PRE_RESTORE
  }

  ghost predicate OthersSame(s: State, s': State) {
    forall p :: p != PRE_RESTORE ==> (p in s'.files <==> p in s.files) && (p in s.files ==> s'.files[p] == s.files[p])
  }

  /** This root is the whole tree of a verified archive. */
  predicate IsArchived(s: State, archive: Archive, digest: Blob -> nat, root: Tree) {
    Verified(s, archive, digest) && s.files[archive.path].Tar? && root == s.files[archive.path].root
  }

  lemma OneCall(s: State, call: Call, digest: Blob -> nat, port: nat)
    requires UndoWorks(call)
    ensures var s' := RestoreOf(s, call.archive, digest, port, call.w);
            OthersSame(s, s') && (s'.root == s.root || IsArchived(s, call.archive, digest, s'.root))
  {
    if OutcomeOf(s, call.archive, digest, port, call.w) == Restored {
      SuccessIsTheArchive(s, call.archive, digest, port, call.w);
    } else {
      FailureGivesBackTheTree(s, call.archive, digest, port, call.w);
    }
  }

  /** NEVER HALF A TREE. After any number of restores, successful or failed in any
      place, as long as every undo that ran could clear and unpack: the root is the
      tree from before them all or the whole tree of one verified archive, and no
      archive has changed. */
  lemma {:induction false} RootIsAlwaysWhole(s: State, calls: seq<Call>, digest: Blob -> nat, port: nat)
    requires forall c :: c in calls ==> UndoWorks(c)
    ensures var s' := AfterCalls(s, calls, digest, port);
            && OthersSame(s, s')
            && (s'.root == s.root || exists c :: c in calls && IsArchived(s, c.archive, digest, s'.root))
  {
    hide RestoreOf, UndoWorks;
    if calls != [] {
      var init, last := calls[..|calls| - 1], calls[|calls| - 1];
      RootIsAlwaysWhole(s, init, digest, port);
      var before := AfterCalls(s, init, digest, port);
      OneCall(before, last, digest, port);
      var root := AfterCalls(s, calls, digest, port).root;
      LastIsPlain(last);
      if root != before.root {
        assert last in calls && IsArchived(s, last.archive, digest, root);
      } else if root != s.root {
        var c :| c in init && IsArchived(s, c.archive, digest, root);
        assert c in calls;
      }
    }
  }

  lemma LastIsPlain(call: Call)
    requires UndoWorks(call)
    ensures call.archive.path != PRE_RESTORE
  {}

  // ---------------------------------------------------------------- create

  /** How each call of a backup turns out; `tar` is what tar leaves when it fails. */
  datatype CreateCalls = CreateCalls(
    stopped: bool, runsOn: bool, tar: Option<string>, size: nat, digested: bool, renamed: bool, closed: bool,
    restarted: bool)

  predicate Creates(w: CreateCalls) {
    w.stopped && w.tar.None? && w.size <= MAX_SIZE && w.digested && w.renamed && w.closed
  }

  predicate Renamed(w: CreateCalls) {
    w.stopped && w.tar.None? && w.size <= MAX_SIZE && w.digested && w.renamed
  }

  /** The archive is written under a temporary name and renamed when it is whole. */
  function CreateOf(s: State, name: string, digest: Blob -> nat, w: CreateCalls): (State, Option<Archive>) {
    var blob := Tar(s.root, s.extra);
    if !w.stopped then (s.(running := w.runsOn), None)
    else
      (s.(running := w.restarted, files := if Renamed(w) then s.files[name := blob] else s.files),
       if Creates(w) then Some(Archive(name, digest(blob))) else None)
  }

  /** BACKUP, THEN RESTORE. A tree that was archived comes back exactly, whatever
      happened to the application in between, as long as the digest tells the archived
      file from what is there now; a backup changes neither the tree nor any other file. */
  lemma CreateThenRestore(s: State, name: string, digest: Blob -> nat, c: CreateCalls, later: State, port: nat,
                          w: RestoreCalls)
    requires var (_, archive) := CreateOf(s, name, digest, c);
             && archive.Some? && name != PRE_RESTORE
             && OutcomeOf(later, archive.value, digest, port, w) == Restored
    requires name in later.files && digest(later.files[name]) == digest(Tar(s.root, s.extra)) ==>
               later.files[name] == Tar(s.root, s.extra)
    ensures var (s', archive) := CreateOf(s, name, digest, c);
            && RestoreOf(later, archive.value, digest, port, w).root == s.root
            && s'.root == s.root && s'.extra == s.extra
            && forall p :: p != name ==>
                 (p in s'.files <==> p in s.files) && (p in s.files ==> s'.files[p] == s.files[p])
  {
    var archive := CreateOf(s, name, digest, c).1.value;
    SuccessIsTheArchive(later, archive, digest, port, w);
  }

  /** Over all that may be in the backup directory, a backup that fails has left a file
      under the final name if and only if nothing but closing it to other accounts failed. */
  lemma FailedBackupLeavesNothing(name: string, digest: Blob -> nat, w: CreateCalls)
    ensures (exists s: State :: CreateOf(s, name, digest, w).1.None? && CreateOf(s, name, digest, w).0.files != s.files)
            <==> Renamed(w) && !w.closed
  {
    if Renamed(w) && !w.closed {
      var s := State(map[], map[], false, map[]);
      assert name in CreateOf(s, name, digest, w).0.files;
    }
  }

  // ------------------------------------------------ where the code falls short

  /** WHEN A SECOND FAILURE IS SAFE, EXACTLY. A tree that a failed restore left at the root
      or in the rollback copy outlives every way in which a next restore may fail if and
      only if it is at the root, or the archive of the next restore does not verify. */
  lemma NextFailureIsSafeIff(s: State, tree: Tree, archive: Archive, digest: Blob -> nat, port: nat)
    requires Survives(s, tree)
    ensures (forall w: RestoreCalls :: OutcomeOf(s, archive, digest, port, w) != Restored ==>
               Survives(RestoreOf(s, archive, digest, port, w), tree))
            <==> s.root == tree || !Verified(s, archive, digest)
  {
    if s.root == tree {
      forall w: RestoreCalls | OutcomeOf(s, archive, digest, port, w) != Restored
        ensures Survives(RestoreOf(s, archive, digest, port, w), tree)
      {
        TreeSurvivesFailure(s, archive, digest, port, w);
      }
    } else if Verified(s, archive, digest) {
      var w := RestoreCalls(true, true, false, Some(""), Cleared, Unpacked, false, false, Cleared, Unpacked, false,
                            false);
      assert OutcomeOf(s, archive, digest, port, w) == NoRollback;
      assert !Survives(RestoreOf(s, archive, digest, port, w), tree);
    }
  }

  /** One failed restore keeps the tree; two may not. The first fails, its undo fails
      too, and the tree is only in the rollback copy. The second restore writes its
      own rollback copy over it before anything else can fail. */
  lemma SecondRestoreLosesTheTree(s: State, archive: Archive, digest: Blob -> nat, port: nat)
    returns (first: RestoreCalls, second: RestoreCalls)
    requires Verified(s, archive, digest) && archive.path != PRE_RESTORE && s.root != map[]
    ensures var once := RestoreOf(s, archive, digest, port, first);
            var twice := RestoreOf(once, archive, digest, port, second);
            && Survives(once, s.root) && !Survives(twice, s.root)
            && OutcomeOf(once, archive, digest, port, second) == NoRollback
  {
    first := RestoreCalls(true, true, false, None, Cleared, Broke(map[], s.extra), true, true,
                          Cleared, Broke(map[], s.extra), false, true);
    second := first.(rollback := Some(""));
    var once := RestoreOf(s, archive, digest, port, first);
    assert once.root == map[] && once.files == s.files[PRE_RESTORE := Tar(s.root, map[])];
  }
}
