/** The clean-file cache under a tenant who writes at any moment
    (internal/antivirus/rapidcache.go, antivirus.go:580-611 and 687-728).

    Four assumptions are made. Three are the guards of the steps below: a path never
    bears the same non-empty size:mtime:ctime key again after a change, the rule set is
    replaced only between sweeps, and an entry is the regular file the worker
    opens. The fourth is in what the engine is a function of: a path is judged by its
    place under a scan root, and the list of roots, which the fingerprint does not hold
    (rapidcache.go:90-114), is the same in every sweep. A read may fail: that is a step
    like any other. */
module CacheSafety {
  import opened Wrappers

  type Path = string
  type Key = string
  type Bytes = string
  type Entries = map<Path, Key>

  /** A file as it stands now. The key is "" where the platform has no ctime. */
  datatype File = File(key: Key, content: Bytes)

  /** What the engine says under a fingerprint, with the list of roots fixed: whether the
      bytes read from a file score under the reporting threshold, and whether its path
      alone does. */
  datatype Engine = Engine(clean: (string, Path, Bytes) -> bool, cleanByPath: (string, Path) -> bool)

  datatype Stored = Stored(fingerprint: string, entries: Entries)

  // ------------------------------------------------------- the cache itself

  /** What a sweep starts from: nothing, unless the file was read whole and was written
      under the fingerprint in force. */
  function Load(disk: Option<Stored>, readable: bool, fingerprint: string): Entries {
    if disk.Some? && readable && disk.value.fingerprint == fingerprint then disk.value.entries else map[]
  }

  /** The entries a sweep may skip by, fixed when it begins, and its own. */
  class ScanCache {
    const known: Entries
    var recorded: Entries

    constructor (disk: Option<Stored>, readable: bool, fingerprint: string)
      ensures known == Load(disk, readable, fingerprint) && recorded == map[]
    {
      known := Load(disk, readable, fingerprint);
      recorded := map[];
    }

    predicate Unchanged(path: Path, key: Key) {
      Hit(known, path, key)
    }

    method MarkClean(path: Path, key: Key)
      modifies this
      ensures recorded == Mark(old(recorded), path, key)
    {
      if key == "" {
        return;
      }
      recorded := recorded[path := key];
    }

    /** The file is replaced whole, under the fingerprint in force now. */
    method Save(fingerprint: string, written: bool, before: Option<Stored>) returns (disk: Option<Stored>)
      ensures disk == if written then Some(Stored(fingerprint, recorded)) else before
    {
      disk := if written then Some(Stored(fingerprint, recorded)) else before;
    }
  }

  predicate Hit(known: Entries, path: Path, key: Key) {
    key != "" && path in known && known[path] == key
  }

  function Mark(entries: Entries, path: Path, key: Key): Entries {
    if key == "" then entries else entries[path := key]
  }

  // ------------------------------------------------------- the state machine

  /** A file with the key its stat gave. */
  datatype Seen = Seen(path: Path, key: Key)

  /** A sweep: entries statted but not yet decided, jobs dispatched and not yet
      read, and files judged clean and not yet recorded. */
  datatype Sweep = Sweep(
    fingerprint: string, known: Entries, recorded: Entries,
    statted: set<Seen>, jobs: set<Seen>, judged: set<Seen>)

  /** `used` and `failed` are history: the keys each path ever bore, and the reads
      that failed, with the rules in force. */
  datatype State = State(
    files: map<Path, File>, rules: string, disk: Option<Stored>, sweep: Option<Sweep>,
    used: set<Seen>, failed: set<(string, Seen)>)

  datatype Outcome = Failed | Read(content: Bytes)

  datatype Step =
    | TenantWrite(path: Path, file: File)
    | TenantDelete(path: Path)
    | ChangeRules(fingerprint: string)
    | LoseCache
    | StartSweep(readable: bool)
    | Stat(path: Path)
    | Decide(seen: Seen)
    | Judge(seen: Seen, outcome: Outcome)
    | Commit(seen: Seen)
    | Save(written: bool)
    | Kill

  predicate Bears(s: State, seen: Seen) {
    seen.path in s.files && s.files[seen.path].key == seen.key
  }

  predicate Enabled(s: State, step: Step) {
    match step
    case TenantWrite(p, f) => f.key == "" || Seen(p, f.key) !in s.used
    case TenantDelete(_) => true
    case ChangeRules(_) => s.sweep.None?
    case LoseCache => true
    case StartSweep(_) => s.sweep.None?
    case Stat(p) => s.sweep.Some? && p in s.files
    case Decide(x) => s.sweep.Some? && x in s.sweep.value.statted
    // A file that still bears the key of its stat has not changed since, so what
    // was read is its content. Otherwise a torn read may give any bytes at all.
    case Judge(x, o) => s.sweep.Some? && x in s.sweep.value.jobs
                        && (o.Read? && Bears(s, x) && x.key != "" ==> o.content == s.files[x.path].content)
    case Commit(x) => s.sweep.Some? && x in s.sweep.value.judged
    case Save(_) => s.sweep.Some?
    case Kill => s.sweep.Some?
  }

  predicate JudgedClean(e: Engine, rules: string, x: Seen, o: Outcome) {
    match o
    case Failed => e.cleanByPath(rules, x.path)
    case Read(b) => e.clean(rules, x.path, b)
  }

  function Apply(e: Engine, s: State, step: Step): State
    requires Enabled(s, step)
  {
    match step
    case TenantWrite(p, f) => s.(files := s.files[p := f], used := s.used + {Seen(p, f.key)})
    case TenantDelete(p) => s.(files := s.files - {p})
    case ChangeRules(fp) => s.(rules := fp)
    case LoseCache => s.(disk := None)
    case StartSweep(readable) =>
      s.(sweep := Some(Sweep(s.rules, Load(s.disk, readable, s.rules), map[], {}, {}, {})))
    case Stat(p) =>
      var w := s.sweep.value;
      s.(sweep := Some(w.(statted := w.statted + {Seen(p, s.files[p].key)})))
    case Decide(x) =>
      var w := s.sweep.value.(statted := s.sweep.value.statted - {x});
      if Hit(w.known, x.path, x.key) then s.(sweep := Some(w.(recorded := Mark(w.recorded, x.path, x.key))))
      else s.(sweep := Some(w.(jobs := w.jobs + {x})))
    case Judge(x, o) =>
      var w := s.sweep.value.(jobs := s.sweep.value.jobs - {x});
      var w' := if JudgedClean(e, w.fingerprint, x, o) then w.(judged := w.judged + {x}) else w;
      s.(sweep := Some(w'), failed := if o.Failed? then s.failed + {(w.fingerprint, x)} else s.failed)
    case Commit(x) =>
      var w := s.sweep.value;
      s.(sweep := Some(w.(judged := w.judged - {x}, recorded := Mark(w.recorded, x.path, x.key))))
    case Save(written) =>
      s.(sweep := None, disk := if written then Some(Stored(s.rules, s.sweep.value.recorded)) else s.disk)
    case Kill => s.(sweep := None)
  }

  /** A SKIPPED FILE STAYS KNOWN: it is no job, and the sweep records the key it already had. */
  lemma SkippedStaysKnown(e: Engine, s: State, x: Seen)
    requires Enabled(s, Decide(x)) && Hit(s.sweep.value.known, x.path, x.key)
    ensures var w, w' := s.sweep.value, Apply(e, s, Decide(x)).sweep.value;
            Hit(w'.recorded, x.path, x.key) && w'.jobs == w.jobs && w'.known == w.known
  {}

  ghost predicate Next(e: Engine, s: State, s': State) {
    exists step :: Enabled(s, step) && s' == Apply(e, s, step)
  }

  /** A server with any files on it and no cache yet. */
  predicate Start(s: State) {
    && s.disk.None? && s.sweep.None? && s.failed == {}
    && forall p :: p in s.files ==> Seen(p, s.files[p].key) in s.used
  }

  ghost predicate IsRun(e: Engine, run: seq<State>) {
    && run != []
    && Start(run[0])
    && forall i :: 0 <= i < |run| - 1 ==> Next(e, run[i], run[i + 1])
  }

  // --------------------------------------------------------------- invariant

  /** A read of the file failed, and its path alone scores under the threshold: only
      then does a failed read record anything. */
  predicate Unread(e: Engine, s: State, rules: string, x: Seen) {
    (rules, x) in s.failed && e.cleanByPath(rules, x.path)
  }

  /** A file recorded clean under `rules` with this key has changed since, is
      clean under those rules, or was recorded on its path alone. */
  predicate Right(e: Engine, s: State, rules: string, x: Seen) {
    && x.key != "" ==> (
         && x in s.used
         && (Bears(s, x) ==> e.clean(rules, x.path, s.files[x.path].content) || Unread(e, s, rules, x)))
  }

  predicate AllRight(e: Engine, s: State, rules: string, entries: Entries) {
    forall p :: p in entries ==> entries[p] != "" && Right(e, s, rules, Seen(p, entries[p]))
  }

  predicate SweepInv(e: Engine, s: State, w: Sweep) {
    && w.fingerprint == s.rules
    && AllRight(e, s, s.rules, w.known)
    && AllRight(e, s, s.rules, w.recorded)
    && (forall x :: x in w.judged ==> Right(e, s, s.rules, x))
    && (forall x :: x in w.statted + w.jobs ==> x in s.used)
  }

  predicate Inv(e: Engine, s: State) {
    && (forall p :: p in s.files ==> Seen(p, s.files[p].key) in s.used)
    && (s.disk.Some? ==> AllRight(e, s, s.disk.value.fingerprint, s.disk.value.entries))
    && (s.sweep.Some? ==> SweepInv(e, s, s.sweep.value))
  }

  /** A fresh key cannot make a right entry wrong. */
  lemma WriteKeepsRight(e: Engine, s: State, p: Path, f: File, rules: string, x: Seen)
    requires Right(e, s, rules, x)
    requires f.key == "" || Seen(p, f.key) !in s.used
    ensures Right(e, s.(files := s.files[p := f], used := s.used + {Seen(p, f.key)}), rules, x)
  {}

  lemma WriteKeepsInv(e: Engine, s: State, p: Path, f: File)
    requires Inv(e, s) && Enabled(s, TenantWrite(p, f))
    ensures Inv(e, Apply(e, s, TenantWrite(p, f)))
  {
    var s' := Apply(e, s, TenantWrite(p, f));
    forall rules, x | Right(e, s, rules, x) ensures Right(e, s', rules, x) {
      WriteKeepsRight(e, s, p, f, rules, x);
    }
  }

  lemma DeleteKeepsInv(e: Engine, s: State, p: Path)
    requires Inv(e, s)
    ensures Inv(e, Apply(e, s, TenantDelete(p)))
  {
    var s' := Apply(e, s, TenantDelete(p));
    forall rules, x | Right(e, s, rules, x) ensures Right(e, s', rules, x) {}
  }

  lemma JudgeKeepsInv(e: Engine, s: State, x: Seen, o: Outcome)
    requires Inv(e, s) && Enabled(s, Judge(x, o))
    ensures Inv(e, Apply(e, s, Judge(x, o)))
  {
    var s' := Apply(e, s, Judge(x, o));
    forall rules, y | Right(e, s, rules, y) ensures Right(e, s', rules, y) {}
    if JudgedClean(e, s.rules, x, o) {
      assert Right(e, s', s.rules, x);
    }
  }

  lemma MarkKeepsRight(e: Engine, s: State, rules: string, entries: Entries, x: Seen)
    requires AllRight(e, s, rules, entries) && Right(e, s, rules, x)
    ensures AllRight(e, s, rules, Mark(entries, x.path, x.key))
  {
    assert x == Seen(x.path, x.key);
  }

  /** Nothing outside the sweep changed, so what was right still is. */
  lemma SweepStepKeepsRight(e: Engine, s: State, s': State)
    requires s'.files == s.files && s'.used == s.used && s'.failed == s.failed
    ensures forall rules, x :: Right(e, s, rules, x) ==> Right(e, s', rules, x)
  {}

  lemma DecideKeepsInv(e: Engine, s: State, x: Seen)
    requires Inv(e, s) && Enabled(s, Decide(x))
    ensures Inv(e, Apply(e, s, Decide(x)))
  {
    var w := s.sweep.value;
    var s' := Apply(e, s, Decide(x));
    SweepStepKeepsRight(e, s, s');
    if Hit(w.known, x.path, x.key) {
      assert Right(e, s, s.rules, Seen(x.path, w.known[x.path]));
      assert x == Seen(x.path, w.known[x.path]);
      MarkKeepsRight(e, s', s.rules, w.recorded, x);
    }
  }

  lemma CommitKeepsInv(e: Engine, s: State, x: Seen)
    requires Inv(e, s) && Enabled(s, Commit(x))
    ensures Inv(e, Apply(e, s, Commit(x)))
  {
    var s' := Apply(e, s, Commit(x));
    SweepStepKeepsRight(e, s, s');
    MarkKeepsRight(e, s', s.rules, s.sweep.value.recorded, x);
  }

  lemma StepKeepsInv(e: Engine, s: State, step: Step)
    requires Inv(e, s) && Enabled(s, step)
    ensures Inv(e, Apply(e, s, step))
  {
    match step
    case TenantWrite(p, f) => WriteKeepsInv(e, s, p, f);
    case TenantDelete(p) => DeleteKeepsInv(e, s, p);
    case Judge(x, o) => JudgeKeepsInv(e, s, x, o);
    case Decide(x) => DecideKeepsInv(e, s, x);
    case Commit(x) => CommitKeepsInv(e, s, x);
    case _ => SweepStepKeepsRight(e, s, Apply(e, s, step));
  }

  lemma {:induction false} RunInv(e: Engine, run: seq<State>, i: nat)
    requires IsRun(e, run) && i < |run|
    ensures Inv(e, run[i])
  {
    if i > 0 {
      RunInv(e, run, i - 1);
      assert Next(e, run[i - 1], run[i - 1 + 1]);
      var step :| Enabled(run[i - 1], step) && run[i] == Apply(e, run[i - 1], step);
      StepKeepsInv(e, run[i - 1], step);
    }
  }

  // ------------------------------------------------------------ main results

  /** The walk would skip this file if it statted it now. */
  predicate WouldSkip(s: State, p: Path) {
    s.sweep.Some? && p in s.files && Hit(s.sweep.value.known, p, s.files[p].key)
  }

  /** THE GATE IS SAFE. In every state of every run, with the tenant writing at any
      point between stat, dispatch, read, record and the next sweep, each stored
      entry names a file that has changed since or is clean, and a file the walk
      would skip is clean under the rules in force, unless a read of this very file,
      under this key and these rules, had failed and its path alone weighs nothing. */
  lemma NoDirtyFileIsSkipped(e: Engine, run: seq<State>, i: nat, p: Path)
    requires IsRun(e, run) && i < |run|
    ensures var s := run[i];
            && (s.disk.Some? && p in s.disk.value.entries ==>
                 Right(e, s, s.disk.value.fingerprint, Seen(p, s.disk.value.entries[p])))
            && (WouldSkip(s, p) ==>
                 e.clean(s.rules, p, s.files[p].content) || Unread(e, s, s.rules, Seen(p, s.files[p].key)))
  {
    RunInv(e, run, i);
    var s := run[i];
    if WouldSkip(s, p) {
      assert Right(e, s, s.rules, Seen(p, s.sweep.value.known[p]));
    }
  }

  /** A sweep whose reads all succeeded never hides a file from a later one. */
  lemma WithReadsSucceeding(e: Engine, run: seq<State>, i: nat, p: Path)
    requires IsRun(e, run) && i < |run|
    requires run[i].failed == {} && WouldSkip(run[i], p)
    ensures e.clean(run[i].rules, p, run[i].files[p].content)
  {
    NoDirtyFileIsSkipped(e, run, i, p);
  }

  /** The exception is real. Take any file that is not clean and whose path alone
      weighs nothing. If one read of it fails, the next sweep skips it unread. */
  lemma FailedReadHidesAFile(e: Engine, rules: string, p: Path, f: File) returns (run: seq<State>)
    requires f.key != "" && !e.clean(rules, p, f.content) && e.cleanByPath(rules, p)
    ensures IsRun(e, run)
    ensures var s := run[|run| - 1];
            WouldSkip(s, p) && s.rules == rules && s.files[p] == f && !e.clean(rules, p, s.files[p].content)
  {
    var x := Seen(p, f.key);
    var s0 := State(map[p := f], rules, None, None, {x}, {});
    var s1 := Apply(e, s0, StartSweep(true));
    var s2 := Apply(e, s1, Stat(p));
    var s3 := Apply(e, s2, Decide(x));
    var s4 := Apply(e, s3, Judge(x, Failed));
    var s5 := Apply(e, s4, Commit(x));
    var s6 := Apply(e, s5, Save(true));
    var s7 := Apply(e, s6, StartSweep(true));
    run := [s0, s1, s2, s3, s4, s5, s6, s7];
    assert Next(e, s0, s1) && Next(e, s1, s2) && Next(e, s2, s3) && Next(e, s3, s4);
    assert Next(e, s4, s5) && Next(e, s5, s6) && Next(e, s6, s7);
  }

  /** In the last state of this run, under these rules, the walk would skip this file. */
  ghost predicate Hides(e: Engine, run: seq<State>, rules: string, p: Path, f: File) {
    && IsRun(e, run)
    && var s := run[|run| - 1];
       WouldSkip(s, p) && s.rules == rules && s.files[p] == f
  }

  /** WHICH DIRTY FILES CAN BE HIDDEN, EXACTLY. A file that is not clean under the rules
      is skipped in some run if and only if it has a key and its path alone scores under
      the threshold. */
  lemma DirtyFileIsHiddenIff(e: Engine, rules: string, p: Path, f: File)
    requires !e.clean(rules, p, f.content)
    ensures (exists run :: Hides(e, run, rules, p, f)) <==> f.key != "" && e.cleanByPath(rules, p)
  {
    if run :| Hides(e, run, rules, p, f) {
      NoDirtyFileIsSkipped(e, run, |run| - 1, p);
    }
    if f.key != "" && e.cleanByPath(rules, p) {
      var run := FailedReadHidesAFile(e, rules, p, f);
      assert Hides(e, run, rules, p, f);
    }
  }
}
