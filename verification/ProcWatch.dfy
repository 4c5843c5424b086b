/** The process watcher's memory: fork-time web ancestry and the per-tenant token
    bucket (internal/antivirus/procwatch_linux.go).

    /proc at one moment is a parameter of every step that reads it. Times are whole
    nanoseconds. */
module ProcWatch {
  import opened ProcWire

  const TABLE_CAP := 200000
  const RECORD_TTL := 300_000_000_000
  const SECOND := 1_000_000_000
  const RATE_BURST := 5

  type Pid = int

  datatype PidRecord = PidRecord(parent: Pid, web: bool, born: int)

  /** What /proc says of a process: its parent now, and whether its image or name
      is a web server's. */
  datatype Proc = Proc(ppid: Pid, web: bool)

  type ProcFs = Pid -> Proc

  type Table = map<Pid, PidRecord>

  // -------------------------------------------------------------- ancestry

  predicate WebAtFork(table: Table, parent: Pid, fs: ProcFs) {
    if parent in table then table[parent].web else fs(parent).web
  }

  function AfterFork(table: Table, parent: Pid, child: Pid, fs: ProcFs, now: int): Table {
    if |table| < TABLE_CAP then table[child := PidRecord(parent, WebAtFork(table, parent, fs), now)] else table
  }

  /** A process that is a web server itself is marked, so its children inherit it. */
  function Marked(table: Table, pid: Pid, fs: ProcFs, now: int): Table {
    if !fs(pid).web then table
    else if pid in table then table[pid := table[pid].(web := true)]
    else if |table| < TABLE_CAP then table[pid := PidRecord(0, true, now)]
    else table
  }

  predicate AncestorHasWeb(table: Table, fs: ProcFs, pid: Pid, levels: nat)
    decreases levels
  {
    if levels == 0 || pid <= 1 then false
    else if pid in table then table[pid].web || AncestorHasWeb(table, fs, table[pid].parent, levels - 1)
    else fs(pid).web || (fs(pid).ppid > 1 && AncestorHasWeb(table, fs, fs(pid).ppid, levels - 1))
  }

  /** The judgement at exec, on the table after marking. */
  predicate JudgedWeb(table: Table, pid: Pid, fs: ProcFs, now: int) {
    var marked := Marked(table, pid, fs, now);
    if pid in marked then marked[pid].web else AncestorHasWeb(marked, fs, pid, 8)
  }

  function Swept(table: Table, now: int): Table {
    map pid | pid in table && now - table[pid].born <= RECORD_TTL :: table[pid]
  }

  function AfterEvent(table: Table, ev: ProcEvent, fs: ProcFs, now: int): Table {
    if ev.kind == EVENT_FORK then AfterFork(table, ev.parent, ev.pid, fs, now)
    else if ev.kind == EVENT_EXIT then table - {ev.pid}
    else if ev.kind == EVENT_EXEC then Marked(table, ev.pid, fs, now)
    else table
  }

  // ---------------------------------------------------------------- buckets

  datatype Bucket = Bucket(tokens: int, refilled: int)

  /** int(d.Seconds()): truncated toward zero. */
  function WholeSeconds(d: int): int {
    if d >= 0 then d / SECOND else -(-d / SECOND)
  }

  function Refilled(b: Bucket, now: int): Bucket {
    var refill := WholeSeconds(now - b.refilled) * RATE_BURST;
    if refill > 0 then Bucket(if b.tokens + refill > RATE_BURST then RATE_BURST else b.tokens + refill, now) else b
  }

  type Buckets = map<int, Bucket>

  function Current(buckets: Buckets, uid: int, now: int): Bucket {
    Refilled(if uid in buckets then buckets[uid] else Bucket(RATE_BURST, now), now)
  }

  predicate Allows(buckets: Buckets, uid: int, now: int) {
    Current(buckets, uid, now).tokens > 0
  }

  function AfterCall(buckets: Buckets, uid: int, now: int): Buckets {
    var b := Current(buckets, uid, now);
    buckets[uid := if b.tokens <= 0 then b else b.(tokens := b.tokens - 1)]
  }

  /** A bucket at full tokens is dropped. */
  function SweptBuckets(buckets: Buckets): Buckets {
    map uid | uid in buckets && buckets[uid].tokens < RATE_BURST :: buckets[uid]
  }

  // ------------------------------------------------------------ the watcher

  class ProcWatcher {
    var pidTable: Table
    var buckets: Buckets

    constructor ()
      ensures pidTable == map[] && buckets == map[]
    {
      pidTable, buckets := map[], map[];
    }

    method AncestorWalk(pid: Pid, fs: ProcFs) returns (web: bool)
      ensures web == AncestorHasWeb(pidTable, fs, pid, 8)
    {
      var p := pid;
      for i := 0 to 8
        invariant AncestorHasWeb(pidTable, fs, pid, 8) == AncestorHasWeb(pidTable, fs, p, 8 - i)
      {
        if p <= 1 {
          return false;
        }
        if p in pidTable {
          if pidTable[p].web {
            return true;
          }
          p := pidTable[p].parent;
          continue;
        }
        if fs(p).web {
          return true;
        }
        if fs(p).ppid <= 1 {
          return false;
        }
        p := fs(p).ppid;
      }
      return false;
    }

    method WebAncestry(pid: Pid, fs: ProcFs, now: int) returns (web: bool)
      modifies this`pidTable
      ensures web == JudgedWeb(old(pidTable), pid, fs, now)
      ensures pidTable == Marked(old(pidTable), pid, fs, now)
    {
      if fs(pid).web {
        if pid in pidTable {
          pidTable := pidTable[pid := pidTable[pid].(web := true)];
        } else if |pidTable| < TABLE_CAP {
          pidTable := pidTable[pid := PidRecord(0, true, now)];
        }
      }
      if pid in pidTable {
        return pidTable[pid].web;
      }
      web := AncestorWalk(pid, fs);
    }

    method HandleEvent(ev: ProcEvent, fs: ProcFs, now: int) returns (judged: bool)
      modifies this`pidTable
      ensures pidTable == AfterEvent(old(pidTable), ev, fs, now)
      ensures judged == (ev.kind == EVENT_EXEC && JudgedWeb(old(pidTable), ev.pid, fs, now))
    {
      judged := false;
      if ev.kind == EVENT_FORK {
        var web := false;
        if ev.parent in pidTable {
          web := pidTable[ev.parent].web;
        } else {
          web := fs(ev.parent).web;
        }
        if |pidTable| < TABLE_CAP {
          pidTable := pidTable[ev.pid := PidRecord(ev.parent, web, now)];
        }
      } else if ev.kind == EVENT_EXIT {
        pidTable := pidTable - {ev.pid};
      } else if ev.kind == EVENT_EXEC {
        judged := WebAncestry(ev.pid, fs, now);
      }
    }

    method RateAllow(uid: int, now: int) returns (allowed: bool)
      modifies this`buckets
      ensures allowed == Allows(old(buckets), uid, now)
      ensures buckets == AfterCall(old(buckets), uid, now)
    {
      if uid !in buckets {
        buckets := buckets[uid := Bucket(RATE_BURST, now)];
      }
      var b := buckets[uid];
      var refill := WholeSeconds(now - b.refilled) * RATE_BURST;
      if refill > 0 {
        b := b.(tokens := b.tokens + refill);
        if b.tokens > RATE_BURST {
          b := b.(tokens := RATE_BURST);
        }
        b := b.(refilled := now);
      }
      if b.tokens <= 0 {
        buckets := buckets[uid := b];
        return false;
      }
      buckets := buckets[uid := b.(tokens := b.tokens - 1)];
      return true;
    }

    /** The order in which a map is ranged over is a parameter. */
    method SweepTables(now: int, pids: seq<Pid>, uids: seq<int>)
      requires (forall pid :: pid in pids <==> pid in pidTable) && (forall uid :: uid in uids <==> uid in buckets)
      modifies this
      ensures pidTable == Swept(old(pidTable), now) && buckets == SweptBuckets(old(buckets))
    {
      for i := 0 to |pids|
        invariant buckets == old(buckets)
        invariant forall pid :: pid in pidTable <==>
          pid in old(pidTable) && (pid in pids[..i] ==> now - old(pidTable)[pid].born <= RECORD_TTL)
        invariant forall pid :: pid in pidTable ==> pidTable[pid] == old(pidTable)[pid]
      {
        assert pids[..i + 1] == pids[..i] + [pids[i]];
        if pids[i] in pidTable && now - pidTable[pids[i]].born > RECORD_TTL {
          pidTable := pidTable - {pids[i]};
        }
      }
      assert pids[..|pids|] == pids;
      forall pid
        ensures pid in pidTable <==> pid in Swept(old(pidTable), now)
      {}
      forall pid | pid in pidTable
        ensures pidTable[pid] == Swept(old(pidTable), now)[pid]
      {}
      SweepBuckets(uids);
    }

    method SweepBuckets(uids: seq<int>)
      requires forall uid :: uid in uids <==> uid in buckets
      modifies this`buckets
      ensures buckets == SweptBuckets(old(buckets))
    {
      for i := 0 to |uids|
        invariant forall uid :: uid in buckets <==>
          uid in old(buckets) && (uid in uids[..i] ==> old(buckets)[uid].tokens < RATE_BURST)
        invariant forall uid :: uid in buckets ==> buckets[uid] == old(buckets)[uid]
      {
        assert uids[..i + 1] == uids[..i] + [uids[i]];
        if uids[i] in buckets && buckets[uids[i]].tokens >= RATE_BURST {
          buckets := buckets - {uids[i]};
        }
      }
      assert uids[..|uids|] == uids;
      forall uid
        ensures uid in buckets <==> uid in SweptBuckets(old(buckets))
      {}
      forall uid | uid in buckets
        ensures buckets[uid] == SweptBuckets(old(buckets))[uid]
      {}
    }
  }

  // ------------------------------------------------- runs of the ancestry

  datatype Step = Event(ev: ProcEvent, fs: ProcFs, now: int) | Sweep(now: int)

  function TableAfter(run: seq<Step>, n: nat): Table
    requires n <= |run|
  {
    if n == 0 then map[]
    else
      match run[n - 1]
      case Event(ev, fs, now) => AfterEvent(TableAfter(run, n - 1), ev, fs, now)
      case Sweep(now) => Swept(TableAfter(run, n - 1), now)
  }

  predicate Forks(step: Step) {
    step.Event? && step.ev.kind == EVENT_FORK
  }

  predicate Exits(step: Step, pid: Pid) {
    step.Event? && step.ev.kind == EVENT_EXIT && step.ev.pid == pid
  }

  /** Step `i` is a fork by a process that is web at that moment. */
  predicate WebForks(run: seq<Step>, i: nat)
    requires i < |run|
  {
    Forks(run[i]) && WebAtFork(TableAfter(run, i), run[i].ev.parent, run[i].fs)
  }

  /** Before step `m`, this process is alive and is the child of fork `i` or was
      forked, then or later, by a process that was: fork events alone decide, so
      exits of ancestors and reparentings do not matter, and a pid that is used
      again is another process. */
  predicate Descends(run: seq<Step>, i: nat, m: nat, pid: Pid)
    requires i < |run| && m <= |run|
    decreases m
  {
    m > i &&
    var last := run[m - 1];
    if Forks(last) && last.ev.pid == pid then m - 1 == i || Descends(run, i, m - 1, last.ev.parent)
    else if Exits(last, pid) then false
    else m - 1 > i && Descends(run, i, m - 1, pid)
  }

  /** No record of this line is lost: not at the table's cap, not to the sweep. */
  ghost predicate LineIsKept(run: seq<Step>, i: nat)
    requires i < |run|
  {
    forall j :: i <= j < |run| ==> StepKeepsLine(run, i, j)
  }

  ghost predicate StepKeepsLine(run: seq<Step>, i: nat, j: nat)
    requires i < |run| && j < |run|
  {
    && (Forks(run[j]) && (j == i || Descends(run, i, j, run[j].ev.parent)) ==> |TableAfter(run, j)| < TABLE_CAP)
    && (run[j].Sweep? ==> forall pid :: Descends(run, i, j, pid) && pid in TableAfter(run, j) ==>
          run[j].now - TableAfter(run, j)[pid].born <= RECORD_TTL)
  }

  lemma {:induction false} LineIsRecorded(run: seq<Step>, i: nat, m: nat, pid: Pid)
    requires i < m <= |run| && WebForks(run, i) && LineIsKept(run, i) && Descends(run, i, m, pid)
    ensures pid in TableAfter(run, m) && TableAfter(run, m)[pid].web
    decreases m
  {
    var j := m - 1;
    var last := run[j];
    assert StepKeepsLine(run, i, j);
    if Forks(last) && last.ev.pid == pid {
      if j != i {
        LineIsRecorded(run, i, j, last.ev.parent);
      }
    } else {
      LineIsRecorded(run, i, j, pid);
    }
  }

  /** WEB STAYS WEB. Once a process is web when it forks, that child and every later
      descendant are judged web at exec, whatever exits, reparentings and other
      events lie between and whatever /proc says then, as long as no record of the
      line is lost. */
  lemma DescendantsAreJudgedWeb(run: seq<Step>, i: nat, m: nat, pid: Pid, fs: ProcFs, now: int)
    requires i < m <= |run| && WebForks(run, i) && LineIsKept(run, i) && Descends(run, i, m, pid)
    ensures JudgedWeb(TableAfter(run, m), pid, fs, now)
  {
    LineIsRecorded(run, i, m, pid);
  }

  // ------------------------------------------------- what a record says

  /** No record of the child is lost: from its fork in step `i` on, it does not exit, its
      pid is not forked again, and no sweep comes more than five minutes after its birth. */
  predicate Undisturbed(run: seq<Step>, i: nat, m: nat)
    requires i < m <= |run| && Forks(run[i])
  {
    forall j :: i < j < m ==>
      && !Exits(run[j], run[i].ev.pid)
      && !(Forks(run[j]) && run[j].ev.pid == run[i].ev.pid)
      && (run[j].Sweep? ==> run[j].now - run[i].now <= RECORD_TTL)
  }

  /** A FORK IS REMEMBERED, with its time and its parent, for five minutes, if the table is
      not full; the web mark it began with stays. */
  lemma {:induction false} ForkIsRemembered(run: seq<Step>, i: nat, m: nat)
    requires i < m <= |run| && Forks(run[i]) && |TableAfter(run, i)| < TABLE_CAP && Undisturbed(run, i, m)
    ensures var child := run[i].ev.pid;
            && child in TableAfter(run, m)
            && TableAfter(run, m)[child].born == run[i].now && TableAfter(run, m)[child].parent == run[i].ev.parent
            && (WebForks(run, i) ==> TableAfter(run, m)[child].web)
    decreases m
  {
    if m > i + 1 {
      ForkIsRemembered(run, i, m - 1);
    }
  }

  /** AN EXIT IS FORGOTTEN: a pid that is used again starts without a record. */
  lemma ExitIsForgotten(run: seq<Step>, i: nat)
    requires i < |run| && run[i].Event? && run[i].ev.kind == EVENT_EXIT
    ensures run[i].ev.pid !in TableAfter(run, i + 1)
  {}

  /** A WEB SERVER IS MARKED at exec, if it has a record or there is room for one. */
  lemma ServerIsMarked(run: seq<Step>, i: nat)
    requires i < |run| && run[i].Event? && run[i].ev.kind == EVENT_EXEC && run[i].fs(run[i].ev.pid).web
    requires run[i].ev.pid in TableAfter(run, i) || |TableAfter(run, i)| < TABLE_CAP
    ensures var pid := run[i].ev.pid;
            pid in TableAfter(run, i + 1) && TableAfter(run, i + 1)[pid].web
  {}

  /** This step is a reason to call the process web: it is forked by one that is, or is
      seen to be a web server at exec. */
  predicate Causes(run: seq<Step>, i: nat, pid: Pid)
    requires i < |run|
  {
    && run[i].Event? && run[i].ev.pid == pid
    && (WebForks(run, i) || (run[i].ev.kind == EVENT_EXEC && run[i].fs(pid).web))
  }

  /** A WEB RECORD HAS A CAUSE, some step before. */
  lemma {:induction false} WebRecordHasCause(run: seq<Step>, m: nat, pid: Pid)
    requires m <= |run| && pid in TableAfter(run, m) && TableAfter(run, m)[pid].web
    ensures exists i :: 0 <= i < m && Causes(run, i, pid)
    decreases m
  {
    if Causes(run, m - 1, pid) {
      assert Causes(run, m - 1, pid);
    } else {
      assert pid in TableAfter(run, m - 1) && TableAfter(run, m - 1)[pid].web;
      WebRecordHasCause(run, m - 1, pid);
    }
  }

  // ------------------------------------------------------------ ancestors

  function Parent(table: Table, fs: ProcFs, pid: Pid): Pid {
    if pid in table then table[pid].parent else fs(pid).ppid
  }

  predicate IsWeb(table: Table, fs: ProcFs, pid: Pid) {
    if pid in table then table[pid].web else fs(pid).web
  }

  /** The k-th ancestor; the process is its own 0-th. */
  function Ancestor(table: Table, fs: ProcFs, pid: Pid, k: nat): Pid
    decreases k
  {
    if k == 0 then pid else Ancestor(table, fs, Parent(table, fs, pid), k - 1)
  }

  /** The walk gets to the k-th ancestor, and it is web. */
  predicate WebAt(table: Table, fs: ProcFs, pid: Pid, k: nat) {
    && (forall j: nat :: j <= k ==> Ancestor(table, fs, pid, j) > 1)
    && IsWeb(table, fs, Ancestor(table, fs, pid, k))
  }

  lemma WebAtParent(table: Table, fs: ProcFs, pid: Pid, k: nat)
    ensures WebAt(table, fs, pid, k + 1) <==> pid > 1 && WebAt(table, fs, Parent(table, fs, pid), k)
  {
    var up := Parent(table, fs, pid);
    assert forall j: nat :: Ancestor(table, fs, pid, j + 1) == Ancestor(table, fs, up, j);
    if WebAt(table, fs, pid, k + 1) {
      assert Ancestor(table, fs, pid, 0) > 1;
      forall j: nat | j <= k
        ensures Ancestor(table, fs, up, j) > 1
      {
        assert Ancestor(table, fs, pid, j + 1) > 1;
      }
    }
    if pid > 1 && WebAt(table, fs, up, k) {
      forall j: nat | j <= k + 1
        ensures Ancestor(table, fs, pid, j) > 1
      {
        if j > 0 {
          assert Ancestor(table, fs, up, j - 1) > 1;
        }
      }
    }
  }

  /** AN ANCESTOR IS FOUND, EXACTLY. The walk answers web if and only if one of the first
      ancestors, by the table where there is a record and by /proc where there is none, is
      web, and none up to it is init. */
  lemma {:induction false} AncestorHasWebIff(table: Table, fs: ProcFs, pid: Pid, levels: nat)
    ensures AncestorHasWeb(table, fs, pid, levels) <==> exists k: nat :: k < levels && WebAt(table, fs, pid, k)
    decreases levels
  {
    if levels > 0 && pid > 1 {
      var up := Parent(table, fs, pid);
      AncestorHasWebIff(table, fs, up, levels - 1);
      assert Ancestor(table, fs, pid, 0) == pid;
      assert WebAt(table, fs, pid, 0) <==> IsWeb(table, fs, pid);
      if k: nat :| k < levels - 1 && WebAt(table, fs, up, k) {
        WebAtParent(table, fs, pid, k);
      }
      if k: nat :| k < levels && WebAt(table, fs, pid, k) {
        if k > 0 {
          WebAtParent(table, fs, pid, k - 1);
        }
      }
    } else {
      forall k: nat | k < levels
        ensures !WebAt(table, fs, pid, k)
      {
        assert pid <= 1 && Ancestor(table, fs, pid, 0) == pid;
      }
    }
  }

  /** WHAT DOES NOT DEPEND ON /PROC, EXACTLY. A process is judged web whatever /proc says if
      and only if it has a record and the record is web. */
  lemma WebUnderEveryProcIff(table: Table, pid: Pid, now: int)
    ensures (forall fs: ProcFs :: JudgedWeb(table, pid, fs, now)) <==> pid in table && table[pid].web
  {
    if !(pid in table && table[pid].web) {
      var fs: ProcFs := p => Proc(1, false);
      assert !JudgedWeb(table, pid, fs, now);
    }
  }

  /** So a sweep costs a web process its ancestry exactly when its record is over age. */
  lemma SweepForgetsIff(table: Table, pid: Pid, now: int, later: int)
    requires pid in table && table[pid].web
    ensures (forall fs: ProcFs :: JudgedWeb(Swept(table, now), pid, fs, later)) <==> now - table[pid].born <= RECORD_TTL
  {
    WebUnderEveryProcIff(Swept(table, now), pid, later);
  }

  /** The sweep is a real exception: a child of a web server that is silent for more
      than five minutes loses its record, and when it is reparented too its next exec
      is judged by /proc, which no longer shows the web server. */
  lemma SilentChildIsForgotten() returns (run: seq<Step>, fs: ProcFs)
    ensures |run| == 2 && WebForks(run, 0) && Descends(run, 0, 2, 200)
    ensures !JudgedWeb(TableAfter(run, 2), 200, fs, RECORD_TTL + 1)
  {
    var before: ProcFs := pid => Proc(1, pid == 100);
    fs := pid => Proc(1, false);
    run := [Event(ProcEvent(EVENT_FORK, 200, 100), before, 0), Sweep(RECORD_TTL + 1)];
    assert TableAfter(run, 0) == map[];
    assert TableAfter(run, 1) == map[200 := PidRecord(100, true, 0)];
    assert TableAfter(run, 2) == map[];
  }

  predicate NoneWeb(table: Table) {
    forall pid :: pid in table ==> !table[pid].web
  }

  /** No web server, no web process: the flag comes from nowhere else. */
  lemma {:induction false} NothingIsWebByItself(run: seq<Step>, n: nat, pid: Pid, fs: ProcFs, now: int)
    requires n <= |run| && (forall p :: !fs(p).web)
    requires forall k :: 0 <= k < n && run[k].Event? ==> forall p :: !run[k].fs(p).web
    ensures NoneWeb(TableAfter(run, n)) && !JudgedWeb(TableAfter(run, n), pid, fs, now)
    decreases n
  {
    if n > 0 {
      NothingIsWebByItself(run, n - 1, pid, fs, now);
    }
    NoAncestor(TableAfter(run, n), fs, pid, 8);
  }

  lemma {:induction false} NoAncestor(table: Table, fs: ProcFs, pid: Pid, levels: nat)
    requires NoneWeb(table) && forall p :: !fs(p).web
    ensures !AncestorHasWeb(table, fs, pid, levels)
    decreases levels
  {
    if levels > 0 {
      NoAncestor(table, fs, if pid in table then table[pid].parent else fs(pid).ppid, levels - 1);
    }
  }

  // ------------------------------------------------------ a bucket's answer

  /** A CALL IS ALLOWED, EXACTLY when the tenant has no bucket yet, or has tokens left, or a
      whole second has passed since it was last refilled. */
  lemma AllowsIff(buckets: Buckets, uid: int, now: int)
    requires uid in buckets ==> buckets[uid].tokens >= 0
    ensures Allows(buckets, uid, now) <==>
            uid !in buckets || buckets[uid].tokens > 0 || now - buckets[uid].refilled >= SECOND
  {}

  /** What is left after it: five tokens a second, five at most, and one less if it was
      allowed. */
  lemma TokensLeft(buckets: Buckets, uid: int, now: int)
    requires uid in buckets && 0 <= buckets[uid].tokens <= RATE_BURST && now >= buckets[uid].refilled
    ensures var b, seconds := buckets[uid], (now - buckets[uid].refilled) / SECOND;
            var held := if seconds == 0 then b.tokens else RATE_BURST;
            AfterCall(buckets, uid, now)[uid]
            == Bucket(if held == 0 then 0 else held - 1, if seconds == 0 then b.refilled else now)
  {}

  // -------------------------------------------------- runs of the buckets

  datatype RateStep = Call(uid: int, now: int) | SweepBuckets(now: int)

  /** `created` and `allowed` are history: when each bucket was made, and how many
      calls it has let through. */
  datatype RateState = RateState(buckets: Buckets, clock: int, created: map<int, int>, allowed: map<int, nat>)

  function RateApply(s: RateState, step: RateStep): RateState {
    match step
    case Call(uid, now) =>
      var passed := if Allows(s.buckets, uid, now) then 1 else 0;
      RateState(AfterCall(s.buckets, uid, now), now,
                if uid in s.created then s.created else s.created[uid := now],
                s.allowed[uid := (if uid in s.allowed then s.allowed[uid] else 0) + passed])
    case SweepBuckets(now) => s.(buckets := SweptBuckets(s.buckets), clock := now)
  }

  function RateAfter(run: seq<RateStep>, n: nat): RateState
    requires n <= |run|
  {
    if n == 0 then RateState(map[], if run == [] then 0 else run[0].now, map[], map[])
    else RateApply(RateAfter(run, n - 1), run[n - 1])
  }

  predicate Monotone(run: seq<RateStep>) {
    forall i, j :: 0 <= i <= j < |run| ==> run[i].now <= run[j].now
  }

  /** One tenant's bucket: never full between events, and never more given out than
      the burst and one burst for each whole second since it was made. */
  predicate BucketInv(s: RateState, uid: int)
    requires uid in s.buckets
  {
    var b := s.buckets[uid];
    && uid in s.created && uid in s.allowed
    && 0 <= b.tokens < RATE_BURST
    && s.created[uid] <= b.refilled <= s.clock
    && s.allowed[uid] + b.tokens <= RATE_BURST * (1 + (b.refilled - s.created[uid]) / SECOND)
  }

  predicate RateInv(s: RateState) {
    && s.buckets.Keys == s.created.Keys == s.allowed.Keys
    && forall uid :: uid in s.buckets ==> BucketInv(s, uid)
  }

  /** Whole seconds of two spans together are at least those of each added up. */
  lemma WholeSecondsAdd(a: nat, b: nat)
    ensures a / SECOND + b / SECOND <= (a + b) / SECOND
  {
    var x, y := a / SECOND, b / SECOND;
    assert SECOND * (x + y) <= a + b;
  }

  lemma CallKeepsBucket(s: RateState, uid: int, now: int)
    requires RateInv(s) && s.clock <= now
    ensures BucketInv(RateApply(s, Call(uid, now)), uid)
  {
    if uid in s.buckets {
      var b := s.buckets[uid];
      assert BucketInv(s, uid);
      WholeSecondsAdd(b.refilled - s.created[uid], now - b.refilled);
    }
  }

  lemma RateStepKeepsInv(s: RateState, step: RateStep)
    requires RateInv(s) && s.clock <= step.now
    ensures RateInv(RateApply(s, step))
    ensures step.SweepBuckets? ==> RateApply(s, step).buckets == s.buckets
  {
    var s' := RateApply(s, step);
    if step.Call? {
      CallKeepsBucket(s, step.uid, step.now);
      forall uid | uid in s'.buckets
        ensures BucketInv(s', uid)
      {
        if uid != step.uid {
          assert BucketInv(s, uid);
        }
      }
    } else {
      forall uid | uid in s.buckets
        ensures uid in s'.buckets && s'.buckets[uid] == s.buckets[uid]
      {
        assert BucketInv(s, uid);
      }
      assert s'.buckets == s.buckets;
    }
  }

  lemma {:induction false} RateRunInv(run: seq<RateStep>, n: nat)
    requires n <= |run| && Monotone(run)
    ensures RateInv(RateAfter(run, n)) && (n < |run| ==> RateAfter(run, n).clock <= run[n].now)
  {
    hide RateInv, RateApply;
    if n == 0 {
      EmptyRate(RateAfter(run, 0));
    } else {
      RateRunInv(run, n - 1);
      RateStepKeepsInv(RateAfter(run, n - 1), run[n - 1]);
      ClockIsNow(RateAfter(run, n - 1), run[n - 1]);
    }
  }

  lemma EmptyRate(s: RateState)
    requires s.buckets == map[] && s.created == map[] && s.allowed == map[]
    ensures RateInv(s)
  {}

  lemma ClockIsNow(s: RateState, step: RateStep)
    ensures RateApply(s, step).clock == step.now
  {}

  /** CONSERVATION. Under any monotone clock and any interleaving of tenants and
      sweeps, what a tenant was allowed and what its bucket still holds are never
      more than the burst and one burst per whole second from the bucket's creation
      to its last refill. */
  lemma AllowedAndLeftAreBounded(run: seq<RateStep>, n: nat, uid: int)
    requires n <= |run| && Monotone(run) && uid in RateAfter(run, n).buckets
    ensures var s := RateAfter(run, n);
            && uid in s.created && uid in s.allowed
            && s.allowed[uid] + s.buckets[uid].tokens
               <= RATE_BURST * (1 + (s.buckets[uid].refilled - s.created[uid]) / SECOND)
  {
    RateRunInv(run, n);
    assert BucketInv(RateAfter(run, n), uid);
  }

  /** Between events every bucket holds 0 to 4 tokens, so the periodic sweep, which
      is there to keep the map small, never drops one. */
  lemma SweepDropsNoBucket(run: seq<RateStep>, n: nat)
    requires n < |run| && Monotone(run) && run[n].SweepBuckets?
    ensures RateAfter(run, n + 1).buckets == RateAfter(run, n).buckets
    ensures forall uid :: uid in RateAfter(run, n).buckets ==> 0 <= RateAfter(run, n).buckets[uid].tokens < RATE_BURST
  {
    RateRunInv(run, n);
    RateStepKeepsInv(RateAfter(run, n), run[n]);
    assert forall uid :: uid in RateAfter(run, n).buckets ==> BucketInv(RateAfter(run, n), uid);
  }
}
