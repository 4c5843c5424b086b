/** One walk, a bounded channel and N workers (internal/antivirus/antivirus.go),
    as a state machine over its steps. The tree stands still here; module
    CacheSafety lets a tenant write to it. */
module ScanPool {
  import opened Rules
  import opened Wrappers

  /** What the walk callback is handed for one entry of the tree, and what a
      worker would read there. `readLimit` is 0 for a kind no site executes. */
  datatype Entry = Entry(
    path: string, failed: bool, dir: bool, excluded: bool,
    readLimit: nat, located: seq<Match>,
    statOk: bool, key: string,
    readOk: bool, evaluated: seq<Match>)

  /** `cached` is false for a scan with no cache. */
  datatype Config = Config(
    visits: seq<Entry>, workers: nat, rated: bool, fileCap: nat, critical: int,
    ruleEngine: bool, locationHeuristics: bool,
    cached: bool, known: map<string, string>)

  datatype Finding = Finding(path: string, score: int, signature: string, names: seq<string>, level: Level)

  // ------------------------------------------------------- one file, judged

  function LimitOf(c: Config, e: Entry): nat {
    if c.ruleEngine then e.readLimit else 0
  }

  function PathMatches(c: Config, e: Entry): seq<Match> {
    if c.locationHeuristics then e.located else []
  }

  /** The walk hands this entry to the pool unless the cache stops it. */
  predicate Eligible(c: Config, e: Entry) {
    && !e.failed && !e.dir && !e.excluded
    && (LimitOf(c, e) > 0 || PathMatches(c, e) != [])
    && e.statOk
  }

  /** No two files of a walk share a path. (A directory that cannot be listed is
      handed to the callback twice, the second time as failed.) */
  predicate ValidConfig(c: Config) {
    && c.workers >= 1
    && forall i, j :: 0 <= i < j < |c.visits| && Eligible(c, c.visits[i]) && Eligible(c, c.visits[j]) ==>
         c.visits[i].path != c.visits[j].path
  }

  predicate Unchanged(c: Config, e: Entry) {
    c.cached && e.key != "" && e.path in c.known && c.known[e.path] == e.key
  }

  function MatchesOf(c: Config, e: Entry): seq<Match> {
    PathMatches(c, e) + if LimitOf(c, e) > 0 && e.readOk then e.evaluated else []
  }

  function Judge(c: Config, e: Entry): Option<Finding> {
    var ms := MatchesOf(c, e);
    var level := VerdictLevel(ms, c.critical);
    if level == Clear then None
    else Some(Finding(e.path, TotalScore(ms), Best(ms).1, Names(ms), level))
  }

  // ------------------------------------------------------------ sequential

  /** The visits an uncapped, uncancelled walk over the first k entries dispatches. */
  function Jobs(c: Config, k: nat): (js: seq<nat>)
    requires k <= |c.visits|
    ensures forall i :: 0 <= i < |js| ==> js[i] < k
  {
    if k == 0 then []
    else
      var e := c.visits[k - 1];
      Jobs(c, k - 1) + if Eligible(c, e) && !Unchanged(c, e) then [k - 1] else []
  }

  predicate InTree(c: Config, jobs: seq<nat>) {
    forall i :: 0 <= i < |jobs| ==> jobs[i] < |c.visits|
  }

  function Found(c: Config, v: nat): seq<Finding>
    requires v < |c.visits|
  {
    match Judge(c, c.visits[v])
    case None => []
    case Some(f) => [f]
  }

  /** The findings of a scan that reads the jobs one after the other. */
  function Sequential(c: Config, jobs: seq<nat>): seq<Finding>
    requires InTree(c, jobs)
  {
    if jobs == [] then []
    else Sequential(c, jobs[..|jobs| - 1]) + Found(c, jobs[|jobs| - 1])
  }

  // ------------------------------------------------------- the state machine

  datatype Job = Job(index: nat, visit: nat)

  datatype Phase = Walking | Sending(job: Job) | Ended | AtCap | Stopped

  datatype Worker = Idle | Waiting(job: Job) | Reading(job: Job) | Returned

  datatype Output = Output(index: nat, finding: Finding)

  /** `sent`, `judged` and `lost` are history: the jobs dispatched so far, how
      often each index was judged, and the indices a cancelled worker dropped. */
  datatype State = State(
    next: nat, phase: Phase, scanned: nat, skipped: nat, dispatched: nat,
    queue: seq<Job>, closed: bool, workers: seq<Worker>,
    output: seq<Output>, clean: map<string, string>, cancelled: bool,
    sent: seq<nat>, judged: multiset<nat>, lost: multiset<nat>)

  function Start(c: Config): State {
    State(0, Walking, 0, 0, 0, [], false, seq(c.workers, i => Idle), [], map[], false, [], multiset{}, multiset{})
  }

  datatype Step =
    | Cancel
    | Visit
    | Send
    | Abort
    | Close
    | Receive(w: nat)
    | Tick(w: nat)
    | Quit(w: nat)
    | Commit(w: nat)
    | Exit(w: nat)

  predicate Enabled(c: Config, s: State, step: Step) {
    match step
    case Cancel => true
    case Visit => s.phase == Walking
    case Send => s.phase.Sending? && |s.queue| < c.workers * 4
    case Abort => s.phase.Sending? && s.cancelled
    case Close => (s.phase == Ended || s.phase == AtCap || s.phase == Stopped) && !s.closed
    case Receive(w) => w < |s.workers| && s.workers[w] == Idle && s.queue != []
    case Tick(w) => w < |s.workers| && s.workers[w].Waiting?
    case Quit(w) => w < |s.workers| && s.workers[w].Waiting? && c.rated && s.cancelled
    case Commit(w) => w < |s.workers| && s.workers[w].Reading?
    case Exit(w) => w < |s.workers| && s.workers[w] == Idle && s.queue == [] && s.closed
  }

  function MarkClean(c: Config, clean: map<string, string>, e: Entry): map<string, string> {
    if !c.cached || e.key == "" then clean else clean[e.path := e.key]
  }

  /** The callback for the next entry. An entry that failed to list is passed
      over before the context is looked at. */
  function VisitNext(c: Config, s: State): State {
    if s.next >= |c.visits| then s.(phase := Ended)
    else
      var e := c.visits[s.next];
      if e.failed then s.(next := s.next + 1)
      else if s.cancelled then s.(phase := Stopped)
      else if !Eligible(c, e) then s.(next := s.next + 1)
      else if Unchanged(c, e) then
        s.(next := s.next + 1, skipped := s.skipped + 1, clean := MarkClean(c, s.clean, e))
      else if s.scanned + 1 > c.fileCap then
        s.(next := s.next + 1, scanned := s.scanned + 1, phase := AtCap)
      else
        s.(next := s.next + 1, scanned := s.scanned + 1, phase := Sending(Job(s.dispatched, s.next)))
  }

  function Apply(c: Config, s: State, step: Step): State
    requires Enabled(c, s, step)
  {
    match step
    case Cancel => s.(cancelled := true)
    case Visit => VisitNext(c, s)
    case Send =>
      s.(phase := Walking, queue := s.queue + [s.phase.job], dispatched := s.dispatched + 1,
         sent := s.sent + [s.phase.job.visit])
    case Abort => s.(phase := Stopped)
    case Close => s.(closed := true)
    case Receive(w) => s.(queue := s.queue[1..], workers := s.workers[w := Waiting(s.queue[0])])
    case Tick(w) => s.(workers := s.workers[w := Reading(s.workers[w].job)])
    case Quit(w) =>
      s.(workers := s.workers[w := Returned], lost := s.lost + multiset{s.workers[w].job.index})
    case Commit(w) =>
      var j := s.workers[w].job;
      var known := j.visit < |c.visits|;
      var found := if known then Judge(c, c.visits[j.visit]) else None;
      s.(workers := s.workers[w := Idle], judged := s.judged + multiset{j.index},
         clean := if known && found.None? then MarkClean(c, s.clean, c.visits[j.visit]) else s.clean,
         output := if found.Some? then s.output + [Output(j.index, found.value)] else s.output)
    case Exit(w) => s.(workers := s.workers[w := Returned])
  }

  ghost predicate Next(c: Config, s: State, s': State) {
    exists step :: Enabled(c, s, step) && s' == Apply(c, s, step)
  }

  ghost predicate StepAt(c: Config, run: seq<State>, i: nat)
    requires i + 1 < |run|
  {
    Next(c, run[i], run[i + 1])
  }

  ghost predicate IsRun(c: Config, run: seq<State>) {
    && run != []
    && run[0] == Start(c)
    && forall i :: 0 <= i < |run| - 1 ==> StepAt(c, run, i)
  }

  /** The channel is closed and every worker came back: runScan goes on. */
  predicate Done(s: State) {
    s.closed && forall w :: 0 <= w < |s.workers| ==> s.workers[w] == Returned
  }

  predicate Complete(s: State) {
    s.phase == Ended && !s.cancelled
  }

  // -------------------------------------------------------------- invariant

  function Once(b: bool): nat { if b then 1 else 0 }

  predicate Holds(w: Worker, i: nat) {
    Busy(w) && w.job.index == i
  }

  /** How many workers hold index i, and how often it waits in the channel. */
  function Held(ws: seq<Worker>, i: nat): nat {
    if ws == [] then 0 else Held(ws[..|ws| - 1], i) + Once(Holds(ws[|ws| - 1], i))
  }

  function Queued(q: seq<Job>, i: nat): nat {
    if q == [] then 0 else Once(q[0].index == i) + Queued(q[1..], i)
  }

  predicate Matches(s: State, j: Job) {
    j.index < |s.sent| && s.sent[j.index] == j.visit
  }

  /** The walk's own counters against the sequential job list. */
  predicate WalkInv(c: Config, s: State) {
    && s.next <= |c.visits|
    && |s.sent| == s.dispatched
    && InTree(c, s.sent)
    && (match s.phase
        case Walking => s.sent == Jobs(c, s.next) && s.scanned == s.dispatched <= c.fileCap
        case Sending(j) =>
          && Jobs(c, s.next) == s.sent + [j.visit] && j.visit < |c.visits|
          && j.index == s.dispatched && s.scanned == s.dispatched + 1 <= c.fileCap
        case Ended => s.next == |c.visits| && s.sent == Jobs(c, s.next) && |s.sent| <= c.fileCap
        case AtCap => s.sent <= Jobs(c, s.next) && |s.sent| == c.fileCap && |Jobs(c, s.next)| == |s.sent| + 1
        case Stopped => s.sent <= Jobs(c, s.next) && |s.sent| <= c.fileCap && s.cancelled)
  }

  /** Every dispatched index is in exactly one place. */
  predicate PlaceAt(s: State, i: nat) {
    Queued(s.queue, i) + Held(s.workers, i) + s.judged[i] + s.lost[i] == Once(i < s.dispatched)
  }

  ghost predicate PlaceInv(s: State) {
    forall i :: PlaceAt(s, i)
  }

  predicate Busy(w: Worker) {
    w.Waiting? || w.Reading?
  }

  predicate JobsMatch(s: State) {
    && (forall k :: 0 <= k < |s.queue| ==> Matches(s, s.queue[k]))
    && (forall w :: 0 <= w < |s.workers| ==> Busy(s.workers[w]) ==> Matches(s, s.workers[w].job))
  }

  /** Without a cancellation a worker only comes back to an empty, closed channel. */
  predicate EndInv(s: State) {
    && (s.closed ==> s.phase != Walking && !s.phase.Sending?)
    && (s.lost != multiset{} ==> s.cancelled)
    && (!s.cancelled ==> forall w :: 0 <= w < |s.workers| ==> s.workers[w] == Returned ==> s.queue == [] && s.closed)
    && (s.cancelled || s.phase != Stopped)
  }

  /** The output holds exactly the findings of the indices judged so far. */
  predicate OutputSound(c: Config, s: State) {
    && InTree(c, s.sent)
    && forall k :: 0 <= k < |s.output| ==>
         && s.output[k].index < |s.sent| && s.output[k].index in s.judged
         && Judge(c, c.visits[s.sent[s.output[k].index]]) == Some(s.output[k].finding)
  }

  predicate Printed(s: State, i: nat) {
    exists k :: 0 <= k < |s.output| && s.output[k].index == i
  }

  predicate OutputFull(c: Config, s: State) {
    && InTree(c, s.sent)
    && forall i :: i in s.judged && i < |s.sent| && Judge(c, c.visits[s.sent[i]]).Some? ==> Printed(s, i)
  }

  predicate OutputDistinct(s: State) {
    forall k, l :: 0 <= k < l < |s.output| ==> s.output[k].index != s.output[l].index
  }

  predicate OutputInv(c: Config, s: State) {
    OutputSound(c, s) && OutputFull(c, s) && OutputDistinct(s)
  }

  ghost predicate Inv(c: Config, s: State) {
    WalkInv(c, s) && PlaceInv(s) && JobsMatch(s) && EndInv(s) && OutputInv(c, s)
  }

  lemma {:induction false} HeldUpdate(ws: seq<Worker>, w: nat, x: Worker, i: nat)
    requires w < |ws|
    ensures Held(ws[w := x], i) + Once(Holds(ws[w], i)) == Held(ws, i) + Once(Holds(x, i))
  {
    var n := |ws| - 1;
    if w < n {
      HeldUpdate(ws[..n], w, x, i);
      assert ws[w := x][..n] == ws[..n][w := x];
    } else {
      assert ws[w := x][..n] == ws[..n];
    }
  }

  lemma {:induction false} QueuedAppend(q: seq<Job>, j: Job, i: nat)
    ensures Queued(q + [j], i) == Queued(q, i) + Once(j.index == i)
  {
    if q == [] {
      assert q + [j] == [j];
    } else {
      QueuedAppend(q[1..], j, i);
      assert (q + [j])[1..] == q[1..] + [j];
    }
  }

  lemma {:induction false} AllIdleHoldNothing(n: nat, i: nat)
    ensures Held(seq(n, k => Idle), i) == 0
  {
    if n > 0 {
      AllIdleHoldNothing(n - 1, i);
      assert seq(n, k => Idle)[..n - 1] == seq(n - 1, k => Idle);
    }
  }

  lemma StartInv(c: Config)
    ensures Inv(c, Start(c))
  {
    forall i ensures PlaceAt(Start(c), i) {
      AllIdleHoldNothing(c.workers, i);
      assert Start(c).workers == seq(c.workers, k => Idle);
    }
  }

  lemma VisitKeepsWalk(c: Config, s: State)
    requires WalkInv(c, s) && s.phase == Walking
    ensures WalkInv(c, VisitNext(c, s))
  {
    if s.next < |c.visits| {
      assert Jobs(c, s.next + 1)[..|Jobs(c, s.next)|] == Jobs(c, s.next);
    }
  }

  lemma WalkStep(c: Config, s: State, step: Step)
    requires WalkInv(c, s) && Enabled(c, s, step)
    ensures WalkInv(c, Apply(c, s, step))
  {
    hide VisitNext, Jobs, Judge;
    if step == Visit {
      VisitKeepsWalk(c, s);
    }
  }

  lemma VisitKeepsPlaces(c: Config, s: State)
    ensures VisitNext(c, s).dispatched == s.dispatched && VisitNext(c, s).sent == s.sent
    ensures VisitNext(c, s).queue == s.queue && VisitNext(c, s).workers == s.workers
    ensures VisitNext(c, s).judged == s.judged && VisitNext(c, s).lost == s.lost
    ensures VisitNext(c, s).output == s.output && VisitNext(c, s).closed == s.closed
    ensures VisitNext(c, s).cancelled == s.cancelled
    ensures VisitNext(c, s).phase == Stopped ==> s.phase == Stopped || s.cancelled
  {}

  lemma WorkerStepKeepsPlaces(c: Config, s: State, step: Step, w: nat, i: nat)
    requires PlaceAt(s, i) && Enabled(c, s, step)
    requires step == Receive(w) || step == Tick(w) || step == Quit(w) || step == Commit(w) || step == Exit(w)
    ensures PlaceAt(Apply(c, s, step), i)
  {
    hide VisitNext, Jobs, Judge, Held;
    var s' := Apply(c, s, step);
    HeldUpdate(s.workers, w, s'.workers[w], i);
    assert s'.workers == s.workers[w := s'.workers[w]];
  }

  lemma PlaceStep(c: Config, s: State, step: Step, i: nat)
    requires PlaceAt(s, i) && WalkInv(c, s) && Enabled(c, s, step)
    ensures PlaceAt(Apply(c, s, step), i)
  {
    hide VisitNext, Jobs, Judge, Held;
    match step
    case Visit => VisitKeepsPlaces(c, s);
    case Send => QueuedAppend(s.queue, s.phase.job, i);
    case Receive(w) => WorkerStepKeepsPlaces(c, s, step, w, i);
    case Tick(w) => WorkerStepKeepsPlaces(c, s, step, w, i);
    case Quit(w) => WorkerStepKeepsPlaces(c, s, step, w, i);
    case Commit(w) => WorkerStepKeepsPlaces(c, s, step, w, i);
    case Exit(w) => WorkerStepKeepsPlaces(c, s, step, w, i);
    case _ =>
  }

  lemma VisitMatch(c: Config, s: State)
    requires JobsMatch(s)
    ensures JobsMatch(VisitNext(c, s))
  {
    VisitKeepsPlaces(c, s);
  }

  lemma MatchStep(c: Config, s: State, step: Step)
    requires JobsMatch(s) && WalkInv(c, s) && Enabled(c, s, step)
    ensures JobsMatch(Apply(c, s, step))
  {
    hide VisitNext, Jobs, Judge, InTree, MarkClean;
    match step
    case Visit => VisitMatch(c, s);
    case Send => assert Matches(Apply(c, s, step), s.phase.job);
    case Receive(w) => assert Matches(s, s.queue[0]);
    case _ =>
  }

  lemma EndStep(c: Config, s: State, step: Step)
    requires EndInv(s) && Enabled(c, s, step)
    ensures EndInv(Apply(c, s, step))
  {
    hide VisitNext, Judge;
    if step == Visit {
      VisitKeepsPlaces(c, s);
    }
  }

  lemma {:induction false} HeldContains(ws: seq<Worker>, w: nat)
    requires w < |ws| && Busy(ws[w])
    ensures Held(ws, ws[w].job.index) > 0
  {
    if w < |ws| - 1 {
      HeldContains(ws[..|ws| - 1], w);
    }
  }

  /** A job a worker holds has not been judged. */
  lemma HeldIsUnjudged(c: Config, s: State, w: nat)
    requires PlaceInv(s) && w < |s.workers| && Busy(s.workers[w])
    ensures s.workers[w].job.index !in s.judged
  {
    HeldContains(s.workers, w);
    assert PlaceAt(s, s.workers[w].job.index);
  }

  lemma CommitSound(c: Config, s: State, w: nat)
    requires OutputSound(c, s) && JobsMatch(s) && Enabled(c, s, Commit(w))
    ensures OutputSound(c, Apply(c, s, Commit(w)))
  {
    hide Judge;
    assert Matches(s, s.workers[w].job);
  }

  lemma CommitFull(c: Config, s: State, w: nat)
    requires OutputFull(c, s) && JobsMatch(s) && Enabled(c, s, Commit(w))
    ensures OutputFull(c, Apply(c, s, Commit(w)))
  {
    hide Judge;
    var j := s.workers[w].job;
    var s' := Apply(c, s, Commit(w));
    assert Matches(s, j);
    forall i | i in s'.judged && i < |s'.sent| && Judge(c, c.visits[s'.sent[i]]).Some?
      ensures Printed(s', i)
    {
      if i == j.index {
        assert s'.output[|s.output|].index == i;
      } else {
        assert i in s.judged && Printed(s, i);
        var k :| 0 <= k < |s.output| && s.output[k].index == i;
        assert s'.output[k].index == i;
      }
    }
  }

  lemma CommitDistinct(c: Config, s: State, w: nat)
    requires OutputSound(c, s) && OutputDistinct(s) && PlaceInv(s) && Enabled(c, s, Commit(w))
    ensures OutputDistinct(Apply(c, s, Commit(w)))
  {
    hide Judge;
    HeldIsUnjudged(c, s, w);
  }

  lemma SendOutput(c: Config, s: State)
    requires Inv(c, s) && Enabled(c, s, Send)
    ensures OutputInv(c, Apply(c, s, Send))
  {
    hide VisitNext, Jobs, Judge, Held;
    forall i | i in s.judged ensures i < s.dispatched {
      assert PlaceAt(s, i);
    }
  }

  lemma OutputStep(c: Config, s: State, step: Step)
    requires Inv(c, s) && Enabled(c, s, step)
    ensures OutputInv(c, Apply(c, s, step))
  {
    hide VisitNext, Jobs, Judge, Held, PlaceInv, WalkInv, EndInv;
    match step
    case Commit(w) =>
      CommitSound(c, s, w);
      CommitFull(c, s, w);
      CommitDistinct(c, s, w);
    case Send => SendOutput(c, s);
    case Visit => VisitKeepsPlaces(c, s);
    case _ =>
  }

  lemma {:induction false} RunInv(c: Config, run: seq<State>, i: nat)
    requires IsRun(c, run) && i < |run|
    ensures Inv(c, run[i])
  {
    hide Apply, WalkInv, PlaceAt, JobsMatch, EndInv, OutputInv, Enabled;
    if i == 0 {
      StartInv(c);
    } else {
      RunInv(c, run, i - 1);
      assert StepAt(c, run, i - 1);
      var step :| Enabled(c, run[i - 1], step) && run[i] == Apply(c, run[i - 1], step);
      WalkStep(c, run[i - 1], step);
      forall k ensures PlaceAt(run[i], k) {
        assert PlaceAt(run[i - 1], k);
        PlaceStep(c, run[i - 1], step, k);
      }
      MatchStep(c, run[i - 1], step);
      EndStep(c, run[i - 1], step);
      OutputStep(c, run[i - 1], step);
    }
  }

  // --------------------------------------------------- back in dispatch order

  function Insert(o: Output, xs: seq<Output>): seq<Output> {
    if xs == [] then [o]
    else if o.index <= xs[0].index then [o] + xs
    else [xs[0]] + Insert(o, xs[1..])
  }

  /** The output sorted by dispatch index. */
  function ByIndex(xs: seq<Output>): seq<Output> {
    if xs == [] then [] else Insert(xs[0], ByIndex(xs[1..]))
  }

  predicate Ascending(xs: seq<Output>) {
    forall k, l :: 0 <= k < l < |xs| ==> xs[k].index < xs[l].index
  }

  lemma {:induction false} InsertAscends(o: Output, xs: seq<Output>)
    requires Ascending(xs)
    requires forall k :: 0 <= k < |xs| ==> xs[k].index != o.index
    ensures Ascending(Insert(o, xs))
    ensures forall x :: x in Insert(o, xs) <==> x == o || x in xs
    decreases |xs|
  {
    if xs != [] && o.index > xs[0].index {
      InsertAscends(o, xs[1..]);
      var rest := Insert(o, xs[1..]);
      assert forall x :: x in rest ==> x.index > xs[0].index;
    }
  }

  lemma {:induction false} ByIndexAscends(xs: seq<Output>)
    requires forall k, l :: 0 <= k < l < |xs| ==> xs[k].index != xs[l].index
    ensures Ascending(ByIndex(xs))
    ensures forall x :: x in ByIndex(xs) <==> x in xs
    decreases |xs|
  {
    if xs != [] {
      var rest := xs[1..];
      assert forall k, l :: 0 <= k < l < |rest| ==> rest[k] == xs[k + 1] && rest[l] == xs[l + 1];
      ByIndexAscends(rest);
      forall k | 0 <= k < |ByIndex(rest)| ensures ByIndex(rest)[k].index != xs[0].index {
        assert ByIndex(rest)[k] in rest;
      }
      InsertAscends(xs[0], ByIndex(rest));
    }
  }

  /** One order only: ascending lists with the same elements are equal. */
  lemma {:induction false} AscendingUnique(a: seq<Output>, b: seq<Output>)
    requires Ascending(a) && Ascending(b)
    requires forall x :: x in a <==> x in b
    ensures a == b
    decreases |a|
  {
    assert b == [] || b[0] in b;
    if a == [] {
    } else {
      assert a[0] in b && b != [] && b[0] in a;
      assert a[0] == b[0];
      forall x | x in a[1..] ensures x in b[1..] {
        assert x in b && x != a[0];
      }
      forall x | x in b[1..] ensures x in a[1..] {
        assert x in a && x != b[0];
      }
      AscendingUnique(a[1..], b[1..]);
    }
  }

  function SeenKey(path: string): string { "h|" + path }

  /** The first finding of each file not seen before, from position k on. */
  function FirstPerFile(xs: seq<Output>, seen: set<string>): seq<Finding> {
    if xs == [] then []
    else if SeenKey(xs[0].finding.path) in seen then FirstPerFile(xs[1..], seen)
    else [xs[0].finding] + FirstPerFile(xs[1..], seen + {SeenKey(xs[0].finding.path)})
  }

  method AppendInDispatchOrder(findings: seq<Finding>, output: seq<Output>, known: set<string>)
    returns (all: seq<Finding>)
    ensures all == findings + FirstPerFile(ByIndex(output), known)
  {
    var sorted := ByIndex(output);
    var seen := known;
    all := findings;
    for k := 0 to |sorted|
      invariant all + FirstPerFile(sorted[k..], seen) == findings + FirstPerFile(sorted, known)
    {
      var o := sorted[k];
      assert sorted[k..][1..] == sorted[k + 1..];
      if SeenKey(o.finding.path) in seen {
        continue;
      }
      assert all + FirstPerFile(sorted[k..], seen)
             == all + [o.finding] + FirstPerFile(sorted[k + 1..], seen + {SeenKey(o.finding.path)});
      seen := seen + {SeenKey(o.finding.path)};
      all := all + [o.finding];
    }
  }

  function FindingsOf(xs: seq<Output>): seq<Finding> {
    if xs == [] then [] else [xs[0].finding] + FindingsOf(xs[1..])
  }

  lemma {:induction false} NoFileTwice(xs: seq<Output>, seen: set<string>)
    requires forall k, l :: 0 <= k < l < |xs| ==> xs[k].finding.path != xs[l].finding.path
    requires forall k :: 0 <= k < |xs| ==> SeenKey(xs[k].finding.path) !in seen
    ensures FirstPerFile(xs, seen) == FindingsOf(xs)
    decreases |xs|
  {
    if xs != [] {
      var key := SeenKey(xs[0].finding.path);
      forall k | 0 <= k < |xs[1..]| ensures SeenKey(xs[1..][k].finding.path) !in seen + {key} {
        assert xs[1..][k] == xs[k + 1];
        assert SeenKey(xs[k + 1].finding.path)[2..] == xs[k + 1].finding.path;
        assert key[2..] == xs[0].finding.path;
      }
      NoFileTwice(xs[1..], seen + {key});
    }
  }

  // ------------------------------------------------- output against the jobs

  function OutputAt(c: Config, sent: seq<nat>, judged: multiset<nat>, i: nat): seq<Output>
    requires InTree(c, sent) && i < |sent|
  {
    var found := Judge(c, c.visits[sent[i]]);
    if i in judged && found.Some? then [Output(i, found.value)] else []
  }

  /** The output of the judged jobs among the first n, in dispatch order. */
  function Collect(c: Config, sent: seq<nat>, judged: multiset<nat>, n: nat): seq<Output>
    requires InTree(c, sent) && n <= |sent|
  {
    if n == 0 then [] else Collect(c, sent, judged, n - 1) + OutputAt(c, sent, judged, n - 1)
  }

  lemma OutputAtIs(c: Config, sent: seq<nat>, judged: multiset<nat>, i: nat)
    requires InTree(c, sent) && i < |sent|
    ensures var here := OutputAt(c, sent, judged, i);
            && |here| <= 1
            && forall o :: o in here <==> o.index == i && i in judged && Judge(c, c.visits[sent[i]]) == Some(o.finding)
  {
    hide Judge;
  }

  lemma AscendingAppend(xs: seq<Output>, more: seq<Output>)
    requires Ascending(xs) && |more| <= 1 && forall x, y :: x in xs && y in more ==> x.index < y.index
    ensures Ascending(xs + more)
  {}

  lemma {:induction false} CollectElements(c: Config, sent: seq<nat>, judged: multiset<nat>, n: nat)
    requires InTree(c, sent) && n <= |sent|
    ensures Ascending(Collect(c, sent, judged, n))
    ensures forall o :: o in Collect(c, sent, judged, n) <==>
              o.index < n && o.index in judged && Judge(c, c.visits[sent[o.index]]) == Some(o.finding)
  {
    hide Judge, OutputAt, Ascending;
    if n == 0 {
      NothingAscends();
    } else {
      var xs, last := Collect(c, sent, judged, n - 1), OutputAt(c, sent, judged, n - 1);
      CollectElements(c, sent, judged, n - 1);
      OutputAtIs(c, sent, judged, n - 1);
      AscendingAppend(xs, last);
      assert forall o :: o in xs + last <==> o in xs || o in last;
    }
  }

  lemma NothingAscends()
    ensures Ascending([])
  {}

  lemma SortedOutputIsCollected(c: Config, s: State)
    requires OutputInv(c, s)
    ensures ByIndex(s.output) == Collect(c, s.sent, s.judged, |s.sent|)
  {
    hide Judge;
    ByIndexAscends(s.output);
    CollectElements(c, s.sent, s.judged, |s.sent|);
    var b := Collect(c, s.sent, s.judged, |s.sent|);
    forall o | o in b ensures o in s.output {
      assert o.index in s.judged && o.index < |s.sent|;
      assert Printed(s, o.index);
      var k :| 0 <= k < |s.output| && s.output[k].index == o.index;
      assert s.output[k] == o;
    }
    AscendingUnique(ByIndex(s.output), b);
  }

  lemma {:induction false} JobsAscend(c: Config, k: nat)
    requires k <= |c.visits|
    ensures forall i, j :: 0 <= i < j < |Jobs(c, k)| ==> Jobs(c, k)[i] < Jobs(c, k)[j]
  {
    if k > 0 {
      JobsAscend(c, k - 1);
    }
  }

  lemma {:induction false} JobsPrefix(c: Config, k: nat, n: nat)
    requires k <= n <= |c.visits|
    ensures Jobs(c, k) <= Jobs(c, n)
    decreases n
  {
    if k < n {
      JobsPrefix(c, k, n - 1);
    }
  }

  lemma JudgedPath(c: Config, e: Entry)
    ensures Judge(c, e).Some? ==> Judge(c, e).value.path == e.path
  {}

  lemma {:induction false} JobsAreEligible(c: Config, k: nat, i: nat)
    requires k <= |c.visits| && i < |Jobs(c, k)|
    ensures Eligible(c, c.visits[Jobs(c, k)[i]])
  {
    if i < |Jobs(c, k - 1)| {
      JobsAreEligible(c, k - 1, i);
    }
  }

  /** Two files of one walk never share a path, so nothing is dropped as seen. */
  lemma CollectedPathsDiffer(c: Config, sent: seq<nat>, judged: multiset<nat>)
    requires ValidConfig(c) && sent <= Jobs(c, |c.visits|) && InTree(c, sent)
    ensures var xs := Collect(c, sent, judged, |sent|);
            forall k, l :: 0 <= k < l < |xs| ==> xs[k].finding.path != xs[l].finding.path
  {
    hide Collect, Jobs, Judge, Eligible;
    var xs := Collect(c, sent, judged, |sent|);
    CollectElements(c, sent, judged, |sent|);
    JobsAscend(c, |c.visits|);
    forall k, l | 0 <= k < l < |xs| ensures xs[k].finding.path != xs[l].finding.path {
      var a, b := xs[k], xs[l];
      assert a in xs && b in xs && a.index < b.index;
      assert sent[a.index] < sent[b.index];
      JobsAreEligible(c, |c.visits|, a.index);
      JobsAreEligible(c, |c.visits|, b.index);
      JudgedPath(c, c.visits[sent[a.index]]);
      JudgedPath(c, c.visits[sent[b.index]]);
    }
  }

  // ------------------------------------------------------------ subsequences

  predicate Subsequence<T(==)>(a: seq<T>, b: seq<T>) {
    a == [] ||
    (b != [] &&
      (Subsequence(a, b[..|b| - 1]) ||
       (a[|a| - 1] == b[|b| - 1] && Subsequence(a[..|a| - 1], b[..|b| - 1]))))
  }

  lemma {:induction false} SubsequenceExtends<T>(a: seq<T>, b: seq<T>, more: seq<T>)
    requires Subsequence(a, b)
    ensures Subsequence(a, b + more)
    decreases |more|
  {
    if more == [] {
      assert b + more == b;
    } else {
      SubsequenceExtends(a, b, more[..|more| - 1]);
      assert (b + more)[..|b + more| - 1] == b + more[..|more| - 1];
    }
  }

  lemma FindingsOfFirst(o: Output, rest: seq<Output>)
    ensures FindingsOf([o] + rest) == [o.finding] + FindingsOf(rest)
  {
    assert ([o] + rest)[1..] == rest;
  }

  lemma NoFindings()
    ensures FindingsOf([]) == []
  {}

  lemma {:induction false} FindingsOfConcat(a: seq<Output>, b: seq<Output>)
    ensures FindingsOf(a + b) == FindingsOf(a) + FindingsOf(b)
    decreases |a|
  {
    hide FindingsOf;
    if a == [] {
      NoFindings();
      assert [] + FindingsOf(b) == FindingsOf(b) && [] + b == b;
    } else {
      var o, rest := a[0], a[1..];
      FindingsOfFirst(o, rest);
      FindingsOfFirst(o, rest + b);
      FindingsOfConcat(rest, b);
      assert [o] + rest == a && [o] + (rest + b) == a + b;
      assert [o.finding] + (FindingsOf(rest) + FindingsOf(b)) == [o.finding] + FindingsOf(rest) + FindingsOf(b);
    }
  }

  lemma {:induction false} CollectedIsSequential(c: Config, sent: seq<nat>, judged: multiset<nat>, n: nat)
    requires InTree(c, sent) && n <= |sent|
    requires forall i :: 0 <= i < n ==> i in judged
    ensures FindingsOf(Collect(c, sent, judged, n)) == Sequential(c, sent[..n])
  {
    hide Judge;
    if n > 0 {
      CollectedIsSequential(c, sent, judged, n - 1);
      assert sent[..n][..n - 1] == sent[..n - 1];
      var last := OutputAt(c, sent, judged, n - 1);
      FindingsOfConcat(Collect(c, sent, judged, n - 1), last);
      assert FindingsOf(last) == Found(c, sent[n - 1]);
    }
  }

  lemma OneOutput(c: Config, sent: seq<nat>, judged: multiset<nat>, i: nat)
    requires InTree(c, sent) && i < |sent|
    ensures var last, found := OutputAt(c, sent, judged, i), Found(c, sent[i]);
            |last| <= 1 && (last != [] ==> FindingsOf(last) == found && |found| == 1)
  {
    hide Judge;
  }

  lemma {:induction false} CollectedIsSubsequence(c: Config, sent: seq<nat>, judged: multiset<nat>, n: nat)
    requires InTree(c, sent) && n <= |sent|
    ensures Subsequence(FindingsOf(Collect(c, sent, judged, n)), Sequential(c, sent[..n]))
  {
    hide Judge, OutputAt, Found;
    if n > 0 {
      CollectedIsSubsequence(c, sent, judged, n - 1);
      assert sent[..n][..n - 1] == sent[..n - 1];
      var before := FindingsOf(Collect(c, sent, judged, n - 1));
      var last := OutputAt(c, sent, judged, n - 1);
      FindingsOfConcat(Collect(c, sent, judged, n - 1), last);
      var all := Sequential(c, sent[..n - 1]);
      var found := Found(c, sent[n - 1]);
      OneOutput(c, sent, judged, n - 1);
      if last == [] {
        assert before + FindingsOf(last) == before;
        SubsequenceExtends(before, all, found);
      } else {
        assert (before + found)[..|before|] == before && (all + found)[..|all|] == all;
      }
    }
  }

  lemma {:induction false} SequentialPrefix(c: Config, a: seq<nat>, b: seq<nat>)
    requires InTree(c, b) && a <= b
    ensures Sequential(c, a) <= Sequential(c, b)
    decreases |b|
  {
    if |a| < |b| {
      SequentialPrefix(c, a, b[..|b| - 1]);
    } else {
      assert a == b;
    }
  }

  // ------------------------------------------------------------ main results

  function AllJobs(c: Config): seq<nat> {
    Jobs(c, |c.visits|)
  }

  /** What the cap lets through. */
  function CappedJobs(c: Config): (js: seq<nat>)
    ensures js <= AllJobs(c) && InTree(c, js)
  {
    if |AllJobs(c)| <= c.fileCap then AllJobs(c) else AllJobs(c)[..c.fileCap]
  }

  /** What runScan returns once every worker is back; `clam` are the findings
      another engine put first, with its keys in `seen`. */
  function Findings(s: State, clam: seq<Finding>, seen: set<string>): seq<Finding> {
    clam + FirstPerFile(ByIndex(s.output), seen)
  }

  predicate OtherEngineKeys(seen: set<string>) {
    forall key :: key in seen ==> key != "" && key[0] != 'h'
  }

  lemma {:induction false} AllReturnedHoldNothing(ws: seq<Worker>, i: nat)
    requires forall w :: 0 <= w < |ws| ==> ws[w] == Returned
    ensures Held(ws, i) == 0
  {
    if ws != [] {
      AllReturnedHoldNothing(ws[..|ws| - 1], i);
    }
  }

  lemma SentWithinJobs(c: Config, s: State)
    requires WalkInv(c, s)
    ensures s.sent <= AllJobs(c)
  {
    JobsPrefix(c, s.next, |c.visits|);
  }

  lemma FindingsAreCollected(c: Config, s: State, clam: seq<Finding>, seen: set<string>)
    requires ValidConfig(c) && Inv(c, s) && OtherEngineKeys(seen)
    ensures Findings(s, clam, seen) == clam + FindingsOf(Collect(c, s.sent, s.judged, |s.sent|))
  {
    SortedOutputIsCollected(c, s);
    SentWithinJobs(c, s);
    CollectedPathsDiffer(c, s.sent, s.judged);
    NoFileTwice(Collect(c, s.sent, s.judged, |s.sent|), seen);
  }

  lemma DoneJudgesAll(c: Config, s: State)
    requires Inv(c, s) && Done(s) && !s.cancelled && |s.workers| >= 1
    ensures forall i: nat :: s.judged[i] == Once(i < s.dispatched)
    ensures s.sent == CappedJobs(c)
    ensures Complete(s) <==> |AllJobs(c)| <= c.fileCap
  {
    assert s.workers[0] == Returned;
    forall i: nat ensures s.judged[i] == Once(i < s.dispatched) {
      AllReturnedHoldNothing(s.workers, i);
      assert PlaceAt(s, i);
    }
    JobsPrefix(c, s.next, |c.visits|);
  }

  lemma {:induction false} WorkersStay(c: Config, run: seq<State>, i: nat)
    requires IsRun(c, run) && i < |run|
    ensures |run[i].workers| == c.workers
  {
    hide Judge, Jobs, InTree, MarkClean, Eligible, Unchanged;
    if i > 0 {
      WorkersStay(c, run, i - 1);
      assert StepAt(c, run, i - 1);
    }
  }

  /** Once everything dispatched is judged, the findings are the sequential ones. */
  lemma JudgedAllFindings(c: Config, s: State, clam: seq<Finding>, seen: set<string>)
    requires ValidConfig(c) && Inv(c, s) && OtherEngineKeys(seen)
    requires forall i :: 0 <= i < |s.sent| ==> i in s.judged
    ensures InTree(c, s.sent) && Findings(s, clam, seen) == clam + Sequential(c, s.sent)
  {
    hide Inv, InTree, Findings, Judge, Collect, FindingsOf, Jobs, Sequential, OtherEngineKeys, ValidConfig;
    SentInTree(c, s);
    FindingsAreCollected(c, s, clam, seen);
    CollectedIsSequential(c, s.sent, s.judged, |s.sent|);
    assert s.sent[..|s.sent|] == s.sent;
  }

  lemma SentInTree(c: Config, s: State)
    requires Inv(c, s)
    ensures InTree(c, s.sent)
  {}

  lemma JudgedIfDispatched(c: Config, s: State)
    requires Inv(c, s) && forall i: nat :: s.judged[i] == Once(i < s.dispatched)
    ensures forall i :: 0 <= i < |s.sent| ==> i in s.judged
  {
    hide Jobs, OutputInv, PlaceInv, JobsMatch, EndInv, InTree;
    forall i | 0 <= i < |s.sent|
      ensures i in s.judged
    {
      assert s.judged[i] == Once(i < s.dispatched);
    }
  }

  /** DETERMINISM. For any number of workers and any interleaving that is not
      cancelled, every dispatched file is judged exactly once and the findings
      are those of the sequential scan of the capped job list, in walk order; the
      scan is reported complete exactly when the cap did not bite. */
  lemma UncancelledScan(c: Config, run: seq<State>, clam: seq<Finding>, seen: set<string>)
    requires ValidConfig(c) && IsRun(c, run) && OtherEngineKeys(seen)
    requires Done(run[|run| - 1]) && !run[|run| - 1].cancelled
    ensures var s := run[|run| - 1];
            && (forall i: nat :: s.judged[i] == Once(i < s.dispatched))
            && Findings(s, clam, seen) == clam + Sequential(c, CappedJobs(c))
            && (Complete(s) <==> |AllJobs(c)| <= c.fileCap)
  {
    var s := run[|run| - 1];
    assert c.workers >= 1;
    hide ValidConfig, IsRun, Inv, Findings, Sequential, Jobs, Done, CappedJobs, OtherEngineKeys, Once, Complete;
    RunInv(c, run, |run| - 1);
    WorkersStay(c, run, |run| - 1);
    DoneJudgesAll(c, s);
    JudgedIfDispatched(c, s);
    JudgedAllFindings(c, s, clam, seen);
  }

  /** What the scan is for: an entry that is a listed file outside the excluded paths, that
      the rules may read or a layer holds against its place, that could be looked at and did
      not go past the cache unchanged, and whose evidence reaches the reporting threshold. */
  predicate IsReported(c: Config, e: Entry, f: Finding) {
    var readable := c.ruleEngine && e.readLimit > 0;
    var placed := if c.locationHeuristics then e.located else [];
    var evidence := placed + if readable && e.readOk then e.evaluated else [];
    && !e.failed && !e.dir && !e.excluded && e.statOk && (readable || placed != [])
    && !(c.cached && e.key != "" && e.path in c.known && c.known[e.path] == e.key)
    && TotalScore(evidence) >= SCORE_SUSPICIOUS
    && f.path == e.path && f.score == TotalScore(evidence) && f.level == VerdictLevel(evidence, c.critical)
    && f.signature == Best(evidence).1 && f.names == Names(evidence)
  }

  lemma JudgedIff(c: Config, e: Entry, f: Finding)
    ensures Eligible(c, e) && !Unchanged(c, e) && Judge(c, e) == Some(f) <==> IsReported(c, e, f)
  {
    hide TotalScore, VerdictLevel, Best, Names;
    ClearIffBelowSuspicious(MatchesOf(c, e), c.critical);
  }

  ghost predicate ReportedBefore(c: Config, k: nat, f: Finding)
    requires k <= |c.visits|
  {
    exists v: nat :: v < k && IsReported(c, c.visits[v], f)
  }

  /** What one more entry adds. */
  lemma OneMoreEntry(c: Config, k: nat, f: Finding)
    requires k < |c.visits|
    ensures f in Sequential(c, Jobs(c, k + 1)) <==> f in Sequential(c, Jobs(c, k)) || IsReported(c, c.visits[k], f)
  {
    hide Eligible, Unchanged, Judge, IsReported, Sequential;
    var e, before := c.visits[k], Jobs(c, k);
    JudgedIff(c, e, f);
    if Eligible(c, e) && !Unchanged(c, e) {
      JobAppended(c, before, k);
    } else {
      assert before + [] == before;
    }
  }

  lemma JobAppended(c: Config, jobs: seq<nat>, v: nat)
    requires InTree(c, jobs) && v < |c.visits|
    ensures InTree(c, jobs + [v]) && Sequential(c, jobs + [v]) == Sequential(c, jobs) + Found(c, v)
  {
    assert (jobs + [v])[..|jobs|] == jobs;
  }

  lemma {:induction false} ReportedBeforeIff(c: Config, k: nat, f: Finding)
    requires k <= |c.visits|
    ensures f in Sequential(c, Jobs(c, k)) <==> ReportedBefore(c, k, f)
  {
    hide Jobs, Sequential, IsReported;
    if k > 0 {
      ReportedBeforeIff(c, k - 1, f);
      OneMoreEntry(c, k - 1, f);
    } else {
      NoJobs(c);
    }
  }

  lemma NoJobs(c: Config)
    ensures Sequential(c, Jobs(c, 0)) == []
  {}

  /** A FILE IS REPORTED, EXACTLY. The findings of a complete scan are those of the other
      engine and one for every entry that is to be reported. */
  lemma FileIsReportedIff(c: Config, run: seq<State>, clam: seq<Finding>, seen: set<string>, f: Finding)
    requires ValidConfig(c) && IsRun(c, run) && OtherEngineKeys(seen)
    requires Done(run[|run| - 1]) && !run[|run| - 1].cancelled && Complete(run[|run| - 1])
    ensures f in Findings(run[|run| - 1], clam, seen) <==> f in clam || ReportedBefore(c, |c.visits|, f)
  {
    hide IsRun, Findings, Sequential, Jobs, Complete, Done, ReportedBefore;
    UncancelledScan(c, run, clam, seen);
    ReportedBeforeIff(c, |c.visits|, f);
  }

  // ------------------------------------------------------------- its counters

  /** How many of the first k entries are to be looked at, and how many of those the cache
      passes over. */
  function Looked(c: Config, k: nat): nat
    requires k <= |c.visits|
  {
    if k == 0 then 0 else Looked(c, k - 1) + Once(Eligible(c, c.visits[k - 1]))
  }

  function PassedOver(c: Config, k: nat): nat
    requires k <= |c.visits|
  {
    if k == 0 then 0
    else PassedOver(c, k - 1) + Once(Eligible(c, c.visits[k - 1]) && Unchanged(c, c.visits[k - 1]))
  }

  predicate Counts(c: Config, s: State) {
    && s.next <= |c.visits|
    && s.scanned + s.skipped == Looked(c, s.next) && s.skipped == PassedOver(c, s.next)
  }

  lemma StepKeepsCounts(c: Config, s: State, step: Step)
    requires Counts(c, s) && Enabled(c, s, step)
    ensures Counts(c, Apply(c, s, step))
  {
    hide Eligible, Unchanged, Judge, MarkClean;
    if step == Visit && s.next < |c.visits| {
      ReachesLists(c, c.visits[s.next]);
    }
  }

  lemma ReachesLists(c: Config, e: Entry)
    ensures Eligible(c, e) ==> !e.failed
  {}

  /** THE COUNTERS ADD UP. At every point of every run the entries scanned and skipped are
      those of the entries so far that were to be looked at, and the skipped ones those that
      the cache passes over; the entry at which the cap ends the walk counts as scanned. */
  lemma {:induction false} CountersAddUp(c: Config, run: seq<State>, i: nat)
    requires IsRun(c, run) && i < |run|
    ensures Counts(c, run[i])
  {
    hide Apply, Enabled, Counts;
    if i == 0 {
      NothingCounted(c);
    } else {
      CountersAddUp(c, run, i - 1);
      assert StepAt(c, run, i - 1);
      var step :| Enabled(c, run[i - 1], step) && run[i] == Apply(c, run[i - 1], step);
      StepKeepsCounts(c, run[i - 1], step);
    }
  }

  lemma NothingCounted(c: Config)
    ensures Counts(c, Start(c))
  {}

  /** The entries sent, with the one in hand. */
  function Promised(s: State): nat {
    s.dispatched + Once(s.phase.Sending?)
  }

  /** The walk has not gone on. */
  predicate StandsStill(s: State, s': State) {
    s'.scanned == s.scanned && s'.skipped == s.skipped && Promised(s') <= Promised(s)
  }

  lemma VisitAfterCancel(c: Config, s: State)
    requires s.cancelled && s.phase == Walking
    ensures StandsStill(s, VisitNext(c, s))
  {
    hide Eligible, Unchanged, MarkClean;
  }

  lemma StepAfterCancel(c: Config, s: State, step: Step)
    requires s.cancelled && Enabled(c, s, step)
    ensures Apply(c, s, step).cancelled && StandsStill(s, Apply(c, s, step))
  {
    hide Judge, MarkClean, VisitNext;
    if step == Visit {
      VisitAfterCancel(c, s);
      VisitKeepsPlaces(c, s);
    }
  }

  /** A CANCELLED WALK LOOKS AT NOTHING MORE: from the cancellation on no entry is scanned or
      skipped, and none but the one in hand is still sent. */
  lemma {:induction false} CancelStopsTheWalk(c: Config, run: seq<State>, i: nat, j: nat)
    requires IsRun(c, run) && i <= j < |run| && run[i].cancelled
    ensures run[j].cancelled && StandsStill(run[i], run[j])
    decreases j
  {
    hide Apply, Enabled;
    if i < j {
      CancelStopsTheWalk(c, run, i, j - 1);
      assert StepAt(c, run, j - 1);
      var step :| Enabled(c, run[j - 1], step) && run[j] == Apply(c, run[j - 1], step);
      StepAfterCancel(c, run[j - 1], step);
    }
  }

  lemma CollectedWithin(c: Config, sent: seq<nat>, judged: multiset<nat>, all: seq<nat>)
    requires InTree(c, sent) && InTree(c, all) && sent <= all
    ensures Subsequence(FindingsOf(Collect(c, sent, judged, |sent|)), Sequential(c, all))
  {
    hide Collect, FindingsOf, Sequential, Subsequence;
    CollectedIsSubsequence(c, sent, judged, |sent|);
    assert sent[..|sent|] == sent;
    SequentialPrefix(c, sent, all);
    var more := Sequential(c, all)[|Sequential(c, sent)|..];
    assert Sequential(c, all) == Sequential(c, sent) + more;
    SubsequenceExtends(FindingsOf(Collect(c, sent, judged, |sent|)), Sequential(c, sent), more);
  }

  lemma FindingsAreSubsequence(c: Config, s: State, clam: seq<Finding>, seen: set<string>)
    requires ValidConfig(c) && Inv(c, s) && OtherEngineKeys(seen)
    ensures clam <= Findings(s, clam, seen)
    ensures Subsequence(Findings(s, clam, seen)[|clam|..], Sequential(c, AllJobs(c)))
  {
    hide Findings, Judge, Collect, FindingsOf, Jobs, Sequential, Subsequence, OutputInv, PlaceInv, Matches, EndInv;
    SentWithinJobs(c, s);
    FindingsAreCollected(c, s, clam, seen);
    CollectedWithin(c, s.sent, s.judged, AllJobs(c));
  }

  lemma JudgedAtMostOnce(c: Config, s: State, i: nat)
    requires Inv(c, s)
    ensures s.judged[i] <= 1
  {
    assert PlaceAt(s, i);
  }

  lemma CappedIsNotComplete(c: Config, s: State)
    requires Inv(c, s) && Done(s) && |s.workers| >= 1
    ensures s.cancelled || |AllJobs(c)| > c.fileCap ==> !Complete(s)
    ensures !s.cancelled && Complete(s) ==> CappedJobs(c) == AllJobs(c)
  {
    if !s.cancelled {
      DoneJudgesAll(c, s);
    }
  }

  /** The scan invents no finding and reorders none, no file is judged twice, and only a
      scan of every job is reported complete. */
  ghost predicate InventsNothing(c: Config, s: State, clam: seq<Finding>, seen: set<string>) {
    && (forall i: nat :: s.judged[i] <= 1)
    && clam <= Findings(s, clam, seen)
    && Subsequence(Findings(s, clam, seen)[|clam|..], Sequential(c, AllJobs(c)))
    && (Complete(s) ==> Findings(s, clam, seen) == clam + Sequential(c, AllJobs(c)))
    && (s.cancelled || |AllJobs(c)| > c.fileCap ==> !Complete(s))
  }

  lemma EndInventsNothing(c: Config, s: State, clam: seq<Finding>, seen: set<string>)
    requires ValidConfig(c) && Inv(c, s) && OtherEngineKeys(seen) && Done(s) && |s.workers| >= 1
    requires !s.cancelled ==> Findings(s, clam, seen) == clam + Sequential(c, CappedJobs(c))
    ensures InventsNothing(c, s, clam, seen)
  {
    hide ValidConfig, Findings, Subsequence, Sequential, Jobs, Inv, Done, CappedJobs, OtherEngineKeys;
    forall i: nat
      ensures s.judged[i] <= 1
    {
      JudgedAtMostOnce(c, s, i);
    }
    FindingsAreSubsequence(c, s, clam, seen);
    CappedIsNotComplete(c, s);
  }

  /** Whatever happened, including a cancellation at any point. */
  lemma AnyScan(c: Config, run: seq<State>, clam: seq<Finding>, seen: set<string>)
    requires ValidConfig(c) && IsRun(c, run) && OtherEngineKeys(seen)
    requires Done(run[|run| - 1])
    ensures InventsNothing(c, run[|run| - 1], clam, seen)
  {
    hide InventsNothing, Findings, Sequential, Jobs, Inv, Done, CappedJobs, OtherEngineKeys, Once, Complete;
    var s := run[|run| - 1];
    hide IsRun;
    RunInv(c, run, |run| - 1);
    WorkersStay(c, run, |run| - 1);
    if !s.cancelled {
      UncancelledScan(c, run, clam, seen);
    }
    EndInventsNothing(c, s, clam, seen);
  }

  // -------------------------------------------------------------- it ends

  function WorkerWork(w: Worker): nat {
    match w
    case Returned => 0
    case Idle => 1
    case Reading(_) => 2
    case Waiting(_) => 3
  }

  function WorkersWork(ws: seq<Worker>): nat {
    if ws == [] then 0 else WorkersWork(ws[..|ws| - 1]) + WorkerWork(ws[|ws| - 1])
  }

  function PhaseWork(p: Phase): nat {
    if p.Sending? then 6 else if p == Walking then 2 else 1
  }

  /** What a scan still has to do. */
  function Work(c: Config, s: State): int {
    5 * (|c.visits| - s.next) + PhaseWork(s.phase) + 3 * |s.queue| + WorkersWork(s.workers)
    + Once(!s.closed) + Once(!s.cancelled)
  }

  lemma {:induction false} WorkersWorkUpdate(ws: seq<Worker>, w: nat, x: Worker)
    requires w < |ws|
    ensures WorkersWork(ws[w := x]) == WorkersWork(ws) - WorkerWork(ws[w]) + WorkerWork(x)
  {
    var n := |ws| - 1;
    if w < n {
      WorkersWorkUpdate(ws[..n], w, x);
      assert ws[w := x][..n] == ws[..n][w := x];
    } else {
      assert ws[w := x][..n] == ws[..n];
    }
  }

  lemma VisitLeavesLess(c: Config, s: State)
    requires WalkInv(c, s) && s.phase == Walking
    ensures 0 <= Work(c, VisitNext(c, s)) < Work(c, s)
  {
    hide Jobs, InTree, MarkClean, WorkersWork, Eligible, Unchanged;
  }

  /** Every step but a repeated cancellation leaves less to do. */
  lemma StepLeavesLess(c: Config, s: State, step: Step)
    requires WalkInv(c, s) && Enabled(c, s, step) && (step.Cancel? ==> !s.cancelled)
    ensures 0 <= Work(c, Apply(c, s, step)) < Work(c, s)
  {
    hide Judge, Jobs, InTree, MarkClean, WorkersWork, VisitNext;
    match step
    case Visit => VisitLeavesLess(c, s);
    case Receive(w) => WorkersWorkUpdate(s.workers, w, Waiting(s.queue[0]));
    case Tick(w) => WorkersWorkUpdate(s.workers, w, Reading(s.workers[w].job));
    case Quit(w) => WorkersWorkUpdate(s.workers, w, Returned);
    case Commit(w) => WorkersWorkUpdate(s.workers, w, Idle);
    case Exit(w) => WorkersWorkUpdate(s.workers, w, Returned);
    case _ =>
  }

  /** NO DEADLOCK. As long as a scan is not done, the walk or some worker can take a
      step: a full channel, a cancellation or an early return never leaves the walk
      waiting for a worker that is gone. */
  lemma NeverStuck(c: Config, s: State) returns (step: Step)
    requires c.workers >= 1 && Inv(c, s) && |s.workers| == c.workers && !Done(s)
    ensures !step.Cancel? && Enabled(c, s, step)
  {
    hide Judge, Jobs, OutputInv, PlaceInv, JobsMatch;
    if s.phase == Walking {
      step := Visit;
    } else if s.phase.Sending? && |s.queue| < c.workers * 4 {
      step := Send;
    } else if s.phase.Sending? && s.cancelled {
      step := Abort;
    } else if !s.phase.Sending? && !s.closed {
      step := Close;
    } else {
      var w := Unreturned(c, s);
      match s.workers[w]
      case Idle => step := if s.queue != [] then Receive(w) else Exit(w);
      case Waiting(_) => step := Tick(w);
      case Reading(_) => step := Commit(w);
    }
  }

  lemma Unreturned(c: Config, s: State) returns (w: nat)
    requires c.workers >= 1 && EndInv(s) && |s.workers| == c.workers && !Done(s)
    requires s.closed || (s.phase.Sending? && !s.cancelled && s.queue != [])
    ensures w < |s.workers| && s.workers[w] != Returned
  {
    if s.closed {
      w :| w < |s.workers| && s.workers[w] != Returned;
    } else {
      w := 0;
    }
  }

  /** Every step but a repeated cancellation, in a run. */
  ghost predicate Moves(c: Config, run: seq<State>, i: nat)
    requires i + 1 < |run|
  {
    exists step :: Enabled(c, run[i], step) && run[i + 1] == Apply(c, run[i], step)
                   && (step.Cancel? ==> !run[i].cancelled)
  }

  lemma MoveOf(c: Config, run: seq<State>, i: nat) returns (step: Step)
    requires i + 1 < |run| && Moves(c, run, i)
    ensures Enabled(c, run[i], step) && run[i + 1] == Apply(c, run[i], step)
    ensures step.Cancel? ==> !run[i].cancelled
  {
    hide Apply, Enabled;
    step :| Enabled(c, run[i], step) && run[i + 1] == Apply(c, run[i], step) && (step.Cancel? ==> !run[i].cancelled);
  }

  /** EVERY SCAN ENDS. No run has more than five steps for each entry, one for each
      worker and four more: with NeverStuck, every scan comes to its end, cancelled
      or not. */
  lemma {:induction false} RunsAreShort(c: Config, run: seq<State>, i: nat)
    requires IsRun(c, run) && i < |run| && forall k :: 0 <= k < |run| - 1 ==> Moves(c, run, k)
    ensures Work(c, run[i]) + i <= Work(c, run[0])
    ensures Work(c, run[0]) == 5 * |c.visits| + c.workers + 4
    ensures 0 <= Work(c, run[i])
  {
    hide Apply, Enabled, Inv, WorkersWork;
    if i == 0 {
      StartWork(c);
    } else {
      RunsAreShort(c, run, i - 1);
      RunInv(c, run, i - 1);
      var step := MoveOf(c, run, i - 1);
      InvWalks(c, run[i - 1]);
      StepLeavesLess(c, run[i - 1], step);
    }
  }

  lemma InvWalks(c: Config, s: State)
    requires Inv(c, s)
    ensures WalkInv(c, s)
  {}

  lemma StartWork(c: Config)
    ensures Work(c, Start(c)) == 5 * |c.visits| + c.workers + 4
  {
    IdleWork(c.workers);
  }

  lemma {:induction false} IdleWork(n: nat)
    ensures WorkersWork(seq(n, i => Idle)) == n
  {
    if n > 0 {
      IdleWork(n - 1);
      assert seq(n, i => Idle)[..n - 1] == seq(n - 1, i => Idle);
    }
  }
}
