/** The cache from one sweep to the next: what a sweep records, why the next one may
    skip it, and what a cached sweep finds against an uncached one
    (internal/antivirus/rapidcache.go, antivirus.go:687-728). */
module CachedSweep {
  import opened Rules
  import opened ScanPool
  import opened Wrappers

  /** Every entry the cache would skip scored under the reporting threshold. The
      threshold an operator sets plays no part in this. */
  predicate CacheIsRight(c: Config) {
    forall i :: 0 <= i < |c.visits| && Eligible(c, c.visits[i]) && Unchanged(c, c.visits[i]) ==>
      TotalScore(MatchesOf(c, c.visits[i])) < SCORE_SUSPICIOUS
  }

  // --------------------------------------------------- what a sweep records

  /** This visit may be recorded: the file was skipped, or it was read and scored
      under the reporting threshold. */
  predicate Recorded(c: Config, v: nat, path: string, key: string) {
    && v < |c.visits| && c.visits[v].path == path && c.visits[v].key == key && key != ""
    && Eligible(c, c.visits[v])
    && (Unchanged(c, c.visits[v]) || TotalScore(MatchesOf(c, c.visits[v])) < SCORE_SUSPICIOUS)
  }

  ghost predicate CleanInv(c: Config, clean: map<string, string>) {
    forall p :: p in clean ==> exists v: nat :: Recorded(c, v, p, clean[p])
  }

  lemma MarkKeepsClean(c: Config, clean: map<string, string>, v: nat)
    requires CleanInv(c, clean) && v < |c.visits| && Eligible(c, c.visits[v])
    requires Unchanged(c, c.visits[v]) || TotalScore(MatchesOf(c, c.visits[v])) < SCORE_SUSPICIOUS
    ensures CleanInv(c, MarkClean(c, clean, c.visits[v]))
  {
    hide Eligible, Unchanged, TotalScore, MatchesOf;
    var e := c.visits[v];
    var clean' := MarkClean(c, clean, e);
    forall p | p in clean'
      ensures exists w: nat :: Recorded(c, w, p, clean'[p])
    {
      if p == e.path && clean' != clean {
        assert Recorded(c, v, p, clean'[p]);
      } else {
        assert p in clean && clean'[p] == clean[p];
      }
    }
  }

  lemma VisitKeepsClean(c: Config, s: State)
    requires CleanInv(c, s.clean)
    ensures CleanInv(c, VisitNext(c, s).clean)
  {
    hide CleanInv, MarkClean, Eligible, Unchanged;
    if s.next < |c.visits| {
      var e := c.visits[s.next];
      if Eligible(c, e) && Unchanged(c, e) {
        MarkKeepsClean(c, s.clean, s.next);
      }
    }
  }

  /** A dispatched job is an eligible visit. */
  lemma HeldIsEligible(c: Config, s: State, w: nat)
    requires WalkInv(c, s) && JobsMatch(s) && w < |s.workers| && Busy(s.workers[w])
    ensures s.workers[w].job.visit < |c.visits| && Eligible(c, c.visits[s.workers[w].job.visit])
  {
    hide Jobs, Eligible;
    var j := s.workers[w].job;
    assert Matches(s, j);
    SentWithinJobs(c, s);
    JobsAreEligible(c, |c.visits|, j.index);
  }

  lemma CommitKeepsClean(c: Config, s: State, w: nat)
    requires CleanInv(c, s.clean) && WalkInv(c, s) && JobsMatch(s) && Enabled(c, s, Commit(w))
    ensures CleanInv(c, Apply(c, s, Commit(w)).clean)
  {
    hide CleanInv, MarkClean, Eligible, Unchanged, WalkInv, JobsMatch, TotalScore, MatchesOf;
    HeldIsEligible(c, s, w);
    var v := s.workers[w].job.visit;
    if Judge(c, c.visits[v]).None? {
      ClearIffBelowSuspicious(MatchesOf(c, c.visits[v]), c.critical);
      MarkKeepsClean(c, s.clean, v);
    }
  }

  lemma CleanStep(c: Config, s: State, step: Step)
    requires CleanInv(c, s.clean) && WalkInv(c, s) && JobsMatch(s) && Enabled(c, s, step)
    ensures CleanInv(c, Apply(c, s, step).clean)
  {
    hide CleanInv, VisitNext, Judge, WalkInv, JobsMatch;
    match step
    case Visit => VisitKeepsClean(c, s);
    case Commit(w) => CommitKeepsClean(c, s, w);
    case _ =>
  }

  lemma NothingRecorded(c: Config)
    ensures CleanInv(c, Start(c).clean)
  {}

  lemma InvHas(c: Config, s: State)
    requires Inv(c, s)
    ensures WalkInv(c, s) && JobsMatch(s)
  {}

  lemma {:induction false} CleanRun(c: Config, run: seq<State>, i: nat)
    requires IsRun(c, run) && i < |run|
    ensures CleanInv(c, run[i].clean)
  {
    hide CleanInv, Apply, Enabled, Inv, Start;
    if i == 0 {
      NothingRecorded(c);
    } else {
      CleanRun(c, run, i - 1);
      RunInv(c, run, i - 1);
      InvHas(c, run[i - 1]);
      assert StepAt(c, run, i - 1);
      var step :| Enabled(c, run[i - 1], step) && run[i] == Apply(c, run[i - 1], step);
      CleanStep(c, run[i - 1], step);
    }
  }

  // ---------------------------------------------- and everything it passed

  /** This visit has an entry of its own. */
  predicate HasEntry(c: Config, clean: map<string, string>, v: nat)
    requires v < |c.visits|
  {
    c.visits[v].path in clean && clean[c.visits[v].path] == c.visits[v].key
  }

  /** A visit the cache of this sweep can keep. */
  predicate Keyed(c: Config, v: nat) {
    v < |c.visits| && c.cached && Eligible(c, c.visits[v]) && c.visits[v].key != ""
  }

  lemma MarkLeavesEntry(c: Config, clean: map<string, string>, v: nat, w: nat)
    requires ValidConfig(c) && Keyed(c, v) && w < |c.visits| && Eligible(c, c.visits[w])
    ensures HasEntry(c, clean, v) ==> HasEntry(c, MarkClean(c, clean, c.visits[w]), v)
    ensures HasEntry(c, MarkClean(c, clean, c.visits[v]), v)
  {
    hide Eligible;
  }

  lemma StepLeavesEntry(c: Config, s: State, step: Step, v: nat)
    requires ValidConfig(c) && Keyed(c, v) && WalkInv(c, s) && JobsMatch(s) && Enabled(c, s, step)
    ensures HasEntry(c, s.clean, v) ==> HasEntry(c, Apply(c, s, step).clean, v)
  {
    hide ValidConfig, Eligible, Unchanged, Judge, WalkInv, JobsMatch, MarkClean, HasEntry;
    match step
    case Visit =>
      if s.next < |c.visits| && Eligible(c, c.visits[s.next]) {
        MarkLeavesEntry(c, s.clean, v, s.next);
      }
    case Commit(w) =>
      HeldIsEligible(c, s, w);
      MarkLeavesEntry(c, s.clean, v, s.workers[w].job.visit);
    case _ =>
  }

  /** The visit was skipped by the walk, or its job was judged clear. */
  predicate Passed(c: Config, s: State, v: nat, i: nat)
    requires v < |c.visits|
  {
    || (v < s.next && Unchanged(c, c.visits[v]))
    || (i < |s.sent| && s.sent[i] == v && i in s.judged && Judge(c, c.visits[v]).None?)
  }

  lemma VisitPasses(c: Config, s: State, v: nat, i: nat)
    requires ValidConfig(c) && Keyed(c, v) && s.next <= |c.visits|
    requires !Passed(c, s, v, i) && Passed(c, VisitNext(c, s), v, i)
    ensures HasEntry(c, VisitNext(c, s).clean, v)
  {
    hide ValidConfig, Unchanged, Judge, MarkClean, HasEntry;
    VisitKeepsPlaces(c, s);
    MarkLeavesEntry(c, s.clean, v, v);
  }

  lemma CommitPasses(c: Config, s: State, w: nat, v: nat, i: nat)
    requires ValidConfig(c) && Keyed(c, v) && JobsMatch(s) && Enabled(c, s, Commit(w))
    requires !Passed(c, s, v, i) && Passed(c, Apply(c, s, Commit(w)), v, i)
    ensures HasEntry(c, Apply(c, s, Commit(w)).clean, v)
  {
    hide ValidConfig, Eligible, Unchanged, Judge, MarkClean, HasEntry;
    var j := s.workers[w].job;
    assert Matches(s, j);
    assert i == j.index;
    assert j.visit == v;
    MarkLeavesEntry(c, s.clean, v, v);
  }

  lemma SendPasses(c: Config, s: State, v: nat, i: nat)
    requires v < |c.visits| && WalkInv(c, s) && PlaceInv(s) && Enabled(c, s, Send)
    ensures Passed(c, Apply(c, s, Send), v, i) ==> Passed(c, s, v, i)
  {
    hide Eligible, Unchanged, Judge, Held, Queued;
    assert PlaceAt(s, |s.sent|);
  }

  lemma StepPasses(c: Config, s: State, step: Step, v: nat, i: nat)
    requires v < |c.visits| && ValidConfig(c) && Keyed(c, v) && Inv(c, s) && Enabled(c, s, step)
    requires Passed(c, s, v, i) ==> HasEntry(c, s.clean, v)
    ensures Passed(c, Apply(c, s, step), v, i) ==> HasEntry(c, Apply(c, s, step).clean, v)
  {
    hide ValidConfig, Eligible, Unchanged, Judge, MarkClean, HasEntry, JobsMatch, VisitNext, EndInv, OutputInv, Keyed;
    if Passed(c, s, v, i) {
      StepLeavesEntry(c, s, step, v);
    } else if step == Send {
      SendPasses(c, s, v, i);
    } else if Passed(c, Apply(c, s, step), v, i) {
      match step
      case Visit => VisitPasses(c, s, v, i);
      case Commit(w) => CommitPasses(c, s, w, v, i);
      case _ =>
    }
  }

  lemma {:induction false} PassedIsRecorded(c: Config, run: seq<State>, n: nat, v: nat, i: nat)
    requires ValidConfig(c) && IsRun(c, run) && n < |run| && v < |c.visits| && Keyed(c, v)
    ensures Passed(c, run[n], v, i) ==> HasEntry(c, run[n].clean, v)
    decreases n
  {
    hide ValidConfig, Apply, Enabled, Inv, HasEntry, Keyed;
    if n > 0 {
      PassedIsRecorded(c, run, n - 1, v, i);
      RunInv(c, run, n - 1);
      assert StepAt(c, run, n - 1);
      var step :| Enabled(c, run[n - 1], step) && run[n] == Apply(c, run[n - 1], step);
      StepPasses(c, run[n - 1], step, v, i);
    }
  }

  lemma {:induction false} JobOf(c: Config, k: nat, v: nat) returns (i: nat)
    requires v < k <= |c.visits| && Eligible(c, c.visits[v]) && !Unchanged(c, c.visits[v])
    ensures i < |Jobs(c, k)| && Jobs(c, k)[i] == v
    decreases k
  {
    hide Eligible, Unchanged;
    if v == k - 1 {
      i := |Jobs(c, k - 1)|;
    } else {
      i := JobOf(c, k - 1, v);
    }
  }

  lemma EntryIsRecorded(c: Config, clean: map<string, string>, v: nat)
    requires ValidConfig(c) && CleanInv(c, clean) && Keyed(c, v) && HasEntry(c, clean, v)
    ensures Unchanged(c, c.visits[v]) || TotalScore(MatchesOf(c, c.visits[v])) < SCORE_SUSPICIOUS
  {
    hide Eligible, Unchanged, TotalScore, MatchesOf;
    var w: nat :| Recorded(c, w, c.visits[v].path, c.visits[v].key);
    assert w == v;
  }

  /** WHAT A COMPLETE SWEEP RECORDS, EXACTLY. At the end of a complete sweep every file that
      was looked at and has a key has an entry of its own if and only if it was skipped or
      scored under the reporting threshold. */
  lemma CompleteSweepRecordsIff(c: Config, run: seq<State>, v: nat)
    requires ValidConfig(c) && IsRun(c, run) && Finishes(run) && Complete(run[|run| - 1]) && Keyed(c, v)
    ensures HasEntry(c, run[|run| - 1].clean, v)
            <==> Unchanged(c, c.visits[v]) || TotalScore(MatchesOf(c, c.visits[v])) < SCORE_SUSPICIOUS
  {
    hide Eligible, Unchanged, TotalScore, MatchesOf, IsRun, Jobs, PlaceInv, JobsMatch, EndInv, OutputInv;
    var n, e := |run| - 1, c.visits[v];
    var s := run[n];
    ClearIffBelowSuspicious(MatchesOf(c, e), c.critical);
    if Unchanged(c, e) || TotalScore(MatchesOf(c, e)) < SCORE_SUSPICIOUS {
      RunInv(c, run, n);
      var i: nat := 0;
      if !Unchanged(c, e) {
        i := JobOf(c, |c.visits|, v);
        WorkersStay(c, run, n);
        DoneJudgesAll(c, s);
        JudgedIfDispatched(c, s);
      }
      PassedIsRecorded(c, run, n, v, i);
    } else if HasEntry(c, s.clean, v) {
      CleanRun(c, run, n);
      EntryIsRecorded(c, s.clean, v);
    }
  }

  // -------------------------------------------------------- the next sweep

  /** A file that bears the same path and key in both sweeps weighs the same in both:
      a key never comes back after a change, both sweeps run the same layers and rules
      over the same roots, and a read that fails for one fails for the other. */
  predicate KeysTell(a: Config, b: Config) {
    forall i, j :: 0 <= i < |a.visits| && 0 <= j < |b.visits|
                   && Eligible(a, a.visits[i]) && Eligible(b, b.visits[j])
                   && a.visits[i].path == b.visits[j].path && a.visits[i].key == b.visits[j].key != "" ==>
      TotalScore(MatchesOf(a, a.visits[i])) == TotalScore(MatchesOf(b, b.visits[j]))
  }

  /** A SWEEP WRITES A RIGHT CACHE. Whatever a sweep with a right cache recorded, at any
      point of any run, cancelled or capped, under whatever threshold: a later sweep of
      the tree as it is then may skip every file whose key it holds, under whatever
      threshold that one runs. */
  lemma SweepWritesARightCache(a: Config, run: seq<State>, i: nat, b: Config)
    requires IsRun(a, run) && i < |run| && CacheIsRight(a)
    requires b.known == run[i].clean && KeysTell(a, b)
    ensures CacheIsRight(b)
  {
    hide Eligible, TotalScore, MatchesOf, IsRun;
    CleanRun(a, run, i);
    forall j | 0 <= j < |b.visits| && Eligible(b, b.visits[j]) && Unchanged(b, b.visits[j])
      ensures TotalScore(MatchesOf(b, b.visits[j])) < SCORE_SUSPICIOUS
    {
      var e := b.visits[j];
      var v: nat :| Recorded(a, v, e.path, e.key);
      assert TotalScore(MatchesOf(a, a.visits[v])) < SCORE_SUSPICIOUS;
    }
  }

  /** Over a tree that stands still, under any threshold, cap and number of workers,
      keys tell. */
  lemma SameTreeKeysTell(c: Config, known: map<string, string>, critical: int, fileCap: nat, workers: nat)
    requires ValidConfig(c)
    ensures KeysTell(c, c.(cached := true, known := known, critical := critical, fileCap := fileCap,
                           workers := workers))
  {
    hide TotalScore;
    var b := c.(cached := true, known := known, critical := critical, fileCap := fileCap, workers := workers);
    assert forall e :: Eligible(b, e) == Eligible(c, e) && MatchesOf(b, e) == MatchesOf(c, e);
  }

  // --------------------------------------------------------- many sweeps

  datatype Sweep = Sweep(config: Config, run: seq<State>)

  /** Sweep `k` starts from no cache, or from what an earlier one recorded in a tree
      whose keys tell. (A save that fails leaves the file of an earlier sweep; a load
      that fails, or another fingerprint, is no cache.) */
  ghost predicate Loads(history: seq<Sweep>, k: nat)
    requires k < |history|
  {
    || history[k].config.known == map[]
    || exists j: nat, i: nat :: LoadsFrom(history, k, j, i)
  }

  predicate LoadsFrom(history: seq<Sweep>, k: nat, j: nat, i: nat)
    requires k < |history|
  {
    && j < k && i < |history[j].run|
    && history[k].config.known == history[j].run[i].clean
    && KeysTell(history[j].config, history[k].config)
  }

  ghost predicate IsHistory(history: seq<Sweep>) {
    && (forall k :: 0 <= k < |history| ==> ValidConfig(history[k].config) && IsRun(history[k].config, history[k].run))
    && (forall k :: 0 <= k < |history| ==> Loads(history, k))
  }

  lemma NoCacheIsRight(c: Config)
    requires c.known == map[]
    ensures CacheIsRight(c)
  {}

  /** In every history of sweeps, over a tree that changes between them, with
      thresholds, caps, cancellations, failed saves and discarded caches, every sweep
      starts from a right cache. */
  lemma {:induction false} EverySweepHasARightCache(history: seq<Sweep>, k: nat)
    requires IsHistory(history) && k < |history|
    ensures CacheIsRight(history[k].config)
    decreases k
  {
    hide CacheIsRight, KeysTell, IsRun, ValidConfig;
    assert Loads(history, k);
    if history[k].config.known == map[] {
      NoCacheIsRight(history[k].config);
    } else {
      var j: nat, i: nat :| LoadsFrom(history, k, j, i);
      EverySweepHasARightCache(history, j);
      SweepWritesARightCache(history[j].config, history[j].run, i, history[k].config);
    }
  }

  // ---------------------------------------------- cached against uncached

  /** The same sweep without a cache, with any number of workers. */
  function Uncached(c: Config, workers: nat): Config {
    c.(cached := false, known := map[], workers := workers)
  }

  lemma {:induction false} SameFindings(c: Config, workers: nat, jobs: seq<nat>)
    requires InTree(c, jobs)
    ensures Sequential(Uncached(c, workers), jobs) == Sequential(c, jobs)
    decreases |jobs|
  {
    if jobs != [] {
      SameFindings(c, workers, jobs[..|jobs| - 1]);
    }
  }

  /** The files a right cache skips are files without a finding. */
  lemma {:induction false} SkippingLosesNothing(c: Config, workers: nat, k: nat)
    requires k <= |c.visits| && CacheIsRight(c)
    ensures Sequential(c, Jobs(c, k)) == Sequential(c, Jobs(Uncached(c, workers), k))
    ensures |Jobs(c, k)| <= |Jobs(Uncached(c, workers), k)|
  {
    hide Judge, Eligible, Unchanged, Sequential, VerdictLevel, TotalScore, MatchesOf;
    if k > 0 {
      var u := Uncached(c, workers);
      SkippingLosesNothing(c, workers, k - 1);
      var e := c.visits[k - 1];
      JobsOfUncached(c, workers, k);
      if Eligible(c, e) {
        JobAppended(c, Jobs(u, k - 1), k - 1);
        if Unchanged(c, e) {
          SkippedIsClear(c, k - 1);
          assert Jobs(c, k) == Jobs(c, k - 1);
          assert Sequential(c, Jobs(c, k - 1)) + [] == Sequential(c, Jobs(c, k - 1));
        } else {
          JobAppended(c, Jobs(c, k - 1), k - 1);
        }
      } else {
        assert Jobs(c, k) == Jobs(c, k - 1) && Jobs(u, k) == Jobs(u, k - 1);
      }
    }
  }

  lemma JobsOfUncached(c: Config, workers: nat, k: nat)
    requires 0 < k <= |c.visits|
    ensures Jobs(Uncached(c, workers), k) ==
            Jobs(Uncached(c, workers), k - 1) + if Eligible(c, c.visits[k - 1]) then [k - 1] else []
  {}

  lemma SkippedIsClear(c: Config, v: nat)
    requires v < |c.visits| && CacheIsRight(c)
    requires Eligible(c, c.visits[v]) && Unchanged(c, c.visits[v])
    ensures Found(c, v) == []
  {
    ClearIffBelowSuspicious(MatchesOf(c, c.visits[v]), c.critical);
  }

  /** Where the walk stands when it has dispatched exactly m jobs. */
  lemma {:induction false} StopsAt(c: Config, m: nat, n: nat) returns (k: nat)
    requires n <= |c.visits| && m <= |Jobs(c, n)|
    ensures k <= n && Jobs(c, k) == Jobs(c, n)[..m]
  {
    if |Jobs(c, n)| == m {
      k := n;
    } else {
      k := StopsAt(c, m, n - 1);
      JobsPrefix(c, n - 1, n);
    }
  }

  /** On job lists: with a right cache, the capped lists give the same findings, or the
      uncached ones a prefix when the cap stops it. */
  lemma CappedJobsAgree(c: Config, workers: nat)
    requires CacheIsRight(c)
    ensures var u := Uncached(c, workers);
            && (|AllJobs(u)| <= c.fileCap ==>
                  |AllJobs(c)| <= c.fileCap && Sequential(c, CappedJobs(c)) == Sequential(u, CappedJobs(u)))
            && Sequential(u, CappedJobs(u)) <= Sequential(c, CappedJobs(c))
  {
    hide Jobs, Sequential, CacheIsRight;
    var u, n := Uncached(c, workers), |c.visits|;
    SkippingLosesNothing(c, workers, n);
    SameFindings(c, workers, CappedJobs(u));
    if |AllJobs(u)| > c.fileCap {
      var k := StopsAt(u, c.fileCap, n);
      SkippingLosesNothing(c, workers, k);
      JobsPrefix(c, k, n);
      assert Jobs(c, k) <= CappedJobs(c);
      SequentialPrefix(c, Jobs(c, k), CappedJobs(c));
    }
  }

  /** A run that came to its end without a cancellation. */
  predicate Finishes(run: seq<State>) {
    run != [] && Done(run[|run| - 1]) && !run[|run| - 1].cancelled
  }

  lemma StillValid(c: Config, workers: nat)
    requires ValidConfig(c) && workers >= 1
    ensures ValidConfig(Uncached(c, workers))
  {}

  /** THE CACHE HIDES NOTHING. Take the last sweep of any history and an uncached sweep
      of the same tree, each with its own workers and its own interleaving, both run to
      their end: when the uncached one does not meet the file cap, neither does the
      cached one and their findings are equal; when it does, its findings are a prefix
      of the cached one's. */
  lemma CachedSweepAgrees(history: seq<Sweep>, k: nat, workers: nat, plain: seq<State>, clam: seq<Finding>,
                          seen: set<string>)
    requires IsHistory(history) && k < |history| && Finishes(history[k].run)
    requires workers >= 1 && IsRun(Uncached(history[k].config, workers), plain) && Finishes(plain)
    requires OtherEngineKeys(seen)
    ensures var cached, uncached := history[k].run[|history[k].run| - 1], plain[|plain| - 1];
            && (Complete(uncached) ==>
                  Complete(cached) && Findings(uncached, clam, seen) == Findings(cached, clam, seen))
            && Findings(uncached, clam, seen) <= Findings(cached, clam, seen)
  {
    var c, run := history[k].config, history[k].run;
    hide IsRun, ValidConfig, Findings, Complete, Sequential, Jobs, CappedJobs, CacheIsRight, OtherEngineKeys, Loads;
    EverySweepHasARightCache(history, k);
    hide IsHistory;
    StillValid(c, workers);
    CappedJobsAgree(c, workers);
    UncancelledScan(c, run, clam, seen);
    UncancelledScan(Uncached(c, workers), plain, clam, seen);
  }
}
