/** A sweep over several roots (internal/antivirus/worker.go). */
module Roots {
  import opened ScanPool

  /** What runScan answers for one root. `complete` holds a first look at the
      context, from inside runScan; `over` is a second one, taken after it
      returned: the deadline may fall between the two. */
  datatype RootResult = RootResult(scanned: nat, skipped: nat, findings: seq<Finding>, complete: bool, over: bool)

  datatype ScanResult = ScanResult(scanned: nat, skipped: nat, findings: seq<Finding>, partial: bool)

  /** The roots a sweep really runs: it stops after the one its budget ended in. */
  function RootsRun(rs: seq<RootResult>): seq<RootResult> {
    if rs == [] then [] else if rs[0].over then [rs[0]] else [rs[0]] + RootsRun(rs[1..])
  }

  function Merge(rs: seq<RootResult>): ScanResult {
    if rs == [] then ScanResult(0, 0, [], false)
    else
      var m := Merge(rs[..|rs| - 1]);
      var r := rs[|rs| - 1];
      ScanResult(m.scanned + r.scanned, m.skipped + r.skipped, m.findings + r.findings, m.partial || !r.complete)
  }

  lemma RootsRunUnfolds(rs: seq<RootResult>, k: nat)
    requires k <= |rs|
    ensures RootsRun(rs[k..]) ==
            if k == |rs| then [] else if rs[k].over then [rs[k]] else [rs[k]] + RootsRun(rs[k + 1..])
    ensures rs[0..] == rs
  {
    if k < |rs| {
      assert rs[k..][1..] == rs[k + 1..];
    }
  }

  method ExecuteScan(rs: seq<RootResult>) returns (result: ScanResult)
    ensures result == Merge(RootsRun(rs))
  {
    hide RootsRun;
    RootsRunUnfolds(rs, 0);
    result := ScanResult(0, 0, [], false);
    ghost var ran: seq<RootResult> := [];
    for k := 0 to |rs|
      invariant result == Merge(ran)
      invariant ran + RootsRun(rs[k..]) == RootsRun(rs)
    {
      var r := rs[k];
      RootsRunUnfolds(rs, k);
      assert (ran + [r])[..|ran|] == ran;
      assert ran + ([r] + RootsRun(rs[k + 1..])) == ran + [r] + RootsRun(rs[k + 1..]);
      ran := ran + [r];
      result := ScanResult(result.scanned + r.scanned, result.skipped + r.skipped,
                           result.findings + r.findings, result.partial || !r.complete);
      if r.over {
        return;
      }
    }
    RootsRunUnfolds(rs, |rs|);
    assert ran + [] == ran;
  }

  /** THE MERGE LOSES NOTHING. The result of more roots is that of the first ones and that of
      the others, findings in order; and one root's result is its own. */
  lemma {:induction false} MergeSplits(a: seq<RootResult>, b: seq<RootResult>)
    ensures var m, n, all := Merge(a), Merge(b), Merge(a + b);
            && all.scanned == m.scanned + n.scanned && all.skipped == m.skipped + n.skipped
            && all.findings == m.findings + n.findings && all.partial == (m.partial || n.partial)
  {
    if b == [] {
      assert a + b == a && Merge(a).findings + [] == Merge(a).findings;
    } else {
      var init := b[..|b| - 1];
      MergeSplits(a, init);
      assert (a + b)[..|a + b| - 1] == a + init;
      var f := b[|b| - 1].findings;
      assert Merge(a).findings + Merge(init).findings + f == Merge(a).findings + (Merge(init).findings + f);
    }
  }

  lemma MergeOne(r: RootResult)
    ensures Merge([r]) == ScanResult(r.scanned, r.skipped, r.findings, !r.complete)
  {
    assert [r][..0] == [] && [] + r.findings == r.findings;
  }

  lemma {:induction false} MergePartial(rs: seq<RootResult>)
    ensures Merge(rs).partial <==> exists k :: 0 <= k < |rs| && !rs[k].complete
  {
    if rs != [] {
      MergePartial(rs[..|rs| - 1]);
      assert forall k :: 0 <= k < |rs| - 1 ==> rs[..|rs| - 1][k] == rs[k];
    }
  }

  /** Root `k` is the one after which the sweep stops. */
  predicate StopsAt(rs: seq<RootResult>, k: nat) {
    k < |rs| && rs[k].over && forall j :: 0 <= j < k ==> !rs[j].over
  }

  lemma {:induction false} RunsUpTo(rs: seq<RootResult>, k: nat)
    requires StopsAt(rs, k)
    ensures RootsRun(rs) == rs[..k + 1]
  {
    if k > 0 {
      RunsUpTo(rs[1..], k - 1);
      assert rs[..k + 1] == [rs[0]] + rs[1..][..k];
    }
  }

  lemma {:induction false} RunsAll(rs: seq<RootResult>)
    requires forall k :: 0 <= k < |rs| ==> !rs[k].over
    ensures RootsRun(rs) == rs
  {
    if rs != [] {
      RunsAll(rs[1..]);
    }
  }

  lemma {:induction false} FirstStop(rs: seq<RootResult>, k: nat) returns (first: nat)
    requires k < |rs| && rs[k].over
    ensures StopsAt(rs, first)
  {
    first := k;
    if j :| 0 <= j < k && rs[j].over {
      first := FirstStop(rs, j);
    }
  }

  /** The deadline fell between the two looks at the context, after root `k`, which
      was complete like every root before it, and there are more roots. */
  predicate SlipsThrough(rs: seq<RootResult>, k: nat) {
    k + 1 < |rs| && StopsAt(rs, k) && forall j :: 0 <= j <= k ==> rs[j].complete
  }

  /** WHEN A SWEEP LIES ABOUT ITS COVERAGE, EXACTLY. A sweep is reported as not
      partial although it stopped before its last root if and only if the deadline
      slips through; in every other case it is not partial exactly when every root was
      run and complete. */
  lemma NotPartialCoversAll(rs: seq<RootResult>)
    ensures !Merge(RootsRun(rs)).partial && RootsRun(rs) != rs <==> exists k: nat :: SlipsThrough(rs, k)
    ensures !Merge(RootsRun(rs)).partial <==>
            (RootsRun(rs) == rs && forall k :: 0 <= k < |rs| ==> rs[k].complete) || exists k: nat :: SlipsThrough(rs, k)
  {
    hide Merge, RootsRun;
    var ran := RootsRun(rs);
    MergePartial(ran);
    if k: nat :| k < |rs| && rs[k].over {
      var stop := FirstStop(rs, k);
      RunsUpTo(rs, stop);
      assert !Merge(ran).partial <==> forall j :: 0 <= j <= stop ==> rs[j].complete;
      assert !Merge(ran).partial && stop + 1 < |rs| ==> SlipsThrough(rs, stop);
      assert forall j: nat :: SlipsThrough(rs, j) ==> j == stop;
    } else {
      RunsAll(rs);
    }
  }

  /** It happens: the first root is complete, the deadline falls, and the second root,
      never scanned, does not make the sweep partial. */
  lemma DeadlineSlipsThrough()
    ensures var rs := [RootResult(1, 0, [], true, true), RootResult(0, 0, [], false, true)];
            !Merge(RootsRun(rs)).partial && RootsRun(rs) == rs[..1] && !rs[1].complete
  {
    var first, second := RootResult(1, 0, [], true, true), RootResult(0, 0, [], false, true);
    var rs := [first, second];
    assert RootsRun(rs) == [first] == rs[..1];
    assert [first][..0] == [] && Merge([]).partial == false;
  }
}
