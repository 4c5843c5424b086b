/** The weighing that turns rule matches into one verdict per file
    (internal/antivirus/rules.go).

    Regular expressions are uninterpreted: a rule carries a predicate on the
    bytes it is tried against. */
module Rules {

  const SCORE_SUSPICIOUS := 50
  const SCORE_CRITICAL := 100

  const WEIGHT_PROOF := 100
  const WEIGHT_STRONG := 60
  const WEIGHT_MODERATE := 40

  /** `Clear` is the empty level string: no finding is written. */
  datatype Level = Clear | Suspicious | Critical

  datatype Match = Match(name: string, score: int, remote: bool, decoded: bool, informational: bool)

  datatype Rule = Rule(name: string, score: int, pattern: string -> bool, exts: seq<string>)

  // ---------------------------------------------------------------- rules

  predicate AppliesTo(h: Rule, ext: string) {
    |h.exts| == 0 || ext in h.exts
  }

  predicate Fires(h: Rule, ext: string, content: string) {
    AppliesTo(h, ext) && h.pattern(content)
  }

  /** The matches of a rule set, in rule order. */
  function Fired(rules: seq<Rule>, ext: string, content: string): seq<Match> {
    if rules == [] then []
    else
      var last := rules[|rules| - 1];
      Fired(rules[..|rules| - 1], ext, content) +
      if Fires(last, ext, content) then [Match(last.name, last.score, false, false, false)] else []
  }

  method EvaluateWith(rules: seq<Rule>, ext: string, content: string) returns (out: seq<Match>)
    ensures out == Fired(rules, ext, content)
  {
    out := [];
    for i := 0 to |rules|
      invariant out == Fired(rules[..i], ext, content)
    {
      assert rules[..i + 1][..i] == rules[..i];
      var h := rules[i];
      if !AppliesTo(h, ext) {
        continue;
      }
      if h.pattern(content) {
        out := out + [Match(h.name, h.score, false, false, false)];
      }
    }
    assert rules[..|rules|] == rules;
  }

  /** A rule contributes a match exactly when it is scoped to the extension and
      its pattern holds of the bytes, and every match is an in-clear shipped one. */
  lemma {:induction false} FiredIff(rules: seq<Rule>, ext: string, content: string, m: Match)
    ensures m in Fired(rules, ext, content) <==>
            exists i :: 0 <= i < |rules| && Fires(rules[i], ext, content)
                        && m == Match(rules[i].name, rules[i].score, false, false, false)
  {
    if rules != [] {
      var n := |rules| - 1;
      FiredIff(rules[..n], ext, content, m);
      if Fires(rules[n], ext, content) && m == Match(rules[n].name, rules[n].score, false, false, false) {
        assert m in Fired(rules, ext, content);
      }
      if i :| 0 <= i < n && Fires(rules[i], ext, content)
              && m == Match(rules[i].name, rules[i].score, false, false, false) {
        assert rules[..n][i] == rules[i];
      }
    }
  }

  // -------------------------------------------------------------- verdict

  /** The threshold an operator's setting really means: unset is the shipped
      value, and nothing can be set under the reporting threshold. */
  function EffectiveThreshold(critical: int): (t: int)
    ensures t >= SCORE_SUSPICIOUS
  {
    if critical <= 0 then SCORE_CRITICAL
    else if critical < SCORE_SUSPICIOUS then SCORE_SUSPICIOUS
    else critical
  }

  function LevelFor(score: int, critical: int): Level {
    if score >= EffectiveThreshold(critical) then Critical
    else if score >= SCORE_SUSPICIOUS then Suspicious
    else Clear
  }

  predicate InClear(m: Match) {
    !m.informational && !m.remote && !m.decoded
  }

  predicate Behavioural(m: Match) {
    InClear(m) && m.score >= WEIGHT_MODERATE
  }

  /** A match that carries the remote mark counts as remote whatever else it carries. */
  predicate IsRemote(m: Match) {
    !m.informational && m.remote
  }

  predicate IsDecoded(m: Match) {
    !m.informational && !m.remote && m.decoded
  }

  predicate HasClear(ms: seq<Match>) { exists m :: m in ms && InClear(m) }
  predicate HasBehavioural(ms: seq<Match>) { exists m :: m in ms && Behavioural(m) }
  predicate HasRemote(ms: seq<Match>) { exists m :: m in ms && IsRemote(m) }
  predicate HasDecoded(ms: seq<Match>) { exists m :: m in ms && IsDecoded(m) }

  /** Which kinds of match a verdict has met so far. */
  class VerdictEvidence {
    var clearBuiltIn: bool
    var clearBehavioural: bool
    var hasRemote: bool
    var hasDecoded: bool

    constructor ()
      ensures Describes([])
    {
      clearBuiltIn, clearBehavioural, hasRemote, hasDecoded := false, false, false, false;
    }

    ghost predicate Describes(ms: seq<Match>)
      reads this
    {
      && clearBuiltIn == HasClear(ms)
      && clearBehavioural == HasBehavioural(ms)
      && hasRemote == HasRemote(ms)
      && hasDecoded == HasDecoded(ms)
    }

    method Note(m: Match, ghost before: seq<Match>)
      requires !m.informational && Describes(before)
      modifies this
      ensures Describes(before + [m])
    {
      AppendEvidence(before, m);
      if m.remote {
        hasRemote := true;
      } else if m.decoded {
        hasDecoded := true;
      } else {
        clearBuiltIn := true;
        if m.score >= WEIGHT_MODERATE {
          clearBehavioural := true;
        }
      }
    }

    function LimitLevel(level: Level): Level
      reads this
    {
      if level == Critical && hasDecoded && !clearBehavioural then Suspicious
      else if level == Critical && hasRemote && !clearBuiltIn then Suspicious
      else level
    }
  }

  lemma AppendEvidence(ms: seq<Match>, m: Match)
    ensures HasClear(ms + [m]) <==> HasClear(ms) || InClear(m)
    ensures HasBehavioural(ms + [m]) <==> HasBehavioural(ms) || Behavioural(m)
    ensures HasRemote(ms + [m]) <==> HasRemote(ms) || IsRemote(m)
    ensures HasDecoded(ms + [m]) <==> HasDecoded(ms) || IsDecoded(m)
  {
    assert forall x :: x in ms + [m] <==> x in ms || x == m;
  }

  function Weight(m: Match): int {
    if m.informational then 0 else m.score
  }

  /** The summed weight; an informational tag weighs nothing. */
  function TotalScore(ms: seq<Match>): int {
    if ms == [] then 0 else TotalScore(ms[..|ms| - 1]) + Weight(ms[|ms| - 1])
  }

  /** Score and name of the strongest match; ties keep the earlier one. */
  function Best(ms: seq<Match>): (int, string) {
    if ms == [] then (0, "")
    else
      var b := Best(ms[..|ms| - 1]);
      var m := ms[|ms| - 1];
      if !m.informational && m.score > b.0 then (m.score, m.name) else b
  }

  function Names(ms: seq<Match>): seq<string> {
    seq(|ms|, i requires 0 <= i < |ms| => ms[i].name)
  }

  function VerdictLevel(ms: seq<Match>, critical: int): Level {
    var level := LevelFor(TotalScore(ms), critical);
    if level == Critical && HasDecoded(ms) && !HasBehavioural(ms) then Suspicious
    else if level == Critical && HasRemote(ms) && !HasClear(ms) then Suspicious
    else level
  }

  lemma NothingYet()
    ensures TotalScore([]) == 0 && Best([]) == (0, "") && Names([]) == []
    ensures !HasClear([]) && !HasBehavioural([]) && !HasRemote([]) && !HasDecoded([])
  {}

  lemma AppendSums(ms: seq<Match>, m: Match)
    ensures TotalScore(ms + [m]) == TotalScore(ms) + Weight(m)
    ensures Best(ms + [m]) == if !m.informational && m.score > Best(ms).0 then (m.score, m.name) else Best(ms)
    ensures Names(ms + [m]) == Names(ms) + [m.name]
  {
    assert (ms + [m])[..|ms|] == ms;
  }

  method Verdict(matches: seq<Match>, critical: int)
    returns (score: int, signature: string, names: seq<string>, level: Level)
    ensures score == TotalScore(matches)
    ensures signature == Best(matches).1
    ensures names == Names(matches)
    ensures level == VerdictLevel(matches, critical)
  {
    hide TotalScore, Best, Names, HasClear, HasBehavioural, HasRemote, HasDecoded;
    NothingYet();
    var best := 0;
    score, signature, names := 0, "", [];
    var evidence := new VerdictEvidence();
    for i := 0 to |matches|
      invariant fresh(evidence) && evidence.Describes(matches[..i])
      invariant score == TotalScore(matches[..i])
      invariant (best, signature) == Best(matches[..i])
      invariant names == Names(matches[..i])
    {
      var m := matches[i];
      assert matches[..i + 1] == matches[..i] + [m];
      AppendEvidence(matches[..i], m);
      AppendSums(matches[..i], m);
      names := names + [m.name];
      if m.informational {
        continue;
      }
      score := score + m.score;
      evidence.Note(m, matches[..i]);
      if m.score > best {
        best, signature := m.score, m.name;
      }
    }
    assert matches[..|matches|] == matches;
    level := evidence.LimitLevel(LevelFor(score, critical));
  }

  // ------------------------------------------------------------- theorems

  lemma {:induction false} EvidenceBehindScore(ms: seq<Match>)
    requires TotalScore(ms) > 0
    ensures HasClear(ms) || HasRemote(ms) || HasDecoded(ms)
  {
    var n := |ms| - 1;
    assert ms == ms[..n] + [ms[n]];
    AppendEvidence(ms[..n], ms[n]);
    if ms[n].informational {
      EvidenceBehindScore(ms[..n]);
    }
  }

  /** The gate in front of automatic containment, exactly: a file is critical
      when its score reaches the reporting threshold of 50 and the operator's own, which
      is 100 when it is not set, an in-clear shipped match stands behind it, and decoded
      evidence leans on a behavioural one. */
  lemma CriticalIff(ms: seq<Match>, critical: int)
    ensures VerdictLevel(ms, critical) == Critical <==>
            && TotalScore(ms) >= 50 && TotalScore(ms) >= (if critical <= 0 then 100 else critical)
            && HasClear(ms)
            && (HasDecoded(ms) ==> HasBehavioural(ms))
  {
    if TotalScore(ms) >= EffectiveThreshold(critical) {
      EvidenceBehindScore(ms);
    }
    if HasBehavioural(ms) {
      var m :| m in ms && Behavioural(m);
      assert InClear(m);
    }
  }

  /** No finding is written exactly when the score is under 50, whatever
      threshold the operator chose. The scan cache rests on this. */
  lemma ClearIffBelowSuspicious(ms: seq<Match>, critical: int)
    ensures VerdictLevel(ms, critical) == Clear <==> TotalScore(ms) < SCORE_SUSPICIOUS
  {}

  lemma {:induction false} TotalScoreConcat(a: seq<Match>, b: seq<Match>)
    ensures TotalScore(a + b) == TotalScore(a) + TotalScore(b)
  {
    if b == [] {
      assert a + b == a;
    } else {
      var n := |b| - 1;
      TotalScoreConcat(a, b[..n]);
      assert (a + b)[..|a + b| - 1] == a + b[..n];
    }
  }

  /** The score is the sum of what each match adds. */
  lemma TotalScoreOne(m: Match)
    ensures TotalScore([m]) == if m.informational then 0 else m.score
  {
    assert [m][..0] == [];
  }

  lemma {:induction false} TotalScorePermutes(a: seq<Match>, b: seq<Match>)
    requires multiset(a) == multiset(b)
    ensures TotalScore(a) == TotalScore(b)
    decreases |a|
  {
    if a == [] {
      assert |multiset(b)| == 0;
    } else {
      var n := |a| - 1;
      var last := a[n];
      assert last in multiset(a) && last in b;
      var k :| 0 <= k < |b| && b[k] == last;
      assert a == a[..n] + [last];
      assert b == b[..k] + ([last] + b[k + 1..]);
      var rest := b[..k] + b[k + 1..];
      assert multiset(a[..n]) == multiset(a) - multiset{last};
      assert multiset(rest) == multiset(b) - multiset{last};
      TotalScorePermutes(a[..n], rest);
      TotalScoreConcat(b[..k], [last] + b[k + 1..]);
      TotalScoreConcat([last], b[k + 1..]);
      TotalScoreConcat(b[..k], b[k + 1..]);
      assert [last][..0] == [];
    }
  }

  /** Score and level do not depend on the order in which the passes report. */
  lemma VerdictPermutes(a: seq<Match>, b: seq<Match>, critical: int)
    requires multiset(a) == multiset(b)
    ensures TotalScore(a) == TotalScore(b)
    ensures VerdictLevel(a, critical) == VerdictLevel(b, critical)
  {
    TotalScorePermutes(a, b);
    assert forall m :: m in a <==> m in multiset(a);
    assert forall m :: m in b <==> m in multiset(b);
  }

  function Evidential(ms: seq<Match>): seq<Match> {
    if ms == [] then []
    else
      var rest := Evidential(ms[..|ms| - 1]);
      var m := ms[|ms| - 1];
      if m.informational then rest else rest + [m]
  }

  lemma {:induction false} EvidentialKeepsWeight(ms: seq<Match>)
    ensures TotalScore(Evidential(ms)) == TotalScore(ms)
    ensures Best(Evidential(ms)) == Best(ms)
    ensures forall m :: m in Evidential(ms) <==> m in ms && !m.informational
  {
    if ms != [] {
      var n := |ms| - 1;
      EvidentialKeepsWeight(ms[..n]);
      assert ms == ms[..n] + [ms[n]];
      var rest := Evidential(ms[..n]);
      assert (rest + [ms[n]])[..|rest|] == rest;
    }
  }

  /** Informational tags change neither the score nor the signature nor the level. */
  lemma InformationalIsNeutral(ms: seq<Match>, critical: int)
    ensures TotalScore(Evidential(ms)) == TotalScore(ms)
    ensures Best(Evidential(ms)) == Best(ms)
    ensures VerdictLevel(Evidential(ms), critical) == VerdictLevel(ms, critical)
  {
    EvidentialKeepsWeight(ms);
  }

  /** The signature belongs to the first match of the greatest positive weight,
      and is empty when no match has positive weight. */
  lemma {:induction false} SignatureIsFirstStrongest(ms: seq<Match>)
    ensures Best(ms).0 >= 0
    ensures forall i :: 0 <= i < |ms| && !ms[i].informational ==> ms[i].score <= Best(ms).0
    ensures Best(ms).0 == 0 ==> Best(ms).1 == ""
    ensures Best(ms).0 > 0 ==>
              exists i :: 0 <= i < |ms| && !ms[i].informational
                          && (ms[i].score, ms[i].name) == Best(ms)
                          && forall j :: 0 <= j < i && !ms[j].informational ==> ms[j].score < ms[i].score
  {
    if ms != [] {
      var n := |ms| - 1;
      var init := ms[..n];
      SignatureIsFirstStrongest(init);
      if !ms[n].informational && ms[n].score > Best(init).0 {
        assert (ms[n].score, ms[n].name) == Best(ms);
        assert forall j :: 0 <= j < n ==> ms[j] == init[j];
      } else if Best(init).0 > 0 {
        var i :| 0 <= i < |init| && !init[i].informational
                 && (init[i].score, init[i].name) == Best(init)
                 && forall j :: 0 <= j < i && !init[j].informational ==> init[j].score < init[i].score;
        assert ms[i] == init[i];
        assert forall j :: 0 <= j < i ==> ms[j] == init[j];
      }
    }
  }

  function Rank(l: Level): int {
    match l
    case Clear => 0
    case Suspicious => 1
    case Critical => 2
  }

  lemma InsertedEvidence(a: seq<Match>, m: Match, b: seq<Match>)
    ensures TotalScore(a + [m] + b) == TotalScore(a + b) + Weight(m)
    ensures HasClear(a + [m] + b) <==> HasClear(a + b) || InClear(m)
    ensures HasBehavioural(a + [m] + b) <==> HasBehavioural(a + b) || Behavioural(m)
    ensures HasRemote(a + [m] + b) <==> HasRemote(a + b) || IsRemote(m)
    ensures HasDecoded(a + [m] + b) <==> HasDecoded(a + b) || IsDecoded(m)
  {
    TotalScoreConcat(a + [m], b);
    TotalScoreConcat(a, [m]);
    TotalScoreConcat(a, b);
    assert [m][..0] == [];
    assert forall x :: x in a + [m] + b <==> x in a + b || x == m;
  }

  /** One more match of non-negative weight, wherever the passes put it, lowers
      the level exactly when it is a decoded one and the file was critical with
      no behavioural match in the clear. */
  lemma AddingLowersIff(a: seq<Match>, m: Match, b: seq<Match>, critical: int)
    requires m.score >= 0
    ensures Rank(VerdictLevel(a + [m] + b, critical)) < Rank(VerdictLevel(a + b, critical)) <==>
            && IsDecoded(m)
            && VerdictLevel(a + b, critical) == Critical
            && !HasBehavioural(a + b)
  {
    InsertedEvidence(a, m, b);
    CriticalIff(a + b, critical);
    CriticalIff(a + [m] + b, critical);
  }

  /** Raising the threshold only makes the panel more cautious. */
  lemma HigherThresholdNeverRaises(ms: seq<Match>, low: int, high: int)
    requires 0 < low <= high
    ensures Rank(VerdictLevel(ms, high)) <= Rank(VerdictLevel(ms, low))
  {
    CriticalIff(ms, low);
    CriticalIff(ms, high);
  }
}
