/** The semantic layer (internal/antivirus/semantic.go): constant concatenation
    is folded across assignments so that a rebuilt function name is seen.

    One `char` of a `string` stands for one byte of the file. */
module Semantic {
  import opened Rules

  const RESCAN_CAP := 60
  const MAX_FRAGMENTS := 4096
  const MAX_FOLD := 65536
  const MAX_INDEX := 256

  const RESCAN_PREFIX := "Semantic.Concat:"
  const CONCATENATED_SINK := "PHP.Semantic.ConcatenatedSink"
  const VARIABLE_SINK_CALL := "PHP.Semantic.VariableSinkCall"
  const TAINTED_NAME_CALL := "PHP.Semantic.TaintedNameCall"
  const SUPERGLOBAL_CALL := "PHP.Semantic.SuperglobalCall"
  const EVAL_CONCAT := "PHP.Semantic.EvalConcat"

  const HARD_SINKS: set<string> := {
    "system", "exec", "shell_exec", "passthru", "popen", "proc_open", "pcntl_exec", "assert", "create_function"
  }
  const SUPERGLOBALS: set<string> := {"$_GET", "$_POST", "$_REQUEST", "$_COOKIE", "$_SERVER", "$_FILES", "$_ENV"}
  const EVAL_IDENTS: set<string> := {"eval", "assert", "create_function"}

  datatype Kind = Str | Dot | DotEq | Var | Ident | AssignOp | LParen | RParen | Semi | Other

  datatype Token = Token(kind: Kind, val: string, constant: bool)

  /** The fold tables of one file. */
  datatype Tables = Tables(
    symtab: map<string, string>,
    taint: set<string>,
    concatVar: set<string>,
    fragments: seq<string>,
    out: seq<Match>,
    seen: set<string>)

  const EMPTY_TABLES := Tables(map[], {}, {}, [], [], {})

  function LowerChar(c: char): char {
    if 'A' <= c <= 'Z' then c - 'A' + 'a' else c
  }

  function Lower(s: string): string {
    seq(|s|, i requires 0 <= i < |s| => LowerChar(s[i]))
  }

  predicate Blank(c: char) {
    c == ' ' || '\t' <= c <= '\r'
  }

  function Trim(s: string): string {
    if s == "" then s
    else if Blank(s[0]) then Trim(s[1..])
    else if Blank(s[|s| - 1]) then Trim(s[..|s| - 1])
    else s
  }

  predicate SinkName(v: string) {
    Lower(Trim(v)) in HARD_SINKS
  }

  // -------------------------------------------------- specification: folding

  datatype Fold = Fold(val: string, parts: nat, constant: bool, tainted: bool, next: nat)

  function KindAt(toks: seq<Token>, j: nat): Kind {
    if j < |toks| then toks[j].kind else Other
  }

  /** One term of a concatenation at token j: the value and part count with the
      term joined on, whether the term is constant, and the taint. `None` stops
      the fold. */
  datatype TermFold = Stop | Folded(val: string, parts: nat, constant: bool, tainted: bool)

  function FoldTerm(toks: seq<Token>, tb: Tables, j: nat, val: string, parts: nat, tainted: bool): TermFold
    requires j < |toks|
  {
    var t := toks[j];
    if t.kind == Str && t.constant then Folded(val + t.val, parts + 1, true, tainted)
    else if t.kind == Var then
      if t.val in tb.symtab && KindAt(toks, j + 1) != LParen then
        Folded(val + tb.symtab[t.val], parts + 1, true, tainted)
      else
        Folded(val, parts, false, tainted || t.val in tb.taint || t.val in SUPERGLOBALS)
    else Stop
  }

  function FoldFrom(toks: seq<Token>, tb: Tables, j: nat, wantTerm: bool,
                    val: string, parts: nat, constant: bool, tainted: bool): (f: Fold)
    decreases |toks| - j
  {
    if j >= |toks| then Fold(val, parts, constant, tainted, j)
    else if !wantTerm then
      if toks[j].kind == Dot then FoldFrom(toks, tb, j + 1, true, val, parts, constant, tainted)
      else Fold(val, parts, constant, tainted, j)
    else
      match FoldTerm(toks, tb, j, val, parts, tainted)
      case Stop => Fold(val, parts, false, tainted, j)
      case Folded(val', parts', ct, tainted') =>
        if |val'| > MAX_FOLD then Fold("", parts', false, tainted', j + 1)
        else FoldFrom(toks, tb, j + 1, false, val', parts', constant && ct, tainted')
  }

  function FoldExpr(toks: seq<Token>, tb: Tables, i: nat): Fold {
    FoldFrom(toks, tb, i, true, "", 0, true, false)
  }

  // ------------------------------------------------ specification: detectors

  function Add(tb: Tables, score: int, name: string): Tables {
    if name in tb.seen then tb
    else tb.(seen := tb.seen + {name}, out := tb.out + [Match(name, score, false, false, false)])
  }

  function ApplyAssign(tb: Tables, v: string, value: string, parts: nat, constant: bool, tainted: bool): Tables {
    if constant && |value| <= MAX_FOLD then
      tb.(symtab := tb.symtab[v := value],
          taint := tb.taint - {v},
          concatVar := if parts >= 2 && value != "" then tb.concatVar + {v} else tb.concatVar - {v})
    else
      tb.(symtab := tb.symtab - {v},
          concatVar := tb.concatVar - {v},
          taint := if !constant && tainted then tb.taint + {v} else tb.taint - {v})
  }

  predicate IsAssign(toks: seq<Token>, i: nat, op: Kind)
    requires i < |toks|
  {
    toks[i].kind == Var && i + 1 < |toks| && toks[i + 1].kind == op
  }

  function AssignAt(toks: seq<Token>, tb: Tables, i: nat): Tables
    requires i < |toks|
  {
    var f := FoldExpr(toks, tb, i + 2);
    var tb' := ApplyAssign(tb, toks[i].val, f.val, f.parts, f.constant, f.tainted);
    if f.constant && f.parts >= 2 && SinkName(f.val) then Add(tb', WEIGHT_PROOF, CONCATENATED_SINK) else tb'
  }

  function ValueOf(tb: Tables, name: string): string {
    if name in tb.symtab then tb.symtab[name] else ""
  }

  function AppendConst(tb: Tables, name: string, rhs: string): Tables {
    var joined := ValueOf(tb, name) + rhs;
    if |joined| > MAX_FOLD then tb.(symtab := tb.symtab - {name}, concatVar := tb.concatVar - {name})
    else
      var tb' := tb.(symtab := tb.symtab[name := joined],
                     concatVar := tb.concatVar + {name},
                     taint := tb.taint - {name});
      if SinkName(joined) then Add(tb', WEIGHT_PROOF, CONCATENATED_SINK) else tb'
  }

  function CompoundAt(toks: seq<Token>, tb: Tables, i: nat): Tables
    requires i < |toks|
  {
    var f := FoldExpr(toks, tb, i + 2);
    if f.constant then AppendConst(tb, toks[i].val, f.val)
    else if f.tainted then tb.(taint := tb.taint + {toks[i].val})
    else tb
  }

  predicate MemberAccess(toks: seq<Token>, i: nat)
    requires i < |toks|
  {
    i > 0 && toks[i - 1].kind == Other && toks[i - 1].val in {"->", "?->", "::"}
  }

  function VarCallAt(toks: seq<Token>, tb: Tables, i: nat): Tables
    requires i < |toks|
  {
    var t := toks[i];
    if t.kind != Var || i + 1 >= |toks| || toks[i + 1].kind != LParen || MemberAccess(toks, i) then tb
    else
      var tb' := if t.val in tb.symtab && SinkName(tb.symtab[t.val])
                 then Add(tb, WEIGHT_STRONG, VARIABLE_SINK_CALL) else tb;
      if t.val in tb'.taint then Add(tb', WEIGHT_PROOF, TAINTED_NAME_CALL) else tb'
  }

  predicate BracketAt(toks: seq<Token>, j: nat, b: string) {
    j < |toks| && toks[j].kind == Other && toks[j].val == b
  }

  function SkipFrom(toks: seq<Token>, j: nat, depth: int, steps: nat): nat
    decreases |toks| - j
  {
    if j >= |toks| || steps >= MAX_INDEX then j
    else if BracketAt(toks, j, "[") then SkipFrom(toks, j + 1, depth + 1, steps + 1)
    else if BracketAt(toks, j, "]") then
      if depth - 1 == 0 then j + 1 else SkipFrom(toks, j + 1, depth - 1, steps + 1)
    else SkipFrom(toks, j + 1, depth, steps + 1)
  }

  function SkipIndex(toks: seq<Token>, j: nat): nat {
    if !BracketAt(toks, j, "[") then j else SkipFrom(toks, j, 0, 0)
  }

  function SuperglobalCallAt(toks: seq<Token>, tb: Tables, i: nat): Tables
    requires i < |toks|
  {
    var t := toks[i];
    if t.kind != Var || t.val !in SUPERGLOBALS || MemberAccess(toks, i) then tb
    else
      var j := SkipIndex(toks, i + 1);
      if j < |toks| && toks[j].kind == LParen then Add(tb, WEIGHT_PROOF, SUPERGLOBAL_CALL) else tb
  }

  function QueueFragment(tb: Tables, code: string): Tables {
    if code != "" && |tb.fragments| < MAX_FRAGMENTS then tb.(fragments := tb.fragments + [code]) else tb
  }

  function EvalConcatAt(toks: seq<Token>, tb: Tables, i: nat): Tables
    requires i < |toks|
  {
    var t := toks[i];
    if t.kind != Ident || Lower(t.val) !in EVAL_IDENTS || i + 2 >= |toks| || toks[i + 1].kind != LParen then tb
    else
      var arg := toks[i + 2];
      if arg.kind == Var && arg.val in tb.concatVar then
        QueueFragment(Add(tb, WEIGHT_PROOF, EVAL_CONCAT), ValueOf(tb, arg.val))
      else if arg.kind == Str && KindAt(toks, i + 3) == Dot then
        var f := FoldExpr(toks, tb, i + 2);
        if f.constant && f.parts >= 2 then QueueFragment(Add(tb, WEIGHT_PROOF, EVAL_CONCAT), f.val) else tb
      else tb
  }

  predicate InlineConcat(toks: seq<Token>, i: nat)
    requires i < |toks|
  {
    toks[i].kind == Str && KindAt(toks, i + 1) == Dot
  }

  function InlineSinkAt(toks: seq<Token>, tb: Tables, i: nat): Tables {
    var f := FoldExpr(toks, tb, i);
    if f.constant && f.parts >= 2 && SinkName(f.val) && KindAt(toks, f.next) == LParen
    then Add(tb, WEIGHT_PROOF, CONCATENATED_SINK) else tb
  }

  function ParenConcatAt(toks: seq<Token>, tb: Tables, i: nat): Tables
    requires i < |toks|
  {
    if toks[i].kind == LParen && KindAt(toks, i + 1) == Str && KindAt(toks, i + 2) == Dot then
      var f := FoldExpr(toks, tb, i + 1);
      if !f.constant || f.parts < 2 then tb
      else
        var end := if KindAt(toks, f.next) == RParen then f.next + 1 else f.next;
        if SinkName(f.val) && KindAt(toks, end) == LParen then Add(tb, WEIGHT_PROOF, CONCATENATED_SINK) else tb
    else tb
  }

  /** One turn of the walk: the tables after it and the next token index. */
  function Step(toks: seq<Token>, tb: Tables, i: nat): (Tables, nat)
    requires i < |toks|
  {
    if IsAssign(toks, i, AssignOp) then (AssignAt(toks, tb, i), i + 2)
    else if IsAssign(toks, i, DotEq) then (CompoundAt(toks, tb, i), i + 2)
    else
      var tb1 := EvalConcatAt(toks, SuperglobalCallAt(toks, VarCallAt(toks, tb, i), i), i);
      if InlineConcat(toks, i) then
        var tb2 := InlineSinkAt(toks, tb1, i);
        var next := FoldExpr(toks, tb1, i).next;
        if next > i then (tb2, next) else (ParenConcatAt(toks, tb2, i), i + 1)
      else (ParenConcatAt(toks, tb1, i), i + 1)
  }

  // ------------------------------------------------------- bounds and tables

  lemma {:induction false} FoldBounds(toks: seq<Token>, tb: Tables, j: nat, wantTerm: bool,
                                      val: string, parts: nat, constant: bool, tainted: bool)
    requires j <= |toks| && |val| <= MAX_FOLD
    ensures var f := FoldFrom(toks, tb, j, wantTerm, val, parts, constant, tainted);
            j <= f.next <= |toks| && |f.val| <= MAX_FOLD
    decreases |toks| - j
  {
    if j < |toks| {
      if !wantTerm {
        if toks[j].kind == Dot {
          FoldBounds(toks, tb, j + 1, true, val, parts, constant, tainted);
        }
      } else {
        match FoldTerm(toks, tb, j, val, parts, tainted)
        case Stop =>
        case Folded(val', parts', ct, tainted') =>
          if |val'| <= MAX_FOLD {
            FoldBounds(toks, tb, j + 1, false, val', parts', constant && ct, tainted');
          }
      }
    }
  }

  lemma FoldExprBounds(toks: seq<Token>, tb: Tables, i: nat)
    requires i <= |toks|
    ensures i <= FoldExpr(toks, tb, i).next <= |toks|
    ensures |FoldExpr(toks, tb, i).val| <= MAX_FOLD
  {
    FoldBounds(toks, tb, i, true, "", 0, true, false);
  }

  /** A call of a variable that holds a sink name is strong evidence, the rest is proof. */
  function ReportWeight(name: string): int {
    if name == VARIABLE_SINK_CALL then WEIGHT_STRONG else WEIGHT_PROOF
  }

  /** What every turn of the walk keeps: no stored value or queued fragment is
      longer than the fold ceiling, a concealed-name candidate is a stored name,
      and each detector is reported at most once, with its weight. */
  predicate Bounded(tb: Tables) {
    && (forall v :: v in tb.symtab ==> |tb.symtab[v]| <= MAX_FOLD)
    && tb.concatVar <= tb.symtab.Keys
    && |tb.fragments| <= MAX_FRAGMENTS
    && (forall k :: 0 <= k < |tb.fragments| ==> 0 < |tb.fragments[k]| <= MAX_FOLD)
    && (forall k :: 0 <= k < |tb.out| ==> tb.out[k].name in tb.seen && InClear(tb.out[k]))
    && (forall k :: 0 <= k < |tb.out| ==> tb.out[k].score == ReportWeight(tb.out[k].name))
    && (forall name :: name in tb.seen ==> exists k :: 0 <= k < |tb.out| && tb.out[k].name == name)
    && (forall k, l :: 0 <= k < l < |tb.out| ==> tb.out[k].name != tb.out[l].name)
  }

  lemma AddKeepsSeen(tb: Tables, score: int, name: string)
    requires forall n :: n in tb.seen ==> exists k :: 0 <= k < |tb.out| && tb.out[k].name == n
    ensures var tb' := Add(tb, score, name);
            forall n :: n in tb'.seen ==> exists k :: 0 <= k < |tb'.out| && tb'.out[k].name == n
  {
    var tb' := Add(tb, score, name);
    forall n | n in tb'.seen
      ensures exists k :: 0 <= k < |tb'.out| && tb'.out[k].name == n
    {
      if n in tb.seen {
        var k :| 0 <= k < |tb.out| && tb.out[k].name == n;
        assert tb'.out[k].name == n;
      } else {
        assert tb'.out[|tb.out|].name == n;
      }
    }
  }

  lemma AddBounded(tb: Tables, score: int, name: string)
    requires Bounded(tb) && score == ReportWeight(name)
    ensures Bounded(Add(tb, score, name))
    ensures Add(tb, score, name).seen == tb.seen + {name}
  {
    AddKeepsSeen(tb, score, name);
  }

  lemma ApplyAssignBounded(tb: Tables, v: string, value: string, parts: nat, constant: bool, tainted: bool)
    requires Bounded(tb)
    ensures Bounded(ApplyAssign(tb, v, value, parts, constant, tainted))
  {}

  lemma AppendConstBounded(tb: Tables, name: string, rhs: string)
    requires Bounded(tb)
    ensures Bounded(AppendConst(tb, name, rhs))
  {
    hide Add, SinkName;
    var joined := ValueOf(tb, name) + rhs;
    if |joined| <= MAX_FOLD {
      AddBounded(tb.(symtab := tb.symtab[name := joined],
                     concatVar := tb.concatVar + {name},
                     taint := tb.taint - {name}),
                 WEIGHT_PROOF, CONCATENATED_SINK);
    }
  }

  lemma AssignBounded(toks: seq<Token>, tb: Tables, i: nat)
    requires i + 1 < |toks| && Bounded(tb)
    ensures Bounded(AssignAt(toks, tb, i))
    ensures Bounded(CompoundAt(toks, tb, i))
  {
    hide Add, SinkName, ApplyAssign, AppendConst, FoldExpr;
    var f := FoldExpr(toks, tb, i + 2);
    ApplyAssignBounded(tb, toks[i].val, f.val, f.parts, f.constant, f.tainted);
    AddBounded(ApplyAssign(tb, toks[i].val, f.val, f.parts, f.constant, f.tainted), WEIGHT_PROOF, CONCATENATED_SINK);
    AppendConstBounded(tb, toks[i].val, f.val);
  }

  lemma CallDetectorsBounded(toks: seq<Token>, tb: Tables, i: nat)
    requires i < |toks| && Bounded(tb)
    ensures Bounded(VarCallAt(toks, tb, i))
    ensures Bounded(SuperglobalCallAt(toks, tb, i))
  {
    hide Add, Bounded, SinkName, MemberAccess, SkipIndex;
    AddBounded(tb, WEIGHT_STRONG, VARIABLE_SINK_CALL);
    AddBounded(tb, WEIGHT_PROOF, TAINTED_NAME_CALL);
    AddBounded(Add(tb, WEIGHT_STRONG, VARIABLE_SINK_CALL), WEIGHT_PROOF, TAINTED_NAME_CALL);
    AddBounded(tb, WEIGHT_PROOF, SUPERGLOBAL_CALL);
  }

  lemma EvalConcatBounded(toks: seq<Token>, tb: Tables, i: nat)
    requires i < |toks| && Bounded(tb)
    ensures Bounded(EvalConcatAt(toks, tb, i))
  {
    AddBounded(tb, WEIGHT_PROOF, EVAL_CONCAT);
    if i + 2 <= |toks| {
      FoldExprBounds(toks, tb, i + 2);
    }
  }

  lemma InlineDetectorsBounded(toks: seq<Token>, tb: Tables, i: nat)
    requires i < |toks| && Bounded(tb)
    ensures Bounded(InlineSinkAt(toks, tb, i))
    ensures Bounded(ParenConcatAt(toks, tb, i))
  {
    AddBounded(tb, WEIGHT_PROOF, CONCATENATED_SINK);
  }

  /** Every turn advances, stays inside the token list and keeps the tables bounded. */
  lemma StepKeepsBounds(toks: seq<Token>, tb: Tables, i: nat)
    requires i < |toks| && Bounded(tb)
    ensures i < Step(toks, tb, i).1 <= |toks|
    ensures Bounded(Step(toks, tb, i).0)
  {
    if IsAssign(toks, i, AssignOp) || IsAssign(toks, i, DotEq) {
      AssignBounded(toks, tb, i);
    } else {
      var a := VarCallAt(toks, tb, i);
      var b := SuperglobalCallAt(toks, a, i);
      var c := EvalConcatAt(toks, b, i);
      var d := InlineSinkAt(toks, c, i);
      assert Bounded(d) && Bounded(c) && Bounded(ParenConcatAt(toks, c, i)) && Bounded(ParenConcatAt(toks, d, i)) by {
        CallDetectorsBounded(toks, tb, i);
        CallDetectorsBounded(toks, a, i);
        EvalConcatBounded(toks, b, i);
        InlineDetectorsBounded(toks, c, i);
        InlineDetectorsBounded(toks, d, i);
      }
      assert FoldExpr(toks, c, i).next <= |toks| by {
        FoldExprBounds(toks, c, i);
      }
    }
  }

  /** The walk from token i until it stands at or past `limit`. */
  function WalkTo(toks: seq<Token>, tb: Tables, i: nat, limit: nat): (Tables, nat)
    requires limit <= |toks|
    decreases limit - i
  {
    if i >= limit then (tb, i)
    else
      var (tb', next) := Step(toks, tb, i);
      if next <= i then (tb', next) else WalkTo(toks, tb', next, limit)
  }

  lemma {:induction false} WalkKeepsBounds(toks: seq<Token>, tb: Tables, i: nat, limit: nat)
    requires i <= limit <= |toks| && Bounded(tb)
    ensures Bounded(WalkTo(toks, tb, i, limit).0)
    ensures limit <= WalkTo(toks, tb, i, limit).1 <= |toks|
    decreases limit - i
  {
    if i < limit {
      StepKeepsBounds(toks, tb, i);
      var (tb', next) := Step(toks, tb, i);
      if next <= limit {
        WalkKeepsBounds(toks, tb', next, limit);
      }
    }
  }

  // ------------------------------------------------------------------ rescan

  function Min(a: int, b: int): int { if a <= b then a else b }

  /** The rescan from rule k on with `budget` left. */
  function RescanFrom(rules: seq<Rule>, ext: string, blob: string, clearNames: set<string>,
                      k: nat, budget: int, tb: Tables): Tables
    requires k <= |rules|
    decreases |rules| - k
  {
    if k == |rules| || budget <= 0 then tb
    else
      var h := rules[k];
      var name := RESCAN_PREFIX + h.name;
      if h.name in clearNames || name in tb.seen || !AppliesTo(h, ext) || !h.pattern(blob) then
        RescanFrom(rules, ext, blob, clearNames, k + 1, budget, tb)
      else
        var add := Min(h.score, budget);
        RescanFrom(rules, ext, blob, clearNames, k + 1, budget - add, Add(tb, add, name))
  }

  function Join(parts: seq<string>): string {
    if parts == [] then ""
    else if |parts| == 1 then parts[0]
    else parts[0] + "\n" + Join(parts[1..])
  }

  function Rescan(rules: seq<Rule>, ext: string, clearNames: set<string>, tb: Tables): Tables {
    if tb.fragments == [] then tb
    else RescanFrom(rules, ext, Join(tb.fragments), clearNames, 0, RESCAN_CAP, tb)
  }

  lemma AddScores(tb: Tables, score: int, name: string)
    requires name !in tb.seen
    ensures var tb' := Add(tb, score, name);
            && tb.out < tb'.out && |tb'.out| == |tb.out| + 1 && tb'.out[|tb.out|].name == name
            && TotalScore(tb'.out) == TotalScore(tb.out) + score
  {
    var tb' := Add(tb, score, name);
    assert tb'.out[..|tb.out|] == tb.out;
  }

  /** The match is a rule from `k` on firing on the rebuilt code, and silent in clear. */
  predicate Rescanned(rules: seq<Rule>, ext: string, blob: string, clearNames: set<string>, k: nat, name: string) {
    exists r :: k <= r < |rules| && name == RESCAN_PREFIX + rules[r].name
                && rules[r].name !in clearNames && Fires(rules[r], ext, blob)
  }

  lemma {:induction false} RescanFromCapped(rules: seq<Rule>, ext: string, blob: string, clearNames: set<string>,
                                            k: nat, budget: int, tb: Tables)
    requires k <= |rules| && budget >= 0
    requires forall r :: 0 <= r < |rules| ==> rules[r].score >= 0
    ensures var tb' := RescanFrom(rules, ext, blob, clearNames, k, budget, tb);
            && tb.out <= tb'.out
            && TotalScore(tb'.out) <= TotalScore(tb.out) + budget
            && (forall n :: |tb.out| <= n < |tb'.out| ==>
                 Rescanned(rules, ext, blob, clearNames, k, tb'.out[n].name))
    decreases |rules| - k
  {
    hide Add, TotalScore;
    if k < |rules| && budget > 0 {
      var h := rules[k];
      var name := RESCAN_PREFIX + h.name;
      if h.name in clearNames || name in tb.seen || !AppliesTo(h, ext) || !h.pattern(blob) {
        RescanFromCapped(rules, ext, blob, clearNames, k + 1, budget, tb);
      } else {
        var add := Min(h.score, budget);
        var tb1 := Add(tb, add, name);
        AddScores(tb, add, name);
        RescanFromCapped(rules, ext, blob, clearNames, k + 1, budget - add, tb1);
        var tb' := RescanFrom(rules, ext, blob, clearNames, k, budget, tb);
        forall n | |tb.out| <= n < |tb'.out|
          ensures Rescanned(rules, ext, blob, clearNames, k, tb'.out[n].name)
        {
          if n == |tb.out| {
            assert tb'.out[n] == tb1.out[n] && Fires(rules[k], ext, blob);
          }
        }
      }
    }
  }

  /** The rescan of rebuilt code adds at most RESCAN_CAP, which is under the
      shipped critical threshold, and only rules that had not fired in clear. */
  lemma RescanCapped(rules: seq<Rule>, ext: string, clearNames: set<string>, tb: Tables)
    requires forall r :: 0 <= r < |rules| ==> rules[r].score >= 0
    ensures var tb' := Rescan(rules, ext, clearNames, tb);
            && tb.out <= tb'.out
            && TotalScore(tb'.out) <= TotalScore(tb.out) + RESCAN_CAP
            && RESCAN_CAP < SCORE_CRITICAL
            && (forall n :: |tb.out| <= n < |tb'.out| ==>
                 Rescanned(rules, ext, Join(tb.fragments), clearNames, 0, tb'.out[n].name))
  {
    if tb.fragments != [] {
      RescanFromCapped(rules, ext, Join(tb.fragments), clearNames, 0, RESCAN_CAP, tb);
    }
  }

  /** The rule has something to say about the rebuilt code that it did not say in clear. */
  predicate Candidate(h: Rule, ext: string, blob: string, clearNames: set<string>) {
    h.name !in clearNames && Fires(h, ext, blob)
  }

  /** The weights of the candidates among the first k rules, together. */
  function WeighedBefore(rules: seq<Rule>, ext: string, blob: string, clearNames: set<string>, k: nat): int
    requires k <= |rules|
  {
    if k == 0 then 0
    else
      WeighedBefore(rules, ext, blob, clearNames, k - 1)
      + if Candidate(rules[k - 1], ext, blob, clearNames) then rules[k - 1].score else 0
  }

  /** The match reports candidate r, whose weight is cut to what the earlier ones left. */
  predicate ReportsRule(rules: seq<Rule>, ext: string, blob: string, clearNames: set<string>, r: nat, m: Match) {
    && r < |rules| && Candidate(rules[r], ext, blob, clearNames)
    && var left := RESCAN_CAP - WeighedBefore(rules, ext, blob, clearNames, r);
       left > 0 && m == Match(RESCAN_PREFIX + rules[r].name, Min(rules[r].score, left), false, false, false)
  }

  predicate RuleNamesDiffer(rules: seq<Rule>) {
    forall i, j :: 0 <= i < j < |rules| ==> rules[i].name != rules[j].name
  }

  /** No rule from k on was rescanned before. */
  predicate Unreported(rules: seq<Rule>, k: nat, tb: Tables) {
    forall r :: k <= r < |rules| ==> RESCAN_PREFIX + rules[r].name !in tb.seen
  }

  lemma AddKeepsUnreported(rules: seq<Rule>, k: nat, add: int, tb: Tables)
    requires k < |rules| && RuleNamesDiffer(rules) && Unreported(rules, k, tb)
    ensures Unreported(rules, k + 1, Add(tb, add, RESCAN_PREFIX + rules[k].name))
  {
    forall r | k + 1 <= r < |rules|
      ensures RESCAN_PREFIX + rules[r].name !in Add(tb, add, RESCAN_PREFIX + rules[k].name).seen
    {
      assert rules[r].name == (RESCAN_PREFIX + rules[r].name)[|RESCAN_PREFIX|..];
      assert rules[k].name == (RESCAN_PREFIX + rules[k].name)[|RESCAN_PREFIX|..];
    }
  }

  lemma {:induction false} WeightsGrow(rules: seq<Rule>, ext: string, blob: string, clearNames: set<string>,
                                       k: nat, r: nat)
    requires k <= r <= |rules| && forall i :: 0 <= i < |rules| ==> rules[i].score >= 0
    ensures WeighedBefore(rules, ext, blob, clearNames, k) <= WeighedBefore(rules, ext, blob, clearNames, r)
    decreases r
  {
    if k < r {
      WeightsGrow(rules, ext, blob, clearNames, k, r - 1);
    }
  }

  predicate Reported(rules: seq<Rule>, ext: string, blob: string, clearNames: set<string>, k: nat, m: Match) {
    exists r: nat :: k <= r < |rules| && ReportsRule(rules, ext, blob, clearNames, r, m)
  }

  lemma {:induction false} RescanFromReports(rules: seq<Rule>, ext: string, blob: string, clearNames: set<string>,
                                             k: nat, budget: int, tb: Tables, m: Match)
    requires k <= |rules| && RuleNamesDiffer(rules) && Unreported(rules, k, tb)
    requires forall r :: 0 <= r < |rules| ==> rules[r].score >= 0
    requires budget == RESCAN_CAP - Min(RESCAN_CAP, WeighedBefore(rules, ext, blob, clearNames, k))
    ensures m in RescanFrom(rules, ext, blob, clearNames, k, budget, tb).out
            <==> m in tb.out || Reported(rules, ext, blob, clearNames, k, m)
    decreases |rules| - k
  {
    if k < |rules| && budget > 0 {
      var h := rules[k];
      assert Reported(rules, ext, blob, clearNames, k, m)
          <==> ReportsRule(rules, ext, blob, clearNames, k, m) || Reported(rules, ext, blob, clearNames, k + 1, m);
      if Candidate(h, ext, blob, clearNames) {
        var add := Min(h.score, budget);
        AddKeepsUnreported(rules, k, add, tb);
        RescanFromReports(rules, ext, blob, clearNames, k + 1, budget - add, Add(tb, add, RESCAN_PREFIX + h.name), m);
      } else {
        RescanFromReports(rules, ext, blob, clearNames, k + 1, budget, tb, m);
      }
    } else {
      forall r: nat | k <= r < |rules|
        ensures !ReportsRule(rules, ext, blob, clearNames, r, m)
      {
        WeightsGrow(rules, ext, blob, clearNames, k, r);
      }
    }
  }

  /** THE RESCAN, EXACTLY. Of the rules that fire on the rebuilt code and were silent in
      clear, those are reported whose earlier ones weigh under the cap together, each with
      its weight cut to what they left. */
  lemma RescanReportsIff(rules: seq<Rule>, ext: string, clearNames: set<string>, tb: Tables, m: Match)
    requires RuleNamesDiffer(rules) && Unreported(rules, 0, tb)
    requires forall r :: 0 <= r < |rules| ==> rules[r].score >= 0
    ensures m in Rescan(rules, ext, clearNames, tb).out
            <==> m in tb.out || (tb.fragments != [] && Reported(rules, ext, Join(tb.fragments), clearNames, 0, m))
  {
    if tb.fragments != [] {
      RescanFromReports(rules, ext, Join(tb.fragments), clearNames, 0, RESCAN_CAP, tb, m);
    }
  }

  /** One fragment joined on comes after the rest on a line of its own. */
  lemma {:induction false} JoinAppends(parts: seq<string>, last: string)
    ensures Join(parts + [last]) == if parts == [] then last else Join(parts) + "\n" + last
  {
    if |parts| > 0 {
      assert (parts + [last])[1..] == parts[1..] + [last];
      JoinAppends(parts[1..], last);
    }
  }

  // -------------------------------------------------------------- sink names

  predicate AllBlank(s: string) {
    forall k :: 0 <= k < |s| ==> Blank(s[k])
  }

  /** The text neither begins nor ends with a blank. */
  predicate Tight(s: string) {
    s != "" ==> !Blank(s[0]) && !Blank(s[|s| - 1])
  }

  lemma {:induction false} TrimLeft(before: string, s: string)
    requires AllBlank(before)
    ensures Trim(before + s) == Trim(s)
  {
    if before != "" {
      assert (before + s)[1..] == before[1..] + s;
      TrimLeft(before[1..], s);
    } else {
      assert before + s == s;
    }
  }

  lemma {:induction false} TrimRight(s: string, after: string)
    requires Tight(s) && AllBlank(after)
    ensures Trim(s + after) == s
    decreases |after|
  {
    if s == "" {
      TrimLeft(after, "");
      assert s + after == after + "";
    } else if after != "" {
      var n := |after| - 1;
      assert (s + after)[..|s + after| - 1] == s + after[..n];
      TrimRight(s, after[..n]);
    } else {
      assert s + after == s;
    }
  }

  /** A NAME IS A SINK whatever blanks stand around it and in whatever case it is written. */
  lemma SinkNameIff(before: string, name: string, after: string)
    requires AllBlank(before) && Tight(name) && AllBlank(after)
    ensures SinkName(before + name + after) <==> Lower(name) in HARD_SINKS
  {
    TrimLeft(before, name + after);
    TrimRight(name, after);
    assert before + name + after == before + (name + after);
  }
}
