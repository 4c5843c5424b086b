/** The fold tables as the walk updates them in place (semState in
    internal/antivirus/semantic.go). Every method is tied to the function of
    module Semantic that specifies it. */
module SemanticWalk {
  import opened Rules
  import opened Semantic

  class SemState {
    const toks: seq<Token>
    var symtab: map<string, string>
    var taint: set<string>
    var concatVar: set<string>
    var fragments: seq<string>
    var out: seq<Match>
    var seen: set<string>

    constructor (toks: seq<Token>)
      ensures this.toks == toks && View() == EMPTY_TABLES
    {
      this.toks := toks;
      symtab, taint, concatVar := map[], {}, {};
      fragments, out, seen := [], [], {};
    }

    function View(): Tables
      reads this
    {
      Tables(symtab, taint, concatVar, fragments, out, seen)
    }

    method AddMatch(score: int, name: string)
      modifies this
      ensures View() == Add(old(View()), score, name)
    {
      if name in seen {
        return;
      }
      seen := seen + {name};
      out := out + [Match(name, score, false, false, false)];
    }

    /** Folds `A . B . C` from token i. */
    method FoldExpression(i: nat) returns (val: string, parts: nat, constant: bool, tainted: bool, next: nat)
      ensures Fold(val, parts, constant, tainted, next) == FoldExpr(toks, View(), i)
    {
      val, parts, constant, tainted := "", 0, true, false;
      var wantTerm := true;
      next := i;
      while next < |toks|
        invariant FoldFrom(toks, View(), next, wantTerm, val, parts, constant, tainted)
                  == FoldExpr(toks, View(), i)
      {
        var t := toks[next];
        if !wantTerm {
          if t.kind == Dot {
            wantTerm := true;
            next := next + 1;
            continue;
          }
          return;
        }
        match FoldTerm(toks, View(), next, val, parts, tainted)
        case Stop =>
          constant := false;
          return;
        case Folded(v, p, ct, tt) =>
          val, parts, constant, tainted := v, p, constant && ct, tt;
          if |val| > MAX_FOLD {
            val, constant, next := "", false, next + 1;
            return;
          }
          wantTerm := false;
          next := next + 1;
      }
    }

    method StoreAssign(v: string, value: string, parts: nat, constant: bool, tainted: bool)
      modifies this
      ensures View() == ApplyAssign(old(View()), v, value, parts, constant, tainted)
    {
      if constant && |value| <= MAX_FOLD {
        symtab := symtab[v := value];
        taint := taint - {v};
        if parts >= 2 && value != "" {
          concatVar := concatVar + {v};
        } else {
          concatVar := concatVar - {v};
        }
        return;
      }
      symtab := symtab - {v};
      concatVar := concatVar - {v};
      if !constant && tainted {
        taint := taint + {v};
      } else {
        taint := taint - {v};
      }
    }

    method StoreAppend(name: string, rhs: string)
      modifies this
      ensures View() == AppendConst(old(View()), name, rhs)
    {
      var joined := ValueOf(View(), name) + rhs;
      if |joined| > MAX_FOLD {
        symtab := symtab - {name};
        concatVar := concatVar - {name};
        return;
      }
      symtab := symtab[name := joined];
      concatVar := concatVar + {name};
      taint := taint - {name};
      if SinkName(joined) {
        AddMatch(WEIGHT_PROOF, CONCATENATED_SINK);
      }
    }

    method DetectAssign(i: nat) returns (next: nat, ok: bool)
      requires i < |toks|
      modifies this
      ensures ok == IsAssign(toks, i, AssignOp)
      ensures ok ==> next == i + 2 && View() == AssignAt(toks, old(View()), i)
      ensures !ok ==> View() == old(View())
    {
      if toks[i].kind != Var || i + 1 >= |toks| || toks[i + 1].kind != AssignOp {
        return 0, false;
      }
      var val, parts, constant, tainted, _ := FoldExpression(i + 2);
      StoreAssign(toks[i].val, val, parts, constant, tainted);
      if constant && parts >= 2 && SinkName(val) {
        AddMatch(WEIGHT_PROOF, CONCATENATED_SINK);
      }
      return i + 2, true;
    }

    method DetectCompoundAssign(i: nat) returns (next: nat, ok: bool)
      requires i < |toks|
      modifies this
      ensures ok == IsAssign(toks, i, DotEq)
      ensures ok ==> next == i + 2 && View() == CompoundAt(toks, old(View()), i)
      ensures !ok ==> View() == old(View())
    {
      if toks[i].kind != Var || i + 1 >= |toks| || toks[i + 1].kind != DotEq {
        return 0, false;
      }
      var name := toks[i].val;
      var rhs, _, constant, tainted, _ := FoldExpression(i + 2);
      if constant {
        StoreAppend(name, rhs);
      } else if tainted {
        taint := taint + {name};
      }
      return i + 2, true;
    }

    method DetectVarCall(i: nat)
      requires i < |toks|
      modifies this
      ensures View() == VarCallAt(toks, old(View()), i)
    {
      var t := toks[i];
      if t.kind != Var || i + 1 >= |toks| || toks[i + 1].kind != LParen {
        return;
      }
      if MemberAccess(toks, i) {
        return;
      }
      if t.val in symtab && SinkName(symtab[t.val]) {
        AddMatch(WEIGHT_STRONG, VARIABLE_SINK_CALL);
      }
      if t.val in taint {
        AddMatch(WEIGHT_PROOF, TAINTED_NAME_CALL);
      }
    }

    /** Steps over a subscript, at most MAX_INDEX tokens of it. */
    method SkipSubscript(start: nat) returns (j: nat)
      ensures j == SkipIndex(toks, start)
    {
      j := start;
      if !BracketAt(toks, j, "[") {
        return;
      }
      var depth, steps := 0, 0;
      while j < |toks| && steps < MAX_INDEX
        invariant 0 <= steps
        invariant SkipFrom(toks, j, depth, steps) == SkipIndex(toks, start)
        decreases |toks| - j
      {
        if BracketAt(toks, j, "[") {
          depth := depth + 1;
        } else if BracketAt(toks, j, "]") {
          depth := depth - 1;
          if depth == 0 {
            return j + 1;
          }
        }
        j, steps := j + 1, steps + 1;
      }
    }

    method DetectSuperglobalCall(i: nat)
      requires i < |toks|
      modifies this
      ensures View() == SuperglobalCallAt(toks, old(View()), i)
    {
      var t := toks[i];
      if t.kind != Var || t.val !in SUPERGLOBALS || MemberAccess(toks, i) {
        return;
      }
      var j := SkipSubscript(i + 1);
      if j < |toks| && toks[j].kind == LParen {
        AddMatch(WEIGHT_PROOF, SUPERGLOBAL_CALL);
      }
    }

    method Queue(code: string)
      modifies this
      ensures View() == QueueFragment(old(View()), code)
    {
      if code != "" && |fragments| < MAX_FRAGMENTS {
        fragments := fragments + [code];
      }
    }

    method DetectEvalConcat(i: nat)
      requires i < |toks|
      modifies this
      ensures View() == EvalConcatAt(toks, old(View()), i)
    {
      var t := toks[i];
      if t.kind != Ident || Lower(t.val) !in EVAL_IDENTS || i + 2 >= |toks| || toks[i + 1].kind != LParen {
        return;
      }
      var arg := toks[i + 2];
      if arg.kind == Var && arg.val in concatVar {
        AddMatch(WEIGHT_PROOF, EVAL_CONCAT);
        Queue(ValueOf(View(), arg.val));
      } else if arg.kind == Str && KindAt(toks, i + 3) == Dot {
        var val, parts, constant, _, _ := FoldExpression(i + 2);
        if constant && parts >= 2 {
          AddMatch(WEIGHT_PROOF, EVAL_CONCAT);
          Queue(val);
        }
      }
    }

    method FoldInlineSink(i: nat) returns (next: nat)
      modifies this
      ensures View() == InlineSinkAt(toks, old(View()), i)
      ensures next == FoldExpr(toks, old(View()), i).next
    {
      var val, parts, constant, _, n := FoldExpression(i);
      next := n;
      if constant && parts >= 2 && SinkName(val) && KindAt(toks, next) == LParen {
        AddMatch(WEIGHT_PROOF, CONCATENATED_SINK);
      }
    }

    method DetectParenConcat(i: nat)
      requires i < |toks|
      modifies this
      ensures View() == ParenConcatAt(toks, old(View()), i)
    {
      if toks[i].kind == LParen && KindAt(toks, i + 1) == Str && KindAt(toks, i + 2) == Dot {
        var val, parts, constant, _, next := FoldExpression(i + 1);
        if !constant || parts < 2 {
          return;
        }
        var end := next;
        if end < |toks| && toks[end].kind == RParen {
          end := end + 1;
        }
        if SinkName(val) && end < |toks| && toks[end].kind == LParen {
          AddMatch(WEIGHT_PROOF, CONCATENATED_SINK);
        }
      }
    }

    method Advance(i: nat) returns (next: nat)
      requires i < |toks|
      modifies this
      ensures (View(), next) == Step(toks, old(View()), i)
    {
      var n, ok := DetectAssign(i);
      if ok {
        return n;
      }
      n, ok := DetectCompoundAssign(i);
      if ok {
        return n;
      }
      DetectVarCall(i);
      DetectSuperglobalCall(i);
      DetectEvalConcat(i);
      if toks[i].kind == Str && KindAt(toks, i + 1) == Dot {
        n := FoldInlineSink(i);
        if n > i {
          return n;
        }
      }
      DetectParenConcat(i);
      return i + 1;
    }

    /** Walks the whole token list. */
    method Walk()
      modifies this
      requires Bounded(View())
      ensures View() == WalkTo(toks, old(View()), 0, |toks|).0
      ensures Bounded(View())
    {
      var i := 0;
      while i < |toks|
        invariant 0 <= i <= |toks| && Bounded(View())
        invariant WalkTo(toks, View(), i, |toks|) == WalkTo(toks, old(View()), 0, |toks|)
        decreases |toks| - i
      {
        StepKeepsBounds(toks, View(), i);
        i := Advance(i);
      }
    }

    /** Runs the shipped rules over the rebuilt code, at most RESCAN_CAP of weight. */
    method RescanFragments(rules: seq<Rule>, ext: string, clearNames: set<string>)
      modifies this
      ensures View() == Rescan(rules, ext, clearNames, old(View()))
    {
      if |fragments| == 0 {
        return;
      }
      var blob := Join(fragments);
      var budget := RESCAN_CAP;
      for k := 0 to |rules|
        invariant RescanFrom(rules, ext, blob, clearNames, k, budget, View())
                  == RescanFrom(rules, ext, blob, clearNames, 0, RESCAN_CAP, old(View()))
      {
        if budget <= 0 {
          return;
        }
        var h := rules[k];
        var name := RESCAN_PREFIX + h.name;
        if h.name in clearNames || name in seen {
          continue;
        }
        if !AppliesTo(h, ext) || !h.pattern(blob) {
          continue;
        }
        var add := Min(h.score, budget);
        budget := budget - add;
        seen := seen + {name};
        out := out + [Match(name, add, false, false, false)];
      }
    }
  }
}
