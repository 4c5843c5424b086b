/** The walk over the tokens of a straight-line program does what its statements say one by
    one, and no other token of the program changes anything
    (internal/antivirus/semantic.go:124-439). */
module Walks {
  import opened Rules
  import opened Semantic
  import opened Programs
  import opened Detectors

  // ------------------------------------------------- tokens that do nothing

  predicate TermTok(t: Token) {
    t.kind == Str || t.kind == Var
  }

  /** No argument list is followed by another one. */
  predicate NoReopen(xs: seq<Token>) {
    forall m :: 0 <= m < |xs| - 1 && xs[m].kind == RParen ==> xs[m + 1].kind != LParen
  }

  /** No detector looks for what begins at this token. */
  predicate CalmAt(xs: seq<Token>, k: nat)
    requires k < |xs|
  {
    && xs[k].kind !in {Ident, AssignOp, DotEq}
    && (TermTok(xs[k]) ==> k + 1 < |xs| && xs[k + 1].kind !in {LParen, AssignOp, DotEq})
    && (xs[k].kind == Var && xs[k + 1] == OPEN ==>
          k + 4 < |xs| && xs[k + 2].kind == Str && xs[k + 3] == CLOSE && xs[k + 4].kind != LParen)
    && (xs[k].kind == LParen ==> NoReopen(xs[k..]))
    && (xs[k].kind == Other ==> xs[k] == OPEN || xs[k] == CLOSE)
  }

  /** The rest of a statement, up to its semicolon, has nothing more to say. */
  predicate Calm(xs: seq<Token>) {
    xs != [] && xs[|xs| - 1] == SEMI && forall k :: 0 <= k < |xs| ==> CalmAt(xs, k)
  }

  predicate Closer(t: Token) {
    t == RPAREN || t == SEMI || t == CLOSE
  }

  lemma CalmCons(t: Token, xs: seq<Token>)
    requires Calm(xs) && CalmAt([t] + xs, 0)
    ensures Calm([t] + xs)
  {
    var ys := [t] + xs;
    forall k | 0 <= k < |ys|
      ensures CalmAt(ys, k)
    {
      if k > 0 {
        assert CalmAt(xs, k - 1) && ys[k..] == xs[k - 1..];
      }
    }
  }

  lemma NoReopenCons(t: Token, xs: seq<Token>)
    requires NoReopen(xs) && (t.kind == RParen && xs != [] ==> xs[0].kind != LParen)
    ensures NoReopen([t] + xs)
  {
    var ys := [t] + xs;
    forall m | 0 <= m < |ys| - 1 && ys[m].kind == RParen
      ensures ys[m + 1].kind != LParen
    {
      assert m > 0 ==> ys[m] == xs[m - 1] && ys[m + 1] == xs[m];
    }
  }

  lemma CalmTerm(t: Term, xs: seq<Token>)
    requires Calm(xs) && (Closer(xs[0]) || xs[0] == DOT)
    ensures Calm(TermToks(t) + xs)
    ensures NoReopen(xs) ==> NoReopen(TermToks(t) + xs)
  {
    if t.Elem? {
      var idx := Token(Str, t.index, true);
      var a := [CLOSE] + xs;
      var b := [idx] + a;
      var c := [OPEN] + b;
      CalmCons(CLOSE, xs);
      CalmCons(idx, a);
      CalmCons(OPEN, b);
      assert TermToks(t) + xs == [VarTok(t.name)] + c;
      assert c[0] == OPEN && c[1] == idx && c[2] == CLOSE && c[3] == xs[0];
      CalmCons(VarTok(t.name), c);
      if NoReopen(xs) {
        NoReopenCons(CLOSE, xs);
        NoReopenCons(idx, a);
        NoReopenCons(OPEN, b);
        NoReopenCons(VarTok(t.name), c);
      }
    } else {
      CalmCons(TermToks(t)[0], xs);
      if NoReopen(xs) {
        NoReopenCons(TermToks(t)[0], xs);
      }
    }
  }

  lemma {:induction false} CalmExpr(terms: seq<Term>, xs: seq<Token>)
    requires Calm(xs) && Closer(xs[0])
    ensures Calm(ExprToks(terms) + xs)
    ensures NoReopen(xs) ==> NoReopen(ExprToks(terms) + xs)
  {
    hide Calm, NoReopen, TermToks;
    if terms == [] {
      assert ExprToks(terms) + xs == xs;
    } else if |terms| == 1 {
      CalmTerm(terms[0], xs);
    } else {
      var rest := ExprToks(terms[1..]) + xs;
      CalmExpr(terms[1..], xs);
      DotIsCalm(terms[1], rest);
      CalmTerm(terms[0], [DOT] + rest);
      assert ExprToks(terms) + xs == TermToks(terms[0]) + ([DOT] + rest);
    }
  }

  lemma DotIsCalm(t: Term, rest: seq<Token>)
    requires Calm(rest)
    ensures Calm([DOT] + rest) && (NoReopen(rest) ==> NoReopen([DOT] + rest))
  {
    CalmCons(DOT, rest);
    if NoReopen(rest) {
      NoReopenCons(DOT, rest);
    }
  }

  lemma ArgsAreCalm(args: seq<Term>)
    ensures Calm(ArgToks(args)) && NoReopen(ArgToks(args))
  {
    var end := [RPAREN, SEMI];
    assert Calm(end) && NoReopen(end);
    CalmExpr(args, end);
    var rest := ExprToks(args) + end;
    NoReopenCons(LPAREN, rest);
    assert ([LPAREN] + rest)[0..] == [LPAREN] + rest;
    CalmCons(LPAREN, rest);
  }

  lemma TrailIsCalm(s: Stmt)
    ensures Calm(Trail(s))
  {
    var semi := [SEMI];
    match s
    case Assign(_, terms) => assert Calm(semi); CalmExpr(terms, semi);
    case Append(_, terms) => assert Calm(semi); CalmExpr(terms, semi);
    case Call(_, args) => ArgsAreCalm(args);
    case NamedCall(_, args) => ArgsAreCalm(args);
    case InlineCall(_, args) => ArgsAreCalm(args);
    case ParenCall(callee, args) =>
      ArgsAreCalm(args);
      CalmCons(RPAREN, ArgToks(args));
      CalmExpr(callee, [RPAREN] + ArgToks(args));
    case IndexCall(_, index, args) =>
      ArgsAreCalm(args);
      CalmCons(CLOSE, ArgToks(args));
      CalmExpr(index, [CLOSE] + ArgToks(args));
      CalmCons(OPEN, ExprToks(index) + ([CLOSE] + ArgToks(args)));
  }

  // ----------------------------------------------------------- calm walking

  lemma {:induction false} FoldStops(toks: seq<Token>, tb: Tables, j: nat, b: nat, wantTerm: bool,
                                     val: string, parts: nat, constant: bool, tainted: bool)
    requires j <= b < |toks| && toks[b] == SEMI
    ensures var f := FoldFrom(toks, tb, j, wantTerm, val, parts, constant, tainted);
            && j <= f.next <= b
            && (f.constant && (wantTerm || f.next > j) ==> f.next > j && TermTok(toks[f.next - 1]))
            && (wantTerm && toks[j].kind == Str && toks[j].constant ==> f.next > j)
    decreases b - j
  {
    if j < b {
      if !wantTerm {
        if toks[j].kind == Dot {
          FoldStops(toks, tb, j + 1, b, true, val, parts, constant, tainted);
        }
      } else {
        match FoldTerm(toks, tb, j, val, parts, tainted)
        case Stop =>
        case Folded(val', parts', ct, tainted') =>
          if |val'| <= MAX_FOLD {
            FoldStops(toks, tb, j + 1, b, false, val', parts', constant && ct, tainted');
          }
      }
    }
  }

  /** The concatenation that begins at j is not called. */
  lemma FoldIsNotCalled(toks: seq<Token>, tb: Tables, i: nat, xs: seq<Token>, j: nat)
    requires Window(toks, i, xs) && Calm(xs) && i <= j < i + |xs|
    ensures var f := FoldExpr(toks, tb, j);
            && j <= f.next < i + |xs|
            && (f.constant ==> toks[f.next].kind != LParen)
            && (toks[j].kind == Str && toks[j].constant ==> f.next > j)
  {
    var b := i + |xs| - 1;
    assert toks[b] == xs[|xs| - 1];
    FoldStops(toks, tb, j, b, true, "", 0, true, false);
    var f := FoldExpr(toks, tb, j);
    if f.constant {
      assert CalmAt(xs, f.next - 1 - i) && toks[f.next - 1] == xs[f.next - 1 - i] && toks[f.next] == xs[f.next - i];
    }
  }

  lemma CalmVar(toks: seq<Token>, tb: Tables, i: nat, xs: seq<Token>)
    requires Window(toks, i, xs) && Calm(xs) && toks[i].kind == Var
    ensures Step(toks, tb, i) == (tb, i + 1)
  {
    assert CalmAt(xs, 0) && toks[i] == xs[0] && toks[i + 1] == xs[1];
    if xs[1] == OPEN {
      assert toks[i + 2] == xs[2] && toks[i + 3] == xs[3] && toks[i + 4] == xs[4];
      assert SkipFrom(toks, i + 3, 1, 2) == i + 4;
      assert SkipFrom(toks, i + 2, 1, 1) == i + 4;
      assert SkipIndex(toks, i + 1) == i + 4;
    } else {
      assert !BracketAt(toks, i + 1, "[") by { BracketIsOpen(xs, 1); }
    }
  }

  lemma BracketIsOpen(xs: seq<Token>, k: nat)
    requires Calm(xs) && k < |xs|
    ensures xs[k].kind == Other && xs[k].val == "[" ==> xs[k] == OPEN
  {
    assert CalmAt(xs, k);
  }

  lemma CalmParen(toks: seq<Token>, tb: Tables, i: nat, xs: seq<Token>)
    requires Window(toks, i, xs) && Calm(xs) && toks[i].kind == LParen
    ensures Step(toks, tb, i) == (tb, i + 1)
  {
    hide FoldExpr, SinkName;
    assert CalmAt(xs, 0) && toks[i] == xs[0] && xs[0..] == xs;
    var f := FoldExpr(toks, tb, i + 1);
    assert |xs| > 1 by { assert xs[|xs| - 1] == SEMI; }
    FoldIsNotCalled(toks, tb, i, xs, i + 1);
    var e := f.next - i;
    assert toks[f.next] == xs[e];
    if xs[e].kind == RParen {
      assert e + 1 < |xs| by { assert xs[|xs| - 1] == SEMI; }
      assert toks[f.next + 1] == xs[e + 1];
    }
  }

  lemma CalmStr(toks: seq<Token>, tb: Tables, i: nat, xs: seq<Token>)
    requires Window(toks, i, xs) && Calm(xs) && toks[i].kind == Str
    ensures Step(toks, tb, i).0 == tb && i < Step(toks, tb, i).1 <= i + |xs|
  {
    hide FoldExpr, SinkName;
    FoldIsNotCalled(toks, tb, i, xs, i);
  }

  lemma CalmStep(toks: seq<Token>, tb: Tables, i: nat, xs: seq<Token>)
    requires Window(toks, i, xs) && Calm(xs)
    ensures Step(toks, tb, i).0 == tb && i < Step(toks, tb, i).1 <= i + |xs|
  {
    assert CalmAt(xs, 0) && toks[i] == xs[0];
    if toks[i].kind == Var {
      CalmVar(toks, tb, i, xs);
    } else if toks[i].kind == LParen {
      CalmParen(toks, tb, i, xs);
    } else if toks[i].kind == Str {
      CalmStr(toks, tb, i, xs);
    }
  }

  lemma CalmRest(xs: seq<Token>, n: nat)
    requires Calm(xs) && n < |xs|
    ensures Calm(xs[n..])
  {
    forall k | 0 <= k < |xs| - n
      ensures CalmAt(xs[n..], k)
    {
      assert CalmAt(xs, n + k) && xs[n..][k..] == xs[n + k..];
    }
  }

  /** A walk over calm tokens changes nothing. */
  lemma {:induction false} CalmWalk(toks: seq<Token>, tb: Tables, i: nat, xs: seq<Token>)
    requires Window(toks, i, xs) && Calm(xs)
    ensures WalkTo(toks, tb, i, i + |xs|) == (tb, i + |xs|)
    decreases |xs|
  {
    assert i + |xs| <= |toks| && xs != [];
    hide Step, Calm, Window;
    CalmStep(toks, tb, i, xs);
    var n := Step(toks, tb, i).1 - i;
    if n < |xs| {
      CalmRest(xs, n);
      WindowFrom(toks, i, xs, n);
      CalmWalk(toks, tb, i + n, xs[n..]);
    }
  }

  // ------------------------------------------------------------ what folds

  /** What ends an expression: no dot, and no call of its last variable. */
  predicate Ends(terms: seq<Term>, t: Token) {
    t.kind != Dot && (terms != [] && !terms[|terms| - 1].Lit? ==> t.kind != LParen)
  }

  predicate Known(table: Store, t: Term) {
    !t.Elem? && (t.Ref? ==> t.name in table)
  }

  /** One term read, at the variable or the literal that it begins with. */
  lemma TermFolds(toks: seq<Token>, tb: Tables, j: nat, t: Term, val: string, parts: nat, constant: bool, tainted: bool)
    requires j + 1 < |toks| && toks[j] == TermToks(t)[0] && !t.Elem? && (t.Ref? ==> toks[j + 1].kind != LParen)
    ensures var f := FoldFrom(toks, tb, j, true, val, parts, constant, tainted);
            var known := Known(tb.symtab, t);
            var val' := if known then val + EvalTerm(tb.symtab, t) else val;
            var tainted' := tainted || (!known && (t.name in tb.taint || t.name in SUPERGLOBALS));
            if |val'| > MAX_FOLD then !f.constant && f.tainted == tainted'
            else f == FoldFrom(toks, tb, j + 1, false, val', if known then parts + 1 else parts, constant && known,
                               tainted')
  {}

  lemma NoDotEnds(toks: seq<Token>, tb: Tables, j: nat, val: string, parts: nat, constant: bool, tainted: bool)
    requires j < |toks|
    ensures FoldFrom(toks, tb, j, false, val, parts, constant, tainted)
            == if toks[j].kind == Dot then FoldFrom(toks, tb, j + 1, true, val, parts, constant, tainted)
               else Fold(val, parts, constant, tainted, j)
  {}

  lemma ReadsSplit(table: Store, requested: set<string>, terms: seq<Term>, room: int)
    requires terms != []
    ensures var rs, t := Reads(terms), Reads(terms)[0];
            && rs != [] && rs[1..] == (if terms[0].Elem? then [] else Reads(terms[1..]))
            && t == (if terms[0].Elem? then Ref(terms[0].name) else terms[0])
            && (Defined(table, rs) <==> Known(table, t) && Defined(table, rs[1..]))
            && Eval(table, rs) == EvalTerm(table, t) + Eval(table, rs[1..])
            && |rs| == 1 + |rs[1..]|
            && (Comes(table, requested, rs, room) <==>
                if Known(table, t) then
                  |EvalTerm(table, t)| <= room && Comes(table, requested, rs[1..], room - |EvalTerm(table, t)|)
                else t.name in requested || t.name in SUPERGLOBALS || Comes(table, requested, rs[1..], room))
  {
    var rs := Reads(terms);
    assert forall k :: 0 < k < |rs| ==> rs[k] == rs[1..][k - 1];
    assert rs[..1] == [rs[0]];
    assert Defined(table, rs[..1]) <==> Known(table, rs[0]) by { assert rs[..1][0] == rs[0]; }
  }

  lemma NothingRead(table: Store, requested: set<string>, room: int)
    ensures Reads([]) == [] && Defined(table, []) && Eval(table, []) == "" && !Comes(table, requested, [], room)
  {}

  /** What the fold of an expression finds: its value exactly when every operand read is
      known and the ceiling holds, and request data exactly when it comes. */
  predicate FoldFinds(toks: seq<Token>, tb: Tables, j: nat, terms: seq<Term>, val: string, parts: nat, constant: bool,
                      tainted: bool, f: Fold) {
    var rs := Reads(terms);
    && (f.constant <==> constant && Defined(tb.symtab, rs) && |val + Eval(tb.symtab, rs)| <= MAX_FOLD)
    && (f.tainted <==> tainted || Comes(tb.symtab, tb.taint, rs, MAX_FOLD - |val|))
    && (f.constant ==>
          && f.val == val + Eval(tb.symtab, rs) && f.parts == parts + |rs|
          && (if Whole(terms) then f.next == j + |ExprToks(terms)| else f.next < |toks| && toks[f.next] == OPEN))
  }

  lemma ExprSplits(terms: seq<Term>)
    requires terms != []
    ensures ExprToks(terms) == TermToks(terms[0]) + if |terms| == 1 then [] else [DOT] + ExprToks(terms[1..])
  {}

  lemma TermWindow(toks: seq<Token>, j: nat, t: Term)
    requires Window(toks, j, TermToks(t))
    ensures j + |TermToks(t)| <= |toks| && toks[j] == TermToks(t)[0]
    ensures t.Elem? ==> j + 1 < |toks| && toks[j + 1] == OPEN
  {
    assert toks[j + 0] == TermToks(t)[0];
    if t.Elem? {
      assert toks[j + 1] == TermToks(t)[1];
    }
  }

  lemma ExprWindow(toks: seq<Token>, j: nat, terms: seq<Term>)
    requires terms != [] && Window(toks, j, ExprToks(terms))
    ensures Window(toks, j, TermToks(terms[0]))
    ensures |terms| == 1 ==> |ExprToks(terms)| == |TermToks(terms[0])|
    ensures |terms| > 1 ==> Continues(toks, j, terms)
  {
    hide ExprToks, TermToks, Window;
    ExprSplits(terms);
    var head, rest := TermToks(terms[0]), ExprToks(terms[1..]);
    if |terms| > 1 {
      WindowSplits(toks, j, head, [DOT] + rest);
      WindowSplits(toks, j + |head|, [DOT], rest);
      OneWindow(toks, j + |head|, DOT);
    } else {
      assert head + [] == head;
    }
  }

  /** A dot and the other terms follow the first one. */
  predicate Continues(toks: seq<Token>, j: nat, terms: seq<Term>)
    requires |terms| > 1
  {
    var n := |TermToks(terms[0])|;
    && |ExprToks(terms)| == n + 1 + |ExprToks(terms[1..])|
    && j + n < |toks| && toks[j + n] == DOT && Window(toks, j + n + 1, ExprToks(terms[1..]))
  }

  lemma OneWindow(toks: seq<Token>, j: nat, t: Token)
    requires Window(toks, j, [t])
    ensures j < |toks| && toks[j] == t
  {}

  lemma WholeSplits(terms: seq<Term>)
    requires terms != []
    ensures Whole(terms) <==> !terms[0].Elem? && Whole(terms[1..])
  {
    assert forall k :: 0 < k < |terms| ==> terms[k] == terms[1..][k - 1];
  }

  lemma ElemFolds(toks: seq<Token>, tb: Tables, j: nat, t: Term, val: string, parts: nat, constant: bool, tainted: bool)
    requires t.Elem? && j + 1 < |toks| && toks[j] == VarTok(t.name) && toks[j + 1] == OPEN && |val| <= MAX_FOLD
    ensures FoldFinds(toks, tb, j, [t], val, parts, constant, tainted,
                      FoldFrom(toks, tb, j, true, val, parts, constant, tainted))
  {
    var r := Ref(t.name);
    ReadsSplit(tb.symtab, tb.taint, [t], MAX_FOLD - |val|);
    NothingRead(tb.symtab, tb.taint, 0);
    assert Reads([t]) == [r];
    TermFolds(toks, tb, j, r, val, parts, constant, tainted);
    assert [t][0].Elem? && !Whole([t]);
    var v := EvalTerm(tb.symtab, r);
    assert Eval(tb.symtab, [r]) == v + "" == v;
    assert !Comes(tb.symtab, tb.taint, [r][1..], MAX_FOLD - |val|);
  }

  lemma {:induction false} FoldFindsIt(toks: seq<Token>, tb: Tables, j: nat, terms: seq<Term>, val: string, parts: nat,
                                       constant: bool, tainted: bool)
    requires terms != [] && |val| <= MAX_FOLD
    requires j + |ExprToks(terms)| < |toks| && Window(toks, j, ExprToks(terms))
    requires Ends(terms, toks[j + |ExprToks(terms)|])
    ensures FoldFinds(toks, tb, j, terms, val, parts, constant, tainted,
                      FoldFrom(toks, tb, j, true, val, parts, constant, tainted))
    decreases |terms|
  {
    hide FoldFrom, Window, ExprToks, Reads, Defined, Eval, Comes, Whole;
    var t, rest := terms[0], terms[1..];
    ExprWindow(toks, j, terms);
    TermWindow(toks, j, t);
    WholeSplits(terms);
    ReadsSplit(tb.symtab, tb.taint, terms, MAX_FOLD - |val|);
    if t.Elem? {
      ElemThenAnything(toks, tb, j, terms, val, parts, constant, tainted);
    } else {
      var known, v := Known(tb.symtab, t), EvalTerm(tb.symtab, t);
      var val' := if known then val + v else val;
      var tainted' := tainted || (!known && (t.name in tb.taint || t.name in SUPERGLOBALS));
      var parts' := if known then parts + 1 else parts;
      TermFolds(toks, tb, j, t, val, parts, constant, tainted);
      assert val + (v + Eval(tb.symtab, Reads(terms)[1..])) == (val + v) + Eval(tb.symtab, Reads(terms)[1..]);
      if |val'| <= MAX_FOLD {
        NoDotEnds(toks, tb, j + 1, val', parts', constant && known, tainted');
        if |terms| > 1 {
          EndsLater(terms, toks[j + |ExprToks(terms)|]);
          FoldFindsIt(toks, tb, j + 2, rest, val', parts', constant && known, tainted');
        } else {
          assert rest == [];
          NothingRead(tb.symtab, tb.taint, MAX_FOLD - |val'|);
          NothingIsWhole();
          assert (val + v) + "" == val + v;
        }
      }
    }
  }

  lemma NothingIsWhole()
    ensures Whole([])
  {}

  lemma EndsLater(terms: seq<Term>, t: Token)
    requires |terms| > 1 && Ends(terms, t)
    ensures Ends(terms[1..], t)
  {}

  lemma ElemThenAnything(toks: seq<Token>, tb: Tables, j: nat, terms: seq<Term>, val: string, parts: nat,
                         constant: bool, tainted: bool)
    requires terms != [] && terms[0].Elem? && |val| <= MAX_FOLD
    requires j + 1 < |toks| && toks[j] == TermToks(terms[0])[0] && toks[j + 1] == OPEN
    ensures FoldFinds(toks, tb, j, terms, val, parts, constant, tainted,
                      FoldFrom(toks, tb, j, true, val, parts, constant, tainted))
  {
    hide FoldFrom, Comes, Eval, ExprToks;
    ElemFolds(toks, tb, j, terms[0], val, parts, constant, tainted);
    assert Reads(terms) == Reads([terms[0]]);
    assert !Whole(terms) && !Whole([terms[0]]) by { assert [terms[0]][0] == terms[0]; }
  }

  /** A whole expression, from the beginning. */
  lemma FoldExprFinds(toks: seq<Token>, tb: Tables, j: nat, terms: seq<Term>)
    requires terms != [] && j + |ExprToks(terms)| < |toks| && Window(toks, j, ExprToks(terms))
    requires Ends(terms, toks[j + |ExprToks(terms)|])
    ensures var f := FoldExpr(toks, tb, j);
            && (f.constant <==> Folds(tb.symtab, terms))
            && (f.tainted <==> Comes(tb.symtab, tb.taint, Reads(terms), MAX_FOLD))
            && (f.constant ==>
                  && f.val == Value(tb.symtab, terms) && f.parts == |Reads(terms)|
                  && (if Whole(terms) then f.next == j + |ExprToks(terms)|
                      else f.next < |toks| && toks[f.next] == OPEN))
  {
    hide FoldFrom, Window, ExprToks, Reads, Defined, Eval, Comes, Whole;
    FoldFindsIt(toks, tb, j, terms, "", 0, true, false);
    assert "" + Eval(tb.symtab, Reads(terms)) == Eval(tb.symtab, Reads(terms));
  }

  // ------------------------------------------------------------- lead steps

  /** Only reports were added, and these. */
  predicate Says(tb: Tables, tb': Tables, found: set<string>) {
    ViewOf(tb') == ViewOf(tb).(reports := tb.seen + found)
  }

  lemma AddSays(tb: Tables, score: int, name: string)
    ensures Says(tb, Add(tb, score, name), {name})
  {
    forall n
      ensures n in Add(tb, score, name).seen <==> n in tb.seen + {name}
    {}
  }

  lemma SaysTwice(tb: Tables, tb1: Tables, tb2: Tables, found: set<string>, more: set<string>)
    requires Says(tb, tb1, found) && Says(tb1, tb2, more)
    ensures Says(tb, tb2, found + more)
  {
    assert tb.seen + found + more == tb.seen + (found + more);
  }

  lemma SaysNothing(tb: Tables)
    ensures Says(tb, tb, {})
  {
    assert tb.seen + {} == tb.seen;
  }

  /** The first turn does all the work of a statement. */
  predicate LeadDoes(toks: seq<Token>, tb: Tables, a: nat, s: Stmt)
    requires a < |toks|
  {
    var (tb', next) := Step(toks, tb, a);
    next == a + |Lead(s)| && ViewOf(tb') == After(ViewOf(tb), s)
  }

  /** A statement that writes nothing, whose turn only reports. */
  lemma LeadSays(toks: seq<Token>, tb: Tables, a: nat, s: Stmt, tb': Tables, code: seq<string>)
    requires !s.Assign? && !s.Append? && a < |toks| && Step(toks, tb, a) == (tb', a + |Lead(s)|)
    requires Code(ViewOf(tb), s) == code
    requires ViewOf(tb') == ViewOf(tb).(reports := tb.seen + Found(ViewOf(tb), s), code := code)
    ensures LeadDoes(toks, tb, a, s)
  {
    hide Step, Found, Code, Lead;
  }

  lemma WriteWindows(toks: seq<Token>, a: nat, s: Stmt)
    requires (s.Assign? || s.Append?) && Window(toks, a, StmtToks(s))
    ensures a + 2 + |ExprToks(s.terms)| < |toks| && toks[a] == Lead(s)[0] && toks[a + 1] == Lead(s)[1]
    ensures Window(toks, a + 2, ExprToks(s.terms)) && toks[a + 2 + |ExprToks(s.terms)|] == SEMI
  {
    hide ExprToks;
    var e := ExprToks(s.terms);
    assert StmtToks(s) == Lead(s) + (e + [SEMI]);
    WindowSplits(toks, a, Lead(s), e + [SEMI]);
    WindowSplits(toks, a + 2, e, [SEMI]);
    OneWindow(toks, a + 2 + |e|, SEMI);
  }

  /** A statement that calls nothing is looked for by one detector only. */
  lemma NoCall(view: View, s: Stmt)
    ensures s.Assign? || s.Append? ==>
              Found(view, s) == Only(PutsSinkTogether(view, s), CONCATENATED_SINK) && Code(view, s) == view.code
  {
    hide PutsSinkTogether;
  }

  lemma AssignStep(toks: seq<Token>, tb: Tables, a: nat, s: Stmt)
    requires s.Assign? && Spelled(s) && Window(toks, a, StmtToks(s)) && a < |toks|
    ensures LeadDoes(toks, tb, a, s)
  {
    WriteWindows(toks, a, s);
    FoldExprFinds(toks, tb, a + 2, s.terms);
    assert Step(toks, tb, a) == (AssignAt(toks, tb, a), a + 2);
    AssignDoes(toks, tb, a, s);
    NoCall(ViewOf(tb), s);
    hide AssignAt, Requested, FoldStmt, Joined, Step;
  }

  lemma AssignDoes(toks: seq<Token>, tb: Tables, a: nat, s: Stmt)
    requires s.Assign? && a < |toks| && toks[a].val == s.v
    requires var f := FoldExpr(toks, tb, a + 2);
             && (f.constant <==> Folds(tb.symtab, s.terms))
             && (f.tainted <==> Comes(tb.symtab, tb.taint, Reads(s.terms), MAX_FOLD))
             && (f.constant ==> f.val == Value(tb.symtab, s.terms) && f.parts == |Reads(s.terms)|)
    ensures var tb', view := AssignAt(toks, tb, a), ViewOf(tb);
            ViewOf(tb') == View(FoldStmt(view.values, s), Requested(view, s), Joined(view, s), view.code,
                                view.reports + Only(PutsSinkTogether(view, s), CONCATENATED_SINK))
  {
    assert Folds(tb.symtab, s.terms) ==> |Value(tb.symtab, s.terms)| <= MAX_FOLD;
    hide FoldExpr, Folds, Value, Reads, Comes, SinkName;
    var f := FoldExpr(toks, tb, a + 2);
    var tb1 := ApplyAssign(tb, s.v, f.val, f.parts, f.constant, f.tainted);
    AddSays(tb1, WEIGHT_PROOF, CONCATENATED_SINK);
    SaysNothing(tb1);
  }

  lemma AppendStep(toks: seq<Token>, tb: Tables, a: nat, s: Stmt)
    requires s.Append? && Spelled(s) && Window(toks, a, StmtToks(s)) && a < |toks|
    ensures LeadDoes(toks, tb, a, s)
  {
    WriteWindows(toks, a, s);
    FoldExprFinds(toks, tb, a + 2, s.terms);
    var f, view := FoldExpr(toks, tb, a + 2), ViewOf(tb);
    hide FoldExpr, Folds, Value, Reads, Comes, SinkName, ExprToks, Window;
    assert Step(toks, tb, a) == (CompoundAt(toks, tb, a), a + 2);
    AppendDoes(toks, tb, a, s);
    NoCall(view, s);
    hide CompoundAt, Requested, FoldStmt, Joined;
  }

  lemma AppendDoes(toks: seq<Token>, tb: Tables, a: nat, s: Stmt)
    requires s.Append? && a < |toks| && toks[a].val == s.v
    requires var f := FoldExpr(toks, tb, a + 2);
             && (f.constant <==> Folds(tb.symtab, s.terms))
             && (f.tainted <==> Comes(tb.symtab, tb.taint, Reads(s.terms), MAX_FOLD))
             && (f.constant ==> f.val == Value(tb.symtab, s.terms))
    ensures var tb', view := CompoundAt(toks, tb, a), ViewOf(tb);
            ViewOf(tb') == View(FoldStmt(view.values, s), Requested(view, s), Joined(view, s), view.code,
                                view.reports + Only(PutsSinkTogether(view, s), CONCATENATED_SINK))
  {
    hide FoldExpr, Folds, Value, Reads, Comes, SinkName;
    var f, view := FoldExpr(toks, tb, a + 2), ViewOf(tb);
    var joined := ValueOf(tb, s.v) + f.val;
    if f.constant && |joined| <= MAX_FOLD {
      var tb1 := tb.(symtab := tb.symtab[s.v := joined], concatVar := tb.concatVar + {s.v}, taint := tb.taint - {s.v});
      AddSays(tb1, WEIGHT_PROOF, CONCATENATED_SINK);
      SaysNothing(tb1);
      assert joined == Lookup(view.values, s.v) + Value(view.values, s.terms);
    } else {
      SaysNothing(tb);
    }
  }

  /** Where arguments begin. */
  lemma ArgWindows(toks: seq<Token>, b: nat, args: seq<Term>)
    requires Window(toks, b, ArgToks(args))
    ensures b + 1 + |ExprToks(args)| + 2 <= |toks| && toks[b] == LPAREN
    ensures Window(toks, b + 1, ExprToks(args)) && toks[b + 1 + |ExprToks(args)|] == RPAREN
  {
    hide ExprToks;
    var e := ExprToks(args);
    WindowSplits(toks, b, [LPAREN], e + [RPAREN, SEMI]);
    WindowSplits(toks, b + 1, e, [RPAREN, SEMI]);
    OneWindow(toks, b, LPAREN);
    assert toks[b + 1 + |e| + 0] == [RPAREN, SEMI][0];
  }

  lemma VarCallSays(toks: seq<Token>, tb: Tables, a: nat, f: string)
    requires a + 1 < |toks| && toks[a] == VarTok(f) && toks[a + 1] == LPAREN && !MemberAccess(toks, a)
    ensures Says(tb, VarCallAt(toks, tb, a),
                 Only(f in tb.symtab && SinkName(tb.symtab[f]), VARIABLE_SINK_CALL)
                 + Only(f in tb.taint, TAINTED_NAME_CALL))
  {
    var sink := f in tb.symtab && SinkName(tb.symtab[f]);
    var tb1 := if sink then Add(tb, WEIGHT_STRONG, VARIABLE_SINK_CALL) else tb;
    SaysNothing(tb);
    SaysNothing(tb1);
    AddSays(tb, WEIGHT_STRONG, VARIABLE_SINK_CALL);
    AddSays(tb1, WEIGHT_PROOF, TAINTED_NAME_CALL);
    hide Add, SinkName;
    SaysTwice(tb, tb1, VarCallAt(toks, tb, a), Only(sink, VARIABLE_SINK_CALL), Only(f in tb.taint, TAINTED_NAME_CALL));
  }

  lemma GlobalCallSays(toks: seq<Token>, tb: Tables, a: nat, g: string)
    requires a + 1 < |toks| && toks[a] == VarTok(g) && !MemberAccess(toks, a)
    ensures var j := SkipIndex(toks, a + 1);
            Says(tb, SuperglobalCallAt(toks, tb, a),
                 Only(g in SUPERGLOBALS && j < |toks| && toks[j].kind == LParen, SUPERGLOBAL_CALL))
  {
    SaysNothing(tb);
    AddSays(tb, WEIGHT_PROOF, SUPERGLOBAL_CALL);
  }

  /** Statements of which a turn sees only the variable that they begin with. */
  lemma VarStep(toks: seq<Token>, tb: Tables, a: nat)
    requires a + 1 < |toks| && toks[a].kind == Var && toks[a + 1].kind !in {AssignOp, DotEq}
    ensures Step(toks, tb, a) == (SuperglobalCallAt(toks, VarCallAt(toks, tb, a), a), a + 1)
  {}

  lemma IdentStep(toks: seq<Token>, tb: Tables, a: nat)
    requires a < |toks| && toks[a].kind == Ident
    ensures Step(toks, tb, a) == (EvalConcatAt(toks, tb, a), a + 1)
  {}

  lemma ParenStep(toks: seq<Token>, tb: Tables, a: nat)
    requires a < |toks| && toks[a].kind == LParen
    ensures Step(toks, tb, a) == (ParenConcatAt(toks, tb, a), a + 1)
  {}

  lemma StrStep(toks: seq<Token>, tb: Tables, a: nat)
    requires a < |toks| && toks[a].kind == Str
    ensures KindAt(toks, a + 1) != Dot ==> Step(toks, tb, a) == (tb, a + 1)
    ensures KindAt(toks, a + 1) == Dot && FoldExpr(toks, tb, a).next > a ==>
              Step(toks, tb, a) == (InlineSinkAt(toks, tb, a), FoldExpr(toks, tb, a).next)
  {
    hide FoldExpr, InlineSinkAt;
  }

  lemma CallStep(toks: seq<Token>, tb: Tables, a: nat, s: Stmt)
    requires s.Call? && AtStatement(toks, a) && Window(toks, a, StmtToks(s)) && a < |toks|
    ensures LeadDoes(toks, tb, a, s)
  {
    WindowSplits(toks, a, Lead(s), Trail(s));
    OneWindow(toks, a, VarTok(s.f));
    ArgWindows(toks, a + 1, s.args);
    VarStep(toks, tb, a);
    assert !MemberAccess(toks, a) && SkipIndex(toks, a + 1) == a + 1;
    var tb1, view := VarCallAt(toks, tb, a), ViewOf(tb);
    VarCallSays(toks, tb, a, s.f);
    GlobalCallSays(toks, tb1, a, s.f);
    CallFound(view, s);
    hide Window, VarCallAt, SuperglobalCallAt, MemberAccess, SkipIndex, Step, SinkName, AtStatement, Found, Only;
    hide CallsSink, CallsRequested, CallsSuperglobal;
    SaysTwice(tb, tb1, SuperglobalCallAt(toks, tb1, a),
              Only(CallsSink(view, s), VARIABLE_SINK_CALL) + Only(CallsRequested(view, s), TAINTED_NAME_CALL),
              Only(CallsSuperglobal(s), SUPERGLOBAL_CALL));
  }

  lemma CallFound(view: View, s: Stmt)
    requires s.Call?
    ensures CallsSink(view, s) <==> s.f in view.values && SinkName(view.values[s.f])
    ensures CallsRequested(view, s) <==> s.f in view.requested
    ensures CallsSuperglobal(s) <==> s.f in SUPERGLOBALS
    ensures Found(view, s) == Only(CallsSink(view, s), VARIABLE_SINK_CALL)
                              + Only(CallsRequested(view, s), TAINTED_NAME_CALL)
                              + Only(CallsSuperglobal(s), SUPERGLOBAL_CALL)
    ensures Code(view, s) == view.code
  {
    hide SinkName;
  }

  // ----------------------------------------------- calls through an element

  /** Skipping over an expression inside brackets: to its end, or to somewhere inside it
      when the bound is met. */
  predicate SkipsOver(toks: seq<Token>, j: nat, n: nat, depth: int, steps: nat) {
    if steps + n <= MAX_INDEX then SkipFrom(toks, j, depth, steps) == SkipFrom(toks, j + n, depth, steps + n)
    else j <= SkipFrom(toks, j, depth, steps) < j + n
  }

  lemma SkipTerm(toks: seq<Token>, j: nat, t: Term, depth: int, steps: nat)
    requires Window(toks, j, TermToks(t)) && depth >= 1 && steps <= MAX_INDEX
    ensures SkipsOver(toks, j, |TermToks(t)|, depth, steps)
  {
    var xs := TermToks(t);
    assert toks[j] == xs[0];
    if t.Elem? {
      assert toks[j + 1] == xs[1] && toks[j + 2] == xs[2] && toks[j + 3] == xs[3];
      assert steps + 3 < MAX_INDEX ==>
          SkipFrom(toks, j + 3, depth + 1, steps + 3) == SkipFrom(toks, j + 4, depth, steps + 4);
      assert steps + 2 < MAX_INDEX ==>
               SkipFrom(toks, j + 2, depth + 1, steps + 2) == SkipFrom(toks, j + 3, depth + 1, steps + 3);
      assert steps + 1 < MAX_INDEX ==>
               SkipFrom(toks, j + 1, depth, steps + 1) == SkipFrom(toks, j + 2, depth + 1, steps + 2);
    }
  }

  lemma SkipsTwice(toks: seq<Token>, j: nat, n: nat, m: nat, depth: int, steps: nat)
    requires SkipsOver(toks, j, n, depth, steps)
    requires steps + n <= MAX_INDEX ==> SkipsOver(toks, j + n, m, depth, steps + n)
    ensures SkipsOver(toks, j, n + m, depth, steps)
  {}

  lemma SkipDot(toks: seq<Token>, j: nat, depth: int, steps: nat)
    requires j < |toks| && toks[j] == DOT && steps <= MAX_INDEX
    ensures SkipsOver(toks, j, 1, depth, steps)
  {}

  /** The first term and the dot after it. */
  lemma SkipFirst(toks: seq<Token>, j: nat, terms: seq<Term>, depth: int, steps: nat)
    requires |terms| > 1 && Window(toks, j, ExprToks(terms)) && depth >= 1 && steps <= MAX_INDEX
    ensures var n := |TermToks(terms[0])| + 1;
            && SkipsOver(toks, j, n, depth, steps) && Window(toks, j + n, ExprToks(terms[1..]))
            && |ExprToks(terms)| == n + |ExprToks(terms[1..])|
  {
    ExprWindow(toks, j, terms);
    assert Continues(toks, j, terms);
    var n := |TermToks(terms[0])|;
    hide ExprToks, Window, TermToks, SkipsOver;
    SkipTerm(toks, j, terms[0], depth, steps);
    if steps + n <= MAX_INDEX {
      SkipDot(toks, j + n, depth, steps + n);
    }
    SkipsTwice(toks, j, n, 1, depth, steps);
  }

  lemma NothingSkipped(toks: seq<Token>, j: nat, depth: int, steps: nat)
    requires steps <= MAX_INDEX
    ensures SkipsOver(toks, j, |ExprToks([])|, depth, steps)
  {}

  lemma {:induction false} SkipExpr(toks: seq<Token>, j: nat, terms: seq<Term>, depth: int, steps: nat)
    requires Window(toks, j, ExprToks(terms)) && depth >= 1 && steps <= MAX_INDEX
    ensures SkipsOver(toks, j, |ExprToks(terms)|, depth, steps)
    decreases |terms|
  {
    hide SkipsOver, ExprToks, Window, TermToks;
    if terms == [] {
      NothingSkipped(toks, j, depth, steps);
    } else if |terms| == 1 {
      ExprWindow(toks, j, terms);
      SkipTerm(toks, j, terms[0], depth, steps);
    } else {
      SkipFirst(toks, j, terms, depth, steps);
      var n, m := |TermToks(terms[0])| + 1, |ExprToks(terms[1..])|;
      if steps + n <= MAX_INDEX {
        SkipExpr(toks, j + n, terms[1..], depth, steps + n);
      }
      SkipsTwice(toks, j, n, m, depth, steps);
    }
  }

  lemma {:induction false} NoParenInside(terms: seq<Term>, k: nat)
    requires k < |ExprToks(terms)|
    ensures ExprToks(terms)[k].kind != LParen
    decreases |terms|
  {
    ExprSplits(terms);
    var n := |TermToks(terms[0])|;
    if k > n {
      NoParenInside(terms[1..], k - n - 1);
    }
  }

  lemma IndexIsSkipped(toks: seq<Token>, j: nat, index: seq<Term>)
    requires Window(toks, j, [OPEN] + (ExprToks(index) + [CLOSE, LPAREN]))
    ensures var n, e := |ExprToks(index)|, SkipIndex(toks, j);
            (e < |toks| && toks[e].kind == LParen) <==> n <= MAX_INDEX - 2
  {
    hide ExprToks;
    var e := ExprToks(index);
    WindowSplits(toks, j, [OPEN], e + [CLOSE, LPAREN]);
    WindowSplits(toks, j + 1, e, [CLOSE, LPAREN]);
    OneWindow(toks, j, OPEN);
    var end := j + 1 + |e|;
    assert toks[end + 0] == [CLOSE, LPAREN][0] && toks[end + 1] == [CLOSE, LPAREN][1];
    SkipExpr(toks, j + 1, index, 1, 1);
    var r := SkipFrom(toks, j + 1, 1, 1);
    assert SkipIndex(toks, j) == r;
    if 1 + |e| <= MAX_INDEX {
      assert r == SkipFrom(toks, end, 1, 1 + |e|);
      assert r == if 1 + |e| < MAX_INDEX then end + 1 else end;
    } else {
      NoParenInside(index, r - (j + 1));
      assert toks[r] == e[r - (j + 1)];
    }
  }

  lemma IndexWindow(toks: seq<Token>, b: nat, s: Stmt)
    requires s.IndexCall? && Window(toks, b, Trail(s))
    ensures Window(toks, b, [OPEN] + (ExprToks(s.index) + [CLOSE, LPAREN]))
  {
    hide ExprToks, Window;
    var e, args := ExprToks(s.index), ExprToks(s.args) + [RPAREN, SEMI];
    Regroups(e, args);
    WindowSplits(toks, b, [OPEN] + (e + [CLOSE, LPAREN]), args);
  }

  lemma Regroups(e: seq<Token>, args: seq<Token>)
    ensures [OPEN] + (e + ([CLOSE] + ([LPAREN] + args))) == [OPEN] + (e + [CLOSE, LPAREN]) + args
  {}

  lemma IndexCallFound(view: View, s: Stmt)
    requires s.IndexCall?
    ensures Found(view, s) == Only(CallsSuperglobal(s), SUPERGLOBAL_CALL) && Code(view, s) == view.code
    ensures CallsSuperglobal(s) <==> s.g in SUPERGLOBALS && |ExprToks(s.index)| <= MAX_INDEX - 2
  {
    hide ExprToks;
  }

  lemma IndexPlaces(toks: seq<Token>, a: nat, s: Stmt)
    requires s.IndexCall? && Window(toks, a, StmtToks(s))
    ensures a + 1 < |toks| && toks[a] == VarTok(s.g) && toks[a + 1] == OPEN
    ensures var e := SkipIndex(toks, a + 1);
            (e < |toks| && toks[e].kind == LParen) <==> |ExprToks(s.index)| <= MAX_INDEX - 2
  {
    assert StmtToks(s) == Lead(s) + Trail(s) && Lead(s) == [VarTok(s.g)];
    hide ExprToks, Window, SkipIndex, Trail;
    WindowSplits(toks, a, Lead(s), Trail(s));
    OneWindow(toks, a, VarTok(s.g));
    IndexWindow(toks, a + 1, s);
    IndexIsSkipped(toks, a + 1, s.index);
    WindowSplits(toks, a + 1, [OPEN], ExprToks(s.index) + [CLOSE, LPAREN]);
    OneWindow(toks, a + 1, OPEN);
  }

  lemma IndexCallSays(toks: seq<Token>, tb: Tables, a: nat, s: Stmt)
    requires s.IndexCall? && AtStatement(toks, a) && Window(toks, a, StmtToks(s)) && a < |toks|
    ensures a + 1 < |toks| && toks[a].kind == Var && toks[a + 1].kind == Other
    ensures VarCallAt(toks, tb, a) == tb
    ensures Says(tb, SuperglobalCallAt(toks, tb, a), Only(CallsSuperglobal(s), SUPERGLOBAL_CALL))
  {
    IndexPlaces(toks, a, s);
    hide Window, SkipIndex, ExprToks, StmtToks;
    GlobalCallSays(toks, tb, a, s.g);
    hide SuperglobalCallAt;
  }

  lemma IndexCallStep(toks: seq<Token>, tb: Tables, a: nat, s: Stmt)
    requires s.IndexCall? && AtStatement(toks, a) && Window(toks, a, StmtToks(s)) && a < |toks|
    ensures LeadDoes(toks, tb, a, s)
  {
    IndexCallSays(toks, tb, a, s);
    IndexCallFound(ViewOf(tb), s);
    hide Window, SuperglobalCallAt, VarCallAt, Found, Only, ExprToks, StmtToks, LeadDoes, Step, Code;
    VarStep(toks, tb, a);
    LeadSays(toks, tb, a, s, SuperglobalCallAt(toks, tb, a), tb.fragments);
  }

  // -------------------------------------------------- calls by name and in place

  lemma NamedCallFound(view: View, s: Stmt)
    requires s.NamedCall?
    ensures Found(view, s) == Only(EvalsVariable(view, s) || EvalsConcat(view, s), EVAL_CONCAT)
  {
    hide EvalsVariable, EvalsConcat;
  }

  /** The first token of the arguments, and whether a dot follows it. */
  lemma FirstArg(toks: seq<Token>, b: nat, terms: seq<Term>)
    requires terms != [] && Window(toks, b, ExprToks(terms)) && b + |ExprToks(terms)| < |toks|
    requires toks[b + |ExprToks(terms)|] == RPAREN
    ensures toks[b] == TermToks(terms[0])[0]
    ensures terms[0].Lit? ==> (KindAt(toks, b + 1) == Dot <==> |terms| > 1)
  {
    ExprWindow(toks, b, terms);
    TermWindow(toks, b, terms[0]);
  }

  lemma NamedWindows(toks: seq<Token>, tb: Tables, a: nat, s: Stmt)
    requires s.NamedCall? && Window(toks, a, StmtToks(s))
    ensures a + 2 < |toks| && toks[a] == Token(Ident, s.fn, false) && toks[a + 1] == LPAREN
    ensures if s.args == [] then toks[a + 2] == RPAREN else ArgIs(toks, tb, a + 2, s.args)
  {
    hide ExprToks, Window, FoldExpr, Folds, Value, Reads;
    WindowSplits(toks, a, Lead(s), Trail(s));
    OneWindow(toks, a, Token(Ident, s.fn, false));
    ArgWindows(toks, a + 1, s.args);
    if s.args != [] {
      FirstArg(toks, a + 2, s.args);
      FoldExprFinds(toks, tb, a + 2, s.args);
      TwoRead(s.args);
    } else {
      NoExpr();
    }
  }

  lemma NoExpr()
    ensures ExprToks([]) == []
  {}

  /** The tokens of an argument, and what they fold to. */
  predicate ArgIs(toks: seq<Token>, tb: Tables, j: nat, args: seq<Term>)
    requires j < |toks| && args != []
  {
    && toks[j] == TermToks(args[0])[0]
    && (args[0].Lit? ==> (KindAt(toks, j + 1) == Dot <==> |args| > 1))
    && (args[0].Lit? ==> (|Reads(args)| >= 2 <==> |args| >= 2))
    && var f := FoldExpr(toks, tb, j);
       (f.constant <==> Folds(tb.symtab, args))
       && (f.constant ==> f.val == Value(tb.symtab, args) && f.parts == |Reads(args)|)
  }

  lemma NamedCallStep(toks: seq<Token>, tb: Tables, a: nat, s: Stmt)
    requires s.NamedCall? && Window(toks, a, StmtToks(s)) && a < |toks|
    ensures LeadDoes(toks, tb, a, s)
  {
    NamedWindows(toks, tb, a, s);
    NamedCallFound(ViewOf(tb), s);
    EvalDoes(toks, tb, a, s);
    hide Window, EvalConcatAt, Step, Found, ExprToks, Code, StmtToks, ArgIs, LeadDoes, EvalsVariable, EvalsConcat, Only;
    IdentStep(toks, tb, a);
    LeadSays(toks, tb, a, s, EvalConcatAt(toks, tb, a), Code(ViewOf(tb), s));
  }

  lemma TwoRead(terms: seq<Term>)
    requires terms != []
    ensures terms[0].Lit? ==> (|Reads(terms)| >= 2 <==> |terms| >= 2)
  {
    if terms[0].Lit? && |terms| > 1 {
      assert Reads(terms[1..]) != [];
    }
  }

  lemma EvalDoes(toks: seq<Token>, tb: Tables, a: nat, s: Stmt)
    requires s.NamedCall? && a + 2 < |toks| && toks[a] == Token(Ident, s.fn, false) && toks[a + 1] == LPAREN
    requires if s.args == [] then toks[a + 2] == RPAREN else ArgIs(toks, tb, a + 2, s.args)
    ensures var tb', view := EvalConcatAt(toks, tb, a), ViewOf(tb);
            ViewOf(tb') == view.(code := Code(view, s),
                                 reports := view.reports
                                            + Only(EvalsVariable(view, s) || EvalsConcat(view, s), EVAL_CONCAT))
  {
    hide FoldExpr, Folds, Value, Reads, Lower;
    SaysNothing(tb);
    AddSays(tb, WEIGHT_PROOF, EVAL_CONCAT);
    hide Add;
  }

  lemma ParenFound(view: View, s: Stmt)
    requires s.ParenCall? || s.InlineCall?
    ensures Found(view, s) == Only(PutsSinkTogether(view, s), CONCATENATED_SINK) && Code(view, s) == view.code
  {
    hide PutsSinkTogether;
  }

  lemma ParenWindows(toks: seq<Token>, b: nat, callee: seq<Term>, args: seq<Term>)
    requires Window(toks, b, ExprToks(callee) + ([RPAREN] + ArgToks(args)))
    ensures Window(toks, b, ExprToks(callee))
    ensures var end := b + |ExprToks(callee)|;
            end + 1 < |toks| && toks[end] == RPAREN && toks[end + 1] == LPAREN
  {
    hide ExprToks;
    var e := ExprToks(callee);
    WindowSplits(toks, b, e, [RPAREN] + ArgToks(args));
    WindowSplits(toks, b + |e|, [RPAREN], ArgToks(args));
    OneWindow(toks, b + |e|, RPAREN);
    ArgWindows(toks, b + |e| + 1, args);
  }

  lemma ParenCallSays(toks: seq<Token>, tb: Tables, a: nat, s: Stmt)
    requires s.ParenCall? && a < |toks| && toks[a] == LPAREN && Window(toks, a + 1, ExprToks(s.callee))
    requires var end := a + 1 + |ExprToks(s.callee)|;
             end + 1 < |toks| && toks[end] == RPAREN && toks[end + 1] == LPAREN
    ensures Says(tb, ParenConcatAt(toks, tb, a), Only(PutsSinkTogether(ViewOf(tb), s), CONCATENATED_SINK))
  {
    hide Window, Folds, Value, Reads, SinkName, Add, Whole, Says;
    SaysNothing(tb);
    AddSays(tb, WEIGHT_PROOF, CONCATENATED_SINK);
    if s.callee != [] {
      hide ExprToks, FoldExpr;
      CalleeIs(toks, tb, a + 1, s.callee);
    }
  }

  lemma CalleeIs(toks: seq<Token>, tb: Tables, j: nat, callee: seq<Term>)
    requires callee != [] && Window(toks, j, ExprToks(callee)) && j + |ExprToks(callee)| < |toks|
    requires toks[j + |ExprToks(callee)|] == RPAREN
    ensures ArgIs(toks, tb, j, callee)
    ensures var f := FoldExpr(toks, tb, j);
            f.constant ==>
              if Whole(callee) then f.next == j + |ExprToks(callee)| else f.next < |toks| && toks[f.next] == OPEN
  {
    hide ExprToks, Window, FoldExpr, Folds, Value, Reads, Whole;
    FirstArg(toks, j, callee);
    FoldExprFinds(toks, tb, j, callee);
    TwoRead(callee);
  }

  lemma ParenCallStep(toks: seq<Token>, tb: Tables, a: nat, s: Stmt)
    requires s.ParenCall? && Window(toks, a, StmtToks(s)) && a < |toks|
    ensures LeadDoes(toks, tb, a, s)
  {
    hide Window, ParenConcatAt, Step, Found, Only, PutsSinkTogether, ExprToks, Code, LeadDoes;
    WindowSplits(toks, a, Lead(s), Trail(s));
    OneWindow(toks, a, LPAREN);
    ParenWindows(toks, a + 1, s.callee, s.args);
    ParenCallSays(toks, tb, a, s);
    ParenFound(ViewOf(tb), s);
    ParenStep(toks, tb, a);
    LeadSays(toks, tb, a, s, ParenConcatAt(toks, tb, a), tb.fragments);
  }

  lemma {:induction false} PiecesFold(table: Store, pieces: seq<string>)
    requires |Concat(pieces)| <= MAX_FOLD
    ensures Whole(Lits(pieces)) && Reads(Lits(pieces)) == Lits(pieces)
    ensures Folds(table, Lits(pieces)) && Value(table, Lits(pieces)) == Concat(pieces)
  {
    if pieces != [] {
      assert Lits(pieces)[1..] == Lits(pieces[1..]);
      PiecesFold(table, pieces[1..]);
    }
  }

  lemma InlineWindows(toks: seq<Token>, a: nat, s: Stmt)
    requires s.InlineCall? && Window(toks, a, StmtToks(s))
    ensures var n := |ExprToks(Lits(s.pieces))|;
            Window(toks, a, ExprToks(Lits(s.pieces))) && a + n < |toks| && toks[a + n] == LPAREN
  {
    hide ExprToks;
    var e := ExprToks(Lits(s.pieces));
    WindowSplits(toks, a, e, Trail(s));
    ArgWindows(toks, a + |e|, s.args);
  }

  lemma InlineSays(toks: seq<Token>, tb: Tables, a: nat, s: Stmt)
    requires s.InlineCall? && Spelled(s) && |s.pieces| > 1
    requires var e := ExprToks(Lits(s.pieces));
             Window(toks, a, e) && a + |e| < |toks| && toks[a + |e|] == LPAREN
    ensures Says(tb, InlineSinkAt(toks, tb, a), Only(PutsSinkTogether(ViewOf(tb), s), CONCATENATED_SINK))
    ensures FoldExpr(toks, tb, a).next == a + |ExprToks(Lits(s.pieces))|
  {
    SaysNothing(tb);
    AddSays(tb, WEIGHT_PROOF, CONCATENATED_SINK);
    PiecesFold(tb.symtab, s.pieces);
    hide ExprToks, Window, FoldExpr, Folds, Value, Reads, SinkName, Add, Whole, Says, Concat;
    FoldExprFinds(toks, tb, a, Lits(s.pieces));
  }

  lemma InlineCallStep(toks: seq<Token>, tb: Tables, a: nat, s: Stmt)
    requires s.InlineCall? && Spelled(s) && Window(toks, a, StmtToks(s)) && a < |toks|
    ensures LeadDoes(toks, tb, a, s)
  {
    var terms := Lits(s.pieces);
    InlineWindows(toks, a, s);
    ExprWindow(toks, a, terms);
    TermWindow(toks, a, terms[0]);
    ParenFound(ViewOf(tb), s);
    SaysNothing(tb);
    StrStep(toks, tb, a);
    if |terms| > 1 {
      InlineSays(toks, tb, a, s);
      hide Window, InlineSinkAt, Step, Found, Only, PutsSinkTogether, ExprToks, StmtToks, Code, LeadDoes, FoldExpr;
      hide Lits;
      LeadSays(toks, tb, a, s, InlineSinkAt(toks, tb, a), tb.fragments);
    } else {
      assert ExprToks(terms) == TermToks(terms[0]);
      hide Window, Step, Found, ExprToks, StmtToks, Code, LeadDoes, FoldExpr, SinkName;
      LeadSays(toks, tb, a, s, tb, tb.fragments);
    }
  }

  // -------------------------------------------------------- whole programs

  lemma LeadStep(toks: seq<Token>, tb: Tables, a: nat, s: Stmt)
    requires Spelled(s) && AtStatement(toks, a) && Window(toks, a, StmtToks(s)) && a < |toks|
    ensures LeadDoes(toks, tb, a, s)
  {
    hide LeadDoes, AtStatement, Window, StmtToks;
    match s
    case Assign(_, _) => AssignStep(toks, tb, a, s);
    case Append(_, _) => AppendStep(toks, tb, a, s);
    case Call(_, _) => CallStep(toks, tb, a, s);
    case IndexCall(_, _, _) => IndexCallStep(toks, tb, a, s);
    case NamedCall(_, _) => NamedCallStep(toks, tb, a, s);
    case ParenCall(_, _) => ParenCallStep(toks, tb, a, s);
    case InlineCall(_, _) => InlineCallStep(toks, tb, a, s);
  }

  lemma LeadIsSome(s: Stmt)
    requires Spelled(s)
    ensures Lead(s) != [] && Trail(s) != []
  {
    if s.InlineCall? {
      ExprSplits(Lits(s.pieces));
    }
  }

  lemma WalkUnfolds(toks: seq<Token>, tb: Tables, i: nat, limit: nat)
    requires i < limit <= |toks| && i < Step(toks, tb, i).1
    ensures WalkTo(toks, tb, i, limit) == WalkTo(toks, Step(toks, tb, i).0, Step(toks, tb, i).1, limit)
  {}

  lemma Parts(toks: seq<Token>, a: nat, s: Stmt)
    requires Spelled(s) && Window(toks, a, StmtToks(s))
    ensures |StmtToks(s)| == |Lead(s)| + |Trail(s)| && a + |StmtToks(s)| <= |toks| && Lead(s) != [] && Trail(s) != []
    ensures Window(toks, a + |Lead(s)|, Trail(s))
  {
    LeadIsSome(s);
    WindowSplits(toks, a, Lead(s), Trail(s));
  }

  /** The walk from a to b, and the tables it ends with. */
  predicate Walked(toks: seq<Token>, tb: Tables, a: nat, b: nat, tb': Tables)
    requires b <= |toks|
  {
    WalkTo(toks, tb, a, b) == (tb', b)
  }

  lemma LeadThenTrail(toks: seq<Token>, tb: Tables, a: nat, n: nat, xs: seq<Token>)
    requires n > 0 && a < |toks| && Step(toks, tb, a).1 == a + n && Window(toks, a + n, xs) && Calm(xs)
    requires xs != [] && a + n + |xs| <= |toks|
    ensures Walked(toks, tb, a, a + n + |xs|, Step(toks, tb, a).0)
  {
    hide Step, Window, Calm, WalkTo;
    WalkUnfolds(toks, tb, a, a + n + |xs|);
    CalmWalk(toks, Step(toks, tb, a).0, a + n, xs);
  }

  /** A statement does to the tables what is said above, and nothing else. */
  lemma StatementDoes(toks: seq<Token>, tb: Tables, a: nat, s: Stmt) returns (tb': Tables)
    requires Spelled(s) && AtStatement(toks, a) && Window(toks, a, StmtToks(s))
    ensures a + |StmtToks(s)| <= |toks| && Walked(toks, tb, a, a + |StmtToks(s)|, tb')
    ensures ViewOf(tb') == After(ViewOf(tb), s)
  {
    hide Step, Window, After, ViewOf, Lead, Trail, StmtToks, Calm, AtStatement, Spelled, Walked;
    Parts(toks, a, s);
    TrailIsCalm(s);
    LeadStep(toks, tb, a, s);
    assert LeadDoes(toks, tb, a, s);
    tb' := Step(toks, tb, a).0;
    LeadThenTrail(toks, tb, a, |Lead(s)|, Trail(s));
  }

  lemma {:induction false} WalkSplits(toks: seq<Token>, tb: Tables, i: nat, mid: nat, limit: nat)
    requires i <= mid <= limit <= |toks|
    ensures var (tb1, j) := WalkTo(toks, tb, i, mid);
            j >= mid ==> WalkTo(toks, tb, i, limit) == WalkTo(toks, tb1, j, limit)
    decreases mid - i
  {
    hide Step;
    if i < mid {
      var (tb', next) := Step(toks, tb, i);
      if i < next <= mid {
        WalkSplits(toks, tb', next, mid, limit);
      }
    }
  }

  lemma NothingToWalk(toks: seq<Token>, tb: Tables, a: nat)
    requires a <= |toks|
    ensures ProgToks([]) == [] && WalkTo(toks, tb, a, a) == (tb, a) && AfterAll(ViewOf(tb), []) == ViewOf(tb)
  {}

  lemma WalkedTwice(toks: seq<Token>, tb: Tables, a: nat, b: nat, tb1: Tables, c: nat, tb2: Tables)
    requires a <= b <= c <= |toks| && Walked(toks, tb, a, b, tb1) && Walked(toks, tb1, b, c, tb2)
    ensures Walked(toks, tb, a, c, tb2)
  {
    WalkSplits(toks, tb, a, b, c);
  }

  /** The program stands here, after a statement. */
  predicate Stands(toks: seq<Token>, a: nat, p: seq<Stmt>) {
    AllSpelled(p) && AtStatement(toks, a) && Window(toks, a, ProgToks(p))
  }

  /** When the walk has passed the program, the tables are what its statements say one
      by one. */
  predicate WalkedAll(toks: seq<Token>, tb: Tables, a: nat, p: seq<Stmt>, tb': Tables) {
    && a + |ProgToks(p)| <= |toks| && Walked(toks, tb, a, a + |ProgToks(p)|, tb')
    && ViewOf(tb') == AfterAll(ViewOf(tb), p)
  }

  lemma ProgLast(init: seq<Stmt>, s: Stmt)
    ensures ProgToks(init + [s]) == ProgToks(init) + StmtToks(s)
  {
    assert (init + [s])[..|init|] == init;
  }

  lemma AfterLast(view: View, init: seq<Stmt>, s: Stmt)
    ensures AfterAll(view, init + [s]) == After(AfterAll(view, init), s)
  {
    hide After;
    assert (init + [s])[..|init|] == init;
  }

  lemma SpelledLast(init: seq<Stmt>, s: Stmt)
    requires AllSpelled(init + [s])
    ensures AllSpelled(init) && Spelled(s)
  {
    hide Spelled;
    assert (init + [s])[|init|] == s;
    assert forall k :: 0 <= k < |init| ==> (init + [s])[k] == init[k];
  }

  lemma StandsBefore(toks: seq<Token>, a: nat, init: seq<Stmt>, s: Stmt)
    requires Stands(toks, a, init + [s])
    ensures Stands(toks, a, init)
    ensures Stands1(toks, a + |ProgToks(init)|, s)
  {
    hide ProgToks, StmtToks, Window, AtStatement, AllSpelled, Spelled;
    ProgLast(init, s);
    SpelledLast(init, s);
    WindowSplits(toks, a, ProgToks(init), StmtToks(s));
    EndsAtStatement(toks, a, init);
  }

  predicate Stands1(toks: seq<Token>, a: nat, s: Stmt) {
    Spelled(s) && AtStatement(toks, a) && Window(toks, a, StmtToks(s))
  }

  lemma NothingIsWalked(toks: seq<Token>, tb: Tables, a: nat)
    requires Stands(toks, a, [])
    ensures WalkedAll(toks, tb, a, [], tb)
  {
    NothingToWalk(toks, tb, a);
  }

  lemma OneMore(toks: seq<Token>, tb: Tables, a: nat, init: seq<Stmt>, s: Stmt, tb1: Tables) returns (tb': Tables)
    requires Stands1(toks, a + |ProgToks(init)|, s) && WalkedAll(toks, tb, a, init, tb1)
    ensures WalkedAll(toks, tb, a, init + [s], tb')
  {
    hide Stands, After, AfterAll, ViewOf, AtStatement, StmtToks, Window, Spelled, ProgToks, Walked;
    ProgLast(init, s);
    AfterLast(ViewOf(tb), init, s);
    tb' := StatementDoes(toks, tb1, a + |ProgToks(init)|, s);
    WalkedTwice(toks, tb, a, a + |ProgToks(init)|, tb1, a + |ProgToks(init)| + |StmtToks(s)|, tb');
  }

  /** THE WALK IS THE PROGRAM. A straight-line program may stand anywhere at a statement
      boundary of any token list. When the walk has passed it, the values, the request
      data, the code and the reports are what its statements say one by one. */
  lemma {:induction false} WalkIsAfterAll(toks: seq<Token>, tb: Tables, a: nat, p: seq<Stmt>) returns (tb': Tables)
    requires Stands(toks, a, p)
    ensures WalkedAll(toks, tb, a, p, tb')
    decreases |p|
  {
    hide Stands, WalkedAll;
    if p == [] {
      NothingIsWalked(toks, tb, a);
      tb' := tb;
    } else {
      var init, s := p[..|p| - 1], p[|p| - 1];
      assert p == init + [s];
      StandsBefore(toks, a, init, s);
      var tb1 := WalkIsAfterAll(toks, tb, a, init);
      tb' := OneMore(toks, tb, a, init, s, tb1);
    }
  }

  /** A CALL AFTER A LITERAL IS NOT SEEN. Whatever the variable holds, sink name or request
      data, a call of it that is joined onto a literal changes nothing: the literal's turn
      takes the whole concatenation, and with it the name that is called. */
  lemma CallAfterLiteralIsUnseen(toks: seq<Token>, tb: Tables, i: nat, text: string, f: string, args: seq<Term>)
    requires Window(toks, i, [Token(Str, text, true), DOT, VarTok(f)] + ArgToks(args)) && |text| <= MAX_FOLD
    ensures var end := i + 3 + |ArgToks(args)|;
            end <= |toks| && WalkTo(toks, tb, i, end) == (tb, end)
  {
    var head := [Token(Str, text, true), DOT, VarTok(f)];
    WindowSplits(toks, i, head, ArgToks(args));
    assert toks[i + 0] == head[0] && toks[i + 1] == head[1] && toks[i + 2] == head[2];
    ArgWindows(toks, i + 3, args);
    ArgsAreCalm(args);
    ConcatWithCall(toks, tb, i, text, f);
    hide ArgToks, Window, Calm, Step;
    LeadThenTrail(toks, tb, i, 3, ArgToks(args));
  }

  lemma ConcatWithCall(toks: seq<Token>, tb: Tables, i: nat, text: string, f: string)
    requires i + 3 < |toks| && toks[i] == Token(Str, text, true) && toks[i + 1] == DOT && toks[i + 2] == VarTok(f)
    requires toks[i + 3] == LPAREN && |text| <= MAX_FOLD
    ensures Step(toks, tb, i) == (tb, i + 3)
  {
    var r := FoldTerm(toks, tb, i + 2, text, 1, false);
    assert "" + text == text;
    assert FoldFrom(toks, tb, i + 1, false, text, 1, true, false)
        == FoldFrom(toks, tb, i + 2, true, text, 1, true, false);
    assert !r.constant && r.val == text;
    assert FoldFrom(toks, tb, i + 2, true, text, 1, true, false) == Fold(text, 1, false, r.tainted, i + 3);
    assert FoldExpr(toks, tb, i) == Fold(text, 1, false, r.tainted, i + 3);
    hide FoldFrom, SinkName;
  }
}
