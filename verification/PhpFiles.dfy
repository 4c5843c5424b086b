/** From the bytes of a file to the report of the semantic layer
    (internal/antivirus/semantic.go:124-148). */
module PhpFiles {
  import opened Rules
  import opened Semantic
  import opened Tokenizer
  import opened Printing
  import opened Programs
  import opened Detectors
  import opened Walks
  import opened StraightLine
  import opened Origins

  const PHP_EXTS: set<string> := {
    ".php", ".phtml", ".phtm", ".pht", ".phps", ".php3", ".php4", ".php5", ".php7", ".php8", ".phar", ".inc", ".shtml"
  }

  /** The semantic layer of one file. */
  function SemanticMatches(rules: seq<Rule>, ext: string, content: string, clearNames: set<string>): seq<Match> {
    if ext !in PHP_EXTS then []
    else
      var toks := Tokens(content);
      Rescan(rules, ext, clearNames, WalkTo(toks, EMPTY_TABLES, 0, |toks|).0).out
  }

  /** Every report of this name has the weight of its detector. */
  predicate Weighs(ms: seq<Match>, name: string) {
    forall k :: 0 <= k < |ms| && ms[k].name == name ==> ms[k].score == ReportWeight(name)
  }

  predicate Reports(ms: seq<Match>, name: string) {
    exists k :: 0 <= k < |ms| && ms[k].name == name
  }

  // ------------------------------------------------- programs can be written

  predicate PrintableTerm(t: Term) {
    match t
    case Lit(text) => |text| <= MAX_FOLD
    case Ref(name) => VarName(name)
    case Elem(name, index) => VarName(name) && |index| <= MAX_FOLD
  }

  predicate PrintableTerms(terms: seq<Term>) {
    forall k :: 0 <= k < |terms| ==> PrintableTerm(terms[k])
  }

  predicate PrintableStmt(s: Stmt) {
    match s
    case Assign(v, terms) => VarName(v) && PrintableTerms(terms)
    case Append(v, terms) => VarName(v) && PrintableTerms(terms)
    case Call(f, args) => VarName(f) && PrintableTerms(args)
    case IndexCall(g, index, args) => VarName(g) && PrintableTerms(index) && PrintableTerms(args)
    case NamedCall(fn, args) => Word(fn) && PrintableTerms(args)
    case ParenCall(callee, args) => PrintableTerms(callee) && PrintableTerms(args)
    case InlineCall(pieces, args) => PrintableTerms(Lits(pieces)) && PrintableTerms(args)
  }

  predicate PrintableProgram(p: seq<Stmt>) {
    forall k :: 0 <= k < |p| ==> Spelled(p[k]) && PrintableStmt(p[k])
  }

  /** A token that can be written plainly. */
  predicate Clear(t: Token) {
    Printable(t) && (t.kind == Str ==> t.constant)
  }

  predicate Neat(toks: seq<Token>) {
    Separated(toks) && forall k :: 0 <= k < |toks| ==> Clear(toks[k])
  }

  lemma NeatConcat(a: seq<Token>, b: seq<Token>)
    requires Neat(a) && Neat(b) && (a != [] && b != [] ==> Fits(a[|a| - 1], b[0]))
    ensures Neat(a + b)
  {
    hide Fits, Clear;
    var c := a + b;
    forall k | 0 <= k < |c| - 1
      ensures Fits(c[k], c[k + 1])
    {
      if k >= |a| {
        assert c[k] == b[k - |a|] && c[k + 1] == b[k + 1 - |a|];
      }
    }
  }

  /** A token list that ends as an expression does. */
  predicate EndsPlainly(toks: seq<Token>) {
    toks != [] ==> !Operator(toks[|toks| - 1])
  }

  lemma NothingIsNeat()
    ensures Neat([])
  {}

  lemma TermNeat(t: Term)
    requires PrintableTerm(t)
    ensures Neat(TermToks(t)) && Operand(TermToks(t)[0]) && EndsPlainly(TermToks(t))
  {}

  lemma {:induction false} ExprNeat(terms: seq<Term>)
    requires PrintableTerms(terms)
    ensures Neat(ExprToks(terms)) && EndsPlainly(ExprToks(terms))
    ensures terms != [] ==> ExprToks(terms) != [] && Operand(ExprToks(terms)[0])
  {
    if terms != [] {
      TermNeat(terms[0]);
      if |terms| > 1 {
        ExprNeat(terms[1..]);
        var head, rest := TermToks(terms[0]), ExprToks(terms[1..]);
        assert ExprToks(terms) == head + ([DOT] + rest);
        assert Neat([DOT]);
        hide Neat, ExprToks, TermToks;
        NeatConcat([DOT], rest);
        NeatConcat(head, [DOT] + rest);
      }
    }
  }

  predicate NeatTrail(xs: seq<Token>) {
    Neat(xs) && xs != [] && xs[|xs| - 1] == SEMI && xs[0].kind != Ident && !Digital(xs[0])
  }

  lemma ArgsNeat(args: seq<Term>)
    requires PrintableTerms(args)
    ensures NeatTrail(ArgToks(args)) && ArgToks(args)[0] == LPAREN
  {
    ExprNeat(args);
    assert Neat([LPAREN]) && Neat([RPAREN, SEMI]);
    hide Neat, ExprToks;
    NeatConcat(ExprToks(args), [RPAREN, SEMI]);
    NeatConcat([LPAREN], ExprToks(args) + [RPAREN, SEMI]);
  }

  lemma LeadNeat(s: Stmt)
    requires PrintableStmt(s) && Spelled(s)
    ensures Neat(Lead(s)) && Lead(s) != []
    ensures s.Assign? || s.Append? || EndsPlainly(Lead(s))
  {
    hide ExprToks, Concat;
    if s.InlineCall? {
      ExprNeat(Lits(s.pieces));
    }
  }

  /** An expression, closed, and more. */
  lemma ClosedNeat(terms: seq<Term>, closer: Token, more: seq<Token>)
    requires PrintableTerms(terms) && Neat(more) && closer in {SEMI, RPAREN, CLOSE}
    requires more != [] ==> more[0] == LPAREN
    ensures Neat(ExprToks(terms) + ([closer] + more))
    ensures terms != [] ==> Operand((ExprToks(terms) + ([closer] + more))[0])
    ensures var first := (ExprToks(terms) + ([closer] + more))[0];
            first.kind != Ident && !Digital(first)
  {
    ExprNeat(terms);
    assert Neat([closer]);
    hide Neat, ExprToks, PrintableTerms;
    NeatConcat([closer], more);
    NeatConcat(ExprToks(terms), [closer] + more);
  }

  lemma WriteTrail(terms: seq<Term>)
    requires PrintableTerms(terms) && terms != []
    ensures NeatTrail(ExprToks(terms) + [SEMI]) && Operand((ExprToks(terms) + [SEMI])[0])
  {
    var none: seq<Token> := [];
    NothingIsNeat();
    assert [SEMI] + none == [SEMI];
    hide Neat, ExprToks, PrintableTerms;
    ClosedNeat(terms, SEMI, none);
  }

  lemma ParenTrail(callee: seq<Term>, args: seq<Term>)
    requires PrintableTerms(callee) && PrintableTerms(args)
    ensures NeatTrail(ExprToks(callee) + ([RPAREN] + ArgToks(args)))
  {
    hide Neat, ExprToks, ArgToks, PrintableTerms;
    ArgsNeat(args);
    ClosedNeat(callee, RPAREN, ArgToks(args));
    EndsAlike(ExprToks(callee) + [RPAREN], ArgToks(args));
    assert ExprToks(callee) + [RPAREN] + ArgToks(args) == ExprToks(callee) + ([RPAREN] + ArgToks(args));
  }

  lemma EndsAlike(a: seq<Token>, b: seq<Token>)
    requires b != []
    ensures (a + b)[|a + b| - 1] == b[|b| - 1]
  {}

  lemma IndexTrail(index: seq<Term>, args: seq<Term>)
    requires PrintableTerms(index) && PrintableTerms(args)
    ensures NeatTrail([OPEN] + (ExprToks(index) + ([CLOSE] + ArgToks(args))))
  {
    assert Neat([OPEN]);
    hide Neat, ExprToks, ArgToks, PrintableTerms;
    ArgsNeat(args);
    ClosedNeat(index, CLOSE, ArgToks(args));
    NeatConcat([OPEN], ExprToks(index) + ([CLOSE] + ArgToks(args)));
  }

  lemma TrailNeat(s: Stmt)
    requires PrintableStmt(s) && Spelled(s)
    ensures NeatTrail(Trail(s))
    ensures s.Assign? || s.Append? ==> Operand(Trail(s)[0])
  {
    hide Neat, ExprToks, ArgToks, Concat, PrintableTerms, Lits;
    match s
    case Assign(_, terms) => WriteTrail(terms);
    case Append(_, terms) => WriteTrail(terms);
    case ParenCall(callee, args) => ParenTrail(callee, args);
    case IndexCall(_, index, args) => IndexTrail(index, args);
    case _ => ArgsNeat(s.args);
  }

  lemma StmtNeat(s: Stmt)
    requires PrintableStmt(s) && Spelled(s)
    ensures Neat(StmtToks(s)) && StmtToks(s) != [] && StmtToks(s)[|StmtToks(s)| - 1] == SEMI
  {
    LeadNeat(s);
    TrailNeat(s);
    LeadFits(s);
    hide Neat, Lead, Trail, Fits;
    NeatConcat(Lead(s), Trail(s));
  }

  lemma LeadFits(s: Stmt)
    requires Lead(s) != [] && Trail(s) != [] && Trail(s)[0].kind != Ident && !Digital(Trail(s)[0])
    requires s.Assign? || s.Append? ==> Operand(Trail(s)[0])
    requires s.Assign? || s.Append? || EndsPlainly(Lead(s))
    ensures Fits(Lead(s)[|Lead(s)| - 1], Trail(s)[0])
  {
    hide ExprToks;
  }

  lemma {:induction false} ProgNeat(p: seq<Stmt>)
    requires PrintableProgram(p)
    ensures Neat(ProgToks(p)) && AllSpelled(p)
    ensures p != [] ==> ProgToks(p) != [] && ProgToks(p)[|ProgToks(p)| - 1] == SEMI
  {
    hide Neat, StmtToks, PrintableStmt, Spelled;
    if p != [] {
      var n := |p| - 1;
      ProgNeat(p[..n]);
      StmtNeat(p[n]);
      SemiFits(StmtToks(p[n])[0]);
      NeatConcat(ProgToks(p[..n]), StmtToks(p[n]));
    } else {
      assert Neat([]) by { NothingIsNeat(); }
    }
  }

  lemma SemiFits(t: Token)
    ensures Fits(SEMI, t)
  {}

  /** So a program can be written in some file. */
  lemma CanBeWritten(p: seq<Stmt>) returns (f: File)
    requires PrintableProgram(p)
    ensures LegibleFile(f) && Toks(f.ws) == ProgToks(p)
  {
    ProgNeat(p);
    f := File("", "<?=", Plainly(ProgToks(p)), Tail([], false, ""));
  }

  // ------------------------------------------------------- from bytes to report

  lemma RescanKeepsReport(rules: seq<Rule>, ext: string, clearNames: set<string>, tb: Tables, name: string)
    requires forall r :: 0 <= r < |rules| ==> rules[r].score >= 0
    requires Bounded(tb)
    requires name != "" && name[0] != RESCAN_PREFIX[0]
    ensures Reports(Rescan(rules, ext, clearNames, tb).out, name) <==> name in tb.seen
    ensures Weighs(Rescan(rules, ext, clearNames, tb).out, name)
  {
    RescanCapped(rules, ext, clearNames, tb);
    var out := Rescan(rules, ext, clearNames, tb).out;
    if name in tb.seen {
      var k :| 0 <= k < |tb.out| && tb.out[k].name == name;
      assert out[..|tb.out|] == tb.out;
      assert out[k] == tb.out[k];
    }
    if Reports(out, name) {
      var k :| 0 <= k < |out| && out[k].name == name;
      assert out[..|tb.out|] == tb.out;
      if k >= |tb.out| {
        assert false;
      }
      assert out[k] == tb.out[k];
    }
    forall k | 0 <= k < |out| && out[k].name == name
      ensures out[k].score == ReportWeight(name)
    {
      assert out[..|tb.out|] == tb.out;
      assert k < |tb.out| && out[k] == tb.out[k];
    }
  }

  lemma EmptyBounded()
    ensures Bounded(EMPTY_TABLES)
  {}

  /** A file that writes the program, whatever it looks like. */
  predicate IsFileOf(f: File, p: seq<Stmt>) {
    LegibleFile(f) && Toks(f.ws) == ProgToks(p) && |ProgToks(p)| <= MAX_TOKEN
  }

  /** The tables with which the walk over the file ends. */
  lemma FileWalks(p: seq<Stmt>, f: File) returns (tb: Tables)
    requires PrintableProgram(p) && IsFileOf(f, p)
    ensures var toks := Tokens(PhpFile(f));
            tb == WalkTo(toks, EMPTY_TABLES, 0, |toks|).0
    ensures Bounded(tb) && ViewOf(tb) == AfterAll(NOTHING, p)
  {
    hide WalkTo, Tokens, PhpFile, LegibleFile, Bounded, AfterAll, PrintableProgram, ProgToks;
    var toks := ProgToks(p);
    ProgNeat(p);
    TokensOfPrinted(f);
    hide Separated;
    assert Stands(toks, 0, p) by { hide AllSpelled; }
    tb := WalkIsAfterAll(toks, EMPTY_TABLES, 0, p);
    WalkedIs(toks, EMPTY_TABLES, 0, p, tb);
    EmptyBounded();
    WalkKeepsBounds(toks, EMPTY_TABLES, 0, |toks|);
  }

  /** EVERY DETECTOR, FROM THE BYTES. For every straight-line program and every file that
      writes it, with any spelling of its literals, any blanks, comments and page breaks
      between its tokens, and any html around them: a detector's name is reported if and only
      if the program has a statement that the detector looks for; and it is reported with the
      detector's weight. */
  lemma FileIsReported(rules: seq<Rule>, ext: string, p: seq<Stmt>, f: File, clearNames: set<string>, name: string)
    requires ext in PHP_EXTS && forall r :: 0 <= r < |rules| ==> rules[r].score >= 0
    requires PrintableProgram(p) && IsFileOf(f, p) && name != "" && name[0] != RESCAN_PREFIX[0]
    ensures var ms := SemanticMatches(rules, ext, PhpFile(f), clearNames);
            (Reports(ms, name) <==> SomeDetected(name, NOTHING, p)) && Weighs(ms, name)
  {
    var tb := FileWalks(p, f);
    ReportedIff(NOTHING, p, name);
    hide WalkTo, Tokens, PhpFile, IsFileOf, Bounded, AfterAll, PrintableProgram, SomeDetected, Rescan, Reports, Weighs;
    RescanKeepsReport(rules, ext, clearNames, tb, name);
  }

  /** A SPLIT NAME IS REPORTED. For every such program that PHP could run with values within
      the fold ceiling, the layer reports a variable function call exactly when the program
      calls a name whose value at that point is a hard sink, however many assignments the
      name was split over; and an assembled sink exactly when some statement assembles one. */
  lemma SplitNameIsReported(rules: seq<Rule>, ext: string, p: seq<Stmt>, f: File,
                            clearNames: set<string>)
    requires ext in PHP_EXTS && forall r :: 0 <= r < |rules| ==> rules[r].score >= 0
    requires PrintableProgram(p) && IsFileOf(f, p) && FoldableProgram(map[], p)
    ensures var ms := SemanticMatches(rules, ext, PhpFile(f), clearNames);
            && (Reports(ms, VARIABLE_SINK_CALL) <==> SomeSinkCall(map[], p))
            && (Reports(ms, CONCATENATED_SINK) <==> SomeAssembly(map[], p))
            && (Reports(ms, SUPERGLOBAL_CALL) <==> SomeSuperglobalCall(p))
  {
    hide PhpFile, IsFileOf, PrintableProgram, SomeDetected, Reports, SemanticMatches, FoldableProgram;
    hide SomeSinkCall, SomeAssembly, SomeSuperglobalCall;
    FileIsReported(rules, ext, p, f, clearNames, VARIABLE_SINK_CALL);
    FileIsReported(rules, ext, p, f, clearNames, CONCATENATED_SINK);
    FileIsReported(rules, ext, p, f, clearNames, SUPERGLOBAL_CALL);
    DetectedIff(NOTHING, p);
  }

  /** A REQUESTED NAME IS REPORTED. For every such program that keeps the marks, a call
      through request data is reported exactly when there is one. */
  lemma RequestedNameIsReported(rules: seq<Rule>, ext: string, p: seq<Stmt>, f: File,
                                clearNames: set<string>)
    requires ext in PHP_EXTS && forall r :: 0 <= r < |rules| ==> rules[r].score >= 0
    requires PrintableProgram(p) && IsFileOf(f, p) && NoGlobalAssigned(p) && AllUntangled(NOTHING, {}, p)
    ensures Reports(SemanticMatches(rules, ext, PhpFile(f), clearNames), TAINTED_NAME_CALL) <==>
            SomeRequestedCall({}, p)
  {
    hide PhpFile, IsFileOf, PrintableProgram, SomeDetected, Reports, SemanticMatches, AllUntangled, NoGlobalAssigned;
    hide SomeRequestedCall, AfterAll;
    FileIsReported(rules, ext, p, f, clearNames, TAINTED_NAME_CALL);
    ReportedIff(NOTHING, p, TAINTED_NAME_CALL);
    assert Marked(NOTHING, {});
    RequestedCallIsReported(NOTHING, {}, p);
  }
}
