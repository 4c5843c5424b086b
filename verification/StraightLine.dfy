/** What the folder promises: on straight-line code whose operands have values its table
    IS the store PHP would have, so a sink name is seen however many assignments split it
    (internal/antivirus/semantic.go). */
module StraightLine {
  import opened Semantic
  import opened Programs
  import opened Detectors
  import opened Walks

  /** Every operand has a value and no value passes the fold ceiling. */
  predicate Foldable(store: Store, s: Stmt) {
    && Spelled(s)
    && match s
       case Assign(_, terms) => Defined(store, terms) && |Eval(store, terms)| <= MAX_FOLD
       case Append(v, terms) => Defined(store, terms) && |Lookup(store, v) + Eval(store, terms)| <= MAX_FOLD
       case _ => true
  }

  predicate FoldableProgram(store: Store, p: seq<Stmt>) {
    forall k :: 0 <= k < |p| ==> Foldable(Run(store, p[..k]), p[k])
  }

  /** A call through a variable that holds a sink name. */
  predicate SinkCall(store: Store, s: Stmt) {
    s.Call? && s.f in store && SinkName(store[s.f])
  }

  /** A statement whose parts assemble a sink name. */
  predicate Assembles(store: Store, s: Stmt) {
    || (s.Assign? && |s.terms| >= 2 && SinkName(Eval(store, s.terms)))
    || (s.Append? && SinkName(Lookup(store, s.v) + Eval(store, s.terms)))
    || (s.ParenCall? && |s.callee| >= 2 && s.callee[0].Lit? && Defined(store, s.callee)
        && |Eval(store, s.callee)| <= MAX_FOLD && SinkName(Eval(store, s.callee)))
    || (s.InlineCall? && |s.pieces| >= 2 && SinkName(Concat(s.pieces)))
  }

  predicate SomeSinkCall(store: Store, p: seq<Stmt>) {
    exists c :: 0 <= c < |p| && SinkCall(Run(store, p[..c]), p[c])
  }

  predicate SomeAssembly(store: Store, p: seq<Stmt>) {
    exists c :: 0 <= c < |p| && Assembles(Run(store, p[..c]), p[c])
  }

  predicate SomeSuperglobalCall(p: seq<Stmt>) {
    exists c :: 0 <= c < |p| && CallsSuperglobal(p[c])
  }

  lemma {:induction false} ReadsWhole(terms: seq<Term>)
    ensures Whole(terms) ==> Reads(terms) == terms
    ensures !Whole(terms) ==> exists k :: 0 <= k < |terms| && terms[k].Elem?
  {
    if terms != [] {
      ReadsWhole(terms[1..]);
      assert forall k :: 0 < k < |terms| ==> terms[k] == terms[1..][k - 1];
    }
  }

  /** On a statement that folds, the table does what PHP does, and the detectors look for
      what PHP would do. */
  lemma StatementSimulates(view: View, s: Stmt)
    requires Foldable(view.values, s)
    ensures After(view, s).values == Exec(view.values, s)
    ensures CallsSink(view, s) <==> SinkCall(view.values, s)
    ensures PutsSinkTogether(view, s) <==> Assembles(view.values, s)
  {
    hide SinkName, Found, Eval, Concat, Reads;
    if s.Assign? || s.Append? {
      ReadsWhole(s.terms);
    } else if s.ParenCall? {
      ReadsWhole(s.callee);
    }
  }

  lemma {:induction false} ValuesAreStore(view: View, p: seq<Stmt>)
    requires FoldableProgram(view.values, p)
    ensures AfterAll(view, p).values == Run(view.values, p)
    decreases |p|
  {
    hide Foldable, After;
    if p != [] {
      var init, s := p[..|p| - 1], p[|p| - 1];
      forall k | 0 <= k < |init| ensures Foldable(Run(view.values, init[..k]), init[k]) {
        assert init[..k] == p[..k];
      }
      ValuesAreStore(view, init);
      assert p[..|init|] == init;
      StatementSimulates(AfterAll(view, init), s);
    }
  }

  lemma PrefixFoldable(store: Store, p: seq<Stmt>, k: nat)
    requires FoldableProgram(store, p) && k <= |p|
    ensures FoldableProgram(store, p[..k])
    ensures k < |p| ==> Foldable(Run(store, p[..k]), p[k])
  {
    hide Foldable;
    forall i | 0 <= i < k ensures Foldable(Run(store, p[..k][..i]), p[..k][i]) {
      assert p[..k][..i] == p[..i];
    }
  }

  /** The detectors of a foldable program look for what PHP would do. */
  lemma DetectedIff(view: View, p: seq<Stmt>)
    requires FoldableProgram(view.values, p)
    ensures SomeDetected(VARIABLE_SINK_CALL, view, p) <==> SomeSinkCall(view.values, p)
    ensures SomeDetected(CONCATENATED_SINK, view, p) <==> SomeAssembly(view.values, p)
    ensures SomeDetected(SUPERGLOBAL_CALL, view, p) <==> SomeSuperglobalCall(p)
  {
    hide FoldableProgram, Detects, SinkCall, Assembles, CallsSink, PutsSinkTogether, CallsSuperglobal, After, Foldable;
    forall k | 0 <= k < |p|
      ensures Detects(VARIABLE_SINK_CALL, AfterAll(view, p[..k]), p[k]) <==> SinkCall(Run(view.values, p[..k]), p[k])
      ensures Detects(CONCATENATED_SINK, AfterAll(view, p[..k]), p[k]) <==> Assembles(Run(view.values, p[..k]), p[k])
      ensures Detects(SUPERGLOBAL_CALL, AfterAll(view, p[..k]), p[k]) <==> CallsSuperglobal(p[k])
    {
      PrefixFoldable(view.values, p, k);
      ValuesAreStore(view, p[..k]);
      StatementSimulates(AfterAll(view, p[..k]), p[k]);
      DetectsIff(AfterAll(view, p[..k]), p[k]);
    }
  }

  lemma FoldableIsSpelled(store: Store, p: seq<Stmt>)
    requires FoldableProgram(store, p)
    ensures AllSpelled(p)
  {
    hide Spelled;
    forall k | 0 <= k < |p| ensures Spelled(p[k]) {
      assert Foldable(Run(store, p[..k]), p[k]);
    }
  }

  /** The tables after program `p`, as PHP would have it. */
  predicate Agrees(tb: Tables, p: seq<Stmt>, tb': Tables) {
    && tb'.symtab == Run(tb.symtab, p)
    && tb.seen <= tb'.seen
    && (VARIABLE_SINK_CALL in tb'.seen <==> VARIABLE_SINK_CALL in tb.seen || SomeSinkCall(tb.symtab, p))
    && (CONCATENATED_SINK in tb'.seen <==> CONCATENATED_SINK in tb.seen || SomeAssembly(tb.symtab, p))
    && (SUPERGLOBAL_CALL in tb'.seen <==> SUPERGLOBAL_CALL in tb.seen || SomeSuperglobalCall(p))
  }

  /** THE TABLE IS THE STORE. A foldable program may stand anywhere at a statement boundary
      of any token list. When the walk has passed it, the table equals the store PHP would
      have; a call through a variable was reported exactly when some call really names a
      sink, an assembled name exactly when some statement assembles a sink name, and a call
      through a superglobal exactly when there is one. Applied to each prefix of a program,
      this holds at every point. */
  lemma TableIsStore(toks: seq<Token>, tb: Tables, a: nat, p: seq<Stmt>)
    requires FoldableProgram(tb.symtab, p)
    requires AtStatement(toks, a) && Window(toks, a, ProgToks(p))
    ensures WalkTo(toks, tb, a, a + |ProgToks(p)|).1 == a + |ProgToks(p)|
    ensures Agrees(tb, p, WalkTo(toks, tb, a, a + |ProgToks(p)|).0)
  {
    hide Window, ProgToks, FoldableProgram, Agrees, WalkedAll, Walked, AllSpelled;
    FoldableIsSpelled(tb.symtab, p);
    assert Stands(toks, a, p);
    hide AtStatement, Stands;
    var tb' := WalkIsAfterAll(toks, tb, a, p);
    WalkedIs(toks, tb, a, p, tb');
    ViewAgrees(tb, p, tb');
  }

  lemma WalkedIs(toks: seq<Token>, tb: Tables, a: nat, p: seq<Stmt>, tb': Tables)
    requires WalkedAll(toks, tb, a, p, tb')
    ensures a + |ProgToks(p)| <= |toks| && WalkTo(toks, tb, a, a + |ProgToks(p)|) == (tb', a + |ProgToks(p)|)
    ensures ViewOf(tb') == AfterAll(ViewOf(tb), p)
  {
    hide WalkTo, AfterAll, ProgToks;
  }

  lemma ViewAgrees(tb: Tables, p: seq<Stmt>, tb': Tables)
    requires FoldableProgram(tb.symtab, p) && ViewOf(tb') == AfterAll(ViewOf(tb), p)
    ensures Agrees(tb, p, tb')
  {
    hide FoldableProgram, SomeDetected, SomeSinkCall, SomeAssembly, SomeSuperglobalCall, AfterAll, Run;
    ValuesAreStore(ViewOf(tb), p);
    forall name | name in tb.seen
      ensures name in tb'.seen
    {
      ReportedIff(ViewOf(tb), p, name);
    }
    ReportedIff(ViewOf(tb), p, VARIABLE_SINK_CALL);
    ReportedIff(ViewOf(tb), p, CONCATENATED_SINK);
    ReportedIff(ViewOf(tb), p, SUPERGLOBAL_CALL);
    DetectedIff(ViewOf(tb), p);
  }
}
