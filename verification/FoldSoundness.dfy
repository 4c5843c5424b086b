/** Beyond the fragment: straight-line code whose variables may be unknown to the
    folder. Which entries of its table are still true of the store PHP would have
    (internal/antivirus/semantic.go)? Assignments never break the table; `.=` does,
    in two of its cases, and this module says exactly when. */
module FoldSoundness {
  import opened Semantic
  import opened Programs
  import opened Detectors
  import opened Walks
  import opened StraightLine

  /** Every entry of the table is the variable's value. */
  predicate Sound(table: Store, store: Store) {
    forall v :: v in table ==> v in store && store[v] == table[v]
  }

  /** No element is taken of a variable that is known to be a string: PHP would stop. */
  predicate NoOffset(table: Store, s: Stmt) {
    s.Assign? || s.Append? ==> forall k :: 0 <= k < |s.terms| && s.terms[k].Elem? ==> s.terms[k].name !in table
  }

  lemma {:induction false} ElemIsRead(terms: seq<Term>, table: Store)
    requires !Whole(terms) && forall k :: 0 <= k < |terms| && terms[k].Elem? ==> terms[k].name !in table
    ensures !Defined(table, Reads(terms))
  {
    if !terms[0].Elem? {
      assert forall k :: 0 < k < |terms| ==> terms[k] == terms[1..][k - 1];
      ElemIsRead(terms[1..], table);
      var rest := Reads(terms[1..]);
      var k :| 0 <= k < |rest| && (rest[k].Elem? || (rest[k].Ref? && rest[k].name !in table));
      assert Reads(terms)[k + 1] == rest[k];
    } else {
      assert Reads(terms)[0] == Ref(terms[0].name);
    }
  }

  /** Then what folds is read whole. */
  lemma FoldsWhole(table: Store, s: Stmt)
    requires (s.Assign? || s.Append?) && NoOffset(table, s) && Folds(table, s.terms)
    ensures Reads(s.terms) == s.terms && Value(table, s.terms) == Eval(table, s.terms) && Defined(table, s.terms)
  {
    ReadsWhole(s.terms);
    if !Whole(s.terms) {
      ElemIsRead(s.terms, table);
    }
  }

  lemma {:induction false} ValuesAreFolded(view: View, p: seq<Stmt>)
    ensures AfterAll(view, p).values == FoldAll(view.values, p)
    decreases |p|
  {
    hide FoldStmt, Requested, Joined, Code, Found;
    if p != [] {
      ValuesAreFolded(view, p[..|p| - 1]);
    }
  }

  /** The walk over any straight-line program computes exactly FoldAll. */
  lemma WalkIsFoldAll(toks: seq<Token>, tb: Tables, a: nat, p: seq<Stmt>)
    requires AllSpelled(p) && AtStatement(toks, a) && Window(toks, a, ProgToks(p))
    ensures WalkTo(toks, tb, a, a + |ProgToks(p)|).0.symtab == FoldAll(tb.symtab, p)
    ensures WalkTo(toks, tb, a, a + |ProgToks(p)|).1 == a + |ProgToks(p)|
  {
    hide Window, ProgToks, WalkedAll, Walked, AllSpelled;
    assert Stands(toks, a, p);
    hide AtStatement, Stands;
    var tb' := WalkIsAfterAll(toks, tb, a, p);
    WalkedIs(toks, tb, a, p, tb');
    ValuesAreFolded(ViewOf(tb), p);
    hide AfterAll, FoldAll;
  }

  // ------------------------------------------------------------- when it is true

  /** The guards under which `.=` keeps the table true: a known right side needs a
      known or empty left one, and an unknown right side needs an unknown left one or
      has to be empty. Every other statement is safe. */
  predicate Safe(table: Store, store: Store, s: Stmt) {
    s.Append? ==>
      if Folds(table, s.terms) then
        || s.v in table || Lookup(store, s.v) == ""
        || |Lookup(table, s.v) + Eval(table, s.terms)| > MAX_FOLD
      else s.v !in table || Eval(store, s.terms) == ""
  }

  lemma {:induction false} KnownTermsAgree(table: Store, store: Store, terms: seq<Term>)
    requires Sound(table, store) && Defined(table, terms)
    ensures Eval(table, terms) == Eval(store, terms)
  {
    if terms != [] {
      assert !terms[0].Elem? && (terms[0].Ref? ==> terms[0].name in table);
      assert forall k :: 0 <= k < |terms[1..]| ==> terms[1..][k] == terms[k + 1];
      KnownTermsAgree(table, store, terms[1..]);
    }
  }

  /** EXACTLY WHEN. A statement keeps a true table true if and only if it is safe. */
  lemma StatementKeepsTruthIff(table: Store, store: Store, s: Stmt)
    requires Sound(table, store) && NoOffset(table, s)
    ensures Sound(FoldStmt(table, s), Exec(store, s)) <==> Safe(table, store, s)
  {
    if (s.Assign? || s.Append?) && Folds(table, s.terms) {
      FoldsWhole(table, s);
      KnownTermsAgree(table, store, s.terms);
    }
    hide Reads, Defined;
    if s.Append? {
      var v, rhs := s.v, Eval(store, s.terms);
      var after, truth := FoldStmt(table, s), Exec(store, s);
      assert Sound(after, truth) <==> (v in after ==> truth[v] == after[v]);
      if Folds(table, s.terms) {
        var left := Lookup(store, v);
        assert left + rhs == rhs <==> left == "" by {
          assert left == "" ==> left + rhs == rhs;
          assert |left + rhs| == |left| + |rhs|;
        }
      } else if v in table {
        var left := store[v];
        assert left + rhs == left <==> rhs == "" by {
          assert rhs == "" ==> left + rhs == left;
          assert |left + rhs| == |left| + |rhs|;
        }
      }
    }
  }

  /** Every statement is safe at the point where it runs. */
  predicate SafeAlong(table: Store, store: Store, p: seq<Stmt>) {
    p == [] ||
    (SafeAlong(table, store, p[..|p| - 1])
     && Safe(FoldAll(table, p[..|p| - 1]), Run(store, p[..|p| - 1]), p[|p| - 1]))
  }

  predicate NoOffsets(table: Store, p: seq<Stmt>) {
    forall k :: 0 <= k < |p| ==> NoOffset(FoldAll(table, p[..k]), p[k])
  }

  ghost predicate TrueAfter(table: Store, store: Store, p: seq<Stmt>, k: nat)
    requires k <= |p|
  {
    Sound(FoldAll(table, p[..k]), Run(store, p[..k]))
  }

  /** EXACTLY WHEN, FOR PROGRAMS. From a true table on, the table is true after every
      statement of a program if and only if every statement is safe where it runs. */
  lemma {:induction false} ProgramStaysTrueIff(table: Store, store: Store, p: seq<Stmt>)
    requires Sound(table, store) && NoOffsets(table, p)
    ensures (forall k :: 0 <= k <= |p| ==> TrueAfter(table, store, p, k)) <==> SafeAlong(table, store, p)
    decreases |p|
  {
    hide Sound, Safe, FoldStmt, Exec, FoldAll, Run;
    assert p[..|p|] == p;
    if p == [] {
      assert TrueAfter(table, store, p, 0) <==> Sound(table, store) by {
        NothingRuns(table, store);
      }
    } else {
      var init, n := p[..|p| - 1], |p| - 1;
      NoOffsetsBefore(table, p);
      hide NoOffset, NoOffsets;
      ProgramStaysTrueIff(table, store, init);
      forall k | 0 <= k <= n
        ensures TrueAfter(table, store, init, k) <==> TrueAfter(table, store, p, k)
      {
        assert init[..k] == p[..k];
      }
      if SafeAlong(table, store, init) {
        assert TrueAfter(table, store, init, n);
        assert init[..n] == init;
        StatementKeepsTruthIff(FoldAll(table, init), Run(store, init), p[n]);
        LastRuns(table, store, p);
        assert TrueAfter(table, store, p, |p|) <==> Safe(FoldAll(table, init), Run(store, init), p[n]);
        assert forall k :: 0 <= k <= n ==> TrueAfter(table, store, init, k);
        assert SafeAlong(table, store, p) <==> Safe(FoldAll(table, init), Run(store, init), p[n]);
      } else {
        var k :| 0 <= k <= n && !TrueAfter(table, store, init, k);
        assert !TrueAfter(table, store, p, k);
      }
    }
  }

  lemma NoOffsetsBefore(table: Store, p: seq<Stmt>)
    requires p != [] && NoOffsets(table, p)
    ensures NoOffsets(table, p[..|p| - 1]) && NoOffset(FoldAll(table, p[..|p| - 1]), p[|p| - 1])
  {
    hide NoOffset, FoldAll;
    var init := p[..|p| - 1];
    forall k | 0 <= k < |init| ensures NoOffset(FoldAll(table, init[..k]), init[k]) {
      assert init[..k] == p[..k];
    }
  }

  lemma NothingRuns(table: Store, store: Store)
    ensures FoldAll(table, []) == table && Run(store, []) == store
  {}

  lemma LastRuns(table: Store, store: Store, p: seq<Stmt>)
    requires p != []
    ensures var init, s := p[..|p| - 1], p[|p| - 1];
            FoldAll(table, p) == FoldStmt(FoldAll(table, init), s) && Run(store, p) == Exec(Run(store, init), s)
  {}

  lemma {:induction false} PrefixWindow(toks: seq<Token>, a: nat, p: seq<Stmt>, k: nat)
    requires Window(toks, a, ProgToks(p)) && k <= |p|
    ensures Window(toks, a, ProgToks(p[..k]))
    decreases |p|
  {
    hide Window;
    if k < |p| {
      var init := p[..|p| - 1];
      WindowSplits(toks, a, ProgToks(init), StmtToks(p[|p| - 1]));
      PrefixWindow(toks, a, init, k);
      assert init[..k] == p[..k];
    } else {
      assert p[..k] == p;
    }
  }

  /** The table of the walk where the first `k` statements end. */
  function TableAfter(toks: seq<Token>, tb: Tables, a: nat, p: seq<Stmt>, k: nat): Store
    requires k <= |p| && Window(toks, a, ProgToks(p))
  {
    PrefixWindow(toks, a, p, k);
    WalkTo(toks, tb, a, a + |ProgToks(p[..k])|).0.symtab
  }

  /** THE TABLE IS TRUE OF EVERY RUN. For any straight-line program, with any unknown
      values in the store, a walk over its tokens that starts with true entries has only
      true entries after every statement if and only if every `.=` is safe where it
      runs. */
  lemma SafeWalkIsTrue(toks: seq<Token>, tb: Tables, store: Store, a: nat, p: seq<Stmt>)
    requires AllSpelled(p) && AtStatement(toks, a) && Window(toks, a, ProgToks(p))
    requires Sound(tb.symtab, store) && NoOffsets(tb.symtab, p)
    ensures (forall k :: 0 <= k <= |p| ==> Sound(TableAfter(toks, tb, a, p, k), Run(store, p[..k])))
            <==> SafeAlong(tb.symtab, store, p)
    ensures SafeAlong(tb.symtab, store, p) ==>
              Sound(WalkTo(toks, tb, a, a + |ProgToks(p)|).0.symtab, Run(store, p))
  {
    hide WalkTo, FoldAll, Run, SafeAlong, Sound, Spelled, AtStatement, Window, ProgToks;
    forall k | 0 <= k <= |p|
      ensures Sound(TableAfter(toks, tb, a, p, k), Run(store, p[..k])) <==> TrueAfter(tb.symtab, store, p, k)
    {
      PrefixWindow(toks, a, p, k);
      WalkIsFoldAll(toks, tb, a, p[..k]);
      hide NoOffsets;
    }
    ProgramStaysTrueIff(tb.symtab, store, p);
    assert p[..|p|] == p;
    assert SafeAlong(tb.symtab, store, p) ==> Sound(TableAfter(toks, tb, a, p, |p|), Run(store, p[..|p|]));
  }

  lemma TwoStatements(table: Store, s: Stmt, t: Stmt)
    ensures FoldAll(table, [s, t]) == FoldStmt(FoldStmt(table, s), t)
    ensures Run(table, [s, t]) == Exec(Exec(table, s), t)
  {
    assert [s][..0] == [] && [s, t][..1] == [s];
    assert FoldAll(table, [s]) == FoldStmt(table, s) && Run(table, [s]) == Exec(table, s);
  }

  lemma OneTerm(table: Store, t: Term)
    ensures Eval(table, [t]) == EvalTerm(table, t)
    ensures !t.Elem? ==> Reads([t]) == [t] && Value(table, [t]) == EvalTerm(table, t)
    ensures t.Lit? && |t.text| <= MAX_FOLD ==> Folds(table, [t])
    ensures t.Ref? && t.name !in table ==> !Folds(table, [t])
  {
    assert [t][1..] == [] && EvalTerm(table, t) + "" == EvalTerm(table, t) && [t][0] == t;
  }

  /** Both unsafe cases happen. `$f = "system"; $f .= $x;` leaves the stale name
      "system" although $x is not empty. */
  lemma StaleName(x: string)
    requires x != ""
    ensures var p := [Assign("f", [Lit("system")]), Append("f", [Ref("x")])];
            FoldAll(map[], p) == map["f" := "system"] && Run(map["x" := x], p)["f"] == "system" + x
  {
    var table, store: Store := map["f" := "system"], map["x" := x];
    var known, unknown := [Lit("system")], [Ref("x")];
    assert "f"[0] != "x"[0];
    OneTerm(map[], known[0]);
    OneTerm(table, unknown[0]);
    OneTerm(store, known[0]);
    OneTerm(store["f" := "system"], unknown[0]);
    hide Eval, SinkName, Folds, Value, Reads, FoldAll, Run;
    TwoStatements(map[], Assign("f", known), Append("f", unknown));
    TwoStatements(store, Assign("f", known), Append("f", unknown));
    assert FoldStmt(map[], Assign("f", known)) == table;
    assert Exec(store, Assign("f", known)) == store["f" := "system"];
  }

  /** `$f = $x; $f .= "system";` starts from nothing. */
  lemma ForgottenValue(x: string)
    requires x != ""
    ensures var p := [Assign("f", [Ref("x")]), Append("f", [Lit("system")])];
            FoldAll(map[], p) == map["f" := "system"] && Run(map["x" := x], p)["f"] == x + "system"
  {
    var store: Store := map["x" := x];
    var known, unknown := [Lit("system")], [Ref("x")];
    OneTerm(map[], known[0]);
    OneTerm(map[], unknown[0]);
    OneTerm(store, unknown[0]);
    OneTerm(store["f" := x], known[0]);
    hide Eval, SinkName, Folds, Value, Reads, FoldAll, Run;
    TwoStatements(map[], Assign("f", unknown), Append("f", known));
    TwoStatements(store, Assign("f", unknown), Append("f", known));
    assert FoldStmt(map[], Assign("f", unknown)) == map[];
    assert "" + "system" == "system";
    assert FoldStmt(map[], Append("f", known)) == map["f" := "system"];
    assert Exec(store, Assign("f", unknown)) == store["f" := x];
  }
}
