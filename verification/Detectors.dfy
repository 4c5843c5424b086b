/** The five detectors of the semantic layer on the statements of a straight-line program:
    what each looks for, and what a walk knows when it gets there
    (internal/antivirus/semantic.go:159-439). */
module Detectors {
  import opened Semantic
  import opened Programs

  // ------------------------------------------------------- what a walk learns

  /** The values known, the variables that hold request data, those whose value was put
      together, the code rebuilt, and the names reported. */
  datatype View = View(
    values: Store, requested: set<string>, joined: set<string>, code: seq<string>, reports: set<string>)

  const NOTHING := View(map[], {}, {}, [], {})

  function ViewOf(tb: Tables): View {
    View(tb.symtab, tb.taint, tb.concatVar, tb.fragments, tb.seen)
  }

  /** The terms that are read: an element of an array is read as the array, and ends it. */
  function Reads(terms: seq<Term>): seq<Term> {
    if terms == [] then []
    else if terms[0].Elem? then [Ref(terms[0].name)]
    else [terms[0]] + Reads(terms[1..])
  }

  predicate Whole(terms: seq<Term>) {
    forall k :: 0 <= k < |terms| ==> !terms[k].Elem?
  }

  /** The expression has a value within the ceiling. */
  predicate Folds(table: Store, terms: seq<Term>) {
    Defined(table, Reads(terms)) && |Eval(table, Reads(terms))| <= MAX_FOLD
  }

  function Value(table: Store, terms: seq<Term>): string {
    Eval(table, Reads(terms))
  }

  /** Request data is among the operands that are read, none of them after the known
      ones have passed `room` bytes. */
  predicate Comes(table: Store, requested: set<string>, terms: seq<Term>, room: int) {
    if terms == [] then false
    else if Defined(table, terms[..1]) then
      |EvalTerm(table, terms[0])| <= room
      && Comes(table, requested, terms[1..], room - |EvalTerm(table, terms[0])|)
    else
      (!terms[0].Lit? && (terms[0].name in requested || terms[0].name in SUPERGLOBALS))
      || Comes(table, requested, terms[1..], room)
  }

  /** What one statement does to the values known. */
  function FoldStmt(table: Store, s: Stmt): Store {
    match s
    case Assign(v, terms) => if Folds(table, terms) then table[v := Value(table, terms)] else table - {v}
    case Append(v, terms) =>
      if !Folds(table, terms) then table
      else if |Lookup(table, v) + Value(table, terms)| > MAX_FOLD then table - {v}
      else table[v := Lookup(table, v) + Value(table, terms)]
    case _ => table
  }

  function FoldAll(table: Store, p: seq<Stmt>): Store {
    if p == [] then table else FoldStmt(FoldAll(table, p[..|p| - 1]), p[|p| - 1])
  }

  /** And to the variables that hold request data. */
  function Requested(view: View, s: Stmt): set<string> {
    match s
    case Assign(v, terms) =>
      if !Folds(view.values, terms) && Comes(view.values, view.requested, Reads(terms), MAX_FOLD)
      then view.requested + {v} else view.requested - {v}
    case Append(v, terms) =>
      if !Folds(view.values, terms) then
        if Comes(view.values, view.requested, Reads(terms), MAX_FOLD) then view.requested + {v} else view.requested
      else if |Lookup(view.values, v) + Value(view.values, terms)| > MAX_FOLD then view.requested
      else view.requested - {v}
    case _ => view.requested
  }

  /** A variable has been put together if its value has two pieces or more. */
  function Joined(view: View, s: Stmt): set<string> {
    match s
    case Assign(v, terms) =>
      if Folds(view.values, terms) && |Reads(terms)| >= 2 && Value(view.values, terms) != "" then view.joined + {v}
      else view.joined - {v}
    case Append(v, terms) =>
      if !Folds(view.values, terms) then view.joined
      else if |Lookup(view.values, v) + Value(view.values, terms)| > MAX_FOLD then view.joined - {v}
      else view.joined + {v}
    case _ => view.joined
  }

  /** The statement puts a sink name together, by assignment or in the place where it
      calls it. */
  predicate PutsSinkTogether(view: View, s: Stmt) {
    match s
    case Assign(_, terms) =>
      Folds(view.values, terms) && |Reads(terms)| >= 2 && SinkName(Value(view.values, terms))
    case Append(v, terms) =>
      Folds(view.values, terms) && |Lookup(view.values, v) + Value(view.values, terms)| <= MAX_FOLD
      && SinkName(Lookup(view.values, v) + Value(view.values, terms))
    case ParenCall(callee, _) =>
      |callee| >= 2 && callee[0].Lit? && Whole(callee) && Folds(view.values, callee)
      && SinkName(Value(view.values, callee))
    case InlineCall(pieces, _) => |pieces| >= 2 && SinkName(Concat(pieces))
    case _ => false
  }

  /** A call through an element of a superglobal, or through one itself. */
  predicate CallsSuperglobal(s: Stmt) {
    || (s.Call? && s.f in SUPERGLOBALS)
    || (s.IndexCall? && s.g in SUPERGLOBALS && |ExprToks(s.index)| <= MAX_INDEX - 2)
  }

  predicate EvalsVariable(view: View, s: Stmt) {
    && s.NamedCall? && Lower(s.fn) in EVAL_IDENTS && s.args != []
    && !s.args[0].Lit? && s.args[0].name in view.joined
  }

  predicate EvalsConcat(view: View, s: Stmt) {
    && s.NamedCall? && Lower(s.fn) in EVAL_IDENTS && |s.args| >= 2 && s.args[0].Lit? && Folds(view.values, s.args)
  }

  predicate CallsSink(view: View, s: Stmt) {
    s.Call? && s.f in view.values && SinkName(view.values[s.f])
  }

  predicate CallsRequested(view: View, s: Stmt) {
    s.Call? && s.f in view.requested
  }

  function Only(found: bool, name: string): set<string> {
    if found then {name} else {}
  }

  /** The detectors that look for this statement here. */
  function Found(view: View, s: Stmt): set<string> {
    Only(CallsSink(view, s), VARIABLE_SINK_CALL) + Only(CallsRequested(view, s), TAINTED_NAME_CALL)
    + Only(CallsSuperglobal(s), SUPERGLOBAL_CALL) + Only(EvalsVariable(view, s) || EvalsConcat(view, s), EVAL_CONCAT)
    + Only(PutsSinkTogether(view, s), CONCATENATED_SINK)
  }

  function Queued(code: seq<string>, more: string): seq<string> {
    if more != "" && |code| < MAX_FRAGMENTS then code + [more] else code
  }

  /** The code that is handed to an eval. */
  function Code(view: View, s: Stmt): seq<string> {
    if EvalsVariable(view, s) then Queued(view.code, Lookup(view.values, s.args[0].name))
    else if EvalsConcat(view, s) then Queued(view.code, Value(view.values, s.args))
    else view.code
  }

  function After(view: View, s: Stmt): View {
    View(FoldStmt(view.values, s), Requested(view, s), Joined(view, s), Code(view, s), view.reports + Found(view, s))
  }

  function AfterAll(view: View, p: seq<Stmt>): View {
    if p == [] then view else After(AfterAll(view, p[..|p| - 1]), p[|p| - 1])
  }

  // -------------------------------------------------------- what is reported

  /** Each detector by its name. */
  predicate Detects(name: string, view: View, s: Stmt) {
    name in Found(view, s)
  }

  /** Some statement is one that this detector looks for, where it stands. */
  predicate SomeDetected(name: string, view: View, p: seq<Stmt>) {
    exists k :: 0 <= k < |p| && Detects(name, AfterAll(view, p[..k]), p[k])
  }

  /** REPORTED, EXACTLY. A name is reported if and only if it was before, or the program
      has a statement that its detector looks for. */
  lemma {:induction false} ReportedIff(view: View, p: seq<Stmt>, name: string)
    ensures name in AfterAll(view, p).reports <==> name in view.reports || SomeDetected(name, view, p)
    decreases |p|
  {
    hide Found;
    if p != [] {
      var init, s := p[..|p| - 1], p[|p| - 1];
      ReportedIff(view, init, name);
      assert forall k :: 0 <= k < |init| ==> init[..k] == p[..k];
      if SomeDetected(name, view, init) {
        var k :| 0 <= k < |init| && Detects(name, AfterAll(view, init[..k]), init[k]);
        assert Detects(name, AfterAll(view, p[..k]), p[k]);
      }
      if SomeDetected(name, view, p) {
        var k :| 0 <= k < |p| && Detects(name, AfterAll(view, p[..k]), p[k]);
        assert k < |init| ==> Detects(name, AfterAll(view, init[..k]), init[k]);
        assert k == |init| ==> p[..k] == init;
      }
      assert p[..|p| - 1] == init && (Detects(name, AfterAll(view, init), s) ==> SomeDetected(name, view, p));
    }
  }

  /** Which statements the five detectors look for. */
  lemma DetectsIff(view: View, s: Stmt)
    ensures Detects(VARIABLE_SINK_CALL, view, s) <==> CallsSink(view, s)
    ensures Detects(TAINTED_NAME_CALL, view, s) <==> CallsRequested(view, s)
    ensures Detects(SUPERGLOBAL_CALL, view, s) <==> CallsSuperglobal(s)
    ensures Detects(EVAL_CONCAT, view, s) <==> EvalsVariable(view, s) || EvalsConcat(view, s)
    ensures Detects(CONCATENATED_SINK, view, s) <==> PutsSinkTogether(view, s)
  {
    hide CallsSink, CallsRequested, CallsSuperglobal, EvalsVariable, EvalsConcat, PutsSinkTogether;
  }
}
