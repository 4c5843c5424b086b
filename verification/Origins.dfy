/** Which variables hold request data (internal/antivirus/semantic.go:186-264, 377-404).
    PHP's answer follows the data through every assignment; the walk keeps a mark. This
    module says exactly when the marks are the truth. */
module Origins {
  import opened Semantic
  import opened Programs
  import opened Detectors

  // ------------------------------------------------------------- the truth

  /** The operand is request data, or part of it. */
  predicate FromTerm(from: set<string>, t: Term) {
    !t.Lit? && (t.name in from || t.name in SUPERGLOBALS)
  }

  predicate SomeFrom(from: set<string>, terms: seq<Term>) {
    exists k :: 0 <= k < |terms| && FromTerm(from, terms[k])
  }

  /** The variables whose value contains request data. */
  function ExecFrom(from: set<string>, s: Stmt): set<string> {
    match s
    case Assign(v, terms) => if SomeFrom(from, terms) then from + {v} else from - {v}
    case Append(v, terms) => if SomeFrom(from, terms) then from + {v} else from
    case _ => from
  }

  function RunFrom(from: set<string>, p: seq<Stmt>): set<string> {
    if p == [] then from else ExecFrom(RunFrom(from, p[..|p| - 1]), p[|p| - 1])
  }

  /** Somebody's request chooses the function that is called. */
  predicate SomeRequestedCall(from: set<string>, p: seq<Stmt>) {
    exists c :: 0 <= c < |p| && p[c].Call? && p[c].f in RunFrom(from, p[..c])
  }

  // ---------------------------------------------------- when the marks hold

  /** The marks are the truth, and what has a known value is no request data. */
  predicate Marked(view: View, from: set<string>) {
    view.requested == from && view.values.Keys !! from && view.values.Keys !! SUPERGLOBALS
  }

  /** The known operands, joined. */
  function KnownPart(table: Store, terms: seq<Term>): string {
    if terms == [] then ""
    else (if Defined(table, terms[..1]) then EvalTerm(table, terms[0]) else "") + KnownPart(table, terms[1..])
  }

  /** The folder gets as far as this operand: no element of an array before it ends the
      reading, and the known ones before it fit. */
  predicate Reached(table: Store, terms: seq<Term>, k: nat, room: int)
    requires k <= |terms|
  {
    (forall j :: 0 <= j < k ==> !terms[j].Elem?) && |KnownPart(table, terms[..k])| <= room
  }

  predicate SomeReached(table: Store, from: set<string>, terms: seq<Term>, room: int) {
    exists k :: 0 <= k < |terms| && FromTerm(from, terms[k]) && Reached(table, terms, k, room)
  }

  /** Request data among the operands is reached. */
  predicate Noticed(view: View, from: set<string>, terms: seq<Term>) {
    SomeFrom(from, terms) ==> SomeReached(view.values, from, terms, MAX_FOLD)
  }

  /** When a statement keeps the marks true: request data is noticed; and a `.=` does not
      join a known value onto request data, nor request data onto a known value. */
  predicate Untangled(view: View, from: set<string>, s: Stmt) {
    match s
    case Assign(_, terms) => Noticed(view, from, terms)
    case Append(v, terms) =>
      if v in from then
        Folds(view.values, terms) ==> |Lookup(view.values, v) + Value(view.values, terms)| > MAX_FOLD
      else
        Noticed(view, from, terms) && (SomeFrom(from, terms) ==> v !in view.values)
    case _ => true
  }

  predicate AssignsNoGlobal(s: Stmt) {
    s.Assign? || s.Append? ==> s.v !in SUPERGLOBALS
  }

  lemma KnownFirst(table: Store, terms: seq<Term>, k: nat)
    requires 0 < k <= |terms|
    ensures KnownPart(table, terms[..k])
            == (if Defined(table, terms[..1]) then EvalTerm(table, terms[0]) else "")
               + KnownPart(table, terms[1..][..k - 1])
  {
    var a := terms[..k];
    assert a[..1] == terms[..1] && a[1..] == terms[1..][..k - 1] && a[0] == terms[0];
  }

  lemma NothingKnown(table: Store, terms: seq<Term>)
    ensures KnownPart(table, terms[..0]) == ""
  {
    assert terms[..0] == [];
  }

  lemma FirstDefined(table: Store, t: Term, terms: seq<Term>)
    requires terms != [] && terms[0] == t
    ensures Defined(table, terms[..1]) <==> !t.Elem? && (t.Ref? ==> t.name in table)
  {
    assert terms[..1][0] == t;
  }

  /** One operand further. */
  lemma ReachedFirst(table: Store, from: set<string>, terms: seq<Term>, room: int)
    requires terms != [] && room >= 0
    ensures var used := if Defined(table, terms[..1]) then |EvalTerm(table, terms[0])| else 0;
            SomeReached(table, from, terms, room) <==>
            FromTerm(from, terms[0]) || (!terms[0].Elem? && used <= room
                                         && SomeReached(table, from, terms[1..], room - used))
  {
    hide KnownPart, EvalTerm, Defined;
    var rest, used := terms[1..], if Defined(table, terms[..1]) then |EvalTerm(table, terms[0])| else 0;
    NothingKnown(table, terms);
    if FromTerm(from, terms[0]) {
      assert Reached(table, terms, 0, room);
    }
    forall k | 0 < k < |terms|
      ensures Reached(table, terms, k, room) <==> !terms[0].Elem? && Reached(table, rest, k - 1, room - used)
    {
      KnownFirst(table, terms, k);
      assert forall j :: 0 < j < k ==> terms[j] == rest[j - 1];
    }
    if !terms[0].Elem? && used <= room && SomeReached(table, from, rest, room - used) {
      var k :| 0 <= k < |rest| && FromTerm(from, rest[k]) && Reached(table, rest, k, room - used);
      assert Reached(table, terms, k + 1, room) && terms[k + 1] == rest[k];
    }
    if SomeReached(table, from, terms, room) && !FromTerm(from, terms[0]) {
      var k :| 0 <= k < |terms| && FromTerm(from, terms[k]) && Reached(table, terms, k, room);
      assert Reached(table, rest, k - 1, room - used) && rest[k - 1] == terms[k];
      assert used <= room by { KnownFirst(table, terms, k); }
    }
  }

  /** The folder finds request data exactly when some is reached. */
  lemma {:induction false} ComesIff(table: Store, from: set<string>, terms: seq<Term>, room: int)
    requires table.Keys !! from && table.Keys !! SUPERGLOBALS && room >= 0
    ensures Comes(table, from, Reads(terms), room) <==> SomeReached(table, from, terms, room)
  {
    hide SomeReached;
    if terms == [] {
      NothingReached(table, from, room);
    } else {
      ReachedFirst(table, from, terms, room);
      var t, rs := terms[0], Reads(terms);
      FirstDefined(table, t, terms);
      if t.Elem? {
        FirstDefined(table, Ref(t.name), rs);
        NothingReached(table, from, room);
        assert rs[1..] == [];
      } else {
        assert rs[0] == t && rs[1..] == Reads(terms[1..]);
        FirstDefined(table, t, rs);
        var used := if Defined(table, terms[..1]) then |EvalTerm(table, t)| else 0;
        if used <= room {
          ComesIff(table, from, terms[1..], room - used);
        }
      }
    }
  }

  lemma NothingReached(table: Store, from: set<string>, room: int)
    ensures !SomeReached(table, from, [], room)
  {}

  /** What folds has no request data that is reached. */
  lemma {:induction false} FoldsComesNot(table: Store, from: set<string>, terms: seq<Term>, room: int)
    requires Defined(table, terms)
    ensures !Comes(table, from, terms, room)
  {
    if terms != [] {
      FirstDefined(table, terms[0], terms);
      assert forall k :: 0 < k < |terms| ==> terms[k] == terms[1..][k - 1];
      FoldsComesNot(table, from, terms[1..], room - |EvalTerm(table, terms[0])|);
    }
  }

  /** What the walk makes of the operands of one statement. */
  lemma Operands(view: View, from: set<string>, terms: seq<Term>)
    requires Marked(view, from)
    ensures var comes := Comes(view.values, view.requested, Reads(terms), MAX_FOLD);
            && (comes ==> SomeFrom(from, terms) && !Folds(view.values, terms))
            && (Noticed(view, from, terms) <==> (comes <==> SomeFrom(from, terms)))
  {
    ComesIff(view.values, from, terms, MAX_FOLD);
    if Defined(view.values, Reads(terms)) {
      FoldsComesNot(view.values, from, Reads(terms), MAX_FOLD);
    }
    assert SomeReached(view.values, from, terms, MAX_FOLD) ==> SomeFrom(from, terms);
  }

  /** EXACTLY WHEN. True marks stay true over a statement if and only if it is untangled. */
  lemma StatementKeepsMarksIff(view: View, from: set<string>, s: Stmt)
    requires Marked(view, from) && AssignsNoGlobal(s)
    ensures Marked(After(view, s), ExecFrom(from, s)) <==> Untangled(view, from, s)
  {
    hide Comes, Reads, Folds, Value, SomeFrom, Noticed, Found, Code, Joined;
    match s
    case Assign(v, terms) => Operands(view, from, terms);
    case Append(v, terms) => Operands(view, from, terms);
    case _ =>
  }

  // -------------------------------------------------------- whole programs

  predicate NoGlobalAssigned(p: seq<Stmt>) {
    forall k :: 0 <= k < |p| ==> AssignsNoGlobal(p[k])
  }

  predicate UntangledAt(view: View, from: set<string>, p: seq<Stmt>, k: nat)
    requires k < |p|
  {
    Untangled(AfterAll(view, p[..k]), RunFrom(from, p[..k]), p[k])
  }

  /** Every statement is untangled where it stands. */
  predicate AllUntangled(view: View, from: set<string>, p: seq<Stmt>) {
    forall k :: 0 <= k < |p| ==> UntangledAt(view, from, p, k)
  }

  predicate MarkedAt(view: View, from: set<string>, p: seq<Stmt>, k: nat)
    requires k <= |p|
  {
    Marked(AfterAll(view, p[..k]), RunFrom(from, p[..k]))
  }

  lemma OneFurther(view: View, from: set<string>, p: seq<Stmt>, k: nat)
    requires k < |p| && NoGlobalAssigned(p) && MarkedAt(view, from, p, k)
    ensures MarkedAt(view, from, p, k + 1) <==> UntangledAt(view, from, p, k)
  {
    var next := p[..k + 1];
    assert next[..|next| - 1] == p[..k] && next[|next| - 1] == p[k];
    assert AfterAll(view, next) == After(AfterAll(view, p[..k]), p[k]);
    assert RunFrom(from, next) == ExecFrom(RunFrom(from, p[..k]), p[k]);
    hide AfterAll, RunFrom, After, ExecFrom, Marked, Untangled;
    StatementKeepsMarksIff(AfterAll(view, p[..k]), RunFrom(from, p[..k]), p[k]);
  }

  lemma {:induction false} MarkedUpTo(view: View, from: set<string>, p: seq<Stmt>, k: nat)
    requires k <= |p| && NoGlobalAssigned(p) && Marked(view, from)
    requires forall j :: 0 <= j < k ==> UntangledAt(view, from, p, j)
    ensures MarkedAt(view, from, p, k)
  {
    if k == 0 {
      assert p[..0] == [];
    } else {
      hide MarkedAt, UntangledAt;
      MarkedUpTo(view, from, p, k - 1);
      OneFurther(view, from, p, k - 1);
    }
  }

  /** EXACTLY WHEN, FOR PROGRAMS. From true marks on, the marks are true after every
      statement of a program if and only if every statement is untangled where it stands. */
  lemma ProgramKeepsMarksIff(view: View, from: set<string>, p: seq<Stmt>)
    requires NoGlobalAssigned(p) && Marked(view, from)
    ensures (forall k :: 0 <= k <= |p| ==> MarkedAt(view, from, p, k)) <==> AllUntangled(view, from, p)
  {
    hide Marked, MarkedAt, UntangledAt, NoGlobalAssigned;
    if AllUntangled(view, from, p) {
      forall k | 0 <= k <= |p|
        ensures MarkedAt(view, from, p, k)
      {
        MarkedUpTo(view, from, p, k);
      }
    }
    if forall k :: 0 <= k <= |p| ==> MarkedAt(view, from, p, k) {
      forall k | 0 <= k < |p|
        ensures UntangledAt(view, from, p, k)
      {
        assert MarkedAt(view, from, p, k) && MarkedAt(view, from, p, k + 1);
        OneFurther(view, from, p, k);
      }
    }
  }

  /** A REQUESTED CALL IS REPORTED. In an untangled program a call through request data is
      reported if and only if there is one, through however many variables the data went. */
  lemma RequestedCallIsReported(view: View, from: set<string>, p: seq<Stmt>)
    requires NoGlobalAssigned(p) && Marked(view, from) && AllUntangled(view, from, p)
    ensures TAINTED_NAME_CALL in AfterAll(view, p).reports <==>
            TAINTED_NAME_CALL in view.reports || SomeRequestedCall(from, p)
  {
    ReportedIff(view, p, TAINTED_NAME_CALL);
    ProgramKeepsMarksIff(view, from, p);
    forall k | 0 <= k < |p|
      ensures Detects(TAINTED_NAME_CALL, AfterAll(view, p[..k]), p[k]) <==>
              p[k].Call? && p[k].f in RunFrom(from, p[..k])
    {
      assert MarkedAt(view, from, p, k);
      DetectsIff(AfterAll(view, p[..k]), p[k]);
    }
    hide AfterAll, RunFrom, Detects;
  }

  // ------------------------------------------------ where the marks are lost

  /** `$f = $_GET["x"]; $f .= "y";` drops the mark: what `.=` joins onto is forgotten. */
  const APPENDED: seq<Stmt> := [Assign("f", [Elem("$_GET", "x")]), Append("f", [Lit("y")]), Call("f", [])]

  /** `$f = "y"; $f .= $_GET["x"]; $g = $f;` copies the stale value, not the mark. */
  const COPIED: seq<Stmt> := [Assign("f", [Lit("y")]), Append("f", [Elem("$_GET", "x")]), Assign("g", [Ref("f")]),
                              Call("g", [])]

  lemma Reading(view: View, t: Term)
    ensures Reads([t]) == [if t.Elem? then Ref(t.name) else t]
    ensures t.Lit? && |t.text| <= MAX_FOLD ==> Folds(view.values, [t]) && Value(view.values, [t]) == t.text
    ensures t.Ref? && t.name in view.values && |view.values[t.name]| <= MAX_FOLD ==>
              Folds(view.values, [t]) && Value(view.values, [t]) == view.values[t.name]
    ensures !t.Lit? && t.name !in view.values ==>
              !Folds(view.values, [t])
              && (Comes(view.values, view.requested, Reads([t]), MAX_FOLD) <==>
                  t.name in view.requested || t.name in SUPERGLOBALS)
  {
    var r := if t.Elem? then Ref(t.name) else t;
    assert [t][1..] == [] && [t][0] == t;
    assert Reads([t]) == [r];
    ReadingOne(view, r);
  }

  lemma ReadingOne(view: View, r: Term)
    requires !r.Elem?
    ensures Eval(view.values, [r]) == EvalTerm(view.values, r)
    ensures Defined(view.values, [r]) <==> (r.Ref? ==> r.name in view.values)
    ensures r.Ref? && r.name !in view.values ==>
              (Comes(view.values, view.requested, [r], MAX_FOLD)
               <==> r.name in view.requested || r.name in SUPERGLOBALS)
  {
    var rest := [r][1..];
    assert rest == [] && [r][..1] == [r] && [r][0] == r;
    assert Eval(view.values, rest) == "" && !Comes(view.values, view.requested, rest, MAX_FOLD);
    assert EvalTerm(view.values, r) + "" == EvalTerm(view.values, r);
    assert r.Ref? && r.name !in view.values ==> !Defined(view.values, [r][..1]);
  }

  lemma OneTermFrom(from: set<string>, t: Term)
    ensures SomeFrom(from, [t]) <==> FromTerm(from, t)
  {
    assert [t][0] == t;
  }

  lemma Stepwise(view: View, from: set<string>, p: seq<Stmt>, s: Stmt)
    ensures AfterAll(view, p + [s]) == After(AfterAll(view, p), s)
    ensures RunFrom(from, p + [s]) == ExecFrom(RunFrom(from, p), s)
  {
    assert (p + [s])[..|p|] == p;
  }

  /** What `.=` joins onto is forgotten with its mark. */
  lemma AppendDropsMark(view: View, from: set<string>, f: string, text: string)
    requires f !in view.values && f in from && |text| <= MAX_FOLD
    ensures var append := Append(f, [Lit(text)]);
            && f !in After(view, append).requested && f in ExecFrom(from, append)
            && (TAINTED_NAME_CALL in After(view, append).reports <==> TAINTED_NAME_CALL in view.reports)
  {
    var append := Append(f, [Lit(text)]);
    Reading(view, Lit(text));
    DetectsIff(view, append);
    hide Folds, Value, Reads, Comes, SomeFrom, SinkName;
  }

  lemma ElementIsRequested()
    ensures var a := APPENDED[0];
            && After(NOTHING, a).values == map[] && TAINTED_NAME_CALL !in After(NOTHING, a).reports
            && "f" in ExecFrom({}, a)
  {
    var a := APPENDED[0];
    Reading(NOTHING, a.terms[0]);
    OneTermFrom({}, a.terms[0]);
    DetectsIff(NOTHING, a);
    hide Folds, Value, Reads, Comes, SomeFrom, SinkName;
  }

  /** Both ways of losing a mark happen: the call goes through request data and is not
      reported. */
  lemma AppendedMarkIsLost()
    ensures SomeRequestedCall({}, APPENDED) && TAINTED_NAME_CALL !in AfterAll(NOTHING, APPENDED).reports
  {
    hide After, ExecFrom, AfterAll, RunFrom, SomeRequestedCall;
    var a, b, c := APPENDED[0], APPENDED[1], APPENDED[2];
    ElementIsRequested();
    AppendDropsMark(After(NOTHING, a), ExecFrom({}, a), "f", "y");
    DetectsIff(After(After(NOTHING, a), b), c);
    CallReports(After(After(NOTHING, a), b), c);
    LostSooner(a, b, c);
  }

  lemma LostSooner(a: Stmt, b: Stmt, c: Stmt)
    requires c.Call? && c.f in ExecFrom(ExecFrom({}, a), b)
    requires TAINTED_NAME_CALL !in After(After(After(NOTHING, a), b), c).reports
    ensures SomeRequestedCall({}, [a, b, c]) && TAINTED_NAME_CALL !in AfterAll(NOTHING, [a, b, c]).reports
  {
    hide After, ExecFrom, AfterAll, RunFrom;
    var none: seq<Stmt> := [];
    Nothing();
    Stepwise(NOTHING, {}, none, a);
    Stepwise(NOTHING, {}, [a], b);
    Stepwise(NOTHING, {}, [a, b], c);
    var p := [a, b, c];
    assert none + [a] == [a] && [a] + [b] == [a, b] && [a, b] + [c] == p && p[..2] == [a, b] && p[2] == c;
    assert p[2].Call? && p[2].f in RunFrom({}, p[..2]);
  }

  /** A known value is copied without the mark. */
  lemma CopyIsUnmarked(view: View, from: set<string>, f: string, g: string)
    requires f in view.values && |view.values[f]| <= MAX_FOLD && f in from
    ensures var copy := Assign(g, [Ref(f)]);
            && g !in After(view, copy).requested && g in ExecFrom(from, copy)
            && (TAINTED_NAME_CALL in After(view, copy).reports <==> TAINTED_NAME_CALL in view.reports)
  {
    var copy := Assign(g, [Ref(f)]);
    Reading(view, Ref(f));
    OneTermFrom(from, Ref(f));
    DetectsIff(view, copy);
    hide Folds, Value, Reads, Comes, SomeFrom, SinkName;
  }

  lemma StaleAndMarked(view: View, from: set<string>)
    requires view.values == map["f" := "y"] && "f" !in SUPERGLOBALS
    ensures var b := COPIED[1];
            && After(view, b).values == view.values && "f" in ExecFrom(from, b)
            && (TAINTED_NAME_CALL in After(view, b).reports <==> TAINTED_NAME_CALL in view.reports)
  {
    var b := COPIED[1];
    Reading(view, b.terms[0]);
    OneTermFrom(from, b.terms[0]);
    DetectsIff(view, b);
    hide Folds, Value, Reads, Comes, SomeFrom, SinkName;
  }

  lemma LiteralIsKnown()
    ensures var a := COPIED[0];
            After(NOTHING, a).values == map["f" := "y"] && TAINTED_NAME_CALL !in After(NOTHING, a).reports
  {
    var a := COPIED[0];
    Reading(NOTHING, a.terms[0]);
    DetectsIff(NOTHING, a);
    hide Folds, Value, Reads, Comes, SomeFrom, SinkName;
  }

  lemma LostAlong(a: Stmt, b: Stmt, c: Stmt, d: Stmt)
    requires d.Call? && d.f in ExecFrom(ExecFrom(ExecFrom({}, a), b), c)
    requires TAINTED_NAME_CALL !in After(After(After(After(NOTHING, a), b), c), d).reports
    ensures SomeRequestedCall({}, [a, b, c, d]) && TAINTED_NAME_CALL !in AfterAll(NOTHING, [a, b, c, d]).reports
  {
    hide After, ExecFrom, AfterAll, RunFrom;
    Chain(a, b, c, d);
    var p := [a, b, c, d];
    assert p[..3] == [a, b, c] && p[3] == d;
    assert p[3].Call? && p[3].f in RunFrom({}, p[..3]);
  }

  lemma CopiedMarkIsLost()
    ensures SomeRequestedCall({}, COPIED) && TAINTED_NAME_CALL !in AfterAll(NOTHING, COPIED).reports
  {
    hide After, ExecFrom, AfterAll, RunFrom, SomeRequestedCall;
    var a, b, c, d := COPIED[0], COPIED[1], COPIED[2], COPIED[3];
    LiteralIsKnown();
    var va, from := After(NOTHING, a), ExecFrom({}, a);
    StaleAndMarked(va, from);
    var vb := After(va, b);
    CopyIsUnmarked(vb, ExecFrom(from, b), "f", "g");
    DetectsIff(After(vb, c), d);
    CallReports(After(vb, c), d);
    LostAlong(a, b, c, d);
  }

  lemma CallReports(view: View, s: Stmt)
    ensures TAINTED_NAME_CALL in After(view, s).reports <==>
            TAINTED_NAME_CALL in view.reports || Detects(TAINTED_NAME_CALL, view, s)
  {
    hide Found;
  }

  lemma Chain(a: Stmt, b: Stmt, c: Stmt, d: Stmt)
    ensures AfterAll(NOTHING, [a, b, c, d]) == After(After(After(After(NOTHING, a), b), c), d)
    ensures RunFrom({}, [a, b, c]) == ExecFrom(ExecFrom(ExecFrom({}, a), b), c)
  {
    var none: seq<Stmt> := [];
    Nothing();
    Stepwise(NOTHING, {}, none, a);
    Stepwise(NOTHING, {}, [a], b);
    Stepwise(NOTHING, {}, [a, b], c);
    Stepwise(NOTHING, {}, [a, b, c], d);
    hide After, ExecFrom, AfterAll, RunFrom;
    assert none + [a] == [a] && [a] + [b] == [a, b] && [a, b] + [c] == [a, b, c] && [a, b, c] + [d] == [a, b, c, d];
  }

  lemma Nothing()
    ensures AfterAll(NOTHING, []) == NOTHING && RunFrom({}, []) == {}
  {}
}
