/** Straight-line PHP: what its statements mean to PHP, and the tokens they are. */
module Programs {
  import opened Semantic

  /** `'text'`, `$name` and `$name['index']`. */
  datatype Term = Lit(text: string) | Ref(name: string) | Elem(name: string, index: string)

  /** `$v = e;`, `$v .= e;`, `$f(e);`, `$g[i](e);`, `fn(e);`, `(c)(e);` and
      `'a' . 'b'(e);`, where e, i and c are concatenations. */
  datatype Stmt =
    | Assign(v: string, terms: seq<Term>)
    | Append(v: string, terms: seq<Term>)
    | Call(f: string, args: seq<Term>)
    | IndexCall(g: string, index: seq<Term>, args: seq<Term>)
    | NamedCall(fn: string, args: seq<Term>)
    | ParenCall(callee: seq<Term>, args: seq<Term>)
    | InlineCall(pieces: seq<string>, args: seq<Term>)

  type Store = map<string, string>

  // ------------------------------------------------------ concrete semantics

  function Lookup(store: Store, name: string): string {
    if name in store then store[name] else ""
  }

  /** The elements of arrays are entries of the store under names no variable has. */
  function EvalTerm(store: Store, t: Term): string {
    match t
    case Lit(text) => text
    case Ref(name) => Lookup(store, name)
    case Elem(name, index) => Lookup(store, name + "[" + index + "]")
  }

  function Eval(store: Store, terms: seq<Term>): string {
    if terms == [] then "" else EvalTerm(store, terms[0]) + Eval(store, terms[1..])
  }

  function Exec(store: Store, s: Stmt): Store {
    match s
    case Assign(v, terms) => store[v := Eval(store, terms)]
    case Append(v, terms) => store[v := Lookup(store, v) + Eval(store, terms)]
    case _ => store
  }

  function Run(store: Store, p: seq<Stmt>): Store {
    if p == [] then store else Exec(Run(store, p[..|p| - 1]), p[|p| - 1])
  }

  /** Every operand is a literal or a variable with a value. */
  predicate Defined(store: Store, terms: seq<Term>) {
    forall k :: 0 <= k < |terms| ==> !terms[k].Elem? && (terms[k].Ref? ==> terms[k].name in store)
  }

  function Concat(pieces: seq<string>): string {
    if pieces == [] then "" else pieces[0] + Concat(pieces[1..])
  }

  // ------------------------------------------------------------------ tokens

  const DOT := Token(Dot, "", false)
  const OPEN := Token(Other, "[", false)
  const CLOSE := Token(Other, "]", false)
  const LPAREN := Token(LParen, "", false)
  const RPAREN := Token(RParen, "", false)
  const SEMI := Token(Semi, "", false)

  function VarTok(name: string): Token {
    Token(Var, name, false)
  }

  function TermToks(t: Term): (toks: seq<Token>)
    ensures toks != []
  {
    match t
    case Lit(text) => [Token(Str, text, true)]
    case Ref(name) => [VarTok(name)]
    case Elem(name, index) => [VarTok(name), OPEN, Token(Str, index, true), CLOSE]
  }

  function ExprToks(terms: seq<Term>): seq<Token> {
    if terms == [] then []
    else if |terms| == 1 then TermToks(terms[0])
    else TermToks(terms[0]) + ([DOT] + ExprToks(terms[1..]))
  }

  function Lits(pieces: seq<string>): (terms: seq<Term>)
    ensures |terms| == |pieces| && forall k :: 0 <= k < |pieces| ==> terms[k] == Lit(pieces[k])
  {
    if pieces == [] then [] else [Lit(pieces[0])] + Lits(pieces[1..])
  }

  function ArgToks(args: seq<Term>): seq<Token> {
    [LPAREN] + (ExprToks(args) + [RPAREN, SEMI])
  }

  /** The tokens that one turn of the walk takes. */
  function Lead(s: Stmt): seq<Token> {
    match s
    case Assign(v, _) => [VarTok(v), Token(AssignOp, "", false)]
    case Append(v, _) => [VarTok(v), Token(DotEq, ".=", false)]
    case Call(f, _) => [VarTok(f)]
    case IndexCall(g, _, _) => [VarTok(g)]
    case NamedCall(fn, _) => [Token(Ident, fn, false)]
    case ParenCall(_, _) => [LPAREN]
    case InlineCall(pieces, _) => ExprToks(Lits(pieces))
  }

  function Trail(s: Stmt): seq<Token> {
    match s
    case Assign(_, terms) => ExprToks(terms) + [SEMI]
    case Append(_, terms) => ExprToks(terms) + [SEMI]
    case Call(_, args) => ArgToks(args)
    case IndexCall(_, index, args) => [OPEN] + (ExprToks(index) + ([CLOSE] + ArgToks(args)))
    case NamedCall(_, args) => ArgToks(args)
    case ParenCall(callee, args) => ExprToks(callee) + ([RPAREN] + ArgToks(args))
    case InlineCall(_, args) => ArgToks(args)
  }

  function StmtToks(s: Stmt): seq<Token> {
    Lead(s) + Trail(s)
  }

  function ProgToks(p: seq<Stmt>): seq<Token> {
    if p == [] then [] else ProgToks(p[..|p| - 1]) + StmtToks(p[|p| - 1])
  }

  /** An assignment has a right side, and pieces called in place keep to the ceiling. */
  predicate Spelled(s: Stmt) {
    match s
    case Assign(_, terms) => terms != []
    case Append(_, terms) => terms != []
    case InlineCall(pieces, _) => pieces != [] && |Concat(pieces)| <= MAX_FOLD
    case _ => true
  }

  predicate AllSpelled(p: seq<Stmt>) {
    forall k :: 0 <= k < |p| ==> Spelled(p[k])
  }

  // -------------------------------------------------------------- positions

  /** Token list `xs` stands in `toks` at position a. */
  predicate Window(toks: seq<Token>, a: nat, xs: seq<Token>) {
    a + |xs| <= |toks| && forall k :: a <= k < a + |xs| ==> toks[k] == xs[k - a]
  }

  lemma WindowSplits(toks: seq<Token>, a: nat, xs: seq<Token>, ys: seq<Token>)
    requires Window(toks, a, xs + ys)
    ensures Window(toks, a, xs) && Window(toks, a + |xs|, ys)
  {
    forall k | a + |xs| <= k < a + |xs| + |ys| ensures toks[k] == ys[k - a - |xs|] {
      assert (xs + ys)[k - a] == ys[k - a - |xs|];
    }
    forall k | a <= k < a + |xs| ensures toks[k] == xs[k - a] {
      assert (xs + ys)[k - a] == xs[k - a];
    }
  }

  lemma WindowFrom(toks: seq<Token>, a: nat, xs: seq<Token>, n: nat)
    requires Window(toks, a, xs) && n <= |xs|
    ensures Window(toks, a + n, xs[n..])
  {
    assert xs == xs[..n] + xs[n..];
    WindowSplits(toks, a, xs[..n], xs[n..]);
  }

  predicate AtStatement(toks: seq<Token>, a: nat) {
    a == 0 || (a <= |toks| && toks[a - 1].kind == Semi)
  }

  lemma {:induction false} ProgToksPrefix(p: seq<Stmt>, k: nat)
    requires k <= |p|
    ensures ProgToks(p[..k]) <= ProgToks(p)
    decreases |p|
  {
    if k < |p| {
      ProgToksPrefix(p[..|p| - 1], k);
      assert p[..|p| - 1][..k] == p[..k];
    } else {
      assert p[..k] == p;
    }
  }

  lemma StmtEnds(s: Stmt)
    ensures StmtToks(s) != [] && StmtToks(s)[|StmtToks(s)| - 1] == SEMI && Trail(s) != []
  {}

  lemma EndsAtStatement(toks: seq<Token>, a: nat, p: seq<Stmt>)
    requires AtStatement(toks, a) && Window(toks, a, ProgToks(p))
    ensures AtStatement(toks, a + |ProgToks(p)|)
  {
    if p != [] {
      var all := ProgToks(p);
      StmtEnds(p[|p| - 1]);
      assert all[|all| - 1] == SEMI;
      assert toks[a + |all| - 1] == all[|all| - 1];
    }
  }
}
