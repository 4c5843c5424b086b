/** The bounded PHP tokenizer (internal/antivirus/semantic.go:503-875). Each
    reader is a loop over an index; the function beside it says what it reads. */
module Tokenizer {
  import opened Semantic

  const MAX_TOKEN := 200000

  // ------------------------------------------------------------- byte classes

  predicate IsLetter(c: char) {
    'a' <= c <= 'z' || 'A' <= c <= 'Z' || c >= '\U{80}'
  }

  predicate IsDigit(c: char) {
    '0' <= c <= '9'
  }

  predicate IsHex(c: char) {
    IsDigit(c) || 'a' <= c <= 'f' || 'A' <= c <= 'F'
  }

  predicate IsOctal(c: char) {
    '0' <= c <= '7'
  }

  predicate IsWordChar(c: char) {
    IsLetter(c) || IsDigit(c) || c == '_'
  }

  predicate PhpBlank(c: char) {
    c == ' ' || c == '\t' || c == '\n' || c == '\r'
  }

  function HexVal(c: char): (v: nat)
    requires IsHex(c)
    ensures v < 16
  {
    if IsDigit(c) then (c - '0') as nat
    else if 'a' <= c <= 'f' then (c - 'a') as nat + 10
    else (c - 'A') as nat + 10
  }

  /** The byte an escape's value is truncated to. */
  function ByteChar(v: nat): char {
    (v % 256) as char
  }

  predicate BytesAt(src: string, i: nat, s: string) {
    i + |s| <= |src| && src[i..i + |s|] == s
  }

  /** An ASCII letter compared without its case (strings.EqualFold on ASCII). */
  predicate EqualFold(a: string, b: string) {
    Lower(a) == Lower(b)
  }

  // ------------------------------------------------------------ trivia readers

  function LineEnd(src: string, i: nat): (j: nat)
    ensures i <= j
    ensures i <= |src| ==> j <= |src|
    ensures i < |src| && src[i] != '\n' ==> i < j
    decreases |src| - i
  {
    if i < |src| && src[i] != '\n' then LineEnd(src, i + 1) else i
  }

  method SkipLine(src: string, start: nat) returns (i: nat)
    ensures i == LineEnd(src, start)
  {
    i := start;
    while i < |src| && src[i] != '\n'
      invariant LineEnd(src, i) == LineEnd(src, start)
    {
      i := i + 1;
    }
  }

  function CommentClose(src: string, i: nat): (j: nat)
    ensures i <= j
    decreases |src| - i
  {
    if i + 1 < |src| && (src[i] != '*' || src[i + 1] != '/') then CommentClose(src, i + 1) else i
  }

  /** An unterminated comment runs past the end of the file, at most one byte. */
  method SkipBlockComment(src: string, start: nat) returns (i: nat)
    ensures i == CommentClose(src, start + 2) + 2
  {
    i := start + 2;
    while i + 1 < |src| && (src[i] != '*' || src[i + 1] != '/')
      invariant CommentClose(src, i) == CommentClose(src, start + 2)
    {
      i := i + 1;
    }
    i := i + 2;
  }

  function WordEnd(src: string, i: nat): (j: nat)
    ensures i <= j
    ensures i <= |src| ==> j <= |src|
    ensures forall k :: i <= k < j && k < |src| ==> IsWordChar(src[k])
    ensures j < |src| ==> !IsWordChar(src[j])
    decreases |src| - i
  {
    if i < |src| && IsWordChar(src[i]) then WordEnd(src, i + 1) else i
  }

  method ScanWord(src: string, start: nat) returns (i: nat)
    ensures i == WordEnd(src, start)
  {
    i := start;
    while i < |src| && IsWordChar(src[i])
      invariant WordEnd(src, i) == WordEnd(src, start)
    {
      i := i + 1;
    }
  }

  // -------------------------------------------------------------- literals

  function PastQuote(src: string, i: nat, q: char): (j: nat)
    requires i <= |src|
    ensures i <= j <= |src|
    decreases |src| - i
  {
    if i == |src| then i else if src[i] == q then i + 1 else PastQuote(src, i + 1, q)
  }

  method SkipToQuote(src: string, start: nat, q: char) returns (i: nat)
    requires start <= |src|
    ensures i == PastQuote(src, start, q)
  {
    i := start;
    while i < |src| && src[i] != q
      invariant start <= i <= |src|
      invariant PastQuote(src, i, q) == PastQuote(src, start, q)
    {
      i := i + 1;
    }
    if i < |src| {
      i := i + 1;
    }
  }

  /** A literal: its value, whether it is free of interpolation, and the index past it. */
  datatype Literal = Literal(val: string, constant: bool, next: nat)

  function SingleFrom(src: string, i: nat, acc: string): (l: Literal)
    requires i <= |src|
    ensures i <= l.next <= |src|
    ensures |acc| <= |l.val| <= |acc| + (l.next - i)
    ensures l.constant
    decreases |src| - i
  {
    if i == |src| then Literal(acc, true, i)
    else
      var c := src[i];
      if c == '\\' && i + 1 < |src| && (src[i + 1] == '\\' || src[i + 1] == '\'') then
        SingleFrom(src, i + 2, acc + [src[i + 1]])
      else if c == '\'' then Literal(acc, true, i + 1)
      else
        var acc' := acc + [c];
        if |acc'| > MAX_FOLD then Literal(acc', true, PastQuote(src, i + 1, '\''))
        else SingleFrom(src, i + 1, acc')
  }

  method SingleQuote(src: string, start: nat) returns (val: string, i: nat)
    requires start < |src|
    ensures Literal(val, true, i) == SingleFrom(src, start + 1, "")
  {
    val := "";
    i := start + 1;
    while i < |src|
      invariant start + 1 <= i <= |src|
      invariant SingleFrom(src, i, val) == SingleFrom(src, start + 1, "")
    {
      var c := src[i];
      if c == '\\' && i + 1 < |src| && (src[i + 1] == '\\' || src[i + 1] == '\'') {
        val := val + [src[i + 1]];
        i := i + 2;
        continue;
      }
      if c == '\'' {
        i := i + 1;
        return;
      }
      val := val + [c];
      i := i + 1;
      if |val| > MAX_FOLD {
        i := SkipToQuote(src, i, '\'');
        return;
      }
    }
  }

  predicate SimpleEscape(c: char) {
    c == '\\' || c == '"' || c == '$' || c == 'n' || c == 't'
  }

  function SimpleEscapeByte(c: char): char
    requires SimpleEscape(c)
  {
    if c == 'n' then '\n' else if c == 't' then '\t' else c
  }

  /** The byte an escape writes and the index past it. */
  function HexFrom(src: string, h: nat, val: nat, count: nat): (r: (nat, nat))
    requires h <= |src|
    ensures h <= r.1 <= |src|
    decreases |src| - h
  {
    if h < |src| && count < 2 && IsHex(src[h]) then HexFrom(src, h + 1, val * 16 + HexVal(src[h]), count + 1)
    else (val, h)
  }

  method WriteHexEscape(src: string, i: nat) returns (b: char, h: nat)
    requires i + 2 <= |src|
    ensures var (v, n) := HexFrom(src, i + 2, 0, 0); b == ByteChar(v) && h == n
  {
    h := i + 2;
    var val, count := 0, 0;
    while h < |src| && count < 2 && IsHex(src[h])
      invariant i + 2 <= h <= |src| && 0 <= val && 0 <= count
      invariant HexFrom(src, h, val, count) == HexFrom(src, i + 2, 0, 0)
    {
      val := val * 16 + HexVal(src[h]);
      h, count := h + 1, count + 1;
    }
    b := ByteChar(val);
  }

  function OctalFrom(src: string, h: nat, val: nat, count: nat): (r: (nat, nat))
    requires h <= |src|
    ensures h <= r.1 <= |src|
    ensures h < |src| && count < 3 && IsOctal(src[h]) ==> h < r.1
    decreases |src| - h
  {
    if h < |src| && count < 3 && IsOctal(src[h]) then
      OctalFrom(src, h + 1, val * 8 + (src[h] - '0') as nat, count + 1)
    else (val, h)
  }

  method WriteOctalEscape(src: string, i: nat) returns (b: char, h: nat)
    requires i + 1 <= |src|
    ensures var (v, n) := OctalFrom(src, i + 1, 0, 0); b == ByteChar(v) && h == n
  {
    h := i + 1;
    var val, count := 0, 0;
    while h < |src| && count < 3 && IsOctal(src[h])
      invariant i + 1 <= h <= |src| && 0 <= val && 0 <= count
      invariant OctalFrom(src, h, val, count) == OctalFrom(src, i + 1, 0, 0)
    {
      val := val * 8 + (src[h] - '0') as nat;
      h, count := h + 1, count + 1;
    }
    b := ByteChar(val);
  }

  /** The backslash escape at i: the byte it writes and the index past it. */
  function EscapeAt(src: string, i: nat): (r: (char, nat))
    requires i + 1 < |src|
    ensures i + 2 <= r.1 <= |src|
  {
    var nx := src[i + 1];
    if SimpleEscape(nx) then (SimpleEscapeByte(nx), i + 2)
    else if nx == 'x' && i + 2 < |src| && IsHex(src[i + 2]) then
      var (v, n) := HexFrom(src, i + 2, 0, 0); (ByteChar(v), n)
    else if IsOctal(nx) then
      var (v, n) := OctalFrom(src, i + 1, 0, 0); (ByteChar(v), n)
    else (nx, i + 2)
  }

  method WriteEscape(src: string, i: nat) returns (b: char, next: nat)
    requires i + 1 < |src|
    ensures (b, next) == EscapeAt(src, i)
  {
    var nx := src[i + 1];
    if SimpleEscape(nx) {
      return SimpleEscapeByte(nx), i + 2;
    }
    if nx == 'x' && i + 2 < |src| && IsHex(src[i + 2]) {
      b, next := WriteHexEscape(src, i);
      return;
    }
    if '0' <= nx <= '7' {
      b, next := WriteOctalEscape(src, i);
      return;
    }
    return nx, i + 2;
  }

  function DoubleFrom(src: string, i: nat, acc: string, constant: bool): (l: Literal)
    requires i <= |src|
    ensures i <= l.next <= |src|
    ensures |acc| <= |l.val| <= |acc| + (l.next - i)
    decreases |src| - i
  {
    if i == |src| then Literal(acc, constant, i)
    else
      var c := src[i];
      if c == '\\' && i + 1 < |src| then
        var (b, next) := EscapeAt(src, i);
        DoubleFrom(src, next, acc + [b], constant && |acc + [b]| <= MAX_FOLD)
      else
        var constant' := constant && c != '$' && c != '{';
        if c == '"' then Literal(acc, constant', i + 1)
        else
          var acc' := acc + [c];
          if |acc'| > MAX_FOLD then Literal(acc', false, PastQuote(src, i + 1, '"'))
          else DoubleFrom(src, i + 1, acc', constant')
  }

  method DoubleQuote(src: string, start: nat) returns (val: string, constant: bool, i: nat)
    requires start < |src|
    ensures Literal(val, constant, i) == DoubleFrom(src, start + 1, "", true)
  {
    val, constant := "", true;
    i := start + 1;
    while i < |src|
      invariant start + 1 <= i <= |src|
      invariant DoubleFrom(src, i, val, constant) == DoubleFrom(src, start + 1, "", true)
    {
      var c := src[i];
      if c == '\\' && i + 1 < |src| {
        var b, next := WriteEscape(src, i);
        val := val + [b];
        if |val| > MAX_FOLD {
          constant := false;
        }
        i := next;
        continue;
      }
      if c == '$' || c == '{' {
        constant := false;
      }
      if c == '"' {
        i := i + 1;
        return;
      }
      val := val + [c];
      i := i + 1;
      if |val| > MAX_FOLD {
        constant := false;
        i := SkipToQuote(src, i, '"');
        return;
      }
    }
  }

  // --------------------------------------------------------------- heredocs

  function PastBlanks(src: string, j: nat): (k: nat)
    requires j <= |src|
    ensures j <= k <= |src|
    decreases |src| - j
  {
    if j < |src| && (src[j] == ' ' || src[j] == '\t') then PastBlanks(src, j + 1) else j
  }

  function LabelStart(src: string, j: nat): (r: (nat, bool))
    requires j <= |src|
    ensures j <= r.0 <= |src|
  {
    var k := PastBlanks(src, j);
    if k < |src| && (src[k] == '\'' || src[k] == '"') then (k + 1, src[k] == '\'') else (k, false)
  }

  method HeredocLabelStart(src: string, start: nat) returns (j: nat, nowdoc: bool)
    requires start <= |src|
    ensures (j, nowdoc) == LabelStart(src, start)
  {
    j := start;
    while j < |src| && (src[j] == ' ' || src[j] == '\t')
      invariant start <= j <= |src|
      invariant PastBlanks(src, j) == PastBlanks(src, start)
    {
      j := j + 1;
    }
    nowdoc := false;
    if j < |src| && (src[j] == '\'' || src[j] == '"') {
      nowdoc := src[j] == '\'';
      j := j + 1;
    }
  }

  function TrimRightCR(s: string): string {
    if s != "" && s[|s| - 1] == '\r' then TrimRightCR(s[..|s| - 1]) else s
  }

  function TrimLeftBlanks(s: string): string {
    if s != "" && (s[0] == ' ' || s[0] == '\t') then TrimLeftBlanks(s[1..]) else s
  }

  predicate ClosesHeredoc(line: string, word: string) {
    var trimmed := TrimLeftBlanks(TrimRightCR(line));
    trimmed == word || word + ";" <= trimmed
  }

  function NextLine(src: string, lineEnd: nat): nat {
    if lineEnd < |src| then lineEnd + 1 else lineEnd
  }

  function HeredocFrom(src: string, bodyStart: nat, j: nat, word: string, nowdoc: bool): (l: Literal)
    requires bodyStart <= j <= |src|
    ensures j <= l.next <= |src|
    ensures |l.val| <= l.next - bodyStart
    decreases |src| - j
  {
    if j == |src| then Literal("", false, j)
    else
      var e := LineEnd(src, j);
      if ClosesHeredoc(src[j..e], word) then
        var body := src[bodyStart..j];
        Literal(body, (nowdoc || ('$' !in body && '{' !in body)) && |body| <= MAX_FOLD, NextLine(src, e))
      else HeredocFrom(src, bodyStart, NextLine(src, e), word, nowdoc)
  }

  lemma NextHeredocLine(src: string, bodyStart: nat, j: nat, word: string, nowdoc: bool)
    requires bodyStart <= j < |src| && !ClosesHeredoc(src[j..LineEnd(src, j)], word)
    ensures HeredocFrom(src, bodyStart, j, word, nowdoc)
            == HeredocFrom(src, bodyStart, NextLine(src, LineEnd(src, j)), word, nowdoc)
  {}

  lemma LastHeredocLine(src: string, bodyStart: nat, j: nat, word: string, nowdoc: bool)
    requires bodyStart <= j <= |src| && (j < |src| ==> ClosesHeredoc(src[j..LineEnd(src, j)], word))
    ensures var body := src[bodyStart..j];
            HeredocFrom(src, bodyStart, j, word, nowdoc)
            == if j == |src| then Literal("", false, j)
               else Literal(body, (nowdoc || ('$' !in body && '{' !in body)) && |body| <= MAX_FOLD,
                            NextLine(src, LineEnd(src, j)))
  {}

  method HeredocBody(src: string, bodyStart: nat, word: string, nowdoc: bool)
    returns (val: string, constant: bool, j: nat)
    requires bodyStart <= |src|
    ensures Literal(val, constant, j) == HeredocFrom(src, bodyStart, bodyStart, word, nowdoc)
  {
    hide ClosesHeredoc, LineEnd, HeredocFrom;
    j := bodyStart;
    while j < |src|
      invariant bodyStart <= j <= |src|
      invariant HeredocFrom(src, bodyStart, j, word, nowdoc)
                == HeredocFrom(src, bodyStart, bodyStart, word, nowdoc)
      decreases |src| - j
    {
      var lineStart := j;
      j := SkipLine(src, j);
      if ClosesHeredoc(src[lineStart..j], word) {
        LastHeredocLine(src, bodyStart, lineStart, word, nowdoc);
        var body := src[bodyStart..lineStart];
        constant := nowdoc || ('$' !in body && '{' !in body);
        if |body| > MAX_FOLD {
          constant := false;
        }
        if j < |src| {
          j := j + 1;
        }
        val := body;
        return;
      }
      NextHeredocLine(src, bodyStart, lineStart, word, nowdoc);
      if j < |src| {
        j := j + 1;
      }
    }
    LastHeredocLine(src, bodyStart, j, word, nowdoc);
    val, constant := "", false;
  }

  function HeredocAt(src: string, i: nat): (l: Literal)
    requires i + 3 <= |src|
    ensures i + 3 <= l.next <= |src|
    ensures |l.val| <= l.next - i
  {
    var (wordStart, nowdoc) := LabelStart(src, i + 3);
    var j := WordEnd(src, wordStart);
    if j == wordStart then Literal("", false, i + 3)
    else
      var bodyStart := NextLine(src, LineEnd(src, j));
      HeredocFrom(src, bodyStart, bodyStart, src[wordStart..j], nowdoc)
  }

  method Heredoc(src: string, i: nat) returns (val: string, constant: bool, next: nat)
    requires i + 3 <= |src|
    ensures Literal(val, constant, next) == HeredocAt(src, i)
  {
    var wordStart, nowdoc := HeredocLabelStart(src, i + 3);
    var j := ScanWord(src, wordStart);
    var word := src[wordStart..j];
    if word == "" {
      return "", false, i + 3;
    }
    var e := SkipLine(src, j);
    if e < |src| {
      e := e + 1;
    }
    val, constant, next := HeredocBody(src, e, word, nowdoc);
  }

  // ---------------------------------------------------------------- tokens

  /** Each operator stands ahead of the shorter one it begins with. */
  const OPERATORS: seq<(string, Token)> := [
    (".=", Token(DotEq, ".=", false)),
    (".", Token(Dot, "", false)),
    ("==", Token(Other, "==", false)),
    ("=>", Token(Other, "=>", false)),
    ("=", Token(AssignOp, "", false)),
    ("->", Token(Other, "->", false)),
    ("?->", Token(Other, "?->", false)),
    ("::", Token(Other, "::", false))
  ]

  function PunctToken(c: char): Token {
    if c == '(' then Token(LParen, "", false)
    else if c == ')' then Token(RParen, "", false)
    else if c == ';' then Token(Semi, "", false)
    else Token(Other, [c], false)
  }

  function OperatorFrom(src: string, i: nat, k: nat): (r: (Token, nat))
    requires i < |src| && k <= |OPERATORS|
    ensures i < r.1 <= |src|
    ensures |r.0.val| <= r.1 - i
    decreases |OPERATORS| - k
  {
    if k == |OPERATORS| then (PunctToken(src[i]), i + 1)
    else if BytesAt(src, i, OPERATORS[k].0) then (OPERATORS[k].1, i + |OPERATORS[k].0|)
    else OperatorFrom(src, i, k + 1)
  }

  method TokenizeOperator(src: string, i: nat) returns (tok: Token, next: nat)
    requires i < |src|
    ensures (tok, next) == OperatorFrom(src, i, 0)
  {
    for k := 0 to |OPERATORS|
      invariant OperatorFrom(src, i, k) == OperatorFrom(src, i, 0)
    {
      var op := OPERATORS[k];
      if BytesAt(src, i, op.0) {
        return op.1, i + |op.0|;
      }
    }
    return PunctToken(src[i]), i + 1;
  }

  predicate OpensHeredoc(src: string, i: nat)
    requires i < |src|
  {
    src[i] == '<' && i + 2 < |src| && src[i + 1] == '<' && src[i + 2] == '<'
  }

  /** The token at i: what it is and the index past it. A token never holds more
      bytes than it was read from. */
  function TokenAt(src: string, i: nat): (r: (Token, nat))
    requires i < |src|
    ensures i < r.1 <= |src|
    ensures |r.0.val| <= r.1 - i
  {
    var c := src[i];
    if c == '\'' then var l := SingleFrom(src, i + 1, ""); (Token(Str, l.val, true), l.next)
    else if c == '"' then var l := DoubleFrom(src, i + 1, "", true); (Token(Str, l.val, l.constant), l.next)
    else if OpensHeredoc(src, i) then var l := HeredocAt(src, i); (Token(Str, l.val, l.constant), l.next)
    else if c == '$' then var j := WordEnd(src, i + 1); (Token(Var, src[i..j], false), j)
    else if IsLetter(c) || c == '_' then var j := WordEnd(src, i); (Token(Ident, src[i..j], false), j)
    else OperatorFrom(src, i, 0)
  }

  method TokenizeToken(src: string, i: nat) returns (tok: Token, next: nat)
    requires i < |src|
    ensures (tok, next) == TokenAt(src, i)
  {
    var c := src[i];
    if c == '\'' {
      var val, n := SingleQuote(src, i);
      return Token(Str, val, true), n;
    }
    if c == '"' {
      var val, constant, n := DoubleQuote(src, i);
      return Token(Str, val, constant), n;
    }
    if OpensHeredoc(src, i) {
      var val, constant, n := Heredoc(src, i);
      return Token(Str, val, constant), n;
    }
    if c == '$' {
      var j := ScanWord(src, i + 1);
      return Token(Var, src[i..j], false), j;
    }
    if IsLetter(c) || c == '_' {
      var j := ScanWord(src, i);
      return Token(Ident, src[i..j], false), j;
    }
    tok, next := TokenizeOperator(src, i);
  }

  /** Text outside PHP: the index after one turn and whether PHP opened there. */
  function OpenTag(src: string, i: nat): (r: (nat, bool))
    requires i < |src|
    ensures i < r.0 <= |src|
  {
    if src[i] != '<' || i + 1 >= |src| || src[i + 1] != '?' then (i + 1, false)
    else if i + 5 <= |src| && EqualFold(src[i..i + 5], "<?php") then (i + 5, true)
    else if i + 3 <= |src| && src[i..i + 3] == "<?=" then (i + 3, true)
    else if i + 5 <= |src| && EqualFold(src[i + 2..i + 5], "xml") then (i + 2, false)
    else (i + 2, true)
  }

  /** One turn inside PHP: the tokens read (none or one), the next index and
      whether PHP is still open. */
  function OneAt(src: string, i: nat): (r: (seq<Token>, nat, bool))
    requires i < |src|
    ensures i < r.1
    ensures |r.0| <= 1
    ensures |r.0| == 1 ==> r.1 <= |src| && |r.0[0].val| <= r.1 - i
  {
    if BytesAt(src, i, "?>") then ([], i + 2, false)
    else if PhpBlank(src[i]) then ([], i + 1, true)
    else if BytesAt(src, i, "//") || src[i] == '#' then ([], LineEnd(src, i), true)
    else if BytesAt(src, i, "/*") then ([], CommentClose(src, i + 2) + 2, true)
    else var (t, n) := TokenAt(src, i); ([t], n, true)
  }

  method TokenizeOne(src: string, i: nat) returns (toks: seq<Token>, next: nat, inPhp: bool)
    requires i < |src|
    ensures (toks, next, inPhp) == OneAt(src, i)
  {
    if BytesAt(src, i, "?>") {
      return [], i + 2, false;
    }
    if PhpBlank(src[i]) {
      return [], i + 1, true;
    }
    if BytesAt(src, i, "//") || src[i] == '#' {
      next := SkipLine(src, i);
      return [], next, true;
    }
    if BytesAt(src, i, "/*") {
      next := SkipBlockComment(src, i);
      return [], next, true;
    }
    var t, n := TokenizeToken(src, i);
    return [t], n, true;
  }

  function TokenizeFrom(src: string, i: nat, inPhp: bool, out: seq<Token>): seq<Token>
    decreases |src| - i
  {
    if i >= |src| || |out| >= MAX_TOKEN then out
    else if !inPhp then
      var (n, p) := OpenTag(src, i);
      TokenizeFrom(src, n, p, out)
    else
      var (toks, n, p) := OneAt(src, i);
      TokenizeFrom(src, n, p, out + toks)
  }

  function Tokens(src: string): seq<Token> {
    TokenizeFrom(src, 0, false, [])
  }

  method PhpTokenize(src: string) returns (out: seq<Token>)
    ensures out == Tokens(src)
  {
    out := [];
    var i, inPhp := 0, false;
    while i < |src| && |out| < MAX_TOKEN
      invariant 0 <= i
      invariant TokenizeFrom(src, i, inPhp, out) == Tokens(src)
      decreases |src| - i
    {
      if !inPhp {
        var r := OpenTag(src, i);
        i, inPhp := r.0, r.1;
        continue;
      }
      var toks, n, p := TokenizeOne(src, i);
      i, inPhp := n, p;
      out := out + toks;
    }
  }

  // ---------------------------------------------------------------- bounds

  function ValueBytes(toks: seq<Token>): nat {
    if toks == [] then 0 else ValueBytes(toks[..|toks| - 1]) + |toks[|toks| - 1].val|
  }

  function Capped(i: nat, n: nat): nat { if i <= n then i else n }

  lemma {:induction false} TokenizeFromBounds(src: string, i: nat, inPhp: bool, out: seq<Token>)
    requires |out| <= MAX_TOKEN && ValueBytes(out) <= Capped(i, |src|)
    ensures |TokenizeFrom(src, i, inPhp, out)| <= MAX_TOKEN
    ensures ValueBytes(TokenizeFrom(src, i, inPhp, out)) <= |src|
    decreases |src| - i
  {
    if i < |src| && |out| < MAX_TOKEN {
      if !inPhp {
        var (n, p) := OpenTag(src, i);
        TokenizeFromBounds(src, n, p, out);
      } else {
        var (toks, n, p) := OneAt(src, i);
        if toks != [] {
          assert (out + toks)[..|out|] == out;
        } else {
          assert out + toks == out;
        }
        TokenizeFromBounds(src, n, p, out + toks);
      }
    }
  }

  /** For every input: at most MAX_TOKEN tokens, and together their values hold
      no more bytes than the source. */
  lemma TokensBounded(src: string)
    ensures |Tokens(src)| <= MAX_TOKEN
    ensures ValueBytes(Tokens(src)) <= |src|
  {
    TokenizeFromBounds(src, 0, false, []);
  }
}
