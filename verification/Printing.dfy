/** Tokenizing undoes printing: a token list is read back from every way of writing it
    (internal/antivirus/semantic.go:503-842). */
module Printing {
  import opened Semantic
  import opened Tokenizer

  // --------------------------------------------------------------- printing

  predicate VarName(name: string) {
    name != "" && name[0] == '$' && forall k :: 1 <= k < |name| ==> IsWordChar(name[k])
  }

  predicate Word(name: string) {
    name != "" && (IsLetter(name[0]) || name[0] == '_') && forall k :: 0 <= k < |name| ==> IsWordChar(name[k])
  }

  predicate Printable(t: Token) {
    match t.kind
    case Str => |t.val| <= MAX_FOLD
    case Var => VarName(t.val) && !t.constant
    case Ident => Word(t.val) && !t.constant
    case Dot => t == Token(Dot, "", false)
    case DotEq => t == Token(DotEq, ".=", false)
    case AssignOp => t == Token(AssignOp, "", false)
    case LParen => t == Token(LParen, "", false)
    case RParen => t == Token(RParen, "", false)
    case Semi => t == Token(Semi, "", false)
    case Other => !t.constant && (t.val in LONG_SIGNS || (|t.val| == 1 && Sign(t.val[0])))
  }

  const LONG_SIGNS: set<string> := {"==", "=>", "->", "?->", "::"}

  /** A character that is a token of no kind of its own, whatever stands after it. */
  predicate Sign(c: char) {
    IsDigit(c) || c in {',', '[', ']', '{', '}', '+', '*', '!', '&', '|', '@', '^', '%', '~', '>'}
  }

  predicate Digital(t: Token) {
    t.kind == Other && t.val != "" && IsDigit(t.val[0])
  }

  predicate Operand(t: Token) {
    t.kind == Str || t.kind == Var
  }

  predicate Operator(t: Token) {
    t.kind == Dot || t.kind == DotEq || t.kind == AssignOp
  }

  /** The second token may follow the first with nothing between: no operator before a
      sign that would change it, no word before a word or a digit. */
  predicate Fits(t: Token, u: Token) {
    && (Operator(t) ==> Operand(u))
    && (t.kind == Var || t.kind == Ident ==> u.kind != Ident && !Digital(u))
  }

  predicate Separated(toks: seq<Token>) {
    forall k :: 0 <= k < |toks| - 1 ==> Fits(toks[k], toks[k + 1])
  }

  /** How a byte stands between double quotes: as it is, as \xHH, as \NNN, as one of the
      short escapes, or as a character that begins an interpolation. */
  datatype Way = Plain | Hex(upper: bool) | Octal | Short | Raw

  datatype Spelling = Single | Double(ways: seq<Way>)

  /** What may stand between two tokens; a page break leaves PHP and comes back to it. */
  datatype Gap = Blank(c: char) | Line(hash: bool, text: string) | Block(text: string) | Page(html: string, tag: string)

  /** What stands after the last token: gaps, and perhaps a close tag and more html. */
  datatype Tail = Tail(gaps: seq<Gap>, closed: bool, html: string)

  /** A token as a file writes it: what stands before it, and how it is spelled. */
  datatype Written = Written(gaps: seq<Gap>, token: Token, how: Spelling)

  predicate GoesAs(c: char, way: Way) {
    match way
    case Plain => c !in {'\\', '"', '$', '{'}
    case Short => c in {'\\', '"', '$', '\n', '\t'}
    case Raw => c == '$' || c == '{'
    case _ => c < '\U{100}'
  }

  /** No interpolation begins in the text. */
  predicate NoneRaw(ways: seq<Way>) {
    forall k :: 0 <= k < |ways| ==> !ways[k].Raw?
  }

  predicate Spells(val: string, ways: seq<Way>) {
    |ways| == |val| && forall k :: 0 <= k < |val| ==> GoesAs(val[k], ways[k])
  }

  /** A line comment ends at its own line, and a block comment at its own end. */
  predicate LegibleGap(g: Gap) {
    match g
    case Blank(c) => PhpBlank(c)
    case Line(hash, text) =>
      && (forall k :: 0 <= k < |text| ==> text[k] !in {'\n', '\r', '?'})
      && (hash && text != "" ==> text[0] != '[')
    case Block(text) =>
      var body := text + "*/";
      forall k :: 0 <= k < |text| ==> body[k] != '*' || body[k + 1] != '/'
    case Page(html, tag) => Html(html) && Tag(tag)
  }

  /** Text that opens PHP nowhere; an xml declaration does not. */
  predicate Html(html: string) {
    forall k :: 0 <= k < |html| - 1 && html[k] == '<' && html[k + 1] == '?' ==>
      k + 5 <= |html| && EqualFold(html[k + 2..k + 5], "xml")
  }

  /** The ways to open PHP; the short one has a blank after it. */
  predicate Tag(tag: string) {
    || (|tag| == 5 && EqualFold(tag, "<?php"))
    || tag == "<?="
    || (|tag| == 3 && tag[0] == '<' && tag[1] == '?' && PhpBlank(tag[2]))
  }

  predicate LegibleTail(tail: Tail) {
    LegibleGaps(tail.gaps) && Html(tail.html)
  }

  predicate LegibleGaps(gaps: seq<Gap>) {
    forall k :: 0 <= k < |gaps| ==> LegibleGap(gaps[k])
  }

  predicate Legible(w: Written) {
    && Printable(w.token)
    && LegibleGaps(w.gaps)
    && Spellable(w.token, w.how)
  }

  /** Between double quotes a value is constant exactly when no interpolation begins in it,
      and between single quotes always. */
  predicate Spellable(t: Token, how: Spelling) {
    t.kind == Str ==> if how.Single? then t.constant else Spells(t.val, how.ways) && (t.constant <==> NoneRaw(how.ways))
  }

  function Escaped(s: string): string {
    if s == "" then ""
    else (if s[0] == '\\' || s[0] == '\'' then ['\\', s[0]] else [s[0]]) + Escaped(s[1..])
  }

  function Digit(v: nat, upper: bool): (c: char)
    requires v < 16
    ensures IsHex(c) && HexVal(c) == v
    ensures v < 8 ==> IsOctal(c) && (c - '0') as nat == v
  {
    if v < 10 then '0' + v as char else (if upper then 'A' else 'a') + (v - 10) as char
  }

  function SpelledByte(c: char, way: Way): (s: string)
    requires GoesAs(c, way)
  {
    var v := c as nat;
    match way
    case Plain => [c]
    case Hex(upper) => ['\\', 'x', Digit(v / 16, upper), Digit(v % 16, upper)]
    case Octal => ['\\', Digit(v / 64, false), Digit(v / 8 % 8, false), Digit(v % 8, false)]
    case Short => ['\\', if c == '\n' then 'n' else if c == '\t' then 't' else c]
    case Raw => [c]
  }

  function SpelledOut(val: string, ways: seq<Way>): string
    requires Spells(val, ways)
  {
    if val == "" then "" else SpelledByte(val[0], ways[0]) + SpelledOut(val[1..], ways[1..])
  }

  function PrintToken(t: Token, how: Spelling): (s: string)
    requires Printable(t) && Spellable(t, how)
    ensures s != ""
  {
    match t.kind
    case Str => if how.Single? then "'" + Escaped(t.val) + "'" else "\"" + SpelledOut(t.val, how.ways) + "\""
    case Var => t.val
    case Ident => t.val
    case Other => t.val
    case Dot => "."
    case DotEq => ".="
    case AssignOp => "="
    case LParen => "("
    case RParen => ")"
    case Semi => ";"
  }

  function PrintGap(g: Gap): string {
    match g
    case Blank(c) => [c]
    case Line(hash, text) => (if hash then "#" else "//") + (text + "\n")
    case Block(text) => "/*" + (text + "*/")
    case Page(html, tag) => "?>" + (html + tag)
  }

  function PrintGaps(gaps: seq<Gap>): string {
    if gaps == [] then "" else PrintGap(gaps[0]) + PrintGaps(gaps[1..])
  }

  function PrintEnd(tail: Tail): string {
    if tail.closed then "?>" + tail.html else ""
  }

  function PrintTail(tail: Tail): string {
    PrintGaps(tail.gaps) + PrintEnd(tail)
  }

  predicate AllLegible(ws: seq<Written>) {
    forall k :: 0 <= k < |ws| ==> Legible(ws[k])
  }

  function Print(ws: seq<Written>): string
    requires AllLegible(ws)
  {
    if ws == [] then "" else PrintGaps(ws[0].gaps) + (PrintToken(ws[0].token, ws[0].how) + Print(ws[1..]))
  }

  function Toks(ws: seq<Written>): (toks: seq<Token>)
    ensures |toks| == |ws| && forall k :: 0 <= k < |ws| ==> toks[k] == ws[k].token
  {
    if ws == [] then [] else [ws[0].token] + Toks(ws[1..])
  }

  // ---------------------------------------------------------------- reading

  /** `piece` stands in `src` at i. */
  predicate At(src: string, i: nat, piece: string) {
    i + |piece| <= |src| && forall k :: 0 <= k < |piece| ==> src[i + k] == piece[k]
  }

  lemma AtSplits(src: string, i: nat, a: string, b: string)
    requires At(src, i, a + b)
    ensures At(src, i, a) && At(src, i + |a|, b)
  {
    forall k | 0 <= k < |b| ensures src[i + |a| + k] == b[k] {
      assert src[i + (|a| + k)] == (a + b)[|a| + k];
    }
    forall k | 0 <= k < |a| ensures src[i + k] == a[k] {
      assert src[i + k] == (a + b)[k];
    }
  }

  lemma {:induction false} SingleQuoteUndoesEscaping(src: string, i: nat, s: string, acc: string)
    requires At(src, i, Escaped(s) + "'") && |acc| + |s| <= MAX_FOLD
    ensures SingleFrom(src, i, acc) == Literal(acc + s, true, i + |Escaped(s)| + 1)
    decreases |s|
  {
    var e := Escaped(s) + "'";
    assert src[i + 0] == e[0];
    if s == "" {
      assert acc + s == acc;
    } else {
      var first := if s[0] == '\\' || s[0] == '\'' then ['\\', s[0]] else [s[0]];
      assert e == first + (Escaped(s[1..]) + "'");
      AtSplits(src, i, first, Escaped(s[1..]) + "'");
      SingleQuoteUndoesEscaping(src, i + |first|, s[1..], acc + [s[0]]);
      assert acc + [s[0]] + s[1..] == acc + s;
      if |first| == 2 {
        assert src[i + 1] == first[1];
      }
    }
  }

  lemma HexIsRead(src: string, h: nat, v: nat, upper: bool)
    requires v < 256 && h + 2 <= |src| && src[h] == Digit(v / 16, upper) && src[h + 1] == Digit(v % 16, upper)
    ensures HexFrom(src, h, 0, 0) == (v, h + 2)
  {
    assert HexFrom(src, h + 2, v, 2) == (v, h + 2);
    assert HexFrom(src, h + 1, v / 16, 1) == (v, h + 2);
  }

  lemma OctalIsRead(src: string, h: nat, v: nat)
    requires v < 256 && h + 3 <= |src|
    requires src[h] == Digit(v / 64, false) && src[h + 1] == Digit(v / 8 % 8, false)
    requires src[h + 2] == Digit(v % 8, false)
    ensures OctalFrom(src, h, 0, 0) == (v, h + 3)
  {
    assert v / 64 * 8 + v / 8 % 8 == v / 8;
    assert OctalFrom(src, h + 3, v, 3) == (v, h + 3);
    assert OctalFrom(src, h + 2, v / 8, 2) == (v, h + 3);
    assert OctalFrom(src, h + 1, v / 64, 1) == (v, h + 3);
  }

  /** The escape of a byte is read as that byte. */
  lemma EscapeIsRead(src: string, i: nat, c: char, way: Way)
    requires GoesAs(c, way) && !way.Plain? && !way.Raw? && At(src, i, SpelledByte(c, way))
    ensures src[i] == '\\' && i + 1 < |src| && EscapeAt(src, i) == (c, i + |SpelledByte(c, way)|)
  {
    hide HexFrom, OctalFrom, Digit;
    var e, v := SpelledByte(c, way), c as nat;
    assert src[i + 0] == e[0] && src[i + 1] == e[1];
    if way.Short? {
      assert SimpleEscape(e[1]) && SimpleEscapeByte(e[1]) == c;
    } else {
      assert src[i + 2] == e[2] && src[i + 3] == e[3];
      if way.Hex? {
        HexIsRead(src, i + 2, v, way.upper);
      } else {
        OctalIsRead(src, i + 1, v);
      }
    }
  }

  lemma NoneRawLater(ways: seq<Way>)
    requires ways != []
    ensures NoneRaw(ways) <==> !ways[0].Raw? && NoneRaw(ways[1..])
  {
    assert forall k :: 0 < k < |ways| ==> ways[k] == ways[1..][k - 1];
  }

  /** THE DOUBLE-QUOTE READER UNDOES WRITING. Whatever the bytes, and however each is
      written between the quotes, the value is read back; and it is constant if and only
      if no byte was written so that an interpolation begins. */
  lemma {:induction false} DoubleQuoteUndoesEscaping(src: string, i: nat, val: string, ways: seq<Way>, acc: string,
                                                     constant: bool)
    requires Spells(val, ways) && At(src, i, SpelledOut(val, ways) + "\"") && |acc| + |val| <= MAX_FOLD
    ensures DoubleFrom(src, i, acc, constant)
            == Literal(acc + val, constant && NoneRaw(ways), i + |SpelledOut(val, ways)| + 1)
    decreases |val|
  {
    hide SpelledByte, EscapeAt, NoneRaw, Spells, SpelledOut, GoesAs;
    if val == "" {
      NothingIsSpelled(ways);
      assert src[i + 0] == (SpelledOut(val, ways) + "\"")[0];
      assert acc + val == acc;
    } else {
      SpellsLater(val, ways);
      var first, rest := SpelledByte(val[0], ways[0]), SpelledOut(val[1..], ways[1..]) + "\"";
      assert SpelledOut(val, ways) + "\"" == first + rest;
      AtSplits(src, i, first, rest);
      NoneRawLater(ways);
      hide At, DoubleFrom;
      ByteIsRead(src, i, val[0], ways[0], acc, constant);
      DoubleQuoteUndoesEscaping(src, i + |first|, val[1..], ways[1..], acc + [val[0]], constant && !ways[0].Raw?);
      assert acc + [val[0]] + val[1..] == acc + val;
    }
  }

  lemma SpellsLater(val: string, ways: seq<Way>)
    requires Spells(val, ways) && val != ""
    ensures ways != [] && GoesAs(val[0], ways[0]) && Spells(val[1..], ways[1..])
    ensures SpelledOut(val, ways) == SpelledByte(val[0], ways[0]) + SpelledOut(val[1..], ways[1..])
  {}

  lemma NothingIsSpelled(ways: seq<Way>)
    requires Spells("", ways)
    ensures SpelledOut("", ways) == "" && NoneRaw(ways)
  {}

  lemma ByteIsRead(src: string, i: nat, c: char, way: Way, acc: string, constant: bool)
    requires GoesAs(c, way) && At(src, i, SpelledByte(c, way)) && |acc| < MAX_FOLD
    ensures DoubleFrom(src, i, acc, constant)
            == DoubleFrom(src, i + |SpelledByte(c, way)|, acc + [c], constant && !way.Raw?)
  {
    if way.Plain? || way.Raw? {
      assert src[i + 0] == SpelledByte(c, way)[0];
    } else {
      EscapeIsRead(src, i, c, way);
    }
  }

  lemma {:induction false} WordEndStops(src: string, i: nat, j: nat)
    requires i <= j <= |src|
    requires forall k :: i <= k < j ==> IsWordChar(src[k])
    requires j < |src| ==> !IsWordChar(src[j])
    ensures WordEnd(src, i) == j
    decreases j - i
  {
    if i < j {
      WordEndStops(src, i + 1, j);
    }
  }

  /** What may follow a printed token: nothing that would change how it is read. */
  predicate Follows(src: string, j: nat, t: Token) {
    j < |src| ==>
      && (t.kind == Var || t.kind == Ident ==> !IsWordChar(src[j]))
      && (Operator(t) ==> src[j] != '=' && src[j] != '>')
  }

  lemma NotAt(src: string, i: nat, s: string)
    requires i < |src| && s != ""
    requires src[i] != s[0] || (|s| > 1 && i + 1 < |src| && src[i + 1] != s[1]) || (|s| > 1 && i + 1 == |src|)
    ensures !BytesAt(src, i, s)
  {
    if i + |s| <= |src| {
      var w := src[i..i + |s|];
      assert w[0] == src[i];
      if |s| > 1 {
        assert w[1] == src[i + 1];
      }
    }
  }

  lemma OperatorSkips(src: string, i: nat, k: nat)
    requires i < |src| && k < |OPERATORS|
    requires !BytesAt(src, i, OPERATORS[k].0)
    ensures OperatorFrom(src, i, k) == OperatorFrom(src, i, k + 1)
  {}

  lemma PunctIsRead(src: string, i: nat)
    requires i < |src| && src[i] !in {'.', '=', '-', '?', ':'}
    ensures OperatorFrom(src, i, 0) == (PunctToken(src[i]), i + 1)
  {
    hide OperatorFrom, BytesAt;
    for k := 0 to |OPERATORS|
      invariant OperatorFrom(src, i, k) == OperatorFrom(src, i, 0)
    {
      NotAt(src, i, OPERATORS[k].0);
      OperatorSkips(src, i, k);
    }
    LastOperator(src, i);
  }

  lemma LastOperator(src: string, i: nat)
    requires i < |src|
    ensures OperatorFrom(src, i, |OPERATORS|) == (PunctToken(src[i]), i + 1)
  {}

  lemma DotIsRead(src: string, i: nat)
    requires i < |src| && src[i] == '.'
    requires i + 1 < |src| ==> src[i + 1] != '='
    ensures OperatorFrom(src, i, 0) == (Token(Dot, "", false), i + 1)
  {
    NotAt(src, i, ".=");
    OperatorSkips(src, i, 0);
    assert src[i..i + 1] == ".";
  }

  lemma DotEqIsRead(src: string, i: nat)
    requires i + 1 < |src| && src[i] == '.' && src[i + 1] == '='
    ensures OperatorFrom(src, i, 0) == (Token(DotEq, ".=", false), i + 2)
  {
    assert src[i..i + 2] == ".=";
  }

  lemma EqualsIsRead(src: string, i: nat)
    requires i < |src| && src[i] == '='
    requires i + 1 < |src| ==> src[i + 1] != '=' && src[i + 1] != '>'
    ensures OperatorFrom(src, i, 0) == (Token(AssignOp, "", false), i + 1)
  {
    NotAt(src, i, ".=");
    NotAt(src, i, ".");
    NotAt(src, i, "==");
    NotAt(src, i, "=>");
    OperatorSkips(src, i, 0);
    OperatorSkips(src, i, 1);
    OperatorSkips(src, i, 2);
    OperatorSkips(src, i, 3);
    assert src[i..i + 1] == "=";
  }

  lemma LongSignIsRead(src: string, i: nat, sign: string)
    requires sign in LONG_SIGNS && At(src, i, sign)
    ensures OperatorFrom(src, i, 0) == (Token(Other, sign, false), i + |sign|)
  {
    assert i < |src|;
    hide OperatorFrom, BytesAt, At;
    var k := if sign == "==" then 2 else if sign == "=>" then 3 else if sign == "->" then 5
             else if sign == "?->" then 6 else 7;
    assert OPERATORS[k] == (sign, Token(Other, sign, false));
    for j := 0 to k
      invariant OperatorFrom(src, i, j) == OperatorFrom(src, i, 0)
    {
      LongSignIsNot(src, i, sign, k, j);
      OperatorSkips(src, i, j);
    }
    AtIs(src, i, sign);
    OperatorStops(src, i, k);
  }

  lemma LongSignIsNot(src: string, i: nat, sign: string, k: nat, j: nat)
    requires At(src, i, sign) && j < k < |OPERATORS| && OPERATORS[k] == (sign, Token(Other, sign, false))
    ensures i < |src| && !BytesAt(src, i, OPERATORS[j].0)
  {
    assert src[i + 0] == sign[0] && src[i + 1] == sign[1];
    NotAt(src, i, OPERATORS[j].0);
  }

  lemma AtIs(src: string, i: nat, piece: string)
    requires At(src, i, piece)
    ensures BytesAt(src, i, piece)
  {
    assert src[i..i + |piece|] == piece;
  }

  lemma OperatorStops(src: string, i: nat, k: nat)
    requires i < |src| && k < |OPERATORS| && BytesAt(src, i, OPERATORS[k].0)
    ensures OperatorFrom(src, i, k) == (OPERATORS[k].1, i + |OPERATORS[k].0|)
  {}

  /** What a turn does at an operator or a sign. */
  lemma OperatorTurn(src: string, i: nat)
    requires i < |src| && !PhpBlank(src[i]) && !IsLetter(src[i])
    requires src[i] !in {'\'', '"', '$', '<', '#', '/', '_'}
    requires src[i] == '?' ==> i + 1 < |src| && src[i + 1] != '>'
    ensures OneAt(src, i) == ([OperatorFrom(src, i, 0).0], OperatorFrom(src, i, 0).1, true)
  {
    hide OperatorFrom;
    NotAt(src, i, "?>");
    NotAt(src, i, "//");
    NotAt(src, i, "/*");
  }

  lemma OneOperator(src: string, i: nat, t: Token)
    requires Printable(t) && !Operand(t) && t.kind != Ident && t.kind != Other
    requires At(src, i, PrintToken(t, Single)) && Follows(src, i + |PrintToken(t, Single)|, t)
    ensures OneAt(src, i) == ([t], i + |PrintToken(t, Single)|, true)
  {
    hide OperatorFrom, OneAt;
    var p := PrintToken(t, Single);
    assert src[i + 0] == p[0];
    OperatorTurn(src, i);
    match t.kind
    case Dot => DotIsRead(src, i);
    case DotEq =>
      assert src[i + 1] == p[1];
      DotEqIsRead(src, i);
    case AssignOp => EqualsIsRead(src, i);
    case _ => PunctIsRead(src, i);
  }

  lemma OneSign(src: string, i: nat, t: Token)
    requires Printable(t) && t.kind == Other && At(src, i, t.val)
    ensures OneAt(src, i) == ([t], i + |t.val|, true)
  {
    hide OperatorFrom, OneAt;
    assert src[i + 0] == t.val[0];
    if |t.val| > 1 {
      assert src[i + 1] == t.val[1];
      LongSignIsRead(src, i, t.val);
    } else {
      assert t.val == [src[i]];
      PunctIsRead(src, i);
    }
    OperatorTurn(src, i);
  }

  /** What a turn does at a quote or a dollar. */
  lemma QuoteTurn(src: string, i: nat)
    requires i < |src| && src[i] in {'\'', '"', '$'}
    ensures OneAt(src, i) == ([TokenAt(src, i).0], TokenAt(src, i).1, true)
  {
    hide TokenAt;
    NotAt(src, i, "?>");
    NotAt(src, i, "//");
    NotAt(src, i, "/*");
  }

  lemma OneSingle(src: string, i: nat, t: Token)
    requires t.kind == Str && t.constant && |t.val| <= MAX_FOLD && At(src, i, "'" + (Escaped(t.val) + "'"))
    ensures OneAt(src, i) == ([t], i + 1 + |Escaped(t.val)| + 1, true)
  {
    AtSplits(src, i, "'", Escaped(t.val) + "'");
    assert src[i + 0] == "'"[0];
    hide OneAt, SingleFrom, Escaped, DoubleFrom, HeredocAt, OperatorFrom;
    SingleQuoteUndoesEscaping(src, i + 1, t.val, "");
    assert "" + t.val == t.val;
    QuoteTurn(src, i);
  }

  lemma OneDouble(src: string, i: nat, t: Token, ways: seq<Way>)
    requires t.kind == Str && |t.val| <= MAX_FOLD && Spells(t.val, ways) && (t.constant <==> NoneRaw(ways))
    requires At(src, i, "\"" + (SpelledOut(t.val, ways) + "\""))
    ensures OneAt(src, i) == ([t], i + 1 + |SpelledOut(t.val, ways)| + 1, true)
  {
    hide OneAt, SingleFrom, SpelledOut, DoubleFrom, HeredocAt, OperatorFrom, NoneRaw, Spells;
    AtSplits(src, i, "\"", SpelledOut(t.val, ways) + "\"");
    assert src[i + 0] == "\""[0];
    hide At;
    DoubleQuoteUndoesEscaping(src, i + 1, t.val, ways, "", true);
    assert "" + t.val == t.val;
    QuoteTurn(src, i);
  }

  lemma OneVar(src: string, i: nat, t: Token)
    requires Printable(t) && t.kind == Var && At(src, i, t.val) && Follows(src, i + |t.val|, t)
    ensures OneAt(src, i) == ([t], i + |t.val|, true)
  {
    OperandWord(src, i, t);
    assert src[i + 0] == t.val[0] == '$';
    hide OneAt, WordEnd, At;
    QuoteTurn(src, i);
  }

  lemma OneOperand(src: string, i: nat, t: Token, how: Spelling)
    requires Printable(t) && Operand(t) && Spellable(t, how)
    requires At(src, i, PrintToken(t, how)) && Follows(src, i + |PrintToken(t, how)|, t)
    ensures OneAt(src, i) == ([t], i + |PrintToken(t, how)|, true)
  {
    hide OneAt, At, Follows;
    if t.kind == Var {
      OneVar(src, i, t);
    } else if how.Single? {
      assert PrintToken(t, how) == "'" + (Escaped(t.val) + "'");
      OneSingle(src, i, t);
    } else {
      assert PrintToken(t, how) == "\"" + (SpelledOut(t.val, how.ways) + "\"");
      OneDouble(src, i, t, how.ways);
    }
  }

  lemma OperandWord(src: string, i: nat, t: Token)
    requires Printable(t) && t.kind == Var
    requires At(src, i, t.val) && Follows(src, i + |t.val|, t)
    ensures WordEnd(src, i + 1) == i + |t.val|
    ensures src[i..i + |t.val|] == t.val
  {
    var j := i + |t.val|;
    forall k | i + 1 <= k < j ensures IsWordChar(src[k]) {
      assert src[i + (k - i)] == t.val[k - i];
    }
    WordEndStops(src, i + 1, j);
    assert src[i..j] == t.val;
  }

  lemma OneWord(src: string, i: nat, t: Token)
    requires Printable(t) && t.kind == Ident
    requires At(src, i, t.val) && Follows(src, i + |t.val|, t)
    ensures OneAt(src, i) == ([t], i + |t.val|, true)
  {
    var j := i + |t.val|;
    assert src[i + 0] == t.val[0];
    NotAt(src, i, "?>");
    NotAt(src, i, "//");
    NotAt(src, i, "/*");
    forall k | i <= k < j ensures IsWordChar(src[k]) {
      assert src[i + (k - i)] == t.val[k - i];
    }
    WordEndStops(src, i, j);
    assert src[i..j] == t.val;
    hide WordEnd, HeredocAt, OperatorFrom, DoubleFrom, SingleFrom, BytesAt;
  }

  lemma OneToken(src: string, i: nat, t: Token, how: Spelling)
    requires Printable(t) && Spellable(t, how)
    requires At(src, i, PrintToken(t, how)) && Follows(src, i + |PrintToken(t, how)|, t)
    ensures OneAt(src, i) == ([t], i + |PrintToken(t, how)|, true)
  {
    hide OneAt, At, Follows, Printable, Spellable;
    if Operand(t) {
      OneOperand(src, i, t, how);
    } else if t.kind == Ident {
      OneWord(src, i, t);
    } else if t.kind == Other {
      OneSign(src, i, t);
    } else {
      OneOperator(src, i, t);
    }
  }

  // ------------------------------------------------------------------- gaps

  lemma {:induction false} LineEndIs(src: string, i: nat, j: nat)
    requires i <= j < |src| && src[j] == '\n' && forall k :: i <= k < j ==> src[k] != '\n'
    ensures LineEnd(src, i) == j
    decreases j - i
  {
    if i < j {
      LineEndIs(src, i + 1, j);
    }
  }

  lemma {:induction false} CommentCloseIs(src: string, i: nat, j: nat)
    requires i <= j && j + 1 < |src| && src[j] == '*' && src[j + 1] == '/'
    requires forall k :: i <= k < j ==> src[k] != '*' || src[k + 1] != '/'
    ensures CommentClose(src, i) == j
    decreases j - i
  {
    if i < j {
      CommentCloseIs(src, i + 1, j);
    }
  }

  lemma Skips(src: string, i: nat, next: nat, out: seq<Token>)
    requires i < |src| && OneAt(src, i) == ([], next, true)
    ensures TokenizeFrom(src, i, true, out) == TokenizeFrom(src, next, true, out)
  {
    hide OneAt;
    if |out| < MAX_TOKEN {
      assert out + [] == out;
    }
  }

  lemma BlankIsSkipped(src: string, i: nat, c: char, out: seq<Token>)
    requires PhpBlank(c) && i < |src| && src[i] == c
    ensures TokenizeFrom(src, i, true, out) == TokenizeFrom(src, i + 1, true, out)
  {
    NotAt(src, i, "?>");
    Skips(src, i, i + 1, out);
  }

  lemma LineIsSkipped(src: string, i: nat, hash: bool, text: string, out: seq<Token>)
    requires LegibleGap(Line(hash, text)) && At(src, i, PrintGap(Line(hash, text)))
    ensures TokenizeFrom(src, i, true, out) == TokenizeFrom(src, i + |PrintGap(Line(hash, text))|, true, out)
  {
    var p := PrintGap(Line(hash, text));
    var mark := if hash then "#" else "//";
    AtSplits(src, i, mark, text + "\n");
    AtSplits(src, i + |mark|, text, "\n");
    var j := i + |p| - 1;
    assert src[i + 0] == mark[0];
    NotAt(src, i, "?>");
    assert src[i + |mark| + |text| + 0] == "\n"[0] == src[j];
    forall k | i <= k < j
      ensures src[k] != '\n'
    {
      assert src[i + (k - i)] == p[k - i];
    }
    LineEndIs(src, i, j);
    if !hash {
      assert src[i..i + 2] == "//";
    }
    NotBlank(src[i]);
    assert OneAt(src, i) == ([], j, true);
    Skips(src, i, j, out);
    BlankIsSkipped(src, j, '\n', out);
  }

  lemma NotBlank(c: char)
    ensures c == '#' || c == '/' ==> !PhpBlank(c)
  {}

  lemma BlockEnds(src: string, i: nat, text: string)
    requires LegibleGap(Block(text)) && At(src, i, text + "*/")
    ensures CommentClose(src, i) == i + |text|
  {
    var body := text + "*/";
    var j := i + |text|;
    assert src[i + |text|] == body[|text|] && src[i + (|text| + 1)] == body[|text| + 1];
    forall k | i <= k < j
      ensures src[k] != '*' || src[k + 1] != '/'
    {
      assert src[i + (k - i)] == body[k - i] && src[i + (k - i + 1)] == body[k - i + 1];
    }
    CommentCloseIs(src, i, j);
  }

  lemma BlockIsSkipped(src: string, i: nat, text: string, out: seq<Token>)
    requires LegibleGap(Block(text)) && At(src, i, PrintGap(Block(text)))
    ensures TokenizeFrom(src, i, true, out) == TokenizeFrom(src, i + |PrintGap(Block(text))|, true, out)
  {
    hide LegibleGap, CommentClose, TokenizeFrom, TokenAt;
    AtSplits(src, i, "/*", text + "*/");
    assert src[i + 0] == "/*"[0] && src[i + 1] == "/*"[1];
    assert src[i..i + 2] == "/*";
    NotAt(src, i, "?>");
    NotAt(src, i, "//");
    BlockEnds(src, i + 2, text);
    Skips(src, i, i + 2 + |text| + 2, out);
  }

  /** One turn over text outside PHP. */
  lemma HtmlTurn(src: string, i: nat, html: string, k: nat)
    requires Html(html) && At(src, i, html) && k < |html|
    requires i + |html| < |src| ==> src[i + |html|] != '?'
    ensures !OpenTag(src, i + k).1 && OpenTag(src, i + k).0 == i + k + if HtmlDeclares(html, k) then 2 else 1
  {
    var j := i + k;
    assert src[j] == html[k];
    if k + 1 < |html| {
      assert src[i + (k + 1)] == html[k + 1];
      if HtmlDeclares(html, k) {
        assert src[j + 2..j + 5] == html[k + 2..k + 5];
        DeclaresNoTag(src[j..j + 5]);
      }
    }
  }

  /** An xml declaration stands here. */
  predicate HtmlDeclares(html: string, k: nat)
    requires k < |html|
  {
    k + 1 < |html| && html[k] == '<' && html[k + 1] == '?'
  }

  lemma DeclaresNoTag(s: string)
    requires |s| == 5 && EqualFold(s[2..5], "xml")
    ensures !EqualFold(s, "<?php") && s[..3] != "<?="
  {
    assert Lower(s[2..5])[0] == LowerChar(s[2]) == Lower(s)[2];
    assert Lower("xml")[0] == 'x' && Lower("<?php")[2] == 'p';
  }

  lemma {:induction false} HtmlIsPassed(src: string, i: nat, html: string, k: nat, out: seq<Token>)
    requires Html(html) && At(src, i, html) && k <= |html|
    requires i + |html| < |src| ==> src[i + |html|] != '?'
    ensures TokenizeFrom(src, i + k, false, out) == TokenizeFrom(src, i + |html|, false, out)
    decreases |html| - k
  {
    hide Html, At, OpenTag;
    if k < |html| && |out| < MAX_TOKEN {
      HtmlTurn(src, i, html, k);
      if HtmlDeclares(html, k) {
        assert k + 2 <= |html|;
        HtmlIsPassed(src, i, html, k + 2, out);
      } else {
        HtmlIsPassed(src, i, html, k + 1, out);
      }
    }
  }

  lemma TagOpens(src: string, i: nat, tag: string, out: seq<Token>)
    requires Tag(tag) && At(src, i, tag)
    ensures TokenizeFrom(src, i, false, out) == TokenizeFrom(src, i + |tag|, true, out)
  {
    hide OneAt;
    assert src[i + 0] == tag[0] && src[i + 1] == tag[1] && src[i + 2] == tag[2];
    if |tag| == 5 || tag == "<?=" {
      LongTag(src, i, tag);
    } else {
      ShortTag(src, i);
      hide OpenTag, TokenizeFrom;
      assert OpenTag(src, i) == (i + 2, true);
      Opens(src, i, out);
      BlankIsSkipped(src, i + 2, tag[2], out);
    }
  }

  lemma Opens(src: string, i: nat, out: seq<Token>)
    requires i < |src| && OpenTag(src, i).1
    ensures TokenizeFrom(src, i, false, out) == TokenizeFrom(src, OpenTag(src, i).0, true, out)
  {}

  lemma LongTag(src: string, i: nat, tag: string)
    requires At(src, i, tag) && ((|tag| == 5 && EqualFold(tag, "<?php")) || tag == "<?=")
    ensures OpenTag(src, i) == (i + |tag|, true)
  {
    assert src[i..i + |tag|] == tag;
    assert src[i + 0] == tag[0] && src[i + 1] == tag[1] && src[i + 2] == tag[2];
    if |tag| == 5 {
      assert Lower(tag)[0] == LowerChar(tag[0]) && Lower(tag)[1] == LowerChar(tag[1]);
    } else if i + 5 <= |src| {
      assert Lower(src[i..i + 5])[2] == LowerChar('=');
    }
  }

  lemma ShortTag(src: string, i: nat)
    requires i + 2 < |src| && src[i] == '<' && src[i + 1] == '?' && PhpBlank(src[i + 2])
    ensures OpenTag(src, i) == (i + 2, true)
  {
    var c := src[i + 2];
    if i + 5 <= |src| {
      assert Lower(src[i..i + 5])[2] == LowerChar(c) && Lower(src[i + 2..i + 5])[0] == LowerChar(c);
    }
  }

  lemma PageIsSkipped(src: string, i: nat, html: string, tag: string, out: seq<Token>)
    requires Html(html) && Tag(tag) && At(src, i, "?>" + (html + tag))
    ensures TokenizeFrom(src, i, true, out) == TokenizeFrom(src, i + |"?>" + (html + tag)|, true, out)
  {
    hide Html, OneAt, TokenizeFrom;
    AtSplits(src, i, "?>", html + tag);
    AtSplits(src, i + 2, html, tag);
    TagBegins(tag);
    assert src[i + 2 + |html| + 0] == tag[0];
    hide Tag;
    CloseTag(src, i, out);
    HtmlIsPassed(src, i + 2, html, 0, out);
    TagOpens(src, i + 2 + |html|, tag, out);
  }

  lemma TagBegins(tag: string)
    requires Tag(tag)
    ensures |tag| >= 3 && tag[0] == '<'
  {
    if |tag| == 5 {
      assert Lower(tag)[0] == LowerChar(tag[0]) == '<';
    }
  }

  lemma CloseTag(src: string, i: nat, out: seq<Token>)
    requires At(src, i, "?>")
    ensures TokenizeFrom(src, i, true, out) == TokenizeFrom(src, i + 2, false, out)
  {
    assert src[i + 0] == "?>"[0] && src[i + 1] == "?>"[1];
    assert src[i..i + 2] == "?>";
    assert OneAt(src, i) == ([], i + 2, false);
    hide OneAt;
    if |out| < MAX_TOKEN {
      assert out + [] == out;
    }
  }

  lemma {:induction false} GapsAreSkipped(src: string, i: nat, gaps: seq<Gap>, out: seq<Token>)
    requires LegibleGaps(gaps) && At(src, i, PrintGaps(gaps))
    ensures TokenizeFrom(src, i, true, out) == TokenizeFrom(src, i + |PrintGaps(gaps)|, true, out)
    decreases |gaps|
  {
    hide TokenizeFrom, LegibleGap, At, PrintGap;
    if gaps != [] {
      AtSplits(src, i, PrintGap(gaps[0]), PrintGaps(gaps[1..]));
      GapIsSkipped(src, i, gaps[0], out);
      GapsAreSkipped(src, i + |PrintGap(gaps[0])|, gaps[1..], out);
    }
  }

  lemma GapIsSkipped(src: string, i: nat, g: Gap, out: seq<Token>)
    requires LegibleGap(g) && At(src, i, PrintGap(g))
    ensures TokenizeFrom(src, i, true, out) == TokenizeFrom(src, i + |PrintGap(g)|, true, out)
  {
    hide TokenizeFrom;
    match g
    case Blank(c) =>
      assert src[i + 0] == PrintGap(g)[0];
      BlankIsSkipped(src, i, c, out);
    case Line(hash, text) => LineIsSkipped(src, i, hash, text, out);
    case Block(text) => BlockIsSkipped(src, i, text, out);
    case Page(html, tag) => PageIsSkipped(src, i, html, tag, out);
  }

  // ------------------------------------------------------------- token lists

  predicate Starts(c: char) {
    !IsWordChar(c) && c != '=' && c != '>'
  }

  lemma GapStarts(g: Gap)
    requires LegibleGap(g)
    ensures PrintGap(g) != "" && Starts(PrintGap(g)[0])
  {}

  lemma EndStarts(tail: Tail)
    ensures PrintEnd(tail) != "" ==> Starts(PrintEnd(tail)[0])
  {}

  lemma TokenStarts(t: Token, how: Spelling)
    requires Printable(t) && Spellable(t, how)
    ensures t.kind != Ident && !Digital(t) ==> !IsWordChar(PrintToken(t, how)[0])
    ensures Operand(t) ==> Starts(PrintToken(t, how)[0])
  {}

  lemma StartsFollow(src: string, j: nat, t: Token)
    requires j < |src| && (t.kind == Var || t.kind == Ident) ==> !IsWordChar(src[j])
    requires j < |src| && Operator(t) ==> Starts(src[j])
    ensures Follows(src, j, t)
  {}

  /** The text from i to its end writes these tokens and this tail. */
  predicate Writes(src: string, i: nat, ws: seq<Written>, tail: Tail) {
    && AllLegible(ws) && LegibleTail(tail)
    && At(src, i, Print(ws) + PrintTail(tail)) && i + |Print(ws) + PrintTail(tail)| == |src|
  }

  /** What is printed after a token follows it. */
  lemma FollowsNext(src: string, j: nat, ws: seq<Written>, tail: Tail)
    requires ws != [] && AllLegible(ws) && Separated(Toks(ws)) && Writes(src, j, ws[1..], tail)
    ensures Follows(src, j, ws[0].token)
  {
    hide Legible, LegibleGap, PrintGap, PrintToken, Starts, Follows;
    var rest := Print(ws[1..]) + PrintTail(tail);
    if rest != "" {
      assert src[j + 0] == rest[0];
      var gaps := if |ws| > 1 then ws[1].gaps else tail.gaps;
      if gaps != [] {
        assert LegibleGap(gaps[0]) by { NextGapsLegible(ws, tail); }
        GapStarts(gaps[0]);
        assert rest[0] == PrintGap(gaps[0])[0];
      } else if |ws| == 1 {
        assert ws[1..] == [] && rest == PrintEnd(tail);
        EndStarts(tail);
      } else {
        assert Legible(ws[1]);
        LegibleIs(ws[1]);
        TokenStarts(ws[1].token, ws[1].how);
        assert rest[0] == PrintToken(ws[1].token, ws[1].how)[0];
        assert Fits(Toks(ws)[0], Toks(ws)[1]) && Toks(ws)[0] == ws[0].token && Toks(ws)[1] == ws[1].token;
      }
    }
    StartsFollow(src, j, ws[0].token);
  }

  lemma LegibleIs(w: Written)
    requires Legible(w)
    ensures Printable(w.token) && Spellable(w.token, w.how)
    ensures LegibleGaps(w.gaps)
  {}

  lemma NextGapsLegible(ws: seq<Written>, tail: Tail)
    requires AllLegible(ws) && LegibleTail(tail)
    ensures LegibleGaps(if |ws| > 1 then ws[1].gaps else tail.gaps)
  {
    if |ws| > 1 {
      LegibleIs(ws[1]);
    }
  }

  lemma OneTurn(src: string, i: nat, t: Token, next: nat, out: seq<Token>)
    requires i < |src| && |out| < MAX_TOKEN
    requires OneAt(src, i) == ([t], next, true)
    ensures TokenizeFrom(src, i, true, out) == TokenizeFrom(src, next, true, out + [t])
  {}

  lemma NothingLeft(src: string, i: nat, out: seq<Token>)
    requires i == |src|
    ensures TokenizeFrom(src, i, true, out) == out && TokenizeFrom(src, i, false, out) == out
  {}

  lemma SeparatedTail(toks: seq<Token>)
    requires toks != [] && Separated(toks)
    ensures Separated(toks[1..])
  {
    var rest := toks[1..];
    forall k | 0 <= k < |rest| - 1
      ensures Fits(rest[k], rest[k + 1])
    {
      assert rest[k] == toks[k + 1] && rest[k + 1] == toks[k + 2];
    }
  }

  /** The gaps, the token and the rest of the text, located. */
  lemma FirstStands(src: string, i: nat, ws: seq<Written>, tail: Tail) returns (j: nat, next: nat)
    requires ws != [] && Writes(src, i, ws, tail)
    ensures Printable(ws[0].token) && Spellable(ws[0].token, ws[0].how) && LegibleGaps(ws[0].gaps)
    ensures At(src, i, PrintGaps(ws[0].gaps)) && j == i + |PrintGaps(ws[0].gaps)|
    ensures At(src, j, PrintToken(ws[0].token, ws[0].how)) && next == j + |PrintToken(ws[0].token, ws[0].how)|
    ensures Writes(src, next, ws[1..], tail) && next <= |src| && AllLegible(ws)
  {
    hide At, LegibleGaps, PrintToken, PrintGaps, Spellable, Printable, Print, Legible;
    var w := ws[0];
    assert Legible(w) && AllLegible(ws[1..]);
    LegibleIs(w);
    PrintFirst(ws);
    var gaps, p, after := PrintGaps(w.gaps), PrintToken(w.token, w.how), Print(ws[1..]) + PrintTail(tail);
    assert Print(ws) + PrintTail(tail) == gaps + (p + after);
    hide AllLegible;
    j, next := ThreeParts(src, i, gaps, p, after);
  }

  lemma PrintFirst(ws: seq<Written>)
    requires ws != [] && AllLegible(ws)
    ensures Legible(ws[0]) && AllLegible(ws[1..])
    ensures Print(ws) == PrintGaps(ws[0].gaps) + (PrintToken(ws[0].token, ws[0].how) + Print(ws[1..]))
  {
    hide Legible, PrintGaps, PrintToken;
  }

  lemma ThreeParts(src: string, i: nat, a: string, b: string, c: string) returns (j: nat, next: nat)
    requires At(src, i, a + (b + c)) && i + |a + (b + c)| == |src|
    ensures At(src, i, a) && j == i + |a| && At(src, j, b) && next == j + |b| && At(src, next, c)
    ensures next + |c| == |src|
  {
    hide At;
    AtSplits(src, i, a, b + c);
    j := i + |a|;
    AtSplits(src, j, b, c);
    next := j + |b|;
  }

  lemma FirstIsRead(src: string, i: nat, ws: seq<Written>, tail: Tail, out: seq<Token>) returns (next: nat)
    requires ws != [] && Writes(src, i, ws, tail) && Separated(Toks(ws)) && |out| < MAX_TOKEN
    ensures Writes(src, next, ws[1..], tail)
    ensures TokenizeFrom(src, i, true, out) == TokenizeFrom(src, next, true, out + [ws[0].token])
  {
    var j;
    hide OneAt, Follows, Separated, At, TokenizeFrom, LegibleGaps, PrintToken, PrintGaps, Toks, Spellable, Printable;
    hide Writes, AllLegible;
    j, next := FirstStands(src, i, ws, tail);
    FollowsNext(src, next, ws, tail);
    GapsAreSkipped(src, i, ws[0].gaps, out);
    OneToken(src, j, ws[0].token, ws[0].how);
    OneTurn(src, j, ws[0].token, next, out);
  }

  lemma TailIsSkipped(src: string, i: nat, tail: Tail, out: seq<Token>)
    requires Writes(src, i, [], tail)
    ensures TokenizeFrom(src, i, true, out) == out
  {
    hide At, TokenizeFrom, LegibleGaps, PrintGaps, PrintEnd, Html;
    var none: seq<Written> := [];
    assert Print(none) + PrintTail(tail) == PrintGaps(tail.gaps) + PrintEnd(tail);
    AtSplits(src, i, PrintGaps(tail.gaps), PrintEnd(tail));
    GapsAreSkipped(src, i, tail.gaps, out);
    EndIsRead(src, i + |PrintGaps(tail.gaps)|, tail, out);
  }

  lemma EndIsRead(src: string, i: nat, tail: Tail, out: seq<Token>)
    requires Html(tail.html) && At(src, i, PrintEnd(tail)) && i + |PrintEnd(tail)| == |src|
    ensures TokenizeFrom(src, i, true, out) == out
  {
    hide TokenizeFrom, Html;
    if tail.closed {
      AtSplits(src, i, "?>", tail.html);
      CloseTag(src, i, out);
      HtmlIsPassed(src, i + 2, tail.html, 0, out);
    }
    NothingLeft(src, |src|, out);
  }

  lemma FirstToken(ws: seq<Written>)
    requires ws != []
    ensures Toks(ws) == [ws[0].token] + Toks(ws[1..]) && Toks(ws)[1..] == Toks(ws[1..])
  {}

  lemma {:induction false} TokenizeUndoesPrinting(src: string, i: nat, ws: seq<Written>, tail: Tail,
                                                  out: seq<Token>)
    requires Writes(src, i, ws, tail) && Separated(Toks(ws)) && |out| + |ws| <= MAX_TOKEN
    ensures TokenizeFrom(src, i, true, out) == out + Toks(ws)
    decreases |ws|
  {
    hide Separated, Writes, TokenizeFrom;
    if ws == [] {
      TailIsSkipped(src, i, tail, out);
      assert out + Toks(ws) == out;
    } else {
      FirstToken(ws);
      hide Toks;
      var next := FirstIsRead(src, i, ws, tail, out);
      SeparatedTail(Toks(ws));
      TokenizeUndoesPrinting(src, next, ws[1..], tail, out + [ws[0].token]);
      assert out + [ws[0].token] + Toks(ws[1..]) == out + Toks(ws);
    }
  }

  /** A file of PHP: html, an open tag, the tokens, and what comes after the last. */
  datatype File = File(before: string, tag: string, ws: seq<Written>, tail: Tail)

  predicate LegibleFile(f: File) {
    Html(f.before) && Tag(f.tag) && AllLegible(f.ws) && LegibleTail(f.tail)
  }

  function PhpFile(f: File): string
    requires LegibleFile(f)
  {
    f.before + (f.tag + (Print(f.ws) + PrintTail(f.tail)))
  }

  /** ROUND TRIP. Any separated list of printable tokens, within the token cap, is read
      back exactly from a file that writes it, however its literals are spelled, whatever
      blanks, comments and page breaks stand between its tokens, and whatever html stands
      around them. */
  lemma TokensOfPrinted(f: File)
    requires LegibleFile(f) && Separated(Toks(f.ws)) && |f.ws| <= MAX_TOKEN
    ensures Tokens(PhpFile(f)) == Toks(f.ws)
  {
    hide AllLegible, LegibleTail, Separated, Print, PrintTail, TokenizeFrom, At, Html, Tag, Writes;
    var src, body := PhpFile(f), Print(f.ws) + PrintTail(f.tail);
    assert At(src, 0, f.before + (f.tag + body)) by { AllStands(src); }
    var j, next := ThreeParts(src, 0, f.before, f.tag, body);
    assert Writes(src, next, f.ws, f.tail) by { WritesIs(src, next, f.ws, f.tail); }
    assert src[j] == '<' by { TagStands(src, j, f.tag); }
    HtmlIsPassed(src, 0, f.before, 0, []);
    TagOpens(src, j, f.tag, []);
    TokenizeUndoesPrinting(src, next, f.ws, f.tail, []);
    assert [] + Toks(f.ws) == Toks(f.ws);
  }

  lemma AllStands(src: string)
    ensures At(src, 0, src)
  {}

  lemma WritesIs(src: string, i: nat, ws: seq<Written>, tail: Tail)
    requires AllLegible(ws) && LegibleTail(tail)
    requires At(src, i, Print(ws) + PrintTail(tail)) && i + |Print(ws) + PrintTail(tail)| == |src|
    ensures Writes(src, i, ws, tail)
  {}

  lemma TagStands(src: string, j: nat, tag: string)
    requires Tag(tag) && At(src, j, tag)
    ensures j < |src| && src[j] == '<'
  {
    TagBegins(tag);
    assert src[j + 0] == tag[0];
  }

  predicate AllPrintable(toks: seq<Token>) {
    forall k :: 0 <= k < |toks| ==> Printable(toks[k])
  }

  /** Every printable list of which the strings are constant can be written. */
  function Plainly(toks: seq<Token>): (ws: seq<Written>)
    requires AllPrintable(toks) && forall k :: 0 <= k < |toks| && toks[k].kind == Str ==> toks[k].constant
    ensures AllLegible(ws) && Toks(ws) == toks
  {
    if toks == [] then [] else [Written([], toks[0], Single)] + Plainly(toks[1..])
  }
}
