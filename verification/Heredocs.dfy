/** A heredoc is read back from every way of writing it
    (internal/antivirus/semantic.go:778-842). */
module Heredocs {
  import opened Semantic
  import opened Tokenizer
  import opened Printing

  /** What stands after `<<<`, the quotes around the label, the lines of the text, and the
      line that closes it. */
  datatype Doc = Doc(blanks: string, quote: string, word: string, lines: seq<string>, indent: string, rest: string)

  predicate Spaces(s: string) {
    forall k :: 0 <= k < |s| ==> s[k] == ' ' || s[k] == '\t'
  }

  predicate OneLine(s: string) {
    forall k :: 0 <= k < |s| ==> s[k] != '\n'
  }

  /** The label does not begin the line, not even after blanks. */
  predicate Apart(line: string, word: string) {
    forall n :: 0 <= n <= |line| && Spaces(line[..n]) ==> !(word <= line[n..])
  }

  predicate Body(lines: seq<string>, word: string) {
    forall k :: 0 <= k < |lines| ==> OneLine(lines[k]) && Apart(lines[k], word)
  }

  predicate LegibleDoc(d: Doc) {
    && Spaces(d.blanks) && Spaces(d.indent) && d.quote in {"", "'", "\""}
    && d.word != "" && (forall k :: 0 <= k < |d.word| ==> IsWordChar(d.word[k]))
    && Body(d.lines, d.word)
    && OneLine(d.rest) && (d.rest != "" ==> d.rest[0] == ';')
  }

  function Text(lines: seq<string>): string {
    if lines == [] then "" else lines[0] + ("\n" + Text(lines[1..]))
  }

  function Closing(d: Doc): string {
    d.indent + (d.word + d.rest)
  }

  function PrintDoc(d: Doc): string {
    "<<<" + (d.blanks + (d.quote + (d.word + (d.quote + ("\n" + (Text(d.lines) + Closing(d)))))))
  }

  // --------------------------------------------------------- one line at a time

  lemma {:induction false} TrimIsPrefix(s: string)
    ensures TrimRightCR(s) <= s
  {
    if s != "" && s[|s| - 1] == '\r' {
      TrimIsPrefix(s[..|s| - 1]);
    }
  }

  lemma {:induction false} TrimKeeps(s: string, n: nat)
    requires n <= |s| && (n == 0 || s[n - 1] != '\r')
    ensures n <= |TrimRightCR(s)| && TrimRightCR(s)[..n] == s[..n]
    decreases |s|
  {
    if s != "" && s[|s| - 1] == '\r' {
      TrimKeeps(s[..|s| - 1], n);
    }
  }

  lemma {:induction false} TrimLeft(s: string) returns (n: nat)
    ensures n <= |s| && Spaces(s[..n]) && TrimLeftBlanks(s) == s[n..]
    ensures n < |s| ==> s[n] != ' ' && s[n] != '\t'
  {
    if s != "" && (s[0] == ' ' || s[0] == '\t') {
      var m := TrimLeft(s[1..]);
      n := m + 1;
      assert s[..n] == [s[0]] + s[1..][..m] && s[1..][m..] == s[n..];
    } else {
      n := 0;
    }
  }

  lemma {:induction false} TrimPast(indent: string, s: string)
    requires Spaces(indent) && (s != "" ==> s[0] != ' ' && s[0] != '\t')
    ensures TrimLeftBlanks(indent + s) == s
  {
    if indent != "" {
      assert (indent + s)[1..] == indent[1..] + s;
      TrimPast(indent[1..], s);
    } else {
      assert indent + s == s;
    }
  }

  lemma PrefixOfPrefix(a: string, b: string, c: string)
    ensures a <= b && b <= c ==> a <= c
  {
    assert a <= b && b <= c ==> c[..|a|] == b[..|a|];
  }

  lemma LineIsBody(line: string, word: string)
    requires Apart(line, word) && word != ""
    ensures !ClosesHeredoc(line, word)
  {
    TrimIsPrefix(line);
    var t := TrimRightCR(line);
    var n := TrimLeft(t);
    assert line[..n] == t[..n];
    assert t[n..] <= line[n..] && !(word <= line[n..]);
    PrefixOfPrefix(word, t[n..], line[n..]);
    PrefixOfPrefix(word, word + ";", t[n..]);
  }

  /** What is left of the closing line when its end is trimmed. */
  lemma ClosingTrimmed(d: Doc) returns (tail: string)
    requires LegibleDoc(d)
    ensures TrimRightCR(Closing(d)) == d.indent + tail && d.word <= tail
    ensures if d.rest == "" then tail == d.word else d.word + ";" <= tail
  {
    var line := Closing(d);
    var n := |d.indent| + |d.word| + if d.rest == "" then 0 else 1;
    assert line[|d.indent| + |d.word| - 1] == d.word[|d.word| - 1];
    assert d.rest != "" ==> line[n - 1] == d.rest[0];
    TrimKeeps(line, n);
    TrimIsPrefix(line);
    var t := TrimRightCR(line);
    tail := t[|d.indent|..];
    assert t == line[..|t|];
    assert t[..|d.indent|] == d.indent;
    assert tail[..|d.word|] == d.word;
    if d.rest == "" {
      assert |t| == |line|;
    } else {
      assert tail[..|d.word| + 1] == d.word + ";";
    }
  }

  lemma ClosingCloses(d: Doc)
    requires LegibleDoc(d)
    ensures ClosesHeredoc(Closing(d), d.word) && OneLine(Closing(d)) && Closing(d) != ""
    ensures d.word != "" && Body(d.lines, d.word)
  {
    var tail := ClosingTrimmed(d);
    assert tail[0] == d.word[0];
    TrimPast(d.indent, tail);
  }

  // ------------------------------------------------------------- the reading

  /** A line of the text, and where the next one begins. */
  lemma FirstLine(src: string, j: nat, lines: seq<string>, closing: string, word: string) returns (next: nat)
    requires lines != [] && At(src, j, Text(lines) + closing) && word != "" && Body(lines, word)
    ensures j < next <= |src| && next == NextLine(src, LineEnd(src, j)) == j + |lines[0]| + 1
    ensures !ClosesHeredoc(src[j..LineEnd(src, j)], word)
    ensures At(src, next, Text(lines[1..]) + closing) && Body(lines[1..], word)
    ensures |Text(lines)| == |lines[0]| + 1 + |Text(lines[1..])|
  {
    hide ClosesHeredoc, Apart, OneLine;
    var line, more := lines[0], Text(lines[1..]) + closing;
    assert OneLine(line) && Apart(line, word);
    assert Text(lines) + closing == line + ("\n" + more);
    AtSplits(src, j, line, "\n" + more);
    AtSplits(src, j + |line|, "\n", more);
    assert src[j + |line| + 0] == "\n"[0];
    LineStands(src, j, line);
    LineIsBody(line, word);
    next := j + |line| + 1;
  }

  lemma LastLine(src: string, start: nat, j: nat, closing: string, word: string, nowdoc: bool)
    requires start <= j && At(src, j, closing) && OneLine(closing) && ClosesHeredoc(closing, word) && closing != ""
    requires var end := j + |closing|;
             end < |src| ==> src[end] == '\n'
    ensures var end, body := j + |closing|, src[start..j];
            HeredocFrom(src, start, j, word, nowdoc)
            == Literal(body, (nowdoc || ('$' !in body && '{' !in body)) && |body| <= MAX_FOLD,
                       if end < |src| then end + 1 else end)
  {
    hide ClosesHeredoc, OneLine, HeredocFrom;
    LineStands(src, j, closing);
    LastHeredocLine(src, start, j, word, nowdoc);
  }

  /** The text between the two places, and the place after its closing line. */
  predicate IsLiteral(src: string, start: nat, close: nat, end: nat, nowdoc: bool, l: Literal) {
    && start <= close <= |src|
    && var body := src[start..close];
       l == Literal(body, (nowdoc || ('$' !in body && '{' !in body)) && |body| <= MAX_FOLD,
                    if end < |src| then end + 1 else end)
  }

  /** The rest of a text that begins at a line of it. */
  lemma {:induction false} BodyIsRead(src: string, start: nat, j: nat, lines: seq<string>, closing: string,
                                      word: string, nowdoc: bool)
    requires start <= j <= |src| && At(src, j, Text(lines) + closing) && word != "" && Body(lines, word)
    requires OneLine(closing) && ClosesHeredoc(closing, word) && closing != ""
    requires var end := j + |Text(lines)| + |closing|;
             end < |src| ==> src[end] == '\n'
    ensures var close := j + |Text(lines)|;
            IsLiteral(src, start, close, close + |closing|, nowdoc, HeredocFrom(src, start, j, word, nowdoc))
    decreases |lines|
  {
    hide HeredocFrom, ClosesHeredoc, Body, OneLine, At, IsLiteral, LineEnd;
    if lines == [] {
      assert Text(lines) + closing == closing;
      LastIsLiteral(src, start, j, closing, word, nowdoc);
    } else {
      hide Text;
      var next := FirstLine(src, j, lines, closing, word);
      NextHeredocLine(src, start, j, word, nowdoc);
      BodyIsRead(src, start, next, lines[1..], closing, word, nowdoc);
    }
  }

  lemma LastIsLiteral(src: string, start: nat, j: nat, closing: string, word: string, nowdoc: bool)
    requires start <= j <= |src| && At(src, j, closing) && OneLine(closing) && ClosesHeredoc(closing, word)
    requires closing != "" && (j + |closing| < |src| ==> src[j + |closing|] == '\n')
    ensures IsLiteral(src, start, j, j + |closing|, nowdoc, HeredocFrom(src, start, j, word, nowdoc))
  {
    hide HeredocFrom, ClosesHeredoc, OneLine;
    LastLine(src, start, j, closing, word, nowdoc);
  }

  lemma LineStands(src: string, j: nat, line: string)
    requires At(src, j, line) && OneLine(line) && (j + |line| < |src| ==> src[j + |line|] == '\n')
    ensures j + |line| <= |src| && LineEnd(src, j) == j + |line| && src[j..j + |line|] == line
  {
    var e := j + |line|;
    forall k | j <= k < e
      ensures src[k] != '\n'
    {
      assert src[j + (k - j)] == line[k - j];
    }
    if e < |src| {
      LineEndIs(src, j, e);
    } else {
      LineEndIsEnd(src, j);
    }
    assert forall k :: 0 <= k < |line| ==> src[j + k] == line[k];
  }

  lemma {:induction false} LineEndIsEnd(src: string, j: nat)
    requires j <= |src| && forall k :: j <= k < |src| ==> src[k] != '\n'
    ensures LineEnd(src, j) == |src|
    decreases |src| - j
  {
    if j < |src| {
      LineEndIsEnd(src, j + 1);
    }
  }

  lemma {:induction false} BlanksArePassed(src: string, j: nat, blanks: string)
    requires At(src, j, blanks) && Spaces(blanks)
    requires j + |blanks| < |src| ==> src[j + |blanks|] != ' ' && src[j + |blanks|] != '\t'
    ensures PastBlanks(src, j) == j + |blanks|
    decreases |blanks|
  {
    if blanks != "" {
      assert src[j + 0] == blanks[0];
      assert blanks == [blanks[0]] + blanks[1..];
      AtSplits(src, j, [blanks[0]], blanks[1..]);
      BlanksArePassed(src, j + 1, blanks[1..]);
    }
  }

  /** Where the label begins and ends, and where the text begins. */
  lemma LabelIsRead(src: string, i: nat, d: Doc, more: string)
    requires LegibleDoc(d)
    requires At(src, i, d.blanks + (d.quote + (d.word + (d.quote + ("\n" + more)))))
    ensures var w := i + |d.blanks| + |d.quote|;
            && LabelStart(src, i) == (w, d.quote == "'")
            && At(src, w, d.word + (d.quote + ("\n" + more)))
  {
    var a := d.word + (d.quote + ("\n" + more));
    AtSplits(src, i, d.blanks, d.quote + a);
    var q := i + |d.blanks|;
    AtSplits(src, q, d.quote, a);
    var w := q + |d.quote|;
    assert src[w + 0] == a[0] == d.word[0];
    assert d.quote != "" ==> src[q + 0] == d.quote[0];
    BlanksArePassed(src, i, d.blanks);
  }

  lemma WordIsRead(src: string, w: nat, d: Doc, more: string)
    requires LegibleDoc(d) && At(src, w, d.word + (d.quote + ("\n" + more)))
    ensures WordEnd(src, w) == w + |d.word| && src[w..w + |d.word|] == d.word
    ensures NextLine(src, LineEnd(src, w + |d.word|)) == w + |d.word| + |d.quote| + 1
    ensures At(src, w + |d.word| + |d.quote| + 1, more)
  {
    AtSplits(src, w, d.word, d.quote + ("\n" + more));
    var e := w + |d.word|;
    AtSplits(src, e, d.quote, "\n" + more);
    AtSplits(src, e + |d.quote|, "\n", more);
    assert d.quote != "" ==> src[e + 0] == d.quote[0];
    assert src[e + |d.quote| + 0] == "\n"[0];
    forall k | w <= k < e
      ensures IsWordChar(src[k])
    {
      assert src[w + (k - w)] == d.word[k - w];
    }
    WordEndStops(src, w, e);
    LineEndIs(src, e, e + |d.quote|);
    assert forall k :: 0 <= k < |d.word| ==> src[w + k] == d.word[k];
  }

  predicate Constant(d: Doc) {
    (d.quote == "'" || ('$' !in Text(d.lines) && '{' !in Text(d.lines))) && |Text(d.lines)| <= MAX_FOLD
  }

  lemma DocIsRead(src: string, i: nat, d: Doc)
    requires LegibleDoc(d) && i + 3 <= |src|
    requires At(src, i + 3, d.blanks + (d.quote + (d.word + (d.quote + ("\n" + (Text(d.lines) + Closing(d)))))))
    requires var end := i + |PrintDoc(d)|;
             end < |src| ==> src[end] == '\n'
    ensures var end := i + |PrintDoc(d)|;
            HeredocAt(src, i) == Literal(Text(d.lines), Constant(d), if end < |src| then end + 1 else end)
  {
    hide PrintDoc, Text, Closing, At, LabelStart, WordEnd, LineEnd, HeredocAt, HeredocFrom, NextLine, ClosesHeredoc;
    hide LegibleDoc, Constant;
    DocLength(d);
    var start := DocBegins(src, i, d);
    AtSplits(src, start, Text(d.lines), Closing(d));
    PieceIs(src, start, Text(d.lines));
    DocBody(src, start, d);
  }

  /** Where the text begins. */
  lemma DocBegins(src: string, i: nat, d: Doc) returns (start: nat)
    requires LegibleDoc(d) && i + 3 <= |src|
    requires At(src, i + 3, d.blanks + (d.quote + (d.word + (d.quote + ("\n" + (Text(d.lines) + Closing(d)))))))
    ensures start == i + 3 + |d.blanks| + |d.quote| + |d.word| + |d.quote| + 1 <= |src|
    ensures At(src, start, Text(d.lines) + Closing(d))
    ensures HeredocAt(src, i) == HeredocFrom(src, start, start, d.word, d.quote == "'")
  {
    assert d.word != "";
    hide PrintDoc, Text, Closing, LabelStart, WordEnd, LineEnd, HeredocAt, HeredocFrom, NextLine, LegibleDoc;
    var more := Text(d.lines) + Closing(d);
    var w := i + 3 + |d.blanks| + |d.quote|;
    start := w + |d.word| + |d.quote| + 1;
    LabelIsRead(src, i + 3, d, more);
    WordIsRead(src, w, d, more);
    HeredocUnfolds(src, i, w, d.quote == "'", d.word, start);
  }

  lemma DocBody(src: string, start: nat, d: Doc)
    requires LegibleDoc(d) && At(src, start, Text(d.lines) + Closing(d)) && start + |Text(d.lines)| <= |src|
    requires src[start..start + |Text(d.lines)|] == Text(d.lines)
    requires var end := start + |Text(d.lines)| + |Closing(d)|;
             end < |src| ==> src[end] == '\n'
    ensures var end := start + |Text(d.lines)| + |Closing(d)|;
            HeredocFrom(src, start, start, d.word, d.quote == "'")
            == Literal(Text(d.lines), Constant(d), if end < |src| then end + 1 else end)
  {
    hide Text, Closing, HeredocFrom, ClosesHeredoc, LegibleDoc, At, Body, OneLine;
    ClosingCloses(d);
    BodyIsRead(src, start, start, d.lines, Closing(d), d.word, d.quote == "'");
  }

  lemma DocLength(d: Doc)
    ensures |PrintDoc(d)|
            == 3 + |d.blanks| + |d.quote| + |d.word| + |d.quote| + 1 + |Text(d.lines)| + |Closing(d)|
  {
    hide Text, Closing;
  }

  lemma HeredocUnfolds(src: string, i: nat, w: nat, nowdoc: bool, word: string, start: nat)
    requires i + 3 <= |src| && LabelStart(src, i + 3) == (w, nowdoc) && word != ""
    requires WordEnd(src, w) == w + |word| <= |src| && src[w..w + |word|] == word
    requires NextLine(src, LineEnd(src, w + |word|)) == start <= |src|
    ensures HeredocAt(src, i) == HeredocFrom(src, start, start, word, nowdoc)
  {
    hide HeredocFrom, LabelStart, WordEnd, LineEnd, NextLine;
  }

  lemma PieceIs(src: string, i: nat, piece: string)
    requires At(src, i, piece)
    ensures i + |piece| <= |src| && src[i..i + |piece|] == piece
  {
    assert forall k :: 0 <= k < |piece| ==> src[i + k] == piece[k];
  }

  lemma HeredocTurn(src: string, i: nat)
    requires i + 3 <= |src| && src[i] == '<' && src[i + 1] == '<' && src[i + 2] == '<'
    ensures var l := HeredocAt(src, i);
            OneAt(src, i) == ([Token(Str, l.val, l.constant)], l.next, true)
  {
    hide HeredocAt;
    NotAt(src, i, "?>");
    NotAt(src, i, "//");
    NotAt(src, i, "/*");
  }

  /** THE TEXT OF A HEREDOC COMES BACK. Whatever its label, its quotes, its blanks and its
      lines, a heredoc is read as one string: its lines, which are constant if and only if
      it is a nowdoc or has neither a dollar nor a brace, and keep to the ceiling. */
  lemma HeredocGivesBack(src: string, i: nat, d: Doc)
    requires LegibleDoc(d) && At(src, i, PrintDoc(d))
    requires var end := i + |PrintDoc(d)|;
             end < |src| ==> src[end] == '\n'
    ensures var end := i + |PrintDoc(d)|;
            i < |src| && OneAt(src, i) == ([Token(Str, Text(d.lines), Constant(d))],
                                           if end < |src| then end + 1 else end, true)
  {
    AtSplits(src, i, "<<<", d.blanks + (d.quote + (d.word + (d.quote + ("\n" + (Text(d.lines) + Closing(d)))))));
    assert src[i + 0] == "<<<"[0] && src[i + 1] == "<<<"[1] && src[i + 2] == "<<<"[2];
    hide PrintDoc, OneAt, HeredocAt, LegibleDoc, Constant, Text, Closing;
    DocIsRead(src, i, d);
    HeredocTurn(src, i);
  }
}
