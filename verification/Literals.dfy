/** The readers of string literals at their edges: every escape, and strings past the fold
    ceiling (internal/antivirus/semantic.go:662-776). */
module Literals {
  import opened Semantic
  import opened Tokenizer
  import opened Printing

  predicate AllHex(digits: string) {
    forall k :: 0 <= k < |digits| ==> IsHex(digits[k])
  }

  predicate AllOctal(digits: string) {
    forall k :: 0 <= k < |digits| ==> IsOctal(digits[k])
  }

  /** The number these digits write. */
  function Number(digits: string, base: nat): nat
    requires AllHex(digits)
  {
    if digits == "" then 0
    else
      assert AllHex(digits[..|digits| - 1]);
      Number(digits[..|digits| - 1], base) * base + HexVal(digits[|digits| - 1])
  }

  /** These digits stand at i, and the escape takes them all: it has its fill, or no further
      digit follows. */
  predicate TakesAll(src: string, i: nat, digits: string, most: nat, hex: bool) {
    && At(src, i, digits) && 1 <= |digits| <= most
    && var j := i + |digits|;
       |digits| == most || j == |src| || (if hex then !IsHex(src[j]) else !IsOctal(src[j]))
  }

  lemma OneDigit(d: char, base: nat)
    requires IsHex(d)
    ensures AllHex([d]) && Number([d], base) == HexVal(d)
  {
    assert [d][..0] == "";
  }

  lemma TwoDigits(d: string, base: nat)
    requires AllHex(d) && |d| == 2
    ensures Number(d, base) == HexVal(d[0]) * base + HexVal(d[1])
  {
    OneDigit(d[0], base);
    assert d[..1] == [d[0]];
  }

  lemma ThreeDigits(d: string, base: nat)
    requires AllHex(d) && |d| == 3
    ensures Number(d, base) == (HexVal(d[0]) * base + HexVal(d[1])) * base + HexVal(d[2])
  {
    TwoDigits(d[..2], base);
    assert d[..2][0] == d[0] && d[..2][1] == d[1];
  }

  /** A HEX ESCAPE of one or two digits is the byte they write. */
  lemma HexEscapeIsRead(src: string, i: nat, digits: string)
    requires i + 2 <= |src| && src[i] == '\\' && src[i + 1] == 'x'
    requires AllHex(digits) && TakesAll(src, i + 2, digits, 2, true)
    ensures EscapeAt(src, i) == ((Number(digits, 16) % 256) as char, i + 2 + |digits|)
  {
    var h := i + 2;
    assert src[h + 0] == digits[0];
    if |digits| == 1 {
      OneDigit(digits[0], 16);
      assert digits == [digits[0]];
      assert HexFrom(src, h, 0, 0) == HexFrom(src, h + 1, HexVal(digits[0]), 1) == (HexVal(digits[0]), h + 1);
    } else {
      TwoDigits(digits, 16);
      assert src[h + 1] == digits[1];
      var v := HexVal(digits[0]) * 16 + HexVal(digits[1]);
      assert HexFrom(src, h + 2, v, 2) == (v, h + 2);
      assert HexFrom(src, h, 0, 0) == HexFrom(src, h + 1, HexVal(digits[0]), 1) == HexFrom(src, h + 2, v, 2);
    }
  }

  lemma OctalIsHex(digits: string)
    requires AllOctal(digits)
    ensures AllHex(digits) && forall k :: 0 <= k < |digits| ==> HexVal(digits[k]) == (digits[k] - '0') as nat
  {}

  lemma OctalDigitsAreRead(src: string, h: nat, digits: string)
    requires AllOctal(digits) && AllHex(digits) && TakesAll(src, h, digits, 3, false)
    ensures OctalFrom(src, h, 0, 0) == (Number(digits, 8), h + |digits|)
  {
    hide Number;
    OctalIsHex(digits);
    var n, a := |digits|, HexVal(digits[0]);
    assert src[h + 0] == digits[0];
    assert OctalFrom(src, h, 0, 0) == OctalFrom(src, h + 1, a, 1);
    if n == 1 {
      OneDigit(digits[0], 8);
      assert digits == [digits[0]];
    } else {
      assert src[h + 1] == digits[1];
      var b := a * 8 + HexVal(digits[1]);
      assert OctalFrom(src, h + 1, a, 1) == OctalFrom(src, h + 2, b, 2);
      if n == 2 {
        TwoDigits(digits, 8);
      } else {
        ThreeDigits(digits, 8);
        assert src[h + 2] == digits[2];
        var c := b * 8 + HexVal(digits[2]);
        assert OctalFrom(src, h + 3, c, 3) == (c, h + 3);
      }
    }
  }

  /** AN OCTAL ESCAPE of one to three digits is the byte they write, in eight bits. */
  lemma OctalEscapeIsRead(src: string, i: nat, digits: string)
    requires i + 1 <= |src| && src[i] == '\\'
    requires AllOctal(digits) && AllHex(digits) && TakesAll(src, i + 1, digits, 3, false)
    ensures EscapeAt(src, i) == ((Number(digits, 8) % 256) as char, i + 1 + |digits|)
  {
    hide OctalFrom;
    assert src[i + 1 + 0] == digits[0];
    OctalDigitsAreRead(src, i + 1, digits);
  }

  /** ANY OTHER ESCAPE is the byte after its backslash. PHP leaves such an escape as it
      stands, backslash and all, so here the value the reader gives is not PHP's. */
  lemma OtherEscapeLosesItsBackslash(src: string, i: nat, c: char)
    requires i + 1 < |src| && src[i] == '\\' && src[i + 1] == c
    requires c !in {'\\', '"', '$', 'n', 't'} && !IsOctal(c)
    requires c == 'x' ==> i + 2 == |src| || !IsHex(src[i + 2])
    ensures EscapeAt(src, i) == (c, i + 2)
  {}

  // -------------------------------------------------- past the fold ceiling

  lemma {:induction false} QuoteIsFound(src: string, i: nat, j: nat, q: char)
    requires i <= j < |src| && src[j] == q && forall k :: i <= k < j ==> src[k] != q
    ensures PastQuote(src, i, q) == j + 1
    decreases j - i
  {
    if i < j {
      QuoteIsFound(src, i + 1, j, q);
    }
  }

  /** The text has no quote and nothing that is read in another way between quotes. */
  predicate PlainText(text: string) {
    forall k :: 0 <= k < |text| ==> text[k] !in {'\\', '\'', '"', '$', '{'}
  }

  lemma {:induction false} LongSingle(src: string, i: nat, text: string, k: nat)
    requires PlainText(text) && |text| > MAX_FOLD && At(src, i, text + "'") && k <= MAX_FOLD
    ensures SingleFrom(src, i + k, text[..k]) == Literal(text[..MAX_FOLD + 1], true, i + |text| + 1)
    decreases MAX_FOLD - k
  {
    assert src[i + k] == (text + "'")[k] == text[k];
    assert text[..k] + [text[k]] == text[..k + 1];
    if k < MAX_FOLD {
      LongSingle(src, i, text, k + 1);
    } else {
      LongText(src, i, text, '\'');
      QuoteIsFound(src, i + k + 1, i + |text|, '\'');
    }
  }

  lemma LongText(src: string, i: nat, text: string, q: char)
    requires PlainText(text) && q in {'\'', '"'} && At(src, i, text + [q])
    ensures i + |text| < |src| && src[i + |text|] == q
    ensures forall k :: i <= k < i + |text| ==> src[k] != q
  {
    var whole := text + [q];
    assert src[i + |text|] == whole[|text|];
    forall k | i <= k < i + |text|
      ensures src[k] != q
    {
      assert src[i + (k - i)] == whole[k - i] == text[k - i];
    }
  }

  lemma {:induction false} LongDouble(src: string, i: nat, text: string, k: nat)
    requires PlainText(text) && |text| > MAX_FOLD && At(src, i, text + "\"") && k <= MAX_FOLD
    ensures DoubleFrom(src, i + k, text[..k], true) == Literal(text[..MAX_FOLD + 1], false, i + |text| + 1)
    decreases MAX_FOLD - k
  {
    assert src[i + k] == (text + "\"")[k] == text[k];
    assert text[..k] + [text[k]] == text[..k + 1];
    if k < MAX_FOLD {
      LongDouble(src, i, text, k + 1);
    } else {
      LongText(src, i, text, '"');
      QuoteIsFound(src, i + k + 1, i + |text|, '"');
    }
  }

  /** PAST THE FOLD CEILING a plain text is read as its first bytes, one more than the
      ceiling, and the reader goes on after the closing quote. Between double quotes it is
      not constant; between single quotes it is, but too long for any table. */
  lemma LongTextIsCut(src: string, i: nat, text: string)
    requires PlainText(text) && |text| > MAX_FOLD
    ensures At(src, i, text + "'") ==>
              SingleFrom(src, i, "") == Literal(text[..MAX_FOLD + 1], true, i + |text| + 1)
    ensures At(src, i, text + "\"") ==>
              DoubleFrom(src, i, "", true) == Literal(text[..MAX_FOLD + 1], false, i + |text| + 1)
  {
    assert text[..0] == "";
    if At(src, i, text + "'") {
      LongSingle(src, i, text, 0);
    }
    if At(src, i, text + "\"") {
      LongDouble(src, i, text, 0);
    }
  }
}
