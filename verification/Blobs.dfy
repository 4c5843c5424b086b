/** The encoded runs the decode pass looks for, and what they decode to
    (internal/antivirus/decoded.go:87-111, 195-222, 252-261). The two finders are the
    regular expressions written out: leftmost, greedy, not overlapping. */
module Blobs {
  import opened Wrappers

  type Bytes = string

  const MIN_BASE64 := 24
  const MIN_HEX := 16

  predicate IsBytes(b: Bytes) {
    forall i :: 0 <= i < |b| ==> (b[i] as int) < 256
  }

  predicate Alphabet(c: char) {
    'A' <= c <= 'Z' || 'a' <= c <= 'z' || '0' <= c <= '9' || c == '+' || c == '/'
  }

  predicate HexChar(c: char) {
    '0' <= c <= '9' || 'A' <= c <= 'F' || 'a' <= c <= 'f'
  }

  // -------------------------------------------------------------- finders

  datatype Kind = Base64 | Hex

  /** How many characters of the base64 alphabet follow one another from here. */
  function Span(data: Bytes, i: nat): (n: nat)
    requires i <= |data|
    ensures i + n <= |data|
    decreases |data| - i
  {
    if i < |data| && Alphabet(data[i]) then 1 + Span(data, i + 1) else 0
  }

  /** At most two padding characters. */
  function Pads(data: Bytes, i: nat): (n: nat)
    requires i <= |data|
    ensures i + n <= |data| && n <= 2
  {
    if i >= |data| || data[i] != '=' then 0
    else if i + 1 >= |data| || data[i + 1] != '=' then 1
    else 2
  }

  /** How many `\xHH` follow one another from here. */
  function HexPairs(data: Bytes, i: nat): (n: nat)
    requires i <= |data|
    ensures i + 4 * n <= |data|
    decreases |data| - i
  {
    if i + 4 <= |data| && data[i] == '\\' && data[i + 1] == 'x' && HexChar(data[i + 2]) && HexChar(data[i + 3])
    then 1 + HexPairs(data, i + 4)
    else 0
  }

  /** The length of the match that begins here, 0 when none does. */
  function RunAt(kind: Kind, data: Bytes, i: nat): (n: nat)
    requires i <= |data|
    ensures i + n <= |data|
  {
    match kind
    case Base64 =>
      var n := Span(data, i);
      if n >= MIN_BASE64 then n + Pads(data, i + n) else 0
    case Hex => if HexPairs(data, i) >= MIN_HEX then 4 * HexPairs(data, i) else 0
  }

  /** Every match from position `i` on. */
  function FindFrom(kind: Kind, data: Bytes, i: nat): seq<Bytes>
    requires i <= |data|
    decreases |data| - i
  {
    if i == |data| then []
    else
      var n := RunAt(kind, data, i);
      if n > 0 then [data[i..i + n]] + FindFrom(kind, data, i + n) else FindFrom(kind, data, i + 1)
  }

  function Find(kind: Kind, data: Bytes): seq<Bytes> {
    FindFrom(kind, data, 0)
  }

  predicate AnyRun(kind: Kind, data: Bytes) {
    exists i :: 0 <= i <= |data| && RunAt(kind, data, i) > 0
  }

  // -------------------------------------------------------------- decoders

  function Sextet(c: char): (n: nat)
    requires Alphabet(c)
    ensures n < 64
  {
    if 'A' <= c <= 'Z' then c as int - 'A' as int
    else if 'a' <= c <= 'z' then c as int - 'a' as int + 26
    else if '0' <= c <= '9' then c as int - '0' as int + 52
    else if c == '+' then 62
    else 63
  }

  predicate AllAlphabet(b: Bytes) {
    forall i :: 0 <= i < |b| ==> Alphabet(b[i])
  }

  /** Two sextets give their first byte; bits left over at the end are dropped. */
  function High(a: nat, b: nat): char
    requires a < 64 && b < 64
  {
    (a * 4 + b / 16) as char
  }

  function Middle(b: nat, c: nat): char
    requires b < 64 && c < 64
  {
    (b % 16 * 16 + c / 4) as char
  }

  function Low(c: nat, d: nat): char
    requires c < 64 && d < 64
  {
    (c % 4 * 64 + d) as char
  }

  function DecodedBody(b: Bytes): Bytes
    requires AllAlphabet(b) && |b| % 4 != 1
  {
    if b == "" then ""
    else
      var first := High(Sextet(b[0]), Sextet(b[1]));
      if |b| == 2 then [first]
      else
        var second := Middle(Sextet(b[1]), Sextet(b[2]));
        if |b| == 3 then [first, second]
        else [first, second, Low(Sextet(b[2]), Sextet(b[3]))] + DecodedBody(b[4..])
  }

  function Unpadded(b: Bytes): Bytes {
    if |b| >= 2 && b[|b| - 1] == '=' && b[|b| - 2] == '=' then b[..|b| - 2]
    else if |b| >= 1 && b[|b| - 1] == '=' then b[..|b| - 1]
    else b
  }

  /** The standard alphabet, padded, else raw; "" when neither decodes. */
  function FromBase64(b: Bytes): Bytes {
    var body := Unpadded(b);
    if !AllAlphabet(body) || |body| % 4 == 1 then ""
    else if body != b && |b| % 4 != 0 then ""
    else DecodedBody(body)
  }

  function HexValue(c: char): (n: nat)
    requires HexChar(c)
    ensures n < 16
  {
    if '0' <= c <= '9' then c as int - '0' as int
    else if 'a' <= c <= 'f' then c as int - 'a' as int + 10
    else c as int - 'A' as int + 10
  }

  /** The bytes of a `\xHH` run, read off its digits. */
  function FromHex(run: Bytes): Option<Bytes> {
    if run == "" then Some("")
    else if |run| < 4 || !HexChar(run[2]) || !HexChar(run[3]) then None
    else
      var rest := FromHex(run[4..]);
      if rest == None then None
      else Some([(16 * HexValue(run[2]) + HexValue(run[3])) as char] + rest.value)
  }

  // -------------------------------------------------------------- encoder

  function Digit64(n: nat): (c: char)
    requires n < 64
    ensures Alphabet(c) && Sextet(c) == n
  {
    if n < 26 then 'A' + n as char
    else if n < 52 then 'a' + (n - 26) as char
    else if n < 62 then '0' + (n - 52) as char
    else if n == 62 then '+'
    else '/'
  }

  /** Three bytes in four digits. */
  function Group(x: nat, y: nat, z: nat): (g: Bytes)
    requires x < 256 && y < 256 && z < 256
    ensures |g| == 4 && AllAlphabet(g)
  {
    [Digit64(x / 4), Digit64(x % 4 * 16 + y / 16), Digit64(y % 16 * 4 + z / 64), Digit64(z % 64)]
  }

  /** One or two bytes left over, in two or three digits. */
  function LastGroup(b: Bytes): (g: Bytes)
    requires IsBytes(b) && |b| < 3
    ensures AllAlphabet(g) && |g| == (if b == "" then 0 else |b| + 1)
  {
    if b == "" then ""
    else if |b| == 1 then Group(b[0] as int, 0, 0)[..2]
    else Group(b[0] as int, b[1] as int, 0)[..3]
  }

  function EncodedBody(b: Bytes): (e: Bytes)
    requires IsBytes(b)
    ensures AllAlphabet(e)
    ensures |e| == |b| / 3 * 4 + (if |b| % 3 == 0 then 0 else |b| % 3 + 1)
  {
    if |b| < 3 then LastGroup(b) else Group(b[0] as int, b[1] as int, b[2] as int) + EncodedBody(b[3..])
  }

  function Padding(n: nat): (p: Bytes)
    ensures |p| == (if n % 3 == 1 then 2 else if n % 3 == 2 then 1 else 0)
    ensures forall i :: 0 <= i < |p| ==> p[i] == '='
  {
    if n % 3 == 1 then "==" else if n % 3 == 2 then "=" else ""
  }

  function Encoded(b: Bytes): Bytes
    requires IsBytes(b)
  {
    EncodedBody(b) + Padding(|b|)
  }

  /** The three byte positions of a group, one at a time. */
  lemma GroupDecodes(x: nat, y: nat, z: nat)
    requires x < 256 && y < 256 && z < 256
    ensures var g := Group(x, y, z);
            && High(Sextet(g[0]), Sextet(g[1])) == x as char
            && Middle(Sextet(g[1]), Sextet(g[2])) == y as char
            && Low(Sextet(g[2]), Sextet(g[3])) == z as char
  {
    hide Digit64, Sextet, High, Middle, Low;
    FirstByte(x, y / 16);
    SecondByte(y, x % 4, z / 64);
    ThirdByte(z, y % 16);
  }

  lemma FirstByte(x: nat, q: nat)
    requires x < 256 && q < 16
    ensures High(x / 4, x % 4 * 16 + q) == x as char
  {
    By16(x % 4, q);
  }

  lemma SecondByte(y: nat, p: nat, q: nat)
    requires y < 256 && p < 4 && q < 4
    ensures Middle(p * 16 + y / 16, y % 16 * 4 + q) == y as char
  {
    By16(p, y / 16);
    By4(y % 16, q);
  }

  lemma ThirdByte(z: nat, p: nat)
    requires z < 256 && p < 16
    ensures Low(p * 4 + z / 64, z % 64) == z as char
  {
    By4(p, z / 64);
  }

  lemma By16(a: nat, b: nat)
    requires b < 16
    ensures (a * 16 + b) / 16 == a && (a * 16 + b) % 16 == b
  {}

  lemma By4(a: nat, b: nat)
    requires b < 4
    ensures (a * 4 + b) / 4 == a && (a * 4 + b) % 4 == b
  {}

  lemma LastGroupDecodes(b: Bytes)
    requires IsBytes(b) && |b| < 3
    ensures DecodedBody(LastGroup(b)) == b
  {
    if b != "" {
      GroupDecodes(b[0] as int, if |b| > 1 then b[1] as int else 0, 0);
      hide Group, High, Middle, Low, Sextet, Alphabet;
    }
  }

  lemma DecodedGroup(g: Bytes, rest: Bytes)
    requires |g| == 4 && AllAlphabet(g) && AllAlphabet(rest) && |rest| % 4 != 1
    ensures AllAlphabet(g + rest)
    ensures DecodedBody(g + rest) ==
            [High(Sextet(g[0]), Sextet(g[1])), Middle(Sextet(g[1]), Sextet(g[2])), Low(Sextet(g[2]), Sextet(g[3]))]
            + DecodedBody(rest)
  {
    hide High, Middle, Low, Sextet, Alphabet;
    assert (g + rest)[4..] == rest;
  }

  lemma {:induction false} BodyDecodes(b: Bytes)
    requires IsBytes(b)
    ensures DecodedBody(EncodedBody(b)) == b
    decreases |b|
  {
    hide Group, LastGroup, DecodedBody, High, Middle, Low, Sextet, Alphabet;
    if |b| < 3 {
      LastGroupDecodes(b);
    } else {
      GroupDecodes(b[0] as int, b[1] as int, b[2] as int);
      DecodedGroup(Group(b[0] as int, b[1] as int, b[2] as int), EncodedBody(b[3..]));
      BodyDecodes(b[3..]);
      assert b == [b[0], b[1], b[2]] + b[3..];
    }
  }

  lemma PaddingGoes(body: Bytes, n: nat)
    requires AllAlphabet(body)
    ensures Unpadded(body + Padding(n)) == body
  {
    var e := body + Padding(n);
    assert body != "" ==> Alphabet(body[|body| - 1]) && e[|body| - 1] == body[|body| - 1];
    assert e[..|body|] == body;
  }

  lemma EncodedLength(b: Bytes)
    requires IsBytes(b)
    ensures |EncodedBody(b)| % 4 != 1 && |Encoded(b)| % 4 == 0
  {
    hide EncodedBody, Padding, IsBytes;
    Quarters(|b| / 3, |b| % 3);
  }

  lemma Quarters(q: nat, r: nat)
    requires r < 3
    ensures (q * 4 + (if r == 0 then 0 else r + 1)) % 4 != 1
    ensures (q * 4 + (if r == 0 then 0 else r + 1) + (if r == 1 then 2 else if r == 2 then 1 else 0)) % 4 == 0
  {
    if r == 0 {
      By4(q, 0);
    } else {
      By4(q, r + 1);
      By4(q + 1, 0);
    }
  }

  /** DECODING UNDOES ENCODING, for every byte string. */
  lemma DecodingUndoesEncoding(b: Bytes)
    requires IsBytes(b)
    ensures FromBase64(Encoded(b)) == b
  {
    EncodedLength(b);
    assert Encoded(b) == EncodedBody(b) + Padding(|b|);
    hide DecodedBody, EncodedBody, Unpadded, AllAlphabet, Padding, Encoded;
    BodyDecodes(b);
    PaddingGoes(EncodedBody(b), |b|);
  }

  // ------------------------------------------------------ encoded runs are found

  lemma {:induction false} SpanIs(data: Bytes, i: nat, j: nat)
    requires i <= j <= |data| && (forall k :: i <= k < j ==> Alphabet(data[k]))
    requires j < |data| ==> !Alphabet(data[j])
    ensures Span(data, i) == j - i
    decreases j - i
  {
    if i < j {
      SpanIs(data, i + 1, j);
    }
  }

  /** An encoded text of 18 bytes or more, followed by neither alphabet nor padding, is
      one match, whole. */
  lemma EncodedIsARun(before: Bytes, b: Bytes, after: Bytes)
    requires IsBytes(b) && |b| >= 18
    requires after != "" ==> !Alphabet(after[0]) && after[0] != '='
    ensures RunAt(Base64, before + Encoded(b) + after, |before|) == |Encoded(b)|
  {
    hide EncodedBody;
    var body, pad := EncodedBody(b), Padding(|b|);
    var data := before + Encoded(b) + after;
    var i, j := |before|, |before| + |body|;
    assert forall k :: i <= k < j ==> data[k] == body[k - i];
    assert forall k :: j <= k < j + |pad| ==> data[k] == pad[k - j];
    assert j + |pad| < |data| ==> data[j + |pad|] == after[0];
    SpanIs(data, i, j);
  }

  lemma FindHere(kind: Kind, data: Bytes, i: nat)
    requires i <= |data|
    ensures var n := RunAt(kind, data, i);
            FindFrom(kind, data, i) ==
            if i == |data| then []
            else if n > 0 then [data[i..i + n]] + FindFrom(kind, data, i + n)
            else FindFrom(kind, data, i + 1)
  {}

  /** Text without a backslash holds no hex run. */
  lemma {:induction false} NoHexRun(data: Bytes, i: nat)
    requires i <= |data| && '\\' !in data
    ensures FindFrom(Hex, data, i) == []
    decreases |data| - i
  {
    if i < |data| {
      NoHexRun(data, i + 1);
    }
  }

  // ------------------------------------------------------------- hex spellings

  function HexDigit(n: nat, upper: bool): (c: char)
    requires n < 16
    ensures HexChar(c) && HexValue(c) == n
  {
    if n < 10 then '0' + n as char else (if upper then 'A' else 'a') + (n - 10) as char
  }

  /** A byte as `\xHH`, each digit in a case of its own. */
  datatype Case = Case(first: bool, second: bool)

  function HexSpelling(b: Bytes, cases: seq<Case>): Bytes
    requires IsBytes(b) && |cases| == |b|
  {
    if b == "" then ""
    else
      var v := b[0] as nat;
      assert IsBytes(b[1..]) by { Bytewise(b); }
      ['\\', 'x', HexDigit(v / 16, cases[0].first), HexDigit(v % 16, cases[0].second)] + HexSpelling(b[1..], cases[1..])
  }

  lemma Bytewise(b: Bytes)
    requires IsBytes(b) && b != ""
    ensures b[0] as int < 256 && IsBytes(b[1..])
  {}

  lemma {:induction false} HexSpellingLength(b: Bytes, cases: seq<Case>)
    requires IsBytes(b) && |cases| == |b|
    ensures |HexSpelling(b, cases)| == 4 * |b|
  {
    if b != "" {
      Bytewise(b);
      HexSpellingLength(b[1..], cases[1..]);
    }
  }

  /** HEX DECODING UNDOES SPELLING, for every byte string and any case of the digits. */
  lemma {:induction false} HexUndoesSpelling(b: Bytes, cases: seq<Case>)
    requires IsBytes(b) && |cases| == |b|
    ensures FromHex(HexSpelling(b, cases)) == Some(b)
  {
    if b != "" {
      Bytewise(b);
      HexUndoesSpelling(b[1..], cases[1..]);
      var run, v := HexSpelling(b, cases), b[0] as nat;
      assert run[4..] == HexSpelling(b[1..], cases[1..]);
      assert HexValue(run[2]) == v / 16 && HexValue(run[3]) == v % 16;
      assert [b[0]] + b[1..] == b;
    }
  }

  /** A further `\xHH` begins here. */
  predicate HexPairAt(data: Bytes, i: nat) {
    i + 4 <= |data| && data[i] == '\\' && data[i + 1] == 'x' && HexChar(data[i + 2]) && HexChar(data[i + 3])
  }

  lemma PairAtTail(a: Bytes, b: Bytes)
    ensures HexPairAt(a + b, |a|) <==> HexPairAt(b, 0)
  {
    var c := a + b;
    assert c[|a|..] == b;
    forall k | 0 <= k < |b|
      ensures c[|a| + k] == b[k]
    {}
    assert |b| >= 4 ==> c[|a|] == b[0] && c[|a| + 1] == b[1] && c[|a| + 2] == b[2] && c[|a| + 3] == b[3];
  }

  lemma PairAtHead(a: Bytes, b: Bytes, k: nat)
    requires k + 4 <= |a|
    ensures HexPairAt(a + b, k) <==> HexPairAt(a, k)
  {
    var c := a + b;
    assert c[k] == a[k] && c[k + 1] == a[k + 1] && c[k + 2] == a[k + 2] && c[k + 3] == a[k + 3];
  }

  lemma {:induction false} PairsOfSpelling(data: Bytes, i: nat, b: Bytes, cases: seq<Case>)
    requires IsBytes(b) && |cases| == |b| && i + 4 * |b| <= |data|
    requires |HexSpelling(b, cases)| == 4 * |b| && data[i..i + 4 * |b|] == HexSpelling(b, cases)
    requires !HexPairAt(data, i + 4 * |b|)
    ensures HexPairs(data, i) == |b|
    decreases |b|
  {
    if b != "" {
      var run := HexSpelling(b, cases);
      Bytewise(b);
      HexSpellingLength(b[1..], cases[1..]);
      assert run[4..] == HexSpelling(b[1..], cases[1..]);
      assert data[i] == run[0] && data[i + 1] == run[1] && data[i + 2] == run[2] && data[i + 3] == run[3];
      assert data[i + 4..i + 4 * |b|] == run[4..];
      PairsOfSpelling(data, i + 4, b[1..], cases[1..]);
    }
  }

  /** A spelling of 16 bytes or more that no further `\xHH` follows is one match, whole. */
  lemma SpellingIsARun(before: Bytes, b: Bytes, cases: seq<Case>, after: Bytes)
    requires IsBytes(b) && |b| >= 16 && |cases| == |b| && !HexPairAt(after, 0)
    ensures RunAt(Hex, before + HexSpelling(b, cases) + after, |before|) == |HexSpelling(b, cases)|
  {
    HexSpellingLength(b, cases);
    var run := HexSpelling(b, cases);
    var data := before + run + after;
    var end := |before| + 4 * |b|;
    assert data[|before|..end] == run;
    assert data[end..] == after;
    PairAtTail(before + run, after);
    PairsOfSpelling(data, |before|, b, cases);
  }

  // ---------------------------------------------------------- found wherever

  /** A match to which no earlier one reaches is found. */
  lemma {:induction false} FoundFrom(kind: Kind, data: Bytes, j: nat, i: nat)
    requires j <= i <= |data| && RunAt(kind, data, i) > 0
    requires forall k :: j <= k < i ==> k + RunAt(kind, data, k) <= i
    ensures data[i..i + RunAt(kind, data, i)] in FindFrom(kind, data, j)
    decreases i - j
  {
    FindHere(kind, data, j);
    if j < i {
      var n := RunAt(kind, data, j);
      FoundFrom(kind, data, if n > 0 then j + n else j + 1, i);
    }
  }

  lemma {:induction false} SpanStops(data: Bytes, k: nat, i: nat)
    requires k < i <= |data| && !Alphabet(data[i - 1])
    ensures k + Span(data, k) <= i - 1
    decreases i - k
  {
    if k < i - 1 && Alphabet(data[k]) {
      SpanStops(data, k + 1, i);
    }
  }

  /** WHEREVER IT STANDS. An encoded text that no character of the alphabet precedes, and
      none and no padding follows, is found whole. */
  lemma EncodedIsFound(before: Bytes, b: Bytes, after: Bytes)
    requires IsBytes(b) && |b| >= 18
    requires before != "" ==> !Alphabet(before[|before| - 1])
    requires after != "" ==> !Alphabet(after[0]) && after[0] != '='
    ensures Encoded(b) in Find(Base64, before + Encoded(b) + after)
  {
    var data, i := before + Encoded(b) + after, |before|;
    EncodedIsARun(before, b, after);
    var n := RunAt(Base64, data, i);
    assert data[i..i + n] == Encoded(b);
    StartsInAlphabet(b);
    assert data[i] == Encoded(b)[0];
    forall k | 0 <= k < i
      ensures k + RunAt(Base64, data, k) <= i
    {
      assert data[i - 1] == before[i - 1];
      SpanStops(data, k, i);
      var e := k + Span(data, k);
      assert e + 1 == i ==> Pads(data, e) <= 1 by { assert data[i] != '='; }
    }
    FoundFrom(Base64, data, 0, i);
  }

  lemma StartsInAlphabet(b: Bytes)
    requires IsBytes(b) && |b| >= 3
    ensures Encoded(b) != "" && Alphabet(Encoded(b)[0])
  {
    EncodedLength(b);
    assert Encoded(b) == EncodedBody(b) + Padding(|b|);
    assert EncodedBody(b) != "";
  }

  lemma {:induction false} PairsStop(data: Bytes, k: nat, i: nat)
    requires k < i <= |data| && i < |data| && data[i] == '\\'
    requires i >= 4 ==> !HexPairAt(data, i - 4)
    ensures k + 4 * HexPairs(data, k) <= i
    decreases i - k
  {
    if HexPairAt(data, k) {
      assert !HexChar('\\');
      assert i != k + 1 && i != k + 2 && i != k + 3 && i != k + 4;
      PairsStop(data, k + 4, i);
    }
  }

  /** And so is a hex spelling that no `\xHH` precedes or follows. */
  lemma SpellingIsFound(before: Bytes, b: Bytes, cases: seq<Case>, after: Bytes)
    requires IsBytes(b) && |b| >= 16 && |cases| == |b| && !HexPairAt(after, 0)
    requires |before| >= 4 ==> !HexPairAt(before, |before| - 4)
    ensures HexSpelling(b, cases) in Find(Hex, before + HexSpelling(b, cases) + after)
  {
    hide HexSpelling, RunAt, HexPairAt, FindFrom, IsBytes, Find;
    HexSpellingLength(b, cases);
    SpellingIsARun(before, b, cases, after);
    SpellingStarts(b, cases);
    HexPiece(before, HexSpelling(b, cases), after);
  }

  lemma HexPiece(before: Bytes, run: Bytes, after: Bytes)
    requires run != "" && run[0] == '\\' && RunAt(Hex, before + run + after, |before|) == |run|
    requires |before| >= 4 ==> !HexPairAt(before, |before| - 4)
    ensures run in Find(Hex, before + run + after)
  {
    hide RunAt, HexPairAt, FindFrom;
    PieceOf(before, run, after);
    if |before| >= 4 {
      PairAtHead(before, run + after, |before| - 4);
      assert before + (run + after) == before + run + after;
    }
    NoneReaches(before + run + after, |before|);
    FoundFrom(Hex, before + run + after, 0, |before|);
  }

  lemma PieceOf(before: Bytes, run: Bytes, after: Bytes)
    requires run != ""
    ensures var data := before + run + after;
            data[|before|..|before| + |run|] == run && data[|before|] == run[0]
  {}

  lemma SpellingStarts(b: Bytes, cases: seq<Case>)
    requires IsBytes(b) && b != "" && |cases| == |b|
    ensures HexSpelling(b, cases) != "" && HexSpelling(b, cases)[0] == '\\'
  {}

  lemma NoneReaches(data: Bytes, i: nat)
    requires i < |data| && data[i] == '\\' && (i >= 4 ==> !HexPairAt(data, i - 4))
    ensures forall k :: 0 <= k < i ==> k + RunAt(Hex, data, k) <= i
  {
    hide HexPairAt;
    forall k | 0 <= k < i
      ensures k + RunAt(Hex, data, k) <= i
    {
      PairsStop(data, k, i);
    }
  }
}
